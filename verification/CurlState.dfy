/** The curl side of `struct reachard_client_state` and its callbacks (src/client/state.c:88-194). */
module CurlState {
  import opened PollMirror
  import opened Wrappers

  /** What the callback does to the loop once the socket has its open baton. */
  lemma {:induction false} RequestCases(n0: Net, s: Fd, what: What, mallocOk: bool, n: Net)
    requires s in n0.batonOf || mallocOk
    requires n == if s in n0.batonOf then n0 else NewBaton(n0, s)
    requires s in n.batonOf && Open(n, n.batonOf[s])
    ensures
      var b := n.batonOf[s];
      PollMirror.SocketFunction(n0, s, what, mallocOk) ==
      (if what.PollRemove? then
       n.(batons := n.batons[b := n.batons[b].(mask := None, closing := true)], batonOf := n.batonOf - {s})
       else n.(batons := n.batons[b := n.batons[b].(mask := Some(MaskOf(what)))]), true)
  {
    hide Watched;
  }

  lemma {:induction false} StoppedAndClosed(batons: map<Ptr, Baton>, b: Ptr)
    requires b in batons
    ensures
      var stopped := batons[b := batons[b].(mask := None)];
      stopped[b := stopped[b].(closing := true)] == batons[b := batons[b].(mask := None, closing := true)]
  {
  }

  class CurlState {
    var next: nat
    var batons: map<Ptr, Baton>
    ghost var freed: seq<Ptr>
    // Kept by curl: the pointer assigned to each socket and what was last asked for it
    var batonOf: map<Fd, Ptr>
    var interest: map<Fd, Mask>
    var errored: set<Fd>
    var timer: Timer

    /** No step of this class faults: what the steps look up is proved to be there. */
    ghost function Abs(): Net
      reads this
    {
      Net(next, batons, freed, batonOf, interest, errored, timer, false)
    }

    ghost predicate Usable()
      reads this
    {
      PollMirror.Valid(Abs()) && TimerOpen(Abs())
    }

    constructor ()
      ensures Abs() == EMPTY_NET
    {
      next, batons, freed, batonOf, interest, errored, timer := 0, map[], [], map[], map[], {}, Absent;
    }

    /** libuv refuses a descriptor that is watched; the caller proves that it is not. */
    method PollInitSocket(s: Fd) returns (b: Ptr)
      requires !Watched(Abs(), s)
      modifies `next, `batons
      ensures b == old(next) && next == old(next) + 1 && batons == old(batons)[b := Baton(s, None, false)]
    {
      b := next;
      next := next + 1;
      batons := batons[b := Baton(s, None, false)];
    }

    method SocketFunction(s: Fd, what: What, mallocOk: bool) returns (rc: int)
      requires PollMirror.Valid(Abs())
      modifies this
      ensures (Abs(), rc == 0) == PollMirror.SocketFunction(old(Abs()), s, what, mallocOk)
      ensures rc != 0 ==> rc == -1
    {
      var b: Ptr;
      if s in batonOf {
        assert Mirrored(Abs(), s);
        b := batonOf[s];
      } else {
        if !mallocOk {
          return -1;
        }
        NewBatonValidExcept(Abs(), s);
        b := PollInitSocket(s);
        batonOf := batonOf[s := b];
      }
      ghost var n := Abs();
      assert n == if s in old(batonOf) then old(Abs()) else NewBaton(old(Abs()), s);
      RequestCases(old(Abs()), s, what, mallocOk, n);
      hide PollMirror.Valid, Watched, NewBaton, PollMirror.SocketFunction, PollMirror.PollStart, PollRemoved;
      match what {
        case PollIn => PollStart(b, Mask(true, false));
        case PollOut => PollStart(b, Mask(false, true));
        case PollInOut => PollStart(b, Mask(true, true));
        case PollRemove =>
          PollStop(b);
          batonOf := batonOf - {s};
          Close(b);
          StoppedAndClosed(n.batons, b);
      }
      rc := 0;
    }

    method PollStart(b: Ptr, m: Mask)
      requires Open(Abs(), b)
      modifies `batons
      ensures batons == old(batons)[b := old(batons)[b].(mask := Some(m))]
    {
      batons := batons[b := batons[b].(mask := Some(m))];
    }

    method PollStop(b: Ptr)
      requires Open(Abs(), b)
      modifies `batons
      ensures batons == old(batons)[b := old(batons)[b].(mask := None)]
    {
      batons := batons[b := batons[b].(mask := None)];
    }

    method Close(b: Ptr)
      requires Open(Abs(), b)
      modifies `batons
      ensures batons == old(batons)[b := old(batons)[b].(closing := true)]
    {
      batons := batons[b := batons[b].(closing := true)];
    }

    method TimerFunction(ms: int)
      requires TimerOpen(Abs())
      modifies `timer
      ensures Abs() == PollMirror.TimerFunction(old(Abs()), ms)
    {
      if ms >= 0 {
        timer := Armed(ms, 0);
      } else {
        timer := Idle;
      }
    }

    /** The close callback of a poll. */
    method SocketDeinit(b: Ptr)
      requires b in batons && batons[b].closing
      modifies this
      ensures Abs() == PollMirror.SocketDeinit(old(Abs()), b)
    {
      batons := batons - {b};
      freed := freed + [b];
    }

    // ---- curl and libuv ----

    /** A call into curl that makes these callbacks. */
    method CallCurl(cbs: seq<Callback>)
      requires Usable()
      modifies this
      ensures Usable() && Abs() == DeliverAll(old(Abs()), cbs)
    {
      var i := 0;
      while i < |cbs|
        invariant 0 <= i <= |cbs|
        invariant Usable()
        invariant DeliverAll(Abs(), cbs[i..]) == DeliverAll(old(Abs()), cbs)
      {
        ghost var before := Abs();
        DeliverKeepsValid(before, cbs[i]);
        match cbs[i] {
          case Socket(s, what, mallocOk) =>
            var rc := SocketFunction(s, what, mallocOk);
            if rc == 0 {
              interest := if what.PollRemove? then interest - {s} else interest[s := MaskOf(what)];
              errored := errored - {s};
            }
          case SetTimer(ms) => TimerFunction(ms);
        }
        assert Abs() == Deliver(before, cbs[i]);
        assert cbs[i..][1..] == cbs[i + 1..];
        i := i + 1;
      }
      assert cbs[i..] == [];
    }

    /** libuv stops a poll it is about to report an error for. */
    method PollFails(b: Ptr)
      requires Open(Abs(), b)
      modifies this
      ensures Abs() == PollError(old(Abs()), b)
    {
      errored := errored + {batons[b].s};
      batons := batons[b := batons[b].(mask := None)];
    }
  }
}
