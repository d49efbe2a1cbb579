/**
 The socket and timer callbacks that libcurl drives (src/client/state.c:88-194).

 `Net` is everything those callbacks touch: the malloc'd batons with the libuv poll inside each,
 the pointer curl keeps per socket, what curl last asked for, and curl's one timer.  A baton is
 removed from `batons` when it is freed, and `freed` records every free in order.  `fault` is
 raised by a step that uses a baton that is not open, frees one that is not closing, initializes
 a poll on a watched descriptor, or starts a timer that is closed.
 */
module PollMirror {
  import opened Sequences
  import opened Wrappers

  type Ptr = nat
  type Fd = int

  datatype Mask = Mask(readable: bool, writable: bool)
  datatype What = PollIn | PollOut | PollInOut | PollRemove

  /** A libuv timer: when it is due and how it repeats; with a `period` of 0 it fires once. */
  datatype Timer = Absent | Idle | Armed(due: int, period: int) | Closing

  /** `mask` is what libuv watches; `None` is a poll that is not started. */
  datatype Baton = Baton(s: Fd, mask: Option<Mask>, closing: bool)

  datatype Net = Net(next: nat, batons: map<Ptr, Baton>, freed: seq<Ptr>, batonOf: map<Fd, Ptr>,
                     interest: map<Fd, Mask>, errored: set<Fd>, timer: Timer, fault: bool)

  datatype Callback =
    | Socket(s: Fd, what: What, mallocOk: bool)
    | SetTimer(ms: int)

  const EMPTY_NET := Net(0, map[], [], map[], map[], {}, Absent, false)

  function MaskOf(what: What): Mask {
    Mask(what.PollIn? || what.PollInOut?, what.PollOut? || what.PollInOut?)
  }

  predicate Open(n: Net, b: Ptr) {
    b in n.batons && !n.batons[b].closing
  }

  /** The descriptor has a started poll, so that libuv would refuse a second one. */
  ghost predicate Watched(n: Net, s: Fd) {
    exists b :: b in n.batons && n.batons[b].s == s && n.batons[b].mask.Some?
  }

  // ---- Steps ----

  ghost function NewBaton(n: Net, s: Fd): Net {
    n.(next := n.next + 1,
    batons := n.batons[n.next := Baton(s, None, false)],
    batonOf := n.batonOf[s := n.next],
    fault := n.fault || Watched(n, s))
  }

  ghost function PollStart(n: Net, b: Ptr, m: Mask): Net {
    if Open(n, b) then n.(batons := n.batons[b := n.batons[b].(mask := Some(m))])
    else n.(fault := true)
  }

  ghost function PollRemoved(n: Net, b: Ptr, s: Fd): Net {
    if Open(n, b) then
      n.(batons := n.batons[b := n.batons[b].(mask := None, closing := true)],
      batonOf := n.batonOf - {s})
    else n.(fault := true)
  }

  ghost function SocketFunction(n: Net, s: Fd, what: What, mallocOk: bool): (Net, bool) {
    if s !in n.batonOf && !mallocOk then (n, false)
    else
      var n' := if s in n.batonOf then n else NewBaton(n, s);
      var b := n'.batonOf[s];
      (if what.PollRemove? then PollRemoved(n', b, s) else PollStart(n', b, MaskOf(what)), true)
  }

  ghost function TimerFunction(n: Net, ms: int): Net {
    if n.timer.Closing? || n.timer.Absent? then n.(fault := true)
    else n.(timer := if ms >= 0 then Armed(ms, 0) else Idle)
  }

  /** What curl keeps about a socket once its callback has accepted a request. */
  ghost function Recorded(n: Net, s: Fd, what: What): Net {
    n.(interest := if what.PollRemove? then n.interest - {s} else n.interest[s := MaskOf(what)],
    errored := n.errored - {s})
  }

  /** One callback made by curl; curl records a request only if the callback returned 0. */
  ghost function Deliver(n: Net, cb: Callback): Net {
    match cb
    case Socket(s, what, mallocOk) =>
      var (n', accepted) := SocketFunction(n, s, what, mallocOk);
      if accepted then Recorded(n', s, what) else n'
    case SetTimer(ms) => TimerFunction(n, ms)
  }

  ghost function DeliverAll(n: Net, cbs: seq<Callback>): Net
    decreases |cbs|
  {
    if cbs == [] then n else DeliverAll(Deliver(n, cbs[0]), cbs[1..])
  }

  /** libuv reports an error on a poll: it stops the poll before it calls back. */
  ghost function PollError(n: Net, b: Ptr): Net {
    if Open(n, b) then
      n.(batons := n.batons[b := n.batons[b].(mask := None)], errored := n.errored + {n.batons[b].s})
    else n.(fault := true)
  }

  /** The close callback of a poll, run by libuv after the call that closed it. */
  ghost function SocketDeinit(n: Net, b: Ptr): Net {
    if b in n.batons && n.batons[b].closing then
      n.(batons := n.batons - {b}, freed := n.freed + [b])
    else n.(fault := true)
  }

  // ---- Invariant ----

  ghost predicate TimerOpen(n: Net) {
    n.timer.Idle? || n.timer.Armed?
  }

  /** The baton that curl keeps for `s` is open, is for `s`, and is watched as curl asked. */
  ghost predicate Mirrored(n: Net, s: Fd) {
    && s in n.interest && s in n.batonOf && n.batonOf[s] in n.batons
    && n.batons[n.batonOf[s]] == Baton(s, if s in n.errored then None else Some(n.interest[s]), false)
  }

  /** Every baton is either closing and stopped, or the one curl keeps for its socket. */
  ghost predicate Placed(n: Net, b: Ptr)
    requires b in n.batons
  {
    if n.batons[b].closing then n.batons[b].mask.None?
    else n.batons[b].s in n.batonOf && n.batonOf[n.batons[b].s] == b
  }

  ghost predicate Ledger(n: Net) {
    && (forall b :: b in n.batons ==> b < n.next && Placed(n, b))
    && (forall i :: 0 <= i < |n.freed| ==> n.freed[i] < n.next && n.freed[i] !in n.batons)
    && NoDuplicates(n.freed)
    && n.next == |n.batons| + |n.freed|
  }

  ghost predicate Valid(n: Net) {
    && !n.fault
    && Ledger(n)
    && n.interest.Keys == n.batonOf.Keys
    && n.errored <= n.batonOf.Keys
    && (forall s :: s in n.batonOf ==> Mirrored(n, s))
  }

  /** `Valid` in the middle of a request for `s`, whose baton is open but not yet set to the request. */
  ghost predicate ValidExcept(n: Net, s: Fd) {
    && !n.fault
    && Ledger(n)
    && s in n.batonOf && Open(n, n.batonOf[s]) && n.batons[n.batonOf[s]].s == s
    && n.interest.Keys + {s} == n.batonOf.Keys
    && n.errored <= n.batonOf.Keys
    && (forall s' :: s' in n.batonOf && s' != s ==> Mirrored(n, s'))
  }

  lemma {:induction false} NewBatonValidExcept(n: Net, s: Fd)
    requires Valid(n) && s !in n.batonOf
    ensures !Watched(n, s)
    ensures ValidExcept(NewBaton(n, s), s)
  {
    var n' := NewBaton(n, s);
    assert forall b :: b in n.batons ==> n.batons[b].s != s || n.batons[b].closing;
    forall b | b in n'.batons ensures Placed(n', b) {
      if b != n.next { assert Placed(n, b); }
    }
    forall s' | s' in n'.batonOf && s' != s ensures Mirrored(n', s') {
      assert Mirrored(n, s');
    }
  }

  lemma {:induction false} StartKeepsValid(n: Net, s: Fd, what: What)
    requires ValidExcept(n, s) && !what.PollRemove?
    ensures Valid(Recorded(PollStart(n, n.batonOf[s], MaskOf(what)), s, what))
  {
    var n' := Recorded(PollStart(n, n.batonOf[s], MaskOf(what)), s, what);
    forall b | b in n'.batons ensures Placed(n', b) {
      assert Placed(n, b);
    }
    forall s' | s' in n'.batonOf ensures Mirrored(n', s') {
      if s' != s { assert Mirrored(n, s'); }
    }
  }

  lemma {:induction false} RemoveKeepsValid(n: Net, s: Fd)
    requires ValidExcept(n, s)
    ensures Valid(Recorded(PollRemoved(n, n.batonOf[s], s), s, PollRemove))
  {
    var n' := Recorded(PollRemoved(n, n.batonOf[s], s), s, PollRemove);
    forall b | b in n'.batons ensures Placed(n', b) {
      assert Placed(n, b);
    }
    forall s' | s' in n'.batonOf ensures Mirrored(n', s') {
      assert Mirrored(n, s');
    }
  }

  lemma {:induction false} DeliverKeepsValid(n: Net, cb: Callback)
    requires Valid(n) && TimerOpen(n)
    ensures Valid(Deliver(n, cb)) && TimerOpen(Deliver(n, cb))
  {
    match cb
    case SetTimer(ms) =>
      assert forall b :: b in n.batons ==> Placed(n, b) && Placed(TimerFunction(n, ms), b);
      assert forall s :: s in n.batonOf ==> Mirrored(n, s) && Mirrored(TimerFunction(n, ms), s);
    case Socket(s, what, mallocOk) =>
      if s in n.batonOf || mallocOk {
        var n' := if s in n.batonOf then n else NewBaton(n, s);
        if s in n.batonOf {
          assert Mirrored(n, s);
        } else {
          NewBatonValidExcept(n, s);
        }
        assert ValidExcept(n', s);
        if what.PollRemove? {
          RemoveKeepsValid(n', s);
        } else {
          StartKeepsValid(n', s, what);
        }
      }
  }

  lemma {:induction false} DeliverAllKeepsValid(n: Net, cbs: seq<Callback>)
    requires Valid(n) && TimerOpen(n)
    ensures Valid(DeliverAll(n, cbs)) && TimerOpen(DeliverAll(n, cbs))
    decreases |cbs|
  {
    if cbs != [] {
      DeliverKeepsValid(n, cbs[0]);
      DeliverAllKeepsValid(Deliver(n, cbs[0]), cbs[1..]);
    }
  }

  lemma {:induction false} PollErrorKeepsValid(n: Net, b: Ptr)
    requires Valid(n) && Open(n, b)
    ensures Valid(PollError(n, b)) && PollError(n, b).timer == n.timer
  {
  }

  lemma {:induction false} SocketDeinitKeepsValid(n: Net, b: Ptr)
    requires Valid(n) && b in n.batons && n.batons[b].closing
    ensures Valid(SocketDeinit(n, b))
  {
  }

  // ---- What the invariant says ----

  ghost function LiveBatons(n: Net): set<Ptr> {
    set b | b in n.batons && !n.batons[b].closing
  }

  ghost function ClosingBatons(n: Net): set<Ptr> {
    set b | b in n.batons && n.batons[b].closing
  }

  /** What libuv is watching: descriptor and events of every started poll. */
  ghost function Watching(n: Net): set<(Fd, Mask)> {
    set b | b in n.batons && n.batons[b].mask.Some? :: (n.batons[b].s, n.batons[b].mask.value)
  }

  /** Every allocated baton is live, closing or freed, and no free happened twice. */
  lemma {:induction false} BatonsConserved(n: Net)
    requires Valid(n)
    ensures |LiveBatons(n)| + |ClosingBatons(n)| + |n.freed| == n.next
    ensures NoDuplicates(n.freed)
    ensures forall i :: 0 <= i < |n.freed| ==> n.freed[i] !in LiveBatons(n) + ClosingBatons(n)
  {
    assert LiveBatons(n) + ClosingBatons(n) == n.batons.Keys;
    assert LiveBatons(n) * ClosingBatons(n) == {};
    assert |LiveBatons(n) + ClosingBatons(n)| == |LiveBatons(n)| + |ClosingBatons(n)|;
  }

  /**
   libuv watches what curl asked for on every socket that has no unanswered error, and nothing
   else; curl's batons are distinct and each is for the socket it is kept for.
   */
  lemma {:induction false} WatchingIsInterest(n: Net)
    requires Valid(n)
    ensures Watching(n) == set s | s in n.interest && s !in n.errored :: (s, n.interest[s])
    ensures forall s :: s in n.batonOf ==> n.batonOf[s] in n.batons && n.batons[n.batonOf[s]].s == s
    ensures forall s, s' :: s in n.batonOf && s' in n.batonOf && s != s' ==> n.batonOf[s] != n.batonOf[s']
  {
  }

  // ---- Whole runs of callbacks, errors and close callbacks ----

  datatype NetStep = Curl(cb: Callback) | Failed(b: Ptr) | Closed(b: Ptr)

  ghost predicate NetLegal(n: Net, e: NetStep) {
    match e
    case Curl(_) => true
    case Failed(b) => Open(n, b) && n.batons[b].mask.Some?
    case Closed(b) => b in n.batons && n.batons[b].closing
  }

  ghost function NetNext(n: Net, e: NetStep): Net {
    match e
    case Curl(cb) => Deliver(n, cb)
    case Failed(b) => PollError(n, b)
    case Closed(b) => SocketDeinit(n, b)
  }

  ghost predicate NetRunLegal(n: Net, es: seq<NetStep>)
    decreases |es|
  {
    es == [] || (NetLegal(n, es[0]) && NetRunLegal(NetNext(n, es[0]), es[1..]))
  }

  ghost function NetRun(n: Net, es: seq<NetStep>): Net
    decreases |es|
  {
    if es == [] then n else NetRun(NetNext(n, es[0]), es[1..])
  }

  /**
   What curl asked for last on each socket, read off the run alone.  A first request whose
   baton could not be allocated is answered with -1 and is not one curl keeps.
   */
  ghost function LastRequests(want: map<Fd, Mask>, es: seq<NetStep>): map<Fd, Mask>
    decreases |es|
  {
    if es == [] then want else LastRequests(Requested(want, es[0]), es[1..])
  }

  ghost function Requested(want: map<Fd, Mask>, e: NetStep): map<Fd, Mask> {
    match e
    case Curl(Socket(s, what, mallocOk)) =>
      if s !in want && !mallocOk then want
      else if what.PollRemove? then want - {s}
      else want[s := MaskOf(what)]
    case _ => want
  }

  lemma {:induction false} NetNextKeepsValid(n: Net, e: NetStep)
    requires Valid(n) && TimerOpen(n) && NetLegal(n, e)
    ensures Valid(NetNext(n, e)) && TimerOpen(NetNext(n, e))
  {
    hide Valid;
    match e
    case Curl(cb) => DeliverKeepsValid(n, cb);
    case Failed(b) => PollErrorKeepsValid(n, b);
    case Closed(b) => SocketDeinitKeepsValid(n, b);
  }

  lemma {:induction false} NetNextInterest(n: Net, e: NetStep)
    requires n.interest.Keys == n.batonOf.Keys
    ensures NetNext(n, e).interest == Requested(n.interest, e)
  {
    hide Watched, NewBaton, PollStart, PollRemoved;
    if e.Curl? && e.cb.Socket? {
      AcceptedUnless(n, e.cb.s, e.cb.what, e.cb.mallocOk);
    }
  }

  lemma {:induction false} AcceptedUnless(n: Net, s: Fd, what: What, mallocOk: bool)
    ensures SocketFunction(n, s, what, mallocOk).0.interest == n.interest
    ensures SocketFunction(n, s, what, mallocOk).1 <==> s in n.batonOf || mallocOk
  {
  }

  lemma {:induction false} NetRunKeepsValid(n: Net, es: seq<NetStep>)
    requires Valid(n) && TimerOpen(n) && NetRunLegal(n, es)
    ensures Valid(NetRun(n, es)) && TimerOpen(NetRun(n, es))
    ensures NetRun(n, es).interest == LastRequests(n.interest, es)
    decreases |es|
  {
    if es != [] {
      NetNextKeepsValid(n, es[0]);
      NetNextInterest(n, es[0]);
      NetRunKeepsValid(NetNext(n, es[0]), es[1..]);
    }
  }

  ghost predicate NoErrors(es: seq<NetStep>) {
    forall i :: 0 <= i < |es| ==> !es[i].Failed?
  }

  lemma {:induction false} NoErrorsNoneOutstanding(n: Net, es: seq<NetStep>)
    requires NoErrors(es) && n.errored == {}
    ensures NetRun(n, es).errored == {}
    decreases |es|
  {
    if es != [] {
      assert NetNext(n, es[0]).errored == {} by { assert !es[0].Failed?; }
      NoErrorsNoneOutstanding(NetNext(n, es[0]), es[1..]);
    }
  }

  /**
   The mirror theorem: from an empty loop, after any run of curl requests and close callbacks,
   descriptor reuse included, libuv watches exactly the last requests; with polls that reported
   errors it still watches exactly those last requests that came after the error.
   */
  lemma {:induction false} MirrorsEveryRun(es: seq<NetStep>)
    requires NetRunLegal(StartNet(), es)
    ensures
      var n := NetRun(StartNet(), es);
      var want := LastRequests(map[], es);
      && !n.fault
      && Watching(n) == (set s | s in want && s !in n.errored :: (s, want[s]))
      && (NoErrors(es) ==> Watching(n) == set s | s in want :: (s, want[s]))
      && |LiveBatons(n)| == |want|
      && |LiveBatons(n)| + |ClosingBatons(n)| + |n.freed| == n.next
      && NoDuplicates(n.freed)
  {
    hide *;
    var n := NetRun(StartNet(), es);
    NetRunKeepsValid(StartNet(), es);
    ValidMirrors(n);
    if NoErrors(es) {
      NoErrorsNoneOutstanding(StartNet(), es);
    }
  }

  /** What libuv watches after one request: for its own socket what it asks for, for others what it did before. */
  lemma {:induction false} RequestWatched(n: Net, s: Fd, what: What, mallocOk: bool)
    requires Valid(n) && TimerOpen(n)
    ensures
      var others := set w | w in Watching(n) && w.0 != s;
      var after := Watching(Deliver(n, Socket(s, what, mallocOk)));
      if s !in n.batonOf && !mallocOk then after == Watching(n)
      else
        match what
        case PollIn => after == others + {(s, Mask(true, false))}
        case PollOut => after == others + {(s, Mask(false, true))}
        case PollInOut => after == others + {(s, Mask(true, true))}
        case PollRemove => after == others
  {
    hide *;
    var n' := Deliver(n, Socket(s, what, mallocOk));
    DeliverKeepsValid(n, Socket(s, what, mallocOk));
    WatchingIsWanted(n);
    WatchingIsWanted(n');
    RequestRecorded(n, s, what, mallocOk);
    MasksAre(what);
    if s in n.batonOf || mallocOk {
      WantedNext(n.interest, n.errored, s, if what.PollRemove? then None else Some(MaskOf(what)));
    }
  }

  lemma {:induction false} MasksAre(what: What)
    ensures
      match what
      case PollIn => MaskOf(what) == Mask(true, false)
      case PollOut => MaskOf(what) == Mask(false, true)
      case PollInOut => MaskOf(what) == Mask(true, true)
      case PollRemove => true
  {
  }

  ghost function Wanted(want: map<Fd, Mask>, errored: set<Fd>): set<(Fd, Mask)> {
    set s | s in want && s !in errored :: (s, want[s])
  }

  lemma {:induction false} WatchingIsWanted(n: Net)
    requires Valid(n)
    ensures Watching(n) == Wanted(n.interest, n.errored) && n.interest.Keys == n.batonOf.Keys
  {
    WatchingIsInterest(n);
  }

  lemma {:induction false} WantedNext(want: map<Fd, Mask>, errored: set<Fd>, s: Fd, m: Option<Mask>)
    ensures
      var others := set w | w in Wanted(want, errored) && w.0 != s;
      Wanted(if m.None? then want - {s} else want[s := m.value], errored - {s}) ==
      others + if m.None? then {} else {(s, m.value)}
  {
    var before := Wanted(want, errored);
    var want' := if m.None? then want - {s} else want[s := m.value];
    var after := Wanted(want', errored - {s});
    forall w | w in after ensures (w in before && w.0 != s) || (m.Some? && w == (s, m.value)) {
    }
    forall w | w in before && w.0 != s ensures w in after {
      assert w.0 in want' && want'[w.0] == want[w.0] && w == (w.0, want'[w.0]);
    }
    if m.Some? {
      assert s in want' && want'[s] == m.value;
    }
  }

  lemma {:induction false} RequestRecorded(n: Net, s: Fd, what: What, mallocOk: bool)
    requires n.interest.Keys == n.batonOf.Keys
    ensures
      var n' := Deliver(n, Socket(s, what, mallocOk));
      if s !in n.batonOf && !mallocOk then n' == n
      else
        && n'.errored == n.errored - {s}
        && n'.interest == if what.PollRemove? then n.interest - {s} else n.interest[s := MaskOf(what)]
  {
    hide Watched;
  }

  // ---- curl's timer ----

  /** The time-out curl asked for last, read off the run alone. */
  ghost function LastTimeout(last: Option<int>, es: seq<NetStep>): Option<int>
    decreases |es|
  {
    if es == [] then last
    else LastTimeout(if es[0].Curl? && es[0].cb.SetTimer? then Some(es[0].cb.ms) else last, es[1..])
  }

  /** The timer is as the last request wants it, or not running if there was none. */
  ghost predicate TimerIs(t: Timer, last: Option<int>) {
    && (t.Idle? || t.Armed?)
    && (t.Armed? <==> last.Some? && last.value >= 0)
    && (t.Armed? ==> t.due == last.value && t.period == 0)
  }

  /**
   After every run of callbacks, errors and close callbacks the timer runs exactly if the last
   time-out curl asked for is 0 or more; it is due then, and once.
   */
  lemma {:induction false} TimerFollowsEveryRun(es: seq<NetStep>)
    requires NetRunLegal(StartNet(), es)
    ensures TimerIs(NetRun(StartNet(), es).timer, LastTimeout(None, es))
  {
    TimerFollows(StartNet(), None, es);
  }

  lemma {:induction false} TimerFollows(n: Net, last: Option<int>, es: seq<NetStep>)
    requires TimerIs(n.timer, last) && NetRunLegal(n, es)
    ensures TimerIs(NetRun(n, es).timer, LastTimeout(last, es))
    decreases |es|
  {
    if es != [] {
      var e := es[0];
      TimerNext(n, last, e);
      TimerFollows(NetNext(n, e), if e.Curl? && e.cb.SetTimer? then Some(e.cb.ms) else last, es[1..]);
    }
  }

  lemma {:induction false} TimerNext(n: Net, last: Option<int>, e: NetStep)
    requires TimerIs(n.timer, last)
    ensures TimerIs(NetNext(n, e).timer, if e.Curl? && e.cb.SetTimer? then Some(e.cb.ms) else last)
  {
    hide Watched;
  }

  lemma {:induction false} ValidMirrors(n: Net)
    requires Valid(n)
    ensures !n.fault
    ensures Watching(n) == (set s | s in n.interest && s !in n.errored :: (s, n.interest[s]))
    ensures n.errored == {} ==> Watching(n) == set s | s in n.interest :: (s, n.interest[s])
    ensures |LiveBatons(n)| == |n.interest|
    ensures |LiveBatons(n)| + |ClosingBatons(n)| + |n.freed| == n.next
    ensures NoDuplicates(n.freed)
  {
    ValidNoFault(n);
    BatonsConserved(n);
    LiveBatonsCount(n);
    WatchingIsInterest(n);
    if n.errored == {} {
      hide *;
      assert (set s | s in n.interest && s !in n.errored :: (s, n.interest[s])) ==
             set s | s in n.interest :: (s, n.interest[s]);
    }
  }

  lemma {:induction false} ValidNoFault(n: Net)
    requires Valid(n)
    ensures !n.fault
  {
  }

  /** The loop once the timer is initialized and before curl has called back. */
  ghost function StartNet(): (n: Net)
    ensures Valid(n) && TimerOpen(n) && n.interest == map[] && n.errored == {}
  {
    EMPTY_NET.(timer := Idle)
  }

  /** One live baton per socket curl is interested in. */
  lemma {:induction false} LiveBatonsCount(n: Net)
    requires Valid(n)
    ensures |LiveBatons(n)| == |n.interest|
  {
    WatchingIsInterest(n);
    ImageCount(n.batonOf, n.batonOf.Keys);
    var image := set s | s in n.batonOf.Keys :: n.batonOf[s];
    assert forall b :: b in n.batons ==> Placed(n, b);
    assert forall s :: s in n.batonOf ==> Mirrored(n, s);
    forall b | b in LiveBatons(n) ensures b in image {
      assert Placed(n, b);
    }
    assert LiveBatons(n) == image;
    assert |n.interest| == |n.interest.Keys| && |n.batonOf| == |n.batonOf.Keys|;
  }

  /** An injective map has as many values as keys. */
  lemma {:induction false} ImageCount(f: map<int, Ptr>, keys: set<int>)
    requires keys <= f.Keys
    requires forall k, k' :: k in f && k' in f && k != k' ==> f[k] != f[k']
    ensures |set k | k in keys :: f[k]| == |keys|
    decreases |keys|
  {
    if keys != {} {
      var k0 := AnyOf(keys);
      ImageCount(f, keys - {k0});
      assert (set k | k in keys :: f[k]) == (set k | k in keys - {k0} :: f[k]) + {f[k0]};
    }
  }

  /**
   Reuse happens: a descriptor can be watched through a new baton while the baton of its former
   connection is still waiting for its close callback.
   */
  lemma {:induction false} DescriptorReused() returns (es: seq<NetStep>)
    ensures NetRunLegal(StartNet(), es)
    ensures
      var n := NetRun(StartNet(), es);
      && Watching(n) == {(7, Mask(false, true))}
      && (exists b, b' :: b in LiveBatons(n) && b' in ClosingBatons(n) && n.batons[b].s == n.batons[b'].s == 7)
  {
    hide *;
    var e0, e1, e2 := Curl(Socket(7, PollIn, true)), Curl(Socket(7, PollRemove, true)), Curl(Socket(7, PollOut, true));
    var n1, n2, n3 := Reuse(1), Reuse(2), Reuse(3);
    es := [e0] + ([e1] + ([e2] + []));
    ReuseSteps();
    ReuseEnd();
    NetRunCons(n2, e2, []);
    NetRunCons(n1, e1, [e2] + []);
    NetRunCons(StartNet(), e0, [e1] + ([e2] + []));
  }

  lemma {:induction false} ReuseEnd()
    ensures
      var n := Reuse(3);
      && NetRunLegal(n, []) && NetRun(n, []) == n
      && Watching(n) == {(7, Mask(false, true))}
      && (exists b, b' :: b in LiveBatons(n) && b' in ClosingBatons(n) && n.batons[b].s == n.batons[b'].s == 7)
  {
    var n := Reuse(3);
    assert 1 in LiveBatons(n) && 0 in ClosingBatons(n);
  }

  /** The loop after each of three requests for one descriptor. */
  ghost function Reuse(k: nat): Net {
    var read, write := Mask(true, false), Mask(false, true);
    var n := StartNet();
    if k == 1 then n.(next := 1, batons := map[0 := Baton(7, Some(read), false)], batonOf := map[7 := 0],
                   interest := map[7 := read])
    else if k == 2 then n.(next := 1, batons := map[0 := Baton(7, None, true)])
    else n.(next := 2, batons := map[0 := Baton(7, None, true), 1 := Baton(7, Some(write), false)],
         batonOf := map[7 := 1], interest := map[7 := write])
  }

  lemma {:induction false} ReuseSteps()
    ensures NetNext(StartNet(), Curl(Socket(7, PollIn, true))) == Reuse(1)
    ensures NetNext(Reuse(1), Curl(Socket(7, PollRemove, true))) == Reuse(2)
    ensures NetNext(Reuse(2), Curl(Socket(7, PollOut, true))) == Reuse(3)
  {
    FirstUse();
    Removal();
    hide *;
    SecondUse();
  }

  lemma {:induction false} FirstUse()
    ensures NetNext(StartNet(), Curl(Socket(7, PollIn, true))) == Reuse(1)
  {
  }

  lemma {:induction false} Removal()
    ensures NetNext(Reuse(1), Curl(Socket(7, PollRemove, true))) == Reuse(2)
  {
    assert map[7 := 0] - {7} == map[] && map[7 := Mask(true, false)] - {7} == map[];
  }

  lemma {:induction false} SecondUse()
    ensures NetNext(Reuse(2), Curl(Socket(7, PollOut, true))) == Reuse(3)
  {
  }

  lemma {:induction false} NetRunCons(n: Net, e: NetStep, es: seq<NetStep>)
    ensures e.Curl? ==> NetLegal(n, e)
    ensures NetRun(n, [e] + es) == NetRun(NetNext(n, e), es)
    ensures NetRunLegal(n, [e] + es) <==> NetLegal(n, e) && NetRunLegal(NetNext(n, e), es)
  {
  }
}
