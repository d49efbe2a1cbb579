/**
 Who owns what on the client's heap: targets, transfer records and easy handles
 (src/client/targets.c, src/client/watcher.c:53-131, src/client/state.c:66-86 and 209-228).

 A map holds what is allocated and not freed; `fault` is raised by a step that reads or frees
 something that is not there, or closes a timer twice.
 */
module Ownership {
  import opened PollMirror
  import opened Sequences

  /** A `struct reachard_client_target`: its timer is the first member. */
  datatype Cell = Cell(id: int, up: bool, timer: Timer)

  datatype Message = Done(easy: Ptr, err: int, status: int) | OtherMessage

  /** How `curl_easy_init` and `curl_multi_add_handle`, both unchecked, went. */
  datatype Attach = NoEasy | Refused | Attached

  /**
   `transfers` maps a record to its target and `easies` an easy handle to its private record;
   `attached` are the handles in the multi handle, `messages` its unread messages.  `lost` are
   the records that nothing will ever free: their handle never got into the multi handle, or
   was taken out of it by the shutdown.
   */
  datatype Heap = Heap(next: nat, targets: map<Ptr, Cell>, index: seq<Ptr>, transfers: map<Ptr, Ptr>,
                       easies: map<Ptr, Ptr>, attached: set<Ptr>, messages: seq<Message>,
                       lost: set<Ptr>, fault: bool)

  const EMPTY_HEAP := Heap(0, map[], [], map[], map[], {}, [], {}, false)

  function Classify(err: int, status: int): bool {
    err == 0 && 200 <= status <= 299
  }

  // ---- Steps ----

  /** Allocate a target, start its timer and put it into the hash. */
  ghost function AddTarget(h: Heap, id: int, up: bool, interval: int): Heap {
    h.(next := h.next + 1,
    targets := h.targets[h.next := Cell(id, up, Armed(0, interval * 1000))],
    index := h.index + [h.next])
  }

  /** Take the first or any indexed target out of the hash and close its timer. */
  ghost function DropTarget(h: Heap, i: nat): Heap
    requires i < |h.index|
  {
    var p := h.index[i];
    var h' := h.(index := RemoveAt(h.index, i));
    if p in h.targets && !h.targets[p].timer.Closing? then
      h'.(targets := h.targets[p := h.targets[p].(timer := Closing)])
    else h'.(fault := true)
  }

  ghost function DropAllTargets(h: Heap): Heap
    decreases |h.index|
  {
    if h.index == [] then h else DropAllTargets(DropTarget(h, 0))
  }

  /** Before it calls back, libuv starts a timer that repeats again and stops any other. */
  function Fired(t: Timer): Timer {
    if !t.Armed? then t else if t.period == 0 then Idle else Armed(t.period, t.period)
  }

  ghost function FireTimer(h: Heap, p: Ptr): Heap {
    if p in h.targets then h.(targets := h.targets[p := h.targets[p].(timer := Fired(h.targets[p].timer))])
    else h.(fault := true)
  }

  ghost function BeginTransfer(h: Heap, p: Ptr, attach: Attach): Heap {
    var t, e := h.next, h.next + 1;
    h.(next := h.next + 2,
    transfers := h.transfers[t := p],
    easies := if attach.NoEasy? then h.easies else h.easies[e := t],
    attached := if attach.Attached? then h.attached + {e} else h.attached,
    lost := if attach.Attached? then h.lost else h.lost + {t})
  }

  /** The easy handle's private record and that record's target can both still be read. */
  ghost predicate Readable(h: Heap, e: Ptr) {
    && e in h.easies
    && h.easies[e] in h.transfers
    && h.transfers[h.easies[e]] in h.targets
  }

  ghost function TargetOf(h: Heap, e: Ptr): Ptr
    requires Readable(h, e)
  {
    h.transfers[h.easies[e]]
  }

  /** Read the message: remember the new status, free the record, detach and free the handle. */
  ghost function FinishTransfer(h: Heap, e: Ptr, up: bool): Heap
    requires Readable(h, e)
  {
    var p := TargetOf(h, e);
    h.(targets := h.targets[p := h.targets[p].(up := up)],
    transfers := h.transfers - {h.easies[e]},
    easies := h.easies - {e},
    attached := h.attached - {e})
  }

  ghost function FreeEasies(h: Heap, handles: seq<Ptr>): Heap
    decreases |handles|
  {
    if handles == [] then h
    else
      var e := handles[0];
      FreeEasies(if e in h.easies then h.(easies := h.easies - {e}, attached := h.attached - {e})
                 else h.(fault := true), handles[1..])
  }

  /** `curl_multi_cleanup` detaches whatever is left and drops its messages. */
  ghost function CleanupMulti(h: Heap): Heap {
    h.(attached := {}, messages := [], lost := h.transfers.Keys)
  }

  ghost function FreeTarget(h: Heap, p: Ptr): Heap {
    if p in h.targets && h.targets[p].timer.Closing? then h.(targets := h.targets - {p})
    else h.(fault := true)
  }

  // ---- Invariant ----

  /** An indexed target is allocated and its timer is not closed. */
  ghost predicate Indexed(h: Heap, p: Ptr) {
    p in h.targets && !h.targets[p].timer.Closing? && !h.targets[p].timer.Absent?
  }

  /** An attached handle has a record of its own, whose target is indexed. */
  ghost predicate Owned(h: Heap, e: Ptr) {
    && Readable(h, e)
    && h.easies[e] !in h.lost
    && TargetOf(h, e) in h.index
  }

  ghost predicate Bounded(h: Heap) {
    && (forall p :: p in h.targets ==> p < h.next)
    && (forall t :: t in h.transfers ==> t < h.next)
    && (forall e :: e in h.easies ==> e < h.next)
    && (forall e :: e in h.easies ==> h.easies[e] < h.next)
    && h.lost <= h.transfers.Keys
  }

  ghost predicate IndexValid(h: Heap) {
    && NoDuplicates(h.index)
    && (forall p :: p in h.index ==> Indexed(h, p))
    && (forall p :: p in h.targets ==> p in h.index || h.targets[p].timer.Closing?)
  }

  /** curl reports an attached handle, and each at most once. */
  ghost predicate MessagesValid(messages: seq<Message>, attached: set<Ptr>) {
    forall i :: 0 <= i < |messages| && messages[i].Done? ==>
                  && messages[i].easy in attached
                  && forall j :: i < j < |messages| && messages[j].Done? ==> messages[j].easy != messages[i].easy
  }

  /** `e` is an attached handle of the record `t`. */
  ghost predicate HandleOf(attached: set<Ptr>, easies: map<Ptr, Ptr>, e: Ptr, t: Ptr) {
    e in attached && e in easies && easies[e] == t
  }

  /** Every record that is not lost has exactly one attached handle. */
  ghost predicate OneHandleEach(attached: set<Ptr>, easies: map<Ptr, Ptr>, records: set<Ptr>) {
    && (forall e, e', t :: HandleOf(attached, easies, e, t) && HandleOf(attached, easies, e', t) ==> e == e')
    && (forall t :: t in records ==> exists e :: HandleOf(attached, easies, e, t))
  }

  ghost predicate TransfersValid(h: Heap) {
    && (forall e :: e in h.attached ==> Owned(h, e))
    && OneHandleEach(h.attached, h.easies, h.transfers.Keys - h.lost)
  }

  ghost predicate Valid(h: Heap) {
    && !h.fault
    && Bounded(h)
    && IndexValid(h)
    && TransfersValid(h)
    && MessagesValid(h.messages, h.attached)
  }

  lemma {:induction false} MessagesRest(messages: seq<Message>, attached: set<Ptr>)
    requires messages != [] && MessagesValid(messages, attached)
    ensures MessagesValid(messages[1..], if messages[0].Done? then attached - {messages[0].easy} else attached)
  {
  }

  lemma {:induction false} AddTargetKeepsValid(h: Heap, id: int, up: bool, interval: int)
    requires Valid(h)
    ensures Valid(AddTarget(h, id, up, interval))
  {
    var h' := AddTarget(h, id, up, interval);
    assert forall p :: p in h'.index <==> p in h.index || p == h.next;
    assert forall p :: p in h.index ==> Indexed(h, p) && Indexed(h', p);
    assert h.next !in h.index;
    assert forall e :: e in h.attached ==> Owned(h, e);
  }

  lemma {:induction false} FireTimerKeepsValid(h: Heap, p: Ptr)
    requires Valid(h) && p in h.index
    ensures Valid(FireTimer(h, p))
  {
  }

  lemma {:induction false} BeginTransferKeepsValid(h: Heap, p: Ptr, attach: Attach)
    requires Valid(h) && p in h.index
    ensures Valid(BeginTransfer(h, p, attach))
  {
    var h' := BeginTransfer(h, p, attach);
    assert IndexValid(h') by {
      assert forall q :: q in h.index ==> Indexed(h, q) && Indexed(h', q);
    }
    assert TransfersValid(h') by {
      BeginTransferKeepsOwners(h, p, attach);
    }
    assert MessagesValid(h'.messages, h'.attached);
  }

  lemma {:induction false} BeginTransferKeepsOwners(h: Heap, p: Ptr, attach: Attach)
    requires Bounded(h) && TransfersValid(h) && p in h.index && Indexed(h, p)
    ensures TransfersValid(BeginTransfer(h, p, attach))
  {
    var h' := BeginTransfer(h, p, attach);
    forall e | e in h'.attached ensures Owned(h', e) {
      if e in h.attached { assert Owned(h, e); }
    }
    forall e, e', t | HandleOf(h'.attached, h'.easies, e, t) && HandleOf(h'.attached, h'.easies, e', t)
      ensures e == e' {
      if e in h.attached { assert Owned(h, e) && HandleOf(h.attached, h.easies, e, t); }
      if e' in h.attached { assert Owned(h, e') && HandleOf(h.attached, h.easies, e', t); }
    }
    forall t | t in h'.transfers.Keys - h'.lost ensures exists e :: HandleOf(h'.attached, h'.easies, e, t) {
      if t == h.next {
        assert HandleOf(h'.attached, h'.easies, h.next + 1, t);
      } else {
        assert t in h.transfers.Keys - h.lost;
        var e :| HandleOf(h.attached, h.easies, e, t);
        assert HandleOf(h'.attached, h'.easies, e, t);
      }
    }
  }

  /**
   What a transfer that begins for the target `p` adds: if curl takes it, one new handle whose
   record is for `p`.  Every other handle stays and keeps its target, and no target changes.
   */
  lemma {:induction false} BeginTransferExact(h: Heap, p: Ptr, attach: Attach)
    requires Valid(h) && p in h.index
    ensures
      var h', e := BeginTransfer(h, p, attach), h.next + 1;
      && h'.targets == h.targets && h'.index == h.index && h'.messages == h.messages
      && e !in h.attached && e !in h.easies
      && h'.attached == (if attach.Attached? then h.attached + {e} else h.attached)
      && h'.easies.Keys == (if attach.NoEasy? then h.easies.Keys else h.easies.Keys + {e})
      && (attach.Attached? ==> Readable(h', e) && TargetOf(h', e) == p)
      && (forall f :: f in h.attached ==> Readable(h', f) && TargetOf(h', f) == TargetOf(h, f))
  {
    assert forall f :: f in h.attached ==> Owned(h, f);
    assert Indexed(h, p);
  }

  /**
   What a transfer that completes takes away: its handle and its record.  Its target remembers the
   status; every other handle stays and keeps its target, and no other target changes.
   */
  lemma {:induction false} FinishTransferExact(h: Heap, e: Ptr, up: bool)
    requires Valid(h) && e in h.attached
    ensures Readable(h, e)
    ensures
      var h', p := FinishTransfer(h, e, up), TargetOf(h, e);
      && h'.index == h.index && h'.targets.Keys == h.targets.Keys
      && h'.attached == h.attached - {e} && h'.easies.Keys == h.easies.Keys - {e}
      && h'.transfers.Keys == h.transfers.Keys - {h.easies[e]}
      && h'.targets[p] == Cell(h.targets[p].id, up, h.targets[p].timer)
      && (forall q :: q in h.targets && q != p ==> h'.targets[q] == h.targets[q])
      && (forall f :: f in h.attached && f != e ==> Readable(h', f) && TargetOf(h', f) == TargetOf(h, f))
  {
    assert forall f :: f in h.attached ==> Owned(h, f) && HandleOf(h.attached, h.easies, f, h.easies[f]);
  }

  /** A timer that fires is due again after its period, or not at all; no other target changes. */
  lemma {:induction false} FireTimerExact(h: Heap, p: Ptr)
    requires Valid(h) && p in h.targets && h.targets[p].timer.Armed?
    ensures
      var h', ms := FireTimer(h, p), h.targets[p].timer.period;
      && h' == h.(targets := h'.targets) && h'.targets.Keys == h.targets.Keys
      && h'.targets[p] == Cell(h.targets[p].id, h.targets[p].up, if ms == 0 then Idle else Armed(ms, ms))
      && (forall q :: q in h.targets && q != p ==> h'.targets[q] == h.targets[q])
  {
  }

  /** A target is up exactly if the transfer had no error and its status is one of success. */
  lemma {:induction false} ClassifyExact(err: int, status: int)
    ensures Classify(err, status) <==> err == 0 && status / 100 == 2
  {
  }

  /** Reading the first message. */
  lemma {:induction false} FinishTransferKeepsValid(h: Heap, up: bool)
    requires Valid(h) && h.messages != [] && h.messages[0].Done?
    ensures Readable(h, h.messages[0].easy)
    ensures Valid(FinishTransfer(h, h.messages[0].easy, up).(messages := h.messages[1..]))
  {
    var e := h.messages[0].easy;
    assert Owned(h, e);
    var p := TargetOf(h, e);
    var h' := FinishTransfer(h, e, up).(messages := h.messages[1..]);
    assert Indexed(h, p);
    assert forall q :: q in h.index ==> Indexed(h, q) && Indexed(h', q);
    forall f | f in h'.attached ensures Owned(h', f) {
      assert Owned(h, f) && HandleOf(h.attached, h.easies, f, h.easies[f])
             && HandleOf(h.attached, h.easies, e, h.easies[e]);
    }
    MessagesRest(h.messages, h.attached);
    forall f, f', t | HandleOf(h'.attached, h'.easies, f, t) && HandleOf(h'.attached, h'.easies, f', t)
      ensures f == f' {
      assert HandleOf(h.attached, h.easies, f, t) && HandleOf(h.attached, h.easies, f', t);
    }
    forall t | t in h'.transfers.Keys - h'.lost ensures exists f :: HandleOf(h'.attached, h'.easies, f, t) {
      assert t in h.transfers.Keys - h.lost;
      var f :| HandleOf(h.attached, h.easies, f, t);
      assert HandleOf(h'.attached, h'.easies, f, t);
    }
  }

  lemma {:induction false} SkipMessageKeepsValid(h: Heap)
    requires Valid(h) && h.messages != []
    ensures Valid(h.(messages := h.messages[1..]))
  {
  }

  lemma {:induction false} FreeTargetKeepsValid(h: Heap, p: Ptr)
    requires Valid(h) && p in h.targets && h.targets[p].timer.Closing?
    ensures Valid(FreeTarget(h, p))
  {
  }

  // ---- Deleting one target ----

  /** Some attached transfer is for the target `p`. */
  ghost predicate InFlight(h: Heap, p: Ptr) {
    exists e :: e in h.attached && Readable(h, e) && TargetOf(h, e) == p
  }

  /** Dropping an indexed target keeps the invariant exactly when it has no transfer in flight. */
  lemma {:induction false} DropTargetExact(h: Heap, i: nat)
    requires Valid(h) && i < |h.index|
    ensures !DropTarget(h, i).fault
    ensures Valid(DropTarget(h, i)) <==> !InFlight(h, h.index[i])
  {
    var p := h.index[i];
    var h' := DropTarget(h, i);
    assert Indexed(h, p);
    RemoveAtMeaning(h.index, i);
    if InFlight(h, p) {
      var e :| e in h.attached && Readable(h, e) && TargetOf(h, e) == p;
      assert !Owned(h', e);
    } else {
      assert forall q :: q in h.index ==> Indexed(h, q) && (q == p || Indexed(h', q));
      assert forall e :: e in h.attached ==> Owned(h, e) && Owned(h', e);
      assert TransfersValid(h');
    }
  }

  // ---- Dropping everything ----

  lemma {:induction false} DropTargetKeepsIndex(h: Heap, i: nat)
    requires !h.fault && IndexValid(h) && i < |h.index|
    ensures Indexed(h, h.index[i]) && !DropTarget(h, i).fault && IndexValid(DropTarget(h, i))
  {
    RemoveAtMeaning(h.index, i);
    assert Indexed(h, h.index[i]);
    assert forall p :: p in h.index ==> Indexed(h, p) && (p == h.index[i] || Indexed(DropTarget(h, i), p));
  }

  /** `DropAllTargets` closes every timer once; only the transfers are left without owners. */
  lemma {:induction false} DropAllTargetsMeaning(h: Heap)
    requires !h.fault && IndexValid(h)
    ensures
      var h' := DropAllTargets(h);
      && h' == h.(index := [], targets := h'.targets)
      && h'.targets.Keys == h.targets.Keys
      && (forall p :: p in h'.targets ==> h'.targets[p].timer.Closing?)
      && (forall p :: p in h'.targets ==> h'.targets[p].id == h.targets[p].id && h'.targets[p].up == h.targets[p].up)
    decreases |h.index|
  {
    if h.index != [] {
      assert Indexed(h, h.index[0]);
      DropTargetKeepsIndex(h, 0);
      DropAllTargetsMeaning(DropTarget(h, 0));
    }
  }

  lemma {:induction false} FreeEasiesMeaning(h: Heap, handles: seq<Ptr>)
    requires !h.fault && NoDuplicates(handles)
    requires forall i :: 0 <= i < |handles| ==> handles[i] in h.easies
    ensures FreeEasies(h, handles)
         == h.(easies := h.easies - (set e | e in handles), attached := h.attached - (set e | e in handles))
    decreases |handles|
  {
    if handles != [] {
      var e := handles[0];
      var h' := h.(easies := h.easies - {e}, attached := h.attached - {e});
      FreeEasiesMeaning(h', handles[1..]);
      var rest := set e | e in handles[1..];
      var all := set e | e in handles;
      assert all == rest + {e};
      assert h.easies - all == h'.easies - rest;
      assert h.attached - all == h'.attached - rest;
    } else {
      assert h.easies - (set e | e in handles) == h.easies;
      assert h.attached - (set e | e in handles) == h.attached;
    }
  }
}
