/**
 Transfers counted per target: what begins, what completes and what is in flight
 (src/client/targets.c:36-113, src/client/state.c:66-86).  Like `Coherence`, everything is read off
 the log of a run and the handles in the multi handle.
 */
module Flights {
  import opened EventLoop
  import opened Ownership
  import opened PollMirror
  import opened Table
  import opened Wrappers

  // ---- Counting ----

  function Begun(log: seq<Entry>, id: int): nat
    decreases |log|
  {
    if log == [] then 0
    else
      var e := log[|log| - 1];
      Begun(log[..|log| - 1], id) + if e.Began? && e.id == id then 1 else 0
  }

  function Finished(log: seq<Entry>, id: int): nat
    decreases |log|
  {
    if log == [] then 0
    else
      var e := log[|log| - 1];
      Finished(log[..|log| - 1], id) + if e.Completed? && e.id == id then 1 else 0
  }

  /** At no time has a target completed more transfers than it has begun. */
  ghost predicate Balanced(log: seq<Entry>)
    decreases |log|
  {
    log == [] || (Balanced(log[..|log| - 1]) && forall id :: Finished(log, id) <= Begun(log, id))
  }

  lemma {:induction false} CountNext(log: seq<Entry>, e: Entry)
    ensures forall id :: Begun(log + [e], id) == Begun(log, id) + if e.Began? && e.id == id then 1 else 0
    ensures forall id :: Finished(log + [e], id) == Finished(log, id) + if e.Completed? && e.id == id then 1 else 0
  {
    assert (log + [e])[..|log + [e]| - 1] == log;
  }

  lemma {:induction false} BalancedNext(log: seq<Entry>, e: Entry)
    requires Balanced(log) && forall id :: Finished(log + [e], id) <= Begun(log + [e], id)
    ensures Balanced(log + [e])
  {
    assert (log + [e])[..|log + [e]| - 1] == log;
    hide Begun, Finished;
  }

  lemma {:induction false} BalancedPrefix(log: seq<Entry>, i: nat, id: int)
    requires Balanced(log) && i <= |log|
    ensures Finished(log[..i], id) <= Begun(log[..i], id)
    decreases |log|
  {
    if i == |log| {
      assert log[..i] == log;
    } else {
      BalancedPrefix(log[..|log| - 1], i, id);
      assert log[..|log| - 1][..i] == log[..i];
    }
  }

  /** The handles in the multi handle whose record is for a target with this id. */
  ghost function Flying(h: Heap, id: int): set<Ptr> {
    set e | e in h.attached && Readable(h, e) && h.targets[TargetOf(h, e)].id == id
  }

  /** What has begun has completed or is in flight, until the shutdown interrupts what is in flight. */
  ghost predicate Counted(s: State) {
    && Balanced(s.log)
    && (!s.phase.Gone? ==> forall id :: Begun(s.log, id) == Finished(s.log, id) + |Flying(s.heap, id)|)
  }

  // ---- Every step counts ----

  /** The same handles are attached, for targets with the same ids. */
  ghost predicate SameOwners(h: Heap, g: Heap) {
    && g.attached == h.attached
    && (forall e :: e in h.attached ==>
                      && Readable(h, e) && Readable(g, e)
                      && g.targets[TargetOf(g, e)].id == h.targets[TargetOf(h, e)].id)
  }

  lemma {:induction false} SameFlying(h: Heap, g: Heap)
    requires SameOwners(h, g)
    ensures forall id :: Flying(g, id) == Flying(h, id)
  {
    forall id ensures Flying(g, id) == Flying(h, id) {
      assert forall e :: e in Flying(g, id) <==> e in Flying(h, id);
    }
  }

  lemma {:induction false} SameCounted(s: State, r: State)
    requires Counted(s) && SameOwners(s.heap, r.heap) && r.log == s.log && (s.phase.Gone? ==> r.phase.Gone?)
    ensures Counted(r)
  {
    SameFlying(s.heap, r.heap);
  }

  lemma {:induction false} OwnersReadable(h: Heap)
    requires Ownership.Valid(h)
    ensures forall e :: e in h.attached ==> Readable(h, e) && TargetOf(h, e) in h.index && Indexed(h, TargetOf(h, e))
  {
    assert forall e :: e in h.attached ==> Owned(h, e);
  }

  /** An entry that neither begins nor completes a transfer. */
  lemma {:induction false} OtherEntryCounted(s: State, e: Entry)
    requires Counted(s) && !e.Began? && !e.Completed?
    ensures Counted(s.(log := s.log + [e]))
  {
    CountNext(s.log, e);
    BalancedNow(s.log);
    BalancedNext(s.log, e);
    hide Begun, Finished, Balanced;
  }

  lemma {:induction false} CountedMeans(s: State)
    ensures Counted(s) <==>
            && Balanced(s.log)
            && (!s.phase.Gone? ==> forall id :: Begun(s.log, id) == Finished(s.log, id) + |Flying(s.heap, id)|)
  {
  }

  lemma {:induction false} OneHandle(few: set<Ptr>, many: set<Ptr>, e: Ptr, more: bool)
    requires e !in few && forall f :: f in many <==> f in few || (f == e && more)
    ensures |many| == |few| + if more then 1 else 0
  {
    assert many == few + if more then {e} else {};
  }

  lemma {:induction false} FlyingBegan(h: Heap, p: Ptr, id: int)
    requires Ownership.Valid(h) && p in h.index && p in h.targets
    ensures
      |Flying(BeginTransfer(h, p, Attached), id)| == |Flying(h, id)| + if id == h.targets[p].id then 1 else 0
  {
    var h', e := BeginTransfer(h, p, Attached), h.next + 1;
    BeginTransferExact(h, p, Attached);
    OwnersReadable(h);
    hide BeginTransfer, Ownership.Valid, Indexed;
    var target := h.targets[p].id;
    forall f ensures f in Flying(h', id) <==> f in Flying(h, id) || (f == e && id == target) {
      if f in h.attached {
        assert Readable(h', f) && TargetOf(h', f) == TargetOf(h, f);
      }
    }
    OneHandle(Flying(h, id), Flying(h', id), e, id == target);
  }

  lemma {:induction false} FlyingFinished(h: Heap, e: Ptr, up: bool, id: int)
    requires Ownership.Valid(h) && e in h.attached && Readable(h, e)
    ensures
      |Flying(h, id)| == |Flying(FinishTransfer(h, e, up), id)| + if id == h.targets[TargetOf(h, e)].id then 1 else 0
  {
    var h' := FinishTransfer(h, e, up);
    FinishTransferExact(h, e, up);
    OwnersReadable(h);
    hide FinishTransfer, Ownership.Valid, Indexed;
    var target := h.targets[TargetOf(h, e)].id;
    forall f ensures f in Flying(h, id) <==> f in Flying(h', id) || (f == e && id == target) {
      if f in h.attached && f != e {
        assert Readable(h', f) && TargetOf(h', f) == TargetOf(h, f);
      }
    }
    OneHandle(Flying(h', id), Flying(h, id), e, id == target);
  }

  lemma {:induction false} FlyingMessages(h: Heap, messages: seq<Message>, id: int)
    ensures Flying(h.(messages := messages), id) == Flying(h, id)
  {
  }

  lemma {:induction false} BalancedNow(log: seq<Entry>)
    requires Balanced(log)
    ensures forall id :: Finished(log, id) <= Begun(log, id)
  {
  }

  lemma {:induction false} BeganCounted(s: State, p: Ptr, url: string)
    requires Ownership.Valid(s.heap) && p in s.heap.index && p in s.heap.targets && Counted(s) && !s.phase.Gone?
    ensures
      Counted(s.(heap := BeginTransfer(s.heap, p, Attached), log := s.log + [Began(s.heap.targets[p].id, url)]))
  {
    hide *;
    var id := s.heap.targets[p].id;
    var began := Began(id, url);
    var r := s.(heap := BeginTransfer(s.heap, p, Attached), log := s.log + [began]);
    CountedMeans(s);
    CountedMeans(r);
    BalancedNow(s.log);
    CountNext(s.log, began);
    BalancedNext(s.log, began);
    forall other ensures Begun(r.log, other) == Finished(r.log, other) + |Flying(r.heap, other)| {
      FlyingBegan(s.heap, p, other);
    }
  }

  lemma {:induction false} FinishedCounted(s: State, r: State, e: Ptr, up: bool, done: Entry)
    requires Ownership.Valid(s.heap) && e in s.heap.attached && Readable(s.heap, e)
    requires Counted(s) && !s.phase.Gone? && !r.phase.Gone?
    requires done.Completed? && done.id == s.heap.targets[TargetOf(s.heap, e)].id && r.log == s.log + [done]
    requires r.heap == FinishTransfer(s.heap, e, up).(messages := r.heap.messages)
    ensures Counted(r)
  {
    hide *;
    CountedMeans(s);
    CountedMeans(r);
    CountNext(s.log, done);
    forall id ensures Begun(r.log, id) == Finished(r.log, id) + |Flying(r.heap, id)| {
      FlyingFinished(s.heap, e, up, id);
      FlyingMessages(FinishTransfer(s.heap, e, up), r.heap.messages, id);
    }
    BalancedNext(s.log, done);
  }

  lemma {:induction false} CompleteFirstCounted(s: State, a: Answer)
    requires Working(s) && s.heap.messages != [] && Counted(s)
    ensures Counted(CompleteFirst(s, a))
  {
    OwnersReadable(s.heap);
    var r := CompleteFirst(s, a);
    match s.heap.messages[0]
    case OtherMessage =>
      hide Counted, Ownership.Valid;
        SameCounted(s, r);
    case Done(e, err, status) =>
      assert e in s.heap.attached;
      hide Counted, PollMirror.Valid;
        FinishedCounted(s, r, e, Classify(err, status), r.log[|s.log|]);
  }

  lemma {:induction false} DrainCounted(s: State, answers: seq<Answer>)
    requires Working(s) && Counted(s)
    ensures Counted(Drain(s, answers))
    decreases |s.heap.messages|
  {
    if s.heap.messages != [] {
      hide Working, Counted, CompleteFirst;
      var a := if answers == [] then QUIET else answers[0];
      CompleteFirstKeepsWorking(s, a);
      CompleteFirstCounted(s, a);
      DrainCounted(CompleteFirst(s, a), if answers == [] then [] else answers[1..]);
    }
  }

  lemma {:induction false} ActionCounted(s: State, cbs: seq<Callback>, dones: seq<Message>, answers: seq<Answer>)
    requires EventLoop.Valid(s) && s.phase.Live? && s.loaded && Counted(s)
    requires MessagesValid(s.heap.messages + dones, s.heap.attached)
    ensures Counted(Action(s, cbs, dones, answers))
  {
    var s' := s.(net := DeliverAll(s.net, cbs), heap := s.heap.(messages := s.heap.messages + dones));
    OwnersReadable(s.heap);
    hide Counted, Ownership.Valid, PollMirror.Valid;
    SameCounted(s, s');
    DeliverAllKeepsValid(s.net, cbs);
    NewMessagesKeepValid(s.heap, dones);
    DrainCounted(s', answers);
  }

  /** The state in which a poll or timer callback calls curl. */
  ghost function Called(s: State, ev: Event): State
    requires ev.Ready? || ev.Expire?
  {
    if ev.Expire? then s.(net := s.net.(timer := Idle))
    else if ev.failed then s.(net := PollError(s.net, ev.b))
    else s
  }

  lemma {:induction false} CalledValid(s: State, ev: Event)
    requires EventLoop.Valid(s) && Legal(s, ev) && (ev.Ready? || ev.Expire?)
    ensures
      var s' := Called(s, ev);
      && EventLoop.Valid(s') && s'.phase.Live? && s'.loaded && s'.heap == s.heap && s'.log == s.log
      && MessagesValid(s.heap.messages + ev.dones, s.heap.attached)
      && Step(s, ev) == Action(s', ev.cbs, ev.dones, ev.answers)
  {
    if ev.Ready? {
      OpenBaton(s, ev.b);
      PollErrorKeepsValid(s.net, ev.b);
    } else {
      TimerIrrelevant(s.net, Idle);
    }
    hide PollMirror.Valid, Ownership.Valid, MessagesValid;
  }

  lemma {:induction false} ReportCounted(s: State, ev: Event)
    requires EventLoop.Valid(s) && Legal(s, ev) && (ev.Ready? || ev.Expire?) && Counted(s)
    ensures Counted(Step(s, ev))
  {
    hide *;
    CalledValid(s, ev);
    CountedParts(s, Called(s, ev));
    SamePhase(s, ev);
    ActionCounted(Called(s, ev), ev.cbs, ev.dones, ev.answers);
  }

  lemma {:induction false} SamePhase(s: State, ev: Event)
    requires ev.Ready? || ev.Expire?
    ensures Called(s, ev).phase == s.phase
  {
  }

  lemma {:induction false} TickCounted(s: State, ev: Event)
    requires EventLoop.Valid(s) && Legal(s, ev) && ev.Tick? && Counted(s)
    ensures Counted(Step(s, ev))
  {
    var p := ev.p;
    TimerOwner(s.heap, p);
    OwnersReadable(s.heap);
    FireTimerKeepsValid(s.heap, p);
    var fired := s.(heap := FireTimer(s.heap, p));
    assert SameOwners(s.heap, fired.heap);
    SameCounted(s, fired);
    if s.phase.Live? && ReachesCurl(s, p, ev.getOk, ev.mallocOk) {
      BeginTransferExact(fired.heap, p, ev.attach);
      OwnersReadable(fired.heap);
      if ev.attach.Attached? {
        BeganCounted(fired, p, s.table.rows[s.heap.targets[p].id].url);
      } else {
        SameCounted(fired, fired.(heap := BeginTransfer(fired.heap, p, ev.attach)));
      }
    }
    hide EventLoop.Valid, Counted, DeliverAll;
    CountedParts(fired, Step(s, ev));
    var begun := fired.(heap := Step(s, ev).heap, log := Step(s, ev).log);
    CountedParts(begun, Step(s, ev));
  }

  /** Only log, handles and phase count. */
  lemma {:induction false} CountedParts(s: State, r: State)
    ensures s.log == r.log && s.heap == r.heap && s.phase == r.phase ==> (Counted(s) <==> Counted(r))
  {
  }

  lemma {:induction false} LoadCounted(s: State, ids: seq<int>)
    requires forall i :: 0 <= i < |ids| ==> ids[i] in s.table.rows
    requires s.heap.attached == {} && Counted(s)
    ensures Counted(InitTargets(s, ids))
    decreases |ids|
  {
    if ids != [] {
      var row := s.table.rows[ids[0]];
      var started := Started(ids[0], row.up);
      OtherEntryCounted(s, started);
      var s' := WatcherAdd(s, ids[0]);
      hide Counted;
      assert s.(log := s.log + [started]).(heap := s'.heap) == s';
      SameCounted(s.(log := s.log + [started]), s');
      LoadCounted(s', ids[1..]);
    }
  }

  lemma {:induction false} StepCounted(s: State, ev: Event)
    requires EventLoop.Valid(s) && Legal(s, ev) && Counted(s)
    ensures Counted(Step(s, ev))
  {
    match ev
    case Tick(_, _, _, _, _) => TickCounted(s, ev);
    case Ready(_, _, _, _, _) => ReportCounted(s, ev);
    case Expire(_, _, _) => ReportCounted(s, ev);
    case Load(getOk, ids, inits) =>
      var s' := s.(loaded := true, clientRuns := true);
      CountedParts(s, s');
      if getOk { LoadCounted(s', ids[..inits]); }
    case Serve(op, reply) =>
      OtherEntryCounted(s, Served(op, Effective(reply) && Apply(s.table, op).Some?));
      hide Counted, EventLoop.Valid, Apply;
        CountedParts(s.(log := Step(s, ev).log), Step(s, ev));
    case CloseTarget(p) =>
      OwnersReadable(s.heap);
      FreeTargetKeepsValid(s.heap, p);
      IndexNotClosing(s.heap, p);
      hide Counted, EventLoop.Valid;
        SameCounted(s, Step(s, ev));
    case _ => QuietCounted(s, ev);
  }

  lemma {:induction false} IndexNotClosing(h: Heap, p: Ptr)
    requires Ownership.Valid(h) && p in h.targets && h.targets[p].timer.Closing?
    ensures p !in h.index
  {
    assert p in h.index ==> Indexed(h, p);
  }

  lemma {:induction false} QuietCounted(s: State, ev: Event)
    requires EventLoop.Valid(s) && Legal(s, ev) && Counted(s)
    requires !ev.Tick? && !ev.Ready? && !ev.Expire? && !ev.Load? && !ev.Serve? && !ev.CloseTarget?
    ensures Counted(Step(s, ev))
  {
    OwnersReadable(s.heap);
    hide Balanced, Begun, Finished, EventLoop.Valid, ClearNet;
    if !ev.StopCallback? {
      assert Step(s, ev).heap == s.heap && SameOwners(s.heap, Step(s, ev).heap);
      SameCounted(s, Step(s, ev));
    }
  }

  lemma {:induction false} RunCounted(s: State, evs: seq<Event>)
    requires EventLoop.Valid(s) && Counted(s) && LegalRun(s, evs)
    ensures Counted(Run(s, evs))
    decreases |evs|
  {
    if evs != [] {
      StepKeepsValid(s, evs[0]);
      StepCounted(s, evs[0]);
      hide EventLoop.Valid, Counted;
      var s' := Step(s, evs[0]);
      if EventLoop.Valid(s') {
        RunCounted(s', evs[1..]);
      } else {
        assert evs[1..] == [];
      }
    }
  }

  /**
   Over every run and for every target: as long as the curl state stands, the transfers begun are
   those completed and those in flight; and at no time have more completed than begun.
   */
  lemma {:induction false} TransfersConserved(t: Table, evs: seq<Event>, id: int, i: nat)
    requires KeysValid(t) && LegalRun(Init(t), evs) && i <= |Run(Init(t), evs).log|
    ensures
      var s := Run(Init(t), evs);
      && (!s.phase.Gone? ==> Begun(s.log, id) == Finished(s.log, id) + |Flying(s.heap, id)|)
      && Finished(s.log[..i], id) <= Begun(s.log[..i], id)
  {
    InitValid(t);
    assert Counted(Init(t));
    RunCounted(Init(t), evs);
    BalancedPrefix(Run(Init(t), evs).log, i, id);
  }

  // ---- The drain loop leaves nothing out ----

  /** The completions among curl's messages. */
  function Dones(messages: seq<Message>): seq<Message> {
    if messages == [] then []
    else (if messages[0].Done? then [messages[0]] else []) + Dones(messages[1..])
  }

  ghost function Handles(dones: seq<Message>): set<Ptr> {
    set k | 0 <= k < |dones| && dones[k].Done? :: dones[k].easy
  }

  /** Entry `e` records the completion `m` under the id of the target it was for. */
  ghost predicate Records(e: Entry, h: Heap, m: Message) {
    && m.Done? && e.Completed? && e.err == m.err && e.status == m.status
    && Readable(h, m.easy) && e.id == h.targets[TargetOf(h, m.easy)].id
  }

  /** Every completion was recorded once and in order, and its handle and no other detached and freed. */
  ghost predicate AllHandled(s: State, r: State, dones: seq<Message>) {
    && |r.log| == |s.log| + |dones| && r.log[..|s.log|] == s.log
    && (forall k :: 0 <= k < |dones| ==> Records(r.log[|s.log| + k], s.heap, dones[k]))
    && r.heap.attached == s.heap.attached - Handles(dones)
    && r.heap.easies.Keys == s.heap.easies.Keys - Handles(dones)
    && r.heap.messages == []
  }

  lemma {:induction false} DrainHandlesAll(s: State, answers: seq<Answer>)
    requires Working(s)
    ensures AllHandled(s, Drain(s, answers), Dones(s.heap.messages))
    decreases |s.heap.messages|
  {
    if s.heap.messages != [] {
      hide *;
      var a := if answers == [] then QUIET else answers[0];
      var rest := if answers == [] then [] else answers[1..];
      var s' := CompleteFirst(s, a);
      CompleteFirstKeepsWorking(s, a);
      DrainHandlesAll(s', rest);
      DrainFirst(s, answers);
      DonesFirst(s.heap.messages);
      if s.heap.messages[0].Done? {
        FirstEntry(s, a);
        WorkingDones(s');
        FirstHandled(s, a, Drain(s', rest), Dones(s'.heap.messages));
      } else {
        FirstSkipped(s, a, Drain(s', rest), Dones(s'.heap.messages));
      }
    }
  }

  lemma {:induction false} DrainFirst(s: State, answers: seq<Answer>)
    requires s.heap.messages != []
    ensures
      Drain(s, answers) == Drain(CompleteFirst(s, if answers == [] then QUIET else answers[0]),
                                 if answers == [] then [] else answers[1..])
  {
  }

  lemma {:induction false} DonesFirst(messages: seq<Message>)
    requires messages != []
    ensures
      Dones(messages) == if messages[0].Done? then [messages[0]] + Dones(messages[1..]) else Dones(messages[1..])
  {
  }

  lemma {:induction false} WorkingDones(s: State)
    requires Working(s)
    ensures
      var dones := Dones(s.heap.messages);
      forall k :: 0 <= k < |dones| ==> dones[k].Done? && dones[k].easy in s.heap.attached
  {
    DonesAttached(s.heap.messages, s.heap.attached);
  }

  lemma {:induction false} DonesAttached(messages: seq<Message>, attached: set<Ptr>)
    requires forall i :: 0 <= i < |messages| && messages[i].Done? ==> messages[i].easy in attached
    ensures
      var dones := Dones(messages);
      forall k :: 0 <= k < |dones| ==> dones[k].Done? && dones[k].easy in attached
    decreases |messages|
  {
    if messages != [] {
      DonesFirst(messages);
      assert forall i :: 0 <= i < |messages[1..]| ==> messages[1..][i] == messages[i + 1];
      DonesAttached(messages[1..], attached);
      hide Dones;
    }
  }

  lemma {:induction false} FirstSkipped(s: State, a: Answer, r: State, rest: seq<Message>)
    requires s.heap.messages != [] && s.heap.messages[0].OtherMessage? && AllHandled(CompleteFirst(s, a), r, rest)
    ensures AllHandled(s, r, rest)
  {
    var s' := CompleteFirst(s, a);
    assert s' == s.(heap := s.heap.(messages := s.heap.messages[1..]));
    assert forall k :: 0 <= k < |rest| ==> Records(r.log[|s'.log| + k], s'.heap, rest[k]);
  }

  lemma {:induction false} FirstHandled(s: State, a: Answer, r: State, rest: seq<Message>)
    requires Working(s) && s.heap.messages != [] && s.heap.messages[0].Done?
    requires AllHandled(CompleteFirst(s, a), r, rest)
    requires forall k :: 0 <= k < |rest| ==> rest[k].Done? && rest[k].easy in CompleteFirst(s, a).heap.attached
    ensures AllHandled(s, r, [s.heap.messages[0]] + rest)
  {
    hide *;
    var m, s' := s.heap.messages[0], CompleteFirst(s, a);
    FirstEntry(s, a);
    HandlesMore(m, rest);
    AllHandledMeans(s', r, rest);
    AllHandledMeans(s, r, [m] + rest);
    var dones := [m] + rest;
    forall k | 0 <= k < |dones| ensures Records(r.log[|s.log| + k], s.heap, dones[k]) {
      if k == 0 {
        assert r.log[|s.log|] == r.log[..|s'.log|][|s.log|];
      } else {
        EarlierRecord(s, a, r.log[|s'.log| + (k - 1)], rest[k - 1]);
      }
    }
    assert r.log[..|s.log|] == r.log[..|s'.log|][..|s.log|];
  }

  lemma {:induction false} HandlesMore(m: Message, rest: seq<Message>)
    requires m.Done?
    ensures Handles([m] + rest) == {m.easy} + Handles(rest)
  {
    var dones := [m] + rest;
    assert dones[0] == m && forall k :: 0 <= k < |rest| ==> dones[k + 1] == rest[k];
    assert forall e :: e in Handles(rest) ==> e in Handles(dones);
    assert dones[0].easy in Handles(dones);
  }

  lemma {:induction false} AllHandledMeans(s: State, r: State, dones: seq<Message>)
    ensures AllHandled(s, r, dones) <==>
            && |r.log| == |s.log| + |dones| && r.log[..|s.log|] == s.log
            && (forall k :: 0 <= k < |dones| ==> Records(r.log[|s.log| + k], s.heap, dones[k]))
            && r.heap.attached == s.heap.attached - Handles(dones)
            && r.heap.easies.Keys == s.heap.easies.Keys - Handles(dones)
            && r.heap.messages == []
  {
  }

  /** What is recorded of another handle after the first completion could have been recorded before it. */
  lemma {:induction false} EarlierRecord(s: State, a: Answer, e: Entry, m: Message)
    requires Working(s) && s.heap.messages != [] && s.heap.messages[0].Done?
    requires m.Done? && m.easy in CompleteFirst(s, a).heap.attached && Records(e, CompleteFirst(s, a).heap, m)
    ensures Records(e, s.heap, m)
  {
    var first := s.heap.messages[0];
    FirstEntry(s, a);
    assert first.easy in s.heap.attached;
    FinishTransferExact(s.heap, first.easy, Classify(first.err, first.status));
    OwnersReadable(s.heap);
    hide Working, CompleteFirst, FinishTransfer;
  }

  lemma {:induction false} FirstEntry(s: State, a: Answer)
    requires Working(s) && s.heap.messages != [] && s.heap.messages[0].Done?
    ensures
      var m, s' := s.heap.messages[0], CompleteFirst(s, a);
      && Readable(s.heap, m.easy)
      && s'.heap == FinishTransfer(s.heap, m.easy, Classify(m.err, m.status)).(messages := s.heap.messages[1..])
      && s'.heap.attached == s.heap.attached - {m.easy} && s'.heap.easies.Keys == s.heap.easies.Keys - {m.easy}
      && |s'.log| == |s.log| + 1 && s'.log[..|s.log|] == s.log && Records(s'.log[|s.log|], s.heap, m)
  {
    var m := s.heap.messages[0];
    assert m.easy in s.heap.attached;
    FinishTransferExact(s.heap, m.easy, Classify(m.err, m.status));
    hide Ownership.Valid, PollMirror.Valid, FinishTransfer;
  }

  /**
   A poll or timer callback handles every completion that curl reports in it: each is recorded for
   its target, once and in order, and its handle is detached and freed; no message is left.
   */
  lemma {:induction false} CallbackHandlesAll(s: State, ev: Event)
    requires EventLoop.Valid(s) && Legal(s, ev) && (ev.Ready? || ev.Expire?)
    ensures AllHandled(s, Step(s, ev), Dones(ev.dones))
  {
    hide *;
    CalledValid(s, ev);
    ActionHandlesAll(Called(s, ev), ev.cbs, ev.dones, ev.answers);
    AllHandledMeans(s, Step(s, ev), Dones(ev.dones));
    AllHandledMeans(Called(s, ev), Step(s, ev), Dones(ev.dones));
  }

  lemma {:induction false} ActionHandlesAll(s: State, cbs: seq<Callback>, dones: seq<Message>, answers: seq<Answer>)
    requires EventLoop.Valid(s) && s.phase.Live? && s.loaded
    requires MessagesValid(s.heap.messages + dones, s.heap.attached)
    ensures AllHandled(s, Action(s, cbs, dones, answers), Dones(dones))
  {
    hide *;
    var s' := s.(net := DeliverAll(s.net, cbs), heap := s.heap.(messages := s.heap.messages + dones));
    var r := Drain(s', answers);
    ActionWorks(s, cbs, dones, answers);
    DrainHandlesAll(s', answers);
    AllHandledMeans(s', r, Dones(dones));
    AllHandledMeans(s, r, Dones(dones));
    forall k | 0 <= k < |Dones(dones)| ensures Records(r.log[|s.log| + k], s.heap, Dones(dones)[k]) {
      RecordsMessages(r.log[|s.log| + k], s.heap, s'.heap.messages, Dones(dones)[k]);
    }
  }

  lemma {:induction false} ActionWorks(s: State, cbs: seq<Callback>, dones: seq<Message>, answers: seq<Answer>)
    requires EventLoop.Valid(s) && s.phase.Live? && s.loaded
    requires MessagesValid(s.heap.messages + dones, s.heap.attached)
    ensures
      var s' := s.(net := DeliverAll(s.net, cbs), heap := s.heap.(messages := s.heap.messages + dones));
      && Working(s') && s'.heap.messages == dones
      && Action(s, cbs, dones, answers) == Drain(s', answers)
  {
    assert s.heap.messages + dones == dones;
    DeliverAllKeepsValid(s.net, cbs);
    NewMessagesKeepValid(s.heap, dones);
    hide PollMirror.Valid, Ownership.Valid, Drain;
  }

  lemma {:induction false} RecordsMessages(e: Entry, h: Heap, messages: seq<Message>, m: Message)
    ensures Records(e, h.(messages := messages), m) <==> Records(e, h, m)
  {
  }
}
