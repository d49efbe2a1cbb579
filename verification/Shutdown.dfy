/**
 What `reachard_client_stop` achieves (src/client/client.c:78-102, src/client/watcher.c:121-131,
 src/client/state.c:209-228): when it empties the loop, when it cannot, and what it leaves behind.
 */
module Shutdown {
  import opened Coherence
  import opened EventLoop
  import opened Ownership
  import opened PollMirror
  import opened Sequences
  import opened Table
  import opened Wrappers

  /** Nothing is indexed, nothing is attached and the loop has no handle left. */
  ghost predicate Emptied(s: State) {
    && s.phase.Gone?
    && s.heap.index == [] && s.heap.attached == {}
    && s.heap.targets == map[] && s.net.batons == map[]
    && s.net.timer.Absent? && s.async.AsyncClosed?
  }

  /** And the client thread is not still about to load its targets into that loop. */
  ghost predicate Drained(s: State) {
    s.loaded && Emptied(s)
  }

  /** Handles that still wait for their close callback once the shutdown callback has run. */
  ghost function OpenHandles(s: State): nat {
    |s.heap.targets| + |s.net.batons|
    + (if s.net.timer.Absent? then 0 else 1) + (if s.async.AsyncClosed? then 0 else 1)
  }

  predicate ClosesHandle(ev: Event) {
    ev.CloseTarget? || ev.CloseBaton? || ev.CloseTimer? || ev.CloseAsync?
  }

  /** Events of the loop; the others belong to the server, to the main thread and to the start. */
  predicate OfLoop(ev: Event) {
    !ev.Serve? && !ev.ReadAlive? && !ev.SendStop? && !ev.Prepare? && !ev.Load?
  }

  ghost predicate Stopped(s: State) {
    EventLoop.Valid(s) && s.phase.Gone? && s.heap.index == []
  }

  /** After the shutdown callback everything in the loop is closing. */
  lemma {:induction false} StoppedIsClosing(s: State)
    requires Stopped(s)
    ensures forall p :: p in s.heap.targets ==> s.heap.targets[p].timer.Closing?
    ensures forall b :: b in s.net.batons ==> s.net.batons[b].closing
  {
  }

  /**
   From then on the loop can only run close callbacks, each of which leaves one handle fewer, and
   can be left exactly when none is left.  No timer or poll callback can run any more, so the
   curl timer is not started again.
   */
  lemma {:induction false} StoppedStep(s: State, ev: Event)
    requires Stopped(s) && Legal(s, ev) && !ev.Load?
    ensures Stopped(Step(s, ev)) && Step(s, ev).loaded == s.loaded
    ensures OfLoop(ev) ==> ClosesHandle(ev) || (ev.LoopExit? && Emptied(s))
    ensures OpenHandles(Step(s, ev)) == OpenHandles(s) - (if ClosesHandle(ev) then 1 else 0)
    ensures Step(s, ev).net.timer == s.net.timer || Step(s, ev).net.timer.Absent?
    ensures Step(s, ev).heap.transfers == s.heap.transfers && Step(s, ev).heap.easies == s.heap.easies
  {
    hide *;
    StoppedMeans(s);
    StepKeepsValid(s, ev);
    StoppedLegal(s, ev);
    StoppedCounts(s, ev);
    StoppedMeans(Step(s, ev));
  }

  lemma {:induction false} StoppedMeans(s: State)
    ensures Stopped(s) <==> EventLoop.Valid(s) && s.phase.Gone? && s.heap.index == []
  {
  }

  lemma {:induction false} StoppedLegal(s: State, ev: Event)
    requires Stopped(s) && Legal(s, ev) && !ev.Load?
    ensures OfLoop(ev) ==> ClosesHandle(ev) || (ev.LoopExit? && Emptied(s))
    ensures !Misuses(s, ev)
    ensures Step(s, ev).phase.Gone? && Step(s, ev).heap.index == [] && Step(s, ev).loaded == s.loaded
  {
    if ev.Ready? { OpenBaton(s, ev.b); }
    StoppedIsClosing(s);
    hide PollMirror.Valid, Ownership.Valid, Apply, ClearNet;
  }

  lemma {:induction false} StoppedCounts(s: State, ev: Event)
    requires Stopped(s) && Legal(s, ev) && !ev.Load?
    ensures OpenHandles(Step(s, ev)) == OpenHandles(s) - (if ClosesHandle(ev) then 1 else 0)
    ensures Step(s, ev).net.timer == s.net.timer || Step(s, ev).net.timer.Absent?
    ensures Step(s, ev).heap.transfers == s.heap.transfers && Step(s, ev).heap.easies == s.heap.easies
  {
    hide *;
    StoppedLegal(s, ev);
    StoppedEffect(s, ev);
    OpenHandlesAre(s);
    OpenHandlesAre(Step(s, ev));
    if ev.CloseTarget? { OneFewer(s.heap.targets, ev.p); }
    if ev.CloseBaton? { OneFewer(s.net.batons, ev.b); }
  }

  lemma {:induction false} OpenHandlesAre(s: State)
    ensures OpenHandles(s) == |s.heap.targets| + |s.net.batons|
                              + (if s.net.timer.Absent? then 0 else 1) + (if s.async.AsyncClosed? then 0 else 1)
  {
  }

  lemma {:induction false} OneFewer<T>(m: map<Ptr, T>, k: Ptr)
    requires k in m
    ensures |m - {k}| == |m| - 1
  {
    assert (m - {k}).Keys == m.Keys - {k};
    assert |(m - {k}).Keys| == |m - {k}| && |m.Keys| == |m|;
  }

  /** What a close callback takes away, and that nothing else changes what is open. */
  lemma {:induction false} StoppedEffect(s: State, ev: Event)
    requires Stopped(s) && Legal(s, ev) && !ev.Load?
    ensures
      var s' := Step(s, ev);
      && ClosesHandle(ev) == (ev.CloseTarget? || ev.CloseBaton? || ev.CloseTimer? || ev.CloseAsync?)
      && (ev.CloseTarget? ==> ev.p in s.heap.targets) && (ev.CloseBaton? ==> ev.b in s.net.batons)
      && s'.heap.targets == (if ev.CloseTarget? then s.heap.targets - {ev.p} else s.heap.targets)
      && s'.net.batons == (if ev.CloseBaton? then s.net.batons - {ev.b} else s.net.batons)
      && s'.net.timer == (if ev.CloseTimer? then Absent else s.net.timer) && (ev.CloseTimer? ==> s.net.timer.Closing?)
      && s'.async == (if ev.CloseAsync? then AsyncClosed else s.async) && (ev.CloseAsync? ==> s.async.AsyncClosing?)
      && s'.heap.transfers == s.heap.transfers && s'.heap.easies == s.heap.easies
  {
    StoppedLegal(s, ev);
    hide PollMirror.Valid, Ownership.Valid, Apply, ClearNet, Alive, Emptied, Drain;
  }

  /** As long as a handle is open there is a close callback to run. */
  lemma {:induction false} StoppedProgress(s: State) returns (ev: Event)
    requires Stopped(s) && Running(s) && !Emptied(s)
    ensures Legal(s, ev) && ClosesHandle(ev)
  {
    StoppedIsClosing(s);
    if s.heap.targets != map[] {
      var p := AnyOf(s.heap.targets.Keys);
      ev := CloseTarget(p);
    } else if s.net.batons != map[] {
      var b := AnyOf(s.net.batons.Keys);
      ev := CloseBaton(b);
    } else if !s.net.timer.Absent? {
      ev := CloseTimer;
    } else {
      ev := CloseAsync;
    }
  }

  ghost function CloseCount(evs: seq<Event>): nat
    decreases |evs|
  {
    if evs == [] then 0 else (if ClosesHandle(evs[0]) then 1 else 0) + CloseCount(evs[1..])
  }

  /** Every run after the shutdown callback counts its open handles down. */
  lemma {:induction false} StoppedRun(s: State, evs: seq<Event>)
    requires Stopped(s) && s.loaded && LegalRun(s, evs)
    ensures Stopped(Run(s, evs)) && Run(s, evs).loaded
    ensures OpenHandles(Run(s, evs)) + CloseCount(evs) == OpenHandles(s)
    ensures Run(s, evs).heap.transfers == s.heap.transfers && Run(s, evs).heap.easies == s.heap.easies
    decreases |evs|
  {
    if evs != [] {
      StoppedStep(s, evs[0]);
      StoppedRun(Step(s, evs[0]), evs[1..]);
    }
  }

  lemma {:induction false} StoppedDrains(s: State) returns (evs: seq<Event>)
    requires Stopped(s) && s.loaded && Running(s)
    ensures LegalRun(s, evs) && Drained(Run(s, evs))
    decreases OpenHandles(s)
  {
    evs := [];
    if !Emptied(s) {
      var ev := StoppedProgress(s);
      StoppedStep(s, ev);
      var rest := StoppedDrains(Step(s, ev));
      RunCons(s, ev, rest);
      evs := [ev] + rest;
    }
  }

  // ---- The shutdown callback can always run ----

  /** curl can withdraw every interest: one removal per socket. */
  lemma {:induction false} RemoveAll(n: Net) returns (cbs: seq<Callback>)
    requires PollMirror.Valid(n) && TimerOpen(n)
    ensures DeliverAll(n, cbs).interest == map[]
    decreases |n.interest|
  {
    cbs := [];
    if n.interest != map[] {
      var s := AnyOf(n.interest.Keys);
      var cb := Socket(s, PollRemove, true);
      DeliverKeepsValid(n, cb);
      NetNextInterest(n, Curl(cb));
      assert n.interest.Keys - {s} == (n.interest - {s}).Keys;
      assert |n.interest.Keys - {s}| == |n.interest.Keys| - 1;
      var rest := RemoveAll(Deliver(n, cb));
      cbs := [cb] + rest;
      assert cbs[1..] == rest;
    }
  }

  lemma {:induction false} QuietRemovals(n: Net, k: nat) returns (removals: seq<seq<Callback>>)
    ensures |removals| == k && DeliverEach(n, removals) == n
  {
    removals := [];
    if k != 0 {
      var rest := QuietRemovals(n, k - 1);
      removals := [[]] + rest;
      assert removals[1..] == rest;
    }
  }

  /** While the stop request is queued and someone runs the loop, the shutdown callback can run. */
  lemma {:induction false} StopCanRun(s: State) returns (ev: Event)
    requires EventLoop.Valid(s) && s.phase.Live? && s.async.Queued? && Running(s)
    ensures ev.StopCallback? && Legal(s, ev)
  {
    var handles := Listing(s.heap.attached);
    var removals := QuietRemovals(s.net, |handles|);
    var cleanup := RemoveAll(s.net);
    ev := StopCallback(Some(handles), removals, cleanup);
  }

  // ---- The outcome of reachard_client_stop ----

  ghost predicate CanDrain(s: State) {
    exists evs :: LegalRun(s, evs) && Drained(Run(s, evs))
  }

  /** The stop request was sent after the targets had been loaded, and took them along if it is through. */
  ghost predicate Requested(s: State) {
    EventLoop.Valid(s) && s.loaded && !s.async.NotSent? && (s.phase.Gone? ==> s.heap.index == [])
  }

  lemma {:induction false} StopCallbackStops(s: State, stop: Event)
    requires EventLoop.Valid(s) && s.phase.Live? && stop.StopCallback? && Legal(s, stop)
    ensures Stopped(Step(s, stop)) && Step(s, stop).loaded == s.loaded
    ensures Step(s, stop).heap.transfers == s.heap.transfers
  {
    StepKeepsValid(s, stop);
    StoppedHeap(s, stop.handles, stop.removals, stop.cleanup);
    hide EventLoop.Valid, PollMirror.Valid, Ownership.Valid, ListsAttached, ClearNet;
  }

  lemma {:induction false} RunningDrains(s: State)
    requires Requested(s) && Running(s)
    ensures CanDrain(s)
  {
    if s.phase.Gone? {
      var evs := StoppedDrains(s);
    } else {
      var stop := StopCanRun(s);
      StopCallbackStops(s, stop);
      hide EventLoop.Valid;
      var evs := StoppedDrains(Step(s, stop));
      RunCons(s, stop, evs);
    }
  }

  /** If no thread runs the loop when the request is queued, nothing can happen any more. */
  lemma {:induction false} NobodyRuns(s: State, evs: seq<Event>)
    requires EventLoop.Valid(s) && s.loaded && s.async.Queued? && !Running(s) && LegalRun(s, evs)
    ensures evs == []
  {
    hide PollMirror.Valid, Ownership.Valid;
  }

  /**
   A run that has queued the stop request ends drained, or can still be continued until it is
   drained, exactly when some thread runs the loop.
   */
  lemma {:induction false} QueuedOutcome(s: State)
    requires EventLoop.Valid(s) && s.loaded && s.async.Queued?
    ensures CanDrain(s) <==> Running(s)
  {
    if Running(s) {
      RunningDrains(s);
    } else if CanDrain(s) {
      var evs :| LegalRun(s, evs) && Drained(Run(s, evs));
      NobodyRuns(s, evs);
    }
  }

  lemma {:induction false} RequestedStep(s: State, ev: Event)
    requires Requested(s) && Running(s) && Legal(s, ev)
    ensures Requested(Step(s, ev))
    ensures Running(Step(s, ev)) || (ev.LoopExit? && Drained(s))
  {
    hide *;
    RequestedMeans(s);
    RequestedMeans(Step(s, ev));
    StepKeepsValid(s, ev);
    if s.phase.Gone? {
      StoppedMeans(s);
      LoadOnce(s, ev);
      ExitLeavesLoop(ev);
      StoppedStep(s, ev);
      StoppedMeans(Step(s, ev));
    } else if ev.StopCallback? {
      ValidControl(s);
      RequestedLive(s);
      StopCallbackStops(s, ev);
      StoppedMeans(Step(s, ev));
    }
    RequestedControl(s, ev);
  }

  lemma {:induction false} RequestedMeans(s: State)
    ensures Requested(s) <==>
            EventLoop.Valid(s) && s.loaded && !s.async.NotSent? && (s.phase.Gone? ==> s.heap.index == [])
    ensures Drained(s) <==> s.loaded && Emptied(s)
  {
  }

  lemma {:induction false} LoadOnce(s: State, ev: Event)
    requires s.loaded && Legal(s, ev)
    ensures !ev.Load?
  {
  }

  lemma {:induction false} ExitLeavesLoop(ev: Event)
    ensures ev.LoopExit? ==> OfLoop(ev) && !ClosesHandle(ev)
  {
  }

  lemma {:induction false} RequestedLive(s: State)
    requires Requested(s) && !s.phase.Gone?
    ensures s.phase.Live?
  {
    hide PollMirror.Valid, Ownership.Valid;
  }

  lemma {:induction false} RequestedControl(s: State, ev: Event)
    requires Requested(s) && Running(s) && Legal(s, ev)
    ensures !Misuses(s, ev)
    ensures
      var s' := Step(s, ev);
      && s'.loaded && !s'.async.NotSent? && (s'.phase.Gone? ==> s.phase.Gone? || ev.StopCallback?)
      && (Running(s') || ev.LoopExit?) && (ev.LoopExit? ==> s.phase.Gone?)
  {
    TickInHash(s, ev);
    hide PollMirror.Valid, Ownership.Valid, Apply, ListsAttached, ClearNet;
  }

  lemma {:induction false} TickInHash(s: State, ev: Event)
    requires EventLoop.Valid(s) && Legal(s, ev)
    ensures ev.Tick? ==> s.heap.index != []
  {
    if ev.Tick? { TimerOwner(s.heap, ev.p); }
  }

  /** Once the request is queued and the loop runs, no legal run faults or leads out of reach of the drained state. */
  lemma {:induction false} StopNeverSticks(s: State, evs: seq<Event>)
    requires Requested(s) && Running(s) && LegalRun(s, evs)
    ensures !Faulted(Run(s, evs)) && CanDrain(Run(s, evs))
    ensures !Running(Run(s, evs)) ==> Drained(Run(s, evs))
    decreases |evs|
  {
    if evs == [] {
      ValidUnfaulted(s);
      RunningDrains(s);
    } else {
      hide EventLoop.Valid, Emptied, Alive, Legal;
      var s' := Step(s, evs[0]);
      RequestedStep(s, evs[0]);
      if Running(s') {
        StopNeverSticks(s', evs[1..]);
      } else {
        DrainedStays(s', evs[1..]);
      }
    }
  }

  lemma {:induction false} DrainedStays(s: State, evs: seq<Event>)
    requires EventLoop.Valid(s) && Drained(s) && LegalRun(s, evs)
    ensures !Faulted(Run(s, evs)) && Drained(Run(s, evs)) && CanDrain(Run(s, evs))
    decreases |evs|
  {
    if evs == [] {
      DrainedNow(s);
    } else {
      StoppedStep(s, evs[0]);
      DrainedStays(Step(s, evs[0]), evs[1..]);
    }
  }

  lemma {:induction false} DrainedNow(s: State)
    requires Drained(s)
    ensures CanDrain(s)
  {
    assert LegalRun(s, []) && Run(s, []) == s;
  }

  // ---- Before the targets are loaded ----

  /**
   A request sent before the targets have been loaded can end in a fault: in the shutdown
   callback, which uses a multi handle that was never created, or, if there is a target to load,
   in the first tick of one that is loaded after the callback has cleaned up the multi handle.
   */
  lemma {:induction false} UnloadedFaults(s: State) returns (evs: seq<Event>)
    requires EventLoop.Valid(s) && !s.loaded && s.async.Queued? && s.mainRuns
    requires s.phase.Live? ==> s.table.rows != map[]
    ensures LegalRun(s, evs) && Faulted(Run(s, evs))
  {
    var stop := StopCallback(None, [], []);
    var rest := [];
    if s.phase.Before? {
      ValidUnfaulted(s);
      assert LegalRun(Step(s, stop), []) && Run(Step(s, stop), []) == Step(s, stop);
    } else {
      EarlyStop(s);
      hide EventLoop.Valid, Legal, LegalRun, Run, Step;
      rest := LateTick(Step(s, stop));
    }
    hide EventLoop.Valid, Legal, LegalRun, Run, Step;
    RunCons(s, stop, rest);
    evs := [stop] + rest;
  }

  lemma {:induction false} EarlyStop(s: State)
    requires EventLoop.Valid(s) && !s.loaded && s.async.Queued? && s.mainRuns && s.phase.Live?
    ensures
      var stop := StopCallback(None, [], []);
      && Legal(s, stop)
      && (var s' := Step(s, stop); EventLoop.Valid(s') && s'.phase.Gone? && !s'.loaded && s'.table == s.table)
  {
    var stop := StopCallback(None, [], []);
    ValidUnfaulted(s);
    assert Legal(s, stop);
    StepKeepsValid(s, stop);
    hide PollMirror.Valid, Ownership.Valid;
  }

  lemma {:induction false} LateTick(s: State) returns (evs: seq<Event>)
    requires EventLoop.Valid(s) && s.phase.Gone? && !s.loaded && s.table.rows != map[]
    ensures LegalRun(s, evs) && Faulted(Run(s, evs))
  {
    hide *;
    var ids := Sorted(s.table.rows.Keys);
    var load := Load(true, ids, |ids|);
    CanLoad(s, ids);
    StepKeepsValid(s, load);
    LoadedFirst(s, ids);
    var s' := Step(s, load);
    var tick := Tick(s'.heap.index[0], true, true, Attached, []);
    StepKeepsValid(s', tick);
    OneStep(s', tick);
    RunCons(s, load, [tick]);
    evs := [load] + [tick];
  }

  lemma {:induction false} CanLoad(s: State, ids: seq<int>)
    requires EventLoop.Valid(s) && !s.phase.Before? && !s.loaded && StrictlyIncreasing(ids)
    requires forall i :: 0 <= i < |ids| ==> ids[i] in s.table.rows.Keys
    requires forall id :: id in s.table.rows.Keys ==> id in ids
    ensures Legal(s, Load(true, ids, |ids|)) && !Misuses(s, Load(true, ids, |ids|))
  {
    ValidUnfaulted(s);
    hide EventLoop.Valid;
  }

  /** The first of the loaded targets is due at once, and its tick gets as far as curl. */
  lemma {:induction false} LoadedFirst(s: State, ids: seq<int>)
    requires EventLoop.Valid(s) && s.phase.Gone? && s.table.rows != map[]
    requires forall id :: id in s.table.rows.Keys ==> id in ids
    requires Legal(s, Load(true, ids, |ids|)) && EventLoop.Valid(Step(s, Load(true, ids, |ids|)))
    ensures
      var s' := Step(s, Load(true, ids, |ids|));
      && s'.heap.index != []
      && (var tick := Tick(s'.heap.index[0], true, true, Attached, []);
          Legal(s', tick) && Misuses(s', tick))
  {
    hide *;
    var load := Load(true, ids, |ids|);
    var s' := Step(s, load);
    LoadIndex(s, true, ids, |ids|);
    LoadedRuns(s, load);
    ValidUnfaulted(s');
    FirstStarted(s.table, s'.heap, ids);
    StartedTick(s', s'.heap.index[0]);
  }

  lemma {:induction false} FirstStarted(t: Table, h: Heap, ids: seq<int>)
    requires t.rows != map[] && forall id :: id in t.rows.Keys ==> id in ids
    requires IndexIs(h, ids[..|ids|]) && TimersStarted(t, h, ids[..|ids|])
    ensures h.index != [] && h.index[0] in h.targets
    ensures h.targets[h.index[0]].timer.Armed? && h.targets[h.index[0]].id in t.rows
  {
    assert ids[..|ids|] == ids;
    var id := AnyOf(t.rows.Keys);
    assert id in ids;
  }

  lemma {:induction false} StartedTick(s: State, p: Ptr)
    requires !Faulted(s) && s.clientRuns && s.phase.Gone? && p in s.heap.targets
    requires s.heap.targets[p].timer.Armed? && s.heap.targets[p].id in s.table.rows
    ensures
      var tick := Tick(p, true, true, Attached, []);
      Legal(s, tick) && Misuses(s, tick)
  {
  }

  lemma {:induction false} LoadedRuns(s: State, load: Event)
    requires Legal(s, load) && load.Load?
    ensures Step(s, load).clientRuns && Step(s, load).phase == s.phase && Step(s, load).table == s.table
    ensures Step(s, load) == LoadTargets(s, load.getOk, load.ids, load.inits)
  {
  }

  lemma {:induction false} OneStep(s: State, ev: Event)
    requires Legal(s, ev)
    ensures LegalRun(s, [ev]) && Run(s, [ev]) == Step(s, ev)
  {
    assert LegalRun(Step(s, ev), []) && Run(Step(s, ev), []) == Step(s, ev);
  }

  /** Stopped before the client thread has prepared its state. */
  lemma {:induction false} StopBeforePrepareFaults(t: Table) returns (evs: seq<Event>)
    requires KeysValid(t)
    ensures LegalRun(Init(t), [ReadAlive] + ([SendStop] + evs))
            && Faulted(Run(Init(t), [ReadAlive] + ([SendStop] + evs)))
  {
    InitValid(t);
    evs := StopTooEarly(Init(t));
  }

  /** Stopped while the client thread waits for the rows of its targets, if there are any. */
  lemma {:induction false} StopBeforeLoadFaults(t: Table) returns (evs: seq<Event>)
    requires KeysValid(t) && t.rows != map[]
    ensures LegalRun(Init(t), [Prepare] + ([ReadAlive] + ([SendStop] + evs)))
    ensures Faulted(Run(Init(t), [Prepare] + ([ReadAlive] + ([SendStop] + evs))))
  {
    InitValid(t);
    StepKeepsValid(Init(t), Prepare);
    evs := StopTooEarly(Step(Init(t), Prepare));
    RunCons(Init(t), Prepare, [ReadAlive] + ([SendStop] + evs));
  }

  lemma {:induction false} StopTooEarly(s: State) returns (evs: seq<Event>)
    requires EventLoop.Valid(s) && !s.loaded && s.sawAlive.None?
    requires s.phase.Live? ==> s.table.rows != map[]
    ensures LegalRun(s, [ReadAlive] + ([SendStop] + evs)) && Faulted(Run(s, [ReadAlive] + ([SendStop] + evs)))
  {
    ValidUnfaulted(s);
    UnloadedQuiet(s);
    var s1 := Step(s, ReadAlive);
    StepKeepsValid(s, ReadAlive);
    ValidUnfaulted(s1);
    var s2 := Step(s1, SendStop);
    StepKeepsValid(s1, SendStop);
    evs := UnloadedFaults(s2);
    hide EventLoop.Valid, Legal, LegalRun, Run, Step;
    RunCons(s1, SendStop, evs);
    RunCons(s, ReadAlive, [SendStop] + evs);
  }

  // ---- Without any target ----

  /** What a stop wants of every continuation: no fault, and a loop that can be drained once it is asked. */
  ghost predicate Sound(s: State) {
    !Faulted(s) && (!s.async.NotSent? ==> CanDrain(s))
  }

  /** A prepared client that has nothing to load, after the flag was read as false. */
  ghost predicate Targetless(s: State) {
    && EventLoop.Valid(s) && !s.phase.Before?
    && s.table.rows == map[] && s.sawAlive == Some(false)
    && s.heap.targets == map[] && s.heap.index == []
    && (s.phase.Live? ==> s.net.batons == map[] && !s.net.timer.Armed?)
    && (s.async.NotSent? || Running(s) || Emptied(s))
  }

  lemma {:induction false} TargetlessStep(s: State, ev: Event)
    requires Targetless(s) && Legal(s, ev)
    ensures Targetless(Step(s, ev))
    ensures !s.async.NotSent? ==> !Step(s, ev).async.NotSent?
  {
    StepKeepsValid(s, ev);
    if ev.Load? {
      NothingLoaded(s, ev);
    } else if s.phase.Gone? {
      StoppedStep(s, ev);
      TargetlessStopped(s, ev);
    } else {
      TargetlessLive(s, ev);
    }
    hide EventLoop.Valid, Legal, Step, Emptied;
  }

  lemma {:induction false} NothingLoaded(s: State, load: Event)
    requires Targetless(s) && Legal(s, load) && load.Load?
    ensures Step(s, load) == s.(loaded := true, clientRuns := true) && !Misuses(s, load)
  {
    EmptySnapshot(s.table, load.ids);
    hide EventLoop.Valid;
  }

  lemma {:induction false} EmptySnapshot(t: Table, ids: seq<int>)
    requires t.rows == map[] && Snapshot(t, ids)
    ensures ids == []
  {
    SomeListed(ids, t.rows.Keys);
  }

  lemma {:induction false} SomeListed(ids: seq<int>, keys: set<int>)
    requires forall i :: 0 <= i < |ids| ==> ids[i] in keys
    ensures ids != [] ==> keys != {}
  {
    if ids != [] {
      assert ids[0] in keys;
    }
  }

  lemma {:induction false} TargetlessStopped(s: State, ev: Event)
    requires Targetless(s) && s.phase.Gone? && Legal(s, ev) && !ev.Load?
    ensures
      var s' := Step(s, ev);
      && !Misuses(s, ev)
      && s'.table == s.table && s'.sawAlive == s.sawAlive && s'.heap.targets == map[] && !s'.async.NotSent?
      && (Running(s') || Emptied(s'))
  {
    StoppedLegal(s, ev);
    hide PollMirror.Valid, Ownership.Valid, Apply;
  }

  lemma {:induction false} TargetlessLive(s: State, ev: Event)
    requires Targetless(s) && s.phase.Live? && Legal(s, ev) && !ev.Load?
    ensures
      var s' := Step(s, ev);
      && !Misuses(s, ev) && !s'.phase.Before?
      && s'.table == s.table && s'.sawAlive == s.sawAlive && s'.heap.targets == map[] && s'.heap.index == []
      && (s'.phase.Live? ==> s'.net.batons == map[] && !s'.net.timer.Armed?)
      && (s'.async.NotSent? || Running(s')) && (!s.async.NotSent? ==> !s'.async.NotSent?)
  {
    if ev.StopCallback? {
      StoppedHeap(s, ev.handles, ev.removals, ev.cleanup);
    }
    hide PollMirror.Valid, Ownership.Valid, Apply, ListsAttached, ClearNet, Emptied;
  }

  lemma {:induction false} TargetlessDrains(s: State)
    requires Targetless(s) && !s.async.NotSent?
    ensures CanDrain(s)
  {
    if s.loaded {
      if Running(s) { RunningDrains(s); } else { DrainedNow(s); }
    } else {
      var load := Load(true, [], 0);
      ValidUnfaulted(s);
      assert Snapshot(s.table, []) && Legal(s, load);
      NothingLoaded(s, load);
      TargetlessStep(s, load);
      var s' := Step(s, load);
      RunningDrains(s');
      hide EventLoop.Valid, Legal, Step, Drained;
      var evs :| LegalRun(s', evs) && Drained(Run(s', evs));
      RunCons(s, load, evs);
    }
  }

  lemma {:induction false} TargetlessSound(s: State, more: seq<Event>)
    requires Targetless(s) && LegalRun(s, more)
    ensures Sound(Run(s, more))
    ensures !s.async.NotSent? ==> !Run(s, more).async.NotSent?
    decreases |more|
  {
    if more == [] {
      ValidUnfaulted(s);
      hide EventLoop.Valid;
      if !s.async.NotSent? { TargetlessDrains(s); }
    } else {
      TargetlessStep(s, more[0]);
      hide Targetless, Sound;
      TargetlessSound(Step(s, more[0]), more[1..]);
    }
  }

  lemma {:induction false} UnloadedTargetless(s: State)
    requires EventLoop.Valid(s) && s.phase.Live? && !s.loaded && s.table.rows == map[] && s.sawAlive.Some?
    requires s.async.NotSent? || Running(s)
    ensures Targetless(s)
  {
    assert s.sawAlive.value ==> s.sawAlive == Some(true);
    assert !s.sawAlive.value ==> s.sawAlive == Some(false);
  }

  // ---- The two halves of the flag ----

  /** A loop that was left has nothing active until the stop request is queued. */
  ghost predicate LeftQuiet(s: State) {
    s.phase.Live? && !Running(s) && s.async.NotSent? ==> !Alive(s)
  }

  lemma {:induction false} LeftQuietKept(s: State, ev: Event)
    requires EventLoop.Valid(s) && LeftQuiet(s) && Legal(s, ev)
    ensures LeftQuiet(Step(s, ev))
  {
    hide PollMirror.Valid, Ownership.Valid, Apply;
  }

  lemma {:induction false} LeftQuietRun(s: State, evs: seq<Event>)
    requires EventLoop.Valid(s) && LeftQuiet(s) && LegalRun(s, evs)
    ensures LeftQuiet(Run(s, evs)) && (EventLoop.Valid(Run(s, evs)) || Faulted(Run(s, evs)))
    decreases |evs|
  {
    if evs != [] {
      StepKeepsValid(s, evs[0]);
      LeftQuietKept(s, evs[0]);
      hide EventLoop.Valid, LeftQuiet;
      if EventLoop.Valid(Step(s, evs[0])) {
        LeftQuietRun(Step(s, evs[0]), evs[1..]);
      } else {
        assert evs[1..] == [];
      }
    }
  }

  lemma {:induction false} ReachedQuiet(t: Table, evs: seq<Event>)
    requires KeysValid(t) && LegalRun(Init(t), evs) && !Faulted(Run(Init(t), evs))
    ensures EventLoop.Valid(Run(Init(t), evs)) && LeftQuiet(Run(Init(t), evs))
  {
    InitValid(t);
    LeftQuietRun(Init(t), evs);
  }

  /** In every continuation nothing faults and the drained state stays in reach. */
  ghost predicate Settles(s: State) {
    forall more :: LegalRun(s, more) ==> !Faulted(Run(s, more)) && CanDrain(Run(s, more))
  }

  /**
   The request: all goes well from then on exactly when the targets have been loaded and the
   client thread is still in the loop or the flag had been read as false, or when they have not
   been loaded because the client is prepared but has none to load.
   */
  lemma {:induction false} StopExact(s: State)
    requires EventLoop.Valid(s) && Legal(s, SendStop)
    ensures Settles(Step(s, SendStop)) <==>
            if s.loaded then s.clientRuns || s.sawAlive == Some(false) else s.phase.Live? && s.table.rows == map[]
  {
    StepKeepsValid(s, SendStop);
    SentStop(s);
    var s' := Step(s, SendStop);
    hide EventLoop.Valid, Step, Legal;
    if !s.loaded {
      if s.phase.Live? && s.table.rows == map[] {
        UnloadedTargetless(s');
        hide Targetless;
        forall more | LegalRun(s', more) ensures !Faulted(Run(s', more)) && CanDrain(Run(s', more)) {
          TargetlessSound(s', more);
        }
      } else {
        var evs := UnloadedFaults(s');
      }
    } else if Running(s') {
      forall more | LegalRun(s', more) ensures !Faulted(Run(s', more)) && CanDrain(Run(s', more)) {
        StopNeverSticks(s', more);
      }
    } else {
      QueuedOutcome(s');
      assert LegalRun(s', []) && Run(s', []) == s';
    }
  }

  lemma {:induction false} SentStop(s: State)
    requires EventLoop.Valid(s) && Legal(s, SendStop)
    ensures
      var s' := Step(s, SendStop);
      && s'.loaded == s.loaded && s'.async.Queued? && !s'.phase.Gone?
      && s'.phase == s.phase && s'.table == s.table && s'.sawAlive == s.sawAlive
      && (Running(s') <==> s.clientRuns || s.sawAlive == Some(false))
      && (!s.loaded ==> s'.mainRuns)
  {
    hide PollMirror.Valid, Ownership.Valid;
  }

  /**
   `reachard_client_stop` called in any state in which the targets have been loaded, with the loop
   still running or already left: if no callback comes between reading the flag and queueing the
   request, the loop ends empty, whatever happens in between and in whatever order.
   */
  lemma {:induction false} StopDrains(t: Table, evs: seq<Event>)
    requires KeysValid(t) && LegalRun(Init(t), evs)
    requires Legal(Run(Init(t), evs), ReadAlive) && Run(Init(t), evs).loaded
    ensures
      var s := Step(Run(Init(t), evs), ReadAlive);
      Legal(s, SendStop) && Settles(Step(s, SendStop))
  {
    ReachedQuiet(t, evs);
    var s := Run(Init(t), evs);
    StepKeepsValid(s, ReadAlive);
    ReadStop(s);
    StopExact(Step(s, ReadAlive));
  }

  lemma {:induction false} ReadStop(s: State)
    requires EventLoop.Valid(s) && LeftQuiet(s) && Legal(s, ReadAlive)
    ensures
      var s' := Step(s, ReadAlive);
      && EventLoop.Valid(s') && LeftQuiet(s')
      && s' == s.(sawAlive := Some(Alive(s)))
      && s.async.NotSent? && !s.phase.Gone?
      && Legal(s', SendStop)
      && (s.loaded && Alive(s) ==> s.clientRuns)
      && (!s.loaded ==> !Alive(s))
  {
    hide EventLoop.Valid, Alive, Step, PhaseValid;
    var s' := Step(s, ReadAlive);
    StepKeepsValid(s, ReadAlive);
    LeftQuietKept(s, ReadAlive);
    ReadStep(s);
    ValidControl(s);
    ValidUnfaulted(s');
    if !s.loaded { UnloadedQuiet(s); }
  }

  lemma {:induction false} ReadStep(s: State)
    requires Legal(s, ReadAlive)
    ensures Step(s, ReadAlive) == s.(sawAlive := Some(Alive(s))) && s.sawAlive.None? && !Misuses(s, ReadAlive)
  {
  }

  lemma {:induction false} ValidControl(s: State)
    requires EventLoop.Valid(s)
    ensures ControlValid(s) && PhaseValid(s)
  {
  }

  // ---- Between the flag and the request ----

  /** Some target in the hash has a timer that goes off again and again. */
  ghost predicate Repeats(h: Heap) {
    exists i :: 0 <= i < |h.index| && h.index[i] in h.targets
                && h.targets[h.index[i]].timer.Armed? && h.targets[h.index[i]].timer.period != 0
  }

  lemma {:induction false} RepeatsKept(h: Heap, g: Heap)
    requires SameIndex(h, g)
    ensures Repeats(h) <==> Repeats(g)
  {
    if i :| 0 <= i < |h.index| && h.index[i] in h.targets && h.targets[h.index[i]].timer.Armed?
            && h.targets[h.index[i]].timer.period != 0 {
      assert SameTarget(h, g, h.index[i]);
    }
    if i :| 0 <= i < |g.index| && g.index[i] in g.targets && g.targets[g.index[i]].timer.Armed?
            && g.targets[g.index[i]].timer.period != 0 {
      assert SameTarget(h, g, h.index[i]);
    }
  }

  /** The stop has read its flag in a loop with loaded targets and not yet sent its request. */
  ghost predicate Awaiting(s: State) {
    && EventLoop.Valid(s) && LeftQuiet(s)
    && s.phase.Live? && s.loaded && s.async.NotSent? && s.sawAlive.Some?
  }

  lemma {:induction false} AwaitingStep(s: State, ev: Event)
    requires Awaiting(s) && Legal(s, ev) && !ev.SendStop?
    ensures Awaiting(Step(s, ev))
    ensures Step(s, ev).sawAlive == s.sawAlive && SameIndex(s.heap, Step(s, ev).heap)
    ensures Step(s, ev).clientRuns == s.clientRuns || ev.LoopExit?
  {
    StepSameIndex(s, ev);
    LeftQuietKept(s, ev);
    AwaitingControl(s, ev);
    hide EventLoop.Valid, Step, LeftQuiet;
  }

  lemma {:induction false} AwaitingControl(s: State, ev: Event)
    requires Legal(s, ev) && !ev.SendStop?
    requires s.phase.Live? && s.loaded && s.async.NotSent? && s.sawAlive.Some?
    ensures !ev.StopCallback?
    ensures Step(s, ev).async.NotSent? && Step(s, ev).sawAlive == s.sawAlive
    ensures Step(s, ev).clientRuns == s.clientRuns || ev.LoopExit?
  {
    hide Apply;
  }

  lemma {:induction false} AwaitingSound(s: State, more: seq<Event>)
    requires Awaiting(s) && (s.sawAlive == Some(false) || Repeats(s.heap)) && LegalRun(s, more)
    ensures Sound(Run(s, more))
    decreases |more|
  {
    ValidUnfaulted(s);
    if more != [] {
      var s' := Step(s, more[0]);
      if more[0].SendStop? {
        StepKeepsValid(s, SendStop);
        SentStop(s);
        if Repeats(s.heap) { RepeatingRuns(s); }
        hide EventLoop.Valid, Step, Legal;
        StopNeverSticks(s', more[1..]);
      } else {
        AwaitingStep(s, more[0]);
        hide Awaiting, Step, Legal;
        RepeatsKept(s.heap, s'.heap);
        AwaitingSound(s', more[1..]);
      }
    }
  }

  lemma {:induction false} RepeatingRuns(s: State)
    requires Awaiting(s) && Repeats(s.heap)
    ensures s.clientRuns
  {
    assert Alive(s);
    hide PollMirror.Valid, Ownership.Valid;
  }

  // ---- How it can miss ----

  /** The flag said that the loop is alive, but nothing in it goes on for ever. */
  ghost predicate Missable(s: State) {
    Awaiting(s) && s.clientRuns && s.sawAlive == Some(true) && !Repeats(s.heap)
  }

  ghost predicate HasStarted(n: Net) {
    exists b :: b in n.batons && n.batons[b].mask.Some?
  }

  ghost function ArmedTargets(h: Heap): set<Ptr> {
    set p | p in h.targets && h.targets[p].timer.Armed?
  }

  /** What is still to happen in a loop that is becoming quiet, the most important first. */
  ghost function Work(s: State): (nat, nat, nat, nat, nat) {
    (if HasStarted(s.net) then 1 else 0, if s.net.timer.Armed? then 1 else 0,
     |s.net.batons|, |s.heap.targets|, |ArmedTargets(s.heap)|)
  }

  ghost predicate Less(a: (nat, nat, nat, nat, nat), b: (nat, nat, nat, nat, nat)) {
    || a.0 < b.0
    || (a.0 == b.0 && a.1 < b.1)
    || (a.0 == b.0 && a.1 == b.1 && a.2 < b.2)
    || (a.0 == b.0 && a.1 == b.1 && a.2 == b.2 && a.3 < b.3)
    || (a.0 == b.0 && a.1 == b.1 && a.2 == b.2 && a.3 == b.3 && a.4 < b.4)
  }

  /** curl gives up all its sockets. */
  lemma {:induction false} PollsEnd(s: State) returns (ev: Event)
    requires Awaiting(s) && s.clientRuns && HasStarted(s.net)
    ensures Legal(s, ev) && ev.Ready? && Less(Work(Step(s, ev)), Work(s))
  {
    var b :| b in s.net.batons && s.net.batons[b].mask.Some?;
    assert Placed(s.net, b);
    var cbs := RemoveAll(s.net);
    ev := Ready(b, false, cbs, [], []);
    var n := DeliverAll(s.net, cbs);
    DeliverAllKeepsValid(s.net, cbs);
    ValidUnfaulted(s);
    assert s.heap.messages + [] == [];
    assert Step(s, ev).net == n;
    hide Step, Legal;
    assert !HasStarted(n) by {
      forall b | b in n.batons ensures n.batons[b].mask.None? {
        assert Placed(n, b);
      }
    }
  }

  lemma {:induction false} TimerEnds(s: State) returns (ev: Event)
    requires Awaiting(s) && s.clientRuns && !HasStarted(s.net) && s.net.timer.Armed?
    ensures Legal(s, ev) && ev.Expire? && Less(Work(Step(s, ev)), Work(s))
  {
    ev := Expire([], [], []);
    ValidUnfaulted(s);
    assert s.heap.messages + [] == [];
    assert Step(s, ev).net == s.net.(timer := Idle);
  }

  lemma {:induction false} BatonsEnd(s: State, b: Ptr)
    requires Awaiting(s) && s.clientRuns && !HasStarted(s.net) && b in s.net.batons && s.net.batons[b].closing
    ensures Legal(s, CloseBaton(b)) && Less(Work(Step(s, CloseBaton(b))), Work(s))
  {
    ValidUnfaulted(s);
    var n := SocketDeinit(s.net, b);
    assert Step(s, CloseBaton(b)).net == n;
    assert n.batons.Keys == s.net.batons.Keys - {b};
    assert |n.batons.Keys| < |s.net.batons.Keys|;
    assert !HasStarted(n);
  }

  lemma {:induction false} TargetsEnd(s: State, p: Ptr) returns (ev: Event)
    requires Missable(s) && p in s.heap.targets && (s.heap.targets[p].timer.Closing? || s.heap.targets[p].timer.Armed?)
    ensures Legal(s, ev) && (ev.CloseTarget? || ev.Tick?) && Less(Work(Step(s, ev)), Work(s))
  {
    hide *;
    if s.heap.targets[p].timer.Closing? {
      ev := CloseTarget(p);
      ClosingEnds(s, p);
    } else {
      ev := Tick(p, false, true, NoEasy, []);
      OneShotEnds(s, p);
    }
  }

  lemma {:induction false} ClosingEnds(s: State, p: Ptr)
    requires Missable(s) && p in s.heap.targets && s.heap.targets[p].timer.Closing?
    ensures Legal(s, CloseTarget(p)) && Less(Work(Step(s, CloseTarget(p))), Work(s))
  {
    ValidUnfaulted(s);
    hide EventLoop.Valid;
    var h := Step(s, CloseTarget(p)).heap;
    assert h.targets.Keys == s.heap.targets.Keys - {p};
    assert |h.targets.Keys| < |s.heap.targets.Keys|;
  }

  lemma {:induction false} OneShotEnds(s: State, p: Ptr)
    requires Missable(s) && p in s.heap.targets && s.heap.targets[p].timer.Armed?
    ensures
      var tick := Tick(p, false, true, NoEasy, []);
      Legal(s, tick) && Less(Work(Step(s, tick)), Work(s))
  {
    ValidUnfaulted(s);
    TimerOwner(s.heap, p);
    var i :| 0 <= i < |s.heap.index| && s.heap.index[i] == p;
    assert s.heap.targets[p].timer.period == 0;
    FireTimerExact(s.heap, p);
    hide EventLoop.Valid, Repeats, FireTimer;
    var h := Step(s, Tick(p, false, true, NoEasy, [])).heap;
    assert ArmedTargets(h) == ArmedTargets(s.heap) - {p} && p in ArmedTargets(s.heap);
  }

  lemma {:induction false} QuietStep(s: State) returns (ev: Event)
    requires Missable(s) && Alive(s)
    ensures Legal(s, ev) && !ev.SendStop? && !ev.LoopExit? && Less(Work(Step(s, ev)), Work(s))
  {
    if HasStarted(s.net) {
      ev := PollsEnd(s);
    } else if s.net.timer.Armed? {
      ev := TimerEnds(s);
    } else if b :| b in s.net.batons && s.net.batons[b].closing {
      ev := CloseBaton(b);
      BatonsEnd(s, b);
    } else {
      assert s.heap.targets.Keys != {};
      var p :| p in s.heap.targets && (s.heap.targets[p].timer.Armed? || s.heap.targets[p].timer.Closing?);
      ev := TargetsEnd(s, p);
    }
  }

  lemma {:induction false} QuietRun(s: State) returns (evs: seq<Event>)
    requires Missable(s)
    ensures LegalRun(s, evs) && Missable(Run(s, evs)) && !Alive(Run(s, evs))
    ensures Run(s, evs).heap.index == s.heap.index
    decreases Work(s).0, Work(s).1, Work(s).2, Work(s).3, Work(s).4
  {
    evs := [];
    if Alive(s) {
      var ev := QuietStep(s);
      AwaitingStep(s, ev);
      var s' := Step(s, ev);
      RepeatsKept(s.heap, s'.heap);
      hide Step, Legal, Awaiting, Work, Alive;
      var rest := QuietRun(s');
      RunCons(s, ev, rest);
      evs := [ev] + rest;
    }
  }

  /** Nothing repeats: the loop can be left before the request is sent, and then nobody serves it. */
  lemma {:induction false} MissRun(s: State) returns (evs: seq<Event>)
    requires Missable(s)
    ensures LegalRun(s, evs) && Legal(Run(s, evs), SendStop) && Run(s, evs).heap.index == s.heap.index
    ensures
      var e := Step(Run(s, evs), SendStop);
      e.async.Queued? && !CanDrain(e)
  {
    hide *;
    var quiet := QuietRun(s);
    var q := Run(s, quiet);
    LeaveLoop(q);
    OneStep(q, LoopExit);
    RunAppend(s, quiet, [LoopExit]);
    evs := quiet + [LoopExit];
  }

  /** The client thread leaves a quiet loop, and then the request is sent. */
  lemma {:induction false} LeaveLoop(s: State)
    requires Missable(s) && !Alive(s)
    ensures
      Legal(s, LoopExit) &&
      var left := Step(s, LoopExit);
      && Legal(left, SendStop) && left.heap == s.heap
      && Step(left, SendStop).async.Queued? && !CanDrain(Step(left, SendStop))
  {
    ValidUnfaulted(s);
    var left := Step(s, LoopExit);
    AwaitingStep(s, LoopExit);
    ValidUnfaulted(left);
    StepKeepsValid(left, SendStop);
    SentStop(left);
    hide EventLoop.Valid, Alive, Legal, CanDrain;
    QueuedOutcome(Step(left, SendStop));
  }

  /** However long the request takes after the flag, it finds a loop that can be drained. */
  ghost predicate RequestsDrain(s: State) {
    forall more :: LegalRun(s, more) && Legal(Run(s, more), SendStop) ==> CanDrain(Step(Run(s, more), SendStop))
  }

  /**
   With the flag read as true and the client thread in the loop, the request is sure to be served
   exactly when some target in the hash repeats.
   */
  lemma {:induction false} MissExact(s: State)
    requires EventLoop.Valid(s) && s.phase.Live? && s.loaded && s.clientRuns
    requires s.async.NotSent? && s.sawAlive == Some(true)
    ensures RequestsDrain(s) <==> Repeats(s.heap)
  {
    assert Awaiting(s);
    hide EventLoop.Valid;
    if Repeats(s.heap) {
      forall more | LegalRun(s, more) && Legal(Run(s, more), SendStop) ensures CanDrain(Step(Run(s, more), SendStop)) {
        SentLast(s, more);
        hide Legal, LegalRun, Run, Step, CanDrain;
        AwaitingSound(s, more + [SendStop]);
      }
    } else {
      var evs := MissRun(s);
    }
  }

  /** A run that ends with the request. */
  lemma {:induction false} SentLast(s: State, evs: seq<Event>)
    requires LegalRun(s, evs) && Legal(Run(s, evs), SendStop)
    ensures LegalRun(s, evs + [SendStop]) && Run(s, evs + [SendStop]) == Step(Run(s, evs), SendStop)
    ensures Run(s, evs + [SendStop]).async.Queued? && Run(s, evs + [SendStop]).heap == Run(s, evs).heap
  {
    RunAppend(s, evs, [SendStop]);
    var e := Run(s, evs);
    assert LegalRun(e, [SendStop]) && Run(e, [SendStop]) == Run(Step(e, SendStop), []);
  }

  // ---- The whole call ----

  /** From reading the flag on, every continuation is sound. */
  ghost predicate StopSound(s: State)
    requires Legal(s, ReadAlive)
  {
    forall more :: LegalRun(Step(s, ReadAlive), more) ==> Sound(Run(Step(s, ReadAlive), more))
  }

  /**
   `reachard_client_stop` called in any state the client can be in.  Nothing faults and the loop
   can be drained, however the threads interleave, exactly when the targets have been loaded and
   the loop has been left or some target in the hash repeats, or when the client is prepared and
   there is no target to load.
   */
  lemma {:induction false} StopCallExact(t: Table, evs: seq<Event>)
    requires KeysValid(t) && LegalRun(Init(t), evs) && Legal(Run(Init(t), evs), ReadAlive)
    ensures
      var s := Run(Init(t), evs);
      StopSound(s) <==> if s.loaded then Alive(s) ==> Repeats(s.heap) else s.phase.Live? && s.table.rows == map[]
  {
    var s := Run(Init(t), evs);
    assert !Faulted(s);
    ReachedQuiet(t, evs);
    hide Run, LegalRun;
    ReadStop(s);
    var s' := Step(s, ReadAlive);
    hide EventLoop.Valid, Legal, Step, LeftQuiet, Alive, Repeats;
    if !s.loaded {
      UnloadedCallExact(s);
    } else {
      assert Awaiting(s') && s'.heap == s.heap;
      if Alive(s) && !Repeats(s.heap) {
        var more := MissSound(s');
      } else {
        forall more | LegalRun(s', more) ensures Sound(Run(s', more)) {
          AwaitingSound(s', more);
        }
      }
    }
  }

  lemma {:induction false} UnloadedCallExact(s: State)
    requires EventLoop.Valid(s) && LeftQuiet(s) && !s.loaded && Legal(s, ReadAlive)
    ensures StopSound(s) <==> s.phase.Live? && s.table.rows == map[]
  {
    ReadStop(s);
    var s' := Step(s, ReadAlive);
    hide EventLoop.Valid, Legal, Step, LeftQuiet, Alive;
    if s.phase.Live? && s.table.rows == map[] {
      UnloadedTargetless(s');
      hide Targetless;
      forall more | LegalRun(s', more) ensures Sound(Run(s', more)) {
        TargetlessSound(s', more);
      }
    } else {
      var more := TooEarly(s);
    }
  }

  lemma {:induction false} TooEarly(s: State) returns (more: seq<Event>)
    requires EventLoop.Valid(s) && !s.loaded && Legal(s, ReadAlive)
    requires s.phase.Live? ==> s.table.rows != map[]
    ensures LegalRun(Step(s, ReadAlive), more) && !Sound(Run(Step(s, ReadAlive), more))
  {
    var evs := StopTooEarly(s);
    hide EventLoop.Valid, Step, Legal, Run, LegalRun;
    RunCons(s, ReadAlive, [SendStop] + evs);
    more := [SendStop] + evs;
  }

  lemma {:induction false} MissSound(s: State) returns (more: seq<Event>)
    requires Missable(s)
    ensures LegalRun(s, more) && !Sound(Run(s, more))
  {
    var evs := MissRun(s);
    SentLast(s, evs);
    more := evs + [SendStop];
  }

  /**
   If any target with an interval other than 0 was loaded, the stop succeeds however long ago the
   flag was read: only intervals of 0 can make it miss.
   */
  lemma {:induction false} RepeatingTargetStops(t: Table, before: seq<Event>, ids: seq<int>, inits: nat,
                                                after: seq<Event>, i: nat)
    requires KeysValid(t) && LegalRun(Init(t), before + ([Load(true, ids, inits)] + after))
    requires NoStop(before) && NoStop(after) && LegalRun(Init(t), before)
    requires
      var rows := Run(Init(t), before).table.rows;
      i < inits <= |ids| && ids[i] in rows && rows[ids[i]].interval != 0
    requires Legal(Run(Init(t), before + ([Load(true, ids, inits)] + after)), SendStop)
    ensures Settles(Step(Run(Init(t), before + ([Load(true, ids, inits)] + after)), SendStop))
  {
    var run := before + ([Load(true, ids, inits)] + after);
    var e := Run(Init(t), run);
    assert !Faulted(e);
    ReachedQuiet(t, run);
    IndexIsSnapshot(t, before, true, ids, inits, after);
    SnapshotArmed(Run(Init(t), before).table, e.heap, ids[..inits], i);
    hide Run, LegalRun;
    ArmedRuns(e, e.heap.index[i]);
    StopExact(e);
  }

  lemma {:induction false} SnapshotArmed(t: Table, h: Heap, ids: seq<int>, i: nat)
    requires TimersAre(t, h, ids) && i < |ids| && ids[i] in t.rows && t.rows[ids[i]].interval != 0
    ensures i < |h.index| && h.index[i] in h.targets && h.targets[h.index[i]].timer.Armed?
  {
  }

  /** Whoever is armed keeps the client thread in the loop until the request is queued. */
  lemma {:induction false} ArmedRuns(s: State, p: Ptr)
    requires EventLoop.Valid(s) && LeftQuiet(s) && Legal(s, SendStop)
    requires p in s.heap.targets && s.heap.targets[p].timer.Armed?
    ensures s.clientRuns && s.loaded
  {
    assert Alive(s);
    TargetAllocated(s, p);
    hide PollMirror.Valid, Ownership.Valid;
  }

  /**
   A whole run that misses: one target with interval 0, the flag read before its only tick, the
   request sent when the loop has been left.
   */
  lemma {:induction false} StopCanMiss() returns (t: Table, evs: seq<Event>)
    ensures KeysValid(t) && LegalRun(Init(t), evs)
    ensures Run(Init(t), evs).async.Queued? && Run(Init(t), evs).heap.index != []
    ensures !CanDrain(Run(Init(t), evs))
  {
    t := Table(map[1 := Target(1, "", "", 0, true)], 2);
    hide *;
    var load := Load(true, [1], 1);
    SingleMissable(t);
    var s1 := Step(Init(t), Prepare);
    var s2 := Step(s1, load);
    var s3 := Step(s2, ReadAlive);
    var miss := MissRun(s3);
    SentLast(s3, miss);
    RunCons(s2, ReadAlive, miss + [SendStop]);
    RunCons(s1, load, [ReadAlive] + (miss + [SendStop]));
    RunCons(Init(t), Prepare, [load] + ([ReadAlive] + (miss + [SendStop])));
    evs := [Prepare] + ([load] + ([ReadAlive] + (miss + [SendStop])));
  }

  lemma {:induction false} SingleMissable(t: Table)
    requires t == Table(map[1 := Target(1, "", "", 0, true)], 2)
    ensures KeysValid(t) && Legal(Init(t), Prepare)
    ensures
      var s1 := Step(Init(t), Prepare);
      && Legal(s1, Load(true, [1], 1))
      && (var s2 := Step(s1, Load(true, [1], 1));
          && Legal(s2, ReadAlive)
          && Missable(Step(s2, ReadAlive)) && Step(s2, ReadAlive).heap.index == [0])
  {
    InitValid(t);
    var s1 := Step(Init(t), Prepare);
    StepKeepsValid(Init(t), Prepare);
    SingleLoads(t);
    var load := Load(true, [1], 1);
    StepKeepsValid(s1, load);
    hide EventLoop.Valid, Repeats;
    SingleReads(Step(s1, load));
  }

  lemma {:induction false} SingleReads(s: State)
    requires EventLoop.Valid(s) && s.phase.Live? && s.loaded && s.clientRuns && s.sawAlive.None?
    requires s.heap.index == [0] && s.heap.targets == map[0 := Cell(1, true, Armed(0, 0))] && !Repeats(s.heap)
    ensures Legal(s, ReadAlive) && Missable(Step(s, ReadAlive)) && Step(s, ReadAlive).heap.index == [0]
  {
    ValidUnfaulted(s);
    assert 0 in s.heap.targets && Alive(s);
    hide EventLoop.Valid, Repeats, Alive;
    ReadStop(s);
  }

  lemma {:induction false} SingleLoads(t: Table)
    requires t == Table(map[1 := Target(1, "", "", 0, true)], 2)
    ensures
      var s := Step(Init(t), Prepare);
      var load := Load(true, [1], 1);
      && Legal(s, load)
      && (var h := Step(s, load).heap;
          h.index == [0] && h.targets == map[0 := Cell(1, true, Armed(0, 0))] && !Repeats(h))
      && Step(s, load).phase.Live? && Step(s, load).loaded && Step(s, load).clientRuns && Step(s, load).sawAlive.None?
  {
    var s := Step(Init(t), Prepare);
    var s' := s.(loaded := true, clientRuns := true);
    assert [1][..1] == [1] && [1][1..] == [];
    assert InitTargets(s', [1]) == InitTargets(WatcherAdd(s', 1), []) == WatcherAdd(s', 1);
    assert WatcherAdd(s', 1).heap.index == [] + [0] == [0];
  }

  // ---- What the shutdown leaves behind ----

  /**
   Every record that had not completed when the shutdown callback ran stays allocated for ever;
   the easy handles are all freed if curl could list them.
   */
  lemma {:induction false} ShutdownLeavesRecords(s: State, stop: Event, evs: seq<Event>)
    requires EventLoop.Valid(s) && s.loaded && stop.StopCallback? && Legal(s, stop) && LegalRun(Step(s, stop), evs)
    ensures Run(Step(s, stop), evs).heap.transfers == s.heap.transfers
    ensures stop.handles.Some? ==> Run(Step(s, stop), evs).heap.easies.Keys == s.heap.easies.Keys - s.heap.attached
  {
    StopCallbackStops(s, stop);
    StoppedHeap(s, stop.handles, stop.removals, stop.cleanup);
    StoppedRun(Step(s, stop), evs);
  }

  /** Every record is lost or belongs to one attached handle. */
  lemma {:induction false} RecordsCounted(h: Heap)
    requires Ownership.Valid(h)
    ensures |h.transfers| == |h.lost| + |h.attached|
  {
    var owners := map e | e in h.attached && e in h.easies :: h.easies[e];
    var records := set e | e in owners.Keys :: owners[e];
    AttachedOwners(h, owners);
    ImageCount(owners, owners.Keys);
    SplitCount(h.transfers.Keys, h.lost, records);
  }

  lemma {:induction false} SplitCount(all: set<Ptr>, part: set<Ptr>, rest: set<Ptr>)
    requires part <= all && all - part == rest
    ensures |all| == |part| + |rest|
  {
    assert all == part + rest;
  }

  lemma {:induction false} AttachedOwners(h: Heap, owners: map<Ptr, Ptr>)
    requires Ownership.Valid(h) && owners == map e | e in h.attached && e in h.easies :: h.easies[e]
    ensures owners.Keys == h.attached
    ensures forall e, e' :: e in owners && e' in owners && e != e' ==> owners[e] != owners[e']
    ensures h.lost <= h.transfers.Keys
    ensures h.transfers.Keys - h.lost == set e | e in owners.Keys :: owners[e]
  {
    assert forall e :: e in h.attached ==> Owned(h, e);
    assert forall e :: e in owners ==> HandleOf(h.attached, h.easies, e, owners[e]);
    forall t | t in h.transfers.Keys - h.lost ensures exists e :: e in owners.Keys && owners[e] == t {
      var e :| HandleOf(h.attached, h.easies, e, t);
      assert e in owners.Keys;
    }
  }

  /**
   The ledger at the end: a drained client has freed every baton once and every target, and what
   it has not freed are the records that were lost in ticks before the stop and those of the
   transfers that were under way at the stop.
   */
  lemma {:induction false} DrainedLedger(s: State, stop: Event, evs: seq<Event>)
    requires EventLoop.Valid(s) && s.loaded && stop.StopCallback? && Legal(s, stop)
    requires LegalRun(Step(s, stop), evs) && Drained(Run(Step(s, stop), evs))
    ensures
      var e := Run(Step(s, stop), evs);
      && |e.net.freed| == e.net.next && NoDuplicates(e.net.freed)
      && e.heap.targets == map[]
      && e.heap.transfers == s.heap.transfers && e.heap.transfers.Keys == e.heap.lost
      && |e.heap.transfers| == |s.heap.lost| + |s.heap.attached|
  {
    var e := Run(Step(s, stop), evs);
    ShutdownLeavesRecords(s, stop, evs);
    RecordsCounted(s.heap);
    StopCallbackStops(s, stop);
    StoppedRun(Step(s, stop), evs);
    hide Run, LegalRun, Step;
    assert EventLoop.Valid(e);
    BatonsConserved(e.net);
    assert LiveBatons(e.net) == {} && ClosingBatons(e.net) == {};
    AllLost(e.heap);
  }

  lemma {:induction false} AllLost(h: Heap)
    requires Ownership.Valid(h) && h.attached == {}
    ensures h.transfers.Keys == h.lost
  {
    assert forall e, t :: !HandleOf(h.attached, h.easies, e, t);
    assert forall t :: t in h.transfers.Keys - h.lost ==> exists e :: HandleOf(h.attached, h.easies, e, t);
    assert forall t :: t in h.transfers ==> t in h.transfers.Keys - h.lost || t in h.lost;
  }
}
