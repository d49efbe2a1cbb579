/**
 The callbacks and operations of the client as they run
 (src/client/watcher.c, src/client/targets.c, src/client/state.c, src/client/client.c).
 Each method is proved to be the event of the same name of `EventLoop`, and none needs to check
 that what it reads is still allocated.
 */
module Watcher {
  import opened CurlState
  import opened EventLoop
  import opened Ownership
  import opened PollMirror
  import opened Sequences
  import opened Shutdown
  import opened Table
  import opened Wrappers

  /** What `curl_multi_socket_action` is told about a socket. */
  datatype Ready = ReadyError | ReadyFor(input: bool, output: bool)

  lemma {:induction false} TickIsSafe(s: State, p: Ptr, getOk: bool, mallocOk: bool, attach: Attach, cbs: seq<Callback>)
    requires EventLoop.Valid(s) && Legal(s, Tick(p, getOk, mallocOk, attach, cbs))
    requires !Misuses(s, Tick(p, getOk, mallocOk, attach, cbs))
    ensures p in s.heap.targets && PollMirror.Valid(s.net)
    ensures ReachesCurl(s, p, getOk, mallocOk) ==> s.phase.Live? && TimerOpen(s.net)
    ensures EventLoop.Valid(EventLoop.TargetCheck(s, p, getOk, mallocOk, attach, cbs))
  {
    StepKeepsValid(s, Tick(p, getOk, mallocOk, attach, cbs));
    TargetAllocated(s, p);
  }

  lemma {:induction false} CloseSteps(s: State, ev: Event)
    requires Legal(s, ev) && ClosesHandle(ev)
    ensures !Misuses(s, ev)
    ensures
      match ev
      case CloseTarget(p) => Step(s, ev) == s.(heap := s.heap.(targets := s.heap.targets - {p}))
      case CloseBaton(b) =>
        b in s.net.batons && s.net.batons[b].closing && Step(s, ev) == s.(net := SocketDeinit(s.net, b))
      case CloseTimer => Step(s, ev) == s.(net := s.net.(timer := Absent))
      case _ => Step(s, ev) == s.(async := AsyncClosed)
  {
  }

  lemma {:induction false} AddIsSafe(s: State, id: int)
    requires EventLoop.Valid(s) && s.loaded && id in s.table.rows
    ensures EventLoop.Valid(EventLoop.WatcherAdd(s, id)) && s.table.rows[id].id == id
  {
    WatcherAddKeepsValid(s, id);
  }

  lemma {:induction false} StopIsSafe(s: State, handles: Option<seq<Ptr>>, removals: seq<seq<Callback>>)
    requires EventLoop.Valid(s) && s.phase.Live? && ListsAttached(s, handles, removals)
    ensures IndexValid(s.heap) && !s.heap.fault && PollMirror.Valid(s.net) && TimerOpen(s.net)
    ensures handles.Some? ==> forall i :: 0 <= i < |handles.value| ==> handles.value[i] in s.heap.easies
  {
    AttachedAreEasies(s.heap);
    assert handles.Some? ==> forall i :: 0 <= i < |handles.value| ==> handles.value[i] in s.heap.attached;
  }

  lemma {:induction false} StoppedHandles(s: State)
    requires Stopped(s)
    ensures s.net.timer.Closing? || s.net.timer.Absent?
    ensures s.async.AsyncClosing? || s.async.AsyncClosed?
    ensures s.heap.index == [] && s.heap.attached == {}
  {
  }

  /** The state in which `reachard_client_stop` has queued its request. */
  lemma {:induction false} StopRequested(s: State)
    requires EventLoop.Valid(s) && LeftQuiet(s) && s.sawAlive.None?
    ensures
      var s' := s.(sawAlive := Some(Alive(s)), async := Queued, mainRuns := !Alive(s));
      && s.async.NotSent? && !s.phase.Gone? && (s.phase.Before? ==> !Alive(s))
      && EventLoop.Valid(s') && Running(s') && (Alive(s) ==> s.clientRuns && s.loaded && CanDrain(s')) && !s.mainRuns
  {
    hide EventLoop.Valid, Alive, Legal, LeftQuiet, PhaseValid;
    NotBegun(s);
    ReadStop(s);
    var s1 := Step(s, ReadAlive);
    StepKeepsValid(s1, SendStop);
    SentStop(s1);
    ValidControl(s);
    if Alive(s) {
      RunningDrains(Step(s1, SendStop));
    }
  }

  lemma {:induction false} NotBegun(s: State)
    requires EventLoop.Valid(s) && s.sawAlive.None?
    ensures Legal(s, ReadAlive)
  {
    ValidUnfaulted(s);
  }

  lemma {:induction false} InitNext(s: State, ids: seq<int>, i: nat, inits: nat)
    requires i < inits <= |ids| && forall j :: 0 <= j < |ids| ==> ids[j] in s.table.rows
    ensures InitTargets(s, ids[i..inits]) == InitTargets(EventLoop.WatcherAdd(s, ids[i]), ids[i + 1..inits])
  {
  }

  lemma {:induction false} StartedLoads(s: State, getOk: bool, ids: seq<int>, inits: nat)
    requires EventLoop.Valid(s) && s.phase.Live? && !s.loaded && Snapshot(s.table, ids) && inits <= |ids|
    ensures Legal(s, Load(getOk, ids, inits))
  {
    ValidUnfaulted(s);
  }

  lemma {:induction false} InitNone(s: State, ids: seq<int>)
    requires ids == []
    ensures InitTargets(s, ids) == s
  {
  }

  lemma {:induction false} RowsByKey(t: Table, ids: seq<int>)
    requires KeysValid(t) && forall i :: 0 <= i < |ids| ==> ids[i] in t.rows
    ensures forall i :: 0 <= i < |ids| ==> t.rows[ids[i]].id == ids[i]
  {
  }

  class Watcher {
    const state: CurlState

    var next: nat
    var targets: map<Ptr, Cell>
    var index: seq<Ptr>
    var transfers: map<Ptr, Ptr>
    var easies: map<Ptr, Ptr>
    // Kept by curl: the handles in the multi handle and its messages
    var attached: set<Ptr>
    var messages: seq<Message>
    ghost var lost: set<Ptr>

    // The database, through this connection and the server's
    var table: Table
    ghost var log: seq<Entry>

    var phase: Phase
    var loaded: bool
    var async: Async
    var clientRuns: bool
    var mainRuns: bool
    var sawAlive: Option<bool>

    ghost function Heap(): Heap
      reads this
    {
      Ownership.Heap(next, targets, index, transfers, easies, attached, messages, lost, false)
    }

    ghost function Abs(): State
      reads this, state
    {
      State(state.Abs(), Heap(), table, log, phase, loaded, async, clientRuns, mainRuns, sawAlive)
    }

    ghost predicate Valid()
      reads this, state
    {
      EventLoop.Valid(Abs())
    }

    constructor (table: Table)
      requires KeysValid(table)
      ensures Valid() && Abs() == Init(table) && fresh(state)
    {
      state := new CurlState();
      next, targets, index, transfers, easies := 0, map[], [], map[], map[];
      attached, messages, lost := {}, [], {};
      this.table, log := table, [];
      phase, loaded, async, clientRuns, mainRuns, sawAlive := Before, false, NotSent, false, false, None;
      new;
      InitValid(table);
    }

    // ---- src/client/targets.c ----

    /** Allocate a target and start its timer. */
    method TargetInit(row: Target) returns (p: Ptr)
      modifies `next, `targets, `log
      ensures p == old(next) && next == p + 1
      ensures targets == old(targets)[p := Cell(row.id, row.up, Armed(0, row.interval * 1000))]
      ensures log == old(log) + [Started(row.id, row.up)]
    {
      p := next;
      next := next + 1;
      var intervalMs := row.interval * 1000;
      targets := targets[p := Cell(row.id, row.up, Armed(0, intervalMs))];
      log := log + [Started(row.id, row.up)];
    }

    method TargetDeinit(p: Ptr)
      requires p in targets && !targets[p].timer.Closing?
      modifies `targets
      ensures targets == old(targets)[p := old(targets)[p].(timer := Closing)]
    {
      targets := targets[p := targets[p].(timer := Closing)];
    }

    /** The close callback of a target's timer. */
    method FreeTarget(p: Ptr)
      requires Valid() && Legal(Abs(), CloseTarget(p))
      modifies `targets
      ensures Valid() && Abs() == Step(old(Abs()), CloseTarget(p))
    {
      hide EventLoop.Valid, PollMirror.Valid, Ownership.Valid, Step, Legal, Misuses;
      StepKeepsValid(Abs(), CloseTarget(p));
      CloseSteps(Abs(), CloseTarget(p));
      targets := targets - {p};
    }

    /** The timer callback of a target. */
    method TargetCheck(p: Ptr, getOk: bool, mallocOk: bool, attach: Attach, cbs: seq<Callback>)
      requires Valid() && Legal(Abs(), Tick(p, getOk, mallocOk, attach, cbs))
      requires !Misuses(Abs(), Tick(p, getOk, mallocOk, attach, cbs))
      modifies this, state
      ensures Valid() && Abs() == EventLoop.TargetCheck(old(Abs()), p, getOk, mallocOk, attach, cbs)
    {
      hide EventLoop.Valid, PollMirror.Valid, Ownership.Valid, Step, Legal;
      TickIsSafe(Abs(), p, getOk, mallocOk, attach, cbs);
      targets := targets[p := targets[p].(timer := Fired(targets[p].timer))];
      var id := targets[p].id;
      if !getOk || id !in table.rows {
        return;
      }
      if !mallocOk {
        return;
      }
      Transfer(p, id, table.rows[id].url, attach, cbs);
    }

    /** Allocate a record and an easy handle and give the handle to curl. */
    method Transfer(p: Ptr, ghost id: int, url: string, attach: Attach, cbs: seq<Callback>)
      requires state.Usable()
      modifies `next, `transfers, `easies, `attached, `log, `lost, state
      ensures Heap() == BeginTransfer(old(Heap()), p, attach)
      ensures state.Abs() == if attach.Attached? then DeliverAll(old(state.Abs()), cbs) else old(state.Abs())
      ensures log == if attach.Attached? then old(log) + [Began(id, url)] else old(log)
    {
      hide PollMirror.Valid;
      var transfer, easy := next, next + 1;
      next := next + 2;
      transfers := transfers[transfer := p];
      if !attach.NoEasy? {
        easies := easies[easy := transfer];
      }
      if attach.Attached? {
        attached := attached + {easy};
        log := log + [Began(id, url)];
        state.CallCurl(cbs);
      } else {
        lost := lost + {transfer};
      }
    }

    /** Remember a changed status, store it, and free the record. */
    method TransferComplete(transfer: Ptr, err: int, status: int, reply: Reply)
      requires transfer in transfers && transfers[transfer] in targets
      modifies `targets, `transfers, `table, `log
      ensures
        var p := old(transfers)[transfer];
        var cell := old(targets)[p];
        var up := Classify(err, status);
        && targets == old(targets)[p := cell.(up := up)]
        && transfers == old(transfers) - {transfer}
        && table == (if up != cell.up && Effective(reply) then SetStatus(old(table), cell.id, up) else old(table))
        && log == old(log) + [Completed(cell.id, err, status, if up != cell.up then Some(reply) else None)]
    {
      var target := transfers[transfer];
      var up: bool;
      if err != 0 {
        up := false;
      } else {
        up := status >= 200 && status <= 299;
      }
      if up != targets[target].up {
        targets := targets[target := targets[target].(up := up)];
        if Effective(reply) {
          table := SetStatus(table, targets[target].id, up);
        }
        log := log + [Completed(targets[target].id, err, status, Some(reply))];
      } else {
        log := log + [Completed(targets[target].id, err, status, None)];
      }
      transfers := transfers - {transfer};
    }

    // ---- src/client/state.c ----

    method CheckCompleted(answers: seq<Answer>)
      requires Working(Abs())
      modifies this, state
      ensures Working(Abs()) && Abs() == Drain(old(Abs()), answers)
    {
      var rest := answers;
      while messages != []
        invariant Working(Abs())
        invariant Drain(Abs(), rest) == Drain(old(Abs()), answers)
        decreases |messages|
      {
        var answer := if rest == [] then QUIET else rest[0];
        CompleteFirstKeepsWorking(Abs(), answer);
        if messages[0].Done? {
          FinishTransferKeepsValid(Heap(), true);
        }
        hide Working, PollMirror.Valid, Ownership.Valid, CompleteFirst;
        CompleteMessage(answer);
        rest := if rest == [] then [] else rest[1..];
      }
    }

    /** Read one message; if it reports a completion, handle it and free the easy handle. */
    method CompleteMessage(answer: Answer)
      requires state.Usable() && messages != []
      requires messages[0].Done? ==> Readable(Heap(), messages[0].easy)
      modifies this, state
      ensures Abs() == CompleteFirst(old(Abs()), answer)
    {
      hide PollMirror.Valid;
      var message := messages[0];
      if message.OtherMessage? {
        messages := messages[1..];
        return;
      }
      messages := messages[1..];
      FinishMessage(message.easy, message.err, message.status, answer);
    }

    method FinishMessage(easy: Ptr, err: int, status: int, answer: Answer)
      requires state.Usable() && Readable(Heap(), easy)
      modifies `targets, `transfers, `table, `log, `attached, `easies, state
      ensures Heap() == FinishTransfer(old(Heap()), easy, Classify(err, status))
      ensures state.Abs() == DeliverAll(old(state.Abs()), answer.cbs)
      ensures
        var cell := old(targets)[TargetOf(old(Heap()), easy)];
        var up := Classify(err, status);
        && table == (if up != cell.up && Effective(answer.reply) then SetStatus(old(table), cell.id, up)
                     else old(table))
        && log == old(log) + [Completed(cell.id, err, status, if up != cell.up then Some(answer.reply) else None)]
    {
      hide PollMirror.Valid;
      TransferComplete(easies[easy], err, status, answer.reply);
      RemoveAndFree(easy, answer.cbs);
    }

    /** `curl_multi_remove_handle` and `curl_easy_cleanup`. */
    method RemoveAndFree(easy: Ptr, cbs: seq<Callback>)
      requires state.Usable()
      modifies `attached, `easies, state
      ensures attached == old(attached) - {easy} && easies == old(easies) - {easy}
      ensures state.Usable() && state.Abs() == DeliverAll(old(state.Abs()), cbs)
    {
      attached := attached - {easy};
      state.CallCurl(cbs);
      easies := easies - {easy};
    }

    /** `curl_multi_socket_action`, which makes callbacks and queues messages. */
    method SocketAction(cbs: seq<Callback>, dones: seq<Message>)
      requires state.Usable()
      modifies state, `messages
      ensures state.Usable() && state.Abs() == DeliverAll(old(state.Abs()), cbs) && messages == old(messages) + dones
    {
      state.CallCurl(cbs);
      messages := messages + dones;
    }

    /** curl is told of the very socket and of the events the poll reported. */
    method OnPoll(b: Ptr, status: int, readable: bool, writable: bool,
                  cbs: seq<Callback>, dones: seq<Message>, answers: seq<Answer>) returns (s: Fd, told: Ready)
      requires Valid() && Legal(Abs(), EventLoop.Ready(b, status != 0, cbs, dones, answers))
      modifies this, state
      ensures Valid() && Abs() == Step(old(Abs()), EventLoop.Ready(b, status != 0, cbs, dones, answers))
      ensures s in old(state.interest) && old(state.batonOf)[s] == b
      ensures told == if status != 0 then ReadyError else ReadyFor(readable, writable)
    {
      ghost var ev := EventLoop.Ready(b, status != 0, cbs, dones, answers);
      ghost var s0 := Abs();
      StepKeepsValid(s0, ev);
      OpenBaton(s0, b);
      assert Placed(s0.net, b) && Mirrored(s0.net, s0.net.batons[b].s);
      if status != 0 {
        PollErrorKeepsValid(s0.net, b);
        state.PollFails(b);
        told := ReadyError;
      } else {
        told := ReadyFor(readable, writable);
      }
      s := state.batons[b].s;
      ghost var s1 := Abs();
      SocketAction(cbs, dones);
      NewMessagesKeepValid(s0.heap, dones);
      CheckCompleted(answers);
    }

    method OnTimeout(cbs: seq<Callback>, dones: seq<Message>, answers: seq<Answer>)
      requires Valid() && Legal(Abs(), Expire(cbs, dones, answers))
      modifies this, state
      ensures Valid() && Abs() == Step(old(Abs()), Expire(cbs, dones, answers))
    {
      ghost var s0 := Abs();
      StepKeepsValid(s0, Expire(cbs, dones, answers));
      state.timer := Idle;
      TimerIrrelevant(s0.net, Idle);
      SocketAction(cbs, dones);
      NewMessagesKeepValid(s0.heap, dones);
      CheckCompleted(answers);
    }

    /** Detach and free every handle, clean up the multi handle, close the timer. */
    method StateClear(handles: Option<seq<Ptr>>, removals: seq<seq<Callback>>, cleanup: seq<Callback>)
      requires state.Usable()
      requires handles.Some? ==> NoDuplicates(handles.value) && |removals| == |handles.value|
      requires handles.Some? ==> forall i :: 0 <= i < |handles.value| ==> handles.value[i] in easies
      modifies state, `easies, `attached, `messages, `lost, `phase
      ensures Heap() == CleanupMulti(if handles.Some? then FreeEasies(old(Heap()), handles.value) else old(Heap()))
      ensures state.Abs() == CloseCurlTimer(ClearNet(old(state.Abs()), handles, removals, cleanup))
      ensures phase == Gone
    {
      if handles.Some? {
        var list := handles.value;
        var i := 0;
        while i < |list|
          invariant 0 <= i <= |list|
          invariant state.Usable()
          invariant forall j :: i <= j < |list| ==> list[j] in easies
          invariant DeliverEach(state.Abs(), removals[i..]) == DeliverEach(old(state.Abs()), removals)
          invariant FreeEasies(Heap(), list[i..]) == FreeEasies(old(Heap()), list)
        {
          RemoveAndFree(list[i], removals[i]);
          assert removals[i..][1..] == removals[i + 1..] && list[i..][1..] == list[i + 1..];
          i := i + 1;
        }
        assert removals[i..] == [] && list[i..] == [];
      }
      state.CallCurl(cleanup);
      attached, messages, phase := {}, [], Gone;
      lost := transfers.Keys;
      state.timer := Closing;
    }

    // ---- src/client/watcher.c ----

    /** `reachard_client_state_prepare`. */
    method StatePrepare()
      requires Valid() && phase.Before?
      modifies state`timer, `phase
      ensures Valid() && Abs() == PrepareState(old(Abs()))
    {
      PrepareKeepsValid(Abs());
      hide EventLoop.Valid, PollMirror.Valid;
      state.timer := Idle;
      phase := Live;
    }

    /** What the client thread does from the query on, until it runs the loop. */
    method QueryAndLoad(getOk: bool, ids: seq<int>, inits: nat) returns (rc: int)
      requires Valid() && Legal(Abs(), Load(getOk, ids, inits))
      modifies this
      ensures Valid() && Abs() == EventLoop.LoadTargets(old(Abs()), getOk, ids, inits)
      ensures rc == 0 <==> getOk && inits == |ids|
    {
      LoadKeepsValid(Abs(), getOk, ids, inits);
      assert KeysValid(table) && Snapshot(table, ids);
      hide EventLoop.Valid, Legal, InitTargets, KeysValid;
      loaded, clientRuns := true, true;
      if !getOk {
        return 1;
      }
      rc := LoadTargets(ids, inits);
    }

    /** Both, with no other thread in between. */
    method WatcherStart(getOk: bool, ids: seq<int>, inits: nat) returns (rc: int)
      requires Valid() && phase.Before? && Snapshot(table, ids) && inits <= |ids|
      modifies this, state
      ensures Valid() && Abs() == EventLoop.LoadTargets(PrepareState(old(Abs())), getOk, ids, inits)
      ensures rc == 0 <==> getOk && inits == |ids|
    {
      StatePrepare();
      StartedLoads(Abs(), getOk, ids, inits);
      hide EventLoop.Valid, Legal;
      rc := QueryAndLoad(getOk, ids, inits);
    }

    /** A target for the row `id`, put into the hash. */
    method AddRow(id: int)
      requires id in table.rows && table.rows[id].id == id
      modifies `next, `targets, `index, `log
      ensures Abs() == EventLoop.WatcherAdd(old(Abs()), id)
    {
      var target := TargetInit(table.rows[id]);
      index := index + [target];
    }

    method LoadTargets(ids: seq<int>, inits: nat) returns (rc: int)
      requires inits <= |ids| && KeysValid(table) && forall i :: 0 <= i < |ids| ==> ids[i] in table.rows
      modifies `next, `targets, `index, `log
      ensures Abs() == InitTargets(old(Abs()), ids[..inits])
      ensures rc == 0 <==> inits == |ids|
    {
      hide KeysValid, InitTargets;
      RowsByKey(table, ids);
      ghost var s0 := Abs();
      for i := 0 to |ids|
        invariant i <= inits
        invariant InitTargets(Abs(), ids[i..inits]) == InitTargets(s0, ids[..inits])
      {
        if i == inits {
          InitNone(Abs(), ids[i..inits]);
          return 1;
        }
        InitNext(Abs(), ids, i, inits);
        AddRow(ids[i]);
      }
      InitNone(Abs(), ids[|ids|..inits]);
      rc := 0;
    }

    method WatcherAdd(id: int, getOk: bool, mallocOk: bool) returns (rc: int)
      requires Valid() && loaded
      modifies this
      ensures Valid()
      ensures rc == 0 <==> getOk && id in old(table).rows && mallocOk
      ensures Abs() == if rc == 0 then EventLoop.WatcherAdd(old(Abs()), id) else old(Abs())
    {
      hide EventLoop.Valid, PollMirror.Valid, Ownership.Valid, KeysValid, PhaseValid;
      if !getOk || id !in table.rows {
        return 1;
      }
      if !mallocOk {
        return 1;
      }
      AddIsSafe(Abs(), id);
      AddRow(id);
      rc := 0;
    }

    /** Delete the target that a lookup of `id` finds, if it finds one. */
    method WatcherDelete(id: int, found: Option<nat>)
      requires Valid() && phase.Live?
      requires found.Some? ==> Finds(Abs(), id, found.value)
      modifies this
      ensures Abs() == if found.Some? then EventLoop.WatcherDelete(old(Abs()), found.value) else old(Abs())
      ensures found.Some? ==> (Valid() <==> !InFlight(old(Heap()), old(index)[found.value]))
    {
      if found.Some? {
        var target := index[found.value];
        WatcherDeleteExact(Abs(), id, found.value);
        assert Indexed(Heap(), target);
        index := RemoveAt(index, found.value);
        TargetDeinit(target);
      }
    }

    method WatcherStop(handles: Option<seq<Ptr>>, removals: seq<seq<Callback>>, cleanup: seq<Callback>)
      requires Valid() && phase.Live? && ListsAttached(Abs(), handles, removals)
      modifies this, state
      ensures Abs() == EventLoop.WatcherStop(old(Abs()), handles, removals, cleanup)
    {
      hide EventLoop.Valid, PollMirror.Valid, Ownership.Valid, IndexValid, DropAllTargets, FreeEasies;
      StopIsSafe(Abs(), handles, removals);
      DropAllTargetsMeaning(Heap());
      DropTargets();
      StateClear(handles, removals, cleanup);
    }

    method DropTargets()
      requires IndexValid(Heap())
      modifies `targets, `index
      ensures Heap() == DropAllTargets(old(Heap()))
    {
      while index != []
        invariant IndexValid(Heap())
        invariant DropAllTargets(Heap()) == DropAllTargets(old(Heap()))
        decreases |index|
      {
        DropTargetKeepsIndex(Heap(), 0);
        hide IndexValid;
        var target := index[0];
        index := RemoveAt(index, 0);
        TargetDeinit(target);
      }
    }

    // ---- src/client/client.c ----

    /** The async callback. */
    method Stop(handles: Option<seq<Ptr>>, removals: seq<seq<Callback>>, cleanup: seq<Callback>)
      requires Valid() && phase.Live? && Legal(Abs(), StopCallback(handles, removals, cleanup))
      modifies this, state
      ensures Valid() && Abs() == Step(old(Abs()), StopCallback(handles, removals, cleanup))
    {
      StepKeepsValid(Abs(), StopCallback(handles, removals, cleanup));
      WatcherStop(handles, removals, cleanup);
      async := AsyncClosing;
    }

    /** The close callback of a poll. */
    method FreeSocket(b: Ptr)
      requires Valid() && Legal(Abs(), CloseBaton(b))
      modifies state
      ensures Valid() && Abs() == Step(old(Abs()), CloseBaton(b))
    {
      hide EventLoop.Valid, PollMirror.Valid, Ownership.Valid, Step, Legal, Misuses;
      StepKeepsValid(Abs(), CloseBaton(b));
      CloseSteps(Abs(), CloseBaton(b));
      state.SocketDeinit(b);
    }

    /** libuv forgets the curl timer or the async handle; neither has a close callback. */
    method ForgetHandle(ev: Event)
      requires Valid() && (ev == CloseTimer || ev == CloseAsync) && Legal(Abs(), ev)
      modifies state`timer, `async
      ensures Valid() && Abs() == Step(old(Abs()), ev)
    {
      hide EventLoop.Valid, PollMirror.Valid, Ownership.Valid, Step, Legal, Misuses;
      StepKeepsValid(Abs(), ev);
      CloseSteps(Abs(), ev);
      if ev.CloseTimer? {
        state.timer := Absent;
      } else {
        async := AsyncClosed;
      }
    }

    /** One turn of the loop after the stop: some closing handle's close callback. */
    method RunCloseCallback()
      requires Stopped(Abs()) && Running(Abs()) && !Emptied(Abs())
      modifies this, state
      ensures Stopped(Abs()) && Running(Abs()) && OpenHandles(Abs()) < old(OpenHandles(Abs()))
      ensures transfers == old(transfers) && loaded == old(loaded)
    {
      hide EventLoop.Valid, PollMirror.Valid, Ownership.Valid, OpenHandles, PhaseValid, Step;
      ghost var s0 := Abs();
      StoppedIsClosing(s0);
      StoppedHandles(s0);
      if targets != map[] {
        ghost var some := AnyOf(targets.Keys);
        var p :| p in targets;
        StoppedStep(s0, CloseTarget(p));
        FreeTarget(p);
      } else if state.batons != map[] {
        ghost var some := AnyOf(state.batons.Keys);
        var b :| b in state.batons;
        StoppedStep(s0, CloseBaton(b));
        FreeSocket(b);
      } else {
        var ev := if state.timer.Absent? then CloseAsync else CloseTimer;
        StoppedStep(s0, ev);
        ForgetHandle(ev);
      }
    }

    /** `uv_run` from the stop request on, in a loop that has nothing else to do. */
    method UvRun(handles: Option<seq<Ptr>>, removals: seq<seq<Callback>>, cleanup: seq<Callback>)
      requires Valid() && phase.Live? && Legal(Abs(), StopCallback(handles, removals, cleanup))
      modifies this, state
      ensures Valid() && Emptied(Abs()) && transfers == old(transfers) && loaded == old(loaded)
    {
      StopCallbackStops(Abs(), StopCallback(handles, removals, cleanup));
      Stop(handles, removals, cleanup);
      while !IsEmptied()
        invariant Stopped(Abs()) && Running(Abs()) && transfers == old(transfers) && loaded == old(loaded)
        decreases OpenHandles(Abs())
      {
        RunCloseCallback();
      }
    }

    predicate IsEmptied()
      requires Stopped(Abs())
      reads this, state
      ensures IsEmptied() <==> Emptied(Abs())
    {
      targets == map[] && state.batons == map[] && state.timer.Absent? && async.AsyncClosed?
    }

    predicate LoopAlive()
      reads this, state
      ensures LoopAlive() <==> Alive(Abs())
    {
      || (exists p | p in targets :: targets[p].timer.Armed? || targets[p].timer.Closing?)
      || (exists b | b in state.batons :: state.batons[b].mask.Some? || state.batons[b].closing)
      || state.timer.Armed? || state.timer.Closing?
      || async.Queued? || async.AsyncClosing?
    }

    /**
     Called from the main thread.  A live loop is left with the request queued and its thread to
     serve it; a loop that was left, or that has no target yet, is run here until it is empty.
     Then nothing is left, unless the client thread has still to load its targets.  If it has not
     prepared its state either, `defined` is false: the callback that is now to run uses a multi
     handle that was never created.
     */
    method ClientStop(handles: Option<seq<Ptr>>, removals: seq<seq<Callback>>, cleanup: seq<Callback>)
      returns (defined: bool)
      requires Valid() && LeftQuiet(Abs()) && sawAlive.None?
      requires phase.Live? ==> ListsAttached(Abs(), handles, removals)
      requires phase.Live? ==> ClearNet(state.Abs(), handles, removals, cleanup).interest == map[]
      modifies this, state
      ensures defined <==> !old(phase).Before?
      ensures
        var stop := StopCallback(handles, removals, cleanup);
        !defined ==> Legal(Abs(), stop) && Misuses(Abs(), stop)
      ensures Valid() && loaded == old(loaded)
      ensures old(Alive(Abs())) ==>
                Abs() == old(Abs()).(sawAlive := Some(true), async := Queued) && clientRuns && CanDrain(Abs())
      ensures defined && !old(Alive(Abs())) ==> Emptied(Abs()) && (Drained(Abs()) <==> old(loaded))
    {
      hide EventLoop.Valid, CanDrain;
      StopRequested(Abs());
      ValidUnfaulted(Abs().(sawAlive := Some(Alive(Abs())), async := Queued, mainRuns := !Alive(Abs())));
      var loopAlive := LoopAlive();
      sawAlive := Some(loopAlive);
      async := Queued;
      mainRuns := !loopAlive;
      if !loopAlive {
        if phase.Before? {
          return false;
        }
        UvRun(handles, removals, cleanup);
      }
      defined := true;
    }
  }
}
