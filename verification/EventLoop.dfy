/**
 The whole client as a state machine: every callback libuv, curl or the other thread can run is
 one event, and so is every statement the HTTP server sends to the database
 (src/client/client.c, src/client/watcher.c, src/client/state.c, src/client/targets.c).

 An event carries what the libraries chose during it: results of allocations and queries, the
 callbacks curl made, the messages it queued.
 */
module EventLoop {
  import opened Ownership
  import opened PatchBody
  import opened PollMirror
  import opened Sequences
  import opened Table
  import opened Wrappers

  /** The multi handle: not created, in use, cleaned up. */
  datatype Phase = Before | Live | Gone

  datatype Async = NotSent | Queued | AsyncClosing | AsyncClosed

  datatype ServerOp =
    | Post(name: string, url: string, interval: int, skip: nat)
    | Patch(id: int, body: Body)
    | Remove(id: int)

  /**
   What happened, in order: a target entered the hash with the row's status; a transfer began
   for an address;
   a transfer completed as curl and the server reported, with what became of an attempt to store
   the new status; a server statement that took effect or did not.
   */
  datatype Entry =
    | Started(id: int, up: bool)
    | Began(id: int, url: string)
    | Completed(id: int, err: int, status: int, update: Option<Reply>)
    | Served(op: ServerOp, done: bool)

  /**
   `loaded` is whether the client thread has loaded its targets and gone on to run the loop;
   `sawAlive` is the flag `reachard_client_stop` read from the loop.
   */
  datatype State = State(net: Net, heap: Heap, table: Table, log: seq<Entry>, phase: Phase, loaded: bool, async: Async,
                         clientRuns: bool, mainRuns: bool, sawAlive: Option<bool>)

  /** One completed transfer: what becomes of the update, and what curl did while detaching. */
  datatype Answer = Answer(reply: Reply, cbs: seq<Callback>)

  datatype Event =
    | Prepare
    | Load(getOk: bool, ids: seq<int>, inits: nat)
    | Tick(p: Ptr, getOk: bool, mallocOk: bool, attach: Attach, cbs: seq<Callback>)
    | Ready(b: Ptr, failed: bool, cbs: seq<Callback>, dones: seq<Message>, answers: seq<Answer>)
    | Expire(cbs: seq<Callback>, dones: seq<Message>, answers: seq<Answer>)
    | CloseTarget(p: Ptr)
    | CloseBaton(b: Ptr)
    | CloseTimer
    | CloseAsync
    | StopCallback(handles: Option<seq<Ptr>>, removals: seq<seq<Callback>>, cleanup: seq<Callback>)
    | Serve(op: ServerOp, reply: Reply)
    | ReadAlive
    | SendStop
    | LoopExit

  function Init(table: Table): State {
    State(EMPTY_NET, EMPTY_HEAP, table, [], Before, false, NotSent, false, false, None)
  }

  // ---- The database ----

  /** `None` is a statement that PostgreSQL rejects: an update without fields, a taken key. */
  function Apply(t: Table, op: ServerOp): Option<Table>
    requires op.Patch? ==> Clamped(op.body)
  {
    match op
    case Post(name, url, interval, skip) => Some(Insert(t, name, url, interval, skip))
    case Remove(id) => Some(Delete(t, id))
    case Patch(id, body) =>
      PatchKvsMeaning(body, Target(0, "", "", 0, false));
      if PatchKvs(body) == [] then None else Update(t, id, PatchKvs(body))
  }

  /** The table after a statement that was sent. */
  function Executed(t: Table, op: ServerOp, reply: Reply): Table
    requires op.Patch? ==> Clamped(op.body)
  {
    if Effective(reply) && Apply(t, op).Some? then Apply(t, op).value else t
  }

  function SetStatus(t: Table, id: int, up: bool): Table {
    if id in t.rows then t.(rows := t.rows[id := t.rows[id].(up := up)]) else t
  }

  /** Storing a status is an update of one field of one row. */
  lemma {:induction false} SetStatusIsUpdate(t: Table, id: int, up: bool)
    requires KeysValid(t)
    ensures Update(t, id, [Kv(UP, Bool(up))]) == Some(SetStatus(t, id, up))
  {
    if id in t.rows {
      var r := t.rows[id].(up := up);
      assert AssignAll(t.rows[id], [Kv(UP, Bool(up))]) == AssignAll(r, []);
      assert (t.rows - {id})[id := r] == t.rows[id := r];
    }
  }

  lemma {:induction false} ApplyMeaning(t: Table, op: ServerOp)
    requires KeysValid(t) && (op.Patch? ==> Clamped(op.body)) && Apply(t, op).Some?
    ensures
      var t' := Apply(t, op).value;
      && KeysValid(t') && t.next <= t'.next
      && (forall id :: id in t'.rows && id < t.next ==> id in t.rows && t'.rows[id].up == t.rows[id].up)
      && (forall id :: id in t'.rows && t.next <= id ==> t'.rows[id].up)
  {
    if op.Patch? && op.id in t.rows {
      PatchKvsMeaning(op.body, t.rows[op.id]);
    }
  }

  /** `ids` is what a query ordered by id returns. */
  ghost predicate Snapshot(t: Table, ids: seq<int>) {
    && StrictlyIncreasing(ids)
    && (forall i :: 0 <= i < |ids| ==> ids[i] in t.rows)
    && (forall id :: id in t.rows ==> id in ids)
  }

  /** Every other row is there if it was, with the same record. */
  ghost predicate OthersSame(t: Table, t': Table, id: int) {
    && (forall other :: other != id ==> (other in t'.rows <==> other in t.rows))
    && (forall other :: other != id && other in t.rows ==> t'.rows[other] == t.rows[other])
  }

  /**
   What a statement of the server does to the table, whether or not its reply arrives: it deletes
   one row, adds one, or changes those fields of one row that the body gives; a rejected one
   does nothing.
   */
  lemma {:induction false} ExecutedExact(t: Table, op: ServerOp, reply: Reply)
    requires KeysValid(t) && (op.Patch? ==> Clamped(op.body))
    ensures
      var t' := Executed(t, op, reply);
      if reply == Rejected then t' == t
      else
        match op
        case Remove(id) => OthersSame(t, t', id) && id !in t'.rows && t'.next == t.next
        case Post(name, url, interval, skip) =>
          var id := t.next + skip;
          && OthersSame(t, t', id) && id !in t.rows && t'.next == id + 1
          && id in t'.rows && t'.rows[id] == Target(id, name, url, interval, true)
        case Patch(id, b) =>
          && OthersSame(t, t', id) && t'.next == t.next && (id in t'.rows <==> id in t.rows)
          && (id in t.rows ==>
                t'.rows[id] == Target(id,
                                      if b.name.Text? then b.name.s else t.rows[id].name,
                                      if b.url.Text? then b.url.s else t.rows[id].url,
                                      if b.interval.Number? then b.interval.n else t.rows[id].interval,
                                      t.rows[id].up))
  {
    match op
    case Remove(id) => DeleteExact(t, id);
    case Post(name, url, interval, skip) => InsertExact(t, name, url, interval, skip);
    case Patch(id, b) =>
      PatchKvsMeaning(b, if id in t.rows then t.rows[id] else Target(0, "", "", 0, false));
      UpdateFrame(t, id, PatchKvs(b));
      hide PatchKvs, Patched, AssignAll;
  }

  // ---- Steps ----

  /** Who runs the loop, and how far a start or stop has got. */
  ghost predicate SameControl(s: State, r: State) {
    r == s.(net := r.net, heap := r.heap, table := r.table, log := r.log)
  }

  ghost function InitTargets(s: State, ids: seq<int>): (r: State)
    requires forall i :: 0 <= i < |ids| ==> ids[i] in s.table.rows
    ensures SameControl(s, r) && r.table == s.table && r.net == s.net
    decreases |ids|
  {
    if ids == [] then s
    else
      var row := s.table.rows[ids[0]];
      InitTargets(s.(heap := AddTarget(s.heap, ids[0], row.up, row.interval), log := s.log + [Started(ids[0], row.up)]),
                  ids[1..])
  }

  /** `reachard_client_state_prepare`. */
  ghost function PrepareState(s: State): State {
    s.(net := s.net.(timer := Idle), phase := Live)
  }

  /** Query and load the targets, then run the loop; `inits` targets could be allocated. */
  ghost function LoadTargets(s: State, getOk: bool, ids: seq<int>, inits: nat): (r: State)
    requires inits <= |ids| && forall i :: 0 <= i < |ids| ==> ids[i] in s.table.rows
  {
    var s := s.(loaded := true, clientRuns := true);
    if getOk then InitTargets(s, ids[..inits]) else s
  }

  /** `check_completed` on one message, with `transfer_complete` and the removal of the handle. */
  ghost function CompleteFirst(s: State, a: Answer): (r: State)
    requires s.heap.messages != []
    ensures SameControl(s, r) && r.heap.messages == s.heap.messages[1..]
  {
    var rest := s.heap.messages[1..];
    match s.heap.messages[0]
    case OtherMessage => s.(heap := s.heap.(messages := rest))
    case Done(e, err, status) =>
      if !Readable(s.heap, e) then s.(heap := s.heap.(messages := rest, fault := true))
      else
        var cell := s.heap.targets[TargetOf(s.heap, e)];
        var up := Classify(err, status);
        s.(heap := FinishTransfer(s.heap, e, up).(messages := rest),
        table := if up != cell.up && Effective(a.reply) then SetStatus(s.table, cell.id, up) else s.table,
        log := s.log + [Completed(cell.id, err, status, if up != cell.up then Some(a.reply) else None)],
        net := DeliverAll(s.net, a.cbs))
  }

  const QUIET := Answer(Acknowledged, [])

  ghost function Drain(s: State, answers: seq<Answer>): (r: State)
    ensures SameControl(s, r)
    decreases |s.heap.messages|
  {
    if s.heap.messages == [] then s
    else if answers == [] then Drain(CompleteFirst(s, QUIET), [])
    else Drain(CompleteFirst(s, answers[0]), answers[1..])
  }

  /** `curl_multi_socket_action` followed by `check_completed`. */
  ghost function Action(s: State, cbs: seq<Callback>, dones: seq<Message>, answers: seq<Answer>): (r: State)
    ensures SameControl(s, r)
  {
    Drain(s.(net := DeliverAll(s.net, cbs), heap := s.heap.(messages := s.heap.messages + dones)), answers)
  }

  /** Use of a multi handle that has not been created or has been cleaned up. */
  ghost function WithoutMulti(s: State): State {
    s.(net := s.net.(fault := true))
  }

  ghost function TargetCheck(s: State, p: Ptr, getOk: bool, mallocOk: bool, attach: Attach, cbs: seq<Callback>): State {
    var s := s.(heap := FireTimer(s.heap, p));
    if p !in s.heap.targets then s
    else
      var id := s.heap.targets[p].id;
      if !getOk || id !in s.table.rows || !mallocOk then s
      else if !s.phase.Live? then WithoutMulti(s)
      else if attach.Attached? then
        s.(heap := BeginTransfer(s.heap, p, attach), log := s.log + [Began(id, s.table.rows[id].url)],
        net := DeliverAll(s.net, cbs))
      else s.(heap := BeginTransfer(s.heap, p, attach))
  }

  ghost function DeliverEach(n: Net, removals: seq<seq<Callback>>): Net
    decreases |removals|
  {
    if removals == [] then n else DeliverEach(DeliverAll(n, removals[0]), removals[1..])
  }

  ghost function CloseCurlTimer(n: Net): Net {
    if TimerOpen(n) then n.(timer := PollMirror.Closing) else n.(fault := true)
  }

  /** curl's side of `reachard_client_state_clear`. */
  ghost function ClearNet(n: Net, handles: Option<seq<Ptr>>, removals: seq<seq<Callback>>,
                          cleanup: seq<Callback>): Net {
    DeliverAll(if handles.Some? then DeliverEach(n, removals) else n, cleanup)
  }

  ghost function WatcherStop(s: State, handles: Option<seq<Ptr>>, removals: seq<seq<Callback>>,
                             cleanup: seq<Callback>): State {
    var h := DropAllTargets(s.heap);
    var h := if handles.Some? then FreeEasies(h, handles.value) else h;
    s.(heap := CleanupMulti(h), net := CloseCurlTimer(ClearNet(s.net, handles, removals, cleanup)), phase := Gone)
  }

  ghost function Step(s: State, ev: Event): State
    requires Legal(s, ev)
  {
    match ev
    case Prepare => PrepareState(s)
    case Load(getOk, ids, inits) => LoadTargets(s, getOk, ids, inits)
    case Tick(p, getOk, mallocOk, attach, cbs) => TargetCheck(s, p, getOk, mallocOk, attach, cbs)
    case Ready(b, failed, cbs, dones, answers) =>
      if s.phase.Live? then Action(if failed then s.(net := PollError(s.net, b)) else s, cbs, dones, answers)
      else WithoutMulti(s)
    case Expire(cbs, dones, answers) =>
      if s.phase.Live? then Action(s.(net := s.net.(timer := Idle)), cbs, dones, answers) else WithoutMulti(s)
    case CloseTarget(p) => s.(heap := FreeTarget(s.heap, p))
    case CloseBaton(b) => s.(net := SocketDeinit(s.net, b))
    case CloseTimer => s.(net := s.net.(timer := Absent))
    case CloseAsync => s.(async := AsyncClosed)
    case StopCallback(handles, removals, cleanup) =>
      (if s.phase.Live? then WatcherStop(s, handles, removals, cleanup) else WithoutMulti(s)).(async := AsyncClosing)
    case Serve(op, reply) =>
      var done := Effective(reply) && Apply(s.table, op).Some?;
      s.(table := Executed(s.table, op, reply), log := s.log + [Served(op, done)])
    case ReadAlive => s.(sawAlive := Some(Alive(s)))
    case SendStop => s.(async := Queued, mainRuns := !s.sawAlive.value)
    case LoopExit => s.(clientRuns := false, mainRuns := false)
  }

  // ---- What the environment may do ----

  ghost predicate Running(s: State) {
    s.clientRuns || s.mainRuns
  }

  /** `uv_loop_alive`: an active or closing handle. */
  ghost predicate Alive(s: State) {
    || (exists p :: p in s.heap.targets && (s.heap.targets[p].timer.Armed? || s.heap.targets[p].timer.Closing?))
    || (exists b :: b in s.net.batons && (s.net.batons[b].mask.Some? || s.net.batons[b].closing))
    || s.net.timer.Armed? || s.net.timer.Closing?
    || s.async.Queued? || s.async.AsyncClosing?
  }

  /** A listing of the attached handles, and what curl called back while each was removed. */
  ghost predicate ListsAttached(s: State, handles: Option<seq<Ptr>>, removals: seq<seq<Callback>>) {
    handles.Some? ==>
      && NoDuplicates(handles.value)
      && (forall e :: e in handles.value <==> e in s.heap.attached)
      && |removals| == |handles.value|
  }

  /** Some step has used what it must not; what the program does then is not defined. */
  ghost predicate Faulted(s: State) {
    s.net.fault || s.heap.fault
  }

  /**
   The rules of the environment.  A timer, poll or close callback runs only for a handle in the
   right state and only while some thread runs the loop; curl reports each attached handle at
   most once; cleaning up the multi handle withdraws curl's interest in every socket; a loop is
   left only when nothing in it is active or closing.  The client may be stopped at any time, but
   only once the server has been stopped (src/main.c:96-97).
   */
  ghost predicate Legal(s: State, ev: Event) {
    !Faulted(s) &&
    match ev
    case Prepare => s.phase.Before?
    case Load(_, ids, inits) => !s.phase.Before? && !s.loaded && Snapshot(s.table, ids) && inits <= |ids|
    case Tick(p, _, _, _, _) => Running(s) && p in s.heap.targets && s.heap.targets[p].timer.Armed?
    case Ready(b, _, _, dones, _) =>
      && Running(s)
      && Open(s.net, b) && s.net.batons[b].mask.Some?
      && MessagesValid(s.heap.messages + dones, s.heap.attached)
    case Expire(_, dones, _) =>
      && Running(s) && s.net.timer.Armed?
      && MessagesValid(s.heap.messages + dones, s.heap.attached)
    case CloseTarget(p) => Running(s) && p in s.heap.targets && s.heap.targets[p].timer.Closing?
    case CloseBaton(b) => Running(s) && b in s.net.batons && s.net.batons[b].closing
    case CloseTimer => Running(s) && s.net.timer.Closing?
    case CloseAsync => Running(s) && s.async.AsyncClosing?
    case StopCallback(handles, removals, cleanup) =>
      && Running(s) && s.async.Queued?
      && (s.phase.Live? ==>
            && ListsAttached(s, handles, removals)
            && ClearNet(s.net, handles, removals, cleanup).interest == map[])
    case Serve(op, _) => s.sawAlive.None? && (op.Patch? ==> Clamped(op.body))
    case ReadAlive => s.sawAlive.None?
    case SendStop => s.sawAlive.Some? && s.async.NotSent?
    case LoopExit => Running(s) && !Alive(s)
  }

  ghost predicate LegalRun(s: State, evs: seq<Event>)
    decreases |evs|
  {
    evs == [] || (Legal(s, evs[0]) && LegalRun(Step(s, evs[0]), evs[1..]))
  }

  ghost function Run(s: State, evs: seq<Event>): State
    requires LegalRun(s, evs)
    decreases |evs|
  {
    if evs == [] then s else Run(Step(s, evs[0]), evs[1..])
  }

  // ---- The invariant at callback boundaries ----

  /** Who runs the loop, and how far start and stop have got. */
  ghost predicate ControlValid(s: State) {
    && (s.async.NotSent? ==> !s.mainRuns)
    && (s.sawAlive.None? ==> s.async.NotSent?)
    && (!s.loaded ==> !s.clientRuns && s.sawAlive != Some(true))
    && (s.phase.Before? ==> !s.loaded)
    && (if s.phase.Gone? then s.async.AsyncClosing? || s.async.AsyncClosed? else s.async.NotSent? || s.async.Queued?)
  }

  ghost predicate PhaseValid(s: State) {
    match s.phase
    case Before => s.net == EMPTY_NET && s.heap == EMPTY_HEAP
    case Live => TimerOpen(s.net) && (!s.loaded ==> s.net == EMPTY_NET.(timer := Idle) && s.heap == EMPTY_HEAP)
    case Gone =>
      && s.heap.attached == {}
      && s.net.interest == map[]
      && (s.net.timer.Closing? || s.net.timer.Absent?)
      && (!s.loaded ==> s.heap.index == [])
  }

  ghost predicate Valid(s: State) {
    && PollMirror.Valid(s.net)
    && Ownership.Valid(s.heap)
    && s.heap.messages == []
    && KeysValid(s.table)
    && ControlValid(s)
    && PhaseValid(s)
  }

  /** `Valid` inside a callback, while curl's messages are being read. */
  ghost predicate Working(s: State) {
    && PollMirror.Valid(s.net) && TimerOpen(s.net)
    && Ownership.Valid(s.heap)
    && KeysValid(s.table)
    && s.phase.Live? && s.loaded && ControlValid(s)
  }

  lemma {:induction false} CompleteFirstKeepsWorking(s: State, a: Answer)
    requires Working(s) && s.heap.messages != []
    ensures Working(CompleteFirst(s, a))
  {
    hide PollMirror.Valid, Ownership.Valid;
    match s.heap.messages[0]
    case OtherMessage => SkipMessageKeepsValid(s.heap);
    case Done(e, err, status) =>
      FinishTransferKeepsValid(s.heap, Classify(err, status));
      DeliverAllKeepsValid(s.net, a.cbs);
  }

  lemma {:induction false} DrainKeepsWorking(s: State, answers: seq<Answer>)
    requires Working(s)
    ensures Working(Drain(s, answers)) && Drain(s, answers).heap.messages == []
    decreases |s.heap.messages|
  {
    if s.heap.messages != [] {
      hide PollMirror.Valid, Ownership.Valid, CompleteFirst;
      var a := if answers == [] then QUIET else answers[0];
      CompleteFirstKeepsWorking(s, a);
      DrainKeepsWorking(CompleteFirst(s, a), if answers == [] then [] else answers[1..]);
    }
  }

  lemma {:induction false} NewMessagesKeepValid(h: Heap, dones: seq<Message>)
    requires Ownership.Valid(h) && MessagesValid(h.messages + dones, h.attached)
    ensures Ownership.Valid(h.(messages := h.messages + dones))
  {
  }

  lemma {:induction false} ActionKeepsValid(s: State, cbs: seq<Callback>, dones: seq<Message>, answers: seq<Answer>)
    requires Valid(s) && s.phase.Live? && s.loaded
    requires MessagesValid(s.heap.messages + dones, s.heap.attached)
    ensures Valid(Action(s, cbs, dones, answers))
  {
    hide PollMirror.Valid, Ownership.Valid, MessagesValid;
    DeliverAllKeepsValid(s.net, cbs);
    NewMessagesKeepValid(s.heap, dones);
    DrainKeepsWorking(s.(net := DeliverAll(s.net, cbs), heap := s.heap.(messages := s.heap.messages + dones)), answers);
  }

  lemma {:induction false} TargetCheckKeepsValid(s: State, p: Ptr, getOk: bool, mallocOk: bool, attach: Attach,
                                                 cbs: seq<Callback>)
    requires Valid(s) && !s.phase.Before? && s.loaded && p in s.heap.index && p in s.heap.targets
    ensures
      var s' := TargetCheck(s, p, getOk, mallocOk, attach, cbs);
      && (Faulted(s') <==> s.phase.Gone? && ReachesCurl(s, p, getOk, mallocOk))
      && (Valid(s') || Faulted(s'))
  {
    ValidUnfaulted(s);
    hide PollMirror.Valid, Ownership.Valid;
    FireTimerKeepsValid(s.heap, p);
    if s.phase.Live? {
      BeginTransferKeepsValid(FireTimer(s.heap, p), p, attach);
      DeliverAllKeepsValid(s.net, cbs);
      ValidUnfaulted(TargetCheck(s, p, getOk, mallocOk, attach, cbs));
    }
  }

  lemma {:induction false} ValidUnfaulted(s: State)
    ensures Valid(s) ==> !Faulted(s)
  {
  }

  lemma {:induction false} InitTargetsKeepsValid(s: State, ids: seq<int>)
    requires forall i :: 0 <= i < |ids| ==> ids[i] in s.table.rows
    requires Valid(s) && s.loaded
    ensures Valid(InitTargets(s, ids))
    decreases |ids|
  {
    if ids != [] {
      hide PollMirror.Valid, Ownership.Valid;
      var row := s.table.rows[ids[0]];
      AddTargetKeepsValid(s.heap, ids[0], row.up, row.interval);
      InitTargetsKeepsValid(
        s.(heap := AddTarget(s.heap, ids[0], row.up, row.interval), log := s.log + [Started(ids[0], row.up)]),
        ids[1..]);
    }
  }

  lemma {:induction false} DeliverEachKeepsValid(n: Net, removals: seq<seq<Callback>>)
    requires PollMirror.Valid(n) && TimerOpen(n)
    ensures PollMirror.Valid(DeliverEach(n, removals)) && TimerOpen(DeliverEach(n, removals))
    decreases |removals|
  {
    if removals != [] {
      DeliverAllKeepsValid(n, removals[0]);
      DeliverEachKeepsValid(DeliverAll(n, removals[0]), removals[1..]);
    }
  }

  /** The heap after the shutdown callback: what was allocated waits for its close callback or is lost. */
  lemma {:induction false} StoppedHeap(s: State, handles: Option<seq<Ptr>>, removals: seq<seq<Callback>>,
                                       cleanup: seq<Callback>)
    requires Ownership.Valid(s.heap) && ListsAttached(s, handles, removals)
    ensures
      var h := WatcherStop(s, handles, removals, cleanup).heap;
      && Ownership.Valid(h)
      && h.index == [] && h.attached == {} && h.messages == []
      && h.targets.Keys == s.heap.targets.Keys
      && h.transfers == s.heap.transfers && h.lost == s.heap.transfers.Keys
      && (handles.Some? ==> h.easies.Keys == s.heap.easies.Keys - s.heap.attached)
      && (forall p :: p in h.targets ==> h.targets[p].timer.Closing?)
  {
    AttachedAreEasies(s.heap);
    DropAllTargetsMeaning(s.heap);
    hide DropAllTargets, FreeEasies;
    var h := DropAllTargets(s.heap);
    if handles.Some? {
      assert forall i :: 0 <= i < |handles.value| ==> handles.value[i] in s.heap.attached;
      FreeEasiesMeaning(h, handles.value);
      assert (set e | e in handles.value) == s.heap.attached;
      h := FreeEasies(h, handles.value);
    }
    CleanupKeepsValid(s.heap, h);
  }

  lemma {:induction false} AttachedAreEasies(h: Heap)
    requires Ownership.Valid(h)
    ensures h.attached <= h.easies.Keys
  {
  }

  lemma {:induction false} CleanupKeepsValid(h: Heap, g: Heap)
    requires Ownership.Valid(h)
    requires g.index == [] && !g.fault && g.next == h.next && g.targets.Keys == h.targets.Keys
    requires forall p :: p in g.targets ==> g.targets[p].timer.Closing?
    requires g.transfers == h.transfers
    requires g.easies.Keys <= h.easies.Keys && forall e :: e in g.easies ==> g.easies[e] == h.easies[e]
    ensures Ownership.Valid(CleanupMulti(g))
  {
  }

  lemma {:induction false} CloseCurlTimerKeepsValid(n: Net)
    requires PollMirror.Valid(n) && TimerOpen(n)
    ensures PollMirror.Valid(CloseCurlTimer(n)) && CloseCurlTimer(n).interest == n.interest
    ensures CloseCurlTimer(n).batons == n.batons && CloseCurlTimer(n).timer.Closing?
  {
  }

  lemma {:induction false} TimerIrrelevant(n: Net, t: Timer)
    requires PollMirror.Valid(n)
    ensures PollMirror.Valid(n.(timer := t))
  {
  }

  lemma {:induction false} WatcherStopKeepsValid(s: State, handles: Option<seq<Ptr>>, removals: seq<seq<Callback>>,
                                                 cleanup: seq<Callback>)
    requires Valid(s) && s.phase.Live? && s.async.Queued? && ListsAttached(s, handles, removals)
    requires ClearNet(s.net, handles, removals, cleanup).interest == map[]
    ensures Valid(WatcherStop(s, handles, removals, cleanup).(async := AsyncClosing))
    ensures WatcherStop(s, handles, removals, cleanup).net.timer.Closing?
  {
    hide PollMirror.Valid, Ownership.Valid, ListsAttached;
    StoppedHeap(s, handles, removals, cleanup);
    DeliverEachKeepsValid(s.net, removals);
    DeliverAllKeepsValid(if handles.Some? then DeliverEach(s.net, removals) else s.net, cleanup);
    CloseCurlTimerKeepsValid(ClearNet(s.net, handles, removals, cleanup));
  }

  lemma {:induction false} InitValid(t: Table)
    requires KeysValid(t)
    ensures Valid(Init(t))
  {
  }

  lemma {:induction false} PrepareKeepsValid(s: State)
    requires Valid(s) && s.phase.Before?
    ensures Valid(PrepareState(s))
  {
    TimerIrrelevant(s.net, Idle);
  }

  lemma {:induction false} LoadKeepsValid(s: State, getOk: bool, ids: seq<int>, inits: nat)
    requires Valid(s) && Legal(s, Load(getOk, ids, inits))
    ensures Valid(LoadTargets(s, getOk, ids, inits))
  {
    hide PollMirror.Valid, Ownership.Valid;
    if getOk {
      InitTargetsKeepsValid(s.(loaded := true, clientRuns := true), ids[..inits]);
    }
  }

  /** A running timer or a closing one belongs to an indexed target or to one that was dropped. */
  lemma {:induction false} TimerOwner(h: Heap, p: Ptr)
    requires Ownership.Valid(h) && p in h.targets && h.targets[p].timer.Armed?
    ensures p in h.index
  {
  }

  /** The tick gets as far as curl. */
  ghost predicate ReachesCurl(s: State, p: Ptr, getOk: bool, mallocOk: bool) {
    getOk && mallocOk && p in s.heap.targets && s.heap.targets[p].id in s.table.rows
  }

  /**
   The two ways of using a multi handle that is not there: the shutdown callback before it has
   been created, and the tick of a target that was loaded after it had been cleaned up.
   */
  ghost predicate Misuses(s: State, ev: Event) {
    match ev
    case StopCallback(_, _, _) => s.phase.Before?
    case Tick(p, getOk, mallocOk, _, _) => s.phase.Gone? && ReachesCurl(s, p, getOk, mallocOk)
    case _ => false
  }

  /** Every step keeps the invariant, except that those two, and only they, fault. */
  lemma {:induction false} StepKeepsValid(s: State, ev: Event)
    requires Valid(s) && Legal(s, ev)
    ensures Faulted(Step(s, ev)) <==> Misuses(s, ev)
    ensures Valid(Step(s, ev)) || Faulted(Step(s, ev))
  {
    hide *;
    ValidUnfaulted(Step(s, ev));
    match ev
    case Tick(_, _, _, _, _) => TickKeepsValid(s, ev);
    case Ready(_, _, _, _, _) => ReadyKeepsValid(s, ev);
    case Expire(_, _, _) => ExpireKeepsValid(s, ev);
    case StopCallback(_, _, _) => StopKeepsValid(s, ev);
    case _ => OtherStepKeepsValid(s, ev);
  }

  lemma {:induction false} TickKeepsValid(s: State, ev: Event)
    requires Valid(s) && Legal(s, ev) && ev.Tick?
    ensures (Faulted(Step(s, ev)) <==> Misuses(s, ev)) && (Valid(Step(s, ev)) || Faulted(Step(s, ev)))
  {
    TimerOwner(s.heap, ev.p);
    TargetAllocated(s, ev.p);
    hide PollMirror.Valid, Ownership.Valid;
    TargetCheckKeepsValid(s, ev.p, ev.getOk, ev.mallocOk, ev.attach, ev.cbs);
  }

  lemma {:induction false} ReadyKeepsValid(s: State, ev: Event)
    requires Valid(s) && Legal(s, ev) && ev.Ready?
    ensures !Misuses(s, ev) && Valid(Step(s, ev))
  {
    OpenBaton(s, ev.b);
    hide PollMirror.Valid, Ownership.Valid, MessagesValid;
    PollErrorKeepsValid(s.net, ev.b);
    ActionKeepsValid(if ev.failed then s.(net := PollError(s.net, ev.b)) else s, ev.cbs, ev.dones, ev.answers);
  }

  lemma {:induction false} ExpireKeepsValid(s: State, ev: Event)
    requires Valid(s) && Legal(s, ev) && ev.Expire?
    ensures !Misuses(s, ev) && Valid(Step(s, ev))
  {
    hide PollMirror.Valid, Ownership.Valid, MessagesValid;
    TimerIrrelevant(s.net, Idle);
    ActionKeepsValid(s.(net := s.net.(timer := Idle)), ev.cbs, ev.dones, ev.answers);
  }

  lemma {:induction false} StopKeepsValid(s: State, ev: Event)
    requires Valid(s) && Legal(s, ev) && ev.StopCallback?
    ensures (Faulted(Step(s, ev)) <==> Misuses(s, ev)) && (Valid(Step(s, ev)) || Faulted(Step(s, ev)))
  {
    ValidUnfaulted(Step(s, ev));
    hide PollMirror.Valid, Ownership.Valid, ListsAttached, ClearNet;
    if s.phase.Live? { WatcherStopKeepsValid(s, ev.handles, ev.removals, ev.cleanup); }
  }

  lemma {:induction false} OtherStepKeepsValid(s: State, ev: Event)
    requires Valid(s) && Legal(s, ev)
    requires !ev.Tick? && !ev.Ready? && !ev.Expire? && !ev.StopCallback?
    ensures !Misuses(s, ev) && Valid(Step(s, ev))
  {
    hide PollMirror.Valid, Ownership.Valid, Apply;
    match ev
    case Prepare => PrepareKeepsValid(s);
    case Load(getOk, ids, inits) => LoadKeepsValid(s, getOk, ids, inits);
    case CloseTarget(p) =>
      TargetAllocated(s, p);
      FreeTargetKeepsValid(s.heap, p);
    case CloseBaton(b) => SocketDeinitKeepsValid(s.net, b);
    case CloseTimer => TimerIrrelevant(s.net, Absent);
    case Serve(op, reply) => if Apply(s.table, op).Some? { ApplyMeaning(s.table, op); }
    case ReadAlive => if !s.loaded { UnloadedQuiet(s); }
    case _ =>
  }

  lemma {:induction false} TargetAllocated(s: State, p: Ptr)
    requires PhaseValid(s) && p in s.heap.targets
    ensures !s.phase.Before? && (s.phase.Live? ==> s.loaded)
  {
  }

  /** Until the targets are loaded, nothing keeps the loop alive but a stop request. */
  lemma {:induction false} UnloadedQuiet(s: State)
    requires PhaseValid(s) && ControlValid(s) && !s.loaded && s.async.NotSent?
    ensures !Alive(s)
  {
  }

  lemma {:induction false} OpenBaton(s: State, b: Ptr)
    requires Valid(s) && Open(s.net, b)
    ensures s.phase.Live? && s.loaded
  {
    assert Placed(s.net, b);
  }

  /** A legal run ends in a valid state, unless its last step has faulted. */
  lemma {:induction false} RunKeepsValid(s: State, evs: seq<Event>)
    requires Valid(s) && LegalRun(s, evs)
    ensures Valid(Run(s, evs)) || Faulted(Run(s, evs))
    decreases |evs|
  {
    if evs != [] {
      StepKeepsValid(s, evs[0]);
      if Valid(Step(s, evs[0])) {
        RunKeepsValid(Step(s, evs[0]), evs[1..]);
      }
    }
  }

  lemma {:induction false} RunAppend(s: State, a: seq<Event>, b: seq<Event>)
    ensures LegalRun(s, a + b) <==> LegalRun(s, a) && LegalRun(Run(s, a), b)
    ensures LegalRun(s, a + b) ==> Run(s, a + b) == Run(Run(s, a), b)
    decreases |a|
  {
    if a == [] {
      assert a + b == b;
    } else {
      assert (a + b)[1..] == a[1..] + b;
      if Legal(s, a[0]) {
        RunAppend(Step(s, a[0]), a[1..], b);
      }
    }
  }

  /** A run faults exactly if its last event is one of the two misuses. */
  lemma {:induction false} RunFaultsExactly(t: Table, evs: seq<Event>, ev: Event)
    requires KeysValid(t) && LegalRun(Init(t), evs + [ev])
    ensures LegalRun(Init(t), evs) && Valid(Run(Init(t), evs))
    ensures Faulted(Run(Init(t), evs + [ev])) <==> Misuses(Run(Init(t), evs), ev)
  {
    InitValid(t);
    RunAppend(Init(t), evs, [ev]);
    RunKeepsValid(Init(t), evs);
    var s := Run(Init(t), evs);
    assert [ev][1..] == [] && Legal(s, ev);
    StepKeepsValid(s, ev);
  }

  /** The stop reads its flag only when the targets have been loaded. */
  ghost predicate FlagAfterLoad(s: State, evs: seq<Event>)
    requires LegalRun(s, evs)
    decreases |evs|
  {
    evs == [] || ((evs[0].ReadAlive? ==> s.loaded) && FlagAfterLoad(Step(s, evs[0]), evs[1..]))
  }

  /** A stop that has begun found the targets loaded, and took them along if it is through. */
  ghost predicate InTime(s: State) {
    (s.sawAlive.Some? ==> s.loaded) && (s.phase.Gone? ==> s.loaded && s.heap.index == [])
  }

  lemma {:induction false} InTimeStep(s: State, ev: Event)
    requires Valid(s) && InTime(s) && Legal(s, ev) && (ev.ReadAlive? ==> s.loaded)
    ensures Valid(Step(s, ev)) && InTime(Step(s, ev))
  {
    hide *;
    StepKeepsValid(s, ev);
    InTimeControl(s, ev);
  }

  lemma {:induction false} InTimeControl(s: State, ev: Event)
    requires Valid(s) && InTime(s) && Legal(s, ev) && (ev.ReadAlive? ==> s.loaded)
    ensures !Misuses(s, ev) && InTime(Step(s, ev))
  {
    if ev.Tick? { TimerOwner(s.heap, ev.p); }
    if ev.StopCallback? && s.phase.Live? { StoppedHeap(s, ev.handles, ev.removals, ev.cleanup); }
    hide PollMirror.Valid, Ownership.Valid, Apply, ClearNet, ListsAttached, MessagesValid, Alive;
  }

  lemma {:induction false} InTimeRun(s: State, evs: seq<Event>)
    requires Valid(s) && InTime(s) && LegalRun(s, evs) && FlagAfterLoad(s, evs)
    ensures Valid(Run(s, evs)) && InTime(Run(s, evs))
    decreases |evs|
  {
    if evs != [] {
      InTimeStep(s, evs[0]);
      InTimeRun(Step(s, evs[0]), evs[1..]);
    }
  }

  // ---- Memory safety of every run ----

  /** The record `t` is read by the completion of the attached handle `e`, and only by it. */
  ghost predicate OnlyHandle(h: Heap, e: Ptr, t: Ptr) {
    && HandleOf(h.attached, h.easies, e, t)
    && forall e' :: HandleOf(h.attached, h.easies, e', t) ==> e' == e
  }

  /**
   Whatever the libraries and the server do, no step reads or frees memory that is not allocated,
   starts a closed timer, polls a watched descriptor or uses curl before or after its time, if the
   stop is called after the targets have been loaded.  And in every run, until some step faults: a
   handle in the multi handle has a record, the record has a target, and the target's timer is not
   closed; a record that is not lost is read by exactly one handle; libuv watches what curl asked
   for; batons are conserved.
   */
  lemma {:induction false} EveryRunIsSafe(t: Table, evs: seq<Event>)
    requires KeysValid(t) && LegalRun(Init(t), evs)
    ensures FlagAfterLoad(Init(t), evs) ==> !Faulted(Run(Init(t), evs))
    ensures
      var s := Run(Init(t), evs);
      var h := s.heap;
      !Faulted(s) ==>
        && (forall e :: e in h.attached ==> Readable(h, e) && !h.targets[TargetOf(h, e)].timer.Closing?)
        && (forall t :: t in h.transfers.Keys - h.lost ==> exists e :: OnlyHandle(h, e, t))
        && Watching(s.net) == (set fd | fd in s.net.interest && fd !in s.net.errored :: (fd, s.net.interest[fd]))
        && |LiveBatons(s.net)| + |ClosingBatons(s.net)| + |s.net.freed| == s.net.next
        && NoDuplicates(s.net.freed)
  {
    InitValid(t);
    RunKeepsValid(Init(t), evs);
    var s := Run(Init(t), evs);
    if FlagAfterLoad(Init(t), evs) {
      InTimeRun(Init(t), evs);
      ValidUnfaulted(s);
    }
    hide PollMirror.Valid, Ownership.Valid, Run, LegalRun, FlagAfterLoad;
    if Valid(s) {
      ValidMirrors(s.net);
      ValidOwns(s.heap);
    }
  }

  lemma {:induction false} ValidOwns(h: Heap)
    requires Ownership.Valid(h)
    ensures !h.fault
    ensures forall e :: e in h.attached ==> Readable(h, e) && !h.targets[TargetOf(h, e)].timer.Closing?
    ensures forall t :: t in h.transfers.Keys - h.lost ==> exists e :: OnlyHandle(h, e, t)
  {
    forall e | e in h.attached ensures Readable(h, e) && !h.targets[TargetOf(h, e)].timer.Closing? {
      assert Owned(h, e) && Indexed(h, TargetOf(h, e));
    }
    forall t | t in h.transfers.Keys - h.lost ensures exists e :: OnlyHandle(h, e, t) {
      var e :| HandleOf(h.attached, h.easies, e, t);
      assert OnlyHandle(h, e, t);
    }
  }

  /** A tick loses a record exactly when it gets as far as curl and curl does not take the handle. */
  lemma {:induction false} TickLosesExactly(s: State, p: Ptr, getOk: bool, mallocOk: bool, attach: Attach,
                                            cbs: seq<Callback>)
    requires Valid(s) && s.phase.Live? && Legal(s, Tick(p, getOk, mallocOk, attach, cbs))
    ensures
      var s' := Step(s, Tick(p, getOk, mallocOk, attach, cbs));
      && (s'.heap.lost == s.heap.lost
          <==> attach.Attached? || !mallocOk || !getOk || s.heap.targets[p].id !in s.table.rows)
      && (s'.heap.attached != s.heap.attached
          <==> attach.Attached? && mallocOk && getOk && s.heap.targets[p].id in s.table.rows)
  {
  }

  // ---- Adding and deleting one target ----

  /** `reachard_client_watcher_add`, once its query and allocation have succeeded. */
  ghost function WatcherAdd(s: State, id: int): State
    requires id in s.table.rows
  {
    var row := s.table.rows[id];
    s.(heap := AddTarget(s.heap, id, row.up, row.interval), log := s.log + [Started(id, row.up)])
  }

  lemma {:induction false} WatcherAddKeepsValid(s: State, id: int)
    requires Valid(s) && s.loaded && id in s.table.rows
    ensures Valid(WatcherAdd(s, id))
    ensures
      var h, row := WatcherAdd(s, id).heap, s.table.rows[id];
      && h.index == s.heap.index + [s.heap.next]
      && h.targets == s.heap.targets[s.heap.next := Cell(id, row.up, Armed(0, row.interval * 1000))]
  {
    AddTargetKeepsValid(s.heap, id, s.table.rows[id].up, s.table.rows[id].interval);
  }

  /** The position in the hash of the target that a lookup of `id` finds. */
  ghost predicate Finds(s: State, id: int, i: nat) {
    i < |s.heap.index| && s.heap.index[i] in s.heap.targets && s.heap.targets[s.heap.index[i]].id == id
  }

  ghost function WatcherDelete(s: State, i: nat): State
    requires i < |s.heap.index|
  {
    s.(heap := DropTarget(s.heap, i))
  }

  /** Deleting a target keeps the invariant exactly when none of its transfers is in flight. */
  lemma {:induction false} WatcherDeleteExact(s: State, id: int, i: nat)
    requires Valid(s) && s.phase.Live? && Finds(s, id, i)
    ensures Valid(WatcherDelete(s, i)) <==> !InFlight(s.heap, s.heap.index[i])
  {
    DropTargetExact(s.heap, i);
  }

  /** libuv can call curl: its timer is running or some poll is started. */
  ghost predicate CurlCallable(n: Net) {
    n.timer.Armed? || exists b :: Open(n, b) && n.batons[b].mask.Some?
  }

  /**
   And the deletion is really unsafe otherwise: once the target's close callback has run, the
   completion of the transfer reads freed memory as soon as curl is called and reports it.
   */
  lemma {:induction false} WatcherDeleteInFlightFaults(s: State, id: int, i: nat) returns (evs: seq<Event>)
    requires Valid(s) && s.phase.Live? && Finds(s, id, i) && Running(s) && CurlCallable(s.net)
    requires InFlight(s.heap, s.heap.index[i])
    ensures LegalRun(WatcherDelete(s, i), evs) && Run(WatcherDelete(s, i), evs).heap.fault
  {
    var p := s.heap.index[i];
    var e :| e in s.heap.attached && Readable(s.heap, e) && TargetOf(s.heap, e) == p;
    var s1 := WatcherDelete(s, i);
    TargetFreed(s, i, e);
    var s2 := Step(s1, CloseTarget(p));
    var report := [Done(e, 0, 200)];
    hide PollMirror.Valid, Ownership.Valid, DropTarget, Ownership.FreeTarget, WatcherDelete;
    var late := Expire([], report, []);
    if !s.net.timer.Armed? {
      var b :| Open(s.net, b) && s.net.batons[b].mask.Some?;
      late := Ready(b, false, [], report, []);
    }
    assert s2.heap.messages + report == report;
    assert MessagesValid(report, s2.heap.attached);
    LateReportFaults(s2, e, late);
    assert LegalRun(Step(s2, late), []) && Run(Step(s2, late), []) == Step(s2, late);
    hide PollMirror.Valid, Ownership.Valid, Step, Legal, LegalRun, Run;
    evs := [CloseTarget(p)] + ([late] + []);
    RunCons(s2, late, []);
    RunCons(s1, CloseTarget(p), [late] + []);
  }

  /** The deleted target is freed; the attached handle `e` is left with a record that points to it. */
  lemma {:induction false} TargetFreed(s: State, i: nat, e: Ptr)
    requires Valid(s) && s.phase.Live? && Running(s) && i < |s.heap.index|
    requires e in s.heap.attached && Readable(s.heap, e) && TargetOf(s.heap, e) == s.heap.index[i]
    ensures
      var s1, close := WatcherDelete(s, i), CloseTarget(s.heap.index[i]);
      && Legal(s1, close)
      && (var s2 := Step(s1, close);
          && !Faulted(s2) && s2.net == s.net && s2.phase.Live? && Running(s2)
          && s2.heap.messages == [] && s2.heap.attached == s.heap.attached && !Readable(s2.heap, e))
  {
    assert Indexed(s.heap, s.heap.index[i]);
    hide PollMirror.Valid;
  }

  lemma {:induction false} LateReportFaults(s: State, e: Ptr, late: Event)
    requires Legal(s, late) && s.phase.Live? && !Readable(s.heap, e) && s.heap.messages == []
    requires
      || late == Expire([], [Done(e, 0, 200)], [])
      || (late.Ready? && late == Ready(late.b, false, [], [Done(e, 0, 200)], []))
    ensures Step(s, late).heap.fault
  {
    var n := if late.Expire? then s.net.(timer := Idle) else s.net;
    var s' := s.(net := DeliverAll(n, []), heap := s.heap.(messages := [Done(e, 0, 200)]));
    assert s.heap.messages + [Done(e, 0, 200)] == [Done(e, 0, 200)];
    assert Drain(s', []) == Drain(CompleteFirst(s', QUIET), []) == CompleteFirst(s', QUIET);
  }

  lemma {:induction false} RunCons(s: State, ev: Event, evs: seq<Event>)
    requires Legal(s, ev)
    ensures LegalRun(s, [ev] + evs) <==> LegalRun(Step(s, ev), evs)
    ensures LegalRun(s, [ev] + evs) ==> Run(s, [ev] + evs) == Run(Step(s, ev), evs)
  {
  }
}
