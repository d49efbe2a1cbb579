/**
 The client's memory against the table that the server writes too: status coherence, independence
 of the two writers, and what happens to deleted targets
 (src/client/targets.c:52-112, src/client/watcher.c:55-81, src/server/handle/targets.c:132-160).

 Everything is read off the log of a run.
 */
module Coherence {
  import opened EventLoop
  import opened Ownership
  import opened PatchBody
  import opened PollMirror
  import opened Sequences
  import opened Table
  import opened Wrappers

  // ---- Reading a log ----

  ghost function ApplyEntry(t: Table, e: Entry): Table {
    match e
    case Served(op, true) =>
      if (op.Patch? ==> Clamped(op.body)) && Apply(t, op).Some? then Apply(t, op).value else t
    case Completed(id, err, status, Some(reply)) =>
      if Effective(reply) then SetStatus(t, id, Classify(err, status)) else t
    case _ => t
  }

  /** The table after the database statements of the log. */
  ghost function Replay(t: Table, log: seq<Entry>): Table
    decreases |log|
  {
    if log == [] then t else ApplyEntry(Replay(t, log[..|log| - 1]), log[|log| - 1])
  }

  predicate About(e: Entry, id: int) {
    (e.Started? || e.Completed?) && e.id == id
  }

  /** The status an entry is about: the one loaded, or what a completed transfer is classified as. */
  function StatusOf(e: Entry): bool
    requires e.Started? || e.Completed?
  {
    if e.Started? then e.up else Classify(e.err, e.status)
  }

  /** The status of the last completed transfer of the target, or the one it started with. */
  ghost function Status(log: seq<Entry>, id: int): Option<bool>
    decreases |log|
  {
    if log == [] then None
    else
      var e := log[|log| - 1];
      if About(e, id) then Some(StatusOf(e)) else Status(log[..|log| - 1], id)
  }

  /** The update of a completed transfer, if it tried one, took effect. */
  predicate Stored(e: Entry) {
    e.Completed? && e.update.Some? && Effective(e.update.value)
  }

  /** Updates without effect since the last one that had one, or since the start. */
  ghost function Ineffective(log: seq<Entry>, id: int): nat
    decreases |log|
  {
    if log == [] then 0
    else
      var e := log[|log| - 1];
      var before := Ineffective(log[..|log| - 1], id);
      if !About(e, id) then before
      else if e.Started? || Stored(e) then 0
      else if e.update.Some? then before + 1
      else before
  }

  /** Updates reported as failed since the last one that was acknowledged, or since the start. */
  ghost function ReportedFailures(log: seq<Entry>, id: int): nat
    decreases |log|
  {
    if log == [] then 0
    else
      var e := log[|log| - 1];
      var before := ReportedFailures(log[..|log| - 1], id);
      if !About(e, id) then before
      else if e.Started? || e.update == Some(Acknowledged) then 0
      else if e.update.Some? then before + 1
      else before
  }

  /** Of those, the ones up to and including the last that took effect with its reply lost. */
  ghost function UpToLostReply(log: seq<Entry>, id: int): nat
    decreases |log|
  {
    if log == [] then 0
    else
      var e := log[|log| - 1];
      var before := log[..|log| - 1];
      if !About(e, id) then UpToLostReply(before, id)
      else if e.Started? || e.update == Some(Acknowledged) then 0
      else if e.update == Some(Unacknowledged) then ReportedFailures(before, id) + 1
      else UpToLostReply(before, id)
  }

  /** The failed reports split at the last lost reply; what follows it really had no effect. */
  lemma {:induction false} ReportsSplit(log: seq<Entry>, id: int)
    ensures ReportedFailures(log, id) == UpToLostReply(log, id) + Ineffective(log, id)
    decreases |log|
  {
    if log != [] {
      ReportsSplit(log[..|log| - 1], id);
    }
  }

  predicate NoReplyLost(log: seq<Entry>, id: int) {
    forall i :: 0 <= i < |log| && About(log[i], id) && log[i].Completed? ==> log[i].update != Some(Unacknowledged)
  }

  lemma {:induction false} NothingLost(log: seq<Entry>, id: int)
    requires NoReplyLost(log, id)
    ensures UpToLostReply(log, id) == 0
    decreases |log|
  {
    if log != [] {
      NothingLost(log[..|log| - 1], id);
    }
  }

  /** One entry after the log `before`, which has led to the table `t`. */
  ghost predicate EntrySound(t: Table, before: seq<Entry>, e: Entry) {
    match e
    case Started(id, up) => id in t.rows && t.rows[id].up == up
    case Began(id, url) => id in t.rows && t.rows[id].url == url
    case Completed(id, err, status, update) =>
      id < t.next && Status(before, id).Some? && (update.Some? <==> Status(before, id) != Some(Classify(err, status)))
    case Served(op, done) => done ==> (op.Patch? ==> Clamped(op.body)) && Apply(t, op).Some?
  }

  /**
   What the log of every run satisfies: a target starts with its row's status, a transfer begins
   only for an existing row, and a status is stored exactly when it changed.
   */
  ghost predicate Sound(t: Table, log: seq<Entry>)
    decreases |log|
  {
    log == [] ||
    (var before := log[..|log| - 1];
     Sound(t, before) && EntrySound(Replay(t, before), before, log[|log| - 1]))
  }

  lemma {:induction false} Append(t: Table, log: seq<Entry>, e: Entry)
    ensures Replay(t, log + [e]) == ApplyEntry(Replay(t, log), e)
    ensures forall id :: Status(log + [e], id) == if About(e, id) then Some(StatusOf(e)) else Status(log, id)
    ensures forall id :: Ineffective(log + [e], id) ==
                         if !About(e, id) then Ineffective(log, id)
                         else if e.Started? || Stored(e) then 0
                         else if e.update.Some? then Ineffective(log, id) + 1
                         else Ineffective(log, id)
    ensures Sound(t, log + [e]) <==> Sound(t, log) && EntrySound(Replay(t, log), log, e)
  {
  }

  // ---- Statements one at a time ----

  lemma {:induction false} ReplayNext(t: Table, log: seq<Entry>, e: Entry)
    requires KeysValid(t)
    ensures KeysValid(ApplyEntry(t, e)) && t.next <= ApplyEntry(t, e).next
    ensures forall id :: id in ApplyEntry(t, e).rows && id < t.next ==> id in t.rows
  {
    if e.Served? && e.done && (e.op.Patch? ==> Clamped(e.op.body)) && Apply(t, e.op).Some? {
      ApplyMeaning(t, e.op);
    }
  }

  lemma {:induction false} ReplayValid(t: Table, log: seq<Entry>)
    requires KeysValid(t)
    ensures KeysValid(Replay(t, log)) && t.next <= Replay(t, log).next
    decreases |log|
  {
    if log != [] {
      var before := log[..|log| - 1];
      ReplayValid(t, before);
      ReplayNext(Replay(t, before), before, log[|log| - 1]);
    }
  }

  /** A number the sequence has given out and whose row is gone never has a row again. */
  lemma {:induction false} NeverReissued(t: Table, log: seq<Entry>, i: nat, id: int)
    requires KeysValid(t) && i <= |log|
    requires id < Replay(t, log[..i]).next && id !in Replay(t, log[..i]).rows
    ensures id < Replay(t, log).next && id !in Replay(t, log).rows
    decreases |log| - i
  {
    if i == |log| {
      assert log[..i] == log;
    } else {
      ReplayValid(t, log[..i]);
      ReplayNext(Replay(t, log[..i]), log[..i], log[i]);
      Append(t, log[..i], log[i]);
      assert log[..i + 1] == log[..i] + [log[i]];
      NeverReissued(t, log, i + 1, id);
    }
  }

  lemma {:induction false} SoundPrefix(t: Table, log: seq<Entry>, i: nat)
    requires Sound(t, log) && i <= |log|
    ensures Sound(t, log[..i])
    decreases |log|
  {
    if i < |log| {
      var before := log[..|log| - 1];
      SoundPrefix(t, before, i);
      assert before[..i] == log[..i];
    } else {
      assert log[..i] == log;
    }
  }

  lemma {:induction false} SoundAt(t: Table, log: seq<Entry>, i: nat)
    requires Sound(t, log) && i < |log|
    ensures EntrySound(Replay(t, log[..i]), log[..i], log[i])
  {
    SoundPrefix(t, log, i + 1);
    assert log[..i + 1] == log[..i] + [log[i]];
    Append(t, log[..i], log[i]);
  }

  /** Once a row is deleted no transfer is started for it any more. */
  lemma {:induction false} DeletedStaysQuiet(t: Table, log: seq<Entry>, i: nat, j: nat, id: int)
    requires KeysValid(t) && Sound(t, log)
    requires i < j < |log| && log[i] == Served(Remove(id), true) && id in Replay(t, log[..i]).rows
    ensures !(log[j].Began? && log[j].id == id)
  {
    ReplayValid(t, log[..i]);
    Append(t, log[..i], log[i]);
    assert log[..i + 1] == log[..i] + [log[i]];
    assert log[..j][..i + 1] == log[..i + 1];
    NeverReissued(t, log[..j], i + 1, id);
    SoundAt(t, log, j);
  }

  // ---- Two writers ----

  function ServerOnly(log: seq<Entry>): seq<Entry>
    decreases |log|
  {
    if log == [] then []
    else ServerOnly(log[..|log| - 1]) + (if log[|log| - 1].Served? then [log[|log| - 1]] else [])
  }

  /** The statuses the client stored, in order. */
  function ClientUpdates(log: seq<Entry>): seq<(int, bool)>
    decreases |log|
  {
    if log == [] then []
    else
      var e := log[|log| - 1];
      ClientUpdates(log[..|log| - 1]) + (if Stored(e) then [(e.id, StatusOf(e))] else [])
  }

  function LastUpdate(updates: seq<(int, bool)>, id: int, start: bool): bool
    decreases |updates|
  {
    if updates == [] then start
    else if updates[|updates| - 1].0 == id then updates[|updates| - 1].1
    else LastUpdate(updates[..|updates| - 1], id, start)
  }

  /** Two tables that agree on everything but statuses. */
  ghost predicate SameButStatus(t: Table, u: Table) {
    && t.next == u.next
    && t.rows.Keys == u.rows.Keys
    && (forall id :: id in t.rows ==> t.rows[id].(up := true) == u.rows[id].(up := true))
  }

  lemma {:induction false} ApplySameButStatus(t: Table, u: Table, op: ServerOp)
    requires KeysValid(t) && KeysValid(u) && SameButStatus(t, u) && (op.Patch? ==> Clamped(op.body))
    ensures Apply(t, op).Some? <==> Apply(u, op).Some?
    ensures Apply(t, op).Some? ==> SameButStatus(Apply(t, op).value, Apply(u, op).value)
  {
    if op.Patch? {
      PatchKvsMeaning(op.body, Target(0, "", "", 0, false));
      if op.id in t.rows {
        assert t.rows[op.id].(up := true) == u.rows[op.id].(up := true);
        PatchKvsMeaning(op.body, t.rows[op.id]);
        PatchKvsMeaning(op.body, u.rows[op.id]);
      }
    }
  }

  /**
   Names, addresses and intervals, and which rows there are, come from the server's statements
   alone: leaving out every client statement changes statuses only.
   */
  lemma {:induction false} ServerAlone(t: Table, log: seq<Entry>)
    requires KeysValid(t) && Sound(t, log)
    ensures SameButStatus(Replay(t, log), Replay(t, ServerOnly(log)))
    decreases |log|
  {
    if log != [] {
      var before, e := log[..|log| - 1], log[|log| - 1];
      ServerAlone(t, before);
      ReplayValid(t, before);
      ReplayValid(t, ServerOnly(before));
      if e.Served? {
        Append(t, ServerOnly(before), e);
        if e.done {
          ApplySameButStatus(Replay(t, before), Replay(t, ServerOnly(before)), e.op);
        }
      } else {
        assert ServerOnly(log) == ServerOnly(before);
      }
    }
  }

  /** The client has stored nothing under a number that is not given out yet. */
  lemma {:induction false} NoEarlyUpdate(t: Table, log: seq<Entry>, id: int, start: bool)
    requires KeysValid(t) && Sound(t, log) && Replay(t, log).next <= id
    ensures LastUpdate(ClientUpdates(log), id, start) == start
    decreases |log|
  {
    if log != [] {
      var before, e := log[..|log| - 1], log[|log| - 1];
      ReplayValid(t, before);
      ReplayNext(Replay(t, before), before, e);
      NoEarlyUpdate(t, before, id, start);
      LastUpdateStep(before, e, id, start);
    }
  }

  lemma {:induction false} LastUpdateStep(before: seq<Entry>, e: Entry, id: int, start: bool)
    ensures LastUpdate(ClientUpdates(before + [e]), id, start)
         == if Stored(e) && e.id == id then StatusOf(e)
            else LastUpdate(ClientUpdates(before), id, start)
  {
    assert (before + [e])[..|before + [e]| - 1] == before;
    if Stored(e) {
      var updates := ClientUpdates(before) + [(e.id, StatusOf(e))];
      assert updates[..|updates| - 1] == ClientUpdates(before);
    } else {
      assert ClientUpdates(before) + [] == ClientUpdates(before);
    }
  }

  function FirstStatus(t: Table, id: int): bool {
    if id in t.rows then t.rows[id].up else true
  }

  /**
   The status of a surviving row comes from the client's updates of that id alone: it is the last
   one stored, or else what the row had at the beginning or was inserted with.
   */
  lemma {:induction false} ClientAlone(t: Table, log: seq<Entry>, id: int)
    requires KeysValid(t) && Sound(t, log) && id in Replay(t, log).rows
    ensures Replay(t, log).rows[id].up == LastUpdate(ClientUpdates(log), id, FirstStatus(t, id))
    decreases |log|
  {
    if log != [] {
      var before, e := log[..|log| - 1], log[|log| - 1];
      var u := Replay(t, before);
      ReplayValid(t, before);
      assert log == before + [e];
      LastUpdateStep(before, e, id, FirstStatus(t, id));
      if id in u.rows {
        ClientAlone(t, before, id);
        if e.Served? && e.done { ApplyMeaning(u, e.op); }
      } else {
        assert e.Served? && e.done;
        ApplyMeaning(u, e.op);
        assert u.next <= id;
        NoEarlyUpdate(t, before, id, FirstStatus(t, id));
      }
    }
  }

  // ---- The client's memory ----

  /** Memory and row of one target: they differ exactly after an odd number of updates without effect. */
  ghost predicate Agrees(t: Table, log: seq<Entry>, id: int, up: bool) {
    && Status(log, id) == Some(up)
    && (id in t.rows ==> (t.rows[id].up != up <==> Ineffective(log, id) % 2 == 1))
  }

  ghost predicate MemoryValid(s: State) {
    && (forall p :: p in s.heap.targets ==> s.heap.targets[p].id < s.table.next)
    && (forall p, q :: p in s.heap.index && q in s.heap.index && p != q ==>
                         p in s.heap.targets && q in s.heap.targets && s.heap.targets[p].id != s.heap.targets[q].id)
    && (forall p :: p in s.heap.index ==>
                      p in s.heap.targets && Agrees(s.table, s.log, s.heap.targets[p].id, s.heap.targets[p].up))
  }

  /** The log explains the table, and the memory agrees with both. */
  ghost predicate Coherent(t: Table, s: State) {
    && KeysValid(s.table)
    && s.table == Replay(t, s.log)
    && Sound(t, s.log)
    && MemoryValid(s)
  }

  /** No target has another id or status, and none has entered the hash. */
  ghost predicate SameCells(h: Heap, g: Heap) {
    && (forall p :: p in g.targets ==>
                      p in h.targets && g.targets[p].id == h.targets[p].id && g.targets[p].up == h.targets[p].up)
    && (forall p :: p in g.index ==> p in h.index && p in g.targets)
  }

  /** Nothing that coherence depends on has changed. */
  ghost predicate SameMemory(s: State, r: State) {
    r.table == s.table && r.log == s.log && SameCells(s.heap, r.heap)
  }

  lemma {:induction false} SameMemoryCoherent(t: Table, s: State, r: State)
    requires Coherent(t, s) && SameMemory(s, r)
    ensures Coherent(t, r)
  {
  }

  lemma {:induction false} CompletionAgrees(t: Table, log: seq<Entry>, was: bool, e: Entry)
    requires e.Completed? && Agrees(t, log, e.id, was) && (e.update.Some? <==> StatusOf(e) != was)
    ensures Agrees(ApplyEntry(t, e), log + [e], e.id, StatusOf(e))
  {
  }

  /** The target `p` completes a transfer. */
  lemma {:induction false} CompletionCoherent(t: Table, s: State, r: State, p: Ptr, e: Entry)
    requires Coherent(t, s) && p in s.heap.targets && p in s.heap.index
    requires
      var cell := s.heap.targets[p];
      && e.Completed? && e.id == cell.id && (e.update.Some? <==> StatusOf(e) != cell.up)
      && r.heap.index == s.heap.index
      && r.heap.targets == s.heap.targets[p := cell.(up := StatusOf(e))]
      && r.table == ApplyEntry(s.table, e)
      && r.log == s.log + [e]
    ensures Coherent(t, r)
  {
    hide *;
    CoherentMeans(t, s);
    CoherentMeans(t, r);
    Append(t, s.log, e);
    ReplayNext(s.table, s.log, e);
    CompletionSound(s, p, e);
    CompletionMemory(s, r, p, e);
  }

  lemma {:induction false} CoherentMeans(t: Table, s: State)
    ensures Coherent(t, s) <==>
            KeysValid(s.table) && s.table == Replay(t, s.log) && Sound(t, s.log) && MemoryValid(s)
  {
  }

  lemma {:induction false} CompletionSound(s: State, p: Ptr, e: Entry)
    requires MemoryValid(s) && p in s.heap.targets && p in s.heap.index && e.Completed?
    requires e.id == s.heap.targets[p].id && (e.update.Some? <==> StatusOf(e) != s.heap.targets[p].up)
    ensures EntrySound(s.table, s.log, e)
  {
    hide Status, Ineffective;
  }

  lemma {:induction false} CompletionMemory(s: State, r: State, p: Ptr, e: Entry)
    requires MemoryValid(s) && p in s.heap.targets && p in s.heap.index
    requires
      var cell := s.heap.targets[p];
      && e.Completed? && e.id == cell.id && (e.update.Some? <==> StatusOf(e) != cell.up)
      && r.heap.index == s.heap.index
      && r.heap.targets == s.heap.targets[p := cell.(up := StatusOf(e))]
      && r.table == ApplyEntry(s.table, e)
      && r.log == s.log + [e]
    ensures MemoryValid(r)
  {
    hide Status, Ineffective, Agrees;
    CompletionAgrees(s.table, s.log, s.heap.targets[p].up, e);
    forall q | q in r.heap.index && q != p
      ensures q in r.heap.targets && Agrees(r.table, r.log, r.heap.targets[q].id, r.heap.targets[q].up)
    {
      OthersAgree(s.table, s.log, s.heap.targets[q].id, s.heap.targets[q].up, e);
    }
  }

  lemma {:induction false} OthersAgree(t: Table, log: seq<Entry>, id: int, up: bool, e: Entry)
    requires Agrees(t, log, id, up) && e.Completed? && e.id != id
    ensures Agrees(ApplyEntry(t, e), log + [e], id, up)
  {
    Append(t, log, e);
    hide Status, Ineffective;
  }

  lemma {:induction false} CompleteFirstCoherent(t: Table, s: State, a: Answer)
    requires Working(s) && s.heap.messages != [] && Coherent(t, s)
    ensures Coherent(t, CompleteFirst(s, a))
  {
    var r := CompleteFirst(s, a);
    hide Coherent;
    match s.heap.messages[0]
    case OtherMessage => SameMemoryCoherent(t, s, r);
    case Done(e, err, status) =>
      FinishTransferKeepsValid(s.heap, Classify(err, status));
      assert Owned(s.heap, e);
      hide Ownership.Valid, PollMirror.Valid, Working;
        CompletionCoherent(t, s, r, TargetOf(s.heap, e), r.log[|s.log|]);
  }

  lemma {:induction false} DrainCoherent(t: Table, s: State, answers: seq<Answer>)
    requires Working(s) && Coherent(t, s)
    ensures Coherent(t, Drain(s, answers))
    decreases |s.heap.messages|
  {
    if s.heap.messages != [] {
      hide Working, Coherent, CompleteFirst;
      var a := if answers == [] then QUIET else answers[0];
      CompleteFirstKeepsWorking(s, a);
      CompleteFirstCoherent(t, s, a);
      DrainCoherent(t, CompleteFirst(s, a), if answers == [] then [] else answers[1..]);
    }
  }

  lemma {:induction false} ActionCoherent(t: Table, s: State, cbs: seq<Callback>, dones: seq<Message>,
                                          answers: seq<Answer>)
    requires EventLoop.Valid(s) && s.phase.Live? && s.loaded && Coherent(t, s)
    requires MessagesValid(s.heap.messages + dones, s.heap.attached)
    ensures Coherent(t, Action(s, cbs, dones, answers))
  {
    var s' := s.(net := DeliverAll(s.net, cbs), heap := s.heap.(messages := s.heap.messages + dones));
    SameMemoryCoherent(t, s, s');
    DeliverAllKeepsValid(s.net, cbs);
    NewMessagesKeepValid(s.heap, dones);
    hide PollMirror.Valid, Ownership.Valid, Coherent;
    DrainCoherent(t, s', answers);
  }

  /** No indexed target has one of these ids. */
  ghost predicate Unindexed(h: Heap, ids: seq<int>) {
    forall p, i :: p in h.index && 0 <= i < |ids| && p in h.targets ==> h.targets[p].id != ids[i]
  }

  lemma {:induction false} AddTargetCoherent(t: Table, s: State, id: int)
    requires Ownership.Valid(s.heap) && Coherent(t, s) && id in s.table.rows && Unindexed(s.heap, [id])
    ensures Coherent(t, WatcherAdd(s, id))
  {
    var r := WatcherAdd(s, id);
    var row := s.table.rows[id];
    Append(t, s.log, Started(id, row.up));
    assert forall p :: p in r.heap.index <==> p in s.heap.index || p == s.heap.next;
    assert forall p :: p in s.heap.index ==> p in s.heap.targets && p < s.heap.next && s.heap.targets[p].id != [id][0];
    hide Ownership.Valid, Sound, Replay, Status, Ineffective;
    forall p | p in r.heap.index
      ensures p in r.heap.targets && Agrees(r.table, r.log, r.heap.targets[p].id, r.heap.targets[p].up)
    {
      if p in s.heap.index {
        assert Agrees(s.table, s.log, s.heap.targets[p].id, s.heap.targets[p].up);
      }
    }
  }

  lemma {:induction false} InitTargetsCoherent(t: Table, s: State, ids: seq<int>)
    requires forall i :: 0 <= i < |ids| ==> ids[i] in s.table.rows
    requires EventLoop.Valid(s) && s.loaded && Coherent(t, s)
    requires StrictlyIncreasing(ids) && Unindexed(s.heap, ids)
    ensures Coherent(t, InitTargets(s, ids))
    decreases |ids|
  {
    if ids != [] {
      var s' := WatcherAdd(s, ids[0]);
      assert [ids[0]][0] == ids[0];
      AddTargetCoherent(t, s, ids[0]);
      WatcherAddKeepsValid(s, ids[0]);
      hide PollMirror.Valid, Ownership.Valid, Coherent;
      assert forall p :: p in s'.heap.index ==> p in s.heap.index || p == s.heap.next;
      InitTargetsCoherent(t, s', ids[1..]);
    }
  }

  lemma {:induction false} BeganCoherent(t: Table, s: State, id: int, url: string)
    requires Coherent(t, s) && id in s.table.rows && s.table.rows[id].url == url
    ensures Coherent(t, s.(log := s.log + [Began(id, url)]))
  {
    Append(t, s.log, Began(id, url));
    hide Sound, Replay, Status, Ineffective;
  }

  lemma {:induction false} TargetCheckCoherent(t: Table, s: State, p: Ptr, getOk: bool, mallocOk: bool,
                                               attach: Attach, cbs: seq<Callback>)
    requires Coherent(t, s) && p in s.heap.targets && IndexValid(s.heap)
    ensures Coherent(t, TargetCheck(s, p, getOk, mallocOk, attach, cbs))
  {
    hide *;
    var r := TargetCheck(s, p, getOk, mallocOk, attach, cbs);
    var unlogged := r.(log := s.log);
    TargetCheckMemory(s, p, getOk, mallocOk, attach, cbs);
    SameMemoryCoherent(t, s, unlogged);
    if r.log != s.log {
      var id := s.heap.targets[p].id;
      BeganCoherent(t, unlogged, id, s.table.rows[id].url);
      assert unlogged.(log := r.log) == r;
    } else {
      assert unlogged == r;
    }
  }

  lemma {:induction false} TargetCheckMemory(s: State, p: Ptr, getOk: bool, mallocOk: bool, attach: Attach,
                                             cbs: seq<Callback>)
    requires p in s.heap.targets && IndexValid(s.heap)
    ensures
      var r := TargetCheck(s, p, getOk, mallocOk, attach, cbs);
      var id := s.heap.targets[p].id;
      && SameMemory(s, r.(log := s.log))
      && (r.log == s.log || (id in s.table.rows && r.log == s.log + [Began(id, s.table.rows[id].url)]))
      && r.table == s.table
  {
    TickCells(s.heap, p, attach);
    hide IndexValid, BeginTransfer, FireTimer, DeliverAll, SameCells;
  }

  lemma {:induction false} TickCells(h: Heap, p: Ptr, attach: Attach)
    requires p in h.targets && IndexValid(h)
    ensures SameCells(h, FireTimer(h, p)) && SameCells(h, BeginTransfer(FireTimer(h, p), p, attach))
    ensures p in FireTimer(h, p).targets && FireTimer(h, p).targets[p].id == h.targets[p].id
  {
    assert forall q :: q in h.index ==> Indexed(h, q);
  }

  lemma {:induction false} ServeCoherent(t: Table, s: State, op: ServerOp, reply: Reply)
    requires Coherent(t, s) && Legal(s, Serve(op, reply))
    ensures Coherent(t, Step(s, Serve(op, reply)))
  {
    var e := Served(op, Effective(reply) && Apply(s.table, op).Some?);
    var u := if e.done then Apply(s.table, op).value else s.table;
    assert Step(s, Serve(op, reply)) == s.(table := u, log := s.log + [e]);
    hide Step, Legal;
    Append(t, s.log, e);
    if e.done { ApplyMeaning(s.table, op); }
    ServedMemory(s, u, e);
  }

  lemma {:induction false} ServedMemory(s: State, u: Table, e: Entry)
    requires MemoryValid(s) && e.Served? && s.table.next <= u.next
    requires forall id :: id in u.rows && id < s.table.next ==>
                            id in s.table.rows && u.rows[id].up == s.table.rows[id].up
    ensures MemoryValid(s.(table := u, log := s.log + [e]))
  {
  }

  lemma {:induction false} LoadCoherent(t: Table, s: State, getOk: bool, ids: seq<int>, inits: nat)
    requires EventLoop.Valid(s) && Legal(s, Load(getOk, ids, inits)) && Coherent(t, s)
    ensures Coherent(t, LoadTargets(s, getOk, ids, inits))
  {
    var s' := s.(loaded := true, clientRuns := true);
    SameMemoryCoherent(t, s, s');
    if getOk {
      assert s.heap.index == [];
      InitTargetsCoherent(t, s', ids[..inits]);
    }
  }

  lemma {:induction false} ReadyCoherent(t: Table, s: State, ev: Event)
    requires EventLoop.Valid(s) && Legal(s, ev) && Coherent(t, s) && ev.Ready?
    ensures Coherent(t, Step(s, ev))
  {
    var s' := if ev.failed then s.(net := PollError(s.net, ev.b)) else s;
    OpenBaton(s, ev.b);
    PollErrorKeepsValid(s.net, ev.b);
    SameMemoryCoherent(t, s, s');
    hide Coherent, PollMirror.Valid, Ownership.Valid, MessagesValid;
    ActionCoherent(t, s', ev.cbs, ev.dones, ev.answers);
  }

  lemma {:induction false} ExpireCoherent(t: Table, s: State, ev: Event)
    requires EventLoop.Valid(s) && Legal(s, ev) && Coherent(t, s) && ev.Expire?
    ensures Coherent(t, Step(s, ev))
  {
    var s' := s.(net := s.net.(timer := Idle));
    SameMemoryCoherent(t, s, s');
    TimerIrrelevant(s.net, Idle);
    hide Coherent, PollMirror.Valid, Ownership.Valid, MessagesValid;
    ActionCoherent(t, s', ev.cbs, ev.dones, ev.answers);
  }

  lemma {:induction false} StepCoherent(t: Table, s: State, ev: Event)
    requires EventLoop.Valid(s) && Legal(s, ev) && Coherent(t, s)
    ensures Coherent(t, Step(s, ev))
  {
    hide PollMirror.Valid, Coherent, MessagesValid;
    match ev
    case Load(getOk, ids, inits) => LoadCoherent(t, s, getOk, ids, inits);
    case Tick(p, getOk, mallocOk, attach, cbs) => TargetCheckCoherent(t, s, p, getOk, mallocOk, attach, cbs);
    case Ready(_, _, _, _, _) => ReadyCoherent(t, s, ev);
    case Expire(_, _, _) => ExpireCoherent(t, s, ev);
    case StopCallback(handles, removals, cleanup) =>
      if s.phase.Live? { StopSameMemory(s, handles, removals, cleanup); }
      SameMemoryCoherent(t, s, Step(s, ev));
    case Serve(op, reply) => ServeCoherent(t, s, op, reply);
    case CloseTarget(p) =>
      FreeTargetKeepsValid(s.heap, p);
      SameMemoryCoherent(t, s, Step(s, ev));
    case _ => SameMemoryCoherent(t, s, Step(s, ev));
  }

  lemma {:induction false} StopSameMemory(s: State, handles: Option<seq<Ptr>>, removals: seq<seq<Callback>>,
                                          cleanup: seq<Callback>)
    requires Ownership.Valid(s.heap) && ListsAttached(s, handles, removals)
    ensures SameMemory(s, WatcherStop(s, handles, removals, cleanup))
  {
    StoppedHeap(s, handles, removals, cleanup);
    DropAllTargetsMeaning(s.heap);
    if handles.Some? {
      assert forall e :: e in s.heap.attached ==> Owned(s.heap, e);
      assert forall i :: 0 <= i < |handles.value| ==> handles.value[i] in s.heap.attached;
      FreeEasiesMeaning(DropAllTargets(s.heap), handles.value);
    }
  }

  /** Also a step that faults leaves table, log and memory in agreement. */
  lemma {:induction false} RunCoherent(t: Table, s: State, evs: seq<Event>)
    requires EventLoop.Valid(s) && Coherent(t, s) && LegalRun(s, evs)
    ensures Coherent(t, Run(s, evs))
    decreases |evs|
  {
    if evs != [] {
      StepKeepsValid(s, evs[0]);
      StepCoherent(t, s, evs[0]);
      hide EventLoop.Valid, Coherent;
      var s' := Step(s, evs[0]);
      if EventLoop.Valid(s') {
        RunCoherent(t, s', evs[1..]);
      } else {
        assert evs[1..] == [];
      }
    }
  }

  // ---- The theorems about every run ----

  /**
   For every target the client watches: what it remembers is the classification of the last
   completed transfer, and it differs from the row, if there still is one, exactly when an odd
   number of updates had no effect since the last that had one or since the start.
   */
  lemma {:induction false} StatusParity(t: Table, evs: seq<Event>, p: Ptr)
    requires KeysValid(t) && LegalRun(Init(t), evs)
    requires p in Run(Init(t), evs).heap.index
    ensures
      var s := Run(Init(t), evs);
      && p in s.heap.targets
      && (var cell := s.heap.targets[p];
          && Status(s.log, cell.id) == Some(cell.up)
          && (cell.id in s.table.rows ==>
                (s.table.rows[cell.id].up != cell.up <==> Ineffective(s.log, cell.id) % 2 == 1)))
  {
    InitValid(t);
    RunCoherent(t, Init(t), evs);
    var s := Run(Init(t), evs);
    assert Agrees(s.table, s.log, s.heap.targets[p].id, s.heap.targets[p].up);
  }

  /**
   What the client can count are the updates reported as failed.  Their parity tells the same
   exactly when an even number of them go up to the last reply that was lost; so it does if no
   reply was lost.
   */
  lemma {:induction false} ReportedParityExact(t: Table, evs: seq<Event>, p: Ptr)
    requires KeysValid(t) && LegalRun(Init(t), evs)
    requires p in Run(Init(t), evs).heap.index
    ensures
      var s := Run(Init(t), evs);
      && p in s.heap.targets
      && (var cell := s.heap.targets[p];
          && (cell.id in s.table.rows ==>
                ((s.table.rows[cell.id].up != cell.up <==> ReportedFailures(s.log, cell.id) % 2 == 1)
                 <==> UpToLostReply(s.log, cell.id) % 2 == 0))
          && (NoReplyLost(s.log, cell.id) ==> UpToLostReply(s.log, cell.id) == 0))
  {
    StatusParity(t, evs, p);
    var s := Run(Init(t), evs);
    var id := s.heap.targets[p].id;
    hide *;
    ReportsSplit(s.log, id);
    if NoReplyLost(s.log, id) {
      NothingLost(s.log, id);
    }
  }

  lemma {:induction false} UpdatesFollowChanges(t: Table, evs: seq<Event>, i: nat)
    requires KeysValid(t) && LegalRun(Init(t), evs)
    requires i < |Run(Init(t), evs).log| && Run(Init(t), evs).log[i].Completed?
    ensures
      var log := Run(Init(t), evs).log;
      log[i].update.Some? <==> Status(log[..i], log[i].id) != Some(Classify(log[i].err, log[i].status))
  {
    InitValid(t);
    RunCoherent(t, Init(t), evs);
    SoundAt(t, Run(Init(t), evs).log, i);
  }

  /**
   Two writers, no interference: the surviving rows, their names, addresses and intervals are those
   of the server's statements alone; their statuses are those of the client's updates alone.
   */
  lemma {:induction false} TwoWriters(t: Table, evs: seq<Event>)
    requires KeysValid(t) && LegalRun(Init(t), evs)
    ensures
      var s := Run(Init(t), evs);
      && SameButStatus(s.table, Replay(t, ServerOnly(s.log)))
      && (forall id :: id in s.table.rows ==>
                         s.table.rows[id].up == LastUpdate(ClientUpdates(s.log), id, FirstStatus(t, id)))
  {
    InitValid(t);
    RunCoherent(t, Init(t), evs);
    var s := Run(Init(t), evs);
    ServerAlone(t, s.log);
    forall id | id in s.table.rows
      ensures s.table.rows[id].up == LastUpdate(ClientUpdates(s.log), id, FirstStatus(t, id))
    {
      ClientAlone(t, s.log, id);
    }
  }

  /** No tick starts a transfer for a target whose row has been deleted before. */
  lemma {:induction false} DeletionQuiesces(t: Table, evs: seq<Event>, i: nat, j: nat, id: int)
    requires KeysValid(t) && LegalRun(Init(t), evs)
    requires
      var log := Run(Init(t), evs).log;
      && i < j < |log| && log[i] == Served(Remove(id), true) && id in Replay(t, log[..i]).rows
    ensures
      var e := Run(Init(t), evs).log[j];
      !(e.Began? && e.id == id)
  {
    InitValid(t);
    RunCoherent(t, Init(t), evs);
    DeletedStaysQuiet(t, Run(Init(t), evs).log, i, j, id);
  }

  // ---- The hash does not change between start and stop ----

  /** The same target under the same id; its timer can only have fired. */
  ghost predicate SameTarget(h: Heap, g: Heap, p: Ptr) {
    && p in h.targets && p in g.targets
    && g.targets[p].id == h.targets[p].id
    && (g.targets[p].timer == h.targets[p].timer || g.targets[p].timer == Fired(h.targets[p].timer))
  }

  /** The same targets are indexed in the same order. */
  ghost predicate SameIndex(h: Heap, g: Heap) {
    g.index == h.index && forall p :: p in h.index ==> SameTarget(h, g, p)
  }

  lemma {:induction false} SameIndexTrans(f: Heap, g: Heap, h: Heap)
    requires SameIndex(f, g) && SameIndex(g, h)
    ensures SameIndex(f, h)
  {
  }

  lemma {:induction false} CompleteFirstSameIndex(s: State, a: Answer)
    requires s.heap.messages != [] && Working(s)
    ensures SameIndex(s.heap, CompleteFirst(s, a).heap)
  {
    IndexedTargets(s.heap);
    hide PollMirror.Valid, Ownership.Valid;
  }

  lemma {:induction false} DrainSameIndex(s: State, answers: seq<Answer>)
    requires Working(s)
    ensures SameIndex(s.heap, Drain(s, answers).heap)
    decreases |s.heap.messages|
  {
    if s.heap.messages == [] {
      IndexedTargets(s.heap);
    } else {
      var a := if answers == [] then QUIET else answers[0];
      CompleteFirstSameIndex(s, a);
      CompleteFirstKeepsWorking(s, a);
      hide Working, CompleteFirst;
      var s' := CompleteFirst(s, a);
      var rest := if answers == [] then [] else answers[1..];
      DrainSameIndex(s', rest);
      SameIndexTrans(s.heap, s'.heap, Drain(s', rest).heap);
    }
  }

  lemma {:induction false} ActionSameIndex(s: State, cbs: seq<Callback>, dones: seq<Message>, answers: seq<Answer>)
    requires EventLoop.Valid(s) && s.phase.Live? && s.loaded
    requires MessagesValid(s.heap.messages + dones, s.heap.attached)
    ensures SameIndex(s.heap, Action(s, cbs, dones, answers).heap)
  {
    hide PollMirror.Valid, Ownership.Valid, MessagesValid;
    var s' := s.(net := DeliverAll(s.net, cbs), heap := s.heap.(messages := s.heap.messages + dones));
    DeliverAllKeepsValid(s.net, cbs);
    NewMessagesKeepValid(s.heap, dones);
    DrainSameIndex(s', answers);
    IndexedTargets(s.heap);
    assert SameIndex(s.heap, s'.heap);
    SameIndexTrans(s.heap, s'.heap, Drain(s', answers).heap);
  }

  lemma {:induction false} IndexedTargets(h: Heap)
    requires Ownership.Valid(h)
    ensures forall p :: p in h.index ==> p in h.targets
    ensures forall p :: p in h.targets && h.targets[p].timer.Closing? ==> p !in h.index
  {
  }

  lemma {:induction false} StepSameIndex(s: State, ev: Event)
    requires EventLoop.Valid(s) && s.phase.Live? && s.loaded && Legal(s, ev) && !ev.StopCallback?
    ensures EventLoop.Valid(Step(s, ev))
    ensures Step(s, ev).phase.Live? && Step(s, ev).loaded && SameIndex(s.heap, Step(s, ev).heap)
  {
    hide *;
    StepKeepsValid(s, ev);
    LiveStep(s, ev);
    StepIndex(s, ev);
  }

  lemma {:induction false} LiveStep(s: State, ev: Event)
    requires Legal(s, ev) && s.phase.Live? && s.loaded && !ev.StopCallback?
    ensures Step(s, ev).phase.Live? && Step(s, ev).loaded && !Misuses(s, ev)
  {
    hide Apply;
  }

  lemma {:induction false} StepIndex(s: State, ev: Event)
    requires EventLoop.Valid(s) && s.phase.Live? && s.loaded && Legal(s, ev) && !ev.StopCallback?
    ensures SameIndex(s.heap, Step(s, ev).heap)
  {
    IndexedTargets(s.heap);
    assert SameIndex(s.heap, s.heap);
    hide PollMirror.Valid, Ownership.Valid, MessagesValid, Apply, Drain;
    match ev
    case Ready(b, failed, cbs, dones, answers) =>
      PollErrorKeepsValid(s.net, b);
      ActionSameIndex(if failed then s.(net := PollError(s.net, b)) else s, cbs, dones, answers);
    case Expire(cbs, dones, answers) =>
      TimerIrrelevant(s.net, Idle);
      ActionSameIndex(s.(net := s.net.(timer := Idle)), cbs, dones, answers);
    case Tick(p, getOk, mallocOk, attach, cbs) => TickSameIndex(s, p, getOk, mallocOk, attach, cbs);
    case CloseTarget(p) =>
      assert SameIndex(s.heap, Ownership.FreeTarget(s.heap, p));
    case _ =>
  }

  lemma {:induction false} TickSameIndex(s: State, p: Ptr, getOk: bool, mallocOk: bool, attach: Attach,
                                         cbs: seq<Callback>)
    requires p in s.heap.targets && forall q :: q in s.heap.index ==> q in s.heap.targets
    ensures SameIndex(s.heap, TargetCheck(s, p, getOk, mallocOk, attach, cbs).heap)
  {
  }

  predicate NoStop(evs: seq<Event>) {
    forall i :: 0 <= i < |evs| ==> !evs[i].StopCallback?
  }

  lemma {:induction false} IndexStable(s: State, evs: seq<Event>)
    requires EventLoop.Valid(s) && s.phase.Live? && s.loaded && LegalRun(s, evs) && NoStop(evs)
    ensures EventLoop.Valid(Run(s, evs)) && Run(s, evs).phase.Live? && Run(s, evs).loaded
    ensures SameIndex(s.heap, Run(s, evs).heap)
    decreases |evs|
  {
    if evs == [] {
      IndexedTargets(s.heap);
    } else {
      StepSameIndex(s, evs[0]);
      assert forall i :: 0 <= i < |evs[1..]| ==> evs[1..][i] == evs[i + 1];
      var s' := Step(s, evs[0]);
      IndexStable(s', evs[1..]);
      SameIndexTrans(s.heap, s'.heap, Run(s', evs[1..]).heap);
    }
  }

  ghost predicate IndexIs(h: Heap, ids: seq<int>) {
    && |h.index| == |ids|
    && (forall i :: 0 <= i < |ids| ==> h.index[i] in h.targets && h.targets[h.index[i]].id == ids[i])
  }

  /** The timers of the targets are due at once, and once they have fired they repeat at the intervals of the rows. */
  ghost predicate TimersAre(t: Table, h: Heap, ids: seq<int>) {
    && |h.index| == |ids|
    && (forall i :: 0 <= i < |ids| ==>
                      h.index[i] in h.targets && ids[i] in t.rows
                      && (var ms := t.rows[ids[i]].interval * 1000;
                          || h.targets[h.index[i]].timer == Armed(0, ms)
                          || h.targets[h.index[i]].timer == if ms == 0 then Idle else Armed(ms, ms)))
  }

  /** None has fired yet. */
  ghost predicate TimersStarted(t: Table, h: Heap, ids: seq<int>) {
    && |h.index| == |ids|
    && (forall i :: 0 <= i < |ids| ==>
                      && h.index[i] in h.targets && ids[i] in t.rows
                      && h.targets[h.index[i]].timer == Armed(0, t.rows[ids[i]].interval * 1000))
  }

  lemma {:induction false} InitTargetsIndex(s: State, done: seq<int>, ids: seq<int>)
    requires forall i :: 0 <= i < |ids| ==> ids[i] in s.table.rows
    requires IndexIs(s.heap, done) && TimersStarted(s.table, s.heap, done) && Bounded(s.heap)
    ensures IndexIs(InitTargets(s, ids).heap, done + ids)
    ensures TimersStarted(s.table, InitTargets(s, ids).heap, done + ids)
    decreases |ids|
  {
    if ids == [] {
      assert done + ids == done;
    } else {
      InitTargetsIndex(WatcherAdd(s, ids[0]), done + [ids[0]], ids[1..]);
      assert done + [ids[0]] + ids[1..] == done + ids;
    }
  }

  /** The client before it loads its targets, if there was no early stop. */
  lemma {:induction false} NoStopSoFar(s: State, evs: seq<Event>)
    requires EventLoop.Valid(s) && !s.phase.Gone? && LegalRun(s, evs) && NoStop(evs)
    ensures EventLoop.Valid(Run(s, evs)) && !Run(s, evs).phase.Gone?
    decreases |evs|
  {
    if evs != [] {
      StepKeepsValid(s, evs[0]);
      NoStopStep(s, evs[0]);
      assert forall i :: 0 <= i < |evs[1..]| ==> evs[1..][i] == evs[i + 1];
      NoStopSoFar(Step(s, evs[0]), evs[1..]);
    }
  }

  lemma {:induction false} NoStopStep(s: State, ev: Event)
    requires EventLoop.Valid(s) && Legal(s, ev) && !s.phase.Gone? && !ev.StopCallback?
    ensures !Misuses(s, ev) && !Step(s, ev).phase.Gone?
  {
    hide EventLoop.Valid, Apply;
  }

  /**
   From the start until the stop callback the hash holds the ids of the start query, in order, up
   to the first target that could not be allocated, and their timers go on as they were started.
   */
  lemma {:induction false} IndexIsSnapshot(t: Table, before: seq<Event>, getOk: bool, ids: seq<int>, inits: nat,
                                           after: seq<Event>)
    requires KeysValid(t) && LegalRun(Init(t), before + ([Load(getOk, ids, inits)] + after))
    requires NoStop(before) && NoStop(after)
    ensures inits <= |ids|
    ensures
      var h := Run(Init(t), before + ([Load(getOk, ids, inits)] + after)).heap;
      var expected := if getOk then ids[..inits] else [];
      && IndexIs(h, expected)
      && LegalRun(Init(t), before) && TimersAre(Run(Init(t), before).table, h, expected)
  {
    InitValid(t);
    RunAppend(Init(t), before, [Load(getOk, ids, inits)] + after);
    NoStopSoFar(Init(t), before);
    LoadedIndex(Run(Init(t), before), getOk, ids, inits, after);
  }

  lemma {:induction false} LoadedIndex(s: State, getOk: bool, ids: seq<int>, inits: nat, after: seq<Event>)
    requires EventLoop.Valid(s) && !s.phase.Gone? && LegalRun(s, [Load(getOk, ids, inits)] + after) && NoStop(after)
    ensures inits <= |ids|
    ensures
      var e := Run(s, [Load(getOk, ids, inits)] + after);
      var expected := if getOk then ids[..inits] else [];
      && IndexIs(e.heap, expected) && TimersAre(s.table, e.heap, expected)
      && EventLoop.Valid(e) && e.phase.Live? && e.loaded
  {
    var load := Load(getOk, ids, inits);
    assert ([load] + after)[0] == load && ([load] + after)[1..] == after;
    StepKeepsValid(s, load);
    var expected := if getOk then ids[..inits] else [];
    LoadIndex(s, getOk, ids, inits);
    var s' := Step(s, load);
    IndexStable(s', after);
    hide LegalRun, Run, Legal, Step, EventLoop.Valid;
    SameIndexKeeps(s.table, s'.heap, Run(s', after).heap, expected);
  }

  lemma {:induction false} LoadIndex(s: State, getOk: bool, ids: seq<int>, inits: nat)
    requires EventLoop.Valid(s) && Legal(s, Load(getOk, ids, inits))
    ensures inits <= |ids|
    ensures
      var h := LoadTargets(s, getOk, ids, inits).heap;
      var expected := if getOk then ids[..inits] else [];
      IndexIs(h, expected) && TimersStarted(s.table, h, expected)
  {
    assert s.heap.index == [];
    if getOk {
      InitTargetsIndex(s.(loaded := true, clientRuns := true), [], ids[..inits]);
      assert [] + ids[..inits] == ids[..inits];
    }
  }

  lemma {:induction false} SameIndexKeeps(t: Table, h: Heap, g: Heap, ids: seq<int>)
    requires SameIndex(h, g) && IndexIs(h, ids) && TimersStarted(t, h, ids)
    ensures IndexIs(g, ids) && TimersAre(t, g, ids)
  {
    assert forall i :: 0 <= i < |ids| ==> h.index[i] in h.index && SameTarget(h, g, h.index[i]);
  }
}
