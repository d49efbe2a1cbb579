# Reachard, verified

Reachard watches a list of targets. A client thread runs a libuv loop in which every target owns a
timer; a tick asks PostgreSQL for the target's row and gives libcurl a HEAD request; the result is
remembered and, when it changed, stored. A second thread serves an HTTP API that changes the same
table. This project models that program in Dafny and proves what holds over all of its runs.

`dafny verify dfyconfig.toml` checks everything.

## How the model is built

Code that changes state is modelled twice: as a step function on a value (`PollMirror`,
`Ownership`, `EventLoop`, `Migrations`, `Request`) and as a class whose methods take the source's
own steps (`CurlState`, `Watcher`, `Migrator`, `Handlers`, `Store.Database`,
`Upload.UploadData`). Each method is proved to do exactly what its step function says; the
theorems are about runs of the steps.

| file | what it holds |
|---|---|
| `PollMirror`, `CurlState` | curl's socket and timer callbacks, the polls and their batons |
| `Ownership` | targets, transfer records and easy handles on an explicit heap |
| `EventLoop`, `Watcher` | the whole client: every callback, operation and server statement as one event |
| `Flights` | transfers counted per target: begun, completed, in flight |
| `Coherence` | the client's memory against the table with two writers |
| `Shutdown` | what stopping achieves from every reachable state |
| `Table`, `PatchBody` | the targets as records, and the list PATCH builds |
| `Decimal`, `Query`, `Store` | numbers as text, the UPDATE builder, rows as text, the statements |
| `Migrations`, `Migrator`, `Generator` | the migration runner and the header it is compiled with |
| `Url`, `Upload`, `Request`, `Handlers` | one HTTP request from its URL to the table |
| `Wrappers`, `Sequences` | helpers |

A heap is a map from pointers to what is allocated there; freeing removes the key. `fault` is set
by a step that would use, free or close something that is not there, start a closed timer, or poll
a descriptor that is watched already. In the classes the same demands are preconditions, so that a
method only verifies if they cannot be violated.

Every lemma is marked `{:induction false}`: all inductions are written out.

### What the libraries may do

These rules are the assumptions of the theorems (`EventLoop.Legal`, `Request.Legal`,
`Migrations.Exec`).

- A callback and a database statement are one step each; steps of the threads interleave freely,
  and the client may be stopped at any time. By then the server has been stopped
  (src/main.c:96-97), so no statement of its follows. The start takes two steps: it prepares its
  state, and it queries the rows and goes through them in a loop that waits for nothing.
- A step that uses, frees or closes what is not there, or a multi handle that was not created or
  has been cleaned up, faults, and what the program does from then on is not defined.
- libuv runs a timer, poll or close callback only for a handle in the matching state and only
  while some thread runs the loop; a close callback comes after the call that closed the handle,
  once. It stops a one-shot timer before calling back, and stops a poll that reports an error. A
  loop is left only when nothing in it is active or closing. All libuv calls succeed.
- curl calls back about sockets and its timer whenever it is called, in any number and order. It
  does not keep a first request whose callback answered -1. It reports only attached handles, each
  at most once. Cleaning up the multi handle withdraws its interest in every socket.
- Allocations, queries and `curl_easy_init` may fail at any time, and curl may refuse a handle.
- PostgreSQL's transactions are atomic; a statement works, is refused, or the connection is lost
  before or after it took effect. So a statement that changes the targets has an effect and a
  report (`Table.Reply`): a lost reply is reported like a refusal. While migrating, the process can
  be lost too. A serial column never gives a number twice.
- libmicrohttpd calls with the headers first, then with non-empty pieces of the body, then once
  without; not again after a response was queued or MHD_NO returned.

### As written

The model keeps what the code does where that differs from what it is for:

- Stopping goes well in every interleaving exactly when, at the moment the flag is read, the client
  thread has loaded its targets and either the loop has been left or some target in the hash
  repeats, or when the client thread has prepared its state and the table is empty
  (`Shutdown.StopCallExact`). Nothing makes the program wait for that.
- Called before the start has prepared or loaded, the stop runs the loop in the main thread; there
  the shutdown callback uses a multi handle that was never created, or, if there is a row, the
  client thread gives curl one that has been cleaned up (`Shutdown.StopBeforePrepareFaults`,
  `Shutdown.StopBeforeLoadFaults`; `EventLoop.RunFaultsExactly` shows that nothing else faults).
- Called later, the stop can miss the loop, as the flag is read before the request is sent:
  `Shutdown.MissExact` says exactly when, `Shutdown.StopCanMiss` gives a whole run.
- After a lost reply the number of failed updates need not tell whether memory and row differ
  (`Coherence.ReportedParityExact`), and a 500 may stand for a statement that took effect.
- Records whose transfers are under way at the stop are never freed
  (`Shutdown.ShutdownLeavesRecords`), nor are those curl does not take
  (`EventLoop.TickLosesExactly`).
- Deleting a target with a transfer in flight leaves a dangling pointer
  (`EventLoop.WatcherDeleteExact`, `EventLoop.WatcherDeleteInFlightFaults`). `watcher_add` and
  `watcher_delete` have no caller.
- The result of the version update is not looked at: a run can report success with a migration
  missing (`Migrations.SuccessExact`, `Migrations.GapReported`, `Store.GapBreaksFields`).
- A body that comes in several pieces is stored piece over piece (`Upload.AccumulatedExact`).
- An update without fields damages its own keyword and is refused (`Query.SeparatorGone`,
  `Query.QueryReadsBack`). It also declares an array of no elements for the parameters
  (src/database/targets.c:222), which C does not define; the model goes on to the refusal.
- Twelve digits in a URL leave no room for the terminator (`Url.IdTextExact`).
- An insert that is not acknowledged is answered with id 1 (`Store.Database.TargetsAdd`).
- A file named `.sql` makes the generated header refer to an array that does not exist
  (`Generator.UnnumberedFileBreaks`).

## Model

| member | source | states |
|---|---|---|
| `PollMirror.DeliverKeepsValid` | src/client/state.c:126-194 | one socket or timer callback of curl, with or without memory, keeps: one open baton per socket curl is interested in, polled as curl asked; all other batons stopped and closing; none lost |
| `PollMirror.BatonsConserved` | src/client/state.c:93-99 | batons allocated are those live, closing and freed, and none is freed twice |
| `PollMirror.WatchingIsInterest` | src/client/state.c:143-160 | libuv watches what curl last asked for on every socket without an unanswered error and nothing else; assigned batons are distinct and each is for its own socket |
| `PollMirror.NetRunKeepsValid` | src/client/state.c:88-194 | every run keeps the mirror, and curl's interest is the last request per socket, read off the run alone |
| `PollMirror.MirrorsEveryRun` | src/client/state.c:88-169 | from an empty loop, after any sequence of requests, errors and close callbacks, the descriptors and events libuv watches are the last requests; live batons number the sockets; live, closing and freed add up to those allocated; no step faults |
| `PollMirror.RequestWatched` | src/client/state.c:148-166 | after one request its socket is watched for reading, writing, both or not at all, as asked, and every other socket as before; without memory for a first request nothing changes |
| `PollMirror.TimerFollowsEveryRun` | src/client/state.c:183-194 | after every run the timer is running if and only if the last time-out curl asked for is 0 or more, it is due then, and once |
| `PollMirror.LiveBatonsCount` | src/client/state.c:140-145 | one live baton for each socket of interest |
| `PollMirror.DescriptorReused` | src/client/state.c:159-164 | a run in which a descriptor is watched through a new baton while the old one is still closing |
| `CurlState.CurlState.SocketFunction` | src/client/state.c:126-169 | the callback faults nowhere, returns 0 or -1, and does what the step function says to batons, polls and curl's pointers |
| `CurlState.CurlState.TimerFunction` | src/client/state.c:183-194 | restarts or stops the one timer, which is never closed at that point |
| `CurlState.CurlState.SocketDeinit` | src/client/state.c:94-99 | frees exactly the closing baton it is called for |
| `CurlState.CurlState.CallCurl` | src/client/state.c:121-122 | any number of callbacks made during one call into curl, one after the other |
| `Ownership.BeginTransferKeepsValid` | src/client/targets.c:94-110 | a new record and handle keep: attached handles have a record of their own whose target is in the hash; overlapping transfers of one target included |
| `Ownership.FinishTransferKeepsValid` | src/client/state.c:75-84 | a reported handle has a readable record and target; freeing record and handle keeps the ownership invariant |
| `Ownership.BeginTransferExact` | src/client/targets.c:94-110 | if curl takes the handle, exactly one is new, its record is for the target whose timer ticked, and every other handle keeps its target |
| `Ownership.FinishTransferExact` | src/client/state.c:75-84 | exactly the reported handle and its record go, exactly its target remembers the status, and every other handle keeps its target |
| `Ownership.FireTimerExact` | src/client/targets.c:133-134 | a timer that fires is due again after its period, or not at all, and no other target changes |
| `Ownership.ClassifyExact` | src/client/targets.c:52-60 | up if and only if there was no error and the status is of the 200s |
| `Ownership.DropTargetExact` | src/client/targets.c:146-150 | closing a target's timer keeps the invariant exactly when none of its transfers is in flight |
| `Ownership.DropAllTargetsMeaning` | src/client/watcher.c:125-128 | the teardown loop empties the hash, closes every timer once, and changes nothing else |
| `Ownership.FreeEasiesMeaning` | src/client/state.c:214-219 | the loop over the handles detaches and frees exactly those listed |
| `EventLoop.SetStatusIsUpdate` | src/client/targets.c:66-69 | storing a status is an update of the field `up` of that one row |
| `EventLoop.ApplyMeaning` | src/server/handle/targets.c:36-170 | no server statement changes the status of a row that stays, new rows are up, and the sequence only grows |
| `EventLoop.ExecutedExact` | src/server/handle/targets.c:36-235 | a statement that takes effect deletes exactly the row of its id, adds exactly one row with the given fields under a fresh id, or changes exactly the given fields of one row; a rejected one changes nothing |
| `EventLoop.CompleteFirstKeepsWorking` | src/client/state.c:70-85 | each turn of the drain loop keeps both invariants while messages are still unread |
| `EventLoop.ActionKeepsValid` | src/client/state.c:121-123 | a call into curl followed by the drain loop keeps the invariant and leaves no message |
| `EventLoop.WatcherStopKeepsValid` | src/client/watcher.c:121-131 | the shutdown callback keeps the invariant and closes curl's timer |
| `EventLoop.StoppedHeap` | src/client/state.c:210-228 | after the shutdown callback the hash and the multi handle are empty, every target waits for its close callback, every easy handle curl could list is freed, and every record is still there |
| `EventLoop.StepKeepsValid` | src/client/client.c:51-102 | every event of the client, of curl, of libuv, of the main thread and of the server keeps the invariant of heap, polls, table and phases or faults, and it faults if and only if it is the shutdown callback before the multi handle was created or a tick that gets to curl after it was cleaned up |
| `EventLoop.RunKeepsValid` | src/client/client.c:51-102 | every run, with the stop called at any time, ends in a valid state or with a step that faulted |
| `EventLoop.RunFaultsExactly` | src/client/client.c:78-102 | a run faults if and only if its last event is one of those two |
| `EventLoop.EveryRunIsSafe` | src/client/targets.c:36-113 | over every interleaving: no use after free, double free, double close, restart of a closed timer or use of curl out of its time if the stop is called after the targets were loaded; and in every run up to a fault: attached handles have live records with live targets, a record that is not lost is read by exactly one handle, libuv watches what curl asked for, batons are conserved |
| `EventLoop.TickLosesExactly` | src/client/targets.c:84-107 | while curl is up, a tick loses a record exactly when it got as far as curl and curl did not take the handle, and attaches one exactly when it did |
| `EventLoop.WatcherAddKeepsValid` | src/client/watcher.c:84-104 | adding a target keeps the invariant |
| `EventLoop.WatcherDeleteExact` | src/client/watcher.c:107-118 | deleting the found target keeps the invariant if and only if no transfer of it is in flight |
| `EventLoop.WatcherDeleteInFlightFaults` | src/client/watcher.c:107-118 | with a transfer in flight, the loop running and curl callable from it (its timer armed or a poll started), there is a legal run in which the completion reads freed memory |
| `Shutdown.StoppedStep` | src/client/client.c:78-85 | after the shutdown callback the loop runs close callbacks only, each leaves one open handle fewer, it is left only when none remains, and curl's timer is not started again |
| `Shutdown.StoppedRun` | src/client/client.c:97-99 | over every run after it the open handles count down by exactly the close callbacks run, and records and easy handles stay as they are |
| `Shutdown.StoppedDrains` | src/client/client.c:97-99 | from every such state of a client that has loaded its targets close callbacks lead to an empty loop |
| `Shutdown.StopCanRun` | src/client/client.c:92-95 | a queued request can always be served while some thread runs the loop |
| `Shutdown.QueuedOutcome` | src/client/client.c:92-99 | once the request is queued behind loaded targets, the loop can end drained if and only if some thread runs it |
| `Shutdown.StopNeverSticks` | src/client/client.c:92-101 | from then on no legal run faults or gets out of reach of the drained state, and a loop that is left is drained |
| `Shutdown.StopDrains` | src/client/client.c:88-102 | in any reachable state with loaded targets, the loop alive or already left, a stop that sends its request right after reading the flag never faults and never gets out of reach of an empty hash, multi handle and loop |
| `Shutdown.StopExact` | src/client/client.c:92-99 | from the request on every continuation is free of faults and can be drained if and only if the targets have been loaded and the client thread is in the loop or the flag had been read as false, or they have not been loaded, the state is prepared and the table is empty |
| `Shutdown.StopCallExact` | src/client/client.c:88-102 | stopping in any reachable state, before, during or after the start: no continuation faults, and every one that has sent the request can be drained, if and only if the targets have been loaded and the loop is not alive or some target in the hash repeats, or they have not been loaded, the state is prepared and the table is empty |
| `Shutdown.MissExact` | src/client/client.c:90-99 | with the flag read as true and the client thread in the loop: every later request can be drained if and only if some target in the hash has an armed timer with a period other than 0 |
| `Shutdown.UnloadedFaults` | src/client/client.c:90-99 | a request sent before the targets were loaded can end in a fault, from the unprepared state always and from the prepared one if the table has a row |
| `Shutdown.TargetlessSound` | src/client/watcher.c:64-77 | with an empty table and the state prepared, no continuation of the stop faults and every one that has sent the request can be drained |
| `Shutdown.StopBeforePrepareFaults` | src/client/state.c:211-227 | from every table, a run from the very beginning in which the stop comes before the curl state is prepared and faults |
| `Shutdown.StopBeforeLoadFaults` | src/client/watcher.c:55-77 | from every table with a row, a run from the very beginning in which the stop comes while the start waits for its rows and faults |
| `Shutdown.RepeatingTargetStops` | src/client/targets.c:133-134 | with any loaded target whose interval is not 0 the stop goes well however long ago the flag was read |
| `Shutdown.StopCanMiss` | src/client/client.c:90-99 | a complete run that misses: one target of interval 0 ticks between the flag and the request; the loop is never drained |
| `Shutdown.ShutdownLeavesRecords` | src/client/state.c:211-219 | the records of transfers under way at the stop are never freed, while every listed easy handle is |
| `Shutdown.DrainedLedger` | src/client/state.c:93-99 | a drained client has freed every baton once and every target; what it has not freed are exactly the records lost in ticks and those of the transfers under way at the stop, counted |
| `Coherence.NeverReissued` | src/database/migrations/2.sql:22-25 | an id that was given out and has no row never has one again |
| `Coherence.StatusParity` | src/client/targets.c:52-72 | for every watched target memory is the classification of what curl and the server reported last, and differs from a row that still exists if and only if an odd number of updates had no effect since the last that had one or the start |
| `Coherence.ReportsSplit` | src/client/targets.c:66-71 | the updates reported as failed are those up to the last lost reply and those without effect after it |
| `Coherence.ReportedParityExact` | src/client/targets.c:66-71 | the parity of the updates reported as failed tells whether memory and row differ if and only if an even number of them go up to the last lost reply, so whenever no reply was lost |
| `Coherence.UpdatesFollowChanges` | src/client/targets.c:62-72 | a status is sent to the database if and only if it differs from the one before |
| `Coherence.ServerAlone` | src/server/handle/targets.c:132-160 | dropping all client statements from a history changes nothing but statuses |
| `Coherence.ClientAlone` | src/client/targets.c:66-69 | the status of a surviving row is the last one the client stored under its id, acknowledged or not, or the one it began with; updates to stale ids change no other row |
| `Coherence.TwoWriters` | src/client/targets.c:66-69 | over every interleaving, lost replies included, rows, names, addresses and intervals are those of the server's effective statements alone and statuses those of the client's effective updates alone |
| `Coherence.DeletionQuiesces` | src/client/targets.c:84-92 | once a row has been deleted no later tick begins a transfer for it |
| `Coherence.IndexStable` | src/client/watcher.c:55-81 | between start and stop the hash holds the same targets under the same ids, and repeating timers go on unchanged |
| `Coherence.IndexIsSnapshot` | src/client/watcher.c:58-77 | it holds the ids of the start query in order, or the prefix before the first target that could not be allocated, each with a timer of its row's interval |
| `Coherence.RunCoherent` | src/client/targets.c:36-113 | every run keeps, even through a fault: the table is the replay of the log, the log is sound, memory agrees with both |
| `Flights.TransfersConserved` | src/client/targets.c:36-113 | over every run and for every id: transfers begun are those completed and those in flight, until the shutdown interrupts these, and at no time have more completed than begun |
| `Flights.CallbackHandlesAll` | src/client/state.c:66-86 | a poll or timer callback records every completion curl reports in it once, in order and for its own target, detaches and frees exactly those handles, and leaves no message |
| `Watcher.Watcher.TargetInit` | src/client/targets.c:115-137 | a target with the row's id and status and a timer of 1000 times the interval that is due at once |
| `Watcher.Watcher.TargetCheck` | src/client/targets.c:77-113 | the timer callback is the tick event, short of the tick that faults: nothing without a row, a statement or memory; otherwise one record and one handle |
| `Watcher.Watcher.TransferComplete` | src/client/targets.c:36-75 | new status, one update attempt on a change and none otherwise, whatever is reported of it, record freed; both pointers it follows are live |
| `Watcher.Watcher.CheckCompleted` | src/client/state.c:66-86 | the drain loop handles every message once and in order, whatever is queued |
| `Watcher.Watcher.OnPoll` | src/client/state.c:101-124 | curl is told of the socket the baton was assigned to, with the reported events or an error, and completions are drained |
| `Watcher.Watcher.OnTimeout` | src/client/state.c:171-177 | the curl timer's callback is the expiry event |
| `Watcher.Watcher.StateClear` | src/client/state.c:210-228 | detaches and frees every listed handle, cleans up, closes the timer |
| `Watcher.Watcher.StatePrepare` | src/client/state.c:197-207 | creates multi handle and timer: the event `Prepare` |
| `Watcher.Watcher.QueryAndLoad` | src/client/watcher.c:58-80 | the event `Load`: returns 0 if and only if the query worked and every target could be allocated; loads the prefix before the first failure, also into a hash that has been stopped before |
| `Watcher.Watcher.WatcherStart` | src/client/watcher.c:54-81 | both, undisturbed |
| `Watcher.Watcher.WatcherAdd` | src/client/watcher.c:84-104 | succeeds if and only if the row exists and query and allocation worked, and is then the step `WatcherAdd` |
| `Watcher.Watcher.WatcherDelete` | src/client/watcher.c:107-118 | drops the found target, and leaves the invariant intact if and only if it has no transfer in flight |
| `Watcher.Watcher.WatcherStop` | src/client/watcher.c:121-131 | the targets in order, then the curl state |
| `Watcher.Watcher.UvRun` | src/client/client.c:97-99 | run from the request on, the loop serves it and terminates with nothing left in it but the records of interrupted transfers |
| `Watcher.Watcher.ClientStop` | src/client/client.c:88-102 | a live loop is left with the request queued and its thread inside it, from where it can be drained; any other loop is run here until it is empty, which is the end exactly if the targets had been loaded; before the curl state is prepared it gets as far as the callback that misuses the multi handle |
| `Table.AssignKeeps` | src/database/targets.c:204-217 | an update that names neither key nor status leaves both alone |
| `Table.DeleteExact` | src/database/targets.c:96-117 | a delete takes away exactly the row of its id |
| `Table.InsertExact` | src/database/targets.c:76-81 | an insert adds exactly one row, with the given fields and up, under a number never given out |
| `Table.UpdateFrame` | src/database/targets.c:220 | an update that does not name the key changes at most the row of its id |
| `PatchBody.BuildPatchKvs` | src/server/handle/targets.c:132-154 | the list the handler pushes is the specified one |
| `PatchBody.PatchKvsMeaning` | src/server/handle/targets.c:132-154 | every such list is typed, has distinct keys from name, url and interval, and replaces exactly the fields the body gave |
| `Decimal.AtoiPrinted` | src/database/macros.c:41-61 | reading a printed number gives it back, also in front of other text |
| `Decimal.FitsBuffer` | src/utils/constants.h:29 | text and terminator fit 12 bytes exactly for numbers between -10^10 and 10^11 |
| `Decimal.IntsFit` | src/database/macros.c:58-61 | so every 32-bit int fits and reads back, and the smallest fills the buffer |
| `Decimal.EncodeNumber` | src/database/macros.c:57-61 | the buffer holds the printed number, cut off only if it does not fit, which no int does |
| `Query.BuildQuery` | src/database/targets.c:204-220 | the loop, the overwritten byte and the tail give the query text |
| `Query.SeparatorGone` | src/database/targets.c:217-218 | the overwrite hits the comma of the last separator and nothing else; without fields it hits the keyword |
| `Query.QueryReadsBack` | src/database/targets.c:207-220 | the text reads back as one UPDATE of that id whose i-th assignment gives placeholder i to the i-th key's column, if and only if there is a key |
| `Query.QueryExample` | src/database/targets.c:207-220 | one query of two keys, letter by letter |
| `Query.EncodeCall` | src/database/macros.h:68-74 | one case of the switch: the parameter shows the value, and nothing shown through another buffer changes |
| `Query.EncodeParams` | src/database/targets.c:222-231 | after the loop a parameter shows the value last written to its buffer |
| `Query.OwnValuesExactly` | src/database/targets.c:222-231 | every parameter shows its own value if and only if no numeric key is given two values, so for all distinct keys |
| `Query.TextExact` | src/database/macros.c:52-66 | a text is sent as it is, a number reads back, a status is t or f |
| `Store.MigratedFieldsAgree` | src/database/targets.h:31-36 | after the migrations every field's index, name and codec is its column's, and the defaults are those the insert relies on |
| `Store.UpgradeFrom2` | src/database/migrations/3.sql:22-27 | rows of version 2 survive with their values, get the example address, interval 5 and up |
| `Store.MigrationGivesFields` | src/database/migrate.c:128-149 | after any interrupted runs and a successful one of the four migrations the columns are those of the fields |
| `Store.GapBreaksFields` | src/database/migrate.c:107-111 | with a refused version update a run can report success and leave columns the program misreads |
| `Store.ParsesRecord` | src/database/targets.c:37-40 | parsing a row's texts by position gives the record the row stands for |
| `Store.UpdateMeansRecordUpdate` | src/database/targets.c:194-249 | executing the built query with the encoded parameters fails or succeeds with the record update of exactly that row, and gives its table |
| `Store.UpdateOutcome` | src/database/targets.c:194-249 | for any list of typed keys the statement is accepted if and only if there is a key, none twice, and no key value is taken |
| `Store.InsertMeansRecordInsert` | src/database/targets.c:73-81 | the insert adds one row with the given fields, up, and the next number of the sequence |
| `Store.Database.TargetsAdd` | src/database/targets.c:63-94 | an effective insert adds the record under a fresh id; that id is returned if it is acknowledged, else 1; a refused one changes nothing |
| `Store.Database.TargetsDelete` | src/database/targets.c:96-117 | an effective delete removes that row and keeps every other with its record; 0 is returned if and only if it is acknowledged |
| `Store.Database.TargetsGet` | src/database/targets.c:119-153 | finds a row if and only if it exists and returns its record |
| `Store.Database.TargetsGetAll` | src/database/targets.c:155-192 | returns every record once, strictly increasing by id |
| `Store.Database.TargetsUpdate` | src/database/targets.c:194-249 | the record update if and only if there is a field, none twice, no key is taken and the statement takes effect; 0 if it is also acknowledged |
| `Migrations.ApplyOnGood` | src/database/migrate.c:81-125 | one migration is committed whole with its version or not at all, and reports success only if committed, unless the version update was refused |
| `Migrations.RunOnGood` | src/database/migrate.c:128-149 | whatever is refused or lost at whatever statement, short of a version update, the committed state is migrations 1..j with version j, j never below the start, and all of them after success |
| `Migrations.RunsOnGood` | src/database/migrate.c:36-149 | the same over any number of runs |
| `Migrations.Resumes` | src/database/migrate.c:36-78 | interrupted runs followed by a successful one commit what one clean run commits, each migration once; further runs change nothing |
| `Migrations.AlwaysResumable` | src/database/migrate.c:128-149 | after any interrupted runs an undisturbed one succeeds and commits all migrations |
| `Migrations.ReportExact` | src/database/migrate.c:36-149 | from a database with k migrations a run reports success if and only if it could look for the version and read it and every migration above k went through, its version update not lost |
| `Migrations.RefusedStaysOut` | src/database/migrate.c:107-118 | a migration whose version update is refused is in no state a run commits |
| `Migrations.SuccessExact` | src/database/migrate.c:107-118 | a run that reports success has migrated fully if and only if none of its version updates was refused |
| `Migrations.GapReported` | src/database/migrate.c:107-118 | a run that reports success at version 4 with migration 3 missing |
| `Migrator.Connection.GetSchemaVersion` | src/database/migrate.c:36-78 | the version, 0 without a table, or -1; a table without rows loses the process |
| `Migrator.Connection.ApplyMigration` | src/database/migrate.c:80-125 | the four statements, one of them unchecked |
| `Migrator.Connection.Migrate` | src/database/migrate.c:127-149 | the version loop is the specified run |
| `Generator.Generate` | generators/migrations.c:82-111 | the directory loop and the index loop write a definition per migration and a slot per counted file |
| `Generator.DefinitionsMeaning` | generators/migrations.c:84-103 | there is a definition exactly for the regular files whose names match |
| `Generator.IsMigrationExact` | generators/migrations.c:76-92 | a migration is a regular file named by digits, or none, and .sql |
| `Generator.CountExact` | generators/migrations.c:102-111 | the count is the number of migrations in the directory, and the slots are numbered from 1 to it |
| `Generator.CompilesExact` | generators/migrations.c:94-109 | every slot has its array and none is defined twice if and only if the n files are numbered 1 to n, each once |
| `Generator.OrderDoesNotMatter` | generators/migrations.c:84-111 | two listings of one directory give the same table, size and definitions |
| `Generator.TableIsByNumber` | generators/migrations.c:105-109 | in a header that compiles, index v is the one file with number v |
| `Generator.UnnumberedFileBreaks` | generators/migrations.c:76-94 | a file named just `.sql` is counted and breaks the header |
| `Generator.NamedByNumber` | generators/migrations.c:94 | a file named by a positive int has that number |
| `Url.MatchExact` | src/server/handle.c:87-88 | the expression accepts exactly `/targets/` and `/targets/` with 1 to 12 digits and a slash |
| `Url.TargetsUrlExact` | src/server/handle.c:86-88 | the accepted addresses, spelt out |
| `Url.IdDigitsAreTheGroup` | src/server/handle.c:107-108 | the second group is those digits and can be nothing else |
| `Url.IdTextExact` | src/server/handle.c:106-109 | what `atoi` reads is independent of the memory behind the buffer if and only if there are fewer than 12 digits |
| `Url.Match` | src/server/handle.c:90-115 | if the pattern compiles, matches exactly those URLs and stores the digits' value, or 0 without digits; else no match |
| `Url.UrlRoundTrip` | src/server/handle.c:86-115 | the URL built from a positive id matches and only that id can be stored |
| `Upload.AccumulatedShape` | src/server/handle.c:61-84 | the size is the sum of the pieces with a terminator there, and the buffer begins with the last piece |
| `Upload.AccumulatedExact` | src/server/handle.c:73-77 | the buffer is sure to hold the body if and only if it came in at most one piece |
| `Upload.AppendedIsConcat` | src/server/handle.c:73-77 | copying to the old size would give the body for every way of cutting it |
| `Upload.UploadData.Upload` | src/server/handle.c:61-84 | growing, copying and terminating in place is the step `Accumulate`; without memory the data is gone and MHD_NO returned |
| `Request.HandleKeepsValid` | src/server/handle.c:134-158 | every call finds a handler set, keeps it and the id, and the last call answers |
| `Request.FirstCallExact` | src/server/handle/targets.c:237-265 | method by method, with and without an id: which handler the first call chooses, or that it answers with none, or not at all without memory |
| `Request.LaterCallExact` | src/server/handle/targets.c:115-117 | a piece of a PATCH or POST body is kept, any other later call runs the handler with the id and answers |
| `Request.DrivenIsLegal` | src/server/handle.c:144-157 | no sequence of calls follows the handler pointer before it is set |
| `Request.RequestProtocol` | src/server/handle/targets.c:237-265 | over every sequence: the handler is chosen once from method and id, get-one, DELETE and PATCH run only with an id that is not 0, at most one response is attempted, and exactly one if the last call is reached |
| `Request.Routed` | src/server/handle/targets.c:237-265 | for the URL of an id: GET, DELETE and PATCH that run to their end run the handler of their name once with that id, POST the one that adds; any other method is answered in the first call |
| `Request.CollectionRouted` | src/server/handle/targets.c:245-264 | for the URL without an id: GET lists all, POST adds; any other method, DELETE and PATCH included, is answered in the first call |
| `Request.BodyArrives` | src/server/handle/targets.c:115-124 | when a PATCH or POST handler runs, the buffer is what the pieces accumulate to, and the body itself if it came in one piece |
| `Handlers.PatchedTable` | src/server/handle/targets.c:132-160 | the PATCH list updates the given fields of that one row and never fails for a taken key |
| `Handlers.TargetHandlers.Delete` | src/server/handle/targets.c:36-50 | 200 exactly if acknowledged, and the row is gone exactly if the statement took effect |
| `Handlers.TargetHandlers.Get` | src/server/handle/targets.c:52-77 | 200 with the record if it exists, else 500 |
| `Handlers.TargetHandlers.GetAll` | src/server/handle/targets.c:79-108 | 200 with all records by id, or 500 |
| `Handlers.TargetHandlers.Patch` | src/server/handle/targets.c:110-172 | 400 exactly for a body that is no JSON, 200 exactly if the body gives a field and the update is acknowledged; the given fields of that row change exactly if it takes effect |
| `Handlers.TargetHandlers.Post` | src/server/handle/targets.c:174-235 | 400 without change for a missing or mistyped field; else one new row, interval 5 unless given, if the insert takes effect, and its id if it is acknowledged |
| `Handlers.RequestHandler.HandleFirst` | src/server/handle.c:117-132 | matches the URL, if the pattern compiles, and chooses the handler by the ladder of methods; answers 400 if there is none |
| `Handlers.TargetHandlers.Handle` | src/server/handle.c:157 | the chosen handler changes the table as the statement it stands for does, or not at all, and its answer has the status and the contents that its outcome calls for |
| `Handlers.RequestHandler.HandleLater` | src/server/handle.c:156-157 | keeps a piece of the body, or runs the chosen handler on the id and the parsed buffer and gives its answer |
| `Handlers.RequestToTable` | src/server/handle/targets.c:237-265 | from the calls to the table: a complete request for the URL of an id, its body in at most one piece, executes the very statement on that id that its method and parsed body stand for, or none for GET, a missing field or a body that is no JSON |
| `Handlers.CollectionToTable` | src/server/handle/targets.c:174-235 | and for the URL without an id: POST inserts the name, address and interval, or 5, of its parsed body if these are of the right kinds, and nothing otherwise |

## Left out

- Url.Match: the id is unspecified for 12 digits and for values outside a 32-bit int, where `atoi` has no defined result.
- Url.UrlRoundTrip: positive 32-bit ids only; the pattern has no sign.
- Shutdown.StopDrains: assumes that no callback runs between reading the flag and sending the request, and that the targets are loaded; Shutdown.StopCallExact is about every stop.
- Shutdown.StopCallExact: that the loop can be drained means that close callbacks lead there from every continuation; that libuv gets round to them is not proved.
- Handlers.TargetHandlers.Post: requires the next serial number to fit an int.
- Store.Database.TargetsAdd: a refused insert still uses up a number of the sequence; that is the parameter `skip` of the next one.
- Store.UpgradeFrom2: the address column is added, filled and made mandatory in one step, since no statement of the program runs between.
- Coherence.TwoWriters: an UPDATE is one step, so that two UPDATEs of a row do not overlap. Statements may work again after a reply was lost; the program never reconnects (src/database/database.c:37-70), so its runs are some of those.
- Watcher.Watcher.WatcherDelete: which of several targets with one id the hash finds is a parameter.
- Watcher.Watcher.TargetInit: `interval * 1000` is taken as a product of integers; intervals for which it is no int are not modelled.
- EventLoop.StepKeepsValid: leaving the loop is one step for whichever threads are in it; so are the query of the start and the loop over its rows, in the middle of which no other thread acts.
- Watcher.Watcher.ClientStop: sequential; the interleavings of the stop are those of EventLoop.Step.
- Migrations.RunOnGood: the texts of the migrations are opaque; Store.MigrationGivesFields adds the columns of migrations 2 to 4. Two programs migrating at once are not modelled.
- PollMirror.MirrorsEveryRun: a first request that is answered with -1 for lack of memory is not one that curl keeps.
- Request.RequestProtocol: a failed `realloc` ends the request without a response, as MHD_NO does.
- Handlers.RequestToTable: bodies in several pieces are the matter of Upload.AccumulatedExact; what the JSON parser makes of a text is a parameter.
- Interiors of libcurl, libuv, libpq, libmicrohttpd, uthash and cJSON; JSON text, so that handlers start from a parsed object and answer with data.
- Limits of the columns (VARCHAR(255), encodings, time-outs): a statement PostgreSQL refuses for them is a refused statement.
- Unsigned wrap-around of buffer sizes, and data races within a callback.
- Signal handling, configuration, logging, time stamps, `main`, server start and stop, building of response texts.
