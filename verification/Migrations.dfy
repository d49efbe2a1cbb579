/**
 The migration runner against a transactional database (src/database/migrate.c,
 src/database/migrations/1.sql:22-26).

 A database state is the list of migrations applied to an empty database, in order, and the rows
 of the version table; whatever the migrations do is a function of that list.
 */
module Migrations {
  import opened Decimal
  import opened Query
  import opened Table
  import opened Wrappers

  datatype Db = Db(applied: seq<nat>, version: Option<seq<int>>)

  datatype Stmt = FindTable | ReadVersion | Begin(v: nat) | Script(v: nat) | SetVersion(v: nat) | End(v: nat)

  /**
   What becomes of a statement: it works, PostgreSQL refuses it, or the connection or the process
   is lost before or after PostgreSQL has done it.
   */
  datatype Outcome = Fine | Refused | LostBefore | LostAfter

  type Fate = Stmt -> Outcome

  /** The open transaction of a session: none, its uncommitted state, or aborted by an error. */
  datatype Txn = NoTxn | Working(db: Db) | Aborted

  datatype Session = Session(committed: Db, txn: Txn, alive: bool)

  /** A migration's text on a state; the first one creates the schema and the version table. */
  function RunScript(db: Db, v: nat): Option<Db> {
    if v != 1 then Some(db.(applied := db.applied + [v]))
    else if db.version.Some? then None
    else Some(Db(db.applied + [1], Some([1])))
  }

  /** UPDATE version SET value = $1; the value is the table's primary key. */
  function RunSetVersion(db: Db, text: string): Option<Db> {
    match db.version
    case None => None
    case Some(rows) =>
      if |rows| > 1 then None else Some(db.(version := Some(seq(|rows|, i => Atoi(text)))))
  }

  /** A statement inside a transaction. */
  function InTransaction(s: Session, result: Option<Db>, o: Outcome): (Session, bool)
    requires s.txn.Working?
  {
    if o.Refused? || result.None? then (s.(txn := Aborted), false)
    else (s.(txn := Working(result.value)), true)
  }

  /**
   One statement: the session after it and whether the result is the expected one.  END of an
   aborted transaction rolls it back and is still reported as a completed command.
   */
  function Exec(s: Session, stmt: Stmt, o: Outcome): (Session, bool) {
    if !s.alive then (s, false)
    else if o.LostBefore? || (o.LostAfter? && !(stmt.End? && s.txn.Working?)) then
      (Session(s.committed, NoTxn, false), false)
    else
      match stmt
      case FindTable => (s, o.Fine?)
      case ReadVersion => (s, o.Fine? && s.committed.version.Some?)
      case Begin(_) => if o.Refused? then (s, false) else (s.(txn := Working(s.committed)), true)
      case Script(v) => if s.txn.Working? then InTransaction(s, RunScript(s.txn.db, v), o) else (s, false)
      case SetVersion(v) =>
        if s.txn.Working? then InTransaction(s, RunSetVersion(s.txn.db, Printed(v)), o) else (s, false)
      case End(_) =>
        match s.txn
        case Working(db) =>
          if o.Refused? then (s.(txn := NoTxn), false)
          else (Session(db, NoTxn, !o.LostAfter?), !o.LostAfter?)
        case _ => (s.(txn := NoTxn), o.Fine?)
  }

  // ---- The runner ----

  /** Without a row `atoi` is handed a null pointer, and the process is lost. */
  function GetSchemaVersion(s: Session, fate: Fate): (Session, int) {
    var (s, ok) := Exec(s, FindTable, fate(FindTable));
    if !ok then (s, -1)
    else if s.committed.version.None? then (s, 0)
    else
      var (s, ok) := Exec(s, ReadVersion, fate(ReadVersion));
      if !ok || s.committed.version.None? then (s, -1)
      else if s.committed.version.value == [] then (Session(s.committed, NoTxn, false), -1)
      else (s, Atoi(Printed(s.committed.version.value[0])))
  }

  function ApplyMigration(s: Session, v: nat, fate: Fate): (Session, bool) {
    var (s, ok) := Exec(s, Begin(v), fate(Begin(v)));
    if !ok then (s, false)
    else
      var (s, ok) := Exec(s, Script(v), fate(Script(v)));
      if !ok then (s, false)
      else
        var (s, _) := Exec(s, SetVersion(v), fate(SetVersion(v)));
        Exec(s, End(v), fate(End(v)))
  }

  function ApplyFrom(s: Session, v: nat, n: nat, fate: Fate): (Session, bool)
    decreases n + 1 - v
  {
    if v > n then (s, true)
    else
      var (s, ok) := ApplyMigration(s, v, fate);
      if !ok then (s, false) else ApplyFrom(s, v + 1, n, fate)
  }

  /** One run of the program up to its return; disconnecting rolls an open transaction back. */
  function Run(db: Db, n: nat, fate: Fate): (Db, bool) {
    var (s, current) := GetSchemaVersion(Session(db, NoTxn, true), fate);
    if current < 0 then (s.committed, false)
    else
      var (s, ok) := ApplyFrom(s, current + 1, n, fate);
      (s.committed, ok)
  }

  // ---- Committed states ----

  function UpTo(k: nat): seq<nat> {
    seq(k, i requires 0 <= i < k => i + 1)
  }

  /** Migrations 1..k in order and nothing else; no version table for k = 0, else one row holding k. */
  predicate Good(db: Db, k: nat) {
    db == Db(UpTo(k), if k == 0 then None else Some([k]))
  }

  /** PostgreSQL refuses no update of the version. */
  ghost predicate UpdatesAccepted(fate: Fate) {
    forall v :: !fate(SetVersion(v)).Refused?
  }

  lemma {:induction false} UpToNext(k: nat)
    ensures UpTo(k) + [k + 1] == UpTo(k + 1)
  {
  }

  /**
   One migration on a good state: it is committed whole or not at all, and reports success exactly
   when it was committed, unless its version update was refused.
   */
  lemma {:induction false} ApplyOnGood(s: Session, k: nat, fate: Fate)
    requires s.alive && s.txn == NoTxn && Good(s.committed, k) && InInt32(k + 1)
    ensures
      var (s', ok) := ApplyMigration(s, k + 1, fate);
      && (ok ==> s'.alive && s'.txn == NoTxn)
      && (Good(s'.committed, k) || Good(s'.committed, k + 1))
      && (ok ==> (Good(s'.committed, k + 1) <==> !fate(SetVersion(k + 1)).Refused?))
      && (fate(SetVersion(k + 1)).Refused? ==> s'.committed == s.committed)
  {
    UpToNext(k);
    PrintedIsWord(k + 1);
    assert UpTo(k) != UpTo(k + 1) by { assert |UpTo(k)| == k; }
    var db := Db(UpTo(k + 1), if k == 0 then Some([1]) else Some([k]));
    assert RunScript(s.committed, k + 1) == Some(db);
    assert seq(1, i => Atoi(Printed(k + 1))) == [k + 1];
    assert RunSetVersion(db, Printed(k + 1)) == Some(Db(UpTo(k + 1), Some([k + 1])));
  }

  lemma {:induction false} ApplyFromOnGood(s: Session, k: nat, n: nat, fate: Fate) returns (j: nat)
    requires s.alive && s.txn == NoTxn && Good(s.committed, k) && UpdatesAccepted(fate) && k <= n && InInt32(n)
    ensures
      var (s', ok) := ApplyFrom(s, k + 1, n, fate);
      && k <= j <= n && Good(s'.committed, j)
      && (ok ==> j == n)
    decreases n - k
  {
    j := k;
    if k < n {
      ApplyOnGood(s, k, fate);
      var (s', ok) := ApplyMigration(s, k + 1, fate);
      if ok {
        j := ApplyFromOnGood(s', k + 1, n, fate);
      } else if !Good(s'.committed, k) {
        j := k + 1;
      }
    }
  }

  lemma {:induction false} VersionOnGood(db: Db, k: nat, fate: Fate)
    requires Good(db, k)
    ensures
      var (s, current) := GetSchemaVersion(Session(db, NoTxn, true), fate);
      && s.committed == db
      && (current == k || current == -1)
      && (current == k ==> s == Session(db, NoTxn, true))
  {
    PrintedIsWord(k);
  }

  /**
   Crash safety: whatever is refused or lost at whatever statement, other than a refused version
   update, one run leaves migrations 1..j committed with the matching version, never fewer than
   before; a run that reports success has committed them all.
   */
  lemma {:induction false} RunOnGood(db: Db, k: nat, n: nat, fate: Fate) returns (j: nat)
    requires Good(db, k) && UpdatesAccepted(fate) && k <= n && InInt32(n)
    ensures
      var (db', ok) := Run(db, n, fate);
      && k <= j <= n && Good(db', j)
      && (ok ==> j == n)
  {
    hide GetSchemaVersion, ApplyFrom, Good;
    VersionOnGood(db, k, fate);
    var (s, current) := GetSchemaVersion(Session(db, NoTxn, true), fate);
    j := k;
    if current == k {
      j := ApplyFromOnGood(s, k, n, fate);
    }
  }

  /** The database after several runs, each of which may fail or be interrupted. */
  function Runs(db: Db, n: nat, fates: seq<Fate>): Db
    decreases |fates|
  {
    if fates == [] then db else Runs(Run(db, n, fates[0]).0, n, fates[1..])
  }

  ghost predicate AllAccepted(fates: seq<Fate>) {
    forall i :: 0 <= i < |fates| ==> UpdatesAccepted(fates[i])
  }

  lemma {:induction false} RunsOnGood(db: Db, k: nat, n: nat, fates: seq<Fate>) returns (j: nat)
    requires Good(db, k) && AllAccepted(fates) && k <= n && InInt32(n)
    ensures k <= j <= n && Good(Runs(db, n, fates), j)
    decreases |fates|
  {
    if fates == [] {
      j := k;
    } else {
      assert UpdatesAccepted(fates[0]);
      var i := RunOnGood(db, k, n, fates[0]);
      var db' := Run(db, n, fates[0]).0;
      assert AllAccepted(fates[1..]) by {
        assert forall m :: 0 <= m < |fates[1..]| ==> fates[1..][m] == fates[m + 1];
      }
      j := RunsOnGood(db', i, n, fates[1..]);
    }
  }

  const EMPTY := Db([], None)

  function AlwaysFine(): Fate {
    stmt => Fine
  }

  /**
   Resumption: any number of interrupted runs followed by one that succeeds commits what a single
   undisturbed run commits, every migration once and in order; further runs change nothing.
   */
  lemma {:induction false} Resumes(n: nat, fates: seq<Fate>, last: Fate, more: seq<Fate>)
    requires AllAccepted(fates) && UpdatesAccepted(last) && AllAccepted(more) && InInt32(n)
    requires Run(Runs(EMPTY, n, fates), n, last).1
    ensures
      var db := Run(Runs(EMPTY, n, fates), n, last).0;
      && db == Run(EMPTY, n, AlwaysFine()).0
      && db == Db(UpTo(n), if n == 0 then None else Some([n]))
      && Runs(db, n, more) == db
  {
    hide *;
    FineStart();
    var k := RunsOnGood(EMPTY, 0, n, fates);
    var whole := RunOnGood(Runs(EMPTY, n, fates), k, n, last);
    var clean := RunOnGood(EMPTY, 0, n, AlwaysFine());
    UndisturbedSucceeds(EMPTY, 0, n);
    var db := Run(Runs(EMPTY, n, fates), n, last).0;
    var j := RunsOnGood(db, n, n, more);
    GoodIs(db, n);
    GoodIs(Run(EMPTY, n, AlwaysFine()).0, n);
    GoodIs(Runs(db, n, more), n);
  }

  lemma {:induction false} FineStart()
    ensures Good(EMPTY, 0) && UpdatesAccepted(AlwaysFine())
  {
  }

  lemma {:induction false} GoodIs(db: Db, k: nat)
    ensures Good(db, k) <==> db == Db(UpTo(k), if k == 0 then None else Some([k]))
  {
  }

  // ---- What is reported ----

  /** The statements of one migration, the version update apart, all work, and that one is not lost. */
  predicate Goes(fate: Fate, v: nat) {
    && fate(Begin(v)).Fine? && fate(Script(v)).Fine? && fate(End(v)).Fine?
    && (fate(SetVersion(v)).Fine? || fate(SetVersion(v)).Refused?)
  }

  lemma {:induction false} ApplyReports(s: Session, v: nat, fate: Fate)
    requires s.alive && s.txn == NoTxn && (v == 1 ==> s.committed.version.None?)
    ensures
      var (s', ok) := ApplyMigration(s, v, fate);
      (ok <==> Goes(fate, v)) && (ok ==> s'.alive && s'.txn == NoTxn)
  {
    hide RunSetVersion;
  }

  lemma {:induction false} FromReports(s: Session, v: nat, n: nat, fate: Fate)
    requires s.alive && s.txn == NoTxn && v > 0 && (v == 1 ==> s.committed.version.None?)
    ensures ApplyFrom(s, v, n, fate).1 <==> forall w :: v <= w <= n ==> Goes(fate, w)
    decreases n + 1 - v
  {
    if v <= n {
      ApplyReports(s, v, fate);
      hide ApplyMigration, Goes;
      if Goes(fate, v) {
        FromReports(ApplyMigration(s, v, fate).0, v + 1, n, fate);
      }
    }
  }

  /**
   A run on a database with k migrations reports success exactly when it could look for the version
   and read it, if there is one, and every migration above k went through.
   */
  lemma {:induction false} ReportExact(db: Db, k: nat, n: nat, fate: Fate)
    requires Good(db, k) && k <= n && InInt32(n)
    ensures Run(db, n, fate).1 <==>
            && fate(FindTable).Fine?
            && (k > 0 ==> fate(ReadVersion).Fine?)
            && forall v :: k < v <= n ==> Goes(fate, v)
  {
    VersionRead(db, k, fate);
    VersionOnGood(db, k, fate);
    FromReports(Session(db, NoTxn, true), k + 1, n, fate);
    hide GetSchemaVersion, ApplyFrom, Goes;
  }

  lemma {:induction false} VersionRead(db: Db, k: nat, fate: Fate)
    requires Good(db, k)
    ensures
      var current := GetSchemaVersion(Session(db, NoTxn, true), fate).1;
      current == if fate(FindTable).Fine? && (k > 0 ==> fate(ReadVersion).Fine?) then k else -1
  {
    PrintedIsWord(k);
  }

  /**
   So a database can always be started again: whatever interrupted the runs before, an undisturbed
   one succeeds and commits all the migrations that were missing.
   */
  lemma {:induction false} AlwaysResumable(n: nat, fates: seq<Fate>)
    requires AllAccepted(fates) && InInt32(n)
    ensures Run(Runs(EMPTY, n, fates), n, AlwaysFine()) == (Db(UpTo(n), if n == 0 then None else Some([n])), true)
  {
    FineStart();
    hide Run, Runs, Good, UpdatesAccepted, AllAccepted;
    var k := RunsOnGood(EMPTY, 0, n, fates);
    UndisturbedSucceeds(Runs(EMPTY, n, fates), k, n);
    var j := RunOnGood(Runs(EMPTY, n, fates), k, n, AlwaysFine());
    GoodIs(Run(Runs(EMPTY, n, fates), n, AlwaysFine()).0, n);
  }

  lemma {:induction false} UndisturbedSucceeds(db: Db, k: nat, n: nat)
    requires Good(db, k) && k <= n && InInt32(n)
    ensures Run(db, n, AlwaysFine()).1
  {
    ReportExact(db, k, n, AlwaysFine());
    hide Run, Good;
  }

  // ---- The unchecked update ----

  /** A migration whose version update is refused is never committed, whatever is reported. */
  lemma {:induction false} RefusedNotCommitted(s: Session, v: nat, fate: Fate)
    requires s.alive && s.txn == NoTxn && fate(SetVersion(v)).Refused?
    ensures ApplyMigration(s, v, fate).0.committed == s.committed
  {
  }

  lemma {:induction false} ApplyAddsOnly(s: Session, v: nat, fate: Fate)
    requires s.alive && s.txn == NoTxn
    ensures
      var (s', ok) := ApplyMigration(s, v, fate);
      && (ok ==> s'.alive && s'.txn == NoTxn)
      && (s'.committed == s.committed || s'.committed.applied == s.committed.applied + [v])
  {
  }

  lemma {:induction false} RefusedStaysOut(s: Session, v: nat, n: nat, fate: Fate, r: nat)
    requires s.alive && s.txn == NoTxn && r !in s.committed.applied && fate(SetVersion(r)).Refused?
    ensures r !in ApplyFrom(s, v, n, fate).0.committed.applied
    decreases n + 1 - v
  {
    if v <= n {
      ApplyAddsOnly(s, v, fate);
      if v == r { RefusedNotCommitted(s, v, fate); }
      var (s', ok) := ApplyMigration(s, v, fate);
      if ok { RefusedStaysOut(s', v + 1, n, fate, r); }
    }
  }

  /** Some version update that a run from version k to n makes is refused. */
  ghost predicate SomeRefused(k: nat, n: nat, fate: Fate) {
    exists v :: k < v <= n && fate(SetVersion(v)).Refused?
  }

  lemma {:induction false} AcceptedFrom(s: Session, k: nat, n: nat, fate: Fate)
    requires s.alive && s.txn == NoTxn && Good(s.committed, k) && k <= n && InInt32(n)
    requires !SomeRefused(k, n, fate) && ApplyFrom(s, k + 1, n, fate).1
    ensures Good(ApplyFrom(s, k + 1, n, fate).0.committed, n)
    decreases n - k
  {
    if k < n {
      assert !fate(SetVersion(k + 1)).Refused?;
      ApplyOnGood(s, k, fate);
      var s' := ApplyMigration(s, k + 1, fate).0;
      assert !SomeRefused(k + 1, n, fate);
      AcceptedFrom(s', k + 1, n, fate);
    }
  }

  /**
   Because the result of the version update is not looked at, a run can report success without
   having migrated: from a good state it has exactly when none of its updates was refused.
   */
  lemma {:induction false} SuccessExact(db: Db, k: nat, n: nat, fate: Fate)
    requires Good(db, k) && k <= n && InInt32(n) && Run(db, n, fate).1
    ensures Good(Run(db, n, fate).0, n) <==> !SomeRefused(k, n, fate)
  {
    VersionOnGood(db, k, fate);
    var s := GetSchemaVersion(Session(db, NoTxn, true), fate).0;
    if SomeRefused(k, n, fate) {
      var v :| k < v <= n && fate(SetVersion(v)).Refused?;
      assert v !in db.applied;
      RefusedStaysOut(s, k + 1, n, fate, v);
      assert UpTo(n)[v - 1] == v;
    } else {
      AcceptedFrom(s, k, n, fate);
    }
  }

  /** What an undisturbed migration does to a session whose version is `was`. */
  lemma {:induction false} FineMigration(applied: seq<nat>, was: seq<int>, v: nat, fate: Fate)
    requires |was| <= 1 && (v == 1 <==> was == [])
    requires forall stmt :: stmt in [Begin(v), Script(v), SetVersion(v), End(v)] ==> fate(stmt) == Fine
    ensures
      var db := Db(applied, if was == [] then None else Some(was));
      ApplyMigration(Session(db, NoTxn, true), v, fate) == (Session(Db(applied + [v], Some([v])), NoTxn, true), true)
  {
    PrintedIsWord(v);
    assert seq(1, i => Atoi(Printed(v))) == [v];
    assert [Begin(v), Script(v), SetVersion(v), End(v)][0] == Begin(v);
    assert [Begin(v), Script(v), SetVersion(v), End(v)][1] == Script(v);
    assert [Begin(v), Script(v), SetVersion(v), End(v)][2] == SetVersion(v);
    assert [Begin(v), Script(v), SetVersion(v), End(v)][3] == End(v);
  }

  /** A migration whose version update alone is refused: nothing happens, and success is reported. */
  lemma {:induction false} RefusedReported(db: Db, v: nat, fate: Fate)
    requires v != 1 && fate(SetVersion(v)) == Refused
    requires fate(Begin(v)) == fate(Script(v)) == fate(End(v)) == Fine
    ensures ApplyMigration(Session(db, NoTxn, true), v, fate) == (Session(db, NoTxn, true), true)
  {
  }

  lemma {:induction false} ApplyNext(s: Session, v: nat, n: nat, fate: Fate, r: Session, end: (Session, bool))
    requires v <= n && ApplyMigration(s, v, fate) == (r, true) && ApplyFrom(r, v + 1, n, fate) == end
    ensures ApplyFrom(s, v, n, fate) == end
  {
  }

  /** With the third of four updates refused: success, version 4, and migration 3 missing. */
  lemma {:induction false} GapReported() returns (fate: Fate)
    ensures Run(EMPTY, 4, fate) == (Db([1, 2, 4], Some([4])), true)
  {
    hide ApplyMigration, RunSetVersion;
    fate := stmt => if stmt == SetVersion(3) then Refused else Fine;
    var start := Session(EMPTY, NoTxn, true);
    assert GetSchemaVersion(start, fate) == (start, 0);
    var one := Session(Db([1], Some([1])), NoTxn, true);
    var two := Session(Db([1, 2], Some([2])), NoTxn, true);
    var four := Session(Db([1, 2, 4], Some([4])), NoTxn, true);
    assert ApplyFrom(four, 5, 4, fate) == (four, true);
    hide ApplyFrom, GetSchemaVersion;
    assert [] + [1] == [1] && [1] + [2] == [1, 2] && [1, 2] + [4] == [1, 2, 4];
    FineMigration([1, 2], [2], 4, fate);
    ApplyNext(two, 4, 4, fate, four, (four, true));
    RefusedReported(two.committed, 3, fate);
    ApplyNext(two, 3, 4, fate, two, (four, true));
    FineMigration([1], [1], 2, fate);
    ApplyNext(one, 2, 4, fate, two, (four, true));
    FineMigration([], [], 1, fate);
    ApplyNext(start, 1, 4, fate, one, (four, true));
  }
}
