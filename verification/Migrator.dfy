/** The migration runner as it runs, statement by statement (src/database/migrate.c). */
module Migrator {
  import opened Decimal
  import opened Migrations

  class Connection {
    const fate: Fate
    var committed: Db
    var txn: Txn
    var alive: bool

    function Abs(): Session
      reads this
    {
      Session(committed, txn, alive)
    }

    constructor (db: Db, fate: Fate)
      ensures Abs() == Session(db, NoTxn, true) && this.fate == fate
    {
      this.fate, committed, txn, alive := fate, db, NoTxn, true;
    }

    method Exec(stmt: Stmt) returns (ok: bool)
      modifies this
      ensures (Abs(), ok) == Migrations.Exec(old(Abs()), stmt, fate(stmt))
    {
      var (s, result) := Migrations.Exec(Abs(), stmt, fate(stmt));
      committed, txn, alive := s.committed, s.txn, s.alive;
      ok := result;
    }

    method GetSchemaVersion() returns (version: int)
      modifies this
      ensures (Abs(), version) == Migrations.GetSchemaVersion(old(Abs()), fate)
    {
      var ok := Exec(FindTable);
      if !ok {
        return -1;
      }
      if committed.version.None? {
        return 0;
      }
      ok := Exec(ReadVersion);
      if ok && committed.version.Some? && committed.version.value == [] {
        txn, alive := NoTxn, false;
        return -1;
      }
      if !ok || committed.version.None? {
        return -1;
      }
      version := Atoi(Printed(committed.version.value[0]));
    }

    method ApplyMigration(version: nat) returns (rc: int)
      modifies this
      ensures (Abs(), rc == 0) == Migrations.ApplyMigration(old(Abs()), version, fate)
    {
      var ok := Exec(Begin(version));
      if !ok {
        return 1;
      }
      ok := Exec(Script(version));
      if !ok {
        return 1;
      }
      var unchecked := Exec(SetVersion(version));
      ok := Exec(End(version));
      rc := if ok then 0 else 1;
    }

    method Migrate(n: nat) returns (rc: int)
      requires Abs() == Session(committed, NoTxn, true)
      modifies this
      ensures (committed, rc == 0) == Run(old(committed), n, fate)
    {
      hide Migrations.ApplyMigration, Migrations.GetSchemaVersion, Migrations.Exec;
      var current := GetSchemaVersion();
      if current < 0 {
        return 1;
      }
      ghost var s := Abs();
      var version := current + 1;
      while version <= n
        invariant version >= 1
        invariant ApplyFrom(Abs(), version, n, fate) == ApplyFrom(s, current + 1, n, fate)
        decreases n + 1 - version
      {
        var failed := ApplyMigration(version);
        if failed != 0 {
          return 1;
        }
        version := version + 1;
      }
      rc := 0;
    }
  }
}
