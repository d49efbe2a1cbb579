/**
 The targets table as PostgreSQL keeps it, columns by position, and the statements the program
 sends to it (src/database/targets.c, src/database/macros.c:34-66, src/database/migrations).
 `View` is what the program reads back; on it every statement is an operation of `Table`.
 */
module Store {
  import opened Decimal
  import opened Migrations
  import opened Query
  import opened Sequences
  import opened Table
  import opened Wrappers

  datatype Default = NoDefault | Serial | Fixed(v: Value)
  datatype Column = Column(name: string, kind: Kind, default: Default)

  datatype Store = Store(cols: seq<Column>, rows: map<int, seq<Value>>, next: int)

  // ---- Migrations 2 to 4 ----

  /** `fill` is what existing rows hold in a new column once the migration has committed. */
  datatype Ddl = CreateTable(cols: seq<Column>) | AddColumn(col: Column, fill: Value)

  function Ddls(version: nat): seq<Ddl> {
    if version == 2 then
      [CreateTable([Column("id", NumberKind, Serial), Column("name", StringKind, NoDefault)])]
    else if version == 3 then
      [AddColumn(Column("url", StringKind, NoDefault), Str("https://example.com")),
       AddColumn(Column("interval", NumberKind, Fixed(Num(5))), Num(5))]
    else if version == 4 then
      [AddColumn(Column("up", BooleanKind, Fixed(Bool(true))), Bool(true))]
    else []
  }

  function ApplyDdl(st: Store, d: Ddl): Store {
    match d
    case CreateTable(cols) => Store(cols, map[], 1)
    case AddColumn(col, fill) => Store(st.cols + [col], map id | id in st.rows :: st.rows[id] + [fill], st.next)
  }

  function ApplyDdls(st: Store, ds: seq<Ddl>): Store
    decreases |ds|
  {
    if ds == [] then st else ApplyDdls(ApplyDdl(st, ds[0]), ds[1..])
  }

  /** Migrations `from`..`to` in order. */
  function Migrated(st: Store, from: nat, to: nat): Store
    decreases to + 1 - from
  {
    if from > to then st else Migrated(ApplyDdls(st, Ddls(from)), from + 1, to)
  }

  const NO_TABLE := Store([], map[], 1)

  /** The columns are where `FOR_FIELDS` says, with the names and the codecs it says. */
  ghost predicate FieldsAgree(cols: seq<Column>) {
    && |cols| == 5
    && (forall f: Field :: cols[IndexOf(f)].name == NameOf(f) && cols[IndexOf(f)].kind == KindOf(f))
    && cols[IndexOf(ID)].default == Serial
    && cols[IndexOf(UP)].default == Fixed(Bool(true))
  }

  lemma {:induction false} MigratedFieldsAgree()
    ensures FieldsAgree(Migrated(NO_TABLE, 1, 4).cols) && Migrated(NO_TABLE, 1, 4).rows == map[]
  {
  }

  /** A table of version 2 gains its columns at the end, and its rows read as enabled targets. */
  lemma {:induction false} UpgradeFrom2(st: Store)
    requires st.cols == [Column("id", NumberKind, Serial), Column("name", StringKind, NoDefault)]
    ensures
      var st' := Migrated(st, 3, 4);
      && FieldsAgree(st'.cols)
      && st'.next == st.next && st'.rows.Keys == st.rows.Keys
      && (forall id :: id in st.rows ==> st'.rows[id] == st.rows[id] + [Str("https://example.com"), Num(5), Bool(true)])
  {
  }

  // ---- What the migration runner leaves ----

  /** The table after these migrations, in this order. */
  function TableAfter(applied: seq<nat>): Store
    decreases |applied|
  {
    if applied == [] then NO_TABLE
    else ApplyDdls(TableAfter(applied[..|applied| - 1]), Ddls(applied[|applied| - 1]))
  }

  lemma {:induction false} UpToIsMigrated(j: nat, k: nat)
    requires j <= k
    ensures Migrated(TableAfter(UpTo(j)), j + 1, k) == TableAfter(UpTo(k))
    decreases k - j
  {
    if j < k {
      assert UpTo(j + 1)[..j] == UpTo(j);
      UpToIsMigrated(j + 1, k);
    }
  }

  /**
   However many runs were interrupted before, after one that succeeds with the four migrations of
   the repository the columns are those the program expects.
   */
  lemma {:induction false} MigrationGivesFields(fates: seq<Fate>, last: Fate)
    requires AllAccepted(fates) && UpdatesAccepted(last) && Run(Runs(EMPTY, 4, fates), 4, last).1
    ensures FieldsAgree(TableAfter(Run(Runs(EMPTY, 4, fates), 4, last).0.applied).cols)
  {
    Resumes(4, fates, last, []);
    UpToIsMigrated(0, 4);
    MigratedFieldsAgree();
  }

  /** And a run can report success and leave a table that the program cannot read. */
  lemma {:induction false} GapBreaksFields() returns (fate: Fate)
    ensures Run(EMPTY, 4, fate).1 && !FieldsAgree(TableAfter(Run(EMPTY, 4, fate).0.applied).cols)
  {
    fate := GapReported();
    hide Run;
    assert [1, 2, 4][..2] == [1, 2] && [1, 2][..1] == [1] && [1][..0] == [];
    var two := TableAfter([1, 2]);
    assert TableAfter([1, 2, 4]) == ApplyDdls(two, Ddls(4));
    assert two == ApplyDdls(TableAfter([1]), Ddls(2));
    assert |two.cols| == 2;
    assert Ddls(4)[1..] == [];
    assert |ApplyDdls(two, Ddls(4)).cols| == 3;
  }

  // ---- Rows as text ----

  ghost predicate RowFits(row: seq<Value>) {
    |row| == 5 && forall f: Field :: Fits(KindOf(f), row[IndexOf(f)])
  }

  ghost predicate Shaped(st: Store) {
    && FieldsAgree(st.cols)
    && (forall id :: id in st.rows ==> RowFits(st.rows[id]) && st.rows[id][IndexOf(ID)] == Num(id))
  }

  /** What PostgreSQL makes of a parameter for a column of this kind. */
  function FromText(kind: Kind, text: string): Option<Value> {
    match kind
    case StringKind => Some(Str(text))
    case NumberKind => if IsNumber(text) && InInt32(Atoi(text)) then Some(Num(Atoi(text))) else None
    case BooleanKind => if text == "t" then Some(Bool(true)) else if text == "f" then Some(Bool(false)) else None
  }

  lemma {:induction false} TextRoundTrip(kind: Kind, v: Value)
    requires Fits(kind, v)
    ensures FromText(kind, Text(v)) == Some(v)
  {
    if v.Num? { PrintedIsWord(v.n); }
  }

  /** A row of a result, as text. */
  function Texts(row: seq<Value>): seq<string> {
    seq(|row|, i requires 0 <= i < |row| => Text(row[i]))
  }

  /** `parse_target`: each field by its index. */
  function ParseTarget(texts: seq<string>): Target
    requires |texts| == 5
  {
    Target(Atoi(texts[IndexOf(ID)]),
           texts[IndexOf(NAME)],
           texts[IndexOf(URL)],
           Atoi(texts[IndexOf(INTERVAL)]),
           texts[IndexOf(UP)] != "" && texts[IndexOf(UP)][0] == 't')
  }

  /** The record a row stands for. */
  ghost function Record(row: seq<Value>): Target
    requires RowFits(row)
  {
    assert Fits(KindOf(ID), row[IndexOf(ID)]) && Fits(KindOf(NAME), row[IndexOf(NAME)]);
    assert Fits(KindOf(URL), row[IndexOf(URL)]) && Fits(KindOf(INTERVAL), row[IndexOf(INTERVAL)]);
    assert Fits(KindOf(UP), row[IndexOf(UP)]);
    Target(row[0].n, row[1].s, row[2].s, row[3].n, row[4].b)
  }

  lemma {:induction false} ParsesRecord(row: seq<Value>)
    requires RowFits(row)
    ensures |Texts(row)| == 5 && ParseTarget(Texts(row)) == Record(row)
  {
    var r := Record(row);
    assert Fits(KindOf(ID), row[IndexOf(ID)]) && Fits(KindOf(NAME), row[IndexOf(NAME)]);
    assert Fits(KindOf(URL), row[IndexOf(URL)]) && Fits(KindOf(INTERVAL), row[IndexOf(INTERVAL)]);
    assert Fits(KindOf(UP), row[IndexOf(UP)]);
    PrintedIsWord(r.id);
    PrintedIsWord(r.interval);
    assert row == [Num(r.id), Str(r.name), Str(r.url), Num(r.interval), Bool(r.up)];
  }

  lemma {:induction false} ShapedRow(st: Store, id: int)
    requires Shaped(st) && id in st.rows
    ensures |Texts(st.rows[id])| == 5 && ParseTarget(Texts(st.rows[id])) == View(st).rows[id]
  {
    ParsesRecord(st.rows[id]);
  }

  /** The table the program can read. */
  ghost function View(st: Store): Table
    requires Shaped(st)
  {
    Table(map id | id in st.rows :: Record(st.rows[id]), st.next)
  }

  // ---- Statements ----

  /** An entry of a VALUES list. */
  datatype Item = UseDefault | Parameter(k: nat)

  function ItemValue(col: Column, item: Item, params: seq<string>, serial: int): Option<Value> {
    match item
    case Parameter(k) => if 1 <= k <= |params| then FromText(col.kind, params[k - 1]) else None
    case UseDefault =>
      match col.default
      case NoDefault => None
      case Serial => if InInt32(serial) then Some(Num(serial)) else None
      case Fixed(v) => Some(v)
  }

  /** INSERT INTO targets VALUES (...), in column order; `skip` numbers were used up before. */
  function InsertValues(st: Store, items: seq<Item>, params: seq<string>, skip: nat): Option<Store> {
    var id := st.next + skip;
    if |items| != |st.cols| || id in st.rows
       || (exists i :: 0 <= i < |items| && ItemValue(st.cols[i], items[i], params, id).None?) then None
    else
      var row := seq(|items|, i requires 0 <= i < |items| => ItemValue(st.cols[i], items[i], params, id).value);
      Some(Store(st.cols, st.rows[id := row], id + 1))
  }

  function FindColumn(cols: seq<Column>, name: string, i: nat): Option<nat>
    requires i <= |cols|
    decreases |cols| - i
  {
    if i == |cols| then None else if cols[i].name == name then Some(i) else FindColumn(cols, name, i + 1)
  }

  function SetCells(cols: seq<Column>, row: seq<Value>, assigns: seq<(string, int)>,
                    params: seq<string>): (r: Option<seq<Value>>)
    requires |row| == |cols|
    ensures r.Some? ==> |r.value| == |row|
    decreases |assigns|
  {
    if assigns == [] then Some(row)
    else
      var (name, k) := assigns[0];
      match FindColumn(cols, name, 0)
      case None => None
      case Some(c) =>
        if !(1 <= k <= |params|) || c >= |cols| then None
        else
          match FromText(cols[c].kind, params[k - 1])
          case None => None
          case Some(v) => SetCells(cols, row[c := v], assigns[1..], params)
  }

  predicate DistinctNames(assigns: seq<(string, int)>) {
    forall i, j :: 0 <= i < j < |assigns| ==> assigns[i].0 != assigns[j].0
  }

  /** An UPDATE sent as text; `None` is an error. */
  function ExecuteUpdate(st: Store, text: string, params: seq<string>): Option<Store>
    requires forall id :: id in st.rows ==> |st.rows[id]| == |st.cols| > 0
  {
    match ReadUpdate(text)
    case None => None
    case Some(Statement(assigns, id)) =>
      if !DistinctNames(assigns) then None
      else if id !in st.rows then Some(st)
      else
        match SetCells(st.cols, st.rows[id], assigns, params)
        case None => None
        case Some(row) =>
          if !row[0].Num? || (row[0].n != id && row[0].n in st.rows) then None
          else Some(st.(rows := (st.rows - {id})[row[0].n := row]))
  }

  lemma {:induction false} FindsField(cols: seq<Column>, f: Field)
    requires FieldsAgree(cols)
    ensures FindColumn(cols, NameOf(f), 0) == Some(IndexOf(f))
  {
    assert cols[0].name == NameOf(ID) by { assert cols[IndexOf(ID)].name == NameOf(ID); }
    assert cols[1].name == NameOf(NAME) by { assert cols[IndexOf(NAME)].name == NameOf(NAME); }
    assert cols[2].name == NameOf(URL) by { assert cols[IndexOf(URL)].name == NameOf(URL); }
    assert cols[3].name == NameOf(INTERVAL) by { assert cols[IndexOf(INTERVAL)].name == NameOf(INTERVAL); }
    assert cols[4].name == NameOf(UP) by { assert cols[IndexOf(UP)].name == NameOf(UP); }
    FindFrom(cols, f, 0);
  }

  lemma {:induction false} FindFrom(cols: seq<Column>, f: Field, i: nat)
    requires |cols| == 5 && i <= IndexOf(f) && cols[IndexOf(f)].name == NameOf(f)
    requires cols[0].name == "id" && cols[1].name == "name" && cols[2].name == "url" && cols[3].name == "interval"
    ensures FindColumn(cols, NameOf(f), i) == Some(IndexOf(f))
    decreases 5 - i
  {
    NamesDiffer();
    if i < IndexOf(f) { FindFrom(cols, f, i + 1); }
  }

  lemma {:induction false} NamesDiffer()
    ensures forall f: Field, g: Field :: f != g ==> NameOf(f) != NameOf(g)
  {
  }

  /** Setting one field's cell is assigning the field of the record. */
  lemma {:induction false} SetCellAssigns(row: seq<Value>, kv: Kv)
    requires RowFits(row) && WellTyped(kv)
    ensures RowFits(row[IndexOf(kv.key) := kv.value])
    ensures Record(row[IndexOf(kv.key) := kv.value]) == Assign(Record(row), kv)
  {
  }

  lemma {:induction false} SetCellsAssigns(cols: seq<Column>, row: seq<Value>, kvs: seq<Kv>, i: nat,
                                           params: seq<string>)
    requires FieldsAgree(cols) && RowFits(row) && AllWellTyped(kvs) && i <= |kvs| == |params|
    requires forall j :: 0 <= j < |kvs| ==> params[j] == Text(kvs[j].value)
    ensures
      var r := SetCells(cols, row, Pairs(kvs, i), params);
      r.Some? && RowFits(r.value) && Record(r.value) == AssignAll(Record(row), kvs[i..])
    decreases |kvs| - i
  {
    if i < |kvs| {
      var kv := kvs[i];
      FindsField(cols, kv.key);
      TextRoundTrip(KindOf(kv.key), kv.value);
      SetCellAssigns(row, kv);
      assert Pairs(kvs, i)[1..] == Pairs(kvs, i + 1);
      assert kvs[i..][1..] == kvs[i + 1..];
      hide FindColumn, FromText, Record, RowFits;
      SetCellsAssigns(cols, row[IndexOf(kv.key) := kv.value], kvs, i + 1, params);
    }
  }

  lemma {:induction false} DistinctKeysNames(kvs: seq<Kv>)
    ensures DistinctNames(Pairs(kvs, 0)) <==> DistinctKeys(kvs)
  {
    PairsLength(kvs, 0);
    NamesDiffer();
    forall i | 0 <= i < |kvs| ensures Pairs(kvs, 0)[i].0 == NameOf(kvs[i].key) {
      PairsAt(kvs, 0, i);
    }
    hide NameOf, Pairs;
  }

  /**
   Sending the built query with the encoded values is a record update of exactly the row `id`:
   both fail, when a new id is taken, or both succeed with the same table.
   */
  lemma {:induction false} UpdateMeansRecordUpdate(st: Store, id: int, kvs: seq<Kv>, params: seq<string>)
    requires Shaped(st) && kvs != [] && AllWellTyped(kvs) && DistinctKeys(kvs) && |params| == |kvs|
    requires forall j :: 0 <= j < |kvs| ==> params[j] == Text(kvs[j].value)
    ensures
      var r := ExecuteUpdate(st, QueryText(id, kvs), params);
      var u := Update(View(st), id, kvs);
      && (r.Some? <==> u.Some?)
      && (r.Some? ==> Shaped(r.value) && View(r.value) == u.value)
  {
    QueryReadsBack(id, kvs);
    DistinctKeysNames(kvs);
    assert |st.cols| == 5;
    hide QueryText, ReadUpdate, FieldsAgree;
    if id in st.rows {
      SetCellsAssigns(st.cols, st.rows[id], kvs, 0, params);
      assert kvs[0..] == kvs;
      var row := SetCells(st.cols, st.rows[id], Pairs(kvs, 0), params).value;
      ReplacedRow(st, id, row);
    }
  }

  lemma {:induction false} ReplacedRow(st: Store, id: int, row: seq<Value>)
    requires Shaped(st) && id in st.rows && RowFits(row)
    ensures
      var u := Replace(View(st), id, Record(row));
      var st' := st.(rows := (st.rows - {id})[row[0].n := row]);
      && row[0].Num?
      && (u.Some? <==> row[0].n == id || row[0].n !in st.rows)
      && (u.Some? ==> Shaped(st') && View(st') == u.value)
  {
  }

  /** The insert of a name, an address and an interval adds one record under a fresh id. */
  lemma {:induction false} InsertMeansRecordInsert(st: Store, name: string, url: string, interval: int, skip: nat)
    requires Shaped(st) && InInt32(interval) && InInt32(st.next + skip) && st.next + skip !in st.rows
    ensures
      var r := InsertValues(st, [UseDefault, Parameter(1), Parameter(2), Parameter(3), UseDefault],
                            [name, url, Printed(interval)], skip);
      && r.Some? && Shaped(r.value)
      && View(r.value) == Insert(View(st), name, url, interval, skip)
  {
    var id := st.next + skip;
    var items := [UseDefault, Parameter(1), Parameter(2), Parameter(3), UseDefault];
    var params := [name, url, Printed(interval)];
    var row := [Num(id), Str(name), Str(url), Num(interval), Bool(true)];
    InsertedCells(st.cols, name, url, interval, id);
    InsertedRow(st, id, row);
    hide FieldsAgree, FromText, Shaped, View, ItemValue, Printed;
    assert |items| == 5 && |st.cols| == 5;
    assert forall i :: 0 <= i < 5 ==> ItemValue(st.cols[i], items[i], params, id) == Some(row[i]);
    assert seq(|items|, i requires 0 <= i < |items| => ItemValue(st.cols[i], items[i], params, id).value) == row;
  }

  lemma {:induction false} InsertedCells(cols: seq<Column>, name: string, url: string, interval: int, id: int)
    requires FieldsAgree(cols) && InInt32(interval) && InInt32(id)
    ensures |cols| == 5
    ensures
      var params := [name, url, Printed(interval)];
      && ItemValue(cols[0], UseDefault, params, id) == Some(Num(id))
      && ItemValue(cols[1], Parameter(1), params, id) == Some(Str(name))
      && ItemValue(cols[2], Parameter(2), params, id) == Some(Str(url))
      && ItemValue(cols[3], Parameter(3), params, id) == Some(Num(interval))
      && ItemValue(cols[4], UseDefault, params, id) == Some(Bool(true))
  {
    TextRoundTrip(NumberKind, Num(interval));
    assert cols[1].kind == StringKind by { assert cols[IndexOf(NAME)].kind == KindOf(NAME); }
    assert cols[2].kind == StringKind by { assert cols[IndexOf(URL)].kind == KindOf(URL); }
    assert cols[3].kind == NumberKind by { assert cols[IndexOf(INTERVAL)].kind == KindOf(INTERVAL); }
  }

  lemma {:induction false} InsertedRow(st: Store, id: int, row: seq<Value>)
    requires Shaped(st) && |row| == 5 && row[0] == Num(id) && InInt32(id)
    requires row[1].Str? && row[2].Str? && row[3].Num? && InInt32(row[3].n) && row[4].Bool?
    ensures
      var st' := Store(st.cols, st.rows[id := row], id + 1);
      && Shaped(st')
      && View(st') == Table(View(st).rows[id := Target(id, row[1].s, row[2].s, row[3].n, row[4].b)], id + 1)
  {
  }

  /** The ids of the rows in the order the query asks for. */
  ghost predicate OrderedById(st: Store, order: seq<int>) {
    && StrictlyIncreasing(order)
    && (forall i :: 0 <= i < |order| ==> order[i] in st.rows)
    && (forall id :: id in st.rows ==> id in order)
  }

  // ---- src/database/targets.c ----

  class Database {
    var st: Store

    ghost predicate Valid()
      reads this
    {
      Shaped(st) && KeysValid(View(st))
    }

    /** A database that has just been migrated. */
    constructor ()
      ensures Valid() && View(st) == Table(map[], 1)
    {
      st := Migrated(NO_TABLE, 1, 4);
      new;
      MigratedFieldsAgree();
      MigratedNext();
      assert View(st).rows == map[];
    }

    /** An insert that is not acknowledged returns 1, which is also the id of a first target. */
    method TargetsAdd(name: string, url: string, interval: int, reply: Reply, skip: nat) returns (id: int)
      requires Valid() && InInt32(interval) && InInt32(st.next + skip)
      modifies this
      ensures Valid()
      ensures
        var next := old(st.next) + skip;
        && id == (if reply.Acknowledged? then next else 1)
        && (Effective(reply) ==>
              && View(st) == Insert(old(View(st)), name, url, interval, skip)
              && next !in old(View(st)).rows && View(st).rows[next] == Target(next, name, url, interval, true))
      ensures !Effective(reply) ==> st == old(st)
    {
      hide Shaped, View, InsertValues, KeysValid, Insert, Printed, CString;
      var buffer := new char[INT_STR_LEN](_ => '\0');
      EncodeNumber(interval, buffer);
      var params := [name, url, CString(buffer[..])];
      if !Effective(reply) {
        return 1;
      }
      ViewNext(st);
      InsertKeeps(View(st), name, url, interval, skip);
      InsertMeansRecordInsert(st, name, url, interval, skip);
      var returned := Printed(st.next + skip);
      PrintedIsWord(st.next + skip);
      st := InsertValues(st, [UseDefault, Parameter(1), Parameter(2), Parameter(3), UseDefault], params, skip).value;
      id := if reply.Acknowledged? then Atoi(returned) else 1;
    }

    method TargetsDelete(id: int, reply: Reply) returns (rc: int)
      requires Valid()
      modifies this
      ensures Valid()
      ensures View(st) == if Effective(reply) then Delete(old(View(st)), id) else old(View(st))
      ensures
        var rows, rows' := old(View(st)).rows, View(st).rows;
        && (forall other :: other in rows' <==> other in rows && (other != id || reply == Rejected))
        && (forall other :: other in rows' ==> rows'[other] == rows[other])
      ensures rc == 0 <==> reply.Acknowledged?
    {
      if !Effective(reply) {
        return 1;
      }
      st := st.(rows := st.rows - {id});
      assert View(st).rows == old(View(st)).rows - {id};
      rc := if reply.Acknowledged? then 0 else 1;
    }

    method TargetsGet(id: int, ok: bool) returns (rc: int, target: Target)
      requires Valid()
      ensures rc == 0 <==> ok && id in View(st).rows
      ensures rc == 0 ==> target == View(st).rows[id] && target.id == id
    {
      target := Target(0, "", "", 0, false);
      if !ok || id !in st.rows {
        return 1, target;
      }
      ShapedRow(st, id);
      target := ParseTarget(Texts(st.rows[id]));
      rc := 0;
    }

    /** `order` is the order in which the rows come, which the query asks to be by id. */
    method TargetsGetAll(ok: bool, callocOk: bool, order: seq<int>) returns (rc: int, targets: array<Target>)
      requires Valid()
      requires OrderedById(st, order)
      ensures rc == 0 <==> ok && (order == [] || callocOk)
      ensures rc == 0 ==> targets.Length == |order| &&
                          forall i :: 0 <= i < |order| ==>
                                        order[i] in View(st).rows && targets[i] == View(st).rows[order[i]]
      ensures rc == 0 ==> forall i, j :: 0 <= i < j < targets.Length ==> targets[i].id < targets[j].id
      ensures rc == 0 ==>
                forall id :: id in View(st).rows ==>
                               exists i :: 0 <= i < targets.Length && targets[i] == View(st).rows[id]
    {
      hide FieldsAgree, RowFits, ParseTarget, Texts;
      targets := new Target[0];
      if !ok {
        return 1, targets;
      }
      if order == [] {
        return 0, targets;
      }
      if !callocOk {
        return 1, targets;
      }
      targets := new Target[|order|](_ => Target(0, "", "", 0, false));
      for i := 0 to |order|
        invariant forall k :: 0 <= k < i ==> targets[k] == View(st).rows[order[k]]
      {
        var row := st.rows[order[i]];
        ShapedRow(st, order[i]);
        targets[i] := ParseTarget(Texts(row));
      }
      forall id | id in View(st).rows
        ensures exists i :: 0 <= i < targets.Length && targets[i] == View(st).rows[id]
      {
        var i :| 0 <= i < |order| && order[i] == id;
        assert targets[i] == View(st).rows[id];
      }
      rc := 0;
    }

    /** What PostgreSQL reads when the statement is sent. */
    method SentParams(kvs: seq<Kv>) returns (texts: seq<string>)
      requires AllWellTyped(kvs)
      ensures |texts| == |kvs|
      ensures DistinctKeys(kvs) ==> forall i :: 0 <= i < |kvs| ==> texts[i] == Text(kvs[i].value)
    {
      hide Printed;
      var buffers := new Buffers();
      var params := EncodeParams(kvs, buffers);
      OwnValuesExactly(kvs);
      texts := seq(|kvs|, i requires 0 <= i < |kvs| reads buffers.Repr() => buffers.Read(params[i]));
      assert NumbersAgree(kvs) ==> forall i :: 0 <= i < |kvs| ==> texts[i] == Text(kvs[i].value);
    }

    /**
     Build the query, encode the parameters, send both.  PostgreSQL refuses an update without
     fields, one that names a field twice, and one to a key that is taken.
     */
    method TargetsUpdate(id: int, kvs: seq<Kv>, reply: Reply) returns (rc: int)
      requires Valid() && AllWellTyped(kvs)
      modifies this
      ensures Shaped(st)
      ensures
        var u := Update(old(View(st)), id, kvs);
        var done := Effective(reply) && kvs != [] && DistinctKeys(kvs) && u.Some?;
        && View(st) == (if done then u.value else old(View(st)))
        && (rc == 0 <==> done && reply.Acknowledged?)
      ensures (forall i :: 0 <= i < |kvs| ==> kvs[i].key != ID) ==> Valid()
    {
      var query := BuildQuery(id, kvs);
      var texts := SentParams(kvs);
      ghost var st0 := st;
      UpdateOutcome(st, id, kvs, texts);
      var result := ExecuteUpdate(st, query, texts);
      hide ExecuteUpdate, QueryText, Shaped, View, Update;
      if !Effective(reply) || result.None? {
        return 1;
      }
      st := result.value;
      UpdateKeeps(View(st0), id, kvs);
      rc := if reply.Acknowledged? then 0 else 1;
    }
  }

  /** The query is accepted exactly if it has fields, names none twice and takes no key. */
  lemma {:induction false} UpdateOutcome(st: Store, id: int, kvs: seq<Kv>, params: seq<string>)
    requires Shaped(st) && KeysValid(View(st)) && AllWellTyped(kvs) && |params| == |kvs|
    requires DistinctKeys(kvs) ==> forall j :: 0 <= j < |kvs| ==> params[j] == Text(kvs[j].value)
    ensures
      var r := ExecuteUpdate(st, QueryText(id, kvs), params);
      var u := Update(View(st), id, kvs);
      && (r.Some? <==> kvs != [] && DistinctKeys(kvs) && u.Some?)
      && (r.Some? ==> Shaped(r.value) && View(r.value) == u.value)
  {
    QueryReadsBack(id, kvs);
    DistinctKeysNames(kvs);
    if kvs != [] && DistinctKeys(kvs) {
      UpdateMeansRecordUpdate(st, id, kvs, params);
    }
    hide QueryText, ReadUpdate, FieldsAgree, Update, View;
  }

  lemma {:induction false} ViewNext(st: Store)
    requires Shaped(st)
    ensures View(st).next == st.next && View(st).rows.Keys == st.rows.Keys
  {
  }

  lemma {:induction false} InsertKeeps(t: Table, name: string, url: string, interval: int, skip: nat)
    requires KeysValid(t)
    ensures
      var id := t.next + skip;
      && id !in t.rows && KeysValid(Insert(t, name, url, interval, skip))
      && id in Insert(t, name, url, interval, skip).rows
      && Insert(t, name, url, interval, skip).rows[id] == Target(id, name, url, interval, true)
  {
  }

  lemma {:induction false} UpdateKeeps(t: Table, id: int, kvs: seq<Kv>)
    requires KeysValid(t) && AllWellTyped(kvs) && Update(t, id, kvs).Some?
    ensures (forall i :: 0 <= i < |kvs| ==> kvs[i].key != ID) ==> KeysValid(Update(t, id, kvs).value)
  {
    if id in t.rows {
      AssignKeeps(t.rows[id], kvs);
    }
  }

  lemma {:induction false} MigratedNext()
    ensures Migrated(NO_TABLE, 1, 4).next == 1
  {
  }
}
