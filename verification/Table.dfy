/**
 The fields of a target (src/database/targets.h:31-50) and the targets table as plain records.
 Other modules prove that the SQL the program sends means these operations.
 */
module Table {
  import opened Wrappers

  datatype Field = ID | NAME | URL | INTERVAL | UP
  datatype Kind = StringKind | NumberKind | BooleanKind

  datatype Value = Str(s: string) | Num(n: int) | Bool(b: bool)
  datatype Kv = Kv(key: Field, value: Value)

  datatype Target = Target(id: int, name: string, url: string, interval: int, up: bool)

  /** `next` is the sequence behind the serial primary key. */
  datatype Table = Table(rows: map<int, Target>, next: int)

  /**
   What becomes of a statement that changes data.  A reply that is lost after the statement took
   effect is reported to the caller like a rejection.
   */
  datatype Reply = Acknowledged | Rejected | Unacknowledged

  predicate Effective(r: Reply) {
    !r.Rejected?
  }

  function KindOf(f: Field): Kind {
    match f
    case ID => NumberKind
    case NAME => StringKind
    case URL => StringKind
    case INTERVAL => NumberKind
    case UP => BooleanKind
  }

  function NameOf(f: Field): string {
    match f
    case ID => "id"
    case NAME => "name"
    case URL => "url"
    case INTERVAL => "interval"
    case UP => "up"
  }

  function IndexOf(f: Field): nat {
    match f
    case ID => 0
    case NAME => 1
    case URL => 2
    case INTERVAL => 3
    case UP => 4
  }

  predicate InInt32(n: int) {
    -0x8000_0000 <= n < 0x8000_0000
  }

  predicate Fits(kind: Kind, v: Value) {
    match kind
    case StringKind => v.Str?
    case NumberKind => v.Num? && InInt32(v.n)
    case BooleanKind => v.Bool?
  }

  /** The union member the caller filled in is the one the key's codec reads. */
  predicate WellTyped(kv: Kv) {
    Fits(KindOf(kv.key), kv.value)
  }

  predicate AllWellTyped(kvs: seq<Kv>) {
    forall i :: 0 <= i < |kvs| ==> WellTyped(kvs[i])
  }

  predicate DistinctKeys(kvs: seq<Kv>) {
    forall i, j :: 0 <= i < j < |kvs| ==> kvs[i].key != kvs[j].key
  }

  function Assign(t: Target, kv: Kv): Target
    requires WellTyped(kv)
  {
    match kv.key
    case ID => t.(id := kv.value.n)
    case NAME => t.(name := kv.value.s)
    case URL => t.(url := kv.value.s)
    case INTERVAL => t.(interval := kv.value.n)
    case UP => t.(up := kv.value.b)
  }

  function AssignAll(t: Target, kvs: seq<Kv>): Target
    requires AllWellTyped(kvs)
    decreases |kvs|
  {
    if kvs == [] then t else AssignAll(Assign(t, kvs[0]), kvs[1..])
  }

  ghost predicate KeysValid(t: Table) {
    0 < t.next && (forall id :: id in t.rows ==> t.rows[id].id == id && 0 < id < t.next)
  }

  /** Replace the row `id` by `r`; `None` is a primary key that is already taken. */
  function Replace(t: Table, id: int, r: Target): Option<Table>
    requires id in t.rows
  {
    if r.id != id && r.id in t.rows then None
    else Some(t.(rows := (t.rows - {id})[r.id := r]))
  }

  function Update(t: Table, id: int, kvs: seq<Kv>): Option<Table>
    requires AllWellTyped(kvs)
  {
    if id in t.rows then Replace(t, id, AssignAll(t.rows[id], kvs)) else Some(t)
  }

  /** `skip` counts the numbers that the sequence gave to inserts that failed. */
  function Insert(t: Table, name: string, url: string, interval: int, skip: nat): Table {
    var id := t.next + skip;
    Table(t.rows[id := Target(id, name, url, interval, true)], id + 1)
  }

  function Delete(t: Table, id: int): Table {
    t.(rows := t.rows - {id})
  }

  /** An update that assigns neither the key nor the status leaves both alone. */
  lemma {:induction false} AssignKeeps(t: Target, kvs: seq<Kv>)
    requires AllWellTyped(kvs)
    ensures (forall i :: 0 <= i < |kvs| ==> kvs[i].key != ID) ==> AssignAll(t, kvs).id == t.id
    ensures (forall i :: 0 <= i < |kvs| ==> kvs[i].key != UP) ==> AssignAll(t, kvs).up == t.up
    decreases |kvs|
  {
    if kvs != [] {
      AssignKeeps(Assign(t, kvs[0]), kvs[1..]);
    }
  }

  /** A delete takes away the row of that id and leaves every other row and the sequence alone. */
  lemma {:induction false} DeleteExact(t: Table, id: int)
    ensures
      var t' := Delete(t, id);
      && t'.next == t.next && id !in t'.rows
      && (forall other :: other != id ==> (other in t'.rows <==> other in t.rows))
      && (forall other :: other != id && other in t.rows ==> t'.rows[other] == t.rows[other])
  {
  }

  /** An insert adds one row, under a number never given out, and leaves every other row alone. */
  lemma {:induction false} InsertExact(t: Table, name: string, url: string, interval: int, skip: nat)
    requires KeysValid(t)
    ensures
      var t', id := Insert(t, name, url, interval, skip), t.next + skip;
      && KeysValid(t') && t'.next == id + 1
      && id !in t.rows && id in t'.rows && t'.rows[id] == Target(id, name, url, interval, true)
      && (forall other :: other != id ==> (other in t'.rows <==> other in t.rows))
      && (forall other :: other in t.rows ==> t'.rows[other] == t.rows[other])
  {
  }

  /** An update that does not name the key changes at most the row of that id. */
  lemma {:induction false} UpdateFrame(t: Table, id: int, kvs: seq<Kv>)
    requires KeysValid(t) && AllWellTyped(kvs) && forall i :: 0 <= i < |kvs| ==> kvs[i].key != ID
    ensures Update(t, id, kvs).Some?
    ensures
      var t' := Update(t, id, kvs).value;
      && t'.next == t.next && t'.rows.Keys == t.rows.Keys
      && (forall other :: other in t.rows && other != id ==> t'.rows[other] == t.rows[other])
      && (id in t.rows ==> t'.rows[id] == AssignAll(t.rows[id], kvs))
  {
    if id in t.rows {
      AssignKeeps(t.rows[id], kvs);
    }
  }
}
