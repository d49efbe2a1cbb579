/**
 The key/value list that PATCH builds from a parsed JSON object
 (src/server/handle/targets.c:132-154).
 */
module PatchBody {
  import opened Table

  /** What looking up one name in the object gives. */
  datatype Item = Missing | Text(s: string) | Number(n: int) | Other

  datatype Body = Body(name: Item, url: Item, interval: Item)

  /** cJSON clamps `valueint` to the range of an int. */
  predicate Clamped(b: Body) {
    b.interval.Number? ==> InInt32(b.interval.n)
  }

  function PatchKvs(b: Body): (kvs: seq<Kv>) {
    (if b.name.Text? then [Kv(NAME, Str(b.name.s))] else []) +
    (if b.url.Text? then [Kv(URL, Str(b.url.s))] else []) +
    (if b.interval.Number? then [Kv(INTERVAL, Num(b.interval.n))] else [])
  }

  /** A record with the fields that the body gives. */
  function Patched(t: Target, b: Body): Target {
    t.(name := if b.name.Text? then b.name.s else t.name,
    url := if b.url.Text? then b.url.s else t.url,
    interval := if b.interval.Number? then b.interval.n else t.interval)
  }

  predicate GivesField(b: Body) {
    b.name.Text? || b.url.Text? || b.interval.Number?
  }

  method BuildPatchKvs(b: Body) returns (kvs: seq<Kv>)
    ensures kvs == PatchKvs(b)
  {
    kvs := [];
    if b.name.Text? {
      kvs := kvs + [Kv(NAME, Str(b.name.s))];
    }
    if b.url.Text? {
      kvs := kvs + [Kv(URL, Str(b.url.s))];
    }
    if b.interval.Number? {
      kvs := kvs + [Kv(INTERVAL, Num(b.interval.n))];
    }
  }

  /**
   Every list PATCH builds is typed, names each of name, url and interval at most once, and names
   nothing else; what it does to a record is to replace the fields the body gave.
   */
  lemma {:induction false} PatchKvsMeaning(b: Body, t: Target)
    requires Clamped(b)
    ensures
      var kvs := PatchKvs(b);
      && AllWellTyped(kvs)
      && DistinctKeys(kvs)
      && (forall i :: 0 <= i < |kvs| ==> kvs[i].key in {NAME, URL, INTERVAL})
      && AssignAll(t, kvs) == Patched(t, b)
      == Target(t.id,
                if b.name.Text? then b.name.s else t.name,
                if b.url.Text? then b.url.s else t.url,
                if b.interval.Number? then b.interval.n else t.interval,
                t.up)
      && (kvs == [] <==> !b.name.Text? && !b.url.Text? && !b.interval.Number?)
      && (kvs != [] <==> GivesField(b))
  {
    var ns := if b.name.Text? then [Kv(NAME, Str(b.name.s))] else [];
    var us := if b.url.Text? then [Kv(URL, Str(b.url.s))] else [];
    var ints := if b.interval.Number? then [Kv(INTERVAL, Num(b.interval.n))] else [];
    AssignAppend(t, ns, us);
    AssignAppend(t, ns + us, ints);
  }

  lemma {:induction false} AssignAppend(t: Target, a: seq<Kv>, b: seq<Kv>)
    requires AllWellTyped(a) && AllWellTyped(b)
    ensures AllWellTyped(a + b)
    ensures AssignAll(t, a + b) == AssignAll(AssignAll(t, a), b)
    decreases |a|
  {
    if a == [] {
      assert a + b == b;
    } else {
      assert (a + b)[1..] == a[1..] + b;
      AssignAppend(Assign(t, a[0]), a[1..], b);
    }
  }
}
