/**
 The generator of the migrations header (generators/migrations.c:51-120): one array per file of
 the directory, in the order `readdir` gives, and the numbered table.
 */
module Generator {
  import opened Decimal
  import opened Sequences

  datatype Entry = Entry(regular: bool, name: string)

  /** `migration_<number>`, holding the contents of `file`. */
  datatype Definition = Definition(number: int, file: string)

  /** `slots[k]` is the number at index k + 1 of the table. */
  datatype Header = Header(definitions: seq<Definition>, slots: seq<int>, count: int)

  const SUFFIX := ".sql"

  /** ^([0-9]*)\.sql$ */
  predicate IsMigration(e: Entry) {
    && e.regular
    && |e.name| >= |SUFFIX| && e.name[|e.name| - |SUFFIX|..] == SUFFIX
    && AllDigits(e.name[..|e.name| - |SUFFIX|])
  }

  const LONG_MAX := 0x7fff_ffff_ffff_ffff

  /** `strtol` reads 0 from no digits and stops at LONG_MAX; the int keeps its low 32 bits. */
  function Number(name: string): int {
    var v := ReadDigits(name, 0);
    var long := if v > LONG_MAX then LONG_MAX else v;
    (long + 0x8000_0000) % 0x1_0000_0000 - 0x8000_0000
  }

  function Definitions(entries: seq<Entry>): seq<Definition>
    decreases |entries|
  {
    if entries == [] then []
    else
      var e := entries[|entries| - 1];
      Definitions(entries[..|entries| - 1]) + if IsMigration(e) then [Definition(Number(e.name), e.name)] else []
  }

  function Slots(count: nat): seq<int> {
    seq(count, i => i + 1)
  }

  method Generate(entries: seq<Entry>) returns (h: Header)
    ensures h == Header(Definitions(entries), Slots(|Definitions(entries)|), |Definitions(entries)|)
  {
    var definitions, count := [], 0;
    for i := 0 to |entries|
      invariant definitions == Definitions(entries[..i]) && count == |definitions|
    {
      assert entries[..i + 1][..i] == entries[..i];
      var e := entries[i];
      if IsMigration(e) {
        definitions := definitions + [Definition(Number(e.name), e.name)];
        count := count + 1;
      }
    }
    assert entries[..|entries|] == entries;
    var slots := [];
    for i := 1 to count + 1
      invariant slots == Slots(i - 1)
    {
      slots := slots + [i];
    }
    h := Header(definitions, slots, count);
  }

  ghost predicate Defines(ds: seq<Definition>, v: int) {
    exists k :: 0 <= k < |ds| && ds[k].number == v
  }

  /** Every array of the table is defined, and none is defined twice. */
  ghost predicate Compiles(h: Header) {
    && (forall i, j :: 0 <= i < j < |h.definitions| ==> h.definitions[i].number != h.definitions[j].number)
    && (forall k :: 0 <= k < |h.slots| ==> Defines(h.definitions, h.slots[k]))
  }

  ghost function HeaderOf(entries: seq<Entry>): Header {
    Header(Definitions(entries), Slots(|Definitions(entries)|), |Definitions(entries)|)
  }

  // ---- Definitions are the migrations in the directory ----

  /** `d` is the definition of one of the entries. */
  ghost predicate Stems(entries: seq<Entry>, d: Definition) {
    exists i :: 0 <= i < |entries| && IsMigration(entries[i])
                && d == Definition(Number(entries[i].name), entries[i].name)
  }

  ghost predicate Has<T>(xs: seq<T>, x: T) {
    exists k :: 0 <= k < |xs| && xs[k] == x
  }

  lemma {:induction false} DefinitionsMeaning(entries: seq<Entry>, d: Definition)
    ensures Has(Definitions(entries), d) <==> Stems(entries, d)
    decreases |entries|
  {
    hide *;
    if entries == [] {
      NothingStems(d);
    } else {
      var n := |entries| - 1;
      var e := entries[n];
      DefinitionsMeaning(entries[..n], d);
      DefinitionsNext(entries);
      StemsNext(entries, d);
      HasAppend(Definitions(entries[..n]), if IsMigration(e) then [Definition(Number(e.name), e.name)] else [], d);
      HasOne(Definition(Number(e.name), e.name), d);
    }
  }

  lemma {:induction false} NothingStems(d: Definition)
    ensures !Has(Definitions([]), d) && !Stems([], d)
  {
  }

  lemma {:induction false} DefinitionsNext(entries: seq<Entry>)
    requires entries != []
    ensures
      var e := entries[|entries| - 1];
      Definitions(entries) ==
      Definitions(entries[..|entries| - 1]) + if IsMigration(e) then [Definition(Number(e.name), e.name)] else []
  {
    hide IsMigration, Number;
  }

  lemma {:induction false} StemsNext(entries: seq<Entry>, d: Definition)
    requires entries != []
    ensures
      var n := |entries| - 1;
      var e := entries[n];
      Stems(entries, d) <==> Stems(entries[..n], d) || (IsMigration(e) && d == Definition(Number(e.name), e.name))
  {
    hide IsMigration, Number;
    var n := |entries| - 1;
    assert forall i :: 0 <= i < n ==> entries[..n][i] == entries[i];
  }

  lemma {:induction false} HasAppend<T>(xs: seq<T>, ys: seq<T>, x: T)
    ensures Has(xs + ys, x) <==> Has(xs, x) || Has(ys, x)
  {
    if k :| 0 <= k < |xs| && xs[k] == x { assert (xs + ys)[k] == x; }
    if k :| 0 <= k < |ys| && ys[k] == x { assert (xs + ys)[|xs| + k] == x; }
  }

  lemma {:induction false} HasOne(d: Definition, x: Definition)
    ensures Has([d], x) <==> x == d
    ensures !Has([], x)
  {
    assert [d][0] == d;
  }

  /** The names in a directory differ, and so do the files of the definitions. */
  ghost predicate Names(entries: seq<Entry>) {
    forall i, j :: 0 <= i < j < |entries| ==> entries[i].name != entries[j].name
  }

  lemma {:induction false} DefinitionsDiffer(entries: seq<Entry>)
    requires Names(entries)
    ensures NoDuplicates(Definitions(entries))
    decreases |entries|
  {
    if entries != [] {
      var n := |entries| - 1;
      DefinitionsDiffer(entries[..n]);
      var ds, e := Definitions(entries[..n]), entries[n];
      forall k | 0 <= k < |ds| ensures ds[k].file != e.name {
        DefinitionsMeaning(entries[..n], ds[k]);
        assert Has(ds, ds[k]);
      }
    }
  }

  /** A name is digits, or none, and the suffix. */
  ghost predicate Spells(name: string, digits: string) {
    (forall i :: 0 <= i < |digits| ==> '0' <= digits[i] <= '9') && name == digits + ".sql"
  }

  /** The migrations are the regular files with such names. */
  lemma {:induction false} IsMigrationExact(e: Entry)
    ensures IsMigration(e) <==> e.regular && exists digits :: Spells(e.name, digits)
  {
    if IsMigration(e) {
      var digits := e.name[..|e.name| - |SUFFIX|];
      assert e.name == digits + SUFFIX;
      assert Spells(e.name, digits);
    }
    if digits :| Spells(e.name, digits) {
      assert e.name[|e.name| - |SUFFIX|..] == SUFFIX && e.name[..|e.name| - |SUFFIX|] == digits;
    }
  }

  /** The header counts them, and its table has that many slots, numbered from 1. */
  lemma {:induction false} CountExact(entries: seq<Entry>)
    ensures HeaderOf(entries).count == |MigrationsAt(entries)|
    ensures |HeaderOf(entries).slots| == HeaderOf(entries).count
    ensures forall k :: 0 <= k < HeaderOf(entries).count ==> HeaderOf(entries).slots[k] == k + 1
  {
    MigrationsCounted(entries);
    hide Definitions, IsMigration;
  }

  ghost function MigrationsAt(entries: seq<Entry>): set<int> {
    set i | 0 <= i < |entries| && IsMigration(entries[i])
  }

  lemma {:induction false} MigrationsCounted(entries: seq<Entry>)
    ensures |Definitions(entries)| == |MigrationsAt(entries)|
    decreases |entries|
  {
    if entries != [] {
      var n := |entries| - 1;
      MigrationsCounted(entries[..n]);
      MigrationsNext(entries);
      hide IsMigration, Number, MigrationsAt;
    }
  }

  lemma {:induction false} MigrationsNext(entries: seq<Entry>)
    requires entries != []
    ensures
      var n := |entries| - 1;
      |MigrationsAt(entries)| == |MigrationsAt(entries[..n])| + if IsMigration(entries[n]) then 1 else 0
  {
    hide IsMigration;
    var n := |entries| - 1;
    var before := entries[..n];
    assert forall i :: 0 <= i < n ==> before[i] == entries[i];
    assert n !in MigrationsAt(before);
    assert MigrationsAt(entries) == MigrationsAt(before) + if IsMigration(entries[n]) then {n} else {};
  }

  // ---- When the header compiles ----

  ghost function NumbersOf(ds: seq<Definition>): set<int> {
    set k | 0 <= k < |ds| :: ds[k].number
  }

  function Interval(n: nat): (s: set<int>)
    ensures |s| == n && forall v :: v in s <==> 1 <= v <= n
  {
    if n == 0 then {} else Interval(n - 1) + {n}
  }

  /** As many numbers as definitions means that none occurs twice. */
  lemma {:induction false} NumbersCount(ds: seq<Definition>)
    ensures |NumbersOf(ds)| <= |ds|
    ensures |NumbersOf(ds)| == |ds| <==> forall i, j :: 0 <= i < j < |ds| ==> ds[i].number != ds[j].number
    decreases |ds|
  {
    if ds != [] {
      var n := |ds| - 1;
      NumbersCount(ds[..n]);
      NumbersNext(ds);
      hide *;
      assert forall k :: 0 <= k < n ==> ds[..n][k] == ds[k];
    }
  }

  lemma {:induction false} NumbersNext(ds: seq<Definition>)
    requires ds != []
    ensures
      var n := |ds| - 1;
      && |NumbersOf(ds)| == |NumbersOf(ds[..n])| + (if ds[n].number in NumbersOf(ds[..n]) then 0 else 1)
      && (ds[n].number in NumbersOf(ds[..n]) <==> exists i :: 0 <= i < n && ds[i].number == ds[n].number)
  {
    var n := |ds| - 1;
    var before := ds[..n];
    assert forall k :: 0 <= k < n ==> before[k] == ds[k];
    forall v | v in NumbersOf(ds) ensures v in NumbersOf(before) + {ds[n].number} {
      var k :| 0 <= k < |ds| && ds[k].number == v;
      assert k < n ==> before[k].number == v;
    }
    forall v | v in NumbersOf(before) ensures v in NumbersOf(ds) {
      var k :| 0 <= k < n && before[k].number == v;
      assert ds[k].number == v;
    }
    assert NumbersOf(ds) == NumbersOf(before) + {ds[n].number};
    OneMore(NumbersOf(before), ds[n].number);
    if ds[n].number in NumbersOf(before) {
      var k :| 0 <= k < n && before[k].number == ds[n].number;
      assert ds[k].number == ds[n].number;
      assert exists i :: 0 <= i < n && ds[i].number == ds[n].number;
    }
    if i :| 0 <= i < n && ds[i].number == ds[n].number {
      assert before[i].number in NumbersOf(before);
    }
  }

  lemma {:induction false} OneMore(numbers: set<int>, v: int)
    ensures |numbers + {v}| == |numbers| + (if v in numbers then 0 else 1)
  {
    if v in numbers { assert numbers + {v} == numbers; }
  }

  lemma {:induction false} SubsetOfSize(a: set<int>, b: set<int>)
    requires a <= b
    ensures |a| <= |b|
    ensures |a| == |b| ==> a == b
  {
    var rest := b - a;
    assert b == a + rest && a !! rest;
  }

  /** The header compiles exactly when the n files are numbered 1 to n, each number once. */
  lemma {:induction false} CompilesExact(entries: seq<Entry>)
    ensures Compiles(HeaderOf(entries)) <==>
            NumbersOf(Definitions(entries)) == Interval(|Definitions(entries)|)
  {
    hide Definitions, Interval;
    var ds := Definitions(entries);
    var n := |ds|;
    NumbersCount(ds);
    if Compiles(HeaderOf(entries)) {
      forall v | v in Interval(n) ensures v in NumbersOf(ds) {
        assert HeaderOf(entries).slots[v - 1] == v;
      }
      SubsetOfSize(Interval(n), NumbersOf(ds));
    }
    if NumbersOf(ds) == Interval(n) {
      forall k | 0 <= k < n ensures Defines(ds, HeaderOf(entries).slots[k]) {
        assert k + 1 in NumbersOf(ds);
      }
    }
  }

  // ---- The order of the directory does not matter ----

  lemma {:induction false} SameElementsNotLonger<T>(xs: seq<T>, ys: seq<T>)
    requires NoDuplicates(xs) && forall k :: 0 <= k < |xs| ==> Has(ys, xs[k])
    ensures |xs| <= |ys|
    decreases |xs|
  {
    if xs != [] {
      var x := xs[0];
      var i :| 0 <= i < |ys| && ys[i] == x;
      var rest := RemoveAt(ys, i);
      forall k | 0 <= k < |xs[1..]| ensures Has(rest, xs[1..][k]) {
        assert Has(ys, xs[k + 1]);
        var j :| 0 <= j < |ys| && ys[j] == xs[k + 1];
        assert rest[if j < i then j else j - 1] == xs[1..][k];
      }
      SameElementsNotLonger(xs[1..], rest);
    }
  }

  ghost predicate SameDirectory(entries: seq<Entry>, others: seq<Entry>) {
    Names(entries) && Names(others) && forall e :: Has(entries, e) <==> Has(others, e)
  }

  lemma {:induction false} SameDefinitions(entries: seq<Entry>, others: seq<Entry>, d: Definition)
    requires SameDirectory(entries, others)
    requires Has(Definitions(entries), d)
    ensures Has(Definitions(others), d)
  {
    DefinitionsMeaning(entries, d);
    DefinitionsMeaning(others, d);
    hide IsMigration, Number, Definitions;
    var i :| 0 <= i < |entries| && IsMigration(entries[i]) && d == Definition(Number(entries[i].name), entries[i].name);
    assert Has(entries, entries[i]);
    var j :| 0 <= j < |others| && others[j] == entries[i];
  }

  lemma {:induction false} NotLonger(entries: seq<Entry>, others: seq<Entry>)
    requires SameDirectory(entries, others)
    ensures |Definitions(entries)| <= |Definitions(others)|
    ensures NumbersOf(Definitions(entries)) <= NumbersOf(Definitions(others))
  {
    var ds, es := Definitions(entries), Definitions(others);
    DefinitionsDiffer(entries);
    forall k | 0 <= k < |ds| ensures Has(es, ds[k]) && ds[k].number in NumbersOf(es) {
      assert Has(ds, ds[k]);
      SameDefinitions(entries, others, ds[k]);
      var j :| 0 <= j < |es| && es[j] == ds[k];
    }
    SameElementsNotLonger(ds, es);
  }

  /** The table, its size and what each of its indices stands for do not depend on the order. */
  lemma {:induction false} OrderDoesNotMatter(entries: seq<Entry>, others: seq<Entry>)
    requires SameDirectory(entries, others)
    ensures
      var h, h' := HeaderOf(entries), HeaderOf(others);
      && h.slots == h'.slots && h.count == h'.count
      && (forall d :: Has(h.definitions, d) <==> Has(h'.definitions, d))
      && (Compiles(h) <==> Compiles(h'))
  {
    NotLonger(entries, others);
    NotLonger(others, entries);
    CompilesExact(entries);
    CompilesExact(others);
    forall d ensures Has(Definitions(entries), d) <==> Has(Definitions(others), d) {
      if Has(Definitions(entries), d) { SameDefinitions(entries, others, d); }
      if Has(Definitions(others), d) { SameDefinitions(others, entries, d); }
    }
  }

  /** In a header that compiles, index v of the table is the one file with that number. */
  lemma {:induction false} TableIsByNumber(entries: seq<Entry>, v: int) returns (i: nat)
    requires Names(entries) && Compiles(HeaderOf(entries)) && 1 <= v <= HeaderOf(entries).count
    ensures i < |entries| && IsMigration(entries[i]) && Number(entries[i].name) == v
    ensures Has(Definitions(entries), Definition(v, entries[i].name))
    ensures forall j :: 0 <= j < |entries| && IsMigration(entries[j]) && Number(entries[j].name) == v ==> j == i
  {
    hide IsMigration, Number, Definitions, HeaderOf, Compiles;
    var ds := Definitions(entries);
    NumberedOnce(entries, v);
    var k :| 0 <= k < |ds| && ds[k].number == v;
    assert Has(ds, ds[k]);
    DefinitionsMeaning(entries, ds[k]);
    i :| 0 <= i < |entries| && IsMigration(entries[i]) && ds[k] == Definition(Number(entries[i].name), entries[i].name);
    forall j | 0 <= j < |entries| && IsMigration(entries[j]) && Number(entries[j].name) == v ensures j == i {
      var d := Definition(Number(entries[j].name), entries[j].name);
      assert Stems(entries, d);
      DefinitionsMeaning(entries, d);
      var m :| 0 <= m < |ds| && ds[m] == d;
      assert m == k;
    }
  }

  lemma {:induction false} NumberedOnce(entries: seq<Entry>, v: int)
    requires Compiles(HeaderOf(entries)) && 1 <= v <= HeaderOf(entries).count
    ensures
      var ds := Definitions(entries);
      && Defines(ds, v)
      && forall k, m :: 0 <= k < |ds| && 0 <= m < |ds| && ds[k].number == ds[m].number ==> k == m
  {
    hide Definitions;
    assert HeaderOf(entries).slots[v - 1] == v;
  }

  /** A file called just ".sql" is counted with number 0, and then the header cannot compile. */
  lemma {:induction false} UnnumberedFileBreaks(entries: seq<Entry>, i: nat)
    requires i < |entries| && entries[i] == Entry(true, SUFFIX)
    ensures !Compiles(HeaderOf(entries))
  {
    var d := Definition(Number(SUFFIX), SUFFIX);
    DefinitionsMeaning(entries, d);
    CompilesExact(entries);
    assert IsMigration(entries[i]) && Number(SUFFIX) == 0;
    assert Stems(entries, d);
    hide IsMigration, Number, Definitions;
    var k :| 0 <= k < |Definitions(entries)| && Definitions(entries)[k] == d;
    assert 0 in NumbersOf(Definitions(entries));
  }

  /** A file named by a positive int has that number. */
  lemma {:induction false} NamedByNumber(n: nat)
    requires 0 < n < 0x8000_0000
    ensures IsMigration(Entry(true, Printed(n) + SUFFIX)) && Number(Printed(n) + SUFFIX) == n
  {
    var name := Printed(n) + SUFFIX;
    AtoiDigits(n, SUFFIX);
    assert name[|name| - |SUFFIX|..] == SUFFIX && name[..|name| - |SUFFIX|] == Printed(n);
  }
}
