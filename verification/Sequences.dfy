/** Sequences without repetitions and picking from finite sets. */
module Sequences {
  ghost predicate NoDuplicates<T>(xs: seq<T>) {
    forall i, j :: 0 <= i < j < |xs| ==> xs[i] != xs[j]
  }

  function RemoveAt<T>(xs: seq<T>, i: nat): seq<T>
    requires i < |xs|
  {
    xs[..i] + xs[i + 1..]
  }

  lemma {:induction false} RemoveAtMeaning<T>(xs: seq<T>, i: nat)
    requires i < |xs| && NoDuplicates(xs)
    ensures NoDuplicates(RemoveAt(xs, i))
    ensures forall x :: x in RemoveAt(xs, i) <==> x in xs && x != xs[i]
  {
  }

  lemma {:induction false} AnyOf<T>(xs: set<T>) returns (x: T)
    requires xs != {}
    ensures x in xs
  {
    x :| x in xs;
  }

  /** A finite set can be listed without repetition. */
  lemma {:induction false} Listing<T>(xs: set<T>) returns (list: seq<T>)
    ensures NoDuplicates(list) && (forall x :: x in list <==> x in xs)
    decreases |xs|
  {
    list := [];
    if xs != {} {
      var x := AnyOf(xs);
      var rest := Listing(xs - {x});
      list := [x] + rest;
    }
  }

  ghost predicate StrictlyIncreasing(xs: seq<int>) {
    forall i, j :: 0 <= i < j < |xs| ==> xs[i] < xs[j]
  }

  lemma {:induction false} Greatest(xs: set<int>) returns (m: int)
    requires xs != {}
    ensures m in xs && forall x :: x in xs ==> x <= m
    decreases |xs|
  {
    m := AnyOf(xs);
    if xs != {m} {
      var n := Greatest(xs - {m});
      assert forall x :: x in xs ==> x == m || x in xs - {m};
      if n > m { m := n; }
    } else {
      assert forall x :: x in xs ==> x in {m};
    }
  }

  /** And a finite set of numbers in increasing order. */
  lemma {:induction false} Sorted(xs: set<int>) returns (list: seq<int>)
    ensures StrictlyIncreasing(list)
    ensures (forall i :: 0 <= i < |list| ==> list[i] in xs) && (forall x :: x in xs ==> x in list)
    decreases |xs|
  {
    list := [];
    if xs != {} {
      var m := Greatest(xs);
      var rest := Sorted(xs - {m});
      list := rest + [m];
    }
  }
}
