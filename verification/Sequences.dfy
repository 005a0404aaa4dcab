/** Facts about finite sequences and sets that several components share. */
module Sequences {

  predicate Distinct<T(==)>(s: seq<T>) {
    forall i, j :: 0 <= i < j < |s| ==> s[i] != s[j]
  }

  function Elems<T>(s: seq<T>): set<T> {
    set x | x in s
  }

  lemma DistinctAppend<T>(s: seq<T>, x: T)
    ensures Distinct(s + [x]) <==> Distinct(s) && x !in s
  {
    var t := s + [x];
    if Distinct(t) {
      assert forall i :: 0 <= i < |s| ==> t[i] == s[i];
      assert t[|s|] == x;
    }
  }

  predicate Inside<T(==)>(s: seq<T>, pool: set<T>) {
    forall i :: 0 <= i < |s| ==> s[i] in pool
  }

  lemma SubsetSize<T>(a: set<T>, b: set<T>)
    requires a <= b
    ensures |a| <= |b|
    ensures |a| == |b| ==> a == b
  {
    assert b == a + (b - a);
  }

  lemma {:induction false} DistinctSize<T>(s: seq<T>)
    requires Distinct(s)
    ensures |Elems(s)| == |s|
  {
    if s == [] {
    } else {
      var init, x := s[..|s| - 1], s[|s| - 1];
      DistinctSize(init);
      assert Elems(s) == Elems(init) + {x};
    }
  }

  /** A sequence longer than the set it draws from repeats an element. */
  lemma Pigeonhole<T>(s: seq<T>, pool: set<T>) returns (i: nat, j: nat)
    requires Inside(s, pool) && |pool| < |s|
    ensures i < j < |s| && s[i] == s[j]
  {
    if Distinct(s) {
      DistinctSize(s);
      SubsetSize(Elems(s), pool);
      assert false;
    }
    i, j :| 0 <= i < j < |s| && s[i] == s[j];
  }

  /** The elements of s that are kept, in the order of s. */
  function Select<T(==)>(s: seq<T>, keep: set<T>): seq<T> {
    if s == [] then [] else
      Select(s[..|s| - 1], keep) + (if s[|s| - 1] in keep then [s[|s| - 1]] else [])
  }

  lemma {:induction false} SelectMeaning<T>(s: seq<T>, keep: set<T>)
    ensures forall x :: x in Select(s, keep) <==> x in s && x in keep
    ensures Distinct(s) ==> Distinct(Select(s, keep))
  {
    if s != [] {
      SelectMeaning(s[..|s| - 1], keep);
      assert s == s[..|s| - 1] + [s[|s| - 1]];
      DistinctAppend(s[..|s| - 1], s[|s| - 1]);
    }
  }

  lemma {:induction false} SelectIgnoresOutsiders<T>(s: seq<T>, keep: set<T>, other: set<T>)
    requires forall x :: x in s ==> (x in keep <==> x in other)
    ensures Select(s, keep) == Select(s, other)
  {
    if s != [] {
      assert s == s[..|s| - 1] + [s[|s| - 1]];
      SelectIgnoresOutsiders(s[..|s| - 1], keep, other);
    }
  }

  lemma {:induction false} SelectAll<T>(s: seq<T>, keep: set<T>)
    requires forall x :: x in s ==> x in keep
    ensures Select(s, keep) == s
  {
    if s != [] {
      assert s == s[..|s| - 1] + [s[|s| - 1]];
      SelectAll(s[..|s| - 1], keep);
    }
  }
}
