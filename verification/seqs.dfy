/** Sequence facts used by the pattern-mapping model: search for the first
    occurrence, and de-duplication in first-appearance order. */
module Seqs {
  import opened Js

  predicate NoDup<T(==)>(s: seq<T>) {
    forall i, j :: 0 <= i < j < |s| ==> s[i] != s[j]
  }

  /** Position of the first occurrence of `x` in `s`, as `findIndex` gives it. */
  function IndexOf<T(==)>(s: seq<T>, x: T): (r: Option<nat>)
    ensures r.None? <==> x !in s
    ensures r.Some? ==> r.value < |s| && s[r.value] == x && x !in s[..r.value]
  {
    if s == [] then None
    else if s[0] == x then Some(0)
    else match IndexOf(s[1..], x)
      case None => None
      case Some(j) =>
        assert s[..j + 1] == [s[0]] + s[1..][..j];
        Some(j + 1)
  }

  /** The first occurrence is the only position before which `x` does not occur. */
  lemma IndexOfUnique<T>(s: seq<T>, x: T, k: nat)
    requires k < |s| && s[k] == x && x !in s[..k]
    ensures IndexOf(s, x) == Some(k)
  {
    var r := IndexOf(s, x).value;
    assert forall i :: 0 <= i < k ==> s[..k][i] == s[i];
    assert forall i :: 0 <= i < r ==> s[..r][i] == s[i];
  }

  lemma IndexOfNoDup<T>(s: seq<T>, k: nat)
    requires NoDup(s) && k < |s|
    ensures IndexOf(s, s[k]) == Some(k)
  {
    IndexOfUnique(s, s[k], k);
  }

  /** Appending after the first occurrence does not move it. */
  lemma IndexOfAppend<T>(s: seq<T>, t: seq<T>, x: T)
    requires x in s
    ensures IndexOf(s + t, x) == IndexOf(s, x)
  {
    var k := IndexOf(s, x).value;
    assert (s + t)[..k] == s[..k];
    IndexOfUnique(s + t, x, k);
  }

  /** The elements of `s` without repetition, each kept at its first
      occurrence: what `[...new Set(s)]` builds by inserting in order. */
  function Distinct<T(==,!new)>(s: seq<T>): (r: seq<T>)
    ensures NoDup(r)
    ensures forall x :: x in r <==> x in s
    decreases |s|
  {
    if s == [] then []
    else
      var d := Distinct(s[..|s| - 1]);
      assert s == s[..|s| - 1] + [s[|s| - 1]];
      if s[|s| - 1] in d then d else d + [s[|s| - 1]]
  }

  lemma DistinctSnoc<T(!new)>(s: seq<T>, x: T)
    ensures Distinct(s + [x]) == if x in s then Distinct(s) else Distinct(s) + [x]
  {
    assert (s + [x])[..|s|] == s;
  }

  /** A sequence without repetition is its own de-duplication. */
  lemma {:induction false} DistinctOfNoDup<T(!new)>(s: seq<T>)
    requires NoDup(s)
    ensures Distinct(s) == s
    decreases |s|
  {
    if s != [] {
      var p := s[..|s| - 1];
      assert s == p + [s[|s| - 1]];
      DistinctOfNoDup(p);
      DistinctSnoc(p, s[|s| - 1]);
    }
  }

  /** De-duplicating a prefix first changes nothing. */
  lemma {:induction false} DistinctOfDistinctPrefix<T(!new)>(a: seq<T>, b: seq<T>)
    ensures Distinct(Distinct(a) + b) == Distinct(a + b)
    decreases |b|
  {
    if b == [] {
      assert Distinct(a) + b == Distinct(a) && a + b == a;
      DistinctOfNoDup(Distinct(a));
    } else {
      var b', y := b[..|b| - 1], b[|b| - 1];
      DistinctOfDistinctPrefix(a, b');
      assert Distinct(a) + b == (Distinct(a) + b') + [y];
      assert a + b == (a + b') + [y];
      DistinctSnoc(Distinct(a) + b', y);
      DistinctSnoc(a + b', y);
    }
  }

  /** De-duplication keeps elements in the order of their first appearance. */
  lemma {:induction false} DistinctFirstAppearance<T(!new)>(s: seq<T>)
    ensures forall i, j :: 0 <= i < j < |Distinct(s)| ==>
      IndexOf(s, Distinct(s)[i]).value < IndexOf(s, Distinct(s)[j]).value
    decreases |s|
  {
    if s != [] {
      var p, x := s[..|s| - 1], s[|s| - 1];
      assert s == p + [x];
      DistinctFirstAppearance(p);
      DistinctSnoc(p, x);
      var d := Distinct(p);
      forall y | y in p
        ensures IndexOf(s, y) == IndexOf(p, y)
      {
        IndexOfAppend(p, [x], y);
      }
      if x !in p {
        assert s[..|p|] == p;
        IndexOfUnique(s, x, |p|);
      }
    }
  }

  /** De-duplicating a longer sequence only adds elements at the end. */
  lemma {:induction false} DistinctPrefix<T(!new)>(a: seq<T>, b: seq<T>)
    ensures Distinct(a) <= Distinct(a + b)
    decreases |b|
  {
    if b != [] {
      var b', y := b[..|b| - 1], b[|b| - 1];
      DistinctPrefix(a, b');
      assert a + b == (a + b') + [y];
      DistinctSnoc(a + b', y);
    } else {
      assert a + b == a;
    }
  }
}
