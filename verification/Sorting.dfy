/** Sorting as the sources rely on it: some permutation that the comparator finds in order. */
module Sorting {

  /** What a Go comparator must satisfy: "not after" is transitive. */
  ghost predicate WeakOrder<T(!new)>(less: (T, T) -> bool) {
    && (forall a, b :: less(a, b) ==> !less(b, a))
    && (forall a, b, c :: !less(b, a) && !less(c, b) ==> !less(c, a))
  }

  ghost predicate Asymmetric<T(!new)>(less: (T, T) -> bool) {
    forall a, b :: less(a, b) ==> !less(b, a)
  }

  predicate Sorted<T>(less: (T, T) -> bool, s: seq<T>) {
    forall i, j | 0 <= i < j < |s| :: !less(s[j], s[i])
  }

  predicate StrictlySorted<T>(less: (T, T) -> bool, s: seq<T>) {
    forall i, j | 0 <= i < j < |s| :: less(s[i], s[j])
  }

  ghost predicate Distinct<T>(s: seq<T>) {
    forall i, j | 0 <= i < j < |s| :: s[i] != s[j]
  }

  ghost function Elems<T>(s: seq<T>): set<T> {
    set x | x in s
  }

  lemma ElemsAppend<T>(s: seq<T>, x: T)
    ensures Elems(s + [x]) == Elems(s) + {x}
  {
    forall y ensures y in s + [x] <==> y in s || y == x {
      if y in s {
        var i :| 0 <= i < |s| && s[i] == y;
        assert (s + [x])[i] == y;
      }
      assert (s + [x])[|s|] == x;
    }
  }

  lemma NotAfterPrefix<T(!new)>(less: (T, T) -> bool, r: seq<T>, p: nat, x: T)
    requires WeakOrder(less) && Sorted(less, r) && p <= |r|
    requires p > 0 ==> !less(x, r[p - 1])
    requires forall i | p <= i < |r| :: less(x, r[i])
    ensures forall i | 0 <= i < p :: !less(x, r[i])
    ensures forall i | p <= i < |r| :: !less(r[i], x)
  {
    forall i | 0 <= i < p - 1 ensures !less(x, r[i]) {
      assert !less(r[p - 1], r[i]);
    }
  }

  lemma InsertKeepsSorted<T>(less: (T, T) -> bool, r: seq<T>, p: nat, x: T)
    requires Sorted(less, r) && p <= |r|
    requires forall i | 0 <= i < p :: !less(x, r[i])
    requires forall i | p <= i < |r| :: !less(r[i], x)
    ensures Sorted(less, r[..p] + [x] + r[p..])
    ensures multiset(r[..p] + [x] + r[p..]) == multiset(r) + multiset{x}
  {
    assert r == r[..p] + r[p..];
  }

  method Sort<T(!new)>(s: seq<T>, less: (T, T) -> bool) returns (r: seq<T>)
    requires WeakOrder(less)
    ensures multiset(r) == multiset(s)
    ensures Sorted(less, r)
  {
    r := [];
    for n := 0 to |s|
      invariant multiset(r) == multiset(s[..n])
      invariant Sorted(less, r)
    {
      var p := |r|;
      while p > 0 && less(s[n], r[p - 1])
        invariant 0 <= p <= |r|
        invariant forall i | p <= i < |r| :: less(s[n], r[i])
      {
        p := p - 1;
      }
      assert s[..n + 1] == s[..n] + [s[n]];
      NotAfterPrefix(less, r, p, s[n]);
      InsertKeepsSorted(less, r, p, s[n]);
      r := r[..p] + [s[n]] + r[p..];
    }
    assert s[..|s|] == s;
  }

  lemma PermutationFacts<T>(s: seq<T>, r: seq<T>)
    requires multiset(s) == multiset(r)
    ensures |s| == |r|
    ensures Elems(s) == Elems(r)
    ensures Distinct(s) ==> Distinct(r)
  {
    assert |s| == |multiset(s)| == |multiset(r)| == |r|;
    forall x ensures x in s <==> x in r {
      assert x in s <==> x in multiset(s);
      assert x in r <==> x in multiset(r);
    }
    if Distinct(s) {
      forall x ensures multiset(s)[x] <= 1 { DistinctCountsOnce(s, x); }
      forall i, j | 0 <= i < j < |r| ensures r[i] != r[j] {
        assert r == r[..j] + [r[j]] + r[j + 1..];
        assert multiset(r)[r[j]] == multiset(r[..j])[r[j]] + 1 + multiset(r[j + 1..])[r[j]];
        assert r[i] == r[..j][i] && r[i] in multiset(r[..j]);
      }
    }
  }

  lemma {:induction false} DistinctCountsOnce<T>(s: seq<T>, x: T)
    requires Distinct(s)
    ensures multiset(s)[x] <= 1
  {
    if s != [] {
      assert s == [s[0]] + s[1..];
      DistinctCountsOnce(s[1..], x);
      if x == s[0] { assert x !in s[1..]; }
    }
  }

  /** A strictly sorted sequence is determined by its set of elements. */
  lemma {:induction false} StrictlySortedUnique<T(!new)>(less: (T, T) -> bool, s: seq<T>, t: seq<T>)
    requires Asymmetric(less)
    requires StrictlySorted(less, s) && StrictlySorted(less, t)
    requires Elems(s) == Elems(t)
    ensures s == t
  {
    if s == [] {
      assert forall i | 0 <= i < |t| :: t[i] in Elems(t);
    } else {
      assert s[0] in Elems(s);
      var i :| 0 <= i < |t| && t[i] == s[0];
      assert t[0] in Elems(t);
      var j :| 0 <= j < |s| && s[j] == t[0];
      assert s[0] == t[0];
      forall x ensures x in Elems(s[1..]) <==> x in Elems(t[1..]) {
        assert x in Elems(s[1..]) <==> x in Elems(s) && x != s[0];
        assert x in Elems(t[1..]) <==> x in Elems(t) && x != t[0];
      }
      StrictlySortedUnique(less, s[1..], t[1..]);
      assert s == [s[0]] + s[1..] && t == [t[0]] + t[1..];
    }
  }

  /** Sorting distinct elements with a comparator that separates them gives a strict order. */
  lemma SortedDistinctIsStrict<T>(less: (T, T) -> bool, r: seq<T>)
    requires Sorted(less, r) && Distinct(r)
    requires forall i, j | 0 <= i < |r| && 0 <= j < |r| && r[i] != r[j] :: less(r[i], r[j]) || less(r[j], r[i])
    ensures StrictlySorted(less, r)
  {
  }

  // ---- Filtering ----

  function Filter<T>(s: seq<T>, keep: T -> bool): seq<T> {
    if s == [] then []
    else
      var rest := Filter(s[..|s| - 1], keep);
      if keep(s[|s| - 1]) then rest + [s[|s| - 1]] else rest
  }

  lemma {:induction false} FilterCounts<T>(s: seq<T>, keep: T -> bool, x: T)
    ensures multiset(Filter(s, keep))[x] == if keep(x) then multiset(s)[x] else 0
  {
    if s != [] {
      FilterCounts(s[..|s| - 1], keep, x);
      assert s == s[..|s| - 1] + [s[|s| - 1]];
    }
  }

  lemma {:induction false} FilterKeeps<T>(s: seq<T>, keep: T -> bool, i: nat)
    requires i < |Filter(s, keep)|
    ensures keep(Filter(s, keep)[i]) && Filter(s, keep)[i] in s
  {
    var n := |s| - 1;
    assert s == s[..n] + [s[n]];
    if i < |Filter(s[..n], keep)| {
      FilterKeeps(s[..n], keep, i);
    }
  }

  lemma {:induction false} FilterSorted<T>(s: seq<T>, keep: T -> bool, less: (T, T) -> bool)
    requires Sorted(less, s)
    ensures Sorted(less, Filter(s, keep))
  {
    if s != [] {
      var n := |s| - 1;
      FilterSorted(s[..n], keep, less);
      var rest := Filter(s[..n], keep);
      forall i | 0 <= i < |rest| ensures !less(s[n], rest[i]) {
        FilterKeeps(s[..n], keep, i);
        var j :| 0 <= j < n && s[j] == rest[i];
      }
    }
  }

  lemma {:induction false} FilterStrict<T>(s: seq<T>, keep: T -> bool, less: (T, T) -> bool)
    requires StrictlySorted(less, s)
    ensures StrictlySorted(less, Filter(s, keep))
  {
    if s != [] {
      var n := |s| - 1;
      FilterStrict(s[..n], keep, less);
      var rest := Filter(s[..n], keep);
      forall i | 0 <= i < |rest| ensures less(rest[i], s[n]) {
        FilterKeeps(s[..n], keep, i);
        var j :| 0 <= j < n && s[j] == rest[i];
      }
    }
  }

  ghost function ElemsWhere<T>(s: seq<T>, keep: T -> bool): set<T> {
    set x | x in Elems(s) && keep(x)
  }

  lemma FilterElems<T>(s: seq<T>, keep: T -> bool)
    ensures Elems(Filter(s, keep)) == ElemsWhere(s, keep)
  {
    forall x | x in Elems(Filter(s, keep)) ensures x in ElemsWhere(s, keep) {
      assert x in multiset(Filter(s, keep));
      FilterCounts(s, keep, x);
    }
    forall x | x in ElemsWhere(s, keep) ensures x in Elems(Filter(s, keep)) {
      assert x in multiset(s);
      FilterCounts(s, keep, x);
      assert x in multiset(Filter(s, keep));
    }
  }

  lemma FilterIn<T>(s: seq<T>, keep: T -> bool, x: T)
    ensures x in Filter(s, keep) <==> x in s && keep(x)
  {
    FilterElems(s, keep);
    assert x in Filter(s, keep) <==> x in Elems(Filter(s, keep));
  }

  lemma CountAppend<T>(s: seq<T>, x: T, y: T)
    ensures multiset(s + [x])[y] == multiset(s)[y] + if x == y then 1 else 0
  {
  }
}
