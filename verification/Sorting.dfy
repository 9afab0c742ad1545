/** The contract of the C library's `qsort`: any sorted permutation, with no promise about ties. */
module Sorting {

  ghost predicate Sorted<T>(s: seq<T>, key: T -> int) {
    forall i, j :: 0 <= i < j < |s| ==> key(s[i]) <= key(s[j])
  }

  function Insert<T>(x: T, s: seq<T>, key: T -> int): (r: seq<T>)
    ensures multiset(r) == multiset{x} + multiset(s)
    ensures |r| == |s| + 1
  {
    if s == [] || key(x) <= key(s[0]) then [x] + s
    else
      assert s == [s[0]] + s[1..];
      [s[0]] + Insert(x, s[1..], key)
  }

  lemma {:induction false} InsertKeepsSorted<T>(x: T, s: seq<T>, key: T -> int)
    requires Sorted(s, key)
    ensures Sorted(Insert(x, s, key), key)
  {
    if s != [] && key(x) > key(s[0]) {
      var rest := Insert(x, s[1..], key);
      InsertKeepsSorted(x, s[1..], key);
      forall y | y in rest ensures key(s[0]) <= key(y) {
        assert y in multiset(rest);
        assert y == x || y in s[1..];
      }
      assert Insert(x, s, key) == [s[0]] + rest;
    }
  }

  function Sort<T>(s: seq<T>, key: T -> int): (r: seq<T>)
    ensures multiset(r) == multiset(s)
    ensures |r| == |s|
    ensures Sorted(r, key)
  {
    if s == [] then []
    else
      assert s == [s[0]] + s[1..];
      InsertKeepsSorted(s[0], Sort(s[1..], key), key);
      Insert(s[0], Sort(s[1..], key), key)
  }

  /** `qsort(base + lo, hi - lo, size, cmp)` on an array, in place. */
  method SortSegment<T>(a: array<T>, lo: nat, hi: nat, key: T -> int)
    requires lo <= hi <= a.Length
    modifies a
    ensures multiset(a[lo..hi]) == multiset(old(a[lo..hi]))
    ensures Sorted(a[lo..hi], key)
    ensures a[..lo] == old(a[..lo]) && a[hi..] == old(a[hi..])
  {
    var s := Sort(a[lo..hi], key);
    forall i | lo <= i < hi {
      a[i] := s[i - lo];
    }
    assert a[lo..hi] == s;
  }

  /** The two sequences hold the same elements. */
  lemma {:induction false} SameElements<T>(s: seq<T>, r: seq<T>)
    requires multiset(s) == multiset(r)
    ensures forall x :: x in s <==> x in r
    ensures |s| == |r|
  {
    forall x ensures x in s <==> x in r {
      assert x in s <==> x in multiset(s);
      assert x in r <==> x in multiset(r);
    }
    assert |multiset(s)| == |s| && |multiset(r)| == |r|;
  }

  /** Dropping an element from two permutations of each other leaves permutations of each other. */
  lemma {:induction false} DropBoth<T>(s: seq<T>, r: seq<T>, j: nat)
    requires multiset(s) == multiset(r) && s != [] && j < |r| && r[j] == s[|s| - 1]
    ensures multiset(r[..j] + r[j + 1..]) == multiset(s[..|s| - 1])
  {
    assert s == s[..|s| - 1] + [r[j]];
    assert multiset(s[..|s| - 1]) == multiset(s) - multiset{r[j]};
    assert r == r[..j] + [r[j]] + r[j + 1..];
    assert multiset(r[..j] + r[j + 1..]) == multiset(r) - multiset{r[j]};
  }

  ghost predicate Distinct<T>(s: seq<T>) {
    forall i, j :: 0 <= i < j < |s| ==> s[i] != s[j]
  }

  lemma {:induction false} CountsBelowTwo<T>(s: seq<T>)
    ensures Distinct(s) <==> forall x :: multiset(s)[x] <= 1
  {
    if s != [] {
      var n := |s| - 1;
      assert s == s[..n] + [s[n]];
      CountsBelowTwo(s[..n]);
      if Distinct(s) {
        assert Distinct(s[..n]) && s[n] !in s[..n];
        assert s[n] !in multiset(s[..n]);
      } else if Distinct(s[..n]) {
        var i, j :| 0 <= i < j < |s| && s[i] == s[j];
        assert j == n && s[..n][i] == s[n];
        assert s[n] in multiset(s[..n]);
        assert multiset(s)[s[n]] >= 2;
      } else {
        var x :| multiset(s[..n])[x] > 1;
        assert multiset(s)[x] > 1;
      }
    }
  }

  /** A permutation of a sequence without repetitions has none either. */
  lemma {:induction false} DistinctPermutation<T>(s: seq<T>, r: seq<T>)
    requires multiset(s) == multiset(r) && Distinct(s)
    ensures Distinct(r)
  {
    CountsBelowTwo(s);
    CountsBelowTwo(r);
  }
}
