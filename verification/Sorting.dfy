// Sorting with a comparison function, as the standard library's sort promises it:
// some sorted permutation, with no order promised among equivalent elements.

module Sorting {

  /** What a sort demands of its comparison function on the elements it is given. */
  ghost predicate StrictWeakOrderOn<T>(less: (T, T) -> bool, s: seq<T>) {
    && (forall a :: a in s ==> !less(a, a))
    && (forall a, b, c :: a in s && b in s && c in s && less(a, b) && less(b, c) ==> less(a, c))
    && (forall a, b, c :: a in s && b in s && c in s && !less(a, b) && !less(b, c) ==> !less(a, c))
  }

  ghost predicate Sorted<T>(less: (T, T) -> bool, s: seq<T>) {
    forall i, j :: 0 <= i < j < |s| ==> !less(s[j], s[i])
  }

  ghost predicate SortedPermutation<T>(less: (T, T) -> bool, s: seq<T>, r: seq<T>) {
    Sorted(less, r) && multiset(r) == multiset(s)
  }

  lemma PermutationsHaveSameElements<T>(a: seq<T>, b: seq<T>, x: T)
    requires multiset(a) == multiset(b)
    ensures x in a <==> x in b
  {
    assert x in a <==> x in multiset(a);
    assert x in b <==> x in multiset(b);
  }

  function InsertSorted<T>(less: (T, T) -> bool, x: T, s: seq<T>): seq<T> {
    if s == [] then [x]
    else if less(s[0], x) then [s[0]] + InsertSorted(less, x, s[1..])
    else [x] + s
  }

  lemma {:induction false} InsertSortedElements<T>(less: (T, T) -> bool, x: T, s: seq<T>)
    ensures multiset(InsertSorted(less, x, s)) == multiset([x] + s)
  {
    if s != [] {
      assert s == [s[0]] + s[1..];
      InsertSortedElements(less, x, s[1..]);
    }
  }

  lemma SortedCons<T>(less: (T, T) -> bool, first: T, rest: seq<T>)
    requires Sorted(less, rest) && forall y :: y in rest ==> !less(y, first)
    ensures Sorted(less, [first] + rest)
  {}

  lemma {:induction false} InsertSortedIsSorted<T>(less: (T, T) -> bool, x: T, s: seq<T>)
    requires StrictWeakOrderOn(less, [x] + s) && Sorted(less, s)
    ensures Sorted(less, InsertSorted(less, x, s))
  {
    if s == [] {
    } else if less(s[0], x) {
      var rest := InsertSorted(less, x, s[1..]);
      assert forall y :: y in [x] + s[1..] ==> y in [x] + s;
      InsertSortedIsSorted(less, x, s[1..]);
      InsertSortedElements(less, x, s[1..]);
      forall y | y in rest ensures !less(y, s[0]) {
        PermutationsHaveSameElements(rest, [x] + s[1..], y);
        assert x in [x] + s && s[0] in [x] + s;
      }
      SortedCons(less, s[0], rest);
    } else {
      forall y | y in s ensures !less(y, x) {
        assert y == s[0] || !less(y, s[0]);
        assert x in [x] + s && s[0] in [x] + s && y in [x] + s;
      }
      SortedCons(less, x, s);
    }
  }

  function SortBy<T>(less: (T, T) -> bool, s: seq<T>): seq<T> {
    if s == [] then [] else InsertSorted(less, s[0], SortBy(less, s[1..]))
  }

  lemma {:induction false} SortByIsSorted<T>(less: (T, T) -> bool, s: seq<T>)
    requires StrictWeakOrderOn(less, s)
    ensures SortedPermutation(less, s, SortBy(less, s))
  {
    if s != [] {
      assert forall y :: y in s[1..] ==> y in s;
      SortByIsSorted(less, s[1..]);
      var rest := SortBy(less, s[1..]);
      forall y | y in [s[0]] + rest ensures y in s {
        PermutationsHaveSameElements(rest, s[1..], y);
      }
      InsertSortedIsSorted(less, s[0], rest);
      InsertSortedElements(less, s[0], rest);
      assert s == [s[0]] + s[1..];
    }
  }

  /** An unstable sort: callers know only that the result is a sorted permutation. */
  method Sort<T>(s: seq<T>, less: (T, T) -> bool) returns (r: seq<T>)
    requires StrictWeakOrderOn(less, s)
    ensures SortedPermutation(less, s, r)
  {
    r := SortBy(less, s);
    SortByIsSorted(less, s);
  }

  lemma FirstIsMinimal<T>(less: (T, T) -> bool, s: seq<T>, x: T)
    requires Sorted(less, s) && x in s
    ensures x == s[0] || !less(x, s[0])
  {}

  lemma TailElements<T>(s: seq<T>)
    requires s != []
    ensures multiset(s[1..]) == multiset(s) - multiset{s[0]}
  {
    assert s == [s[0]] + s[1..];
  }

  lemma SortedPermutationsStartEqual<T>(less: (T, T) -> bool, a: seq<T>, b: seq<T>)
    requires Sorted(less, a) && Sorted(less, b) && multiset(a) == multiset(b) && a != []
    requires forall x, y :: x in a && y in a && x != y ==> less(x, y) || less(y, x)
    ensures b != [] && a[0] == b[0] && multiset(a[1..]) == multiset(b[1..])
  {
    PermutationsHaveSameElements(a, b, a[0]);
    PermutationsHaveSameElements(a, b, b[0]);
    FirstIsMinimal(less, b, a[0]);
    FirstIsMinimal(less, a, b[0]);
    hide Sorted;
    TailElements(a);
    TailElements(b);
  }

  /** Where different elements are always comparable, there is only one sorted permutation. */
  lemma {:induction false} SortedPermutationIsUnique<T>(less: (T, T) -> bool, a: seq<T>, b: seq<T>)
    requires Sorted(less, a) && Sorted(less, b) && multiset(a) == multiset(b)
    requires forall x, y :: x in a && y in a && x != y ==> less(x, y) || less(y, x)
    ensures a == b
    decreases |a|
  {
    if a == [] {
      assert |b| == |multiset(b)| == 0;
    } else {
      SortedPermutationsStartEqual(less, a, b);
      assert forall x :: x in a[1..] ==> x in a;
      SortedPermutationIsUnique(less, a[1..], b[1..]);
      assert a == [a[0]] + a[1..] && b == [b[0]] + b[1..];
    }
  }

  ghost predicate Distinct<T>(s: seq<T>) { forall i, j :: 0 <= i < j < |s| ==> s[i] != s[j] }

  lemma {:induction false} DistinctCount<T>(s: seq<T>, x: T)
    requires Distinct(s)
    ensures multiset(s)[x] == if x in s then 1 else 0
  {
    if s != [] {
      assert s == [s[0]] + s[1..];
      DistinctCount(s[1..], x);
    }
  }

  lemma RepeatedCount<T>(s: seq<T>, i: nat, j: nat)
    requires i < j < |s| && s[i] == s[j]
    ensures multiset(s)[s[i]] >= 2
  {
    assert s == s[..j] + ([s[j]] + s[j + 1..]);
    assert s[..j][i] == s[j] && multiset(s[..j])[s[j]] >= 1;
    assert multiset(s) == multiset(s[..j]) + multiset([s[j]] + s[j + 1..]);
  }

  lemma DistinctPermuted<T>(a: seq<T>, b: seq<T>)
    requires Distinct(a) && multiset(a) == multiset(b)
    ensures Distinct(b)
  {
    forall i, j | 0 <= i < j < |b| ensures b[i] != b[j] {
      if b[i] == b[j] {
        RepeatedCount(b, i, j);
        DistinctCount(a, b[i]);
      }
    }
  }
}
