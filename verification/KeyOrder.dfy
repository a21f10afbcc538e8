// Sorting elements by a string each of them carries.

module KeyOrders {
  import opened Text
  import opened Sorting

  lemma StringLessNegative(a: string, b: string, c: string)
    requires !StringLess(a, b) && !StringLess(b, c)
    ensures !StringLess(a, c)
  {
    StringLessTotal(a, b);
    StringLessTotal(b, c);
    if StringLess(a, c) {
      if a == b || b == c {
        assert false;
      } else {
        StringLessTransitive(c, b, a);
        StringLessTransitive(a, c, a);
        StringLessIrreflexive(a);
      }
    }
  }

  /** less compares elements by a string key. */
  ghost predicate ComparesKeys<T(!new)>(less: (T, T) -> bool, key: T -> string) {
    forall a, b :: less(a, b) <==> StringLess(key(a), key(b))
  }

  /** Sorting by a string key is well defined. */
  lemma KeyOrderIsWeak<T(!new)>(s: seq<T>, less: (T, T) -> bool, key: T -> string)
    requires ComparesKeys(less, key)
    ensures StrictWeakOrderOn(less, s)
  {
    forall a, b, c | a in s && b in s && c in s
      ensures !less(a, a)
      ensures less(a, b) && less(b, c) ==> less(a, c)
      ensures !less(a, b) && !less(b, c) ==> !less(a, c)
    {
      StringLessIrreflexive(key(a));
      if less(a, b) && less(b, c) {
        StringLessTransitive(key(a), key(b), key(c));
      }
      if !less(a, b) && !less(b, c) {
        StringLessNegative(key(a), key(b), key(c));
      }
    }
  }

  /** Sorting by keys that differ between different elements has one result. */
  lemma KeySortIsUnique<T(!new)>(s: seq<T>, sorted: seq<T>, less: (T, T) -> bool, key: T -> string)
    requires ComparesKeys(less, key) && SortedPermutation(less, s, sorted)
    requires forall x, y :: x in s && y in s && x != y ==> key(x) != key(y)
    ensures sorted == SortBy(less, s)
  {
    KeyOrderIsWeak(s, less, key);
    SortByIsSorted(less, s);
    forall x, y | x in sorted && y in sorted && x != y ensures less(x, y) || less(y, x) {
      PermutationsHaveSameElements(s, sorted, x);
      PermutationsHaveSameElements(s, sorted, y);
      StringLessTotal(key(x), key(y));
    }
    SortedPermutationIsUnique(less, sorted, SortBy(less, s));
  }
}
