/** Sorting by an integer key, as both JavaScript's `Array.prototype.sort`
    with a numeric comparator and a MongoDB `.sort({ field: 1 })` are used in
    the core. The sort is an insertion sort that keeps elements with equal
    keys in their original order (JavaScript's sort is stable). */
module Sorting {
  import opened Seqs

  ghost predicate SortedBy<T>(s: seq<T>, key: T -> int) {
    forall i, j :: 0 <= i < j < |s| ==> key(s[i]) <= key(s[j])
  }

  /** Inserts `x` into `s` after every element whose key is at most `key(x)`. */
  function Insert<T(==)>(x: T, s: seq<T>, key: T -> int): (r: seq<T>)
    ensures multiset(r) == multiset(s) + multiset{x}
  {
    if |s| == 0 || key(s[|s| - 1]) <= key(x) then s + [x]
    else
      var init := s[..|s| - 1];
      assert s == init + [s[|s| - 1]];
      Insert(x, init, key) + [s[|s| - 1]]
  }

  /** The elements of `s` in non-decreasing key order. */
  function SortBy<T(==)>(s: seq<T>, key: T -> int): (r: seq<T>)
    ensures multiset(r) == multiset(s)
    ensures SortedBy(r, key)
  {
    if |s| == 0 then []
    else
      var init := s[..|s| - 1];
      assert s == init + [s[|s| - 1]];
      InsertSorted(s[|s| - 1], SortBy(init, key), key);
      Insert(s[|s| - 1], SortBy(init, key), key)
  }

  lemma {:induction false} InsertSorted<T>(x: T, s: seq<T>, key: T -> int)
    requires SortedBy(s, key)
    ensures SortedBy(Insert(x, s, key), key)
  {
    if |s| > 0 && key(s[|s| - 1]) > key(x) {
      var init, last := s[..|s| - 1], s[|s| - 1];
      assert s == init + [last];
      InsertSorted(x, init, key);
      var r := Insert(x, init, key);
      forall i | 0 <= i < |r|
        ensures key(r[i]) <= key(last)
      {
        assert r[i] in multiset(r);
        assert r[i] in multiset(init) + multiset{x};
        if r[i] != x {
          assert r[i] in init;
        }
      }
      assert Insert(x, s, key) == r + [last];
    }
  }

  lemma {:induction false} InsertKeepsEqualKeys<T>(x: T, s: seq<T>, key: T -> int, k: int, p: T -> bool)
    requires SortedBy(s, key)
    requires forall y :: p(y) == (key(y) == k)
    ensures Filter(Insert(x, s, key), p) == Filter(s, p) + Filter([x], p)
  {
    if |s| == 0 || key(s[|s| - 1]) <= key(x) {
      FilterAppend(s, [x], p);
    } else {
      var init, last := s[..|s| - 1], s[|s| - 1];
      assert s == init + [last];
      InsertKeepsEqualKeys(x, init, key, k, p);
      FilterAppend(Insert(x, init, key), [last], p);
      FilterAppend(init, [last], p);
      if p(x) {
        assert Filter([last], p) == [];
      } else {
        assert Filter([x], p) == [];
      }
    }
  }

  /** Stability: the elements sharing one key keep their relative order. */
  lemma {:induction false} SortByIsStable<T>(s: seq<T>, key: T -> int, k: int, p: T -> bool)
    requires forall y :: p(y) == (key(y) == k)
    ensures Filter(SortBy(s, key), p) == Filter(s, p)
  {
    if |s| > 0 {
      var init, last := s[..|s| - 1], s[|s| - 1];
      assert s == init + [last];
      SortByIsStable(init, key, k, p);
      InsertKeepsEqualKeys(last, SortBy(init, key), key, k, p);
      FilterAppend(init, [last], p);
    }
  }
}
