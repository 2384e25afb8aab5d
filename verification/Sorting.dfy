/** `Array.prototype.sort` with a numeric comparator: a stable sort, as ECMAScript requires. */
module Sorting {
  import opened Prelude

  function InsertAfter<T(!new)>(s: seq<T>, x: T, key: T -> int): (r: seq<T>)
    ensures |r| == |s| + 1
    ensures forall y :: y in r <==> y in s || y == x
  {
    if s == [] then [x]
    else
      var n := |s| - 1;
      assert s == s[..n] + [s[n]];
      if key(s[n]) <= key(x) then s + [x] else InsertAfter(s[..n], x, key) + [s[n]]
  }

  function SortBy<T(!new)>(s: seq<T>, key: T -> int): (r: seq<T>)
    ensures |r| == |s|
    ensures forall y :: y in r <==> y in s
  {
    if s == [] then []
    else
      var n := |s| - 1;
      assert s == s[..n] + [s[n]];
      InsertAfter(SortBy(s[..n], key), s[n], key)
  }

  ghost predicate SortedBy<T(!new)>(s: seq<T>, key: T -> int) {
    forall i, j :: 0 <= i < j < |s| ==> key(s[i]) <= key(s[j])
  }

  lemma {:induction false} InsertAfterSorted<T(!new)>(s: seq<T>, x: T, key: T -> int)
    requires SortedBy(s, key)
    ensures SortedBy(InsertAfter(s, x, key), key)
  {
    if s != [] && key(s[|s| - 1]) > key(x) {
      var n := |s| - 1;
      InsertAfterSorted(s[..n], x, key);
      var r := InsertAfter(s[..n], x, key);
      forall i | 0 <= i < |r| ensures key(r[i]) <= key(s[n]) {
        assert r[i] in r;
      }
    }
  }

  lemma {:induction false} SortBySorted<T(!new)>(s: seq<T>, key: T -> int)
    ensures SortedBy(SortBy(s, key), key)
  {
    if s != [] {
      SortBySorted(s[..|s| - 1], key);
      InsertAfterSorted(SortBy(s[..|s| - 1], key), s[|s| - 1], key);
    }
  }

  /** The elements with key `k`, in order. */
  function WithKey<T(!new)>(s: seq<T>, key: T -> int, k: int): seq<T> {
    if s == [] then []
    else
      var n := |s| - 1;
      if key(s[n]) == k then WithKey(s[..n], key, k) + [s[n]] else WithKey(s[..n], key, k)
  }

  lemma WithKeySnoc<T(!new)>(s: seq<T>, x: T, key: T -> int, k: int)
    ensures WithKey(s + [x], key, k) == if key(x) == k then WithKey(s, key, k) + [x] else WithKey(s, key, k)
  {
    assert (s + [x])[..|s|] == s;
  }

  lemma {:induction false} InsertAfterStable<T(!new)>(s: seq<T>, x: T, key: T -> int, k: int)
    requires SortedBy(s, key)
    ensures WithKey(InsertAfter(s, x, key), key, k) == WithKey(s + [x], key, k)
  {
    WithKeySnoc(s, x, key, k);
    if s == [] {
      assert [] + [x] == [x];
    } else if key(s[|s| - 1]) > key(x) {
      var n := |s| - 1;
      InsertAfterStable(s[..n], x, key, k);
      WithKeySnoc(s[..n], x, key, k);
      WithKeySnoc(InsertAfter(s[..n], x, key), s[n], key, k);
    }
  }

  /** The sort is a stable permutation: for every key, the same elements in the same order. */
  lemma {:induction false} SortByStable<T(!new)>(s: seq<T>, key: T -> int, k: int)
    ensures WithKey(SortBy(s, key), key, k) == WithKey(s, key, k)
  {
    if s != [] {
      var init, last := s[..|s| - 1], s[|s| - 1];
      SortByStable(init, key, k);
      SortBySorted(init, key);
      InsertAfterStable(SortBy(init, key), last, key, k);
      WithKeySnoc(SortBy(init, key), last, key, k);
    }
  }

  lemma {:induction false} InsertAfterDistinctKeys<T(!new), K(!new)>(s: seq<T>, x: T, key: T -> int, tag: T -> K)
    requires DistinctKeys(s, tag)
    requires forall i :: 0 <= i < |s| ==> tag(s[i]) != tag(x)
    ensures DistinctKeys(InsertAfter(s, x, key), tag)
  {
    if s != [] && key(s[|s| - 1]) > key(x) {
      var n := |s| - 1;
      InsertAfterDistinctKeys(s[..n], x, key, tag);
      var r := InsertAfter(s[..n], x, key);
      forall i | 0 <= i < |r| ensures tag(r[i]) != tag(s[n]) {
        assert r[i] in r;
      }
    }
  }

  /** Sorting keeps distinct keys distinct. */
  lemma {:induction false} SortByDistinctKeys<T(!new), K(!new)>(s: seq<T>, key: T -> int, tag: T -> K)
    requires DistinctKeys(s, tag)
    ensures DistinctKeys(SortBy(s, key), tag)
  {
    if s != [] {
      var n := |s| - 1;
      SortByDistinctKeys(s[..n], key, tag);
      var r := SortBy(s[..n], key);
      forall i | 0 <= i < |r| ensures tag(r[i]) != tag(s[n]) {
        assert r[i] in r && r[i] in s[..n];
      }
      InsertAfterDistinctKeys(r, s[n], key, tag);
    }
  }

  lemma InsertLast<T(!new)>(s: seq<T>, x: T, key: T -> int)
    requires s == [] || key(s[|s| - 1]) <= key(x)
    ensures InsertAfter(s, x, key) == s + [x]
  {
  }

  lemma {:induction false} SortedStays<T(!new)>(s: seq<T>, key: T -> int)
    requires SortedBy(s, key)
    ensures SortBy(s, key) == s
  {
    if s != [] {
      var init, last := s[..|s| - 1], s[|s| - 1];
      SortedStays(init, key);
      InsertLast(init, last, key);
      assert init + [last] == s;
    }
  }

  // ---- sorting by two keys ----

  ghost predicate SortedByBoth<T(!new)>(s: seq<T>, major: T -> int, minor: T -> int) {
    forall i, j :: 0 <= i < j < |s| ==>
      major(s[i]) < major(s[j]) || (major(s[i]) == major(s[j]) && minor(s[i]) <= minor(s[j]))
  }

  lemma {:induction false} InsertAfterBoth<T(!new)>(s: seq<T>, x: T, major: T -> int, minor: T -> int)
    requires SortedByBoth(s, major, minor) && forall i :: 0 <= i < |s| ==> minor(s[i]) <= minor(x)
    ensures SortedByBoth(InsertAfter(s, x, major), major, minor)
  {
    if s != [] && major(s[|s| - 1]) > major(x) {
      var n := |s| - 1;
      InsertAfterBoth(s[..n], x, major, minor);
      var r := InsertAfter(s[..n], x, major);
      forall i | 0 <= i < |r|
        ensures major(r[i]) < major(s[n]) || (major(r[i]) == major(s[n]) && minor(r[i]) <= minor(s[n]))
      {
        assert r[i] in r;
      }
    }
  }

  /** Sorting stably by the lesser key first and the greater one after orders by both. */
  lemma {:induction false} SortByBoth<T(!new)>(s: seq<T>, major: T -> int, minor: T -> int)
    requires SortedBy(s, minor)
    ensures SortedByBoth(SortBy(s, major), major, minor)
  {
    if s != [] {
      var n := |s| - 1;
      SortByBoth(s[..n], major, minor);
      var r := SortBy(s[..n], major);
      forall i | 0 <= i < |r| ensures minor(r[i]) <= minor(s[n]) {
        assert r[i] in s[..n];
      }
      InsertAfterBoth(r, s[n], major, minor);
    }
  }

  lemma {:induction false} InsertAfterPermutes<T(!new)>(s: seq<T>, x: T, key: T -> int)
    ensures multiset(InsertAfter(s, x, key)) == multiset(s) + multiset{x}
  {
    if s != [] {
      InsertAfterPermutes(s[..|s| - 1], x, key);
      InitAndLast(s);
    }
  }

  lemma {:induction false} SortByPermutes<T(!new)>(s: seq<T>, key: T -> int)
    ensures multiset(SortBy(s, key)) == multiset(s)
  {
    if s != [] {
      var init, last := s[..|s| - 1], s[|s| - 1];
      SortByPermutes(init, key);
      InsertAfterPermutes(SortBy(init, key), last, key);
      InitAndLast(s);
      assert multiset(init + [last]) == multiset(init) + multiset{last};
    }
  }
}
