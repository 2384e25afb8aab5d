/** Vocabulary shared by every module: optional values, distinctness, filtering, and the
    "first occurrence of each key" idiom that the source writes as a loop over a `Map`. */
module Prelude {

  datatype Option<+T> = None | Some(value: T)

  ghost predicate Distinct<T>(s: seq<T>) {
    forall i, j :: 0 <= i < j < |s| ==> s[i] != s[j]
  }

  function Elements<T>(s: seq<T>): set<T> {
    set x | x in s
  }

  /** Moving one element from the pending set to the done set. */
  lemma MoveOne<T>(done: set<T>, pending: set<T>, x: T)
    requires x in pending
    ensures (done + {x}) + (pending - {x}) == done + pending
  {
  }

  function Max(a: int, b: int): int { if a >= b then a else b }

  function Min(a: int, b: int): int { if a <= b then a else b }

  /** `Array.prototype.filter`. */
  function Filter<T(!new)>(s: seq<T>, p: T -> bool): (r: seq<T>)
    ensures forall x :: x in r <==> x in s && p(x)
    ensures |r| <= |s|
  {
    if s == [] then []
    else
      var n := |s| - 1;
      var rest := Filter(s[..n], p);
      assert s == s[..n] + [s[n]];
      if p(s[n]) then rest + [s[n]] else rest
  }

  lemma TakeOneMore<T>(s: seq<T>, i: nat)
    requires i < |s|
    ensures s[..i] + [s[i]] == s[..i + 1]
  {
  }

  lemma InitAndLast<T>(s: seq<T>)
    requires s != []
    ensures s[..|s| - 1] + [s[|s| - 1]] == s
  {
  }

  lemma SameElements<T>(a: seq<T>, b: seq<T>)
    requires |a| == |b| && forall i :: 0 <= i < |a| ==> a[i] == b[i]
    ensures a == b
  {
  }

  lemma Assoc<T>(a: seq<T>, b: seq<T>, c: seq<T>)
    ensures (a + b) + c == a + (b + c)
  {
  }

  function Repeat<T>(x: T, n: nat): (r: seq<T>)
    ensures |r| == n && forall i :: 0 <= i < n ==> r[i] == x
  {
    seq(n, _ => x)
  }

  /** `Array.prototype.map`. */
  function Map<T, U>(s: seq<T>, f: T -> U): (r: seq<U>)
    ensures |r| == |s| && forall i :: 0 <= i < |s| ==> r[i] == f(s[i])
  {
    seq(|s|, i requires 0 <= i < |s| => f(s[i]))
  }

  /** Some element of `s` carries key `k`. */
  predicate HasKey<T(!new,==), K(==)>(s: seq<T>, key: T -> K, k: K) {
    exists i :: 0 <= i < |s| && key(s[i]) == k
  }

  lemma HasKeySnoc<T(!new), K>(s: seq<T>, x: T, key: T -> K, k: K)
    ensures HasKey(s + [x], key, k) <==> HasKey(s, key, k) || key(x) == k
  {
    var t := s + [x];
    if HasKey(s, key, k) {
      var i :| 0 <= i < |s| && key(s[i]) == k;
      assert key(t[i]) == k;
    }
    if key(x) == k {
      assert key(t[|s|]) == k;
    }
  }

  /** Keeps the first element carrying each key, in order of appearance. */
  function FirstBy<T(!new,==), K(==)>(s: seq<T>, key: T -> K): (r: seq<T>)
  {
    if s == [] then []
    else
      var n := |s| - 1;
      var rest := FirstBy(s[..n], key);
      if HasKey(rest, key, key(s[n])) then rest else rest + [s[n]]
  }

  lemma FirstBySnoc<T(!new), K>(s: seq<T>, x: T, key: T -> K)
    ensures FirstBy(s + [x], key)
         == if HasKey(FirstBy(s, key), key, key(x)) then FirstBy(s, key) else FirstBy(s, key) + [x]
  {
    assert (s + [x])[..|s|] == s;
  }

  lemma {:induction false} FirstByHasKey<T(!new), K>(s: seq<T>, key: T -> K, k: K)
    ensures HasKey(FirstBy(s, key), key, k) <==> HasKey(s, key, k)
  {
    if s != [] {
      var n := |s| - 1;
      assert s == s[..n] + [s[n]];
      FirstByHasKey(s[..n], key, k);
      HasKeySnoc(s[..n], s[n], key, k);
      HasKeySnoc(FirstBy(s[..n], key), s[n], key, k);
    }
  }

  ghost predicate DistinctKeys<T(!new), K(!new)>(s: seq<T>, key: T -> K) {
    forall i, j :: 0 <= i < j < |s| ==> key(s[i]) != key(s[j])
  }

  lemma {:induction false} FirstByDistinct<T(!new), K(!new)>(s: seq<T>, key: T -> K)
    ensures DistinctKeys(FirstBy(s, key), key)
  {
    if s != [] {
      FirstByDistinct(s[..|s| - 1], key);
    }
  }

  /** Every kept element is the first with its key: where it comes from in `s`. */
  lemma {:induction false} FirstByOrigin<T(!new), K>(s: seq<T>, key: T -> K, x: T) returns (i: nat)
    requires x in FirstBy(s, key)
    ensures i < |s| && s[i] == x && !HasKey(s[..i], key, key(x))
  {
    var n := |s| - 1;
    if x in FirstBy(s[..n], key) {
      i := FirstByOrigin(s[..n], key, x);
      assert s[..n][..i] == s[..i];
    } else {
      i := n;
      FirstByHasKey(s[..n], key, key(x));
    }
  }

  lemma {:induction false} FirstByOfDistinct<T(!new), K(!new)>(s: seq<T>, key: T -> K)
    requires DistinctKeys(s, key)
    ensures FirstBy(s, key) == s
  {
    if s != [] {
      var n := |s| - 1;
      FirstByOfDistinct(s[..n], key);
      assert s == s[..n] + [s[n]];
    }
  }

  lemma HasKeyLeft<T(!new), K>(a: seq<T>, b: seq<T>, key: T -> K, k: K)
    ensures HasKey(a, key, k) ==> HasKey(a + b, key, k)
  {
    if HasKey(a, key, k) {
      var i :| 0 <= i < |a| && key(a[i]) == k;
      assert key((a + b)[i]) == k;
    }
  }

  /** Keeping firsts of a concatenation: firsts of the left part, then new keys of the right. */
  lemma {:induction false} FirstByAppend<T(!new), K>(a: seq<T>, b: seq<T>, key: T -> K, x: T)
    ensures x in FirstBy(a + b, key) ==> x in FirstBy(a, key) || (x in b && !HasKey(a, key, key(x)))
    decreases |b|
  {
    if b == [] {
      assert a + b == a;
    } else {
      var n := |b| - 1;
      assert (a + b)[..|a + b| - 1] == a + b[..n] && (a + b)[|a + b| - 1] == b[n];
      FirstByAppend(a, b[..n], key, x);
      if x == b[n] {
        FirstByHasKey(a + b[..n], key, key(x));
        HasKeyLeft(a, b[..n], key, key(x));
      }
    }
  }
}
