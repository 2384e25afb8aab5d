/** Dotted versions as tuples, compared as if padded with zeros. */
module Versions {
  import opened Prelude
  import opened Text

  /** Comparison of two zero-padded tuples: negative, zero or positive. */
  function Cmp(a: seq<int>, b: seq<int>): int
    decreases |a| + |b|
  {
    if a == [] && b == [] then 0
    else
      var x, y := Head(a), Head(b);
      if x != y then x - y else Cmp(Tail(a), Tail(b))
  }

  function Head(a: seq<int>): int { if a == [] then 0 else a[0] }

  function Tail(a: seq<int>): seq<int> { if a == [] then [] else a[1..] }

  /** Component `i` of a padded tuple. */
  function At(a: seq<int>, i: nat): int { if i < |a| then a[i] else 0 }

  function From(a: seq<int>, i: nat): seq<int> { if i <= |a| then a[i..] else [] }

  method CmpTuples(a: seq<int>, b: seq<int>) returns (r: int)
    ensures r == Cmp(a, b)
  {
    var len := Max(|a|, |b|);
    var i := 0;
    while i < len
      invariant 0 <= i <= len
      invariant Cmp(a, b) == Cmp(From(a, i), From(b, i))
    {
      var x := if i < |a| then a[i] else 0;
      var y := if i < |b| then b[i] else 0;
      assert Head(From(a, i)) == x && Head(From(b, i)) == y;
      assert Tail(From(a, i)) == From(a, i + 1) && Tail(From(b, i)) == From(b, i + 1);
      if x != y { return x - y; }
      i := i + 1;
    }
    return 0;
  }

  /** The comparison is decided by the first position where the padded tuples differ. */
  lemma {:induction false} CmpMeans(a: seq<int>, b: seq<int>, i: nat)
    requires At(a, i) != At(b, i) && forall j :: 0 <= j < i ==> At(a, j) == At(b, j)
    ensures Cmp(a, b) == At(a, i) - At(b, i)
    decreases i
  {
    if i > 0 {
      assert At(a, 0) == At(b, 0);
      forall j: nat ensures At(Tail(a), j) == At(a, j + 1) && At(Tail(b), j) == At(b, j + 1) {}
      CmpMeans(Tail(a), Tail(b), i - 1);
    }
  }

  lemma {:induction false} CmpFlips(a: seq<int>, b: seq<int>)
    ensures Cmp(b, a) == -Cmp(a, b)
    decreases |a| + |b|
  {
    if a != [] || b != [] {
      CmpFlips(Tail(a), Tail(b));
    }
  }

  lemma {:induction false} CmpSelf(a: seq<int>)
    ensures Cmp(a, a) == 0
  {
    if a != [] { CmpSelf(a[1..]); }
  }

  /** "At most as new as" is transitive, strictly so as soon as one of the steps is strict. */
  lemma {:induction false} CmpTransitive(a: seq<int>, b: seq<int>, c: seq<int>)
    requires Cmp(a, b) <= 0 && Cmp(b, c) <= 0
    ensures Cmp(a, c) <= 0
    ensures Cmp(a, b) < 0 || Cmp(b, c) < 0 ==> Cmp(a, c) < 0
    decreases |a| + |b| + |c|
  {
    if a != [] || b != [] || c != [] {
      if Head(a) == Head(b) == Head(c) {
        CmpTransitive(Tail(a), Tail(b), Tail(c));
      }
    }
  }

  // ---- parsing ----

  predicate IsSeparator(c: char) { c == '.' || c == '-' || c == '_' }

  /** `split(/[.\-_]/)` */
  function SplitVersion(v: string): (r: seq<string>)
    ensures |r| >= 1
  {
    if v == "" then [""]
    else
      var n := |v| - 1;
      var parts := SplitVersion(v[..n]);
      if IsSeparator(v[n]) then parts + [""]
      else parts[|parts| - 1 := parts[|parts| - 1] + [v[n]]]
  }

  /** `Number.parseInt(part, 10)`, with NaN read as 0: skip blanks and a plus sign (a minus sign is
      a separator), then take leading digits. */
  function ParsePart(part: string): int {
    var t := SkipBlanks(part);
    Digits(if t != "" && t[0] == '+' then t[1..] else t, 0)
  }

  function SkipBlanks(s: string): string { if s != "" && IsBlank(s[0]) then SkipBlanks(s[1..]) else s }

  function Digits(s: string, acc: int): int {
    if s != "" && IsDigit(s[0]) then Digits(s[1..], acc * 10 + (s[0] as int - '0' as int)) else acc
  }

  function VersionTuple(v: string): seq<int> {
    var parts := SplitVersion(v);
    seq(|parts|, i requires 0 <= i < |parts| => ParsePart(parts[i]))
  }

  /** Version strings ordered by their tuples. */
  function CmpVersions(a: string, b: string): int { Cmp(VersionTuple(a), VersionTuple(b)) }

  lemma CmpVersionsTransitive(a: string, b: string, c: string)
    requires CmpVersions(a, b) <= 0 && CmpVersions(b, c) <= 0
    ensures CmpVersions(a, c) <= 0
    ensures CmpVersions(a, b) < 0 || CmpVersions(b, c) < 0 ==> CmpVersions(a, c) < 0
  {
    CmpTransitive(VersionTuple(a), VersionTuple(b), VersionTuple(c));
  }

  lemma CmpVersionsFlips(a: string, b: string)
    ensures CmpVersions(b, a) == -CmpVersions(a, b)
  {
    CmpFlips(VersionTuple(a), VersionTuple(b));
  }

  // ---- what the parser reads ----

  lemma {:induction false} DigitsAppend(s: string, t: string, acc: int)
    requires AllDigits(s)
    ensures Digits(s + t, acc) == Digits(t, Digits(s, acc))
    decreases |s|
  {
    if s == "" {
      assert s + t == t;
    } else {
      assert (s + t)[1..] == s[1..] + t;
      DigitsAppend(s[1..], t, acc * 10 + (s[0] as int - '0' as int));
    }
  }

  lemma {:induction false} DigitsOfDecimal(n: nat)
    ensures Digits(Decimal(n), 0) == n
  {
    DecimalIsDigits(n);
    if n < 10 {
      assert Decimal(n)[1..] == "";
    } else {
      DigitsOfDecimal(n / 10);
      DecimalIsDigits(n / 10);
      DigitsAppend(Decimal(n / 10), [DigitChar(n % 10)], 0);
      assert [DigitChar(n % 10)][1..] == "";
    }
  }

  /** `tail` cannot continue a number. */
  predicate NoDigitFirst(tail: string) { tail == "" || !('0' <= tail[0] <= '9') }

  /** The parser inverts decimal printing, whatever follows the number. */
  lemma ParseInvertsDecimal(n: nat, tail: string)
    requires NoDigitFirst(tail)
    ensures ParsePart(Decimal(n) + tail) == n
  {
    DecimalIsDigits(n);
    DigitsOfDecimal(n);
    DigitsAppend(Decimal(n), tail, 0);
    assert (Decimal(n) + tail)[0] == Decimal(n)[0];
  }

  /** Leading blanks and a plus sign are skipped; a part without a number reads as 0. */
  lemma {:induction false} ParseSkips(before: string, part: string)
    requires AllBlank(before) && (part == "" || part[0] !in BLANKS)
    ensures ParsePart(before + part) == ParsePart(part)
    ensures part != "" && part[0] != '+' ==> ParsePart(['+'] + part) == ParsePart(part)
    ensures NoDigitFirst(part) && (part == "" || part[0] != '+') ==> ParsePart(part) == 0
    decreases |before|
  {
    assert (['+'] + part)[1..] == part;
    if before == "" {
      assert before + part == part;
    } else {
      assert (before + part)[1..] == before[1..] + part;
      ParseSkips(before[1..], part);
    }
  }

  /** No character that separates the components of a version. */
  predicate Unseparated(s: string) { '.' !in s && '-' !in s && '_' !in s }

  lemma {:induction false} SplitPlain(s: string)
    requires Unseparated(s)
    ensures SplitVersion(s) == [s]
  {
    if s != "" {
      SplitPlain(s[..|s| - 1]);
      InitAndLast(s);
    }
  }

  lemma {:induction false} SplitLast(a: string, sep: char, b: string)
    requires sep in ['.', '-', '_'] && Unseparated(b)
    ensures SplitVersion(a + [sep] + b) == SplitVersion(a) + [b]
    decreases |b|
  {
    var s := a + [sep] + b;
    if b == "" {
      assert s[..|s| - 1] == a && s[|s| - 1] == sep;
    } else {
      var n := |b| - 1;
      assert s[..|s| - 1] == a + [sep] + b[..n] && s[|s| - 1] == b[n];
      SplitLast(a, sep, b[..n]);
      InitAndLast(b);
    }
  }

  /** Components with separators between them. */
  function JoinedWith(parts: seq<string>, seps: seq<char>): string
    requires |parts| == |seps| + 1
  {
    var n := |seps|;
    if n == 0 then parts[0] else JoinedWith(parts[..n], seps[..n - 1]) + [seps[n - 1]] + parts[n]
  }

  /** A version written with these numbers, each followed by a text that does not continue it. */
  function Components(ns: seq<nat>, tails: seq<string>): (r: seq<string>)
    requires |ns| == |tails|
    ensures |r| == |ns| && forall i :: 0 <= i < |r| ==> r[i] == Decimal(ns[i]) + tails[i]
  {
    seq(|ns|, i requires 0 <= i < |ns| => Decimal(ns[i]) + tails[i])
  }

  ghost predicate PlainTails(tails: seq<string>) {
    forall i :: 0 <= i < |tails| ==> Unseparated(tails[i]) && NoDigitFirst(tails[i])
  }

  ghost predicate Separators(seps: seq<char>) {
    forall i :: 0 <= i < |seps| ==> seps[i] in ['.', '-', '_']
  }

  lemma {:induction false} SplitInvertsJoin(parts: seq<string>, seps: seq<char>)
    requires |parts| == |seps| + 1 && Separators(seps)
    requires forall i :: 0 <= i < |parts| ==> Unseparated(parts[i])
    ensures SplitVersion(JoinedWith(parts, seps)) == parts
    decreases |parts|
  {
    var n := |seps|;
    if n == 0 {
      SplitPlain(parts[0]);
      assert [parts[0]] == parts;
    } else {
      SplitInvertsJoin(parts[..n], seps[..n - 1]);
      SplitLast(JoinedWith(parts[..n], seps[..n - 1]), seps[n - 1], parts[n]);
      InitAndLast(parts);
    }
  }

  lemma ComponentUnseparated(n: nat, tail: string)
    requires Unseparated(tail)
    ensures Unseparated(Decimal(n) + tail)
  {
    DecimalIsDigits(n);
  }

  /** The tuple of a version is the numbers it is written with, in order, whichever of the three
      separators stand between them. */
  lemma VersionReads(ns: seq<nat>, tails: seq<string>, seps: seq<char>)
    requires |ns| == |tails| == |seps| + 1 && PlainTails(tails) && Separators(seps)
    ensures VersionTuple(JoinedWith(Components(ns, tails), seps)) == ns
  {
    var parts := Components(ns, tails);
    forall i | 0 <= i < |parts| ensures Unseparated(parts[i]) && ParsePart(parts[i]) == ns[i] {
      ComponentUnseparated(ns[i], tails[i]);
      ParseInvertsDecimal(ns[i], tails[i]);
    }
    SplitInvertsJoin(parts, seps);
    SameElements(VersionTuple(JoinedWith(parts, seps)), ns);
  }

  /** So versions are ordered by the first number in which they differ. */
  lemma FirstDifferenceDecides(a: string, b: string, ns: seq<nat>, ms: seq<nat>, i: nat)
    requires VersionTuple(a) == ns && VersionTuple(b) == ms && i < |ns| && i < |ms|
    requires ns[..i] == ms[..i] && ns[i] < ms[i]
    ensures CmpVersions(a, b) < 0 && CmpVersions(b, a) > 0
  {
    assert forall j :: 0 <= j < i ==> ns[j] == ns[..i][j] && ms[j] == ms[..i][j];
    CmpMeans(ns, ms, i);
    CmpFlips(ns, ms);
  }

  /** Missing numbers count as zeros. */
  lemma {:induction false} MissingIsZero(a: seq<int>, zeros: seq<int>)
    requires forall i :: 0 <= i < |zeros| ==> zeros[i] == 0
    ensures Cmp(a, a + zeros) == 0 && Cmp(a + zeros, a) == 0
    decreases |a| + |zeros|
  {
    if a != [] {
      assert (a + zeros)[1..] == a[1..] + zeros;
      MissingIsZero(a[1..], zeros);
    } else if zeros != [] {
      assert a + zeros == zeros && a + zeros[1..] == zeros[1..];
      MissingIsZero(a, zeros[1..]);
    }
  }
}
