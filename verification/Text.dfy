/** Strings as JavaScript handles them: case, trimming, splitting, ordering, and cache row keys. */
module Text {

  function UpperChar(c: char): char {
    if 'a' <= c <= 'z' then (c as int - 32) as char else c
  }

  /** `toUpperCase` on the letters CVE identifiers use. */
  function Upper(s: string): (r: string)
    ensures |r| == |s|
  {
    seq(|s|, i requires 0 <= i < |s| => UpperChar(s[i]))
  }

  predicate IsBlank(c: char) { c == ' ' || c == '\t' || c == '\n' || c == '\r' }

  function Trim(s: string): string {
    if s == "" then s
    else if IsBlank(s[0]) then Trim(s[1..])
    else if IsBlank(s[|s| - 1]) then Trim(s[..|s| - 1])
    else s
  }

  predicate IsDigit(c: char) { '0' <= c <= '9' }

  predicate IsPrefix(p: string, s: string) { p <= s }

  /** Segment `n` of `s.split(sep)`, empty when there is none. */
  function Segment(s: string, sep: char, n: nat): string {
    if s == "" then ""
    else if s[0] == sep then (if n == 0 then "" else Segment(s[1..], sep, n - 1))
    else if n == 0 then [s[0]] + Segment(s[1..], sep, 0)
    else Segment(s[1..], sep, n)
  }

  /** The key of a cache row. */
  function RowKey(platform: string, version: string): string { platform + "|" + version }

  lemma {:induction false} SegmentPlain(d: string, sep: char)
    requires sep !in d
    ensures Segment(d, sep, 0) == d
  {
    if d != "" { SegmentPlain(d[1..], sep); }
  }

  lemma {:induction false} SegmentHead(p: string, sep: char, rest: string)
    requires sep !in p
    ensures Segment(p + [sep] + rest, sep, 0) == p
    ensures Segment(p + [sep] + rest, sep, 1) == Segment(rest, sep, 0)
    decreases |p|
  {
    var k := p + [sep] + rest;
    if p == "" {
      assert k == [sep] + rest && k[1..] == rest;
    } else {
      assert k[1..] == p[1..] + [sep] + rest && k[0] == p[0];
      SegmentHead(p[1..], sep, rest);
    }
  }

  /** The first segment is the text before the first separator. */
  lemma {:induction false} FirstSegmentMeans(s: string, sep: char, p: string)
    ensures Segment(s, sep, 0) == p <==> sep !in p && (s == p || exists rest :: s == p + [sep] + rest)
  {
    if sep !in p {
      if s == p { SegmentPlain(p, sep); }
      if rest :| s == p + [sep] + rest { SegmentHead(p, sep, rest); }
    }
    var rest := FirstSegmentSplits(s, sep);
  }

  lemma {:induction false} FirstSegmentSplits(s: string, sep: char) returns (rest: string)
    ensures var p := Segment(s, sep, 0);
            sep !in p && (s == p || s == p + [sep] + rest)
  {
    rest := "";
    if s != "" {
      if s[0] == sep {
        rest := s[1..];
        assert s == [] + [sep] + rest;
      } else {
        rest := FirstSegmentSplits(s[1..], sep);
        var q := Segment(s[1..], sep, 0);
        assert s == [s[0]] + s[1..];
        assert [s[0]] + (q + [sep] + rest) == ([s[0]] + q) + [sep] + rest;
      }
    }
  }

  lemma SegmentsOf(p: string, d: string)
    requires '|' !in p && '|' !in d
    ensures Segment(RowKey(p, d), '|', 0) == p && Segment(RowKey(p, d), '|', 1) == d
  {
    SegmentHead(p, '|', d);
    SegmentPlain(d, '|');
    assert RowKey(p, d) == p + ['|'] + d;
  }

  // ---- ordering ----

  /** `a < b` on strings. */
  predicate Less(a: string, b: string) {
    b != "" && (a == "" || a[0] < b[0] || (a[0] == b[0] && Less(a[1..], b[1..])))
  }

  lemma {:induction false} LessTotal(a: string, b: string)
    ensures Less(a, b) || Less(b, a) || a == b
    ensures !(Less(a, b) && Less(b, a))
  {
    if a != "" && b != "" && a[0] == b[0] {
      LessTotal(a[1..], b[1..]);
      assert a == [a[0]] + a[1..] && b == [b[0]] + b[1..];
    }
  }

  lemma {:induction false} LessTransitive(a: string, b: string, c: string)
    requires Less(a, b) && Less(b, c)
    ensures Less(a, c)
  {
    if a != "" && a[0] == b[0] == c[0] { LessTransitive(a[1..], b[1..], c[1..]); }
  }

  /** The order is that of the first place where the strings differ; a proper prefix comes first. */
  lemma {:induction false} LessMeans(p: string, a: string, b: string)
    ensures a != "" && b != "" && a[0] < b[0] ==> Less(p + a, p + b)
    ensures b != "" ==> Less(p, p + b)
    decreases |p|
  {
    if p == "" {
      assert p + a == a && p + b == b;
    } else {
      LessMeans(p[1..], a, b);
      assert (p + a)[1..] == p[1..] + a && (p + b)[1..] == p[1..] + b;
    }
  }

  // ---- case and blanks ----

  /** The two cases of one Latin letter. */
  predicate CasePair(lower: char, upper: char) {
    'a' <= lower <= 'z' && lower as int - 'a' as int == upper as int - 'A' as int
  }

  ghost predicate SameButCase(s: string, t: string) {
    |s| == |t| && forall i :: 0 <= i < |s| ==> s[i] == t[i] || CasePair(s[i], t[i]) || CasePair(t[i], s[i])
  }

  /** Upper-casing forgets exactly the case of letters. */
  lemma UpperIgnoresCase(s: string, t: string)
    ensures Upper(s) == Upper(t) <==> SameButCase(s, t)
  {
    if SameButCase(s, t) {
      assert forall i :: 0 <= i < |s| ==> Upper(s)[i] == Upper(t)[i];
    } else if Upper(s) == Upper(t) {
      assert forall i :: 0 <= i < |s| ==> Upper(s)[i] == UpperChar(s[i]) && Upper(t)[i] == UpperChar(t[i]);
      assert false;
    }
  }

  lemma UpperIsUpper(s: string)
    ensures SameButCase(s, Upper(s)) && forall i :: 0 <= i < |s| ==> !('a' <= Upper(s)[i] <= 'z')
  {
    assert forall i :: 0 <= i < |s| ==> Upper(s)[i] == UpperChar(s[i]);
  }

  const BLANKS := [' ', '\t', '\n', '\r']

  ghost predicate AllBlank(s: string) { forall i :: 0 <= i < |s| ==> s[i] in BLANKS }

  /** Trimming takes away the blanks around a text and nothing else. */
  lemma {:induction false} TrimMeans(before: string, w: string, after: string)
    requires AllBlank(before) && AllBlank(after) && w != "" && w[0] !in BLANKS && w[|w| - 1] !in BLANKS
    ensures Trim(before + w + after) == w
    decreases |before| + |after|
  {
    var s := before + w + after;
    if before != "" {
      assert s[1..] == before[1..] + w + after;
      TrimMeans(before[1..], w, after);
    } else if after != "" {
      var n := |after| - 1;
      assert s[0] == w[0];
      assert s[..|s| - 1] == before + w + after[..n] && s[|s| - 1] == after[n];
      TrimMeans(before, w, after[..n]);
    } else {
      assert s == w;
    }
  }

  // ---- decimal numbers ----

  function DigitChar(d: nat): char
    requires d < 10
  {
    ('0' as int + d) as char
  }

  /** A number in decimal. */
  function Decimal(n: nat): string {
    if n < 10 then [DigitChar(n)] else Decimal(n / 10) + [DigitChar(n % 10)]
  }

  ghost predicate AllDigits(s: string) { forall i :: 0 <= i < |s| ==> IsDigit(s[i]) }

  lemma {:induction false} DecimalIsDigits(n: nat)
    ensures Decimal(n) != "" && AllDigits(Decimal(n))
  {
    if n >= 10 { DecimalIsDigits(n / 10); }
  }
}
