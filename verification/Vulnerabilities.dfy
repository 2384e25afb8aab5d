/** CVE entries as every source reports them, and how lists from several sources are merged. */
module Vulnerabilities {
  import opened Prelude
  import opened JsMaps
  import opened Text

  datatype Severity = CRITICAL | HIGH | MEDIUM | LOW

  /** One entry of a `cve_list`. Workers may name the id `cve_id`; only some sources know a fix. */
  datatype CveEntry = CveEntry(
    id: Option<string>, cveId: Option<string>, severity: Option<Severity>, isKev: bool,
    score: Option<real>, fixedIn: Option<string>, source: string, note: Option<string>)

  function MapSeverity(raw: string): Option<Severity> {
    var s := Upper(Trim(raw));
    if s == "CRITICAL" then Some(CRITICAL)
    else if s == "HIGH" then Some(HIGH)
    else if s == "MODERATE" || s == "MEDIUM" then Some(MEDIUM)
    else if s == "LOW" then Some(LOW)
    else None
  }

  datatype RawResult = RawResult(mapped: bool, cveList: seq<CveEntry>)

  /** `String(c.id ?? c.cve_id ?? "").toUpperCase()` */
  function Key(c: CveEntry): string {
    Upper(if c.id.Some? then c.id.value else if c.cveId.Some? then c.cveId.value else "")
  }

  /** The entries a merge looks at, in order. */
  function Candidates(sources: seq<Option<RawResult>>): seq<CveEntry> {
    if sources == [] then []
    else
      var n := |sources| - 1;
      Candidates(sources[..n]) + Offered(sources[n])
  }

  function Offered(s: Option<RawResult>): seq<CveEntry> {
    if s.Some? && s.value.mapped then s.value.cveList else []
  }

  predicate AnyMapped(sources: seq<Option<RawResult>>) {
    exists i :: 0 <= i < |sources| && sources[i].Some? && sources[i].value.mapped
  }

  // ---- the reference: ids in first-seen order, best entry per id ----

  /** The better of two entries for one id, the first being the earlier one. */
  function Better(a: Option<CveEntry>, b: Option<CveEntry>): Option<CveEntry> {
    if a.None? then b
    else if b.Some? && a.value.score.None? && b.value.score.Some? then b
    else a
  }

  /** The first entry for `k` that has a score, else the first entry for `k`. */
  function Best(list: seq<CveEntry>, k: string): Option<CveEntry> {
    if list == [] then None
    else
      var n := |list| - 1;
      if Key(list[n]) == k then Better(Best(list[..n], k), Some(list[n])) else Best(list[..n], k)
  }

  function WithId(ids: seq<string>, k: string): seq<string> {
    if k == "" || k in ids then ids else ids + [k]
  }

  /** Non-empty ids, each once, in order of first appearance. */
  function Ids(list: seq<CveEntry>): seq<string> {
    if list == [] then []
    else
      var n := |list| - 1;
      WithId(Ids(list[..n]), Key(list[n]))
  }

  lemma {:induction false} IdsHaveBest(list: seq<CveEntry>)
    ensures Distinct(Ids(list))
    ensures forall k :: k in Ids(list) <==> k != "" && Best(list, k).Some?
    ensures forall k :: Best(list, k).Some? ==> Key(Best(list, k).value) == k && Best(list, k).value in list
  {
    if list != [] {
      IdsHaveBest(list[..|list| - 1]);
      assert list == list[..|list| - 1] + [list[|list| - 1]];
    }
  }

  function Merged(list: seq<CveEntry>): (r: seq<CveEntry>)
    ensures |r| == |Ids(list)|
    ensures forall i :: 0 <= i < |r| ==> Some(r[i]) == Best(list, Ids(list)[i]) && Key(r[i]) == Ids(list)[i]
  {
    IdsHaveBest(list);
    var ids := Ids(list);
    assert forall i :: 0 <= i < |ids| ==> ids[i] in ids;
    seq(|ids|, i requires 0 <= i < |ids| => Best(list, ids[i]).value)
  }

  // ---- the code ----

  /** `byId` after the loops have seen `list`. */
  ghost predicate Tracks(m: JsMap<string, CveEntry>, list: seq<CveEntry>) {
    && m.Valid()
    && m.keys == Ids(list)
    && forall k :: k in m.vals ==> Some(m.vals[k]) == Best(list, k)
  }

  function Absorbed(m: JsMap<string, CveEntry>, c: CveEntry): JsMap<string, CveEntry>
    requires m.Valid()
  {
    if Key(c) == "" then m
    else if Key(c) !in m.vals || (m.vals[Key(c)].score.None? && c.score.Some?) then m.Set(Key(c), c)
    else m
  }

  lemma TracksStep(m: JsMap<string, CveEntry>, list: seq<CveEntry>, c: CveEntry)
    requires Tracks(m, list)
    ensures Tracks(Absorbed(m, c), list + [c])
  {
    assert (list + [c])[..|list|] == list;
    IdsHaveBest(list);
    assert Key(c) in m.vals <==> Key(c) in m.keys;
    forall k | k in m.vals ensures k in m.keys && Best(list, k).Some? && k != "" {}
  }

  /** The loop over one source's entries. */
  method MergeInto(m: JsMap<string, CveEntry>, ghost before: seq<CveEntry>, cves: seq<CveEntry>)
      returns (byId: JsMap<string, CveEntry>)
    requires Tracks(m, before)
    ensures Tracks(byId, before + cves)
  {
    byId := m;
    assert before + cves[..0] == before;
    var j := 0;
    while j < |cves|
      invariant 0 <= j <= |cves|
      invariant Tracks(byId, before + cves[..j])
    {
      TracksStep(byId, before + cves[..j], cves[j]);
      assert before + cves[..j] + [cves[j]] == before + cves[..j + 1];
      byId := MergeOne(byId, cves[j]);
      j := j + 1;
    }
    assert cves[..j] == cves;
  }

  /** The body of the inner loop. */
  method MergeOne(m: JsMap<string, CveEntry>, c: CveEntry) returns (byId: JsMap<string, CveEntry>)
    requires m.Valid()
    ensures byId == Absorbed(m, c)
  {
    byId := m;
    var id := Key(c);
    if id != "" {
      if !m.Has(id) || (m.vals[id].score.None? && c.score.Some?) {
        byId := m.Set(id, c);
      }
    }
  }

  method MergeRawVulnResults(sources: seq<Option<RawResult>>) returns (r: RawResult)
    ensures r == RawResult(AnyMapped(sources), Merged(Candidates(sources)))
  {
    var byId := Empty<string, CveEntry>();
    var anyMapped := false;
    var i := 0;
    while i < |sources|
      invariant 0 <= i <= |sources|
      invariant anyMapped == AnyMapped(sources[..i])
      invariant Tracks(byId, Candidates(sources[..i]))
    {
      OneMoreSource(sources, i);
      if sources[i].Some? && sources[i].value.mapped {
        anyMapped := true;
        byId := MergeInto(byId, Candidates(sources[..i]), sources[i].value.cveList);
      }
      i := i + 1;
    }
    assert sources[..i] == sources;
    TracksValues(byId, Candidates(sources));
    return RawResult(anyMapped, byId.Values());
  }

  lemma OneMoreSource(sources: seq<Option<RawResult>>, i: nat)
    requires i < |sources|
    ensures Candidates(sources[..i + 1]) == Candidates(sources[..i]) + Offered(sources[i])
    ensures !(sources[i].Some? && sources[i].value.mapped) ==> Candidates(sources[..i + 1]) == Candidates(sources[..i])
    ensures AnyMapped(sources[..i + 1]) <==> AnyMapped(sources[..i]) || (sources[i].Some? && sources[i].value.mapped)
  {
    TakeOneMore(sources, i);
    AnyMappedSnoc(sources[..i], sources[i]);
    CandidatesSnoc(sources[..i], sources[i]);
  }

  lemma TracksValues(m: JsMap<string, CveEntry>, list: seq<CveEntry>)
    requires Tracks(m, list)
    ensures m.Values() == Merged(list)
  {
    forall i | 0 <= i < |m.keys| ensures m.Values()[i] == Merged(list)[i] {
      assert m.keys[i] in m.keys;
    }
  }

  lemma CandidatesSnoc(sources: seq<Option<RawResult>>, s: Option<RawResult>)
    ensures Candidates(sources + [s]) == Candidates(sources) + Offered(s)
    ensures !(s.Some? && s.value.mapped) ==> Candidates(sources + [s]) == Candidates(sources)
  {
    assert (sources + [s])[..|sources|] == sources;
    assert Candidates(sources) + [] == Candidates(sources);
  }

  lemma AnyMappedSnoc(sources: seq<Option<RawResult>>, s: Option<RawResult>)
    ensures AnyMapped(sources + [s]) <==> AnyMapped(sources) || (s.Some? && s.value.mapped)
  {
    var t := sources + [s];
    if AnyMapped(sources) {
      var i :| 0 <= i < |sources| && sources[i].Some? && sources[i].value.mapped;
      assert t[i] == sources[i];
    }
    assert t[|sources|] == s;
  }

  // ---- algebra ----

  function MergeOf(sources: seq<Option<RawResult>>): RawResult {
    RawResult(AnyMapped(sources), Merged(Candidates(sources)))
  }

  lemma {:induction false} BestAppend(a: seq<CveEntry>, b: seq<CveEntry>, k: string)
    ensures Best(a + b, k) == Better(Best(a, k), Best(b, k))
    decreases |b|
  {
    if b == [] {
      assert a + b == a;
    } else {
      var n := |b| - 1;
      assert (a + b)[..|a + b| - 1] == a + b[..n];
      BestAppend(a, b[..n], k);
    }
  }

  /** The ids of `b` that `a` does not already list, in order. */
  function NewIds(a: seq<string>, b: seq<string>): seq<string> {
    if b == [] then []
    else
      var n := |b| - 1;
      if b[n] in a then NewIds(a, b[..n]) else NewIds(a, b[..n]) + [b[n]]
  }

  lemma {:induction false} NewIdsMembers(a: seq<string>, b: seq<string>)
    ensures forall k :: k in NewIds(a, b) <==> k in b && k !in a
  {
    if b != [] {
      NewIdsMembers(a, b[..|b| - 1]);
      assert b == b[..|b| - 1] + [b[|b| - 1]];
    }
  }

  lemma {:induction false} NoNewIds(a: seq<string>, b: seq<string>)
    requires forall i :: 0 <= i < |b| ==> b[i] in a
    ensures NewIds(a, b) == []
  {
    if b != [] { NoNewIds(a, b[..|b| - 1]); }
  }

  lemma {:induction false} IdsAppend(a: seq<CveEntry>, b: seq<CveEntry>)
    ensures Ids(a + b) == Ids(a) + NewIds(Ids(a), Ids(b))
    decreases |b|
  {
    if b == [] {
      assert a + b == a;
    } else {
      var n := |b| - 1;
      assert (a + b)[..|a + b| - 1] == a + b[..n];
      IdsAppend(a, b[..n]);
      NextNewId(Ids(a), Ids(b[..n]), Key(b[n]));
    }
  }

  lemma NextNewId(a: seq<string>, b: seq<string>, k: string)
    ensures WithId(a + NewIds(a, b), k) == a + NewIds(a, WithId(b, k))
  {
    NewIdsMembers(a, b);
    NewIdsSnoc(a, b, k);
    Assoc(a, NewIds(a, b), [k]);
  }

  lemma NewIdsSnoc(a: seq<string>, b: seq<string>, k: string)
    ensures NewIds(a, b + [k]) == if k in a then NewIds(a, b) else NewIds(a, b) + [k]
  {
    assert (b + [k])[..|b|] == b;
  }

  /** A merged list stands for the lists it came from: same ids in the same order, same best. */
  lemma MergedIsFaithful(list: seq<CveEntry>)
    ensures Ids(Merged(list)) == Ids(list)
    ensures forall k :: k != "" ==> Best(Merged(list), k) == Best(list, k)
  {
    IdsHaveBest(list);
    var m := Merged(list);
    DistinctKeysKept(m);
    forall k | k != "" ensures Best(m, k) == Best(list, k) {
      if Best(list, k).Some? {
        assert k in Ids(list);
        var i :| 0 <= i < |m| && Ids(list)[i] == k;
        BestOfDistinct(m, i);
      } else {
        IdsHaveBest(m);
        if Best(m, k).Some? { assert k in Ids(m); }
      }
    }
  }

  lemma {:induction false} DistinctKeysKept(m: seq<CveEntry>)
    requires forall i :: 0 <= i < |m| ==> Key(m[i]) != ""
    requires forall i, j :: 0 <= i < j < |m| ==> Key(m[i]) != Key(m[j])
    ensures |Ids(m)| == |m| && forall i :: 0 <= i < |m| ==> Ids(m)[i] == Key(m[i])
  {
    if m != [] {
      DistinctKeysKept(m[..|m| - 1]);
    }
  }

  lemma {:induction false} BestOfDistinct(m: seq<CveEntry>, i: nat)
    requires i < |m| && forall i, j :: 0 <= i < j < |m| ==> Key(m[i]) != Key(m[j])
    ensures Best(m, Key(m[i])) == Some(m[i])
    decreases |m|
  {
    var n := |m| - 1;
    if i < n {
      BestOfDistinct(m[..n], i);
    } else {
      NoBest(m[..n], Key(m[i]));
    }
  }

  lemma {:induction false} NoBest(m: seq<CveEntry>, k: string)
    requires forall i :: 0 <= i < |m| ==> Key(m[i]) != k
    ensures Best(m, k) == None
  {
    if m != [] { NoBest(m[..|m| - 1], k); }
  }

  lemma SameMerge(a: seq<CveEntry>, b: seq<CveEntry>)
    requires Ids(a) == Ids(b) && forall k :: k != "" ==> Best(a, k) == Best(b, k)
    ensures Merged(a) == Merged(b)
  {
    IdsHaveBest(a);
    forall i | 0 <= i < |Merged(a)| ensures Merged(a)[i] == Merged(b)[i] {
      assert Ids(a)[i] in Ids(a);
    }
  }

  /** A list may be replaced, anywhere among others, by its own merge. */
  lemma MergeAbsorbs(before: seq<CveEntry>, list: seq<CveEntry>, rest: seq<CveEntry>)
    ensures Merged(before + Merged(list) + rest) == Merged(before + list + rest)
  {
    MergedIsFaithful(list);
    IdsAppend(before, Merged(list));
    IdsAppend(before, list);
    IdsAppend(before + Merged(list), rest);
    IdsAppend(before + list, rest);
    forall k | k != "" ensures Best(before + Merged(list) + rest, k) == Best(before + list + rest, k) {
      BestAppend(before, Merged(list), k);
      BestAppend(before, list, k);
      BestAppend(before + Merged(list), rest, k);
      BestAppend(before + list, rest, k);
    }
    SameMerge(before + Merged(list) + rest, before + list + rest);
  }

  lemma {:induction false} CandidatesAppend(a: seq<Option<RawResult>>, b: seq<Option<RawResult>>)
    ensures Candidates(a + b) == Candidates(a) + Candidates(b)
    decreases |b|
  {
    if b == [] {
      assert a + b == a;
    } else {
      var n := |b| - 1;
      assert (a + b)[..|a + b| - 1] == a + b[..n];
      CandidatesAppend(a, b[..n]);
      Assoc(Candidates(a), Candidates(b[..n]), Offered(b[n]));
    }
  }

  lemma {:induction false} NothingMapped(sources: seq<Option<RawResult>>)
    requires !AnyMapped(sources)
    ensures Candidates(sources) == []
  {
    if sources != [] {
      var n := |sources| - 1;
      forall i | 0 <= i < n ensures !(sources[..n][i].Some? && sources[..n][i].value.mapped) {
        assert sources[..n][i] == sources[i];
      }
      NothingMapped(sources[..n]);
      assert !(sources[n].Some? && sources[n].value.mapped);
    }
  }

  lemma OfferedByMerge(sources: seq<Option<RawResult>>)
    ensures Offered(Some(MergeOf(sources))) == Merged(Candidates(sources))
  {
    if !AnyMapped(sources) { NothingMapped(sources); }
  }

  /** Merging is associative in the strong sense: any group of sources may be merged first and its
      result passed in their place, with the same entries in the same order. */
  lemma MergeAssociative(before: seq<Option<RawResult>>, group: seq<Option<RawResult>>, after: seq<Option<RawResult>>)
    ensures MergeOf(before + [Some(MergeOf(group))] + after) == MergeOf(before + group + after)
  {
    var one := [Some(MergeOf(group))];
    OfferedByMerge(group);
    OneSource(Some(MergeOf(group)));
    CandidatesAppend(before, one);
    CandidatesAppend(before + one, after);
    CandidatesAppend(before, group);
    CandidatesAppend(before + group, after);
    MergeAbsorbs(Candidates(before), Candidates(group), Candidates(after));
    MappedAppend(before, one);
    MappedAppend(before + one, after);
    MappedAppend(before, group);
    MappedAppend(before + group, after);
  }

  lemma OneSource(s: Option<RawResult>)
    ensures Candidates([s]) == Offered(s)
    ensures AnyMapped([s]) <==> s.Some? && s.value.mapped
  {
    assert [s][..0] == [];
    assert Candidates([]) + Offered(s) == Offered(s);
    assert [s][0] == s;
  }

  lemma MappedAppend(a: seq<Option<RawResult>>, b: seq<Option<RawResult>>)
    ensures AnyMapped(a + b) <==> AnyMapped(a) || AnyMapped(b)
  {
    var c := a + b;
    assert forall i :: 0 <= i < |a| ==> c[i] == a[i];
    assert forall i :: 0 <= i < |b| ==> c[|a| + i] == b[i];
    if AnyMapped(b) {
      var i :| 0 <= i < |b| && b[i].Some? && b[i].value.mapped;
      assert c[|a| + i].Some? && c[|a| + i].value.mapped;
    }
    if AnyMapped(c) {
      var i :| 0 <= i < |c| && c[i].Some? && c[i].value.mapped;
      if i >= |a| { assert b[i - |a|].Some?; } else { assert a[i].Some?; }
    }
  }

  /** Passing the same sources twice, or merging a merge, changes nothing. */
  lemma MergeIdempotent(sources: seq<Option<RawResult>>)
    ensures MergeOf([Some(MergeOf(sources))]) == MergeOf(sources)
    ensures MergeOf(sources + sources) == MergeOf(sources)
  {
    MergeAssociative([], sources, []);
    assert [] + [Some(MergeOf(sources))] + [] == [Some(MergeOf(sources))];
    assert [] + sources + [] == sources;
    var c := Candidates(sources);
    CandidatesAppend(sources, sources);
    MappedAppend(sources, sources);
    IdsAppend(c, c);
    NoNewIds(Ids(c), Ids(c));
    forall k | k != "" ensures Best(c + c, k) == Best(c, k) {
      BestAppend(c, c, k);
    }
    SameMerge(c + c, c);
  }

  // ---- what the fold selects ----

  /** Entry `i` is the one kept for `k`: the first that has a score, or, when none of that id has
      one, the first. */
  ghost predicate Selected(list: seq<CveEntry>, k: string, i: nat) {
    && i < |list| && Key(list[i]) == k
    && forall j :: 0 <= j < |list| && Key(list[j]) == k ==>
         if list[i].score.Some? then j < i ==> list[j].score.None? else j >= i && list[j].score.None?
  }

  lemma SelectedSnoc(list: seq<CveEntry>, c: CveEntry, k: string, i: nat)
    requires Selected(list, k, i)
    ensures Selected(list + [c], k, if Key(c) == k && list[i].score.None? && c.score.Some? then |list| else i)
  {
    assert forall j :: 0 <= j < |list| ==> (list + [c])[j] == list[j];
  }

  lemma SelectedLast(list: seq<CveEntry>, c: CveEntry)
    requires forall j :: 0 <= j < |list| ==> Key(list[j]) != Key(c)
    ensures Selected(list + [c], Key(c), |list|)
  {
    assert forall j :: 0 <= j < |list| ==> (list + [c])[j] == list[j];
  }

  lemma BestSnoc(list: seq<CveEntry>, c: CveEntry, k: string)
    ensures Best(list + [c], k) == if Key(c) == k then Better(Best(list, k), Some(c)) else Best(list, k)
  {
    assert (list + [c])[..|list|] == list;
  }

  /** The selection rule by position. */
  lemma {:induction false} BestIsFirst(list: seq<CveEntry>, k: string) returns (i: nat)
    requires exists j :: 0 <= j < |list| && Key(list[j]) == k
    ensures Selected(list, k, i) && Best(list, k) == Some(list[i])
  {
    var init, last := list[..|list| - 1], list[|list| - 1];
    if exists j :: 0 <= j < |init| && Key(init[j]) == k {
      i := BestIsFirst(init, k);
      i := BestStepsOn(init, last, k, i);
    } else {
      i := |init|;
      assert forall j :: 0 <= j < |init| ==> init[j] == list[j];
      LastIsBest(init, last);
    }
    InitAndLast(list);
  }

  lemma BestStepsOn(list: seq<CveEntry>, c: CveEntry, k: string, i: nat) returns (next: nat)
    requires Selected(list, k, i) && Best(list, k) == Some(list[i])
    ensures Selected(list + [c], k, next) && Best(list + [c], k) == Some((list + [c])[next])
  {
    next := if Key(c) == k && list[i].score.None? && c.score.Some? then |list| else i;
    SelectedSnoc(list, c, k, i);
    BestSnoc(list, c, k);
  }

  lemma LastIsBest(list: seq<CveEntry>, c: CveEntry)
    requires forall j :: 0 <= j < |list| ==> Key(list[j]) != Key(c)
    ensures Selected(list + [c], Key(c), |list|) && Best(list + [c], Key(c)) == Some(c)
  {
    NoBest(list, Key(c));
    SelectedLast(list, c);
    BestSnoc(list, c, Key(c));
  }

  function Names(list: seq<CveEntry>): (r: seq<string>)
    ensures |r| == |list| && forall i :: 0 <= i < |list| ==> r[i] == Key(list[i])
  {
    seq(|list|, i requires 0 <= i < |list| => Key(list[i]))
  }

  /** Position `j` holds the first occurrence of a non-empty name. */
  ghost predicate Introduces(names: seq<string>, j: int) {
    0 <= j < |names| && names[j] != "" && names[j] !in names[..j]
  }

  /** `at` lists, in order, the positions that introduce `ids`, and no other. */
  ghost predicate IdsAt(names: seq<string>, at: seq<nat>, ids: seq<string>) {
    && |at| == |ids|
    && (forall j :: j in at <==> Introduces(names, j))
    && (forall i :: 0 <= i < |at| ==> at[i] < |names| && ids[i] == names[at[i]])
    && (forall i, j :: 0 <= i < j < |at| ==> at[i] < at[j])
  }

  lemma IntroducesSnoc(names: seq<string>, k: string, j: int)
    ensures j != |names| ==> (Introduces(names + [k], j) <==> Introduces(names, j))
    ensures j == |names| ==> (Introduces(names + [k], j) <==> k != "" && k !in names)
  {
    if 0 <= j <= |names| { assert (names + [k])[..j] == names[..j]; }
    assert names[..|names|] == names;
  }

  lemma IdsAtSnoc(names: seq<string>, at: seq<nat>, ids: seq<string>, k: string) returns (next: seq<nat>)
    requires IdsAt(names, at, ids) && forall n :: n in ids <==> n != "" && n in names
    ensures IdsAt(names + [k], next, WithId(ids, k))
  {
    next := if k == "" || k in ids then at else at + [|names|];
    forall j ensures j in next <==> Introduces(names + [k], j) {
      IntroducesSnoc(names, k, j);
    }
  }

  lemma {:induction false} IdsAreNames(list: seq<CveEntry>)
    ensures forall k :: k in Ids(list) <==> k != "" && k in Names(list)
  {
    if list != [] {
      var n := |list| - 1;
      IdsAreNames(list[..n]);
      assert Names(list) == Names(list[..n]) + [Key(list[n])];
    }
  }

  /** The ids are the names introduced, in the order of the list. */
  lemma {:induction false} IdsInFirstSeenOrder(list: seq<CveEntry>) returns (at: seq<nat>)
    ensures IdsAt(Names(list), at, Ids(list))
  {
    if list == [] {
      at := [];
    } else {
      var n := |list| - 1;
      at := IdsInFirstSeenOrder(list[..n]);
      IdsAreNames(list[..n]);
      at := IdsAtSnoc(Names(list[..n]), at, Ids(list[..n]), Key(list[n]));
      assert Names(list) == Names(list[..n]) + [Key(list[n])];
    }
  }

  /** On a collision the later entry wins exactly when it has a score and no earlier one did. The
      position in the argument list does not decide a tie between two scored entries: the first
      one stays, so passing the richest source last does not make it win. */
  lemma LaterEntryWins(before: seq<CveEntry>, c: CveEntry)
    requires Key(c) != "" && Best(before, Key(c)).Some? && Best(before, Key(c)) != Some(c)
    ensures Best(before + [c], Key(c)) == Some(c) <==>
            c.score.Some? && forall i :: 0 <= i < |before| && Key(before[i]) == Key(c) ==> before[i].score.None?
  {
    BestAppend(before, [c], Key(c));
    assert [c][..0] == [];
    assert Best([c], Key(c)) == Some(c);
    BestUnscored(before, Key(c));
  }

  /** The tie at an input: two sources score the same CVE, the richer one is passed last, and the
      entry of the first one stays. */
  lemma LastSourceLosesTie() returns (plugin: RawResult, worker: RawResult)
    ensures plugin.mapped && |plugin.cveList| == 1 && plugin.cveList[0].score == Some(5.0)
    ensures worker.mapped && |worker.cveList| == 1 && worker.cveList[0].score == Some(9.8)
    ensures MergeOf([Some(plugin), Some(worker)]) == plugin
  {
    var id := Some("CVE-2024-1");
    var a := CveEntry(id, None, None, false, Some(5.0), None, "vulncheck", None);
    var b := CveEntry(id, None, None, false, Some(9.8), None, "worker", None);
    plugin, worker := RawResult(true, [a]), RawResult(true, [b]);
    var sources := [Some(plugin), Some(worker)];
    assert Key(a) == Key(b) && |Key(a)| == 10;
    OneSource(Some(plugin));
    CandidatesSnoc([Some(plugin)], Some(worker));
    assert sources == [Some(plugin)] + [Some(worker)] && sources[0].value.mapped;
    assert Candidates(sources) == [a] + [b];
    OnlyEntry(a);
    IdsAppend([a], [b]);
    OnlyEntry(b);
    BestAppend([a], [b], Key(a));
    assert NewIds([Key(a)], [Key(b)]) == [];
    assert Ids([a] + [b]) == [Key(a)];
    assert Merged([a] + [b]) == [a];
  }

  lemma OnlyEntry(c: CveEntry)
    requires Key(c) != ""
    ensures Ids([c]) == [Key(c)] && Best([c], Key(c)) == Some(c)
  {
    assert [c][..0] == [];
    assert [] + [Key(c)] == [Key(c)];
  }

  lemma {:induction false} BestUnscored(list: seq<CveEntry>, k: string)
    requires Best(list, k).Some?
    ensures Best(list, k).value.score.None? <==>
            forall i :: 0 <= i < |list| && Key(list[i]) == k ==> list[i].score.None?
  {
    var n := |list| - 1;
    if Best(list[..n], k).Some? {
      BestUnscored(list[..n], k);
      assert forall i :: 0 <= i < n ==> list[..n][i] == list[i];
    } else {
      forall i | 0 <= i < n ensures Key(list[i]) != k {
        BestExists(list[..n], i);
        assert list[..n][i] == list[i];
      }
    }
  }

  lemma {:induction false} BestExists(list: seq<CveEntry>, i: nat)
    requires i < |list|
    ensures Best(list, Key(list[i])).Some?
    decreases |list|
  {
    var n := |list| - 1;
    if i < n { BestExists(list[..n], i); }
  }

  // ---- ids and sources, in plain terms ----

  /** The id an entry gives, under either name. */
  ghost function IdText(c: CveEntry): string {
    match (c.id, c.cveId)
    case (Some(x), _) => x
    case (None, Some(y)) => y
    case (None, None) => ""
  }

  /** Two entries are merged exactly when their ids differ at most in the case of letters. */
  lemma IdsIgnoreCase(a: CveEntry, b: CveEntry)
    ensures Key(a) == Key(b) <==> SameButCase(IdText(a), IdText(b))
    ensures Key(a) == "" <==> IdText(a) == ""
  {
    UpperIgnoresCase(IdText(a), IdText(b));
  }

  lemma {:induction false} CandidatesAre(sources: seq<Option<RawResult>>, c: CveEntry)
    ensures c in Candidates(sources) <==>
              exists i :: 0 <= i < |sources| && sources[i].Some? && sources[i].value.mapped
                          && c in sources[i].value.cveList
  {
    if sources != [] {
      var n := |sources| - 1;
      CandidatesAre(sources[..n], c);
      assert forall i :: 0 <= i < n ==> sources[..n][i] == sources[i];
    }
  }

  /** The source's list has an entry for the id `k`. */
  ghost predicate Reports(list: seq<CveEntry>, k: string) {
    exists c :: c in list && SameButCase(IdText(c), k)
  }

  ghost predicate Supplies(s: Option<RawResult>, k: string) {
    s.Some? && s.value.mapped && Reports(s.value.cveList, k)
  }

  lemma ReportsIsName(list: seq<CveEntry>, k: string)
    ensures Reports(list, k) <==> Upper(k) in Names(list)
  {
    if c :| c in list && SameButCase(IdText(c), k) {
      UpperIgnoresCase(IdText(c), k);
      var i :| 0 <= i < |list| && list[i] == c;
      assert Names(list)[i] == Upper(k);
    }
    if Upper(k) in Names(list) {
      var i :| 0 <= i < |list| && Names(list)[i] == Upper(k);
      UpperIgnoresCase(IdText(list[i]), k);
      assert list[i] in list;
    }
  }

  lemma MergedReports(list: seq<CveEntry>, k: string)
    ensures Reports(Merged(list), k) <==> k != "" && Reports(list, k)
  {
    ReportsIsName(list, k);
    ReportsIsName(Merged(list), k);
    IdsAreNames(list);
    SameElements(Names(Merged(list)), Ids(list));
  }

  /** The merge lists an id exactly when some mapped source does, whatever the case it is written in. */
  lemma MergeListsExactly(sources: seq<Option<RawResult>>, k: string)
    ensures Reports(MergeOf(sources).cveList, k) <==>
              k != "" && exists i :: 0 <= i < |sources| && Supplies(sources[i], k)
  {
    MergedReports(Candidates(sources), k);
    if c :| c in Candidates(sources) && SameButCase(IdText(c), k) {
      CandidatesAre(sources, c);
    }
    if i :| 0 <= i < |sources| && Supplies(sources[i], k) {
      var c :| c in sources[i].value.cveList && SameButCase(IdText(c), k);
      CandidatesAre(sources, c);
    }
  }

  // ---- severities ----

  const SEVERITY_WORDS: seq<string> := ["CRITICAL", "HIGH", "MODERATE", "MEDIUM", "LOW"]

  /** A feed's severity is read in any case and with blanks around it; "Moderate" means medium. */
  lemma SeverityReads(before: string, w: string, after: string, i: nat)
    requires AllBlank(before) && AllBlank(after) && i < 5 && SameButCase(w, SEVERITY_WORDS[i])
    ensures MapSeverity(before + w + after) == Some([CRITICAL, HIGH, MEDIUM, MEDIUM, LOW][i])
  {
    WordsAreWords();
    assert w[0] !in BLANKS && w[|w| - 1] !in BLANKS;
    TrimMeans(before, w, after);
    UpperIgnoresCase(w, SEVERITY_WORDS[i]);
  }

  lemma WordsAreWords()
    ensures forall i :: 0 <= i < 5 ==> |SEVERITY_WORDS[i]| >= 3 && Upper(SEVERITY_WORDS[i]) == SEVERITY_WORDS[i]
    ensures forall i, j :: 0 <= i < 5 && 0 <= j < |SEVERITY_WORDS[i]| ==> 'A' <= SEVERITY_WORDS[i][j] <= 'Z'
    ensures forall i, j :: 0 <= i < j < 5 ==> SEVERITY_WORDS[i] != SEVERITY_WORDS[j]
  {
    assert |"CRITICAL"| == 8 && |"HIGH"| == 4 && |"MODERATE"| == 8 && |"MEDIUM"| == 6 && |"LOW"| == 3;
    assert "CRITICAL"[0] == 'C' && "MODERATE"[0] == 'M';
    forall i | 0 <= i < 5 ensures Upper(SEVERITY_WORDS[i]) == SEVERITY_WORDS[i] {
      assert forall j :: 0 <= j < |SEVERITY_WORDS[i]| ==> 'A' <= SEVERITY_WORDS[i][j] <= 'Z';
      SameElements(Upper(SEVERITY_WORDS[i]), SEVERITY_WORDS[i]);
    }
  }
}
