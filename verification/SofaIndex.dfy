/** Apple security releases: the per-version index of CVEs still outstanding, its refresh, and the
    lookup that falls back to the nearest older version. */
module SofaIndex {
  import opened Prelude
  import opened Sorting
  import opened JsMaps
  import opened Text
  import opened Versions
  import opened Vulnerabilities

  datatype Detail = Detail(severity: string, activelyExploited: bool, inKev: bool)

  /** `date` is None when the feed gives no release date. */
  datatype Release = Release(
    version: string, date: Option<int>, cves: seq<(string, Detail)>, exploited: seq<string>, name: Option<string>)

  datatype Track = Track(latest: Option<Release>, history: seq<Release>)

  // ---- the releases of a track, oldest first ----

  function Named(s: seq<Release>): seq<Release> { Filter(s, (r: Release) => r.version != "") }

  function Listed(t: Track): seq<Release> { (if t.latest.Some? then [t.latest.value] else []) + t.history }

  function Dated(s: seq<Release>): seq<Release> { Filter(s, (r: Release) => r.date.Some?) }

  function VersionOf(r: Release): string { r.version }

  function DateOf(r: Release): int { if r.date.Some? then r.date.value else 0 }

  /** First entry per version, dated ones only, in date order (ties keep feed order). */
  function Chronological(t: Track): seq<Release> {
    SortBy(Dated(FirstBy(Named(Listed(t)), VersionOf)), DateOf)
  }

  lemma {:induction false} FilterDistinctKeys(s: seq<Release>, p: Release -> bool)
    requires DistinctKeys(s, VersionOf)
    ensures DistinctKeys(Filter(s, p), VersionOf)
  {
    if s != [] {
      var n := |s| - 1;
      FilterDistinctKeys(s[..n], p);
      var f := Filter(s[..n], p);
      forall i | 0 <= i < |f| ensures f[i].version != s[n].version {
        assert f[i] in s[..n];
      }
    }
  }

  lemma ChronologicalFacts(t: Track)
    ensures DistinctKeys(Chronological(t), VersionOf)
    ensures SortedBy(Chronological(t), DateOf)
    ensures forall r :: r in Chronological(t) ==> r.version != "" && r.date.Some? && r in Listed(t)
    ensures forall i, j :: 0 <= i < j < |Chronological(t)| ==>
              Chronological(t)[i].version != Chronological(t)[j].version
              && (Chronological(t)[i].date.Some? && Chronological(t)[j].date.Some? ==>
                    Chronological(t)[i].date.value <= Chronological(t)[j].date.value)
  {
    forall r | r in Chronological(t) ensures r.version != "" && r.date.Some? && r in Listed(t) {
      assert r in Dated(FirstBy(Named(Listed(t)), VersionOf));
      var i := FirstByOrigin(Named(Listed(t)), VersionOf, r);
      assert r in Named(Listed(t));
    }
    var firsts := FirstBy(Named(Listed(t)), VersionOf);
    FirstByDistinct(Named(Listed(t)), VersionOf);
    FilterDistinctKeys(firsts, (r: Release) => r.date.Some?);
    SortByDistinctKeys(Dated(firsts), DateOf, VersionOf);
    SortBySorted(Dated(firsts), DateOf);
    InDateOrder(Chronological(t));
  }

  lemma InDateOrder(rs: seq<Release>)
    requires DistinctKeys(rs, VersionOf) && SortedBy(rs, DateOf)
    ensures forall i, j :: 0 <= i < j < |rs| ==>
              rs[i].version != rs[j].version
              && (rs[i].date.Some? && rs[j].date.Some? ==> rs[i].date.value <= rs[j].date.value)
  {
    forall i, j | 0 <= i < j < |rs|
      ensures rs[i].version != rs[j].version
        && (rs[i].date.Some? && rs[j].date.Some? ==> rs[i].date.value <= rs[j].date.value)
    {
      assert VersionOf(rs[i]) != VersionOf(rs[j]) && DateOf(rs[i]) <= DateOf(rs[j]);
    }
  }

  /** Nothing dated is missing: the first release listed for a version is indexed if it has a date. */
  lemma FirstDatedIsIndexed(t: Track, i: nat)
    requires i < |Listed(t)| && Listed(t)[i].version != "" && Listed(t)[i].date.Some?
    requires forall j :: 0 <= j < i ==> Listed(t)[j].version != Listed(t)[i].version
    ensures Listed(t)[i] in Chronological(t)
  {
    FirstIsKept(Listed(t), i);
    var firsts := FirstBy(Named(Listed(t)), VersionOf);
    assert Listed(t)[i] in Dated(firsts);
    assert Listed(t)[i] in SortBy(Dated(firsts), DateOf);
  }

  lemma {:induction false} FirstIsKept(s: seq<Release>, i: nat)
    requires i < |s| && s[i].version != "" && forall j :: 0 <= j < i ==> s[j].version != s[i].version
    ensures s[i] in FirstBy(Named(s), VersionOf)
    decreases |s|
  {
    var n := |s| - 1;
    NamedSnoc(s, n);
    assert s[..n + 1] == s;
    var before := Named(s[..n]);
    if i < n {
      FirstIsKept(s[..n], i);
      FirstBySnoc(before, s[n], VersionOf);
    } else {
      FirstByHasKey(before, VersionOf, s[n].version);
      forall j | 0 <= j < |before| ensures VersionOf(before[j]) != s[n].version {
        assert before[j] in before;
      }
      FirstBySnoc(before, s[n], VersionOf);
    }
  }

  /** The track's latest release is indexed if it has a version and a date. */
  lemma LatestIsIndexed(t: Track)
    requires t.latest.Some? && t.latest.value.version != "" && t.latest.value.date.Some?
    ensures t.latest.value in Chronological(t)
  {
    FirstDatedIsIndexed(t, 0);
  }

  /** So is every dated release of the history that is the first to carry its version. */
  lemma HistoryIsIndexed(t: Track, i: nat)
    requires i < |t.history| && t.history[i].version != "" && t.history[i].date.Some?
    requires t.latest.Some? ==> t.latest.value.version != t.history[i].version
    requires forall j :: 0 <= j < i ==> t.history[j].version != t.history[i].version
    ensures t.history[i] in Chronological(t)
  {
    FirstDatedIsIndexed(t, if t.latest.Some? then i + 1 else i);
  }

  // ---- what each release fixes ----

  function EntryFor(r: Release, i: nat): CveEntry
    requires i < |r.cves|
  {
    var (cve, detail) := r.cves[i];
    CveEntry(Some(Upper(cve)), None, MapSeverity(detail.severity),
             detail.inKev || detail.activelyExploited || cve in r.exploited,
             None, Some(r.version), "sofa", r.name)
  }

  function Entries(r: Release): (es: seq<CveEntry>)
    ensures |es| == |r.cves|
    ensures forall c :: c in es ==> c.fixedIn == Some(r.version) && c.id.Some?
  {
    seq(|r.cves|, i requires 0 <= i < |r.cves| => EntryFor(r, i))
  }

  function IdOf(c: CveEntry): string { if c.id.Some? then c.id.value else "" }

  function IdsOf(list: seq<CveEntry>): set<string> {
    if list == [] then {} else IdsOf(list[..|list| - 1]) + {IdOf(list[|list| - 1])}
  }

  /** The CVE ids a release fixes. */
  function Fixes(r: Release): set<string> { IdsOf(Entries(r)) }

  /** A release fixes exactly the CVEs it lists, by upper-cased id. */
  lemma FixesMeans(r: Release, id: string)
    ensures id in Fixes(r) <==> exists k :: 0 <= k < |r.cves| && Upper(r.cves[k].0) == id
  {
    IdsMean(Entries(r), id);
    assert forall k :: 0 <= k < |r.cves| ==> Entries(r)[k] == EntryFor(r, k);
    if id in IdsOf(Entries(r)) {
      var k :| 0 <= k < |Entries(r)| && IdOf(Entries(r)[k]) == id;
      assert Upper(r.cves[k].0) == id;
    }
    if k :| 0 <= k < |r.cves| && Upper(r.cves[k].0) == id {
      assert IdOf(Entries(r)[k]) == id;
    }
  }

  lemma {:induction false} IdsMean(list: seq<CveEntry>, id: string)
    ensures id in IdsOf(list) <==> exists k :: 0 <= k < |list| && IdOf(list[k]) == id
  {
    if list != [] {
      var n := |list| - 1;
      IdsMean(list[..n], id);
      assert forall k :: 0 <= k < n ==> list[..n][k] == list[k];
    }
  }

  /** What an entry says: it is known to be exploited if its details, its catalog flag or the release's
      own list of exploited CVEs say so. */
  lemma EntrySays(r: Release, k: nat)
    requires k < |r.cves|
    ensures var e, d := Entries(r)[k], r.cves[k].1;
            && e.id == Some(Upper(r.cves[k].0)) && e.fixedIn == Some(r.version)
            && e.severity == MapSeverity(d.severity)
            && (e.isKev <==> d.inKev || d.activelyExploited || r.cves[k].0 in r.exploited)
  {
  }

  function Records(rs: seq<Release>): seq<CveEntry> {
    if rs == [] then [] else Records(rs[..|rs| - 1]) + Entries(rs[|rs| - 1])
  }

  /** What a device on release `i` is still exposed to: the first fix of every CVE that some later
      release fixes. */
  function Outstanding(rs: seq<Release>, i: nat): seq<CveEntry>
    requires i < |rs|
  {
    FirstBy(Records(rs[i + 1..]), IdOf)
  }

  // ---- building the index ----

  method CollectLater(rs: seq<Release>, i: nat) returns (list: seq<CveEntry>)
    requires i < |rs|
    ensures list == Outstanding(rs, i)
  {
    var seen := Empty<string, CveEntry>();
    var later := rs[i + 1..];
    var j := 0;
    assert later[..0] == [];
    while j < |later|
      invariant 0 <= j <= |later|
      invariant HoldsFirsts(seen, Records(later[..j]), IdOf)
    {
      assert later[..j + 1][..j] == later[..j];
      seen := CollectFrom(seen, Records(later[..j]), later[j]);
      j := j + 1;
    }
    assert later[..j] == later;
    return seen.Values();
  }

  /** The inner loop: one later release adds the CVEs not seen yet. */
  method CollectFrom(m: JsMap<string, CveEntry>, ghost before: seq<CveEntry>, r: Release)
      returns (seen: JsMap<string, CveEntry>)
    requires HoldsFirsts(m, before, IdOf)
    ensures HoldsFirsts(seen, before + Entries(r), IdOf)
  {
    seen := m;
    var k := 0;
    assert before + Entries(r)[..0] == before;
    while k < |r.cves|
      invariant 0 <= k <= |r.cves|
      invariant HoldsFirsts(seen, before + Entries(r)[..k], IdOf)
    {
      var c := EntryFor(r, k);
      CollectStep(seen, before, Entries(r), k);
      if !seen.Has(IdOf(c)) {
        seen := seen.Set(IdOf(c), c);
      }
      k := k + 1;
    }
    assert Entries(r)[..k] == Entries(r);
  }

  lemma CollectStep(m: JsMap<string, CveEntry>, before: seq<CveEntry>, es: seq<CveEntry>, k: nat)
    requires k < |es| && HoldsFirsts(m, before + es[..k], IdOf)
    ensures HoldsFirsts(if m.Has(IdOf(es[k])) then m else m.Set(IdOf(es[k]), es[k]), before + es[..k + 1], IdOf)
  {
    SetUnlessThere(m, before + es[..k], IdOf, es[k]);
    assert before + es[..k] + [es[k]] == before + es[..k + 1];
  }

  method FirstPerVersion(listed: seq<Release>) returns (byVersion: seq<Release>)
    ensures byVersion == FirstBy(Named(listed), VersionOf)
  {
    var m := Empty<string, Release>();
    var i := 0;
    while i < |listed|
      invariant 0 <= i <= |listed|
      invariant HoldsFirsts(m, Named(listed[..i]), VersionOf)
    {
      NamedSnoc(listed, i);
      if listed[i].version != "" {
        SetUnlessThere(m, Named(listed[..i]), VersionOf, listed[i]);
        if !m.Has(listed[i].version) {
          m := m.Set(listed[i].version, listed[i]);
        }
      }
      i := i + 1;
    }
    assert listed[..i] == listed;
    return m.Values();
  }

  method ComputeChronologies(tracks: seq<Track>) returns (releases: seq<seq<Release>>)
    ensures releases == Chronologies(tracks)
  {
    releases := [];
    var t := 0;
    while t < |tracks|
      invariant 0 <= t <= |tracks| && |releases| == t
      invariant forall u :: 0 <= u < t ==> releases[u] == Chronological(tracks[u])
    {
      var next := ComputeChronological(tracks[t]);
      releases := releases + [next];
      t := t + 1;
    }
  }

  method ComputeChronological(track: Track) returns (releases: seq<Release>)
    ensures releases == Chronological(track)
  {
    var firsts := FirstPerVersion(Listed(track));
    releases := SortBy(Dated(firsts), DateOf);
  }

  lemma NamedSnoc(s: seq<Release>, i: nat)
    requires i < |s|
    ensures Named(s[..i + 1]) == if s[i].version != "" then Named(s[..i]) + [s[i]] else Named(s[..i])
  {
    assert s[..i + 1][..i] == s[..i];
  }

  /** Rows for the first `n` releases of one platform's track, keyed `platform|version`. */
  function RowsOf(platform: string, rs: seq<Release>, n: nat): map<string, seq<CveEntry>>
    requires n <= |rs|
  {
    if n == 0 then map[] else RowsOf(platform, rs, n - 1)[RowKey(platform, rs[n - 1].version) := Outstanding(rs, n - 1)]
  }

  /** Rows of all tracks of one platform, each given oldest release first; later tracks override. */
  function FeedRows(platform: string, tracks: seq<seq<Release>>): map<string, seq<CveEntry>> {
    if tracks == [] then map[]
    else
      var n := |tracks| - 1;
      FeedRows(platform, tracks[..n]) + RowsOf(platform, tracks[n], |tracks[n]|)
  }

  lemma OneMoreTrack(platform: string, tracks: seq<seq<Release>>, t: nat)
    requires t < |tracks|
    ensures FeedRows(platform, tracks[..t + 1])
         == FeedRows(platform, tracks[..t]) + RowsOf(platform, tracks[t], |tracks[t]|)
  {
    assert tracks[..t + 1][..t] == tracks[..t];
  }

  function Chronologies(tracks: seq<Track>): (r: seq<seq<Release>>)
    ensures |r| == |tracks| && forall t :: 0 <= t < |tracks| ==> r[t] == Chronological(tracks[t])
  {
    seq(|tracks|, t requires 0 <= t < |tracks| => Chronological(tracks[t]))
  }

  function Index(macos: seq<seq<Release>>, ios: seq<seq<Release>>): map<string, seq<CveEntry>> {
    FeedRows("macos", macos) + FeedRows("ios", ios)
  }

  class SofaCache {
    var rows: map<string, seq<CveEntry>>

    constructor ()
      ensures rows == map[]
    {
      rows := map[];
    }

    /** Whatever was cached before, a refresh leaves exactly the index of the two feeds. */
    method Refresh(macos: seq<Track>, ios: seq<Track>)
      modifies this
      ensures rows == Index(Chronologies(macos), Chronologies(ios))
    {
      ghost var was := rows;
      var mac := UpsertFeed("macos", macos);
      var phone := UpsertFeed("ios", ios);
      ghost var ms, ps := Chronologies(macos), Chronologies(ios);
      UpsertRows(was, FeedRows("macos", ms), FeedRows("ios", ps));
      EvictOthers(was, Index(ms, ps));
      rows := EvictStale(rows, mac + phone);
    }

    method UpsertFeed(platform: string, tracks: seq<Track>) returns (keys: set<string>)
      modifies this
      ensures rows == old(rows) + FeedRows(platform, Chronologies(tracks))
      ensures keys == FeedRows(platform, Chronologies(tracks)).Keys
    {
      var releases := ComputeChronologies(tracks);
      keys := {};
      ghost var was := rows;
      var t := 0;
      while t < |releases|
        invariant 0 <= t <= |releases|
        invariant rows == was + FeedRows(platform, releases[..t])
        invariant keys == FeedRows(platform, releases[..t]).Keys
      {
        OneMoreTrack(platform, releases, t);
        UpsertRows(was, FeedRows(platform, releases[..t]), RowsOf(platform, releases[t], |releases[t]|));
        var more := UpsertReleases(platform, releases[t]);
        keys := keys + more;
        t := t + 1;
      }
      assert releases[..t] == releases;
    }

    method UpsertReleases(platform: string, releases: seq<Release>) returns (keys: set<string>)
      modifies this
      ensures rows == old(rows) + RowsOf(platform, releases, |releases|)
      ensures keys == RowsOf(platform, releases, |releases|).Keys
    {
      keys := {};
      ghost var was := rows;
      var i := 0;
      while i < |releases|
        invariant 0 <= i <= |releases|
        invariant rows == was + RowsOf(platform, releases, i)
        invariant keys == RowsOf(platform, releases, i).Keys
      {
        var list := CollectLater(releases, i);
        var key := RowKey(platform, releases[i].version);
        UpsertRow(was, RowsOf(platform, releases, i), key, list);
        rows := rows[key := list];
        keys := keys + {key};
        i := i + 1;
      }
    }

    /** An exact row if there is one; otherwise the row of the newest version on the same platform
        that is not newer than the requested one. Ties and listing order are left open. */
    method GetSofaCacheRow(key: string) returns (found: Option<string>)
      ensures Answers(rows, key, found)
    {
      if key in rows { return Some(key); }
      var platform, version := Segment(key, '|', 0), Segment(key, '|', 1);
      if platform == "" || version == "" { return None; }
      found := NearestOlder(platform, VersionTuple(version));
    }

    method NearestOlder(platform: string, device: seq<int>) returns (found: Option<string>)
      ensures Nearest(rows.Keys, platform, device, found)
    {
      var rest := rows.Keys;
      found := None;
      while rest != {}
        invariant rest <= rows.Keys
        invariant Nearest(rows.Keys - rest, platform, device, found)
        decreases |rest|
      {
        var c :| c in rest;
        var seen := rows.Keys - rest;
        if IsPrefix(platform + "|", c) {
          found := Consider(platform, device, seen, found, c);
        }
        rest := rest - {c};
        assert rows.Keys - rest == seen + {c};
      }
      assert rows.Keys - rest == rows.Keys;
    }

    static method Consider(platform: string, device: seq<int>, ghost seen: set<string>, found: Option<string>,
                           c: string)
        returns (better: Option<string>)
      requires Nearest(seen, platform, device, found) && IsPrefix(platform + "|", c)
      ensures Nearest(seen + {c}, platform, device, better)
    {
      var tuple := RowTuple(platform, c);
      var order := CmpTuples(tuple, device);
      if order > 0 { return found; }
      CmpSelf(tuple);
      if found.None? { return Some(c); }
      var best := RowTuple(platform, found.value);
      var newer := CmpTuples(tuple, best);
      if newer <= 0 { return found; }
      CmpFlips(tuple, best);
      forall k | k in seen && Older(platform, device, k) ensures Cmp(RowTuple(platform, k), tuple) <= 0 {
        CmpTransitive(RowTuple(platform, k), best, tuple);
      }
      return Some(c);
    }
  }

  // ---- what the lookup may answer ----

  /** The tuple of the version part of a row key. */
  function RowTuple(platform: string, key: string): seq<int> {
    VersionTuple(if |platform| + 1 <= |key| then key[|platform| + 1..] else "")
  }

  /** A row of this platform that is not newer than the device. */
  predicate Older(platform: string, device: seq<int>, key: string) {
    IsPrefix(platform + "|", key) && Cmp(RowTuple(platform, key), device) <= 0
  }

  /** `found` is a newest row among the older ones, or None when there is none. */
  ghost predicate Nearest(keys: set<string>, platform: string, device: seq<int>, found: Option<string>) {
    match found
    case None => forall k :: k in keys ==> !Older(platform, device, k)
    case Some(best) =>
      && best in keys && Older(platform, device, best)
      && forall k :: k in keys && Older(platform, device, k) ==>
          Cmp(RowTuple(platform, k), RowTuple(platform, best)) <= 0
  }

  ghost predicate Answers(rows: map<string, seq<CveEntry>>, key: string, found: Option<string>) {
    if key in rows then found == Some(key)
    else
      var platform, version := Segment(key, '|', 0), Segment(key, '|', 1);
      if platform == "" || version == "" then found.None?
      else Nearest(rows.Keys, platform, VersionTuple(version), found)
  }
}
