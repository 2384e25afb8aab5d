/** The Apple index agrees with a direct scan of the release history. */
module SofaCorrect {
  import opened Prelude
  import opened Sorting
  import opened JsMaps
  import opened Text
  import opened Versions
  import opened Vulnerabilities
  import opened SofaIndex

  // ---- outstanding sets ----

  lemma {:induction false} RecordsAppend(a: seq<Release>, b: seq<Release>)
    ensures Records(a + b) == Records(a) + Records(b)
    decreases |b|
  {
    if b == [] {
      assert a + b == a;
    } else {
      var n := |b| - 1;
      assert (a + b)[..|a + b| - 1] == a + b[..n];
      RecordsAppend(a, b[..n]);
      Assoc(Records(a), Records(b[..n]), Entries(b[n]));
    }
  }

  lemma {:induction false} IdsOfAppend(a: seq<CveEntry>, b: seq<CveEntry>)
    ensures IdsOf(a + b) == IdsOf(a) + IdsOf(b)
    decreases |b|
  {
    if b == [] {
      assert a + b == a;
    } else {
      assert (a + b)[..|a + b| - 1] == a + b[..|b| - 1];
      IdsOfAppend(a, b[..|b| - 1]);
    }
  }

  lemma IdsOfFirsts(list: seq<CveEntry>)
    ensures IdsOf(FirstBy(list, IdOf)) == IdsOf(list)
  {
    forall k ensures k in IdsOf(FirstBy(list, IdOf)) <==> k in IdsOf(list) {
      FirstByHasKey(list, IdOf, k);
      KeyIsId(FirstBy(list, IdOf), k);
      KeyIsId(list, k);
    }
  }

  lemma {:induction false} KeyIsId(list: seq<CveEntry>, k: string)
    ensures HasKey(list, IdOf, k) <==> k in IdsOf(list)
  {
    if list != [] {
      var n := |list| - 1;
      KeyIsId(list[..n], k);
      HasKeySnoc(list[..n], list[n], IdOf, k);
      assert list == list[..n] + [list[n]];
    }
  }

  function UnionFrom<T>(sets: seq<set<T>>, i: nat): set<T>
    requires i <= |sets|
    decreases |sets| - i
  {
    if i == |sets| then {} else sets[i] + UnionFrom(sets, i + 1)
  }

  lemma {:induction false} UnionFromMembers<T>(sets: seq<set<T>>, i: nat, x: T)
    requires i <= |sets|
    ensures x in UnionFrom(sets, i) <==> exists j :: i <= j < |sets| && x in sets[j]
    decreases |sets| - i
  {
    if i < |sets| { UnionFromMembers(sets, i + 1, x); }
  }

  function FixSets(rs: seq<Release>): (r: seq<set<string>>)
    ensures |r| == |rs| && forall j :: 0 <= j < |rs| ==> r[j] == Fixes(rs[j])
  {
    seq(|rs|, j requires 0 <= j < |rs| => Fixes(rs[j]))
  }

  /** The ids some release from position `i` on fixes. */
  function FixedFrom(rs: seq<Release>, i: nat): set<string>
    requires i <= |rs|
  {
    UnionFrom(FixSets(rs), i)
  }

  lemma {:induction false} RecordIds(rs: seq<Release>, i: nat)
    requires i <= |rs|
    ensures IdsOf(Records(rs[i..])) == FixedFrom(rs, i)
    decreases |rs| - i
  {
    if i < |rs| {
      RecordIds(rs, i + 1);
      IdsOfMore(rs[i], rs[i + 1..]);
      DropOne(rs, i);
    }
  }

  lemma DropOne<T>(s: seq<T>, i: nat)
    requires i < |s|
    ensures [s[i]] + s[i + 1..] == s[i..]
  {
  }

  lemma IdsOfMore(r: Release, rest: seq<Release>)
    ensures IdsOf(Records([r] + rest)) == Fixes(r) + IdsOf(Records(rest))
  {
    RecordsAppend([r], rest);
    RecordsOfOne(r);
    IdsOfAppend(Entries(r), Records(rest));
  }

  lemma RecordsOfOne(r: Release)
    ensures Records([r]) == Entries(r)
  {
    assert [r][..0] == [];
    assert [] + Entries(r) == Entries(r);
  }

  /** Outstanding sets telescope, so ids only disappear as the release advances; and no id is
      listed twice. */
  lemma OutstandingTelescopes(rs: seq<Release>, i: nat)
    requires i + 1 < |rs|
    ensures IdsOf(Outstanding(rs, i)) == Fixes(rs[i + 1]) + IdsOf(Outstanding(rs, i + 1))
    ensures IdsOf(Outstanding(rs, i + 1)) <= IdsOf(Outstanding(rs, i))
    ensures DistinctKeys(Outstanding(rs, i), IdOf)
  {
    OutstandingIds(rs, i);
    OutstandingIds(rs, i + 1);
    FirstByDistinct(Records(rs[i + 1..]), IdOf);
  }

  lemma OutstandingIds(rs: seq<Release>, i: nat)
    requires i < |rs|
    ensures IdsOf(Outstanding(rs, i)) == FixedFrom(rs, i + 1)
  {
    IdsOfFirsts(Records(rs[i + 1..]));
    RecordIds(rs, i + 1);
  }

  lemma FixedFromMembers(rs: seq<Release>, i: nat, id: string)
    requires i <= |rs|
    ensures id in FixedFrom(rs, i) <==> exists j :: i <= j < |rs| && id in Fixes(rs[j])
  {
    var sets := FixSets(rs);
    UnionFromMembers(sets, i, id);
    assert forall j :: i <= j < |rs| ==> sets[j] == Fixes(rs[j]);
  }

  /** `fixed_in` names the earliest later release that fixes the CVE. */
  lemma FixedInIsEarliest(rs: seq<Release>, i: nat, c: CveEntry) returns (j: nat)
    requires i < |rs| && c in Outstanding(rs, i)
    ensures i < j < |rs| && c in Entries(rs[j]) && c.fixedIn == Some(rs[j].version)
    ensures forall h :: i < h < j ==> IdOf(c) !in Fixes(rs[h])
  {
    var k := EarliestIn(rs[i + 1..], c);
    j := i + 1 + k;
    forall h | i < h < j ensures IdOf(c) !in Fixes(rs[h]) {
      assert rs[i + 1..][h - i - 1] == rs[h];
    }
  }

  lemma {:induction false} EarliestIn(rs: seq<Release>, c: CveEntry) returns (j: nat)
    requires c in FirstBy(Records(rs), IdOf)
    ensures j < |rs| && c in Entries(rs[j])
    ensures forall h :: 0 <= h < j ==> IdOf(c) !in Fixes(rs[h])
  {
    var n := |rs| - 1;
    FirstByAppend(Records(rs[..n]), Entries(rs[n]), IdOf, c);
    if c in FirstBy(Records(rs[..n]), IdOf) {
      j := EarliestIn(rs[..n], c);
      assert forall h :: 0 <= h < j ==> rs[..n][h] == rs[h];
    } else {
      j := n;
      UnseenUnfixed(rs[..n], IdOf(c));
      assert forall h :: 0 <= h < n ==> rs[..n][h] == rs[h];
    }
  }

  lemma UnseenUnfixed(rs: seq<Release>, id: string)
    requires !HasKey(Records(rs), IdOf, id)
    ensures forall h :: 0 <= h < |rs| ==> id !in Fixes(rs[h])
  {
    KeyIsId(Records(rs), id);
    RecordIds(rs, 0);
    assert rs[0..] == rs;
    FixedFromMembers(rs, 0, id);
  }

  // ---- the rows of an index ----

  /** Row `key` is release `i` of track `t`. */
  ghost predicate RowIs(platform: string, tracks: seq<seq<Release>>, key: string, list: seq<CveEntry>, t: nat, i: nat) {
    && t < |tracks| && i < |tracks[t]|
    && key == RowKey(platform, tracks[t][i].version)
    && list == Outstanding(tracks[t], i)
  }

  lemma {:induction false} TrackRowOrigin(platform: string, rs: seq<Release>, n: nat, key: string) returns (i: nat)
    requires n <= |rs| && key in RowsOf(platform, rs, n)
    ensures i < n && key == RowKey(platform, rs[i].version) && RowsOf(platform, rs, n)[key] == Outstanding(rs, i)
    decreases n
  {
    if key == RowKey(platform, rs[n - 1].version) {
      i := n - 1;
    } else {
      i := TrackRowOrigin(platform, rs, n - 1, key);
    }
  }

  lemma {:induction false} TrackRowPresent(platform: string, rs: seq<Release>, n: nat, i: nat)
    requires i < n <= |rs|
    ensures RowKey(platform, rs[i].version) in RowsOf(platform, rs, n)
    decreases n
  {
    if i < n - 1 { TrackRowPresent(platform, rs, n - 1, i); }
  }

  lemma {:induction false} FeedRowOrigin(platform: string, tracks: seq<seq<Release>>, key: string)
      returns (t: nat, i: nat)
    requires key in FeedRows(platform, tracks)
    ensures RowIs(platform, tracks, key, FeedRows(platform, tracks)[key], t, i)
  {
    var n := |tracks| - 1;
    var rs := tracks[n];
    if key in RowsOf(platform, rs, |rs|) {
      t := n;
      i := TrackRowOrigin(platform, rs, |rs|, key);
    } else {
      t, i := FeedRowOrigin(platform, tracks[..n], key);
    }
  }

  lemma {:induction false} FeedRowPresent(platform: string, tracks: seq<seq<Release>>, t: nat, i: nat)
    requires t < |tracks| && i < |tracks[t]|
    ensures RowKey(platform, tracks[t][i].version) in FeedRows(platform, tracks)
    decreases |tracks|
  {
    var n := |tracks| - 1;
    if t < n {
      assert tracks[..n][t] == tracks[t];
      FeedRowPresent(platform, tracks[..n], t, i);
    } else {
      TrackRowPresent(platform, tracks[n], |tracks[n]|, i);
    }
  }

  function FeedOf(macos: seq<seq<Release>>, ios: seq<seq<Release>>, platform: string): seq<seq<Release>> {
    if platform == "macos" then macos else ios
  }

  predicate IsPlatform(p: string) { p == "macos" || p == "ios" }

  lemma RowKeyTells(p: string, v: string)
    ensures IsPrefix(p + "|", RowKey(p, v)) && RowKey(p, v)[|p| + 1..] == v
    ensures RowTuple(p, RowKey(p, v)) == VersionTuple(v)
  {
    assert RowKey(p, v) == (p + "|") + v;
  }

  lemma PlatformsDiffer(v: string, p: string, q: string)
    requires IsPlatform(p) && IsPlatform(q) && IsPrefix(p + "|", RowKey(q, v))
    ensures p == q
  {
    var k := RowKey(q, v);
    assert k[0] == q[0];
    assert k[0] == (p + "|")[0] == p[0];
  }

  /** Every cached row of a platform is a release of one of that platform's tracks. */
  lemma IndexRowOrigin(macos: seq<seq<Release>>, ios: seq<seq<Release>>, p: string, key: string)
      returns (t: nat, i: nat)
    requires IsPlatform(p) && key in Index(macos, ios) && IsPrefix(p + "|", key)
    ensures RowIs(p, FeedOf(macos, ios, p), key, Index(macos, ios)[key], t, i)
  {
    if key in FeedRows("ios", ios) {
      t, i := FeedRowOrigin("ios", ios, key);
      PlatformsDiffer(ios[t][i].version, p, "ios");
    } else {
      t, i := FeedRowOrigin("macos", macos, key);
      PlatformsDiffer(macos[t][i].version, p, "macos");
    }
  }

  lemma IndexRowPresent(macos: seq<seq<Release>>, ios: seq<seq<Release>>, p: string, t: nat, i: nat)
    requires IsPlatform(p) && t < |FeedOf(macos, ios, p)| && i < |FeedOf(macos, ios, p)[t]|
    ensures RowKey(p, FeedOf(macos, ios, p)[t][i].version) in Index(macos, ios)
  {
    FeedRowPresent(p, FeedOf(macos, ios, p), t, i);
  }

  // ---- when the index answers for a device ----

  /** Sorted by date, the versions of the track strictly increase. */
  ghost predicate OrdersAgree(rs: seq<Release>) {
    forall i, j :: 0 <= i < j < |rs| ==> CmpVersions(rs[i].version, rs[j].version) < 0
  }

  /** The same, with ties: several releases may read as one version, as "13.4.1" and "13.4.1 (c)" do. */
  ghost predicate OrdersAgreeUpToTies(rs: seq<Release>) {
    forall i, j :: 0 <= i < j < |rs| ==> CmpVersions(rs[i].version, rs[j].version) <= 0
  }

  ghost predicate Below(a: seq<Release>, b: seq<Release>) {
    forall i, j :: 0 <= i < |a| && 0 <= j < |b| ==> CmpVersions(a[i].version, b[j].version) < 0
  }

  ghost predicate TracksApart(tracks: seq<seq<Release>>) {
    forall a, b :: 0 <= a < |tracks| && 0 <= b < |tracks| && a != b ==>
      Below(tracks[a], tracks[b]) || Below(tracks[b], tracks[a])
  }

  /** `d` is at or above the oldest release of track `t` and below every release of higher tracks. */
  ghost predicate HomeTrack(tracks: seq<seq<Release>>, t: nat, d: string) {
    && t < |tracks| && tracks[t] != []
    && CmpVersions(tracks[t][0].version, d) <= 0
    && forall u, i :: 0 <= u < |tracks| && u != t && 0 <= i < |tracks[u]| ==>
         (Below(tracks[t], tracks[u]) ==> CmpVersions(tracks[u][i].version, d) > 0)
  }

  /** The direct scan: ids fixed by releases of the track that are later than the device. */
  function Scan(rs: seq<Release>, d: string): set<string> {
    if rs == [] then {}
    else
      var n := |rs| - 1;
      Scan(rs[..n], d) + FixesFor(rs[n], d)
  }

  function FixesFor(r: Release, d: string): set<string> {
    if CmpVersions(d, r.version) < 0 then Fixes(r) else {}
  }

  /** The scan in plain terms: the upper-cased ids listed by releases whose version is above `d`. */
  lemma ScanMeans(rs: seq<Release>, d: string, id: string)
    ensures id in Scan(rs, d) <==>
              exists j, k :: 0 <= j < |rs| && 0 <= k < |rs[j].cves|
                             && CmpVersions(d, rs[j].version) < 0 && Upper(rs[j].cves[k].0) == id
  {
    if id in Scan(rs, d) {
      var j := ScanWitness(rs, d, id);
      FixesMeans(rs[j], id);
    }
    if j, k :| 0 <= j < |rs| && 0 <= k < |rs[j].cves|
               && CmpVersions(d, rs[j].version) < 0 && Upper(rs[j].cves[k].0) == id {
      FixesMeans(rs[j], id);
      ScanHas(rs, d, j, id);
    }
  }

  /** Release `i` is a newest one among those not newer than the device. */
  ghost predicate Newest(rs: seq<Release>, i: nat, d: string) {
    && i < |rs| && CmpVersions(rs[i].version, d) <= 0
    && forall j :: 0 <= j < |rs| && CmpVersions(rs[j].version, d) <= 0 ==>
        CmpVersions(rs[j].version, rs[i].version) <= 0
  }

  /** A later release that reads as the same version as release `i` fixes `id`. */
  ghost predicate TiedFix(rs: seq<Release>, i: nat, id: string)
    requires i < |rs|
  {
    exists j :: i < j < |rs| && CmpVersions(rs[i].version, rs[j].version) == 0 && id in Fixes(rs[j])
  }

  /** With ties allowed, what the row of a newest older release lists is the direct scan plus the
      fixes of later releases tied with it. */
  lemma NewestRowListsTies(rs: seq<Release>, i: nat, d: string, id: string)
    requires OrdersAgreeUpToTies(rs) && Newest(rs, i, d)
    ensures id in IdsOf(Outstanding(rs, i)) <==> id in Scan(rs, d) || TiedFix(rs, i, id)
  {
    OutstandingIds(rs, i);
    FixedFromMembers(rs, i + 1, id);
    if id in FixedFrom(rs, i + 1) {
      var j :| i + 1 <= j < |rs| && id in Fixes(rs[j]);
      LaterScannedOrTied(rs, i, d, j, id);
    }
    if id in Scan(rs, d) {
      var j := ScannedIsLater(rs, i, d, id);
    }
  }

  lemma LaterScannedOrTied(rs: seq<Release>, i: nat, d: string, j: nat, id: string)
    requires OrdersAgreeUpToTies(rs) && Newest(rs, i, d) && i < j < |rs| && id in Fixes(rs[j])
    ensures id in Scan(rs, d) || TiedFix(rs, i, id)
  {
    if CmpVersions(rs[j].version, d) <= 0 {
      CmpVersionsFlips(rs[i].version, rs[j].version);
    } else {
      CmpVersionsFlips(rs[j].version, d);
      ScanHas(rs, d, j, id);
    }
  }

  lemma ScannedIsLater(rs: seq<Release>, i: nat, d: string, id: string) returns (j: nat)
    requires OrdersAgreeUpToTies(rs) && Newest(rs, i, d) && id in Scan(rs, d)
    ensures i < j < |rs| && id in Fixes(rs[j])
  {
    j := ScanWitness(rs, d, id);
    NewerIsLater(rs, i, d, j);
  }

  lemma NewerIsLater(rs: seq<Release>, i: nat, d: string, j: nat)
    requires OrdersAgreeUpToTies(rs) && Newest(rs, i, d) && j < |rs| && CmpVersions(d, rs[j].version) < 0
    ensures i < j
  {
    CmpVersionsFlips(d, rs[j].version);
    if j < i { CmpVersionsTransitive(rs[j].version, rs[i].version, d); }
  }

  lemma NewestRowIsScan(rs: seq<Release>, i: nat, d: string)
    requires OrdersAgree(rs) && Newest(rs, i, d)
    ensures IdsOf(Outstanding(rs, i)) == Scan(rs, d)
  {
    forall id ensures id in IdsOf(Outstanding(rs, i)) <==> id in Scan(rs, d) {
      NewestRowListsTies(rs, i, d, id);
    }
  }

  lemma ScanHas(rs: seq<Release>, d: string, j: nat, id: string)
    requires j < |rs| && id in FixesFor(rs[j], d)
    ensures id in Scan(rs, d)
  {
    ScanSplits(rs[..j + 1], d);
    ScanGrows(rs, d, j + 1);
  }

  lemma {:induction false} ScanGrows(rs: seq<Release>, d: string, i: nat)
    requires i <= |rs|
    ensures Scan(rs[..i], d) <= Scan(rs, d)
    decreases |rs|
  {
    if i == |rs| {
      assert rs[..i] == rs;
    } else {
      var n := |rs| - 1;
      ScanSplits(rs, d);
      assert rs[..n][..i] == rs[..i];
      ScanGrows(rs[..n], d, i);
    }
  }

  lemma ScanSplits(rs: seq<Release>, d: string)
    requires rs != []
    ensures Scan(rs[..|rs| - 1], d) <= Scan(rs, d) && FixesFor(rs[|rs| - 1], d) <= Scan(rs, d)
  {
  }

  lemma {:induction false} ScanWitness(rs: seq<Release>, d: string, id: string) returns (j: nat)
    requires id in Scan(rs, d)
    ensures j < |rs| && id in FixesFor(rs[j], d)
  {
    var n := |rs| - 1;
    if id in Scan(rs[..n], d) {
      j := ScanWitness(rs[..n], d, id);
    } else {
      j := n;
    }
  }

  /** A row not newer than the device and not older than its track's oldest release belongs to the
      device's own track. */
  lemma RowInHomeTrack(tracks: seq<seq<Release>>, t: nat, d: string, u: nat, i: nat)
    requires TracksApart(tracks) && HomeTrack(tracks, t, d)
    requires u < |tracks| && i < |tracks[u]|
    requires CmpVersions(tracks[u][i].version, d) <= 0
    requires CmpVersions(tracks[t][0].version, tracks[u][i].version) <= 0
    ensures u == t
  {
    CmpVersionsFlips(tracks[t][0].version, tracks[u][i].version);
    if u != t {
      assert false;
    }
  }

  /** After a refresh, the row a device finds is that of a newest release of its own track that is not
      newer than the device. */
  lemma LookupFindsNewest(macos: seq<seq<Release>>, ios: seq<seq<Release>>, p: string, d: string, t: nat,
                          found: Option<string>) returns (i: nat)
    requires IsPlatform(p) && d != "" && '|' !in d
    requires TracksApart(FeedOf(macos, ios, p)) && HomeTrack(FeedOf(macos, ios, p), t, d)
    requires Answers(Index(macos, ios), RowKey(p, d), found)
    ensures found.Some? && found.value in Index(macos, ios)
    ensures Newest(FeedOf(macos, ios, p)[t], i, d)
    ensures Index(macos, ios)[found.value] == Outstanding(FeedOf(macos, ios, p)[t], i)
  {
    var tracks: seq<seq<Release>> := FeedOf(macos, ios, p);
    var rows := Index(macos, ios);
    var rs := tracks[t];
    var device := VersionTuple(d);
    RowKeyTells(p, d);
    PlatformPlain(p);
    SegmentsOf(p, d);
    OldestIsOlder(macos, ios, p, t, d);
    var key := found.value;
    var u;
    u, i := IndexRowOrigin(macos, ios, p, key);
    var v := tracks[u][i].version;
    RowKeyTells(p, v);
    CmpSelf(device);
    assert CmpVersions(v, d) <= 0;
    forall j | 0 <= j < |rs| && CmpVersions(rs[j].version, d) <= 0 ensures CmpVersions(rs[j].version, v) <= 0 {
      IndexRowPresent(macos, ios, p, t, j);
      RowKeyTells(p, rs[j].version);
      assert Older(p, device, RowKey(p, rs[j].version));
    }
    RowInHomeTrack(tracks, t, d, u, i);
  }

  /** That row lists exactly the CVEs fixed by later releases of the device's own track: the index
      with its fallback is the direct scan. */
  lemma LookupIsScan(macos: seq<seq<Release>>, ios: seq<seq<Release>>, p: string, d: string, t: nat,
                     found: Option<string>)
    requires IsPlatform(p) && d != "" && '|' !in d
    requires TracksApart(FeedOf(macos, ios, p)) && HomeTrack(FeedOf(macos, ios, p), t, d)
    requires OrdersAgree(FeedOf(macos, ios, p)[t])
    requires Answers(Index(macos, ios), RowKey(p, d), found)
    ensures found.Some? && found.value in Index(macos, ios)
    ensures IdsOf(Index(macos, ios)[found.value]) == Scan(FeedOf(macos, ios, p)[t], d)
  {
    var i := LookupFindsNewest(macos, ios, p, d, t, found);
    NewestRowIsScan(FeedOf(macos, ios, p)[t], i, d);
  }

  /** Where releases tie, the row is that of one of the tied releases, and lists besides the scan what
      the later ones of the tie fix. */
  lemma LookupWithTies(macos: seq<seq<Release>>, ios: seq<seq<Release>>, p: string, d: string, t: nat,
                       found: Option<string>) returns (i: nat)
    requires IsPlatform(p) && d != "" && '|' !in d
    requires TracksApart(FeedOf(macos, ios, p)) && HomeTrack(FeedOf(macos, ios, p), t, d)
    requires OrdersAgreeUpToTies(FeedOf(macos, ios, p)[t])
    requires Answers(Index(macos, ios), RowKey(p, d), found)
    ensures found.Some? && found.value in Index(macos, ios)
    ensures Newest(FeedOf(macos, ios, p)[t], i, d)
    ensures forall id :: id in IdsOf(Index(macos, ios)[found.value]) <==>
              id in Scan(FeedOf(macos, ios, p)[t], d) || TiedFix(FeedOf(macos, ios, p)[t], i, id)
  {
    i := LookupFindsNewest(macos, ios, p, d, t, found);
    forall id ensures id in IdsOf(Index(macos, ios)[found.value]) <==>
        id in Scan(FeedOf(macos, ios, p)[t], d) || TiedFix(FeedOf(macos, ios, p)[t], i, id)
    {
      NewestRowListsTies(FeedOf(macos, ios, p)[t], i, d, id);
    }
  }

  lemma PlatformPlain(p: string)
    requires IsPlatform(p)
    ensures '|' !in p && p != ""
  {
  }

  /** The oldest release of the home track is cached and not newer than the device, so the lookup
      cannot come back empty-handed. */
  lemma OldestIsOlder(macos: seq<seq<Release>>, ios: seq<seq<Release>>, p: string, t: nat, d: string)
    requires IsPlatform(p) && HomeTrack(FeedOf(macos, ios, p), t, d)
    ensures exists k :: k in Index(macos, ios).Keys && Older(p, VersionTuple(d), k)
  {
    var oldest := FeedOf(macos, ios, p)[t][0].version;
    IndexRowPresent(macos, ios, p, t, 0);
    RowKeyTells(p, oldest);
    assert RowKey(p, oldest) in Index(macos, ios).Keys && Older(p, VersionTuple(d), RowKey(p, oldest));
  }

  // ---- the condition is needed ----

  ghost predicate RowIsScan(rs: seq<Release>, i: nat)
    requires i < |rs|
  {
    IdsOf(Outstanding(rs, i)) == Scan(rs, rs[i].version)
  }

  ghost predicate RowsAreScans(rs: seq<Release>) {
    forall i :: 0 <= i < |rs| ==> RowIsScan(rs, i)
  }

  /** Every release fixes some CVE that no other release fixes. */
  ghost predicate Marked(rs: seq<Release>, mark: seq<string>) {
    && |mark| == |rs|
    && forall i, j :: 0 <= i < |rs| && 0 <= j < |rs| ==> (mark[i] in Fixes(rs[j]) <==> i == j)
  }

  lemma AgreementSuffices(rs: seq<Release>, i: nat)
    requires OrdersAgree(rs) && i < |rs|
    ensures RowIsScan(rs, i)
  {
    CmpSelf(VersionTuple(rs[i].version));
    forall j | 0 <= j < |rs| ensures j > i ==> CmpVersions(rs[j].version, rs[i].version) > 0 {
      CmpVersionsFlips(rs[i].version, rs[j].version);
    }
    NewestRowIsScan(rs, i, rs[i].version);
  }

  lemma Scanned(rs: seq<Release>, i: nat, id: string) returns (h: nat)
    requires i < |rs| && RowIsScan(rs, i) && id in IdsOf(Outstanding(rs, i))
    ensures h < |rs| && CmpVersions(rs[i].version, rs[h].version) < 0 && id in Fixes(rs[h])
  {
    h := ScanWitness(rs, rs[i].version, id);
  }

  lemma AgreementForced(rs: seq<Release>, mark: seq<string>, i: nat, j: nat)
    requires Marked(rs, mark) && i < j < |rs|
    requires RowIsScan(rs, i)
    ensures CmpVersions(rs[i].version, rs[j].version) < 0
  {
    assert mark[j] in Fixes(rs[j]);
    LaterIsOutstanding(rs, i, j, mark[j]);
    var h := Scanned(rs, i, mark[j]);
    MarkOwner(rs, mark, j, h);
  }

  lemma LaterIsOutstanding(rs: seq<Release>, i: nat, j: nat, id: string)
    requires i < j < |rs| && id in Fixes(rs[j])
    ensures id in IdsOf(Outstanding(rs, i))
  {
    OutstandingIds(rs, i);
    FixedFromMembers(rs, i + 1, id);
  }

  lemma MarkOwner(rs: seq<Release>, mark: seq<string>, j: nat, h: nat)
    requires Marked(rs, mark) && j < |rs| && h < |rs| && mark[j] in Fixes(rs[h])
    ensures h == j
  {
  }

  /** Agreement of the two orders is not only sufficient: on a track where every release fixes some
      CVE that no other release fixes, every row is its version scan exactly when they agree. */
  lemma ScanNeedsOrdersAgree(rs: seq<Release>, mark: seq<string>)
    requires Marked(rs, mark)
    ensures OrdersAgree(rs) <==> RowsAreScans(rs)
  {
    if OrdersAgree(rs) {
      forall i | 0 <= i < |rs| ensures RowIsScan(rs, i) {
        AgreementSuffices(rs, i);
      }
    }
    if RowsAreScans(rs) {
      forall i, j | 0 <= i < j < |rs| ensures CmpVersions(rs[i].version, rs[j].version) < 0 {
        AgreementForced(rs, mark, i, j);
      }
    }
  }

  ghost predicate DatedAs(a: Release, b: Release) {
    DateOf(a) < DateOf(b) && CmpVersions(a.version, b.version) < 0
  }

  /** Dates that respect versions, pair by pair, give the sorted condition. */
  lemma DatesRespectVersions(rs: seq<Release>)
    requires SortedBy(rs, DateOf) && DistinctKeys(rs, VersionOf)
    requires forall a, b :: a in rs && b in rs && a != b ==> DatedAs(a, b) || DatedAs(b, a)
    ensures OrdersAgree(rs)
  {
    forall i, j | 0 <= i < j < |rs| ensures CmpVersions(rs[i].version, rs[j].version) < 0 {
      assert rs[i] in rs && rs[j] in rs;
      assert VersionOf(rs[i]) != VersionOf(rs[j]);
      assert DateOf(rs[i]) <= DateOf(rs[j]);
    }
  }

  // ---- a track where they disagree ----

  lemma {:induction false} FilterAll(rs: seq<Release>, p: Release -> bool)
    requires forall i :: 0 <= i < |rs| ==> p(rs[i])
    ensures Filter(rs, p) == rs
  {
    if rs != [] {
      var n := |rs| - 1;
      FilterAll(rs[..n], p);
      assert rs == rs[..n] + [rs[n]];
    }
  }

  /** A history already in the shape the index wants is used as it is. */
  lemma ChronologicalAlready(rs: seq<Release>)
    requires SortedBy(rs, DateOf) && DistinctKeys(rs, VersionOf)
    requires forall i :: 0 <= i < |rs| ==> rs[i].version != "" && rs[i].date.Some?
    ensures Chronological(Track(None, rs)) == rs
  {
    assert Listed(Track(None, rs)) == [] + rs == rs;
    FilterAll(rs, (r: Release) => r.version != "");
    FirstByOfDistinct(rs, VersionOf);
    FilterAll(rs, (r: Release) => r.date.Some?);
    SortedStays(rs, DateOf);
  }

  lemma OneFix(r: Release, cve: string)
    requires |r.cves| == 1 && r.cves[0].0 == cve
    ensures Fixes(r) == {Upper(cve)}
  {
    var es := Entries(r);
    assert es == [EntryFor(r, 0)] && es[..0] == [];
    assert IdsOf(es) == IdsOf(es[..0]) + {IdOf(es[0])};
  }

  const DETAIL := Detail("HIGH", false, false)
  const VERSION_TWO := Release("2", Some(1), [("B", DETAIL)], [], None)
  const VERSION_ONE := Release("1", Some(2), [("A", DETAIL)], [], None)

  /** Version 1 is released after version 2: a device on version 2 is told of the CVE that the older
      version fixes, though no newer version fixes anything. */
  lemma LateOldReleaseMisleads()
    ensures Chronological(Track(None, [VERSION_TWO, VERSION_ONE])) == [VERSION_TWO, VERSION_ONE]
    ensures IdsOf(Outstanding([VERSION_TWO, VERSION_ONE], 0)) == {Upper("A")}
    ensures Scan([VERSION_TWO, VERSION_ONE], VERSION_TWO.version) == {}
  {
    ChronologicalPair(VERSION_TWO, VERSION_ONE);
    OneFix(VERSION_ONE, "A");
    SecondIsOutstanding(VERSION_TWO, VERSION_ONE);
    OneAndTwo();
    NothingNewer(VERSION_TWO, VERSION_ONE, VERSION_TWO.version);
  }

  lemma ChronologicalPair(a: Release, b: Release)
    requires a.version != "" && b.version != "" && a.version != b.version
    requires a.date.Some? && b.date.Some? && a.date.value <= b.date.value
    ensures Chronological(Track(None, [a, b])) == [a, b]
  {
    ChronologicalAlready([a, b]);
  }

  const TIED_ONE := Release("1", Some(1), [("A", DETAIL)], [], None)
  const TIED_ONE_ZERO := Release("1.0", Some(2), [("B", DETAIL)], [], None)

  /** Versions "1" and "1.0" tie: a device on "1" is told of the CVE that "1.0" fixes, though no version
      is newer than its own. */
  lemma TiedReleaseIsListed()
    ensures Chronological(Track(None, [TIED_ONE, TIED_ONE_ZERO])) == [TIED_ONE, TIED_ONE_ZERO]
    ensures OrdersAgreeUpToTies([TIED_ONE, TIED_ONE_ZERO])
    ensures IdsOf(Outstanding([TIED_ONE, TIED_ONE_ZERO], 0)) == {Upper("B")}
    ensures Scan([TIED_ONE, TIED_ONE_ZERO], TIED_ONE.version) == {}
  {
    ChronologicalPair(TIED_ONE, TIED_ONE_ZERO);
    OneFix(TIED_ONE_ZERO, "B");
    SecondIsOutstanding(TIED_ONE, TIED_ONE_ZERO);
    OneTiesOneZero();
    NothingNewer(TIED_ONE, TIED_ONE_ZERO, TIED_ONE.version);
  }

  lemma OneTiesOneZero()
    ensures CmpVersions("1", "1") == 0 && CmpVersions("1", "1.0") == 0
  {
    OneDigit("1", 1);
    assert "1.0"[..2] == "1." && "1."[..1] == "1";
    assert SplitVersion("1") == ["1"] by {
      assert "1"[..0] == "" && "" + ['1'] == "1";
    }
    assert SplitVersion("1.") == ["1", ""];
    assert "" + ['0'] == "0";
    assert SplitVersion("1.0") == ["1", "0"];
    assert ParsePart("1") == 1 by { assert VersionTuple("1")[0] == ParsePart("1"); }
    assert ParsePart("0") == 0 by { OneDigit("0", 0); assert SplitVersion("0") == ["0"]; }
    assert VersionTuple("1.0") == [1, 0];
  }

  lemma OneAndTwo()
    ensures CmpVersions("2", "2") == 0 && CmpVersions("2", "1") == 1
  {
    OneDigit("1", 1);
    OneDigit("2", 2);
  }

  lemma SecondIsOutstanding(a: Release, b: Release)
    ensures IdsOf(Outstanding([a, b], 0)) == Fixes(b)
  {
    OutstandingIds([a, b], 0);
    FixedLast([a, b]);
  }

  lemma NothingNewer(a: Release, b: Release, d: string)
    requires CmpVersions(d, a.version) >= 0 && CmpVersions(d, b.version) >= 0
    ensures Scan([a, b], d) == {}
  {
    assert [a, b][..1] == [a] && [a][..0] == [];
    assert Scan([a], d) == {};
  }

  lemma FixedLast(rs: seq<Release>)
    requires |rs| >= 1
    ensures FixedFrom(rs, |rs| - 1) == Fixes(rs[|rs| - 1])
  {
    assert UnionFrom(FixSets(rs), |rs|) == {};
  }

  lemma OneDigit(v: string, n: int)
    requires |v| == 1 && IsDigit(v[0]) && v[0] as int - '0' as int == n
    ensures VersionTuple(v) == [n]
  {
    SplitPlain(v);
    ParseInvertsDecimal(n, "");
    assert Decimal(n) + "" == v;
  }
}
