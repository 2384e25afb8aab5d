/** Narrowing a CVE list to what a device's exact patch level still leaves open, and what that
    means for the Android and Apple rows. */
module PatchFilter {
  import opened Prelude
  import opened JsMaps
  import opened Text
  import opened Versions
  import opened Vulnerabilities
  import A = AndroidIndex
  import S = SofaIndex
  import C = SofaCorrect

  /** End of the run of digits that starts at `i`. */
  function DigitRun(s: string, i: nat): (r: nat)
    requires i <= |s|
    ensures i <= r <= |s|
    decreases |s| - i
  {
    if i < |s| && IsDigit(s[i]) then DigitRun(s, i + 1) else i
  }

  function MoreGroups(s: string, i: nat): (r: nat)
    requires i <= |s|
    ensures i <= r <= |s|
    decreases |s| - i
  {
    if i + 1 < |s| && s[i] == '.' && IsDigit(s[i + 1]) then MoreGroups(s, DigitRun(s, i + 1)) else i
  }

  /** The longest leading `digits(.digits)*`, empty when the text does not start with a digit. */
  function LeadingVersion(s: string): string {
    var d := DigitRun(s, 0);
    if d == 0 then "" else s[..MoreGroups(s, d)]
  }

  /** Character `k` is a digit, or a dot between digits. */
  predicate DigitOrDot(s: string, k: nat)
    requires 0 < k < |s| - 1
  {
    IsDigit(s[k]) || (s[k] == '.' && IsDigit(s[k - 1]) && IsDigit(s[k + 1]))
  }

  /** The first `n` characters are numbers with single dots between them. */
  ghost predicate DottedNumbers(s: string, n: nat) {
    && 0 < n <= |s| && IsDigit(s[0]) && IsDigit(s[n - 1])
    && forall k :: 0 < k < n - 1 ==> DigitOrDot(s, k)
  }

  lemma {:induction false} DigitRunIsMaximal(s: string, i: nat)
    requires i <= |s|
    ensures forall k :: i <= k < DigitRun(s, i) ==> IsDigit(s[k])
    ensures DigitRun(s, i) < |s| ==> !IsDigit(s[DigitRun(s, i)])
    decreases |s| - i
  {
    if i < |s| && IsDigit(s[i]) { DigitRunIsMaximal(s, i + 1); }
  }

  lemma {:induction false} MoreGroupsIsLongest(s: string, i: nat)
    requires DottedNumbers(s, i) && (i < |s| ==> !IsDigit(s[i]))
    ensures DottedNumbers(s, MoreGroups(s, i))
    ensures forall n :: MoreGroups(s, i) < n <= |s| ==> !DottedNumbers(s, n)
    decreases |s| - i
  {
    if i + 1 < |s| && s[i] == '.' && IsDigit(s[i + 1]) {
      DigitRunIsMaximal(s, i + 1);
      var next := DigitRun(s, i + 1);
      assert next == DigitRun(s, i + 2) > i + 1;
      forall k | 0 < k < next - 1 ensures DigitOrDot(s, k) {
        if k < i - 1 { assert DottedNumbers(s, i) && DigitOrDot(s, k); }
      }
      MoreGroupsIsLongest(s, next);
    } else {
      forall n | i < n <= |s| ensures !DottedNumbers(s, n) {
        NotDotted(s, i, n);
      }
    }
  }

  lemma NotDotted(s: string, i: nat, n: nat)
    requires 0 < i < n <= |s| && !IsDigit(s[i]) && !(i + 1 < |s| && s[i] == '.' && IsDigit(s[i + 1]))
    ensures !DottedNumbers(s, n)
  {
    var inside := i < n - 1 && DigitOrDot(s, i);
  }

  /** The patch level is read as its longest leading run of dotted numbers, empty if it starts with
      none. */
  lemma LeadingVersionIsLongest(s: string)
    ensures var v := LeadingVersion(s);
            && v <= s && (v != "" ==> DottedNumbers(s, |v|))
            && forall n :: |v| < n <= |s| ==> !DottedNumbers(s, n)
  {
    DigitRunIsMaximal(s, 0);
    if DigitRun(s, 0) > 0 { MoreGroupsIsLongest(s, DigitRun(s, 0)); }
  }

  /** Whether the filter keeps an entry. */
  predicate StillOpen(c: CveEntry, platform: string, level: string) {
    if !A.Given(c.fixedIn) then true
    else if platform == "android" then Less(level, c.fixedIn.value)
    else if platform == "macos" || platform == "ios" then
      LeadingVersion(level) == "" || CmpVersions(c.fixedIn.value, LeadingVersion(level)) > 0
    else true
  }

  function FilterCves(list: seq<CveEntry>, platform: string, level: Option<string>): seq<CveEntry> {
    if !A.Given(level) then list else OpenAt(list, platform, level.value)
  }

  function OpenAt(list: seq<CveEntry>, platform: string, level: string): (r: seq<CveEntry>)
    ensures forall c :: c in r <==> c in list && StillOpen(c, platform, level)
  {
    if list == [] then []
    else
      var n := |list| - 1;
      assert list == list[..n] + [list[n]];
      if StillOpen(list[n], platform, level) then OpenAt(list[..n], platform, level) + [list[n]]
      else OpenAt(list[..n], platform, level)
  }

  // ---- Android ----

  predicate About(r: A.Record, major: string, cve: string) { r.major == major && r.cve == cve }

  /** Some bulletin fixes the CVE for this major version only after the patch level. */
  ghost predicate FixedAfter(records: seq<A.Record>, major: string, cve: string, level: string) {
    exists i :: 0 <= i < |records| && About(records[i], major, cve)
      && A.Given(records[i].entry.fixedIn) && Less(level, records[i].entry.fixedIn.value)
  }

  ghost predicate NeverDated(records: seq<A.Record>, major: string, cve: string) {
    forall i :: 0 <= i < |records| && About(records[i], major, cve) ==> !A.Given(records[i].entry.fixedIn)
  }

  /** The kept entry carries the latest patch level over all records of the pair. */
  lemma {:induction false} KeptIsLatest(records: seq<A.Record>, major: string, cve: string)
    requires A.Kept(records, major, cve).Some?
    ensures var kept := A.Kept(records, major, cve).value;
            && (A.Given(kept.fixedIn) <==> !NeverDated(records, major, cve))
            && (forall i :: 0 <= i < |records| && About(records[i], major, cve) && A.Given(records[i].entry.fixedIn)
                  ==> !Less(kept.fixedIn.value, records[i].entry.fixedIn.value))
            && (exists i :: 0 <= i < |records| && About(records[i], major, cve) && records[i].entry == kept)
  {
    var n := |records| - 1;
    var r := records[n];
    assert forall i :: 0 <= i < n ==> records[..n][i] == records[i];
    if A.Kept(records[..n], major, cve).Some? {
      KeptIsLatest(records[..n], major, cve);
      var before := A.Kept(records[..n], major, cve).value;
      if About(r, major, cve) && A.Supersedes(r.entry, before) {
        LatestSuperseded(records, n, major, cve, before);
      } else {
        LatestStays(records, n, major, cve, before);
      }
    } else {
      NoneKept(records[..n], major, cve);
    }
    if A.Given(r.entry.fixedIn) { LessTotal(r.entry.fixedIn.value, r.entry.fixedIn.value); }
  }

  lemma {:induction false} NoneKept(records: seq<A.Record>, major: string, cve: string)
    requires A.Kept(records, major, cve).None?
    ensures forall i :: 0 <= i < |records| ==> !About(records[i], major, cve)
  {
    if records != [] {
      var n := |records| - 1;
      NoneKept(records[..n], major, cve);
      assert forall i :: 0 <= i < n ==> records[..n][i] == records[i];
    }
  }

  lemma LatestSuperseded(records: seq<A.Record>, n: nat, major: string, cve: string, before: CveEntry)
    requires n + 1 == |records| && About(records[n], major, cve) && A.Supersedes(records[n].entry, before)
    requires A.Given(before.fixedIn) <==> !NeverDated(records[..n], major, cve)
    requires forall i :: 0 <= i < n && About(records[i], major, cve) && A.Given(records[i].entry.fixedIn)
               ==> !Less(before.fixedIn.value, records[i].entry.fixedIn.value)
    ensures forall i :: 0 <= i < |records| && About(records[i], major, cve) && A.Given(records[i].entry.fixedIn)
               ==> !Less(records[n].entry.fixedIn.value, records[i].entry.fixedIn.value)
  {
    var top := records[n].entry.fixedIn.value;
    assert forall i :: 0 <= i < n ==> records[..n][i] == records[i];
    forall i | 0 <= i < |records| && About(records[i], major, cve) && A.Given(records[i].entry.fixedIn)
      ensures !Less(top, records[i].entry.fixedIn.value)
    {
      var other := records[i].entry.fixedIn.value;
      LessTotal(top, other);
      if i < n && Less(top, other) {
        LessTransitive(before.fixedIn.value, top, other);
      }
    }
  }

  lemma LatestStays(records: seq<A.Record>, n: nat, major: string, cve: string, before: CveEntry)
    requires n + 1 == |records| && !(About(records[n], major, cve) && A.Supersedes(records[n].entry, before))
    requires A.Given(before.fixedIn) <==> !NeverDated(records[..n], major, cve)
    requires exists i :: 0 <= i < n && About(records[i], major, cve) && records[i].entry == before
    ensures A.Given(before.fixedIn) <==> !NeverDated(records, major, cve)
    ensures exists i :: 0 <= i < |records| && About(records[i], major, cve) && records[i].entry == before
  {
    assert forall i :: 0 <= i < n ==> records[..n][i] == records[i];
  }

  lemma KeptSurvives(records: seq<A.Record>, major: string, cve: string, level: string)
    requires A.Kept(records, major, cve).Some?
    ensures StillOpen(A.Kept(records, major, cve).value, "android", level)
       <==> FixedAfter(records, major, cve, level) || NeverDated(records, major, cve)
  {
    KeptIsLatest(records, major, cve);
    var kept := A.Kept(records, major, cve).value;
    if A.Given(kept.fixedIn) {
      var top := kept.fixedIn.value;
      if FixedAfter(records, major, cve, level) {
        var i :| 0 <= i < |records| && About(records[i], major, cve)
          && A.Given(records[i].entry.fixedIn) && Less(level, records[i].entry.fixedIn.value);
        LessTotal(top, records[i].entry.fixedIn.value);
        if Less(records[i].entry.fixedIn.value, top) {
          LessTransitive(level, records[i].entry.fixedIn.value, top);
        }
      }
    }
  }

  // Every record's entry carries the record's own CVE id.

  ghost predicate Named(records: seq<A.Record>) {
    forall i :: 0 <= i < |records| ==> records[i].entry.id == Some(records[i].cve)
  }

  lemma {:induction false} VersionsNamed(cve: string, a: A.Affected, bulletin: string, n: nat)
    requires n <= |a.versions|
    ensures Named(A.VersionRecords(cve, a, bulletin, n))
    decreases n
  {
    if n > 0 { VersionsNamed(cve, a, bulletin, n - 1); }
  }

  lemma {:induction false} AffectedNamed(cve: string, b: A.Bulletin, n: nat)
    requires n <= |b.affected|
    ensures Named(A.AffectedRecords(cve, b, n))
    decreases n
  {
    if n > 0 {
      AffectedNamed(cve, b, n - 1);
      VersionsNamed(cve, b.affected[n - 1], b.id, |b.affected[n - 1].versions|);
    }
  }

  lemma {:induction false} DumpNamed(dump: seq<A.Bulletin>)
    ensures Named(A.Records(dump))
  {
    if dump != [] {
      var b := dump[|dump| - 1];
      DumpNamed(dump[..|dump| - 1]);
      var cve := A.CveOf(b.aliases);
      if cve.Some? { AffectedNamed(cve.value, b, |b.affected|); }
    }
  }

  ghost predicate Lists(list: seq<CveEntry>, cve: string) {
    exists i :: 0 <= i < |list| && list[i].id == Some(cve)
  }

  ghost predicate RecordedFor(records: seq<A.Record>, major: string, cve: string) {
    exists i :: 0 <= i < |records| && About(records[i], major, cve)
  }

  /** Filtering an Android row is the naive scan of the dump: a CVE is still listed exactly when some
      record fixes it for this major version after the device's patch level, or it is recorded for
      this major version and no record says when it was fixed. */
  lemma AndroidFilterIsScan(dump: seq<A.Bulletin>, major: string, cve: string, level: string)
    requires level != ""
    ensures Lists(FilterCves(A.Row(A.Records(dump), major), "android", Some(level)), cve)
       <==> RecordedFor(A.Records(dump), major, cve)
            && (FixedAfter(A.Records(dump), major, cve, level) || NeverDated(A.Records(dump), major, cve))
  {
    DumpNamed(dump);
    FilterIsScan(A.Records(dump), major, cve, level);
  }

  lemma FilterIsScan(records: seq<A.Record>, major: string, cve: string, level: string)
    requires level != "" && Named(records)
    ensures Lists(FilterCves(A.Row(records, major), "android", Some(level)), cve)
       <==> RecordedFor(records, major, cve)
            && (FixedAfter(records, major, cve, level) || NeverDated(records, major, cve))
  {
    var row := A.Row(records, major);
    var open := OpenAt(row, "android", level);
    if Lists(open, cve) {
      var i :| 0 <= i < |open| && open[i].id == Some(cve);
      assert open[i] in open;
      RowEntryIsKept(records, major, open[i], cve);
      KeptSurvives(records, major, cve, level);
    }
    if RecordedFor(records, major, cve) && (FixedAfter(records, major, cve, level) || NeverDated(records, major, cve)) {
      KeptInRow(records, major, cve);
      KeptSurvives(records, major, cve, level);
      var kept := A.Kept(records, major, cve).value;
      assert kept in open;
      var i :| 0 <= i < |open| && open[i] == kept;
    }
  }

  lemma RowEntryIsKept(records: seq<A.Record>, major: string, c: CveEntry, cve: string)
    requires Named(records) && c in A.Row(records, major) && c.id == Some(cve)
    ensures A.Kept(records, major, cve) == Some(c) && RecordedFor(records, major, cve)
  {
    var row, cves := A.Row(records, major), A.CvesOf(records, major);
    var k :| 0 <= k < |row| && row[k] == c;
    KeptIsLatest(records, major, cves[k]);
    var i :| 0 <= i < |records| && About(records[i], major, cves[k]) && records[i].entry == c;
    assert cves[k] == cve;
  }

  lemma KeptInRow(records: seq<A.Record>, major: string, cve: string)
    requires Named(records) && RecordedFor(records, major, cve)
    ensures A.Kept(records, major, cve).Some?
    ensures A.Kept(records, major, cve).value in A.Row(records, major)
    ensures A.Kept(records, major, cve).value.id == Some(cve)
  {
    A.CvesAreKept(records, major);
    if A.Kept(records, major, cve).None? { NoneKept(records, major, cve); }
    KeptIsLatest(records, major, cve);
    var k :| 0 <= k < |A.CvesOf(records, major)| && A.CvesOf(records, major)[k] == cve;
    assert A.Row(records, major)[k] in A.Row(records, major);
  }

  /** A device reporting a minor version gets the row of its major version, unless the dump indexes
      the full string itself. */
  lemma MinorVersionFindsMajor(rows: map<string, RawResult>, dump: seq<A.Bulletin>, major: string, minor: string)
    requires A.IsIndex(rows, dump) && major != "" && '.' !in major && '|' !in major && '|' !in minor
    requires !A.Recorded(A.Records(dump), major + ['.'] + minor)
    ensures A.Lookup(rows.Keys, RowKey("android", major + ['.'] + minor))
         == if A.Recorded(A.Records(dump), major) then Some(RowKey("android", major)) else None
  {
    var version := major + ['.'] + minor;
    SegmentsOf("android", version);
    SegmentHead(major, '.', minor);
    A.KeyParts(version);
    A.KeyParts(major);
    assert |major| < |version|;
  }

  /** The naive scan of the dump: some bulletin reports the CVE for the major version with a patch level
      after the device's, or it is reported and never with a patch level. */
  ghost predicate OpenInDump(dump: seq<A.Bulletin>, major: string, cve: string, level: string) {
    || (exists spl :: A.Reported(dump, major, cve, Some(spl)) && spl != "" && Less(level, spl))
    || ((exists o :: A.Reported(dump, major, cve, o))
        && forall o :: A.Reported(dump, major, cve, o) ==> o == None || o == Some(""))
  }

  lemma RecordsScanIsDumpScan(dump: seq<A.Bulletin>, major: string, cve: string, level: string)
    ensures OpenInDump(dump, major, cve, level) <==>
              RecordedFor(A.Records(dump), major, cve)
              && (FixedAfter(A.Records(dump), major, cve, level) || NeverDated(A.Records(dump), major, cve))
  {
    var records := A.Records(dump);
    forall i | 0 <= i < |records| && About(records[i], major, cve)
      ensures A.Reported(dump, major, cve, records[i].entry.fixedIn)
    {
      A.RecordedIsReported(dump, major, cve, records[i].entry.fixedIn);
      assert records[i] in records;
    }
    forall o | A.Reported(dump, major, cve, o)
      ensures exists i :: 0 <= i < |records| && About(records[i], major, cve) && records[i].entry.fixedIn == o
    {
      A.RecordedIsReported(dump, major, cve, o);
      var r :| r in records && r.major == major && r.cve == cve && r.entry.fixedIn == o;
      var i :| 0 <= i < |records| && records[i] == r;
      assert About(records[i], major, cve);
    }
  }

  /** From dump to device: after a refresh, what a device is shown at its patch level is the naive scan
      of the dump. A device reports the bare major version, or one the dump indexes as it stands. */
  lemma AndroidDeviceIsScan(rows: map<string, RawResult>, dump: seq<A.Bulletin>, major: string, cve: string,
                            level: string)
    requires A.IsIndex(rows, dump) && A.Recorded(A.Records(dump), major) && level != ""
    ensures var found := A.Lookup(rows.Keys, RowKey("android", major));
            && found.Some? && found.value in rows && rows[found.value].mapped
            && (Lists(FilterCves(rows[found.value].cveList, "android", Some(level)), cve) <==>
                  OpenInDump(dump, major, cve, level))
  {
    assert A.HasRow(rows, A.Records(dump), major);
    AndroidFilterIsScan(dump, major, cve, level);
    RecordsScanIsDumpScan(dump, major, cve, level);
  }

  /** The same for a device that reports a minor version: it is shown the scan for its major version. */
  lemma AndroidMinorIsScan(rows: map<string, RawResult>, dump: seq<A.Bulletin>, major: string, minor: string,
                           cve: string, level: string)
    requires A.IsIndex(rows, dump) && major != "" && '.' !in major && '|' !in major && '|' !in minor
    requires !A.Recorded(A.Records(dump), major + ['.'] + minor) && A.Recorded(A.Records(dump), major)
    requires level != ""
    ensures var found := A.Lookup(rows.Keys, RowKey("android", major + ['.'] + minor));
            && found.Some? && found.value in rows && rows[found.value].mapped
            && (Lists(FilterCves(rows[found.value].cveList, "android", Some(level)), cve) <==>
                  OpenInDump(dump, major, cve, level))
  {
    MinorVersionFindsMajor(rows, dump, major, minor);
    assert A.HasRow(rows, A.Records(dump), major);
    AndroidFilterIsScan(dump, major, cve, level);
    RecordsScanIsDumpScan(dump, major, cve, level);
  }

  // ---- Apple ----

  /** Release `h` lies after `i` but not after the patch level, and fixes `id`. */
  ghost predicate AlreadyFixed(rs: seq<S.Release>, i: nat, id: string, level: string) {
    exists h :: i < h < |rs| && CmpVersions(rs[h].version, level) <= 0 && id in S.Fixes(rs[h])
  }

  /** Filtering the row of an older release by the device's exact version removes exactly the CVEs
      some release up to that version has fixed. */
  lemma AppleFilterRemovesFixed(rs: seq<S.Release>, i: nat, platform: string, level: string, c: CveEntry)
    requires (platform == "macos" || platform == "ios") && level != ""
    requires C.OrdersAgree(rs) && i < |rs| && c in S.Outstanding(rs, i)
    requires forall j :: 0 <= j < |rs| ==> rs[j].version != ""
    ensures c in FilterCves(S.Outstanding(rs, i), platform, Some(level)) <==>
              LeadingVersion(level) == "" || !AlreadyFixed(rs, i, S.IdOf(c), LeadingVersion(level))
  {
    var v := LeadingVersion(level);
    var j := C.FixedInIsEarliest(rs, i, c);
    assert StillOpen(c, platform, level) <==> v == "" || CmpVersions(rs[j].version, v) > 0;
    EntryIsFixed(rs[j], c);
    FixedByThen(rs, i, j, S.IdOf(c), v);
    var list := S.Outstanding(rs, i);
    assert c in OpenAt(list, platform, level) <==> c in list && StillOpen(c, platform, level);
  }

  /** If `j` is the first release after `i` that fixes the CVE, then some release up to the patch level
      fixes it exactly when `j` itself is not after the patch level. */
  lemma FixedByThen(rs: seq<S.Release>, i: nat, j: nat, id: string, level: string)
    requires C.OrdersAgree(rs) && i < j < |rs| && id in S.Fixes(rs[j])
    requires forall h :: i < h < j ==> id !in S.Fixes(rs[h])
    ensures AlreadyFixed(rs, i, id, level) <==> CmpVersions(rs[j].version, level) <= 0
  {
    if CmpVersions(rs[j].version, level) > 0 {
      forall h | i < h < |rs| && id in S.Fixes(rs[h]) ensures CmpVersions(rs[h].version, level) > 0 {
        if h > j { LaterStaysLater(rs[j].version, rs[h].version, level); }
      }
    }
  }

  lemma LaterStaysLater(a: string, b: string, level: string)
    requires CmpVersions(a, b) < 0 && CmpVersions(a, level) > 0
    ensures CmpVersions(b, level) > 0
  {
    CmpVersionsFlips(a, level);
    CmpVersionsFlips(b, level);
    if CmpVersions(b, level) <= 0 { CmpVersionsTransitive(a, b, level); }
  }

  lemma EntryIsFixed(r: S.Release, c: CveEntry)
    requires c in S.Entries(r)
    ensures S.IdOf(c) in S.Fixes(r)
  {
    C.KeyIsId(S.Entries(r), S.IdOf(c));
    var i :| 0 <= i < |S.Entries(r)| && S.Entries(r)[i] == c;
    assert S.IdOf(S.Entries(r)[i]) == S.IdOf(c);
  }

  /** Some release after the device version `d`, but not after the patch level, fixes `id`. */
  ghost predicate FixedBetween(rs: seq<S.Release>, d: string, level: string, id: string) {
    exists h :: 0 <= h < |rs| && CmpVersions(d, rs[h].version) < 0 && CmpVersions(rs[h].version, level) <= 0
      && id in S.Fixes(rs[h])
  }

  ghost predicate AppleDevice(macos: seq<seq<S.Release>>, ios: seq<seq<S.Release>>, p: string, d: string, t: nat) {
    && C.IsPlatform(p) && d != "" && '|' !in d
    && C.TracksApart(C.FeedOf(macos, ios, p)) && C.HomeTrack(C.FeedOf(macos, ios, p), t, d)
    && C.OrdersAgree(C.FeedOf(macos, ios, p)[t])
    && forall j :: 0 <= j < |C.FeedOf(macos, ios, p)[t]| ==> C.FeedOf(macos, ios, p)[t][j].version != ""
  }

  /** From feed to device: after a refresh, looking up version `d` and filtering by a patch level at or
      above it leaves the CVEs that releases newer than the patch level fix, without those that some
      release between the two had fixed before. */
  lemma AppleDeviceIsScan(macos: seq<seq<S.Release>>, ios: seq<seq<S.Release>>, p: string, d: string, t: nat,
                          found: Option<string>, level: string, id: string)
    requires AppleDevice(macos, ios, p, d, t) && S.Answers(S.Index(macos, ios), RowKey(p, d), found)
    requires level != "" && LeadingVersion(level) != "" && CmpVersions(d, LeadingVersion(level)) <= 0
    ensures found.Some? && found.value in S.Index(macos, ios)
    ensures id in S.IdsOf(FilterCves(S.Index(macos, ios)[found.value], p, Some(level))) <==>
              id in C.Scan(C.FeedOf(macos, ios, p)[t], LeadingVersion(level))
              && !FixedBetween(C.FeedOf(macos, ios, p)[t], d, LeadingVersion(level), id)
  {
    var i := C.LookupFindsNewest(macos, ios, p, d, t, found);
    FilteredRow(C.FeedOf(macos, ios, p)[t], i, p, d, level, id);
  }

  /** No CVE fixed between the device version and the patch level is fixed again after it. */
  ghost predicate FixedOnce(rs: seq<S.Release>, d: string, level: string) {
    forall h, j :: 0 <= h < |rs| && 0 <= j < |rs| && CmpVersions(d, rs[h].version) < 0
      && CmpVersions(rs[h].version, level) <= 0 && CmpVersions(level, rs[j].version) < 0
      ==> S.Fixes(rs[h]) !! S.Fixes(rs[j])
  }

  /** So the result is the direct scan at the patch level exactly when no CVE is fixed twice across it. */
  lemma AppleDeviceIsPlainScan(macos: seq<seq<S.Release>>, ios: seq<seq<S.Release>>, p: string, d: string, t: nat,
                               found: Option<string>, level: string)
    requires AppleDevice(macos, ios, p, d, t) && S.Answers(S.Index(macos, ios), RowKey(p, d), found)
    requires level != "" && LeadingVersion(level) != "" && CmpVersions(d, LeadingVersion(level)) <= 0
    ensures found.Some? && found.value in S.Index(macos, ios)
    ensures var rs, v := C.FeedOf(macos, ios, p)[t], LeadingVersion(level);
            S.IdsOf(FilterCves(S.Index(macos, ios)[found.value], p, Some(level))) == C.Scan(rs, v) <==>
                FixedOnce(rs, d, v)
  {
    var rs, v := C.FeedOf(macos, ios, p)[t], LeadingVersion(level);
    var i := C.LookupFindsNewest(macos, ios, p, d, t, found);
    var shown := S.IdsOf(FilterCves(S.Index(macos, ios)[found.value], p, Some(level)));
    forall id ensures id in shown <==> id in C.Scan(rs, v) && !FixedBetween(rs, d, v, id) {
      AppleDeviceIsScan(macos, ios, p, d, t, found, level, id);
    }
    NeverFixedTwice(rs, d, v, shown);
  }

  lemma NeverFixedTwice(rs: seq<S.Release>, d: string, v: string, shown: set<string>)
    requires forall id :: id in shown <==> id in C.Scan(rs, v) && !FixedBetween(rs, d, v, id)
    ensures shown == C.Scan(rs, v) <==> FixedOnce(rs, d, v)
  {
    if shown == C.Scan(rs, v) {
      forall h, j, id | 0 <= h < |rs| && 0 <= j < |rs| && CmpVersions(d, rs[h].version) < 0
          && CmpVersions(rs[h].version, v) <= 0 && CmpVersions(v, rs[j].version) < 0 && id in S.Fixes(rs[h])
        ensures id !in S.Fixes(rs[j])
      {
        if id in S.Fixes(rs[j]) { C.ScanHas(rs, v, j, id); }
      }
    } else {
      var id :| id in C.Scan(rs, v) && FixedBetween(rs, d, v, id);
      var j := C.ScanWitness(rs, v, id);
      var h :| 0 <= h < |rs| && CmpVersions(d, rs[h].version) < 0 && CmpVersions(rs[h].version, v) <= 0
        && id in S.Fixes(rs[h]);
      assert id in S.Fixes(rs[j]);
    }
  }

  lemma FilteredRow(rs: seq<S.Release>, i: nat, p: string, d: string, level: string, id: string)
    requires C.IsPlatform(p) && level != "" && LeadingVersion(level) != ""
    requires CmpVersions(d, LeadingVersion(level)) <= 0
    requires C.OrdersAgree(rs) && C.Newest(rs, i, d) && forall j :: 0 <= j < |rs| ==> rs[j].version != ""
    ensures id in S.IdsOf(FilterCves(S.Outstanding(rs, i), p, Some(level))) <==>
              id in C.Scan(rs, LeadingVersion(level)) && !FixedBetween(rs, d, LeadingVersion(level), id)
  {
    var row, v := S.Outstanding(rs, i), LeadingVersion(level);
    var open := FilterCves(row, p, Some(level));
    if id in S.IdsOf(open) {
      var c := EntryWithId(open, id);
      assert c in row;
      OpenIsScanned(rs, i, p, d, level, c);
    }
    if id in C.Scan(rs, v) && !FixedBetween(rs, d, v, id) {
      var c := ScannedIsListed(rs, i, d, v, id);
      AppleFilterRemovesFixed(rs, i, p, level, c);
      AlreadyIsBetween(rs, i, d, v, id);
      IdIsListed(open, c);
    }
  }

  lemma EntryWithId(list: seq<CveEntry>, id: string) returns (c: CveEntry)
    requires id in S.IdsOf(list)
    ensures c in list && S.IdOf(c) == id
  {
    C.KeyIsId(list, id);
    var i :| 0 <= i < |list| && S.IdOf(list[i]) == id;
    c := list[i];
  }

  lemma IdIsListed(list: seq<CveEntry>, c: CveEntry)
    requires c in list
    ensures S.IdOf(c) in S.IdsOf(list)
  {
    var i :| 0 <= i < |list| && list[i] == c;
    assert S.IdOf(list[i]) == S.IdOf(c);
    C.KeyIsId(list, S.IdOf(c));
  }

  /** Positions after `i` are the releases newer than the device. */
  lemma AlreadyIsBetween(rs: seq<S.Release>, i: nat, d: string, v: string, id: string)
    requires C.OrdersAgree(rs) && C.Newest(rs, i, d)
    ensures AlreadyFixed(rs, i, id, v) <==> FixedBetween(rs, d, v, id)
  {
    forall h | 0 <= h < |rs| ensures i < h <==> CmpVersions(d, rs[h].version) < 0 {
      CmpVersionsFlips(d, rs[h].version);
      if h > i {
        CmpVersionsFlips(rs[i].version, rs[h].version);
      } else if CmpVersions(d, rs[h].version) < 0 {
        C.NewerIsLater(rs, i, d, h);
      }
    }
  }

  /** An entry the filter leaves is fixed by a release newer than the patch level, and by none before. */
  lemma OpenIsScanned(rs: seq<S.Release>, i: nat, p: string, d: string, level: string, c: CveEntry)
    requires C.IsPlatform(p) && level != "" && LeadingVersion(level) != ""
    requires C.OrdersAgree(rs) && C.Newest(rs, i, d) && forall j :: 0 <= j < |rs| ==> rs[j].version != ""
    requires c in FilterCves(S.Outstanding(rs, i), p, Some(level))
    ensures S.IdOf(c) in C.Scan(rs, LeadingVersion(level))
    ensures !FixedBetween(rs, d, LeadingVersion(level), S.IdOf(c))
  {
    var v := LeadingVersion(level);
    assert c in S.Outstanding(rs, i);
    AppleFilterRemovesFixed(rs, i, p, level, c);
    AlreadyIsBetween(rs, i, d, v, S.IdOf(c));
    var j := C.FixedInIsEarliest(rs, i, c);
    EntryIsFixed(rs[j], c);
    CmpVersionsFlips(rs[j].version, v);
    C.ScanHas(rs, v, j, S.IdOf(c));
  }

  /** What the patch level still leaves open was outstanding for the device version. */
  lemma ScannedIsListed(rs: seq<S.Release>, i: nat, d: string, v: string, id: string) returns (c: CveEntry)
    requires C.OrdersAgree(rs) && C.Newest(rs, i, d) && CmpVersions(d, v) <= 0 && id in C.Scan(rs, v)
    ensures c in S.Outstanding(rs, i) && S.IdOf(c) == id
  {
    var j := C.ScanWitness(rs, v, id);
    CmpVersionsTransitive(d, v, rs[j].version);
    C.ScanHas(rs, d, j, id);
    C.NewestRowIsScan(rs, i, d);
    c := EntryWithId(S.Outstanding(rs, i), id);
  }

  // ---- a CVE fixed twice ----

  const ONE := S.Release("1", Some(1), [("A", C.DETAIL)], [], None)
  const TWO := S.Release("2", Some(2), [("B", C.DETAIL)], [], None)
  const THREE := S.Release("3", Some(3), [("B", C.DETAIL)], [], None)

  /** Versions 2 and 3 both fix one CVE. A device indexed under version 1 and patched to version 2 is not
      told of it, though version 3, newer than its patch level, fixes it again. */
  lemma FixedTwiceIsHidden()
    ensures S.Chronological(S.Track(None, [ONE, TWO, THREE])) == [ONE, TWO, THREE]
    ensures AppleDevice([[ONE, TWO, THREE]], [], "macos", "1", 0)
    ensures var rows, key := S.Index([[ONE, TWO, THREE]], []), RowKey("macos", "1");
            && key in rows
            && Upper("B") in C.Scan([ONE, TWO, THREE], "2")
            && Upper("B") !in S.IdsOf(FilterCves(rows[key], "macos", Some("2")))
  {
    C.ChronologicalAlready([ONE, TWO, THREE]);
    ThreeReleases();
    FixedAgain();
    LeadingDigit("2");
    DigitsAscend();
    C.IndexRowPresent([[ONE, TWO, THREE]], [], "macos", 0, 0);
    FixedBetweenIsHidden([[ONE, TWO, THREE]], [], "macos", "1", 0, "2", Upper("B"));
  }

  lemma ThreeReleases()
    ensures AppleDevice([[ONE, TWO, THREE]], [], "macos", "1", 0)
  {
    DigitsAscend();
  }

  lemma FixedAgain()
    ensures Upper("B") in C.Scan([ONE, TWO, THREE], "2") && FixedBetween([ONE, TWO, THREE], "1", "2", Upper("B"))
  {
    var rs := [ONE, TWO, THREE];
    DigitsAscend();
    C.OneFix(TWO, "B");
    C.OneFix(THREE, "B");
    C.ScanHas(rs, "2", 2, Upper("B"));
    assert rs[1] == TWO && Upper("B") in S.Fixes(rs[1]);
  }

  lemma FixedBetweenIsHidden(macos: seq<seq<S.Release>>, ios: seq<seq<S.Release>>, p: string, d: string, t: nat,
                             level: string, id: string)
    requires AppleDevice(macos, ios, p, d, t) && RowKey(p, d) in S.Index(macos, ios)
    requires level != "" && LeadingVersion(level) != "" && CmpVersions(d, LeadingVersion(level)) <= 0
    requires FixedBetween(C.FeedOf(macos, ios, p)[t], d, LeadingVersion(level), id)
    ensures id !in S.IdsOf(FilterCves(S.Index(macos, ios)[RowKey(p, d)], p, Some(level)))
  {
    AppleDeviceIsScan(macos, ios, p, d, t, Some(RowKey(p, d)), level, id);
  }

  lemma DigitsAscend()
    ensures CmpVersions("1", "1") == 0 && CmpVersions("2", "2") == 0
    ensures CmpVersions("1", "2") < 0 && CmpVersions("1", "3") < 0 && CmpVersions("2", "3") < 0
  {
    C.OneDigit("1", 1);
    C.OneDigit("2", 2);
    C.OneDigit("3", 3);
  }

  lemma LeadingDigit(v: string)
    requires |v| == 1 && IsDigit(v[0])
    ensures LeadingVersion(v) == v
  {
    assert DigitRun(v, 0) == 1;
    assert v[..1] == v;
  }
}
