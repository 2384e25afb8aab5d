/** Android security bulletins: the index by major version, its refresh, and the major-version
    fallback of the lookup. */
module AndroidIndex {
  import opened Prelude
  import opened JsMaps
  import opened Text
  import opened Vulnerabilities

  datatype Affected = Affected(ecosystem: string, versions: seq<string>, severity: string, spl: Option<string>)
  datatype Bulletin = Bulletin(id: string, aliases: seq<string>, affected: seq<Affected>)

  /** `/^CVE-\d{4}-\d{4,}$/i` */
  predicate IsCveId(s: string) {
    && |s| >= 13 && Upper(s[..4]) == "CVE-" && s[8] == '-'
    && (forall i :: 4 <= i < |s| && i != 8 ==> IsDigit(s[i]))
  }

  function CveOf(aliases: seq<string>): Option<string> {
    if aliases == [] then None
    else if IsCveId(aliases[0]) then Some(Upper(aliases[0]))
    else CveOf(aliases[1..])
  }

  /** One (major version, CVE) pair as the loops meet it. */
  datatype Record = Record(major: string, cve: string, entry: CveEntry)

  function Major(version: string): string { Segment(version, '-', 0) }

  function EntryOf(cve: string, a: Affected, bulletin: string): CveEntry {
    CveEntry(Some(cve), None, MapSeverity(a.severity), false, None, a.spl, "osv-android", Some(bulletin))
  }

  function VersionRecords(cve: string, a: Affected, bulletin: string, n: nat): seq<Record>
    requires n <= |a.versions|
  {
    if n == 0 then []
    else
      var rest := VersionRecords(cve, a, bulletin, n - 1);
      var major := Major(a.versions[n - 1]);
      if major == "" then rest else rest + [Record(major, cve, EntryOf(cve, a, bulletin))]
  }

  function AffectedRecords(cve: string, b: Bulletin, n: nat): seq<Record>
    requires n <= |b.affected|
  {
    if n == 0 then []
    else
      var a := b.affected[n - 1];
      var rest := AffectedRecords(cve, b, n - 1);
      if a.ecosystem == "Android" then rest + VersionRecords(cve, a, b.id, |a.versions|) else rest
  }

  /** Every (major version, CVE) pair of the dump, in the order it is read. */
  function Records(dump: seq<Bulletin>): seq<Record> {
    if dump == [] then []
    else
      var b := dump[|dump| - 1];
      var rest := Records(dump[..|dump| - 1]);
      match CveOf(b.aliases)
      case None => rest
      case Some(cve) => rest + AffectedRecords(cve, b, |b.affected|)
  }

  // ---- what the index keeps for each pair ----

  /** A usable patch level: `null` and the empty string count as none. */
  predicate Given(spl: Option<string>) { spl.Some? && spl.value != "" }

  /** The code's rule for replacing the entry kept so far. */
  predicate Supersedes(next: CveEntry, kept: CveEntry) {
    Given(next.fixedIn) && (!Given(kept.fixedIn) || Less(kept.fixedIn.value, next.fixedIn.value))
  }

  function Kept(records: seq<Record>, major: string, cve: string): Option<CveEntry> {
    if records == [] then None
    else
      var r := records[|records| - 1];
      var kept := Kept(records[..|records| - 1], major, cve);
      if r.major == major && r.cve == cve && (kept.None? || Supersedes(r.entry, kept.value)) then Some(r.entry)
      else kept
  }

  /** CVEs recorded for a major version, each once, in order of first appearance. */
  function CvesOf(records: seq<Record>, major: string): seq<string> {
    if records == [] then []
    else
      var r := records[|records| - 1];
      var rest := CvesOf(records[..|records| - 1], major);
      if r.major != major || r.cve in rest then rest else rest + [r.cve]
  }

  predicate Recorded(records: seq<Record>, major: string) {
    exists i :: 0 <= i < |records| && records[i].major == major
  }

  lemma {:induction false} CvesAreKept(records: seq<Record>, major: string)
    ensures Distinct(CvesOf(records, major))
    ensures forall c :: c in CvesOf(records, major) <==> Kept(records, major, c).Some?
  {
    if records != [] { CvesAreKept(records[..|records| - 1], major); }
  }

  function Row(records: seq<Record>, major: string): (list: seq<CveEntry>)
    ensures |list| == |CvesOf(records, major)|
    ensures forall i :: 0 <= i < |list| ==> Some(list[i]) == Kept(records, major, CvesOf(records, major)[i])
  {
    CvesAreKept(records, major);
    var cves := CvesOf(records, major);
    assert forall i :: 0 <= i < |cves| ==> cves[i] in cves;
    seq(|cves|, i requires 0 <= i < |cves| => Kept(records, major, cves[i]).value)
  }

  // ---- the code ----

  ghost predicate TracksMajor(m: JsMap<string, CveEntry>, records: seq<Record>, major: string) {
    && m.Valid() && m.keys == CvesOf(records, major)
    && forall c :: c in m.vals ==> Some(m.vals[c]) == Kept(records, major, c)
  }

  ghost predicate TracksAll(index: map<string, JsMap<string, CveEntry>>, records: seq<Record>) {
    && (forall major :: major in index <==> Recorded(records, major))
    && (forall major :: major in index ==> TracksMajor(index[major], records, major))
  }

  function Absorbed(m: JsMap<string, CveEntry>, cve: string, e: CveEntry): JsMap<string, CveEntry>
    requires m.Valid()
  {
    if cve !in m.vals || Supersedes(e, m.vals[cve]) then m.Set(cve, e) else m
  }

  lemma MajorStep(m: JsMap<string, CveEntry>, records: seq<Record>, r: Record)
    requires TracksMajor(m, records, r.major)
    ensures TracksMajor(Absorbed(m, r.cve, r.entry), records + [r], r.major)
  {
    assert (records + [r])[..|records|] == records;
    CvesAreKept(records, r.major);
    assert r.cve in m.vals <==> r.cve in m.keys;
  }

  lemma OtherMajor(m: JsMap<string, CveEntry>, records: seq<Record>, r: Record, major: string)
    requires TracksMajor(m, records, major) && major != r.major
    ensures TracksMajor(m, records + [r], major)
  {
    assert (records + [r])[..|records|] == records;
  }

  lemma RecordedSnoc(records: seq<Record>, r: Record, major: string)
    ensures Recorded(records + [r], major) <==> Recorded(records, major) || r.major == major
  {
    var t := records + [r];
    assert t[|records|] == r;
    if Recorded(records, major) {
      var i :| 0 <= i < |records| && records[i].major == major;
      assert t[i] == records[i];
    }
  }

  lemma {:induction false} UnrecordedHasNone(records: seq<Record>, major: string)
    requires !Recorded(records, major)
    ensures CvesOf(records, major) == []
  {
    if records != [] {
      var n := |records| - 1;
      assert records == records[..n] + [records[n]];
      RecordedSnoc(records[..n], records[n], major);
      UnrecordedHasNone(records[..n], major);
    }
  }

  /** The body of the innermost loop. */
  method Absorb(index: map<string, JsMap<string, CveEntry>>, ghost records: seq<Record>, r: Record)
      returns (next: map<string, JsMap<string, CveEntry>>)
    requires TracksAll(index, records)
    ensures TracksAll(next, records + [r])
  {
    var byId := Empty<string, CveEntry>();
    if r.major in index {
      byId := index[r.major];
    } else {
      UnrecordedHasNone(records, r.major);
    }
    MajorStep(byId, records, r);
    if !byId.Has(r.cve) || Supersedes(r.entry, byId.vals[r.cve]) {
      byId := byId.Set(r.cve, r.entry);
    }
    next := index[r.major := byId];
    forall major ensures major in next <==> Recorded(records + [r], major) {
      RecordedSnoc(records, r, major);
    }
    forall major | major in next ensures TracksMajor(next[major], records + [r], major) {
      if major != r.major { OtherMajor(index[major], records, r, major); }
    }
  }

  method AbsorbVersions(index: map<string, JsMap<string, CveEntry>>, ghost records: seq<Record>, cve: string,
                        a: Affected, bulletin: string)
      returns (next: map<string, JsMap<string, CveEntry>>)
    requires TracksAll(index, records)
    ensures TracksAll(next, records + VersionRecords(cve, a, bulletin, |a.versions|))
  {
    next := index;
    ghost var done := records;
    for v := 0 to |a.versions|
      invariant done == records + VersionRecords(cve, a, bulletin, v)
      invariant TracksAll(next, done)
    {
      var major := Major(a.versions[v]);
      OneMoreVersion(records, cve, a, bulletin, v);
      if major != "" {
        var r := Record(major, cve, EntryOf(cve, a, bulletin));
        next := Absorb(next, done, r);
        done := done + [r];
      }
    }
  }

  lemma OneMoreVersion(records: seq<Record>, cve: string, a: Affected, bulletin: string, v: nat)
    requires v < |a.versions|
    ensures var done := records + VersionRecords(cve, a, bulletin, v);
            var r := Record(Major(a.versions[v]), cve, EntryOf(cve, a, bulletin));
            records + VersionRecords(cve, a, bulletin, v + 1) == if r.major == "" then done else done + [r]
  {
    Assoc(records, VersionRecords(cve, a, bulletin, v), [Record(Major(a.versions[v]), cve, EntryOf(cve, a, bulletin))]);
  }

  method AbsorbBulletin(index: map<string, JsMap<string, CveEntry>>, ghost records: seq<Record>, cve: string,
                        b: Bulletin)
      returns (next: map<string, JsMap<string, CveEntry>>)
    requires TracksAll(index, records)
    ensures TracksAll(next, records + AffectedRecords(cve, b, |b.affected|))
  {
    next := index;
    assert records + [] == records;
    for i := 0 to |b.affected|
      invariant TracksAll(next, records + AffectedRecords(cve, b, i))
    {
      var a := b.affected[i];
      ghost var done := AffectedRecords(cve, b, i);
      if a.ecosystem == "Android" {
        next := AbsorbVersions(next, records + done, cve, a, b.id);
        Assoc(records, done, VersionRecords(cve, a, b.id, |a.versions|));
      }
    }
  }

  method IndexByMajorVersion(dump: seq<Bulletin>) returns (index: map<string, JsMap<string, CveEntry>>)
    ensures TracksAll(index, Records(dump))
  {
    index := map[];
    for i := 0 to |dump|
      invariant TracksAll(index, Records(dump[..i]))
    {
      assert dump[..i + 1][..i] == dump[..i];
      var cve := CveOf(dump[i].aliases);
      if cve.Some? {
        index := AbsorbBulletin(index, Records(dump[..i]), cve.value, dump[i]);
      }
    }
    assert dump[..|dump|] == dump;
  }

  /** What follows `android|` in a row key. */
  function VersionPart(key: string): string { if |key| >= 8 then key[8..] else "" }

  ghost predicate IsIndex(rows: map<string, RawResult>, dump: seq<Bulletin>) {
    IsIndexOf(rows, Records(dump))
  }

  ghost predicate IsIndexOf(rows: map<string, RawResult>, records: seq<Record>) {
    && (forall k :: k in rows <==> IsPrefix("android|", k) && Recorded(records, VersionPart(k)))
    && (forall major :: Recorded(records, major) ==> HasRow(rows, records, major))
  }

  ghost predicate HasRow(rows: map<string, RawResult>, records: seq<Record>, major: string) {
    RowKey("android", major) in rows && rows[RowKey("android", major)] == RawResult(true, Row(records, major))
  }

  class OsvAndroidCache {
    var rows: map<string, RawResult>

    constructor ()
      ensures rows == map[]
    {
      rows := map[];
    }

    /** Whatever was cached before, a refresh leaves exactly one row per indexed major version. */
    method Refresh(dump: seq<Bulletin>)
      modifies this
      ensures IsIndex(rows, dump)
    {
      var index := IndexByMajorVersion(dump);
      ghost var was := rows;
      var added := UpsertAll(index, Records(dump));
      EvictOthers(was, added);
      rows := EvictStale(rows, added.Keys);
      RowsAreIndex(rows, index, Records(dump));
    }

    /** Upserts one row per major version; `added` is what was written. */
    method UpsertAll(index: map<string, JsMap<string, CveEntry>>, ghost records: seq<Record>)
        returns (added: map<string, RawResult>)
      requires TracksAll(index, records)
      modifies this
      ensures rows == old(rows) + added
      ensures RowsFor(added, index, index.Keys)
    {
      added := map[];
      var pending := index.Keys;
      ghost var was, done := rows, {};
      while pending != {}
        invariant done + pending == index.Keys
        invariant rows == was + added
        invariant RowsFor(added, index, done)
        decreases pending
      {
        var major :| major in pending;
        assert TracksMajor(index[major], records, major);
        added := UpsertMajor(index, major, was, added, done);
        MoveOne(done, pending, major);
        pending := pending - {major};
        done := done + {major};
      }
      assert done == index.Keys;
    }

    method UpsertMajor(index: map<string, JsMap<string, CveEntry>>, major: string, ghost was: map<string, RawResult>,
                       added: map<string, RawResult>, ghost done: set<string>) returns (more: map<string, RawResult>)
      requires major in index && index[major].Valid() && RowsFor(added, index, done) && rows == was + added
      modifies this
      ensures rows == was + more && RowsFor(more, index, done + {major})
    {
      var key, result := RowKey("android", major), ResultOf(index[major]);
      UpsertRow(was, added, key, result);
      RowsForOneMore(added, index, done, major);
      rows := rows[key := result];
      more := added[key := result];
    }

    /** Exact key first, then the key of the version's own major part. */
    method GetOsvAndroidCacheRow(key: string) returns (found: Option<string>)
      ensures found == Lookup(rows.Keys, key)
    {
      if key in rows { return Some(key); }
      var platform, version := Segment(key, '|', 0), Segment(key, '|', 1);
      if platform == "" || version == "" { return None; }
      var major := Segment(version, '.', 0);
      if major == "" || major == version { return None; }
      return if RowKey(platform, major) in rows then Some(RowKey(platform, major)) else None;
    }
  }

  function Lookup(keys: set<string>, key: string): Option<string> {
    if key in keys then Some(key)
    else
      var platform, version := Segment(key, '|', 0), Segment(key, '|', 1);
      var major := Segment(version, '.', 0);
      if platform != "" && version != "" && major != "" && major != version && RowKey(platform, major) in keys
      then Some(RowKey(platform, major)) else None
  }

  function ResultOf(byId: JsMap<string, CveEntry>): RawResult
    requires byId.Valid()
  {
    RawResult(byId.keys != [], byId.Values())
  }

  ghost predicate RowFor(added: map<string, RawResult>, byId: JsMap<string, CveEntry>, major: string) {
    byId.Valid() && RowKey("android", major) in added && added[RowKey("android", major)] == ResultOf(byId)
  }

  /** `added` holds the rows of the majors handled so far, and nothing else. */
  ghost predicate RowsFor(added: map<string, RawResult>, index: map<string, JsMap<string, CveEntry>>,
                          majors: set<string>) {
    && majors <= index.Keys
    && (forall major :: major in majors ==> RowFor(added, index[major], major))
    && (forall k :: k in added ==> IsPrefix("android|", k) && VersionPart(k) in majors)
  }

  lemma KeyParts(major: string)
    ensures IsPrefix("android|", RowKey("android", major)) && VersionPart(RowKey("android", major)) == major
  {
    assert RowKey("android", major) == "android|" + major;
  }

  lemma PartsKey(k: string)
    requires IsPrefix("android|", k)
    ensures k == RowKey("android", VersionPart(k))
  {
    assert RowKey("android", VersionPart(k)) == "android|" + VersionPart(k);
  }

  lemma RowsForOneMore(added: map<string, RawResult>, index: map<string, JsMap<string, CveEntry>>,
                       majors: set<string>, major: string)
    requires RowsFor(added, index, majors) && major in index && index[major].Valid()
    ensures RowsFor(added[RowKey("android", major) := ResultOf(index[major])], index, majors + {major})
  {
    var more := added[RowKey("android", major) := ResultOf(index[major])];
    KeyParts(major);
    forall m | m in majors + {major} ensures RowFor(more, index[m], m) {
      KeyParts(m);
      if m != major { assert RowFor(added, index[m], m); }
    }
  }

  lemma {:induction false} RecordedHasSome(records: seq<Record>, major: string)
    requires Recorded(records, major)
    ensures CvesOf(records, major) != []
  {
    var n := |records| - 1;
    assert records == records[..n] + [records[n]];
    RecordedSnoc(records[..n], records[n], major);
    if Recorded(records[..n], major) { RecordedHasSome(records[..n], major); }
  }

  lemma TrackedValues(m: JsMap<string, CveEntry>, records: seq<Record>, major: string)
    requires TracksMajor(m, records, major)
    ensures m.Values() == Row(records, major)
  {
    forall i | 0 <= i < |m.keys| ensures m.Values()[i] == Row(records, major)[i] {
      assert m.keys[i] in m.keys;
    }
  }

  lemma RowsAreIndex(rows: map<string, RawResult>, index: map<string, JsMap<string, CveEntry>>, records: seq<Record>)
    requires TracksAll(index, records) && RowsFor(rows, index, index.Keys)
    ensures IsIndexOf(rows, records)
  {
    forall k ensures k in rows <==> IsPrefix("android|", k) && Recorded(records, VersionPart(k)) {
      KeyIsMajor(rows, index, k);
      assert VersionPart(k) in index <==> Recorded(records, VersionPart(k));
    }
    forall major | Recorded(records, major) ensures HasRow(rows, records, major) {
      RowIsRow(rows, index, records, major);
    }
  }

  lemma KeyIsMajor(rows: map<string, RawResult>, index: map<string, JsMap<string, CveEntry>>, k: string)
    requires RowsFor(rows, index, index.Keys)
    ensures k in rows <==> IsPrefix("android|", k) && VersionPart(k) in index
  {
    if IsPrefix("android|", k) && VersionPart(k) in index {
      PartsKey(k);
      assert RowFor(rows, index[VersionPart(k)], VersionPart(k));
    }
  }

  lemma RowIsRow(rows: map<string, RawResult>, index: map<string, JsMap<string, CveEntry>>, records: seq<Record>,
                 major: string)
    requires TracksAll(index, records) && RowsFor(rows, index, index.Keys) && Recorded(records, major)
    ensures HasRow(rows, records, major)
  {
    assert major in index.Keys && TracksMajor(index[major], records, major);
    assert RowFor(rows, index[major], major);
    RecordedHasSome(records, major);
    TrackedValues(index[major], records, major);
  }

  // ---- the records, read off the dump ----

  /** Text of the form CVE-dddd-dddd, in any case, with four digits or more at the end. */
  ghost predicate CveShaped(s: string) {
    && |s| >= 13 && SameButCase(s[..4], "CVE-") && AllDigits(s[4..8]) && s[8] == '-' && AllDigits(s[9..])
  }

  lemma CveIdIsShaped(s: string)
    ensures IsCveId(s) <==> CveShaped(s)
  {
    UpperOfCve();
    if |s| >= 13 {
      UpperIgnoresCase(s[..4], "CVE-");
      assert forall i :: 4 <= i < 8 ==> s[i] == s[4..8][i - 4];
      assert forall i :: 9 <= i < |s| ==> s[i] == s[9..][i - 9];
    }
  }

  lemma UpperOfCve()
    ensures Upper("CVE-") == "CVE-"
  {
  }

  /** The first CVE-shaped alias of a bulletin, upper-cased, is `cve`. */
  ghost predicate NamesCve(aliases: seq<string>, cve: string) {
    exists i :: 0 <= i < |aliases| && FirstShaped(aliases, i) && Upper(aliases[i]) == cve
  }

  ghost predicate FirstShaped(aliases: seq<string>, i: nat)
    requires i < |aliases|
  {
    CveShaped(aliases[i]) && forall j :: 0 <= j < i ==> !CveShaped(aliases[j])
  }

  lemma {:induction false} CveOfIsFirst(aliases: seq<string>, cve: string)
    ensures CveOf(aliases) == Some(cve) <==> NamesCve(aliases, cve)
  {
    if aliases != [] {
      CveIdIsShaped(aliases[0]);
      CveOfIsFirst(aliases[1..], cve);
      if CveShaped(aliases[0]) {
        assert FirstShaped(aliases, 0);
      } else {
        forall i | 0 <= i < |aliases| - 1 ensures FirstShaped(aliases[1..], i) <==> FirstShaped(aliases, i + 1) {
          FirstShapedLater(aliases, i);
        }
        if i :| 0 <= i < |aliases| && FirstShaped(aliases, i) && Upper(aliases[i]) == cve {
          assert aliases[1..][i - 1] == aliases[i];
        }
        if i :| 0 <= i < |aliases| - 1 && FirstShaped(aliases[1..], i) && Upper(aliases[1..][i]) == cve {
          assert FirstShaped(aliases, i + 1);
        }
      }
    }
  }

  lemma FirstShapedLater(aliases: seq<string>, i: nat)
    requires i + 1 < |aliases| && !CveShaped(aliases[0])
    ensures FirstShaped(aliases[1..], i) <==> FirstShaped(aliases, i + 1)
  {
    assert forall j :: 0 <= j < |aliases| - 1 ==> aliases[1..][j] == aliases[j + 1];
    if FirstShaped(aliases[1..], i) {
      forall j | 0 <= j < i + 1 ensures !CveShaped(aliases[j]) {
        if j > 0 { assert aliases[1..][j - 1] == aliases[j]; }
      }
    }
  }

  /** The affected entry is about Android and lists a version whose text before the first '-' is
      `major`. */
  ghost predicate ListsMajor(a: Affected, major: string) {
    && a.ecosystem == "Android" && major != "" && '-' !in major
    && exists v :: 0 <= v < |a.versions| && StartsMajor(a.versions[v], major)
  }

  ghost predicate StartsMajor(version: string, major: string) {
    version == major || exists rest :: version == major + ['-'] + rest
  }

  /** What the index notes down for an affected entry of a bulletin. */
  ghost predicate Noted(e: CveEntry, cve: string, b: Bulletin, a: Affected) {
    && e.id == Some(cve) && e.fixedIn == a.spl && e.severity == MapSeverity(a.severity) && e.note == Some(b.id)
    && e.cveId == None && e.score == None && !e.isKev && e.source == "osv-android"
  }

  lemma {:induction false} VersionRecordsAre(cve: string, a: Affected, b: Bulletin, n: nat, r: Record)
    requires n <= |a.versions|
    ensures r in VersionRecords(cve, a, b.id, n) <==>
              r.cve == cve && Noted(r.entry, cve, b, a) && r.major != "" && '-' !in r.major
              && exists v :: 0 <= v < n && StartsMajor(a.versions[v], r.major)
    decreases n
  {
    if n > 0 {
      VersionRecordsAre(cve, a, b, n - 1, r);
      FirstSegmentMeans(a.versions[n - 1], '-', r.major);
    }
  }

  lemma {:induction false} AffectedRecordsAre(cve: string, b: Bulletin, n: nat, r: Record)
    requires n <= |b.affected|
    ensures r in AffectedRecords(cve, b, n) <==>
              r.cve == cve
              && exists k :: 0 <= k < n && ListsMajor(b.affected[k], r.major) && Noted(r.entry, cve, b, b.affected[k])
    decreases n
  {
    if n > 0 {
      AffectedRecordsAre(cve, b, n - 1, r);
      var a := b.affected[n - 1];
      VersionRecordsAre(cve, a, b, |a.versions|, r);
    }
  }

  /** The bulletin names the record's CVE, and one of its affected entries lists the record's major
      version with the record's patch level and severity. */
  ghost predicate Notes(b: Bulletin, r: Record) {
    && NamesCve(b.aliases, r.cve)
    && exists k :: 0 <= k < |b.affected| && ListsMajor(b.affected[k], r.major)
                   && Noted(r.entry, r.cve, b, b.affected[k])
  }

  /** The records are exactly what the bulletins of the dump say. */
  lemma {:induction false} RecordsAreNotes(dump: seq<Bulletin>, r: Record)
    ensures r in Records(dump) <==> exists i :: 0 <= i < |dump| && Notes(dump[i], r)
  {
    if dump != [] {
      var n := |dump| - 1;
      RecordsAreNotes(dump[..n], r);
      BulletinRecords(dump[n], r);
      assert forall i :: 0 <= i < n ==> dump[..n][i] == dump[i];
    }
  }

  lemma BulletinRecords(b: Bulletin, r: Record)
    ensures (CveOf(b.aliases).Some? && r in AffectedRecords(CveOf(b.aliases).value, b, |b.affected|)) <==> Notes(b, r)
  {
    CveOfIsFirst(b.aliases, r.cve);
    if CveOf(b.aliases).Some? { AffectedRecordsAre(CveOf(b.aliases).value, b, |b.affected|, r); }
  }

  // ---- the scan, on the bulletins themselves ----

  /** Some bulletin reports `cve` for Android `major` with the patch level `spl`. */
  ghost predicate Reported(dump: seq<Bulletin>, major: string, cve: string, spl: Option<string>) {
    exists i, k :: 0 <= i < |dump| && ReportedAt(dump[i], k, major, cve, spl)
  }

  ghost predicate ReportedAt(b: Bulletin, k: int, major: string, cve: string, spl: Option<string>) {
    && 0 <= k < |b.affected|
    && NamesCve(b.aliases, cve) && ListsMajor(b.affected[k], major) && b.affected[k].spl == spl
  }

  lemma RecordedIsReported(dump: seq<Bulletin>, major: string, cve: string, spl: Option<string>)
    ensures Reported(dump, major, cve, spl) <==>
              exists r :: r in Records(dump) && r.major == major && r.cve == cve && r.entry.fixedIn == spl
  {
    if i, k :| 0 <= i < |dump| && ReportedAt(dump[i], k, major, cve, spl) {
      var a := dump[i].affected[k];
      var r := Record(major, cve, CveEntry(Some(cve), None, MapSeverity(a.severity), false, None, a.spl,
                                           "osv-android", Some(dump[i].id)));
      assert Notes(dump[i], r);
      RecordsAreNotes(dump, r);
    }
    if r :| r in Records(dump) && r.major == major && r.cve == cve && r.entry.fixedIn == spl {
      RecordsAreNotes(dump, r);
      var i :| 0 <= i < |dump| && Notes(dump[i], r);
      var k :| 0 <= k < |dump[i].affected| && ListsMajor(dump[i].affected[k], major)
        && Noted(r.entry, cve, dump[i], dump[i].affected[k]);
      assert ReportedAt(dump[i], k, major, cve, spl);
    }
  }
}
