/** The fleet-wide apps overview: every contribution of every device's two slots, merged into one row
    per device and app. Rows stay in the order they are built. */
module ReportedApps {
  import opened Prelude
  import opened Sorting
  import opened JsMaps
  import opened InstalledApps

  datatype Contribution = Contribution(entry: Entry, app: App)

  function AppKey(platform: string, identifier: string): string { platform + ":" + identifier }

  function KeyOf(c: Contribution): string { AppKey(c.entry.platform, c.app.identifier) }

  function FetchTime(c: Contribution): int { if c.entry.fetchedAt.Some? then c.entry.fetchedAt.value else 0 }

  /** What one slot contributes: nothing without a timestamp. */
  function SlotContributions(e: Option<Entry>): (r: seq<Contribution>)
    ensures forall c :: c in r ==> e.Some? && c.entry == e.value && e.value.fetchedAt.Some?
  {
    if e.None? || e.value.fetchedAt.None? then []
    else seq(|e.value.apps|, i requires 0 <= i < |e.value.apps| => Contribution(e.value, e.value.apps[i]))
  }

  /** A device's contributions, self-reported first. */
  function Contributions(r: Record): seq<Contribution> {
    SlotContributions(r.selfReported) + SlotContributions(r.serverFetch)
  }

  // ---- grouping within a device ----

  function Under(cs: seq<Contribution>, key: string): seq<Contribution> {
    if cs == [] then []
    else
      var n := |cs| - 1;
      if KeyOf(cs[n]) == key then Under(cs[..n], key) + [cs[n]] else Under(cs[..n], key)
  }

  function KeysIn(cs: seq<Contribution>): seq<string> {
    if cs == [] then []
    else
      var n := |cs| - 1;
      var rest := KeysIn(cs[..n]);
      if KeyOf(cs[n]) in rest then rest else rest + [KeyOf(cs[n])]
  }

  lemma {:induction false} KeysFacts(cs: seq<Contribution>)
    ensures Distinct(KeysIn(cs))
    ensures forall k :: k in KeysIn(cs) <==> Under(cs, k) != []
  {
    if cs != [] { KeysFacts(cs[..|cs| - 1]); }
  }

  ghost predicate Groups(m: JsMap<string, seq<Contribution>>, cs: seq<Contribution>) {
    && m.Valid() && m.keys == KeysIn(cs)
    && forall k :: k in m.vals ==> m.vals[k] == Under(cs, k)
  }

  lemma GroupsStep(m: JsMap<string, seq<Contribution>>, cs: seq<Contribution>, c: Contribution)
    requires Groups(m, cs)
    ensures Groups(m.Set(KeyOf(c), (if m.Has(KeyOf(c)) then m.vals[KeyOf(c)] else []) + [c]), cs + [c])
  {
    assert (cs + [c])[..|cs|] == cs;
    KeysFacts(cs);
    assert m.Has(KeyOf(c)) <==> KeyOf(c) in m.keys;
  }

  method GroupContributions(cs: seq<Contribution>) returns (m: JsMap<string, seq<Contribution>>)
    ensures Groups(m, cs)
  {
    m := Empty<string, seq<Contribution>>();
    for i := 0 to |cs|
      invariant Groups(m, cs[..i])
    {
      GroupsStep(m, cs[..i], cs[i]);
      assert cs[..i] + [cs[i]] == cs[..i + 1];
      m := m.Set(KeyOf(cs[i]), (if m.Has(KeyOf(cs[i])) then m.vals[KeyOf(cs[i])] else []) + [cs[i]]);
    }
    assert cs[..|cs|] == cs;
  }

  // ---- one row ----

  datatype Row = Row(
    deviceId: Id, deviceName: string, version: string, versionsBySource: Option<map<Source, string>>,
    sources: set<Source>, lastSyncAt: int, updateAvailable: bool, lastFetchError: Option<string>,
    enforcedByPolicy: bool, details: map<Detail, string>)

  function OlderLast(c: Contribution): int { -FetchTime(c) }

  /** `ranked[0]` */
  function Primary(cs: seq<Contribution>): Contribution
    requires cs != []
  {
    SortBy(cs, OlderLast)[0]
  }

  function SourcesOf(cs: seq<Contribution>): set<Source> { set c | c in cs :: c.entry.source }

  function VersionsOf(cs: seq<Contribution>): set<string> { set c | c in cs && c.app.version != "" :: c.app.version }

  /** The last version each source reports. */
  function BySource(cs: seq<Contribution>): map<Source, string> {
    if cs == [] then map[]
    else
      var c := cs[|cs| - 1];
      var rest := BySource(cs[..|cs| - 1]);
      if c.app.version != "" then rest[c.entry.source := c.app.version] else rest
  }

  function ServerError(cs: seq<Contribution>): Option<string> {
    if cs == [] then None
    else if cs[0].entry.source.ServerFetch? then cs[0].entry.error
    else ServerError(cs[1..])
  }

  function DetailIn(c: Contribution, t: Detail): string { if t in c.app.details then c.app.details[t] else "" }

  /** `map(...).find(Boolean)`, empty when there is none. */
  function DetailOf(cs: seq<Contribution>, t: Detail): string {
    if cs == [] then "" else if DetailIn(cs[0], t) != "" then DetailIn(cs[0], t) else DetailOf(cs[1..], t)
  }

  function RowOf(id: Id, name: string, cs: seq<Contribution>): Row
    requires cs != []
  {
    var p := Primary(cs);
    Row(id, name, p.app.version, if |VersionsOf(cs)| > 1 then Some(BySource(cs)) else None,
        SourcesOf(cs), FetchTime(p), exists c :: c in cs && c.app.updateAvailable, ServerError(cs),
        exists c :: c in cs && c.app.enforcedByPolicy,
        map t <- {ProductCode, Origin, InstallLocation, Sha256} | DetailOf(cs, t) != "" :: DetailOf(cs, t))
  }

  /** The headline version and sync time come from a freshest contribution, and among equally fresh
      ones from the first. */
  lemma PrimaryIsFreshest(cs: seq<Contribution>) returns (i: nat)
    requires cs != []
    ensures i < |cs| && cs[i] == Primary(cs)
    ensures forall j :: 0 <= j < |cs| ==> FetchTime(cs[j]) <= FetchTime(cs[i])
    ensures forall j :: 0 <= j < i ==> FetchTime(cs[j]) < FetchTime(cs[i])
  {
    var s := SortBy(cs, OlderLast);
    var k := OlderLast(s[0]);
    SortBySorted(cs, OlderLast);
    SortByStable(cs, OlderLast, k);
    FirstWithKey(s, OlderLast, k, 0);
    assert s[0] in cs;
    i := FirstAt(cs, OlderLast, k);
    FirstWithKey(cs, OlderLast, k, i);
    forall j | 0 <= j < |cs| ensures FetchTime(cs[j]) <= FetchTime(cs[i]) {
      assert cs[j] in s;
    }
  }

  lemma {:induction false} FirstWithKey<T(!new)>(s: seq<T>, key: T -> int, k: int, i: nat)
    requires i < |s| && key(s[i]) == k && forall j :: 0 <= j < i ==> key(s[j]) != k
    ensures WithKey(s, key, k) != [] && WithKey(s, key, k)[0] == s[i]
    decreases |s|
  {
    var n := |s| - 1;
    if i < n {
      FirstWithKey(s[..n], key, k, i);
    } else {
      NoneWithKey(s[..n], key, k);
    }
  }

  lemma {:induction false} NoneWithKey<T(!new)>(s: seq<T>, key: T -> int, k: int)
    requires forall j :: 0 <= j < |s| ==> key(s[j]) != k
    ensures WithKey(s, key, k) == []
  {
    if s != [] { NoneWithKey(s[..|s| - 1], key, k); }
  }

  lemma FirstAt<T(!new)>(s: seq<T>, key: T -> int, k: int) returns (i: nat)
    requires exists j :: 0 <= j < |s| && key(s[j]) == k
    ensures i < |s| && key(s[i]) == k && forall j :: 0 <= j < i ==> key(s[j]) != k
  {
    i := 0;
    while key(s[i]) != k
      invariant 0 <= i < |s| && forall j :: 0 <= j < i ==> key(s[j]) != k
      decreases |s| - i
    {
      i := i + 1;
    }
  }

  // ---- what the folds select ----

  /** `versionsBySource` gives for each source the last non-empty version it reports. */
  lemma {:induction false} BySourceIsLast(cs: seq<Contribution>, src: Source)
    ensures src in BySource(cs) <==> exists i :: 0 <= i < |cs| && cs[i].entry.source == src && cs[i].app.version != ""
    ensures src in BySource(cs) ==>
              exists i :: 0 <= i < |cs| && LastVersion(cs, src, i) && BySource(cs)[src] == cs[i].app.version
  {
    if cs != [] {
      var n := |cs| - 1;
      assert forall i :: 0 <= i < n ==> cs[..n][i] == cs[i];
      BySourceIsLast(cs[..n], src);
      if cs[n].app.version != "" && cs[n].entry.source == src {
        assert LastVersion(cs, src, n);
      } else if src in BySource(cs) {
        var i :| 0 <= i < n && LastVersion(cs[..n], src, i) && BySource(cs[..n])[src] == cs[..n][i].app.version;
        assert LastVersion(cs, src, i);
      }
    }
  }

  /** Contribution `i` is the last one of its source with a version. */
  ghost predicate LastVersion(cs: seq<Contribution>, src: Source, i: nat)
    requires i < |cs|
  {
    && cs[i].entry.source == src && cs[i].app.version != ""
    && forall j :: i < j < |cs| && cs[j].entry.source == src ==> cs[j].app.version == ""
  }

  /** The error shown is that of the first contribution from a server fetch, if there is one. */
  lemma {:induction false} ServerErrorIsFirst(cs: seq<Contribution>)
    ensures (forall i :: 0 <= i < |cs| ==> !cs[i].entry.source.ServerFetch?) ==> ServerError(cs).None?
    ensures forall i :: 0 <= i < |cs| && FirstServerFetch(cs, i) ==> ServerError(cs) == cs[i].entry.error
  {
    if cs != [] {
      ServerErrorIsFirst(cs[1..]);
      forall i | 0 < i < |cs| && FirstServerFetch(cs, i) ensures ServerError(cs) == cs[i].entry.error {
        assert cs[1..][i - 1] == cs[i] && !cs[0].entry.source.ServerFetch?;
        assert forall j :: 0 <= j < i - 1 ==> cs[1..][j] == cs[j + 1];
        assert FirstServerFetch(cs[1..], i - 1);
      }
    }
  }

  ghost predicate FirstServerFetch(cs: seq<Contribution>, i: nat)
    requires i < |cs|
  {
    cs[i].entry.source.ServerFetch? && forall j :: 0 <= j < i ==> !cs[j].entry.source.ServerFetch?
  }

  /** Each detail shown is the first non-empty one reported. */
  lemma {:induction false} DetailIsFirst(cs: seq<Contribution>, t: Detail)
    ensures DetailOf(cs, t) == "" <==> forall i :: 0 <= i < |cs| ==> DetailIn(cs[i], t) == ""
    ensures DetailOf(cs, t) != "" ==>
              exists i :: 0 <= i < |cs| && DetailIn(cs[i], t) == DetailOf(cs, t)
                && forall j :: 0 <= j < i ==> DetailIn(cs[j], t) == ""
  {
    if cs != [] && DetailIn(cs[0], t) == "" {
      DetailIsFirst(cs[1..], t);
      assert forall i :: 0 <= i < |cs| - 1 ==> cs[1..][i] == cs[i + 1];
      if DetailOf(cs, t) != "" {
        var i :| 0 <= i < |cs| - 1 && DetailIn(cs[1..][i], t) == DetailOf(cs, t)
          && forall j :: 0 <= j < i ==> DetailIn(cs[1..][j], t) == "";
        forall j | 0 <= j < i + 1 ensures DetailIn(cs[j], t) == "" {
          if j > 0 { assert cs[1..][j - 1] == cs[j]; }
        }
        assert DetailIn(cs[i + 1], t) == DetailOf(cs, t);
      }
    }
  }

  predicate RealName(c: Contribution, identifier: string) { c.app.name != "" && c.app.name != identifier }

  ghost predicate FirstReal(cs: seq<Contribution>, identifier: string, i: nat)
    requires i < |cs|
  {
    RealName(cs[i], identifier) && forall j :: 0 <= j < i ==> !RealName(cs[j], identifier)
  }

  /** `name` is the first name that is neither empty nor the identifier, or the identifier while there
      is none. */
  ghost predicate ShownBy(name: string, identifier: string, cs: seq<Contribution>) {
    && ((forall i :: 0 <= i < |cs| ==> !RealName(cs[i], identifier)) ==> name == identifier)
    && (forall i :: 0 <= i < |cs| && FirstReal(cs, identifier, i) ==> name == cs[i].app.name)
  }

  lemma {:induction false} NameIsFirstReal(identifier: string, cs: seq<Contribution>)
    ensures ShownBy(NameAfter(identifier, identifier, cs), identifier, cs)
  {
    if cs != [] {
      var init, last := cs[..|cs| - 1], cs[|cs| - 1];
      NameIsFirstReal(identifier, init);
      ShownSnoc(NameAfter(identifier, identifier, init), identifier, init, last);
      InitAndLast(cs);
    }
  }

  lemma ShownSnoc(name: string, identifier: string, cs: seq<Contribution>, c: Contribution)
    requires ShownBy(name, identifier, cs)
    ensures ShownBy(if c.app.name != "" && name == identifier then c.app.name else name, identifier, cs + [c])
  {
    var more := cs + [c];
    assert more[|cs|] == c && forall i :: 0 <= i < |cs| ==> more[i] == cs[i];
    forall i | 0 <= i < |cs| && FirstReal(more, identifier, i) ensures name == cs[i].app.name {
      assert FirstReal(cs, identifier, i);
    }
  }

  // ---- contributions and rows, in plain terms ----

  /** A device contributes every app of every slot that has a timestamp, and nothing else. */
  lemma ContributionsAre(r: Record, c: Contribution)
    ensures c in Contributions(r) <==>
              (r.selfReported == Some(c.entry) || r.serverFetch == Some(c.entry))
              && c.entry.fetchedAt.Some? && c.app in c.entry.apps
  {
    SlotContributes(r.selfReported, c);
    SlotContributes(r.serverFetch, c);
  }

  lemma SlotContributes(e: Option<Entry>, c: Contribution)
    ensures c in SlotContributions(e) <==> e == Some(c.entry) && c.entry.fetchedAt.Some? && c.app in c.entry.apps
  {
    if e == Some(c.entry) && c.entry.fetchedAt.Some? && c.app in c.entry.apps {
      var i :| 0 <= i < |c.entry.apps| && c.entry.apps[i] == c.app;
      assert SlotContributions(e)[i] == c;
    }
  }

  function AppsOf(e: Option<Entry>): seq<App> {
    if e.Some? && e.value.fetchedAt.Some? then e.value.apps else []
  }

  /** The agent's own report comes first, then the server's, each in its order; so of two equally fresh
      contributions the agent's is the headline. */
  lemma ContributionsInOrder(r: Record, i: nat)
    ensures var own, server := AppsOf(r.selfReported), AppsOf(r.serverFetch);
            && |Contributions(r)| == |own| + |server|
            && (i < |own| ==> Contributions(r)[i] == Contribution(r.selfReported.value, own[i]))
            && (i < |server| ==> Contributions(r)[|own| + i] == Contribution(r.serverFetch.value, server[i]))
  {
  }

  /** Contributions belong to one app exactly when platform and identifier agree; platform names have no
      colon. */
  lemma SameAppIff(c: Contribution, d: Contribution)
    requires ':' !in c.entry.platform && ':' !in d.entry.platform
    ensures KeyOf(c) == KeyOf(d) <==> c.entry.platform == d.entry.platform && c.app.identifier == d.app.identifier
  {
    var p, q := c.entry.platform, d.entry.platform;
    if KeyOf(c) == KeyOf(d) {
      assert AppKey(p, c.app.identifier) == AppKey(q, d.app.identifier);
      CollidesIffColonPrefix(p, q);
      assert KeyOf(c)[|p| + 1..] == c.app.identifier && KeyOf(d)[|q| + 1..] == d.app.identifier;
    }
  }

  /** What a row says: version and sync time of the first of its freshest contributions, and of the rest
      that some contribution has it. */
  lemma RowSays(id: Id, name: string, cs: seq<Contribution>) returns (i: nat)
    requires cs != [] && forall j :: 0 <= j < |cs| ==> cs[j].entry.fetchedAt.Some?
    ensures i < |cs| && forall j :: 0 <= j < |cs| ==> cs[j].entry.fetchedAt.value <= cs[i].entry.fetchedAt.value
    ensures forall j :: 0 <= j < i ==> cs[j].entry.fetchedAt.value < cs[i].entry.fetchedAt.value
    ensures var r := RowOf(id, name, cs);
            && r.deviceId == id && r.deviceName == name
            && r.version == cs[i].app.version && Some(r.lastSyncAt) == cs[i].entry.fetchedAt
            && (forall s :: s in r.sources <==> exists j :: 0 <= j < |cs| && cs[j].entry.source == s)
            && (r.updateAvailable <==> exists j :: 0 <= j < |cs| && cs[j].app.updateAvailable)
            && (r.enforcedByPolicy <==> exists j :: 0 <= j < |cs| && cs[j].app.enforcedByPolicy)
  {
    i := PrimaryIsFreshest(cs);
    forall j | 0 <= j < |cs| ensures FetchTime(cs[j]) == cs[j].entry.fetchedAt.value {}
    var r := RowOf(id, name, cs);
    assert forall j :: 0 <= j < |cs| ==> cs[j] in cs;
    forall s ensures s in r.sources <==> exists j :: 0 <= j < |cs| && cs[j].entry.source == s {
      if s in r.sources {
        var c :| c in cs && c.entry.source == s;
        var j :| 0 <= j < |cs| && cs[j] == c;
      }
    }
    if r.updateAvailable {
      var c :| c in cs && c.app.updateAvailable;
      var j :| 0 <= j < |cs| && cs[j] == c;
    }
    if r.enforcedByPolicy {
      var c :| c in cs && c.app.enforcedByPolicy;
      var j :| 0 <= j < |cs| && cs[j] == c;
    }
  }

  /** Versions per source are shown exactly when two contributions disagree. */
  lemma VersionsShownIffTheyDiffer(id: Id, name: string, cs: seq<Contribution>)
    requires cs != []
    ensures RowOf(id, name, cs).versionsBySource ==
            if exists c, d :: c in cs && d in cs && Disagree(c, d) then Some(BySource(cs)) else None
  {
    var vs := VersionsOf(cs);
    TwoMembers(vs);
    if c, d :| c in cs && d in cs && Disagree(c, d) {
      assert c.app.version in vs && d.app.version in vs;
    }
    if u, v :| u in vs && v in vs && u != v {
      var c :| c in cs && c.app.version == u;
      var d :| d in cs && d.app.version == v;
      assert Disagree(c, d);
    }
  }

  predicate Disagree(c: Contribution, d: Contribution) {
    c.app.version != "" && d.app.version != "" && c.app.version != d.app.version
  }

  lemma TwoMembers<T>(s: set<T>)
    ensures |s| > 1 <==> exists u, v :: u in s && v in s && u != v
  {
    if |s| > 1 {
      var v :| v in s;
      var rest := s - {v};
      assert |rest| == |s| - 1;
      var u :| u in rest;
    }
    if u, v :| u in s && v in s && u != v {
      assert s == {u, v} + (s - {u, v});
      assert |{u, v}| == 2;
    }
  }

  // ---- the fleet ----

  datatype Summary = Summary(
    identifier: string, platform: string, name: string, versions: set<string>, sources: set<Source>, devices: seq<Row>)

  /** One device: its id, the name shown for it, and its record. */
  datatype Sync = Sync(id: Id, name: string, record: Record)

  function NameAfter(name: string, identifier: string, cs: seq<Contribution>): string {
    if cs == [] then name
    else
      var c := cs[|cs| - 1];
      var rest := NameAfter(name, identifier, cs[..|cs| - 1]);
      if c.app.name != "" && rest == identifier then c.app.name else rest
  }

  function Blank(c: Contribution): Summary {
    Summary(c.app.identifier, c.entry.platform, c.app.identifier, {}, {}, [])
  }

  function Extended(s: Summary, d: Sync, cs: seq<Contribution>): Summary
    requires cs != []
  {
    Summary(s.identifier, s.platform, NameAfter(s.name, s.identifier, cs),
            s.versions + VersionsOf(cs), s.sources + SourcesOf(cs), s.devices + [RowOf(d.id, d.name, cs)])
  }

  /** The summary of one key over a list of devices, None when no device contributes to it. */
  function SummaryOf(store: seq<Sync>, key: string): Option<Summary> {
    if store == [] then None
    else
      var d := store[|store| - 1];
      var rest := SummaryOf(store[..|store| - 1], key);
      var cs := Under(Contributions(d.record), key);
      if cs == [] then rest
      else Some(Extended(if rest.Some? then rest.value else Blank(cs[0]), d, cs))
  }

  /** Keys in order of first appearance. */
  function AppKeys(store: seq<Sync>): seq<string> {
    if store == [] then []
    else Joined(AppKeys(store[..|store| - 1]), KeysIn(Contributions(store[|store| - 1].record)))
  }

  function Joined(a: seq<string>, b: seq<string>): seq<string> {
    if b == [] then a
    else
      var rest := Joined(a, b[..|b| - 1]);
      if b[|b| - 1] in rest then rest else rest + [b[|b| - 1]]
  }

  lemma {:induction false} JoinedFacts(a: seq<string>, b: seq<string>)
    requires Distinct(a)
    ensures Distinct(Joined(a, b))
    ensures forall k :: k in Joined(a, b) <==> k in a || k in b
  {
    if b != [] {
      JoinedFacts(a, b[..|b| - 1]);
      assert b == b[..|b| - 1] + [b[|b| - 1]];
    }
  }

  lemma {:induction false} AppKeysFacts(store: seq<Sync>)
    ensures Distinct(AppKeys(store))
    ensures forall k :: k in AppKeys(store) <==> SummaryOf(store, k).Some?
  {
    if store != [] {
      var n := |store| - 1;
      AppKeysFacts(store[..n]);
      KeysFacts(Contributions(store[n].record));
      JoinedFacts(AppKeys(store[..n]), KeysIn(Contributions(store[n].record)));
    }
  }

  function Summaries(store: seq<Sync>): (r: seq<Summary>)
    ensures |r| == |AppKeys(store)|
    ensures forall i :: 0 <= i < |r| ==> Some(r[i]) == SummaryOf(store, AppKeys(store)[i])
  {
    AppKeysFacts(store);
    var keys := AppKeys(store);
    assert forall i :: 0 <= i < |keys| ==> keys[i] in keys;
    seq(|keys|, i requires 0 <= i < |keys| => SummaryOf(store, keys[i]).value)
  }

  // ---- the code ----

  ghost predicate Tracks(m: JsMap<string, Summary>, store: seq<Sync>) {
    && m.Valid() && m.keys == AppKeys(store)
    && forall k :: k in m.vals ==> Some(m.vals[k]) == SummaryOf(store, k)
  }

  /** `m` after the first `n` groups of device `d` were added to the summaries of `store`. */
  ghost predicate Midway(m: JsMap<string, Summary>, store: seq<Sync>, d: Sync, keys: seq<string>) {
    && m.Valid() && m.keys == Joined(AppKeys(store), keys)
    && forall k :: k in m.vals ==> Some(m.vals[k]) == Partly(store, d, keys, k)
  }

  /** A summary while device `d` is being added: already with it for `keys`, still without elsewhere. */
  ghost function Partly(store: seq<Sync>, d: Sync, keys: seq<string>, k: string): Option<Summary> {
    if k in keys then SummaryOf(store + [d], k) else SummaryOf(store, k)
  }

  lemma SummarySnoc(store: seq<Sync>, d: Sync, key: string)
    ensures SummaryOf(store + [d], key) ==
            var cs := Under(Contributions(d.record), key);
            var rest := SummaryOf(store, key);
            if cs == [] then rest
            else Some(Extended(if rest.Some? then rest.value else Blank(cs[0]), d, cs))
  {
    var more := store + [d];
    assert more != [] && more[..|more| - 1] == store && more[|more| - 1] == d;
  }

  lemma MidwayStep(m: JsMap<string, Summary>, store: seq<Sync>, d: Sync, keys: seq<string>, key: string, s: Summary)
    requires Midway(m, store, d, keys) && key !in keys && Some(s) == SummaryOf(store + [d], key)
    ensures Midway(m.Set(key, s), store, d, keys + [key])
  {
    assert (keys + [key])[..|keys|] == keys;
    assert m.Has(key) <==> key in m.keys;
    forall k | k in m.Set(key, s).vals ensures Some(m.Set(key, s).vals[k]) == Partly(store, d, keys + [key], k) {
      PartlyStep(store, d, keys, key, k);
      if k != key { assert k in m.vals; }
    }
  }

  lemma PartlyStep(store: seq<Sync>, d: Sync, keys: seq<string>, key: string, k: string)
    ensures Partly(store, d, keys + [key], k)
         == if k == key then SummaryOf(store + [d], key) else Partly(store, d, keys, k)
  {
    assert k in keys + [key] <==> k in keys || k == key;
  }

  lemma NotYetMidway(m: JsMap<string, Summary>, store: seq<Sync>, d: Sync)
    requires Tracks(m, store)
    ensures Midway(m, store, d, [])
  {
  }

  method AddDevice(m: JsMap<string, Summary>, ghost store: seq<Sync>, d: Sync) returns (next: JsMap<string, Summary>)
    requires Tracks(m, store)
    ensures Tracks(next, store + [d])
  {
    var groups := GroupContributions(Contributions(d.record));
    NotYetMidway(m, store, d);
    next := AddGroups(m, store, d, groups);
    DeviceAdded(next, store, d);
  }

  method AddGroups(m: JsMap<string, Summary>, ghost store: seq<Sync>, d: Sync, groups: JsMap<string, seq<Contribution>>)
      returns (next: JsMap<string, Summary>)
    requires Midway(m, store, d, []) && Groups(groups, Contributions(d.record))
    ensures Midway(next, store, d, groups.keys)
  {
    next := m;
    assert groups.keys[..0] == [];
    for i := 0 to |groups.keys|
      invariant Midway(next, store, d, groups.keys[..i])
    {
      next := AddGroupAt(next, store, d, groups, i);
    }
    assert groups.keys[..|groups.keys|] == groups.keys;
  }

  method AddGroupAt(m: JsMap<string, Summary>, ghost store: seq<Sync>, d: Sync, groups: JsMap<string,
                    seq<Contribution>>, i: nat)
      returns (next: JsMap<string, Summary>)
    requires Groups(groups, Contributions(d.record)) && i < |groups.keys|
    requires Midway(m, store, d, groups.keys[..i])
    ensures Midway(next, store, d, groups.keys[..i + 1])
  {
    GroupAt(groups, Contributions(d.record), i);
    var key := groups.keys[i];
    TakeOneMore(groups.keys, i);
    next := AddGroup(m, store, d, groups.keys[..i], key, groups.vals[key]);
  }

  lemma GroupAt(groups: JsMap<string, seq<Contribution>>, cs: seq<Contribution>, i: nat)
    requires Groups(groups, cs) && i < |groups.keys|
    ensures groups.keys[i] in groups.vals && groups.keys[i] !in groups.keys[..i]
    ensures groups.vals[groups.keys[i]] == Under(cs, groups.keys[i]) != []
  {
    KeysFacts(cs);
    assert groups.keys[i] in groups.keys;
  }

  lemma DeviceAdded(m: JsMap<string, Summary>, store: seq<Sync>, d: Sync)
    requires Midway(m, store, d, KeysIn(Contributions(d.record)))
    ensures Tracks(m, store + [d])
  {
    var cs := Contributions(d.record);
    KeysFacts(cs);
    assert (store + [d])[..|store|] == store;
    forall k | k in m.vals ensures Some(m.vals[k]) == SummaryOf(store + [d], k) {
      SummarySnoc(store, d, k);
    }
  }

  method AddGroup(m: JsMap<string, Summary>, ghost store: seq<Sync>, d: Sync, ghost keys: seq<string>, key: string,
                  cs: seq<Contribution>)
      returns (next: JsMap<string, Summary>)
    requires Midway(m, store, d, keys) && key !in keys
    requires cs == Under(Contributions(d.record), key) && cs != []
    ensures Midway(next, store, d, keys + [key])
  {
    var summary := if m.Has(key) then m.vals[key] else Blank(cs[0]);
    AppKeysFacts(store);
    JoinedFacts(AppKeys(store), keys);
    assert m.Has(key) <==> key in m.keys;
    SummarySnoc(store, d, key);
    var extended := Extended(summary, d, cs);
    MidwayStep(m, store, d, keys, key, extended);
    next := m.Set(key, extended);
  }

  // ---- counts, freshness and order ----

  datatype Report = Report(app: Summary, deviceCount: nat, devicesWithPendingUpdate: nat, devicesEnforcedByPolicy: nat)

  datatype Flag = UpdateAvailable | EnforcedByPolicy

  predicate RowHas(r: Row, f: Flag) { if f.UpdateAvailable? then r.updateAvailable else r.enforcedByPolicy }

  predicate AppHas(a: App, f: Flag) { if f.UpdateAvailable? then a.updateAvailable else a.enforcedByPolicy }

  function Flagged(rows: seq<Row>, f: Flag): (n: nat)
    ensures n <= |rows|
  {
    if rows == [] then 0
    else Flagged(rows[..|rows| - 1], f) + (if RowHas(rows[|rows| - 1], f) then 1 else 0)
  }

  /** `rank` stands for the collation of names. */
  function ByDevice(rank: string -> int): Row -> int { (r: Row) => rank(r.deviceName) }

  function ByName(rank: string -> int): Report -> int { (r: Report) => rank(r.app.name) }

  function MostDevicesFirst(r: Report): int { 0 - r.deviceCount }

  function Counted(s: Summary, rank: string -> int): Report {
    var rows := SortBy(s.devices, ByDevice(rank));
    Report(s.(devices := rows), |rows|, Flagged(rows, UpdateAvailable), Flagged(rows, EnforcedByPolicy))
  }

  function Reports(store: seq<Sync>, rank: string -> int): (r: seq<Report>)
    ensures |r| == |Summaries(store)|
    ensures forall i :: 0 <= i < |r| ==> r[i] == Counted(Summaries(store)[i], rank)
  {
    var s := Summaries(store);
    seq(|s|, i requires 0 <= i < |s| => Counted(s[i], rank))
  }

  /** Most devices first; among equals by name. */
  function Overview(store: seq<Sync>, rank: string -> int): seq<Report> {
    SortBy(SortBy(Reports(store, rank), ByName(rank)), MostDevicesFirst)
  }

  function Later(a: Option<int>, b: Option<int>): Option<int> {
    if b.Some? && (a.None? || b.value > a.value) then b else a
  }

  function StampOf(e: Option<Entry>): Option<int> { if e.Some? then e.value.fetchedAt else None }

  function LastRefresh(store: seq<Sync>): Option<int> {
    if store == [] then None
    else
      var r := store[|store| - 1].record;
      Later(Later(LastRefresh(store[..|store| - 1]), StampOf(r.selfReported)), StampOf(r.serverFetch))
  }

  method GetReportedAppsOverview(store: seq<Sync>, rank: string -> int)
      returns (apps: seq<Report>, devicesWithData: nat, lastRefreshedAt: Option<int>)
    ensures apps == Overview(store, rank)
    ensures devicesWithData == CountWithData(store)
    ensures lastRefreshedAt == LastRefresh(store)
  {
    var byIdentifier := Empty<string, Summary>();
    devicesWithData, lastRefreshedAt := 0, None;
    for i := 0 to |store|
      invariant Tracks(byIdentifier, store[..i])
      invariant devicesWithData == CountWithData(store[..i])
      invariant lastRefreshedAt == LastRefresh(store[..i])
    {
      OneMoreDevice(store, i);
      TakeOneMore(store, i);
      byIdentifier := AddDevice(byIdentifier, store[..i], store[i]);
      if store[i].record != EMPTY {
        devicesWithData := devicesWithData + 1;
      }
      lastRefreshedAt := Later(lastRefreshedAt, StampOf(store[i].record.selfReported));
      lastRefreshedAt := Later(lastRefreshedAt, StampOf(store[i].record.serverFetch));
    }
    assert store[..|store|] == store;
    TracksValues(byIdentifier, store);
    apps := CountAll(store, byIdentifier.Values(), rank);
    apps := SortBy(SortBy(apps, ByName(rank)), MostDevicesFirst);
  }

  ghost predicate CountedTo(reports: seq<Report>, summaries: seq<Summary>, i: nat, rank: string -> int) {
    i == |reports| <= |summaries| && forall j :: 0 <= j < i ==> reports[j] == Counted(summaries[j], rank)
  }

  lemma OneMoreCounted(reports: seq<Report>, summaries: seq<Summary>, i: nat, rank: string -> int)
    requires CountedTo(reports, summaries, i, rank) && i < |summaries|
    ensures CountedTo(reports + [Counted(summaries[i], rank)], summaries, i + 1, rank)
  {
  }

  method CountAll(ghost store: seq<Sync>, summaries: seq<Summary>, rank: string -> int) returns (reports: seq<Report>)
    requires summaries == Summaries(store)
    ensures reports == Reports(store, rank)
  {
    reports := [];
    for i := 0 to |summaries|
      invariant CountedTo(reports, summaries, i, rank)
    {
      OneMoreCounted(reports, summaries, i, rank);
      reports := reports + [Counted(summaries[i], rank)];
    }
    SameElements(reports, Reports(store, rank));
  }

  lemma OneMoreDevice(store: seq<Sync>, i: nat)
    requires i < |store|
    ensures CountWithData(store[..i + 1]) == CountWithData(store[..i]) + (if store[i].record != EMPTY then 1 else 0)
    ensures LastRefresh(store[..i + 1])
         == Later(Later(LastRefresh(store[..i]), StampOf(store[i].record.selfReported)),
             StampOf(store[i].record.serverFetch))
  {
    assert store[..i + 1][..i] == store[..i];
  }

  function CountWithData(store: seq<Sync>): nat {
    if store == [] then 0
    else CountWithData(store[..|store| - 1]) + (if store[|store| - 1].record != EMPTY then 1 else 0)
  }

  lemma TracksValues(m: JsMap<string, Summary>, store: seq<Sync>)
    requires Tracks(m, store)
    ensures m.Values() == Summaries(store)
  {
    forall i | 0 <= i < |m.keys| ensures m.Values()[i] == Summaries(store)[i] {
      assert m.keys[i] in m.keys;
    }
  }

  // ---- what the overview says ----

  /** Device `d` reports the app in some slot with a timestamp. */
  ghost predicate Sees(d: Sync, key: string) {
    exists c :: c in Contributions(d.record) && KeyOf(c) == key
  }

  lemma {:induction false} UnderMembers(cs: seq<Contribution>, key: string)
    ensures forall c :: c in Under(cs, key) <==> c in cs && KeyOf(c) == key
  {
    if cs != [] {
      var n := |cs| - 1;
      UnderMembers(cs[..n], key);
      assert cs == cs[..n] + [cs[n]];
    }
  }

  /** The devices that see an app, in order. */
  function Seers(store: seq<Sync>, key: string): seq<Sync> {
    if store == [] then []
    else
      var n := |store| - 1;
      if Under(Contributions(store[n].record), key) == [] then Seers(store[..n], key)
      else Seers(store[..n], key) + [store[n]]
  }

  lemma {:induction false} SeersMembers(store: seq<Sync>, key: string)
    ensures forall d :: d in Seers(store, key) <==> d in store && Sees(d, key)
  {
    if store != [] {
      var n := |store| - 1;
      assert store == store[..n] + [store[n]];
      SeersMembers(store[..n], key);
      SeesIffUnder(store[n], key);
    }
  }

  ghost predicate DistinctIds(store: seq<Sync>) {
    forall i, j :: 0 <= i < j < |store| ==> store[i].id != store[j].id
  }

  /** With one record per device, no device gets two rows for one app. */
  lemma {:induction false} SeersDistinct(store: seq<Sync>, key: string)
    requires DistinctIds(store)
    ensures DistinctIds(Seers(store, key))
  {
    if store != [] {
      var n := |store| - 1;
      SeersDistinct(store[..n], key);
      SeersMembers(store[..n], key);
      var s := Seers(store[..n], key);
      forall i | 0 <= i < |s| ensures s[i].id != store[n].id {
        assert s[i] in s && s[i] in store[..n];
      }
    }
  }

  lemma SeesIffUnder(d: Sync, key: string)
    ensures Sees(d, key) <==> Under(Contributions(d.record), key) != []
  {
    var u := Under(Contributions(d.record), key);
    UnderMembers(Contributions(d.record), key);
    if u != [] { assert u[0] in u; }
  }

  ghost predicate RowsMatch(rows: seq<Row>, seers: seq<Sync>, key: string) {
    && |rows| == |seers|
    && forall i :: 0 <= i < |rows| ==> RowMatches(rows[i], seers[i], key)
  }

  lemma MatchOneMore(rows: seq<Row>, seers: seq<Sync>, r: Row, d: Sync, key: string)
    requires RowsMatch(rows, seers, key) && RowMatches(r, d, key)
    ensures RowsMatch(rows + [r], seers + [d], key)
  {
  }

  /** One row per device that sees the app, each built from all of that device's contributions. */
  lemma {:induction false} OneRowPerSeer(store: seq<Sync>, key: string)
    ensures SummaryOf(store, key).Some? <==> Seers(store, key) != []
    ensures SummaryOf(store, key).Some? ==> RowsMatch(SummaryOf(store, key).value.devices, Seers(store, key), key)
  {
    if store != [] {
      var rest, d := store[..|store| - 1], store[|store| - 1];
      var cs := Under(Contributions(d.record), key);
      OneRowPerSeer(rest, key);
      RowAdded(store, key);
      if cs != [] {
        var before := if SummaryOf(rest, key).Some? then SummaryOf(rest, key).value.devices else [];
        MatchOneMore(before, Seers(rest, key), RowOf(d.id, d.name, cs), d, key);
      }
    }
  }

  lemma RowAdded(store: seq<Sync>, key: string)
    requires store != []
    ensures var d, rest := store[|store| - 1], store[..|store| - 1];
            var cs, before, after := Under(Contributions(d.record), key), SummaryOf(rest, key), SummaryOf(store, key);
            if cs == [] then after == before && Seers(store, key) == Seers(rest, key)
            else
              && after.Some? && Seers(store, key) == Seers(rest, key) + [d]
              && after.value.devices == (if before.Some? then before.value.devices else []) + [RowOf(d.id, d.name, cs)]
  {
  }

  ghost predicate RowMatches(r: Row, d: Sync, key: string) {
    var cs := Under(Contributions(d.record), key);
    cs != [] && r == RowOf(d.id, d.name, cs)
  }

  // ---- the name shown ----

  /** All contributions to an app, device after device. */
  function AllUnder(store: seq<Sync>, key: string): seq<Contribution> {
    if store == [] then []
    else AllUnder(store[..|store| - 1], key) + Under(Contributions(store[|store| - 1].record), key)
  }

  lemma {:induction false} NameAppend(name: string, identifier: string, a: seq<Contribution>, b: seq<Contribution>)
    ensures NameAfter(name, identifier, a + b) == NameAfter(NameAfter(name, identifier, a), identifier, b)
    decreases |b|
  {
    if b == [] {
      assert a + b == a;
    } else {
      var n := |b| - 1;
      assert (a + b)[..|a + b| - 1] == a + b[..n];
      NameAppend(name, identifier, a, b[..n]);
    }
  }

  /** The summary is named as one fold over all contributions names it. */
  ghost predicate NamedBy(s: Option<Summary>, all: seq<Contribution>) {
    && (s.None? <==> all == [])
    && (s.Some? ==>
          && s.value.identifier == all[0].app.identifier && s.value.platform == all[0].entry.platform
          && s.value.name == NameAfter(s.value.identifier, s.value.identifier, all))
  }

  lemma NamedByMore(s: Option<Summary>, all: seq<Contribution>, d: Sync, cs: seq<Contribution>)
    requires NamedBy(s, all) && cs != []
    ensures NamedBy(Some(Extended(if s.Some? then s.value else Blank(cs[0]), d, cs)), all + cs)
  {
    if s.Some? {
      NameAppend(s.value.identifier, s.value.identifier, all, cs);
    } else {
      assert all + cs == cs;
    }
  }

  lemma {:induction false} NameOverFleet(store: seq<Sync>, key: string)
    ensures NamedBy(SummaryOf(store, key), AllUnder(store, key))
  {
    if store != [] {
      var init, d := store[..|store| - 1], store[|store| - 1];
      var cs, all := Under(Contributions(d.record), key), AllUnder(init, key);
      NameOverFleet(init, key);
      if cs == [] {
        assert all + cs == all;
      } else {
        NamedByMore(SummaryOf(init, key), all, d, cs);
      }
    }
  }

  /** Over all devices, an app is shown by the first name given that is neither empty nor its
      identifier, and by its identifier while there is none. */
  lemma ShownName(store: seq<Sync>, key: string)
    requires SummaryOf(store, key).Some?
    ensures ShownBy(SummaryOf(store, key).value.name, SummaryOf(store, key).value.identifier, AllUnder(store, key))
  {
    NameOverFleet(store, key);
    NamedIsShown(SummaryOf(store, key).value, AllUnder(store, key));
  }

  lemma NamedIsShown(s: Summary, all: seq<Contribution>)
    requires NamedBy(Some(s), all)
    ensures ShownBy(s.name, s.identifier, all)
  {
    NameIsFirstReal(s.identifier, all);
  }

  lemma {:induction false} AllUnderMembers(store: seq<Sync>, key: string, c: Contribution)
    ensures c in AllUnder(store, key) <==> ContributedTo(store, key, c)
    ensures c in AllUnder(store, key) ==> KeyOf(c) == key
  {
    if store != [] {
      AllUnderMembers(store[..|store| - 1], key, c);
      UnderMembers(Contributions(store[|store| - 1].record), key);
    }
  }

  /** An app's summary is about one platform and identifier, those of all its contributions. */
  lemma SummaryIsOfItsApp(store: seq<Sync>, key: string, c: Contribution)
    requires SummaryOf(store, key).Some? && ContributedTo(store, key, c)
    requires ':' !in c.entry.platform && ':' !in SummaryOf(store, key).value.platform
    ensures SummaryOf(store, key).value.platform == c.entry.platform
    ensures SummaryOf(store, key).value.identifier == c.app.identifier
  {
    NameOverFleet(store, key);
    AllUnderMembers(store, key, c);
    var first := AllUnder(store, key)[0];
    AllUnderMembers(store, key, first);
    SameAppIff(c, first);
  }

  // ---- the counts are cardinalities ----

  /** Device `d` reports the app with the flag set. */
  ghost predicate SeesWith(d: Sync, key: string, f: Flag) {
    exists c :: c in Contributions(d.record) && KeyOf(c) == key && AppHas(c.app, f)
  }

  ghost function Seeing(store: seq<Sync>, key: string): set<Sync> { set d | d in store && Sees(d, key) }

  ghost function SeeingWith(store: seq<Sync>, key: string, f: Flag): set<Sync> {
    set d | d in store && SeesWith(d, key, f)
  }

  /** `deviceCount` is the number of devices that report the app, and the other two counts are the
      numbers of those with some contribution that has the flag. */
  lemma CountsAreCardinalities(store: seq<Sync>, key: string, rank: string -> int)
    requires DistinctIds(store) && SummaryOf(store, key).Some?
    ensures var r := Counted(SummaryOf(store, key).value, rank);
            && r.deviceCount == |Seeing(store, key)|
            && r.devicesWithPendingUpdate == |SeeingWith(store, key, UpdateAvailable)|
            && r.devicesEnforcedByPolicy == |SeeingWith(store, key, EnforcedByPolicy)|
  {
    var rows, seers := SummaryOf(store, key).value.devices, Seers(store, key);
    OneRowPerSeer(store, key);
    SeersMembers(store, key);
    SeersDistinct(store, key);
    SeersCount(seers);
    assert Elements(seers) == Seeing(store, key);
    FlaggedSorted(rows, ByDevice(rank), UpdateAvailable);
    FlaggedSorted(rows, ByDevice(rank), EnforcedByPolicy);
    FlaggedSeers(store, rows, key, UpdateAvailable);
    FlaggedSeers(store, rows, key, EnforcedByPolicy);
  }

  /** `devicesWithData` is the number of devices with something in either slot. */
  lemma {:induction false} DataIsCounted(store: seq<Sync>)
    requires DistinctIds(store)
    ensures CountWithData(store) == |WithData(store)|
  {
    if store == [] {
      assert WithData(store) == {};
    } else {
      var init, last := store[..|store| - 1], store[|store| - 1];
      LastIsNew(store);
      DataIsCounted(init);
      InitAndLast(store);
      WithDataSnoc(init, last);
    }
  }

  ghost function WithData(store: seq<Sync>): set<Sync> {
    set d | d in store && (d.record.selfReported.Some? || d.record.serverFetch.Some?)
  }

  lemma WithDataSnoc(init: seq<Sync>, last: Sync)
    requires last !in init
    ensures |WithData(init + [last])| == |WithData(init)| + (if last.record != EMPTY then 1 else 0)
  {
    assert forall d :: d in init + [last] <==> d in init || d == last;
    assert WithData(init + [last]) == if last.record != EMPTY then WithData(init) + {last} else WithData(init);
  }

  lemma {:induction false} SeersCount(seers: seq<Sync>)
    requires DistinctIds(seers)
    ensures |Elements(seers)| == |seers|
  {
    if seers != [] {
      var init, last := seers[..|seers| - 1], seers[|seers| - 1];
      SeersCount(init);
      assert init + [last] == seers;
      assert Elements(seers) == Elements(init) + {last};
    }
  }

  lemma FlaggedSeers(store: seq<Sync>, rows: seq<Row>, key: string, f: Flag)
    requires DistinctIds(store) && RowsMatch(rows, Seers(store, key), key)
    ensures Flagged(rows, f) == |SeeingWith(store, key, f)|
  {
    SeersMembers(store, key);
    SeersDistinct(store, key);
    FlaggedMatches(rows, Seers(store, key), key, f);
    var seers := Seers(store, key);
    CountIsCardinality(seers, key, f);
    forall d ensures d in SeeingWith(store, key, f) <==> d in SeeingWith(seers, key, f) {
      if SeesWith(d, key, f) { assert Sees(d, key); }
    }
    assert SeeingWith(seers, key, f) == SeeingWith(store, key, f);
  }

  ghost function CountSeeing(seers: seq<Sync>, key: string, f: Flag): nat {
    if seers == [] then 0
    else CountSeeing(seers[..|seers| - 1], key, f) + (if SeesWith(seers[|seers| - 1], key, f) then 1 else 0)
  }

  lemma {:induction false} FlaggedMatches(rows: seq<Row>, seers: seq<Sync>, key: string, f: Flag)
    requires RowsMatch(rows, seers, key)
    ensures Flagged(rows, f) == CountSeeing(seers, key, f)
  {
    if rows != [] {
      var n := |rows| - 1;
      FlaggedMatches(rows[..n], seers[..n], key, f);
      RowHasIffSees(rows[n], seers[n], key, f);
    }
  }

  lemma {:induction false} CountIsCardinality(seers: seq<Sync>, key: string, f: Flag)
    requires DistinctIds(seers)
    ensures CountSeeing(seers, key, f) == |SeeingWith(seers, key, f)|
  {
    if seers == [] {
      assert SeeingWith(seers, key, f) == {};
    } else {
      var init, last := seers[..|seers| - 1], seers[|seers| - 1];
      LastIsNew(seers);
      CountIsCardinality(init, key, f);
      CountSnoc(init, last, key, f);
      InitAndLast(seers);
    }
  }

  lemma CountSnoc(init: seq<Sync>, last: Sync, key: string, f: Flag)
    requires last !in init && CountSeeing(init, key, f) == |SeeingWith(init, key, f)|
    ensures CountSeeing(init + [last], key, f) == |SeeingWith(init + [last], key, f)|
  {
    SeeingSnoc(init, last, key, f);
    assert (init + [last])[..|init|] == init;
    assert last !in SeeingWith(init, key, f);
  }

  lemma LastIsNew(seers: seq<Sync>)
    requires DistinctIds(seers) && seers != []
    ensures DistinctIds(seers[..|seers| - 1]) && seers[|seers| - 1] !in seers[..|seers| - 1]
  {
  }

  lemma SeeingSnoc(init: seq<Sync>, last: Sync, key: string, f: Flag)
    ensures SeeingWith(init + [last], key, f)
         == if SeesWith(last, key, f) then SeeingWith(init, key, f) + {last} else SeeingWith(init, key, f)
  {
    assert forall d :: d in init + [last] <==> d in init || d == last;
  }

  lemma RowHasIffSees(r: Row, d: Sync, key: string, f: Flag)
    requires RowMatches(r, d, key)
    ensures RowHas(r, f) <==> SeesWith(d, key, f)
  {
    var cs := Under(Contributions(d.record), key);
    UnderMembers(Contributions(d.record), key);
    assert RowHas(r, f) <==> exists c :: c in cs && AppHas(c.app, f);
  }

  lemma FlaggedSnoc(rows: seq<Row>, r: Row, f: Flag)
    ensures Flagged(rows + [r], f) == Flagged(rows, f) + (if RowHas(r, f) then 1 else 0)
  {
    assert (rows + [r])[..|rows|] == rows;
  }

  lemma {:induction false} FlaggedInserted(rows: seq<Row>, r: Row, key: Row -> int, f: Flag)
    ensures Flagged(InsertAfter(rows, r, key), f) == Flagged(rows, f) + (if RowHas(r, f) then 1 else 0)
  {
    FlaggedSnoc(rows, r, f);
    if rows == [] {
      assert [] + [r] == [r];
    } else {
      var n := |rows| - 1;
      FlaggedInserted(rows[..n], r, key, f);
      FlaggedSnoc(InsertAfter(rows[..n], r, key), rows[n], f);
    }
  }

  lemma {:induction false} FlaggedSorted(rows: seq<Row>, key: Row -> int, f: Flag)
    ensures Flagged(SortBy(rows, key), f) == Flagged(rows, f)
  {
    if rows != [] {
      var n := |rows| - 1;
      FlaggedSorted(rows[..n], key, f);
      FlaggedInserted(SortBy(rows[..n], key), rows[n], key, f);
    }
  }

  // ---- the order shown ----

  /** The overview is the reports, each once, those on most devices first and by name among equals;
      within each, the devices are in order of name. */
  lemma OverviewIsOrdered(store: seq<Sync>, rank: string -> int)
    ensures multiset(Overview(store, rank)) == multiset(Reports(store, rank))
    ensures forall i, j :: 0 <= i < j < |Overview(store, rank)| ==>
              Precedes(Overview(store, rank)[i], Overview(store, rank)[j], rank)
    ensures forall r, i, j :: r in Overview(store, rank) && 0 <= i < j < |r.app.devices| ==>
              rank(r.app.devices[i].deviceName) <= rank(r.app.devices[j].deviceName)
  {
    var reports := Reports(store, rank);
    var named := SortBy(reports, ByName(rank));
    SortByPermutes(reports, ByName(rank));
    SortByPermutes(named, MostDevicesFirst);
    SortBySorted(reports, ByName(rank));
    SortByBoth(named, MostDevicesFirst, ByName(rank));
    forall r | r in Overview(store, rank) ensures SortedBy(r.app.devices, ByDevice(rank)) {
      assert r in reports;
      var i :| 0 <= i < |reports| && reports[i] == r;
      SortBySorted(Summaries(store)[i].devices, ByDevice(rank));
    }
    forall r, i, j | r in Overview(store, rank) && 0 <= i < j < |r.app.devices|
      ensures rank(r.app.devices[i].deviceName) <= rank(r.app.devices[j].deviceName)
    {
      InOrderOf(r.app.devices, ByDevice(rank), i, j);
    }
    BothMeans(Overview(store, rank), rank);
  }

  /** More devices, or as many and a name that is not later. */
  ghost predicate Precedes(a: Report, b: Report, rank: string -> int) {
    a.deviceCount > b.deviceCount || (a.deviceCount == b.deviceCount && rank(a.app.name) <= rank(b.app.name))
  }

  lemma InOrderOf<T(!new)>(s: seq<T>, key: T -> int, i: nat, j: nat)
    requires SortedBy(s, key) && i < j < |s|
    ensures key(s[i]) <= key(s[j])
  {
  }

  lemma BothMeans(reports: seq<Report>, rank: string -> int)
    requires SortedByBoth(reports, MostDevicesFirst, ByName(rank))
    ensures forall i, j :: 0 <= i < j < |reports| ==> Precedes(reports[i], reports[j], rank)
  {
    forall i, j | 0 <= i < j < |reports| ensures Precedes(reports[i], reports[j], rank) {
      assert MostDevicesFirst(reports[i]) <= MostDevicesFirst(reports[j]);
      assert ByName(rank)(reports[i]) == rank(reports[i].app.name);
      assert ByName(rank)(reports[j]) == rank(reports[j].app.name);
    }
  }

  /** `lastRefreshedAt` is the newest timestamp of any slot, absent when there is none. */
  lemma {:induction false} LastRefreshIsNewest(store: seq<Sync>)
    ensures forall d, src :: d in store && StampOf(SlotOf(d.record, src)).Some? ==>
              LastRefresh(store).Some? && StampOf(SlotOf(d.record, src)).value <= LastRefresh(store).value
    ensures LastRefresh(store).Some? ==>
              exists d, src :: d in store && StampOf(SlotOf(d.record, src)) == LastRefresh(store)
  {
    if store != [] {
      var init, last := store[..|store| - 1], store[|store| - 1];
      LastRefreshIsNewest(init);
      assert store == init + [last];
      assert last in store;
      assert SlotOf(last.record, SelfReported) == last.record.selfReported;
      assert SlotOf(last.record, ServerFetch) == last.record.serverFetch;
    }
  }

  function SlotOf(r: Record, src: Source): Option<Entry> {
    if src.SelfReported? then r.selfReported else r.serverFetch
  }

  /** Some device of the store contributes `c` to the app. */
  ghost predicate ContributedTo(store: seq<Sync>, key: string, c: Contribution) {
    store != [] &&
    var n := |store| - 1;
    ContributedTo(store[..n], key, c) || (c in Contributions(store[n].record) && KeyOf(c) == key)
  }

  /** The summary's versions and sources are exactly the unions over all contributions. */
  lemma {:induction false} UnionsOfContributions(store: seq<Sync>, key: string, v: string, s: Source)
    requires SummaryOf(store, key).Some?
    ensures v in SummaryOf(store, key).value.versions <==> v != "" && VersionGiven(store, key, v)
    ensures s in SummaryOf(store, key).value.sources <==> SourceGiven(store, key, s)
  {
    var init := store[..|store| - 1];
    GivenByLast(store, key, v, s);
    UnionsGrow(store, key, v, s);
    if SummaryOf(init, key).Some? {
      UnionsOfContributions(init, key, v, s);
    } else {
      forall c ensures !ContributedTo(init, key, c) {
        NotContributed(init, key, c);
      }
    }
  }

  lemma UnionsGrow(store: seq<Sync>, key: string, v: string, s: Source)
    requires SummaryOf(store, key).Some?
    ensures var cs := Under(Contributions(store[|store| - 1].record), key);
            var before, after := SummaryOf(store[..|store| - 1], key), SummaryOf(store, key).value;
            && (v in after.versions <==>
                  (before.Some? && v in before.value.versions)
                  || (v != "" && exists c :: c in cs && c.app.version == v))
            && (s in after.sources <==>
                  (before.Some? && s in before.value.sources) || exists c :: c in cs && c.entry.source == s)
  {
  }

  ghost predicate VersionGiven(store: seq<Sync>, key: string, v: string) {
    exists c :: ContributedTo(store, key, c) && c.app.version == v
  }

  ghost predicate SourceGiven(store: seq<Sync>, key: string, s: Source) {
    exists c :: ContributedTo(store, key, c) && c.entry.source == s
  }

  lemma GivenByLast(store: seq<Sync>, key: string, v: string, s: Source)
    requires store != []
    ensures var init, cs := store[..|store| - 1], Under(Contributions(store[|store| - 1].record), key);
            && (VersionGiven(store, key, v) <==>
                  VersionGiven(init, key, v) || exists c :: c in cs && c.app.version == v)
            && (SourceGiven(store, key, s) <==>
                  SourceGiven(init, key, s) || exists c :: c in cs && c.entry.source == s)
  {
    var init, cs := store[..|store| - 1], Under(Contributions(store[|store| - 1].record), key);
    UnderMembers(Contributions(store[|store| - 1].record), key);
    forall c ensures ContributedTo(store, key, c) <==> ContributedTo(init, key, c) || c in cs {}
  }

  lemma {:induction false} NotContributed(store: seq<Sync>, key: string, c: Contribution)
    requires SummaryOf(store, key).None?
    ensures !ContributedTo(store, key, c)
  {
    if store != [] {
      NotContributed(store[..|store| - 1], key, c);
      UnderMembers(Contributions(store[|store| - 1].record), key);
    }
  }

  /** All of a device's groups, one after the other. */
  function Regrouped(cs: seq<Contribution>, keys: seq<string>): seq<Contribution> {
    if keys == [] then [] else Regrouped(cs, keys[..|keys| - 1]) + Under(cs, keys[|keys| - 1])
  }

  /** Grouping neither loses nor repeats a contribution. */
  lemma {:induction false} NothingLostOrRepeated(cs: seq<Contribution>)
    ensures multiset(Regrouped(cs, KeysIn(cs))) == multiset(cs)
  {
    if cs != [] {
      var n := |cs| - 1;
      NothingLostOrRepeated(cs[..n]);
      assert cs == cs[..n] + [cs[n]];
      OneMore(cs[..n], cs[n]);
    }
  }

  lemma OneMore(cs: seq<Contribution>, c: Contribution)
    ensures multiset(Regrouped(cs + [c], KeysIn(cs + [c]))) == multiset(Regrouped(cs, KeysIn(cs))) + multiset{c}
  {
    KeysFacts(cs);
    assert (cs + [c])[..|cs|] == cs;
    if KeyOf(c) in KeysIn(cs) {
      RegroupedGrows(cs, c, KeysIn(cs));
    } else {
      NewGroup(cs, c);
    }
  }

  lemma NewGroup(cs: seq<Contribution>, c: Contribution)
    requires KeyOf(c) !in KeysIn(cs)
    ensures Regrouped(cs + [c], KeysIn(cs + [c])) == Regrouped(cs, KeysIn(cs)) + [c]
  {
    var keys := KeysIn(cs);
    KeysFacts(cs);
    RegroupedSame(cs, c, keys);
    assert (cs + [c])[..|cs|] == cs;
    assert KeysIn(cs + [c]) == keys + [KeyOf(c)];
    assert (keys + [KeyOf(c)])[..|keys|] == keys;
    assert Under(cs + [c], KeyOf(c)) == [] + [c] == [c];
  }

  lemma {:induction false} RegroupedSame(cs: seq<Contribution>, c: Contribution, keys: seq<string>)
    requires KeyOf(c) !in keys
    ensures Regrouped(cs + [c], keys) == Regrouped(cs, keys)
    decreases |keys|
  {
    assert (cs + [c])[..|cs|] == cs;
    if keys != [] { RegroupedSame(cs, c, keys[..|keys| - 1]); }
  }

  lemma {:induction false} RegroupedGrows(cs: seq<Contribution>, c: Contribution, keys: seq<string>)
    requires KeyOf(c) in keys && Distinct(keys)
    ensures multiset(Regrouped(cs + [c], keys)) == multiset(Regrouped(cs, keys)) + multiset{c}
    decreases |keys|
  {
    var n := |keys| - 1;
    assert (cs + [c])[..|cs|] == cs;
    assert keys == keys[..n] + [keys[n]];
    if keys[n] == KeyOf(c) {
      RegroupedSame(cs, c, keys[..n]);
    } else {
      RegroupedGrows(cs, c, keys[..n]);
    }
  }

  // ---- which pairs share a key ----

  /** Two platforms can collide, for some identifiers, exactly when one followed by a colon starts
      the other followed by a colon; platforms without a colon never do. */
  lemma CollidesIffColonPrefix(p: string, q: string)
    ensures (exists i, j :: AppKey(p, i) == AppKey(q, j)) <==> p + ":" <= q + ":" || q + ":" <= p + ":"
    ensures ':' !in p && ':' !in q && p != q ==> !(p + ":" <= q + ":") && !(q + ":" <= p + ":")
  {
    if i: string, j: string :| AppKey(p, i) == AppKey(q, j) {
      var k := AppKey(p, i);
      assert k == (p + ":") + i == (q + ":") + j;
      assert k[..|p| + 1] == p + ":" && k[..|q| + 1] == q + ":";
    }
    if p + ":" <= q + ":" {
      var rest := (q + ":")[|p| + 1..];
      assert AppKey(p, rest) == AppKey(q, "");
    }
    if q + ":" <= p + ":" {
      var rest := (p + ":")[|q| + 1..];
      assert AppKey(q, rest) == AppKey(p, "");
    }
    ColonFreeApart(p, q);
    ColonFreeApart(q, p);
  }

  lemma ColonFreeApart(p: string, q: string)
    ensures ':' !in q && p + ":" <= q + ":" ==> p == q
  {
    if ':' !in q && p + ":" <= q + ":" {
      assert (q + ":")[|p|] == (p + ":")[|p|] == ':';
      assert |p| == |q|;
      assert (p + ":")[..|p|] == p && (q + ":")[..|p|] == q;
    }
  }
}
