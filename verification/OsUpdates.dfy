/** The Windows update catalog: the month window, the per-bulletin roll-up, the incremental merge,
    and a device's pending updates. A month code is modelled by its year and month. */
module OsUpdates {
  import opened Prelude
  import opened Sorting
  import opened JsMaps
  import opened Text
  import opened Versions

  const MONTHS_BACK := 15
  const CATALOG_VERSION := 2

  datatype Month = Month(year: int, month: int)

  // ---- the month window ----

  /** Months counted from year 0. */
  function Ordinal(m: Month): int { m.year * 12 + m.month - 1 }

  method MonthWindow(year: int, month: int) returns (window: seq<Month>)
    requires 1 <= month <= 12
    ensures IsWindow(window, Month(year, month))
  {
    window := [];
    for i := 0 to MONTHS_BACK
      invariant |window| == i
      invariant forall j :: 0 <= j < i ==>
                  1 <= window[j].month <= 12 && Ordinal(window[j]) == Ordinal(Month(year, month)) - j
    {
      var y, m := year, month - i;
      while m <= 0
        invariant m <= 12 && y * 12 + m == year * 12 + month - i
      {
        m := m + 12;
        y := y - 1;
      }
      window := window + [Month(y, m)];
    }
  }

  /** Fifteen consecutive calendar months, newest first. */
  ghost predicate IsWindow(window: seq<Month>, now: Month) {
    && |window| == 15
    && forall j :: 0 <= j < |window| ==> 1 <= window[j].month <= 12 && Ordinal(window[j]) == Ordinal(now) - j
  }

  lemma WindowDistinct(window: seq<Month>, now: Month)
    requires IsWindow(window, now) && 1 <= now.month <= 12
    ensures Distinct(window) && window[0] == now
  {
    forall i, j | 0 <= i < j < |window| ensures window[i] != window[j] {
      assert Ordinal(window[i]) != Ordinal(window[j]);
    }
    assert Ordinal(window[0]) == Ordinal(now);
  }

  // ---- roll-up ----

  /** One (CVE, product) row of a bulletin; empty text and a zero revision count as missing. */
  datatype Raw = Raw(kb: string, buildMajor: int, cve: string, exploited: bool, severity: string, fixedUbr: int)

  datatype KbEntry = KbEntry(
    month: Month, kb: string, buildMajor: int, cveIds: set<string>, maxSeverity: string, exploited: bool, fixedUbr: int)

  type GroupKey = (string, int)

  function RawKey(r: Raw): GroupKey { (r.kb, r.buildMajor) }

  function LowerChar(c: char): char { if 'A' <= c <= 'Z' then (c as int + 32) as char else c }

  function Lower(s: string): string { seq(|s|, i requires 0 <= i < |s| => LowerChar(s[i])) }

  function Rank(severity: string): int {
    var s := Lower(severity);
    if s == "low" then 0
    else if s == "moderate" then 1
    else if s == "important" then 2
    else if s == "critical" then 3
    else -1
  }

  function Blank(month: Month, key: GroupKey): KbEntry { KbEntry(month, key.0, key.1, {}, "", false, 0) }

  function Folded(g: KbEntry, r: Raw): KbEntry {
    g.(cveIds := if r.cve != "" then g.cveIds + {r.cve} else g.cveIds,
       exploited := g.exploited || r.exploited,
       fixedUbr := if r.fixedUbr != 0 && g.fixedUbr == 0 then r.fixedUbr else g.fixedUbr,
       maxSeverity := if Rank(r.severity) > Rank(g.maxSeverity) then r.severity else g.maxSeverity)
  }

  /** The rows of one group, folded in order. */
  function GroupOf(month: Month, raws: seq<Raw>, key: GroupKey): KbEntry {
    if raws == [] then Blank(month, key)
    else
      var n := |raws| - 1;
      var g := GroupOf(month, raws[..n], key);
      if RawKey(raws[n]) == key then Folded(g, raws[n]) else g
  }

  /** Keys of rows that name a KB, in order of first appearance. */
  function KeysOf(raws: seq<Raw>): seq<GroupKey> {
    if raws == [] then []
    else
      var n := |raws| - 1;
      var rest := KeysOf(raws[..n]);
      if raws[n].kb == "" || RawKey(raws[n]) in rest then rest else rest + [RawKey(raws[n])]
  }

  lemma {:induction false} KeysDistinct(raws: seq<Raw>)
    ensures Distinct(KeysOf(raws))
    ensures forall i :: 0 <= i < |raws| && raws[i].kb != "" ==> RawKey(raws[i]) in KeysOf(raws)
    ensures forall k :: k in KeysOf(raws) ==> k.0 != ""
  {
    if raws != [] {
      var n := |raws| - 1;
      KeysDistinct(raws[..n]);
      assert forall i :: 0 <= i < n ==> raws[..n][i] == raws[i];
    }
  }

  function BuildOrder(e: KbEntry): int { -e.buildMajor }

  function Groups(month: Month, raws: seq<Raw>): (r: seq<KbEntry>)
    ensures |r| == |KeysOf(raws)|
    ensures forall i :: 0 <= i < |r| ==> r[i] == GroupOf(month, raws, KeysOf(raws)[i])
  {
    var keys := KeysOf(raws);
    seq(|keys|, i requires 0 <= i < |keys| => GroupOf(month, raws, keys[i]))
  }

  function Rollup(month: Month, raws: seq<Raw>): seq<KbEntry> { SortBy(Groups(month, raws), BuildOrder) }

  ghost predicate TracksGroups(m: JsMap<GroupKey, KbEntry>, month: Month, raws: seq<Raw>) {
    && m.Valid() && m.keys == KeysOf(raws)
    && forall k :: k in m.vals ==> m.vals[k] == GroupOf(month, raws, k)
  }

  lemma {:induction false} UnseenGroupIsBlank(month: Month, raws: seq<Raw>, key: GroupKey)
    requires key !in KeysOf(raws) && key.0 != ""
    ensures GroupOf(month, raws, key) == Blank(month, key)
  {
    if raws != [] { UnseenGroupIsBlank(month, raws[..|raws| - 1], key); }
  }

  lemma RawIgnored(m: JsMap<GroupKey, KbEntry>, month: Month, raws: seq<Raw>, r: Raw)
    requires TracksGroups(m, month, raws) && r.kb == ""
    ensures TracksGroups(m, month, raws + [r])
  {
    assert (raws + [r])[..|raws|] == raws;
    KeysDistinct(raws);
    forall k | k in m.vals ensures k in m.keys && RawKey(r) != k {}
  }

  lemma RawFolded(m: JsMap<GroupKey, KbEntry>, month: Month, raws: seq<Raw>, r: Raw, g: KbEntry)
    requires TracksGroups(m, month, raws) && r.kb != ""
    requires g == if m.Has(RawKey(r)) then m.vals[RawKey(r)] else Blank(month, RawKey(r))
    ensures TracksGroups(m.Set(RawKey(r), Folded(g, r)), month, raws + [r])
  {
    assert (raws + [r])[..|raws|] == raws;
    assert m.Has(RawKey(r)) <==> RawKey(r) in m.keys;
    if !m.Has(RawKey(r)) { UnseenGroupIsBlank(month, raws, RawKey(r)); }
  }

  method RollupKbEntries(month: Month, raws: seq<Raw>) returns (out: seq<KbEntry>)
    ensures out == Rollup(month, raws)
  {
    var grouped := Empty<GroupKey, KbEntry>();
    for i := 0 to |raws|
      invariant TracksGroups(grouped, month, raws[..i])
    {
      var e := raws[i];
      assert raws[..i] + [e] == raws[..i + 1];
      if e.kb == "" {
        RawIgnored(grouped, month, raws[..i], e);
      } else {
        var g := if grouped.Has(RawKey(e)) then grouped.vals[RawKey(e)] else Blank(month, RawKey(e));
        RawFolded(grouped, month, raws[..i], e, g);
        grouped := grouped.Set(RawKey(e), Folded(g, e));
      }
    }
    assert raws[..|raws|] == raws;
    assert grouped.Values() == Groups(month, raws) by {
      forall i | 0 <= i < |grouped.keys| ensures grouped.Values()[i] == Groups(month, raws)[i] {
        assert grouped.keys[i] in grouped.keys;
      }
    }
    out := SortBy(grouped.Values(), BuildOrder);
  }

  ghost predicate InGroup(raws: seq<Raw>, i: int, key: GroupKey) { 0 <= i < |raws| && RawKey(raws[i]) == key }

  ghost predicate FirstKnown(raws: seq<Raw>, i: int, key: GroupKey) {
    InGroup(raws, i, key) && forall j :: InGroup(raws, j, key) && j < i ==> raws[j].fixedUbr == 0
  }

  lemma InShorter(raws: seq<Raw>, i: int, key: GroupKey)
    requires raws != []
    ensures InGroup(raws, i, key) <==>
              InGroup(raws[..|raws| - 1], i, key) || (i == |raws| - 1 && RawKey(raws[i]) == key)
    ensures InGroup(raws[..|raws| - 1], i, key) ==> raws[i] == raws[..|raws| - 1][i]
  {
  }

  /** A group lists exactly the CVEs its rows name. */
  lemma {:induction false} GroupCves(month: Month, raws: seq<Raw>, key: GroupKey, c: string)
    ensures c in GroupOf(month, raws, key).cveIds <==> c != "" && exists i :: InGroup(raws, i, key) && raws[i].cve == c
  {
    if raws != [] {
      var n := |raws| - 1;
      GroupCves(month, raws[..n], key, c);
      if i :| InGroup(raws[..n], i, key) && raws[..n][i].cve == c {
        InShorter(raws, i, key);
      }
      InShorter(raws, n, key);
      forall i | InGroup(raws, i, key) && raws[i].cve == c && i < n
        ensures InGroup(raws[..n], i, key) && raws[..n][i].cve == c
      {
        InShorter(raws, i, key);
      }
    }
  }

  /** A group is exploited exactly when one of its rows is. */
  lemma {:induction false} GroupExploited(month: Month, raws: seq<Raw>, key: GroupKey)
    ensures GroupOf(month, raws, key).exploited <==> exists i :: InGroup(raws, i, key) && raws[i].exploited
  {
    if raws != [] {
      var n := |raws| - 1;
      GroupExploited(month, raws[..n], key);
      if i :| InGroup(raws[..n], i, key) && raws[..n][i].exploited {
        InShorter(raws, i, key);
      }
      InShorter(raws, n, key);
      forall i | InGroup(raws, i, key) && raws[i].exploited && i < n
        ensures InGroup(raws[..n], i, key) && raws[..n][i].exploited
      {
        InShorter(raws, i, key);
      }
    }
  }

  /** A group belongs to its key, carries the first revision its rows know, and a severity that one
      of its rows has and none outranks. */
  lemma {:induction false} GroupSummary(month: Month, raws: seq<Raw>, key: GroupKey)
    ensures var g := GroupOf(month, raws, key);
            && g.month == month && (g.kb, g.buildMajor) == key
            && (forall i :: InGroup(raws, i, key) ==> Rank(raws[i].severity) <= Rank(g.maxSeverity))
            && (g.fixedUbr == 0 ==> forall i :: InGroup(raws, i, key) ==> raws[i].fixedUbr == 0)
            && (g.fixedUbr != 0 ==> exists i :: FirstKnown(raws, i, key) && raws[i].fixedUbr == g.fixedUbr)
  {
    if raws != [] {
      var n := |raws| - 1;
      var g0, g := GroupOf(month, raws[..n], key), GroupOf(month, raws, key);
      GroupSummary(month, raws[..n], key);
      forall i | InGroup(raws, i, key) && i < n ensures InGroup(raws[..n], i, key) && raws[i] == raws[..n][i] {
        InShorter(raws, i, key);
      }
      InShorter(raws, n, key);
      if g0.fixedUbr != 0 {
        var i :| FirstKnown(raws[..n], i, key) && raws[..n][i].fixedUbr == g0.fixedUbr;
        InShorter(raws, i, key);
        assert FirstKnown(raws, i, key) && raws[i].fixedUbr == g.fixedUbr;
      } else if g.fixedUbr != 0 {
        assert FirstKnown(raws, n, key) && raws[n].fixedUbr == g.fixedUbr;
      }
    }
  }

  /** Row `i` has the highest severity of its group, and is the first to have it. */
  ghost predicate FirstHighest(raws: seq<Raw>, i: int, key: GroupKey) {
    && InGroup(raws, i, key)
    && (forall j :: InGroup(raws, j, key) ==> Rank(raws[j].severity) <= Rank(raws[i].severity))
    && (forall j :: InGroup(raws, j, key) && j < i ==> Rank(raws[j].severity) < Rank(raws[i].severity))
  }

  /** A group shows the severity of the first of its rows that none outranks, and nothing when no row has
      a severity that ranks. */
  lemma {:induction false} GroupSeverity(month: Month, raws: seq<Raw>, key: GroupKey)
    ensures ShownSeverity(raws, key, GroupOf(month, raws, key).maxSeverity)
  {
    if raws != [] {
      var n := |raws| - 1;
      var before := GroupOf(month, raws[..n], key).maxSeverity;
      GroupSeverity(month, raws[..n], key);
      InitAndLast(raws);
      HighestSnoc(raws[..n], raws[n], key, before);
    }
  }

  /** `shown` is the severity of the first of the group's rows that none outranks. */
  ghost predicate ShownSeverity(raws: seq<Raw>, key: GroupKey, shown: string) {
    if Rank(shown) == -1 then shown == "" && forall i :: InGroup(raws, i, key) ==> Rank(raws[i].severity) == -1
    else exists i :: FirstHighest(raws, i, key) && raws[i].severity == shown
  }

  lemma HighestSnoc(raws: seq<Raw>, r: Raw, key: GroupKey, shown: string)
    requires ShownSeverity(raws, key, shown)
    ensures ShownSeverity(raws + [r], key,
                          if RawKey(r) == key && Rank(r.severity) > Rank(shown) then r.severity else shown)
  {
    var more, n := raws + [r], |raws|;
    assert more[n] == r && forall i :: 0 <= i < n ==> more[i] == raws[i];
    if RawKey(r) == key && Rank(r.severity) > Rank(shown) {
      assert FirstHighest(more, n, key);
    } else if Rank(shown) != -1 {
      var i :| FirstHighest(raws, i, key) && raws[i].severity == shown;
      assert FirstHighest(more, i, key);
    }
  }

  // ---- the refresh ----

  datatype Catalog = Catalog(kbEntries: seq<KbEntry>, monthsFetched: seq<Month>, version: int)

  const EMPTY := Catalog([], [], CATALOG_VERSION)

  /** A catalog of an older version forgets which months it fetched, not their entries. */
  function Upgraded(c: Catalog): Catalog {
    if c.version != CATALOG_VERSION then c.(monthsFetched := [], version := CATALOG_VERSION) else c
  }

  /** The months actually refetched among the first `n` of the window; a month missing from
      `replies` failed or is not published. */
  function Refetched(fetched: seq<Month>, window: seq<Month>, replies: map<Month, seq<Raw>>, n: nat): seq<Month>
    requires n <= |window|
  {
    if n == 0 then []
    else
      var m := window[n - 1];
      var rest := Refetched(fetched, window, replies, n - 1);
      if (m in fetched && n - 1 >= 2) || m !in replies then rest else rest + [m]
  }

  function WithMonths(fetched: seq<Month>, more: seq<Month>): seq<Month> {
    if more == [] then fetched
    else
      var m := more[|more| - 1];
      var rest := WithMonths(fetched, more[..|more| - 1]);
      if m in rest then rest else rest + [m]
  }

  function Kept(entries: seq<KbEntry>, refetched: seq<Month>): (r: seq<KbEntry>)
    ensures forall e :: e in r <==> e in entries && e.month !in refetched
  {
    if entries == [] then []
    else
      var n := |entries| - 1;
      assert entries == entries[..n] + [entries[n]];
      if entries[n].month in refetched then Kept(entries[..n], refetched)
      else Kept(entries[..n], refetched) + [entries[n]]
  }

  function Rolled(months: seq<Month>, replies: map<Month, seq<Raw>>): seq<KbEntry>
    requires forall m :: m in months ==> m in replies
  {
    if months == [] then []
    else
      var n := |months| - 1;
      assert months[n] in months;
      Rolled(months[..n], replies) + Rollup(months[n], replies[months[n]])
  }

  /** A missing revision is filled in from the release-health page, when that knows one. */
  function Filled(e: KbEntry, health: map<GroupKey, int>): KbEntry {
    if e.fixedUbr == 0 && (e.kb, e.buildMajor) in health then e.(fixedUbr := health[(e.kb, e.buildMajor)]) else e
  }

  function AllFilled(entries: seq<KbEntry>, health: map<GroupKey, int>): (r: seq<KbEntry>)
    ensures |r| == |entries| && forall i :: 0 <= i < |r| ==> r[i] == Filled(entries[i], health)
  {
    seq(|entries|, i requires 0 <= i < |entries| => Filled(entries[i], health))
  }

  lemma {:induction false} RefetchedFacts(fetched: seq<Month>, window: seq<Month>, replies: map<Month, seq<Raw>>,
                                      n: nat)
    requires n <= |window| && Distinct(window)
    ensures Distinct(Refetched(fetched, window, replies, n))
    ensures forall m :: m in Refetched(fetched, window, replies, n) ==> m in replies && m in window[..n]
    decreases n
  {
    if n > 0 {
      RefetchedFacts(fetched, window, replies, n - 1);
      assert window[..n] == window[..n - 1] + [window[n - 1]];
    }
  }

  function Merged(c: Catalog, window: seq<Month>, replies: map<Month, seq<Raw>>, health: map<GroupKey, int>): Catalog
    requires Distinct(window)
  {
    var u := Upgraded(c);
    RefetchedFacts(u.monthsFetched, window, replies, |window|);
    var months := Refetched(u.monthsFetched, window, replies, |window|);
    Catalog(AllFilled(Kept(u.kbEntries, months) + Rolled(months, replies), health),
            WithMonths(u.monthsFetched, months), u.version)
  }

  lemma {:induction false} WithMonthsMembers(fetched: seq<Month>, more: seq<Month>)
    ensures forall m :: m in WithMonths(fetched, more) <==> m in fetched || m in more
    ensures Distinct(fetched) ==> Distinct(WithMonths(fetched, more))
  {
    if more != [] {
      var n := |more| - 1;
      WithMonthsMembers(fetched, more[..n]);
      assert more == more[..n] + [more[n]];
    }
  }

  lemma {:induction false} NothingRefetched(entries: seq<KbEntry>)
    ensures Kept(entries, []) == entries
  {
    if entries != [] {
      NothingRefetched(entries[..|entries| - 1]);
      assert entries == entries[..|entries| - 1] + [entries[|entries| - 1]];
    }
  }

  /** `health` is empty when the release-health page could not be read. */
  method RefreshOsUpdateCatalog(c: Catalog, year: int, month: int, replies: map<Month, seq<Raw>>,
                                health: map<GroupKey, int>)
      returns (next: Catalog, window: seq<Month>)
    requires 1 <= month <= 12
    ensures IsWindow(window, Month(year, month)) && Distinct(window)
    ensures next == Merged(c, window, replies, health)
  {
    var months := MonthWindow(year, month);
    window := months;
    WindowDistinct(months, Month(year, month));
    var u := Upgraded(c);
    var refetched, monthsFetched := FetchMonths(u.monthsFetched, months, replies);
    RefetchedFacts(u.monthsFetched, months, replies, |months|);
    var kbEntries := u.kbEntries;
    if refetched != [] {
      var rolled := RollMonths(refetched, replies);
      kbEntries := Kept(kbEntries, refetched) + rolled;
    } else {
      NothingRefetched(kbEntries);
      assert kbEntries + [] == kbEntries;
    }
    next := Catalog(AllFilled(kbEntries, health), monthsFetched, u.version);
  }

  /** The fetch loop: months beyond the two newest are skipped once they have been fetched. */
  method FetchMonths(fetched: seq<Month>, window: seq<Month>, replies: map<Month, seq<Raw>>)
      returns (refetched: seq<Month>, monthsFetched: seq<Month>)
    requires Distinct(window)
    ensures refetched == Refetched(fetched, window, replies, |window|)
    ensures monthsFetched == WithMonths(fetched, refetched)
  {
    refetched, monthsFetched := [], fetched;
    for idx := 0 to |window|
      invariant refetched == Refetched(fetched, window, replies, idx)
      invariant monthsFetched == WithMonths(fetched, refetched)
    {
      var m := window[idx];
      RefetchedFacts(fetched, window, replies, idx);
      WithMonthsMembers(fetched, refetched);
      assert m !in window[..idx];
      var alreadyHave := m in monthsFetched;
      if !(alreadyHave && idx >= 2) && m in replies {
        assert (refetched + [m])[..|refetched|] == refetched;
        refetched := refetched + [m];
        if m !in monthsFetched { monthsFetched := monthsFetched + [m]; }
      }
    }
  }

  method RollMonths(months: seq<Month>, replies: map<Month, seq<Raw>>) returns (rolled: seq<KbEntry>)
    requires forall m :: m in months ==> m in replies
    ensures rolled == Rolled(months, replies)
  {
    rolled := [];
    for i := 0 to |months|
      invariant rolled == Rolled(months[..i], replies)
    {
      assert months[i] in months;
      assert months[..i + 1][..i] == months[..i];
      var out := RollupKbEntries(months[i], replies[months[i]]);
      rolled := rolled + out;
    }
    assert months[..|months|] == months;
  }

  // ---- what a refresh fetches and rolls up, in plain terms ----

  lemma {:induction false} RefetchedMembers(fetched: seq<Month>, window: seq<Month>, replies: map<Month, seq<Raw>>,
                                            n: nat, m: Month)
    requires n <= |window|
    ensures m in Refetched(fetched, window, replies, n) <==>
              m in replies && exists j :: 0 <= j < n && window[j] == m && (j < 2 || m !in fetched)
    decreases n
  {
    if n > 0 { RefetchedMembers(fetched, window, replies, n - 1, m); }
  }

  /** Fetched again are the two newest months, and the others of the window that were not fetched
      before; all of them when the catalog is of an older version. */
  lemma RefetchedExactly(c: Catalog, window: seq<Month>, replies: map<Month, seq<Raw>>, m: Month)
    ensures m in Refetched(Upgraded(c).monthsFetched, window, replies, |window|) <==>
              m in replies
              && exists j :: 0 <= j < |window| && window[j] == m && (j < 2 || c.version != 2 || m !in c.monthsFetched)
  {
    RefetchedMembers(Upgraded(c).monthsFetched, window, replies, |window|, m);
  }

  /** Raw row `i` belongs to the update and build of an entry. */
  ghost predicate RowOf(raws: seq<Raw>, i: int, e: KbEntry) {
    0 <= i < |raws| && raws[i].kb == e.kb && raws[i].buildMajor == e.buildMajor
  }

  /** A roll-up has an entry for every update and build that some row names, and for no other. */
  lemma RollupCovers(month: Month, raws: seq<Raw>, kb: string, build: int)
    ensures (exists e :: e in Rollup(month, raws) && e.kb == kb && e.buildMajor == build) <==>
              kb != "" && exists i :: 0 <= i < |raws| && raws[i].kb == kb && raws[i].buildMajor == build
  {
    var keys, groups := KeysOf(raws), Groups(month, raws);
    KeysSeen(raws, (kb, build));
    if e :| e in Rollup(month, raws) && e.kb == kb && e.buildMajor == build {
      var k :| 0 <= k < |groups| && groups[k] == e;
      GroupSummary(month, raws, keys[k]);
      assert keys[k] in keys;
    }
    if (kb, build) in keys {
      var k :| 0 <= k < |keys| && keys[k] == (kb, build);
      GroupSummary(month, raws, keys[k]);
      assert groups[k] in Rollup(month, raws);
    }
  }

  lemma {:induction false} KeysSeen(raws: seq<Raw>, key: GroupKey)
    ensures key in KeysOf(raws) <==>
              key.0 != "" && exists i :: 0 <= i < |raws| && raws[i].kb == key.0 && raws[i].buildMajor == key.1
  {
    if raws != [] {
      var n := |raws| - 1;
      assert forall i :: 0 <= i < n ==> raws[..n][i] == raws[i];
      KeysSeen(raws[..n], key);
    }
  }

  /** Such an entry lists the CVEs of its rows, is exploited when one of them is, and knows a fixing
      revision exactly when one of them does. */
  lemma RollupSays(month: Month, raws: seq<Raw>, e: KbEntry)
    requires e in Rollup(month, raws)
    ensures e.month == month
    ensures forall c :: c in e.cveIds <==> c != "" && exists i :: RowOf(raws, i, e) && raws[i].cve == c
    ensures e.exploited <==> exists i :: RowOf(raws, i, e) && raws[i].exploited
    ensures e.fixedUbr != 0 <==> exists i :: RowOf(raws, i, e) && raws[i].fixedUbr != 0
  {
    var keys, groups := KeysOf(raws), Groups(month, raws);
    var k :| 0 <= k < |groups| && groups[k] == e;
    GroupSummary(month, raws, keys[k]);
    GroupExploited(month, raws, keys[k]);
    assert forall i :: InGroup(raws, i, keys[k]) <==> RowOf(raws, i, e);
    forall c ensures c in e.cveIds <==> c != "" && exists i :: RowOf(raws, i, e) && raws[i].cve == c {
      GroupCves(month, raws, keys[k], c);
    }
  }

  /** A revision is filled in only where none was known, and nothing else changes. */
  lemma FilledOnlyWhereMissing(e: KbEntry, health: map<GroupKey, int>)
    ensures var f := Filled(e, health);
            && f.(fixedUbr := 0) == e.(fixedUbr := 0)
            && (e.fixedUbr != 0 || (e.kb, e.buildMajor) !in health ==> f == e)
            && (e.fixedUbr == 0 && (e.kb, e.buildMajor) in health ==> f.fixedUbr == health[(e.kb, e.buildMajor)])
  {
  }

  lemma LowerIgnoresCase(s: string, t: string)
    requires SameButCase(s, t)
    ensures Lower(s) == Lower(t)
  {
    SameElements(Lower(s), Lower(t));
  }

  /** Bulletin severities rank in the order of this list, in any case of letters; any other text ranks
      below them. */
  lemma SeveritiesRank(s: string, t: string, a: nat, b: nat)
    requires a < 4 && b < 4
    ensures var names := ["low", "moderate", "important", "critical"];
            && (SameButCase(s, names[a]) && SameButCase(t, names[b]) ==> (Rank(s) < Rank(t) <==> a < b))
            && (SameButCase(s, names[a]) && Lower(t) !in names ==> Rank(t) < Rank(s))
  {
    var names := ["low", "moderate", "important", "critical"];
    assert names[0] == "low" && names[1] == "moderate" && names[2] == "important" && names[3] == "critical";
    assert |"low"| == 3 && |"moderate"| == 8 && |"important"| == 9 && |"critical"| == 8;
    assert "moderate"[0] == 'm' && "critical"[0] == 'c';
    LowerNames();
    if SameButCase(s, names[a]) { LowerIgnoresCase(s, names[a]); }
    if SameButCase(t, names[b]) { LowerIgnoresCase(t, names[b]); }
  }

  lemma LowerNames()
    ensures Lower("low") == "low" && Lower("moderate") == "moderate"
    ensures Lower("important") == "important" && Lower("critical") == "critical"
  {
    LowerStays("low");
    LowerStays("moderate");
    LowerStays("important");
    LowerStays("critical");
  }

  lemma LowerStays(s: string)
    requires forall i :: 0 <= i < |s| ==> 'a' <= s[i] <= 'z'
    ensures Lower(s) == s
  {
    SameElements(Lower(s), s);
  }

  // ---- invariants over every sequence of refreshes ----

  datatype Run = Run(window: seq<Month>, replies: map<Month, seq<Raw>>, health: map<GroupKey, int>)

  function EntryKey(e: KbEntry): (Month, string, int) { (e.month, e.kb, e.buildMajor) }

  ghost predicate Good(c: Catalog) {
    DistinctKeys(c.kbEntries, EntryKey) && Distinct(c.monthsFetched)
  }

  lemma {:induction false} KeptDistinct(entries: seq<KbEntry>, refetched: seq<Month>)
    requires DistinctKeys(entries, EntryKey)
    ensures DistinctKeys(Kept(entries, refetched), EntryKey)
  {
    if entries != [] {
      var n := |entries| - 1;
      KeptDistinct(entries[..n], refetched);
      var k := Kept(entries[..n], refetched);
      forall i | 0 <= i < |k| ensures EntryKey(k[i]) != EntryKey(entries[n]) {
        assert k[i] in k && k[i] in entries[..n];
      }
    }
  }

  lemma RollupFacts(month: Month, raws: seq<Raw>)
    ensures DistinctKeys(Rollup(month, raws), EntryKey)
    ensures forall i :: 0 <= i < |Rollup(month, raws)| ==> Rollup(month, raws)[i].month == month
  {
    KeysDistinct(raws);
    var gs := Groups(month, raws);
    forall i | 0 <= i < |gs| ensures gs[i].month == month && (gs[i].kb, gs[i].buildMajor) == KeysOf(raws)[i] {
      GroupSummary(month, raws, KeysOf(raws)[i]);
    }
    SortByDistinctKeys(gs, BuildOrder, EntryKey);
    forall i | 0 <= i < |Rollup(month, raws)| ensures Rollup(month, raws)[i].month == month {
      assert Rollup(month, raws)[i] in Rollup(month, raws);
    }
  }

  lemma {:induction false} RolledFacts(months: seq<Month>, replies: map<Month, seq<Raw>>)
    requires Distinct(months) && forall m :: m in months ==> m in replies
    ensures DistinctKeys(Rolled(months, replies), EntryKey)
    ensures forall i :: 0 <= i < |Rolled(months, replies)| ==> Rolled(months, replies)[i].month in months
  {
    if months != [] {
      var n := |months| - 1;
      assert months == months[..n] + [months[n]] && months[n] in months;
      RolledFacts(months[..n], replies);
      RollupFacts(months[n], replies[months[n]]);
      var a, b := Rolled(months[..n], replies), Rollup(months[n], replies[months[n]]);
      assert months[n] !in months[..n];
      JoinDistinct(a, b);
    }
  }

  lemma JoinDistinct(a: seq<KbEntry>, b: seq<KbEntry>)
    requires DistinctKeys(a, EntryKey) && DistinctKeys(b, EntryKey)
    requires forall i, j :: 0 <= i < |a| && 0 <= j < |b| ==> a[i].month != b[j].month
    ensures DistinctKeys(a + b, EntryKey)
  {
  }

  /** One refresh keeps (month, KB, build) unique and lists each fetched month once. */
  lemma MergeKeepsGood(c: Catalog, window: seq<Month>, replies: map<Month, seq<Raw>>, health: map<GroupKey, int>)
    requires Good(c) && Distinct(window)
    ensures Good(Merged(c, window, replies, health))
  {
    var u := Upgraded(c);
    var months := Refetched(u.monthsFetched, window, replies, |window|);
    RefetchedFacts(u.monthsFetched, window, replies, |window|);
    WithMonthsMembers(u.monthsFetched, months);
    KeptDistinct(u.kbEntries, months);
    RolledFacts(months, replies);
    var kept, rolled := Kept(u.kbEntries, months), Rolled(months, replies);
    forall i, j | 0 <= i < |kept| && 0 <= j < |rolled| ensures kept[i].month != rolled[j].month {
      assert kept[i] in kept;
    }
    JoinDistinct(kept, rolled);
    FilledDistinct(kept + rolled, health);
  }

  lemma FilledDistinct(entries: seq<KbEntry>, health: map<GroupKey, int>)
    requires DistinctKeys(entries, EntryKey)
    ensures DistinctKeys(AllFilled(entries, health), EntryKey)
  {
    var f := AllFilled(entries, health);
    assert forall i :: 0 <= i < |f| ==> EntryKey(f[i]) == EntryKey(entries[i]);
  }

  ghost function AfterRuns(c: Catalog, runs: seq<Run>): Catalog
    requires forall i :: 0 <= i < |runs| ==> Distinct(runs[i].window)
  {
    if runs == [] then c
    else
      var n := |runs| - 1;
      Merged(AfterRuns(c, runs[..n]), runs[n].window, runs[n].replies, runs[n].health)
  }

  lemma {:induction false} RunsKeepGood(runs: seq<Run>)
    requires forall i :: 0 <= i < |runs| ==> Distinct(runs[i].window)
    ensures Good(AfterRuns(EMPTY, runs))
  {
    if runs != [] {
      var n := |runs| - 1;
      RunsKeepGood(runs[..n]);
      MergeKeepsGood(AfterRuns(EMPTY, runs[..n]), runs[n].window, runs[n].replies, runs[n].health);
    }
  }

  /** The months a refresh refetches. */
  ghost function MonthsOf(c: Catalog, r: Run): seq<Month> {
    Refetched(Upgraded(c).monthsFetched, r.window, r.replies, |r.window|)
  }

  ghost function MergedBy(c: Catalog, r: Run): Catalog
    requires Distinct(r.window)
  {
    Merged(c, r.window, r.replies, r.health)
  }

  lemma {:induction false} AllFilledAppend(a: seq<KbEntry>, b: seq<KbEntry>, health: map<GroupKey, int>)
    ensures AllFilled(a + b, health) == AllFilled(a, health) + AllFilled(b, health)
  {
  }

  /** A refreshed catalog is the kept entries, in order, then the new roll-ups, both with missing
      revisions filled in. */
  lemma MergedIsKeptThenRolled(c: Catalog, r: Run)
    requires Distinct(r.window)
    ensures forall m :: m in MonthsOf(c, r) ==> m in r.replies
    ensures MergedBy(c, r).kbEntries
         == AllFilled(Kept(c.kbEntries, MonthsOf(c, r)), r.health)
          + AllFilled(Rolled(MonthsOf(c, r), r.replies), r.health)
  {
    RefetchedFacts(Upgraded(c).monthsFetched, r.window, r.replies, |r.window|);
    AllFilledAppend(Kept(c.kbEntries, MonthsOf(c, r)), Rolled(MonthsOf(c, r), r.replies), r.health);
  }

  lemma FilledMembers(entries: seq<KbEntry>, health: map<GroupKey, int>, e: KbEntry)
    ensures e in AllFilled(entries, health) <==> exists o :: o in entries && Filled(o, health) == e
  {
    if o: KbEntry :| o in entries && Filled(o, health) == e {
      var i :| 0 <= i < |entries| && entries[i] == o;
      assert AllFilled(entries, health)[i] == e;
    }
  }

  /** A month that is not refetched has exactly the entries it had, changed only where a missing
      revision was filled in. */
  lemma UntouchedMonthsKept(c: Catalog, r: Run, e: KbEntry)
    requires Distinct(r.window) && e.month !in MonthsOf(c, r)
    ensures e in MergedBy(c, r).kbEntries <==> exists o :: o in c.kbEntries && Filled(o, r.health) == e
  {
    MergedIsKeptThenRolled(c, r);
    var months := MonthsOf(c, r);
    var kept, rolled := Kept(c.kbEntries, months), Rolled(months, r.replies);
    FilledOfKept(c.kbEntries, months, r.health, e);
    RefetchedFacts(Upgraded(c).monthsFetched, r.window, r.replies, |r.window|);
    RolledFacts(months, r.replies);
    NotFilledHere(rolled, r.health, months, e);
  }

  lemma FilledOfKept(entries: seq<KbEntry>, months: seq<Month>, health: map<GroupKey, int>, e: KbEntry)
    requires e.month !in months
    ensures e in AllFilled(Kept(entries, months), health) <==> exists o :: o in entries && Filled(o, health) == e
  {
    FilledMembers(Kept(entries, months), health, e);
    if o: KbEntry :| o in entries && Filled(o, health) == e {
      assert o in Kept(entries, months);
    }
  }

  lemma NotFilledHere(entries: seq<KbEntry>, health: map<GroupKey, int>, months: seq<Month>, e: KbEntry)
    requires e.month !in months && forall i :: 0 <= i < |entries| ==> entries[i].month in months
    ensures e !in AllFilled(entries, health)
  {
    FilledMembers(entries, health, e);
    forall o | o in entries ensures Filled(o, health) != e {
      var i :| 0 <= i < |entries| && entries[i] == o;
    }
  }

  lemma {:induction false} RolledOfMonth(months: seq<Month>, replies: map<Month, seq<Raw>>, o: KbEntry)
    requires Distinct(months) && (forall m :: m in months ==> m in replies) && o.month in months
    ensures o in Rolled(months, replies) <==> o in Rollup(o.month, replies[o.month])
  {
    var n := |months| - 1;
    assert months == months[..n] + [months[n]] && months[n] in months;
    var a, b := Rolled(months[..n], replies), Rollup(months[n], replies[months[n]]);
    RolledFacts(months[..n], replies);
    RollupFacts(months[n], replies[months[n]]);
    if o.month == months[n] {
      assert months[n] !in months[..n];
      assert o !in a;
    } else {
      RolledOfMonth(months[..n], replies, o);
      assert o !in b;
    }
  }

  /** A refetched month holds exactly its new roll-up, again up to filled-in revisions. */
  lemma RefetchedMonthsReplaced(c: Catalog, r: Run, e: KbEntry)
    requires Distinct(r.window) && e.month in MonthsOf(c, r)
    ensures e.month in r.replies
    ensures e in MergedBy(c, r).kbEntries <==>
              exists o :: o in Rollup(e.month, r.replies[e.month]) && Filled(o, r.health) == e
  {
    MergedIsKeptThenRolled(c, r);
    var months := MonthsOf(c, r);
    RefetchedFacts(Upgraded(c).monthsFetched, r.window, r.replies, |r.window|);
    FilledMembers(Kept(c.kbEntries, months), r.health, e);
    FilledMembers(Rolled(months, r.replies), r.health, e);
    forall o: KbEntry | o.month == e.month
      ensures o in Rolled(months, r.replies) <==> o in Rollup(e.month, r.replies[e.month])
    {
      RolledOfMonth(months, r.replies, o);
    }
  }

  // ---- a device's pending updates ----

  datatype Build = Build(major: int, ubr: int)

  function WindowsBuild(osVersion: string): Option<Build> {
    var t := VersionTuple(osVersion);
    if |t| < 3 || t[0] != 10 || t[1] != 0 || t[2] < 10000 then None
    else Some(Build(t[2], if |t| > 3 then t[3] else 0))
  }

  /** Entries of the device's build family with a known fix. */
  function Family(entries: seq<KbEntry>, major: int): (r: seq<KbEntry>)
    ensures forall e :: e in r <==> e in entries && e.buildMajor == major && e.fixedUbr != 0
  {
    if entries == [] then []
    else
      var n := |entries| - 1;
      assert entries == entries[..n] + [entries[n]];
      if entries[n].buildMajor == major && entries[n].fixedUbr != 0 then Family(entries[..n], major) + [entries[n]]
      else Family(entries[..n], major)
  }

  function Beyond(entries: seq<KbEntry>, ubr: int): (r: seq<KbEntry>)
    ensures forall e :: e in r <==> e in entries && e.fixedUbr > ubr
  {
    if entries == [] then []
    else
      var n := |entries| - 1;
      assert entries == entries[..n] + [entries[n]];
      if entries[n].fixedUbr > ubr then Beyond(entries[..n], ubr) + [entries[n]] else Beyond(entries[..n], ubr)
  }

  function NewestFixFirst(e: KbEntry): int { -e.fixedUbr }

  function Pending(entries: seq<KbEntry>, b: Build): seq<KbEntry> {
    SortBy(Beyond(Family(entries, b.major), b.ubr), NewestFixFirst)
  }

  /** The highest known fix of the family. */
  function LatestKnown(entries: seq<KbEntry>): Option<int> {
    if entries == [] then None
    else
      var n := |entries| - 1;
      var rest := LatestKnown(entries[..n]);
      if rest.Some? && rest.value >= entries[n].fixedUbr then rest else Some(entries[n].fixedUbr)
  }

  lemma {:induction false} LatestIsMax(entries: seq<KbEntry>)
    ensures entries == [] <==> LatestKnown(entries).None?
    ensures LatestKnown(entries).Some? ==>
              (exists e :: e in entries && e.fixedUbr == LatestKnown(entries).value)
              && forall e :: e in entries ==> e.fixedUbr <= LatestKnown(entries).value
  {
    if entries != [] {
      var n := |entries| - 1;
      LatestIsMax(entries[..n]);
      assert entries == entries[..n] + [entries[n]];
      assert entries[n] in entries;
    }
  }

  /** Updating a device never adds a pending update, and none is left exactly when its revision has
      reached the highest fix known for its build family. */
  lemma PendingShrinks(entries: seq<KbEntry>, major: int, older: int, newer: int)
    requires older <= newer
    ensures forall e :: e in Pending(entries, Build(major, newer)) ==> e in Pending(entries, Build(major, older))
    ensures Pending(entries, Build(major, newer)) == [] <==>
              LatestKnown(Family(entries, major)).None? || newer >= LatestKnown(Family(entries, major)).value
  {
    var family := Family(entries, major);
    LatestIsMax(family);
    var b := Beyond(family, newer);
    if b == [] {
      if LatestKnown(family).Some? {
        var e :| e in family && e.fixedUbr == LatestKnown(family).value;
        assert e !in b;
      }
    } else {
      assert b[0] in b;
    }
  }

  /** What a device with this version text still has to install, None when it is not a recognised
      Windows 10 or later build. */
  function PendingFor(osVersion: string, entries: seq<KbEntry>): Option<seq<KbEntry>> {
    var b := WindowsBuild(osVersion);
    if b.None? then None else Some(Pending(entries, b.value))
  }

  /** A recognised device is up to date exactly when its revision (0 if the text has none) has
      reached every fix the catalog knows for its build family. */
  lemma UpToDate(osVersion: string, entries: seq<KbEntry>)
    requires WindowsBuild(osVersion).Some?
    ensures PendingFor(osVersion, entries) == Some([]) <==>
              forall e :: e in entries && e.buildMajor == WindowsBuild(osVersion).value.major && e.fixedUbr != 0
                ==> WindowsBuild(osVersion).value.ubr >= e.fixedUbr
  {
    var b := WindowsBuild(osVersion).value;
    PendingShrinks(entries, b.major, b.ubr, b.ubr);
    LatestIsMax(Family(entries, b.major));
  }

  /** The build of a version text is read off its numbers: 10.0 first, then a build of at least 10000,
      then the revision, 0 if there is none. */
  lemma WindowsBuildReads(ns: seq<nat>, tails: seq<string>, seps: seq<char>)
    requires |ns| == |tails| == |seps| + 1 && PlainTails(tails) && Separators(seps)
    ensures WindowsBuild(JoinedWith(Components(ns, tails), seps)) ==
            if |ns| >= 3 && ns[0] == 10 && ns[1] == 0 && ns[2] >= 10_000
            then Some(Build(ns[2], if |ns| > 3 then ns[3] else 0)) else None
  {
    VersionReads(ns, tails, seps);
  }

  /** Pending updates are shown newest fix first. */
  lemma PendingNewestFirst(entries: seq<KbEntry>, b: Build, i: nat, j: nat)
    requires i < j < |Pending(entries, b)|
    ensures Pending(entries, b)[i].fixedUbr >= Pending(entries, b)[j].fixedUbr
  {
    SortBySorted(Beyond(Family(entries, b.major), b.ubr), NewestFixFirst);
  }

  /** Remembered as fetched are the months fetched now and those fetched before, the latter only if the
      catalog is of this version. */
  lemma MonthsRemembered(c: Catalog, r: Run, m: Month)
    requires Distinct(r.window)
    ensures m in MergedBy(c, r).monthsFetched <==> (c.version == 2 && m in c.monthsFetched) || m in MonthsOf(c, r)
    ensures MergedBy(c, r).version == 2
  {
    WithMonthsMembers(Upgraded(c).monthsFetched, MonthsOf(c, r));
  }

  /** A roll-up lists the newest builds first. */
  lemma RollupNewestBuildFirst(month: Month, raws: seq<Raw>, i: nat, j: nat)
    requires i < j < |Rollup(month, raws)|
    ensures Rollup(month, raws)[i].buildMajor >= Rollup(month, raws)[j].buildMajor
  {
    SortBySorted(Groups(month, raws), BuildOrder);
  }
}
