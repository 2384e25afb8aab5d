/** The inventory refresher: oldest-synced-first under a per-tick budget. */
module Rotation {
  import opened Prelude
  import opened Sorting
  import opened InstalledApps

  const FRESH_MS := 150 * 60_000

  predicate NeedsFetch(store: Store, id: Id, now: int) {
    var own := RecordOf(store, id).selfReported;
    own.None? || own.value.fetchedAt.None? || now - own.value.fetchedAt.value > FRESH_MS
  }

  function Candidates(store: Store, targets: seq<Id>, now: int): seq<Id> {
    if targets == [] then []
    else
      var n := |targets| - 1;
      var rest := Candidates(store, targets[..n], now);
      if NeedsFetch(store, targets[n], now) then rest + [targets[n]] else rest
  }

  function Ranked(store: Store, ids: seq<Id>): seq<Id> { SortBy(ids, id => Stamp(store, id)) }

  function Batch(store: Store, ids: seq<Id>, budget: nat): seq<Id> {
    Ranked(store, ids)[..Min(budget, |ids|)]
  }

  /** How one fetch of a device turns out, and when it completes. */
  datatype Attempt = Attempt(device: Option<Device>, reply: Reply, at: int)

  function AttemptOf(attempts: map<Id, Attempt>, id: Id): Attempt {
    if id in attempts then attempts[id] else Attempt(None, Failed(""), 0)
  }

  /** A batch member the device list does not know is passed over. */
  function FetchOne(store: Store, id: Id, a: Attempt): Store {
    if a.device.Some? && a.device.value.id == id then FetchAndStore(store, a.device.value, a.reply, a.at) else store
  }

  function FetchAll(store: Store, batch: seq<Id>, attempts: map<Id, Attempt>): Store {
    if batch == [] then store
    else
      var n := |batch| - 1;
      FetchOne(FetchAll(store, batch[..n], attempts), batch[n], AttemptOf(attempts, batch[n]))
  }

  function TickStore(store: Store, targets: seq<Id>, budget: nat, now: int, attempts: map<Id, Attempt>): Store {
    FetchAll(store, Batch(store, Candidates(store, targets, now), budget), attempts)
  }

  class Refresher {
    var store: Store
    ghost var fetches: nat

    constructor ()
      ensures store == map[] && fetches == 0
    {
      store := map[];
      fetches := 0;
    }

    method ReportApps(id: Id, e: Entry)
      modifies this
      ensures store == Upserted(old(store), id, SelfReported, e) && fetches == old(fetches)
    {
      store := Upserted(store, id, SelfReported, e);
    }

    /** An administrator's refresh of one device; it does not count against the budget. */
    method RefreshNow(id: Id, a: Attempt)
      modifies this
      ensures store == FetchOne(old(store), id, a) && fetches == old(fetches)
    {
      store := FetchOne(store, id, a);
    }

    method Tick(targets: seq<Id>, budget: Option<real>, now: int, attempts: map<Id, Attempt>)
      modifies this
      ensures store == TickStore(old(store), targets, PerTickBudget(budget), now, attempts)
      ensures old(fetches) <= fetches <= old(fetches) + PerTickBudget(budget)
    {
      var candidateIds := [];
      for i := 0 to |targets|
        invariant candidateIds == Candidates(store, targets[..i], now)
        invariant store == old(store) && fetches == old(fetches)
      {
        assert targets[..i + 1][..i] == targets[..i];
        if NeedsFetch(store, targets[i], now) {
          candidateIds := candidateIds + [targets[i]];
        }
      }
      assert targets[..|targets|] == targets;
      var batch := Batch(store, candidateIds, PerTickBudget(budget));
      for i := 0 to |batch|
        invariant store == FetchAll(old(store), batch[..i], attempts)
        invariant fetches == old(fetches) + i
      {
        assert batch[..i + 1][..i] == batch[..i];
        store := FetchOne(store, batch[i], AttemptOf(attempts, batch[i]));
        fetches := fetches + 1;
      }
      assert batch[..|batch|] == batch;
    }

    /** Each round: what happened since the last tick, then the tick. */
    method RunRound(r: Round, budget: Option<real>)
      modifies this
      ensures store == AfterRound(old(store), r, PerTickBudget(budget))
      ensures old(fetches) <= fetches <= old(fetches) + PerTickBudget(budget)
    {
      for i := 0 to |r.meanwhile|
        invariant store == Meanwhile(old(store), r.meanwhile[..i]) && fetches == old(fetches)
      {
        assert r.meanwhile[..i + 1][..i] == r.meanwhile[..i];
        match r.meanwhile[i] {
          case Report(id, e) => ReportApps(id, e);
          case Manual(id, a) => RefreshNow(id, a);
        }
      }
      assert r.meanwhile[..|r.meanwhile|] == r.meanwhile;
      Tick(r.targets, budget, r.now, r.attempts);
    }

    /** 120 rounds in a row, each with its own targets, events and replies, spend at most the clamped
        hourly budget plus 60. */
    method Hour(rounds: seq<Round>, budget: Option<real>)
      requires |rounds| == TICKS_PER_HOUR
      modifies this
      ensures store == AfterRounds(old(store), rounds, PerTickBudget(budget))
      ensures fetches <= old(fetches) + ClampBudget(budget) + 60
    {
      HourStaysNearBudget(budget);
      for i := 0 to |rounds|
        invariant fetches <= old(fetches) + i * PerTickBudget(budget)
        invariant AfterRounds(old(store), rounds, PerTickBudget(budget))
               == AfterRounds(store, rounds[i..], PerTickBudget(budget))
      {
        assert rounds[i..][0] == rounds[i] && rounds[i..][1..] == rounds[i + 1..];
        RunRound(rounds[i], budget);
        OneMore(i, PerTickBudget(budget));
      }
    }
  }

  // ---- stamps after a tick ----

  lemma FetchOneStamp(store: Store, id: Id, a: Attempt, x: Id)
    ensures x != id ==> RecordOf(FetchOne(store, id, a), x) == RecordOf(store, x)
    ensures Stamp(FetchOne(store, id, a), id) == Stamp(store, id) || Stamp(FetchOne(store, id, a), id) == a.at
    ensures Succeeds(a, id) ==> Stamp(FetchOne(store, id, a), id) == a.at
  {
  }

  predicate Succeeds(a: Attempt, id: Id) {
    id != "" && a.device.Some? && a.device.value.id == id && a.device.value.supported && a.reply.Apps?
  }

  /** Each batch member's row depends on its own fetch alone, so the order in which the pool
      completes them cannot matter. */
  lemma {:induction false} FetchAllStamps(store: Store, batch: seq<Id>, attempts: map<Id, Attempt>, x: Id)
    requires Distinct(batch)
    ensures x !in batch ==> RecordOf(FetchAll(store, batch, attempts), x) == RecordOf(store, x)
    ensures x in batch ==>
              RecordOf(FetchAll(store, batch, attempts), x) == RecordOf(FetchOne(store, x, AttemptOf(attempts, x)), x)
    decreases |batch|
  {
    if batch != [] {
      var n := |batch| - 1;
      assert batch == batch[..n] + [batch[n]];
      FetchAllStamps(store, batch[..n], attempts, x);
      var w := FetchAll(store, batch[..n], attempts);
      FetchOneStamp(w, batch[n], AttemptOf(attempts, batch[n]), x);
      if x == batch[n] {
        assert x !in batch[..n];
        SameRowSameFetch(w, store, x, AttemptOf(attempts, x));
      }
    }
  }

  lemma SameRowSameFetch(a: Store, b: Store, id: Id, t: Attempt)
    requires RecordOf(a, id) == RecordOf(b, id)
    ensures RecordOf(FetchOne(a, id, t), id) == RecordOf(FetchOne(b, id, t), id)
  {
  }

  lemma {:induction false} CandidatesWithin(store: Store, targets: seq<Id>, now: int)
    requires Distinct(targets)
    ensures Distinct(Candidates(store, targets, now))
    ensures forall id :: id in Candidates(store, targets, now) <==> id in targets && NeedsFetch(store, id, now)
  {
    if targets != [] {
      var n := |targets| - 1;
      CandidatesWithin(store, targets[..n], now);
      assert targets == targets[..n] + [targets[n]];
    }
  }

  lemma BatchFacts(store: Store, ids: seq<Id>, budget: nat, g: Id)
    requires Distinct(ids) && g in ids && g !in Batch(store, ids, budget)
    ensures Distinct(Batch(store, ids, budget)) && |Batch(store, ids, budget)| == budget
    ensures forall x :: x in Batch(store, ids, budget) ==> x in ids && Stamp(store, x) <= Stamp(store, g)
  {
    var key := id => Stamp(store, id);
    var r := Ranked(store, ids);
    SortBySorted(ids, key);
    SortByDistinctKeys(ids, key, (id: Id) => id);
    assert g in r;
    var k :| 0 <= k < |r| && r[k] == g;
    var b := Batch(store, ids, budget);
    forall x | x in b ensures x in ids && Stamp(store, x) <= Stamp(store, g) {
      var i :| 0 <= i < |b| && b[i] == x;
      assert x == r[i] && x in r;
      assert key(r[i]) <= key(r[k]);
    }
  }

  // ---- the rotation bound ----

  /** Healthy devices, other than `g`, that are not fresher than `g`: the queue in front of it. */
  ghost function Ahead(store: Store, healthy: set<Id>, g: Id): set<Id> {
    set x | x in healthy && x != g && Stamp(store, x) <= Stamp(store, g)
  }

  lemma {:induction false} SizeOfDistinct(s: seq<Id>)
    requires Distinct(s)
    ensures |Elements(s)| == |s|
  {
    if s != [] {
      var n := |s| - 1;
      SizeOfDistinct(s[..n]);
      assert s == s[..n] + [s[n]];
      assert Elements(s) == Elements(s[..n]) + {s[n]};
    }
  }

  /** What happens to the store between ticks: an agent's report, or an administrator's refresh. */
  datatype Interim = Report(id: Id, entry: Entry) | Manual(id: Id, attempt: Attempt)

  datatype Round = Round(
    meanwhile: seq<Interim>, targets: seq<Id>, now: int, attempts: map<Id, Attempt>)

  function Meanwhile(store: Store, events: seq<Interim>): Store {
    if events == [] then store
    else
      var n := |events| - 1;
      match events[n]
      case Report(id, e) => Upserted(Meanwhile(store, events[..n]), id, SelfReported, e)
      case Manual(id, a) => FetchOne(Meanwhile(store, events[..n]), id, a)
  }

  ghost predicate ManuallyFetched(events: seq<Interim>, x: Id) {
    exists i :: 0 <= i < |events| && events[i].Manual? && events[i].id == x
  }

  ghost predicate ManualAfter(events: seq<Interim>, t: int) {
    forall i :: 0 <= i < |events| && events[i].Manual? ==> events[i].attempt.at > t
  }

  /** Reports touch the other slot only, and a manual refresh moves a stamp, if at all, to the time it
      completes. */
  lemma {:induction false} MeanwhileStamps(store: Store, events: seq<Interim>, x: Id, t: int)
    requires ManualAfter(events, t)
    ensures !ManuallyFetched(events, x) ==> Stamp(Meanwhile(store, events), x) == Stamp(store, x)
    ensures Stamp(Meanwhile(store, events), x) == Stamp(store, x) || Stamp(Meanwhile(store, events), x) > t
    decreases |events|
  {
    if events != [] {
      var n := |events| - 1;
      MeanwhileStamps(store, events[..n], x, t);
      assert !ManuallyFetched(events, x) ==> !ManuallyFetched(events[..n], x);
      if events[n].Manual? {
        FetchOneStamp(Meanwhile(store, events[..n]), events[n].id, events[n].attempt, x);
      }
    }
  }

  function AfterRound(store: Store, r: Round, budget: nat): Store {
    TickStore(Meanwhile(store, r.meanwhile), r.targets, budget, r.now, r.attempts)
  }

  function AfterRounds(store: Store, rounds: seq<Round>, budget: nat): Store
    decreases |rounds|
  {
    if rounds == [] then store else AfterRounds(AfterRound(store, rounds[0], budget), rounds[1..], budget)
  }

  ghost predicate BatchHas(store: Store, r: Round, budget: nat, g: Id) {
    var s := Meanwhile(store, r.meanwhile);
    g in Batch(s, Candidates(s, r.targets, r.now), budget)
  }

  /** The round fetches `g`, by hand or in its tick. */
  ghost predicate Serves(store: Store, r: Round, budget: nat, g: Id) {
    ManuallyFetched(r.meanwhile, g) || BatchHas(store, r, budget, g)
  }

  /** What the bound assumes of one round: `g` is a candidate; at most `k` of the candidates are
      outside the healthy set; healthy candidates are fetched successfully when their turn comes;
      completion times lie after every stamp so far. */
  ghost predicate RoundOk(store: Store, r: Round, healthy: set<Id>, k: nat, g: Id) {
    RoundFair(store, r, healthy, k, g) && g in Candidates(Meanwhile(store, r.meanwhile), r.targets, r.now)
  }

  ghost predicate RoundFair(store: Store, r: Round, healthy: set<Id>, k: nat, g: Id) {
    var s := Meanwhile(store, r.meanwhile);
    var ids := Candidates(s, r.targets, r.now);
    && Distinct(r.targets)
    && |Elements(ids) - healthy| <= k
    && (forall x :: x in ids && x in healthy ==> Succeeds(AttemptOf(r.attempts, x), x))
    && (forall x :: x in ids ==> AttemptOf(r.attempts, x).at > Stamp(store, g))
    && ManualAfter(r.meanwhile, Stamp(store, g))
  }

  /** A device's row after a round is its row before the tick, or what its own fetch makes of that. */
  lemma RoundRow(store: Store, r: Round, budget: nat, x: Id)
    requires Distinct(r.targets)
    ensures var s := Meanwhile(store, r.meanwhile);
            RecordOf(AfterRound(store, r, budget), x) ==
            RecordOf(if BatchHas(store, r, budget, x) then FetchOne(s, x, AttemptOf(r.attempts, x)) else s, x)
  {
    var s := Meanwhile(store, r.meanwhile);
    var ids := Candidates(s, r.targets, r.now);
    CandidatesWithin(s, r.targets, r.now);
    BatchDistinct(s, ids, budget);
    FetchAllStamps(s, Batch(s, ids, budget), r.attempts, x);
  }

  lemma ServedLeaves(store: Store, r: Round, healthy: set<Id>, k: nat, budget: nat, g: Id, x: Id)
    requires RoundOk(store, r, healthy, k, g) && !Serves(store, r, budget, g)
    requires BatchHas(store, r, budget, x) && x in healthy
    ensures x in Ahead(store, healthy, g) && Stamp(AfterRound(store, r, budget), x) > Stamp(store, g)
  {
    var s := Meanwhile(store, r.meanwhile);
    var ids := Candidates(s, r.targets, r.now);
    CandidatesWithin(s, r.targets, r.now);
    BatchFacts(s, ids, budget, g);
    MeanwhileStamps(store, r.meanwhile, g, Stamp(store, g));
    MeanwhileStamps(store, r.meanwhile, x, Stamp(store, g));
    RoundRow(store, r, budget, x);
    FetchOneStamp(s, x, AttemptOf(r.attempts, x), x);
  }

  lemma NoneComesBack(store: Store, r: Round, healthy: set<Id>, k: nat, budget: nat, g: Id, x: Id)
    requires RoundOk(store, r, healthy, k, g) && Stamp(AfterRound(store, r, budget), x) <= Stamp(store, g)
    ensures Stamp(store, x) <= Stamp(store, g)
  {
    var s := Meanwhile(store, r.meanwhile);
    MeanwhileStamps(store, r.meanwhile, x, Stamp(store, g));
    RoundRow(store, r, budget, x);
    BatchWithin(s, Candidates(s, r.targets, r.now), budget);
    FetchOneStamp(s, x, AttemptOf(r.attempts, x), x);
  }

  /** A tick that passes `g` over serves at least `budget - k` healthy devices from in front of it,
      and none comes back in front. */
  lemma PassedOverGainsGround(store: Store, r: Round, healthy: set<Id>, k: nat, budget: nat, g: Id)
    requires RoundOk(store, r, healthy, k, g) && k < budget && g in healthy
    requires !Serves(store, r, budget, g)
    ensures Stamp(AfterRound(store, r, budget), g) == Stamp(store, g)
    ensures |Ahead(AfterRound(store, r, budget), healthy, g)| + (budget - k) <= |Ahead(store, healthy, g)|
  {
    var s := Meanwhile(store, r.meanwhile);
    var ids := Candidates(s, r.targets, r.now);
    var batch := Batch(s, ids, budget);
    var after := AfterRound(store, r, budget);
    CandidatesWithin(s, r.targets, r.now);
    BatchFacts(s, ids, budget, g);
    MeanwhileStamps(store, r.meanwhile, g, Stamp(store, g));
    RoundRow(store, r, budget, g);
    var served := Elements(batch) * healthy;
    ServedCount(ids, batch, healthy, k);
    forall x | x in served ensures x in Ahead(store, healthy, g) && x !in Ahead(after, healthy, g) {
      ServedLeaves(store, r, healthy, k, budget, g, x);
    }
    forall x | x in Ahead(after, healthy, g) ensures x in Ahead(store, healthy, g) {
      NoneComesBack(store, r, healthy, k, budget, g, x);
    }
    SubsetSize(Ahead(after, healthy, g), served, Ahead(store, healthy, g));
  }

  lemma ServedCount(ids: seq<Id>, batch: seq<Id>, healthy: set<Id>, k: nat)
    requires Distinct(batch) && forall x :: x in batch ==> x in ids
    requires |Elements(ids) - healthy| <= k
    ensures |Elements(batch) * healthy| >= |batch| - k
  {
    SizeOfDistinct(batch);
    var stuck := Elements(batch) - healthy;
    SubsetSize(stuck, {}, Elements(ids) - healthy);
    assert Elements(batch) == Elements(batch) * healthy + stuck;
  }

  lemma SubsetSize<T>(a: set<T>, b: set<T>, c: set<T>)
    requires a !! b && a <= c && b <= c
    ensures |a| + |b| <= |c|
  {
    var rest := c - (a + b);
    assert c == a + b + rest;
  }

  ghost predicate RoundsOk(store: Store, rounds: seq<Round>, healthy: set<Id>, k: nat, budget: nat, g: Id)
    decreases |rounds|
  {
    rounds == [] ||
    (RoundOk(store, rounds[0], healthy, k, g)
     && RoundsOk(AfterRound(store, rounds[0], budget), rounds[1..], healthy, k, budget, g))
  }

  ghost predicate EverServed(store: Store, rounds: seq<Round>, budget: nat, g: Id)
    decreases |rounds|
  {
    rounds != [] &&
    (Serves(store, rounds[0], budget, g) || EverServed(AfterRound(store, rounds[0], budget), rounds[1..], budget, g))
  }

  /** `d` for every round. */
  function Ground(rounds: seq<Round>, d: nat): nat {
    if rounds == [] then 0 else Ground(rounds[1..], d) + d
  }

  lemma {:induction false} GroundIsProduct(rounds: seq<Round>, d: nat)
    ensures Ground(rounds, d) == |rounds| * d
  {
    if rounds != [] {
      GroundIsProduct(rounds[1..], d);
      OneMore(|rounds| - 1, d);
    }
  }

  lemma OneMore(n: nat, d: nat)
    ensures (n + 1) * d == n * d + d
  {
  }

  lemma {:induction false} WaitIsBounded(store: Store, rounds: seq<Round>, healthy: set<Id>, k: nat, budget: nat, g: Id)
    requires RoundsOk(store, rounds, healthy, k, budget, g) && k < budget && g in healthy
    requires !EverServed(store, rounds, budget, g)
    ensures Ground(rounds, budget - k) <= |Ahead(store, healthy, g)|
    decreases |rounds|
  {
    if rounds != [] {
      var r, rest, after := rounds[0], rounds[1..], AfterRound(store, rounds[0], budget);
      assert RoundOk(store, r, healthy, k, g) && !Serves(store, r, budget, g);
      assert RoundsOk(after, rest, healthy, k, budget, g) && !EverServed(after, rest, budget, g);
      WaitIsBounded(after, rest, healthy, k, budget, g);
      PassedOverGainsGround(store, r, healthy, k, budget, g);
    }
  }

  /** `Math.ceil(a / b)` for positive `b` */
  function CeilDiv(a: nat, b: nat): nat
    requires b > 0
  {
    (a + b - 1) / b
  }

  /** The rotation bound: with `n` healthy devices and at most `k` stuck candidates per tick, every
      healthy candidate is served within any ceil(n / (budget - k)) consecutive ticks, whatever the
      order in which equally old devices are listed, and whatever agents report and administrators
      refresh meanwhile. */
  lemma RotationBound(store: Store, rounds: seq<Round>, healthy: set<Id>, k: nat, budget: nat, g: Id)
    requires RoundsOk(store, rounds, healthy, k, budget, g) && k < budget && g in healthy
    requires |rounds| >= CeilDiv(|healthy|, budget - k)
    ensures EverServed(store, rounds, budget, g)
  {
    if !EverServed(store, rounds, budget, g) {
      WaitIsBounded(store, rounds, healthy, k, budget, g);
      SubsetSize(Ahead(store, healthy, g), {g}, healthy);
      EnoughGround(rounds, |healthy|, budget - k);
    }
  }

  lemma EnoughGround(rounds: seq<Round>, a: nat, d: nat)
    requires d > 0 && |rounds| >= CeilDiv(a, d)
    ensures Ground(rounds, d) >= a
  {
    GroundIsProduct(rounds, d);
    CeilCovers(a, d, |rounds|);
  }

  lemma CeilCovers(a: nat, b: nat, m: nat)
    requires b > 0 && m >= CeilDiv(a, b)
    ensures m * b >= a
  {
    var q := CeilDiv(a, b);
    assert q * b >= a;
    assert m * b >= q * b;
  }

  // ---- more stuck devices than budget ----

  lemma OlderComeFirst(store: Store, ids: seq<Id>, budget: nat, g: Id, x: Id)
    requires g in Batch(store, ids, budget) && x in ids && Stamp(store, x) < Stamp(store, g)
    ensures x in Batch(store, ids, budget)
  {
    var key := id => Stamp(store, id);
    var r, b := Ranked(store, ids), Batch(store, ids, budget);
    SortBySorted(ids, key);
    assert x in r;
    var i :| 0 <= i < |b| && b[i] == g;
    var j :| 0 <= j < |r| && r[j] == x;
    assert key(r[i]) == Stamp(store, g) && key(r[j]) == Stamp(store, x);
    assert j < i;
    assert b[j] == x;
  }

  /** The fetch passes the device over: unknown to the device list, or on a platform without an
      applications endpoint. */
  predicate Skipped(a: Attempt, id: Id) {
    id == "" || a.device.None? || a.device.value.id != id || !a.device.value.supported
  }

  /** The attempt cannot move the device's stamp: it is skipped, or it fails and there is an entry,
      whose timestamp a failure keeps. */
  predicate StaysPut(store: Store, a: Attempt, id: Id) {
    Skipped(a, id) || (RecordOf(store, id).serverFetch.Some? && !Succeeds(a, id))
  }

  ghost predicate ManualsStayPut(store: Store, events: seq<Interim>, x: Id) {
    forall i :: 0 <= i < |events| && events[i].Manual? && events[i].id == x ==> StaysPut(store, events[i].attempt, x)
  }

  /** No fetch of the device, in a tick or by hand, can move its stamp. */
  ghost predicate NeverMoves(store: Store, rounds: seq<Round>, x: Id) {
    forall i :: 0 <= i < |rounds| ==>
      StaysPut(store, AttemptOf(rounds[i].attempts, x), x) && ManualsStayPut(store, rounds[i].meanwhile, x)
  }

  lemma {:induction false} MeanwhileStuck(store: Store, events: seq<Interim>, x: Id)
    requires ManualsStayPut(store, events, x)
    ensures Stamp(Meanwhile(store, events), x) == Stamp(store, x)
    ensures RecordOf(store, x).serverFetch.Some? ==> RecordOf(Meanwhile(store, events), x).serverFetch.Some?
    decreases |events|
  {
    if events != [] {
      var n := |events| - 1;
      MeanwhileStuck(store, events[..n], x);
      var s := Meanwhile(store, events[..n]);
      if events[n].Manual? {
        FetchOneStamp(s, events[n].id, events[n].attempt, x);
        if events[n].id == x { FetchOneStuck(s, x, events[n].attempt); }
      }
    }
  }

  /** Each round has the stuck devices among its candidates. */
  ghost predicate Listed(store: Store, rounds: seq<Round>, stuck: set<Id>, budget: nat)
    decreases |rounds|
  {
    rounds == [] ||
    (ListedNow(store, rounds[0], stuck)
     && Listed(AfterRound(store, rounds[0], budget), rounds[1..], stuck, budget))
  }

  ghost predicate ListedNow(store: Store, r: Round, stuck: set<Id>) {
    var s := Meanwhile(store, r.meanwhile);
    Distinct(r.targets) && forall x :: x in stuck ==> x in Candidates(s, r.targets, r.now)
  }

  lemma FetchOneStuck(store: Store, x: Id, a: Attempt)
    requires StaysPut(store, a, x)
    ensures Stamp(FetchOne(store, x, a), x) == Stamp(store, x)
    ensures RecordOf(store, x).serverFetch.Some? ==> RecordOf(FetchOne(store, x, a), x).serverFetch.Some?
  {
  }

  lemma BatchDistinct(s: Store, ids: seq<Id>, budget: nat)
    requires Distinct(ids)
    ensures Distinct(Batch(s, ids, budget))
  {
    SortByDistinctKeys(ids, id => Stamp(s, id), (id: Id) => id);
  }

  /** What a round does to a device that is not fetched, or whose fetch stays put. */
  lemma RoundKeepsStamp(store: Store, r: Round, budget: nat, x: Id)
    requires Distinct(r.targets)
    requires !BatchHas(store, r, budget, x) || StaysPut(store, AttemptOf(r.attempts, x), x)
    requires ManualsStayPut(store, r.meanwhile, x)
    ensures Stamp(AfterRound(store, r, budget), x) == Stamp(store, x)
    ensures RecordOf(store, x).serverFetch.Some? ==> RecordOf(AfterRound(store, r, budget), x).serverFetch.Some?
  {
    var s := Meanwhile(store, r.meanwhile);
    MeanwhileStuck(store, r.meanwhile, x);
    RoundRow(store, r, budget, x);
    if BatchHas(store, r, budget, x) { FetchOneStuck(s, x, AttemptOf(r.attempts, x)); }
  }

  /** `k < budget` is needed: once as many stuck devices as the budget allows are older than `g`, and
      as long as they are listed, `g` is never served unless by hand. */
  lemma {:induction false} StuckDevicesStarve(store: Store, rounds: seq<Round>, stuck: set<Id>, budget: nat, g: Id)
    requires Listed(store, rounds, stuck, budget) && |stuck| >= budget && g !in stuck
    requires forall x :: x in stuck ==> Stamp(store, x) < Stamp(store, g) && NeverMoves(store, rounds, x)
    requires forall i :: 0 <= i < |rounds| ==> !ManuallyFetched(rounds[i].meanwhile, g)
    ensures !EverServed(store, rounds, budget, g)
    decreases |rounds|
  {
    if rounds != [] {
      var r, after := rounds[0], AfterRound(store, rounds[0], budget);
      PassedOver(store, r, stuck, budget, g);
      RoundKeepsStamp(store, r, budget, g);
      forall x | x in stuck ensures Stamp(after, x) < Stamp(after, g) && NeverMoves(after, rounds[1..], x) {
        RoundKeepsStamp(store, r, budget, x);
      }
      StuckDevicesStarve(after, rounds[1..], stuck, budget, g);
    }
  }

  lemma PassedOver(store: Store, r: Round, stuck: set<Id>, budget: nat, g: Id)
    requires ListedNow(store, r, stuck) && |stuck| >= budget && g !in stuck
    requires !ManuallyFetched(r.meanwhile, g)
    requires forall x :: x in stuck ==> Stamp(store, x) < Stamp(store, g) && ManualsStayPut(store, r.meanwhile, x)
    ensures !BatchHas(store, r, budget, g)
  {
    var s := Meanwhile(store, r.meanwhile);
    MeanwhileStuck(store, r.meanwhile, g);
    forall x | x in stuck ensures Stamp(s, x) < Stamp(s, g) { MeanwhileStuck(store, r.meanwhile, x); }
    BatchOverfull(s, Candidates(s, r.targets, r.now), budget, stuck, g);
  }

  lemma BatchOverfull(s: Store, ids: seq<Id>, budget: nat, stuck: set<Id>, g: Id)
    requires forall x :: x in stuck ==> x in ids && Stamp(s, x) < Stamp(s, g)
    requires |stuck| >= budget && g !in stuck
    ensures g !in Batch(s, ids, budget)
  {
    var batch := Batch(s, ids, budget);
    if g in batch {
      forall x | x in stuck ensures x in Elements(batch) {
        OlderComeFirst(s, ids, budget, g, x);
      }
      SubsetSize(stuck, {g}, Elements(batch));
      ElementsAtMost(batch);
    }
  }

  lemma {:induction false} ElementsAtMost(s: seq<Id>)
    ensures |Elements(s)| <= |s|
  {
    if s != [] {
      var n := |s| - 1;
      ElementsAtMost(s[..n]);
      assert s == s[..n] + [s[n]];
      assert Elements(s) == Elements(s[..n]) + {s[n]};
    }
  }

  // ---- the two halves together ----

  /** A run with a fixed set of stuck devices: each round lists all of them, none ever fetched with
      success, and otherwise healthy devices only, `g` among them. */
  ghost predicate SteadyRun(store: Store, rounds: seq<Round>, healthy: set<Id>, stuck: set<Id>, budget: nat, g: Id)
    decreases |rounds|
  {
    rounds == [] ||
    (SteadyRound(store, rounds[0], healthy, stuck, g)
     && SteadyRun(AfterRound(store, rounds[0], budget), rounds[1..], healthy, stuck, budget, g))
  }

  ghost predicate SteadyRound(store: Store, r: Round, healthy: set<Id>, stuck: set<Id>, g: Id) {
    && RoundOk(store, r, healthy, |stuck|, g) && ListedNow(store, r, stuck)
    && forall x :: x in stuck ==> !Succeeds(AttemptOf(r.attempts, x), x)
  }

  lemma {:induction false} SteadyIsOk(store: Store, rounds: seq<Round>, healthy: set<Id>, stuck: set<Id>,
                                      budget: nat, g: Id)
    requires SteadyRun(store, rounds, healthy, stuck, budget, g)
    ensures RoundsOk(store, rounds, healthy, |stuck|, budget, g)
    decreases |rounds|
  {
    if rounds != [] {
      SteadyIsOk(AfterRound(store, rounds[0], budget), rounds[1..], healthy, stuck, budget, g);
    }
  }

  /** Whatever the store and the run, `g` is served within `n` rounds. */
  ghost predicate ServedWithin(n: nat, healthy: set<Id>, stuck: set<Id>, budget: nat, g: Id) {
    forall store, rounds :: SteadyRun(store, rounds, healthy, stuck, budget, g) && |rounds| >= n ==>
      EverServed(store, rounds, budget, g)
  }

  /** Waiting is bounded exactly when fewer devices are stuck than a tick may fetch. */
  lemma WaitBoundedIff(healthy: set<Id>, stuck: set<Id>, budget: nat, g: Id)
    requires g in healthy && g != "" && healthy !! stuck
    ensures |stuck| < budget <==> exists n: nat :: ServedWithin(n, healthy, stuck, budget, g)
    ensures |stuck| < budget ==> ServedWithin(CeilDiv(|healthy|, budget - |stuck|), healthy, stuck, budget, g)
  {
    if |stuck| < budget {
      var n := CeilDiv(|healthy|, budget - |stuck|);
      forall store, rounds | SteadyRun(store, rounds, healthy, stuck, budget, g) && |rounds| >= n
        ensures EverServed(store, rounds, budget, g)
      {
        SteadyIsOk(store, rounds, healthy, stuck, budget, g);
        RotationBound(store, rounds, healthy, |stuck|, budget, g);
      }
      assert ServedWithin(n, healthy, stuck, budget, g);
    } else {
      forall n: nat ensures !ServedWithin(n, healthy, stuck, budget, g) {
        var store, rounds := StarvingRun(healthy, stuck, budget, g, n);
      }
    }
  }

  lemma {:induction false} ListOf(s: set<Id>) returns (l: seq<Id>)
    ensures Distinct(l) && forall x :: x in l <==> x in s
    decreases |s|
  {
    if s == {} {
      l := [];
    } else {
      var x :| x in s;
      l := ListOf(s - {x});
      l := l + [x];
    }
  }

  /** The store in which only `g` has ever been fetched. */
  function OnlyFetched(g: Id): Store {
    map[g := TwoSlot(Record(None, Some(Entry([], "", Some(1), None, ServerFetch))))]
  }

  function AttemptFor(x: Id, g: Id): Attempt {
    Attempt(Some(Device(x, if x == g then "apple" else "other", x == g)), Apps([]), 2)
  }

  lemma {:induction false} AllNeedFetch(store: Store, targets: seq<Id>, now: int)
    requires forall x :: RecordOf(store, x).selfReported.None?
    ensures Candidates(store, targets, now) == targets
  {
    if targets != [] {
      var n := |targets| - 1;
      AllNeedFetch(store, targets[..n], now);
      assert targets[..n] + [targets[n]] == targets;
    }
  }

  lemma {:induction false} SkippedBatch(store: Store, batch: seq<Id>, attempts: map<Id, Attempt>)
    requires forall x :: x in batch ==> Skipped(AttemptOf(attempts, x), x)
    ensures FetchAll(store, batch, attempts) == store
  {
    if batch != [] {
      var n := |batch| - 1;
      assert batch[n] in batch;
      SkippedBatch(store, batch[..n], attempts);
    }
  }

  /** A steady run of any length that never serves `g`, when as many are stuck as a tick may fetch:
      `g` has been fetched once, the stuck devices are on platforms without an applications endpoint. */
  lemma StarvingRun(healthy: set<Id>, stuck: set<Id>, budget: nat, g: Id, n: nat)
      returns (store: Store, rounds: seq<Round>)
    requires g in healthy && g != "" && healthy !! stuck && |stuck| >= budget
    ensures SteadyRun(store, rounds, healthy, stuck, budget, g) && |rounds| == n
    ensures !EverServed(store, rounds, budget, g)
  {
    var listed := ListOf(stuck);
    store := OnlyFetched(g);
    var attempts := map x | x in stuck + {g} :: AttemptFor(x, g);
    var r := Round([], [g] + listed, 0, attempts);
    rounds := Repeat(r, n);
    assert StarvingRound(r, healthy, stuck, g);
    SteadyStep(r, healthy, stuck, budget, g);
    Repeats(store, r, healthy, stuck, budget, g, n);
  }

  /** The round that every round of that run is. */
  ghost predicate StarvingRound(r: Round, healthy: set<Id>, stuck: set<Id>, g: Id) {
    && g in healthy && g != "" && healthy !! stuck
    && r.meanwhile == [] && Distinct(r.targets)
    && (forall x :: x in r.targets <==> x == g || x in stuck)
    && (forall x :: x == g || x in stuck ==> AttemptOf(r.attempts, x) == AttemptFor(x, g))
  }

  lemma SteadyStep(r: Round, healthy: set<Id>, stuck: set<Id>, budget: nat, g: Id)
    requires StarvingRound(r, healthy, stuck, g) && |stuck| >= budget
    ensures SteadyRound(OnlyFetched(g), r, healthy, stuck, g)
    ensures AfterRound(OnlyFetched(g), r, budget) == OnlyFetched(g) && !Serves(OnlyFetched(g), r, budget, g)
  {
    var store := OnlyFetched(g);
    AllNeedFetch(store, r.targets, r.now);
    StarvingRoundOk(r, healthy, stuck, g);
    PassedOver(store, r, stuck, budget, g);
    BatchWithin(store, r.targets, budget);
    NothingFetched(store, Batch(store, r.targets, budget), r, healthy, stuck, g);
  }

  lemma NothingFetched(store: Store, batch: seq<Id>, r: Round, healthy: set<Id>, stuck: set<Id>, g: Id)
    requires StarvingRound(r, healthy, stuck, g) && g !in batch && forall x :: x in batch ==> x in r.targets
    ensures FetchAll(store, batch, r.attempts) == store
  {
    forall x | x in batch ensures Skipped(AttemptOf(r.attempts, x), x) {
      assert AttemptOf(r.attempts, x) == AttemptFor(x, g);
    }
    SkippedBatch(store, batch, r.attempts);
  }

  lemma StarvingRoundOk(r: Round, healthy: set<Id>, stuck: set<Id>, g: Id)
    requires StarvingRound(r, healthy, stuck, g)
    requires Candidates(OnlyFetched(g), r.targets, r.now) == r.targets
    ensures SteadyRound(OnlyFetched(g), r, healthy, stuck, g)
  {
    assert Stamp(OnlyFetched(g), g) == 1;
    SubsetSize(Elements(r.targets) - healthy, {}, stuck);
    forall x | x in r.targets
      ensures AttemptOf(r.attempts, x).at == 2 && (x in healthy <==> Succeeds(AttemptOf(r.attempts, x), x))
    {
      assert AttemptOf(r.attempts, x) == AttemptFor(x, g);
    }
  }

  lemma BatchWithin(s: Store, ids: seq<Id>, budget: nat)
    ensures forall x :: x in Batch(s, ids, budget) ==> x in ids
  {
    forall x | x in Batch(s, ids, budget) ensures x in ids { assert x in Ranked(s, ids); }
  }

  lemma {:induction false} Repeats(store: Store, r: Round, healthy: set<Id>, stuck: set<Id>, budget: nat, g: Id, n: nat)
    requires SteadyRound(store, r, healthy, stuck, g) && AfterRound(store, r, budget) == store
    requires !Serves(store, r, budget, g)
    ensures SteadyRun(store, Repeat(r, n), healthy, stuck, budget, g)
    ensures !EverServed(store, Repeat(r, n), budget, g)
    decreases n
  {
    if n > 0 {
      assert Repeat(r, n)[1..] == Repeat(r, n - 1);
      Repeats(store, r, healthy, stuck, budget, g, n - 1);
    }
  }

  // ---- who is a candidate ----

  /** When the agent last reported with a timestamp, as the store has it. */
  function LastReport(store: Store, x: Id): Option<int> {
    match RecordOf(store, x).selfReported
    case None => None
    case Some(e) => e.fetchedAt
  }

  lemma {:induction false} CandidateExactly(store: Store, targets: seq<Id>, now: int, x: Id)
    ensures x in Candidates(store, targets, now) <==>
              x in targets && (LastReport(store, x) == None || now - LastReport(store, x).value > 150 * 60 * 1000)
  {
    if targets != [] {
      CandidateExactly(store, targets[..|targets| - 1], now, x);
      InitAndLast(targets);
    }
  }

  /** While its agent's last report is at most 150 minutes old, no tick fetches the device. */
  lemma FreshIsPassedOver(store: Store, r: Round, budget: nat, x: Id, at: int)
    requires LastReport(Meanwhile(store, r.meanwhile), x) == Some(at) && r.now <= at + 150 * 60 * 1000
    ensures !BatchHas(store, r, budget, x)
  {
    var s := Meanwhile(store, r.meanwhile);
    CandidateExactly(s, r.targets, r.now, x);
    BatchWithin(s, Candidates(s, r.targets, r.now), budget);
  }

  ghost predicate NoReports(events: seq<Interim>, x: Id) {
    forall i :: 0 <= i < |events| && events[i].Report? ==> events[i].id != x
  }

  lemma {:induction false} MeanwhileKeepsReport(store: Store, events: seq<Interim>, x: Id)
    requires NoReports(events, x)
    ensures RecordOf(Meanwhile(store, events), x).selfReported == RecordOf(store, x).selfReported
    decreases |events|
  {
    if events != [] { MeanwhileKeepsReport(store, events[..|events| - 1], x); }
  }

  lemma {:induction false} FetchAllKeepsReport(store: Store, batch: seq<Id>, attempts: map<Id, Attempt>, x: Id)
    ensures RecordOf(FetchAll(store, batch, attempts), x).selfReported == RecordOf(store, x).selfReported
    decreases |batch|
  {
    if batch != [] { FetchAllKeepsReport(store, batch[..|batch| - 1], attempts, x); }
  }

  lemma RoundKeepsReport(store: Store, r: Round, budget: nat, x: Id)
    requires NoReports(r.meanwhile, x)
    ensures LastReport(Meanwhile(store, r.meanwhile), x) == LastReport(store, x)
    ensures LastReport(AfterRound(store, r, budget), x) == LastReport(store, x)
  {
    var s := Meanwhile(store, r.meanwhile);
    MeanwhileKeepsReport(store, r.meanwhile, x);
    FetchAllKeepsReport(s, Batch(s, Candidates(s, r.targets, r.now), budget), r.attempts, x);
  }

  /** From now on the device is in scope and its agent silent, for more than 150 minutes already if it
      ever reported. */
  ghost predicate Silent(rounds: seq<Round>, g: Id, last: Option<int>) {
    forall i :: 0 <= i < |rounds| ==>
      && g in rounds[i].targets && NoReports(rounds[i].meanwhile, g)
      && (last.Some? ==> rounds[i].now > last.value + 150 * 60 * 1000)
  }

  ghost predicate RoundsFair(store: Store, rounds: seq<Round>, healthy: set<Id>, k: nat, budget: nat, g: Id)
    decreases |rounds|
  {
    rounds == [] ||
    (RoundFair(store, rounds[0], healthy, k, g)
     && RoundsFair(AfterRound(store, rounds[0], budget), rounds[1..], healthy, k, budget, g))
  }

  lemma {:induction false} SilentIsCandidate(store: Store, rounds: seq<Round>, healthy: set<Id>, k: nat, budget: nat,
                                             g: Id)
    requires RoundsFair(store, rounds, healthy, k, budget, g) && Silent(rounds, g, LastReport(store, g))
    ensures RoundsOk(store, rounds, healthy, k, budget, g)
    decreases |rounds|
  {
    if rounds != [] {
      var r := rounds[0];
      RoundKeepsReport(store, r, budget, g);
      CandidateExactly(Meanwhile(store, r.meanwhile), r.targets, r.now, g);
      SilentIsCandidate(AfterRound(store, r, budget), rounds[1..], healthy, k, budget, g);
    }
  }

  /** So the rotation bound holds for every healthy device in scope whose agent has gone silent. */
  lemma SilentDeviceIsServed(store: Store, rounds: seq<Round>, healthy: set<Id>, k: nat, budget: nat, g: Id)
    requires RoundsFair(store, rounds, healthy, k, budget, g) && Silent(rounds, g, LastReport(store, g))
    requires k < budget && g in healthy && |rounds| >= CeilDiv(|healthy|, budget - k)
    ensures EverServed(store, rounds, budget, g)
  {
    SilentIsCandidate(store, rounds, healthy, k, budget, g);
    RotationBound(store, rounds, healthy, k, budget, g);
  }
}
