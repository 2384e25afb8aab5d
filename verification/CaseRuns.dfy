/** Invariants of the case table over every run of its operations. */
module CaseRuns {
  import opened Prelude
  import opened Cases
  import opened CaseStores

  datatype Step =
    | Create(newId: Id, title: string, severity: string, device: Option<string>, techniques: seq<string>, now: int)
    | Trigger(newId: Id, title: string, severity: string, device: Option<string>, now: int)
    | Modify(id: Id, p: Update, now: int)
    | Bulk(ids: seq<Id>, p: Update, now: int)
    | Violation(policy: Policy, target: Device, v: string, found: Option<Id>, newId: Id, now: int)
    | Recover(v: string, autoResolve: bool, found: Option<Id>, now: int)
    | Ticket(id: Id, resolves: bool, now: int)
    | TicketPass(seen: seq<(Id, bool)>, now: int)
    | Monitor(listed: seq<Id>, settings: Settings, now: int)
    | Touch(id: Id, now: int)

  /** New rows get unused ids, violations get unused ids, lookups answer truthfully. */
  ghost predicate Allowed(w: World, s: Step) {
    match s
    case Create(newId, _, severity, _, _, _) => newId !in w.cases && KnownSeverity(severity)
    case Trigger(newId, _, _, _, _) => newId !in w.cases
    case Violation(policy, target, v, found, newId, _) =>
      newId !in w.cases && v !in w.owner && IncidentFound(w.cases, policy, target, found)
    case Recover(v, _, found, _) => FoundFirst(w.cases, k => OpenWith(v, k), found)
    case Monitor(listed, settings, _) => ListsOpen(w.cases, listed) && settings.enabled
    case _ => true
  }

  ghost function Apply(w: World, s: Step): World
    requires Allowed(w, s)
  {
    match s
    case Create(newId, title, severity, device, techniques, now) =>
      Opened(w, newId, NewCase(title, severity, None, device, [], None, techniques, now))
    case Trigger(newId, title, severity, device, now) =>
      Opened(w, newId, NewCase(title, if severity == "" then "medium" else severity, None, device, [], None, [], now))
    case Modify(id, p, now) => UpdateStep(w, id, p, now)
    case Bulk(ids, p, now) => BulkStep(w, ids, p, now)
    case Violation(policy, target, v, found, newId, now) => ViolationStep(w, policy, target, v, now, found, newId)
    case Recover(_, autoResolve, found, now) => RecoverStep(w, autoResolve, now, found)
    case Ticket(id, resolves, now) => TicketStep(w, id, resolves, now)
    case TicketPass(seen, now) => TicketTick(w, seen, now)
    case Monitor(listed, settings, now) => SlaTick(w, listed, settings, now)
    case Touch(id, now) => TicketStep(w, id, false, now)
  }

  // ---- the invariant ----

  ghost predicate CaseOk(k: Case, clock: int) {
    && (k.closedAt.Some? <==> !IsOpen(k.status))
    && k.createdAt <= k.slaClockStartedAt <= clock
    && (k.acknowledgedAt.Some? ==> k.slaClockStartedAt <= k.acknowledgedAt.value <= clock)
    && (k.closedAt.Some? ==> k.closedAt.value <= clock)
    && (k.ackNotifiedAt.Some? ==> k.slaClockStartedAt <= k.ackNotifiedAt.value <= clock)
    && (k.resolveNotifiedAt.Some? ==> k.slaClockStartedAt <= k.resolveNotifiedAt.value <= clock)
    && (k.policyId.Some? ==> k.deviceId.Some?)
  }

  ghost predicate AllCasesOk(w: World, clock: int) {
    forall id :: id in w.cases ==> CaseOk(w.cases[id], clock)
  }

  ghost predicate SamePair(a: Case, b: Case) {
    a.policyId.Some? && a.policyId == b.policyId && a.deviceId == b.deviceId
  }

  ghost predicate OneCasePerIncident(w: World) {
    forall a, b :: a in w.cases && b in w.cases && SamePair(w.cases[a], w.cases[b]) ==> a == b
  }

  ghost predicate Owned(w: World, id: Id, v: string) { v in w.owner && w.owner[v] == id }

  ghost predicate ViolationsOwned(w: World) {
    && (forall v :: v in w.owner ==> w.owner[v] in w.cases && v in w.cases[w.owner[v]].violationIds)
    && (forall id, v :: id in w.cases && v in w.cases[id].violationIds ==> Owned(w, id, v))
  }

  /** How often a breach kind was reported for a case since its latest SLA epoch began. */
  function ReportedThisEpoch(log: seq<Event>, id: Id, kind: BreachKind): nat {
    if log == [] then 0
    else
      var n := |log| - 1;
      if log[n] == EpochStarted(id) then 0
      else ReportedThisEpoch(log[..n], id, kind) + (if log[n] == BreachReported(id, kind) then 1 else 0)
  }

  function Ones(stamp: Option<int>): nat { if stamp.Some? then 1 else 0 }

  /** A breach kind was reported once this epoch if its stamp is set, and never if it is not. */
  ghost predicate StampsMatch(log: seq<Event>, id: Id, k: Case) {
    && ReportedThisEpoch(log, id, AckBreach) == Ones(k.ackNotifiedAt)
    && ReportedThisEpoch(log, id, ResolveBreach) == Ones(k.resolveNotifiedAt)
  }

  ghost predicate AllStampsMatch(w: World) {
    forall id :: id in w.cases ==> StampsMatch(w.log, id, w.cases[id])
  }

  ghost predicate Good(w: World, clock: int) {
    AllCasesOk(w, clock) && OneCasePerIncident(w) && ViolationsOwned(w) && AllStampsMatch(w)
  }

  // ---- one row changes ----

  ghost predicate About(events: seq<Event>, id: Id) {
    forall i :: 0 <= i < |events| ==> events[i].id == id
  }

  lemma {:induction false} OthersUnreported(log: seq<Event>, events: seq<Event>, id: Id, other: Id, kind: BreachKind)
    requires About(events, id) && other != id
    ensures ReportedThisEpoch(log + events, other, kind) == ReportedThisEpoch(log, other, kind)
    decreases |events|
  {
    if events == [] {
      assert log + events == log;
    } else {
      var n := |events| - 1;
      OthersUnreported(log, events[..n], id, other, kind);
      assert (log + events)[..|log + events| - 1] == log + events[..n];
      assert (log + events)[|log + events| - 1] == events[n];
    }
  }

  /** Rewriting one row, keeping its incident and violations, disturbs no other row. */
  lemma RowChange(w: World, id: Id, k: Case, events: seq<Event>, clock: int)
    requires Good(w, clock) && id in w.cases && CaseOk(k, clock) && About(events, id)
    requires k.policyId == w.cases[id].policyId && k.deviceId == w.cases[id].deviceId
    requires k.violationIds == w.cases[id].violationIds
    requires StampsMatch(w.log + events, id, k)
    ensures Good(World(w.cases[id := k], w.log + events, w.owner), clock)
  {
    var w' := World(w.cases[id := k], w.log + events, w.owner);
    forall other | other in w'.cases ensures StampsMatch(w'.log, other, w'.cases[other]) {
      if other != id {
        OthersUnreported(w.log, events, id, other, AckBreach);
        OthersUnreported(w.log, events, id, other, ResolveBreach);
      }
    }
    assert OneCasePerIncident(w') by {
      forall a, b | a in w'.cases && b in w'.cases && SamePair(w'.cases[a], w'.cases[b]) ensures a == b {
        assert SamePair(w.cases[a], w.cases[b]);
      }
    }
    assert ViolationsOwned(w') by {
      forall x, v | x in w'.cases && v in w'.cases[x].violationIds ensures Owned(w', x, v) {
        assert Owned(w, x, v);
      }
    }
  }

  /** A fresh row for an incident no row has yet. */
  lemma RowAdded(w: World, id: Id, k: Case, clock: int)
    requires Good(w, clock) && id !in w.cases && CaseOk(k, clock) && k.violationIds == []
    requires k.ackNotifiedAt.None? && k.resolveNotifiedAt.None?
    requires forall other :: other in w.cases ==> !SamePair(k, w.cases[other])
    ensures Good(Opened(w, id, k), clock)
  {
    var w' := Opened(w, id, k);
    forall other | other in w'.cases ensures StampsMatch(w'.log, other, w'.cases[other]) {
      if other != id {
        OthersUnreported(w.log, [EpochStarted(id)], id, other, AckBreach);
        OthersUnreported(w.log, [EpochStarted(id)], id, other, ResolveBreach);
      }
    }
    forall other | other in w.cases ensures !SamePair(w.cases[other], k) {
      assert !SamePair(k, w.cases[other]);
    }
    assert OneCasePerIncident(w') by {
      forall a, b | a in w'.cases && b in w'.cases && SamePair(w'.cases[a], w'.cases[b]) ensures a == b {
        if a != id && b != id { assert SamePair(w.cases[a], w.cases[b]); }
      }
    }
    assert ViolationsOwned(w') by {
      forall x, v | x in w'.cases && v in w'.cases[x].violationIds ensures Owned(w', x, v) {
        assert Owned(w, x, v);
      }
    }
  }

  /** Attaching an unused violation id to one row. */
  lemma ViolationAttached(w: World, id: Id, v: string, clock: int)
    requires Good(w, clock) && id in w.cases && v !in w.owner
    ensures var k := w.cases[id];
            Good(World(w.cases[id := k.(violationIds := k.violationIds + [v])], w.log, w.owner[v := id]), clock)
  {
    var k := w.cases[id];
    var w' := World(w.cases[id := k.(violationIds := k.violationIds + [v])], w.log, w.owner[v := id]);
    assert OneCasePerIncident(w') by {
      forall a, b | a in w'.cases && b in w'.cases && SamePair(w'.cases[a], w'.cases[b]) ensures a == b {
        assert SamePair(w.cases[a], w.cases[b]);
      }
    }
    assert ViolationsOwned(w') by {
      forall x, u | x in w'.cases && u in w'.cases[x].violationIds ensures Owned(w', x, u) {
        if u in w.cases[x].violationIds { assert Owned(w, x, u); }
      }
      forall u | u in w'.owner ensures w'.owner[u] in w'.cases && u in w'.cases[w'.owner[u]].violationIds {
        if u != v { assert u in w.owner; }
      }
    }
  }

  lemma EpochCleared(log: seq<Event>, id: Id)
    ensures ReportedThisEpoch(log + [EpochStarted(id)], id, AckBreach) == 0
    ensures ReportedThisEpoch(log + [EpochStarted(id)], id, ResolveBreach) == 0
  {
  }

  // ---- each step keeps the invariant ----

  lemma UpdateKeeps(w: World, id: Id, p: Update, now: int)
    requires Good(w, now)
    ensures Good(UpdateStep(w, id, p, now), now)
    ensures UpdateStep(w, id, p, now).cases.Keys == w.cases.Keys
  {
    if id in w.cases && Accepts(w.cases[id], p) {
      var k := w.cases[id];
      var events := if Reopens(k, p) then [EpochStarted(id)] else [];
      EpochCleared(w.log, id);
      assert w.log + [] == w.log;
      RowChange(w, id, Revised(k, p, now), events, now);
    }
  }

  lemma {:induction false} BulkKeeps(w: World, ids: seq<Id>, p: Update, now: int)
    requires Good(w, now)
    ensures Good(BulkStep(w, ids, p, now), now)
    decreases |ids|
  {
    if ids != [] {
      BulkKeeps(w, ids[..|ids| - 1], p, now);
      UpdateKeeps(BulkStep(w, ids[..|ids| - 1], p, now), ids[|ids| - 1], p, now);
    }
  }

  lemma RecurrenceKeeps(w: World, policy: Policy, v: string, now: int, id: Id)
    requires Good(w, now) && id in w.cases && v !in w.owner
    ensures var k := w.cases[id];
            Good(World(w.cases[id := Recurred(k, policy, v, now)], w.log + [EpochStarted(id)], w.owner[v := id]), now)
  {
    var k := w.cases[id];
    var bare := Recurred(k, policy, v, now).(violationIds := k.violationIds);
    EpochCleared(w.log, id);
    RowChange(w, id, bare, [EpochStarted(id)], now);
    var w1 := World(w.cases[id := bare], w.log + [EpochStarted(id)], w.owner);
    ViolationAttached(w1, id, v, now);
    assert w1.cases[id := Recurred(k, policy, v, now)] == w.cases[id := Recurred(k, policy, v, now)];
  }

  lemma LinkKeeps(w: World, v: string, now: int, id: Id)
    requires Good(w, now) && id in w.cases && v !in w.owner
    ensures Good(World(w.cases[id := Linked(w.cases[id], v, now)], w.log, w.owner[v := id]), now)
  {
    var k := w.cases[id];
    assert w.log + [] == w.log;
    RowChange(w, id, k.(updatedAt := now), [], now);
    var w1 := World(w.cases[id := k.(updatedAt := now)], w.log, w.owner);
    ViolationAttached(w1, id, v, now);
    assert w1.cases[id := Linked(k, v, now)] == w.cases[id := Linked(k, v, now)];
  }

  lemma FirstIncidentKeeps(w: World, k: Case, v: string, now: int, newId: Id)
    requires Good(w, now) && newId !in w.cases && v !in w.owner && k.violationIds == [v]
    requires CaseOk(k, now) && k.ackNotifiedAt.None? && k.resolveNotifiedAt.None?
    requires forall other :: other in w.cases ==> !SamePair(k, w.cases[other])
    ensures Good(Opened(w, newId, k).(owner := w.owner[v := newId]), now)
  {
    var bare := k.(violationIds := []);
    forall other | other in w.cases ensures !SamePair(bare, w.cases[other]) {
      assert !SamePair(k, w.cases[other]);
    }
    RowAdded(w, newId, bare, now);
    var w1 := Opened(w, newId, bare);
    ViolationAttached(w1, newId, v, now);
    assert [] + [v] == [v];
    assert w1.cases[newId := k] == w.cases[newId := k];
  }

  lemma ViolationKeeps(w: World, policy: Policy, device: Device, v: string, now: int, found: Option<Id>, newId: Id)
    requires Good(w, now) && newId !in w.cases && v !in w.owner && IncidentFound(w.cases, policy, device, found)
    ensures Good(ViolationStep(w, policy, device, v, now, found, newId), now)
  {
    if found.None? {
      var k := OpenedFor(policy, device, v, now);
      forall other | other in w.cases ensures !SamePair(k, w.cases[other]) {
        assert !OpenFor(policy, device, w.cases[other]) && !ClosedFor(policy, device, w.cases[other]);
      }
      FirstIncidentKeeps(w, k, v, now, newId);
    } else if IsOpen(w.cases[found.value].status) {
      LinkKeeps(w, v, now, found.value);
    } else {
      RecurrenceKeeps(w, policy, v, now, found.value);
    }
  }

  lemma TicketKeeps(w: World, id: Id, resolves: bool, now: int)
    requires Good(w, now)
    ensures Good(TicketStep(w, id, resolves, now), now)
  {
    if id in w.cases {
      assert w.log + [] == w.log;
      RowChange(w, id, TicketStep(w, id, resolves, now).cases[id], [], now);
    }
  }

  lemma {:induction false} TicketPassKeeps(w: World, seen: seq<(Id, bool)>, now: int)
    requires Good(w, now)
    ensures Good(TicketTick(w, seen, now), now)
    decreases |seen|
  {
    if seen != [] {
      var n := |seen| - 1;
      TicketPassKeeps(w, seen[..n], now);
      TicketKeeps(TicketTick(w, seen[..n], now), seen[n].0, seen[n].1, now);
    }
  }

  lemma RecoverKeeps(w: World, autoResolve: bool, now: int, found: Option<Id>)
    requires Good(w, now)
    requires found.Some? ==> found.value in w.cases && IsOpen(w.cases[found.value].status)
    ensures Good(RecoverStep(w, autoResolve, now, found), now)
  {
    if found.Some? {
      TicketKeeps(w, found.value, autoResolve, now);
    }
  }

  lemma MaybeReported(log: seq<Event>, id: Id, kind: BreachKind, asked: BreachKind, reported: bool)
    ensures ReportedThisEpoch(log + Report(reported, id, kind), id, asked)
         == ReportedThisEpoch(log, id, asked) + (if reported && kind == asked then 1 else 0)
  {
    if reported {
      assert (log + [BreachReported(id, kind)])[..|log|] == log;
    } else {
      assert log + [] == log;
    }
  }

  lemma BothReported(log: seq<Event>, id: Id, ack: seq<Event>, resolve: seq<Event>, asked: BreachKind)
    requires ack == Report(|ack| > 0, id, AckBreach) && resolve == Report(|resolve| > 0, id, ResolveBreach)
    ensures ReportedThisEpoch(log + (ack + resolve), id, asked)
         == ReportedThisEpoch(log, id, asked) + |if asked.AckBreach? then ack else resolve|
  {
    MaybeReported(log, id, AckBreach, asked, |ack| > 0);
    MaybeReported(log + ack, id, ResolveBreach, asked, |resolve| > 0);
    Assoc(log, ack, resolve);
  }

  lemma ReportsMatch(log: seq<Event>, id: Id, k: Case, s: Settings, now: int)
    requires StampsMatch(log, id, k)
    ensures StampsMatch(log + Reports(k, Stamped(k, s, now), id), id, Stamped(k, s, now))
    ensures About(Reports(k, Stamped(k, s, now), id), id)
  {
    var k' := Stamped(k, s, now);
    var ack := Report(k.ackNotifiedAt != k'.ackNotifiedAt, id, AckBreach);
    var resolve := Report(k.resolveNotifiedAt != k'.resolveNotifiedAt, id, ResolveBreach);
    BothReported(log, id, ack, resolve, AckBreach);
    BothReported(log, id, ack, resolve, ResolveBreach);
  }

  lemma {:induction false} MonitorKeeps(w: World, listed: seq<Id>, s: Settings, now: int)
    requires Good(w, now) && forall id :: id in listed ==> id in w.cases
    ensures Good(SlaTick(w, listed, s, now), now)
    decreases |listed|
  {
    if listed != [] {
      var n := |listed| - 1;
      MonitorKeeps(w, listed[..n], s, now);
      var w1 := SlaTick(w, listed[..n], s, now);
      var id := listed[n];
      assert id in listed;
      ReportsMatch(w1.log, id, w1.cases[id], s, now);
      RowChange(w1, id, Stamped(w1.cases[id], s, now), Reports(w1.cases[id], Stamped(w1.cases[id], s, now), id), now);
    }
  }

  lemma StepKeeps(w: World, s: Step)
    requires Good(w, s.now) && Allowed(w, s)
    ensures Good(Apply(w, s), s.now)
  {
    match s {
      case Create(newId, title, severity, device, techniques, now) =>
        RowAdded(w, newId, NewCase(title, severity, None, device, [], None, techniques, now), now);
      case Trigger(newId, title, severity, device, now) =>
        var known := if severity == "" then "medium" else severity;
        RowAdded(w, newId, NewCase(title, known, None, device, [], None, [], now), now);
      case Modify(id, p, now) => UpdateKeeps(w, id, p, now);
      case Bulk(ids, p, now) => BulkKeeps(w, ids, p, now);
      case Violation(policy, target, v, found, newId, now) => ViolationKeeps(w, policy, target, v, now, found, newId);
      case Recover(_, autoResolve, found, now) => RecoverKeeps(w, autoResolve, now, found);
      case Ticket(id, resolves, now) => TicketKeeps(w, id, resolves, now);
      case TicketPass(seen, now) => TicketPassKeeps(w, seen, now);
      case Monitor(listed, settings, now) => MonitorKeeps(w, listed, settings, now);
      case Touch(id, now) => TicketKeeps(w, id, false, now);
    }
  }

  // ---- runs ----

  ghost predicate ValidRun(w: World, run: seq<Step>, clock: int)
    decreases |run|
  {
    run == [] || (clock <= run[0].now && Allowed(w, run[0]) && ValidRun(Apply(w, run[0]), run[1..], run[0].now))
  }

  ghost function After(w: World, run: seq<Step>, clock: int): World
    requires ValidRun(w, run, clock)
    decreases |run|
  {
    if run == [] then w else After(Apply(w, run[0]), run[1..], run[0].now)
  }

  function EndClock(run: seq<Step>, clock: int): int { if run == [] then clock else run[|run| - 1].now }

  lemma {:induction false} RunKeeps(w: World, run: seq<Step>, clock: int)
    requires Good(w, clock) && ValidRun(w, run, clock)
    ensures Good(After(w, run, clock), EndClock(run, clock))
    decreases |run|
  {
    if run != [] {
      assert Good(w, run[0].now);
      StepKeeps(w, run[0]);
      RunKeeps(Apply(w, run[0]), run[1..], run[0].now);
    }
  }

  /** Every world reachable from an empty table is good: lifecycle fields agree with the status,
      each incident has one case, each violation one owner, each stamp one report. */
  lemma ReachableIsGood(run: seq<Step>, clock: int)
    requires ValidRun(EMPTY, run, clock)
    ensures Good(After(EMPTY, run, clock), EndClock(run, clock))
  {
    RunKeeps(EMPTY, run, clock);
  }

  /** The case a violation was attached to, if that case is still open. */
  ghost function StillOpen(w: World, v: string): Option<Id> {
    if v in w.owner && w.owner[v] in w.cases && IsOpen(w.cases[w.owner[v]].status) then Some(w.owner[v]) else None
  }

  /** Recovery looks for any open case holding the violation; on every reachable table that is the
      very case the violation was attached to, and it is found exactly while that case is open. */
  lemma RecoveryHitsItsOwnCase(run: seq<Step>, clock: int, v: string, found: Option<Id>)
    requires ValidRun(EMPTY, run, clock)
    requires FoundFirst(After(EMPTY, run, clock).cases, k => OpenWith(v, k), found)
    ensures found == StillOpen(After(EMPTY, run, clock), v)
  {
    ReachableIsGood(run, clock);
    var w := After(EMPTY, run, clock);
    if found.Some? {
      assert Owned(w, found.value, v);
    } else if v in w.owner {
      assert !OpenWith(v, w.cases[w.owner[v]]);
    }
  }

  /** The two lookups of a violation can only ever find the one case of that incident, so the
      order in which the database lists rows does not matter. */
  lemma IncidentLookupIsUnique(run: seq<Step>, clock: int, policy: Policy, device: Device, a: Option<Id>, b: Option<Id>)
    requires ValidRun(EMPTY, run, clock)
    requires IncidentFound(After(EMPTY, run, clock).cases, policy, device, a)
    requires IncidentFound(After(EMPTY, run, clock).cases, policy, device, b)
    ensures a == b
  {
    ReachableIsGood(run, clock);
    var w := After(EMPTY, run, clock);
    if a.Some? && b.Some? {
      assert SamePair(w.cases[a.value], w.cases[b.value]);
    }
  }
}
