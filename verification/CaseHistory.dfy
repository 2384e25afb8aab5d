/** How one case evolves along a run: what is never lost, what only a new SLA epoch may undo, and
    what a monitor pass does to every case. */
module CaseHistory {
  import opened Prelude
  import opened Cases
  import opened CaseStores
  import opened CaseRuns

  ghost predicate NewEpoch(w: World, w': World, id: Id)
    requires |w.log| <= |w'.log|
  {
    EpochStarted(id) in w'.log[|w.log|..]
  }

  ghost predicate Kept(before: Option<int>, after: Option<int>) { before.Some? ==> after == before }

  /** `w'` is a later table: the case is still there, its incident and birth unchanged, its
      violations only added to; and within one SLA epoch neither the clock start, nor an
      acknowledgement, nor a breach stamp is ever rewritten. */
  ghost predicate Continues(w: World, w': World, id: Id) {
    && id in w.cases && id in w'.cases
    && w.log <= w'.log
    && w'.cases[id].policyId == w.cases[id].policyId
    && w'.cases[id].deviceId == w.cases[id].deviceId
    && w'.cases[id].createdAt == w.cases[id].createdAt
    && w.cases[id].violationIds <= w'.cases[id].violationIds
    && (!NewEpoch(w, w', id) ==>
          && w'.cases[id].slaClockStartedAt == w.cases[id].slaClockStartedAt
          && Kept(w.cases[id].acknowledgedAt, w'.cases[id].acknowledgedAt)
          && Kept(w.cases[id].ackNotifiedAt, w'.cases[id].ackNotifiedAt)
          && Kept(w.cases[id].resolveNotifiedAt, w'.cases[id].resolveNotifiedAt))
  }

  lemma ContinuesTransitive(a: World, b: World, c: World, id: Id)
    requires Continues(a, b, id) && Continues(b, c, id)
    ensures Continues(a, c, id)
  {
    if !NewEpoch(a, c, id) {
      forall i | 0 <= i < |b.log| - |a.log| ensures b.log[|a.log|..][i] == c.log[|a.log|..][i] {
        assert b.log[|a.log| + i] == c.log[|a.log| + i];
      }
      assert !NewEpoch(a, b, id);
      assert c.log[|a.log|..][|b.log| - |a.log|..] == c.log[|b.log|..];
      assert !NewEpoch(b, c, id);
    }
  }

  lemma UpdateContinues(w: World, at: Id, p: Update, now: int, id: Id)
    requires id in w.cases
    ensures Continues(w, UpdateStep(w, at, p, now), id)
  {
    var w' := UpdateStep(w, at, p, now);
    if at == id && Accepts(w.cases[id], p) && Reopens(w.cases[id], p) {
      assert w'.log[|w.log|..] == [EpochStarted(id)];
    }
  }

  lemma {:induction false} BulkContinues(w: World, ids: seq<Id>, p: Update, now: int, id: Id)
    requires id in w.cases
    ensures Continues(w, BulkStep(w, ids, p, now), id)
    decreases |ids|
  {
    if ids != [] {
      var n := |ids| - 1;
      BulkContinues(w, ids[..n], p, now, id);
      UpdateContinues(BulkStep(w, ids[..n], p, now), ids[n], p, now, id);
      ContinuesTransitive(w, BulkStep(w, ids[..n], p, now), BulkStep(w, ids, p, now), id);
    }
  }

  lemma {:induction false} TicketPassContinues(w: World, seen: seq<(Id, bool)>, now: int, id: Id)
    requires id in w.cases
    ensures Continues(w, TicketTick(w, seen, now), id)
    decreases |seen|
  {
    if seen != [] {
      var n := |seen| - 1;
      TicketPassContinues(w, seen[..n], now, id);
      ContinuesTransitive(w, TicketTick(w, seen[..n], now), TicketTick(w, seen, now), id);
    }
  }

  lemma {:induction false} MonitorContinues(w: World, listed: seq<Id>, s: Settings, now: int, id: Id)
    requires id in w.cases && forall x :: x in listed ==> x in w.cases
    ensures Continues(w, SlaTick(w, listed, s, now), id)
    decreases |listed|
  {
    if listed != [] {
      var n := |listed| - 1;
      var w1 := SlaTick(w, listed[..n], s, now);
      assert listed[n] in listed;
      MonitorContinues(w, listed[..n], s, now, id);
      assert Continues(w1, SlaStep(w1, listed[n], s, now), id);
      ContinuesTransitive(w, w1, SlaTick(w, listed, s, now), id);
    }
  }

  lemma ViolationContinues(w: World, policy: Policy, target: Device, v: string, now: int, found: Option<Id>,
                           newId: Id, id: Id)
    requires id in w.cases && newId !in w.cases && IncidentFound(w.cases, policy, target, found)
    ensures Continues(w, ViolationStep(w, policy, target, v, now, found, newId), id)
  {
    var w' := ViolationStep(w, policy, target, v, now, found, newId);
    if found == Some(id) && !IsOpen(w.cases[id].status) {
      assert w'.log[|w.log|..] == [EpochStarted(id)];
    }
  }

  lemma StepContinues(w: World, s: Step, id: Id)
    requires Allowed(w, s) && id in w.cases
    ensures Continues(w, Apply(w, s), id)
  {
    match s {
      case Create(_, _, _, _, _, _) =>
      case Trigger(_, _, _, _, _) =>
      case Modify(at, p, now) => UpdateContinues(w, at, p, now, id);
      case Bulk(ids, p, now) => BulkContinues(w, ids, p, now, id);
      case Violation(policy, target, v, found, newId, now) =>
        ViolationContinues(w, policy, target, v, now, found, newId, id);
      case Recover(_, _, _, _) =>
      case Ticket(_, _, _) =>
      case TicketPass(seen, now) => TicketPassContinues(w, seen, now, id);
      case Monitor(listed, settings, now) => MonitorContinues(w, listed, settings, now, id);
      case Touch(_, _) =>
    }
  }

  /** Along any run, cases are never dropped, and an acknowledgement or breach stamp survives until
      the next SLA epoch of its case. */
  lemma {:induction false} RunContinues(w: World, run: seq<Step>, clock: int, id: Id)
    requires ValidRun(w, run, clock) && id in w.cases
    ensures Continues(w, After(w, run, clock), id)
    decreases |run|
  {
    if run != [] {
      StepContinues(w, run[0], id);
      RunContinues(Apply(w, run[0]), run[1..], run[0].now, id);
      ContinuesTransitive(w, Apply(w, run[0]), After(w, run, clock), id);
    } else {
      assert w.log[|w.log|..] == [];
    }
  }

  // ---- the monitor, exactly ----

  /** One pass stamps each listed case once, against its state at the start of the pass. */
  lemma {:induction false} MonitorStampsEach(w: World, listed: seq<Id>, s: Settings, now: int)
    requires Distinct(listed) && forall id :: id in listed ==> id in w.cases
    ensures forall id :: id in w.cases ==>
              SlaTick(w, listed, s, now).cases[id] == if id in listed then Stamped(w.cases[id], s, now) else w.cases[id]
    decreases |listed|
  {
    if listed != [] {
      var n := |listed| - 1;
      assert listed[n] in listed;
      MonitorStampsEach(w, listed[..n], s, now);
      assert listed == listed[..n] + [listed[n]];
      assert listed[n] !in listed[..n];
    }
  }

  /** After an enabled pass no open case is breached and unstamped; a stamp appears only on an open
      case whose clock has run out; and a second pass at the same time changes nothing. */
  lemma MonitorLeavesNoBreachUnstamped(w: World, listed: seq<Id>, s: Settings, now: int, id: Id)
    requires ListsOpen(w.cases, listed) && id in w.cases
    ensures var k, k' := w.cases[id], SlaTick(w, listed, s, now).cases[id];
            var due := SlaStatusOf(k, s.thresholds, now);
            && SlaStatusOf(k', s.thresholds, now) == due
            && (IsOpen(k.status) && due.ackBreached ==> k'.ackNotifiedAt.Some?)
            && (IsOpen(k.status) && due.resolveBreached ==> k'.resolveNotifiedAt.Some?)
            && (k'.ackNotifiedAt != k.ackNotifiedAt <==> IsOpen(k.status) && due.ackBreached && k.ackNotifiedAt.None?)
            && (k'.resolveNotifiedAt != k.resolveNotifiedAt <==>
                IsOpen(k.status) && due.resolveBreached && k.resolveNotifiedAt.None?)
            && (IsOpen(k.status) ==> Stamped(k', s, now) == k')
  {
    MonitorStampsEach(w, listed, s, now);
  }

  /** The invariant read off for one case: at most one report of each kind per epoch, stamped
      exactly when reported; closed exactly when stamped closed; acknowledged within its epoch. */
  lemma ReachableCase(run: seq<Step>, clock: int, id: Id)
    requires ValidRun(EMPTY, run, clock) && id in After(EMPTY, run, clock).cases
    ensures var w := After(EMPTY, run, clock);
            && ReportedThisEpoch(w.log, id, AckBreach) <= 1
            && ReportedThisEpoch(w.log, id, ResolveBreach) <= 1
            && (w.cases[id].ackNotifiedAt.Some? <==> ReportedThisEpoch(w.log, id, AckBreach) == 1)
            && (w.cases[id].resolveNotifiedAt.Some? <==> ReportedThisEpoch(w.log, id, ResolveBreach) == 1)
            && (w.cases[id].closedAt.Some? <==> !IsOpen(w.cases[id].status))
            && (w.cases[id].acknowledgedAt.Some? ==> w.cases[id].acknowledgedAt.value >= w.cases[id].slaClockStartedAt)
  {
    ReachableIsGood(run, clock);
    var w := After(EMPTY, run, clock);
    assert CaseOk(w.cases[id], EndClock(run, clock)) && StampsMatch(w.log, id, w.cases[id]);
  }

  /** The stamps in plain numbers. An enabled pass newly stamps an open case as unacknowledged exactly
      when the acknowledge minutes of its severity have passed since its clock started, and as
      unresolved exactly when the resolve minutes have. */
  lemma MonitorCountsMinutes(w: World, listed: seq<Id>, s: Settings, now: int, id: Id)
    requires ListsOpen(w.cases, listed) && id in w.cases && w.cases[id].severity in s.thresholds
    ensures var k, k', due := w.cases[id], SlaTick(w, listed, s, now).cases[id], s.thresholds[w.cases[id].severity];
            var passed := now - k.slaClockStartedAt;
            && k'.ackNotifiedAt ==
               (if k.status in {Open, Investigating} && k.ackNotifiedAt == None && k.acknowledgedAt == None
                   && passed > due.acknowledgeMinutes * 60_000 then Some(now) else k.ackNotifiedAt)
            && k'.resolveNotifiedAt ==
               (if k.status in {Open, Investigating} && k.resolveNotifiedAt == None
                   && passed > due.resolveMinutes * 60_000 then Some(now) else k.resolveNotifiedAt)
  {
    MonitorStampsEach(w, listed, s, now);
  }

  // ---- violations of one policy on one device ----

  /** The step's own law: whatever the lookups answered, the violation ends up on an open case of the
      pair, and on an old one whenever there is one. */
  lemma ViolationHasItsCase(w: World, policy: Policy, device: Device, v: string, now: int, found: Option<Id>, newId: Id)
      returns (id: Id)
    requires newId !in w.cases && IncidentFound(w.cases, policy, device, found)
    ensures var after := ViolationStep(w, policy, device, v, now, found, newId);
            && id in after.cases && HoldsViolation(after.cases[id], policy.id, device.id, v)
            && after.cases[id].status in {Open, Investigating} && after.owner == w.owner[v := id]
            && after.cases.Keys == w.cases.Keys + {id}
    ensures (exists x :: x in w.cases && OfPair(w.cases[x], policy.id, device.id)) ==> id in w.cases
  {
    id := if found.Some? then found.value else newId;
    if x :| x in w.cases && OfPair(w.cases[x], policy.id, device.id) {
      assert OpenFor(policy, device, w.cases[x]) || ClosedFor(policy, device, w.cases[x]);
    }
  }

  /** Some case of the pair holds the violation. */
  ghost predicate HasCase(w: World, policyId: string, deviceId: string, v: string) {
    exists id :: id in w.cases && HoldsViolation(w.cases[id], policyId, deviceId, v) && Owned(w, id, v)
  }

  lemma {:induction false} RaisedHasCase(w: World, run: seq<Step>, clock: int, i: nat)
    requires Good(w, clock) && ValidRun(w, run, clock) && i < |run| && run[i].Violation?
    ensures HasCase(After(w, run, clock), run[i].policy.id, run[i].target.id, run[i].v)
    decreases |run|
  {
    var s, next := run[0], Apply(w, run[0]);
    StepKeeps(w, s);
    if i > 0 {
      RaisedHasCase(next, run[1..], s.now, i - 1);
    } else {
      var id := ViolationHasItsCase(w, s.policy, s.target, s.v, s.now, s.found, s.newId);
      RunContinues(next, run[1..], s.now, id);
      RunKeeps(next, run[1..], s.now);
      var end := After(next, run[1..], s.now);
      assert s.v in end.cases[id].violationIds;
      assert Owned(end, id, s.v);
    }
  }

  /** All violations ever raised for one policy on one device are owned by one and the same case, and
      that case belongs to the pair. */
  lemma OneCaseForThePair(run: seq<Step>, clock: int, i: nat, j: nat)
    requires ValidRun(EMPTY, run, clock) && i < |run| && j < |run| && run[i].Violation? && run[j].Violation?
    requires run[i].policy.id == run[j].policy.id && run[i].target.id == run[j].target.id
    ensures var w := After(EMPTY, run, clock);
            && run[i].v in w.owner && run[j].v in w.owner && w.owner[run[i].v] == w.owner[run[j].v]
            && w.owner[run[i].v] in w.cases
            && OfPair(w.cases[w.owner[run[i].v]], run[i].policy.id, run[i].target.id)
  {
    RaisedHasCase(EMPTY, run, clock, i);
    RaisedHasCase(EMPTY, run, clock, j);
    ReachableIsGood(run, clock);
    var w := After(EMPTY, run, clock);
    var a := CaseOf(w, run[i].policy.id, run[i].target.id, run[i].v);
    var b := CaseOf(w, run[j].policy.id, run[j].target.id, run[j].v);
    assert SamePair(w.cases[a], w.cases[b]);
  }

  lemma CaseOf(w: World, policyId: string, deviceId: string, v: string) returns (id: Id)
    requires HasCase(w, policyId, deviceId, v)
    ensures id in w.cases && HoldsViolation(w.cases[id], policyId, deviceId, v) && Owned(w, id, v)
  {
    id :| id in w.cases && HoldsViolation(w.cases[id], policyId, deviceId, v) && Owned(w, id, v);
  }

  /** So once a violation was raised for a pair, no later one adds a case. */
  lemma LaterViolationAddsNoCase(run: seq<Step>, clock: int, i: nat, s: Step)
    requires ValidRun(EMPTY, run, clock) && i < |run| && run[i].Violation? && s.Violation?
    requires run[i].policy.id == s.policy.id && run[i].target.id == s.target.id
    requires Allowed(After(EMPTY, run, clock), s)
    ensures Apply(After(EMPTY, run, clock), s).cases.Keys == After(EMPTY, run, clock).cases.Keys
  {
    var w := After(EMPTY, run, clock);
    RaisedHasCase(EMPTY, run, clock, i);
    var first := CaseOf(w, s.policy.id, s.target.id, run[i].v);
    var id := ViolationHasItsCase(w, s.policy, s.target, s.v, s.now, s.found, s.newId);
  }

  /** A recovery or a finished ticket resolves a case outright; otherwise only its time of update moves. */
  lemma ResolvesOrTouches(w: World, id: Id, resolves: bool, now: int)
    requires id in w.cases
    ensures var k := w.cases[id];
            && RecoverStep(w, resolves, now, Some(id)).cases[id] ==
               (if resolves then k.(status := Resolved, closedAt := Some(now), updatedAt := now)
                else k.(updatedAt := now))
            && TicketStep(w, id, resolves, now).cases[id] ==
               (if resolves && k.status in {Open, Investigating}
                then k.(status := Resolved, closedAt := Some(now), updatedAt := now) else k.(updatedAt := now))
  {
  }
}
