/** The case table, its operations as atomic steps, and the imperative form of the operations.
    The log keeps, in order, when an SLA epoch began and which breaches were reported. */
module CaseStores {
  import opened Prelude
  import opened Cases

  datatype BreachKind = AckBreach | ResolveBreach

  datatype Event = EpochStarted(id: Id) | BreachReported(id: Id, kind: BreachKind)

  /** `owner` remembers which case each violation id was attached to when it was raised. */
  datatype World = World(cases: map<Id, Case>, log: seq<Event>, owner: map<string, Id>)

  const EMPTY := World(map[], [], map[])

  // ---- what `findFirst` may answer ----

  ghost predicate FoundFirst(cases: map<Id, Case>, p: Case -> bool, found: Option<Id>) {
    match found
    case Some(id) => id in cases && p(cases[id])
    case None => forall id :: id in cases ==> !p(cases[id])
  }

  ghost predicate OfPair(k: Case, policyId: string, deviceId: string) {
    k.policyId == Some(policyId) && k.deviceId == Some(deviceId)
  }

  ghost predicate HoldsViolation(k: Case, policyId: string, deviceId: string, v: string) {
    OfPair(k, policyId, deviceId) && v in k.violationIds
  }

  predicate OpenFor(policy: Policy, device: Device, k: Case) { SameIncident(k, policy, device) && IsOpen(k.status) }

  predicate ClosedFor(policy: Policy, device: Device, k: Case) { SameIncident(k, policy, device) && !IsOpen(k.status) }

  predicate OpenWith(violationId: string, k: Case) { violationId in k.violationIds && IsOpen(k.status) }

  /** The two lookups of a violation: an open case for the pair, else the latest closed one. */
  ghost predicate IncidentFound(cases: map<Id, Case>, policy: Policy, device: Device, found: Option<Id>) {
    || (found.Some? && FoundFirst(cases, k => OpenFor(policy, device, k), found))
    || (&& FoundFirst(cases, k => OpenFor(policy, device, k), None)
        && FoundFirst(cases, k => ClosedFor(policy, device, k), found)
        && (found.Some? ==> forall id :: id in cases && ClosedFor(policy, device, cases[id]) ==>
              cases[id].updatedAt <= cases[found.value].updatedAt))
  }

  // ---- steps ----

  function Opened(w: World, id: Id, k: Case): World {
    w.(cases := w.cases[id := k], log := w.log + [EpochStarted(id)])
  }

  function UpdateStep(w: World, id: Id, p: Update, now: int): World {
    if id !in w.cases then w
    else
      match UpdateOf(w.cases[id], p, now)
      case Rejected(_) => w
      case Updated(k, notice) =>
        World(w.cases[id := k], if notice.NotifyReopened? then w.log + [EpochStarted(id)] else w.log, w.owner)
  }

  function BulkStep(w: World, ids: seq<Id>, p: Update, now: int): World {
    if ids == [] then w else UpdateStep(BulkStep(w, ids[..|ids| - 1], p, now), ids[|ids| - 1], p, now)
  }

  /** `found` is the answer of the lookups, `newId` the id a new row would get. */
  function ViolationStep(w: World, policy: Policy, device: Device, v: string, now: int, found: Option<Id>,
                         newId: Id): World
    requires found.Some? ==> found.value in w.cases
  {
    match found
    case Some(id) =>
      if IsOpen(w.cases[id].status) then
        World(w.cases[id := Linked(w.cases[id], v, now)], w.log, w.owner[v := id])
      else
        World(w.cases[id := Recurred(w.cases[id], policy, v, now)], w.log + [EpochStarted(id)], w.owner[v := id])
    case None =>
      var o := Opened(w, newId, OpenedFor(policy, device, v, now));
      o.(owner := w.owner[v := newId])
  }

  function RecoverStep(w: World, autoResolve: bool, now: int, found: Option<Id>): World
    requires found.Some? ==> found.value in w.cases
  {
    match found
    case None => w
    case Some(id) =>
      var k := w.cases[id];
      w.(cases := w.cases[id := if autoResolve then AutoResolved(k, now) else k.(updatedAt := now)])
  }

  /** A linked ticket was looked at; `resolves` when it is newly done and its integration opts in. */
  function TicketStep(w: World, id: Id, resolves: bool, now: int): World {
    if id !in w.cases then w
    else
      var k := w.cases[id];
      w.(cases := w.cases[id := if resolves && IsOpen(k.status) then AutoResolved(k, now) else k.(updatedAt := now)])
  }

  /** The background sync only ever looks at cases that were open when it listed them. */
  function TicketTick(w: World, seen: seq<(Id, bool)>, now: int): World {
    if seen == [] then w
    else
      var n := |seen| - 1;
      TicketStep(TicketTick(w, seen[..n], now), seen[n].0, seen[n].1, now)
  }

  function Report(reported: bool, id: Id, kind: BreachKind): seq<Event> {
    if reported then [BreachReported(id, kind)] else []
  }

  function Reports(k: Case, k': Case, id: Id): seq<Event> {
    Report(k.ackNotifiedAt != k'.ackNotifiedAt, id, AckBreach)
    + Report(k.resolveNotifiedAt != k'.resolveNotifiedAt, id, ResolveBreach)
  }

  function SlaStep(w: World, id: Id, s: Settings, now: int): World
    requires id in w.cases
  {
    var k := w.cases[id];
    var k' := Stamped(k, s, now);
    w.(cases := w.cases[id := k'], log := w.log + Reports(k, k', id))
  }

  /** One monitor pass over the open cases, listed in some order. */
  function SlaTick(w: World, listed: seq<Id>, s: Settings, now: int): (r: World)
    requires forall id :: id in listed ==> id in w.cases
    ensures r.cases.Keys == w.cases.Keys
  {
    if listed == [] then w
    else
      var n := |listed| - 1;
      assert listed[n] in listed;
      SlaStep(SlaTick(w, listed[..n], s, now), listed[n], s, now)
  }

  ghost predicate ListsOpen(cases: map<Id, Case>, listed: seq<Id>) {
    && Distinct(listed)
    && (forall id :: id in listed <==> id in cases && IsOpen(cases[id].status))
  }

  lemma OneMoreBulk(w: World, ids: seq<Id>, p: Update, now: int, i: nat)
    requires i < |ids|
    ensures BulkStep(w, ids[..i + 1], p, now) == UpdateStep(BulkStep(w, ids[..i], p, now), ids[i], p, now)
    ensures multiset(ids[..i + 1]) == multiset(ids[..i]) + multiset{ids[i]}
  {
    assert ids[..i + 1][..i] == ids[..i];
    TakeOneMore(ids, i);
  }

  /** Without a severity, whether an update is accepted does not depend on the case. */
  lemma StatusAloneDecides(a: map<Id, Case>, b: map<Id, Case>, id: Id, p: Update)
    requires p.severity.None? && a.Keys == b.Keys
    ensures Takes(a, id, p) <==> Takes(b, id, p)
  {
    assert id in a.Keys <==> id in b.Keys;
  }

  ghost predicate Takes(cases: map<Id, Case>, id: Id, p: Update) { id in cases && Accepts(cases[id], p) }

  // ---- the same operations on stored rows ----

  class CaseStore {
    var cases: map<Id, Case>
    var log: seq<Event>
    ghost var owner: map<string, Id>

    constructor ()
      ensures View() == EMPTY
    {
      cases, log, owner := map[], [], map[];
    }

    ghost function View(): World
      reads this
    {
      World(cases, log, owner)
    }

    method CreateCase(newId: Id, title: string, severity: string, deviceId: Option<string>,
                      techniques: seq<string>, now: int)
        returns (ok: bool)
      modifies this
      ensures ok == KnownSeverity(severity)
      ensures View() ==
              if !ok then old(View())
              else Opened(old(View()), newId, NewCase(title, severity, None, deviceId, [], None, techniques, now))
    {
      if !KnownSeverity(severity) { return false; }
      cases := cases[newId := NewCase(title, severity, None, deviceId, [], None, techniques, now)];
      log := log + [EpochStarted(newId)];
      return true;
    }

    method UpdateCase(id: Id, p: Update, now: int) returns (code: int, notice: Notice)
      modifies this
      ensures View() == UpdateStep(old(View()), id, p, now)
      ensures code == (if id !in old(cases) then 404 else if Accepts(old(cases)[id], p) then 200 else 400)
      ensures notice == (if code == 200 then UpdateOf(old(cases)[id], p, now).notice else NoNotice)
    {
      if id !in cases { return 404, NoNotice; }
      var r := ReviseCase(cases[id], p, now);
      if r.Rejected? { return 400, NoNotice; }
      cases := cases[id := r.kase];
      if r.notice.NotifyReopened? {
        log := log + [EpochStarted(id)];
      }
      return 200, r.notice;
    }

    /** Applies one status/assignee change to many cases; a failing id never stops the others. */
    method BulkUpdateCases(ids: seq<Id>, status: Option<StatusText>, assignee: Option<string>, now: int)
        returns (ok: bool, updated: seq<Id>, failed: seq<Id>)
      modifies this
      ensures ok == (status.Some? || assignee.Some?)
      ensures View() == if ok then BulkStep(old(View()), ids, Update(None, status, None, assignee, None), now)
                        else old(View())
      ensures ok ==> multiset(updated) + multiset(failed) == multiset(ids)
      ensures ok ==> forall id :: id in failed ==>
                id !in old(cases) || !Accepts(old(cases)[id], Update(None, status, None, assignee, None))
      ensures ok ==> forall id :: id in updated ==>
                id in old(cases) && Accepts(old(cases)[id], Update(None, status, None, assignee, None))
    {
      updated, failed := [], [];
      if status.None? && assignee.None? { return false, [], []; }
      var p := Update(None, status, None, assignee, None);
      var i := 0;
      while i < |ids|
        invariant 0 <= i <= |ids|
        invariant View() == BulkStep(old(View()), ids[..i], p, now)
        invariant cases.Keys == old(cases).Keys
        invariant multiset(updated) + multiset(failed) == multiset(ids[..i])
        invariant forall id :: id in failed ==> !Takes(old(cases), id, p)
        invariant forall id :: id in updated ==> Takes(old(cases), id, p)
      {
        OneMoreBulk(old(View()), ids, p, now, i);
        StatusAloneDecides(cases, old(cases), ids[i], p);
        var taken := BulkOne(ids[i], p, now);
        if taken {
          updated := updated + [ids[i]];
        } else {
          failed := failed + [ids[i]];
        }
        i := i + 1;
      }
      assert ids[..i] == ids;
      return true, updated, failed;
    }

    method BulkOne(id: Id, p: Update, now: int) returns (taken: bool)
      modifies this
      ensures View() == UpdateStep(old(View()), id, p, now) && cases.Keys == old(cases).Keys
      ensures taken <==> Takes(old(cases), id, p)
    {
      var code, notice := UpdateCase(id, p, now);
      return code == 200;
    }

    method UpsertCaseForViolation(policy: Policy, device: Device, v: string, now: int, newId: Id)
        returns (caseId: Id, notice: Notice)
      modifies this
      ensures exists found ::
        (&& IncidentFound(old(cases), policy, device, found)
         && View() == ViolationStep(old(View()), policy, device, v, now, found, newId)
         && caseId == (if found.Some? then found.value else newId)
         && notice == (if found.None? then NotifyCreated
                       else if IsOpen(old(cases)[found.value].status) then NoNotice else NotifyReopened))
      // the case returned is an open one of the pair that holds the violation, an old one if there was any
      ensures caseId in cases && HoldsViolation(cases[caseId], policy.id, device.id, v)
      ensures cases[caseId].status in {Open, Investigating}
      ensures (exists id :: id in old(cases) && OfPair(old(cases)[id], policy.id, device.id)) ==> caseId in old(cases)
    {
      if exists id :: id in cases && OpenFor(policy, device, cases[id]) {
        var id :| id in cases && OpenFor(policy, device, cases[id]);
        assert IncidentFound(cases, policy, device, Some(id));
        cases := cases[id := Linked(cases[id], v, now)];
        owner := owner[v := id];
        return id, NoNotice;
      }
      var matches := set id | id in cases && ClosedFor(policy, device, cases[id]);
      if matches != {} {
        var id := LatestOf(matches);
        assert IncidentFound(cases, policy, device, Some(id));
        cases := cases[id := Recurred(cases[id], policy, v, now)];
        log := log + [EpochStarted(id)];
        owner := owner[v := id];
        return id, NotifyReopened;
      }
      assert forall id :: id in cases && ClosedFor(policy, device, cases[id]) ==> id in matches;
      assert IncidentFound(cases, policy, device, None);
      cases := cases[newId := OpenedFor(policy, device, v, now)];
      log := log + [EpochStarted(newId)];
      owner := owner[v := newId];
      return newId, NotifyCreated;
    }

    /** `orderBy: { updatedAt: "desc" }`, first row. */
    method LatestOf(ids: set<Id>) returns (best: Id)
      requires ids != {} && ids <= cases.Keys
      ensures best in ids && forall id :: id in ids ==> cases[id].updatedAt <= cases[best].updatedAt
    {
      best :| best in ids;
      var rest := ids - {best};
      while rest != {}
        invariant rest <= ids && best in ids
        invariant forall id :: id in ids - rest ==> cases[id].updatedAt <= cases[best].updatedAt
        decreases |rest|
      {
        var id :| id in rest;
        if cases[id].updatedAt > cases[best].updatedAt { best := id; }
        rest := rest - {id};
      }
    }

    /** A missing violation id (None or empty) recovers nothing. */
    method MarkCaseRecovered(v: Option<string>, autoResolve: bool, now: int) returns (acted: Option<Id>, notice: Notice)
      modifies this
      ensures NonEmpty(v).Some? ==> FoundFirst(old(cases), k => OpenWith(v.value, k), acted)
      ensures NonEmpty(v).None? ==> acted.None?
      ensures View() == RecoverStep(old(View()), autoResolve, now, acted)
      ensures notice == if acted.Some? && autoResolve then NotifyClosed else NoNotice
    {
      if v.None? || v.value == "" { return None, NoNotice; }
      if exists id :: id in cases && OpenWith(v.value, cases[id]) {
        var id :| id in cases && OpenWith(v.value, cases[id]);
        if autoResolve {
          cases := cases[id := AutoResolved(cases[id], now)];
          return Some(id), NotifyClosed;
        }
        cases := cases[id := cases[id].(updatedAt := now)];
        return Some(id), NoNotice;
      }
      return None, NoNotice;
    }

    /** On-demand ticket sync. `linked`: the case has a Jira or ServiceNow ticket. `newlyDone`: the
        auto-close setting of the integration behind the first newly resolved ticket, if any. */
    method SyncCaseTicketStatus(id: Id, linked: bool, newlyDone: Option<bool>, now: int)
        returns (code: int, autoClosed: bool)
      modifies this
      ensures code == if id !in old(cases) then 404 else if !linked then 400 else 200
      ensures View() == if code == 200 then TicketStep(old(View()), id, newlyDone == Some(true), now) else old(View())
      ensures autoClosed <==> code == 200 && newlyDone == Some(true) && IsOpen(old(cases)[id].status)
    {
      if id !in cases { return 404, false; }
      if !linked { return 400, false; }
      var kase := cases[id];
      if newlyDone.Some? && IsOpen(kase.status) && newlyDone.value {
        cases := cases[id := AutoResolved(kase, now)];
        return 200, true;
      }
      cases := cases[id := kase.(updatedAt := now)];
      return 200, false;
    }

    /** The background sync: `seen` lists open cases with a linked ticket, each with whether it is
        newly done under an auto-closing integration. */
    method RunTicketStatusSyncTick(seen: seq<(Id, bool)>, now: int)
      modifies this
      ensures View() == TicketTick(old(View()), seen, now)
    {
      var i := 0;
      while i < |seen|
        invariant 0 <= i <= |seen|
        invariant View() == TicketTick(old(View()), seen[..i], now)
      {
        assert seen[..i + 1][..i] == seen[..i];
        var (id, resolves) := seen[i];
        if id in cases {
          var k := cases[id];
          cases := cases[id := if resolves && IsOpen(k.status) then AutoResolved(k, now) else k.(updatedAt := now)];
        }
        i := i + 1;
      }
      assert seen[..i] == seen;
    }

    /** One pass of the SLA monitor over the open cases in the order the database lists them. */
    method RunCaseSlaMonitorTick(listed: seq<Id>, s: Settings, now: int)
      requires ListsOpen(cases, listed)
      modifies this
      ensures View() == if s.enabled then SlaTick(old(View()), listed, s, now) else old(View())
    {
      if !s.enabled { return; }
      var i := 0;
      while i < |listed|
        invariant 0 <= i <= |listed|
        invariant View() == SlaTick(old(View()), listed[..i], s, now)
        invariant cases.Keys == old(cases).Keys
      {
        assert listed[i] in listed && listed[..i + 1] == listed[..i] + [listed[i]];
        StampBreaches(listed[i], s, now);
        i := i + 1;
      }
      assert listed[..i] == listed;
    }

    /** Stamps and reports whatever one open case has newly breached. */
    method StampBreaches(id: Id, s: Settings, now: int)
      requires id in cases
      modifies this
      ensures View() == SlaStep(old(View()), id, s, now)
    {
      var kase := cases[id];
      var status := SlaStatusOf(kase, s.thresholds, now);
      var stamped := kase;
      if status.ackBreached && kase.ackNotifiedAt.None? {
        stamped := stamped.(ackNotifiedAt := Some(now), updatedAt := now);
        log := log + [BreachReported(id, AckBreach)];
      }
      if status.resolveBreached && kase.resolveNotifiedAt.None? {
        stamped := stamped.(resolveNotifiedAt := Some(now), updatedAt := now);
        log := log + [BreachReported(id, ResolveBreach)];
      }
      cases := cases[id := stamped];
    }
  }
}
