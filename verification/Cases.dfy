/** Cases of one workspace: the record, and what each exported operation does to it. Operations
    are atomic steps; times are milliseconds supplied by the caller. */
module Cases {
  import opened Prelude

  type Id = string

  datatype Status = Open | Investigating | Resolved | Closed | FalsePositive

  predicate IsOpen(s: Status) { s.Open? || s.Investigating? }

  /** A requested status: one of the five the schema lists, or any other text. */
  datatype StatusText = Named(status: Status) | Unknown(text: string)

  const SEVERITIES: seq<string> := ["low", "medium", "high", "critical"]

  predicate KnownSeverity(s: string) { s in SEVERITIES }

  datatype Case = Case(
    title: string, status: Status, severity: string,
    policyId: Option<string>, deviceId: Option<string>, violationIds: seq<string>,
    assignee: Option<string>, techniques: seq<string>,
    createdAt: int, updatedAt: int, closedAt: Option<int>,
    acknowledgedAt: Option<int>, slaClockStartedAt: int,
    ackNotifiedAt: Option<int>, resolveNotifiedAt: Option<int>)

  /** A freshly inserted row: open, never acknowledged unless born with an assignee. */
  function NewCase(title: string, severity: string, policyId: Option<string>, deviceId: Option<string>,
                   violationIds: seq<string>, assignee: Option<string>, techniques: seq<string>, now: int): Case
  {
    Case(title, Open, severity, policyId, deviceId, violationIds, assignee, techniques, now, now, None,
         if assignee.Some? then Some(now) else None, now, None, None)
  }

  /** `s || null` for an optional string */
  function NonEmpty(s: Option<string>): Option<string> { if s == Some("") then None else s }

  // ---- update ----

  datatype Update = Update(
    title: Option<string>, status: Option<StatusText>, severity: Option<string>,
    assignee: Option<string>, techniques: Option<seq<string>>)

  datatype Notice = NoNotice | NotifyCreated | NotifyClosed | NotifyReopened

  datatype UpdateResult = Rejected(code: int) | Updated(kase: Case, notice: Notice)

  /** The request is well formed for this case. Only a changed severity or status is checked. */
  predicate Accepts(k: Case, p: Update) {
    && (p.severity.None? || p.severity.value == k.severity || KnownSeverity(p.severity.value))
    && (p.status.None? || p.status.value.Named?)
  }

  function TargetStatus(k: Case, p: Update): Status
    requires Accepts(k, p)
  {
    if p.status.Some? then p.status.value.status else k.status
  }

  predicate Reopens(k: Case, p: Update)
    requires Accepts(k, p)
  {
    !IsOpen(k.status) && IsOpen(TargetStatus(k, p))
  }

  predicate Closes(k: Case, p: Update)
    requires Accepts(k, p)
  {
    IsOpen(k.status) && !IsOpen(TargetStatus(k, p))
  }

  /** The request newly assigns somebody, or newly moves the case to investigating. */
  predicate TakesUp(k: Case, p: Update)
    requires Accepts(k, p)
  {
    || (p.assignee.Some? && p.assignee.value != "" && p.assignee != k.assignee)
    || (k.status != Investigating && TargetStatus(k, p) == Investigating)
  }

  /** The row an accepted update leaves, field by field. A reopening starts a fresh SLA epoch and
      discards any acknowledgement, even one the same request would have made. */
  function Revised(k: Case, p: Update, now: int): Case
    requires Accepts(k, p)
  {
    Case(
      if p.title.Some? then p.title.value else k.title,
      TargetStatus(k, p),
      if p.severity.Some? then p.severity.value else k.severity,
      k.policyId, k.deviceId, k.violationIds,
      if p.assignee.Some? && p.assignee != k.assignee then NonEmpty(p.assignee) else k.assignee,
      if p.techniques.Some? then p.techniques.value else k.techniques,
      k.createdAt, now,
      if Closes(k, p) then Some(now) else if Reopens(k, p) then None else k.closedAt,
      if Reopens(k, p) then None
      else if k.acknowledgedAt.Some? then k.acknowledgedAt
      else if TakesUp(k, p) then Some(now) else None,
      if Reopens(k, p) then now else k.slaClockStartedAt,
      if Reopens(k, p) then None else k.ackNotifiedAt,
      if Reopens(k, p) then None else k.resolveNotifiedAt)
  }

  function UpdateOf(k: Case, p: Update, now: int): UpdateResult {
    if !Accepts(k, p) then Rejected(400)
    else Updated(Revised(k, p, now),
                 if Closes(k, p) then NotifyClosed else if Reopens(k, p) then NotifyReopened else NoNotice)
  }

  /** Examines the request field by field, as the source does, accumulating what to write. */
  method ReviseCase(k: Case, p: Update, now: int) returns (r: UpdateResult)
    ensures r == UpdateOf(k, p, now)
  {
    var title, severity, assignee, techniques := k.title, k.severity, k.assignee, k.techniques;
    if p.title.Some? && p.title.value != k.title {
      title := p.title.value;
    }
    if p.severity.Some? && p.severity.value != k.severity {
      if !KnownSeverity(p.severity.value) { return Rejected(400); }
      severity := p.severity.value;
    }
    var newAck: Option<Option<int>> := None;
    if p.assignee.Some? && p.assignee != k.assignee {
      assignee := NonEmpty(p.assignee);
      if k.acknowledgedAt.None? && p.assignee.value != "" { newAck := Some(Some(now)); }
    }
    if p.techniques.Some? && p.techniques.value != k.techniques {
      techniques := p.techniques.value;
    }
    var status, closedAt, slaClock := k.status, k.closedAt, k.slaClockStartedAt;
    var ackNotified, resolveNotified, notice := k.ackNotifiedAt, k.resolveNotifiedAt, NoNotice;
    if p.status.Some? && p.status.value != Named(k.status) {
      if p.status.value.Unknown? { return Rejected(400); }
      status := p.status.value.status;
      var wasClosed, nowClosed := !IsOpen(k.status), !IsOpen(status);
      if k.acknowledgedAt.None? && newAck.None? && status == Investigating { newAck := Some(Some(now)); }
      if nowClosed && !wasClosed {
        closedAt, notice := Some(now), NotifyClosed;
      } else if !nowClosed && wasClosed {
        closedAt, notice, newAck := None, NotifyReopened, Some(None);
        slaClock, ackNotified, resolveNotified := now, None, None;
      }
    }
    return Updated(
      Case(title, status, severity, k.policyId, k.deviceId, k.violationIds, assignee, techniques,
           k.createdAt, now, closedAt, if newAck.Some? then newAck.value else k.acknowledgedAt,
           slaClock, ackNotified, resolveNotified),
      notice);
  }

  // ---- violations ----

  datatype Policy = Policy(
    id: string, name: string, severity: Option<string>, techniques: seq<string>, caseAssignee: Option<string>)
  datatype Device = Device(id: string, displayName: Option<string>)

  predicate SameIncident(k: Case, policy: Policy, device: Device) {
    k.policyId == Some(policy.id) && k.deviceId == Some(device.id)
  }

  function Linked(k: Case, violationId: string, now: int): Case {
    k.(violationIds := k.violationIds + [violationId], updatedAt := now)
  }

  function Recurred(k: Case, policy: Policy, violationId: string, now: int): Case {
    k.(status := Open, closedAt := None, updatedAt := now, violationIds := k.violationIds + [violationId],
       assignee := NonEmpty(policy.caseAssignee),
       acknowledgedAt := if NonEmpty(policy.caseAssignee).Some? then Some(now) else None,
       slaClockStartedAt := now, ackNotifiedAt := None, resolveNotifiedAt := None,
       techniques := policy.techniques)
  }

  function OpenedFor(policy: Policy, device: Device, violationId: string, now: int): Case {
    var shown := if device.displayName.Some? then device.displayName.value else device.id;
    NewCase(shown + " \U{2014} " + policy.name, if policy.severity.Some? then policy.severity.value else "medium",
            Some(policy.id), Some(device.id), [violationId], NonEmpty(policy.caseAssignee), policy.techniques, now)
  }

  function AutoResolved(k: Case, now: int): Case {
    k.(status := Resolved, closedAt := Some(now), updatedAt := now)
  }

  // ---- SLA ----

  datatype Threshold = Threshold(acknowledgeMinutes: int, resolveMinutes: int)
  datatype Settings = Settings(enabled: bool, notifyOnBreach: bool, thresholds: map<string, Threshold>)

  const DEFAULT_THRESHOLDS: map<string, Threshold> :=
    map["low" := Threshold(480, 4320), "medium" := Threshold(240, 1440),
        "high" := Threshold(60, 480), "critical" := Threshold(15, 240)]

  /** Stored thresholds win; a severity they lack gets its default. */
  function Backfilled(stored: map<string, Threshold>): (r: map<string, Threshold>)
    ensures stored.Keys <= r.Keys && DEFAULT_THRESHOLDS.Keys <= r.Keys
    ensures forall s :: s in stored ==> r[s] == stored[s]
    ensures forall s :: s in r && s !in stored ==> s in DEFAULT_THRESHOLDS && r[s] == DEFAULT_THRESHOLDS[s]
  {
    DEFAULT_THRESHOLDS + stored
  }

  function ThresholdFor(thresholds: map<string, Threshold>, severity: string): Threshold {
    if severity in thresholds then thresholds[severity]
    else if severity in DEFAULT_THRESHOLDS then DEFAULT_THRESHOLDS[severity]
    else Threshold(240, 1440)
  }

  datatype SlaStatus = SlaStatus(
    ackDueAt: Option<int>, ackBreached: bool, resolveDueAt: Option<int>, resolveBreached: bool)

  function SlaStatusOf(k: Case, thresholds: map<string, Threshold>, now: int): SlaStatus {
    var sla := ThresholdFor(thresholds, k.severity);
    var ackDue := k.slaClockStartedAt + sla.acknowledgeMinutes * 60_000;
    var resolveDue := k.slaClockStartedAt + sla.resolveMinutes * 60_000;
    SlaStatus(
      if k.acknowledgedAt.None? then Some(ackDue) else None,
      k.acknowledgedAt.None? && now > ackDue,
      if IsOpen(k.status) then Some(resolveDue) else None,
      IsOpen(k.status) && now > resolveDue)
  }

  /** The stamping half of the monitor, for one open case. */
  function Stamped(k: Case, s: Settings, now: int): Case {
    var status := SlaStatusOf(k, s.thresholds, now);
    var stampAck := status.ackBreached && k.ackNotifiedAt.None?;
    var stampResolve := status.resolveBreached && k.resolveNotifiedAt.None?;
    k.(ackNotifiedAt := if stampAck then Some(now) else k.ackNotifiedAt,
       resolveNotifiedAt := if stampResolve then Some(now) else k.resolveNotifiedAt,
       updatedAt := if stampAck || stampResolve then now else k.updatedAt)
  }

  // ---- acknowledgement, exactly ----

  /** The schema promises an acknowledgement the first time a case gets an assignee or moves to
      investigating. For an update that takes the case up, that is what happens exactly when the
      update does not also reopen the case: a reopening request discards it. */
  lemma TakeUpAcknowledges(k: Case, p: Update, now: int)
    requires Accepts(k, p) && TakesUp(k, p)
    ensures Revised(k, p, now).acknowledgedAt.Some? <==> !Reopens(k, p)
  {
  }

  /** The consequence: a closed case sent straight back to investigating is unacknowledged, and a
      second identical request does not repair it. */
  lemma ReopenedIntoInvestigating(k: Case, now: int, later: int)
    requires !IsOpen(k.status)
    ensures var p := Update(None, Some(Named(Investigating)), None, None, None);
            && Accepts(k, p)
            && Revised(k, p, now).status == Investigating
            && Revised(k, p, now).acknowledgedAt.None?
            && Accepts(Revised(k, p, now), p)
            && Revised(Revised(k, p, now), p, later).acknowledgedAt.None?
  {
  }

  // ---- what the rows say ----

  /** An accepted update sets what it names and keeps the rest; an empty assignee clears the field.
      It never moves a case to another incident. */
  lemma UpdateSetsWhatItNames(k: Case, p: Update, now: int)
    requires Accepts(k, p) && k.assignee != Some("")
    ensures var r := Revised(k, p, now);
            && r.title == (match p.title case None => k.title case Some(x) => x)
            && r.severity == (match p.severity case None => k.severity case Some(x) => x)
            && r.techniques == (match p.techniques case None => k.techniques case Some(x) => x)
            && r.assignee ==
               (match p.assignee case None => k.assignee case Some(x) => if x == "" then None else Some(x))
            && (p.status.None? ==> r.status == k.status)
            && (p.status.Some? ==> Named(r.status) == p.status.value)
            && r.policyId == k.policyId && r.deviceId == k.deviceId && r.violationIds == k.violationIds
            && r.createdAt == k.createdAt && r.updatedAt == now
  {
  }

  /** An update is rejected exactly when it asks for an unknown status, or for a severity other than the
      present one that is not among the four. */
  lemma RejectedExactly(k: Case, p: Update, now: int)
    ensures UpdateOf(k, p, now).Rejected? <==>
              || (p.status.Some? && p.status.value.Unknown?)
              || (p.severity.Some? && p.severity.value != k.severity
                  && p.severity.value !in {"low", "medium", "high", "critical"})
  {
    if p.severity.Some? { KnownSeverities(p.severity.value); }
  }

  /** An update leaves the case acknowledged at `now` exactly when it was not acknowledged, is not
      reopened by it, and is newly given to somebody or newly investigated. */
  lemma AcknowledgedExactly(k: Case, p: Update, now: int)
    requires Accepts(k, p)
    ensures var r, wasOpen := Revised(k, p, now), k.status in {Open, Investigating};
            r.acknowledgedAt ==
            if !wasOpen && r.status in {Open, Investigating} then None
            else if k.acknowledgedAt.Some? then k.acknowledgedAt
            else if (p.assignee.Some? && p.assignee.value != "" && p.assignee != k.assignee)
                    || (r.status == Investigating && k.status != Investigating) then Some(now)
            else None
  {
  }

  /** A case is announced as closed or reopened exactly when its status crosses between the two open
      statuses and the three others. */
  lemma NoticesCrossings(k: Case, p: Update, now: int)
    requires Accepts(k, p)
    ensures var before, after := k.status in {Open, Investigating}, Revised(k, p, now).status in {Open, Investigating};
            UpdateOf(k, p, now).notice ==
            if before && !after then NotifyClosed else if !before && after then NotifyReopened else NoNotice
  {
  }

  /** The row a first violation inserts: it belongs to the policy and the device, is open, holds the
      violation, and takes severity, techniques and assignee from the policy. An assignee acknowledges. */
  lemma FirstViolationRow(policy: Policy, device: Device, v: string, now: int)
    ensures var k := OpenedFor(policy, device, v, now);
            && k.policyId == Some(policy.id) && k.deviceId == Some(device.id) && k.status == Open
            && k.violationIds == [v] && k.techniques == policy.techniques
            && k.severity == (match policy.severity case None => "medium" case Some(x) => x)
            && k.assignee ==
               (match policy.caseAssignee case None => None case Some(x) => if x == "" then None else Some(x))
            && k.acknowledgedAt == (if k.assignee.Some? then Some(now) else None)
            && k.createdAt == now && k.slaClockStartedAt == now && k.closedAt == None
  {
  }

  /** A recurring violation reopens the row in a fresh epoch, with the policy's assignee and techniques. */
  lemma RecurrenceRow(k: Case, policy: Policy, v: string, now: int)
    ensures var r := Recurred(k, policy, v, now);
            && r.policyId == k.policyId && r.deviceId == k.deviceId && r.status == Open && r.closedAt == None
            && r.violationIds == k.violationIds + [v] && r.techniques == policy.techniques && r.severity == k.severity
            && r.assignee ==
               (match policy.caseAssignee case None => None case Some(x) => if x == "" then None else Some(x))
            && r.acknowledgedAt == (if r.assignee.Some? then Some(now) else None)
            && r.slaClockStartedAt == now && r.ackNotifiedAt == None && r.resolveNotifiedAt == None
  {
  }

  /** The defaults, in minutes to acknowledge and to resolve. */
  lemma DefaultMinutes()
    ensures var t := Backfilled(map[]);
            && t.Keys == {"low", "medium", "high", "critical"}
            && t["low"] == Threshold(480, 4320) && t["medium"] == Threshold(240, 1440)
            && t["high"] == Threshold(60, 480) && t["critical"] == Threshold(15, 240)
  {
    assert |"low"| == 3 && |"high"| == 4 && |"medium"| == 6 && |"critical"| == 8;
  }

  lemma KnownSeverities(s: string)
    ensures KnownSeverity(s) <==> s == "low" || s == "medium" || s == "high" || s == "critical"
  {
    assert SEVERITIES[0] == "low" && SEVERITIES[1] == "medium";
    assert SEVERITIES[2] == "high" && SEVERITIES[3] == "critical";
  }

  /** When a case is due, in milliseconds: acknowledging while it is not acknowledged, resolving while it
      is open. */
  lemma DueTimes(k: Case, thresholds: map<string, Threshold>, now: int)
    requires k.severity in thresholds
    ensures var s, t := SlaStatusOf(k, thresholds, now), thresholds[k.severity];
            && s.ackDueAt == (if k.acknowledgedAt == None
                              then Some(k.slaClockStartedAt + t.acknowledgeMinutes * 60 * 1000) else None)
            && s.resolveDueAt == (if k.status in {Open, Investigating}
                                  then Some(k.slaClockStartedAt + t.resolveMinutes * 60 * 1000) else None)
            && (s.ackBreached <==> s.ackDueAt.Some? && now > s.ackDueAt.value)
            && (s.resolveBreached <==> s.resolveDueAt.Some? && now > s.resolveDueAt.value)
  {
  }
}
