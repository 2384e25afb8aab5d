/** Case auto-run rules: first match wins, and each rule may fire only so often in any hour. */
module CaseAutoRun {
  import opened Prelude

  const HOUR_MS := 3_600_000
  const HISTORY := 200
  const DEFAULT_CAP := 10

  datatype Rule = Rule(
    id: string, enabled: bool, minSeverity: string, techniques: seq<string>, workflowId: string,
    destructiveAck: bool, maxFiresPerHour: int, recentFires: seq<int>)

  datatype Target = Target(deviceId: Option<string>, severity: string, techniques: seq<string>)

  /** What the evaluation finds outside the rule list: known workflows (true when one contains a
      destructive step), the current fleet, and whether the workflow engine accepts a launch. */
  datatype Env = Env(authorized: bool, workflows: map<string, bool>, fleet: set<string>, launches: bool)

  function SeverityRank(severity: string, default: int): int {
    if severity == "low" then 0
    else if severity == "medium" then 1
    else if severity == "high" then 2
    else if severity == "critical" then 3
    else default
  }

  predicate Matches(r: Rule, k: Target) {
    && r.enabled
    && SeverityRank(k.severity, 1) >= SeverityRank(r.minSeverity, 2)
    && (r.techniques == [] || exists t :: t in r.techniques && t in k.techniques)
  }

  /** `maxFiresPerHour || 10` */
  function Cap(r: Rule): int { if r.maxFiresPerHour == 0 then DEFAULT_CAP else r.maxFiresPerHour }

  /** The firings at or after `t`. */
  function Since(fires: seq<int>, t: int): (r: seq<int>)
    ensures |r| <= |fires|
  {
    if fires == [] then []
    else
      var n := |fires| - 1;
      if fires[n] >= t then Since(fires[..n], t) + [fires[n]] else Since(fires[..n], t)
  }

  /** `slice(-200)` */
  function Newest(fires: seq<int>): seq<int> {
    if |fires| > HISTORY then fires[|fires| - HISTORY..] else fires
  }

  predicate Fires(r: Rule, k: Target, env: Env, now: int) {
    && r.workflowId in env.workflows
    && (env.workflows[r.workflowId] ==> r.destructiveAck)
    && |Since(r.recentFires, now - HOUR_MS)| < Cap(r)
    && k.deviceId.Some? && k.deviceId.value in env.fleet
    && env.launches
  }

  function Fired(r: Rule, now: int): Rule {
    r.(recentFires := Newest(Since(r.recentFires, now - HOUR_MS) + [now]))
  }

  /** Index of the first rule that matches, or the length of the list. */
  function FirstMatch(rules: seq<Rule>, k: Target): (i: nat)
    ensures i <= |rules|
    ensures i < |rules| ==> Matches(rules[i], k)
    ensures forall j :: 0 <= j < i ==> !Matches(rules[j], k)
  {
    if rules == [] then 0 else if Matches(rules[0], k) then 0 else 1 + FirstMatch(rules[1..], k)
  }

  predicate Eligible(k: Target, env: Env) {
    k.deviceId.Some? && k.deviceId.value != "" && env.authorized
  }

  /** Which rule an evaluation fires, if any. */
  function FiringRule(rules: seq<Rule>, k: Target, env: Env, now: int): (r: Option<nat>)
    ensures r.Some? ==> r.value < |rules|
  {
    var i := FirstMatch(rules, k);
    if Eligible(k, env) && i < |rules| && Fires(rules[i], k, env, now) then Some(i) else None
  }

  class RuleStore {
    var rules: seq<Rule>

    constructor ()
      ensures rules == []
    {
      rules := [];
    }

    method TryCaseAutorun(k: Target, env: Env, now: int) returns (fired: Option<nat>)
      modifies this
      ensures fired == FiringRule(old(rules), k, env, now)
      ensures rules == if fired.Some? then old(rules)[fired.value := Fired(old(rules)[fired.value], now)]
                       else old(rules)
    {
      if k.deviceId.None? || k.deviceId.value == "" || !env.authorized {
        return None;
      }
      var i := 0;
      while i < |rules|
        invariant 0 <= i <= |rules| && rules == old(rules)
        invariant forall j :: 0 <= j < i ==> !Matches(rules[j], k)
      {
        var rule := rules[i];
        if Matches(rule, k) {
          assert FirstMatch(rules, k) == i;
          if rule.workflowId !in env.workflows { return None; }
          if env.workflows[rule.workflowId] && !rule.destructiveAck { return None; }
          var recentFires := Since(rule.recentFires, now - HOUR_MS);
          if |recentFires| >= Cap(rule) { return None; }
          if k.deviceId.value !in env.fleet { return None; }
          if !env.launches { return None; }
          rules := rules[i := rule.(recentFires := Newest(recentFires + [now]))];
          return Some(i);
        }
        i := i + 1;
      }
      return None;
    }

    /** An edit replaces everything but the rule's identity and its firing history. */
    method UpdateRule(id: string, payload: Rule) returns (found: bool)
      modifies this
      ensures rules == Edited(old(rules), id, payload)
      ensures found == exists i :: 0 <= i < |rules| && rules[i].id == id
    {
      var i := 0;
      found := false;
      while i < |rules|
        invariant 0 <= i <= |rules| == |old(rules)|
        invariant forall j :: 0 <= j < i ==> rules[j] == EditedRule(old(rules)[j], id, payload)
        invariant forall j :: i <= j < |rules| ==> rules[j] == old(rules)[j]
        invariant found == exists j :: 0 <= j < i && rules[j].id == id
      {
        if rules[i].id == id {
          found := true;
          rules := rules[i := payload.(id := id, recentFires := rules[i].recentFires)];
        }
        i := i + 1;
      }
    }
  }

  function EditedRule(r: Rule, id: string, payload: Rule): Rule {
    if r.id == id then payload.(id := id, recentFires := r.recentFires) else r
  }

  function Edited(rules: seq<Rule>, id: string, payload: Rule): (r: seq<Rule>)
    ensures |r| == |rules|
  {
    seq(|rules|, i requires 0 <= i < |rules| => EditedRule(rules[i], id, payload))
  }

  // ---- runs ----

  /** The rule list together with the true firing history of every rule that ever existed. */
  datatype Book = Book(rules: seq<Rule>, fires: map<string, seq<int>>)

  datatype Step =
    | Evaluate(k: Target, env: Env, now: int)
    | Edit(id: string, payload: Rule)
    | Add(rule: Rule)
    | Remove(id: string)

  ghost predicate DistinctIds(rules: seq<Rule>) {
    forall i, j :: 0 <= i < j < |rules| ==> rules[i].id != rules[j].id
  }

  ghost predicate WellFormed(b: Book) {
    && (forall i :: 0 <= i < |b.rules| ==> b.rules[i].id in b.fires)
    && DistinctIds(b.rules)
  }

  ghost predicate Allowed(b: Book, s: Step, clock: int) {
    match s
    case Evaluate(_, _, now) => now >= clock
    case Edit(_, _) => true
    case Add(rule) => rule.id !in b.fires && rule.recentFires == []
    case Remove(_) => true
  }

  function ClockAfter(s: Step, clock: int): int { if s.Evaluate? then s.now else clock }

  function Without(rules: seq<Rule>, id: string): (r: seq<Rule>)
    ensures forall x :: x in r ==> x in rules && x.id != id
  {
    if rules == [] then []
    else
      var n := |rules| - 1;
      if rules[n].id != id then Without(rules[..n], id) + [rules[n]] else Without(rules[..n], id)
  }

  ghost function Apply(b: Book, s: Step): Book {
    match s
    case Evaluate(k, env, now) =>
      var f := FiringRule(b.rules, k, env, now);
      if f.None? then b
      else
        var r := b.rules[f.value];
        Book(b.rules[f.value := Fired(r, now)], b.fires[r.id := TrueFires(b, r.id) + [now]])
    case Edit(id, payload) => b.(rules := Edited(b.rules, id, payload))
    case Add(rule) => Book(b.rules + [rule], b.fires[rule.id := []])
    case Remove(id) => b.(rules := Without(b.rules, id))
  }

  /** The stored history agrees with the true one on everything a later evaluation can ask for. */
  ghost predicate Faithful(stored: seq<int>, truth: seq<int>) {
    forall t :: (truth == [] || t >= truth[|truth| - 1] - HOUR_MS) ==> Since(stored, t) == Since(truth, t)
  }

  /** At every firing, the hour that ends there holds at most `m` firings. */
  ghost predicate CapHeld(truth: seq<int>, m: int) {
    truth == [] ||
    var n := |truth| - 1;
    CapHeld(truth[..n], m) && |Since(truth, truth[n] - HOUR_MS)| <= m
  }

  ghost function TrueFires(b: Book, id: string): seq<int> {
    if id in b.fires then b.fires[id] else []
  }

  ghost predicate RuleOk(b: Book, id: string, m: int, clock: int) {
    && id in b.fires
    && CapHeld(b.fires[id], m)
    && (b.fires[id] != [] ==> b.fires[id][|b.fires[id]| - 1] <= clock)
    && (forall i :: 0 <= i < |b.rules| && b.rules[i].id == id ==>
          Cap(b.rules[i]) <= m && Faithful(b.rules[i].recentFires, b.fires[id]))
  }

  lemma SinceSnoc(s: seq<int>, x: int, t: int)
    ensures Since(s + [x], t) == Since(s, t) + (if x >= t then [x] else [])
  {
    assert (s + [x])[..|s|] == s;
  }

  lemma {:induction false} SinceSince(s: seq<int>, a: int, t: int)
    requires t >= a
    ensures Since(Since(s, a), t) == Since(s, t)
  {
    if s != [] {
      var n := |s| - 1;
      SinceSince(s[..n], a, t);
      if s[n] >= a {
        SinceSnoc(Since(s[..n], a), s[n], t);
      }
    }
  }

  /** Truncating to 200 entries loses nothing still needed, provided the cap is at most 200. */
  lemma FiringStaysFaithful(r: Rule, truth: seq<int>, now: int, m: int)
    requires Faithful(r.recentFires, truth) && CapHeld(truth, m) && Cap(r) <= m <= HISTORY
    requires truth != [] ==> truth[|truth| - 1] <= now
    requires |Since(r.recentFires, now - HOUR_MS)| < Cap(r)
    ensures Faithful(Fired(r, now).recentFires, truth + [now])
    ensures CapHeld(truth + [now], m)
  {
    var kept := Since(r.recentFires, now - HOUR_MS);
    var truth' := truth + [now];
    assert kept == Since(truth, now - HOUR_MS);
    assert Newest(kept + [now]) == kept + [now];
    forall t | t >= now - HOUR_MS ensures Since(kept + [now], t) == Since(truth', t) {
      SinceSnoc(kept, now, t);
      SinceSnoc(truth, now, t);
      SinceSince(truth, now - HOUR_MS, t);
    }
    FiringHoldsCap(truth, now, m);
  }

  lemma FiringHoldsCap(truth: seq<int>, now: int, m: int)
    requires CapHeld(truth, m) && |Since(truth, now - HOUR_MS)| < m
    ensures CapHeld(truth + [now], m)
  {
    assert (truth + [now])[..|truth|] == truth;
    SinceSnoc(truth, now, now - HOUR_MS);
  }

  ghost predicate CapWithin(s: Step, id: string, m: int) {
    match s
    case Edit(i, payload) => i == id ==> Cap(payload) <= m
    case Add(rule) => rule.id == id ==> Cap(rule) <= m
    case _ => true
  }

  lemma ApplyKeeps(b: Book, s: Step, clock: int, id: string, m: int)
    requires WellFormed(b) && Allowed(b, s, clock) && 0 <= m <= HISTORY
    requires CapWithin(s, id, m)
    requires id in b.fires ==> RuleOk(b, id, m, clock)
    ensures WellFormed(Apply(b, s))
    ensures id in Apply(b, s).fires ==> RuleOk(Apply(b, s), id, m, ClockAfter(s, clock))
  {
    match s {
      case Evaluate(k, env, now) =>
        var f := FiringRule(b.rules, k, env, now);
        if f.Some? { FireKeeps(b, f.value, now, clock, id, m); }
      case Edit(_, _) =>
      case Add(rule) => AddKeeps(b, rule, clock, id, m);
      case Remove(rid) => RemoveKeeps(b, rid, clock, id, m);
    }
  }

  lemma FireKeeps(b: Book, f: nat, now: int, clock: int, id: string, m: int)
    requires WellFormed(b) && now >= clock && 0 <= m <= HISTORY && f < |b.rules|
    requires id in b.fires ==> RuleOk(b, id, m, clock)
    requires |Since(b.rules[f].recentFires, now - HOUR_MS)| < Cap(b.rules[f])
    ensures var r := b.rules[f];
            var b' := Book(b.rules[f := Fired(r, now)], b.fires[r.id := b.fires[r.id] + [now]]);
            WellFormed(b') && (id in b'.fires ==> RuleOk(b', id, m, now))
  {
    var r := b.rules[f];
    var rules' := b.rules[f := Fired(r, now)];
    assert forall i :: 0 <= i < |rules'| ==> rules'[i].id == b.rules[i].id;
    if r.id == id {
      FiringStaysFaithful(r, b.fires[id], now, m);
    }
  }

  lemma AddKeeps(b: Book, rule: Rule, clock: int, id: string, m: int)
    requires WellFormed(b) && Allowed(b, Add(rule), clock) && 0 <= m && CapWithin(Add(rule), id, m)
    requires id in b.fires ==> RuleOk(b, id, m, clock)
    ensures var b' := Apply(b, Add(rule));
            WellFormed(b') && (id in b'.fires ==> RuleOk(b', id, m, clock))
  {
  }

  lemma RemoveKeeps(b: Book, rid: string, clock: int, id: string, m: int)
    requires WellFormed(b)
    requires id in b.fires ==> RuleOk(b, id, m, clock)
    ensures var b' := Apply(b, Remove(rid));
            WellFormed(b') && (id in b'.fires ==> RuleOk(b', id, m, clock))
  {
    var f := Without(b.rules, rid);
    forall i | 0 <= i < |f|
      ensures f[i].id in b.fires
      ensures f[i].id == id ==> Cap(f[i]) <= m && Faithful(f[i].recentFires, b.fires[id])
    {
      assert f[i] in b.rules;
    }
    DistinctIdsKept(b.rules, rid);
  }

  lemma {:induction false} DistinctIdsKept(rules: seq<Rule>, id: string)
    requires DistinctIds(rules)
    ensures DistinctIds(Without(rules, id))
  {
    if rules != [] {
      var n := |rules| - 1;
      DistinctIdsKept(rules[..n], id);
      var f := Without(rules[..n], id);
      forall i | 0 <= i < |f| ensures f[i].id != rules[n].id {
        assert f[i] in rules[..n];
        var k :| 0 <= k < n && rules[k] == f[i];
      }
    }
  }

  ghost predicate ValidRun(b: Book, run: seq<Step>, clock: int)
    decreases |run|
  {
    run == [] ||
    (Allowed(b, run[0], clock) && ValidRun(Apply(b, run[0]), run[1..], ClockAfter(run[0], clock)))
  }

  ghost function After(b: Book, run: seq<Step>, clock: int): Book
    requires ValidRun(b, run, clock)
    decreases |run|
  {
    if run == [] then b else After(Apply(b, run[0]), run[1..], ClockAfter(run[0], clock))
  }

  lemma {:induction false} RunKeeps(b: Book, run: seq<Step>, clock: int, id: string, m: int)
    requires WellFormed(b) && ValidRun(b, run, clock) && 0 <= m <= HISTORY
    requires forall i :: 0 <= i < |run| ==> CapWithin(run[i], id, m)
    requires id in b.fires ==> RuleOk(b, id, m, clock)
    ensures CapHeld(TrueFires(After(b, run, clock), id), m)
    decreases |run|
  {
    if run != [] {
      ApplyKeeps(b, run[0], clock, id, m);
      RunKeeps(Apply(b, run[0]), run[1..], ClockAfter(run[0], clock), id, m);
    }
  }

  /** The firings in the closed hour that starts at `t`. */
  function InHour(fires: seq<int>, t: int): seq<int> {
    if fires == [] then []
    else
      var n := |fires| - 1;
      if t <= fires[n] <= t + 3_600_000 then InHour(fires[..n], t) + [fires[n]] else InHour(fires[..n], t)
  }

  lemma {:induction false} HourWithinSince(s: seq<int>, t: int, from: int)
    requires from <= t
    ensures |InHour(s, t)| <= |Since(s, from)|
  {
    if s != [] {
      HourWithinSince(s[..|s| - 1], t, from);
    }
  }

  lemma {:induction false} CapCoversEveryHour(truth: seq<int>, m: int, t: int)
    requires CapHeld(truth, m) && m >= 0
    ensures |InHour(truth, t)| <= m
  {
    if truth != [] {
      var n := |truth| - 1;
      CapHeldParts(truth, m);
      if t <= truth[n] <= t + 3_600_000 {
        HourWithinSince(truth, t, truth[n] - HOUR_MS);
      } else {
        CapCoversEveryHour(truth[..n], m, t);
        assert InHour(truth, t) == InHour(truth[..n], t);
      }
    }
  }

  lemma CapHeldParts(truth: seq<int>, m: int)
    requires CapHeld(truth, m) && truth != []
    ensures CapHeld(truth[..|truth| - 1], m) && |Since(truth, truth[|truth| - 1] - HOUR_MS)| <= m
  {
  }

  /** The hourly cap, for every run from an empty rule list: while a rule's effective cap never
      exceeds `m` <= 200, no closed hour ever holds more than `m` of its firings. */
  lemma HourlyCap(run: seq<Step>, clock: int, id: string, m: int, t: int)
    requires ValidRun(Book([], map[]), run, clock) && 0 <= m <= 200
    requires forall i :: 0 <= i < |run| ==> CapWithin(run[i], id, m)
    ensures |InHour(TrueFires(After(Book([], map[]), run, clock), id), t)| <= m
  {
    RunKeeps(Book([], map[]), run, clock, id, m);
    CapCoversEveryHour(TrueFires(After(Book([], map[]), run, clock), id), m, t);
  }

  // ---- above 200 the cap is no cap ----

  ghost predicate JustEvaluations(b: Book, run: seq<Step>, clock: int) {
    ValidRun(b, run, clock) && forall i :: 0 <= i < |run| ==> run[i].Evaluate?
  }

  /** One rule, one case, one instant: with a cap above 200 every evaluation fires. */
  lemma {:induction false} EachFires(b: Book, k: Target, env: Env, now: int, n: nat)
    requires WellFormed(b) && |b.rules| == 1 && |b.rules[0].recentFires| <= HISTORY
    requires Cap(b.rules[0]) > HISTORY && Matches(b.rules[0], k) && Eligible(k, env)
    requires b.rules[0].workflowId in env.workflows && !env.workflows[b.rules[0].workflowId]
    requires k.deviceId.value in env.fleet && env.launches
    ensures ValidRun(b, Repeat(Evaluate(k, env, now), n), now)
    ensures |InHour(TrueFires(After(b, Repeat(Evaluate(k, env, now), n), now), b.rules[0].id), now)|
         == |InHour(b.fires[b.rules[0].id], now)| + n
    decreases n
  {
    var s := Evaluate(k, env, now);
    var id := b.rules[0].id;
    if n > 0 {
      assert Repeat(s, n)[1..] == Repeat(s, n - 1);
      var b' := Apply(b, s);
      assert FiringRule(b.rules, k, env, now) == Some(0);
      var truth := b.fires[id];
      assert (truth + [now])[..|truth|] == truth;
      EachFires(b', k, env, now, n - 1);
    }
  }

  ghost function SoleRule(r: Rule): Book { Book([r], map[r.id := []]) }

  /** A freshly created, unedited rule respects its own hourly cap on every run exactly when that
      cap is at most 200 or the rule is switched off: the count is taken from the kept history, and
      that holds 200 entries. */
  lemma CapWorksIffHistorySuffices(r: Rule)
    requires r.recentFires == []
    ensures var cap := if r.maxFiresPerHour == 0 then 10 else r.maxFiresPerHour;
            (cap <= 200 || !r.enabled) <==>
            forall run: seq<Step>, clock: int, t: int :: JustEvaluations(SoleRule(r), run, clock)
              ==> |InHour(TrueFires(After(SoleRule(r), run, clock), r.id), t)| <= Max(0, cap)
  {
    if Cap(r) <= HISTORY || !r.enabled {
      forall run: seq<Step>, clock: int, t: int | JustEvaluations(SoleRule(r), run, clock)
        ensures |InHour(TrueFires(After(SoleRule(r), run, clock), r.id), t)| <= Max(0, Cap(r))
      {
        if r.enabled {
          RunKeeps(SoleRule(r), run, clock, r.id, Max(0, Cap(r)));
          CapCoversEveryHour(TrueFires(After(SoleRule(r), run, clock), r.id), Max(0, Cap(r)), t);
        } else {
          DisabledIsIdle(SoleRule(r), run, clock);
        }
      }
    } else {
      var run := CapBroken(r);
    }
  }

  lemma {:induction false} DisabledIsIdle(b: Book, run: seq<Step>, clock: int)
    requires |b.rules| == 1 && !b.rules[0].enabled && JustEvaluations(b, run, clock)
    ensures After(b, run, clock) == b
    decreases |run|
  {
    if run != [] {
      assert run[0].Evaluate?;
      assert FirstMatch(b.rules, run[0].k) == 1;
      assert forall i :: 0 <= i < |run| - 1 ==> run[1..][i] == run[i + 1];
      DisabledIsIdle(b, run[1..], run[0].now);
    }
  }

  lemma CriticalOutranks(severity: string)
    ensures SeverityRank("critical", 1) == 3 >= SeverityRank(severity, 2)
  {
    assert |"critical"| == 8 && |"medium"| == 6;
  }

  /** Every enabled rule matches some critical case it can launch for. */
  lemma MatchingCase(r: Rule) returns (k: Target, env: Env)
    requires r.enabled
    ensures Matches(r, k) && Eligible(k, env)
    ensures r.workflowId in env.workflows && !env.workflows[r.workflowId]
    ensures k.deviceId.value in env.fleet && env.launches
  {
    k := Target(Some("d"), "critical", r.techniques);
    assert r.techniques != [] ==> r.techniques[0] in r.techniques;
    env := Env(true, map[r.workflowId := false], {"d"}, true);
    CriticalOutranks(r.minSeverity);
  }

  lemma CapBroken(r: Rule) returns (run: seq<Step>)
    requires r.recentFires == [] && r.enabled && Cap(r) > HISTORY
    ensures JustEvaluations(SoleRule(r), run, 0)
    ensures |InHour(TrueFires(After(SoleRule(r), run, 0), r.id), 0)| > Cap(r)
  {
    var k, env := MatchingCase(r);
    var n: nat := Cap(r) + 1;
    run := ManyFirings(SoleRule(r), r, k, env, n);
  }

  lemma ManyFirings(b: Book, r: Rule, k: Target, env: Env, n: nat) returns (run: seq<Step>)
    requires WellFormed(b) && b.rules == [r] && r.recentFires == []
    requires Cap(r) > HISTORY && Matches(r, k) && Eligible(k, env)
    requires r.workflowId in env.workflows && !env.workflows[r.workflowId]
    requires k.deviceId.value in env.fleet && env.launches
    ensures JustEvaluations(b, run, 0)
    ensures |InHour(TrueFires(After(b, run, 0), r.id), 0)| >= n
  {
    EachFires(b, k, env, 0, n);
    run := Repeat(Evaluate(k, env, 0), n);
  }

  // ---- when a rule fires, in plain terms ----

  /** Severities rank in the order of this list; an unknown severity counts as medium on a case and as
      high on a rule. */
  lemma SeveritiesAscend(r: Rule, k: Target, a: nat, b: nat)
    requires r.enabled && r.techniques == [] && a < 4 && b < 4
    ensures var names := ["low", "medium", "high", "critical"];
            && (r.minSeverity == names[b] && k.severity == names[a] ==> (Matches(r, k) <==> a >= b))
            && (r.minSeverity == names[b] && k.severity !in names ==> (Matches(r, k) <==> 1 >= b))
            && (r.minSeverity !in names && k.severity == names[a] ==> (Matches(r, k) <==> a >= 2))
            && (r.minSeverity !in names && k.severity !in names ==> !Matches(r, k))
  {
    var names := ["low", "medium", "high", "critical"];
    assert "low" in names && "medium" in names && "high" in names && "critical" in names by {
      assert names[0] == "low" && names[1] == "medium" && names[2] == "high" && names[3] == "critical";
    }
    NamesDiffer();
  }

  lemma NamesDiffer()
    ensures "low" != "medium" && "low" != "high" && "low" != "critical"
    ensures "medium" != "high" && "medium" != "critical" && "high" != "critical"
  {
    assert |"low"| == 3 && |"high"| == 4 && |"medium"| == 6 && |"critical"| == 8;
  }

  /** A rule with techniques matches where it would without them and one is shared; a disabled rule
      matches nothing. */
  lemma OneSharedTechniqueSuffices(r: Rule, k: Target)
    ensures Matches(r, k) <==>
              Matches(r.(techniques := []), k)
              && (r.techniques == [] || exists i :: 0 <= i < |r.techniques| && r.techniques[i] in k.techniques)
    ensures Matches(r, k) ==> r.enabled
  {
    if r.techniques != [] && Matches(r, k) {
      var t :| t in r.techniques && t in k.techniques;
      var i :| 0 <= i < |r.techniques| && r.techniques[i] == t;
    }
  }

  lemma {:induction false} SinceCounts(fires: seq<int>, t: int)
    ensures |Since(fires, t)| == |set j | 0 <= j < |fires| && fires[j] >= t|
  {
    var all := set j | 0 <= j < |fires| && fires[j] >= t;
    if fires == [] {
      assert all == {};
    } else {
      var n := |fires| - 1;
      SinceCounts(fires[..n], t);
      var before := set j | 0 <= j < |fires[..n]| && fires[..n][j] >= t;
      assert all == if fires[n] >= t then before + {n} else before;
    }
  }

  /** An evaluation fires rule `i` exactly when it is the first that matches, the case has a device of
      the fleet and the caller is authorized, the rule's workflow exists and, if destructive, was
      acknowledged, the launch is accepted, and fewer firings than the cap (10 if none is set) lie
      within the last hour. */
  lemma FiresExactly(rules: seq<Rule>, k: Target, env: Env, now: int, i: nat)
    ensures FiringRule(rules, k, env, now) == Some(i) <==>
              && i < |rules| && Matches(rules[i], k) && (forall j :: 0 <= j < i ==> !Matches(rules[j], k))
              && k.deviceId.Some? && k.deviceId.value != "" && k.deviceId.value in env.fleet && env.authorized
              && rules[i].workflowId in env.workflows && env.launches
              && (env.workflows[rules[i].workflowId] ==> rules[i].destructiveAck)
              && |set j | 0 <= j < |rules[i].recentFires| && rules[i].recentFires[j] >= now - 3_600_000|
                 < (if rules[i].maxFiresPerHour == 0 then 10 else rules[i].maxFiresPerHour)
  {
    if i < |rules| {
      SinceCounts(rules[i].recentFires, now - 3_600_000);
      if Matches(rules[i], k) && forall j :: 0 <= j < i ==> !Matches(rules[j], k) {
        FirstMatchIs(rules, k, i);
      }
    }
  }

  lemma FirstMatchIs(rules: seq<Rule>, k: Target, i: nat)
    requires i < |rules| && Matches(rules[i], k) && forall j :: 0 <= j < i ==> !Matches(rules[j], k)
    ensures FirstMatch(rules, k) == i
  {
    var f := FirstMatch(rules, k);
    assert f < |rules| ==> Matches(rules[f], k);
  }

  /** An edit replaces the rule with that id by the payload, except for its id and firing history. */
  lemma EditKeepsHistory(rules: seq<Rule>, id: string, payload: Rule, i: nat)
    requires i < |rules|
    ensures var r := Edited(rules, id, payload)[i];
            && r.id == rules[i].id && r.recentFires == rules[i].recentFires
            && (rules[i].id != id ==> r == rules[i])
            && (rules[i].id == id ==>
                  && r.enabled == payload.enabled && r.minSeverity == payload.minSeverity
                  && r.techniques == payload.techniques && r.workflowId == payload.workflowId
                  && r.destructiveAck == payload.destructiveAck && r.maxFiresPerHour == payload.maxFiresPerHour)
  {
  }
}
