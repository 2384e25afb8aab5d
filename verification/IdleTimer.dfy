/** The idle-session guard of one browser tab: an in-memory timer backed by a throttled wall-clock
    timestamp in local storage. Times are milliseconds since the epoch and nondecreasing. */
module IdleTimer {
  import opened Prelude

  const THROTTLE_MS := 5000
  const DEFAULT_TIMEOUT_MS := 60 * 60 * 1000

  /** `stored` is what local storage holds, None when absent or unreadable; `deadline` is when the
      armed timer would sign the user out; `writtenAt` is the tab's memory of its last write;
      `timeout` is the timeout in effect, the default until this page load has read the settings. */
  datatype State = State(stored: Option<int>, writtenAt: int, deadline: Option<int>, timeout: int, signedOut: bool)

  class SessionGuard {
    var stored: Option<int>
    var lastActivityWriteAt: int
    var deadline: Option<int>
    var timeout: int
    var signedOut: bool

    constructor (stored: Option<int>, timeout: int)
      ensures View() == State(stored, 0, None, timeout, false)
    {
      this.stored, lastActivityWriteAt, deadline, this.timeout, signedOut := stored, 0, None, timeout, false;
    }

    ghost function View(): State
      reads this
    {
      State(stored, lastActivityWriteAt, deadline, timeout, signedOut)
    }

    method WriteLastActivityAt(now: int, force: bool)
      modifies this
      ensures View() == Written(old(View()), now, force)
    {
      if !force && now - lastActivityWriteAt < THROTTLE_MS { return; }
      lastActivityWriteAt := now;
      stored := Some(now);
    }

    method CheckIdleElapsed(now: int)
      modifies this
      ensures View() == Checked(old(View()), now)
    {
      var last := if stored.Some? then stored.value else now;
      var elapsed := now - last;
      if elapsed >= timeout {
        signedOut := true;
        return;
      }
      deadline := Some(now + (timeout - elapsed));
    }

    method ResetIdleTimer(now: int, newTimeout: int)
      modifies this
      ensures View() == Step(old(View()), TimeoutChanged(now, newTimeout))
    {
      timeout := newTimeout;
      WriteLastActivityAt(now, true);
      deadline := Some(now + timeout);
    }

    method HandleActivityEvent(now: int)
      modifies this
      ensures View() == Step(old(View()), Activity(now))
    {
      WriteLastActivityAt(now, false);
      deadline := Some(now + timeout);
    }

    /** A cold reload: memory is gone, local storage stays, settings are not loaded yet. */
    method Remount(now: int)
      modifies this
      ensures View() == Step(old(View()), Reload(now))
    {
      lastActivityWriteAt, deadline, timeout := 0, None, DEFAULT_TIMEOUT_MS;
      CheckIdleElapsed(now);
    }
  }

  /** `Resume`: the page becomes visible, is shown again, or the minute tick runs. */
  datatype Event =
    | Activity(now: int)
    | Resume(now: int)
    | TimeoutChanged(now: int, timeout: int)
    | Reload(now: int)
    | TimerFires(now: int)

  function Written(s: State, now: int, force: bool): State {
    if !force && now - s.writtenAt < THROTTLE_MS then s else s.(stored := Some(now), writtenAt := now)
  }

  function Checked(s: State, now: int): State {
    var last := if s.stored.Some? then s.stored.value else now;
    if now - last >= s.timeout then s.(signedOut := true) else s.(deadline := Some(last + s.timeout))
  }

  function Step(s: State, e: Event): State {
    match e
    case Activity(now) => Written(s, now, false).(deadline := Some(now + s.timeout))
    case Resume(now) => Checked(s, now)
    case TimeoutChanged(now, timeout) => Written(s, now, true).(deadline := Some(now + timeout), timeout := timeout)
    case Reload(now) => Checked(s.(writtenAt := 0, deadline := None, timeout := DEFAULT_TIMEOUT_MS), now)
    case TimerFires(_) => s.(signedOut := true)
  }

  /** A timer fires at its deadline or, after a suspension, later; never while none is armed. */
  predicate Allowed(s: State, e: Event, clock: int) {
    && clock <= e.now && !s.signedOut
    && (e.TimerFires? ==> s.deadline.Some? && e.now >= s.deadline.value)
    && (e.TimeoutChanged? ==> e.timeout > 0)
  }

  /** The last activity, counting a change of the timeout as activity. */
  function LastAfter(e: Event, last: int): int {
    if e.Activity? || e.TimeoutChanged? then e.now else last
  }

  /** The stored timestamp lags the last activity by less than the throttle, and the armed deadline
      lies the same distance short of the full timeout. */
  ghost predicate InStep(s: State, last: int) {
    && s.stored.Some? && last - THROTTLE_MS < s.stored.value <= last
    && (s.writtenAt == s.stored.value || s.writtenAt == 0)
    && s.timeout > 0
    && (s.deadline.Some? ==> last + s.timeout - THROTTLE_MS < s.deadline.value <= last + s.timeout)
  }

  lemma StepStaysInStep(s: State, e: Event, clock: int, last: int)
    requires InStep(s, last) && Allowed(s, e, clock) && last <= clock && clock >= THROTTLE_MS
    ensures InStep(Step(s, e), LastAfter(e, last))
    ensures Step(s, e).signedOut ==> e.now > last + Step(s, e).timeout - THROTTLE_MS
    ensures e.Resume? ==> (Step(s, e).signedOut <==> e.now - s.stored.value >= s.timeout)
    ensures e.Resume? && e.now >= last + s.timeout ==> Step(s, e).signedOut
  {
  }

  ghost predicate ValidRun(s: State, run: seq<Event>, clock: int)
    decreases |run|
  {
    run == [] || (Allowed(s, run[0], clock) && ValidRun(Step(s, run[0]), run[1..], run[0].now))
  }

  function After(s: State, run: seq<Event>): State
    decreases |run|
  {
    if run == [] then s else After(Step(s, run[0]), run[1..])
  }

  function LastActivity(run: seq<Event>, last: int): int
    decreases |run|
  {
    if run == [] then last else LastActivity(run[1..], LastAfter(run[0], last))
  }

  /** What the settings hold, whether or not the page load at hand has read them. */
  function ConfiguredAfter(run: seq<Event>, configured: int): int
    decreases |run|
  {
    if run == [] then configured
    else ConfiguredAfter(run[1..], if run[0].TimeoutChanged? then run[0].timeout else configured)
  }

  /** Whether the page load at hand has read the settings. */
  predicate LoadedAfter(run: seq<Event>, loaded: bool)
    decreases |run|
  {
    if run == [] then loaded else LoadedAfter(run[1..], run[0].TimeoutChanged? || (loaded && !run[0].Reload?))
  }

  function InEffect(configured: int, loaded: bool): int { if loaded then configured else DEFAULT_TIMEOUT_MS }

  lemma {:induction false} TimeoutInEffect(s: State, run: seq<Event>, configured: int, loaded: bool)
    requires s.timeout == InEffect(configured, loaded)
    ensures After(s, run).timeout == InEffect(ConfiguredAfter(run, configured), LoadedAfter(run, loaded))
    decreases |run|
  {
    if run != [] {
      var e := run[0];
      TimeoutInEffect(Step(s, e), run[1..], if e.TimeoutChanged? then e.timeout else configured,
                      e.TimeoutChanged? || (loaded && !e.Reload?));
    }
  }

  lemma OneEvent(s: State, run: seq<Event>, last: int)
    requires |run| == 1
    ensures After(s, run) == Step(s, run[0]) && LastActivity(run, last) == LastAfter(run[0], last)
  {
    assert run[1..] == [];
    assert LastActivity([], LastAfter(run[0], last)) == LastAfter(run[0], last);
  }

  /** Over every run that starts with a stored timestamp: the deadline stays within five seconds
      below last activity plus the timeout in effect, and no sign-out comes more than five seconds
      before that. */
  lemma {:induction false} NeverEarlyInEffect(s: State, run: seq<Event>, clock: int, last: int)
    requires InStep(s, last) && ValidRun(s, run, clock) && last <= clock && clock >= THROTTLE_MS && !s.signedOut
    ensures InStep(After(s, run), LastActivity(run, last))
    ensures After(s, run).signedOut ==>
              run != [] && run[|run| - 1].now > LastActivity(run, last) + After(s, run).timeout - 5_000
    decreases |run|
  {
    if run != [] {
      var e := run[0];
      StepStaysInStep(s, e, clock, last);
      if |run| == 1 {
        OneEvent(s, run, last);
      } else {
        assert !Step(s, e).signedOut;
        NeverEarlyInEffect(Step(s, e), run[1..], e.now, LastAfter(e, last));
      }
    }
  }

  /** The run ends in a sign-out more than five seconds before last activity plus the configured
      timeout. */
  ghost predicate EndsEarly(s: State, run: seq<Event>, last: int, configured: int) {
    && run != [] && After(s, run).signedOut
    && run[|run| - 1].now <= LastActivity(run, last) + ConfiguredAfter(run, configured) - 5_000
  }

  /** Against the timeout that is configured: no sign-out is more than five seconds early if the page
      load has read the settings, or if they ask for no more than the default. */
  lemma NeverEarly(s: State, run: seq<Event>, clock: int, last: int, configured: int, loaded: bool)
    requires InStep(s, last) && ValidRun(s, run, clock) && last <= clock && clock >= THROTTLE_MS && !s.signedOut
    requires s.timeout == InEffect(configured, loaded)
    ensures LoadedAfter(run, loaded) || ConfiguredAfter(run, configured) <= DEFAULT_TIMEOUT_MS ==>
              !EndsEarly(s, run, last, configured)
  {
    NeverEarlyInEffect(s, run, clock, last);
    TimeoutInEffect(s, run, configured, loaded);
  }

  /** A run, begun with the settings loaded, during which they go on asking for `configured`. */
  ghost predicate RunUnder(s: State, run: seq<Event>, clock: int, last: int, configured: int) {
    && InStep(s, last) && ValidRun(s, run, clock) && last <= clock && clock >= THROTTLE_MS && !s.signedOut
    && s.timeout == configured
    && forall i :: 0 <= i < |run| && run[i].TimeoutChanged? ==> run[i].timeout == configured
  }

  lemma {:induction false} StaysConfigured(run: seq<Event>, configured: int)
    requires forall i :: 0 <= i < |run| && run[i].TimeoutChanged? ==> run[i].timeout == configured
    ensures ConfiguredAfter(run, configured) == configured
  {
    if run != [] { StaysConfigured(run[1..], configured); }
  }

  /** The exact condition: a configured timeout is never cut short by more than five seconds, on any
      run, exactly when it is at most the default. Above it, a cold reload can. */
  lemma NeverEarlyIffWithinDefault(configured: int)
    requires configured > 0
    ensures (forall s, run, clock, last :: RunUnder(s, run, clock, last, configured) ==>
               !EndsEarly(s, run, last, configured))
       <==> configured <= 60 * 60 * 1000
  {
    if configured <= DEFAULT_TIMEOUT_MS {
      forall s, run, clock, last | RunUnder(s, run, clock, last, configured)
        ensures !EndsEarly(s, run, last, configured)
      {
        StaysConfigured(run, configured);
        NeverEarly(s, run, clock, last, configured, true);
      }
    } else {
      var s, run, last := EarlyRun(configured);
    }
  }

  lemma EarlyRun(configured: int) returns (s: State, run: seq<Event>, last: int)
    requires configured > DEFAULT_TIMEOUT_MS
    ensures RunUnder(s, run, last, last, configured) && EndsEarly(s, run, last, configured)
  {
    last := THROTTLE_MS;
    s := State(Some(last), last, None, configured, false);
    var move, reload := Activity(last + THROTTLE_MS - 1), Reload(last + DEFAULT_TIMEOUT_MS);
    run := [move, reload];
    assert run[1..] == [reload];
    var moved := Step(s, move);
    assert moved == s.(deadline := Some(move.now + configured));
    OneEvent(moved, [reload], move.now);
    StaysConfigured(run, configured);
    assert ValidRun(Step(moved, reload), [reload][1..], reload.now);
    assert ValidRun(moved, [reload], move.now);
  }

  // ---- without a stored timestamp ----

  /** Nothing but resumes and minute ticks, each less than the timeout after the one before. */
  ghost predicate IdleTicks(run: seq<Event>, clock: int, timeout: int)
    decreases |run|
  {
    run == [] || (run[0].Resume? && clock <= run[0].now < clock + timeout && IdleTicks(run[1..], run[0].now, timeout))
  }

  /** The guard needs that timestamp. Idle checks, less than a timeout apart, that run past the timeout
      end the session exactly when one was stored: without it each check takes the present for the
      last activity and re-arms a full timeout. */
  lemma IdleEndsIffStored(s: State, run: seq<Event>, clock: int)
    requires s.timeout > 0 && !s.signedOut && run != [] && IdleTicks(run, clock, s.timeout)
    requires s.stored.Some? ==> s.stored.value <= clock
    requires s.stored.Some? ==> run[|run| - 1].now >= s.stored.value + s.timeout
    ensures After(s, run).signedOut <==> s.stored.Some?
  {
    if s.stored.Some? {
      ChecksExpire(s, run, clock);
    } else {
      ChecksExtend(s, run, clock);
    }
  }

  lemma {:induction false} ChecksExpire(s: State, run: seq<Event>, clock: int)
    requires s.stored.Some? && s.timeout > 0 && run != [] && IdleTicks(run, clock, s.timeout)
    requires run[|run| - 1].now >= s.stored.value + s.timeout
    ensures After(s, run).signedOut
    decreases |run|
  {
    var next := Step(s, run[0]);
    if |run| == 1 {
      assert After(s, run) == next;
    } else {
      ChecksExpire(next, run[1..], run[0].now);
    }
  }

  lemma {:induction false} ChecksExtend(s: State, run: seq<Event>, clock: int)
    requires s.stored.None? && s.timeout > 0 && !s.signedOut && IdleTicks(run, clock, s.timeout)
    ensures !After(s, run).signedOut && After(s, run).stored.None?
    ensures run != [] ==> After(s, run).deadline == Some(run[|run| - 1].now + s.timeout)
    decreases |run|
  {
    if run != [] {
      ChecksExtend(Step(s, run[0]), run[1..], run[0].now);
    }
  }

  // ---- a cold reload before the settings are loaded ----

  const MINUTE_MS := 60 * 1000

  /** A reload checks against the 60-minute default, and loading the real timeout afterwards counts
      as activity and begins a full session. So the reload decides as the configured timeout would,
      except for a user idle for at least the smaller of the two and less than the larger. */
  lemma ReloadUsesDefault(s: State, now: int, loadedAt: int, configured: int)
    requires s.stored.Some? && !s.signedOut && 0 < configured && now <= loadedAt
    ensures var reloaded, idle := Step(s, Reload(now)), now - s.stored.value;
            && (reloaded.signedOut <==> idle >= DEFAULT_TIMEOUT_MS)
            && ((reloaded.signedOut <==> idle >= configured) <==>
                  !(Min(configured, DEFAULT_TIMEOUT_MS) <= idle < Max(configured, DEFAULT_TIMEOUT_MS)))
            && (!reloaded.signedOut ==>
                  Step(reloaded, TimeoutChanged(loadedAt, configured)).deadline == Some(loadedAt + configured))
  {
  }

  /** The settings allow up to eight hours. With that, a reload 61 minutes after the last activity
      signs the user out almost seven hours early. */
  lemma ReloadCutsEightHours(t: int)
    requires t >= THROTTLE_MS
    ensures var s := State(Some(t), t, Some(t + 480 * MINUTE_MS), 480 * MINUTE_MS, false);
            var run := [Reload(t + 61 * MINUTE_MS)];
            && RunUnder(s, run, t, t, 480 * MINUTE_MS) && EndsEarly(s, run, t, 480 * MINUTE_MS)
            && run[0].now == LastActivity(run, t) + ConfiguredAfter(run, 480 * MINUTE_MS) - 419 * MINUTE_MS
  {
    var s := State(Some(t), t, Some(t + 480 * MINUTE_MS), 480 * MINUTE_MS, false);
    var run := [Reload(t + 61 * MINUTE_MS)];
    OneEvent(s, run, t);
    StaysConfigured(run, 480 * MINUTE_MS);
    assert ValidRun(Step(s, run[0]), run[1..], run[0].now);
  }
}
