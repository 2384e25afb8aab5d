/** The shared outbound token bucket and the retrying client that draws on it.
    Clock readings are milliseconds, supplied by the caller and nondecreasing. */
module TokenBuckets {
  import opened Prelude

  /** `capacity` tokens of burst, refilled at `rate` tokens per second. */
  datatype Config = Config(capacity: real, rate: real)

  datatype State = State(tokens: real, last: real)

  ghost predicate Sane(cfg: Config) { cfg.capacity >= 0.0 && cfg.rate >= 0.0 }

  ghost predicate Bounded(cfg: Config, s: State) { 0.0 <= s.tokens <= cfg.capacity }

  /** Tokens earned in `ms` milliseconds. */
  function Gain(rate: real, ms: real): real {
    ms / 1000.0 * rate
  }

  lemma GainAdds(rate: real, a: real, b: real)
    ensures Gain(rate, a) + Gain(rate, b) == Gain(rate, a + b)
  {
    assert a / 1000.0 + b / 1000.0 == (a + b) / 1000.0;
  }

  lemma GainGrows(rate: real, a: real, b: real)
    requires rate >= 0.0 && a <= b
    ensures Gain(rate, a) <= Gain(rate, b)
    ensures Gain(rate, 0.0) == 0.0
  {
    var x, y := a / 1000.0, b / 1000.0;
    assert (y - x) * rate >= 0.0;
  }

  function Refilled(cfg: Config, s: State, now: real): State {
    var t := s.tokens + Gain(cfg.rate, now - s.last);
    State(if t <= cfg.capacity then t else cfg.capacity, now)
  }

  function AfterConsume(cfg: Config, s: State, n: real, now: real): State {
    var r := Refilled(cfg, s, now);
    if r.tokens >= n then r.(tokens := r.tokens - n) else r
  }

  predicate Granted(cfg: Config, s: State, n: real, now: real) {
    Refilled(cfg, s, now).tokens >= n
  }

  class TokenBucket {
    const cfg: Config
    var tokens: real
    var lastRefill: real

    constructor (capacity: real, rate: real, now: real)
      ensures cfg == Config(capacity, rate)
      ensures View() == State(capacity, now)
    {
      cfg := Config(capacity, rate);
      tokens := capacity;
      lastRefill := now;
    }

    ghost function View(): State
      reads this
    {
      State(tokens, lastRefill)
    }

    method Refill(now: real)
      modifies this
      ensures View() == Refilled(cfg, old(View()), now)
    {
      var elapsedSeconds := (now - lastRefill) / 1000.0;
      var t := tokens + elapsedSeconds * cfg.rate;
      tokens := if t <= cfg.capacity then t else cfg.capacity;
      lastRefill := now;
    }

    method Consume(n: real, now: real) returns (ok: bool)
      modifies this
      ensures ok == Granted(cfg, old(View()), n, now)
      ensures View() == AfterConsume(cfg, old(View()), n, now)
    {
      Refill(now);
      if tokens >= n {
        tokens := tokens - n;
        return true;
      }
      return false;
    }

    /** Polls at the clock readings `polls` until a token is granted; `used` counts the polls
        spent. `ok` is false when the readings run out first (the caller is still waiting). */
    method WaitForToken(n: real, polls: seq<real>) returns (ok: bool, used: nat)
      modifies this
      ensures used <= |polls|
      ensures ok == (FirstGrant(cfg, old(View()), n, polls) < |polls|)
      ensures ok ==> used == FirstGrant(cfg, old(View()), n, polls) + 1
      ensures !ok ==> used == |polls|
      ensures View() == AfterAll(cfg, old(View()), n, polls[..used])
    {
      used := 0;
      ghost var start := View();
      while used < |polls|
        invariant used <= |polls|
        invariant View() == AfterAll(cfg, start, n, polls[..used])
        invariant FirstGrant(cfg, start, n, polls) == used + FirstGrant(cfg, View(), n, polls[used..])
      {
        ghost var here := View();
        var granted := Consume(n, polls[used]);
        AfterAllSnoc(cfg, start, n, polls[..used], polls[used]);
        assert polls[..used] + [polls[used]] == polls[..used + 1];
        assert polls[used..][1..] == polls[used + 1..];
        used := used + 1;
        if granted {
          return true, used;
        }
      }
      return false, used;
    }
  }

  /** State after consuming `n` tokens' worth of attempts at each of the clock readings. */
  function AfterAll(cfg: Config, s: State, n: real, polls: seq<real>): State
    decreases |polls|
  {
    if polls == [] then s else AfterAll(cfg, AfterConsume(cfg, s, n, polls[0]), n, polls[1..])
  }

  /** Index of the first granted poll, or the number of polls. */
  function FirstGrant(cfg: Config, s: State, n: real, polls: seq<real>): nat
    decreases |polls|
  {
    if polls == [] then 0
    else if Granted(cfg, s, n, polls[0]) then 0
    else 1 + FirstGrant(cfg, AfterConsume(cfg, s, n, polls[0]), n, polls[1..])
  }

  lemma {:induction false} AfterAllSnoc(cfg: Config, s: State, n: real, polls: seq<real>, t: real)
    ensures AfterAll(cfg, s, n, polls + [t]) == AfterConsume(cfg, AfterAll(cfg, s, n, polls), n, t)
    decreases |polls|
  {
    if polls != [] {
      AfterAllSnoc(cfg, AfterConsume(cfg, s, n, polls[0]), n, polls[1..], t);
      assert (polls + [t])[1..] == polls[1..] + [t];
    }
  }

  lemma {:induction false} AfterAllAppend(cfg: Config, s: State, n: real, a: seq<real>, b: seq<real>)
    ensures AfterAll(cfg, s, n, a + b) == AfterAll(cfg, AfterAll(cfg, s, n, a), n, b)
    decreases |a|
  {
    if a == [] {
      assert a + b == b;
    } else {
      AfterAllAppend(cfg, AfterConsume(cfg, s, n, a[0]), n, a[1..], b);
      assert (a + b)[1..] == a[1..] + b;
    }
  }

  /** How many of the single-token polls are granted. Every outbound attempt is such a grant. */
  function Attempts(cfg: Config, s: State, polls: seq<real>): nat
    decreases |polls|
  {
    if polls == [] then 0
    else
      (if Granted(cfg, s, 1.0, polls[0]) then 1 else 0)
      + Attempts(cfg, AfterConsume(cfg, s, 1.0, polls[0]), polls[1..])
  }

  ghost predicate Clock(from: real, polls: seq<real>) {
    && (forall i :: 0 <= i < |polls| ==> from <= polls[i])
    && (forall i, j :: 0 <= i < j < |polls| ==> polls[i] <= polls[j])
  }

  lemma ConsumeBounded(cfg: Config, s: State, n: real, now: real)
    requires Sane(cfg) && Bounded(cfg, s) && s.last <= now && n >= 0.0
    ensures Bounded(cfg, AfterConsume(cfg, s, n, now))
    ensures s.tokens <= Refilled(cfg, s, now).tokens <= s.tokens + Gain(cfg.rate, now - s.last)
  {
    GainGrows(cfg.rate, 0.0, now - s.last);
  }

  /** Tokens never leave [0, capacity], whatever sequence of callers draws on the bucket. */
  lemma {:induction false} TokensStayInRange(cfg: Config, s: State, polls: seq<real>)
    requires Sane(cfg) && Bounded(cfg, s) && Clock(s.last, polls)
    ensures Bounded(cfg, AfterAll(cfg, s, 1.0, polls))
    ensures polls != [] ==> AfterAll(cfg, s, 1.0, polls).last == polls[|polls| - 1]
    ensures polls == [] ==> AfterAll(cfg, s, 1.0, polls).last == s.last
    decreases |polls|
  {
    if polls != [] {
      ConsumeBounded(cfg, s, 1.0, polls[0]);
      TokensStayInRange(cfg, AfterConsume(cfg, s, 1.0, polls[0]), polls[1..]);
    }
  }

  /** Attempts made are paid for by tokens in hand plus tokens refilled meanwhile. */
  lemma {:induction false} AttemptsArePaid(cfg: Config, s: State, polls: seq<real>)
    requires Sane(cfg) && Bounded(cfg, s) && polls != [] && Clock(s.last, polls)
    ensures Attempts(cfg, s, polls) as real <= s.tokens + Gain(cfg.rate, polls[|polls| - 1] - s.last)
    decreases |polls|
  {
    var next := AfterConsume(cfg, s, 1.0, polls[0]);
    var end := polls[|polls| - 1];
    ConsumeBounded(cfg, s, 1.0, polls[0]);
    if |polls| > 1 {
      AttemptsArePaid(cfg, next, polls[1..]);
      GainAdds(cfg.rate, polls[0] - s.last, end - polls[0]);
      assert polls[0] - s.last + (end - polls[0]) == end - s.last;
    } else {
      assert Attempts(cfg, next, polls[1..]) == 0;
    }
  }

  /** `n` attempts are at most the burst plus what `ms` milliseconds refill. */
  ghost predicate Affordable(cfg: Config, n: nat, ms: real) { n as real <= cfg.capacity + Gain(cfg.rate, ms) }

  /** From one state on, attempts are at most the burst plus the sustained rate times the span. */
  lemma BurstPlusRate(cfg: Config, s: State, polls: seq<real>)
    requires Sane(cfg) && Bounded(cfg, s) && polls != [] && Clock(s.last, polls)
    ensures Affordable(cfg, Attempts(cfg, s, polls), polls[|polls| - 1] - polls[0])
  {
    ConsumeBounded(cfg, s, 1.0, polls[0]);
    SameAfterRefill(cfg, s, polls);
    AttemptsArePaid(cfg, Refilled(cfg, s, polls[0]), polls);
  }

  lemma LongerIsAffordable(cfg: Config, n: nat, a: real, b: real)
    requires Sane(cfg) && a <= b && Affordable(cfg, n, a)
    ensures Affordable(cfg, n, b)
  {
    GainGrows(cfg.rate, a, b);
  }

  lemma NoneIsAffordable(cfg: Config, length: real)
    requires Sane(cfg) && length >= 0.0
    ensures Affordable(cfg, 0, length)
  {
    GainGrows(cfg.rate, 0.0, length);
  }

  /** The rate promise: in any stretch of any run, whoever is drawing on the bucket, attempts are
      at most the burst plus the sustained rate times the length of the stretch. */
  lemma WindowBound(cfg: Config, s: State, before: seq<real>, window: seq<real>, start: real, length: real)
    requires Sane(cfg) && Bounded(cfg, s) && Clock(s.last, before + window) && length >= 0.0
    requires forall i :: 0 <= i < |window| ==> start <= window[i] <= start + length
    ensures Affordable(cfg, Attempts(cfg, AfterAll(cfg, s, 1.0, before), window), length)
  {
    var m := AfterAll(cfg, s, 1.0, before);
    if window == [] {
      NoAttempts(cfg, m);
      NoneIsAffordable(cfg, length);
    } else {
      var span := window[|window| - 1] - window[0];
      assert span <= length;
      RunBound(cfg, s, before, window);
      LongerIsAffordable(cfg, Attempts(cfg, m, window), span, length);
    }
  }

  lemma NoAttempts(cfg: Config, s: State)
    ensures Attempts(cfg, s, []) == 0
  {
  }

  lemma RunBound(cfg: Config, s: State, before: seq<real>, window: seq<real>)
    requires Sane(cfg) && Bounded(cfg, s) && Clock(s.last, before + window) && window != []
    ensures Affordable(cfg, Attempts(cfg, AfterAll(cfg, s, 1.0, before), window), window[|window| - 1] - window[0])
  {
    ClockSplit(s.last, before, window);
    TokensStayInRange(cfg, s, before);
    BurstPlusRate(cfg, AfterAll(cfg, s, 1.0, before), window);
  }

  lemma ClockSplit(from: real, a: seq<real>, b: seq<real>)
    requires Clock(from, a + b)
    ensures Clock(from, a) && Clock(if a == [] then from else a[|a| - 1], b)
  {
    var c := a + b;
    assert forall i :: 0 <= i < |a| ==> a[i] == c[i];
    assert forall i :: 0 <= i < |b| ==> b[i] == c[|a| + i];
    if a != [] {
      assert a[|a| - 1] == c[|a| - 1];
    }
  }

  lemma SameAfterRefill(cfg: Config, s: State, polls: seq<real>)
    requires Sane(cfg) && polls != []
    ensures Attempts(cfg, s, polls) == Attempts(cfg, Refilled(cfg, s, polls[0]), polls)
  {
    GainGrows(cfg.rate, 0.0, 0.0);
    var r := Refilled(cfg, s, polls[0]);
    assert polls[0] - r.last == 0.0;
    assert Refilled(cfg, r, polls[0]) == r;
  }

  // ---- the rate in plain numbers ----

  lemma GainPerSecond(rate: real, ms: real)
    ensures Gain(rate, ms) * 1000.0 == rate * ms
  {
    assert ms / 1000.0 * 1000.0 == ms;
    assert ms / 1000.0 * rate * 1000.0 == ms / 1000.0 * 1000.0 * rate;
  }

  /** `n` attempts are within the burst plus `rate` per second over `ms` milliseconds. */
  ghost predicate WithinRate(cfg: Config, n: nat, ms: real) {
    n as real * 1000.0 <= cfg.capacity * 1000.0 + cfg.rate * ms
  }

  lemma AffordableIsWithinRate(cfg: Config, n: nat, ms: real)
    ensures Affordable(cfg, n, ms) <==> WithinRate(cfg, n, ms)
  {
    GainPerSecond(cfg.rate, ms);
  }

  /** The rate promise in those numbers. */
  lemma RatePromise(cfg: Config, s: State, before: seq<real>, window: seq<real>, start: real, length: real)
    requires Sane(cfg) && Bounded(cfg, s) && Clock(s.last, before + window) && length >= 0.0
    requires forall i :: 0 <= i < |window| ==> start <= window[i] <= start + length
    ensures WithinRate(cfg, Attempts(cfg, AfterAll(cfg, s, 1.0, before), window), length)
  {
    WindowBound(cfg, s, before, window, start, length);
    AffordableIsWithinRate(cfg, Attempts(cfg, AfterAll(cfg, s, 1.0, before), window), length);
  }

  /** A thousand times the tokens there are at `now`, before any is taken. */
  function Supply(cfg: Config, s: State, now: real): real { s.tokens * 1000.0 + cfg.rate * (now - s.last) }

  lemma RefilledSupply(cfg: Config, s: State, now: real)
    ensures Refilled(cfg, s, now).last == now
    ensures Refilled(cfg, s, now).tokens * 1000.0
         == if Supply(cfg, s, now) <= cfg.capacity * 1000.0 then Supply(cfg, s, now) else cfg.capacity * 1000.0
  {
    GainPerSecond(cfg.rate, now - s.last);
    Scaled(s.tokens, Gain(cfg.rate, now - s.last), cfg.capacity, cfg.rate * (now - s.last));
  }

  lemma Scaled(tokens: real, gain: real, capacity: real, product: real)
    requires gain * 1000.0 == product
    ensures (if tokens + gain <= capacity then tokens + gain else capacity) * 1000.0
         == if tokens * 1000.0 + product <= capacity * 1000.0 then tokens * 1000.0 + product else capacity * 1000.0
  {
  }

  /** Nor is the bucket stingier than that: a request for `n` tokens is granted exactly when the
      capacity allows it and the tokens at hand plus the refill since then suffice; it then leaves
      what there was, up to the capacity, less `n`. */
  lemma GrantedExactly(cfg: Config, s: State, n: real, now: real)
    ensures Granted(cfg, s, n, now) <==> cfg.capacity >= n && Supply(cfg, s, now) >= n * 1000.0
    ensures AfterConsume(cfg, s, n, now).last == now
    ensures AfterConsume(cfg, s, n, now).tokens
         == Refilled(cfg, s, now).tokens - (if Granted(cfg, s, n, now) then n else 0.0)
  {
    RefilledSupply(cfg, s, now);
    Threshold(Refilled(cfg, s, now).tokens, Supply(cfg, s, now), cfg.capacity, n);
  }

  lemma Threshold(tokens: real, supply: real, capacity: real, n: real)
    requires tokens * 1000.0 == if supply <= capacity * 1000.0 then supply else capacity * 1000.0
    ensures tokens >= n <==> capacity >= n && supply >= n * 1000.0
  {
  }

  /** An empty bucket grants its first token once it has refilled for 1000 / rate milliseconds. */
  lemma FirstToken(cfg: Config, emptied: real, now: real)
    requires cfg.capacity >= 1.0
    ensures Granted(cfg, State(0.0, emptied), 1.0, now) <==> cfg.rate * (now - emptied) >= 1000.0
  {
    var s := State(0.0, emptied);
    RefilledSupply(cfg, s, now);
    OneToken(Refilled(cfg, s, now).tokens, Supply(cfg, s, now), cfg.capacity, cfg.rate * (now - emptied));
  }

  lemma OneToken(tokens: real, supply: real, capacity: real, product: real)
    requires tokens * 1000.0 == if supply <= capacity * 1000.0 then supply else capacity * 1000.0
    requires supply == 0.0 * 1000.0 + product && capacity >= 1.0
    ensures tokens >= 1.0 <==> product >= 1000.0
  {
  }

  // ---- waiting alone ----

  /** Clock readings of a lone waiter: one poll every 100 ms. */
  function Polls(start: real, count: nat): (r: seq<real>)
    ensures |r| == count
  {
    seq(count, i => start + 100.0 * i as real)
  }

  /** A lone waiter for `n` tokens is served within some number of polls exactly when the bucket can
      ever hold `n`: it does already, or it refills and its capacity reaches `n`. */
  lemma WaiterServed(cfg: Config, s: State, n: real) returns (count: nat)
    requires Sane(cfg) && Bounded(cfg, s) && n >= 0.0
    requires s.tokens >= n || (cfg.rate > 0.0 && cfg.capacity >= n)
    ensures FirstGrant(cfg, s, n, Polls(s.last, count)) < count
  {
    count := CountFor(cfg.rate, n);
    Climb(cfg, s, n, s.last, count);
  }

  lemma CountFor(rate: real, n: real) returns (count: nat)
    requires rate >= 0.0 && n >= 0.0
    ensures count >= 1
    ensures rate > 0.0 ==> (count - 1) as real * Gain(rate, 100.0) >= n
  {
    if rate > 0.0 {
      var q := n / Gain(rate, 100.0);
      assert q >= 0.0;
      count := q.Floor + 2;
      assert (count - 1) as real >= q;
      assert q * Gain(rate, 100.0) == n;
      assert (count - 1) as real * Gain(rate, 100.0) >= q * Gain(rate, 100.0);
    } else {
      count := 1;
    }
  }

  /** Each failed poll leaves a tenth of a second's refill behind. */
  lemma {:induction false} Climb(cfg: Config, s: State, n: real, start: real, count: nat)
    requires Sane(cfg) && Bounded(cfg, s) && n >= 0.0 && count >= 1
    requires s.last <= start
    requires s.tokens >= n
          || (cfg.rate > 0.0 && cfg.capacity >= n
              && Refilled(cfg, s, start).tokens + (count - 1) as real * Gain(cfg.rate, 100.0) >= n)
    ensures FirstGrant(cfg, s, n, Polls(start, count)) < count
    decreases count
  {
    var polls := Polls(start, count);
    ConsumeBounded(cfg, s, n, polls[0]);
    assert polls[0] == start;
    if !Granted(cfg, s, n, start) {
      var next := AfterConsume(cfg, s, n, start);
      assert next == Refilled(cfg, s, start) && next.last == start;
      assert count > 1;
      forall i | 0 <= i < count - 1 ensures polls[1..][i] == Polls(start + 100.0, count - 1)[i] {
        assert polls[1..][i] == start + 100.0 * (i + 1) as real;
      }
      assert polls[1..] == Polls(start + 100.0, count - 1);
      var unit := Gain(cfg.rate, 100.0);
      var r := Refilled(cfg, next, start + 100.0);
      assert start + 100.0 - next.last == 100.0;
      assert r.tokens == (if next.tokens + unit <= cfg.capacity then next.tokens + unit else cfg.capacity);
      assert (count - 1) as real * unit == (count - 2) as real * unit + unit;
      assert (count - 2) as real * unit >= 0.0;
      Climb(cfg, next, n, start + 100.0, count - 1);
    }
  }

  /** Otherwise no schedule of polls ever serves it. */
  lemma {:induction false} WaiterStarves(cfg: Config, s: State, n: real, polls: seq<real>)
    requires Sane(cfg) && Bounded(cfg, s) && Clock(s.last, polls)
    requires s.tokens < n && (cfg.rate == 0.0 || cfg.capacity < n)
    ensures FirstGrant(cfg, s, n, polls) == |polls|
    decreases |polls|
  {
    if polls != [] {
      ConsumeBounded(cfg, s, n, polls[0]);
      assert cfg.rate == 0.0 ==> Gain(cfg.rate, polls[0] - s.last) == 0.0;
      assert !Granted(cfg, s, n, polls[0]);
      WaiterStarves(cfg, AfterConsume(cfg, s, n, polls[0]), n, polls[1..]);
    }
  }
}
