/** The single outbound client: one token per attempt, automatic retry on HTTP 429 only. */
module AppliveryClients {
  import opened Prelude
  import opened TokenBuckets

  const TOO_MANY_REQUESTS := 429

  /** What one attempt gets: a response of any status, or no response at all. */
  datatype Reply = Status(code: int) | NetworkError

  /** `Waiting`: the clock readings ran out before the next token. */
  datatype Result = Returned(code: int) | Threw | Waiting

  function ConfigFor(perHour: real, burst: real): Config { Config(burst, perHour / 3600.0) }

  class AppliveryClient {
    const rateLimiter: TokenBucket

    constructor (perHour: real, burst: real, now: real)
      ensures fresh(rateLimiter)
      ensures rateLimiter.cfg == ConfigFor(perHour, burst)
      ensures rateLimiter.View() == State(burst, now)
    {
      rateLimiter := new TokenBucket(burst, perHour / 3600.0, now);
    }

    /** `schedule` lists the clock readings at which this request polls for tokens and `replies` what
        each attempt would get. */
    method Request(schedule: seq<real>, replies: seq<Reply>, retries: int)
        returns (result: Result, attempts: nat, used: nat)
      requires |replies| > Max(0, retries)
      modifies rateLimiter
      ensures used <= |schedule|
      ensures rateLimiter.View() == AfterAll(rateLimiter.cfg, old(rateLimiter.View()), 1.0, schedule[..used])
      // every attempt is paid for by exactly one token, also one that throws
      ensures attempts == Attempts(rateLimiter.cfg, old(rateLimiter.View()), schedule[..used])
      ensures attempts <= Max(0, retries) + 1
      // only a 429 is retried, and a 429 is returned only once the retries are spent
      ensures forall i :: 0 <= i < attempts - 1 ==> replies[i] == Status(429)
      ensures result.Returned? ==> attempts >= 1 && replies[attempts - 1] == Status(result.code)
      ensures result == Returned(429) ==> attempts == Max(0, retries) + 1
      ensures result.Threw? ==> attempts >= 1 && replies[attempts - 1].NetworkError?
      ensures result.Waiting? ==> used == |schedule|
      ensures result.Waiting? && attempts >= 1 ==> replies[attempts - 1] == Status(429) && attempts <= retries
      decreases Max(0, retries)
    {
      ghost var s0, cfg := rateLimiter.View(), rateLimiter.cfg;
      var ok, polled := rateLimiter.WaitForToken(1.0, schedule);
      WaitAttempts(cfg, s0, schedule, polled);
      if !ok {
        return Waiting, 0, polled;
      }
      var reply := replies[0];
      if reply.NetworkError? {
        return Threw, 1, polled;
      }
      if reply.code == TOO_MANY_REQUESTS && retries > 0 {
        var rest, more, after := Request(schedule[polled..], replies[1..], retries - 1);
        assert schedule[..polled] + schedule[polled..][..after] == schedule[..polled + after];
        AttemptsAppend(cfg, s0, schedule[..polled], schedule[polled..][..after]);
        AfterAllAppend(cfg, s0, 1.0, schedule[..polled], schedule[polled..][..after]);
        return rest, more + 1, polled + after;
      }
      return Returned(reply.code), 1, polled;
    }
  }

  lemma {:induction false} AttemptsAppend(cfg: Config, s: State, a: seq<real>, b: seq<real>)
    ensures Attempts(cfg, s, a + b) == Attempts(cfg, s, a) + Attempts(cfg, AfterAll(cfg, s, 1.0, a), b)
    decreases |a|
  {
    if a == [] {
      assert a + b == b;
    } else {
      AttemptsAppend(cfg, AfterConsume(cfg, s, 1.0, a[0]), a[1..], b);
      assert (a + b)[1..] == a[1..] + b;
    }
  }

  /** A wait that ends in a grant spends exactly one token; one still pending has spent none. */
  lemma {:induction false} WaitAttempts(cfg: Config, s: State, polls: seq<real>, used: nat)
    requires used == Min(FirstGrant(cfg, s, 1.0, polls) + 1, |polls|)
    ensures Attempts(cfg, s, polls[..used]) == if FirstGrant(cfg, s, 1.0, polls) < |polls| then 1 else 0
    decreases |polls|
  {
    if polls != [] {
      var next := AfterConsume(cfg, s, 1.0, polls[0]);
      assert polls[..used][1..] == polls[1..][..used - 1];
      if !Granted(cfg, s, 1.0, polls[0]) {
        if |polls| > 1 {
          WaitAttempts(cfg, next, polls[1..], used - 1);
        }
      } else {
        assert polls[..1][1..] == [];
      }
    }
  }

  /** The budget as configured: in any stretch of `length` milliseconds, attempts stay within the burst
      plus the hourly rate, whoever makes them. */
  lemma HourlyRate(perHour: real, burst: real, start: real, before: seq<real>, window: seq<real>, from: real,
                   length: real)
    requires perHour >= 0.0 && burst >= 0.0 && length >= 0.0 && Clock(start, before + window)
    requires forall i :: 0 <= i < |window| ==> from <= window[i] <= from + length
    ensures var cfg := ConfigFor(perHour, burst);
            WithinHourly(burst, perHour, Attempts(cfg, AfterAll(cfg, State(burst, start), 1.0, before), window), length)
  {
    var cfg := ConfigFor(perHour, burst);
    RatePromise(cfg, State(burst, start), before, window, from, length);
    PerHour(perHour, burst, Attempts(cfg, AfterAll(cfg, State(burst, start), 1.0, before), window), length);
  }

  ghost predicate WithinHourly(burst: real, perHour: real, n: nat, ms: real) {
    n as real * 3_600_000.0 <= burst * 3_600_000.0 + perHour * ms
  }

  lemma PerHour(perHour: real, burst: real, n: nat, ms: real)
    requires WithinRate(ConfigFor(perHour, burst), n, ms)
    ensures WithinHourly(burst, perHour, n, ms)
  {
    SixtyTimesSixty(perHour / 3600.0, perHour, ms);
  }

  lemma SixtyTimesSixty(perSecond: real, perHour: real, ms: real)
    requires perSecond * 3600.0 == perHour
    ensures perSecond * ms * 3600.0 == perHour * ms
  {
    assert perSecond * ms * 3600.0 == perSecond * 3600.0 * ms;
  }
}
