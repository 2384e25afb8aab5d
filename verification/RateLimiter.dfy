/** The inbound fixed-window limiter, one window per client address.
    Clock readings are milliseconds and nondecreasing. */
module RateLimiters {
  import opened Prelude

  const WINDOW_MS := 60_000

  datatype Window = Window(count: int, startedAt: int)

  datatype Verdict = Admit | Refuse(retryAfter: int)

  /** `Math.ceil(ms / 1000)` */
  function CeilSeconds(ms: int): int { -((-ms) / 1000) }

  function Decide(limit: int, bucket: Option<Window>, now: int): (Option<Window>, Verdict)
  {
    match bucket
    case None => (Some(Window(1, now)), Admit)
    case Some(w) =>
      if now - w.startedAt >= WINDOW_MS then (Some(Window(1, now)), Admit)
      else if w.count >= limit then (bucket, Refuse(CeilSeconds(w.startedAt + WINDOW_MS - now)))
      else (Some(w.(count := w.count + 1)), Admit)
  }

  class Limiter {
    const limit: int
    var buckets: map<string, Window>

    constructor (limit: int)
      ensures this.limit == limit && buckets == map[]
    {
      this.limit := limit;
      buckets := map[];
    }

    ghost function Bucket(ip: string): Option<Window>
      reads this
    {
      if ip in buckets then Some(buckets[ip]) else None
    }

    method Handle(ip: string, now: int) returns (v: Verdict)
      modifies this
      ensures (Bucket(ip), v) == Decide(limit, old(Bucket(ip)), now)
      ensures forall other :: other != ip ==> Bucket(other) == old(Bucket(other))
    {
      if ip !in buckets || now - buckets[ip].startedAt >= WINDOW_MS {
        buckets := buckets[ip := Window(1, now)];
        return Admit;
      }
      var bucket := buckets[ip];
      if bucket.count >= limit {
        return Refuse(CeilSeconds(bucket.startedAt + WINDOW_MS - now));
      }
      buckets := buckets[ip := bucket.(count := bucket.count + 1)];
      return Admit;
    }

    /** Serves a whole run of requests. For any client `ip` and any minute starting at `s`, that
        client is admitted exactly as often as if it had been alone. */
    method HandleAll(run: seq<(string, int)>, ghost ip: string, ghost s: int) returns (answers: seq<Verdict>)
      modifies this
      ensures |answers| == |run|
      ensures Bucket(ip) == BucketAfter(limit, old(Bucket(ip)), TimesOf(run, ip))
      ensures CountAdmitted(run, answers, ip, s) == Admissions(limit, old(Bucket(ip)), TimesOf(run, ip), s)
      ensures ip !in old(buckets) && Ordered(run) ==> CountAdmitted(run, answers, ip, s) <= 2 * Max(1, limit) - 1
    {
      if Ordered(run) {
        TimesOrdered(run, ip);
        MinuteBound(limit, TimesOf(run, ip), s);
      }
      answers := [];
      var i := 0;
      ghost var b0 := Bucket(ip);
      while i < |run|
        invariant 0 <= i <= |run| && |answers| == i
        invariant Bucket(ip) == BucketAfter(limit, b0, TimesOf(run[..i], ip))
        invariant CountAdmitted(run[..i], answers, ip, s) == Admissions(limit, b0, TimesOf(run[..i], ip), s)
      {
        var v := Handle(run[i].0, run[i].1);
        OneMoreHandled(limit, b0, run[..i], answers, run[i], v, ip, s);
        TakeOneMore(run, i);
        answers := answers + [v];
        i := i + 1;
      }
      assert run[..i] == run;
    }
  }

  lemma OneMoreHandled(
    limit: int, b0: Option<Window>, before: seq<(string, int)>, answers: seq<Verdict>, r: (string, int),
    v: Verdict, ip: string, s: int)
    requires |before| == |answers|
    requires r.0 == ip ==> v == Decide(limit, BucketAfter(limit, b0, TimesOf(before, ip)), r.1).1
    requires CountAdmitted(before, answers, ip, s) == Admissions(limit, b0, TimesOf(before, ip), s)
    ensures BucketAfter(limit, b0, TimesOf(before + [r], ip))
         == if r.0 == ip then Decide(limit, BucketAfter(limit, b0, TimesOf(before, ip)), r.1).0
            else BucketAfter(limit, b0, TimesOf(before, ip))
    ensures CountAdmitted(before + [r], answers + [v], ip, s) == Admissions(limit, b0, TimesOf(before + [r], ip), s)
  {
    assert (before + [r])[..|before|] == before && (answers + [v])[..|before|] == answers;
    BucketAfterSnoc(limit, b0, TimesOf(before, ip), r.1);
    AdmissionsSnoc(limit, b0, TimesOf(before, ip), r.1, s);
    if r.0 != ip {
      assert TimesOf(before + [r], ip) == TimesOf(before, ip);
    }
  }

  /** The clock readings at which one client's requests arrive. */
  function TimesOf(run: seq<(string, int)>, ip: string): (r: seq<int>)
  {
    if run == [] then []
    else
      var n := |run| - 1;
      TimesOf(run[..n], ip) + (if run[n].0 == ip then [run[n].1] else [])
  }

  ghost predicate Ordered(run: seq<(string, int)>) {
    forall i, j :: 0 <= i < j < |run| ==> run[i].1 <= run[j].1
  }

  lemma {:induction false} TimesOrdered(run: seq<(string, int)>, ip: string)
    requires Ordered(run)
    ensures TimesOf(run, ip) != [] ==> Clock(TimesOf(run, ip)[0], TimesOf(run, ip))
    ensures forall i :: 0 <= i < |TimesOf(run, ip)| ==> TimesOf(run, ip)[i] <= run[|run| - 1].1
  {
    if run != [] {
      TimesOrdered(run[..|run| - 1], ip);
    }
  }

  function CountAdmitted(run: seq<(string, int)>, answers: seq<Verdict>, ip: string, s: int): nat
    requires |run| == |answers|
  {
    if run == [] then 0
    else
      var n := |run| - 1;
      CountAdmitted(run[..n], answers[..n], ip, s)
      + (if run[n].0 == ip && answers[n].Admit? && s <= run[n].1 < s + 60_000 then 1 else 0)
  }

  function BucketAfter(limit: int, bucket: Option<Window>, times: seq<int>): Option<Window>
    decreases |times|
  {
    if times == [] then bucket else BucketAfter(limit, Decide(limit, bucket, times[0]).0, times[1..])
  }

  /** Admissions of one client falling in the half-open minute that starts at `s`. */
  function Admissions(limit: int, bucket: Option<Window>, times: seq<int>, s: int): nat
    decreases |times|
  {
    if times == [] then 0
    else
      (if Decide(limit, bucket, times[0]).1.Admit? && s <= times[0] < s + 60_000 then 1 else 0)
      + Admissions(limit, Decide(limit, bucket, times[0]).0, times[1..], s)
  }

  lemma {:induction false} BucketAfterSnoc(limit: int, bucket: Option<Window>, times: seq<int>, t: int)
    ensures BucketAfter(limit, bucket, times + [t]) == Decide(limit, BucketAfter(limit, bucket, times), t).0
    decreases |times|
  {
    if times != [] {
      BucketAfterSnoc(limit, Decide(limit, bucket, times[0]).0, times[1..], t);
      assert (times + [t])[1..] == times[1..] + [t];
    }
  }

  lemma AdmissionsSnoc(limit: int, bucket: Option<Window>, times: seq<int>, t: int, s: int)
    ensures Admissions(limit, bucket, times + [t], s) == Admissions(limit, bucket, times, s)
      + (if Decide(limit, BucketAfter(limit, bucket, times), t).1.Admit? && s <= t < s + 60_000 then 1 else 0)
  {
    AdmissionsAppend(limit, bucket, times, [t], s);
    var b := BucketAfter(limit, bucket, times);
    assert [t][1..] == [];
    assert Admissions(limit, Decide(limit, b, t).0, [], s) == 0;
  }

  lemma {:induction false} AdmissionsAppend(limit: int, bucket: Option<Window>, a: seq<int>, b: seq<int>, s: int)
    ensures Admissions(limit, bucket, a + b, s)
         == Admissions(limit, bucket, a, s) + Admissions(limit, BucketAfter(limit, bucket, a), b, s)
    decreases |a|
  {
    if a == [] {
      assert a + b == b;
    } else {
      AdmissionsAppend(limit, Decide(limit, bucket, a[0]).0, a[1..], b, s);
      assert (a + b)[1..] == a[1..] + b;
    }
  }

  ghost predicate Clock(from: int, times: seq<int>) {
    && (forall i :: 0 <= i < |times| ==> from <= times[i])
    && (forall i, j :: 0 <= i < j < |times| ==> times[i] <= times[j])
  }

  /** A window counts what it let in. */
  ghost predicate Healthy(limit: int, w: Window) { 1 <= w.count <= Max(1, limit) }

  /** Once a window has opened inside the minute, only its own remaining quota can still be spent
      there, because the next window opens after the minute is over. */
  lemma {:induction false} RestOfWindow(limit: int, w: Window, times: seq<int>, s: int)
    requires Healthy(limit, w) && Clock(w.startedAt, times) && s <= w.startedAt
    ensures Admissions(limit, Some(w), times, s) <= Max(1, limit) - w.count
    decreases |times|
  {
    if times != [] {
      if times[0] - w.startedAt >= WINDOW_MS {
        NothingAfter(limit, Some(Window(1, times[0])), times[1..], s);
      } else {
        var next := Decide(limit, Some(w), times[0]).0;
        RestOfWindow(limit, next.value, times[1..], s);
      }
    }
  }

  lemma {:induction false} NothingAfter(limit: int, b: Option<Window>, times: seq<int>, s: int)
    requires forall i :: 0 <= i < |times| ==> times[i] >= s + 60_000
    ensures Admissions(limit, b, times, s) == 0
    decreases |times|
  {
    if times != [] {
      NothingAfter(limit, Decide(limit, b, times[0]).0, times[1..], s);
    }
  }

  lemma {:induction false} OlderWindow(limit: int, w: Window, times: seq<int>, s: int)
    requires Healthy(limit, w) && Clock(w.startedAt, times) && w.startedAt < s
    ensures Admissions(limit, Some(w), times, s) <= 2 * Max(1, limit) - 1
    ensures (times != [] ==> s <= times[0]) ==> Admissions(limit, Some(w), times, s) <= 2 * Max(1, limit) - w.count
    decreases |times|
  {
    if times != [] {
      var next := Decide(limit, Some(w), times[0]).0;
      if times[0] - w.startedAt >= WINDOW_MS {
        if times[0] < s {
          OlderWindow(limit, next.value, times[1..], s);
        } else {
          RestOfWindow(limit, next.value, times[1..], s);
        }
      } else {
        OlderWindow(limit, next.value, times[1..], s);
      }
    }
  }

  /** The burst bound, for every run of one client and every half-open minute: one less than twice
      the limit, because a window that opened before the minute spent one admission outside it. */
  lemma MinuteBound(limit: int, times: seq<int>, s: int)
    requires times != [] ==> Clock(times[0], times)
    ensures Admissions(limit, None, times, s) <= 2 * Max(1, limit) - 1
    ensures limit >= 1 ==> Admissions(limit, None, times, s) <= 2 * limit
  {
    if times != [] {
      var w := Window(1, times[0]);
      if times[0] < s {
        OlderWindow(limit, w, times[1..], s);
      } else {
        RestOfWindow(limit, w, times[1..], s);
      }
    }
  }

  /** Requests inside a window with quota left are all admitted. */
  lemma {:induction false} BurstAdmitted(limit: int, w: Window, t: int, n: nat, s: int)
    requires w.startedAt <= t < w.startedAt + WINDOW_MS && s <= t < s + WINDOW_MS
    requires w.count + n <= limit
    ensures Admissions(limit, Some(w), Repeat(t, n), s) == n
    ensures BucketAfter(limit, Some(w), Repeat(t, n)) == Some(w.(count := w.count + n))
    decreases n
  {
    if n > 0 {
      assert Repeat(t, n)[1..] == Repeat(t, n - 1);
      BurstAdmitted(limit, w.(count := w.count + 1), t, n - 1, s);
    }
  }

  /** The bound is reached: one request just before the minute, a burst at its start, a burst in
      its last millisecond. */
  lemma MinuteBoundIsTight(limit: int, s: int) returns (times: seq<int>)
    requires limit >= 1
    ensures times != [] && Clock(times[0], times)
    ensures Admissions(limit, None, times, s) == 2 * limit - 1
  {
    var first, second := Repeat(s, limit - 1), Repeat(s + WINDOW_MS - 1, limit - 1);
    var reopened := [s + WINDOW_MS - 1] + second;
    times := [s - 1] + (first + reopened);
    assert times[1..] == first + reopened;
    var w := Window(1, s - 1);
    BurstAdmitted(limit, w, s, limit - 1, s);
    AdmissionsAppend(limit, Some(w), first, reopened, s);
    assert reopened[1..] == second;
    BurstAdmitted(limit, Window(1, s + WINDOW_MS - 1), s + WINDOW_MS - 1, limit - 1, s);
  }

  /** Every reachable window is healthy: it started no later than now and never over-admits. */
  lemma {:induction false} ReachableHealthy(limit: int, times: seq<int>)
    requires times != [] && Clock(times[0], times)
    ensures var b := BucketAfter(limit, None, times);
            b.Some? && Healthy(limit, b.value) && b.value.startedAt <= times[|times| - 1]
    decreases |times|
  {
    var n := |times| - 1;
    assert times == times[..n] + [times[n]];
    BucketAfterSnoc(limit, None, times[..n], times[n]);
    if n > 0 {
      ReachableHealthy(limit, times[..n]);
    }
  }

  /** A refusal happens only when the current window already holds `limit` admissions; the wait it
      announces is between 1 and 60 seconds, and waiting that long gets the next request in. */
  lemma RefusalIsHonest(limit: int, times: seq<int>, now: int, later: int)
    requires times != [] && Clock(times[0], times) && times[|times| - 1] <= now
    requires Decide(limit, BucketAfter(limit, None, times), now).1.Refuse?
    ensures var wait := Decide(limit, BucketAfter(limit, None, times), now).1.retryAfter;
            && 1 <= wait <= 60
            && (limit >= 1 ==> BucketAfter(limit, None, times).value.count == limit)
            && (later >= now + wait * 1000 ==> Decide(limit, BucketAfter(limit, None, times + [now]), later).1.Admit?)
  {
    ReachableHealthy(limit, times);
    BucketAfterSnoc(limit, None, times, now);
  }

  /** The count a window carries is the number of admissions since it opened. */
  lemma {:induction false} CountIsAdmissions(limit: int, w: Window, times: seq<int>)
    requires Clock(w.startedAt, times) && Healthy(limit, w)
    requires forall i :: 0 <= i < |times| ==> times[i] < w.startedAt + WINDOW_MS
    ensures BucketAfter(limit, Some(w), times)
         == Some(w.(count := w.count + Admissions(limit, Some(w), times, w.startedAt)))
    decreases |times|
  {
    if times != [] {
      CountIsAdmissions(limit, Decide(limit, Some(w), times[0]).0.value, times[1..]);
    }
  }
}
