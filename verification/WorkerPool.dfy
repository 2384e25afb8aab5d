/** The bounded worker pool behind `mapWithConcurrency` and `refreshInstalledAppsBatch`:
    workers share one cursor and run to their next `await` without interruption. */
module WorkerPool {
  import opened Prelude

  /** What the call for one item will do. `Skip` is an item passed over without awaiting, as the
      refresh batch does for a device it no longer knows; `mapWithConcurrency` has none. */
  datatype Outcome<R> = Value(r: R) | Throws | Skip

  datatype Worker = InFlight(item: nat) | Finished | Crashed

  /** `calls` records the items handed to the callback, in order. */
  datatype Pool<R> = Pool(next: nat, results: seq<Option<R>>, workers: seq<Worker>, calls: seq<nat>)

  /** The synchronous part of a worker's loop: claim indices from `next` on until one awaits. */
  function Claim<R>(items: seq<Outcome<R>>, next: nat): (Worker, nat)
    decreases |items| - next
  {
    if next >= |items| then (Finished, next)
    else if items[next].Skip? then Claim(items, next + 1)
    else (InFlight(next), next + 1)
  }

  function Calling(w: Worker): seq<nat> {
    if w.InFlight? then [w.item] else []
  }

  function Spawn<R>(items: seq<Outcome<R>>, p: Pool<R>): Pool<R> {
    var (w, next) := Claim(items, p.next);
    p.(next := next, workers := p.workers + [w], calls := p.calls + Calling(w))
  }

  /** All workers run up to their first await as they are created. */
  function Started<R>(items: seq<Outcome<R>>, count: nat): Pool<R> {
    if count == 0 then Pool(0, seq(|items|, _ => None), [], []) else Spawn(items, Started(items, count - 1))
  }

  function WorkerCount(limit: int, n: nat): nat { Max(0, Min(limit, n)) }

  /** Worker `k` is awaiting the call for an item of the list. */
  predicate CanStep<R>(items: seq<Outcome<R>>, p: Pool<R>, k: nat) {
    k < |p.workers| && p.workers[k].InFlight? && p.workers[k].item < |items| == |p.results|
  }

  /** The call worker `k` awaits settles; the worker stores the value and claims again. */
  function Step<R>(items: seq<Outcome<R>>, p: Pool<R>, k: nat): Pool<R>
    requires CanStep(items, p, k)
  {
    var i := p.workers[k].item;
    match items[i]
    case Value(r) =>
      var (w, next) := Claim(items, p.next);
      Pool(next, p.results[i := Some(r)], p.workers[k := w], p.calls + Calling(w))
    case _ => p.(workers := p.workers[k := Crashed])
  }

  /** The items below `next` that call the callback. */
  function Called<R>(items: seq<Outcome<R>>, next: nat): seq<nat>
    requires next <= |items|
  {
    if next == 0 then []
    else Called(items, next - 1) + (if items[next - 1].Skip? then [] else [next - 1])
  }

  ghost predicate Awaited<R>(p: Pool<R>, i: nat) {
    exists k :: 0 <= k < |p.workers| && p.workers[k] == InFlight(i)
  }

  ghost predicate Failed<R>(p: Pool<R>) {
    exists k :: 0 <= k < |p.workers| && p.workers[k] == Crashed
  }

  /** What a claimed item is up to. */
  ghost predicate Accounted<R>(items: seq<Outcome<R>>, p: Pool<R>, i: nat)
    requires i < |items| == |p.results|
  {
    match items[i]
    case Skip => p.results[i].None? && !Awaited(p, i)
    case Throws => p.results[i].None? && (Awaited(p, i) || Failed(p))
    case Value(r) => if Awaited(p, i) then p.results[i].None? else p.results[i] == Some(r)
  }

  /** Workers hold distinct claimed items, and stop only when none is left. */
  ghost predicate WorkersOk<R>(items: seq<Outcome<R>>, p: Pool<R>) {
    && p.next <= |items| == |p.results|
    && p.calls == Called(items, p.next)
    && (forall k :: 0 <= k < |p.workers| && p.workers[k].InFlight? ==> p.workers[k].item < p.next)
    && (forall j, k :: 0 <= j < k < |p.workers| && p.workers[j].InFlight? ==> p.workers[j] != p.workers[k])
    && (forall k :: 0 <= k < |p.workers| && p.workers[k].Finished? ==> p.next == |items|)
    && (Failed(p) ==> exists i :: 0 <= i < |items| && items[i].Throws?)
  }

  ghost predicate Inv<R>(items: seq<Outcome<R>>, p: Pool<R>) {
    && WorkersOk(items, p)
    && (forall i :: 0 <= i < p.next ==> Accounted(items, p, i))
    && (forall i :: p.next <= i < |items| ==> p.results[i].None?)
  }

  lemma {:induction false} ClaimRange<R>(items: seq<Outcome<R>>, next: nat)
    requires next <= |items|
    ensures var (w, next') := Claim(items, next);
            && next <= next' <= |items|
            && (w.InFlight? ==> next <= w.item && w.item + 1 == next' && !items[w.item].Skip?)
            && (w.Finished? ==> next' == |items|)
            && !w.Crashed?
            && (forall i :: next <= i < next' && w != InFlight(i) ==> items[i].Skip?)
    decreases |items| - next
  {
    if next < |items| && items[next].Skip? {
      ClaimRange(items, next + 1);
    }
  }

  lemma {:induction false} ClaimCalls<R>(items: seq<Outcome<R>>, next: nat)
    requires next <= |items|
    ensures next <= Claim(items, next).1 <= |items|
    ensures Called(items, Claim(items, next).1) == Called(items, next) + Calling(Claim(items, next).0)
    decreases |items| - next
  {
    if next < |items| && items[next].Skip? {
      ClaimCalls(items, next + 1);
      assert Called(items, next + 1) == Called(items, next);
    }
  }

  lemma ClaimFacts<R>(items: seq<Outcome<R>>, next: nat)
    requires next <= |items|
    ensures var (w, next') := Claim(items, next);
            && next <= next' <= |items|
            && Called(items, next') == Called(items, next) + Calling(w)
            && (w.InFlight? ==> next <= w.item && w.item + 1 == next' && !items[w.item].Skip?)
            && (w.Finished? ==> next' == |items|)
            && !w.Crashed?
            && (forall i :: next <= i < next' && w != InFlight(i) ==> items[i].Skip?)
  {
    ClaimRange(items, next);
    ClaimCalls(items, next);
  }

  lemma SpawnAccounts<R>(items: seq<Outcome<R>>, p: Pool<R>, i: nat)
    requires Inv(items, p) && i < Spawn(items, p).next
    ensures i < |items| && Accounted(items, Spawn(items, p), i)
  {
    ClaimFacts(items, p.next);
    var q := Spawn(items, p);
    var n := |p.workers|;
    assert forall k :: 0 <= k < n ==> q.workers[k] == p.workers[k];
    assert q.workers[n] == InFlight(i) ==> Awaited(q, i);
    if Awaited(q, i) {
      var k :| 0 <= k <= n && q.workers[k] == InFlight(i);
      assert k < n ==> Awaited(p, i);
    }
    if i < p.next {
      assert Accounted(items, p, i);
      if Awaited(p, i) {
        var k :| 0 <= k < n && p.workers[k] == InFlight(i);
        assert q.workers[k] == InFlight(i);
      }
      if Failed(p) {
        var k :| 0 <= k < n && p.workers[k] == Crashed;
        assert q.workers[k] == Crashed;
      }
    }
  }

  /** One more worker that holds nothing claimed before keeps the workers in order. */
  lemma WorkerAdded<R>(items: seq<Outcome<R>>, p: Pool<R>, q: Pool<R>, w: Worker)
    requires WorkersOk(items, p)
    requires q.workers == p.workers + [w] && q.results == p.results && !w.Crashed?
    requires p.next <= q.next <= |items| && q.calls == Called(items, q.next)
    requires w.InFlight? ==> p.next <= w.item < q.next
    requires w.Finished? ==> q.next == |items|
    ensures WorkersOk(items, q)
  {
    var n := |p.workers|;
    assert q.workers[n] == w && forall k :: 0 <= k < n ==> q.workers[k] == p.workers[k];
    if Failed(q) {
      var k :| 0 <= k <= n && q.workers[k] == Crashed;
      assert p.workers[k] == Crashed;
    }
  }

  lemma SpawnKeepsWorkers<R>(items: seq<Outcome<R>>, p: Pool<R>)
    requires WorkersOk(items, p)
    ensures WorkersOk(items, Spawn(items, p))
  {
    ClaimFacts(items, p.next);
    WorkerAdded(items, p, Spawn(items, p), Claim(items, p.next).0);
  }

  lemma SpawnKeepsInv<R>(items: seq<Outcome<R>>, p: Pool<R>)
    requires Inv(items, p)
    ensures Inv(items, Spawn(items, p))
  {
    SpawnKeepsWorkers(items, p);
    var q := Spawn(items, p);
    ClaimFacts(items, p.next);
    forall i | 0 <= i < q.next ensures i < |items| && Accounted(items, q, i) {
      SpawnAccounts(items, p, i);
    }
  }

  lemma {:induction false} StartedInv<R>(items: seq<Outcome<R>>, count: nat)
    ensures Inv(items, Started(items, count)) && |Started(items, count).workers| == count
    decreases count
  {
    if count > 0 {
      StartedInv(items, count - 1);
      SpawnKeepsInv(items, Started(items, count - 1));
    }
  }

  function Flying(ws: seq<Worker>): nat {
    if ws == [] then 0 else Flying(ws[..|ws| - 1]) + (if ws[|ws| - 1].InFlight? then 1 else 0)
  }

  lemma {:induction false} FlyingUpdate(ws: seq<Worker>, k: nat, w: Worker)
    requires k < |ws| && ws[k].InFlight?
    ensures Flying(ws) >= 1
    ensures Flying(ws[k := w]) == Flying(ws) - (if w.InFlight? then 0 else 1)
  {
    var n := |ws| - 1;
    assert ws[k := w][..n] == if k < n then ws[..n][k := w] else ws[..n];
    if k < n {
      FlyingUpdate(ws[..n], k, w);
    }
  }

  ghost function Remaining<R>(items: seq<Outcome<R>>, p: Pool<R>): int {
    |items| - p.next + Flying(p.workers)
  }

  /** Every interleaving keeps the invariant, and every step brings the pool closer to done. */
  lemma StepKeepsInv<R>(items: seq<Outcome<R>>, p: Pool<R>, k: nat)
    requires Inv(items, p) && CanStep(items, p, k)
    ensures Inv(items, Step(items, p, k))
    ensures |Step(items, p, k).workers| == |p.workers|
    ensures 0 <= Remaining(items, Step(items, p, k)) < Remaining(items, p)
  {
    ClaimFacts(items, p.next);
    var q := Step(items, p, k);
    var settled := p.workers[k].item;
    assert Accounted(items, p, settled);
    assert Awaited(p, settled);
    FlyingUpdate(p.workers, k, q.workers[k]);
    forall i | 0 <= i < q.next ensures Accounted(items, q, i) {
      StepAccounts(items, p, k, i);
    }
  }

  lemma StepAccounts<R>(items: seq<Outcome<R>>, p: Pool<R>, k: nat, i: nat)
    requires Inv(items, p) && CanStep(items, p, k) && i < Step(items, p, k).next
    ensures i < |items| && Accounted(items, Step(items, p, k), i)
  {
    ClaimFacts(items, p.next);
    var q := Step(items, p, k);
    var settled := p.workers[k].item;
    assert Accounted(items, p, settled) && Awaited(p, settled);
    assert q.workers[k] == Crashed ==> Failed(q);
    assert q.workers[k] == InFlight(i) ==> Awaited(q, i);
    if Failed(p) {
      var c :| 0 <= c < |p.workers| && p.workers[c] == Crashed;
      assert q.workers[c] == Crashed;
    }
    if i != settled && Awaited(p, i) {
      var c :| 0 <= c < |p.workers| && p.workers[c] == InFlight(i);
      assert q.workers[c] == InFlight(i);
    }
    if Awaited(q, i) {
      var c :| 0 <= c < |q.workers| && q.workers[c] == InFlight(i);
      assert c != k ==> p.workers[c] == InFlight(i);
    }
    if i < p.next {
      assert Accounted(items, p, i);
    }
  }

  /** The steps of a run name the worker whose call settles next. */
  ghost predicate ValidRun<R>(items: seq<Outcome<R>>, p: Pool<R>, run: seq<nat>)
    decreases |run|
  {
    run == [] || (CanStep(items, p, run[0]) && ValidRun(items, Step(items, p, run[0]), run[1..]))
  }

  ghost function After<R>(items: seq<Outcome<R>>, p: Pool<R>, run: seq<nat>): Pool<R>
    requires ValidRun(items, p, run)
    decreases |run|
  {
    if run == [] then p else After(items, Step(items, p, run[0]), run[1..])
  }

  lemma {:induction false} RunKeepsInv<R>(items: seq<Outcome<R>>, p: Pool<R>, run: seq<nat>)
    requires Inv(items, p) && ValidRun(items, p, run)
    ensures Inv(items, After(items, p, run))
    ensures |After(items, p, run).workers| == |p.workers|
    ensures |run| + Remaining(items, After(items, p, run)) <= Remaining(items, p)
    decreases |run|
  {
    if run != [] {
      StepKeepsInv(items, p, run[0]);
      RunKeepsInv(items, Step(items, p, run[0]), run[1..]);
    }
  }

  /** No index is ever handed to the callback twice, and items are handed over in input order. */
  lemma {:induction false} CallsAscend<R>(items: seq<Outcome<R>>, next: nat)
    requires next <= |items|
    ensures forall i, j :: 0 <= i < j < |Called(items, next)| ==> Called(items, next)[i] < Called(items, next)[j]
    ensures forall i :: i in Called(items, next) <==> 0 <= i < next && !items[i].Skip?
  {
    if next > 0 {
      CallsAscend(items, next - 1);
      var c := Called(items, next - 1);
      assert forall i :: 0 <= i < |c| ==> c[i] in c;
    }
  }

  /** At most `limit` calls in flight, each item handed over at most once and in order, and no
      result slot ever holding anything but its own item's value. */
  ghost predicate Safe<R>(items: seq<Outcome<R>>, limit: int, p: Pool<R>) {
    && Flying(p.workers) <= Max(0, limit)
    && (forall i, j :: 0 <= i < j < |p.calls| ==> p.calls[i] < p.calls[j])
    && |p.results| == |items|
    && (forall i :: 0 <= i < |items| && p.results[i].Some? ==> items[i] == Value(p.results[i].value) && i in p.calls)
  }

  lemma InvIsSafe<R>(items: seq<Outcome<R>>, limit: int, p: Pool<R>)
    requires Inv(items, p) && |p.workers| <= Max(0, limit)
    ensures Safe(items, limit, p)
  {
    FlyingAtMost(p.workers);
    CallsAscend(items, p.next);
    forall i | 0 <= i < |items| && p.results[i].Some?
      ensures items[i] == Value(p.results[i].value) && i in p.calls
    {
      assert i < p.next && Accounted(items, p, i);
    }
  }

  /** Safety over every run, whatever the order in which calls settle. */
  lemma RunIsSafe<R>(items: seq<Outcome<R>>, limit: int, run: seq<nat>)
    requires ValidRun(items, Started(items, WorkerCount(limit, |items|)), run)
    ensures Safe(items, limit, After(items, Started(items, WorkerCount(limit, |items|)), run))
  {
    var start := Started(items, WorkerCount(limit, |items|));
    StartedInv(items, WorkerCount(limit, |items|));
    RunKeepsInv(items, start, run);
    InvIsSafe(items, limit, After(items, start, run));
  }

  lemma {:induction false} FlyingAtMost(ws: seq<Worker>)
    ensures Flying(ws) <= |ws|
    ensures Flying(ws) == 0 ==> forall k :: 0 <= k < |ws| ==> !ws[k].InFlight?
  {
    if ws != [] {
      FlyingAtMost(ws[..|ws| - 1]);
      assert forall k :: 0 <= k < |ws| - 1 ==> ws[k] == ws[..|ws| - 1][k];
    }
  }

  /** What the caller sees once nothing is in flight. */
  lemma Completion<R>(items: seq<Outcome<R>>, limit: int, p: Pool<R>)
    requires Inv(items, p) && |p.workers| == WorkerCount(limit, |items|)
    requires forall k :: !CanStep(items, p, k)
    requires limit >= 1 || items == []
    ensures Failed(p) <==> exists i :: 0 <= i < |items| && items[i].Throws?
    ensures !Failed(p) ==> p.calls == Called(items, |items|)
    ensures !Failed(p) ==> forall i :: 0 <= i < |items| ==>
              p.results[i] == (if items[i].Value? then Some(items[i].r) else None)
  {
    assert forall k :: 0 <= k < |p.workers| ==> CanStep(items, p, k) == p.workers[k].InFlight?;
    if !Failed(p) {
      if items != [] {
        assert p.workers[0] != Crashed;
      }
      assert p.next == |items|;
      forall i | 0 <= i < |items|
        ensures !items[i].Throws? && p.results[i] == (if items[i].Value? then Some(items[i].r) else None)
      {
        assert Accounted(items, p, i);
        assert !Awaited(p, i);
      }
    }
  }

  /** With no workers (a limit of zero or less) the pool resolves at once, having called nothing:
      the promised results arrive exactly when some worker exists or there was nothing to do. */
  lemma NoWorkersNoResults<R>(items: seq<Outcome<R>>, limit: int, p: Pool<R>)
    requires Inv(items, p) && |p.workers| == WorkerCount(limit, |items|)
    requires p.workers == [] ==> p == Started(items, 0)
    requires forall k :: !CanStep(items, p, k)
    requires forall i :: 0 <= i < |items| ==> items[i].Value?
    ensures (forall i :: 0 <= i < |items| ==> p.results[i] == Some(items[i].r)) <==> limit >= 1 || items == []
  {
    if limit >= 1 || items == [] {
      Completion(items, limit, p);
    } else {
      assert p.results[0].None?;
    }
  }

  /** The whole call, under a scheduler that settles in-flight calls in any order it likes. The
      answer is nonetheless a function of the inputs. */
  method MapWithConcurrency<R>(items: seq<Outcome<R>>, limit: int)
      returns (rejected: bool, results: seq<Option<R>>, calls: seq<nat>)
    ensures |results| == |items|
    ensures limit >= 1 ==> (rejected <==> exists i :: 0 <= i < |items| && items[i].Throws?)
    ensures limit >= 1 && !rejected ==> forall i :: 0 <= i < |items| ==>
              results[i] == (if items[i].Value? then Some(items[i].r) else None)
    ensures forall i, j :: 0 <= i < j < |calls| ==> calls[i] < calls[j]
    ensures limit >= 1 && !rejected ==> forall i :: i in calls <==> 0 <= i < |items| && !items[i].Skip?
    // without a worker the call resolves at once, having done nothing
    ensures limit < 1 ==> !rejected && calls == [] && forall i :: 0 <= i < |items| ==> results[i].None?
  {
    var pool := Started(items, WorkerCount(limit, |items|));
    StartedInv(items, WorkerCount(limit, |items|));
    while exists k :: 0 <= k < |pool.workers| && CanStep(items, pool, k)
      invariant Inv(items, pool) && |pool.workers| == WorkerCount(limit, |items|)
      invariant limit < 1 ==> pool == Started(items, 0)
      decreases Remaining(items, pool)
    {
      var k :| 0 <= k < |pool.workers| && CanStep(items, pool, k);
      StepKeepsInv(items, pool, k);
      pool := Step(items, pool, k);
    }
    if limit >= 1 { Completion(items, limit, pool); }
    CallsAscend(items, pool.next);
    rejected := exists k :: 0 <= k < |pool.workers| && pool.workers[k] == Crashed;
    results, calls := pool.results, pool.calls;
  }
}
