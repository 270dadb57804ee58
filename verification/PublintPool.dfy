/** The bounded worker pool over a shared counter (scripts/publint-all.ts). */
module PublintPool {
  import opened Numbers
  import opened Wrappers

  datatype PoolError = BadConcurrency(requested: int) | MissingResult(index: nat)

  /** A worker awaits the result of one target, or has returned. */
  datatype Worker = Busy(index: nat) | Returned

  /** The shared counter, the workers started so far, and the sparse result array. */
  datatype Pool<R> = Pool(next: nat, workers: seq<Worker>, results: map<nat, R>)

  // ---- The steps; a worker runs without interruption from one await to the next ----

  /** What a worker does on reaching the top of its loop: take an index, then await that target or return. */
  function Take(next: nat, count: nat): Worker {
    if next < count then Busy(next) else Returned
  }

  /** One more worker starts and takes its first index. */
  function Spawn<R>(p: Pool<R>, count: nat): Pool<R> {
    Pool(p.next + 1, p.workers + [Take(p.next, count)], p.results)
  }

  /** Worker `w` receives its result, stores it, and takes its next index. */
  function Settle<T, R>(p: Pool<R>, targets: seq<T>, lint: T -> R, w: nat): Pool<R>
    requires w < |p.workers| && p.workers[w].Busy? && p.workers[w].index < |targets|
  {
    var i := p.workers[w].index;
    Pool(p.next + 1, p.workers[w := Take(p.next, |targets|)], p.results[i := lint(targets[i])])
  }

  // ---- The invariant of every interleaving ----

  predicate InFlight(workers: seq<Worker>, i: nat) {
    exists w :: 0 <= w < |workers| && workers[w] == Busy(i)
  }

  /** Every index handed out so far is in flight with exactly one worker or has its own target's result. */
  ghost predicate Consistent<T(!new), R>(p: Pool<R>, targets: seq<T>, lint: T -> R) {
    && (forall w :: 0 <= w < |p.workers| && p.workers[w].Busy? ==> p.workers[w].index < Min(p.next, |targets|))
    && (forall v, w :: 0 <= v < w < |p.workers| && p.workers[v].Busy? ==> p.workers[v] != p.workers[w])
    && (forall i ::
        i in p.results ==> i < Min(p.next, |targets|) && p.results[i] == lint(targets[i]) && !InFlight(p.workers, i))
    && (forall i: nat :: i < Min(p.next, |targets|) ==> i in p.results || InFlight(p.workers, i))
    && (forall w :: 0 <= w < |p.workers| && p.workers[w].Returned? ==> p.next >= |targets|)
  }

  lemma SpawnKeeps<T(!new), R>(p: Pool<R>, targets: seq<T>, lint: T -> R)
    requires Consistent(p, targets, lint)
    ensures Consistent(Spawn(p, |targets|), targets, lint)
  {
    var q := Spawn(p, |targets|);
    assert q.workers[|p.workers|] == Take(p.next, |targets|);
    forall i: nat | InFlight(p.workers, i) ensures InFlight(q.workers, i) {
      var w :| 0 <= w < |p.workers| && p.workers[w] == Busy(i);
      assert q.workers[w] == Busy(i);
    }
    forall i: nat | i < Min(q.next, |targets|) ensures i in q.results || InFlight(q.workers, i) {
      if i == p.next { assert q.workers[|p.workers|] == Busy(i); }
    }
    forall i | i in q.results ensures !InFlight(q.workers, i) {
      forall w | 0 <= w < |q.workers| ensures q.workers[w] != Busy(i) {
        assert w < |p.workers| ==> q.workers[w] == p.workers[w];
      }
    }
  }

  lemma SettleKeeps<T(!new), R>(p: Pool<R>, targets: seq<T>, lint: T -> R, w: nat)
    requires Consistent(p, targets, lint) && w < |p.workers| && p.workers[w].Busy?
    ensures Consistent(Settle(p, targets, lint, w), targets, lint)
  {
    var q, done := Settle(p, targets, lint, w), p.workers[w].index;
    assert q.workers[w] == Take(p.next, |targets|);
    forall i: nat | i < Min(q.next, |targets|) ensures i in q.results || InFlight(q.workers, i) {
      if i == p.next {
        assert q.workers[w] == Busy(i);
      } else if i !in q.results {
        var v :| 0 <= v < |p.workers| && p.workers[v] == Busy(i);
        assert q.workers[v] == Busy(i);
      }
    }
    forall i | i in q.results ensures !InFlight(q.workers, i) {
      forall v | 0 <= v < |q.workers| ensures q.workers[v] != Busy(i) {
        if v != w && i == done {
          assert q.workers[v] == p.workers[v];
          assert v < w ==> p.workers[v] != p.workers[w];
          assert w < v ==> p.workers[w] != p.workers[v];
        } else if v != w {
          assert q.workers[v] == p.workers[v];
        }
      }
    }
  }

  function BusyCount(workers: seq<Worker>): nat {
    if workers == [] then 0 else (if workers[0].Busy? then 1 else 0) + BusyCount(workers[1..])
  }

  lemma {:induction false} BusyAtMost(workers: seq<Worker>)
    ensures BusyCount(workers) <= |workers|
  {
    if workers != [] { BusyAtMost(workers[1..]); }
  }

  lemma {:induction false} BusyUpdate(workers: seq<Worker>, w: nat, x: Worker)
    requires w < |workers| && workers[w].Busy?
    ensures BusyCount(workers[w := x]) == BusyCount(workers) - if x.Busy? then 0 else 1
  {
    if w > 0 {
      BusyUpdate(workers[1..], w - 1, x);
      assert workers[w := x][1..] == workers[1..][w - 1 := x];
    } else {
      assert workers[w := x][1..] == workers[1..];
    }
  }

  /** A pool of `concurrency` workers starts another one, or some busy worker gets its result. */
  ghost predicate PoolNext<T, R>(p: Pool<R>, q: Pool<R>, targets: seq<T>, concurrency: nat, lint: T -> R) {
    || (|p.workers| < concurrency && q == Spawn(p, |targets|))
    || exists w ::
         && 0 <= w < |p.workers| && p.workers[w].Busy? && p.workers[w].index < |targets|
         && q == Settle(p, targets, lint, w)
  }

  ghost predicate IsPoolRun<T, R>(h: seq<Pool<R>>, targets: seq<T>, concurrency: nat, lint: T -> R) {
    && |h| > 0 && h[0] == Pool(0, [], map[])
    && forall k :: 0 <= k < |h| - 1 ==> PoolNext(h[k], h[k + 1], targets, concurrency, lint)
  }

  /** In every state of every interleaving at most `concurrency` lints are in flight, each of its own target. */
  lemma {:induction false} PoolRunsAreSafe<T(!new), R>(h: seq<Pool<R>>, targets: seq<T>, concurrency: nat,
                                                       lint: T -> R, k: nat)
    requires IsPoolRun(h, targets, concurrency, lint) && k < |h|
    ensures Consistent(h[k], targets, lint) && BusyCount(h[k].workers) <= |h[k].workers| <= concurrency
    decreases k
  {
    BusyAtMost(h[k].workers);
    if k > 0 {
      PoolRunsAreSafe(h, targets, concurrency, lint, k - 1);
      var p, q := h[k - 1], h[k - 1 + 1];
      assert PoolNext(p, q, targets, concurrency, lint);
      SpawnKeeps(p, targets, lint);
      if w: nat :|
        && w < |p.workers| && p.workers[w].Busy? && p.workers[w].index < |targets|
        && q == Settle(p, targets, lint, w)
      {
        SettleKeeps(p, targets, lint, w);
      }
    }
  }

  /** The interleaving `h` has come to `p`. */
  ghost predicate RunTo<T(!new), R>(h: seq<Pool<R>>, p: Pool<R>, targets: seq<T>, concurrency: nat, lint: T -> R) {
    IsPoolRun(h, targets, concurrency, lint) && h[|h| - 1] == p
  }

  lemma RunGoesOn<T(!new), R>(h: seq<Pool<R>>, p: Pool<R>, q: Pool<R>, targets: seq<T>, concurrency: nat, lint: T -> R)
    requires RunTo(h, p, targets, concurrency, lint) && PoolNext(p, q, targets, concurrency, lint)
    ensures RunTo(h + [q], q, targets, concurrency, lint)
  {
    hide PoolNext;
    var longer := h + [q];
    forall k | 0 <= k < |longer| - 1 ensures PoolNext(longer[k], longer[k + 1], targets, concurrency, lint) {}
  }

  /** Targets not yet handed out, plus those in flight. */
  function Work<R>(p: Pool<R>, count: nat): nat {
    2 * (count - Min(p.next, count)) + BusyCount(p.workers)
  }

  lemma SettleDecreases<T(!new), R>(p: Pool<R>, targets: seq<T>, lint: T -> R, w: nat)
    requires Consistent(p, targets, lint) && w < |p.workers| && p.workers[w].Busy?
    ensures Work(Settle(p, targets, lint, w), |targets|) < Work(p, |targets|)
  {
    BusyUpdate(p.workers, w, Take(p.next, |targets|));
  }

  /** When every one of at least one worker has returned, every target has its result. */
  lemma AllReturnedAllDone<T(!new), R>(p: Pool<R>, targets: seq<T>, lint: T -> R)
    requires Consistent(p, targets, lint) && p.workers != []
    requires forall w :: 0 <= w < |p.workers| ==> p.workers[w].Returned?
    ensures forall i: nat :: i < |targets| ==> i in p.results && p.results[i] == lint(targets[i])
  {
    assert p.workers[0].Returned?;
  }

  // ---- The pool ----

  function Upto(n: nat): seq<nat> {
    seq(n, i => i)
  }

  lemma SettleInPool<T(!new), R>(h: seq<Pool<R>>, p: Pool<R>, targets: seq<T>, concurrency: nat, lint: T -> R, w: nat)
    requires Consistent(p, targets, lint) && RunTo(h, p, targets, concurrency, lint)
    requires w < |p.workers| && p.workers[w].Busy?
    ensures p.workers[w].index < |targets|
    ensures
      var q := Settle(p, targets, lint, w);
      && Consistent(q, targets, lint) && RunTo(h + [q], q, targets, concurrency, lint)
      && Work(q, |targets|) < Work(p, |targets|)
  {
    SettleKeeps(p, targets, lint, w);
    SettleDecreases(p, targets, lint, w);
    assert PoolNext(p, Settle(p, targets, lint, w), targets, concurrency, lint);
    hide Consistent, PoolNext, Settle;
    RunGoesOn(h, p, Settle(p, targets, lint, w), targets, concurrency, lint);
  }

  class WorkerPool<T(!new), R> {
    const targets: seq<T>
    const lint: T -> R
    const concurrency: nat
    var next: nat
    var workers: seq<Worker>
    var results: map<nat, R>
    /** The indices whose processing has begun, oldest first. */
    ghost var started: seq<nat>
    /** Every state of the pool so far. */
    ghost var history: seq<Pool<R>>

    ghost function View(): Pool<R>
      reads this
    {
      Pool(next, workers, results)
    }

    ghost predicate Valid()
      reads this
    {
      && Consistent(View(), targets, lint) && |workers| <= concurrency
      && started == Upto(Min(next, |targets|))
      && RunTo(history, View(), targets, concurrency, lint)
    }

    constructor (targets: seq<T>, concurrency: nat, lint: T -> R)
      ensures Valid() && workers == [] && results == map[] && next == 0
      ensures this.targets == targets && this.concurrency == concurrency && this.lint == lint
    {
      this.targets := targets;
      this.concurrency := concurrency;
      this.lint := lint;
      next := 0;
      workers := [];
      results := map[];
      started := [];
      history := [Pool(0, [], map[])];
    }

    /** Starts one worker. */
    method Launch()
      requires Valid() && |workers| < concurrency
      modifies this
      ensures Valid() && View() == Spawn(old(View()), |targets|)
    {
      hide Consistent, RunTo;
      SpawnKeeps(View(), targets, lint);
      RunGoesOn(history, View(), Spawn(View(), |targets|), targets, concurrency, lint);
      history := history + [Spawn(View(), |targets|)];
      var index := next;
      next := next + 1;
      if index >= |targets| {
        workers := workers + [Returned];
      } else {
        workers := workers + [Busy(index)];
        started := started + [index];
      }
      assert started == Upto(Min(next, |targets|));
    }

    /** Some busy worker, whichever is first, gets its result and moves on. */
    method SettleOne()
      requires Valid() && exists w :: 0 <= w < |workers| && workers[w].Busy?
      modifies this
      ensures Valid() && |workers| == old(|workers|)
      ensures Work(View(), |targets|) < old(Work(View(), |targets|))
    {
      hide Consistent, Work, RunTo;
      var w :| 0 <= w < |workers| && workers[w].Busy?;
      SettleInPool(history, View(), targets, concurrency, lint, w);
      ghost var after := Settle(View(), targets, lint, w);
      history := history + [after];
      var done := workers[w].index;
      results := results[done := lint(targets[done])];
      var index := next;
      next := next + 1;
      if index >= |targets| {
        workers := workers[w := Returned];
      } else {
        workers := workers[w := Busy(index)];
        started := started + [index];
      }
      assert View() == after;
      assert started == Upto(Min(next, |targets|));
    }

    /** Starts all workers, then lets them settle in any order until the last has returned. */
    method Run()
      requires Valid() && workers == []
      modifies this
      ensures Valid() && |workers| == concurrency
      ensures forall w :: 0 <= w < |workers| ==> workers[w].Returned?
      ensures concurrency == 0 ==> View() == old(View())
    {
      hide Consistent, Work, RunTo;
      while |workers| < concurrency
        invariant Valid() && (concurrency == 0 ==> View() == old(View()))
      {
        Launch();
      }
      while exists w :: 0 <= w < |workers| && workers[w].Busy?
        invariant Valid() && |workers| == concurrency && (concurrency == 0 ==> View() == old(View()))
        decreases Work(View(), |targets|)
      {
        SettleOne();
      }
    }
  }

  /**
   * Under every interleaving each target is begun exactly once, and the result of target `i` stands at index `i`. What
   * the pool goes through is one of the interleavings above, ended when every worker has returned.
   * The only failure is a pool of no workers over some targets.
   */
  method RunAll<T(!new), R>(targets: seq<T>, concurrency: nat, lint: T -> R)
    returns (r: Result<seq<R>, PoolError>, ghost started: seq<nat>, ghost h: seq<Pool<R>>)
    ensures IsPoolRun(h, targets, concurrency, lint) && |h[|h| - 1].workers| == concurrency
    ensures forall worker :: worker in h[|h| - 1].workers ==> worker.Returned?
    ensures r.Ok? <==> concurrency >= 1 || targets == []
    ensures r.Ok? ==> |r.value| == |targets| && forall i :: 0 <= i < |targets| ==> r.value[i] == lint(targets[i])
    ensures r.Err? ==> r.error == MissingResult(0)
    ensures started == if concurrency >= 1 then Upto(|targets|) else []
  {
    var pool := new WorkerPool(targets, concurrency, lint);
    pool.Run();
    started, h := pool.started, pool.history;
    if concurrency >= 1 {
      assert pool.workers[0].Returned?;
      AllReturnedAllDone(pool.View(), targets, lint);
    }
    var ordered: seq<R> := [];
    for i := 0 to |targets|
      invariant |ordered| == i && (i > 0 ==> concurrency >= 1)
      invariant forall k :: 0 <= k < i ==> ordered[k] == lint(targets[k])
    {
      if i !in pool.results { return Err(MissingResult(i)), started, h; }
      ordered := ordered + [pool.results[i]];
    }
    return Ok(ordered), started, h;
  }

  // ---- How many workers ----

  /** The requested count if it is a positive safe integer, else the host's, and never more than the targets. */
  function PublintConcurrency(total: nat, requested: Option<int>, available: nat): (r: Result<nat, PoolError>)
    requires available >= 1
    ensures r.Err? <==> total > 0 && requested.Some? && !(1 <= requested.value <= MAX_SAFE_INTEGER)
    ensures r.Ok? ==> r.value <= total && (total > 0 ==> r.value >= 1)
    ensures r.Ok? && total > 0 ==>
      var wanted := if requested.Some? then requested.value else available;
      r.value <= wanted && (r.value == total || r.value == wanted)
  {
    if total == 0 then Ok(0)
    else if requested.Some? then
      if requested.value < 1 || requested.value > MAX_SAFE_INTEGER then Err(BadConcurrency(requested.value))
      else Ok(Min(total, requested.value))
    else Ok(Min(total, available))
  }

  /** With the count chosen here no result is ever missing. */
  method PublintAll<T(!new), R>(targets: seq<T>, requested: Option<int>, available: nat, lint: T -> R)
    returns (r: Result<seq<R>, PoolError>)
    requires available >= 1
    ensures r.Err? <==> targets != [] && requested.Some? && !(1 <= requested.value <= MAX_SAFE_INTEGER)
    ensures r.Err? ==> r.error == BadConcurrency(requested.value)
    ensures r.Ok? ==> |r.value| == |targets| && forall i :: 0 <= i < |targets| ==> r.value[i] == lint(targets[i])
  {
    var concurrency := PublintConcurrency(|targets|, requested, available);
    if concurrency.Err? { return Err(concurrency.error); }
    ghost var started, h;
    r, started, h := RunAll(targets, concurrency.value, lint);
  }
}
