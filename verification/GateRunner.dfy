/** The imperative scheduler (scripts/run-gates.ts), proved to follow the transition system of GateRuns. */
module GateRunner {
  import opened Numbers
  import opened Wrappers
  import opened GateGraph
  import opened GateRuns
  import opened GateBlame

  datatype RunError = InvalidGraph(error: GraphError) | BadConcurrency(max: int)

  function PendingGates(gates: seq<Gate>, states: map<string, State>): seq<Gate> {
    if gates == [] then []
    else (if IsPending(gates[0].id, states) then [gates[0]] else []) + PendingGates(gates[1..], states)
  }

  function Without(gates: seq<Gate>, g: Gate): seq<Gate> {
    if gates == [] then []
    else (if gates[0] == g then [] else [gates[0]]) + Without(gates[1..], g)
  }

  /** Searching the pending gates finds what searching the whole aggregate finds. */
  lemma {:induction false} BlockedAmongPending(gates: seq<Gate>, states: map<string, State>)
    ensures FindBlocked(PendingGates(gates, states), states) == FindBlocked(gates, states)
  {
    if gates != [] {
      BlockedAmongPending(gates[1..], states);
      if IsPending(gates[0].id, states) {
        assert PendingGates(gates, states)[1..] == PendingGates(gates[1..], states);
      } else {
        assert PendingGates(gates, states) == PendingGates(gates[1..], states);
      }
    }
  }

  lemma WithoutCons(x: Gate, gates: seq<Gate>, g: Gate)
    ensures Without([x] + gates, g) == (if x == g then [] else [x]) + Without(gates, g)
  {
    assert ([x] + gates)[1..] == gates;
  }

  lemma {:induction false} WithoutConcat(a: seq<Gate>, b: seq<Gate>, g: Gate)
    ensures Without(a + b, g) == Without(a, g) + Without(b, g)
  {
    if a == [] {
      assert a + b == b;
    } else {
      hide Without;
      WithoutConcat(a[1..], b, g);
      WithoutCons(a[0], a[1..], g);
      WithoutCons(a[0], a[1..] + b, g);
      assert a == [a[0]] + a[1..];
      assert a + b == [a[0]] + (a[1..] + b);
      Associative(if a[0] == g then [] else [a[0]], Without(a[1..], g), Without(b, g));
    }
  }

  lemma Associative(a: seq<Gate>, b: seq<Gate>, c: seq<Gate>)
    ensures a + b + c == a + (b + c)
  {}

  /** Dropping a skipped gate from the pending list keeps it the list of pending gates. */
  lemma {:induction false} PendingWithout(gates: seq<Gate>, states: map<string, State>, g: Gate, s: State)
    requires s != Pending && forall k :: k in gates && k.id == g.id ==> k == g
    ensures Without(PendingGates(gates, states), g) == PendingGates(gates, states[g.id := s])
  {
    if gates != [] {
      PendingWithout(gates[1..], states, g, s);
      var head := if IsPending(gates[0].id, states) then [gates[0]] else [];
      WithoutConcat(head, PendingGates(gates[1..], states), g);
    }
  }

  lemma {:induction false} NoPendingGates(gates: seq<Gate>, states: map<string, State>, g: Gate)
    requires g in gates && IsPending(g.id, states)
    ensures g in PendingGates(gates, states)
  {
    if gates[0] != g {
      NoPendingGates(gates[1..], states, g);
    }
  }

  /** `h` is a run of the transition system that ends in `c`. */
  ghost predicate RunTo(gates: seq<Gate>, max: nat, exec: Executor, h: seq<Config>, c: Config) {
    WellFormed(gates) && max >= 1 && IsRun(gates, max, exec, h) && h[|h| - 1] == c && Safe(gates, max, exec, c)
  }

  lemma ExtendRun(gates: seq<Gate>, max: nat, exec: Executor, h: seq<Config>, c: Config, c': Config)
    requires RunTo(gates, max, exec, h, c) && Next(gates, max, exec, c, c')
    ensures RunTo(gates, max, exec, h + [c'], c') && Measure(c') < Measure(c)
  {
    NextKeepsSafe(gates, max, exec, c, c');
    NextDecreases(gates, max, exec, c, c');
    hide Safe, Next, WellFormed;
    var h' := h + [c'];
    forall i | 0 <= i < |h'| - 1 ensures Next(gates, max, exec, h'[i], h'[i + 1]) {}
  }

  lemma RunEndsIn(gates: seq<Gate>, max: nat, exec: Executor, h: seq<Config>, c: Config)
    requires RunTo(gates, max, exec, h, c)
    ensures h != [] && h[|h| - 1] == c
  {}

  lemma RunningGateFacts(gates: seq<Gate>, max: nat, exec: Executor, h: seq<Config>, c: Config, i: nat)
    requires RunTo(gates, max, exec, h, c) && i < |c.running|
    ensures c.running[i].id in c.states && c.states[c.running[i].id] == Running && c.running[i].id !in c.results
  {}

  /** The observer has seen each result exactly once; `order` names the gates its calls were about. */
  predicate ReportedOnce(results: map<string, GateResult>, observed: seq<GateResult>, order: seq<string>) {
    && |observed| == |order|
    && (forall i, j :: 0 <= i < j < |order| ==> order[i] != order[j])
    && (forall i :: 0 <= i < |order| ==> order[i] in results && observed[i] == results[order[i]])
    && (forall id :: id in results ==> id in order)
  }

  lemma ReportOne(results: map<string, GateResult>, observed: seq<GateResult>, order: seq<string>, id: string,
                  r: GateResult)
    requires ReportedOnce(results, observed, order) && id !in results
    ensures ReportedOnce(results[id := r], observed + [r], order + [id])
  {
    var order' := order + [id];
    forall k | k in results[id := r] ensures k in order' {
      if k == id { assert order'[|order|] == k; }
    }
  }

  /**
   * The observer is called for a gate when its result is given: each gate of `order` has its result before the next.
   */
  ghost predicate ObservedInOrder(h: seq<Config>, order: seq<string>) {
    forall i, j :: 0 <= i < j < |order| ==> SettledBefore(h, order[i], order[j])
  }

  lemma SettledBeforeKept(h: seq<Config>, c': Config, d: string, g: string)
    requires SettledBefore(h, d, g)
    ensures SettledBefore(h + [c'], d, g)
  {
    var k :| 0 <= k < |h| && d in h[k].results && g !in h[k].results;
    assert (h + [c'])[k] == h[k];
  }

  lemma OrderKept(h: seq<Config>, c': Config, order: seq<string>)
    requires ObservedInOrder(h, order)
    ensures ObservedInOrder(h + [c'], order)
  {
    hide SettledBefore;
    forall i, j | 0 <= i < j < |order| ensures SettledBefore(h + [c'], order[i], order[j]) {
      SettledBeforeKept(h, c', order[i], order[j]);
    }
  }

  lemma OrderExtended(h: seq<Config>, c': Config, order: seq<string>, observed: seq<GateResult>, id: string)
    requires h != [] && ObservedInOrder(h, order) && ReportedOnce(h[|h| - 1].results, observed, order)
    requires id !in h[|h| - 1].results
    ensures ObservedInOrder(h + [c'], order + [id])
  {
    OrderKept(h, c', order);
    var longer := order + [id];
    forall i, j | 0 <= i < j < |longer| ensures SettledBefore(h + [c'], longer[i], longer[j]) {
      if j == |order| {
        assert order[i] in h[|h| - 1].results;
        assert (h + [c'])[|h| - 1] == h[|h| - 1];
      } else {
        assert SettledBefore(h + [c'], order[i], order[j]);
      }
    }
  }

  class GateRunner {
    const gates: seq<Gate>
    const maxActive: nat
    const exec: Executor
    var states: map<string, State>
    var running: seq<Gate>
    var results: map<string, GateResult>
    /** The arguments of the observer's calls, oldest first. */
    var observed: seq<GateResult>
    /** The gates those calls were about. */
    ghost var order: seq<string>
    /** Every configuration passed so far. */
    ghost var history: seq<Config>

    function Snapshot(): Config
      reads this
    {
      Config(states, running, results)
    }

    ghost predicate Valid()
      reads this
    {
      && maxActive >= 1 && RunTo(gates, maxActive, exec, history, Snapshot())
      && ReportedOnce(results, observed, order) && ObservedInOrder(history, order)
    }

    constructor (gates: seq<Gate>, maxActive: nat, exec: Executor)
      requires WellFormed(gates) && maxActive >= 1
      ensures Valid()
      ensures this.gates == gates && this.maxActive == maxActive && this.exec == exec
    {
      this.gates := gates;
      this.maxActive := maxActive;
      this.exec := exec;
      states := map id | id in Ids(gates) :: Pending;
      running := [];
      results := map[];
      observed := [];
      order := [];
      history := [Initial(gates)];
      new;
      RunsAreSafe(gates, maxActive, exec, history, 0);
    }

    /** Starts ready gates while a slot is free. */
    method FillSlots() returns (madeProgress: bool)
      requires Valid()
      modifies this
      ensures Valid() && old(history) <= history
      ensures results == old(results) && observed == old(observed)
      ensures |running| >= maxActive || FindReady(gates, states).None?
      ensures if madeProgress then Measure(Snapshot()) < old(Measure(Snapshot())) else Snapshot() == old(Snapshot())
    {
      hide RunTo, ReportedOnce, ObservedInOrder, Measure;
      madeProgress := false;
      while |running| < maxActive
        invariant Valid() && old(history) <= history
        invariant results == old(results) && observed == old(observed) && order == old(order)
        invariant if madeProgress then Measure(Snapshot()) < old(Measure(Snapshot())) else Snapshot() == old(Snapshot())
        decreases Measure(Snapshot())
      {
        var ready := FindReady(gates, states);
        if ready.None? { break; }
        ghost var before := Snapshot();
        states := states[ready.value.id := Running];
        running := running + [ready.value];
        assert StartStep(gates, maxActive, before, Snapshot());
        ExtendRun(gates, maxActive, exec, history, before, Snapshot());
        OrderKept(history, Snapshot(), order);
        history := history + [Snapshot()];
        madeProgress := true;
      }
    }

    /** Waits until some running gate settles; which one is up to the children. */
    method AwaitSettled()
      requires Valid() && MayWait(gates, maxActive, Snapshot())
      modifies this
      ensures Valid() && old(history) <= history
      ensures Measure(Snapshot()) < old(Measure(Snapshot()))
    {
      hide RunTo, ReportedOnce, ObservedInOrder, Measure;
      ghost var before := Snapshot();
      var i :| 0 <= i < |running|;
      RunningGateFacts(gates, maxActive, exec, history, before, i);
      var settled := running[i];
      var result := exec(settled);
      ReportOne(results, observed, order, settled.id, result);
      RunEndsIn(gates, maxActive, exec, history, before);
      OrderExtended(history, Settle(exec, before, i), order, observed, settled.id);
      running := running[..i] + running[i + 1..];
      states := states[settled.id := Done(result.status)];
      results := results[settled.id := result];
      observed := observed + [result];
      order := order + [settled.id];
      assert Snapshot() == Settle(exec, before, i);
      assert SettleStep(gates, maxActive, exec, before, Snapshot());
      ExtendRun(gates, maxActive, exec, history, before, Snapshot());
      history := history + [Snapshot()];
    }

    method SkipGate(gate: Gate)
      requires Valid() && Quiescent(gates, Snapshot()) && FindBlocked(gates, states) == Some(gate)
      modifies this
      ensures Valid() && old(history) <= history && Quiescent(gates, Snapshot())
      ensures Measure(Snapshot()) < old(Measure(Snapshot()))
      ensures Without(PendingGates(gates, old(states)), gate) == PendingGates(gates, states)
    {
      hide RunTo, ReportedOnce, ObservedInOrder, Measure, IsBlocked;
      ghost var before := Snapshot();
      ghost var after := Skip(before, gate);
      BlockedFacts(gates, maxActive, exec, history, before, gate);
      PendingWithout(gates, states, gate, Done(Skipped));
      assert SkipStep(gates, before, after);
      SkipStaysQuiescent(gates, before, after);
      ExtendRun(gates, maxActive, exec, history, before, after);
      hide Quiescent, SkipStep;
      var result := SkippedResult(gate, states);
      ReportOne(results, observed, order, gate.id, result);
      RunEndsIn(gates, maxActive, exec, history, before);
      OrderExtended(history, after, order, observed, gate.id);
      states, results := states[gate.id := Done(Skipped)], results[gate.id := result];
      observed := observed + [result];
      order := order + [gate.id];
      history := history + [after];
      assert Snapshot() == after;
    }

    /** With nothing running and nothing ready, skips every gate that is left. */
    method SkipRemaining()
      requires Valid() && Quiescent(gates, Snapshot())
      modifies this
      ensures Valid() && old(history) <= history && Finished(Snapshot())
    {
      hide ReportedOnce, ObservedInOrder, Measure;
      var pending := PendingGates(gates, states);
      while |pending| > 0
        invariant Valid() && old(history) <= history && Quiescent(gates, Snapshot())
        invariant pending == PendingGates(gates, states)
        decreases Measure(Snapshot())
      {
        hide RunTo;
        BlockedIsFound(gates, maxActive, exec, history, Snapshot());
        var gate := FindBlocked(pending, states).value;
        SkipGate(gate);
        pending := Without(pending, gate);
      }
      NothingPending(gates, maxActive, exec, history, Snapshot());
    }

    method Run()
      requires Valid()
      modifies this
      ensures Valid() && old(history) <= history && Finished(Snapshot())
    {
      hide RunTo, ReportedOnce, ObservedInOrder, Measure;
      while true
        invariant Valid() && old(history) <= history
        decreases Measure(Snapshot())
      {
        var madeProgress := FillSlots();
        if |running| == 0 {
          SkipRemaining();
          break;
        }
        if !madeProgress {
          AwaitSettled();
        }
      }
    }
  }

  lemma BlockedFacts(gates: seq<Gate>, max: nat, exec: Executor, h: seq<Config>, c: Config, gate: Gate)
    requires RunTo(gates, max, exec, h, c) && gate in gates && IsBlocked(gate, c.states)
    ensures gate.id !in c.results && forall k :: k in gates && k.id == gate.id ==> k == gate
  {
    forall k | k in gates && k.id == gate.id ensures k == gate { SameIdSameGate(gates, k, gate); }
  }

  /** The search that would otherwise throw "stalled" succeeds, on the pending list as on the aggregate. */
  lemma BlockedIsFound(gates: seq<Gate>, max: nat, exec: Executor, h: seq<Config>, c: Config)
    requires RunTo(gates, max, exec, h, c) && Quiescent(gates, c) && PendingGates(gates, c.states) != []
    ensures FindBlocked(gates, c.states).Some?
    ensures FindBlocked(PendingGates(gates, c.states), c.states) == FindBlocked(gates, c.states)
  {
    hide WellFormed, IsRun, Safe, Quiescent, FindBlocked, PendingGates;
    PendingAreIn(gates, c.states);
    assert PendingGates(gates, c.states)[0] in PendingGates(gates, c.states);
    assert PendingGates(gates, c.states)[0].id in PendingIds(c);
    NeverStalls(gates, max, exec, c);
    BlockedAmongPending(gates, c.states);
  }

  lemma NothingPending(gates: seq<Gate>, max: nat, exec: Executor, h: seq<Config>, c: Config)
    requires RunTo(gates, max, exec, h, c) && c.running == [] && PendingGates(gates, c.states) == []
    ensures Finished(c)
  {
    forall id | id in PendingIds(c) ensures false {
      var g :| g in gates && g.id == id;
      NoPendingGates(gates, c.states, g);
    }
    AllSettled(gates, max, exec, c);
  }

  lemma {:induction false} PendingAreIn(gates: seq<Gate>, states: map<string, State>)
    ensures forall g :: g in PendingGates(gates, states) ==> g in gates && IsPending(g.id, states)
  {
    if gates != [] { PendingAreIn(gates[1..], states); }
  }

  /** Any complete run's results for this aggregate, in aggregate order. */
  predicate AreResultsOf(gates: seq<Gate>, c: Config, rs: seq<GateResult>) {
    |rs| == |gates| && forall i :: 0 <= i < |gates| ==> gates[i].id in c.results && rs[i] == c.results[gates[i].id]
  }

  /** What a finished run says about the result of each gate. */
  lemma FinalResult(gates: seq<Gate>, max: nat, exec: Executor, c: Config, g: Gate)
    requires WellFormed(gates) && Safe(gates, max, exec, c) && Finished(c) && g in gates
    ensures g.id in c.results && c.results[g.id].status == Statuses(c)[g.id]
    ensures DependenciesPassed(g, c.states) ==> c.results[g.id] == exec(g)
    ensures !DependenciesPassed(g, c.states) ==> c.results[g.id].gate == g && c.results[g.id].status == Skipped
  {
    assert c.states[g.id].Done? && JustifiedGate(exec, g, c);
    if !WasExecuted(exec, g, c) {
      var d :| d in g.needs && FailedOrSkipped(d, c.states);
      assert !HasPassed(d, c.states);
    }
  }

  /** Each gate has its own outcome if every need passed, and a skip of its own otherwise. */
  predicate ReportsOutcomes(gates: seq<Gate>, exec: Executor, c: Config, rs: seq<GateResult>) {
    |rs| == |gates| && forall i :: 0 <= i < |gates| ==>
      if DependenciesPassed(gates[i], c.states) then rs[i] == exec(gates[i])
      else rs[i].gate == gates[i] && rs[i].status == Skipped
  }

  lemma OutcomesReported(gates: seq<Gate>, max: nat, exec: Executor, c: Config, rs: seq<GateResult>)
    requires WellFormed(gates) && Safe(gates, max, exec, c) && Finished(c) && AreResultsOf(gates, c, rs)
    ensures ReportsOutcomes(gates, exec, c, rs)
    ensures forall i :: 0 <= i < |gates| ==> gates[i].id in c.states && rs[i].status == Statuses(c)[gates[i].id]
  {
    forall i | 0 <= i < |gates|
      ensures gates[i].id in c.states && rs[i].status == Statuses(c)[gates[i].id]
      ensures if DependenciesPassed(gates[i], c.states) then rs[i] == exec(gates[i])
              else rs[i].gate == gates[i] && rs[i].status == Skipped
    {
      FinalResult(gates, max, exec, c, gates[i]);
    }
  }

  /** The error of each skipped gate blames the right needs. */
  ghost predicate ReportsBlame(gates: seq<Gate>, exec: Executor, h: seq<Config>, rs: seq<GateResult>)
    requires h != []
  {
    |rs| == |gates| && forall i :: 0 <= i < |gates| && !DependenciesPassed(gates[i], h[|h| - 1].states) ==>
      BlamesRightly(gates, exec, h, gates[i], rs[i].error)
  }

  lemma BlameReported(gates: seq<Gate>, max: nat, exec: Executor, h: seq<Config>, rs: seq<GateResult>)
    requires WellFormed(gates) && IsCompleteRun(gates, max, exec, h) && AreResultsOf(gates, h[|h| - 1], rs)
    ensures ReportsBlame(gates, exec, h, rs)
  {
    assert h != [];
    hide DependenciesPassed, BlamesRightly, IsRun, Finished;
    forall i | 0 <= i < |gates| && !DependenciesPassed(gates[i], h[|h| - 1].states)
      ensures BlamesRightly(gates, exec, h, gates[i], rs[i].error)
    {
      SkipsBlameRightly(gates, max, exec, h, gates[i]);
    }
  }

  lemma AllHaveResults(gates: seq<Gate>, max: nat, exec: Executor, h: seq<Config>, c: Config)
    requires RunTo(gates, max, exec, h, c) && Finished(c)
    ensures IsCompleteRun(gates, max, exec, h) && h[|h| - 1] == c && Safe(gates, max, exec, c)
    ensures forall g :: g in gates ==> g.id in c.results
    ensures Resolves(gates, exec, Statuses(c))
  {
    FinishedResolves(gates, max, exec, c);
  }

  /**
   * Rejects exactly the malformed aggregates and slot counts. Otherwise the results come back in
   * aggregate order and are those of a complete run of the transition system; no result is missing, and the
   * observer has been called once for each.
   */
  method RunGates(gates: seq<Gate>, maxActive: int, exec: Executor)
    returns (r: Result<seq<GateResult>, RunError>, observed: seq<GateResult>, ghost h: seq<Config>,
             ghost order: seq<string>)
    ensures r.Ok? <==> WellFormed(gates) && 1 <= maxActive <= MAX_SAFE_INTEGER
    ensures r.Err? && r.error.BadConcurrency? ==> WellFormed(gates) && r.error.max == maxActive
    ensures r.Ok? ==> IsCompleteRun(gates, maxActive, exec, h) && AreResultsOf(gates, h[|h| - 1], r.value)
    ensures r.Ok? ==> ReportsOutcomes(gates, exec, h[|h| - 1], r.value)
    ensures r.Ok? ==> ReportsBlame(gates, exec, h, r.value)
    ensures r.Ok? ==> Resolves(gates, exec, Statuses(h[|h| - 1]))
    ensures r.Ok? ==> ReportedOnce(h[|h| - 1].results, observed, order) && ObservedInOrder(h, order)
    ensures r.Err? ==> observed == []
  {
    hide WellFormed, IsCompleteRun, IsRun, RunTo, Resolves, ReportedOnce, Safe, ReportsOutcomes, ReportsBlame;
    hide ObservedInOrder;
    observed, h, order := [], [], [];
    var valid := ValidateGateGraph(gates);
    if valid.Err? { return Err(InvalidGraph(valid.error)), observed, h, order; }
    if maxActive < 1 || maxActive > MAX_SAFE_INTEGER { return Err(BadConcurrency(maxActive)), observed, h, order; }

    var runner := new GateRunner(gates, maxActive, exec);
    runner.Run();
    observed, h, order := runner.observed, runner.history, runner.order;
    ghost var last := runner.Snapshot();
    AllHaveResults(gates, maxActive, exec, h, last);
    var ordered: seq<GateResult> := [];
    for i := 0 to |gates|
      invariant |ordered| == i
      invariant forall k :: 0 <= k < i ==> gates[k].id in runner.results && ordered[k] == runner.results[gates[k].id]
    {
      ordered := ordered + [runner.results[gates[i].id]];
    }
    OutcomesReported(gates, maxActive, exec, last, ordered);
    BlameReported(gates, maxActive, exec, h, ordered);
    return Ok(ordered), observed, h, order;
  }

  /** Whatever slot limit and settle order two calls of RunGates meet, they return the same results. */
  lemma SameResults(gates: seq<Gate>, max1: nat, max2: nat, exec: Executor,
                                       h1: seq<Config>, h2: seq<Config>, r1: seq<GateResult>, r2: seq<GateResult>)
    requires WellFormed(gates)
    requires IsCompleteRun(gates, max1, exec, h1) && AreResultsOf(gates, h1[|h1| - 1], r1)
    requires IsCompleteRun(gates, max2, exec, h2) && AreResultsOf(gates, h2[|h2| - 1], r2)
    ensures r1 == r2
  {
    ScheduleIndependence(gates, max1, max2, exec, h1, h2);
    hide WellFormed, IsCompleteRun;
    forall i | 0 <= i < |gates| ensures r1[i] == r2[i] {}
  }
}
