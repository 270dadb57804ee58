/** The gate scheduler as a transition system, and what holds of all its runs (scripts/run-gates.ts). */
module GateRuns {
  import opened Wrappers
  import opened Digraph
  import opened GateGraph

  datatype Status = Passed | Failed | Skipped

  datatype State = Pending | Running | Done(status: Status)

  /** `error` lists the needs a skipped result blames; an executor may fill it as it likes. */
  datatype GateResult = GateResult(gate: Gate, status: Status, error: seq<string>)

  /** What the child process of each gate reports once it settles. */
  type Executor = Gate -> GateResult

  /** The three structures the scheduling loop updates. */
  datatype Config = Config(states: map<string, State>, running: seq<Gate>, results: map<string, GateResult>)

  function Initial(gates: seq<Gate>): Config {
    Config(map id | id in Ids(gates) :: Pending, [], map[])
  }

  predicate HasPassed(id: string, states: map<string, State>) {
    id in states && states[id] == Done(Passed)
  }

  predicate FailedOrSkipped(id: string, states: map<string, State>) {
    id in states && (states[id] == Done(Failed) || states[id] == Done(Skipped))
  }

  predicate IsPending(id: string, states: map<string, State>) {
    id in states && states[id] == Pending
  }

  predicate DependenciesPassed(g: Gate, states: map<string, State>) {
    forall d :: d in g.needs ==> HasPassed(d, states)
  }

  predicate IsReady(g: Gate, states: map<string, State>) {
    IsPending(g.id, states) && DependenciesPassed(g, states)
  }

  predicate IsBlocked(g: Gate, states: map<string, State>) {
    IsPending(g.id, states) && exists d :: d in g.needs && FailedOrSkipped(d, states)
  }

  /** The gate at `i` is ready and none before it is. */
  predicate FirstReadyAt(gates: seq<Gate>, states: map<string, State>, i: nat) {
    i < |gates| && IsReady(gates[i], states) && forall k :: 0 <= k < i ==> !IsReady(gates[k], states)
  }

  /** The gate at `i` is blocked and none before it is. */
  predicate FirstBlockedAt(gates: seq<Gate>, states: map<string, State>, i: nat) {
    i < |gates| && IsBlocked(gates[i], states) && forall k :: 0 <= k < i ==> !IsBlocked(gates[k], states)
  }

  /** The first ready gate in aggregate order. */
  function FindReady(gates: seq<Gate>, states: map<string, State>): (r: Option<Gate>)
    ensures r.Some? ==> r.value in gates && IsReady(r.value, states)
    ensures r.Some? ==> exists i: nat :: FirstReadyAt(gates, states, i) && gates[i] == r.value
    ensures r.None? ==> forall g {:trigger IsReady(g, states)} :: g in gates ==> !IsReady(g, states)
  {
    if gates == [] then None
    else if IsReady(gates[0], states) then assert FirstReadyAt(gates, states, 0); Some(gates[0])
    else
      var later := FindReady(gates[1..], states);
      assert forall i: nat :: FirstReadyAt(gates[1..], states, i) ==> FirstReadyAt(gates, states, i + 1);
      later
  }

  /** The first pending gate, in aggregate order, that a failed or skipped need blocks. */
  function FindBlocked(gates: seq<Gate>, states: map<string, State>): (r: Option<Gate>)
    ensures r.Some? ==> r.value in gates && IsBlocked(r.value, states)
    ensures r.Some? ==> exists i: nat :: FirstBlockedAt(gates, states, i) && gates[i] == r.value
    ensures r.None? ==> forall g {:trigger IsBlocked(g, states)} :: g in gates ==> !IsBlocked(g, states)
  {
    if gates == [] then None
    else if IsBlocked(gates[0], states) then assert FirstBlockedAt(gates, states, 0); Some(gates[0])
    else
      var later := FindBlocked(gates[1..], states);
      assert forall i: nat :: FirstBlockedAt(gates[1..], states, i) ==> FirstBlockedAt(gates, states, i + 1);
      later
  }

  function FailedDeps(needs: seq<string>, states: map<string, State>): seq<string> {
    if needs == [] then []
    else (if FailedOrSkipped(needs[0], states) then [needs[0]] else []) + FailedDeps(needs[1..], states)
  }

  function SkippedResult(g: Gate, states: map<string, State>): GateResult {
    GateResult(g, Skipped, FailedDeps(g.needs, states))
  }

  function Start(c: Config, g: Gate): Config {
    Config(c.states[g.id := Running], c.running + [g], c.results)
  }

  /** The running gate at position `i` settles. */
  function Settle(exec: Executor, c: Config, i: nat): Config
    requires i < |c.running|
  {
    var g := c.running[i];
    Config(c.states[g.id := Done(exec(g).status)], c.running[..i] + c.running[i + 1..], c.results[g.id := exec(g)])
  }

  function Skip(c: Config, g: Gate): Config {
    Config(c.states[g.id := Done(Skipped)], c.running, c.results[g.id := SkippedResult(g, c.states)])
  }

  /** The scheduler waits for a child only when every slot is taken or nothing is ready. */
  predicate MayWait(gates: seq<Gate>, max: nat, c: Config) {
    c.running != [] && (|c.running| >= max || FindReady(gates, c.states).None?)
  }

  /** Nothing runs and nothing can start: the skip phase. */
  predicate Quiescent(gates: seq<Gate>, c: Config) {
    c.running == [] && FindReady(gates, c.states).None?
  }

  predicate StartStep(gates: seq<Gate>, max: nat, c: Config, c': Config) {
    |c.running| < max && FindReady(gates, c.states).Some? && c' == Start(c, FindReady(gates, c.states).value)
  }

  /** Any running gate may be the one that settles. */
  predicate SettleStep(gates: seq<Gate>, max: nat, exec: Executor, c: Config, c': Config) {
    MayWait(gates, max, c) && exists i :: 0 <= i < |c.running| && c' == Settle(exec, c, i)
  }

  predicate SkipStep(gates: seq<Gate>, c: Config, c': Config) {
    Quiescent(gates, c) && FindBlocked(gates, c.states).Some? && c' == Skip(c, FindBlocked(gates, c.states).value)
  }

  predicate Next(gates: seq<Gate>, max: nat, exec: Executor, c: Config, c': Config) {
    StartStep(gates, max, c, c') || SettleStep(gates, max, exec, c, c') || SkipStep(gates, c, c')
  }

  predicate IsRun(gates: seq<Gate>, max: nat, exec: Executor, h: seq<Config>) {
    |h| > 0 && h[0] == Initial(gates) && forall i :: 0 <= i < |h| - 1 ==> Next(gates, max, exec, h[i], h[i + 1])
  }

  predicate Finished(c: Config) {
    c.running == [] && forall id :: id in c.states ==> c.states[id].Done?
  }

  predicate IsCompleteRun(gates: seq<Gate>, max: nat, exec: Executor, h: seq<Config>) {
    IsRun(gates, max, exec, h) && Finished(h[|h| - 1])
  }

  // ---- What every reachable configuration satisfies ----

  /** `running` lists, without repetition, exactly the gates whose state says so. */
  predicate RunningAgrees(gates: seq<Gate>, c: Config) {
    && (forall i :: 0 <= i < |c.running| ==>
          c.running[i] in gates && c.running[i].id in c.states && c.states[c.running[i].id] == Running)
    && (forall i, j :: 0 <= i < j < |c.running| ==> c.running[i].id != c.running[j].id)
    && (forall g :: g in gates && g.id in c.states && c.states[g.id] == Running ==> g in c.running)
  }

  /** Exactly the settled and skipped gates have a result, and it carries their status. */
  predicate ResultsAgree(c: Config) {
    && c.results.Keys <= c.states.Keys
    && (forall id :: id in c.states ==> (id in c.results <==> c.states[id].Done?))
    && (forall id :: id in c.results ==> c.states[id] == Done(c.results[id].status))
  }

  /** The gate ran to its own outcome, after all its needs had passed. */
  predicate WasExecuted(exec: Executor, g: Gate, c: Config) {
    DependenciesPassed(g, c.states) && g.id in c.results && c.results[g.id] == exec(g)
  }

  /** The gate never ran, because a need failed or was itself skipped. */
  predicate WasSkipped(g: Gate, c: Config) {
    && g.id in c.results && c.results[g.id].gate == g && c.results[g.id].status == Skipped
    && exists d :: d in g.needs && FailedOrSkipped(d, c.states)
  }

  /** A gate that left the pending state had the right to. */
  predicate JustifiedGate(exec: Executor, g: Gate, c: Config) {
    g.id in c.states ==>
      && (c.states[g.id] == Running ==> DependenciesPassed(g, c.states))
      && (c.states[g.id].Done? ==> WasExecuted(exec, g, c) || WasSkipped(g, c))
  }

  predicate Justified(gates: seq<Gate>, exec: Executor, c: Config) {
    forall g {:trigger JustifiedGate(exec, g, c)} :: g in gates ==> JustifiedGate(exec, g, c)
  }

  predicate Safe(gates: seq<Gate>, max: nat, exec: Executor, c: Config) {
    && c.states.Keys == Ids(gates)
    && |c.running| <= max
    && RunningAgrees(gates, c)
    && ResultsAgree(c)
    && Justified(gates, exec, c)
  }

  lemma SameIdSameGate(gates: seq<Gate>, g: Gate, h: Gate)
    requires DistinctIds(gates) && g in gates && h in gates && g.id == h.id
    ensures g == h
  {
    var i :| 0 <= i < |gates| && gates[i] == g;
    var j :| 0 <= j < |gates| && gates[j] == h;
    if i < j { assert false; } else if j < i { assert false; }
  }

  /** Settling or starting one pending or running gate keeps every other gate's justification. */
  lemma JustificationKept(exec: Executor, c: Config, c': Config, id: string, g: Gate)
    requires ResultsAgree(c) && JustifiedGate(exec, g, c) && g.id != id
    requires id in c.states && !c.states[id].Done?
    requires forall k :: k in c.states ==> k in c'.states && (k != id ==> c'.states[k] == c.states[k])
    requires forall k :: k in c.results ==> k in c'.results && c'.results[k] == c.results[k]
    requires c'.states.Keys == c.states.Keys
    ensures JustifiedGate(exec, g, c')
  {
    forall d | HasPassed(d, c.states) ensures HasPassed(d, c'.states) {}
    forall d | FailedOrSkipped(d, c.states) ensures FailedOrSkipped(d, c'.states) {}
  }

  lemma StepKeepsJustified(gates: seq<Gate>, exec: Executor, c: Config, c': Config, g: Gate)
    requires DistinctIds(gates) && ResultsAgree(c) && Justified(gates, exec, c)
    requires g in gates && g.id in c.states && !c.states[g.id].Done?
    requires forall k :: k in c.states ==> k in c'.states && (k != g.id ==> c'.states[k] == c.states[k])
    requires forall k :: k in c.results ==> k in c'.results && c'.results[k] == c.results[k]
    requires c'.states.Keys == c.states.Keys
    requires JustifiedGate(exec, g, c')
    ensures Justified(gates, exec, c')
  {
    hide JustifiedGate;
    forall k | k in gates ensures JustifiedGate(exec, k, c') {
      assert JustifiedGate(exec, k, c);
      if k.id == g.id {
        SameIdSameGate(gates, k, g);
      } else {
        JustificationKept(exec, c, c', g.id, k);
      }
    }
  }

  lemma StartKeepsStructures(gates: seq<Gate>, c: Config, g: Gate)
    requires DistinctIds(gates) && RunningAgrees(gates, c) && ResultsAgree(c) && g in gates && IsPending(g.id, c.states)
    ensures RunningAgrees(gates, Start(c, g)) && ResultsAgree(Start(c, g))
  {
    hide DistinctIds;
    forall k | k in gates && k.id == g.id ensures k == g { SameIdSameGate(gates, k, g); }
  }

  lemma StartedIsJustified(exec: Executor, c: Config, g: Gate)
    requires IsReady(g, c.states)
    ensures JustifiedGate(exec, g, Start(c, g))
  {
    forall d | d in g.needs ensures HasPassed(d, Start(c, g).states) { assert HasPassed(d, c.states); }
  }

  lemma StartKeepsSafe(gates: seq<Gate>, max: nat, exec: Executor, c: Config, c': Config)
    requires DistinctIds(gates) && Safe(gates, max, exec, c) && StartStep(gates, max, c, c')
    ensures Safe(gates, max, exec, c')
  {
    hide DistinctIds, RunningAgrees, JustifiedGate, Justified;
    var g := FindReady(gates, c.states).value;
    StartKeepsStructures(gates, c, g);
    StartedIsJustified(exec, c, g);
    StepKeepsJustified(gates, exec, c, c', g);
  }

  lemma RunningRemoved(running: seq<Gate>, i: nat)
    requires i < |running| && forall k, l :: 0 <= k < l < |running| ==> running[k].id != running[l].id
    ensures
      var rest := running[..i] + running[i + 1..];
      && (forall g :: g in rest ==> g in running && g.id != running[i].id)
      && (forall g :: g in running && g.id != running[i].id ==> g in rest)
      && (forall k, l :: 0 <= k < l < |rest| ==> rest[k].id != rest[l].id)
  {
    var rest := running[..i] + running[i + 1..];
    forall k | 0 <= k < |rest| ensures rest[k] == running[if k < i then k else k + 1] {}
    forall g | g in running && g.id != running[i].id ensures g in rest {
      var k :| 0 <= k < |running| && running[k] == g;
      assert rest[if k < i then k else k - 1] == g;
    }
  }

  lemma SettleKeepsRunning(gates: seq<Gate>, exec: Executor, c: Config, i: nat)
    requires DistinctIds(gates) && i < |c.running| && RunningAgrees(gates, c)
    ensures RunningAgrees(gates, Settle(exec, c, i))
  {
    RunningRemoved(c.running, i);
    hide DistinctIds;
    var c' := Settle(exec, c, i);
    forall k | 0 <= k < |c'.running|
      ensures c'.running[k] in gates && c'.running[k].id in c'.states && c'.states[c'.running[k].id] == Running
    {
      assert c'.running[k] in c'.running;
    }
  }

  lemma SettleKeepsResults(exec: Executor, c: Config, i: nat)
    requires i < |c.running| && c.running[i].id in c.states && ResultsAgree(c)
    ensures ResultsAgree(Settle(exec, c, i))
  {}

  lemma SettleKeepsJustified(gates: seq<Gate>, exec: Executor, c: Config, i: nat)
    requires DistinctIds(gates) && i < |c.running| && c.running[i] in gates
    requires c.running[i].id in c.states && c.states[c.running[i].id] == Running
    requires ResultsAgree(c) && Justified(gates, exec, c)
    ensures Justified(gates, exec, Settle(exec, c, i))
  {
    var g, c' := c.running[i], Settle(exec, c, i);
    hide DistinctIds;
    assert JustifiedGate(exec, g, c);
    forall d | d in g.needs ensures HasPassed(d, c'.states) { assert HasPassed(d, c.states); }
    StepKeepsJustified(gates, exec, c, c', g);
  }

  lemma SettleKeepsSafe(gates: seq<Gate>, max: nat, exec: Executor, c: Config, i: nat)
    requires DistinctIds(gates) && Safe(gates, max, exec, c) && i < |c.running|
    ensures Safe(gates, max, exec, Settle(exec, c, i))
  {
    SettleKeepsRunning(gates, exec, c, i);
    SettleKeepsResults(exec, c, i);
    SettleKeepsJustified(gates, exec, c, i);
  }

  lemma SkipKeepsStructures(gates: seq<Gate>, c: Config, g: Gate)
    requires RunningAgrees(gates, c) && ResultsAgree(c) && IsPending(g.id, c.states)
    ensures RunningAgrees(gates, Skip(c, g)) && ResultsAgree(Skip(c, g))
  {}

  lemma SkippedIsJustified(exec: Executor, c: Config, g: Gate)
    requires IsBlocked(g, c.states)
    ensures JustifiedGate(exec, g, Skip(c, g))
  {
    var d :| d in g.needs && FailedOrSkipped(d, c.states);
    assert FailedOrSkipped(d, Skip(c, g).states);
  }

  lemma SkipKeepsSafe(gates: seq<Gate>, max: nat, exec: Executor, c: Config, c': Config)
    requires DistinctIds(gates) && Safe(gates, max, exec, c) && SkipStep(gates, c, c')
    ensures Safe(gates, max, exec, c')
  {
    hide DistinctIds, RunningAgrees, JustifiedGate, Justified, WasSkipped;
    var g := FindBlocked(gates, c.states).value;
    SkipKeepsStructures(gates, c, g);
    SkippedIsJustified(exec, c, g);
    StepKeepsJustified(gates, exec, c, c', g);
  }

  lemma NextKeepsSafe(gates: seq<Gate>, max: nat, exec: Executor, c: Config, c': Config)
    requires DistinctIds(gates) && Safe(gates, max, exec, c) && Next(gates, max, exec, c, c')
    ensures Safe(gates, max, exec, c')
  {
    hide Safe, StartStep, SkipStep;
    if StartStep(gates, max, c, c') {
      StartKeepsSafe(gates, max, exec, c, c');
    } else if SettleStep(gates, max, exec, c, c') {
      var i: nat :| i < |c.running| && c' == Settle(exec, c, i);
      SettleKeepsSafe(gates, max, exec, c, i);
    } else {
      SkipKeepsSafe(gates, max, exec, c, c');
    }
  }

  /** Safety: every configuration of every run is safe, whichever gate each wait hands back. */
  lemma {:induction false} RunsAreSafe(gates: seq<Gate>, max: nat, exec: Executor, h: seq<Config>, k: nat)
    requires DistinctIds(gates) && IsRun(gates, max, exec, h) && k < |h|
    ensures Safe(gates, max, exec, h[k])
    decreases k
  {
    if k > 0 {
      RunsAreSafe(gates, max, exec, h, k - 1);
      assert Next(gates, max, exec, h[k - 1], h[k - 1 + 1]);
      NextKeepsSafe(gates, max, exec, h[k - 1], h[k]);
    }
  }

  // ---- No gate starts twice ----

  predicate Starts(h: seq<Config>, k: nat, id: string) {
    k + 1 < |h| && IsPending(id, h[k].states) && id in h[k + 1].states && h[k + 1].states[id] == Running
  }

  lemma {:induction false} NeverPendingAgain(gates: seq<Gate>, max: nat, exec: Executor, h: seq<Config>, i: nat, j: nat,
                                             id: string)
    requires IsRun(gates, max, exec, h) && i <= j < |h| && !IsPending(id, h[i].states) && id in h[i].states
    ensures !IsPending(id, h[j].states) && id in h[j].states
    decreases j
  {
    if i < j {
      NeverPendingAgain(gates, max, exec, h, i, j - 1, id);
      assert Next(gates, max, exec, h[j - 1], h[j - 1 + 1]);
    }
  }

  lemma StartedAtMostOnce(gates: seq<Gate>, max: nat, exec: Executor, h: seq<Config>, i: nat, j: nat, id: string)
    requires IsRun(gates, max, exec, h) && Starts(h, i, id) && Starts(h, j, id)
    ensures i == j
  {
    if i < j {
      NeverPendingAgain(gates, max, exec, h, i + 1, j, id);
    } else if j < i {
      NeverPendingAgain(gates, max, exec, h, j + 1, i, id);
    }
  }

  // ---- Termination ----

  function PendingIds(c: Config): set<string> {
    set id | id in c.states && c.states[id] == Pending
  }

  function Measure(c: Config): nat {
    2 * |PendingIds(c)| + |c.running|
  }

  lemma LeavingPending(c: Config, c': Config, id: string)
    requires IsPending(id, c.states) && id in c'.states && c'.states[id] != Pending
    requires c'.states == c.states[id := c'.states[id]]
    ensures |PendingIds(c')| == |PendingIds(c)| - 1
  {
    assert PendingIds(c') == PendingIds(c) - {id};
  }

  lemma SettleDecreases(exec: Executor, c: Config, i: nat)
    requires i < |c.running| && c.running[i].id in c.states && c.states[c.running[i].id] == Running
    ensures Measure(Settle(exec, c, i)) == Measure(c) - 1
  {
    assert PendingIds(Settle(exec, c, i)) == PendingIds(c);
  }

  lemma NextDecreases(gates: seq<Gate>, max: nat, exec: Executor, c: Config, c': Config)
    requires RunningAgrees(gates, c) && Next(gates, max, exec, c, c')
    ensures Measure(c') < Measure(c)
  {
    hide PendingIds;
    if StartStep(gates, max, c, c') {
      var g := FindReady(gates, c.states).value;
      assert IsReady(g, c.states);
      LeavingPending(c, c', g.id);
    } else if SettleStep(gates, max, exec, c, c') {
      var i: nat :| i < |c.running| && c' == Settle(exec, c, i);
      SettleDecreases(exec, c, i);
    } else {
      var g := FindBlocked(gates, c.states).value;
      assert IsBlocked(g, c.states);
      LeavingPending(c, c', g.id);
    }
  }

  lemma {:induction false} IdsBound(gates: seq<Gate>)
    ensures |Ids(gates)| <= |gates|
  {
    if gates != [] {
      IdsBound(gates[1..]);
      assert gates == [gates[0]] + gates[1..];
      assert Ids(gates) == Ids(gates[1..]) + {gates[0].id};
    }
  }

  /** Every run ends: it takes at most two steps per gate. */
  lemma {:induction false} RunsAreBounded(gates: seq<Gate>, max: nat, exec: Executor, h: seq<Config>)
    requires DistinctIds(gates) && IsRun(gates, max, exec, h)
    ensures |h| - 1 + Measure(h[|h| - 1]) <= 2 * |gates|
    decreases |h|
  {
    if |h| == 1 {
      assert PendingIds(Initial(gates)) == Ids(gates);
      IdsBound(gates);
    } else {
      var k := |h| - 2;
      assert IsRun(gates, max, exec, h[..|h| - 1]);
      RunsAreBounded(gates, max, exec, h[..|h| - 1]);
      RunsAreSafe(gates, max, exec, h, k);
      assert Next(gates, max, exec, h[k], h[k + 1]);
      NextDecreases(gates, max, exec, h[k], h[k + 1]);
    }
  }

  // ---- No stall ----

  /** The "validated graph stalled" throw is unreachable: while gates are pending, one of them is blocked. */
  lemma NeverStalls(gates: seq<Gate>, max: nat, exec: Executor, c: Config)
    requires WellFormed(gates) && Safe(gates, max, exec, c) && Quiescent(gates, c) && PendingIds(c) != {}
    ensures FindBlocked(gates, c.states).Some?
  {
    hide Justified, ResultsAgree, DistinctIds, IsCycle;
    var id := AcyclicHasSink(Needs(gates), PendingIds(c));
    var g :| g in gates && g.id == id;
    assert !IsReady(g, c.states);
    var d :| d in g.needs && !HasPassed(d, c.states);
    EdgeIsNeed(gates, g, d);
    assert d in Ids(gates) && d !in PendingIds(c);
    var e :| e in gates && e.id == d;
    assert c.states[d] != Running && c.states[d] != Pending;
    match c.states[d].status {
      case Passed => assert false;
      case Failed => assert FailedOrSkipped(d, c.states);
      case Skipped => assert FailedOrSkipped(d, c.states);
    }
    assert IsBlocked(g, c.states);
  }

  lemma AllSettled(gates: seq<Gate>, max: nat, exec: Executor, c: Config)
    requires Safe(gates, max, exec, c) && c.running == [] && PendingIds(c) == {}
    ensures Finished(c)
  {
    forall id | id in c.states ensures c.states[id].Done? {
      var g :| g in gates && g.id == id;
      assert id !in PendingIds(c);
    }
  }

  /** Progress: with at least one slot, an unfinished configuration always has a next one. */
  lemma NeverDeadlocks(gates: seq<Gate>, max: nat, exec: Executor, c: Config) returns (c': Config)
    requires WellFormed(gates) && max >= 1 && Safe(gates, max, exec, c) && !Finished(c)
    ensures Next(gates, max, exec, c, c')
  {
    hide RunningAgrees, ResultsAgree, Justified, WellFormed;
    var ready := FindReady(gates, c.states);
    if ready.Some? && |c.running| < max {
      c' := Start(c, ready.value);
    } else if c.running != [] {
      c' := Settle(exec, c, 0);
    } else {
      if PendingIds(c) == {} {
        AllSettled(gates, max, exec, c);
        assert false;
      }
      NeverStalls(gates, max, exec, c);
      c' := Skip(c, FindBlocked(gates, c.states).value);
    }
  }

  /** Every run extends to a complete one, so the results below are never vacuous. */
  lemma {:induction false} RunsCanBeCompleted(gates: seq<Gate>, max: nat, exec: Executor, h: seq<Config>)
    returns (full: seq<Config>)
    requires WellFormed(gates) && max >= 1 && IsRun(gates, max, exec, h)
    ensures IsCompleteRun(gates, max, exec, full) && h <= full
    decreases Measure(h[|h| - 1])
  {
    hide Safe, Next, Finished, Measure, Acyclic, KnownNeeds;
    var c := h[|h| - 1];
    if Finished(c) {
      full := h;
    } else {
      RunsAreSafe(gates, max, exec, h, |h| - 1);
      var c' := NeverDeadlocks(gates, max, exec, c);
      NextDecreases(gates, max, exec, c, c');
      full := RunsCanBeCompleted(gates, max, exec, h + [c']);
    }
  }

  // ---- The final statuses are the recursive definition's ----

  /** A gate is skipped if and only if some need ends failed or skipped; otherwise it has its own outcome. */
  predicate Resolves(gates: seq<Gate>, exec: Executor, final: map<string, Status>) {
    final.Keys == Ids(gates) && forall g :: g in gates && g.id in final ==> ResolvesGate(exec, final, g)
  }

  predicate ResolvesGate(exec: Executor, final: map<string, Status>, g: Gate)
    requires g.id in final
  {
    final[g.id] == if forall d :: d in g.needs && d in final ==> final[d] == Passed then exec(g).status else Skipped
  }

  function Statuses(c: Config): map<string, Status>
    requires Finished(c)
  {
    map id | id in c.states :: c.states[id].status
  }

  lemma GateResolves(gates: seq<Gate>, max: nat, exec: Executor, c: Config, g: Gate)
    requires Safe(gates, max, exec, c) && Finished(c) && g in gates && g.id in c.states
    ensures ResolvesGate(exec, Statuses(c), g)
  {
    var final := Statuses(c);
    assert c.states[g.id].Done? && JustifiedGate(exec, g, c) && ResultsAgree(c);
    hide Safe;
    if WasExecuted(exec, g, c) {
      forall d | d in g.needs ensures d in final && final[d] == Passed { assert HasPassed(d, c.states); }
    } else {
      assert WasSkipped(g, c);
      var d :| d in g.needs && FailedOrSkipped(d, c.states);
      assert final[d] != Passed;
    }
  }

  lemma FinishedResolves(gates: seq<Gate>, max: nat, exec: Executor, c: Config)
    requires WellFormed(gates) && Safe(gates, max, exec, c) && Finished(c)
    ensures Resolves(gates, exec, Statuses(c))
  {
    assert c.states.Keys == Ids(gates);
    hide Safe, WellFormed, ResolvesGate, Ids, Finished;
    forall g | g in gates && g.id in c.states ensures ResolvesGate(exec, Statuses(c), g) {
      GateResolves(gates, max, exec, c, g);
    }
  }

  /** Two solutions that agree on a gate's needs agree on the gate. */
  lemma ResolvedAlike(gates: seq<Gate>, exec: Executor, f: map<string, Status>, g: map<string, Status>, gate: Gate)
    requires Resolves(gates, exec, f) && Resolves(gates, exec, g) && gate in gates
    requires forall d :: d in gate.needs ==> d in f && d in g && f[d] == g[d]
    ensures gate.id in f && gate.id in g && f[gate.id] == g[gate.id]
  {
    assert (forall d :: d in gate.needs && d in f ==> f[d] == Passed) <==>
      (forall d :: d in gate.needs && d in g ==> g[d] == Passed);
  }

  /** On an acyclic graph the recursive definition has only one solution. */
  lemma ResolutionIsUnique(gates: seq<Gate>, exec: Executor, f: map<string, Status>, g: map<string, Status>)
    requires WellFormed(gates) && Resolves(gates, exec, f) && Resolves(gates, exec, g)
    ensures f == g
  {
    assert f.Keys == Ids(gates) == g.Keys;
    hide Resolves, DistinctIds, KnownNeeds, Edge;
    var differ := set id | id in f && f[id] != g[id];
    if differ != {} {
      var id := AcyclicHasSink(Needs(gates), differ);
      var gate :| gate in gates && gate.id == id;
      NeedsOutside(gates, gate, differ);
      forall d | d in gate.needs ensures d in f && f[d] == g[d] { assert d !in differ; }
      ResolvedAlike(gates, exec, f, g, gate);
      assert false;
    }
    forall id | id in f ensures f[id] == g[id] { assert id !in differ; }
  }

  /** The needs of a sink of `s` are ids outside `s`. */
  lemma NeedsOutside(gates: seq<Gate>, g: Gate, s: set<string>)
    requires WellFormed(gates) && g in gates && forall b :: b in s ==> !Edge(Needs(gates), g.id, b)
    ensures forall d :: d in g.needs ==> d in Ids(gates) && d !in s
  {
    forall d | d in g.needs ensures d in Ids(gates) && d !in s { EdgeIsNeed(gates, g, d); }
  }

  // ---- Schedule independence, down to the text of each skip ----

  /** Nothing has been skipped yet: every settled gate ran. */
  predicate OnlyExecuted(gates: seq<Gate>, exec: Executor, c: Config) {
    forall g :: g in gates && g.id in c.states && c.states[g.id].Done? ==> WasExecuted(exec, g, c)
  }

  /** The skip phase as a function of the configuration it starts from. */
  function SkipAll(gates: seq<Gate>, c: Config): Config
    decreases |PendingIds(c)|
  {
    var blocked := FindBlocked(gates, c.states);
    if blocked.None? then c
    else
      assert IsBlocked(blocked.value, c.states);
      assert PendingIds(Skip(c, blocked.value)) == PendingIds(c) - {blocked.value.id};
      SkipAll(gates, Skip(c, blocked.value))
  }

  /** At two quiescent points, a gate whose needs agree agrees itself. */
  lemma SettledAlike(gates: seq<Gate>, exec: Executor, c1: Config, c2: Config, g: Gate)
    requires g in gates && g.id in c1.states && g.id in c2.states
    requires ResultsAgree(c1) && ResultsAgree(c2) && c1.states[g.id] != Running && c2.states[g.id] != Running
    requires !IsReady(g, c1.states) && !IsReady(g, c2.states)
    requires OnlyExecuted(gates, exec, c1) && OnlyExecuted(gates, exec, c2)
    requires forall d :: d in g.needs ==> (HasPassed(d, c1.states) <==> HasPassed(d, c2.states))
    ensures c1.states[g.id] == c2.states[g.id]
    ensures c1.states[g.id].Done? ==> c1.results[g.id] == c2.results[g.id]
  {
    assert DependenciesPassed(g, c1.states) <==> DependenciesPassed(g, c2.states);
    assert c1.states[g.id].Done? ==> WasExecuted(exec, g, c1);
    assert c2.states[g.id].Done? ==> WasExecuted(exec, g, c2);
  }

  lemma SettledAlikeIn(gates: seq<Gate>, max1: nat, max2: nat, exec: Executor, c1: Config, c2: Config, g: Gate)
    requires Safe(gates, max1, exec, c1) && Safe(gates, max2, exec, c2) && g in gates
    requires Quiescent(gates, c1) && Quiescent(gates, c2)
    requires OnlyExecuted(gates, exec, c1) && OnlyExecuted(gates, exec, c2)
    requires forall d :: d in g.needs ==> d in c1.states && d in c2.states && c1.states[d] == c2.states[d]
    ensures g.id in c1.states && g.id in c2.states && c1.states[g.id] == c2.states[g.id]
    ensures c1.states[g.id].Done? ==> g.id in c1.results && g.id in c2.results && c1.results[g.id] == c2.results[g.id]
  {
    assert !IsReady(g, c1.states) && !IsReady(g, c2.states);
    assert c1.states[g.id] != Running && c2.states[g.id] != Running;
    hide Justified, Quiescent, FindReady;
    SettledAlike(gates, exec, c1, c2, g);
  }

  lemma SafeTables(gates: seq<Gate>, max: nat, exec: Executor, c: Config)
    requires Safe(gates, max, exec, c)
    ensures c.states.Keys == Ids(gates) && ResultsAgree(c)
  {}

  lemma QuiescentStatesUnique(gates: seq<Gate>, max1: nat, max2: nat, exec: Executor, c1: Config, c2: Config)
    requires WellFormed(gates) && Safe(gates, max1, exec, c1) && Safe(gates, max2, exec, c2)
    requires Quiescent(gates, c1) && Quiescent(gates, c2)
    requires OnlyExecuted(gates, exec, c1) && OnlyExecuted(gates, exec, c2)
    ensures c1.states == c2.states
  {
    hide Safe, Quiescent, OnlyExecuted, DistinctIds, KnownNeeds, Edge, ResultsAgree;
    SafeTables(gates, max1, exec, c1);
    SafeTables(gates, max2, exec, c2);
    var differ := set id | id in c1.states && c1.states[id] != c2.states[id];
    if differ != {} {
      var id := AcyclicHasSink(Needs(gates), differ);
      var g :| g in gates && g.id == id;
      NeedsOutside(gates, g, differ);
      SettledAlikeIn(gates, max1, max2, exec, c1, c2, g);
      assert false;
    }
    forall id | id in c1.states ensures c1.states[id] == c2.states[id] { assert id !in differ; }
  }

  lemma SameResultIds(c1: Config, c2: Config)
    requires ResultsAgree(c1) && ResultsAgree(c2) && c1.states == c2.states
    ensures c1.results.Keys == c2.results.Keys
    ensures forall id :: id in c1.results ==> id in c1.states && c1.states[id].Done?
  {}

  lemma QuiescentIsUnique(gates: seq<Gate>, max1: nat, max2: nat, exec: Executor, c1: Config, c2: Config)
    requires WellFormed(gates) && Safe(gates, max1, exec, c1) && Safe(gates, max2, exec, c2)
    requires Quiescent(gates, c1) && Quiescent(gates, c2)
    requires OnlyExecuted(gates, exec, c1) && OnlyExecuted(gates, exec, c2)
    ensures c1 == c2
  {
    hide WellFormed, Safe, OnlyExecuted, FindReady, ResultsAgree;
    QuiescentStatesUnique(gates, max1, max2, exec, c1, c2);
    SafeTables(gates, max1, exec, c1);
    SafeTables(gates, max2, exec, c2);
    SameResultIds(c1, c2);
    assert c1.running == c2.running;
    forall id | id in c1.results ensures id in c2.results && c1.results[id] == c2.results[id] {
      var g :| g in gates && g.id == id;
      NeedsOutside(gates, g, {});
      SettledAlikeIn(gates, max1, max2, exec, c1, c2, g);
    }
  }

  lemma SkipStaysQuiescent(gates: seq<Gate>, c: Config, c': Config)
    requires SkipStep(gates, c, c')
    ensures Quiescent(gates, c')
  {
    var skipped := FindBlocked(gates, c.states).value;
    assert IsBlocked(skipped, c.states);
    forall g | g in gates ensures !IsReady(g, c'.states) {
      assert !IsReady(g, c.states);
      if g.id != skipped.id && IsPending(g.id, c.states) {
        var d :| d in g.needs && !HasPassed(d, c.states);
        assert !HasPassed(d, c'.states);
      }
    }
  }

  /** From a quiescent point on, a complete run has no choice left. */
  lemma {:induction false} TailIsSkipAll(gates: seq<Gate>, max: nat, exec: Executor, h: seq<Config>, k: nat)
    requires IsCompleteRun(gates, max, exec, h) && k < |h| && Quiescent(gates, h[k])
    ensures h[|h| - 1] == SkipAll(gates, h[k])
    decreases |h| - k
  {
    if k == |h| - 1 {
      forall g | g in gates ensures !IsBlocked(g, h[k].states) {}
    } else {
      assert Next(gates, max, exec, h[k], h[k + 1]);
      assert SkipStep(gates, h[k], h[k + 1]);
      SkipStaysQuiescent(gates, h[k], h[k + 1]);
      TailIsSkipAll(gates, max, exec, h, k + 1);
    }
  }

  lemma ExecutedKept(exec: Executor, g: Gate, c: Config, c': Config)
    requires WasExecuted(exec, g, c) && ResultsAgree(c) && g.id in c.states
    requires forall k :: k in c.states && c.states[k].Done? ==> k in c'.states && c'.states[k] == c.states[k]
    requires forall k :: k in c.results ==> k in c'.results && c'.results[k] == c.results[k]
    ensures WasExecuted(exec, g, c')
  {
    forall d | d in g.needs ensures HasPassed(d, c'.states) { assert HasPassed(d, c.states); }
  }

  lemma StartKeepsExecuted(gates: seq<Gate>, exec: Executor, c: Config, started: Gate)
    requires ResultsAgree(c) && OnlyExecuted(gates, exec, c) && IsReady(started, c.states)
    ensures OnlyExecuted(gates, exec, Start(c, started))
  {
    var c' := Start(c, started);
    forall g | g in gates && g.id in c'.states && c'.states[g.id].Done? ensures WasExecuted(exec, g, c') {
      ExecutedKept(exec, g, c, c');
    }
  }

  lemma SettleKeepsExecuted(gates: seq<Gate>, exec: Executor, c: Config, i: nat)
    requires DistinctIds(gates) && ResultsAgree(c) && OnlyExecuted(gates, exec, c)
    requires i < |c.running| && c.running[i] in gates && DependenciesPassed(c.running[i], c.states)
    requires c.running[i].id in c.states && c.states[c.running[i].id] == Running
    ensures OnlyExecuted(gates, exec, Settle(exec, c, i))
  {
    hide DistinctIds;
    var c' := Settle(exec, c, i);
    forall g | g in gates && g.id in c'.states && c'.states[g.id].Done? ensures WasExecuted(exec, g, c') {
      if g.id == c.running[i].id {
        SameIdSameGate(gates, g, c.running[i]);
        forall d | d in g.needs ensures HasPassed(d, c'.states) { assert HasPassed(d, c.states); }
      } else {
        ExecutedKept(exec, g, c, c');
      }
    }
  }

  /** Outside the skip phase only a settling child changes a state to settled. */
  lemma ExecutedStaysSo(gates: seq<Gate>, max: nat, exec: Executor, c: Config, c': Config)
    requires DistinctIds(gates) && Safe(gates, max, exec, c) && OnlyExecuted(gates, exec, c)
    requires Next(gates, max, exec, c, c') && !Quiescent(gates, c)
    ensures OnlyExecuted(gates, exec, c')
  {
    hide DistinctIds, OnlyExecuted, ResultsAgree;
    if StartStep(gates, max, c, c') {
      StartKeepsExecuted(gates, exec, c, FindReady(gates, c.states).value);
    } else {
      var i: nat :| i < |c.running| && c' == Settle(exec, c, i);
      assert JustifiedGate(exec, c.running[i], c);
      SettleKeepsExecuted(gates, exec, c, i);
    }
  }

  /** A complete run passes a quiescent configuration before it skips anything. */
  lemma {:induction false} ReachesQuiescence(gates: seq<Gate>, max: nat, exec: Executor, h: seq<Config>, k: nat)
    returns (q: nat)
    requires WellFormed(gates) && IsCompleteRun(gates, max, exec, h) && k < |h| && OnlyExecuted(gates, exec, h[k])
    ensures q < |h| && Quiescent(gates, h[q]) && OnlyExecuted(gates, exec, h[q])
    decreases |h| - k
  {
    if Quiescent(gates, h[k]) {
      q := k;
    } else if k < |h| - 1 {
      RunsAreSafe(gates, max, exec, h, k);
      assert Next(gates, max, exec, h[k], h[k + 1]);
      ExecutedStaysSo(gates, max, exec, h[k], h[k + 1]);
      q := ReachesQuiescence(gates, max, exec, h, k + 1);
    } else {
      forall g | g in gates ensures !IsReady(g, h[k].states) {}
      assert false;
    }
  }

  /** Any two complete runs, under any two slot limits and settle orders, end in the same configuration. */
  lemma ScheduleIndependence(gates: seq<Gate>, max1: nat, max2: nat, exec: Executor, h1: seq<Config>, h2: seq<Config>)
    requires WellFormed(gates) && IsCompleteRun(gates, max1, exec, h1) && IsCompleteRun(gates, max2, exec, h2)
    ensures h1[|h1| - 1] == h2[|h2| - 1]
  {
    var q1 := ReachesQuiescence(gates, max1, exec, h1, 0);
    var q2 := ReachesQuiescence(gates, max2, exec, h2, 0);
    RunsAreSafe(gates, max1, exec, h1, q1);
    RunsAreSafe(gates, max2, exec, h2, q2);
    QuiescentIsUnique(gates, max1, max2, exec, h1[q1], h2[q2]);
    TailIsSkipAll(gates, max1, exec, h1, q1);
    TailIsSkipAll(gates, max2, exec, h2, q2);
  }
}
