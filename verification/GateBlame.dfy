/** Which needs the error of a skipped gate names (scripts/run-gates.ts). */
module GateBlame {
  import opened GateGraph
  import opened GateRuns

  /** At some point of the run `d` has its result and `g` has none yet. */
  ghost predicate SettledBefore(h: seq<Config>, d: string, g: string) {
    exists k :: 0 <= k < |h| && d in h[k].results && g !in h[k].results
  }

  /** `chosen` are the entries of `all` at the positions `at`, in order; these are the positions of `picked` entries. */
  predicate SelectedAt(all: seq<string>, chosen: seq<string>, at: seq<nat>, picked: set<string>) {
    && |at| == |chosen| && (forall i, j :: 0 <= i < j < |at| ==> at[i] < at[j])
    && (forall i :: 0 <= i < |at| ==> at[i] < |all| && chosen[i] == all[at[i]])
    && forall k :: 0 <= k < |all| ==> (k in at <==> all[k] in picked)
  }

  ghost predicate Selected(all: seq<string>, chosen: seq<string>, picked: set<string>) {
    exists at :: SelectedAt(all, chosen, at, picked)
  }

  /** The needs that ended without passing and had done so before the gate was skipped. */
  ghost function Blamed(h: seq<Config>, g: Gate): set<string>
    requires h != []
  {
    set d | d in g.needs && FailedOrSkipped(d, h[|h| - 1].states) && SettledBefore(h, d, g.id)
  }

  /**
   * The error of a skipped gate: it names some need, exactly the needs that had failed or been skipped before, in
   * the order of the gate's needs, and among them every need that ran without passing.
   */
  ghost predicate BlamesRightly(gates: seq<Gate>, exec: Executor, h: seq<Config>, g: Gate, error: seq<string>)
    requires h != []
  {
    var c := h[|h| - 1];
    && error != [] && Selected(g.needs, error, Blamed(h, g))
    && (forall d :: d in error ==> FailedOrSkipped(d, c.states))
    && forall e ::
      e in gates && e.id in g.needs && WasExecuted(exec, e, c) && !HasPassed(e.id, c.states) ==> e.id in error
  }

  // ---- The error as written ----

  /** One more entry at the end. */
  lemma SelectedMore(all: seq<string>, chosen: seq<string>, at: seq<nat>, picked: set<string>, x: string)
    requires SelectedAt(all, chosen, at, picked)
    ensures x !in picked ==> SelectedAt(all + [x], chosen, at, picked)
    ensures x in picked ==> SelectedAt(all + [x], chosen + [x], at + [|all|], picked)
  {
    var longer := all + [x];
    PositionsBelow(all, chosen, at, picked);
    forall k | 0 <= k < |all| ensures longer[k] == all[k] {}
    if x in picked { LastSelected(all, chosen, at, picked, x); }
  }

  lemma PositionsBelow(all: seq<string>, chosen: seq<string>, at: seq<nat>, picked: set<string>)
    requires SelectedAt(all, chosen, at, picked)
    ensures forall k :: k in at ==> k < |all|
  {}

  lemma LastSelected(all: seq<string>, chosen: seq<string>, at: seq<nat>, picked: set<string>, x: string)
    requires SelectedAt(all, chosen, at, picked) && x in picked
    ensures SelectedAt(all + [x], chosen + [x], at + [|all|], picked)
  {
    var longer, named, both := all + [x], chosen + [x], at + [|all|];
    forall i | 0 <= i < |both| ensures both[i] < |longer| && named[i] == longer[both[i]] {}
    forall k | 0 <= k < |longer| ensures k in both <==> longer[k] in picked {
      assert k in both <==> k in at || k == |all|;
      PositionsBelow(all, chosen, at, picked);
    }
  }

  function Unpassed(needs: seq<string>, states: map<string, State>): set<string> {
    set d | d in needs && FailedOrSkipped(d, states)
  }

  lemma SelectedAlike(all: seq<string>, chosen: seq<string>, at: seq<nat>, picked: set<string>, picked': set<string>)
    requires SelectedAt(all, chosen, at, picked) && forall d :: d in all ==> (d in picked <==> d in picked')
    ensures SelectedAt(all, chosen, at, picked')
  {}

  /** What one need adds to the error. */
  function Named(d: string, states: map<string, State>): seq<string> {
    if FailedOrSkipped(d, states) then [d] else []
  }

  lemma FailedDepsCons(d: string, needs: seq<string>, states: map<string, State>)
    ensures FailedDeps([d] + needs, states) == Named(d, states) + FailedDeps(needs, states)
    ensures FailedDeps([], states) == []
  {
    assert ([d] + needs)[1..] == needs;
  }

  lemma {:induction false} FailedDepsAppend(needs: seq<string>, x: string, states: map<string, State>)
    ensures FailedDeps(needs + [x], states) == FailedDeps(needs, states) + Named(x, states)
  {
    hide Named, FailedDeps;
    if needs == [] {
      assert needs + [x] == [x] + [];
      FailedDepsCons(x, [], states);
    } else {
      var d, rest := needs[0], needs[1..];
      FailedDepsAppend(rest, x, states);
      FailedDepsCons(d, rest, states);
      FailedDepsCons(d, rest + [x], states);
      assert needs == [d] + rest && needs + [x] == [d] + (rest + [x]);
    }
  }

  lemma {:induction false} FailedDepsSelect(needs: seq<string>, states: map<string, State>) returns (at: seq<nat>)
    ensures SelectedAt(needs, FailedDeps(needs, states), at, Unpassed(needs, states))
  {
    if needs == [] {
      at := [];
    } else {
      hide SelectedAt, FailedDeps;
      var front, last := needs[..|needs| - 1], needs[|needs| - 1];
      at := FailedDepsSelect(front, states);
      FailedDepsAppend(front, last, states);
      SelectedAlike(front, FailedDeps(front, states), at, Unpassed(front, states), Unpassed(needs, states));
      SelectedMore(front, FailedDeps(front, states), at, Unpassed(needs, states), last);
      assert needs == front + [last];
      if FailedOrSkipped(last, states) { at := at + [|front|]; }
    }
  }

  // ---- Results and settled states stay ----

  /** What has settled in `c` has settled alike in `c'`. */
  predicate Grows(c: Config, c': Config) {
    && (forall id :: id in c.results ==> id in c'.results && c'.results[id] == c.results[id])
    && (forall id :: id in c.states && c.states[id].Done? ==> id in c'.states && c'.states[id] == c.states[id])
  }

  lemma ResultGiven(c: Config, id: string, r: GateResult, c': Config)
    requires ResultsAgree(c) && id in c.states && !c.states[id].Done?
    requires c'.states == c.states[id := Done(r.status)] && c'.results == c.results[id := r]
    ensures Grows(c, c')
  {}

  lemma NextGrows(gates: seq<Gate>, max: nat, exec: Executor, c: Config, c': Config)
    requires Safe(gates, max, exec, c) && Next(gates, max, exec, c, c')
    ensures Grows(c, c')
  {
    hide Justified, RunningAgrees, ResultsAgree, Quiescent, MayWait, Grows;
    if SkipStep(gates, c, c') {
      var g := FindBlocked(gates, c.states).value;
      assert IsBlocked(g, c.states);
      hide FindBlocked;
      ResultGiven(c, g.id, SkippedResult(g, c.states), c');
    } else if StartStep(gates, max, c, c') {
      assert IsReady(FindReady(gates, c.states).value, c.states);
      hide FindReady;
      StartGrows(c, FindReady(gates, c.states).value);
    } else {
      var i: nat :| i < |c.running| && c' == Settle(exec, c, i);
      IsRunning(gates, c, i);
      ResultGiven(c, c.running[i].id, exec(c.running[i]), c');
    }
  }

  lemma StartGrows(c: Config, g: Gate)
    requires IsPending(g.id, c.states)
    ensures Grows(c, Start(c, g))
  {}

  lemma IsRunning(gates: seq<Gate>, c: Config, i: nat)
    requires RunningAgrees(gates, c) && i < |c.running|
    ensures c.running[i].id in c.states && c.states[c.running[i].id] == Running
  {}

  lemma GrowsOn(a: Config, b: Config, c: Config)
    ensures Grows(a, a) && (Grows(a, b) && Grows(b, c) ==> Grows(a, c))
  {}

  lemma {:induction false} RunGrows(gates: seq<Gate>, max: nat, exec: Executor, h: seq<Config>, i: nat, j: nat)
    requires DistinctIds(gates) && IsRun(gates, max, exec, h) && i <= j < |h|
    ensures Grows(h[i], h[j])
    decreases j
  {
    hide DistinctIds, Next, Grows, Safe;
    if i < j {
      RunGrows(gates, max, exec, h, i, j - 1);
      RunsAreSafe(gates, max, exec, h, j - 1);
      assert Next(gates, max, exec, h[j - 1], h[j - 1 + 1]);
      NextGrows(gates, max, exec, h[j - 1], h[j]);
    }
    GrowsOn(h[i], if i < j then h[j - 1] else h[i], h[j]);
  }

  lemma PassedStays(g: Gate, c: Config, c': Config)
    requires Grows(c, c') && DependenciesPassed(g, c.states)
    ensures DependenciesPassed(g, c'.states)
  {
    forall d | d in g.needs ensures HasPassed(d, c'.states) { assert HasPassed(d, c.states); }
  }

  /** After the skip phase began nothing passes any more. */
  lemma {:induction false} NothingPassesLater(gates: seq<Gate>, max: nat, exec: Executor, h: seq<Config>, i: nat,
                                              j: nat, d: string)
    requires IsRun(gates, max, exec, h) && i <= j < |h| && Quiescent(gates, h[i])
    ensures Quiescent(gates, h[j]) && (HasPassed(d, h[j].states) ==> HasPassed(d, h[i].states))
    decreases j
  {
    hide FindReady, FindBlocked;
    if i < j {
      NothingPassesLater(gates, max, exec, h, i, j - 1, d);
      assert Next(gates, max, exec, h[j - 1], h[j - 1 + 1]);
      assert SkipStep(gates, h[j - 1], h[j]);
      SkipStaysQuiescent(gates, h[j - 1], h[j]);
    }
  }

  // ---- The step that skips ----

  /** A gate whose needs did not all pass got its result from a skip. */
  lemma {:induction false} SkippedAt(gates: seq<Gate>, max: nat, exec: Executor, h: seq<Config>, g: Gate, j: nat)
    returns (k: nat)
    requires DistinctIds(gates) && IsRun(gates, max, exec, h) && g in gates && j < |h| && g.id in h[j].results
    requires !DependenciesPassed(g, h[j].states)
    ensures k < j && Quiescent(gates, h[k]) && g.id !in h[k].results && h[k + 1] == Skip(h[k], g)
    decreases j
  {
    hide DistinctIds, DependenciesPassed, Next, Quiescent, Safe;
    assert g.id !in h[0].results;
    var c, c' := h[j - 1], h[j - 1 + 1];
    RunsAreSafe(gates, max, exec, h, j - 1);
    assert Next(gates, max, exec, c, c');
    NextGrows(gates, max, exec, c, c');
    if DependenciesPassed(g, c.states) {
      PassedStays(g, c, c');
      assert false;
    }
    hide Grows, IsRun;
    if g.id in c.results {
      k := SkippedAt(gates, max, exec, h, g, j - 1);
    } else {
      k := j - 1;
      GivenResult(gates, max, exec, c, c', g);
    }
  }

  lemma SettlingHadPassed(gates: seq<Gate>, max: nat, exec: Executor, c: Config, i: nat, g: Gate)
    requires DistinctIds(gates) && Safe(gates, max, exec, c) && i < |c.running| && g in gates && c.running[i].id == g.id
    ensures DependenciesPassed(g, c.states)
  {
    assert JustifiedGate(exec, c.running[i], c);
    SameIdSameGate(gates, g, c.running[i]);
  }

  lemma GivenResult(gates: seq<Gate>, max: nat, exec: Executor, c: Config, c': Config, g: Gate)
    requires DistinctIds(gates) && Safe(gates, max, exec, c) && Next(gates, max, exec, c, c') && g in gates
    requires g.id !in c.results && g.id in c'.results && !DependenciesPassed(g, c.states)
    ensures Quiescent(gates, c) && c' == Skip(c, g)
  {
    hide DependenciesPassed, FindReady, FindBlocked;
    if SkipStep(gates, c, c') {
      SameIdSameGate(gates, g, FindBlocked(gates, c.states).value);
    } else if SettleStep(gates, max, exec, c, c') {
      var i: nat :| i < |c.running| && c' == Settle(exec, c, i);
      if c.running[i].id == g.id { SettlingHadPassed(gates, max, exec, c, i, g); }
      assert false;
    }
  }

  /** What had settled when `g` was skipped is what settled before `g`. */
  lemma UnpassedStays(c: Config, c': Config, d: string)
    requires ResultsAgree(c) && c.results.Keys <= c.states.Keys && Grows(c, c')
    ensures FailedOrSkipped(d, c.states) <==> FailedOrSkipped(d, c'.states) && d in c.results
  {}

  lemma SettledBy(gates: seq<Gate>, max: nat, exec: Executor, h: seq<Config>, g: Gate, k: nat, d: string)
    requires DistinctIds(gates) && IsRun(gates, max, exec, h) && k < |h| - 1
    requires g.id !in h[k].results && g.id in h[k + 1].results
    ensures d in h[k].results <==> SettledBefore(h, d, g.id)
  {
    if SettledBefore(h, d, g.id) {
      var m :| 0 <= m < |h| && d in h[m].results && g.id !in h[m].results;
      hide DistinctIds, IsRun;
      if m <= k {
        RunGrows(gates, max, exec, h, m, k);
      } else {
        RunGrows(gates, max, exec, h, k + 1, m);
        assert false;
      }
    }
  }

  lemma SettledByThen(gates: seq<Gate>, max: nat, exec: Executor, h: seq<Config>, g: Gate, k: nat, d: string)
    requires DistinctIds(gates) && IsRun(gates, max, exec, h) && k < |h| - 1
    requires g.id !in h[k].results && g.id in h[k + 1].results
    ensures FailedOrSkipped(d, h[k].states) <==> FailedOrSkipped(d, h[|h| - 1].states) && SettledBefore(h, d, g.id)
  {
    RunsAreSafe(gates, max, exec, h, k);
    SafeTables(gates, max, exec, h[k]);
    assert h[k].results.Keys <= h[k].states.Keys;
    hide Safe, IsRun, DistinctIds, ResultsAgree, Grows, SettledBefore, FailedOrSkipped;
    RunGrows(gates, max, exec, h, k, |h| - 1);
    UnpassedStays(h[k], h[|h| - 1], d);
    SettledBy(gates, max, exec, h, g, k, d);
  }

  /** A need that ran had settled before the skip phase. */
  lemma ExecutedByThen(gates: seq<Gate>, max: nat, exec: Executor, h: seq<Config>, k: nat, e: Gate)
    requires DistinctIds(gates) && IsRun(gates, max, exec, h) && k < |h| && Quiescent(gates, h[k]) && e in gates
    requires WasExecuted(exec, e, h[|h| - 1]) && !HasPassed(e.id, h[|h| - 1].states)
    ensures FailedOrSkipped(e.id, h[k].states)
  {
    var c, last := h[k], h[|h| - 1];
    RunsAreSafe(gates, max, exec, h, k);
    RunGrows(gates, max, exec, h, k, |h| - 1);
    forall d | d in e.needs ensures HasPassed(d, c.states) {
      assert HasPassed(d, last.states);
      NothingPassesLater(gates, max, exec, h, k, |h| - 1, d);
    }
    assert !IsReady(e, c.states);
    assert e.id in c.states && c.states[e.id] != Running;
    assert c.states[e.id].Done? && last.states[e.id] == c.states[e.id];
    var status := c.states[e.id].status;
    assert status != Passed && (status.Passed? || status == Failed || status == Skipped);
  }

  /** In every run, the result of a skipped gate blames exactly the needs that had failed or been skipped before it. */
  lemma SkipsBlameRightly(gates: seq<Gate>, max: nat, exec: Executor, h: seq<Config>, g: Gate)
    requires DistinctIds(gates) && IsRun(gates, max, exec, h) && g in gates
    requires g.id in h[|h| - 1].results && !DependenciesPassed(g, h[|h| - 1].states)
    ensures BlamesRightly(gates, exec, h, g, h[|h| - 1].results[g.id].error)
  {
    var last := h[|h| - 1];
    var k := SkippedAt(gates, max, exec, h, g, |h| - 1);
    var c := h[k];
    RunGrows(gates, max, exec, h, k + 1, |h| - 1);
    assert Next(gates, max, exec, h[k], h[k + 1]);
    var error := FailedDeps(g.needs, c.states);
    assert last.results[g.id].error == error;
    var at := FailedDepsSelect(g.needs, c.states);
    forall d | d in g.needs ensures d in Unpassed(g.needs, c.states) <==> d in Blamed(h, g) {
      SettledByThen(gates, max, exec, h, g, k, d);
    }
    SelectedAlike(g.needs, error, at, Unpassed(g.needs, c.states), Blamed(h, g));
    SelectedHolds(g.needs, error, at, Blamed(h, g));
    SomeBlocked(gates, max, exec, h, k, g);
    hide IsRun, SelectedAt, WasExecuted, HasPassed;
    forall e | e in gates && e.id in g.needs && WasExecuted(exec, e, last) && !HasPassed(e.id, last.states)
      ensures e.id in error
    {
      ExecutedByThen(gates, max, exec, h, k, e);
    }
  }

  lemma SelectedHolds(all: seq<string>, chosen: seq<string>, at: seq<nat>, picked: set<string>)
    requires SelectedAt(all, chosen, at, picked)
    ensures forall d :: d in chosen <==> d in all && d in picked
  {
    forall d | d in all && d in picked ensures d in chosen {
      var k :| 0 <= k < |all| && all[k] == d;
      var i :| 0 <= i < |at| && at[i] == k;
      assert chosen[i] == d;
    }
  }

  lemma SomeBlocked(gates: seq<Gate>, max: nat, exec: Executor, h: seq<Config>, k: nat, g: Gate)
    requires DistinctIds(gates) && IsRun(gates, max, exec, h) && k < |h| - 1 && g in gates
    requires g.id !in h[k].results && h[k + 1] == Skip(h[k], g) && Quiescent(gates, h[k])
    ensures exists d :: d in g.needs && FailedOrSkipped(d, h[k].states)
  {
    assert Next(gates, max, exec, h[k], h[k + 1]);
    assert SkipStep(gates, h[k], h[k + 1]);
    var blocked := FindBlocked(gates, h[k].states).value;
    assert blocked.id in h[k + 1].results;
    RunsAreSafe(gates, max, exec, h, k);
    assert IsBlocked(blocked, h[k].states) && blocked.id !in h[k].results;
    SameIdSameGate(gates, blocked, g);
  }
}
