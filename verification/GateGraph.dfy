/** Gate lists, and the validation that precedes every aggregate run (scripts/run-gates.ts). */
module GateGraph {
  import opened Wrappers
  import opened Digraph

  /** A gate's identity and prerequisites; the command it spawns plays no part in scheduling. */
  datatype Gate = Gate(id: string, needs: seq<string>)

  /** What `validateGateGraph` throws. */
  datatype GraphError =
    | NoGates
    | DuplicateId(id: string)
    | UnknownNeed(gate: string, need: string)
    | DependencyCycle(path: seq<string>)

  function Ids(gates: seq<Gate>): set<string> {
    set g | g in gates :: g.id
  }

  /** The needs of every id; as in `new Map(entries)`, the last gate carrying an id wins. */
  function Needs(gates: seq<Gate>): (m: Graph)
    ensures m.Keys == Ids(gates)
  {
    if gates == [] then map[]
    else
      var last := gates[|gates| - 1];
      Needs(gates[..|gates| - 1])[last.id := last.needs]
  }

  predicate DistinctIds(gates: seq<Gate>) {
    forall i, j :: 0 <= i < j < |gates| ==> gates[i].id != gates[j].id
  }

  predicate KnownNeeds(gates: seq<Gate>) {
    forall g, d :: g in gates && d in g.needs ==> d in Ids(gates)
  }

  /** The lists an aggregate may be executed from. */
  ghost predicate WellFormed(gates: seq<Gate>) {
    gates != [] && DistinctIds(gates) && KnownNeeds(gates) && Acyclic(Needs(gates))
  }

  lemma {:induction false} NeedsOf(gates: seq<Gate>, i: nat)
    requires DistinctIds(gates) && i < |gates|
    ensures gates[i].id in Needs(gates) && Needs(gates)[gates[i].id] == gates[i].needs
  {
    if i < |gates| - 1 {
      NeedsOf(gates[..|gates| - 1], i);
    }
  }

  /** With distinct ids, "an edge of the graph" and "a need of the gate" are the same thing. */
  lemma EdgeIsNeed(gates: seq<Gate>, g: Gate, d: string)
    requires DistinctIds(gates) && g in gates
    ensures Edge(Needs(gates), g.id, d) <==> d in g.needs
  {
    var i :| 0 <= i < |gates| && gates[i] == g;
    NeedsOf(gates, i);
  }

  /** `path` is a repetition-free path of nodes, and `active` is its index. */
  predicate Indexes(graph: Graph, active: map<string, nat>, path: seq<string>) {
    && IsPath(graph, path)
    && (forall i :: 0 <= i < |path| ==> path[i] in active && active[path[i]] == i)
    && (forall id :: id in active ==> id in graph && active[id] < |path| && path[active[id]] == id)
  }

  /** `complete` is closed under needs and touched by no cycle. */
  ghost predicate CycleFree(graph: Graph, complete: set<string>) {
    && complete <= graph.Keys
    && ClosedUnder(graph, complete)
    && (forall c :: IsCycle(graph, c) ==> c[0] !in complete)
  }

  lemma PushActive(graph: Graph, active: map<string, nat>, path: seq<string>, id: string)
    requires Indexes(graph, active, path) && id in graph && id !in active
    requires path != [] ==> Edge(graph, path[|path| - 1], id)
    ensures Indexes(graph, active[id := |path|], path + [id])
  {}

  lemma ActiveCycle(graph: Graph, active: map<string, nat>, path: seq<string>, id: string)
    requires Indexes(graph, active, path) && id in active
    requires path != [] ==> Edge(graph, path[|path| - 1], id)
    ensures active[id] < |path| && IsCycle(graph, path[active[id]..] + [id])
  {}

  /** Depth-first cycle search; the fields are the three structures the recursive visit mutates. */
  class CycleSearch {
    const graph: Graph
    var complete: set<string>
    var active: map<string, nat>
    var path: seq<string>

    ghost predicate Valid()
      reads this
    {
      Indexes(graph, active, path) && CycleFree(graph, complete) && active.Keys !! complete
    }

    constructor (gates: seq<Gate>)
      ensures Valid() && graph == Needs(gates) && complete == {} && path == []
    {
      graph := Needs(gates);
      complete := {};
      active := map[];
      path := [];
    }

    method Visit(id: string) returns (cycle: Option<seq<string>>)
      requires Valid()
      requires path != [] ==> Edge(graph, path[|path| - 1], id)
      modifies this
      ensures cycle.Some? ==> IsCycle(graph, cycle.value)
      ensures cycle.None? ==> Valid() && path == old(path) && active == old(active)
      ensures cycle.None? ==> old(complete) <= complete && (id in graph ==> id in complete)
      decreases graph.Keys - active.Keys
    {
      hide Indexes, CycleFree;
      if id in complete { return None; }
      if id in active {
        ActiveCycle(graph, active, path, id);
        return Some(path[active[id]..] + [id]);
      }
      if id !in graph { return None; }

      var needs := graph[id];
      ghost var path0, active0 := path, active;
      PushActive(graph, active, path, id);
      active := active[id := |path|];
      path := path + [id];
      for i := 0 to |needs|
        invariant Valid() && path == path0 + [id] && active == active0[id := |path0|]
        invariant old(complete) <= complete
        invariant forall k :: 0 <= k < i && needs[k] in graph ==> needs[k] in complete
      {
        assert active.Keys == active0.Keys + {id} && id in graph.Keys - active0.Keys;
        cycle := Visit(needs[i]);
        if cycle.Some? { return; }
      }
      AddComplete(graph, complete, id);
      path := path[..|path| - 1];
      active := active - {id};
      assert path == path0 && active == active0;
      complete := complete + {id};
      return None;
    }
  }

  /** Completing an id whose known needs are complete keeps the complete set closed and cycle-free. */
  lemma AddComplete(graph: Graph, complete: set<string>, id: string)
    requires CycleFree(graph, complete) && id in graph && id !in complete
    requires forall d :: d in graph[id] && d in graph ==> d in complete
    ensures CycleFree(graph, complete + {id})
  {
    forall c | IsCycle(graph, c) ensures c[0] != id {
      if c[0] == id {
        assert Edge(graph, c[0], c[1]);
        CycleNodes(graph, c, 1);
        SubPath(graph, c, 1, |c|);
        CycleNodes(graph, c, |c| - 1);
        PathStaysIn(graph, complete, c[1..], |c| - 2);
        assert false;
      }
    }
  }

  /** A cycle is reported exactly when the needs relation has one, and the report is a real cycle. */
  method FindDependencyCycle(gates: seq<Gate>) returns (cycle: Option<seq<string>>)
    ensures cycle.Some? ==> IsCycle(Needs(gates), cycle.value)
    ensures cycle.None? <==> Acyclic(Needs(gates))
  {
    var search := new CycleSearch(gates);
    for i := 0 to |gates|
      invariant search.Valid() && search.path == [] && search.graph == Needs(gates)
      invariant forall k :: 0 <= k < i ==> gates[k].id in search.complete
    {
      cycle := search.Visit(gates[i].id);
      if cycle.Some? {
        return;
      }
    }
    forall c ensures !IsCycle(Needs(gates), c) {
      if IsCycle(Needs(gates), c) {
        CycleNodes(Needs(gates), c, 0);
        assert false;
      }
    }
    return None;
  }

  /** Accepts exactly the well-formed lists; each rejection names the first defect in checking order. */
  method ValidateGateGraph(gates: seq<Gate>) returns (r: Result<(), GraphError>)
    ensures r.Ok? <==> WellFormed(gates)
    ensures r == Err(NoGates) <==> gates == []
    ensures r.Err? && r.error.DuplicateId? ==>
      exists j :: 0 <= j < |gates| && gates[j].id == r.error.id
        && DistinctIds(gates[..j]) && r.error.id in Ids(gates[..j])
    ensures r.Err? && r.error.UnknownNeed? ==>
      exists i, k :: 0 <= i < |gates| && 0 <= k < |gates[i].needs| && DistinctIds(gates)
        && r.error == UnknownNeed(gates[i].id, gates[i].needs[k]) && gates[i].needs[k] !in Ids(gates)
        && (forall d :: d in gates[i].needs[..k] ==> d in Ids(gates))
        && (forall g, d :: g in gates[..i] && d in g.needs ==> d in Ids(gates))
    ensures r.Err? && r.error.DependencyCycle? ==>
      DistinctIds(gates) && KnownNeeds(gates) && IsCycle(Needs(gates), r.error.path)
  {
    if |gates| == 0 { return Err(NoGates); }

    var ids: set<string> := {};
    for i := 0 to |gates|
      invariant ids == Ids(gates[..i]) && DistinctIds(gates[..i])
    {
      assert gates[..i + 1] == gates[..i] + [gates[i]];
      if gates[i].id in ids { return Err(DuplicateId(gates[i].id)); }
      ids := ids + {gates[i].id};
    }
    assert gates[..|gates|] == gates;
    for i := 0 to |gates|
      invariant forall g, d :: g in gates[..i] && d in g.needs ==> d in ids
    {
      var needs := gates[i].needs;
      for k := 0 to |needs|
        invariant forall d :: d in needs[..k] ==> d in ids
      {
        if needs[k] !in ids { return Err(UnknownNeed(gates[i].id, needs[k])); }
      }
      assert gates[..i + 1] == gates[..i] + [gates[i]];
    }
    assert KnownNeeds(gates);

    var cycle := FindDependencyCycle(gates);
    if cycle.Some? { return Err(DependencyCycle(cycle.value)); }
    return Ok(());
  }
}
