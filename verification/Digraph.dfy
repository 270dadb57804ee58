/** Finite directed graphs given by successor lists; a successor need not be a node. */
module Digraph {

  type Graph = map<string, seq<string>>

  predicate Edge(g: Graph, a: string, b: string) {
    a in g && b in g[a]
  }

  /** Every consecutive pair of `p` is an edge. */
  predicate IsPath(g: Graph, p: seq<string>) {
    forall i :: 0 <= i < |p| - 1 ==> Edge(g, p[i], p[i + 1])
  }

  /** A path of at least one edge that ends where it started. */
  predicate IsCycle(g: Graph, c: seq<string>) {
    |c| >= 2 && IsPath(g, c) && c[0] == c[|c| - 1]
  }

  ghost predicate Acyclic(g: Graph) {
    forall c :: !IsCycle(g, c)
  }

  /** Every successor that is itself a node belongs to `s` again. */
  predicate ClosedUnder(g: Graph, s: set<string>) {
    forall a, b :: a in s && Edge(g, a, b) && b in g ==> b in s
  }

  ghost predicate HasNext(g: Graph, s: set<string>, a: string) {
    exists b :: b in s && Edge(g, a, b)
  }

  /** Every member of `s` has a successor in `s`. */
  ghost predicate Trapped(g: Graph, s: set<string>) {
    forall a {:trigger HasNext(g, s, a)} :: a in s ==> HasNext(g, s, a)
  }

  /** A path that starts in a closed set never leaves it, except for a last step to a non-node. */
  lemma {:induction false} PathStaysIn(g: Graph, s: set<string>, p: seq<string>, i: nat)
    requires ClosedUnder(g, s) && IsPath(g, p) && i < |p| && p[0] in s
    requires p[i] in g
    ensures p[i] in s
    decreases i
  {
    if i > 0 {
      assert Edge(g, p[i - 1], p[i]);
      PathStaysIn(g, s, p, i - 1);
    }
  }

  lemma CycleNodes(g: Graph, c: seq<string>, i: nat)
    requires IsCycle(g, c) && i < |c|
    ensures c[i] in g
  {
    if i < |c| - 1 {
      assert Edge(g, c[i], c[i + 1]);
    } else {
      assert Edge(g, c[0], c[1]);
    }
  }

  /** Walking inside a trapped set never has to stop. */
  lemma {:induction false} WalkWithin(g: Graph, s: set<string>, start: string, steps: nat) returns (p: seq<string>)
    requires Trapped(g, s) && start in s
    ensures |p| == steps + 1 && p[0] == start && IsPath(g, p)
    ensures forall i :: 0 <= i < |p| ==> p[i] in s
    decreases steps
  {
    if steps == 0 {
      p := [start];
    } else {
      assert HasNext(g, s, start);
      var next :| next in s && Edge(g, start, next);
      var rest := WalkWithin(g, s, next, steps - 1);
      p := [start] + rest;
      forall i | 0 <= i < |p| - 1 ensures Edge(g, p[i], p[i + 1]) {
        if i > 0 { assert Edge(g, rest[i - 1], rest[i]); }
      }
    }
  }

  /** More positions than values force a repetition. */
  lemma {:induction false} Pigeonhole(p: seq<string>, s: set<string>) returns (i: nat, j: nat)
    requires |p| > |s| && forall k :: 0 <= k < |p| ==> p[k] in s
    ensures i < j < |p| && p[i] == p[j]
    decreases |s|
  {
    var last := p[|p| - 1];
    if k: nat :| k < |p| - 1 && p[k] == last {
      i, j := k, |p| - 1;
    } else {
      i, j := Pigeonhole(p[..|p| - 1], s - {last});
    }
  }

  lemma SubPath(g: Graph, p: seq<string>, i: nat, j: nat)
    requires IsPath(g, p) && i <= j <= |p|
    ensures IsPath(g, p[i..j])
  {}

  /** The well-foundedness fact behind every progress and uniqueness result on acyclic graphs. */
  lemma TrappedHasCycle(g: Graph, s: set<string>) returns (c: seq<string>)
    requires s != {} && Trapped(g, s)
    ensures IsCycle(g, c) && forall i :: 0 <= i < |c| ==> c[i] in s
  {
    var start :| start in s;
    var p := WalkWithin(g, s, start, |s|);
    var i, j := Pigeonhole(p, s);
    SubPath(g, p, i, j + 1);
    c := p[i..j + 1];
  }

  /** On an acyclic graph every nonempty set has a member none of whose successors are in the set. */
  lemma AcyclicHasSink(g: Graph, s: set<string>) returns (a: string)
    requires Acyclic(g) && s != {}
    ensures a in s && forall b :: b in s ==> !Edge(g, a, b)
  {
    if Trapped(g, s) {
      var c := TrappedHasCycle(g, s);
      assert false;
    }
    a :| a in s && !HasNext(g, s, a);
  }
}
