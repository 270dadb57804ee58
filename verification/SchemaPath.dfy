/** Schema key paths such as `agents[].id` (scripts/gen-config-catalog.ts, parsePath). */
module SchemaPath {
  import opened Text
  import opened TypeLookup

  /** A dotted segment: a member name and its array hops. */
  datatype Segment = Segment(name: string, arrays: nat)

  /** What a segment can be: no dot in the name, and every trailing `[]` counted as a hop. */
  predicate Canonical(g: Segment) {
    '.' !in g.name && !EndsWith(g.name, "[]")
  }

  function Hops(n: nat): string {
    if n == 0 then "" else Hops(n - 1) + "[]"
  }

  function RenderSegment(g: Segment): string {
    g.name + Hops(g.arrays)
  }

  function RenderAll(gs: seq<Segment>): seq<string> {
    if gs == [] then [] else [RenderSegment(gs[0])] + RenderAll(gs[1..])
  }

  function RenderPath(gs: seq<Segment>): string {
    Join(RenderAll(gs), ".")
  }

  function Elements(n: nat): seq<Step> {
    if n == 0 then [] else Elements(n - 1) + [Element]
  }

  function StepsOf(gs: seq<Segment>): seq<Step> {
    if gs == [] then [] else [Member(gs[0].name)] + Elements(gs[0].arrays) + StepsOf(gs[1..])
  }

  function Peel(seg: string): Segment {
    if EndsWith(seg, "[]") then
      var inner := Peel(seg[..|seg| - 2]);
      Segment(inner.name, inner.arrays + 1)
    else Segment(seg, 0)
  }

  function PeelAll(segs: seq<string>): seq<Segment> {
    if segs == [] then [] else [Peel(segs[0])] + PeelAll(segs[1..])
  }

  function Segments(path: string): seq<Segment> {
    PeelAll(Split(path, '.'))
  }

  /** Peeling and rendering a segment are inverse. */
  lemma {:induction false} PeelRenders(seg: string)
    requires '.' !in seg
    ensures RenderSegment(Peel(seg)) == seg && Canonical(Peel(seg))
  {
    if EndsWith(seg, "[]") {
      PeelRenders(seg[..|seg| - 2]);
      assert seg == seg[..|seg| - 2] + "[]";
    }
  }

  lemma PeelHop(seg: string)
    requires '.' !in seg
    ensures '.' !in seg + "[]" && Peel(seg + "[]") == Segment(Peel(seg).name, Peel(seg).arrays + 1)
  {
    assert (seg + "[]")[..|seg|] == seg && (seg + "[]")[|seg|..] == "[]";
  }

  lemma {:induction false} RenderPeels(g: Segment)
    requires Canonical(g)
    ensures Peel(RenderSegment(g)) == g && '.' !in RenderSegment(g)
    decreases g.arrays
  {
    if g.arrays > 0 {
      hide Peel;
      var shorter := Segment(g.name, g.arrays - 1);
      RenderPeels(shorter);
      PeelHop(RenderSegment(shorter));
      assert RenderSegment(g) == RenderSegment(shorter) + "[]";
    } else {
      assert RenderSegment(g) == g.name;
    }
  }

  lemma {:induction false} AllPeelRender(segs: seq<string>)
    requires forall s :: s in segs ==> '.' !in s
    ensures RenderAll(PeelAll(segs)) == segs && |PeelAll(segs)| == |segs|
    ensures forall g :: g in PeelAll(segs) ==> Canonical(g)
  {
    hide Canonical, Peel, RenderSegment;
    if segs != [] {
      assert segs[0] in segs;
      PeelRenders(segs[0]);
      AllPeelRender(segs[1..]);
      assert PeelAll(segs)[1..] == PeelAll(segs[1..]);
    }
  }

  lemma {:induction false} AllRenderPeel(gs: seq<Segment>)
    requires forall g :: g in gs ==> Canonical(g)
    ensures PeelAll(RenderAll(gs)) == gs && |RenderAll(gs)| == |gs|
    ensures forall s :: s in RenderAll(gs) ==> '.' !in s
  {
    if gs != [] {
      RenderPeels(gs[0]);
      AllRenderPeel(gs[1..]);
      assert RenderAll(gs)[1..] == RenderAll(gs[1..]);
    }
  }

  /** Every path is the rendering of its segments, and they are canonical. */
  lemma ParsedPathRenders(path: string)
    ensures RenderPath(Segments(path)) == path
    ensures Segments(path) != [] && forall g :: g in Segments(path) ==> Canonical(g)
  {
    AllPeelRender(Split(path, '.'));
    JoinSplit(path, '.');
  }

  /** Every nonempty list of canonical segments is what its rendering parses to. */
  lemma RenderedPathParses(gs: seq<Segment>)
    requires gs != [] && forall g :: g in gs ==> Canonical(g)
    ensures Segments(RenderPath(gs)) == gs
  {
    AllRenderPeel(gs);
    SplitJoin(RenderAll(gs), '.');
  }

  lemma {:induction false} StepsAppend(gs: seq<Segment>, g: Segment)
    ensures StepsOf(gs + [g]) == StepsOf(gs) + [Member(g.name)] + Elements(g.arrays)
  {
    hide Elements;
    if gs == [] {
      assert gs + [g] == [g] && [g][1..] == [];
    } else {
      var rest := StepsOf(gs[1..]);
      StepsAppend(gs[1..], g);
      assert StepsOf(gs + [g]) == [Member(gs[0].name)] + Elements(gs[0].arrays) + StepsOf(gs[1..] + [g]) by {
        assert (gs + [g])[1..] == gs[1..] + [g];
      }
      assert StepsOf(gs) == [Member(gs[0].name)] + Elements(gs[0].arrays) + rest;
      hide StepsOf;
    }
  }

  lemma {:induction false} PeelAllAppend(segs: seq<string>, seg: string)
    ensures PeelAll(segs + [seg]) == PeelAll(segs) + [Peel(seg)]
  {
    if segs == [] {
      assert segs + [seg] == [seg];
    } else {
      PeelAllAppend(segs[1..], seg);
      assert (segs + [seg])[1..] == segs[1..] + [seg];
    }
  }

  method ParsePath(path: string) returns (steps: seq<Step>)
    ensures steps == StepsOf(Segments(path))
  {
    steps := [];
    var segs := Split(path, '.');
    for k := 0 to |segs|
      invariant steps == StepsOf(PeelAll(segs[..k]))
    {
      var name, arrays := segs[k], 0;
      while EndsWith(name, "[]")
        invariant arrays >= 0
        invariant Peel(segs[k]) == Segment(Peel(name).name, Peel(name).arrays + arrays)
        decreases |name|
      {
        name := name[..|name| - 2];
        arrays := arrays + 1;
      }
      assert segs[..k + 1] == segs[..k] + [segs[k]];
      PeelAllAppend(segs[..k], segs[k]);
      StepsAppend(PeelAll(segs[..k]), Peel(segs[k]));
      var before := steps;
      steps := steps + [Member(name)];
      for i := 0 to arrays
        invariant steps == before + [Member(name)] + Elements(i)
      {
        steps := steps + [Element];
      }
    }
    assert segs[..|segs|] == segs;
  }
}
