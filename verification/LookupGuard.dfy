/**
 * What the shared guard of lookupPath costs (scripts/gen-config-catalog.ts): the guardless walk, and when both agree.
 */
module LookupGuard {
  import opened Wrappers
  import opened TypeLookup

  /** Where the walk stands: at a type in some file, or at a named declaration. */
  datatype Place = TypeAt(file: string, node: TypeNode) | DeclAt(id: DeclId)

  predicate Known(w: World, p: Place) {
    p.DeclAt? ==> p.id in w.decls
  }

  predicate AllKnown(w: World, parts: seq<Option<Place>>) {
    forall i :: 0 <= i < |parts| && parts[i].Some? ==> Known(w, parts[i].value)
  }

  // ---- One step of the walk ----

  /** A verdict, one place to go on to, or branches whose verdicts are combined; a branch out of reach is `None`. */
  datatype Shape =
    | Settled(verdict: Verdict)
    | Into(next: Place, steps: seq<Step>)
    | AnyOf(parts: seq<Option<Place>>)
    | EachOf(parts: seq<Option<Place>>)

  function TypePlaces(file: string, nodes: seq<TypeNode>): (r: seq<Option<Place>>)
    ensures |r| == |nodes| && forall i :: 0 <= i < |nodes| ==> r[i] == Some(TypeAt(file, nodes[i]))
  {
    seq(|nodes|, i requires 0 <= i < |nodes| => Some(TypeAt(file, nodes[i])))
  }

  function BasePlace(w: World, file: string, b: Option<string>): (r: Option<Place>)
    ensures r.Some? ==> Known(w, r.value)
  {
    if b.Some? && Resolve(w, file, b.value).Some? then Some(DeclAt(Resolve(w, file, b.value).value)) else None
  }

  function BasePlaces(w: World, file: string, bases: seq<Option<string>>): (r: seq<Option<Place>>)
    ensures |r| == |bases| && forall i :: 0 <= i < |bases| ==> r[i] == BasePlace(w, file, bases[i])
  {
    seq(|bases|, i requires 0 <= i < |bases| => BasePlace(w, file, bases[i]))
  }

  function UnfoldProperty(file: string, m: Property, steps: seq<Step>): (s: Shape)
    requires steps != []
    ensures s.Into? ==> s.next.TypeAt?
    ensures !s.AnyOf? && !s.EachOf?
  {
    if |steps| == 1 then Settled(Found)
    else if m.annotation.Some? then Into(TypeAt(file, m.annotation.value), steps[1..])
    else Settled(Unknown)
  }

  function UnfoldDecl(w: World, file: string, d: Decl, steps: seq<Step>): (s: Shape)
    requires steps != []
    ensures s.Into? ==> s.next.TypeAt?
    ensures s.AnyOf? || s.EachOf? ==> AllKnown(w, s.parts)
  {
    match d
    case Interface(members, bases) =>
      if steps[0].Element? then Settled(Unknown)
      else
        var own := FindProperty(members, steps[0].name);
        if own.Some? then UnfoldProperty(file, own.value, steps) else AnyOf(BasePlaces(w, file, bases))
    case Alias(target) => Into(TypeAt(file, target), steps)
    case Enum => Settled(Unknown)
  }

  function UnfoldType(w: World, file: string, node: TypeNode, steps: seq<Step>): (s: Shape)
    requires steps != []
    ensures s.Into? ==> Known(w, s.next)
    ensures s.AnyOf? || s.EachOf? ==> AllKnown(w, s.parts) && s.parts != []
  {
    match node
    case Literal(members) =>
      if steps[0].Element? then Settled(Unknown)
      else
        var own := FindProperty(members, steps[0].name);
        if own.Some? then UnfoldProperty(file, own.value, steps) else Settled(Missing)
    case Paren(inner) => Into(TypeAt(file, inner), steps)
    case Readonly(inner) => Into(TypeAt(file, inner), steps)
    case Intersection(first, rest) => AnyOf(TypePlaces(file, [first] + rest))
    case Union(first, rest) => EachOf(TypePlaces(file, [first] + rest))
    case ArrayOf(element) => if steps[0].Element? then Into(TypeAt(file, element), steps[1..]) else Settled(Unknown)
    case Indexed(owner, index) =>
      if index.Some? then Into(TypeAt(file, owner), [Member(index.value)] + steps) else Settled(Unknown)
    case Ref(name, qualified, args) =>
      if name in PASSTHROUGH_WRAPPERS && args != [] then Into(TypeAt(file, args[0]), steps)
      else if name in ARRAY_NAMES && args != [] then
        if steps[0].Element? then Into(TypeAt(file, args[0]), steps[1..]) else Settled(Unknown)
      else if qualified || Resolve(w, file, name).None? then Settled(Unknown)
      else Into(DeclAt(Resolve(w, file, name).value), steps)
    case Other => Settled(Unknown)
  }

  function Unfold(w: World, p: Place, steps: seq<Step>): (s: Shape)
    requires Known(w, p) && steps != []
    ensures s.Into? ==> Known(w, s.next)
    ensures s.AnyOf? || s.EachOf? ==> AllKnown(w, s.parts)
    ensures s.EachOf? ==> s.parts != []
  {
    match p
    case TypeAt(file, node) => UnfoldType(w, file, node, steps)
    case DeclAt(id) => UnfoldDecl(w, id.file, w.decls[id], steps)
  }

  /** The guard applies to declarations, enums excepted. */
  predicate Guarded(w: World, p: Place)
    requires Known(w, p)
  {
    p.DeclAt? && !w.decls[p.id].Enum?
  }

  // ---- The guarded walk and the judgements, step by step ----

  function LookupAt(w: World, frames: nat, p: Place, steps: seq<Step>, seen: set<Query>): Outcome
    requires Known(w, p)
  {
    match p
    case TypeAt(file, node) => LookupNode(w, frames, file, node, steps, seen)
    case DeclAt(id) => LookupDecl(w, frames, id, steps, seen)
  }

  /** Branches in order, with the guard set each leaves to the next. */
  function LookupParts(w: World, frames: nat, parts: seq<Option<Place>>, steps: seq<Step>, seen: set<Query>): Outcomes
    requires AllKnown(w, parts)
  {
    if parts == [] then Answers([], seen)
    else
      var head := if parts[0].Some? then LookupAt(w, frames, parts[0].value, steps, seen) else Answer(Unknown, seen);
      if head.Overflow? then Overflows
      else
        var tail := LookupParts(w, frames, parts[1..], steps, head.seen);
        if tail.Overflows? then Overflows else Answers([head.verdict] + tail.verdicts, tail.seen)
  }

  function LookupShape(w: World, frames: nat, s: Shape, steps: seq<Step>, seen: set<Query>): Outcome
    requires s.Into? ==> Known(w, s.next)
    requires s.AnyOf? || s.EachOf? ==> AllKnown(w, s.parts)
  {
    match s
    case Settled(v) => Answer(v, seen)
    case Into(next, rest) => LookupAt(w, frames, next, rest, seen)
    case AnyOf(parts) =>
      var r := LookupParts(w, frames, parts, steps, seen);
      if r.Overflows? then Overflow else Answer(Combine(r.verdicts), r.seen)
    case EachOf(parts) =>
      var r := LookupParts(w, frames, parts, steps, seen);
      if r.Overflows? then Overflow else Answer(Agree(r.verdicts), r.seen)
  }

  lemma {:induction false} AllAreParts(w: World, frames: nat, file: string, nodes: seq<TypeNode>, steps: seq<Step>,
                                       seen: set<Query>)
    ensures LookupAll(w, frames, file, nodes, steps, seen) ==
      LookupParts(w, frames, TypePlaces(file, nodes), steps, seen)
  {
    if nodes != [] {
      assert TypePlaces(file, nodes)[1..] == TypePlaces(file, nodes[1..]);
      var head := LookupNode(w, frames, file, nodes[0], steps, seen);
      if head.Answer? { AllAreParts(w, frames, file, nodes[1..], steps, head.seen); }
    }
  }

  lemma {:induction false} BasesAreParts(w: World, frames: nat, file: string, bases: seq<Option<string>>,
                                         steps: seq<Step>, seen: set<Query>)
    ensures LookupBases(w, frames, file, bases, steps, seen) ==
      LookupParts(w, frames, BasePlaces(w, file, bases), steps, seen)
  {
    if bases != [] {
      assert BasePlaces(w, file, bases)[1..] == BasePlaces(w, file, bases[1..]);
      var target := BasePlace(w, file, bases[0]);
      var head := if target.Some? then LookupAt(w, frames, target.value, steps, seen) else Answer(Unknown, seen);
      if head.Answer? { BasesAreParts(w, frames, file, bases[1..], steps, head.seen); }
    }
  }

  /** One step of the guarded walk. */
  lemma LookupUnfolds(w: World, frames: nat, p: Place, steps: seq<Step>, seen: set<Query>)
    requires Known(w, p) && frames > 0 && steps != []
    ensures LookupAt(w, frames, p, steps, seen) ==
      if !Guarded(w, p) then LookupShape(w, frames - 1, Unfold(w, p, steps), steps, seen)
      else if GuardHit(seen, p.id, |steps|) then Answer(Unknown, seen)
      else LookupShape(w, frames - 1, Unfold(w, p, steps), steps, seen + {Query(p.id, steps)})
  {
    match p {
      case TypeAt(file, node) => TypeUnfolds(w, frames, file, node, steps, seen);
      case DeclAt(id) => DeclUnfolds(w, frames, id, steps, seen);
    }
  }

  lemma TypeUnfolds(w: World, frames: nat, file: string, node: TypeNode, steps: seq<Step>, seen: set<Query>)
    requires frames > 0 && steps != []
    ensures LookupNode(w, frames, file, node, steps, seen) ==
            LookupShape(w, frames - 1, UnfoldType(w, file, node, steps), steps, seen)
  {
    if node.Intersection? || node.Union? {
      BranchesUnfold(w, frames, file, node, steps, seen);
    } else {
      hide LookupDecl, Resolve, LookupAll, LookupParts;
    }
  }

  lemma BranchesUnfold(w: World, frames: nat, file: string, node: TypeNode, steps: seq<Step>, seen: set<Query>)
    requires frames > 0 && steps != [] && (node.Intersection? || node.Union?)
    ensures LookupNode(w, frames, file, node, steps, seen) ==
            LookupShape(w, frames - 1, UnfoldType(w, file, node, steps), steps, seen)
  {
    AllAreParts(w, frames - 1, file, [node.first] + node.rest, steps, seen);
    hide LookupAll, LookupParts, LookupDecl, TypePlaces, Combine, Agree;
  }

  lemma DeclUnfolds(w: World, frames: nat, id: DeclId, steps: seq<Step>, seen: set<Query>)
    requires id in w.decls && frames > 0 && steps != []
    ensures LookupDecl(w, frames, id, steps, seen) ==
      if w.decls[id].Enum? || GuardHit(seen, id, |steps|) then Answer(Unknown, seen)
      else LookupShape(w, frames - 1, UnfoldDecl(w, id.file, w.decls[id], steps), steps, seen + {Query(id, steps)})
  {
    hide GuardHit, LookupNode, Resolve;
    var seen' := seen + {Query(id, steps)};
    match w.decls[id] {
      case Interface(members, bases) =>
        if steps[0].Member? && FindProperty(members, steps[0].name).None? {
          var r := LookupBases(w, frames - 1, id.file, bases, steps, seen');
          BasesAreParts(w, frames - 1, id.file, bases, steps, seen');
          if bases == [] {
            assert r == Answers([], seen');
            assert Combine([]) == Missing;
          }
        }
      case Alias(target) =>
      case Enum =>
    }
  }

  predicate PresentAt(w: World, n: nat, p: Place, steps: seq<Step>)
    requires Known(w, p)
  {
    match p
    case TypeAt(file, node) => Present(w, n, file, node, steps)
    case DeclAt(id) => PresentDecl(w, n, id, steps)
  }

  predicate AbsentAt(w: World, n: nat, p: Place, steps: seq<Step>)
    requires Known(w, p)
  {
    match p
    case TypeAt(file, node) => Absent(w, n, file, node, steps)
    case DeclAt(id) => AbsentDecl(w, n, id, steps)
  }

  predicate PresentPart(w: World, n: nat, part: Option<Place>, steps: seq<Step>)
    requires part.Some? ==> Known(w, part.value)
  {
    part.Some? && PresentAt(w, n, part.value, steps)
  }

  predicate AbsentPart(w: World, n: nat, part: Option<Place>, steps: seq<Step>)
    requires part.Some? ==> Known(w, part.value)
  {
    part.Some? && AbsentAt(w, n, part.value, steps)
  }

  predicate PresentShape(w: World, n: nat, s: Shape, steps: seq<Step>)
    requires s.Into? ==> Known(w, s.next)
    requires s.AnyOf? || s.EachOf? ==> AllKnown(w, s.parts)
  {
    match s
    case Settled(v) => v == Found
    case Into(next, rest) => PresentAt(w, n, next, rest)
    case AnyOf(parts) => exists i :: 0 <= i < |parts| && PresentPart(w, n, parts[i], steps)
    case EachOf(parts) => forall i :: 0 <= i < |parts| ==> PresentPart(w, n, parts[i], steps)
  }

  predicate AbsentShape(w: World, n: nat, s: Shape, steps: seq<Step>)
    requires s.Into? ==> Known(w, s.next)
    requires s.AnyOf? || s.EachOf? ==> AllKnown(w, s.parts)
  {
    match s
    case Settled(v) => v == Missing
    case Into(next, rest) => AbsentAt(w, n, next, rest)
    case AnyOf(parts) => forall i :: 0 <= i < |parts| ==> AbsentPart(w, n, parts[i], steps)
    case EachOf(parts) => forall i :: 0 <= i < |parts| ==> AbsentPart(w, n, parts[i], steps)
  }

  /** One step of the two judgements. */
  lemma JudgementsUnfold(w: World, n: nat, p: Place, steps: seq<Step>)
    requires Known(w, p) && n > 0 && steps != []
    ensures PresentAt(w, n, p, steps) <==> PresentShape(w, n - 1, Unfold(w, p, steps), steps)
    ensures AbsentAt(w, n, p, steps) <==> AbsentShape(w, n - 1, Unfold(w, p, steps), steps)
  {
    match p {
      case TypeAt(file, node) => TypeJudged(w, n, file, node, steps);
      case DeclAt(id) => DeclJudged(w, n, id, steps);
    }
  }

  /** A place and the shape it unfolds to are judged alike. */
  predicate JudgedAlike(w: World, n: nat, s: Shape, steps: seq<Step>, present: bool, absent: bool)
    requires (s.Into? ==> Known(w, s.next)) && (s.AnyOf? || s.EachOf? ==> AllKnown(w, s.parts))
  {
    (present <==> PresentShape(w, n, s, steps)) && (absent <==> AbsentShape(w, n, s, steps))
  }

  lemma TypeJudged(w: World, n: nat, file: string, node: TypeNode, steps: seq<Step>)
    requires n > 0 && steps != []
    ensures JudgedAlike(w, n - 1, UnfoldType(w, file, node, steps), steps,
                        Present(w, n, file, node, steps), Absent(w, n, file, node, steps))
  {
    if node.Intersection? || node.Union? {
      BranchesJudged(w, n, file, node, steps);
    } else if node.Literal? {
      hide PresentDecl, AbsentDecl, Resolve;
    } else {
      hide PresentDecl, AbsentDecl, Resolve;
    }
  }

  lemma BranchesJudged(w: World, n: nat, file: string, node: TypeNode, steps: seq<Step>)
    requires n > 0 && steps != [] && (node.Intersection? || node.Union?)
    ensures JudgedAlike(w, n - 1, UnfoldType(w, file, node, steps), steps,
                        Present(w, n, file, node, steps), Absent(w, n, file, node, steps))
  {
    TypePartsJudged(w, n - 1, file, [node.first] + node.rest, steps);
    hide PresentShape, AbsentShape, TypePlaces;
  }

  lemma DeclJudged(w: World, n: nat, id: DeclId, steps: seq<Step>)
    requires id in w.decls && n > 0 && steps != []
    ensures
      var s := UnfoldDecl(w, id.file, w.decls[id], steps);
      (PresentDecl(w, n, id, steps) <==> PresentShape(w, n - 1, s, steps))
        && (AbsentDecl(w, n, id, steps) <==> AbsentShape(w, n - 1, s, steps))
  {
    match w.decls[id] {
      case Interface(members, bases) =>
        if steps[0].Member? && FindProperty(members, steps[0].name).None? {
          BasePartsJudged(w, n - 1, id.file, bases, steps);
          HeritageJudged(w, n, id, steps);
          hide PresentDecl, AbsentDecl, PresentShape, AbsentShape;
          assert UnfoldDecl(w, id.file, w.decls[id], steps) == AnyOf(BasePlaces(w, id.file, bases));
        } else {
          hide Present, Absent;
        }
      case Alias(target) =>
      case Enum =>
    }
  }

  lemma HeritageJudged(w: World, n: nat, id: DeclId, steps: seq<Step>)
    requires id in w.decls && w.decls[id].Interface? && n > 0 && steps != []
    requires steps[0].Member? && FindProperty(w.decls[id].members, steps[0].name).None?
    ensures PresentDecl(w, n, id, steps) <==>
      exists b :: b in w.decls[id].bases && BasePresent(w, n - 1, id.file, b, steps)
    ensures AbsentDecl(w, n, id, steps) <==>
      forall b :: b in w.decls[id].bases ==> BaseAbsent(w, n - 1, id.file, b, steps)
  {
    var bases := w.decls[id].bases;
    if PresentDecl(w, n, id, steps) {
      var b :| b in bases && b.Some? && Resolve(w, id.file, b.value).Some?
        && PresentDecl(w, n - 1, Resolve(w, id.file, b.value).value, steps);
      assert BasePresent(w, n - 1, id.file, b, steps);
    }
    if b :| b in bases && BasePresent(w, n - 1, id.file, b, steps) {
      assert PresentDecl(w, n, id, steps);
    }
    if AbsentDecl(w, n, id, steps) {
      forall b | b in bases ensures BaseAbsent(w, n - 1, id.file, b, steps) {}
    }
    if forall b :: b in bases ==> BaseAbsent(w, n - 1, id.file, b, steps) {
      forall b | b in bases
        ensures b.Some? && Resolve(w, id.file, b.value).Some?
          && AbsentDecl(w, n - 1, Resolve(w, id.file, b.value).value, steps)
      {
        assert BaseAbsent(w, n - 1, id.file, b, steps);
      }
    }
  }

  lemma TypePartsJudged(w: World, n: nat, file: string, nodes: seq<TypeNode>, steps: seq<Step>)
    ensures (exists t :: t in nodes && Present(w, n, file, t, steps)) <==>
      PresentShape(w, n, AnyOf(TypePlaces(file, nodes)), steps)
    ensures (forall t :: t in nodes ==> Present(w, n, file, t, steps)) <==>
      PresentShape(w, n, EachOf(TypePlaces(file, nodes)), steps)
    ensures (forall t :: t in nodes ==> Absent(w, n, file, t, steps)) <==>
      AbsentShape(w, n, AnyOf(TypePlaces(file, nodes)), steps)
    ensures (forall t :: t in nodes ==> Absent(w, n, file, t, steps)) <==>
      AbsentShape(w, n, EachOf(TypePlaces(file, nodes)), steps)
  {
    hide Present, Absent;
    var parts := TypePlaces(file, nodes);
    forall i | 0 <= i < |nodes|
      ensures PresentPart(w, n, parts[i], steps) <==> Present(w, n, file, nodes[i], steps)
      ensures AbsentPart(w, n, parts[i], steps) <==> Absent(w, n, file, nodes[i], steps)
      ensures nodes[i] in nodes
    {}
    forall t | t in nodes ensures exists i :: 0 <= i < |nodes| && nodes[i] == t {}
  }

  lemma BasePartsJudged(w: World, n: nat, file: string, bases: seq<Option<string>>, steps: seq<Step>)
    ensures (exists b :: b in bases && BasePresent(w, n, file, b, steps)) <==>
      PresentShape(w, n, AnyOf(BasePlaces(w, file, bases)), steps)
    ensures (forall b :: b in bases ==> BaseAbsent(w, n, file, b, steps)) <==>
      AbsentShape(w, n, AnyOf(BasePlaces(w, file, bases)), steps)
  {
    hide PresentDecl, AbsentDecl;
    var parts := BasePlaces(w, file, bases);
    forall i | 0 <= i < |bases|
      ensures PresentPart(w, n, parts[i], steps) <==> BasePresent(w, n, file, bases[i], steps)
      ensures AbsentPart(w, n, parts[i], steps) <==> BaseAbsent(w, n, file, bases[i], steps)
      ensures bases[i] in bases
    {}
    forall b | b in bases ensures exists i :: 0 <= i < |bases| && bases[i] == b {}
  }

  // ---- The guardless walk ----

  /** A verdict and the declarations looked up on the way, each with the steps left; or an exhausted call stack. */
  datatype Walk = Deep | Walk(verdict: Verdict, keys: seq<Query>)

  datatype Walks = Deeps | Walks(verdicts: seq<Verdict>, keys: seq<Query>)

  function Own(w: World, p: Place, steps: seq<Step>): seq<Query>
    requires Known(w, p)
  {
    if Guarded(w, p) then [Query(p.id, steps)] else []
  }

  function Plain(w: World, frames: nat, p: Place, steps: seq<Step>): Walk
    requires Known(w, p)
    decreases frames, 0, 0
  {
    if frames == 0 then Deep
    else if steps == [] then Walk(Found, [])
    else Behind(Own(w, p, steps), WalkShape(w, frames - 1, Unfold(w, p, steps), steps))
  }

  function Behind(own: seq<Query>, e: Walk): Walk {
    if e.Deep? then Deep else Walk(e.verdict, own + e.keys)
  }

  function WalkShape(w: World, frames: nat, s: Shape, steps: seq<Step>): Walk
    requires s.Into? ==> Known(w, s.next)
    requires s.AnyOf? || s.EachOf? ==> AllKnown(w, s.parts)
    decreases frames, 2, 0
  {
    match s
    case Settled(v) => Walk(v, [])
    case Into(next, rest) => Plain(w, frames, next, rest)
    case AnyOf(parts) =>
      var r := PlainParts(w, frames, parts, steps);
      if r.Deeps? then Deep else Walk(Combine(r.verdicts), r.keys)
    case EachOf(parts) =>
      var r := PlainParts(w, frames, parts, steps);
      if r.Deeps? then Deep else Walk(Agree(r.verdicts), r.keys)
  }

  function PlainParts(w: World, frames: nat, parts: seq<Option<Place>>, steps: seq<Step>): (r: Walks)
    requires AllKnown(w, parts)
    ensures r.Walks? ==> |r.verdicts| == |parts|
    decreases frames, 1, |parts|
  {
    if parts == [] then Walks([], [])
    else
      var head := if parts[0].Some? then Plain(w, frames, parts[0].value, steps) else Walk(Unknown, []);
      if head.Deep? then Deeps
      else
        var tail := PlainParts(w, frames, parts[1..], steps);
        if tail.Deeps? then Deeps else Walks([head.verdict] + tail.verdicts, head.keys + tail.keys)
  }

  // ---- Keys ----

  /** The guard lets every one of the keys through, one after the other. */
  predicate Fresh(keys: seq<Query>, seen: set<Query>) {
    keys == [] || (!GuardHit(seen, keys[0].decl, |keys[0].steps|) && Fresh(keys[1..], seen + {keys[0]}))
  }

  function After(seen: set<Query>, keys: seq<Query>): set<Query>
    decreases keys
  {
    if keys == [] then seen else After(seen + {keys[0]}, keys[1..])
  }

  lemma {:induction false} KeysConcat(a: seq<Query>, b: seq<Query>, seen: set<Query>)
    ensures Fresh(a + b, seen) <==> Fresh(a, seen) && Fresh(b, After(seen, a))
    ensures After(seen, a + b) == After(After(seen, a), b)
  {
    if a == [] {
      assert a + b == b;
    } else {
      KeysConcat(a[1..], b, seen + {a[0]});
      assert (a + b)[1..] == a[1..] + b && (a + b)[0] == a[0];
    }
  }

  /** No declaration is looked up twice with the same number of steps left. */
  predicate NoRepeats(keys: seq<Query>) {
    forall i, j :: 0 <= i < j < |keys| ==> !(keys[i].decl == keys[j].decl && |keys[i].steps| == |keys[j].steps|)
  }

  predicate Apart(keys: seq<Query>, seen: set<Query>) {
    forall i :: 0 <= i < |keys| ==> !GuardHit(seen, keys[i].decl, |keys[i].steps|)
  }

  /** The guard lets the keys through exactly when none repeats and none is in the set beforehand. */
  lemma {:induction false} FreshIsNoRepeat(keys: seq<Query>, seen: set<Query>)
    ensures Fresh(keys, seen) <==> NoRepeats(keys) && Apart(keys, seen)
  {
    if keys != [] {
      var k, rest := keys[0], keys[1..];
      FreshIsNoRepeat(rest, seen + {k});
      forall i | 0 <= i < |rest|
        ensures GuardHit(seen + {k}, rest[i].decl, |rest[i].steps|) <==>
                GuardHit(seen, rest[i].decl, |rest[i].steps|)
                  || (k.decl == rest[i].decl && |k.steps| == |rest[i].steps|)
      {
        HitAdded(seen, k, rest[i].decl, |rest[i].steps|);
      }
      hide GuardHit;
      RepeatsCons(k, rest);
      assert keys == [k] + rest;
    }
  }

  lemma HitAdded(seen: set<Query>, k: Query, id: DeclId, r: nat)
    ensures GuardHit(seen + {k}, id, r) <==> GuardHit(seen, id, r) || (k.decl == id && |k.steps| == r)
  {
    if GuardHit(seen, id, r) {
      var q :| q in seen && q.decl == id && |q.steps| == r;
      assert q in seen + {k};
    }
    if k.decl == id && |k.steps| == r { assert k in seen + {k}; }
  }

  lemma RepeatsCons(k: Query, rest: seq<Query>)
    ensures NoRepeats([k] + rest) <==>
            NoRepeats(rest) && forall i :: 0 <= i < |rest| ==> !(k.decl == rest[i].decl && |k.steps| == |rest[i].steps|)
  {
    var keys := [k] + rest;
    assert keys[0] == k;
    forall i | 0 <= i < |rest| ensures keys[i + 1] == rest[i] {}
    if NoRepeats(keys) {
      forall i, j | 0 <= i < j < |rest| ensures !(rest[i].decl == rest[j].decl && |rest[i].steps| == |rest[j].steps|) {
        assert keys[i + 1] == rest[i] && keys[j + 1] == rest[j];
      }
      forall i | 0 <= i < |rest| ensures !(k.decl == rest[i].decl && |k.steps| == |rest[i].steps|) {
        assert keys[i + 1] == rest[i];
      }
    }
  }

  // ---- Where the two walks agree ----

  /** The guarded walk answers, and answers what the guardless one does. */
  predicate Same(r: Outcome, e: Walk, seen: set<Query>) {
    e.Walk? && r == Answer(e.verdict, After(seen, e.keys))
  }

  predicate AllSame(r: Outcomes, e: Walks, seen: set<Query>) {
    e.Walks? && r == Answers(e.verdicts, After(seen, e.keys))
  }

  /** If the guard lets every key of the guardless walk through, it changes nothing. */
  lemma {:induction false} FreshAgrees(w: World, frames: nat, p: Place, steps: seq<Step>, seen: set<Query>)
    requires Known(w, p) && Plain(w, frames, p, steps).Walk? && Fresh(Plain(w, frames, p, steps).keys, seen)
    ensures Same(LookupAt(w, frames, p, steps, seen), Plain(w, frames, p, steps), seen)
    decreases frames, 0, 0
  {
    if steps != [] {
      var s, own := Unfold(w, p, steps), Own(w, p, steps);
      LookupUnfolds(w, frames, p, steps, seen);
      KeysConcat(own, WalkShape(w, frames - 1, s, steps).keys, seen);
      OwnKey(w, p, steps, seen);
      hide LookupAt, LookupShape, Unfold, GuardHit, Fresh, After, WalkShape;
      FreshShapeAgrees(w, frames - 1, s, steps, After(seen, own));
    }
  }

  lemma {:induction false} FreshShapeAgrees(w: World, frames: nat, s: Shape, steps: seq<Step>, seen: set<Query>)
    requires (s.Into? ==> Known(w, s.next)) && (s.AnyOf? || s.EachOf? ==> AllKnown(w, s.parts))
    requires WalkShape(w, frames, s, steps).Walk? && Fresh(WalkShape(w, frames, s, steps).keys, seen)
    ensures Same(LookupShape(w, frames, s, steps, seen), WalkShape(w, frames, s, steps), seen)
    decreases frames, 2, 0
  {
    hide LookupAt, Plain, LookupParts, PlainParts, GuardHit, Fresh, After, Combine, Agree;
    match s {
      case Settled(v) => AfterNone(seen);
      case Into(next, rest) => FreshAgrees(w, frames, next, rest, seen);
      case AnyOf(parts) => FreshAgreeParts(w, frames, parts, steps, seen);
      case EachOf(parts) => FreshAgreeParts(w, frames, parts, steps, seen);
    }
  }

  lemma AfterNone(seen: set<Query>)
    ensures After(seen, []) == seen
  {}

  lemma OwnKey(w: World, p: Place, steps: seq<Step>, seen: set<Query>)
    requires Known(w, p)
    ensures Fresh(Own(w, p, steps), seen) <==> !(Guarded(w, p) && GuardHit(seen, p.id, |steps|))
    ensures After(seen, Own(w, p, steps)) == if Guarded(w, p) then seen + {Query(p.id, steps)} else seen
  {
    hide GuardHit;
    var own := Own(w, p, steps);
    if own != [] { assert own[1..] == []; }
  }

  lemma {:induction false} FreshAgreeParts(w: World, frames: nat, parts: seq<Option<Place>>, steps: seq<Step>,
                                           seen: set<Query>)
    requires AllKnown(w, parts) && PlainParts(w, frames, parts, steps).Walks?
      && Fresh(PlainParts(w, frames, parts, steps).keys, seen)
    ensures AllSame(LookupParts(w, frames, parts, steps, seen), PlainParts(w, frames, parts, steps), seen)
    decreases frames, 1, |parts|
  {
    if parts != [] {
      var head := if parts[0].Some? then Plain(w, frames, parts[0].value, steps) else Walk(Unknown, []);
      var tail := PlainParts(w, frames, parts[1..], steps);
      KeysConcat(head.keys, tail.keys, seen);
      if parts[0].Some? { FreshAgrees(w, frames, parts[0].value, steps, seen); }
      FreshAgreeParts(w, frames, parts[1..], steps, After(seen, head.keys));
    }
  }

  lemma MissingParts(vs: seq<Verdict>)
    ensures Combine(vs) == Missing <==> forall v :: v in vs ==> v == Missing
    ensures Agree(vs) == Missing ==> forall v :: v in vs ==> v == Missing
  {
    forall v | v in vs ensures v == Found || v == Unknown || v == Missing {}
  }

  /** `missing` is never an artefact: it is the guardless verdict, and the guard was met nowhere. */
  lemma {:induction false} MissingAgrees(w: World, frames: nat, p: Place, steps: seq<Step>, seen: set<Query>)
    requires Known(w, p) && IsMissing(LookupAt(w, frames, p, steps, seen))
    ensures SameFresh(LookupAt(w, frames, p, steps, seen), Plain(w, frames, p, steps), seen)
    decreases frames, 0, 0
  {
    AnsweredMissing(w, frames, p, steps, seen);
    var s, own := Unfold(w, p, steps), Own(w, p, steps);
    LookupUnfolds(w, frames, p, steps, seen);
    OwnKey(w, p, steps, seen);
    hide LookupAt, LookupShape, Unfold, GuardHit, Fresh, After, WalkShape;
    MissingShapeAgrees(w, frames - 1, s, steps, After(seen, own));
    KeysConcat(own, WalkShape(w, frames - 1, s, steps).keys, seen);
  }

  predicate IsMissing(r: Outcome) {
    r.Answer? && r.verdict == Missing
  }

  /** The walks agree, and the guard was met nowhere. */
  predicate SameFresh(r: Outcome, e: Walk, seen: set<Query>) {
    Same(r, e, seen) && Fresh(e.keys, seen)
  }

  lemma AnsweredMissing(w: World, frames: nat, p: Place, steps: seq<Step>, seen: set<Query>)
    requires Known(w, p) && IsMissing(LookupAt(w, frames, p, steps, seen))
    ensures frames > 0 && steps != []
  {}

  lemma {:induction false} MissingShapeAgrees(w: World, frames: nat, s: Shape, steps: seq<Step>, seen: set<Query>)
    requires (s.Into? ==> Known(w, s.next)) && (s.AnyOf? || s.EachOf? ==> AllKnown(w, s.parts))
    requires IsMissing(LookupShape(w, frames, s, steps, seen))
    ensures SameFresh(LookupShape(w, frames, s, steps, seen), WalkShape(w, frames, s, steps), seen)
    decreases frames, 2, 0
  {
    hide LookupAt, Plain, LookupParts, PlainParts, GuardHit, After, Combine, Agree;
    match s {
      case Settled(v) => AfterNone(seen);
      case Into(next, rest) => MissingAgrees(w, frames, next, rest, seen);
      case AnyOf(parts) =>
        MissingParts(LookupParts(w, frames, parts, steps, seen).verdicts);
        MissingAgreeParts(w, frames, parts, steps, seen);
      case EachOf(parts) =>
        MissingParts(LookupParts(w, frames, parts, steps, seen).verdicts);
        MissingAgreeParts(w, frames, parts, steps, seen);
    }
  }

  lemma {:induction false} MissingAgreeParts(w: World, frames: nat, parts: seq<Option<Place>>, steps: seq<Step>,
                                             seen: set<Query>)
    requires AllKnown(w, parts) && LookupParts(w, frames, parts, steps, seen).Answers?
    requires forall v :: v in LookupParts(w, frames, parts, steps, seen).verdicts ==> v == Missing
    ensures
      var e := PlainParts(w, frames, parts, steps);
      AllSame(LookupParts(w, frames, parts, steps, seen), e, seen) && Fresh(e.keys, seen)
    decreases frames, 1, |parts|
  {
    if parts != [] {
      var r := LookupParts(w, frames, parts, steps, seen);
      assert r.verdicts[0] in r.verdicts;
      assert parts[0].Some?;
      var head := LookupAt(w, frames, parts[0].value, steps, seen);
      MissingAgrees(w, frames, parts[0].value, steps, seen);
      var tail := LookupParts(w, frames, parts[1..], steps, head.seen);
      assert forall v :: v in tail.verdicts ==> v in r.verdicts;
      MissingAgreeParts(w, frames, parts[1..], steps, head.seen);
      KeysConcat(Plain(w, frames, parts[0].value, steps).keys, PlainParts(w, frames, parts[1..], steps).keys, seen);
    }
  }

  // ---- What the guardless verdict means ----

  /** The guardless verdict carries its judgement. */
  lemma {:induction false} PlainSound(w: World, frames: nat, p: Place, steps: seq<Step>)
    requires Known(w, p) && Plain(w, frames, p, steps).Walk?
    ensures Carries(Plain(w, frames, p, steps).verdict, PresentAt(w, frames, p, steps), AbsentAt(w, frames, p, steps))
    decreases frames, 0, 0
  {
    if steps != [] {
      JudgementsUnfold(w, frames, p, steps);
      hide PresentAt, AbsentAt, PresentShape, AbsentShape, Unfold, WalkShape;
      ShapeSound(w, frames - 1, Unfold(w, p, steps), steps);
    } else {
      assert PresentAt(w, frames, p, steps);
    }
  }

  lemma {:induction false} ShapeSound(w: World, frames: nat, s: Shape, steps: seq<Step>)
    requires (s.Into? ==> Known(w, s.next)) && (s.AnyOf? || s.EachOf? ==> AllKnown(w, s.parts))
    requires WalkShape(w, frames, s, steps).Walk? && (s.EachOf? ==> s.parts != [])
    ensures Carries(WalkShape(w, frames, s, steps).verdict, PresentShape(w, frames, s, steps),
                    AbsentShape(w, frames, s, steps))
    decreases frames, 3, 0
  {
    hide PresentAt, AbsentAt, PresentPart, AbsentPart, Plain, PlainParts, Agree, Combine;
    match s {
      case Settled(v) =>
      case Into(next, rest) => PlainSound(w, frames, next, rest);
      case AnyOf(parts) => PlainPartsSound(w, frames, parts, steps);
      case EachOf(parts) => PlainPartsSound(w, frames, parts, steps);
    }
  }

  /** Branch verdicts that carry their judgements combine to verdicts that carry the judgements of the shape. */
  lemma VerdictsCarry(w: World, n: nat, parts: seq<Option<Place>>, steps: seq<Step>, vs: seq<Verdict>)
    requires AllKnown(w, parts) && |vs| == |parts|
    requires forall i ::
      0 <= i < |vs| ==> Carries(vs[i], PresentPart(w, n, parts[i], steps), AbsentPart(w, n, parts[i], steps))
    ensures Carries(Combine(vs), PresentShape(w, n, AnyOf(parts), steps), AbsentShape(w, n, AnyOf(parts), steps))
    ensures parts != [] ==>
      Carries(Agree(vs), PresentShape(w, n, EachOf(parts), steps), AbsentShape(w, n, EachOf(parts), steps))
  {
    hide PresentPart, AbsentPart;
    forall i | 0 <= i < |vs| ensures vs[i] in vs {}
    if Found in vs {
      var i :| 0 <= i < |vs| && vs[i] == Found;
      assert PresentPart(w, n, parts[i], steps);
    }
  }

  lemma {:induction false} PlainPartsSound(w: World, frames: nat, parts: seq<Option<Place>>, steps: seq<Step>)
    requires AllKnown(w, parts) && PlainParts(w, frames, parts, steps).Walks?
    ensures
      var vs := PlainParts(w, frames, parts, steps).verdicts;
      && Carries(Combine(vs), PresentShape(w, frames, AnyOf(parts), steps), AbsentShape(w, frames, AnyOf(parts), steps))
      && (parts != [] ==>
          Carries(Agree(vs), PresentShape(w, frames, EachOf(parts), steps),
                  AbsentShape(w, frames, EachOf(parts), steps)))
    decreases frames, 2, 0
  {
    hide PlainParts, PresentPart, AbsentPart, PresentShape, AbsentShape, Combine, Agree, Carries;
    EachPartSound(w, frames, parts, steps);
    VerdictsCarry(w, frames, parts, steps, PlainParts(w, frames, parts, steps).verdicts);
  }

  lemma {:induction false} EachPartSound(w: World, frames: nat, parts: seq<Option<Place>>, steps: seq<Step>)
    requires AllKnown(w, parts) && PlainParts(w, frames, parts, steps).Walks?
    ensures forall i :: 0 <= i < |parts| ==>
      Carries(PlainParts(w, frames, parts, steps).verdicts[i], PresentPart(w, frames, parts[i], steps),
              AbsentPart(w, frames, parts[i], steps))
    decreases frames, 1, |parts|
  {
    if parts != [] {
      if parts[0].Some? { PlainSound(w, frames, parts[0].value, steps); }
      EachPartSound(w, frames, parts[1..], steps);
    }
  }

  /** Whatever is derivable at any height, an answered guardless walk finds. */
  lemma {:induction false} PlainComplete(w: World, n: nat, frames: nat, p: Place, steps: seq<Step>)
    requires Known(w, p) && Plain(w, frames, p, steps).Walk?
    ensures Follows(Plain(w, frames, p, steps).verdict, PresentAt(w, n, p, steps), AbsentAt(w, n, p, steps))
    decreases frames, 0, 0
  {
    if steps == [] {
      NothingAbsent(w, n, p);
    } else if n == 0 {
      NothingDerived(w, p, steps);
    } else {
      JudgementsUnfold(w, n, p, steps);
      hide PresentAt, AbsentAt, PresentShape, AbsentShape, Unfold, WalkShape;
      ShapeComplete(w, n - 1, frames - 1, Unfold(w, p, steps), steps);
    }
  }

  /** A derivable judgement decides the verdict. */
  predicate Follows(v: Verdict, present: bool, absent: bool) {
    (present ==> v == Found) && (absent ==> v == Missing)
  }

  lemma NothingAbsent(w: World, n: nat, p: Place)
    requires Known(w, p)
    ensures !AbsentAt(w, n, p, [])
  {}

  lemma NothingDerived(w: World, p: Place, steps: seq<Step>)
    requires Known(w, p)
    ensures !PresentAt(w, 0, p, steps) && !AbsentAt(w, 0, p, steps)
  {}

  lemma {:induction false} ShapeComplete(w: World, n: nat, frames: nat, s: Shape, steps: seq<Step>)
    requires (s.Into? ==> Known(w, s.next)) && (s.AnyOf? || s.EachOf? ==> AllKnown(w, s.parts))
    requires WalkShape(w, frames, s, steps).Walk? && (s.EachOf? ==> s.parts != [])
    ensures Follows(WalkShape(w, frames, s, steps).verdict, PresentShape(w, n, s, steps), AbsentShape(w, n, s, steps))
    decreases frames, 3, 0
  {
    hide PresentAt, AbsentAt, PresentPart, AbsentPart, Plain, PlainParts, Agree, Combine;
    match s {
      case Settled(v) =>
      case Into(next, rest) => PlainComplete(w, n, frames, next, rest);
      case AnyOf(parts) => PlainPartsComplete(w, n, frames, parts, steps);
      case EachOf(parts) => PlainPartsComplete(w, n, frames, parts, steps);
    }
  }

  lemma {:induction false} PlainPartsComplete(w: World, n: nat, frames: nat, parts: seq<Option<Place>>,
                                              steps: seq<Step>)
    requires AllKnown(w, parts) && PlainParts(w, frames, parts, steps).Walks?
    ensures
      var vs := PlainParts(w, frames, parts, steps).verdicts;
      && (PresentShape(w, n, AnyOf(parts), steps) ==> Combine(vs) == Found)
      && (AbsentShape(w, n, AnyOf(parts), steps) ==> Combine(vs) == Missing)
      && (PresentShape(w, n, EachOf(parts), steps) ==> Agree(vs) == Found)
      && (AbsentShape(w, n, EachOf(parts), steps) && parts != [] ==> Agree(vs) == Missing)
    decreases frames, 2, 0
  {
    var vs := PlainParts(w, frames, parts, steps).verdicts;
    EachPartComplete(w, n, frames, parts, steps);
    hide PlainParts, Plain, PresentPart, AbsentPart;
    forall i | 0 <= i < |vs| ensures vs[i] in vs {}
    if AbsentShape(w, n, EachOf(parts), steps) {
      forall v | v in vs ensures v == Missing {
        var i :| 0 <= i < |vs| && vs[i] == v;
        assert AbsentPart(w, n, parts[i], steps);
      }
      if parts != [] { assert vs[0] in vs; }
    }
    if PresentShape(w, n, EachOf(parts), steps) {
      forall v | v in vs ensures v == Found {
        var i :| 0 <= i < |vs| && vs[i] == v;
        assert PresentPart(w, n, parts[i], steps);
      }
    }
  }

  lemma {:induction false} EachPartComplete(w: World, n: nat, frames: nat, parts: seq<Option<Place>>, steps: seq<Step>)
    requires AllKnown(w, parts) && PlainParts(w, frames, parts, steps).Walks?
    ensures forall i ::
      0 <= i < |parts| && PresentPart(w, n, parts[i], steps) ==>
        PlainParts(w, frames, parts, steps).verdicts[i] == Found
    ensures forall i ::
      0 <= i < |parts| && AbsentPart(w, n, parts[i], steps) ==>
        PlainParts(w, frames, parts, steps).verdicts[i] == Missing
    decreases frames, 1, |parts|
  {
    if parts != [] {
      if parts[0].Some? { PlainComplete(w, n, frames, parts[0].value, steps); }
      EachPartComplete(w, n, frames, parts[1..], steps);
    }
  }

  /** A derivation of absence bounds the guardless walk: it answers on that much stack. */
  lemma {:induction false} AbsentIsWalked(w: World, n: nat, p: Place, steps: seq<Step>)
    requires Known(w, p) && AbsentAt(w, n, p, steps)
    ensures Plain(w, n, p, steps).Walk?
    decreases n, 0
  {
    JudgementsUnfold(w, n, p, steps);
    hide PresentAt, AbsentAt, Unfold;
    match Unfold(w, p, steps) {
      case Settled(v) =>
      case Into(next, rest) => AbsentIsWalked(w, n - 1, next, rest);
      case AnyOf(parts) => AbsentAreWalked(w, n - 1, parts, steps);
      case EachOf(parts) => AbsentAreWalked(w, n - 1, parts, steps);
    }
  }

  lemma {:induction false} AbsentAreWalked(w: World, n: nat, parts: seq<Option<Place>>, steps: seq<Step>)
    requires AllKnown(w, parts) && forall i :: 0 <= i < |parts| ==> AbsentPart(w, n, parts[i], steps)
    ensures PlainParts(w, n, parts, steps).Walks?
    decreases n, 1 + |parts|
  {
    if parts != [] {
      assert AbsentPart(w, n, parts[0], steps);
      AbsentIsWalked(w, n, parts[0].value, steps);
      AbsentAreWalked(w, n, parts[1..], steps);
    }
  }

  /** An answered guardless walk decides both judgements. */
  lemma PlainDecides(w: World, frames: nat, id: DeclId, steps: seq<Step>)
    requires id in w.decls && Plain(w, frames, DeclAt(id), steps).Walk?
    ensures Plain(w, frames, DeclAt(id), steps).verdict == Found <==> exists n :: PresentDecl(w, n, id, steps)
    ensures Plain(w, frames, DeclAt(id), steps).verdict == Missing <==> exists n :: AbsentDecl(w, n, id, steps)
  {
    var p := DeclAt(id);
    PlainSound(w, frames, p, steps);
    assert PresentAt(w, frames, p, steps) <==> PresentDecl(w, frames, id, steps);
    assert AbsentAt(w, frames, p, steps) <==> AbsentDecl(w, frames, id, steps);
    if n: nat :| PresentDecl(w, n, id, steps) {
      PlainComplete(w, n, frames, p, steps);
    }
    if n: nat :| AbsentDecl(w, n, id, steps) {
      PlainComplete(w, n, frames, p, steps);
    }
  }

  /**
   * `lookupPath` answers `missing` exactly when the member is derivably absent and the guardless walk looks up no
   * declaration twice, nor one already in the guard set, with the same number of steps left. Where the member is
   * derivably absent that walk always answers.
   */
  lemma MissingExactly(w: World, frames: nat, id: DeclId, steps: seq<Step>, seen: set<Query>)
    requires id in w.decls
    ensures AbsentDecl(w, frames, id, steps) ==> Plain(w, frames, DeclAt(id), steps).Walk?
    ensures
      var r, e := LookupDecl(w, frames, id, steps, seen), Plain(w, frames, DeclAt(id), steps);
      r.Answer? && r.verdict == Missing <==>
        AbsentDecl(w, frames, id, steps) && NoRepeats(e.keys) && Apart(e.keys, seen)
  {
    var p := DeclAt(id);
    var r, e := LookupDecl(w, frames, id, steps, seen), Plain(w, frames, p, steps);
    assert r == LookupAt(w, frames, p, steps, seen);
    if AbsentDecl(w, frames, id, steps) {
      assert AbsentAt(w, frames, p, steps);
      AbsentIsWalked(w, frames, p, steps);
    }
    if e.Walk? {
      FreshIsNoRepeat(e.keys, seen);
      if Fresh(e.keys, seen) { FreshAgrees(w, frames, p, steps, seen); }
      PlainSound(w, frames, p, steps);
      PlainComplete(w, frames, frames, p, steps);
      assert AbsentAt(w, frames, p, steps) <==> AbsentDecl(w, frames, id, steps);
    }
    if IsMissing(r) { MissingAgrees(w, frames, p, steps, seen); }
  }

  /**
   * Where the guardless walk repeats nothing, the guarded verdict is definite exactly when a judgement is derivable.
   */
  lemma DefiniteWithoutRepeats(w: World, frames: nat, id: DeclId, steps: seq<Step>, seen: set<Query>)
    requires id in w.decls
    requires Plain(w, frames, DeclAt(id), steps).Walk?
    requires NoRepeats(Plain(w, frames, DeclAt(id), steps).keys)
      && Apart(Plain(w, frames, DeclAt(id), steps).keys, seen)
    ensures LookupDecl(w, frames, id, steps, seen).Answer?
    ensures LookupDecl(w, frames, id, steps, seen).verdict == Plain(w, frames, DeclAt(id), steps).verdict
    ensures LookupDecl(w, frames, id, steps, seen).verdict == Found <==> exists n :: PresentDecl(w, n, id, steps)
    ensures LookupDecl(w, frames, id, steps, seen).verdict == Missing <==> exists n :: AbsentDecl(w, n, id, steps)
  {
    var e := Plain(w, frames, DeclAt(id), steps);
    FreshIsNoRepeat(e.keys, seen);
    FreshAgrees(w, frames, DeclAt(id), steps, seen);
    assert LookupAt(w, frames, DeclAt(id), steps, seen) == LookupDecl(w, frames, id, steps, seen);
    PlainDecides(w, frames, id, steps);
  }

  /** Where the guardless walk answers, the guarded one does too, and at worst hides the verdict. */
  lemma GuardOnlyHides(w: World, frames: nat, id: DeclId, steps: seq<Step>, seen: set<Query>)
    requires id in w.decls && Plain(w, frames, DeclAt(id), steps).Walk?
    ensures LookupDecl(w, frames, id, steps, seen).Answer?
    ensures LookupDecl(w, frames, id, steps, seen).verdict in {Plain(w, frames, DeclAt(id), steps).verdict, Unknown}
  {
    var p := DeclAt(id);
    GuardedAnswers(w, frames, p, steps, seen);
    assert LookupAt(w, frames, p, steps, seen) == LookupDecl(w, frames, id, steps, seen);
    DeclSound(w, frames, id, steps, seen);
    PlainComplete(w, frames, frames, p, steps);
    assert PresentAt(w, frames, p, steps) <==> PresentDecl(w, frames, id, steps);
    assert AbsentAt(w, frames, p, steps) <==> AbsentDecl(w, frames, id, steps);
  }

  lemma {:induction false} GuardedAnswers(w: World, frames: nat, p: Place, steps: seq<Step>, seen: set<Query>)
    requires Known(w, p) && Plain(w, frames, p, steps).Walk?
    ensures LookupAt(w, frames, p, steps, seen).Answer?
    decreases frames, 0
  {
    if steps != [] {
      LookupUnfolds(w, frames, p, steps, seen);
      var marked := if Guarded(w, p) then seen + {Query(p.id, steps)} else seen;
      hide LookupAt, Unfold, GuardHit;
      match Unfold(w, p, steps) {
        case Settled(v) =>
        case Into(next, rest) => GuardedAnswers(w, frames - 1, next, rest, marked);
        case AnyOf(parts) => GuardedPartsAnswer(w, frames - 1, parts, steps, marked);
        case EachOf(parts) => GuardedPartsAnswer(w, frames - 1, parts, steps, marked);
      }
    }
  }

  lemma {:induction false} GuardedPartsAnswer(w: World, frames: nat, parts: seq<Option<Place>>, steps: seq<Step>,
                                              seen: set<Query>)
    requires AllKnown(w, parts) && PlainParts(w, frames, parts, steps).Walks?
    ensures LookupParts(w, frames, parts, steps, seen).Answers?
    decreases frames, 1 + |parts|
  {
    if parts != [] {
      if parts[0].Some? { GuardedAnswers(w, frames, parts[0].value, steps, seen); }
      var head := if parts[0].Some? then LookupAt(w, frames, parts[0].value, steps, seen) else Answer(Unknown, seen);
      GuardedPartsAnswer(w, frames, parts[1..], steps, head.seen);
    }
  }

  // ---- Three walks that repeat a lookup ----

  /** The guard also stops harmless repetition: on `A | A` a member of `A` is present, yet the verdict is unknown. */
  lemma RepeatedBranchIsUnknown(frames: nat)
    requires frames >= 4
    ensures
      var w := World(map[DeclId("a.ts", 0) := Interface([Property("x", None)], [])],
                     map[("a.ts", "A") := DeclId("a.ts", 0)]);
      var node := Union(Ref("A", false, []), [Ref("A", false, [])]);
      && Present(w, 3, "a.ts", node, [Member("x")])
      && LookupNode(w, frames, "a.ts", node, [Member("x")], {}).Answer?
      && LookupNode(w, frames, "a.ts", node, [Member("x")], {}).verdict == Unknown
  {
    var id, steps := DeclId("a.ts", 0), [Member("x")];
    var w := World(map[id := Interface([Property("x", None)], [])], map[("a.ts", "A") := id]);
    var ref, hit := Ref("A", false, []), {Query(id, steps)};
    assert Resolve(w, "a.ts", "A") == Some(id);
    assert FindProperty([Property("x", None)], "x") == Some(Property("x", None));
    assert {} + {Query(id, steps)} == hit;
    assert LookupDecl(w, frames - 2, id, steps, {}) == Answer(Found, hit);
    assert LookupNode(w, frames - 1, "a.ts", ref, steps, {}) == Answer(Found, hit);
    assert GuardHit(hit, id, 1);
    assert LookupNode(w, frames - 1, "a.ts", ref, steps, hit) == Answer(Unknown, hit);
    assert LookupAll(w, frames - 1, "a.ts", [ref][1..], steps, hit) == Answers([], hit);
    assert LookupAll(w, frames - 1, "a.ts", [ref], steps, hit) == Answers([Unknown], hit);
    assert ([ref] + [ref])[1..] == [ref];
    var vs := [Found] + [Unknown];
    assert LookupAll(w, frames - 1, "a.ts", [ref] + [ref], steps, {}) == Answers(vs, hit);
    assert vs[0] in vs && vs[1] in vs;
    assert PresentDecl(w, 1, id, steps);
    assert Present(w, 2, "a.ts", ref, steps);
  }

  /**
   * So does a diamond: a bad key on `A extends B, C` with an empty common base is absent, yet the verdict is unknown.
   */
  lemma DiamondIsUnknown(frames: nat)
    requires frames >= 3
    ensures
      var r := LookupDecl(Diamond(), frames, DeclId("a.ts", 0), [Member("z")], {});
      AbsentDecl(Diamond(), 3, DeclId("a.ts", 0), [Member("z")]) && r.Answer? && r.verdict == Unknown
  {
    var w, steps, a := Diamond(), [Member("z")], DeclId("a.ts", 0);
    DiamondWalk(3);
    DiamondWalk(frames);
    hide LookupDecl, AbsentDecl, PresentDecl, Plain;
    PlainSound(w, 3, DeclAt(a), steps);
    assert AbsentAt(w, 3, DeclAt(a), steps) == AbsentDecl(w, 3, a, steps);
    var keys := Plain(w, frames, DeclAt(a), steps).keys;
    assert keys[2].decl == keys[4].decl && keys[2].steps == keys[4].steps;
    MissingExactly(w, frames, a, steps, {});
    GuardOnlyHides(w, frames, a, steps, {});
  }

  function Diamond(): World {
    World(map[DeclId("a.ts", 0) := Interface([], [Some("B"), Some("C")]),
              DeclId("a.ts", 1) := Interface([], [Some("D")]),
              DeclId("a.ts", 2) := Interface([], [Some("D")]), DeclId("a.ts", 3) := Interface([], [])],
          map[("a.ts", "B") := DeclId("a.ts", 1), ("a.ts", "C") := DeclId("a.ts", 2),
              ("a.ts", "D") := DeclId("a.ts", 3)])
  }

  lemma DiamondShapes()
    ensures
      var w, steps := Diamond(), [Member("z")];
      var a, b, c, d := DeclId("a.ts", 0), DeclId("a.ts", 1), DeclId("a.ts", 2), DeclId("a.ts", 3);
      && a in w.decls && b in w.decls && c in w.decls && d in w.decls
      && Guarded(w, DeclAt(a)) && Guarded(w, DeclAt(b)) && Guarded(w, DeclAt(c)) && Guarded(w, DeclAt(d))
      && Unfold(w, DeclAt(a), steps) == AnyOf([Some(DeclAt(b)), Some(DeclAt(c))])
      && Unfold(w, DeclAt(b), steps) == AnyOf([Some(DeclAt(d))])
        && Unfold(w, DeclAt(c), steps) == AnyOf([Some(DeclAt(d))])
      && Unfold(w, DeclAt(d), steps) == AnyOf([])
  {
    var w := Diamond();
    var b, c, d := DeclId("a.ts", 1), DeclId("a.ts", 2), DeclId("a.ts", 3);
    assert Resolve(w, "a.ts", "B") == Some(b) && Resolve(w, "a.ts", "C") == Some(c)
      && Resolve(w, "a.ts", "D") == Some(d);
    hide Resolve;
  }

  lemma DiamondWalk(frames: nat)
    requires frames >= 3
    ensures
      var steps := [Member("z")];
      Plain(Diamond(), frames, DeclAt(DeclId("a.ts", 0)), steps) ==
      Walk(Missing, [Query(DeclId("a.ts", 0), steps), Query(DeclId("a.ts", 1), steps), Query(DeclId("a.ts", 3), steps),
                     Query(DeclId("a.ts", 2), steps), Query(DeclId("a.ts", 3), steps)])
  {
    hide Unfold, Diamond, Guarded;
    DiamondShapes();
    var w, steps := Diamond(), [Member("z")];
    var a, b, c, d := DeclId("a.ts", 0), DeclId("a.ts", 1), DeclId("a.ts", 2), DeclId("a.ts", 3);
    NoBase(w, frames - 2, d, steps);
    hide Plain;
    OneBase(w, frames - 1, b, d, steps, [Query(d, steps)]);
    OneBase(w, frames - 1, c, d, steps, [Query(d, steps)]);
    TwoBases(w, frames, a, b, c, steps, [Query(b, steps), Query(d, steps)], [Query(c, steps), Query(d, steps)]);
  }

  lemma NoBase(w: World, frames: nat, id: DeclId, steps: seq<Step>)
    requires frames > 0 && steps != [] && id in w.decls && Guarded(w, DeclAt(id))
      && Unfold(w, DeclAt(id), steps) == AnyOf([])
    ensures Plain(w, frames, DeclAt(id), steps) == Walk(Missing, [Query(id, steps)])
  {
    hide Unfold;
    assert PlainParts(w, frames - 1, [], steps) == Walks([], []);
  }

  lemma OneBase(w: World, frames: nat, id: DeclId, base: DeclId, steps: seq<Step>, keys: seq<Query>)
    requires frames > 0 && steps != [] && id in w.decls && base in w.decls && Guarded(w, DeclAt(id))
    requires Unfold(w, DeclAt(id), steps) == AnyOf([Some(DeclAt(base))])
      && Plain(w, frames - 1, DeclAt(base), steps) == Walk(Missing, keys)
    ensures Plain(w, frames, DeclAt(id), steps) == Walk(Missing, [Query(id, steps)] + keys)
  {
    hide Unfold;
    var parts := [Some(DeclAt(base))];
    assert parts[1..] == [];
    assert PlainParts(w, frames - 1, parts[1..], steps) == Walks([], []);
    assert PlainParts(w, frames - 1, parts, steps) == Walks([Missing], keys + []);
    assert keys + [] == keys;
    MissingParts([Missing]);
  }

  lemma TwoBases(w: World, frames: nat, id: DeclId, first: DeclId, second: DeclId, steps: seq<Step>, keys: seq<Query>,
                 keys': seq<Query>)
    requires frames > 0 && steps != [] && id in w.decls && first in w.decls && second in w.decls
      && Guarded(w, DeclAt(id))
    requires Unfold(w, DeclAt(id), steps) == AnyOf([Some(DeclAt(first)), Some(DeclAt(second))])
    requires Plain(w, frames - 1, DeclAt(first), steps) == Walk(Missing, keys)
    requires Plain(w, frames - 1, DeclAt(second), steps) == Walk(Missing, keys')
    ensures Plain(w, frames, DeclAt(id), steps) == Walk(Missing, [Query(id, steps)] + (keys + keys'))
  {
    hide Unfold;
    var parts := [Some(DeclAt(first)), Some(DeclAt(second))];
    assert parts[1..] == [Some(DeclAt(second))] && parts[1..][1..] == [];
    assert PlainParts(w, frames - 1, parts[1..][1..], steps) == Walks([], []);
    assert PlainParts(w, frames - 1, parts[1..], steps) == Walks([Missing], keys' + []);
    assert keys' + [] == keys';
    assert PlainParts(w, frames - 1, parts, steps) == Walks([Missing] + [Missing], keys + keys');
    MissingParts([Missing] + [Missing]);
  }

  /** Repetition can also be harmless: on `A & A` one branch that finds the member is enough. */
  lemma HarmlessRepetition(frames: nat)
    requires frames >= 3
    ensures
      var w := World(map[DeclId("a.ts", 0) := Interface([Property("x", None)], [])],
                     map[("a.ts", "A") := DeclId("a.ts", 0)]);
      var p := TypeAt("a.ts", Intersection(Ref("A", false, []), [Ref("A", false, [])]));
      var e := Plain(w, frames, p, [Member("x")]);
      && e.Walk? && !NoRepeats(e.keys)
      && LookupAt(w, frames, p, [Member("x")], {}).Answer? && LookupAt(w, frames, p, [Member("x")], {}).verdict == Found
  {
    var id, steps, ref := DeclId("a.ts", 0), [Member("x")], TypeAt("a.ts", Ref("A", false, []));
    var w := World(map[id := Interface([Property("x", None)], [])], map[("a.ts", "A") := id]);
    var node := TypeAt("a.ts", Intersection(ref.node, [ref.node]));
    assert Resolve(w, "a.ts", "A") == Some(id);
    assert FindProperty([Property("x", None)], "x") == Some(Property("x", None));
    var parts := TypePlaces("a.ts", [ref.node] + [ref.node]);
    assert parts == [Some(ref), Some(ref)];
    assert Unfold(w, node, steps) == AnyOf(parts) && Unfold(w, ref, steps) == Into(DeclAt(id), steps);
    assert Unfold(w, DeclAt(id), steps) == Settled(Found) && Guarded(w, DeclAt(id));
    hide Unfold, Resolve, TypePlaces;
    TwiceWalked(w, frames, id, ref, node, steps);
    TwiceFound(w, frames, id, ref, node, steps);
    hide Plain, LookupAt;
    var keys := Plain(w, frames, node, steps).keys;
    assert keys[0].decl == keys[1].decl && keys[0].steps == keys[1].steps;
  }

  /** A place with two equal branches that lead to a declaration with the member. */
  predicate Twice(w: World, id: DeclId, ref: Place, node: Place, steps: seq<Step>) {
    && steps != [] && Known(w, node) && Known(w, ref) && Known(w, DeclAt(id)) && node.TypeAt? && ref.TypeAt?
    && Unfold(w, node, steps) == AnyOf([Some(ref), Some(ref)]) && Unfold(w, ref, steps) == Into(DeclAt(id), steps)
    && Unfold(w, DeclAt(id), steps) == Settled(Found) && Guarded(w, DeclAt(id))
  }

  lemma TwiceWalked(w: World, frames: nat, id: DeclId, ref: Place, node: Place, steps: seq<Step>)
    requires frames >= 3 && Twice(w, id, ref, node, steps)
    ensures Plain(w, frames, node, steps) == Walk(Found, [Query(id, steps), Query(id, steps)])
  {
    hide Unfold;
    var q, parts := Query(id, steps), [Some(ref), Some(ref)];
    assert Plain(w, frames - 2, DeclAt(id), steps) == Walk(Found, [q]);
    assert Plain(w, frames - 1, ref, steps) == Walk(Found, [q]);
    assert parts[1..] == [Some(ref)] && parts[1..][1..] == [];
    assert PlainParts(w, frames - 1, parts[1..][1..], steps) == Walks([], []);
    assert PlainParts(w, frames - 1, parts[1..], steps) == Walks([Found], [q]);
    hide Plain;
    assert PlainParts(w, frames - 1, parts, steps) == Walks([Found] + [Found], [q] + [q]);
    assert ([Found] + [Found])[0] == Found;
    assert WalkShape(w, frames - 1, AnyOf(parts), steps) == Walk(Found, [q, q]);
    assert Plain(w, frames, node, steps) == Behind([], WalkShape(w, frames - 1, AnyOf(parts), steps)) by {
      TypeWalked(w, frames, node, steps);
    }
  }

  lemma TypeWalked(w: World, frames: nat, p: Place, steps: seq<Step>)
    requires Known(w, p) && p.TypeAt? && frames > 0 && steps != []
    ensures Plain(w, frames, p, steps) == Behind([], WalkShape(w, frames - 1, Unfold(w, p, steps), steps))
  {}

  lemma TwiceFound(w: World, frames: nat, id: DeclId, ref: Place, node: Place, steps: seq<Step>)
    requires frames >= 3 && Twice(w, id, ref, node, steps)
    ensures LookupAt(w, frames, node, steps, {}).Answer? && LookupAt(w, frames, node, steps, {}).verdict == Found
  {
    TwiceWalked(w, frames, id, ref, node, steps);
    GuardedAnswers(w, frames, node, steps, {});
    LookupUnfolds(w, frames, node, steps, {});
    LookupUnfolds(w, frames - 1, ref, steps, {});
    LookupUnfolds(w, frames - 2, DeclAt(id), steps, {});
    hide LookupAt, Unfold, Plain;
    var r := LookupParts(w, frames - 1, [Some(ref), Some(ref)], steps, {});
    assert LookupAt(w, frames - 1, ref, steps, {}).verdict == Found;
    assert r.Answers?;
    assert r.verdicts[0] == Found;
  }
}
