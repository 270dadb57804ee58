/** Presence of a schema path on a declared config type (scripts/gen-config-catalog.ts, lookupPath). */
module TypeLookup {
  import opened Wrappers

  datatype Step = Member(name: string) | Element

  datatype Verdict = Found | Missing | Unknown

  /** Type syntax; `Other` is every node kind the walk cannot see through. */
  datatype TypeNode =
    | Literal(members: seq<Property>)
    | Paren(inner: TypeNode)
    | Intersection(first: TypeNode, rest: seq<TypeNode>)
    | Union(first: TypeNode, rest: seq<TypeNode>)
    | ArrayOf(element: TypeNode)
    | Readonly(inner: TypeNode)
    | Indexed(owner: TypeNode, index: Option<string>)
    | Ref(name: string, qualified: bool, args: seq<TypeNode>)
    | Other

  datatype Property = Property(name: string, annotation: Option<TypeNode>)

  /** A heritage entry is a type name, or `None` when it is not a plain identifier. */
  datatype Decl =
    | Interface(members: seq<Property>, bases: seq<Option<string>>)
    | Alias(target: TypeNode)
    | Enum

  /** A declaration is identified by its file and position. */
  datatype DeclId = DeclId(file: string, pos: nat)

  /** The declarations, and what each name means in each file. */
  datatype World = World(decls: map<DeclId, Decl>, names: map<(string, string), DeclId>)

  /** `declForTypeName`; names out of reach resolve to nothing. */
  function Resolve(w: World, file: string, name: string): (r: Option<DeclId>)
    ensures r.Some? ==> r.value in w.decls
  {
    if (file, name) in w.names && w.names[(file, name)] in w.decls then Some(w.names[(file, name)]) else None
  }

  /** One guarded lookup. The guard below compares declaration and length only, as the source's key does. */
  datatype Query = Query(decl: DeclId, steps: seq<Step>)

  predicate GuardHit(seen: set<Query>, id: DeclId, remaining: nat) {
    exists q :: q in seen && q.decl == id && |q.steps| == remaining
  }

  /** A verdict and the guard set after it, or an exhausted call stack. */
  datatype Outcome = Overflow | Answer(verdict: Verdict, seen: set<Query>)

  datatype Outcomes = Overflows | Answers(verdicts: seq<Verdict>, seen: set<Query>)

  const PASSTHROUGH_WRAPPERS := {"Partial", "Required", "Readonly", "NonNullable"}

  const ARRAY_NAMES := {"Array", "ReadonlyArray"}

  /** Any found wins, else any unknown taints, else missing. */
  function Combine(vs: seq<Verdict>): Verdict {
    if Found in vs then Found else if Unknown in vs then Unknown else Missing
  }

  /** Definite only when every branch agrees. */
  function Agree(vs: seq<Verdict>): Verdict {
    if forall v :: v in vs ==> v == Found then Found
    else if forall v :: v in vs ==> v == Missing then Missing
    else Unknown
  }

  function FindProperty(members: seq<Property>, name: string): (r: Option<Property>)
    ensures r.Some? ==> r.value in members && r.value.name == name
    ensures r.None? ==> forall m :: m in members ==> m.name != name
  {
    if members == [] then None
    else if members[0].name == name then Some(members[0])
    else FindProperty(members[1..], name)
  }

  // ---- The walk; `frames` is the call stack left ----

  function LookupDecl(w: World, frames: nat, id: DeclId, steps: seq<Step>, seen: set<Query>): Outcome
    requires id in w.decls
    decreases frames, 0
  {
    if frames == 0 then Overflow
    else if steps == [] then Answer(Found, seen)
    else if w.decls[id].Enum? then Answer(Unknown, seen)
    else if GuardHit(seen, id, |steps|) then Answer(Unknown, seen)
    else
      var seen' := seen + {Query(id, steps)};
      match w.decls[id]
      case Interface(members, bases) =>
        if steps[0].Element? then Answer(Unknown, seen')
        else
          var direct := FindProperty(members, steps[0].name);
          if direct.Some? then LookupProperty(w, frames - 1, id.file, direct.value, steps, seen')
          else
            var below := LookupBases(w, frames - 1, id.file, bases, steps, seen');
            if below.Overflows? then Overflow
            else Answer(if bases == [] then Missing else Combine(below.verdicts), below.seen)
      case Alias(target) => LookupNode(w, frames - 1, id.file, target, steps, seen')
      case Enum => Answer(Unknown, seen')
  }

  /** A matching property: the path ends here, or goes on in its annotation. */
  function LookupProperty(w: World, frames: nat, file: string, m: Property, steps: seq<Step>, seen: set<Query>): Outcome
    requires steps != []
    decreases frames, 1
  {
    if |steps| == 1 then Answer(Found, seen)
    else if m.annotation.Some? then LookupNode(w, frames, file, m.annotation.value, steps[1..], seen)
    else Answer(Unknown, seen)
  }

  function LookupBases(w: World, frames: nat, file: string, bases: seq<Option<string>>, steps: seq<Step>,
                       seen: set<Query>): Outcomes
    decreases frames, 1 + |bases|
  {
    if bases == [] then Answers([], seen)
    else
      var target := if bases[0].Some? then Resolve(w, file, bases[0].value) else None;
      var head := if target.Some? then LookupDecl(w, frames, target.value, steps, seen) else Answer(Unknown, seen);
      if head.Overflow? then Overflows
      else
        var tail := LookupBases(w, frames, file, bases[1..], steps, head.seen);
        if tail.Overflows? then Overflows else Answers([head.verdict] + tail.verdicts, tail.seen)
  }

  function LookupAll(w: World, frames: nat, file: string, nodes: seq<TypeNode>, steps: seq<Step>,
                     seen: set<Query>): (r: Outcomes)
    ensures r.Answers? ==> |r.verdicts| == |nodes|
    decreases frames, 1 + |nodes|
  {
    if nodes == [] then Answers([], seen)
    else
      var head := LookupNode(w, frames, file, nodes[0], steps, seen);
      if head.Overflow? then Overflows
      else
        var tail := LookupAll(w, frames, file, nodes[1..], steps, head.seen);
        if tail.Overflows? then Overflows else Answers([head.verdict] + tail.verdicts, tail.seen)
  }

  function LookupNode(w: World, frames: nat, file: string, node: TypeNode, steps: seq<Step>, seen: set<Query>): Outcome
    decreases frames, 0
  {
    if frames == 0 then Overflow
    else if steps == [] then Answer(Found, seen)
    else
      match node
      case Literal(members) =>
        if steps[0].Element? then Answer(Unknown, seen)
        else
          var direct := FindProperty(members, steps[0].name);
          if direct.Some? then LookupProperty(w, frames - 1, file, direct.value, steps, seen) else Answer(Missing, seen)
      case Paren(inner) => LookupNode(w, frames - 1, file, inner, steps, seen)
      case Readonly(inner) => LookupNode(w, frames - 1, file, inner, steps, seen)
      case Intersection(first, rest) =>
        var parts := LookupAll(w, frames - 1, file, [first] + rest, steps, seen);
        if parts.Overflows? then Overflow else Answer(Combine(parts.verdicts), parts.seen)
      case Union(first, rest) =>
        var parts := LookupAll(w, frames - 1, file, [first] + rest, steps, seen);
        if parts.Overflows? then Overflow else Answer(Agree(parts.verdicts), parts.seen)
      case ArrayOf(element) => LookupElement(w, frames - 1, file, element, steps, seen)
      case Indexed(owner, index) =>
        if index.Some? then LookupNode(w, frames - 1, file, owner, [Member(index.value)] + steps, seen)
        else Answer(Unknown, seen)
      case Ref(name, qualified, args) =>
        if name in PASSTHROUGH_WRAPPERS && args != [] then LookupNode(w, frames - 1, file, args[0], steps, seen)
        else if name in ARRAY_NAMES && args != [] then LookupElement(w, frames - 1, file, args[0], steps, seen)
        else if qualified then Answer(Unknown, seen)
        else
          var target := Resolve(w, file, name);
          if target.Some? then LookupDecl(w, frames - 1, target.value, steps, seen) else Answer(Unknown, seen)
      case Other => Answer(Unknown, seen)
  }

  function LookupElement(w: World, frames: nat, file: string, element: TypeNode, steps: seq<Step>,
                         seen: set<Query>): Outcome
    requires steps != []
    decreases frames, 1
  {
    if steps[0].Element? then LookupNode(w, frames, file, element, steps[1..], seen) else Answer(Unknown, seen)
  }

  // ---- The two judgements, by derivation height and without any guard ----

  /** The declared type has a member at `steps`. */
  predicate Present(w: World, n: nat, file: string, node: TypeNode, steps: seq<Step>)
    decreases n, 0
  {
    n > 0 && (steps == [] ||
      match node
      case Literal(members) =>
        steps[0].Member? && FindProperty(members, steps[0].name).Some?
        && PresentBelow(w, n - 1, file, FindProperty(members, steps[0].name).value, steps)
      case Paren(inner) => Present(w, n - 1, file, inner, steps)
      case Readonly(inner) => Present(w, n - 1, file, inner, steps)
      case Intersection(first, rest) => exists t :: t in [first] + rest && Present(w, n - 1, file, t, steps)
      case Union(first, rest) => forall t :: t in [first] + rest ==> Present(w, n - 1, file, t, steps)
      case ArrayOf(element) => steps[0].Element? && Present(w, n - 1, file, element, steps[1..])
      case Indexed(owner, index) => index.Some? && Present(w, n - 1, file, owner, [Member(index.value)] + steps)
      case Ref(name, qualified, args) =>
        if name in PASSTHROUGH_WRAPPERS && args != [] then Present(w, n - 1, file, args[0], steps)
        else if name in ARRAY_NAMES && args != [] then steps[0].Element? && Present(w, n - 1, file, args[0], steps[1..])
        else !qualified && Resolve(w, file, name).Some? && PresentDecl(w, n - 1, Resolve(w, file, name).value, steps)
      case Other => false)
  }

  predicate PresentBelow(w: World, n: nat, file: string, m: Property, steps: seq<Step>)
    requires steps != []
    decreases n, 1
  {
    |steps| == 1 || (m.annotation.Some? && Present(w, n, file, m.annotation.value, steps[1..]))
  }

  /** An interface's own property decides; otherwise some base has the member. */
  predicate PresentDecl(w: World, n: nat, id: DeclId, steps: seq<Step>)
    requires id in w.decls
    decreases n, 0
  {
    n > 0 && (steps == [] ||
      match w.decls[id]
      case Interface(members, bases) =>
        steps[0].Member?
        && (var own := FindProperty(members, steps[0].name);
            if own.Some? then PresentBelow(w, n - 1, id.file, own.value, steps)
            else exists b :: b in bases && b.Some? && Resolve(w, id.file, b.value).Some?
                   && PresentDecl(w, n - 1, Resolve(w, id.file, b.value).value, steps))
      case Alias(target) => Present(w, n - 1, id.file, target, steps)
      case Enum => false)
  }

  /** The declared type definitely has no member at `steps`. */
  predicate Absent(w: World, n: nat, file: string, node: TypeNode, steps: seq<Step>)
    decreases n, 0
  {
    n > 0 && steps != [] &&
      match node
      case Literal(members) =>
        steps[0].Member?
        && (FindProperty(members, steps[0].name).None?
            || AbsentBelow(w, n - 1, file, FindProperty(members, steps[0].name).value, steps))
      case Paren(inner) => Absent(w, n - 1, file, inner, steps)
      case Readonly(inner) => Absent(w, n - 1, file, inner, steps)
      case Intersection(first, rest) => forall t :: t in [first] + rest ==> Absent(w, n - 1, file, t, steps)
      case Union(first, rest) => forall t :: t in [first] + rest ==> Absent(w, n - 1, file, t, steps)
      case ArrayOf(element) => steps[0].Element? && Absent(w, n - 1, file, element, steps[1..])
      case Indexed(owner, index) => index.Some? && Absent(w, n - 1, file, owner, [Member(index.value)] + steps)
      case Ref(name, qualified, args) =>
        (if name in PASSTHROUGH_WRAPPERS && args != [] then Absent(w, n - 1, file, args[0], steps)
        else if name in ARRAY_NAMES && args != [] then steps[0].Element? && Absent(w, n - 1, file, args[0], steps[1..])
        else !qualified && Resolve(w, file, name).Some? && AbsentDecl(w, n - 1, Resolve(w, file, name).value, steps))
      case Other => false
  }

  predicate AbsentBelow(w: World, n: nat, file: string, m: Property, steps: seq<Step>)
    requires steps != []
    decreases n, 1
  {
    |steps| > 1 && m.annotation.Some? && Absent(w, n, file, m.annotation.value, steps[1..])
  }

  predicate AbsentDecl(w: World, n: nat, id: DeclId, steps: seq<Step>)
    requires id in w.decls
    decreases n, 0
  {
    n > 0 && steps != [] &&
      match w.decls[id]
      case Interface(members, bases) =>
        steps[0].Member?
        && (var own := FindProperty(members, steps[0].name);
            if own.Some? then AbsentBelow(w, n - 1, id.file, own.value, steps)
            else forall b :: b in bases ==>
              b.Some? && Resolve(w, id.file, b.value).Some?
                && AbsentDecl(w, n - 1, Resolve(w, id.file, b.value).value, steps))
      case Alias(target) => Absent(w, n - 1, id.file, target, steps)
      case Enum => false
  }

  // ---- Soundness ----

  /** A definite verdict carries its judgement. */
  predicate Carries(v: Verdict, present: bool, absent: bool) {
    (v == Found ==> present) && (v == Missing ==> absent)
  }

  /** A definite verdict is a derivable judgement, whatever the guard set held. */
  lemma {:induction false} NodeSound(w: World, frames: nat, file: string, node: TypeNode, steps: seq<Step>,
                                     seen: set<Query>)
    ensures
      var r := LookupNode(w, frames, file, node, steps, seen);
      r.Answer? ==> Carries(r.verdict, Present(w, frames, file, node, steps), Absent(w, frames, file, node, steps))
    decreases frames, 0
  {
    if frames > 0 && steps != [] {
      match node {
        case Literal(members) =>
          if steps[0].Member? && FindProperty(members, steps[0].name).Some? {
            PropertySound(w, frames - 1, file, FindProperty(members, steps[0].name).value, steps, seen);
          }
        case Paren(inner) => NodeSound(w, frames - 1, file, inner, steps, seen);
        case Readonly(inner) => NodeSound(w, frames - 1, file, inner, steps, seen);
        case Intersection(first, rest) => IntersectionSound(w, frames, file, node, steps, seen);
        case Union(first, rest) => UnionSound(w, frames, file, node, steps, seen);
        case ArrayOf(element) => if steps[0].Element? { NodeSound(w, frames - 1, file, element, steps[1..], seen); }
        case Indexed(owner, index) =>
          if index.Some? { NodeSound(w, frames - 1, file, owner, [Member(index.value)] + steps, seen); }
        case Ref(name, qualified, args) => RefSound(w, frames, file, node, steps, seen);
        case Other =>
      }
    }
  }

  lemma {:induction false} IntersectionSound(w: World, frames: nat, file: string, node: TypeNode, steps: seq<Step>,
                                             seen: set<Query>)
    requires frames > 0 && steps != [] && node.Intersection?
    ensures
      var r := LookupNode(w, frames, file, node, steps, seen);
      r.Answer? ==> Carries(r.verdict, Present(w, frames, file, node, steps), Absent(w, frames, file, node, steps))
    decreases frames - 1, 4 + |node.rest|
  {
    PartsSound(w, frames - 1, file, [node.first] + node.rest, steps, seen);
    hide Combine;
  }

  lemma {:induction false} UnionSound(w: World, frames: nat, file: string, node: TypeNode, steps: seq<Step>,
                                      seen: set<Query>)
    requires frames > 0 && steps != [] && node.Union?
    ensures
      var r := LookupNode(w, frames, file, node, steps, seen);
      r.Answer? ==> Carries(r.verdict, Present(w, frames, file, node, steps), Absent(w, frames, file, node, steps))
    decreases frames - 1, 4 + |node.rest|
  {
    PartsSound(w, frames - 1, file, [node.first] + node.rest, steps, seen);
    hide Agree;
  }

  lemma {:induction false} RefSound(w: World, frames: nat, file: string, node: TypeNode, steps: seq<Step>,
                                    seen: set<Query>)
    requires frames > 0 && steps != [] && node.Ref?
    ensures
      var r := LookupNode(w, frames, file, node, steps, seen);
      r.Answer? ==> Carries(r.verdict, Present(w, frames, file, node, steps), Absent(w, frames, file, node, steps))
    decreases frames - 1, 1
  {
    var Ref(name, qualified, args) := node;
    if name in PASSTHROUGH_WRAPPERS && args != [] {
      NodeSound(w, frames - 1, file, args[0], steps, seen);
    } else if name in ARRAY_NAMES && args != [] {
      if steps[0].Element? { NodeSound(w, frames - 1, file, args[0], steps[1..], seen); }
    } else if !qualified && Resolve(w, file, name).Some? {
      DeclSound(w, frames - 1, Resolve(w, file, name).value, steps, seen);
    }
  }

  lemma {:induction false} PropertySound(w: World, frames: nat, file: string, m: Property, steps: seq<Step>,
                                         seen: set<Query>)
    requires steps != []
    ensures
      var r := LookupProperty(w, frames, file, m, steps, seen);
      r.Answer? ==> Carries(r.verdict, PresentBelow(w, frames, file, m, steps), AbsentBelow(w, frames, file, m, steps))
    decreases frames, 1
  {
    if |steps| > 1 && m.annotation.Some? {
      NodeSound(w, frames, file, m.annotation.value, steps[1..], seen);
    }
  }

  predicate Judged(w: World, n: nat, file: string, nodes: seq<TypeNode>, steps: seq<Step>, vs: seq<Verdict>) {
    && |vs| == |nodes|
    && forall i :: 0 <= i < |nodes| ==>
      Carries(vs[i], Present(w, n, file, nodes[i], steps), Absent(w, n, file, nodes[i], steps))
  }

  lemma {:induction false} AllSound(w: World, frames: nat, file: string, nodes: seq<TypeNode>, steps: seq<Step>,
                                    seen: set<Query>)
    ensures
      var r := LookupAll(w, frames, file, nodes, steps, seen);
      r.Answers? ==> Judged(w, frames, file, nodes, steps, r.verdicts)
    decreases frames, 1 + |nodes|
  {
    if nodes != [] {
      NodeSound(w, frames, file, nodes[0], steps, seen);
      var head := LookupNode(w, frames, file, nodes[0], steps, seen);
      hide Present, Absent, LookupNode, Carries;
      if head.Answer? { AllSound(w, frames, file, nodes[1..], steps, head.seen); }
    }
  }

  lemma FoundCombines(w: World, n: nat, file: string, nodes: seq<TypeNode>, steps: seq<Step>, vs: seq<Verdict>)
    requires Judged(w, n, file, nodes, steps, vs) && Found in vs
    ensures exists t :: t in nodes && Present(w, n, file, t, steps)
  {
    hide Present, Absent;
    var i :| 0 <= i < |vs| && vs[i] == Found;
    assert nodes[i] in nodes;
  }

  lemma AllFoundAgree(w: World, n: nat, file: string, nodes: seq<TypeNode>, steps: seq<Step>, vs: seq<Verdict>)
    requires Judged(w, n, file, nodes, steps, vs) && forall v :: v in vs ==> v == Found
    ensures forall t :: t in nodes ==> Present(w, n, file, t, steps)
  {
    hide Present, Absent;
    forall t | t in nodes ensures Present(w, n, file, t, steps) {
      var i :| 0 <= i < |nodes| && nodes[i] == t;
      assert vs[i] in vs;
    }
  }

  lemma AllMissingCombine(w: World, n: nat, file: string, nodes: seq<TypeNode>, steps: seq<Step>, vs: seq<Verdict>)
    requires Judged(w, n, file, nodes, steps, vs) && forall v :: v in vs ==> v == Missing
    ensures forall t :: t in nodes ==> Absent(w, n, file, t, steps)
  {
    hide Present, Absent;
    forall t | t in nodes ensures Absent(w, n, file, t, steps) {
      var i :| 0 <= i < |nodes| && nodes[i] == t;
      assert vs[i] in vs;
    }
  }

  /** The two combinations of branch verdicts carry the judgements of intersections and unions. */
  predicate PartsCarry(w: World, n: nat, file: string, nodes: seq<TypeNode>, steps: seq<Step>, r: Outcomes) {
    r.Answers? ==>
      && Carries(Combine(r.verdicts), exists t :: t in nodes && Present(w, n, file, t, steps),
                 forall t :: t in nodes ==> Absent(w, n, file, t, steps))
      && Carries(Agree(r.verdicts), forall t :: t in nodes ==> Present(w, n, file, t, steps),
                 forall t :: t in nodes ==> Absent(w, n, file, t, steps))
  }

  lemma JudgedCarry(w: World, n: nat, file: string, nodes: seq<TypeNode>, steps: seq<Step>, vs: seq<Verdict>,
                    seen: set<Query>)
    requires nodes != [] && Judged(w, n, file, nodes, steps, vs)
    ensures PartsCarry(w, n, file, nodes, steps, Answers(vs, seen))
  {
    hide Present, Absent;
    assert vs[0] in vs;
    if Found in vs { FoundCombines(w, n, file, nodes, steps, vs); }
    if forall v :: v in vs ==> v == Found { AllFoundAgree(w, n, file, nodes, steps, vs); }
    if forall v :: v in vs ==> v == Missing { AllMissingCombine(w, n, file, nodes, steps, vs); }
  }

  lemma {:induction false} PartsSound(w: World, frames: nat, file: string, nodes: seq<TypeNode>, steps: seq<Step>,
                                      seen: set<Query>)
    requires nodes != []
    ensures PartsCarry(w, frames, file, nodes, steps, LookupAll(w, frames, file, nodes, steps, seen))
    decreases frames, 2 + |nodes|
  {
    hide Present, Absent, LookupAll;
    AllSound(w, frames, file, nodes, steps, seen);
    var r := LookupAll(w, frames, file, nodes, steps, seen);
    if r.Answers? { JudgedCarry(w, frames, file, nodes, steps, r.verdicts, r.seen); }
  }

  /** A heritage entry that resolves to a declaration with the member. */
  predicate BasePresent(w: World, n: nat, file: string, b: Option<string>, steps: seq<Step>) {
    b.Some? && Resolve(w, file, b.value).Some? && PresentDecl(w, n, Resolve(w, file, b.value).value, steps)
  }

  predicate BaseAbsent(w: World, n: nat, file: string, b: Option<string>, steps: seq<Step>) {
    b.Some? && Resolve(w, file, b.value).Some? && AbsentDecl(w, n, Resolve(w, file, b.value).value, steps)
  }

  lemma {:induction false} BasesSound(w: World, frames: nat, file: string, bases: seq<Option<string>>, steps: seq<Step>,
                                      seen: set<Query>)
    ensures
      var r := LookupBases(w, frames, file, bases, steps, seen);
      r.Answers? ==> |r.verdicts| == |bases| && forall i :: 0 <= i < |bases| ==>
        Carries(r.verdicts[i], BasePresent(w, frames, file, bases[i], steps),
                BaseAbsent(w, frames, file, bases[i], steps))
    decreases frames, 1 + |bases|
  {
    if bases != [] {
      var target := if bases[0].Some? then Resolve(w, file, bases[0].value) else None;
      if target.Some? { DeclSound(w, frames, target.value, steps, seen); }
      var head := if target.Some? then LookupDecl(w, frames, target.value, steps, seen) else Answer(Unknown, seen);
      if head.Answer? { BasesSound(w, frames, file, bases[1..], steps, head.seen); }
    }
  }

  lemma {:induction false} DeclSound(w: World, frames: nat, id: DeclId, steps: seq<Step>, seen: set<Query>)
    requires id in w.decls
    ensures
      var r := LookupDecl(w, frames, id, steps, seen);
      r.Answer? ==> Carries(r.verdict, PresentDecl(w, frames, id, steps), AbsentDecl(w, frames, id, steps))
    decreases frames, 0
  {
    if frames > 0 && steps != [] && !GuardHit(seen, id, |steps|) {
      var seen' := seen + {Query(id, steps)};
      match w.decls[id] {
        case Interface(members, bases) =>
          if steps[0].Member? {
            var own := FindProperty(members, steps[0].name);
            if own.Some? {
              PropertySound(w, frames - 1, id.file, own.value, steps, seen');
            } else {
              BasesSound(w, frames - 1, id.file, bases, steps, seen');
              forall b | b in bases && BasePresent(w, frames - 1, id.file, b, steps)
                ensures PresentDecl(w, frames, id, steps)
              {}
            }
          }
        case Alias(target) => NodeSound(w, frames - 1, id.file, target, steps, seen');
        case Enum =>
      }
    }
  }

  // ---- The judgements exclude each other ----

  lemma {:induction false} NodeExclusive(w: World, n: nat, m: nat, file: string, node: TypeNode, steps: seq<Step>)
    ensures !(Present(w, n, file, node, steps) && Absent(w, m, file, node, steps))
    decreases n, 0
  {
    if n > 0 && m > 0 && steps != [] {
      match node {
        case Literal(members) =>
          if steps[0].Member? && FindProperty(members, steps[0].name).Some? {
            BelowExclusive(w, n - 1, m - 1, file, FindProperty(members, steps[0].name).value, steps);
          }
        case Paren(inner) => NodeExclusive(w, n - 1, m - 1, file, inner, steps);
        case Readonly(inner) => NodeExclusive(w, n - 1, m - 1, file, inner, steps);
        case Intersection(first, rest) =>
          forall t | t in [first] + rest
            ensures !(Present(w, n - 1, file, t, steps) && Absent(w, m - 1, file, t, steps))
          {
            NodeExclusive(w, n - 1, m - 1, file, t, steps);
          }
        case Union(first, rest) =>
          NodeExclusive(w, n - 1, m - 1, file, first, steps);
          assert first in [first] + rest;
        case ArrayOf(element) => NodeExclusive(w, n - 1, m - 1, file, element, steps[1..]);
        case Indexed(owner, index) =>
          if index.Some? { NodeExclusive(w, n - 1, m - 1, file, owner, [Member(index.value)] + steps); }
        case Ref(name, qualified, args) =>
          if name in PASSTHROUGH_WRAPPERS && args != [] {
            NodeExclusive(w, n - 1, m - 1, file, args[0], steps);
          } else if name in ARRAY_NAMES && args != [] {
            NodeExclusive(w, n - 1, m - 1, file, args[0], steps[1..]);
          } else if !qualified && Resolve(w, file, name).Some? {
            DeclExclusive(w, n - 1, m - 1, Resolve(w, file, name).value, steps);
          }
        case Other =>
      }
    }
  }

  lemma {:induction false} BelowExclusive(w: World, n: nat, m: nat, file: string, p: Property, steps: seq<Step>)
    requires steps != []
    ensures !(PresentBelow(w, n, file, p, steps) && AbsentBelow(w, m, file, p, steps))
    decreases n, 1
  {
    if p.annotation.Some? { NodeExclusive(w, n, m, file, p.annotation.value, steps[1..]); }
  }

  lemma {:induction false} DeclExclusive(w: World, n: nat, m: nat, id: DeclId, steps: seq<Step>)
    requires id in w.decls
    ensures !(PresentDecl(w, n, id, steps) && AbsentDecl(w, m, id, steps))
    decreases n, 0
  {
    if n > 0 && m > 0 && steps != [] {
      match w.decls[id] {
        case Interface(members, bases) =>
          if steps[0].Member? {
            var own := FindProperty(members, steps[0].name);
            if own.Some? {
              BelowExclusive(w, n - 1, m - 1, id.file, own.value, steps);
            } else {
              forall b | b in bases && b.Some? && Resolve(w, id.file, b.value).Some?
                ensures !(PresentDecl(w, n - 1, Resolve(w, id.file, b.value).value, steps)
                          && AbsentDecl(w, m - 1, Resolve(w, id.file, b.value).value, steps))
              {
                DeclExclusive(w, n - 1, m - 1, Resolve(w, id.file, b.value).value, steps);
              }
            }
          }
        case Alias(target) => NodeExclusive(w, n - 1, m - 1, id.file, target, steps);
        case Enum =>
      }
    }
  }

  /** Two definite verdicts for one declaration and path agree, whatever stack and guard set each walk had. */
  lemma DefiniteVerdictsAgree(w: World, frames1: nat, frames2: nat, id: DeclId, steps: seq<Step>, seen1: set<Query>,
                              seen2: set<Query>)
    requires id in w.decls
    ensures
      var r1, r2 := LookupDecl(w, frames1, id, steps, seen1), LookupDecl(w, frames2, id, steps, seen2);
      r1.Answer? && r2.Answer? && r1.verdict != Unknown && r2.verdict != Unknown ==> r1.verdict == r2.verdict
  {
    DeclSound(w, frames1, id, steps, seen1);
    DeclSound(w, frames2, id, steps, seen2);
    DeclExclusive(w, frames1, frames2, id, steps);
    DeclExclusive(w, frames2, frames1, id, steps);
  }

  /**
   * The names with a meaning of their own, when they have an argument: four wrappers that stand for it, and two
   * spellings of an array of it. Any other name stands for the declaration it resolves to, if it is plain and does.
   */
  lemma NamedReference(w: World, frames: nat, file: string, name: string, qualified: bool, args: seq<TypeNode>,
                       steps: seq<Step>, seen: set<Query>)
    requires frames > 0 && steps != []
    ensures
      var node := Ref(name, qualified, args);
      var wraps := name == "Partial" || name == "Required" || name == "Readonly" || name == "NonNullable";
      var lists := name == "Array" || name == "ReadonlyArray";
      LookupNode(w, frames, file, node, steps, seen) ==
        if wraps && args != [] then LookupNode(w, frames - 1, file, args[0], steps, seen)
        else if lists && args != [] then LookupNode(w, frames, file, ArrayOf(args[0]), steps, seen)
        else if qualified || Resolve(w, file, name).None? then Answer(Unknown, seen)
        else LookupDecl(w, frames - 1, Resolve(w, file, name).value, steps, seen)
  {
    hide LookupDecl, Resolve, FindProperty;
    assert "Partial" in PASSTHROUGH_WRAPPERS && "Array" in ARRAY_NAMES;
  }

  // ---- The walk over one shared, mutated guard set ----

  class PathWalk {
    const w: World
    var seen: set<Query>

    constructor (w: World)
      ensures this.w == w && seen == {}
    {
      this.w := w;
      seen := {};
    }

    method Declaration(frames: nat, id: DeclId, steps: seq<Step>) returns (r: Option<Verdict>)
      requires id in w.decls
      modifies this
      ensures LookupDecl(w, frames, id, steps, old(seen)) == if r.None? then Overflow else Answer(r.value, seen)
      decreases frames, 0
    {
      if frames == 0 { return None; }
      if |steps| == 0 { return Some(Found); }
      if w.decls[id].Enum? { return Some(Unknown); }
      if GuardHit(seen, id, |steps|) { return Some(Unknown); }
      seen := seen + {Query(id, steps)};
      match w.decls[id] {
        case Interface(members, bases) =>
          if steps[0].Element? { return Some(Unknown); }
          var direct := FindProperty(members, steps[0].name);
          if direct.Some? {
            r := Below(frames - 1, id.file, direct.value, steps);
          } else {
            var results := Bases(frames - 1, id.file, bases, steps);
            if results.None? { return None; }
            r := Some(if |bases| == 0 then Missing else Combine(results.value));
          }
        case Alias(target) => r := Node(frames - 1, id.file, target, steps);
      }
    }

    method Below(frames: nat, file: string, m: Property, steps: seq<Step>) returns (r: Option<Verdict>)
      requires steps != []
      modifies this
      ensures LookupProperty(w, frames, file, m, steps, old(seen)) ==
        if r.None? then Overflow else Answer(r.value, seen)
      decreases frames, 1
    {
      if |steps| == 1 { return Some(Found); }
      if m.annotation.None? { return Some(Unknown); }
      r := Node(frames, file, m.annotation.value, steps[1..]);
    }

    method Bases(frames: nat, file: string, bases: seq<Option<string>>, steps: seq<Step>)
      returns (r: Option<seq<Verdict>>)
      modifies this
      ensures LookupBases(w, frames, file, bases, steps, old(seen)) ==
        if r.None? then Overflows else Answers(r.value, seen)
      decreases frames, 1
    {
      var results: seq<Verdict> := [];
      for i := 0 to |bases|
        invariant LookupBases(w, frames, file, bases, steps, old(seen))
               == Prepend(results, LookupBases(w, frames, file, bases[i..], steps, seen))
      {
        var target := if bases[i].Some? then Resolve(w, file, bases[i].value) else None;
        assert bases[i..][1..] == bases[i + 1..];
        if target.None? {
          results := results + [Unknown];
        } else {
          var head := Declaration(frames, target.value, steps);
          if head.None? { return None; }
          results := results + [head.value];
        }
      }
      return Some(results);
    }

    method All(frames: nat, file: string, nodes: seq<TypeNode>, steps: seq<Step>) returns (r: Option<seq<Verdict>>)
      modifies this
      ensures LookupAll(w, frames, file, nodes, steps, old(seen)) ==
        if r.None? then Overflows else Answers(r.value, seen)
      decreases frames, 1
    {
      var results: seq<Verdict> := [];
      for i := 0 to |nodes|
        invariant LookupAll(w, frames, file, nodes, steps, old(seen))
               == Prepend(results, LookupAll(w, frames, file, nodes[i..], steps, seen))
      {
        assert nodes[i..][1..] == nodes[i + 1..];
        var head := Node(frames, file, nodes[i], steps);
        if head.None? { return None; }
        results := results + [head.value];
      }
      return Some(results);
    }

    method Node(frames: nat, file: string, node: TypeNode, steps: seq<Step>) returns (r: Option<Verdict>)
      modifies this
      ensures LookupNode(w, frames, file, node, steps, old(seen)) == if r.None? then Overflow else Answer(r.value, seen)
      decreases frames, 0
    {
      if frames == 0 { return None; }
      if |steps| == 0 { return Some(Found); }
      match node {
        case Literal(members) =>
          if steps[0].Element? { return Some(Unknown); }
          var direct := FindProperty(members, steps[0].name);
          if direct.None? { return Some(Missing); }
          r := Below(frames - 1, file, direct.value, steps);
        case Paren(inner) => r := Node(frames - 1, file, inner, steps);
        case Readonly(inner) => r := Node(frames - 1, file, inner, steps);
        case Intersection(first, rest) =>
          var results := All(frames - 1, file, [first] + rest, steps);
          r := if results.None? then None else Some(Combine(results.value));
        case Union(first, rest) =>
          var results := All(frames - 1, file, [first] + rest, steps);
          r := if results.None? then None else Some(Agree(results.value));
        case ArrayOf(element) =>
          if steps[0].Member? { return Some(Unknown); }
          r := Node(frames - 1, file, element, steps[1..]);
        case Indexed(owner, index) =>
          if index.None? { return Some(Unknown); }
          r := Node(frames - 1, file, owner, [Member(index.value)] + steps);
        case Ref(name, qualified, args) =>
          if name in PASSTHROUGH_WRAPPERS && |args| > 0 {
            r := Node(frames - 1, file, args[0], steps);
          } else if name in ARRAY_NAMES && |args| > 0 {
            if steps[0].Member? { return Some(Unknown); }
            r := Node(frames - 1, file, args[0], steps[1..]);
          } else if qualified {
            return Some(Unknown);
          } else {
            var target := Resolve(w, file, name);
            if target.None? { return Some(Unknown); }
            r := Declaration(frames - 1, target.value, steps);
          }
        case Other => return Some(Unknown);
      }
    }
  }

  function Prepend(vs: seq<Verdict>, rest: Outcomes): Outcomes {
    if rest.Overflows? then Overflows else Answers(vs + rest.verdicts, rest.seen)
  }
}
