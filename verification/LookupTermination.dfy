/** When the schema-path walk ends, and when its guard is exact (scripts/gen-config-catalog.ts, lookupPath). */
module LookupTermination {
  import opened Numbers
  import opened Wrappers
  import opened TypeLookup
  import opened LookupGuard

  // ---- Which declarations a declaration refers to ----

  /** Some name in the type, outside or inside an indexed access, means the declaration `t`. */
  predicate Refers(w: World, file: string, node: TypeNode, t: DeclId) {
    match node
    case Literal(members) => exists m :: m in members && m.annotation.Some? && Refers(w, file, m.annotation.value, t)
    case Paren(inner) => Refers(w, file, inner, t)
    case Readonly(inner) => Refers(w, file, inner, t)
    case Intersection(first, rest) => Refers(w, file, first, t) || exists n :: n in rest && Refers(w, file, n, t)
    case Union(first, rest) => Refers(w, file, first, t) || exists n :: n in rest && Refers(w, file, n, t)
    case ArrayOf(element) => Refers(w, file, element, t)
    case Indexed(owner, index) => Refers(w, file, owner, t)
    case Ref(name, qualified, args) =>
      (!qualified && Resolve(w, file, name) == Some(t)) || exists n :: n in args && Refers(w, file, n, t)
    case Other => false
  }

  /** Some name inside an indexed access of the type means the declaration `t`. */
  predicate RefersIndexed(w: World, file: string, node: TypeNode, t: DeclId) {
    match node
    case Literal(members) =>
      exists m :: m in members && m.annotation.Some? && RefersIndexed(w, file, m.annotation.value, t)
    case Paren(inner) => RefersIndexed(w, file, inner, t)
    case Readonly(inner) => RefersIndexed(w, file, inner, t)
    case Intersection(first, rest) =>
      RefersIndexed(w, file, first, t) || exists n :: n in rest && RefersIndexed(w, file, n, t)
    case Union(first, rest) => RefersIndexed(w, file, first, t) || exists n :: n in rest && RefersIndexed(w, file, n, t)
    case ArrayOf(element) => RefersIndexed(w, file, element, t)
    case Indexed(owner, index) => Refers(w, file, owner, t)
    case Ref(name, qualified, args) => exists n :: n in args && RefersIndexed(w, file, n, t)
    case Other => false
  }

  predicate DeclRefers(w: World, d: DeclId, t: DeclId) {
    d in w.decls &&
      match w.decls[d]
      case Interface(members, bases) =>
        || (exists m :: m in members && m.annotation.Some? && Refers(w, d.file, m.annotation.value, t))
        || (exists b :: b in bases && BasePlace(w, d.file, b) == Some(DeclAt(t)))
      case Alias(target) => Refers(w, d.file, target, t)
      case Enum => false
  }

  predicate DeclRefersIndexed(w: World, d: DeclId, t: DeclId) {
    d in w.decls &&
      match w.decls[d]
      case Interface(members, bases) =>
        exists m :: m in members && m.annotation.Some? && RefersIndexed(w, d.file, m.annotation.value, t)
      case Alias(target) => RefersIndexed(w, d.file, target, t)
      case Enum => false
  }

  predicate IsChain(w: World, c: seq<DeclId>) {
    |c| > 0 && forall i :: 0 <= i < |c| - 1 ==> DeclRefers(w, c[i], c[i + 1])
  }

  ghost predicate Reaches(w: World, a: DeclId, b: DeclId) {
    exists c :: IsChain(w, c) && c[0] == a && c[|c| - 1] == b
  }

  /** From `id` on, no reference inside an indexed access lies on a cycle of references. */
  ghost predicate NoIndexOnCycle(w: World, id: DeclId) {
    forall d, t :: Reaches(w, id, d) && DeclRefersIndexed(w, d, t) ==> !Reaches(w, t, d)
  }

  lemma ReachesSelf(w: World, a: DeclId)
    ensures Reaches(w, a, a)
  {
    assert IsChain(w, [a]) && [a][0] == a;
  }

  lemma ReachesOn(w: World, a: DeclId, b: DeclId, c: DeclId)
    requires Reaches(w, a, b) && DeclRefers(w, b, c)
    ensures Reaches(w, a, c)
  {
    var s :| IsChain(w, s) && s[0] == a && s[|s| - 1] == b;
    var longer := s + [c];
    assert IsChain(w, longer) && longer[0] == a && longer[|longer| - 1] == c;
  }

  lemma ReachesFrom(w: World, a: DeclId, b: DeclId, c: DeclId)
    requires DeclRefers(w, a, b) && Reaches(w, b, c)
    ensures Reaches(w, a, c)
  {
    var s :| IsChain(w, s) && s[0] == b && s[|s| - 1] == c;
    var longer := [a] + s;
    forall i | 0 <= i < |longer| - 1 ensures DeclRefers(w, longer[i], longer[i + 1]) {
      if i > 0 { assert longer[i] == s[i - 1] && longer[i + 1] == s[i]; }
    }
    assert IsChain(w, longer) && longer[0] == a && longer[|longer| - 1] == c;
  }

  // ---- Sizes ----

  /** Nesting depth of a type node. */
  function Height(node: TypeNode): nat {
    1 + match node
    case Literal(members) => HeightBelow(members)
    case Paren(inner) => Height(inner)
    case Readonly(inner) => Height(inner)
    case Intersection(first, rest) => Max(Height(first), HeightAll(rest))
    case Union(first, rest) => Max(Height(first), HeightAll(rest))
    case ArrayOf(element) => Height(element)
    case Indexed(owner, index) => Height(owner)
    case Ref(name, qualified, args) => HeightAll(args)
    case Other => 0
  }

  function HeightAll(nodes: seq<TypeNode>): (h: nat)
    ensures forall t :: t in nodes ==> Height(t) <= h
  {
    if nodes == [] then 0 else Max(Height(nodes[0]), HeightAll(nodes[1..]))
  }

  function HeightBelow(members: seq<Property>): (h: nat)
    ensures forall m :: m in members && m.annotation.Some? ==> Height(m.annotation.value) <= h
  {
    if members == [] then 0
    else Max(if members[0].annotation.Some? then Height(members[0].annotation.value) else 0, HeightBelow(members[1..]))
  }

  function HeightDecl(d: Decl): nat {
    match d
    case Interface(members, bases) => HeightBelow(members)
    case Alias(target) => Height(target)
    case Enum => 0
  }

  lemma {:induction false} TallestDecl(w: World, ids: set<DeclId>) returns (h: nat)
    requires ids <= w.decls.Keys
    ensures forall id :: id in ids ==> HeightDecl(w.decls[id]) <= h
    decreases ids
  {
    h := 0;
    if ids != {} {
      var id :| id in ids;
      h := TallestDecl(w, ids - {id});
      h := Max(h, HeightDecl(w.decls[id]));
    }
  }


  // ---- How long the remaining path may get ----

  /**
   * `allow` bounds the steps left at each declaration. Following a reference keeps the bound, and following one
   * inside an indexed access leaves room for the steps that access may add.
   */
  ghost predicate Allowance(w: World, allow: map<DeclId, nat>, h: nat) {
    forall d :: d in allow ==> d in w.decls && HeightDecl(w.decls[d]) <= h && Bounds(w, allow, h, d)
  }

  ghost predicate Bounds(w: World, allow: map<DeclId, nat>, h: nat, d: DeclId)
    requires d in allow
  {
    && (forall t :: DeclRefers(w, d, t) ==> t in allow && allow[t] >= allow[d])
    && (forall t :: DeclRefersIndexed(w, d, t) ==> t in allow && allow[t] >= allow[d] + h)
  }

  /** A type at which `length` steps are left, outside or inside an indexed access. */
  ghost predicate Fits(w: World, allow: map<DeclId, nat>, h: nat, file: string, node: TypeNode, inside: bool, room: nat,
                       length: nat)
  {
    && (forall t :: Refers(w, file, node, t) ==> t in allow && allow[t] >= room)
    && (if inside then length + Height(node) <= room
        else
          && length <= room && Height(node) <= h
          && forall t :: RefersIndexed(w, file, node, t) ==> t in allow && allow[t] >= room + h)
  }

  ghost predicate Ready(w: World, allow: map<DeclId, nat>, h: nat, p: Place, length: nat) {
    match p
    case DeclAt(id) => id in allow && length <= allow[id]
    case TypeAt(file, node) => exists inside, room :: Fits(w, allow, h, file, node, inside, room, length)
  }

  /** Every place one step further is ready again, and a type one step below a type is smaller. */
  ghost predicate ReadyShape(w: World, allow: map<DeclId, nat>, h: nat, s: Shape, size: nat, length: nat) {
    match s
    case Settled(v) => true
    case Into(next, rest) => Ready(w, allow, h, next, |rest|) && Size(next) < size
    case AnyOf(parts) => ReadyParts(w, allow, h, parts, size, length)
    case EachOf(parts) => ReadyParts(w, allow, h, parts, size, length)
  }

  ghost predicate ReadyParts(w: World, allow: map<DeclId, nat>, h: nat, parts: seq<Option<Place>>, size: nat,
                             length: nat)
  {
    forall i ::
      0 <= i < |parts| && parts[i].Some? ==> Ready(w, allow, h, parts[i].value, length) && Size(parts[i].value) < size
  }

  function Size(p: Place): nat {
    if p.TypeAt? then Height(p.node) else 0
  }

  lemma FitsIsReady(w: World, allow: map<DeclId, nat>, h: nat, file: string, node: TypeNode, inside: bool, room: nat,
                    length: nat)
    requires Fits(w, allow, h, file, node, inside, room, length)
    ensures Ready(w, allow, h, TypeAt(file, node), length)
  {}

  /** Going down to a part of a type, with no more steps left than before. */
  lemma PartFits(w: World, allow: map<DeclId, nat>, h: nat, file: string, node: TypeNode, part: TypeNode, inside: bool,
                 room: nat, length: nat, less: nat)
    requires Fits(w, allow, h, file, node, inside, room, length) && less <= length && Height(part) < Height(node)
    requires forall t :: Refers(w, file, part, t) ==> Refers(w, file, node, t)
    requires forall t :: RefersIndexed(w, file, part, t) ==> RefersIndexed(w, file, node, t)
    ensures Ready(w, allow, h, TypeAt(file, part), less)
  {
    hide Refers, RefersIndexed;
    FitsIsReady(w, allow, h, file, part, inside, room, less);
  }

  lemma OwnerFits(w: World, allow: map<DeclId, nat>, h: nat, file: string, node: TypeNode, inside: bool, room: nat,
                  length: nat)
    requires node.Indexed? && Fits(w, allow, h, file, node, inside, room, length)
    ensures Ready(w, allow, h, TypeAt(file, node.owner), length + 1)
  {
    FitsIsReady(w, allow, h, file, node.owner, true, if inside then room else room + h, length + 1);
  }

  lemma LiteralReady(w: World, allow: map<DeclId, nat>, h: nat, file: string, node: TypeNode, inside: bool, room: nat,
                     steps: seq<Step>)
    requires node.Literal? && steps != [] && Fits(w, allow, h, file, node, inside, room, |steps|)
    ensures ReadyShape(w, allow, h, UnfoldType(w, file, node, steps), Height(node), |steps|)
  {
    hide Ready, Fits;
    if steps[0].Member? && |steps| > 1 {
      var own := FindProperty(node.members, steps[0].name);
      if own.Some? && own.value.annotation.Some? {
        PartFits(w, allow, h, file, node, own.value.annotation.value, inside, room, |steps|, |steps| - 1);
      }
    }
  }

  lemma TypeReady(w: World, allow: map<DeclId, nat>, h: nat, file: string, node: TypeNode, inside: bool, room: nat,
                  steps: seq<Step>)
    requires steps != [] && Fits(w, allow, h, file, node, inside, room, |steps|)
    ensures ReadyShape(w, allow, h, UnfoldType(w, file, node, steps), Height(node), |steps|)
  {
    hide Ready, Fits;
    match node {
      case Literal(members) => LiteralReady(w, allow, h, file, node, inside, room, steps);
      case Paren(inner) => PartFits(w, allow, h, file, node, inner, inside, room, |steps|, |steps|);
      case Readonly(inner) => PartFits(w, allow, h, file, node, inner, inside, room, |steps|, |steps|);
      case Intersection(first, rest) => PartsReady(w, allow, h, file, node, [first] + rest, inside, room, |steps|);
      case Union(first, rest) => PartsReady(w, allow, h, file, node, [first] + rest, inside, room, |steps|);
      case ArrayOf(element) => PartFits(w, allow, h, file, node, element, inside, room, |steps|, |steps| - 1);
      case Indexed(owner, index) => OwnerFits(w, allow, h, file, node, inside, room, |steps|);
      case Ref(name, qualified, args) => RefReady(w, allow, h, file, node, inside, room, steps);
      case Other =>
    }
  }

  lemma RefReady(w: World, allow: map<DeclId, nat>, h: nat, file: string, node: TypeNode, inside: bool, room: nat,
                 steps: seq<Step>)
    requires node.Ref? && steps != [] && Fits(w, allow, h, file, node, inside, room, |steps|)
    ensures ReadyShape(w, allow, h, UnfoldType(w, file, node, steps), Height(node), |steps|)
  {
    var Ref(name, qualified, args) := node;
    if args != [] {
      assert args[0] in args;
      PartFits(w, allow, h, file, node, args[0], inside, room, |steps|, |steps|);
      PartFits(w, allow, h, file, node, args[0], inside, room, |steps|, |steps| - 1);
    }
    if !qualified && Resolve(w, file, name).Some? {
      assert Refers(w, file, node, Resolve(w, file, name).value);
    }
  }

  lemma PartsReady(w: World, allow: map<DeclId, nat>, h: nat, file: string, node: TypeNode, nodes: seq<TypeNode>,
                   inside: bool, room: nat, length: nat)
    requires Fits(w, allow, h, file, node, inside, room, length)
    requires (node.Intersection? || node.Union?) && nodes == [node.first] + node.rest
    ensures ReadyParts(w, allow, h, TypePlaces(file, nodes), Height(node), length)
  {
    hide Ready;
    forall i | 0 <= i < |nodes|
      ensures Ready(w, allow, h, TypeAt(file, nodes[i]), length) && Height(nodes[i]) < Height(node)
    {
      if i > 0 { assert nodes[i] == node.rest[i - 1] && nodes[i] in node.rest; }
      PartFits(w, allow, h, file, node, nodes[i], inside, room, length, length);
    }
  }

  lemma DeclReady(w: World, allow: map<DeclId, nat>, h: nat, id: DeclId, steps: seq<Step>)
    requires Allowance(w, allow, h) && id in allow && steps != [] && |steps| <= allow[id]
    ensures ReadyShape(w, allow, h, UnfoldDecl(w, id.file, w.decls[id], steps), h + 1, |steps|)
  {
    assert Bounds(w, allow, h, id);
    match w.decls[id] {
      case Interface(members, bases) =>
        if steps[0].Member? {
          var own := FindProperty(members, steps[0].name);
          if own.Some? {
            if |steps| > 1 && own.value.annotation.Some? {
              var a := own.value.annotation.value;
              assert forall t :: Refers(w, id.file, a, t) ==> DeclRefers(w, id, t);
              assert forall t :: RefersIndexed(w, id.file, a, t) ==> DeclRefersIndexed(w, id, t);
              FitsIsReady(w, allow, h, id.file, a, false, allow[id], |steps| - 1);
            }
          } else {
            var parts := BasePlaces(w, id.file, bases);
            forall i | 0 <= i < |parts| && parts[i].Some? ensures Ready(w, allow, h, parts[i].value, |steps|) {
              assert bases[i] in bases && BasePlace(w, id.file, bases[i]) == Some(DeclAt(parts[i].value.id));
              assert DeclRefers(w, id, parts[i].value.id);
            }
          }
        }
      case Alias(target) =>
        FitsIsReady(w, allow, h, id.file, target, false, allow[id], |steps|);
      case Enum =>
    }
  }

  // ---- How much stack the walk needs ----

  function Upto(n: nat): (s: set<nat>)
    ensures forall r: nat :: r in s <==> r <= n
  {
    if n == 0 then {0} else Upto(n - 1) + {n}
  }

  /** The guard entries that can still be added. */
  function Unused(ids: set<DeclId>, top: nat, seen: set<Query>): set<(DeclId, nat)> {
    set id, r: nat | id in ids && r in Upto(top) && !GuardHit(seen, id, r) :: (id, r)
  }

  /** Stack needed by `u` nested guarded declarations whose types are at most `h` deep. */
  function Budget(u: nat, h: nat): nat {
    if u == 0 then 0 else h + 2 + Budget(u - 1, h)
  }

  lemma {:induction false} BudgetGrows(u: nat, v: nat, h: nat)
    requires u <= v
    ensures Budget(u, h) <= Budget(v, h)
  {
    if u < v { BudgetGrows(u, v - 1, h); }
  }

  lemma {:induction false} SubsetSize<T>(a: set<T>, b: set<T>)
    requires a <= b
    ensures |a| <= |b|
  {
    if a != {} {
      var x :| x in a;
      SubsetSize(a - {x}, b - {x});
    }
  }

  lemma GuardGrows(seen: set<Query>, seen': set<Query>, id: DeclId, r: nat)
    requires seen <= seen'
    ensures GuardHit(seen, id, r) ==> GuardHit(seen', id, r)
  {}

  lemma UnusedShrinks(ids: set<DeclId>, top: nat, seen: set<Query>, seen': set<Query>)
    requires seen <= seen'
    ensures |Unused(ids, top, seen')| <= |Unused(ids, top, seen)|
  {
    assert Unused(ids, top, seen') <= Unused(ids, top, seen);
    SubsetSize(Unused(ids, top, seen'), Unused(ids, top, seen));
  }

  lemma UnusedDrops(ids: set<DeclId>, top: nat, seen: set<Query>, id: DeclId, steps: seq<Step>)
    requires id in ids && |steps| <= top && !GuardHit(seen, id, |steps|)
    ensures |Unused(ids, top, seen + {Query(id, steps)})| < |Unused(ids, top, seen)|
  {
    var before, after := Unused(ids, top, seen), Unused(ids, top, seen + {Query(id, steps)});
    assert (id, |steps|) in before;
    assert Query(id, steps) in seen + {Query(id, steps)};
    assert GuardHit(seen + {Query(id, steps)}, id, |steps|);
    forall k | k in after ensures k in before - {(id, |steps|)} {
      GuardGrows(seen, seen + {Query(id, steps)}, k.0, k.1);
    }
    SubsetSize(after, before - {(id, |steps|)});
  }

  /** Enough stack for everything the guard still lets through, plus `extra`. */
  predicate Enough(ids: set<DeclId>, top: nat, h: nat, frames: nat, seen: set<Query>, extra: nat) {
    frames >= Budget(|Unused(ids, top, seen)|, h) + extra
  }

  lemma EnoughLater(ids: set<DeclId>, top: nat, h: nat, frames: nat, seen: set<Query>, seen': set<Query>, extra: nat)
    requires Enough(ids, top, h, frames, seen, extra) && seen <= seen'
    ensures Enough(ids, top, h, frames, seen', extra)
  {
    UnusedShrinks(ids, top, seen, seen');
    BudgetGrows(|Unused(ids, top, seen')|, |Unused(ids, top, seen)|, h);
  }

  lemma EnoughBelow(ids: set<DeclId>, top: nat, h: nat, frames: nat, id: DeclId, steps: seq<Step>, seen: set<Query>)
    requires id in ids && |steps| <= top && Enough(ids, top, h, frames, seen, 1) && !GuardHit(seen, id, |steps|)
    ensures frames > 0 && Enough(ids, top, h, frames - 1, seen + {Query(id, steps)}, h + 1)
  {
    UnusedDrops(ids, top, seen, id, steps);
    BudgetGrows(|Unused(ids, top, seen + {Query(id, steps)})|, |Unused(ids, top, seen)| - 1, h);
  }

  lemma EnoughFrames(ids: set<DeclId>, top: nat, h: nat, frames: nat, seen: set<Query>, extra: nat)
    requires Enough(ids, top, h, frames, seen, extra)
    ensures frames >= extra
    ensures forall less: nat {:trigger Enough(ids, top, h, frames, seen, less)} ::
      less <= extra ==> Enough(ids, top, h, frames, seen, less)
    ensures extra > 0 ==> Enough(ids, top, h, frames - 1, seen, extra - 1)
  {}

  /** A ready place with enough stack gets an answer. */
  lemma {:induction false} PlaceAnswers(w: World, allow: map<DeclId, nat>, h: nat, top: nat, frames: nat, p: Place,
                                        steps: seq<Step>, seen: set<Query>)
    requires Allowance(w, allow, h) && (forall d :: d in allow ==> allow[d] <= top)
    requires Known(w, p) && Ready(w, allow, h, p, |steps|) && Enough(allow.Keys, top, h, frames, seen, Size(p) + 1)
    ensures Answered(LookupAt(w, frames, p, steps, seen), seen)
    decreases frames, 0, 0
  {
    hide Ready, ReadyShape, LookupAt, LookupShape, Unfold, Enough, Allowance, GuardHit;
    EnoughFrames(allow.Keys, top, h, frames, seen, Size(p) + 1);
    if steps == [] {
      NoSteps(w, frames, p, seen);
    } else {
      LookupUnfolds(w, frames, p, steps, seen);
      PlaceReady(w, allow, h, p, steps);
      ReadyDecl(w, allow, h, top, p, |steps|);
      var s := Unfold(w, p, steps);
      if p.TypeAt? {
        ShapeAnswers(w, allow, h, top, frames - 1, s, Size(p), steps, seen);
      } else if !Guarded(w, p) {
        EnumSettles(w, p, steps, frames - 1, seen);
      } else if !GuardHit(seen, p.id, |steps|) {
        EnoughBelow(allow.Keys, top, h, frames, p.id, steps, seen);
        ShapeAnswers(w, allow, h, top, frames - 1, s, h + 1, steps, seen + {Query(p.id, steps)});
      }
    }
  }

  /** The walk answers and only adds to the guard set. */
  predicate Answered(r: Outcome, seen: set<Query>) {
    r.Answer? && seen <= r.seen
  }

  lemma ReadyDecl(w: World, allow: map<DeclId, nat>, h: nat, top: nat, p: Place, length: nat)
    requires (forall d :: d in allow ==> allow[d] <= top) && Ready(w, allow, h, p, length)
    ensures p.DeclAt? ==> p.id in allow && length <= top
  {}

  lemma PlaceReady(w: World, allow: map<DeclId, nat>, h: nat, p: Place, steps: seq<Step>)
    requires Allowance(w, allow, h) && Known(w, p) && Ready(w, allow, h, p, |steps|) && steps != []
    ensures ReadyShape(w, allow, h, Unfold(w, p, steps), if p.TypeAt? then Size(p) else h + 1, |steps|)
  {
    match p {
      case TypeAt(file, node) =>
        var inside, room :| Fits(w, allow, h, file, node, inside, room, |steps|);
        TypeReady(w, allow, h, file, node, inside, room, steps);
      case DeclAt(id) => DeclReady(w, allow, h, id, steps);
    }
  }

  lemma NoSteps(w: World, frames: nat, p: Place, seen: set<Query>)
    requires Known(w, p) && frames > 0
    ensures LookupAt(w, frames, p, [], seen) == Answer(Found, seen)
  {}

  lemma EnumSettles(w: World, p: Place, steps: seq<Step>, frames: nat, seen: set<Query>)
    requires Known(w, p) && p.DeclAt? && steps != []
    ensures w.decls[p.id].Enum? ==> LookupShape(w, frames, Unfold(w, p, steps), steps, seen) == Answer(Unknown, seen)
  {}

  lemma {:induction false} ShapeAnswers(w: World, allow: map<DeclId, nat>, h: nat, top: nat, frames: nat, s: Shape,
                                        size: nat, steps: seq<Step>, seen: set<Query>)
    requires Allowance(w, allow, h) && (forall d :: d in allow ==> allow[d] <= top)
    requires (s.Into? ==> Known(w, s.next)) && (s.AnyOf? || s.EachOf? ==> AllKnown(w, s.parts))
    requires ReadyShape(w, allow, h, s, size, |steps|) && Enough(allow.Keys, top, h, frames, seen, size)
    ensures Answered(LookupShape(w, frames, s, steps, seen), seen)
    decreases frames, 3, 0
  {
    EnoughFrames(allow.Keys, top, h, frames, seen, size);
    hide Ready, LookupAt, Enough, Allowance;
    match s {
      case Settled(v) =>
      case Into(next, rest) => PlaceAnswers(w, allow, h, top, frames, next, rest, seen);
      case AnyOf(parts) => PartsAnswer(w, allow, h, top, frames, parts, size, steps, seen);
      case EachOf(parts) => PartsAnswer(w, allow, h, top, frames, parts, size, steps, seen);
    }
  }

  lemma {:induction false} PartsAnswer(w: World, allow: map<DeclId, nat>, h: nat, top: nat, frames: nat,
                                       parts: seq<Option<Place>>, size: nat, steps: seq<Step>, seen: set<Query>)
    requires Allowance(w, allow, h) && (forall d :: d in allow ==> allow[d] <= top)
    requires AllKnown(w, parts) && ReadyParts(w, allow, h, parts, size, |steps|)
      && Enough(allow.Keys, top, h, frames, seen, size)
    ensures LookupParts(w, frames, parts, steps, seen).Answers?
      && seen <= LookupParts(w, frames, parts, steps, seen).seen
    decreases frames, 1, |parts|
  {
    EnoughFrames(allow.Keys, top, h, frames, seen, size);
    hide Ready, LookupAt, Enough, Allowance;
    if parts != [] {
      if parts[0].Some? { PlaceAnswers(w, allow, h, top, frames, parts[0].value, steps, seen); }
      var head := if parts[0].Some? then LookupAt(w, frames, parts[0].value, steps, seen) else Answer(Unknown, seen);
      EnoughLater(allow.Keys, top, h, frames, seen, head.seen, size);
      PartsAnswer(w, allow, h, top, frames, parts[1..], size, steps, head.seen);
    }
  }

  // ---- The allowance of a declaration ----

  ghost function ReachSet(w: World, d: DeclId): set<DeclId> {
    set t | t in w.decls && Reaches(w, d, t)
  }

  /** A reference reaches no more; one that lies on no cycle reaches strictly less. */
  lemma RankFalls(w: World, d: DeclId, t: DeclId)
    requires d in w.decls && DeclRefers(w, d, t)
    ensures |ReachSet(w, t)| <= |ReachSet(w, d)|
    ensures !Reaches(w, t, d) ==> |ReachSet(w, t)| < |ReachSet(w, d)|
  {
    forall x | x in ReachSet(w, t) ensures x in ReachSet(w, d) { ReachesFrom(w, d, t, x); }
    SubsetSize(ReachSet(w, t), ReachSet(w, d));
    if !Reaches(w, t, d) {
      ReachesSelf(w, d);
      SubsetSize(ReachSet(w, t), ReachSet(w, d) - {d});
    }
  }

  lemma {:induction false} IndexedIsReference(w: World, file: string, node: TypeNode, t: DeclId)
    requires RefersIndexed(w, file, node, t)
    ensures Refers(w, file, node, t)
  {
    match node {
      case Literal(members) =>
        var m :| m in members && m.annotation.Some? && RefersIndexed(w, file, m.annotation.value, t);
        IndexedIsReference(w, file, m.annotation.value, t);
      case Paren(inner) => IndexedIsReference(w, file, inner, t);
      case Readonly(inner) => IndexedIsReference(w, file, inner, t);
      case Intersection(first, rest) =>
        if RefersIndexed(w, file, first, t) {
          IndexedIsReference(w, file, first, t);
        } else {
          var n :| n in rest && RefersIndexed(w, file, n, t);
          IndexedIsReference(w, file, n, t);
        }
      case Union(first, rest) =>
        if RefersIndexed(w, file, first, t) {
          IndexedIsReference(w, file, first, t);
        } else {
          var n :| n in rest && RefersIndexed(w, file, n, t);
          IndexedIsReference(w, file, n, t);
        }
      case ArrayOf(element) => IndexedIsReference(w, file, element, t);
      case Indexed(owner, index) =>
      case Ref(name, qualified, args) =>
        var n :| n in args && RefersIndexed(w, file, n, t);
        IndexedIsReference(w, file, n, t);
    }
  }

  lemma IndexedDeclReference(w: World, d: DeclId, t: DeclId)
    requires DeclRefersIndexed(w, d, t)
    ensures DeclRefers(w, d, t)
  {
    match w.decls[d] {
      case Interface(members, bases) =>
        var m :| m in members && m.annotation.Some? && RefersIndexed(w, d.file, m.annotation.value, t);
        IndexedIsReference(w, d.file, m.annotation.value, t);
      case Alias(target) => IndexedIsReference(w, d.file, target, t);
    }
  }

  lemma {:induction false} ReferredExists(w: World, file: string, node: TypeNode, t: DeclId)
    requires Refers(w, file, node, t)
    ensures t in w.decls
  {
    match node {
      case Literal(members) =>
        var m :| m in members && m.annotation.Some? && Refers(w, file, m.annotation.value, t);
        ReferredExists(w, file, m.annotation.value, t);
      case Paren(inner) => ReferredExists(w, file, inner, t);
      case Readonly(inner) => ReferredExists(w, file, inner, t);
      case Intersection(first, rest) =>
        if !Refers(w, file, first, t) {
          var n :| n in rest && Refers(w, file, n, t);
          ReferredExists(w, file, n, t);
        } else {
          ReferredExists(w, file, first, t);
        }
      case Union(first, rest) =>
        if !Refers(w, file, first, t) {
          var n :| n in rest && Refers(w, file, n, t);
          ReferredExists(w, file, n, t);
        } else {
          ReferredExists(w, file, first, t);
        }
      case ArrayOf(element) => ReferredExists(w, file, element, t);
      case Indexed(owner, index) => ReferredExists(w, file, owner, t);
      case Ref(name, qualified, args) =>
        if n :| n in args && Refers(w, file, n, t) { ReferredExists(w, file, n, t); }
    }
  }

  lemma ReferenceExists(w: World, d: DeclId, t: DeclId)
    requires DeclRefers(w, d, t)
    ensures t in w.decls
  {
    match w.decls[d] {
      case Interface(members, bases) =>
        if m :| m in members && m.annotation.Some? && Refers(w, d.file, m.annotation.value, t) {
          ReferredExists(w, d.file, m.annotation.value, t);
        }
      case Alias(target) => ReferredExists(w, d.file, target, t);
    }
  }

  /** The fewer declarations are in reach, the more steps are allowed. */
  ghost function Allow(w: World, id: DeclId, length: nat, h: nat): map<DeclId, nat>
    requires id in w.decls
  {
    map d | d in ReachSet(w, id) :: length + h * Lead(w, id, d)
  }

  ghost function Lead(w: World, id: DeclId, d: DeclId): nat {
    if |ReachSet(w, id)| < |ReachSet(w, d)| then 0 else |ReachSet(w, id)| - |ReachSet(w, d)|
  }

  lemma ReachShrinks(w: World, a: DeclId, b: DeclId)
    requires Reaches(w, a, b)
    ensures |ReachSet(w, b)| <= |ReachSet(w, a)|
  {
    forall x | x in ReachSet(w, b) ensures x in ReachSet(w, a) {
      var c :| IsChain(w, c) && c[0] == b && c[|c| - 1] == x;
      ReachesAlong(w, a, c);
    }
    SubsetSize(ReachSet(w, b), ReachSet(w, a));
  }

  lemma {:induction false} ReachesAlong(w: World, a: DeclId, c: seq<DeclId>)
    requires IsChain(w, c) && Reaches(w, a, c[0])
    ensures Reaches(w, a, c[|c| - 1])
    decreases |c|
  {
    if |c| > 1 {
      assert DeclRefers(w, c[0], c[1]);
      ReachesOn(w, a, c[0], c[1]);
      forall i | 0 <= i < |c[1..]| - 1
        ensures DeclRefers(w, c[1..][i], c[1..][i + 1])
      {
        assert DeclRefers(w, c[i + 1], c[i + 2]);
      }
      ReachesAlong(w, a, c[1..]);
    }
  }

  lemma {:induction false} Scaled(h: nat, a: nat, b: nat)
    ensures a <= b ==> h * a <= h * b
    ensures a < b ==> h * a + h <= h * b
    decreases b
  {
    if a < b {
      Scaled(h, a, b - 1);
      OneMore(h, b - 1);
    }
  }

  lemma OneMore(h: nat, a: nat)
    ensures h * (a + 1) == h * a + h
  {}

  lemma AllowanceBounds(w: World, id: DeclId, length: nat, h: nat, d: DeclId)
    requires id in w.decls && d in ReachSet(w, id) && NoIndexOnCycle(w, id)
    ensures Bounds(w, Allow(w, id, length, h), h, d)
  {
    ReachShrinks(w, id, d);
    forall t | DeclRefers(w, d, t)
      ensures t in Allow(w, id, length, h) && Allow(w, id, length, h)[t] >= Allow(w, id, length, h)[d]
      ensures DeclRefersIndexed(w, d, t) ==> Allow(w, id, length, h)[t] >= Allow(w, id, length, h)[d] + h
    {
      ReferenceExists(w, d, t);
      ReachesOn(w, id, d, t);
      ReachShrinks(w, id, t);
      RankFalls(w, d, t);
      Scaled(h, Lead(w, id, d), Lead(w, id, t));
    }
    forall t | DeclRefersIndexed(w, d, t) ensures DeclRefers(w, d, t) { IndexedDeclReference(w, d, t); }
  }

  lemma AllowAt(w: World, id: DeclId, length: nat, h: nat, d: DeclId)
    requires id in w.decls && d in Allow(w, id, length, h)
    ensures d in ReachSet(w, id) && Allow(w, id, length, h)[d] <= length + h * |ReachSet(w, id)|
  {
    Scaled(h, Lead(w, id, d), |ReachSet(w, id)|);
  }

  lemma AllowSelf(w: World, id: DeclId, length: nat, h: nat)
    requires id in w.decls
    ensures id in Allow(w, id, length, h) && length <= Allow(w, id, length, h)[id]
  {
    ReachesSelf(w, id);
  }

  lemma AllowanceHolds(w: World, id: DeclId, length: nat, h: nat)
    requires id in w.decls && NoIndexOnCycle(w, id) && forall d :: d in w.decls ==> HeightDecl(w.decls[d]) <= h
    ensures Allowance(w, Allow(w, id, length, h), h) && Ready(w, Allow(w, id, length, h), h, DeclAt(id), length)
    ensures forall d :: d in Allow(w, id, length, h) ==> Allow(w, id, length, h)[d] <= length + h * |ReachSet(w, id)|
  {
    var allow := Allow(w, id, length, h);
    hide NoIndexOnCycle, Bounds, HeightDecl, Allow, Lead;
    AllowSelf(w, id, length, h);
    forall d | d in allow
      ensures d in w.decls && allow[d] <= length + h * |ReachSet(w, id)| && Bounds(w, allow, h, d)
    {
      AllowAt(w, id, length, h, d);
      AllowanceBounds(w, id, length, h, d);
    }
  }

  /**
   * Unless some reference inside an indexed access lies on a cycle of references that `id` can reach, the walk
   * always answers, however recursive the declarations, given enough stack.
   */
  lemma LookupTerminates(w: World, id: DeclId, path: seq<Step>, seen: set<Query>) returns (needed: nat)
    requires id in w.decls && NoIndexOnCycle(w, id)
    ensures forall frames :: frames >= needed ==> LookupDecl(w, frames, id, path, seen).Answer?
  {
    var h := TallestDecl(w, w.decls.Keys);
    var allow := Allow(w, id, |path|, h);
    var top := |path| + h * |ReachSet(w, id)|;
    AllowanceHolds(w, id, |path|, h);
    hide Allow, Allowance, NoIndexOnCycle, Budget, LookupDecl, HeightDecl;
    needed := Budget(|Unused(allow.Keys, top, seen)|, h) + 1;
    forall frames: nat | frames >= needed ensures LookupDecl(w, frames, id, path, seen).Answer? {
      PlaceAnswers(w, allow, h, top, frames, DeclAt(id), path, seen);
      assert LookupAt(w, frames, DeclAt(id), path, seen) == LookupDecl(w, frames, id, path, seen);
    }
  }

  /** With indexed access it need not: `type A = A['x']` exhausts every stack. */
  lemma {:induction false} SelfIndexOverflows(frames: nat, steps: seq<Step>, seen: set<Query>)
    requires steps != [] && forall q :: q in seen ==> |q.steps| < |steps|
    ensures LookupDecl(SelfIndexed(), frames, DeclId("a.ts", 0), steps, seen) == Overflow
    decreases frames
  {
    var w, id := SelfIndexed(), DeclId("a.ts", 0);
    var longer, seen' := [Member("x")] + steps, seen + {Query(id, steps)};
    assert w.decls[id].target == Indexed(Ref("A", false, []), Some("x"));
    assert Resolve(w, "a.ts", "A") == Some(id);
    if frames >= 3 { SelfIndexOverflows(frames - 3, longer, seen'); }
    if frames >= 2 { assert LookupNode(w, frames - 2, "a.ts", Ref("A", false, []), longer, seen') == Overflow; }
    if frames >= 1 { assert LookupNode(w, frames - 1, "a.ts", w.decls[id].target, steps, seen') == Overflow; }
  }

  function SelfIndexed(): World {
    World(map[DeclId("a.ts", 0) := Alias(Indexed(Ref("A", false, []), Some("x")))],
          map[("a.ts", "A") := DeclId("a.ts", 0)])
  }

  /**
   * The condition is not necessary: on `type A = { x: A }['x']` the literal consumes the added step, and the walk
   * ends.
   */
  lemma IndexOnCycleCanEnd(frames: nat, steps: seq<Step>)
    requires frames >= 5 && steps != []
    ensures !NoIndexOnCycle(ConsumedIndex(), DeclId("a.ts", 0))
    ensures LookupDecl(ConsumedIndex(), frames, DeclId("a.ts", 0), steps, {}).Answer?
  {
    IndexOnCycle();
    hide ConsumedIndex, NoIndexOnCycle, Unfold, LookupDecl, LookupNode, GuardHit;
    var w, d := ConsumedIndex(), DeclAt(DeclId("a.ts", 0));
    var ref, longer := Ref("A", false, []), [Member("x")] + steps;
    var literal := TypeAt("a.ts", Literal([Property("x", Some(ref))]));
    var indexed := TypeAt("a.ts", Indexed(literal.node, Some("x")));
    var seen: set<Query> := {} + {Query(d.id, steps)};
    ConsumedShapes(steps);
    NothingHit(d.id, |steps|);
    HitAdded({}, Query(d.id, steps), d.id, |steps|);
    LookupUnfolds(w, frames, d, steps, {});
    LookupUnfolds(w, frames - 1, indexed, steps, seen);
    LookupUnfolds(w, frames - 2, literal, longer, seen);
    LookupUnfolds(w, frames - 3, TypeAt("a.ts", ref), steps, seen);
    LookupUnfolds(w, frames - 4, d, steps, seen);
    assert LookupAt(w, frames, d, steps, {}) == LookupDecl(w, frames, d.id, steps, {});
  }

  lemma NothingHit(id: DeclId, r: nat)
    ensures !GuardHit({}, id, r)
  {}

  lemma IndexOnCycle()
    ensures !NoIndexOnCycle(ConsumedIndex(), DeclId("a.ts", 0))
  {
    var w, id, ref := ConsumedIndex(), DeclId("a.ts", 0), Ref("A", false, []);
    var member := Property("x", Some(ref));
    assert Resolve(w, "a.ts", "A") == Some(id) && Refers(w, "a.ts", ref, id);
    assert member in [member] && Refers(w, "a.ts", Literal([member]), id);
    assert w.decls[id] == Alias(Indexed(Literal([member]), Some("x")));
    assert DeclRefersIndexed(w, id, id);
    ReachesSelf(w, id);
  }

  /** The walk goes round from the declaration to itself, one step longer in between. */
  lemma ConsumedShapes(steps: seq<Step>)
    requires steps != []
    ensures
      var w, d := ConsumedIndex(), DeclAt(DeclId("a.ts", 0));
      var ref, longer := Ref("A", false, []), [Member("x")] + steps;
      var literal := TypeAt("a.ts", Literal([Property("x", Some(ref))]));
      var indexed := TypeAt("a.ts", Indexed(literal.node, Some("x")));
      && Known(w, d) && Guarded(w, d)
      && Unfold(w, d, steps) == Into(indexed, steps) && Unfold(w, indexed, steps) == Into(literal, longer)
      && Unfold(w, literal, longer) == Into(TypeAt("a.ts", ref), steps)
      && Unfold(w, TypeAt("a.ts", ref), steps) == Into(d, steps)
  {
    var member, longer := Property("x", Some(Ref("A", false, []))), [Member("x")] + steps;
    assert FindProperty([member], "x") == Some(member) && longer[1..] == steps;
    assert Resolve(ConsumedIndex(), "a.ts", "A") == Some(DeclId("a.ts", 0));
  }

  function ConsumedIndex(): World {
    World(map[DeclId("a.ts", 0) := Alias(Indexed(Literal([Property("x", Some(Ref("A", false, [])))]), Some("x")))],
          map[("a.ts", "A") := DeclId("a.ts", 0)])
  }

  // ---- The guard key ----

  /** Every recorded query is a tail of the one path being looked up. */
  predicate OnPath(seen: set<Query>, path: seq<Step>) {
    forall q :: q in seen ==> IsTail(q.steps, path)
  }

  predicate IsTail(steps: seq<Step>, path: seq<Step>) {
    |steps| <= |path| && steps == path[|path| - |steps|..]
  }

  /** On tails of one path, declaration and length identify the exact query. */
  lemma GuardIsExact(seen: set<Query>, path: seq<Step>, id: DeclId, steps: seq<Step>)
    requires OnPath(seen, path) && IsTail(steps, path)
    ensures GuardHit(seen, id, |steps|) <==> Query(id, steps) in seen
  {
    if GuardHit(seen, id, |steps|) {
      var q :| q in seen && q.decl == id && |q.steps| == |steps|;
      assert q == Query(id, steps);
    }
  }

  /** No indexed access in the type. */
  predicate NoIndex(node: TypeNode) {
    match node
    case Literal(members) => forall m :: m in members ==> m.annotation.Some? ==> NoIndex(m.annotation.value)
    case Paren(inner) => NoIndex(inner)
    case Readonly(inner) => NoIndex(inner)
    case Intersection(first, rest) => NoIndex(first) && forall t :: t in rest ==> NoIndex(t)
    case Union(first, rest) => NoIndex(first) && forall t :: t in rest ==> NoIndex(t)
    case ArrayOf(element) => NoIndex(element)
    case Indexed(owner, index) => false
    case Ref(name, qualified, args) => forall t :: t in args ==> NoIndex(t)
    case Other => true
  }

  predicate NoIndexDecl(d: Decl) {
    match d
    case Interface(members, bases) => forall m :: m in members && m.annotation.Some? ==> NoIndex(m.annotation.value)
    case Alias(target) => NoIndex(target)
    case Enum => true
  }

  /** No declaration that `id` can reach contains an indexed access. */
  ghost predicate NoIndexFrom(w: World, id: DeclId) {
    forall d :: d in w.decls && Reaches(w, id, d) ==> NoIndexDecl(w.decls[d])
  }

  /** A place in reach of `id` with no indexed access below it. */
  ghost predicate PlainPlace(w: World, id: DeclId, p: Place) {
    match p
    case DeclAt(d) => d in w.decls && Reaches(w, id, d)
    case TypeAt(file, node) => NoIndex(node) && forall t :: Refers(w, file, node, t) ==> Reaches(w, id, t)
  }

  ghost predicate PlainShape(w: World, id: DeclId, s: Shape, steps: seq<Step>) {
    match s
    case Settled(v) => true
    case Into(next, rest) => PlainPlace(w, id, next) && (rest == steps || (steps != [] && rest == steps[1..]))
    case AnyOf(parts) => forall i :: 0 <= i < |parts| && parts[i].Some? ==> PlainPlace(w, id, parts[i].value)
    case EachOf(parts) => forall i :: 0 <= i < |parts| && parts[i].Some? ==> PlainPlace(w, id, parts[i].value)
  }

  lemma PlainType(w: World, id: DeclId, file: string, node: TypeNode, steps: seq<Step>)
    requires steps != [] && PlainPlace(w, id, TypeAt(file, node))
    ensures PlainShape(w, id, UnfoldType(w, file, node, steps), steps)
  {
    match node {
      case Literal(members) =>
      case Paren(inner) =>
      case Readonly(inner) =>
      case Intersection(first, rest) => PlainTypes(w, id, file, node, [first] + rest);
      case Union(first, rest) => PlainTypes(w, id, file, node, [first] + rest);
      case ArrayOf(element) =>
      case Ref(name, qualified, args) =>
        if args != [] { assert args[0] in args; }
        if !qualified && Resolve(w, file, name).Some? { assert Refers(w, file, node, Resolve(w, file, name).value); }
      case Other =>
    }
  }

  lemma PlainTypes(w: World, id: DeclId, file: string, node: TypeNode, nodes: seq<TypeNode>)
    requires PlainPlace(w, id, TypeAt(file, node)) && (node.Intersection? || node.Union?)
      && nodes == [node.first] + node.rest
    ensures forall i :: 0 <= i < |nodes| ==> PlainPlace(w, id, TypeAt(file, nodes[i]))
  {
    forall i | 0 <= i < |nodes| ensures PlainPlace(w, id, TypeAt(file, nodes[i])) {
      if i > 0 { assert nodes[i] == node.rest[i - 1] && nodes[i] in node.rest; }
      assert forall t :: Refers(w, file, nodes[i], t) ==> Refers(w, file, node, t);
    }
  }

  lemma PlainDecl(w: World, id: DeclId, d: DeclId, steps: seq<Step>)
    requires steps != [] && NoIndexFrom(w, id) && PlainPlace(w, id, DeclAt(d))
    ensures PlainShape(w, id, UnfoldDecl(w, d.file, w.decls[d], steps), steps)
  {
    forall t | DeclRefers(w, d, t) ensures Reaches(w, id, t) { ReachesOn(w, id, d, t); }
    match w.decls[d] {
      case Interface(members, bases) =>
        if steps[0].Member? {
          var own := FindProperty(members, steps[0].name);
          if own.Some? {
            if |steps| > 1 && own.value.annotation.Some? {
              assert forall t :: Refers(w, d.file, own.value.annotation.value, t) ==> DeclRefers(w, d, t);
            }
          } else {
            var parts := BasePlaces(w, d.file, bases);
            forall i | 0 <= i < |parts| && parts[i].Some? ensures PlainPlace(w, id, parts[i].value) {
              assert bases[i] in bases && BasePlace(w, d.file, bases[i]) == Some(DeclAt(parts[i].value.id));
              assert DeclRefers(w, d, parts[i].value.id);
            }
          }
        }
      case Alias(target) =>
        assert forall t :: Refers(w, d.file, target, t) ==> DeclRefers(w, d, t);
      case Enum =>
    }
  }

  lemma TailOfTail(steps: seq<Step>, path: seq<Step>)
    requires steps != [] && IsTail(steps, path)
    ensures IsTail(steps[1..], path)
  {}

  lemma PlainUnfolds(w: World, id: DeclId, p: Place, steps: seq<Step>)
    requires steps != [] && NoIndexFrom(w, id) && Known(w, p) && PlainPlace(w, id, p)
    ensures PlainShape(w, id, Unfold(w, p, steps), steps)
  {
    hide PlainPlace, NoIndexFrom, UnfoldType, UnfoldDecl, PlainShape;
    match p {
      case TypeAt(file, node) => PlainType(w, id, file, node, steps);
      case DeclAt(d) => PlainDecl(w, id, d, steps);
    }
  }

  lemma NoFrames(w: World, p: Place, steps: seq<Step>, seen: set<Query>)
    requires Known(w, p)
    ensures LookupAt(w, 0, p, steps, seen) == Overflow
  {}

  lemma Marked(seen: set<Query>, path: seq<Step>, w: World, p: Place, steps: seq<Step>)
    requires Known(w, p) && OnPath(seen, path) && IsTail(steps, path)
    ensures OnPath(if Guarded(w, p) then seen + {Query(p.id, steps)} else seen, path)
  {}

  lemma {:induction false} PlaceStaysOnPath(w: World, id: DeclId, frames: nat, p: Place, path: seq<Step>,
                                            steps: seq<Step>, seen: set<Query>)
    requires NoIndexFrom(w, id) && Known(w, p) && PlainPlace(w, id, p) && IsTail(steps, path) && OnPath(seen, path)
    requires LookupAt(w, frames, p, steps, seen).Answer?
    ensures OnPath(LookupAt(w, frames, p, steps, seen).seen, path)
    decreases frames, 0
  {
    hide LookupAt, Unfold, PlainPlace, GuardHit, NoIndexFrom, IsTail, OnPath;
    if frames == 0 {
      NoFrames(w, p, steps, seen);
    } else if steps != [] {
      LookupUnfolds(w, frames, p, steps, seen);
      PlainUnfolds(w, id, p, steps);
      TailOfTail(steps, path);
      Marked(seen, path, w, p, steps);
      var s, marked := Unfold(w, p, steps), if Guarded(w, p) then seen + {Query(p.id, steps)} else seen;
      match s {
        case Settled(v) =>
        case Into(next, rest) =>
          if LookupAt(w, frames - 1, next, rest, marked).Answer? {
            PlaceStaysOnPath(w, id, frames - 1, next, path, rest, marked);
          }
        case AnyOf(parts) =>
          if LookupParts(w, frames - 1, parts, steps, marked).Answers? {
            PartsStayOnPath(w, id, frames - 1, parts, path, steps, marked);
          }
        case EachOf(parts) =>
          if LookupParts(w, frames - 1, parts, steps, marked).Answers? {
            PartsStayOnPath(w, id, frames - 1, parts, path, steps, marked);
          }
      }
    } else {
      NoSteps(w, frames, p, seen);
    }
  }

  lemma {:induction false} PartsStayOnPath(w: World, id: DeclId, frames: nat, parts: seq<Option<Place>>,
                                           path: seq<Step>, steps: seq<Step>, seen: set<Query>)
    requires NoIndexFrom(w, id) && AllKnown(w, parts) && IsTail(steps, path) && OnPath(seen, path)
    requires forall i :: 0 <= i < |parts| && parts[i].Some? ==> PlainPlace(w, id, parts[i].value)
    requires LookupParts(w, frames, parts, steps, seen).Answers?
    ensures OnPath(LookupParts(w, frames, parts, steps, seen).seen, path)
    decreases frames, 1 + |parts|
  {
    hide LookupAt, PlainPlace, NoIndexFrom, IsTail;
    if parts != [] {
      if parts[0].Some? { PlaceStaysOnPath(w, id, frames, parts[0].value, path, steps, seen); }
      var head := if parts[0].Some? then LookupAt(w, frames, parts[0].value, steps, seen) else Answer(Unknown, seen);
      PartsStayOnPath(w, id, frames, parts[1..], path, steps, head.seen);
    }
  }

  /** Without indexed access in reach, the guard set only ever holds tails of the path, so its key stays exact. */
  lemma GuardStaysExact(w: World, frames: nat, id: DeclId, path: seq<Step>, seen: set<Query>)
    requires id in w.decls && NoIndexFrom(w, id) && OnPath(seen, path)
    ensures LookupDecl(w, frames, id, path, seen).Answer? ==> OnPath(LookupDecl(w, frames, id, path, seen).seen, path)
  {
    ReachesSelf(w, id);
    assert LookupAt(w, frames, DeclAt(id), path, seen) == LookupDecl(w, frames, id, path, seen);
    if LookupDecl(w, frames, id, path, seen).Answer? { PlaceStaysOnPath(w, id, frames, DeclAt(id), path, path, seen); }
  }
}
