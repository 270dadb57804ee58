/** The worklist that pastes a config type's package-local closure (scripts/gen-config-catalog.ts). */
module PasteClosure {

  /** A declaration's identity: its source pointer. */
  datatype DeclKey = DeclKey(rel: string, line: nat)

  datatype TypeRef = TypeRef(imported: string, specifier: string)

  /** What a name means in a file: nothing, an import, or a package-local declaration. */
  datatype Resolution = Unresolved | Imported(ref: TypeRef) | Declared(key: DeclKey)

  /** Name resolution and the type names each declaration mentions, both taken as given. */
  datatype Package = Package(resolutions: map<(string, string), Resolution>, mentions: map<DeclKey, seq<string>>)

  /** A name to resolve in a file. */
  datatype Item = Item(name: string, from: string)

  datatype Violation =
    | NotFound(name: string, via: string)
    | ConfigTypeImported(name: string, ref: TypeRef)
    | DeclaredThenImported(name: string, prior: DeclKey, ref: TypeRef)
    | ImportedTwice(name: string, priorRef: TypeRef, ref: TypeRef)
    | DeclaredTwice(name: string, prior: DeclKey, key: DeclKey)
    | ImportedThenDeclared(name: string, priorRef: TypeRef, key: DeclKey)

  const GLOBAL_TYPES := {
    "Array", "ReadonlyArray", "Record", "Partial", "Required", "Readonly", "Pick", "Omit",
    "Promise", "Map", "Set", "Date", "Error", "RegExp", "Exclude", "Extract", "NonNullable",
    "ReturnType", "Parameters", "AbortSignal", "URL", "Buffer", "NodeJS", "Iterable", "AsyncIterable"
  }

  function Resolve(p: Package, it: Item): Resolution {
    if (it.from, it.name) in p.resolutions then p.resolutions[(it.from, it.name)] else Unresolved
  }

  /** The distinct type names under a declaration. */
  function Mentions(p: Package, key: DeclKey): seq<string> {
    if key in p.mentions then p.mentions[key] else []
  }

  // ---- What the closure is ----

  /** Resolving `a` to a declaration leads on to `b`, a name that declaration mentions. */
  predicate Leads(p: Package, a: Item, b: Item) {
    var r := Resolve(p, a);
    r.Declared? && b.from == r.key.rel && b.name in Mentions(p, r.key) && b.name !in GLOBAL_TYPES
  }

  predicate IsChain(p: Package, start: Item, c: seq<Item>) {
    |c| > 0 && c[0] == start && forall i :: 0 <= i < |c| - 1 ==> Leads(p, c[i], c[i + 1])
  }

  ghost predicate Reachable(p: Package, start: Item, it: Item) {
    exists c :: IsChain(p, start, c) && c[|c| - 1] == it
  }

  /** Every reachable name resolves, always to the same thing, and the config type is nowhere an import. */
  ghost predicate Unambiguous(p: Package, start: Item) {
    && (forall it :: Reachable(p, start, it) ==> !Resolve(p, it).Unresolved?)
    && (forall a, b ::
        Reachable(p, start, a) && Reachable(p, start, b) && a.name == b.name ==> Resolve(p, a) == Resolve(p, b))
    && (forall it :: Reachable(p, start, it) && it.name == start.name ==> !Resolve(p, it).Imported?)
  }

  lemma ReachStart(p: Package, start: Item)
    ensures Reachable(p, start, start)
  {
    assert IsChain(p, start, [start]);
  }

  lemma ChainExtends(p: Package, start: Item, c: seq<Item>, b: Item)
    requires IsChain(p, start, c) && Leads(p, c[|c| - 1], b)
    ensures IsChain(p, start, c + [b])
  {
    hide Leads;
    var longer := c + [b];
    forall i | 0 <= i < |longer| - 1 ensures Leads(p, longer[i], longer[i + 1]) {
      if i < |c| - 1 { assert longer[i] == c[i] && longer[i + 1] == c[i + 1]; }
    }
  }

  lemma ReachNext(p: Package, start: Item, a: Item, b: Item)
    requires Reachable(p, start, a) && Leads(p, a, b)
    ensures Reachable(p, start, b)
  {
    hide Leads;
    var c :| IsChain(p, start, c) && c[|c| - 1] == a;
    ChainExtends(p, start, c, b);
    assert (c + [b])[|c + [b]| - 1] == b;
  }

  // ---- What the worklist maintains ----

  /** The worklist's tables; `processed` is every item taken from the queue so far. */
  datatype Tables = Tables(pasted: map<string, DeclKey>, refs: map<string, TypeRef>, queue: seq<Item>,
                           processed: set<Item>)

  /** Some processed item of that name resolves to `r`. */
  ghost predicate Witnessed(p: Package, processed: set<Item>, name: string, r: Resolution) {
    exists it :: it in processed && it.name == name && Resolve(p, it) == r
  }

  lemma StaysWitnessed(p: Package, processed: set<Item>, processed': set<Item>, name: string, r: Resolution)
    requires processed <= processed' && Witnessed(p, processed, name, r)
    ensures Witnessed(p, processed', name, r)
  {}

  /** The tables carry no name twice and hold nothing that is not reachable. */
  ghost predicate OnlyReachable(p: Package, start: Item, t: Tables) {
    && t.pasted.Keys !! t.refs.Keys
    && (forall it :: it in t.queue || it in t.processed ==> Reachable(p, start, it))
    && (forall n :: n in t.pasted ==> Witnessed(p, t.processed, n, Declared(t.pasted[n])))
    && (forall n :: n in t.refs ==> Witnessed(p, t.processed, n, Imported(t.refs[n])))
  }

  /** Every mention of every pasted declaration has been, or is still to be, resolved. */
  ghost predicate Complete(p: Package, start: Item, t: Tables) {
    && (start in t.processed || start in t.queue)
    && forall n, m :: n in t.pasted && m in Mentions(p, t.pasted[n]) && m !in GLOBAL_TYPES ==>
         Item(m, t.pasted[n].rel) in t.processed || Item(m, t.pasted[n].rel) in t.queue
  }

  /** The item's name is in the tables, with exactly its own resolution. */
  predicate Recorded(p: Package, start: Item, t: Tables, it: Item) {
    match Resolve(p, it)
    case Unresolved => false
    case Imported(ref) => it.name != start.name && it.name in t.refs && t.refs[it.name] == ref
    case Declared(key) => it.name in t.pasted && t.pasted[it.name] == key
  }

  predicate AllRecorded(p: Package, start: Item, t: Tables) {
    forall it :: it in t.processed ==> Recorded(p, start, t, it)
  }

  function AllNames(p: Package, start: Item): set<string> {
    {start.name} + set k, n | k in p.mentions && n in p.mentions[k] :: n
  }

  /** The names that may enter the queue, in order. */
  function Enqueue(names: seq<string>, from: string): seq<Item> {
    if names == [] then []
    else (if names[0] in GLOBAL_TYPES then [] else [Item(names[0], from)]) + Enqueue(names[1..], from)
  }

  lemma {:induction false} EnqueueMembers(names: seq<string>, from: string)
    ensures forall it :: it in Enqueue(names, from) <==> it.from == from && it.name in names && it.name !in GLOBAL_TYPES
  {
    if names != [] { EnqueueMembers(names[1..], from); }
  }

  /** The names every file knows never enter the queue; every other mention does. */
  lemma GlobalsAreSkipped(names: seq<string>, from: string, n: string)
    ensures Item(n, from) in Enqueue(names, from) <==> n in names && n !in {
      "AbortSignal", "Array", "AsyncIterable", "Buffer", "Date", "Error", "Exclude", "Extract", "Iterable", "Map",
      "NodeJS", "NonNullable", "Omit", "Parameters", "Partial", "Pick", "Promise", "Readonly", "ReadonlyArray",
      "Record", "RegExp", "Required", "ReturnType", "Set", "URL" }
  {
    EnqueueMembers(names, from);
    hide Enqueue;
  }

  /** Every processed chain link leads to another processed item once the queue is empty. */
  lemma {:induction false} ReachedIsProcessed(p: Package, start: Item, t: Tables, c: seq<Item>)
    requires IsChain(p, start, c) && Complete(p, start, t) && AllRecorded(p, start, t) && t.queue == []
    ensures c[|c| - 1] in t.processed
    decreases |c|
  {
    if |c| > 1 {
      var front := c[..|c| - 1];
      assert forall i :: 0 <= i < |front| - 1 ==> Leads(p, c[i], c[i + 1]);
      ReachedIsProcessed(p, start, t, front);
      var a, b := c[|c| - 2], c[|c| - 2 + 1];
      assert Leads(p, a, b) && Recorded(p, start, t, a);
      assert Item(b.name, b.from) == b;
    }
  }

  /** A finished, fully recorded worklist is only possible on an unambiguous closure. */
  lemma RecordedIsUnambiguous(p: Package, start: Item, t: Tables)
    requires OnlyReachable(p, start, t) && Complete(p, start, t) && AllRecorded(p, start, t) && t.queue == []
    ensures Unambiguous(p, start)
  {
    forall it | Reachable(p, start, it) ensures Recorded(p, start, t, it) {
      var c :| IsChain(p, start, c) && c[|c| - 1] == it;
      ReachedIsProcessed(p, start, t, c);
    }
  }

  /** On an unambiguous closure the tables agree with the resolution of every reachable item. */
  lemma NoConflict(p: Package, start: Item, t: Tables, it: Item)
    requires OnlyReachable(p, start, t) && Unambiguous(p, start) && Reachable(p, start, it)
    ensures !Resolve(p, it).Unresolved?
    ensures it.name in t.pasted ==> Resolve(p, it) == Declared(t.pasted[it.name])
    ensures it.name in t.refs ==> Resolve(p, it) == Imported(t.refs[it.name])
    ensures it.name == start.name ==> !Resolve(p, it).Imported?
  {
    if it.name in t.pasted {
      var other :| other in t.processed && other.name == it.name && Resolve(p, other) == Declared(t.pasted[it.name]);
      assert Reachable(p, start, other);
    }
    if it.name in t.refs {
      var other :| other in t.processed && other.name == it.name && Resolve(p, other) == Imported(t.refs[it.name]);
      assert Reachable(p, start, other);
    }
  }

  // ---- Single steps on the tables ----

  function Taken(t: Tables): Tables
    requires t.queue != []
  {
    t.(queue := t.queue[1..], processed := t.processed + {t.queue[0]})
  }

  lemma TakeKeepsReachable(p: Package, start: Item, t: Tables)
    requires t.queue != [] && OnlyReachable(p, start, t)
    ensures OnlyReachable(p, start, Taken(t)) && Reachable(p, start, t.queue[0])
  {
    hide Reachable, Witnessed, Resolve;
    var t' := Taken(t);
    assert t.queue[0] in t.queue;
    forall n | n in t.pasted ensures Witnessed(p, t'.processed, n, Declared(t.pasted[n])) {
      StaysWitnessed(p, t.processed, t'.processed, n, Declared(t.pasted[n]));
    }
    forall n | n in t.refs ensures Witnessed(p, t'.processed, n, Imported(t.refs[n])) {
      StaysWitnessed(p, t.processed, t'.processed, n, Imported(t.refs[n]));
    }
  }

  lemma TakeKeepsComplete(p: Package, start: Item, t: Tables)
    requires t.queue != [] && Complete(p, start, t)
    ensures Complete(p, start, Taken(t))
  {
    hide Mentions;
    assert t.queue == [t.queue[0]] + t.queue[1..];
  }

  function WithRef(t: Tables, name: string, ref: TypeRef): Tables {
    t.(refs := t.refs[name := ref])
  }

  lemma RefKeeps(p: Package, start: Item, t: Tables, it: Item, ref: TypeRef)
    requires OnlyReachable(p, start, t) && Complete(p, start, t)
    requires it in t.processed && Resolve(p, it) == Imported(ref) && it.name !in t.pasted
    ensures OnlyReachable(p, start, WithRef(t, it.name, ref)) && Complete(p, start, WithRef(t, it.name, ref))
  {}

  function WithPaste(p: Package, t: Tables, name: string, key: DeclKey): Tables {
    t.(pasted := t.pasted[name := key], queue := t.queue + Enqueue(Mentions(p, key), key.rel))
  }

  lemma PasteKeeps(p: Package, start: Item, t: Tables, it: Item, key: DeclKey)
    requires OnlyReachable(p, start, t) && Complete(p, start, t)
    requires it in t.processed && Resolve(p, it) == Declared(key) && it.name !in t.pasted && it.name !in t.refs
    ensures OnlyReachable(p, start, WithPaste(p, t, it.name, key)) && Complete(p, start, WithPaste(p, t, it.name, key))
  {
    var t' := WithPaste(p, t, it.name, key);
    EnqueueMembers(Mentions(p, key), key.rel);
    hide Enqueue, Mentions, Reachable;
    forall b | b in t'.queue ensures Reachable(p, start, b) {
      if b in Enqueue(Mentions(p, key), key.rel) { ReachNext(p, start, it, b); }
    }
    forall n, m | n in t'.pasted && m in Mentions(p, t'.pasted[n]) && m !in GLOBAL_TYPES
      ensures Item(m, t'.pasted[n].rel) in t'.processed || Item(m, t'.pasted[n].rel) in t'.queue
    {
      if n == it.name {
        assert Item(m, key.rel) in Enqueue(Mentions(p, key), key.rel);
      }
    }
  }

  /** What an error-free run guarantees about the rendered block. */
  predicate Faithful(p: Package, start: Item, pasted: map<string, DeclKey>, refs: map<string, TypeRef>) {
    && pasted.Keys !! refs.Keys
    && start.name in pasted && Resolve(p, start) == Declared(pasted[start.name])
    && forall n, m :: n in pasted && m in Mentions(p, pasted[n]) && m !in GLOBAL_TYPES ==>
         var r := Resolve(p, Item(m, pasted[n].rel));
         (m in pasted && r == Declared(pasted[m])) || (m in refs && r == Imported(refs[m]))
  }

  lemma FinishedIsFaithful(p: Package, start: Item, t: Tables)
    requires OnlyReachable(p, start, t) && Complete(p, start, t) && AllRecorded(p, start, t) && t.queue == []
    ensures Faithful(p, start, t.pasted, t.refs)
  {
    assert Recorded(p, start, t, start);
    forall n, m | n in t.pasted && m in Mentions(p, t.pasted[n]) && m !in GLOBAL_TYPES
      ensures Recorded(p, start, t, Item(m, t.pasted[n].rel)) {}
  }

  /** `pastes` lists the pasted declarations once each. */
  predicate Listed(pastes: seq<DeclKey>, order: seq<string>, pasted: map<string, DeclKey>) {
    && |pastes| == |order|
    && (forall i, j :: 0 <= i < j < |order| ==> order[i] != order[j])
    && (forall i :: 0 <= i < |order| ==> order[i] in pasted && pasted[order[i]] == pastes[i])
    && (forall n :: n in pasted ==> n in order)
  }

  lemma ListOne(pastes: seq<DeclKey>, order: seq<string>, pasted: map<string, DeclKey>, name: string, key: DeclKey)
    requires Listed(pastes, order, pasted) && name !in pasted
    ensures Listed(pastes + [key], order + [name], pasted[name := key])
  {
    assert (order + [name])[|order|] == name;
    forall n | n in pasted[name := key] ensures n in order + [name] {}
  }

  lemma NothingListed(pastes: seq<DeclKey>, order: seq<string>, pasted: map<string, DeclKey>)
    requires Listed(pastes, order, pasted)
    ensures pastes == [] ==> pasted == map[]
  {}

  /** Names come from the finite set of names mentioned anywhere, which bounds the work. */
  predicate NamesBounded(p: Package, start: Item, t: Tables) {
    (forall it :: it in t.queue ==> it.name in AllNames(p, start)) && t.pasted.Keys <= AllNames(p, start)
  }

  lemma TakeBounded(p: Package, start: Item, t: Tables)
    requires t.queue != [] && NamesBounded(p, start, t)
    ensures NamesBounded(p, start, Taken(t)) && t.queue[0].name in AllNames(p, start)
  {}

  lemma PasteBounded(p: Package, start: Item, t: Tables, name: string, key: DeclKey)
    requires NamesBounded(p, start, t) && name in AllNames(p, start)
    ensures NamesBounded(p, start, WithPaste(p, t, name, key))
  {
    EnqueueMembers(Mentions(p, key), key.rel);
    MentionsAreNames(p, start, key);
    hide AllNames, Enqueue, Mentions;
  }

  /** The worklist's invariant; `clean` says that no violation has been recorded. */
  ghost predicate Good(p: Package, start: Item, t: Tables, clean: bool) {
    && OnlyReachable(p, start, t) && Complete(p, start, t) && NamesBounded(p, start, t)
    && (clean ==> AllRecorded(p, start, t))
    && (Unambiguous(p, start) ==> clean)
  }

  lemma GoodIsBounded(p: Package, start: Item, t: Tables, clean: bool)
    requires Good(p, start, t, clean)
    ensures NamesBounded(p, start, t)
  {}

  /** The name budget of the worklist. */
  function NamesLeft(p: Package, start: Item, t: Tables): nat {
    |AllNames(p, start) - t.pasted.Keys|
  }

  /** A conflict: the item is dropped and the run is no longer clean. */
  predicate Conflicts(p: Package, start: Item, t: Tables, it: Item) {
    match Resolve(p, it)
    case Unresolved => true
    case Imported(ref) => it.name == start.name || it.name in t.pasted || (it.name in t.refs && t.refs[it.name] != ref)
    case Declared(key) => if it.name in t.pasted then t.pasted[it.name] != key else it.name in t.refs
  }

  lemma ReportKeeps(p: Package, start: Item, t: Tables, clean: bool)
    requires t.queue != [] && Good(p, start, t, clean) && Conflicts(p, start, t, t.queue[0])
    ensures Good(p, start, Taken(t), false) && !Unambiguous(p, start)
  {
    TakeKeepsReachable(p, start, t);
    TakeKeepsComplete(p, start, t);
    TakeBounded(p, start, t);
    if Unambiguous(p, start) {
      NoConflict(p, start, t, t.queue[0]);
      assert false;
    }
  }

  /** Recording the item just taken completes the record. */
  lemma RecordTaken(p: Package, start: Item, t: Tables, t': Tables)
    requires t.queue != [] && Recorded(p, start, t', t.queue[0])
    requires t'.processed == t.processed + {t.queue[0]}
    requires forall n :: n in t.pasted ==> n in t'.pasted && t'.pasted[n] == t.pasted[n]
    requires forall n :: n in t.refs ==> n in t'.refs && t'.refs[n] == t.refs[n]
    ensures AllRecorded(p, start, t) ==> AllRecorded(p, start, t')
  {}

  lemma SameKeeps(p: Package, start: Item, t: Tables, clean: bool, key: DeclKey)
    requires t.queue != [] && Good(p, start, t, clean) && Resolve(p, t.queue[0]) == Declared(key)
    requires t.queue[0].name in t.pasted && t.pasted[t.queue[0].name] == key
    ensures Good(p, start, Taken(t), clean)
  {
    TakeKeepsReachable(p, start, t);
    TakeKeepsComplete(p, start, t);
    TakeBounded(p, start, t);
    RecordTaken(p, start, t, Taken(t));
    hide OnlyReachable, Complete, NamesBounded, Unambiguous, AllRecorded;
  }

  lemma LinkKeeps(p: Package, start: Item, t: Tables, clean: bool, ref: TypeRef)
    requires t.queue != [] && Good(p, start, t, clean) && Resolve(p, t.queue[0]) == Imported(ref)
    requires !Conflicts(p, start, t, t.queue[0])
    ensures Good(p, start, WithRef(Taken(t), t.queue[0].name, ref), clean)
  {
    hide OnlyReachable, Complete, Unambiguous, AllRecorded, Mentions, AllNames;
    TakeKeepsReachable(p, start, t);
    TakeKeepsComplete(p, start, t);
    TakeBounded(p, start, t);
    RefKeeps(p, start, Taken(t), t.queue[0], ref);
    RecordTaken(p, start, t, WithRef(Taken(t), t.queue[0].name, ref));
  }

  lemma PasteOneKeeps(p: Package, start: Item, t: Tables, clean: bool, key: DeclKey)
    requires t.queue != [] && Good(p, start, t, clean) && Resolve(p, t.queue[0]) == Declared(key)
    requires !Conflicts(p, start, t, t.queue[0]) && t.queue[0].name !in t.pasted
    ensures Good(p, start, WithPaste(p, Taken(t), t.queue[0].name, key), clean)
  {
    hide OnlyReachable, Complete, Unambiguous, AllRecorded, NamesBounded, Enqueue, Mentions, AllNames;
    TakeKeepsReachable(p, start, t);
    TakeKeepsComplete(p, start, t);
    TakeBounded(p, start, t);
    PasteKeeps(p, start, Taken(t), t.queue[0], key);
    PasteBounded(p, start, Taken(t), t.queue[0].name, key);
    RecordTaken(p, start, t, WithPaste(p, Taken(t), t.queue[0].name, key));
  }

  lemma PasteUsesName(p: Package, start: Item, t: Tables, key: DeclKey)
    requires t.queue != [] && NamesBounded(p, start, t) && t.queue[0].name !in t.pasted
    ensures NamesLeft(p, start, WithPaste(p, Taken(t), t.queue[0].name, key)) < NamesLeft(p, start, t)
  {
    hide NamesBounded, Enqueue, Mentions, AllNames;
    TakeBounded(p, start, t);
    NameUsed(AllNames(p, start), t.pasted, t.queue[0].name, key);
  }

  lemma NameUsed(names: set<string>, pasted: map<string, DeclKey>, name: string, key: DeclKey)
    requires name in names && name !in pasted
    ensures |names - pasted[name := key].Keys| < |names - pasted.Keys|
  {
    assert names - pasted[name := key].Keys == names - pasted.Keys - {name};
  }

  // ---- The order of the pastes ----

  /** `x` occurs in `s`, and no `y` before it. */
  predicate Before(s: seq<string>, x: string, y: string) {
    s != [] && s[0] != y && (s[0] == x || Before(s[1..], x, y))
  }

  /** What the pastes mention, one paste after the other. */
  function Mentioned(p: Package, pastes: seq<DeclKey>): seq<string> {
    if pastes == [] then []
    else Mentioned(p, pastes[..|pastes| - 1]) + Mentions(p, pastes[|pastes| - 1])
  }

  /**
   * The config type comes first; every other name is mentioned by an earlier paste; and the names follow their first
   * mentions, read paste by paste in the order each paste mentions them.
   */
  predicate BreadthFirst(p: Package, start: Item, pastes: seq<DeclKey>, order: seq<string>) {
    && |pastes| == |order| && order != [] && order[0] == start.name
    && (forall j :: 0 < j < |order| ==> order[j] in Mentioned(p, pastes[..j]) && order[j] !in GLOBAL_TYPES)
    && (forall i, j :: 0 < i < j < |order| ==> Before(Mentioned(p, pastes), order[i], order[j]))
  }

  lemma {:induction false} BeforeInLonger(a: seq<string>, b: seq<string>, x: string, y: string)
    requires Before(a, x, y)
    ensures Before(a + b, x, y)
  {
    assert (a + b)[1..] == a[1..] + b;
    if a[0] != x { BeforeInLonger(a[1..], b, x, y); }
  }

  lemma {:induction false} BeforeNew(s: seq<string>, x: string, y: string)
    requires x in s && y !in s
    ensures Before(s, x, y)
  {
    if s[0] != x {
      assert s == [s[0]] + s[1..];
      BeforeNew(s[1..], x, y);
    }
  }

  // ---- The queue as a stretch of the mentions ----

  function MentionItems(p: Package, pastes: seq<DeclKey>): seq<Item> {
    if pastes == [] then []
    else
      var last := pastes[|pastes| - 1];
      MentionItems(p, pastes[..|pastes| - 1]) + Enqueue(Mentions(p, last), last.rel)
  }

  /** Everything that ever enters the queue. */
  function Stream(p: Package, start: Item, pastes: seq<DeclKey>): seq<Item> {
    [start] + MentionItems(p, pastes)
  }

  function Names(items: seq<Item>): (r: seq<string>)
    ensures |r| == |items| && forall i :: 0 <= i < |items| ==> r[i] == items[i].name
  {
    if items == [] then [] else [items[0].name] + Names(items[1..])
  }

  /** Names of declarations of the package or its imports, in order. */
  function Local(names: seq<string>): seq<string> {
    if names == [] then [] else (if names[0] in GLOBAL_TYPES then [] else [names[0]]) + Local(names[1..])
  }

  lemma NamesConcat(a: seq<Item>, b: seq<Item>)
    ensures Names(a + b) == Names(a) + Names(b)
  {}

  lemma {:induction false} NamesOfEnqueue(names: seq<string>, from: string)
    ensures Names(Enqueue(names, from)) == Local(names)
  {
    if names != [] {
      NamesOfEnqueue(names[1..], from);
      if names[0] !in GLOBAL_TYPES { NamesConcat([Item(names[0], from)], Enqueue(names[1..], from)); }
    }
  }

  lemma LocalCons(x: string, s: seq<string>)
    ensures Local([x] + s) == (if x in GLOBAL_TYPES then [] else [x]) + Local(s)
  {
    assert ([x] + s)[1..] == s;
  }

  lemma {:induction false} LocalConcat(a: seq<string>, b: seq<string>)
    ensures Local(a + b) == Local(a) + Local(b)
  {
    hide Local;
    if a == [] {
      assert a + b == b;
      NothingLocal();
    } else {
      LocalConcat(a[1..], b);
      LocalCons(a[0], a[1..]);
      LocalCons(a[0], a[1..] + b);
      assert a == [a[0]] + a[1..] && a + b == [a[0]] + (a[1..] + b);
    }
  }

  lemma NothingLocal()
    ensures Local([]) == []
  {}

  /** The names of the queued items are the local names mentioned. */
  lemma {:induction false} NamesOfMentions(p: Package, pastes: seq<DeclKey>)
    ensures Names(MentionItems(p, pastes)) == Local(Mentioned(p, pastes))
  {
    if pastes != [] {
      var front, last := pastes[..|pastes| - 1], pastes[|pastes| - 1];
      NamesOfMentions(p, front);
      NamesOfEnqueue(Mentions(p, last), last.rel);
      NamesConcat(MentionItems(p, front), Enqueue(Mentions(p, last), last.rel));
      LocalConcat(Mentioned(p, front), Mentions(p, last));
      hide Names, Local, Enqueue, Mentions;
    }
  }

  lemma {:induction false} LocalMembers(s: seq<string>, x: string)
    ensures x in Local(s) <==> x in s && x !in GLOBAL_TYPES
  {
    if s != [] {
      assert s == [s[0]] + s[1..];
      LocalMembers(s[1..], x);
    }
  }

  lemma {:induction false} LocalOrder(s: seq<string>, x: string, y: string)
    requires Before(Local(s), x, y) && y !in GLOBAL_TYPES
    ensures Before(s, x, y)
  {
    if s[0] in GLOBAL_TYPES {
      assert [] + Local(s[1..]) == Local(s[1..]);
      LocalOrder(s[1..], x, y);
    } else {
      assert Local(s)[1..] == Local(s[1..]);
      if s[0] != x { LocalOrder(s[1..], x, y); }
    }
  }

  // ---- What each iteration keeps ----

  /** The queue is what is left of the stream after `taken` items. */
  predicate QueueIs(p: Package, start: Item, pastes: seq<DeclKey>, queue: seq<Item>, taken: nat) {
    taken <= |Stream(p, start, pastes)| && queue == Stream(p, start, pastes)[taken..]
  }

  /** The names pasted so far were taken from the stream, each for the first time, in the order of `order`. */
  predicate InTurn(seen: seq<string>, order: seq<string>) {
    && (forall j :: 0 <= j < |order| ==> order[j] in seen)
    && (forall i, j :: 0 <= i < j < |order| ==> Before(seen, order[i], order[j]))
  }

  /** Every name after the first was mentioned by an earlier paste. */
  predicate MentionedEarlier(p: Package, start: Item, pastes: seq<DeclKey>, order: seq<string>) {
    && |pastes| == |order| && (order != [] ==> order[0] == start.name)
    && forall j :: 0 < j < |order| ==> order[j] in Names(MentionItems(p, pastes[..j]))
  }

  function Seen(p: Package, start: Item, pastes: seq<DeclKey>, taken: nat): seq<string>
    requires taken <= |Stream(p, start, pastes)|
  {
    Names(Stream(p, start, pastes))[..taken]
  }

  /** As long as nothing was reported, every name taken is in the tables, and the pastes stand in the order taken. */
  predicate Ordered(p: Package, start: Item, pastes: seq<DeclKey>, order: seq<string>, known: set<string>, taken: nat)
    requires taken <= |Stream(p, start, pastes)|
  {
    && (forall n :: n in Seen(p, start, pastes, taken) ==> n in known)
    && InTurn(Seen(p, start, pastes, taken), order) && MentionedEarlier(p, start, pastes, order)
  }

  lemma TakeNext(p: Package, start: Item, pastes: seq<DeclKey>, queue: seq<Item>, taken: nat)
    requires QueueIs(p, start, pastes, queue, taken) && queue != []
    ensures QueueIs(p, start, pastes, queue[1..], taken + 1)
    ensures Seen(p, start, pastes, taken + 1) == Seen(p, start, pastes, taken) + [queue[0].name]
  {
    var s := Stream(p, start, pastes);
    assert queue[0] == s[taken] && s[taken..][1..] == s[taken + 1..];
    assert Names(s)[..taken + 1] == Names(s)[..taken] + [Names(s)[taken]];
  }

  lemma InTurnKept(seen: seq<string>, order: seq<string>, x: string)
    requires InTurn(seen, order)
    ensures InTurn(seen + [x], order)
    ensures x !in seen ==> InTurn(seen + [x], order + [x])
  {
    hide Before;
    forall i, j | 0 <= i < j < |order| ensures Before(seen + [x], order[i], order[j]) {
      BeforeInLonger(seen, [x], order[i], order[j]);
    }
    if x !in seen {
      var longer := order + [x];
      forall i, j | 0 <= i < j < |longer| ensures Before(seen + [x], longer[i], longer[j]) {
        if j == |order| {
          BeforeNew(seen, order[i], x);
          BeforeInLonger(seen, [x], order[i], x);
        }
      }
    }
  }

  /** An item whose name is already known, or becomes known as an import. */
  lemma TakeKeepsOrdered(p: Package, start: Item, pastes: seq<DeclKey>, order: seq<string>, known: set<string>,
                         queue: seq<Item>, taken: nat)
    requires QueueIs(p, start, pastes, queue, taken) && queue != [] && Ordered(p, start, pastes, order, known, taken)
    ensures QueueIs(p, start, pastes, queue[1..], taken + 1)
    ensures Ordered(p, start, pastes, order, known + {queue[0].name}, taken + 1)
  {
    hide QueueIs, InTurn, MentionedEarlier, Stream;
    TakeNext(p, start, pastes, queue, taken);
    InTurnKept(Seen(p, start, pastes, taken), order, queue[0].name);
  }

  lemma MentionItemsAppend(p: Package, pastes: seq<DeclKey>, key: DeclKey)
    ensures MentionItems(p, pastes + [key]) == MentionItems(p, pastes) + Enqueue(Mentions(p, key), key.rel)
  {
    assert (pastes + [key])[..|pastes|] == pastes;
  }

  lemma Grouped(a: seq<Item>, b: seq<Item>, c: seq<Item>)
    ensures a + (b + c) == a + b + c
  {}

  lemma StreamGrows(p: Package, start: Item, pastes: seq<DeclKey>, key: DeclKey)
    ensures Stream(p, start, pastes + [key]) == Stream(p, start, pastes) + Enqueue(Mentions(p, key), key.rel)
    ensures Names(Stream(p, start, pastes)) <= Names(Stream(p, start, pastes + [key]))
  {
    hide Enqueue, Mentions, MentionItems, Names;
    var added := Enqueue(Mentions(p, key), key.rel);
    MentionItemsAppend(p, pastes, key);
    Grouped([start], MentionItems(p, pastes), added);
    NamesConcat(Stream(p, start, pastes), added);
  }

  lemma QueueGrows(p: Package, start: Item, pastes: seq<DeclKey>, queue: seq<Item>, taken: nat, key: DeclKey)
    requires QueueIs(p, start, pastes, queue, taken)
    ensures QueueIs(p, start, pastes + [key], queue + Enqueue(Mentions(p, key), key.rel), taken)
    ensures Seen(p, start, pastes + [key], taken) == Seen(p, start, pastes, taken)
  {
    StreamGrows(p, start, pastes, key);
    hide Stream, Enqueue, Mentions;
    assert Names(Stream(p, start, pastes))[..taken] == Names(Stream(p, start, pastes + [key]))[..taken];
  }

  lemma MentionedByNow(p: Package, start: Item, pastes: seq<DeclKey>, order: seq<string>, name: string, key: DeclKey)
    requires MentionedEarlier(p, start, pastes, order) && name in Names(Stream(p, start, pastes))
    requires order == [] ==> name == start.name
    requires name !in order
    ensures MentionedEarlier(p, start, pastes + [key], order + [name])
  {
    var longer, names := pastes + [key], order + [name];
    NamesConcat([start], MentionItems(p, pastes));
    assert Names([start]) == [start.name];
    forall j | 0 < j < |names| ensures names[j] in Names(MentionItems(p, longer[..j])) {
      if j < |order| {
        assert longer[..j] == pastes[..j];
      } else {
        assert longer[..j] == pastes;
        assert order[0] in order;
      }
    }
  }

  /** A name pasted now was not taken before. */
  lemma PasteKeepsOrdered(p: Package, start: Item, pastes: seq<DeclKey>, order: seq<string>, known: set<string>,
                          queue: seq<Item>, taken: nat, key: DeclKey)
    requires QueueIs(p, start, pastes, queue, taken) && queue != [] && Ordered(p, start, pastes, order, known, taken)
    requires queue[0].name !in known && (order == [] ==> queue[0].name == start.name)
    ensures QueueIs(p, start, pastes + [key], queue[1..] + Enqueue(Mentions(p, key), key.rel), taken + 1)
    ensures Ordered(p, start, pastes + [key], order + [queue[0].name], known + {queue[0].name}, taken + 1)
  {
    hide InTurn, MentionedEarlier, Stream, Enqueue, Mentions;
    var name := queue[0].name;
    TakeNext(p, start, pastes, queue, taken);
    QueueGrows(p, start, pastes, queue[1..], taken + 1, key);
    InTurnKept(Seen(p, start, pastes, taken), order, name);
    assert Seen(p, start, pastes, taken + 1)[taken] == name;
    assert Names(Stream(p, start, pastes))[taken] == name;
    if name in order { InTurnSeen(Seen(p, start, pastes, taken), order); }
    MentionedByNow(p, start, pastes, order, name, key);
  }

  lemma InTurnSeen(seen: seq<string>, order: seq<string>)
    requires InTurn(seen, order)
    ensures forall n :: n in order ==> n in seen
  {}

  /** With the queue empty the pastes are in breadth-first order. */
  lemma OrderedIsBreadthFirst(p: Package, start: Item, pastes: seq<DeclKey>, order: seq<string>, known: set<string>,
                              taken: nat)
    requires QueueIs(p, start, pastes, [], taken) && Ordered(p, start, pastes, order, known, taken)
    requires order != [] && forall i, j :: 0 <= i < j < |order| ==> order[i] != order[j]
    ensures BreadthFirst(p, start, pastes, order)
  {
    var names := Names(MentionItems(p, pastes));
    NamesConcat([start], MentionItems(p, pastes));
    assert Names([start]) == [start.name];
    assert taken == |Stream(p, start, pastes)|;
    assert Seen(p, start, pastes, taken) == [start.name] + names;
    NamesOfMentions(p, pastes);
    hide Before, Mentioned, MentionItems, Names, Local;
    forall j | 0 < j < |order| ensures order[j] in Mentioned(p, pastes[..j]) && order[j] !in GLOBAL_TYPES {
      NamesOfMentions(p, pastes[..j]);
      LocalMembers(Mentioned(p, pastes[..j]), order[j]);
    }
    forall i, j | 0 < i < j < |order| ensures Before(Mentioned(p, pastes), order[i], order[j]) {
      assert Before([start.name] + names, order[i], order[j]);
      BeforeTail(start.name, names, order[i], order[j]);
      LocalOrder(Mentioned(p, pastes), order[i], order[j]);
    }
  }

  lemma BeforeTail(first: string, rest: seq<string>, x: string, y: string)
    requires Before([first] + rest, x, y) && x != first
    ensures Before(rest, x, y)
  {
    assert ([first] + rest)[1..] == rest;
  }

  // ---- Breadth-first order is shortest first ----

  /** A mention chain of `n` items leads from the config type to the name. */
  ghost predicate ChainTo(p: Package, start: Item, name: string, n: nat) {
    exists c: seq<Item> :: IsChain(p, start, c) && |c| == n && c[|c| - 1].name == name
  }

  /** Every chain to `y` is at least as long as some chain to `x`. */
  ghost predicate NoFarther(p: Package, start: Item, x: string, y: string) {
    forall n: nat :: ChainTo(p, start, y, n) ==> exists m: nat :: m <= n && ChainTo(p, start, x, m)
  }

  /** No paste is nearer to the config type than an earlier one. */
  ghost predicate ShortestFirst(p: Package, start: Item, order: seq<string>) {
    forall i, j :: 0 <= i <= j < |order| ==> NoFarther(p, start, order[i], order[j])
  }

  /** The first paste that mentions the name. */
  function FirstBy(p: Package, pastes: seq<DeclKey>, name: string): (i: nat)
    requires name in Mentioned(p, pastes)
    ensures i < |pastes| && name in Mentions(p, pastes[i])
    decreases |pastes|
  {
    var n := |pastes| - 1;
    if name in Mentioned(p, pastes[..n]) then FirstBy(p, pastes[..n], name) else n
  }

  lemma {:induction false} FirstByPrefix(p: Package, pastes: seq<DeclKey>, name: string, k: nat)
    requires k <= |pastes| && name in Mentioned(p, pastes[..k])
    ensures name in Mentioned(p, pastes) && FirstBy(p, pastes, name) < k
    decreases |pastes|
  {
    var n := |pastes| - 1;
    if k <= n {
      assert pastes[..n][..k] == pastes[..k];
      FirstByPrefix(p, pastes[..n], name, k);
    } else {
      assert pastes[..k] == pastes;
    }
  }

  lemma FirstByLeast(p: Package, pastes: seq<DeclKey>, name: string, i: nat)
    requires i < |pastes| && name in Mentions(p, pastes[i])
    ensures name in Mentioned(p, pastes) && FirstBy(p, pastes, name) <= i
  {
    var front := pastes[..i + 1];
    assert front[..i] == pastes[..i];
    FirstByPrefix(p, pastes, name, i + 1);
  }

  lemma {:induction false} BeforeSplit(a: seq<string>, b: seq<string>, x: string, y: string)
    requires Before(a + b, x, y) && y in a
    ensures x in a && Before(a, x, y)
  {
    assert (a + b)[1..] == a[1..] + b && a == [a[0]] + a[1..];
    if a[0] != x { BeforeSplit(a[1..], b, x, y); }
  }

  lemma {:induction false} FirstByFollowsOrder(p: Package, pastes: seq<DeclKey>, x: string, y: string)
    requires x in Mentioned(p, pastes) && y in Mentioned(p, pastes) && Before(Mentioned(p, pastes), x, y)
    ensures FirstBy(p, pastes, x) <= FirstBy(p, pastes, y)
    decreases |pastes|
  {
    var n := |pastes| - 1;
    var front := Mentioned(p, pastes[..n]);
    if y in front {
      BeforeSplit(front, Mentions(p, pastes[n]), x, y);
      FirstByFollowsOrder(p, pastes[..n], x, y);
    }
  }

  /** The number of items on a shortest chain to paste `j`. */
  function Level(p: Package, start: Item, pastes: seq<DeclKey>, order: seq<string>, j: nat): nat
    requires BreadthFirst(p, start, pastes, order) && j < |order|
  {
    if j == 0 then 1
    else
      FirstByPrefix(p, pastes, order[j], j);
      1 + Level(p, start, pastes, order, FirstBy(p, pastes, order[j]))
  }

  lemma {:induction false} LevelsRise(p: Package, start: Item, pastes: seq<DeclKey>, order: seq<string>, i: nat, j: nat)
    requires BreadthFirst(p, start, pastes, order) && i <= j < |order|
    ensures 1 <= Level(p, start, pastes, order, i) <= Level(p, start, pastes, order, j)
    decreases j
  {
    hide BreadthFirst;
    if 0 < i < j {
      AreMentioned(p, start, pastes, order, i, j);
      FirstByFollowsOrder(p, pastes, order[i], order[j]);
      LevelsRise(p, start, pastes, order, FirstBy(p, pastes, order[i]), FirstBy(p, pastes, order[j]));
    }
  }

  lemma AreMentioned(p: Package, start: Item, pastes: seq<DeclKey>, order: seq<string>, i: nat, j: nat)
    requires BreadthFirst(p, start, pastes, order) && 0 < i < j < |order|
    ensures order[i] in Mentioned(p, pastes) && FirstBy(p, pastes, order[i]) < i
    ensures order[j] in Mentioned(p, pastes) && FirstBy(p, pastes, order[j]) < j
    ensures Before(Mentioned(p, pastes), order[i], order[j])
  {
    FirstByPrefix(p, pastes, order[i], i);
    FirstByPrefix(p, pastes, order[j], j);
  }

  /** A reachable name that resolves to a declaration has been pasted with it. */
  lemma {:induction false} ChainIsPasted(p: Package, start: Item, pasted: map<string, DeclKey>,
                                         refs: map<string, TypeRef>, c: seq<Item>)
    requires Unambiguous(p, start) && Faithful(p, start, pasted, refs) && IsChain(p, start, c)
    ensures Resolve(p, c[|c| - 1]).Declared? ==>
      c[|c| - 1].name in pasted && Resolve(p, c[|c| - 1]) == Declared(pasted[c[|c| - 1].name])
    decreases |c|
  {
    hide Unambiguous;
    if |c| > 1 {
      var a, b := c[|c| - 2], c[|c| - 2 + 1];
      assert Leads(p, a, b);
      ChainFront(p, start, c);
      ChainIsPasted(p, start, pasted, refs, c[..|c| - 1]);
      assert Item(b.name, b.from) == b;
    }
  }

  lemma ChainFront(p: Package, start: Item, c: seq<Item>)
    requires IsChain(p, start, c) && |c| > 1
    ensures IsChain(p, start, c[..|c| - 1])
  {
    hide Leads;
    var front := c[..|c| - 1];
    forall i | 0 <= i < |front| - 1 ensures Leads(p, front[i], front[i + 1]) { assert Leads(p, c[i], c[i + 1]); }
  }

  /** Every chain to a paste is at least as long as its level. */
  lemma {:induction false} LevelIsLeast(p: Package, start: Item, pastes: seq<DeclKey>, order: seq<string>,
                                        pasted: map<string, DeclKey>, refs: map<string, TypeRef>, c: seq<Item>, j: nat)
    requires Unambiguous(p, start) && Faithful(p, start, pasted, refs) && Listed(pastes, order, pasted)
    requires BreadthFirst(p, start, pastes, order) && IsChain(p, start, c) && j < |order| && c[|c| - 1].name == order[j]
    ensures Level(p, start, pastes, order, j) <= |c|
    decreases |c|
  {
    if |c| == 1 {
      assert order[0] == order[j];
    } else if j > 0 {
      var front, a, b := c[..|c| - 1], c[|c| - 2], c[|c| - 2 + 1];
      assert Leads(p, a, b);
      ChainFront(p, start, c);
      ChainIsPasted(p, start, pasted, refs, front);
      assert a == front[|front| - 1];
      var i: nat :| i < |order| && order[i] == a.name;
      hide Unambiguous, Faithful, Leads, IsChain;
      LevelIsLeast(p, start, pastes, order, pasted, refs, front, i);
      FirstByLeast(p, pastes, order[j], i);
      hide BreadthFirst;
      LevelsRise(p, start, pastes, order, FirstBy(p, pastes, order[j]), i);
    }
  }

  /** And one of that length exists. */
  lemma {:induction false} LevelIsReached(p: Package, start: Item, pastes: seq<DeclKey>, order: seq<string>,
                                          pasted: map<string, DeclKey>, refs: map<string, TypeRef>, j: nat)
    returns (c: seq<Item>)
    requires Unambiguous(p, start) && Faithful(p, start, pasted, refs) && Listed(pastes, order, pasted)
    requires BreadthFirst(p, start, pastes, order) && j < |order|
    ensures IsChain(p, start, c) && |c| == Level(p, start, pastes, order, j) && c[|c| - 1].name == order[j]
    ensures Resolve(p, c[|c| - 1]) == Declared(pastes[j])
    decreases j
  {
    if j == 0 {
      c := [start];
    } else {
      hide Unambiguous, Faithful, BreadthFirst, Listed, IsChain, Resolve, Leads;
      LevelStep(p, start, pastes, order, pasted, j);
      var i := FirstBy(p, pastes, order[j]);
      var front := LevelIsReached(p, start, pastes, order, pasted, refs, i);
      var b := Item(order[j], pastes[i].rel);
      MentionLeads(p, front[|front| - 1], pastes[i], order[j]);
      c := front + [b];
      ChainExtends(p, start, front, b);
      PastedMention(p, start, pasted, refs, order[i], order[j]);
    }
  }

  lemma LevelStep(p: Package, start: Item, pastes: seq<DeclKey>, order: seq<string>, pasted: map<string, DeclKey>,
                  j: nat)
    requires Listed(pastes, order, pasted) && BreadthFirst(p, start, pastes, order) && 0 < j < |order|
    ensures order[j] in Mentioned(p, pastes) && order[j] !in GLOBAL_TYPES
    ensures
      var i := FirstBy(p, pastes, order[j]);
      && i < j && Level(p, start, pastes, order, j) == 1 + Level(p, start, pastes, order, i)
      && order[i] in pasted && pasted[order[i]] == pastes[i] && order[j] in pasted && pasted[order[j]] == pastes[j]
  {
    FirstByPrefix(p, pastes, order[j], j);
  }

  lemma MentionLeads(p: Package, a: Item, key: DeclKey, name: string)
    requires Resolve(p, a) == Declared(key) && name in Mentions(p, key) && name !in GLOBAL_TYPES
    ensures Leads(p, a, Item(name, key.rel))
  {}

  lemma PastedMention(p: Package, start: Item, pasted: map<string, DeclKey>, refs: map<string, TypeRef>,
                      n: string, m: string)
    requires Faithful(p, start, pasted, refs) && n in pasted && m in Mentions(p, pasted[n]) && m !in GLOBAL_TYPES
    requires m in pasted
    ensures Resolve(p, Item(m, pasted[n].rel)) == Declared(pasted[m])
  {}

  lemma ShorterChain(p: Package, start: Item, pastes: seq<DeclKey>, order: seq<string>, pasted: map<string, DeclKey>,
                     refs: map<string, TypeRef>, c: seq<Item>, i: nat, j: nat) returns (d: seq<Item>)
    requires Unambiguous(p, start) && Faithful(p, start, pasted, refs) && Listed(pastes, order, pasted)
    requires BreadthFirst(p, start, pastes, order) && i <= j < |order|
    requires IsChain(p, start, c) && c[|c| - 1].name == order[j]
    ensures IsChain(p, start, d) && |d| <= |c| && d[|d| - 1].name == order[i]
  {
    hide Unambiguous, Faithful, Listed, BreadthFirst, IsChain, Level, Resolve;
    LevelIsLeast(p, start, pastes, order, pasted, refs, c, j);
    LevelsRise(p, start, pastes, order, i, j);
    d := LevelIsReached(p, start, pastes, order, pasted, refs, i);
  }

  lemma TheChain(p: Package, start: Item, name: string, n: nat) returns (c: seq<Item>)
    requires ChainTo(p, start, name, n)
    ensures IsChain(p, start, c) && |c| == n && c[|c| - 1].name == name
  {
    c :| IsChain(p, start, c) && |c| == n && c[|c| - 1].name == name;
  }

  lemma IsTheChain(p: Package, start: Item, name: string, c: seq<Item>)
    requires IsChain(p, start, c) && c[|c| - 1].name == name
    ensures ChainTo(p, start, name, |c|)
  {}

  lemma PastesShortestFirst(p: Package, start: Item, pastes: seq<DeclKey>, order: seq<string>,
                            pasted: map<string, DeclKey>, refs: map<string, TypeRef>)
    requires Unambiguous(p, start) && Faithful(p, start, pasted, refs) && Listed(pastes, order, pasted)
    requires BreadthFirst(p, start, pastes, order)
    ensures ShortestFirst(p, start, order)
  {
    hide Unambiguous, Faithful, Listed, BreadthFirst, ChainTo, IsChain;
    forall i, j | 0 <= i <= j < |order| ensures NoFarther(p, start, order[i], order[j]) {
      forall n: nat | ChainTo(p, start, order[j], n) ensures exists m: nat :: m <= n && ChainTo(p, start, order[i], m) {
        var c := TheChain(p, start, order[j], n);
        var d := ShorterChain(p, start, pastes, order, pasted, refs, c, i, j);
        IsTheChain(p, start, order[i], d);
      }
    }
  }

  // ---- What a report says ----

  /** Some reachable mention of the name resolves to `r`. */
  ghost predicate ResolvesSomewhere(p: Package, start: Item, name: string, r: Resolution) {
    exists it :: Reachable(p, start, it) && it.name == name && Resolve(p, it) == r
  }

  /** The report is true of the package, and names as the earlier resolution the one the tables keep. */
  ghost predicate Truthful(p: Package, start: Item, pasted: map<string, DeclKey>, refs: map<string, TypeRef>,
                           v: Violation)
  {
    match v
    case NotFound(name, via) => Reachable(p, start, Item(name, via)) && Resolve(p, Item(name, via)).Unresolved?
    case ConfigTypeImported(name, ref) => name == start.name && ResolvesSomewhere(p, start, name, Imported(ref))
    case DeclaredThenImported(name, prior, ref) =>
      name in pasted && pasted[name] == prior && ResolvesSomewhere(p, start, name, Imported(ref))
    case ImportedTwice(name, priorRef, ref) =>
      name in refs && refs[name] == priorRef != ref && ResolvesSomewhere(p, start, name, Imported(ref))
    case DeclaredTwice(name, prior, key) =>
      name in pasted && pasted[name] == prior != key && ResolvesSomewhere(p, start, name, Declared(key))
    case ImportedThenDeclared(name, priorRef, key) =>
      name in refs && refs[name] == priorRef && ResolvesSomewhere(p, start, name, Declared(key))
  }

  ghost predicate AllTruthful(p: Package, start: Item, pasted: map<string, DeclKey>, refs: map<string, TypeRef>,
                              vs: seq<Violation>)
  {
    forall v :: v in vs ==> Truthful(p, start, pasted, refs, v)
  }

  lemma TruthStays(p: Package, start: Item, pasted: map<string, DeclKey>, refs: map<string, TypeRef>,
                   pasted': map<string, DeclKey>, refs': map<string, TypeRef>, vs: seq<Violation>)
    requires AllTruthful(p, start, pasted, refs, vs)
    requires forall n :: n in pasted ==> n in pasted' && pasted'[n] == pasted[n]
    requires forall n :: n in refs ==> n in refs' && refs'[n] == refs[n]
    ensures AllTruthful(p, start, pasted', refs', vs)
  {
    hide Reachable, Resolve, ResolvesSomewhere;
    forall v | v in vs ensures Truthful(p, start, pasted', refs', v) { assert Truthful(p, start, pasted, refs, v); }
  }

  lemma TruthAdded(p: Package, start: Item, pasted: map<string, DeclKey>, refs: map<string, TypeRef>,
                   vs: seq<Violation>, v: Violation)
    requires AllTruthful(p, start, pasted, refs, vs) && Truthful(p, start, pasted, refs, v)
    ensures AllTruthful(p, start, pasted, refs, vs + [v])
  {
    hide Truthful;
  }

  /** The reports are true, the queue is the rest of the stream, and without a report the pastes are in order. */
  ghost predicate Traced(p: Package, start: Item, pastes: seq<DeclKey>, order: seq<string>, t: Tables, taken: nat,
                         vs: seq<Violation>)
  {
    && AllTruthful(p, start, t.pasted, t.refs, vs) && QueueIs(p, start, pastes, t.queue, taken)
    && (vs == [] ==> Ordered(p, start, pastes, order, t.pasted.Keys + t.refs.Keys, taken))
  }

  lemma TracedFirst(p: Package, start: Item)
    ensures Traced(p, start, [], [], Tables(map[], map[], [start], {}), 0, [])
  {
    assert Names(Stream(p, start, []))[..0] == [];
  }

  lemma TracedReport(p: Package, start: Item, pastes: seq<DeclKey>, order: seq<string>, t: Tables, taken: nat,
                     vs: seq<Violation>, v: Violation)
    requires Traced(p, start, pastes, order, t, taken, vs) && t.queue != [] && Truthful(p, start, t.pasted, t.refs, v)
    ensures Traced(p, start, pastes, order, Taken(t), taken + 1, vs + [v])
  {
    hide AllTruthful, QueueIs, Ordered, Truthful;
    TakeNext(p, start, pastes, t.queue, taken);
    TruthAdded(p, start, t.pasted, t.refs, vs, v);
  }

  lemma TracedSame(p: Package, start: Item, pastes: seq<DeclKey>, order: seq<string>, t: Tables, taken: nat,
                   vs: seq<Violation>)
    requires Traced(p, start, pastes, order, t, taken, vs) && t.queue != [] && t.queue[0].name in t.pasted
    ensures Traced(p, start, pastes, order, Taken(t), taken + 1, vs)
  {
    hide AllTruthful, QueueIs, Ordered;
    TakeNext(p, start, pastes, t.queue, taken);
    var known := t.pasted.Keys + t.refs.Keys;
    if vs == [] { TakeKeepsOrdered(p, start, pastes, order, known, t.queue, taken); }
    assert known + {t.queue[0].name} == known;
  }

  lemma TracedLink(p: Package, start: Item, pastes: seq<DeclKey>, order: seq<string>, t: Tables, taken: nat,
                   vs: seq<Violation>, ref: TypeRef)
    requires Traced(p, start, pastes, order, t, taken, vs) && t.queue != []
    requires t.queue[0].name in t.refs ==> t.refs[t.queue[0].name] == ref
    ensures Traced(p, start, pastes, order, WithRef(Taken(t), t.queue[0].name, ref), taken + 1, vs)
  {
    hide AllTruthful, QueueIs, Ordered;
    var name := t.queue[0].name;
    TakeNext(p, start, pastes, t.queue, taken);
    TruthStays(p, start, t.pasted, t.refs, t.pasted, t.refs[name := ref], vs);
    if vs == [] { TakeKeepsOrdered(p, start, pastes, order, t.pasted.Keys + t.refs.Keys, t.queue, taken); }
    assert t.pasted.Keys + t.refs.Keys + {name} == t.pasted.Keys + t.refs[name := ref].Keys;
  }

  lemma TracedPaste(p: Package, start: Item, pastes: seq<DeclKey>, order: seq<string>, t: Tables, taken: nat,
                    vs: seq<Violation>, key: DeclKey)
    requires Traced(p, start, pastes, order, t, taken, vs) && t.queue != []
    requires t.queue[0].name !in t.pasted && t.queue[0].name !in t.refs
    requires vs == [] && order == [] ==> t.queue[0].name == start.name
    ensures
      var name := t.queue[0].name;
      Traced(p, start, pastes + [key], order + [name], WithPaste(p, Taken(t), name, key), taken + 1, vs)
  {
    hide AllTruthful, QueueIs, Ordered, Enqueue, Mentions;
    var name := t.queue[0].name;
    TakeNext(p, start, pastes, t.queue, taken);
    QueueGrows(p, start, pastes, t.queue[1..], taken + 1, key);
    TruthStays(p, start, t.pasted, t.refs, t.pasted[name := key], t.refs, vs);
    if vs == [] { PasteKeepsOrdered(p, start, pastes, order, t.pasted.Keys + t.refs.Keys, t.queue, taken, key); }
    assert t.pasted.Keys + t.refs.Keys + {name} == t.pasted[name := key].Keys + t.refs.Keys;
  }

  lemma TracedOrder(p: Package, start: Item, pastes: seq<DeclKey>, order: seq<string>, t: Tables, taken: nat)
    requires Traced(p, start, pastes, order, t, taken, []) && t.queue == [] && Listed(pastes, order, t.pasted)
    requires pastes != []
    ensures BreadthFirst(p, start, pastes, order)
  {
    OrderedIsBreadthFirst(p, start, pastes, order, t.pasted.Keys + t.refs.Keys, taken);
  }

  lemma QueuedResolves(p: Package, start: Item, t: Tables, clean: bool)
    requires Good(p, start, t, clean) && t.queue != []
    ensures Reachable(p, start, t.queue[0])
    ensures ResolvesSomewhere(p, start, t.queue[0].name, Resolve(p, t.queue[0]))
  {
    hide Reachable;
    assert t.queue[0] in t.queue;
  }

  // ---- One iteration ----

  /** Everything an iteration updates. */
  datatype State = State(t: Tables, pastes: seq<DeclKey>, order: seq<string>, taken: nat, violations: seq<Violation>)

  /** Something has been reported, or the config type's own declaration was pasted first, or its turn is now. */
  predicate Opened(p: Package, start: Item, s: State) {
    || (s.violations == [] ==> s.pastes != [] && Resolve(p, start) == Declared(s.pastes[0]))
    || (s.pastes == [] && s.t.queue != [] && s.t.queue[0] == start)
  }

  ghost predicate Consistent(p: Package, start: Item, s: State) {
    && Good(p, start, s.t, s.violations == []) && Listed(s.pastes, s.order, s.t.pasted)
    && Opened(p, start, s) && Traced(p, start, s.pastes, s.order, s.t, s.taken, s.violations)
  }

  function AfterReport(s: State, v: Violation): State
    requires s.t.queue != []
  {
    State(Taken(s.t), s.pastes, s.order, s.taken + 1, s.violations + [v])
  }

  function AfterSame(s: State): State
    requires s.t.queue != []
  {
    State(Taken(s.t), s.pastes, s.order, s.taken + 1, s.violations)
  }

  function AfterLink(s: State, ref: TypeRef): State
    requires s.t.queue != []
  {
    AfterSame(s).(t := WithRef(Taken(s.t), s.t.queue[0].name, ref))
  }

  function AfterPaste(p: Package, s: State, key: DeclKey): State
    requires s.t.queue != []
  {
    var name := s.t.queue[0].name;
    State(WithPaste(p, Taken(s.t), name, key), s.pastes + [key], s.order + [name], s.taken + 1, s.violations)
  }

  lemma GoodFirst(p: Package, start: Item)
    ensures Good(p, start, Tables(map[], map[], [start], {}), true)
  {
    ReachStart(p, start);
    hide Reachable, Resolve;
  }

  lemma FirstConsistent(p: Package, start: Item)
    ensures Consistent(p, start, State(Tables(map[], map[], [start], {}), [], [], 0, []))
  {
    hide Traced, Good;
    GoodFirst(p, start);
    TracedFirst(p, start);
  }

  /** The report the source makes for an item that conflicts. */
  predicate IsReportOf(p: Package, start: Item, t: Tables, it: Item, v: Violation) {
    var name, r := it.name, Resolve(p, it);
    match v
    case NotFound(n, via) => r.Unresolved? && it == Item(n, via)
    case ConfigTypeImported(n, ref) => n == name && r == Imported(ref) && name == start.name
    case DeclaredThenImported(n, prior, ref) =>
      n == name && r == Imported(ref) && name != start.name && name in t.pasted && t.pasted[name] == prior
    case ImportedTwice(n, prior, ref) =>
      n == name && r == Imported(ref) && name !in t.pasted && name in t.refs && t.refs[name] == prior != ref
    case DeclaredTwice(n, prior, key) =>
      n == name && r == Declared(key) && name in t.pasted && t.pasted[name] == prior != key
    case ImportedThenDeclared(n, prior, key) =>
      n == name && r == Declared(key) && name !in t.pasted && name in t.refs && t.refs[name] == prior
  }

  lemma ReportIsTruthful(p: Package, start: Item, t: Tables, clean: bool, v: Violation)
    requires Good(p, start, t, clean) && t.queue != [] && IsReportOf(p, start, t, t.queue[0], v)
    ensures Truthful(p, start, t.pasted, t.refs, v) && Conflicts(p, start, t, t.queue[0])
  {
    hide Good, Reachable, Resolve, ResolvesSomewhere;
    QueuedResolves(p, start, t, clean);
  }

  lemma ReportConsistent(p: Package, start: Item, s: State, v: Violation)
    requires Consistent(p, start, s) && s.t.queue != [] && IsReportOf(p, start, s.t, s.t.queue[0], v)
    ensures Consistent(p, start, AfterReport(s, v))
  {
    hide Good, Listed, Traced, IsReportOf, Truthful, Conflicts, Resolve, Unambiguous;
    assert Opened(p, start, AfterReport(s, v));
    hide Opened;
    ReportIsTruthful(p, start, s.t, s.violations == [], v);
    ReportKeeps(p, start, s.t, s.violations == []);
    TracedReport(p, start, s.pastes, s.order, s.t, s.taken, s.violations, v);
    TakenTables(s.t);
    hide Taken;
  }

  lemma TakenTables(t: Tables)
    requires t.queue != []
    ensures Taken(t).pasted == t.pasted && Taken(t).refs == t.refs
  {}

  /** Only the first item finds nothing pasted as long as nothing was reported. */
  lemma OpenedBefore(p: Package, start: Item, s: State)
    requires Consistent(p, start, s) && s.t.queue != [] && (s.t.queue[0] != start || s.pastes != [])
    ensures Opened(p, start, AfterSame(s))
  {
    hide Good, Listed, Traced;
  }

  lemma FirstIsStart(p: Package, start: Item, s: State)
    requires Consistent(p, start, s) && s.t.queue != [] && s.pastes == []
    ensures s.violations == [] ==> s.t.queue[0] == start
    ensures s.t.pasted == map[] && s.order == []
  {
    hide Good, Traced;
  }

  lemma SameConsistent(p: Package, start: Item, s: State, key: DeclKey)
    requires Consistent(p, start, s) && s.t.queue != [] && Resolve(p, s.t.queue[0]) == Declared(key)
    requires s.t.queue[0].name in s.t.pasted && s.t.pasted[s.t.queue[0].name] == key
    ensures Consistent(p, start, AfterSame(s))
  {
    if s.pastes == [] { FirstIsStart(p, start, s); }
    OpenedBefore(p, start, s);
    hide Good, Listed, Traced, Resolve, Opened;
    SameKeeps(p, start, s.t, s.violations == [], key);
    TracedSame(p, start, s.pastes, s.order, s.t, s.taken, s.violations);
    TakenTables(s.t);
    hide Taken;
  }

  lemma LinkConsistent(p: Package, start: Item, s: State, ref: TypeRef)
    requires Consistent(p, start, s) && s.t.queue != [] && Resolve(p, s.t.queue[0]) == Imported(ref)
    requires !Conflicts(p, start, s.t, s.t.queue[0])
    ensures Consistent(p, start, AfterLink(s, ref))
  {
    OpenedBefore(p, start, s);
    assert Opened(p, start, AfterLink(s, ref));
    assert s.t.queue[0].name in s.t.refs ==> s.t.refs[s.t.queue[0].name] == ref;
    hide Good, Listed, Traced, Resolve, Opened, Conflicts;
    LinkKeeps(p, start, s.t, s.violations == [], ref);
    TracedLink(p, start, s.pastes, s.order, s.t, s.taken, s.violations, ref);
    assert WithRef(Taken(s.t), s.t.queue[0].name, ref).pasted == s.t.pasted;
    hide Taken, WithRef;
  }

  lemma PasteReady(p: Package, start: Item, s: State, key: DeclKey)
    requires Consistent(p, start, s) && s.t.queue != [] && Resolve(p, s.t.queue[0]) == Declared(key)
    requires !Conflicts(p, start, s.t, s.t.queue[0]) && s.t.queue[0].name !in s.t.pasted
    ensures s.t.queue[0].name !in s.t.refs && |s.order| == |s.pastes|
    ensures s.violations == [] && s.pastes == [] ==> s.t.queue[0].name == start.name
    ensures Opened(p, start, AfterPaste(p, s, key))
  {
    hide Good, Traced, Resolve;
  }

  lemma PasteConsistent(p: Package, start: Item, s: State, key: DeclKey)
    requires Consistent(p, start, s) && s.t.queue != [] && Resolve(p, s.t.queue[0]) == Declared(key)
    requires !Conflicts(p, start, s.t, s.t.queue[0]) && s.t.queue[0].name !in s.t.pasted
    ensures Consistent(p, start, AfterPaste(p, s, key))
    ensures NamesLeft(p, start, AfterPaste(p, s, key).t) < NamesLeft(p, start, s.t)
  {
    hide Good, Listed, Traced, Opened, Conflicts, Resolve, NamesLeft, WithPaste, Taken;
    PasteReady(p, start, s, key);
    ListOne(s.pastes, s.order, s.t.pasted, s.t.queue[0].name, key);
    var clean := s.violations == [];
    PasteOneKeeps(p, start, s.t, clean, key);
    GoodIsBounded(p, start, s.t, clean);
    PasteUsesName(p, start, s.t, key);
    TracedPaste(p, start, s.pastes, s.order, s.t, s.taken, s.violations, key);
    PastedTable(p, s.t, key);
  }

  lemma PastedTable(p: Package, t: Tables, key: DeclKey)
    requires t.queue != []
    ensures WithPaste(p, Taken(t), t.queue[0].name, key).pasted == t.pasted[t.queue[0].name := key]
  {}

  class Closure {
    const p: Package
    const start: Item
    var pastes: seq<DeclKey>
    var refs: map<string, TypeRef>
    var pastedDeclByName: map<string, DeclKey>
    var queue: seq<Item>
    var violations: seq<Violation>
    ghost var processed: set<Item>
    /** The names of the pastes, in paste order. */
    ghost var order: seq<string>
    /** How many items have been taken from the queue. */
    ghost var taken: nat

    ghost function View(): Tables
      reads this
    {
      Tables(pastedDeclByName, refs, queue, processed)
    }

    ghost function Now(): State
      reads this
    {
      State(View(), pastes, order, taken, violations)
    }

    ghost predicate Valid()
      reads this
    {
      Consistent(p, start, Now())
    }

    constructor (p: Package, typeName: string, entry: string)
      ensures this.p == p && start == Item(typeName, entry) && Valid()
    {
      this.p := p;
      start := Item(typeName, entry);
      pastes := [];
      refs := map[];
      pastedDeclByName := map[];
      queue := [Item(typeName, entry)];
      violations := [];
      processed := {};
      order := [];
      taken := 0;
      new;
      hide Consistent;
      FirstConsistent(p, start);
    }

    /**
     * Empties the worklist. It records no violation exactly when the reachable closure is unambiguous, and then
     * every name a pasted declaration mentions resolves to the paste or the import recorded for that name, and the
     * first paste is the declaration the config type resolves to. The pastes then stand in breadth-first order, the
     * nearest to the config type first. Every violation recorded is true of the package.
     */
    method Run()
      requires Valid()
      modifies this
      ensures Valid() && queue == []
      ensures violations == [] <==> Unambiguous(p, start)
      ensures violations == [] ==> Faithful(p, start, pastedDeclByName, refs)
      ensures violations == [] ==> pastes != [] && Resolve(p, start) == Declared(pastes[0])
      ensures violations == [] ==> Listed(pastes, order, pastedDeclByName) && BreadthFirst(p, start, pastes, order)
      ensures violations == [] ==> ShortestFirst(p, start, order)
      ensures AllTruthful(p, start, pastedDeclByName, refs, violations)
    {
      hide Consistent, Unambiguous, Faithful, Listed, BreadthFirst, ShortestFirst, AllTruthful, NamesLeft;
      while |queue| > 0
        invariant Valid()
        decreases NamesLeft(p, start, View()), |queue|
      {
        Step();
      }
      FinishedRun(p, start, Now());
    }

    /** One iteration: resolves the first queued name and pastes, links or reports it. */
    method Step()
      requires Valid() && queue != []
      modifies this
      ensures Valid() && old(violations) <= violations
      ensures NamesLeft(p, start, View()) < old(NamesLeft(p, start, View()))
              || (NamesLeft(p, start, View()) == old(NamesLeft(p, start, View())) && |queue| < old(|queue|))
    {
      hide Consistent, NamesLeft, Enqueue, Mentions;
      ghost var before := Now();
      var item := queue[0];
      SameNamesLeft(p, start, before.t, Taken(before.t));
      queue := queue[1..];
      processed := processed + {item};
      taken := taken + 1;
      match Resolve(p, item) {
        case Unresolved =>
          ReportConsistent(p, start, before, NotFound(item.name, item.from));
          violations := violations + [NotFound(item.name, item.from)];
          assert Now() == AfterReport(before, NotFound(item.name, item.from));
        case Imported(ref) => StepImport(item, ref, before);
        case Declared(key) => StepDeclaration(item, key, before);
      }
    }

    method StepImport(item: Item, ref: TypeRef, ghost before: State)
      requires Consistent(p, start, before) && before.t.queue != [] && item == before.t.queue[0]
      requires Resolve(p, item) == Imported(ref) && Now() == AfterSame(before)
      modifies this
      ensures Valid() && old(violations) <= violations && queue == old(queue)
      ensures NamesLeft(p, start, View()) == NamesLeft(p, start, before.t)
    {
      hide Consistent, NamesLeft, Resolve;
      if item.name == start.name {
        Report(ConfigTypeImported(item.name, ref), before);
      } else if item.name in pastedDeclByName {
        Report(DeclaredThenImported(item.name, pastedDeclByName[item.name], ref), before);
      } else if item.name in refs && refs[item.name] != ref {
        Report(ImportedTwice(item.name, refs[item.name], ref), before);
      } else {
        LinkConsistent(p, start, before, ref);
        refs := refs[item.name := ref];
        assert Now() == AfterLink(before, ref);
      }
      SameNamesLeft(p, start, before.t, View());
    }

    method StepDeclaration(item: Item, key: DeclKey, ghost before: State)
      requires Consistent(p, start, before) && before.t.queue != [] && item == before.t.queue[0]
      requires Resolve(p, item) == Declared(key) && Now() == AfterSame(before)
      modifies this
      ensures Valid() && old(violations) <= violations
      ensures NamesLeft(p, start, View()) < NamesLeft(p, start, before.t)
              || (NamesLeft(p, start, View()) == NamesLeft(p, start, before.t) && queue == old(queue))
    {
      hide Consistent, NamesLeft, Resolve, Enqueue, Mentions;
      SameNamesLeft(p, start, before.t, View());
      if item.name in pastedDeclByName && pastedDeclByName[item.name] == key {
        SameConsistent(p, start, before, key);
        return;
      }
      if item.name in pastedDeclByName {
        Report(DeclaredTwice(item.name, pastedDeclByName[item.name], key), before);
      } else if item.name in refs {
        Report(ImportedThenDeclared(item.name, refs[item.name], key), before);
      } else {
        PasteConsistent(p, start, before, key);
        pastedDeclByName := pastedDeclByName[item.name := key];
        pastes := pastes + [key];
        order := order + [item.name];
        queue := queue + Enqueue(Mentions(p, key), key.rel);
        assert Now() == AfterPaste(p, before, key);
      }
    }

    /** `violations.push`. */
    method Report(v: Violation, ghost before: State)
      requires Consistent(p, start, before) && before.t.queue != [] && Now() == AfterSame(before)
      requires IsReportOf(p, start, before.t, before.t.queue[0], v)
      modifies this`violations
      ensures Valid() && violations == old(violations) + [v]
    {
      hide Consistent, IsReportOf;
      ReportConsistent(p, start, before, v);
      violations := violations + [v];
      assert Now() == AfterReport(before, v);
    }
  }

  lemma FinishedRun(p: Package, start: Item, s: State)
    requires Consistent(p, start, s) && s.t.queue == []
    ensures s.violations == [] <==> Unambiguous(p, start)
    ensures s.violations == [] ==> Faithful(p, start, s.t.pasted, s.t.refs)
    ensures s.violations == [] ==> s.pastes != [] && Resolve(p, start) == Declared(s.pastes[0])
    ensures s.violations == [] ==> Listed(s.pastes, s.order, s.t.pasted) && BreadthFirst(p, start, s.pastes, s.order)
    ensures s.violations == [] ==> ShortestFirst(p, start, s.order)
    ensures AllTruthful(p, start, s.t.pasted, s.t.refs, s.violations)
  {
    hide OnlyReachable, Complete, NamesBounded, Unambiguous, AllRecorded, Listed, Faithful, BreadthFirst, ShortestFirst;
    hide AllTruthful, QueueIs, Ordered, Resolve;
    if s.violations == [] {
      RecordedIsUnambiguous(p, start, s.t);
      FinishedIsFaithful(p, start, s.t);
      TracedOrder(p, start, s.pastes, s.order, s.t, s.taken);
      PastesShortestFirst(p, start, s.pastes, s.order, s.t.pasted, s.t.refs);
    }
  }

  lemma SameNamesLeft(p: Package, start: Item, t: Tables, t': Tables)
    requires t.pasted == t'.pasted
    ensures NamesLeft(p, start, t) == NamesLeft(p, start, t')
  {}

  lemma MentionsAreNames(p: Package, start: Item, key: DeclKey)
    ensures forall m :: m in Mentions(p, key) ==> m in AllNames(p, start)
  {}
}
