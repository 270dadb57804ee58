/** Dependency-layered ordering of workspace packages (scripts/package-graph.ts). */
module PackageGraph {
  import opened Numbers
  import opened Wrappers
  import opened Digraph
  import opened Text

  datatype Package = Package(short: string, name: string, group: string, rel: string, deps: seq<string>)

  /** The message of the thrown error names the packages that could not be placed. */
  datatype SortError = CycleAmong(shorts: seq<string>)

  // ---- Comparison ----

  /** `localeCompare`: some fixed total preorder on strings, as the host's locale defines it. */
  type Collation = (string, string) -> int

  ghost predicate IsCollation(c: Collation) {
    && (forall a, b :: c(a, b) <= 0 <==> c(b, a) >= 0)
    && (forall a, b, d :: c(a, b) <= 0 && c(b, d) <= 0 ==> c(a, d) <= 0)
  }

  function Norm(group: string, groupOrder: seq<string>): int {
    var i := IndexOf(groupOrder, group);
    if i == -1 then MAX_SAFE_INTEGER else i
  }

  function Compare(a: Package, b: Package, groupOrder: seq<string>, collate: Collation): int {
    var byOrder := Norm(a.group, groupOrder) - Norm(b.group, groupOrder);
    if byOrder != 0 then byOrder
    else if collate(a.group, b.group) != 0 then collate(a.group, b.group)
    else collate(a.short, b.short)
  }

  lemma CompareFlips(a: Package, b: Package, groupOrder: seq<string>, collate: Collation)
    requires IsCollation(collate)
    ensures Compare(a, b, groupOrder, collate) <= 0 <==> Compare(b, a, groupOrder, collate) >= 0
  {
    assert collate(a.group, b.group) <= 0 <==> collate(b.group, a.group) >= 0;
    assert collate(b.group, a.group) <= 0 <==> collate(a.group, b.group) >= 0;
    assert collate(a.short, b.short) <= 0 <==> collate(b.short, a.short) >= 0;
  }

  lemma CompareTransitive(a: Package, b: Package, c: Package, groupOrder: seq<string>, collate: Collation)
    requires IsCollation(collate)
    requires Compare(a, b, groupOrder, collate) <= 0 && Compare(b, c, groupOrder, collate) <= 0
    ensures Compare(a, c, groupOrder, collate) <= 0
  {
    var na, nb, nc := Norm(a.group, groupOrder), Norm(b.group, groupOrder), Norm(c.group, groupOrder);
    if na == nb == nc {
      assert collate(a.group, b.group) <= 0 && collate(b.group, c.group) <= 0;
      assert collate(a.group, c.group) <= 0;
      if collate(a.group, c.group) == 0 {
        assert collate(c.group, a.group) <= 0;
        assert collate(c.group, b.group) <= 0 && collate(b.group, a.group) <= 0;
        assert collate(a.short, b.short) <= 0 && collate(b.short, c.short) <= 0;
      }
    }
  }

  /** The group order lists `group`, for the first time at position `m`. */
  predicate ListedAt(groupOrder: seq<string>, group: string, m: nat) {
    m < |groupOrder| && groupOrder[m] == group && group !in groupOrder[..m]
  }

  /**
   * `a` may stand before `b` at one depth: a group listed earlier comes first, a listed group before an unlisted one,
   * then the collation of the groups, of the short names, and last the input order decide.
   */
  ghost predicate MayStandBefore(a: Package, b: Package, ps: seq<Package>, groupOrder: seq<string>, collate: Collation)
  {
    && (forall m: nat, n: nat :: ListedAt(groupOrder, a.group, m) && ListedAt(groupOrder, b.group, n) ==> m <= n)
    && (b.group in groupOrder && |groupOrder| <= MAX_SAFE_INTEGER ==> a.group in groupOrder)
    && (a.group == b.group || (a.group !in groupOrder && b.group !in groupOrder) ==>
        && collate(a.group, b.group) <= 0
        && (collate(a.group, b.group) == 0 ==> collate(a.short, b.short) <= 0)
        && (collate(a.group, b.group) == 0 && collate(a.short, b.short) == 0 ==> Precedes(ps, a, b)))
  }

  lemma SoonerMayStandBefore(a: Package, b: Package, ps: seq<Package>, groupOrder: seq<string>, collate: Collation)
    requires IsCollation(collate) && Sooner(a, b, ps, groupOrder, collate)
    ensures MayStandBefore(a, b, ps, groupOrder, collate)
  {
    hide Precedes;
    assert collate(a.group, a.group) == 0;
    forall m: nat, n: nat | ListedAt(groupOrder, a.group, m) && ListedAt(groupOrder, b.group, n) ensures m <= n {
      ListedOnce(groupOrder, a.group, m);
      ListedOnce(groupOrder, b.group, n);
    }
  }

  lemma ListedOnce(groupOrder: seq<string>, group: string, m: nat)
    requires ListedAt(groupOrder, group, m)
    ensures IndexOf(groupOrder, group) == m
  {
    assert forall k :: 0 <= k < m ==> groupOrder[k] in groupOrder[..m];
    assert forall i :: m < i < |groupOrder| ==> group in groupOrder[..i];
  }

  // ---- Sorting ----

  /** `a` comes before `b` in the input. */
  predicate Precedes(ps: seq<Package>, a: Package, b: Package) {
    exists i, j :: 0 <= i < j < |ps| && ps[i] == a && ps[j] == b
  }

  /** `a` belongs before `b`: it compares smaller, or equal and earlier in the input `ps`. */
  predicate Sooner(a: Package, b: Package, ps: seq<Package>, groupOrder: seq<string>, collate: Collation) {
    var c := Compare(a, b, groupOrder, collate);
    c < 0 || (c == 0 && Precedes(ps, a, b))
  }

  predicate SortedFrom(ps: seq<Package>, s: seq<Package>, groupOrder: seq<string>, collate: Collation) {
    forall i, j :: 0 <= i < j < |s| ==> Sooner(s[i], s[j], ps, groupOrder, collate)
  }

  lemma SoonerInLonger(a: Package, b: Package, p: Package, ps: seq<Package>, groupOrder: seq<string>,
                       collate: Collation)
    requires Sooner(a, b, ps, groupOrder, collate)
    ensures Sooner(a, b, [p] + ps, groupOrder, collate)
  {
    if Precedes(ps, a, b) {
      var i, j :| 0 <= i < j < |ps| && ps[i] == a && ps[j] == b;
      assert ([p] + ps)[i + 1] == a && ([p] + ps)[j + 1] == b;
    }
  }

  function Insert(p: Package, s: seq<Package>, groupOrder: seq<string>, collate: Collation): seq<Package> {
    if s == [] then [p]
    else if Compare(p, s[0], groupOrder, collate) <= 0 then [p] + s
    else [s[0]] + Insert(p, s[1..], groupOrder, collate)
  }

  /** `Array.prototype.sort`, which is stable: an element goes in front of its later equals. */
  function StableSort(s: seq<Package>, groupOrder: seq<string>, collate: Collation): seq<Package> {
    if s == [] then [] else Insert(s[0], StableSort(s[1..], groupOrder, collate), groupOrder, collate)
  }

  lemma FrontIsSooner(p: Package, q: Package, ps: seq<Package>, groupOrder: seq<string>, collate: Collation)
    requires q in ps && Compare(p, q, groupOrder, collate) <= 0
    ensures Sooner(p, q, [p] + ps, groupOrder, collate)
  {
    var j :| 0 <= j < |ps| && ps[j] == q;
    assert ([p] + ps)[0] == p && ([p] + ps)[j + 1] == q;
  }

  lemma InsertFront(p: Package, s: seq<Package>, ps: seq<Package>, groupOrder: seq<string>, collate: Collation)
    requires IsCollation(collate) && SortedFrom(ps, s, groupOrder, collate) && forall q :: q in s ==> q in ps
    requires s != [] ==> Compare(p, s[0], groupOrder, collate) <= 0
    ensures SortedFrom([p] + ps, [p] + s, groupOrder, collate)
  {
    forall i, j | 0 <= i < j < |s| ensures Sooner(s[i], s[j], [p] + ps, groupOrder, collate) {
      SoonerInLonger(s[i], s[j], p, ps, groupOrder, collate);
    }
    forall j | 0 <= j < |s| ensures Sooner(p, s[j], [p] + ps, groupOrder, collate) {
      if j > 0 {
        assert Sooner(s[0], s[j], ps, groupOrder, collate);
        CompareTransitive(p, s[0], s[j], groupOrder, collate);
      }
      FrontIsSooner(p, s[j], ps, groupOrder, collate);
    }
    hide IsCollation, Sooner;
  }

  lemma HeadStaysFirst(p: Package, s: seq<Package>, rest: seq<Package>, ps: seq<Package>, groupOrder: seq<string>,
                       collate: Collation)
    requires s != [] && SortedFrom(ps, s, groupOrder, collate) && Sooner(s[0], p, [p] + ps, groupOrder, collate)
    requires SortedFrom([p] + ps, rest, groupOrder, collate) && multiset(rest) == multiset(s[1..]) + multiset{p}
    ensures SortedFrom([p] + ps, [s[0]] + rest, groupOrder, collate)
  {
    hide Sooner;
    forall j | 0 <= j < |rest| ensures Sooner(s[0], rest[j], [p] + ps, groupOrder, collate) {
      assert rest[j] in multiset(rest);
      if rest[j] != p {
        assert rest[j] in multiset(s[1..]);
        var k :| 0 <= k < |s[1..]| && s[1..][k] == rest[j];
        assert s[k + 1] == rest[j];
        SoonerInLonger(s[0], rest[j], p, ps, groupOrder, collate);
      }
    }
  }

  lemma {:induction false} InsertPermutes(p: Package, s: seq<Package>, groupOrder: seq<string>, collate: Collation)
    ensures multiset(Insert(p, s, groupOrder, collate)) == multiset(s) + multiset{p}
  {
    hide Compare;
    if s != [] {
      assert s == [s[0]] + s[1..];
      if Compare(p, s[0], groupOrder, collate) > 0 { InsertPermutes(p, s[1..], groupOrder, collate); }
    }
  }

  lemma {:induction false} InsertSorts(p: Package, s: seq<Package>, ps: seq<Package>, groupOrder: seq<string>,
                                       collate: Collation)
    requires IsCollation(collate) && SortedFrom(ps, s, groupOrder, collate) && forall q :: q in s ==> q in ps
    ensures SortedFrom([p] + ps, Insert(p, s, groupOrder, collate), groupOrder, collate)
    ensures multiset(Insert(p, s, groupOrder, collate)) == multiset(s) + multiset{p}
  {
    hide IsCollation, SortedFrom, Sooner, Compare;
    InsertPermutes(p, s, groupOrder, collate);
    if s == [] || Compare(p, s[0], groupOrder, collate) <= 0 {
      InsertFront(p, s, ps, groupOrder, collate);
      assert [p] + s == Insert(p, s, groupOrder, collate);
    } else {
      LaterIsSooner(p, s[0], ps, groupOrder, collate);
      SortedTail(s, ps, groupOrder, collate);
      InsertSorts(p, s[1..], ps, groupOrder, collate);
      HeadStaysFirst(p, s, Insert(p, s[1..], groupOrder, collate), ps, groupOrder, collate);
    }
  }

  lemma LaterIsSooner(p: Package, q: Package, ps: seq<Package>, groupOrder: seq<string>, collate: Collation)
    requires IsCollation(collate) && Compare(p, q, groupOrder, collate) > 0
    ensures Sooner(q, p, [p] + ps, groupOrder, collate)
  {
    CompareFlips(p, q, groupOrder, collate);
    CompareFlips(q, p, groupOrder, collate);
    hide Compare, IsCollation, Precedes;
  }

  lemma SortedTail(s: seq<Package>, ps: seq<Package>, groupOrder: seq<string>, collate: Collation)
    requires s != [] && SortedFrom(ps, s, groupOrder, collate)
    ensures SortedFrom(ps, s[1..], groupOrder, collate)
  {
    hide Sooner;
  }

  lemma {:induction false} StableSortSorts(s: seq<Package>, groupOrder: seq<string>, collate: Collation)
    requires IsCollation(collate)
    ensures SortedFrom(s, StableSort(s, groupOrder, collate), groupOrder, collate)
    ensures multiset(StableSort(s, groupOrder, collate)) == multiset(s)
  {
    if s != [] {
      hide IsCollation, SortedFrom;
      var rest := StableSort(s[1..], groupOrder, collate);
      StableSortSorts(s[1..], groupOrder, collate);
      forall q | q in rest ensures q in s[1..] { assert q in multiset(rest); }
      assert s == [s[0]] + s[1..];
      InsertSorts(s[0], rest, s[1..], groupOrder, collate);
    } else {
      hide IsCollation;
    }
  }

  // ---- The map of remaining packages ----

  predicate DistinctShorts(ps: seq<Package>) {
    forall i, j :: 0 <= i < j < |ps| ==> ps[i].short != ps[j].short
  }

  /** `Map.set`: an existing key keeps its position and takes the new value. */
  function Put(entries: seq<Package>, p: Package): (r: seq<Package>)
    ensures forall q :: q in r ==> q == p || q in entries
    ensures p in r
  {
    if entries == [] then [p]
    else if entries[0].short == p.short then [p] + entries[1..]
    else [entries[0]] + Put(entries[1..], p)
  }

  /** The values of `new Map(packages.map(pkg => [pkg.short, pkg]))`, in iteration order. */
  function MapValues(packages: seq<Package>): seq<Package> {
    if packages == [] then []
    else Put(MapValues(packages[..|packages| - 1]), packages[|packages| - 1])
  }

  lemma DistinctCons(p: Package, ps: seq<Package>)
    ensures DistinctShorts([p] + ps) <==> DistinctShorts(ps) && forall q :: q in ps ==> q.short != p.short
  {
    if DistinctShorts([p] + ps) { DistinctTail(p, ps); }
    if DistinctShorts(ps) && forall q :: q in ps ==> q.short != p.short { DistinctHead(p, ps); }
  }

  lemma DistinctTail(p: Package, ps: seq<Package>)
    requires DistinctShorts([p] + ps)
    ensures DistinctShorts(ps) && forall q :: q in ps ==> q.short != p.short
  {
    var all := [p] + ps;
    assert all[0] == p;
    forall i, j | 0 <= i < j < |ps| ensures ps[i].short != ps[j].short { assert all[i + 1].short != all[j + 1].short; }
    forall q | q in ps ensures q.short != p.short {
      var i :| 0 <= i < |ps| && ps[i] == q;
      assert all[0].short != all[i + 1].short;
    }
  }

  lemma DistinctHead(p: Package, ps: seq<Package>)
    requires DistinctShorts(ps) && forall q :: q in ps ==> q.short != p.short
    ensures DistinctShorts([p] + ps)
  {
    var all := [p] + ps;
    forall i, j | 0 <= i < j < |all| ensures all[i].short != all[j].short {
      assert all[j] == ps[j - 1];
      if i > 0 { assert all[i] == ps[i - 1]; }
    }
  }

  lemma {:induction false} PutKeepsDistinct(entries: seq<Package>, p: Package)
    requires DistinctShorts(entries)
    ensures DistinctShorts(Put(entries, p))
    ensures (forall q :: q in entries ==> q.short != p.short) ==> Put(entries, p) == entries + [p]
  {
    if entries == [] {
    } else {
      var e, rest := entries[0], entries[1..];
      assert entries == [e] + rest;
      DistinctCons(e, rest);
      hide DistinctShorts;
      if e.short == p.short {
        assert e in entries;
        DistinctCons(p, rest);
      } else {
        PutKeepsDistinct(rest, p);
        DistinctCons(e, Put(rest, p));
        assert entries + [p] == [e] + (rest + [p]);
      }
    }
  }

  /** Putting a package replaces the one with its short name and keeps the others. */
  lemma {:induction false} PutKeepsOthers(entries: seq<Package>, p: Package, q: Package)
    requires DistinctShorts(entries)
    ensures q in Put(entries, p) <==> q == p || (q in entries && q.short != p.short)
  {
    if entries != [] {
      if entries[0].short != p.short {
        PutKeepsOthers(entries[1..], p, q);
      }
      assert entries == [entries[0]] + entries[1..];
    }
  }

  /** No later package has the short name of the one at `i`. */
  predicate LastOfItsName(packages: seq<Package>, i: nat)
    requires i < |packages|
  {
    forall j :: i < j < |packages| ==> packages[j].short != packages[i].short
  }

  ghost predicate IsKept(packages: seq<Package>, q: Package) {
    exists i :: 0 <= i < |packages| && packages[i] == q && LastOfItsName(packages, i)
  }

  /** One more package takes its name over and changes nothing else. */
  lemma KeptAfter(packages: seq<Package>, q: Package)
    requires packages != []
    ensures
      var n := |packages| - 1;
      IsKept(packages, q) <==> q == packages[n] || (IsKept(packages[..n], q) && q.short != packages[n].short)
  {
    var n := |packages| - 1;
    var front := packages[..n];
    assert LastOfItsName(packages, n);
    if i :| 0 <= i < n && packages[i] == q && LastOfItsName(packages, i) {
      assert front[i] == q && LastOfItsName(front, i) && packages[n].short != packages[i].short;
    }
    if i :| 0 <= i < n && front[i] == q && LastOfItsName(front, i) && q.short != packages[n].short {
      forall j | i < j < |packages| ensures packages[j].short != packages[i].short {
        assert j < n ==> front[j].short != front[i].short;
      }
      assert packages[i] == q && LastOfItsName(packages, i);
    }
  }

  lemma {:induction false} MapValuesKeep(packages: seq<Package>, q: Package)
    ensures DistinctShorts(MapValues(packages))
    ensures q in MapValues(packages) <==> IsKept(packages, q)
  {
    hide DistinctShorts, Put, IsKept;
    if packages == [] {
      NothingKept(q);
    } else {
      var n := |packages| - 1;
      MapValuesKeep(packages[..n], q);
      PutKeepsDistinct(MapValues(packages[..n]), packages[n]);
      PutKeepsOthers(MapValues(packages[..n]), packages[n], q);
      KeptAfter(packages, q);
    }
  }

  lemma NothingKept(q: Package)
    ensures !IsKept([], q) && DistinctShorts([])
  {}

  lemma DistinctFront(packages: seq<Package>)
    requires packages != [] && DistinctShorts(packages)
    ensures
      var front, last := packages[..|packages| - 1], packages[|packages| - 1];
      DistinctShorts(front) && packages == front + [last] && forall q :: q in front ==> q.short != last.short
  {
    var front, last := packages[..|packages| - 1], packages[|packages| - 1];
    forall q | q in front ensures q.short != last.short {
      var i :| 0 <= i < |front| && front[i] == q;
      assert packages[i].short != packages[|packages| - 1].short;
    }
  }

  lemma {:induction false} MapValuesOfDistinct(packages: seq<Package>)
    requires DistinctShorts(packages)
    ensures MapValues(packages) == packages
  {
    hide DistinctShorts, Put;
    if packages != [] {
      DistinctFront(packages);
      MapValuesOfDistinct(packages[..|packages| - 1]);
      PutKeepsDistinct(packages[..|packages| - 1], packages[|packages| - 1]);
    }
  }

  /** The map holds each short name once, carried by the last package with that name, and nothing else. */
  lemma MapValuesDistinct(packages: seq<Package>)
    ensures DistinctShorts(MapValues(packages))
    ensures DistinctShorts(packages) ==> MapValues(packages) == packages
    ensures forall q :: q in MapValues(packages) <==> IsKept(packages, q)
  {
    hide DistinctShorts, IsKept, MapValues;
    if DistinctShorts(packages) { MapValuesOfDistinct(packages); }
    forall q ensures q in MapValues(packages) <==> IsKept(packages, q) {
      MapValuesKeep(packages, q);
    }
    MapValuesKeep(packages, Package("", "", "", "", []));
  }

  lemma EveryNameKept(packages: seq<Package>, k: nat)
    requires k < |packages|
    ensures exists q :: q in MapValues(packages) && q.short == packages[k].short
    decreases |packages| - k
  {
    if LastOfItsName(packages, k) {
      MapValuesKeep(packages, packages[k]);
      assert packages[k] in MapValues(packages);
    } else {
      var j :| k < j < |packages| && packages[j].short == packages[k].short;
      EveryNameKept(packages, j);
    }
  }

  /** The short name `a` occurs in the input before `b` does. */
  predicate NamedBefore(packages: seq<Package>, a: string, b: string) {
    exists i :: 0 <= i < |packages| && packages[i].short == a && forall j :: 0 <= j <= i ==> packages[j].short != b
  }

  lemma NamedBeforeInLonger(packages: seq<Package>, a: string, b: string)
    requires packages != [] && NamedBefore(packages[..|packages| - 1], a, b)
    ensures NamedBefore(packages, a, b)
  {
    var front := packages[..|packages| - 1];
    var i :| 0 <= i < |front| && front[i].short == a && forall j :: 0 <= j <= i ==> front[j].short != b;
    forall j | 0 <= j <= i ensures packages[j].short != b { assert packages[j] == front[j]; }
    assert packages[i].short == a;
  }

  lemma {:induction false} PutKeepsPlaces(entries: seq<Package>, p: Package)
    ensures |entries| <= |Put(entries, p)| <= |entries| + 1
    ensures forall i :: 0 <= i < |entries| ==> Put(entries, p)[i].short == entries[i].short
    ensures |Put(entries, p)| > |entries| ==>
      Put(entries, p)[|entries|] == p && forall q :: q in entries ==> q.short != p.short
  {
    if entries != [] && entries[0].short != p.short {
      PutKeepsPlaces(entries[1..], p);
      assert entries == [entries[0]] + entries[1..];
    }
  }

  /** The map lists the short names in the order of their first occurrences. */
  lemma {:induction false} MapValuesInOrder(packages: seq<Package>, i: nat, j: nat)
    requires i < j < |MapValues(packages)|
    ensures NamedBefore(packages, MapValues(packages)[i].short, MapValues(packages)[j].short)
    decreases |packages|
  {
    var n := |packages| - 1;
    var front, p := packages[..n], packages[n];
    var entries := MapValues(front);
    assert MapValues(packages) == Put(entries, p);
    hide MapValues, Put, NamedBefore;
    PutPlaces(entries, p, i, j);
    if j < |entries| {
      MapValuesInOrder(front, i, j);
      NamedBeforeInLonger(packages, entries[i].short, entries[j].short);
    } else {
      NewNameIsLater(packages, entries[i]);
    }
  }

  lemma PutPlaces(entries: seq<Package>, p: Package, i: nat, j: nat)
    requires i < j < |Put(entries, p)|
    ensures i < |entries| && Put(entries, p)[i].short == entries[i].short
    ensures j < |entries| ==> Put(entries, p)[j].short == entries[j].short
    ensures j >= |entries| ==> Put(entries, p)[j] == p && forall q :: q in entries ==> q.short != p.short
  {
    hide Put;
    PutKeepsPlaces(entries, p);
  }

  lemma NewNameIsLater(packages: seq<Package>, q: Package)
    requires packages != []
    requires q in MapValues(packages[..|packages| - 1])
    requires forall e :: e in MapValues(packages[..|packages| - 1]) ==> e.short != packages[|packages| - 1].short
    ensures NamedBefore(packages, q.short, packages[|packages| - 1].short)
  {
    var n := |packages| - 1;
    var front := packages[..n];
    hide MapValues;
    MapValuesKeep(front, q);
    var k :| 0 <= k < |front| && front[k] == q && LastOfItsName(front, k);
    forall m | 0 <= m <= k ensures packages[m].short != packages[n].short {
      EveryNameKept(front, m);
      assert front[m] == packages[m];
    }
    assert packages[k].short == q.short;
  }

  // ---- Layers, longest paths and doomed packages ----

  function DependencyGraph(ps: seq<Package>): Graph
    requires DistinctShorts(ps)
  {
    map p | p in ps :: p.short := p.deps
  }

  /** Some dependency chain out of `s` leaves the graph or repeats itself. */
  ghost predicate Doomed(g: Graph, s: string) {
    exists p :: IsDoomedPath(g, p) && p[0] == s
  }

  predicate IsDoomedPath(g: Graph, p: seq<string>) {
    |p| > 0 && IsPath(g, p) && (p[|p| - 1] !in g || exists i, j :: 0 <= i < j < |p| && p[i] == p[j])
  }

  /** The longest dependency chain out of `s` has `d` edges. */
  ghost predicate AtDepth(g: Graph, s: string, d: nat) {
    HasChain(g, s, d) && !HasChain(g, s, d + 1)
  }

  ghost predicate HasChain(g: Graph, s: string, n: nat) {
    exists p :: IsPath(g, p) && |p| == n + 1 && p[0] == s
  }

  lemma ChainPrefix(g: Graph, s: string, m: nat, n: nat)
    requires HasChain(g, s, n) && m <= n
    ensures HasChain(g, s, m)
  {
    var p :| IsPath(g, p) && |p| == n + 1 && p[0] == s;
    SubPath(g, p, 0, m + 1);
    assert |p[0..m + 1]| == m + 1 && p[0..m + 1][0] == s;
  }

  lemma DepthUnique(g: Graph, s: string, d: nat, e: nat)
    requires AtDepth(g, s, d) && AtDepth(g, s, e)
    ensures d == e
  {
    if d < e { ChainPrefix(g, s, d + 1, e); }
    if e < d { ChainPrefix(g, s, e + 1, d); }
  }

  /** What has been placed after `k` rounds. */
  function Placed(g: Graph, k: nat): set<string> {
    if k == 0 then {}
    else set s | s in g && (forall d :: d in g[s] ==> d in Placed(g, k - 1))
  }

  lemma {:induction false} PlacedGrows(g: Graph, k: nat)
    ensures Placed(g, k) <= Placed(g, k + 1)
  {
    if k > 0 { PlacedGrows(g, k - 1); }
  }

  /** A chain that starts in layer `k` is in layer `k - i` after `i` steps. */
  lemma {:induction false} ChainDescends(g: Graph, k: nat, p: seq<string>, i: nat)
    requires IsPath(g, p) && i < |p| && p[0] in Placed(g, k)
    ensures i < k && p[i] in Placed(g, k - i)
    decreases i
  {
    if i > 0 {
      ChainDescends(g, k, p, i - 1);
      assert Edge(g, p[i - 1], p[i - 1 + 1]);
    }
  }

  lemma {:induction false} NoReturn(g: Graph, k: nat, p: seq<string>)
    requires IsPath(g, p) && |p| >= 2 && p[0] == p[|p| - 1]
    ensures p[0] !in Placed(g, k)
    decreases k
  {
    if p[0] in Placed(g, k) {
      ChainDescends(g, k, p, |p| - 1);
      NoReturn(g, k - (|p| - 1), p);
      assert false;
    }
  }

  lemma PlacedIsNotDoomed(g: Graph, k: nat, s: string)
    requires s in Placed(g, k)
    ensures !Doomed(g, s) && !HasChain(g, s, k)
  {
    forall p | IsPath(g, p) && |p| > 0 && p[0] == s ensures |p| <= k && !IsDoomedPath(g, p) {
      ChainDescends(g, k, p, |p| - 1);
      forall i, j | 0 <= i < j < |p| ensures p[i] != p[j] {
        if p[i] == p[j] {
          ChainDescends(g, k, p, i);
          SubPath(g, p, i, j + 1);
          NoReturn(g, k - i, p[i..j + 1]);
          assert false;
        }
      }
    }
  }

  /** A member of the next layer has a chain as long as the number of the layer. */
  lemma {:induction false} LayerHasChain(g: Graph, k: nat, s: string)
    requires s in Placed(g, k + 1) && s !in Placed(g, k)
    ensures HasChain(g, s, k)
  {
    if k == 0 {
      assert IsPath(g, [s]) && |[s]| == 1 && [s][0] == s;
    } else {
      var d :| d in g[s] && d !in Placed(g, k - 1);
      LayerHasChain(g, k - 1, d);
      var p :| IsPath(g, p) && |p| == k && p[0] == d;
      var q := [s] + p;
      forall i | 0 <= i < |q| - 1 ensures Edge(g, q[i], q[i + 1]) {
        if i > 0 { assert Edge(g, p[i - 1], p[i - 1 + 1]); }
      }
      assert IsPath(g, q) && |q| == k + 1 && q[0] == s;
    }
  }

  /** `a` waits for something stuck or unknown. */
  ghost predicate Waits(g: Graph, stuck: set<string>, a: string) {
    a in g && exists d :: d in g[a] && (d in stuck || d !in g)
  }

  /** Where every node still waits for something unplaced, chains can be prolonged or leave the graph. */
  lemma {:induction false} StuckWalk(g: Graph, stuck: set<string>, s: string, n: nat) returns (p: seq<string>)
    requires s in stuck
    requires forall a {:trigger Waits(g, stuck, a)} :: a in stuck ==> Waits(g, stuck, a)
    ensures |p| > 0 && p[0] == s && IsPath(g, p) && forall i :: 0 <= i < |p| - 1 ==> p[i] in stuck
    ensures p[|p| - 1] !in g || (|p| == n + 1 && p[|p| - 1] in stuck)
    decreases n
  {
    if n == 0 {
      p := [s];
    } else {
      assert Waits(g, stuck, s);
      var d :| d in g[s] && (d in stuck || d !in g);
      if d !in g {
        p := [s, d];
      } else {
        var rest := StuckWalk(g, stuck, d, n - 1);
        p := [s] + rest;
        forall i | 0 <= i < |p| - 1 ensures Edge(g, p[i], p[i + 1]) && p[i] in stuck {
          if i > 0 { assert Edge(g, rest[i - 1], rest[i - 1 + 1]); }
        }
      }
    }
  }

  lemma StuckIsDoomed(g: Graph, k: nat, s: string)
    requires Placed(g, k + 1) == Placed(g, k) && s in g && s !in Placed(g, k)
    ensures Doomed(g, s)
  {
    var stuck := set a | a in g && a !in Placed(g, k);
    forall a | a in stuck ensures Waits(g, stuck, a) {
      assert a !in Placed(g, k + 1);
      var d :| d in g[a] && d !in Placed(g, k);
    }
    var p := StuckWalk(g, stuck, s, |stuck|);
    if p[|p| - 1] in g {
      var i, j := Pigeonhole(p, stuck);
    }
    assert IsDoomedPath(g, p);
  }

  // ---- The sort ----

  function Filter(ps: seq<Package>, keep: Package -> bool): seq<Package> {
    if ps == [] then []
    else (if keep(ps[0]) then [ps[0]] else []) + Filter(ps[1..], keep)
  }

  function NotIn(placed: set<string>): Package -> bool {
    (p: Package) => p.short !in placed
  }

  function HasDepsIn(placed: set<string>): Package -> bool {
    (p: Package) => DepsPlaced(p, placed)
  }

  function Unplaced(ps: seq<Package>, placed: set<string>): seq<Package> {
    Filter(ps, NotIn(placed))
  }

  predicate DepsPlaced(p: Package, placed: set<string>) {
    forall d :: d in p.deps ==> d in placed
  }

  function Ready(ps: seq<Package>, placed: set<string>): seq<Package> {
    Filter(ps, HasDepsIn(placed))
  }

  function Shorts(ps: seq<Package>): (r: seq<string>)
    ensures |r| == |ps| && forall i :: 0 <= i < |ps| ==> r[i] == ps[i].short
  {
    if ps == [] then [] else [ps[0].short] + Shorts(ps[1..])
  }

  lemma {:induction false} FilterMembers(ps: seq<Package>, keep: Package -> bool)
    ensures forall p :: p in Filter(ps, keep) <==> p in ps && keep(p)
    ensures DistinctShorts(ps) ==> DistinctShorts(Filter(ps, keep))
  {
    if ps != [] {
      FilterMembers(ps[1..], keep);
      assert ps == [ps[0]] + ps[1..];
      var rest := Filter(ps[1..], keep);
      if DistinctShorts(ps) {
        forall j | 0 <= j < |rest| ensures rest[j].short != ps[0].short {
          assert rest[j] in rest;
        }
      }
    }
  }

  lemma PrecedesCons(p: Package, ps: seq<Package>, a: Package, b: Package)
    ensures Precedes([p] + ps, a, b) <==> (a == p && b in ps) || Precedes(ps, a, b)
  {
    var all := [p] + ps;
    if Precedes(all, a, b) {
      var i, j :| 0 <= i < j < |all| && all[i] == a && all[j] == b;
      assert ps[j - 1] == b && (i > 0 ==> ps[i - 1] == a);
    }
    if Precedes(ps, a, b) {
      var i, j :| 0 <= i < j < |ps| && ps[i] == a && ps[j] == b;
      assert all[i + 1] == a && all[j + 1] == b;
    }
    if a == p && b in ps {
      var j :| 0 <= j < |ps| && ps[j] == b;
      assert all[0] == a && all[j + 1] == b;
    }
  }

  lemma {:induction false} FilterPrecedes(ps: seq<Package>, keep: Package -> bool, a: Package, b: Package)
    requires Precedes(Filter(ps, keep), a, b)
    ensures Precedes(ps, a, b)
  {
    assert ps != [];
    var rest := Filter(ps[1..], keep);
    FilterMembers(ps[1..], keep);
    PrecedesCons(ps[0], ps[1..], a, b);
    PrecedesCons(ps[0], rest, a, b);
    hide Precedes;
    assert ps == [ps[0]] + ps[1..];
    if Precedes(rest, a, b) { FilterPrecedes(ps[1..], keep, a, b); }
  }

  lemma UnplacedMembers(ps: seq<Package>, placed: set<string>)
    ensures forall p :: p in Unplaced(ps, placed) <==> p in ps && p.short !in placed
    ensures DistinctShorts(ps) ==> DistinctShorts(Unplaced(ps, placed))
  {
    FilterMembers(ps, NotIn(placed));
  }

  lemma ReadyMembers(ps: seq<Package>, placed: set<string>)
    ensures forall p :: p in Ready(ps, placed) <==> p in ps && DepsPlaced(p, placed)
    ensures DistinctShorts(ps) ==> DistinctShorts(Ready(ps, placed))
  {
    FilterMembers(ps, HasDepsIn(placed));
  }

  /** `a` stands before `b`: smaller depth, or equal depth and sooner under the comparison. */
  predicate InOrder(a: Package, b: Package, ps: seq<Package>, depth: map<string, nat>, groupOrder: seq<string>,
                    collate: Collation)
  {
    && a.short in depth && b.short in depth
    && (depth[a.short] < depth[b.short]
        || (depth[a.short] == depth[b.short] && Sooner(a, b, ps, groupOrder, collate)))
  }

  predicate AllInOrder(ps: seq<Package>, out: seq<Package>, depth: map<string, nat>, groupOrder: seq<string>,
                       collate: Collation)
  {
    forall i, j :: 0 <= i < j < |out| ==> InOrder(out[i], out[j], ps, depth, groupOrder, collate)
  }

  /** `depth` gives every listed package the length of its longest dependency chain. */
  ghost predicate AreDepths(g: Graph, out: seq<Package>, depth: map<string, nat>) {
    forall p :: p in out ==> p.short in depth && AtDepth(g, p.short, depth[p.short])
  }

  /** `out` lists the packages of `ps` once each, by (longest dependency chain, comparison, input position). */
  ghost predicate IsLayered(ps: seq<Package>, out: seq<Package>, depth: map<string, nat>, groupOrder: seq<string>,
                            collate: Collation)
    requires DistinctShorts(ps)
  {
    && DistinctShorts(out) && (forall p :: p in out <==> p in ps)
    && AreDepths(DependencyGraph(ps), out, depth)
    && AllInOrder(ps, out, depth, groupOrder, collate)
  }

  /** Of two listed packages of one depth, the earlier may stand before the later. */
  ghost predicate GroupsInOrder(ps: seq<Package>, out: seq<Package>, depth: map<string, nat>, groupOrder: seq<string>,
                                collate: Collation)
    requires forall p :: p in out ==> p.short in depth
  {
    forall i, j :: 0 <= i < j < |out| && depth[out[i].short] == depth[out[j].short] ==>
      MayStandBefore(out[i], out[j], ps, groupOrder, collate)
  }

  /** A layered listing follows the group order within each depth. */
  lemma ListingFollowsGroups(ps: seq<Package>, out: seq<Package>, depth: map<string, nat>, groupOrder: seq<string>,
                             collate: Collation)
    requires DistinctShorts(ps) && IsCollation(collate) && IsLayered(ps, out, depth, groupOrder, collate)
    ensures (forall p :: p in out ==> p.short in depth) && GroupsInOrder(ps, out, depth, groupOrder, collate)
  {
    hide IsCollation, Sooner, MayStandBefore, DependencyGraph, AtDepth, DistinctShorts;
    forall i, j | 0 <= i < j < |out| && depth[out[i].short] == depth[out[j].short]
      ensures MayStandBefore(out[i], out[j], ps, groupOrder, collate)
    {
      assert InOrder(out[i], out[j], ps, depth, groupOrder, collate);
      SoonerMayStandBefore(out[i], out[j], ps, groupOrder, collate);
    }
  }

  ghost predicate ShortsInOrder(ps: seq<Package>, a: string, b: string) {
    exists p: Package, q: Package :: p.short == a && q.short == b && Precedes(ps, p, q)
  }

  /** The names are those of packages in the order of `ps`. */
  ghost predicate NamedInOrder(ps: seq<Package>, shorts: seq<string>) {
    forall i, j :: 0 <= i < j < |shorts| ==> ShortsInOrder(ps, shorts[i], shorts[j])
  }

  lemma LeftoversNamedInOrder(ps: seq<Package>, placed: set<string>)
    ensures NamedInOrder(ps, Shorts(Unplaced(ps, placed)))
  {
    var left := Unplaced(ps, placed);
    forall i, j | 0 <= i < j < |Shorts(left)|
      ensures ShortsInOrder(ps, Shorts(left)[i], Shorts(left)[j])
    {
      assert Precedes(left, left[i], left[j]);
      FilterPrecedes(ps, NotIn(placed), left[i], left[j]);
      assert left[i].short == Shorts(left)[i] && left[j].short == Shorts(left)[j];
    }
  }

  lemma LayerDepth(g: Graph, k: nat, s: string)
    requires s in Placed(g, k + 1) && s !in Placed(g, k)
    ensures AtDepth(g, s, k)
  {
    LayerHasChain(g, k, s);
    PlacedIsNotDoomed(g, k + 1, s);
  }

  /** The members of one round: each is new, and its dependencies are placed. */
  lemma ReadyIsLayer(ps: seq<Package>, k: nat, placed: set<string>)
    requires DistinctShorts(ps) && placed == Placed(DependencyGraph(ps), k)
    ensures forall p :: p in Ready(Unplaced(ps, placed), placed) <==>
              p in ps && p.short !in placed && p.short in Placed(DependencyGraph(ps), k + 1)
  {
    var g := DependencyGraph(ps);
    UnplacedMembers(ps, placed);
    ReadyMembers(Unplaced(ps, placed), placed);
    forall p | p in ps ensures p.short in g && g[p.short] == p.deps {}
  }

  lemma {:induction false} FilterFusion(ps: seq<Package>, keep: Package -> bool, keep': Package -> bool,
                                        both: Package -> bool)
    requires forall p :: both(p) <==> keep(p) && keep'(p)
    ensures Filter(Filter(ps, keep), keep') == Filter(ps, both)
  {
    if ps != [] {
      FilterFusion(ps[1..], keep, keep', both);
      if keep(ps[0]) {
        assert Filter(ps, keep)[1..] == Filter(ps[1..], keep);
      } else {
        assert Filter(ps, keep) == Filter(ps[1..], keep);
      }
    }
  }

  /** Deleting one key from the remaining packages. */
  lemma RemoveShort(ps: seq<Package>, placed: set<string>, short: string)
    ensures Unplaced(Unplaced(ps, placed), {short}) == Unplaced(ps, placed + {short})
  {
    FilterFusion(ps, NotIn(placed), NotIn({short}), NotIn(placed + {short}));
  }

  /** What holds after `k` complete rounds. */
  ghost predicate RoundDone(ps: seq<Package>, k: nat, placed: set<string>, out: seq<Package>, depth: map<string, nat>,
                            groupOrder: seq<string>, collate: Collation)
    requires DistinctShorts(ps)
  {
    && placed == Placed(DependencyGraph(ps), k)
    && DistinctShorts(out) && (forall p :: p in out <==> p in ps && p.short in placed)
    && AreDepths(DependencyGraph(ps), out, depth) && (forall p :: p in out ==> depth[p.short] < k)
    && AllInOrder(ps, out, depth, groupOrder, collate)
  }

  function NewDepths(depth: map<string, nat>, placed: set<string>, placed': set<string>, k: nat): map<string, nat> {
    map s | s in depth.Keys + placed' :: if s in placed' && s !in placed then k else if s in depth then depth[s] else 0
  }

  /** One round's batch is sorted, ties in input order, and consists of the next layer. */
  lemma BatchFacts(ps: seq<Package>, k: nat, placed: set<string>, ready: seq<Package>, groupOrder: seq<string>,
                   collate: Collation)
    requires DistinctShorts(ps) && IsCollation(collate) && placed == Placed(DependencyGraph(ps), k)
    requires ready == StableSort(Ready(Unplaced(ps, placed), placed), groupOrder, collate)
    ensures DistinctShorts(ready) && SortedFrom(ps, ready, groupOrder, collate)
    ensures forall p :: p in ready <==> p in ps && p.short !in placed && p.short in Placed(DependencyGraph(ps), k + 1)
  {
    var unsorted := Ready(Unplaced(ps, placed), placed);
    StableSortSorts(unsorted, groupOrder, collate);
    ReadyDistinct(ps, placed, ready, groupOrder, collate);
    hide IsCollation, DistinctShorts, Compare, StableSort;
    forall p ensures p in ready <==> p in unsorted { assert p in multiset(ready) <==> p in multiset(unsorted); }
    ReadyIsLayer(ps, k, placed);
    forall i, j | 0 <= i < j < |ready| ensures Sooner(ready[i], ready[j], ps, groupOrder, collate) {
      assert Sooner(ready[i], ready[j], unsorted, groupOrder, collate);
      if Precedes(unsorted, ready[i], ready[j]) {
        FilterPrecedes(Unplaced(ps, placed), HasDepsIn(placed), ready[i], ready[j]);
        FilterPrecedes(ps, NotIn(placed), ready[i], ready[j]);
      }
    }
  }

  function BatchShorts(batch: seq<Package>): set<string> {
    set p | p in batch :: p.short
  }

  lemma BatchShortsNone(batch: seq<Package>)
    requires batch == []
    ensures BatchShorts(batch) == {}
  {}

  lemma BatchShortsNext(batch: seq<Package>, i: nat)
    requires i < |batch|
    ensures BatchShorts(batch[..i + 1]) == BatchShorts(batch[..i]) + {batch[i].short}
  {
    assert batch[..i + 1] == batch[..i] + [batch[i]];
  }

  lemma BatchPlaced(ps: seq<Package>, k: nat, placed: set<string>, ready: seq<Package>)
    requires DistinctShorts(ps) && placed == Placed(DependencyGraph(ps), k)
    requires forall p :: p in ready <==> p in ps && p.short !in placed && p.short in Placed(DependencyGraph(ps), k + 1)
    ensures placed + BatchShorts(ready) == Placed(DependencyGraph(ps), k + 1)
  {
    PlacedGrows(DependencyGraph(ps), k);
    forall s | s in Placed(DependencyGraph(ps), k + 1) && s !in placed ensures exists p :: p in ready && p.short == s {
      var p :| p in ps && p.short == s;
      assert p in ready;
    }
  }

  /** Appending a sorted batch at a new depth keeps everything in order. */
  lemma AppendBatch(ps: seq<Package>, out: seq<Package>, ready: seq<Package>, depth: map<string, nat>,
                    depth': map<string, nat>, k: nat, groupOrder: seq<string>, collate: Collation)
    requires AllInOrder(ps, out, depth, groupOrder, collate) && SortedFrom(ps, ready, groupOrder, collate)
    requires forall p ::
      p in out ==> p.short in depth && depth[p.short] < k && p.short in depth' && depth'[p.short] == depth[p.short]
    requires forall p :: p in ready ==> p.short in depth' && depth'[p.short] == k
    ensures AllInOrder(ps, out + ready, depth', groupOrder, collate)
  {
    hide Sooner;
    var out' := out + ready;
    forall i, j | 0 <= i < j < |out'| ensures InOrder(out'[i], out'[j], ps, depth', groupOrder, collate) {
      if j < |out| {
        assert InOrder(out[i], out[j], ps, depth, groupOrder, collate);
      } else if i >= |out| {
        assert Sooner(ready[i - |out|], ready[j - |out|], ps, groupOrder, collate);
      }
    }
  }

  lemma BatchListed(ps: seq<Package>, placed: set<string>, out: seq<Package>, ready: seq<Package>)
    requires DistinctShorts(ps) && DistinctShorts(out) && DistinctShorts(ready)
    requires forall p :: p in out <==> p in ps && p.short in placed
    requires forall p :: p in ready ==> p in ps && p.short !in placed
    ensures DistinctShorts(out + ready)
    ensures forall p :: p in out + ready <==> p in ps && p.short in placed + BatchShorts(ready)
  {
    forall p | p in ps && p.short in BatchShorts(ready) ensures p in ready {
      var q :| q in ready && q.short == p.short;
      assert q in ps;
    }
  }

  lemma BatchDepths(g: Graph, placed: set<string>, placed': set<string>, out: seq<Package>, ready: seq<Package>,
                    depth: map<string, nat>, k: nat)
    requires AreDepths(g, out, depth) && forall p :: p in out ==> depth[p.short] < k && p.short in placed
    requires forall p :: p in ready ==> p.short !in placed && p.short in placed' && AtDepth(g, p.short, k)
    ensures AreDepths(g, out + ready, NewDepths(depth, placed, placed', k))
    ensures forall p :: p in out + ready ==> NewDepths(depth, placed, placed', k)[p.short] < k + 1
    ensures forall p :: p in out ==> NewDepths(depth, placed, placed', k)[p.short] == depth[p.short]
    ensures forall p :: p in ready ==> NewDepths(depth, placed, placed', k)[p.short] == k
  {
    hide AtDepth;
    var depth' := NewDepths(depth, placed, placed', k);
    forall p | p in out + ready ensures p.short in depth' {
      assert p in out || p in ready;
    }
  }

  lemma NextRound(ps: seq<Package>, k: nat, placed: set<string>, out: seq<Package>, depth: map<string, nat>,
                                     ready: seq<Package>, groupOrder: seq<string>, collate: Collation)
    requires DistinctShorts(ps) && IsCollation(collate) && RoundDone(ps, k, placed, out, depth, groupOrder, collate)
    requires ready == StableSort(Ready(Unplaced(ps, placed), placed), groupOrder, collate)
    ensures forall p :: p in ready ==> p in ps && p.short !in placed
    ensures
      var placed' := placed + BatchShorts(ready);
      RoundDone(ps, k + 1, placed', out + ready, NewDepths(depth, placed, placed', k), groupOrder, collate)
  {
    hide IsCollation, DistinctShorts, AllInOrder, SortedFrom, Placed, AtDepth, DependencyGraph, StableSort, Ready,
         Unplaced, NewDepths;
    var g := DependencyGraph(ps);
    var placed' := placed + BatchShorts(ready);
    var depth' := NewDepths(depth, placed, placed', k);
    BatchFacts(ps, k, placed, ready, groupOrder, collate);
    BatchPlaced(ps, k, placed, ready);
    BatchListed(ps, placed, out, ready);
    forall p | p in ready ensures AtDepth(g, p.short, k) { LayerDepth(g, k, p.short); }
    BatchDepths(g, placed, placed', out, ready, depth, k);
    AppendBatch(ps, out, ready, depth, depth', k, groupOrder, collate);
  }

  lemma MultisetDistinct(a: seq<Package>, b: seq<Package>)
    requires DistinctShorts(a) && multiset(a) == multiset(b)
    ensures DistinctShorts(b)
  {
    forall i, j | 0 <= i < j < |b| ensures b[i].short != b[j].short {
      if b[i].short == b[j].short {
        assert b[i] in multiset(a) && b[j] in multiset(a);
        assert b == b[..i] + [b[i]] + b[i + 1..j] + [b[j]] + b[j + 1..];
        assert multiset(b)[b[i]] >= 2;
        OnceOnly(a, b[i]);
        assert false;
      }
    }
  }

  lemma {:induction false} OnceOnly(a: seq<Package>, p: Package)
    requires DistinctShorts(a)
    ensures multiset(a)[p] <= 1
  {
    if a != [] {
      OnceOnly(a[1..], p);
      assert a == [a[0]] + a[1..];
      if a[0] == p { assert p !in a[1..]; }
    }
  }

  lemma ReadyDistinct(ps: seq<Package>, placed: set<string>, ready: seq<Package>, groupOrder: seq<string>,
                      collate: Collation)
    requires DistinctShorts(ps) && IsCollation(collate)
    requires ready == StableSort(Ready(Unplaced(ps, placed), placed), groupOrder, collate)
    ensures DistinctShorts(ready)
  {
    UnplacedMembers(ps, placed);
    ReadyMembers(Unplaced(ps, placed), placed);
    StableSortSorts(Ready(Unplaced(ps, placed), placed), groupOrder, collate);
    MultisetDistinct(Ready(Unplaced(ps, placed), placed), ready);
  }

  /** When no round can start, exactly the doomed packages are left over. */
  lemma LeftoversAreDoomed(ps: seq<Package>, k: nat, placed: set<string>)
    requires DistinctShorts(ps) && placed == Placed(DependencyGraph(ps), k)
    requires Ready(Unplaced(ps, placed), placed) == []
    ensures forall p :: p in ps ==> (p.short !in placed <==> Doomed(DependencyGraph(ps), p.short))
  {
    var g := DependencyGraph(ps);
    ReadyIsLayer(ps, k, placed);
    PlacedGrows(g, k);
    assert Placed(g, k + 1) == Placed(g, k) by {
      forall s | s in Placed(g, k + 1) ensures s in placed {
        var p :| p in ps && p.short == s;
        assert p !in Ready(Unplaced(ps, placed), placed);
      }
    }
    forall p | p in ps ensures p.short !in placed <==> Doomed(g, p.short) {
      if p.short in placed { PlacedIsNotDoomed(g, k, p.short); } else { StuckIsDoomed(g, k, p.short); }
    }
  }

  lemma {:induction false} FilterShrinks(ps: seq<Package>, keep: Package -> bool, keep': Package -> bool, p: Package)
    requires forall q :: keep'(q) ==> keep(q)
    ensures |Filter(ps, keep')| <= |Filter(ps, keep)|
    ensures p in ps && keep(p) && !keep'(p) ==> |Filter(ps, keep')| < |Filter(ps, keep)|
  {
    if ps != [] {
      FilterShrinks(ps[1..], keep, keep', p);
    }
  }

  /** A nonempty batch leaves fewer packages. */
  lemma BatchShrinks(ps: seq<Package>, placed: set<string>, ready: seq<Package>)
    requires ready != [] && forall p :: p in ready ==> p in ps && p.short !in placed
    ensures |Unplaced(ps, placed + BatchShorts(ready))| < |Unplaced(ps, placed)|
  {
    var placed' := placed + BatchShorts(ready);
    FilterShrinks(ps, NotIn(placed), NotIn(placed'), ready[0]);
  }

  lemma FirstRound(ps: seq<Package>, groupOrder: seq<string>, collate: Collation)
    requires DistinctShorts(ps)
    ensures RoundDone(ps, 0, {}, [], map[], groupOrder, collate) && Unplaced(ps, {}) == ps
  {
    FilterAll(ps, NotIn({}));
  }

  lemma {:induction false} FilterAll(ps: seq<Package>, keep: Package -> bool)
    requires forall p :: keep(p)
    ensures Filter(ps, keep) == ps
  {
    if ps != [] { FilterAll(ps[1..], keep); }
  }

  lemma Stuck(ps: seq<Package>, k: nat, placed: set<string>, out: seq<Package>, depth: map<string, nat>,
                                 ready: seq<Package>, groupOrder: seq<string>, collate: Collation)
    requires DistinctShorts(ps) && IsCollation(collate) && RoundDone(ps, k, placed, out, depth, groupOrder, collate)
    requires ready == StableSort(Ready(Unplaced(ps, placed), placed), groupOrder, collate) && ready == []
    ensures forall p :: p in ps ==> (p.short in Shorts(Unplaced(ps, placed)) <==> Doomed(DependencyGraph(ps), p.short))
    ensures Unplaced(ps, placed) != [] ==> exists p :: p in ps && Doomed(DependencyGraph(ps), p.short)
  {
    var left := Unplaced(ps, placed);
    StableSortSorts(Ready(left, placed), groupOrder, collate);
    assert |multiset(Ready(left, placed))| == 0;
    hide IsCollation, StableSort, RoundDone;
    assert placed == Placed(DependencyGraph(ps), k) by { RoundPlaced(ps, k, placed, out, depth, groupOrder, collate); }
    LeftoversAreDoomed(ps, k, placed);
    UnplacedMembers(ps, placed);
    hide Doomed, DependencyGraph;
    forall p | p in ps ensures p.short in Shorts(left) <==> p.short !in placed {
      if p.short !in placed {
        var i :| 0 <= i < |left| && left[i] == p;
        assert Shorts(left)[i] == p.short;
      }
      if p.short in Shorts(left) {
        var i :| 0 <= i < |left| && Shorts(left)[i] == p.short;
        assert left[i] in left;
      }
    }
    if left != [] { assert left[0] in left; }
  }

  lemma RoundPlaced(ps: seq<Package>, k: nat, placed: set<string>, out: seq<Package>, depth: map<string, nat>,
                    groupOrder: seq<string>, collate: Collation)
    requires DistinctShorts(ps) && RoundDone(ps, k, placed, out, depth, groupOrder, collate)
    ensures placed == Placed(DependencyGraph(ps), k)
  {}

  lemma AllPlaced(ps: seq<Package>, k: nat, placed: set<string>, out: seq<Package>, depth: map<string, nat>,
                                     groupOrder: seq<string>, collate: Collation)
    requires DistinctShorts(ps) && RoundDone(ps, k, placed, out, depth, groupOrder, collate)
      && Unplaced(ps, placed) == []
    ensures IsLayered(ps, out, depth, groupOrder, collate)
    ensures forall p :: p in ps ==> !Doomed(DependencyGraph(ps), p.short)
  {
    UnplacedMembers(ps, placed);
    forall p | p in ps ensures p.short in placed && !Doomed(DependencyGraph(ps), p.short) {
      assert p !in Unplaced(ps, placed);
      PlacedIsNotDoomed(DependencyGraph(ps), k, p.short);
    }
  }

  /**
   * Throws exactly when some package reaches a dependency cycle or a dependency outside the set, naming the
   * packages that do in input order; otherwise orders the packages by (longest dependency chain, group order,
   * collation of groups, collation of short names, input position).
   */
  method TopoSort(packages: seq<Package>, groupOrder: seq<string>, collate: Collation)
    returns (r: Result<seq<Package>, SortError>, ghost depth: map<string, nat>)
    requires IsCollation(collate)
    ensures DistinctShorts(MapValues(packages))
    ensures var g := DependencyGraph(MapValues(packages));
      && (r.Err? <==> exists p :: p in MapValues(packages) && Doomed(g, p.short))
      && (r.Err? ==> forall p :: p in MapValues(packages) ==> (p.short in r.error.shorts <==> Doomed(g, p.short)))
    ensures r.Err? ==> NamedInOrder(MapValues(packages), r.error.shorts)
    ensures r.Ok? ==> IsLayered(MapValues(packages), r.value, depth, groupOrder, collate)
    ensures r.Ok? ==> (forall p :: p in r.value ==> p.short in depth)
    ensures r.Ok? ==> GroupsInOrder(MapValues(packages), r.value, depth, groupOrder, collate)
  {
    ghost var ps := MapValues(packages);
    MapValuesDistinct(packages);
    hide IsCollation, RoundDone, IsLayered, DistinctShorts, Doomed, DependencyGraph, Unplaced, Ready, NewDepths,
         StableSort, BatchShorts, MapValues, Shorts, NamedInOrder, GroupsInOrder;
    var remaining := MapValues(packages);
    var placed: set<string> := {};
    var out: seq<Package> := [];
    depth := map[];
    ghost var k := 0;
    FirstRound(ps, groupOrder, collate);
    while |remaining| > 0
      invariant RoundDone(ps, k, placed, out, depth, groupOrder, collate)
      invariant remaining == Unplaced(ps, placed)
      decreases |remaining|
    {
      var ready := StableSort(Ready(remaining, placed), groupOrder, collate);
      if |ready| == 0 {
        Stuck(ps, k, placed, out, depth, ready, groupOrder, collate);
        LeftoversNamedInOrder(ps, placed);
        return Err(CycleAmong(Shorts(remaining))), depth;
      }
      NextRound(ps, k, placed, out, depth, ready, groupOrder, collate);
      BatchShrinks(ps, placed, ready);
      ghost var placed0, out0 := placed, out;
      BatchShortsNone(ready[..0]);
      for i := 0 to |ready|
        invariant out == out0 + ready[..i]
        invariant placed == placed0 + BatchShorts(ready[..i])
        invariant remaining == Unplaced(ps, placed)
      {
        RemoveShort(ps, placed, ready[i].short);
        BatchShortsNext(ready, i);
        assert ready[..i + 1] == ready[..i] + [ready[i]];
        out := out + [ready[i]];
        placed := placed + {ready[i].short};
        remaining := Unplaced(remaining, {ready[i].short});
      }
      assert ready[..|ready|] == ready;
      depth := NewDepths(depth, placed0, placed, k);
      k := k + 1;
    }
    AllPlaced(ps, k, placed, out, depth, groupOrder, collate);
    ListingFollowsGroups(ps, out, depth, groupOrder, collate);
    return Ok(out), depth;
  }

  // ---- The result is canonical ----

  /** Dependencies come first. */
  lemma DependenciesComeFirst(ps: seq<Package>, out: seq<Package>, depth: map<string, nat>,
                                                 groupOrder: seq<string>, collate: Collation, i: nat, j: nat)
    requires DistinctShorts(ps) && IsLayered(ps, out, depth, groupOrder, collate)
    requires i < |out| && j < |out| && out[i].short in out[j].deps
    ensures i < j
  {
    var g := DependencyGraph(ps);
    assert out[i] in ps && out[j] in ps;
    var d := depth[out[i].short];
    var p :| IsPath(g, p) && |p| == d + 1 && p[0] == out[i].short;
    var q := [out[j].short] + p;
    assert g[out[j].short] == out[j].deps;
    forall n | 0 <= n < |q| - 1 ensures Edge(g, q[n], q[n + 1]) {
      if n > 0 { assert Edge(g, p[n - 1], p[n - 1 + 1]); }
    }
    assert HasChain(g, out[j].short, d + 1);
    if depth[out[j].short] <= d {
      ChainPrefix(g, out[j].short, depth[out[j].short] + 1, d + 1);
      assert false;
    }
    hide AllInOrder, AtDepth;
    if j < i {
      InOrderAt(ps, out, depth, groupOrder, collate, j, i);
      assert false;
    }
  }

  lemma InOrderAt(ps: seq<Package>, out: seq<Package>, depth: map<string, nat>, groupOrder: seq<string>,
                  collate: Collation, i: nat, j: nat)
    requires AllInOrder(ps, out, depth, groupOrder, collate) && i < j < |out|
    ensures InOrder(out[i], out[j], ps, depth, groupOrder, collate)
  {}

  predicate OrderedBy(s: seq<Package>, before: (Package, Package) -> bool) {
    forall i, j :: 0 <= i < j < |s| ==> before(s[i], s[j])
  }

  lemma OrderedAt(s: seq<Package>, before: (Package, Package) -> bool, i: nat)
    requires OrderedBy(s, before) && 0 < i < |s|
    ensures before(s[0], s[i])
  {}

  predicate SameMembers(a: seq<Package>, b: seq<Package>) {
    (forall p :: p in a ==> p in b) && (forall p :: p in b ==> p in a)
  }

  lemma HeadsMeet(a: seq<Package>, b: seq<Package>) returns (i: nat)
    requires (SameMembers(a, b) || SameMembers(b, a)) && a != []
    ensures i < |b| && b[i] == a[0]
  {
    assert a[0] in a && a[0] in b;
    i :| 0 <= i < |b| && b[i] == a[0];
  }

  lemma TailMembers(a: seq<Package>, b: seq<Package>)
    requires DistinctShorts(a) && DistinctShorts(b) && SameMembers(a, b) && a != [] && b != [] && a[0] == b[0]
    ensures SameMembers(a[1..], b[1..])
  {
    forall p | p in a ensures p == a[0] || p in b[1..] { assert p in b; }
    forall p | p in b ensures p == b[0] || p in a[1..] { assert p in a; }
  }

  /** Two listings of the same packages whose orders never contradict each other are the same listing. */
  lemma {:induction false} OrderUnique(a: seq<Package>, b: seq<Package>, before: (Package, Package) -> bool,
                                       before': (Package, Package) -> bool)
    requires DistinctShorts(a) && DistinctShorts(b) && SameMembers(a, b)
    requires OrderedBy(a, before) && OrderedBy(b, before')
    requires forall p, q :: p in a && q in a && p != q ==> !(before(p, q) && before'(q, p))
    ensures a == b
  {
    hide SameMembers, OrderedBy;
    if a != [] {
      var i := HeadsMeet(a, b);
      var j := HeadsMeet(b, a);
      if a[0] != b[0] {
        OrderedAt(a, before, j);
        OrderedAt(b, before', i);
        assert false;
      }
      TailMembers(a, b);
      TailsOrdered(a, b, before, before');
      OrderUnique(a[1..], b[1..], before, before');
    } else if b != [] {
      var j := HeadsMeet(b, a);
      assert false;
    }
  }

  lemma TailsOrdered(a: seq<Package>, b: seq<Package>, before: (Package, Package) -> bool,
                     before': (Package, Package) -> bool)
    requires DistinctShorts(a) && DistinctShorts(b) && OrderedBy(a, before) && OrderedBy(b, before') && a != []
      && b != []
    ensures DistinctShorts(a[1..]) && DistinctShorts(b[1..]) && OrderedBy(a[1..], before) && OrderedBy(b[1..], before')
  {}

  /** No two packages at one depth compare equal. */
  ghost predicate NoTies(ps: seq<Package>, groupOrder: seq<string>, collate: Collation)
    requires DistinctShorts(ps)
  {
    forall a, b, d ::
      a in ps && b in ps && a != b && AtDepth(DependencyGraph(ps), a.short, d)
        && AtDepth(DependencyGraph(ps), b.short, d) ==>
      Compare(a, b, groupOrder, collate) != 0
  }

  lemma SameGraph(ps: seq<Package>, qs: seq<Package>)
    requires DistinctShorts(ps) && DistinctShorts(qs) && forall p :: p in ps <==> p in qs
    ensures DependencyGraph(ps) == DependencyGraph(qs)
  {}

  lemma SameDepths(g: Graph, out: seq<Package>, depth: map<string, nat>, out': seq<Package>, depth': map<string, nat>,
                   p: Package)
    requires AreDepths(g, out, depth) && AreDepths(g, out', depth') && p in out && p in out'
    ensures p.short in depth && p.short in depth' && depth[p.short] == depth'[p.short]
  {
    DepthUnique(g, p.short, depth[p.short], depth'[p.short]);
  }

  /** Opposite placements at one depth are a tie. */
  lemma OppositeIsTie(a: Package, b: Package, ps: seq<Package>, qs: seq<Package>, depth: map<string, nat>,
                      depth': map<string, nat>, groupOrder: seq<string>, collate: Collation)
    requires IsCollation(collate)
    requires InOrder(a, b, ps, depth, groupOrder, collate) && InOrder(b, a, qs, depth', groupOrder, collate)
    requires depth[a.short] == depth'[a.short] && depth[b.short] == depth'[b.short]
    ensures depth[a.short] == depth[b.short] && Compare(a, b, groupOrder, collate) == 0
    ensures Precedes(ps, a, b) && Precedes(qs, b, a)
  {
    CompareFlips(a, b, groupOrder, collate);
    CompareFlips(b, a, groupOrder, collate);
  }

  /** The contract of TopoSort leaves no freedom: an input has one layered listing. */
  lemma LayeringUnique(ps: seq<Package>, out: seq<Package>, depth: map<string, nat>, out': seq<Package>,
                       depth': map<string, nat>, groupOrder: seq<string>, collate: Collation)
    requires IsCollation(collate) && DistinctShorts(ps)
    requires IsLayered(ps, out, depth, groupOrder, collate) && IsLayered(ps, out', depth', groupOrder, collate)
    ensures out == out'
  {
    var before := (a, b) => InOrder(a, b, ps, depth, groupOrder, collate);
    var before' := (a, b) => InOrder(a, b, ps, depth', groupOrder, collate);
    forall p, q | p in out && q in out && p != q ensures !(before(p, q) && before'(q, p)) {
      SameDepths(DependencyGraph(ps), out, depth, out', depth', p);
      SameDepths(DependencyGraph(ps), out, depth, out', depth', q);
      if before(p, q) && before'(q, p) {
        OppositeIsTie(p, q, ps, ps, depth, depth', groupOrder, collate);
        assert false;
      }
    }
    hide IsCollation, InOrder, AreDepths;
    OrderUnique(out, out', before, before');
  }

  /** Without ties the input order does not matter. */
  lemma OrderIndependent(ps: seq<Package>, qs: seq<Package>, out: seq<Package>, depth: map<string, nat>,
                         out': seq<Package>, depth': map<string, nat>, groupOrder: seq<string>, collate: Collation)
    requires IsCollation(collate) && DistinctShorts(ps) && DistinctShorts(qs) && forall p :: p in ps <==> p in qs
    requires IsLayered(ps, out, depth, groupOrder, collate) && IsLayered(qs, out', depth', groupOrder, collate)
    requires NoTies(ps, groupOrder, collate)
    ensures out == out'
  {
    SameGraph(ps, qs);
    var g := DependencyGraph(ps);
    var before := (a, b) => InOrder(a, b, ps, depth, groupOrder, collate);
    var before' := (a, b) => InOrder(a, b, qs, depth', groupOrder, collate);
    forall p, q | p in out && q in out && p != q ensures !(before(p, q) && before'(q, p)) {
      SameDepths(g, out, depth, out', depth', p);
      SameDepths(g, out, depth, out', depth', q);
      if before(p, q) && before'(q, p) {
        OppositeIsTie(p, q, ps, qs, depth, depth', groupOrder, collate);
        assert false;
      }
    }
    hide IsCollation, InOrder, AreDepths, NoTies;
    OrderUnique(out, out', before, before');
  }

  lemma PrecedesIsStrict(ps: seq<Package>, a: Package, b: Package)
    requires DistinctShorts(ps) && Precedes(ps, a, b)
    ensures !Precedes(ps, b, a) && a != b
  {}

  /** With a tie it does: listing the tied packages in the opposite order changes the result. */
  lemma TiesFollowInput(ps: seq<Package>, qs: seq<Package>, out: seq<Package>, depth: map<string, nat>,
                        out': seq<Package>, depth': map<string, nat>, groupOrder: seq<string>, collate: Collation,
                        a: Package, b: Package, d: nat)
    requires IsCollation(collate) && DistinctShorts(ps) && DistinctShorts(qs) && forall p :: p in ps <==> p in qs
    requires IsLayered(ps, out, depth, groupOrder, collate) && IsLayered(qs, out', depth', groupOrder, collate)
    requires Precedes(ps, a, b) && Precedes(qs, b, a) && Compare(a, b, groupOrder, collate) == 0
    requires AtDepth(DependencyGraph(ps), a.short, d) && AtDepth(DependencyGraph(ps), b.short, d)
    ensures out != out'
  {
    SameGraph(ps, qs);
    var g := DependencyGraph(ps);
    assert a in ps && b in ps;
    DepthUnique(g, a.short, d, depth[a.short]);
    DepthUnique(g, b.short, d, depth[b.short]);
    SameDepths(g, out, depth, out', depth', a);
    SameDepths(g, out, depth, out', depth', b);
    CompareFlips(a, b, groupOrder, collate);
    CompareFlips(b, a, groupOrder, collate);
    var i: nat :| i < |out| && out[i] == a;
    var j: nat :| j < |out| && out[j] == b;
    PrecedesIsStrict(ps, a, b);
    PrecedesIsStrict(qs, b, a);
    hide IsCollation, Compare, AtDepth, AllInOrder, DistinctShorts, Precedes;
    if j < i {
      InOrderAt(ps, out, depth, groupOrder, collate, j, i);
      assert false;
    }
    assert i != j;
    if out == out' {
      InOrderAt(qs, out', depth', groupOrder, collate, i, j);
      assert false;
    }
  }

  // ---- Exactly when the input order matters ----

  /** A batch can be placed as long as something is left and nothing is doomed. */
  lemma {:induction false} ListingFrom(ps: seq<Package>, k: nat, placed: set<string>, out: seq<Package>,
                                       depth: map<string, nat>, groupOrder: seq<string>, collate: Collation)
    returns (full: seq<Package>, depths: map<string, nat>)
    requires DistinctShorts(ps) && IsCollation(collate) && RoundDone(ps, k, placed, out, depth, groupOrder, collate)
    requires forall p :: p in ps ==> !Doomed(DependencyGraph(ps), p.short)
    ensures IsLayered(ps, full, depths, groupOrder, collate)
    decreases |Unplaced(ps, placed)|
  {
    hide IsCollation, RoundDone, IsLayered, DistinctShorts, Doomed, DependencyGraph, Unplaced, Ready, NewDepths,
         StableSort, BatchShorts;
    if Unplaced(ps, placed) == [] {
      AllPlaced(ps, k, placed, out, depth, groupOrder, collate);
      full, depths := out, depth;
    } else {
      var ready := StableSort(Ready(Unplaced(ps, placed), placed), groupOrder, collate);
      if ready == [] {
        Stuck(ps, k, placed, out, depth, ready, groupOrder, collate);
        assert false;
      }
      NextRound(ps, k, placed, out, depth, ready, groupOrder, collate);
      BatchShrinks(ps, placed, ready);
      var placed' := placed + BatchShorts(ready);
      var depth' := NewDepths(depth, placed, placed', k);
      full, depths := ListingFrom(ps, k + 1, placed', out + ready, depth', groupOrder, collate);
    }
  }

  /** Packages none of which is doomed have a layered listing. */
  lemma ListingExists(ps: seq<Package>, groupOrder: seq<string>, collate: Collation)
    returns (out: seq<Package>, depth: map<string, nat>)
    requires DistinctShorts(ps) && IsCollation(collate)
    requires forall p :: p in ps ==> !Doomed(DependencyGraph(ps), p.short)
    ensures IsLayered(ps, out, depth, groupOrder, collate)
  {
    FirstRound(ps, groupOrder, collate);
    hide IsCollation, RoundDone, IsLayered, DistinctShorts, Doomed, DependencyGraph;
    out, depth := ListingFrom(ps, 0, {}, [], map[], groupOrder, collate);
  }

  ghost predicate IsListing(ps: seq<Package>, out: seq<Package>, groupOrder: seq<string>, collate: Collation) {
    DistinctShorts(ps) && exists depth :: IsLayered(ps, out, depth, groupOrder, collate)
  }

  /** Exchanging two packages reverses their order and changes no member. */
  lemma Exchanged(ps: seq<Package>, i: nat, j: nat) returns (qs: seq<Package>)
    requires DistinctShorts(ps) && i < j < |ps|
    ensures DistinctShorts(qs) && SameMembers(ps, qs)
    ensures Precedes(ps, ps[i], ps[j]) && Precedes(qs, ps[j], ps[i])
  {
    qs := ps[i := ps[j]][j := ps[i]];
    assert qs[i] == ps[j] && qs[j] == ps[i];
    ExchangedMembers(ps, qs, i, j);
    forall m, n | 0 <= m < n < |qs| ensures qs[m].short != qs[n].short {
      var m' := if m == i then j else if m == j then i else m;
      var n' := if n == i then j else if n == j then i else n;
      assert qs[m] == ps[m'] && qs[n] == ps[n'] && m' != n';
    }
  }

  lemma ExchangedMembers(ps: seq<Package>, qs: seq<Package>, i: nat, j: nat)
    requires i < j < |ps| && qs == ps[i := ps[j]][j := ps[i]]
    ensures SameMembers(ps, qs)
  {
    forall p | p in ps ensures p in qs {
      var m :| 0 <= m < |ps| && ps[m] == p;
      assert qs[if m == i then j else if m == j then i else m] == p;
    }
    forall p | p in qs ensures p in ps {
      var m :| 0 <= m < |qs| && qs[m] == p;
      assert ps[if m == i then j else if m == j then i else m] == p;
    }
  }

  /**
   * For packages none of which is doomed, every order of the input gives the same listing if and only if no two
   * packages at one depth compare equal.
   */
  lemma OrderMattersExactly(ps: seq<Package>, groupOrder: seq<string>, collate: Collation)
    requires DistinctShorts(ps) && IsCollation(collate)
    requires forall p :: p in ps ==> !Doomed(DependencyGraph(ps), p.short)
    ensures NoTies(ps, groupOrder, collate) <==>
      forall qs, out, out' ::
        DistinctShorts(qs) && SameMembers(ps, qs) && IsListing(ps, out, groupOrder, collate)
          && IsListing(qs, out', groupOrder, collate)
        ==> out == out'
  {
    if NoTies(ps, groupOrder, collate) {
      forall qs, out, out' | DistinctShorts(qs) && SameMembers(ps, qs) && IsListing(ps, out, groupOrder, collate)
        && IsListing(qs, out', groupOrder, collate)
        ensures out == out'
      {
        var depth :| IsLayered(ps, out, depth, groupOrder, collate);
        var depth' :| IsLayered(qs, out', depth', groupOrder, collate);
        OrderIndependent(ps, qs, out, depth, out', depth', groupOrder, collate);
      }
    } else {
      var qs, out, out' := TieShows(ps, groupOrder, collate);
    }
  }

  /** The packages at `i` and `j` tie at depth `d`. */
  ghost predicate TiedAt(ps: seq<Package>, i: nat, j: nat, d: nat, groupOrder: seq<string>, collate: Collation)
    requires DistinctShorts(ps)
  {
    && i < j < |ps|
    && AtDepth(DependencyGraph(ps), ps[i].short, d) && AtDepth(DependencyGraph(ps), ps[j].short, d)
    && Compare(ps[i], ps[j], groupOrder, collate) == 0
  }

  lemma TieFound(ps: seq<Package>, groupOrder: seq<string>, collate: Collation) returns (i: nat, j: nat, d: nat)
    requires DistinctShorts(ps) && IsCollation(collate) && !NoTies(ps, groupOrder, collate)
    ensures TiedAt(ps, i, j, d, groupOrder, collate)
  {
    hide AtDepth, DependencyGraph;
    var a, b;
    a, b, d :|
      && a in ps && b in ps && a != b
      && AtDepth(DependencyGraph(ps), a.short, d) && AtDepth(DependencyGraph(ps), b.short, d)
      && Compare(a, b, groupOrder, collate) == 0;
    CompareFlips(a, b, groupOrder, collate);
    CompareFlips(b, a, groupOrder, collate);
    hide Compare, IsCollation, NoTies, DistinctShorts;
    i :| 0 <= i < |ps| && ps[i] == a;
    j :| 0 <= j < |ps| && ps[j] == b;
    if j < i { i, j := j, i; }
  }

  /** With a tie, exchanging the tied packages in the input changes the listing. */
  lemma TieShows(ps: seq<Package>, groupOrder: seq<string>, collate: Collation)
    returns (qs: seq<Package>, out: seq<Package>, out': seq<Package>)
    requires DistinctShorts(ps) && IsCollation(collate) && !NoTies(ps, groupOrder, collate)
    requires forall p :: p in ps ==> !Doomed(DependencyGraph(ps), p.short)
    ensures DistinctShorts(qs) && SameMembers(ps, qs) && out != out'
    ensures IsListing(ps, out, groupOrder, collate) && IsListing(qs, out', groupOrder, collate)
  {
    hide Compare, AtDepth, DistinctShorts, DependencyGraph, Precedes, IsLayered, IsCollation, NoTies, Doomed;
    var i, j, d := TieFound(ps, groupOrder, collate);
    var depth, depth';
    out, depth := ListingExists(ps, groupOrder, collate);
    qs := Exchanged(ps, i, j);
    SameGraph(ps, qs);
    out', depth' := ListingExists(qs, groupOrder, collate);
    TiesFollowInput(ps, qs, out, depth, out', depth', groupOrder, collate, ps[i], ps[j], d);
  }

  /** A locale that tells no two strings apart, such as one that ignores all their characters. */
  const TYING: Collation := (a: string, b: string) => 0

  /** Two independent packages of one group whose names such a locale ties: each input order is its own listing. */
  lemma TiedPair(group: string)
    ensures
      var a, b := Package("a", "@x/a", group, "a", []), Package("b", "@x/b", group, "b", []);
      && IsCollation(TYING) && SameMembers([a, b], [b, a]) && !NoTies([a, b], [], TYING)
      && IsListing([a, b], [a, b], [], TYING) && IsListing([b, a], [b, a], [], TYING)
  {
    var a, b := Package("a", "@x/a", group, "a", []), Package("b", "@x/b", group, "b", []);
    PairListed(a, b);
    PairListed(b, a);
    var g := DependencyGraph([a, b]);
    LoneDepth(g, "a");
    LoneDepth(g, "b");
    assert AtDepth(g, a.short, 0) && AtDepth(g, b.short, 0) && Compare(a, b, [], TYING) == 0;
    assert a in [a, b] && b in [a, b] && a != b;
  }

  lemma LoneDepth(g: Graph, s: string)
    requires s in g && g[s] == []
    ensures AtDepth(g, s, 0)
  {
    assert IsPath(g, [s]) && |[s]| == 1 && [s][0] == s;
    forall p ensures !(IsPath(g, p) && |p| == 2 && p[0] == s) {
      if |p| == 2 && p[0] == s { assert !Edge(g, p[0], p[0 + 1]); }
    }
  }

  lemma PairListed(a: Package, b: Package)
    requires a.short != b.short && a.group == b.group && a.deps == [] && b.deps == []
    ensures IsListing([a, b], [a, b], [], TYING)
  {
    var ps := [a, b];
    assert DistinctShorts(ps);
    var g := DependencyGraph(ps);
    var depth := map[a.short := 0, b.short := 0];
    assert a in ps && b in ps;
    LoneDepth(g, a.short);
    LoneDepth(g, b.short);
    assert AreDepths(g, ps, depth);
    assert ps[0] == a && ps[1] == b;
    assert Precedes(ps, a, b);
    assert Compare(a, b, [], TYING) == 0;
    assert InOrder(a, b, ps, depth, [], TYING);
    assert AllInOrder(ps, ps, depth, [], TYING);
    assert IsLayered(ps, ps, depth, [], TYING);
  }
}
