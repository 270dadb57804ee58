/** Replacing ranges of a sequence: the in-place splice from the right, and the one-pass substitution it equals. */
module Splicing {
  datatype Replacement<T> = Replacement(start: nat, end: nat, value: seq<T>)

  predicate InBounds<T>(source: seq<T>, r: Replacement<T>) {
    r.start <= r.end <= |source|
  }

  ghost predicate AllInBounds<T>(source: seq<T>, rs: seq<Replacement<T>>) {
    forall r :: r in rs ==> InBounds(source, r)
  }

  function InsertDescending<T>(r: Replacement<T>, s: seq<Replacement<T>>): seq<Replacement<T>> {
    if s == [] then [r]
    else if r.start >= s[0].start then [r] + s
    else [s[0]] + InsertDescending(r, s[1..])
  }

  /** `sort((a, b) => b.start - a.start)`, which is stable. */
  function SortDescending<T>(s: seq<Replacement<T>>): seq<Replacement<T>> {
    if s == [] then [] else InsertDescending(s[0], SortDescending(s[1..]))
  }

  function Reversed<T>(s: seq<Replacement<T>>): seq<Replacement<T>> {
    if s == [] then [] else Reversed(s[1..]) + [s[0]]
  }

  /** Left to right in one pass: keep up to the next range, write its value, go on after it. */
  function Substitute<T>(source: seq<T>, rs: seq<Replacement<T>>, from: nat): seq<T>
    requires from <= |source| && Ascending(source, rs, from)
  {
    if rs == [] then source[from..]
    else source[from..rs[0].start] + rs[0].value + Substitute(source, rs[1..], rs[0].end)
  }

  /** The ranges lie one after the other, from `from` on. */
  predicate Ascending<T>(source: seq<T>, rs: seq<Replacement<T>>, from: nat) {
    rs == [] || (from <= rs[0].start <= rs[0].end <= |source| && Ascending(source, rs[1..], rs[0].end))
  }

  predicate SortedDescending<T>(s: seq<Replacement<T>>) {
    forall i, j :: 0 <= i < j < |s| ==> s[i].start >= s[j].start
  }

  /** The positions two ranges occupy do not meet. */
  predicate Apart<T>(a: Replacement<T>, b: Replacement<T>) {
    a.end <= b.start || b.end <= a.start
  }

  predicate PairwiseApart<T>(rs: seq<Replacement<T>>) {
    forall i, j :: 0 <= i < j < |rs| ==> Apart(rs[i], rs[j])
  }

  predicate IsEmpty<T>(r: Replacement<T>) {
    r.start == r.end
  }

  /** At one start, nothing but empty ranges follows an empty one. */
  predicate TiesFit<T>(a: Replacement<T>, b: Replacement<T>) {
    a.start == b.start && IsEmpty(a) ==> IsEmpty(b)
  }

  /** No nonempty range is listed after an empty one with the same start. */
  predicate AllTiesFit<T>(rs: seq<Replacement<T>>) {
    forall i, j :: 0 <= i < j < |rs| ==> TiesFit(rs[i], rs[j])
  }

  lemma {:induction false} InsertPermutes<T>(r: Replacement<T>, s: seq<Replacement<T>>)
    ensures multiset(InsertDescending(r, s)) == multiset(s) + multiset{r}
  {
    if s != [] && r.start < s[0].start {
      var rest := InsertDescending(r, s[1..]);
      InsertPermutes(r, s[1..]);
      assert s == [s[0]] + s[1..] && InsertDescending(r, s) == [s[0]] + rest;
      assert multiset([s[0]] + rest) == multiset{s[0]} + multiset(rest);
    } else {
      assert InsertDescending(r, s) == [r] + s;
    }
  }

  lemma InsertMember<T>(r: Replacement<T>, s: seq<Replacement<T>>, x: Replacement<T>)
    requires x in InsertDescending(r, s)
    ensures x == r || x in s
  {
    InsertPermutes(r, s);
    assert x in multiset(InsertDescending(r, s));
  }

  lemma {:induction false} InsertSorts<T>(r: Replacement<T>, s: seq<Replacement<T>>)
    requires SortedDescending(s)
    ensures SortedDescending(InsertDescending(r, s))
  {
    if s != [] && r.start < s[0].start {
      InsertSorts(r, s[1..]);
      InsertPermutes(r, s[1..]);
      var rest := InsertDescending(r, s[1..]);
      forall j | 0 <= j < |rest| ensures s[0].start >= rest[j].start {
        InsertMember(r, s[1..], rest[j]);
        if rest[j] != r {
          var k :| 0 <= k < |s[1..]| && s[1..][k] == rest[j];
          assert s[k + 1] == rest[j];
        }
      }
    }
  }

  lemma {:induction false} InsertApart<T>(r: Replacement<T>, s: seq<Replacement<T>>)
    requires PairwiseApart(s) && forall x :: x in s ==> Apart(r, x)
    ensures PairwiseApart(InsertDescending(r, s))
  {
    if s != [] && r.start < s[0].start {
      InsertApart(r, s[1..]);
      InsertPermutes(r, s[1..]);
      var rest := InsertDescending(r, s[1..]);
      assert s[0] in s;
      forall j | 0 <= j < |rest| ensures Apart(s[0], rest[j]) {
        InsertMember(r, s[1..], rest[j]);
        if rest[j] == r {
          assert Apart(r, s[0]);
        } else {
          var k :| 0 <= k < |s[1..]| && s[1..][k] == rest[j];
          assert s[k + 1] == rest[j] && Apart(s[0], s[k + 1]);
        }
      }
    }
  }

  /** Sorting permutes, orders, and keeps ranges apart. */
  lemma {:induction false} SortSorts<T>(s: seq<Replacement<T>>)
    ensures SortedDescending(SortDescending(s)) && multiset(SortDescending(s)) == multiset(s)
    ensures PairwiseApart(s) ==> PairwiseApart(SortDescending(s))
  {
    hide SortedDescending, PairwiseApart, InsertDescending, Apart;
    if s != [] {
      var first, rest := s[0], SortDescending(s[1..]);
      SortSorts(s[1..]);
      InsertSorts(first, rest);
      InsertPermutes(first, rest);
      assert s == [first] + s[1..];
      if PairwiseApart(s) {
        ApartFromRest(s);
        forall x | x in rest ensures Apart(first, x) { assert x in multiset(rest); }
        InsertApart(first, rest);
      }
    } else {
      NothingSorted<T>();
    }
  }

  lemma ApartFromRest<T>(s: seq<Replacement<T>>)
    requires s != [] && PairwiseApart(s)
    ensures PairwiseApart(s[1..]) && forall x :: x in s[1..] ==> Apart(s[0], x)
  {}

  lemma NothingSorted<T>()
    ensures SortedDescending<T>([]) && PairwiseApart<T>([])
  {}

  lemma {:induction false} AscendingSnoc<T>(source: seq<T>, a: seq<Replacement<T>>, from: nat, r: Replacement<T>)
    requires Ascending(source, a, from) && InBounds(source, r) && from <= r.start
    requires forall x :: x in a ==> x.end <= r.start
    ensures Ascending(source, a + [r], from)
  {
    if a == [] {
      assert a + [r] == [r];
    } else {
      assert a[0] in a;
      AscendingSnoc(source, a[1..], a[0].end, r);
      assert (a + [r])[1..] == a[1..] + [r];
    }
  }

  ghost predicate FitsBefore<T>(r: Replacement<T>, s: seq<Replacement<T>>) {
    forall x :: x in s ==> TiesFit(r, x)
  }

  lemma TiesCons<T>(r: Replacement<T>, s: seq<Replacement<T>>)
    ensures AllTiesFit([r] + s) <==> AllTiesFit(s) && FitsBefore(r, s)
  {
    hide TiesFit;
    var all := [r] + s;
    forall i | 0 <= i < |s| ensures all[i + 1] == s[i] {}
    if AllTiesFit(all) {
      forall i, j | 0 <= i < j < |s| ensures TiesFit(s[i], s[j]) { assert TiesFit(all[i + 1], all[j + 1]); }
      forall x | x in s ensures TiesFit(r, x) {
        var i :| 0 <= i < |s| && s[i] == x;
        assert TiesFit(all[0], all[i + 1]);
      }
    }
  }

  lemma FitsBeforePermuted<T>(r: Replacement<T>, a: seq<Replacement<T>>, b: seq<Replacement<T>>)
    requires multiset(a) == multiset(b)
    ensures FitsBefore(r, a) <==> FitsBefore(r, b)
  {
    hide TiesFit;
    forall x ensures x in a <==> x in b { assert x in multiset(a) <==> x in multiset(b); }
  }

  lemma FitsBeforeCons<T>(r: Replacement<T>, x: Replacement<T>, s: seq<Replacement<T>>)
    ensures FitsBefore(r, [x] + s) <==> TiesFit(r, x) && FitsBefore(r, s)
  {
    hide TiesFit;
    assert ([x] + s)[0] == x;
  }

  /** Insertion passes no range with the same start, so ties keep their order. */
  lemma {:induction false} InsertKeepsTies<T>(r: Replacement<T>, s: seq<Replacement<T>>)
    ensures AllTiesFit(InsertDescending(r, s)) <==> AllTiesFit(s) && FitsBefore(r, s)
  {
    if s != [] && r.start < s[0].start {
      var head, tail, rest := s[0], s[1..], InsertDescending(r, s[1..]);
      InsertKeepsTies(r, tail);
      assert s == [head] + tail && InsertDescending(r, s) == [head] + rest && TiesFit(r, head) && TiesFit(head, r);
      InsertPermutes(r, tail);
      assert multiset([r] + tail) == multiset(rest);
      hide AllTiesFit, InsertDescending, TiesFit, FitsBefore;
      TiesCons(head, rest);
      TiesCons(head, tail);
      FitsBeforeCons(r, head, tail);
      FitsBeforePermuted(head, rest, [r] + tail);
      FitsBeforeCons(head, r, tail);
    } else {
      assert InsertDescending(r, s) == [r] + s;
      TiesCons(r, s);
    }
  }

  lemma {:induction false} SortKeepsTies<T>(s: seq<Replacement<T>>)
    ensures AllTiesFit(SortDescending(s)) <==> AllTiesFit(s)
  {
    if s != [] {
      var rest := SortDescending(s[1..]);
      SortKeepsTies(s[1..]);
      hide AllTiesFit, TiesFit, FitsBefore, InsertDescending;
      InsertKeepsTies(s[0], rest);
      SortSorts(s[1..]);
      FitsBeforePermuted(s[0], rest, s[1..]);
      TiesCons(s[0], s[1..]);
      assert s == [s[0]] + s[1..];
    }
  }

  lemma {:induction false} AscendingEnds<T>(source: seq<T>, a: seq<Replacement<T>>, from: nat, r: Replacement<T>)
    requires Ascending(source, a + [r], from)
    ensures Ascending(source, a, from) && forall x :: x in a ==> x.end <= r.start
  {
    if a != [] {
      assert (a + [r])[1..] == a[1..] + [r] && (a + [r])[0] == a[0];
      AscendingEnds(source, a[1..], a[0].end, r);
      LastFirst(source, a[1..], r, a[0].end);
    }
  }

  /** A nonoverlapping range further back in the order ends before the first starts exactly when the two fit. */
  lemma TieEnds<T>(source: seq<T>, s: seq<Replacement<T>>, x: Replacement<T>)
    requires s != [] && x in s[1..] && SortedDescending(s) && PairwiseApart(s) && AllInBounds(source, s)
    ensures x.end <= s[0].start <==> TiesFit(s[0], x)
  {
    var i :| 0 <= i < |s[1..]| && s[1..][i] == x;
    assert s[i + 1] == x && x in s && s[0] in s && Apart(s[0], s[i + 1]);
    assert InBounds(source, s[0]) && InBounds(source, x);
  }

  /** Ranges sorted by descending start, read backwards, are ascending exactly when their ties fit. */
  lemma {:induction false} ReversedAscends<T>(source: seq<T>, s: seq<Replacement<T>>)
    requires SortedDescending(s) && PairwiseApart(s) && AllInBounds(source, s)
    ensures Ascending(source, Reversed(s), 0) <==> AllTiesFit(s)
  {
    if s != [] {
      var first, rest, back := s[0], s[1..], Reversed(s[1..]);
      forall x | x in rest ensures x.end <= first.start <==> TiesFit(first, x) { TieEnds(source, s, x); }
      assert InBounds(source, first) by { assert first in s; }
      assert SortedDescending(rest) && PairwiseApart(rest);
      ReversedAscends(source, rest);
      assert s == [first] + rest && Reversed(s) == back + [first];
      ReversedPermutes(rest);
      forall x ensures x in back <==> x in rest { assert x in multiset(back) <==> x in multiset(rest); }
      hide AllTiesFit, TiesFit, PairwiseApart, Reversed, Ascending, SortedDescending, InBounds;
      TiesCons(first, rest);
      if Ascending(source, Reversed(s), 0) { AscendingEnds(source, back, 0, first); }
      if FitsBefore(first, rest) && Ascending(source, back, 0) { AscendingSnoc(source, back, 0, first); }
    } else {
      assert Reversed(s) == [];
    }
  }

  /**
   * On ranges inside the source that do not overlap, the order in which the splice makes them is the source order
   * read backwards if and only if no nonempty range is listed after an empty one with the same start.
   */
  lemma SpliceOrderExactly<T>(source: seq<T>, replacements: seq<Replacement<T>>)
    requires PairwiseApart(replacements) && AllInBounds(source, replacements)
    ensures Ascending(source, Reversed(SortDescending(replacements)), 0) <==> AllTiesFit(replacements)
  {
    var sorted := SortDescending(replacements);
    SortSorts(replacements);
    SortKeepsTies(replacements);
    forall r | r in sorted ensures InBounds(source, r) { assert r in multiset(sorted); }
    ReversedAscends(source, sorted);
  }

  /** `slice` with nonnegative bounds. */
  function Slice<T>(s: seq<T>, from: nat, to: nat): seq<T> {
    var hi := if to < |s| then to else |s|;
    if from < hi then s[from..hi] else []
  }

  function ApplyOne<T>(text: seq<T>, r: Replacement<T>): seq<T> {
    Slice(text, 0, r.start) + r.value + Slice(text, r.end, |text|)
  }

  function ApplyAll<T>(text: seq<T>, rs: seq<Replacement<T>>): seq<T>
    decreases rs
  {
    if rs == [] then text else ApplyAll(ApplyOne(text, rs[0]), rs[1..])
  }

  /** A splice leaves what stands before it alone. */
  lemma SpliceKeepsFront<T>(source: seq<T>, r: Replacement<T>, from: nat, till: nat)
    requires InBounds(source, r) && from <= till <= r.start
    ensures ApplyOne(source, r)[from..till] == source[from..till]
    ensures ApplyOne(source, r)[from..] == source[from..r.start] + r.value + source[r.end..]
    ensures |ApplyOne(source, r)| >= r.start
  {}

  /** The last replacement may be made first: nothing in front of it moves. */
  lemma {:induction false} LastFirst<T>(source: seq<T>, a: seq<Replacement<T>>, r: Replacement<T>, from: nat)
    requires from <= |source| && Ascending(source, a + [r], from)
    ensures InBounds(source, r) && from <= r.start
    ensures Ascending(ApplyOne(source, r), a, from)
    ensures Substitute(source, a + [r], from) == Substitute(ApplyOne(source, r), a, from)
  {
    if a == [] {
      assert a + [r] == [r];
      assert Ascending(source, [r][1..], [r][0].end);
      SpliceKeepsFront(source, r, from, from);
    } else {
      assert (a + [r])[1..] == a[1..] + [r] && (a + [r])[0] == a[0];
      LastFirst(source, a[1..], r, a[0].end);
      SpliceKeepsFront(source, r, from, a[0].start);
      hide ApplyOne;
    }
  }

  /** Splicing from the right equals the one-pass substitution, for any ascending ranges. */
  lemma {:induction false} DescendingIsOnePass<T>(source: seq<T>, s: seq<Replacement<T>>)
    requires Ascending(source, Reversed(s), 0)
    ensures ApplyAll(source, s) == Substitute(source, Reversed(s), 0)
    decreases s
  {
    if s != [] {
      LastFirst(source, Reversed(s[1..]), s[0], 0);
      DescendingIsOnePass(ApplyOne(source, s[0]), s[1..]);
    }
  }

  /**
   * The in-place splice. On ranges inside the source that do not overlap, with no nonempty range listed after an
   * empty one at the same place, the result is the one-pass substitution of the same ranges in source order, so all
   * other text is untouched.
   */
  method Splice<T>(source: seq<T>, replacements: seq<Replacement<T>>) returns (projected: seq<T>)
    ensures projected == ApplyAll(source, SortDescending(replacements))
    ensures
      PairwiseApart(replacements) && AllTiesFit(replacements) && AllInBounds(source, replacements) ==>
        var ordered := Reversed(SortDescending(replacements));
        && Ascending(source, ordered, 0) && multiset(ordered) == multiset(replacements)
        && projected == Substitute(source, ordered, 0)
  {
    projected := source;
    var sorted := SortDescending(replacements);
    for i := 0 to |sorted|
      invariant ApplyAll(source, sorted) == ApplyAll(projected, sorted[i..])
    {
      assert sorted[i..][1..] == sorted[i + 1..];
      projected := ApplyOne(projected, sorted[i]);
    }
    SortSorts(replacements);
    ReversedPermutes(sorted);
    if PairwiseApart(replacements) && AllTiesFit(replacements) && AllInBounds(source, replacements) {
      SpliceOrderExactly(source, replacements);
      DescendingIsOnePass(source, sorted);
    }
  }

  lemma {:induction false} ReversedPermutes<T>(s: seq<Replacement<T>>)
    ensures multiset(Reversed(s)) == multiset(s)
  {
    if s != [] {
      ReversedPermutes(s[1..]);
      assert s == [s[0]] + s[1..];
    }
  }

  /** Text between, before and after the ranges survives: position `k`, outside every range, is found again. */
  lemma {:induction false} OutsideUntouched<T>(source: seq<T>, rs: seq<Replacement<T>>, from: nat, k: nat)
    returns (at: nat)
    requires from <= k < |source| && Ascending(source, rs, from)
    requires forall r :: r in rs ==> !(r.start <= k < r.end)
    ensures at < |Substitute(source, rs, from)| && Substitute(source, rs, from)[at] == source[k]
    ensures at == k - from + Growth(rs, k)
  {
    if rs == [] || k < rs[0].start {
      at := k - from;
      if rs != [] { NoGrowth(source, rs, from, k); }
    } else {
      assert rs[0] in rs;
      at := OutsideUntouched(source, rs[1..], rs[0].end, k);
      at := at + (rs[0].start - from) + |rs[0].value|;
    }
  }

  /** How far the replacements in front of `k` move it. */
  function Growth<T>(rs: seq<Replacement<T>>, k: nat): int {
    if rs == [] then 0
    else (if rs[0].start <= k then |rs[0].value| - (rs[0].end - rs[0].start) else 0) + Growth(rs[1..], k)
  }

  lemma {:induction false} NoGrowth<T>(source: seq<T>, rs: seq<Replacement<T>>, from: nat, k: nat)
    requires Ascending(source, rs, from) && (rs != [] ==> k < rs[0].start)
    ensures Growth(rs, k) == 0
  {
    if rs != [] { NoGrowth(source, rs[1..], rs[0].end, k); }
  }

  /** Up to the first range, the substitution is the source itself. */
  lemma SubstituteFrom<T>(source: seq<T>, rs: seq<Replacement<T>>, from: nat, to: nat)
    requires from <= to <= |source| && Ascending(source, rs, from) && (rs != [] ==> to <= rs[0].start)
    ensures Ascending(source, rs, to)
    ensures Substitute(source, rs, from) == source[from..to] + Substitute(source, rs, to)
  {
    if rs == [] {
      assert source[from..] == source[from..to] + source[to..];
    } else {
      SliceAt(source, from, to, rs[0].start);
      Regroup(source[from..to], source[to..rs[0].start], rs[0].value, Substitute(source, rs[1..], rs[0].end));
    }
  }

  lemma SliceAt<T>(s: seq<T>, from: nat, mid: nat, to: nat)
    requires from <= mid <= to <= |s|
    ensures s[from..to] == s[from..mid] + s[mid..to]
  {}

  lemma Regroup<T>(a: seq<T>, b: seq<T>, c: seq<T>, d: seq<T>)
    ensures (a + b) + c + d == a + (b + c + d)
  {}

  /** One more splice in front of the ranges already substituted. */
  lemma SubstituteNext<T>(source: seq<T>, r: Replacement<T>, rs: seq<Replacement<T>>)
    requires Ascending(source, [r] + rs, 0)
    ensures Ascending(source, rs, 0)
    ensures ApplyOne(Substitute(source, rs, 0), r) == Substitute(source, [r] + rs, 0)
  {
    assert ([r] + rs)[1..] == rs;
    assert Ascending(source, rs, r.end);
    assert Ascending(source, rs, 0);
    SubstituteFrom(source, rs, 0, r.end);
    var text, rest := Substitute(source, rs, 0), Substitute(source, rs, r.end);
    assert text == source[0..r.end] + rest;
    assert text[..r.start] == source[..r.start] && text[r.end..] == rest;
    assert Substitute(source, [r] + rs, 0) == source[0..r.start] + r.value + rest;
  }
}
