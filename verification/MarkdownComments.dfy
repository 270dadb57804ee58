/** Which Markdown lines survive once HTML comments are rendered away (scripts/markdown.ts). */
module MarkdownComments {
  import opened Numbers
  import opened Wrappers
  import opened Text

  /** Half-open: source offsets of a comment, or columns of a line. */
  datatype Interval = Interval(start: nat, end: nat)

  predicate Inside(off: nat, c: Interval) {
    c.start <= off < c.end
  }

  predicate Covered(off: nat, comments: seq<Interval>) {
    exists c :: c in comments && Inside(off, c)
  }

  lemma CoveredConcat(a: seq<Interval>, b: seq<Interval>, off: nat)
    ensures Covered(off, a + b) <==> Covered(off, a) || Covered(off, b)
  {
    if Covered(off, a) {
      var c :| c in a && Inside(off, c);
      assert c in a + b;
    }
    if Covered(off, b) {
      var c :| c in b && Inside(off, c);
      assert c in a + b;
    }
  }

  // ---- Finding the comments of one HTML node ----

  /** `s.indexOf(pattern, from)`. */
  function FindFrom(s: string, pattern: string, from: nat): (r: Option<nat>)
    ensures r.Some? ==> from <= r.value && OccursAt(s, pattern, r.value)
    ensures r.Some? ==> forall k :: from <= k < r.value ==> !OccursAt(s, pattern, k)
    ensures r.None? ==> forall k :: from <= k ==> !OccursAt(s, pattern, k)
    decreases |s| + 1 - from
  {
    if from > |s| then None
    else if OccursAt(s, pattern, from) then Some(from)
    else FindFrom(s, pattern, from + 1)
  }

  const OPENER := "<!--"
  const CLOSER := "-->"

  /** The comment opened at `start` runs to its first closer, or to the end of the text. */
  predicate IsComment(value: string, c: Interval) {
    && OccursAt(value, OPENER, c.start)
    && var close := FindFrom(value, CLOSER, c.start + |OPENER|);
       c.end == if close.None? then |value| else close.value + |CLOSER|
  }

  /** How a comment is spelled: it opens with `<!--`, and ends with `-->` or with the text. */
  lemma CommentSpelled(value: string, c: Interval)
    requires IsComment(value, c)
    ensures c.start + 4 <= c.end <= |value| && value[c.start..c.start + 4] == "<!--"
    ensures c.end == |value| || (c.start + 7 <= c.end && value[c.end - 3..c.end] == "-->")
  {
    var close := FindFrom(value, CLOSER, c.start + |OPENER|);
    if close.Some? { assert OccursAt(value, CLOSER, close.value); }
  }

  /** The comments of a text from `cursor` on, each search starting where the previous comment ended. */
  function Scan(value: string, cursor: nat): seq<Interval>
    requires cursor <= |value|
    decreases |value| - cursor
  {
    var start := FindFrom(value, OPENER, cursor);
    if start.None? then []
    else
      var close := FindFrom(value, CLOSER, start.value + |OPENER|);
      var end := if close.None? then |value| else close.value + |CLOSER|;
      [Interval(start.value, end)] + Scan(value, end)
  }

  /** One interval after the other. */
  predicate InOrder(comments: seq<Interval>) {
    forall i, j :: 0 <= i < j < |comments| ==> comments[i].end <= comments[j].start
  }

  lemma InOrderCons(c: Interval, rest: seq<Interval>)
    requires InOrder(rest) && forall d :: d in rest ==> c.end <= d.start
    ensures InOrder([c] + rest)
  {
    var all := [c] + rest;
    forall i, j | 0 <= i < j < |all| ensures all[i].end <= all[j].start {
      assert all[j] == rest[j - 1] && rest[j - 1] in rest;
      if i > 0 { assert all[i] == rest[i - 1]; }
    }
  }

  lemma FirstCovers(c: Interval, rest: seq<Interval>, off: nat)
    requires Inside(off, c) || Covered(off, rest)
    ensures Covered(off, [c] + rest)
  {
    CoveredConcat([c], rest, off);
    if Inside(off, c) { assert [c][0] in [c]; }
  }

  /** The scan finds comments only, disjoint and in order, and every opener from `cursor` on lies inside one. */
  lemma {:induction false} ScanIsExact(value: string, cursor: nat)
    requires cursor <= |value|
    ensures forall c :: c in Scan(value, cursor) ==> IsComment(value, c) && cursor <= c.start
    ensures InOrder(Scan(value, cursor))
    ensures forall k: nat :: cursor <= k && OccursAt(value, OPENER, k) ==> Covered(k, Scan(value, cursor))
    decreases |value| - cursor
  {
    hide InOrder, Covered;
    if Scan(value, cursor) == [] {
      assert InOrder([]) by { NoneInOrder(); }
    } else {
      var c := Scan(value, cursor)[0];
      var rest := Scan(value, c.end);
      assert Scan(value, cursor) == [c] + rest && IsComment(value, c) && cursor <= c.start < c.end;
      assert forall k: nat :: cursor <= k < c.start ==> !OccursAt(value, OPENER, k);
      ScanIsExact(value, c.end);
      hide Scan, IsComment, OccursAt;
      InOrderCons(c, rest);
      forall k: nat | cursor <= k && OccursAt(value, OPENER, k)
        ensures Covered(k, [c] + rest)
      {
        FirstCovers(c, rest, k);
      }
    }
  }

  lemma NoneInOrder()
    ensures InOrder([])
  {}

  lemma ScanNext(value: string, cursor: nat)
    requires cursor <= |value|
    ensures
      var start := FindFrom(value, OPENER, cursor);
      if start.None? then Scan(value, cursor) == []
      else
        var close := FindFrom(value, CLOSER, start.value + |OPENER|);
        var end := if close.None? then |value| else close.value + |CLOSER|;
        cursor < end <= |value| && Scan(value, cursor) == [Interval(start.value, end)] + Scan(value, end)
  {
    hide FindFrom;
  }

  method CommentsOf(value: string) returns (comments: seq<Interval>)
    ensures comments == Scan(value, 0)
  {
    hide Scan, FindFrom, OccursAt;
    comments := [];
    var cursor := 0;
    while true
      invariant cursor <= |value|
      invariant Scan(value, 0) == comments + Scan(value, cursor)
      decreases |value| - cursor
    {
      ScanNext(value, cursor);
      var start := FindFrom(value, OPENER, cursor);
      if start.None? { return; }
      var close := FindFrom(value, CLOSER, start.value + |OPENER|);
      var end := if close.None? then |value| else close.value + |CLOSER|;
      assert comments + ([Interval(start.value, end)] + Scan(value, end)) == comments + [Interval(start.value, end)]
        + Scan(value, end);
      comments := comments + [Interval(start.value, end)];
      cursor := end;
    }
  }

  /** An HTML node of the parsed source: where it starts, and its text. */
  datatype HtmlNode = HtmlNode(offset: nat, value: string)

  function Shifted(comments: seq<Interval>, offset: nat): seq<Interval> {
    if comments == [] then []
    else [Interval(offset + comments[0].start, offset + comments[0].end)] + Shifted(comments[1..], offset)
  }

  /** The comments of all nodes, at their source offsets. */
  function AllComments(nodes: seq<HtmlNode>): seq<Interval> {
    if nodes == [] then []
    else
      var last := nodes[|nodes| - 1];
      AllComments(nodes[..|nodes| - 1]) + Shifted(Scan(last.value, 0), last.offset)
  }

  /** The character is inside a comment of the node. */
  predicate Comments(n: HtmlNode, off: nat) {
    n.offset <= off && Covered(off - n.offset, Scan(n.value, 0))
  }

  lemma {:induction false} ShiftedCovers(comments: seq<Interval>, offset: nat, off: nat)
    ensures Covered(off, Shifted(comments, offset)) <==> offset <= off && Covered(off - offset, comments)
  {
    if comments != [] {
      var first := Interval(offset + comments[0].start, offset + comments[0].end);
      ShiftedCovers(comments[1..], offset, off);
      CoveredConcat([first], Shifted(comments[1..], offset), off);
      assert Covered(off, [first]) <==> Inside(off, first) by { assert [first][0] == first; }
      if offset <= off {
        CoveredConcat([comments[0]], comments[1..], off - offset);
        assert comments == [comments[0]] + comments[1..];
        assert Covered(off - offset, [comments[0]]) <==> Inside(off - offset, comments[0]) by {
          assert [comments[0]][0] == comments[0];
        }
      }
    }
  }

  /** The collected intervals cover exactly the characters inside some node's comment. */
  lemma {:induction false} AllCommentsCover(nodes: seq<HtmlNode>, off: nat)
    ensures Covered(off, AllComments(nodes)) <==> exists n :: n in nodes && Comments(n, off)
  {
    hide Scan;
    if nodes != [] {
      var front, last := nodes[..|nodes| - 1], nodes[|nodes| - 1];
      AllCommentsCover(front, off);
      CoveredConcat(AllComments(front), Shifted(Scan(last.value, 0), last.offset), off);
      ShiftedCovers(Scan(last.value, 0), last.offset, off);
      hide Covered, Shifted, AllComments;
      assert nodes == front + [last];
      if Comments(last, off) { assert last in nodes; }
    }
  }

  /** The node's text stands in the source where the node starts. */
  predicate Verbatim(source: string, n: HtmlNode) {
    n.offset + |n.value| <= |source| && source[n.offset..n.offset + |n.value|] == n.value
  }

  /** A run of the source from an opener to its first closer, or to the end of the node. */
  predicate IsCommentRun(source: string, n: HtmlNode, run: Interval) {
    && n.offset <= run.start && run.start + |OPENER| <= run.end <= n.offset + |n.value|
      && OccursAt(source, OPENER, run.start)
    && (run.end == n.offset + |n.value|
        || (run.start + |OPENER| + |CLOSER| <= run.end && OccursAt(source, CLOSER, run.end - |CLOSER|)))
    && forall k :: run.start + |OPENER| <= k && k + |CLOSER| < run.end ==> !OccursAt(source, CLOSER, k)
  }

  lemma SliceOfSlice(s: string, a: nat, b: nat, i: nat, j: nat)
    requires a <= b <= |s| && i <= j <= b - a
    ensures s[a..b][i..j] == s[a + i..a + j]
  {
    var outer := s[a..b];
    forall k | 0 <= k < j - i ensures outer[i..j][k] == s[a + i..a + j][k] { assert outer[i + k] == s[a + (i + k)]; }
  }

  lemma VerbatimOccurs(source: string, n: HtmlNode, pattern: string, k: nat)
    requires Verbatim(source, n) && k + |pattern| <= |n.value|
    ensures OccursAt(n.value, pattern, k) <==> OccursAt(source, pattern, n.offset + k)
  {
    SliceOfSlice(source, n.offset, n.offset + |n.value|, k, k + |pattern|);
  }

  /** A comment of a text runs from its opener to its first closer, or to the end. */
  lemma CommentRuns(value: string, c: Interval)
    requires IsComment(value, c)
    ensures OccursAt(value, OPENER, c.start) && c.start + |OPENER| <= c.end <= |value|
    ensures
      || c.end == |value|
      || (c.start + |OPENER| + |CLOSER| <= c.end && OccursAt(value, CLOSER, c.end - |CLOSER|))
    ensures forall k :: c.start + |OPENER| <= k && k + |CLOSER| < c.end ==> !OccursAt(value, CLOSER, k)
  {
    assert c.start + |OPENER| <= |value|;
    var close := FindFrom(value, CLOSER, c.start + |OPENER|);
    if close.Some? { assert close.value + |CLOSER| <= |value|; }
    hide OccursAt;
  }

  lemma RunOfComment(source: string, n: HtmlNode, c: Interval)
    requires Verbatim(source, n) && IsComment(n.value, c)
    ensures IsCommentRun(source, n, Interval(n.offset + c.start, n.offset + c.end))
  {
    hide OccursAt, Verbatim, IsComment;
    CommentRuns(n.value, c);
    VerbatimOccurs(source, n, OPENER, c.start);
    if c.end != |n.value| { VerbatimOccurs(source, n, CLOSER, c.end - |CLOSER|); }
    forall k | n.offset + c.start + |OPENER| <= k && k + |CLOSER| < n.offset + c.end
      ensures !OccursAt(source, CLOSER, k)
    {
      VerbatimOccurs(source, n, CLOSER, k - n.offset);
    }
  }

  /** Where nodes stand verbatim in the source, every covered character lies in a comment of the source text. */
  lemma CoveredIsInSource(source: string, nodes: seq<HtmlNode>, off: nat) returns (n: HtmlNode, run: Interval)
    requires (forall m :: m in nodes ==> Verbatim(source, m)) && Covered(off, AllComments(nodes))
    ensures n in nodes && Inside(off, run) && IsCommentRun(source, n, run)
  {
    AllCommentsCover(nodes, off);
    n :| n in nodes && Comments(n, off);
    var c :| c in Scan(n.value, 0) && Inside(off - n.offset, c);
    ScanIsExact(n.value, 0);
    RunOfComment(source, n, c);
    run := Interval(n.offset + c.start, n.offset + c.end);
  }

  /** And every opener of a verbatim node is covered. */
  lemma SourceOpenerIsCovered(source: string, nodes: seq<HtmlNode>, n: HtmlNode, at: nat)
    requires n in nodes && Verbatim(source, n) && n.offset <= at && at + |OPENER| <= n.offset + |n.value|
    requires OccursAt(source, OPENER, at)
    ensures Covered(at, AllComments(nodes))
  {
    VerbatimOccurs(source, n, OPENER, at - n.offset);
    ScanIsExact(n.value, 0);
    AllCommentsCover(nodes, at);
    assert Comments(n, at);
  }

  method SourceComments(nodes: seq<HtmlNode>) returns (comments: seq<Interval>)
    ensures comments == AllComments(nodes)
  {
    hide Scan;
    comments := [];
    for i := 0 to |nodes|
      invariant comments == AllComments(nodes[..i])
    {
      assert nodes[..i + 1][..i] == nodes[..i];
      var own := CommentsOf(nodes[i].value);
      comments := comments + Shifted(own, nodes[i].offset);
    }
    assert nodes[..|nodes|] == nodes;
  }

  // ---- Cutting the comments by line ----

  /** The source offset of the first character of line `i`. */
  function Offset(lines: seq<string>, i: nat): nat
    requires i <= |lines|
  {
    if i == 0 then 0 else Offset(lines, i - 1) + |lines[i - 1]| + 1
  }

  /** A line and its offset point at the same source characters. */
  lemma {:induction false} OffsetPoints(source: string, c: char, i: nat, k: nat)
    requires i < |Split(source, c)| && k < |Split(source, c)[i]|
    ensures Offset(Split(source, c), i) + k < |source|
    ensures source[Offset(Split(source, c), i) + k] == Split(source, c)[i][k]
    decreases |source|, k
  {
    var lines := Split(source, c);
    if source[0] == c {
      OffsetPoints(source[1..], c, i - 1, k);
      OffsetTail([[]], Split(source[1..], c), i - 1);
    } else if i == 0 {
      if k > 0 { OffsetPoints(source[1..], c, 0, k - 1); }
    } else {
      var rest := Split(source[1..], c);
      OffsetPoints(source[1..], c, i, k);
      OffsetLonger(source[0], rest, i);
      assert lines == [[source[0]] + rest[0]] + rest[1..];
    }
  }

  lemma {:induction false} OffsetTail(head: seq<string>, rest: seq<string>, i: nat)
    requires head == [[]] && i <= |rest|
    ensures Offset(head + rest, i + 1) == Offset(rest, i) + 1
  {
    if i > 0 { OffsetTail(head, rest, i - 1); }
  }

  lemma {:induction false} OffsetLonger(x: char, rest: seq<string>, i: nat)
    requires rest != [] && 1 <= i <= |rest|
    ensures Offset([[x] + rest[0]] + rest[1..], i) == Offset(rest, i) + 1
  {
    if i > 1 { OffsetLonger(x, rest, i - 1); }
  }

  /** Whether a comment reaches a line: it meets its characters, or spans an empty line's position. */
  predicate Touches(c: Interval, lo: nat, len: nat) {
    Max(c.start, lo) < Min(c.end, lo + len) || (len == 0 && Inside(lo, c))
  }

  function Cut(c: Interval, lo: nat, len: nat): Interval
    requires Touches(c, lo, len)
  {
    var from, to := Max(c.start, lo), Min(c.end, lo + len);
    Interval(from - lo, if to < lo then 0 else to - lo)
  }

  /** The column ranges the comments leave on one line, in comment order. */
  function CutAll(comments: seq<Interval>, lo: nat, len: nat): seq<Interval> {
    if comments == [] then []
    else (if Touches(comments[0], lo, len) then [Cut(comments[0], lo, len)] else []) + CutAll(comments[1..], lo, len)
  }

  lemma CutAllCons(c: Interval, comments: seq<Interval>, lo: nat, len: nat)
    ensures CutAll([c] + comments, lo, len) ==
      (if Touches(c, lo, len) then [Cut(c, lo, len)] else []) + CutAll(comments, lo, len)
  {
    assert ([c] + comments)[1..] == comments;
  }

  lemma {:induction false} CutAllAppend(comments: seq<Interval>, c: Interval, lo: nat, len: nat)
    ensures CutAll(comments + [c], lo, len) ==
      CutAll(comments, lo, len) + if Touches(c, lo, len) then [Cut(c, lo, len)] else []
  {
    if comments == [] {
      assert comments + [c] == [c] && [c][1..] == [];
    } else {
      var first, rest := comments[0], comments[1..];
      CutAllAppend(rest, c, lo, len);
      CutAllCons(first, rest, lo, len);
      CutAllCons(first, rest + [c], lo, len);
      hide CutAll;
      assert comments == [first] + rest && comments + [c] == [first] + (rest + [c]);
    }
  }

  predicate FitsLine(ranges: seq<Interval>, len: nat) {
    forall r :: r in ranges ==> r.start <= r.end <= len
  }

  /** A column is in some range of its line exactly when its source offset is in some comment. */
  lemma {:induction false} CutKeepsCover(comments: seq<Interval>, lo: nat, len: nat)
    ensures FitsLine(CutAll(comments, lo, len), len)
    ensures forall off ::
      lo <= off < lo + len ==> (Covered(off - lo, CutAll(comments, lo, len)) <==> Covered(off, comments))
  {
    if comments != [] {
      var c, cuts, rest := comments[0], CutAll(comments, lo, len), CutAll(comments[1..], lo, len);
      CutKeepsCover(comments[1..], lo, len);
      assert comments == [c] + comments[1..];
      forall off | lo <= off < lo + len ensures Covered(off - lo, cuts) <==> Covered(off, comments) {
        CoveredCons(off, c, comments[1..]);
        assert Covered(off - lo, rest) <==> Covered(off, comments[1..]);
        if Touches(c, lo, len) { CoveredCons(off - lo, Cut(c, lo, len), rest); }
      }
    }
  }

  lemma CoveredCons(off: nat, c: Interval, rest: seq<Interval>)
    ensures Covered(off, [c] + rest) <==> Inside(off, c) || Covered(off, rest)
  {
    if Inside(off, c) { assert c in [c] + rest; }
    if Covered(off, rest) {
      var d :| d in rest && Inside(off, d);
      assert d in [c] + rest;
    }
  }

  /** Whether a line meets any comment. */
  predicate Touched(comments: seq<Interval>, lo: nat, len: nat) {
    if len == 0 then Covered(lo, comments) else exists off :: lo <= off < lo + len && Covered(off, comments)
  }

  /** A line has ranges exactly when a comment covers one of its characters, or its place if it is empty. */
  lemma {:induction false} TouchedHasRanges(comments: seq<Interval>, lo: nat, len: nat)
    ensures CutAll(comments, lo, len) != [] <==> Touched(comments, lo, len)
  {
    if comments != [] {
      var c := comments[0];
      assert comments == [c] + comments[1..];
      TouchedHasRanges(comments[1..], lo, len);
      if len == 0 {
        CoveredCons(lo, c, comments[1..]);
      } else {
        forall off: nat ensures Covered(off, comments) <==> Inside(off, c) || Covered(off, comments[1..]) {
          CoveredCons(off, c, comments[1..]);
        }
        if Touches(c, lo, len) { assert Inside(Max(c.start, lo), c); }
      }
    }
  }

  // ---- Sweeping one line ----

  function InsertByStart(r: Interval, s: seq<Interval>): seq<Interval> {
    if s == [] then [r]
    else if r.start <= s[0].start then [r] + s
    else [s[0]] + InsertByStart(r, s[1..])
  }

  /** `[...ranges].sort((left, right) => left[0] - right[0])`. */
  function SortByStart(s: seq<Interval>): seq<Interval> {
    if s == [] then [] else InsertByStart(s[0], SortByStart(s[1..]))
  }

  predicate SortedByStart(s: seq<Interval>) {
    forall i, j :: 0 <= i < j < |s| ==> s[i].start <= s[j].start
  }

  lemma {:induction false} InsertSorts(r: Interval, s: seq<Interval>)
    requires SortedByStart(s)
    ensures SortedByStart(InsertByStart(r, s))
    ensures forall x :: x in InsertByStart(r, s) <==> x == r || x in s
  {
    if s != [] && r.start > s[0].start {
      InsertSorts(r, s[1..]);
      assert s == [s[0]] + s[1..];
      var rest := InsertByStart(r, s[1..]);
      forall j | 0 <= j < |rest| ensures s[0].start <= rest[j].start { assert rest[j] in rest; }
    }
  }

  lemma {:induction false} SortSorts(s: seq<Interval>)
    ensures SortedByStart(SortByStart(s)) && forall x :: x in SortByStart(s) <==> x in s
  {
    if s != [] {
      SortSorts(s[1..]);
      InsertSorts(s[0], SortByStart(s[1..]));
      assert s == [s[0]] + s[1..];
    }
  }

  /** The characters of `raw` up to column `k` that no range covers, one by one. */
  function Visible(raw: string, ranges: seq<Interval>, k: nat): string
    requires k <= |raw|
  {
    if k == 0 then []
    else Visible(raw, ranges, k - 1) + if Covered(k - 1, ranges) then [] else [raw[k - 1]]
  }

  lemma SliceGrows(s: string, from: nat, till: nat)
    requires from <= till < |s|
    ensures s[from..till + 1] == s[from..till] + [s[till]]
  {}

  lemma {:induction false} VisibleRun(raw: string, ranges: seq<Interval>, from: nat, till: nat, covered: bool)
    requires from <= till <= |raw| && forall k: nat :: from <= k < till ==> (Covered(k, ranges) <==> covered)
    ensures Visible(raw, ranges, till) == Visible(raw, ranges, from) + if covered then [] else raw[from..till]
    decreases till
  {
    if from < till {
      VisibleRun(raw, ranges, from, till - 1, covered);
      assert Covered(till - 1, ranges) <==> covered;
      SliceGrows(raw, from, till - 1);
    }
  }

  lemma {:induction false} VisibleMembers(raw: string, ranges: seq<Interval>, k: nat)
    requires k <= |raw|
    ensures (exists c :: c in Visible(raw, ranges, k) && !IsSpace(c)) <==>
            exists i: nat :: i < k && !IsSpace(raw[i]) && !Covered(i, ranges)
  {
    if k > 0 {
      VisibleMembers(raw, ranges, k - 1);
      var before, last := Visible(raw, ranges, k - 1), if Covered(k - 1, ranges) then [] else [raw[k - 1]];
      forall c ensures c in before + last <==> c in before || c in last {}
      if i: nat :| i < k && !IsSpace(raw[i]) && !Covered(i, ranges) {
        if i == k - 1 { assert raw[i] in last; }
      }
      if !Covered(k - 1, ranges) && !IsSpace(raw[k - 1]) { assert raw[k - 1] in before + last; }
    }
  }

  /** `trim().length > 0`. */
  predicate HasText(s: string) {
    exists c :: c in s && !IsSpace(c)
  }

  lemma SortCovers(ranges: seq<Interval>)
    ensures forall i: nat :: Covered(i, SortByStart(ranges)) <==> Covered(i, ranges)
  {
    SortSorts(ranges);
  }

  lemma SortFits(ranges: seq<Interval>, len: nat)
    requires FitsLine(ranges, len)
    ensures FitsLine(SortByStart(ranges), len)
  {
    SortSorts(ranges);
  }

  /** The sweep has passed the ends of the first `n` ranges. */
  predicate SweptPast(ranges: seq<Interval>, n: nat, cursor: nat)
    requires n <= |ranges|
  {
    forall m :: 0 <= m < n ==> ranges[m].end <= cursor
  }

  lemma BeyondAll(ranges: seq<Interval>, cursor: nat)
    requires SweptPast(ranges, |ranges|, cursor)
    ensures forall k: nat :: cursor <= k ==> !Covered(k, ranges)
  {}

  /** The moving-cursor sweep collects exactly the characters outside every range. */
  method HasRenderedTextOutsideComments(raw: string, ranges: Option<seq<Interval>>) returns (kept: bool)
    requires ranges.Some? ==> FitsLine(ranges.value, |raw|)
    ensures ranges.None? ==> kept
    ensures ranges.Some? ==> (kept <==> exists i: nat :: i < |raw| && !IsSpace(raw[i]) && !Covered(i, ranges.value))
  {
    if ranges.None? { return true; }
    var sorted := SortByStart(ranges.value);
    SortSorts(ranges.value);
    SortCovers(ranges.value);
    var cursor: nat := 0;
    var visible := "";
    assert visible == Visible(raw, sorted, cursor);
    hide IsSpace, Visible, Covered, SortByStart, SortedByStart, FitsLine;
    assert SweptPast(sorted, 0, cursor) && FitsLine(sorted, |raw|) by { SortFits(ranges.value, |raw|); }
    hide SweptPast;
    for n := 0 to |sorted|
      invariant cursor <= |raw|
      invariant visible == Visible(raw, sorted, cursor)
      invariant SweptPast(sorted, n, cursor)
    {
      var r := sorted[n];
      SweepStep(raw, sorted, n, cursor);
      visible := visible + if cursor < r.start then raw[cursor..r.start] else "";
      cursor := Max(cursor, r.end);
    }
    BeyondAll(sorted, cursor);
    VisibleRun(raw, sorted, cursor, |raw|, false);
    visible := visible + raw[cursor..];
    VisibleMembers(raw, sorted, |raw|);
    return HasText(visible);
  }

  /** One range of the sweep: the gap before it is visible, the rest of it is not. */
  lemma SweepStep(raw: string, sorted: seq<Interval>, n: nat, cursor: nat)
    requires n < |sorted| && cursor <= |raw| && SortedByStart(sorted) && FitsLine(sorted, |raw|)
    requires SweptPast(sorted, n, cursor)
    ensures sorted[n].start <= sorted[n].end <= |raw| && SweptPast(sorted, n + 1, Max(cursor, sorted[n].end))
    ensures
      var r := sorted[n];
      Visible(raw, sorted, Max(cursor, r.end)) ==
      Visible(raw, sorted, cursor) + if cursor < r.start then raw[cursor..r.start] else ""
  {
    var r := sorted[n];
    assert r in sorted;
    GapIsVisible(sorted, n, cursor);
    RangeIsCovered(sorted, n);
    hide Visible, Covered, FitsLine, SortedByStart;
    var gap := Max(cursor, r.start);
    VisibleRun(raw, sorted, cursor, gap, false);
    assert Visible(raw, sorted, gap) ==
      Visible(raw, sorted, cursor) + if cursor < r.start then raw[cursor..r.start] else "";
    if gap < r.end { VisibleRun(raw, sorted, gap, r.end, true); }
  }

  lemma GapIsVisible(sorted: seq<Interval>, n: nat, cursor: nat)
    requires n < |sorted| && SortedByStart(sorted) && SweptPast(sorted, n, cursor)
    ensures forall k: nat :: cursor <= k < sorted[n].start ==> !Covered(k, sorted)
  {
    forall k: nat | cursor <= k < sorted[n].start ensures !Covered(k, sorted) {
      forall m | 0 <= m < |sorted| ensures !Inside(k, sorted[m]) {
        if m >= n { assert sorted[n].start <= sorted[m].start; }
      }
    }
  }

  lemma RangeIsCovered(sorted: seq<Interval>, n: nat)
    requires n < |sorted|
    ensures forall k: nat :: sorted[n].start <= k < sorted[n].end ==> Covered(k, sorted)
  {
    forall k: nat | sorted[n].start <= k < sorted[n].end ensures Covered(k, sorted) { assert Inside(k, sorted[n]); }
  }

  // ---- The filter ----

  datatype ProseLine = ProseLine(index: nat, raw: string)

  /** The table holds what the comments leave on line `i`, and no empty entry. */
  predicate HasCuts(ranges: map<nat, seq<Interval>>, lines: seq<string>, comments: seq<Interval>, i: nat)
    requires i < |lines|
  {
    EntryIs(ranges, i + 1, CutAll(comments, Offset(lines, i), |lines[i]|))
  }

  predicate EntryIs(ranges: map<nat, seq<Interval>>, line: nat, cuts: seq<Interval>) {
    (line in ranges <==> cuts != []) && (line in ranges ==> ranges[line] == cuts)
  }

  /** The comments of one line, appended to the table one by one. */
  method AddLineRanges(before: map<nat, seq<Interval>>, line: nat, comments: seq<Interval>, lo: nat, len: nat)
    returns (ranges: map<nat, seq<Interval>>)
    requires line !in before
    ensures EntryIs(ranges, line, CutAll(comments, lo, len))
    ensures forall n, cuts :: n != line ==> (EntryIs(ranges, n, cuts) <==> EntryIs(before, n, cuts))
    ensures ranges.Keys <= before.Keys + {line}
  {
    hide Touches, Cut;
    ranges := before;
    for j := 0 to |comments|
      invariant EntryIs(ranges, line, CutAll(comments[..j], lo, len))
      invariant forall n, cuts :: n != line ==> (EntryIs(ranges, n, cuts) <==> EntryIs(before, n, cuts))
      invariant ranges.Keys <= before.Keys + {line}
    {
      assert comments[..j + 1] == comments[..j] + [comments[j]];
      CutAllAppend(comments[..j], comments[j], lo, len);
      if Touches(comments[j], lo, len) {
        var lineRanges := if line in ranges then ranges[line] else [];
        ranges := ranges[line := lineRanges + [Cut(comments[j], lo, len)]];
      }
    }
    assert comments[..|comments|] == comments;
  }

  /** The per-line ranges; lines no comment reaches have no entry. */
  method HtmlCommentRanges(nodes: seq<HtmlNode>, lines: seq<string>) returns (ranges: map<nat, seq<Interval>>)
    ensures forall i :: 0 <= i < |lines| ==> HasCuts(ranges, lines, AllComments(nodes), i)
  {
    hide EntryIs, CutAll, AllComments;
    var comments := SourceComments(nodes);
    ranges := map[];
    var lineOffset := 0;
    for i := 0 to |lines|
      invariant lineOffset == Offset(lines, i)
      invariant forall n :: n in ranges ==> n <= i
      invariant forall n :: 0 <= n < i ==> HasCuts(ranges, lines, comments, n)
    {
      ghost var before := ranges;
      ranges := AddLineRanges(ranges, i + 1, comments, lineOffset, |lines[i]|);
      forall n | 0 <= n < i ensures HasCuts(ranges, lines, comments, n) {
        assert HasCuts(before, lines, comments, n);
        assert EntryIs(before, n + 1, CutAll(comments, Offset(lines, n), |lines[n]|));
      }
      lineOffset := lineOffset + |lines[i]| + 1;
    }
  }

  /**
   * A line survives if and only if it is outside code and, when a comment touches it, it still has a
   * non-whitespace character whose source offset lies in no comment.
   */
  predicate Survives(lines: seq<string>, comments: seq<Interval>, fenced: set<nat>, i: nat)
    requires i < |lines|
  {
    var lo, raw := Offset(lines, i), lines[i];
    i + 1 !in fenced
    && (!Touched(comments, lo, |raw|) || exists k: nat :: k < |raw| && !IsSpace(raw[k]) && !Covered(lo + k, comments))
  }

  /** The lines that survive, each once, from top to bottom. */
  method MarkdownProseLines(source: string, nodes: seq<HtmlNode>, fenced: set<nat>) returns (kept: seq<ProseLine>)
    ensures kept == SurvivingLines(Split(source, '\n'), AllComments(nodes), fenced, |Split(source, '\n')|)
    ensures forall i, j :: 0 <= i < j < |kept| ==> kept[i].index < kept[j].index
    ensures
      var lines := Split(source, '\n');
      forall l :: l in kept <==>
        1 <= l.index <= |lines| && l.raw == lines[l.index - 1]
          && Survives(lines, AllComments(nodes), fenced, l.index - 1)
  {
    hide AllComments;
    var rawLines := Split(source, '\n');
    ghost var comments := AllComments(nodes);
    var ranges := HtmlCommentRanges(nodes, rawLines);
    kept := [];
    for i := 0 to |rawLines|
      invariant kept == SurvivingLines(rawLines, comments, fenced, i)
    {
      hide Survives, CutAll, Touched;
      var raw := rawLines[i];
      assert HasCuts(ranges, rawLines, comments, i);
      CutKeepsCover(comments, Offset(rawLines, i), |raw|);
      var rendered := false;
      if i + 1 !in fenced {
        rendered := HasRenderedTextOutsideComments(raw, if i + 1 in ranges then Some(ranges[i + 1]) else None);
        if rendered { kept := kept + [ProseLine(i + 1, raw)]; }
      }
      RenderedSurvives(rawLines, comments, fenced, i, rendered);
    }
    hide SurvivingLines, Survives;
    SurvivingInOrder(rawLines, comments, fenced, |rawLines|);
    forall l
      ensures l in kept <==>
        1 <= l.index <= |rawLines| && l.raw == rawLines[l.index - 1]
          && Survives(rawLines, comments, fenced, l.index - 1)
    {
      SurvivingExactly(rawLines, comments, fenced, |rawLines|, l);
    }
  }

  /** Judging the cuts of a line is judging its source offsets. */
  lemma RenderedSurvives(lines: seq<string>, comments: seq<Interval>, fenced: set<nat>, i: nat, rendered: bool)
    requires i < |lines|
    requires
      var cuts := CutAll(comments, Offset(lines, i), |lines[i]|);
      var clear := cuts == [] || exists k: nat :: k < |lines[i]| && !IsSpace(lines[i][k]) && !Covered(k, cuts);
      rendered <==> i + 1 !in fenced && clear
    ensures rendered <==> Survives(lines, comments, fenced, i)
  {
    hide IsSpace;
    var lo, raw := Offset(lines, i), lines[i];
    TouchedHasRanges(comments, lo, |raw|);
    CutKeepsCover(comments, lo, |raw|);
    forall k: nat | k < |raw| ensures Covered(k, CutAll(comments, lo, |raw|)) <==> Covered(lo + k, comments) {
      assert Covered(lo + k - lo, CutAll(comments, lo, |raw|)) <==> Covered(lo + k, comments);
    }
  }

  /** The surviving lines among the first `n`, with their 1-based numbers. */
  function SurvivingLines(lines: seq<string>, comments: seq<Interval>, fenced: set<nat>, n: nat): seq<ProseLine>
    requires n <= |lines|
  {
    if n == 0 then []
    else SurvivingLines(lines, comments, fenced, n - 1)
         + if Survives(lines, comments, fenced, n - 1) then [ProseLine(n, lines[n - 1])] else []
  }

  lemma {:induction false} SurvivingInOrder(lines: seq<string>, comments: seq<Interval>, fenced: set<nat>, n: nat)
    requires n <= |lines|
    ensures IsRising(SurvivingLines(lines, comments, fenced, n), n)
  {
    hide Survives;
    if n > 0 {
      SurvivingInOrder(lines, comments, fenced, n - 1);
      var front := SurvivingLines(lines, comments, fenced, n - 1);
      RisingNext(front, n, lines[n - 1]);
      assert front + [] == front;
    }
  }

  /** From top to bottom, among the first `n` lines. */
  predicate IsRising(kept: seq<ProseLine>, n: nat) {
    && (forall i :: 0 <= i < |kept| ==> 1 <= kept[i].index <= n)
    && (forall i, j :: 0 <= i < j < |kept| ==> kept[i].index < kept[j].index)
  }

  lemma RisingNext(front: seq<ProseLine>, n: nat, raw: string)
    requires n > 0 && IsRising(front, n - 1)
    ensures IsRising(front, n) && IsRising(front + [ProseLine(n, raw)], n)
  {}

  lemma {:induction false} SurvivingExactly(lines: seq<string>, comments: seq<Interval>, fenced: set<nat>, n: nat,
                                            l: ProseLine)
    requires n <= |lines|
    ensures l in SurvivingLines(lines, comments, fenced, n) <==>
            1 <= l.index <= n && l.raw == lines[l.index - 1] && Survives(lines, comments, fenced, l.index - 1)
  {
    if n > 0 { SurvivingExactly(lines, comments, fenced, n - 1, l); }
  }
}
