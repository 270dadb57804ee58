/** Carrying edited code blocks over to the other language of a pair (scripts/translation-brief.ts). */
module TranslationBrief {
  import opened Wrappers
  import opened Text
  import opened Splicing

  /** The lines a code block occupies, 1-based and inclusive, as the parser reports them. */
  datatype Span = Span(startLine: nat, endLine: nat)

  /** A document and its code blocks. */
  datatype Document = Document(markdown: string, spans: seq<Span>)

  // ---- Lines ----

  /** `replaceAll('\r\n', '\n')`. */
  function NormalizeNewlines(s: string): string {
    if |s| < 2 then s
    else if s[0] == '\r' && s[1] == '\n' then ['\n'] + NormalizeNewlines(s[2..])
    else [s[0]] + NormalizeNewlines(s[1..])
  }

  function DropFinalEmpty(lines: seq<string>): seq<string> {
    if lines != [] && lines[|lines| - 1] == "" then lines[..|lines| - 1] else lines
  }

  function LinesOf(markdown: string): seq<string> {
    DropFinalEmpty(Split(NormalizeNewlines(markdown), '\n'))
  }

  /** Lines as text with exactly one trailing newline. */
  function TextOf(lines: seq<string>): string {
    Join(lines, "\n") + "\n"
  }

  lemma {:induction false} NormalizeIdentity(s: string)
    requires '\r' !in s
    ensures NormalizeNewlines(s) == s
  {
    if |s| >= 2 {
      assert s[0] in s;
      NormalizeIdentity(s[1..]);
      assert s == [s[0]] + s[1..];
    }
  }

  /** Nonempty newline-free lines. */
  predicate ProperLines(lines: seq<string>) {
    lines != [] && forall l :: l in lines ==> '\n' !in l && '\r' !in l
  }

  lemma {:induction false} JoinHasNoReturn(lines: seq<string>)
    requires forall l :: l in lines ==> '\r' !in l
    ensures '\r' !in Join(lines, "\n")
  {
    if |lines| > 1 {
      JoinHasNoReturn(lines[1..]);
      assert lines[0] in lines;
    } else if |lines| == 1 {
      assert lines[0] in lines;
    }
  }

  /** Writing lines as text and reading them back is the identity, even when the last line is empty. */
  lemma LinesOfText(lines: seq<string>)
    requires ProperLines(lines)
    ensures LinesOf(TextOf(lines)) == lines
  {
    JoinHasNoReturn(lines);
    NormalizeIdentity(TextOf(lines));
    var joined := Join(lines, "\n");
    SplitAppend(joined, "", '\n');
    assert joined + ['\n'] + "" == TextOf(lines);
    SplitJoin(lines, '\n');
  }

  lemma TextOfInjective(a: seq<string>, b: seq<string>)
    requires ProperLines(a) && ProperLines(b)
    ensures TextOf(a) == TextOf(b) <==> a == b
  {
    LinesOfText(a);
    LinesOfText(b);
  }

  /** The lines of a text without carriage returns are newline-free. */
  lemma LinesAreProper(markdown: string)
    requires '\r' !in markdown
    ensures forall l :: l in LinesOf(markdown) ==> '\n' !in l && '\r' !in l
  {
    NormalizeIdentity(markdown);
    SplitHasNo(markdown, '\n', '\r');
    var parts := Split(markdown, '\n');
    forall l | l in LinesOf(markdown) ensures l in parts {}
  }

  lemma {:induction false} SplitHasNo(s: string, c: char, d: char)
    requires d !in s
    ensures forall p :: p in Split(s, c) ==> d !in p
  {
    if s != [] {
      SplitHasNo(s[1..], c, d);
      assert s[0] in s;
      var rest := Split(s[1..], c);
      assert rest[0] in rest;
    }
  }

  lemma {:induction false} CrlfGoes(part: string, rest: string)
    requires '\r' !in part
    ensures NormalizeNewlines(part + "\r\n" + rest) == part + "\n" + NormalizeNewlines(rest)
  {
    var s := part + "\r\n" + rest;
    if part == [] {
      assert s[2..] == rest;
    } else {
      assert part[0] in part;
      CrlfGoes(part[1..], rest);
      assert s[1..] == part[1..] + "\r\n" + rest;
      assert s == [part[0]] + s[1..] && part == [part[0]] + part[1..];
    }
  }

  /** Lines with carriage returns before their line feeds. */
  function CrlfText(lines: seq<string>): string {
    if lines == [] then "" else lines[0] + "\r\n" + CrlfText(lines[1..])
  }

  lemma {:induction false} CrlfNormalized(lines: seq<string>)
    requires lines != [] && forall l :: l in lines ==> '\r' !in l
    ensures NormalizeNewlines(CrlfText(lines)) == TextOf(lines)
  {
    hide NormalizeNewlines;
    assert lines[0] in lines;
    CrlfGoes(lines[0], CrlfText(lines[1..]));
    if |lines| == 1 {
      assert CrlfText(lines[1..]) == "";
      NormalizeIdentity("");
      assert TextOf(lines) == lines[0] + "\n" + "";
    } else {
      CrlfNormalized(lines[1..]);
      assert TextOf(lines) == lines[0] + "\n" + TextOf(lines[1..]);
    }
  }

  /** A text with carriage returns before its line feeds has the same lines. */
  lemma CrlfReadsAlike(lines: seq<string>)
    requires ProperLines(lines)
    ensures LinesOf(CrlfText(lines)) == lines
  {
    CrlfNormalized(lines);
    LinesOfText(lines);
    JoinHasNoReturn(lines);
    NormalizeIdentity(TextOf(lines));
  }

  // ---- Spans ----

  /** Block ranges as the parser yields them: inside the text, one after the other. */
  predicate ProperSpans(spans: seq<Span>, count: nat) {
    && (forall i :: 0 <= i < |spans| ==> 1 <= spans[i].startLine <= spans[i].endLine <= count)
    && (forall i :: 0 <= i < |spans| - 1 ==> spans[i].endLine < spans[i + 1].startLine)
  }

  predicate ProperDocument(d: Document) {
    '\r' !in d.markdown && ProperSpans(d.spans, |LinesOf(d.markdown)|)
  }

  /** `lines.slice(startLine - 1, endLine)`. */
  function BlockLines(lines: seq<string>, span: Span): seq<string> {
    Slice(lines, if span.startLine == 0 then 0 else span.startLine - 1, span.endLine)
  }

  function SpanText(lines: seq<string>, span: Span): string {
    TextOf(BlockLines(lines, span))
  }

  function Blocks(d: Document): seq<seq<string>> {
    BlocksOf(LinesOf(d.markdown), d.spans)
  }

  function BlocksOf(lines: seq<string>, spans: seq<Span>): (r: seq<seq<string>>)
    ensures |r| == |spans| && forall i :: 0 <= i < |spans| ==> r[i] == BlockLines(lines, spans[i])
  {
    if spans == [] then [] else [BlockLines(lines, spans[0])] + BlocksOf(lines, spans[1..])
  }

  /** Replacements of the spans from number `k` on that `values` provides for. */
  function Chosen(spans: seq<Span>, values: map<nat, seq<string>>, k: nat): seq<Replacement<string>>
    requires forall i :: 0 <= i < |spans| ==> 1 <= spans[i].startLine
    decreases |spans| - k
  {
    if k >= |spans| then []
    else
      var rest := Chosen(spans, values, k + 1);
      if k in values then [Replacement(spans[k].startLine - 1, spans[k].endLine, values[k])] + rest else rest
  }

  lemma {:induction false} ChosenAscends(lines: seq<string>, spans: seq<Span>, values: map<nat, seq<string>>, k: nat,
                                         from: nat)
    requires ProperSpans(spans, |lines|) && from <= |lines|
    requires k < |spans| ==> from < spans[k].startLine
    ensures Ascending(lines, Chosen(spans, values, k), from)
    ensures Chosen(spans, values, k) != [] ==>
      k < |spans| && spans[k].startLine - 1 <= Chosen(spans, values, k)[0].start
    decreases |spans| - k
  {
    if k < |spans| {
      ChosenAscends(lines, spans, values, k + 1, spans[k].endLine);
      var rest := Chosen(spans, values, k + 1);
      if k in values {
        assert ([Replacement(spans[k].startLine - 1, spans[k].endLine, values[k])] + rest)[1..] == rest;
      } else if rest != [] {
        SubstituteFromEarlier(lines, rest, spans[k].endLine, from);
      }
    }
  }

  lemma SubstituteFromEarlier(lines: seq<string>, rs: seq<Replacement<string>>, from: nat, earlier: nat)
    requires Ascending(lines, rs, from) && earlier <= from
    ensures Ascending(lines, rs, earlier)
  {}

  /**
   * Replaces whole spans, the last one first, so that earlier line numbers stay valid. The loop visits the keys
   * of the map in descending order; a key without a span is an error.
   */
  method ReplaceSpanTexts(markdown: string, spans: seq<Span>, replacements: map<nat, string>)
    returns (r: Result<string, ()>)
    requires ProperSpans(spans, |LinesOf(markdown)|)
    ensures r.Err? <==> exists k :: k in replacements && k >= |spans|
    ensures r.Ok? ==>
      var values := map k | k in replacements :: LinesOf(replacements[k]);
      var lines := LinesOf(markdown);
      Ascending(lines, Chosen(spans, values, 0), 0) && r.value == TextOf(Substitute(lines, Chosen(spans, values, 0), 0))
  {
    if exists k :: k in replacements && k >= |spans| { return Err(()); }
    ghost var values := map k | k in replacements :: LinesOf(replacements[k]);
    ghost var original := LinesOf(markdown);
    var lines := LinesOf(markdown);
    var k := |spans|;
    ChosenAscends(original, spans, values, k, 0);
    while k > 0
      invariant 0 <= k <= |spans|
      invariant Ascending(original, Chosen(spans, values, k), 0)
      invariant lines == Substitute(original, Chosen(spans, values, k), 0)
    {
      k := k - 1;
      ChosenAscends(original, spans, values, k, 0);
      if k in replacements {
        var splice := Replacement(spans[k].startLine - 1, spans[k].endLine, LinesOf(replacements[k]));
        SubstituteNext(original, splice, Chosen(spans, values, k + 1));
        lines := ApplyOne(lines, splice);
      }
    }
    return Ok(TextOf(lines));
  }

  // ---- Prose and blocks ----

  /** The stretches of prose before, between and after the spans, from line `from` on. */
  function Prose(lines: seq<string>, spans: seq<Span>, k: nat, from: nat): (r: seq<seq<string>>)
    requires ProperSpans(spans, |lines|) && k <= |spans| && from <= |lines|
      && (k < |spans| ==> from < spans[k].startLine)
    ensures |r| == |spans| - k + 1
    decreases |spans| - k
  {
    if k == |spans| then [lines[from..]]
    else [lines[from..spans[k].startLine - 1]] + Prose(lines, spans, k + 1, spans[k].endLine)
  }

  function ProseOf(d: Document): seq<seq<string>>
    requires ProperDocument(d)
  {
    Prose(LinesOf(d.markdown), d.spans, 0, 0)
  }

  /** Prose and blocks in turn: `prose[0]`, `blocks[0]`, `prose[1]`, and so on. */
  function Weave(prose: seq<seq<string>>, blocks: seq<seq<string>>): seq<string>
    requires |prose| == |blocks| + 1
  {
    if blocks == [] then prose[0] else prose[0] + blocks[0] + Weave(prose[1..], blocks[1..])
  }

  /** The block a span ends up with: its replacement if it has one, its own lines otherwise. */
  function BlockAfter(lines: seq<string>, spans: seq<Span>, values: map<nat, seq<string>>, k: nat): seq<string>
    requires k < |spans|
  {
    if k in values then values[k] else BlockLines(lines, spans[k])
  }

  function ResultBlocks(lines: seq<string>, spans: seq<Span>, values: map<nat, seq<string>>,
                        k: nat): (r: seq<seq<string>>)
    requires k <= |spans|
    ensures |r| == |spans| - k
    ensures forall i :: 0 <= i < |r| ==> r[i] == BlockAfter(lines, spans, values, k + i)
    decreases |spans| - k
  {
    if k == |spans| then [] else [BlockAfter(lines, spans, values, k)] + ResultBlocks(lines, spans, values, k + 1)
  }

  lemma WeaveCons(p: seq<string>, prose: seq<seq<string>>, b: seq<string>, blocks: seq<seq<string>>)
    requires |prose| == |blocks| + 1
    ensures Weave([p] + prose, [b] + blocks) == p + b + Weave(prose, blocks)
  {
    assert ([p] + prose)[1..] == prose && ([b] + blocks)[1..] == blocks;
  }

  lemma SubstituteStep(lines: seq<string>, spans: seq<Span>, values: map<nat, seq<string>>, k: nat, from: nat)
    requires ProperSpans(spans, |lines|) && k < |spans| && from < spans[k].startLine
    ensures Ascending(lines, Chosen(spans, values, k), from)
      && Ascending(lines, Chosen(spans, values, k + 1), spans[k].endLine)
    ensures Substitute(lines, Chosen(spans, values, k), from) ==
            lines[from..spans[k].startLine - 1] + BlockAfter(lines, spans, values, k)
            + Substitute(lines, Chosen(spans, values, k + 1), spans[k].endLine)
  {
    var start, end := spans[k].startLine - 1, spans[k].endLine;
    ChosenAscends(lines, spans, values, k, from);
    ChosenAscends(lines, spans, values, k + 1, end);
    var rest := Chosen(spans, values, k + 1);
    if k in values {
      assert ([Replacement(start, end, values[k])] + rest)[1..] == rest;
    } else {
      SubstituteFrom(lines, rest, from, end);
      SliceAt(lines, from, start, end);
      assert BlockAfter(lines, spans, values, k) == lines[start..end];
    }
  }

  /** Replacing some spans weaves the old prose with the resulting blocks. */
  lemma {:induction false} SubstituteWeaves(lines: seq<string>, spans: seq<Span>, values: map<nat, seq<string>>, k: nat,
                                            from: nat)
    requires ProperSpans(spans, |lines|) && k <= |spans| && from <= |lines|
      && (k < |spans| ==> from < spans[k].startLine)
    ensures Ascending(lines, Chosen(spans, values, k), from)
    ensures Substitute(lines, Chosen(spans, values, k), from) ==
      Weave(Prose(lines, spans, k, from), ResultBlocks(lines, spans, values, k))
    decreases |spans| - k
  {
    if k < |spans| {
      hide Weave, Substitute, Chosen, Ascending, BlockAfter;
      var start, end := spans[k].startLine - 1, spans[k].endLine;
      SubstituteStep(lines, spans, values, k, from);
      SubstituteWeaves(lines, spans, values, k + 1, end);
      WeaveCons(lines[from..start], Prose(lines, spans, k + 1, end),
                BlockAfter(lines, spans, values, k), ResultBlocks(lines, spans, values, k + 1));
    }
  }

  lemma ReplacementsWeave(lines: seq<string>, spans: seq<Span>, values: map<nat, seq<string>>, blocks: seq<seq<string>>)
    requires ProperSpans(spans, |lines|) && |blocks| == |spans|
    requires forall i: nat ::
      i < |spans| ==> blocks[i] == if i in values then values[i] else BlockLines(lines, spans[i])
    ensures Ascending(lines, Chosen(spans, values, 0), 0)
    ensures Substitute(lines, Chosen(spans, values, 0), 0) == Weave(Prose(lines, spans, 0, 0), blocks)
  {
    SubstituteWeaves(lines, spans, values, 0, 0);
    assert ResultBlocks(lines, spans, values, 0) == blocks;
  }

  // ---- Masking ----

  function Decimal(n: nat): string {
    if n < 10 then [('0' as int + n) as char] else Decimal(n / 10) + [('0' as int + n % 10) as char]
  }

  /** The number a string of digits stands for. */
  function ValueOf(digits: string): int {
    if digits == [] then 0 else 10 * ValueOf(digits[..|digits| - 1]) + (digits[|digits| - 1] as int - '0' as int)
  }

  /** Numbers are written in decimal, without leading zeros. */
  lemma {:induction false} DecimalStandsFor(n: nat)
    ensures ValueOf(Decimal(n)) == n && Decimal(n) != [] && (n > 0 ==> Decimal(n)[0] != '0')
  {
    if n >= 10 {
      DecimalStandsFor(n / 10);
      var front, last := Decimal(n / 10), ('0' as int + n % 10) as char;
      assert (front + [last])[..|front|] == front;
    }
  }

  function Placeholder(i: nat): string {
    "DSH_TRANSLATION_CODE_" + Decimal(i)
  }

  lemma {:induction false} DecimalDigits(n: nat)
    ensures forall c :: c in Decimal(n) ==> '0' <= c <= '9'
  {
    if n >= 10 { DecimalDigits(n / 10); }
  }

  lemma PlaceholderProper(i: nat)
    ensures ProperLines([Placeholder(i)]) && LinesOf(Placeholder(i) + "\n") == [Placeholder(i)]
  {
    DecimalDigits(i);
    assert '\n' !in "DSH_TRANSLATION_CODE_" && '\r' !in "DSH_TRANSLATION_CODE_";
    LinesOfText([Placeholder(i)]);
  }

  /** One placeholder line for each span from number `k` on. */
  function Placeholders(k: nat, n: nat): (r: seq<seq<string>>)
    requires k <= n
    ensures |r| == n - k && forall i :: 0 <= i < |r| ==> r[i] == [Placeholder(k + i)]
    decreases n - k
  {
    if k == n then [] else [[Placeholder(k)]] + Placeholders(k + 1, n)
  }

  function MaskedLines(d: Document): seq<string>
    requires ProperDocument(d)
  {
    Weave(ProseOf(d), Placeholders(0, |d.spans|))
  }

  method MaskCodeSpans(d: Document) returns (r: string)
    requires ProperDocument(d)
    ensures r == TextOf(MaskedLines(d))
  {
    hide LinesOf, Substitute, Chosen, Weave, Prose, Placeholder, TextOf;
    var n := |d.spans|;
    var replacements := map i: nat | 0 <= i < n :: Placeholder(i) + "\n";
    var replaced := ReplaceSpanTexts(d.markdown, d.spans, replacements);
    assert replaced.Ok?;
    ghost var values := map k | k in replacements :: LinesOf(replacements[k]);
    forall i: nat | i < n ensures i in values && values[i] == Placeholders(0, n)[i] { PlaceholderProper(i); }
    ReplacementsWeave(LinesOf(d.markdown), d.spans, values, Placeholders(0, n));
    return replaced.value;
  }

  /** The placeholder of a block stands neither in the prose right before it nor in the prose right after it. */
  predicate NoStray(prose: seq<seq<string>>) {
    forall k :: 0 <= k < |prose| - 1 ==> Placeholder(k) !in prose[k] && Placeholder(k) !in prose[k + 1]
  }

  function Masked(prose: seq<seq<string>>, n: nat): seq<string>
    requires |prose| == n + 1
  {
    Weave(prose, Placeholders(0, n))
  }

  lemma WeaveHead(prose: seq<seq<string>>, k: nat, n: nat)
    requires k < n && |prose| == n - k + 1
    ensures
      var w := Weave(prose, Placeholders(k, n));
      && |w| > |prose[0]| && w[..|prose[0]|] == prose[0] && w[|prose[0]|] == Placeholder(k)
      && w[|prose[0]| + 1..] == Weave(prose[1..], Placeholders(k + 1, n))
  {
    assert Placeholders(k, n)[1..] == Placeholders(k + 1, n);
    var w, rest := Weave(prose, Placeholders(k, n)), Weave(prose[1..], Placeholders(k + 1, n));
    assert w == prose[0] + [Placeholder(k)] + rest;
  }

  /** Where stretch `k` of the prose starts in the masked text. */
  function Start(prose: seq<seq<string>>, k: nat): nat
    requires k <= |prose|
  {
    if k == 0 then 0 else Start(prose, k - 1) + |prose[k - 1]| + 1
  }

  lemma {:induction false} StartShifts(prose: seq<seq<string>>, k: nat)
    requires 0 < k <= |prose|
    ensures Start(prose, k) == |prose[0]| + 1 + Start(prose[1..], k - 1)
  {
    if k > 1 { StartShifts(prose, k - 1); }
  }

  /** Stretch `s` stands in `w` from `start` on, followed by `mark`, or by nothing. */
  predicate Holds(w: seq<string>, start: nat, s: seq<string>, mark: Option<string>) {
    var end := start + |s|;
    && end <= |w| && w[start..end] == s
    && (if mark.Some? then end < |w| && w[end] == mark.value else end == |w|)
  }

  /** What follows stretch `k` of a text masked from block `j` on. */
  function MarkAfter(j: nat, n: nat, k: nat): Option<string> {
    if j + k < n then Some(Placeholder(j + k)) else None
  }

  lemma HoldsLater(w: seq<string>, d: nat, rest: seq<string>, start: nat, s: seq<string>, mark: Option<string>)
    requires d <= |w| && w[d..] == rest && Holds(rest, start, s, mark)
    ensures Holds(w, d + start, s, mark)
  {
    SliceShifts(w, d, start, start + |s|);
  }

  lemma FirstStretch(prose: seq<seq<string>>, j: nat, n: nat)
    requires j <= n && |prose| == n - j + 1
    ensures Holds(Weave(prose, Placeholders(j, n)), 0, prose[0], MarkAfter(j, n, 0))
  {
    if j < n { WeaveHead(prose, j, n); }
  }

  /** The masked text holds each stretch at its start, each followed by its placeholder, the last by nothing. */
  lemma {:induction false} StretchAt(prose: seq<seq<string>>, j: nat, n: nat, k: nat)
    requires j <= n && |prose| == n - j + 1 && k <= n - j
    ensures Holds(Weave(prose, Placeholders(j, n)), Start(prose, k), prose[k], MarkAfter(j, n, k))
    decreases k
  {
    hide Weave, Placeholder, Holds;
    if k == 0 {
      FirstStretch(prose, j, n);
    } else {
      WeaveHead(prose, j, n);
      StretchAt(prose[1..], j + 1, n, k - 1);
      StartShifts(prose, k);
      HoldsLater(Weave(prose, Placeholders(j, n)), |prose[0]| + 1, Weave(prose[1..], Placeholders(j + 1, n)),
                 Start(prose[1..], k - 1), prose[k], MarkAfter(j, n, k));
    }
  }

  lemma SliceShifts(w: seq<string>, d: nat, from: nat, till: nat)
    requires d <= |w| && from <= till <= |w| - d
    ensures w[d..][from..till] == w[d + from..d + till]
    ensures till < |w| - d ==> w[d..][till] == w[d + till]
  {}

  /** The position of the mark of block `k`. */
  function Mark(prose: seq<seq<string>>, k: nat): nat
    requires k < |prose|
  {
    Start(prose, k) + |prose[k]|
  }

  lemma StrayIn(w: seq<string>, stretch: seq<string>, start: nat, at: nat, mark: string)
    requires start + |stretch| <= |w| && w[start..start + |stretch|] == stretch && start <= at < start + |stretch|
      && w[at] == mark
    ensures mark in stretch
  {
    assert stretch[at - start] == mark;
  }

  /** No mark of another reading of the masked text lies further left: it would stand in the prose before the block. */
  lemma {:induction false} NoneLeft(p: seq<seq<string>>, q: seq<seq<string>>, n: nat, k: nat)
    requires |p| == |q| == n + 1 && k < n && NoStray(p) && Masked(p, n) == Masked(q, n)
    ensures Mark(p, k) <= Mark(q, k)
  {
    hide Weave, Placeholder, NoStray;
    if k > 0 { NoneLeft(p, q, n, k - 1); }
    StretchAt(p, 0, n, k);
    StretchAt(q, 0, n, k);
    if Mark(q, k) < Mark(p, k) {
      StrayIn(Masked(p, n), p[k], Start(p, k), Mark(q, k), Placeholder(k));
      StrayHere(p, k);
      assert false;
    }
  }

  /** Nor further right: it would stand in the prose after the block. */
  lemma {:induction false} NoneRight(p: seq<seq<string>>, q: seq<seq<string>>, n: nat, k: nat)
    requires |p| == |q| == n + 1 && k < n && NoStray(p) && Masked(p, n) == Masked(q, n)
    ensures Mark(q, k) <= Mark(p, k)
    decreases n - k
  {
    hide Weave, Placeholder, NoStray;
    if k + 1 < n { NoneRight(p, q, n, k + 1); }
    StretchAt(p, 0, n, k + 1);
    StretchAt(q, 0, n, k);
    StretchAt(q, 0, n, k + 1);
    if Mark(p, k) < Mark(q, k) {
      StrayIn(Masked(p, n), p[k + 1], Start(p, k + 1), Mark(q, k), Placeholder(k));
      StrayHere(p, k);
      assert false;
    }
  }

  lemma StrayHere(prose: seq<seq<string>>, k: nat)
    requires k + 1 < |prose| && NoStray(prose)
    ensures Placeholder(k) !in prose[k] && Placeholder(k) !in prose[k + 1]
  {}

  lemma MarksMeet(p: seq<seq<string>>, q: seq<seq<string>>, n: nat)
    requires |p| == |q| == n + 1 && NoStray(p) && Masked(p, n) == Masked(q, n)
    ensures p == q
  {
    forall k | 0 <= k < n ensures Mark(p, k) == Mark(q, k) {
      NoneLeft(p, q, n, k);
      NoneRight(p, q, n, k);
    }
    hide Weave, Placeholder, NoStray;
    forall k | 0 <= k <= n ensures p[k] == q[k] {
      StretchAt(p, 0, n, k);
      StretchAt(q, 0, n, k);
      if k > 0 { assert Mark(p, k - 1) == Mark(q, k - 1); }
      assert Start(p, k) == Start(q, k);
      if k < n { assert Mark(p, k) == Mark(q, k); }
      assert |p[k]| == |q[k]|;
    }
  }

  lemma WeaveOne(prose: seq<seq<string>>, k: nat, n: nat)
    requires k < n && |prose| == n - k + 1
    ensures Weave(prose, Placeholders(k, n)) == prose[0] + [Placeholder(k)] + Weave(prose[1..], Placeholders(k + 1, n))
  {
    assert Placeholders(k, n)[1..] == Placeholders(k + 1, n);
  }

  /** What follows the second stretch of a masked text. */
  function AfterTwo(prose: seq<seq<string>>, j: nat, n: nat): seq<string>
    requires j < n && |prose| == n - j + 1
  {
    if j + 1 == n then [] else [Placeholder(j + 1)] + Weave(prose[2..], Placeholders(j + 2, n))
  }

  lemma SecondStretch(prose: seq<seq<string>>, j: nat, n: nat)
    requires j < n && |prose| == n - j + 1
    ensures Weave(prose[1..], Placeholders(j + 1, n)) == prose[1] + AfterTwo(prose, j, n)
  {
    if j + 1 < n {
      WeaveOne(prose[1..], j + 1, n);
      hide Weave, Placeholder;
      assert prose[1..][1..] == prose[2..] && prose[1..][0] == prose[1];
      Grouped(prose[1], [Placeholder(j + 1)], Weave(prose[2..], Placeholders(j + 2, n)));
    }
  }

  lemma Grouped(a: seq<string>, b: seq<string>, c: seq<string>)
    ensures a + b + c == a + (b + c)
  {}

  lemma TwoStretches(prose: seq<seq<string>>, j: nat, n: nat)
    requires j < n && |prose| == n - j + 1
    ensures Weave(prose, Placeholders(j, n)) == (prose[0] + [Placeholder(j)] + prose[1]) + AfterTwo(prose, j, n)
  {
    hide Placeholder, Weave, AfterTwo;
    WeaveOne(prose, j, n);
    SecondStretch(prose, j, n);
    Grouped(prose[0] + [Placeholder(j)], prose[1], AfterTwo(prose, j, n));
  }

  /** A mark may be moved to another place that carries it. */
  lemma {:induction false} MarkMoves(p: seq<seq<string>>, q: seq<seq<string>>, j: nat, n: nat, k: nat)
    requires j <= n && |p| == |q| == n - j + 1 && k < n - j
    requires forall i :: 0 <= i < |p| && i != k && i != k + 1 ==> p[i] == q[i]
    requires p[k] + [Placeholder(j + k)] + p[k + 1] == q[k] + [Placeholder(j + k)] + q[k + 1]
    ensures Weave(p, Placeholders(j, n)) == Weave(q, Placeholders(j, n))
    decreases k
  {
    hide Placeholder, Weave;
    if k == 0 {
      TwoStretches(p, j, n);
      TwoStretches(q, j, n);
      assert p[2..] == q[2..];
    } else {
      WeaveOne(p, j, n);
      WeaveOne(q, j, n);
      MarkMoves(p[1..], q[1..], j + 1, n, k - 1);
    }
  }

  predicate IsLineOf(prose: seq<seq<string>>, l: string) {
    exists seg :: seg in prose && l in seg
  }

  predicate IsPlaceholder(l: string, n: nat) {
    exists m: nat :: m < n && l == Placeholder(m)
  }

  /** A text with one more place that carries the mark can be read with the mark there. */
  lemma MarkElsewhere(a: seq<string>, b: seq<string>, mark: string) returns (c: seq<string>, d: seq<string>)
    requires mark in a || mark in b
    ensures a + [mark] + b == c + [mark] + d && c != a
    ensures forall l :: l in c || l in d ==> l in a || l in b || l == mark
  {
    if mark in a {
      var i :| 0 <= i < |a| && a[i] == mark;
      c, d := a[..i], a[i + 1..] + [mark] + b;
      assert a == a[..i] + [mark] + a[i + 1..];
    } else {
      var i :| 0 <= i < |b| && b[i] == mark;
      c, d := a + [mark] + b[..i], b[i + 1..];
      assert b == b[..i] + [mark] + b[i + 1..];
    }
  }

  /** Another prose with the same masked text, for every prose with a stray placeholder; it moves one line stretch. */
  lemma StrayHides(p: seq<seq<string>>, n: nat) returns (q: seq<seq<string>>)
    requires |p| == n + 1 && !NoStray(p)
    ensures |q| == n + 1 && q != p && Masked(q, n) == Masked(p, n)
    ensures forall seg, l :: seg in q && l in seg ==> IsLineOf(p, l) || IsPlaceholder(l, n)
  {
    hide Weave, Placeholder;
    var k :| 0 <= k < n && (Placeholder(k) in p[k] || Placeholder(k) in p[k + 1]);
    hide NoStray;
    var c, d := MarkElsewhere(p[k], p[k + 1], Placeholder(k));
    q := p[k := c][k + 1 := d];
    assert q[k] == c;
    MarkMoves(p, q, 0, n, k);
    assert p[k] in p && p[k + 1] in p;
    forall seg, l | seg in q && l in seg ensures IsLineOf(p, l) || IsPlaceholder(l, n) {
      var i :| 0 <= i < |q| && q[i] == seg;
      if i != k && i != k + 1 { assert p[i] in p && l in p[i]; }
    }
  }

  /** The masked text determines the prose if and only if no placeholder stands in the prose next to its own block. */
  lemma MaskExactly(p: seq<seq<string>>, n: nat)
    requires |p| == n + 1
    ensures NoStray(p) <==> forall q: seq<seq<string>> :: |q| == n + 1 && Masked(q, n) == Masked(p, n) ==> q == p
  {
    hide Masked;
    if NoStray(p) {
      forall q: seq<seq<string>> | |q| == n + 1 && Masked(q, n) == Masked(p, n) ensures q == p { MarksMeet(p, q, n); }
    } else {
      var q := StrayHides(p, n);
    }
  }

  /** Without a stray placeholder in the confirmed source, equal masks mean exactly that the prose is the same. */
  lemma MaskComparesProse(confirmed: Document, current: Document)
    requires ProperDocument(confirmed) && ProperDocument(current) && |confirmed.spans| == |current.spans|
    requires NoStray(ProseOf(confirmed))
    ensures MaskedLines(confirmed) == MaskedLines(current) <==> ProseOf(confirmed) == ProseOf(current)
  {
    hide NoStray;
    if MaskedLines(confirmed) == MaskedLines(current) {
      MarksMeet(ProseOf(confirmed), ProseOf(current), |confirmed.spans|);
    }
  }

  // ---- The mechanical update ----

  lemma BlockProper(d: Document, i: nat)
    requires ProperDocument(d) && i < |d.spans|
    ensures ProperLines(BlockLines(LinesOf(d.markdown), d.spans[i]))
  {
    var lines, span := LinesOf(d.markdown), d.spans[i];
    LinesAreProper(d.markdown);
    assert BlockLines(lines, span) == lines[span.startLine - 1..span.endLine];
    assert BlockLines(lines, span)[0] == lines[span.startLine - 1];
  }

  /** Comparing span texts compares blocks. */
  lemma SpanTextsCompare(a: Document, b: Document, i: nat)
    requires ProperDocument(a) && ProperDocument(b) && i < |a.spans| && i < |b.spans|
    ensures SpanText(LinesOf(a.markdown), a.spans[i]) == SpanText(LinesOf(b.markdown), b.spans[i]) <==>
      Blocks(a)[i] == Blocks(b)[i]
    ensures LinesOf(SpanText(LinesOf(a.markdown), a.spans[i])) == Blocks(a)[i]
  {
    BlockProper(a, i);
    BlockProper(b, i);
    TextOfInjective(Blocks(a)[i], Blocks(b)[i]);
    LinesOfText(Blocks(a)[i]);
  }

  lemma {:induction false} WeaveProper(prose: seq<seq<string>>, blocks: seq<seq<string>>)
    requires |prose| == |blocks| + 1 && blocks != [] && forall b :: b in blocks ==> ProperLines(b)
    requires forall seg, l :: seg in prose && l in seg ==> '\n' !in l && '\r' !in l
    ensures ProperLines(Weave(prose, blocks))
  {
    assert blocks[0] in blocks && prose[0] in prose;
    if |blocks| > 1 {
      WeaveProper(prose[1..], blocks[1..]);
    } else {
      assert prose[1] in prose;
      assert Weave(prose[1..], blocks[1..]) == prose[1];
    }
    var w := Weave(prose, blocks);
    assert w == prose[0] + blocks[0] + Weave(prose[1..], blocks[1..]);
    assert blocks[0][0] in w;
  }

  lemma {:induction false} ProseProper(lines: seq<string>, spans: seq<Span>, k: nat, from: nat)
    requires ProperSpans(spans, |lines|) && k <= |spans| && from <= |lines|
      && (k < |spans| ==> from < spans[k].startLine)
    requires forall l :: l in lines ==> '\n' !in l && '\r' !in l
    ensures forall seg, l :: seg in Prose(lines, spans, k, from) && l in seg ==> '\n' !in l && '\r' !in l
    decreases |spans| - k
  {
    if k < |spans| { ProseProper(lines, spans, k + 1, spans[k].endLine); }
  }

  lemma MaskedProper(d: Document)
    requires ProperDocument(d) && d.spans != []
    ensures ProperLines(MaskedLines(d))
  {
    LinesAreProper(d.markdown);
    ProseProper(LinesOf(d.markdown), d.spans, 0, 0);
    var blocks := Placeholders(0, |d.spans|);
    forall b | b in blocks ensures ProperLines(b) {
      var i :| 0 <= i < |blocks| && blocks[i] == b;
      PlaceholderProper(i);
    }
    WeaveProper(ProseOf(d), blocks);
  }

  /** The counterpart's prose with the current source's blocks, read back line by line. */
  lemma UpdateReadsBack(counterpart: Document, current: Document)
    requires ProperDocument(counterpart) && ProperDocument(current)
    requires |counterpart.spans| == |current.spans| && current.spans != []
    ensures |ProseOf(counterpart)| == |Blocks(current)| + 1
    ensures LinesOf(TextOf(Weave(ProseOf(counterpart), Blocks(current)))) ==
      Weave(ProseOf(counterpart), Blocks(current))
  {
    LinesAreProper(counterpart.markdown);
    ProseProper(LinesOf(counterpart.markdown), counterpart.spans, 0, 0);
    forall b | b in Blocks(current) ensures ProperLines(b) {
      var i :| 0 <= i < |Blocks(current)| && Blocks(current)[i] == b;
      BlockProper(current, i);
    }
    WeaveProper(ProseOf(counterpart), Blocks(current));
    LinesOfText(Weave(ProseOf(counterpart), Blocks(current)));
  }

  method SameSpanTexts(a: Document, b: Document) returns (same: bool)
    requires ProperDocument(a) && ProperDocument(b) && |a.spans| == |b.spans|
    ensures same <==> Blocks(a) == Blocks(b)
  {
    for i := 0 to |a.spans|
      invariant forall k :: 0 <= k < i ==> Blocks(a)[k] == Blocks(b)[k]
    {
      SpanTextsCompare(a, b, i);
      if SpanText(LinesOf(a.markdown), a.spans[i]) != SpanText(LinesOf(b.markdown), b.spans[i]) { return false; }
    }
    return true;
  }

  /** The masked sources agree, the counterpart still has the confirmed blocks, and some block changed. */
  predicate GivesUpdate(confirmed: Document, current: Document, counterpart: Document)
    requires ProperDocument(confirmed) && ProperDocument(current) && ProperDocument(counterpart)
  {
    && 0 < |confirmed.spans| == |current.spans| == |counterpart.spans|
    && MaskedLines(confirmed) == MaskedLines(current)
    && Blocks(counterpart) == Blocks(confirmed) && Blocks(current) != Blocks(confirmed)
  }

  /** Comparing masked texts compares masked lines, and the prose where no placeholder is stray. */
  lemma MasksCompare(confirmed: Document, current: Document)
    requires ProperDocument(confirmed) && ProperDocument(current) && 0 < |confirmed.spans| == |current.spans|
    ensures TextOf(MaskedLines(confirmed)) == TextOf(MaskedLines(current)) <==>
      MaskedLines(confirmed) == MaskedLines(current)
    ensures NoStray(ProseOf(confirmed)) ==>
      (MaskedLines(confirmed) == MaskedLines(current) <==> ProseOf(confirmed) == ProseOf(current))
  {
    hide ProseOf, MaskedLines, TextOf, ProperLines, NoStray;
    MaskedProper(confirmed);
    MaskedProper(current);
    if NoStray(ProseOf(confirmed)) { MaskComparesProse(confirmed, current); }
    TextOfInjective(MaskedLines(confirmed), MaskedLines(current));
  }

  /**
   * Gives an update exactly when the masked sources agree, the counterpart still has the confirmed blocks, and
   * some block changed; without a stray placeholder in the confirmed source, exactly when only code blocks changed.
   * The update is the counterpart's prose around the current source's blocks.
   */
  method ComputeMechanicalUpdate(confirmed: Document, current: Document, counterpart: Document)
    returns (r: Option<string>)
    requires ProperDocument(confirmed) && ProperDocument(current) && ProperDocument(counterpart)
    ensures r.Some? <==> GivesUpdate(confirmed, current, counterpart)
    ensures NoStray(ProseOf(confirmed)) ==> (r.Some? <==>
      && 0 < |confirmed.spans| == |current.spans| == |counterpart.spans|
      && ProseOf(current) == ProseOf(confirmed)
      && Blocks(counterpart) == Blocks(confirmed) && Blocks(current) != Blocks(confirmed))
    ensures r.Some? ==> |ProseOf(counterpart)| == |Blocks(current)| + 1
    ensures r.Some? ==> LinesOf(r.value) == Weave(ProseOf(counterpart), Blocks(current))
    ensures r.Some? ==> r.value == TextOf(Weave(ProseOf(counterpart), Blocks(current)))
  {
    hide LinesOf, Substitute, Chosen, Weave, ProseOf, Blocks, SpanText, MaskedLines, TextOf, NoStray;
    var n := |confirmed.spans|;
    if n == 0 || n != |current.spans| || n != |counterpart.spans| { return None; }
    var before := MaskCodeSpans(confirmed);
    var after := MaskCodeSpans(current);
    MasksCompare(confirmed, current);
    if before != after { return None; }
    var matching := SameSpanTexts(confirmed, counterpart);
    if !matching { return None; }
    var same := SameSpanTexts(current, confirmed);
    if same { return None; }

    var changed := ChangedTexts(confirmed, current);
    var replaced := ReplaceSpanTexts(counterpart.markdown, counterpart.spans, changed);
    assert replaced.Ok?;
    ghost var values := map k | k in changed :: LinesOf(changed[k]);
    ChangedWeaves(confirmed, current, counterpart, values);
    UpdateReadsBack(counterpart, current);
    return Some(replaced.value);
  }

  /** Replacing the changed blocks of a counterpart that matches the confirmed ones gives it the current blocks. */
  lemma ChangedWeaves(confirmed: Document, current: Document, counterpart: Document, values: map<nat, seq<string>>)
    requires ProperDocument(confirmed) && ProperDocument(current) && ProperDocument(counterpart)
    requires |confirmed.spans| == |current.spans| == |counterpart.spans| && Blocks(confirmed) == Blocks(counterpart)
    requires values == map k | k in ChangedTexts(confirmed, current) :: LinesOf(ChangedTexts(confirmed, current)[k])
    ensures
      var lines := LinesOf(counterpart.markdown);
      Ascending(lines, Chosen(counterpart.spans, values, 0), 0)
      && Substitute(lines, Chosen(counterpart.spans, values, 0), 0) == Weave(ProseOf(counterpart), Blocks(current))
  {
    hide LinesOf, Substitute, Chosen, Weave, Prose, SpanText;
    var lines := LinesOf(counterpart.markdown);
    forall i: nat | i < |current.spans|
      ensures Blocks(current)[i] == if i in values then values[i] else BlockLines(lines, counterpart.spans[i])
    {
      SpanTextsCompare(current, confirmed, i);
      assert Blocks(counterpart)[i] == Blocks(confirmed)[i];
    }
    ReplacementsWeave(lines, counterpart.spans, values, Blocks(current));
  }

  /** The current text of every changed block, by number. */
  function ChangedTexts(confirmed: Document, current: Document): map<nat, string>
    requires |confirmed.spans| == |current.spans|
  {
    map i: nat | 0 <= i < |current.spans| &&
      SpanText(LinesOf(current.markdown), current.spans[i])
        != SpanText(LinesOf(confirmed.markdown), confirmed.spans[i]) ::
      SpanText(LinesOf(current.markdown), current.spans[i])
  }

  // ---- When the masks tell the truth ----

  function SpansAround(prose: seq<seq<string>>, blocks: seq<seq<string>>, from: nat): seq<Span>
    requires |prose| == |blocks| + 1
  {
    if blocks == [] then []
    else
      var start := from + |prose[0]|;
      [Span(start + 1, start + |blocks[0]|)] + SpansAround(prose[1..], blocks[1..], start + |blocks[0]|)
  }

  /** The document with the given prose and code blocks. */
  function Written(prose: seq<seq<string>>, blocks: seq<seq<string>>): Document
    requires |prose| == |blocks| + 1
  {
    Document(TextOf(Weave(prose, blocks)), SpansAround(prose, blocks, 0))
  }

  predicate IsWritable(prose: seq<seq<string>>, blocks: seq<seq<string>>) {
    && |prose| == |blocks| + 1 && blocks != [] && (forall b :: b in blocks ==> ProperLines(b))
    && forall seg, l :: seg in prose && l in seg ==> '\n' !in l && '\r' !in l
  }

  lemma BlockOf(lines: seq<string>, span: Span)
    requires 1 <= span.startLine <= span.endLine <= |lines|
    ensures BlockLines(lines, span) == lines[span.startLine - 1..span.endLine]
  {}

  lemma ProperCons(span: Span, spans: seq<Span>, count: nat)
    requires ProperSpans(spans, count) && 1 <= span.startLine <= span.endLine <= count
    requires spans != [] ==> span.endLine < spans[0].startLine
    ensures ProperSpans([span] + spans, count)
  {
    var all := [span] + spans;
    forall i | 0 <= i < |all| ensures 1 <= all[i].startLine <= all[i].endLine <= count {
      if i > 0 { assert all[i] == spans[i - 1]; }
    }
    forall i | 0 <= i < |all| - 1 ensures all[i].endLine < all[i + 1].startLine {
      assert all[i + 1] == spans[i];
      if i > 0 { assert all[i] == spans[i - 1]; }
    }
  }

  lemma Cut(lines: seq<string>, from: nat, a: seq<string>, b: seq<string>, rest: seq<string>)
    requires from <= |lines| && lines[from..] == a + b + rest
    ensures from + |a| + |b| <= |lines| && lines[from..from + |a|] == a
    ensures lines[from + |a|..from + |a| + |b|] == b && lines[from + |a| + |b|..] == rest
  {
    var tail := lines[from..];
    assert tail[..|a|] == a && tail[|a|..|a| + |b|] == b && tail[|a| + |b|..] == rest;
    forall k | 0 <= k < |tail| ensures tail[k] == lines[from + k] {}
  }

  lemma BlocksCons(lines: seq<string>, span: Span, spans: seq<Span>)
    ensures BlocksOf(lines, [span] + spans) == [BlockLines(lines, span)] + BlocksOf(lines, spans)
  {
    assert ([span] + spans)[1..] == spans;
  }

  /** The spans from line `from` on are proper, follow it and hold the blocks. */
  predicate FitFrom(lines: seq<string>, from: nat, spans: seq<Span>, blocks: seq<seq<string>>) {
    && ProperSpans(spans, |lines|) && (spans != [] ==> from < spans[0].startLine)
    && BlocksOf(lines, spans) == blocks
  }

  /** One more block in front of spans that already fit. */
  lemma FitsInFront(lines: seq<string>, from: nat, start: nat, end: nat, spans: seq<Span>, blocks: seq<seq<string>>,
                    allSpans: seq<Span>, allBlocks: seq<seq<string>>)
    requires from <= start < end <= |lines| && FitFrom(lines, end, spans, blocks)
    requires allSpans == [Span(start + 1, end)] + spans && allBlocks == [lines[start..end]] + blocks
    ensures FitFrom(lines, from, allSpans, allBlocks)
  {
    var span := Span(start + 1, end);
    ProperCons(span, spans, |lines|);
    BlockOf(lines, span);
    BlocksCons(lines, span, spans);
  }

  lemma NothingFits(lines: seq<string>, from: nat, prose: seq<seq<string>>)
    requires |prose| == 1
    ensures FitFrom(lines, from, SpansAround(prose, [], from), [])
  {}

  /** A nonempty weave and its spans, one stretch and one block at a time. */
  lemma WovenHead(prose: seq<seq<string>>, blocks: seq<seq<string>>, from: nat)
    requires |prose| == |blocks| + 1 && blocks != []
    ensures Weave(prose, blocks) == prose[0] + blocks[0] + Weave(prose[1..], blocks[1..])
    ensures
      var start, end := from + |prose[0]|, from + |prose[0]| + |blocks[0]|;
      SpansAround(prose, blocks, from) == [Span(start + 1, end)] + SpansAround(prose[1..], blocks[1..], end)
    ensures blocks == [blocks[0]] + blocks[1..] && blocks[0] in blocks && forall b :: b in blocks[1..] ==> b in blocks
  {}

  /** From line `from` on, `lines` is the woven text: the spans fit. */
  lemma {:induction false} SpansFit(lines: seq<string>, from: nat, prose: seq<seq<string>>, blocks: seq<seq<string>>)
    requires |prose| == |blocks| + 1 && [] !in blocks
    requires from <= |lines| && lines[from..] == Weave(prose, blocks)
    ensures FitFrom(lines, from, SpansAround(prose, blocks, from), blocks)
    decreases |blocks|
  {
    hide FitFrom, Weave, SpansAround;
    if blocks == [] {
      NothingFits(lines, from, prose);
    } else {
      var p, b := prose[0], blocks[0];
      var start, end := from + |p|, from + |p| + |b|;
      WovenHead(prose, blocks, from);
      Cut(lines, from, p, b, Weave(prose[1..], blocks[1..]));
      SpansFit(lines, end, prose[1..], blocks[1..]);
      FitsInFront(lines, from, start, end, SpansAround(prose[1..], blocks[1..], end), blocks[1..],
                  SpansAround(prose, blocks, from), blocks);
    }
  }

  lemma ProseNext(lines: seq<string>, spans: seq<Span>, k: nat, from: nat, p: seq<string>, b: seq<string>,
                  rest: seq<string>, later: seq<seq<string>>)
    requires ProperSpans(spans, |lines|) && k < |spans| && from <= |lines| && from < spans[k].startLine
    requires lines[from..] == p + b + rest && spans[k] == Span(from + |p| + 1, from + |p| + |b|)
    requires Prose(lines, spans, k + 1, spans[k].endLine) == later
    ensures Prose(lines, spans, k, from) == [p] + later
  {
    Cut(lines, from, p, b, rest);
  }

  lemma {:induction false} ProseFits(lines: seq<string>, spans: seq<Span>, k: nat, from: nat,
                                     prose: seq<seq<string>>, blocks: seq<seq<string>>)
    requires ProperSpans(spans, |lines|) && k <= |spans| && from <= |lines|
      && (k < |spans| ==> from < spans[k].startLine)
    requires |prose| == |blocks| + 1 && lines[from..] == Weave(prose, blocks)
      && spans[k..] == SpansAround(prose, blocks, from)
    ensures Prose(lines, spans, k, from) == prose
    decreases blocks
  {
    if blocks == [] {
      assert k == |spans|;
      assert prose == [prose[0]];
    } else {
      hide Prose;
      var p, b := prose[0], blocks[0];
      var end := from + |p| + |b|;
      var rest := Weave(prose[1..], blocks[1..]);
      assert spans[k] == spans[k..][0] == Span(from + |p| + 1, end);
      assert spans[k + 1..] == spans[k..][1..];
      Cut(lines, from, p, b, rest);
      ProseFits(lines, spans, k + 1, end, prose[1..], blocks[1..]);
      ProseNext(lines, spans, k, from, p, b, rest, prose[1..]);
      assert prose == [p] + prose[1..];
    }
  }

  /** A written document reads back as its prose and its blocks. */
  lemma WrittenReadsBack(prose: seq<seq<string>>, blocks: seq<seq<string>>)
    requires IsWritable(prose, blocks)
    ensures ProperDocument(Written(prose, blocks))
    ensures ProseOf(Written(prose, blocks)) == prose && Blocks(Written(prose, blocks)) == blocks
  {
    var d, lines := Written(prose, blocks), Weave(prose, blocks);
    WeaveProper(prose, blocks);
    LinesOfText(lines);
    JoinHasNoReturn(lines);
    assert [] !in blocks;
    hide LinesOf, TextOf, Weave, SpansAround, Prose, ProperLines;
    assert lines[0..] == lines && d.spans[0..] == d.spans;
    SpansFit(lines, 0, prose, blocks);
    assert '\r' !in d.markdown by { TextHasNoReturn(lines); }
    ProseFits(lines, d.spans, 0, 0, prose, blocks);
  }

  lemma TextHasNoReturn(lines: seq<string>)
    requires '\r' !in Join(lines, "\n")
    ensures '\r' !in TextOf(lines)
  {}

  lemma DocumentWritable(d: Document)
    requires ProperDocument(d) && d.spans != []
    ensures IsWritable(ProseOf(d), Blocks(d))
  {
    LinesAreProper(d.markdown);
    ProseProper(LinesOf(d.markdown), d.spans, 0, 0);
    forall b | b in Blocks(d) ensures ProperLines(b) {
      var i :| 0 <= i < |Blocks(d)| && Blocks(d)[i] == b;
      BlockProper(d, i);
    }
  }

  // ---- Plain documents: the text alone fixes the code blocks ----

  /** An empty line or one that begins with a letter opens no block construct of its own. */
  predicate IsPlainLine(l: string) {
    l == "" || 'a' <= l[0] <= 'z' || 'A' <= l[0] <= 'Z'
  }

  predicate IsFenceOpener(l: string) {
    |l| >= 3 && l[..3] == "```" && '`' !in l[3..]
  }

  /** A closed backtick fence without further backticks (section 4.5 of CommonMark 0.31). */
  predicate IsFence(block: seq<string>) {
    && |block| >= 2 && IsFenceOpener(block[0]) && block[|block| - 1] == "```"
    && forall i :: 0 < i < |block| - 1 ==> '`' !in block[i]
  }

  predicate PlainProse(prose: seq<seq<string>>) {
    forall seg, l :: seg in prose && l in seg ==> IsPlainLine(l)
  }

  predicate AllFences(blocks: seq<seq<string>>) {
    forall b :: b in blocks ==> IsFence(b)
  }

  /** Nothing but paragraphs and closed fences. */
  predicate IsPlain(d: Document)
    requires ProperDocument(d)
  {
    PlainProse(ProseOf(d)) && AllFences(Blocks(d))
  }

  /** The first closing fence from line `i` on, or the end of the text. */
  function Closer(lines: seq<string>, i: nat): (r: nat)
    requires i <= |lines|
    ensures i <= r <= |lines|
    decreases |lines| - i
  {
    if i == |lines| || lines[i] == "```" then i else Closer(lines, i + 1)
  }

  /** The fences of a text of paragraphs and fences, read line by line from `from` on. */
  function FenceSpans(lines: seq<string>, from: nat): seq<Span>
    requires from <= |lines|
    decreases |lines| - from
  {
    if from == |lines| then []
    else if !IsFenceOpener(lines[from]) then FenceSpans(lines, from + 1)
    else
      var closer := Closer(lines, from + 1);
      if closer == |lines| then [Span(from + 1, closer)]
      else [Span(from + 1, closer + 1)] + FenceSpans(lines, closer + 1)
  }

  lemma {:induction false} PlainLinesSkipped(lines: seq<string>, from: nat, till: nat)
    requires from <= till <= |lines| && forall l :: l in lines[from..till] ==> IsPlainLine(l)
    ensures FenceSpans(lines, from) == FenceSpans(lines, till)
    decreases till - from
  {
    if from < till {
      assert lines[from] == lines[from..till][0] && lines[from + 1..till] == lines[from..till][1..];
      PlainLinesSkipped(lines, from + 1, till);
      PlainOpensNothing(lines[from]);
    }
  }

  lemma PlainOpensNothing(l: string)
    requires IsPlainLine(l)
    ensures !IsFenceOpener(l)
  {
    if |l| >= 3 { assert l[..3][0] == l[0]; }
  }

  lemma {:induction false} CloserOfFence(lines: seq<string>, i: nat, end: nat)
    requires i < end <= |lines| && lines[end - 1] == "```" && forall k :: i <= k < end - 1 ==> '`' !in lines[k]
    ensures Closer(lines, i) == end - 1
    decreases end - i
  {
    if i < end - 1 {
      assert '`' in "```";
      CloserOfFence(lines, i + 1, end);
    }
  }

  lemma FenceRead(lines: seq<string>, start: nat, end: nat)
    requires start <= end <= |lines| && IsFence(lines[start..end])
    ensures FenceSpans(lines, start) == [Span(start + 1, end)] + FenceSpans(lines, end)
  {
    var block := lines[start..end];
    assert block[0] == lines[start] && block[|block| - 1] == lines[end - 1];
    forall k | start + 1 <= k < end - 1 ensures '`' !in lines[k] { assert lines[k] == block[k - start]; }
    CloserOfFence(lines, start + 1, end);
  }

  lemma {:induction false} PlainSpansFrom(lines: seq<string>, spans: seq<Span>, k: nat, from: nat)
    requires ProperSpans(spans, |lines|) && k <= |spans| && from <= |lines|
      && (k < |spans| ==> from < spans[k].startLine)
    requires PlainProse(Prose(lines, spans, k, from))
    requires forall i :: k <= i < |spans| ==> IsFence(BlockLines(lines, spans[i]))
    ensures FenceSpans(lines, from) == spans[k..]
    decreases |spans| - k
  {
    hide FenceSpans, IsPlainLine, IsFence;
    var prose := Prose(lines, spans, k, from);
    assert prose[0] in prose;
    if k == |spans| {
      PlainLinesSkipped(lines, from, |lines|);
      NothingLeft(lines);
    } else {
      var start, end := spans[k].startLine - 1, spans[k].endLine;
      PlainLinesSkipped(lines, from, start);
      BlockOf(lines, spans[k]);
      FenceRead(lines, start, end);
      PlainSpansFrom(lines, spans, k + 1, end);
    }
  }

  lemma NothingLeft(lines: seq<string>)
    ensures FenceSpans(lines, |lines|) == []
  {}

  /** The code blocks of a plain document are the fences of its text. */
  lemma PlainSpansAreFences(d: Document)
    requires ProperDocument(d) && IsPlain(d)
    ensures d.spans == FenceSpans(LinesOf(d.markdown), 0)
  {
    forall i | 0 <= i < |d.spans| ensures IsFence(BlockLines(LinesOf(d.markdown), d.spans[i])) {
      assert Blocks(d)[i] in Blocks(d);
    }
    PlainSpansFrom(LinesOf(d.markdown), d.spans, 0, 0);
  }

  lemma PlaceholderPlain(i: nat)
    ensures IsPlainLine(Placeholder(i))
  {
    assert Placeholder(i)[0] == 'D';
  }

  /** The blocks with one more indented line after the first line of the first block. */
  function Edited(blocks: seq<seq<string>>): seq<seq<string>>
    requires blocks != [] && blocks[0] != []
  {
    [[blocks[0][0], "    x"] + blocks[0][1..]] + blocks[1..]
  }

  lemma EditedBlocks(blocks: seq<seq<string>>)
    requires blocks != [] && forall b :: b in blocks ==> ProperLines(b)
    ensures blocks[0] in blocks && blocks[0] != [] && |Edited(blocks)| == |blocks| && Edited(blocks) != blocks
    ensures forall b :: b in Edited(blocks) ==> ProperLines(b)
    ensures AllFences(blocks) ==> AllFences(Edited(blocks))
  {
    var b := blocks[0];
    assert b in blocks;
    var e := [b[0], "    x"] + b[1..];
    assert Edited(blocks)[0] == e && |e| == |b| + 1;
    assert ProperLines(e) by {
      assert '\n' !in "    x" && '\r' !in "    x";
      assert b[0] in b && forall l :: l in b[1..] ==> l in b;
    }
    if AllFences(blocks) {
      assert IsFence(e) by {
        assert '`' !in "    x";
        forall i | 0 < i < |e| - 1 ensures '`' !in e[i] { if i > 1 { assert e[i] == b[i - 1]; } }
      }
    }
    forall c | c in Edited(blocks) ensures c == e || c in blocks {}
  }

  /** With a stray placeholder, a source whose prose moved, and one block with it, passes for a code change. */
  lemma StrayMisleads(confirmed: Document) returns (current: Document)
    requires ProperDocument(confirmed) && confirmed.spans != [] && !NoStray(ProseOf(confirmed))
    ensures ProperDocument(current) && GivesUpdate(confirmed, current, confirmed)
      && ProseOf(current) != ProseOf(confirmed)
    ensures IsPlain(confirmed) ==> IsPlain(current)
  {
    var p, blocks, n := ProseOf(confirmed), Blocks(confirmed), |confirmed.spans|;
    hide NoStray, LinesOf, Prose, Weave, BlockLines, Placeholder, SpansAround, TextOf, IsFence, IsPlainLine, Edited,
         BlocksOf;
    DocumentWritable(confirmed);
    EditedBlocks(blocks);
    var q := StrayHides(p, n);
    var longer := Edited(blocks);
    MovedWritable(p, n, q, longer);
    WrittenReadsBack(q, longer);
    current := Written(q, longer);
    assert |current.spans| == |Blocks(current)| == n;
  }

  lemma MovedWritable(p: seq<seq<string>>, n: nat, q: seq<seq<string>>, blocks: seq<seq<string>>)
    requires |q| == |blocks| + 1 && blocks != [] && forall b :: b in blocks ==> ProperLines(b)
    requires forall seg, m :: seg in p && m in seg ==> '\n' !in m && '\r' !in m
    requires forall seg, l :: seg in q && l in seg ==> IsLineOf(p, l) || IsPlaceholder(l, n)
    ensures IsWritable(q, blocks) && (PlainProse(p) ==> PlainProse(q))
  {
    hide Placeholder, ProperLines, IsPlainLine;
    forall seg, l | seg in q && l in seg ensures '\n' !in l && '\r' !in l { LineProper(p, n, l); }
    if PlainProse(p) {
      forall seg, l | seg in q && l in seg ensures IsPlainLine(l) {
        if !IsLineOf(p, l) {
          var m: nat :| m < n && l == Placeholder(m);
          PlaceholderPlain(m);
        }
      }
    }
  }

  lemma LineProper(p: seq<seq<string>>, n: nat, l: string)
    requires IsLineOf(p, l) || IsPlaceholder(l, n)
    requires forall seg, m :: seg in p && m in seg ==> '\n' !in m && '\r' !in m
    ensures '\n' !in l && '\r' !in l
  {
    if !IsLineOf(p, l) {
      var m: nat :| m < n && l == Placeholder(m);
      PlaceholderProper(m);
      assert [Placeholder(m)][0] in [Placeholder(m)];
    }
  }

  /**
   * Without a stray placeholder in the confirmed source every update means that the prose is unchanged, whatever
   * the other two documents are.
   */
  lemma UpdateTrusted(confirmed: Document, current: Document, counterpart: Document)
    requires ProperDocument(confirmed) && ProperDocument(current) && ProperDocument(counterpart)
    requires NoStray(ProseOf(confirmed)) && GivesUpdate(confirmed, current, counterpart)
    ensures ProseOf(current) == ProseOf(confirmed) && Blocks(current) != Blocks(confirmed)
  {
    MaskComparesProse(confirmed, current);
  }

  /**
   * Over all block data the condition is also necessary. A document is here any text with any block ranges inside
   * it, so the misleading source need not be one whose ranges a Markdown parser would return.
   */
  lemma UpdateTrustedExactly(confirmed: Document)
    requires ProperDocument(confirmed) && confirmed.spans != []
    ensures NoStray(ProseOf(confirmed)) <==>
      forall current, counterpart ::
        ProperDocument(current) && ProperDocument(counterpart) && GivesUpdate(confirmed, current, counterpart)
        ==> ProseOf(current) == ProseOf(confirmed)
  {
    hide NoStray, ProseOf, GivesUpdate, ProperDocument;
    if NoStray(ProseOf(confirmed)) {
      forall current, counterpart
        | ProperDocument(current) && ProperDocument(counterpart) && GivesUpdate(confirmed, current, counterpart)
        ensures ProseOf(current) == ProseOf(confirmed)
      {
        UpdateTrusted(confirmed, current, counterpart);
      }
    } else {
      var current := StrayMisleads(confirmed);
    }
  }

  /**
   * For a text of paragraphs and closed fences, whose blocks the text alone fixes, the condition is exact among the
   * texts of this kind.
   */
  lemma PlainUpdateTrustedExactly(confirmed: Document)
    requires ProperDocument(confirmed) && confirmed.spans != [] && IsPlain(confirmed)
    ensures NoStray(ProseOf(confirmed)) <==>
      forall current, counterpart ::
        && ProperDocument(current) && IsPlain(current) && ProperDocument(counterpart) && IsPlain(counterpart)
        && GivesUpdate(confirmed, current, counterpart)
        ==> ProseOf(current) == ProseOf(confirmed)
  {
    hide NoStray, ProseOf, GivesUpdate, ProperDocument, IsPlain;
    if NoStray(ProseOf(confirmed)) {
      forall current, counterpart
        | && ProperDocument(current) && IsPlain(current) && ProperDocument(counterpart) && IsPlain(counterpart)
          && GivesUpdate(confirmed, current, counterpart)
        ensures ProseOf(current) == ProseOf(confirmed)
      {
        UpdateTrusted(confirmed, current, counterpart);
      }
    } else {
      var current := StrayMisleads(confirmed);
    }
  }

  /** For instance: a paragraph that reads like the placeholder moves to the other side of an edited block. */
  lemma MovedParagraphPasses()
    ensures
      var mark := Placeholder(0);
      var confirmed := Written([[mark], []], [["```", "a", "```"]]);
      var current := Written([[], [mark]], [["```", "b", "```"]]);
      && ProperDocument(confirmed) && ProperDocument(current)
      && GivesUpdate(confirmed, current, confirmed) && ProseOf(current) != ProseOf(confirmed)
  {
    var mark := Placeholder(0);
    var p, q, b, c := [[mark], []], [[], [mark]], [["```", "a", "```"]], [["```", "b", "```"]];
    assert ProperLines([mark]) by { PlaceholderProper(0); }
    FenceWritable([mark], [], "a");
    FenceWritable([], [mark], "b");
    hide Placeholder, Written, ProperDocument, ProseOf, Blocks, IsWritable, Masked, ProperLines;
    SmallWritten(p, b);
    SmallWritten(q, c);
    assert p[0] != q[0] && b[0][1] != c[0][1];
    OneBlockMasked([mark], []);
    OneBlockMasked([], [mark]);
    assert [mark] + [mark] + [] == [] + [mark] + [mark];
  }

  lemma FenceWritable(before: seq<string>, after: seq<string>, body: string)
    requires forall l :: l in before || l in after || l == body ==> '\n' !in l && '\r' !in l
    ensures IsWritable([before, after], [["```", body, "```"]])
  {
    assert '\n' !in "```" && '\r' !in "```";
    assert ProperLines(["```", body, "```"]);
  }

  lemma SmallWritten(prose: seq<seq<string>>, blocks: seq<seq<string>>)
    requires IsWritable(prose, blocks) && |blocks| == 1
    ensures var d := Written(prose, blocks);
      ProperDocument(d) && |d.spans| == 1 && ProseOf(d) == prose && Blocks(d) == blocks
        && MaskedLines(d) == Masked(prose, 1)
  {
    WrittenReadsBack(prose, blocks);
    var d := Written(prose, blocks);
    assert |d.spans| == |Blocks(d)|;
  }

  lemma OneBlockMasked(before: seq<string>, after: seq<string>)
    ensures Masked([before, after], 1) == before + [Placeholder(0)] + after
  {
    WeaveOne([before, after], 0, 1);
    assert [before, after][1..] == [after];
    assert Weave([after], Placeholders(1, 1)) == after;
  }
}
