/** What a comment that is written line by line is read as (scripts/jsdoc.ts, parseJsDoc). */
module JsDocComments {
  import opened Wrappers
  import opened Text
  import opened Words
  import opened JsDoc

  // ---- The comment around its lines ----

  function Starred(lines: seq<string>): (r: seq<string>)
    ensures |r| == |lines| && forall i :: 0 <= i < |lines| ==> r[i] == " * " + lines[i]
  {
    if lines == [] then [] else [" * " + lines[0]] + Starred(lines[1..])
  }

  /** The comment that holds each line behind an asterisk, between an opening and a closing line of its own. */
  function CommentOf(lines: seq<string>): string {
    Join(["/**"] + Starred(lines) + [" */"], "\n")
  }

  /** A line that can be told from the comment around it: no line break, nothing but text at its end. */
  predicate IsLine(l: string) {
    '\n' !in l && (l == "" || !IsSpace(l[|l| - 1]))
  }

  /** The asterisk goes, one space after it goes, and the line itself stays, indentation included. */
  lemma StarredStrips(l: string)
    requires IsLine(l)
    ensures StripLine(" * " + l) == l
  {
    var a := " * " + l;
    assert a[1..] == "* " + l;
    assert TrimStart(a) == "* " + l;
    assert ("* " + l)[1..] == " " + l && (" " + l)[1..] == l;
    assert StartsWith("* " + l, "*");
  }

  lemma {:induction false} StarredStripped(lines: seq<string>)
    requires forall l :: l in lines ==> IsLine(l)
    ensures StripLines(Starred(lines)) == lines
  {
    hide StripLine, IsLine;
    if lines != [] {
      assert lines[0] in lines;
      StarredStrips(lines[0]);
      StarredStripped(lines[1..]);
      assert lines == [lines[0]] + lines[1..];
    }
  }

  lemma {:induction false} StripConcat(a: seq<string>, b: seq<string>)
    ensures StripLines(a + b) == StripLines(a) + StripLines(b)
  {
    hide StripLine;
    if a == [] {
      assert a + b == b;
    } else {
      StripConcat(a[1..], b);
      assert (a + b)[1..] == a[1..] + b;
    }
  }

  lemma EdgesStrip()
    ensures StripLines([""]) == [""] && StripLines([" "]) == [""]
  {
    assert TrimStart(" ") == "" by { assert " "[1..] == ""; }
    assert [""][1..] == [] && [" "][1..] == [];
  }

  /** The delimiters removed, what is left of a comment are its starred lines between two blank ones. */
  lemma DelimitersGo(lines: seq<string>)
    ensures
      var raw := CommentOf(lines);
      && StartsWith(raw, "/**") && EndsWith(raw[3..], "*/")
      && raw[3..][..|raw[3..]| - 2] == Join([""] + Starred(lines) + [" "], "\n")
  {
    var starred := Starred(lines);
    JoinLast(starred);
    var middle := Join([""] + starred + [" "], "\n");
    assert "/**" + "" == "/**";
    assert ["/**"] + starred + [" */"] == ["/**" + ""] + (starred + [" */"]);
    assert [""] + starred + [" */"] == [""] + (starred + [" */"]);
    assert ([""] + (starred + [" */"]))[1..] == starred + [" */"];
    JoinHead("/**", [""] + (starred + [" */"]), "\n");
    var raw := CommentOf(lines);
    assert raw == "/**" + (middle + "*/");
    assert raw[..3] == "/**" && raw[3..] == middle + "*/";
  }

  lemma JoinLast(parts: seq<string>)
    ensures Join([""] + parts + [" */"], "\n") == Join([""] + parts + [" "], "\n") + "*/"
  {
    JoinEnd([""] + parts, " ", "*/");
    assert " " + "*/" == " */";
  }

  lemma {:induction false} JoinEnd(parts: seq<string>, a: string, b: string)
    ensures Join(parts + [a + b], "\n") == Join(parts + [a], "\n") + b
  {
    if parts != [] {
      JoinEnd(parts[1..], a, b);
      assert (parts + [a + b])[1..] == parts[1..] + [a + b] && (parts + [a])[1..] == parts[1..] + [a];
    } else {
      assert parts + [a + b] == [a + b] && parts + [a] == [a];
    }
  }

  /** A comment is read as its lines, with a blank line before and after them. */
  lemma CommentReadsBack(lines: seq<string>)
    requires forall l :: l in lines ==> IsLine(l)
    ensures InnerLines(CommentOf(lines)) == [""] + lines + [""]
  {
    hide StripLines, Starred, Join, Split, CommentOf;
    var parts := [""] + Starred(lines) + [" "];
    DelimitersGo(lines);
    assert Split(Join(parts, "\n"), '\n') == parts by { StarredSplits(lines); }
    StripConcat([""] + Starred(lines), [" "]);
    StripConcat([""], Starred(lines));
    EdgesStrip();
    StarredStripped(lines);
  }

  lemma StarredSplits(lines: seq<string>)
    requires forall l :: l in lines ==> IsLine(l)
    ensures
      var parts := [""] + Starred(lines) + [" "];
      Split(Join(parts, "\n"), '\n') == parts
  {
    var parts := [""] + Starred(lines) + [" "];
    forall p | p in parts ensures '\n' !in p {
      if p in Starred(lines) {
        var i :| 0 <= i < |lines| && Starred(lines)[i] == p;
        assert lines[i] in lines && p == " * " + lines[i];
      }
    }
    hide Starred;
    SplitJoin(parts, '\n');
  }

  // ---- Blank lines around the text change nothing ----

  function AddAll(o: Outline, lines: seq<string>): Outline {
    if lines == [] then o else AddLine(AddAll(o, lines[..|lines| - 1]), lines[|lines| - 1])
  }

  lemma {:induction false} AddConcat(o: Outline, a: seq<string>, b: seq<string>)
    ensures AddAll(o, a + b) == AddAll(AddAll(o, a), b)
  {
    hide AddLine;
    if b == [] {
      assert a + b == a;
    } else {
      AddConcat(o, a, b[..|b| - 1]);
      assert (a + b)[..|a + b| - 1] == a + b[..|b| - 1];
    }
  }

  lemma {:induction false} OutlineIsAdded(lines: seq<string>)
    ensures OutlineOf(lines) == AddAll(Outline([], None), lines)
  {
    hide AddLine;
    if lines != [] { OutlineIsAdded(lines[..|lines| - 1]); }
  }

  lemma BlankLine()
    ensures IsBlank("") && !IsTagLine("") && TrimStart("") == "" && ModeTag("") == None && !HasModeWord("")
  {}

  /** The prose before the first tag, with a blank line on either side, closes to the same blocks. */
  lemma ProseBetweenBlanks(lines: seq<string>)
    ensures Close(OutlineOf(ProseLines([""] + lines + [""]))) == Close(OutlineOf(ProseLines(lines)))
  {
    hide AddLine, OutlineOf, ProseLines, IsTagLine, AnyTag, Close;
    BlankLine();
    ProseCons("", lines + [""]);
    assert [""] + lines + [""] == [""] + (lines + [""]);
    ProseAppend(lines, "");
    var prose := ProseLines(lines);
    LeadingBlank(prose);
    LeadingBlank(lines + [""]);
    TrailingBlank(lines);
    assert lines + [""] == lines + [""];
  }

  lemma LeadingBlank(lines: seq<string>)
    ensures OutlineOf([""] + lines) == OutlineOf(lines)
  {
    OutlineIsAdded([""] + lines);
    OutlineIsAdded(lines);
    AddConcat(Outline([], None), [""], lines);
    BlankLine();
    assert AddAll(Outline([], None), [""]) == AddLine(AddAll(Outline([], None), []), "") by {
      assert [""][..0] == [];
    }
  }

  lemma TrailingBlank(lines: seq<string>)
    ensures Close(OutlineOf(lines + [""])) == Close(OutlineOf(lines))
  {
    OutlineAppend(lines, "");
    BlankLine();
  }

  lemma {:induction false} ModeAfterBlank(lines: seq<string>)
    ensures ModeOf([""] + lines) == ModeOf(lines) && (HasModeTag([""] + lines) <==> HasModeTag(lines))
  {
    hide ModeTag, HasModeWord;
    BlankLine();
    if lines == [] {
      assert [""] + lines == [] + [""];
      ModeAppend([], "");
    } else {
      var front, last := lines[..|lines| - 1], lines[|lines| - 1];
      ModeAfterBlank(front);
      assert lines == front + [last] && [""] + lines == ([""] + front) + [last];
      hide ModeOf, HasModeTag;
      ModeAppend(front, last);
      ModeAppend([""] + front, last);
    }
  }

  /** A comment parses to what its lines say. */
  lemma CommentMeansItsLines(lines: seq<string>)
    requires forall l :: l in lines ==> IsLine(l)
    ensures
      var inner := InnerLines(CommentOf(lines));
      DocOf(inner) == DocOf(lines) && ModeOf(inner) == ModeOf(lines) && (HasModeTag(inner) <==> HasModeTag(lines))
  {
    CommentReadsBack(lines);
    hide InnerLines, CommentOf, IsLine, ModeTag, HasModeWord, ModeOf, HasModeTag, RenderBlocks, RenderLinks, Join, Trim;
    hide OutlineOf, ProseLines, Close;
    ProseBetweenBlanks(lines);
    BlankLine();
    assert [""] + lines + [""] == ([""] + lines) + [""];
    ModeAppend([""] + lines, "");
    ModeAfterBlank(lines);
  }

  // ---- Written blocks ----

  /** Words one space apart. */
  predicate IsNeat(s: string) {
    && s != [] && !IsSpace(s[0]) && !IsSpace(s[|s| - 1])
    && forall i :: 0 <= i < |s| && IsSpace(s[i]) ==> s[i] == ' ' && (i + 1 < |s| ==> !IsSpace(s[i + 1]))
  }

  predicate IsDashed(l: string) {
    |l| > 1 && l[0] == '-' && l[1] == ' '
  }

  lemma DashedIsBullet(l: string)
    requires IsNeat(l)
    ensures IsBullet(l) <==> IsDashed(l)
  {
    SpaceIsSpace();
  }

  /** A line of running text: neither a tag nor the start of a list item. */
  predicate IsText(l: string) {
    IsNeat(l) && l[0] != '@' && !IsDashed(l)
  }

  predicate IsItem(item: seq<string>) {
    item != [] && IsNeat(item[0]) && IsDashed(item[0]) && forall i :: 0 < i < |item| ==> IsText(item[i])
  }

  predicate IsBlock(b: Block) {
    match b
    case Paragraph(lines) => lines != [] && forall l :: l in lines ==> IsText(l)
    case Bullets(items) => items != [] && forall item :: item in items ==> IsItem(item)
  }

  function Flat(items: seq<seq<string>>): seq<string> {
    if items == [] then [] else Flat(items[..|items| - 1]) + items[|items| - 1]
  }

  function BlockLines(b: Block): seq<string> {
    match b
    case Paragraph(lines) => lines
    case Bullets(items) => Flat(items)
  }

  /** The blocks as lines, with a blank line between each two. */
  function Written(bs: seq<Block>): seq<string> {
    if bs == [] then []
    else if |bs| == 1 then BlockLines(bs[0])
    else Written(bs[..|bs| - 1]) + [""] + BlockLines(bs[|bs| - 1])
  }

  /** A paragraph on one line, a list with each item on its own line. */
  function BlockText(b: Block): string {
    match b
    case Paragraph(lines) => Join(lines, " ")
    case Bullets(items) => Join(ItemTexts(items), "\n")
  }

  function ItemTexts(items: seq<seq<string>>): seq<string> {
    if items == [] then [] else ItemTexts(items[..|items| - 1]) + [Join(items[|items| - 1], " ")]
  }

  function BlockTexts(bs: seq<Block>): seq<string> {
    if bs == [] then [] else BlockTexts(bs[..|bs| - 1]) + [BlockText(bs[|bs| - 1])]
  }

  /** The blocks with one blank line between each two. */
  function DocText(bs: seq<Block>): string {
    Join(BlockTexts(bs), "\n\n")
  }

  // ---- The blocks are recovered ----

  lemma TextExtends(finished: seq<Block>, lines: seq<string>, l: string)
    requires IsText(l)
    ensures AddLine(Outline(finished, if lines == [] then None else Some(Paragraph(lines))), l) ==
      Outline(finished, Some(Paragraph(lines + [l])))
  {
    NeatIsNotBlank(l);
    DashedIsBullet(l);
    assert lines == [] ==> lines + [l] == [l];
  }

  lemma NeatIsNotBlank(l: string)
    requires IsNeat(l)
    ensures !IsBlank(l) && Trim(l) == l
  {}

  lemma {:induction false} ParagraphAdded(finished: seq<Block>, lines: seq<string>)
    requires forall l :: l in lines ==> IsText(l)
    ensures AddAll(Outline(finished, None), lines) ==
      Outline(finished, if lines == [] then None else Some(Paragraph(lines)))
  {
    hide AddLine, IsText;
    if lines != [] {
      var front, last := lines[..|lines| - 1], lines[|lines| - 1];
      ParagraphAdded(finished, front);
      TextExtends(finished, front, last);
      assert lines == front + [last];
    }
  }

  function Listing(finished: seq<Block>, items: seq<seq<string>>): Outline {
    Outline(finished, if items == [] then None else Some(Bullets(items)))
  }

  lemma BulletStarts(finished: seq<Block>, items: seq<seq<string>>, l: string)
    requires IsNeat(l) && IsDashed(l)
    ensures AddLine(Listing(finished, items), l) == Listing(finished, items + [[l]])
  {
    NeatIsNotBlank(l);
    DashedIsBullet(l);
    assert items == [] ==> items + [[l]] == [[l]];
  }

  lemma ItemExtends(finished: seq<Block>, items: seq<seq<string>>, item: seq<string>, l: string)
    requires IsText(l)
    ensures AddLine(Listing(finished, items + [item]), l) == Listing(finished, items + [item + [l]])
  {
    NeatIsNotBlank(l);
    DashedIsBullet(l);
    assert (items + [item])[..|items|] == items;
  }

  lemma {:induction false} ItemAdded(finished: seq<Block>, items: seq<seq<string>>, item: seq<string>)
    requires IsItem(item)
    ensures AddAll(Listing(finished, items), item) == Listing(finished, items + [item])
    decreases |item|
  {
    hide AddLine, IsText, IsNeat, IsDashed, Listing;
    var front, last := item[..|item| - 1], item[|item| - 1];
    if |item| == 1 {
      BulletStarts(finished, items, last);
      assert item == [last] && front == [];
    } else {
      ItemAdded(finished, items, front);
      ItemExtends(finished, items, front, last);
      assert item == front + [last];
    }
  }

  lemma {:induction false} ListAdded(finished: seq<Block>, items: seq<seq<string>>)
    requires forall item :: item in items ==> IsItem(item)
    ensures AddAll(Outline(finished, None), Flat(items)) == Listing(finished, items)
  {
    hide IsItem, AddLine;
    if items != [] {
      var front, last := items[..|items| - 1], items[|items| - 1];
      ListAdded(finished, front);
      AddConcat(Outline(finished, None), Flat(front), last);
      ItemAdded(finished, front, last);
      assert items == front + [last];
    }
  }

  lemma BlockAdded(finished: seq<Block>, b: Block)
    requires IsBlock(b)
    ensures AddAll(Outline(finished, None), BlockLines(b)) == Outline(finished, Some(b))
  {
    hide AddAll, Flat, IsText, IsItem;
    match b {
      case Paragraph(lines) => ParagraphAdded(finished, lines);
      case Bullets(items) => ListAdded(finished, items);
    }
  }

  /** The lines of written blocks are read as these blocks. */
  lemma {:induction false} BlocksRecovered(bs: seq<Block>)
    requires forall b :: b in bs ==> IsBlock(b)
    ensures bs != [] ==> OutlineOf(Written(bs)) == Outline(bs[..|bs| - 1], Some(bs[|bs| - 1]))
    ensures Close(OutlineOf(Written(bs))) == bs
  {
    if bs != [] {
      hide IsBlock, BlockLines, AddLine;
      var front, last := bs[..|bs| - 1], bs[|bs| - 1];
      assert bs == front + [last];
      OutlineIsAdded(Written(bs));
      if |bs| == 1 {
        BlockAdded([], last);
        assert front == [];
      } else {
        BlocksRecovered(front);
        OutlineIsAdded(Written(front));
        AddConcat(Outline([], None), Written(front) + [""], BlockLines(last));
        OutlineIsAdded(Written(front) + [""]);
        OutlineAppend(Written(front), "");
        BlankLine();
        BlankFinishes("", OutlineOf(Written(front)));
        BlockAdded(front, last);
      }
    }
  }

  // ---- The text is recovered ----

  lemma {:induction false} NeatCollapses(s: string)
    requires forall i :: 0 <= i < |s| && IsSpace(s[i]) ==> s[i] == ' ' && (i + 1 < |s| ==> !IsSpace(s[i + 1]))
    ensures Collapse(s) == s
  {
    hide IsSpace;
    if s != [] {
      assert s == [s[0]] + s[1..];
      assert forall i :: 0 <= i < |s[1..]| ==> s[1..][i] == s[i + 1];
      NeatCollapses(s[1..]);
      if IsSpace(s[0]) { assert TrimStart(s[1..]) == s[1..]; }
    }
  }

  lemma NeatJoined(a: string, b: string)
    requires IsNeat(a) && IsNeat(b)
    ensures IsNeat(a + " " + b)
  {
    var s := a + " " + b;
    hide IsSpace;
    assert IsSpace(' ') by { SpaceIsSpace(); }
    forall i | 0 <= i < |s| && IsSpace(s[i]) ensures s[i] == ' ' && (i + 1 < |s| ==> !IsSpace(s[i + 1])) {
      if i < |a| {
        assert s[i] == a[i];
        if i + 1 < |a| { assert s[i + 1] == a[i + 1]; }
      } else if i > |a| {
        assert s[i] == b[i - |a| - 1];
        if i + 1 < |s| { assert s[i + 1] == b[i - |a|]; }
      }
    }
  }

  lemma SpaceIsSpace()
    ensures IsSpace(' ') && IsSpace('\n')
  {}

  lemma {:induction false} LinesJoinNeatly(lines: seq<string>)
    requires lines != [] && forall l :: l in lines ==> IsNeat(l)
    ensures IsNeat(Join(lines, " ")) && JoinParts(lines) == Join(lines, " ")
  {
    hide IsNeat;
    assert lines[0] in lines;
    if |lines| > 1 {
      LinesJoinNeatly(lines[1..]);
      NeatJoined(lines[0], Join(lines[1..], " "));
    }
    NeatUnchanged(Join(lines, " "));
  }

  lemma NeatUnchanged(s: string)
    requires IsNeat(s)
    ensures Collapse(s) == s && Trim(s) == s
  {
    NeatCollapses(s);
  }

  lemma {:induction false} ItemsRendered(items: seq<seq<string>>)
    requires forall item :: item in items ==> IsItem(item)
    ensures RenderItems(items) == ItemTexts(items)
  {
    if items != [] {
      var front, last := items[..|items| - 1], items[|items| - 1];
      assert last in items;
      ItemsRendered(front);
      ItemIsNeat(last);
      LinesJoinNeatly(last);
    }
  }

  lemma ItemIsNeat(item: seq<string>)
    requires IsItem(item)
    ensures forall l :: l in item ==> IsNeat(l)
  {
    hide IsNeat;
  }

  lemma BlockRendered(b: Block)
    requires IsBlock(b)
    ensures RenderBlock(b) == BlockText(b)
  {
    hide IsNeat, IsDashed, IsItem;
    match b {
      case Paragraph(lines) => LinesJoinNeatly(lines);
      case Bullets(items) => ItemsRendered(items);
    }
  }

  lemma {:induction false} BlocksRendered(bs: seq<Block>)
    requires forall b :: b in bs ==> IsBlock(b)
    ensures RenderBlocks(bs) == BlockTexts(bs)
  {
    hide IsBlock;
    if bs != [] {
      assert bs[|bs| - 1] in bs;
      BlocksRendered(bs[..|bs| - 1]);
      BlockRendered(bs[|bs| - 1]);
    }
  }

  // ---- No whitespace at the ends ----

  /** Nothing for `trim` to remove. */
  predicate IsTight(s: string) {
    s != [] && !IsSpace(s[0]) && !IsSpace(s[|s| - 1])
  }

  lemma {:induction false} TightJoined(parts: seq<string>, separator: string)
    requires parts != [] && forall p :: p in parts ==> IsTight(p)
    ensures IsTight(Join(parts, separator))
  {
    hide IsSpace;
    assert parts[0] in parts;
    if |parts| > 1 {
      TightJoined(parts[1..], separator);
      var s, rest := Join(parts, separator), Join(parts[1..], separator);
      assert s == parts[0] + separator + rest && s[|s| - 1] == rest[|rest| - 1];
    }
  }

  lemma {:induction false} ItemTextsTight(items: seq<seq<string>>)
    requires forall item :: item in items ==> IsItem(item)
    ensures |ItemTexts(items)| == |items| && forall t :: t in ItemTexts(items) ==> IsTight(t)
  {
    hide IsNeat, IsTight, IsItem;
    if items != [] {
      var last := items[|items| - 1];
      ItemTextsTight(items[..|items| - 1]);
      ItemIsNeat(last);
      assert last != [] by { ItemHasLines(last); }
      LinesJoinNeatly(last);
      NeatIsTight(Join(last, " "));
    }
  }

  lemma ItemHasLines(item: seq<string>)
    requires IsItem(item)
    ensures item != []
  {}

  lemma NeatIsTight(s: string)
    requires IsNeat(s)
    ensures IsTight(s) && '\n' !in s
  {
    SpaceIsSpace();
  }

  lemma BlockTextTight(b: Block)
    requires IsBlock(b)
    ensures IsTight(BlockText(b))
  {
    hide IsNeat, IsDashed, IsItem, IsTight;
    match b {
      case Paragraph(lines) =>
        LinesJoinNeatly(lines);
        NeatIsTight(Join(lines, " "));
      case Bullets(items) =>
        ItemTextsTight(items);
        TightJoined(ItemTexts(items), "\n");
    }
  }

  lemma {:induction false} BlockTextsTight(bs: seq<Block>)
    requires forall b :: b in bs ==> IsBlock(b)
    ensures |BlockTexts(bs)| == |bs| && forall t :: t in BlockTexts(bs) ==> IsTight(t)
  {
    hide IsBlock, IsTight;
    if bs != [] {
      assert bs[|bs| - 1] in bs;
      BlockTextsTight(bs[..|bs| - 1]);
      BlockTextTight(bs[|bs| - 1]);
    }
  }

  lemma DocTextTrimmed(bs: seq<Block>)
    requires forall b :: b in bs ==> IsBlock(b)
    ensures Trim(DocText(bs)) == DocText(bs)
  {
    hide IsBlock, IsSpace;
    if bs != [] {
      BlockTextsTight(bs);
      TightJoined(BlockTexts(bs), "\n\n");
    }
  }

  // ---- The lines are lines, and prose up to the first tag ----

  lemma {:induction false} FlatMembers(items: seq<seq<string>>, l: string)
    requires l in Flat(items)
    ensures exists item :: item in items && l in item
  {
    var front, last := items[..|items| - 1], items[|items| - 1];
    assert last in items;
    if l !in last { FlatMembers(front, l); }
  }

  lemma BlockLinesPlain(b: Block, l: string)
    requires IsBlock(b) && l in BlockLines(b)
    ensures IsNeat(l) && l[0] != '@'
  {
    hide IsNeat;
    if b.Bullets? {
      FlatMembers(b.items, l);
      var item :| item in b.items && l in item;
      ItemLinesPlain(item, l);
    }
  }

  lemma ItemLinesPlain(item: seq<string>, l: string)
    requires IsItem(item) && l in item
    ensures IsNeat(l) && l[0] != '@'
  {}

  lemma {:induction false} WrittenPlain(bs: seq<Block>, l: string)
    requires (forall b :: b in bs ==> IsBlock(b)) && l in Written(bs)
    ensures l == "" || (IsNeat(l) && l[0] != '@')
  {
    hide IsBlock, IsNeat, BlockLines;
    assert bs[|bs| - 1] in bs;
    if l in BlockLines(bs[|bs| - 1]) {
      BlockLinesPlain(bs[|bs| - 1], l);
    } else if l != "" {
      WrittenPlain(bs[..|bs| - 1], l);
    }
  }

  lemma PlainIsProse(l: string)
    requires l == "" || (IsNeat(l) && l[0] != '@')
    ensures IsLine(l) && !IsTagLine(l)
  {
    if l != "" { NeatIsTight(l); }
  }

  lemma {:induction false} ProseUpToTag(lines: seq<string>, tail: seq<string>)
    requires (forall l :: l in lines ==> !IsTagLine(l)) && (tail == [] || IsTagLine(tail[0]))
    ensures ProseLines(lines + tail) == lines
  {
    hide IsTagLine;
    if lines == [] {
      assert lines + tail == tail;
    } else {
      assert lines[0] in lines;
      ProseUpToTag(lines[1..], tail);
      assert (lines + tail)[1..] == lines[1..] + tail && lines == [lines[0]] + lines[1..];
    }
  }

  /** The first thing after the description is a tag: a line that begins with `@` behind any indentation. */
  predicate StartsWithTag(tail: seq<string>) {
    tail == []
      || (exists k :: 0 <= k < |tail[0]| && tail[0][k] == '@' && forall i :: 0 <= i < k ==> IsSpace(tail[0][i]))
  }

  lemma {:induction false} TagBehindSpaces(l: string, k: nat)
    requires k < |l| && l[k] == '@' && forall i :: 0 <= i < k ==> IsSpace(l[i])
    ensures IsTagLine(l)
  {
    hide IsSpace;
    if k > 0 {
      assert forall i :: 0 <= i < k - 1 ==> l[1..][i] == l[i + 1];
      TagBehindSpaces(l[1..], k - 1);
    } else {
      AtIsNoSpace();
      assert l[..1] == "@";
    }
  }

  lemma AtIsNoSpace()
    ensures !IsSpace('@')
  {}

  /**
   * A comment written from paragraphs and list items, followed by any tags, gives a description with one blank line
   * between the blocks, each paragraph on one line and each item on a line of its own.
   */
  lemma DescriptionRecovered(bs: seq<Block>, tail: seq<string>)
    requires (forall b :: b in bs ==> IsBlock(b)) && (forall l :: l in tail ==> IsLine(l)) && StartsWithTag(tail)
    requires !Contains(DocText(bs), LINK)
    ensures DocOf(InnerLines(CommentOf(Written(bs) + tail))) == DocText(bs)
  {
    var lines := Written(bs);
    hide IsBlock, IsNeat, Written, InnerLines, CommentOf, Contains, DocText, IsLine, IsTagLine;
    forall l | l in lines ensures IsLine(l) && !IsTagLine(l) {
      WrittenPlain(bs, l);
      PlainIsProse(l);
    }
    if tail != [] {
      var k :| 0 <= k < |tail[0]| && tail[0][k] == '@' && forall i :: 0 <= i < k ==> IsSpace(tail[0][i]);
      TagBehindSpaces(tail[0], k);
    }
    hide StartsWithTag;
    CommentMeansItsLines(lines + tail);
    ProseUpToTag(lines, tail);
    BlocksRecovered(bs);
    BlocksRendered(bs);
    TextOfBlocks(bs);
    NoLinksNoChange(DocText(bs));
    DocTextTrimmed(bs);
    DocFrom(lines + tail, bs);
  }

  lemma TextOfBlocks(bs: seq<Block>)
    requires forall b :: b in bs ==> IsBlock(b)
    ensures Join(RenderBlocks(bs), "\n\n") == DocText(bs)
  {
    BlocksRendered(bs);
  }

  // ---- Modes ----

  /** How a mode is written. */
  function Spelling(m: Mode): string {
    match m
    case Emit => "emit"
    case Waterfall => "waterfall"
    case Parallel => "parallel"
    case Serial => "serial"
    case Bail => "bail"
  }

  lemma SpellingIsTight(m: Mode)
    ensures IsTight(Spelling(m)) && ModeNamed(Spelling(m)) == Some(m)
  {
    match m { case Emit => case Waterfall => case Parallel => case Serial => case Bail => }
  }

  /** Exactly the five names are modes. */
  lemma OnlyFiveModes(name: string)
    ensures ModeNamed(name).Some? <==> exists m :: name == Spelling(m)
  {
    if name == "emit" { assert name == Spelling(Emit); }
    if name == "waterfall" { assert name == Spelling(Waterfall); }
    if name == "parallel" { assert name == Spelling(Parallel); }
    if name == "serial" { assert name == Spelling(Serial); }
    if name == "bail" { assert name == Spelling(Bail); }
  }

  lemma ModeTagReads(name: string)
    requires IsTight(name)
    ensures ModeTag("@mode " + name) == ModeNamed(name) && HasModeWord("@mode " + name)
    ensures TrimStart("@mode " + name) == "@mode " + name
  {
    var tag := "@mode " + name;
    assert tag[..5] == "@mode" && tag[5..] == " " + name && tag[5] == ' ';
    assert (" " + name)[1..] == name;
    SpaceIsSpace();
    assert TrimStart(" " + name) == TrimStart(name) == name;
  }

  /** The last mode tag with a valid name decides, and any mode tag counts as one. */
  lemma ModeRecovered(before: seq<string>, m: Mode, after: seq<string>)
    requires forall l :: l in before || l in after ==> IsLine(l)
    requires forall l :: l in after ==> ModeTag(TrimStart(l)).None?
    ensures
      var inner := InnerLines(CommentOf(before + ["@mode " + Spelling(m)] + after));
      ModeOf(inner) == Some(m) && HasModeTag(inner)
  {
    var tag := "@mode " + Spelling(m);
    SpellingIsTight(m);
    ModeTagReads(Spelling(m));
    assert IsLine(tag) by { SpellingIsLine(m); }
    hide IsLine, InnerLines, CommentOf, ModeTag, HasModeWord, Spelling, ModeOf, HasModeTag;
    CommentMeansItsLines(before + [tag] + after);
    ModeAppend(before, tag);
    ModeStays(before + [tag], after);
  }

  lemma SpellingIsLine(m: Mode)
    ensures IsLine("@mode " + Spelling(m))
  {
    assert '\n' !in "@mode ";
    match m { case Emit => case Waterfall => case Parallel => case Serial => case Bail => }
  }

  lemma {:induction false} ModeStays(lines: seq<string>, after: seq<string>)
    requires forall l :: l in after ==> ModeTag(TrimStart(l)).None?
    ensures ModeOf(lines + after) == ModeOf(lines) && (HasModeTag(lines) ==> HasModeTag(lines + after))
  {
    hide ModeTag, HasModeWord, ModeOf, HasModeTag;
    if after == [] {
      assert lines + after == lines;
    } else {
      var front, last := after[..|after| - 1], after[|after| - 1];
      assert last in after;
      ModeStays(lines, front);
      ModeAppend(lines + front, last);
      assert lines + after == (lines + front) + [last];
    }
  }

  /** A mode tag with another name is a mode tag all the same, and gives no mode. */
  lemma WrongModeIsNoted(before: seq<string>, name: string)
    requires (forall l :: l in before ==> IsLine(l)) && IsTight(name) && '\n' !in name
    requires forall m :: name != Spelling(m)
    ensures
      var inner := InnerLines(CommentOf(before + ["@mode " + name]));
      ModeOf(inner) == ModeOf(before) && HasModeTag(inner)
  {
    var tag := "@mode " + name;
    OnlyFiveModes(name);
    ModeTagReads(name);
    assert tag[|tag| - 1] == name[|name| - 1] && '\n' !in "@mode ";
    assert IsLine(tag);
    hide IsLine, InnerLines, CommentOf, ModeTag, HasModeWord, ModeOf, HasModeTag;
    CommentMeansItsLines(before + [tag]);
    ModeAppend(before, tag);
  }

  // ---- Links and whole words, written out ----

  /** What a link keeps of what stands between `{@link` and its brace: all but the whitespace in front of it. */
  function LinkText(body: string): string
    requires body != []
  {
    if TrimStart(body) == "" then body[|body| - 1..] else TrimStart(body)
  }

  lemma {:induction false} SpacesTrimmed(s: string)
    ensures TrimStart(s) == s[SpacesLength(s)..] && forall i :: 0 <= i < SpacesLength(s) ==> IsSpace(s[i])
    ensures SpacesLength(s) < |s| ==> !IsSpace(s[SpacesLength(s)])
  {
    hide IsSpace;
    if s != [] && IsSpace(s[0]) {
      SpacesTrimmed(s[1..]);
      assert s[1..][SpacesLength(s[1..])..] == s[SpacesLength(s)..];
    }
  }

  lemma {:induction false} SpacesBeforeMore(body: string, more: string)
    requires more != [] && !IsSpace(more[0])
    ensures SpacesLength(body + more) == SpacesLength(body)
  {
    hide IsSpace;
    if body == [] {
      assert body + more == more;
    } else if IsSpace(body[0]) {
      assert (body + more)[1..] == body[1..] + more;
      SpacesBeforeMore(body[1..], more);
    }
  }

  lemma BraceIsNoSpace()
    ensures !IsSpace('}')
  {}

  /** A link opens with `{@link`. */
  lemma LinkOpens(after: string)
    ensures LinkAt("{@link" + after) ==
      var body := LinkBody(after);
      if body.None? then None else Some((body.value.0 + 6, body.value.1))
  {
    var s := LINK + after;
    assert s[..|LINK|] == LINK && s[|LINK|..] == after;
    hide LinkBody;
  }

  lemma OnlyLinksOpen(s: string)
    requires LinkAt(s).Some?
    ensures s[..6] == "{@link"
  {}

  /** A brace behind at least two characters, the first of them whitespace, completes it. */
  lemma LinkMatches(body: string, rest: string)
    requires '}' !in body && |body| >= 2 && IsSpace(body[0])
    ensures LinkBody(body + ("}" + rest)) == Some((|body| + 1, LinkText(body)))
  {
    hide IsSpace, SpacesLength, UntilBrace, TrimStart;
    var tail := "}" + rest;
    BraceIsNoSpace();
    SpacesBeforeMore(body, tail);
    SpacesTrimmed(body);
    LeadIsSpace(body);
    var n := SpacesLength(body);
    UntilBraceAt(body[n..], rest);
    TailSlices(body, tail, n);
  }

  lemma TailSlices(body: string, tail: string, n: nat)
    requires n <= |body| && body != []
    ensures (body + tail)[n..] == body[n..] + tail && (body + tail)[n..|body|] == body[n..]
    ensures (body + tail)[|body| - 1..|body|] == body[|body| - 1..]
  {}

  lemma LeadIsSpace(s: string)
    requires s != []
    ensures SpacesLength(s) > 0 <==> IsSpace(s[0])
  {}

  /** Nothing else is one. */
  lemma OnlyLinksMatch(after: string) returns (body: string, rest: string)
    requires LinkBody(after).Some?
    ensures after == body + "}" + rest && '}' !in body && |body| >= 2 && IsSpace(body[0])
  {
    hide IsSpace, SpacesLength, UntilBrace, TrimStart;
    var n := SpacesLength(after);
    var m := UntilBrace(after[n..]);
    LeadIsSpace(after);
    NoBraceBefore(after, n, m);
    body, rest := after[..n + m], after[n + m + 1..];
    AroundBrace(after, n + m);
  }

  lemma AroundBrace(s: string, k: nat)
    requires k < |s| && s[k] == '}'
    ensures s == s[..k] + "}" + s[k + 1..]
  {}

  lemma NoBraceBefore(s: string, n: nat, m: nat)
    requires n == SpacesLength(s) && m == UntilBrace(s[n..]) && n + m < |s|
    ensures '}' !in s[..n + m] && s[n + m] == '}'
  {
    hide IsSpace, SpacesLength, UntilBrace, TrimStart;
    SpacesTrimmed(s);
    BraceEnds(s[n..]);
    BraceIsNoSpace();
    assert s[n..][m] == s[n + m];
    forall i | 0 <= i < n + m ensures s[i] != '}' {
      if i >= n { assert s[i] == s[n..][i - n]; }
    }
  }

  lemma {:induction false} BraceEnds(s: string)
    ensures UntilBrace(s) < |s| ==> s[UntilBrace(s)] == '}'
    ensures forall i :: 0 <= i < UntilBrace(s) ==> s[i] != '}'
  {
    if s != [] && s[0] != '}' { BraceEnds(s[1..]); }
  }

  /** `@mode` counts unless a letter, a digit or an underscore follows. */
  lemma ModeIsAWord(c: char, rest: string)
    ensures HasModeWord("@mode")
    ensures HasModeWord("@mode" + [c] + rest) <==>
      !('a' <= c <= 'z') && !('A' <= c <= 'Z') && !('0' <= c <= '9') && c != '_'
  {
    var s := "@mode" + [c] + rest;
    assert s[..5] == "@mode" && s[5] == c;
  }
}
