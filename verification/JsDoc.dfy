/** Description prose and mode of a JSDoc comment (scripts/jsdoc.ts, parseJsDoc). */
module JsDoc {
  import opened Wrappers
  import opened Text
  import opened Words

  datatype Mode = Emit | Waterfall | Parallel | Serial | Bail

  datatype Parsed = Parsed(doc: string, mode: Option<Mode>, hasMode: bool)

  // ---- Lines of the comment ----

  /** A comment line without its leading asterisk, one following space, and trailing whitespace. */
  function StripLine(l: string): string {
    var a := TrimStart(l);
    var b := if StartsWith(a, "*") then a[1..] else a;
    var c := if b != [] && IsSpace(b[0]) then b[1..] else b;
    TrimEnd(c)
  }

  function StripLines(lines: seq<string>): seq<string> {
    if lines == [] then [] else [StripLine(lines[0])] + StripLines(lines[1..])
  }

  function InnerLines(raw: string): seq<string> {
    var body := if StartsWith(raw, "/**") then raw[3..] else raw;
    var closed := if EndsWith(body, "*/") then body[..|body| - 2] else body;
    StripLines(Split(closed, '\n'))
  }

  function ModeNamed(name: string): Option<Mode> {
    if name == "emit" then Some(Emit)
    else if name == "waterfall" then Some(Waterfall)
    else if name == "parallel" then Some(Parallel)
    else if name == "serial" then Some(Serial)
    else if name == "bail" then Some(Bail)
    else None
  }

  /** A full `@mode <name>` tag. */
  function ModeTag(tagLine: string): Option<Mode> {
    if StartsWith(tagLine, "@mode") && |tagLine| > 5 && IsSpace(tagLine[5]) then ModeNamed(Trim(tagLine[5..])) else None
  }

  predicate IsWordChar(c: char) {
    'a' <= c <= 'z' || 'A' <= c <= 'Z' || '0' <= c <= '9' || c == '_'
  }

  /** `@mode` as a whole word. */
  predicate HasModeWord(tagLine: string) {
    StartsWith(tagLine, "@mode") && (|tagLine| == 5 || !IsWordChar(tagLine[5]))
  }

  predicate IsTagLine(line: string) {
    StartsWith(TrimStart(line), "@")
  }

  predicate IsBlank(line: string) {
    Trim(line) == ""
  }

  /** A list item starts: a dash in the first column, followed by whitespace. */
  predicate IsBullet(line: string) {
    |line| > 1 && line[0] == '-' && IsSpace(line[1])
  }

  /** The lines before the first block tag. */
  function ProseLines(lines: seq<string>): seq<string> {
    if lines == [] || IsTagLine(lines[0]) then [] else [lines[0]] + ProseLines(lines[1..])
  }

  /** The last valid mode tag decides. */
  function ModeOf(lines: seq<string>): Option<Mode> {
    if lines == [] then None
    else
      var last := ModeTag(TrimStart(lines[|lines| - 1]));
      if last.Some? then last else ModeOf(lines[..|lines| - 1])
  }

  predicate HasModeTag(lines: seq<string>) {
    exists i :: 0 <= i < |lines| && HasModeWord(TrimStart(lines[i]))
  }

  // ---- Prose as paragraphs and lists ----

  /** A paragraph's lines, or a list of items, each with its lines. */
  datatype Block = Paragraph(lines: seq<string>) | Bullets(items: seq<seq<string>>)

  /** The finished blocks and the one that the next line may still extend. */
  datatype Outline = Outline(finished: seq<Block>, current: Option<Block>)

  function Close(o: Outline): seq<Block> {
    if o.current.Some? then o.finished + [o.current.value] else o.finished
  }

  function AddLine(o: Outline, line: string): Outline {
    if IsBlank(line) then Outline(Close(o), None)
    else if IsBullet(line) then
      if o.current.Some? && o.current.value.Bullets? then o.(current := Some(Bullets(o.current.value.items + [[line]])))
      else Outline(Close(o), Some(Bullets([[line]])))
    else if o.current.None? then o.(current := Some(Paragraph([line])))
    else
      match o.current.value
      case Paragraph(lines) => o.(current := Some(Paragraph(lines + [line])))
      case Bullets(items) => o.(current := Some(Bullets(AppendToLast(items, line))))
  }

  function AppendToLast(items: seq<seq<string>>, line: string): seq<seq<string>> {
    if items == [] then [[line]] else items[..|items| - 1] + [items[|items| - 1] + [line]]
  }

  function OutlineOf(lines: seq<string>): Outline {
    if lines == [] then Outline([], None) else AddLine(OutlineOf(lines[..|lines| - 1]), lines[|lines| - 1])
  }

  /** `parts.join(' ').replace(/\s+/g, ' ').trim()`. */
  function JoinParts(parts: seq<string>): string {
    Trim(Collapse(Join(parts, " ")))
  }

  function RenderItems(items: seq<seq<string>>): seq<string> {
    if items == [] then [] else RenderItems(items[..|items| - 1]) + [JoinParts(items[|items| - 1])]
  }

  function RenderBlock(b: Block): string {
    match b
    case Paragraph(lines) => JoinParts(lines)
    case Bullets(items) => Join(RenderItems(items), "\n")
  }

  function RenderBlocks(bs: seq<Block>): seq<string> {
    if bs == [] then [] else RenderBlocks(bs[..|bs| - 1]) + [RenderBlock(bs[|bs| - 1])]
  }

  // ---- Links ----

  const LINK := "{@link"

  function UntilBrace(s: string): (n: nat)
    ensures n <= |s|
  {
    if s == [] || s[0] == '}' then 0 else 1 + UntilBrace(s[1..])
  }

  /** What `\s+([^}]+)\}` matches at the front: the length of the match and the text it keeps. */
  function LinkBody(s: string): (r: Option<(nat, string)>)
    ensures r.Some? ==> 0 < r.value.0 <= |s|
  {
    var spaces := SpacesLength(s);
    var target := UntilBrace(s[spaces..]);
    var end := spaces + target;
    if spaces == 0 || end >= |s| then None
    else if target > 0 then Some((end + 1, s[spaces..end]))
    else if spaces > 1 then Some((end + 1, s[end - 1..end]))
    else None
  }

  /** The same behind `{@link`. */
  function LinkAt(s: string): (r: Option<(nat, string)>)
    ensures r.Some? ==> |LINK| < r.value.0 <= |s|
  {
    if !StartsWith(s, LINK) then None
    else
      var body := LinkBody(s[|LINK|..]);
      if body.None? then None else Some((|LINK| + body.value.0, body.value.1))
  }

  function RenderLinks(s: string): string
    decreases |s|
  {
    if s == [] then []
    else
      var link := LinkAt(s);
      if link.Some? then link.value.1 + RenderLinks(s[link.value.0..])
      else [s[0]] + RenderLinks(s[1..])
  }

  lemma {:induction false} NoLinksNoChange(s: string)
    requires !Contains(s, LINK)
    ensures RenderLinks(s) == s
    decreases |s|
  {
    if s != [] {
      assert !OccursAt(s, LINK, 0);
      forall at | 0 <= at <= |s[1..]| ensures !OccursAt(s[1..], LINK, at) { assert !OccursAt(s, LINK, at + 1); }
      NoLinksNoChange(s[1..]);
      assert s == [s[0]] + s[1..];
    }
  }

  // ---- No word is lost, added or moved ----

  lemma JoinPartsWords(parts: seq<string>)
    ensures WordsOf(JoinParts(parts)) == AllWords(parts)
  {
    JoinWords(parts, " ");
    CollapseWords(Join(parts, " "));
    TrimWords(Collapse(Join(parts, " ")));
  }

  function ItemWords(items: seq<seq<string>>): seq<string> {
    if items == [] then [] else ItemWords(items[..|items| - 1]) + AllWords(items[|items| - 1])
  }

  lemma {:induction false} RenderItemsWords(items: seq<seq<string>>)
    ensures AllWords(RenderItems(items)) == ItemWords(items)
  {
    if items != [] {
      var last := JoinParts(items[|items| - 1]);
      RenderItemsWords(items[..|items| - 1]);
      AllWordsAppend(RenderItems(items[..|items| - 1]), [last]);
      AllWordsOne(last);
      JoinPartsWords(items[|items| - 1]);
    }
  }

  function BlockWords(b: Block): seq<string> {
    match b
    case Paragraph(lines) => AllWords(lines)
    case Bullets(items) => ItemWords(items)
  }

  lemma RenderBlockWords(b: Block)
    ensures WordsOf(RenderBlock(b)) == BlockWords(b)
  {
    match b {
      case Paragraph(lines) => JoinPartsWords(lines);
      case Bullets(items) =>
        JoinWords(RenderItems(items), "\n");
        RenderItemsWords(items);
    }
  }

  function AllBlockWords(bs: seq<Block>): seq<string> {
    if bs == [] then [] else AllBlockWords(bs[..|bs| - 1]) + BlockWords(bs[|bs| - 1])
  }

  lemma {:induction false} RenderBlocksWords(bs: seq<Block>)
    ensures AllWords(RenderBlocks(bs)) == AllBlockWords(bs)
  {
    if bs != [] {
      var last := RenderBlock(bs[|bs| - 1]);
      RenderBlocksWords(bs[..|bs| - 1]);
      AllWordsAppend(RenderBlocks(bs[..|bs| - 1]), [last]);
      AllWordsOne(last);
      RenderBlockWords(bs[|bs| - 1]);
    }
  }

  lemma CloseWords(finished: seq<Block>, b: Block)
    ensures AllBlockWords(finished + [b]) == AllBlockWords(finished) + BlockWords(b)
  {
    assert (finished + [b])[..|finished|] == finished;
  }

  lemma BlankHasNoWords(line: string)
    requires IsBlank(line)
    ensures WordsOf(line) == []
  {
    TrimWords(line);
  }

  lemma OpenedWords(finished: seq<Block>, block: Block, words: seq<string>)
    requires BlockWords(block) == words
    ensures AllBlockWords(Close(Outline(finished, Some(block)))) == AllBlockWords(finished) + words
  {
    CloseWords(finished, block);
  }

  lemma GrownWords(finished: seq<Block>, block: Block, longer: Block, words: seq<string>)
    requires BlockWords(longer) == BlockWords(block) + words
    ensures AllBlockWords(Close(Outline(finished, Some(longer)))) ==
      AllBlockWords(Close(Outline(finished, Some(block)))) + words
  {
    CloseWords(finished, block);
    CloseWords(finished, longer);
  }

  lemma OneMoreItem(items: seq<seq<string>>, line: string)
    ensures ItemWords(items + [[line]]) == ItemWords(items) + WordsOf(line)
  {
    AllWordsOne(line);
    assert (items + [[line]])[..|items|] == items;
  }

  lemma AddLineWords(o: Outline, line: string)
    ensures AllBlockWords(Close(AddLine(o, line))) == AllBlockWords(Close(o)) + WordsOf(line)
  {
    hide AllBlockWords, ItemWords, WordsOf, AllWords, AppendToLast, IsBlank, IsBullet;
    var words := WordsOf(line);
    if IsBlank(line) {
      BlankHasNoWords(line);
    } else if IsBullet(line) {
      if o.current.Some? && o.current.value.Bullets? {
        var items := o.current.value.items;
        OneMoreItem(items, line);
        GrownWords(o.finished, Bullets(items), Bullets(items + [[line]]), words);
      } else {
        OneMoreItem([], line);
        NoItems();
        assert [] + [[line]] == [[line]];
        OpenedWords(Close(o), Bullets([[line]]), words);
      }
    } else if o.current.None? {
      AllWordsOne(line);
      OpenedWords(o.finished, Paragraph([line]), words);
    } else {
      match o.current.value {
        case Paragraph(lines) =>
          AllWordsOne(line);
          AllWordsAppend(lines, [line]);
          GrownWords(o.finished, o.current.value, Paragraph(lines + [line]), words);
        case Bullets(items) =>
          AppendToLastWords(items, line);
          GrownWords(o.finished, o.current.value, Bullets(AppendToLast(items, line)), words);
      }
    }
  }

  lemma NoItems()
    ensures ItemWords([]) == []
  {}

  lemma AppendToLastWords(items: seq<seq<string>>, line: string)
    ensures ItemWords(AppendToLast(items, line)) == ItemWords(items) + WordsOf(line)
  {
    AllWordsOne(line);
    var longer := AppendToLast(items, line);
    if items == [] {
      assert longer[..0] == [];
    } else {
      assert longer[..|longer| - 1] == items[..|items| - 1];
      AllWordsAppend(items[|items| - 1], [line]);
    }
  }

  lemma {:induction false} OutlineWords(lines: seq<string>)
    ensures AllBlockWords(Close(OutlineOf(lines))) == AllWords(lines)
  {
    if lines != [] {
      hide AddLine, AllBlockWords, AllWords, WordsOf, Close, OutlineOf;
      var front, last := lines[..|lines| - 1], lines[|lines| - 1];
      OutlineWords(front);
      OutlineAppend(front, last);
      AddLineWords(OutlineOf(front), last);
      AllWordsAppend(front, [last]);
      AllWordsOne(last);
      assert lines == front + [last];
    }
  }

  /** The prose of a comment: its blocks, one blank line apart. */
  function ProseOf(lines: seq<string>): string {
    Join(RenderBlocks(Close(OutlineOf(ProseLines(lines)))), "\n\n")
  }

  function DocOf(lines: seq<string>): string {
    Trim(RenderLinks(ProseOf(lines)))
  }

  lemma ProseKeepsWords(lines: seq<string>)
    ensures WordsOf(ProseOf(lines)) == AllWords(ProseLines(lines))
  {
    var bs := Close(OutlineOf(ProseLines(lines)));
    JoinWords(RenderBlocks(bs), "\n\n");
    RenderBlocksWords(bs);
    OutlineWords(ProseLines(lines));
  }

  /**
   * The words of the description are those of the prose with its links rendered, and the words of the prose are
   * those of the lines before the first tag, in order. Without `{@link` the two are the same.
   */
  lemma DocKeepsWords(lines: seq<string>)
    ensures WordsOf(DocOf(lines)) == WordsOf(RenderLinks(ProseOf(lines)))
    ensures WordsOf(ProseOf(lines)) == AllWords(ProseLines(lines))
    ensures (forall w :: w in AllWords(ProseLines(lines)) ==> !Contains(w, LINK)) ==>
      WordsOf(DocOf(lines)) == AllWords(ProseLines(lines))
  {
    hide ProseOf, ProseLines, RenderLinks, WordsOf, AllWords, Trim, Contains;
    ProseKeepsWords(lines);
    TrimWords(RenderLinks(ProseOf(lines)));
    if Contains(ProseOf(lines), LINK) {
      PatternInWord(ProseOf(lines), LINK);
    } else {
      NoLinksNoChange(ProseOf(lines));
    }
  }

  /** A link is rendered as its target. */
  lemma LinkRenders(target: string, after: string)
    requires target != [] && '}' !in target && !IsSpace(target[0])
    ensures RenderLinks("{@link " + target + "}" + after) == target + RenderLinks(after)
  {
    var s := "{@link " + target + "}" + after;
    assert s[..6] == LINK && s[6..] == " " + (target + "}" + after);
    assert s[6..][1..] == target + ("}" + after);
    assert SpacesLength(target + ("}" + after)) == 0;
    assert s[7..] == target + ("}" + after);
    UntilBraceAt(target, after);
    assert s[6..][1..1 + |target|] == target;
    assert LinkBody(s[6..]) == Some((2 + |target|, target));
    assert LinkAt(s) == Some((8 + |target|, target));
    assert s[8 + |target|..] == after;
  }

  lemma {:induction false} UntilBraceAt(target: string, after: string)
    requires '}' !in target
    ensures UntilBrace(target + ("}" + after)) == |target|
  {
    if target == [] {
      assert target + ("}" + after) == "}" + after;
    } else {
      assert target[0] in target;
      UntilBraceAt(target[1..], after);
      assert (target + ("}" + after))[1..] == target[1..] + ("}" + after);
    }
  }

  // ---- The parser and its buffers ----

  /**
   * The four buffers hold an outline: a paragraph and a list are never both pending, and the last item of a
   * pending list is the one in `item`.
   */
  predicate Holds(blocks: seq<string>, para: seq<string>, list: seq<string>, item: seq<string>, o: Outline) {
    && blocks == RenderBlocks(o.finished)
    && match o.current
       case None => para == [] && list == [] && item == []
       case Some(Paragraph(lines)) => para == lines && lines != [] && list == [] && item == []
       case Some(Bullets(items)) =>
         para == [] && items != [] && item == items[|items| - 1] && item != []
           && list == RenderItems(items[..|items| - 1])
  }

  lemma FinishedAppend(finished: seq<Block>, b: Block)
    ensures RenderBlocks(finished + [b]) == RenderBlocks(finished) + [RenderBlock(b)]
  {
    assert (finished + [b])[..|finished|] == finished;
  }

  /** What flushing the buffers adds is the current block. */
  lemma FlushedBlocks(blocks: seq<string>, para: seq<string>, list: seq<string>, item: seq<string>, o: Outline)
    requires Holds(blocks, para, list, item, o)
    ensures
      var all := list + if item != [] then [JoinParts(item)] else [];
      RenderBlocks(Close(o)) ==
      blocks + (if all != [] then [Join(all, "\n")] else []) + (if para != [] then [JoinParts(para)] else [])
  {
    hide Join, JoinParts, RenderBlocks;
    if o.current.Some? { FinishedAppend(o.finished, o.current.value); }
  }

  lemma FinishedBlocks(blocks: seq<string>, para: seq<string>, list: seq<string>, item: seq<string>,
                       finished: seq<Block>)
    requires Holds(blocks, para, list, item, Outline(finished, None))
    ensures blocks == RenderBlocks(finished)
  {}

  lemma BlankFinishes(line: string, o: Outline)
    requires IsBlank(line)
    ensures AddLine(o, line) == Outline(Close(o), None)
  {}

  lemma BulletHolds(blocks: seq<string>, para: seq<string>, list: seq<string>, item: seq<string>, o: Outline,
                    line: string)
    requires Holds(blocks, para, list, item, o) && !IsBlank(line) && IsBullet(line)
    ensures Holds(if para != [] then blocks + [JoinParts(para)] else blocks, [],
                  list + (if item != [] then [JoinParts(item)] else []), [line], AddLine(o, line))
  {
    hide Join, JoinParts, RenderBlocks, IsBlank, IsBullet;
    if o.current.Some? { FinishedAppend(o.finished, o.current.value); }
    if o.current.Some? && o.current.value.Bullets? {
      var items := o.current.value.items;
      assert (items + [[line]])[..|items|] == items;
    } else {
      assert [[line]][..0] == [];
    }
  }

  lemma ContinueHolds(blocks: seq<string>, para: seq<string>, list: seq<string>, item: seq<string>, o: Outline,
                      line: string)
    requires Holds(blocks, para, list, item, o) && !IsBlank(line) && !IsBullet(line)
    ensures if item != [] then Holds(blocks, para, list, item + [line], AddLine(o, line))
            else Holds(blocks, para + [line], list, item, AddLine(o, line))
  {
    hide Join, JoinParts, RenderBlocks, RenderItems, IsBlank, IsBullet;
    if item != [] {
      var items := o.current.value.items;
      assert AppendToLast(items, line)[..|items| - 1] == items[..|items| - 1];
    }
  }

  class JsDocParser {
    var blocks: seq<string>
    var para: seq<string>
    var list: seq<string>
    var item: seq<string>
    var mode: Option<Mode>
    var hasMode: bool
    var inTags: bool

    constructor ()
      ensures blocks == [] && para == [] && list == [] && item == [] && mode == None && !hasMode && !inTags
    {
      blocks, para, list, item := [], [], [], [];
      mode, hasMode, inTags := None, false, false;
    }

    method FlushItem()
      modifies this`list, this`item
      ensures item == [] && list == old(list) + if old(item) != [] then [JoinParts(old(item))] else []
    {
      if |item| > 0 { list := list + [JoinParts(item)]; }
      item := [];
    }

    method FlushList()
      modifies this`list, this`item, this`blocks
      ensures
        var all := old(list) + if old(item) != [] then [JoinParts(old(item))] else [];
        item == [] && list == [] && blocks == old(blocks) + if all != [] then [Join(all, "\n")] else []
    {
      FlushItem();
      if |list| > 0 { blocks := blocks + [Join(list, "\n")]; }
      list := [];
    }

    /** Flushing everything finishes the current block. */
    method FlushPara(ghost o: Outline)
      requires Holds(blocks, para, list, item, o)
      modifies this`list, this`item, this`blocks, this`para
      ensures Holds(blocks, para, list, item, Outline(Close(o), None))
    {
      hide Join, JoinParts, RenderBlocks, RenderItems, Close;
      FlushedBlocks(blocks, para, list, item, o);
      FlushList();
      if |para| > 0 { blocks := blocks + [JoinParts(para)]; }
      para := [];
    }

    /** A line of prose: the buffers change as the outline does. */
    method ProseLine(line: string, ghost o: Outline)
      requires Holds(blocks, para, list, item, o)
      modifies this`list, this`item, this`blocks, this`para
      ensures Holds(blocks, para, list, item, AddLine(o, line))
    {
      hide Holds, AddLine, Close, JoinParts, IsBullet;
      if IsBlank(line) {
        BlankFinishes(line, o);
        FlushPara(o);
      } else if IsBullet(line) {
        BulletHolds(blocks, para, list, item, o, line);
        FlushItem();
        if |para| > 0 {
          blocks := blocks + [JoinParts(para)];
          para := [];
        }
        assert para == [] && item + [line] == [line];
        item := item + [line];
      } else if |item| > 0 {
        ContinueHolds(blocks, para, list, item, o, line);
        item := item + [line];
      } else {
        ContinueHolds(blocks, para, list, item, o, line);
        para := para + [line];
      }
    }

    /** One line of the comment: a tag, a continuation of a tag, or prose. */
    method Line(line: string, ghost read: seq<string>, ghost o: Outline) returns (ghost o': Outline)
      requires Holds(blocks, para, list, item, o) && ReadSoFar(read, o, mode, hasMode, inTags)
      modifies this
      ensures Holds(blocks, para, list, item, o') && ReadSoFar(read + [line], o', mode, hasMode, inTags)
    {
      hide ReadSoFar, ModeTag, HasModeWord, AddLine, Holds;
      var tagLine := TrimStart(line);
      ModeTagIsModeWord(tagLine);
      if StartsWith(tagLine, "@") {
        ReadTag(read, line, o, mode, hasMode, inTags);
      } else {
        ReadOther(read, line, o, mode, hasMode, inTags);
      }
      o' := if IsTagLine(line) then Outline(Close(o), None) else if inTags then o else AddLine(o, line);
      var m := ModeTag(tagLine);
      if m.Some? {
        mode, hasMode := m, true;
        FlushPara(o);
        inTags := true;
      } else if HasModeWord(tagLine) {
        hasMode := true;
        FlushPara(o);
        inTags := true;
      } else if StartsWith(tagLine, "@") {
        FlushPara(o);
        inTags := true;
      } else if !inTags {
        ProseLine(line, o);
      }
    }
  }

  predicate AnyTag(lines: seq<string>) {
    exists k :: 0 <= k < |lines| && IsTagLine(lines[k])
  }

  /** What the parser knows after the lines `read`. */
  ghost predicate ReadSoFar(read: seq<string>, o: Outline, mode: Option<Mode>, hasMode: bool, inTags: bool) {
    && mode == ModeOf(read) && (hasMode <==> HasModeTag(read)) && (inTags <==> AnyTag(read))
    && Close(o) == Close(OutlineOf(ProseLines(read)))
    && (!inTags ==> o == OutlineOf(read) && ProseLines(read) == read)
  }

  lemma {:induction false} ProseAppend(lines: seq<string>, line: string)
    ensures ProseLines(lines + [line]) == if AnyTag(lines) || IsTagLine(line) then ProseLines(lines) else lines + [line]
    ensures AnyTag(lines + [line]) <==> AnyTag(lines) || IsTagLine(line)
    ensures !AnyTag(lines) ==> ProseLines(lines) == lines
  {
    hide IsTagLine, AnyTag;
    if lines == [] {
      assert lines + [line] == [line];
      AnyTagOne(line);
    } else {
      var first, rest := lines[0], lines[1..];
      ProseAppend(rest, line);
      AnyTagCons(first, rest);
      AnyTagCons(first, rest + [line]);
      ProseCons(first, rest);
      ProseCons(first, rest + [line]);
      hide ProseLines;
      assert lines == [first] + rest && lines + [line] == [first] + (rest + [line]);
    }
  }

  lemma AnyTagOne(line: string)
    ensures AnyTag([line]) <==> IsTagLine(line)
    ensures !AnyTag([])
  {
    assert [line][0] == line;
  }

  lemma AnyTagCons(line: string, lines: seq<string>)
    ensures AnyTag([line] + lines) <==> IsTagLine(line) || AnyTag(lines)
  {
    var all := [line] + lines;
    assert all[0] == line;
    if k :| 0 <= k < |all| && IsTagLine(all[k]) {
      if k > 0 { assert lines[k - 1] == all[k]; }
    }
    if k :| 0 <= k < |lines| && IsTagLine(lines[k]) { assert all[k + 1] == lines[k]; }
  }

  lemma ProseCons(line: string, lines: seq<string>)
    ensures ProseLines([line] + lines) == if IsTagLine(line) then [] else [line] + ProseLines(lines)
  {
    assert ([line] + lines)[1..] == lines;
  }

  lemma ModeAppend(lines: seq<string>, line: string)
    ensures ModeOf(lines + [line]) == (var m := ModeTag(TrimStart(line)); if m.Some? then m else ModeOf(lines))
    ensures HasModeTag(lines + [line]) <==> HasModeTag(lines) || HasModeWord(TrimStart(line))
  {
    assert (lines + [line])[..|lines|] == lines;
    if HasModeTag(lines) {
      var i :| 0 <= i < |lines| && HasModeWord(TrimStart(lines[i]));
      assert (lines + [line])[i] == lines[i];
    }
    assert (lines + [line])[|lines|] == line;
  }

  lemma ModeTagIsModeWord(tagLine: string)
    ensures ModeTag(tagLine).Some? ==> HasModeWord(tagLine)
    ensures HasModeWord(tagLine) ==> StartsWith(tagLine, "@")
  {}

  /** Reading a block tag finishes the pending block; only a valid mode tag changes the mode. */
  lemma ReadTag(read: seq<string>, line: string, o: Outline, mode: Option<Mode>, hasMode: bool, inTags: bool)
    requires ReadSoFar(read, o, mode, hasMode, inTags) && IsTagLine(line)
    ensures
      var tagLine := TrimStart(line);
      ReadSoFar(read + [line], Outline(Close(o), None), if ModeTag(tagLine).Some? then ModeTag(tagLine) else mode,
                hasMode || HasModeWord(tagLine), true)
  {
    hide ModeTag, HasModeWord, IsTagLine, AnyTag, OutlineOf;
    ProseAppend(read, line);
    ModeAppend(read, line);
  }

  /** A line without a tag extends the outline, or is skipped after the first tag. */
  lemma ReadOther(read: seq<string>, line: string, o: Outline, mode: Option<Mode>, hasMode: bool, inTags: bool)
    requires ReadSoFar(read, o, mode, hasMode, inTags) && !IsTagLine(line)
    ensures ReadSoFar(read + [line], if inTags then o else AddLine(o, line), mode, hasMode, inTags)
  {
    assert ModeTag(TrimStart(line)).None? && !HasModeWord(TrimStart(line)) by { ModeTagIsModeWord(TrimStart(line)); }
    hide ModeTag, HasModeWord, IsTagLine, AnyTag, AddLine, OutlineOf;
    ProseAppend(read, line);
    ModeAppend(read, line);
    OutlineAppend(read, line);
  }

  lemma OutlineAppend(lines: seq<string>, line: string)
    ensures OutlineOf(lines + [line]) == AddLine(OutlineOf(lines), line)
  {
    assert (lines + [line])[..|lines|] == lines;
  }

  lemma ReadAll(lines: seq<string>, o: Outline, mode: Option<Mode>, hasMode: bool, inTags: bool)
    requires ReadSoFar(lines, o, mode, hasMode, inTags)
    ensures mode == ModeOf(lines) && (hasMode <==> HasModeTag(lines)) && Close(o) == Close(OutlineOf(ProseLines(lines)))
  {}

  lemma NothingRead(read: seq<string>)
    requires read == []
    ensures ReadSoFar(read, Outline([], None), None, false, false) && Holds([], [], [], [], Outline([], None))
  {}

  lemma DocFrom(lines: seq<string>, finished: seq<Block>)
    requires finished == Close(OutlineOf(ProseLines(lines)))
    ensures DocOf(lines) == Trim(RenderLinks(Join(RenderBlocks(finished), "\n\n")))
  {}

  /** The description, the last valid mode, and whether any mode tag was present. */
  method ParseJsDoc(raw: string) returns (r: Parsed)
    ensures r.doc == DocOf(InnerLines(raw))
    ensures r.mode == ModeOf(InnerLines(raw)) && (r.hasMode <==> HasModeTag(InnerLines(raw)))
  {
    hide ReadSoFar, ModeTag, HasModeWord, AddLine, InnerLines, ModeOf, HasModeTag, OutlineOf, ProseLines;
    hide Holds, Close, Join, RenderLinks, RenderBlocks, Trim, DocOf;
    var inner := InnerLines(raw);
    var p := new JsDocParser();
    ghost var o := Outline([], None);
    NothingRead(inner[..0]);
    for i := 0 to |inner|
      invariant Holds(p.blocks, p.para, p.list, p.item, o)
      invariant ReadSoFar(inner[..i], o, p.mode, p.hasMode, p.inTags)
    {
      assert inner[..i + 1] == inner[..i] + [inner[i]];
      o := p.Line(inner[i], inner[..i], o);
    }
    assert inner[..|inner|] == inner;
    ReadAll(inner, o, p.mode, p.hasMode, p.inTags);
    p.FlushPara(o);
    FinishedBlocks(p.blocks, p.para, p.list, p.item, Close(o));
    DocFrom(inner, Close(o));
    return Parsed(Trim(RenderLinks(Join(p.blocks, "\n\n"))), p.mode, p.hasMode);
  }
}
