/** Locating and replacing link destinations without reserializing Markdown (scripts/project-doc-site.ts). */
module DocSite {
  import opened Wrappers
  import opened Text

  // ---- Scanning one raw link node ----

  datatype Kind = Link | Image | Definition

  datatype Range = Range(start: nat, end: nat)

  datatype ScanError = NoLabelEnd | NoDefinitionSeparator | NoInlineDestination | NoAngleEnd

  /** Offset of the bracket closing the caption, with `depth` brackets open. */
  function LabelScan(s: string, depth: int): Option<nat>
    decreases |s|
  {
    if s == [] then None
    else if s[0] == '\\' then (if |s| == 1 then None else Shift(2, LabelScan(s[2..], depth)))
    else if s[0] == '[' then Shift(1, LabelScan(s[1..], depth + 1))
    else if s[0] == ']' then (if depth == 1 then Some(0) else Shift(1, LabelScan(s[1..], depth - 1)))
    else Shift(1, LabelScan(s[1..], depth))
  }

  function Shift(n: nat, r: Option<nat>): Option<nat> {
    if r.None? then None else Some(r.value + n)
  }

  /** Offset of the unescaped closing angle bracket. */
  function AngleScan(s: string): Option<nat>
    decreases |s|
  {
    if s == [] then None
    else if s[0] == '\\' then (if |s| == 1 then None else Shift(2, AngleScan(s[2..])))
    else if s[0] == '>' then Some(0)
    else Shift(1, AngleScan(s[1..]))
  }

  /** Length of the bare destination at the front, with `depth` parentheses open. */
  function BareScan(s: string, depth: nat): (n: nat)
    ensures n <= |s|
    decreases |s|
  {
    if s == [] then 0
    else if s[0] == '\\' then (if |s| == 1 then 1 else 2 + BareScan(s[2..], depth))
    else if s[0] == '(' then 1 + BareScan(s[1..], depth + 1)
    else if s[0] == ')' then (if depth == 0 then 0 else 1 + BareScan(s[1..], depth - 1))
    else if IsSpace(s[0]) && depth == 0 then 0
    else 1 + BareScan(s[1..], depth)
  }

  function LabelEnd(source: string): (r: int)
    ensures -1 <= r
  {
    var first := IndexOf(source, '[');
    if first == -1 then -1
    else
      var r := LabelScan(source[first..], 0);
      if r.None? then -1 else first + r.value
  }

  lemma {:induction false} LabelScanBound(s: string, depth: int)
    ensures LabelScan(s, depth).Some? ==> LabelScan(s, depth).value < |s| && s[LabelScan(s, depth).value] == ']'
    decreases |s|
  {
    if s != [] {
      if s[0] == '\\' && |s| > 1 { LabelScanBound(s[2..], depth); }
      else if s[0] == '[' { LabelScanBound(s[1..], depth + 1); }
      else if s[0] == ']' && depth != 1 { LabelScanBound(s[1..], depth - 1); }
      else { LabelScanBound(s[1..], depth); }
    }
  }

  /** The range of a destination that starts at `start`. */
  function RangeAt(raw: string, start: nat): Result<Range, ScanError>
    requires start <= |raw|
  {
    if start < |raw| && raw[start] == '<' then
      var r := AngleScan(raw[start + 1..]);
      if r.None? then Err(NoAngleEnd) else Ok(Range(start + 1, start + 1 + r.value))
    else Ok(Range(start, start + BareScan(raw[start..], 0)))
  }

  /** Where the destination of a raw node starts. */
  function DestinationStart(raw: string, kind: Kind): (r: Result<nat, ScanError>)
    ensures r.Ok? ==> r.value <= |raw|
  {
    var end := LabelEnd(raw);
    if end == -1 then Err(NoLabelEnd)
    else if kind.Definition? then
      var colon := if end + 1 <= |raw| then IndexOf(raw[end + 1..], ':') else -1;
      if colon == -1 then Err(NoDefinitionSeparator)
      else Ok(end + 2 + colon + SpacesLength(raw[end + 2 + colon..]))
    else if !(end + 1 < |raw| && raw[end + 1] == '(') then Err(NoInlineDestination)
    else Ok(end + 2 + SpacesLength(raw[end + 2..]))
  }

  function DestinationOf(raw: string, kind: Kind): Result<Range, ScanError> {
    var start := DestinationStart(raw, kind);
    if start.Err? then Err(start.error) else RangeAt(raw, start.value)
  }

  method SkipWhitespace(source: string, start: nat) returns (index: nat)
    requires start <= |source|
    ensures index == start + SpacesLength(source[start..])
  {
    index := start;
    while index < |source| && IsSpace(source[index])
      invariant start <= index <= |source|
      invariant start + SpacesLength(source[start..]) == index + SpacesLength(source[index..])
    {
      assert source[index..][1..] == source[index + 1..];
      index := index + 1;
    }
  }

  lemma LabelScanEnds()
    ensures forall depth :: LabelScan([], depth) == None
  {}

  /** One step of the scan, at an index of the source. */
  lemma LabelScanNext(source: string, index: nat, depth: int)
    requires index < |source|
    ensures LabelScan(source[index..], depth) ==
      if source[index] == '\\' then
        (if index + 1 == |source| then None else Shift(2, LabelScan(source[index + 2..], depth)))
      else if source[index] == '[' then Shift(1, LabelScan(source[index + 1..], depth + 1))
      else if source[index] == ']' then
        (if depth == 1 then Some(0) else Shift(1, LabelScan(source[index + 1..], depth - 1)))
      else Shift(1, LabelScan(source[index + 1..], depth))
  {
    var rest := source[index..];
    assert rest[1..] == source[index + 1..] && (|rest| > 1 ==> rest[2..] == source[index + 2..]);
  }

  method FindLabelEnd(source: string) returns (r: int)
    ensures r == LabelEnd(source)
  {
    hide LabelScan, IndexOf;
    var first := IndexOf(source, '[');
    if first == -1 { return -1; }
    LabelScanEnds();
    var depth := 0;
    var index := first;
    while index < |source|
      invariant first <= index
      invariant LabelScan(source[first..], 0) ==
                if index <= |source| then Shift(index - first, LabelScan(source[index..], depth)) else None
    {
      var current := source[index];
      LabelScanNext(source, index, depth);
      if current == '\\' {
        index := index + 1;
      } else if current == '[' {
        depth := depth + 1;
      } else if current == ']' {
        depth := depth - 1;
        if depth == 0 { return index; }
      }
      index := index + 1;
    }
    assert index == |source| ==> source[index..] == [];
    return -1;
  }

  method DestinationRange(raw: string, kind: Kind) returns (r: Result<Range, ScanError>)
    ensures r == DestinationOf(raw, kind)
  {
    hide RangeAt, LabelEnd, SpacesLength, IndexOf;
    var endOfLabel := FindLabelEnd(raw);
    if endOfLabel == -1 { return Err(NoLabelEnd); }
    LabelEndBound(raw);
    var start: nat;
    if kind.Definition? {
      var colon := IndexOf(raw[endOfLabel + 1..], ':');
      if colon == -1 { return Err(NoDefinitionSeparator); }
      start := SkipWhitespace(raw, endOfLabel + 2 + colon);
    } else {
      if endOfLabel + 1 >= |raw| || raw[endOfLabel + 1] != '(' { return Err(NoInlineDestination); }
      start := SkipWhitespace(raw, endOfLabel + 2);
    }

    if start < |raw| && raw[start] == '<' {
      r := AngleRange(raw, start);
    } else {
      r := BareRange(raw, start);
    }
  }

  method AngleRange(raw: string, start: nat) returns (r: Result<Range, ScanError>)
    requires start < |raw| && raw[start] == '<'
    ensures r == RangeAt(raw, start)
  {
    var index := start + 1;
    while index < |raw|
      invariant start + 1 <= index
      invariant AngleScan(raw[start + 1..]) ==
                if index <= |raw| then Shift(index - start - 1, AngleScan(raw[index..])) else None
    {
      var rest := raw[index..];
      assert rest[1..] == raw[index + 1..] && (|rest| > 1 ==> rest[2..] == raw[index + 2..]);
      if raw[index] == '\\' {
        index := index + 1;
      } else if raw[index] == '>' {
        return Ok(Range(start + 1, index));
      }
      index := index + 1;
    }
    return Err(NoAngleEnd);
  }

  method BareRange(raw: string, start: nat) returns (r: Result<Range, ScanError>)
    requires start <= |raw| && (start < |raw| ==> raw[start] != '<')
    ensures r == RangeAt(raw, start)
  {
    hide IsSpace;
    var depth: nat := 0;
    var index := start;
    while index < |raw|
      invariant start <= index
      invariant start + BareScan(raw[start..], 0) ==
                if index <= |raw| then index + BareScan(raw[index..], depth) else |raw|
    {
      var current := raw[index];
      var rest := raw[index..];
      assert rest[1..] == raw[index + 1..] && (|rest| > 1 ==> rest[2..] == raw[index + 2..]);
      if current == '\\' {
        index := index + 1;
      } else if current == '(' {
        depth := depth + 1;
      } else if current == ')' {
        if depth == 0 { return Ok(Range(start, index)); }
        depth := depth - 1;
      } else if IsSpace(current) && depth == 0 {
        return Ok(Range(start, index));
      }
      index := index + 1;
    }
    return Ok(Range(start, |raw|));
  }

  lemma LabelEndBound(raw: string)
    ensures LabelEnd(raw) >= 0 ==> LabelEnd(raw) < |raw| && raw[LabelEnd(raw)] == ']'
  {
    var first := IndexOf(raw, '[');
    if first >= 0 { LabelScanBound(raw[first..], 0); }
  }

  // ---- The destination grammar ----

  /** Text with balanced groups and backslash escapes. */
  datatype Balanced =
    | End
    | Plain(c: char, rest: Balanced)
    | Escaped(c: char, rest: Balanced)
    | Group(inner: Balanced, rest: Balanced)

  function Render(t: Balanced, open: char, close: char): string {
    match t
    case End => []
    case Plain(c, rest) => [c] + Render(rest, open, close)
    case Escaped(c, rest) => ['\\', c] + Render(rest, open, close)
    case Group(inner, rest) => [open] + Render(inner, open, close) + [close] + Render(rest, open, close)
  }

  predicate IsLabel(t: Balanced) {
    match t
    case End => true
    case Plain(c, rest) => c !in {'[', ']', '\\'} && IsLabel(rest)
    case Escaped(c, rest) => IsLabel(rest)
    case Group(inner, rest) => IsLabel(inner) && IsLabel(rest)
  }

  /** Whitespace-free, with every parenthesis balanced or escaped. */
  predicate IsBare(t: Balanced) {
    match t
    case End => true
    case Plain(c, rest) => c !in {'(', ')', '\\'} && !IsSpace(c) && IsBare(rest)
    case Escaped(c, rest) => !IsSpace(c) && IsBare(rest)
    case Group(inner, rest) => IsBare(inner) && IsBare(rest)
  }

  predicate IsAngle(t: Balanced) {
    match t
    case End => true
    case Plain(c, rest) => c !in {'>', '\\'} && IsAngle(rest)
    case Escaped(c, rest) => IsAngle(rest)
    case Group(inner, rest) => false
  }

  lemma LabelScanCons(c: char, s: string, depth: int)
    ensures LabelScan(['\\', c] + s, depth) == Shift(2, LabelScan(s, depth))
    ensures c !in {'[', ']', '\\'} ==> LabelScan([c] + s, depth) == Shift(1, LabelScan(s, depth))
    ensures LabelScan(['['] + s, depth) == Shift(1, LabelScan(s, depth + 1))
    ensures depth != 1 ==> LabelScan([']'] + s, depth) == Shift(1, LabelScan(s, depth - 1))
  {
    assert (['\\', c] + s)[2..] == s && ([c] + s)[1..] == s && (['['] + s)[1..] == s && ([']'] + s)[1..] == s;
  }

  lemma {:induction false} LabelSkipped(t: Balanced, tail: string, depth: int)
    requires IsLabel(t) && depth >= 1
    ensures LabelScan(Render(t, '[', ']') + tail, depth) == Shift(|Render(t, '[', ']')|, LabelScan(tail, depth))
    decreases t
  {
    hide LabelScan;
    var all := Render(t, '[', ']') + tail;
    match t {
      case End => assert all == tail;
      case Plain(c, rest) =>
        LabelSkipped(rest, tail, depth);
        LabelScanCons(c, Render(rest, '[', ']') + tail, depth);
        assert all == [c] + (Render(rest, '[', ']') + tail);
      case Escaped(c, rest) =>
        LabelSkipped(rest, tail, depth);
        LabelScanCons(c, Render(rest, '[', ']') + tail, depth);
        assert all == ['\\', c] + (Render(rest, '[', ']') + tail);
      case Group(inner, rest) =>
        var after := Render(rest, '[', ']') + tail;
        LabelSkipped(rest, tail, depth);
        LabelSkipped(inner, [']'] + after, depth + 1);
        LabelScanCons(']', after, depth + 1);
        LabelScanCons('[', Render(inner, '[', ']') + ([']'] + after), depth);
        assert all == ['['] + (Render(inner, '[', ']') + ([']'] + after));
    }
  }

  lemma BareScanCons(c: char, s: string, depth: nat)
    ensures BareScan(['\\', c] + s, depth) == 2 + BareScan(s, depth)
    ensures c !in {'(', ')', '\\'} && !IsSpace(c) ==> BareScan([c] + s, depth) == 1 + BareScan(s, depth)
    ensures BareScan(['('] + s, depth) == 1 + BareScan(s, depth + 1)
    ensures depth > 0 ==> BareScan([')'] + s, depth) == 1 + BareScan(s, depth - 1)
  {
    hide IsSpace;
    assert (['\\', c] + s)[2..] == s && ([c] + s)[1..] == s && (['('] + s)[1..] == s && ([')'] + s)[1..] == s;
  }

  lemma GroupAround(open: char, inner: string, close: char, rest: string, tail: string)
    ensures [open] + inner + [close] + rest + tail == [open] + (inner + ([close] + (rest + tail)))
  {}

  lemma {:induction false} BareSkipped(t: Balanced, tail: string, depth: nat)
    requires IsBare(t)
    ensures BareScan(Render(t, '(', ')') + tail, depth) == |Render(t, '(', ')')| + BareScan(tail, depth)
    decreases t
  {
    hide BareScan, IsSpace;
    var all := Render(t, '(', ')') + tail;
    match t {
      case End => assert all == tail;
      case Plain(c, rest) =>
        BareSkipped(rest, tail, depth);
        BareScanCons(c, Render(rest, '(', ')') + tail, depth);
        assert all == [c] + (Render(rest, '(', ')') + tail);
      case Escaped(c, rest) =>
        BareSkipped(rest, tail, depth);
        BareScanCons(c, Render(rest, '(', ')') + tail, depth);
        assert all == ['\\', c] + (Render(rest, '(', ')') + tail);
      case Group(inner, rest) =>
        var after := Render(rest, '(', ')') + tail;
        BareSkipped(rest, tail, depth);
        BareSkipped(inner, [')'] + after, depth + 1);
        BareScanCons(')', after, depth + 1);
        BareScanCons('(', Render(inner, '(', ')') + ([')'] + after), depth);
        GroupAround('(', Render(inner, '(', ')'), ')', Render(rest, '(', ')'), tail);
    }
  }

  lemma AngleScanCons(c: char, s: string)
    ensures AngleScan(['\\', c] + s) == Shift(2, AngleScan(s))
    ensures c !in {'>', '\\'} ==> AngleScan([c] + s) == Shift(1, AngleScan(s))
  {
    assert (['\\', c] + s)[2..] == s && ([c] + s)[1..] == s;
  }

  lemma {:induction false} AngleSkipped(t: Balanced, tail: string)
    requires IsAngle(t)
    ensures AngleScan(Render(t, '<', '>') + tail) == Shift(|Render(t, '<', '>')|, AngleScan(tail))
    decreases t
  {
    hide AngleScan;
    var all := Render(t, '<', '>') + tail;
    match t {
      case End => assert all == tail;
      case Plain(c, rest) =>
        AngleSkipped(rest, tail);
        AngleScanCons(c, Render(rest, '<', '>') + tail);
        assert all == [c] + (Render(rest, '<', '>') + tail);
      case Escaped(c, rest) =>
        AngleSkipped(rest, tail);
        AngleScanCons(c, Render(rest, '<', '>') + tail);
        assert all == ['\\', c] + (Render(rest, '<', '>') + tail);
    }
  }

  lemma {:induction false} SpacesSkipped(spaces: string, tail: string)
    requires (forall c :: c in spaces ==> IsSpace(c)) && (tail == [] || !IsSpace(tail[0]))
    ensures SpacesLength(spaces + tail) == |spaces|
  {
    if spaces == [] {
      assert spaces + tail == tail;
    } else {
      assert spaces[0] in spaces;
      SpacesSkipped(spaces[1..], tail);
      assert (spaces + tail)[1..] == spaces[1..] + tail;
    }
  }

  /** What stands between the caption's closing bracket and the destination. */
  function Separator(kind: Kind): char {
    if kind.Definition? then ':' else '('
  }

  /** Everything in front of the destination: an image marker if any, the caption, the separator and spaces. */
  function Lead(before: string, caption: Balanced, kind: Kind, spaces: string): string {
    before + ['['] + Render(caption, '[', ']') + [']', Separator(kind)] + spaces
  }

  lemma {:induction false} FirstAt(before: string, after: string, c: char)
    requires c !in before
    ensures IndexOf(before + [c] + after, c) == |before|
  {
    if before != [] {
      assert before[0] in before;
      FirstAt(before[1..], after, c);
      assert (before + [c] + after)[1..] == before[1..] + [c] + after;
    }
  }

  lemma CloserEndsLabel(after: string)
    ensures LabelScan([']'] + after, 1) == Some(0)
  {}

  lemma OpenerStartsLabel(rest: string)
    ensures LabelScan(['['] + rest, 0) == Shift(1, LabelScan(rest, 1))
  {
    assert (['['] + rest)[1..] == rest;
  }

  lemma LabelEndOfNode(before: string, caption: Balanced, after: string)
    requires '[' !in before && IsLabel(caption)
    ensures LabelEnd(before + ['['] + Render(caption, '[', ']') + [']'] + after) ==
      |before| + 1 + |Render(caption, '[', ']')|
  {
    hide Render, IsLabel, LabelScan;
    var text, tail := Render(caption, '[', ']'), [']'] + after;
    LabelSkipped(caption, tail, 1);
    CloserEndsLabel(after);
    OpenerStartsLabel(text + tail);
    FirstAt(before, text + tail, '[');
    var raw := before + ['['] + text + [']'] + after;
    assert raw == before + ['['] + (text + tail);
    assert raw[|before|..] == ['['] + (text + tail);
  }

  /** The scan finds where the destination starts. */
  lemma StartFound(before: string, caption: Balanced, kind: Kind, spaces: string, rest: string)
    requires '[' !in before && IsLabel(caption)
    requires (forall c :: c in spaces ==> IsSpace(c)) && (rest == [] || !IsSpace(rest[0]))
    ensures DestinationStart(Lead(before, caption, kind, spaces) + rest, kind) ==
      Ok(|Lead(before, caption, kind, spaces)|)
  {
    hide LabelEnd, DestinationStart, IndexOf, SpacesLength, Render, IsSpace, IsLabel;
    var raw := Lead(before, caption, kind, spaces) + rest;
    var text, after := Render(caption, '[', ']'), [Separator(kind)] + spaces + rest;
    var end := |before| + 1 + |text|;
    assert LabelEnd(raw) == end && raw[end + 1..] == after && raw[end + 1] == Separator(kind)
      && raw[end + 2..] == spaces + rest by {
      LeadShape(before, text, Separator(kind), spaces, rest);
      LabelEndOfNode(before, caption, after);
    }
    assert kind.Definition? ==> IndexOf(raw[end + 1..], ':') == 0 by {
      FirstAt([], spaces + rest, ':');
      assert [] + [Separator(kind)] + (spaces + rest) == after;
    }
    assert SpacesLength(raw[end + 2..]) == |spaces| by { SpacesSkipped(spaces, rest); }
    StartFrom(raw, kind, end);
    assert |Lead(before, caption, kind, spaces)| == end + 2 + |spaces|;
  }

  lemma StartFrom(raw: string, kind: Kind, end: nat)
    requires LabelEnd(raw) == end && end + 1 < |raw| && raw[end + 1] == Separator(kind)
    requires kind.Definition? ==> IndexOf(raw[end + 1..], ':') == 0
    ensures DestinationStart(raw, kind) == Ok(end + 2 + SpacesLength(raw[end + 2..]))
  {}

  lemma LeadShape(before: string, text: string, separator: char, spaces: string, rest: string)
    ensures
      var raw := before + ['['] + text + [']', separator] + spaces + rest;
      var after, end := [separator] + spaces + rest, |before| + 1 + |text|;
      raw == before + ['['] + text + [']'] + after && raw[end + 1..] == after && raw[end + 1] == separator
      && raw[end + 2..] == spaces + rest
  {
    var raw := before + ['['] + text + [']', separator] + spaces + rest;
    var after := [separator] + spaces + rest;
    assert [']', separator] == [']'] + [separator];
    assert raw == before + ['['] + text + [']'] + after;
    assert raw[|before| + 1 + |text| + 2..] == spaces + rest;
  }

  /** An angle-bracketed destination is recovered exactly. */
  lemma AngleDestinationRecovered(before: string, caption: Balanced, kind: Kind, spaces: string, dest: Balanced,
                                  tail: string)
    requires '[' !in before && IsLabel(caption) && IsAngle(dest) && forall c :: c in spaces ==> IsSpace(c)
    ensures
      var lead, text := Lead(before, caption, kind, spaces), Render(dest, '<', '>');
      DestinationOf(lead + ['<'] + text + ['>'] + tail, kind) == Ok(Range(|lead| + 1, |lead| + 1 + |text|))
  {
    var lead, text := Lead(before, caption, kind, spaces), Render(dest, '<', '>');
    var rest := ['<'] + text + ['>'] + tail;
    hide Render, Lead, DestinationOf, DestinationStart, AngleScan, IsAngle, IsLabel;
    var raw := lead + ['<'] + text + ['>'] + tail;
    assert raw == lead + rest && raw[|lead| + 1..] == text + (['>'] + tail) && raw[|lead|] == '<' by {
      AngleShape(lead, text, tail);
    }
    assert DestinationStart(raw, kind) == Ok(|lead|) by { StartFound(before, caption, kind, spaces, rest); }
    assert AngleScan(raw[|lead| + 1..]) == Some(|text|) by {
      AngleSkipped(dest, ['>'] + tail);
      AngleAt(tail);
    }
    AngleFrom(raw, kind, |lead|, |text|);
  }

  lemma AngleAt(tail: string)
    ensures AngleScan(['>'] + tail) == Some(0)
  {}

  lemma AngleFrom(raw: string, kind: Kind, start: nat, n: nat)
    requires DestinationStart(raw, kind) == Ok(start) && start < |raw| && raw[start] == '<'
    requires AngleScan(raw[start + 1..]) == Some(n)
    ensures DestinationOf(raw, kind) == Ok(Range(start + 1, start + 1 + n))
  {}

  lemma BareFrom(raw: string, kind: Kind, start: nat)
    requires DestinationStart(raw, kind) == Ok(start) && (start < |raw| ==> raw[start] != '<')
    ensures DestinationOf(raw, kind) == Ok(Range(start, start + BareScan(raw[start..], 0)))
  {}

  lemma AngleShape(lead: string, text: string, tail: string)
    ensures
      var raw := lead + ['<'] + text + ['>'] + tail;
      raw == lead + (['<'] + text + ['>'] + tail) && raw[|lead| + 1..] == text + (['>'] + tail) && raw[|lead|] == '<'
  {
    var raw := lead + ['<'] + text + ['>'] + tail;
    assert raw[|lead| + 1..] == text + (['>'] + tail);
  }

  /**
   * A bare destination is recovered exactly, unless it ends in a backslash that escapes nothing and more text
   * follows: the scan then steps over the character after the backslash. `lone` tells such a backslash apart.
   */
  lemma BareDestinationRecovered(before: string, caption: Balanced, kind: Kind, spaces: string,
                                                    dest: Balanced, lone: bool, tail: string)
    requires '[' !in before && IsLabel(caption) && IsBare(dest) && forall c :: c in spaces ==> IsSpace(c)
    requires tail == [] || tail[0] == ')' || IsSpace(tail[0])
    requires
      var text := Render(dest, '(', ')') + if lone then "\\" else "";
      text + tail == [] || (!IsSpace((text + tail)[0]) && (text + tail)[0] != '<')
    ensures
      var lead, text := Lead(before, caption, kind, spaces), Render(dest, '(', ')') + if lone then "\\" else "";
      DestinationOf(lead + text + tail, kind) == Ok(Range(|lead|, |lead| + |text|)) <==> !(lone && tail != [])
  {
    var lead, text := Lead(before, caption, kind, spaces), Render(dest, '(', ')') + if lone then "\\" else "";
    hide Render, Lead, DestinationOf, DestinationStart, BareScan, IsBare, IsLabel, IsSpace;
    var raw, rest := lead + text + tail, (if lone then "\\" else "") + tail;
    assert raw == lead + (text + tail) && raw[|lead|..] == text + tail;
    assert DestinationStart(raw, kind) == Ok(|lead|) by { StartFound(before, caption, kind, spaces, text + tail); }
    assert BareScan(raw[|lead|..], 0) == |Render(dest, '(', ')')| + BareScan(rest, 0) by {
      assert text + tail == Render(dest, '(', ')') + rest;
      BareSkipped(dest, rest, 0);
    }
    assert |lead| < |raw| ==> raw[|lead|] == (text + tail)[0];
    RestScan(lone, tail);
    BareFrom(raw, kind, |lead|);
  }

  lemma RestScan(lone: bool, tail: string)
    requires tail == [] || tail[0] == ')' || IsSpace(tail[0])
    ensures BareScan((if lone then "\\" else "") + tail, 0) == (if lone then 1 else 0) <==> !(lone && tail != [])
  {
    if !lone { assert "" + tail == tail; }
  }
}
