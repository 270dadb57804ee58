/** Paths, parsing and rendering of bilingual pairing records (scripts/translation-pairing-record.ts). */
module PairingRecord {
  import opened Wrappers
  import opened Text

  datatype PairPaths = PairPaths(source: string, zh: string, meta: string)

  datatype Record = Record(sourceHash: string, zhHash: string)

  datatype PathError = NotEnglish(path: string) | NotRecord(path: string)

  // ---- Paths ----

  function TranslationPairPaths(source: string): Result<PairPaths, PathError> {
    if !EndsWith(source, ".md") || EndsWith(source, ".zh.md") then Err(NotEnglish(source))
    else
      var stem := source[..|source| - 3];
      Ok(PairPaths(source, stem + ".zh.md", stem + ".i18n.yaml"))
  }

  function TranslationPairPathsFromMeta(meta: string): Result<PairPaths, PathError> {
    if !EndsWith(meta, ".i18n.yaml") then Err(NotRecord(meta))
    else TranslationPairPaths(meta[..|meta| - 10] + ".md")
  }

  /** The paths belong together. */
  predicate IsPair(p: PairPaths) {
    TranslationPairPaths(p.source) == Ok(p)
  }

  /** Deriving the paths from a pair's record path gives back the pair. */
  lemma MetaDeterminesPair(p: PairPaths)
    requires IsPair(p)
    ensures TranslationPairPathsFromMeta(p.meta) == Ok(p)
  {
    var stem := p.source[..|p.source| - 3];
    assert p.source == stem + ".md";
    assert p.meta[|p.meta| - 10..] == ".i18n.yaml" && p.meta[..|p.meta| - 10] == stem;
  }

  /** Conversely, whatever a record path yields is a pair with that record path. */
  lemma PairHasItsMeta(meta: string)
    requires TranslationPairPathsFromMeta(meta).Ok?
    ensures TranslationPairPathsFromMeta(meta).value.meta == meta && IsPair(TranslationPairPathsFromMeta(meta).value)
  {
    var stem := meta[..|meta| - 10];
    assert (stem + ".md")[..|stem|] == stem;
    assert meta == stem + ".i18n.yaml";
  }

  /** The part after the last slash. */
  function Basename(path: string): string {
    if path == [] || path[|path| - 1] == '/' then [] else Basename(path[..|path| - 1]) + [path[|path| - 1]]
  }

  lemma {:induction false} BasenameSuffix(path: string, suffix: string)
    requires '/' !in suffix
    ensures Basename(path + suffix) == Basename(path) + suffix
    decreases suffix
  {
    if suffix == [] {
      assert path + suffix == path;
    } else {
      var n := |suffix| - 1;
      assert suffix[n] in suffix;
      assert (path + suffix)[..|path + suffix| - 1] == path + suffix[..n];
      BasenameSuffix(path, suffix[..n]);
      assert suffix == suffix[..n] + [suffix[n]];
    }
  }

  /** The two file names of a pair share a stem, so they differ. */
  lemma PairNames(p: PairPaths) returns (stem: string)
    requires IsPair(p)
    ensures Basename(p.source) == stem + ".md" && Basename(p.zh) == stem + ".zh.md"
    ensures Basename(p.source) != Basename(p.zh)
  {
    var path := p.source[..|p.source| - 3];
    stem := Basename(path);
    assert p.source == path + ".md";
    BasenameSuffix(path, ".md");
    BasenameSuffix(path, ".zh.md");
  }

  // ---- Lines ----

  predicate IsHash(h: string) {
    |h| == 40 && forall c :: c in h ==> '0' <= c <= '9' || 'a' <= c <= 'f'
  }

  /** `[^:#]+\.md` */
  predicate IsName(name: string) {
    |name| > 3 && EndsWith(name, ".md") && ':' !in name && '#' !in name
  }

  /** A record line: a name, a colon, a space and a hash. */
  function MetaLine(line: string): (r: Option<(string, string)>)
    ensures r.Some? ==> IsName(r.value.0) && IsHash(r.value.1) && line == r.value.0 + ": " + r.value.1
  {
    if |line| < 42 then None
    else
      var name, hash := line[..|line| - 42], line[|line| - 40..];
      assert line == name + line[|line| - 42..|line| - 40] + hash;
      if IsName(name) && line[|line| - 42..|line| - 40] == ": " && IsHash(hash) then Some((name, hash)) else None
  }

  lemma MetaLineMatches(name: string, hash: string)
    requires IsHash(hash)
    ensures MetaLine(name + ": " + hash) == if IsName(name) then Some((name, hash)) else None
  {
    var line := name + ": " + hash;
    assert line[..|line| - 42] == name && line[|line| - 40..] == hash && line[|line| - 42..|line| - 40] == ": ";
  }

  predicate IsIgnored(line: string) {
    line == "" || StartsWith(line, "#")
  }

  /** The lines that are neither blank nor comments. */
  function Significant(lines: seq<string>): (r: seq<string>)
    ensures |r| <= |lines|
  {
    if lines == [] then []
    else if IsIgnored(lines[0]) then Significant(lines[1..])
    else [lines[0]] + Significant(lines[1..])
  }

  lemma {:induction false} NoneSignificant(lines: seq<string>)
    ensures Significant(lines) == [] <==> forall k :: 0 <= k < |lines| ==> IsIgnored(lines[k])
  {
    hide IsIgnored;
    if lines != [] {
      NoneSignificant(lines[1..]);
      forall k | 1 <= k < |lines| ensures lines[k] == lines[1..][k - 1] {}
    }
  }

  lemma SignificantCons(line: string, lines: seq<string>)
    ensures Significant([line] + lines) == (if IsIgnored(line) then [] else [line]) + Significant(lines)
  {
    assert ([line] + lines)[1..] == lines;
  }

  lemma {:induction false} SignificantAppend(a: seq<string>, b: seq<string>)
    ensures Significant(a + b) == Significant(a) + Significant(b)
  {
    hide IsIgnored;
    if a == [] {
      assert a + b == b;
    } else {
      hide Significant;
      var first, p, q := if IsIgnored(a[0]) then [] else [a[0]], Significant(a[1..]), Significant(b);
      SignificantAppend(a[1..], b);
      assert Significant(a + b) == first + (p + q) by {
        SignificantCons(a[0], a[1..] + b);
        assert a + b == [a[0]] + (a[1..] + b);
      }
      assert Significant(a) == first + p by {
        SignificantCons(a[0], a[1..]);
        assert a == [a[0]] + a[1..];
      }
      assert first + (p + q) == first + p + q;
    }
  }

  // ---- Parsing ----

  /** The entries of the significant lines, or nothing on a malformed line or a repeated name. */
  function Entries(lines: seq<string>, hashes: map<string, string>): Option<map<string, string>> {
    if lines == [] then Some(hashes)
    else if IsIgnored(lines[0]) then Entries(lines[1..], hashes)
    else
      var m := MetaLine(lines[0]);
      if m.None? || m.value.0 in hashes then None else Entries(lines[1..], hashes[m.value.0 := m.value.1])
  }

  function Finish(hashes: map<string, string>, p: PairPaths): Option<Record> {
    var source, zh := Basename(p.source), Basename(p.zh);
    if |hashes| == 2 && source in hashes && zh in hashes then Some(Record(hashes[source], hashes[zh])) else None
  }

  function ParseLines(lines: seq<string>, p: PairPaths): Option<Record> {
    var hashes := Entries(lines, map[]);
    if hashes.None? then None else Finish(hashes.value, p)
  }

  method ParseRecord(content: string, p: PairPaths) returns (r: Option<Record>)
    ensures r == ParseLines(Split(content, '\n'), p)
  {
    var hashes: map<string, string> := map[];
    var lines := Split(content, '\n');
    for i := 0 to |lines|
      invariant Entries(lines, map[]) == Entries(lines[i..], hashes)
    {
      assert lines[i..][1..] == lines[i + 1..];
      if !IsIgnored(lines[i]) {
        var m := MetaLine(lines[i]);
        if m.None? || m.value.0 in hashes { return None; }
        hashes := hashes[m.value.0 := m.value.1];
      }
    }
    return Finish(hashes, p);
  }

  /** Comments and blank lines play no part. */
  lemma {:induction false} EntriesOfSignificant(lines: seq<string>, hashes: map<string, string>)
    ensures Entries(lines, hashes) == Entries(Significant(lines), hashes)
  {
    if lines != [] {
      if IsIgnored(lines[0]) {
        EntriesOfSignificant(lines[1..], hashes);
      } else {
        var m := MetaLine(lines[0]);
        assert Significant(lines)[1..] == Significant(lines[1..]);
        if m.Some? { EntriesOfSignificant(lines[1..], hashes[m.value.0 := m.value.1]); }
      }
    }
  }

  lemma {:induction false} EntriesCount(lines: seq<string>, hashes: map<string, string>)
    requires forall l :: l in lines ==> !IsIgnored(l)
    ensures Entries(lines, hashes).Some? ==> |Entries(lines, hashes).value| == |hashes| + |lines|
    decreases lines
  {
    if lines != [] {
      assert lines[0] in lines;
      var m := MetaLine(lines[0]);
      if m.Some? && m.value.0 !in hashes {
        assert |hashes[m.value.0 := m.value.1]| == |hashes| + 1;
        EntriesCount(lines[1..], hashes[m.value.0 := m.value.1]);
      }
    }
  }

  lemma {:induction false} SignificantAreNotIgnored(lines: seq<string>)
    ensures forall l :: l in Significant(lines) ==> !IsIgnored(l)
  {
    if lines != [] { SignificantAreNotIgnored(lines[1..]); }
  }

  /** Two lines carry the two entries of a pair, in either order. */
  predicate CarriesBoth(a: string, b: string, p: PairPaths, r: Record) {
    var source, zh := Some((Basename(p.source), r.sourceHash)), Some((Basename(p.zh), r.zhHash));
    (MetaLine(a) == source && MetaLine(b) == zh) || (MetaLine(a) == zh && MetaLine(b) == source)
  }

  /** A text parses to a record exactly when its significant lines are that record's two entries, in any order. */
  lemma ParsesExactly(lines: seq<string>, p: PairPaths, r: Record)
    requires IsPair(p)
    ensures ParseLines(lines, p) == Some(r) <==>
            |Significant(lines)| == 2 && CarriesBoth(Significant(lines)[0], Significant(lines)[1], p, r)
  {
    var s := Significant(lines);
    var stem := PairNames(p);
    EntriesOfSignificant(lines, map[]);
    SignificantAreNotIgnored(lines);
    EntriesCount(s, map[]);
    if |s| == 2 {
      TwoEntries(s[0], s[1]);
      assert s == [s[0], s[1]];
    }
  }

  lemma TwoEntries(a: string, b: string)
    requires !IsIgnored(a) && !IsIgnored(b)
    ensures
      var m, n := MetaLine(a), MetaLine(b);
      Entries([a, b], map[]) ==
        if m.None? || n.None? || m.value.0 == n.value.0 then None
        else Some(map[m.value.0 := m.value.1][n.value.0 := n.value.1])
  {
    var none: map<string, string> := map[];
    var m, n := MetaLine(a), MetaLine(b);
    assert [a, b][1..] == [b] && [b][1..] == [];
    if m.Some? {
      var one := none[m.value.0 := m.value.1];
      assert one == map[m.value.0 := m.value.1];
      assert Entries([a, b], none) == Entries([b], one);
      if n.Some? && n.value.0 !in one { assert Entries([b], one) == Entries([], one[n.value.0 := n.value.1]); }
    }
  }

  /** A repeated name, a malformed line, or anything but two entries is rejected. */
  lemma OtherwiseRejected(lines: seq<string>, p: PairPaths)
    requires IsPair(p)
    requires |Significant(lines)| != 2
             || MetaLine(Significant(lines)[0]).None? || MetaLine(Significant(lines)[1]).None?
             || MetaLine(Significant(lines)[0]).value.0 == MetaLine(Significant(lines)[1]).value.0
    ensures ParseLines(lines, p) == None
  {
    var stem := PairNames(p);
    if ParseLines(lines, p).Some? {
      ParsesExactly(lines, p, ParseLines(lines, p).value);
      assert false;
    }
  }

  /** Two pairs of lines that are permutations of each other. */
  lemma SwappedPairs(s: seq<string>, t: seq<string>)
    requires multiset(s) == multiset(t) && |s| == 2
    ensures |t| == 2 && ((s[0] == t[0] && s[1] == t[1]) || (s[0] == t[1] && s[1] == t[0]))
  {
    assert |t| == |multiset(t)| == |multiset(s)| == 2;
    assert t == [t[0], t[1]] && s == [s[0], s[1]];
    assert s[0] in multiset(t) && s[1] in multiset(t);
    assert multiset(s) == multiset{s[0], s[1]} && multiset(t) == multiset{t[0], t[1]};
    assert multiset{s[0], s[1]} - multiset{s[0]} == multiset{s[1]};
  }

  lemma PermutedParses(a: seq<string>, b: seq<string>, p: PairPaths, r: Record)
    requires IsPair(p) && multiset(Significant(a)) == multiset(Significant(b)) && ParseLines(a, p) == Some(r)
    ensures ParseLines(b, p) == Some(r)
  {
    hide Significant, ParseLines, MetaLine, IsPair;
    ParsesExactly(a, p, r);
    SwappedPairs(Significant(a), Significant(b));
    ParsesExactly(b, p, r);
  }

  /** Reordering, commenting and spacing a record do not change what it says. */
  lemma OrderAndCommentsIgnored(a: seq<string>, b: seq<string>, p: PairPaths)
    requires IsPair(p) && multiset(Significant(a)) == multiset(Significant(b))
    ensures ParseLines(a, p) == ParseLines(b, p)
  {
    hide Significant, ParseLines, IsPair;
    if ParseLines(a, p).Some? {
      PermutedParses(a, b, p, ParseLines(a, p).value);
    } else if ParseLines(b, p).Some? {
      PermutedParses(b, a, p, ParseLines(b, p).value);
    }
  }

  // ---- Rendering ----

  // The header lines are written in pieces: a line break in one of them would be seen piece by piece.
  const HEADER1 :=
    "#" + " Bilingual-pair consistency " + "record " + "(docs/i18n/README.md): the " + "git blob hash of each"
  const HEADER2 :=
    "#" + " side as of the last " + "confirmed-consistent state. " + "Both languages carry equal " + "authority;"
  const HEADER3 :=
    "#" + " after editing either side, " + "bring the other along and " + "re-record with:"
  const COMMAND :=
    "#" + "   pnpm run " + "verify-translation-pairing " + "--write "

  function EntryLine(path: string, hash: string): string {
    Basename(path) + ": " + hash
  }

  function RenderRecord(p: PairPaths, r: Record): string {
    Join([HEADER1, HEADER2, HEADER3, COMMAND + p.source,
          EntryLine(p.source, r.sourceHash), EntryLine(p.zh, r.zhHash), ""], "\n")
  }

  /**
   * What a pair needs for its record to be readable: a file name the entry syntax accepts, on one line, and no
   * line break in the directory part that would smuggle a further line into the recovery comment.
   */
  predicate Recordable(p: PairPaths) {
    var name := Basename(p.source);
    && ':' !in name && '#' !in name && '\n' !in name && name != ".md"
    && forall k :: 1 <= k < |Split(p.source, '\n')| ==> IsIgnored(Split(p.source, '\n')[k])
  }

  lemma {:induction false} SignificantIn(lines: seq<string>)
    ensures forall l :: l in Significant(lines) ==> l in lines
  {
    if lines != [] { SignificantIn(lines[1..]); }
  }

  lemma HeadersAreLines()
    ensures forall line :: line in [HEADER1, HEADER2, HEADER3, COMMAND] ==> '\n' !in line && StartsWith(line, "#")
  {
    hide HEADER1, HEADER2, HEADER3, COMMAND;
    FirstHeader();
    SecondHeader();
    ThirdHeader();
    CommandHeader();
  }

  lemma FirstHeader()
    ensures '\n' !in HEADER1 && StartsWith(HEADER1, "#")
  {}

  lemma SecondHeader()
    ensures '\n' !in HEADER2 && StartsWith(HEADER2, "#")
  {}

  lemma ThirdHeader()
    ensures '\n' !in HEADER3 && StartsWith(HEADER3, "#")
  {}

  lemma CommandHeader()
    ensures '\n' !in COMMAND && StartsWith(COMMAND, "#")
  {}

  /** The lines of a rendered record. */
  lemma RecordLines(p: PairPaths, r: Record)
    ensures
      Split(RenderRecord(p, r), '\n') ==
      [HEADER1, HEADER2, HEADER3]
      + ([COMMAND + Split(p.source, '\n')[0]] + Split(p.source, '\n')[1..])
      + (Split(EntryLine(p.source, r.sourceHash), '\n') + Split(EntryLine(p.zh, r.zhHash), '\n') + [""])
  {
    hide Split, Join, HEADER1, HEADER2, HEADER3, COMMAND;
    var head, command := [HEADER1, HEADER2, HEADER3], COMMAND + p.source;
    var e, f := EntryLine(p.source, r.sourceHash), EntryLine(p.zh, r.zhHash);
    HeadersAreLines();
    SplitJoined(head + [command] + [e, f, ""], '\n');
    assert head + [command] + [e, f, ""] == [HEADER1, HEADER2, HEADER3, command, e, f, ""];
    SplitAllAppend(head + [command], [e, f, ""], '\n');
    SplitAllAppend(head, [command], '\n');
    SplitAllLines(head, '\n');
    SplitPrefix(COMMAND, p.source, '\n');
    assert SplitAll([command], '\n') == Split(command, '\n');
    SplitLine("", '\n');
    assert SplitAll([e, f, ""], '\n') == Split(e, '\n') + Split(f, '\n') + [""] by {
      assert [e, f, ""][1..] == [f, ""] && [f, ""][1..] == [""];
      assert SplitAll([f, ""], '\n') == Split(f, '\n') + SplitAll([""], '\n');
    }
  }

  /** Once the file name is a usable one, only the two entries and what follows a line break in the path matter. */
  lemma RecordSignificant(p: PairPaths, r: Record)
    requires IsPair(p) && IsName(Basename(p.source)) && '\n' !in Basename(p.source)
    requires IsHash(r.sourceHash) && IsHash(r.zhHash)
    ensures
      Significant(Split(RenderRecord(p, r), '\n')) ==
      Significant(Split(p.source, '\n')[1..]) + [EntryLine(p.source, r.sourceHash), EntryLine(p.zh, r.zhHash)]
  {
    hide Split, Join, RenderRecord;
    var stem := PairNames(p);
    assert Basename(p.source)[..|stem|] == stem;
    var e, f := EntryLine(p.source, r.sourceHash), EntryLine(p.zh, r.zhHash);
    var pieces := Split(p.source, '\n');
    var head, command, entries := [HEADER1, HEADER2, HEADER3], [COMMAND + pieces[0]], [e, f, ""];
    RecordLines(p, r);
    EntryIsOneLine(p.source, r.sourceHash);
    EntryIsOneLine(p.zh, r.zhHash);
    assert [e] + [f] + [""] == entries;
    SignificantAppend(head + (command + pieces[1..]), entries);
    SignificantAppend(head, command + pieces[1..]);
    SignificantAppend(command, pieces[1..]);
    CommentsAreIgnored(pieces[0]);
    assert Significant(entries) == [e, f] by {
      assert entries[1..] == [f, ""] && [f, ""][1..] == [""];
      assert Significant([f, ""]) == [f] + Significant([""]);
    }
  }

  lemma CommentsAreIgnored(piece: string)
    ensures Significant([HEADER1, HEADER2, HEADER3]) == [] && Significant([COMMAND + piece]) == []
  {
    hide HEADER1, HEADER2, HEADER3, COMMAND;
    HeadersAreLines();
    NoneSignificant([HEADER1, HEADER2, HEADER3]);
    NoneSignificant([COMMAND + piece]);
    assert StartsWith(COMMAND + piece, "#") by {
      assert COMMAND in [HEADER1, HEADER2, HEADER3, COMMAND];
      assert (COMMAND + piece)[..1] == COMMAND[..1];
    }
  }

  lemma EntryIsOneLine(path: string, hash: string)
    requires '\n' !in Basename(path) && Basename(path) != "" && Basename(path)[0] != '#' && IsHash(hash)
    ensures Split(EntryLine(path, hash), '\n') == [EntryLine(path, hash)] && !IsIgnored(EntryLine(path, hash))
  {
    SplitLine(EntryLine(path, hash), '\n');
    assert EntryLine(path, hash)[0] == Basename(path)[0];
  }

  /** A rendered record parses back to its hashes exactly when the pair's names and path allow it. */
  lemma RoundTrip(p: PairPaths, r: Record)
    requires IsPair(p) && IsHash(r.sourceHash) && IsHash(r.zhHash)
    ensures ParseLines(Split(RenderRecord(p, r), '\n'), p) == Some(r) <==> Recordable(p)
  {
    hide Split, Join, RenderRecord, ParseLines, MetaLine;
    var lines := Split(RenderRecord(p, r), '\n');
    var name := Basename(p.source);
    var stem := PairNames(p);
    assert name[..|stem|] == stem;
    ParsesExactly(lines, p, r);
    MetaLineMatches(name, r.sourceHash);
    MetaLineMatches(Basename(p.zh), r.zhHash);
    if IsName(name) && '\n' !in name {
      RecordSignificant(p, r);
      var pieces := Split(p.source, '\n');
      NoneSignificant(pieces[1..]);
      assert forall k :: 1 <= k < |pieces| ==> pieces[k] == pieces[1..][k - 1];
    } else if ParseLines(lines, p) == Some(r) {
      SignificantIn(lines);
      EntryName(Significant(lines)[0]);
      EntryName(Significant(lines)[1]);
      assert false;
    }
  }

  lemma EntryName(line: string)
    requires '\n' !in line
    ensures MetaLine(line).Some? ==> IsName(MetaLine(line).value.0) && '\n' !in MetaLine(line).value.0
  {
    var m := MetaLine(line);
    if m.Some? { assert line[..|m.value.0|] == m.value.0; }
  }

  // ---- Written out ----

  lemma BasenameOf(dir: string, name: string)
    requires '/' !in name
    ensures Basename(name) == name && Basename(dir + "/" + name) == name
  {
    BasenameSuffix([], name);
    assert [] + name == name;
    BasenameSuffix(dir + "/", name);
  }

  /** A file in a directory: the counterpart and the record lie beside it, and the record names the files alone. */
  lemma PairInDirectory(dir: string, name: string, sourceHash: string, zhHash: string)
    requires '/' !in name && !EndsWith(dir + "/" + name + ".md", ".zh.md")
    ensures
      var paths := TranslationPairPaths(dir + "/" + name + ".md");
      && paths.Ok? && paths.value.source == dir + "/" + name + ".md"
      && paths.value.zh == dir + "/" + name + ".zh.md" && paths.value.meta == dir + "/" + name + ".i18n.yaml"
      && RenderRecord(paths.value, Record(sourceHash, zhHash)) ==
         Join([HEADER1, HEADER2, HEADER3, COMMAND + dir + "/" + name + ".md",
               name + ".md: " + sourceHash, name + ".zh.md: " + zhHash, ""], "\n")
  {
    hide Join, HEADER1, HEADER2, HEADER3, COMMAND;
    var stem := dir + "/" + name;
    var source, zh := stem + ".md", stem + ".zh.md";
    assert source[..|source| - 3] == stem;
    assert source[|source| - 3..] == ".md";
    InDirectory(dir, name, ".md");
    InDirectory(dir, name, ".zh.md");
    assert COMMAND + source == COMMAND + dir + "/" + name + ".md";
    assert name + ".md" + ": " + sourceHash == name + ".md: " + sourceHash;
    assert name + ".zh.md" + ": " + zhHash == name + ".zh.md: " + zhHash;
  }

  lemma InDirectory(dir: string, name: string, suffix: string)
    requires '/' !in name && '/' !in suffix
    ensures Basename(dir + "/" + name + suffix) == name + suffix
  {
    BasenameOf(dir, name + suffix);
    assert dir + "/" + name + suffix == dir + "/" + (name + suffix);
  }

  /** Only English Markdown paths have a pair, and only record paths of such documents lead back to one. */
  lemma PathsRejected(path: string, stem: string)
    ensures TranslationPairPaths(stem + ".zh.md") == Err(NotEnglish(stem + ".zh.md"))
    ensures !EndsWith(path, ".md") ==> TranslationPairPaths(path) == Err(NotEnglish(path))
    ensures TranslationPairPaths(stem + ".md").Ok? <==> !EndsWith(stem, ".zh")
    ensures !EndsWith(path, ".i18n.yaml") ==> TranslationPairPathsFromMeta(path) == Err(NotRecord(path))
    ensures TranslationPairPathsFromMeta(stem + ".i18n.yaml") == TranslationPairPaths(stem + ".md")
  {
    var zh, en, meta := stem + ".zh.md", stem + ".md", stem + ".i18n.yaml";
    assert zh[|stem|..] == ".zh.md" && zh == stem + ".zh" + ".md";
    assert zh[|zh| - 3..] == ".md" && en[|en| - 3..] == ".md";
    assert meta[..|stem|] == stem && meta[|stem|..] == ".i18n.yaml";
    if EndsWith(stem, ".zh") {
      assert en == stem[..|stem| - 3] + ".zh.md";
      assert en[|en| - 6..] == ".zh.md";
    }
    if EndsWith(en, ".zh.md") {
      assert en[|en| - 6..][..3] == ".zh.md"[..3] == ".zh";
      assert stem[|stem| - 3..] == en[|en| - 6..][..3];
    }
  }

  /** Forty lower-case hexadecimal digits. */
  lemma HashExactly(h: string)
    ensures IsHash(h) <==> |h| == 40 && forall c :: c in h ==> c in "0123456789abcdef"
  {
    forall c: char ensures '0' <= c <= '9' || 'a' <= c <= 'f' <==> c in "0123456789abcdef" { HexDigit(c); }
  }

  lemma HexDigit(c: char)
    ensures '0' <= c <= '9' || 'a' <= c <= 'f' <==> c in "0123456789abcdef"
  {
    if '0' <= c <= '9' { assert c == "0123456789abcdef"[c as int - '0' as int]; }
    if 'a' <= c <= 'f' { assert c == "0123456789abcdef"[c as int - 'a' as int + 10]; }
  }

  /** The command the record's comment gives. */
  lemma RecoveryCommand()
    ensures COMMAND == "#   pnpm run verify-translation-pairing --write "
  {
    CommandStart();
    assert "#   pnpm run verify-translation-pairing " + "--write " ==
      "#   pnpm run verify-translation-pairing --write ";
  }

  lemma CommandStart()
    ensures "#" + "   pnpm run " + "verify-translation-pairing " == "#   pnpm run verify-translation-pairing "
  {
    assert "#" + "   pnpm run " == "#   pnpm run ";
  }
}
