/** String splitting and joining, with the laws the models rely on. */
module Text {

  /** `s.indexOf(x)`. */
  function IndexOf<T(==)>(s: seq<T>, x: T): (i: int)
    ensures -1 <= i < |s|
    ensures i == -1 <==> x !in s
    ensures i >= 0 ==> s[i] == x && x !in s[..i]
  {
    if s == [] then -1
    else if s[0] == x then 0
    else
      var i := IndexOf(s[1..], x);
      if i == -1 then -1 else i + 1
  }

  /** `s.split(c)`: never empty, and no part contains the separator. */
  function Split(s: string, c: char): (parts: seq<string>)
    ensures |parts| > 0
    ensures forall p :: p in parts ==> c !in p
  {
    if s == [] then [[]]
    else if s[0] == c then [[]] + Split(s[1..], c)
    else
      var rest := Split(s[1..], c);
      [[s[0]] + rest[0]] + rest[1..]
  }

  /** `parts.join(separator)`. */
  function Join(parts: seq<string>, separator: string): string {
    if parts == [] then []
    else if |parts| == 1 then parts[0]
    else parts[0] + separator + Join(parts[1..], separator)
  }

  predicate OccursAt(s: string, pattern: string, at: nat) {
    at + |pattern| <= |s| && s[at..at + |pattern|] == pattern
  }

  predicate Contains(s: string, pattern: string) {
    exists at :: 0 <= at <= |s| && OccursAt(s, pattern, at)
  }

  /** ECMAScript's `\s`, which is also what `trim` removes. */
  predicate IsSpace(c: char) {
    || '\U{0009}' <= c <= '\U{000D}' || c == ' ' || c == '\U{00A0}' || c == '\U{1680}'
    || '\U{2000}' <= c <= '\U{200A}' || c == '\U{2028}' || c == '\U{2029}' || c == '\U{202F}'
    || c == '\U{205F}' || c == '\U{3000}' || c == '\U{FEFF}'
  }

  /** Those are the white space and line terminators of ECMAScript, here one by one. */
  lemma SpacesExactly(c: char)
    ensures IsSpace(c) <==> c as int in {
      9, 10, 11, 12, 13, 32, 0xA0, 0x1680, 0x2000, 0x2001, 0x2002, 0x2003, 0x2004, 0x2005, 0x2006, 0x2007, 0x2008,
      0x2009, 0x200A, 0x2028, 0x2029, 0x202F, 0x205F, 0x3000, 0xFEFF }
  {}

  /** Length of the leading whitespace. */
  function SpacesLength(s: string): (n: nat)
    ensures n <= |s|
  {
    if s == [] || !IsSpace(s[0]) then 0 else 1 + SpacesLength(s[1..])
  }

  predicate StartsWith(s: string, prefix: string) {
    |prefix| <= |s| && s[..|prefix|] == prefix
  }

  predicate EndsWith(s: string, suffix: string) {
    |suffix| <= |s| && s[|s| - |suffix|..] == suffix
  }

  lemma {:induction false} SplitLine(line: string, c: char)
    requires c !in line
    ensures Split(line, c) == [line]
  {
    if line != [] {
      assert line[0] in line;
      SplitLine(line[1..], c);
      assert [line[0]] + line[1..] == line;
    }
  }

  /** Splitting after a first separator-free part. */
  lemma {:induction false} SplitHead(head: string, tail: string, c: char)
    requires c !in head
    ensures Split(head + [c] + tail, c) == [head] + Split(tail, c)
  {
    var s := head + [c] + tail;
    if head == [] {
      assert s[1..] == tail;
    } else {
      assert head[0] in head;
      SplitHead(head[1..], tail, c);
      assert s[1..] == head[1..] + [c] + tail;
      assert [head[0]] + head[1..] == head;
    }
  }

  /** Separator-free parts survive joining and splitting. */
  lemma {:induction false} SplitJoin(parts: seq<string>, c: char)
    requires parts != [] && forall p :: p in parts ==> c !in p
    ensures Split(Join(parts, [c]), c) == parts
  {
    if |parts| == 1 {
      SplitLine(parts[0], c);
    } else {
      SplitJoin(parts[1..], c);
      SplitHead(parts[0], Join(parts[1..], [c]), c);
      assert parts == [parts[0]] + parts[1..];
    }
  }

  /** Joining the parts of any string gives the string back. */
  lemma {:induction false} JoinSplit(s: string, c: char)
    ensures Join(Split(s, c), [c]) == s
  {
    if s != [] {
      JoinSplit(s[1..], c);
      var rest := Split(s[1..], c);
      if s[0] == c {
        assert ([[]] + rest)[1..] == rest;
        assert [s[0]] + s[1..] == s;
      } else {
        JoinHead([s[0]], rest, [c]);
        assert [s[0]] + s[1..] == s;
      }
    }
  }

  lemma JoinHead(prefix: string, parts: seq<string>, separator: string)
    requires parts != []
    ensures Join([prefix + parts[0]] + parts[1..], separator) == prefix + Join(parts, separator)
  {
    var longer := [prefix + parts[0]] + parts[1..];
    assert longer[1..] == parts[1..];
  }

  lemma SplitCons(s: string, c: char)
    requires s != []
    ensures Split(s, c) ==
            if s[0] == c then [[]] + Split(s[1..], c)
            else [[s[0]] + Split(s[1..], c)[0]] + Split(s[1..], c)[1..]
  {}

  /** Splitting a concatenation at a separator. */
  lemma {:induction false} SplitAppend(a: string, b: string, c: char)
    ensures Split(a + [c] + b, c) == Split(a, c) + Split(b, c)
  {
    hide Split;
    var s := a + [c] + b;
    SplitCons(s, c);
    if a == [] {
      assert s[1..] == b;
      SplitLine(a, c);
      assert Split(a, c) == [[]];
    } else {
      SplitCons(a, c);
      SplitAppend(a[1..], b, c);
      assert s[1..] == a[1..] + [c] + b;
      PrependToAppend(a[0], Split(a[1..], c), Split(b, c));
    }
  }

  lemma PrependToAppend(x: char, p: seq<string>, q: seq<string>)
    requires p != []
    ensures [[x] + (p + q)[0]] + (p + q)[1..] == [[x] + p[0]] + p[1..] + q
    ensures [[]] + (p + q) == [[]] + p + q
  {}

  /** Splitting after a separator-free prefix extends the first part. */
  lemma {:induction false} SplitPrefix(a: string, b: string, c: char)
    requires c !in a
    ensures Split(a + b, c) == [a + Split(b, c)[0]] + Split(b, c)[1..]
  {
    var s := a + b;
    if a == [] {
      assert s == b && a + Split(b, c)[0] == Split(b, c)[0];
    } else {
      assert a[0] in a;
      SplitPrefix(a[1..], b, c);
      assert s[1..] == a[1..] + b;
      assert [a[0]] + (a[1..] + Split(b, c)[0]) == a + Split(b, c)[0];
    }
  }

  /** The parts of all the given strings, in order. */
  function SplitAll(strings: seq<string>, c: char): seq<string> {
    if strings == [] then [] else Split(strings[0], c) + SplitAll(strings[1..], c)
  }

  /** Splitting a joined text splits each string that was joined. */
  lemma {:induction false} SplitJoined(strings: seq<string>, c: char)
    requires strings != []
    ensures Split(Join(strings, [c]), c) == SplitAll(strings, c)
  {
    hide Split;
    if |strings| == 1 {
      assert strings[1..] == [];
    } else {
      SplitJoined(strings[1..], c);
      SplitAppend(strings[0], Join(strings[1..], [c]), c);
    }
  }

  lemma {:induction false} SplitAllAppend(a: seq<string>, b: seq<string>, c: char)
    ensures SplitAll(a + b, c) == SplitAll(a, c) + SplitAll(b, c)
  {
    hide Split;
    if a == [] {
      assert a + b == b;
    } else {
      SplitAllAppend(a[1..], b, c);
      assert (a + b)[1..] == a[1..] + b;
    }
  }

  lemma {:induction false} SplitAllLines(lines: seq<string>, c: char)
    requires forall l :: l in lines ==> c !in l
    ensures SplitAll(lines, c) == lines
  {
    if lines != [] {
      SplitLine(lines[0], c);
      SplitAllLines(lines[1..], c);
      assert lines == [lines[0]] + lines[1..];
    }
  }
}
