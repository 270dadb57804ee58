/** The words of a text, and the operations on whitespace that keep them. */
module Words {
  import opened Text

  /** Length of the leading run without whitespace. */
  function WordLength(s: string): (n: nat)
    ensures n <= |s|
    ensures forall i :: 0 <= i < n ==> !IsSpace(s[i])
    ensures n < |s| ==> IsSpace(s[n])
  {
    if s == [] || IsSpace(s[0]) then 0 else 1 + WordLength(s[1..])
  }

  /** The maximal runs without whitespace, in order. */
  function WordsOf(s: string): seq<string>
    decreases |s|
  {
    if s == [] then []
    else if IsSpace(s[0]) then WordsOf(s[1..])
    else [s[..WordLength(s)]] + WordsOf(s[WordLength(s)..])
  }

  /** The words of several texts, one after the other. */
  function AllWords(parts: seq<string>): seq<string> {
    if parts == [] then [] else WordsOf(parts[0]) + AllWords(parts[1..])
  }

  lemma {:induction false} AllWordsAppend(a: seq<string>, b: seq<string>)
    ensures AllWords(a + b) == AllWords(a) + AllWords(b)
  {
    hide WordsOf;
    if a == [] {
      assert a + b == b;
    } else {
      AllWordsAppend(a[1..], b);
      assert (a + b)[1..] == a[1..] + b;
    }
  }

  lemma TextWithoutWords()
    ensures WordsOf([]) == []
  {}

  lemma AllWordsOne(part: string)
    ensures AllWords([part]) == WordsOf(part)
  {
    assert [part][1..] == [];
  }

  lemma {:induction false} WordLengthSplit(a: string, sp: char, b: string)
    requires IsSpace(sp)
    ensures WordLength(a + [sp] + b) == WordLength(a)
  {
    hide IsSpace;
    if a != [] && !IsSpace(a[0]) {
      WordLengthSplit(a[1..], sp, b);
      assert (a + [sp] + b)[1..] == a[1..] + [sp] + b;
    }
  }

  /** Whitespace separates words. */
  lemma {:induction false} WordsConcat(a: string, sp: char, b: string)
    requires IsSpace(sp)
    ensures WordsOf(a + [sp] + b) == WordsOf(a) + WordsOf(b)
    decreases |a|
  {
    hide IsSpace;
    var s := a + [sp] + b;
    if a == [] {
      assert s[1..] == b;
    } else if IsSpace(a[0]) {
      WordsConcat(a[1..], sp, b);
      assert s[1..] == a[1..] + [sp] + b;
    } else {
      var n := WordLength(a);
      WordLengthSplit(a, sp, b);
      WordsConcat(a[n..], sp, b);
      assert s[n..] == a[n..] + [sp] + b && s[..n] == a[..n];
    }
  }

  /** Joining with a separator that starts with whitespace and is all whitespace keeps the words. */
  lemma {:induction false} JoinWords(parts: seq<string>, separator: string)
    requires separator != [] && forall c :: c in separator ==> IsSpace(c)
    ensures WordsOf(Join(parts, separator)) == AllWords(parts)
  {
    hide IsSpace, WordsOf;
    if |parts| == 0 {
      assert WordsOf([]) == [] by { TextWithoutWords(); }
    } else if |parts| == 1 {
      AllWordsOne(parts[0]);
      assert parts == [parts[0]];
    } else {
      var rest := Join(parts[1..], separator);
      JoinWords(parts[1..], separator);
      assert separator[0] in separator;
      LeadingSpaces(separator[1..], rest);
      WordsConcat(parts[0], separator[0], separator[1..] + rest);
      assert parts[0] + separator + rest == parts[0] + [separator[0]] + (separator[1..] + rest);
    }
  }

  lemma {:induction false} LeadingSpaces(spaces: string, s: string)
    requires forall c :: c in spaces ==> IsSpace(c)
    ensures WordsOf(spaces + s) == WordsOf(s)
  {
    hide IsSpace;
    if spaces == [] {
      assert spaces + s == s;
    } else {
      assert spaces[0] in spaces;
      LeadingSpaces(spaces[1..], s);
      assert (spaces + s)[1..] == spaces[1..] + s;
    }
  }

  // ---- Trimming and collapsing ----

  function TrimStart(s: string): string {
    if s != [] && IsSpace(s[0]) then TrimStart(s[1..]) else s
  }

  function TrimEnd(s: string): string {
    if s != [] && IsSpace(s[|s| - 1]) then TrimEnd(s[..|s| - 1]) else s
  }

  function Trim(s: string): string {
    TrimEnd(TrimStart(s))
  }

  /** `replace(/\s+/g, ' ')`. */
  function Collapse(s: string): string
    decreases |s|
  {
    if s == [] then []
    else if IsSpace(s[0]) then
      TrimStartShorter(s[1..]);
      [' '] + Collapse(TrimStart(s[1..]))
    else [s[0]] + Collapse(s[1..])
  }

  lemma {:induction false} TrimStartShorter(s: string)
    ensures |TrimStart(s)| <= |s|
  {
    if s != [] && IsSpace(s[0]) { TrimStartShorter(s[1..]); }
  }

  lemma {:induction false} TrimStartWords(s: string)
    ensures WordsOf(TrimStart(s)) == WordsOf(s)
  {
    if s != [] && IsSpace(s[0]) { TrimStartWords(s[1..]); }
  }

  lemma {:induction false} TrimEndWords(s: string)
    ensures WordsOf(TrimEnd(s)) == WordsOf(s)
  {
    hide IsSpace;
    if s != [] && IsSpace(s[|s| - 1]) {
      TrimEndWords(s[..|s| - 1]);
      WordsConcat(s[..|s| - 1], s[|s| - 1], []);
      assert s == s[..|s| - 1] + [s[|s| - 1]] + [];
    }
  }

  lemma TrimWords(s: string)
    ensures WordsOf(Trim(s)) == WordsOf(s)
  {
    TrimStartWords(s);
    TrimEndWords(TrimStart(s));
  }

  lemma ConsWord(c: char, s: string)
    requires !IsSpace(c)
    ensures WordLength([c] + s) == WordLength(s) + 1 && Collapse([c] + s) == [c] + Collapse(s)
  {
    assert ([c] + s)[1..] == s;
  }

  lemma ConsSlices(c: char, s: string, n: nat)
    requires n <= |s|
    ensures ([c] + s)[n + 1..] == s[n..] && ([c] + s)[..n + 1] == [c] + s[..n]
  {}

  lemma {:induction false} CollapseRun(s: string)
    ensures WordLength(Collapse(s)) == WordLength(s)
    ensures Collapse(s)[..WordLength(s)] == s[..WordLength(s)]
    ensures Collapse(s)[WordLength(s)..] == Collapse(s[WordLength(s)..])
    decreases |s|
  {
    hide IsSpace;
    if s != [] && !IsSpace(s[0]) {
      hide WordLength, Collapse;
      var c, t := s[0], s[1..];
      var n := WordLength(t);
      CollapseRun(t);
      assert s == [c] + t;
      assert WordLength(s) == n + 1 && Collapse(s) == [c] + Collapse(t) by { ConsWord(c, t); }
      assert WordLength(Collapse(s)) == n + 1 by { ConsWord(c, Collapse(t)); }
      ConsSlices(c, t, n);
      ConsSlices(c, Collapse(t), n);
    } else {
      NoRun(s);
      assert s[0..] == s && Collapse(s)[0..] == Collapse(s);
    }
  }

  lemma NoRun(s: string)
    requires s == [] || IsSpace(s[0])
    ensures WordLength(s) == WordLength(Collapse(s)) == 0
  {}

  /** Collapsing whitespace runs keeps the words. */
  lemma {:induction false} CollapseWords(s: string)
    ensures WordsOf(Collapse(s)) == WordsOf(s)
    decreases |s|
  {
    if s != [] {
      if IsSpace(s[0]) {
        TrimStartShorter(s[1..]);
        TrimStartWords(s[1..]);
        CollapseWords(TrimStart(s[1..]));
        assert Collapse(s)[1..] == Collapse(TrimStart(s[1..]));
      } else {
        CollapseRun(s);
        CollapseWords(s[WordLength(s)..]);
      }
    }
  }

  // ---- Whitespace-free patterns ----

  /** A whitespace-free pattern can only occur inside a word. */
  lemma {:induction false} PatternInWord(s: string, pattern: string)
    requires Contains(s, pattern) && pattern != [] && forall c :: c in pattern ==> !IsSpace(c)
    ensures exists w :: w in WordsOf(s) && Contains(w, pattern)
    decreases |s|
  {
    hide IsSpace;
    var i :| 0 <= i <= |s| && OccursAt(s, pattern, i);
    var k, n := |pattern|, WordLength(s);
    forall j | i <= j < i + k ensures !IsSpace(s[j]) { assert s[j] == pattern[j - i] && pattern[j - i] in pattern; }
    if IsSpace(s[0]) {
      assert i > 0;
      assert OccursAt(s[1..], pattern, i - 1);
      PatternInWord(s[1..], pattern);
    } else if i + k <= n {
      assert OccursAt(s[..n], pattern, i);
      assert s[..n] in WordsOf(s);
    } else {
      assert i >= n;
      assert OccursAt(s[n..], pattern, i - n);
      PatternInWord(s[n..], pattern);
    }
  }
}
