/**
 * The Python string operations the highlighter and the report rely on, on
 * Python 2 byte strings: `str.replace` with a one-character pattern,
 * `xml.sax.saxutils.escape`, `str.splitlines` and the word count of `str.split()`.
 */
module Text {

  /** `s.replace(c, repl)`: every occurrence of the character `c` becomes `repl`. */
  function Replace(s: string, c: char, repl: string): string
  {
    if s == [] then [] else (if s[0] == c then repl else [s[0]]) + Replace(s[1..], c, repl)
  }

  lemma {:induction false} ReplaceAppend(a: string, b: string, c: char, repl: string)
    ensures Replace(a + b, c, repl) == Replace(a, c, repl) + Replace(b, c, repl)
  {
    if a == [] {
      assert a + b == b;
    } else {
      assert (a + b)[1..] == a[1..] + b;
      ReplaceAppend(a[1..], b, c, repl);
    }
  }

  lemma {:induction false} ReplaceAbsent(s: string, c: char, repl: string)
    requires c !in s
    ensures Replace(s, c, repl) == s
  {
    if s != [] {
      ReplaceAbsent(s[1..], c, repl);
    }
  }

  /** No occurrence of `c` survives a replacement whose text does not contain `c`. */
  lemma {:induction false} ReplaceRemoves(s: string, c: char, repl: string, d: char)
    requires d !in repl && (d == c || d !in s)
    ensures d !in Replace(s, c, repl)
  {
    if s != [] {
      ReplaceRemoves(s[1..], c, repl, d);
    }
  }

  /** Replacing a character by one character keeps the length and maps position by position. */
  lemma {:induction false} ReplaceByChar(s: string, c: char, d: char)
    ensures |Replace(s, c, [d])| == |s|
    ensures forall i :: 0 <= i < |s| ==> Replace(s, c, [d])[i] == (if s[i] == c then d else s[i])
  {
    if s != [] {
      ReplaceByChar(s[1..], c, d);
    }
  }

  // ---------------------------------------------------------------------------
  // xml.sax.saxutils.escape

  /** The entity both the highlighter and the report write for a space. */
  const Nbsp := "&nbsp;"

  /** `escape(data)`: `&` first, then `>`, then `<`; quotes are left alone. */
  function Escape(s: string): string
  {
    Replace(Replace(Replace(s, '&', "&amp;"), '>', "&gt;"), '<', "&lt;")
  }

  /** The entity one character escapes to. */
  function EscapeChar(c: char): string
  {
    if c == '&' then "&amp;" else if c == '>' then "&gt;" else if c == '<' then "&lt;" else [c]
  }

  /** Escaping character by character, the reference for the chained replacements. */
  function EscapeEach(s: string): string
  {
    if s == [] then [] else EscapeChar(s[0]) + EscapeEach(s[1..])
  }

  lemma {:induction false} EscapeEachAppend(a: string, b: string)
    ensures EscapeEach(a + b) == EscapeEach(a) + EscapeEach(b)
  {
    if a == [] {
      assert a + b == b;
    } else {
      assert (a + b)[1..] == a[1..] + b;
      EscapeEachAppend(a[1..], b);
    }
  }

  lemma EscapeAppend(a: string, b: string)
    ensures Escape(a + b) == Escape(a) + Escape(b)
  {
    ReplaceAppend(a, b, '&', "&amp;");
    ReplaceAppend(Replace(a, '&', "&amp;"), Replace(b, '&', "&amp;"), '>', "&gt;");
    ReplaceAppend(Replace(Replace(a, '&', "&amp;"), '>', "&gt;"),
                  Replace(Replace(b, '&', "&amp;"), '>', "&gt;"), '<', "&lt;");
  }

  lemma ReplaceSingle(c: char, d: char, repl: string)
    ensures Replace([c], d, repl) == if c == d then repl else [c]
  {
    assert [c][1..] == [];
  }

  lemma AmpersandEntityHasNoAngles()
    ensures '>' !in "&amp;" && '<' !in "&amp;"
  {
    var e := "&amp;";
    assert e == ['&', 'a', 'm', 'p', ';'];
  }

  lemma EscapeAmpersand()
    ensures Escape("&") == "&amp;"
  {
    ReplaceSingle('&', '&', "&amp;");
    AmpersandEntityHasNoAngles();
    ReplaceAbsent("&amp;", '>', "&gt;");
    ReplaceAbsent("&amp;", '<', "&lt;");
  }

  lemma EscapeGreater()
    ensures Escape(">") == "&gt;"
  {
    ReplaceSingle('>', '&', "&amp;");
    ReplaceSingle('>', '>', "&gt;");
    ReplaceAbsent("&gt;", '<', "&lt;");
  }

  lemma EscapeLess()
    ensures Escape("<") == "&lt;"
  {
    ReplaceSingle('<', '&', "&amp;");
    ReplaceSingle('<', '>', "&gt;");
    ReplaceSingle('<', '<', "&lt;");
  }

  lemma EscapePlain(c: char)
    requires c != '&' && c != '>' && c != '<'
    ensures Escape([c]) == [c]
  {
    ReplaceSingle(c, '&', "&amp;");
    ReplaceSingle(c, '>', "&gt;");
    ReplaceSingle(c, '<', "&lt;");
  }

  lemma EscapeOne(c: char)
    ensures Escape([c]) == EscapeChar(c)
  {
    if c == '&' {
      EscapeAmpersand();
    } else if c == '>' {
      EscapeGreater();
    } else if c == '<' {
      EscapeLess();
    } else {
      EscapePlain(c);
    }
  }

  /** Doing `&` first makes the three replacements act on each character independently. */
  lemma {:induction false} EscapeIsPerCharacter(s: string)
    ensures Escape(s) == EscapeEach(s)
  {
    if s != [] {
      assert s == [s[0]] + s[1..];
      EscapeAppend([s[0]], s[1..]);
      EscapeOne(s[0]);
      EscapeIsPerCharacter(s[1..]);
    }
  }

  /** The inverse of `Escape`: the three entities it produces are read back. */
  function Unescape(s: string): string
  {
    if s == [] then []
    else if |s| >= 5 && s[..5] == "&amp;" then "&" + Unescape(s[5..])
    else if |s| >= 4 && s[..4] == "&gt;" then ">" + Unescape(s[4..])
    else if |s| >= 4 && s[..4] == "&lt;" then "<" + Unescape(s[4..])
    else [s[0]] + Unescape(s[1..])
  }

  /** Escaping loses nothing: the original text can be read back. */
  lemma {:induction false} EscapeRoundTrip(s: string)
    ensures Unescape(Escape(s)) == s
  {
    EscapeIsPerCharacter(s);
    EscapeEachRoundTrip(s);
  }

  lemma {:induction false} EscapeEachRoundTrip(s: string)
    ensures Unescape(EscapeEach(s)) == s
  {
    if s != [] {
      var e, rest := EscapeChar(s[0]), EscapeEach(s[1..]);
      var x := e + rest;
      assert EscapeEach(s) == x;
      assert x[|e|..] == rest;
      if s[0] == '&' {
        assert x[..5] == "&amp;";
        assert Unescape(x) == "&" + Unescape(rest);
      } else if s[0] == '>' {
        assert x[..4] == "&gt;";
        assert x[1] == 'g';
        assert !(|x| >= 5 && x[..5] == "&amp;") by { assert |x| >= 5 ==> x[..5][1] == 'g'; }
        assert Unescape(x) == ">" + Unescape(rest);
      } else if s[0] == '<' {
        assert x[..4] == "&lt;";
        assert x[1] == 'l';
        assert !(|x| >= 5 && x[..5] == "&amp;") by { assert |x| >= 5 ==> x[..5][1] == 'l'; }
        assert x[..4][1] == 'l';
        assert Unescape(x) == "<" + Unescape(rest);
      } else {
        assert x[0] == s[0] && x[1..] == rest;
        assert Unescape(x) == [s[0]] + Unescape(rest);
      }
      EscapeEachRoundTrip(s[1..]);
      assert s == [s[0]] + s[1..];
    }
  }

  /** Escaped text never contains a raw `<` or `>`, so it cannot open or close markup. */
  lemma {:induction false} EscapeHasNoAngles(s: string)
    ensures '<' !in Escape(s) && '>' !in Escape(s)
  {
    ReplaceRemoves(Replace(Replace(s, '&', "&amp;"), '>', "&gt;"), '<', "&lt;", '<');
    ReplaceRemoves(Replace(s, '&', "&amp;"), '>', "&gt;", '>');
    ReplaceRemoves(Replace(Replace(s, '&', "&amp;"), '>', "&gt;"), '<', "&lt;", '>');
  }

  // ---------------------------------------------------------------------------
  // str.splitlines on a Python 2 byte string: breaks at "\r\n", "\r" and "\n";
  // a break at the very end does not start another (empty) line.

  predicate IsLineBreak(c: char) { c == '\n' || c == '\r' }

  /** The first index at or after `i` that holds a line break, or `|s|`. */
  function LineEnd(s: string, i: nat): (e: nat)
    requires i <= |s|
    ensures i <= e <= |s| && (e == |s| || IsLineBreak(s[e]))
    ensures forall k :: i <= k < e ==> !IsLineBreak(s[k])
    decreases |s| - i
  {
    if i == |s| || IsLineBreak(s[i]) then i else LineEnd(s, i + 1)
  }

  /** The length of the break that starts at `e`: two for "\r\n", one otherwise. */
  function BreakLength(s: string, e: nat): nat
    requires e < |s|
  {
    if s[e] == '\r' && e + 1 < |s| && s[e + 1] == '\n' then 2 else 1
  }

  function SplitLines(s: string): seq<string>
    decreases |s|
  {
    if s == [] then []
    else
      var e := LineEnd(s, 0);
      if e == |s| then [s] else [s[..e]] + SplitLines(s[e + BreakLength(s, e)..])
  }

  /** Joins lines with a newline between each two, as `"\n".join(lines)`. */
  function JoinLines(lines: seq<string>): string
  {
    if lines == [] then [] else if |lines| == 1 then lines[0] else lines[0] + "\n" + JoinLines(lines[1..])
  }

  function CountChar(s: string, c: char): nat
  {
    if s == [] then 0 else (if s[0] == c then 1 else 0) + CountChar(s[1..], c)
  }

  lemma {:induction false} CountCharAppend(a: string, b: string, c: char)
    ensures CountChar(a + b, c) == CountChar(a, c) + CountChar(b, c)
  {
    if a == [] {
      assert a + b == b;
    } else {
      assert (a + b)[1..] == a[1..] + b;
      CountCharAppend(a[1..], b, c);
    }
  }

  lemma {:induction false} CountCharAbsent(s: string, c: char)
    requires c !in s
    ensures CountChar(s, c) == 0
  {
    if s != [] {
      CountCharAbsent(s[1..], c);
    }
  }

  /**
   * Without carriage returns and without a trailing newline, `splitlines`
   * gives one line more than there are newlines, no line holds a newline,
   * and joining the lines again restores the text.
   */
  lemma {:induction false} SplitLinesOnNewlines(s: string)
    requires s != [] && '\r' !in s && s[|s| - 1] != '\n'
    ensures |SplitLines(s)| == CountChar(s, '\n') + 1
    ensures forall k :: 0 <= k < |SplitLines(s)| ==> '\n' !in SplitLines(s)[k]
    ensures JoinLines(SplitLines(s)) == s
    decreases |s|
  {
    var e := LineEnd(s, 0);
    assert '\n' !in s[..e] by {
      forall k | 0 <= k < e ensures s[..e][k] != '\n' { assert !IsLineBreak(s[k]); }
    }
    CountCharAbsent(s[..e], '\n');
    if e == |s| {
      assert s[..e] == s;
    } else {
      assert s[e] == '\n';
      assert BreakLength(s, e) == 1;
      var rest := s[e + 1..];
      assert s == s[..e] + "\n" + rest;
      CountCharAppend(s[..e] + "\n", rest, '\n');
      CountCharAppend(s[..e], "\n", '\n');
      assert rest != [] && rest[|rest| - 1] == s[|s| - 1];
      assert '\r' !in rest by {
        forall k | 0 <= k < |rest| ensures rest[k] != '\r' { assert rest[k] == s[e + 1 + k]; }
      }
      SplitLinesOnNewlines(rest);
      assert SplitLines(s) == [s[..e]] + SplitLines(rest);
    }
  }

  predicate NoLineBreak(line: string)
  {
    forall k :: 0 <= k < |line| ==> !IsLineBreak(line[k])
  }

  /**
   * Joining lines that hold no break, the last of them non-empty, and
   * splitting the result gives the lines back.
   */
  lemma {:induction false} SplitJoinRoundTrip(lines: seq<string>)
    requires forall i :: 0 <= i < |lines| ==> NoLineBreak(lines[i])
    requires lines != [] ==> lines[|lines| - 1] != []
    ensures SplitLines(JoinLines(lines)) == lines
  {
    if |lines| == 1 {
      SplitOneLine(lines[0]);
    } else if |lines| > 1 {
      assert JoinLines(lines) == lines[0] + "\n" + JoinLines(lines[1..]);
      SplitAfterLine(lines[0], JoinLines(lines[1..]));
      SplitJoinRoundTrip(lines[1..]);
      assert [lines[0]] + lines[1..] == lines;
    }
  }

  lemma SplitOneLine(line: string)
    requires NoLineBreak(line) && line != []
    ensures SplitLines(line) == [line]
  {
    assert LineEnd(line, 0) == |line|;
  }

  /** A line without breaks, then a newline: `splitlines` takes that line and goes on after the newline. */
  lemma SplitAfterLine(first: string, rest: string)
    requires NoLineBreak(first)
    ensures SplitLines(first + "\n" + rest) == [first] + SplitLines(rest)
  {
    var s := first + "\n" + rest;
    assert LineEnd(s, 0) == |first| by {
      assert forall k :: 0 <= k < |first| ==> s[k] == first[k];
      assert s[|first|] == '\n';
      LineEndAt(s, 0, |first|);
    }
    assert BreakLength(s, |first|) == 1;
    assert s[..|first|] == first;
    assert s[|first| + 1..] == rest;
  }

  lemma {:induction false} LineEndAt(s: string, i: nat, e: nat)
    requires i <= e < |s| && IsLineBreak(s[e]) && forall k :: i <= k < e ==> !IsLineBreak(s[k])
    ensures LineEnd(s, i) == e
    decreases e - i
  {
    if i < e {
      LineEndAt(s, i + 1, e);
    }
  }

  // ---------------------------------------------------------------------------
  // len(str.split()): the number of maximal runs of non-whitespace.

  /** Python 2's whitespace for byte strings: space, \t, \n, \r, \f, \v. */
  predicate IsSpace(c: char)
  {
    c == ' ' || c == '\t' || c == '\n' || c == '\r' || c == '\U{C}' || c == '\U{B}'
  }

  /** Word count when the character before `s` was whitespace (`atStart`) or not. */
  function WordsFrom(s: string, atStart: bool): nat
  {
    if s == [] then 0
    else if IsSpace(s[0]) then WordsFrom(s[1..], true)
    else (if atStart then 1 else 0) + WordsFrom(s[1..], false)
  }

  function WordCount(s: string): nat
  {
    WordsFrom(s, true)
  }

  predicate IsWord(w: string)
  {
    w != [] && forall k :: 0 <= k < |w| ==> !IsSpace(w[k])
  }

  /** Joins words with one space between each two, as `" ".join(words)`. */
  function JoinWords(words: seq<string>): string
  {
    if words == [] then [] else if |words| == 1 then words[0] else words[0] + " " + JoinWords(words[1..])
  }

  lemma {:induction false} WordsFromWord(w: string, rest: string, atStart: bool)
    requires IsWord(w)
    ensures WordsFrom(w + rest, atStart) == (if atStart then 1 else 0) + WordsFrom(rest, false)
    decreases |w|
  {
    assert (w + rest)[0] == w[0];
    assert (w + rest)[1..] == w[1..] + rest;
    if |w| == 1 {
      assert w[1..] + rest == rest;
    } else {
      assert IsWord(w[1..]) by {
        forall k | 0 <= k < |w[1..]| ensures !IsSpace(w[1..][k]) { assert w[1..][k] == w[k + 1]; }
      }
      WordsFromWord(w[1..], rest, false);
    }
  }

  /** `len(" ".join(words).split()) == len(words)` for words without whitespace. */
  lemma {:induction false} WordCountOfJoin(words: seq<string>)
    requires forall k :: 0 <= k < |words| ==> IsWord(words[k])
    ensures WordCount(JoinWords(words)) == |words|
  {
    WordsFromJoin(words, true);
  }

  lemma {:induction false} WordsFromJoin(words: seq<string>, atStart: bool)
    requires forall k :: 0 <= k < |words| ==> IsWord(words[k])
    ensures WordsFrom(JoinWords(words), atStart) == if words == [] then 0 else |words| - 1 + (if atStart then 1 else 0)
    decreases |words|
  {
    if |words| == 1 {
      assert words[0] + [] == words[0];
      WordsFromWord(words[0], [], atStart);
    } else if |words| > 1 {
      var rest := JoinWords(words[1..]);
      assert JoinWords(words) == words[0] + (" " + rest);
      WordsFromWord(words[0], " " + rest, atStart);
      assert (" " + rest)[1..] == rest;
      WordsFromJoin(words[1..], true);
    }
  }
}
