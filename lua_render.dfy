/**
 * The HTML line renderer of the syntax highlighter (`LuaHTMLLineOutput`):
 * it consumes the tokens and yields one HTML string per source line.
 */
module LuaRender {
  import opened Wrappers
  import opened Text
  import opened LuaLexer
  import opened LuaLexerRules

  const BlockCommentOpen := "<span class=\"blockcomment\">"

  const SpanClose := "</span>"

  /** `whitespace_escape`: a space and a tab each become ONE `&nbsp;`. */
  function WhitespaceEscape(s: string): string
  {
    Replace(Replace(s, ' ', Nbsp), '\t', Nbsp)
  }

  function Span(cls: string, body: string): string
  {
    "<span class=\"" + cls + "\">" + body + SpanClose
  }

  /** Identifiers are classed by exact membership: keyword first, then library. */
  function IdentifierClass(name: string): string
  {
    if name in Keywords then "keyword" else if name in StandardLibrary then "library" else "identifier"
  }

  /** One physical line of a block comment that spans several lines. */
  function CommentLine(piece: string): string
  {
    BlockCommentOpen + WhitespaceEscape(Escape(piece)) + SpanClose
  }

  function CommentLines(pieces: seq<string>): (r: seq<string>)
    ensures |r| == |pieces|
  {
    seq(|pieces|, i requires 0 <= i < |pieces| => CommentLine(pieces[i]))
  }

  /** The lines yielded so far and the line being built. */
  datatype LineBuffer = LineBuffer(emitted: seq<string>, current: string)

  /**
   * A block comment of k > 1 lines: its first line closes the line being
   * built, the k - 2 middle lines are yielded on their own, and the last
   * line starts the new buffer.
   */
  function SpreadComment(b: LineBuffer, pieces: seq<string>): LineBuffer
    requires |pieces| > 1
  {
    LineBuffer(b.emitted + [b.current + CommentLine(pieces[0])] + CommentLines(pieces[1..|pieces| - 1]),
               CommentLine(pieces[|pieces| - 1]))
  }

  /** What one token does to the buffer. */
  function Step(b: LineBuffer, t: Token): LineBuffer
  {
    if t.kind == Whitespace && t.text == "\n" then LineBuffer(b.emitted + [b.current], "")
    else if t.kind == Whitespace && t.text == " " then LineBuffer(b.emitted, b.current + Nbsp)
    else if t.kind == Whitespace && t.text == "\t" then LineBuffer(b.emitted, b.current + Nbsp + Nbsp + Nbsp + Nbsp)
    else if t.kind == BlockComment then
      var pieces := SplitLines(t.text);
      if |pieces| > 1 then SpreadComment(b, pieces)
      else LineBuffer(b.emitted, b.current + Span("blockcomment", Escape(t.text)))
    else if t.kind == Identifier then LineBuffer(b.emitted, b.current + Span(IdentifierClass(t.text), Escape(t.text)))
    else LineBuffer(b.emitted, b.current + Span(KindName(t.kind), Escape(t.text)))
  }

  function RenderFrom(b: LineBuffer, tokens: seq<Token>): LineBuffer
    decreases |tokens|
  {
    if tokens == [] then b else RenderFrom(Step(b, tokens[0]), tokens[1..])
  }

  /** The yielded lines; the buffer left after the last newline is never yielded. */
  function RenderTokens(tokens: seq<Token>): seq<string>
  {
    RenderFrom(LineBuffer([], ""), tokens).emitted
  }

  function Render(src: string): Result<seq<string>, LexError>
  {
    match Lex(src)
    case Ok(tokens) => Ok(RenderTokens(tokens))
    case Err(e) => Err(e)
  }

  /**
   * `LuaHTMLLineOutput.next`: appends to the current line token by token,
   * yields it at each newline and resets it; a lexing error propagates.
   */
  method RenderLines(src: string) returns (r: Result<seq<string>, LexError>)
    ensures r == Render(src)
  {
    var lexed := Tokenize(src);
    if lexed.Err? {
      return Err(lexed.error);
    }
    var tokens := lexed.value;
    var lines: seq<string> := [];
    var currentLine := "";
    var i := 0;
    while i < |tokens|
      invariant i <= |tokens|
      invariant RenderTokens(tokens) == RenderFrom(LineBuffer(lines, currentLine), tokens[i..]).emitted
    {
      var t := tokens[i];
      lines, currentLine := StepLine(lines, currentLine, t);
      assert tokens[i..] == [t] + tokens[i + 1..];
      i := i + 1;
    }
    r := Ok(lines);
  }

  /** The body of the token loop: what one token appends or yields. */
  method StepLine(lines0: seq<string>, current0: string, t: Token) returns (lines: seq<string>, currentLine: string)
    ensures LineBuffer(lines, currentLine) == Step(LineBuffer(lines0, current0), t)
  {
    if t.kind == Whitespace && (t.text == "\n" || t.text == " " || t.text == "\t") {
      lines, currentLine := StepSpacing(lines0, current0, t);
    } else {
      lines, currentLine := StepMarkup(lines0, current0, t);
    }
  }

  /** A newline yields the line; a space or a tab appends non-breaking spaces. */
  method StepSpacing(lines0: seq<string>, current0: string, t: Token) returns (lines: seq<string>, currentLine: string)
    requires t.kind == Whitespace && (t.text == "\n" || t.text == " " || t.text == "\t")
    ensures LineBuffer(lines, currentLine) == Step(LineBuffer(lines0, current0), t)
  {
    lines, currentLine := lines0, current0;
    if t.text == "\n" {
      lines := lines + [currentLine];
      currentLine := "";
    } else if t.text == " " {
      currentLine := currentLine + "&nbsp;";
    } else {
      currentLine := currentLine + "&nbsp;&nbsp;&nbsp;&nbsp;";
      assert Nbsp + Nbsp + Nbsp + Nbsp == "&nbsp;&nbsp;&nbsp;&nbsp;";
    }
  }

  /** Any other token appends a span; a block comment over several lines yields lines. */
  method StepMarkup(lines0: seq<string>, current0: string, t: Token) returns (lines: seq<string>, currentLine: string)
    requires !(t.kind == Whitespace && (t.text == "\n" || t.text == " " || t.text == "\t"))
    ensures LineBuffer(lines, currentLine) == Step(LineBuffer(lines0, current0), t)
  {
    lines, currentLine := lines0, current0;
    if t.kind == BlockComment {
      var pieces := SplitLines(t.text);
      if |pieces| > 1 {
        lines, currentLine := EmitCommentLines(lines, currentLine, pieces);
      } else {
        currentLine := AppendSpan(currentLine, "blockcomment", Escape(t.text));
      }
    } else if t.kind == Identifier {
      currentLine := AppendSpan(currentLine, IdentifierClass(t.text), Escape(t.text));
    } else {
      currentLine := AppendSpan(currentLine, KindName(t.kind), Escape(t.text));
    }
  }

  /** `line += '<span class="' + cls + '">' + body + '</span>'`. */
  method AppendSpan(line0: string, cls: string, body: string) returns (line: string)
    ensures line == line0 + Span(cls, body)
  {
    line := line0 + "<span class=\"" + cls + "\">" + body + "</span>";
    assert line0 + "<span class=\"" + cls + "\">" + body + "</span>" == line0 + Span(cls, body);
  }

  /** The loop over the lines of a multi-line block comment. */
  method EmitCommentLines(lines0: seq<string>, current0: string, pieces: seq<string>)
    returns (lines: seq<string>, currentLine: string)
    requires |pieces| > 1
    ensures LineBuffer(lines, currentLine) == SpreadComment(LineBuffer(lines0, current0), pieces)
  {
    var k := |pieces|;
    lines, currentLine := lines0, current0 + "<span class=\"blockcomment\">";
    var n := 0;
    while n < k
      invariant n <= k
      invariant n == 0 ==> lines == lines0 && currentLine == current0 + BlockCommentOpen
      invariant 0 < n < k ==> currentLine == BlockCommentOpen
      invariant 0 < n < k ==> lines == lines0 + [current0 + CommentLine(pieces[0])] + CommentLines(pieces[1..n])
      invariant n == k ==> LineBuffer(lines, currentLine) == SpreadComment(LineBuffer(lines0, current0), pieces)
    {
      currentLine := currentLine + WhitespaceEscape(Escape(pieces[n])) + "</span>";
      if n < k - 1 {
        lines := lines + [currentLine];
        currentLine := "<span class=\"blockcomment\">";
      }
      if n == 0 {
        assert current0 + BlockCommentOpen + WhitespaceEscape(Escape(pieces[0])) + SpanClose
          == current0 + CommentLine(pieces[0]);
        assert CommentLines(pieces[1..1]) == [];
      } else {
        assert CommentLines(pieces[1..n]) + [CommentLine(pieces[n])] == CommentLines(pieces[1..n + 1]);
      }
      n := n + 1;
    }
  }

  // ---------------------------------------------------------------------------
  // How many lines are yielded

  /** The lines one token closes: a newline closes one, a k-line block comment k - 1. */
  function LineBreaks(t: Token): nat
  {
    if t.kind == Whitespace && t.text == "\n" then 1
    else if t.kind == BlockComment && |SplitLines(t.text)| > 1 then |SplitLines(t.text)| - 1
    else 0
  }

  function Breaks(tokens: seq<Token>): nat
  {
    if tokens == [] then 0 else LineBreaks(tokens[0]) + Breaks(tokens[1..])
  }

  lemma StepGrows(b: LineBuffer, t: Token)
    ensures |Step(b, t).emitted| == |b.emitted| + LineBreaks(t)
    ensures Step(b, t).emitted[..|b.emitted|] == b.emitted
  {
  }

  /**
   * A line once yielded is never changed, and each token adds exactly the
   * lines it closes.
   */
  lemma {:induction false} RenderFromGrows(b: LineBuffer, tokens: seq<Token>)
    ensures |RenderFrom(b, tokens).emitted| == |b.emitted| + Breaks(tokens)
    ensures RenderFrom(b, tokens).emitted[..|b.emitted|] == b.emitted
    decreases |tokens|
  {
    if tokens != [] {
      var next := Step(b, tokens[0]);
      StepGrows(b, tokens[0]);
      RenderFromGrows(next, tokens[1..]);
      var e := RenderFrom(next, tokens[1..]).emitted;
      assert e[..|b.emitted|] == e[..|next.emitted|][..|b.emitted|];
    }
  }

  lemma RenderedLinesCountBreaks(tokens: seq<Token>)
    ensures |RenderTokens(tokens)| == Breaks(tokens)
  {
    RenderFromGrows(LineBuffer([], ""), tokens);
  }

  /** Symbols, digits and identifier characters are never newlines. */
  lemma SingleLineToken(t: Token)
    requires WellShaped(t)
    requires t.kind in {Misc, Operator, Number, Identifier, Comment}
    ensures '\n' !in t.text
  {
    if t.kind == Misc {
      assert forall k :: 0 <= k < |MiscSymbols| ==> '\n' !in MiscSymbols[k];
    } else if t.kind == Operator {
      assert forall k :: 0 <= k < |Operators| ==> '\n' !in Operators[k];
    } else if t.kind == Identifier {
      assert forall k :: 0 <= k < |t.text| ==> t.text[k] != '\n' by {
        forall k | 0 <= k < |t.text| ensures t.text[k] != '\n' {
          if k == 0 { assert IsIdentStart(t.text[0]); } else { assert IsIdentPart(t.text[k]); }
        }
      }
    } else if t.kind == Number {
      assert forall k :: 0 <= k < |t.text| ==> IsDigit(t.text[k]);
    }
  }

  /** A token closes as many lines as its text holds newlines. */
  lemma TokenBreaks(t: Token)
    requires WellShaped(t) && '\r' !in t.text
    requires t.kind == String ==> '\n' !in t.text
    ensures LineBreaks(t) == CountChar(t.text, '\n')
  {
    match t.kind
    case Whitespace =>
      assert t.text == "\t" || t.text == "\n" || t.text == " ";
    case BlockComment =>
      assert t.text[|t.text| - 1] == t.text[|t.text| - 2..][1];
      SplitLinesOnNewlines(t.text);
    case String =>
      CountCharAbsent(t.text, '\n');
    case _ =>
      SingleLineToken(t);
      CountCharAbsent(t.text, '\n');
  }

  lemma {:induction false} BreaksCountNewlines(tokens: seq<Token>)
    requires forall t :: t in tokens ==> WellShaped(t) && '\r' !in t.text
    requires forall t :: t in tokens && t.kind == String ==> '\n' !in t.text
    ensures Breaks(tokens) == CountChar(Texts(tokens), '\n')
  {
    if tokens != [] {
      TokenBreaks(tokens[0]);
      BreaksCountNewlines(tokens[1..]);
      CountCharAppend(tokens[0].text, Texts(tokens[1..]), '\n');
    }
  }

  /**
   * Without carriage returns and without a string that spans lines, the
   * renderer yields exactly one line per newline of the source: the text
   * after the last newline is not yielded.
   */
  lemma RenderedLineCount(src: string)
    requires '\r' !in src
    requires Lex(src).Ok?
    requires forall t :: t in Lex(src).value && t.kind == String ==> '\n' !in t.text
    ensures Render(src).Ok?
    ensures |Render(src).value| == CountChar(src, '\n')
  {
    var tokens := Lex(src).value;
    LexTokensWellShaped(src);
    LexCoversSource(src, tokens);
    forall t | t in tokens ensures '\r' !in t.text {
      TextInTexts(tokens, t);
    }
    BreaksCountNewlines(tokens);
    RenderedLinesCountBreaks(tokens);
  }

  lemma {:induction false} TextInTexts(tokens: seq<Token>, t: Token)
    requires t in tokens
    ensures forall c :: c in t.text ==> c in Texts(tokens)
  {
    if tokens[0] != t {
      TextInTexts(tokens[1..], t);
    }
  }

  // ---------------------------------------------------------------------------
  // The line stream, one token at a time

  lemma {:induction false} RenderFromAppend(b: LineBuffer, tokens: seq<Token>, t: Token)
    ensures RenderFrom(b, tokens + [t]) == Step(RenderFrom(b, tokens), t)
    decreases |tokens|
  {
    if tokens == [] {
      assert [] + [t] == [t];
      assert [t][1..] == [];
    } else {
      assert (tokens + [t])[0] == tokens[0];
      assert (tokens + [t])[1..] == tokens[1..] + [t];
      RenderFromAppend(Step(b, tokens[0]), tokens[1..], t);
    }
  }

  /**
   * A newline token yields the line built since the previous newline,
   * possibly empty, appends nothing else, and starts an empty line.
   */
  lemma NewlineYieldsLine(tokens: seq<Token>)
    ensures RenderTokens(tokens + [Token(Whitespace, "\n")]) ==
      RenderTokens(tokens) + [RenderFrom(LineBuffer([], ""), tokens).current]
    ensures RenderFrom(LineBuffer([], ""), tokens + [Token(Whitespace, "\n")]).current == ""
  {
    RenderFromAppend(LineBuffer([], ""), tokens, Token(Whitespace, "\n"));
  }

  /**
   * A token that closes no line yields nothing: the lines so far stay as they
   * are and the line being built only grows at its end.
   */
  lemma InlineTokenExtends(tokens: seq<Token>, t: Token)
    requires LineBreaks(t) == 0
    ensures RenderTokens(tokens + [t]) == RenderTokens(tokens)
    ensures var c := RenderFrom(LineBuffer([], ""), tokens).current;
      var d := RenderFrom(LineBuffer([], ""), tokens + [t]).current;
      |c| <= |d| && d[..|c|] == c
  {
    var b := RenderFrom(LineBuffer([], ""), tokens);
    RenderFromAppend(LineBuffer([], ""), tokens, t);
    StepExtends(b, t);
  }

  lemma StepExtends(b: LineBuffer, t: Token)
    requires LineBreaks(t) == 0
    ensures Step(b, t).emitted == b.emitted
    ensures |b.current| <= |Step(b, t).current| && Step(b, t).current[..|b.current|] == b.current
  {
    var d := Step(b, t).current;
    assert d == b.current + d[|b.current|..];
  }

  // ---------------------------------------------------------------------------
  // What a yielded line is made of

  /** A piece of a rendered line: a non-breaking space, or a span around escaped text. */
  datatype Piece = Space | Tagged(cls: string, body: string)

  function PieceText(p: Piece): string
  {
    match p
    case Space => Nbsp
    case Tagged(cls, body) => Span(cls, body)
  }

  function Markup(ps: seq<Piece>): string
  {
    if ps == [] then "" else Markup(ps[..|ps| - 1]) + PieceText(ps[|ps| - 1])
  }

  /** The classes the renderer writes: the three identifier classes and the token kinds. */
  predicate IsClassName(cls: string)
  {
    cls == "keyword" || cls == "library" || cls == "identifier" || cls == "blockcomment" ||
    cls == "comment" || cls == "string" || cls == "whitespace" || cls == "misc" ||
    cls == "operator" || cls == "number"
  }

  predicate SafePiece(p: Piece)
  {
    p.Tagged? ==> IsClassName(p.cls) && '<' !in p.body && '>' !in p.body
  }

  predicate SafePieces(ps: seq<Piece>)
  {
    forall k :: 0 <= k < |ps| ==> SafePiece(ps[k])
  }

  /**
   * A line made of non-breaking spaces and spans of a known class whose text
   * holds no `<` or `>`: source text never opens or closes markup.
   */
  ghost predicate SafeLine(line: string)
  {
    exists ps: seq<Piece> :: SafePieces(ps) && Markup(ps) == line
  }

  ghost predicate SafeBuffer(b: LineBuffer)
  {
    (forall i :: 0 <= i < |b.emitted| ==> SafeLine(b.emitted[i])) && SafeLine(b.current)
  }

  lemma MarkupSafe(ps: seq<Piece>)
    requires SafePieces(ps)
    ensures SafeLine(Markup(ps))
  {
  }

  lemma EmptyLineSafe()
    ensures SafeLine("")
  {
    var ps: seq<Piece> := [];
    assert Markup(ps) == "";
    MarkupSafe(ps);
  }

  lemma SafePiecesAppend(ps: seq<Piece>, p: Piece)
    requires SafePieces(ps) && SafePiece(p)
    ensures SafePieces(ps + [p]) && Markup(ps + [p]) == Markup(ps) + PieceText(p)
  {
    var qs := ps + [p];
    assert qs[..|qs| - 1] == ps;
  }

  lemma SafeAppend(line: string, p: Piece)
    requires SafeLine(line) && SafePiece(p)
    ensures SafeLine(line + PieceText(p))
  {
    var ps :| SafePieces(ps) && Markup(ps) == line;
    SafePiecesAppend(ps, p);
    MarkupSafe(ps + [p]);
  }

  /** A line that replaces the line being built keeps the buffer safe. */
  lemma ExtendSafe(b: LineBuffer, line: string)
    requires SafeBuffer(b) && SafeLine(line)
    ensures SafeBuffer(LineBuffer(b.emitted, line))
  {
  }

  lemma KindNameIsClass(k: Kind)
    ensures IsClassName(KindName(k))
  {
  }

  lemma IdentifierClassIsClass(name: string)
    ensures IsClassName(IdentifierClass(name))
  {
  }

  lemma NbspHasNoAngles()
    ensures '<' !in Nbsp && '>' !in Nbsp
  {
    assert Nbsp == ['&', 'n', 'b', 's', 'p', ';'];
  }

  lemma EscapedSpanSafe(line: string, cls: string, text: string)
    requires SafeLine(line) && IsClassName(cls)
    ensures SafeLine(line + Span(cls, Escape(text)))
  {
    EscapeHasNoAngles(text);
    SafeAppend(line, Tagged(cls, Escape(text)));
  }

  /** `whitespace_escape(escape(piece))` holds no angle bracket either. */
  lemma CommentBodyHasNoAngles(piece: string)
    ensures '<' !in WhitespaceEscape(Escape(piece)) && '>' !in WhitespaceEscape(Escape(piece))
  {
    var e := Escape(piece);
    EscapeHasNoAngles(piece);
    NbspHasNoAngles();
    ReplaceRemoves(e, ' ', Nbsp, '<');
    ReplaceRemoves(e, ' ', Nbsp, '>');
    ReplaceRemoves(Replace(e, ' ', Nbsp), '\t', Nbsp, '<');
    ReplaceRemoves(Replace(e, ' ', Nbsp), '\t', Nbsp, '>');
  }

  lemma BlockCommentOpenIsSpanHead()
    ensures BlockCommentOpen == "<span class=\"" + "blockcomment" + "\">"
  {
  }

  /** The line of a multi-line comment is a `blockcomment` span. */
  lemma CommentLineIsSpan(body: string)
    ensures BlockCommentOpen + body + SpanClose == PieceText(Tagged("blockcomment", body))
  {
    BlockCommentOpenIsSpanHead();
  }

  lemma CommentLineSafe(line: string, piece: string)
    requires SafeLine(line)
    ensures SafeLine(line + CommentLine(piece))
  {
    CommentBodyHasNoAngles(piece);
    CommentLineIsSpan(WhitespaceEscape(Escape(piece)));
    SafeAppend(line, Tagged("blockcomment", WhitespaceEscape(Escape(piece))));
  }

  lemma CommentLinesSafe(pieces: seq<string>)
    ensures forall i :: 0 <= i < |pieces| ==> SafeLine(CommentLines(pieces)[i])
  {
    forall i | 0 <= i < |pieces| ensures SafeLine(CommentLines(pieces)[i]) {
      EmptyLineSafe();
      CommentLineSafe("", pieces[i]);
      assert "" + CommentLine(pieces[i]) == CommentLine(pieces[i]);
    }
  }

  lemma SpreadSafe(b: LineBuffer, pieces: seq<string>)
    requires |pieces| > 1 && SafeBuffer(b)
    ensures SafeBuffer(SpreadComment(b, pieces))
  {
    var first := b.current + CommentLine(pieces[0]);
    var middle := CommentLines(pieces[1..|pieces| - 1]);
    CommentLineSafe(b.current, pieces[0]);
    CommentLinesSafe(pieces[1..|pieces| - 1]);
    var emitted := b.emitted + [first] + middle;
    forall i | 0 <= i < |emitted| ensures SafeLine(emitted[i]) {
      if i < |b.emitted| {
        assert emitted[i] == b.emitted[i];
      } else if i == |b.emitted| {
        assert emitted[i] == first;
      } else {
        assert emitted[i] == middle[i - |b.emitted| - 1];
      }
    }
    EmptyLineSafe();
    CommentLineSafe("", pieces[|pieces| - 1]);
    assert "" + CommentLine(pieces[|pieces| - 1]) == CommentLine(pieces[|pieces| - 1]);
  }

  lemma NewlineSafe(b: LineBuffer)
    requires SafeBuffer(b)
    ensures SafeBuffer(LineBuffer(b.emitted + [b.current], ""))
  {
    var emitted := b.emitted + [b.current];
    assert forall i :: 0 <= i < |emitted| ==> emitted[i] == if i < |b.emitted| then b.emitted[i] else b.current;
    EmptyLineSafe();
  }

  lemma TabSafe(line: string)
    requires SafeLine(line)
    ensures SafeLine(line + Nbsp + Nbsp + Nbsp + Nbsp)
  {
    SafeAppend(line, Space);
    SafeAppend(line + Nbsp, Space);
    SafeAppend(line + Nbsp + Nbsp, Space);
    SafeAppend(line + Nbsp + Nbsp + Nbsp, Space);
  }

  lemma StepSafe(b: LineBuffer, t: Token)
    requires SafeBuffer(b)
    ensures SafeBuffer(Step(b, t))
  {
    if t.kind == Whitespace && t.text == "\n" {
      NewlineSafe(b);
    } else if t.kind == Whitespace && t.text == " " {
      SafeAppend(b.current, Space);
      ExtendSafe(b, b.current + Nbsp);
    } else if t.kind == Whitespace && t.text == "\t" {
      TabSafe(b.current);
      ExtendSafe(b, b.current + Nbsp + Nbsp + Nbsp + Nbsp);
    } else if t.kind == BlockComment && |SplitLines(t.text)| > 1 {
      SpreadSafe(b, SplitLines(t.text));
    } else {
      var cls := if t.kind == BlockComment then "blockcomment"
        else if t.kind == Identifier then IdentifierClass(t.text) else KindName(t.kind);
      IdentifierClassIsClass(t.text);
      KindNameIsClass(t.kind);
      EscapedSpanSafe(b.current, cls, t.text);
      ExtendSafe(b, b.current + Span(cls, Escape(t.text)));
    }
  }

  lemma {:induction false} RenderFromSafe(b: LineBuffer, tokens: seq<Token>)
    requires SafeBuffer(b)
    ensures SafeBuffer(RenderFrom(b, tokens))
    decreases |tokens|
  {
    if tokens != [] {
      StepSafe(b, tokens[0]);
      RenderFromSafe(Step(b, tokens[0]), tokens[1..]);
    }
  }

  /**
   * Every yielded line is made of non-breaking spaces and spans of a known
   * class around escaped text, so no `<` or `>` of the source reaches the
   * markup unescaped.
   */
  lemma RenderedLinesAreSafe(src: string)
    requires Render(src).Ok?
    ensures forall i :: 0 <= i < |Render(src).value| ==> SafeLine(Render(src).value[i])
  {
    EmptyLineSafe();
    RenderFromSafe(LineBuffer([], ""), Lex(src).value);
  }
}
