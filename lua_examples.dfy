/**
 * The tokenizer and the renderer on small concrete inputs, showing the
 * behaviour of the code: the first listed operator wins, an unterminated
 * string stops the tokenizer at its quote, and the text after the last
 * newline, including the closing line of a block comment, is not yielded.
 */
module LuaExamples {
  import opened Wrappers
  import opened Text
  import opened LuaLexer
  import opened LuaLexerRules
  import opened LuaRender

  /** One step of the tokenizer, once the winning rule and its end are known. */
  lemma LexStep(s: string, pos: nat, k: nat, e: nat)
    requires pos < |s| && k < |TokenTypes| && FirstMatch(s, pos) == Some(k)
    requires MatchRule(TokenTypes[k], s, pos) == Some(e)
    ensures LexFrom(s, pos) == Prepend([Token(RuleKind(TokenTypes[k]), s[pos..e])], LexFrom(s, e))
  {
    match LexFrom(s, e)
    case Ok(rest) =>
      assert LexFrom(s, pos) == Ok([Token(RuleKind(TokenTypes[k]), s[pos..e])] + rest);
    case Err(err) =>
      assert LexFrom(s, pos) == Err(err);
  }

  lemma RuleKinds()
    ensures RuleKind(TokenTypes[0]) == BlockComment && RuleKind(TokenTypes[1]) == Comment
    ensures RuleKind(TokenTypes[4]) == Whitespace && RuleKind(TokenTypes[5]) == Misc
    ensures RuleKind(TokenTypes[6]) == Operator && RuleKind(TokenTypes[8]) == Identifier
  {
  }

  /** A one-character token found at `pos` by the rule at index `k`. */
  lemma OneCharacterStep(s: string, pos: nat, k: nat)
    requires pos < |s| && k < |TokenTypes| && FirstMatch(s, pos) == Some(k)
    requires MatchRule(TokenTypes[k], s, pos) == Some(pos + 1)
    ensures LexFrom(s, pos) == Prepend([Token(RuleKind(TokenTypes[k]), [s[pos]])], LexFrom(s, pos + 1))
  {
    LexStep(s, pos, k, pos + 1);
    assert s[pos..pos + 1] == [s[pos]];
  }

  lemma WhitespaceStep(s: string, pos: nat)
    requires pos < |s| && IsWhitespaceHead(s[pos])
    ensures LexFrom(s, pos) == Prepend([Token(Whitespace, [s[pos]])], LexFrom(s, pos + 1))
  {
    WhitespaceIsOneCharacter(s, pos);
    assert TokenTypes[4] == WhitespaceRule;
    OneCharacterStep(s, pos, 4);
    RuleKinds();
  }

  lemma MiscStep(s: string, pos: nat)
    requires pos < |s| && IsMiscHead(s[pos]) && s[pos] != '.'
    ensures LexFrom(s, pos) == Prepend([Token(Misc, [s[pos]])], LexFrom(s, pos + 1))
  {
    OneCharacterMisc(s, pos);
    assert TokenTypes[5] == MiscRule;
    OneCharacterStep(s, pos, 5);
    RuleKinds();
  }

  lemma OperatorStep(s: string, pos: nat)
    requires pos < |s| && FirstMatch(s, pos) == Some(6) && MatchRule(OperatorRule, s, pos) == Some(pos + 1)
    ensures LexFrom(s, pos) == Prepend([Token(Operator, [s[pos]])], LexFrom(s, pos + 1))
  {
    assert TokenTypes[6] == OperatorRule;
    OneCharacterStep(s, pos, 6);
    RuleKinds();
  }

  lemma IdentifierStep(s: string, pos: nat, e: nat)
    requires pos < |s| && IsIdentStart(s[pos]) && IdentEnd(s, pos + 1) == e
    ensures LexFrom(s, pos) == Prepend([Token(Identifier, s[pos..e])], LexFrom(s, e))
  {
    IdentifierAtLetter(s, pos);
    assert TokenTypes[8] == IdentifierRule;
    LexStep(s, pos, 8, e);
    RuleKinds();
  }

  /** The source `a<=b`. */
  predicate IsLessEqual(s: string)
  {
    |s| == 4 && s[0] == 'a' && s[1] == '<' && s[2] == '=' && s[3] == 'b'
  }

  lemma LessEqualLast(s: string)
    requires IsLessEqual(s)
    ensures LexFrom(s, 3) == Ok([Token(Identifier, "b")])
  {
    assert LexFrom(s, 4) == Ok([]);
    assert IdentEnd(s, 4) == 4;
    IdentifierStep(s, 3, 4);
    assert s[3..4] == "b";
    assert [Token(Identifier, "b")] + [] == [Token(Identifier, "b")];
  }

  lemma LessEqualFromEquals(s: string)
    requires IsLessEqual(s)
    ensures LexFrom(s, 2) == Ok([Token(Operator, "="), Token(Identifier, "b")])
  {
    LessEqualLast(s);
    assert !StartsWith(s, 2, "==") by { assert s[2..4][1] == 'b'; }
    SingleEqualsIsOperator(s, 2);
    OperatorStep(s, 2);
    assert [Token(Operator, "=")] + [Token(Identifier, "b")] == [Token(Operator, "="), Token(Identifier, "b")];
  }

  lemma LessEqualFromLess(s: string)
    requires IsLessEqual(s)
    ensures LexFrom(s, 1) == Ok([Token(Operator, "<"), Token(Operator, "="), Token(Identifier, "b")])
  {
    LessEqualFromEquals(s);
    ComparisonIsOneCharacter(s, 1);
    OperatorStep(s, 1);
    assert [Token(Operator, "<")] + [Token(Operator, "="), Token(Identifier, "b")]
      == [Token(Operator, "<"), Token(Operator, "="), Token(Identifier, "b")];
  }

  lemma LessEqualName(s: string)
    requires IsLessEqual(s)
    ensures IdentEnd(s, 1) == 1 && s[0..1] == "a"
  {
    assert !IsIdentPart(s[1]);
  }

  lemma ConsFour(a: Token, b: Token, c: Token, d: Token)
    ensures [a] + [b, c, d] == [a, b, c, d]
  {
  }

  lemma LessEqualHead(s: string)
    requires IsLessEqual(s)
    ensures LexFrom(s, 0) == Prepend([Token(Identifier, "a")], LexFrom(s, 1))
  {
    LessEqualName(s);
    IdentifierStep(s, 0, 1);
  }

  lemma LessEqualTokens(s: string)
    requires IsLessEqual(s)
    ensures LexFrom(s, 0) == Ok([Token(Identifier, "a"), Token(Operator, "<"), Token(Operator, "="), Token(Identifier, "b")])
  {
    LessEqualHead(s);
    LessEqualFromLess(s);
    ConsFour(Token(Identifier, "a"), Token(Operator, "<"), Token(Operator, "="), Token(Identifier, "b"));
  }

  /**
   * `a<=b` is four tokens: `<` is listed before `<=` in the operator table
   * and the first listed symbol that matches is taken.
   */
  lemma LessEqualIsTwoOperators()
    ensures Lex("a<=b") == Ok([Token(Identifier, "a"), Token(Operator, "<"), Token(Operator, "="), Token(Identifier, "b")])
  {
    LessEqualTokens("a<=b");
  }

  /** The source `x = "abc`. */
  predicate IsUnterminated(s: string)
  {
    |s| == 8 && s[0] == 'x' && s[1] == ' ' && s[2] == '=' && s[3] == ' '
    && s[4] == '"' && s[5] == 'a' && s[6] == 'b' && s[7] == 'c'
  }

  lemma UnterminatedNeverCloses(s: string)
    requires IsUnterminated(s)
    ensures CloseEscaped(s, 5, '"').None?
  {
    assert CloseEscaped(s, 8, '"').None?;
    assert CloseEscaped(s, 7, '"').None?;
    assert CloseEscaped(s, 6, '"').None?;
  }

  lemma UnterminatedErrorText(s: string)
    requires IsUnterminated(s)
    ensures ErrorAt(s, 4) == LexError(4, "\"abc")
  {
    assert s[4..Min(54, |s|)] == "\"abc";
  }

  lemma UnterminatedFromQuote(s: string)
    requires IsUnterminated(s)
    ensures LexFrom(s, 4) == Err(LexError(4, "\"abc"))
  {
    UnterminatedNeverCloses(s);
    UnterminatedStringFails(s, 4);
    UnterminatedErrorText(s);
  }

  lemma UnterminatedFromEquals(s: string)
    requires IsUnterminated(s)
    ensures LexFrom(s, 2) == Err(LexError(4, "\"abc"))
  {
    UnterminatedFromQuote(s);
    WhitespaceStep(s, 3);
    assert !StartsWith(s, 2, "==") by { assert s[2..4][1] == ' '; }
    SingleEqualsIsOperator(s, 2);
    OperatorStep(s, 2);
  }

  lemma UnterminatedStringTokens(s: string)
    requires IsUnterminated(s)
    ensures LexFrom(s, 0) == Err(LexError(4, "\"abc"))
  {
    UnterminatedFromEquals(s);
    WhitespaceStep(s, 1);
    assert IdentEnd(s, 1) == 1 by { assert !IsIdentPart(s[1]); }
    IdentifierStep(s, 0, 1);
  }

  /**
   * `x = "abc` fails at offset 4, the quote, and the error carries the rest
   * of the source from there.
   */
  lemma UnterminatedStringError()
    ensures Lex("x = \"abc") == Err(LexError(4, "\"abc"))
  {
    UnterminatedStringTokens("x = \"abc");
  }

  lemma PlainText(p: string)
    requires '&' !in p && '<' !in p && '>' !in p && ' ' !in p && '\t' !in p
    ensures Escape(p) == p && WhitespaceEscape(p) == p
  {
    ReplaceAbsent(p, '&', "&amp;");
    ReplaceAbsent(p, '>', "&gt;");
    ReplaceAbsent(p, '<', "&lt;");
    ReplaceAbsent(p, ' ', Nbsp);
    ReplaceAbsent(p, '\t', Nbsp);
  }

  lemma NotInFirstGroups()
    ensures "x" !in BaseFunctions && "x" !in CoroutineLibrary && "x" !in DebugLibrary
  {
  }

  lemma NotInMiddleGroups()
    ensures "x" !in IoLibrary && "x" !in MathLibrary && "x" !in OsLibrary
  {
  }

  lemma NotInLastGroups()
    ensures "x" !in PackageLibrary && "x" !in StringLibrary && "x" !in TableLibrary
  {
  }

  lemma LibraryFacts()
    ensures IdentifierClass("print") == "library" && IdentifierClass("x") == "identifier"
  {
    assert "print" !in Keywords && "x" !in Keywords;
    assert BaseFunctions[16] == "print";
    NotInFirstGroups();
    NotInMiddleGroups();
    NotInLastGroups();
  }

  /** The source `print(x)` followed by a newline. */
  predicate IsPrintCall(s: string)
  {
    |s| == 9 && s[0] == 'p' && s[1] == 'r' && s[2] == 'i' && s[3] == 'n' && s[4] == 't'
    && s[5] == '(' && s[6] == 'x' && s[7] == ')' && s[8] == '\n'
  }

  lemma PrintClosing(s: string)
    requires IsPrintCall(s)
    ensures LexFrom(s, 7) == Ok([Token(Misc, ")"), Token(Whitespace, "\n")])
  {
    assert LexFrom(s, 8) == Ok([Token(Whitespace, "\n")]) by {
      assert LexFrom(s, 9) == Ok([]);
      WhitespaceStep(s, 8);
      assert [Token(Whitespace, "\n")] + [] == [Token(Whitespace, "\n")];
    }
    MiscStep(s, 7);
    assert [Token(Misc, ")")] + [Token(Whitespace, "\n")] == [Token(Misc, ")"), Token(Whitespace, "\n")];
  }

  lemma PrintArgumentName(s: string)
    requires IsPrintCall(s)
    ensures IdentEnd(s, 7) == 7 && s[6..7] == "x"
  {
  }

  lemma PrintArgument(s: string)
    requires IsPrintCall(s)
    ensures LexFrom(s, 6) == Ok([Token(Identifier, "x"), Token(Misc, ")"), Token(Whitespace, "\n")])
  {
    PrintClosing(s);
    PrintArgumentName(s);
    IdentifierStep(s, 6, 7);
    assert [Token(Identifier, "x")] + [Token(Misc, ")"), Token(Whitespace, "\n")]
      == [Token(Identifier, "x"), Token(Misc, ")"), Token(Whitespace, "\n")];
  }

  lemma PrintArguments(s: string)
    requires IsPrintCall(s)
    ensures LexFrom(s, 5) == Ok([Token(Misc, "("), Token(Identifier, "x"), Token(Misc, ")"), Token(Whitespace, "\n")])
  {
    PrintArgument(s);
    MiscStep(s, 5);
    assert [Token(Misc, "(")] + [Token(Identifier, "x"), Token(Misc, ")"), Token(Whitespace, "\n")]
      == [Token(Misc, "("), Token(Identifier, "x"), Token(Misc, ")"), Token(Whitespace, "\n")];
  }

  lemma PrintName(s: string)
    requires IsPrintCall(s)
    ensures IdentEnd(s, 1) == 5 && s[0..5] == "print"
  {
    assert IdentEnd(s, 5) == 5;
    assert IdentEnd(s, 4) == 5;
    assert IdentEnd(s, 3) == 5;
    assert IdentEnd(s, 2) == 5;
  }

  lemma PrintHead(s: string)
    requires IsPrintCall(s)
    ensures LexFrom(s, 0) == Prepend([Token(Identifier, "print")], LexFrom(s, 5))
  {
    PrintName(s);
    IdentifierStep(s, 0, 5);
  }

  lemma PrintCallTokens(s: string)
    requires IsPrintCall(s)
    ensures LexFrom(s, 0) == Ok([Token(Identifier, "print"), Token(Misc, "("), Token(Identifier, "x"),
                                 Token(Misc, ")"), Token(Whitespace, "\n")])
  {
    PrintArguments(s);
    PrintHead(s);
    assert [Token(Identifier, "print")] + [Token(Misc, "("), Token(Identifier, "x"), Token(Misc, ")"), Token(Whitespace, "\n")]
      == [Token(Identifier, "print"), Token(Misc, "("), Token(Identifier, "x"), Token(Misc, ")"), Token(Whitespace, "\n")];
  }

  lemma PrintTokens()
    ensures Lex("print(x)\n") == Ok([Token(Identifier, "print"), Token(Misc, "("), Token(Identifier, "x"),
                                     Token(Misc, ")"), Token(Whitespace, "\n")])
  {
    PrintCallTokens("print(x)\n");
  }

  lemma StepNewline(b: LineBuffer)
    ensures Step(b, Token(Whitespace, "\n")) == LineBuffer(b.emitted + [b.current], "")
  {
  }

  lemma StepSymbol(b: LineBuffer, t: Token)
    requires t.kind == Misc || t.kind == Operator
    ensures Step(b, t) == LineBuffer(b.emitted, b.current + Span(KindName(t.kind), Escape(t.text)))
  {
  }

  const PrintLine := Span("library", "print") + Span("misc", "(") + Span("identifier", "x") + Span("misc", ")")

  const PrintTokenList := [Token(Identifier, "print"), Token(Misc, "("), Token(Identifier, "x"),
                            Token(Misc, ")"), Token(Whitespace, "\n")]

  const PrintBuffers := [
    LineBuffer([], ""),
    LineBuffer([], Span("library", "print")),
    LineBuffer([], Span("library", "print") + Span("misc", "(")),
    LineBuffer([], Span("library", "print") + Span("misc", "(") + Span("identifier", "x")),
    LineBuffer([], PrintLine),
    LineBuffer([PrintLine], "")]

  lemma EmptyPrefix(x: string)
    ensures "" + x == x
  {
  }

  /** An identifier whose class is `cls` and which needs no escaping. */
  lemma NameStep(b: LineBuffer, name: string, cls: string)
    requires IdentifierClass(name) == cls && Escape(name) == name
    ensures Step(b, Token(Identifier, name)) == LineBuffer(b.emitted, b.current + Span(cls, name))
  {
  }

  lemma PrintIsLibrary()
    ensures IdentifierClass("print") == "library"
  {
    LibraryFacts();
  }

  lemma PrintIsPlain()
    ensures Escape("print") == "print"
  {
    PlainText("print");
  }

  lemma PrintNameToken()
    ensures Step(LineBuffer([], ""), Token(Identifier, "print")) == LineBuffer([], Span("library", "print"))
  {
    PrintIsLibrary();
    PrintIsPlain();
    NameStep(LineBuffer([], ""), "print", "library");
    EmptyPrefix(Span("library", "print"));
  }

  lemma PrintNameStep()
    ensures Step(PrintBuffers[0], PrintTokenList[0]) == PrintBuffers[1]
  {
    PrintNameToken();
  }

  lemma ArgumentStep()
    ensures Step(PrintBuffers[2], PrintTokenList[2]) == PrintBuffers[3]
  {
    var b := PrintBuffers[2];
    assert Step(b, Token(Identifier, "x")) == LineBuffer([], b.current + Span("identifier", "x")) by {
      LibraryFacts();
      PlainText("x");
      NameStep(b, "x", "identifier");
    }
  }

  lemma PrintSymbolSteps()
    ensures Step(PrintBuffers[1], PrintTokenList[1]) == PrintBuffers[2]
    ensures Step(PrintBuffers[3], PrintTokenList[3]) == PrintBuffers[4]
    ensures Step(PrintBuffers[4], PrintTokenList[4]) == PrintBuffers[5]
  {
    PlainText("(");
    PlainText(")");
    StepSymbol(PrintBuffers[1], PrintTokenList[1]);
    StepSymbol(PrintBuffers[3], PrintTokenList[3]);
    StepNewline(PrintBuffers[4]);
  }

  lemma {:induction false} PrintRenderFrom(i: nat)
    requires i <= 5
    ensures RenderFrom(PrintBuffers[i], PrintTokenList[i..]) == PrintBuffers[5]
    decreases 5 - i
  {
    if i < 5 {
      PrintNameStep();
      ArgumentStep();
      PrintSymbolSteps();
      PrintRenderFrom(i + 1);
      assert PrintTokenList[i..][1..] == PrintTokenList[i + 1..];
    }
  }

  lemma PrintTokensRendering()
    ensures RenderTokens(PrintTokenList) == [PrintLine]
  {
    PrintRenderFrom(0);
  }

  /**
   * `print` is a library name, `x` a plain identifier, and the newline
   * yields the one line built so far.
   */
  lemma PrintCallRendering()
    ensures Render("print(x)\n") == Ok([PrintLine])
  {
    PrintTokens();
    PrintTokensRendering();
    assert Lex("print(x)\n") == Ok(PrintTokenList);
  }

  const CommentSource := "--[[\nfoo\nbar\n]]"

  lemma CommentSourceIsOneToken()
    ensures Lex(CommentSource) == Ok([Token(BlockComment, CommentSource)])
  {
    var s := CommentSource;
    assert StartsWith(s, 0, "--[[") by { assert s[0..4] == "--[["; }
    assert StartsWith(s, 13, "]]") by { assert s[13..15] == "]]"; }
    assert StartsWith(s, 0, "--");
    DoubleDashIsComment(s, 0);
    var e := MatchBlockComment(s, 0).value;
    assert e == 15;
    RuleKinds();
    LexStep(s, 0, 0, 15);
    assert LexFrom(s, 15) == Ok([]);
    assert s[0..15] == s;
    assert [Token(BlockComment, s)] + [] == [Token(BlockComment, s)];
  }

  lemma CommentSourceLines()
    ensures SplitLines(CommentSource) == ["--[[", "foo", "bar", "]]"]
  {
    var lines := ["--[[", "foo", "bar", "]]"];
    assert JoinLines(lines[3..]) == "]]";
    assert JoinLines(lines[2..]) == "bar\n]]";
    assert JoinLines(lines[1..]) == "foo\nbar\n]]";
    assert JoinLines(lines) == CommentSource;
    assert forall i :: 0 <= i < |lines| ==> NoLineBreak(lines[i]);
    SplitJoinRoundTrip(lines);
  }

  lemma StepBlockComment(b: LineBuffer, text: string)
    requires |SplitLines(text)| > 1
    ensures Step(b, Token(BlockComment, text)) == SpreadComment(b, SplitLines(text))
  {
  }

  lemma SpreadFourLines(p0: string, p1: string, p2: string, p3: string)
    ensures SpreadComment(LineBuffer([], ""), [p0, p1, p2, p3])
      == LineBuffer([CommentLine(p0), CommentLine(p1), CommentLine(p2)], CommentLine(p3))
  {
    assert [p0, p1, p2, p3][1..3] == [p1, p2];
    assert CommentLines([p1, p2]) == [CommentLine(p1), CommentLine(p2)];
    assert "" + CommentLine(p0) == CommentLine(p0);
  }

  lemma CommentStep()
    ensures Step(LineBuffer([], ""), Token(BlockComment, CommentSource))
      == LineBuffer([CommentLine("--[["), CommentLine("foo"), CommentLine("bar")], CommentLine("]]"))
  {
    CommentSourceLines();
    StepBlockComment(LineBuffer([], ""), CommentSource);
    SpreadFourLines("--[[", "foo", "bar", "]]");
  }

  /**
   * A block comment over four lines with nothing after it: its first three
   * lines are yielded, and its last line, the one holding `]]`, stays in
   * the buffer and is never yielded.
   */
  lemma TrailingCommentLineDropped()
    ensures Render(CommentSource) == Ok([CommentLine("--[["), CommentLine("foo"), CommentLine("bar")])
  {
    CommentSourceIsOneToken();
    CommentStep();
    var b := LineBuffer([CommentLine("--[["), CommentLine("foo"), CommentLine("bar")], CommentLine("]]"));
    assert RenderFrom(b, []) == b;
    assert RenderFrom(LineBuffer([], ""), [Token(BlockComment, CommentSource)]) == b;
  }
}
