/**
 * The Lua tokenizer of the syntax highlighter (scripts/syntaxhighlight.py).
 *
 * At each position nine anchored matchers are tried in a fixed order and the
 * first that matches decides the token; inside the symbol tables the first
 * listed symbol that matches is taken, not the longest. The matchers are the
 * Python regular expressions of the source written out as prefix scanners.
 */
module LuaLexer {
  import opened Wrappers

  // ---------------------------------------------------------------------------
  // The tables

  const Keywords: seq<string> := [
    "break", "do", "else", "elseif", "end", "false", "for", "function", "if", "in",
    "local", "nil", "not", "or", "repeat", "return", "then", "true", "until", "while",
    "not", "and", "or"]

  const WhitespaceSymbols: seq<string> := ["\t", "\n", " "]

  const Operators: seq<string> := [
    "+", "-", "*", "/", "^", "%", "..", ".", "<", "<=", ">", ">=", "==", "~=", "-", "#", "="]

  const MiscSymbols: seq<string> := ["...", ",", ":", ";", "[", "]", "{", "}", "(", ")"]

  /** The library names, in the source's order, group by group. */
  const StandardLibrary: seq<string> :=
    BaseFunctions + CoroutineLibrary + DebugLibrary + IoLibrary + MathLibrary
    + OsLibrary + PackageLibrary + StringLibrary + TableLibrary

  const BaseFunctions: seq<string> := [
    "_G", "_VERSION", "assert", "collectgarbage", "dofile", "error", "getfenv",
    "getmetatable", "ipairs", "load", "loadfile", "loadstring", "module", "next",
    "pairs", "pcall", "print", "rawequal", "rawget", "rawset", "require", "select",
    "setfenv", "setmetatable", "tonumber", "tostring", "type", "unpack", "xpcall"]

  const CoroutineLibrary: seq<string> := [
    "coroutine.create", "coroutine.resume", "coroutine.running", "coroutine.status",
    "coroutine.wrap", "coroutine.yield"]

  const DebugLibrary: seq<string> := [
    "debug.debug", "debug.getfenv", "debug.gethook", "debug.getinfo", "debug.getlocal",
    "debug.getmetatable", "debug.getregistry", "debug.getupvalue", "debug.setfenv",
    "debug.sethook", "debug.setlocal", "debug.setmetatable", "debug.setupvalue",
    "debug.traceback"]

  const IoLibrary: seq<string> := [
    "io.close", "io.flush", "io.input", "io.lines", "io.open", "io.output", "io.popen",
    "io.read", "io.stderr", "io.stdin", "io.stdout", "io.tmpfile", "io.type", "io.write"]

  const MathLibrary: seq<string> := [
    "math.abs", "math.acos", "math.asin", "math.atan", "math.atan2", "math.ceil",
    "math.cos", "math.cosh", "math.deg", "math.exp", "math.floor", "math.fmod",
    "math.frexp", "math.huge", "math.ldexp", "math.log", "math.log10", "math.max",
    "math.min", "math.modf", "math.pi", "math.pow", "math.rad", "math.random",
    "math.randomseed", "math.sin", "math.sinh", "math.sqrt", "math.tan", "math.tanh"]

  const OsLibrary: seq<string> := [
    "os.clock", "os.date", "os.difftime", "os.execute", "os.exit", "os.getenv",
    "os.remove", "os.rename", "os.setlocale", "os.time", "os.tmpname"]

  const PackageLibrary: seq<string> := [
    "package.cpath", "package.loaded", "package.loaders", "package.loadlib",
    "package.path", "package.preload", "package.seeall"]

  const StringLibrary: seq<string> := [
    "string.byte", "string.char", "string.dump", "string.find", "string.format",
    "string.gmatch", "string.gsub", "string.len", "string.lower", "string.match",
    "string.rep", "string.reverse", "string.sub", "string.upper"]

  const TableLibrary: seq<string> := [
    "table.concat", "table.insert", "table.maxn", "table.remove", "table.sort"]

  /** The token kinds; both quoted-string rules yield `String`. */
  datatype Kind = BlockComment | Comment | String | Whitespace | Misc | Operator | Number | Identifier

  /** The kind's name as the tokenizer reports it, used as the CSS class. */
  function KindName(k: Kind): string
  {
    match k
    case BlockComment => "blockcomment"
    case Comment => "comment"
    case String => "string"
    case Whitespace => "whitespace"
    case Misc => "misc"
    case Operator => "operator"
    case Number => "number"
    case Identifier => "identifier"
  }

  datatype Rule =
    | BlockCommentRule | CommentRule | DoubleQuotedRule | SingleQuotedRule
    | WhitespaceRule | MiscRule | OperatorRule | NumberRule | IdentifierRule

  /** `tokenTypes`: the order in which the matchers are tried. */
  const TokenTypes: seq<Rule> := [
    BlockCommentRule, CommentRule, DoubleQuotedRule, SingleQuotedRule,
    WhitespaceRule, MiscRule, OperatorRule, NumberRule, IdentifierRule]

  function RuleKind(r: Rule): Kind
  {
    match r
    case BlockCommentRule => BlockComment
    case CommentRule => Comment
    case DoubleQuotedRule => String
    case SingleQuotedRule => String
    case WhitespaceRule => Whitespace
    case MiscRule => Misc
    case OperatorRule => Operator
    case NumberRule => Number
    case IdentifierRule => Identifier
  }

  datatype Token = Token(kind: Kind, text: string)

  /** The failure: the offset and at most 50 characters of source from there. */
  datatype LexError = LexError(pos: nat, context: string)

  // ---------------------------------------------------------------------------
  // Character classes

  predicate IsDigit(c: char) { '0' <= c <= '9' }

  predicate IsLetter(c: char) { 'a' <= c <= 'z' || 'A' <= c <= 'Z' }

  predicate IsIdentStart(c: char) { IsLetter(c) || c == '_' }

  predicate IsIdentPart(c: char) { IsLetter(c) || IsDigit(c) || c == '_' || c == '.' }

  /** `\s` of Python 2's `re` on byte strings. */
  predicate IsRegexSpace(c: char)
  {
    c == ' ' || c == '\t' || c == '\n' || c == '\r' || c == '\U{C}' || c == '\U{B}'
  }

  predicate StartsWith(s: string, pos: nat, p: string)
  {
    pos + |p| <= |s| && s[pos..pos + |p|] == p
  }

  // ---------------------------------------------------------------------------
  // Matchers: each returns the end of the match anchored at `pos`

  /** The largest `k + 2` with `lo <= k <= j` and "]]" at `k`. */
  function LastClose(s: string, lo: nat, j: int): (r: Option<nat>)
    ensures r.Some? ==> lo + 2 <= r.value <= j + 2 && StartsWith(s, r.value - 2, "]]")
    ensures r.Some? ==> forall k :: r.value - 2 < k <= j ==> !StartsWith(s, k, "]]")
    ensures r.None? ==> forall k :: lo <= k <= j ==> !StartsWith(s, k, "]]")
    decreases j
  {
    if j < lo then None
    else if StartsWith(s, j, "]]") then Some(j + 2)
    else LastClose(s, lo, j - 1)
  }

  /**
   * `--\[\[.*\]\]` with DOTALL: the greedy `.*` runs to the LAST "]]" of the
   * source that starts after the opening "--[[", across any newlines.
   */
  function MatchBlockComment(s: string, pos: nat): (r: Option<nat>)
    requires pos <= |s|
    ensures r.Some? <==> StartsWith(s, pos, "--[[") && exists k :: pos + 4 <= k && StartsWith(s, k, "]]")
    ensures r.Some? ==> pos + 6 <= r.value <= |s| && StartsWith(s, r.value - 2, "]]")
    ensures r.Some? ==> forall k :: r.value - 2 < k ==> !StartsWith(s, k, "]]")
  {
    if StartsWith(s, pos, "--[[") then LastClose(s, pos + 4, |s| - 2) else None
  }

  /** The first index at or after `i` that holds a newline, or `|s|`. */
  function NextNewline(s: string, i: nat): (e: nat)
    requires i <= |s|
    ensures i <= e <= |s| && (e == |s| || s[e] == '\n')
    ensures forall k :: i <= k < e ==> s[k] != '\n'
    decreases |s| - i
  {
    if i == |s| || s[i] == '\n' then i else NextNewline(s, i + 1)
  }

  /** `--.*`: `.` does not match a newline, so the comment stops before it. */
  function MatchComment(s: string, pos: nat): (r: Option<nat>)
    requires pos <= |s|
    ensures r.Some? <==> StartsWith(s, pos, "--")
    ensures r.Some? ==> pos + 2 <= r.value <= |s| && (r.value == |s| || s[r.value] == '\n')
    ensures r.Some? ==> forall k :: pos + 2 <= k < r.value ==> s[k] != '\n'
  {
    if StartsWith(s, pos, "--") then Some(NextNewline(s, pos + 2)) else None
  }

  /** The end of the maximal run of `\s` characters from `i`. */
  function SkipSpace(s: string, i: nat): (e: nat)
    requires i <= |s|
    ensures i <= e <= |s| && (e == |s| || !IsRegexSpace(s[e]))
    ensures forall k :: i <= k < e ==> IsRegexSpace(s[k])
    decreases |s| - i
  {
    if i < |s| && IsRegexSpace(s[i]) then SkipSpace(s, i + 1) else i
  }

  /** `.*?q`: the first quote `q` on the same line, just past it. */
  function CloseOnLine(s: string, i: nat, q: char): (r: Option<nat>)
    requires i <= |s|
    ensures r.Some? ==> i < r.value <= |s| && s[r.value - 1] == q
    ensures r.Some? ==> forall k :: i <= k < r.value - 1 ==> s[k] != q && s[k] != '\n'
    decreases |s| - i
  {
    if i == |s| || s[i] == '\n' then None
    else if s[i] == q then Some(i + 1)
    else CloseOnLine(s, i + 1, q)
  }

  /**
   * `([^q\\]|\\.)*?q`: characters other than the quote and the backslash
   * (newlines included), or a backslash and any character but a newline, up
   * to the first unescaped quote.
   */
  function CloseEscaped(s: string, i: nat, q: char): (r: Option<nat>)
    requires i <= |s|
    ensures r.Some? ==> i < r.value <= |s| && s[r.value - 1] == q
    decreases |s| - i
  {
    if i == |s| then None
    else if s[i] == q then Some(i + 1)
    else if s[i] == '\\' then
      (if i + 1 < |s| && s[i + 1] != '\n' then CloseEscaped(s, i + 2, q) else None)
    else CloseEscaped(s, i + 1, q)
  }

  /**
   * `(@\s*q.*?q)|(q([^q\\]|\\.)*?q)`: a verbatim string `@"..."` that stays on
   * one line, or a quoted string with backslash escapes.
   */
  function MatchQuoted(s: string, pos: nat, q: char): (r: Option<nat>)
    requires pos <= |s| && q != '@'
    ensures r.Some? ==> pos < r.value <= |s| && pos < |s| && (s[pos] == q || s[pos] == '@') && s[r.value - 1] == q
    ensures pos < |s| && s[pos] != q && s[pos] != '@' ==> r.None?
  {
    if pos < |s| && s[pos] == '@' then
      var i := SkipSpace(s, pos + 1);
      if i < |s| && s[i] == q then CloseOnLine(s, i + 1, q) else None
    else if pos < |s| && s[pos] == q then CloseEscaped(s, pos + 1, q)
    else None
  }

  /** The index of the first listed symbol that starts at `pos`, from index `k` on. */
  function FirstSymbol(symbols: seq<string>, s: string, pos: nat, k: nat := 0): (r: Option<nat>)
    requires k <= |symbols|
    ensures r.Some? ==> k <= r.value < |symbols| && StartsWith(s, pos, symbols[r.value])
    ensures r.Some? ==> forall j :: k <= j < r.value ==> !StartsWith(s, pos, symbols[j])
    ensures r.None? ==> forall j :: k <= j < |symbols| ==> !StartsWith(s, pos, symbols[j])
    decreases |symbols| - k
  {
    if k == |symbols| then None
    else if StartsWith(s, pos, symbols[k]) then Some(k)
    else FirstSymbol(symbols, s, pos, k + 1)
  }

  /** An alternation of escaped literal symbols: the first listed one that matches. */
  function MatchSymbols(symbols: seq<string>, s: string, pos: nat): (r: Option<nat>)
    requires pos <= |s|
    requires forall k :: 0 <= k < |symbols| ==> symbols[k] != []
    ensures r.Some? ==> pos < r.value <= |s|
  {
    match FirstSymbol(symbols, s, pos)
    case None => None
    case Some(k) => Some(pos + |symbols[k]|)
  }

  /** The end of the maximal run of characters satisfying `IsDigit` from `i`. */
  function DigitsEnd(s: string, i: nat): (e: nat)
    requires i <= |s|
    ensures i <= e <= |s| && (e == |s| || !IsDigit(s[e]))
    ensures forall k :: i <= k < e ==> IsDigit(s[k])
    decreases |s| - i
  {
    if i < |s| && IsDigit(s[i]) then DigitsEnd(s, i + 1) else i
  }

  /** The end of the maximal run of identifier characters (dots included) from `i`. */
  function IdentEnd(s: string, i: nat): (e: nat)
    requires i <= |s|
    ensures i <= e <= |s| && (e == |s| || !IsIdentPart(s[e]))
    ensures forall k :: i <= k < e ==> IsIdentPart(s[k])
    decreases |s| - i
  {
    if i < |s| && IsIdentPart(s[i]) then IdentEnd(s, i + 1) else i
  }

  /** `[0-9]+` */
  function MatchNumber(s: string, pos: nat): (r: Option<nat>)
    requires pos <= |s|
  {
    if pos < |s| && IsDigit(s[pos]) then Some(DigitsEnd(s, pos + 1)) else None
  }

  /** `[a-zA-Z_][a-zA-Z0-9_\.]*` */
  function MatchIdentifier(s: string, pos: nat): (r: Option<nat>)
    requires pos <= |s|
  {
    if pos < |s| && IsIdentStart(s[pos]) then Some(IdentEnd(s, pos + 1)) else None
  }

  /** The end of `rule`'s match at `pos`; every match consumes at least one character. */
  function MatchRule(rule: Rule, s: string, pos: nat): (r: Option<nat>)
    requires pos <= |s|
    ensures r.Some? ==> pos < r.value <= |s|
  {
    match rule
    case BlockCommentRule => MatchBlockComment(s, pos)
    case CommentRule => MatchComment(s, pos)
    case DoubleQuotedRule => MatchQuoted(s, pos, '"')
    case SingleQuotedRule => MatchQuoted(s, pos, '\'')
    case WhitespaceRule => MatchSymbols(WhitespaceSymbols, s, pos)
    case MiscRule => MatchSymbols(MiscSymbols, s, pos)
    case OperatorRule => MatchSymbols(Operators, s, pos)
    case NumberRule => MatchNumber(s, pos)
    case IdentifierRule => MatchIdentifier(s, pos)
  }

  /** The index in `TokenTypes`, from `k` on, of the first rule that matches at `pos`. */
  function FirstMatch(s: string, pos: nat, k: nat := 0): (r: Option<nat>)
    requires pos <= |s| && k <= |TokenTypes|
    ensures r.Some? ==> k <= r.value < |TokenTypes| && MatchRule(TokenTypes[r.value], s, pos).Some?
    ensures r.Some? ==> forall j :: k <= j < r.value ==> MatchRule(TokenTypes[j], s, pos).None?
    ensures r.None? ==> forall j :: k <= j < |TokenTypes| ==> MatchRule(TokenTypes[j], s, pos).None?
    decreases |TokenTypes| - k
  {
    if k == |TokenTypes| then None
    else if MatchRule(TokenTypes[k], s, pos).Some? then Some(k)
    else FirstMatch(s, pos, k + 1)
  }

  // ---------------------------------------------------------------------------
  // The tokenizer

  function Min(a: int, b: int): int { if a <= b then a else b }

  /** The error raised at `pos`: the offset and `src[pos:pos+50]`. */
  function ErrorAt(s: string, pos: nat): LexError
    requires pos <= |s|
  {
    LexError(pos, s[pos..Min(pos + 50, |s|)])
  }

  /** The tokens from `pos` to the end of `s`, or the first error. */
  function LexFrom(s: string, pos: nat): Result<seq<Token>, LexError>
    requires pos <= |s|
    decreases |s| - pos
  {
    if pos == |s| then Ok([])
    else match FirstMatch(s, pos)
      case None => Err(ErrorAt(s, pos))
      case Some(k) =>
        var e := MatchRule(TokenTypes[k], s, pos).value;
        match LexFrom(s, e)
        case Ok(rest) => Ok([Token(RuleKind(TokenTypes[k]), s[pos..e])] + rest)
        case Err(err) => Err(err)
  }

  function Lex(s: string): Result<seq<Token>, LexError>
  {
    LexFrom(s, 0)
  }

  function Prepend(tokens: seq<Token>, r: Result<seq<Token>, LexError>): Result<seq<Token>, LexError>
  {
    match r
    case Ok(rest) => Ok(tokens + rest)
    case Err(e) => Err(e)
  }

  /** The concatenated texts of `tokens`. */
  function Texts(tokens: seq<Token>): string
  {
    if tokens == [] then [] else tokens[0].text + Texts(tokens[1..])
  }

  /**
   * The inner loop of `LuaTokenizer.next`: the rules are tried in order and
   * the loop stops at the first that matches.
   */
  method TryRules(src: string, pos: nat) returns (found: Option<nat>)
    requires pos < |src|
    ensures found == FirstMatch(src, pos)
  {
    var k := 0;
    found := None;
    while k < |TokenTypes|
      invariant k <= |TokenTypes|
      invariant found.None? ==> FirstMatch(src, pos) == FirstMatch(src, pos, k)
      invariant found.Some? ==> FirstMatch(src, pos) == found
      decreases |TokenTypes| - k
    {
      if MatchRule(TokenTypes[k], src, pos).Some? {
        found := Some(k);
        break;
      }
      k := k + 1;
    }
  }

  /**
   * `LuaTokenizer.next`: the cursor starts at 0; at each position the first
   * rule that matches yields its token and the cursor moves to the end of the
   * match; a position where nothing matches raises.
   */
  method Tokenize(src: string) returns (r: Result<seq<Token>, LexError>)
    ensures r == Lex(src)
    ensures r.Ok? ==> Texts(r.value) == src
    ensures r.Err? ==> r.error.pos < |src| && forall j :: 0 <= j < |TokenTypes| ==> MatchRule(TokenTypes[j], src, r.error.pos).None?
  {
    var pos := 0;
    var tokens: seq<Token> := [];
    if Lex(src).Ok? {
      assert tokens + Lex(src).value == Lex(src).value;
    }
    while pos < |src|
      invariant pos <= |src|
      invariant Lex(src) == Prepend(tokens, LexFrom(src, pos))
      decreases |src| - pos
    {
      var found := TryRules(src, pos);
      if found.None? {
        r := Err(ErrorAt(src, pos));
        LexErrorIsStuck(src);
        return;
      }
      var rule := TokenTypes[found.value];
      var end := MatchRule(rule, src, pos).value;
      NextTokens(src, pos, tokens);
      tokens := tokens + [Token(RuleKind(rule), src[pos..end])];
      pos := end;
    }
    assert tokens + [] == tokens;
    r := Ok(tokens);
    LexCoversSource(src, tokens);
  }

  /** One step of the cursor, as the loop of `Tokenize` takes it. */
  lemma NextTokens(s: string, pos: nat, tokens: seq<Token>)
    requires pos < |s| && FirstMatch(s, pos).Some?
    ensures var rule := TokenTypes[FirstMatch(s, pos).value];
      var e := MatchRule(rule, s, pos).value;
      Prepend(tokens, LexFrom(s, pos)) == Prepend(tokens + [Token(RuleKind(rule), s[pos..e])], LexFrom(s, e))
  {
    var rule := TokenTypes[FirstMatch(s, pos).value];
    var e := MatchRule(rule, s, pos).value;
    if LexFrom(s, e).Ok? {
      var rest := LexFrom(s, e).value;
      assert tokens + ([Token(RuleKind(rule), s[pos..e])] + rest) == tokens + [Token(RuleKind(rule), s[pos..e])] + rest;
    }
  }

  // ---------------------------------------------------------------------------
  // Properties of the tokenizer

  lemma {:induction false} TextsAppend(a: seq<Token>, b: seq<Token>)
    ensures Texts(a + b) == Texts(a) + Texts(b)
  {
    if a == [] {
      assert a + b == b;
    } else {
      assert (a + b)[1..] == a[1..] + b;
      TextsAppend(a[1..], b);
    }
  }

  lemma SuffixSplit(s: string, i: nat, j: nat)
    requires i <= j <= |s|
    ensures s[i..] == s[i..j] + s[j..]
  {
    var a, b := s[i..j], s[j..];
    assert |s[i..]| == |a + b|;
    forall k | 0 <= k < |s| - i ensures s[i..][k] == (a + b)[k] {
      if k < j - i { assert (a + b)[k] == a[k]; } else { assert (a + b)[k] == b[k - (j - i)]; }
    }
  }

  lemma TextsCons(head: Token, rest: seq<Token>)
    ensures Texts([head] + rest) == head.text + Texts(rest)
  {
    assert ([head] + rest)[1..] == rest;
  }

  /** A successful run from `pos < |s|` is its first token followed by a successful run from where it ends. */
  lemma LexFromOkStep(s: string, pos: nat) returns (head: Token, e: nat)
    requires pos < |s| && LexFrom(s, pos).Ok?
    ensures pos < e <= |s| && head.text == s[pos..e] && LexFrom(s, e).Ok?
    ensures LexFrom(s, pos).value == [head] + LexFrom(s, e).value
  {
    var k := FirstMatch(s, pos).value;
    e := MatchRule(TokenTypes[k], s, pos).value;
    head := Token(RuleKind(TokenTypes[k]), s[pos..e]);
  }

  lemma {:induction false} LexFromCovers(s: string, pos: nat)
    requires pos <= |s| && LexFrom(s, pos).Ok?
    ensures Texts(LexFrom(s, pos).value) == s[pos..]
    ensures forall t :: t in LexFrom(s, pos).value ==> t.text != []
    decreases |s| - pos
  {
    if pos < |s| {
      var head, e := LexFromOkStep(s, pos);
      LexFromCovers(s, e);
      var rest := LexFrom(s, e).value;
      TextsCons(head, rest);
      SuffixSplit(s, pos, e);
      assert forall t :: t in [head] + rest ==> t == head || t in rest;
    }
  }

  /** No gaps and no overlaps: the yielded texts concatenate to exactly the source. */
  lemma LexCoversSource(s: string, tokens: seq<Token>)
    requires Lex(s) == Ok(tokens)
    ensures Texts(tokens) == s
    ensures forall t :: t in tokens ==> t.text != []
  {
    LexFromCovers(s, 0);
    assert s[0..] == s;
  }

  lemma {:induction false} LexFromErrorIsStuck(s: string, pos: nat)
    requires pos <= |s| && LexFrom(s, pos).Err?
    ensures var e := LexFrom(s, pos).error;
      pos <= e.pos < |s| && e == ErrorAt(s, e.pos) && FirstMatch(s, e.pos).None?
    decreases |s| - pos
  {
    if FirstMatch(s, pos).Some? {
      var k := FirstMatch(s, pos).value;
      LexFromErrorIsStuck(s, MatchRule(TokenTypes[k], s, pos).value);
    }
  }

  /** A failure names a position inside the source where no rule matches, with `src[pos:pos+50]`. */
  lemma LexErrorIsStuck(s: string)
    requires Lex(s).Err?
    ensures var e := Lex(s).error;
      e.pos < |s| && e.context == s[e.pos..Min(e.pos + 50, |s|)] && |e.context| <= 50
      && forall j :: 0 <= j < |TokenTypes| ==> MatchRule(TokenTypes[j], s, e.pos).None?
  {
    LexFromErrorIsStuck(s, 0);
  }
}

/**
 * Which rule claims a token, decided from the characters at the cursor: the
 * priority order and the first-listed-symbol choice worked out per character.
 */
module LuaLexerRules {
  import opened Wrappers
  import opened LuaLexer

  predicate IsWhitespaceHead(c: char) { c == '\t' || c == '\n' || c == ' ' }

  predicate IsMiscHead(c: char)
  {
    c == '.' || c == ',' || c == ':' || c == ';' || c == '[' || c == ']' || c == '{' || c == '}' || c == '(' || c == ')'
  }

  predicate IsOperatorHead(c: char)
  {
    c == '+' || c == '-' || c == '*' || c == '/' || c == '^' || c == '%' || c == '.' || c == '<' || c == '>'
    || c == '=' || c == '~' || c == '#'
  }

  /** The characters a match of `rule` can begin with. */
  predicate MayStart(rule: Rule, c: char)
  {
    match rule
    case BlockCommentRule => c == '-'
    case CommentRule => c == '-'
    case DoubleQuotedRule => c == '"' || c == '@'
    case SingleQuotedRule => c == '\'' || c == '@'
    case WhitespaceRule => IsWhitespaceHead(c)
    case MiscRule => IsMiscHead(c)
    case OperatorRule => IsOperatorHead(c)
    case NumberRule => IsDigit(c)
    case IdentifierRule => IsIdentStart(c)
  }

  lemma StartsWithHead(s: string, pos: nat, p: string)
    requires p != [] && StartsWith(s, pos, p)
    ensures pos < |s| && s[pos] == p[0]
  {
    assert s[pos..pos + |p|][0] == s[pos];
  }

  lemma SymbolTableHeads()
    ensures forall j :: 0 <= j < |WhitespaceSymbols| ==> WhitespaceSymbols[j] != [] && IsWhitespaceHead(WhitespaceSymbols[j][0])
    ensures forall j :: 0 <= j < |MiscSymbols| ==> MiscSymbols[j] != [] && IsMiscHead(MiscSymbols[j][0])
    ensures forall j :: 0 <= j < |Operators| ==> Operators[j] != [] && IsOperatorHead(Operators[j][0])
  {
  }

  /** Every match begins with one of the rule's starting characters. */
  lemma MatchBeginsWith(rule: Rule, s: string, pos: nat)
    requires pos <= |s| && MatchRule(rule, s, pos).Some?
    ensures pos < |s| && MayStart(rule, s[pos])
  {
    SymbolTableHeads();
    match rule
    case BlockCommentRule => StartsWithHead(s, pos, "--[[");
    case CommentRule => StartsWithHead(s, pos, "--");
    case DoubleQuotedRule =>
    case SingleQuotedRule =>
    case WhitespaceRule =>
      var k := FirstSymbol(WhitespaceSymbols, s, pos).value;
      StartsWithHead(s, pos, WhitespaceSymbols[k]);
    case MiscRule =>
      var k := FirstSymbol(MiscSymbols, s, pos).value;
      StartsWithHead(s, pos, MiscSymbols[k]);
    case OperatorRule =>
      var k := FirstSymbol(Operators, s, pos).value;
      StartsWithHead(s, pos, Operators[k]);
    case NumberRule =>
    case IdentifierRule =>
  }

  /** A character no rule begins with stops the tokenizer where it stands. */
  lemma StrayCharacterFails(s: string, pos: nat)
    requires pos < |s| && forall j :: 0 <= j < |TokenTypes| ==> !MayStart(TokenTypes[j], s[pos])
    ensures FirstMatch(s, pos).None?
    ensures LexFrom(s, pos) == Err(ErrorAt(s, pos))
  {
    if FirstMatch(s, pos).Some? {
      MatchBeginsWith(TokenTypes[FirstMatch(s, pos).value], s, pos);
    }
  }

  /** A lone carriage return is not whitespace here and fails to lex. */
  lemma CarriageReturnFails(s: string, pos: nat)
    requires pos < |s| && s[pos] == '\r'
    ensures LexFrom(s, pos) == Err(ErrorAt(s, pos))
  {
    StrayCharacterFails(s, pos);
  }

  /** The rule at index `k` wins when it matches and no earlier rule can begin with the character. */
  lemma Wins(s: string, pos: nat, k: nat)
    requires pos < |s| && k < |TokenTypes| && MatchRule(TokenTypes[k], s, pos).Some?
    requires forall j :: 0 <= j < k ==> !MayStart(TokenTypes[j], s[pos])
    ensures FirstMatch(s, pos) == Some(k)
  {
    var r := FirstMatch(s, pos);
    if r.Some? && r.value < k {
      MatchBeginsWith(TokenTypes[r.value], s, pos);
    }
  }

  /** Letters and `_` start an identifier that runs over letters, digits, `_` and dots. */
  lemma IdentifierAtLetter(s: string, pos: nat)
    requires pos < |s| && IsIdentStart(s[pos])
    ensures FirstMatch(s, pos) == Some(8)
    ensures MatchRule(IdentifierRule, s, pos) == Some(IdentEnd(s, pos + 1))
  {
    Wins(s, pos, 8);
  }

  /** A digit starts a number that runs over the following digits. */
  lemma NumberAtDigit(s: string, pos: nat)
    requires pos < |s| && IsDigit(s[pos])
    ensures FirstMatch(s, pos) == Some(7)
    ensures MatchRule(NumberRule, s, pos) == Some(DigitsEnd(s, pos + 1))
  {
    Wins(s, pos, 7);
  }

  /** The first listed symbol is found when none listed before it begins with the same character. */
  lemma FirstSymbolByHead(symbols: seq<string>, s: string, pos: nat, k: nat)
    requires pos < |s| && k < |symbols| && StartsWith(s, pos, symbols[k])
    requires forall j :: 0 <= j < k ==> symbols[j] != [] && symbols[j][0] != s[pos]
    ensures FirstSymbol(symbols, s, pos) == Some(k)
  {
    var r := FirstSymbol(symbols, s, pos);
    if r.value < k {
      StartsWithHead(s, pos, symbols[r.value]);
    }
  }

  /** The symbol found is the first listed one that starts at `pos`. */
  lemma FirstSymbolIs(symbols: seq<string>, s: string, pos: nat, k: nat)
    requires k < |symbols| && StartsWith(s, pos, symbols[k])
    requires forall j :: 0 <= j < k ==> !StartsWith(s, pos, symbols[j])
    ensures FirstSymbol(symbols, s, pos) == Some(k)
  {
  }

  /** A one-character symbol is found when no symbol listed before it begins with that character. */
  lemma OneCharacterSymbol(symbols: seq<string>, s: string, pos: nat, k: nat)
    requires pos < |s| && k < |symbols| && symbols[k] == [s[pos]]
    requires forall j :: 0 <= j < k ==> symbols[j] != [] && symbols[j][0] != s[pos]
    ensures FirstSymbol(symbols, s, pos) == Some(k)
  {
    assert StartsWith(s, pos, symbols[k]) by { assert s[pos..pos + 1] == [s[pos]]; }
    FirstSymbolByHead(symbols, s, pos, k);
  }

  /** The symbol found decides the end of the match. */
  lemma SymbolMatchAt(symbols: seq<string>, s: string, pos: nat, k: nat)
    requires pos <= |s| && forall j :: 0 <= j < |symbols| ==> symbols[j] != []
    requires k < |symbols| && FirstSymbol(symbols, s, pos) == Some(k)
    ensures MatchSymbols(symbols, s, pos) == Some(pos + |symbols[k]|)
  {
  }

  lemma WhitespaceRuleMatch(s: string, pos: nat)
    requires pos <= |s|
    ensures MatchRule(WhitespaceRule, s, pos) == MatchSymbols(WhitespaceSymbols, s, pos)
  {
  }

  lemma MiscRuleMatch(s: string, pos: nat)
    requires pos <= |s|
    ensures MatchRule(MiscRule, s, pos) == MatchSymbols(MiscSymbols, s, pos)
  {
  }

  lemma OperatorRuleMatch(s: string, pos: nat)
    requires pos <= |s|
    ensures MatchRule(OperatorRule, s, pos) == MatchSymbols(Operators, s, pos)
  {
  }

  lemma WhitespaceTable()
    ensures forall j :: 0 <= j < |WhitespaceSymbols| ==> WhitespaceSymbols[j] != []
    ensures WhitespaceSymbols == [['\t'], ['\n'], [' ']]
  {
  }

  lemma WhitespaceBeginsNoEarlierRule(c: char)
    requires IsWhitespaceHead(c)
    ensures forall j :: 0 <= j < 4 ==> !MayStart(TokenTypes[j], c)
  {
  }

  lemma WhitespaceWins(s: string, pos: nat)
    requires pos < |s| && IsWhitespaceHead(s[pos]) && MatchRule(WhitespaceRule, s, pos).Some?
    ensures FirstMatch(s, pos) == Some(4)
  {
    assert MatchRule(TokenTypes[4], s, pos).Some? by { assert TokenTypes[4] == WhitespaceRule; }
    assert forall j :: 0 <= j < 4 ==> !MayStart(TokenTypes[j], s[pos]) by { WhitespaceBeginsNoEarlierRule(s[pos]); }
    Wins(s, pos, 4);
  }

  /** Tab, newline and space are one-character whitespace tokens. */
  lemma WhitespaceIsOneCharacter(s: string, pos: nat)
    requires pos < |s| && IsWhitespaceHead(s[pos])
    ensures FirstMatch(s, pos) == Some(4)
    ensures MatchRule(WhitespaceRule, s, pos) == Some(pos + 1)
  {
    assert MatchSymbols(WhitespaceSymbols, s, pos) == Some(pos + 1) by {
      var k := if s[pos] == '\t' then 0 else if s[pos] == '\n' then 1 else 2;
      WhitespaceTable();
      OneCharacterSymbol(WhitespaceSymbols, s, pos, k);
      SymbolMatchAt(WhitespaceSymbols, s, pos, k);
    }
    WhitespaceRuleMatch(s, pos);
    WhitespaceWins(s, pos);
  }

  lemma NoEarlierRuleBegins(c: char, k: nat)
    requires k <= 6 && IsOperatorHead(c) && c != '-' && c != '.'
    ensures forall j :: 0 <= j < k ==> !MayStart(TokenTypes[j], c)
  {
  }

  lemma OperatorHeadsBefore(c: char, k: nat)
    requires (c == '<' && k == 8) || (c == '>' && k == 10)
    ensures k < |Operators| && Operators[k] == [c]
    ensures forall j :: 0 <= j < k ==> Operators[j] != [] && Operators[j][0] != c
  {
  }

  lemma OperatorsNonEmpty()
    ensures forall j :: 0 <= j < |Operators| ==> Operators[j] != []
  {
  }

  lemma MiscNonEmpty()
    ensures forall j :: 0 <= j < |MiscSymbols| ==> MiscSymbols[j] != []
  {
  }

  /** The rule at index `k` wins when it matches and every earlier rule fails. */
  lemma FirstMatchIs(s: string, pos: nat, k: nat)
    requires pos <= |s| && k < |TokenTypes| && MatchRule(TokenTypes[k], s, pos).Some?
    requires forall j :: 0 <= j < k ==> MatchRule(TokenTypes[j], s, pos).None?
    ensures FirstMatch(s, pos) == Some(k)
  {
  }

  /** An operator character no earlier rule claims makes the operator rule win once it matches. */
  lemma OperatorWins(s: string, pos: nat)
    requires pos < |s| && IsOperatorHead(s[pos]) && s[pos] != '-' && s[pos] != '.'
    requires MatchRule(OperatorRule, s, pos).Some?
    ensures FirstMatch(s, pos) == Some(6)
  {
    NoEarlierRuleBegins(s[pos], 6);
    Wins(s, pos, 6);
  }

  /**
   * `<` and `>` are always one-character operators: `<=` and `>=` are listed
   * after them and can never be chosen.
   */
  lemma ComparisonIsOneCharacter(s: string, pos: nat)
    requires pos < |s| && (s[pos] == '<' || s[pos] == '>')
    ensures FirstMatch(s, pos) == Some(6)
    ensures MatchRule(OperatorRule, s, pos) == Some(pos + 1)
  {
    assert MatchSymbols(Operators, s, pos) == Some(pos + 1) by {
      var k := if s[pos] == '<' then 8 else 10;
      OperatorHeadsBefore(s[pos], k);
      OneCharacterSymbol(Operators, s, pos, k);
      OperatorsNonEmpty();
      SymbolMatchAt(Operators, s, pos, k);
    }
    OperatorRuleMatch(s, pos);
    OperatorWins(s, pos);
  }

  lemma EqualsHeads()
    ensures forall j :: 0 <= j < 16 && j != 12 ==> Operators[j] != [] && Operators[j][0] != '='
    ensures Operators[12] == "==" && Operators[16] == "="
  {
  }

  lemma EqualsFirstSymbol(s: string, pos: nat)
    requires pos < |s| && s[pos] == '=' && !StartsWith(s, pos, "==")
    ensures FirstSymbol(Operators, s, pos) == Some(16)
  {
    EqualsHeads();
    assert StartsWith(s, pos, Operators[16]) by { assert s[pos..pos + 1] == [s[pos]]; }
    forall j | 0 <= j < 16 ensures !StartsWith(s, pos, Operators[j]) {
      if j != 12 && StartsWith(s, pos, Operators[j]) {
        StartsWithHead(s, pos, Operators[j]);
      }
    }
    FirstSymbolIs(Operators, s, pos, 16);
  }

  /** A lone `=` is the last entry of the operator table: one character. */
  lemma SingleEqualsIsOperator(s: string, pos: nat)
    requires pos < |s| && s[pos] == '=' && !StartsWith(s, pos, "==")
    ensures FirstMatch(s, pos) == Some(6) && MatchRule(OperatorRule, s, pos) == Some(pos + 1)
  {
    EqualsFirstSymbol(s, pos);
    EqualsHeads();
    OperatorSymbolMatch(s, pos, 16);
    OperatorWins(s, pos);
  }

  lemma MiscBeginsNoEarlierRule(c: char)
    requires IsMiscHead(c) && c != '.'
    ensures forall j :: 0 <= j < 5 ==> !MayStart(TokenTypes[j], c)
  {
  }

  lemma MiscHeads()
    ensures MiscSymbols[0] == "..."
    ensures forall j :: 1 <= j < |MiscSymbols| ==> MiscSymbols[j] == [",:;[]{}()"[j - 1]]
  {
  }

  lemma MiscMatch(s: string, pos: nat, k: nat)
    requires pos <= |s| && k < |MiscSymbols| && FirstSymbol(MiscSymbols, s, pos) == Some(k)
    ensures MatchRule(MiscRule, s, pos) == Some(pos + |MiscSymbols[k]|)
  {
  }

  lemma MiscHeadsBefore(k: nat)
    requires 1 <= k < |MiscSymbols|
    ensures MiscSymbols[k] == [",:;[]{}()"[k - 1]]
    ensures forall j :: 0 <= j < k ==> MiscSymbols[j] != [] && MiscSymbols[j][0] != ",:;[]{}()"[k - 1]
  {
    MiscHeads();
  }

  lemma MiscSymbolAt(s: string, pos: nat, k: nat)
    requires pos < |s| && 1 <= k < |MiscSymbols| && s[pos] == ",:;[]{}()"[k - 1]
    ensures FirstSymbol(MiscSymbols, s, pos) == Some(k) && |MiscSymbols[k]| == 1
  {
    MiscHeadsBefore(k);
    OneCharacterSymbol(MiscSymbols, s, pos, k);
  }

  lemma OneCharacterMiscAt(s: string, pos: nat, k: nat)
    requires pos < |s| && 1 <= k < |MiscSymbols| && s[pos] == ",:;[]{}()"[k - 1]
    requires IsMiscHead(s[pos]) && s[pos] != '.'
    ensures FirstMatch(s, pos) == Some(5) && MatchRule(MiscRule, s, pos) == Some(pos + 1)
  {
    MiscSymbolAt(s, pos, k);
    MiscMatch(s, pos, k);
    MiscBeginsNoEarlierRule(s[pos]);
    Wins(s, pos, 5);
  }

  /** Each misc symbol other than `...` is a one-character token. */
  lemma OneCharacterMisc(s: string, pos: nat)
    requires pos < |s| && IsMiscHead(s[pos]) && s[pos] != '.'
    ensures FirstMatch(s, pos) == Some(5) && MatchRule(MiscRule, s, pos) == Some(pos + 1)
  {
    var c := s[pos];
    var k := if c == ',' then 1 else if c == ':' then 2 else if c == ';' then 3 else if c == '[' then 4
      else if c == ']' then 5 else if c == '{' then 6 else if c == '}' then 7 else if c == '(' then 8 else 9;
    OneCharacterMiscAt(s, pos, k);
  }

  lemma DotBeginsNoEarlierRule()
    ensures forall j :: 0 <= j < 5 ==> !MayStart(TokenTypes[j], '.')
  {
  }

  /** `...` is one misc token: misc is tried before the operators. */
  lemma TripleDotIsMisc(s: string, pos: nat)
    requires pos < |s| && StartsWith(s, pos, "...")
    ensures FirstMatch(s, pos) == Some(5) && MatchRule(MiscRule, s, pos) == Some(pos + 3)
  {
    StartsWithHead(s, pos, "...");
    FirstSymbolByHead(MiscSymbols, s, pos, 0);
    DotBeginsNoEarlierRule();
    Wins(s, pos, 5);
  }

  lemma NotMiscAtDot(s: string, pos: nat)
    requires pos < |s| && s[pos] == '.' && !StartsWith(s, pos, "...")
    ensures MatchRule(MiscRule, s, pos).None?
  {
    var r := FirstSymbol(MiscSymbols, s, pos);
    if r.Some? {
      StartsWithHead(s, pos, MiscSymbols[r.value]);
    }
  }

  /** `..` not followed by another dot is one operator token. */
  lemma DoubleDotIsOperator(s: string, pos: nat)
    requires pos < |s| && StartsWith(s, pos, "..") && !StartsWith(s, pos, "...")
    ensures FirstMatch(s, pos) == Some(6) && MatchRule(OperatorRule, s, pos) == Some(pos + 2)
  {
    DoubleDotSymbol(s, pos);
    DotBeatsEarlierRules(s, pos);
  }

  lemma DoubleDotSymbol(s: string, pos: nat)
    requires pos < |s| && StartsWith(s, pos, "..")
    ensures s[pos] == '.' && MatchRule(OperatorRule, s, pos) == Some(pos + 2)
  {
    DoubleDotFirst(s, pos);
    OperatorSymbolMatch(s, pos, 6);
    DoubleDotLength();
  }

  lemma DoubleDotFirst(s: string, pos: nat)
    requires pos < |s| && StartsWith(s, pos, "..")
    ensures s[pos] == '.' && FirstSymbol(Operators, s, pos) == Some(6)
  {
    DotHeads();
    StartsWithHead(s, pos, "..");
    FirstSymbolByHead(Operators, s, pos, 6);
  }

  lemma DoubleDotLength()
    ensures |Operators[6]| == 2
  {
    DotHeads();
  }

  lemma DotBeatsEarlierRules(s: string, pos: nat)
    requires pos < |s| && s[pos] == '.' && !StartsWith(s, pos, "...") && MatchRule(OperatorRule, s, pos).Some?
    ensures FirstMatch(s, pos) == Some(6)
  {
    assert forall j :: 0 <= j < 6 ==> MatchRule(TokenTypes[j], s, pos).None? by {
      NotMiscAtDot(s, pos);
      assert MatchRule(TokenTypes[5], s, pos).None? by { assert TokenTypes[5] == MiscRule; }
      forall j | 0 <= j < 5 ensures MatchRule(TokenTypes[j], s, pos).None? {
        DotBeginsNoEarlierRule();
        if MatchRule(TokenTypes[j], s, pos).Some? {
          MatchBeginsWith(TokenTypes[j], s, pos);
        }
      }
    }
    assert MatchRule(TokenTypes[6], s, pos).Some? by { assert TokenTypes[6] == OperatorRule; }
    FirstMatchIs(s, pos, 6);
  }

  lemma StartsWithPrefix(s: string, pos: nat, p: string, q: string)
    requires |p| <= |q| && q[..|p|] == p
    ensures StartsWith(s, pos, q) ==> StartsWith(s, pos, p)
  {
    if StartsWith(s, pos, q) { assert s[pos..pos + |q|][..|p|] == s[pos..pos + |p|]; }
  }

  lemma DotHeads()
    ensures forall j :: 0 <= j < 6 ==> Operators[j] != [] && Operators[j][0] != '.'
    ensures Operators[6] == ".." && Operators[7] == "."
  {
  }

  lemma DotFirstSymbol(s: string, pos: nat)
    requires pos < |s| && s[pos] == '.' && !StartsWith(s, pos, "..")
    ensures FirstSymbol(Operators, s, pos) == Some(7)
  {
    DotHeads();
    assert StartsWith(s, pos, Operators[7]) by { assert s[pos..pos + 1] == [s[pos]]; }
    forall j | 0 <= j < 7 ensures !StartsWith(s, pos, Operators[j]) {
      if j != 6 && StartsWith(s, pos, Operators[j]) {
        StartsWithHead(s, pos, Operators[j]);
      }
    }
    FirstSymbolIs(Operators, s, pos, 7);
  }

  /** The operator found decides where the operator rule's match ends. */
  lemma OperatorSymbolMatch(s: string, pos: nat, k: nat)
    requires pos <= |s| && k < |Operators| && FirstSymbol(Operators, s, pos) == Some(k)
    ensures MatchRule(OperatorRule, s, pos) == Some(pos + |Operators[k]|)
  {
    OperatorsNonEmpty();
    SymbolMatchAt(Operators, s, pos, k);
    OperatorRuleMatch(s, pos);
  }

  lemma SingleDotSymbol(s: string, pos: nat)
    requires pos < |s| && s[pos] == '.' && !StartsWith(s, pos, "..")
    ensures FirstSymbol(Operators, s, pos) == Some(7)
    ensures MatchRule(OperatorRule, s, pos) == Some(pos + 1)
  {
    DotFirstSymbol(s, pos);
    OperatorSymbolMatch(s, pos, 7);
    DotLength();
  }

  lemma DotLength()
    ensures |Operators[7]| == 1
  {
    DotHeads();
  }

  /** A dot not followed by another dot is a one-character operator. */
  lemma SingleDotIsOperator(s: string, pos: nat)
    requires pos < |s| && s[pos] == '.' && !StartsWith(s, pos, "..")
    ensures FirstMatch(s, pos) == Some(6) && MatchRule(OperatorRule, s, pos) == Some(pos + 1)
  {
    StartsWithPrefix(s, pos, "..", "...");
    SingleDotSymbol(s, pos);
    DotBeatsEarlierRules(s, pos);
  }

  lemma DashBeginsNoEarlierRule()
    ensures forall j :: 2 <= j < 6 ==> !MayStart(TokenTypes[j], '-')
  {
  }

  /**
   * `--` opens a block comment when `--[[` is followed somewhere by `]]` (the
   * comment then ends after the last `]]`); otherwise it is a line comment up
   * to the next newline.
   */
  lemma DoubleDashIsComment(s: string, pos: nat)
    requires pos < |s| && StartsWith(s, pos, "--")
    ensures MatchBlockComment(s, pos).Some? ==>
      FirstMatch(s, pos) == Some(0) && MatchRule(BlockCommentRule, s, pos) == MatchBlockComment(s, pos)
    ensures MatchBlockComment(s, pos).None? ==>
      FirstMatch(s, pos) == Some(1) && MatchRule(CommentRule, s, pos) == Some(NextNewline(s, pos + 2))
  {
  }

  lemma DashHeads()
    ensures Operators[0] != [] && Operators[0][0] != '-' && Operators[1] == "-"
  {
  }

  lemma DashNotComment(s: string, pos: nat)
    requires pos < |s| && s[pos] == '-' && !StartsWith(s, pos, "--")
    ensures MatchRule(TokenTypes[0], s, pos).None? && MatchRule(TokenTypes[1], s, pos).None?
  {
    StartsWithPrefix(s, pos, "--", "--[[");
  }

  lemma DashStartsNoMiddleRule(s: string, pos: nat)
    requires pos < |s| && s[pos] == '-'
    ensures forall j :: 2 <= j < 6 ==> MatchRule(TokenTypes[j], s, pos).None?
  {
    forall j | 2 <= j < 6 ensures MatchRule(TokenTypes[j], s, pos).None? {
      DashBeginsNoEarlierRule();
      if MatchRule(TokenTypes[j], s, pos).Some? {
        MatchBeginsWith(TokenTypes[j], s, pos);
      }
    }
  }

  lemma DashOperatorMatch(s: string, pos: nat)
    requires pos < |s| && s[pos] == '-'
    ensures MatchRule(OperatorRule, s, pos) == Some(pos + 1)
  {
    DashHeads();
    OneCharacterSymbol(Operators, s, pos, 1);
    OperatorSymbolMatch(s, pos, 1);
  }

  /** A single `-` is the minus operator. */
  lemma SingleDashIsOperator(s: string, pos: nat)
    requires pos < |s| && s[pos] == '-' && !StartsWith(s, pos, "--")
    ensures FirstMatch(s, pos) == Some(6) && MatchRule(OperatorRule, s, pos) == Some(pos + 1)
  {
    DashOperatorMatch(s, pos);
    DashNotComment(s, pos);
    DashStartsNoMiddleRule(s, pos);
    FirstMatchIs(s, pos, 6);
  }

  lemma QuoteBeginsNoOtherRule()
    ensures forall j :: 0 <= j < |TokenTypes| && j != 2 ==> !MayStart(TokenTypes[j], '"')
  {
  }

  /**
   * A double quote whose string never closes stops the tokenizer at the
   * quote's own offset.
   */
  lemma UnterminatedStringFails(s: string, pos: nat)
    requires pos < |s| && s[pos] == '"' && CloseEscaped(s, pos + 1, '"').None?
    ensures FirstMatch(s, pos).None?
    ensures LexFrom(s, pos) == Err(ErrorAt(s, pos))
  {
    QuoteBeginsNoOtherRule();
    var r := FirstMatch(s, pos);
    if r.Some? {
      MatchBeginsWith(TokenTypes[r.value], s, pos);
    }
  }

  // ---------------------------------------------------------------------------
  // Token shapes

  predicate AllDigits(t: string) { forall k :: 0 <= k < |t| ==> IsDigit(t[k]) }

  predicate IdentifierShaped(t: string)
  {
    t != [] && IsIdentStart(t[0]) && forall k :: 1 <= k < |t| ==> IsIdentPart(t[k])
  }

  /** What a token of each kind looks like. */
  predicate WellShaped(t: Token)
  {
    match t.kind
    case BlockComment => |t.text| >= 6 && t.text[..4] == "--[[" && t.text[|t.text| - 2..] == "]]"
    case Comment => |t.text| >= 2 && t.text[..2] == "--" && '\n' !in t.text
    case String => |t.text| >= 2 && t.text[0] in "\"'@" && t.text[|t.text| - 1] in "\"'"
    case Whitespace => t.text in WhitespaceSymbols
    case Misc => t.text in MiscSymbols
    case Operator => t.text in Operators
    case Number => t.text != [] && AllDigits(t.text)
    case Identifier => IdentifierShaped(t.text)
  }

  lemma SymbolShape(symbols: seq<string>, s: string, pos: nat)
    requires pos <= |s| && forall k :: 0 <= k < |symbols| ==> symbols[k] != []
    requires MatchSymbols(symbols, s, pos).Some?
    ensures s[pos..MatchSymbols(symbols, s, pos).value] in symbols
  {
    var k := FirstSymbol(symbols, s, pos).value;
    assert s[pos..pos + |symbols[k]|] == symbols[k];
  }

  lemma BlockCommentShape(s: string, pos: nat)
    requires pos <= |s| && MatchBlockComment(s, pos).Some?
    ensures WellShaped(Token(BlockComment, s[pos..MatchBlockComment(s, pos).value]))
  {
    var e := MatchBlockComment(s, pos).value;
    var t := s[pos..e];
    assert t[..4] == s[pos..pos + 4];
    assert t[|t| - 2..] == s[e - 2..e];
  }

  lemma CommentShape(s: string, pos: nat)
    requires pos <= |s| && MatchComment(s, pos).Some?
    ensures WellShaped(Token(Comment, s[pos..MatchComment(s, pos).value]))
  {
    var e := MatchComment(s, pos).value;
    var t := s[pos..e];
    assert t[..2] == s[pos..pos + 2];
    forall k | 0 <= k < |t| ensures t[k] != '\n' {
      assert t[k] == s[pos + k];
      if k < 2 { assert t[..2][k] == t[k]; }
    }
  }

  lemma QuotedShape(s: string, pos: nat, q: char)
    requires pos <= |s| && (q == '"' || q == '\'') && MatchQuoted(s, pos, q).Some?
    ensures WellShaped(Token(String, s[pos..MatchQuoted(s, pos, q).value]))
  {
    var e := MatchQuoted(s, pos, q).value;
    var t := s[pos..e];
    assert t[0] == s[pos] && t[|t| - 1] == s[e - 1];
  }

  lemma DigitsShape(s: string, pos: nat)
    requires pos <= |s| && MatchNumber(s, pos).Some?
    ensures WellShaped(Token(Number, s[pos..MatchNumber(s, pos).value]))
  {
    var t := s[pos..MatchNumber(s, pos).value];
    forall k | 0 <= k < |t| ensures IsDigit(t[k]) { assert t[k] == s[pos + k]; }
  }

  lemma IdentifierShape(s: string, pos: nat)
    requires pos <= |s| && MatchIdentifier(s, pos).Some?
    ensures WellShaped(Token(Identifier, s[pos..MatchIdentifier(s, pos).value]))
  {
    var t := s[pos..MatchIdentifier(s, pos).value];
    forall k | 1 <= k < |t| ensures IsIdentPart(t[k]) { assert t[k] == s[pos + k]; }
  }

  lemma WhitespaceShape(s: string, pos: nat)
    requires pos <= |s| && MatchRule(WhitespaceRule, s, pos).Some?
    ensures WellShaped(Token(Whitespace, s[pos..MatchRule(WhitespaceRule, s, pos).value]))
  {
    WhitespaceRuleMatch(s, pos);
    WhitespaceTable();
    SymbolShape(WhitespaceSymbols, s, pos);
  }

  lemma MiscShape(s: string, pos: nat)
    requires pos <= |s| && MatchRule(MiscRule, s, pos).Some?
    ensures WellShaped(Token(Misc, s[pos..MatchRule(MiscRule, s, pos).value]))
  {
    MiscRuleMatch(s, pos);
    MiscNonEmpty();
    SymbolShape(MiscSymbols, s, pos);
  }

  lemma OperatorShape(s: string, pos: nat)
    requires pos <= |s| && MatchRule(OperatorRule, s, pos).Some?
    ensures WellShaped(Token(Operator, s[pos..MatchRule(OperatorRule, s, pos).value]))
  {
    OperatorRuleMatch(s, pos);
    OperatorsNonEmpty();
    SymbolShape(Operators, s, pos);
  }

  /** The text a rule matches has the shape of its kind. */
  lemma MatchShape(rule: Rule, s: string, pos: nat)
    requires pos <= |s| && MatchRule(rule, s, pos).Some?
    ensures WellShaped(Token(RuleKind(rule), s[pos..MatchRule(rule, s, pos).value]))
  {
    match rule
    case BlockCommentRule => BlockCommentShape(s, pos);
    case CommentRule => CommentShape(s, pos);
    case DoubleQuotedRule => QuotedShape(s, pos, '"');
    case SingleQuotedRule => QuotedShape(s, pos, '\'');
    case WhitespaceRule => WhitespaceShape(s, pos);
    case MiscRule => MiscShape(s, pos);
    case OperatorRule => OperatorShape(s, pos);
    case NumberRule => DigitsShape(s, pos);
    case IdentifierRule => IdentifierShape(s, pos);
  }

  lemma {:induction false} LexFromWellShaped(s: string, pos: nat)
    requires pos <= |s| && LexFrom(s, pos).Ok?
    ensures forall t :: t in LexFrom(s, pos).value ==> WellShaped(t)
    decreases |s| - pos
  {
    if pos < |s| {
      var rule := TokenTypes[FirstMatch(s, pos).value];
      var e := MatchRule(rule, s, pos).value;
      MatchShape(rule, s, pos);
      LexFromWellShaped(s, e);
    }
  }

  /**
   * Every token has the shape of its kind: one-character whitespace, digit
   * runs, identifiers with dots, comments that start with `--`.
   */
  lemma LexTokensWellShaped(s: string)
    requires Lex(s).Ok?
    ensures forall t :: t in Lex(s).value ==> WellShaped(t)
  {
    LexFromWellShaped(s, 0);
  }
}
