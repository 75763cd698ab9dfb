/**
 * The counting core of the report generator: the anchor and line escapes,
 * the per-file tally of valid and visited lines, the choice of which line
 * records are written, and the running totals over all files.
 *
 * The XML documents are abstracted: a file of the valid-lines document is a
 * name with its set of valid line numbers, and the matching file of the
 * results document, when there is one, is the list of its visited line
 * numbers in document order.
 */
module Report {
  import opened Wrappers
  import opened Text
  import opened LuaLexer
  import opened LuaRender

  // ---------------------------------------------------------------------------
  // escape_anchor and myescape

  /** `escape_anchor`: `/`, then `\`, then `.` are each replaced by `_`. */
  function EscapeAnchor(s: string): string
  {
    Replace(Replace(Replace(s, '/', "_"), '\\', "_"), '.', "_")
  }

  predicate IsAnchorSeparator(c: char)
  {
    c == '/' || c == '\\' || c == '.'
  }

  /** The anchor keeps the length and changes exactly the separators, each into `_`. */
  lemma EscapeAnchorPerCharacter(s: string)
    ensures |EscapeAnchor(s)| == |s|
    ensures forall i :: 0 <= i < |s| ==>
      EscapeAnchor(s)[i] == if IsAnchorSeparator(s[i]) then '_' else s[i]
  {
    var r1 := Replace(s, '/', "_");
    var r2 := Replace(r1, '\\', "_");
    ReplaceByChar(s, '/', '_');
    ReplaceByChar(r1, '\\', '_');
    ReplaceByChar(r2, '.', '_');
  }

  /** No separator survives, so the anchor never contains a path or extension mark. */
  lemma EscapeAnchorHasNoSeparator(s: string)
    ensures forall i :: 0 <= i < |EscapeAnchor(s)| ==> !IsAnchorSeparator(EscapeAnchor(s)[i])
  {
    EscapeAnchorPerCharacter(s);
  }

  const TabNbsp := "&nbsp;&nbsp;&nbsp;&nbsp;"

  /** The space and tab replacements `myescape` applies after `escape`. */
  function Whiten(s: string): string
  {
    Replace(Replace(s, ' ', Nbsp), '\t', TabNbsp)
  }

  /** `myescape`: XML-escape, then each space becomes one `&nbsp;` and each tab four. */
  function MyEscape(s: string): string
  {
    Whiten(Escape(s))
  }

  /** What one character of a line becomes, the reference for `MyEscape`. */
  function MyEscapeChar(c: char): string
  {
    if c == ' ' then Nbsp else if c == '\t' then TabNbsp else EscapeChar(c)
  }

  function MyEscapeEach(s: string): string
  {
    if s == [] then [] else MyEscapeChar(s[0]) + MyEscapeEach(s[1..])
  }

  lemma WhitenAppend(a: string, b: string)
    ensures Whiten(a + b) == Whiten(a) + Whiten(b)
  {
    ReplaceAppend(a, b, ' ', Nbsp);
    ReplaceAppend(Replace(a, ' ', Nbsp), Replace(b, ' ', Nbsp), '\t', TabNbsp);
  }

  lemma WhitenChar(c: char)
    ensures Whiten(EscapeChar(c)) == MyEscapeChar(c)
  {
    var e := EscapeChar(c);
    if c == ' ' {
      ReplaceSingle(' ', ' ', Nbsp);
      ReplaceAbsent(Nbsp, '\t', TabNbsp);
    } else if c == '\t' {
      ReplaceSingle('\t', ' ', Nbsp);
      ReplaceSingle('\t', '\t', TabNbsp);
    } else if c == '&' || c == '<' || c == '>' {
      assert ' ' !in e && '\t' !in e;
      ReplaceAbsent(e, ' ', Nbsp);
      ReplaceAbsent(e, '\t', TabNbsp);
    } else {
      ReplaceSingle(c, ' ', Nbsp);
      ReplaceSingle(c, '\t', TabNbsp);
    }
  }

  lemma {:induction false} WhitenEscapeEach(s: string)
    ensures Whiten(EscapeEach(s)) == MyEscapeEach(s)
  {
    if s != [] {
      WhitenAppend(EscapeChar(s[0]), EscapeEach(s[1..]));
      WhitenChar(s[0]);
      WhitenEscapeEach(s[1..]);
    }
  }

  /** The chained replacements act on each character of the line independently. */
  lemma MyEscapeIsPerCharacter(s: string)
    ensures MyEscape(s) == MyEscapeEach(s)
  {
    EscapeIsPerCharacter(s);
    WhitenEscapeEach(s);
  }

  /** An escaped line has no space, tab or angle bracket left. */
  lemma MyEscapeIsClean(s: string)
    ensures ' ' !in MyEscape(s) && '\t' !in MyEscape(s)
    ensures '<' !in MyEscape(s) && '>' !in MyEscape(s)
  {
    var e := Escape(s);
    var w := Replace(e, ' ', Nbsp);
    EscapeHasNoAngles(s);
    ReplaceRemoves(e, ' ', Nbsp, ' ');
    ReplaceRemoves(w, '\t', TabNbsp, ' ');
    ReplaceRemoves(w, '\t', TabNbsp, '\t');
    ReplaceRemoves(e, ' ', Nbsp, '<');
    ReplaceRemoves(w, '\t', TabNbsp, '<');
    ReplaceRemoves(e, ' ', Nbsp, '>');
    ReplaceRemoves(w, '\t', TabNbsp, '>');
  }

  // ---------------------------------------------------------------------------
  // The inputs of one file

  datatype Options = Options(noSyntaxHighlighting: bool, headersOnly: bool)

  /**
   * One file of the valid-lines document: its name, its valid line numbers,
   * the visited line numbers of the matching results file (None when no
   * results file matches) and the text read from disk.
   */
  datatype SourceFile = SourceFile(name: string, validLines: set<int>, visited: Option<seq<int>>, code: string)

  /** `myescape` applied to every line. */
  function EscapeLines(lines: seq<string>): (r: seq<string>)
    ensures |r| == |lines|
    ensures forall i :: 0 <= i < |lines| ==> r[i] == MyEscape(lines[i])
  {
    if lines == [] then [] else [MyEscape(lines[0])] + EscapeLines(lines[1..])
  }

  /** The rendered lines: plain escaped lines, or the highlighter's lines or its error. */
  function SourceLines(code: string, opts: Options): Result<seq<string>, LexError>
  {
    if opts.noSyntaxHighlighting then Ok(EscapeLines(SplitLines(code))) else Render(code)
  }

  // ---------------------------------------------------------------------------
  // Counting lines

  /** The numbers 1..n that belong to `numbers`. */
  function Within(numbers: set<int>, n: nat): set<int>
  {
    set k | 1 <= k <= n && k in numbers
  }

  function Elements(s: seq<int>): set<int>
  {
    set x | x in s
  }

  lemma WithinStep(numbers: set<int>, n: nat)
    ensures Within(numbers, n + 1) == Within(numbers, n) + (if n + 1 in numbers then {n + 1} else {})
    ensures |Within(numbers, n + 1)| == |Within(numbers, n)| + (if n + 1 in numbers then 1 else 0)
  {
    assert n + 1 !in Within(numbers, n);
  }

  /** At most one count per line of the file. */
  lemma {:induction false} WithinBound(numbers: set<int>, n: nat)
    ensures |Within(numbers, n)| <= n
  {
    if n > 0 {
      WithinBound(numbers, n - 1);
      WithinStep(numbers, n - 1);
    }
  }

  /** Every line counts when all of 1..n are in the set. */
  lemma {:induction false} WithinAll(numbers: set<int>, n: nat)
    requires forall k :: 1 <= k <= n ==> k in numbers
    ensures |Within(numbers, n)| == n
  {
    if n > 0 {
      WithinAll(numbers, n - 1);
      WithinStep(numbers, n - 1);
    }
  }

  /** Numbers beyond the file's length, or below 1, are never counted. */
  lemma WithinIgnoresOutside(numbers: set<int>, extra: int, n: nat)
    requires extra < 1 || n < extra
    ensures Within(numbers + {extra}, n) == Within(numbers, n)
    ensures |Within(numbers + {extra}, n)| == |Within(numbers, n)|
  {
    assert forall k :: k in Within(numbers + {extra}, n) <==> k in Within(numbers, n);
  }

  /** `"%s" % flag` for a Python bool. */
  function PyBool(b: bool): string
  {
    if b then "True" else "False"
  }

  function DigitChar(d: nat): char
    requires d < 10
  {
    "0123456789"[d]
  }

  function DigitValue(c: char): nat
  {
    if '0' <= c <= '9' then (c - '0') as nat else 0
  }

  /** `"%d" % n` for a non-negative number. */
  function Decimal(n: nat): (r: string)
    ensures r != []
    ensures forall i :: 0 <= i < |r| ==> '0' <= r[i] <= '9'
  {
    if n < 10 then [DigitChar(n)] else Decimal(n / 10) + [DigitChar(n % 10)]
  }

  /** Reads a run of digits back as a number. */
  function DecimalValue(s: string): nat
  {
    if s == [] then 0 else DecimalValue(s[..|s| - 1]) * 10 + DigitValue(s[|s| - 1])
  }

  lemma DigitRoundTrip(d: nat)
    requires d < 10
    ensures DigitValue(DigitChar(d)) == d
  {
  }

  /** The number written in a line record reads back as the line number. */
  lemma {:induction false} DecimalRoundTrip(n: nat)
    ensures DecimalValue(Decimal(n)) == n
  {
    if n < 10 {
      DigitRoundTrip(n);
      assert [DigitChar(n)][..0] == [];
    } else {
      var r := Decimal(n);
      assert r[..|r| - 1] == Decimal(n / 10);
      DigitRoundTrip(n % 10);
      DecimalRoundTrip(n / 10);
    }
  }

  function RecordHead(no: nat, valid: bool, visited: bool): string
  {
    "  <Line no=\"" + Decimal(no) + "\" valid=\"" + PyBool(valid) + "\" visited=\"" + PyBool(visited) + "\""
  }

  /** One line record: self-closing for an empty line, otherwise the text after a tab. */
  function LineRecord(no: nat, valid: bool, visited: bool, text: string): string
  {
    RecordHead(no, valid, visited) + (if |text| > 0 then ">\t" + text + "</Line>" else "/>")
  }

  predicate EndsWith(s: string, suffix: string)
  {
    |suffix| <= |s| && s[|s| - |suffix|..] == suffix
  }

  lemma SuffixOfAppend(a: string, b: string)
    ensures EndsWith(a + b, b)
  {
    assert (a + b)[|a + b| - |b|..] == b;
  }

  /**
   * A record is self-closing exactly when the line is empty; a non-empty
   * line's record ends with a tab, the line and the closing tag.
   */
  lemma LineRecordShape(no: nat, valid: bool, visited: bool, text: string)
    ensures EndsWith(LineRecord(no, valid, visited, text), "/>") <==> text == []
    ensures text != [] ==> EndsWith(LineRecord(no, valid, visited, text), ">\t" + text + "</Line>")
  {
    var head := RecordHead(no, valid, visited);
    var r := LineRecord(no, valid, visited, text);
    if text == [] {
      SuffixOfAppend(head, "/>");
    } else {
      var tail := ">\t" + text + "</Line>";
      SuffixOfAppend(head, tail);
      assert r[|r| - 2] == tail[|tail| - 2] == 'e';
    }
  }

  /** The records of lines 1..|lines| in order. */
  function LineRecords(lines: seq<string>, validLines: set<int>, visited: seq<int>): (r: seq<string>)
    ensures |r| == |lines|
  {
    if lines == [] then []
    else
      var n := |lines|;
      LineRecords(lines[..n - 1], validLines, visited) + [LineRecord(n, n in validLines, n in visited, lines[n - 1])]
  }

  /** Record i is the record of line number i + 1 with its validity and visit flags. */
  lemma {:induction false} LineRecordsAt(lines: seq<string>, validLines: set<int>, visited: seq<int>, i: nat)
    requires i < |lines|
    ensures LineRecords(lines, validLines, visited)[i] == LineRecord(i + 1, i + 1 in validLines, i + 1 in visited, lines[i])
    decreases |lines|
  {
    var n := |lines|;
    if i < n - 1 {
      LineRecordsAt(lines[..n - 1], validLines, visited, i);
    }
  }

  lemma LineRecordsStep(lines: seq<string>, validLines: set<int>, visited: seq<int>, i: nat)
    requires i < |lines|
    ensures LineRecords(lines[..i + 1], validLines, visited)
      == LineRecords(lines[..i], validLines, visited) + [LineRecord(i + 1, i + 1 in validLines, i + 1 in visited, lines[i])]
  {
    assert lines[..i + 1][..i] == lines[..i];
  }

  /** The inner loop over the results file: whether any visited entry names the line. */
  method IsVisited(visited: seq<int>, number: int) returns (found: bool)
    ensures found <==> number in visited
  {
    found := false;
    var j := 0;
    while j < |visited|
      invariant j <= |visited|
      invariant found <==> number in visited[..j]
    {
      if visited[j] == number {
        found := true;
      }
      assert visited[..j + 1] == visited[..j] + [visited[j]];
      j := j + 1;
    }
    assert visited[..j] == visited;
  }

  /**
   * The per-line loop: counts the valid lines and the visited lines among
   * 1..|lines| and collects the line records unless only headers are wanted.
   */
  method TallyLines(lines: seq<string>, validLines: set<int>, visited: seq<int>, headersOnly: bool)
    returns (validCount: nat, visitedCount: nat, records: seq<string>)
    ensures validCount == |Within(validLines, |lines|)|
    ensures visitedCount == |Within(Elements(visited), |lines|)|
    ensures records == if headersOnly then [] else LineRecords(lines, validLines, visited)
  {
    validCount, visitedCount, records := 0, 0, [];
    var lineno := 0;
    while lineno < |lines|
      invariant lineno <= |lines|
      invariant validCount == |Within(validLines, lineno)|
      invariant visitedCount == |Within(Elements(visited), lineno)|
      invariant records == if headersOnly then [] else LineRecords(lines[..lineno], validLines, visited)
    {
      var valid := lineno + 1 in validLines;
      var isVisited := IsVisited(visited, lineno + 1);
      WithinStep(validLines, lineno);
      WithinStep(Elements(visited), lineno);
      if valid {
        validCount := validCount + 1;
      }
      if isVisited {
        visitedCount := visitedCount + 1;
      }
      if !headersOnly {
        LineRecordsStep(lines, validLines, visited, lineno);
        records := records + [LineRecord(lineno + 1, valid, isVisited, lines[lineno])];
      }
      lineno := lineno + 1;
    }
    assert lines[..lineno] == lines;
  }

  // ---------------------------------------------------------------------------
  // Which records are written

  datatype Verdict = PerfectCoverage | NoCoverage | Partial

  /**
   * The score `visited / valid * 100` as an exact fraction (numerator,
   * denominator), 0 when either count is 0.
   */
  function Score(validCount: nat, visitedCount: nat): (nat, nat)
  {
    if visitedCount > 0 && validCount > 0 then (visitedCount * 100, validCount) else (0, 1)
  }

  function Judge(validCount: nat, visitedCount: nat): Verdict
  {
    var (num, den) := Score(validCount, visitedCount);
    if num == 100 * den then PerfectCoverage else if num == 0 then NoCoverage else Partial
  }

  /** The score comparisons restated on the counts. */
  lemma JudgeOnCounts(validCount: nat, visitedCount: nat)
    ensures Judge(validCount, visitedCount) == PerfectCoverage <==> visitedCount == validCount > 0
    ensures Judge(validCount, visitedCount) == NoCoverage <==> visitedCount == 0 || validCount == 0
    ensures Judge(validCount, visitedCount) == Partial <==>
      visitedCount > 0 && validCount > 0 && visitedCount != validCount
  {
  }

  // ---------------------------------------------------------------------------
  // One file

  /** What one file contributes: its anchor, its counts and the body written after the header. */
  datatype FileOutcome =
    | Missing(anchor: string, words: nat, valid: nat)
    | Reported(anchor: string, lineCount: nat, validCount: nat, visitedCount: nat,
               verdict: Verdict, records: seq<string>)

  function FileReport(f: SourceFile, opts: Options): Result<FileOutcome, LexError>
  {
    match f.visited
    case None => Ok(Missing(EscapeAnchor(f.name), WordCount(f.code), |f.validLines|))
    case Some(visited) =>
      match SourceLines(f.code, opts)
      case Err(e) => Err(e)
      case Ok(lines) =>
        var validCount := |Within(f.validLines, |lines|)|;
        var visitedCount := |Within(Elements(visited), |lines|)|;
        var verdict := Judge(validCount, visitedCount);
        var records := if verdict == Partial && !opts.headersOnly then LineRecords(lines, f.validLines, visited) else [];
        Ok(Reported(EscapeAnchor(f.name), |lines|, validCount, visitedCount, verdict, records))
  }

  /** The body of the per-file loop. */
  method ReportFile(f: SourceFile, opts: Options) returns (r: Result<FileOutcome, LexError>)
    ensures r == FileReport(f, opts)
  {
    var anchor := EscapeAnchor(f.name);
    if f.visited.None? {
      return Ok(Missing(anchor, WordCount(f.code), |f.validLines|));
    }
    var lines: seq<string>;
    if opts.noSyntaxHighlighting {
      lines := EscapeLines(SplitLines(f.code));
    } else {
      var rendered := RenderLines(f.code);
      if rendered.Err? {
        return Err(rendered.error);
      }
      lines := rendered.value;
    }
    var validCount, visitedCount, records := TallyLines(lines, f.validLines, f.visited.value, opts.headersOnly);
    var verdict := Judge(validCount, visitedCount);
    if verdict != Partial {
      records := [];
    }
    r := Ok(Reported(anchor, |lines|, validCount, visitedCount, verdict, records));
  }

  /**
   * A reported file counts at most one valid and one visited line per
   * rendered line, writes line records only when its coverage is partial
   * and headers-only is off, and then one per rendered line.
   */
  lemma ReportedCounts(f: SourceFile, opts: Options)
    requires FileReport(f, opts).Ok? && FileReport(f, opts).value.Reported?
    ensures var o := FileReport(f, opts).value;
      o.validCount <= o.lineCount && o.visitedCount <= o.lineCount &&
      (o.records != [] ==> o.verdict == Partial && !opts.headersOnly && |o.records| == o.lineCount) &&
      (o.verdict == Partial && !opts.headersOnly ==> |o.records| == o.lineCount)
  {
    var lines := SourceLines(f.code, opts).value;
    WithinBound(f.validLines, |lines|);
    WithinBound(Elements(f.visited.value), |lines|);
  }

  /** A file without results is counted by its words and its valid-line set, not by lines. */
  lemma MissingResults(f: SourceFile, opts: Options)
    requires f.visited.None?
    ensures FileReport(f, opts) == Ok(Missing(EscapeAnchor(f.name), WordCount(f.code), |f.validLines|))
  {
  }

  // ---------------------------------------------------------------------------
  // Totals

  datatype Totals = Totals(lines: nat, valid: nat, visited: nat)

  /** The running totals after one more file. */
  function Add(t: Totals, o: FileOutcome): Totals
  {
    match o
    case Missing(_, words, valid) => Totals(t.lines + words, t.valid + valid, t.visited)
    case Reported(_, lineCount, validCount, visitedCount, _, _) =>
      Totals(t.lines + lineCount, t.valid + validCount, t.visited + visitedCount)
  }

  function Sum(os: seq<FileOutcome>): Totals
  {
    if os == [] then Totals(0, 0, 0) else Add(Sum(os[..|os| - 1]), os[|os| - 1])
  }

  /** The outcomes of the files in order; the first highlighter error ends the run. */
  function Outcomes(files: seq<SourceFile>, opts: Options): Result<seq<FileOutcome>, LexError>
  {
    if files == [] then Ok([])
    else
      match Outcomes(files[..|files| - 1], opts)
      case Err(e) => Err(e)
      case Ok(os) =>
        match FileReport(files[|files| - 1], opts)
        case Err(e) => Err(e)
        case Ok(o) => Ok(os + [o])
  }

  function ReportTotals(files: seq<SourceFile>, opts: Options): Result<Totals, LexError>
  {
    match Outcomes(files, opts)
    case Err(e) => Err(e)
    case Ok(os) => Ok(Sum(os))
  }

  /** The loop over the files of the valid-lines document, keeping the running totals. */
  method Tally(files: seq<SourceFile>, opts: Options) returns (r: Result<Totals, LexError>)
    ensures r == ReportTotals(files, opts)
  {
    var totals := Totals(0, 0, 0);
    ghost var os: seq<FileOutcome> := [];
    var i := 0;
    while i < |files|
      invariant i <= |files|
      invariant Outcomes(files[..i], opts) == Ok(os)
      invariant totals == Sum(os)
    {
      assert files[..i + 1][..i] == files[..i];
      var o := ReportFile(files[i], opts);
      if o.Err? {
        assert Outcomes(files[..i + 1], opts).Err?;
        OutcomesErrorPersists(files, opts, i + 1);
        return Err(o.error);
      }
      assert (os + [o.value])[..|os|] == os;
      totals := Add(totals, o.value);
      os := os + [o.value];
      i := i + 1;
    }
    assert files[..i] == files;
    r := Ok(totals);
  }

  /** An error in a prefix of the files is the error of the whole run. */
  lemma {:induction false} OutcomesErrorPersists(files: seq<SourceFile>, opts: Options, i: nat)
    requires i <= |files| && Outcomes(files[..i], opts).Err?
    ensures Outcomes(files, opts) == Outcomes(files[..i], opts)
    decreases |files| - i
  {
    if i == |files| {
      assert files[..i] == files;
    } else {
      assert files[..i + 1][..i] == files[..i];
      OutcomesErrorPersists(files, opts, i + 1);
    }
  }

  /** One more file adds its outcome to the running totals. */
  lemma AppendFile(files: seq<SourceFile>, f: SourceFile, opts: Options, t: Totals, o: FileOutcome)
    requires ReportTotals(files, opts) == Ok(t) && FileReport(f, opts) == Ok(o)
    ensures ReportTotals(files + [f], opts) == Ok(Add(t, o))
  {
    var all := files + [f];
    assert all[..|all| - 1] == files;
    var os := Outcomes(files, opts).value;
    assert (os + [o])[..|os|] == os;
  }

  /** Appending a file without results adds its word count and its valid-line count, and no visits. */
  lemma AppendMissing(files: seq<SourceFile>, f: SourceFile, opts: Options, t: Totals)
    requires ReportTotals(files, opts) == Ok(t) && f.visited.None?
    ensures ReportTotals(files + [f], opts) == Ok(Totals(t.lines + WordCount(f.code), t.valid + |f.validLines|, t.visited))
  {
    var o := Missing(EscapeAnchor(f.name), WordCount(f.code), |f.validLines|);
    MissingResults(f, opts);
    AppendFile(files, f, opts, t, o);
  }

  /** Two running totals added field by field. */
  function Combine(a: Totals, b: Totals): Totals
  {
    Totals(a.lines + b.lines, a.valid + b.valid, a.visited + b.visited)
  }

  lemma {:induction false} SumConcat(os1: seq<FileOutcome>, os2: seq<FileOutcome>)
    ensures Sum(os1 + os2) == Combine(Sum(os1), Sum(os2))
    decreases |os2|
  {
    if os2 == [] {
      assert os1 + os2 == os1;
    } else {
      var init := os2[..|os2| - 1];
      var all := os1 + os2;
      assert all[..|all| - 1] == os1 + init;
      assert all[|all| - 1] == os2[|os2| - 1];
      SumConcat(os1, init);
    }
  }

  lemma {:induction false} OutcomesConcat(fs1: seq<SourceFile>, fs2: seq<SourceFile>, opts: Options)
    ensures Outcomes(fs1 + fs2, opts) ==
      if Outcomes(fs1, opts).Err? then Outcomes(fs1, opts)
      else if Outcomes(fs2, opts).Err? then Outcomes(fs2, opts)
      else Ok(Outcomes(fs1, opts).value + Outcomes(fs2, opts).value)
    decreases |fs2|
  {
    if fs2 == [] {
      assert fs1 + fs2 == fs1;
      if Outcomes(fs1, opts).Ok? {
        assert Outcomes(fs1, opts).value + [] == Outcomes(fs1, opts).value;
      }
    } else {
      var init := fs2[..|fs2| - 1];
      var all := fs1 + fs2;
      assert all[..|all| - 1] == fs1 + init;
      assert all[|all| - 1] == fs2[|fs2| - 1];
      OutcomesConcat(fs1, init, opts);
      if Outcomes(fs1, opts).Ok? && Outcomes(init, opts).Ok? && FileReport(fs2[|fs2| - 1], opts).Ok? {
        var os1, os2 := Outcomes(fs1, opts).value, Outcomes(init, opts).value;
        assert os1 + os2 + [FileReport(fs2[|fs2| - 1], opts).value] == os1 + (os2 + [FileReport(fs2[|fs2| - 1], opts).value]);
      }
    }
  }

  /**
   * Reporting two lists of files one after the other: the first
   * highlighter error wins, and otherwise the totals add up field by field.
   */
  lemma ReportTotalsConcat(fs1: seq<SourceFile>, fs2: seq<SourceFile>, opts: Options)
    ensures ReportTotals(fs1 + fs2, opts) ==
      if ReportTotals(fs1, opts).Err? then ReportTotals(fs1, opts)
      else if ReportTotals(fs2, opts).Err? then ReportTotals(fs2, opts)
      else Ok(Combine(ReportTotals(fs1, opts).value, ReportTotals(fs2, opts).value))
  {
    OutcomesConcat(fs1, fs2, opts);
    if Outcomes(fs1, opts).Ok? && Outcomes(fs2, opts).Ok? {
      SumConcat(Outcomes(fs1, opts).value, Outcomes(fs2, opts).value);
    }
  }

  predicate VisitsBounded(o: FileOutcome)
  {
    o.Reported? ==> o.visitedCount <= o.lineCount
  }

  lemma {:induction false} SumVisitsBounded(os: seq<FileOutcome>)
    requires forall k :: 0 <= k < |os| ==> VisitsBounded(os[k])
    ensures Sum(os).visited <= Sum(os).lines
  {
    if os != [] {
      SumVisitsBounded(os[..|os| - 1]);
    }
  }

  lemma {:induction false} OutcomesVisitsBounded(files: seq<SourceFile>, opts: Options)
    requires Outcomes(files, opts).Ok?
    ensures forall k :: 0 <= k < |Outcomes(files, opts).value| ==> VisitsBounded(Outcomes(files, opts).value[k])
  {
    if files != [] {
      var init := files[..|files| - 1];
      var f := files[|files| - 1];
      OutcomesVisitsBounded(init, opts);
      if f.visited.Some? {
        ReportedCounts(f, opts);
      }
    }
  }

  /** The total of visited lines never exceeds the total of lines. */
  lemma TotalVisitsBounded(files: seq<SourceFile>, opts: Options)
    requires ReportTotals(files, opts).Ok?
    ensures ReportTotals(files, opts).value.visited <= ReportTotals(files, opts).value.lines
  {
    OutcomesVisitsBounded(files, opts);
    SumVisitsBounded(Outcomes(files, opts).value);
  }
}
