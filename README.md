# lcovtools core in Dafny

lcovtools measures line coverage of Lua programs and turns it into a report.
The project models three parts of it:

- **The coverage recorder** (`luacov/luacov.cpp`). A line hook records each executed line.
  - Records live in a growable array of per-file records, sorted by file name with `strcmp`. Lookup uses a binary search and a one-entry cache. A miss inserts a new record by shifting the tail up.
  - Each record carries a growable bitfield of 32-bit words. Bit `n & 31` of word `n >> 5` marks line `n`.
  - The dump lists the set bits of each file. The memory count adds up the arrays' sizes.
  - Module `CoverageTable` holds the value-level description: names ordered like `strcmp`, bitfields as `seq<bv32>`, and the table as a sequence of (name, words) entries. Module `LuaCov` holds the recorder itself, as classes over Dafny arrays. Each method is proved against `CoverageTable`.
- **The Lua highlighter** (`scripts/syntaxhighlight.py`).
  - `LuaLexer` holds the tokenizer. It tries nine anchored matchers in a fixed order at the cursor and takes the first match. It has a pure specification, `LexFrom`/`Lex`, and an imperative `Tokenize` proved equal to it.
  - `LuaLexerRules` proves which rule wins for each kind of leading character, and the shape of every token.
  - `LuaRender` holds the HTML line renderer. It folds the tokens into a current line and the lines yielded so far. The imperative `RenderLines` is proved equal to that fold.
  - `LuaExamples` works whole inputs through the lexer and the renderer.
- **The report tallies** (`scripts/makereport.py`). Module `Report` holds `escape_anchor`, `myescape`, the per-line count of valid and visited lines, the choice of what is written for each file, and the running totals. The XML documents are abstracted to plain values:
  - each file is a name with its set of valid line numbers;
  - the matching results file, when there is one, is its list of visited line numbers;
  - the file's text is the source code.

`Text` models the Python string operations used throughout:
- `str.replace` with a one-character pattern;
- `xml.sax.saxutils.escape`;
- Python 2 `str.splitlines`;
- the word count of `str.split()`.

`Wrappers` holds `Option` and `Result`.

Where the code's behaviour differs from what a reader would expect, the model follows the code:
- Operators and punctuation take the first listed symbol, not the longest. So `<=` lexes as `<` then `=`.
- A block comment runs to the last `]]` in the rest of the source, not to the nearest one.
- Double-quoted strings may contain raw newlines.
- The renderer never yields the text after the last newline. So `"--[[\nfoo\nbar\n]]"` renders three lines, not four.
- `whitespace_escape` turns a tab into a single `&nbsp;`. This affects only multi-line block comments; tab tokens give four.
- A file without results adds its word count to the line total, not its line count.
- Quotes are not escaped: `xml.sax.saxutils.escape` replaces only `&`, `<` and `>`.

## Model

| member | source | states |
|---|---|---|
| Text.EscapeIsPerCharacter | scripts/syntaxhighlight.py:5 | the chained `&`, `>`, `<` replacements of `escape` act on each character independently (`&` first keeps entities intact) |
| Text.EscapeRoundTrip | scripts/syntaxhighlight.py:5 | escaping is undone by reading the three entities back, so no information is lost |
| Text.EscapeHasNoAngles | scripts/syntaxhighlight.py:5 | escaped text contains no raw `<` or `>` |
| Text.ReplaceByChar | scripts/makereport.py:85 | replacing one character by one character keeps the length and maps position by position |
| Text.ReplaceRemoves | scripts/syntaxhighlight.py:231 | after `replace(c, repl)` with `c` not in `repl`, no `c` is left |
| Text.SplitLinesOnNewlines | scripts/syntaxhighlight.py:284 | on text with only `\n` breaks and no trailing break, `splitlines` gives one more line than newlines, no line holds a newline, and joining them gives the text back |
| Text.SplitJoinRoundTrip | scripts/syntaxhighlight.py:284 | splitting lines that were joined with `\n` gives the same lines back |
| Text.WordCountOfJoin | scripts/makereport.py:110 | `len(s.split())` counts the words of `" ".join(words)` exactly |
| LuaLexer.MatchBlockComment | scripts/syntaxhighlight.py:216 | `--[[.*\]\]` with DOTALL matches iff `--[[` is followed somewhere by `]]`, and then ends after the last `]]` |
| LuaLexer.MatchComment | scripts/syntaxhighlight.py:217 | `--.*` matches iff the text starts with `--`, and stops before the next newline or at the end |
| LuaLexer.MatchQuoted | scripts/syntaxhighlight.py:218-219 | a string token starts with the quote or `@` and ends with the quote; any other first character gives no match |
| LuaLexer.FirstSymbol | scripts/syntaxhighlight.py:222-224 | an alternation picks the first listed symbol that matches, and no earlier one matches |
| LuaLexer.DigitsEnd | scripts/syntaxhighlight.py:225 | `[0-9]+` runs to the first non-digit |
| LuaLexer.IdentEnd | scripts/syntaxhighlight.py:226 | an identifier runs over letters, digits, `_` and `.` up to the first other character |
| LuaLexer.MatchRule | scripts/syntaxhighlight.py:215-227 | every matcher is anchored and consumes at least one character |
| LuaLexer.FirstMatch | scripts/syntaxhighlight.py:246-250 | the chosen rule matches and every rule listed before it fails; no result means all nine fail |
| LuaLexer.TryRules | scripts/syntaxhighlight.py:246-250 | the inner loop over `tokenTypes` stops at the first rule that matches |
| LuaLexer.Tokenize | scripts/syntaxhighlight.py:241-259 | the tokenizer loop yields `Lex(src)`: on success the texts concatenate to the source; on failure the error position is inside the source and no rule matches there |
| LuaLexer.NextTokens | scripts/syntaxhighlight.py:256-259 | the first token is the first matching rule's text, and lexing resumes at the match end |
| LuaLexer.LexCoversSource | scripts/syntaxhighlight.py:242-259 | the yielded texts concatenate to exactly the source, and none is empty |
| LuaLexer.LexErrorIsStuck | scripts/syntaxhighlight.py:252-253 | a lexing error carries the position where every rule fails, and at most 50 characters of source from there |
| LuaLexerRules.MatchBeginsWith | scripts/syntaxhighlight.py:215-227 | a rule can match only at a character that may start it |
| LuaLexerRules.StrayCharacterFails | scripts/syntaxhighlight.py:252-253 | a character that starts no rule stops lexing with an error at its offset |
| LuaLexerRules.CarriageReturnFails | scripts/syntaxhighlight.py:33-37 | a lone `\r` is not whitespace, so lexing fails at its offset |
| LuaLexerRules.WhitespaceIsOneCharacter | scripts/syntaxhighlight.py:222 | a tab, newline or space is a whitespace token of exactly one character |
| LuaLexerRules.IdentifierAtLetter | scripts/syntaxhighlight.py:226 | at a letter or `_` the identifier rule wins and runs to the end of the identifier characters |
| LuaLexerRules.NumberAtDigit | scripts/syntaxhighlight.py:225 | at a digit the number rule wins and takes the whole digit run |
| LuaLexerRules.ComparisonIsOneCharacter | scripts/syntaxhighlight.py:48-51 | `<` and `>` are one-character operators even before `=`, because they are listed before `<=` and `>=` |
| LuaLexerRules.SingleEqualsIsOperator | scripts/syntaxhighlight.py:52-56 | `=` not followed by `=` is a one-character operator |
| LuaLexerRules.OneCharacterMisc | scripts/syntaxhighlight.py:59-70 | each punctuation character other than `.` is a one-character misc token |
| LuaLexerRules.TripleDotIsMisc | scripts/syntaxhighlight.py:60 | `...` is one misc token |
| LuaLexerRules.DoubleDotIsOperator | scripts/syntaxhighlight.py:46 | `..` not followed by `.` is one operator token |
| LuaLexerRules.SingleDotIsOperator | scripts/syntaxhighlight.py:47 | a `.` not followed by `.` is a one-character operator |
| LuaLexerRules.DoubleDashIsComment | scripts/syntaxhighlight.py:216-217 | at `--`, a block comment is taken when the text starts with `--[[` and a `]]` follows; otherwise it is a line comment up to the next newline |
| LuaLexerRules.SingleDashIsOperator | scripts/syntaxhighlight.py:41 | `-` not followed by `-` is a one-character operator |
| LuaLexerRules.UnterminatedStringFails | scripts/syntaxhighlight.py:246-253 | a `"` that is never closed stops lexing with an error at the quote's offset |
| LuaLexerRules.MatchShape | scripts/syntaxhighlight.py:215-227 | every matched token has its kind's shape: a single whitespace character, a listed symbol, a digit run, an identifier, a quoted string or a comment |
| LuaLexerRules.LexTokensWellShaped | scripts/syntaxhighlight.py:241-259 | every token of a successful lex has its kind's shape |
| LuaRender.RenderLines | scripts/syntaxhighlight.py:270-302 | the renderer loop yields exactly `Render(src)`, the fold of `Step` over the tokens, or the lexing error |
| LuaRender.StepLine | scripts/syntaxhighlight.py:272-302 | one token appends to or yields the current line exactly as `Step` says |
| LuaRender.StepSpacing | scripts/syntaxhighlight.py:272-283 | a newline yields the current line and empties it; a space adds one `&nbsp;` and a tab four, as `Step` says |
| LuaRender.StepMarkup | scripts/syntaxhighlight.py:284-302 | a block comment, an identifier or any other token adds its escaped span, or spreads a multi-line comment over yielded lines, as `Step` says |
| LuaRender.EmitCommentLines | scripts/syntaxhighlight.py:285-291 | the pieces of a multi-line block comment yield all lines but the last as spans; the last piece stays in the current line |
| LuaRender.CommentLines | scripts/syntaxhighlight.py:288-291 | one line is yielded per block-comment piece except the last |
| LuaRender.RenderFromGrows | scripts/syntaxhighlight.py:271-302 | rendering only appends lines, one per line break in the tokens |
| LuaRender.TokenBreaks | scripts/syntaxhighlight.py:272-293 | a token yields as many lines as it holds newlines |
| LuaRender.RenderedLineCount | scripts/syntaxhighlight.py:271-302 | for lexable source without `\r` whose string tokens hold no newline, the number of rendered lines equals the number of `\n`, so text after the last newline is dropped |
| LuaRender.NewlineYieldsLine | scripts/syntaxhighlight.py:272-276 | a newline token yields exactly the line built since the previous newline, possibly empty, and the next line starts empty |
| LuaRender.InlineTokenExtends | scripts/syntaxhighlight.py:277-302 | a token that closes no line yields nothing, and the line being built only grows at its end |
| LuaRender.RenderedLinesAreSafe | scripts/syntaxhighlight.py:270-302 | every yielded line is a sequence of `&nbsp;` and spans of a known class (keyword, library, identifier or a token kind) whose text holds no raw `<` or `>` |
| LuaExamples.LibraryFacts | scripts/syntaxhighlight.py:294-300 | `print` is classed as library and `x` as identifier |
| LuaExamples.LessEqualIsTwoOperators | scripts/syntaxhighlight.py:48-49 | `a<=b` lexes as `a`, `<`, `=`, `b` |
| LuaExamples.UnterminatedStringError | scripts/syntaxhighlight.py:246-253 | `x = "abc` fails at offset 4 with the rest of the source as context |
| LuaExamples.PrintTokens | scripts/syntaxhighlight.py:241-259 | `print(x)\n` lexes as identifier, misc, identifier, misc, whitespace |
| LuaExamples.PrintCallRendering | scripts/syntaxhighlight.py:270-302 | `print(x)\n` renders as one line of spans for library `print`, `(`, identifier `x` and `)` |
| LuaExamples.CommentSourceIsOneToken | scripts/syntaxhighlight.py:216 | a block comment across four lines is a single token |
| LuaExamples.TrailingCommentLineDropped | scripts/syntaxhighlight.py:283-291 | a four-line block comment renders three lines; the last piece is never yielded |
| CoverageTable.Strcmp | luacov/luacov.cpp:59 | the sign of `strcmp` is 0 exactly for equal names |
| CoverageTable.LessTransitive | luacov/luacov.cpp:59 | the `strcmp` order is transitive |
| CoverageTable.LessTotal | luacov/luacov.cpp:59 | the `strcmp` order is total and asymmetric |
| CoverageTable.SetBitAt | luacov/luacov.cpp:133-136 | setting line `n` sets bit `n & 31` of word `n >> 5` and no other bit |
| CoverageTable.SetBitHits | luacov/luacov.cpp:133-136 | setting line `n` adds exactly `n` to the recorded lines |
| CoverageTable.ZeroWordsAddNoHits | luacov/luacov.cpp:124-125 | appending zeroed words adds no recorded line |
| CoverageTable.GrowHits | luacov/luacov.cpp:151-154 | growing a bitfield gains and loses no line |
| CoverageTable.GrownSizeBounds | luacov/luacov.cpp:117-120 | the new size exceeds `minLines` and is at least twice the old size |
| CoverageTable.Position | luacov/luacov.cpp:91-97 | the insertion point has only smaller names before it, and a name not smaller at it |
| CoverageTable.PositionSorted | luacov/luacov.cpp:56-76 | in a sorted table a name is present iff the entry at its insertion point carries it |
| CoverageTable.TouchSorted | luacov/luacov.cpp:90-107 | inserting a missing name at its insertion point keeps the table strictly sorted |
| CoverageTable.TouchPresent | luacov/luacov.cpp:69-74 | looking up a present name leaves the table unchanged |
| CoverageTable.TouchInserts | luacov/luacov.cpp:82-107 | a missing name is inserted with 32 zero words at its insertion point, with the other entries in order around it |
| CoverageTable.TouchNames | luacov/luacov.cpp:41-109 | after a lookup the names are the old names plus the looked-up one |
| CoverageTable.TouchKeepsHits | luacov/luacov.cpp:41-109 | a lookup changes no file's recorded lines |
| CoverageTable.TouchIdempotent | luacov/luacov.cpp:45-48 | looking the same name up twice is the same as once |
| CoverageTable.RecordSorted | luacov/luacov.cpp:143-157 | recording a line keeps the table sorted |
| CoverageTable.RecordHits | luacov/luacov.cpp:143-157 | recording line `n` for a file adds `n` to that file's lines and changes no other file's lines |
| CoverageTable.RecordFits | luacov/luacov.cpp:151-154 | after recording line `n` the file's bitfield has more than `(n >> 5) + 1` words |
| CoverageTable.MemUsageLowerBound | luacov/luacov.cpp:330-341 | every record costs at least its struct and 32 words |
| LuaCov.FileRecord.constructor | luacov/luacov.cpp:82-88 | a new record has the given name and 32 zeroed words |
| LuaCov.FileRecord.ResizeLineBuf | luacov/luacov.cpp:112-131 | the bitfield is replaced by one of `GrownSize` words, with the old words copied and the new ones zeroed |
| LuaCov.SetBit | luacov/luacov.cpp:133-136 | the buffer becomes `SetLine` of the old buffer |
| LuaCov.DumpLines | luacov/luacov.cpp:298-311 | the numbers `l*32+b` of the set bits come out strictly increasing and are exactly the recorded lines |
| LuaCov.Recorder.constructor | luacov/luacov.cpp:25-30 | the recorder starts with no records, no capacity and an empty cache |
| LuaCov.Recorder.ResizeResults | luacov/luacov.cpp:32-39 | capacity grows by 64, the first `numResults` slots are copied, and the table is unchanged |
| LuaCov.Recorder.Search | luacov/luacov.cpp:50-76 | the binary search finds the record iff the name is present, at its insertion point |
| LuaCov.Recorder.InsertionPoint | luacov/luacov.cpp:91-97 | the linear scan stops at the first record whose name is greater |
| LuaCov.Recorder.ShiftInsert | luacov/luacov.cpp:99-104 | shifting the tail up one slot and storing the new record inserts it at the index |
| LuaCov.Recorder.InsertNew | luacov/luacov.cpp:90-107 | a new record is inserted at its insertion point and cached, and the table becomes `Touch` of the old one |
| LuaCov.Recorder.EnsureRoom | luacov/luacov.cpp:79-80 | the array is grown only when full, and afterwards there is a free slot |
| LuaCov.Recorder.FindFile | luacov/luacov.cpp:41-109 | returns the record named `name` and caches it. A cached name returns the cached record; a present name leaves the table unchanged; a missing one is inserted at its insertion point |
| LuaCov.Recorder.ResizeRecord | luacov/luacov.cpp:112-131 | one record's bitfield grows to `GrownSize` words, with its lines and every other record unchanged |
| LuaCov.Recorder.GrowLines | luacov/luacov.cpp:151-154 | the bitfield is grown only when `(n >> 5) + 1 >= numLines`, and afterwards it holds more than `(n >> 5) + 1` words |
| LuaCov.Recorder.MarkLine | luacov/luacov.cpp:156 | the record's words become `SetLine` of the old words |
| LuaCov.Recorder.Hook | luacov/luacov.cpp:143-157 | on a line event from a `@` source, the table becomes `Record` of the old one for the name after `@`, the cache holds that file's record, one record is added when the name was new, and the capacity grows by 64 only when a new name meets a full array; on any other event nothing changes |
| LuaCov.Recorder.Reset | luacov/luacov.cpp:161-177 | no records, capacity 64, every slot null, and an empty cache |
| LuaCov.Recorder.Dump | luacov/luacov.cpp:288-311 | for each record in ascending name order, its name and exactly its recorded lines, strictly increasing |
| LuaCov.Recorder.CountMemUsage | luacov/luacov.cpp:330-341 | the result is `maxResults` pointers plus each record's struct and `numLines` ints |
| LuaCov.SumRecordBytes | luacov/luacov.cpp:335-339 | the loop over the records adds up each record's struct and its `numLines` ints, which is `RecordsBytes` of their sizes |
| Report.EscapeAnchorPerCharacter | scripts/makereport.py:84-85 | the anchor has the name's length; `/`, `\` and `.` become `_`, and every other character is unchanged |
| Report.EscapeAnchorHasNoSeparator | scripts/makereport.py:84-85 | no `/`, `\` or `.` is left in an anchor |
| Report.MyEscapeIsPerCharacter | scripts/makereport.py:87-88 | `myescape` maps each character on its own: an entity for `&`, `<` and `>`, one `&nbsp;` for a space, four for a tab |
| Report.MyEscapeIsClean | scripts/makereport.py:87-88 | an escaped line has no space, tab, `<` or `>` left |
| Report.EscapeLines | scripts/makereport.py:119-120 | plain mode gives one escaped line per `splitlines` line |
| Report.WithinBound | scripts/makereport.py:132-146 | at most one valid and one visited count per rendered line |
| Report.WithinAll | scripts/makereport.py:132-138 | when every line number is valid, `validCount` is the line count |
| Report.WithinIgnoresOutside | scripts/makereport.py:132-138 | valid numbers beyond the file's length, or below 1, are not counted |
| Report.IsVisited | scripts/makereport.py:140-143 | the inner loop over the results finds a line iff some result entry has its number |
| Report.TallyLines | scripts/makereport.py:132-152 | `validCount` counts the numbers 1..len(srclines) in the valid set; `visitedCount` counts those named by some result, with duplicates counted once and validity not required; records for every line are collected unless headers-only is set |
| Report.DecimalRoundTrip | scripts/makereport.py:150-152 | the line number written with `%d` reads back as the number |
| Report.LineRecordShape | scripts/makereport.py:149-152 | a record is self-closing exactly when the rendered line is empty; otherwise it ends with a tab, the line and `</Line>` |
| Report.LineRecordsAt | scripts/makereport.py:132-152 | record `i` is the record of line `i + 1`, with its valid and visited flags |
| Report.JudgeOnCounts | scripts/makereport.py:158-168 | perfect iff `visitedCount == validCount > 0`; none iff either count is 0; otherwise partial |
| Report.ReportFile | scripts/makereport.py:103-171 | one file's outcome is `FileReport`: a missing-results entry, or the counts, verdict and records, or the highlighter's error |
| Report.ReportedCounts | scripts/makereport.py:132-168 | counts never exceed the line count, and line records are written only for partial coverage without headers-only, one per line |
| Report.Tally | scripts/makereport.py:90-171 | the loop over the files keeps the running totals equal to the sums of the per-file figures, or stops at the first highlighter error |
| Report.AppendFile | scripts/makereport.py:110-156 | one more file adds its own figures to the running totals |
| Report.ReportTotalsConcat | scripts/makereport.py:90-171 | reporting two lists of files one after the other gives the first highlighter error, or else the two lists' totals added field by field |
| Report.AppendMissing | scripts/makereport.py:103-111 | a file without results adds its word count to the lines, its valid set's size to the valid total, and nothing to the visited total |
| Report.TotalVisitsBounded | scripts/makereport.py:110-156 | the visited total never exceeds the lines total |

## Left out

- Lua C API glue in `luacov/luacov.cpp` is not part of this model: hook installation and removal, the chained old hook, the `lua_getinfo` call, `luacov_getstats`, the module registration, and the printing calls in `luacov_dump`. The hook receives the event, source and line as parameters, and the dump returns the numbers it would print.
- Raw memory is not modelled: `new`, `delete`, `memcpy` and `memset` become Dafny arrays, and the `lines` bitfields that `luacovI_reset` leaks are dropped: it deletes only the record structs, and `luacov_File` has no destructor.
- LuaCov.Recorder.Hook: requires the file name after `@` to fit the 256-byte `filename` buffer, because `strncpy` leaves a longer name unterminated.
- LuaCov.Recorder.Hook: states its allocation frame only as `old(Repr) <= Repr` and a possibly fresh `results` array, not which record and bitfield objects it allocates.
- LuaCov.Recorder.CountMemUsage: uses unbounded integers, so `int` overflow of the byte count is not modelled. The sizes are those of an LP64 target: 8-byte pointers, 4-byte ints, and 272-byte records.
- `1 << 31` is treated as bit 31 of an unsigned 32-bit word, not as signed `int` arithmetic.
- File reads, option parsing, minidom parsing and the report output are not modelled. Nor are the `os.path` comparison that pairs a file with its results, the history, the chart, the summary file and `time.clock`.
  - When several results files match, the script keeps the last; the model receives that choice already made.
- The floating-point score and the `coverage` percentages are not modelled. The score comparisons are restated on exact fractions. With floats, `(v / w) * 100 == 100` agrees with `v == w` only while the counts stay far below 2^50. `int(score)` can be one less than the exact percentage: `29 / 50 * 100` is `57.99999999999999`.
- `scripts/makereport.py` line 178 divides `totalVisited` by `totalValid` on every run, so it raises ZeroDivisionError when `totalValid` is 0. Line 210 does the same with each earlier revision's own total. Neither division is part of this model.
- Python's `re` engine is not used. The nine patterns are written out as prefix matchers, including the `@\s*"..."` verbatim-string alternative.
- Generator laziness is not modelled. The tokenizer returns all tokens or an error carrying the position. Python 2's `raise` of a string becomes that error value, which the renderer and the report propagate. The renderer's unused `self.pos` counter is dropped.
- LuaRender.RenderedLineCount: the line count is stated only for lexable source without `\r` and without newlines inside string tokens. `splitlines` also breaks block comments at `\r`, and a newline inside a string is copied into the current line without yielding it. Every other statement uses the full Python 2 `splitlines`, which breaks at `\n`, `\r` and `\r\n`.
- Text.SplitLinesOnNewlines: stated for text without `\r` and without a trailing newline.
