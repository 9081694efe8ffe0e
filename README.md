# mewbot lint output normalisation, in Dafny

`mewbot_dev_tools/lint.py` runs a series of Python linters and turns what each
one prints into a stream of `Annotation` records. An `Annotation` holds a level,
file, line, column, source tool, title and message; GitHub CI shows it as an
annotation. This project models that normalisation layer:

- `LEVELS` and the `Annotation` record, plus the outcome of a Python generator.
  A generator either runs off its end or raises an uncaught `ValueError` after
  handing some records on (`annotations.dfy`).
- The one-line parsers for flake8, mypy and pylint (`line_parsers.dfy`). Each is
  a pure filter/map over the lines of the tool's stdout: a line that does not
  unpack, or whose numbers do not parse, is skipped.
- The pydocstyle loop (`pydocstyle.dfy`). It calls `next(lines)` on the iterator
  its `for` loop walks, so a header line uses up the line after it. It is
  modelled as a method with a `while` loop over an explicit cursor. The method is
  proved equal to a specification function over the lines.
- `lint_black_errors` (`black_errors.dfy`). It reads black's stderr, and a
  malformed line raises out of the generator.
- `lint_isort_diffs` and `lint_black_diffs` (`diff_scanner.dfy`). They are two
  copies of one scanner over a unified diff, which carries a file name, a hunk
  start line and a text buffer from line to line. The model has one scanner,
  parameterised by the tool name and the two record titles. It is a method
  proved equal to a specification function over the classified diff lines.
- `run` and `lint_black` (`toolchain.dfy`). They chain the stages with
  `yield from`: isort, black (stderr complaints, then the stdout diff), flake8,
  mypy, pylint, pydocstyle and bandit.

Python's string operations are modelled in `text.dfy`:

- `str.isspace`, with Python's set of whitespace characters;
- `strip`;
- `split(sep, maxsplit)` for a one-character separator, and `split(sep)`;
- `str.startswith`;
- `rpartition(" ")`;
- `int()` in base 10 with an optional sign and surrounding whitespace. `int()`
  skips only ASCII whitespace and non-ASCII Unicode whitespace. The separators
  U+001C to U+001F count as space for `str.isspace` but not for `int()`, so a
  number next to one of them does not parse.

Behaviour of the code that a reader of its docstrings might not expect:

- The layer can raise. `lint_black_errors` raises on a stderr line with a colon
  that does not split into six fields, or whose fourth and fifth fields are not
  integers. The diff scanners raise on a `--- ` header without exactly one tab
  (`DiffScanner.UntabbedOldFileRaises`, `DiffScanner.TwoTabOldFileRaises`). They
  also raise on an `@@` header that is not four space-separated tokens whose
  second token holds one comma before an integer. An uncaught raise ends `run`,
  so no later tool is reported (`Toolchain.Run`).
- A hunk is flushed only when the next header arrives, so the last hunk of the
  input is never reported. Two hunks in the last file of the input give one
  record (`DiffScanner.ScanHunks`). Two hunks in a file followed by another
  `--- ` header give two records, because that header flushes the second hunk
  (`DiffScanner.NextFileFlushesHunk`).
- An `@@` header with text after the closing `@@` raises, because the code
  unpacks exactly four tokens (`DiffScanner.HunkTrailingTextRaises`). difflib
  writes a one-line range as `-3`, without a length, and the code raises on that
  too (`DiffScanner.OneLineHunkRaises`).
- pylint's message keeps the space after the colon that ends the column field.
  Trailing whitespace is dropped, with the rest of the line's, by the `strip()`
  before the split (`LineParsers.PylintReads`, `LineParsers.PylintFlake8Agree`).
- isort's record for a hunk flushed by an `@@` header is titled
  `isort altteration`, spelt as in the code (`DiffScanner.HeaderFlushes`).

## Model

| member | source | states |
|---|---|---|
| Text.Strip | src/mewbot_dev_tools/lint.py:104 | `strip()` leaves no leading or trailing whitespace and never lengthens the text |
| Text.StripIdempotent | src/mewbot_dev_tools/lint.py:104 | stripping twice is stripping once |
| Text.SplitN | src/mewbot_dev_tools/lint.py:104 | `split(sep, maxsplit)`: at least one piece, no more than `maxsplit + 1`, and only the last piece may hold the separator, only when the limit was reached |
| Text.SplitNJoin | src/mewbot_dev_tools/lint.py:104 | the pieces of a split rejoin to the original text |
| Text.SplitJoin | src/mewbot_dev_tools/lint.py:99 | splitting a join of separator-free pieces gives the pieces back |
| Text.SplitNUnique | src/mewbot_dev_tools/lint.py:104 | pieces that rejoin to the text, with only the last piece holding the separator and only when the limit allows, are the only result of `split(sep, maxsplit)` |
| Text.SplitNExactly | src/mewbot_dev_tools/lint.py:104 | `split(sep, n)` gives exactly the `n + 1` pieces `g` iff `g` rejoins to the text and only its last piece may hold the separator |
| Text.Split | src/mewbot_dev_tools/lint.py:258-259 | `split(sep)` gives at least one piece, and no piece holds the separator |
| Text.SplitExactly | src/mewbot_dev_tools/lint.py:258-259 | `split(sep)` gives exactly the pieces `g` iff `g` rejoins to the text and no piece holds the separator |
| Text.StripKeeps | src/mewbot_dev_tools/lint.py:104 | `strip()` removes only whitespace: the text is some whitespace, the stripped text, then some whitespace |
| Text.StartsWith | src/mewbot_dev_tools/lint.py:243-254 | `startswith(p)` holds only when the text is `p` followed by the rest |
| Text.AfterLast | src/mewbot_dev_tools/lint.py:224 | `rpartition(" ")[2]`: a suffix of the text holding no space, preceded by a space whenever it is shorter than the text |
| Text.ParseInt | src/mewbot_dev_tools/lint.py:106 | `int()` rejects text that is all whitespace or holds one of the separators U+001C to U+001F |
| Text.ParseIntExactly | src/mewbot_dev_tools/lint.py:106 | `int()` succeeds iff the text is whitespace, an optional sign, ASCII digits and whitespace, and then gives the signed value of those digits |
| Text.ParseShow | src/mewbot_dev_tools/lint.py:105-106 | `int(str(i)) == i` |
| Annotations.Then | src/mewbot_dev_tools/lint.py:45-51 | `yield from a` then `yield from b`: raises iff either stage raises; a raise in `a` hides `b` entirely; otherwise the records of `a` come before those of `b` |
| Annotations.ThenAssociative | src/mewbot_dev_tools/lint.py:45-51 | chaining generators does not depend on grouping, so `run` and `lint_black` compose stage by stage |
| LineParsers.Lines | src/mewbot_dev_tools/lint.py:99 | `split("\n")` gives at least one line, none holding a newline |
| LineParsers.LinesTrailingNewline | src/mewbot_dev_tools/lint.py:99 | a trailing newline adds exactly one empty line |
| LineParsers.Collect | src/mewbot_dev_tools/lint.py:99-109 | the filter/map loop yields at most one record per line |
| LineParsers.CollectedFromLine | src/mewbot_dev_tools/lint.py:99-109 | every collected record is what the parser made of one input line |
| LineParsers.CollectKeeps | src/mewbot_dev_tools/lint.py:99-109 | a property of every parsed line's record holds of every collected record |
| LineParsers.CollectAppend | src/mewbot_dev_tools/lint.py:99-109 | lines are handled independently: the output of a concatenation is the concatenation of the outputs |
| LineParsers.CollectNone | src/mewbot_dev_tools/lint.py:99-109 | lines that all fail to parse yield nothing |
| LineParsers.CollectPrinted | src/mewbot_dev_tools/lint.py:99-109 | lines that each parse back give exactly the records they were printed from, in order |
| LineParsers.ParsePrintedOutput | src/mewbot_dev_tools/lint.py:99-109 | a whole stdout of printed lines joined by newlines parses back to its records |
| LineParsers.ColonFields | src/mewbot_dev_tools/lint.py:104 | `line.strip().split(":", 3)` unpacks into four fields only when the stripped line has three colons; the fields rejoin to the stripped line and the first three hold no colon |
| LineParsers.ColonFieldsOf | src/mewbot_dev_tools/lint.py:104 | four fields, the first three colon-free, are split back apart exactly |
| LineParsers.ColonFieldsExactly | src/mewbot_dev_tools/lint.py:104 | `line.strip().split(":", 3)` unpacks into the fields `g` iff there are four of them, they rejoin to the stripped line and the first three hold no colon |
| LineParsers.Flake8Record | src/mewbot_dev_tools/lint.py:100-109 | a line with no colon is skipped; a record is an `error` from `flake8` with no title, a colon-free file and a stripped message |
| LineParsers.Flake8Reads | src/mewbot_dev_tools/lint.py:99-109 | a line gives a record iff it unpacks into four fields whose second and third parse as integers; the record is that file, line and column with the stripped fourth field, from `flake8`, as an `error`; every other line is skipped |
| LineParsers.LintFlake8 | src/mewbot_dev_tools/lint.py:99-109 | at most one record per stdout line, and every record is what one of the lines reads as |
| LineParsers.Flake8RoundTrip | src/mewbot_dev_tools/lint.py:104-107 | flake8's `path:row:col: text` line for a record reads back as that record |
| LineParsers.LintFlake8Printed | src/mewbot_dev_tools/lint.py:99-109 | a stdout of well-formed flake8 lines yields every record, in order |
| LineParsers.Flake8RoundTrips | src/mewbot_dev_tools/lint.py:104-107 | every printable record's line reads back |
| LineParsers.MypyLevel | src/mewbot_dev_tools/lint.py:148-153 | the severity word, stripped, is always mapped into `LEVELS`: `note` becomes `notice`, a word in `LEVELS` is kept, anything else becomes `error` |
| LineParsers.MypyRecord | src/mewbot_dev_tools/lint.py:143-157 | a line with no colon is skipped; a record has a level in `LEVELS`, source `mypy`, column 1, no title, a colon-free file and a stripped message |
| LineParsers.MypyReads | src/mewbot_dev_tools/lint.py:142-157 | a line gives a record iff it unpacks into four fields whose second parses as an integer; the record has the mapped third field as level, that file and line, column 1 and the stripped fourth field; every other line is skipped |
| LineParsers.LintMypy | src/mewbot_dev_tools/lint.py:142-157 | at most one record per stdout line, and every record is what one of the lines reads as |
| LineParsers.MypyWordLevel | src/mewbot_dev_tools/lint.py:148-153 | the word mypy prints for each level maps back to that level |
| LineParsers.MypyRoundTrip | src/mewbot_dev_tools/lint.py:147-155 | mypy's `file:line: severity: message` line reads back as its record |
| LineParsers.LintMypyPrinted | src/mewbot_dev_tools/lint.py:142-157 | a stdout of well-formed mypy lines yields every record, in order |
| LineParsers.MypyRoundTrips | src/mewbot_dev_tools/lint.py:147-155 | every printable record's line reads back |
| LineParsers.PylintRecord | src/mewbot_dev_tools/lint.py:173-180 | a line with no colon is skipped; a record is an `error` from `pylint` with no title and a colon-free file |
| LineParsers.PylintReads | src/mewbot_dev_tools/lint.py:172-180 | a line gives a record iff it unpacks into four fields whose second and third parse as integers; the record is that file, line and column with the fourth field as it stands after the line's strip; every other line is skipped |
| LineParsers.LintPylint | src/mewbot_dev_tools/lint.py:172-180 | at most one record per stdout line, and every record is what one of the lines reads as |
| LineParsers.PylintRoundTrip | src/mewbot_dev_tools/lint.py:177-178 | pylint's `file:line:col:message` line reads back as its record, message unstripped |
| LineParsers.LintPylintPrinted | src/mewbot_dev_tools/lint.py:170-180 | a stdout of well-formed pylint lines yields every record, in order |
| LineParsers.PylintRoundTrips | src/mewbot_dev_tools/lint.py:177-178 | every printable record's line reads back |
| LineParsers.PylintFlake8Agree | src/mewbot_dev_tools/lint.py:104-106 | pylint and flake8 accept exactly the same lines and read the same file, line and column; only flake8 strips the message |
| LineParsers.NoColonNoRecords | src/mewbot_dev_tools/lint.py:100-101 | output without a colon yields no record from flake8, mypy or pylint |
| LineParsers.TrailingNewlineIgnored | src/mewbot_dev_tools/lint.py:99-101 | a trailing newline changes none of the three parsers' outputs |
| BlackErrors.BlackLevel | src/mewbot_dev_tools/lint.py:226 | the stripped severity word is kept when it is in `LEVELS`, otherwise `error`; the result is always in `LEVELS` |
| BlackErrors.BlackErrorLine | src/mewbot_dev_tools/lint.py:217-230 | a line is skipped iff its strip is empty or colon-free; a record is from `black`, at a level in `LEVELS`, for a file without spaces, with a stripped title and message |
| BlackErrors.BlackRecord | src/mewbot_dev_tools/lint.py:223-230 | a split line gives a record or raises, never skips; the record's level, source, file, title and message are as above |
| BlackErrors.BlackErrorLineReads | src/mewbot_dev_tools/lint.py:217-230 | a line raises iff its strip holds a colon and does not unpack into six fields whose fourth and fifth parse as integers; when it does unpack, the record is the mapped level, the file after the last space, that line and column, and the stripped title and message |
| BlackErrors.Drain | src/mewbot_dev_tools/lint.py:217-230 | the loop yields at most one record per line |
| BlackErrors.DrainAppend | src/mewbot_dev_tools/lint.py:217-230 | the loop over a concatenation is the first part's run followed by the second's |
| BlackErrors.DrainRaise | src/mewbot_dev_tools/lint.py:217-230 | the loop raises iff some line fails |
| BlackErrors.DrainAllEmit | src/mewbot_dev_tools/lint.py:217-230 | lines that are all records give those records in order and finish |
| BlackErrors.DrainEmitted | src/mewbot_dev_tools/lint.py:217-230 | every record yielded is the record of one of the lines |
| BlackErrors.BlackErrorsShaped | src/mewbot_dev_tools/lint.py:223-230 | every record from black's stderr is from `black`, at a level in `LEVELS`, for a file without spaces |
| BlackErrors.BlackErrorsAppend | src/mewbot_dev_tools/lint.py:215-230 | split stderr composes like two `yield from`s |
| BlackErrors.BlackErrors | src/mewbot_dev_tools/lint.py:217-230 | the loop yields at most one record per line, and every record is what one of the lines reads as |
| BlackErrors.LintBlackErrors | src/mewbot_dev_tools/lint.py:215-230 | `lint_black_errors` raises iff one of the stderr lines fails to read, and every record it yields is what one of the lines reads as |
| BlackErrors.BlackErrorsRaise | src/mewbot_dev_tools/lint.py:223-230 | `lint_black_errors` raises iff some stderr line fails to unpack or its line or column is not an integer |
| BlackErrors.BlackErrorsStopAt | src/mewbot_dev_tools/lint.py:217-230 | at the first failing line the generator raises, having yielded exactly the records of the lines before it |
| BlackErrors.BlackOneColonFails | src/mewbot_dev_tools/lint.py:220-223 | a line with a single colon, such as `error: cannot format x.py`, raises |
| BlackErrors.BlackLevelWord | src/mewbot_dev_tools/lint.py:226 | each level in `LEVELS` reads back as itself |
| BlackErrors.BlackHeadRead | src/mewbot_dev_tools/lint.py:224-226 | the printed severity and the file after the last space read back |
| BlackErrors.BlackTextRead | src/mewbot_dev_tools/lint.py:229 | the title and message read back through `strip()` |
| BlackErrors.BlackPositionRead | src/mewbot_dev_tools/lint.py:229 | the line and column read back through `int()` |
| BlackErrors.SixFields | src/mewbot_dev_tools/lint.py:220-223 | six colon-joined fields, the first five colon-free, survive `strip()` and `split(":", 5)` unchanged |
| BlackErrors.BlackRecordOf | src/mewbot_dev_tools/lint.py:223-230 | the fields black prints build the record they were printed from |
| BlackErrors.BlackRoundTrip | src/mewbot_dev_tools/lint.py:217-230 | black's complaint line for a printable record is one line and reads back as that record |
| BlackErrors.BlackRoundTrips | src/mewbot_dev_tools/lint.py:217-230 | every printable record's complaint reads back |
| BlackErrors.BlackErrorsOfLines | src/mewbot_dev_tools/lint.py:217-230 | printed lines that each read back give their records and finish |
| BlackErrors.BlackErrorsBlank | src/mewbot_dev_tools/lint.py:215-221 | empty stderr is one blank line: no record, no raise |
| BlackErrors.LintBlackErrorsPrinted | src/mewbot_dev_tools/lint.py:210-230 | a stderr of well-formed complaints yields every record, in order, and does not raise |
| BlackErrors.NoteLevels | src/mewbot_dev_tools/lint.py:150-153 | mypy reads `note` as `notice`, while black's stderr reads it as `error` |
| Pydocstyle.HeaderLocation | src/mewbot_dev_tools/lint.py:200 | an unpacked location has a colon-free file and line number |
| Pydocstyle.HeaderLocationExactly | src/mewbot_dev_tools/lint.py:200 | the first token unpacks into `file` and `line_no` iff both are free of colons and spaces and the header is `file:line_no`, alone or followed by a space |
| Pydocstyle.ReadHeader | src/mewbot_dev_tools/lint.py:196-201 | a line is passed over iff its first token does not unpack; otherwise its location is that token's file and the `int()` of its line number, which may fail |
| Pydocstyle.Views | src/mewbot_dev_tools/lint.py:193-201 | one view per line, with stripped messages and colon-free files |
| Pydocstyle.Pairs | src/mewbot_dev_tools/lint.py:195-207 | at most one record per two lines |
| Pydocstyle.PairsTake | src/mewbot_dev_tools/lint.py:200-203 | a header with a location and a line number takes the next line's message into one record |
| Pydocstyle.PairsDrop | src/mewbot_dev_tools/lint.py:201-205 | a header whose line number does not parse still uses up the next line |
| Pydocstyle.PydocstyleRecords | src/mewbot_dev_tools/lint.py:193-207 | at most one record per two lines; each is an `error` at column 1 from `pydocstyle`, with no title, a colon-free file and a stripped message |
| Pydocstyle.LintPydocstyle | src/mewbot_dev_tools/lint.py:193-207 | the loop over stdout yields exactly the records of the specification function |
| Pydocstyle.ScanPydocstyle | src/mewbot_dev_tools/lint.py:195-207 | the cursor loop, with `next(lines)` advancing the same cursor, yields the specification's records |
| Pydocstyle.LoopTurn | src/mewbot_dev_tools/lint.py:195-207 | one loop turn advances the cursor by one or two lines and yields what the specification yields for the lines it used up |
| Pydocstyle.MalformedHeaderKeepsNext | src/mewbot_dev_tools/lint.py:196-200 | a line without a colon, or whose first token does not unpack, is passed over without using up the next line |
| Pydocstyle.HeaderAtEnd | src/mewbot_dev_tools/lint.py:201-207 | a header on the last line yields nothing: the `StopIteration` is caught |
| Pydocstyle.HeaderTakesNext | src/mewbot_dev_tools/lint.py:200-205 | a header that unpacks uses up the next line, whatever it holds; a record comes out iff the line number parses, with the stripped next line as message |
| Pydocstyle.HeaderLocationOf | src/mewbot_dev_tools/lint.py:200 | `file:line_no` followed by a space unpacks to exactly that file and line number |
| Pydocstyle.PydocHeaderRead | src/mewbot_dev_tools/lint.py:200 | pydocstyle's `file:line at module level:` header reads back as its file and line |
| Pydocstyle.PydocMessageRead | src/mewbot_dev_tools/lint.py:201 | the indented message line strips back to the message |
| Pydocstyle.PairsReadsAs | src/mewbot_dev_tools/lint.py:195-207 | views that pair each record's header with its message give back the records |
| Pydocstyle.PydocRoundTrip | src/mewbot_dev_tools/lint.py:193-207 | pydocstyle's two-line output for printable records reads back as those records, in order |
| DiffScanner.FileHeader | src/mewbot_dev_tools/lint.py:251 | `split("\t")` unpacks into two parts exactly when the header holds one tab, and the file is the text before that tab |
| DiffScanner.HunkStart | src/mewbot_dev_tools/lint.py:258-260 | a hunk header that splits into four tokens whose second splits into two at a comma gives the absolute value of the number before the comma, or fails when that is not an integer; a start comes only from such a header |
| DiffScanner.Classify | src/mewbot_dev_tools/lint.py:243-264 | a line is a `+++ `, `--- ` or `@@` header exactly when it starts so; a `--- ` header carries the tab-split file, an `@@` header its start, and any other line is body text as it stands |
| DiffScanner.ScanFrom | src/mewbot_dev_tools/lint.py:242-264 | the scan from any state yields at most one record per line |
| DiffScanner.DiffRecords | src/mewbot_dev_tools/lint.py:242-264 | at most one record per stdout line; each an `error` at column 1 for the tool, titled by the header that flushed it, with a non-empty file, a non-negative line and a non-empty, newline-terminated message |
| DiffScanner.Flush | src/mewbot_dev_tools/lint.py:247-248 | a header flushes at most one record |
| DiffScanner.LintIsortDiffs | src/mewbot_dev_tools/lint.py:233-264 | the loop over isort's stdout yields exactly the specification's records, and raises exactly when it does |
| DiffScanner.LintBlackDiffs | src/mewbot_dev_tools/lint.py:267-298 | the loop over black's stdout yields exactly the specification's records, and raises exactly when it does |
| DiffScanner.ScanDiff | src/mewbot_dev_tools/lint.py:242-264 | the loop that updates `file`, `line` and `buffer` line by line is the scan of the specification function from the initial state |
| DiffScanner.ScanTurn | src/mewbot_dev_tools/lint.py:243-264 | one turn of the loop: either it raises with the record the header flushed, exactly where the scan of the specification raises, or that record comes first and the scan goes on from the new `file`, `line` and `buffer` |
| DiffScanner.ScanRaises | src/mewbot_dev_tools/lint.py:251-260 | the scan raises iff some line is a header that cannot be taken apart |
| DiffScanner.DiffRecordsRaise | src/mewbot_dev_tools/lint.py:242-264 | `lint_isort_diffs` and `lint_black_diffs` raise iff one of the stdout lines is such a header |
| DiffScanner.NoFlushAtEnd | src/mewbot_dev_tools/lint.py:242-264 | body lines after the last header yield nothing: the buffer pending at the end of input is dropped |
| DiffScanner.ScanShaped | src/mewbot_dev_tools/lint.py:246-264 | from any state with a non-negative line and a whole-line buffer: at most one record per line, each an `error` at column 1 for the tool, titled by the header that flushed it, with a non-empty file, a non-negative line and a non-empty, newline-terminated message |
| DiffScanner.HeaderFlushes | src/mewbot_dev_tools/lint.py:246-256 | a header arriving while a file and a buffer are held flushes them first, as an `error` at column 1 at the held line, titled by the kind of header: for isort `isort alteration` after `--- ` and `isort altteration` after `@@`; black's two titles are the same |
| DiffScanner.FileHeaderKeepsLine | src/mewbot_dev_tools/lint.py:246-264 | a `--- ` header resets the buffer but not the line number: body lines of the next file before its first `@@` are reported at the previous hunk's start |
| DiffScanner.ScanBodies | src/mewbot_dev_tools/lint.py:264 | a run of body lines appends each line and a newline to the buffer and yields nothing |
| DiffScanner.ScanHunks | src/mewbot_dev_tools/lint.py:254-264 | the non-empty hunks of one file yield one record per hunk except the last, each at its own start line with its own body; the first header flushes what was pending |
| DiffScanner.NextFileFlushesHunk | src/mewbot_dev_tools/lint.py:246-256 | two hunks of one file followed by the next file's `--- ` header give two records, one per hunk, at their own starts, titled by the header that flushed each |
| DiffScanner.OldFileLineRead | src/mewbot_dev_tools/lint.py:246-252 | a `--- file<TAB>stamp` header sets the file |
| DiffScanner.UntabbedOldFileRaises | src/mewbot_dev_tools/lint.py:251 | a `--- ` header without a tab raises |
| DiffScanner.TwoTabOldFileRaises | src/mewbot_dev_tools/lint.py:251 | a `--- ` header with two tabs raises |
| DiffScanner.HunkHeaderFields | src/mewbot_dev_tools/lint.py:258-259 | `@@ start,length target @@` splits into its four tokens, and its old range into start and length |
| DiffScanner.HunkHeaderStart | src/mewbot_dev_tools/lint.py:258-260 | `@@ start,length target @@` gives the start's absolute value |
| DiffScanner.HunkHeaderRead | src/mewbot_dev_tools/lint.py:254-260 | such a header is a hunk header starting at the start's absolute value |
| DiffScanner.HunkTrailingTextRaises | src/mewbot_dev_tools/lint.py:254-260 | an `@@` header with text after the closing `@@` raises |
| DiffScanner.OneLineHunkRaises | src/mewbot_dev_tools/lint.py:258-259 | a range written without a length, as difflib writes one-line ranges, raises |
| Toolchain.LintIsort | src/mewbot_dev_tools/lint.py:53-68 | `lint_isort` raises exactly when a line of isort's diff is a header that cannot be taken apart; its records have a level in `LEVELS` and source `isort` |
| Toolchain.LintBlack | src/mewbot_dev_tools/lint.py:70-86 | `lint_black` raises exactly when a line of black's stderr fails to read or a line of its diff is a header that cannot be taken apart; its records have a level in `LEVELS` and source `black` |
| Toolchain.Quiet | src/mewbot_dev_tools/lint.py:47-51 | the records of flake8, mypy, pylint, pydocstyle and bandit, which never raise; every record bandit did not make has a level in `LEVELS` and names its tool |
| Toolchain.Run | src/mewbot_dev_tools/lint.py:42-51 | `run` raises iff isort's diff, black's stderr or black's diff has a line its parser cannot take apart; every record that bandit did not make has a level in `LEVELS` and names one of the six tools as its source |
| Toolchain.RunInOrder | src/mewbot_dev_tools/lint.py:45-51 | a run that does not raise yields isort's records, then black's complaints, then black's diff records, then flake8, mypy, pylint, pydocstyle and bandit |
| Toolchain.BlackErrorsRaiseEndsRun | src/mewbot_dev_tools/lint.py:85-86 | when black's stderr raises, black's diff is never read and nothing after it is reported |
| Toolchain.IsortRaiseEndsRun | src/mewbot_dev_tools/lint.py:45-46 | when isort's diff raises, no other tool is reported |

## Left out

- Running the tools: `run_tool`, subprocess handling, the CI-only arguments and the environment (`MYPY_FORCE_COLOR`, `MYPYPATH`, `gather_paths`). Each tool's decoded stdout and stderr are inputs of `Toolchain.Run`.
- `get_module_paths`, `parse_lint_options` and `main`: file-system access and command-line handling, not output normalisation.
- `lint_bandit` lives in another module. Its records are an opaque input appended last.
- UTF-8 decoding, including pylint's `errors="replace"`. The model starts from decoded text.
- Text.ParseInt: `int()` accepts underscores between digits and non-ASCII Unicode digits. The model accepts only ASCII digits with an optional sign and surrounding whitespace, so a line number such as `1_0` is skipped or raises here where Python would read it.
- Text.ParseInt: Python 3.11 and later reject text of more than 4300 digits. The model reads a number of any length, so such a line gives a record here where Python skips it or raises.
- Generator laziness. A generator is modelled by the records it hands on before it ends or raises, so interleaving with the consumer is not modelled. The order of records and the point at which a raise stops the run are modelled.
