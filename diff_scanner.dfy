/**
 * `lint_isort_diffs` and `lint_black_diffs`: one scanner over a unified diff,
 * written out twice in the source with different tool names and titles. It
 * carries a file name, a hunk start line and a text buffer from line to line,
 * and turns each buffered hunk into one annotation when the next header arrives.
 * A header it cannot take apart raises `ValueError`.
 */
module DiffScanner {
  import opened Wrappers
  import opened Text
  import opened Annotations
  import opened LineParsers

  /** The tool a copy of the scanner reports for, and its titles for a record flushed by a file header and by a hunk header. */
  datatype DiffTool = DiffTool(source: string, fileTitle: string, hunkTitle: string)

  /** `lint_isort_diffs`, whose hunk-header title is spelt `altteration`. */
  const Isort: DiffTool := DiffTool("isort", "isort alteration", "isort altteration")

  /** `lint_black_diffs`, with one title for both. */
  const Black: DiffTool := DiffTool("black", "Black alteration", "Black alteration")

  /** `file`, `line` and `buffer` between two lines of the diff. */
  datatype ScanState = ScanState(file: string, line: int, buffer: string)

  /** The values before the first line. */
  const Start: ScanState := ScanState("", 0, "")

  /** `rest` is the file, one tab, and text without a tab. */
  predicate OneTab(rest: string, file: string, stamp: string) {
    '\t' !in file && '\t' !in stamp && rest == file + "\t" + stamp
  }

  /** `diff_line[4:].split("\t")` gives exactly the file and what follows its tab, when the text holds one tab. */
  lemma TabSplit(rest: string)
    ensures forall file, stamp :: OneTab(rest, file, stamp) ==> Split(rest, '\t') == [file, stamp]
    ensures |Split(rest, '\t')| == 2 ==>
      OneTab(rest, Split(rest, '\t')[0], Split(rest, '\t')[1]) && Split(rest, '\t')[1] == rest[|Split(rest, '\t')[0]| + 1..]
  {
    forall file, stamp | OneTab(rest, file, stamp)
      ensures Split(rest, '\t') == [file, stamp]
    {
      Join2(file, stamp, '\t');
      SplitJoin([file, stamp], '\t');
    }
    var parts := Split(rest, '\t');
    if |parts| == 2 {
      SplitNJoin(rest, '\t', -1);
      assert parts == [parts[0], parts[1]];
      Join2(parts[0], parts[1], '\t');
    }
  }

  /**
   * `file, _ = diff_line[4:].split("\t")`: it unpacks exactly when the text holds
   * one tab, and the file is what precedes that tab.
   */
  function FileHeader(rest: string): (file: Option<string>)
    ensures forall f, stamp :: OneTab(rest, f, stamp) ==> file == Some(f)
    ensures file.Some? ==> |file.value| < |rest| && OneTab(rest, file.value, rest[|file.value| + 1..])
  {
    TabSplit(rest);
    var parts := Split(rest, '\t');
    if |parts| == 2 then Some(parts[0]) else None
  }

  /** Python's `abs`. */
  function Abs(n: int): nat {
    if n < 0 then -n else n
  }

  /** The header is four space-separated tokens, and the second token is two comma-separated parts. */
  predicate HunkFields(header: string, tokens: seq<string>, range: seq<string>) {
    |tokens| == 4 && SplitsInto(header, ' ', tokens) && |range| == 2 && SplitsInto(tokens[1], ',', range)
  }

  /** The splits `HunkStart` makes give exactly the tokens and the parts of its second token. */
  lemma HunkSplit(header: string)
    ensures forall tokens, range :: HunkFields(header, tokens, range) ==>
      Split(header, ' ') == tokens && Split(tokens[1], ',') == range
    ensures var tokens := Split(header, ' ');
      |tokens| == 4 && |Split(tokens[1], ',')| == 2 ==> HunkFields(header, tokens, Split(tokens[1], ','))
  {
    forall tokens, range | HunkFields(header, tokens, range)
      ensures Split(header, ' ') == tokens && Split(tokens[1], ',') == range
    {
      SplitExactly(header, ' ', tokens);
      SplitExactly(tokens[1], ',', range);
    }
    var tokens := Split(header, ' ');
    SplitExactly(header, ' ', tokens);
    if |tokens| == 4 {
      SplitExactly(tokens[1], ',', Split(tokens[1], ','));
    }
  }

  /**
   * `_, start, _, _ = diff_line.split(" ")`, `_line, _ = start.split(",")` and
   * `abs(int(_line))`: a start exactly when the header is four space-separated
   * tokens, the second of them two comma-separated parts, and the first part an
   * integer; the start is that integer without its sign.
   */
  function HunkStart(header: string): (start: Option<nat>)
    ensures forall tokens, range :: HunkFields(header, tokens, range) ==>
      start == if ParseInt(range[0]).Some? then Some(Abs(ParseInt(range[0]).value)) else None
    ensures start.Some? ==> exists tokens, range :: HunkFields(header, tokens, range) && ParseInt(range[0]).Some?
  {
    HunkSplit(header);
    var tokens := Split(header, ' ');
    if |tokens| != 4 then None
    else
      var range := Split(tokens[1], ',');
      if |range| != 2 then None
      else
        match ParseInt(range[0])
        case Some(n) => Some(Abs(n))
        case None => None
  }

  /** What one diff line is to the scanner; a header carries what could be read from it. */
  datatype DiffLine = NewFile | OldFile(file: Option<string>) | Hunk(start: Option<nat>) | Body(text: string)

  /**
   * The tests in the order the loop makes them: `+++ `, then `--- `, then `@@`.
   * No line passes two of them, so each class is exactly the lines with its prefix.
   */
  function Classify(l: string): (d: DiffLine)
    ensures d.NewFile? <==> StartsWith(l, "+++ ")
    ensures d.OldFile? <==> StartsWith(l, "--- ")
    ensures d.Hunk? <==> StartsWith(l, "@@")
    ensures d.OldFile? ==> |l| >= 4 && d.file == FileHeader(l[4..])
    ensures d.Hunk? ==> d.start == HunkStart(l)
    ensures d.Body? ==> d.text == l
  {
    PrefixesDiffer(l);
    if StartsWith(l, "+++ ") then NewFile
    else if StartsWith(l, "--- ") then OldFile(FileHeader(l[4..]))
    else if StartsWith(l, "@@") then Hunk(HunkStart(l))
    else Body(l)
  }

  /** A line starts with at most one of `+++ `, `--- ` and `@@`. */
  lemma PrefixesDiffer(l: string)
    ensures StartsWith(l, "+++ ") ==> !StartsWith(l, "--- ") && !StartsWith(l, "@@")
    ensures StartsWith(l, "--- ") ==> !StartsWith(l, "@@")
  {
    if StartsWith(l, "+++ ") || StartsWith(l, "--- ") {
      assert l[0] == l[..4][0];
    }
    if StartsWith(l, "@@") {
      assert l[0] == l[..2][0];
    }
  }

  /** Every line classified, in order. */
  function Classified(lines: seq<string>): (ds: seq<DiffLine>)
    ensures |ds| == |lines|
  {
    if lines == [] then [] else [Classify(lines[0])] + Classified(lines[1..])
  }

  /** The record yielded when a header arrives with both `file` and `buffer` non-empty; nothing otherwise. */
  function Flush(tool: DiffTool, st: ScanState, title: string): (out: seq<Annotation>)
    ensures |out| <= 1
  {
    if st.file != [] && st.buffer != [] then [Annotation("error", st.file, st.line, 1, tool.source, title, st.buffer)]
    else []
  }

  /**
   * The records the loop yields from state `st` over the classified lines `ds`.
   * A header flushes before it is taken apart, so a header that raises still
   * hands over the record it flushed. The buffer left at the end is dropped.
   */
  function ScanFrom(tool: DiffTool, st: ScanState, ds: seq<DiffLine>): (y: Yielded)
    ensures |y.records| <= |ds|
    decreases |ds|
  {
    if ds == [] then Finished([])
    else
      match ds[0]
      case NewFile => ScanFrom(tool, st, ds[1..])
      case OldFile(file) =>
        var out := Flush(tool, st, tool.fileTitle);
        if file.None? then Raised(out)
        else Then(Finished(out), ScanFrom(tool, ScanState(file.value, st.line, []), ds[1..]))
      case Hunk(start) =>
        var out := Flush(tool, st, tool.hunkTitle);
        if start.None? then Raised(out)
        else Then(Finished(out), ScanFrom(tool, ScanState(st.file, start.value, []), ds[1..]))
      case Body(text) => ScanFrom(tool, st.(buffer := st.buffer + text + "\n"), ds[1..])
  }

  /**
   * The records one copy of the scanner yields for the lines of its tool's stdout:
   * at most one per line, each an `error` at column 1 for the tool, titled by the
   * kind of header that flushed it, for a named file, at a line number no smaller
   * than 0, with a message of whole lines.
   */
  function DiffRecords(tool: DiffTool, lines: seq<string>): (y: Yielded)
    ensures |y.records| <= |lines|
    ensures forall k :: 0 <= k < |y.records| ==> DiffShaped(tool, y.records[k])
  {
    ScanShaped(tool, Start, Classified(lines));
    ScanFrom(tool, Start, Classified(lines))
  }

  /** Dropping lines from the front drops their classes. */
  lemma {:induction false} ClassifiedTail(lines: seq<string>, k: nat)
    requires k <= |lines|
    ensures Classified(lines)[k..] == Classified(lines[k..])
    decreases k
  {
    if k > 0 {
      assert Classified(lines)[1..] == Classified(lines[1..]);
      ClassifiedTail(lines[1..], k - 1);
      assert lines[1..][k - 1..] == lines[k..];
      assert Classified(lines)[k..] == Classified(lines)[1..][k - 1..];
    }
  }

  /** The class of the line at `k`, and the classes after it. */
  lemma ClassifiedAt(lines: seq<string>, k: nat)
    requires k < |lines|
    ensures Classified(lines)[k] == Classify(lines[k])
    ensures Classified(lines)[k..][1..] == Classified(lines)[k + 1..]
  {
    ClassifiedTail(lines, k);
    assert lines[k..][0] == lines[k] && lines[k..][1..] == lines[k + 1..];
    assert Classified(lines[k..]) == [Classify(lines[k])] + Classified(lines[k + 1..]);
    ClassifiedTail(lines, k + 1);
  }

  /** `lint_isort_diffs` on isort's stdout. */
  method LintIsortDiffs(stdout: string) returns (y: Yielded)
    ensures y == DiffRecords(Isort, Lines(stdout))
  {
    y := ScanDiff(Isort, Lines(stdout));
  }

  /** `lint_black_diffs` on black's stdout. */
  method LintBlackDiffs(stdout: string) returns (y: Yielded)
    ensures y == DiffRecords(Black, Lines(stdout))
  {
    y := ScanDiff(Black, Lines(stdout));
  }

  /** The `for` loop of either scanner over the diff lines. */
  method ScanDiff(tool: DiffTool, lines: seq<string>) returns (y: Yielded)
    ensures y == DiffRecords(tool, lines)
  {
    ghost var ds := Classified(lines);
    var file, line, buffer := "", 0, "";
    var records: seq<Annotation> := [];
    var i := 0;
    assert ds[i..] == ds;
    while i < |lines|
      invariant i <= |lines|
      invariant Then(Finished(records), ScanFrom(tool, ScanState(file, line, buffer), ds[i..])) == ScanFrom(tool, Start, ds)
    {
      ghost var before := records;
      var out, raised;
      out, raised, file, line, buffer := ScanTurn(tool, file, line, buffer, lines, i, ds);
      records := records + out;
      if raised {
        return Raised(records);
      }
      ThenFinished(before, out, ScanFrom(tool, ScanState(file, line, buffer), ds[i + 1..]));
      i := i + 1;
    }
    assert ds[i..] == [];
    y := Finished(records);
  }

  /**
   * One turn of the loop on the line at `i`, from the values `file`, `line` and
   * `buffer`: the record a header flushes, whether the header raised, and the
   * new values. The lines after `i` scan on from the new values.
   */
  method ScanTurn(tool: DiffTool, file: string, line: int, buffer: string, lines: seq<string>, i: nat, ghost ds: seq<DiffLine>)
    returns (out: seq<Annotation>, raised: bool, file': string, line': int, buffer': string)
    requires i < |lines| && ds == Classified(lines)
    ensures ScanFrom(tool, ScanState(file, line, buffer), ds[i..]) ==
      if raised then Raised(out) else Then(Finished(out), ScanFrom(tool, ScanState(file', line', buffer'), ds[i + 1..]))
  {
    ClassifiedAt(lines, i);
    var l := lines[i];
    ghost var st := ScanState(file, line, buffer);
    ghost var here := ds[i..];
    ghost var rest := ds[i + 1..];
    assert here[0] == Classify(l) && here[1..] == rest;
    out, raised, file', line', buffer' := [], false, file, line, buffer;
    if StartsWith(l, "+++ ") {
      ScanNewFile(tool, st, here);
      assert Then(Finished([]), ScanFrom(tool, st, rest)) == ScanFrom(tool, st, rest);
    } else if StartsWith(l, "--- ") {
      if file != [] && buffer != [] {
        out := [Annotation("error", file, line, 1, tool.source, tool.fileTitle, buffer)];
      }
      buffer' := [];
      var f := FileHeader(l[4..]);
      if f.None? {
        ScanOldFileRaises(tool, st, here);
        raised := true;
      } else {
        file' := f.value;
        ScanOldFile(tool, st, here, file');
      }
    } else if StartsWith(l, "@@") {
      if file != [] && buffer != [] {
        out := [Annotation("error", file, line, 1, tool.source, tool.hunkTitle, buffer)];
      }
      var start := HunkStart(l);
      if start.None? {
        ScanHunkRaises(tool, st, here);
        raised := true;
      } else {
        line' := start.value;
        buffer' := [];
        ScanHunk(tool, st, here, line');
      }
    } else {
      buffer' := buffer + l + "\n";
      ScanBody(tool, st, here, l);
      assert Then(Finished([]), ScanFrom(tool, st.(buffer := buffer'), rest)) == ScanFrom(tool, st.(buffer := buffer'), rest);
    }
  }

  /** `+++ ` lines change nothing. */
  lemma ScanNewFile(tool: DiffTool, st: ScanState, ds: seq<DiffLine>)
    requires ds != [] && ds[0] == NewFile
    ensures ScanFrom(tool, st, ds) == ScanFrom(tool, st, ds[1..])
  {
  }

  /** A `--- ` header without exactly one tab raises after flushing. */
  lemma ScanOldFileRaises(tool: DiffTool, st: ScanState, ds: seq<DiffLine>)
    requires ds != [] && ds[0] == OldFile(None)
    ensures ScanFrom(tool, st, ds) == Raised(Flush(tool, st, tool.fileTitle))
  {
  }

  /** A `--- ` header flushes, empties the buffer and names the new file; the line number stays. */
  lemma ScanOldFile(tool: DiffTool, st: ScanState, ds: seq<DiffLine>, file: string)
    requires ds != [] && ds[0] == OldFile(Some(file))
    ensures ScanFrom(tool, st, ds) ==
      Then(Finished(Flush(tool, st, tool.fileTitle)), ScanFrom(tool, ScanState(file, st.line, []), ds[1..]))
  {
  }

  /** An `@@` header that cannot be taken apart raises after flushing. */
  lemma ScanHunkRaises(tool: DiffTool, st: ScanState, ds: seq<DiffLine>)
    requires ds != [] && ds[0] == Hunk(None)
    ensures ScanFrom(tool, st, ds) == Raised(Flush(tool, st, tool.hunkTitle))
  {
  }

  /** An `@@` header flushes, empties the buffer and sets the line number; the file stays. */
  lemma ScanHunk(tool: DiffTool, st: ScanState, ds: seq<DiffLine>, line: nat)
    requires ds != [] && ds[0] == Hunk(Some(line))
    ensures ScanFrom(tool, st, ds) ==
      Then(Finished(Flush(tool, st, tool.hunkTitle)), ScanFrom(tool, ScanState(st.file, line, []), ds[1..]))
  {
  }

  /** Any other line goes into the buffer with a newline after it. */
  lemma ScanBody(tool: DiffTool, st: ScanState, ds: seq<DiffLine>, text: string)
    requires ds != [] && ds[0] == Body(text)
    ensures ScanFrom(tool, st, ds) == ScanFrom(tool, st.(buffer := st.buffer + text + "\n"), ds[1..])
  {
  }

  // ---------------------------------------------------------------- what the scanner promises

  /** A line the scanner cannot take apart: a `--- ` header without exactly one tab, or a bad `@@` header. */
  predicate Fatal(d: DiffLine) {
    d == OldFile(None) || d == Hunk(None)
  }

  /** The scan raises exactly when some line is fatal. */
  lemma {:induction false} ScanRaises(tool: DiffTool, st: ScanState, ds: seq<DiffLine>)
    ensures ScanFrom(tool, st, ds).Raised? <==> exists j :: 0 <= j < |ds| && Fatal(ds[j])
    decreases |ds|
  {
    if ds != [] {
      var next := match ds[0]
        case OldFile(f) => ScanState(if f.Some? then f.value else [], st.line, [])
        case Hunk(n) => ScanState(st.file, if n.Some? then n.value else 0, [])
        case Body(t) => st.(buffer := st.buffer + t + "\n")
        case NewFile => st;
      ScanRaises(tool, next, ds[1..]);
      if exists j :: 0 <= j < |ds| - 1 && Fatal(ds[1..][j]) {
        var j :| 0 <= j < |ds| - 1 && Fatal(ds[1..][j]);
        assert Fatal(ds[j + 1]);
      }
      if exists j :: 0 <= j < |ds| && Fatal(ds[j]) {
        var j :| 0 <= j < |ds| && Fatal(ds[j]);
        if j > 0 {
          assert Fatal(ds[1..][j - 1]);
        }
      }
    }
  }

  /** `lint_isort_diffs` and `lint_black_diffs` raise exactly when one of the lines is a header they cannot take apart. */
  lemma DiffRecordsRaise(tool: DiffTool, lines: seq<string>)
    ensures DiffRecords(tool, lines).Raised? <==> exists j :: 0 <= j < |lines| && Fatal(Classify(lines[j]))
  {
    var ds := Classified(lines);
    ScanRaises(tool, Start, ds);
    if exists j :: 0 <= j < |ds| && Fatal(ds[j]) {
      var j :| 0 <= j < |ds| && Fatal(ds[j]);
      ClassifiedAt(lines, j);
    }
    if exists j :: 0 <= j < |lines| && Fatal(Classify(lines[j])) {
      var j :| 0 <= j < |lines| && Fatal(Classify(lines[j]));
      ClassifiedAt(lines, j);
      assert Fatal(ds[j]);
    }
  }

  /** Lines after the last header only fill the buffer: nothing more is yielded, and the buffer is never flushed at the end. */
  lemma {:induction false} NoFlushAtEnd(tool: DiffTool, st: ScanState, ds: seq<DiffLine>)
    requires forall j :: 0 <= j < |ds| ==> ds[j].Body? || ds[j].NewFile?
    ensures ScanFrom(tool, st, ds) == Finished([])
    decreases |ds|
  {
    if ds != [] {
      assert forall j :: 0 <= j < |ds| - 1 ==> ds[1..][j] == ds[j + 1];
      NoFlushAtEnd(tool, if ds[0].Body? then st.(buffer := st.buffer + ds[0].text + "\n") else st, ds[1..]);
    }
  }

  /** The loop's state between lines: a line number from `abs`, and a buffer of whole lines. */
  predicate Consistent(st: ScanState) {
    st.line >= 0 && (st.buffer == [] || st.buffer[|st.buffer| - 1] == '\n')
  }

  /** What every record of the scanner looks like. */
  predicate DiffShaped(tool: DiffTool, a: Annotation) {
    && a.level == "error" && a.column == 1 && a.source == tool.source
    && (a.title == tool.fileTitle || a.title == tool.hunkTitle)
    && a.file != [] && a.line >= 0
    && a.message != [] && a.message[|a.message| - 1] == '\n'
  }

  /**
   * At most one record per line, each an `error` at column 1 for the tool, titled
   * by the kind of header that flushed it, for a named file, at a line number no
   * smaller than 0, with a message of whole lines.
   */
  lemma {:induction false} ScanShaped(tool: DiffTool, st: ScanState, ds: seq<DiffLine>)
    requires Consistent(st)
    ensures |ScanFrom(tool, st, ds).records| <= |ds|
    ensures forall k :: 0 <= k < |ScanFrom(tool, st, ds).records| ==> DiffShaped(tool, ScanFrom(tool, st, ds).records[k])
    decreases |ds|
  {
    if ds != [] {
      match ds[0]
      case NewFile =>
        ScanShaped(tool, st, ds[1..]);
      case OldFile(f) =>
        if f.Some? {
          ScanShaped(tool, ScanState(f.value, st.line, []), ds[1..]);
        }
      case Hunk(n) =>
        if n.Some? {
          ScanShaped(tool, ScanState(st.file, n.value, []), ds[1..]);
        }
      case Body(t) =>
        var b := st.buffer + t + "\n";
        assert b[|b| - 1] == '\n';
        ScanShaped(tool, st.(buffer := b), ds[1..]);
    }
  }

  /**
   * A header arriving while both a file and a buffer are held flushes them as the
   * first record, titled by the kind of header: for isort, `isort alteration`
   * after a `--- ` header and `isort altteration` after an `@@` header.
   */
  lemma HeaderFlushes(tool: DiffTool, st: ScanState, ds: seq<DiffLine>)
    requires st.file != [] && st.buffer != []
    requires ds != [] && (ds[0].OldFile? || ds[0].Hunk?)
    ensures ScanFrom(tool, st, ds).records != []
    ensures ScanFrom(tool, st, ds).records[0] ==
      Annotation("error", st.file, st.line, 1, tool.source, if ds[0].OldFile? then tool.fileTitle else tool.hunkTitle, st.buffer)
  {
  }

  /**
   * A `--- ` header does not reset the line number: the lines of the next file
   * that come before its first `@@` header are reported at the previous file's
   * hunk start.
   */
  lemma FileHeaderKeepsLine(tool: DiffTool, st: ScanState, file: string, text: string, start: nat)
    requires file != []
    ensures ScanFrom(tool, st, [OldFile(Some(file)), Body(text), Hunk(Some(start))]) ==
      Finished(Flush(tool, st, tool.fileTitle) + [Annotation("error", file, st.line, 1, tool.source, tool.hunkTitle, text + "\n")])
  {
    var ds := [OldFile(Some(file)), Body(text), Hunk(Some(start))];
    var st1 := ScanState(file, st.line, []);
    var st2 := st1.(buffer := [] + text + "\n");
    assert ds[1..] == [Body(text), Hunk(Some(start))] && ds[1..][1..] == [Hunk(Some(start))];
    assert ScanFrom(tool, st2, [Hunk(Some(start))]) == Finished(Flush(tool, st2, tool.hunkTitle));
    assert [] + text + "\n" == text + "\n";
  }

  /** Body lines, in order. */
  function Bodies(ts: seq<string>): (ds: seq<DiffLine>)
    ensures |ds| == |ts|
  {
    if ts == [] then [] else [Body(ts[0])] + Bodies(ts[1..])
  }

  /** The text body lines leave in the buffer: each line followed by a newline. */
  function Buffered(ts: seq<string>): string {
    if ts == [] then [] else ts[0] + "\n" + Buffered(ts[1..])
  }

  /** Buffering the first line, then the others, buffers them all. */
  lemma BufferedStep(buffer: string, ts: seq<string>)
    requires ts != []
    ensures buffer + ts[0] + "\n" + Buffered(ts[1..]) == buffer + Buffered(ts)
  {
    calc {
      buffer + ts[0] + "\n" + Buffered(ts[1..]);
      buffer + (ts[0] + "\n" + Buffered(ts[1..]));
      buffer + Buffered(ts);
    }
  }

  /** The first of the body lines, and the others. */
  lemma BodiesCons(ts: seq<string>, rest: seq<DiffLine>)
    requires ts != []
    ensures Bodies(ts) + rest != [] && (Bodies(ts) + rest)[0] == Body(ts[0])
    ensures (Bodies(ts) + rest)[1..] == Bodies(ts[1..]) + rest
  {
    assert Bodies(ts) + rest == [Body(ts[0])] + (Bodies(ts[1..]) + rest);
  }

  /** A run of body lines appends each of them, newline-terminated, to the buffer, and yields nothing. */
  lemma {:induction false} ScanBodies(tool: DiffTool, st: ScanState, ts: seq<string>, rest: seq<DiffLine>)
    ensures ScanFrom(tool, st, Bodies(ts) + rest) == ScanFrom(tool, st.(buffer := st.buffer + Buffered(ts)), rest)
    decreases |ts|
  {
    if ts == [] {
      assert Bodies(ts) + rest == rest && st.buffer + Buffered(ts) == st.buffer;
    } else {
      BodiesCons(ts, rest);
      ScanBody(tool, st, Bodies(ts) + rest, ts[0]);
      ScanBodies(tool, st.(buffer := st.buffer + ts[0] + "\n"), ts[1..], rest);
      BufferedStep(st.buffer, ts);
    }
  }

  /** One hunk of a diff: the start line its header gives, and its body lines. */
  datatype HunkText = HunkText(start: nat, body: seq<string>)

  /** The hunks of one file as classified lines: each header followed by its body. */
  function HunkLines(hs: seq<HunkText>): seq<DiffLine> {
    if hs == [] then [] else [Hunk(Some(hs[0].start))] + Bodies(hs[0].body) + HunkLines(hs[1..])
  }

  /** One record for every hunk but the last, each flushed by the next hunk's header. */
  function HunkRecords(tool: DiffTool, file: string, hs: seq<HunkText>): seq<Annotation> {
    if |hs| <= 1 then []
    else [Annotation("error", file, hs[0].start, 1, tool.source, tool.hunkTitle, Buffered(hs[0].body))] + HunkRecords(tool, file, hs[1..])
  }

  /**
   * The hunks of one file yield a record for each hunk except the last, whose
   * buffer is still pending when the input ends; the first header flushes what
   * was pending before it.
   */
  lemma {:induction false} ScanHunks(tool: DiffTool, file: string, line: int, buffer: string, hs: seq<HunkText>)
    requires file != []
    requires forall k :: 0 <= k < |hs| ==> hs[k].body != []
    ensures ScanFrom(tool, ScanState(file, line, buffer), HunkLines(hs)) ==
      Finished((if hs == [] then [] else Flush(tool, ScanState(file, line, buffer), tool.hunkTitle)) + HunkRecords(tool, file, hs))
    decreases |hs|
  {
    if hs != [] {
      var h := hs[0];
      var st := ScanState(file, line, buffer);
      var ds := HunkLines(hs);
      assert ds == [Hunk(Some(h.start))] + (Bodies(h.body) + HunkLines(hs[1..]));
      ScanHunk(tool, st, ds, h.start);
      assert ds[1..] == Bodies(h.body) + HunkLines(hs[1..]);
      ScanBodies(tool, ScanState(file, h.start, []), h.body, HunkLines(hs[1..]));
      var b := [] + Buffered(h.body);
      assert b == Buffered(h.body) && b != [];
      assert forall k :: 0 <= k < |hs| - 1 ==> hs[1..][k] == hs[k + 1];
      ScanHunks(tool, file, h.start, b, hs[1..]);
      if |hs| == 1 {
        assert HunkRecords(tool, file, hs[1..]) == [];
      }
    }
  }

  /**
   * The next file's `--- ` header flushes the last hunk of the file before it:
   * two hunks of `a.py` followed by a header for `b.py` give two records.
   */
  lemma NextFileFlushesHunk()
    ensures ScanFrom(Isort, Start, [OldFile(Some("a.py")), Hunk(Some(1)), Body("x"), Hunk(Some(5)), Body("y"), OldFile(Some("b.py"))]).records
      == [Annotation("error", "a.py", 1, 1, "isort", "isort altteration", "x\n"),
          Annotation("error", "a.py", 5, 1, "isort", "isort alteration", "y\n")]
  {
    var ds := [OldFile(Some("a.py")), Hunk(Some(1)), Body("x"), Hunk(Some(5)), Body("y"), OldFile(Some("b.py"))];
    var first := Annotation("error", "a.py", 1, 1, "isort", "isort altteration", "x\n");
    var second := Annotation("error", "a.py", 5, 1, "isort", "isort alteration", "y\n");
    assert ds[1..][1..] == ds[2..] && ds[2..][1..] == ds[3..] && ds[3..][1..] == ds[4..];
    assert ds[4..][1..] == ds[5..] && ds[5..][1..] == [];
    assert [] + "x" + "\n" == "x\n" && [] + "y" + "\n" == "y\n";
    // `--- b.py` flushes the second hunk; nothing follows it.
    ScanOldFile(Isort, ScanState("a.py", 5, "y\n"), ds[5..], "b.py");
    assert Flush(Isort, ScanState("a.py", 5, "y\n"), Isort.fileTitle) == [second];
    var afterY := ScanFrom(Isort, ScanState("a.py", 5, "y\n"), ds[5..]);
    assert afterY == Finished([second]);
    // The body `y` is buffered after the second `@@`.
    ScanBody(Isort, ScanState("a.py", 5, []), ds[4..], "y");
    var afterHunk2 := ScanFrom(Isort, ScanState("a.py", 5, []), ds[4..]);
    assert afterHunk2 == afterY;
    // The second `@@` flushes the first hunk.
    ScanHunk(Isort, ScanState("a.py", 1, "x\n"), ds[3..], 5);
    assert Flush(Isort, ScanState("a.py", 1, "x\n"), Isort.hunkTitle) == [first];
    var afterX := ScanFrom(Isort, ScanState("a.py", 1, "x\n"), ds[3..]);
    assert afterX == Then(Finished([first]), afterHunk2);
    assert afterX == Finished([first, second]);
    // The body `x`, the first `@@` and `--- a.py` flush nothing.
    ScanBody(Isort, ScanState("a.py", 1, []), ds[2..], "x");
    ScanHunk(Isort, ScanState("a.py", 0, []), ds[1..], 1);
    ScanOldFile(Isort, Start, ds, "a.py");
  }

  // ---------------------------------------------------------------- headers as difflib writes them

  /** A `--- ` header: the file name, a tab, and a timestamp. */
  function OldFileLine(file: string, stamp: string): string {
    "--- " + file + "\t" + stamp
  }

  /** The scanner reads the file name back from a `--- ` header with one tab. */
  lemma OldFileLineRead(file: string, stamp: string)
    requires '\t' !in file && '\t' !in stamp
    ensures Classify(OldFileLine(file, stamp)) == OldFile(Some(file))
  {
    var l := OldFileLine(file, stamp);
    var rest := file + ['\t'] + stamp;
    assert l == "--- " + rest && l[4..] == rest;
    assert l[0] == '-';
    assert Join([file, stamp], '\t') == rest;
    SplitJoin([file, stamp], '\t');
  }

  /** A `--- ` header without a tab cannot be unpacked into two names: the scan raises there. */
  lemma UntabbedOldFileRaises(rest: string)
    requires '\t' !in rest
    ensures Fatal(Classify("--- " + rest))
  {
    var l := "--- " + rest;
    assert l[4..] == rest && l[0] == '-';
    SplitNNone(rest, '\t', -1);
  }

  /** An `@@` header whose old range has a start and a length, as `-start,length`. */
  function HunkHeaderLine(start: int, length: int, target: string): string {
    "@@ " + ShowInt(start) + "," + ShowInt(length) + " " + target + " @@"
  }

  /** An `@@` line is classified by what `HunkStart` reads from it. */
  lemma ClassifyHunk(l: string)
    requires |l| >= 2 && l[0] == '@' && l[1] == '@'
    ensures Classify(l) == Hunk(HunkStart(l))
  {
    assert StartsWith(l, "@@");
  }

  /** `HunkStart` from the pieces it splits its header into. */
  lemma HunkStartOf(header: string, tokens: seq<string>, range: seq<string>, n: int)
    requires HunkFields(header, tokens, range) && ParseInt(range[0]) == Some(n)
    ensures HunkStart(header) == Some(Abs(n))
  {
  }

  /** The tokens of an `@@` header with one space between each two. */
  lemma HeaderTokens(range: string, target: string)
    requires ' ' !in range && ' ' !in target
    ensures Split("@@ " + range + " " + target + " @@", ' ') == ["@@", range, target, "@@"]
  {
    assert "@@ " + range + " " + target + " @@" == "@@" + [' '] + range + [' '] + target + [' '] + "@@";
    Join4("@@", range, target, "@@", ' ');
    SplitJoin(["@@", range, target, "@@"], ' ');
  }

  /** `start,length` splits at its comma. */
  lemma RangeFields(start: int, length: int)
    ensures ' ' !in ShowInt(start) + "," + ShowInt(length)
    ensures Split(ShowInt(start) + "," + ShowInt(length), ',') == [ShowInt(start), ShowInt(length)]
  {
    var range := ShowInt(start) + "," + ShowInt(length);
    assert Join([ShowInt(start), ShowInt(length)], ',') == range;
    SplitJoin([ShowInt(start), ShowInt(length)], ',');
    NotInAppend(ShowInt(start) + [','], ShowInt(length), ' ');
  }

  /** difflib's `@@` header splits into its four tokens, and the old range into its start and length. */
  lemma HunkHeaderFields(start: int, length: int, target: string)
    requires ' ' !in target
    ensures HunkFields(HunkHeaderLine(start, length, target),
      ["@@", ShowInt(start) + "," + ShowInt(length), target, "@@"], [ShowInt(start), ShowInt(length)])
    ensures |HunkHeaderLine(start, length, target)| >= 2
    ensures HunkHeaderLine(start, length, target)[0] == '@' && HunkHeaderLine(start, length, target)[1] == '@'
  {
    var l := HunkHeaderLine(start, length, target);
    var range := ShowInt(start) + "," + ShowInt(length);
    RangeFields(start, length);
    HeaderTokens(range, target);
    assert l == "@@ " + range + " " + target + " @@";
    SplitExactly(l, ' ', ["@@", range, target, "@@"]);
    SplitExactly(range, ',', [ShowInt(start), ShowInt(length)]);
  }

  /** `HunkStart` reads the start of the old range, without its sign. */
  lemma HunkHeaderStart(start: int, length: int, target: string)
    requires ' ' !in target
    ensures HunkStart(HunkHeaderLine(start, length, target)) == Some(if start < 0 then -start else start)
  {
    HunkHeaderFields(start, length, target);
    ParseShow(start);
    HunkStartOf(HunkHeaderLine(start, length, target),
      ["@@", ShowInt(start) + "," + ShowInt(length), target, "@@"], [ShowInt(start), ShowInt(length)], start);
  }

  /** The scanner reads the start of the old range, without its sign. */
  lemma HunkHeaderRead(start: int, length: int, target: string)
    requires ' ' !in target
    ensures Classify(HunkHeaderLine(start, length, target)) == Hunk(Some(if start < 0 then -start else start))
  {
    HunkHeaderFields(start, length, target);
    HunkHeaderStart(start, length, target);
    ClassifyHunk(HunkHeaderLine(start, length, target));
  }

  /**
   * difflib writes a range of exactly one line without its length (`-3`), so
   * the second token has no comma to split at and the scan raises there.
   */
  lemma OneLineHunkRaises(start: int, target: string)
    requires ' ' !in target
    ensures Fatal(Classify("@@ " + ShowInt(start) + " " + target + " @@"))
  {
    var l := "@@ " + ShowInt(start) + " " + target + " @@";
    HeaderTokens(ShowInt(start), target);
    SplitNNone(ShowInt(start), ',', -1);
    assert HunkStart(l) == None;
    ClassifyHunk(l);
  }

  /** A `--- ` header with a second tab cannot be unpacked into two names either: the scan raises there. */
  lemma TwoTabOldFileRaises(file: string, stamp: string, more: string)
    requires '\t' !in file && '\t' !in stamp && '\t' !in more
    ensures Fatal(Classify("--- " + file + "\t" + stamp + "\t" + more))
  {
    var rest := file + "\t" + stamp + "\t" + more;
    var l := "--- " + file + "\t" + stamp + "\t" + more;
    assert l == "--- " + rest && l[4..] == rest && l[0] == '-';
    Join3(file, stamp, more, '\t');
    SplitJoin([file, stamp, more], '\t');
  }

  /**
   * An `@@` header with text after its closing `@@`, as in
   * `@@ -12,5 +15,5 @@ def f():`, is five tokens, not four: the scan raises there.
   */
  lemma HunkTrailingTextRaises(range: string, target: string, text: string)
    requires ' ' !in range && ' ' !in target && ' ' !in text
    ensures Fatal(Classify("@@ " + range + " " + target + " @@ " + text))
  {
    var l := "@@ " + range + " " + target + " @@ " + text;
    assert l == "@@" + [' '] + range + [' '] + target + [' '] + "@@" + [' '] + text;
    Join5("@@", range, target, "@@", text, ' ');
    SplitJoin(["@@", range, target, "@@", text], ' ');
    assert HunkStart(l) == None;
    ClassifyHunk(l);
  }
}
