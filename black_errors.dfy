/**
 * `lint_black_errors`: black's stderr, one complaint per line, of the form
 * `error: cannot format <file>: <title>: <line>:<column>: <message>`. Unlike the
 * other line parsers this one has no `try`: a line it cannot take apart raises
 * `ValueError`, and the records of the lines before it are all that come out.
 */
module BlackErrors {
  import opened Wrappers
  import opened Text
  import opened Annotations
  import opened LineParsers

  /** What one stderr line comes to: nothing, one record, or the uncaught `ValueError`. */
  datatype LineOutcome = Skip | Emit(record: Annotation) | Fail

  /** black's severity word, trimmed, kept when it is in `LEVELS` and `error` otherwise; `note` has no synonym here. */
  function BlackLevel(raw: string): (level: string)
    ensures level in LEVELS
    ensures Strip(raw) in LEVELS ==> level == Strip(raw)
    ensures Strip(raw) !in LEVELS ==> level == "error"
  {
    if Strip(raw) in LEVELS then Strip(raw) else "error"
  }

  /**
   * One line of stderr. A blank line or a line without a colon is skipped; any
   * other line must split into six colon-separated fields with integers in the
   * fourth and fifth, or the loop raises.
   */
  function BlackErrorLine(error: string): (o: LineOutcome)
    ensures o.Skip? <==> Strip(error) == [] || ':' !in Strip(error)
    ensures o.Emit? ==> o.record.source == "black" && o.record.level in LEVELS && ' ' !in o.record.file
    ensures o.Emit? ==> Stripped(o.record.title) && Stripped(o.record.message)
  {
    var e := Strip(error);
    if e == [] || ':' !in e then Skip
    else BlackRecord(SplitN(e, ':', 5))
  }

  /**
   * `level, header, message, line, char, info = fields` and the record built from
   * them: a record exactly when there are six fields and the fourth and fifth are
   * integers, the `ValueError` otherwise.
   */
  function BlackRecord(f: seq<string>): (o: LineOutcome)
    ensures !o.Skip?
    ensures o.Emit? <==> |f| == 6 && ParseInt(f[3]).Some? && ParseInt(f[4]).Some?
    ensures o.Emit? ==> o.record.source == "black" && o.record.level in LEVELS && ' ' !in o.record.file
    ensures o.Emit? ==> Stripped(o.record.title) && Stripped(o.record.message)
  {
    if |f| != 6 then Fail
    else
      match (ParseInt(f[3]), ParseInt(f[4]))
      case (Some(row), Some(col)) =>
        Emit(Annotation(BlackLevel(f[0]), AfterLast(f[1], ' '), row, col, "black", Strip(f[2]), Strip(f[5])))
      case _ => Fail
  }

  /** The stripped line unpacks into the six fields `g` of `error.split(":", 5)`. */
  predicate Complaint(error: string, g: seq<string>) {
    |g| == 6 && Unpacks(Strip(error), ':', g)
  }

  /**
   * A stripped line with a colon raises exactly when it does not unpack into six
   * fields whose fourth and fifth are integers; one that does gives the record
   * read from those fields.
   */
  lemma BlackErrorLineReads(error: string)
    ensures BlackErrorLine(error).Fail? <==>
      ':' in Strip(error) && !exists g :: Complaint(error, g) && ParseInt(g[3]).Some? && ParseInt(g[4]).Some?
    ensures forall g :: Complaint(error, g) && ParseInt(g[3]).Some? && ParseInt(g[4]).Some? ==>
      BlackErrorLine(error) == Emit(Annotation(BlackLevel(g[0]), AfterLast(g[1], ' '), ParseInt(g[3]).value,
        ParseInt(g[4]).value, "black", Strip(g[2]), Strip(g[5])))
  {
    var e := Strip(error);
    var f := SplitN(e, ':', 5);
    forall g | Complaint(error, g)
      ensures ':' in e && f == g
    {
      SplitNExactly(e, ':', g);
      JoinEnds(g, ':');
    }
    if |f| == 6 {
      SplitNExactly(e, ':', f);
      assert Complaint(error, f);
    }
  }

  /** What each stderr line comes to, line by line. */
  function Outcomes(lines: seq<string>): seq<LineOutcome> {
    seq(|lines|, i requires 0 <= i < |lines| => BlackErrorLine(lines[i]))
  }

  /** The loop over those outcomes: a record for each `Emit`, until the first `Fail` raises. */
  function Drain(os: seq<LineOutcome>): (y: Yielded)
    ensures |y.records| <= |os|
  {
    if os == [] then Finished([])
    else
      match os[0]
      case Skip => Drain(os[1..])
      case Fail => Raised([])
      case Emit(a) => Then(Finished([a]), Drain(os[1..]))
  }

  /** A record among the outcomes is the record of one of the lines. */
  lemma OutcomeOfLine(lines: seq<string>)
    ensures forall a :: Emit(a) in Outcomes(lines) ==> exists j :: 0 <= j < |lines| && BlackErrorLine(lines[j]) == Emit(a)
  {
    forall a | Emit(a) in Outcomes(lines)
      ensures exists j :: 0 <= j < |lines| && BlackErrorLine(lines[j]) == Emit(a)
    {
      var j :| 0 <= j < |lines| && Outcomes(lines)[j] == Emit(a);
    }
  }

  /** The generator over a list of stderr lines: at most one record per line, each read from one of them. */
  function BlackErrors(lines: seq<string>): (y: Yielded)
    ensures |y.records| <= |lines|
    ensures forall a :: a in y.records ==> exists j :: 0 <= j < |lines| && BlackErrorLine(lines[j]) == Emit(a)
  {
    DrainEmitted(Outcomes(lines));
    OutcomeOfLine(lines);
    Drain(Outcomes(lines))
  }

  /** `lint_black_errors`: the records read from black's stderr; it raises exactly when one of the lines fails. */
  function LintBlackErrors(stderr: string): (y: Yielded)
    ensures y.Raised? <==> exists j :: 0 <= j < |Lines(stderr)| && BlackErrorLine(Lines(stderr)[j]).Fail?
    ensures forall a :: a in y.records ==> exists j :: 0 <= j < |Lines(stderr)| && BlackErrorLine(Lines(stderr)[j]) == Emit(a)
  {
    BlackErrorsRaise(Lines(stderr));
    BlackErrors(Lines(stderr))
  }

  /** The loop handles outcomes one after another: a split input composes like `yield from` twice. */
  lemma {:induction false} DrainAppend(a: seq<LineOutcome>, b: seq<LineOutcome>)
    ensures Drain(a + b) == Then(Drain(a), Drain(b))
    decreases |a|
  {
    if a == [] {
      assert a + b == b;
    } else {
      assert (a + b)[0] == a[0] && (a + b)[1..] == a[1..] + b;
      DrainAppend(a[1..], b);
      match a[0]
      case Skip =>
      case Fail =>
      case Emit(x) =>
        ThenAssociative(Finished([x]), Drain(a[1..]), Drain(b));
    }
  }

  /** The loop raises exactly when some outcome is a failure. */
  lemma {:induction false} DrainRaise(os: seq<LineOutcome>)
    ensures Drain(os).Raised? <==> Fail in os
    decreases |os|
  {
    if os != [] {
      DrainRaise(os[1..]);
      assert os == [os[0]] + os[1..];
    }
  }

  /** Outcomes that are all records give those records, in order, and do not raise. */
  lemma {:induction false} DrainAllEmit(os: seq<LineOutcome>, xs: seq<Annotation>)
    requires |os| == |xs|
    requires forall i :: 0 <= i < |os| ==> os[i] == Emit(xs[i])
    ensures Drain(os) == Finished(xs)
    decreases |os|
  {
    if os != [] {
      assert os[0] == Emit(xs[0]);
      assert forall i :: 0 <= i < |os| - 1 ==> os[1..][i] == os[i + 1] && xs[1..][i] == xs[i + 1];
      DrainAllEmit(os[1..], xs[1..]);
      assert [xs[0]] + xs[1..] == xs;
    }
  }

  /** Every record the loop yields is the record of one of the outcomes. */
  lemma {:induction false} DrainEmitted(os: seq<LineOutcome>)
    ensures forall a :: a in Drain(os).records ==> Emit(a) in os
    decreases |os|
  {
    if os != [] {
      DrainEmitted(os[1..]);
      assert os == [os[0]] + os[1..];
    }
  }

  /** Every record read from black's stderr is a `black` record at a severity in `LEVELS`, for a file without spaces. */
  lemma BlackErrorsShaped(lines: seq<string>)
    ensures forall a :: a in BlackErrors(lines).records ==> a.level in LEVELS && a.source == "black" && ' ' !in a.file
  {
    forall a | a in BlackErrors(lines).records
      ensures a.level in LEVELS && a.source == "black" && ' ' !in a.file
    {
      var j :| 0 <= j < |lines| && BlackErrorLine(lines[j]) == Emit(a);
    }
  }

  /** The generator handles lines one after another: a split input composes like `yield from` twice. */
  lemma BlackErrorsAppend(a: seq<string>, b: seq<string>)
    ensures BlackErrors(a + b) == Then(BlackErrors(a), BlackErrors(b))
  {
    assert Outcomes(a + b) == Outcomes(a) + Outcomes(b);
    DrainAppend(Outcomes(a), Outcomes(b));
  }

  /** The run raises exactly when one of the lines is malformed. */
  lemma BlackErrorsRaise(lines: seq<string>)
    ensures BlackErrors(lines).Raised? <==> exists j :: 0 <= j < |lines| && BlackErrorLine(lines[j]).Fail?
  {
    var os := Outcomes(lines);
    DrainRaise(os);
    if Fail in os {
      var j :| 0 <= j < |os| && os[j] == Fail;
      assert BlackErrorLine(lines[j]).Fail?;
    }
    if exists j :: 0 <= j < |lines| && BlackErrorLine(lines[j]).Fail? {
      var j :| 0 <= j < |lines| && BlackErrorLine(lines[j]).Fail?;
      assert os[j] == Fail;
    }
  }

  /** At the first malformed line the run raises, after yielding exactly the records of the lines before it. */
  lemma BlackErrorsStopAt(lines: seq<string>, j: nat)
    requires j < |lines| && BlackErrorLine(lines[j]).Fail?
    requires forall k :: 0 <= k < j ==> !BlackErrorLine(lines[k]).Fail?
    ensures BlackErrors(lines[..j]).Finished?
    ensures BlackErrors(lines) == Raised(BlackErrors(lines[..j]).records)
  {
    assert lines == lines[..j] + lines[j..];
    BlackErrorsAppend(lines[..j], lines[j..]);
    BlackErrorsRaise(lines[..j]);
    assert Outcomes(lines[j..])[0] == Fail;
  }

  /** A stripped line with a single colon, such as a bare `error: cannot format x.py`, raises. */
  lemma BlackOneColonFails(level: string, rest: string)
    requires ':' !in level && ':' !in rest
    requires level != [] && !IsSpace(level[0]) && rest != [] && !IsSpace(rest[|rest| - 1])
    ensures BlackErrorLine(Join([level, rest], ':')).Fail?
  {
    var parts := [level, rest];
    var e := Join(parts, ':');
    JoinStripped(parts, ':');
    JoinEnds(parts, ':');
    StripStripped(e);
    assert e[|level|] == ':';
    SplitNUnique(e, ':', 5, parts);
  }

  // ---------------------------------------------------------------- what black prints

  /** The words between the severity and the file name. */
  const CannotFormat: string := " cannot format"

  /** The six colon-separated fields of one complaint. */
  function BlackFields(a: Annotation): seq<string> {
    [a.level, CannotFormat + [' '] + a.file, " " + a.title, " " + ShowInt(a.line), ShowInt(a.column), " " + a.message]
  }

  /** black's line, `level: cannot format file: title: line:column: message`. */
  function BlackLine(a: Annotation): string {
    Join(BlackFields(a), ':')
  }

  /** A record black can print and this parser reads back; the message may hold colons. */
  predicate BlackPrintable(a: Annotation) {
    && a.level in LEVELS && a.source == "black"
    && ':' !in a.file && ' ' !in a.file && '\n' !in a.file
    && ':' !in a.title && '\n' !in a.title && Stripped(a.title)
    && a.message != [] && Stripped(a.message) && '\n' !in a.message
  }

  /** A severity in `LEVELS` reads back as itself. */
  lemma BlackLevelWord(level: string)
    requires level in LEVELS
    ensures BlackLevel(level) == level && level != [] && !IsSpace(level[0])
    ensures ':' !in level && '\n' !in level
  {
    assert level == "notice" || level == "warning" || level == "error";
    assert Lowercase(level);
    LowercaseWord(level);
    StripStripped(level);
  }

  /** A text behind one space keeps clear of the characters the text is clear of. */
  lemma SpacedFree(x: string)
    ensures ':' !in x ==> ':' !in " " + x
    ensures '\n' !in x ==> '\n' !in " " + x
  {
    if ':' !in x {
      NotInAppend(" ", x, ':');
    }
    if '\n' !in x {
      NotInAppend(" ", x, '\n');
    }
  }

  /** The file field holds no colon and no newline when the file name holds none. */
  lemma FileFieldFree(file: string)
    requires ':' !in file && '\n' !in file
    ensures ':' !in CannotFormat + [' '] + file && '\n' !in CannotFormat + [' '] + file
  {
    var w := CannotFormat[1..];
    assert Words(w) && CannotFormat == " " + w;
    WordsFree(w);
    SpacedFree(w);
    NotInAppend(CannotFormat, [' '], ':');
    NotInAppend(CannotFormat, [' '], '\n');
    NotInAppend(CannotFormat + [' '], file, ':');
    NotInAppend(CannotFormat + [' '], file, '\n');
  }

  /** Each printed field is free of newlines, and all but the message of colons. */
  lemma BlackFieldsFree(a: Annotation)
    requires BlackPrintable(a)
    ensures forall i :: 0 <= i < 5 ==> ':' !in BlackFields(a)[i]
    ensures forall i :: 0 <= i < 6 ==> '\n' !in BlackFields(a)[i]
  {
    var f := BlackFields(a);
    BlackLevelWord(a.level);
    FileFieldFree(a.file);
    SpacedFree(a.title);
    SpacedFree(ShowInt(a.line));
    SpacedFree(a.message);
    assert ':' !in f[0] && ':' !in f[1] && ':' !in f[2] && ':' !in f[3] && ':' !in f[4];
    assert '\n' !in f[0] && '\n' !in f[1] && '\n' !in f[2] && '\n' !in f[3] && '\n' !in f[4] && '\n' !in f[5];
  }

  /** The severity and the file name read back as printed. */
  lemma BlackHeadRead(a: Annotation)
    requires BlackPrintable(a)
    ensures BlackLevel(BlackFields(a)[0]) == a.level
    ensures AfterLast(BlackFields(a)[1], ' ') == a.file
  {
    var f := BlackFields(a);
    assert f[0] == a.level && f[1] == CannotFormat + [' '] + a.file;
    BlackLevelWord(a.level);
    AfterLastSuffix(CannotFormat, ' ', a.file);
  }

  /** The title and the message read back as printed. */
  lemma BlackTextRead(a: Annotation)
    requires BlackPrintable(a)
    ensures Strip(BlackFields(a)[2]) == a.title
    ensures Strip(BlackFields(a)[5]) == a.message
  {
    StripSpaceBefore(a.title);
    StripSpaceBefore(a.message);
  }

  /** The line and the column read back as printed. */
  lemma BlackPositionRead(a: Annotation)
    ensures ParseInt(BlackFields(a)[3]) == Some(a.line)
    ensures ParseInt(BlackFields(a)[4]) == Some(a.column)
  {
    ParseSpacedShow(a.line);
    ParseShow(a.column);
  }

  /**
   * Six fields joined by colons, the first five colon-free, come back from
   * `strip()` and `split(":", 5)` as they went in.
   */
  lemma SixFields(f: seq<string>)
    requires |f| == 6
    requires forall i :: 0 <= i < 5 ==> ':' !in f[i]
    requires forall i :: 0 <= i < 6 ==> '\n' !in f[i]
    requires f[0] != [] && !IsSpace(f[0][0]) && f[5] != [] && !IsSpace(f[5][|f[5]| - 1])
    ensures Strip(Join(f, ':')) == Join(f, ':') && ':' in Join(f, ':')
    ensures SplitN(Join(f, ':'), ':', 5) == f
    ensures '\n' !in Join(f, ':')
  {
    var e := Join(f, ':');
    JoinFree(f, ':', '\n');
    JoinStripped(f, ':');
    JoinEnds(f, ':');
    StripStripped(e);
    assert e[|f[0]|] == ':';
    SplitJoinN(f, ':');
  }

  /** A line that is its own strip and splits into `f` is read from those fields. */
  lemma LineOfFields(line: string, f: seq<string>)
    requires Strip(line) == line && ':' in line && SplitN(line, ':', 5) == f
    ensures BlackErrorLine(line) == BlackRecord(f)
  {
  }

  /** The fields black prints make up the record they were printed from. */
  lemma BlackRecordOf(a: Annotation)
    requires BlackPrintable(a)
    ensures BlackRecord(BlackFields(a)) == Emit(a)
  {
    BlackPositionRead(a);
    BlackHeadRead(a);
    BlackTextRead(a);
  }

  /** A printed complaint is one line and reads back as its record. */
  lemma BlackRoundTrip(a: Annotation)
    requires BlackPrintable(a)
    ensures BlackErrorLine(BlackLine(a)) == Emit(a)
    ensures '\n' !in BlackLine(a)
  {
    var f := BlackFields(a);
    BlackLevelWord(a.level);
    BlackFieldsFree(a);
    assert f[5][|f[5]| - 1] == a.message[|a.message| - 1];
    SixFields(f);
    LineOfFields(BlackLine(a), f);
    BlackRecordOf(a);
  }

  /** Every record, printed by `show`, is one line that reads back as that record. */
  predicate EmitsBack(xs: seq<Annotation>, show: Annotation -> string) {
    forall i :: 0 <= i < |xs| ==> BlackErrorLine(show(xs[i])) == Emit(xs[i]) && '\n' !in show(xs[i])
  }

  /** Each printed complaint is one line that reads back as its record. */
  lemma BlackRoundTrips(xs: seq<Annotation>)
    requires forall i :: 0 <= i < |xs| ==> BlackPrintable(xs[i])
    ensures EmitsBack(xs, BlackLine)
  {
    forall i | 0 <= i < |xs|
      ensures BlackErrorLine(BlackLine(xs[i])) == Emit(xs[i]) && '\n' !in BlackLine(xs[i])
    {
      BlackRoundTrip(xs[i]);
    }
  }

  /** Printed lines that each read back as their record give those records, in order, and do not raise. */
  lemma BlackErrorsOfLines(xs: seq<Annotation>, show: Annotation -> string)
    requires EmitsBack(xs, show)
    ensures BlackErrors(Printed(xs, show)) == Finished(xs)
  {
    var lines := Printed(xs, show);
    var os := Outcomes(lines);
    forall i | 0 <= i < |os|
      ensures os[i] == Emit(xs[i])
    {
      assert lines[i] == show(xs[i]);
    }
    DrainAllEmit(os, xs);
  }

  /** Empty stderr is one blank line, which is skipped. */
  lemma BlackErrorsBlank()
    ensures LintBlackErrors("") == Finished([])
  {
    assert Lines("") == [""];
    assert Outcomes([""]) == [BlackErrorLine("")];
  }

  /** Printed lines that each read back give every record, in order, and do not raise. */
  lemma DrainPrinted(xs: seq<Annotation>, show: Annotation -> string)
    requires EmitsBack(xs, show)
    ensures LintBlackErrors(Join(Printed(xs, show), '\n')) == Finished(xs)
  {
    var lines := Printed(xs, show);
    if xs == [] {
      assert Join(lines, '\n') == "";
      BlackErrorsBlank();
    } else {
      SplitJoin(lines, '\n');
      BlackErrorsOfLines(xs, show);
    }
  }

  /** A whole stderr of well-formed complaints gives every record, in order, and does not raise. */
  lemma LintBlackErrorsPrinted(xs: seq<Annotation>)
    requires forall i :: 0 <= i < |xs| ==> BlackPrintable(xs[i])
    ensures LintBlackErrors(Join(Printed(xs, BlackLine), '\n')) == Finished(xs)
  {
    BlackRoundTrips(xs);
    DrainPrinted(xs, BlackLine);
  }

  /** mypy reads `note` as `notice`; black has no such synonym and reads it as `error`. */
  lemma NoteLevels()
    ensures MypyLevel("note") == "notice"
    ensures BlackLevel("note") == "error"
  {
    assert Lowercase("note");
    LowercaseWord("note");
    StripStripped("note");
  }
}
