/**
 * The single-line parsers of `LintToolchain`: flake8, mypy and pylint. Each one
 * reads its tool's stdout line by line and turns every line it understands into
 * one annotation; a line it does not understand is skipped, never an error.
 */
module LineParsers {
  import opened Wrappers
  import opened Text
  import opened Annotations

  /** `text.split("\n")`: the lines the `for` loops visit. */
  function Lines(text: string): (lines: seq<string>)
    ensures |lines| >= 1
    ensures forall i :: 0 <= i < |lines| ==> '\n' !in lines[i]
  {
    Split(text, '\n')
  }

  /** A trailing newline gives one more, empty, line. */
  lemma LinesTrailingNewline(text: string)
    ensures Lines(text + "\n") == Lines(text) + [""]
  {
    SplitAppendSep(text, '\n');
  }

  /**
   * The annotations a per-line filter/map loop yields: one for each line that
   * `parse` accepts, in line order.
   */
  function Collect(lines: seq<string>, parse: string -> Option<Annotation>): (r: seq<Annotation>)
    ensures |r| <= |lines|
    decreases |lines|
  {
    if lines == [] then []
    else
      var rest := Collect(lines[1..], parse);
      match parse(lines[0])
      case Some(a) => [a] + rest
      case None => rest
  }

  /** Every annotation collected is what `parse` made of one of the lines. */
  lemma {:induction false} CollectedFromLine(lines: seq<string>, parse: string -> Option<Annotation>, k: nat)
    requires k < |Collect(lines, parse)|
    ensures exists j :: 0 <= j < |lines| && parse(lines[j]) == Some(Collect(lines, parse)[k])
    decreases |lines|
  {
    var rest := Collect(lines[1..], parse);
    if parse(lines[0]).Some? && k == 0 {
      assert parse(lines[0]) == Some(Collect(lines, parse)[0]);
    } else {
      var k' := if parse(lines[0]).Some? then k - 1 else k;
      assert Collect(lines, parse)[k] == rest[k'];
      CollectedFromLine(lines[1..], parse, k');
      var j :| 0 <= j < |lines| - 1 && parse(lines[1..][j]) == Some(rest[k']);
      assert lines[1..][j] == lines[j + 1];
    }
  }

  /** Every annotation collected is what `parse` made of some line. */
  lemma CollectFrom(lines: seq<string>, parse: string -> Option<Annotation>)
    ensures forall a :: a in Collect(lines, parse) ==> exists j :: 0 <= j < |lines| && parse(lines[j]) == Some(a)
  {
    forall a | a in Collect(lines, parse)
      ensures exists j :: 0 <= j < |lines| && parse(lines[j]) == Some(a)
    {
      var k :| 0 <= k < |Collect(lines, parse)| && Collect(lines, parse)[k] == a;
      CollectedFromLine(lines, parse, k);
    }
  }

  /** Whatever holds of every record `parse` makes holds of every record collected. */
  lemma CollectKeeps(lines: seq<string>, parse: string -> Option<Annotation>, holds: Annotation -> bool)
    requires forall l :: parse(l).Some? ==> holds(parse(l).value)
    ensures forall a :: a in Collect(lines, parse) ==> holds(a)
  {
    forall a | a in Collect(lines, parse)
      ensures holds(a)
    {
      var k :| 0 <= k < |Collect(lines, parse)| && Collect(lines, parse)[k] == a;
      CollectedFromLine(lines, parse, k);
    }
  }

  /** The loop treats lines independently: a split input gives the concatenated output. */
  lemma {:induction false} CollectAppend(a: seq<string>, b: seq<string>, parse: string -> Option<Annotation>)
    ensures Collect(a + b, parse) == Collect(a, parse) + Collect(b, parse)
    decreases |a|
  {
    if a != [] {
      assert (a + b)[0] == a[0] && (a + b)[1..] == a[1..] + b;
      CollectAppend(a[1..], b, parse);
      var x, y := Collect(a[1..], parse), Collect(b, parse);
      if parse(a[0]).Some? {
        var v := parse(a[0]).value;
        assert [v] + (x + y) == ([v] + x) + y;
      }
    } else {
      assert a + b == b;
    }
  }

  /** Lines that all fail to parse yield nothing. */
  lemma {:induction false} CollectNone(lines: seq<string>, parse: string -> Option<Annotation>)
    requires forall j :: 0 <= j < |lines| ==> parse(lines[j]) == None
    ensures Collect(lines, parse) == []
    decreases |lines|
  {
    if lines != [] {
      CollectNone(lines[1..], parse);
    }
  }

  /** The lines `show` prints for each record, in order. */
  function Printed(xs: seq<Annotation>, show: Annotation -> string): (lines: seq<string>)
    ensures |lines| == |xs|
    ensures forall i :: 0 <= i < |xs| ==> lines[i] == show(xs[i])
  {
    if xs == [] then [] else [show(xs[0])] + Printed(xs[1..], show)
  }

  /** Lines that each parse give back exactly what they were printed from, in order. */
  lemma {:induction false} CollectPrinted(xs: seq<Annotation>, show: Annotation -> string, parse: string -> Option<Annotation>)
    requires forall i :: 0 <= i < |xs| ==> parse(show(xs[i])) == Some(xs[i])
    ensures Collect(Printed(xs, show), parse) == xs
    decreases |xs|
  {
    if xs != [] {
      assert Printed(xs, show)[1..] == Printed(xs[1..], show);
      CollectPrinted(xs[1..], show, parse);
    }
  }

  /** Each record prints as one line that `parse` reads back as that record. */
  predicate RoundTrips(xs: seq<Annotation>, show: Annotation -> string, parse: string -> Option<Annotation>) {
    forall i :: 0 <= i < |xs| ==> parse(show(xs[i])) == Some(xs[i]) && '\n' !in show(xs[i])
  }

  /**
   * A whole stdout made of printed lines, joined by newlines, parses back to the
   * records, provided the parser skips the empty line.
   */
  lemma ParsePrintedOutput(xs: seq<Annotation>, show: Annotation -> string, parse: string -> Option<Annotation>)
    requires RoundTrips(xs, show, parse)
    requires parse("") == None
    ensures Collect(Lines(Join(Printed(xs, show), '\n')), parse) == xs
  {
    var lines := Printed(xs, show);
    if xs == [] {
      assert Lines(Join(lines, '\n')) == [""];
    } else {
      SplitJoin(lines, '\n');
      CollectPrinted(xs, show, parse);
    }
  }

  /** `a, b, c, d = line.strip().split(":", 3)`; `None` is the unpacking `ValueError`. */
  function ColonFields(line: string): (f: Option<seq<string>>)
    ensures f.Some? ==> |f.value| == 4 && Join(f.value, ':') == Strip(line)
    ensures f.Some? ==> ':' !in f.value[0] && ':' !in f.value[1] && ':' !in f.value[2]
    ensures f.None? ==> ':' !in SplitN(Strip(line), ':', 3)[|SplitN(Strip(line), ':', 3)| - 1]
  {
    var f := SplitN(Strip(line), ':', 3);
    if |f| == 4 then
      SplitNJoin(Strip(line), ':', 3);
      Some(f)
    else None
  }

  /** `line.strip()` unpacks into the four fields `g` of `file, line_no, x, y = line.strip().split(":", 3)`. */
  predicate FourFields(line: string, g: seq<string>) {
    |g| == 4 && Unpacks(Strip(line), ':', g)
  }

  /** The fields `ColonFields` returns are exactly the four fields the stripped line unpacks into. */
  lemma ColonFieldsExactly(line: string, g: seq<string>)
    ensures ColonFields(line) == Some(g) <==> FourFields(line, g)
  {
    if |g| == 4 {
      SplitNExactly(Strip(line), ':', g);
    }
  }

  /** A line that unpacks holds a colon, so the `":" not in line` test lets it through. */
  lemma FourFieldsColon(line: string, g: seq<string>)
    requires FourFields(line, g)
    ensures ':' in line
    ensures ColonFields(line) == Some(g)
  {
    ColonFieldsExactly(line, g);
    JoinEnds(g, ':');
    var w1, w2 := StripPieces(line);
    assert line[|w1| + |g[0]|] == Strip(line)[|g[0]|];
  }

  /** Four fields separated by colons, the first three colon-free, split back apart. */
  lemma ColonFieldsOf(a: string, b: string, c: string, d: string)
    requires ':' !in a && ':' !in b && ':' !in c
    requires a == [] || !IsSpace(a[0])
    requires d == [] || !IsSpace(d[|d| - 1])
    ensures ':' in a + ":" + b + ":" + c + ":" + d
    ensures ColonFields(a + ":" + b + ":" + c + ":" + d) == Some([a, b, c, d])
  {
    var line := a + ":" + b + ":" + c + ":" + d;
    PrintedFieldsStripped(a, b, c, d);
    StripStripped(line);
    SplitThreeColons(a, b, c, d);
  }

  lemma SplitThreeColons(a: string, b: string, c: string, d: string)
    requires ':' !in a && ':' !in b && ':' !in c
    ensures SplitN(a + ":" + b + ":" + c + ":" + d, ':', 3) == [a, b, c, d]
  {
    var rest2 := c + [':'] + d;
    var rest1 := b + [':'] + rest2;
    assert a + ":" + b + ":" + c + ":" + d == a + [':'] + rest1;
    calc {
      SplitN(a + [':'] + rest1, ':', 3);
      { SplitNCons(a, ':', rest1, 3); }
      [a] + SplitN(b + [':'] + rest2, ':', 2);
      { SplitNCons(b, ':', rest2, 2); }
      [a] + ([b] + SplitN(c + [':'] + d, ':', 1));
      { SplitNCons(c, ':', d, 1); }
      [a] + ([b] + ([c] + SplitN(d, ':', 0)));
      [a, b, c, d];
    }
  }

  /** A space in front of a stripped, non-empty text: what `strip()` gives back, and the characters it holds. */
  lemma SpaceBefore(m: string)
    requires m != [] && Stripped(m)
    ensures Strip(" " + m) == m
    ensures !IsSpace((" " + m)[|m|])
    ensures ':' !in m ==> ':' !in " " + m
    ensures '\n' !in m ==> '\n' !in " " + m
  {
    StripSpaceBefore(m);
    assert (" " + m)[|m|] == m[|m| - 1];
    if ':' !in m {
      NotInAppend(" ", m, ':');
    }
    if '\n' !in m {
      NotInAppend(" ", m, '\n');
    }
  }

  /** Four newline-free fields joined by colons make one line. */
  lemma PrintedFieldsOneLine(a: string, b: string, c: string, d: string)
    requires '\n' !in a && '\n' !in b && '\n' !in c && '\n' !in d
    ensures '\n' !in a + ":" + b + ":" + c + ":" + d
  {
    NotInAppend(a, ":", '\n');
    NotInAppend(a + ":", b, '\n');
    NotInAppend(a + ":" + b, ":", '\n');
    NotInAppend(a + ":" + b + ":", c, '\n');
    NotInAppend(a + ":" + b + ":" + c, ":", '\n');
    NotInAppend(a + ":" + b + ":" + c + ":", d, '\n');
  }

  lemma PrintedFieldsStripped(a: string, b: string, c: string, d: string)
    requires a == [] || !IsSpace(a[0])
    requires d == [] || !IsSpace(d[|d| - 1])
    ensures ':' in a + ":" + b + ":" + c + ":" + d
    ensures Stripped(a + ":" + b + ":" + c + ":" + d)
  {
    var line := a + ":" + b + ":" + c + ":" + d;
    assert line[|a|] == ':';
    assert line[0] == if a == [] then ':' else a[0];
    assert line[|line| - 1] == if d == [] then ':' else d[|d| - 1];
  }

  // ---------------------------------------------------------------- flake8

  /** One flake8 line, `file:line:col: message`; `None` is a skipped line. */
  function Flake8Record(line: string): (r: Option<Annotation>)
    ensures ':' !in line ==> r == None
    ensures r.Some? ==> r.value.level == "error" && r.value.source == "flake8"
    ensures r.Some? ==> r.value.title == "" && Stripped(r.value.message) && ':' !in r.value.file
  {
    if ':' !in line then None
    else
      match ColonFields(line)
      case None => None
      case Some(f) =>
        match (ParseInt(f[1]), ParseInt(f[2]))
        case (Some(row), Some(col)) => Some(Annotation("error", f[0], row, col, "flake8", "", Strip(f[3])))
        case _ => None
  }

  /**
   * A line is read exactly when it unpacks into four fields whose second and third
   * are integers, and the record holds the first field as the file, those two
   * integers, and the fourth field stripped as the message.
   */
  lemma Flake8Reads(line: string)
    ensures Flake8Record(line).Some? <==>
      exists g :: FourFields(line, g) && ParseInt(g[1]).Some? && ParseInt(g[2]).Some?
    ensures forall g :: FourFields(line, g) && ParseInt(g[1]).Some? && ParseInt(g[2]).Some? ==>
      Flake8Record(line) == Some(Annotation("error", g[0], ParseInt(g[1]).value, ParseInt(g[2]).value, "flake8", "", Strip(g[3])))
  {
    if Flake8Record(line).Some? {
      ColonFieldsExactly(line, ColonFields(line).value);
    }
    forall g | FourFields(line, g)
      ensures ColonFields(line) == Some(g) && ':' in line
    {
      FourFieldsColon(line, g);
    }
  }

  /** `lint_flake8`: the annotations parsed from flake8's stdout, each read from one of its lines. */
  function LintFlake8(stdout: string): (r: seq<Annotation>)
    ensures |r| <= |Lines(stdout)|
    ensures forall a :: a in r ==> exists j :: 0 <= j < |Lines(stdout)| && Flake8Record(Lines(stdout)[j]) == Some(a)
  {
    CollectFrom(Lines(stdout), Flake8Record);
    Collect(Lines(stdout), Flake8Record)
  }

  /** An annotation flake8 can print and this parser can read back. */
  predicate Flake8Printable(a: Annotation) {
    && a.level == "error" && a.source == "flake8" && a.title == ""
    && ':' !in a.file && '\n' !in a.file && (a.file == [] || !IsSpace(a.file[0]))
    && a.message != [] && Stripped(a.message) && '\n' !in a.message
  }

  /** flake8's default line format, `%(path)s:%(row)d:%(col)d: %(text)s`. */
  function Flake8Line(a: Annotation): string {
    a.file + ":" + ShowInt(a.line) + ":" + ShowInt(a.column) + ":" + (" " + a.message)
  }

  lemma Flake8RoundTrip(a: Annotation)
    requires Flake8Printable(a)
    ensures Flake8Record(Flake8Line(a)) == Some(a)
    ensures '\n' !in Flake8Line(a)
  {
    SpaceBefore(a.message);
    PrintedFieldsOneLine(a.file, ShowInt(a.line), ShowInt(a.column), " " + a.message);
    ColonFieldsOf(a.file, ShowInt(a.line), ShowInt(a.column), " " + a.message);
    ParseShow(a.line);
    ParseShow(a.column);
  }

  /** Every well-formed flake8 line yields its record, in order, and nothing else does. */
  lemma LintFlake8Printed(xs: seq<Annotation>)
    requires forall i :: 0 <= i < |xs| ==> Flake8Printable(xs[i])
    ensures LintFlake8(Join(Printed(xs, Flake8Line), '\n')) == xs
  {
    Flake8RoundTrips(xs);
    ParsePrintedOutput(xs, Flake8Line, Flake8Record);
  }

  lemma Flake8RoundTrips(xs: seq<Annotation>)
    requires forall i :: 0 <= i < |xs| ==> Flake8Printable(xs[i])
    ensures RoundTrips(xs, Flake8Line, Flake8Record)
  {
    forall i | 0 <= i < |xs|
      ensures Flake8Record(Flake8Line(xs[i])) == Some(xs[i]) && '\n' !in Flake8Line(xs[i])
    {
      Flake8RoundTrip(xs[i]);
    }
  }

  // ---------------------------------------------------------------- mypy

  /**
   * mypy's severity word mapped onto `LEVELS`: the word is trimmed, `note` means
   * `notice`, a word already in `LEVELS` is kept and every other word, the empty
   * one included, becomes `error`.
   */
  function MypyLevel(raw: string): (level: string)
    ensures level in LEVELS
    ensures Strip(raw) in LEVELS ==> level == Strip(raw)
    ensures Strip(raw) == "note" ==> level == "notice"
    ensures Strip(raw) !in LEVELS && Strip(raw) != "note" ==> level == "error"
  {
    var word := Strip(raw);
    var word := if word == "note" then "notice" else word;
    if word in LEVELS then word else "error"
  }

  /** One mypy line, `file:line: level: message`; `None` is a skipped line. */
  function MypyRecord(line: string): (r: Option<Annotation>)
    ensures ':' !in line ==> r == None
    ensures r.Some? ==> r.value.level in LEVELS && r.value.source == "mypy" && r.value.column == 1
    ensures r.Some? ==> r.value.title == "" && Stripped(r.value.message) && ':' !in r.value.file
  {
    if ':' !in line then None
    else
      match ColonFields(line)
      case None => None
      case Some(f) =>
        var level := MypyLevel(f[2]);
        match ParseInt(f[1])
        case Some(row) => Some(Annotation(level, f[0], row, 1, "mypy", "", Strip(f[3])))
        case None => None
  }

  /**
   * A line is read exactly when it unpacks into four fields whose second is an
   * integer, and the record holds the first field as the file, that integer, the
   * third field as a level and the fourth, stripped, as the message.
   */
  lemma MypyReads(line: string)
    ensures MypyRecord(line).Some? <==> exists g :: FourFields(line, g) && ParseInt(g[1]).Some?
    ensures forall g :: FourFields(line, g) && ParseInt(g[1]).Some? ==>
      MypyRecord(line) == Some(Annotation(MypyLevel(g[2]), g[0], ParseInt(g[1]).value, 1, "mypy", "", Strip(g[3])))
  {
    if MypyRecord(line).Some? {
      ColonFieldsExactly(line, ColonFields(line).value);
    }
    forall g | FourFields(line, g)
      ensures ColonFields(line) == Some(g) && ':' in line
    {
      FourFieldsColon(line, g);
    }
  }

  /** `lint_mypy`: the annotations parsed from mypy's stdout, each read from one of its lines. */
  function LintMypy(stdout: string): (r: seq<Annotation>)
    ensures |r| <= |Lines(stdout)|
    ensures forall a :: a in r ==> exists j :: 0 <= j < |Lines(stdout)| && MypyRecord(Lines(stdout)[j]) == Some(a)
  {
    CollectFrom(Lines(stdout), MypyRecord);
    Collect(Lines(stdout), MypyRecord)
  }

  /** The word mypy prints for a level: it calls notices `note`. */
  function MypyWord(level: string): string {
    if level == "notice" then "note" else level
  }

  /** The word mypy prints for a level is normalised back to that level. */
  lemma MypyWordLevel(level: string)
    requires level in LEVELS
    ensures MypyLevel(" " + MypyWord(level)) == level
    ensures MypyWord(level) != [] && Stripped(MypyWord(level))
    ensures '\n' !in MypyWord(level) && ':' !in MypyWord(level)
  {
    var word := MypyWord(level);
    assert word == "note" || word == "warning" || word == "error";
    assert Lowercase(word);
    LowercaseWord(word);
    StripSpaceBefore(word);
  }

  predicate MypyPrintable(a: Annotation) {
    && a.level in LEVELS && a.column == 1 && a.source == "mypy" && a.title == ""
    && ':' !in a.file && '\n' !in a.file && (a.file == [] || !IsSpace(a.file[0]))
    && a.message != [] && Stripped(a.message) && '\n' !in a.message
  }

  /** mypy's line format, `file:line: severity: message`. */
  function MypyLine(a: Annotation): string {
    a.file + ":" + ShowInt(a.line) + ":" + (" " + MypyWord(a.level)) + ":" + (" " + a.message)
  }

  lemma MypyRoundTrip(a: Annotation)
    requires MypyPrintable(a)
    ensures MypyRecord(MypyLine(a)) == Some(a)
    ensures '\n' !in MypyLine(a)
  {
    MypyWordLevel(a.level);
    SpaceBefore(MypyWord(a.level));
    SpaceBefore(a.message);
    PrintedFieldsOneLine(a.file, ShowInt(a.line), " " + MypyWord(a.level), " " + a.message);
    ColonFieldsOf(a.file, ShowInt(a.line), " " + MypyWord(a.level), " " + a.message);
    ParseShow(a.line);
  }

  /** Every well-formed mypy line yields its record, in order, and nothing else does. */
  lemma LintMypyPrinted(xs: seq<Annotation>)
    requires forall i :: 0 <= i < |xs| ==> MypyPrintable(xs[i])
    ensures LintMypy(Join(Printed(xs, MypyLine), '\n')) == xs
  {
    MypyRoundTrips(xs);
    ParsePrintedOutput(xs, MypyLine, MypyRecord);
  }

  lemma MypyRoundTrips(xs: seq<Annotation>)
    requires forall i :: 0 <= i < |xs| ==> MypyPrintable(xs[i])
    ensures RoundTrips(xs, MypyLine, MypyRecord)
  {
    forall i | 0 <= i < |xs|
      ensures MypyRecord(MypyLine(xs[i])) == Some(xs[i]) && '\n' !in MypyLine(xs[i])
    {
      MypyRoundTrip(xs[i]);
    }
  }

  // ---------------------------------------------------------------- pylint

  /** One pylint line, `file:line:col:message`; the message is kept as is, spaces and colons included. */
  function PylintRecord(line: string): (r: Option<Annotation>)
    ensures ':' !in line ==> r == None
    ensures r.Some? ==> r.value.level == "error" && r.value.source == "pylint"
    ensures r.Some? ==> r.value.title == "" && ':' !in r.value.file
  {
    if ':' !in line then None
    else
      match ColonFields(line)
      case None => None
      case Some(f) =>
        match (ParseInt(f[1]), ParseInt(f[2]))
        case (Some(row), Some(col)) => Some(Annotation("error", f[0], row, col, "pylint", "", f[3]))
        case _ => None
  }

  /**
   * A line is read exactly when it unpacks into four fields whose second and third
   * are integers, and the record holds the first field as the file, those two
   * integers, and the fourth field, not stripped, as the message.
   */
  lemma PylintReads(line: string)
    ensures PylintRecord(line).Some? <==>
      exists g :: FourFields(line, g) && ParseInt(g[1]).Some? && ParseInt(g[2]).Some?
    ensures forall g :: FourFields(line, g) && ParseInt(g[1]).Some? && ParseInt(g[2]).Some? ==>
      PylintRecord(line) == Some(Annotation("error", g[0], ParseInt(g[1]).value, ParseInt(g[2]).value, "pylint", "", g[3]))
  {
    if PylintRecord(line).Some? {
      ColonFieldsExactly(line, ColonFields(line).value);
    }
    forall g | FourFields(line, g)
      ensures ColonFields(line) == Some(g) && ':' in line
    {
      FourFieldsColon(line, g);
    }
  }

  /** `lint_pylint`: the annotations parsed from pylint's stdout, each read from one of its lines. */
  function LintPylint(stdout: string): (r: seq<Annotation>)
    ensures |r| <= |Lines(stdout)|
    ensures forall a :: a in r ==> exists j :: 0 <= j < |Lines(stdout)| && PylintRecord(Lines(stdout)[j]) == Some(a)
  {
    CollectFrom(Lines(stdout), PylintRecord);
    Collect(Lines(stdout), PylintRecord)
  }

  predicate PylintPrintable(a: Annotation) {
    && a.level == "error" && a.source == "pylint" && a.title == ""
    && ':' !in a.file && '\n' !in a.file && (a.file == [] || !IsSpace(a.file[0]))
    && (a.message == [] || !IsSpace(a.message[|a.message| - 1])) && '\n' !in a.message
  }

  /** pylint's parseable line, `file:line:col:message`, where the message may start with spaces. */
  function PylintLine(a: Annotation): string {
    a.file + ":" + ShowInt(a.line) + ":" + ShowInt(a.column) + ":" + a.message
  }

  lemma PylintRoundTrip(a: Annotation)
    requires PylintPrintable(a)
    ensures PylintRecord(PylintLine(a)) == Some(a)
    ensures '\n' !in PylintLine(a)
  {
    PrintedFieldsOneLine(a.file, ShowInt(a.line), ShowInt(a.column), a.message);
    ColonFieldsOf(a.file, ShowInt(a.line), ShowInt(a.column), a.message);
    ParseShow(a.line);
    ParseShow(a.column);
  }

  /** Every well-formed pylint line yields its record, in order, and nothing else does. */
  lemma LintPylintPrinted(xs: seq<Annotation>)
    requires forall i :: 0 <= i < |xs| ==> PylintPrintable(xs[i])
    ensures LintPylint(Join(Printed(xs, PylintLine), '\n')) == xs
  {
    PylintRoundTrips(xs);
    ParsePrintedOutput(xs, PylintLine, PylintRecord);
  }

  lemma PylintRoundTrips(xs: seq<Annotation>)
    requires forall i :: 0 <= i < |xs| ==> PylintPrintable(xs[i])
    ensures RoundTrips(xs, PylintLine, PylintRecord)
  {
    forall i | 0 <= i < |xs|
      ensures PylintRecord(PylintLine(xs[i])) == Some(xs[i]) && '\n' !in PylintLine(xs[i])
    {
      PylintRoundTrip(xs[i]);
    }
  }

  /**
   * pylint and flake8 accept exactly the same lines and read the same fields from
   * them; only flake8 strips the message.
   */
  lemma PylintFlake8Agree(line: string)
    ensures PylintRecord(line).Some? <==> Flake8Record(line).Some?
    ensures PylintRecord(line).Some? ==>
      Flake8Record(line).value == PylintRecord(line).value.(source := "flake8", message := Strip(PylintRecord(line).value.message))
  {
  }

  // ---------------------------------------------------------------- shared properties

  /** Output without a single colon yields no annotation from any of the three parsers. */
  lemma NoColonNoRecords(stdout: string)
    requires ':' !in stdout
    ensures LintFlake8(stdout) == [] && LintMypy(stdout) == [] && LintPylint(stdout) == []
  {
    var lines := Lines(stdout);
    SplitNJoin(stdout, '\n', -1);
    forall j | 0 <= j < |lines|
      ensures ':' !in lines[j]
    {
      JoinContains(lines, '\n', j);
    }
    CollectNone(lines, Flake8Record);
    CollectNone(lines, MypyRecord);
    CollectNone(lines, PylintRecord);
  }

  /** A trailing newline changes nothing: the empty last line has no colon. */
  lemma TrailingNewlineIgnored(stdout: string)
    ensures LintFlake8(stdout + "\n") == LintFlake8(stdout)
    ensures LintMypy(stdout + "\n") == LintMypy(stdout)
    ensures LintPylint(stdout + "\n") == LintPylint(stdout)
  {
    LinesTrailingNewline(stdout);
    var lines := Lines(stdout);
    CollectAppend(lines, [""], Flake8Record);
    CollectAppend(lines, [""], MypyRecord);
    CollectAppend(lines, [""], PylintRecord);
  }
}
