/**
 * `lint_pydocstyle`: pydocstyle reports each problem on two lines, a header
 * `file:line <where>:` and an indented message. The loop walks one iterator over
 * the lines and, on a header it understands, pulls the message line out of that
 * same iterator, so the message line is never looked at as a header.
 */
module Pydocstyle {
  import opened Wrappers
  import opened Text
  import opened Annotations
  import opened LineParsers

  /**
   * `header.split(" ", 1)[0].split(":")` unpacked into `file, line_no`: the first
   * space-delimited token must hold exactly one colon.
   */
  function HeaderLocation(header: string): (loc: Option<(string, string)>)
    ensures loc.Some? ==> ':' !in loc.value.0 && ':' !in loc.value.1
  {
    var parts := Split(SplitN(header, ' ', 1)[0], ':');
    if |parts| == 2 then Some((parts[0], parts[1])) else None
  }

  /** What a line offers when the loop takes it as a header: nothing, or a file and a line number that may not parse. */
  datatype Header = NotHeader | Location(file: string, lineNo: Option<int>)

  /**
   * The line as a header: `NotHeader` when it holds no colon or its first token
   * does not unpack; otherwise the file and `int(line_no)`.
   */
  function ReadHeader(line: string): (h: Header)
    ensures h.Location? ==> ':' !in h.file
    ensures h.NotHeader? <==> HeaderLocation(line).None?
    ensures h.Location? ==> HeaderLocation(line) == Some((h.file, HeaderLocation(line).value.1))
    ensures h.Location? ==> h.lineNo == ParseInt(HeaderLocation(line).value.1)
  {
    LocatedHasColon(line);
    if ':' !in line then NotHeader
    else
      match HeaderLocation(line)
      case None => NotHeader
      case Some(loc) => Location(loc.0, ParseInt(loc.1))
  }

  /** One line as the loop can use it: as a header, or, stripped, as a message. */
  datatype LineView = LineView(header: Header, message: string)

  /** The shape of every pydocstyle record. */
  predicate PydocShaped(a: Annotation) {
    && a.level == "error" && a.column == 1 && a.source == "pydocstyle" && a.title == []
    && ':' !in a.file && Stripped(a.message)
  }

  /** Views whose messages are stripped and whose files hold no colon. */
  predicate CleanViews(vs: seq<LineView>) {
    forall i :: 0 <= i < |vs| ==> Stripped(vs[i].message) && (vs[i].header.Location? ==> ':' !in vs[i].header.file)
  }

  /** Every line as the loop can use it, in order. */
  function Views(lines: seq<string>): (vs: seq<LineView>)
    ensures |vs| == |lines| && CleanViews(vs)
  {
    if lines == [] then [] else [LineView(ReadHeader(lines[0]), Strip(lines[0]))] + Views(lines[1..])
  }

  /**
   * The records of the lines the iterator still holds. A line that is no header is
   * passed over alone; a header at the end of the input yields nothing; otherwise
   * the header and the line after it are both used up, and a record comes out when
   * the line number parses.
   */
  function Pairs(vs: seq<LineView>): (r: seq<Annotation>)
    ensures 2 * |r| <= |vs|
    decreases |vs|
  {
    if vs == [] then []
    else
      match vs[0].header
      case NotHeader => Pairs(vs[1..])
      case Location(file, lineNo) =>
        if |vs| == 1 then []
        else
          match lineNo
          case Some(n) => [Annotation("error", file, n, 1, "pydocstyle", "", vs[1].message)] + Pairs(vs[2..])
          case None => Pairs(vs[2..])
  }

  /**
   * The records `lint_pydocstyle` yields for the lines of pydocstyle's stdout: at
   * most one for every two lines, each an `error` at column 1 from `pydocstyle`
   * with no title, a colon-free file and a stripped message.
   */
  function PydocstyleRecords(lines: seq<string>): (r: seq<Annotation>)
    ensures 2 * |r| <= |lines|
    ensures forall k :: 0 <= k < |r| ==> PydocShaped(r[k])
  {
    PairsShaped(Views(lines));
    Pairs(Views(lines))
  }

  /** A view that is no header is passed over alone. */
  lemma PairsSkip(vs: seq<LineView>)
    requires vs != [] && vs[0].header.NotHeader?
    ensures Pairs(vs) == Pairs(vs[1..])
  {
  }

  /** A header as the last view yields nothing. */
  lemma PairsAtEnd(vs: seq<LineView>)
    requires |vs| == 1
    ensures Pairs(vs) == []
  {
  }

  /** A header with a line number takes the next view's message into one record. */
  lemma PairsTake(vs: seq<LineView>, file: string, n: int)
    requires |vs| >= 2 && vs[0].header == Location(file, Some(n))
    ensures Pairs(vs) == [Annotation("error", file, n, 1, "pydocstyle", "", vs[1].message)] + Pairs(vs[2..])
  {
  }

  /** A header whose line number does not parse still uses up the next view. */
  lemma PairsDrop(vs: seq<LineView>)
    requires |vs| >= 2 && vs[0].header.Location? && vs[0].header.lineNo.None?
    ensures Pairs(vs) == Pairs(vs[2..])
  {
  }

  /** The first two lines' views, and the views of the lines after them. */
  lemma ViewsOfTwo(lines: seq<string>)
    requires |lines| >= 2
    ensures Views(lines)[0] == LineView(ReadHeader(lines[0]), Strip(lines[0]))
    ensures Views(lines)[1] == LineView(ReadHeader(lines[1]), Strip(lines[1]))
    ensures Views(lines)[2..] == Views(lines[2..])
  {
    ViewsCons(lines);
    ViewsCons(lines[1..]);
    assert lines[1..][0] == lines[1] && lines[1..][1..] == lines[2..];
  }

  /** The first line's view, and the views of the lines after it. */
  lemma ViewsCons(lines: seq<string>)
    requires lines != []
    ensures Views(lines)[0] == LineView(ReadHeader(lines[0]), Strip(lines[0]))
    ensures Views(lines)[1..] == Views(lines[1..])
  {
  }

  lemma {:induction false} PairsShaped(vs: seq<LineView>)
    requires CleanViews(vs)
    ensures forall k :: 0 <= k < |Pairs(vs)| ==> PydocShaped(Pairs(vs)[k])
    decreases |vs|
  {
    if vs != [] {
      assert CleanViews(vs[1..]) && (|vs| >= 2 ==> CleanViews(vs[2..]));
      PairsShaped(vs[1..]);
      if |vs| >= 2 {
        PairsShaped(vs[2..]);
      }
    }
  }

  /** `lint_pydocstyle` on pydocstyle's stdout. */
  method LintPydocstyle(stdout: string) returns (records: seq<Annotation>)
    ensures records == PydocstyleRecords(Lines(stdout))
  {
    records := ScanPydocstyle(Lines(stdout));
  }

  /** The `for` loop over the lines, with `next` as the iterator's cursor. */
  method ScanPydocstyle(lines: seq<string>) returns (records: seq<Annotation>)
    ensures records == PydocstyleRecords(lines)
  {
    ghost var vs := Views(lines);
    var next := 0;
    records := [];
    assert vs[next..] == vs;
    while next < |lines|
      invariant next <= |lines|
      invariant records + Pairs(vs[next..]) == Pairs(vs)
      decreases |lines| - next
    {
      var record, next' := LoopTurn(lines, next, vs);
      if record.Some? {
        assert records + ([record.value] + Pairs(vs[next'..])) == (records + [record.value]) + Pairs(vs[next'..]);
        records := records + [record.value];
      } else {
        assert [] + Pairs(vs[next'..]) == Pairs(vs[next'..]);
      }
      next := next';
    }
    assert vs[next..] == [];
  }

  /**
   * One turn of the `for` loop: take the header at `next` and, when its location
   * unpacks, the message line after it; a record comes out when the line number
   * parses too. The lines from `next` on yield that record and then those from
   * the new cursor on.
   */
  method LoopTurn(lines: seq<string>, next: nat, ghost vs: seq<LineView>) returns (record: Option<Annotation>, next': nat)
    requires next < |lines| && vs == Views(lines)
    ensures next < next' <= |lines|
    ensures Pairs(vs[next..]) == (if record.Some? then [record.value] else []) + Pairs(vs[next'..])
  {
    ViewsTail(lines, next);
    ghost var rest := lines[next..];
    var header := lines[next];
    next' := next + 1;
    assert rest[0] == header && rest[1..] == lines[next'..];
    ghost var here := vs[next..];
    assert here == [LineView(ReadHeader(header), Strip(header))] + Views(rest[1..]);
    ViewsTail(lines, next');
    assert here[0].header == ReadHeader(header) && here[1..] == vs[next'..];
    record := None;
    if ':' !in header || HeaderLocation(header).None? {
      PairsSkip(here);
    } else if next' == |lines| {
      PairsAtEnd(here);
    } else {
      var loc := HeaderLocation(header).value;
      var error := Strip(lines[next']);
      next' := next' + 1;
      ViewsOfTwo(rest);
      assert rest[1] == lines[next + 1];
      assert here[1].message == error;
      ViewsTail(lines, next');
      assert rest[2..] == lines[next'..];
      var lineNo := ParseInt(loc.1);
      assert here[0].header == Location(loc.0, lineNo);
      if lineNo.Some? {
        record := Some(Annotation("error", loc.0, lineNo.value, 1, "pydocstyle", "", error));
        PairsTake(here, loc.0, lineNo.value);
      } else {
        PairsDrop(here);
      }
    }
  }

  /** Dropping lines from the front drops their views. */
  lemma {:induction false} ViewsTail(lines: seq<string>, k: nat)
    requires k <= |lines|
    ensures Views(lines)[k..] == Views(lines[k..])
    decreases k
  {
    if k > 0 {
      assert Views(lines)[1..] == Views(lines[1..]);
      ViewsTail(lines[1..], k - 1);
      assert lines[1..][k - 1..] == lines[k..];
      assert Views(lines)[k..] == Views(lines)[1..][k - 1..];
    }
  }

  /** A line whose first token does not unpack is passed over without using up the line after it. */
  lemma MalformedHeaderKeepsNext(lines: seq<string>)
    requires lines != [] && (':' !in lines[0] || HeaderLocation(lines[0]).None?)
    ensures PydocstyleRecords(lines) == PydocstyleRecords(lines[1..])
  {
    assert Views(lines)[1..] == Views(lines[1..]);
  }

  /** A header on the last line yields nothing: `next` raises `StopIteration`, which is caught. */
  lemma HeaderAtEnd(lines: seq<string>)
    requires |lines| == 1
    ensures PydocstyleRecords(lines) == []
  {
    if Views(lines)[0].header.NotHeader? {
      assert Views(lines)[1..] == [];
    }
  }

  /**
   * A header that unpacks uses up the line after it, whatever that line holds; a
   * record comes out exactly when the line number parses, with the stripped line as message.
   */
  lemma HeaderTakesNext(lines: seq<string>)
    requires |lines| >= 2 && ':' in lines[0] && HeaderLocation(lines[0]).Some?
    ensures var loc := HeaderLocation(lines[0]).value;
      PydocstyleRecords(lines) ==
        (match ParseInt(loc.1)
         case Some(n) => [Annotation("error", loc.0, n, 1, "pydocstyle", "", Strip(lines[1]))]
         case None => []) + PydocstyleRecords(lines[2..])
  {
    ViewsOfTwo(lines);
    var vs := Views(lines);
    if vs[0].header.lineNo.None? {
      assert [] + Pairs(vs[2..]) == Pairs(vs[2..]);
    }
  }

  /** A first token `file:line_no` followed by a space unpacks to exactly those two parts. */
  lemma HeaderLocationOf(file: string, lineNo: string, rest: string)
    requires ':' !in file && ' ' !in file && ':' !in lineNo && ' ' !in lineNo
    ensures HeaderLocation(file + [':'] + lineNo + [' '] + rest) == Some((file, lineNo))
  {
    var token := file + [':'] + lineNo;
    NotInAppend(file + [':'], lineNo, ' ');
    SplitNCons(token, ' ', rest, 1);
    assert Join([file, lineNo], ':') == token;
    SplitJoin([file, lineNo], ':');
  }

  /** `header.split(" ", 1)[0]` holds no space, and is the whole header or comes before its first space. */
  lemma FirstToken(header: string)
    ensures ' ' !in SplitN(header, ' ', 1)[0]
    ensures header == SplitN(header, ' ', 1)[0] || StartsWith(header, SplitN(header, ' ', 1)[0] + " ")
  {
    var r := SplitN(header, ' ', 1);
    SplitNJoin(header, ' ', 1);
    if |r| == 2 {
      assert r == [r[0], r[1]];
      Join2(r[0], r[1], ' ');
      assert header == (r[0] + " ") + r[1];
      StartsWithAppend(r[0] + " ", r[1]);
    }
  }

  /** Two pieces joined by a separator hold no character that the whole does not hold. */
  lemma PiecesFree(a: string, sep: char, b: string, c: char)
    requires c !in a + [sep] + b
    ensures c !in a && c !in b
  {
  }

  /**
   * The location unpacks exactly when the first space-delimited token is two
   * colon-free parts around one colon, and then its parts are those two: the
   * whole header is `file:line_no`, or it starts with `file:line_no ` .
   */
  lemma HeaderLocationExactly(header: string, file: string, lineNo: string)
    ensures HeaderLocation(header) == Some((file, lineNo)) <==>
      && ':' !in file && ':' !in lineNo && ' ' !in file && ' ' !in lineNo
      && (header == file + ":" + lineNo || StartsWith(header, file + ":" + lineNo + " "))
  {
    var token := SplitN(header, ' ', 1)[0];
    var t := file + ":" + lineNo;
    FirstToken(header);
    Join2(file, lineNo, ':');
    if HeaderLocation(header) == Some((file, lineNo)) {
      SplitExactly(token, ':', [file, lineNo]);
      assert token == t;
      PiecesFree(file, ':', lineNo, ' ');
      if header != token {
        assert StartsWith(header, t + " ");
      }
    }
    if && ':' !in file && ':' !in lineNo && ' ' !in file && ' ' !in lineNo
       && (header == t || StartsWith(header, t + " ")) {
      if header == t {
        NotInAppend(file + [':'], lineNo, ' ');
        SplitNNone(header, ' ', 1);
        SplitJoin([file, lineNo], ':');
      } else {
        var rest := header[|t| + 1..];
        assert header == file + [':'] + lineNo + [' '] + rest;
        HeaderLocationOf(file, lineNo, rest);
      }
    }
  }

  /** A header whose location unpacks holds a colon, so the `":" not in header` test changes nothing. */
  lemma LocatedHasColon(header: string)
    ensures HeaderLocation(header).Some? ==> ':' in header
  {
    if HeaderLocation(header).Some? {
      var loc := HeaderLocation(header).value;
      HeaderLocationExactly(header, loc.0, loc.1);
      var t := loc.0 + ":" + loc.1;
      assert t[|loc.0|] == ':';
      assert header[|loc.0|] == ':';
    }
  }

  // ---------------------------------------------------------------- what pydocstyle prints

  /** Where in the file the problem lies, after the location token. */
  const AtModuleLevel: string := "at module level:"

  lemma AtModuleLevelFree()
    ensures '\n' !in AtModuleLevel
  {
    var w := AtModuleLevel[..|AtModuleLevel| - 1];
    assert Words(w) && AtModuleLevel == w + [':'];
    WordsFree(w);
  }

  /** The header line, `file:line at module level:`. */
  function PydocHeader(a: Annotation): string {
    a.file + [':'] + ShowInt(a.line) + [' '] + AtModuleLevel
  }

  /** The message line, indented. */
  function PydocMessage(a: Annotation): string {
    "        " + a.message
  }

  /** A record pydocstyle can print and this loop reads back. */
  predicate PydocPrintable(a: Annotation) {
    PydocShaped(a) && ' ' !in a.file && '\n' !in a.file && '\n' !in a.message
  }

  /** The header of a printable record unpacks to its file and its line. */
  lemma PydocHeaderRead(a: Annotation)
    requires PydocPrintable(a)
    ensures ReadHeader(PydocHeader(a)) == Location(a.file, Some(a.line))
    ensures '\n' !in PydocHeader(a)
  {
    var show := ShowInt(a.line);
    assert PydocHeader(a)[|a.file|] == ':';
    AtModuleLevelFree();
    NotInAppend(a.file, [':'], '\n');
    NotInAppend(a.file + [':'], show, '\n');
    NotInAppend(a.file + [':'] + show, [' '], '\n');
    NotInAppend(a.file + [':'] + show + [' '], AtModuleLevel, '\n');
    HeaderLocationOf(a.file, show, AtModuleLevel);
    ParseShow(a.line);
  }

  /** The indented message line strips back to the message. */
  lemma PydocMessageRead(a: Annotation)
    requires PydocPrintable(a)
    ensures Strip(PydocMessage(a)) == a.message && '\n' !in PydocMessage(a)
  {
    assert PydocMessage(a) == "        " + a.message + [];
    StripAround("        ", a.message, []);
    NotInAppend("        ", a.message, '\n');
  }

  /** Every record, printed as a header and a message line by `header` and `message`, reads back. */
  predicate PairsReadBack(xs: seq<Annotation>, header: Annotation -> string, message: Annotation -> string) {
    forall k :: 0 <= k < |xs| ==>
      ReadHeader(header(xs[k])) == Location(xs[k].file, Some(xs[k].line)) && Strip(message(xs[k])) == xs[k].message
  }

  /** Each record as its two lines, in order. */
  function PairLines(xs: seq<Annotation>, header: Annotation -> string, message: Annotation -> string): (lines: seq<string>)
    ensures |lines| == 2 * |xs|
  {
    if xs == [] then [] else [header(xs[0]), message(xs[0])] + PairLines(xs[1..], header, message)
  }

  /** Views that come in pairs, a header naming each record's file and line, then its message. */
  predicate ReadsAs(vs: seq<LineView>, xs: seq<Annotation>)
    decreases |xs|
  {
    && |vs| == 2 * |xs|
    && (xs != [] ==>
          && vs[0].header == Location(xs[0].file, Some(xs[0].line))
          && vs[1].message == xs[0].message
          && ReadsAs(vs[2..], xs[1..]))
  }

  lemma {:induction false} PairsReadsAs(vs: seq<LineView>, xs: seq<Annotation>)
    requires ReadsAs(vs, xs)
    requires forall k :: 0 <= k < |xs| ==> PydocShaped(xs[k])
    ensures Pairs(vs) == xs
    decreases |xs|
  {
    if xs != [] {
      PairsReadsAs(vs[2..], xs[1..]);
      assert [xs[0]] + xs[1..] == xs;
    }
  }

  lemma {:induction false} ViewsOfPairLines(xs: seq<Annotation>, header: Annotation -> string, message: Annotation -> string)
    requires PairsReadBack(xs, header, message)
    ensures ReadsAs(Views(PairLines(xs, header, message)), xs)
    decreases |xs|
  {
    if xs != [] {
      var lines := PairLines(xs, header, message);
      assert lines[0] == header(xs[0]) && lines[1] == message(xs[0]);
      assert lines[2..] == PairLines(xs[1..], header, message);
      ViewsOfTwo(lines);
      assert PairsReadBack(xs[1..], header, message) by {
        forall k | 0 <= k < |xs| - 1 ensures xs[1..][k] == xs[k + 1] { }
      }
      ViewsOfPairLines(xs[1..], header, message);
    }
  }

  /** Each printable record's two lines read back as that record. */
  lemma PydocReadBack(xs: seq<Annotation>)
    requires forall k :: 0 <= k < |xs| ==> PydocPrintable(xs[k])
    ensures PairsReadBack(xs, PydocHeader, PydocMessage)
  {
    forall k | 0 <= k < |xs|
      ensures ReadHeader(PydocHeader(xs[k])) == Location(xs[k].file, Some(xs[k].line))
      ensures Strip(PydocMessage(xs[k])) == xs[k].message
    {
      PydocHeaderRead(xs[k]);
      PydocMessageRead(xs[k]);
    }
  }

  /** Pairs of lines that each read back give back the records they were printed from, in order. */
  lemma PairsRoundTrip(xs: seq<Annotation>, header: Annotation -> string, message: Annotation -> string)
    requires PairsReadBack(xs, header, message)
    requires forall k :: 0 <= k < |xs| ==> PydocShaped(xs[k])
    ensures PydocstyleRecords(PairLines(xs, header, message)) == xs
  {
    ViewsOfPairLines(xs, header, message);
    PairsReadsAs(Views(PairLines(xs, header, message)), xs);
  }

  /** Printed pairs of lines read back as the records they were printed from, in order. */
  lemma PydocRoundTrip(xs: seq<Annotation>)
    requires forall k :: 0 <= k < |xs| ==> PydocPrintable(xs[k])
    ensures PydocstyleRecords(PairLines(xs, PydocHeader, PydocMessage)) == xs
  {
    PydocReadBack(xs);
    PairsRoundTrip(xs, PydocHeader, PydocMessage);
  }
}
