/**
 * The pieces of Python's `str` behaviour that the linter output parsers rely on:
 * `isspace`, `strip()`, `startswith`, `split(sep[, maxsplit])`, `rpartition` and
 * `int()` on a decimal string.
 */
module Text {
  import opened Wrappers

  /** Python's `str.isspace()` on one character. */
  predicate IsSpace(c: char) {
    || ('\t' <= c <= '\r')
    || ('\U{1C}' <= c <= ' ')
    || c == '\U{85}'
    || c == '\U{A0}'
    || c == '\U{1680}'
    || ('\U{2000}' <= c <= '\U{200A}')
    || ('\U{2028}' <= c <= '\U{2029}')
    || c == '\U{202F}'
    || c == '\U{205F}'
    || c == '\U{3000}'
  }

  predicate AllSpace(s: string) {
    forall i :: 0 <= i < |s| ==> IsSpace(s[i])
  }

  /** A string that `strip()` leaves alone: it neither starts nor ends with whitespace. */
  predicate Stripped(s: string) {
    s == [] || (!IsSpace(s[0]) && !IsSpace(s[|s| - 1]))
  }

  /** Length of the whitespace run at the start of `s`. */
  function LeadingSpace(s: string): (n: nat)
    ensures n <= |s|
  {
    if s != [] && IsSpace(s[0]) then 1 + LeadingSpace(s[1..]) else 0
  }

  /** Length of the whitespace run at the end of `s`. */
  function TrailingSpace(s: string): (n: nat)
    ensures n <= |s|
  {
    if s != [] && IsSpace(s[|s| - 1]) then 1 + TrailingSpace(s[..|s| - 1]) else 0
  }

  /** The leading run is whitespace and is followed by a character that is not. */
  lemma {:induction false} LeadingSpaceRun(s: string)
    ensures AllSpace(s[..LeadingSpace(s)])
    ensures LeadingSpace(s) < |s| ==> !IsSpace(s[LeadingSpace(s)])
    ensures AllSpace(s) ==> LeadingSpace(s) == |s|
  {
    if s != [] && IsSpace(s[0]) {
      var m := LeadingSpace(s[1..]);
      LeadingSpaceRun(s[1..]);
      assert s[..1 + m] == [s[0]] + s[1..][..m];
      assert AllSpace(s) ==> AllSpace(s[1..]);
    }
  }

  /** The trailing run is whitespace and is preceded by a character that is not. */
  lemma {:induction false} TrailingSpaceRun(s: string)
    ensures AllSpace(s[|s| - TrailingSpace(s)..])
    ensures TrailingSpace(s) < |s| ==> !IsSpace(s[|s| - TrailingSpace(s) - 1])
  {
    if s != [] && IsSpace(s[|s| - 1]) {
      var p := s[..|s| - 1];
      var m := TrailingSpace(p);
      TrailingSpaceRun(p);
      assert TrailingSpace(s) == 1 + m;
      assert s[|s| - (1 + m)..] == p[|p| - m..] + [s[|s| - 1]];
      if m < |p| {
        assert s[|s| - (1 + m) - 1] == p[|p| - m - 1];
      }
    }
  }

  /** Python's `s.strip()`: drop the leading and the trailing whitespace. */
  function Strip(s: string): (r: string)
    ensures Stripped(r)
    ensures |r| <= |s|
  {
    var a := LeadingSpace(s);
    var t := s[a..];
    LeadingSpaceRun(s);
    TrailingSpaceRun(t);
    var r := t[..|t| - TrailingSpace(t)];
    assert r != [] ==> r[0] == s[a];
    r
  }

  /** `strip()` removes whitespace and nothing else: the input is the result with whitespace around it. */
  lemma StripKeeps(s: string)
    ensures exists w1, w2 :: AllSpace(w1) && AllSpace(w2) && s == w1 + Strip(s) + w2
  {
    var a := LeadingSpace(s);
    var t := s[a..];
    var k := |t| - TrailingSpace(t);
    LeadingSpaceRun(s);
    TrailingSpaceRun(t);
    assert Strip(s) == t[..k];
    var w1, w2 := s[..a], t[k..];
    Reassemble(s, a, k);
    assert AllSpace(w1) && AllSpace(w2) && s == w1 + Strip(s) + w2;
  }

  /** Cutting `s` at `a` and its suffix at `k` gives three pieces that make up `s`. */
  lemma Reassemble(s: string, a: nat, k: nat)
    requires a <= |s| && k <= |s| - a
    ensures s == s[..a] + s[a..][..k] + s[a..][k..]
  {
    var t := s[a..];
    assert t == t[..k] + t[k..];
    assert s == s[..a] + t;
    assert s[..a] + (t[..k] + t[k..]) == s[..a] + t[..k] + t[k..];
  }

  /** Whitespace in front adds to the leading run. */
  lemma {:induction false} LeadingSpaceAppend(w: string, x: string)
    requires AllSpace(w)
    ensures LeadingSpace(w + x) == |w| + LeadingSpace(x)
    decreases |w|
  {
    if w != [] {
      assert (w + x)[0] == w[0] && (w + x)[1..] == w[1..] + x;
      LeadingSpaceAppend(w[1..], x);
    } else {
      assert w + x == x;
    }
  }

  /** Whitespace behind adds to the trailing run. */
  lemma {:induction false} TrailingSpaceAppend(x: string, w: string)
    requires AllSpace(w)
    ensures TrailingSpace(x + w) == TrailingSpace(x) + |w|
    decreases |w|
  {
    if w != [] {
      var s := x + w;
      assert s[|s| - 1] == w[|w| - 1] && s[..|s| - 1] == x + w[..|w| - 1];
      TrailingSpaceAppend(x, w[..|w| - 1]);
    } else {
      assert x + w == x;
    }
  }

  /** Stripping removes exactly the whitespace around a stripped core, whatever surrounds it. */
  lemma StripAround(w1: string, m: string, w2: string)
    requires AllSpace(w1) && AllSpace(w2) && Stripped(m)
    ensures Strip(w1 + m + w2) == m
  {
    var s := w1 + m + w2;
    assert s == w1 + (m + w2);
    LeadingSpaceAppend(w1, m + w2);
    TrailingSpaceAppend(m, w2);
    if m == [] {
      assert m + w2 == w2;
      LeadingSpaceAppend(w2, []);
      assert w2 + [] == w2;
    } else {
      assert (m + w2)[0] == m[0];
      assert s[|w1|..] == m + w2;
    }
  }

  /** `strip()` leaves a stripped string alone. */
  lemma StripStripped(s: string)
    requires Stripped(s)
    ensures Strip(s) == s
  {
    StripAround([], s, []);
    assert [] + s + [] == s;
  }

  /** One space in front of a stripped string is all that `strip()` removes. */
  lemma StripSpaceBefore(m: string)
    requires Stripped(m)
    ensures Strip(" " + m) == m
  {
    StripAround(" ", m, []);
    assert " " + m + [] == " " + m;
  }

  /** `strip()` is idempotent. */
  lemma StripIdempotent(s: string)
    ensures Strip(Strip(s)) == Strip(s)
  {
    StripAround([], Strip(s), []);
    assert [] + Strip(s) + [] == Strip(s);
  }

  /** A word of lower-case ASCII letters. */
  predicate Lowercase(w: string) {
    forall i :: 0 <= i < |w| ==> 'a' <= w[i] <= 'z'
  }

  lemma LowercaseWord(w: string)
    requires Lowercase(w)
    ensures Stripped(w) && '\n' !in w && ':' !in w
  {
  }

  /** Lower-case ASCII words separated by spaces. */
  predicate Words(w: string) {
    forall i :: 0 <= i < |w| ==> 'a' <= w[i] <= 'z' || w[i] == ' '
  }

  lemma WordsFree(w: string)
    requires Words(w)
    ensures '\n' !in w && ':' !in w
  {
  }

  /** Python's `s.startswith(p)`: `s` is `p` followed by the rest of `s`. */
  predicate StartsWith(s: string, p: string)
    ensures StartsWith(s, p) ==> |p| <= |s| && s == p + s[|p|..]
  {
    |p| <= |s| && s[..|p|] == p
  }

  /** Any text after `p` leaves a string that starts with `p`. */
  lemma StartsWithAppend(p: string, rest: string)
    ensures StartsWith(p + rest, p)
  {
    assert (p + rest)[..|p|] == p;
  }

  /** Index of the first `c` in `s`, or `|s|` when there is none. */
  function IndexOf(s: string, c: char): (k: nat)
    ensures k <= |s|
    ensures c !in s[..k]
    ensures k < |s| ==> s[k] == c
  {
    if s == [] then 0
    else if s[0] == c then 0
    else
      var k := IndexOf(s[1..], c);
      assert s[..1 + k] == [s[0]] + s[1..][..k];
      1 + k
  }

  /** Python's `sep.join(parts)` for a one-character separator. */
  function Join(parts: seq<string>, sep: char): string {
    if |parts| == 0 then []
    else if |parts| == 1 then parts[0]
    else parts[0] + [sep] + Join(parts[1..], sep)
  }

  /**
   * Python's `s.split(sep, maxsplit)` for a one-character separator; a negative
   * `maxsplit` means no limit, as in Python. Only the last piece can hold `sep`,
   * and it holds one only when the limit was reached; `SplitNJoin` shows the
   * pieces rejoin to `s`.
   */
  function SplitN(s: string, sep: char, maxsplit: int): (r: seq<string>)
    ensures |r| >= 1
    ensures forall i :: 0 <= i < |r| - 1 ==> sep !in r[i]
    ensures maxsplit >= 0 ==> |r| <= maxsplit + 1
    ensures (maxsplit < 0 || |r| <= maxsplit) ==> sep !in r[|r| - 1]
    decreases |s|
  {
    var k := IndexOf(s, sep);
    if maxsplit == 0 || k == |s| then [s]
    else [s[..k]] + SplitN(s[k + 1..], sep, maxsplit - 1)
  }

  /** The pieces of a split rejoin, with the separator between them, to the split string. */
  lemma {:induction false} SplitNJoin(s: string, sep: char, maxsplit: int)
    ensures Join(SplitN(s, sep, maxsplit), sep) == s
    decreases |s|
  {
    var k := IndexOf(s, sep);
    if maxsplit == 0 || k == |s| {
      assert s[..|s|] == s;
    } else {
      var rest := SplitN(s[k + 1..], sep, maxsplit - 1);
      SplitNJoin(s[k + 1..], sep, maxsplit - 1);
      assert SplitN(s, sep, maxsplit) == [s[..k]] + rest && ([s[..k]] + rest)[1..] == rest;
      assert s == s[..k] + [sep] + s[k + 1..];
    }
  }

  /** Python's `s.split(sep)`: split at every separator. */
  function Split(s: string, sep: char): (r: seq<string>)
    ensures |r| >= 1
    ensures forall i :: 0 <= i < |r| ==> sep !in r[i]
  {
    SplitN(s, sep, -1)
  }

  /** The properties in `SplitN`'s contract determine its result completely. */
  lemma {:induction false} SplitNUnique(s: string, sep: char, maxsplit: int, r: seq<string>)
    requires |r| >= 1
    requires Join(r, sep) == s
    requires forall i :: 0 <= i < |r| - 1 ==> sep !in r[i]
    requires maxsplit >= 0 ==> |r| <= maxsplit + 1
    requires (maxsplit < 0 || |r| <= maxsplit) ==> sep !in r[|r| - 1]
    ensures SplitN(s, sep, maxsplit) == r
    decreases |r|
  {
    if |r| == 1 {
      assert s == r[0];
      SplitNNoSplit(s, sep, maxsplit);
    } else {
      var tail := r[1..];
      assert forall i :: 0 <= i < |tail| ==> tail[i] == r[i + 1];
      assert tail[|tail| - 1] == r[|r| - 1];
      SplitNUnique(Join(tail, sep), sep, maxsplit - 1, tail);
      SplitNUniqueStep(s, sep, maxsplit, r);
    }
  }

  /** A first separator-free piece in front of a known split extends that split by one piece. */
  lemma SplitNUniqueStep(s: string, sep: char, maxsplit: int, r: seq<string>)
    requires |r| >= 2 && maxsplit != 0
    requires Join(r, sep) == s && sep !in r[0]
    requires SplitN(Join(r[1..], sep), sep, maxsplit - 1) == r[1..]
    ensures SplitN(s, sep, maxsplit) == r
  {
    var tail := r[1..];
    var rest := Join(tail, sep);
    assert s == r[0] + [sep] + rest && r == [r[0]] + tail;
    SplitNConsOf(r[0], sep, rest, maxsplit, tail);
  }

  /** Joining four pieces puts the separator between each two. */
  lemma Join4(a: string, b: string, c: string, d: string, sep: char)
    ensures Join([a, b, c, d], sep) == a + [sep] + b + [sep] + c + [sep] + d
  {
    assert [a, b, c, d][1..] == [b, c, d] && [b, c, d][1..] == [c, d] && [c, d][1..] == [d];
    assert Join([c, d], sep) == c + [sep] + d;
    assert Join([b, c, d], sep) == b + [sep] + (c + [sep] + d);
  }

  /** Joining three pieces puts the separator between each two. */
  lemma Join3(a: string, b: string, c: string, sep: char)
    ensures Join([a, b, c], sep) == a + [sep] + b + [sep] + c
  {
    assert [a, b, c][1..] == [b, c];
    Join2(b, c, sep);
    assert Join([a, b, c], sep) == a + [sep] + (b + [sep] + c);
  }

  /** Joining five pieces puts the separator between each two. */
  lemma Join5(a: string, b: string, c: string, d: string, e: string, sep: char)
    ensures Join([a, b, c, d, e], sep) == a + [sep] + b + [sep] + c + [sep] + d + [sep] + e
  {
    assert [a, b, c, d, e][1..] == [b, c, d, e];
    Join4(b, c, d, e, sep);
  }

  /** Splitting a join of separator-free pieces gives the pieces back. */
  lemma SplitJoin(parts: seq<string>, sep: char)
    requires |parts| >= 1
    requires forall i :: 0 <= i < |parts| ==> sep !in parts[i]
    ensures Split(Join(parts, sep), sep) == parts
  {
    SplitNUnique(Join(parts, sep), sep, -1, parts);
  }

  /**
   * `g` is what `a, b, ... = s.split(sep, |g| - 1)` unpacks into: the pieces
   * rejoin to `s`, and every piece but the last is free of `sep`.
   */
  predicate Unpacks(s: string, sep: char, g: seq<string>) {
    |g| >= 1 && Join(g, sep) == s && forall i :: 0 <= i < |g| - 1 ==> sep !in g[i]
  }

  /** `g` is what `s.split(sep)` returns: the pieces rejoin to `s` and none holds `sep`. */
  predicate SplitsInto(s: string, sep: char, g: seq<string>) {
    |g| >= 1 && Join(g, sep) == s && forall i :: 0 <= i < |g| ==> sep !in g[i]
  }

  /** A split bounded to `|g| - 1` gives exactly `g` when, and only when, `s` unpacks into `g`. */
  lemma SplitNExactly(s: string, sep: char, g: seq<string>)
    requires |g| >= 1
    ensures SplitN(s, sep, |g| - 1) == g <==> Unpacks(s, sep, g)
  {
    if SplitN(s, sep, |g| - 1) == g {
      SplitNJoin(s, sep, |g| - 1);
    }
    if Unpacks(s, sep, g) {
      SplitNUnique(s, sep, |g| - 1, g);
    }
  }

  /** An unbounded split gives exactly `g` when, and only when, `g` is separator-free and rejoins to `s`. */
  lemma SplitExactly(s: string, sep: char, g: seq<string>)
    ensures Split(s, sep) == g <==> SplitsInto(s, sep, g)
  {
    if Split(s, sep) == g {
      SplitNJoin(s, sep, -1);
    }
    if SplitsInto(s, sep, g) {
      SplitNUnique(s, sep, -1, g);
    }
  }

  /** Joining two pieces puts one separator between them. */
  lemma Join2(a: string, b: string, sep: char)
    ensures Join([a, b], sep) == a + [sep] + b
  {
    assert [a, b][1..] == [b];
  }

  lemma IndexOfAbsent(s: string, c: char)
    requires c !in s
    ensures IndexOf(s, c) == |s|
  {
    assert forall i :: 0 <= i < |s| ==> s[i] != c;
  }

  lemma IndexOfAfter(a: string, c: char, b: string)
    requires c !in a
    ensures IndexOf(a + [c] + b, c) == |a|
  {
    var s := a + [c] + b;
    var k := IndexOf(s, c);
    assert s[|a|] == c;
    assert forall i :: 0 <= i < k ==> s[..k][i] == s[i];
    assert forall i :: 0 <= i < |a| ==> s[i] == a[i];
  }

  /** Every character of a piece occurs in the joined string. */
  lemma {:induction false} JoinContains(parts: seq<string>, sep: char, i: nat)
    requires i < |parts|
    ensures forall x :: x in parts[i] ==> x in Join(parts, sep)
    decreases |parts|
  {
    if |parts| > 1 {
      if i > 0 {
        JoinContains(parts[1..], sep, i - 1);
      }
    }
  }

  /** A character missing from both halves is missing from their concatenation. */
  lemma NotInAppend(a: string, b: string, c: char)
    requires c !in a && c !in b
    ensures c !in a + b
  {
    assert forall i :: 0 <= i < |a + b| ==> (a + b)[i] == if i < |a| then a[i] else b[i - |a|];
  }

  /** The first piece of a bounded split, when a separator follows a separator-free prefix. */
  lemma SplitNCons(a: string, sep: char, b: string, maxsplit: int)
    requires sep !in a && maxsplit != 0
    ensures SplitN(a + [sep] + b, sep, maxsplit) == [a] + SplitN(b, sep, maxsplit - 1)
  {
    var s := a + [sep] + b;
    IndexOfAfter(a, sep, b);
    assert s[..|a|] == a && s[|a| + 1..] == b;
  }

  lemma SplitNConsOf(a: string, sep: char, b: string, maxsplit: int, tail: seq<string>)
    requires sep !in a && maxsplit != 0
    requires SplitN(b, sep, maxsplit - 1) == tail
    ensures SplitN(a + [sep] + b, sep, maxsplit) == [a] + tail
  {
    SplitNCons(a, sep, b, maxsplit);
  }

  /** A split that may not split, or finds nothing to split at, keeps the string whole. */
  lemma SplitNNoSplit(s: string, sep: char, maxsplit: int)
    requires maxsplit == 0 || sep !in s
    ensures SplitN(s, sep, maxsplit) == [s]
  {
    if maxsplit != 0 {
      SplitNNone(s, sep, maxsplit);
    }
  }

  /** A separator-free string is not split at all. */
  lemma SplitNNone(s: string, sep: char, maxsplit: int)
    requires sep !in s
    ensures SplitN(s, sep, maxsplit) == [s]
  {
    IndexOfAbsent(s, sep);
  }

  /** A trailing newline yields one more, empty, line. */
  lemma SplitAppendSep(s: string, sep: char)
    ensures Split(s + [sep], sep) == Split(s, sep) + [[]]
  {
    var r := Split(s, sep);
    var r' := r + [[]];
    SplitNJoin(s, sep, -1);
    JoinAppendEmpty(r, sep);
    SplitNUnique(s + [sep], sep, -1, r');
  }

  lemma {:induction false} JoinAppendEmpty(parts: seq<string>, sep: char)
    requires |parts| >= 1
    ensures Join(parts + [[]], sep) == Join(parts, sep) + [sep]
    decreases |parts|
  {
    if |parts| == 1 {
      assert parts + [[]] == [parts[0], []];
    } else {
      assert (parts + [[]])[1..] == parts[1..] + [[]];
      JoinAppendEmpty(parts[1..], sep);
    }
  }

  /** A character in none of the pieces, and not the separator, is not in their join. */
  lemma {:induction false} JoinFree(parts: seq<string>, sep: char, c: char)
    requires c != sep
    requires forall i :: 0 <= i < |parts| ==> c !in parts[i]
    ensures c !in Join(parts, sep)
    decreases |parts|
  {
    if |parts| > 1 {
      JoinFree(parts[1..], sep, c);
      NotInAppend(parts[0], [sep], c);
      NotInAppend(parts[0] + [sep], Join(parts[1..], sep), c);
    }
  }

  /** A join starts with its first piece, ends with its last, and has the separator right after the first. */
  lemma {:induction false} JoinEnds(parts: seq<string>, sep: char)
    requires |parts| >= 1
    ensures |Join(parts, sep)| >= |parts[0]| && Join(parts, sep)[..|parts[0]|] == parts[0]
    ensures |Join(parts, sep)| >= |parts[|parts| - 1]|
    ensures Join(parts, sep)[|Join(parts, sep)| - |parts[|parts| - 1]|..] == parts[|parts| - 1]
    ensures |parts| >= 2 ==> |Join(parts, sep)| > |parts[0]| && Join(parts, sep)[|parts[0]|] == sep
    decreases |parts|
  {
    if |parts| > 1 {
      var rest := Join(parts[1..], sep);
      JoinEnds(parts[1..], sep);
      JoinEndsStep(parts[0], sep, rest, parts[|parts| - 1]);
    }
  }

  lemma JoinEndsStep(a: string, sep: char, rest: string, last: string)
    requires |rest| >= |last| && rest[|rest| - |last|..] == last
    ensures (a + [sep] + rest)[..|a|] == a && (a + [sep] + rest)[|a|] == sep
    ensures (a + [sep] + rest)[|a + [sep] + rest| - |last|..] == last
  {
    var s := a + [sep] + rest;
    assert s[|s| - |last|..] == rest[|rest| - |last|..];
  }

  /** A join whose first piece starts, and whose last piece ends, with a non-space character is stripped. */
  lemma JoinStripped(parts: seq<string>, sep: char)
    requires |parts| >= 1
    requires parts[0] != [] && !IsSpace(parts[0][0])
    requires parts[|parts| - 1] != [] && !IsSpace(parts[|parts| - 1][|parts[|parts| - 1]| - 1])
    ensures Stripped(Join(parts, sep))
  {
    var j := Join(parts, sep);
    var last := parts[|parts| - 1];
    JoinEnds(parts, sep);
    assert j[0] == j[..|parts[0]|][0];
    assert j[|j| - 1] == j[|j| - |last|..][|last| - 1];
  }

  /** Splitting a join at most one time fewer than there are pieces gives the pieces back, the last one whatever it holds. */
  lemma SplitJoinN(parts: seq<string>, sep: char)
    requires |parts| >= 1
    requires forall i :: 0 <= i < |parts| - 1 ==> sep !in parts[i]
    ensures SplitN(Join(parts, sep), sep, |parts| - 1) == parts
  {
    SplitNUnique(Join(parts, sep), sep, |parts| - 1, parts);
  }

  /**
   * Python's `s.rpartition(sep)[2]`: the text after the last `sep`, or all of `s`
   * when there is none.
   */
  function AfterLast(s: string, sep: char): (r: string)
    ensures sep !in r
    ensures |r| <= |s| && r == s[|s| - |r|..]
    ensures |r| < |s| ==> s[|s| - |r| - 1] == sep
  {
    if s == [] then []
    else if s[|s| - 1] == sep then []
    else
      var r := AfterLast(s[..|s| - 1], sep);
      assert s[|s| - |r| - 1..] == s[..|s| - 1][|s| - 1 - |r|..] + [s[|s| - 1]];
      r + [s[|s| - 1]]
  }

  /** What follows the last separator is found whatever precedes it. */
  lemma {:induction false} AfterLastSuffix(p: string, sep: char, r: string)
    requires sep !in r
    ensures AfterLast(p + [sep] + r, sep) == r
    decreases |r|
  {
    var s := p + [sep] + r;
    if r != [] {
      assert r[|r| - 1] in r;
      assert s[..|s| - 1] == p + [sep] + r[..|r| - 1];
      AfterLastSuffix(p, sep, r[..|r| - 1]);
      assert r[..|r| - 1] + [r[|r| - 1]] == r;
    }
  }

  predicate IsDigit(c: char) {
    '0' <= c <= '9'
  }

  predicate AllDigits(s: string) {
    forall i :: 0 <= i < |s| ==> IsDigit(s[i])
  }

  /** The value of a string of decimal digits, most significant first. */
  function DigitsValue(ds: string): nat
    requires AllDigits(ds)
    decreases |ds|
  {
    if ds == [] then 0
    else 10 * DigitsValue(ds[..|ds| - 1]) + ((ds[|ds| - 1] as int) - ('0' as int))
  }

  /** The decimal digits of `n`, as Python's `str(n)` writes them. */
  function Decimal(n: nat): (ds: string)
    ensures |ds| >= 1 && AllDigits(ds)
  {
    var d := (n % 10 + '0' as int) as char;
    if n < 10 then [d] else Decimal(n / 10) + [d]
  }

  /** Python's `str(i)` for an integer. */
  function ShowInt(i: int): (s: string)
    ensures s != [] && Stripped(s)
    ensures ':' !in s && ' ' !in s && ',' !in s && '\n' !in s && '\t' !in s
    ensures !HasSeparator(s)
  {
    if i < 0 then "-" + Decimal(-i) else Decimal(i)
  }

  /** The ASCII information separators U+001C to U+001F: whitespace to `str.isspace()`, but not to `int()`. */
  predicate Separator(c: char) {
    '\U{1C}' <= c <= '\U{1F}'
  }

  predicate HasSeparator(s: string) {
    exists i :: 0 <= i < |s| && Separator(s[i])
  }

  /** The whitespace `int()` skips around the digits: `str.isspace()` without the separators. */
  predicate IntSpaces(w: string) {
    forall i :: 0 <= i < |w| ==> IsSpace(w[i]) && !Separator(w[i])
  }

  /** An optional sign. */
  predicate Sign(sign: string) {
    sign == "" || sign == "-" || sign == "+"
  }

  /** `s` is whitespace `w1`, an optional sign, the digits `ds` and whitespace `w2`. */
  predicate IntLiteral(s: string, w1: string, sign: string, ds: string, w2: string) {
    && s == w1 + sign + ds + w2
    && IntSpaces(w1) && IntSpaces(w2) && Sign(sign) && ds != [] && AllDigits(ds)
  }

  /** The value of a sign and digits. */
  function SignedValue(sign: string, ds: string): int
    requires AllDigits(ds)
  {
    var v: int := DigitsValue(ds);
    if sign == "-" then -v else v
  }

  /**
   * Python's `int(s)` in base 10: surrounding whitespace, an optional sign, then at
   * least one ASCII digit; anything else is the `ValueError` case, `None`. `int()`
   * turns every non-ASCII whitespace character into a space and skips the ASCII
   * whitespace around the number, but the separators U+001C to U+001F are not
   * among those, so text holding one never parses.
   */
  function ParseInt(s: string): (r: Option<int>)
    ensures AllSpace(s) ==> r == None
    ensures HasSeparator(s) ==> r == None
  {
    if HasSeparator(s) then None
    else
      LeadingSpaceRun(s);
      ParseSigned(Strip(s))
  }

  /** `int()` on text without surrounding whitespace: an optional sign, then decimal digits. */
  function ParseSigned(t: string): (r: Option<int>)
    ensures t == [] ==> r == None
  {
    if t == [] then None
    else
      var digits := if t[0] == '-' || t[0] == '+' then t[1..] else t;
      if digits != [] && AllDigits(digits) then
        var v: int := DigitsValue(digits);
        Some(if t[0] == '-' then -v else v)
      else None
  }

  lemma {:induction false} DecimalValue(n: nat)
    ensures DigitsValue(Decimal(n)) == n
  {
    if n >= 10 {
      var ds := Decimal(n);
      assert ds[..|ds| - 1] == Decimal(n / 10);
      DecimalValue(n / 10);
    }
  }

  /** `int(str(i)) == i`. */
  lemma ParseShow(i: int)
    ensures ParseInt(ShowInt(i)) == Some(i)
  {
    StripStripped(ShowInt(i));
    ParseSignedShow(i);
  }

  /** `int(" " + str(i)) == i`. */
  lemma ParseSpacedShow(i: int)
    ensures ParseInt(" " + ShowInt(i)) == Some(i)
  {
    var s := " " + ShowInt(i);
    assert forall k :: 1 <= k < |s| ==> s[k] == ShowInt(i)[k - 1];
    StripSpaceBefore(ShowInt(i));
    ParseSignedShow(i);
  }

  lemma ParseSignedShow(i: int)
    ensures ParseSigned(ShowInt(i)) == Some(i)
  {
    var s := ShowInt(i);
    if i < 0 {
      assert s[1..] == Decimal(-i);
      DecimalValue(-i);
    } else {
      DecimalValue(i);
    }
  }

  /** Whitespace, a sign and digits around each other hold no separator. */
  lemma LiteralHasNoSeparator(s: string, w1: string, sign: string, ds: string, w2: string)
    requires IntLiteral(s, w1, sign, ds, w2)
    ensures !HasSeparator(s)
  {
    var t := sign + ds;
    assert s == w1 + t + w2;
    forall k | 0 <= k < |s|
      ensures !Separator(s[k])
    {
      if k < |w1| {
        assert s[k] == w1[k];
      } else if k < |w1| + |t| {
        assert s[k] == t[k - |w1|];
        if k - |w1| >= |sign| {
          assert t[k - |w1|] == ds[k - |w1| - |sign|];
        }
      } else {
        assert s[k] == w2[k - |w1| - |t|];
      }
    }
  }

  /** A sign and digits read as their value. */
  lemma ParseSignedOf(sign: string, ds: string)
    requires Sign(sign) && ds != [] && AllDigits(ds)
    ensures Stripped(sign + ds)
    ensures ParseSigned(sign + ds) == Some(SignedValue(sign, ds))
  {
    var t := sign + ds;
    assert t[|t| - 1] == ds[|ds| - 1];
    if sign == "" {
      assert t == ds && t[0] == ds[0];
    } else {
      assert t[1..] == ds;
    }
  }

  /** Without a separator, `int()` reads what `strip()` leaves. */
  lemma ParseIntStripped(s: string)
    requires !HasSeparator(s)
    ensures ParseInt(s) == ParseSigned(Strip(s))
  {
  }

  lemma IntSpacesAreSpace(w: string)
    requires IntSpaces(w)
    ensures AllSpace(w)
  {
  }

  /** A sign and digits between whitespace, as `strip()` and the sign-and-digits reader see them. */
  lemma LiteralParts(w1: string, sign: string, ds: string, w2: string)
    requires IntSpaces(w1) && IntSpaces(w2) && Sign(sign) && ds != [] && AllDigits(ds)
    ensures AllSpace(w1) && AllSpace(w2)
    ensures Stripped(sign + ds) && ParseSigned(sign + ds) == Some(SignedValue(sign, ds))
  {
    ParseSignedOf(sign, ds);
    IntSpacesAreSpace(w1);
    IntSpacesAreSpace(w2);
  }

  lemma Regroup(s: string, a: string, b: string, c: string, d: string)
    ensures s == a + b + c + d <==> s == a + (b + c) + d
  {
  }

  /** Whitespace, an optional sign and digits make the number they spell. */
  lemma ParseIntOf(s: string, w1: string, sign: string, ds: string, w2: string)
    requires IntLiteral(s, w1, sign, ds, w2)
    ensures ParseInt(s) == Some(SignedValue(sign, ds))
  {
    LiteralHasNoSeparator(s, w1, sign, ds, w2);
    LiteralParts(w1, sign, ds, w2);
    Regroup(s, w1, sign, ds, w2);
    StripAround(w1, sign + ds, w2);
    ParseIntStripped(s);
  }

  /** Whitespace around a core, inside text without separators, is whitespace `int()` skips. */
  lemma SkippedSpace(s: string, w1: string, t: string, w2: string)
    requires s == w1 + t + w2 && !HasSeparator(s) && AllSpace(w1) && AllSpace(w2)
    ensures IntSpaces(w1) && IntSpaces(w2)
  {
    forall k | 0 <= k < |w1|
      ensures !Separator(w1[k])
    {
      assert s[k] == w1[k];
    }
    forall k | 0 <= k < |w2|
      ensures !Separator(w2[k])
    {
      assert s[|w1| + |t| + k] == w2[k];
    }
  }

  /** Text without whitespace that parses is a sign and digits. */
  lemma ParseSignedRead(t: string) returns (sign: string, ds: string)
    requires ParseSigned(t).Some?
    ensures t == sign + ds && Sign(sign) && ds != [] && AllDigits(ds)
    ensures ParseSigned(t) == Some(SignedValue(sign, ds))
  {
    sign := if t[0] == '-' || t[0] == '+' then [t[0]] else [];
    ds := t[|sign|..];
    assert t == sign + ds;
  }

  /** Text that parses is whitespace, an optional sign, digits and whitespace. */
  lemma ParseIntRead(s: string)
    requires ParseInt(s).Some?
    ensures exists w1, sign, ds, w2 :: IntLiteral(s, w1, sign, ds, w2) && ParseInt(s) == Some(SignedValue(sign, ds))
  {
    ParseIntStripped(s);
    var t := Strip(s);
    var w1, w2 := StripPieces(s);
    SkippedSpace(s, w1, t, w2);
    var sign, ds := ParseSignedRead(t);
    Regroup(s, w1, sign, ds, w2);
    assert IntLiteral(s, w1, sign, ds, w2);
  }

  /** The whitespace `strip()` removes from each end. */
  lemma StripPieces(s: string) returns (w1: string, w2: string)
    ensures AllSpace(w1) && AllSpace(w2) && s == w1 + Strip(s) + w2
  {
    StripKeeps(s);
    w1, w2 :| AllSpace(w1) && AllSpace(w2) && s == w1 + Strip(s) + w2;
  }

  /**
   * `int()` succeeds exactly on whitespace, an optional sign, at least one digit
   * and whitespace, and gives the number the sign and digits spell.
   */
  lemma ParseIntExactly(s: string)
    ensures ParseInt(s).Some? <==> exists w1, sign, ds, w2 :: IntLiteral(s, w1, sign, ds, w2)
    ensures forall w1, sign, ds, w2 :: IntLiteral(s, w1, sign, ds, w2) ==> ParseInt(s) == Some(SignedValue(sign, ds))
  {
    if ParseInt(s).Some? {
      ParseIntRead(s);
    }
    forall w1, sign, ds, w2 | IntLiteral(s, w1, sign, ds, w2)
      ensures ParseInt(s) == Some(SignedValue(sign, ds))
    {
      ParseIntOf(s, w1, sign, ds, w2);
    }
  }
}
