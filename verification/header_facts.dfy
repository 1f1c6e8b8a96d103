/** Headers end to end: a header line converts to its text between `*`s,
    with emphasis inside it flattened, as pkg/markdown/parse.go's
    `parseHeader` does over the items pkg/markdown/lex.go's `lexHeader`
    and `lexText` produce. */
module HeaderFacts {
  import opened Tokens
  import opened Strings
  import opened Scanner
  import opened ScannerFacts
  import opened Converter
  import opened ConverterFacts

  /** The reference conversion of a header's text (a line without `[`):
      a backslash is dropped and the character after it is read as usual,
      a doubled `*` or `_` vanishes, a single one becomes `_`, everything
      else is kept. */
  function HRef(x: string): string
    decreases |x|
  {
    if |x| == 0 then ""
    else if x[0] == '\\' then HRef(x[1..])
    else if (x[0] == '*' || x[0] == '_') && |x| > 1 && x[1] == x[0] then HRef(x[2..])
    else if x[0] == '*' || x[0] == '_' then "_" + HRef(x[1..])
    else [x[0]] + HRef(x[1..])
  }

  /** What closes a header whose line ends at `e`: the `*`, and the newline
      escape when a line terminator is there. */
  function Close(s: string, e: nat): string
    requires e <= |s|
  {
    if e == |s| then "*" else "*" + NewlineEscape
  }

  /** The items left once the header at `e` is closed: the end item, which
      is pushed back, or the next line. */
  function After(s: string, e: nat): seq<Item>
    requires e <= |s| && (e < |s| ==> IsLineEnd(s[e]))
  {
    if e == |s| then [Emit(s, EOF, e, e)] else RunLine(s, AfterLineEnd(s, e))
  }

  /** Between `p` and the line end `e` there is no `[`. */
  predicate NoLink(s: string, p: nat, e: nat)
    requires p <= e <= |s|
  {
    forall i | p <= i < e :: s[i] != '['
  }

  // ---------------------------------------------------------------------
  // One step of the header loop
  // ---------------------------------------------------------------------

  lemma HeaderStep(it: Item, r: seq<Item>)
    ensures it.kind == Text ==> HeaderBody([it] + r) == PrependHeader(it.val, HeaderBody(r))
    ensures it.kind == EOL ==> HeaderBody([it] + r) == HeaderDone("*" + NewlineEscape, r)
    ensures it.kind == EOF ==> HeaderBody([it] + r) == HeaderDone("*", [it] + r)
    ensures it.kind == Esc ==> HeaderBody([it] + r) == HeaderBody(r)
  {
    Cons(it, r);
  }

  lemma HeaderMarkerStep(it: Item, r: seq<Item>)
    requires it.kind == Star || it.kind == Underscore
    ensures Next(r).kind == it.kind ==> HeaderBody([it] + r) == HeaderBody(Drop(r))
    ensures Next(r).kind != it.kind ==> HeaderBody([it] + r) == PrependHeader("_", HeaderBody(r))
  {
    Cons(it, r);
    var h := HeaderBody([it] + r);
    if it.kind == Star {
      if Next(r).kind == Star {
        assert h == HeaderBody(Drop(r));
      } else {
        assert h == PrependHeader("_", HeaderBody(r));
      }
    } else if Next(r).kind == Underscore {
      assert h == HeaderBody(Drop(r));
    } else {
      assert h == PrependHeader("_", HeaderBody(r));
    }
  }

  // ---------------------------------------------------------------------
  // The reference on one step
  // ---------------------------------------------------------------------

  /** The reference copies a run without stop characters. */
  lemma {:induction false} HRefVerbatim(x: string, y: string)
    requires forall k | 0 <= k < |x| :: !IsTextStop(x[k])
    ensures HRef(x + y) == x + HRef(y)
    decreases |x|
  {
    if |x| == 0 {
      assert x + y == y;
    } else {
      var z := x + y;
      assert z[0] == x[0] && !IsTextStop(x[0]);
      assert z[1..] == x[1..] + y;
      assert HRef(z) == [x[0]] + HRef(z[1..]);
      HRefVerbatim(x[1..], y);
      assert x == [x[0]] + x[1..];
    }
  }

  lemma HRefUpToStop(s: string, start: nat, j: nat, e: nat)
    requires start <= j <= e <= |s| && forall k | start <= k < j :: !IsTextStop(s[k])
    ensures HRef(s[start..e]) == s[start..j] + HRef(s[j..e])
  {
    HRefVerbatim(s[start..j], s[j..e]);
    assert s[start..e] == s[start..j] + s[j..e];
  }

  /** The reference on a backslash or a marker at `p`, before the line end. */
  lemma HRefStep(s: string, p: nat, e: nat)
    requires p < e <= |s| && (s[p] == '\\' || s[p] == '*' || s[p] == '_')
    ensures s[p] == '\\' ==> HRef(s[p..e]) == HRef(s[p + 1..e])
    ensures s[p] != '\\' && p + 1 < e && s[p + 1] == s[p] ==> HRef(s[p..e]) == HRef(s[p + 2..e])
    ensures s[p] != '\\' && !(p + 1 < e && s[p + 1] == s[p]) ==> HRef(s[p..e]) == "_" + HRef(s[p + 1..e])
  {
    var x := s[p..e];
    assert x[0] == s[p];
    assert x[1..] == s[p + 1..e];
    if p + 1 < e {
      assert x[1] == s[p + 1];
      assert x[2..] == s[p + 2..e];
    }
  }

  // ---------------------------------------------------------------------
  // The walk over a header line
  // ---------------------------------------------------------------------

  /** Scanning header text from `pos` (with `s[start..pos]` pending) and
      walking the items with the header loop gives the reference of the rest
      of the line, then the closing. */
  lemma {:induction false} HeaderTextRef(s: string, e: nat, start: nat, pos: nat)
    requires start <= |s| && e == LineEnd(s, start) && start <= pos <= e
    requires forall k | start <= k < pos :: !IsTextStop(s[k])
    requires NoLink(s, start, e)
    ensures HeaderBody(RunText(s, start, pos)) == HeaderDone(HRef(s[start..e]) + Close(s, e), After(s, e))
    decreases |s| - pos, 2
  {
    var j := TextStop(s, pos);
    TextStopSpan(s, pos);
    LineEndSpan(s, start);
    var tail := if j == |s| then [Emit(s, EOF, j, j)] else RunStop(s, j);
    HeaderStopRef(s, e, j, tail);
    HeaderPending(s, e, start, pos, j, tail);
  }

  /** Pending text in front of the items from the stop at `j`. */
  lemma HeaderPending(s: string, e: nat, start: nat, pos: nat, j: nat, tail: seq<Item>)
    requires start <= pos <= j <= e <= |s| && (e < |s| ==> IsLineEnd(s[e]))
    requires j == TextStop(s, pos) && forall k | start <= k < j :: !IsTextStop(s[k])
    requires tail == if j == |s| then [Emit(s, EOF, j, j)] else RunStop(s, j)
    requires HeaderBody(tail) == HeaderDone(HRef(s[j..e]) + Close(s, e), After(s, e))
    ensures HeaderBody(RunText(s, start, pos)) == HeaderDone(HRef(s[start..e]) + Close(s, e), After(s, e))
  {
    HRefUpToStop(s, start, j, e);
    if start < j {
      PendingStream(s, start, pos, j, tail);
      HeaderStep(Emit(s, Text, start, j), tail);
      PendingJoin(s[start..j], HRef(s[j..e]), Close(s, e), After(s, e), HeaderBody(tail));
    } else {
      NoPendingStream(s, start, pos, j, tail);
    }
  }

  lemma NoPendingStream(s: string, start: nat, pos: nat, j: nat, tail: seq<Item>)
    requires start == pos == j <= |s| && j == TextStop(s, pos)
    requires tail == if j == |s| then [Emit(s, EOF, j, j)] else RunStop(s, j)
    ensures RunText(s, start, pos) == tail
  {
  }

  lemma PendingStream(s: string, start: nat, pos: nat, j: nat, tail: seq<Item>)
    requires start <= pos <= j <= |s| && start < j && j == TextStop(s, pos)
    requires tail == if j == |s| then [Emit(s, EOF, j, j)] else RunStop(s, j)
    ensures RunText(s, start, pos) == [Emit(s, Text, start, j)] + tail
  {
  }

  lemma PendingJoin(x: string, y: string, c: string, rest: seq<Item>, h: HeaderResult)
    requires h == HeaderDone(y + c, rest)
    ensures PrependHeader(x, h) == HeaderDone((x + y) + c, rest)
  {
    assert x + (y + c) == (x + y) + c;
  }

  /** From the header loop's stop at `j`: the line end, the end of input, a
      backslash or a marker; `tail` is what the scanner emits there. */
  lemma {:induction false} HeaderStopRef(s: string, e: nat, j: nat, tail: seq<Item>)
    requires j <= e <= |s| && (e < |s| ==> IsLineEnd(s[e]))
    requires forall k | j <= k < e :: !IsLineEnd(s[k]) && s[k] != '['
    requires j < |s| ==> IsTextStop(s[j])
    requires tail == if j == |s| then [Emit(s, EOF, j, j)] else RunStop(s, j)
    ensures HeaderBody(tail) == HeaderDone(HRef(s[j..e]) + Close(s, e), After(s, e))
    decreases |s| - j, 1
  {
    if j == |s| {
      HeaderStep(Emit(s, EOF, j, j), []);
      assert [Emit(s, EOF, j, j)] + [] == [Emit(s, EOF, j, j)];
    } else if j == e {
      HeaderEOL(s, e);
    } else if s[j] == '\\' {
      HeaderEscRef(s, e, j);
    } else {
      HeaderMarkerRef(s, e, j);
    }
  }

  /** The line end closes the header with the newline escape. */
  lemma HeaderEOL(s: string, e: nat)
    requires e < |s| && IsLineEnd(s[e])
    ensures HeaderBody(RunStop(s, e)) == HeaderDone(HRef(s[e..e]) + Close(s, e), After(s, e))
  {
    var a := AfterLineEnd(s, e);
    assert RunStop(s, e) == RunEOL(s, e) == [Emit(s, EOL, e, a)] + RunLine(s, a);
    HeaderStep(Emit(s, EOL, e, a), RunLine(s, a));
    assert HRef(s[e..e]) == "";
  }

  /** A backslash is dropped and the text after it goes on. */
  lemma {:induction false} HeaderEscRef(s: string, e: nat, j: nat)
    requires j < e <= |s| && (e < |s| ==> IsLineEnd(s[e]))
    requires forall k | j <= k < e :: !IsLineEnd(s[k]) && s[k] != '['
    requires s[j] == '\\'
    ensures HeaderBody(RunStop(s, j)) == HeaderDone(HRef(s[j..e]) + Close(s, e), After(s, e))
    decreases |s| - j, 0
  {
    assert RunStop(s, j) == Marker(s, j, Esc, 1);
    StarStep(s, j, Esc);
    HeaderStep(Item(Esc, j, [s[j]]), RunText(s, j + 1, j + 1));
    HRefStep(s, j, e);
    HeaderResume(s, e, j + 1);
    HeaderTextRef(s, e, j + 1, j + 1);
  }

  /** Past a stop inside the line, the line end seen from there is the same. */
  lemma HeaderResume(s: string, e: nat, p: nat)
    requires p <= e <= |s| && (e < |s| ==> IsLineEnd(s[e]))
    requires forall k | p <= k < e :: !IsLineEnd(s[k]) && s[k] != '['
    ensures e == LineEnd(s, p) && NoLink(s, p, e)
    decreases e - p
  {
    if p < e {
      HeaderResume(s, e, p + 1);
    }
  }

  /** A `*` or `_`: doubled, it vanishes; single, it becomes `_`. */
  lemma {:induction false} HeaderMarkerRef(s: string, e: nat, j: nat)
    requires j < e <= |s| && (e < |s| ==> IsLineEnd(s[e]))
    requires forall k | j <= k < e :: !IsLineEnd(s[k]) && s[k] != '['
    requires s[j] == '*' || s[j] == '_'
    ensures HeaderBody(RunStop(s, j)) == HeaderDone(HRef(s[j..e]) + Close(s, e), After(s, e))
    decreases |s| - j, 0
  {
    var k := if s[j] == '*' then Star else Underscore;
    if j + 1 < e && s[j + 1] == s[j] {
      HeaderResume(s, e, j + 2);
      HeaderTextRef(s, e, j + 2, j + 2);
      HeaderDouble(s, e, j, k);
    } else {
      HeaderResume(s, e, j + 1);
      HeaderTextRef(s, e, j + 1, j + 1);
      HeaderSingle(s, e, j, k);
    }
  }

  /** The header loop over a doubled marker skips both. */
  lemma HeaderDouble(s: string, e: nat, j: nat, k: Kind)
    requires j + 1 < e <= |s| && (e < |s| ==> IsLineEnd(s[e])) && s[j + 1] == s[j]
    requires (k == Star && s[j] == '*') || (k == Underscore && s[j] == '_')
    requires HeaderBody(RunText(s, j + 2, j + 2)) == HeaderDone(HRef(s[j + 2..e]) + Close(s, e), After(s, e))
    ensures HeaderBody(RunStop(s, j)) == HeaderDone(HRef(s[j..e]) + Close(s, e), After(s, e))
  {
    DoubleStream(s, j, k);
    HRefStep(s, j, e);
  }

  lemma DoubleStream(s: string, j: nat, k: Kind)
    requires j + 1 < |s| && s[j + 1] == s[j]
    requires (k == Star && s[j] == '*') || (k == Underscore && s[j] == '_')
    ensures HeaderBody(RunStop(s, j)) == HeaderBody(RunText(s, j + 2, j + 2))
  {
    assert RunStop(s, j) == Marker(s, j, k, 1);
    StarStep(s, j, k);
    HeaderMarkerStep(Item(k, j, [s[j]]), RunText(s, j + 1, j + 1));
    DoubleMarker(s, j + 1, k);
  }

  /** The header loop over a single marker writes `_`. */
  lemma HeaderSingle(s: string, e: nat, j: nat, k: Kind)
    requires j < e <= |s| && (e < |s| ==> IsLineEnd(s[e]))
    requires !(j + 1 < e && s[j + 1] == s[j])
    requires (k == Star && s[j] == '*') || (k == Underscore && s[j] == '_')
    requires HeaderBody(RunText(s, j + 1, j + 1)) == HeaderDone(HRef(s[j + 1..e]) + Close(s, e), After(s, e))
    ensures HeaderBody(RunStop(s, j)) == HeaderDone(HRef(s[j..e]) + Close(s, e), After(s, e))
  {
    SingleStream(s, j, k);
    HRefStep(s, j, e);
    SingleJoin(HRef(s[j + 1..e]), Close(s, e), After(s, e), HeaderBody(RunText(s, j + 1, j + 1)));
  }

  lemma SingleJoin(x: string, c: string, rest: seq<Item>, h: HeaderResult)
    requires h == HeaderDone(x + c, rest)
    ensures PrependHeader("_", h) == HeaderDone(("_" + x) + c, rest)
  {
    assert "_" + (x + c) == ("_" + x) + c;
  }

  lemma SingleStream(s: string, j: nat, k: Kind)
    requires j < |s| && !(j + 1 < |s| && s[j + 1] == s[j])
    requires (k == Star && s[j] == '*') || (k == Underscore && s[j] == '_')
    ensures HeaderBody(RunStop(s, j)) == PrependHeader("_", HeaderBody(RunText(s, j + 1, j + 1)))
  {
    assert RunStop(s, j) == Marker(s, j, k, 1);
    StarStep(s, j, k);
    TextFirstMarker(s, j + 1);
    if j + 1 < |s| {
      assert s[j + 1..j + 2] == [s[j + 1]];
    }
    HeaderMarkerStep(Item(k, j, [s[j]]), RunText(s, j + 1, j + 1));
  }

  // ---------------------------------------------------------------------
  // A whole header line
  // ---------------------------------------------------------------------

  /** A header marker at the start: the scanner emits the marker and then
      scans the rest of the line as text. */
  lemma HeaderHead(s: string, h: nat)
    requires HasPrefixAt(s, 0, "#") && HeaderAt(s, 0) && h == HashEnd(s, 0)
    ensures h < |s|
    ensures Lex(s) == [Emit(s, Header, 0, h + 1)] + RunText(s, h + 1, h + 1)
  {
    HeaderAtHashEnd(s, 0);
    assert s[h..h + 1][0] == s[h];
    assert Lex(s) == RunLine(s, 0) == RunHeader(s, 0);
  }

  /** The converter's walk over a header line without links: the header's
      text between `*`s, then whatever the items after it convert to. */
  lemma HeaderItems(s: string, h: nat, e: nat)
    requires HasPrefixAt(s, 0, "#") && HeaderAt(s, 0) && h == HashEnd(s, 0)
    requires h < |s| && e == LineEnd(s, h + 1) && NoLink(s, h + 1, e)
    ensures ParseItems(Lex(s)) == Prepend("*" + (HRef(s[h + 1..e]) + Close(s, e)), ParseItems(After(s, e)))
  {
    HeaderHead(s, h);
    LineEndSpan(s, h + 1);
    HeaderTextRef(s, e, h + 1, h + 1);
    Cons(Emit(s, Header, 0, h + 1), RunText(s, h + 1, h + 1));
  }

  /** A header that is the whole input converts to its text between `*`s. */
  lemma HeaderConversion(s: string, h: nat)
    requires HasPrefixAt(s, 0, "#") && HeaderAt(s, 0) && h == HashEnd(s, 0)
    requires h < |s| && LineEnd(s, h + 1) == |s| && NoLink(s, h + 1, |s|)
    ensures Parse(s) == Ok(ReplaceChar("*" + HRef(s[h + 1..]) + "*", '\t', TabEscape))
  {
    var e := |s|;
    HeaderItems(s, h, e);
    assert ParseItems(After(s, e)) == Ok("") by {
      Cons(Emit(s, EOF, e, e), []);
    }
    assert s[h + 1..e] == s[h + 1..];
    HeaderEnd(HRef(s[h + 1..]), Close(s, e));
    ParseOf(s, "*" + HRef(s[h + 1..]) + "*");
  }

  /** `s` is `h` hashes, a space and the text `x`. */
  predicate LeveledLine(s: string, h: nat, x: string) {
    && 1 <= h <= 6 && h < |s| && s[h] == ' ' && s[h + 1..] == x
    && forall k | 0 <= k < h :: s[k] == '#'
  }

  /** The header level is not carried into the output: a header of any
      level, `# x` or `## x` alike, converts with one `*` on each side of
      its text. */
  lemma HeaderLevelIgnored(s: string, h: nat, t: string, g: nat, x: string)
    requires LeveledLine(s, h, x) && LeveledLine(t, g, x)
    requires forall i | 0 <= i < |x| :: !IsLineEnd(x[i]) && x[i] != '['
    ensures Parse(s) == Parse(t)
    ensures Parse(s) == Ok(ReplaceChar("*" + HRef(x) + "*", '\t', TabEscape))
  {
    LeveledHeader(s, h, x);
    LeveledHeader(t, g, x);
  }

  /** A header line of level `h` with a single line of text `x` without links. */
  lemma LeveledHeader(s: string, h: nat, x: string)
    requires LeveledLine(s, h, x)
    requires forall i | 0 <= i < |x| :: !IsLineEnd(x[i]) && x[i] != '['
    ensures Parse(s) == Ok(ReplaceChar("*" + HRef(x) + "*", '\t', TabEscape))
  {
    assert s[0..1] == "#";
    assert HashesThenSpace(s, 0, h);
    HashEndAt(s, 0, h);
    LineEndAt(s, h + 1);
    HeaderConversion(s, h);
  }

  lemma {:induction false} HashEndAt(s: string, i: nat, h: nat)
    requires i <= h < |s| && s[h] == ' ' && forall k | i <= k < h :: s[k] == '#'
    ensures HashEnd(s, i) == h
    decreases h - i
  {
    if i < h {
      HashEndAt(s, i + 1, h);
    }
  }

  lemma {:induction false} LineEndAt(s: string, i: nat)
    requires i <= |s| && forall k | i <= k < |s| :: !IsLineEnd(s[k])
    ensures LineEnd(s, i) == |s|
    decreases |s| - i
  {
    if i < |s| {
      LineEndAt(s, i + 1);
    }
  }

  lemma HeaderEnd(x: string, c: string)
    requires c == "*"
    ensures Prepend("*" + (x + c), Ok("")) == Ok("*" + x + "*")
  {
    assert "*" + (x + c) + "" == "*" + x + "*";
  }

  /** A header line followed by plain text: the header's text between `*`s,
      the newline escape, then the reference conversion of the text. */
  lemma HeaderThenText(s: string, h: nat, e: nat, a: nat)
    requires HasPrefixAt(s, 0, "#") && HeaderAt(s, 0) && h == HashEnd(s, 0)
    requires h < |s| && e == LineEnd(s, h + 1) && e < |s| && NoLink(s, h + 1, e)
    requires a == AfterLineEnd(s, e) && Plain(s, a)
    ensures Parse(s) == Ok(ReplaceChar("*" + HRef(s[h + 1..e]) + "*" + NewlineEscape + Ref(s[a..]), '\t', TabEscape))
  {
    LineEndSpan(s, h + 1);
    HeaderItems(s, h, e);
    HeaderNextLine(s, e, a);
    HeaderJoin(s, "*" + HRef(s[h + 1..e]) + "*" + NewlineEscape, "*" + (HRef(s[h + 1..e]) + Close(s, e)), a);
  }

  lemma HeaderNextLine(s: string, e: nat, a: nat)
    requires e < |s| && IsLineEnd(s[e]) && a == AfterLineEnd(s, e) && Plain(s, a)
    ensures After(s, e) == RunText(s, a, a)
  {
    FindSpan(s, a, '\\');
    if a == e + 2 {
      assert s[e + 1..e + 2][0] == s[e + 1];
    }
    assert LineStartAt(s, a);
    PlainLine(s, a);
  }

  lemma HeaderJoin(s: string, pre: string, out: string, a: nat)
    requires pre == out && Plain(s, a)
    requires ParseItems(Lex(s)) == Prepend(out, ParseItems(RunText(s, a, a)))
    ensures Parse(s) == Ok(ReplaceChar(pre + Ref(s[a..]), '\t', TabEscape))
  {
    ThenText(s, pre, a);
  }
}
