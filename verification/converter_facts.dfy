/** Properties of the converter, over item streams and end to end over the
    scanner's output. */
module ConverterFacts {
  import opened Tokens
  import opened Strings
  import opened Scanner
  import opened Streams
  import opened ScannerFacts
  import opened Converter

  // ---------------------------------------------------------------------
  // Plain text: an independent, character-level reference conversion
  // ---------------------------------------------------------------------

  /** The reference conversion of text that holds no link, header, fence,
      block quote or bullet: a line break (CR LF, LF or a lone CR) becomes
      the newline escape, a doubled `*` or `_` becomes `*`, a single one
      becomes `_`, everything else is kept, and a backslash ends the
      conversion with a backslash. */
  function Ref(x: string): string
    decreases |x|
  {
    if |x| == 0 then ""
    else if x[0] == '\\' then "\\"
    else if x[0] == '\r' && |x| > 1 && x[1] == '\n' then NewlineEscape + Ref(x[2..])
    else if x[0] == '\r' || x[0] == '\n' then NewlineEscape + Ref(x[1..])
    else if (x[0] == '*' || x[0] == '_') && |x| > 1 && x[1] == x[0] then "*" + Ref(x[2..])
    else if x[0] == '*' || x[0] == '_' then "_" + Ref(x[1..])
    else [x[0]] + Ref(x[1..])
  }

  predicate LineStartAt(s: string, i: nat) {
    i == 0 || (0 < i <= |s| && IsLineEnd(s[i - 1]))
  }

  /** The line-start constructs: header, code fence, block quote, bullet. */
  predicate SpecialLineStart(s: string, i: nat) {
    HasPrefixAt(s, i, "#") || HasPrefixAt(s, i, CodeFence)
    || HasPrefixAt(s, i, ">") || HasPrefixAt(s, i, BulletMarker)
  }

  /** From `q` up to the first backslash (or the end) there is no `[` and no
      line opens with a line-start construct. */
  predicate Plain(s: string, q: nat) {
    && q <= |s|
    && (forall i | q <= i < Find(s, q, '\\') :: s[i] != '[')
    && (forall i | q <= i <= Find(s, q, '\\') && LineStartAt(s, i) :: !SpecialLineStart(s, i))
  }

  /** Characters without a stop character are copied by the reference. */
  lemma {:induction false} RefVerbatim(x: string, y: string)
    requires forall k | 0 <= k < |x| :: !IsTextStop(x[k])
    ensures Ref(x + y) == x + Ref(y)
    decreases |x|
  {
    if |x| == 0 {
      assert x + y == y;
    } else {
      assert (x + y)[0] == x[0];
      assert (x + y)[1..] == x[1..] + y;
      RefVerbatim(x[1..], y);
    }
  }

  lemma Cons(it: Item, r: seq<Item>)
    ensures Next([it] + r) == it && Drop([it] + r) == r
  {
    assert ([it] + r)[1..] == r;
  }

  /** One step of the top-level loop over a text, end-of-line or end item. */
  lemma ParseStep(it: Item, r: seq<Item>)
    ensures it.kind == Text ==> ParseItems([it] + r) == Prepend(it.val, ParseItems(r))
    ensures it.kind == EOL ==> ParseItems([it] + r) == Prepend(NewlineEscape, ParseItems(r))
    ensures it.kind == EOF ==> ParseItems([it] + r) == Ok("")
    ensures it.kind == Esc ==> ParseItems([it] + r) == Ok(it.val)
  {
    Cons(it, r);
  }

  /** One step over an emphasis marker: doubled, `*`; single, `_`. */
  lemma ParseMarker(it: Item, r: seq<Item>)
    requires it.kind == Star || it.kind == Underscore
    ensures Next(r).kind == it.kind ==> ParseItems([it] + r) == Prepend("*", ParseItems(Drop(r)))
    ensures Next(r).kind != it.kind ==> ParseItems([it] + r) == Prepend("_", ParseItems(r))
  {
    Cons(it, r);
    if Next(r).kind == it.kind {
      assert ParseItems([it] + r) == Prepend("*", ParseItems(Drop(r)));
    } else {
      assert ParseItems([it] + r) == Prepend("_", ParseItems(r));
    }
  }

  /** `Parse` is the item walk followed by the tab escape. */
  lemma ParseOf(s: string, v: string)
    requires ParseItems(Lex(s)) == Ok(v)
    ensures Parse(s) == Ok(ReplaceChar(v, '\t', TabEscape))
  {
  }

  /** Scanning text from `pos` (with `s[start..pos]` pending) and converting
      the items gives the reference conversion of `s[start..]`. */
  lemma {:induction false} TextRef(s: string, q: nat, start: nat, pos: nat)
    requires start <= pos <= |s| && forall k | start <= k < pos :: !IsTextStop(s[k])
    requires Plain(s, q) && q <= start && pos <= Find(s, q, '\\')
    ensures ParseItems(RunText(s, start, pos)) == Ok(Ref(s[start..]))
    decreases |s| - pos, 2
  {
    var j := TextStop(s, pos);
    TextStopSpan(s, pos);
    RefUpToStop(s, start, j);
    var tail := if j == |s| then [Emit(s, EOF, j, j)] else RunStop(s, j);
    if j == |s| {
      ParseStep(Emit(s, EOF, j, j), []);
    } else {
      StopRef(s, q, j);
    }
    if start < j {
      assert RunText(s, start, pos) == [Emit(s, Text, start, j)] + tail;
      ParseStep(Emit(s, Text, start, j), tail);
    } else {
      assert RunText(s, start, pos) == tail;
    }
  }

  /** Text scanned from a plain position converts as the reference says. */
  lemma TextFrom(s: string, p: nat)
    requires Plain(s, p)
    ensures ParseItems(RunText(s, p, p)) == Ok(Ref(s[p..]))
  {
    TextRef(s, p, p, p);
  }

  /** When the items up to `p` contribute `pre` and plain text follows from
      `p`, the whole converts to `pre` and the reference of the rest. */
  lemma ThenText(s: string, pre: string, p: nat)
    requires Plain(s, p)
    requires ParseItems(Lex(s)) == Prepend(pre, ParseItems(RunText(s, p, p)))
    ensures Parse(s) == Ok(ReplaceChar(pre + Ref(s[p..]), '\t', TabEscape))
  {
    TextFrom(s, p);
    ParseOf(s, pre + Ref(s[p..]));
  }

  /** The reference copies a run without stop characters. */
  lemma RefUpToStop(s: string, start: nat, j: nat)
    requires start <= j <= |s| && forall k | start <= k < j :: !IsTextStop(s[k])
    ensures Ref(s[start..]) == s[start..j] + Ref(s[j..])
  {
    RefVerbatim(s[start..j], s[j..]);
    assert s[start..] == s[start..j] + s[j..];
  }

  /** The item stream from a stop character converts as the reference says. */
  lemma {:induction false} StopRef(s: string, q: nat, j: nat)
    requires Plain(s, q) && q <= j <= Find(s, q, '\\') && j < |s| && IsTextStop(s[j])
    ensures ParseItems(RunStop(s, j)) == Ok(Ref(s[j..]))
    decreases |s| - j, 1
  {
    if s[j] == '\\' {
      assert RunStop(s, j) == Marker(s, j, Esc, 1);
      assert s[j..j + 1] == "\\";
      ParseStep(Emit(s, Esc, j, j + 1), RunText(s, j + 1, j + 1));
    } else if s[j] == '*' {
      assert RunStop(s, j) == Marker(s, j, Star, 1);
      MarkerRef(s, q, j, Star);
    } else if s[j] == '_' {
      assert RunStop(s, j) == Marker(s, j, Underscore, 1);
      MarkerRef(s, q, j, Underscore);
    } else {
      EOLRef(s, q, j);
    }
  }

  /** The scanner's step over a one-character marker. */
  lemma StarStep(s: string, p: nat, k: Kind)
    requires p < |s|
    ensures Marker(s, p, k, 1) == [Item(k, p, [s[p]])] + RunText(s, p + 1, p + 1)
  {
    assert s[p..p + 1] == [s[p]];
  }

  /** Where the text after a `*` or `_` at `p` resumes: after the second
      marker of a doubled pair, else right after it. */
  function AfterMarker(s: string, p: nat): (n: nat)
    requires p < |s|
    ensures p < n <= |s|
  {
    if p + 1 < |s| && s[p + 1] == s[p] then p + 2 else p + 1
  }

  /** A `*` or `_`: doubled, it becomes `*`; single, `_`. */
  lemma {:induction false} MarkerRef(s: string, q: nat, p: nat, k: Kind)
    requires Plain(s, q) && q <= p < Find(s, q, '\\')
    requires (k == Star && s[p] == '*') || (k == Underscore && s[p] == '_')
    ensures ParseItems(Marker(s, p, k, 1)) == Ok(Ref(s[p..]))
    decreases |s| - p, 0
  {
    var n := AfterMarker(s, p);
    MarkerBound(s, q, p);
    MarkerWalk(s, p, k);
    MarkerRefStep(s, p);
    TextRef(s, q, n, n);
  }

  lemma MarkerBound(s: string, q: nat, p: nat)
    requires q <= p < |s| && p < Find(s, q, '\\') && (s[p] == '*' || s[p] == '_')
    ensures AfterMarker(s, p) <= Find(s, q, '\\')
  {
    FindSpan(s, q, '\\');
  }

  /** The reference on a `*` or `_`. */
  lemma MarkerRefStep(s: string, p: nat)
    requires p < |s| && (s[p] == '*' || s[p] == '_')
    ensures var n := AfterMarker(s, p);
      Ref(s[p..]) == (if n == p + 2 then "*" else "_") + Ref(s[n..])
  {
    RefMarker(s[p..]);
    if AfterMarker(s, p) == p + 2 {
      assert s[p..][2..] == s[p + 2..];
    } else {
      assert s[p..][1..] == s[p + 1..];
    }
  }

  /** The item walk over a `*` or `_` marker and a possible second one. */
  lemma MarkerWalk(s: string, p: nat, k: Kind)
    requires p < |s|
    requires (k == Star && s[p] == '*') || (k == Underscore && s[p] == '_')
    ensures var n := AfterMarker(s, p);
      ParseItems(Marker(s, p, k, 1)) == Prepend(if n == p + 2 then "*" else "_", ParseItems(RunText(s, n, n)))
  {
    StarStep(s, p, k);
    var r := RunText(s, p + 1, p + 1);
    ParseMarker(Item(k, p, [s[p]]), r);
    if AfterMarker(s, p) == p + 2 {
      DoubleMarker(s, p + 1, k);
    } else {
      TextFirstMarker(s, p + 1);
      if p + 1 < |s| {
        assert s[p + 1..p + 2] == [s[p + 1]];
      }
    }
  }

  /** A marker right after a marker of the same kind is the next item. */
  lemma DoubleMarker(s: string, p: nat, k: Kind)
    requires p < |s|
    requires (k == Star && s[p] == '*') || (k == Underscore && s[p] == '_')
    ensures Next(RunText(s, p, p)).kind == k
    ensures Drop(RunText(s, p, p)) == RunText(s, p + 1, p + 1)
  {
    assert s[p..p + 1] == [s[p]];
    assert RunText(s, p, p) == RunStop(s, p) == Marker(s, p, k, 1);
    StarStep(s, p, k);
  }

  lemma RefMarker(x: string)
    requires |x| > 0 && (x[0] == '*' || x[0] == '_')
    ensures |x| > 1 && x[1] == x[0] ==> Ref(x) == "*" + Ref(x[2..])
    ensures !(|x| > 1 && x[1] == x[0]) ==> Ref(x) == "_" + Ref(x[1..])
  {
  }

  /** A line end becomes the newline escape, and the next line is plain. */
  lemma {:induction false} EOLRef(s: string, q: nat, p: nat)
    requires Plain(s, q) && q <= p < |s| && p <= Find(s, q, '\\') && IsLineEnd(s[p])
    ensures ParseItems(RunStop(s, p)) == Ok(Ref(s[p..]))
    decreases |s| - p, 0
  {
    var a := AfterLineEnd(s, p);
    EOLBound(s, q, p);
    assert !SpecialLineStart(s, a);
    EOLWalk(s, p);
    EOLRefStep(s, p);
    TextRef(s, q, a, a);
  }

  lemma EOLBound(s: string, q: nat, p: nat)
    requires q <= p < |s| && p <= Find(s, q, '\\') && IsLineEnd(s[p])
    ensures AfterLineEnd(s, p) <= Find(s, q, '\\') && LineStartAt(s, AfterLineEnd(s, p))
  {
    FindSpan(s, q, '\\');
    if AfterLineEnd(s, p) == p + 2 {
      assert s[p + 1..p + 2][0] == s[p + 1];
    }
  }

  /** The reference on a line end. */
  lemma EOLRefStep(s: string, p: nat)
    requires p < |s| && IsLineEnd(s[p])
    ensures Ref(s[p..]) == NewlineEscape + Ref(s[AfterLineEnd(s, p)..])
  {
    var a := AfterLineEnd(s, p);
    if a == p + 2 {
      assert s[p + 1..p + 2][0] == s[p + 1];
    }
    assert s[p..][a - p..] == s[a..];
  }

  /** The item walk over a line end followed by a plain line. */
  lemma EOLWalk(s: string, p: nat)
    requires p < |s| && IsLineEnd(s[p]) && !SpecialLineStart(s, AfterLineEnd(s, p))
    ensures var a := AfterLineEnd(s, p);
      ParseItems(RunStop(s, p)) == Prepend(NewlineEscape, ParseItems(RunText(s, a, a)))
  {
    var a := AfterLineEnd(s, p);
    assert RunStop(s, p) == RunEOL(s, p);
    ParseStep(Emit(s, EOL, p, a), RunLine(s, a));
    PlainLine(s, a);
  }

  /** Plain text converts as the reference says; the output then has every
      tab escaped.  In particular a backslash truncates the output right
      after it, and the conversion still succeeds. */
  lemma PlainConversion(s: string)
    requires Plain(s, 0)
    ensures Parse(s) == Ok(ReplaceChar(Ref(s), '\t', TabEscape))
  {
    assert LineStartAt(s, 0);
    assert !SpecialLineStart(s, 0);
    PlainLine(s, 0);
    TextFrom(s, 0);
    assert s[0..] == s;
  }

  // ---------------------------------------------------------------------
  // Links
  // ---------------------------------------------------------------------

  /** The items of a complete link at the start of the input: `]` at `j`,
      `(` right after it, `)` at `k`. */
  lemma LinkHead(s: string)
    requires |s| > 0 && s[0] == '['
    ensures Lex(s) == [Emit(s, LinkTextStart, 0, 1)] + RunLinkText(s, 1)
  {
    OrdinaryLine(s, 0);
    LinkStartStep(s, 0);
  }

  lemma LinkStream(s: string, j: nat, k: nat)
    requires |s| > 0 && s[0] == '[' && j < |s| && Find(s, 1, ']') == j
    requires j + 1 < |s| && s[j + 1] == '(' && k < |s| && Find(s, j + 2, ')') == k
    ensures Lex(s) ==
      [Emit(s, LinkTextStart, 0, 1)] + ([Item(LinkText, 1, s[1..j])] + ([Item(LinkTextFinish, j, s[j..j + 1])] +
      ([Item(LinkURLStart, j + 1, s[j + 1..j + 2])] + ([Item(LinkURL, j + 2, s[j + 2..k])] +
      ([Item(LinkURLFinish, k, s[k..k + 1])] + RunText(s, k + 1, k + 1))))))
  {
    LinkHead(s);
    LinkTextStep(s, 1);
    assert s[j + 1..j + 2] == "(";
    LinkURLStep(s, j + 1);
  }

  /** The converter turns a complete link's items into `<u|t>`. */
  lemma ParseFullLink(a: Item, b: Item, c: Item, d: Item, e: Item, f: Item, tail: seq<Item>)
    requires a.kind == LinkTextStart && b.kind == LinkText && d.kind == LinkURLStart && e.kind == LinkURL
    ensures ParseItems([a] + ([b] + ([c] + ([d] + ([e] + ([f] + tail)))))) ==
      Prepend("<" + e.val + "|" + b.val + ">", ParseItems(tail))
  {
    var items := [a] + ([b] + ([c] + ([d] + ([e] + ([f] + tail)))));
    assert items[1] == b && items[3] == d && items[4] == e;
    assert items[6..] == tail;
  }

  /** The item walk over a complete link at the start of the input. */
  lemma LinkWalk(s: string, j: nat, k: nat)
    requires |s| > 0 && s[0] == '[' && j < |s| && Find(s, 1, ']') == j
    requires j + 1 < |s| && s[j + 1] == '(' && k < |s| && Find(s, j + 2, ')') == k
    ensures ParseItems(Lex(s)) == Prepend("<" + s[j + 2..k] + "|" + s[1..j] + ">", ParseItems(RunText(s, k + 1, k + 1)))
  {
    LinkStream(s, j, k);
    ParseFullLink(
      Emit(s, LinkTextStart, 0, 1), Item(LinkText, 1, s[1..j]), Item(LinkTextFinish, j, s[j..j + 1]),
      Item(LinkURLStart, j + 1, s[j + 1..j + 2]), Item(LinkURL, j + 2, s[j + 2..k]), Item(LinkURLFinish, k, s[k..k + 1]),
      RunText(s, k + 1, k + 1));
  }

  /** A complete link at the start becomes `<url|text>` and the text after
      it converts on its own; then the tab escape applies to the whole. */
  lemma LinkConversion(s: string, j: nat, k: nat)
    requires |s| > 0 && s[0] == '[' && j < |s| && Find(s, 1, ']') == j
    requires j + 1 < |s| && s[j + 1] == '(' && k < |s| && Find(s, j + 2, ')') == k
    requires Plain(s, k + 1)
    ensures Parse(s) == Ok(ReplaceChar("<" + s[j + 2..k] + "|" + s[1..j] + ">" + Ref(s[k + 1..]), '\t', TabEscape))
  {
    LinkThen(s, j, k, "<" + s[j + 2..k] + "|" + s[1..j] + ">");
  }

  lemma LinkThen(s: string, j: nat, k: nat, pre: string)
    requires |s| > 0 && s[0] == '[' && j < |s| && Find(s, 1, ']') == j
    requires j + 1 < |s| && s[j + 1] == '(' && k < |s| && Find(s, j + 2, ')') == k
    requires Plain(s, k + 1)
    requires pre == "<" + s[j + 2..k] + "|" + s[1..j] + ">"
    ensures Parse(s) == Ok(ReplaceChar(pre + Ref(s[k + 1..]), '\t', TabEscape))
  {
    LinkWalk(s, j, k);
    ThenText(s, pre, k + 1);
  }

  /** Where the delimiters of `[t](u)` sit. */
  lemma LinkShape(s: string, t: string, u: string, rest: string)
    requires s == "[" + t + "](" + u + ")" + rest
    requires ']' !in t && ')' !in u
    ensures var j := |t| + 1; var k := j + |u| + 2;
      && s[0] == '[' && j < |s| && Find(s, 1, ']') == j
      && j + 1 < |s| && s[j + 1] == '(' && k < |s| && Find(s, j + 2, ')') == k
      && s[1..j] == t && s[j + 2..k] == u && s[k + 1..] == rest
  {
    var j := |t| + 1;
    var k := j + |u| + 2;
    assert s[0] == '[' && s[j + 1] == '(';
    LinkFind(s, 1, t, ']');
    LinkFind(s, j + 2, u, ')');
  }

  /** `Find` stops right after a run without the sought character. */
  lemma LinkFind(s: string, i: nat, t: string, c: char)
    requires i + |t| < |s| && s[i..i + |t|] == t && c !in t && s[i + |t|] == c
    ensures Find(s, i, c) == i + |t|
  {
    assert forall k | i <= k < i + |t| :: s[k] == t[k - i];
    FindSpan(s, i, c);
  }
}
