/** The converter of pkg/markdown/parse.go: a single pass over the scanner's
    items that builds the Slack text.  The parser's one token of pushback is
    modelled by passing the unconsumed suffix of the item stream along; a
    receive after the last item yields `Zero`, as a receive on the closed
    channel does. */
module Converter {
  import opened Tokens
  import opened Strings
  import Scanner

  /** The two characters `\` `n` that stand for a line break in the output. */
  const NewlineEscape := "\\n"

  /** The two characters `\` `t` that stand for a tab in the output. */
  const TabEscape := "\\t"

  /** U+2022 BULLET encoded in UTF-8 (bytes E2 80 A2, one char per byte),
      followed by a space. */
  const BulletPrefix := "\U{E2}\U{80}\U{A2} "

  /** The panic raised by `errorf("unexpected %s", n)`, carrying the item. */
  datatype ParseError = Unexpected(item: Item)

  datatype Result<T> = Ok(value: T) | Err(error: ParseError)

  /** What `next` returns: the first unconsumed item. */
  function Next(ts: seq<Item>): (it: Item)
    ensures |ts| == 0 ==> it == Zero
    ensures |ts| > 0 ==> it == ts[0]
  {
    if |ts| == 0 then Zero else ts[0]
  }

  /** The stream after one `next`. */
  function Drop(ts: seq<Item>): (rest: seq<Item>)
    ensures |ts| > 0 ==> rest == ts[1..]
    ensures |ts| == 0 ==> rest == []
  {
    if |ts| == 0 then [] else ts[1..]
  }

  /** `p.text += pre` in front of whatever the rest of the walk produces; an
      error discards the text. */
  function Prepend(pre: string, r: Result<string>): (q: Result<string>)
    ensures q.Ok? <==> r.Ok?
    ensures q.Err? ==> q == r
    ensures q.Ok? ==> q.value == pre + r.value
  {
    match r
    case Ok(v) => Ok(pre + v)
    case Err(_) => r
  }

  predicate IsSuffix(rest: seq<Item>, ts: seq<Item>) {
    |rest| <= |ts| && ts[|ts| - |rest|..] == rest
  }

  lemma SuffixTrans(a: seq<Item>, b: seq<Item>, c: seq<Item>)
    requires IsSuffix(a, b) && IsSuffix(b, c)
    ensures IsSuffix(a, c)
  {
    assert c[|c| - |a|..] == c[|c| - |b|..][|b| - |a|..];
  }

  lemma DropSuffix(ts: seq<Item>)
    ensures IsSuffix(Drop(ts), ts)
    ensures |ts| > 0 ==> |Drop(ts)| < |ts|
  {
  }

  /** The item `i` receives ahead (`Zero` past the end). */
  function At(ts: seq<Item>, i: nat): (it: Item)
    ensures i < |ts| ==> it == ts[i]
    ensures i >= |ts| ==> it == Zero
  {
    if i < |ts| then ts[i] else Zero
  }

  /** The stream after `i` receives. */
  function Skip(ts: seq<Item>, i: nat): (rest: seq<Item>)
    ensures IsSuffix(rest, ts)
    ensures 0 < i && 0 < |ts| ==> |rest| < |ts|
    ensures i <= |ts| ==> rest == ts[i..]
  {
    if i < |ts| then ts[i..] else []
  }

  /** Text produced by `parseLink` and the unconsumed items after it. */
  datatype Piece = Piece(out: string, rest: seq<Item>)

  /** `parseLink`: consumes the `[` and then as much of `text ] ( url )` as
      is there, degrading to the literal prefix when the link is cut short.
      The closing `]` (item 2) and `)` (item 5) are consumed without being
      looked at. */
  function ParseLink(ts: seq<Item>): (p: Piece)
    ensures IsSuffix(p.rest, ts)
    ensures |ts| > 0 ==> |p.rest| < |ts|
  {
    if At(ts, 1).kind != LinkText then Piece("[", Skip(ts, 1))
    else
      var text := At(ts, 1).val;
      if At(ts, 3).kind != LinkURLStart then Piece("[" + text + "]", Skip(ts, 3))
      else if At(ts, 4).kind != LinkURL then Piece("[" + text + "](", Skip(ts, 4))
      else Piece("<" + At(ts, 4).val + "|" + text + ">", Skip(ts, 6))
  }

  /** Outcome of `parseHeader`: its text and the unconsumed items, or the error. */
  datatype HeaderResult = HeaderDone(out: string, rest: seq<Item>) | HeaderFailed(error: ParseError)

  function PrependHeader(pre: string, h: HeaderResult): (q: HeaderResult)
    ensures q.HeaderDone? <==> h.HeaderDone?
    ensures q.HeaderFailed? ==> q == h
    ensures q.HeaderDone? ==> q.out == pre + h.out && q.rest == h.rest
    ensures h.HeaderDone? && Closed(h.out) ==> Closed(q.out)
  {
    match h
    case HeaderDone(out, rest) =>
      assert Closed(out) ==> Closed(pre + out) by {
        if Closed(out) { ClosedPrepend(pre, out); }
      }
      HeaderDone(pre + out, rest)
    case HeaderFailed(_) => h
  }

  /** Kinds the top-level loop of `parse` handles. */
  predicate TopLevelKind(k: Kind) {
    k in {EOF, EOL, Esc, Text, Header, LinkTextStart, Star, Underscore, Bullet, CodeStart, CodeFinish, CodeLang, Code}
  }

  /** Kinds the loop of `parseHeader` handles, all of which the top-level
      loop handles too. */
  predicate HeaderKind(k: Kind) {
    k in {EOF, EOL, Esc, Text, Star, Underscore, LinkTextStart}
  }

  predicate EndsWith(s: string, suffix: string) {
    |suffix| <= |s| && s[|s| - |suffix|..] == suffix
  }

  /** A header's text ends with its closing `*`, possibly followed by the
      newline escape. */
  predicate Closed(out: string) {
    EndsWith(out, "*") || EndsWith(out, "*" + NewlineEscape)
  }

  lemma ClosedPrepend(pre: string, out: string)
    requires Closed(out)
    ensures Closed(pre + out)
  {
    var s := pre + out;
    assert s[|s| - 1..] == out[|out| - 1..];
    if |out| >= 3 {
      assert s[|s| - 3..] == out[|out| - 3..];
    }
  }

  /** The loop of `parseHeader` after the opening `*`: text and links are
      kept, a doubled marker vanishes, a single one becomes `_`, an escape is
      dropped (its `peek` consumes nothing), and the header closes with `*`
      at the line end (followed by the newline escape, the end of line being
      consumed) or before the end of input (which is pushed back). */
  function HeaderBody(ts: seq<Item>): (h: HeaderResult)
    ensures h.HeaderDone? ==> IsSuffix(h.rest, ts) && Closed(h.out)
    ensures h.HeaderFailed? ==> !HeaderKind(h.error.item.kind)
    ensures h.HeaderFailed? ==> h.error.item == Zero || h.error.item in ts
    decreases |ts|
  {
    var n := Next(ts);
    var t := Drop(ts);
    DropSuffix(ts);
    match n.kind
    case EOF => HeaderDone("*", ts)
    case EOL => HeaderDone("*" + NewlineEscape, t)
    case Esc => Suffixed(HeaderBody(t), t, ts)
    case Text => Suffixed(PrependHeader(n.val, HeaderBody(t)), t, ts)
    case Star =>
      if Next(t).kind == Star then
        DropSuffix(t);
        SuffixTrans(Drop(t), t, ts);
        Suffixed(HeaderBody(Drop(t)), Drop(t), ts)
      else Suffixed(PrependHeader("_", HeaderBody(t)), t, ts)
    case Underscore =>
      if Next(t).kind == Underscore then
        DropSuffix(t);
        SuffixTrans(Drop(t), t, ts);
        Suffixed(HeaderBody(Drop(t)), Drop(t), ts)
      else Suffixed(PrependHeader("_", HeaderBody(t)), t, ts)
    case LinkTextStart =>
      var p := ParseLink(ts);
      Suffixed(PrependHeader(p.out, HeaderBody(p.rest)), p.rest, ts)
    case _ => HeaderFailed(Unexpected(n))
  }

  /** Carries "the rest is a suffix" from an inner stream to an outer one. */
  function Suffixed(h: HeaderResult, inner: seq<Item>, outer: seq<Item>): (q: HeaderResult)
    requires IsSuffix(inner, outer)
    requires h.HeaderDone? ==> IsSuffix(h.rest, inner) && Closed(h.out)
    ensures q == h
    ensures q.HeaderDone? ==> IsSuffix(q.rest, outer)
  {
    if h.HeaderDone? then SuffixTrans(h.rest, inner, outer); h else h
  }

  /** `parseHeader`, entered after the header marker has been consumed. */
  function ParseHeader(ts: seq<Item>): (h: HeaderResult)
    ensures h.HeaderDone? ==> IsSuffix(h.rest, ts) && Closed(h.out)
    ensures h.HeaderDone? ==> |h.out| >= 2 && h.out[0] == '*'
    ensures h.HeaderFailed? ==> !HeaderKind(h.error.item.kind)
    ensures h.HeaderFailed? ==> h.error.item == Zero || h.error.item in ts
  {
    PrependHeader("*", HeaderBody(ts))
  }

  /** The body of a code block: line feeds escaped, carriage returns removed. */
  function EscapeCode(v: string): (r: string)
    ensures '\n' !in r && '\r' !in r
  {
    var r := ReplaceChar(ReplaceChar(v, '\n', NewlineEscape), '\r', "");
    assert '\n' !in r by {
      if '\n' in r {
        ReplaceCharFrom(ReplaceChar(v, '\n', NewlineEscape), '\r', "", '\n');
      }
    }
    r
  }

  /** What one character of a code body becomes. */
  function EscapeChar(c: char): string {
    if c == '\n' then NewlineEscape else if c == '\r' then "" else [c]
  }

  /** Escaping a code body works piece by piece. */
  lemma EscapeCodeAppend(a: string, b: string)
    ensures EscapeCode(a + b) == EscapeCode(a) + EscapeCode(b)
  {
    ReplaceCharAppend(a, b, '\n', NewlineEscape);
    ReplaceCharAppend(ReplaceChar(a, '\n', NewlineEscape), ReplaceChar(b, '\n', NewlineEscape), '\r', "");
  }

  /** A line feed becomes the newline escape, a carriage return vanishes,
      and every other character is kept. */
  lemma EscapeCodeChar(c: char)
    ensures EscapeCode([c]) == EscapeChar(c)
  {
    assert [c][1..] == "";
    if c == '\n' {
      assert NewlineEscape[1..][1..] == "";
      assert ReplaceChar(NewlineEscape, '\r', "") == NewlineEscape;
    }
  }

  /** `EscapeCode` is the character-by-character escape. */
  lemma {:induction false} EscapeCodeChars(v: string)
    ensures |v| > 0 ==> EscapeCode(v) == EscapeChar(v[0]) + EscapeCode(v[1..])
    ensures |v| == 0 ==> EscapeCode(v) == ""
  {
    if |v| > 0 {
      assert v == [v[0]] + v[1..];
      EscapeCodeAppend([v[0]], v[1..]);
      EscapeCodeChar(v[0]);
    }
  }

  /** The loop of `parse`, up to the end of input or the first escape item. */
  function ParseItems(ts: seq<Item>): (r: Result<string>)
    ensures r.Err? ==> !HeaderKind(r.error.item.kind)
    ensures r.Err? ==> r.error.item == Zero || r.error.item in ts
    decreases |ts|
  {
    var n := Next(ts);
    var t := Drop(ts);
    match n.kind
    case EOF => Ok("")
    case EOL => Prepend(NewlineEscape, ParseItems(t))
    case Esc => Ok(n.val)
    case Text => Prepend(n.val, ParseItems(t))
    case Header =>
      (match ParseHeader(t)
       case HeaderDone(out, rest) => Prepend(out, ParseItems(rest))
       case HeaderFailed(e) => Err(e))
    case LinkTextStart =>
      var p := ParseLink(ts);
      Prepend(p.out, ParseItems(p.rest))
    case Star =>
      if Next(t).kind == Star then Prepend("*", ParseItems(Drop(t)))
      else Prepend("_", ParseItems(t))
    case Underscore =>
      if Next(t).kind == Underscore then Prepend("*", ParseItems(Drop(t)))
      else Prepend("_", ParseItems(t))
    case Bullet => Prepend(BulletPrefix, ParseItems(t))
    case CodeStart => Prepend(n.val, ParseItems(t))
    case CodeFinish => Prepend(n.val, ParseItems(t))
    case CodeLang => ParseItems(t)
    case Code => Prepend(EscapeCode(n.val), ParseItems(t))
    case _ => Err(Unexpected(n))
  }

  /** `Parse`: convert the scanner's items, then escape every tab. */
  function Parse(text: string): (r: Result<string>)
    ensures r.Ok? ==> '\t' !in r.value
    ensures r.Err? ==> !HeaderKind(r.error.item.kind)
    ensures r.Err? ==> r.error.item == Zero || r.error.item in Scanner.Lex(text)
  {
    match ParseItems(Scanner.Lex(text))
    case Ok(v) => Ok(ReplaceChar(v, '\t', TabEscape))
    case Err(e) => Err(e)
  }
}
