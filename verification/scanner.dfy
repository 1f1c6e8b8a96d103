/** The markdown scanner of pkg/markdown/lex.go as a total function from
    the input to its finite item stream.  Each state function of the source
    is a function here that returns the items it emits followed by those of
    the state it hands over to; `start` is the first byte not yet emitted and
    `pos` the current read position, exactly as in the source's lexer record. */
module Scanner {
  import opened Tokens

  const CodeFence := "```"
  const BulletMarker := "- "

  const UnclosedCode := "unclosed code block"
  const UnclosedLinkText := "no closing brace for link text"
  const UnclosedLinkURL := "no closing brace for link URL"

  /** `strings.HasPrefix(s[i:], p)`. */
  predicate HasPrefixAt(s: string, i: nat, p: string) {
    i + |p| <= |s| && s[i..i + |p|] == p
  }

  predicate IsLineEnd(c: char) {
    c == '\r' || c == '\n'
  }

  /** Characters at which `lexText` stops and flushes pending text. */
  predicate IsTextStop(c: char) {
    IsLineEnd(c) || c == '[' || c == '*' || c == '_' || c == '\\'
  }

  /** A code body ends at a `\n` immediately followed by a fence. */
  predicate ClosesCode(s: string, k: nat) {
    k < |s| && s[k] == '\n' && HasPrefixAt(s, k + 1, CodeFence)
  }

  /** The `lexText` loop: first stop character at or after `i`, or `|s|`. */
  function TextStop(s: string, i: nat): (j: nat)
    requires i <= |s|
    ensures i <= j <= |s|
    ensures j < |s| ==> IsTextStop(s[j])
    decreases |s| - i
  {
    if i == |s| || IsTextStop(s[i]) then i else TextStop(s, i + 1)
  }

  /** The `lexLinkText` / `lexLinkURL` loops: first `c` at or after `i`, or `|s|`. */
  function Find(s: string, i: nat, c: char): (j: nat)
    requires i <= |s|
    ensures i <= j <= |s|
    ensures j < |s| ==> s[j] == c
    decreases |s| - i
  {
    if i == |s| || s[i] == c then i else Find(s, i + 1, c)
  }

  /** The language-tag loop of `lexCodeStart`: first CR or LF at or after `i`, or `|s|`. */
  function LineEnd(s: string, i: nat): (j: nat)
    requires i <= |s|
    ensures i <= j <= |s|
    ensures j < |s| ==> IsLineEnd(s[j])
    decreases |s| - i
  {
    if i == |s| || IsLineEnd(s[i]) then i else LineEnd(s, i + 1)
  }

  /** The `accept("#")` loop of `lexHeader`: end of the run of `#` at `i`. */
  function HashEnd(s: string, i: nat): (j: nat)
    requires i <= |s|
    ensures i <= j <= |s|
    ensures j < |s| ==> s[j] != '#'
    decreases |s| - i
  {
    if i == |s| || s[i] != '#' then i else HashEnd(s, i + 1)
  }

  /** The `lexCode` loop: first `\n` at or after `i` that is followed by a
      fence, or `|s|`. */
  function CodeEnd(s: string, i: nat): (k: nat)
    requires i <= |s|
    ensures i <= k <= |s|
    ensures k < |s| ==> ClosesCode(s, k)
    decreases |s| - i
  {
    if i == |s| || ClosesCode(s, i) then i else CodeEnd(s, i + 1)
  }

  /** Position after the line terminator at `i` (`\r\n`, `\n` or a lone `\r`),
      as read by `lexEOL` and by the end of `lexCodeStart`. */
  function AfterLineEnd(s: string, i: nat): (e: nat)
    requires i < |s| && IsLineEnd(s[i])
    ensures i < e <= |s|
  {
    if s[i] == '\r' && HasPrefixAt(s, i + 1, "\n") then i + 2 else i + 1
  }

  /** `emit`: the item always covers `input[start:pos]`. */
  function Emit(s: string, k: Kind, start: nat, pos: nat): (it: Item)
    requires start <= pos <= |s|
  {
    Item(k, start, s[start..pos])
  }

  /** `errorf`: an error item at the pending start, carrying the message. */
  function Fail(start: nat, msg: string): Item {
    Item(Error, start, msg)
  }

  /** `lexLine`: dispatch on the start of a line, in the source's order. */
  function RunLine(s: string, pos: nat): (items: seq<Item>)
    requires pos <= |s|
    ensures |items| > 0
    decreases |s| - pos, 4
  {
    if HasPrefixAt(s, pos, "#") then RunHeader(s, pos)
    else if HasPrefixAt(s, pos, CodeFence) then RunCodeStart(s, pos)
    else if HasPrefixAt(s, pos, ">") then Marker(s, pos, BlockQuote, 1)
    else if HasPrefixAt(s, pos, BulletMarker) then Marker(s, pos, Bullet, |BulletMarker|)
    else RunText(s, pos, pos)
  }

  /** `lexText`: flush pending text at the next stop character, or at the
      end of the input followed by the end-of-input item. */
  function RunText(s: string, start: nat, pos: nat): (items: seq<Item>)
    requires start <= pos <= |s|
    ensures |items| > 0
    decreases |s| - pos, 2
  {
    var j := TextStop(s, pos);
    var pending := if start < j then [Emit(s, Text, start, j)] else [];
    if j == |s| then pending + [Emit(s, EOF, j, j)]
    else pending + RunStop(s, j)
  }

  /** The state `lexText` hands over to at a stop character: `lexEOL`,
      `lexLinkTextStart`, `lexStar`, `lexUnderscore` or `lexEscape`. */
  function RunStop(s: string, j: nat): (items: seq<Item>)
    requires j < |s| && IsTextStop(s[j])
    ensures |items| > 0
    decreases |s| - j, 1
  {
    if IsLineEnd(s[j]) then RunEOL(s, j)
    else if s[j] == '[' then RunLinkTextStart(s, j)
    else if s[j] == '*' then Marker(s, j, Star, 1)
    else if s[j] == '_' then Marker(s, j, Underscore, 1)
    else Marker(s, j, Esc, 1)
  }

  /** The fixed-width states that go on with `lexText` (`lexStar`,
      `lexUnderscore`, `lexEscape`, `lexBullet`, `lexQuoteStart`,
      `lexLinkURLFinish`, `lexCodeFinish`): step over the marker and emit it. */
  function Marker(s: string, pos: nat, k: Kind, width: nat): (items: seq<Item>)
    requires 0 < width && pos + width <= |s|
    ensures |items| > 0
    decreases |s| - pos, 0
  {
    [Emit(s, k, pos, pos + width)] + RunText(s, pos + width, pos + width)
  }

  /** `lexLinkTextStart`. */
  function RunLinkTextStart(s: string, pos: nat): (items: seq<Item>)
    requires pos < |s|
    ensures |items| > 0
    decreases |s| - pos, 0
  {
    [Emit(s, LinkTextStart, pos, pos + 1)] + RunLinkText(s, pos + 1)
  }

  /** `lexLinkText`. */
  function RunLinkText(s: string, pos: nat): (items: seq<Item>)
    requires pos <= |s|
    ensures |items| > 0
    decreases |s| - pos, 1
  {
    var j := Find(s, pos, ']');
    if j == |s| then [Fail(pos, UnclosedLinkText)]
    else [Emit(s, LinkText, pos, j)] + RunLinkTextFinish(s, j)
  }

  /** `lexLinkTextFinish`. */
  function RunLinkTextFinish(s: string, pos: nat): (items: seq<Item>)
    requires pos < |s|
    ensures |items| > 0
    decreases |s| - pos, 0
  {
    [Emit(s, LinkTextFinish, pos, pos + 1)] + RunLinkURLStart(s, pos + 1)
  }

  /** `lexLinkURLStart`: a `(` right after the `]` opens the URL. */
  function RunLinkURLStart(s: string, pos: nat): (items: seq<Item>)
    requires pos <= |s|
    ensures |items| > 0
    decreases |s| - pos, 3
  {
    if HasPrefixAt(s, pos, "(") then
      [Emit(s, LinkURLStart, pos, pos + 1)] + RunLinkURL(s, pos + 1)
    else RunText(s, pos, pos)
  }

  /** `lexLinkURL`. */
  function RunLinkURL(s: string, pos: nat): (items: seq<Item>)
    requires pos <= |s|
    ensures |items| > 0
    decreases |s| - pos, 1
  {
    var j := Find(s, pos, ')');
    if j == |s| then [Fail(pos, UnclosedLinkURL)]
    else [Emit(s, LinkURL, pos, j)] + Marker(s, j, LinkURLFinish, 1)
  }

  /** `lexEOL`. */
  function RunEOL(s: string, pos: nat): (items: seq<Item>)
    requires pos < |s| && IsLineEnd(s[pos])
    ensures |items| > 0
    decreases |s| - pos, 0
  {
    var e := AfterLineEnd(s, pos);
    [Emit(s, EOL, pos, e)] + RunLine(s, e)
  }

  /** `lexHeader`: one to six `#` and exactly one space form a header marker;
      otherwise the hashes stay pending and become part of the text. */
  function RunHeader(s: string, pos: nat): (items: seq<Item>)
    requires HasPrefixAt(s, pos, "#")
    ensures |items| > 0
    decreases |s| - pos, 3
  {
    var h := HashEnd(s, pos);
    if h - pos <= 6 && HasPrefixAt(s, h, " ") then
      [Emit(s, Header, pos, h + 1)] + RunText(s, h + 1, h + 1)
    else RunText(s, pos, h)
  }

  /** `lexCodeStart`: the fence, the language tag up to the line end, then the
      line terminator is read without being emitted. */
  function RunCodeStart(s: string, pos: nat): (items: seq<Item>)
    requires HasPrefixAt(s, pos, CodeFence)
    ensures |items| > 0
    decreases |s| - pos, 3
  {
    var p := pos + |CodeFence|;
    var j := LineEnd(s, p);
    if j == |s| then [Emit(s, CodeStart, pos, p), Fail(p, UnclosedCode)]
    else [Emit(s, CodeStart, pos, p)] + ([Emit(s, CodeLang, p, j)] + RunCode(s, j, AfterLineEnd(s, j)))
  }

  /** `lexCode`: the body runs from the pending line terminator up to and
      including the `\n` that precedes the closing fence. */
  function RunCode(s: string, start: nat, pos: nat): (items: seq<Item>)
    requires start <= pos <= |s|
    ensures |items| > 0
    decreases |s| - pos, 1
  {
    var k := CodeEnd(s, pos);
    if k == |s| then [Fail(start, UnclosedCode)]
    else [Emit(s, Code, start, k + 1)] + Marker(s, k + 1, CodeFinish, |CodeFence|)
  }

  /** The scanner's whole item stream (`lex` followed by `run`). */
  function Lex(s: string): (items: seq<Item>)
    ensures |items| > 0
  {
    RunLine(s, 0)
  }
}
