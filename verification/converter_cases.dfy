/** End-to-end behaviour of the converter on the constructs other than plain
    text and complete links: cut-short links, block quotes, bullets and code
    blocks. */
module ConverterCases {
  import opened Tokens
  import opened Strings
  import opened Scanner
  import opened Streams
  import opened ScannerFacts
  import opened Converter
  import opened ConverterFacts

  /** A kind the top-level loop does not handle stops the walk with an error
      that carries the item. */
  lemma ParseOther(it: Item, r: seq<Item>)
    requires !TopLevelKind(it.kind)
    ensures ParseItems([it] + r) == Err(Unexpected(it))
  {
    Cons(it, r);
  }

  /** A stream written as its first item and the rest. */
  lemma Uncons(ts: seq<Item>)
    requires |ts| > 0
    ensures ts == [ts[0]] + ts[1..]
  {
  }

  /** A block quote is not converted: an input that opens with `>` is
      refused with the block-quote item. */
  lemma QuoteError(s: string)
    requires |s| > 0 && s[0] == '>'
    ensures Parse(s) == Err(Unexpected(Item(BlockQuote, 0, ">")))
  {
    OtherFirst(s, 0, "#");
    OtherFirst(s, 0, CodeFence);
    assert s[0..1] == [s[0]];
    QuoteLine(s, 0);
    Uncons(Lex(s));
    ParseOther(Lex(s)[0], Lex(s)[1..]);
  }

  /** A `[` whose link text is cut short: only the `[` is taken as text,
      and then the scanner's error item stops the walk. */
  lemma ParseLinkCut(a: Item, e: Item)
    requires a.kind == LinkTextStart && e.kind == Error
    ensures ParseLink([a] + [e]) == Piece("[", [e])
    ensures ParseItems([a] + [e]) == Err(Unexpected(e))
  {
    var ts := [a] + [e];
    assert ts[1] == e && ts[1..] == [e];
    ParseOther(e, []);
    assert [e] + [] == [e];
  }

  /** `[` with no `]` after it: the scan fails, and so does the conversion. */
  lemma UnclosedLinkTextError(s: string)
    requires |s| > 0 && s[0] == '[' && Find(s, 1, ']') == |s|
    ensures Parse(s) == Err(Unexpected(Item(Error, 1, UnclosedLinkText)))
  {
    LinkHead(s);
    LinkTextStep(s, 1);
    ParseLinkCut(Emit(s, LinkTextStart, 0, 1), Item(Error, 1, UnclosedLinkText));
  }

  /** `[t](` with no `)` after it: the link degrades to its literal prefix,
      and then the scanner's error item stops the walk. */
  lemma ParseURLCut(a: Item, b: Item, c: Item, d: Item, e: Item)
    requires a.kind == LinkTextStart && b.kind == LinkText && d.kind == LinkURLStart && e.kind == Error
    ensures ParseLink([a] + ([b] + ([c] + ([d] + [e])))) == Piece("[" + b.val + "](", [e])
    ensures ParseItems([a] + ([b] + ([c] + ([d] + [e])))) == Err(Unexpected(e))
  {
    var ts := [a] + ([b] + ([c] + ([d] + [e])));
    assert ts[1] == b && ts[3] == d && ts[4] == e && ts[4..] == [e];
    ParseOther(e, []);
    assert [e] + [] == [e];
  }

  /** The items of `[t](` with no `)` after it. */
  lemma URLCutStream(s: string, j: nat)
    requires |s| > 0 && s[0] == '[' && j < |s| && Find(s, 1, ']') == j
    requires j + 1 < |s| && s[j + 1] == '(' && Find(s, j + 2, ')') == |s|
    ensures Lex(s) ==
      [Emit(s, LinkTextStart, 0, 1)] + ([Emit(s, LinkText, 1, j)] + ([Emit(s, LinkTextFinish, j, j + 1)] +
      ([Emit(s, LinkURLStart, j + 1, j + 2)] + [Item(Error, j + 2, UnclosedLinkURL)])))
  {
    LinkHead(s);
    LinkTextStep(s, 1);
    LinkURLCut(s, j + 1);
  }

  lemma UnclosedLinkURLError(s: string, j: nat)
    requires |s| > 0 && s[0] == '[' && j < |s| && Find(s, 1, ']') == j
    requires j + 1 < |s| && s[j + 1] == '(' && Find(s, j + 2, ')') == |s|
    ensures Parse(s) == Err(Unexpected(Item(Error, j + 2, UnclosedLinkURL)))
  {
    URLCutStream(s, j);
    ParseURLCut(
      Emit(s, LinkTextStart, 0, 1), Emit(s, LinkText, 1, j), Emit(s, LinkTextFinish, j, j + 1),
      Emit(s, LinkURLStart, j + 1, j + 2), Item(Error, j + 2, UnclosedLinkURL));
  }

  /** `[t]` followed by anything but `(`: the brackets and the text are
      reproduced, and the walk goes on after them. */
  lemma ParseBareLink(a: Item, b: Item, c: Item, tail: seq<Item>)
    requires a.kind == LinkTextStart && b.kind == LinkText && Next(tail).kind != LinkURLStart
    ensures ParseItems([a] + ([b] + ([c] + tail))) == Prepend("[" + b.val + "]", ParseItems(tail))
  {
    var ts := [a] + ([b] + ([c] + tail));
    assert ts[1] == b && ts[3..] == tail;
    assert |tail| > 0 ==> ts[3] == tail[0];
  }

  /** The items of `[t]` not followed by `(`. */
  lemma BareLinkStream(s: string, j: nat)
    requires |s| > 0 && s[0] == '[' && j < |s| && Find(s, 1, ']') == j
    requires !HasPrefixAt(s, j + 1, "(")
    ensures Lex(s) ==
      [Emit(s, LinkTextStart, 0, 1)] + ([Emit(s, LinkText, 1, j)] + ([Emit(s, LinkTextFinish, j, j + 1)] +
      RunText(s, j + 1, j + 1)))
  {
    LinkHead(s);
    LinkTextStep(s, 1);
    assert RunLinkURLStart(s, j + 1) == RunText(s, j + 1, j + 1);
  }

  lemma BareLinkWalk(s: string, j: nat)
    requires |s| > 0 && s[0] == '[' && j < |s| && Find(s, 1, ']') == j
    requires !HasPrefixAt(s, j + 1, "(")
    ensures ParseItems(Lex(s)) == Prepend("[" + s[1..j] + "]", ParseItems(RunText(s, j + 1, j + 1)))
  {
    BareLinkStream(s, j);
    TextFirstMarker(s, j + 1);
    ParseBareLink(
      Emit(s, LinkTextStart, 0, 1), Emit(s, LinkText, 1, j), Emit(s, LinkTextFinish, j, j + 1),
      RunText(s, j + 1, j + 1));
  }

  /** `[t]` not followed by `(` is kept as written, and the text after it
      converts on its own; then the tab escape applies to the whole. */
  lemma BareLinkConversion(s: string, j: nat)
    requires |s| > 0 && s[0] == '[' && j < |s| && Find(s, 1, ']') == j
    requires !HasPrefixAt(s, j + 1, "(") && Plain(s, j + 1)
    ensures Parse(s) == Ok(ReplaceChar("[" + s[1..j] + "]" + Ref(s[j + 1..]), '\t', TabEscape))
  {
    BareLinkThen(s, j, "[" + s[1..j] + "]");
  }

  lemma BareLinkThen(s: string, j: nat, pre: string)
    requires |s| > 0 && s[0] == '[' && j < |s| && Find(s, 1, ']') == j
    requires !HasPrefixAt(s, j + 1, "(") && Plain(s, j + 1)
    requires pre == "[" + s[1..j] + "]"
    ensures Parse(s) == Ok(ReplaceChar(pre + Ref(s[j + 1..]), '\t', TabEscape))
  {
    BareLinkWalk(s, j);
    ThenText(s, pre, j + 1);
  }

  // ---------------------------------------------------------------------
  // Bullets
  // ---------------------------------------------------------------------

  /** A line that opens with `- ` becomes the bullet and a space, and the
      rest converts as text. */
  lemma BulletConversion(s: string)
    requires HasPrefixAt(s, 0, BulletMarker) && Plain(s, |BulletMarker|)
    ensures Parse(s) == Ok(ReplaceChar(BulletPrefix + Ref(s[|BulletMarker|..]), '\t', TabEscape))
  {
    BulletWalk(s);
    ThenText(s, BulletPrefix, |BulletMarker|);
  }

  lemma BulletWalk(s: string)
    requires HasPrefixAt(s, 0, BulletMarker)
    ensures var n := |BulletMarker|;
      ParseItems(Lex(s)) == Prepend(BulletPrefix, ParseItems(RunText(s, n, n)))
  {
    var n := |BulletMarker|;
    assert s[0] == '-' by { assert s[0..n][0] == s[0]; }
    OtherFirst(s, 0, "#");
    OtherFirst(s, 0, CodeFence);
    OtherFirst(s, 0, ">");
    assert Lex(s) == Marker(s, 0, Bullet, n);
    MarkerStep(s, 0, Bullet, n);
    Cons(Item(Bullet, 0, s[0..n]), RunText(s, n, n));
  }

  // ---------------------------------------------------------------------
  // Code blocks
  // ---------------------------------------------------------------------

  /** An input that opens with a fence is scanned as a code block. */
  lemma FenceHead(s: string)
    requires HasPrefixAt(s, 0, CodeFence)
    ensures Lex(s) == RunCodeStart(s, 0)
  {
    Distinct(s, 0, CodeFence, "#");
  }

  /** The body of a closed block, its closing fence, then text. */
  lemma CodeBody(s: string, j: nat, k: nat)
    requires j < |s| && IsLineEnd(s[j])
    requires k == CodeEnd(s, AfterLineEnd(s, j)) && k < |s|
    ensures RunCode(s, j, AfterLineEnd(s, j)) ==
      [Item(Code, j, s[j..k + 1])] + ([Item(CodeFinish, k + 1, CodeFence)] + RunText(s, k + 4, k + 4))
  {
    CodeStep(s, j, AfterLineEnd(s, j));
  }

  /** The fence and language tag of a block at the start of the input. */
  lemma CodeHead(s: string, j: nat)
    requires HasPrefixAt(s, 0, CodeFence)
    requires j == LineEnd(s, |CodeFence|) && j < |s|
    ensures Lex(s) == [Item(CodeStart, 0, CodeFence)] + ([Item(CodeLang, 3, s[3..j])] + RunCode(s, j, AfterLineEnd(s, j)))
  {
    FenceHead(s);
    CodeStartStep(s, 0);
  }

  /** The items of a closed code block at the start of the input: the
      language tag ends at `j`, the body's closing `\n` is at `k`. */
  lemma CodeStream(s: string, j: nat, k: nat)
    requires HasPrefixAt(s, 0, CodeFence)
    requires j == LineEnd(s, |CodeFence|) && j < |s|
    requires k == CodeEnd(s, AfterLineEnd(s, j)) && k < |s|
    ensures Lex(s) ==
      [Item(CodeStart, 0, CodeFence)] + ([Item(CodeLang, 3, s[3..j])] + ([Item(Code, j, s[j..k + 1])] +
      ([Item(CodeFinish, k + 1, CodeFence)] + RunText(s, k + 4, k + 4))))
  {
    CodeBody(s, j, k);
    CodeHead(s, j);
  }

  /** The walk over a code block's items: both fences kept, the language tag
      dropped, the body escaped. */
  lemma ParseCode(a: Item, b: Item, c: Item, d: Item, tail: seq<Item>)
    requires a.kind == CodeStart && b.kind == CodeLang && c.kind == Code && d.kind == CodeFinish
    ensures ParseItems([a] + ([b] + ([c] + ([d] + tail)))) ==
      Prepend(a.val + EscapeCode(c.val) + d.val, ParseItems(tail))
  {
    CodeItemStep(a, [b] + ([c] + ([d] + tail)));
    CodeItemStep(b, [c] + ([d] + tail));
    CodeItemStep(c, [d] + tail);
    CodeItemStep(d, tail);
    PrependPrepend(EscapeCode(c.val), d.val, ParseItems(tail));
    PrependPrepend(a.val, EscapeCode(c.val) + d.val, ParseItems(tail));
    assert a.val + (EscapeCode(c.val) + d.val) == a.val + EscapeCode(c.val) + d.val;
  }

  /** One step of the top-level loop over a code-block item. */
  lemma CodeItemStep(it: Item, r: seq<Item>)
    ensures it.kind == CodeStart || it.kind == CodeFinish ==> ParseItems([it] + r) == Prepend(it.val, ParseItems(r))
    ensures it.kind == CodeLang ==> ParseItems([it] + r) == ParseItems(r)
    ensures it.kind == Code ==> ParseItems([it] + r) == Prepend(EscapeCode(it.val), ParseItems(r))
  {
    Cons(it, r);
  }

  /** Two prefixes in a row are one. */
  lemma PrependPrepend(a: string, b: string, r: Result<string>)
    ensures Prepend(a, Prepend(b, r)) == Prepend(a + b, r)
  {
    if r.Ok? {
      assert a + (b + r.value) == (a + b) + r.value;
    }
  }

  lemma CodeWalk(s: string, j: nat, k: nat, pre: string)
    requires HasPrefixAt(s, 0, CodeFence)
    requires j == LineEnd(s, |CodeFence|) && j < |s|
    requires k == CodeEnd(s, AfterLineEnd(s, j)) && k < |s|
    requires pre == CodeFence + EscapeCode(s[j..k + 1]) + CodeFence
    ensures ParseItems(Lex(s)) == Prepend(pre, ParseItems(RunText(s, k + 4, k + 4)))
  {
    CodeStream(s, j, k);
    ParseCode(
      Item(CodeStart, 0, CodeFence), Item(CodeLang, 3, s[3..j]), Item(Code, j, s[j..k + 1]),
      Item(CodeFinish, k + 1, CodeFence), RunText(s, k + 4, k + 4));
  }

  /** A code block at the start of the input keeps both fences, drops the
      language tag, and keeps the body from the tag's line terminator at `j`
      up to and including the `\n` at `k` before the closing fence, with
      every `\n` escaped and every `\r` removed; the text after the closing
      fence converts on its own, and then the tab escape applies to the
      whole. */
  lemma CodeConversion(s: string, j: nat, k: nat)
    requires HasPrefixAt(s, 0, CodeFence)
    requires j == LineEnd(s, |CodeFence|) && j < |s|
    requires k == CodeEnd(s, AfterLineEnd(s, j)) && k + 4 <= |s|
    requires Plain(s, k + 4)
    ensures Parse(s) == Ok(ReplaceChar(CodeFence + EscapeCode(s[j..k + 1]) + CodeFence + Ref(s[k + 4..]), '\t', TabEscape))
  {
    CodeThen(s, j, k, CodeFence + EscapeCode(s[j..k + 1]) + CodeFence);
  }

  lemma CodeThen(s: string, j: nat, k: nat, pre: string)
    requires HasPrefixAt(s, 0, CodeFence)
    requires j == LineEnd(s, |CodeFence|) && j < |s|
    requires k == CodeEnd(s, AfterLineEnd(s, j)) && k + 4 <= |s|
    requires Plain(s, k + 4)
    requires pre == CodeFence + EscapeCode(s[j..k + 1]) + CodeFence
    ensures Parse(s) == Ok(ReplaceChar(pre + Ref(s[k + 4..]), '\t', TabEscape))
  {
    CodeWalk(s, j, k, pre);
    CodeRest(s, k + 4, pre);
  }

  /** The text after a closing fence, behind the block's own output. */
  lemma CodeRest(s: string, p: nat, pre: string)
    requires Plain(s, p)
    requires ParseItems(Lex(s)) == Prepend(pre, ParseItems(RunText(s, p, p)))
    ensures Parse(s) == Ok(ReplaceChar(pre + Ref(s[p..]), '\t', TabEscape))
  {
    ThenText(s, pre, p);
  }

  /** A fence whose line never ends, or whose block is never closed, makes
      the conversion fail with the scanner's "unclosed code block" item: at
      the end of the fence in the first case, at the tag's line terminator
      `j` in the second. */
  lemma UnclosedCodeError(s: string, j: nat)
    requires HasPrefixAt(s, 0, CodeFence)
    requires j == LineEnd(s, |CodeFence|)
    requires j == |s| || CodeEnd(s, AfterLineEnd(s, j)) == |s|
    ensures Parse(s) == Err(Unexpected(Item(Error, if j == |s| then 3 else j, UnclosedCode)))
  {
    var a := Item(CodeStart, 0, CodeFence);
    var e := Item(Error, if j == |s| then 3 else j, UnclosedCode);
    if j == |s| {
      UnclosedTag(s, j);
      ParseFenceError(a, e);
    } else {
      var b := Item(CodeLang, 3, s[3..j]);
      UnclosedBody(s, j);
      ParseTagError(a, b, e);
    }
    ErrOf(s, Unexpected(e));
  }

  lemma ErrOf(s: string, e: ParseError)
    requires ParseItems(Lex(s)) == Err(e)
    ensures Parse(s) == Err(e)
  {
  }

  /** A fence followed by an error item. */
  lemma ParseFenceError(a: Item, e: Item)
    requires a.kind == CodeStart && e.kind == Error
    ensures ParseItems([a] + [e]) == Err(Unexpected(e))
  {
    Cons(a, [e]);
    ParseOther(e, []);
    assert [e] + [] == [e];
  }

  /** A fence and its language tag followed by an error item. */
  lemma ParseTagError(a: Item, b: Item, e: Item)
    requires a.kind == CodeStart && b.kind == CodeLang && e.kind == Error
    ensures ParseItems([a] + ([b] + [e])) == Err(Unexpected(e))
  {
    CodeItemStep(a, [b] + [e]);
    CodeItemStep(b, [e]);
    ParseOther(e, []);
    assert [e] + [] == [e];
  }

  /** A fence on the last line: the scan stops right after it. */
  lemma UnclosedTag(s: string, j: nat)
    requires HasPrefixAt(s, 0, CodeFence)
    requires j == LineEnd(s, |CodeFence|) && j == |s|
    ensures Lex(s) == [Item(CodeStart, 0, CodeFence)] + [Item(Error, 3, UnclosedCode)]
  {
    FenceHead(s);
    CodeStartStep(s, 0);
  }

  /** A block never closed: the scan stops at the tag's line terminator. */
  lemma UnclosedBody(s: string, j: nat)
    requires HasPrefixAt(s, 0, CodeFence)
    requires j == LineEnd(s, |CodeFence|) && j < |s|
    requires CodeEnd(s, AfterLineEnd(s, j)) == |s|
    ensures Lex(s) == [Item(CodeStart, 0, CodeFence)] + ([Item(CodeLang, 3, s[3..j])] + [Item(Error, j, UnclosedCode)])
  {
    CodeHead(s, j);
    CodeStep(s, j, AfterLineEnd(s, j));
  }

  /** The closing `\n` is looked for only after the opening line's
      terminator, so a block with an empty body is never closed. */
  lemma EmptyCodeBlockUnclosed()
    ensures Parse("```\n```") == Err(Unexpected(Item(Error, 3, UnclosedCode)))
  {
    var s := "```\n```";
    assert s[0..3] == CodeFence;
    assert LineEnd(s, 3) == 3;
    assert AfterLineEnd(s, 3) == 4;
    assert CodeEnd(s, 4) == |s|;
    UnclosedCodeError(s, 3);
  }
}
