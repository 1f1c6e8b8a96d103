/** When the conversion of pkg/markdown/parse.go fails on a real scan.
    The converter's loops reject every item kind they do not handle, but
    on a stream the scanner produced only two such kinds can ever reach
    them: an error item (an unclosed code block, link text or link target)
    and a block quote.  The walk meets the items in order, so a failure
    always names the first of them; and it does reach that item unless an
    escape outside a header stops the walk first. */
module ConverterErrors {
  import opened Tokens
  import opened Streams
  import opened Scanner
  import opened Converter
  import ScannerFacts
  import ConverterFacts
  import ConverterCases
  import HeaderFacts

  /** Kinds that neither loop of the converter handles and that a scan can
      put in front of them. */
  predicate Bad(k: Kind) {
    k == Error || k == BlockQuote
  }

  /** The parts of a link after its `[`: `parseLink` consumes them. */
  predicate LinkInner(k: Kind) {
    k in {LinkText, LinkTextFinish, LinkURLStart, LinkURL, LinkURLFinish}
  }

  /** The kinds a part of a link can come right after. */
  predicate LinkLead(k: Kind) {
    k == LinkTextStart || k == LinkText || k == LinkTextFinish || k == LinkURLStart || k == LinkURL
  }

  /** The last item `parseLink` consumes: the `[` alone, `]`, `(` or `)`. */
  predicate LinkStop(k: Kind) {
    k == LinkTextStart || k == LinkTextFinish || k == LinkURLStart || k == LinkURLFinish
  }

  /** `parseLink` stopped right before position `e`. */
  predicate LinkStopBefore(items: seq<Item>, e: nat)
    requires 0 < e <= |items|
  {
    LinkStop(items[e - 1].kind)
  }

  /** Kinds the top-level loop copies, rewrites or drops, moving on by one
      item. */
  predicate TopPlain(k: Kind) {
    k == EOL || k == Text || k == Bullet || k == CodeStart || k == CodeFinish || k == CodeLang || k == Code
  }

  /** Index of the first item at or after `k` with a `Bad` kind, or the
      length of the stream when there is none. */
  function FirstBad(items: seq<Item>, k: nat): (j: nat)
    requires k <= |items|
    ensures k <= j <= |items|
    ensures j < |items| ==> Bad(items[j].kind)
    decreases |items| - k
  {
    if k == |items| || Bad(items[k].kind) then k else FirstBad(items, k + 1)
  }

  /** `FirstBad` is the first: no item before it is `Bad`. */
  lemma {:induction false} FirstBadFirst(items: seq<Item>, k: nat)
    requires k <= |items|
    ensures forall i | k <= i < FirstBad(items, k) :: !Bad(items[i].kind)
    decreases |items| - k
  {
    if k < |items| && !Bad(items[k].kind) {
      FirstBadFirst(items, k + 1);
    }
  }

  /** No escape item among `items[a..b]`. */
  predicate NoEsc(items: seq<Item>, a: nat, b: nat) {
    forall i | a <= i < b && i < |items| :: items[i].kind != Esc
  }

  /** What a scan guarantees, stated on the items alone: the first item
      needs no predecessor, and from there on `Chain` holds. */
  predicate Scanned(items: seq<Item>) {
    |items| > 0 && !Follower(items[0].kind) && Chain(items, 0)
  }

  /** From `k` on, exactly the last item is terminal and neighbours obey
      `Follows`. */
  predicate Chain(items: seq<Item>, k: nat)
    decreases |items| - k
  {
    || k >= |items|
    || (k == |items| - 1 && Terminal(items[k]))
    || (&& k < |items| - 1
        && !Terminal(items[k])
        && Follows(items[k].kind, items[k + 1].kind)
        && Chain(items, k + 1))
  }

  /** Item `k` may follow item `k - 1`. */
  predicate Adjacent(items: seq<Item>, k: nat)
    requires 0 < k < |items|
  {
    Follows(items[k - 1].kind, items[k].kind)
  }

  /** What `Chain` says at one position. */
  lemma {:induction false} ChainAt(items: seq<Item>, k: nat, i: nat)
    requires Chain(items, k) && k <= i < |items|
    ensures Terminal(items[i]) <==> i == |items| - 1
    ensures i + 1 < |items| ==> Adjacent(items, i + 1)
    decreases i - k
  {
    if k < i {
      ChainAt(items, k + 1, i);
    }
  }

  /** The facts of a scan at position `i`. */
  lemma ScannedAt(items: seq<Item>, i: nat)
    requires Scanned(items) && i < |items|
    ensures Terminal(items[i]) <==> i == |items| - 1
    ensures i + 1 < |items| ==> Adjacent(items, i + 1)
  {
    ChainAt(items, 0, i);
  }

  /** `Chain` from the facts position by position. */
  lemma {:induction false} ChainFrom(items: seq<Item>, k: nat)
    requires |items| > 0 && Terminal(items[|items| - 1])
    requires forall i | 0 <= i < |items| - 1 :: !Terminal(items[i])
    requires forall i | 0 < i < |items| :: Adjacent(items, i)
    ensures Chain(items, k)
    decreases |items| - k
  {
    if k < |items| - 1 {
      ChainFrom(items, k + 1);
      ChainCons(items, k);
    } else if k == |items| - 1 {
      ChainLast(items, k);
    }
  }

  lemma ChainLast(items: seq<Item>, k: nat)
    requires k == |items| - 1 && Terminal(items[k])
    ensures Chain(items, k)
  {
  }

  /** One link of `Chain`, with `Follows` left folded. */
  lemma ChainCons(items: seq<Item>, k: nat)
    requires k < |items| - 1 && !Terminal(items[k]) && Adjacent(items, k + 1)
    requires Chain(items, k + 1)
    ensures Chain(items, k)
  {
  }

  /** A position where the top-level loop may stand. */
  predicate TopAt(items: seq<Item>, k: nat) {
    k < |items| && !LinkInner(items[k].kind)
  }

  /** A position where the header loop may stand: not at the start of a
      line, not inside a code block, not inside a link. */
  predicate InHeader(items: seq<Item>, j: nat) {
    && 0 < j < |items|
    && items[j - 1].kind !in {EOL, CodeStart, CodeLang, Code}
    && !LinkInner(items[j].kind)
  }

  lemma ScanIsScanned(s: string)
    ensures Scanned(Lex(s))
  {
    ScannerFacts.LexPartition(s);
    ScannerFacts.LexAdjacent(s);
    forall i | 0 < i < |Lex(s)| ensures Adjacent(Lex(s), i) { }
    ChainFrom(Lex(s), 0);
  }

  /** The item after a non-terminal one is never inside a link unless the
      one before it opens or continues the link. */
  lemma NextOutsideLink(items: seq<Item>, k: nat)
    requires Scanned(items) && k < |items| && !Terminal(items[k])
    requires !LinkLead(items[k].kind)
    ensures k + 1 < |items| && !LinkInner(items[k + 1].kind)
  {
    ScannedAt(items, k);
  }

  /** Where `parseLink` stops on a scan: after the `[` alone, after `[text]`,
      after `[text](`, or after the whole link. */
  lemma LinkEnd(items: seq<Item>, k: nat) returns (e: nat)
    requires Scanned(items) && k < |items| && items[k].kind == LinkTextStart
    ensures k < e < |items| && ParseLink(items[k..]).rest == items[e..]
    ensures !LinkInner(items[e].kind)
    ensures LinkStopBefore(items, e)
    ensures FirstBad(items, e) == FirstBad(items, k)
  {
    ScannedAt(items, k);
    if items[k + 1].kind != LinkText {
      FirstBadStep(items, k);
      e := LinkSkip(items, k, 1);
    } else {
      ScannedAt(items, k + 1);
      ScannedAt(items, k + 2);
      if items[k + 3].kind != LinkURLStart {
        e := LinkBracketed(items, k);
      } else {
        ScannedAt(items, k + 3);
        if items[k + 4].kind != LinkURL {
          e := LinkOpened(items, k);
        } else {
          e := LinkFull(items, k);
        }
      }
    }
  }

  /** `[text]` not followed by `(`: three items. */
  lemma LinkBracketed(items: seq<Item>, k: nat) returns (e: nat)
    requires Scanned(items) && k + 3 < |items|
    requires items[k].kind == LinkTextStart && items[k + 1].kind == LinkText
    requires items[k + 2].kind == LinkTextFinish && items[k + 3].kind != LinkURLStart
    requires Follows(items[k + 2].kind, items[k + 3].kind)
    ensures e == k + 3 && ParseLink(items[k..]).rest == items[e..]
    ensures !LinkInner(items[e].kind) && LinkStopBefore(items, e)
    ensures FirstBad(items, e) == FirstBad(items, k)
  {
    assert FirstBad(items, k) == FirstBad(items, k + 3) by {
      FirstBadStep(items, k);
      FirstBadStep(items, k + 1);
      FirstBadStep(items, k + 2);
    }
    e := LinkSkip(items, k, 3);
  }

  /** `[text](` with no target after it: four items. */
  lemma LinkOpened(items: seq<Item>, k: nat) returns (e: nat)
    requires Scanned(items) && k + 4 < |items|
    requires items[k].kind == LinkTextStart && items[k + 1].kind == LinkText
    requires items[k + 2].kind == LinkTextFinish && items[k + 3].kind == LinkURLStart
    requires items[k + 4].kind != LinkURL
    requires Follows(items[k + 3].kind, items[k + 4].kind)
    ensures e == k + 4 && ParseLink(items[k..]).rest == items[e..]
    ensures !LinkInner(items[e].kind) && LinkStopBefore(items, e)
    ensures FirstBad(items, e) == FirstBad(items, k)
  {
    assert FirstBad(items, k) == FirstBad(items, k + 4) by {
      FirstBadStep(items, k);
      FirstBadStep(items, k + 1);
      FirstBadStep(items, k + 2);
      FirstBadStep(items, k + 3);
    }
    e := LinkSkip(items, k, 4);
  }

  /** The items from `k` on open a whole link: `[`, text, `]`, `(`, target. */
  predicate FullLinkAt(items: seq<Item>, k: nat)
    requires k + 4 < |items|
  {
    && items[k].kind == LinkTextStart && items[k + 1].kind == LinkText
    && items[k + 2].kind == LinkTextFinish && items[k + 3].kind == LinkURLStart
    && items[k + 4].kind == LinkURL
  }

  /** The whole link `[text](url)`: six items. */
  lemma LinkFull(items: seq<Item>, k: nat) returns (e: nat)
    requires Scanned(items) && k + 4 < |items| && FullLinkAt(items, k)
    ensures e == k + 6 && e < |items| && ParseLink(items[k..]).rest == items[e..]
    ensures !LinkInner(items[e].kind) && LinkStopBefore(items, e)
    ensures FirstBad(items, e) == FirstBad(items, k)
  {
    ScannedAt(items, k + 4);
    ScannedAt(items, k + 5);
    assert FirstBad(items, k) == FirstBad(items, k + 6) by {
      FirstBadStep(items, k);
      FirstBadStep(items, k + 1);
      FirstBadStep(items, k + 2);
      FirstBadStep(items, k + 3);
      FirstBadStep(items, k + 4);
      FirstBadStep(items, k + 5);
    }
    e := LinkSkip(items, k, 6);
  }

  /** Stepping over one item that is not `Bad`. */
  lemma FirstBadStep(items: seq<Item>, i: nat)
    requires i < |items| && !Bad(items[i].kind)
    ensures FirstBad(items, i) == FirstBad(items, i + 1)
  {
  }

  /** `parseLink` stopping after `n` items leaves `items[k + n..]`. */
  lemma LinkSkip(items: seq<Item>, k: nat, n: nat) returns (e: nat)
    requires k + n < |items| && items[k].kind == LinkTextStart
    requires n == 1 || n == 3 || n == 4 || n == 6
    requires n == 1 ==> items[k + 1].kind != LinkText
    requires n >= 3 ==> items[k + 1].kind == LinkText
    requires n == 3 ==> items[k + 3].kind != LinkURLStart
    requires n >= 4 ==> items[k + 3].kind == LinkURLStart
    requires n == 4 ==> items[k + 4].kind != LinkURL
    requires n == 6 ==> items[k + 4].kind == LinkURL
    ensures e == k + n && ParseLink(items[k..]).rest == items[e..]
  {
    var ts := items[k..];
    assert ts[1] == items[k + 1];
    if n >= 3 {
      assert ts[3] == items[k + 3];
    }
    if n >= 4 {
      assert ts[4] == items[k + 4];
    }
    e := k + n;
    assert Skip(ts, n) == items[e..];
  }

  // One step of either loop over a link or a header, in the form the
  // walks below use.

  lemma HeaderLinkStep(it: Item, r: seq<Item>)
    requires it.kind == LinkTextStart
    ensures var p := ParseLink([it] + r);
      HeaderBody([it] + r) == PrependHeader(p.out, HeaderBody(p.rest))
  {
    ConverterFacts.Cons(it, r);
  }

  lemma TopLinkStep(it: Item, r: seq<Item>)
    requires it.kind == LinkTextStart
    ensures var p := ParseLink([it] + r);
      ParseItems([it] + r) == Prepend(p.out, ParseItems(p.rest))
  {
    ConverterFacts.Cons(it, r);
  }

  lemma TopHeaderStep(it: Item, r: seq<Item>)
    requires it.kind == Header
    ensures var h := ParseHeader(r);
      && (h.HeaderFailed? ==> ParseItems([it] + r) == Err(h.error))
      && (h.HeaderDone? ==> ParseItems([it] + r) == Prepend(h.out, ParseItems(h.rest)))
  {
    ConverterFacts.Cons(it, r);
  }

  lemma HeaderErrorStep(it: Item, r: seq<Item>)
    requires it.kind == Error
    ensures HeaderBody([it] + r) == HeaderFailed(Unexpected(it))
  {
    ConverterFacts.Cons(it, r);
  }

  /** What the header loop does from `j` to the position `e` it moves to,
      when both loops agree on failure and on where they stop. */
  predicate SameHeader(h: HeaderResult, g: HeaderResult) {
    && (h.HeaderFailed? <==> g.HeaderFailed?)
    && (h.HeaderFailed? ==> h == g)
    && (h.HeaderDone? ==> h.rest == g.rest)
  }

  /** What a header loop result `h`, begun at position `j` of a scan, says
      about the scan: a failure carries the first `Bad` item at or after
      `j`, and that item is an error item; a success hands back a top-level
      position `e` at or after `j` with the same first `Bad` item ahead. */
  predicate HeaderEnds(items: seq<Item>, j: nat, h: HeaderResult)
    requires j <= |items|
  {
    && (h.HeaderFailed? ==>
          FirstBad(items, j) < |items| && h.error == Unexpected(items[FirstBad(items, j)])
          && items[FirstBad(items, j)].kind == Error)
    && (h.HeaderDone? ==>
          var e := |items| - |h.rest|;
          j <= e && items[e..] == h.rest && TopAt(items, e) && FirstBad(items, e) == FirstBad(items, j))
  }

  /** `HeaderEnds` carries over between results that end alike. */
  lemma HeaderEndsSame(items: seq<Item>, j: nat, h: HeaderResult, g: HeaderResult)
    requires j <= |items| && SameHeader(h, g) && HeaderEnds(items, j, g)
    ensures HeaderEnds(items, j, h)
  {
  }

  /** The header loop goes past an escape, text, emphasis or a link to a
      header position `e`, stepping over no `Bad` item, and ends as it ends
      from there. */
  lemma HeaderAdvance(items: seq<Item>, j: nat) returns (e: nat)
    requires Scanned(items) && InHeader(items, j)
    requires HeaderKind(items[j].kind) && items[j].kind != EOF && items[j].kind != EOL
    ensures j < e && InHeader(items, e)
    ensures FirstBad(items, e) == FirstBad(items, j)
    ensures SameHeader(HeaderBody(items[j..]), HeaderBody(items[e..]))
  {
    if items[j].kind == LinkTextStart {
      e := HeaderOverLink(items, j);
    } else if items[j].kind == Esc || items[j].kind == Text {
      e := HeaderOverText(items, j);
    } else {
      e := HeaderOverMarker(items, j);
    }
  }

  lemma HeaderOverLink(items: seq<Item>, j: nat) returns (e: nat)
    requires Scanned(items) && InHeader(items, j) && items[j].kind == LinkTextStart
    ensures j < e && InHeader(items, e)
    ensures FirstBad(items, e) == FirstBad(items, j)
    ensures SameHeader(HeaderBody(items[j..]), HeaderBody(items[e..]))
  {
    assert items[j..] == [items[j]] + items[j + 1..];
    e := LinkEnd(items, j);
    HeaderLinkStep(items[j], items[j + 1..]);
  }

  lemma HeaderOverText(items: seq<Item>, j: nat) returns (e: nat)
    requires Scanned(items) && InHeader(items, j) && (items[j].kind == Esc || items[j].kind == Text)
    ensures j < e && InHeader(items, e)
    ensures FirstBad(items, e) == FirstBad(items, j)
    ensures SameHeader(HeaderBody(items[j..]), HeaderBody(items[e..]))
  {
    assert items[j..] == [items[j]] + items[j + 1..];
    NextOutsideLink(items, j);
    HeaderFacts.HeaderStep(items[j], items[j + 1..]);
    e := j + 1;
  }

  lemma HeaderOverMarker(items: seq<Item>, j: nat) returns (e: nat)
    requires Scanned(items) && InHeader(items, j) && (items[j].kind == Star || items[j].kind == Underscore)
    ensures j < e && InHeader(items, e)
    ensures FirstBad(items, e) == FirstBad(items, j)
    ensures SameHeader(HeaderBody(items[j..]), HeaderBody(items[e..]))
  {
    var r := items[j + 1..];
    assert items[j..] == [items[j]] + r;
    NextOutsideLink(items, j);
    HeaderFacts.HeaderMarkerStep(items[j], r);
    if Next(r).kind == items[j].kind {
      assert Drop(r) == items[j + 2..];
      NextOutsideLink(items, j + 1);
      e := j + 2;
    } else {
      e := j + 1;
    }
  }

  /** The header loop on a scan fails only at the first `Bad` item, which
      can only be an error item there; otherwise it hands the top-level loop
      a position with the same first `Bad` item ahead. */
  lemma {:induction false} HeaderWalk(items: seq<Item>, j: nat)
    requires Scanned(items) && InHeader(items, j)
    ensures HeaderEnds(items, j, HeaderBody(items[j..]))
    decreases |items| - j, 1
  {
    if items[j].kind == EOF || items[j].kind == EOL {
      HeaderLineEnd(items, j);
    } else if HeaderKind(items[j].kind) {
      var e := HeaderAdvance(items, j);
      HeaderStep(items, j, e);
      HeaderEndsSame(items, j, HeaderBody(items[j..]), HeaderBody(items[e..]));
    } else {
      HeaderError(items, j);
    }
  }

  /** The header loop stops at the end of the input, which it leaves for
      the top-level loop, and at a line end, which it consumes. */
  lemma HeaderLineEnd(items: seq<Item>, j: nat)
    requires Scanned(items) && InHeader(items, j)
    requires items[j].kind == EOF || items[j].kind == EOL
    ensures HeaderBody(items[j..]).HeaderDone? && HeaderEnds(items, j, HeaderBody(items[j..]))
  {
    var r := items[j + 1..];
    assert items[j..] == [items[j]] + r;
    HeaderFacts.HeaderStep(items[j], r);
    var h := HeaderBody(items[j..]);
    if items[j].kind == EOL {
      HeaderEOL(items, j);
      assert h.rest == r && |items| - |h.rest| == j + 1;
    } else {
      assert h.rest == items[j..] && |items| - |h.rest| == j;
      assert TopAt(items, j);
    }
  }

  lemma HeaderEOL(items: seq<Item>, j: nat)
    requires Scanned(items) && InHeader(items, j) && items[j].kind == EOL
    ensures var e := j + 1;
      e < |items| && TopAt(items, e) && FirstBad(items, e) == FirstBad(items, j)
  {
    NextOutsideLink(items, j);
    FirstBadStep(items, j);
  }

  /** Any other item in a header position is an error item, and the header
      loop fails on it. */
  lemma HeaderError(items: seq<Item>, j: nat)
    requires Scanned(items) && InHeader(items, j)
    requires !HeaderKind(items[j].kind)
    ensures items[j].kind == Error && FirstBad(items, j) == j
    ensures HeaderBody(items[j..]) == HeaderFailed(Unexpected(items[j]))
  {
    ScannedAt(items, j - 1);
    assert items[j..] == [items[j]] + items[j + 1..];
    HeaderErrorStep(items[j], items[j + 1..]);
  }

  /** The header loop resumed at `e`, past items that are not `Bad`. */
  lemma {:induction false} HeaderStep(items: seq<Item>, j: nat, e: nat)
    requires Scanned(items) && j < e && InHeader(items, e)
    requires FirstBad(items, e) == FirstBad(items, j)
    ensures HeaderEnds(items, j, HeaderBody(items[e..]))
    decreases |items| - j, 0
  {
    HeaderWalk(items, e);
  }

  // ---------------------------------------------------------------------
  // The top-level loop
  // ---------------------------------------------------------------------

  /** Both walks fail alike, with the same error. */
  predicate SameTop(r: Result<string>, q: Result<string>) {
    (r.Err? <==> q.Err?) && (r.Err? ==> r == q)
  }

  /** One step of the top-level loop over an item it copies or rewrites. */
  lemma TopPlainStep(it: Item, r: seq<Item>)
    requires TopPlain(it.kind)
    ensures SameTop(ParseItems([it] + r), ParseItems(r))
  {
    ConverterFacts.Cons(it, r);
  }

  /** The top-level loop goes past an item it copies or rewrites, emphasis
      or a link, to a top-level position `e`, stepping over no `Bad` item,
      and fails as it fails from there. */
  lemma TopAdvance(items: seq<Item>, k: nat) returns (e: nat)
    requires Scanned(items) && TopAt(items, k)
    requires TopPlain(items[k].kind) || items[k].kind == Star || items[k].kind == Underscore || items[k].kind == LinkTextStart
    ensures k < e && TopAt(items, e)
    ensures FirstBad(items, e) == FirstBad(items, k)
    ensures SameTop(ParseItems(items[k..]), ParseItems(items[e..]))
  {
    if items[k].kind == LinkTextStart {
      e := TopOverLink(items, k);
    } else if items[k].kind == Star || items[k].kind == Underscore {
      e := TopOverMarker(items, k);
    } else {
      e := TopOverPlain(items, k);
    }
  }

  lemma TopOverPlain(items: seq<Item>, k: nat) returns (e: nat)
    requires Scanned(items) && TopAt(items, k)
    requires TopPlain(items[k].kind)
    ensures k < e && TopAt(items, e)
    ensures FirstBad(items, e) == FirstBad(items, k)
    ensures SameTop(ParseItems(items[k..]), ParseItems(items[e..]))
  {
    assert items[k..] == [items[k]] + items[k + 1..];
    NextOutsideLink(items, k);
    FirstBadStep(items, k);
    TopPlainStep(items[k], items[k + 1..]);
    e := k + 1;
  }

  lemma TopOverMarker(items: seq<Item>, k: nat) returns (e: nat)
    requires Scanned(items) && TopAt(items, k) && (items[k].kind == Star || items[k].kind == Underscore)
    ensures k < e && TopAt(items, e)
    ensures FirstBad(items, e) == FirstBad(items, k)
    ensures SameTop(ParseItems(items[k..]), ParseItems(items[e..]))
  {
    var r := items[k + 1..];
    assert items[k..] == [items[k]] + r;
    NextOutsideLink(items, k);
    FirstBadStep(items, k);
    ConverterFacts.ParseMarker(items[k], r);
    if Next(r).kind == items[k].kind {
      assert Drop(r) == items[k + 2..];
      NextOutsideLink(items, k + 1);
      FirstBadStep(items, k + 1);
      e := k + 2;
    } else {
      e := k + 1;
    }
  }

  lemma TopOverLink(items: seq<Item>, k: nat) returns (e: nat)
    requires Scanned(items) && TopAt(items, k) && items[k].kind == LinkTextStart
    ensures k < e && TopAt(items, e)
    ensures FirstBad(items, e) == FirstBad(items, k)
    ensures SameTop(ParseItems(items[k..]), ParseItems(items[e..]))
  {
    assert items[k..] == [items[k]] + items[k + 1..];
    e := LinkEnd(items, k);
    TopLinkStep(items[k], items[k + 1..]);
  }

  /** What the header loop does from the item after a top-level header. */
  lemma HeaderFromTop(items: seq<Item>, k: nat)
    requires Scanned(items) && TopAt(items, k) && items[k].kind == Header
    ensures k + 1 < |items| && FirstBad(items, k + 1) == FirstBad(items, k)
    ensures HeaderEnds(items, k + 1, ParseHeader(items[k + 1..]))
  {
    NextOutsideLink(items, k);
    FirstBadStep(items, k);
    HeaderWalk(items, k + 1);
    HeaderEndsSame(items, k + 1, ParseHeader(items[k + 1..]), HeaderBody(items[k + 1..]));
  }

  /** A header on the top level: the header loop either fails at the first
      `Bad` item, or hands back a top-level position `e` from which the
      top-level loop fails as it fails from `k`. */
  lemma TopOverHeader(items: seq<Item>, k: nat) returns (e: nat)
    requires Scanned(items) && TopAt(items, k) && items[k].kind == Header
    ensures ParseHeader(items[k + 1..]).HeaderFailed? ==>
      FirstBad(items, k) < |items| && ParseItems(items[k..]) == Err(Unexpected(items[FirstBad(items, k)]))
    ensures ParseHeader(items[k + 1..]).HeaderDone? ==>
      && k < e && TopAt(items, e)
      && FirstBad(items, e) == FirstBad(items, k)
      && SameTop(ParseItems(items[k..]), ParseItems(items[e..]))
  {
    var r := items[k + 1..];
    assert items[k..] == [items[k]] + r;
    HeaderFromTop(items, k);
    TopHeaderStep(items[k], r);
    var h := ParseHeader(r);
    if h.HeaderDone? {
      e := |items| - |h.rest|;
      assert items[e..] == h.rest;
    } else {
      e := k + 1;
    }
  }

  /** The top-level loop on a scan fails exactly at the first `Bad` item
      when no escape comes before it, and never anywhere else. */
  lemma {:induction false} TopWalk(items: seq<Item>, k: nat)
    requires Scanned(items) && TopAt(items, k)
    ensures var r := ParseItems(items[k..]); var j := FirstBad(items, k);
      && (r.Err? ==> j < |items| && r.error == Unexpected(items[j]))
      && (j < |items| && NoEsc(items, k, j) ==> r == Err(Unexpected(items[j])))
    decreases |items| - k, 1
  {
    var kind := items[k].kind;
    if kind == EOF || kind == Esc {
      TopStop(items, k);
    } else if Bad(kind) {
      TopBad(items, k);
    } else if kind == Header {
      var e := TopOverHeader(items, k);
      if ParseHeader(items[k + 1..]).HeaderDone? {
        TopStep(items, k, e);
      }
    } else {
      var e := TopAdvance(items, k);
      TopStep(items, k, e);
    }
  }

  /** The top-level loop resumed at `e`, with the same first `Bad` item. */
  lemma {:induction false} TopStep(items: seq<Item>, k: nat, e: nat)
    requires Scanned(items) && k < e && TopAt(items, e)
    requires FirstBad(items, e) == FirstBad(items, k)
    ensures var r := ParseItems(items[e..]); var j := FirstBad(items, k);
      && (r.Err? ==> j < |items| && r.error == Unexpected(items[j]))
      && (j < |items| && NoEsc(items, k, j) ==> r == Err(Unexpected(items[j])))
    decreases |items| - k, 0
  {
    TopWalk(items, e);
  }

  /** The end of input and an escape end the walk successfully; no `Bad`
      item lies beyond the end, and an escape cannot precede one without
      being an escape before it. */
  lemma TopStop(items: seq<Item>, k: nat)
    requires Scanned(items) && TopAt(items, k) && (items[k].kind == EOF || items[k].kind == Esc)
    ensures ParseItems(items[k..]).Ok?
    ensures !(FirstBad(items, k) < |items| && NoEsc(items, k, FirstBad(items, k)))
  {
    assert items[k..] == [items[k]] + items[k + 1..];
    ConverterFacts.ParseStep(items[k], items[k + 1..]);
    ScannedAt(items, k);
    FirstBadStep(items, k);
    if items[k].kind == EOF {
      assert FirstBad(items, k + 1) == |items|;
    }
  }

  /** A `Bad` item on the top level is refused with that item. */
  lemma TopBad(items: seq<Item>, k: nat)
    requires TopAt(items, k) && Bad(items[k].kind)
    ensures FirstBad(items, k) == k
    ensures ParseItems(items[k..]) == Err(Unexpected(items[k]))
  {
    assert items[k..] == [items[k]] + items[k + 1..];
    ConverterCases.ParseOther(items[k], items[k + 1..]);
  }

  // ---------------------------------------------------------------------
  // The whole conversion
  // ---------------------------------------------------------------------

  /** A failed `Parse` carries the first error item (an unclosed code
      block, link text or link target) or block quote of the scan; no
      other item kind ever reaches the error path.  Conversely, when no
      escape item at all comes before that first item, `Parse` does fail
      with it, and a scan with neither kind converts successfully.  The
      converse says nothing about a scan with an escape before the first
      bad item, even one inside a header, where the escape is dropped
      and the walk goes on. */
  lemma ParseFailure(s: string)
    ensures var items := Lex(s); var j := FirstBad(items, 0);
      && (Parse(s).Err? ==>
            && j < |items| && Parse(s).error == Unexpected(items[j])
            && Bad(items[j].kind)
            && forall i | 0 <= i < j :: !Bad(items[i].kind))
      && (j < |items| && NoEsc(items, 0, j) ==> Parse(s) == Err(Unexpected(items[j])))
      && (j == |items| ==> Parse(s).Ok?)
  {
    var items := Lex(s);
    ScanIsScanned(s);
    assert items[0..] == items;
    assert TopAt(items, 0);
    TopWalk(items, 0);
    FirstBadFirst(items, 0);
  }
}
