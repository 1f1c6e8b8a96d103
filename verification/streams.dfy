/** The properties of a scanned item stream: what the scanner of
    pkg/markdown/lex.go promises about every stream it produces. */
module Streams {
  import opened Tokens
  import opened Scanner

  predicate NoLineEnd(v: string) {
    forall k | 0 <= k < |v| :: !IsLineEnd(v[k])
  }

  predicate IsHeaderMarker(v: string) {
    && 2 <= |v| <= 7
    && v[|v| - 1] == ' '
    && (forall k | 0 <= k < |v| - 1 :: v[k] == '#')
  }

  /** What the value of an item of each kind looks like. */
  ghost predicate Shaped(it: Item, s: string) {
    match it.kind
    case Text => |it.val| > 0 && forall k | 0 <= k < |it.val| :: !IsTextStop(it.val[k])
    case EOL =>
      || it.val == "\n" || it.val == "\r\n"
      || (it.val == "\r" && !HasPrefixAt(s, it.pos + 1, "\n"))
    case Header => IsHeaderMarker(it.val)
    case CodeStart | CodeFinish => it.val == CodeFence
    case CodeLang => NoLineEnd(it.val)
    case Code => 2 <= |it.val| && IsLineEnd(it.val[0]) && it.val[|it.val| - 1] == '\n'
    case LinkTextStart => it.val == "["
    case LinkText => forall k | 0 <= k < |it.val| :: it.val[k] != ']'
    case LinkTextFinish => it.val == "]"
    case LinkURLStart => it.val == "("
    case LinkURL => forall k | 0 <= k < |it.val| :: it.val[k] != ')'
    case LinkURLFinish => it.val == ")"
    case BlockQuote => it.val == ">"
    case Bullet => it.val == BulletMarker
    case Star => it.val == "*"
    case Underscore => it.val == "_"
    case Esc => it.val == "\\"
    case EOF => it.val == ""
    case Error => it.val == UnclosedCode || it.val == UnclosedLinkText || it.val == UnclosedLinkURL
  }

  /** Kinds the scanner only recognises at the start of a line. */
  predicate LineStartKind(k: Kind) {
    k == Header || k == CodeStart || k == BlockQuote || k == Bullet
  }

  /** Kinds the scanner only emits right after one particular kind: the
      parts of a link after its `[`, and the parts of a code block after
      its opening fence. */
  predicate Follower(k: Kind) {
    k in {LinkText, LinkTextFinish, LinkURLStart, LinkURL, LinkURLFinish, CodeLang, Code, CodeFinish}
  }

  /** Kinds that may open a run of text: neither a line-start kind nor a
      follower. */
  predicate Opening(k: Kind) {
    !LineStartKind(k) && !Follower(k)
  }

  /** An item of kind `b` may come right after one of kind `a`: a line-start
      item only after a line end, each later part of a link or code block
      only after the part before it, and link text and a link target are
      always closed by their bracket. */
  predicate Follows(a: Kind, b: Kind) {
    && (LineStartKind(b) ==> a == EOL)
    && (b == LinkText ==> a == LinkTextStart)
    && (b == LinkTextFinish ==> a == LinkText)
    && (b == LinkURLStart ==> a == LinkTextFinish)
    && (b == LinkURL ==> a == LinkURLStart)
    && (b == LinkURLFinish ==> a == LinkURL)
    && (b == CodeLang ==> a == CodeStart)
    && (b == Code ==> a == CodeLang)
    && (b == CodeFinish ==> a == Code)
    && (a == LinkText ==> b == LinkTextFinish)
    && (a == LinkURL ==> b == LinkURLFinish)
  }

  /** The item does not fit at offset `start` of `s`: it starts elsewhere,
      its value lacks the shape its kind promises, an end-of-input item is
      not at the end of the input, or any other item's value is not the
      slice of the input that starts there. */
  ghost predicate Misfit(it: Item, s: string, start: nat) {
    || start > |s|
    || it.pos != start
    || !Shaped(it, s)
    || (it.kind == EOF && start != |s|)
    || (!Terminal(it) && (start + |it.val| > |s| || s[start..start + |it.val|] != it.val))
  }

  /** A stream read from `s[start..]` breaks one of the scanner's rules:
      some item does not fit where the previous one ended; an end-of-input
      or error item is not the last one; the stream stops without one; or a
      item follows one it may not follow. */
  ghost predicate Breaks(items: seq<Item>, s: string, start: nat)
    decreases |items|
  {
    || |items| == 0
    || Misfit(items[0], s, start)
    || (Terminal(items[0]) && |items| != 1)
    || (!Terminal(items[0]) &&
          (|| |items| == 1
           || !Follows(items[0].kind, items[1].kind)
           || Breaks(items[1..], s, start + |items[0].val|)))
  }

  /** Everything the scanner promises about a stream read from `s[start..]`. */
  ghost predicate Sound(items: seq<Item>, s: string, start: nat) {
    !Breaks(items, s, start)
  }
}
