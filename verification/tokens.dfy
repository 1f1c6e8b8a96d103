/** Items produced by the markdown scanner and consumed by the converter
    (the `item` / `itemType` pair of pkg/markdown/lex.go). */
module Tokens {

  /** The kinds of scanned items, in the order of the source enumeration. */
  datatype Kind =
    | Error | EOF | EOL | Text | Header
    | CodeStart | Code | CodeFinish | CodeLang
    | LinkTextStart | LinkText | LinkTextFinish
    | LinkURLStart | LinkURL | LinkURLFinish
    | BlockQuote | Bullet | Star | Underscore | Esc

  /** One scanned item: its kind, the byte offset where it starts, and the
      exact slice of the input it covers (for an error item: the message). */
  datatype Item = Item(kind: Kind, pos: nat, val: string)

  /** The zero item; receiving from the scanner after it has finished yields it. */
  const Zero := Item(Error, 0, "")

  /** The scan stops after an end-of-input or an error item. */
  predicate Terminal(it: Item) {
    it.kind == EOF || it.kind == Error
  }

  /** Concatenation of the values of a sequence of items. */
  function Values(items: seq<Item>): string {
    if |items| == 0 then "" else items[0].val + Values(items[1..])
  }

  lemma {:induction false} ValuesAppend(a: seq<Item>, b: seq<Item>)
    ensures Values(a + b) == Values(a) + Values(b)
    decreases |a|
  {
    if |a| == 0 {
      assert a + b == b;
    } else {
      assert (a + b)[1..] == a[1..] + b;
      ValuesAppend(a[1..], b);
    }
  }

  lemma ValuesSnoc(a: seq<Item>, it: Item)
    ensures Values(a + [it]) == Values(a) + it.val
  {
    ValuesAppend(a, [it]);
    assert Values([it]) == it.val + Values([]);
  }
}
