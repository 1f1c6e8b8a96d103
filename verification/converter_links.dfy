/** A link written on its own, and what the converter lets through inside
    one: the scanner takes every byte up to `]` as link text and every byte
    up to `)` as the URL, line terminators included, and the converter
    copies both into `<url|text>` unescaped. */
module ConverterLinks {
  import opened Strings
  import opened Scanner
  import opened Converter
  import opened ConverterFacts

  /** `[t](u)` and nothing else becomes `<u|t>`, tabs escaped, for any text
      without `]` and any URL without `)`. */
  lemma LinkAlone(t: string, u: string)
    requires ']' !in t && ')' !in u
    ensures Parse("[" + t + "](" + u + ")") == Ok(ReplaceChar("<" + u + "|" + t + ">", '\t', TabEscape))
  {
    var s := "[" + t + "](" + u + ")" + "";
    assert s == "[" + t + "](" + u + ")";
    LinkShape(s, t, u, "");
    var k := |t| + 1 + |u| + 2;
    assert Plain(s, k + 1) by {
      assert k + 1 == |s|;
      assert s[|s| - 1] == ')';
    }
    LinkConversion(s, |t| + 1, k);
    assert Ref(s[k + 1..]) == "";
    assert "<" + u + "|" + t + ">" + "" == "<" + u + "|" + t + ">";
  }

  /** Replacing one character keeps every other character. */
  lemma {:induction false} ReplaceCharKeeps(s: string, c: char, rep: string, x: char)
    requires x in s && x != c
    ensures x in ReplaceChar(s, c, rep)
    decreases |s|
  {
    if s[0] != x {
      ReplaceCharKeeps(s[1..], c, rep, x);
    }
  }

  /** A line break inside the link text reaches the output as a raw line
      feed: the output is not always free of line terminators. */
  lemma LinkKeepsLineFeed(t: string, u: string)
    requires ']' !in t && ')' !in u && '\n' in t
    ensures Parse("[" + t + "](" + u + ")").Ok?
    ensures '\n' in Parse("[" + t + "](" + u + ")").value
  {
    LinkAlone(t, u);
    var o := "<" + u + "|" + t + ">";
    assert '\n' in o by {
      var i :| 0 <= i < |t| && t[i] == '\n';
      assert o[|u| + 2 + i] == '\n';
    }
    ReplaceCharKeeps(o, '\t', TabEscape, '\n');
  }
}
