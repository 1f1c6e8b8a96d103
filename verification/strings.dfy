/** The few functions of Go's `strings` package that the modelled code calls,
    over strings as sequences of characters. */
module Strings {

  /** `strings.HasPrefix`. */
  predicate HasPrefix(s: string, prefix: string) {
    |prefix| <= |s| && s[..|prefix|] == prefix
  }

  /** `strings.ReplaceAll(s, [c], rep)`: every occurrence of `c` replaced by `rep`. */
  function ReplaceChar(s: string, c: char, rep: string): (r: string)
    ensures c !in rep ==> c !in r
    ensures c !in s ==> r == s
  {
    if |s| == 0 then ""
    else (if s[0] == c then rep else [s[0]]) + ReplaceChar(s[1..], c, rep)
  }

  /** Every character of the result comes from the input or from `rep`. */
  lemma {:induction false} ReplaceCharFrom(s: string, c: char, rep: string, x: char)
    requires x in ReplaceChar(s, c, rep)
    ensures x in s || x in rep
    decreases |s|
  {
    var head := if s[0] == c then rep else [s[0]];
    if x !in head {
      ReplaceCharFrom(s[1..], c, rep, x);
    }
  }

  /** Replacement works piece by piece. */
  lemma {:induction false} ReplaceCharAppend(a: string, b: string, c: char, rep: string)
    ensures ReplaceChar(a + b, c, rep) == ReplaceChar(a, c, rep) + ReplaceChar(b, c, rep)
    decreases |a|
  {
    if |a| == 0 {
      assert a + b == b;
    } else {
      var h := if a[0] == c then rep else [a[0]];
      ReplaceCharCons(a, b, c, rep, h);
      ReplaceCharAppend(a[1..], b, c, rep);
      var x, y := ReplaceChar(a[1..], c, rep), ReplaceChar(b, c, rep);
      Assoc(h, x, y);
    }
  }

  lemma Assoc(h: string, x: string, y: string)
    ensures h + (x + y) == (h + x) + y
  {
  }

  /** One step of the replacement on `a` and on `a + b`. */
  lemma ReplaceCharCons(a: string, b: string, c: char, rep: string, h: string)
    requires |a| > 0 && h == if a[0] == c then rep else [a[0]]
    ensures ReplaceChar(a, c, rep) == h + ReplaceChar(a[1..], c, rep)
    ensures ReplaceChar(a + b, c, rep) == h + ReplaceChar(a[1..] + b, c, rep)
  {
    assert (a + b)[0] == a[0] && (a + b)[1..] == a[1..] + b;
  }

  /** Number of occurrences of `c` in `s`. */
  function Count(s: string, c: char): nat {
    if |s| == 0 then 0 else (if s[0] == c then 1 else 0) + Count(s[1..], c)
  }

  /** `unicode.IsSpace`: the Latin-1 white space characters and the Unicode
      `White_Space` property outside Latin-1. */
  predicate IsSpace(c: char) {
    c == '\t' || c == '\n' || c == '\U{000B}' || c == '\U{000C}' || c == '\r' || c == ' '
    || c == '\U{0085}' || c == '\U{00A0}' || c == '\U{1680}'
    || ('\U{2000}' <= c <= '\U{200A}')
    || c == '\U{2028}' || c == '\U{2029}' || c == '\U{202F}' || c == '\U{205F}' || c == '\U{3000}'
  }

  /** Number of leading characters satisfying `f`. */
  function LeadCount(s: string, f: char -> bool): (n: nat)
    ensures n <= |s|
    ensures n < |s| ==> !f(s[n])
  {
    if |s| == 0 || !f(s[0]) then 0 else 1 + LeadCount(s[1..], f)
  }

  lemma {:induction false} LeadSpan(s: string, f: char -> bool)
    ensures forall i | 0 <= i < LeadCount(s, f) :: f(s[i])
    decreases |s|
  {
    if |s| > 0 && f(s[0]) {
      LeadSpan(s[1..], f);
      assert forall i | 1 <= i < LeadCount(s, f) :: s[i] == s[1..][i - 1];
    }
  }

  /** Number of trailing characters satisfying `f`. */
  function TrailCount(s: string, f: char -> bool): (n: nat)
    ensures n <= |s|
    ensures n < |s| ==> !f(s[|s| - n - 1])
  {
    if |s| == 0 || !f(s[|s| - 1]) then 0 else 1 + TrailCount(s[..|s| - 1], f)
  }

  /** `strings.TrimFunc`: drop the leading and the trailing characters
      satisfying `f`. */
  function TrimFunc(s: string, f: char -> bool): (r: string)
    ensures |r| <= |s|
    ensures |r| > 0 ==> !f(r[0]) && !f(r[|r| - 1])
  {
    var lead := LeadCount(s, f);
    if lead == |s| then ""
    else
      var rest := s[lead..];
      var trail := TrailCount(rest, f);
      rest[..|rest| - trail]
  }

  /** Whatever surrounds a core that starts and ends with a kept character,
      if it consists of trimmed characters only, is exactly what is trimmed. */
  lemma TrimFuncUnique(a: string, m: string, b: string, f: char -> bool)
    requires forall k | 0 <= k < |a| :: f(a[k])
    requires forall k | 0 <= k < |b| :: f(b[k])
    requires |m| > 0 ==> !f(m[0]) && !f(m[|m| - 1])
    ensures TrimFunc(a + m + b, f) == m
  {
    assert a + m + b == a + (m + b);
    LeadOver(a, m + b, f);
    if |m| > 0 {
      TrimCore(a, m, b, f);
    } else {
      assert a + m + b == a + b;
      LeadOver(a, b, f);
      AllLead(b, f);
    }
  }

  /** With a non-empty core, what is left after the leading run is the core
      and the trailing run. */
  lemma TrimCore(a: string, m: string, b: string, f: char -> bool)
    requires forall k | 0 <= k < |b| :: f(b[k])
    requires |m| > 0 && !f(m[0]) && !f(m[|m| - 1])
    requires LeadCount(a + m + b, f) == |a|
    ensures TrimFunc(a + m + b, f) == m
  {
    Middle(a, m, b);
    TrailOver(m, b, f);
    TrimBetween(a + m + b, f, |a|, |b|);
  }

  lemma Middle(a: string, m: string, b: string)
    ensures (a + m + b)[|a|..] == m + b
    ensures (a + m + b)[|a|..|a + m + b| - |b|] == m
  {
  }

  /** What trimming keeps, given the lengths of the two trimmed runs. */
  lemma TrimBetween(s: string, f: char -> bool, lead: nat, trail: nat)
    requires LeadCount(s, f) == lead < |s|
    requires TrailCount(s[lead..], f) == trail
    ensures lead + trail <= |s| && TrimFunc(s, f) == s[lead..|s| - trail]
  {
  }

  lemma {:induction false} LeadOver(a: string, t: string, f: char -> bool)
    requires forall k | 0 <= k < |a| :: f(a[k])
    ensures LeadCount(a + t, f) == |a| + LeadCount(t, f)
    decreases |a|
  {
    if |a| > 0 {
      assert (a + t)[1..] == a[1..] + t;
      LeadOver(a[1..], t, f);
    } else {
      assert a + t == t;
    }
  }

  lemma {:induction false} AllLead(t: string, f: char -> bool)
    requires forall k | 0 <= k < |t| :: f(t[k])
    ensures LeadCount(t, f) == |t|
    decreases |t|
  {
    if |t| > 0 {
      AllLead(t[1..], f);
    }
  }

  lemma {:induction false} TrailOver(m: string, b: string, f: char -> bool)
    requires forall k | 0 <= k < |b| :: f(b[k])
    requires |m| > 0 && !f(m[|m| - 1])
    ensures TrailCount(m + b, f) == |b|
    decreases |b|
  {
    if |b| > 0 {
      assert (m + b)[..|m + b| - 1] == m + b[..|b| - 1];
      TrailOver(m, b[..|b| - 1], f);
    } else {
      assert m + b == m;
    }
  }

  /** Trimming twice trims nothing more. */
  lemma TrimFuncIdempotent(s: string, f: char -> bool)
    ensures TrimFunc(TrimFunc(s, f), f) == TrimFunc(s, f)
  {
    var r := TrimFunc(s, f);
    TrimFuncUnique("", r, "", f);
    assert "" + r + "" == r;
  }

  /** `strings.TrimSpace`. */
  function TrimSpace(s: string): (r: string)
    ensures |r| > 0 ==> !IsSpace(r[0]) && !IsSpace(r[|r| - 1])
  {
    TrimFunc(s, IsSpace)
  }

  /** `strings.Trim(s, cutset)`. */
  function Trim(s: string, cutset: string): (r: string)
    ensures |r| > 0 ==> r[0] !in cutset && r[|r| - 1] !in cutset
  {
    TrimFunc(s, c => c in cutset)
  }

  /** `strings.Split(s, [sep])`: the maximal pieces between separators; the
      result is never empty, and an empty `s` gives one empty piece. */
  function Split(s: string, sep: char): (parts: seq<string>)
    ensures |parts| > 0
    decreases |s|
  {
    if sep !in s then [s]
    else
      var i := IndexOf(s, sep);
      [s[..i]] + Split(s[i + 1..], sep)
  }

  /** First index of `c` in `s`. */
  function IndexOf(s: string, c: char): (i: nat)
    requires c in s
    ensures i < |s| && s[i] == c && c !in s[..i]
  {
    if s[0] == c then 0 else 1 + IndexOf(s[1..], c)
  }

  /** `strings.Join(parts, [sep])`. */
  function Join(parts: seq<string>, sep: char): (s: string)
  {
    if |parts| == 0 then ""
    else if |parts| == 1 then parts[0]
    else parts[0] + [sep] + Join(parts[1..], sep)
  }

  /** No piece of a split holds the separator. */
  lemma {:induction false} SplitPieces(s: string, sep: char)
    ensures forall i | 0 <= i < |Split(s, sep)| :: sep !in Split(s, sep)[i]
    decreases |s|
  {
    if sep in s {
      var i := IndexOf(s, sep);
      SplitPieces(s[i + 1..], sep);
    }
  }

  /** Joining the pieces of a split gives back the input. */
  lemma {:induction false} JoinSplit(s: string, sep: char)
    ensures Join(Split(s, sep), sep) == s
    decreases |s|
  {
    if sep in s {
      var i := IndexOf(s, sep);
      JoinSplit(s[i + 1..], sep);
      assert s == s[..i] + [sep] + s[i + 1..];
    }
  }

  /** Splitting a join of separator-free pieces gives back the pieces. */
  lemma {:induction false} SplitJoin(parts: seq<string>, sep: char)
    requires |parts| > 0
    requires forall i | 0 <= i < |parts| :: sep !in parts[i]
    ensures Split(Join(parts, sep), sep) == parts
    decreases |parts|
  {
    if |parts| > 1 {
      SplitJoin(parts[1..], sep);
      SplitCons(parts[0], sep, Join(parts[1..], sep));
      assert parts == [parts[0]] + parts[1..];
    }
  }

  /** A separator-free piece, the separator, and the rest split apart. */
  lemma SplitCons(a: string, sep: char, rest: string)
    requires sep !in a
    ensures Split(a + [sep] + rest, sep) == [a] + Split(rest, sep)
  {
    var s := a + [sep] + rest;
    assert s[|a|] == sep;
    assert s[..|a|] == a;
    assert IndexOf(s, sep) == |a|;
    assert s[|a| + 1..] == rest;
  }

  /** The pieces are as long as the input less one per separator. */
  lemma {:induction false} SplitLength(s: string, sep: char)
    ensures |Join(Split(s, sep), sep)| == |s|
    ensures |Split(s, sep)| == Count(s, sep) + 1
    decreases |s|
  {
    JoinSplit(s, sep);
    if sep in s {
      var i := IndexOf(s, sep);
      SplitLength(s[i + 1..], sep);
      CountAppend(s[..i], s[i..], sep);
      CountAppend([s[i]], s[i + 1..], sep);
      assert s[i..] == [s[i]] + s[i + 1..];
      assert s == s[..i] + s[i..];
      CountAbsent(s[..i], sep);
    } else {
      CountAbsent(s, sep);
    }
  }

  lemma {:induction false} CountAppend(a: string, b: string, c: char)
    ensures Count(a + b, c) == Count(a, c) + Count(b, c)
    decreases |a|
  {
    if |a| == 0 {
      assert a + b == b;
    } else {
      assert (a + b)[1..] == a[1..] + b;
      CountAppend(a[1..], b, c);
    }
  }

  lemma {:induction false} CountAbsent(s: string, c: char)
    requires c !in s
    ensures Count(s, c) == 0
    decreases |s|
  {
    if |s| > 0 {
      assert s[0] != c;
      assert forall x | x in s[1..] :: x in s;
      CountAbsent(s[1..], c);
    }
  }
}
