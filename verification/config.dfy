/** The pure parts of pkg/config/config.go: the ignore-list input turned
    into a set of names (`strToMap`), and the boolean inputs, which are true
    when they spell "true" in any letter case.  Here a character stands
    for one rune. */
module Config {
  import opened Strings

  // ---------------------------------------------------------------------
  // The ignore list
  // ---------------------------------------------------------------------

  /** Every space-trimmed piece, each stored with `true`, as the loop of
      `strToMap` stores them one after the other. */
  function PiecesToMap(pieces: seq<string>): (m: map<string, bool>)
    ensures forall k | k in m :: m[k]
    ensures forall k :: k in m <==> exists i | 0 <= i < |pieces| :: TrimSpace(pieces[i]) == k
    decreases |pieces|
  {
    if |pieces| == 0 then map[]
    else
      var init := pieces[..|pieces| - 1];
      var m := PiecesToMap(init);
      assert forall i | 0 <= i < |init| :: init[i] == pieces[i];
      m[TrimSpace(pieces[|pieces| - 1]) := true]
  }

  /** `strToMap`: nothing for an empty input; the whole input, trimmed, when
      it does not open with `[`; otherwise the comma-separated names inside
      the brackets, each trimmed. */
  function StrToMap(s: string): (m: map<string, bool>)
    ensures forall k | k in m :: m[k]
    ensures s == "" ==> m == map[]
    ensures s != "" && !HasPrefix(s, "[") ==> m.Keys == {TrimSpace(s)}
    ensures HasPrefix(s, "[") ==>
      forall k :: k in m <==> exists i | 0 <= i < |ListPieces(s)| :: TrimSpace(ListPieces(s)[i]) == k
  {
    if s == "" then map[]
    else if !HasPrefix(s, "[") then map[TrimSpace(s) := true]
    else
      PiecesToMap(ListPieces(s))
  }

  /** The pieces of a bracketed list: outer brackets stripped, then split at
      every comma. */
  function ListPieces(s: string): (pieces: seq<string>)
    ensures |pieces| > 0
  {
    Split(Trim(s, "[]"), ',')
  }

  /** The bracketed form of a list of names. */
  function ListInput(names: seq<string>): string {
    "[" + Join(names, ',') + "]"
  }

  /** Names that survive being joined and bracketed: none holds a comma, and
      the joined text neither opens nor closes with a bracket. */
  predicate Listable(names: seq<string>) {
    && |names| > 0
    && (forall i | 0 <= i < |names| :: ',' !in names[i])
    && (|Join(names, ',')| > 0 ==> Unbracketed(Join(names, ',')))
  }

  predicate Unbracketed(t: string)
    requires |t| > 0
  {
    t[0] !in "[]" && t[|t| - 1] !in "[]"
  }

  /** Writing names as a bracketed list and reading it back gives exactly
      the trimmed names. */
  lemma ListRoundTrip(names: seq<string>)
    requires Listable(names)
    ensures forall k :: k in StrToMap(ListInput(names)) <==>
      exists i | 0 <= i < |names| :: TrimSpace(names[i]) == k
  {
    var j := Join(names, ',');
    var s := ListInput(names);
    assert HasPrefix(s, "[") by {
      assert s[..1] == "[";
    }
    TrimBrackets(j);
    SplitJoin(names, ',');
    assert ListPieces(s) == names;
  }

  /** Stripping the brackets of `[t]` gives `t` back when `t` itself is not
      bracketed at either end. */
  lemma TrimBrackets(t: string)
    requires |t| > 0 ==> Unbracketed(t)
    ensures Trim("[" + t + "]", "[]") == t
  {
    TrimFuncUnique("[", t, "]", c => c in "[]");
  }

  /** A single name that needs no trimming and does not open with `[`
      maps to itself. */
  lemma SingleName(n: string)
    requires |n| > 0 && n[0] != '[' && TrimSpace(n) == n
    ensures StrToMap(n) == map[n := true]
  {
    assert !HasPrefix(n, "[") by {
      assert n[..1][0] == n[0];
    }
  }

  // ---------------------------------------------------------------------
  // Boolean inputs
  // ---------------------------------------------------------------------

  /** `unicode.ToLower` on ASCII letters; every other character is kept. */
  function AsciiLower(c: char): (l: char)
    ensures 'A' <= c <= 'Z' ==> l as int == c as int + 32
    ensures !('A' <= c <= 'Z') ==> l == c
  {
    if 'A' <= c <= 'Z' then (c as int + 32) as char else c
  }

  /** `strings.EqualFold` for strings whose letters are ASCII: the same
      length and the same characters once upper-case letters are lowered. */
  predicate EqualFold(a: string, b: string) {
    |a| == |b| && forall i | 0 <= i < |a| :: AsciiLower(a[i]) == AsciiLower(b[i])
  }

  /** `EqualFold(v, "true")`, as `FailOnError` and `DumpEvent` are set. */
  predicate IsTrue(v: string) {
    EqualFold(v, "true")
  }

  /** Exactly the spellings of "true" in any letter case are true. */
  lemma IsTrueSpellings(v: string)
    ensures IsTrue(v) <==>
      |v| == 4 && v[0] in "tT" && v[1] in "rR" && v[2] in "uU" && v[3] in "eE"
  {
    if |v| == 4 && v[0] in "tT" && v[1] in "rR" && v[2] in "uU" && v[3] in "eE" {
      assert forall i | 0 <= i < 4 :: AsciiLower(v[i]) == AsciiLower("true"[i]);
    }
    if IsTrue(v) {
      LowerOnly(v[0], 't');
      LowerOnly(v[1], 'r');
      LowerOnly(v[2], 'u');
      LowerOnly(v[3], 'e');
    }
  }

  lemma LowerOnly(c: char, l: char)
    requires 'a' <= l <= 'z' && AsciiLower(c) == l
    ensures c == l || c as int == l as int - 32
  {
  }

  /** Folding is an equivalence: the flags do not depend on which side the
      literal is written. */
  lemma EqualFoldEquivalence(a: string, b: string, c: string)
    ensures EqualFold(a, a)
    ensures EqualFold(a, b) ==> EqualFold(b, a)
    ensures EqualFold(a, b) && EqualFold(b, c) ==> EqualFold(a, c)
  {
  }
}
