/** What the scanner guarantees about every item stream it produces:
    the stream is a lossless partition of the input, each item has the shape
    its kind promises, and line-start constructs only follow a line end. */
module ScannerFacts {
  import opened Tokens
  import opened Scanner
  import opened Streams
  import opened Strings

  // The scanning loops stop at the first character they look for: the
  // characters they step over are the ones they do not stop at.

  lemma {:induction false} TextStopSpan(s: string, i: nat)
    requires i <= |s|
    ensures forall k | i <= k < TextStop(s, i) :: !IsTextStop(s[k])
    decreases |s| - i
  {
    if i < |s| && !IsTextStop(s[i]) {
      TextStopSpan(s, i + 1);
    }
  }

  lemma {:induction false} FindSpan(s: string, i: nat, c: char)
    requires i <= |s|
    ensures forall k | i <= k < Find(s, i, c) :: s[k] != c
    decreases |s| - i
  {
    if i < |s| && s[i] != c {
      FindSpan(s, i + 1, c);
    }
  }

  lemma {:induction false} LineEndSpan(s: string, i: nat)
    requires i <= |s|
    ensures forall k | i <= k < LineEnd(s, i) :: !IsLineEnd(s[k])
    decreases |s| - i
  {
    if i < |s| && !IsLineEnd(s[i]) {
      LineEndSpan(s, i + 1);
    }
  }

  lemma {:induction false} HashEndSpan(s: string, i: nat)
    requires i <= |s|
    ensures forall k | i <= k < HashEnd(s, i) :: s[k] == '#'
    decreases |s| - i
  {
    if i < |s| && s[i] == '#' {
      HashEndSpan(s, i + 1);
    }
  }

  lemma {:induction false} CodeEndSpan(s: string, i: nat)
    requires i <= |s|
    ensures forall m | i <= m < CodeEnd(s, i) :: !ClosesCode(s, m)
    decreases |s| - i
  {
    if i < |s| && !ClosesCode(s, i) {
      CodeEndSpan(s, i + 1);
    }
  }

  /** Every line end in the stream is followed by exactly what the scanner
      produces for a fresh line starting after it. */
  ghost predicate Resumes(items: seq<Item>, s: string)
    decreases |items|
  {
    || |items| <= 1
    || (&& (items[0].kind == EOL ==> items[1].pos <= |s| && items[1..] == RunLine(s, items[1].pos))
        && Resumes(items[1..], s))
  }

  /** An item that covers the next slice of the input, followed by a sound
      stream from where it ends; a line end must be followed by a new line. */
  lemma ComposeOne(it: Item, r: seq<Item>, s: string, start: nat, mid: nat)
    requires !Terminal(it) && !Misfit(it, s, start) && mid == start + |it.val|
    requires Sound(r, s, mid) && Resumes(r, s)
    requires Follows(it.kind, r[0].kind)
    requires it.kind == EOL ==> mid <= |s| && r == RunLine(s, mid)
    ensures Sound([it] + r, s, start) && Resumes([it] + r, s)
  {
    ComposeSound(it, r, s, start, mid);
    assert r[0].pos == mid;
    ComposeResumes(it, r, s, mid);
  }

  /** The `Sound` half of `ComposeOne`. */
  lemma ComposeSound(it: Item, r: seq<Item>, s: string, start: nat, mid: nat)
    requires !Terminal(it) && !Misfit(it, s, start) && mid == start + |it.val|
    requires Sound(r, s, mid)
    requires Follows(it.kind, r[0].kind)
    ensures Sound([it] + r, s, start)
  {
    var items := [it] + r;
    assert items[0] == it && items[1] == r[0] && items[1..] == r;
  }

  /** The `Resumes` half of `ComposeOne`. */
  lemma ComposeResumes(it: Item, r: seq<Item>, s: string, mid: nat)
    requires |r| > 0 && r[0].pos == mid && Resumes(r, s)
    requires it.kind == EOL ==> mid <= |s| && r == RunLine(s, mid)
    ensures Resumes([it] + r, s)
  {
    var items := [it] + r;
    assert items[0] == it && items[1] == r[0] && items[1..] == r;
  }

  /** A stream that is a single terminal item. */
  lemma Single(it: Item, s: string, start: nat)
    requires Terminal(it) && !Misfit(it, s, start)
    ensures Sound([it], s, start) && Resumes([it], s)
  {
  }

  /** Both directions of `Resumes`, item by item. */
  lemma {:induction false} ResumesAt(items: seq<Item>, s: string)
    requires Resumes(items, s)
    ensures forall k | 0 <= k < |items| - 1 && items[k].kind == EOL ::
      items[k + 1].pos <= |s| && items[k + 1..] == RunLine(s, items[k + 1].pos)
    decreases |items|
  {
    if |items| > 1 {
      ResumesAt(items[1..], s);
      forall k | 1 <= k < |items| - 1 && items[k].kind == EOL
        ensures items[k + 1].pos <= |s| && items[k + 1..] == RunLine(s, items[k + 1].pos)
      {
        assert items[1..][k - 1] == items[k] && items[1..][k..] == items[k + 1..];
      }
    }
  }

  // What a sound stream is, as a whole.

  lemma {:induction false} SoundTerminal(items: seq<Item>, s: string, start: nat)
    requires Sound(items, s, start)
    ensures Terminal(items[|items| - 1])
    ensures forall k | 0 <= k < |items| - 1 :: !Terminal(items[k])
    decreases |items|
  {
    if |items| > 1 {
      SoundTerminal(items[1..], s, start + |items[0].val|);
      assert forall k | 1 <= k < |items| :: items[k] == items[1..][k - 1];
    }
  }

  lemma {:induction false} SoundShapes(items: seq<Item>, s: string, start: nat)
    requires Sound(items, s, start)
    ensures forall k | 0 <= k < |items| :: Shaped(items[k], s)
    ensures forall k | 0 < k < |items| :: Follows(items[k - 1].kind, items[k].kind)
    decreases |items|
  {
    if |items| > 1 {
      SoundShapes(items[1..], s, start + |items[0].val|);
      assert forall k | 1 <= k < |items| :: items[k] == items[1..][k - 1];
    }
  }

  lemma {:induction false} SoundPositions(items: seq<Item>, s: string, start: nat)
    requires Sound(items, s, start)
    ensures forall k | 0 <= k < |items| :: items[k].pos == start + |Values(items[..k])|
    decreases |items|
  {
    if |items| > 1 {
      var mid := start + |items[0].val|;
      SoundPositions(items[1..], s, mid);
      forall k | 1 <= k < |items| ensures items[k].pos == start + |Values(items[..k])| {
        assert items[..k] == [items[0]] + items[1..][..k - 1];
        ValuesAppend([items[0]], items[1..][..k - 1]);
        assert Values([items[0]]) == items[0].val + Values([]);
      }
    }
    assert items[..0] == [];
  }

  lemma {:induction false} SoundValues(items: seq<Item>, s: string, start: nat)
    requires Sound(items, s, start)
    ensures var n := |items|;
      && (items[n - 1].kind == EOF ==> items[n - 1].val == "" && Values(items[..n - 1]) == s[start..])
      && (items[n - 1].kind == Error ==> HasPrefix(s[start..], Values(items[..n - 1])))
    decreases |items|
  {
    if |items| == 1 {
      assert items[..0] == [];
    } else {
      var mid := start + |items[0].val|;
      SoundValues(items[1..], s, mid);
      ValuesStep(items, s, start);
    }
  }

  /** Peeling the first item off a stream whose value is the next slice. */
  lemma ValuesStep(items: seq<Item>, s: string, start: nat)
    requires |items| > 1 && start + |items[0].val| <= |s|
    requires s[start..start + |items[0].val|] == items[0].val
    ensures var v := items[0].val; var r := items[1..];
      && Values(items[..|items| - 1]) == v + Values(r[..|r| - 1])
      && s[start..] == v + s[start + |v|..]
      && (HasPrefix(s[start + |v|..], Values(r[..|r| - 1])) ==> HasPrefix(s[start..], Values(items[..|items| - 1])))
  {
    var v := items[0].val;
    var r := items[1..];
    assert items[..|items| - 1] == [items[0]] + r[..|r| - 1];
    ValuesAppend([items[0]], r[..|r| - 1]);
    assert Values([items[0]]) == v + Values([]);
    var body := Values(r[..|r| - 1]);
    if HasPrefix(s[start + |v|..], body) {
      assert (v + s[start + |v|..])[..|v| + |body|] == v + body;
    }
  }

  // Every item the scanner emits fits where it is emitted.

  /** An emitted non-terminal item fits exactly when it has its kind's shape. */
  lemma EmitFits(s: string, k: Kind, start: nat, end: nat)
    requires start <= end <= |s| && k != EOF && k != Error
    requires Shaped(Emit(s, k, start, end), s)
    ensures !Misfit(Emit(s, k, start, end), s, start)
  {
  }

  lemma EndFits(s: string)
    ensures !Misfit(Emit(s, EOF, |s|, |s|), s, |s|)
  {
  }

  lemma FailFits(s: string, start: nat, msg: string)
    requires start <= |s|
    requires msg == UnclosedCode || msg == UnclosedLinkText || msg == UnclosedLinkURL
    ensures !Misfit(Fail(start, msg), s, start)
  {
  }

  /** The one-character markers and the character each stands for. */
  predicate MarkerChar(k: Kind, c: char) {
    || (k == Star && c == '*') || (k == Underscore && c == '_') || (k == Esc && c == '\\')
    || (k == LinkTextStart && c == '[') || (k == LinkTextFinish && c == ']')
    || (k == LinkURLStart && c == '(') || (k == LinkURLFinish && c == ')')
    || (k == BlockQuote && c == '>')
  }

  lemma CharFits(s: string, j: nat, k: Kind)
    requires j < |s| && MarkerChar(k, s[j])
    ensures !Misfit(Emit(s, k, j, j + 1), s, j)
  {
    assert s[j..j + 1] == [s[j]];
    EmitFits(s, k, j, j + 1);
  }

  lemma TextFits(s: string, start: nat, j: nat)
    requires start < j <= |s| && forall k | start <= k < j :: !IsTextStop(s[k])
    ensures !Misfit(Emit(s, Text, start, j), s, start)
  {
    var v := s[start..j];
    forall k | 0 <= k < |v| ensures !IsTextStop(v[k]) {
      assert v[k] == s[start + k];
    }
    EmitFits(s, Text, start, j);
  }

  /** The link text up to `]`, or the URL up to `)`. */
  lemma SpanFits(s: string, pos: nat, k: Kind, c: char)
    requires pos <= |s| && Find(s, pos, c) < |s|
    requires (k == LinkText && c == ']') || (k == LinkURL && c == ')')
    ensures !Misfit(Emit(s, k, pos, Find(s, pos, c)), s, pos)
  {
    var v := s[pos..Find(s, pos, c)];
    FindSpan(s, pos, c);
    forall m | 0 <= m < |v| ensures v[m] != c {
      assert v[m] == s[pos + m];
    }
    EmitFits(s, k, pos, Find(s, pos, c));
  }

  lemma EOLFits(s: string, pos: nat)
    requires pos < |s| && IsLineEnd(s[pos])
    ensures !Misfit(Emit(s, EOL, pos, AfterLineEnd(s, pos)), s, pos)
  {
    var e := AfterLineEnd(s, pos);
    var v := s[pos..e];
    if e == pos + 2 {
      assert s[pos + 1..pos + 2] == [s[pos + 1]];
      assert v == "\r\n";
    } else if s[pos] == '\r' {
      assert v == "\r";
    } else {
      assert v == "\n";
    }
    EmitFits(s, EOL, pos, e);
  }

  lemma HeaderFits(s: string, pos: nat, h: nat)
    requires HasPrefixAt(s, pos, "#") && h == HashEnd(s, pos) && h - pos <= 6 && HasPrefixAt(s, h, " ")
    ensures !Misfit(Emit(s, Header, pos, h + 1), s, pos)
  {
    var v := s[pos..h + 1];
    HashEndSpan(s, pos);
    assert s[pos..pos + 1][0] == s[pos];
    assert s[h..h + 1][0] == s[h];
    assert v[|v| - 1] == s[h];
    forall m | 0 <= m < |v| - 1 ensures v[m] == '#' {
      assert v[m] == s[pos + m];
    }
    EmitFits(s, Header, pos, h + 1);
  }

  lemma BulletFits(s: string, pos: nat)
    requires HasPrefixAt(s, pos, BulletMarker)
    ensures !Misfit(Emit(s, Bullet, pos, pos + |BulletMarker|), s, pos)
  {
    EmitFits(s, Bullet, pos, pos + |BulletMarker|);
  }

  lemma FenceFits(s: string, pos: nat, k: Kind)
    requires HasPrefixAt(s, pos, CodeFence) && (k == CodeStart || k == CodeFinish)
    ensures !Misfit(Emit(s, k, pos, pos + |CodeFence|), s, pos)
  {
    EmitFits(s, k, pos, pos + |CodeFence|);
  }

  lemma LangFits(s: string, p: nat)
    requires p <= |s|
    ensures !Misfit(Emit(s, CodeLang, p, LineEnd(s, p)), s, p)
  {
    var v := s[p..LineEnd(s, p)];
    LineEndSpan(s, p);
    assert NoLineEnd(v) by {
      forall m | 0 <= m < |v| ensures !IsLineEnd(v[m]) {
        assert v[m] == s[p + m];
      }
    }
    EmitFits(s, CodeLang, p, LineEnd(s, p));
  }

  lemma CodeFits(s: string, start: nat, k: nat)
    requires start < k < |s| && IsLineEnd(s[start]) && ClosesCode(s, k)
    ensures !Misfit(Emit(s, Code, start, k + 1), s, start)
  {
    var v := s[start..k + 1];
    assert v[0] == s[start] && v[|v| - 1] == s[k];
    EmitFits(s, Code, start, k + 1);
  }

  // The induction over the state machine: every state function, entered
  // with what its caller guarantees, produces a sound stream, and only the
  // line-start states can produce a line-start item first.

  lemma {:induction false} LineSound(s: string, pos: nat)
    requires pos <= |s|
    ensures Sound(RunLine(s, pos), s, pos) && Resumes(RunLine(s, pos), s)
    ensures !Follower(RunLine(s, pos)[0].kind)
    decreases |s| - pos, 8
  {
    if HasPrefixAt(s, pos, "#") {
      HeaderSound(s, pos);
    } else if HasPrefixAt(s, pos, CodeFence) {
      CodeStartSound(s, pos);
    } else if HasPrefixAt(s, pos, ">") {
      assert s[pos..pos + 1][0] == s[pos];
      CharFits(s, pos, BlockQuote);
      MarkerSound(s, pos, BlockQuote, 1);
    } else if HasPrefixAt(s, pos, BulletMarker) {
      BulletFits(s, pos);
      MarkerSound(s, pos, Bullet, |BulletMarker|);
    } else {
      TextSound(s, pos, pos);
    }
  }

  lemma {:induction false} TextSound(s: string, start: nat, pos: nat)
    requires start <= pos <= |s|
    requires forall k | start <= k < pos :: !IsTextStop(s[k])
    ensures Sound(RunText(s, start, pos), s, start) && Resumes(RunText(s, start, pos), s)
    ensures Opening(RunText(s, start, pos)[0].kind)
    decreases |s| - pos, 4
  {
    var j := TextStop(s, pos);
    var tail := if j == |s| then [Emit(s, EOF, j, j)] else RunStop(s, j);
    if j == |s| {
      EndFits(s);
      Single(Emit(s, EOF, j, j), s, j);
    } else {
      StopSound(s, j);
    }
    if start < j {
      TextStopSpan(s, pos);
      TextFits(s, start, j);
      ComposeOne(Emit(s, Text, start, j), tail, s, start, j);
      assert RunText(s, start, pos) == [Emit(s, Text, start, j)] + tail;
    } else {
      assert RunText(s, start, pos) == tail;
    }
  }

  lemma {:induction false} StopSound(s: string, j: nat)
    requires j < |s| && IsTextStop(s[j])
    ensures Sound(RunStop(s, j), s, j) && Resumes(RunStop(s, j), s)
    ensures Opening(RunStop(s, j)[0].kind)
    decreases |s| - j, 2
  {
    if IsLineEnd(s[j]) {
      assert RunStop(s, j) == RunEOL(s, j);
      EOLSound(s, j);
    } else if s[j] == '[' {
      assert RunStop(s, j) == RunLinkTextStart(s, j);
      LinkTextStartSound(s, j);
    } else {
      EmphasisSound(s, j);
    }
  }

  /** The single-character stops: emphasis markers and the escape. */
  lemma {:induction false} EmphasisSound(s: string, j: nat)
    requires j < |s| && (s[j] == '*' || s[j] == '_' || s[j] == '\\')
    ensures Sound(RunStop(s, j), s, j) && Resumes(RunStop(s, j), s)
    ensures Opening(RunStop(s, j)[0].kind)
    decreases |s| - j, 1
  {
    var k := if s[j] == '*' then Star else if s[j] == '_' then Underscore else Esc;
    assert RunStop(s, j) == Marker(s, j, k, 1);
    CharFits(s, j, k);
    MarkerSound(s, j, k, 1);
  }

  lemma {:induction false} MarkerSound(s: string, pos: nat, k: Kind, width: nat)
    requires 0 < width && pos + width <= |s| && k != EOF && k != Error
    requires k != EOL && k != LinkText && k != LinkURL
    requires !Misfit(Emit(s, k, pos, pos + width), s, pos)
    ensures Sound(Marker(s, pos, k, width), s, pos) && Resumes(Marker(s, pos, k, width), s)
    ensures Marker(s, pos, k, width)[0].kind == k
    decreases |s| - pos, 0
  {
    var it := Emit(s, k, pos, pos + width);
    var rest := RunText(s, pos + width, pos + width);
    MarkerStep(s, pos, k, width);
    assert Marker(s, pos, k, width) == [it] + rest;
    TextSound(s, pos + width, pos + width);
    FollowsOpening(k, rest[0].kind);
    ComposeOne(it, rest, s, pos, pos + width);
  }

  /** Anything but link text or a link target may precede an opening kind. */
  lemma FollowsOpening(a: Kind, b: Kind)
    requires Opening(b) && a != LinkText && a != LinkURL
    ensures Follows(a, b)
  {
  }

  lemma {:induction false} LinkTextStartSound(s: string, pos: nat)
    requires pos < |s| && s[pos] == '['
    ensures Sound(RunLinkTextStart(s, pos), s, pos) && Resumes(RunLinkTextStart(s, pos), s)
    ensures RunLinkTextStart(s, pos)[0].kind == LinkTextStart
    decreases |s| - pos, 0
  {
    var it := Emit(s, LinkTextStart, pos, pos + 1);
    assert RunLinkTextStart(s, pos) == [it] + RunLinkText(s, pos + 1);
    CharFits(s, pos, LinkTextStart);
    LinkTextSound(s, pos + 1);
    ComposeOne(it, RunLinkText(s, pos + 1), s, pos, pos + 1);
  }

  lemma {:induction false} LinkTextSound(s: string, pos: nat)
    requires pos <= |s|
    ensures Sound(RunLinkText(s, pos), s, pos) && Resumes(RunLinkText(s, pos), s)
    ensures RunLinkText(s, pos)[0].kind == LinkText || RunLinkText(s, pos)[0].kind == Error
    decreases |s| - pos, 2
  {
    var j := Find(s, pos, ']');
    if j == |s| {
      FailFits(s, pos, UnclosedLinkText);
      Single(Fail(pos, UnclosedLinkText), s, pos);
    } else {
      var it := Emit(s, LinkText, pos, j);
      assert RunLinkText(s, pos) == [it] + RunLinkTextFinish(s, j);
      SpanFits(s, pos, LinkText, ']');
      LinkTextFinishSound(s, j);
      ComposeOne(it, RunLinkTextFinish(s, j), s, pos, j);
    }
  }

  lemma {:induction false} LinkTextFinishSound(s: string, pos: nat)
    requires pos < |s| && s[pos] == ']'
    ensures Sound(RunLinkTextFinish(s, pos), s, pos) && Resumes(RunLinkTextFinish(s, pos), s)
    ensures RunLinkTextFinish(s, pos)[0].kind == LinkTextFinish
    decreases |s| - pos, 0
  {
    var it := Emit(s, LinkTextFinish, pos, pos + 1);
    assert RunLinkTextFinish(s, pos) == [it] + RunLinkURLStart(s, pos + 1);
    CharFits(s, pos, LinkTextFinish);
    LinkURLStartSound(s, pos + 1);
    ComposeOne(it, RunLinkURLStart(s, pos + 1), s, pos, pos + 1);
  }

  lemma {:induction false} LinkURLStartSound(s: string, pos: nat)
    requires pos <= |s|
    ensures Sound(RunLinkURLStart(s, pos), s, pos) && Resumes(RunLinkURLStart(s, pos), s)
    ensures RunLinkURLStart(s, pos)[0].kind == LinkURLStart || Opening(RunLinkURLStart(s, pos)[0].kind)
    decreases |s| - pos, 6
  {
    if HasPrefixAt(s, pos, "(") {
      var it := Emit(s, LinkURLStart, pos, pos + 1);
      assert RunLinkURLStart(s, pos) == [it] + RunLinkURL(s, pos + 1);
      assert s[pos..pos + 1][0] == s[pos];
      CharFits(s, pos, LinkURLStart);
      LinkURLSound(s, pos + 1);
      ComposeOne(it, RunLinkURL(s, pos + 1), s, pos, pos + 1);
    } else {
      assert RunLinkURLStart(s, pos) == RunText(s, pos, pos);
      TextSound(s, pos, pos);
    }
  }

  lemma {:induction false} LinkURLSound(s: string, pos: nat)
    requires pos <= |s|
    ensures Sound(RunLinkURL(s, pos), s, pos) && Resumes(RunLinkURL(s, pos), s)
    ensures RunLinkURL(s, pos)[0].kind == LinkURL || RunLinkURL(s, pos)[0].kind == Error
    decreases |s| - pos, 2
  {
    var j := Find(s, pos, ')');
    if j == |s| {
      FailFits(s, pos, UnclosedLinkURL);
      Single(Fail(pos, UnclosedLinkURL), s, pos);
    } else {
      var it := Emit(s, LinkURL, pos, j);
      assert RunLinkURL(s, pos) == [it] + Marker(s, j, LinkURLFinish, 1);
      SpanFits(s, pos, LinkURL, ')');
      CharFits(s, j, LinkURLFinish);
      MarkerSound(s, j, LinkURLFinish, 1);
      ComposeOne(it, Marker(s, j, LinkURLFinish, 1), s, pos, j);
    }
  }

  lemma {:induction false} EOLSound(s: string, pos: nat)
    requires pos < |s| && IsLineEnd(s[pos])
    ensures Sound(RunEOL(s, pos), s, pos) && Resumes(RunEOL(s, pos), s)
    ensures RunEOL(s, pos)[0].kind == EOL
    decreases |s| - pos, 0
  {
    var e := AfterLineEnd(s, pos);
    var it := Emit(s, EOL, pos, e);
    assert RunEOL(s, pos) == [it] + RunLine(s, e);
    EOLFits(s, pos);
    LineSound(s, e);
    ComposeOne(it, RunLine(s, e), s, pos, e);
  }

  lemma {:induction false} HeaderSound(s: string, pos: nat)
    requires HasPrefixAt(s, pos, "#")
    ensures Sound(RunHeader(s, pos), s, pos) && Resumes(RunHeader(s, pos), s)
    ensures !Follower(RunHeader(s, pos)[0].kind)
    decreases |s| - pos, 6
  {
    var h := HashEnd(s, pos);
    if h - pos <= 6 && HasPrefixAt(s, h, " ") {
      assert RunHeader(s, pos) == [Emit(s, Header, pos, h + 1)] + RunText(s, h + 1, h + 1);
      HeaderItemSound(s, pos, h);
    } else {
      assert RunHeader(s, pos) == RunText(s, pos, h);
      HashEndSpan(s, pos);
      TextSound(s, pos, h);
    }
  }

  /** A valid header marker: the header item, then text after the space. */
  lemma {:induction false} HeaderItemSound(s: string, pos: nat, h: nat)
    requires HasPrefixAt(s, pos, "#") && h == HashEnd(s, pos) && h - pos <= 6 && HasPrefixAt(s, h, " ")
    ensures var items := [Emit(s, Header, pos, h + 1)] + RunText(s, h + 1, h + 1);
      Sound(items, s, pos) && Resumes(items, s)
    decreases |s| - pos, 5
  {
    var it := Emit(s, Header, pos, h + 1);
    HeaderFits(s, pos, h);
    TextSound(s, h + 1, h + 1);
    ComposeOne(it, RunText(s, h + 1, h + 1), s, pos, h + 1);
  }

  lemma {:induction false} CodeStartSound(s: string, pos: nat)
    requires HasPrefixAt(s, pos, CodeFence)
    ensures Sound(RunCodeStart(s, pos), s, pos) && Resumes(RunCodeStart(s, pos), s)
    ensures RunCodeStart(s, pos)[0].kind == CodeStart
    decreases |s| - pos, 6
  {
    var p := pos + |CodeFence|;
    var j := LineEnd(s, p);
    var fence := Emit(s, CodeStart, pos, p);
    FenceFits(s, pos, CodeStart);
    if j == |s| {
      assert RunCodeStart(s, pos) == [fence] + [Fail(p, UnclosedCode)];
      FailFits(s, p, UnclosedCode);
      Single(Fail(p, UnclosedCode), s, p);
      ComposeOne(fence, [Fail(p, UnclosedCode)], s, pos, p);
    } else {
      var rest := [Emit(s, CodeLang, p, j)] + RunCode(s, j, AfterLineEnd(s, j));
      assert RunCodeStart(s, pos) == [fence] + rest;
      CodeLangSound(s, p);
      ComposeOne(fence, rest, s, pos, p);
    }
  }

  /** The language tag after a fence, then the code body. */
  lemma {:induction false} CodeLangSound(s: string, p: nat)
    requires p <= |s| && LineEnd(s, p) < |s|
    ensures var j := LineEnd(s, p);
      && Sound([Emit(s, CodeLang, p, j)] + RunCode(s, j, AfterLineEnd(s, j)), s, p)
      && Resumes([Emit(s, CodeLang, p, j)] + RunCode(s, j, AfterLineEnd(s, j)), s)
    decreases |s| - p, 0
  {
    var j := LineEnd(s, p);
    LangFits(s, p);
    CodeSound(s, j, AfterLineEnd(s, j));
    ComposeOne(Emit(s, CodeLang, p, j), RunCode(s, j, AfterLineEnd(s, j)), s, p, j);
  }

  lemma {:induction false} CodeSound(s: string, start: nat, pos: nat)
    requires start < pos <= |s| && IsLineEnd(s[start])
    ensures Sound(RunCode(s, start, pos), s, start) && Resumes(RunCode(s, start, pos), s)
    ensures RunCode(s, start, pos)[0].kind == Code || RunCode(s, start, pos)[0].kind == Error
    decreases |s| - pos, 2
  {
    var k := CodeEnd(s, pos);
    if k == |s| {
      FailFits(s, start, UnclosedCode);
      Single(Fail(start, UnclosedCode), s, start);
    } else {
      var it := Emit(s, Code, start, k + 1);
      var rest := Marker(s, k + 1, CodeFinish, |CodeFence|);
      assert RunCode(s, start, pos) == [it] + rest;
      CodeFits(s, start, k);
      FenceFits(s, k + 1, CodeFinish);
      MarkerSound(s, k + 1, CodeFinish, |CodeFence|);
      ComposeOne(it, rest, s, start, k + 1);
    }
  }

  /** The scan of any input is a finite stream whose last item, and only
      that one, is an end-of-input or error item; each item starts at the
      byte offset where the values before it end; and the values before an
      end-of-input item spell the input exactly, those before an error item
      a prefix of it. */
  lemma LexPartition(s: string)
    ensures var items := Lex(s); var n := |items|;
      && n > 0
      && Terminal(items[n - 1])
      && (forall k | 0 <= k < n - 1 :: !Terminal(items[k]))
      && (forall k | 0 <= k < n :: items[k].pos == |Values(items[..k])|)
      && (items[n - 1].kind == EOF ==> items[n - 1].val == "" && Values(items[..n - 1]) == s)
      && (items[n - 1].kind == Error ==> HasPrefix(s, Values(items[..n - 1])))
  {
    LineSound(s, 0);
    SoundTerminal(Lex(s), s, 0);
    SoundShapes(Lex(s), s, 0);
    SoundPositions(Lex(s), s, 0);
    SoundValues(Lex(s), s, 0);
  }

  /** Every item of every scan has the value its kind promises: text items
      are non-empty and hold no line end, `[`, `*`, `_` or backslash; a line
      end is `\n`, `\r\n`, or a lone `\r` not followed by `\n`; emphasis and
      escape markers are single characters; and so on. */
  lemma LexShapes(s: string)
    ensures forall k | 0 <= k < |Lex(s)| :: Shaped(Lex(s)[k], s)
  {
    LineSound(s, 0);
    SoundTerminal(Lex(s), s, 0);
    SoundShapes(Lex(s), s, 0);
    SoundPositions(Lex(s), s, 0);
    SoundValues(Lex(s), s, 0);
  }

  /** Header, code-fence, block-quote and bullet items are only produced at
      the start of a line: first in the stream or right after a line end. */
  lemma LexLineStarts(s: string)
    ensures var items := Lex(s);
      forall k | 0 < k < |items| && LineStartKind(items[k].kind) :: items[k - 1].kind == EOL
  {
    LineSound(s, 0);
    SoundTerminal(Lex(s), s, 0);
    SoundShapes(Lex(s), s, 0);
    SoundPositions(Lex(s), s, 0);
    SoundValues(Lex(s), s, 0);
  }

  /** A scan opens with an item that needs no predecessor, and every item
      follows one the scanner may emit it after (`Follows`): a line-start
      item a line end, each later part of a link or code block the part
      before it, and the link text and target their closing brackets. */
  lemma LexAdjacent(s: string)
    ensures !Follower(Lex(s)[0].kind)
    ensures forall k | 0 < k < |Lex(s)| :: Follows(Lex(s)[k - 1].kind, Lex(s)[k].kind)
  {
    LineSound(s, 0);
    SoundShapes(Lex(s), s, 0);
  }

  /** After every line end the scan carries on exactly as a scan of a fresh
      line starting at the next item's offset. */
  lemma LexResumes(s: string)
    ensures forall k | 0 <= k < |Lex(s)| - 1 && Lex(s)[k].kind == EOL ::
      Lex(s)[k + 1].pos <= |s| && Lex(s)[k + 1..] == RunLine(s, Lex(s)[k + 1].pos)
  {
    LineSound(s, 0);
    ResumesAt(Lex(s), s);
  }

  /** `h` hashes at `p` followed by a space. */
  predicate HashesThenSpace(s: string, p: nat, h: nat) {
    && p + h < |s|
    && s[p + h] == ' '
    && (forall k | p <= k < p + h :: s[k] == '#')
  }

  /** A valid header marker at `p`: one to six `#` followed by a space. */
  predicate HeaderAt(s: string, p: nat) {
    exists h | 1 <= h <= 6 :: HashesThenSpace(s, p, h)
  }

  lemma HeaderAtHashEnd(s: string, p: nat)
    requires HasPrefixAt(s, p, "#")
    ensures var h := HashEnd(s, p);
      HeaderAt(s, p) <==> h - p <= 6 && HasPrefixAt(s, h, " ")
  {
    var h := HashEnd(s, p);
    HashEndSpan(s, p);
    assert s[p..p + 1][0] == s[p];
    if HeaderAt(s, p) {
      var n :| 1 <= n <= 6 && HashesThenSpace(s, p, n);
      assert h == p + n;
      assert s[h..h + 1] == [s[h]];
    }
    if h - p <= 6 && HasPrefixAt(s, h, " ") {
      assert s[h..h + 1][0] == s[h];
      assert HashesThenSpace(s, p, h - p);
    }
  }

  /** The first item the scan produces on text that starts with pending,
      stop-free bytes is a text item holding them. */
  lemma TextFirst(s: string, start: nat, pos: nat)
    requires start < pos <= |s| && forall k | start <= k < pos :: !IsTextStop(s[k])
    ensures RunText(s, start, pos)[0].kind == Text
    ensures HasPrefix(RunText(s, start, pos)[0].val, s[start..pos])
  {
    var j := TextStop(s, pos);
    assert RunText(s, start, pos)[0] == Emit(s, Text, start, j);
    SliceTake(s, start, pos, j);
  }

  lemma SliceTake(s: string, a: nat, b: nat, c: nat)
    requires a <= b <= c <= |s|
    ensures s[a..c][..b - a] == s[a..b]
  {
  }

  lemma NotHashNotHeader(s: string, p: nat)
    requires !HasPrefixAt(s, p, "#")
    ensures !HeaderAt(s, p)
  {
    if p < |s| {
      assert s[p..p + 1] == [s[p]];
    }
  }

  /** Prefixes that start with different characters exclude each other. */
  lemma Distinct(s: string, p: nat, a: string, b: string)
    requires |a| > 0 && |b| > 0 && a[0] != b[0]
    ensures !(HasPrefixAt(s, p, a) && HasPrefixAt(s, p, b))
  {
    if p + |a| <= |s| && p + |b| <= |s| {
      assert s[p..p + |a|][0] == s[p];
      assert s[p..p + |b|][0] == s[p];
    }
  }

  /** The line's first item when it opens with `#`. */
  lemma HashLine(s: string, p: nat)
    requires HasPrefixAt(s, p, "#")
    ensures var first := RunLine(s, p)[0];
      && (first.kind == Header <==> HeaderAt(s, p))
      && (HeaderAt(s, p) ==> HashEnd(s, p) < |s| && first == Item(Header, p, s[p..HashEnd(s, p) + 1]))
      && (!HeaderAt(s, p) ==> first.kind == Text && HasPrefix(first.val, s[p..HashEnd(s, p)]))
  {
    assert s[p..p + 1][0] == s[p];
    HeaderAtHashEnd(s, p);
    var h := HashEnd(s, p);
    assert RunLine(s, p) == RunHeader(s, p);
    if !(h - p <= 6 && HasPrefixAt(s, h, " ")) {
      HashEndSpan(s, p);
      TextFirst(s, p, h);
    }
  }

  lemma FenceLine(s: string, p: nat)
    requires HasPrefixAt(s, p, CodeFence) && !HasPrefixAt(s, p, "#")
    ensures RunLine(s, p) == RunCodeStart(s, p)
    ensures RunLine(s, p)[0] == Item(CodeStart, p, CodeFence)
  {
  }

  lemma QuoteLine(s: string, p: nat)
    requires HasPrefixAt(s, p, ">") && !HasPrefixAt(s, p, "#") && !HasPrefixAt(s, p, CodeFence)
    ensures RunLine(s, p)[0] == Item(BlockQuote, p, ">")
  {
    assert RunLine(s, p) == Marker(s, p, BlockQuote, 1);
  }

  lemma BulletLine(s: string, p: nat)
    requires HasPrefixAt(s, p, BulletMarker)
    requires !HasPrefixAt(s, p, "#") && !HasPrefixAt(s, p, CodeFence) && !HasPrefixAt(s, p, ">")
    ensures RunLine(s, p)[0] == Item(Bullet, p, BulletMarker)
  {
    assert RunLine(s, p) == Marker(s, p, Bullet, |BulletMarker|);
  }

  lemma PlainLine(s: string, p: nat)
    requires p <= |s|
    requires !HasPrefixAt(s, p, "#") && !HasPrefixAt(s, p, CodeFence)
    requires !HasPrefixAt(s, p, ">") && !HasPrefixAt(s, p, BulletMarker)
    ensures RunLine(s, p) == RunText(s, p, p)
    ensures !LineStartKind(RunLine(s, p)[0].kind)
  {
    TextSound(s, p, p);
  }

  /** The line's first item when it does not open with `#`. */
  lemma OtherLine(s: string, p: nat)
    requires p <= |s| && !HasPrefixAt(s, p, "#")
    ensures var first := RunLine(s, p)[0];
      && (first.kind == CodeStart <==> HasPrefixAt(s, p, CodeFence))
      && (HasPrefixAt(s, p, CodeFence) ==> first == Item(CodeStart, p, CodeFence))
      && (first.kind == BlockQuote <==> HasPrefixAt(s, p, ">"))
      && (HasPrefixAt(s, p, ">") ==> first == Item(BlockQuote, p, ">"))
      && (first.kind == Bullet <==> HasPrefixAt(s, p, BulletMarker))
      && (HasPrefixAt(s, p, BulletMarker) ==> first == Item(Bullet, p, BulletMarker))
      && first.kind != Header
  {
    Distinct(s, p, CodeFence, ">");
    Distinct(s, p, CodeFence, BulletMarker);
    Distinct(s, p, ">", BulletMarker);
    if HasPrefixAt(s, p, CodeFence) {
      FenceLine(s, p);
    } else if HasPrefixAt(s, p, ">") {
      QuoteLine(s, p);
    } else if HasPrefixAt(s, p, BulletMarker) {
      BulletLine(s, p);
    } else {
      PlainLine(s, p);
    }
  }

  /** At the start of a line the scanner looks for, in this order, a `#`, a
      code fence, a `>`, and a bullet `- `: the line's first item is a
      header exactly when one to six `#` and a space open the line, a code
      fence start exactly when three backticks do, a block quote exactly
      when `>` does, and a bullet exactly when `- ` does.  A line opening
      with hashes that are not a header marker yields a text item that
      begins with those hashes. */
  lemma LineDispatch(s: string, p: nat)
    requires p <= |s|
    ensures var first := RunLine(s, p)[0];
      && (first.kind == Header <==> HeaderAt(s, p))
      && (HeaderAt(s, p) ==> HashEnd(s, p) < |s| && first == Item(Header, p, s[p..HashEnd(s, p) + 1]))
      && (HasPrefixAt(s, p, "#") && !HeaderAt(s, p) ==>
            first.kind == Text && HasPrefix(first.val, s[p..HashEnd(s, p)]))
      && (first.kind == CodeStart <==> HasPrefixAt(s, p, CodeFence))
      && (HasPrefixAt(s, p, CodeFence) ==> first == Item(CodeStart, p, CodeFence))
      && (first.kind == BlockQuote <==> HasPrefixAt(s, p, ">"))
      && (HasPrefixAt(s, p, ">") ==> first == Item(BlockQuote, p, ">"))
      && (first.kind == Bullet <==> HasPrefixAt(s, p, BulletMarker))
      && (HasPrefixAt(s, p, BulletMarker) ==> first == Item(Bullet, p, BulletMarker))
  {
    if HasPrefixAt(s, p, "#") {
      HashLine(s, p);
      Distinct(s, p, "#", CodeFence);
      Distinct(s, p, "#", ">");
      Distinct(s, p, "#", BulletMarker);
    } else {
      NotHashNotHeader(s, p);
      OtherLine(s, p);
    }
  }

  /** The code body up to the closing fence, then text. */
  lemma CodeStep(s: string, j: nat, b: nat)
    requires j < b <= |s|
    ensures var k := CodeEnd(s, b);
      && (k == |s| ==> RunCode(s, j, b) == [Item(Error, j, UnclosedCode)])
      && (k < |s| ==>
            RunCode(s, j, b) ==
            [Item(Code, j, s[j..k + 1])] + ([Item(CodeFinish, k + 1, CodeFence)] + RunText(s, k + 4, k + 4)))
  {
    var k := CodeEnd(s, b);
    if k < |s| {
      assert s[k + 1..k + 4] == CodeFence;
    }
  }

  /** The fence and the language tag of a code block. */
  lemma CodeStartStep(s: string, p: nat)
    requires HasPrefixAt(s, p, CodeFence)
    ensures var q := p + |CodeFence|; var j := LineEnd(s, q);
      && (j == |s| ==> RunCodeStart(s, p) == [Item(CodeStart, p, CodeFence), Item(Error, q, UnclosedCode)])
      && (j < |s| ==>
            RunCodeStart(s, p) ==
            [Item(CodeStart, p, CodeFence)] + ([Item(CodeLang, q, s[q..j])] + RunCode(s, j, AfterLineEnd(s, j))))
  {
  }

  /** A line opening with three backticks yields the fence, then the rest of
      that line as the language tag (possibly empty), then the body from the
      line terminator up to and including the first `\n` that is followed by
      another fence, then the closing fence.  Reaching the end of the input
      before the tag's line end or before a closing fence stops the scan with
      "unclosed code block". */
  lemma CodeFenceItems(s: string, p: nat)
    requires HasPrefixAt(s, p, CodeFence)
    ensures var items := RunLine(s, p); var q := p + |CodeFence|; var j := LineEnd(s, q);
      && items[0] == Item(CodeStart, p, CodeFence)
      && (j == |s| ==> items == [items[0], Item(Error, q, UnclosedCode)])
      && (j < |s| ==>
            var k := CodeEnd(s, AfterLineEnd(s, j));
            && |items| >= 3
            && items[1] == Item(CodeLang, q, s[q..j])
            && (k == |s| ==> items == [items[0], items[1], Item(Error, j, UnclosedCode)])
            && (k < |s| ==>
                  && |items| >= 4
                  && items[2] == Item(Code, j, s[j..k + 1])
                  && items[3] == Item(CodeFinish, k + 1, CodeFence)
                  && items[4..] == RunText(s, k + 4, k + 4)))
  {
    Distinct(s, p, CodeFence, "#");
    FenceLine(s, p);
    CodeStartStep(s, p);
    var q := p + |CodeFence|;
    var j := LineEnd(s, q);
    if j < |s| {
      CodeStep(s, j, AfterLineEnd(s, j));
    }
  }

  /** After the `]`: an optional `(url)`, then text scanning resumes. */
  lemma LinkURLItems(s: string, q: nat)
    requires q <= |s|
    ensures var items := RunLinkURLStart(s, q);
      && (!HasPrefixAt(s, q, "(") ==> items == RunText(s, q, q))
      && (HasPrefixAt(s, q, "(") ==>
            var u := Find(s, q + 1, ')');
            && items[0] == Item(LinkURLStart, q, "(")
            && (u == |s| ==> items[1..] == [Item(Error, q + 1, UnclosedLinkURL)])
            && (u < |s| ==>
                  && |items| > 3
                  && items[1] == Item(LinkURL, q + 1, s[q + 1..u])
                  && items[2] == Item(LinkURLFinish, u, ")")
                  && items[3..] == RunText(s, u + 1, u + 1)))
  {
    if HasPrefixAt(s, q, "(") && Find(s, q + 1, ')') < |s| {
      LinkURLStep(s, q);
    }
  }

  /** A `(` after the `]` with no `)` further on: the `(` item, then the
      scan fails. */
  lemma LinkURLCut(s: string, q: nat)
    requires q < |s| && s[q] == '(' && Find(s, q + 1, ')') == |s|
    ensures RunLinkURLStart(s, q) == [Emit(s, LinkURLStart, q, q + 1), Item(Error, q + 1, UnclosedLinkURL)]
  {
    assert s[q..q + 1] == "(";
  }

  /** A fixed-width marker: its item, then text from after it. */
  lemma MarkerStep(s: string, p: nat, k: Kind, width: nat)
    requires 0 < width && p + width <= |s|
    ensures Marker(s, p, k, width) == [Item(k, p, s[p..p + width])] + RunText(s, p + width, p + width)
  {
  }

  /** The URL up to a `)`, then the `)` marker. */
  lemma URLStep(s: string, p: nat)
    requires p <= |s| && Find(s, p, ')') < |s|
    ensures var u := Find(s, p, ')');
      RunLinkURL(s, p) == [Item(LinkURL, p, s[p..u])] + Marker(s, u, LinkURLFinish, 1)
  {
  }

  /** A `(` after the `]` with a `)` further on: the three URL items, then text. */
  lemma LinkURLStep(s: string, q: nat)
    requires HasPrefixAt(s, q, "(") && Find(s, q + 1, ')') < |s|
    ensures var u := Find(s, q + 1, ')');
      RunLinkURLStart(s, q) ==
      [Emit(s, LinkURLStart, q, q + 1)] + ([Emit(s, LinkURL, q + 1, u)] + ([Emit(s, LinkURLFinish, u, u + 1)]
      + RunText(s, u + 1, u + 1)))
  {
    var u := Find(s, q + 1, ')');
    assert RunLinkURLStart(s, q) == [Emit(s, LinkURLStart, q, q + 1)] + RunLinkURL(s, q + 1);
    URLStep(s, q + 1);
    assert RunLinkURL(s, q + 1) == [Emit(s, LinkURL, q + 1, u)] + Marker(s, u, LinkURLFinish, 1);
    MarkerStep(s, u, LinkURLFinish, 1);
  }

  lemma LinkStartStep(s: string, p: nat)
    requires p < |s| && s[p] == '['
    ensures RunText(s, p, p) == [Emit(s, LinkTextStart, p, p + 1)] + RunLinkText(s, p + 1)
  {
    assert TextStop(s, p) == p;
    assert RunText(s, p, p) == RunStop(s, p) == RunLinkTextStart(s, p);
  }

  lemma LinkTextStep(s: string, q: nat)
    requires q <= |s|
    ensures var j := Find(s, q, ']');
      && (j == |s| ==> RunLinkText(s, q) == [Item(Error, q, UnclosedLinkText)])
      && (j < |s| ==>
            RunLinkText(s, q) ==
            [Emit(s, LinkText, q, j)] + ([Emit(s, LinkTextFinish, j, j + 1)] + RunLinkURLStart(s, j + 1)))
  {
  }

  /** The link text part, up to the state that looks for `(`. */
  lemma LinkTextItems(s: string, p: nat)
    requires HasPrefixAt(s, p, "[")
    ensures var items := RunText(s, p, p); var j := Find(s, p + 1, ']');
      && items[0] == Item(LinkTextStart, p, "[")
      && (j == |s| ==> items == [items[0], Item(Error, p + 1, UnclosedLinkText)])
      && (j < |s| ==>
            && |items| > 3
            && items[1] == Item(LinkText, p + 1, s[p + 1..j])
            && items[2] == Item(LinkTextFinish, j, "]")
            && items[3..] == RunLinkURLStart(s, j + 1))
  {
    assert s[p..p + 1][0] == s[p];
    LinkStartStep(s, p);
    LinkTextStep(s, p + 1);
    var j := Find(s, p + 1, ']');
    if j < |s| {
      assert s[j..j + 1] == "]";
    }
  }

  /** The first item scanned from a fresh text position is a `*` (or `_`)
      marker exactly when that character comes next. */
  lemma TextFirstMarker(s: string, r: nat)
    requires r <= |s|
    ensures RunText(s, r, r)[0].kind == Star <==> HasPrefixAt(s, r, "*")
    ensures RunText(s, r, r)[0].kind == Underscore <==> HasPrefixAt(s, r, "_")
    ensures RunText(s, r, r)[0].kind in {Text, EOF, EOL, LinkTextStart, Star, Underscore, Esc}
  {
    var j := TextStop(s, r);
    if r < |s| {
      assert s[r..r + 1] == [s[r]];
    }
    if j == r && j < |s| {
      assert RunText(s, r, r) == RunStop(s, j);
    }
  }

  /** A line whose first character opens no line-start construct is
      scanned as text from its start. */
  lemma OrdinaryLine(s: string, p: nat)
    requires p < |s| && s[p] != '#' && s[p] != '`' && s[p] != '>' && s[p] != '-'
    ensures RunLine(s, p) == RunText(s, p, p)
  {
    OtherFirst(s, p, "#");
    OtherFirst(s, p, CodeFence);
    OtherFirst(s, p, ">");
    OtherFirst(s, p, BulletMarker);
    PlainLine(s, p);
  }

  /** A prefix cannot match where its first character does not. */
  lemma OtherFirst(s: string, p: nat, x: string)
    requires p < |s| && |x| > 0 && s[p] != x[0]
    ensures !HasPrefixAt(s, p, x)
  {
    if p + |x| <= |s| {
      assert s[p..p + |x|][0] == s[p];
    }
  }
}
