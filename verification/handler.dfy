/** The two template helpers of pkg/handler/handler.go that do not touch
    the clock: a commit hash cut to eight bytes, and a payload value
    converted from GitHub markdown to Slack text.  Strings are byte strings
    here, as Go's `len` and slicing see them. */
module Handler {
  import opened Strings
  import opened JsonValues
  import opened Converter
  import opened ConverterFacts

  /** The length `ShortSHA` cuts to. */
  const ShortLength := 8

  /** `ShortSHA`: the first eight bytes, or the whole string when shorter. */
  function ShortSHA(s: string): (r: string)
    ensures |r| == if |s| <= ShortLength then |s| else ShortLength
    ensures HasPrefix(s, r)
  {
    if |s| > ShortLength then s[..ShortLength] else s
  }

  /** A short hash is its own short hash, a string of at most eight bytes is
      kept whole, and two hashes that agree on their first eight bytes share
      their short form. */
  lemma ShortSHAProperties(s: string, t: string)
    ensures ShortSHA(ShortSHA(s)) == ShortSHA(s)
    ensures |s| <= ShortLength ==> ShortSHA(s) == s
    ensures |s| >= ShortLength && |t| >= ShortLength && s[..ShortLength] == t[..ShortLength] ==>
      ShortSHA(s) == ShortSHA(t)
  {
  }

  /** `SlackMarkdown`: a value that is not a string gives the empty string,
      as does a string the converter rejects; otherwise the conversion. */
  function SlackMarkdown(v: Json): (r: string)
    ensures !v.Str? ==> r == ""
    ensures v.Str? && Parse(v.s).Err? ==> r == ""
    ensures v.Str? && Parse(v.s).Ok? ==> r == Parse(v.s).value
    ensures '\t' !in r
  {
    if !v.Str? then ""
    else
      match Parse(v.s)
      case Ok(md) => md
      case Err(_) => ""
  }

  /** For plain text the helper gives the reference conversion with tabs
      escaped: a backslash cuts the text short but never empties it. */
  lemma SlackMarkdownPlain(s: string)
    requires Plain(s, 0)
    ensures SlackMarkdown(Str(s)) == ReplaceChar(Ref(s), '\t', TabEscape)
  {
    PlainConversion(s);
  }
}
