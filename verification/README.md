# slackhub markdown converter, in Dafny

This project models the core of slackhub, a GitHub Action that posts repository events to Slack. The core turns GitHub markdown into Slack "mrkdwn". It has two parts:

- the **scanner** of `pkg/markdown/lex.go`. It is a state-function machine that splits the input into items. Each item has a kind, a byte offset and a value.
- the **converter** of `pkg/markdown/parse.go`. It is a recursive-descent walk over those items with one item of pushback, and it builds the Slack text.

The project also models the small pure helpers around the core:

- `strToMap` and the `EqualFold(…, "true")` flags of `pkg/config/config.go`;
- `ShortSHA` and `SlackMarkdown` of `pkg/handler/handler.go`;
- the dotted lookup `get`, `QualifiedAction`, `Action`, `Branch` and the event filter of `cmd/slackhub/main.go`.

## How the model is built

- **Strings are bytes.** A `string` is `seq<char>`, and in the scanner and converter each `char` stands for one input byte. Every delimiter the scanner looks at is ASCII, so this is equivalent to the source's rune loop. The bullet the converter writes (U+2022 BULLET and a space) is therefore spelled as its three UTF-8 bytes, `Converter.BulletPrefix`.
- **Items.** `Tokens.Item` is the source's `item`, and `Tokens.Kind` is its `itemType`.
- **The scanner is a total function.** `Scanner.Lex(s)` returns the whole, finite item stream. Each state function of the source (`lexLine`, `lexText`, `lexHeader`, …) is a function `Run…` that returns the items it emits followed by those of the next state. `start` and `pos` are the lexer's two offsets. Termination is by (remaining input, state rank). The goroutine and channel add no semantics and are not modelled.
- **The converter works on item suffixes.** `Converter.ParseItems` walks the stream. The parser's one item of pushback becomes "pass the unconsumed suffix on". A read past the last item yields `Tokens.Zero`, the zero `item`, as a receive on the closed channel does.
- **Errors are values.** A panic of `parser.errorf` is `Err(Unexpected(item))`. A failed conversion therefore carries no text, which is the source's "no partial output" rule.
- **Reference definitions.** Several lemmas compare the item walk with a simpler definition over the characters of the input:
  - `ConverterFacts.Ref` for plain text;
  - `HeaderFacts.HRef` for header text.
- **Quirks kept as coded:**
  - A backslash at top level appends `\` and ends the conversion successfully. The rest of the input is dropped.
  - A backslash inside a header is dropped.
  - A block quote `>` is scanned, but the converter rejects it.

The converted text goes into a one-line JSON string, so one would expect it never to hold a raw line terminator. The code does not guarantee that. Link text and URLs are copied unescaped, and the scanner lets them span lines. The model follows the code, and `ConverterLinks.LinkKeepsLineFeed` shows such an output.

## Model

| member | source | states |
|---|---|---|
| Scanner.RunLine | pkg/markdown/lex.go:152-168 | `lexLine`; its own contract says only that the stream is non-empty. `LineSound` states that the stream is sound, and `LineDispatch` states the four-way dispatch |
| Scanner.RunText | pkg/markdown/lex.go:170-216 | `lexText`; its own contract says only that the stream is non-empty. `TextSound` and `TextFirstMarker` state what it emits |
| Scanner.RunStop | pkg/markdown/lex.go:170-206 | the hand-over at a stop character; its own contract says only that the stream is non-empty. `StopSound` states the successor states' soundness |
| Scanner.Marker | pkg/markdown/lex.go:218-246 | the fixed-width states; its own contract says only that the stream is non-empty. `MarkerSound` states that the marker comes first in a sound stream |
| Scanner.RunLinkTextStart | pkg/markdown/lex.go:248-252 | `lexLinkTextStart`; its own contract says only that the stream is non-empty. `LinkTextStartSound` and `LinkTextItems` state the items |
| Scanner.RunLinkText | pkg/markdown/lex.go:254-265 | `lexLinkText`; its own contract says only that the stream is non-empty. `LinkTextSound` and `LinkTextItems` state the items and the error |
| Scanner.RunLinkTextFinish | pkg/markdown/lex.go:267-271 | `lexLinkTextFinish`; its own contract says only that the stream is non-empty. `LinkTextFinishSound` states the items |
| Scanner.RunLinkURLStart | pkg/markdown/lex.go:273-280 | `lexLinkURLStart`; its own contract says only that the stream is non-empty. `LinkURLStartSound` and `LinkURLItems` state both branches |
| Scanner.RunLinkURL | pkg/markdown/lex.go:282-299 | `lexLinkURL`; its own contract says only that the stream is non-empty. `LinkURLSound` and `LinkURLItems` state the items and the error |
| Scanner.RunEOL | pkg/markdown/lex.go:301-309 | `lexEOL`; its own contract says only that the stream is non-empty. `EOLSound` and `LexResumes` state the EOL item and the resumed line scan |
| Scanner.RunHeader | pkg/markdown/lex.go:311-323 | `lexHeader`; its own contract says only that the stream is non-empty. `HeaderSound`, `HeaderAtHashEnd` and `HashLine` state the marker test and the fallback to text |
| Scanner.RunCodeStart | pkg/markdown/lex.go:325-347 | `lexCodeStart`; its own contract says only that the stream is non-empty. `CodeStartSound` and `CodeFenceItems` state the items and the unclosed error |
| Scanner.RunCode | pkg/markdown/lex.go:349-367 | `lexCode`; its own contract says only that the stream is non-empty. `CodeSound` and `CodeFenceItems` state the body up to the closing fence |
| Scanner.Lex | pkg/markdown/lex.go:127-143 | the whole scan; its own contract says only that the stream is non-empty. `LexPartition`, `LexShapes`, `LexAdjacent` and `LexResumes` state what every scan satisfies |
| ScannerFacts.LineSound | pkg/markdown/lex.go:152-168 | the stream scanned from any line start obeys every scanner rule (`Streams.Sound`) |
| ScannerFacts.TextSound | pkg/markdown/lex.go:170-216 | `lexText` with pending stop-free bytes yields a sound stream whose first item is never a line-start kind |
| ScannerFacts.StopSound | pkg/markdown/lex.go:170-206 | the state entered at a stop character yields a sound stream |
| ScannerFacts.EmphasisSound | pkg/markdown/lex.go:218-234 | at a `*`, `_` or backslash the scan yields a sound stream, so each marker is a one-byte item, and its first item is no line-start kind |
| ScannerFacts.MarkerSound | pkg/markdown/lex.go:236-246 | a fixed-width marker item followed by text scanning is sound and starts with that marker |
| ScannerFacts.LinkTextStartSound | pkg/markdown/lex.go:248-252 | `[` yields a LinkTextStart item first and a sound stream |
| ScannerFacts.LinkTextSound | pkg/markdown/lex.go:254-265 | link text up to `]` or an error at the end of input; the stream is sound |
| ScannerFacts.LinkTextFinishSound | pkg/markdown/lex.go:267-271 | `]` yields a LinkTextFinish item first and a sound stream |
| ScannerFacts.LinkURLStartSound | pkg/markdown/lex.go:273-280 | an optional `(` after `]`, otherwise text; the stream is sound |
| ScannerFacts.LinkURLSound | pkg/markdown/lex.go:282-299 | the URL up to `)` or an error at the end of input; the stream is sound |
| ScannerFacts.EOLSound | pkg/markdown/lex.go:301-309 | a line end yields one EOL item first, the stream is sound, and the items after it are exactly the scan of a fresh line from the offset after the terminator (`Resumes`) |
| ScannerFacts.HeaderSound | pkg/markdown/lex.go:311-323 | the header state yields a sound stream |
| ScannerFacts.CodeStartSound | pkg/markdown/lex.go:325-347 | the fence state yields a sound stream |
| ScannerFacts.CodeSound | pkg/markdown/lex.go:349-367 | the code-body state yields a sound stream |
| ScannerFacts.SoundTerminal | pkg/markdown/lex.go:108-111 | in a sound stream exactly the last item is an EOF or error item |
| ScannerFacts.SoundPositions | pkg/markdown/lex.go:92-95 | each item's offset is the start offset plus the length of the values before it |
| ScannerFacts.SoundValues | pkg/markdown/lex.go:92-95 | before an EOF item (whose value is empty) the values spell the input; before an error item they spell a prefix of it |
| ScannerFacts.LexPartition | pkg/markdown/lex.go:92-143 | every scan is finite, ends in exactly one EOF or error item, has offsets equal to the preceding values' lengths, and its values partition the input (a prefix on error) |
| ScannerFacts.LexShapes | pkg/markdown/lex.go:170-367 | every item's value has the shape of its kind: text non-empty and free of CR, LF, `[`, `*`, `_` and backslash; EOL exactly `\n`, `\r\n` or a lone `\r`; single-byte markers; header `#`×(1–6) and a space |
| ScannerFacts.LexResumes | pkg/markdown/lex.go:301-309 | in every scan, the items after any EOL item are exactly the scan of a fresh line from the next item's offset |
| ScannerFacts.LexAdjacent | pkg/markdown/lex.go:248-367 | in every scan, the first item is no inner part of a link or code block; link parts come only as `[`, text, `]`, `(`, URL, `)` and code parts only as fence, language, body, fence, each preceded by its predecessor; link text and URL are always followed by their closing bracket; line-start items only follow an EOL |
| ScannerFacts.LexLineStarts | pkg/markdown/lex.go:152-168 | header, fence, quote and bullet items occur only first or right after an EOL item |
| ScannerFacts.HeaderAtHashEnd | pkg/markdown/lex.go:311-323 | the `accept("#")` loop and the length test recognise exactly one to six `#` followed by a space |
| ScannerFacts.HashLine | pkg/markdown/lex.go:311-323 | a line opening with `#` starts with a header item iff it is a valid marker (value: the hashes and the space); otherwise its first item is text beginning with the hashes |
| ScannerFacts.OtherLine | pkg/markdown/lex.go:152-168 | on a line not opening with `#`, the first item is a fence, quote or bullet exactly when that marker opens the line |
| ScannerFacts.LineDispatch | pkg/markdown/lex.go:152-168 | both directions of the line-start dispatch for all four constructs, in the source's order |
| ScannerFacts.CodeFenceItems | pkg/markdown/lex.go:325-367 | a fence line yields CodeStart, the rest of the line as CodeLang, the body from the terminator through the `\n` before the next fence, and CodeFinish; or "unclosed code block" |
| ScannerFacts.LinkTextItems | pkg/markdown/lex.go:248-271 | `[` yields LinkTextStart, LinkText up to `]`, LinkTextFinish; or "no closing brace for link text" |
| ScannerFacts.LinkURLItems | pkg/markdown/lex.go:273-299 | a `(` right after `]` yields LinkURLStart, LinkURL, LinkURLFinish or "no closing brace for link URL"; otherwise text resumes |
| ScannerFacts.TextFirstMarker | pkg/markdown/lex.go:170-206 | from a fresh text position the first item is a `*` or `_` item exactly when that byte comes next |
| ScannerFacts.OrdinaryLine | pkg/markdown/lex.go:152-168 | a line whose first byte opens no construct is scanned as text |
| Converter.HeaderBody | pkg/markdown/parse.go:118-157 | the header loop closes with `*` (and the newline escape at a line end) and leaves a suffix of the stream; it fails only on a kind it does not handle |
| Converter.ParseHeader | pkg/markdown/parse.go:116-158 | a header's text opens with `*` and ends closed; failures carry an item the header loop does not handle |
| Converter.ParseLink | pkg/markdown/parse.go:160-190 | `parseLink` consumes at least the `[` and leaves a suffix of the stream. What it writes in each case is stated by `ConverterFacts.ParseFullLink`, `ConverterCases.ParseLinkCut`, `ConverterCases.ParseURLCut` and `ConverterCases.ParseBareLink` |
| Converter.EscapeCode | pkg/markdown/parse.go:104-107 | a code body's text holds no LF and no CR |
| Converter.EscapeCodeAppend | pkg/markdown/parse.go:104-107 | escaping distributes over concatenation |
| Converter.EscapeCodeChar | pkg/markdown/parse.go:104-107 | a single LF becomes backslash and `n`, a single CR vanishes, any other character is kept (`EscapeChar`) |
| Converter.EscapeCodeChars | pkg/markdown/parse.go:104-107 | escaping a body is escaping its first character followed by escaping the rest; the empty body stays empty |
| Converter.ParseItems | pkg/markdown/parse.go:57-114 | on any item stream, the walk fails only on an item of a kind the header loop does not handle, taken from the stream or read past its end |
| Converter.Parse | pkg/markdown/parse.go:11-20 | the converted text holds no tab; an error carries an item of a kind the header loop does not handle, taken from the scan of the input or read past its end |
| ConverterErrors.LinkEnd | pkg/markdown/parse.go:160-190 | on a scan, the link walk consumes a `[` and only the link parts that follow it, stops at an item outside any link, and skips no error or block-quote item |
| ConverterErrors.HeaderWalk | pkg/markdown/parse.go:116-158 | on a scan, the header loop fails only at the first error or block-quote item after it starts, and that item is an error item; when it closes it resumes at a top-level position before that item |
| ConverterErrors.TopWalk | pkg/markdown/parse.go:57-114 | on a scan, the walk from a top-level position fails only with the first error or block-quote item after it, and does fail with it when no backslash comes first |
| ConverterErrors.ParseFailure | pkg/markdown/parse.go:57-114 | a failed conversion carries the first error or block-quote item of the scan; if no backslash item precedes that item the conversion fails with it; a scan with neither kind converts successfully |
| ConverterFacts.ParseStep | pkg/markdown/parse.go:61-70 | EOL appends the two characters `\n`, text is appended verbatim, EOF ends with nothing more, a backslash appends itself and ends successfully |
| ConverterFacts.ParseMarker | pkg/markdown/parse.go:78-95 | a doubled `*` or `_` appends `*` and consumes both; a single one appends `_` and leaves the next item |
| ConverterFacts.PlainConversion | pkg/markdown/parse.go:57-114 | text with no link or line-start construct converts to the character-level reference `Ref`, then tabs are escaped |
| ConverterFacts.ParseFullLink | pkg/markdown/parse.go:160-190 | the items of a complete `[t](u)` become `<u|t>` wherever they occur |
| ConverterFacts.LinkConversion | pkg/markdown/parse.go:160-190 | end to end, a complete link at the start of the input becomes `<u|t>` and the text after it converts on its own |
| ConverterLinks.LinkAlone | pkg/markdown/parse.go:160-190 | `[t](u)` alone converts to `<u|t>` for any text without `]` and URL without `)` |
| ConverterLinks.LinkKeepsLineFeed | pkg/markdown/lex.go:254-265 | a line feed inside link text reaches the converted output raw |
| ConverterCases.ParseOther | pkg/markdown/parse.go:109-110 | an item of a kind the top-level loop does not handle fails the walk with that item |
| ConverterCases.QuoteError | pkg/markdown/parse.go:109-110 | an input opening with `>` fails with the block-quote item |
| ConverterCases.ParseLinkCut | pkg/markdown/parse.go:163-168 | `[` followed by an error item instead of link text: `parseLink` writes `[` and pushes the error item back, and the walk then fails with that item, so the `[` never reaches the output |
| ConverterCases.UnclosedLinkTextError | pkg/markdown/lex.go:254-265 | `[` with no `]` later fails with "no closing brace for link text" |
| ConverterCases.ParseURLCut | pkg/markdown/parse.go:179-184 | `[t](` followed by an error item instead of a URL: `parseLink` writes `[t](` and pushes the error item back, and the walk then fails with that item, so the prefix never reaches the output |
| ConverterCases.UnclosedLinkURLError | pkg/markdown/lex.go:282-293 | `[t](` with no `)` later fails with "no closing brace for link URL" |
| ConverterCases.ParseBareLink | pkg/markdown/parse.go:172-177 | `[t]` not followed by `(` becomes `[t]` and the walk goes on with the next item |
| ConverterCases.BareLinkConversion | pkg/markdown/parse.go:172-177 | end to end, `[t]` not followed by `(` is kept literally and the rest converts on its own |
| ConverterCases.BulletConversion | pkg/markdown/parse.go:96-97 | a line opening with `- ` becomes the bullet and a space, and the rest converts as text |
| ConverterCases.ParseCode | pkg/markdown/parse.go:98-107 | fence items are kept verbatim, the language item is dropped, and the body is escaped |
| ConverterCases.CodeConversion | pkg/markdown/parse.go:98-107 | end to end, a code block keeps both fences, drops the language tag and escapes the body; the text after it converts on its own |
| ConverterCases.UnclosedCodeError | pkg/markdown/lex.go:325-361 | a fence with no line end, or a block never closed, fails with "unclosed code block" at the right offset |
| ConverterCases.EmptyCodeBlockUnclosed | pkg/markdown/lex.go:341-361 | the input ```` ```\n``` ```` fails with "unclosed code block" at offset 3: the closing `\n` is looked for only after the opening terminator, so an empty body never closes. `ScannerFacts.CodeFenceItems` states the general rule |
| HeaderFacts.HeaderStep | pkg/markdown/parse.go:119-132 | in a header, text is kept, EOL closes with `*` and the newline escape, EOF closes with `*` and is pushed back, and a backslash is dropped |
| HeaderFacts.HeaderMarkerStep | pkg/markdown/parse.go:133-148 | in a header, a doubled marker vanishes and a single one becomes `_` |
| HeaderFacts.HeaderConversion | pkg/markdown/parse.go:116-158 | a header that is the whole input converts to its text between `*`s, with emphasis flattened as `HRef` says |
| HeaderFacts.HeaderThenText | pkg/markdown/parse.go:116-158 | a header line followed by plain text converts to the header between `*`s, the newline escape, then the text's reference conversion |
| HeaderFacts.HeaderLevelIgnored | pkg/markdown/parse.go:116-127 | a header of any level from one to six converts the same way, with one `*` on each side of its text, so `## x` and `# x` give the same output |
| Bullets.BulletPrefixIsBullet | pkg/markdown/parse.go:96-97 | the bullet prefix is U+2022 in UTF-8 followed by a space |
| Config.PiecesToMap | pkg/config/config.go:55-57 | the keys are exactly the trimmed pieces, and every value is true |
| Config.StrToMap | pkg/config/config.go:43-60 | empty input gives an empty map; input not opening with `[` gives one key, the trimmed input; bracketed input gives exactly the trimmed comma-separated pieces; every value is true |
| Config.ListRoundTrip | pkg/config/config.go:53-57 | writing names as `[a,b,…]` and reading them back gives exactly the trimmed names |
| Config.TrimBrackets | pkg/config/config.go:53 | stripping brackets from `[t]` gives `t` when `t` has none at its ends |
| Config.SingleName | pkg/config/config.go:48-52 | a name that needs no trimming and does not open with `[` maps to itself |
| Config.IsTrueSpellings | pkg/config/config.go:31-32 | a flag is true exactly for the four-letter spellings of "true" in any case |
| Config.EqualFoldEquivalence | pkg/config/config.go:31-32 | case-insensitive equality is reflexive, symmetric and transitive |
| Config.EqualFold | pkg/config/config.go:31-32 | `strings.EqualFold` on ASCII letters; it is a predicate with no contract of its own. `EqualFoldEquivalence` states that it is an equivalence |
| Config.IsTrue | pkg/config/config.go:31-32 | the `FailOnError` and `DumpEvent` flags; it is a predicate with no contract of its own. `IsTrueSpellings` states exactly which values are true |
| Strings.TrimSpace | pkg/config/config.go:50 | `strings.TrimSpace`: a non-empty result neither starts nor ends with white space. `TrimFuncUnique` states that the result is the input with exactly its leading and trailing white space removed |
| Strings.Trim | pkg/config/config.go:53 | `strings.Trim`: a non-empty result neither starts nor ends with a cutset character. `TrimFuncUnique` states that the result is the input with exactly those runs removed |
| Strings.TrimFuncUnique | pkg/config/config.go:50-56 | for input made of a run of trimmed characters, a core and another such run, where the core starts and ends with a kept character, trimming gives exactly the core |
| Strings.TrimFuncIdempotent | pkg/config/config.go:50-56 | trimming twice gives the same result as trimming once |
| Strings.Split | pkg/config/config.go:54 | `strings.Split` with a one-character separator always gives at least one piece. `SplitPieces`, `SplitLength` and `JoinSplit` state what the pieces are |
| Strings.SplitPieces | pkg/config/config.go:54 | no piece of a split contains the separator |
| Strings.SplitLength | pkg/config/config.go:54 | a split gives one more piece than the input has separators |
| Strings.JoinSplit | pkg/config/config.go:54 | joining the pieces of a split with the separator gives back the input |
| Strings.Join | pkg/config/config.go:54 | the inverse of `Split`, used to write list inputs; it has no contract of its own. `SplitJoin` states that splitting a join of separator-free pieces gives back the pieces |
| Strings.SplitJoin | pkg/config/config.go:54 | splitting a join of separator-free pieces gives back the pieces |
| Handler.ShortSHA | pkg/handler/handler.go:86-91 | the result is a prefix of the input of length min(len, 8) |
| Handler.ShortSHAProperties | pkg/handler/handler.go:86-91 | short hashes are idempotent, short inputs are kept, and hashes agreeing on 8 bytes share a short form |
| Handler.SlackMarkdown | pkg/handler/handler.go:74-84 | a non-string gives ""; a failed conversion gives ""; otherwise the conversion's text, which holds no tab |
| Handler.SlackMarkdownPlain | pkg/handler/handler.go:74-84 | for plain text the helper gives the reference conversion with tabs escaped |
| JsonValues.Lookup | cmd/slackhub/main.go:91 | a missing key gives nil, a present one its value |
| Events.Get | cmd/slackhub/main.go:84-98 | a non-object gives nil; an undotted key is a plain lookup |
| Events.GetWalk | cmd/slackhub/main.go:84-98 | a dotted lookup walks the key's `.`-separated segments one object at a time |
| Events.GetPath | cmd/slackhub/main.go:84-98 | a path of dot-free segments, written as a dotted key, is walked segment by segment |
| Events.QualifiedAction | cmd/slackhub/main.go:41-48 | the name when the payload has no `action` field; the name, `.` and the action's string when it has a string one; a non-string action panics |
| Events.Action | cmd/slackhub/main.go:50-61 | the action's string when it is a string, "default" when it is nil; any other value panics |
| Events.ActionAgreement | cmd/slackhub/main.go:41-61 | the qualified action is name.action for a string action, the bare name (action "default") with none; a null action panics in one and not the other |
| Events.Branch | cmd/slackhub/main.go:67-74 | the suffix after `refs/heads/` when `ref` is such a string, else "" |
| Events.BranchOfRef | cmd/slackhub/main.go:67-74 | a payload with `ref = refs/heads/b` has branch `b` |
| Events.Holds | cmd/slackhub/main.go:158-186 | each filter condition; the pull-request ones panic exactly when the qualified action does |
| Events.Ignore | cmd/slackhub/main.go:188-196 | the walk over the conditions gives true iff the first decided condition holds, false iff none holds, and panics iff the first decided one panics |
| Events.IgnoreEventAsWritten | cmd/slackhub/main.go:158-196 | the filter as built panics iff the qualified action does, and otherwise ignores an event iff one of its four conditions holds |
| Events.WrittenFilterMisfires | cmd/slackhub/main.go:178-181 | as written, a ready pull request is filtered out and a tag push is not |
| Events.IgnoreEvent | cmd/slackhub/main.go:178-181 | with the fourth condition as its comment says, the filter ignores an event iff one condition holds |
| Events.PushWithoutBranchIntended | cmd/slackhub/main.go:178-181 | the intended fourth condition ignores exactly pushes without a branch, and no other event |

## Findings

| source | as written | input that shows it | evidently intended | confidence | as-written member | corrected member |
|---|---|---|---|---|---|---|
| cmd/slackhub/main.go:178-181 | `ec.Name() != "push" && ec.Branch() == ""` ignores every non-push event whose payload has no top-level `ref` | a `pull_request` event with action `opened` and `draft: false` is ignored, and a push of `refs/tags/v1` is not | `ec.Name() == "push" && ec.Branch() == ""`, as the comment "ignore pushes unless to a branch (e.g. ignore tags)" says | medium, not executed | Events.WrittenFilterMisfires | Events.PushWithoutBranchIntended |
| pkg/markdown/parse_test.go:134-136 | the "With icons" test expects a `##` header to come out as `**…**`, but parse.go:117, 121 and 125 write one `*` on each side of a header of any level | `## a` converts to `*a*`, not `**a**` (`HeaderLevelIgnored` with text `a`, for which `HRef` gives `a`) | the code as written: one `*` on each side at every level. The test is taken as stale, because the header tests at parse_test.go:38-56 all expect one `*`, and a single `*` is Slack's bold delimiter | low, not executed | HeaderFacts.HeaderConversion | none: the model keeps the code's behaviour; `HeaderFacts.HeaderLevelIgnored` proves that the level never changes the output |

## Left out

- The goroutine, the unbuffered channel, `drain` and `recover` of the scanner and parser: the scan is a total function, so there is nothing to drain.
- The `runtime.Error` re-panic in `recover`: the model has no runtime errors.
- The exact error text. Errors carry the offending item, not the `fmt`-formatted message built by `item.String`, which truncates values to 10 characters.
- The `log.Println` calls in `parser.next` and in `SlackMarkdown` (handler.go:80), and the unused `expect`, `unexpected` and `parseX`. Logging has no effect on the results.
- UTF-8 decoding in `lexer.next`: every delimiter is ASCII, so a byte-level scan is the same.
- `Handler.Handle` (embedded templates and `text/template`), and `AsTimestamp`, which reads the wall clock.
- pkg/sender/sender.go (HTTP POST to Slack), `config.New`, the `logger` wrappers, and `run`/`main`. These read the environment or do I/O.
- `strings.EqualFold` folds all of Unicode; `Config.EqualFold` folds ASCII letters only. Compared with "true" the two agree, because no other character folds to `t`, `r`, `u` or `e`.
- ConverterFacts.PlainConversion and the other end-to-end lemmas describe whole inputs of given shapes, not every input. The item-level lemmas `ParseStep`, `ParseMarker`, `ParseFullLink`, `ParseBareLink`, `ParseCode`, `HeaderStep` and `HeaderMarkerStep` hold for every stream.
