# Verified core of the stellar.toml linter

This project models the parts of the linter whose correctness is hardest to see by reading, in Dafny, and proves what
they are for. Each model follows its source file branch by branch. A loop of the source is a method with its
invariants, proved against a specification function; the theorems are lemmas about those functions, for every input,
every run or every interleaving.

`dafny verify dfyconfig.toml` checks the whole project.

## What is modelled

| source file | modules |
|---|---|
| `src/format-file.ts` | `FormatScan`, `FormatDoc`, `FormatMethods` (the scanner, the rewriter, ordering, rendering and their loops); `ScanMeaning` (what the scanner and the rewriter do, piece by piece of a line); `FormatLines`, `FormatRescan`, `FormatIdempotence` (formatting twice is formatting once); `Sep1Names`, `FormatOrder` (the order of the output, by the names in the file); `FormatGaps` (its blank lines and comments); `FormatEdges` (the byte order mark, and what errors say); `FormatConservation`, `FormatTokens` (nothing is lost, and what a line says stays the same); `FormatAgree`, `TomlLines` (where TOML ends a construct, and how it reads a header line and a key/value); `FormatMeaning`, `FormatAccepts`, `FormatQuotes` (reordering keeps the document, and what is accepted); `DeepEqual` (the guard); `Sorting` |
| `src/cst/semantic-hash.ts` | `CodePoints`, `SemanticHash`, `CanonicalReading`, `CanonicalForm`; `JsonReader` (an independent reader of the canonical text) |
| `src/glob.ts` | `GlobSegment` (the compiler to regular expressions), `Glob` (the walk) |
| `src/presets.ts` | `Presets` |
| `src/fix.ts` | `BasicStrings`, `Splices`, `Fix`, `FixLines`, `FixRewrite`, `FixedLines`, `FixIdempotence`, `FixFinds` (the `fix` path); `OffsetFix`, `OffsetFinds` (the `computeFixEdits` path); `TomlStrings`, `FixTokens`, `FixReading` (both measured against TOML's own reading of strings) |
| `src/browser/share-state.ts` | `Int32`, `Base64Url`, `ShareState` |
| `src/soroban.ts` | `Wasm` |
| `integrations/k8s/controller.ts` | `Controller`, `ControllerRuns`, `PublishedObjects` |
| `src/browser/zip-validator.ts` | `ZipPool` |
| `src/comments.ts` | `Comments`, `PragmaTexts`, `SuppressionScan` |
| `src/config.ts` | `ConfigWalk`, `ConfigInterleave` |

`JsText`, `JsSpaces` and `Wrappers` hold the few string operations and result types all of them use.

What the code receives from elsewhere is a parameter, and what is assumed of it is written in the lemma that needs it:
the TOML parser, the key positions of a document, SHA-256, JSON, the compressor, the digest, the linter, the file
system, the clock, the API server's faults, and the order in which promises settle.

## What the code does not do

Some properties that a comment in the source promises, or that one would expect, do not hold. Each is stated with a
concrete input and with the condition under which the property does hold.

- A comment behind a table header loses its last character to the closing bracket, because `normaliseHeader` slices
  the end of the line off (`HeaderCommentLosesCharacter`). A header keeps its text if and only if the line ends with
  the brackets (`HeaderKept`). What it declares stays if and only if the comment is longer than the closing brackets
  (`HeaderRead`). One that is not, as in `[DOCUMENTATION] #`, leaves a bracket too many (`SignBreaksHeader`), so a valid
  document with such a header is always refused (`UnsafeHeaderRefused`).
- A comment behind a header also changes the rank of its section, because `sectionRank` looks at a name sliced off the
  same way, and white space inside the name does the same. So two headers that TOML reads under one top-level key can
  have two ranks. Then the sort exchanges items of one array (`CommentedHeadChangesMeaning`) or parts a subtable from
  the item it belongs to (`PaddedHeadChangesMeaning`, `PaddedHeadsDisagree`), and the output is a valid, but different
  document. The guard in `formatToml` refuses to write it (`ChangedOutputMeansTheSame`). If headers that TOML reads
  under one key have one rank, reordering is safe (`ReorderPreservesMeaning`).
- `deepEqual` never equates NaN with NaN, so a document that holds one is never reformatted (`NaNBlocksFormatting`);
  otherwise it decides equality of data (`Decides`).
- TOML lets a multi-line string end in one or two quotes of its own; `scanLine` closes it at the first three and takes
  a fourth quote for the start of another string. So `a=["""x"""",1]` is refused as unterminated
  (`FourQuotesRefused`), and `a = """x"""" # "[` swallows the lines behind it. The scanner ends a construct where TOML
  does when each of its lines leaves both at the same depth and in the same kind of string (`ExtentAgrees`), and
  nothing less will do, whatever lines follow (`StateDecidesEnd`). That is so whenever no closing quotes have
  one further quote behind them, or more than two, which TOML rejects anyway (`CleanLinesAgree`).
- Apart from that, from headers that do not agree or lose a bracket, and from NaN, nothing is refused: any other
  regular document that TOML accepts comes back as it is or laid out (`AcceptedUnlessNaN`).
- Two string tokens that touch can turn into an opening triple quote (`TouchingTokensOpenTriple`); TOML v1.0.0 has no
  such text outside comments and multi-line strings.
- The canonical form cannot tell a special float or a date from a user table with the single key `$float` or
  `$datetime` (`TaggedCollision`); without such tables it is injective (`CanonicalInjective`).
- `valueSpan` accepts a multi-line string whose closing quotes open the next line, so a fix can remove a line break
  (`SwallowsLineBreak`); the number of lines stays the same under the condition of `LinesKept`.
- `valueSpan` stops at the first three quotes, escaped or not, and does not take a fourth one that belongs to the
  string: a fix leaves it behind, and the document is broken (`LeavesQuoteBehind`). In the same way it takes a date
  without the time behind it, and the first `=` behind the start of a key, even inside the key's quotes
  (`FoundIsToken`). `SpanIsToken` says exactly when the span is TOML's value, and `TokenReplaced` when a fix replaces
  that value and nothing else. An empty replacement can join a quote that was left behind (`RunsIntoQuote`,
  `FixedValues`, `FixedTokens`).
- `computeFixEdits` writes a replacement without encoding it and takes the first two quotes of a triple quote for an
  empty string (`TripleQuotesBreak`, `TripleQuotesNeverFit`). A backslash in the replacement becomes an escape, and one
  that TOML does not know breaks the document (`UnknownEscapeBreaks`). It also takes the first `=` of the line for the
  separator, and so rewrites part of a quoted key that holds one (`KeyIsRewritten`). `RawStringReplaced` says exactly
  when the key stays and TOML's value is replaced by a string that says the replacement.
- `encodeValue` writes a control character as it is between single quotes, where TOML does not allow it
  (`LiteralTakesControl`); between double quotes every character is encoded (`TokenReplaced`).
- The comment of `encodeShareLink` says that a state over budget is returned in full; the code returns the longest of
  the links it tried, which need not hold the text (`OverBudgetLosesText`). It is the full one if and only if no
  lower rung's url is longer (`FullStateReturned`).
- `decodeShareLink` promises to report every bad link and never to throw; it throws on a link whose payload is the
  JSON value `null` (`NullPayloadThrows`), and on no other (`ThrowsOnNull`).
- A link that is read without a digest should be reported as `verified: false`, rather than claim a check that never ran;
  the code reports every link with a checksum as verified (`VerifiedUnchecked`). That claim is right if and only if
  the link has no checksum or the reader has a digest (`VerifiedMeansChecksum`).
- `readLeb128` is said to refuse what is not a well-formed 32-bit integer; five bytes that hold more are accepted and
  reduced modulo 2^32 (`WideIntegerIsCut`). The reading is exact if and only if the fifth byte, if there is one, has
  no bits beyond the 32nd (`ReadIsExact`).
- The directive names are tried longest first so that `disable-line` is not read as `disable`, which holds for every
  name written out; but a misspelt one is read as the shorter name it starts with (`MisspeltLineOpensBlock`). The name
  read is the whole word if and only if no hyphen follows it (`LongestNameIsRead`, `MisspeltOpensBlock`).
- A comment in `findConfig` says that a second lint in a run never probes the chain again. That holds for loads one
  after the other (`FindConfig`, `LoadConfig`) and not for loads that overlap, which still get the right answers (`OverlapsRepeat`,
  `OverlapsAreSound`).

## Model

| member | source | states |
|---|---|---|
| FormatIdempotence.FormatIdempotent | src/format-file.ts:136-183 | For every parser and document comparison and every regular source that `formatToml` accepts, formatting its output again yields exactly that output with `changed: false` |
| FormatIdempotence.LayoutIdempotent | src/format-file.ts:136-183 | Scanning, ordering and rendering laid-out text gives that text back |
| FormatIdempotence.RescanDocument | src/format-file.ts:189-245 | Scanning rendered blocks gives the same blocks back, with the blank lines and comments as rendered |
| FormatIdempotence.OrderBlocksCorrect | src/format-file.ts:483-501 | The ordered blocks are a permutation, sorted by SEP-1 section rank |
| FormatIdempotence.RereadSorted | src/format-file.ts:483-529 | Blocks that were sorted once and read again are not moved |
| FormatOrder.OutputInOrder | src/format-file.ts:136-245 | A scan of the text that is written finds its sections and, in every section, its keys in the order of SEP-1, given by the names written in the file: root, DOCUMENTATION, PRINCIPALS, CURRENCIES, VALIDATORS and the fields SEP-1 lists for each |
| FormatOrder.KeysSorted | src/format-file.ts:503-545 | In such a section the key/values are a permutation with the listed fields in their order, all others behind them, and each kind in source order |
| FormatOrder.OtherKeysStay | src/format-file.ts:508-529 | A section of any other name keeps its order |
| FormatOrder.SectionsSorted | src/format-file.ts:483-501 | The root comes first, then the four in their order, then all others, each kind in source order |
| FormatOrder.SegmentMeans | src/format-file.ts:535-545 | A key counts as a field if and only if it is that name, bare or in quotes, with white space around it and possibly a dot behind |
| FormatOrder.BlankLinesEnd | src/format-file.ts:189-245 | The blank lines that are written end as the first line of the source does |
| FormatRescan.KvStable | src/format-file.ts:286-310 | What a scan stores for a key/value construct is consumed again as exactly those lines under the same key |
| FormatRescan.HeaderStable | src/format-file.ts:261-270 | What a scan stores for a header is read as a header of the same name and normalises to itself |
| FormatLines.FirstLineStable | src/format-file.ts:317-324 | A rewritten first line leaves the scanner in the same depth and string state as the original, names the same key and rewrites to itself |
| FormatLines.KeyStable | src/format-file.ts:332-340 | A normalised key is a fixed point of normalisation and never reads as blank or as a comment |
| FormatScan.NormalizeCommutes | src/format-file.ts:348-480 | Scanning a line after quote rewriting ends in the same bracket depth and string state, finds a separator exactly if there was one, and finds the same comment |
| FormatScan.NormalizeIdempotent | src/format-file.ts:348-378 | Quote rewriting only goes one way: rewriting twice is rewriting once |
| FormatScan.TouchingTokensOpenTriple | src/format-file.ts:348-383 | Why touching string tokens are excluded: rewriting the text `''"b"` opens a multi-line string |
| FormatScan.TokenRewrite | src/format-file.ts:348-383 | Rewriting keeps a basic string token and writes a literal one in its basic form, whatever follows |
| FormatScan.WalkAppend | src/format-file.ts:411-480 | Scanning a concatenation is scanning its parts in turn, when the first ends between tokens |
| FormatScan.CutAtEq | src/format-file.ts:411-480 | The separator the scanner reports stands at depth 0, outside every string |
| FormatScan.CutAtComment | src/format-file.ts:411-480 | So does the comment it reports |
| ScanMeaning.LineMeans | src/format-file.ts:411-480 | For every line made of strings, brackets, other characters and an end (nothing, a comment, or a multi-line string left open), the scanner counts the brackets, reports the first `=` outside brackets and strings and a comment outside brackets, and knows which kind of string is left open |
| ScanMeaning.BasicEndsAtThree | src/format-file.ts:411-480 | Inside a multi-line basic string nothing counts before three quotes in a row, none of them escaped, and those end it |
| ScanMeaning.LiteralEndsAtThree | src/format-file.ts:411-480 | The same for a multi-line literal string, in which nothing is escaped |
| ScanMeaning.RewritingMeans | src/format-file.ts:348-404 | For every such line, rewriting writes each literal string between double quotes, with a backslash in front of its quotes and backslashes, and keeps every other character |
| FormatTokens.ReadNormalized | src/format-file.ts:348-404 | Quote rewriting keeps every token of a line, each literal string in its basic form saying the same characters, and valid if and only if it was |
| FormatTokens.FirstLineKept | src/format-file.ts:317-340 | Where the scanner and TOML agree on it, a rewritten first line has the same key (bare or quoted) and from the separator on the same tokens and comment |
| FormatTokens.ContinuationKept | src/format-file.ts:327-329 | A rewritten continuation line has the same tokens |
| FormatTokens.ConstructKept | src/format-file.ts:286-310 | A whole key/value construct keeps its key, its value and its comments, token by token and line by line |
| FormatTokens.HeaderKept | src/format-file.ts:261-265 | A rewritten header keeps all but white space if and only if the line ends with its closing brackets, and then only the name is trimmed |
| FormatTokens.BareKeyWritten | src/format-file.ts:332-340 | A key of letters, digits, underscores and hyphens is written without quotes, however it was quoted and padded |
| JsSpaces.TrimMeans | src/format-file.ts:189-245 | `trim` takes away exactly ECMAScript's white space and line terminators at both ends |
| FormatEdges.MarkStays | src/format-file.ts:136-183 | A byte order mark in front stays, and everything else, output or error, is as without it |
| FormatEdges.ErrorNamesLine | src/format-file.ts:189-310 | The line a scan error names is neither header, key/value, comment nor blank, or starts a key/value whose brackets and multi-line strings are never all closed at the end of a line |
| FormatConservation.NothingLost | src/format-file.ts:189-245 | The source lines are exactly the segments and the trailer; the output holds each rewritten segment exactly once, its comments directly in front of it, and then the trailer |
| FormatConservation.SegmentsCover | src/format-file.ts:189-245 | The segments cut from the source leave no gap and do not overlap |
| FormatConservation.SegmentsStored | src/format-file.ts:189-245 | Every segment is stored once, rewritten, in source order |
| FormatConservation.RenderKeepsAll | src/format-file.ts:547-577 | Rendering writes every stored piece exactly once, then the trailer |
| FormatConservation.HeaderCommentLosesCharacter | src/format-file.ts:261-265 | The exception: `[DOCUMENTATION] # note` becomes `[DOCUMENTATION] # not]` |
| FormatGaps.BlankLinesMean | src/format-file.ts:547-577 | In the output every section has one blank line in front, whatever the source has, and a key/value has one if and only if the source has any there; only what is written first has none |
| FormatGaps.CommentsWritten | src/format-file.ts:572-577 | Of the lines in front of a construct exactly those that are not blank are written, in their order and stripped at the end |
| FormatGaps.FirstLineWritten | src/format-file.ts:311-324 | A first line whose value closes is written as `key = value` with one space on each side of the `=`, whatever stood there, and one in front of a comment |
| FormatGaps.TrailerWritten | src/format-file.ts:568-569 | The lines behind the last construct are written one by one, stripped at the end |
| FormatGaps.LineStripped | src/format-file.ts:251-258 | Stripping takes away the spaces and tabs in front of a line's end and nothing else; a carriage return stays |
| FormatAgree.ExtentAgrees | src/format-file.ts:286-310 | If each line of a construct leaves the scanner and TOML's own walk in the same depth and string state, both end the construct behind the same line, or neither does |
| FormatAgree.StateDecidesEnd | src/format-file.ts:286-310 | Two states end a construct behind the same line whatever lines follow if and only if depth and kind of string are the same |
| FormatAgree.CleanLinesAgree | src/format-file.ts:411-480 | Scanner and TOML agree on every line of a document in which no closing quotes of a multi-line string have one further quote, or more than two, behind them |
| FormatAgree.ConstructStable | src/format-file.ts:286-340 | Where they agree on a construct they agree on its rewritten lines |
| FormatQuotes.FourQuotesRefused | src/format-file.ts:411-480 | An input: TOML reads `a=["""x"""",1]` as one key/value, and for every parser and comparison it is refused as unterminated |
| TomlLines.StatementKept | src/format-file.ts:286-340 | A rewritten key/value construct names the same path and has the same value tokens, read by TOML's rules from its own lines and from the source's |
| TomlLines.SameKeyPath | src/format-file.ts:332-340 | A bare key names the same path with and without its quotes |
| TomlLines.HeaderRead | src/format-file.ts:261-270 | A rewritten header declares the path the source's header declares if and only if no closing bracket and not the whole comment is cut off; otherwise TOML rejects it |
| TomlLines.SignBreaksHeader | src/format-file.ts:261-265 | An input: `[DOCUMENTATION] #` becomes `[DOCUMENTATION]]`, which is no header |
| FormatMeaning.ReorderPreservesMeaning | src/format-file.ts:483-545 | If headers that TOML reads under the same top-level key have the same rank, the SEP-1 order evaluates to the same document as the source order, or to the same parse error |
| FormatMeaning.BareHeadsAgree | src/format-file.ts:495-501 | Written headers whose names start with a bare segment meet that condition, whatever they are |
| FormatMeaning.AssignCommutes | src/format-file.ts:523-545 | Two dotted key assignments give the same table, or both orders fail |
| FormatMeaning.FillSorted | src/format-file.ts:523-529 | Filling a table in any stably sorted order gives the same table |
| FormatMeaning.BlocksSwap | src/format-file.ts:483-501 | Two blocks whose headers TOML does not read under one top-level key evaluate the same in either order |
| FormatMeaning.CommentedHeadChangesMeaning | src/format-file.ts:267-270 | An input: of `[[CURRENCIES]] # first` and `[[CURRENCIES]]`, the second is moved in front, and the valid output declares another document |
| FormatMeaning.PaddedHeadChangesMeaning | src/format-file.ts:495-501 | With a padded first segment the reordered blocks are a valid but different document |
| FormatMeaning.PaddedHeadsDisagree | src/format-file.ts:495-501 | Its headers are read under one key and have two ranks |
| FormatAccepts.AcceptedUnlessNaN | src/format-file.ts:136-183 | For every parser that reads the lines of source and output by TOML's rules and cuts them by TOML's own walk, `deepEqual` as the comparison, and a regular document on whose lines that walk and the scanner agree and whose headers are safe and agree: laid-out text comes back unchanged, and any other is rewritten if and only if the document holds no NaN |
| FormatAccepts.UnsafeHeaderRefused | src/format-file.ts:136-183 | If a header is not safe, such a document is always refused because the output would be invalid |
| FormatAccepts.LayoutKeepsDocument | src/format-file.ts:136-245 | The lines that are written declare, read and cut by TOML's rules, the document that the source lines declare |
| FormatAccepts.ScanKept | src/format-file.ts:189-245 | Where scanner and TOML agree, a scan stores, construct by construct, what TOML reads in the lines |
| Sorting.StableSortCorrect | src/format-file.ts:483-529 | The sort with an index tie-break is sorted, a permutation, and keeps the order inside each rank |
| FormatMethods.ScanBasic | src/format-file.ts:386-398 | The loop finds the end of a basic string, escapes included |
| FormatMethods.ScanLiteral | src/format-file.ts:401-404 | The search finds the end of a literal string |
| FormatMethods.NormalizeQuotes | src/format-file.ts:348-378 | The loop computes the quote rewriting that the lemmas are about |
| FormatMethods.ScanLine | src/format-file.ts:411-480 | The loop leaves the walker in the depth and string state of the specified scan and reports its columns |
| FormatMethods.ConsumeKv | src/format-file.ts:286-310 | The loop consumes exactly the specified construct, or fails with the line the source names |
| FormatMethods.ScanDocument | src/format-file.ts:189-245 | The loop builds the specified blocks and trailer, or the specified error |
| FormatMethods.Render | src/format-file.ts:547-570 | The loop writes the specified text |
| FormatMethods.PushLeading | src/format-file.ts:572-577 | The loop appends the comment lines, trimmed, and drops blank ones |
| FormatMethods.FormatToml | src/format-file.ts:136-183 | The whole function computes what the theorems are about, the guard included |
| DeepEqual.Decides | src/format-file.ts:583-611 | `deepEqual` holds if and only if the two values are the same data up to key order and hold no NaN |
| DeepEqual.EqualToItself | src/format-file.ts:583-611 | A value equals itself if and only if it holds no NaN |
| DeepEqual.ChangedOutputMeansTheSame | src/format-file.ts:136-183 | For every parser, output reported as changed parses to the data of its input, the byte order mark of both aside |
| DeepEqual.NaNBlocksFormatting | src/format-file.ts:136-183 | A document that holds NaN is never reported as changed |
| BasicStrings.LiteralSurvivesRewriting | src/format-file.ts:381-383 | The basic form of a literal string decodes to the characters of the literal, for every content |
| CodePoints.BeforeMeans | src/cst/semantic-hash.ts:97-106 | A text stands before another if and only if it is a proper beginning of it or has the lesser character at the first difference |
| CodePoints.BeforeTotal | src/cst/semantic-hash.ts:97-106 | The key order is irreflexive, total and transitive |
| CodePoints.Compare | src/cst/semantic-hash.ts:97-106 | The comparison loop computes that order |
| JsonReader.EscapeIsShort | src/cst/semantic-hash.ts:55-106 | A character is escaped by its name where JSON has one, by four small hexadecimal digits if it is another control character, and not at all otherwise |
| JsonReader.NoLeadingZero | src/cst/semantic-hash.ts:55-106 | Integers have no leading zeros |
| JsonReader.CanonicalIsRead | src/cst/semantic-hash.ts:55-106 | An independent JSON reader reads every canonical text to its end as the data it shows, with the members of every table in ascending order of code points |
| CanonicalReading.ReadUnique | src/cst/semantic-hash.ts:55-90 | Canonical texts that agree up to a delimiter show the same data and end at the same place |
| CanonicalForm.CanonicalDecides | src/cst/semantic-hash.ts:55-73 | Canonical texts are equal if and only if the values show the same data, key order aside |
| CanonicalForm.CanonicalInjective | src/cst/semantic-hash.ts:55-106 | On data without tables that imitate a tag, canonical texts are equal if and only if the data are |
| CanonicalForm.TaggedCollision | src/cst/semantic-hash.ts:79-90 | Without that condition a NaN and a table with the key `$float` collide |
| CanonicalForm.SemanticallyEqualMeans | src/cst/semantic-hash.ts:118-137 | If the hash does not collide on the two texts, two sources are semantically equal if and only if they parse to the same data |
| GlobSegment.CompileCorrect | src/glob.ts:140-171 | For every segment without a backslash, the regular expression written is valid if and only if every class is, and accepts exactly the names the segment stands for |
| GlobSegment.CompileParses | src/glob.ts:140-171 | For such a segment the written text parses to one item for each token |
| GlobSegment.SegmentRegex | src/glob.ts:140-171 | The loop writes that expression |
| GlobSegment.RangesMean | src/glob.ts:140-171 | A class names the characters between the ends of its ranges and its single ones; a descending range is invalid |
| GlobSegment.ClassBodyMeans | src/glob.ts:155-163 | A class ends at the first closing bracket, and without one the opening bracket is a character |
| Glob.ExpandGlob | src/glob.ts:43-73 | The result is strictly ascending and holds exactly the paths the pattern expands to |
| Glob.NoBackslash | src/glob.ts:43-51 | No segment that `expandGlob` hands over holds a backslash |
| Glob.PatternIsParts | src/glob.ts:43-54 | A pattern written with either slash, rooted or not, has the segments between its slashes, and one more behind a trailing globstar |
| Glob.PathIsJoined | src/glob.ts:56-66 | A path is its names with slashes between them, behind the root if there is one |
| Glob.HiddenMeans | src/glob.ts:111-114 | Names with a leading dot are passed over unless the segment has one, too |
| Glob.Walk | src/glob.ts:76-109 | A walk adds exactly the files below its directory whose path matches the segments, and ends |
| Glob.Descend | src/glob.ts:76-95 | The globstar's loop adds exactly the matches below visible directories |
| Glob.Visit | src/glob.ts:96-109 | The loop of an ordinary segment adds exactly the matches under accepted names |
| Glob.GlobstarMeans | src/glob.ts:76-95 | A leading globstar matches zero names, or one visible directory and the globstar again |
| Glob.SegmentMeans | src/glob.ts:96-109 | Any other leading segment matches one accepted name |
| Presets.EditDistance | src/presets.ts:249-264 | The two-row table computes the length of a shortest edit script |
| Presets.DistanceIsLeastCost | src/presets.ts:249-264 | The distance is achieved by some script of insertions, deletions and substitutions, and no script is shorter |
| Presets.DistanceTriangle | src/presets.ts:249-264 | The triangle inequality |
| Presets.DistanceSymmetric | src/presets.ts:249-264 | The distance is symmetric |
| Presets.DistanceZero | src/presets.ts:249-264 | The distance is 0 if and only if the texts are equal |
| Presets.DistanceBounds | src/presets.ts:249-264 | The distance lies between the difference of the lengths and the longer length |
| Presets.NearestPreset | src/presets.ts:231-246 | A suggestion is made if and only if some preset is within the threshold, and it is the first of those nearest |
| BasicStrings.DecodeOfEncode | src/fix.ts:260-326 | Decoding an encoded value gives it back, for every value |
| BasicStrings.EncodedCloses | src/fix.ts:247-326 | The closing quote of an encoded value is the first one the scan stops at |
| BasicStrings.EncodedIsPlain | src/fix.ts:295-326 | An encoded value holds no control character or line break and does not start with a quote |
| BasicStrings.OthersDecode | src/fix.ts:260-286 | A backslash that starts none of these escapes stands for itself |
| BasicStrings.EncodedShort | src/fix.ts:295-326 | A character is escaped by its name where TOML has one, by four small hexadecimal digits if it is another control character, and not at all otherwise |
| BasicStrings.EncodeBasic | src/fix.ts:295-326 | The loop writes the specified encoding |
| BasicStrings.CodeDecodes | src/fix.ts:260-286 | Four hexadecimal digits behind `\u` and eight behind `\U`, in either case, name the character with that code |
| BasicStrings.NamedDecodes | src/fix.ts:260-286 | So do the escapes with a letter, the quote and the backslash |
| Fix.LineStartOffsets | src/fix.ts:343-349 | The loop lists where the lines start |
| Fix.BasicEnd | src/fix.ts:247-257 | The loop finds the closing quote on the line, if there is one |
| Fix.LocateValue | src/fix.ts:168-244 | The search for a value finds the specified span, with its decoded value and quoting style, or nothing |
| Fix.FixSource | src/fix.ts:77-117 | The whole function computes the result the theorems are about |
| FixFinds.ValueIsFound | src/fix.ts:168-244 | A key that stands at its column, with no `=` before the separator and a basic, literal or bare value that ends on the line, is found by the last part of its path: exactly the value's range, what it says and its quotes |
| FixFinds.FixIsMade | src/fix.ts:77-117 | Then a fix that differs from the value is among the edits returned, unless one of those reaches into its range |
| FixFinds.OnlyFixIsMade | src/fix.ts:77-117 | On its own it is the one edit, and the result is the source with the value replaced |
| FixLines.ValueSpanOnLine | src/fix.ts:168-244 | Where a value stands depends on its own line only |
| FixRewrite.ValueRewritten | src/fix.ts:168-292 | `valueSpan` reads a rewritten value as its replacement if and only if its quotes end clean |
| FixIdempotence.FixedValues | src/fix.ts:77-117 | After a run `valueSpan` reads the replacement at every key that was found, if and only if the replacements end clean |
| FixReading.FixedTokens | src/fix.ts:77-117 | After a run TOML reads, in the place of every rewritten value, a string that says the replacement and ends where it was written to end, if and only if no control character goes between single quotes and no quote behind an empty one joins it |
| FixReading.FoundIsToken | src/fix.ts:168-244 | The span found for a key is TOML's value of that key if and only if no `=` stands in the key and it is a valid value of which nothing goes on behind it |
| FixTokens.SpanIsToken | src/fix.ts:168-244 | The span is TOML's value if and only if, by style: a string holds only characters and escapes that TOML allows, no quote stands behind a multi-line one and its closing quotes are not escaped; no time stands behind a date |
| FixTokens.TokenReplaced | src/fix.ts:77-117 | One fix replaces TOML's value by a valid string that says the replacement, and nothing else, if and only if the span is that value and the replacement reads there: no control character goes between single quotes, and no quote joins an empty one |
| FixTokens.LiteralTakesControl | src/fix.ts:260-292 | An input: a control character written between single quotes makes the string invalid |
| FixTokens.LeavesQuoteBehind | src/fix.ts:168-244 | A fourth closing quote is left behind by any replacement |
| FixIdempotence.FixIdempotent | src/fix.ts:77-117 | Then a second run with the same diagnostics makes no edit |
| FixIdempotence.KeysStay | src/fix.ts:77-117 | Every line keeps its text up to its value, so line and column of every key stay |
| FixIdempotence.LinesKept | src/fix.ts:77-117 | The number of lines stays the same if and only if no replaced range holds a line break |
| FixIdempotence.SwallowsLineBreak | src/fix.ts:168-244 | A value that spans a line break and is found nevertheless |
| FixIdempotence.RunsIntoQuote | src/fix.ts:168-244 | A value behind which a fourth quote stands, where an empty replacement does not end clean |
| Splices.KeptIsOrdered | src/fix.ts:332-341 | The kept edits are in order, disjoint and inside the source; each dropped one starts inside a kept one |
| Splices.FirstEditWins | src/fix.ts:332-341 | Of several edits of one range the one listed first is kept |
| Splices.SortNonOverlapping | src/fix.ts:332-341 | The loop keeps exactly those edits |
| Splices.DedupeOverlaps | src/fix.ts:396-406 | So does the loop of the other path |
| Splices.Apply | src/fix.ts:109-116 | Splicing back to front equals replacing all ranges at once |
| Splices.LengthBalance | src/fix.ts:109-116 | The length of the result is that of the source plus what the edits grow |
| Splices.Untouched | src/fix.ts:62-68 | Every character outside the replaced ranges is kept, shifted by what stands before it |
| Splices.Written | src/fix.ts:62-68 | The text of every edit stands where its range was |
| OffsetFix.OffsetValueSpan | src/fix.ts:125-158 | The search for a value inside its quotes finds the specified range, or nothing |
| OffsetFinds.StringIsFound | src/fix.ts:125-158 | For every string that ends on its line, behind the first `=` of the line and blanks, the search finds exactly the text between its quotes |
| OffsetFinds.PlainIsFound | src/fix.ts:125-158 | It finds exactly any other value, up to the blanks in front of a comment or of the end of the line |
| OffsetFinds.EditIsAsked | src/fix.ts:46-59 | A diagnostic at such a place whose fix differs makes exactly that edit, and the result is the source with it made |
| OffsetFix.ComputeFixEdits | src/fix.ts:46-59 | The edits are the specified ones, in order, disjoint and inside the source |
| OffsetFix.ApplyFixes | src/fix.ts:62-68 | The result is the source with those ranges replaced at once |
| OffsetFix.RawReadsBack | src/fix.ts:125-158 | On any line, the search finds again exactly the text that was written if and only if it fits there: no closing quote inside a string, no comment sign, quote or outer blank in a bare value, no line break |
| OffsetFix.RawStringReplaced | src/fix.ts:46-68 | Writing a replacement replaces the string TOML reads behind the key by one that says the replacement, and nothing else, if and only if the key holds no `=`, the value is a valid one-line string in single or double quotes, and the replacement holds no closing quote, no control character and, between double quotes, no backslash (and is not empty where a third quote follows) |
| OffsetFix.AppliedReadsBack | src/fix.ts:46-68 | After `applyFixes` with one diagnostic the search finds what was written if and only if it fits, and then a second run changes nothing |
| OffsetFix.AppliedString | src/fix.ts:46-68 | And TOML's string is replaced under exactly the condition above |
| OffsetFix.EachString | src/fix.ts:46-68 | With any number of diagnostics, TOML reads each replacement written between quotes of its own if and only if it says itself there |
| OffsetFix.TripleQuotesNeverFit | src/fix.ts:125-158 | A value in three quotes is never replaced, whatever the replacement |
| OffsetFix.SameLineStart | src/fix.ts:343-349 | Counting line breaks and listing line starts find the same line |
| OffsetFix.SameValue | src/fix.ts:125-244 | On every one-line string whose key stands first, the two ways to locate a value agree, quotes aside |
| OffsetFix.UnknownEscapeBreaks | src/fix.ts:46-68 | An input: writing `\q` into `A="x"` gives a string that TOML rejects |
| OffsetFix.KeyIsRewritten | src/fix.ts:125-158 | An input: in `"a='b'"="x"` the fix renames the key and TOML's value stays |
| OffsetFix.TripleQuotesBreak | src/fix.ts:125-158 | An input: TOML reads all of `"""x"""`, and in the output a string that ends in the middle of the quotes left over |
| Base64Url.DecodeOfEncode | src/browser/share-state.ts:148-184 | Decoding an encoding gives back every byte sequence, and the encoding has ceil(8n/6) characters |
| Base64Url.BitsKept | src/browser/share-state.ts:148-162 | The letters stand for the bits of the bytes in order, filled up with zeros to a whole letter |
| Base64Url.LettersMean | src/browser/share-state.ts:148-162 | Six bits are written as their letter of the alphabet of section 5 of RFC 4648 |
| Base64Url.EncodeOfDecode | src/browser/share-state.ts:148-184 | Encoding a decoded text gives it back if and only if it is decodable and its left-over bits are zero |
| Base64Url.ShiftIn | src/browser/share-state.ts:148-184 | Although the register overflows 32 bits, the bits that are read are right |
| Base64Url.OrFills | src/browser/share-state.ts:148-184 | The bitwise or adds the next byte or sextet to the shifted register |
| Int32.OrAdds | src/browser/share-state.ts:148-184 | On 32-bit integers a bitwise or is a sum when one side has none of the low bits and the other no others |
| Base64Url.ToBase64Url | src/browser/share-state.ts:148-162 | The loop over the overflowing register computes the encoding of section 5 of RFC 4648 without padding |
| Base64Url.FromBase64Url | src/browser/share-state.ts:165-184 | The loop over the overflowing register computes its decoding, or refuses |
| ShareState.EncodeShareLink | src/browser/share-state.ts:383-412 | The link is the first one of the ladder that fits; if none fits, the first of the longest, marked over budget |
| ShareState.FullStateReturned | src/browser/share-state.ts:373-412 | A state over budget is returned in full if and only if no lower rung's url is longer than the full one |
| ShareState.OverBudgetLosesText | src/browser/share-state.ts:373-412 | A short text with a long domain comes back as a link that has lost the text |
| ShareState.StateReadsBack | src/browser/share-state.ts:319-493 | For engines whose reading undoes their writing, reading a packed state gives back the domain of a state without text and the text of any other (empty if it has none), its strictness, and its rules if there are any |
| ShareState.LinkReadsBack | src/browser/share-state.ts:352-493 | The rungs and what reading the link of each gives: everything; the text alone; the domain with rules and strictness; the domain alone |
| ShareState.PayloadRestored | src/browser/share-state.ts:422-493 | Of any well-shaped link, which fields of the payload are restored, and when it is refused |
| ShareState.FragmentText | src/browser/share-state.ts:328-344 | The fragment is `#state=`, mode and codec, checksum and payload, with dots between them |
| ShareState.UrlOfLink | src/browser/share-state.ts:352-371 | The link is the page without its fragment and the state's fragment; it fits if and only if it is within the budget |
| ShareState.DecodeOfPack | src/browser/share-state.ts:319-344 | Reading a packed state gives what packing carries, verified if and only if a checksum was written |
| ShareState.VerifiedMeansChecksum | src/browser/share-state.ts:422-493 | A link that is restored is called verified if and only if it has a checksum; the claim is true if and only if it has none or the reader has a digest to compare it with |
| ShareState.VerifiedUnchecked | src/browser/share-state.ts:283-302 | A link written with a digest and read without one is called verified although nothing was compared |
| ShareState.NullPayloadThrows | src/browser/share-state.ts:422-493 | A link with the JSON payload `null` makes the decoder throw |
| ShareState.ThrowsOnNull | src/browser/share-state.ts:422-493 | For every engine and fragment: decoding throws if and only if the fragment carries a well-shaped link whose payload is base64url, decompresses to non-empty bytes that pass the checksum, and is the JSON value `null` |
| Wasm.ReadLeb128 | src/soroban.ts:145-161 | The loop over a 32-bit value returns the base-128 sum modulo 2^32 within five bytes, or nothing |
| Wasm.ReadIsExact | src/soroban.ts:140-161 | The value read is the integer that was written if and only if it takes fewer than five bytes or its fifth has no bits beyond the 32nd |
| Wasm.WideIntegerIsCut | src/soroban.ts:140-161 | The bytes FF FF FF FF 7F hold 35 bits and are read as 2^32 - 1 |
| Wasm.ReadOfEncode | src/soroban.ts:145-161 | Reading the encoding of any n below 2^32 gives n and the offset behind it |
| Wasm.OrIn | src/soroban.ts:145-161 | One turn adds the next seven bits, and only the fifth byte can lose any |
| Wasm.OrAddsDigit | src/soroban.ts:145-161 | The bits a turn puts in with a bitwise or are still free, so it adds them |
| Wasm.WasmCustomSection | src/soroban.ts:172-200 | The loop over the sections computes the specified search |
| Wasm.ReadsPrintedModule | src/soroban.ts:172-200 | On every printed module it returns the payload of the first custom section with the name, or nothing |
| Wasm.SliceOfModule | src/soroban.ts:172-200 | On any bytes what is returned is a slice of them from behind the header |
| Controller.ApplyConfigMap | integrations/k8s/controller.ts:369-384 | Create-or-replace makes the specified calls and leaves the specified store |
| Controller.ApplyIngress | integrations/k8s/controller.ts:386-401 | The same for an Ingress |
| Controller.Reconcile | integrations/k8s/controller.ts:414-508 | A pass leaves the cluster and returns the outcome that the run theorems are about |
| PublishedObjects.RunPublishes | integrations/k8s/controller.ts:220-306 | Along every run, whichever calls fail, each object in the cluster was there before or has the fields a resource of the run asks for whose text the linter passed: name, namespace, labels, annotations and owner; the ConfigMap's one key with the spec's text; the Ingress's host, path, path type, class, service and port with their defaults |
| PublishedObjects.SuccessPublishes | integrations/k8s/controller.ts:414-508 | A pass that reports no sync error leaves those objects in the cluster and names them in its outcome; without faults it reports none |
| PublishedObjects.PassReports | integrations/k8s/controller.ts:414-508 | The reasons, messages and generation of both conditions; a pass over a text the linter does not pass writes no object and reports what was published before |
| PublishedObjects.StatusIsKept | integrations/k8s/controller.ts:414-508 | The status that is written holds what the pass reports; a pass without an error has written it, and an error says that publishing failed or that the status could not be written |
| ControllerRuns.PublishedStays | integrations/k8s/controller.ts:414-508 | Along every run an object changes only in a pass whose spec validates and publishes under its key; a run of failing specs leaves every ConfigMap and every Ingress as it was |
| ControllerRuns.OnlyValidatedContent | integrations/k8s/controller.ts:414-508 | Along every run, whichever calls fail, each object in the cluster was there before or is one that the builders make for a validated spec of the run |
| ControllerRuns.PublishedIsTrue | integrations/k8s/controller.ts:414-508 | When a pass reports no sync error the cluster holds its objects; without faults every validated pass gets there |
| ControllerRuns.TransitionTimes | integrations/k8s/controller.ts:312-329 | Along the persisted statuses each condition's transition time is that of the pass where its status last flipped, or the one the resource came with |
| ZipPool.PoolState.constructor | src/browser/zip-validator.ts:127-165 | A new pool has taken its first tick |
| ZipPool.PoolState.TickNow | src/browser/zip-validator.ts:135-155 | The loop starts exactly the tasks the specified tick starts, and resolves when it does |
| ZipPool.PoolState.Fulfilled | src/browser/zip-validator.ts:142-162 | A fulfilled task stores its result in its place and ticks |
| ZipPool.PoolState.Rejected | src/browser/zip-validator.ts:142-162 | A rejected task only rejects |
| ZipPool.InvariantHolds | src/browser/zip-validator.ts:127-165 | The pool's invariant holds after every schedule of settlements |
| ZipPool.BoundHolds | src/browser/zip-validator.ts:127-165 | No more than `concurrency` tasks are ever under way |
| ZipPool.StartedOnce | src/browser/zip-validator.ts:127-165 | Tasks start in input order, each at most once, and all of them if none is pending or failed |
| ZipPool.ResolvesIff | src/browser/zip-validator.ts:127-165 | The pool resolves at most once, and if and only if every item is defined and every task fulfilled (with no room for a task: if and only if there is no item) |
| ZipPool.ResolvesInOrder | src/browser/zip-validator.ts:127-165 | It resolves with the fulfilled values in input order |
| ZipPool.RejectionIsFinal | src/browser/zip-validator.ts:127-165 | After a rejection it never resolves |
| ZipPool.RunsAreShort | src/browser/zip-validator.ts:127-165 | Every schedule is at most as long as the input |
| ZipPool.NeverStalls | src/browser/zip-validator.ts:127-165 | An unresolved pool without rejections always waits for some task |
| PragmaTexts.SuppressedMeansDeclared | src/comments.ts:46-118 | For every source, line and rule: a rule is suppressed if and only if a line or next-line pragma names it there or a block still holds it back after the line's own pragma |
| PragmaTexts.MapIsDeclared | src/comments.ts:46-110 | The same for the map built from a list of lines |
| PragmaTexts.RuleListMeans | src/comments.ts:22-30 | A list stands for all rules if and only if no stretch between its commas holds a name or one is `*`; otherwise it names exactly the trimmed stretches |
| PragmaTexts.DirectiveIsRead | src/comments.ts:16-20 | Each of the four directives, written out behind a sign, is read as itself, with the rest of the line as its list |
| PragmaTexts.LinesMean | src/comments.ts:46-50 | Lines end at a line feed, with or without a carriage return in front |
| Comments.BlocksHold | src/comments.ts:46-110 | The stack holds a block for a rule if and only if some line opened one that nothing has lifted since |
| Comments.LaterLinesDoNotMatter | src/comments.ts:46-110 | No later line changes what is suppressed on an earlier one |
| Comments.WildcardStaysOpen | src/comments.ts:46-110 | A specific `enable` never ends a wildcard block |
| Comments.ExecIsLeftmost | src/comments.ts:20 | The pragma found on a line is the one that starts furthest left |
| Comments.LongestNameIsRead | src/comments.ts:16-20 | Of the directive names that open the text the longest is read; a name written out is read as itself, and the name read is the whole word if and only if no hyphen follows it |
| Comments.MisspeltOpensBlock | src/comments.ts:16-30 | Every other word that starts with `disable-` is read as a block, for rules the first of which starts with the hyphen |
| Comments.MisspeltLineOpensBlock | src/comments.ts:16-30 | So `disable-lines` opens a block for the rule `-lines` |
| SuppressionScan.ParseSuppressions | src/comments.ts:46-110 | The loop over mutable sets builds exactly the specified map |
| SuppressionScan.Scan.Add | src/comments.ts:46-110 | Adding rules to a line copies the set: the map and the live blocks never share one |
| SuppressionScan.Scan.Lift | src/comments.ts:46-110 | A specific `enable` deletes in place and splices out empty blocks, and leaves the map alone |
| SuppressionScan.Scan.Obey | src/comments.ts:46-110 | A pragma does what its kind says |
| SuppressionScan.Scan.Cover | src/comments.ts:46-110 | The active blocks cover the line |
| SuppressionScan.Scan.Turn | src/comments.ts:46-110 | One turn of the loop is one step of the specification |
| SuppressionScan.Scan.Suppresses | src/comments.ts:113-118 | The lookup answers for the map |
| ConfigWalk.NearestIsDeepest | src/config.ts:87-115 | The config found is that of the deepest directory on the way up that has one, or none if there is none |
| ConfigWalk.FreshMeans | src/config.ts:56-67 | Without a config on the way up the load gives no rules, not strict and no limit; with one, what the deepest holds |
| ConfigWalk.ConfigCache.RememberWalk | src/config.ts:117-119 | Every directory of the walk gets the answer and no other entry changes |
| ConfigWalk.ConfigCache.FindConfig | src/config.ts:87-115 | The cached walk finds what a fresh walk would and keeps every entry right; walks that run one after the other probe no directory twice |
| ConfigWalk.ConfigCache.LoadConfig | src/config.ts:56-67 | A cached load gives the config or the error of a fresh one; loads that run one after the other read no file twice |
| ConfigWalk.LoadAll | src/config.ts:56-119 | Over any sequence of lookups each gets what it would get on its own |
| ConfigInterleave.OverlapsAreSound | src/config.ts:56-119 | However loads overlap while they wait for the disk, every entry of both caches and every answer is that of a load without caches |
| ConfigInterleave.LookupsEnd | src/config.ts:56-119 | Every step brings its load strictly nearer to its end and touches no other |
| ConfigInterleave.OverlapsRepeat | src/config.ts:56-119 | Two loads that overlap can wait for the same probe and then read the same file twice |

## Left out

Restrictions of what is stated:

- FormatIdempotence.FormatIdempotent: sources with line feeds only, because the line ending a blank line is given comes from the first line; closed one-line strings that do not touch and no header `[ [a] ]`, both of which TOML v1.0.0 demands; a byte order mark only at the start.
- FormatTokens.ConstructKept: the same sources, where the scanner and TOML agree on the lines of the construct.
- FormatMeaning.ReorderPreservesMeaning: one direction; headers that do not agree may still keep their meaning, when nothing is parted. What a value is, and which values are valid, is a parameter that sees the tokens of the value's lines.
- FormatAccepts.AcceptedUnlessNaN: one direction for the conditions on lines and on head order: a document that does not meet them can be accepted when nothing is lost. The parser's values depend on the tokens of their lines.
- FormatAccepts.UnsafeHeaderRefused: for documents on whose lines the scanner and TOML agree.
- OffsetFix.RawStringReplaced: the line is read as one that starts a key/value of its own, not as part of an array spread over lines.
- TomlLines.HeaderRead: the two closing brackets of an array header may stand apart in the source, which TOML v1.0.0 rejects; white space between tokens is that of `trim`.
- CanonicalForm.CanonicalInjective: how floats, dates and string escapes are printed is assumed to be injective and, for finite floats, to show a fraction or an exponent.
- FixIdempotence.FixIdempotent: at most one fix for each line, values and replacements without line breaks, and key positions that stay as given; a second fix of an empty bare value would be inserted beside the first.
- FixTokens.SpanIsToken: of the values that are no strings only their end is modelled, not what stands inside them.
- GlobSegment.CompileCorrect: a backslash inside a class would be an escape in JavaScript; `expandGlob` turns every backslash into a slash first, which Glob.NoBackslash proves.
- OffsetFix.AppliedReadsBack: one diagnostic at a time; OffsetFix.EachString covers several, for edits that stand apart from each other.
- Glob.ExpandGlob: the file system is a tree of names that does not change; a symbolic link is an entry like a file and is not followed; segments `.` and `..` are not resolved; paths are sorted by code points, which is the order of `sort` on text of the Basic Multilingual Plane.
- PublishedObjects.RunPublishes: an owner reference is known by the resource's uid.
- ControllerRuns.OnlyValidatedContent: one controller writes at a time; what the API server does with a call (create rejects what exists, update rejects what is missing or has changed) is part of the model.
- ConfigWalk.ConfigCache.FindConfig: a directory is its list of names below the root, so drive letters and relative paths are not modelled, and the file system does not change.

Not modelled:

- Characters are Unicode scalar values; lone surrogates are left out, and an escape that names one is read as U+FFFD, so columns agree with JavaScript's on text of the Basic Multilingual Plane.
- CRLF and mixed line endings in the formatter: the single-line functions treat a carriage return as the code does, the document theorems exclude it.
- The TOML parser, the source index, SHA-256, DEFLATE, JSON, text decoding, XDR and StrKey: foreign code, given as parameters.
- The text of error messages, notices and the Markdown link of a share state.
- `validateZip`, which adds up counters, and a mapper that throws before it returns a promise.
- Reading and validating a config file (`readAndParse`), rule sets and `assertKnownRule`: branches that one reading settles.
- Presets other than the lookup of the nearest name; Soroban keys and severities; RPC, network, TLS, command line, reporters, schema tables, worker and language-server wrappers.
