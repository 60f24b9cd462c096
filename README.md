# bootstrap-bundle selector pipeline and commands, in Dafny

This project models the core of the `jbsnewmedia/bootstrap-bundle` Symfony bundle.

**The purge service.** `PurgeService` collects the text of the scannable template and script files under the paths to scan. It extracts raw selector tokens from that text with six fixed regular-expression passes: `class`, `className`, `id`, `data-bs-theme`, open tags, and `classList.add`/`toggle` calls. It appends the user's extra selectors, normalizes the list (trim, first-byte check, whitespace collapsing) and deduplicates it, keeping first occurrences. It then hands the list to an external CSS purger.

**The two console commands.** `PurgeCommand` (`bootstrap:purge`) assembles the paths to scan, calls the service, reports the kept selectors and the HTML tags among them, and writes the purged CSS unless it is a dry run. `InitCommand` (`bootstrap:init`) creates `assets/scss` and writes the two starter stylesheets. It skips existing files unless forced, counts what it created, skipped and overwrote, and only reports in a dry run.

## Modules

| module | what it holds |
|---|---|
| `Wrappers` | `Option` and `Result`. |
| `Text` | The character classes and string functions the PHP code takes from its runtime. |
| `Paths` | Path functions and the extension allow-list. |
| `Filesystem` | The file system as a value. |
| `Console` | A command's outcome: exit code, output lines, final file system. |
| `Lists` | Lists built by appending, and `array_unique`. |
| `Collector` | `collectContents`. |
| `Scanners` | One matcher per fixed pattern, and the `preg_match_all` scan. |
| `Selectors` | The extraction passes and `normalizeSelectors`. |
| `SelectorProperties` | What the passes and the normalization promise. |
| `PurgeService` | `purge` up to the purger call. |
| `PurgeCommand` | `PurgeCommand::execute`. |
| `InitCommand` | `InitCommand::execute`. |

`Text` covers the PCRE `\s` class, the default `trim` set, ASCII case folding, `preg_replace('/\s+/', ' ')`, `preg_split('/\s+/')` and `%d`. `Paths` covers `basename`, the `PATHINFO_EXTENSION` part of `pathinfo`, Unix `dirname`, and `isScannableFile`. `Filesystem` models files, directories with the order their recursive walk yields, and the paths where `mkdir` or `file_put_contents` is refused.

**Loops and specifications.** Each PHP loop is a Dafny `method` with a loop invariant. Its `ensures` equates the result with a specification function, and lemmas prove the promised properties about that function. They sit in the same module, except for the `Selectors` methods (`ValueClassPass` to `NormalizeSelectors`), whose lemmas are in `SelectorProperties`. Strings are `seq<char>`, one `char` per PHP byte; only ASCII letters have a case.

**Where the code is followed over the tests.** The model follows the code where the tests describe a newer service:
- The code has no Twig comment stripping and no `{{ }}`/`{% %}` literal extraction.
- Its only validity check is the first byte (`src/Service/PurgeService.php:184`), not a full identifier grammar. Tokens like `.123invalid` or `:hover` are therefore kept.
- `collectContents` returns one string, not a pair with the scanned files, and there is no `scanned_files` stat.

## Model

| member | source | states |
|---|---|---|
| Text.SpaceAndTrimClassesDiffer | src/Service/PurgeService.php:179-189 | The `\s` class and `trim`'s default set differ in exactly two bytes: form feed is only in `\s`, NUL is only in the trim set. |
| Text.ToLower | src/Service/PurgeService.php:156 | One byte lower-cased: an upper-case ASCII letter gains 32 (`A` becomes `a`), a letter stays a letter, and every other byte is unchanged. |
| Text.Lower | src/Service/PurgeService.php:99 | `strtolower` keeps the length and lower-cases byte by byte. |
| Text.LowerIdempotent | src/Service/PurgeService.php:99 | Lower-casing twice is lower-casing once. |
| Text.Unspaced | src/Service/PurgeService.php:189 | The reference for "the text without whitespace": no longer than the input and free of `\s`. |
| Text.Trim | src/Service/PurgeService.php:179 | `trim` never lengthens, and its result neither starts nor ends with a trim byte. |
| Text.TrimIsFactor | src/Service/PurgeService.php:179 | `trim($s)` is a factor `s[i..j]`, and every byte cut off outside it is a trim byte. |
| Text.TrimEmptyIff | src/Service/PurgeService.php:179-182 | A token trims to `''` (and is skipped) exactly when all its bytes are trim bytes. |
| Text.TrimKeepsBytes | src/Service/PurgeService.php:179 | Every byte of the trimmed result occurs in the input. |
| Text.TrimOfTrimmed | src/Service/PurgeService.php:179 | A string that neither starts nor ends with a trim byte is unchanged. |
| Text.TrimIdempotent | src/Service/PurgeService.php:179 | Trimming twice is trimming once. |
| Text.TrimKeepsFirst | src/Service/PurgeService.php:184 | When the first byte is not a trim byte, the trimmed token keeps it, so `$sel[0]` is that byte. |
| Text.TrimPadded | src/Service/PurgeService.php:179 | A word padded by one trim byte on each side comes back bare. |
| Text.CollapseSpaces | src/Service/PurgeService.php:189 | `preg_replace('/\s+/', ' ')` never lengthens and empties only `''`. It keeps a non-space first byte; a leading run becomes `' '`. |
| Text.CollapseSpacesIsCollapsed | src/Service/PurgeService.php:189 | After collapsing, the only `\s` bytes are single plain spaces. |
| Text.CollapseSpacesKeepsText | src/Service/PurgeService.php:189 | Collapsing keeps every non-`\s` byte, in order. |
| Text.CollapseSpacesKeepsLast | src/Service/PurgeService.php:189 | Collapsing keeps a last byte that is not `\s`. |
| Text.CollapseSpacesOfCollapsed | src/Service/PurgeService.php:189 | An already collapsed string is a fixed point. |
| Text.SplitSpaces | src/Service/PurgeService.php:117 | `preg_split('/\s+/')` yields at least one piece, and no piece holds `\s`. |
| Text.SplitSpacesKeepsText | src/Service/PurgeService.php:117 | The pieces, concatenated, are exactly the non-`\s` bytes of the input, in order. |
| Text.NatToString | src/Command/PurgeCommand.php:88 | `%d` of a count is a non-empty digit string that starts with `0` only for zero. |
| Text.DecimalRoundTrip | src/Command/PurgeCommand.php:88 | Reading the printed count back gives the count. |
| Text.NatToStringInjective | src/Command/InitCommand.php:102 | Different counts print differently. |
| Paths.Basename | src/Command/InitCommand.php:67 | `basename` yields no slash. |
| Paths.Extension | src/Service/PurgeService.php:99 | The extension holds no dot and no slash, and is `''` when the basename has no dot. |
| Paths.ListedIff | src/Service/PurgeService.php:101 | The entry-by-entry `in_array(..., true)` lookup is list membership. |
| Paths.BasenameOfChild | src/Command/InitCommand.php:67 | The basename of `dir/name` is `name`. |
| Paths.ExtensionOfFileName | src/Service/PurgeService.php:99 | The extension of `dir/stem.ext` is `ext`. A dot in the stem or the directory does not matter. |
| Paths.ScannableByExtension | src/Service/PurgeService.php:97-102 | `dir/stem.ext` is scannable exactly when the lower-cased `ext` is one of the eleven listed extensions. |
| Paths.NoExtensionNotScannable | src/Service/PurgeService.php:97-102 | A basename without a dot is never scannable. |
| Paths.DottedDirectoryNotScannable | src/Service/PurgeService.php:97-102 | A dot in a directory name does not make a dot-less file scannable. |
| Paths.ListedExtensionScanned | src/Service/PurgeService.php:97-102 | A listed extension, in any letter case, is scanned. |
| Paths.UnlistedExtensionSkipped | src/Service/PurgeService.php:97-102 | An unlisted extension is not scanned. |
| Paths.ScannedExamples | tests/Service/PurgeServiceInternalTest.php:18-19 | `.twig` and `.html` files are scanned, in any directory and for any stem. |
| Paths.UpperCaseExample | src/Service/PurgeService.php:99 | `.HTML` files are scanned too. |
| Paths.TextFileExample | tests/Service/PurgeServiceInternalTest.php:20 | `.txt` files are not scanned. |
| Paths.BinaryFileExample | src/Service/PurgeService.php:97-102 | `.bin` files are not scanned. |
| Paths.Dirname | src/Command/PurgeCommand.php:112 | `dirname` is `.`, `/`, `''`, or a prefix of the path that does not end in a slash. It is never empty for a non-empty path. |
| Paths.DirnameOfChild | src/Command/PurgeCommand.php:112 | The directory of `dir/name` is `dir`. |
| Paths.DirnameOfBareName | src/Command/PurgeCommand.php:112 | A bare file name lives in `.`. |
| Filesystem.MakeDir | src/Command/PurgeCommand.php:114 | `mkdir` succeeds exactly for a non-empty path that does not exist and is not refused. |
| Filesystem.WriteFile | src/Command/PurgeCommand.php:120 | `file_put_contents` succeeds exactly for a non-empty path that is not a directory and is not refused. |
| Filesystem.WriteThenRead | src/Command/PurgeCommand.php:120 | After a successful write the path is a file holding exactly the data. |
| Filesystem.WriteKeepsOthers | src/Command/InitCommand.php:80 | A write changes no other path. |
| Filesystem.MakeDirThenIsDir | src/Command/InitCommand.php:53 | After a successful `mkdir` the path is a directory; no file and no other directory changes. |
| Collector.ScannableOnly | src/Service/PurgeService.php:84-85 | The scannable entries of a walk are no more than the walk. |
| Collector.WalkContents | src/Service/PurgeService.php:84-88 | The inner loop appends, in walk order, the chunk of every entry the filter accepts. |
| Collector.PathContents | src/Service/PurgeService.php:78-91 | One path adds the chunks of the files it leads to, and nothing for `''`, a missing path or a file the filter rejects. |
| Collector.CollectWith | src/Service/PurgeService.php:76-94 | The loop over the paths, with any file filter, builds the chunks of the files read, in order. |
| Collector.CollectContents | src/Service/PurgeService.php:74-95 | `collectContents` returns the chunks of the scannable files the paths lead to, in visit order. |
| Collector.ScannableOnlyMembership | src/Service/PurgeService.php:84-85 | A walk entry is kept exactly when it is scannable. |
| Collector.PathFilesMembership | src/Service/PurgeService.php:78-91 | A path contributes exactly the accepted files it leads to. |
| Collector.ScannedFilesMembership | src/Service/PurgeService.php:77-92 | A file is read exactly when it is scannable and some non-empty path leads to it: a directory whose walk yields it, or the file itself. |
| Collector.EveryScannedFileIsScannable | src/Service/PurgeService.php:85-89 | No file with an unlisted extension is ever read. |
| Collector.ChunksAppend | src/Service/PurgeService.php:86-90 | The buffer of two runs of files is the two buffers concatenated. |
| Collector.ScannedFilesAppend | src/Service/PurgeService.php:77-92 | The files read for two path lists are the two lists of files, concatenated. |
| Collector.CollectedAppend | src/Service/PurgeService.php:77-92 | Collecting two path lists in turn gives the two buffers concatenated. |
| Collector.SkippedPathAddsNothing | src/Service/PurgeService.php:78-91 | `''`, a missing path and a file with an unlisted extension add nothing to the buffer. |
| Collector.OneFileCollected | src/Service/PurgeService.php:89-90 | One scannable file yields `"\n\n/* FILE: " + path + " */\n" + contents`. |
| Collector.NothingCollected | src/Service/PurgeService.php:76-94 | No paths give `''`. |
| Lists.Dedup | src/Service/PurgeService.php:36 | `array_values(array_unique(...))` never lengthens and keeps exactly the same values. |
| Lists.DedupHasNoDuplicates | src/Service/PurgeService.php:36 | The deduplicated list has no value twice. |
| Lists.DedupOfDistinct | src/Service/PurgeService.php:36 | A list without duplicates is unchanged. |
| Lists.DedupIdempotent | src/Service/PurgeService.php:36 | Deduplicating twice is deduplicating once. |
| Lists.DedupKeepsFirstOccurrenceOrder | src/Service/PurgeService.php:36 | Kept values come in the order of their first occurrences in the input. |
| Lists.DedupAppendOne | src/Service/PurgeService.php:36 | A new value is appended; a repeated one is dropped. |
| Scanners.SpacesEnd | src/Service/PurgeService.php:115 | Greedy `\s*`: all bytes up to the end are `\s`, and the byte after is not. |
| Scanners.WordEnd | src/Service/PurgeService.php:147 | Greedy `[a-zA-Z0-9_-]+` run: maximal. |
| Scanners.TagNameEnd | src/Service/PurgeService.php:154 | Greedy `[a-z0-9-]*` run, caseless: maximal. |
| Scanners.FindFrom | src/Service/PurgeService.php:115 | Where the lazy `.*?` stops: the first copy of the byte at or after the offset, or none. |
| Scanners.MatchQuotedAttribute | src/Service/PurgeService.php:115 | A `NAME\s*=\s*(["'])(.*?)\1` match starts with the name in any case. It ends on a quote that does not occur in the capture. |
| Scanners.MatchThemeAttribute | src/Service/PurgeService.php:147 | A `data-bs-theme` match captures a non-empty `[a-zA-Z0-9_-]+` value. |
| Scanners.MatchOpenTag | src/Service/PurgeService.php:154 | An open-tag match starts at `<` and captures a tag name. |
| Scanners.MatchClassListCall | src/Service/PurgeService.php:161 | A `classList` call's capture holds no `)`. |
| Scanners.MatchQuotedArgument | src/Service/PurgeService.php:163 | A quoted-argument match captures a non-empty `[a-zA-Z0-9_-]+` word. |
| Scanners.MatchAt | src/Service/PurgeService.php:110-172 | A match at an offset ends after it, within the text, with a capture of the pattern's shape. |
| Scanners.Scan | src/Service/PurgeService.php:115-116 | Every capture `preg_match_all` collects has the pattern's shape. |
| Scanners.AllMatches | src/Service/PurgeService.php:115-116 | Every capture in the list the code reads has the pattern's shape. |
| Scanners.ScanSkipsNonMatches | src/Service/PurgeService.php:115-116 | Offsets where the pattern does not match add no capture: the scan from `i` equals the scan from the next offset that may match. |
| Scanners.ScanFirstMatch | src/Service/PurgeService.php:115-116 | Leftmost first, no overlap: a non-empty scan begins with the match at the first matching offset `j`, and the rest is the scan from that match's end, which lies beyond `j`. |
| Scanners.ScanFindsMatch | src/Service/PurgeService.php:115-116 | A match at any offset from `i` on means the scan from `i` captures something. |
| Scanners.ScanEmptyIff | src/Service/PurgeService.php:115-116 | `preg_match_all` captures nothing exactly when the pattern matches at no offset. |
| Scanners.ScanStartsReported | src/Service/PurgeService.php:115-116 | The `k`th capture `preg_match_all` collects is the capture of a match of the pattern at the `k`th recorded start offset, and that match ends after it starts, within the text. |
| Scanners.ScanStartsDisjoint | src/Service/PurgeService.php:115-116 | The recorded matches do not overlap: each ends no later than any later one starts, so the start offsets strictly increase. |
| Scanners.ScanStartsCover | src/Service/PurgeService.php:115-116 | Leftmost matching passes over nothing: every offset where the pattern matches lies inside one of the recorded matches. |
| Scanners.NoOpenTagFrom | src/Service/PurgeService.php:154 | No open tag is found where every `<` is followed by a byte that is neither `\s` nor a letter. |
| Scanners.ClosingTagYieldsNothing | src/Service/PurgeService.php:154 | A closing tag such as `</div>` yields no tag name. |
| Scanners.OpenTagAt | src/Service/PurgeService.php:154 | `<name>` at an offset is matched with `name` captured, ending after `>`. |
| Scanners.ElementYieldsTagOnce | src/Service/PurgeService.php:154-157 | `<name>text</closing>` with no other `<` yields the tag name once. |
| Scanners.NoOpenTagAfter | src/Service/PurgeService.php:154 | Text without `<` followed by a closing tag holds no open tag. |
| Scanners.QuotedAttributeAt | src/Service/PurgeService.php:115 | After `name="`, the value runs to the first copy of the same quote, whatever follows. |
| Scanners.ClassPatternSkipsClassName | src/Service/PurgeService.php:115-126 | The `class` pattern does not fire where `className` starts. |
| Scanners.QuotedThemeAt | src/Service/PurgeService.php:147 | `data-bs-theme="dark"` captures `dark` without the quotes. |
| Scanners.BareThemeAt | src/Service/PurgeService.php:147 | `data-bs-theme=dark` captures the whole word run. |
| Scanners.MismatchedThemeQuotes | src/Service/PurgeService.php:147 | A theme value opened by `"` and closed by `'` is not matched. |
| Scanners.NoAttributeWithoutEquals | src/Service/PurgeService.php:115-147 | The attribute patterns find nothing in text without `=`. |
| Scanners.NoClassListCallWithoutParenthesis | src/Service/PurgeService.php:161 | The `classList` pattern finds nothing in text without `(`. |
| Scanners.NoOpenTagWithoutBracket | src/Service/PurgeService.php:154 | The open-tag pattern finds nothing in text without `<`. |
| Scanners.QuotedArgumentAlone | src/Service/PurgeService.php:163 | `'w'` or `"w"`, with possibly different quotes, is the one argument match, capturing `w`. |
| Scanners.ToggleCallAlone | src/Service/PurgeService.php:161 | `classList.toggle(args)` is one call, capturing `args`. |
| Selectors.IdToken | src/Service/PurgeService.php:139-142 | One `id` value gives at most one selector. |
| Selectors.Normalized | src/Service/PurgeService.php:175-194 | The normalized list is no longer than its input. |
| Selectors.ValueClassPass | src/Service/PurgeService.php:117-121 | The split loop for one class value emits the dotted non-empty pieces after trim and split. |
| Selectors.ClassPass | src/Service/PurgeService.php:115-123 | The class and className loops emit the class selectors of every captured value, in order. |
| Selectors.IdPass | src/Service/PurgeService.php:137-144 | The id loop emits `#` and the trimmed value for every value that does not trim to `''`. |
| Selectors.ThemePass | src/Service/PurgeService.php:147-151 | The theme loop emits `[data-bs-theme=v]` for every captured value. |
| Selectors.TagPass | src/Service/PurgeService.php:154-158 | The tag loop emits every tag name, lower-cased. |
| Selectors.ArgumentPass | src/Service/PurgeService.php:163-167 | The inner `classList` loop emits every quoted argument, dotted. |
| Selectors.ClassListPass | src/Service/PurgeService.php:161-169 | The `classList` loop emits the arguments of every call, call by call. |
| Selectors.ExtractSelectors | src/Service/PurgeService.php:110-172 | `extractSelectors` is the six passes' tokens, concatenated in the source's order. |
| Selectors.NormalizeSelectors | src/Service/PurgeService.php:175-194 | `normalizeSelectors` keeps, in order, the canonical form of every accepted token. |
| SelectorProperties.DottedPiecesMembership | src/Service/PurgeService.php:117-121 | A class selector is `.` plus a non-empty piece, and every non-empty piece gives one. |
| SelectorProperties.DottedPiecesShape | src/Service/PurgeService.php:117-121 | A class selector is a dot and a non-empty run without `\s`. |
| SelectorProperties.ClassTokensMembership | src/Service/PurgeService.php:115-123 | A class-pass token comes from one captured value, and every token of every value is emitted. |
| SelectorProperties.ClassTokensShape | src/Service/PurgeService.php:115-134 | Class-pass tokens are `.` and a non-empty name without `\s`. |
| SelectorProperties.TwoClassNames | src/Service/PurgeService.php:117-121 | `class="w1 w2"` gives `.w1` and `.w2`. |
| SelectorProperties.SplitTwoWords | src/Service/PurgeService.php:117 | Splitting `w1 w2` gives the two words. |
| SelectorProperties.SplitSpacesOfWord | src/Service/PurgeService.php:117 | A word without `\s` splits into itself. |
| SelectorProperties.IdTokensMembership | src/Service/PurgeService.php:137-144 | An id token is `#` plus the trimmed form of a value that does not trim to `''`, and every such value gives one. |
| SelectorProperties.ThemeTokensAreOnePerValue | src/Service/PurgeService.php:147-151 | One attribute selector per captured theme value, in order. |
| SelectorProperties.TagTokensAreOnePerName | src/Service/PurgeService.php:154-158 | One lower-cased name per open tag, in order. |
| SelectorProperties.TagTokensAreLowerTagNames | src/Service/PurgeService.php:154-158 | Every tag token matches `[a-z][a-z0-9-]*`. |
| SelectorProperties.ArgumentTokensAreOnePerWord | src/Service/PurgeService.php:163-167 | One class selector per quoted argument, in order. |
| SelectorProperties.ClassListTokensMembership | src/Service/PurgeService.php:161-169 | A `classList` token is a dotted quoted argument of one of the calls. |
| SelectorProperties.OnlyTagsWithoutAttributes | src/Service/PurgeService.php:110-172 | Without `=` or `(` in the text, only the tag pass emits anything. |
| SelectorProperties.PlainElementExtracted | src/Service/PurgeService.php:154-158 | `<h1>Hello</h1>`-like text extracts exactly the lower-cased tag name. |
| SelectorProperties.ToggleCallExtracted | src/Service/PurgeService.php:161-169 | `classList.toggle("w")` extracts exactly `.w`. |
| SelectorProperties.ExtractedTokenAccepted | src/Service/PurgeService.php:184 | Every extracted token passes the first-byte test of the normalization. |
| SelectorProperties.NormalizedSnoc | src/Service/PurgeService.php:178-190 | One more token appends at most its canonical form. |
| SelectorProperties.NormalizedAppend | src/Service/PurgeService.php:178-191 | Normalizing a concatenation normalizes the parts: no token affects another. |
| SelectorProperties.NormalizedMembership | src/Service/PurgeService.php:178-191 | The output holds exactly the canonical forms of the accepted inputs. |
| SelectorProperties.NormalizedKeepsAccepted | src/Service/PurgeService.php:175-194 | When every token is accepted, none is dropped. |
| SelectorProperties.NormalizedDropsRejected | src/Service/PurgeService.php:180-187 | When no token is accepted, the output is empty. |
| SelectorProperties.ExtractedTokensAllKept | src/Service/PurgeService.php:184 | Normalization drops no extracted token. |
| SelectorProperties.CanonicalShape | src/Service/PurgeService.php:179-190 | An accepted token's canonical form starts like a selector and has only single plain spaces. |
| SelectorProperties.NormalizedShape | src/Service/PurgeService.php:175-194 | Every output element starts with `.`, `#`, `[`, `:` or an ASCII letter, and its only `\s` bytes are single plain spaces. |
| SelectorProperties.NormalSelectorHasNoNewline | src/Service/PurgeService.php:189 | A normalized selector holds no line break. |
| SelectorProperties.CanonicalIsTrimmed | src/Service/PurgeService.php:179-189 | Without form feeds in the token, its canonical form is trimmed. |
| SelectorProperties.TrailingFormFeedBecomesSpace | src/Service/PurgeService.php:179-189 | `".a\f"` normalizes to `".a "`: `trim` keeps the form feed, and the collapse turns it into a space. |
| SelectorProperties.CanonicalOfNormal | src/Service/PurgeService.php:179-189 | A well-formed, trimmed selector is accepted and is its own canonical form. |
| SelectorProperties.NormalizedOfCanonical | src/Service/PurgeService.php:175-194 | A list of well-formed, trimmed selectors normalizes to itself. |
| SelectorProperties.OutputIsCanonical | src/Service/PurgeService.php:175-194 | Without form feeds in the input, every output element is well formed and trimmed. |
| SelectorProperties.CanonicalOfToken | src/Service/PurgeService.php:179-189 | Without form feeds, a canonical form is well formed and trimmed. |
| SelectorProperties.NormalizedIdempotent | src/Service/PurgeService.php:175-194 | Without form feeds in the input, normalizing twice is normalizing once. |
| SelectorProperties.RejectedExamples | tests/Service/PurgeServiceInternalTest.php:89-90 | `['', '  ', '1abc', '!!!']` normalizes to `[]`. |
| SelectorProperties.PaddedWordIsTrimmed | tests/Service/PurgeServiceInternalTest.php:30-36 | A word with a selector start, padded with spaces, comes back bare. |
| SelectorProperties.InvalidIsPadded | tests/Service/PurgeServiceInternalTest.php:36 | `' invalid '` normalizes to `'invalid'`. |
| PurgeService.TrimmedExtras | src/Service/PurgeService.php:27-32 | The extras loop adds at most one selector per extra. |
| PurgeService.AddExtras | src/Service/PurgeService.php:27-32 | The extras loop appends the trimmed, non-empty extras after the found tokens, in order. |
| PurgeService.Purge | src/Service/PurgeService.php:21-71 | `purge` returns the kept list, the purger's CSS and the stats, or throws when the purger class is missing. |
| PurgeService.TrimmedExtrasMembership | src/Service/PurgeService.php:27-32 | An added extra is the non-empty trimmed form of some given extra, and every such form is added. |
| PurgeService.FailsOnlyWithoutPurger | src/Service/PurgeService.php:41-56 | The only exception `purge`'s own code raises is the missing-class one (lines 48-56): it is raised exactly when the purger class cannot be loaded, with its fixed message. The purger's own calls are assumed not to throw. |
| PurgeService.KeptAreDistinct | src/Service/PurgeService.php:35-36 | The kept selectors hold no duplicates. |
| PurgeService.KeptMembership | src/Service/PurgeService.php:23-36 | A selector is kept exactly when it is the canonical form of an accepted token, found or extra. |
| PurgeService.KeptAreNormal | src/Service/PurgeService.php:35-36 | Every kept selector starts like a selector and has only single plain spaces. |
| PurgeService.ExtraSelectorKept | src/Service/PurgeService.php:27-36 | An extra with a selector start is always kept, whatever the sources hold. |
| PurgeService.ExtraKeptAfter | src/Service/PurgeService.php:27-35 | An accepted extra survives normalization behind any list of found tokens. |
| PurgeService.StatsBound | src/Service/PurgeService.php:67-70 | `found` is the number of extracted tokens plus non-empty extras. `normalized` is the number kept, and it is at most `found`. |
| PurgeService.OnlyExtrasDropped | src/Service/PurgeService.php:24-35 | Before deduplication, only extras can be lost. |
| PurgeService.PurgerCallMade | src/Service/PurgeService.php:62-65 | `addSelectors` receives the kept list only when it is non-empty. The purger minifies exactly when readable output was not asked for. |
| PurgeService.NothingToKeep | src/Service/PurgeService.php:21-70 | No paths and no extras: nothing kept, zero stats, no `addSelectors` call. |
| PurgeCommand.DirectoryLoop | src/Command/PurgeCommand.php:63-67 | A directory loop keeps, in order, the non-empty entries that are directories. |
| PurgeCommand.ScanPaths | src/Command/PurgeCommand.php:55-77 | The three loops build the scan list: template dirs, then include dirs, then include files. |
| PurgeCommand.TagFilter | src/Command/PurgeCommand.php:98 | `array_filter` never lengthens the list. |
| PurgeCommand.Bullets | src/Command/PurgeCommand.php:94-96 | One bullet line per item. |
| PurgeCommand.WriteBullets | src/Command/PurgeCommand.php:94-96 | The `writeln` loop writes `  - item` for every item, in order. |
| PurgeCommand.ReportSelectors | src/Command/PurgeCommand.php:92-109 | The report branches write the selector report and the tag report. |
| PurgeCommand.WriteOutput | src/Command/PurgeCommand.php:111-125 | The write branch creates a missing output directory, then writes, failing with the matching error line. |
| PurgeCommand.WriteSummary | src/Command/PurgeCommand.php:88-90 | The three summary lines. |
| PurgeCommand.Execute | src/Command/PurgeCommand.php:55-127 | From the option values on, the command builds the scan list, calls the service, reports, and writes unless in a dry run, with the outcome `ExecuteOutcome` defines; its properties are the lemmas below. |
| PurgeCommand.DefaultRunScansTemplates | src/Command/PurgeCommand.php:35-42 | With the `configure` defaults, only the project's `templates` directory is scanned, when it is one; there are no extra selectors, and the run is neither readable nor dry. |
| PurgeCommand.ExistingDirsMembership | src/Command/PurgeCommand.php:63-72 | A directory entry is scanned exactly when it is non-empty and is a directory. |
| PurgeCommand.ExistingFilesMembership | src/Command/PurgeCommand.php:73-77 | A file entry is scanned exactly when it is non-empty and is a regular file. |
| PurgeCommand.ScannedPathsExist | src/Command/PurgeCommand.php:55-77 | A path is scanned exactly when it is a non-empty existing directory from a dir option, or a non-empty existing regular file from the file option. |
| PurgeCommand.TagPatternOnNormalSelectors | src/Command/PurgeCommand.php:98 | On normalized selectors, which never hold a newline, the tag pattern is exactly "a lower-case tag name". |
| PurgeCommand.FinalNewlinePasses | src/Command/PurgeCommand.php:98 | `$` lets a tag name followed by one `\n` through. |
| PurgeCommand.ExtractedTagsPass | src/Command/PurgeCommand.php:98 | Every tag the tag pass extracts passes the filter. |
| PurgeCommand.TagFilterMembership | src/Command/PurgeCommand.php:98 | The filter keeps exactly the matching selectors. |
| PurgeCommand.TagFilterOfDistinct | src/Command/PurgeCommand.php:98 | Filtering a list without duplicates leaves none. |
| PurgeCommand.ReportedTagsAreFilteredKept | src/Command/PurgeCommand.php:98 | The reported tags are the matching kept selectors, in kept order: `array_unique` changes nothing there. |
| PurgeCommand.BulletsMembership | src/Command/PurgeCommand.php:94-96 | A bullet line names exactly one item. |
| PurgeCommand.ExecuteFailsOnlyWithoutPurger | src/Command/PurgeCommand.php:80-86 | The command has no `try`, so the service's missing-class exception ends it. That exception, raised exactly when the purger class cannot be loaded, is the only one the command's and the service's own code can end it with. |
| PurgeCommand.DryRunWritesNothing | src/Command/PurgeCommand.php:111-127 | A dry run returns SUCCESS and leaves the file system as it was. |
| PurgeCommand.ExecuteLines | src/Command/PurgeCommand.php:88-109 | The output is the summary with the `found` stat and the kept count, then the selector report, then the write's lines. |
| PurgeCommand.KeptSelectorsListed | src/Command/PurgeCommand.php:92-96 | Every kept selector appears on a bullet line. |
| PurgeCommand.NothingKeptReport | src/Command/PurgeCommand.php:92-127 | With nothing kept, the fourth line is `Selectors found (normalized): none`, and there is no tag section: every later line comes from the write step, and a dry run has no later line. |
| PurgeCommand.NoTagShapedReport | src/Command/PurgeCommand.php:92-106 | When selectors are kept but none looks like a tag name, the report is the bullets followed by `HTML tags found: none`. |
| PurgeCommand.WriteIntoExistingDirectory | src/Command/PurgeCommand.php:120-127 | With the directory present, SUCCESS exactly when the write succeeds, and then the file holds the CSS. Otherwise FAILURE with the write error and no change. |
| PurgeCommand.OutputDirectoryNotCreated | src/Command/PurgeCommand.php:112-118 | A missing directory that cannot be created gives FAILURE and its error line, with no change. |
| PurgeCommand.WrittenOutputHoldsCss | src/Command/PurgeCommand.php:111-127 | The exit code is 0 or 1. On 0 the output file holds the CSS; on 1 the output file is unchanged. |
| InitCommand.ProcessFile | src/Command/InitCommand.php:67-93 | The loop body for one entry: skip, dry-run line, failed write, or written file with its counter. |
| InitCommand.FilesLoop | src/Command/InitCommand.php:62-94 | The `foreach` over `$files` with its counters, stopping at the first failed write. |
| InitCommand.PrepareDirectory | src/Command/InitCommand.php:49-60 | The directory step stops exactly when a real `mkdir` fails; otherwise it gives the state the loop starts from and its line. |
| InitCommand.Finish | src/Command/InitCommand.php:96-107 | The dry-run closing line, or the `Done.` line and hints, or the failure exit. |
| InitCommand.Execute | src/Command/InitCommand.php:40-107 | The command runs the directory step, the file loop and the closing lines over the stock templates, with the outcome `InitOutcome` defines; its properties are the lemmas below. |
| InitCommand.DryRunLines | src/Command/InitCommand.php:74-77 | A dry run writes one line per entry. |
| InitCommand.StepFailure | src/Command/InitCommand.php:80-85 | The body fails only on a real, refused write, and reports that entry. |
| InitCommand.FileLoopAppend | src/Command/InitCommand.php:66-94 | Looping over two lists is looping over the first, then, unless a write failed, over the second. |
| InitCommand.FailureIgnoresRest | src/Command/InitCommand.php:80-85 | After a failed write the later entries are never looked at. |
| InitCommand.FailureReported | src/Command/InitCommand.php:80-85 | A loop that fails ends on the error line of an entry whose write is refused. |
| InitCommand.OneLinePerEntry | src/Command/InitCommand.php:66-94 | A loop that completes writes one line per entry. |
| InitCommand.UntouchedPath | src/Command/InitCommand.php:66-94 | A path no entry names keeps its kind and contents. |
| InitCommand.ExistingKeptWithoutForce | src/Command/InitCommand.php:68-72 | Without `--force`, an existing path keeps its kind and contents. |
| InitCommand.DryRunLoop | src/Command/InitCommand.php:74-78 | A dry run changes nothing, never fails, counts only the skipped entries, and writes one line per entry. |
| InitCommand.StepDryLine | src/Command/InitCommand.php:68-78 | In a dry run the body writes the entry's line and changes nothing. |
| InitCommand.ForceCountsOverwritten | src/Command/InitCommand.php:87-89 | With `--force`, every entry written counts as overwritten and none as created. |
| InitCommand.NoForceCounts | src/Command/InitCommand.php:68-93 | Without `--force`, the existing entries are skipped and every other entry is created. |
| InitCommand.EveryEntryCounted | src/Command/InitCommand.php:62-94 | A completed loop counts every entry exactly once. |
| InitCommand.EntryContents | src/Command/InitCommand.php:66-94 | After a completed loop each path holds its entry's contents, unless it existed and was skipped. |
| InitCommand.DryRunLineAt | src/Command/InitCommand.php:74-77 | The `k`th dry-run line is the `k`th entry's. |
| InitCommand.TargetPathsDiffer | src/Command/InitCommand.php:40-44 | The two file paths differ from each other and from `assets/scss`. |
| InitCommand.RelOfChild | src/Command/InitCommand.php:67 | A file directly in `assets/scss` is shown as `assets/scss/` and its name. |
| InitCommand.TargetNames | src/Command/InitCommand.php:67 | The two files are shown as `assets/scss/bootstrap5-custom.scss` and `assets/scss/bootstrap5-custom-dark.scss`. |
| InitCommand.TargetsShape | src/Command/InitCommand.php:41-44 | `$files` is the light entry, then the dark one, with different paths. |
| InitCommand.StartKeepsOthers | src/Command/InitCommand.php:49-60 | The directory step changes no path other than `assets/scss`. |
| InitCommand.DirectoryFailureTouchesNothing | src/Command/InitCommand.php:53-57 | A failed `mkdir` gives FAILURE and its error line, before any file is touched. |
| InitCommand.ExitCodes | src/Command/InitCommand.php:53-107 | The exit code is 0 or 1, and 1 exactly when `mkdir` or a write fails. |
| InitCommand.WriteFailureReported | src/Command/InitCommand.php:80-85 | A write failure ends on the error line of one of the two files, whose write is refused. |
| InitCommand.FirstWriteFailureStops | src/Command/InitCommand.php:80-85 | When the light write fails, the dark file is never processed and nothing changes after the directory step. |
| InitCommand.DryRunOutcome | src/Command/InitCommand.php:49-99 | A dry run returns SUCCESS unchanged, with the directory line, one line per file and the closing line. |
| InitCommand.ExistingKept | src/Command/InitCommand.php:66-72 | Without `--force`, whatever existed is left as it was, however the command ends. |
| InitCommand.CountExistingTargets | src/Command/InitCommand.php:49-68 | Each file exists after the directory step exactly when it existed before. |
| InitCommand.NoForceRun | src/Command/InitCommand.php:62-94 | A completed run without `--force` skips the files that existed and creates the others. |
| InitCommand.ForceRun | src/Command/InitCommand.php:87-89 | A completed run with `--force` reports both files as overwritten. |
| InitCommand.SuccessfulRun | src/Command/InitCommand.php:62-105 | A completed run that writes counts each of the two files once and ends with the `Done.` counts line and the three `Next steps` lines. |
| InitCommand.EntryWritten | src/Command/InitCommand.php:80 | Each entry's path holds its template, unless it existed and was skipped. |
| InitCommand.WrittenTemplates | src/Command/InitCommand.php:41-43 | Both paths hold their templates, unless kept without `--force`. |
| InitCommand.StockTemplatesWritten | src/Command/InitCommand.php:110-155 | The texts written are those of `getLightContent()` and `getDarkContent()`. |

## Left out

- The external purger is a parameter. `loadContent`, `prepareContent`, `runContent` and `generateOutput` are the function `render`, applied to the call the service makes. Nothing is said about which CSS rules survive.
- The purger's own calls (`new BootstrapPurger`, `loadContent`, `prepareContent`, `runContent`, `addSelectors`, `generateOutput`) are assumed never to throw, for example on a missing input CSS file. `render` is total, so an exception from them is not modelled. `PurgeCommand::execute` has no `try` around the service call, so in the code such an exception would end the command.
- The `class_exists` check and the `require_once` fallback are the boolean `purgerAvailable`.
- The recursive directory walk is a parameter: each directory maps to the files its walk yields, in the order the walk yields them. The order `RecursiveDirectoryIterator` actually uses is not modelled.
- A regular file that exists but cannot be read is not modelled: every file in the model can be read. Reading anything that is not a regular file gives `''`, as the `false` of `@file_get_contents` does when concatenated.
- The causes of a failed `mkdir` or `file_put_contents` (permissions, a full disk) are abstracted into the set of refused paths.
- Paths are opaque keys of the file system: `out` and `out/`, `a/./b` and `a/b`, doubled slashes and symbolic links name different entries, and nothing resolves them. A faithful file-system value must answer every spelling of one path alike; the model does not require this. So `WriteFile` on `out/` succeeds when `out` is a directory, where PHP fails, and "no other path changes" (`WriteKeepsOthers`, `UntouchedPath`, `StartKeepsOthers`) holds per key, not per file on disk.
- Structural failures exist only through the refused paths: a `mkdir` below a regular file, or a write into a missing parent, fails only when that path is listed as refused.
- The error returns of PCRE are not modelled. `preg_match_all` returns `false` when it hits the backtrack or JIT limit, and the source then skips that whole pass; `preg_split` returns `false` and `preg_replace` returns `null` in the same case. The model runs every pass and every split and replacement to completion.
- `mkdir`'s recursive creation of missing parents is not modelled: a successful `mkdir` adds only the directory named.
- The `is_dir` re-check after a failed `mkdir` is not modelled, because there are no concurrent writers.
- The option casts at the top of both `execute` methods (`is_scalar`, `(string)`, `(array)`, `(bool)`) are not modelled. The options are typed values, and the `!is_string($path)` skip in `collectContents` cannot occur.
- `filesize` is the length of the file's contents.
- `src/Command/CompileCommand.php`, `src/Service/BootstrapPurgerFactory.php`, `src/Service/ScssCompilerFactory.php`, the service wiring and the demo controller are not part of this model.
- The stylesheet texts are a parameter (`Templates`) of the specification functions. `InitCommand.Execute` passes `StockTemplates`, which holds the two heredocs verbatim.
- The lemmas about the loops abstract two functions as parameters. `keep` is `isScannableFile` in `collectContents`; `shown` is the computation of `$rel` in `InitCommand`. `CollectContents` and `Execute` pass the real functions.
- SelectorProperties.NormalizedIdempotent: idempotence only holds without form feeds in the input. A token ending in a form feed keeps it through `trim` and comes out with a trailing space (`TrailingFormFeedBecomesSpace`).
- PurgeCommand.FinalNewlinePasses: the tag filter uses `$`, which also matches before a final newline. This is modelled as written; normalized selectors never hold a newline (`TagPatternOnNormalSelectors`).
- InitCommand.ForceCountsOverwritten: with `--force`, a file that did not exist before still counts as overwritten, because existence is checked after the write. This is modelled as written.
