# csctm core, modelled in Dafny

`csctm` turns a public ChatGPT share link into a Markdown file (and
optionally an HTML rendering of it). A headless browser loads the page and
reads each message's role and HTML. The program then:

- cleans each message's HTML;
- converts it to Markdown with Turndown, using a custom fenced-code rule;
- tidies the result;
- assembles the document with a header;
- picks a file name that is safe on every platform and does not collide
  with an existing file.

This project models the deterministic core of `src/index.ts` and proves what
it promises. The core covers:

- the slug of a title (`slugify`) and the collision-free path
  (`uniquePath`);
- the retry executor (`attemptWithBackoff`);
- the fenced-code rule and where `buildTurndown` places it in Turndown's
  rule list;
- the HTML clean-up (`cleanHtml`), the line-terminator normalisation and
  `escapeHtml`;
- the `ChatGPT - ` title-prefix strip;
- the assembly of the document in `scrape`;
- the command-line scanner (`parseArgs`).

Modules, one file each:

| file | module | models |
|---|---|---|
| text.dfy | `Text` | JavaScript string basics: whitespace, ASCII lowercasing, `startsWith`, `join`, `Option`/`Result` |
| slug.dfy | `Slug` | `slugify` and `RESERVED_BASENAMES` |
| unique_path.dfy | `UniquePaths` | `uniquePath`, over a set of existing paths |
| backoff.dfy | `Backoff` | `attemptWithBackoff` |
| turndown.dfy | `CodeRule` | the fenced-code rule, the rule-list splice, and the converter object as a class |
| sanitize.dfy | `Sanitize` | `cleanHtml`, `normalizeLineTerminators`, `escapeHtml`, the title-prefix regex |
| assembly.dfy | `Assembly` | the Markdown assembly at the end of `scrape` |
| cli.dfy | `Cli` | `parseArgs` |

Each global regular-expression replace is written out as a left-to-right
scanner. The scanner resumes after each match, as `String.prototype.replace`
does with a `g` regex.

The Turndown conversion itself is a parameter `turndown: string -> string`
of the assembly. Likewise, the file system is the set of paths that exist,
and the operation under retry is the outcome of each successive call.

Three facts of the code shape the model:

- The H1 heading is `# ChatGPT Conversation: ` followed by the stripped
  title (src/index.ts:447-448).
- A message pushes four lines: its heading, `""`, its Markdown and `""`
  (src/index.ts:455-461). When the Markdown is empty, the join puts three
  line feeds in a row, so the document can hold such a run
  (`Assembly.EmptyBodyLeavesTripleNewline`). Each message body on its own
  has none (`Assembly.BodyShape`).
- When no built-in rule is a code or pre rule, `buildTurndown` calls
  `addRule` (src/index.ts:344). Turndown's `addRule` puts the new rule at
  the front of `rules.array` with `unshift`; Turndown's source is not part
  of this model, and the model does the same. In both branches no code or
  pre rule comes before the custom rule (`CodeRule.InsertPosition`).

## Model

| member | source | states |
|---|---|---|
| Slug.Slugify | src/index.ts:301-307 | every slug is non-empty, uses only `[a-z0-9_]`, has no doubled `_` and no `_` at either end, is at most 120 characters long and is not a reserved device name |
| Slug.Clean | src/index.ts:302 | lowercasing, collapsing the runs outside `[a-z0-9]` and trimming `_` leave only slug characters, with no doubled or edge `_` |
| Slug.CollapseRuns | src/index.ts:302 | each run of characters outside `[a-z0-9]` becomes a single `_`: the output is no longer than the input, uses only slug characters and has no doubled `_`; a run at the start yields a leading `_` |
| Slug.CollapseKeepsAlnums | src/index.ts:302 | collapsing keeps exactly the `[a-z0-9]` characters of the input, in order |
| Slug.TrimLeading | src/index.ts:302 | `^_+` removes exactly the leading `_` run: the result is a suffix of the input, everything cut is `_`, and it does not start with `_` |
| Slug.TrimTrailing | src/index.ts:302 | `_+$` removes exactly the trailing `_` run: the result is a prefix of the input, everything cut is `_`, and it does not end with `_` |
| Slug.TrimUnderscores | src/index.ts:302 | both trims keep slug characters and no doubled `_`, and leave no `_` at either end |
| Slug.WithFallback | src/index.ts:303 | an empty cleaned title becomes `chatgpt_conversation`; a non-empty one is kept |
| Slug.Truncate | src/index.ts:304 | an input of at most 120 characters is kept; a longer one becomes its first 120 characters with the trailing `_` run removed, so at least 119 characters long; the result is still slug-shaped |
| Slug.EscapeReserved | src/index.ts:305 | a reserved name gains `_chatgpt` and any other name is kept; the result is a well-formed slug in both cases |
| Slug.SlugifyIdempotent | src/index.ts:301-307 | slugifying a slug gives it back unchanged |
| Slug.SlugifyNoAlnums | src/index.ts:302-303 | a title with nothing in `[a-z0-9]` after lowercasing slugifies to `chatgpt_conversation` |
| Slug.SlugifyIsClean | src/index.ts:301-307 | a title whose cleaned form is non-empty, at most 120 characters and not reserved slugifies to exactly that form |
| Slug.SlugifyOfShaped | src/index.ts:301-307 | a title that cleans to a well-formed slug of at most 120 characters gives that slug, with the reserved-name rule applied |
| Slug.SlugifyEmpty | src/index.ts:303 | the empty title gives `chatgpt_conversation` |
| Slug.SlugifyHelloWorld | src/index.test.ts:8-10 | `Hello World!` slugifies to `hello_world` |
| Slug.SlugifyExclamations | src/index.test.ts:12-14 | `!!!` slugifies to `chatgpt_conversation` |
| Slug.SlugifyRocketPlan | src/index.test.ts:16-18 | an emoji and the spaces around it vanish: `  🚀 Rocket  Plan ` slugifies to `rocket_plan` |
| Slug.SlugifyReserved | src/index.test.ts:20-22 | `CON` slugifies to `con_chatgpt`: the reserved check runs after lowercasing |
| Slug.SlugifyLongTitle | src/index.test.ts:24-27 | 200 × `a` is cut to exactly 120 characters |
| UniquePaths.UniquePath | src/index.ts:309-319 | the path returned does not exist; it is the base path when that is free; otherwise it is `<name>_<k><ext>` in the same directory for the least `k >= 2` that is free, and `k` is at most the number of existing paths plus 2, so the loop ends |
| UniquePaths.Candidate | src/index.ts:315 | a candidate keeps the directory and the extension, and its name is the base name, `_` and the decimal suffix |
| UniquePaths.Decimal | src/index.ts:315 | a suffix is printed as a non-empty run of decimal digits with no leading zero unless the number is 0, so (with DecimalRoundTrip) it is the canonical numeral |
| UniquePaths.DecimalRoundTrip | src/index.ts:315 | the decimal numeral written for a suffix reads back as that number |
| UniquePaths.CandidateInjective | src/index.ts:315 | different suffixes give different candidate paths |
| UniquePaths.LeastFreeUnique | src/index.ts:311-317 | the least free suffix is unique |
| UniquePaths.NextAfterCreate | src/index.ts:309-319 | once the chosen candidate is created, the next call picks a larger suffix, and exactly the next one when that is free |
| UniquePaths.SecondAndThird | src/index.test.ts:30-40 | with `file.md` existing the call gives `file_2.md`; after creating that it gives `file_3.md` |
| Backoff.AttemptWithBackoff | src/index.ts:364-381 | at most 3 calls, stopping at the first that resolves; the result is success exactly when the last call resolved; on failure all 3 calls were rejected and the error names the label and the last error; the delays slept are 500 ms then 1000 ms, one after each failed call but the last |
| CodeRule.FirstElementIndex | src/index.ts:325-326 | finds the first child that is an element, skipping text nodes; none when every child is text |
| CodeRule.IsFencedPreFirstCode | src/index.ts:325 | the filter accepts a node exactly when it is a `PRE` element and a `CODE` element comes among its children after text nodes only, so the first element child is a `CODE` |
| CodeRule.FindLanguage | src/index.ts:328 | the search returns the leftmost index where `language-` followed by a `[\w-]` character occurs, and none when there is none |
| CodeRule.Language | src/index.ts:328-329 | the language is empty exactly when the class has no `language-` followed by a `[\w-]` character; otherwise it is made of `[\w-]` characters |
| CodeRule.LanguageIsLeftmostRun | src/index.ts:328-329 | the language is the longest `[\w-]` run after the leftmost `language-` that is followed by one |
| CodeRule.LanguageOfClass | src/index.ts:328-329 | the class `language-<lang>` yields `<lang>` for any non-empty `[\w-]` name |
| CodeRule.ReplaceNbsp | src/index.ts:331 | no no-break space is left; every other character stays in place and the length is kept |
| CodeRule.CodeText | src/index.ts:330-331 | the code text of a node holds no no-break space |
| Sanitize.ReplaceCharInPlace | src/index.ts:331 | replacing one character by one character works in place: each occurrence becomes the new character and every other character stays where it was |
| CodeRule.FenceRoundTrip | src/index.ts:332 | the fenced block can be split back into its info string and its code text |
| CodeRule.FenceOfLanguage | src/index.ts:328-332 | a language tag never contains a line feed or a no-break space, so it reads back as the info string |
| CodeRule.Replacement | src/index.ts:326-332 | the replacement is exactly a blank line, the opening fence with the class's language as its info string, the code element's text with every no-break space made a space, and the closing fence followed by a blank line; it holds no no-break space |
| CodeRule.PythonBlock | src/index.ts:324-333 | a `pre > code.language-python` holding `x` NBSP `=` NBSP `1` is a fenced pre, and it renders as a `python` fence of `x = 1` |
| CodeRule.FencedCodeRuleIsCodeRule | src/index.ts:324-340 | the custom rule's own filter mentions `CODE`, so it counts as a code rule itself |
| CodeRule.FirstCodeRule | src/index.ts:336-340 | finds the first rule whose string filter is `code`/`pre` in any case, or whose function filter's text contains `CODE`; none when no rule qualifies |
| CodeRule.InsertPosition | src/index.ts:336-344 | the insertion index is exactly the index `findIndex` returns for the first code or pre rule, or 0 when there is none; no such rule precedes it |
| CodeRule.WithCodeRuleShape | src/index.ts:343-344 | the list gains exactly the custom rule: removing it gives the built-in list back, it becomes the first code rule of the list, and when a built-in code or pre rule exists that rule follows it directly (the custom rule is spliced in just before it) |
| CodeRule.WithCodeRuleNoCodeRule | src/index.ts:344 | without a built-in code rule, the custom rule is prepended |
| CodeRule.TurndownService.constructor | src/index.ts:322 | the converter starts with the given options and the built-in rules |
| CodeRule.TurndownService.AddRule | src/index.ts:344 | the rule is put at the front of the rule list; the options are untouched |
| CodeRule.TurndownService.InsertAt | src/index.ts:343 | the rule is spliced in at the index and the rest move up by one; the options are untouched |
| CodeRule.BuildTurndown | src/index.ts:321-347 | a new converter with ATX headings, fenced code blocks and `-` bullets, whose rules are the built-in list with the custom rule placed as above |
| Sanitize.Replace | src/index.ts:392-395 | a global regex replace with the empty string never lengthens the text |
| Sanitize.Scan | src/index.ts:392-395 | the left-to-right scan that removes every match never lengthens the text |
| Sanitize.MatchLength | src/index.ts:392-395 | a citation-pill match starts with `<TAG` and ends with `</TAG>`, both in any case; a numeric-attribute match is a whitespace, the name, `="`, one or more digits and `"` |
| Sanitize.PillLength | src/index.ts:392-393 | after `<TAG`, a pill match ends with the closing tag and holds the `data-testid="webpage-citation-pill"` marker before it |
| Sanitize.PillLengthLayout | src/index.ts:392-393 | every pill match is laid out as `[^>]*MARKER[^>]*>[\s\S]*?CLOSE`: the marker lies wholly before the first `>`, and the match ends at the first closing tag after that `>` |
| Sanitize.PillLengthIff | src/index.ts:392-393 | a pill match exists exactly when that layout does, and then it ends where the layout ends |
| Sanitize.PillMatchIff | src/index.ts:392-393 | a citation pill matches at the start of the text if and only if the text starts with `<TAG` (in any case) followed by that layout closed by `</TAG>`, and the match is the whole layout |
| Sanitize.IndexOfIgnoreCase | src/index.ts:392-393 | the leftmost occurrence of a pattern from an index on, ignoring ASCII case, or none |
| Sanitize.PillMatch | src/index.ts:392-393 | `<TAG`, attributes holding the marker and no `>`, `>`, a body without the closing tag, and `</TAG>` are matched as a whole and removed, and the text after them is scanned on |
| Sanitize.CleanHtmlDropsSpanPill | src/index.ts:390-396 | cleaning HTML that starts with a `span` citation pill gives what cleaning the text after the pill gives |
| Sanitize.ReplaceCopiesUpToMatch | src/index.ts:392-395 | text before the first match is copied unchanged |
| Sanitize.ReplaceNoMatch | src/index.ts:392-395 | text with no match anywhere is unchanged |
| Sanitize.ReplaceDropsMatch | src/index.ts:392-395 | a match at the start is deleted, so the text gets strictly shorter |
| Sanitize.CleanHtml | src/index.ts:390-396 | cleaning never lengthens the HTML; a leading citation pill is removed whole (`Sanitize.CleanHtmlDropsSpanPill`, `Sanitize.PillMatch`) |
| Sanitize.CleanHtmlNoOp | src/index.ts:390-396 | HTML with no citation pill and no numeric `data-start`/`data-end` attribute is unchanged |
| Sanitize.NumericAttrMatch | src/index.ts:394-395 | a whitespace, the attribute name and `="` + digits + `"` is matched exactly, and the text after it is kept |
| Sanitize.NormalizeLineTerminators | src/index.ts:398-401 | every U+2028/U+2029 becomes a line feed; all other characters and the length are kept; none remains |
| Sanitize.NormalizeConcat | src/index.ts:398-401 | the normalisation works character by character, so it distributes over concatenation |
| Sanitize.NormalizeIdempotent | src/index.ts:398-401 | normalising twice is normalising once |
| Sanitize.ReplaceCharConcat | src/index.ts:182 | replacing one character distributes over concatenation |
| Sanitize.EscapeHtml | src/index.ts:181-183 | escaping never shortens the text, and text without `&`, `<`, `>` or `"` is unchanged |
| Sanitize.ReplaceChar | src/index.ts:182 | a text without the character is unchanged, and a non-empty replacement never shortens the text |
| Sanitize.EscapeHtmlCharwise | src/index.ts:181-183 | the four chained replaces escape each character on its own; `&` goes first, so an entity is never re-escaped |
| Sanitize.EscapeRoundTrip | src/index.ts:181-183 | unescaping the four entities gives the original text back, so escaping loses nothing |
| Sanitize.EscapeRemovesMarkup | src/index.ts:181-183 | escaped text contains no `<`, `>` or `"` |
| Sanitize.DropSpacedDash | src/index.ts:447 | `\s*-?\s*` removes only whitespace and at most one dash, and leaves text that does not start with whitespace |
| Sanitize.DropSpaces | src/index.ts:447 | `\s*` removes exactly the leading whitespace run |
| Sanitize.StripTitlePrefix | src/index.ts:447 | a title without a `ChatGPT` prefix (in any case) is unchanged; with one, the result is a suffix of the title after the prefix, a `\s*-?\s*` stretch, and nothing else |
| Sanitize.StripTitleDash | src/index.ts:447 | `ChatGPT - <rest>` becomes `<rest>` |
| Assembly.CollapseShape | src/index.ts:459 | the collapsed text has no run of three line feeds, is no longer than the input, and keeps up to two leading line feeds |
| Assembly.CollapseNewlines | src/index.ts:459 | collapsing never lengthens the text and leaves it empty exactly when it was empty; its value is pinned by `Assembly.CollapseOther` and `Assembly.CollapseRun` |
| Assembly.CollapseOther | src/index.ts:459 | a character other than a line feed is copied, and the rest is collapsed after it |
| Assembly.CollapseRun | src/index.ts:459 | a maximal run of `k` line feeds becomes exactly two line feeds when `k >= 3` and is copied as it is when `k < 3`; the rest is collapsed after it |
| Assembly.CollapseNoOp | src/index.ts:459 | text with no run of three line feeds is unchanged |
| Assembly.CollapseIdempotent | src/index.ts:459 | collapsing twice is collapsing once |
| Assembly.TrimShape | src/index.ts:459 | the trimmed text is the stretch of the input after its leading whitespace; it has no whitespace at either end, and every non-whitespace character of the input lies inside it |
| Assembly.Trim | src/index.ts:459 | trimming never lengthens the text and leaves no whitespace at either end |
| Assembly.TidyShape | src/index.ts:459 | collapsing then trimming leaves no run of three line feeds and no whitespace at either end |
| Assembly.BodyShape | src/index.ts:458-459 | whatever the converter returns, a message body has no run of three line feeds and no whitespace at either end |
| Assembly.Heading | src/index.ts:456 | `## Assistant` exactly for the role `assistant`, and `## User` for every other role |
| Assembly.Assemble | src/index.ts:444-464 | no messages is an error with its fixed message and no document; otherwise the pushed and joined lines are the document |
| Assembly.MessageLinesLayout | src/index.ts:455-461 | message `i`, in input order, owns lines `4i` to `4i+3`: its heading, a blank line, its body and a blank line |
| Assembly.DocumentText | src/index.ts:446-464 | the document is the header text followed by each message's text in input order, normalised |
| Assembly.Document | src/index.ts:464 | the document holds no U+2028 or U+2029 |
| Assembly.HeaderPushed | src/index.ts:447-453 | the five pushes before the loop give the header lines |
| Assembly.PushStep | src/index.ts:455-461 | the four pushes for a message extend the lines of the messages before it to the lines of the messages up to it |
| Assembly.DocumentStartsWithHeader | src/index.ts:446-464 | the document opens with the header and contains no U+2028/U+2029 |
| Assembly.DocumentOfTwo | src/index.ts:455-464 | two messages appear in input order, each under its own heading |
| Assembly.EmptyBodyLeavesTripleNewline | src/index.ts:455-464 | a message whose body converts to nothing leaves three line feeds in a row in the document |
| Cli.ParseIntPrefix | src/index.ts:246 | `NaN` exactly when no digit follows the leading whitespace and sign; otherwise the value is the sign times the decimal value of the leading digit run |
| Cli.ParseIntOfDigits | src/index.ts:246 | whitespace, an optional sign, digits and text not starting with a digit read as the signed value of those digits |
| Cli.ParseIntOfNumeral | src/index.ts:246 | a printed number with any leading whitespace, an optional sign and any trailing non-digit text reads back as itself, negated after `-` |
| Cli.ParseIntOfDecimal | src/index.ts:246 | a printed natural number parses back as itself |
| Cli.TimeoutFrom | src/index.ts:246-248 | the timeout is the number read when it is a positive number, and the default when it is `NaN` or not positive; so it is always positive |
| Cli.ReadTimeout | src/index.ts:246-248 | the value read for `--timeout-ms` is the number parsed from it when that is positive, else the default; so it is always positive (`Cli.TimeoutFrom`) |
| Cli.Stride | src/index.ts:245-253 | a turn moves two places past `--timeout-ms` and `--outfile` and one place past any other argument |
| Cli.Step | src/index.ts:243-272 | one turn starts the next at the current index plus the stride |
| Cli.Turn | src/index.ts:243-272 | one turn of the loop is one step of the scan: each flag sets its option, and the two value flags also skip their value |
| Cli.Parse | src/index.ts:232-276 | whatever the arguments, the timeout is positive and the URL is empty or one of the arguments that does not start with `-` |
| Cli.ParseFromTimeoutPositive | src/index.ts:245-249 | from a positive timeout, the scan keeps the timeout positive |
| Cli.ParseArgs | src/index.ts:232-276 | the loop returns what the left-to-right scan of all arguments gives |
| Cli.ParseFromUrl | src/index.ts:241-273 | from any starting options, a URL already set is kept, and a URL set during the scan is one of the arguments and does not start with `-` |
| Cli.StepUrl | src/index.ts:267-271 | one turn keeps a URL once set, and sets it only to the argument at hand when that does not start with `-` |
| Cli.ParseFromFirstPositional | src/index.ts:241-273 | from any index with no URL yet, the first argument the scan visits that is not a flag and does not start with `-` becomes the URL |
| Cli.ParseFromNoPositional | src/index.ts:241-273 | from any index with no URL yet, a scan that visits no such argument leaves the URL empty |
| Cli.UrlIsFirstPositional | src/index.ts:241-273 | the URL is the first argument that is not a flag, not the value of `--timeout-ms` or `--outfile`, and does not start with `-` |
| Cli.NoPositionalNoUrl | src/index.ts:241-273 | with no such argument the URL is empty |
| Cli.NoArguments | src/index.ts:233-239 | no arguments give the defaults: no URL, 60000 ms, no outfile, HTML on |
| Cli.UrlAndTimeout | src/index.ts:243-272 | a URL, `--timeout-ms` and a positive number give that URL and timeout, with the rest at the defaults |
| Cli.TimeoutWithoutNumber | src/index.ts:245-249 | `--timeout-ms` with no number falls back to the default and still consumes the next argument |
| Cli.OutfileTakesNext | src/index.ts:250-253 | `--outfile` takes the next argument as its value even when it looks like a flag |

## Left out

- The browser automation in `scrape` (launch, navigation, waiting, the DOM query for messages) is left out. It is I/O; its result, the list of role and HTML pairs, is the input of `Assembly.Assemble`.
- The Turndown engine is left out. It is a library whose source is not part of this model, so `turndown` is a function parameter and `CodeRule.Node` is a small stand-in for the DOM. Only the custom rule, the rule-list splice and the converter's options are modelled.
- `renderHtmlDocument`, markdown-it, highlight.js and the inline stylesheet are left out. They are foreign libraries and presentation; only the `escapeHtml` and title-strip steps are modelled.
- `writeAtomic` is left out (file I/O: temporary file and rename).
- `checkForUpdates`, the console helpers, `usage` and `main` are left out. They are network, terminal output and process control. The name pipeline in `main` (strip the prefix, slugify, then find a unique path) is covered by its three modelled parts.
- Backoff.AttemptWithBackoff: the `timeoutMs` argument is not modelled, because the loop never reads it. The sleeps are returned as the list of delays rather than performed.
- UniquePaths.UniquePath: `path.parse` and `path.join` normalisation are not modelled. A path is already the record of directory, name and extension, and `fs.existsSync` is membership in the set of existing paths.
- Cli.ParseIntPrefix: does not model IEEE doubles. A digit string too long for a double, which JavaScript reads as `Infinity` and then replaces by the default, is read here as its exact integer; a digit string beyond 2^53 that JavaScript rounds is read here exactly.
- Cli.Turn: keeps the seven option variables of `parseArgs` as one record and the switch's cases as a datatype; the branches are those of the switch.
- Text.ToLower: lowercases ASCII letters only. JavaScript's `toLowerCase` also maps a few non-ASCII characters to ASCII letters (the Kelvin sign U+212A to `k`, and `İ` to `i` plus a combining dot). Those letters would survive into a JavaScript slug, but the model drops them with the other separators.
- The retrieval time (`new Date().toISOString()`) is an input string of the assembly, because it comes from a clock.
- The Unicode `\s` of the title regex and `trim` use ECMAScript's WhiteSpace and LineTerminator characters; the character class is written out as a predicate.
