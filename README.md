# perkdown in Dafny

perkdown is a small annotation language for Markdown. Its tags are HTML
comments of the form `<!-- NS:KEY=VALUE -->`, one per line. A document opts in
with a `USE:PRKMD` tag on its first line. `BEGIN`/`END` pairs delimit sections
that a caller's `renderBlocks` settings admit or exclude. `META` tags record
key/value metadata. Every other line is copied to the output Markdown.

This project models the whole logic of `src/index.ts` and proves properties of it:

- `tags.dfy` (module `Tags`): the tag recogniser `parsePerkdownTag`.
  - The regular expression is replaced by a hand-written matcher, `Match`,
    which takes the same decisions the regex engine does.
  - A matched line is exactly one terminator-free segment of the input, and
    `ParseTag` returns the first segment that matches.
  - `Format` lays a tag out with a given number of spaces. `Canonical` says
    which layouts read back unchanged.
- `policy.dfy` (module `Policy`): the render policy `shouldRender`, with
  JavaScript's loose `==` between an array entry and a string written out.
- `evaluator.dfy` (module `Evaluator`): the block evaluator `evaluateBlock`.
  - `Scan`, `Nested` and `Evaluate` are recursive functions that state what
    the loop computes, over the same line arrays and string slices the source
    uses.
  - `EvaluateBlock` is the source's `while` loop, with its pre-incremented
    cursor, its reassigned line array and its recursive call. It is proved to
    compute `Evaluate`.
- `perkdown.dfy` (module `Perkdown`): the gate `isPerkdown` and the two entry
  points `evaluatePerkdown` and `evaluatePerkdownStrict`, written as methods
  that call `EvaluateBlock`.
- `documents.dfy` (module `Documents`): documents written as trees of items
  (content lines, `META` fields, sections).
  - `Print` spells a tree out as lines.
  - `Render` states, independently of the scanner, what the tree should render to.
  - The theorems prove that the evaluator computes exactly that rendering. They
    also cover what happens when a section is left open, and when the root
    block is closed early by a user-written `END:_INTERNAL_=MAIN_BLOCK`.
- `scenarios.dfy` (module `Scenarios`): concrete documents with their exact
  results, derived from the general theorems.
- `lines.dfy` and `wrappers.dfy`: `split("\n")`/`join("\n")` on strings, and `Option`.

Facts about the code that the model follows:

- `|` is a name character: inside the bracket class of the pattern at
  `src/index.ts:154` it is a literal, not an alternation.
- A document ending in a line feed has an empty last line. An unclosed section
  that reaches it emits that empty line too. So
  `<!-- USE:PRKMD -->\n<!-- BEGIN:SECTION=A -->\nhello\n` renders as
  `"hello\n\n"`, not `"hello\n"` (`Scenarios.UnclosedExample`).
- A block that runs out of lines leaves over one line. That line is the last
  line of the innermost text the scan ran out on, which is not always the
  block's own last line. A document ending in a `BEGIN` line hands the nested
  block the empty text. Both blocks then leave over the empty line
  (`Documents.TrailingBegin`).
- The strict entry point never reads the error flag (see "## Findings").
- A line that contains a line terminator other than `\n` (`\r`, U+2028,
  U+2029) is not excluded by a precondition.
  - With the `m` flag these characters split the line into segments, and the
    model parses the first segment that matches.
  - So a tag line ending in `\r` (CRLF input) still parses.

## Model

| member | source | states |
|---|---|---|
| Tags.ParseTag | src/index.ts:150-164 | A line without `<!--` gives nothing. A recognised tag has names over `A`-`Z`, `_`, `\|`, and a value with no line terminator and no trailing space. |
| Tags.PlainLine | src/index.ts:151-153 | A line with no `<` is never a tag. |
| Tags.ParseTagLine | src/index.ts:154-163 | On a terminator-free line, the recogniser returns exactly what the matcher reads. |
| Tags.Match | src/index.ts:154 | The pattern on one terminator-free segment, which it must span entirely: leading spaces, `<!--`, spaces, maximal name runs around `:`, an optional `=`, and the shortest value followed by spaces, `-->` and spaces. It only computes; its contract is stated by `Tags.MatchSound` and `Tags.MatchFormat`. |
| Tags.FirstMatch | src/index.ts:155 | `exec` from position 0 returns the tag of the first segment the pattern matches. That tag has names in the class and a value with no line terminator and no trailing space. |
| Tags.MatchSound | src/index.ts:154 | Whatever the matcher accepts is the layout of its tag. If the line has no terminator, that layout is canonical. |
| Tags.MatchFormat | src/index.ts:154 | Every canonical layout of a tag is read back as that layout and tag. |
| Tags.ParseTagSound | src/index.ts:154-161 | A recognised terminator-free line consists only of spaces, `<!--`, spaces, `NS:KEY`, an optional `=`, the value, spaces, `-->` and spaces, in a canonical layout. Trailing text after `-->` is rejected. |
| Tags.ParseTagFormat | src/index.ts:154-161 | Round trip: a tag formatted with any canonical spacing parses back to the same namespace, key and value. With `=` left out, the value is empty. |
| Tags.ParseTagFirstSegment | src/index.ts:154-155 | A tag line followed by a line terminator and anything at all still parses to its tag (first segment of a multi-line match). |
| Tags.KeyStopsOutsideClass | src/index.ts:154 | `<!-- USE:PRKMDx -->` reads as key `PRKMD` and value `x`. |
| Tags.LowerCaseKeyIsValue | src/index.ts:154 | `<!-- META:title=x -->` reads as an empty key with value `title=x`. |
| Tags.NamespaceOutsideClass | src/index.ts:154 | A namespace starting with a character outside the class (and not `:`) is not a tag. |
| Policy.LooseEquals | src/index.ts:176 | Loose `==` between an entry and a string. A one-element array equals exactly its member, and an empty array equals exactly the empty string. |
| Policy.ShouldRender | src/index.ts:166-187 | The root always renders. A key absent from the settings never renders. A string entry renders exactly its value. An array entry renders its members and its comma-joined text. |
| Policy.OnlyOwnKeyMatters | src/index.ts:174-175 | Changing the entry of another key never changes the decision. |
| Policy.SingletonArrayIsString | src/index.ts:174-184 | `[v]` and `v` admit the same blocks. |
| Policy.EmptyArrayAdmitsEmptyValue | src/index.ts:176 | An empty array admits exactly the empty value, by loose equality. |
| Policy.ArrayAdmitsItsJoinedText | src/index.ts:176 | `["A","B"]` admits `A,B` by loose equality; `["A","B","C"]` does not. |
| Policy.SetFormExample | src/index.ts:180-184 | `["A","B"]` admits `A` and `B` and not `C`. |
| Lines.Split | src/index.ts:74 | `split("\n")` gives at least one line, none with a line feed. Its first line is the text before the first line feed, and joining the lines back gives the text. |
| Lines.Join | src/index.ts:106 | `join("\n")` on a line array. It only computes; `Lines.SplitJoin` states that splitting it again gives back any non-empty array of lines without line feeds. |
| Lines.SplitJoin | src/index.ts:114 | Splitting a joined non-empty array of lines without line feeds gives back that array. This is what lets the parent re-split the nested block's remainder (`src/index.ts:127`). |
| Evaluator.Scan | src/index.ts:79-124 | What a block leaves over is always a suffix of its text. |
| Evaluator.Evaluate | src/index.ts:126-134 | The remainder is a suffix of the input. An excluded block returns no markdown and no metadata. |
| Evaluator.EvaluateBlock | src/index.ts:69-135 | The loop, with its cursor, line-array reset and recursion, returns the markdown (lines joined with line feeds), metadata, remainder and error flag of `Evaluate`. It terminates because each nested call receives a strictly shorter text. |
| Evaluator.Nested | src/index.ts:103-120 | The `BEGIN` branch. The nested block is evaluated on the text after the tag. Its markdown, metadata and error flag are merged in, and the scan resumes one line into its remainder. What is left over is still a suffix of the text. |
| Evaluator.BeginBranch | src/index.ts:103-120 | A `BEGIN` line hands the nested block a strictly shorter text. The parent merges the child's markdown, metadata and errors, then resumes one line into the remainder, which is again shorter. |
| Evaluator.ScanPass | src/index.ts:90-124 | A line that neither closes the block nor opens one is copied if it is not a tag, and recorded if it is `META`, with later values winning. |
| Evaluator.ScanEndStep | src/index.ts:81-88 | At the end of the lines, the remainder is the last line and the error flag is set unless the key is `_INTERNAL_`. |
| Evaluator.ScanRunsOut | src/index.ts:79-124 | A block of content lines only copies all of them in order and runs out of input. |
| Evaluator.ResumeAt | src/index.ts:114-115 | Resetting the cursor to 0 on a remainder that is a tail of the lines, then pre-incrementing, resumes right after the remainder's first line. |
| Evaluator.ScanShift | src/index.ts:114-115 | A scan depends only on the lines from the one before its cursor onward. |
| Evaluator.NestedResume | src/index.ts:105-120 | When a nested block stops cleanly at its `END` line, the parent goes on after that line with the child's markdown and metadata appended. |
| Evaluator.ScanGrows | src/index.ts:113-124 | The markdown is only ever appended to, the error flag is never cleared, and everything appended is a non-tag line. |
| Evaluator.EvaluateContent | src/index.ts:122-124 | A block's markdown lines are all non-tag lines: tags of any namespace are never emitted. |
| Evaluator.ScanSettingsFree | src/index.ts:128-134 | Where a scan stops and whether it reports an error do not depend on the settings. |
| Evaluator.EvaluateSettingsFree | src/index.ts:128-134 | Excluding a block leaves its remainder and error flag unchanged. |
| Evaluator.ScanStops | src/index.ts:80-97 | A scan stops either at its own `END` line, which heads the remainder, or by running out of lines. Then the remainder is a single line, and the error flag is set unless the key is `_INTERNAL_`. That line is the last line of the innermost text the scan ran out on. It can be the empty line that a trailing `BEGIN` creates, rather than the block's own last line (`Documents.TrailingBegin`). |
| Evaluator.EvaluateStops | src/index.ts:80-97 | Every block stops at its own `END` tag, or runs out of lines with a single line left over. |
| Perkdown.EvaluatePerkdown | src/index.ts:27-46 | A document that does not opt in comes back unchanged with empty metadata. Otherwise the result is the root block's markdown and metadata. |
| Perkdown.EvaluatePerkdownStrict | src/index.ts:49-67 | The result is absent exactly when the document does not opt in. Otherwise it is the root block's markdown and metadata, whatever the error flag says. |
| Perkdown.EvaluatePerkdownChecked | src/index.ts:48 | The result is absent exactly when the document does not opt in or the root block reports an error. Otherwise it is the lenient result. |
| Perkdown.IsPerkdown | src/index.ts:137-148 | A document opts in exactly when the text before its first line feed reads as a tag with namespace `USE` and key `PRKMD`, whatever the value. Such a line holds `<!--`. |
| Perkdown.GateReadsFirstLineOnly | src/index.ts:137-138 | Only the text before the first line feed decides whether a document opts in. |
| Perkdown.OptInLine | src/index.ts:137-147 | A first line that reads as a `USE:PRKMD` tag opts in, whatever follows the line feed. |
| Perkdown.UseLineOptsIn | src/index.ts:137-147 | A document whose first line is a `USE:PRKMD` tag in any canonical spacing, with any value, opts in. |
| Perkdown.OptInIsUseLine | src/index.ts:137-147 | Conversely, an opted-in document with a terminator-free first line starts with exactly such a tag line. |
| Perkdown.BareUseLine | src/index.ts:154-161 | `<!-- USE:PRKMD -->` reads with the empty value. |
| Perkdown.BareUseLineOptsIn | src/index.ts:137-147 | The one-line document `<!-- USE:PRKMD -->` opts in. |
| Perkdown.RejectedDocuments | src/index.ts:137-147 | The empty document and a lower-case `use:prkmd` line do not opt in. |
| Perkdown.RenderedIsContent | src/index.ts:122-124 | The rendered markdown is a sequence of non-tag lines, each followed by a line feed. |
| Documents.TagLineReads | src/index.ts:154-161 | `<!-- NS:KEY=VALUE -->` with writable names and value reads back as its tag. |
| Documents.ScanItems | src/index.ts:90-124 | Scanning across a well-formed body adds exactly its rendering, leaves the error flag alone and ends right after the body, inside any block. |
| Documents.SectionBody | src/index.ts:103-120 | A section's block renders its body, or nothing when excluded. It hands back its `END` line as the remainder and reports no error. |
| Documents.DocumentEvaluates | src/index.ts:69-135 | A balanced document opts in and evaluates to exactly its body's rendering (lines in order, later metadata winning, excluded sections dropped) with no error. |
| Documents.DocumentRendered | src/index.ts:31-45 | The entry points return the body's rendering for a balanced document. |
| Documents.AdmittedRendersContents | src/index.ts:122-124 | With every section admitted, the markdown lines are exactly the non-tag lines of the document, in order. |
| Documents.BalancedRoundTrip | src/index.ts:31-45 | With every section admitted, the markdown of a balanced document is its non-tag lines, each followed by a line feed, and there is no error. |
| Documents.ChildRunsOut | src/index.ts:81-88 | A block of content lines with no `END` renders them (or nothing), keeps the last line as the remainder, and is in error exactly when its key is not `_INTERNAL_`, whatever its value. |
| Documents.UnclosedSection | src/index.ts:81-88 | An unclosed section still opts in and emits its content when admitted. The root reports an error exactly when the section's key is not `_INTERNAL_`. |
| Documents.TrailingBegin | src/index.ts:103-127 | A document whose last line opens a section hands the nested block the empty text, which is one empty content line. The root's remainder is that empty line, not its own last line. The error is set exactly when the key is not `_INTERNAL_`. |
| Documents.RootClosedEarly | src/index.ts:91-97 | A user-written `END:_INTERNAL_=MAIN_BLOCK` closes the root: nothing after it reaches the output, and there is no error. |
| Scenarios.UnclosedExample | src/index.ts:48-67 | `<!-- USE:PRKMD -->\n<!-- BEGIN:SECTION=A -->\nhello\n` with `SECTION: "A"` opts in, sets the error flag and still renders `"hello\n\n"` with no metadata. |
| Scenarios.TrailingBeginExample | src/index.ts:126-127 | `<!-- USE:PRKMD -->\n<!-- BEGIN:S=A -->` opts in. Under any settings it leaves over `""` rather than its last line, and sets the error flag. |
| Scenarios.FullExample | src/index.ts:69-135 | A document with a title field, an introduction, an admitted section and a closing line renders `"intro\nbody A\noutro\n"` with `TITLE` = `Hi` and no error. |
| Scenarios.InnermostMetaWins | src/index.ts:99-116 | An admitted section's metadata overrides the parent's value for the same key. An excluded section contributes no key at all. |

## Left out

- The `console.warn` call at `src/index.ts:83-85` is an output side effect. Only the error flag set beside it is modelled.
- `SUPPORTED_VERSIONS` (`src/index.ts:24`) is a constant with no behaviour. The exported interfaces (`src/index.ts:2-22`) appear only as datatypes.
- JavaScript object semantics are not modelled. This covers prototype keys seen by `Object.keys(...).includes` (`src/index.ts:174`) and key order in the spread merge (`src/index.ts:116`). Settings and metadata are Dafny maps, and a merge lets the right-hand side win.
- The general regular-expression engine is not modelled. Only the one pattern at `src/index.ts:154` is, as a deterministic matcher.
- The `??` fallbacks (`src/index.ts:38-43`) and the `markdown == undefined` test (`src/index.ts:60`) can never fire, because the block evaluator always returns a string. They have no branch in the model.
- The settings object is never written by the source. In the model it is an immutable value, so "settings are never modified" holds by construction and is not stated as a lemma.
- Documents.DocumentEvaluates: only documents whose tags use the spelling `<!-- NS:KEY=VALUE -->` are covered. Other spacings are covered by `Tags.ParseTagFormat` but not by the tree theorems.
- Evaluator.EvaluateBlock: the markdown string and the metadata dictionary are values that the loop reassigns. In-place mutation of a JavaScript object is not represented, and nothing else holds a reference to it.

## Findings

| source | as written | input that shows it | evidently intended | confidence | as-written member | corrected member |
|---|---|---|---|---|---|---|
| src/index.ts:48-62 | The strict entry point returns a result whenever the document opts in. It never reads the root block's error flag, although its doc comment promises `undefined` on any error. | `<!-- USE:PRKMD -->\n<!-- BEGIN:SECTION=A -->\nhello\n` with `renderBlocks: { SECTION: "A" }`: the error flag is set, and the strict entry point still returns `"hello\n\n"` (`Scenarios.UnclosedExample`). | Return `undefined` when the document does not opt in or the root block reports an error. | not executed; high | Perkdown.EvaluatePerkdownStrict | Perkdown.EvaluatePerkdownChecked |
