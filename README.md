# Stackable skill core, modelled in Dafny

Stackable turns a prompt into a Claude Code skill: a Markdown document with
YAML frontmatter (`name:`, `description:`), a `# Title` heading and the
sections `## Triggers`, `## Usage`, `## Behavioral Flow`, `## Examples` and
`## Boundaries`. The user edits the document, it is validated, packaged into a
zip archive and sold for STX through an HTTP 402 challenge of the x402
protocol. This project models the parts of that flow that decide what a
skill is and what a buyer receives:

- `text.dfy` (`Text`): JavaScript's `\s`, line terminators, `^` under the `m`
  flag, `includes`, `trim`/`trimEnd`, `split("\n")` and `join("\n")`.
- `skill_document.dfy` (`SkillDocument`): both validators. The strict one is
  in `src/lib/skill-validator.ts` and the lenient one in
  `src/lib/skillValidator.ts`. They share every rule except the frontmatter
  regular expression, which is a `Dialect` parameter. The module has the
  messages, the frontmatter match, the section and title patterns, and the
  validation as a specification function. `ValidateSkillContent` is the
  step-by-step procedure with its loops, proved equal to that function. The
  module also holds `extractMetadataFromContent` with its three capture
  patterns.
- `sanitize.dfy` (`Sanitizer`): `sanitizeSkillContent`. There is one
  function per replacement. A method applies them in order and runs the
  `findIndex` scan.
- `zip_creator.dfy` (`ZipCreator`): the metadata merge, `createReadme`, and
  the three archive entries in the order they are added.
- `create_skill_tool.dfy` (`CreateSkillTool`): the `execute` body of the
  create-skill tool.
- `skill_store.dfy` (`SkillStore`): the in-memory store with a one-hour time
  to live, as a class over a map.
- `x402.dfy` (`X402`): the configuration, the payment challenge and the
  settlement call.
- `editor_store.dfy` (`EditorStore`): the editor's state, as a class whose
  actions assign its fields.
- `skill_templates.dfy` (`SkillTemplates`): the five starter templates and
  `getTemplateById`. Each template's text is given by an outline: the header
  fields, the title and the lines of each section's body. `Render` lays the
  outline out with the same lines as the source text, and the text is
  `Join(Render(outline))`.

The clock (`Date.now`), `crypto.randomUUID`, the environment and the verifier
library are parameters of the operations that use them.

## Model

| member | source | states |
|---|---|---|
| Text.SkipWs | src/lib/skillValidator.ts:76 | the greedy `\s*`: every skipped character is whitespace, and the run stops before a non-whitespace character |
| Text.SkipWsCovers | src/lib/skillValidator.ts:76 | a whitespace run from `i` to `j` is skipped, and if it stops at `j` then `SkipWs` ends exactly at `j` |
| Text.TrimEnd | src/lib/skillValidator.ts:39 | `trimEnd` gives a prefix of the text, drops only whitespace, and leaves no trailing whitespace |
| Text.Trim | src/lib/skillValidator.ts:153-154 | `trim` gives the slice from the first non-blank character, with no blank at either end and only whitespace after it in the text; it is empty exactly when the text is all whitespace |
| Text.Split | src/lib/skillValidator.ts:44 | `split("\n")` gives at least one piece, and no piece holds a newline |
| Text.SplitFirstLine | src/lib/skillValidator.ts:44 | the first line of the text is the first piece, and the rest splits on its own |
| Text.JoinSplit | src/lib/skillValidator.ts:44-51 | joining the pieces of a split with newlines gives the text back |
| Text.JoinSplitAt | src/lib/skillValidator.ts:49-51 | joining the lines before `k` and the lines from `k`, with one newline between them, joins the whole |
| Text.LineOfJoin | src/lib/skill-templates.ts:13-39 | line `k` of a joined text starts just after a newline, at the offset given by the lines before it |
| SkillDocument.Utf8Length | src/lib/skillValidator.ts:67 | the `TextEncoder` byte length lies between one and four bytes per character |
| SkillDocument.FirstClose | src/lib/skillValidator.ts:76 | the lazy `[\s\S]*?` stops at the first closing delimiter at or after the start, and finds none when there is none |
| SkillDocument.FirstCloseIs | src/lib/skill-validator.ts:35 | a closing delimiter with none before it is the one the lazy match stops at |
| SkillDocument.NoCloseInside | src/lib/skill-validator.ts:35 | a block that does not contain `\n---` holds no closing delimiter |
| SkillDocument.StrictFrontmatterOf | src/lib/skill-validator.ts:35 | `---\n` + h + `\n---` matches with capture `h` whenever `h` does not contain `\n---` |
| SkillDocument.LenientFrontmatterOf | src/lib/skillValidator.ts:76 | blanks after either delimiter are tolerated, and the capture is still `h` |
| SkillDocument.BlanksEndDelimiterLine | src/lib/skillValidator.ts:76 | blanks and a newline after a closing delimiter satisfy `\s*(?:\n\|$)` |
| SkillDocument.DialectsDifferOnPaddedOpener | src/lib/skill-validator.ts:35 | an opener `--- ` with a trailing blank is found by the lenient validator and missed by the strict one |
| SkillDocument.HeadingAtIsPattern | src/lib/skillValidator.ts:103 | the heading predicate is exactly `##`, one or more blanks, then the section name |
| SkillDocument.TitleAtIsPattern | src/lib/skillValidator.ts:113 | the title predicate is exactly `#`, one or more blanks, then a character other than `#` |
| SkillDocument.ValidateSkillContent | src/lib/skill-validator.ts:17-96 | the procedure with its loops returns exactly the specified validation result |
| SkillDocument.CheckSize | src/lib/skillValidator.ts:67-73 | one error exactly when the byte length exceeds 5 MiB |
| SkillDocument.CheckFrontmatter | src/lib/skillValidator.ts:77-99 | a missing match gives the line-1 error; otherwise a missing `name:` gives an error and a missing `description:` a warning |
| SkillDocument.PushSectionMessages | src/lib/skillValidator.ts:102-110 | the loop appends one message per missing section, in order |
| SkillDocument.SectionMessagesLength | src/lib/skillValidator.ts:122-130 | at most one message per listed section |
| SkillDocument.SectionMessagesCount | src/lib/skillValidator.ts:122-130 | with no section listed twice, a section's message appears once when it is missing and never otherwise |
| SkillDocument.SectionMessagesEmpty | src/lib/skillValidator.ts:102-110 | no message exactly when every listed section is present |
| SkillDocument.CountIssueAppend | src/lib/skillValidator.ts:59-60 | the count of one issue in two concatenated message lists is the sum of the two counts |
| SkillDocument.Validation | src/lib/skillValidator.ts:58-137 | `validateSkillContent` as a value, for both files (src/lib/skill-validator.ts:17-96 differs only in its frontmatter regex): valid exactly when there is no error, and blank text gets only the empty-content error; `ValidExactly`, `MessageBounds` and the section lemmas state the rest |
| SkillDocument.ValidIffNoErrors | src/lib/skillValidator.ts:132-136 | `valid` holds exactly when there are no errors; warnings play no part |
| SkillDocument.BlankContent | src/lib/skillValidator.ts:62-65 | empty or whitespace-only text gives exactly one error and no warnings |
| SkillDocument.ValidExactly | src/lib/skillValidator.ts:58-137 | valid exactly when the text is not blank, within 5 MiB, has a frontmatter holding `name:`, and has both required sections |
| SkillDocument.MessageBounds | src/lib/skill-validator.ts:17-96 | at most four errors and five warnings |
| SkillDocument.RequiredSectionIndependent | src/lib/skillValidator.ts:102-110 | each required section has its own error, present exactly once when its heading is missing |
| SkillDocument.RecommendedSectionIndependent | src/lib/skillValidator.ts:121-130 | each recommended section has its own warning, present exactly once when its heading is missing |
| SkillDocument.SectionMessagesIssues | src/lib/skillValidator.ts:102-130 | every section message is about a listed section and has the given kind |
| SkillDocument.ErrorKinds | src/lib/skillValidator.ts:58-137 | every error is one of the issues that make a document invalid |
| SkillDocument.WarningKinds | src/lib/skillValidator.ts:58-137 | every warning is an issue that never invalidates |
| SkillDocument.FrontmatterMessages | src/lib/skill-validator.ts:36-58 | no frontmatter gives the line-1 error and never the missing-name error; a frontmatter without `name:` or `description:` gives the matching message |
| SkillDocument.TitleWarning | src/lib/skill-validator.ts:72-77 | the title warning is reported exactly when no line is a top-level heading |
| SkillDocument.RunEnd | src/lib/skillValidator.ts:149-150 | the greedy capture run stops at the first character its class excludes |
| SkillDocument.MatchAt | src/lib/skillValidator.ts:149-150 | a capture at a position holds no character its class excludes |
| SkillDocument.SearchNoneAll | src/lib/skillValidator.ts:149-150 | when `match` without `g` finds nothing, no position matches |
| SkillDocument.SearchNoneOfAll | src/lib/skillValidator.ts:149-150 | when no position matches, `match` without `g` finds nothing |
| SkillDocument.SearchHasNoStop | src/lib/skillValidator.ts:149-150 | a capture found has no character that stops the run |
| SkillDocument.SearchFindsMatch | src/lib/skillValidator.ts:149-150 | a capture found is the match at some position from the start of the search on |
| SkillDocument.SearchIsLeftmost | src/lib/skillValidator.ts:149-150 | the match found is the one at the leftmost matching position |
| SkillDocument.FieldOr | src/lib/skillValidator.ts:153-154 | `match?.[1]?.trim() \|\| fallback` is the trimmed capture of the leftmost match whenever that is non-empty, the fallback when nothing matches, and otherwise either; it is non-empty when the fallback is |
| SkillDocument.FieldOrWithoutKey | src/lib/skillValidator.ts:149-154 | without its key anywhere in the text, the field is the fallback |
| SkillDocument.MatchAtNeedsKey | src/lib/skillValidator.ts:149-150 | a pattern matches only where its key occurs |
| SkillDocument.FieldOrHasNoStop | src/lib/skillValidator.ts:150-154 | the extracted field keeps the capture's character class, so a description never holds a quote |
| SkillDocument.NameLine | src/lib/skillValidator.ts:149 | a `name: v` line with a trimmed single-line `v` extracts `v` |
| SkillDocument.QuotedDescriptionLine | src/lib/skillValidator.ts:150 | a quoted trimmed description extracts without its quotes |
| SkillDocument.UnquotedDescriptionSpansLines | src/lib/skillValidator.ts:150 | an unquoted description runs past the end of its line, up to the next quote |
| SkillDocument.ExtractFrom | src/lib/skillValidator.ts:144-155 | no frontmatter gives `untitled-skill` and an empty description; otherwise the name is never empty and stays on one line, and the description holds no quote (in both files: src/lib/skill-validator.ts:98-115 is the same) |
| SkillDocument.Extract | src/lib/skillValidator.ts:139-156 | `extractMetadataFromContent`: the defaults exactly when the frontmatter regex finds nothing, else the name field of the captured block, never empty; `FieldOr` and `ExtractFrom` state the fields |
| SkillDocument.TrimOfTrimmed | src/lib/skillValidator.ts:153 | a text with no blank at either end is its own trim |
| Sanitizer.ReplaceCr | src/lib/skillValidator.ts:29 | every remaining `\r` becomes `\n`, and nothing else moves |
| Sanitizer.NormalizeLineEndings | src/lib/skillValidator.ts:29 | the result holds no carriage return, and text without one is unchanged |
| Sanitizer.NormalizeCrLf | src/lib/skillValidator.ts:29 | each `\r\n` pair becomes a single `\n`, the text before it unchanged |
| Sanitizer.NormalizeLoneCr | src/lib/skillValidator.ts:29 | a `\r` not followed by `\n` becomes `\n`, the text before it unchanged |
| Sanitizer.OpeningFenceEnd | src/lib/skillValidator.ts:32 | an opening fence starts with three backticks and ends just after a newline |
| Sanitizer.OpeningFenceEndsAt | src/lib/skillValidator.ts:32 | three backticks, then `markdown`, `md` or nothing, then a newline before a non-blank character: the opener ends just after that newline |
| Sanitizer.OpeningFenceStripped | src/lib/skillValidator.ts:32 | such an opener is removed and everything after it is kept |
| Sanitizer.StripOpeningFence | src/lib/skillValidator.ts:32 | the result is a suffix of the text, and text not starting with a fence is unchanged |
| Sanitizer.FirstClosingFence | src/lib/skillValidator.ts:33 | the closing-fence search finds a position where the pattern matches, or none when no position does |
| Sanitizer.ClosingFenceUnique | src/lib/skillValidator.ts:33 | the closing fence matches in at most one place, so the position found is the leftmost and the only one |
| Sanitizer.ClosingFenceStripped | src/lib/skillValidator.ts:33 | a text followed by `\n` and three backticks and blanks loses exactly that fence |
| Sanitizer.StripClosingFence | src/lib/skillValidator.ts:33 | the result is a prefix of the text |
| Sanitizer.StripLeadingBlank | src/lib/skillValidator.ts:36 | the result is a suffix, starts with `---` when the leading blank run is followed by `---`, and is the text unchanged otherwise |
| Sanitizer.LeadingBlankStripped | src/lib/skillValidator.ts:36 | blanks and blank lines before `---` are dropped, and the rest is kept |
| Sanitizer.FirstNonKeyLine | src/lib/skillValidator.ts:45-47 | `findIndex` returns the first index above 0 whose line is not a key line, or -1 when there is none |
| Sanitizer.SanitizeKeepsCleanDocument | src/lib/skillValidator.ts:25-56 | a document already in shape is returned unchanged |
| Sanitizer.SanitizeUnwrapsFence | src/lib/skillValidator.ts:17-33 | a document in shape wrapped in a ```` ```markdown ```` fence comes back without the fence |
| Sanitizer.Prepared | src/lib/skillValidator.ts:26-39 | after the steps before the wrap, no carriage return is left and the text does not end in whitespace |
| Sanitizer.Wrap | src/lib/skillValidator.ts:43-53 | text starting with `---` is left alone, and anything wrapped starts with the opening delimiter; `WrapParts`, `WrapKeepsCharacters` and `WrapKeepsEnd` state the rest |
| Sanitizer.Sanitized | src/lib/skillValidator.ts:25-56 | the whole repair: whatever the input, the result holds no carriage return and does not end in whitespace; `SanitizeKeepsCleanDocument` and `SanitizeUnwrapsFence` state what it keeps |
| Sanitizer.SanitizeSkillContent | src/lib/skillValidator.ts:25-56 | the procedure returns the composition of the five steps |
| Sanitizer.WrapParts | src/lib/skillValidator.ts:49-51 | the wrapped part and the rest are the text before and after one newline |
| Sanitizer.WrapKeepsCharacters | src/lib/skillValidator.ts:43-53 | the wrap step adds no character except those of its delimiters |
| Sanitizer.WrapKeepsEnd | src/lib/skillValidator.ts:51 | the wrap step keeps the text's last character |
| Sanitizer.NoClosingFence | src/lib/skillValidator.ts:33 | no closing fence is removed from a text that does not end in whitespace or in a fence |
| Sanitizer.LeadingDelimiterKept | src/lib/skillValidator.ts:36 | a text that starts with `---` loses nothing at the start |
| Sanitizer.WrapTakesFirstLine | src/lib/skillValidator.ts:43-53 | as written, two lines whose second is not a key line are wrapped with the first line as the whole frontmatter, whatever that line is |
| Sanitizer.WrapTitleCounterexample | src/lib/skillValidator.ts:45-51 | `# Title` then `## Triggers` is wrapped into a frontmatter that holds the title |
| Sanitizer.KeyLinesFrom | src/lib/skillValidator.ts:46 | the length of the leading run of key lines: all key lines, and the next line is not one |
| Sanitizer.WrapIntendedWrapsKeyLines | src/lib/skillValidator.ts:41-53 | the corrected wrap puts only key lines between the delimiters, and the two parts rejoin to the text |
| Sanitizer.WrapIntendedSkipsNonKeyFirstLine | src/lib/skillValidator.ts:41-53 | the corrected wrap leaves a text alone when its first line is not a key line |
| Sanitizer.WrapIntendedTitleUnchanged | src/lib/skillValidator.ts:41-53 | on the counterexample, the corrected wrap changes nothing |
| Sanitizer.ScanAgreesFrom | src/lib/skillValidator.ts:45-48 | from line 1 on, the `findIndex` scan stops where the leading run of key lines ends, or gives -1 when the run reaches the end |
| Sanitizer.WrapAgreesOnKeyFirstLine | src/lib/skillValidator.ts:43-53 | when the first line is a key line, the wrap as written and the corrected wrap give the same text |
| Sanitizer.SanitizedAgreesOnKeyFirstLine | src/lib/skillValidator.ts:25-56 | the repair as written and the corrected repair differ only on texts whose first line is not a key line |
| ZipCreator.Or | src/lib/zipCreator.ts:25-27 | JavaScript `a \|\| b` on strings is one of the two, and is empty only when both are |
| ZipCreator.MergeMetadata | src/lib/zipCreator.ts:23-31 | each field is the caller's value when non-empty, else the lenient extraction or `1.0.0`, so name and version are never empty; the creation time is the one given; format and compatibility are fixed |
| ZipCreator.CreateReadme | src/lib/zipCreator.ts:47-81 | the README starts with the name heading and description, and contains the install line, the invocation block and the version |
| ZipCreator.ZipArchive.File | src/lib/zipCreator.ts:20 | `zip.file` appends one entry and keeps the earlier ones |
| ZipCreator.CreateSkillZip | src/lib/zipCreator.ts:13-45 | the archive holds exactly the three entries, in the order they are added |
| ZipCreator.PackageEntries | src/lib/zipCreator.ts:13-45 | three entries: `SKILL.md` verbatim, then the merged metadata, then a README that starts with the same skill's name and description and holds its install line |
| CreateSkillTool.DocumentMetadata | src/mastra/tools/index.ts:23-31 | the version is always `1.0.0`, and the name is never empty when the default is not |
| CreateSkillTool.Execute | src/mastra/tools/index.ts:21-34 | the content passes through, with a non-empty name and version `1.0.0` |
| CreateSkillTool.ExecuteFieldsStayOnOneLine | src/mastra/tools/index.ts:23-30 | the description holds no quote and no newline, and the name holds no line terminator |
| CreateSkillTool.ExecuteMatchesAnyNameKey | src/mastra/tools/index.ts:23 | the name comes from the first `name:` anywhere in the text, even the tail of `username:` |
| CreateSkillTool.ExecuteDefaultName | src/mastra/tools/index.ts:29 | with no `name:` anywhere, the name is `created-skill` |
| CreateSkillTool.ExecuteDescriptionStopsAtLineEnd | src/mastra/tools/index.ts:24 | an unquoted description ends with its line |
| SkillStore.Swept | src/lib/skillStore.ts:11-18 | exactly the entries that have not expired remain, unchanged |
| SkillStore.AfterSet | src/lib/skillStore.ts:26-29 | the new entry is stamped with the current time; every other id stays exactly when it had not expired |
| SkillStore.GetResult | src/lib/skillStore.ts:31-38 | data is returned exactly for a live id; an expired id is dropped; no other id changes |
| SkillStore.Store.Cleanup | src/lib/skillStore.ts:11-18 | the loop over the keys leaves exactly the swept map |
| SkillStore.Store.Set | src/lib/skillStore.ts:26-29 | the store becomes the sweep plus the new entry |
| SkillStore.Store.Get | src/lib/skillStore.ts:31-38 | the result and the new map are those of the specification |
| SkillStore.Store.Delete | src/lib/skillStore.ts:41-43 | the id is removed and nothing else changes |
| SkillStore.SetThenGet | src/lib/skillStore.ts:26-38 | reading back at the same time gives the stored data and changes nothing |
| SkillStore.TtlBoundary | src/lib/skillStore.ts:8 | an entry exactly one hour old is returned, and one a millisecond older is dropped |
| SkillStore.GetKeepsMapUnlessExpired | src/lib/skillStore.ts:31-38 | `get` changes the map exactly when the id is present and expired |
| SkillStore.DeleteIdempotent | src/lib/skillStore.ts:41-43 | deleting twice is deleting once, nothing can be read back, and the other entries stay |
| SkillStore.SetLeavesOnlyLiveEntries | src/lib/skillStore.ts:11-29 | after `set`, no entry is older than the time to live, and only expired entries were lost |
| X402.OrDefault | src/lib/x402.ts:3-7 | an unset or empty variable gives the fallback, and any other value is kept |
| X402.GetPaymentRequirements | src/lib/x402.ts:9-28 | version 2, the resource with its URL, description and zip type, and a single payment option |
| X402.LoadConfig | src/lib/x402.ts:3-7 | a set, non-empty variable wins; otherwise facilitator, network and price fall back to non-empty defaults and the wallet is empty |
| X402.GetPaymentConfig | src/lib/x402.ts:50-58 | the wallet, network, price and asset (`STX`) of the one offered option, and the configured facilitator |
| X402.VerifyAndSettlePayment | src/lib/x402.ts:30-48 | the decoded payload goes to the configured facilitator with the configured offer, whatever the resource |
| X402.DefaultConfig | src/lib/x402.ts:3-7 | with nothing set: the default facilitator, no wallet, the default network and 2 STX |
| X402.ChallengeOffer | src/lib/x402.ts:17-26 | the option is the exact scheme in STX with 300 seconds, at the configured price and network, to the configured wallet |
| X402.ConfigMatchesChallenge | src/lib/x402.ts:50-58 | the reported configuration agrees with the option of every challenge |
| X402.SettlementIgnoresResource | src/lib/x402.ts:40-45 | the requirements handed to the verifier do not depend on the resource URL |
| EditorStore.InitialValidationIsStale | src/app/editor/store.ts:58-63 | the initial `valid: true` is not the validation of the initial empty text |
| EditorStore.EditorState.constructor | src/app/editor/store.ts:57-67 | every field starts at its initial value |
| EditorStore.EditorState.AddChatMessage | src/app/editor/store.ts:69-75 | the message is appended after the earlier ones |
| EditorStore.EditorState.SetSkillContent | src/app/editor/store.ts:77-81 | the text is set and the stored validation is the strict validation of it |
| EditorStore.EditorState.SetMetadata | src/app/editor/store.ts:83 | only the metadata changes |
| EditorStore.EditorState.SetActiveFile | src/app/editor/store.ts:84 | only the active file changes |
| EditorStore.EditorState.SetIsGenerating | src/app/editor/store.ts:85 | only the generating flag changes |
| EditorStore.EditorState.SetGenerateError | src/app/editor/store.ts:86 | only the generation error changes |
| EditorStore.EditorState.SetPaymentState | src/app/editor/store.ts:87 | any payment state may follow any other |
| EditorStore.EditorState.SetPaymentError | src/app/editor/store.ts:88 | only the payment error changes |
| EditorStore.EditorState.SetSkillId | src/app/editor/store.ts:89 | only the skill id changes |
| EditorStore.EditorState.SetWalletAddress | src/app/editor/store.ts:90 | only the wallet address changes |
| EditorStore.EditorState.ResetPayment | src/app/editor/store.ts:91-92 | back to idle with no error; the skill id and wallet stay |
| EditorStore.EditorState.ResetAll | src/app/editor/store.ts:93-108 | every field is back at its initial value |
| SkillTemplates.JoinLength | src/lib/skill-templates.ts:13-39 | a text of `n` lines of at most `w` characters has at most `n(w+1)` characters |
| SkillTemplates.SectionLine | src/lib/skill-templates.ts:19 | a line `## <name>` makes that section present for the validators |
| SkillTemplates.TitleLine | src/lib/skill-templates.ts:17 | a line `# <title>` whose title does not start with `#` is a top-level heading |
| SkillTemplates.HeaderLines | src/lib/skill-templates.ts:13-16 | the four header lines join as `---\n`, then the name and description lines, then `\n---` |
| SkillTemplates.FirstCloseBetween | src/lib/skill-validator.ts:35 | with a delimiter at `e` and none below `lo`, the lazy match closes between `lo` and `e` |
| SkillTemplates.NoCloseBeforeDescription | src/lib/skill-templates.ts:14-15 | no closing delimiter starts in the name line or in `description: "` |
| SkillTemplates.CloseAfterHeader | src/lib/skill-templates.ts:16 | the `---` after the description closes the header in both dialects |
| SkillTemplates.HeaderKeys | src/lib/skill-templates.ts:14-15 | the matched block holds `name:` and `description:` |
| SkillTemplates.HeaderClose | src/lib/skill-templates.ts:13-16 | the header's closing delimiter is found after the description key |
| SkillTemplates.HeaderFrontmatter | src/lib/skill-templates.ts:13-16 | both validators find a frontmatter that holds `name:` and `description:` |
| SkillTemplates.HeadingLinesPresent | src/lib/skill-templates.ts:19-38 | every section whose heading line is there is present |
| SkillTemplates.CleanEvaluation | src/lib/skillValidator.ts:58-137 | a text that passes every check draws no message |
| SkillTemplates.TemplateSize | src/lib/skillValidator.ts:67-68 | at most 1000 lines of at most 200 characters stay below 5 MiB |
| SkillTemplates.TemplateShapeValidates | src/lib/skill-templates.ts:13-39 | a document with the template shape validates with no error and no warning, in both dialects |
| SkillTemplates.Render | src/lib/skill-templates.ts:13-39 | the lines of the layout: sixteen fixed lines plus the section bodies |
| SkillTemplates.RenderHeadings | src/lib/skill-templates.ts:19-38 | the laid-out lines hold the headings of all five sections |
| SkillTemplates.RenderShort | src/lib/skill-templates.ts:13-39 | the laid-out lines are at most 200 characters long |
| SkillTemplates.OutlineValidates | src/lib/skill-templates.ts:13-39 | every outline within bounds lays out a document that both validators accept with no message |
| SkillTemplates.BlankOutlineOk | src/lib/skill-templates.ts:13-39 | the blank template's name, description, title and bodies are within bounds |
| SkillTemplates.BlankValidates | src/lib/skill-templates.ts:9-40 | the blank template validates with no error and no warning |
| SkillTemplates.DocumentProcessorOutlineOk | src/lib/skill-templates.ts:45-82 | the document-processor outline is within bounds |
| SkillTemplates.DocumentProcessorValidates | src/lib/skill-templates.ts:41-83 | the document-processor template validates with no error and no warning |
| SkillTemplates.ApiIntegrationOutlineOk | src/lib/skill-templates.ts:88-126 | the api-integration outline is within bounds |
| SkillTemplates.ApiIntegrationValidates | src/lib/skill-templates.ts:84-127 | the api-integration template validates with no error and no warning |
| SkillTemplates.DataAnalyzerOutlineOk | src/lib/skill-templates.ts:132-169 | the data-analyzer outline is within bounds |
| SkillTemplates.DataAnalyzerValidates | src/lib/skill-templates.ts:128-170 | the data-analyzer template validates with no error and no warning |
| SkillTemplates.CustomToolOutlineOk | src/lib/skill-templates.ts:175-213 | the custom-tool outline is within bounds |
| SkillTemplates.CustomToolValidates | src/lib/skill-templates.ts:171-214 | the custom-tool template validates with no error and no warning |
| SkillTemplates.FindById | src/lib/skill-templates.ts:218 | `find` returns nothing exactly when no entry has the id, and otherwise the first entry that has it |
| SkillTemplates.Ids | src/lib/skill-templates.ts:8-215 | the ids of a catalog, in order |
| SkillTemplates.FindEachById | src/lib/skill-templates.ts:218 | in a catalog with distinct ids, each entry is found by its own id |
| SkillTemplates.FindByIdSome | src/lib/skill-templates.ts:218 | the lookup succeeds exactly for ids the catalog holds |
| SkillTemplates.CatalogIds | src/lib/skill-templates.ts:8-215 | five entries with ids blank, document-processor, api-integration, data-analyzer and custom-tool, all different |
| SkillTemplates.GetTemplateById | src/lib/skill-templates.ts:217-219 | a found template carries the id it was looked up by |
| SkillTemplates.TemplateLookup | src/lib/skill-templates.ts:217-219 | every entry is found by its id, and an id finds something exactly when it is one of the five |

## Left out

- The React components, the pages and the route handlers are not part of this model. The route handlers repeat the metadata extraction inline with their own default name. `DocumentMetadata` takes that default as a parameter.
- The download endpoint is not modelled. It wires the store, the payment check and the archive together.
- Base64 and JSON decoding of the payment header are one `decode` parameter of `VerifyAndSettlePayment`. The `x402-stacks` verifier is a `settle` parameter, and its outcome is not modelled.
- `Date.now` and `setInterval` are `now` parameters. The ten-minute sweep timer is a caller that invokes `Cleanup`.
- The size error does not render the size in megabytes. The `toFixed(1)` number text is not modelled.
- JSZip compression and the `JSON.stringify` text of `metadata.json` are not modelled. That entry holds the record. The ISO `createdAt` stamp is a parameter.
- `crypto.randomUUID` and `Date.now` in `addChatMessage` are parameters. The `localStorage` draft removed by `resetAll` is not modelled.
- The Mastra agent configuration and the model calls in `src/mastra` are not modelled, apart from the create-skill tool.
- Each template's `content` is the joined lines of its outline, not one string literal. `Render` gives exactly the lines of the source text, ending with the empty line after the final newline.
- `SkillTemplates.GetTemplateById`: its own contract states only that a found template carries the requested id. First-match and absence are stated by `FindById`, and the full lookup by `TemplateLookup`.
- The x402 challenge carries the resource URL, but the verifier receives only `accepts[0]`, which does not. A payment is therefore not bound to one resource. The model follows the code, and `SettlementIgnoresResource` states the consequence.

## Findings

| source | as written | input that shows it | evidently intended | confidence | as-written member | corrected member |
|---|---|---|---|---|---|---|
| src/lib/skillValidator.ts:43-53 | the `findIndex` callback requires `i > 0`, so line 0 is never tested: a text that does not start with `---` and has a non-key line after its first line gets that first line wrapped into a synthesized frontmatter, whatever the first line is | `# Title\n## Triggers` becomes `---\n# Title\n---\n## Triggers` | wrap only a leading run of `name:`/`description:`/`version:`/`author:`/`tags:` lines, leaving text whose first line is not such a line unchanged | not executed | Sanitizer.WrapTitleCounterexample | Sanitizer.WrapIntendedWrapsKeyLines |
