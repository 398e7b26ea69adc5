# Verified model of the PR summary and code search engines

The engine behind the editor extension has two tools, each in two versions.

The **PR summary** backends take the `git diff` of a branch against its base and prepare prompts for a language model:

- The first backend scans each file's diff line by line into atomic additions and deletions, with line numbers and two lines of context. It then fuses a deletion followed closely by an addition into a modification, and renders the changes as an enumerated list.
- The second backend reads the hunk headers (`@@ -a,b +c,d @@ tail`) of a diff and classifies each hunk as an addition, a deletion or a modification.
- Both filter the changed files through a list of excluded path fragments and summarise the first few that pass.

The **code search** backends index the functions and classes of a Python repository:

- The first backend builds a compact searchable text for each chunk and stores chunks in batches of 32, under ids that carry a running index.
- The second backend stores each file's chunks under `path:name:line` ids. It answers topic questions by showing the first retrieved chunks to a language model.
- Both language-model clients of the second versions retry failed requests on the same schedule.

This project models that deterministic core in Dafny and proves what it promises:

- the counters, records and buffer bound of the line scanner;
- non-overlapping fusion and its inverse;
- the exact text of every list it builds, and which pieces each prompt shows;
- the round trip of hunk headers through the second parser;
- the filters and their order;
- the retry schedule, with no wait after the last attempt;
- the shape of the searchable text, of the stored batches and ids, and of the retrieval context.

The modules follow the engine's files:

| module | file | contents |
|---|---|---|
| `Wrappers` | `wrappers.dfy` | `Option` |
| `Text` | `text.dfy` | Python's `splitlines`, `split`, `join`, `strip`, slicing and `int`/`str` conversion |
| `Selection` | `selection.dfy` | order-preserving filters, "the first n", the early-return exclusion scan |
| `HunkHeaders` | `hunk_header.dfy` | digit runs and the text of a hunk header, shared by both diff parsers |
| `PrSummary` | `pr_summary.dfy` | the first PR summary backend |
| `PrSummaryV2` | `pr_summary_v2.dfy` | the second PR summary backend |
| `LlmRetry` | `llm_retry.dfy` | `call_llm_api`, which both second versions share line for line |
| `CodeChunks` | `code_chunks.dfy` | the chunk record, class truncation and docstring stripping of `extract_code_chunks` |
| `CodeSearch` | `code_search.dfy` | the first code search backend |
| `CodeSearchV2` | `code_search_v2.dfy` | the second code search backend |

The model is written in the same style as the source:

- A loop that updates variables becomes a method with a `while` or `for` loop: `parse_diff_hunks`, `detect_modifications`, `format_atomic_changes`, `detect_atomic_changes`, `call_llm_api`, the batching loop of `index_repository`, the per-file loop of the second `index_repository`, and the context loop of `rag_topic_query`.
- Each such method is proved equal to a specification function of its inputs, and the properties are proved about that function.
- Expression code (slicing, formatting, the filters) becomes functions.

## Model

| member | source | states |
|---|---|---|
| `PrSummary.Repr` | src/pr_summary_backend.py:30-36 | every printed record opens with `Line ` and ends with the content it shows last: the new content, or the old one for a deletion |
| `PrSummary.ReprOfWellFormed` | src/pr_summary_backend.py:30-36 | a well-formed record prints as `Line n: + text`, `Line n: - text` or `Line old->new: old → new`, according to its type |
| `PrSummary.StrippedTextIff` | src/pr_summary_backend.py:144-145 | the content a record may carry is exactly a non-empty string that `strip()` leaves unchanged |
| `PrSummary.ParseDiffHunks` | src/pr_summary_backend.py:114-173 | the loop over `diff.splitlines()` returns exactly the records of the line-by-line scan `Scan` |
| `PrSummary.ScanLine` | src/pr_summary_backend.py:124-171 | one pass of the loop body moves the counters, the buffer and the record list to the scan's next state |
| `PrSummary.ScanStep` | src/pr_summary_backend.py:123 | scanning one more line is one more step of the scan from the state of the shorter prefix |
| `PrSummary.MatchHunkHeader` | src/pr_summary_backend.py:125 | the pattern is anchored: a line it accepts starts with `@@ -`, so it always falls into the hunk-header branch |
| `PrSummary.MatchHeaderPieces` | src/pr_summary_backend.py:125 | the header pattern accepts `@@ -d1[,c1] +d2[,c2] @@…` for any digit runs and reads the two start numbers from them |
| `PrSummary.HunkHeaderRoundTrip` | src/pr_summary_backend.py:124-128 | the header git writes for start lines `o` and `n`, with or without counts, is read back as `(o, n)` |
| `PrSummary.ScanWellFormed` | src/pr_summary_backend.py:136-171 | after any input, the buffer holds at most 2 lines and every record is well formed: an addition has only new fields with `line_number == new_line`, a deletion only old fields with `line_number == old_line`, and the content is stripped and non-empty |
| `PrSummary.StepOk` | src/pr_summary_backend.py:124-171 | every kind of line keeps that invariant |
| `PrSummary.AddedStepShape` | src/pr_summary_backend.py:143-156 | a `+` line advances only the new counter and records an addition at the current new line exactly when its stripped text is non-empty |
| `PrSummary.ScanAddedLine` | src/pr_summary_backend.py:143-156 | a `+` line moves the new counter on by one and records an addition, with the last two buffered context lines, exactly when its stripped text is non-empty |
| `PrSummary.ScanRemovedLine` | src/pr_summary_backend.py:158-171 | a `-` line moves the old counter on by one and records a deletion, with the last two buffered context lines, exactly when its stripped text is non-empty |
| `PrSummary.RemovedStepShape` | src/pr_summary_backend.py:158-171 | a `-` line advances only the old counter and records a deletion at the current old line exactly when its stripped text is non-empty |
| `PrSummary.AdditionOk` | src/pr_summary_backend.py:147-155 | the addition built from a non-negative line and stripped text is well formed |
| `PrSummary.DeletionOk` | src/pr_summary_backend.py:162-170 | the deletion built from a non-negative line and stripped text is well formed |
| `PrSummary.ContextTextSmall` | src/pr_summary_backend.py:146 | with at most two buffered lines, the context is `""` for an empty buffer and otherwise the lines joined by `'\n'` |
| `PrSummary.PushContextKeepsLastTwo` | src/pr_summary_backend.py:137-139 | appending then popping the front beyond two keeps the last two context lines seen |
| `PrSummary.StepCounters` | src/pr_summary_backend.py:124-171 | a matching header sets both counters to its start numbers and clears the buffer; any other line advances the old counter for context and `-` lines and the new counter for context and `+` lines, whitespace-only lines included |
| `PrSummary.ScanCounters` | src/pr_summary_backend.py:119-171 | after any input, each counter is the last header's start number plus the number of lines since it that advance that counter, and the buffer is the last two context lines since that header |
| `PrSummary.ScanEmitCount` | src/pr_summary_backend.py:123-171 | one record per `+` or `-` line with non-empty stripped content, and never more records than `+`/`-` lines |
| `PrSummary.StepEmits` | src/pr_summary_backend.py:143-171 | one loop step adds one record for a `+`/`-` line with content and none for any other line |
| `PrSummary.ScanPrefix` | src/pr_summary_backend.py:123 | the records of a prefix of the lines come first, in input order |
| `PrSummary.RecordStays` | src/pr_summary_backend.py:147-170 | a record appended at line `i` stays at its place in the final list |
| `PrSummary.AdditionRecord` | src/pr_summary_backend.py:143-155 | each `+` line with non-empty stripped text yields, at its place, the addition at the new counter with the stripped text and the buffer's context |
| `PrSummary.DeletionRecord` | src/pr_summary_backend.py:158-170 | each `-` line with non-empty stripped text yields, at its place, the deletion at the old counter with the stripped text and the buffer's context |
| `PrSummary.FileHeaderStep` | src/pr_summary_backend.py:132-134 | `diff --git`, `index`, `---` and `+++` lines change nothing |
| `PrSummary.FileHeaderStepSkips` | src/pr_summary_backend.py:132-134 | any line starting with `---` or `+++` changes nothing, counters included |
| `PrSummary.DashedRemovalSkipped` | src/pr_summary_backend.py:133 | a removed line whose text starts with `--` is skipped without advancing the old counter |
| `PrSummary.PlussedAdditionSkipped` | src/pr_summary_backend.py:133 | an added line whose text starts with `++` is skipped without advancing the new counter |
| `PrSummary.DetectModifications` | src/pr_summary_backend.py:176-208 | the `while` loop over `i` returns the greedy left-to-right fusion `Fuse` of its input |
| `PrSummary.FusePair` | src/pr_summary_backend.py:187-203 | a deletion followed by an addition at most 2 lines away becomes one modification, and the scan resumes two places on |
| `PrSummary.FuseSingle` | src/pr_summary_backend.py:204-206 | any other element passes through unchanged and the scan resumes one place on |
| `PrSummary.FuseLength` | src/pr_summary_backend.py:184-206 | the output is never longer than the input; without modifications in the input, each modification in the output accounts for exactly one lost element |
| `PrSummary.FuseIdentity` | src/pr_summary_backend.py:178-206 | a list with no fusible neighbours, the empty list included, comes back unchanged |
| `PrSummary.FuseWellFormed` | src/pr_summary_backend.py:194-202 | fusing well-formed records gives well-formed records |
| `PrSummary.FuseProvenance` | src/pr_summary_backend.py:187-206 | every output record is an input record passed through or the merge of a fusible adjacent pair; on scanner output every modification takes line number, old line, old content and context from the deletion and new line and new content from the addition that follows it |
| `PrSummary.Keys` | src/pr_summary_backend.py:176-208 | one key per record |
| `PrSummary.FuseRoundTrip` | src/pr_summary_backend.py:184-206 | splitting every modification back into its deletion and addition restores the input, so pairs never overlap and nothing is lost or reordered |
| `PrSummary.FormatAtomicChanges` | src/pr_summary_backend.py:211-228 | empty input gives exactly `No atomic changes detected.`; otherwise the numbered lines are joined by `'\n'` |
| `PrSummary.FormattedLines` | src/pr_summary_backend.py:216-226 | one line per change |
| `PrSummary.FormattedLineAt` | src/pr_summary_backend.py:217 | line `k` formats change `k` with number `k + 1` |
| `PrSummary.FormatWellFormed` | src/pr_summary_backend.py:218-226 | the per-type formats `**Added**`, `**Removed**` and `**Changed**`, with line, content and arrow |
| `PrSummary.FormatChangeOneLine` | src/pr_summary_backend.py:218-226 | a change whose texts have no line break formats to a single line |
| `PrSummary.IntLine` | src/pr_summary_backend.py:219-224 | a printed line number has no line break |
| `PrSummary.FormattedLinesOneLine` | src/pr_summary_backend.py:216-226 | every formatted line is a single line when the contents are |
| `PrSummary.FormattedText` | src/pr_summary_backend.py:228 | splitting the list text at `'\n'` gives back exactly one line per change, in order |
| `PrSummary.ShouldSummarizeFile` | src/pr_summary_backend.py:258-269 | true exactly when no excluded fragment is a substring of the path |
| `PrSummary.TruncateLargeDiff` | src/pr_summary_backend.py:282-290 | a diff longer than `max_lines` always comes back with the truncation marker in it |
| `PrSummary.TruncateShortDiff` | src/pr_summary_backend.py:284-286 | a diff with at most `max_lines` lines comes back unchanged |
| `PrSummary.TruncateLongDiff` | src/pr_summary_backend.py:288-290 | with a limit of at least 2, a longer diff becomes its first and last `max_lines // 2` lines around the marker, joined by `'\n'` |
| `PrSummary.TruncateKeepsEverythingWithTinyLimit` | src/pr_summary_backend.py:288-290 | with `max_lines == 1` a two-line diff comes back whole, behind the marker |
| `PrSummary.TruncateFixedBound` | src/pr_summary_backend.py:288-290 | the corrected truncation keeps `max_lines // 2` lines at each end for every limit, never more than `max_lines` together |
| `PrSummary.HalfOfLimit` | src/pr_summary_backend.py:288 | twice the half never exceeds the limit |
| `PrSummary.TruncateFixedAgrees` | src/pr_summary_backend.py:282-290 | for limits of at least 2 the corrected truncation is the one the source computes |
| `PrSummary.TruncateLargeDiffFixed` | src/pr_summary_backend.py:288-290 | the corrected truncation of a diff longer than the limit also always shows the marker |
| `PrSummary.Bullets` | src/pr_summary_backend.py:329-333 | each listed item becomes its own `  - item` line |
| `PrSummary.CappedListLines` | src/pr_summary_backend.py:329-335 | a capped list shows the first `cap` items (all of them if there are fewer), each on its own line, followed by `... and N more` with `N = len - cap` only when the cap is exceeded |
| `PrSummary.Numbered` | src/pr_summary_backend.py:337 | one entry per summary |
| `PrSummary.NumberedAt` | src/pr_summary_backend.py:337 | entry `k` is `k+1. summary` |
| `PrSummary.CappedList` | src/pr_summary_backend.py:327-333 | a list within its cap is all its bullets; a longer one ends with the `... and N more` line |
| `PrSummary.OverallSummaryPrompt` | src/pr_summary_backend.py:326-355 | the prompt as written contains the capped file list and the numbered file summaries |
| `PrSummary.OverallSummaryPromptWithCommits` | src/pr_summary_backend.py:327-329 | the corrected prompt contains the capped commit list |
| `PrSummary.OverallPromptIgnoresCommitMessages` | src/pr_summary_backend.py:326-355 | the prompt as written depends only on how many commits there are, not on their messages |
| `PrSummary.OverallPromptWithCommitsShowsThem` | src/pr_summary_backend.py:326-355 | the corrected prompt shows the capped commit list, the capped file list and every numbered summary |
| `PrSummary.TailShowsFilesAndSummaries` | src/pr_summary_backend.py:344-349 | the part after the commit count shows the file list and the numbered summaries |
| `PrSummary.FilesToSummarize` | src/pr_summary_backend.py:410-413 | only changed files that pass the filter and have a diff, in their order, and exactly the first `max_files` of them |
| `PrSummary.SuccessfulSummaries` | src/pr_summary_backend.py:453-456 | exactly the summaries of files that did not fail, in order |
| `PrSummary.SummaryList` | src/pr_summary_backend.py:461 | one `file: summary` line per kept summary, in order |
| `PrSummary.OverallSummary` | src/pr_summary_backend.py:391-467 | never empty; always one of the three fixed texts or the model's own reply, and the reply only when there are changed files and a successful summary; without a reply it is a fixed text |
| `PrSummary.OverallSummaryIgnoresReply` | src/pr_summary_backend.py:458-467 | without a successful summary the model's reply makes no difference |
| `PrSummary.AllFailedGivesNoSuccess` | src/pr_summary_backend.py:453-459 | when every summarised file failed, the overall summary is the no-success text, whatever the reply |
| `PrSummary.SomeSuccessUsesReply` | src/pr_summary_backend.py:453-467 | with one file not failed, a non-empty reply is the overall summary and no reply or an empty one gives the error text |
| `HunkHeaders.DigitsEnd` | src/pr_summary_backend.py:125 | the end of the maximal run of digits from a position |
| `HunkHeaders.DigitsEndAt` | src/pr_summary_backend.py:125 | any place where a run of digits stops is that end |
| `HunkHeaders.DigitsEndConcat` | src/pr_summary_backend.py:125 | a run of digits followed by a non-digit is read whole |
| `HunkHeaders.SplitDigits` | src/pr_summary_backend.py:125 | `\d+` splits off the leading digit run |
| `HunkHeaders.SplitDigitsConcat` | src/pr_summary_backend.py:125 | the run split off is exactly the digits written |
| `HunkHeaders.SkipCount` | src/pr_summary_backend.py:125 | `,?\d*` never lengthens the text |
| `HunkHeaders.SkipCountText` | src/pr_summary_backend.py:125 | `,?\d*` skips exactly a written count |
| `HunkHeaders.CountText` | src/pr_summary_backend_v2.py:213 | the count git writes is empty or a comma and digits |
| `PrSummaryV2.OptionalCountAt` | src/pr_summary_backend_v2.py:213-220 | `(?:,(\d+))?` either matches nothing or a comma and digits |
| `PrSummaryV2.LineStop` | src/pr_summary_backend_v2.py:213 | `[^\n]*` runs to the next line break or the end |
| `PrSummaryV2.HalfAt` | src/pr_summary_backend_v2.py:213 | one `-a,b` / `+c,d` half, when it matches, ends inside the text |
| `PrSummaryV2.MatchAt` | src/pr_summary_backend_v2.py:213 | a header match at a position starts there and ends inside the text |
| `PrSummaryV2.Headers` | src/pr_summary_backend_v2.py:214 | `finditer` gives matches in order, none overlapping |
| `PrSummaryV2.OrderedCons` | src/pr_summary_backend_v2.py:214 | a match placed before later, ordered matches that start after it keeps the list ordered and not overlapping |
| `PrSummaryV2.NoHeadersWithoutAt` | src/pr_summary_backend_v2.py:214 | a text without `@` has no header |
| `PrSummaryV2.HeaderMatchRoundTrip` | src/pr_summary_backend_v2.py:213-221 | the header git writes for any start lines and counts (counts left out or not) is matched with exactly those numbers, those counts and that tail |
| `PrSummaryV2.HalfAtConcat` | src/pr_summary_backend_v2.py:213 | a written half is read back with its start and count |
| `PrSummaryV2.CommaDigitsAt` | src/pr_summary_backend_v2.py:218-220 | a comma and digits give that count |
| `PrSummaryV2.AddedTexts` | src/pr_summary_backend_v2.py:233-235 | no more additions than lines |
| `PrSummaryV2.RemovedTexts` | src/pr_summary_backend_v2.py:236-237 | no more deletions than lines |
| `PrSummaryV2.AddedTextsNonEmpty` | src/pr_summary_backend_v2.py:234 | there are additions exactly when some line starts with `+` but not `+++` |
| `PrSummaryV2.RemovedTextsNonEmpty` | src/pr_summary_backend_v2.py:236 | there are deletions exactly when some line starts with `-` but not `---` |
| `PrSummaryV2.TextsStep` | src/pr_summary_backend_v2.py:233-237 | each line adds its text minus the first character to at most one of the two lists |
| `PrSummaryV2.CollectTexts` | src/pr_summary_backend_v2.py:230-237 | the loop over the lines collects exactly those two lists |
| `PrSummaryV2.Classify` | src/pr_summary_backend_v2.py:240 | modification exactly when both lists are non-empty, addition when only additions are, deletion otherwise |
| `PrSummaryV2.Records` | src/pr_summary_backend_v2.py:216-250 | one optional record per header |
| `PrSummaryV2.AtomicChangesOf` | src/pr_summary_backend_v2.py:210-252 | at most one record per header |
| `PrSummaryV2.DetectAtomicChanges` | src/pr_summary_backend_v2.py:200-252 | the nested loops return exactly the records of the headers that have changes, in header order |
| `PrSummaryV2.SummarizeHunk` | src/pr_summary_backend_v2.py:228-250 | the body of one header gives its record, or none |
| `PrSummaryV2.BuildChange` | src/pr_summary_backend_v2.py:240-250 | the record built from non-empty lists is the record of the hunk |
| `PrSummaryV2.RecordOfFields` | src/pr_summary_backend_v2.py:242-250 | a record with exactly those fields is the record of the hunk |
| `PrSummaryV2.RecordsStep` | src/pr_summary_backend_v2.py:216-250 | each header appends its record, when it has one, after the earlier ones |
| `PrSummaryV2.HunkRecordPresent` | src/pr_summary_backend_v2.py:239 | a hunk yields a record exactly when it has an addition or a deletion line |
| `PrSummaryV2.HunkRecordType` | src/pr_summary_backend_v2.py:240 | modification exactly when both kinds of line occur, addition when only `+` lines do, deletion when there is no addition |
| `PrSummaryV2.HunkRecordFields` | src/pr_summary_backend_v2.py:217-249 | the record holds the texts minus their first character (not stripped), the stripped header tail, `(start, start + count - 1)` for both sides, and `<Type> at lines <new_start>-<new_end>` |
| `PrSummaryV2.OmittedCountsDefaultToOne` | src/pr_summary_backend_v2.py:218-220 | a header without counts spans one line on each side |
| `PrSummaryV2.RecordPlaced` | src/pr_summary_backend_v2.py:224-250 | the record of header `j` sits after the records of the earlier headers, built from the text between the end of its match and the start of the next match, or the end of the diff |
| `PrSummaryV2.SingleHunkDiff` | src/pr_summary_backend_v2.py:213-250 | a diff made of one header line and a body without `@` has that one header and the record of that body |
| `PrSummaryV2.HeadersOfOne` | src/pr_summary_backend_v2.py:214 | a match followed by no `@` is the only one |
| `PrSummaryV2.OneRecord` | src/pr_summary_backend_v2.py:224-226 | the last header's body runs to the end of the diff |
| `PrSummaryV2.ShouldSummarizeFile` | src/pr_summary_backend_v2.py:366-377 | true exactly when no listed fragment, `.devcopilot/` included, is a substring of the path |
| `PrSummaryV2.FilterExtendsFirstBackend` | src/pr_summary_backend_v2.py:368-373 | the second filter rejects everything the first rejects, and agrees with it on paths without `.devcopilot/` |
| `PrSummaryV2.FilesToSummarize` | src/pr_summary_backend_v2.py:422-425 | the first `max_files` changed files that pass the filter, in order |
| `Selection.Filter` | src/pr_summary_backend.py:410-412 | the comprehension keeps exactly the elements that pass |
| `Selection.FilterAppend` | src/pr_summary_backend_v2.py:422-424 | filtering keeps the input order |
| `Selection.ScanExclusionsIff` | src/pr_summary_backend.py:266-269 | the early-return scan is false exactly when some pattern occurs in the path |
| `Selection.ScanExclusionsMonotone` | src/pr_summary_backend_v2.py:374-377 | a longer pattern list rejects at least as many paths |
| `Selection.FirstPassing` | src/pr_summary_backend_v2.py:422-425 | `[…][:n]` is a prefix of the filter, of length `n` when enough pass |
| `Selection.CountIf` | src/pr_summary_backend.py:123 | a count never exceeds the length |
| `LlmRetry.Pow2` | src/pr_summary_backend_v2.py:91 | `2 ** attempt` is at least 1 |
| `LlmRetry.CallLlmApi` | src/pr_summary_backend_v2.py:75-125 | the retry loop returns the answer, the number of requests and the waits of the schedule `Attempts` |
| `LlmRetry.RetryStep` | src/pr_summary_backend_v2.py:88-123 | a retriable failure before the last attempt waits and tries the next attempt |
| `LlmRetry.StopStep` | src/pr_summary_backend_v2.py:82-123 | a reply ends with its stripped content, and no choices, a 401 or a failure on the last attempt ends with no answer |
| `LlmRetry.AttemptsCount` | src/pr_summary_backend_v2.py:75 | between 1 and `max_retries` requests, no request at all when `max_retries <= 0`, and exactly one wait fewer than requests |
| `LlmRetry.AttemptsWaits` | src/pr_summary_backend_v2.py:90-121 | every wait follows a retriable failure and lasts as that failure's rule says |
| `LlmRetry.AttemptsAnswer` | src/pr_summary_backend_v2.py:82-83 | an answer is the stripped content of the last request's reply |
| `LlmRetry.StopsAt` | src/pr_summary_backend_v2.py:75-123 | retriable failures up to attempt `k` and a stop at `k` make exactly `k + 1` requests and `k` waits |
| `LlmRetry.FirstReplyAnswers` | src/pr_summary_backend_v2.py:82-83 | the first reply after retriable failures is the answer, stripped |
| `LlmRetry.UnauthorizedStops` | src/pr_summary_backend_v2.py:106-108 | a 401 returns no answer at once, with no wait after it |
| `LlmRetry.AllFailuresGiveUp` | src/code_search_backend_v2.py:95-145 | when every attempt fails retriably, all `max_retries` are used, no answer comes back and there is no wait after the last attempt |
| `LlmRetry.NoRetriesNoRequest` | src/pr_summary_backend_v2.py:75-125 | with `max_retries <= 0` nothing is sent |
| `LlmRetry.WaitSchedule` | src/code_search_backend_v2.py:95-145 | a 429 waits `5 * (attempt + 1)` seconds; timeouts, other HTTP errors and request errors wait `2 ** attempt` |
| `CodeChunks.TruncateClassCode` | src/code_search_backend_v2.py:204-205 | the capped class code is never longer than 2000 characters plus the note, and always begins with the code's first 2000 characters (all of it when shorter) |
| `CodeChunks.TruncateClassCodeShape` | src/code_search_backend_v2.py:204-205 | class code of at most 2000 characters is kept whole; longer code becomes its first 2000 characters and the truncation note; truncating twice changes nothing more |
| `CodeChunks.DocstringText` | src/code_search_backend_v2.py:174 | the stripped docstring is never longer than the literal |
| `CodeChunks.DocstringOfQuoted` | src/code_search_backend_v2.py:174 | a literal in `"""`, `'''` or `"` around text without quotes or spaces at its ends gives that text back |
| `CodeChunks.DocstringDelimited` | src/code_search_backend_v2.py:174 | the same for any single or triple quote |
| `CodeChunks.DocstringLosesClosingQuote` | src/code_search_backend_v2.py:174 | a `"""` docstring ending in `'` loses that quote |
| `CodeChunks.DocstringTextFixed` | src/code_search_backend_v2.py:174 | the corrected stripping is never longer than the literal |
| `CodeChunks.DocstringFixedRoundTrip` | src/code_search_backend_v2.py:174 | removing exactly the triple-quote delimiters and then whitespace gives the stripped text of any docstring |
| `CodeChunks.DocstringFixedKeepsClosingQuote` | src/code_search_backend_v2.py:174 | the corrected stripping keeps a closing `'` inside `"""` |
| `CodeChunks.ChunkOf` | src/code_search_backend_v2.py:160-215 | a named definition gives a chunk of its kind, name and file, with 1-based lines, whole function code, truncated class code and the docstring or `""` |
| `CodeChunks.ExtractChunks` | src/code_search_backend_v2.py:147-226 | at most one chunk per definition, all from the file read |
| `CodeChunks.ExtractChunksNamed` | src/code_search_backend_v2.py:158-221 | when every definition has a name, chunk `i` is the chunk of definition `i` |
| `CodeSearch.SearchableText` | src/code_search_backend.py:124-143 | the embedded text opens with `Documentation: ` and the docstring when there is one, otherwise with `type: name` |
| `CodeSearch.FileName` | src/code_search_backend.py:136 | the file name is the path's tail after its last `/` when it has one, otherwise after its last `\`, otherwise the whole path |
| `CodeSearch.CreateSearchableText` | src/code_search_backend.py:124-143 | the appends build exactly the searchable parts joined by blank lines |
| `CodeSearch.SearchablePartsShape` | src/code_search_backend.py:126-141 | 3 parts, or 4 with the docstring first, in the order docstring, type and name, file, code; the code part holds the first 400 characters at most |
| `CodeSearch.DocumentationFirst` | src/code_search_backend.py:129-130 | a `Documentation:` part appears exactly when the docstring is non-empty, and only first |
| `CodeSearch.SearchableTextNamesChunk` | src/code_search_backend.py:129-143 | the text always shows `type: name` and the file name, and the docstring when there is one |
| `CodeSearch.StoredDocstringCapped` | src/code_search_backend.py:230 | a stored docstring is its first 500 characters at most, whole when short, `""` when empty |
| `CodeSearch.IndexChunks` | src/code_search_backend.py:210-241 | one add per batch of 32 chunks (the last may be shorter), each with the ids, texts, metadata and code of its chunks, and a final count equal to the number of chunks |
| `CodeSearch.BatchStep` | src/code_search_backend.py:213-214 | the next batch covers the next 32 chunks or the rest |
| `CodeSearch.PrepareBatch` | src/code_search_backend.py:214-233 | the ids, texts, metadata and documents built for one slice are those of the batch of that slice |
| `CodeSearch.NextBatch` | src/code_search_backend.py:236-241 | adding the next slice's batch keeps every add equal to the batch of its own slice |
| `CodeSearch.BatchAligned` | src/code_search_backend.py:218-230 | ids, texts, metadata and documents of a batch have one entry per chunk, at most 32; id `j` carries the running index `lo + j`, document `j` is the chunk's code and each stored docstring has at most 500 characters |
| `CodeSearch.ChunkId` | src/code_search_backend.py:221-222 | the text after an id's last colon is the chunk's start line |
| `CodeSearch.ChunkIdsDistinct` | src/code_search_backend.py:221-222 | chunks with different running indexes never share an id |
| `CodeSearch.SearchResults` | src/code_search_backend.py:277-309 | without filtering the result is the store's answer for `top_k`; with filtering it holds at most `top_k` hits |
| `CodeSearch.SearchResultsShape` | src/code_search_backend.py:277-309 | without filtering exactly `top_k` are asked for and returned; with filtering `3 * top_k` are asked for and at most `top_k`, the first of the reranked list, are returned |
| `CodeSearchV2.ChunkId` | src/code_search_backend_v2.py:291 | the text after an id's last colon is the chunk's start line |
| `CodeSearchV2.ChunkIdEndsWithStartLine` | src/code_search_backend_v2.py:291 | the start line reads back from an id as the number it was |
| `CodeSearchV2.ChunkIdsDistinct` | src/code_search_backend_v2.py:291 | within a file, chunks that share an id share name and start line, when names have no colon |
| `CodeSearchV2.IndexFiles` | src/code_search_backend_v2.py:285-313 | one add per file that yields chunks, in file order, and a total equal to the number of chunks yielded |
| `CodeSearchV2.FileAddAligned` | src/code_search_backend_v2.py:291-300 | ids, documents and metadata of an add are aligned, one per chunk, the docstring stored whole |
| `CodeSearchV2.AddsCoverChunks` | src/code_search_backend_v2.py:289-313 | no add is empty, and the adds hold every chunk: the running total is the number of entries stored |
| `CodeSearchV2.BuildContext` | src/code_search_backend_v2.py:492-499 | the loop builds exactly the parts of the first `context_chunks` retrieved chunks joined by blank lines |
| `CodeSearchV2.ContextHeaders` | src/code_search_backend_v2.py:493-494 | the source headers of the context are `### Source 1` to `### Source n` with each used chunk's path and name, in order |
| `CodeSearchV2.ContextDocstrings` | src/code_search_backend_v2.py:495-496 | one `Docstring:` part per used chunk whose docstring is non-empty, none for the others |
| `CodeSearchV2.ChunkPartsHeaders` | src/code_search_backend_v2.py:494-497 | each chunk contributes one header and its docstring part only when its docstring is non-empty |
| `CodeSearchV2.ContextUsesFirstChunks` | src/code_search_backend_v2.py:493 | only the first `context_chunks` chunks are used, all of them when fewer were retrieved |
| `CodeSearchV2.RagPrompt` | src/code_search_backend_v2.py:503-510 | the prompt shows the whole context and the whole question |
| `CodeSearchV2.AnswerText` | src/code_search_backend_v2.py:514-515 | the answer is never empty: the reply itself exactly when there is a non-empty one, otherwise the failure text |
| `CodeSearchV2.RagTopicQuery` | src/code_search_backend_v2.py:455-523 | no retrieved chunk gives the fixed no-chunks answer with no sources and no request; otherwise the answer is the model's reply to the prompt, or the failure text, and the sources are all retrieved chunks |
| `CodeSearchV2.RagAnswerOnFirstReply` | src/code_search_backend_v2.py:512-515 | a first reply is the answer, stripped, unless it strips to nothing, which gives the failure text |
| `CodeSearchV2.RagAnswerWhenApiFails` | src/code_search_backend_v2.py:512-515 | three retriable failures give the failure text |
| `Text.SplitLines` | src/pr_summary_backend.py:117 | `splitlines()` gives no lines for the empty text and otherwise lines without line breaks |
| `Text.Split` | src/pr_summary_backend_v2.py:228 | `split('\n')` gives pieces without the separator |
| `Text.JoinSplit` | src/pr_summary_backend_v2.py:228 | joining the pieces of a split gives the text back |
| `Text.SplitJoin` | src/pr_summary_backend.py:228 | splitting a join of pieces without the separator gives the pieces back |
| `Text.Strip` | src/pr_summary_backend.py:144 | the result of `strip()` is never longer and has no whitespace at either end |
| `Text.StripIdempotent` | src/pr_summary_backend.py:144 | stripping twice is stripping once |
| `Text.AfterLast` | src/code_search_backend.py:136 | `split(sep)[-1]` is the tail after the last separator, the whole text without one |
| `Text.PyIndex` | src/code_search_backend.py:140 | Python's slice bound for any integer, negative ones included |
| `Text.NatToString` | src/code_search_backend.py:221-222 | a number prints as a non-empty run of digits |
| `Text.ParseNatToString` | src/pr_summary_backend.py:127-128 | `int(str(n)) == n` |
| `Text.NatToStringInjective` | src/code_search_backend.py:221-222 | different numbers print differently |

## Left out

- I/O is not modelled: git subprocesses, file reads, `os.walk`, printing, progress output and file export. Diffs, file lists, commit messages and file contents are inputs.
- The network is not modelled. Each attempt of `call_llm_api` is a parameter `respond(attempt)` that gives its outcome. `call_ollama` of the first PR summary backend returns an optional string given as input. `time.sleep` becomes the list of waits.
- The JSON body of a response is not modelled: a reply is the content of its first choice. A `None` content, or a response that is not JSON, is not modelled.
- ChromaDB, the embedding models and tree-sitter are foreign libraries and are not modelled:
  - the tree walk of `extract_code_chunks` is a list of definitions given in walk order;
  - retrieval is a function from the number asked for to the hits;
  - the keyword reranking of `filter_results_by_keywords` is a parameter, because its scoring is floating point.
- Float scores, `similarity = 1 - distance` and the early return of both `index_repository` versions on an existing collection when `force_reindex` is false are not modelled: `CodeSearch.IndexChunks` models only the batching loop and `CodeSearchV2.IndexFiles` only the per-file loop, each over an empty collection.
- `hyde_code_search`, `direct_search` and `get_collection_stats` are left out: they are foreign-library calls with no logic beyond result shaping.
- `create_file_summary_prompt`, `summarize_file_changes` and `generate_overall_summary` are left out: their prompts are string templates around the modelled helpers.
- Python's `\d` also matches non-ASCII decimal digits; the model reads only the ASCII digits `0`-`9` as digits. Whitespace for `strip()` and line breaks for `splitlines()` are Python's full sets, non-ASCII code points included.
- tree-sitter byte offsets are taken as character offsets; this holds for ASCII source.
- `CodeChunks.ChunkOf` uses the corrected docstring stripping. The stripping as written is `CodeChunks.DocstringText`; see Findings.
- The dictionaries `file_summaries` and `successful_summaries` are lists of pairs in insertion order, which is the order Python's dictionaries iterate in.
- The summary loop of `summarize_pr` calls the language model and is not modelled. Its results are inputs to `SuccessfulSummaries` and `OverallSummary`.

## Findings

| source | as written | input that shows it | evidently intended | confidence | as-written member | corrected member |
|---|---|---|---|---|---|---|
| src/pr_summary_backend.py:288-290 | `lines[-half:]` with `half == 0` is the whole list | `truncate_large_diff("a\nb", 1)` returns the marker followed by both lines, longer than the input | keep no lines at either end when `max_lines // 2 == 0` | not executed | `PrSummary.TruncateKeepsEverythingWithTinyLimit` | `PrSummary.TruncateLargeDiffFixed`, `PrSummary.TruncateFixedBound`, `PrSummary.TruncateFixedAgrees` |
| src/pr_summary_backend.py:329-353 | `commits_text` is built but never put into the prompt | two commit lists of the same length with different messages give the same prompt | list the capped commit messages in the prompt | not executed | `PrSummary.OverallPromptIgnoresCommitMessages` | `PrSummary.OverallSummaryPromptWithCommits`, `PrSummary.OverallPromptWithCommitsShowsThem` |
| src/code_search_backend_v2.py:174 | `.strip('"""').strip("'''")`, here and again for classes at line 201, strips the character sets `{"}` and `{'}`, not the delimiters | the literal `"""say 'hi'"""` gives `say 'hi` | remove the triple-quote delimiters, then surrounding whitespace | not executed | `CodeChunks.DocstringLosesClosingQuote` | `CodeChunks.DocstringTextFixed`, `CodeChunks.DocstringFixedKeepsClosingQuote`, `CodeChunks.DocstringFixedRoundTrip` |
