# GeminiReviewer in Dafny

A model of the diff-review pipeline of `GeminiReviewer`, a command-line tool that reviews a
pull request's unified diff with a language model and writes a Markdown report. The pipeline:

1. `splitByFile` cuts the diff into one `FileDiff` per file. It splits at each line that
   starts with `diff --git ` and takes the path from the `a/X b/Y` header.
2. `filterFiles` keeps the files whose path the allow-list pattern accepts and the deny-list
   pattern does not, and whose content is at most 120 000 characters long.
3. `batchByCharLimit` groups the files greedily into batches under a character budget.
4. `buildPrompt` turns each batch into one prompt: the fixed instructions, then one section
   per file.
5. `callGemini` sends a prompt, retrying on rate limiting and server errors. It returns the
   model's raw text as one `RAW_OUTPUT` finding, or nothing.
6. `renderMarkdown` turns the findings into the report.

Modules, one per stage:

- `JavaText`: the behaviour of `isBlank`, `trim`, `toString` and the string order of `compareTo`
  the code relies on (by Unicode scalar value; see "Left out").
- `Records`: `FileDiff` and `Finding`.
- `DiffSplitter`, `FileFilter`, `Batcher`, `PromptBuilder`, `ReviewClient`: stages 1 to 5.
- `FindingOrder`: the report's sort.
- `ReportRenderer`: `renderMarkdown` and `escape`.
- `ReviewPipeline`: how `main` chains the stages.

Each Java method that works by loops over an accumulator is a Dafny `method` with the same loop.
Its `ensures` equates the result with a specification function, and lemmas prove what the source
promises about that function.

The model follows what the code does, including where that is easy to misread:

- Text before the first `diff --git ` line is kept, not discarded. Its first line becomes a
  path (`DiffSplitter.LeadingTextIsFirstChunk`, `DiffSplitter.LeadingTextFirstFile`).
- A status that is neither transient nor 2xx throws out of `callGemini` and out of `main`. The
  batch is not treated as having no findings, and no report is written (`ReviewClient.Outcome.Failed`,
  `ReviewPipeline.Gather`).
- The reply's text is every non-blank part of every candidate, each followed by a blank line. It
  is not the first part of the first candidate, and it is not parsed as JSON.
- The CRITICAL banner comes after the severity summary, not before it.

## Model

| member | source | states |
|---|---|---|
| JavaText.TrimIsTrimmed | src/main/java/regera/app/springai/reviewer/GeminiReviewer.java:79 | `trim` leaves no character up to U+0020 at either end of its result |
| JavaText.TrimOfBlank | src/main/java/regera/app/springai/reviewer/GeminiReviewer.java:78-79 | trimming a blank string leaves a blank string |
| JavaText.StrLessIrreflexive | src/main/java/regera/app/springai/reviewer/GeminiReviewer.java:229 | no string sorts before itself under `compareTo` |
| JavaText.StrLessTransitive | src/main/java/regera/app/springai/reviewer/GeminiReviewer.java:229 | `compareTo` order is transitive |
| JavaText.StrLessTotal | src/main/java/regera/app/springai/reviewer/GeminiReviewer.java:229 | of two different strings one sorts before the other |
| JavaText.StrLessAsymmetric | src/main/java/regera/app/springai/reviewer/GeminiReviewer.java:229 | two strings never sort before each other both ways |
| DiffSplitter.NextMarker | src/main/java/regera/app/springai/reviewer/GeminiReviewer.java:69 | the split point found is a line-start occurrence of `diff --git ` (or the end), and no such occurrence is skipped before it |
| DiffSplitter.PiecesRejoin | src/main/java/regera/app/springai/reviewer/GeminiReviewer.java:69 | the split pieces joined with the marker between them give back the whole diff: splitting loses nothing |
| DiffSplitter.IndexOf | src/main/java/regera/app/springai/reviewer/GeminiReviewer.java:74 | `indexOf('\n')` finds the first newline, or reports none |
| DiffSplitter.HeaderPath | src/main/java/regera/app/springai/reviewer/GeminiReviewer.java:74-77 | for a header `a/X b/Y` with X non-empty and without spaces, the path is Y |
| DiffSplitter.ChunkFile | src/main/java/regera/app/springai/reviewer/GeminiReviewer.java:72-79 | a chunk that yields a file gives it a trimmed path and a content starting with `diff --git ` |
| DiffSplitter.FilesOfShape | src/main/java/regera/app/springai/reviewer/GeminiReviewer.java:69-80 | every file has a trimmed path and a content starting with `diff --git `; at most one file per chunk |
| DiffSplitter.SplitByFile | src/main/java/regera/app/springai/reviewer/GeminiReviewer.java:68-82 | the loop returns the files of the non-blank chunks whose header path is not blank, in diff order |
| DiffSplitter.SplitFilesOfTwoChunks | src/main/java/regera/app/springai/reviewer/GeminiReviewer.java:71-80 | a diff of two chunks gives the files of the first chunk, then those of the second |
| DiffSplitter.BlankDiffHasNoFiles | src/main/java/regera/app/springai/reviewer/GeminiReviewer.java:69-72 | a blank diff gives no file |
| DiffSplitter.SplitAssembled | src/main/java/regera/app/springai/reviewer/GeminiReviewer.java:68-82 | a diff made of N well-formed `diff --git a/X b/Y` units gives exactly N files, in order: each unit's Y and its whole text, marker included |
| DiffSplitter.LeadingTextIsFirstChunk | src/main/java/regera/app/springai/reviewer/GeminiReviewer.java:69 | text before the first marker that ends a line is kept as the first chunk |
| DiffSplitter.LeadingChunkFile | src/main/java/regera/app/springai/reviewer/GeminiReviewer.java:72-79 | a chunk whose first line is not blank and does not start with `a/` yields a file whose path is that line trimmed and whose content is the marker followed by the chunk |
| DiffSplitter.LeadingTextFirstFile | src/main/java/regera/app/springai/reviewer/GeminiReviewer.java:69-79 | for every diff whose text before the first marker line has such a first line, the first file of the split is named after that line and holds that text |
| DiffSplitter.BlankPathSlipsThrough | src/main/java/regera/app/springai/reviewer/GeminiReviewer.java:77-79 | as written, `diff --git a/x b/\u0001` yields one file whose path is empty |
| DiffSplitter.ChunkFileChecked | src/main/java/regera/app/springai/reviewer/GeminiReviewer.java:77-79 | with the blank test after trimming, every file it yields has a trimmed, non-blank path |
| DiffSplitter.ChunkFileCheckedAgrees | src/main/java/regera/app/springai/reviewer/GeminiReviewer.java:77-79 | the corrected chunk gives the as-written result except that a file whose path is blank is dropped |
| DiffSplitter.CheckedDropsBlankPaths | src/main/java/regera/app/springai/reviewer/GeminiReviewer.java:68-82 | the corrected split is the as-written split without the blank-path files, order kept |
| DiffSplitter.SplitFilesCheckedNonBlank | src/main/java/regera/app/springai/reviewer/GeminiReviewer.java:78-79 | no file of the corrected split has a blank path |
| FileFilter.FilterFiles | src/main/java/regera/app/springai/reviewer/GeminiReviewer.java:84-94 | the loop returns the files that pass all three tests, in input order |
| FileFilter.KeptMembership | src/main/java/regera/app/springai/reviewer/GeminiReviewer.java:86-92 | a file is in the result iff it is an input file, the allow pattern accepts its path, the deny pattern does not, and its content is at most 120 000 characters long |
| FileFilter.KeptIsSubsequence | src/main/java/regera/app/springai/reviewer/GeminiReviewer.java:84-94 | the result is an order-preserving subsequence of the input |
| FileFilter.KeptIdempotent | src/main/java/regera/app/springai/reviewer/GeminiReviewer.java:84-94 | filtering twice gives what filtering once gives |
| FileFilter.KeptAppend | src/main/java/regera/app/springai/reviewer/GeminiReviewer.java:84-94 | filtering a concatenation filters each part and concatenates |
| Batcher.BatchByCharLimit | src/main/java/regera/app/springai/reviewer/GeminiReviewer.java:96-112 | the loop with its final flush returns the greedy batching of the files |
| Batcher.BatchedPartition | src/main/java/regera/app/springai/reviewer/GeminiReviewer.java:96-111 | the batches concatenated in order are exactly the input files |
| Batcher.BatchedNonEmpty | src/main/java/regera/app/springai/reviewer/GeminiReviewer.java:102-110 | no batch is empty |
| Batcher.BatchedEmptyIff | src/main/java/regera/app/springai/reviewer/GeminiReviewer.java:96-111 | there are no batches iff there are no files |
| Batcher.BatchedWithinLimit | src/main/java/regera/app/springai/reviewer/GeminiReviewer.java:101-108 | a batch of two or more files costs at most the limit (cost = content length + path length + 64 per file) |
| Batcher.BatchedClosedWhenFull | src/main/java/regera/app/springai/reviewer/GeminiReviewer.java:101-106 | each batch's cost plus the cost of the next batch's first file exceeds the limit |
| PromptBuilder.BuildPrompt | src/main/java/regera/app/springai/reviewer/GeminiReviewer.java:114-164 | the prompt is the instructions followed by `\n===== FILE: path =====\n content \n` for each file, in order |
| PromptBuilder.SectionsAppend | src/main/java/regera/app/springai/reviewer/GeminiReviewer.java:159-162 | the sections of a concatenation are the sections of each part |
| PromptBuilder.PromptAppend | src/main/java/regera/app/springai/reviewer/GeminiReviewer.java:115-163 | an empty batch gives the instructions alone; a batch a+b gives the prompt of a followed by the sections of b |
| PromptBuilder.PromptLength | src/main/java/regera/app/springai/reviewer/GeminiReviewer.java:160-161 | a prompt is as long as the instructions plus the batch's cost less 43 per file |
| PromptBuilder.PromptWithinLimit | src/main/java/regera/app/springai/reviewer/GeminiReviewer.java:101-108 | a prompt for a batch of two or more files within the limit is at most the instructions plus the limit less 86 |
| ReviewClient.FirstSettled | src/main/java/regera/app/springai/reviewer/GeminiReviewer.java:176-181 | the attempt that ends the loop is the first whose status is neither 429 nor at least 500, or none of the three |
| ReviewClient.AppendParts | src/main/java/regera/app/springai/reviewer/GeminiReviewer.java:191-194 | the inner loop appends each non-blank part text followed by a blank line |
| ReviewClient.CollectText | src/main/java/regera/app/springai/reviewer/GeminiReviewer.java:189-195 | the loops gather the non-blank part texts of all candidates, in order |
| ReviewClient.CallGemini | src/main/java/regera/app/springai/reviewer/GeminiReviewer.java:175-209 | at most three attempts; the waits recorded are exactly one per transient status, the n-th of 600·n ms; the first other status ends the call with an error if not 2xx, no finding for an empty text, or one raw finding; three transient statuses give no finding |
| ReviewClient.JoinPartsEmptyIffAllBlank | src/main/java/regera/app/springai/reviewer/GeminiReviewer.java:191-198 | one candidate's gathered text is empty iff all its part texts are blank |
| ReviewClient.AggregateEmptyIffAllBlank | src/main/java/regera/app/springai/reviewer/GeminiReviewer.java:189-198 | the gathered text is empty iff every part text is blank |
| ReviewClient.JoinPartsEndsWithBlankLine | src/main/java/regera/app/springai/reviewer/GeminiReviewer.java:193 | one candidate's non-empty gathered text ends with a blank line |
| ReviewClient.AggregateEndsWithBlankLine | src/main/java/regera/app/springai/reviewer/GeminiReviewer.java:193 | a non-empty gathered text ends with a blank line |
| ReviewClient.SettleOutcome | src/main/java/regera/app/springai/reviewer/GeminiReviewer.java:181-206 | a settled attempt fails iff its status is not 2xx; otherwise it gives at most one finding, and none iff every part text is blank; that finding has file `RAW_OUTPUT`, no line, severity `INFO` and the gathered text as its suggestion |
| FindingOrder.LeTransitive | src/main/java/regera/app/springai/reviewer/GeminiReviewer.java:229-230 | the (file, line or `Integer.MAX_VALUE`) order is transitive |
| FindingOrder.LeTotal | src/main/java/regera/app/springai/reviewer/GeminiReviewer.java:229-230 | any two findings are ordered one way or the other |
| FindingOrder.Insert | src/main/java/regera/app/springai/reviewer/GeminiReviewer.java:228-230 | inserting a finding adds exactly that finding |
| FindingOrder.InsertSorted | src/main/java/regera/app/springai/reviewer/GeminiReviewer.java:228-230 | inserting into a sorted sequence keeps it sorted |
| FindingOrder.SortFindingsPermutes | src/main/java/regera/app/springai/reviewer/GeminiReviewer.java:228-230 | the sorted findings are the input findings, each as often |
| FindingOrder.SortFindingsSorted | src/main/java/regera/app/springai/reviewer/GeminiReviewer.java:228-230 | the sorted findings are in (file, line) order |
| FindingOrder.SortFindingsSpec | src/main/java/regera/app/springai/reviewer/GeminiReviewer.java:228-230 | entries come in non-decreasing (file, line-or-MAX) order, and they are a permutation of the input |
| ReportRenderer.ReplaceNewlines | src/main/java/regera/app/springai/reviewer/GeminiReviewer.java:249 | every line feed becomes a space and every other character is kept |
| ReportRenderer.EscapeSpec | src/main/java/regera/app/springai/reviewer/GeminiReviewer.java:249 | an escaped title has no line feed and no character up to U+0020 at either end, and escaping it again changes nothing |
| ReportRenderer.TallyPutLookup | src/main/java/regera/app/springai/reviewer/GeminiReviewer.java:219 | counting a severity adds one to that severity's count and changes no other count |
| ReportRenderer.TallyInvariant | src/main/java/regera/app/springai/reviewer/GeminiReviewer.java:218-219 | the tally stays ascending by key, has positive counts, counts every finding once, and holds each severity's number of findings |
| ReportRenderer.TallySpec | src/main/java/regera/app/springai/reviewer/GeminiReviewer.java:218-221 | the summary has one entry per distinct severity, in ascending `compareTo` order, each with its number of findings, and the counts sum to the number of findings |
| ReportRenderer.CountSeverities | src/main/java/regera/app/springai/reviewer/GeminiReviewer.java:218-219 | the tally loop builds the tally of all findings |
| ReportRenderer.AppendSummary | src/main/java/regera/app/springai/reviewer/GeminiReviewer.java:220-221 | the summary loop appends `key: count` and two spaces per entry, in key order |
| ReportRenderer.AppendEntries | src/main/java/regera/app/springai/reviewer/GeminiReviewer.java:228-243 | the entry loop appends each sorted finding's entry, in sorted order |
| ReportRenderer.RenderMarkdown | src/main/java/regera/app/springai/reviewer/GeminiReviewer.java:212-247 | the method builds the report: the fixed message when there are no findings, otherwise heading, summary, banner if due, entries and disclaimer |
| ReportRenderer.ReportFraming | src/main/java/regera/app/springai/reviewer/GeminiReviewer.java:213-245 | no findings give the fixed "No issues" message; otherwise the report starts with `### AI Review (Gemini)` and ends with the disclaimer |
| ReportRenderer.EntriesStartWithBold | src/main/java/regera/app/springai/reviewer/GeminiReviewer.java:232 | the entries of a non-empty list start with `**` |
| ReportRenderer.BannerIffCritical | src/main/java/regera/app/springai/reviewer/GeminiReviewer.java:222-225 | right after the summary stands `> SEVERITY: CRITICAL` iff some severity equals `CRITICAL` ignoring case; otherwise the first entry stands there |
| ReviewPipeline.PromptsSpec | src/main/java/regera/app/springai/reviewer/GeminiReviewer.java:44-54 | the files sent are exactly the files `splitByFile` gives that pass the filters, once each and in order; a blank diff sends nothing; a prompt for two or more files stays within the instructions plus the limit |
| ReviewPipeline.CheckedBatchesSpec | src/main/java/regera/app/springai/reviewer/GeminiReviewer.java:44-47 | with the corrected split, the files sent are those `main` sends less the ones with a blank path, in the same order, and none has a blank path |
| ReviewPipeline.KeptNonBlankPaths | src/main/java/regera/app/springai/reviewer/GeminiReviewer.java:84-94 | filtering the files and dropping blank paths commute |
| ReviewPipeline.GatherSpec | src/main/java/regera/app/springai/reviewer/GeminiReviewer.java:50-57 | the run reaches the report iff no call failed, and then the report has at most one finding per batch |

## Left out

- `main`'s file handling, logging, stray debug lines and the 400 ms pause between batches
  (src/main/java/regera/app/springai/reviewer/GeminiReviewer.java:33-60) are I/O. `ReviewPipeline` states only the composition. A blank diff makes `main`
  stop before splitting. The model instead shows that such a diff yields no file.
- The class-load configuration (src/main/java/regera/app/springai/reviewer/GeminiReviewer.java:15-22) and `getenvOrFail` (src/main/java/regera/app/springai/reviewer/GeminiReviewer.java:62-66) are left out. The limit,
  the allow and deny patterns and the prompt instructions are parameters.
- The regex engine. The allow and deny patterns are `string -> bool` parameters, and their
  default expressions are not modelled. The split regex is modelled as line-start occurrences
  of the marker, a line starting after \n, \r, U+0085, U+2028 or U+2029. `replaceFirst` is an
  explicit prefix check.
- The instruction text of `buildPrompt` (src/main/java/regera/app/springai/reviewer/GeminiReviewer.java:116-158), including text-block indentation
  stripping, is an opaque parameter.
- OkHttp, the request body, the endpoint and `Thread.sleep` are left out.
  `ReviewClient.CallGemini` takes the status and decoded part texts of the three answers the
  transport would give, and records the waits as values.
- Jackson decoding (src/main/java/regera/app/springai/reviewer/GeminiReviewer.java:188-192) is left out. An unreadable body, or a transport exception,
  would propagate as an exception; the model has neither.
- JavaText.StrLess: orders strings by Unicode scalar values. Java's `compareTo` compares
  UTF-16 code units, so a character above U+FFFF (a surrogate pair, units D800 to DBFF) sorts
  before U+E000 to U+FFFF in Java and after them here. The finding sort (`FindingOrder`) and the
  severity tally's key order (`ReportRenderer.TallySpec`) inherit this for such characters.
- ReviewClient.CallGemini: a status that is neither transient nor 2xx is returned as
  `Failed(code)` instead of a thrown `IOException`.
- Batcher.BatchByCharLimit: `curLen` and the cost are unbounded integers. The 32-bit overflow
  of `int` for inputs beyond 2^31 characters is not modelled.
- Lengths (FileFilter.KeptMembership, Batcher.Cost, PromptBuilder.PromptLength) count
  characters. Java counts UTF-16 code units, which differ for characters outside the Basic
  Multilingual Plane.
- Null strings are not modelled: `escape`'s null case, and null detail or suggestion. The
  `line` field stays optional.
- FindingOrder.SortFindings: it is stable like the stream's sort, but stability is not stated
  as a lemma.
- ReportRenderer.IsCritical: `equalsIgnoreCase` is modelled only for the letters of
  `CRITICAL`.
- `ChatService` and `ChatController` are thin framework wrappers with no logic of their own and
  are not part of this model.

## Findings

| source | as written | input that shows it | evidently intended | confidence | as-written member | corrected member |
|---|---|---|---|---|---|---|
| src/main/java/regera/app/springai/reviewer/GeminiReviewer.java:77-79 | the blank test is made on the untrimmed path, which is then trimmed | `diff --git a/x b/\u0001`: U+0001 is not whitespace, so the test passes, and `trim` removes it, so a file with the empty path is produced | test the trimmed path, so that every file has a non-blank path (the code skips blank paths on purpose) | low; not executed | DiffSplitter.BlankPathSlipsThrough | DiffSplitter.SplitFilesCheckedNonBlank |

`ReviewPipeline.ReviewBatches` composes the split as `main` calls it (`DiffSplitter.SplitFiles`), so
a file with an empty path can be sent. `ReviewPipeline.CheckedReviewBatches` composes the corrected
split, `DiffSplitter.SplitFilesChecked`, and `ReviewPipeline.CheckedBatchesSpec` proves that it sends
the same files less the blank-path ones.
