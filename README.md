# Long-context QA benchmark runner — a verified model

The runner asks a model under test a set of long-context questions, has a
judge model grade each answer, and appends one JSON record per graded
question to a results file (JSON Lines). The first line of that file is a
statistics header padded to a fixed width, and it is patched in place after
every record. Runs can be resumed: a later run reads the file back, skips the
questions already answered, keeps the records already there, and goes on
counting.

This project models that core in Dafny:

- **`Text`** (`text.dfy`): the Python string operations the runner relies on.
  This covers `str.strip` with Python's whitespace set, ASCII `upper`,
  substring tests, `split`/`join` and `int`/`str` on whole numbers.
- **`Utils`** (`utils.dfy`):
  - `ModelConfig`;
  - `expand_env_vars` (`${NAME}` references);
  - `call_chat_completion`: its folding of streamed chunks into text and
    usage, and its retry loop with the exponential backoff schedule.
- **`Grader`** (`grader.dfy`): `normalize_judge_result`, the judge prompt,
  `judge_max_tokens` and `grade_answer`.
- **`Records`** (`records.dfy`): the result record and the exact line
  `json.dumps(result, ensure_ascii=False)` writes for it, including string
  escaping and a proof that the escaping can be undone.
- **`Loaders`** (`loaders.dfy`): `load_models_yaml`, `load_questions` and
  `load_document_set`, over already-parsed YAML, CSV and file reads.
- **`Tasks`** (`tasks.dfy`): `process_one_question`, with its two skip paths,
  its error record and the graded record.
- **`Store`** (`store.dfy`):
  - the results file as a class with a cursor (`write`, `seek`, `tell`, mode
    `"w"`);
  - `make_header`, its accuracy rounding, and the proof that it is 201
    characters wide.
- **`Pipeline`** (`pipeline.dfy`): `run`, step by step:
  - the done-id scan;
  - the stable sort by numeric id, the pending filter and the `num_tasks`
    slice;
  - the early return;
  - the fold over the existing lines;
  - the rewrite with a fresh header;
  - the drain loop, which appends each result and patches the header.
- **`Resume`** (`resume.dfy`): what a later run reads back from the file a run
  leaves:
  - the fold finds exactly the counts the header states;
  - the scan finds the id of every written record;
  - no written question is chosen again.

The model puts the outside world behind function parameters:

| What | Parameter |
|---|---|
| `json.loads` | `parse: JsonParser` |
| tiktoken length | `count: Tokenizer` |
| document reads | `read: DocReader` |
| model calls | `complete: Completer`, or one `Attempt` per retry |
| the clock | `clock: nat -> Timestamp` |
| the completion order of `asyncio.as_completed` | `order`, any reordering |

`ReadsBack(parse)` states what is assumed of `json.loads`: it reads a record
line back as the record's dictionary and a header line as the statistics
dictionary.

## Model

| member | source | states |
|---|---|---|
| Text.StripLeftShape | main.py:197 | stripping from the left removes exactly a leading run of whitespace; what is left is a suffix that is empty or starts with a non-space |
| Text.StripRightShape | main.py:197 | stripping from the right removes exactly a trailing run of whitespace; what is left is a prefix that is empty or ends with a non-space |
| Text.StripIgnoresSurroundingSpace | main.py:197 | whitespace added around a text does not change what it strips to |
| Text.StripKeepsTrimmed | main.py:197 | a text that starts and ends with a non-space strips to itself |
| Text.StripUpperCommute | grader.py:6 | stripping then upper-casing equals upper-casing then stripping |
| Text.UpperIdempotent | grader.py:6 | upper-casing twice is upper-casing once |
| Text.ContainsStrip | grader.py:6-7 | stripping a reply does not change whether a word with non-space ends occurs in it, in both directions |
| Text.Split | main.py:60 | `split(";")` gives at least one part, and no part holds the separator |
| Text.JoinSplit | main.py:60 | joining the parts of a split with the separator gives back the text |
| Text.SplitJoin | main.py:60 | splitting a join of separator-free parts gives back the parts |
| Text.DigitsOfNat | main.py:218-219 | the decimal digits written for a count read back as that count |
| Text.ParseIntToString | main.py:177 | `int(str(i))` is `i` for every integer |
| Text.NatToStringLength | main.py:218-219 | a number below 10^k is written in at most k digits |
| Utils.NameRun | utils.py:25 | the run of `[A-Z0-9_]` at a position: every character in it is a name character and the next one is not |
| Utils.NoRefInsideRef | utils.py:25 | two `${NAME}` matches never overlap |
| Utils.ExpandFailsIffUnset | utils.py:23-28 | expansion raises exactly when some `${NAME}` reference names an unset or empty variable |
| Utils.ExpandLiteral | utils.py:24-28 | text holding no reference is copied as it stands, and expansion goes on after it |
| Utils.ExpandWithoutRefs | utils.py:23-28 | a text holding no reference expands to itself |
| Utils.ExpandOneRef | utils.py:24-27 | a reference is replaced by the variable's value and the text after it is expanded in turn |
| Utils.ToUsage | utils.py:58-59 | a missing usage count reads as 0 |
| Utils.Deltas | utils.py:55-56 | only non-empty deltas are collected, at most one per chunk |
| Utils.StreamTextAppend | utils.py:54-61 | the text of two streams in a row is the text of the first followed by the text of the second |
| Utils.StreamUsageLastWins | utils.py:57-59 | the usage of a stream is that of its last chunk carrying a report |
| Utils.StreamUsageWithoutReport | utils.py:52 | a stream without any usage report counts zero tokens |
| Utils.AccumulateStream | utils.py:51-62 | the chunk loop returns the joined deltas and the last usage report |
| Utils.BackoffMs | utils.py:66 | every backoff lies between 0.5 s and 8 s |
| Utils.BackoffSchedule | utils.py:66 | the backoff is 0.5·2^attempt seconds up to attempt 4 and 8 s from then on |
| Utils.Backoffs | utils.py:65-66 | the i-th sleep is the backoff of attempt i |
| Utils.FirstStreamed | utils.py:39-62 | the attempt that returns is the first one below `retries` that streams; every earlier one failed |
| Utils.FirstStreamedLooksBelowRetries | utils.py:39 | attempts numbered `retries` or more never matter |
| Utils.CallChatCompletion | utils.py:31-68 | the call succeeds exactly when some attempt below `retries` streams, and then returns that stream's text and usage after one backoff per failed attempt; otherwise it raises `RuntimeError` naming the retries and the last error, after sleeping between attempts but not after the last |
| Grader.NormalizeJudgeResult | grader.py:5-11 | the verdict is always CORRECT, INCORRECT or UNKNOWN; no text or an empty text gives UNKNOWN |
| Grader.VerdictOfReply | grader.py:5-11 | INCORRECT exactly when the upper-cased reply contains INCORRECT; CORRECT exactly when it contains CORRECT but not INCORRECT; UNKNOWN exactly when it contains neither |
| Grader.CorrectInsideIncorrect | grader.py:7-9 | a reply containing INCORRECT also contains CORRECT, so the first test needs its second half |
| Grader.VerdictIgnoresCase | grader.py:6 | replies that upper-case alike get the same verdict |
| Grader.VerdictIgnoresSurroundingSpace | grader.py:6 | whitespace around a reply does not change its verdict |
| Grader.WordMakesCorrect | grader.py:7-8 | a reply containing "correct" and no INCORRECT in any case is CORRECT |
| Grader.WordMakesIncorrect | grader.py:9-10 | a reply containing "incorrect" is INCORRECT |
| Grader.JudgeMaxTokens | grader.py:38 | the judge budget is the smaller of the judge's `max_tokens` and what is left of the context, but at least 1 when `max_tokens` is |
| Grader.JudgePromptEmbedsTexts | grader.py:29-36 | the judge prompt contains the question, the official answer and the candidate answer, and ends with the reply instruction |
| Grader.GradeAnswer | grader.py:14-50 | a grading that returns gives one of the three verdicts |
| Grader.GradeAnswerCall | grader.py:38-50 | when the prompt measures `n` tokens, grading is one judge call with the ceiling `min(max_tokens, max(1, context - n))`, which lies between 1 and `max_tokens` whenever that is positive; the reply is normalized, and its failure is raised |
| Records.EscapeChar | main.py:276 | each character is written as one to six characters |
| Records.EscapeIsPlainOrEscaped | main.py:276 | an escaped text holds no control character, so no line break |
| Records.UnescapeEscape | main.py:276 | reading an escaped text back gives the text |
| Records.EscapeInjective | main.py:276 | two texts with the same escaped form are equal |
| Records.Fields | main.py:91-99 | a record has its seven base keys, plus `skipped_reason` or `error` when it has one |
| Records.RecordObject | main.py:276 | the dictionary read back from a record line holds its `question_id` and `judge_result` and no `_meta_stats` |
| Records.EncodeRecordShape | main.py:276 | a record line holds no line break and strips to itself |
| Store.Overwrite | main.py:281 | writing at a position keeps the file's length, or extends it when the text runs past the end |
| Store.OverwriteAtEnd | main.py:276 | writing at the end appends |
| Store.OverwriteSameWidth | main.py:280-281 | writing a text of the same width over the start replaces exactly that text and keeps the rest |
| Store.ResultFile.constructor | main.py:253 | opening gives the file's content with the cursor at 0 |
| Store.ResultFile.Truncate | main.py:227 | mode "w" creates or empties the file |
| Store.ResultFile.Write | main.py:276 | a write overwrites at the cursor and moves the cursor past the text |
| Store.ResultFile.Seek | main.py:280 | seeking moves only the cursor |
| Store.ResultFile.SeekEnd | main.py:255 | `seek(0, 2)` moves the cursor to the end |
| Store.ResultFile.Tell | main.py:279 | `tell()` returns the cursor |
| Store.HundredthsNearest | main.py:214-217 | the accuracy shown is within half a hundredth of the exact percentage, with ties to the even neighbour; it is 0.00 with nothing counted and at most 100.00 |
| Store.AccuracyTextShape | main.py:217 | the accuracy text is at most seven characters: digits, a point and `%` |
| Store.PadRight | main.py:224 | padding keeps the text and adds only spaces, up to the width |
| Store.HeaderObject | main.py:215-221 | the statistics dictionary has `_meta_stats` and no `question_id` or `judge_result` |
| Store.HeaderJsonLength | main.py:222 | the header JSON is 79 characters plus its accuracy, timestamp and two counts |
| Store.HeaderJsonOneLine | main.py:222 | the header JSON holds no line break |
| Store.HeaderJsonFits | main.py:222-224 | with counts below 10^47 the header JSON fits in 200 characters |
| Store.PaddedShape | main.py:224 | a one-line object text padded to 200 characters stays on one line and strips back to itself |
| Store.HeaderShape | main.py:213-224 | while the counts are below 10^47 the header is exactly 201 characters: 200 on one line, then the break; the line strips back to the JSON text |
| Loaders.LoadEntryMeaning | main.py:36-53 | an entry without a name is skipped; a named one needs a non-blank `api_key` and then a non-blank `base_url`, and otherwise raises with the message for the missing key; a loaded model carries its name, stripped base URL, expanded key and `max_tokens` |
| Loaders.LoadModels | main.py:26-54 | the loader loop returns what the entry-by-entry fold returns, including the missing-file and invalid-list errors |
| Loaders.LoadedModelsWellNamed | main.py:46-47 | every loaded model is filed under its own non-blank name and has a base URL |
| Loaders.LoadFailsIffBadEntry | main.py:36-44 | loading fails exactly when some entry fails |
| Loaders.LoadFailsWithFirstError | main.py:36-44 | the error raised is the first failing entry's |
| Loaders.LoadedNames | main.py:37-46 | a name is loaded exactly when some entry carries it |
| Loaders.LastEntryWins | main.py:46 | of entries sharing a name, the last one is kept |
| Loaders.LoadedNameKept | main.py:46 | a loaded model is not replaced by entries with other names |
| Loaders.LoadRow | main.py:59-63 | a CSV row keeps its keys and every cell but the filenames |
| Loaders.LoadRowFilenames | main.py:60-61 | the filenames cell becomes its `;`-separated parts, which join back to the cell |
| Loaders.LoadQuestions | main.py:57-64 | one row per CSV row, in order |
| Loaders.DocumentSet | main.py:67-74 | at most one text per filename |
| Loaders.LoadDocumentSet | main.py:67-74 | the loop returns what the reference definition gives |
| Loaders.DocumentSetContents | main.py:70-73 | loading fails exactly when a read fails; otherwise the texts are exactly those of the files that exist |
| Tasks.CeilingFits | main.py:123-127 | a positive completion budget is at most `max_tokens` and fits in the context with the prompt; the budget is not positive exactly when `max_tokens` is not positive or the prompt fills the context |
| Tasks.TaskBody | main.py:101-151 | what the `try` block returns names the question and is either a skip of the starting record or a graded answer with a verdict |
| Tasks.ProcessOneQuestion | main.py:77-154 | the record names its question; it is SKIPPED exactly with a skip reason, ERROR exactly with an error, and otherwise carries a verdict; skipped and failed records carry no answer and no tokens |
| Tasks.ErrorRecord | main.py:153-154 | the record is ERROR exactly when the body raised, and then it holds "Type: message" |
| Tasks.DocsOverBudget | main.py:112-114 | documents over the context budget give the `docs_tokens_sum` skip, and documents within it never give that skip |
| Tasks.SkipCallsNoModel | main.py:113-127 | a skipped question never reaches a model: the same record for any completer |
| Tasks.GradedRecord | main.py:112-151 | a graded record comes from documents within the budget and holds the answer and usage of a model call made with the ceiling `min(max_tokens, max(0, context - prompt))`, which is positive and fits the context with the prompt; its `judge_result` is the verdict `grade_answer` gives on that question, gold answer and answer |
| Tasks.PromptSkipReasonHolds | main.py:123-127 | for documents within the budget, the prompt skip happens exactly when the prompt fills the context or `max_tokens` is not positive; so a `max_tokens` of 0 or less skips every such question |
| Tasks.JoinWithEmbeds | main.py:116 | every part occurs in its join |
| Tasks.TaskPromptEmbeds | main.py:116-121 | the task prompt contains every document block and the question |
| Pipeline.FileLines | main.py:173 | the lines of a file hold no line break |
| Pipeline.JoinLinesAsJoin | main.py:229-230 | writing lines each followed by a break is joining them with breaks and a final empty part |
| Pipeline.FileLinesOfJoin | main.py:227-230 | reading back lines written one per line gives them, then an empty last part |
| Pipeline.StripIdempotent | main.py:197 | stripping a stripped line changes nothing |
| Pipeline.DoneIdsMeaning | main.py:170-175 | the scan raises exactly when a non-blank line does not parse; otherwise an id is done exactly when some non-blank line names it |
| Pipeline.ScanDoneIds | main.py:170-175 | the scan loop over the file gives what the reference definition gives, and nothing for a missing file |
| Pipeline.CountCorrect | main.py:207-208 | no more lines are counted correct than there are |
| Pipeline.CountCorrectAppend | main.py:207-208 | correct counts add up over consecutive lines |
| Pipeline.FoldKeepsWell | main.py:193-210 | the fold keeps only stripped, non-blank, parseable non-header lines, and its counts are their number and the number judged CORRECT |
| Pipeline.FoldKeepsRecords | main.py:196-205 | the lines kept are exactly the stripped record lines, in order |
| Pipeline.FoldExisting | main.py:193-210 | the fold loop over the file gives what the reference definition gives, and nothing for a missing file |
| Pipeline.ExistingCounts | main.py:188-210 | what is kept from the file as it was satisfies the fold's invariant |
| Pipeline.KeyedMeaning | main.py:177 | keying fails exactly when some id is not a number; otherwise each row keeps its place and gets its own key |
| Pipeline.SortSorted | main.py:177 | the sort orders the rows by key |
| Pipeline.SortPermutes | main.py:177 | the sort is a permutation of the rows |
| Pipeline.SortStable | main.py:177 | rows with equal keys keep their order |
| Pipeline.NotDoneMembers | main.py:178 | a row is pending exactly when its stripped id is not done |
| Pipeline.NotDoneSorted | main.py:178 | filtering keeps the order |
| Pipeline.TakePyMeaning | main.py:179-180 | the `num_tasks` slice is a prefix, of Python's length for positive, negative and oversized bounds |
| Pipeline.OpenMeaning | main.py:177-178 | the rows not done are sorted, keyed, drawn from the questions, and include every question not done |
| Pipeline.PendingMeaning | main.py:177-180 | choosing fails exactly when an id is not a number; the rows chosen are sorted, not done and a prefix of all rows not done, and without `num_tasks` they are all of them |
| Pipeline.RewriteFile | main.py:227-230 | the rewritten file is the header and the kept lines, with the cursor at the end |
| Pipeline.DrainStep | main.py:261-283 | handling one result keeps the cursor inside the file |
| Pipeline.DrainFrom | main.py:257-286 | handling any results keeps the cursor inside the file |
| Pipeline.Drain | main.py:253-286 | the drain loop leaves the file, cursor and counts of the reference definition |
| Pipeline.DrainCounts | main.py:261-273 | each result other than ERROR is counted once, a CORRECT one also as correct, and each ERROR as failed |
| Pipeline.DrainStepAppends | main.py:270-282 | one written result appends its line and replaces the header with the new counts' header |
| Pipeline.DrainLayout | main.py:275-283 | after the drain the file is the header for the final counts, the old body and the written lines, with the cursor at the end |
| Pipeline.LaidOutEmpty | main.py:232-233 | with nothing pending the file stays as rewritten |
| Pipeline.HeaderAtWidth | main.py:223-224 | every header below the count bound is 201 characters |
| Pipeline.ReorderEmpty | main.py:257 | nothing arrives when nothing was started |
| Pipeline.StartResults | main.py:188-230 | the fold over the old file and the rewrite: the file then holds the header for the kept counts, then the kept lines |
| Pipeline.AppendResults | main.py:253-288 | the drain leaves the header for the final counts, the kept lines, and one line per non-ERROR result in arrival order |
| Pipeline.RunLayout | main.py:253-283 | the drain over the rewritten file lays it out as header, kept lines and written lines |
| Pipeline.Run | main.py:157-290 | a model-loading, model-lookup, scan or sort error is raised with the file untouched; with nothing pending and no file, nothing is written; otherwise the run exits 0 and leaves the header for the final counts, the kept lines and the written results |
| Resume.RecordEncoding | main.py:174 | record lines are kept by the fold and read back as their record |
| Resume.WrittenMembers | main.py:261-268 | every result other than ERROR is written |
| Resume.WrittenOnly | main.py:261-268 | only results other than ERROR are written |
| Resume.IdsOfNone | main.py:175 | an id no written record has is not collected |
| Resume.ErrorsNotWritten | main.py:261-268 | an id all of whose results are ERROR is not among the written ids, whatever the arrival order |
| Resume.CorrectInBound | main.py:271-273 | no more results are correct than there are |
| Resume.WrittenBound | main.py:268-271 | no more results are written than arrived |
| Resume.LaidOutJoin | main.py:227-230 | the file is the header line, the kept lines and the written lines, one per line |
| Resume.FoldAppend | main.py:194-210 | folding two runs of lines in a row is folding the second from where the first left off |
| Resume.FoldKept | main.py:196-208 | kept lines are kept again in order and counted |
| Resume.FoldDrops | main.py:197-210 | a blank, unparseable or header line is dropped |
| Resume.CountEncoded | main.py:207-208 | written records count as correct exactly when judged CORRECT |
| Resume.RefoldLaidOut | main.py:193-210 | folding a laid-out file gives back its kept and written lines, with the counts its header states |
| Resume.DoneIdsAppend | main.py:173-175 | scanning two runs of lines in a row is scanning the second from where the first left off |
| Resume.DoneIdsKept | main.py:173-175 | kept lines never make the scan raise, and the scan adds to its starting set exactly the ids it finds from an empty one |
| Resume.DoneIdsEncoded | main.py:173-175 | the scan over written records adds exactly their ids |
| Resume.DoneIdsHeader | main.py:174 | the header line adds no id |
| Resume.HeaderLineReads | main.py:213-224 | every header below the count bound reads back as a statistics line |
| Resume.FinalHeaderReads | main.py:281 | the last header written is one line ending in its break, and it reads back as a statistics line |
| Resume.RefoldResultsFile | main.py:188-210 | a later run's fold over the file a run leaves keeps the kept and written lines, and counts exactly what its header states |
| Resume.RescanResultsFile | main.py:170-175 | a later run's scan of that file does not raise and finds exactly the ids of the kept lines and of the written records; an ERROR result adds no id |
| Resume.WrittenNotPendingAgain | main.py:170-180 | a question whose result was written is not chosen again when the run is repeated on the file it left |
| Resume.ErrorPendingAgain | main.py:261-268 | a question all of whose results were ERROR, and whose id no kept line holds, is missing from the repeated run's done set, and every row with its id is chosen again when no `num_tasks` limit applies |

## Left out

- Concurrency: the asyncio tasks, the semaphore and `as_completed` are not modelled. The order in which results arrive is the parameter `order`, which may be any reordering.
- The network is a function parameter. The model has the OpenAI client's stream, or one `Attempt` per retry. The 120 s timeout and `max_retries=0` are not modelled.
- The backoff sleeps are returned as a list of milliseconds, not slept.
- Parsed inputs are parameters: YAML parsing, CSV reading and JSON parsing are given, not modelled. `json.loads` is given through `ReadsBack` and nothing else.
- Tokenizer and file reads are given: tiktoken's counts and the files under the document root are parameters.
- The filesystem is modelled only as the results file. The directory `mkdir` and the `exists()` checks, beyond the file's presence flag, are not.
- `temperature` is kept as the text the YAML gave. Floats are not modelled. Loaders.LoadEntry therefore never raises where `float()` does at main.py:48: a `ValueError` or `TypeError` for a text that is not a number or for `temperature: null`. That error comes after the `api_key` and `base_url` checks and before the `RuntimeError` of `expand_env_vars` at main.py:50.
- The accuracy is rounded from the exact ratio. Binary floating point could differ in the last digit at some halfway cases.
- The clock is a function of the running total. `dt.datetime.now()` is not modelled.
- Upper-casing is ASCII only. Python's `upper` on other letters (e.g. `ß`) is not modelled.
- Line splitting is on `\n` only. Universal newlines (`\r`, `\r\n`) are not modelled.
- `int()` accepts an optional sign and ASCII digits. Underscores and non-ASCII digits are not modelled. Text.ParseInt's error message quotes the literal as `'…'` instead of with `repr`, so it differs from Python's message for a literal holding `'` or `\`.
- `Utils.BackoffMs` assumes `2**attempt` stays an exact float. The `OverflowError` at attempt 1024 is not modelled.
- JSON lines that parse to something other than an object are not modelled. Every parsed line is a dictionary.
- `Loaders.RowText` renders a list cell as `['a', 'b']`. `repr`'s switch to double quotes for items holding `'` is not modelled.
- A CSV row's `None` key (surplus cells) is not modelled.
- `Store.ResultFile.Seek` requires a position inside the file. Seeking past the end is not modelled.
- Pipeline.Run: its layout promise is conditional on fewer than 10^47 results. Past that the header can outgrow 200 characters and overwrite the first record line.
- Pipeline.Drain: the drain is proved for any encoder and any fixed-width header. `Run` instantiates it with the record encoder and `make_header`.
- Resume.WrittenNotPendingAgain: it and the other resume lemmas assume `ReadsBack(parse)`, i.e. that `json.loads` inverts `json.dumps` on the lines written. They also assume the file is not changed between runs.
- `tqdm`, `main`'s argument parsing and exit code 130, the naming of the default save path, and `BASE_DIR` paths are not modelled. They are presentation or configuration.
