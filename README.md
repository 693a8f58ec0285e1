# DRai support-chat rubric pipeline, modelled in Dafny

This project models the batch evaluation pipeline of `DRai/DRai.py`. It reads a
table of customer-support chats and picks the column that holds the dialogue
text. It sends the chats to a remote language model ten at a time, with a
prompt that lists an eight-item rubric. It splits the reply into one JSON
fragment per chat and turns each fragment into a judgment: a dictionary from
criterion to mark. It then appends the slice, with one added column per
criterion, to the output CSV file.

The modules follow the program's structure:

- `Wrappers` (`wrappers.dfy`): the `Option` datatype.
- `Text` (`text.dfy`): the Python string operations the code uses. These
  are `strip`, `startswith`, `in` on strings, `split`, `join` and
  `splitlines`. `strip`, `split` and `splitlines` carry proved contracts;
  `startswith`, `in` and `join` are plain definitions. `split` is defined
  with a first-occurrence search, `FindFrom`, which the code does not call.
- `Json` (`json.dfy`): the values `json.loads` can return, and its outcome (a
  decode error or a value). The decoder itself is a parameter.
- `Rubric` (`rubric.dfy`): `EVALUATION_CRITERIA`, the all-empty judgment and
  the filling of missing criteria.
- `Parse` (`parse.dfy`): `parse_response`. It covers fence removal, decoding,
  and the criterion loop, including how that loop behaves on JSON that is not
  an object.
- `Prompt` (`prompt.dfy`): the request payload of `process_batch`.
- `Batch` (`batch.dfy`): `process_batch`. It covers the call, the split on the
  delimiter, the comprehension over the fragments, count reconciliation and
  the all-empty fallback.
- `Pipeline` (`pipeline.dfy`): `select_text_column` and `main`. It covers the
  slices of ten rows, the merge of judgments into the slice table, the
  append-only output file, the progress lines and how the run ends.

Each loop that updates state step by step is a `method` with a `for` or
`while` loop, proved equal to a specification function. Those loops are:

- the criterion loop: `Parse.FillCriteriaLoop`
- the comprehension over the parts: `Batch.ParseFragments`
- the column loop: `Pipeline.AddCriterionColumns`
- the slice loop: `Pipeline.RunSlices`

The reassignments of `lines` in fence removal have no loop; they are the
method `Parse.RemoveFence`, proved equal to `Parse.StripFence`. The lemmas
state what those functions mean. The loop over the preferred
names in `select_text_column` returns at its first match, so it is the
recursive function `Pipeline.FirstPresent`. The comprehensions of lines 54,
108, 134 and 138 build a value and nothing else, so they are functions:
`Rubric.EmptyJudgment`, `Rubric.EmptyJudgments`, `Pipeline.Messages` and
`Pipeline.CriterionColumn`.

Some behaviours of `DRai.py` are easy to miss:

- **Fences.** Fence removal happens inside `parse_response`. That function
  runs once per part, after `process_batch` has split the reply on the
  delimiter (lines 96-97).
- **Decode errors.** A fragment that is not valid JSON gets the all-empty
  judgment at its own position (`Parse.ParseSpec`).
- **Non-object JSON.** A fragment that decodes to JSON other than an object
  is different. The criterion loop's `item in result` or `result[item] = ""`
  raises a `TypeError`. That error leaves the comprehension and is caught by
  `process_batch`'s `except`, so the whole batch becomes all-empty
  (`Batch.RaisingFragmentEmptiesBatch`).
- **Lists and strings that pass.** There is one exception to that. A JSON
  list, or a string, passes every `in` test when it contains all eight
  criteria, as elements or as substrings, and is then returned unchanged.
  `main`'s `res.get` then raises an `AttributeError` that nothing catches,
  and the run stops. The files written so far stay in place
  (`Pipeline.RunStopped`, outcome `NonDictJudgment`).
- **Different replies.** Every call may be answered differently. The
  completion is therefore a function of the slice's start row
  (`complete: nat -> Completion`).

## Model

| member | source | states |
|---|---|---|
| Text.Strip | DRai/DRai.py:27 | `strip()` result is the stretch of the input between two all-whitespace ends: it is empty exactly when the input is all whitespace, and otherwise it has no whitespace at either end |
| Text.StripTrimmed | DRai/DRai.py:97 | text with no whitespace at either end is unchanged by `strip()` (so `parse_response`'s own `strip` of an already stripped part changes nothing) |
| Text.StripIdempotent | DRai/DRai.py:97 | stripping twice equals stripping once |
| Text.FindFrom | DRai/DRai.py:96 | finds the first occurrence of the separator at or after a position, or reports there is none |
| Text.Split | DRai/DRai.py:96 | `str.split(d)` gives at least one piece, the pieces joined with `d` give the input back, no piece contains `d`, and every cut is at the first occurrence of `d` after the previous cut |
| Text.SplitJoin | DRai/DRai.py:87-96 | splitting a join on the same separator gives back the pieces, when no piece before the last runs into the separator and the last does not contain it |
| Text.FirstBreak | DRai/DRai.py:34 | the first line boundary at or after a position, with no boundary before it |
| Text.SplitLines | DRai/DRai.py:34 | `splitlines()` is empty exactly for empty text, its first line is the text up to the first boundary, and no line contains a boundary |
| Text.SplitLinesAfterLine | DRai/DRai.py:34 | a line without a boundary followed by `"\n"` is the first line, and the lines of the rest follow it |
| Text.SplitLinesJoin | DRai/DRai.py:34-39 | lines without boundaries, the last not empty, joined with `"\n"` (with or without one more `"\n"` at the end) split back into exactly those lines |
| Text.StartsWith | DRai/DRai.py:33-35 | the definition of `startswith`: the text begins with the prefix |
| Text.Contains | DRai/DRai.py:47 | the definition of `in` on strings: the text holds the other string at some position |
| Text.Join | DRai/DRai.py:39 | the definition of `sep.join(xs)`: the pieces in order with the separator between adjacent ones (also used at line 87) |
| Rubric.EmptyJudgment | DRai/DRai.py:54 | `{item: "" for item in EVALUATION_CRITERIA}` is a dict whose keys are exactly the criteria, each mapped to `""` |
| Rubric.EmptyJudgments | DRai/DRai.py:108 | one all-empty judgment per message, and exactly as many as messages |
| Rubric.FillMissing | DRai/DRai.py:46-48 | after filling, every criterion is a key, every parsed key keeps its value, absent criteria get `""`, nothing else is added, and a complete dict is unchanged |
| Rubric.FillWithStep | DRai/DRai.py:47-48 | one turn of the filling loop adds `""` for the criterion only when it is not yet a key |
| Parse.Membership | DRai/DRai.py:47 | `item in result` is defined (key, element or substring test) exactly for dicts, lists and strings, and raises for other JSON values |
| Parse.FenceOpensFirstLine | DRai/DRai.py:33-35 | text that starts with a fence has a first line that starts with the fence, so the `lines[0]` test always holds |
| Parse.StripFenceDropsFenceLines | DRai/DRai.py:33-39 | fence removal leaves unfenced text alone, always drops the first line, and drops the last line exactly when it is a bare closing fence |
| Parse.StripFence | DRai/DRai.py:33-39 | the fence removal as a function: text not starting with a fence is unchanged; otherwise its lines, without the first when that starts with a fence and without the last when that is a bare fence, joined with `"\n"` and stripped |
| Parse.Cleaned | DRai/DRai.py:27-39 | the text `json.loads` receives: the stripped reply part after fence removal |
| Parse.FillCriteria | DRai/DRai.py:46-50 | the criterion loop on a decoded value raises exactly for a non-dict that fails an `in` test; a dict keeps its keys and values, gains `""` for absent criteria and nothing else; a list or string that passes is returned unchanged; every result is complete |
| Parse.ParseSpec | DRai/DRai.py:25-54 | a decode error gives the all-empty judgment, a decoded value goes through the criterion loop, and every returned judgment is complete |
| Parse.FillCriteriaLoop | DRai/DRai.py:46-50 | the loop as written computes `FillCriteria` of the decoded value |
| Parse.RemoveFence | DRai/DRai.py:33-39 | the in-place line-list updates compute the fence removal |
| Parse.ParseResponse | DRai/DRai.py:25-54 | `parse_response` as written (strip, fence removal, decode, criterion loop) computes `ParseSpec` |
| Prompt.RenderThen | DRai/DRai.py:66-88 | rendering the preamble template before more text is the preamble followed by that text |
| Prompt.Preamble | DRai/DRai.py:66-85 | the prompt text, with the rubric lines and the delimiter in place |
| Prompt.BatchText | DRai/DRai.py:87 | the messages joined with the delimiter on a line of its own |
| Prompt.Payload | DRai/DRai.py:88 | the content sent: the prompt, a blank line, then the batch text |
| Prompt.PayloadParts | DRai/DRai.py:88 | the payload is the preamble, a blank line, then the batch text |
| Prompt.PayloadCarriesMessages | DRai/DRai.py:66-88 | the payload starts with the preamble and a blank line, and what follows splits back on `"\n-----\n"` into exactly the messages, when no message before the last runs into the separator and the last does not contain it |
| Batch.ResponseParserJudgesCompletely | DRai/DRai.py:25-54 | every judgment `parse_response` returns has every criterion |
| Batch.NonBlank | DRai/DRai.py:97 | the kept parts are stripped and non-blank, no more than the parts, and none exactly when every part is blank |
| Batch.NonBlankCount | DRai/DRai.py:97 | one fragment per part that is not blank after stripping |
| Batch.NonBlankAppend | DRai/DRai.py:97 | dropping blank parts distributes over concatenation |
| Batch.NonBlankSnoc | DRai/DRai.py:97 | one more part adds its stripped text to the kept parts exactly when that text is not blank |
| Batch.NonBlankOfTrimmed | DRai/DRai.py:97 | already stripped non-blank parts pass through unchanged |
| Batch.StripAll | DRai/DRai.py:97 | every part stripped, in order |
| Batch.NonBlankOfNonBlank | DRai/DRai.py:97 | when no part is blank, the kept fragments are all the parts, each stripped |
| Batch.Fragments | DRai/DRai.py:96-97 | the parts of the reply split on the delimiter, stripped, with the blank ones dropped |
| Batch.ParseEach | DRai/DRai.py:97 | `parse_response` applied to each fragment in order |
| Batch.Collect | DRai/DRai.py:97 | the comprehension yields a list exactly when no fragment raises, and then the judgments in order, one per fragment |
| Batch.Reconcile | DRai/DRai.py:100-103 | exactly `n` judgments: the first `n` when there are more, otherwise all of them followed by all-empty judgments |
| Batch.Judgments | DRai/DRai.py:90-108 | always one judgment per message; all-empty on a failed call or an empty delimiter; complete whenever the parser judges completely |
| Batch.ParseNext | DRai/DRai.py:97 | one turn of the comprehension skips a blank part, or adds its judgment, or raises for the whole list |
| Batch.ParseFragments | DRai/DRai.py:97 | the comprehension as a loop computes `Collect` of the parsed fragments |
| Batch.ProcessBatch | DRai/DRai.py:64-108 | `process_batch` as written (payload, call, split, comprehension, truncate or extend, `except`) computes `ProcessBatchSpec` |
| Batch.ProcessBatchSpec | DRai/DRai.py:64-108 | the value of `process_batch`: the judgments of the reply to the payload, with `parse_response` as the parser |
| Batch.FragmentsOfJoin | DRai/DRai.py:96-97 | a reply made of non-blank pieces joined by the delimiter gives back exactly those pieces, each stripped, so whitespace around the delimiter (the delimiter on a line of its own) changes nothing; this holds when no piece before the last runs into the delimiter and the last does not contain it |
| Batch.WellFormedReply | DRai/DRai.py:96-105 | for a well-formed reply whose stripped pieces all parse, message `k` gets piece `k`'s judgment; messages beyond the pieces get all-empty judgments; extra pieces are dropped |
| Batch.JudgmentsOfFragments | DRai/DRai.py:97-105 | when every fragment of a reply parses, message `k` gets fragment `k`'s judgment while there are fragments, and an all-empty judgment after them |
| Batch.RaisingFragmentEmptiesBatch | DRai/DRai.py:97-108 | one fragment raising in `parse_response` makes every judgment of the batch all-empty |
| Batch.NonObjectFragmentEmptiesBatch | DRai/DRai.py:43-108 | a fragment that decodes to non-object JSON failing an `in` test makes every judgment of the batch all-empty |
| Pipeline.FirstPresent | DRai/DRai.py:58-61 | the position of the first preferred name that is a column, with no earlier preferred name a column, or none at all |
| Pipeline.SelectTextColumn | DRai/DRai.py:56-62 | the first of `message`, `conversation`, `chat`, `text` that is a column, otherwise the first column; no column only for a table without columns; always a column of the table |
| Pipeline.BatchStarts | DRai/DRai.py:131 | every start of `range(start, total, 10)` lies in `[start, total)` |
| Pipeline.BatchStartsAt | DRai/DRai.py:131 | the `k`-th start is `start + 10k`, and their number is the ceiling of the remaining rows over ten |
| Pipeline.StartsFirst | DRai/DRai.py:131 | there are no slices exactly for an empty table, and otherwise the first starts at row 0 |
| Pipeline.StartsNext | DRai/DRai.py:131 | slice `k + 1` exists exactly when slice `k`'s start plus ten is below the total, and then starts there |
| Pipeline.SlicesPartition | DRai/DRai.py:129-132 | the slices partition the rows: ⌈total/10⌉ slices, each non-empty, each ending where the next starts, all but the last exactly ten rows, the last ending at the total |
| Pipeline.StartsChain | DRai/DRai.py:131-132 | slices chain from row 0 to the total, each starting at the previous slice's `end_idx` |
| Pipeline.BatchEnd | DRai/DRai.py:132 | `end_idx = min(start_idx + batch_size, total)` |
| Pipeline.IndexOf | DRai/DRai.py:134 | the first position of a column name, the lookup behind `batch[text_col]` here and `batch_df[item]` at line 138 |
| Pipeline.SetColumn | DRai/DRai.py:138 | assigning a column keeps the table rectangular and the row count; an existing name keeps the columns, a new one is appended last |
| Pipeline.CriterionColumn | DRai/DRai.py:138 | `[res.get(item, "") ...]` raises exactly when some judgment is not a dict, and otherwise gives judgment `k`'s value (or `""`) in row `k` |
| Pipeline.Get | DRai/DRai.py:138 | `res.get(item, "")` on a dict: the value under the key, or `""` when the key is absent |
| Pipeline.AddNames | DRai/DRai.py:137-138 | adding column names keeps the original columns as a prefix, appends only the given names, and leaves every given name present (the order of the appended names is `AddNamesOrder`) |
| Pipeline.AddNamesShape | DRai/DRai.py:137-138 | for columns without repeats, adding names repeats no name: a name already present is not appended again |
| Pipeline.NewNames | DRai/DRai.py:137-138 | the names that are new, read left to right: each one not already present and not seen before, once, in order |
| Pipeline.AddNamesOne | DRai/DRai.py:138 | one assignment appends the name last unless it is already a column |
| Pipeline.AddNamesAppend | DRai/DRai.py:137-138 | assigning two lists of names is assigning the first, then the second |
| Pipeline.AddNamesOrder | DRai/DRai.py:137-140 | the columns are exactly the original ones followed by the new names in assignment order, which is the order of the written header |
| Pipeline.AddCriteria | DRai/DRai.py:137-138 | the criterion loop, when it does not raise, keeps the table rectangular and the row count, with the criteria added to the columns |
| Pipeline.AddCriteriaRaises | DRai/DRai.py:137-138 | the criterion loop raises exactly when some judgment is not a dict |
| Pipeline.SetColumnCells | DRai/DRai.py:138 | assigning a column changes the cells under that name only |
| Pipeline.SetColumnMarks | DRai/DRai.py:138 | one more column assignment keeps the earlier criterion cells and fills the new one from the judgments |
| Pipeline.AddCriteriaMarks | DRai/DRai.py:137-138 | when every judgment is a dict, the loop does not raise and each criterion column holds the judgments' values row by row |
| Pipeline.AddCriteriaKeeps | DRai/DRai.py:137-138 | columns that are not criteria keep their cells |
| Pipeline.AddCriterionColumns | DRai/DRai.py:137-138 | the criterion loop as written computes `AddCriteria` |
| Pipeline.Messages | DRai/DRai.py:134 | one message per row of the slice, the stripped text-column cell |
| Pipeline.MergedCells | DRai/DRai.py:133-138 | `batch_df` raises exactly when some judgment is not a dict; otherwise it has the input's columns first, then the missing criteria, criterion cells from the judgments and all other cells from the input |
| Pipeline.MergedRange | DRai/DRai.py:133-138 | the same for the rows `start` to `end`: row `i` of the slice table is input row `start + i` with the criteria filled in |
| Pipeline.SliceJudgments | DRai/DRai.py:132-135 | `process_batch` gives a slice exactly one judgment per row |
| Pipeline.SliceJudgmentsComplete | DRai/DRai.py:135-138 | every dict judgment of a slice has every criterion, so `res.get` never falls back on its default |
| Pipeline.Records | DRai/DRai.py:140-142 | one output line per row, in order |
| Pipeline.RecordsAppend | DRai/DRai.py:142 | appending rows appends their lines |
| Pipeline.Written | DRai/DRai.py:139-142 | what one `to_csv` call writes: the header only for the slice at row 0, then one line per row |
| Pipeline.Step | DRai/DRai.py:132-143 | one pass of the slice loop: a stopped run stays stopped; a slice whose table cannot be built stops the run; otherwise its lines are written and its `end_idx` printed |
| Pipeline.Loop | DRai/DRai.py:131-144 | the slice loop as a function: one `Step` per slice start, in order, from an empty file |
| Pipeline.LoopStep | DRai/DRai.py:131-144 | the loop over `k + 1` slices is one more pass after the loop over `k` |
| Pipeline.StoppedStays | DRai/DRai.py:131-144 | once the loop has stopped, later slices change nothing |
| Pipeline.LoopPrinted | DRai/DRai.py:143 | a loop that runs to the end prints one progress line per slice, giving that slice's `end_idx` |
| Pipeline.LoopFile | DRai/DRai.py:139-142 | a loop that runs to the end writes the header once, from the first slice, then every slice's rows in order |
| Pipeline.AllRowsLength | DRai/DRai.py:131-142 | contiguous slices from row 0 have as many rows together as the last one's end |
| Pipeline.AllRowsSlice | DRai/DRai.py:131-142 | slice `k`'s rows sit in the written rows from its start on |
| Pipeline.AllRowsAt | DRai/DRai.py:131-142 | for contiguous slices, the written rows from each slice's start are that slice's rows, and they end with the last slice |
| Pipeline.LoopStopped | DRai/DRai.py:131-144 | a stopped loop stopped at the first slice whose table could not be built, with the file and progress of the slices before it |
| Pipeline.LoopPrefixRunning | DRai/DRai.py:131-144 | a loop still running after `m` slices built every one of them |
| Pipeline.SliceOutputs | DRai/DRai.py:131-138 | one slice table (or raise) per slice |
| Pipeline.SliceOutput | DRai/DRai.py:133-138 | one loop body up to the merge: the slice, its messages, `process_batch`, then the criterion columns, or nothing when `res.get` raises |
| Pipeline.InputTableShaped | DRai/DRai.py:120 | the table read from the input has one cell per column in every row |
| Pipeline.ProcessSlice | DRai/DRai.py:132-138 | one loop body up to the merge (slice, messages, `process_batch`, criterion loop) computes `SliceOutput` |
| Pipeline.SliceOutputsAt | DRai/DRai.py:131-138 | the output of slice `k` is the one for its start row |
| Pipeline.LoopAdvance | DRai/DRai.py:131-144 | one more pass of a running loop either keeps it running over `k + 1` slices or stops it for good |
| Pipeline.Pass | DRai/DRai.py:132-143 | one loop body as written appends the slice (with the header only for row 0) and prints its end, or stops |
| Pipeline.RunSlices | DRai/DRai.py:129-144 | the `for start_idx` loop as written computes `Loop` over every slice |
| Pipeline.Run | DRai/DRai.py:120-146 | `main` after reading the table computes `RunSpec`: a missing key or a table without columns stop it before any output |
| Pipeline.RunSpec | DRai/DRai.py:120-146 | `main` after reading the table: a missing key or a table without columns stop it before any output; otherwise the slice loop from row 0 |
| Pipeline.TextColumn | DRai/DRai.py:126 | the position of the chosen text column |
| Pipeline.SliceRectangular | DRai/DRai.py:133 | `df.iloc[start:end]` keeps one cell per column |
| Pipeline.SliceOutputShape | DRai/DRai.py:133-138 | a slice table has the slice's rows and the input columns with the criteria added |
| Pipeline.LoopCompleted | DRai/DRai.py:129-144 | a loop run to the end built every slice, printed each slice's end, and wrote the header then every slice's rows in order (nothing for no slices) |
| Pipeline.RunCompleted | DRai/DRai.py:121-146 | a completed run had a key and columns, built every slice, printed each end, and wrote nothing for an empty table, otherwise the header with the criteria added then every slice's rows |
| Pipeline.RunSpecLoop | DRai/DRai.py:121-144 | with a key and columns, `main` runs the loop over every slice from row 0 and reports how it ended |
| Pipeline.SliceOutputRaises | DRai/DRai.py:138 | a slice's table cannot be built exactly when one of its judgments is not a dict |
| Pipeline.LoopHalted | DRai/DRai.py:129-144 | a stopped loop printed each earlier slice's end and wrote nothing or the header then the earlier slices' rows |
| Pipeline.RunStopped | DRai/DRai.py:129-144 | a run stopped by `res.get` had a key and columns, stopped at the first slice holding a non-dict judgment, and left the progress and file of the earlier slices |
| Pipeline.SlicedRows | DRai/DRai.py:129-133 | slice tables of the slices' sizes put end to end have `total` rows, slice `k`'s rows from its start to its end |
| Pipeline.CompletedRows | DRai/DRai.py:129-142 | a run that built every slice writes exactly as many rows as the input has, each slice's rows at its own positions |

## Left out

- `print` calls: the raw reply, decode errors, API errors, the chosen column and the final message (lines 30, 52-53, 94, 107, 127, 146) are left out. The progress line of line 143 is modelled as its `end_idx` value.
- `time.sleep(1)` (line 144): it has no effect on the results.
- The argument check and `sys.exit` (lines 111-113) and the input path: the model starts from the table already read.
- `os.remove` of an old output file (lines 117-118): the output file is modelled as a list of lines that starts empty, which is what the removal and the first write in `w` mode give.
- `load_dotenv` and `os.getenv` (lines 11, 121): the key is a boolean `hasApiKey`. An empty key counts as missing, as `not gemini_api_key` does.
- `genai.Client`, the model name and the network: the call is a parameter `complete(start)(payload)`. Its `Failure` stands for any exception from the call, and for a reply whose `.text` is `None`.
- `json.loads` is a parameter (`Json.Decoder`). JSON numbers keep their literal text, so no floating point is modelled. Exceptions other than `JSONDecodeError` that decoding could raise are not modelled.
- `pd.read_csv`: the table arrives as column names and rows of text cells. Type inference and `str(d)` of non-text cells (numbers, `NaN` as `"nan"`) are not modelled.
- CSV formatting: quoting, separators and the UTF-8 byte-order mark of `encoding="utf-8-sig"`. Each written line is `Header(names)` or `Record(cells)`.
- Pipeline.MergedCells: requires distinct column names, which `pd.read_csv` produces by renaming duplicates. Duplicate names from other table sources are not covered.
- Pipeline.MergedRange, Pipeline.AddCriteriaMarks, Pipeline.AddCriteriaKeeps: the same distinct-column precondition, for the same reason.
- Text.SplitLines: its contract fixes the first line, and `Text.SplitLinesJoin` fixes every line of text whose boundaries are all `"\n"`. For text with other boundaries (`"\r\n"`, `"\r"`, `"\x0b"` and the rest), the lines after the first are fixed only by the recursive definition.
- Python dict key order: judgments are maps, so the order of keys inside a judgment is not modelled. Output columns follow the criteria order (`Pipeline.AddNamesOrder`), which does not depend on it.
- The remote model's behaviour: no property of its replies is assumed. The lemmas take any reply.
- The other files of the repository (the PDF summariser, the data agent, the flowchart scripts, the web front ends): they are not part of this model.
