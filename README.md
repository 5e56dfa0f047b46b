# Forecast-run alignment and lag features, in Dafny

This project models `ProcessRawData` in `Weather_Analysis/process_raw_data.py`. That function turns four models' degree-day snapshot files into one feature table. The models are ecmwf, ecmwf-eps, gfs-ens-bc and cmc-ens. Each file is named `<model>.<YYYYMMDD>.<HH>.<metric>.csv`.

The function works in five stages:

1. It parses the run key and issue datetime of each file from its name.
2. It sorts each model's list by run and trims its first entries: 3 for ecmwf, 2 for each of the others.
3. It aligns the four lists with two passes of set filtering.
4. It runs six feature loops over the aligned lists. Each step compares one run's lead-day series with a reference run's series, over a window of lead days. A step whose index leaves a series is caught as `IndexError`, and its number is recorded in the shared `passed_rows` list.
5. It adds the `noon` flag to the errors frame, joins the six frames column-wise and fills the missing cells with 0.

The modules follow those stages:

| module | file | what it holds |
|---|---|---|
| `Wrappers` | `wrappers.dfy` | `Option` |
| `FileNames` | `file_names.dfy` | `str.split`, `extract_date_time`, `strptime('%Y%m%d')`, the hour field, `get_date` |
| `Chronology` | `chronology.dfy` | the order on run keys, and why it is the order of issue datetimes |
| `Snapshots` | `snapshots.dfy` | a file and its body, the lead-day filter, the series |
| `Catalog` | `catalog.dfy` | sorting by run and the prefix trim |
| `Alignment` | `alignment.dfy` | the filtering pass, `AlignRuns` (the `for _ in range(2)` loop), and what two passes achieve |
| `Features` | `features.dfy` | the day-rollover offset, the windowed difference and its inner `for day` loop, the day-8 difference |
| `Derivation` | `derivation.dfy` | one step of each of the six loops, the outer loop `DeriveGroup`, the rows and skips it records |
| `Assembly` | `assembly.dfy` | `noon`, `pd.concat(axis=1)` and `fillna(0)` over frames |
| `Pipeline` | `pipeline.dfy` | `ProcessRawData` as a whole, and what the final table holds |

The loops are methods proved against specification functions:
- `AlignRuns` equals the restriction of every list to the four-way intersection of run keys.
- `DayChanges` equals `WindowDiff`.
- `RunStep` equals `Step`.
- `DeriveGroup` equals `Rows`, and its skips equal `Skips`.
- `ProcessRawData` ends in one of two ways, as its `Outcome`. It raises `AttributeError` at line 245 when the errors frame has no row. Otherwise it writes `MasterTable` with the `PassedRows` of the six loops.

The properties of those functions are proved as lemmas. Values are `real`. A table is a map from issue datetime to a map from column to value. Neither the row order nor the column order of the pandas frame is kept.

Four behaviours of the code are worth stating outright:
- **Alignment is exactly two passes.** The `for _ in range(2)` loop at lines 48-69 runs two filtering passes, not a loop to a fixed point.
  - `Alignment.OnePassIsNotEnough` shows that a single pass can leave gfs and cmc runs that eps lacks.
  - `Alignment.TwoPassesAlign` proves that two passes always give exactly the four-way intersection.
  - `Alignment.AlignedIsFixpoint` proves that a third pass changes nothing.
- **No common runs is not reported as such.** Nothing checks whether the alignment is empty. With fewer than two aligned runs no loop body runs, the errors frame stays without rows, and line 245 raises `AttributeError`. The same error is raised whenever the errors loop appends no row: with exactly two aligned runs its range is empty, and it can also skip every step.
- **Which runs set the offset.** The gfs and ecmwf loops take `prev_date` from eps file `i-1`, not from their own model's previous run. `Derivation.CrossModelOffsets` proves the two agree on aligned lists. The errors loop subtracts eps runs `i-1` and `i-2`, but takes its offset and its row key from runs `i` and `i-1`. This is modelled as written:
  - `Derivation.ErrorsRepeatRevision` states when an errors row is the revision row of the previous step.
  - `Derivation.ErrorsOffsetMismatch` gives three runs where the two offsets differ and the values differ.
- **Column labels.** The ecmwf columns are labelled `ecmwf_diff_8` and `ecmwf_diff_9`, although they hold lead days 9 and 10 (indices 8 and 9). The other groups are labelled by lead day. The model keeps the code's labels (`Derivation.FirstLabel`).

## Model

| member | source | states |
|---|---|---|
| FileNames.Split | Weather_Analysis/process_raw_data.py:16 | `split('.')` yields at least one piece, and no piece contains the separator |
| FileNames.JoinSplit | Weather_Analysis/process_raw_data.py:16 | joining the pieces of a split with the separator gives back the string |
| FileNames.SplitCount | Weather_Analysis/process_raw_data.py:16 | `split('.')` yields one more piece than the string has dots |
| FileNames.SplitJoin | Weather_Analysis/process_raw_data.py:16 | splitting a join of separator-free pieces gives back the pieces |
| FileNames.ExtractDateTime | Weather_Analysis/process_raw_data.py:10-19 | a key exists exactly when the name holds at least two dots (three fields), and neither key field holds a dot |
| FileNames.ExtractDateTimeOfName | Weather_Analysis/process_raw_data.py:10-19 | the key of `<prefix>.<date>.<hour>.<metric>.csv` is exactly `(date, hour)` |
| FileNames.SameRunIff | Weather_Analysis/process_raw_data.py:10-19 | two snapshot names share a run key if and only if both their date and hour fields are equal |
| FileNames.ParseDate | Weather_Analysis/process_raw_data.py:31 | a parsed `%Y%m%d` date is a real calendar date: year 1 to 9999, month 1 to 12, day within the length of that month, leap years included |
| FileNames.ParseHour | Weather_Analysis/process_raw_data.py:32 | `time(int(h), 0)` succeeds only for an hour below 24 |
| FileNames.GetDate | Weather_Analysis/process_raw_data.py:21-34 | a datetime exists exactly when the name has a key whose date field and hour field both parse; its date is the parsed date field and its hour the parsed hour field |
| FileNames.ParseDateField | Weather_Analysis/process_raw_data.py:31 | every valid calendar date, written as an eight-digit field, parses back to itself |
| FileNames.DateFieldOfParse | Weather_Analysis/process_raw_data.py:31 | a date field that parses is the eight-digit writing of the date it parses to |
| FileNames.ParseHourField | Weather_Analysis/process_raw_data.py:32 | every hour below 24, written with two digits, parses back to itself |
| FileNames.HourFieldOfParse | Weather_Analysis/process_raw_data.py:32 | an hour field that parses is the zero-padded writing of its hour at the field's own width |
| FileNames.GetDateOfName | Weather_Analysis/process_raw_data.py:21-34 | the file of the run issued at a valid date and an hour below 24 dates back to exactly that datetime |
| FileNames.PadValue | Weather_Analysis/process_raw_data.py:31-32 | reading back a number written with enough digits gives the number |
| FileNames.PadOfDigits | Weather_Analysis/process_raw_data.py:31-32 | a digit string is its own value written at its own width |
| Chronology.StrLtTransitive | Weather_Analysis/process_raw_data.py:38 | the string order used by `sorted` is transitive |
| Chronology.StrLtTrichotomy | Weather_Analysis/process_raw_data.py:38 | the string order used by `sorted` is total |
| Chronology.KeyLtTransitive | Weather_Analysis/process_raw_data.py:38 | the tuple order on run keys is transitive |
| Chronology.KeyLtTrichotomy | Weather_Analysis/process_raw_data.py:38 | any two run keys are equal or ordered one way |
| Chronology.KeyLtAsymmetric | Weather_Analysis/process_raw_data.py:38 | the tuple order on run keys is asymmetric |
| Chronology.DigitsOrder | Weather_Analysis/process_raw_data.py:38 | for equal-length digit strings, string order is numeric order |
| Chronology.StrLtConcat | Weather_Analysis/process_raw_data.py:38 | comparing concatenations with equal-length heads compares the heads first, then the tails |
| Chronology.DateFieldOrder | Weather_Analysis/process_raw_data.py:31-38 | for two parseable date fields, string order is calendar order (year, then month, then day), and equal strings mean equal dates |
| Chronology.SameCalendarDateIff | Weather_Analysis/process_raw_data.py:28-33 | two parsed datetimes share a calendar date if and only if the names' date fields are equal |
| Chronology.KeyOrderIsChronological | Weather_Analysis/process_raw_data.py:28-38 | sorting by `(date, hour)` strings orders files by issue datetime; equal keys mean equal datetimes and conversely |
| Snapshots.StampOrder | Weather_Analysis/process_raw_data.py:38 | for admitted files, key order is issue-time order, and equal keys are equal datetimes |
| Snapshots.StampDateIff | Weather_Analysis/process_raw_data.py:83-86 | two admitted files' datetimes differ in date exactly when their date fields differ |
| Snapshots.AdmittedByKey | Weather_Analysis/process_raw_data.py:28-38 | whether a file dates without error depends on its run key alone |
| Snapshots.LeadDayRows | Weather_Analysis/process_raw_data.py:77 | the kept rows are exactly the body's rows with indicator at least 1, in their original order (a subsequence) |
| Snapshots.LeadDayCounts | Weather_Analysis/process_raw_data.py:77 | the filter keeps every copy of a row with indicator at least 1, and no copy of any other row |
| Snapshots.Series | Weather_Analysis/process_raw_data.py:77 | the series has no more values than the body has rows; for a body of lead days only, value k is the `Value` of row k |
| Snapshots.AllLeadDaysKept | Weather_Analysis/process_raw_data.py:77 | a body whose rows all have indicator at least 1 is kept whole |
| Snapshots.FilteredIndexIsLeadDay | Weather_Analysis/process_raw_data.py:71-72 | when indicators count up by one from at most 1, filtered position k is lead day k+1, so `iloc[8]` is the `_9` day |
| Snapshots.LeadDaysFrom | Weather_Analysis/process_raw_data.py:71-77 | when indicators count up by one from `start` at most 1, the kept rows are the raw rows from position `1-start` on |
| Snapshots.SeriesOfLeadDays | Weather_Analysis/process_raw_data.py:71-77 | in that case the series has `1-start` fewer values than the body has rows, and `.iloc[k]['Value']` is the value of raw row `k+1-start` |
| Catalog.Insert | Weather_Analysis/process_raw_data.py:38 | inserting adds exactly the element to the multiset of the list |
| Catalog.InsertSorted | Weather_Analysis/process_raw_data.py:38 | insertion into a sorted list keeps it sorted |
| Catalog.InsertStrictlySorted | Weather_Analysis/process_raw_data.py:38 | insertion of a new run into a strictly sorted list keeps it strictly sorted |
| Catalog.SortByRun | Weather_Analysis/process_raw_data.py:38 | `sorted(..., key=(date, hour))` gives a sorted permutation of the list, strictly sorted when its runs are distinct |
| Catalog.SortedDistinct | Weather_Analysis/process_raw_data.py:38 | each insertion step keeps distinct runs strictly sorted |
| Catalog.SortedTrimmed | Weather_Analysis/process_raw_data.py:38-47 | sort-then-`[n:]` is sorted, drops exactly n entries (or all when there are fewer), keeps a sub-multiset, and every dropped file is no later than every kept one |
| Catalog.TrimSplit | Weather_Analysis/process_raw_data.py:38 | the dropped prefix of a sorted list is no later than its kept suffix |
| Catalog.TrimmedAdmitted | Weather_Analysis/process_raw_data.py:38-47 | the trim keeps only admitted files |
| Alignment.KeepIn | Weather_Analysis/process_raw_data.py:52 | the filtering comprehension keeps exactly the files whose key is in the set, as a subsequence |
| Alignment.KeepInCounts | Weather_Analysis/process_raw_data.py:52 | the comprehension keeps every copy of a file whose key is in the set, and no copy of any other file |
| Alignment.KeepInAdmitted | Weather_Analysis/process_raw_data.py:52 | filtering an admitted list leaves an admitted list |
| Alignment.KeepInKeySet | Weather_Analysis/process_raw_data.py:49-52 | the keys of a filtered list are the list's keys intersected with the filter |
| Alignment.KeepInTwice | Weather_Analysis/process_raw_data.py:52-69 | filtering twice is filtering by the intersection of the two sets |
| Alignment.KeepInAll | Weather_Analysis/process_raw_data.py:63-69 | filtering by a superset of a list's keys changes nothing |
| Alignment.KeepInStrictlySorted | Weather_Analysis/process_raw_data.py:52 | filtering keeps a strictly sorted list strictly sorted |
| Alignment.KeepInOwnKeys | Weather_Analysis/process_raw_data.py:52 | two filters that agree on a list's own keys filter it the same way |
| Alignment.AlignPassOnce | Weather_Analysis/process_raw_data.py:49-69 | one pass filters ecmwf and eps by the four-way intersection, and gfs and cmc by the gfs, cmc and ecmwf intersection only |
| Alignment.PassEcmwfEps | Weather_Analysis/process_raw_data.py:49-54 | one pass leaves ecmwf and eps filtered by the four-way intersection |
| Alignment.PassEcmwf | Weather_Analysis/process_raw_data.py:48-61 | one pass leaves ecmwf filtered by the four-way intersection |
| Alignment.PassEps | Weather_Analysis/process_raw_data.py:48-63 | one pass leaves eps filtered by the four-way intersection |
| Alignment.PassGfsCmc | Weather_Analysis/process_raw_data.py:55-69 | one pass leaves gfs and cmc filtered by the gfs, cmc and ecmwf intersection |
| Alignment.PassMasterIsCommon | Weather_Analysis/process_raw_data.py:55-61 | the second `master_set` is the gfs, cmc and ecmwf intersection |
| Alignment.TwoPassesAlign | Weather_Analysis/process_raw_data.py:48-69 | after two passes every list is its trimmed list filtered by the four-way intersection of run keys |
| Alignment.PassGfs | Weather_Analysis/process_raw_data.py:48-65 | one pass leaves gfs filtered by the gfs, cmc and ecmwf intersection |
| Alignment.PassCmc | Weather_Analysis/process_raw_data.py:48-67 | one pass leaves cmc filtered by the gfs, cmc and ecmwf intersection |
| Alignment.OnePassIsNotEnough | Weather_Analysis/process_raw_data.py:48-69 | for any file present in ecmwf, gfs and cmc but with no ecmwf-eps list, a single pass leaves gfs and cmc with runs that eps lacks, and the second pass removes them |
| Alignment.AlignedIsFixpoint | Weather_Analysis/process_raw_data.py:48-69 | a third pass over the aligned lists changes nothing |
| Alignment.RestrictAllKeySets | Weather_Analysis/process_raw_data.py:48-69 | after alignment every list carries exactly the four-way intersection of run keys |
| Alignment.AlignRuns | Weather_Analysis/process_raw_data.py:48-69 | the `for _ in range(2)` loop restricts every list to the four-way intersection of run keys |
| Alignment.SameRunsSamePositions | Weather_Analysis/process_raw_data.py:48-69 | two strictly sorted lists with the same run keys (as aligned lists, indexed by one `i` at lines 142 and 176) hold the same key at every position |
| Alignment.SameHead | Weather_Analysis/process_raw_data.py:48-69 | two strictly sorted lists with the same run keys start with the same key |
| Alignment.AlignedRunsCoincide | Weather_Analysis/process_raw_data.py:48-69 | aligned lists are subsequences of the trimmed lists, have equal lengths, hold the same key at each position, are strictly sorted, and eps carries exactly the common runs |
| Alignment.AlignedByEps | Weather_Analysis/process_raw_data.py:48-82 | on lists aligned by key, every list dates without error once the eps list does, as each position carries one run key |
| Alignment.CommonRunsKept | Weather_Analysis/process_raw_data.py:48-69 | a run every trimmed list carries survives alignment in every list |
| Features.OffsetOfRuns | Weather_Analysis/process_raw_data.py:81-89 | the offset is 1 exactly when the two files' date fields differ, 0 exactly when they are equal, and never more than 1 |
| Features.WindowDiffPerDay | Weather_Analysis/process_raw_data.py:91-97 | a window is produced exactly when every day in it has both indices in range; the value for day `lo+k` is `cur[lo+k-offset] - ref[lo+k]` |
| Features.DayChanges | Weather_Analysis/process_raw_data.py:91-97 | the `for day in range(lo, hi)` loop returns the window, or nothing as soon as an index is out of range |
| Features.Day8Diff | Weather_Analysis/process_raw_data.py:207-210 | the day-8 error exists exactly when `cur[7]` and `prev[7+offset]` both exist |
| Features.Day8IsShiftedWindow | Weather_Analysis/process_raw_data.py:207-210 | the day-8 error is the one-day window at day `7+offset` with the roles of the index shift reversed |
| Derivation.Columns | Weather_Analysis/process_raw_data.py:71-72 | a group has its width's worth of distinct columns, and a column is one of them exactly when it is that group's feature with a suffix from its first label up to first label plus width |
| Derivation.Load | Weather_Analysis/process_raw_data.py:76-77 | a loaded run carries the parsed date and hour of the file's key fields, and a series no longer than the file body |
| Derivation.LoadList | Weather_Analysis/process_raw_data.py:75-79 | loading a list gives one run per file at its own position, and a strictly sorted list loads to runs in strictly increasing issue time |
| Derivation.StampsInRunOrder | Weather_Analysis/process_raw_data.py:38 | in a strictly sorted list of admitted files, an earlier file has an earlier issue datetime |
| Derivation.AlignedLoads | Weather_Analysis/process_raw_data.py:139-177 | on aligned lists, the runs at each position share an issue datetime across the four models, and eps runs are in strictly increasing issue time |
| Derivation.LoadedEpsStamp | Weather_Analysis/process_raw_data.py:81 | the issue datetime of a loaded eps run is that of one of the eps files |
| Derivation.StepOffset | Weather_Analysis/process_raw_data.py:81-89 | a step's offset is 0 or 1 |
| Derivation.StepOn | Weather_Analysis/process_raw_data.py:91-99 | an appended row is keyed by the step's datetime and has one value per column of its group |
| Derivation.Step | Weather_Analysis/process_raw_data.py:75-243 | a row is keyed by the datetime of its row run and has one value per column |
| Derivation.RunStep | Weather_Analysis/process_raw_data.py:76-99 | one loop iteration yields exactly the step's outcome |
| Derivation.WindowRule | Weather_Analysis/process_raw_data.py:91-97 | a windowed step appends a row exactly when every day of the window is in range, with value `cur[8+k-offset] - ref[8+k]` |
| Derivation.EcmwfProbeSubsumed | Weather_Analysis/process_raw_data.py:109-129 | the early `iloc[8]`/`iloc[9]` probe skips no step that the window would have kept |
| Derivation.WindowStepRule | Weather_Analysis/process_raw_data.py:91-168 | the revision, ecmwf, gfs, cmc and errors steps follow the window rule on their current and reference runs |
| Derivation.Day8StepRule | Weather_Analysis/process_raw_data.py:192-215 | a day-8 step appends exactly when `cur[7]` and `prev[7+offset]` exist, with value `[cur[7] - prev[7+offset]]` |
| Derivation.CmcStepRule | Weather_Analysis/process_raw_data.py:173-188 | a cmc step has no offset; it appends exactly when both series reach index 13, with value `cmc[8+k] - gfs[8+k]` |
| Derivation.CrossModelOffsets | Weather_Analysis/process_raw_data.py:117-124 | on aligned lists, the ecmwf and gfs offsets (taken against eps `i-1`) equal the offsets between their own runs `i` and `i-1`, and the revision offset |
| Derivation.RowKeyedByEps | Weather_Analysis/process_raw_data.py:95 | on aligned lists, every step's row is keyed by the datetime of eps run `i` |
| Derivation.ErrorsRepeatRevision | Weather_Analysis/process_raw_data.py:219-243 | the errors offset is the revision offset of step `i`; when it equals that of step `i-1`, the errors row is the step `i-1` revision row re-keyed to run `i` |
| Derivation.ErrorsOffsetMismatch | Weather_Analysis/process_raw_data.py:225-238 | there are aligned runs where the errors offset (runs `i`, `i-1`) differs from the offset of the subtracted runs, and the values differ |
| Derivation.LogExtend | Weather_Analysis/process_raw_data.py:95-99 | one more outcome adds its row to the rows, or its step number to the skips |
| Derivation.LogCounts | Weather_Analysis/process_raw_data.py:92-99 | rows plus skips number the outcomes |
| Derivation.AppendedFromOutcomes | Weather_Analysis/process_raw_data.py:95-96 | each recorded row is the outcome of a step in range, and the step numbers ascend |
| Derivation.FailedOutcomes | Weather_Analysis/process_raw_data.py:97-99 | each skip is a failed step in range, and the skips ascend |
| Derivation.OutcomesRecorded | Weather_Analysis/process_raw_data.py:92-99 | a step is among the row steps exactly when it succeeded, and among the skips exactly when it failed |
| Derivation.OutcomesAt | Weather_Analysis/process_raw_data.py:75 | the loop visits one outcome for each step from its first step on |
| Derivation.OutcomesExtend | Weather_Analysis/process_raw_data.py:75 | one more iteration adds the next step's outcome |
| Derivation.LoopStep | Weather_Analysis/process_raw_data.py:92-99 | one iteration extends the table or `passed_rows` by that step's row or number |
| Derivation.NoSteps | Weather_Analysis/process_raw_data.py:75 | before its first step a loop has recorded nothing |
| Derivation.DeriveGroup | Weather_Analysis/process_raw_data.py:75-99 | the outer loop returns exactly the group's rows, and appends exactly its skipped steps to the incoming `passed_rows` |
| Derivation.StepsAccounted | Weather_Analysis/process_raw_data.py:75-243 | rows plus skips equal the number of steps: `len - 1` for the pairwise groups and `len - 2` for errors |
| Derivation.RowsFromSteps | Weather_Analysis/process_raw_data.py:95-96 | every row is the outcome of a distinct step, in step order |
| Derivation.SkipsAreFailedSteps | Weather_Analysis/process_raw_data.py:97-99 | every skipped number is a failed step, in ascending order |
| Derivation.EveryStepRecorded | Weather_Analysis/process_raw_data.py:92-99 | each step appends a row if and only if it succeeds, and is skipped if and only if it fails |
| Derivation.RowsChronological | Weather_Analysis/process_raw_data.py:95-96 | on aligned lists, a group's rows are in strictly increasing issue time, so no datetime labels two rows |
| Derivation.RowsWellFormed | Weather_Analysis/process_raw_data.py:95 | every row has one value per column and is keyed by an eps run's datetime |
| Assembly.AddNoonWellFormed | Weather_Analysis/process_raw_data.py:245-246 | adding `noon` keeps a frame well formed and keeps each row's stamp and earlier values |
| Assembly.Concat | Weather_Analysis/process_raw_data.py:248-249 | the joined table's rows are the union of the frames' datetimes, and every row has the union of their columns |
| Assembly.FillNa | Weather_Analysis/process_raw_data.py:250 | filling keeps every row and every column |
| Assembly.CellOfFrame | Weather_Analysis/process_raw_data.py:248-249 | with disjoint columns, a column's cell is looked up in the frame that owns it |
| Assembly.CellOfNoFrame | Weather_Analysis/process_raw_data.py:248-249 | a column no frame has is NaN everywhere |
| Assembly.FilledCell | Weather_Analysis/process_raw_data.py:248-250 | a filled cell is the owning frame's row value at that datetime, or 0 where that frame has no row |
| Assembly.FilledValues | Weather_Analysis/process_raw_data.py:250 | `fillna(0)` replaces exactly the NaN cells by 0 |
| Assembly.StampsOfRows | Weather_Analysis/process_raw_data.py:248-249 | a datetime is a row of the join if and only if some frame has a row for it |
| Assembly.ColumnsOfFrames | Weather_Analysis/process_raw_data.py:248-249 | a column is in the join if and only if some frame has it |
| Assembly.FeatureCellAt | Weather_Analysis/process_raw_data.py:248-250 | a frame's column at the datetime of one of its rows holds that row's value, also after `noon` was added |
| Assembly.FeatureCellAbsent | Weather_Analysis/process_raw_data.py:248-250 | a frame's column at a datetime it has no row for is 0 |
| Assembly.NoonCellAt | Weather_Analysis/process_raw_data.py:245-250 | the `noon` cell at an errors row is 1 for hour 12 and 0 otherwise |
| Assembly.NoonCellAbsent | Weather_Analysis/process_raw_data.py:245-250 | the `noon` cell at a datetime without an errors row is 0 |
| Pipeline.TrimmedCatalogued | Weather_Analysis/process_raw_data.py:37-47 | with distinct runs per model, the sorted, trimmed lists are strictly sorted |
| Pipeline.PreparedAligned | Weather_Analysis/process_raw_data.py:37-69 | after sort, trim and alignment the lists are aligned by key, eps carries exactly the runs common to all trimmed lists, and the lists are datable when the eps list is |
| Pipeline.Prepared | Weather_Analysis/process_raw_data.py:37-82 | the loaded aligned lists share datetimes position by position, and eps is in increasing issue time |
| Pipeline.ConcatOrder | Weather_Analysis/process_raw_data.py:248-249 | the `concat` list holds each of the six groups exactly once |
| Pipeline.Frames | Weather_Analysis/process_raw_data.py:245-249 | there are six frames, and the frame at each group's place is that group's frame, with `noon` on the errors frame |
| Pipeline.FramesListed | Weather_Analysis/process_raw_data.py:248-249 | the frames are gfs, cmc, ecmwf, errors, day 8, eps revision, in that order |
| Pipeline.ProcessRawData | Weather_Analysis/process_raw_data.py:7-252 | with fewer than two aligned eps runs the function raises `AttributeError`; otherwise it raises it exactly when the errors loop appended no row, and else writes the filled table of the prepared runs with the `passed_rows` of the six loops |
| Pipeline.DeriveAll | Weather_Analysis/process_raw_data.py:71-250 | the six loops in order, sharing `passed_rows`, then `noon`, `concat` and `fillna`: `AttributeError` exactly when the errors rows are empty, else `MasterTable` and `PassedRows` |
| Pipeline.ColumnsOfGroup | Weather_Analysis/process_raw_data.py:71-72 | a column belongs to a group exactly when it is that group's feature with a suffix inside its window |
| Pipeline.FrameColumns | Weather_Analysis/process_raw_data.py:245 | a frame's columns are its group's columns, plus `noon` for errors only |
| Pipeline.GroupsDisjoint | Weather_Analysis/process_raw_data.py:71-245 | the columns of two different groups, with `noon` counted for errors, never overlap |
| Pipeline.FramesDisjoint | Weather_Analysis/process_raw_data.py:248-249 | no column appears in two of the six frames |
| Pipeline.GroupFrameWellFormed | Weather_Analysis/process_raw_data.py:95-96 | each group frame is well formed and has no `noon` column of its own |
| Pipeline.Position | Weather_Analysis/process_raw_data.py:249 | each group has a place in the `concat` list |
| Pipeline.PositionOfOrder | Weather_Analysis/process_raw_data.py:249 | the place of the p-th group is p |
| Pipeline.FrameAtPosition | Weather_Analysis/process_raw_data.py:245-249 | the frame at a group's place has that group's rows, with `noon` added for errors |
| Pipeline.FramesReady | Weather_Analysis/process_raw_data.py:245-249 | the frames are disjoint, and each group's frame is well formed at its place |
| Pipeline.RowInMaster | Weather_Analysis/process_raw_data.py:248-249 | every row a loop appended is a row of the table |
| Pipeline.MasterRowAppended | Weather_Analysis/process_raw_data.py:248-249 | every row of the table was appended by one of the loops |
| Pipeline.MasterRows | Weather_Analysis/process_raw_data.py:248-249 | the table's rows are exactly the datetimes of the rows the six loops appended |
| Pipeline.ColumnFromFrames | Weather_Analysis/process_raw_data.py:248-249 | every column of a frame is `noon` or a feature column of its own group |
| Pipeline.ColumnToFrames | Weather_Analysis/process_raw_data.py:248-249 | every feature column and `noon` is a column of some frame |
| Pipeline.MasterColumns | Weather_Analysis/process_raw_data.py:248-249 | every row has exactly the 27 feature columns and `noon` |
| Pipeline.MasterFeatureAt | Weather_Analysis/process_raw_data.py:248-250 | a feature cell at a datetime its group appended holds that group's value |
| Pipeline.MasterFeatureAbsent | Weather_Analysis/process_raw_data.py:250 | a feature cell at a datetime its group skipped or never reached is 0 |
| Pipeline.MasterNoon | Weather_Analysis/process_raw_data.py:245-250 | `noon` is 1 exactly at errors rows issued at hour 12, and 0 at every other row, including rows only other groups have |
| Pipeline.MasterRowsAreEpsRuns | Weather_Analysis/process_raw_data.py:95 | every row of the table is the datetime of an aligned eps run |
| Pipeline.MasterRowsAreCommonRuns | Weather_Analysis/process_raw_data.py:37-250 | every row of the table is the datetime of an aligned eps file whose run every trimmed list carries |

## Left out

- Globbing, `pd.read_csv` and `to_pickle` (lines 37, 76 and 252) are I/O. The globbed name lists and the snapshot bodies are the input `ModelFiles`; the table is the result. The `[01][02]` hour pattern of the glob is represented only by the two-character hour field required by `Snapshots.Admitted`.
- The `print` diagnostics are left out.
- Re-reading a file in each loop is replaced by loading every aligned file once (`Derivation.LoadAll`). The loops read the same bodies either way.
- The pandas frame itself: a table is a map, so neither the row order that `concat` produces nor the column order is modelled.
- NaN is `None` before filling. Values are `real`, not floating point; only subtraction is used.
- Pipeline.ProcessRawData: requires that no model list the same run twice, and that the aligned eps files date without error whenever there are at least two of them. That second condition is the only place the function dates a file: eps files are dated in the first loop, and the other aligned lists carry the same run keys. Where it fails, the source raises `ValueError` without catching it. The model states this `ValueError` as a precondition, not as an outcome. `Admitted` asks for an eight-digit date and a two-digit hour, and Python's other forms that `strptime` and `int()` accept are not modelled: single-digit fields, surrounding whitespace and signs. A `ValueError` outcome would be claimed wrongly on such names.
- Names whose glob `*` part holds a '.' are not modelled apart: the key is read from fields 1 and 2 of the split, as the source does, and such a name is admitted only if those fields parse.
- The `except IndexError` around `get_date` in the gfs loop (lines 148-151) cannot fire on admitted names, so it is not modelled.
- Chronology.KeyOrderIsChronological: states the order only for two-character hour fields. This is the only form the glob admits.
