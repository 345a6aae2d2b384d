# Branch salary transform, modelled in Dafny

This project models the transform core of the branch-salary ETL job. The job
reads a timesheets table (one clock-in/clock-out punch per row) and an
employees table. It then:

1. drops one duplicate punch per (employee_id, date) group (`remove_duplicates`);
2. fills missing checkouts and then missing checkins from ordered
   condition/choice rules (`transform_times`, `process_timesheets_column`);
3. moves overnight checkouts to the next day and derives `time_diff` and
   `hours_diff` (`adjust_checkout_times`);
4. left-joins the punches to the employees (`merge_employees_timesheets`);
5. sums hours and distinct salaries per (year, month, branch_id), with the
   salary per hour taken as 0 when there are no hours (`aggregate_data`).

The modules follow the stages:

| module | models |
|---|---|
| `Wrappers` | `Option`, for missing values (NaN/NaT/null) |
| `Punches` | the row of the timesheets table; durations are whole seconds |
| `Dedup` | `remove_duplicates` |
| `Times` | `process_timesheets_column`, `transform_times`, `adjust_checkout_times` |
| `Merge` | `merge_employees_timesheets` |
| `Aggregate` | `aggregate_data` |
| `Etl` | the stage order of `etl()` |

**Dedup.** `remove_duplicates` is a loop that marks indices and then drops
them. It is modelled as the method `Dedup.RemoveDuplicates`, proved equal to
the reference function `Dedup.Deduplicated`, which states the two-tier rule
row by row.

**Times.** The timesheets DataFrame is changed in place. It is modelled as the
class `Times.Timesheets`, whose methods update its `rows`, `timeDiff` and
`hoursDiff` fields. Each method is proved against per-row reference
functions: `FillPunch` for the fill rules and `AdjustPunch` for the
overnight fix. `np.select` is `Times.Select`: the first condition that holds
wins, and the default applies where none holds.

**Merge and aggregate.** Both are pure. Each `groupby` is a fold that inserts
into a key-sorted table, so the model also gets the ascending group order
pandas' default `sort=True` gives.

**The disagreements below follow the code.**
- The overnight test compares whole durations (`checkin > checkout`), not
  times of day. A checkout already filled as "1 day 08:00" is therefore never
  moved again.
- A two-row group whose rows both have a checkout and differ in their times
  keeps both rows (`Dedup.ConflictingPairSurvives`), so such a pair is not
  left unique. What the code does promise is that each group loses at most
  one row (`Dedup.GroupLosesAtMostOneRow`).
- The merge keeps the row count unless some punch's employee id matches two
  or more employees. With unique ids every punch is kept once
  (`Merge.MergeKeepsEveryPunchOnce`). A repeated id that a punch carries
  repeats that punch (`Merge.RepeatedIdRepeatsPunch`). A repeated id that no
  punch carries changes nothing (`Merge.RepeatedUnusedIdKeepsCount`).

## Model

| member | source | states |
|---|---|---|
| Dedup.DuplicateRows | common_package/transform/transform_pipeline.py:24 | the rows listed are exactly those sharing (employee_id, date) with another row (keep=False) |
| Dedup.FirstNullCheckout | common_package/transform/transform_pipeline.py:35-38 | the result is a row of the group with a missing checkout, and no earlier such row exists |
| Dedup.FirstRepeat | common_package/transform/transform_pipeline.py:42-46 | the result is a row of the group equal to an earlier row on all columns but timesheet_id, and it is the first such row |
| Dedup.KeptIndices | common_package/transform/transform_pipeline.py:49 | the kept positions are in range, unmarked, strictly ascending and include every unmarked position |
| Dedup.DropIndices | common_package/transform/transform_pipeline.py:49 | drop(index=...) leaves one row per unmarked position |
| Dedup.DropIndicesKeepsUnmarked | common_package/transform/transform_pipeline.py:49 | row m of the dropped table is the m-th unmarked row of the original, so exactly the unmarked rows remain in their original order |
| Dedup.MarksAreRemovedIndices | common_package/transform/transform_pipeline.py:27-49 | once each duplicated row has marked its group's victim, the set of marked indices is exactly the set of removed rows, however often a victim was appended |
| Dedup.RemoveDuplicates | common_package/transform/transform_pipeline.py:13-51 | the loop over duplicated rows, appending each group's victim and then dropping, returns exactly Deduplicated(timesheets) |
| Dedup.RemovedRowChoice | common_package/transform/transform_pipeline.py:27-47 | a row is dropped iff it is in a group of two or more and is the group's first null-checkout row; when the group has no null checkout, iff it is the group's first repeat of an earlier row |
| Dedup.GroupLosesAtMostOneRow | common_package/transform/transform_pipeline.py:27-49 | every (employee_id, date) group loses at most one row, and a single-row group loses none |
| Dedup.NullCheckoutPairLeavesOne | common_package/transform/transform_pipeline.py:35-40 | of two punches for one employee and date, the second, without checkout, is dropped and the first is kept |
| Dedup.NullCheckoutFirstLeavesOne | common_package/transform/transform_pipeline.py:35-40 | of two punches for one employee and date, the first, without checkout, is dropped and the second is kept |
| Dedup.ConflictingPairSurvives | common_package/transform/transform_pipeline.py:42-47 | two punches for one employee and date, both with checkouts and with differing times, are both kept |
| Times.FirstMatch | common_package/transform/transform_pipeline.py:79 | the index found is a condition that holds at the row, and no earlier one holds |
| Times.Select | common_package/transform/transform_pipeline.py:79 | np.select: a row takes the choice of the first condition that holds, or keeps the default when none holds |
| Times.Timesheets.ProcessTimesheetsColumn | common_package/transform/transform_pipeline.py:54-88 | after the loop the column is np.select applied once per (conditions, choices) pair in order, each with the current column as default; the other column and the derived columns are unchanged |
| Times.CheckoutRulesMatchTable | common_package/transform/transform_pipeline.py:104-118 | the checkout rules run through np.select fill exactly as FillCheckout says: 18:00 after a checkin up to noon, 1 day 08:00 after a later one, unchanged otherwise |
| Times.CheckinRulesMatchTable | common_package/transform/transform_pipeline.py:121-135 | the checkin rules run through np.select fill exactly as FillCheckin says: 00:00 before a checkout up to 09:00, 09:00 before a later one, unchanged otherwise |
| Times.Timesheets.TransformTimes | common_package/transform/transform_pipeline.py:91-138 | the checkout column is filled first and the checkin rules see the filled checkout: the new rows are FillTimes of the old ones |
| Times.FillExamples | common_package/transform/transform_pipeline.py:104-135 | checkin 10:00 gives checkout 18:00, checkin 14:00 gives checkout 1 day 08:00, checkout 08:30 gives checkin 00:00, checkout 17:00 gives checkin 09:00 |
| Times.FillLeavesBothOrNeither | common_package/transform/transform_pipeline.py:104-135 | after filling, a punch has both times unless it had neither, and a time that was present is never changed |
| Times.CountTrue | common_package/transform/transform_pipeline.py:155 | the count of the mask is zero iff no row is masked |
| Times.Timesheets.AdjustCheckoutTimes | common_package/transform/transform_pipeline.py:141-169 | the rows become AdjustCheckouts of the old rows (the program has the same result whether or not any row is masked), and time_diff and hours_diff are derived from the adjusted rows |
| Times.Timesheets.ShiftRows | common_package/transform/transform_pipeline.py:165-166 | the frame with its derived columns has one row per punch |
| Times.AdjustAddsOneDay | common_package/transform/transform_pipeline.py:154-159 | exactly one day is added to the checkout of a row whose checkin is later than its checkout; every other row and every checkin stays as it was |
| Times.AdjustedHoursNonNegative | common_package/transform/transform_pipeline.py:154-166 | with a checkin within the day, the adjusted shift has a non-negative hours_diff, and adjusting again changes nothing |
| Times.OvernightShiftExample | common_package/transform/transform_pipeline.py:154-166 | a 22:00 to 06:00 punch has hours_diff 8.0 |
| Times.NormalizedShifts | common_package/transform/transform_pipeline.py:91-169 | fill, adjust and derive keep one row per punch |
| Times.NormalizedShiftsWellFormed | common_package/transform/transform_pipeline.py:104-166 | with a checkin within the day and a checkout not negative, a punch with some time ends with both times, checkout not before checkin and hours_diff not negative; a punch with neither time has no hours_diff |
| Merge.RenameEmployeeId | common_package/transform/transform_pipeline.py:186 | the rename keeps one employee per record |
| Merge.Matching | common_package/transform/transform_pipeline.py:190 | the matches are employees carrying the punch's id |
| Merge.MatchingCount | common_package/transform/transform_pipeline.py:190 | each employee with the id is matched exactly as often as the table lists it, and no other employee is matched |
| Merge.MatchingMembers | common_package/transform/transform_pipeline.py:190 | an employee is among the matches iff it is in the table and has the id |
| Merge.JoinShift | common_package/transform/transform_pipeline.py:190 | a left join yields at least one row per punch, each carrying that punch |
| Merge.JoinShiftUnmatched | common_package/transform/transform_pipeline.py:190 | a punch that no employee matches gets exactly one row, with missing branch_id and salary |
| Merge.JoinShiftMatched | common_package/transform/transform_pipeline.py:190-195 | a matched punch gets one row per matching employee; each row has the branch_id and salary of an employee with the punch's id, and the punch's year and month |
| Merge.JoinShiftCoversMatches | common_package/transform/transform_pipeline.py:190 | every employee with the punch's id contributes a row carrying its columns |
| Merge.LeftJoin | common_package/transform/transform_pipeline.py:190 | the left join has at least as many rows as there are punches |
| Merge.FindEmployee | common_package/transform/transform_pipeline.py:190 | the lookup finds a record with the id, or there is none |
| Merge.MatchingUnique | common_package/transform/transform_pipeline.py:190 | with unique ids an employee id matches at most the one record that has it |
| Merge.LeftJoinUnique | common_package/transform/transform_pipeline.py:190 | with unique ids the left join has exactly one row per punch, in punch order |
| Merge.MergeKeepsEveryPunchOnce | common_package/transform/transform_pipeline.py:172-198 | with unique employee ids, row i of the merge is punch i with its employee's branch_id and salary (missing when no employee matches) and the year and month of its date |
| Merge.RepeatedIdRepeatsPunch | common_package/transform/transform_pipeline.py:190 | an employee id listed twice yields two merged rows for a single punch |
| Merge.RepeatedUnusedIdKeepsCount | common_package/transform/transform_pipeline.py:190 | an employee id listed twice that the punch does not carry leaves the punch as one row with missing employee columns |
| Aggregate.AddHours | common_package/transform/transform_pipeline.py:214-216 | adding to a bucket keeps the buckets sorted, adds key k and no other key |
| Aggregate.AddHoursSums | common_package/transform/transform_pipeline.py:214-216 | adding h to bucket k raises the hours held under k by h and leaves every other key's hours as they were; it adds the hours to k's group only, and adds k's salary to that group only when the key is new |
| Aggregate.SumBySalary | common_package/transform/transform_pipeline.py:214-216 | the first groupby has a sorted bucket per (year, month, branch_id, salary) key present in the rows; the hours under each key are those of exactly the rows with that key; per group, the hours are those of all its rows and the salaries are its distinct salary values |
| Aggregate.BucketsLookup | common_package/transform/transform_pipeline.py:214-216 | in sorted buckets, the hours held under a bucket's key are that bucket's own |
| Aggregate.SumBySalaryBucketHours | common_package/transform/transform_pipeline.py:214-216 | each bucket of the first groupby holds the summed hours_diff of exactly the rows with its key |
| Aggregate.AddTotal | common_package/transform/transform_pipeline.py:219-222 | adding to a total keeps the totals sorted, adds group g and no other group |
| Aggregate.AddTotalSums | common_package/transform/transform_pipeline.py:219-222 | adding to a total adds its hours and salary to group g only |
| Aggregate.SumByBranch | common_package/transform/transform_pipeline.py:219-222 | the second groupby has a sorted total per group of the buckets, summing the buckets' hours and salaries |
| Aggregate.TotalsLookup | common_package/transform/transform_pipeline.py:219-222 | in the sorted totals the sums for a group are that group's row |
| Aggregate.SalaryPerHour | common_package/transform/transform_pipeline.py:225-228 | with hours not zero, salary_per_hour times hours is the salary; with zero hours it is 0 |
| Aggregate.AggregateData | common_package/transform/transform_pipeline.py:201-231 | one output row per total, under that total's (year, month, branch_id) |
| Aggregate.AggregateKeysAscending | common_package/transform/transform_pipeline.py:214-222 | the output keys are strictly ascending, so no key repeats |
| Aggregate.AggregateKeysAreContributingGroups | common_package/transform/transform_pipeline.py:214-222 | a key is in the output iff some merged row with a branch_id and a salary falls in it |
| Aggregate.AggregateTotals | common_package/transform/transform_pipeline.py:214-228 | each output row's hours_diff is the sum over all its rows, its salary is the sum of its distinct salary values, and salary_per_hour is their ratio (0 for zero hours) |
| Aggregate.Keyed | common_package/transform/transform_pipeline.py:214 | the rows kept by dropna each have a branch_id and a salary |
| Aggregate.KeyedIsFilter | common_package/transform/transform_pipeline.py:214 | dropna keeps every row with both a branch_id and a salary, as often as it occurs, and no other row |
| Aggregate.AggregateIgnoresUnkeyedRows | common_package/transform/transform_pipeline.py:214-216 | rows without branch_id or salary change nothing in the output |
| Aggregate.SingleGroupSingleRow | common_package/transform/transform_pipeline.py:214-222 | rows that all fall in one group give exactly one output row, for that group |
| Aggregate.SingleRowAggregate | common_package/transform/transform_pipeline.py:214-228 | a single merged row with a branch and a salary gives one output row with its own hours, salary and ratio |
| Aggregate.ExampleBuckets | common_package/transform/transform_pipeline.py:214-216 | salaries 3000/160 h, 3000/140 h and 4000/150 h in one branch and month give stage-1 buckets of 300 h under 3000 and 150 h under 4000, in that order |
| Aggregate.AggregateExample | common_package/transform/transform_pipeline.py:214-228 | salaries 3000/160 h, 3000/140 h and 4000/150 h in one branch and month give 450 h, salary 7000 and 7000/450 per hour |
| Etl.RunPipeline | etl_branch_salary.py:40-46 | the stages run in etl()'s order, on one timesheets frame changed in place, and compute exactly Pipeline(timesheets, employees) |
| Etl.PipelineKeysAscending | etl_branch_salary.py:40-46 | the table handed to the loader has each (year, month, branch_id) at most once, ascending |
| Etl.NullCheckoutPairShifts | etl_branch_salary.py:40-42 | after deduplication and the time stages, a null-checkout pair leaves one 09:00 to 17:00 shift of 8 hours |
| Etl.NullCheckoutPairEndToEnd | etl_branch_salary.py:40-46 | two punches of one employee and date, one without checkout, flow through all stages to a single 8-hour output row with that employee's salary |

## Left out

- Logging: every `logger.info` call and the logging configuration.
- The CSV loader, the BigQuery loader and environment variables: these are I/O.
- `etl()` catches and logs every exception without re-raising. The model has no exceptions.
- Duplicate detection on raw text: `remove_duplicates` runs before any parsing, so lines 24, 30-31 and 43 compare the CSV text of `date`, `checkin` and `checkout`. The model compares parsed values. For example, "9:00:00" and "09:00:00" are different rows in the source but a repeat in the model.
- Parsing: `astype(str)`, `pd.to_timedelta(..., errors='coerce')` and `pd.to_datetime`.
  - Punch times arrive already parsed as whole seconds, or missing.
  - Dates arrive already split into year, month and day.
  - A value that fails to parse is not modelled; the model assumes it was missing to begin with.
- The dtype mixing of `np.select`, whose choices are Timedeltas and whose default is a string column: not modelled.
- Floating point: `hours_diff`, salaries and their sums are exact reals, so rounding and summation order are not modelled.
- NaN keys: a missing employee_id or date in the timesheets is not modelled. A missing branch_id or salary is modelled, and drops the row from the groupby.
- 64-bit overflow of Timedelta nanoseconds: not modelled.
- Extra columns: employee columns other than branch_id and salary, and the suffixes a merge adds on clashing column names, are not modelled.
- The empty frame: `DataFrame.apply(axis=1)` on an empty aggregate is not modelled. The model returns an empty table.
- Merge.RenameEmployeeId: states only the row count. The renaming itself is the datatype change from `EmployeeRecord` to `Employee`.
- Merge.LeftJoin: for arbitrary employee tables it states only a lower bound on the row count. The rows each punch contributes are stated by Merge.JoinShiftUnmatched, Merge.JoinShiftMatched and Merge.JoinShiftCoversMatches. The exact row-by-row shape is stated under unique ids by Merge.LeftJoinUnique and Merge.MergeKeepsEveryPunchOnce.
- Merge.Matching: the order of the matches (table order) is given by its definition; Merge.MatchingCount and Merge.MatchingMembers state which employees are matched and how often, not their order.
