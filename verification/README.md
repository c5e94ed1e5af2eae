# mdlist: a verified model of the CV list builder

`mdlist` turns a file of records (talks, publications, grants, teaching,
meetings, students) into a markdown list for a CV. A registry, `cvlists`,
maps each list category to a pipeline made of:

- preprocessors, which convert column types;
- augmentors, which derive or fill columns;
- one sorter;
- filters, each giving a boolean mask;
- a list template.

`main` loads the records into a frame and runs the steps of the chosen
category in a fixed order: preprocessors, then augmentors, then the sorter.
It ANDs the filter masks together, starting from a mask that is all true.
Each row whose mask entry is true is cleaned of missing entries, rendered
with the template and followed by a newline.

This project models that core in Dafny:

| module | file | what it holds |
|---|---|---|
| `Values` | `values.dfy` | the cell kinds, the missing value, the Python exceptions, pandas' three-valued masks |
| `PyText` | `pytext.dfy` | decimal and `YYYY-MM-DD` text, with round trips |
| `Tables` | `tables.dfy` | the data frame as a value (`Table`) and as an object updated in place (`Frame`) |
| `Cells` | `cells.dfy` | the per-cell functions the converters and augmentors apply |
| `Preprocessors` | `preprocessors.dfy` | the five converters |
| `Augmentors` | `augmentors.dfy` | `addmonth`, `addyear`, `augmentmonth`, `augmentyear`, `addsupervisor` and `addcolumns` |
| `Sorters` | `sorters.dfy` | `ascending` and `descending` |
| `Filters` | `filters.dfy` | `recent`, `current`, `former`, `columnis` and `columncontains` |
| `Cleaning` | `cleaning.dfy` | `remove_nan` |
| `Registry` | `registry.dfy` | the `cvlists` registry, with the copies it derives |
| `Executor` | `executor.dfy` | the stage loops, the filter mask and the output loop of `main` |
| `Scenarios` | `scenarios.dfy` | whole runs on concrete records |

The steps that work on the frame in place are methods on a `Frame` object.
Each method is specified by a function on the frame's value. Those are the
preprocessors, the augmentors, `addcolumns` and the stage loop. The filters
and sorters return new values, so they are functions. The loops of `main`
and of `remove_nan` are methods, each proved equal to the function that
specifies it.

Behaviour the program has as written, which the model keeps:

- **The sort comes before the filters.** The filters read the sorted frame,
  and the output follows the sort order (`Executor.ListedInSortedOrder`).
- **An unknown category renders empty text.** Six categories are accepted on the
  command line but have no registry entry, and they give empty text, which
  `main` then prints as a lone newline
  (`Registry.UnlistedChoices`, `Scenarios.UnlistedCategoryPrintsNothing`).
- **`--since-year` has no effect.** `main` assigns a local variable that
  `recent` never reads, so `recent` always compares with the module
  constant 2020 (`Filters.SinceYear`, `Filters.Recent`).
- **`convert_year_iso` never retries with `strptime`.**
  - `int()` on a string raises ValueError, never TypeError, so the
    `except TypeError` branch is unreachable. A full date string is
    rejected (`Cells.FullDateStringRejected`).
  - The type test is exact. A `datetime.datetime` is not a
    `datetime.date` there, so it raises TypeError, and so does a missing
    cell.
  - The column is not checked for presence, so a missing column raises
    KeyError (`Preprocessors.YearIsoEffect`).
- **`former` has no flag argument.** A row flagged as current but already
  ended passes both the students' `current` filter and a `former` filter
  (`Filters.FlaggedRowBothCurrentAndFormer`).
- **`convert_datetime` does not coerce.** A cell it cannot parse raises
  and stops the program. It does not become missing.
- **`meetings` needs a `year` column.** Its filter is `recent("year")`, but
  none of its steps creates that column. Records without a year stop the
  program with KeyError (`Scenarios.MeetingsNeedYear`).
- **`columncontains` never tests list membership.** For a list cell, Python
  compares the whole list with the value and gets `False`, so the filter
  is exactly `columnis` (`Filters.ColumnContainsIsColumnIs`). Its
  docstring says "contains", so membership was evidently the intent. See
  "Findings".

## Model

| member | source | states |
|---|---|---|
| `Tables.FromRecords` | lamd/mdlist.py:463 | the loaded frame has one row per record; its columns are the union of the record keys; a key a record lacks reads as missing |
| `Tables.Column` | lamd/mdlist.py:33 | `df[c]` raises KeyError(c) exactly when the column is absent; otherwise it gives the column's cells in row order |
| `Tables.MapCells` | lamd/mdlist.py:52 | `Series.apply` succeeds iff f succeeds on every cell, giving f's results in order; otherwise it raises the error of the first cell, in row order, that f raises on |
| `Tables.WithColumn` | lamd/mdlist.py:33 | assigning a column adds it to the columns, keeps the row count and changes that one cell of each row |
| `Tables.Frame.constructor` | lamd/mdlist.py:463 | the frame object starts with the loaded table |
| `Cells.ToDatetime` | lamd/mdlist.py:33 | missing stays missing; a date or timestamp becomes a timestamp if it is in the Timestamp range and otherwise raises ValueError; bools, lists and dicts raise TypeError; every result is missing or an in-range timestamp |
| `Cells.ToDatetimeIdempotent` | lamd/mdlist.py:33 | converting a converted cell again gives the same result |
| `Cells.ToDatetimeOfIso` | lamd/mdlist.py:33 | an ISO `YYYY-MM-DD` string of an in-range day is read back as that day |
| `Cells.ToInt` | lamd/mdlist.py:43 | missing stays missing; integers are kept; a bool becomes 0 or 1; a string that is plain integer text becomes that integer and any other string raises ValueError; dates and collections raise TypeError; every result is missing or an integer |
| `Cells.ToStr` | lamd/mdlist.py:52 | missing stays missing; strings are kept; an integer becomes its decimal text; every non-list cell converts, to missing or a string |
| `Cells.ToIntAfterToStr` | lamd/mdlist.py:43-52 | an integer stringified by `convert_string` is restored by `convert_int` |
| `Cells.NewYearDay` | lamd/mdlist.py:61 | missing stays missing; a non-missing result is a string ending in `-01-01`; an integer year becomes its decimal text followed by `-01-01` |
| `Cells.NewYearDayThenDatetime` | lamd/mdlist.py:55-62 | a year passed through `convert_new_year_day` and then `convert_datetime` becomes 1 January of that year, for every year a Timestamp can hold |
| `Cells.PyDate` | lamd/mdlist.py:71 | `datetime.datetime(y, m, d)` succeeds iff the day exists in years 1-9999; it raises OverflowError outside a C int and ValueError otherwise |
| `Cells.YearStamp` | lamd/mdlist.py:71-76 | the timestamp of the given year, month and day, with the same error cases |
| `Cells.YearToIso` | lamd/mdlist.py:66-85 | an int year, or a string `int()` accepts (surrounding whitespace, a sign, digits grouped by single underscores), becomes that year's month and day; an exact `datetime.date` is returned as is; other strings raise ValueError; every other cell, missing included, raises TypeError |
| `PyText.PyIntAgrees` | lamd/mdlist.py:74 | on plain integer text, `int()` gives the same value as the plain parser |
| `PyText.PyIntIgnoresSpace` | lamd/mdlist.py:74 | `int()` ignores leading and trailing whitespace |
| `PyText.GroupedDigitsJoin` | lamd/mdlist.py:74 | a single underscore between digit groups does not change the value `int()` reads |
| `PyText.GroupedDigitsMisplaced` | lamd/mdlist.py:74 | a doubled, leading or trailing underscore makes `int()` raise |
| `Cells.YearToIsoOfText` | lamd/mdlist.py:69-76 | a year written as decimal text converts exactly like the integer year |
| `Cells.FullDateStringRejected` | lamd/mdlist.py:73-79 | `"2021-03-04"` raises ValueError, so the `strptime` retry is unreachable |
| `Cells.MonthNameOf` | lamd/mdlist.py:95 | a timestamp gives its English month name; missing stays missing; anything else raises AttributeError |
| `Cells.YearOf` | lamd/mdlist.py:100 | a date or timestamp gives its year; missing stays missing; anything else raises AttributeError |
| `Preprocessors.ConvertColumn` | lamd/mdlist.py:32-33 | converting one present column succeeds iff f succeeds on each of its cells; then the columns and row count are kept, each cell of the column is f of its old value, and other cells are unchanged; otherwise the error is that of the first cell f raises on |
| `Preprocessors.ConvertEach` | lamd/mdlist.py:31-33 | the loop over the listed columns keeps the columns and the row count, and raises nothing when no listed column is present |
| `Preprocessors.ConvertEachPasses` | lamd/mdlist.py:31-33 | with distinct names, the loop raises nothing iff f succeeds on every cell of every listed column the frame has |
| `Preprocessors.ConvertEachFirstError` | lamd/mdlist.py:31-33 | with distinct names, a raised error is that of the first failing cell of the first listed present column that does not convert in full |
| `Preprocessors.ConvertEachKeepsOthers` | lamd/mdlist.py:27-62 | the list converters keep the columns and the row count, and change no cell outside the named columns |
| `Preprocessors.ConvertEachSkipsAbsent` | lamd/mdlist.py:31-32 | naming only absent columns leaves the frame unchanged and raises nothing |
| `Preprocessors.ConvertEachKeepsMissing` | lamd/mdlist.py:27-62 | when the cell function maps missing to missing, every missing cell stays missing |
| `Preprocessors.ConvertEachConverts` | lamd/mdlist.py:31-33 | after a run that raises nothing, every cell of a named present column is the cell function applied to its old value |
| `Preprocessors.ConvertColumns` | lamd/mdlist.py:29-34 | the loop over the columns leaves the frame as the fold over the column list specifies; one column or a list is accepted |
| `Preprocessors.ConvertDatetime` | lamd/mdlist.py:27-34 | `convert_datetime` updates the frame as the fold with `ToDatetime` specifies |
| `Preprocessors.ConvertInt` | lamd/mdlist.py:37-44 | `convert_int` updates the frame as the fold with `ToInt` specifies |
| `Preprocessors.ConvertString` | lamd/mdlist.py:46-53 | `convert_string` updates the frame as the fold with `ToStr` specifies |
| `Preprocessors.ConvertNewYearDay` | lamd/mdlist.py:55-62 | `convert_new_year_day` updates the frame as the fold with `NewYearDay` specifies |
| `Preprocessors.YearIsoEffect` | lamd/mdlist.py:64-88 | an absent column raises KeyError; otherwise it succeeds iff `YearToIso` succeeds on each cell of the column, and an error is that of the first cell that raises, with the frame unchanged; on success the columns and row count are kept, each cell of the column is `YearToIso` of its old value, and other cells are unchanged |
| `Preprocessors.ConvertYearIso` | lamd/mdlist.py:64-88 | `convert_year_iso` updates the frame as `YearIsoEffect` specifies |
| `Augmentors.DeriveEffect` | lamd/mdlist.py:93-101 | an absent source raises KeyError; otherwise it succeeds iff f succeeds on each source cell, and an error is that of the first source cell that raises; on success the target column is added, each target cell is f of the source cell, and other columns are unchanged; on error the frame is unchanged |
| `Augmentors.Derive` | lamd/mdlist.py:93-101 | assigning the applied source column updates the frame as `DeriveEffect` specifies |
| `Augmentors.AddMonth` | lamd/mdlist.py:93-96 | `addmonth` writes the source's month names into the month column, as `DeriveEffect` specifies |
| `Augmentors.AddYear` | lamd/mdlist.py:98-101 | `addyear` writes the source's years into the year column, as `DeriveEffect` specifies |
| `Augmentors.AugmentCell` | lamd/mdlist.py:106-107 | one row: an absent target raises KeyError; a target that is not missing is left alone; a missing target with an absent source raises KeyError; a value is written only into a missing target, from a present non-missing source, and is f of the source |
| `Augmentors.AugmentFrom` | lamd/mdlist.py:105-107 | the row loop keeps the columns and the row count; past the last row it changes nothing |
| `Augmentors.AugmentFromPasses` | lamd/mdlist.py:105-107 | the row loop raises nothing iff every remaining row succeeds on its own |
| `Augmentors.AugmentFromFirstError` | lamd/mdlist.py:105-107 | a raised error is that of the first remaining row that fails, every earlier row succeeding |
| `Augmentors.AugmentFromRowwise` | lamd/mdlist.py:105-107 | the row loop keeps the rows before its position and rewrites each later row independently |
| `Augmentors.AugmentFillsOnlyMissing` | lamd/mdlist.py:103-115 | columns and row count are kept; a row is rewritten, with the target set to f of the source, exactly when its target is missing and its source is not; all other rows are unchanged |
| `Augmentors.Augment` | lamd/mdlist.py:105-108 | the `iterrows` loop updates the frame as `AugmentFrom` specifies |
| `Augmentors.AugmentMonth` | lamd/mdlist.py:103-108 | `augmentmonth` fills missing month cells from the source |
| `Augmentors.AugmentYear` | lamd/mdlist.py:110-115 | `augmentyear` fills missing year cells from the source |
| `Augmentors.FillEffect` | lamd/mdlist.py:119-121 | succeeds iff the column is present (otherwise KeyError); missing cells become the supervisor's name; every other cell is unchanged |
| `Augmentors.AddSupervisor` | lamd/mdlist.py:119-121 | `addsupervisor` updates the frame as `FillEffect` specifies |
| `Augmentors.AddColumnsShape` | lamd/mdlist.py:533-539 | the named columns are added, the row count is kept and well-formedness is preserved |
| `Augmentors.AddColumnsKeepsCells` | lamd/mdlist.py:533-539 | cells of the columns the frame had are kept |
| `Augmentors.AddColumnsFillsMissing` | lamd/mdlist.py:533-539 | a column the frame lacked is missing in every row |
| `Augmentors.AddColumnsAdds` | lamd/mdlist.py:533-539 | the named columns are added; existing cells are kept; new columns are missing in every row; well-formedness is preserved |
| `Augmentors.AddColumns` | lamd/mdlist.py:533-539 | `addcolumns` updates the frame as `AddColumnsFrom` specifies |
| `Sorters.StrLeTotal` | lamd/mdlist.py:124-130 | string order is total |
| `Sorters.StrLeTrans` | lamd/mdlist.py:124-130 | string order is transitive |
| `Sorters.KeyLeTotal` | lamd/mdlist.py:124-130 | the order on one sort key, with missing cells last in both directions, is total |
| `Sorters.KeyLeTrans` | lamd/mdlist.py:124-130 | the order on one sort key is transitive |
| `Sorters.RowLeTotal` | lamd/mdlist.py:124-130 | the lexicographic order on the sort keys is total |
| `Sorters.RowLeTrans` | lamd/mdlist.py:124-130 | the lexicographic order on the sort keys is transitive |
| `Sorters.InsertPermutes` | lamd/mdlist.py:124-130 | inserting a row adds exactly that row |
| `Sorters.InsertSorted` | lamd/mdlist.py:124-130 | inserting into a sorted list keeps it sorted |
| `Sorters.SortPermutes` | lamd/mdlist.py:124-130 | sorting gives a permutation of the rows |
| `Sorters.SortSorts` | lamd/mdlist.py:124-130 | sorting gives rows ordered by the keys |
| `Sorters.InsertTied` | lamd/mdlist.py:124-130 | an inserted row goes in front of every row whose keys equal its own, and the order among those rows is kept |
| `Sorters.SortStable` | lamd/mdlist.py:124-130 | the sort is stable: for every row, the rows whose keys equal its keys come out in their input order |
| `Sorters.FirstAbsent` | lamd/mdlist.py:126 | finds a sort key that is not a column iff there is one, and it is the first such key in key order |
| `Sorters.SortValues` | lamd/mdlist.py:124-130 | raises KeyError (for the first absent key) iff a key is absent; otherwise keeps the columns and gives a permutation of the rows ordered lexicographically by the keys |
| `Sorters.Ascending` | lamd/mdlist.py:124-126 | the rows come out in ascending key order |
| `Sorters.Descending` | lamd/mdlist.py:128-130 | the rows come out in descending key order |
| `Sorters.FirstKeyOrder` | lamd/mdlist.py:124-130 | in a sorted frame, rows missing the first key come after all rows that have it, and present first keys follow the direction |
| `Sorters.DescendingYears` | lamd/mdlist.py:128-130 | after a descending sort on an integer column, earlier rows have years at least as large |
| `Filters.Or` | lamd/mdlist.py:142 | Kleene `\|`: true iff either side is true, false iff both are false |
| `Filters.Recent` | lamd/mdlist.py:133-135 | succeeds iff the column is present and holds only integers, booleans or missing cells; a row is true iff its year is at least 2020 and unknown iff missing; otherwise TypeError, or KeyError for an absent column; pandas gives False instead of unknown for missing cells outside an `Int64` column, which the output treats the same |
| `Filters.WithinMask` | lamd/mdlist.py:140 | succeeds iff both columns are present and hold only timestamps or missing cells; with the end column absent the error is KeyError(end) exactly when every start cell is a timestamp or missing, since the start comparison runs first, and TypeError otherwise; an entry is true iff the row started by today and has not ended before today |
| `Filters.Current` | lamd/mdlist.py:137-144 | succeeds iff the columns are present and the start and end cells are timestamps or missing; an absent start raises KeyError(start), and an absent end raises KeyError(end) exactly when the start cells compare, TypeError otherwise; a row is true iff it started by today and has not ended before today, or its flag cell is truthy; never unknown |
| `Filters.Former` | lamd/mdlist.py:146-149 | succeeds iff the end column is present and holds timestamps or missing cells; a row is true iff its end is a timestamp before today; never unknown |
| `Filters.ColumnIs` | lamd/mdlist.py:151-153 | succeeds iff the column is present (otherwise KeyError); a row is true iff its cell equals the value as Python `==` compares |
| `Filters.ColumnContains` | lamd/mdlist.py:155-158 | succeeds iff the column is present; one entry per row |
| `Filters.ColumnContainsIsColumnIs` | lamd/mdlist.py:155-158 | `columncontains` equals `columnis` on every frame, so it is trivially a superset of it |
| `Filters.ListCellNotMatched` | lamd/mdlist.py:158 | a supervisor list `["ndl21"]` does not match `"ndl21"` |
| `Filters.ColumnContainsMembers` | lamd/mdlist.py:155-158 | corrected filter: succeeds iff the column is present (otherwise KeyError); one definite entry per row, true iff the cell equals the value or is a list with an element equal to it |
| `Filters.ColumnContainsMembersSelects` | lamd/mdlist.py:155-158 | corrected filter: it selects every row `columnis` selects and every list cell holding the value; it drops a list cell iff neither the cell nor any element equals the value; it agrees with `columnis` on non-list cells |
| `Filters.ListCellMatchedWhenCorrected` | lamd/mdlist.py:158 | corrected filter: the supervisor list `["ndl21"]` matches `"ndl21"` |
| `Filters.CurrentFormerDisjoint` | lamd/mdlist.py:137-149 | without a flag column, no row is both current and former |
| `Filters.FlaggedRowBothCurrentAndFormer` | lamd/mdlist.py:141-149 | a row that is flagged current but has ended is both current and former |
| `Filters.NotYetStartedInNeither` | lamd/mdlist.py:137-149 | a row that starts after today is neither current nor former |
| `Cleaning.CleanedHasNoMissing` | lamd/mdlist.py:520-530 | the cleaned record has no missing entry at any depth of dict nesting |
| `Cleaning.Cleaned` | lamd/mdlist.py:520-530 | exactly the non-missing keys stay, no value kept is missing, and a value is a dict iff it was one |
| `Cleaning.CleanedKeeps` | lamd/mdlist.py:520-530 | exactly the non-missing keys stay; non-dict values are kept and dict values are cleaned in turn |
| `Cleaning.CleanedKeepsClean` | lamd/mdlist.py:520-530 | a record without missing entries is returned unchanged |
| `Cleaning.CleanedIdempotent` | lamd/mdlist.py:520-530 | cleaning twice is cleaning once |
| `Cleaning.RemoveNan` | lamd/mdlist.py:520-530 | the copy-and-delete loop returns the cleaned record; the input, a value, is not modified |
| `Registry.StageItems` | lamd/mdlist.py:469-472 | an absent stage has no calls; a single call becomes a one-element list |
| `Registry.Steps` | lamd/mdlist.py:468-474 | the steps are the preprocessors, then the augmentors, then the sorters; the sorters end the list |
| `Registry.UnlistedChoices` | lamd/mdlist.py:437-440 | every registry category is an accepted choice; the accepted categories without an entry are exactly extalks, exstudents, expdras, journal, book and conference |
| `Registry.EveryListSortsLast` | lamd/mdlist.py:161-428 | every registry entry has one `descending` sorter, and it is the last step run |
| `Registry.DerivedEntries` | lamd/mdlist.py:386-412 | `exgrants` and `exteaching` are `grants` and `teaching` with the filter replaced by `former("end")`; `pdras` is `students` apart from its filter and its template `listpdra` |
| `Executor.RunStepsLast` | lamd/mdlist.py:468-474 | a run that passes ends with the last step applied to what the earlier steps left |
| `Executor.StepEffect` | lamd/mdlist.py:27-130 | `addmonth` and `addyear` add their column when they pass; every other step keeps the columns; a sorter passes iff every key is a column |
| `Executor.Apply` | lamd/mdlist.py:474 | one call updates the frame as `StepEffect` specifies |
| `Executor.StepKeepsRowCount` | lamd/mdlist.py:27-130 | no step adds or drops rows |
| `Executor.RunStepsKeepsRowCount` | lamd/mdlist.py:468-474 | a run of steps that raises nothing keeps the row count |
| `Executor.FilterMask` | lamd/mdlist.py:481 | one filter's mask has one entry per row |
| `Executor.AndMasks` | lamd/mdlist.py:482 | `filt & newfilt` is the entrywise Kleene AND |
| `Executor.CombinedMask` | lamd/mdlist.py:475-482 | the combined mask has one entry per row |
| `Executor.Masks` | lamd/mdlist.py:480-481 | one mask per filter, in filter order, each with one entry per row |
| `Executor.Conjoin` | lamd/mdlist.py:475-482 | and'ing masks onto an all-true mask keeps one entry per row |
| `Executor.ConjoinOk` | lamd/mdlist.py:475-482 | the conjunction exists iff no mask is an error |
| `Executor.ConjoinYes` | lamd/mdlist.py:475-482 | an entry of the conjunction is true iff it is true in every mask |
| `Executor.ConjoinFirstError` | lamd/mdlist.py:480-482 | a failed conjunction carries the error of the first mask that is an error |
| `Executor.CombinedMaskIsConjoin` | lamd/mdlist.py:475-482 | the filter loop's mask is the conjunction of the filters' masks |
| `Executor.CombinedMaskIsConjunction` | lamd/mdlist.py:475-482 | with no filter the mask is all true; the mask succeeds iff every filter does; a row is true iff every filter marks it true |
| `Executor.CombinedMaskFirstError` | lamd/mdlist.py:480-482 | when the filters raise, the error is that of the first filter that raises, and every filter before it succeeds |
| `Executor.CombinedMaskFailsOnward` | lamd/mdlist.py:480-482 | once a filter raises, the later filters do not change the error |
| `Executor.Selected` | lamd/mdlist.py:485-486 | exactly the rows at the true positions of the mask, in index order (missing and false entries are skipped) |
| `Executor.YesIndices` | lamd/mdlist.py:485-486 | the positions marked true, strictly increasing |
| `Executor.YesIndicesComplete` | lamd/mdlist.py:485-486 | every position marked true is among them |
| `Executor.SelectedKeepsOrder` | lamd/mdlist.py:485-486 | selecting from a sorted frame gives sorted rows |
| `Executor.JoinNewlines` | lamd/mdlist.py:487-489 | each listed row adds at least its newline; the text ends with a newline and is empty iff no row is listed |
| `Executor.Listed` | lamd/mdlist.py:467-486 | a step that raises gives its error; then a filter that raises gives its error; otherwise the list holds exactly the rows at the true positions of the combined mask, once each and in frame order |
| `Executor.Execute` | lamd/mdlist.py:467-489 | an unknown category gives empty text; when the listing raises, that error is the result; otherwise the text is the joined rendered fragments of the listed rows |
| `Executor.RunAll` | lamd/mdlist.py:468-474 | the stage loops update the frame as `RunSteps` specifies |
| `Executor.Mask` | lamd/mdlist.py:475-482 | the filter loop computes `CombinedMask` |
| `Executor.Render` | lamd/mdlist.py:484-489 | the output loop builds the cleaned, rendered, newline-terminated fragments of the selected rows, in frame order |
| `Executor.Run` | lamd/mdlist.py:463-489 | `main` from the loaded records to the text gives `Execute` |
| `Executor.SortedThenSelected` | lamd/mdlist.py:474-489 | with a single descending sorter, the listed rows are in that sort order |
| `Executor.PreparedIsSorted` | lamd/mdlist.py:468-474 | a pipeline whose single sorter is `descending` leaves the frame in that order |
| `Executor.ListedInSortedOrder` | lamd/mdlist.py:467-489 | every registry category lists its rows in the order of its sort keys, because filtering comes after sorting |
| `Executor.SelectedPassEveryFilter` | lamd/mdlist.py:475-486 | every listed row is a row of the frame that every filter's mask marks true, and no more rows are listed than the frame holds |
| `Executor.ListedAtMostRecords` | lamd/mdlist.py:463-489 | a category never lists more rows than there are records |
| `Scenarios.GrantStartYear` | lamd/mdlist.py:64-88 | `convert_year_iso` turns the start year 2021 into 1 January 2021 |
| `Scenarios.GrantEndYear` | lamd/mdlist.py:64-88 | `convert_year_iso` with month 12 and day 31 turns the end year 2023 into 31 December 2023 |
| `Scenarios.DatetimeColumnUnchanged` | lamd/mdlist.py:27-34 | converting a column of missing cells and in-range timestamps to datetimes changes nothing |
| `Scenarios.GrantStepsRun` | lamd/mdlist.py:244-288 | the grant steps turn a grant recorded as 2021-2023 into one dated 1 January 2021 to 31 December 2023 |
| `Scenarios.GrantMasks` | lamd/mdlist.py:137-149 | on 1 January 2024 that grant is not current and is former |
| `Scenarios.GrantsListsNothing` | lamd/mdlist.py:244-288 | `grants` lists nothing for that grant on 1 January 2024 |
| `Scenarios.ExGrantsListsGrant` | lamd/mdlist.py:386-392 | `exgrants` lists that grant, dated, on 1 January 2024 |
| `Scenarios.FinishedGrantMovesToExGrants` | lamd/mdlist.py:244-392 | on 1 January 2024 a grant recorded as 2021-2023 is not listed by `grants` and is listed by `exgrants` |
| `Scenarios.MeetingPrepared` | lamd/mdlist.py:314-328 | the meeting steps leave an undated meeting unchanged |
| `Scenarios.MeetingMask` | lamd/mdlist.py:133-135 | `recent("year")` on a frame without a year column raises KeyError("year") |
| `Scenarios.MeetingsListedNeedYear` | lamd/mdlist.py:314-336 | the listing for `meetings` raises KeyError("year") on records without a year |
| `Scenarios.MeetingsNeedYear` | lamd/mdlist.py:314-336 | `meetings` on records without a year raises KeyError("year") |
| `Scenarios.UnlistedCategoryPrintsNothing` | lamd/mdlist.py:467 | an accepted category without a registry entry renders empty text |
| `PyText.ParseShowInt` | lamd/mdlist.py:74 | `int(str(i)) == i` for every integer |
| `Values.NaTruth` | lamd/mdlist.py:106 | `pd.isna` is true exactly on the missing value for every non-list cell; a list of other than one element raises ValueError in a truth test |
| `Values.PyEq` | lamd/mdlist.py:153 | Python `==` on cells: a missing value equals nothing; bools compare with integers as 0 and 1; identical non-collection values are equal; a string equals no non-string |
| `PyText.IsoRoundTrip` | lamd/mdlist.py:33 | an ISO-formatted day parses back to itself |

## Left out

- Command-line parsing and its choice validation, the template environment, file loading, writing the output and logging are not modelled. Rendering is a parameter `render(template, record)`, and its errors are not modelled.
- `makecv.py` and the other modules of the repository are not part of this model.
- The date `datetime.now()` is a parameter `now`.
- The text Python's `str` gives a list or a dict is a parameter `repr`.
- `Cells.ToDatetime`: only ISO `YYYY-MM-DD` strings and the NaT spellings are parsed. Other free-form date strings raise ValueError in the model. Integers also raise ValueError, whereas pandas reads them as nanoseconds since the epoch.
- `Cells.ToInt`: `pd.to_numeric` is modelled only on plain integer text. Text it also reads (surrounding whitespace, decimals, exponents, infinities, and NaN spellings such as `"nan"` or `""`) raises ValueError in the model. Floats and 64-bit overflow in `Int64` are not modelled.
- `Cells.YearToIso`: the non-ASCII whitespace and non-ASCII digits that Python's `int()` accepts are not modelled; ASCII whitespace, the sign and underscore grouping are. The interpreter's limit on the digits `int()` converts from text (4300 by default since Python 3.11) is not modelled either: a longer year string raises ValueError in the program, which `except TypeError` does not catch, while the model reads the number and `datetime` then raises OverflowError.
- Floating-point cells are not modelled. `pd.DataFrame(records)` stores an integer column that has a missing cell as `float64`, so such a column's cells, which the model holds as `Int`, are floats in the program: a `year` reaches the template as `2021.0`, and `convert_year_iso` meets a `float` there and raises TypeError where the model converts the integer.
- `Values.Value`: the model has one missing value. It does not separate `None`, NaN, `pd.NA` and NaT. So the AttributeError that `pd.NA == value` would raise in `columncontains`, and the `x is not None` test in `addmonth`, cannot be told apart from the NaN cases.
- `Values.Value`: timestamps carry no time of day; every `Stamp` is at midnight. Records can hold a `datetime.datetime` with a time, and `current` and `former` compare against midnight today. So a row that starts later today is not yet current in the program, but is current in the model. Rows of the same day sort by their times in the program, but tie in the model, where they keep their input order.
- `Sorters.SortValues`: the model orders cells of different kinds by a fixed rank, where pandas may raise TypeError. Rows with equal keys keep their input order in the model (`Sorters.SortStable`). pandas' single-key sort uses quicksort, which is not stable, so its tie order may differ; its multi-key sort is a stable lexsort and agrees.
- `Filters.Current`: a flag column that pandas holds as `int64` is combined with a bitwise `&`, so `2 & True` is 0. The model uses Python truthiness for every flag column.
- `Values.NaTruth`: `pd.isna` on a list follows NumPy's truth of a one-element array. The deprecation behaviour of empty arrays is not modelled.
- Index labels are not modelled. Rows are a sequence, so `df.loc[index, ...]` in the augmentors never meets a duplicate label.
- The commented-out legacy branches of `main` are not modelled.

## Findings

| source | as written | input that shows it | evidently intended | confidence | as-written member | corrected member |
|---|---|---|---|---|---|---|
| lamd/mdlist.py:155-158 | for a list cell, `x==value` is the plain bool `False`, so the membership branch never fires and `columncontains` is `columnis` | a student whose `supervisor` is the list `["ndl21"]`: `students` and `pdras` drop the row | a row is kept when its list of supervisors contains the value, as the docstring says | not executed; medium, since loaded records hold Python lists and not arrays | `Filters.ColumnContains` with `Filters.ListCellNotMatched` and `Filters.ColumnContainsIsColumnIs` | `Filters.ColumnContainsMembers` with `Filters.ColumnContainsMembersSelects` and `Filters.ListCellMatchedWhenCorrected` |

The registry's `ColumnContains` filter keeps the as-written behaviour. That
way the listings in `Executor` are the ones the program prints. The
corrected filter stands beside it with its own proved properties.
