# Roster reconciliation, modelled in Dafny

The system merges staff rosters held as spreadsheets. It has two front ends, a desktop one (`GUI.py`) and a web one (`gradio.py`), which carry the same logic almost line for line. That logic is modelled once, in module `Reconcile` (`reconcile.dfy`).

- **A merge run (`process_files`)** works in four steps:
  1. It reads a *baseline* roster and any number of *new* rosters.
  2. For every row of every table, it derives two columns from the 18-character resident identity number:
     - the birth month, printed as `YYYY年MM月`;
     - the age on the current date.
  3. It keeps the new rows whose identity number is not in the baseline. Then it writes the output company by company, following a *company-order* list. Each company contributes its baseline rows, then its kept new rows.
  4. It renumbers the serial column 1..n and writes the sheet. In the sheet, new rows get a red font and rows with an empty derived cell get a green fill.
- **An age update (`update_age_file`)** re-derives the two columns of one roster.

How the model is built:

- **Rows** are the datatype `Row`. The identity number is `Id`: a text cell, or `Missing` for an empty cell. Every column other than serial, ID, company and the two derived cells is carried as opaque text.
- **The clock** is the parameter `today`.
- **Parsing the ID and computing the age** are pure functions: `ExtractBirthdate` and `Age`.
- **One whole run is specified by `Process`.** The imperative code is also modelled statement by statement:
  - a data frame whose columns are assigned in place is the class `Frame`;
  - the accumulating loops are `DeriveNewFiles` and `MergeByCompany`;
  - the openpyxl sheet whose cells are restyled one by one is the class `Sheet`, together with the nested loop `Highlight`.
- **Each method is proved against the corresponding function.** `ProcessFiles` returns exactly `Process(...)`, and the sheet it styles shows exactly `CellStyle` of that result. The lemmas then state what the run promises.

Four behaviours of the code that are easy to misread:

- **Baseline rows are not copied verbatim.** Their two derived cells are recomputed and their serial is renumbered. The rows of a company missing from the order list are dropped; see `MergedMembers`.
- **The output length is not always the baseline count plus the new-row count.** That sum holds when the company of every baseline row and every kept new row is listed exactly once; see `ProcessRowCount`. In general a row appears once per listing of its company; see `MergedCount`.
- **A row with an empty ID is never red, even when it was added.** The red test uses `==` membership, under which an empty (NaN) cell equals nothing; see `IsNewId` and `ProcessRedRows`. The new-row filter, by contrast, uses `isin`, which matches an empty baseline ID to an empty new ID.
- **The code assigns columns to its tables in place.** `Frame` models this.

## Model

| member | source | states |
|---|---|---|
| Reconcile.ExtractBirthdate | GUI.py:10-16 | `extract_birthdate_from_id`: no date for an ID that is not an 18-character text, the date its fields spell, or the failure `datetime` raises. `ExtractFailsIff`, `ExtractRoundTrip` and `ExtractSound` characterise it. |
| Reconcile.Age | GUI.py:18-20 | `calculate_age` with `today` passed in: the year difference, less one when today's (month, day) comes before the birth (month, day). `AgeIsCompletedYears` characterises it. |
| Reconcile.BirthColumn | GUI.py:30-31 | The birth-month cell: `BirthMonthText` of the date, or `""` without one. `ExtractRoundTrip` and `DeriveWithoutIdLength` state its values. |
| Reconcile.AgeColumn | GUI.py:32-33 | The age cell: `Age` on `today`, or blank without a date. `DerivedCellsEmptyIff` states when it is blank. |
| Reconcile.DeriveRow | GUI.py:30-33 | One row with both derived cells assigned from its ID, or the failure. `DeriveWithoutIdLength` and `DerivedColumnsSpec` state what it does. |
| Reconcile.DerivedColumns | GUI.py:30-33 | Both column assignments over a whole table, failing on the first bad ID. `DerivedColumnsSpec` characterises it. |
| Reconcile.Concat | GUI.py:52 | `pd.concat(new_df_list)`: the new rosters' rows one after another. `ConcatAppend` and `ConcatBad` state its properties. |
| Reconcile.NewUnique | GUI.py:55 | `combined[~combined['身份证号'].isin(baseline IDs)]`: the new rows whose ID is not a baseline ID, in order. `NewUniqueCount` and `NewUniqueAppend` characterise it. |
| Reconcile.Group | GUI.py:63 | `df[df['单位'] == company]`: the rows of one company, in table order. `GroupCount` and `GroupAppend` characterise it. |
| Reconcile.Merged | GUI.py:58-69 | The accumulated `final_df` after a prefix of the order list. `MergedByCompany`, `MergedCount`, `MergedMembers` and `BaselineBeforeNew` characterise it. |
| Reconcile.IsNewId | GUI.py:89 | `x in new_unique_df['身份证号'].values`: a text ID among the kept rows' IDs; a missing ID matches nothing. `ProcessRedRows` states the result per output row. |
| Reconcile.RowStyle | GUI.py:89-90 | The two flags of one output row: red for a new ID, green for an empty derived cell. `ProcessRedRows` and `ProcessGreenRows` characterise them. |
| Reconcile.Process | GUI.py:22-103 | One whole merge run: derive, filter, merge by company, renumber, style. `ProcessFailsIff`, `ProcessSerials`, `ProcessRowOrigin`, `ProcessRedRows`, `ProcessGreenRows` and `ProcessRowCount` characterise it. |
| Reconcile.PadDecimalOfDigits | GUI.py:31 | A field of digits read as a number and printed back zero-padded to its own width gives the same digits. |
| Reconcile.BirthMonthText | GUI.py:31 | The birth-month text always has 8 characters: the zero-padded 4-digit year, 年, the zero-padded 2-digit month, 月. |
| Reconcile.ExtractWithoutIdLength | GUI.py:10-16 | An ID that is not a text of exactly 18 characters gives no birth date, and no failure. |
| Reconcile.DeriveWithoutIdLength | GUI.py:30-33 | For such an ID, both derived cells become empty and the rest of the row is unchanged. |
| Reconcile.ExtractFailsIff | GUI.py:11-15 | Extraction fails exactly when the ID has 18 characters and its year, month and day fields are not all digits or do not form a valid date. The failure is `InvalidBirthdate`. |
| Reconcile.ExtractRoundTrip | GUI.py:12-15 | For an 18-character ID whose fields spell a valid date, extraction gives that date. Its birth-month text is `id[6:10] + "年" + id[10:12] + "月"`. |
| Reconcile.ExtractSound | GUI.py:12-15 | Every extracted date is valid, comes from the ID's fields, and prints back as those fields. Characters outside positions 6..13, including the check character, play no part. |
| Reconcile.LeapDayAccepted | GUI.py:12-15 | `…20000229…` gives 29 February 2000. |
| Reconcile.LeapDayOfCenturyRejected | GUI.py:12-15 | `…19000229…` fails, because 1900 is not a leap year. |
| Reconcile.MonthThirteenRejected | GUI.py:12-15 | `…19901301…` fails: there is no month 13. |
| Reconcile.AgeIsCompletedYears | GUI.py:18-20 | The age is the number of the last birthday anniversary reached by `today`: that anniversary is reached and the next one is not. The age is the only such number. |
| Reconcile.AgeOnBirthday | GUI.py:20 | The age on the birth date itself is 0. |
| Reconcile.AgeOneYearLater | GUI.py:20 | Moving `today` one year on, same month and day, adds exactly 1 to the age. |
| Reconcile.AgeMonotone | GUI.py:20 | The age never decreases as `today` advances. |
| Reconcile.AgeSign | GUI.py:18-20 | The age is at least 0 exactly when the birth date is on or before `today`. A future birth date gives a negative age, because the code has no guard. |
| Reconcile.DerivedColumnsSpec | GUI.py:30-33 | Deriving a table's columns fails exactly when some row's ID fails extraction. Otherwise the result has the same rows in the same order, each with only its two derived cells reassigned from its own ID. |
| Reconcile.DerivedColumnsAppend | GUI.py:38-52 | Deriving each table and concatenating the results equals deriving the concatenation. Any failure fails the whole. |
| Reconcile.DerivedColumnsIdempotent | GUI.py:111-114 | Re-deriving an already derived table changes nothing. |
| Reconcile.Frame.AssignDerivedColumns | GUI.py:30-33 | The row-by-row column assignment succeeds exactly when `DerivedColumnsSpec` says the derivation does. On success the table holds the derived rows. On failure it is unchanged. |
| Reconcile.UpdateAgeFile | GUI.py:105-114 | `update_age_file` gives exactly the derived table or its failure. Its rows, their order and all other columns are kept. |
| Reconcile.DerivedIds | GUI.py:29-33 | Deriving the columns leaves the set of IDs unchanged. |
| Reconcile.NewUniqueCount | GUI.py:55 | A new row is kept as many times as it occurs in the concatenated new rosters if its ID is not a baseline ID, and never otherwise. Duplicates are not removed. |
| Reconcile.NewUniqueMembers | GUI.py:55 | A row is kept exactly when it is a new row whose ID is not among the baseline IDs. |
| Reconcile.NewUniqueAppend | GUI.py:52-55 | The filter preserves relative order: it distributes over concatenating the new rosters. |
| Reconcile.NewUniqueDisjoint | GUI.py:55 | The IDs of the kept rows and the baseline IDs are disjoint. |
| Reconcile.NewUniqueOfDerived | gradio.py:35-47 | Filtering and then deriving equals deriving and then filtering. The filter never depends on the derived cells. |
| Reconcile.GroupCount | GUI.py:63 | A company's selection holds each of that company's rows as often as the table does, and no other rows. |
| Reconcile.GroupAppend | GUI.py:63 | Selecting a company preserves table order: it distributes over concatenation. |
| Reconcile.GroupOfDerived | gradio.py:55-58 | Selecting a company never depends on the derived cells. |
| Reconcile.MergeByCompany | GUI.py:58-69 | The loop over the company order builds exactly `Merged`: for each entry in turn, that company's baseline rows, then its new rows. |
| Reconcile.MergedAppend | gradio.py:53-61 | Processing the order list in two parts gives the two outputs one after the other. Blocks appear in company-order order. |
| Reconcile.MergedByCompany | gradio.py:53-61 | The output rows of one company are its baseline rows, in baseline order, then its new rows, in their order. They appear once per listing of the company, and not at all if it is unlisted. |
| Reconcile.MergedCount | gradio.py:53-61 | A row occurs in the output as often as it occurs in the baseline and new rows together, times the number of times its company is listed. |
| Reconcile.MergedMembers | gradio.py:53-61 | A row is in the output exactly when its company is listed and it is a baseline row or a new row. |
| Reconcile.MergedIsPermutation | gradio.py:53-61 | When every row's company is listed exactly once, the output is a permutation of the baseline rows plus the new rows. Its length is the sum of theirs. |
| Reconcile.MergedLength | gradio.py:53-61 | The output length is the sum, over the entries of the order list, of that company's baseline and new rows. |
| Reconcile.BaselineBeforeNew | gradio.py:61 | Within the group of a company listed once, no baseline row follows a newly added row. |
| Reconcile.Renumbered | GUI.py:72 | Renumbering keeps the length and gives row i the serial first + i, changing nothing else. |
| Reconcile.Frame.RenumberSerial | GUI.py:72 | The in-place renumbering leaves the table with serials 1..n and every other field unchanged. |
| Reconcile.Sheet.SetRedFont | GUI.py:93-94 | Setting a cell's font red keeps its fill and leaves every other cell alone. |
| Reconcile.Sheet.SetGreenFill | GUI.py:95-96 | Filling a cell green keeps its font and leaves every other cell alone. |
| Reconcile.Highlight | GUI.py:88-96 | Every cell in sheet rows 2..n+1 and columns 1..width gets its row's red font when the row's ID is new, and its green fill when a derived cell is empty. The two are added independently to what the cell had. No other cell changes. |
| Reconcile.DeriveNewFiles | GUI.py:36-52 | Deriving the new rosters one by one and concatenating succeeds exactly when deriving their concatenation does, and gives the same rows. |
| Reconcile.ProcessFiles | GUI.py:22-103 | A run gives exactly `Process`. It writes a styled sheet exactly when it succeeds. Every cell of that sheet has the style the workbook assigns it, and cells outside the data are plain. |
| Reconcile.MergeWorkbook | GUI.py:29-72 | Assigning each table's columns in place, filtering, merging company by company and renumbering in place gives exactly `Process`. On success it also gives the IDs whose rows the red test marks. |
| Reconcile.ConcatBad | GUI.py:38-52 | The concatenated new rosters hold a bad ID exactly when one of the rosters does. |
| Reconcile.ProcessFailsIff | GUI.py:29-55 | A run fails exactly when a row of the baseline or of any new roster has an ID that fails extraction, or when there are no new rosters. This holds even for rows later filtered out or dropped. |
| Reconcile.ImpossibleDateAborts | GUI.py:29-46 | An 18-character ID of digits that spell an impossible date, anywhere in the inputs, makes the run fail with `InvalidBirthdate` before anything is written. |
| Reconcile.ProcessSerials | gradio.py:64 | In the output, row i has serial i + 1. |
| Reconcile.ProcessRowOrigin | gradio.py:47-64 | Each output row is a derived baseline row or a derived kept new row of a listed company, with only its serial changed. |
| Reconcile.ProcessRedRows | gradio.py:81-86 | An output row is red exactly when it has an ID and that ID is not a baseline ID. No baseline row is ever red. |
| Reconcile.DerivedCellsEmptyIff | gradio.py:82 | For a derived row, a derived cell is empty exactly when the ID is not an 18-character text. |
| Reconcile.ProcessGreenRows | gradio.py:82-88 | An output row is green exactly when its ID is not an 18-character text. |
| Reconcile.ProcessRowCount | gradio.py:53-61 | When every baseline row's and every kept new row's company is listed exactly once, the output has \|baseline\| + \|kept new rows\| rows. New rows dropped by the filter need not have a listed company. |

## Left out

- **User interface.** tkinter and gradio widgets, file dialogs, message boxes, the clock refresh and `get_current_time`. These are UI and event-loop code.
- **Spreadsheet input and output.**
  - The model leaves out reading and writing through pandas and openpyxl, the fixed sheet name, the order-list column, and the timestamped file names.
  - Tables are sequences of `Row`. The written sheet is a map from (row, column) to two style flags.
  - The number of columns a row spans in the sheet is the parameter `width`.
  - Concatenating tables whose column sets differ is not modelled; all rows share one shape.
- **Paths.** The desktop front end strips each path, checks that it exists, and stops early on a missing file (GUI.py:38-49). The web front end reads `file.name`. Both are file-system behaviour outside the model.
- **The system clock.** `datetime.today()` is the parameter `today`.
- **Exceptions.** The processing order of the exceptions is abstracted away. A run either succeeds or fails with one of two error kinds: a bad birth date, or no new files (`pd.concat` of an empty list raises). The message texts and the desktop front end's catch-all handler are not modelled.
- ExtractBirthdate: `int()` also accepts surrounding whitespace, a sign, underscores between digits and non-ASCII decimal digits. The model accepts only ASCII digits and treats everything else as a failure. ASCII digits are what an identity number holds.
- BirthMonthText: the year is always zero-padded to four digits. Whether `strftime('%Y')` pads years below 1000 depends on the platform, so for those years the model and the code may print differently.
- **Missing values.** `Missing` stands for pandas' NaN in the ID column. `isin` treats NaN as equal to NaN, and `==` membership treats it as equal to nothing; the model keeps both behaviours. Missing values in other columns are not modelled; derived cells are always text or a number.
- Frame.AssignDerivedColumns: the code fills the birth-month column and then the age column in two passes over the table. The model does both in one pass. Both passes have the same failure condition and touch different columns, so the resulting table is the same.
