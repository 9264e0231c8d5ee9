# Hospital dashboard: column cleaning and revenue range

A Dafny model of the data preparation done by the hospital utilization
dashboard (`dashboard/app.py`) before any widget is drawn:

- `clean_dataframe` walks over the columns of the loaded table. For each
  textual (object-dtype) column it deletes every `$` and `,` from each cell,
  turns a cell that is then empty into a missing value, and coerces the
  column to numbers with `pd.to_numeric(..., errors="ignore")`. The column
  becomes numeric only when every non-missing cell parses; otherwise it
  stays the stripped text. Other columns are untouched. The frame is changed
  in place and returned.
- `rev_rng` is the pair (minimum, maximum) of the cleaned
  "Total Operating Rev" column, missing values ignored. It sets the revenue
  slider's bounds, and the slider starts with that whole range selected.

Files:

- `optional.dfy`: module `Optional`. `Option` is the missing-value marker.
  `Result` carries an error in place of an exception.
- `numerals.dfy`: module `Numerals`. The numeric parse used by the coercion:
  an optional sign, then decimal digits with at most one point. It is proved
  to accept exactly that grammar, and proved to read back every integer
  written in decimal.
- `cleaning.dfy`: module `Cleaning`. Symbol stripping, empty-to-missing,
  all-or-nothing coercion, and the `DataFrame` class whose `columns` array
  `CleanDataFrame` rewrites in place, one column per loop iteration.
- `revenue.dfy`: module `Revenue`. Minimum, maximum, the revenue range and
  the initial slider, plus the start-up sequence that cleans the frame and
  builds the slider.

Only `$` and `,` are removed: the pattern `[\$,]` on dashboard/app.py:21
leaves `%` in place, so a column such as "5%" stays textual
(`Cleaning.PercentColumnStaysText`).

Numbers are exact rationals (Dafny `real`), not floating point.

## Model

| member | source | states |
|---|---|---|
| `Numerals.ParseNumber` | dashboard/app.py:24 | a cell parses only if it is non-empty and made of digits, points and signs; a leading `-` gives a non-positive value, otherwise the value is non-negative |
| `Numerals.ParseNumberAccepts` | dashboard/app.py:24 | the parse succeeds exactly on the numeral grammar: an optional sign, then digits and points only, at most one point, at least one digit |
| `Numerals.ParseShowInt` | dashboard/app.py:24 | every integer written in decimal parses back to that integer |
| `Numerals.SymbolBlocksParse` | dashboard/app.py:21-24 | a text holding `$` or `,` is never a number, which is why the symbols are stripped before coercion |
| `Cleaning.Strip` | dashboard/app.py:21 | the result holds no `$` and no `,` and is no longer than the input |
| `Cleaning.Keep` | dashboard/app.py:21 | a single character is dropped exactly when it is `$` or `,`, and is otherwise kept as itself |
| `Cleaning.StripAppend` | dashboard/app.py:21 | stripping works character by character: stripping a concatenation concatenates the stripped parts, so the kept characters keep their order |
| `Cleaning.StripCounts` | dashboard/app.py:21 | every character other than `$` and `,` occurs as often after stripping as before, and those two occur zero times |
| `Cleaning.StripFixes` | dashboard/app.py:21 | a string is unchanged by stripping exactly when it holds no `$` and no `,` |
| `Cleaning.StripIdempotent` | dashboard/app.py:21 | stripping an already stripped string returns it unchanged |
| `Cleaning.StripCell` | dashboard/app.py:21 | a missing cell stays missing; a text cell becomes that text with every `$` and `,` deleted |
| `Cleaning.EmptyToMissing` | dashboard/app.py:22 | the empty string becomes missing, and every other cell is kept as it was |
| `Cleaning.CleanCell` | dashboard/app.py:20-22 | a cell becomes missing exactly when it was missing or is empty after stripping; otherwise it is the stripped text, non-empty and symbol-free |
| `Cleaning.CleanCells` | dashboard/app.py:19-23 | the column keeps its length and each cell is cleaned on its own |
| `Cleaning.CleanCellIdempotent` | dashboard/app.py:20-22 | a cleaned cell is clean, and cleaning it again changes nothing |
| `Cleaning.ParseCells` | dashboard/app.py:24 | the parse of a whole column succeeds exactly when every non-missing cell is a numeral; it then has one value per cell, each the parse of that cell, missing for missing |
| `Cleaning.ToNumeric` | dashboard/app.py:24 | a non-textual column is returned as is; a textual column becomes numeric exactly when every non-missing cell parses, with cell i the parse of text cell i, and otherwise is returned unchanged; the length is kept |
| `Cleaning.CleanColumn` | dashboard/app.py:18-24 | one loop iteration: non-textual columns are unchanged; a textual column becomes numeric exactly when every cleaned cell parses, and then cell i is the parse of cleaned cell i; otherwise cell i is cleaned cell i; the length is kept |
| `Cleaning.CleanTextIsClean` | dashboard/app.py:18-24 | no cell of a column that stays textual contains `$` or `,` or is the empty string |
| `Cleaning.CleanColumnIdempotent` | dashboard/app.py:18-24 | cleaning a cleaned column changes nothing |
| `Cleaning.CurrencyColumnBecomesNumeric` | dashboard/app.py:18-24 | the column "$1,000", "$2,500", "" becomes numeric 1000, 2500, missing |
| `Cleaning.MixedColumnStaysText` | dashboard/app.py:18-24 | the column "$1,000", "N/A" stays textual as "1000", "N/A": there is no per-cell fallback |
| `Cleaning.PercentColumnStaysText` | dashboard/app.py:21-24 | `%` is not stripped, so "5%" stays textual |
| `Cleaning.DataFrame.constructor` | dashboard/app.py:32 | a loaded frame: distinct column names, one per column, and every column with the same number of rows |
| `Cleaning.CleanColumnAt` | dashboard/app.py:18-24 | one loop iteration in place: column i becomes the cleaning of its old value, after the two assignments of lines 19 and 24, and every other column is unchanged |
| `Cleaning.CleanDataFrame` | dashboard/app.py:16-25 | the same frame is returned, with the same names and row count and still well formed; column k becomes the cleaning of the old column k alone, so the columns are handled independently |
| `Revenue.IndexOf` | dashboard/app.py:36-37 | the lookup of a column by name finds the first column of that name, and fails exactly when there is none |
| `Revenue.MinOf` | dashboard/app.py:36 | the minimum ignores missing cells: it is absent exactly when every cell is missing, and otherwise it occurs in the column and is at most every value |
| `Revenue.MaxOf` | dashboard/app.py:37 | the maximum ignores missing cells: it is absent exactly when every cell is missing, and otherwise it occurs in the column and is at least every value |
| `Revenue.ColumnRange` | dashboard/app.py:35-38 | for a numeric column with a value, lo <= hi, both occur, lo is at most and hi at least every value; a textual column and an all-missing column give the matching error |
| `Revenue.RevenueRange` | dashboard/app.py:35-38 | fails with a missing-column error exactly when no column is called "Total Operating Rev"; when that column exists, the outcome (range or error) is that column's `ColumnRange` |
| `Revenue.InitialSlider` | dashboard/app.py:46-52 | the slider's bounds are the range's ends, its initial selection is exactly the span between its bounds, and for an ordered range that selection is valid |
| `Revenue.InitialSliderSelectsAll` | dashboard/app.py:35-52 | the initial slider selects every revenue in the cleaned column, and no selection within the same bounds selects more |
| `Revenue.InitDashboard` | dashboard/app.py:33-52 | after start-up every column is cleaned; the slider fails exactly when the range fails, with the same error; otherwise the slider is built from the range and is well formed |

## Left out

- Reading the CSV file and building its path (`dashboard/app.py:30-32`): file I/O. A loaded frame is a `DataFrame` given by the caller.
- The page, sidebar and slider widgets (`dashboard/app.py:43-53`), the reactive runtime, plotly and the icon library (`dashboard/app.py:4-11`): user interface and charting. Only the slider's bounds and initial value are modelled.
- Numerals.ParseNumber: covers plain decimal numerals only. Exponents, `inf`, `nan`, surrounding whitespace and the dtype promotion of `pd.to_numeric` are not modelled. A column using them counts as non-numeric in the model.
- Cleaning.EmptyToMissing: models the inline comment's intent, that an empty string becomes missing. In some pandas versions `.replace("", None)` fills the empty cell with the value above it instead. That behaviour is not modelled.
- Column types: every non-object dtype (integer, float, boolean) is a `Numeric` column. Cleaning leaves such columns alone, so their exact type does not matter.
- Revenue.ColumnRange: when the revenue column stays textual, pandas takes the lexicographic minimum and maximum of the strings, or raises when missing values are mixed in. The model reports `NotNumeric` instead.
- Revenue.ColumnRange: for an all-missing column pandas returns NaN for both ends. The model reports `NoValues` instead.
- Floating point: numbers are exact rationals, so rounding is not modelled.
- Filtering by year and revenue, and the summary statistics: that logic is not in `dashboard/app.py`, so it is not part of this model.
