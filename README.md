# Real Intent to Rechat converter — a Dafny model

This project models the conversion step of the Real Intent to Rechat
converter (`app.py`). A Real Intent lead-export table becomes a table that
Realty Juggler / Rechat can import. The model covers:

- the fixed column mapping: sixteen Real Intent columns, each renamed to an
  import column, in the dictionary's declared order (`mappings.dfy`);
- the required-column check. It builds the list of missing columns: the
  mapping keys the upload lacks, then `first_name` and `last_name` once more
  each when they are absent. Conversion runs only when that list is empty
  (`validation.dfy`);
- the frame operations used on success: keep the mapped columns in mapping
  order and rename them, replace a column's cells, add a column at the right
  (`frames.dfy`);
- the failure message: a fixed sentence, the missing names joined with
  `", "`, and a full stop (`messages.dfy`);
- one conversion, `Converter.Convert`. It appends to the missing list and,
  when the list is empty, calls `Converter.Reshape`. That method updates the
  frame column by column: it labels `Notes 1` with `"Household Income: "` and
  `Notes 2` with `"Household Net Worth: "`, and adds a constant
  `Referred By = "Real Intent"` column (`converter.dfy`). `Reshape` takes the
  mapping as a parameter; `Convert` passes the fixed mapping.

A parsed table is a `Frame`: an ordered header of unique names, and rows that
map every header name to its cell text. The frame is updated step by step by
reassigning a local variable, as the source reassigns `df` and its columns.

## Model

| member | source | states |
|---|---|---|
| `Mappings.MappingIsInjective` | app.py:5-22 | The mapping has 16 entries; no two source columns are alike, and no two are renamed to the same import column. |
| `Mappings.ColumnsListed` | app.py:5-22 | The mapping's keys and values, in declared order, are exactly the sixteen source names and the sixteen import names as the dictionary lists them. |
| `Frames.RenameRow` | app.py:46 | A renamed row has exactly the mapping's values as columns, and the cell under each value is the row's cell under the matching key. |
| `Frames.SelectRenamed` | app.py:46 | Selecting and renaming gives a well-formed table whose header is the mapping's values in declared order. Extra source columns are dropped. The row count and order are kept, and every renamed cell equals its source cell. |
| `Frames.Assign` | app.py:48-53 | Assigning a column keeps the table well-formed. An existing column keeps its place; a new one is added at the right. The column takes the given cells, the row count is kept, and every other cell is unchanged. |
| `Validation.AbsentKeysMembers` | app.py:38 | A name is in the comprehension's result if and only if it is a mapping key and not a source column. |
| `Validation.AbsentKeysCount` | app.py:38 | Each absent key is reported as many times as it occurs among the keys; a present key is never reported. |
| `Validation.AbsentKeysSnoc` | app.py:38 | Adding a key at the end of the scan adds its report, if any, at the end: the report follows the keys' declared order. |
| `Validation.AbsentKeysEmpty` | app.py:38 | The comprehension is empty if and only if every key is a source column. |
| `Validation.MissingNamesAbsentKeys` | app.py:38-43 | A name is in the missing list if and only if it is a mapping key that the header lacks. |
| `Validation.ConversionGate` | app.py:38-45 | The missing list is empty if and only if every mapping key is in the header. The two extra checks never change whether it is empty. |
| `Validation.RejectionGate` | app.py:38-45 | The missing list is non-empty, so the upload is rejected, if and only if some mapping key is not a source column. |
| `Validation.NameColumnCount` | app.py:38-43 | `first_name` and `last_name` each occur twice in the missing list when absent from the header and never when present. |
| `Validation.NameColumnsReportedTwice` | app.py:38-43 | An absent `first_name` or `last_name` occurs exactly twice in the missing list, a present one never. When both are absent, the list ends with `first_name` then `last_name`. |
| `Messages.JoinPlacesEach` | app.py:69 | The joined string holds each name at its offset, in list order, with exactly the separator between neighbours, the first name at the start and the last at the end (`JoinOffsetBound` is its bounds step). |
| `Messages.FailureMessageNamesEach` | app.py:69 | The message opens with the fixed sentence, ends with a full stop, and contains every missing name, in list order, at its offset after the sentence. |
| `Converter.NotesGuardsHold` | app.py:46-51 | After renaming, `Notes 1` and `Notes 2` are always columns, filled from `household_income` and `household_net_worth`. `Referred By` is not a renamed column. |
| `Converter.OnlyFirstNameAbsent` | app.py:38 | For any header that lacks `first_name` but holds every other mapping key, the comprehension reports `first_name` alone. |
| `Converter.LackingFirstNameNamedTwice` | app.py:38-43 | Any upload that lacks `first_name` and no other mapping key (extra columns and any column order allowed) gets the missing list `[first_name, first_name]`. Its message is "The uploaded file does not contain the required columns: first_name, first_name." |
| `Converter.RowRelabelled` | app.py:48-53 | On one row: the renamed cells, then the `Notes 1` label, the `Notes 2` label and the `Referred By` cell, give a row in which every import column holds its source cell (labelled for the two notes columns) and `Referred By` holds `Real Intent`. |
| `Converter.Reshape` | app.py:46-53 | For any mapping whose values are distinct and do not include `Referred By`, and whose keys are all source columns: the result is well-formed, its header is the mapping's values in order and then `Referred By`, it has one row per source row in order, and every row is converted from its source row as `RowConverted` describes. |
| `Converter.Convert` | app.py:38-69 | An upload is rejected if and only if it lacks a mapping key. A rejection carries the message for the missing list and no table. On success the header is the 16 import columns in declared order, then `Referred By`, and there is one output row per source row, in order. Each output row is converted from its source row (`RowConverted`): every import cell equals its source cell, with `Household Income: ` in front for `Notes 1` and `Household Net Worth: ` for `Notes 2`, and every `Referred By` cell is `Real Intent`. |

## Left out

- The Streamlit page (title, banners, upload widget, table preview, download button; app.py:26-32, 57-67): display and upload plumbing.
- CSV parsing and writing and UTF-8 encoding (app.py:35, 61): a foreign library. The model starts from the parsed table, as strings.
- pandas value types: every cell is taken to be text. Numeric columns read as numbers, missing cells read as NaN, and the resulting `str + NaN` or `str + float` behaviour at lines 49 and 51 are not modelled.
- Converter.Convert: requires unique header names. pandas renames repeated header names on reading, and that renaming is not modelled.
- The `__main__` entry point (app.py:72-73).
- The frame is a value reassigned step by step, not a shared mutable object. The source has no aliasing of `df`, so nothing observable is lost.
