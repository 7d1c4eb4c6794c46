# SFF validator, modelled in Dafny

The SFF validator is a small Streamlit app. It checks an uploaded CSV file of
product records. It does one pass over the table:

1. It upper-cases the column names and strips whitespace from them.
2. The user picks a manufacturer, a brand and a subbrand column from three
   dropdowns. Each dropdown offers the header minus the earlier picks.
3. It normalises those three columns and the `ITEM` column in place, with the
   same upper-case-then-strip step, applied to every cell.
4. **Rule 1 (consistency)** looks at the rows whose `ITEM` is neither `""` nor
   `"NAN"`. A row is inconsistent when one of its three role cells holds a
   special value (`ALL OTHER` or `PRIVATE LABEL`) and another role cell is
   neither that value nor a value ending in `" MASKED"`.
5. **Rule 2 (bad values)** looks at every row. A row is flagged when some
   cell, in any column, is one of `TO BE CHECK`, `TO BE CHECKED`, `BADVALUE`
   or `TBC` once upper-cased and stripped.

The Dafny project is organised as follows:

- `text.dfy` (module `Text`): the string normalisation. Upper-casing is done
  per character. Stripping removes Python's whitespace set. The module proves
  what a normal form is, and that normalising is idempotent.
- `masks.dfy` (module `Masks`): boolean-mask row selection (`df[mask]`). It
  proves that a selection is the order-preserving subsequence at the marked
  positions.
- `table.dfy` (module `Table`): rows and header.
  - Header normalisation.
  - Column lookup, where a name is missing, duplicated or unique.
  - Normalising a set of columns over all rows.
- `roles.dfy` (module `Roles`): the dropdown option lists, the three picks,
  and resolving the four columns the pass reads.
- `rules.dfy` (module `Rules`): `is_valid`, `is_inconsistent` and the two
  rules, with their characterisations and a five-row worked sample.
- `validator.dfy` (module `Validator`):
  - the class `DataFrame`, whose header and rows are overwritten in place;
  - the loop that normalises the role columns;
  - the whole pass (`Validate`), proved equal to the pure description
    `Validation`.
- `outcomes.dfy` (module `Outcomes`): `Option` and `Result`.

Two error cases are modelled explicitly, where the script crashes:

- A picked column, or `ITEM`, is missing from the normalised header. In
  pandas this is a `KeyError`, modelled as `MissingColumn`.
- A picked column or `ITEM` occurs twice in the normalised header. `df[name]`
  is then a frame and `.str` fails; this is modelled as `DuplicateColumn`.

A pick that its dropdown does not offer is `NotOffered`. This covers a
dropdown with no options, which returns `None`.

## Model

| member | source | states |
|---|---|---|
| Text.Upper | sff_validator_app.py:12 | definition of `str.upper()` on ASCII letters; characterised by `UpperEach` and `UpperFixed` |
| Text.UpperEach | sff_validator_app.py:12 | upper-casing keeps the length and maps each character on its own (ASCII letters to capitals, everything else unchanged) |
| Text.TrimStart | sff_validator_app.py:12 | definition: drops leading whitespace; characterised by `TrimStartSuffix` |
| Text.TrimEnd | sff_validator_app.py:12 | definition: drops trailing whitespace; characterised by `TrimEndPrefix` |
| Text.Strip | sff_validator_app.py:12 | definition of `str.strip()`; characterised by `StripSlice` and `StripStripped` |
| Text.TrimStartSuffix | sff_validator_app.py:12 | dropping leading whitespace leaves a suffix that does not start with whitespace; everything dropped is whitespace |
| Text.TrimEndPrefix | sff_validator_app.py:12 | dropping trailing whitespace leaves a prefix that does not end with whitespace; everything dropped is whitespace |
| Text.StripSlice | sff_validator_app.py:12 | `strip()` returns a slice of the input with no whitespace at either end, and only whitespace is cut away |
| Text.Normalize | sff_validator_app.py:12 | definition of `x.upper().strip()`; characterised by `NormalizeIsNormal`, `NormalizeFixed` and `NormalizeIdempotent` |
| Text.NormalizeIsNormal | sff_validator_app.py:12 | `x.upper().strip()` has no lower-case letter and no surrounding whitespace |
| Text.UpperFixed | sff_validator_app.py:12 | upper-casing leaves a string unchanged exactly when it has no lower-case letter |
| Text.StripStripped | sff_validator_app.py:12 | stripping a string without surrounding whitespace leaves it unchanged |
| Text.StripKeepsNoLower | sff_validator_app.py:12 | stripping never introduces a lower-case letter |
| Text.NormalizeFixed | sff_validator_app.py:30 | a string is its own normal form exactly when it is upper-case and stripped |
| Text.NormalizeIdempotent | sff_validator_app.py:30 | normalising twice gives the same as normalising once |
| Text.EndsWith | sff_validator_app.py:39 | definition of `s.endswith(suffix)`; used by `IsValidIff` and `EndsWithAppend` |
| Text.EndsWithAppend | sff_validator_app.py:39 | any text followed by a suffix ends with that suffix |
| Table.NormalizedHeader | sff_validator_app.py:12 | the normalised header has one name per column, each upper-case and stripped |
| Table.NormalizedHeaderIdempotent | sff_validator_app.py:12 | normalising the header a second time changes nothing |
| Table.Locate | sff_validator_app.py:30 | `df[name]` finds a name nowhere exactly when it is absent, at one position holding it and no other, or at two or more positions |
| Table.NormalizeRow | sff_validator_app.py:30 | one row with the cells in the chosen columns normalised; keeps the row's width |
| Table.NormalizeCells | sff_validator_app.py:29-30 | every row with the cells in the chosen columns normalised; keeps the row count and each row's width; characterised by `NormalizeCellsFrame` |
| Table.NormalizeCellsCompose | sff_validator_app.py:29-30 | normalising columns `a` and then columns `b` is normalising `a + b`; a column seen twice is the same as once |
| Table.NormalizeCellsIdempotent | sff_validator_app.py:29-30 | normalising the same columns again changes nothing |
| Table.NormalizeCellsFrame | sff_validator_app.py:29-30 | normalising keeps the row count, the row order, the width and every cell outside the chosen columns, and normalises the cells inside them |
| Table.NormalizeCellsNone | sff_validator_app.py:29-30 | normalising no column leaves the rows as they are |
| Masks.Select | sff_validator_app.py:33 | `df[mask]` (also used at lines 55 and 59): never longer than the table; characterised by `SelectPicksMarked` |
| Masks.TrueIndicesExact | sff_validator_app.py:33 | the positions listed are increasing and are exactly the positions the mask marks |
| Masks.SelectPicksMarked | sff_validator_app.py:33 | `df[mask]` is the subsequence at the marked positions, in table order |
| Masks.SelectMembers | sff_validator_app.py:21 | an element is kept exactly when it stands at a marked position |
| Masks.SelectSnoc | sff_validator_app.py:33 | one more row extends the selection by that row exactly when it is marked |
| Masks.SelectSingle | sff_validator_app.py:33 | a mask marking one position selects that one row |
| Roles.Remaining | sff_validator_app.py:21 | the options left after a pick are exactly the earlier options other than the pick |
| Roles.RemainingInOrder | sff_validator_app.py:24 | the options left are the earlier options at exactly the positions whose entry is not the pick, in order; a name listed twice stays listed twice |
| Roles.SelectRoles | sff_validator_app.py:20-26 | three picks are accepted exactly when they are three different header names |
| Roles.DefaultSelection | sff_validator_app.py:20-26 | the preselected first options always form an accepted selection when the header holds three different names |
| Roles.Find | sff_validator_app.py:30 | `df[name]` gives a position holding `name` exactly when `name` occurs once; otherwise it reports a missing or duplicated column |
| Roles.Resolve | sff_validator_app.py:29-30 | the four columns (three picks and `ITEM`) resolve exactly when each occurs once; the positions hold those names; on failure the error names a column that is missing or duplicated |
| Rules.IsValid | sff_validator_app.py:38-39 | definition of `is_valid`; characterised by `IsValidIff` |
| Rules.IsValidIff | sff_validator_app.py:38-39 | `is_valid(value, expected)` holds exactly when `value == expected` or `value` is some text followed by `" MASKED"` |
| Rules.MaskedAlwaysValid | sff_validator_app.py:38-39 | a masked value is valid whatever value is expected |
| Rules.MaskedOtherLabelValid | sff_validator_app.py:38-39 | `"PRIVATE LABEL MASKED"` is valid where `"ALL OTHER"` is expected |
| Rules.ViolatesFor | sff_validator_app.py:45-51 | definition: one special value's three checks fail; characterised by `ViolatesForIff` |
| Rules.Inconsistent | sff_validator_app.py:41-52 | definition: the checks fail for some special value; characterised by `InconsistentIff` |
| Rules.IsInconsistent | sff_validator_app.py:41-52 | the loop over the special values with early return decides `Inconsistent` |
| Rules.ViolatesForIff | sff_validator_app.py:45-51 | one special value's three checks fail exactly when one role holds it and a different role is not valid for it |
| Rules.InconsistentIff | sff_validator_app.py:41-52 | a row is inconsistent exactly when, for some special value, one role holds it and another role is not valid for it |
| Rules.InconsistentSymmetric | sff_validator_app.py:41-52 | every reordering of manufacturer, brand and subbrand gives the same verdict |
| Rules.NoSpecialConsistent | sff_validator_app.py:36-52 | a row with no special value in its roles is never inconsistent |
| Rules.SameSpecialConsistent | sff_validator_app.py:36-52 | a row with the same special value in all three roles is consistent |
| Rules.RealBrandInconsistent | sff_validator_app.py:41-52 | `ALL OTHER` / a real brand / `ALL OTHER` is inconsistent |
| Rules.MaskedBrandConsistent | sff_validator_app.py:38-52 | a special value with its masked form as brand and itself as subbrand is consistent |
| Rules.HasItem | sff_validator_app.py:33 | definition: the row's `ITEM` is neither `""` nor `"NAN"` |
| Rules.ItemMask | sff_validator_app.py:33 | definition of `~df['ITEM'].isin(['', 'NAN'])` |
| Rules.FilterItems | sff_validator_app.py:33 | every row of `df_filtered` has an `ITEM` that is neither `""` nor `"NAN"` |
| Rules.InconsistentMask | sff_validator_app.py:55 | definition of `df_filtered.apply(is_inconsistent, axis=1)` |
| Rules.InconsistentRows | sff_validator_app.py:55 | definition of `inconsistent_rows`; characterised by `InconsistentRowsExact` |
| Rules.FilterItemsSnoc | sff_validator_app.py:33 | one more row extends `df_filtered` by that row exactly when its `ITEM` is present |
| Rules.InconsistentRowsSnoc | sff_validator_app.py:33-55 | one more row extends Rule 1's result by that row exactly when its `ITEM` is present and it is inconsistent |
| Rules.InconsistentRowsOneMask | sff_validator_app.py:33-55 | filtering by `ITEM` and then by `is_inconsistent` equals one filter by both |
| Rules.InconsistentRowsExact | sff_validator_app.py:33-55 | Rule 1's rows are the order-preserving subsequence of exactly the rows with an `ITEM` that are inconsistent |
| Rules.HasBadValue | sff_validator_app.py:59 | definition: some cell of the row, normalised, is a bad-value token |
| Rules.BadValueMask | sff_validator_app.py:59 | definition of the row mask of line 59 |
| Rules.BadValueRows | sff_validator_app.py:58-59 | definition of `bad_value_rows`; characterised by `BadValueRowsExact` |
| Rules.BadValueRowsExact | sff_validator_app.py:58-59 | Rule 2's rows are the order-preserving subsequence of exactly the rows with a cell whose normal form is a bad-value token, in any column and whatever the `ITEM` |
| Rules.BadValueMaskIgnoresNormalization | sff_validator_app.py:29-59 | the in-place normalisation before Rule 2 does not change which rows it flags |
| Rules.BadValueOnNormalRow | sff_validator_app.py:59 | on a row already in normal form, Rule 2 compares the cells as they are |
| Rules.BadValueMaskOnNormalTable | sff_validator_app.py:59 | on a table in normal form, a row is marked exactly when one of its cells is a token |
| Rules.BadValueRowsOne | sff_validator_app.py:58-59 | on a table in normal form where only one row holds a token, Rule 2 reports that row alone |
| Rules.SampleCells | sff_validator_app.py:58-59 | the sample's cells are in normal form and only the `TBC` cell is a token |
| Rules.SampleRoleValues | sff_validator_app.py:33-52 | in the sample, only the row with a blank `ITEM` lacks one, and only the real-brand row is inconsistent |
| Rules.SampleVerdicts | sff_validator_app.py:41-52 | `is_inconsistent` on each sample row: only the real-brand row is inconsistent |
| Rules.SampleRuleOne | sff_validator_app.py:33-55 | Rule 1 on the sample reports exactly the real-brand row |
| Rules.SampleRuleTwo | sff_validator_app.py:58-59 | Rule 2 on the sample reports exactly the `TBC` row |
| Validator.RectFits | sff_validator_app.py:29-30 | the four resolved columns exist in every row |
| Validator.Validation | sff_validator_app.py:12-59 | definition of one pass over the uploaded header and rows with three picks; characterised by `ValidationSucceeds` and `ValidationReports` |
| Validator.ValidationSucceeds | sff_validator_app.py:12-30 | a pass gets past the normalisation loop exactly when the picks are three different header names and each of them and `ITEM` occurs once in the normalised header |
| Validator.ValidationReports | sff_validator_app.py:29-59 | after a successful pass, Rule 1 reports in order exactly the `ITEM`-bearing inconsistent rows of the normalised table, and Rule 2 reports in order the rows as normalised in place, at exactly the positions where the uploaded row holds a bad-value cell |
| Validator.DataFrame.constructor | sff_validator_app.py:11 | the frame holds the uploaded header and rows |
| Validator.DataFrame.NormalizeHeader | sff_validator_app.py:12 | the header is replaced by its normal form and the rows are untouched |
| Validator.DataFrame.NormalizeColumn | sff_validator_app.py:30 | the loop over the rows normalises the one column in every row and changes nothing else |
| Validator.DataFrame.NormalizeRoles | sff_validator_app.py:29-30 | the loop over the manufacturer, brand, subbrand and `ITEM` columns leaves the rows normalised in exactly those columns |
| Validator.Validate | sff_validator_app.py:12-59 | the pass computes `Validation` of the uploaded header and rows, leaves the header normalised, and leaves the rows normalised in the four columns on success and untouched on an error |

## Left out

- The Streamlit page is not modelled: the title, the file uploader, the result counts, the two download buttons and their CSV encoding (lines 4-7 and 61-79).
- CSV parsing (line 11) is not modelled, including the UTF-8 byte-order mark, type inference and pandas' renaming of repeated raw header names (`A`, `A.1`). The model starts from a header and rows of text.
- `astype(str)` is not modelled: every cell is already text. A missing value is expected to arrive as the text `"nan"`.
- Text.Upper: upper-cases ASCII letters only. Python's `str.upper()` also maps other letters, some of them to more than one character (`ß` to `SS`).
- Validator.Validate: on an error the rows are left as uploaded. The script would already have normalised the columns before the failing one, then crashed. Nothing after the crash is observable.
- Rules.InconsistentRows: whenever `df_filtered` is empty (a table with no rows, or one whose every `ITEM` is blank), pandas' `apply(..., axis=1)` returns an empty frame rather than a boolean series. The model returns no rows there, which is what the script reports.
- The dropdown widgets are modelled by the names picked. Widget state across reruns (the `key=` arguments) is not modelled.
