# Maintenance sheet rules, modelled in Dafny

The maintenance sheet editor lists a workshop's cars, one row per repair job.
It has two React components, `src/App.jsx` (the editor) and
`src/MaintenanceGrid.jsx` (an older grid). Each holds its own copy of the
rules that classify a row:

- which header is the date-out, date-in or damage column;
- how a plate is normalised;
- which plates are duplicated;
- when a car is overdue;
- what each filter button shows, and what each counter counts;
- the note written for a row and the colour a row gets;
- which columns the export keeps, and its file name;
- how a cell edit and the arrow keys act;
- how the CSV export of the sheet is read.

This project states those rules as a pure Dafny library over rows. A row is
an ordered sequence of (header, value) string pairs with JavaScript object
semantics:

- assigning to a present key keeps its place;
- assigning to a new key appends it;
- a spread assigns the keys of the spread row in order.

Where the two copies differ, both variants are modelled, and lemmas relate
them.

Modules, one per concern:

- `Optional`: `Option`, standing for `undefined`.
- `Text`: ASCII `toLowerCase`, JavaScript white space and `trim`, `includes`, `split`/`join`, decimal printing.
- `Records`: the row as an object: lookup, assignment, spread, header search.
- `Seqs`: `filter` and `map` with positions, subsequences, kept positions.
- `Sheet`: modes, style categories, `normalizePlate`, the per-row column lookups, search and the vehicle gate.
- `Csv`: the split-on-newline/comma parse and the reference plate list.
- `DuplicateDetection`: both duplicate effects, and `duplicatesCount`.
- `Delay`: `getDisplayRows`' delay rule and `getDelayedCars`' delay rule.
- `Display`: display rows and renumbering.
- `AppView`, `GridView`: the two `filtered` pipelines and the App's counters.
- `Notes`: `getNote`.
- `Styles`: both `getRowStyle` copies, as categories.
- `Export`: `filterColumnsWithData`, the export rows and the file name.
- `Editing`: `handleEdit`, the write-through range and `handleKeyDown`.
- `AppState`: the App's state snapshot with loading, editing and `resetData`.
- `Compare`: the App's views against the Grid's.

Date parsing and "today" are one parameter, `elapsed`. It gives the whole
days from a date text to today, or `None` when the text does not parse. The
empty text is rejected before `elapsed` is asked, as `parseDate` does.

Three facts about the filters and counters are easy to get wrong:

- the "all" mode keeps every row with a shown vehicle that matches the search, and asks nothing of the other fields;
- there is no "total loss" filter mode;
- a row with no date-in column is left out of `notReadyCount`, although the Not Ready view shows it.

Only the Grid lets a user edit a cell: its table renders an input per cell
that calls `handleEdit` and `handleKeyDown` (src/MaintenanceGrid.jsx:227-236).
The App passes both handlers to `MaintenanceTable` (src/App.jsx:461), but
that table renders plain text cells with no input (src/App.jsx:644-650) and
never calls them. The App's `handleEdit` and its write-back range are
modelled as written, and their defects are latent in the App as it stands.

## Model

| member | source | states |
|---|---|---|
| Text.LowerChar | src/App.jsx:18 | `toLowerCase` on one character turns a capital into the letter 32 code units up, leaves every other character alone, and keeps white space white space |
| Text.Lower | src/App.jsx:18 | `toLowerCase` over ASCII keeps the length, lower-cases each character in place, leaves no capital, and changes nothing on text without capitals |
| Text.Trim | src/App.jsx:18 | `trim` gives text no longer than the input with no white space at either end, empty exactly for blank text and unchanged on text without white space |
| Text.TrimIsSlice | src/App.jsx:18 | `trim` keeps a contiguous stretch of the input and drops only white space before and after it |
| Text.RemoveSpaces | src/App.jsx:18 | `replace(/\s+/g, "")` leaves no white space and never lengthens the text |
| Text.RemoveSpacesIsFilter | src/App.jsx:18 | removing white space is filtering out the white-space characters: the others stay, in order and in number |
| Text.RemoveSpacesConcat | src/App.jsx:18 | removing white space from two texts side by side removes it from each |
| Text.RemoveSpacesMembership | src/App.jsx:18 | removing white space keeps exactly the characters that are not white space |
| Text.RemoveSpacesKeepsNoUpper | src/App.jsx:18 | removing white space from text without capitals leaves none |
| Text.IncludesAt | src/App.jsx:203 | `includes` holds exactly when the text occurs at some offset |
| Text.RemoveSpacesEmptyIffBlank | src/App.jsx:18 | removing white space gives "" exactly when the text is blank |
| Text.LowerRemoveSpacesCommute | src/App.jsx:75 | lower-casing and removing white space commute, so the plate list (remove, then lower) and `normalizePlate` (lower, then remove) agree |
| Text.JoinSplit | src/App.jsx:88 | joining the pieces of `split` with the separator gives back the text |
| Text.SplitJoin | src/App.jsx:88 | splitting a join of separator-free pieces gives back the pieces |
| Text.NatToString | src/App.jsx:162 | a number shows as a non-empty run of decimal digits |
| Text.NatToStringRoundTrip | src/App.jsx:162 | reading a number's decimal text back gives the number |
| Text.NatToStringInjective | src/App.jsx:243 | distinct positions print differently, so a duplicate note's numbers are unambiguous |
| Records.IndexOf | src/App.jsx:297 | `indexOf` on the keys: the first position holding the key, or none exactly when no key matches |
| Records.Get | src/App.jsx:226 | `row[key]` is defined exactly when the key is one of the row's keys |
| Records.Set | src/App.jsx:292 | `{...row, [key]: value}` stores `value` under `key`, leaves every other key's value alone, keeps the key order when the key was present, appends it when not, and keeps keys distinct |
| Records.SetNew | src/App.jsx:292 | assigning a key the row lacks appends the pair at the end |
| Records.SetPresent | src/App.jsx:292 | assigning a key the row has replaces its pair where it stands |
| Records.SetSame | src/App.jsx:292 | assigning a key the value it already holds changes nothing |
| Records.MergeGetOther | src/App.jsx:161-165 | a spread leaves the keys the spread row lacks as they were |
| Records.MergeGetLast | src/App.jsx:90 | after a spread, a key holds the value of its last occurrence in the spread row |
| Records.MergeGetIn | src/App.jsx:161-165 | spreading a row with distinct keys gives each of its keys that row's value |
| Records.MergeAppends | src/App.jsx:292 | spreading keys the target lacks appends them in order, so `{...row}` copies a row |
| Records.MergeKeeps | src/App.jsx:161-165 | a spread drops no key and keeps keys distinct |
| Records.SetMakesEqual | src/App.jsx:197 | two rows that differ only under `key` become equal once `key` is assigned |
| Records.FindKey | src/App.jsx:134-135 | `Object.keys(row).find(k => k.toLowerCase().includes(needle))`: the first matching header, none exactly when no header matches |
| Records.Field | src/App.jsx:136-137 | `key && row[key]`: the value of the first matching column, none exactly when no header matches |
| Seqs.Filter | src/App.jsx:200 | `filter` keeps only passing elements of the input, never more than the input |
| Seqs.FilterIsSubseq | src/App.jsx:200 | `filter`'s output is a subsequence of its input |
| Seqs.FilterMembership | src/App.jsx:200 | an element survives `filter` exactly when it is in the input and passes |
| Seqs.FilterPartition | src/App.jsx:211-212 | two tests that split a third split its count |
| Seqs.KeptIndicesCorrect | src/App.jsx:200-219 | the kept positions point, in order, at the elements `filter` keeps |
| Seqs.KeptIndicesIncrease | src/App.jsx:200-219 | the kept positions strictly increase |
| Seqs.MapFromAt | src/App.jsx:133 | `map((x, i) => f(x, t + i))` puts `f(x_j, t + j)` at position `j` |
| Seqs.FilterThenRenumber | src/App.jsx:196-197 | filtering built rows then renumbering equals renumbering the rows built from the filtered sources, when the test and the renumbering ignore the build position |
| Seqs.FilterMapFromCount | src/App.jsx:346 | filtering built rows keeps as many as filtering their sources by the matching test |
| Sheet.NormalizePlate | src/App.jsx:17-19 | `normalizePlate` has no white space and no capitals, is "" for `undefined`, and is "" for a defined plate exactly when it is blank |
| Sheet.NormalizePlateRemovesSpaces | src/App.jsx:17-19 | a plate's key is its lower-cased text with every white-space character filtered out; the trim changes nothing |
| Sheet.NormalizePlateIdempotent | src/App.jsx:17-19 | normalising a normalised plate changes nothing |
| Sheet.MatchesSearchSomeValue | src/App.jsx:203 | a row matches the search exactly when some value contains it, ignoring ASCII case |
| Sheet.VehicleShownHasPlate | src/App.jsx:201-202 | a row past the vehicle gate has a non-empty plate |
| Csv.Cells | src/MaintenanceGrid.jsx:53 | one cell list per line, each with at least one cell |
| Csv.Entries | src/MaintenanceGrid.jsx:55 | field `i` is paired with header `i`, or with "undefined" past the headers |
| Csv.Record | src/MaintenanceGrid.jsx:55 | `Object.fromEntries` makes a row with distinct keys |
| Csv.ParseSheet | src/MaintenanceGrid.jsx:53-55 | one record per line after the header line, each with distinct keys |
| Csv.RecordField | src/MaintenanceGrid.jsx:55 | with distinct headers, field `j` is the record's value under header `j` |
| Csv.RecordOverflow | src/MaintenanceGrid.jsx:55 | fields past the headers land under "undefined", the last one winning |
| Csv.ParseSheetField | src/App.jsx:88-90 | with distinct headers, record `i` holds line `i + 1`'s field `j` under header `j`, also on a line longer than the header when no header is "undefined" |
| Csv.FirstColumnPlate | src/App.jsx:75 | a plate-list entry has no white space and no capitals |
| Csv.FirstFields | src/App.jsx:75 | the first field of every line after the header |
| Csv.ParsePlateList | src/App.jsx:74-75 | every reference plate is non-empty, without white space or capitals |
| Csv.PlateKeys | src/App.jsx:75 | `normalizePlate` applied to each field |
| Csv.PlateListIsNormalized | src/App.jsx:75 | the plate list is exactly the non-empty `normalizePlate` keys of the first fields, so `normalizePlate` lookups can match it |
| DuplicateDetection.Positions | src/App.jsx:111-113 | the positions recorded for a plate lie between 1 and the number of rows |
| DuplicateDetection.PositionsMembership | src/App.jsx:106-113 | a position is recorded for `p` exactly when the row there has plate `p`, a non-empty plate and no date-in |
| DuplicateDetection.PositionsIncrease | src/App.jsx:104-113 | `duplicateRows[p]` is strictly increasing |
| DuplicateDetection.PositionsCount | src/App.jsx:109-113 | `duplicateRows[p]` has as many entries as rows counted under `p` |
| DuplicateDetection.TallyRows | src/App.jsx:102-114 | `counts` and `rowMap` have the same plates, none empty, and each count is the length of its position list |
| DuplicateDetection.TallyPositions | src/App.jsx:102-116 | `duplicateRows[p]` is present exactly when a row counts for `p`, and then lists exactly those rows' positions |
| DuplicateDetection.Repeated | src/App.jsx:115 | the kept plates are among the counted plates |
| DuplicateDetection.DuplicatePlatesExact | src/App.jsx:102-117 | `duplicatePlates` holds exactly the plates of more than one uncleared row, with that number |
| DuplicateDetection.SumOverRemove | src/App.jsx:345 | a sum of map values does not depend on the order it is taken in |
| DuplicateDetection.SumCountsRows | src/App.jsx:345 | summing the duplicate counts over some duplicate plates counts the uncleared rows carrying them |
| DuplicateDetection.DuplicatesCount | src/App.jsx:345 | `duplicatesCount` equals the number of uncleared rows whose plate is a duplicate |
| DuplicateDetection.GridCounts | src/MaintenanceGrid.jsx:62-67 | the Grid counts only non-empty plates, each at least once |
| DuplicateDetection.GridCountsExact | src/MaintenanceGrid.jsx:62-67 | the Grid's count for a plate is the number of rows carrying it, date-in or not |
| DuplicateDetection.GridDuplicatePlatesExact | src/MaintenanceGrid.jsx:62-69 | a Grid duplicate is exactly a non-empty plate carried by more than one row |
| DuplicateDetection.AppDuplicateIsGridDuplicate | src/MaintenanceGrid.jsx:62-69 | every App duplicate is a Grid duplicate, with at least as large a Grid count |
| DuplicateDetection.DuplicatesAgreeWithoutDateIn | src/App.jsx:102-117 | when no row has a date-in, both duplicate maps are equal |
| Delay.DaysSince | src/App.jsx:121-122 | the empty text never parses; any other text is read by `elapsed` |
| Delay.RequiredDays | src/App.jsx:151-154 | the applicable waits are non-empty, each 3 or 30, and include 30 exactly for an accident |
| Delay.Max | src/App.jsx:156 | `Math.max` returns an element no smaller than any other |
| Delay.Threshold | src/App.jsx:150-156 | the largest applicable wait is 30 for an accident and 3 otherwise |
| Delay.AppDelay | src/App.jsx:138-158 | the App's delay is set exactly when the row has a date-out, no date-in, a date-out that parses, damage that is not a total loss and elapsed days above the threshold (30 for an accident, otherwise 3), and it is then those elapsed days |
| Delay.DaysDelayedCell | src/App.jsx:138-164 | the `Days Delayed` cell is "" exactly when no delay is set, and otherwise digits that read back as the day count |
| Delay.GridDelayedNeeds | src/MaintenanceGrid.jsx:92-98 | a row the Grid flags has a non-blank date-out that parses and no date-in |
| Delay.GridThreshold | src/MaintenanceGrid.jsx:100-106 | the Grid waits 30 days only for an accident without oil, and 3 days otherwise |
| Delay.GetDelayedCars | src/MaintenanceGrid.jsx:85-108 | `getDelayedCars` holds every flagged row of its input and nothing else |
| Delay.GetDelayedCarsSubseq | src/MaintenanceGrid.jsx:85-86 | the delayed rows are a subsequence of the input |
| Delay.AppDelayedIsGridDelayed | src/MaintenanceGrid.jsx:85-108 | every car the App marks overdue, the Grid flags too |
| Delay.DelayAgreement | src/App.jsx:147-157 | apart from a total loss, or damage naming both oil and an accident, the two delay rules agree |
| Delay.TotalLossSplitsVariants | src/App.jsx:147-148 | a total loss out for more than 30 days is flagged by the Grid but not by the App |
| Delay.OilAccidentSplitsVariants | src/MaintenanceGrid.jsx:102 | oil and an accident out between 4 and 30 days are flagged by the Grid but not by the App |
| Display.SpreadAfter | src/App.jsx:161-165 | spreading a row after `Index` keeps the row's values, and the front `Index` only where the row lacks one |
| Display.DisplayRow | src/App.jsx:161-165 | a display row has distinct keys and an `Index`, carries the row's `Days Delayed` cell, keeps every other value, and numbers the row `i + 1` when it had no `Index` |
| Display.Renumber | src/App.jsx:197 | renumbering sets `Index` to `i + 1` and changes nothing else |
| Display.DisplayRows | src/App.jsx:132-133 | `getDisplayRows` keeps the row count |
| Display.View | src/App.jsx:221 | a view has one row per source row |
| Display.ViewRow | src/App.jsx:221 | view row `j` is source row `j`, numbered `j + 1`, with its delay cell and its own other values |
| Display.RenumberForgetsPosition | src/App.jsx:197 | after renumbering, a display row no longer depends on its first position |
| Display.ShowsDelayIsOverdue | src/App.jsx:196 | a display row shows a delay exactly when its source row is overdue |
| Display.DelayedView | src/App.jsx:195-197 | the Delayed view is the renumbered view of the overdue rows |
| Display.DelayedCountIsOverdue | src/App.jsx:346 | `delayedCount` counts the overdue rows |
| AppView.VisibleIsView | src/App.jsx:194-222 | in every mode the App's `filtered` is the renumbered display of the rows its mode keeps |
| AppView.SourceIsSubsequence | src/App.jsx:200-219 | the kept rows sit at strictly increasing positions of `modifiedData`, each one kept by the mode |
| AppView.VisibleRow | src/App.jsx:221 | view row `j` is numbered `j + 1` and carries its source row's values and delay cell |
| AppView.ShownVehiclesOnly | src/App.jsx:201-202 | outside Delayed mode no row with a blank or "#N/A" vehicle is shown |
| AppView.SearchIgnored | src/App.jsx:195-216 | the Delayed and Duplicates views do not depend on the search |
| AppView.ReadyNotReadyPartition | src/App.jsx:211-212 | among the rows All shows, Ready and Not Ready split them |
| AppView.DuplicatesViewRows | src/App.jsx:213-217 | Duplicates shows exactly the shown-vehicle rows without a date-in whose plate is an App duplicate |
| AppView.KeepDuplicates | src/App.jsx:213-217 | the Duplicates test keeps a row exactly when its vehicle is shown, it has a plate and no date-in, and its plate is in `duplicatePlates` |
| AppView.ReadyNotReadyRow | src/App.jsx:211-212 | a row All keeps is kept by exactly one of Ready and Not Ready |
| AppView.AccidentKeptCounted | src/App.jsx:325-331 | a row the Accident view keeps is one `accidentCount` counts |
| AppView.InvygoKeptCounted | src/App.jsx:333-338 | a row the Invygo view keeps is one `invygoCount` counts |
| AppView.DuplicatesKeptCounted | src/App.jsx:213-217 | a row the Duplicates view keeps is one the duplicates counter counts |
| AppView.CountsBoundViews | src/App.jsx:325-346 | the Accident, Invygo and Duplicates counters are at least their views' sizes, and the Delayed counter equals its view's size |
| AppView.NotReadyCountMissesRowsWithoutDateIn | src/App.jsx:340-343 | `notReadyCount` plus the rows with no date-in column equals the rows without a date-in |
| GridView.GridVisible | src/MaintenanceGrid.jsx:112-127 | the Grid's `filtered` holds only rows of `modifiedData`, never more |
| GridView.GridVisibleSubseq | src/MaintenanceGrid.jsx:112 | the Grid view is a subsequence of `modifiedData` |
| GridView.GridDuplicatesView | src/MaintenanceGrid.jsx:124 | Grid Duplicates shows every row whose plate is carried by another row, whatever the search or date-in |
| GridView.GridDelayedView | src/MaintenanceGrid.jsx:110-125 | Grid Delayed is `getDelayedCars(modifiedData)`, whatever the search |
| GridView.GridOpenCarsOnly | src/MaintenanceGrid.jsx:120-121 | the Grid's Accident and Invygo views show no row with a date-in |
| GridView.GridKeepDuplicates | src/MaintenanceGrid.jsx:124 | the Grid's Duplicates test keeps a row exactly when it has a plate that is in the Grid's `duplicatePlates` |
| GridView.GridReadyNotReadyRow | src/MaintenanceGrid.jsx:122-126 | a row the search matches is kept by exactly one of Ready and Not Ready |
| GridView.GridReadyNotReadyPartition | src/MaintenanceGrid.jsx:122-126 | Ready and Not Ready split the rows that match the search |
| Notes.StatusOf | src/App.jsx:228-238 | the status is Delayed exactly when the delay cell is set, otherwise Accident for accident damage, then Repaired, then Not Repaired |
| Notes.StatusTextRoundTrip | src/App.jsx:229-237 | each status word reads back as its status |
| Notes.AccidentNoteIgnoresDateIn | src/App.jsx:235 | an accident note wins over a date-in |
| Notes.DuplicateSuffix | src/App.jsx:239-245 | the suffix appears exactly when the plate is non-empty, is a duplicate, and has positions other than `rowIndex + 1` |
| Notes.CarTypeLeads | src/App.jsx:227 | the note starts with "Invygo " exactly when the plate is on the list, otherwise with "Yelo " |
| Notes.Note | src/App.jsx:225-247 | `getNote` starts "Invygo " exactly for listed plates and "Yelo " exactly for the rest |
| Notes.StatusPrefixOf | src/App.jsx:229-237 | no status word begins another, so a status is read off the front of the text after it |
| Notes.NoteReadsBack | src/App.jsx:225-247 | a note reads back as the car type, then the row's status word, then exactly the duplicate suffix |
| Notes.SuffixCites | src/App.jsx:241 | the suffix cites exactly the data positions of the other uncleared rows with the plate, skipping position `rowIndex + 1` of the view |
| Styles.AppRowStyle | src/App.jsx:268-287 | the App always styles a row, and each category holds exactly when: Delayed when the delay cell is set; otherwise Duplicate for a duplicated plate; otherwise Invygo Ready / Invygo Not Ready / Other Ready by the fetched list and the date-in; Accident for an unlisted, not-ready accident; Other Not Ready for an unlisted, not-ready row that is no accident |
| Styles.AccidentNoteWithoutAccidentStyle | src/App.jsx:277 | a repaired accident car is noted "Accident" but not styled as one |
| Styles.GridRowStyle | src/MaintenanceGrid.jsx:128-146 | the Grid never uses Other Not Ready, and each category holds exactly when: Duplicate for a duplicated plate; otherwise Delayed by the Grid's delay rule; otherwise Invygo Ready / Invygo Not Ready / Other Ready by the hard-coded list and the date-in; Accident for an unlisted, not-ready accident; no style for the remaining unlisted, not-ready rows |
| Export.ExportName | src/App.jsx:251-259 | the name is "search" exactly when the trimmed search is non-empty, and "Maintenance" exactly when it is blank in All |
| Export.ExportNameIgnoresBlankSearch | src/App.jsx:251-259 | with a blank search the name depends on the mode alone |
| Export.ExportNameNamesMode | src/App.jsx:254-259 | with a blank search, distinct modes get distinct names |
| Export.SomeNonBlankExists | src/App.jsx:42 | `rows.some(...)` holds exactly when some row has the column non-blank |
| Export.DataColumnsExact | src/App.jsx:39-42 | a column is kept exactly when the first row has it, it is not `Index` or `Days Delayed`, and some row fills it |
| Export.DataColumnsInOrder | src/App.jsx:41-42 | kept columns are in first-row order |
| Export.Prune | src/App.jsx:43-47 | a pruned row has two more cells than kept columns, each holding the source row's value under its key |
| Export.FilterColumnsWithData | src/App.jsx:37-49 | the row count is kept, empty input stays empty, and every cell is the source row's value under its key |
| Export.PruneKeys | src/App.jsx:44-46 | a pruned row's keys are `Index`, the kept columns, then `Days Delayed` |
| Export.PrunedKeys | src/App.jsx:43-48 | every output row has the same keys: `Index`, the kept columns, `Days Delayed` |
| Export.PrunedKeysDistinct | src/App.jsx:43-48 | no key of an output row repeats |
| Export.ColumnsDistinct | src/App.jsx:41-42 | the kept columns are distinct and are neither `Index` nor `Days Delayed` |
| Export.WithNotes | src/App.jsx:261 | one noted row per view row |
| Export.NoteNotBlank | src/App.jsx:246 | a note is never blank |
| Export.ExportKeepsNotes | src/App.jsx:261 | the export of a non-empty view keeps `Notes`, holding each row's own note |
| Export.TableRows | src/App.jsx:603 | the table has one row per view row |
| Editing.EditRows | src/MaintenanceGrid.jsx:148-154 | the edit keeps the row count, changes only row `rowIndex`, stores `value` under `key`, and leaves that row's other keys and key order alone |
| Editing.EditIdempotent | src/MaintenanceGrid.jsx:148-154 | typing the same value twice is typing it once |
| Editing.EditUndo | src/MaintenanceGrid.jsx:148-154 | typing back the old value restores the rows |
| Editing.ColumnIndex | src/App.jsx:297 | the key's column, or -1 exactly when the first row lacks it |
| Editing.CellAddressAsWritten | src/App.jsx:297-300 | the App's range is "Sheet1!", one character `65 + colIndex`, then the sheet row `rowIndex + 2`; there is none without rows |
| Editing.AddressPastZ | src/App.jsx:298 | the 27th column is addressed as "[", which is no column name |
| Editing.AddressMissingKey | src/App.jsx:297-298 | a key the first row lacks is addressed as column "@" |
| Editing.ColumnName | src/App.jsx:298 | a column name is one or more capital letters |
| Editing.ColumnNameRoundTrip | src/App.jsx:298 | reading a column name back gives its position |
| Editing.ColumnNameInjective | src/App.jsx:298 | distinct columns get distinct names |
| Editing.ColumnNameAgreesBelowZ | src/App.jsx:298 | for the first 26 columns the name is the App's single letter |
| Editing.CellAddress | src/App.jsx:297-300 | the corrected range exists exactly when there are rows and the key is a column |
| Editing.CellAddressDecodes | src/App.jsx:297-300 | the corrected range is "Sheet1!", a column name that reads back to the key's column, then digits that read back to `rowIndex + 2` |
| Editing.CellAddressAgreesBelowZ | src/App.jsx:297-300 | with at most 26 columns, the corrected range is the App's |
| Editing.GridEditAsWritten | src/MaintenanceGrid.jsx:227-236 | the Grid's edit, using the view's row number on all rows, keeps the row count |
| Editing.GridEditMissesShownRow | src/MaintenanceGrid.jsx:148-154 | with the first row hidden and the second shown, editing the first shown row changes the hidden row and leaves the shown one alone |
| Editing.GridEdit | src/MaintenanceGrid.jsx:148-154 | the corrected edit keeps the row count |
| Editing.GridEditChangesShownRow | src/MaintenanceGrid.jsx:148-154 | the corrected edit changes exactly the row on screen |
| Editing.NextPos | src/MaintenanceGrid.jsx:156-164 | from an in-bounds cell the next cell is in bounds; at most one coordinate changes, by at most one; any other key stays put |
| Editing.ArrowsUndo | src/MaintenanceGrid.jsx:161-164 | away from the edges each arrow moves, and the opposite arrow moves back |
| Editing.KeyDown | src/MaintenanceGrid.jsx:156-171 | an arrow and only an arrow focuses, and the cell it focuses is the clamped neighbour `NextPos` gives for the view's row count and first-row key count, in bounds from an in-bounds cell; Enter and only Enter blurs |
| AppState.Loaded | src/App.jsx:90-92 | after loading, the loaded rows and the edited rows are the parsed rows |
| AppState.ResetData | src/App.jsx:348-355 | a cancelled reset changes nothing; a confirmed one makes the edited rows the loaded rows |
| AppState.HandleEdit | src/App.jsx:289-306 | an edit stores the value in the edited row, leaves every other row and every other key of that row alone, and writes back exactly when signed in, to the range `Sheet1!` + the character `65 + indexOf(key)` + the sheet row `rowIndex + 2` |
| AppState.HandleEditCorrected | src/App.jsx:289-306 | with the corrected range, an edit stores the value, leaves every other row and every other key of that row alone, and writes back exactly when signed in and the key is a column of the first row |
| AppState.HandleEditAgreesBelowZ | src/App.jsx:297-300 | for a key among at most twenty-six columns the corrected edit is the App's |
| AppState.ResetForgetsEdit | src/App.jsx:348-355 | a reset after an edit gives what a reset without it gives |
| AppState.ResetIsReload | src/App.jsx:348-355 | a confirmed reset returns to the state right after loading |
| AppState.ResetShowsEveryVehicle | src/App.jsx:348-355 | after a reset the App lists every row with a shown vehicle, in sheet order |
| Compare.AppIsGatedGrid | src/MaintenanceGrid.jsx:112-127 | outside Delayed and Duplicates, the App keeps exactly the Grid's rows that have a shown vehicle, when the fetched and hard-coded lists agree on the row's plate |
| Compare.InvygoListDecides | src/App.jsx:210 | for an open, matching row with a shown vehicle, the App's Invygo test is membership in the fetched list and the Grid's (src/MaintenanceGrid.jsx:121) membership in the hard-coded list |
| Compare.ListsCanMakeAppShowMore | src/App.jsx:74-76 | a plate in the fetched list but not the hard-coded one gives the App one Invygo row where the Grid shows none |
| Compare.DuplicatesGatedWithoutDateIn | src/MaintenanceGrid.jsx:124 | with no date-in anywhere, the two Duplicates views differ only by the vehicle gate |
| Compare.AppRowIsGridRow | src/MaintenanceGrid.jsx:112-127 | every row the App keeps, the Grid keeps in the same mode, when in Invygo mode the hard-coded list holds the plate whenever the fetched list does |
| Compare.AppShowsNoMoreThanGrid | src/App.jsx:194-222 | the App never lists more rows than the Grid in the same mode, when in Invygo mode the hard-coded list holds every plate of the fetched list |

## Left out

- Rendering, React state and hooks, JSX and CSS: the state is an explicit snapshot, and row styles are categories rather than colours.
- Fetching the CSV exports, and the Google sign-in: network I/O. The fetched text and `isSignedIn` are parameters.
- The HTTP PUT of `updateSheetCell` (src/App.jsx:21-34): network I/O. Only the range address is modelled. Its failure handler only sets an error message.
- Building the workbook and downloading it with XLSX: a foreign library and I/O. So is the file name's date suffix, which reads the clock.
- date-fns `parse`, `differenceInDays`, the `Date` fallback and "today": library calls and the clock. They are the `elapsed` parameter.
- DOM focus, `querySelector`, `preventDefault` and `window.confirm`: UI side effects. A confirmation is a boolean, and a focus move is its target cell.
- Unicode case mapping and Unicode white space beyond JavaScript's ASCII-range and common separators: `toLowerCase` is ASCII only.
- The contents of the hard-coded plate list (src/MaintenanceGrid.jsx:17-47): a parameter.
- The App's own `getDelayedCars` copy (src/App.jsx:169-192): it is the Grid's rule word for word, and the App never calls it. `Delay.GetDelayedCars` covers both.
- The inline note in the App's table (src/App.jsx:620-642): it repeats `getNote` on rows already pruned by `filterColumnsWithData`.
- The render in which `duplicatePlates` is still stale, before the effect runs: the model uses the maps the effect computes from the current rows.
- Styles.AppRowStyle: styles a view row, but the App calls `getRowStyle` on the table's rows, which `filterColumnsWithData` has pruned (src/App.jsx:603, 644). When a column is blank in every shown row it is pruned. A later header that also contains "date in" or "damag" can then be the one found, and the style can differ from the one stated here.
- The numbers the App stores in `Index` and `Days Delayed` (src/App.jsx:162-164): the model stores their decimal text. Every stored delay is above 3 and every index is at least 1, so each value is truthy either way, and both print the same.
- Object-key corner cases: keys named like array indices, which JavaScript orders first, and keys on `Object.prototype`, such as a plate "constructor".
- Editing.EditRows: requires `rowIndex` inside the rows. An index past the end would make a sparse array, and no caller produces one.
- Editing.LetterAsWritten: requires the code unit below the surrogate range, because a Dafny `char` cannot hold a lone surrogate. This only matters past about 55,000 columns.
- Editing.CellAddressAsWritten: requires the same bound on the first row's key count, for the same reason.
- Delay.AppDelayedIsGridDelayed: assumes `elapsed` reads this row's date-out the same with or without surrounding blanks. The App parses the untrimmed text and the Grid parses the trimmed text.
- Delay.DelayAgreement: assumes the same trimming hypothesis.
- Compare.AppShowsNoMoreThanGrid: assumes the same trimming hypothesis for every row. In Invygo mode it also assumes the hard-coded list holds every plate of the fetched list. The App checks the list it fetched (src/App.jsx:74-76, 210) and the Grid its own hard-coded one (src/MaintenanceGrid.jsx:17-47, 121), so the two can differ; Compare.ListsCanMakeAppShowMore shows the App then listing more.
- Compare.AppIsGatedGrid: in Invygo mode, assumes the fetched and hard-coded lists agree on the row's plate, for the same reason. Compare.InvygoListDecides states each side's test when they do not.
- Compare.AppRowIsGridRow: in Invygo mode, assumes the hard-coded list holds the row's plate whenever the fetched list does, for the same reason.
- AppState.HandleEdit: requires the first row's key count below the surrogate range, the bound of Editing.CellAddressAsWritten, because the range holds the character `65 + indexOf(key)`.
- The Ready filter mode: no button of either component sets it (src/App.jsx:543-548, src/MaintenanceGrid.jsx:198-203). It is modelled as the code handles it, but no user can reach it.

## Findings

| source | as written | input that shows it | evidently intended | confidence | as-written member | corrected member |
|---|---|---|---|---|---|---|
| src/App.jsx:298 | the column letter is the single character `65 + colIndex` | a first row with 27 keys, editing the 27th: the range is "Sheet1![2"; latent, since the App's table never calls `handleEdit` | spreadsheet column names A … Z, AA, AB, … | not executed | Editing.AddressPastZ | Editing.CellAddressDecodes |
| src/App.jsx:297-298 | a key the first row lacks gives `indexOf` -1 and column "@" | editing a key the first loaded row does not have; latent, since the App's table never calls `handleEdit` | no write-back for a column that does not exist | not executed | Editing.AddressMissingKey | Editing.CellAddress |
| src/MaintenanceGrid.jsx:148-154 | `handleEdit` applies the view's row number to all of `modifiedData` | two rows, the first hidden by the filter and the second shown; typing into the shown row changes the hidden one | edit the row that is on screen | not executed | Editing.GridEditMissesShownRow | Editing.GridEditChangesShownRow |
