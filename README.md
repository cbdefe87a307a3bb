# Overdue-portfolio report filler, modelled in Dafny

The repository fills an Excel report of overdue loans. It has three parts.

- `data_processing.py` loads the ledger of collection results. It gives each
  loan type a product kind: secured, unsecured or undetermined. It orders
  the records by the loan types in the order they first appear in the
  report sheet, and splits them by division. For every division it builds
  a count table: result columns, loan-type rows and product-kind rows, a
  row-total column `Итог` and a total row `Итого` on top. It then applies
  the canonical column order. It also adds an overall table `Общий итог`,
  the cell-wise sum of the division tables.
- `testreport.py` finds the insertion anchors in the report sheet. For
  every merged heading region (`30-`, `30+`, …) it looks below for the
  dated arrears header, and below that for the `% ОД к просроченному
  портфелю` label. The anchor is the cell right of that label. The overall
  anchor is three columns right of the dated count header. The anchors are
  sorted in category order.
- `main.py` copies the report and places one block of columns per
  category that has both an anchor and a table, at the address of its last
  anchor. Each block is placed in four steps:
  - empty columns are inserted at the anchor column, moved right by the
    columns already inserted;
  - the headers are written, and the red result labels are filled red;
  - the row above the headers is merged and filled blue;
  - every table row is written into the report row where its label is
    found first.

The model follows the three files module by module:

- `Common`: options, cell values, ordered dictionaries, first-seen
  deduplication and stable sorting.
- `Ledger` (data_processing.py): product kinds, loading, the order scan,
  the reorder and the split by division.
- `CrossTab` (data_processing.py): the count pivots, the totals, the
  canonical columns and table sums.
- `Pipeline` (data_processing.py): `process_dataframes` and `main`.
- `Grid` (testreport.py, main.py): worksheets, row-major search and A1
  coordinates.
- `Layout` (testreport.py): the date, the address search, the anchor search
  and the anchor table.
- `Placement` (main.py): the anchor dictionary, column insertion, one block,
  and the `Worksheet` class.
- `Script` (main.py): the placement loop and `main_script`.

Pure computations are functions with lemmas. The loops of the source are
methods with loop invariants, each proved equal to a specification
function. The worksheet the writer changes in place is the class
`Placement.Worksheet`: its fields are the cells, the cell fills and the
merged bands it writes, and its methods state the new state in terms of
the old one.

One merged heading can yield several anchors. After a header hit,
`find_od_percent_address` leaves only its column loop
(testreport.py:57-72), so every report row below the heading that holds
the dated header yields its own anchor. `Layout.TwoAnchorsFromOneRegion`
shows a sheet on which one region yields two anchors.

The doubling of the totals that `apply_structure_and_sorting` performs is
modelled as written. The count table already has an `Итого` row when the
structure step sums the columns again, so each total is counted twice
(`CrossTab.StructuredDivisionTotals`).

## Model

| member | source | states |
|---|---|---|
| `Common.Dedup` | testreport.py:108 | the result has no repeats and holds exactly the elements of the input |
| `Common.DedupFirstSeenOrder` | testreport.py:108 | deduplication keeps the order of first occurrence |
| `Common.Put` | main.py:155 | dictionary assignment: a new key is appended and an existing key keeps its position; the key maps to the new value; every other key is unchanged |
| `Common.SortByFacts` | testreport.py:112-114 | the sort by category rank is a permutation, sorted by the key, and stable: the elements of each key keep their order |
| `Common.FoldPutGet` | data_processing.py:154-159 | the dictionary built by the division loop maps each division to its table, or to nothing when the count fails |
| `Common.FoldPutValues` | data_processing.py:154-159 | every table of that dictionary comes from some division |
| `Ledger.AssignProductKind` | data_processing.py:46-55 | secured exactly for the six secured types, unsecured exactly for the three unsecured ones, undetermined otherwise (an empty cell included) |
| `Ledger.PresentColumns` | data_processing.py:27-28 | the wanted columns that are present, and only those |
| `Ledger.PresentColumnsOrder` | data_processing.py:28 | the present columns keep the order of the wanted list |
| `Ledger.LoadRow` | data_processing.py:34-38 | a loaded row keeps the kept columns' cells and gains the product kind exactly when the type column is kept |
| `Ledger.LoadedRow` | data_processing.py:34-38 | a loaded row holds the ledger's cell for every expected column present in the file, none for an absent one, and the product kind of its loan type exactly when the type column is present |
| `Ledger.LoadExcel` | data_processing.py:14-43 | None exactly when the file is missing or has none of the three expected columns; otherwise the kept columns in order, the product kind appended when the type column is present, and every row's cells |
| `Ledger.DistinctValues` | data_processing.py:224 | the distinct non-empty values of a column, each once |
| `Ledger.RowsWith` | data_processing.py:115-116 | exactly the rows whose column holds the value, none besides, in their order |
| `Ledger.RowsWithOne` | data_processing.py:115-116 | a single row is kept exactly when its column holds the value |
| `Ledger.RowsWithAppend` | data_processing.py:115-116 | the filter of a concatenation is the concatenation of the filters, so the kept rows stay in input order |
| `Ledger.RowsWithCount` | data_processing.py:115-116 | a matching row occurs in the result as often as in the input, any other row not at all |
| `Ledger.SplitByDivision` | data_processing.py:106-120 | None exactly when the division column is missing; otherwise one entry per distinct division holding exactly the rows of that division |
| `Ledger.SplitIsPartition` | data_processing.py:115-116 | every row with a division lands in exactly the bucket of its division |
| `Ledger.Reorder` | data_processing.py:141-146 | the columns are kept and the type column gets the ordered types as its categories |
| `Ledger.ReorderFacts` | data_processing.py:145-146 | the rows are a stable sort, by the type's position, of the rows with unlisted types emptied; every remaining type is listed |
| `Ledger.Flatten` | data_processing.py:132 | the flattened sheet holds exactly the cells of its rows |
| `Ledger.OrderedScan` | data_processing.py:131-135 | each found type once, only target types present in the sheet, and every such type |
| `Ledger.OrderedScanFirstSeen` | data_processing.py:132-134 | the found types appear in the order of their first occurrence in the sheet |
| `Ledger.FindOrderedTypes` | data_processing.py:123-138 | the scan loop equals `OrderedScan`, and gives the empty list when the sheet cannot be read |
| `CrossTab.Pivot` | data_processing.py:64-65 | the pivot's rows and columns are the group keys, and each cell counts the records with that row and column value |
| `CrossTab.AddRowTotals` | data_processing.py:66 | the `Итог` column holds each row's sum over the result columns; the other cells are unchanged |
| `CrossTab.PivotRowTotal` | data_processing.py:66 | the `Итог` cell of a pivot row counts the records of that row that have a result |
| `CrossTab.OutcomesAreColumns` | data_processing.py:64-65 | when the result column has no categories, every result a record carries next to a label is one of the pivot's columns, and the columns are distinct |
| `CrossTab.RenameRows` | data_processing.py:75-78 | the two product-kind labels are renamed and every renamed row keeps its cells |
| `CrossTab.Concat` | data_processing.py:81 | the rows of both tables, the union of their columns, and each cell from the table that has its row |
| `CrossTab.SideCells` | data_processing.py:64-78 | every cell of one renamed side counts its records, and its `Итог` cell counts the row's records |
| `CrossTab.Side` | data_processing.py:64-78 | one side's rows are its renamed group keys and it has the `Итог` column |
| `CrossTab.SetTotalRowFacts` | data_processing.py:88-93 | the total row holds the column sums; its `Итог` cell holds the two product-kind totals when both rows exist, and otherwise the column sum with the total row counted twice |
| `CrossTab.SetTotalRow` | data_processing.py:88-93 | the total row is added after the other rows and the columns are kept |
| `CrossTab.MoveTotalToTopCells` | data_processing.py:96-98 | moving the total row to the top changes no cell |
| `CrossTab.MoveTotalToTop` | data_processing.py:96-98 | the total row comes first, followed by the other rows in their order |
| `CrossTab.CountUniqueValues` | data_processing.py:58-103 | None exactly when a column is missing or the labels collide; otherwise the total row is on top and the `Итог` column is present |
| `CrossTab.CountUniqueValuesIsCombine` | data_processing.py:58-100 | the count table is the two renamed sides stacked, with the total row set and moved to the top |
| `CrossTab.CountUniqueValuesTotals` | data_processing.py:87-98 | the rows are `Итого` then the labels; each total cell is its column's sum; the grand total is the two product-kind totals, or twice the column sum |
| `CrossTab.CountUniqueValuesCounts` | data_processing.py:64-78 | each type and product-kind row holds the counts of its records, and its `Итог` cell their number |
| `CrossTab.CombineTotals` | data_processing.py:81-98 | the stacked table's total row sums each column, with the grand total as in `CountUniqueValuesTotals` |
| `CrossTab.CombineCells` | data_processing.py:81 | each stacked row keeps the cells of its side |
| `CrossTab.Combine` | data_processing.py:81-98 | the stacked table starts with the total row, then the other rows of both sides, and has the `Итог` column |
| `CrossTab.SelectColumns` | data_processing.py:201-209 | the rows are kept and the columns are those of the canonical list present in the table, in that order |
| `CrossTab.CanonicalColumns` | data_processing.py:201-209 | `Итог` is the last selected column |
| `CrossTab.ApplyStructureShape` | data_processing.py:195-209 | after the structure step the total row is first and `Итог` is the last column |
| `CrossTab.ApplyStructureCells` | data_processing.py:186-209 | every other row keeps its cells; the total row is recomputed over all rows, its own old values included |
| `CrossTab.ApplyStructureDoublesTotals` | data_processing.py:189-193 | a total cell that already summed its column is doubled |
| `CrossTab.StructuredDivisionTotals` | data_processing.py:156-158 | a division's structured table: labels and cells kept, each result total twice the column sum, the grand total the product-kind totals or four times the column sum |
| `CrossTab.StructuredTotals` | data_processing.py:181-209 | on a table whose top total row already holds the column sums over its labels, the structured table keeps the labels and their cells and doubles every result total; the grand total is the product-kind totals or four times the column sum |
| `CrossTab.QuadrupledGrandTotal` | data_processing.py:190-193 | the grand total without both product-kind rows ends up four times the `Итог` column sum |
| `CrossTab.AddTables` | data_processing.py:169 | the sum of two tables has the union of their rows and of their columns |
| `CrossTab.AddTablesCells` | data_processing.py:169 | each cell of the sum is the sum of the two cells, a missing cell counting 0 |
| `CrossTab.OverallCells` | data_processing.py:165-169 | each cell of the overall table is the sum of that cell over all division tables |
| `CrossTab.OverallEmpty` | data_processing.py:171 | the overall table is empty exactly when all division tables have no rows, or all have no columns |
| `Pipeline.StructuredWellFormed` | data_processing.py:155-159 | every structured division table has `Итог`, `Итого` and distinct row labels |
| `Pipeline.StructuredGet` | data_processing.py:155-159 | a division maps to its structured count, and a non-division to nothing |
| `Pipeline.OverallHasTotalCol` | data_processing.py:165-169 | the sum of tables that all have `Итог` has `Итог` |
| `Pipeline.OverallDistinctRows` | data_processing.py:165-169 | the sum of tables with distinct row labels has distinct row labels |
| `Pipeline.ProcessedDivision` | data_processing.py:155-159 | a division's entry is its structured count, or absent when the count fails |
| `Pipeline.ProcessedOverall` | data_processing.py:165-173 | `Общий итог` is added exactly when the sum of the division tables is not empty, and it is the structured sum |
| `Pipeline.OverallTableCells` | data_processing.py:165-173 | the overall table's cells are the sums over divisions, and its total row is recomputed over them |
| `Pipeline.ProcessDataframes` | data_processing.py:149-178 | the two loops compute `Processed` |
| `Pipeline.Run` | data_processing.py:214-247 | None when loading, the type scan or the split fails; an exception when the type column is missing; otherwise the processed tables of the reordered, split ledger |
| `Grid.FirstInRow` | testreport.py:55-57 | a found column lies in the window and holds the value |
| `Grid.FirstInRowIsFirst` | testreport.py:55-57 | no column before the found one holds the value, and none at all when nothing is found |
| `Grid.FirstInRowExact` | testreport.py:55-57 | the scan finds column `c` if and only if `c` is the leftmost column of the segment holding the value |
| `Grid.FirstInWindow` | testreport.py:28-32 | a found cell lies in the window and holds the value |
| `Grid.FirstInWindowIsFirst` | testreport.py:28-32 | no earlier cell in row-major order holds the value, and none when nothing is found |
| `Grid.FirstInWindowExact` | testreport.py:58-62 | the scan finds cell `(r, c)` if and only if it is the first cell of the window in row-major order holding the value |
| `Grid.ScanRow` | testreport.py:55-57 | the column loop equals `FirstInRow` |
| `Grid.ScanWindow` | testreport.py:28-32 | the nested loop equals `FirstInWindow` |
| `Grid.WholeSheetScan` | testreport.py:28-34 | the whole-sheet search finds the first match, and finds nothing exactly when no cell holds the value |
| `Grid.FirstCellOf` | main.py:107-111 | the first match of the whole sheet is the search result |
| `Grid.ColumnLetter` | testreport.py:49 | a column number gives a name of capital letters |
| `Grid.IncrementColumn` | testreport.py:46-49 | an incremented column name is again a name of capital letters |
| `Grid.NatToString` | testreport.py:66 | a printed row number is a string of digits |
| `Grid.IndexOfLetter` | testreport.py:48-49 | the column index of a column letter gives back its number |
| `Grid.LetterOfIndex` | main.py:153 | the column letter of a parsed column name gives back the name |
| `Grid.ShiftedColumn` | testreport.py:78-81 | incrementing a column letter is the letter of the incremented column |
| `Grid.ParsePrinted` | main.py:154 | reading back a printed row number gives the number |
| `Grid.CoordinateParts` | testreport.py:101-102 | stripping a coordinate to its letters and its digits gives the column name and the row number |
| `Grid.SplitA1` | main.py:152 | a split gives a column name of capitals and a row number of digits |
| `Grid.SplitCoordinate` | main.py:152 | a coordinate splits into its column name and row number |
| `Grid.SplitLettersDigits` | main.py:152 | the regular-expression split of a column name directly followed by a row number gives back exactly those two parts |
| `Layout.ExtractDate` | testreport.py:10-18 | None exactly when no `dd.dd.dddd` of ASCII digits occurs in the path; otherwise the leftmost one |
| `Layout.FindAddressForValue` | testreport.py:21-34 | None for a missing sheet; otherwise None exactly when no cell of the sheet holds the value, and a found address is the coordinate of the first match |
| `Layout.FindOdPercentAddress` | testreport.py:37-74 | the region loop equals `OdPercentAddresses` |
| `Layout.ScanRegion` | testreport.py:54-72 | the scan of the rows under a region equals `RegionRows` |
| `Layout.ScanBelowHeader` | testreport.py:58-71 | the scan under one header equals `RowAnchor` |
| `Layout.RowAnchorSound` | testreport.py:55-71 | a row yields at most one anchor, right of a label found below the header |
| `Layout.RowAnchorExact` | testreport.py:55-72 | a row yields exactly `[a]` if and only if `a` is right of the first label below the row's leftmost header cell, in the window of the region's width; it yields nothing if and only if no such header and label exist |
| `Layout.RowAnchorOf` | testreport.py:55-72 | the first header and label cells of a row give its anchor |
| `Layout.RowAnchorFound` | testreport.py:55-72 | a row that yields an anchor has first header and label cells, and the anchor is right of the label |
| `Layout.RegionRowsSound` | testreport.py:54-72 | every anchor of a region carries its heading and sits right of a label below a header of a row under the region |
| `Layout.RegionRowsContain` | testreport.py:54-72 | every anchor a row yields is in the region's result |
| `Layout.RightOf` | testreport.py:63-66 | the column name one right of the label's column, followed by the label's row, is the address of the cell right of the label |
| `Layout.AnchorCategories` | testreport.py:51-53 | every anchor's category is a heading written at the top-left of its region |
| `Layout.AnchorsAtCoordinates` | testreport.py:63-66 | every anchor address is a well-formed coordinate |
| `Layout.TwoAnchorsFromOneRegion` | testreport.py:54-72 | on a sheet with the header in two rows, one region yields two anchors |
| `Layout.TotalAnchorAddress` | testreport.py:98-104 | the overall anchor is three columns right of the count header, in the same row |
| `Layout.TotalAnchorAtCoordinate` | testreport.py:98-105 | an overall anchor exists only on a sheet the workbook has, and its address is a well-formed coordinate |
| `Layout.TotalAnchor` | testreport.py:98-105 | at most one overall anchor is produced |
| `Layout.CreateOdPercentTable` | testreport.py:77-116 | the method equals `OdPercentTable` |
| `Layout.OdPercentTableOutcomes` | testreport.py:83-116 | an empty table exactly when the date or the file is missing; an exception exactly when no anchor is found |
| `Layout.OdPercentTableOrdered` | testreport.py:107-114 | the table is a permutation of the anchors, sorted by category rank, stable within a category, with every category in the order |
| `Layout.OverallRankZero` | testreport.py:108 | the overall category ranks first |
| `Layout.OverallAnchorFirst` | testreport.py:98-114 | when the count header is found, the overall anchor is the table's first row |
| `Placement.FindRowInReport` | main.py:105-113 | None exactly when no cell holds the label; otherwise the coordinate of the first match in row-major order |
| `Placement.ParseCoordinate` | main.py:152-154 | a coordinate's address parses back to its row and column |
| `Placement.ParseAddresses` | main.py:147-155 | the loop over the anchor table equals `Addresses` |
| `Placement.AddressesDefined` | main.py:147-155 | the dictionary exists exactly when every address parses, and its keys are the categories in first-seen order |
| `Placement.AddressesLastWins` | main.py:155 | a category maps to the address of its last anchor |
| `Placement.AddressesAbsent` | main.py:155 | a category without an anchor is not a key |
| `Placement.TableAddressesDefined` | main.py:147-155 | every anchor of a built anchor table parses, and the report sheet exists |
| `Placement.ResultsAtCoordinates` | testreport.py:97-105 | every anchor collected for the table, overall or per category, has a well-formed coordinate address |
| `Placement.WriteCell` | main.py:97-100 | the written cell holds the value and no other cell changes |
| `Placement.ShiftSpans` | main.py:37 | every merged range moves with the inserted columns |
| `Placement.ShiftSpansTwice` | main.py:36-38 | one more column inserted next to the others adds to the shift |
| `Placement.ShiftSpan` | main.py:37 | an insertion keeps a merged range's rows, never moves it left, and keeps it well-formed |
| `Placement.ShiftCellsShifted` | main.py:37 | after insertion every cell holds what was in the cell that moved onto it, and the inserted columns are empty |
| `Placement.ShiftedOneMore` | main.py:36-38 | inserting one column after `k` inserted columns is the same as inserting `k + 1` |
| `Placement.ShiftedUnique` | main.py:36-38 | the result of an insertion is determined |
| `Placement.InsertedValues` | main.py:24-42 | every old cell moves right by the inserted width when it is at or right of the insertion point; the inserted columns are blank |
| `Placement.LookupAfterNumber` | main.py:92-100 | writing a number does not change where a label is found |
| `Placement.HeaderCells` | main.py:62-64 | header `i` is in column `start + i` of the header row and no other cell changes |
| `Placement.RedHeaderFills` | main.py:71-75 | a header cell is red exactly when its label is one of the eight red labels; no other fill changes |
| `Placement.RedFillsCells` | main.py:71-75 | the fill loop makes a cell red exactly when it holds a red label and keeps every other fill |
| `Placement.BlueFills` | main.py:84-87 | the band cells are blue and no other fill changes |
| `Placement.Band` | main.py:78-81 | the merged band is one row high and as wide as the block |
| `Placement.RowValuesCells` | main.py:96-100 | the value under header `i` lands in column `start + i` of the row; nothing else changes |
| `Placement.RowValuesLookup` | main.py:92-100 | writing one data row leaves the next label's lookup where it was |
| `Placement.DataLookup` | main.py:90-101 | the data rows leave every label's lookup where it was before them |
| `Placement.DataFrame` | main.py:90-101 | the data rows change no cell outside the block's columns |
| `Placement.DataRowWritten` | main.py:90-101 | the report row of a table label holds that label's values under the block's headers, unless a later label is found in the same row |
| `Placement.DataRowUntouched` | main.py:90-101 | a report row where no label is found is unchanged |
| `Placement.BlockAtRedHeaders` | main.py:59-75 | in a placed block, header `i` has a fill exactly when its label is red, and that fill is red |
| `Placement.Worksheet.InsertColumn` | main.py:37 | one column inserted: cells, fills and merged ranges move right of it |
| `Placement.Worksheet.InsertColumns` | main.py:24-42 | the insertion loop is the insertion of `n` columns at once |
| `Placement.Worksheet.WriteHeaders` | main.py:62-64 | the header loop writes `WithHeaders` and changes no fill |
| `Placement.Worksheet.FillHeaders` | main.py:71-75 | the fill loop gives `RedFills` over the written headers |
| `Placement.Worksheet.MergeBand` | main.py:78-87 | the band is appended to the merges and filled blue |
| `Placement.Worksheet.WriteRow` | main.py:96-100 | one data row written |
| `Placement.Worksheet.WriteData` | main.py:90-101 | the data loop, with its coordinate parsing, writes `WithData` |
| `Placement.Worksheet.PlaceBlock` | main.py:44-103 | one call of the block writer gives `BlockAt` of the old state |
| `Script.PlanFacts` | main.py:160-169 | every block comes from an anchor whose category has a table, and its offset is the width of the blocks before it |
| `Script.PlanCategories` | main.py:161-162 | the blocks follow the anchors that have a table, in order |
| `Script.PlaceBlocks` | main.py:160-169 | the placement loop applies the planned blocks and returns their total width |
| `Script.PlaceAnchor` | main.py:161-169 | one pass of the loop adds the anchor's block exactly when its category has a table |
| `Script.BlockAtMoves` | main.py:44-103 | a block keeps every cell of the report, moved by the column insertion |
| `Script.ApplyBlocksMoves` | main.py:160-169 | after all blocks every original cell of the report is found in the column it has moved to |
| `Script.PlanImage` | main.py:48-50 | a column at or right of every anchor has moved right by exactly the inserted width |
| `Script.PlanStartsAtAnchors` | main.py:160-169 | with the anchors left to right, every block starts in the column its anchor cell has moved to |
| `Script.MainScript` | main.py:115-173 | `main_script` ends as `ScriptOutcome` of what the two modules return |
| `Script.ScriptOutcomes` | main.py:124-173 | "no data" exactly when `main` returns nothing; "no anchors" exactly when the anchor table is empty; an error exactly when `main` raises or the anchor table fails; finished exactly when both return tables |

## Left out

- pandas details: dtypes, NaN values, `to_numeric` coercion. All counts
  are natural numbers and an empty cell is a missing map key.
- Records without a division: pandas gives them an empty bucket of their
  own; the model puts them in no bucket.
- Overall table rows: the model takes the first-seen union of the division
  tables' rows. pandas orders them its own way.
- Sorting: `sort_values` is modelled as a stable sort. pandas' default
  quicksort is not stable.
- Duplicate row labels after the rename cannot be represented in a
  label-keyed table: `CountUniqueValues` returns None where pandas would
  keep the duplicates.
- File I/O: reading and saving workbooks, the copy of the report file, and
  all console output. The sheets arrive as parameters, and `report` is None
  when the file is missing.
- The order reference sheet: pandas re-reads the report sheet for it; the
  model takes that sheet's values as a separate parameter, `orderSheet`.
- Excel automation (win32com): inserting a column is modelled as a shift of
  cells, fills and merged ranges. Excel's copying of the left column's
  formatting into the new columns is not modelled.
- Cell styles: borders and `number_format` are not modelled. Of the fills,
  only the red and blue ones this program sets are kept.
- Merged bands: the band merges the program creates are kept in a separate
  list, apart from the sheet's own merged ranges. Clearing the cells under a
  new merge is not modelled: those cells lie in just-inserted columns, so
  they are empty.
- `Placement.Bounded`: openpyxl keeps every cell inside `max_row` and
  `max_column`. The lemmas about data lookups assume this of the copied
  sheet.
- `Placement.DataRowWritten`: it does not cover a merge row of 0 (when the
  header row is 1). The scans never produce such an anchor.
- The loop at main.py:134-136 assigns a column list to itself unchanged; it
  is not modelled.
- The `str`/`float` test on row labels at main.py:91: every label in the
  model is a string, so the test always passes.
- `header in df.columns` at main.py:97 always holds, as the headers are the
  table's own columns. The model keeps the check, in `RowValues`.
- `Script.PlanStartsAtAnchors`: it is stated only for anchors that run left
  to right. For other orders the offset still moves every later block by the
  full width of the earlier blocks.
- Exceptions inside the block writer (COM failures, a bad sheet name in
  Excel) are not modelled. The only errors modelled are the ones the code
  itself raises.
- `Layout.ExtractDate`: only the ASCII digits `0`-`9` count as `\d`.
  Python's `re` on a `str` pattern also matches the other Unicode decimal
  digits (Arabic-Indic ones, for example); the model treats those as
  non-digits, so for a path written with them it returns None where the
  source finds a date.
