/** testreport.py: where in the report sheet the blocks of processed tables
    go. A block is anchored one column right of the overdue-share label that
    sits below the dated arrears header under each merged category heading;
    the overall block leans on the dated count header instead. */
module Layout {
  import opened Common
  import opened Grid

  /** A workbook: its sheets by name. */
  type Workbook = map<string, Sheet>

  /** One result row: a category and the A1 address of its anchor. */
  datatype Anchor = Anchor(category: string, address: string)

  const OdPercentLabel := "% ОД к просроченному портфелю"
  const ArrearsPrefix := "Просроченная задолженность на "
  const CountPrefix := "Кол-во просроченных анкет на "

  // ---------------------------------------------------------------------
  // extract_date_from_filename

  /** `\d{2}\.\d{2}\.\d{4}` matches `path` at position `i`. */
  predicate IsDateAt(path: string, i: int) {
    && 0 <= i && i + 10 <= |path|
    && IsDigit(path[i]) && IsDigit(path[i + 1]) && path[i + 2] == '.'
    && IsDigit(path[i + 3]) && IsDigit(path[i + 4]) && path[i + 5] == '.'
    && IsDigit(path[i + 6]) && IsDigit(path[i + 7]) && IsDigit(path[i + 8]) && IsDigit(path[i + 9])
  }

  /** The leftmost match position at or after `from`. */
  function DatePosition(path: string, from: nat): (p: Option<nat>)
    decreases |path| - from
    ensures p.Some? ==> from <= p.value && IsDateAt(path, p.value) && forall j :: from <= j < p.value ==> !IsDateAt(path, j)
    ensures p.None? ==> forall j :: from <= j ==> !IsDateAt(path, j)
  {
    if from + 10 > |path| then None
    else if IsDateAt(path, from) then Some(from)
    else DatePosition(path, from + 1)
  }

  /** `extract_date_from_filename`: the leftmost date-shaped substring. */
  function ExtractDate(path: string): (d: Option<string>)
    ensures d.None? <==> forall j :: !IsDateAt(path, j)
    ensures d.Some? ==> exists i :: IsDateAt(path, i) && d.value == path[i..i + 10] && forall j :: 0 <= j < i ==> !IsDateAt(path, j)
  {
    match DatePosition(path, 0)
    case None => None
    case Some(i) => Some(path[i..i + 10])
  }

  // ---------------------------------------------------------------------
  // find_address_for_value

  /** The address `find_address_for_value` yields. */
  function AddressOf(wb: Workbook, name: string, v: Value): Option<string> {
    if name !in wb then None else CellAddress(wb[name], v)
  }

  /** `find_address_for_value`: None for a missing sheet; otherwise the
      coordinate of the first cell holding `v`, row by row over
      `1..max_row` and `1..max_column`, None when no cell holds it. */
  method FindAddressForValue(wb: Workbook, name: string, v: Value) returns (addr: Option<string>)
    ensures addr == AddressOf(wb, name, v)
    ensures name !in wb ==> addr.None?
    ensures name in wb ==>
              (addr.None? <==> forall r, c :: 1 <= r <= wb[name].maxRow && 1 <= c <= wb[name].maxCol ==> ValueAt(wb[name], r, c) != v)
    ensures addr.Some? ==> exists r: nat, c :: c >= 1 && IsFirstMatch(wb[name], r, c, v) && addr.value == Coordinate(r, c)
  {
    if name !in wb {
      return None;
    }
    var s := wb[name];
    var p := ScanWindow(s, 1, s.maxRow, 1, s.maxCol, v);
    WholeSheetScan(s, v);
    if p.None? {
      return None;
    }
    addr := Some(Coordinate(p.value.0, p.value.1));
  }

  // ---------------------------------------------------------------------
  // find_od_percent_address

  /** The anchor row `r` below region `g` yields: when the region's columns
      of that row hold the header, the first overdue-share label below the
      leftmost header cell, in a window as wide as the region, gives an
      anchor one column to its right. */
  function RowAnchor(s: Sheet, cat: string, g: Region, r: int, header: string): seq<Anchor>
    requires r > g.maxRow
  {
    match FirstInRow(s, r, g.minCol, g.maxCol, Str(header))
    case None => []
    case Some(h) =>
      match FirstInWindow(s, r + 1, s.maxRow, h, h + (g.maxCol - g.minCol), Str(OdPercentLabel))
      case None => []
      case Some(p) => [Anchor(cat, Coordinate(p.0, p.1 + 1))]
  }

  /** The anchors of the rows `g.maxRow + 1 .. last`, top to bottom. */
  function RegionRows(s: Sheet, cat: string, g: Region, header: string, last: int): seq<Anchor> {
    Gather(RowAnchors(s, cat, g, header), g.maxRow + 1, last)
  }

  /** `RowAnchor` as a function of the row, for the rows under the region. */
  function RowAnchors(s: Sheet, cat: string, g: Region, header: string): int -> seq<Anchor> {
    r => if r > g.maxRow then RowAnchor(s, cat, g, r, header) else []
  }

  /** A region contributes only when its top-left value is one of the
      category headings; its anchors carry that heading. */
  function RegionAnchors(s: Sheet, g: Region, headings: seq<string>, header: string): seq<Anchor> {
    match ValueAt(s, g.minRow, g.minCol)
    case Str(cat) => if cat in headings then RegionRows(s, cat, g, header, s.maxRow) else []
    case _ => []
  }

  /** The anchors of the regions of `regions`, region by region. */
  function OdPercentAnchors(s: Sheet, regions: seq<Region>, headings: seq<string>, header: string): seq<Anchor> {
    if regions == [] then []
    else OdPercentAnchors(s, regions[..|regions| - 1], headings, header) + RegionAnchors(s, regions[|regions| - 1], headings, header)
  }

  /** What `find_od_percent_address` returns: nothing for a missing sheet. */
  function OdPercentAddresses(wb: Workbook, name: string, headings: seq<string>, header: string): seq<Anchor> {
    if name !in wb then [] else OdPercentAnchors(wb[name], wb[name].merged, headings, header)
  }

  /** `find_od_percent_address`: the loop over the merged ranges; only a
      range whose top-left value is a category heading is searched. */
  method FindOdPercentAddress(wb: Workbook, name: string, headings: seq<string>, header: string)
    returns (results: seq<Anchor>)
    ensures results == OdPercentAddresses(wb, name, headings, header)
  {
    if name !in wb {
      return [];
    }
    var s := wb[name];
    results := [];
    for k := 0 to |s.merged|
      invariant results == OdPercentAnchors(s, s.merged[..k], headings, header)
    {
      assert s.merged[..k + 1][..k] == s.merged[..k];
      var g := s.merged[k];
      var v := ValueAt(s, g.minRow, g.minCol);
      if v.Str? && v.s in headings {
        var found := ScanRegion(s, v.s, g, header);
        results := results + found;
      }
    }
    assert s.merged[..|s.merged|] == s.merged;
  }

  /** The row loop under one region: every row from just below the region
      to `max_row`, the row loop going on after each hit. */
  method ScanRegion(s: Sheet, cat: string, g: Region, header: string) returns (found: seq<Anchor>)
    ensures found == RegionRows(s, cat, g, header, s.maxRow)
  {
    found := [];
    var row := g.maxRow + 1;
    while row <= s.maxRow
      invariant row > g.maxRow
      invariant row <= s.maxRow + 1 || row == g.maxRow + 1
      invariant found == RegionRows(s, cat, g, header, row - 1)
      decreases s.maxRow - row
    {
      var a := ScanBelowHeader(s, cat, g, row, header);
      found := found + a;
      row := row + 1;
    }
  }

  /** The column loop of one row, then the sub-scan below its first header
      cell, left at the first overdue-share label. */
  method ScanBelowHeader(s: Sheet, cat: string, g: Region, row: int, header: string) returns (a: seq<Anchor>)
    requires row > g.maxRow
    ensures a == RowAnchor(s, cat, g, row, header)
  {
    a := [];
    var h := ScanRow(s, row, g.minCol, g.maxCol, Str(header));
    if h.Some? {
      var p := ScanWindow(s, row + 1, s.maxRow, h.value, h.value + (g.maxCol - g.minCol), Str(OdPercentLabel));
      if p.Some? {
        var nextCol := IncrementColumn(ColumnLetter(p.value.1), 1);
        RightOf(p.value.0, p.value.1);
        a := [Anchor(cat, nextCol + NatToString(p.value.0))];
      }
    }
  }

  /** Every anchor of row `r`: the header sits in that row inside the
      region's columns, the overdue-share label below it inside the window,
      and the address is the cell right of the label. */
  lemma {:induction false} RowAnchorSound(s: Sheet, cat: string, g: Region, r: int, header: string)
    requires r > g.maxRow
    ensures |RowAnchor(s, cat, g, r, header)| <= 1
    ensures forall a :: a in RowAnchor(s, cat, g, r, header) ==>
              a.category == cat &&
              exists h, sr: nat, sc :: IsAnchorCell(s, g, r, h, sr, sc, header) && a.address == Coordinate(sr, sc + 1)
  {
    match FirstInRow(s, r, g.minCol, g.maxCol, Str(header))
    case None =>
    case Some(h) =>
      match FirstInWindow(s, r + 1, s.maxRow, h, h + (g.maxCol - g.minCol), Str(OdPercentLabel))
      case None =>
      case Some(p) =>
        assert IsAnchorCell(s, g, r, h, p.0, p.1, header);
  }

  /** Row `r` yields exactly anchor `a` when `(r, h)` and `(sr, sc)` are the
      first header and label cells of `IsFirstAnchorCell` and `a` is the cell
      right of that label; when no such cells exist, the row yields nothing. */
  lemma {:induction false} RowAnchorExact(s: Sheet, cat: string, g: Region, r: int, header: string, a: Anchor)
    requires r > g.maxRow
    ensures RowAnchor(s, cat, g, r, header) == [a] <==>
              exists h, sr: nat, sc :: IsFirstAnchorCell(s, g, r, h, sr, sc, header) && a == Anchor(cat, Coordinate(sr, sc + 1))
    ensures RowAnchor(s, cat, g, r, header) == [] <==>
              !exists h, sr: nat, sc :: IsFirstAnchorCell(s, g, r, h, sr, sc, header)
  {
    forall h, sr: nat, sc | IsFirstAnchorCell(s, g, r, h, sr, sc, header)
      ensures RowAnchor(s, cat, g, r, header) == [Anchor(cat, Coordinate(sr, sc + 1))]
    {
      RowAnchorOf(s, cat, g, r, header, h, sr, sc);
    }
    RowAnchorFound(s, cat, g, r, header);
  }

  /** First header and label cells give the row's anchor. */
  lemma {:induction false} RowAnchorOf(s: Sheet, cat: string, g: Region, r: int, header: string, h: int, sr: nat, sc: int)
    requires r > g.maxRow && IsFirstAnchorCell(s, g, r, h, sr, sc, header)
    ensures RowAnchor(s, cat, g, r, header) == [Anchor(cat, Coordinate(sr, sc + 1))]
  {
    FirstInRowExact(s, r, g.minCol, g.maxCol, Str(header), h);
    FirstInWindowExact(s, r + 1, s.maxRow, h, h + (g.maxCol - g.minCol), Str(OdPercentLabel), sr, sc);
  }

  /** A row that yields an anchor has first header and label cells. */
  lemma {:induction false} RowAnchorFound(s: Sheet, cat: string, g: Region, r: int, header: string)
    requires r > g.maxRow
    ensures RowAnchor(s, cat, g, r, header) != [] ==>
              exists h, sr: nat, sc :: IsFirstAnchorCell(s, g, r, h, sr, sc, header) &&
                RowAnchor(s, cat, g, r, header) == [Anchor(cat, Coordinate(sr, sc + 1))]
  {
    var w := g.maxCol - g.minCol;
    match FirstInRow(s, r, g.minCol, g.maxCol, Str(header))
    case None =>
    case Some(h) =>
      match FirstInWindow(s, r + 1, s.maxRow, h, h + w, Str(OdPercentLabel))
      case None =>
      case Some(p) =>
        FirstInRowExact(s, r, g.minCol, g.maxCol, Str(header), h);
        FirstInWindowExact(s, r + 1, s.maxRow, h, h + w, Str(OdPercentLabel), p.0, p.1);
        var sr: nat := p.0;
        assert IsFirstAnchorCell(s, g, r, h, sr, p.1, header);
  }

  /** `(r, h)` is the leftmost cell of row `r`, inside the columns of region
      `g`, that holds the header, and `(sr, sc)` is the first cell in
      row-major order holding the overdue-share label in the rows below `r`
      and the columns from `h` over the width of `g`. */
  predicate IsFirstAnchorCell(s: Sheet, g: Region, r: int, h: int, sr: int, sc: int, header: string) {
    && IsFirstInRow(s, r, g.minCol, g.maxCol, Str(header), h)
    && IsFirstInWindow(s, r + 1, s.maxRow, h, h + (g.maxCol - g.minCol), Str(OdPercentLabel), sr, sc)
  }

  /** Header cell `(r, h)` below region `g` and overdue-share label cell
      `(sr, sc)` below it, inside the search windows. */
  predicate IsAnchorCell(s: Sheet, g: Region, r: int, h: int, sr: int, sc: int, header: string) {
    && g.maxRow < r && g.minCol <= h <= g.maxCol && ValueAt(s, r, h) == Str(header)
    && r < sr <= s.maxRow && h <= sc <= h + (g.maxCol - g.minCol) && ValueAt(s, sr, sc) == Str(OdPercentLabel)
  }

  /** Every anchor a region yields carries the heading and sits right of a
      label found below a header of one of the rows under the region. */
  lemma {:induction false} RegionRowsSound(s: Sheet, cat: string, g: Region, header: string, last: int)
    decreases last - g.maxRow
    ensures |RegionRows(s, cat, g, header, last)| <= if last <= g.maxRow then 0 else last - g.maxRow
    ensures forall a :: a in RegionRows(s, cat, g, header, last) ==>
              a.category == cat &&
              exists r, h, sr: nat, sc :: r <= last && IsAnchorCell(s, g, r, h, sr, sc, header) && a.address == Coordinate(sr, sc + 1)
  {
    if last > g.maxRow {
      RegionRowsSound(s, cat, g, header, last - 1);
      RowAnchorSound(s, cat, g, last, header);
    }
  }

  /** Every row under the region contributes its anchors: the row loop goes
      on after a hit, so one region can yield many anchors. */
  lemma {:induction false} RegionRowsContain(s: Sheet, cat: string, g: Region, header: string, last: int, r: int, x: Anchor)
    requires g.maxRow < r <= last && x in RowAnchor(s, cat, g, r, header)
    ensures x in RegionRows(s, cat, g, header, last)
  {
    RowAnchorsAt(s, cat, g, header, r);
    GatherContains(RowAnchors(s, cat, g, header), g.maxRow + 1, last, r, x);
  }

  lemma {:induction false} RowAnchorsAt(s: Sheet, cat: string, g: Region, header: string, r: int)
    requires r > g.maxRow
    ensures RowAnchors(s, cat, g, header)(r) == RowAnchor(s, cat, g, r, header)
  {
  }

  /** `increment_column` on the label's column name, followed by its row, is
      the address of the cell to the label's right. */
  lemma {:induction false} RightOf(r: nat, c: int)
    requires c >= 1
    ensures IncrementColumn(ColumnLetter(c), 1) + NatToString(r) == Coordinate(r, c + 1)
  {
    var next := IncrementColumn(ColumnLetter(c), 1);
    ShiftedColumn(c, 1);
    assert next == ColumnLetter(c + 1);
    assert Coordinate(r, c + 1) == ColumnLetter(c + 1) + NatToString(r);
  }

  /** Every anchor's category is a heading, and the top-left value of one
      of the regions. */
  lemma {:induction false} AnchorCategories(s: Sheet, regions: seq<Region>, headings: seq<string>, header: string)
    ensures forall a :: a in OdPercentAnchors(s, regions, headings, header) ==>
              a.category in headings && exists g :: g in regions && ValueAt(s, g.minRow, g.minCol) == Str(a.category)
  {
    if regions != [] {
      var init := regions[..|regions| - 1];
      var g := regions[|regions| - 1];
      AnchorCategories(s, init, headings, header);
      assert forall x :: x in init ==> x in regions;
      match ValueAt(s, g.minRow, g.minCol)
      case Str(cat) =>
        if cat in headings {
          RegionRowsSound(s, cat, g, header, s.maxRow);
        }
      case _ =>
    }
  }

  /** Every category anchor names a cell by its coordinate. */
  lemma {:induction false} AnchorsAtCoordinates(s: Sheet, regions: seq<Region>, headings: seq<string>, header: string)
    ensures forall a :: a in OdPercentAnchors(s, regions, headings, header) ==>
              exists r: nat, c :: c >= 1 && a.address == Coordinate(r, c)
  {
    if regions != [] {
      var init := regions[..|regions| - 1];
      var g := regions[|regions| - 1];
      AnchorsAtCoordinates(s, init, headings, header);
      match ValueAt(s, g.minRow, g.minCol)
      case Str(cat) =>
        if cat in headings {
          RegionRowsSound(s, cat, g, header, s.maxRow);
          forall a | a in RegionRows(s, cat, g, header, s.maxRow)
            ensures exists r: nat, c :: c >= 1 && a.address == Coordinate(r, c)
          {
            var r, h, sr: nat, sc :| r <= s.maxRow && IsAnchorCell(s, g, r, h, sr, sc, header) && a.address == Coordinate(sr, sc + 1);
            assert sc + 1 >= 1;
          }
        }
      case _ =>
    }
  }

  /** A sheet with one merged region, the heading `30-` at A1: the header
      `H` in A2 and A3, and the overdue-share label in A4. */
  const ExampleRegion: Region := Span(1, 1, 1, 1)
  const ExampleSheet: Sheet :=
    Sheet(map[(1, 1) := Str("30-"), (2, 1) := Str("H"), (3, 1) := Str("H"), (4, 1) := Str(OdPercentLabel)], 4, 1, [ExampleRegion])

  /** On the example sheet one heading yields two anchors, both at B4: the
      two header rows under the region share the one label below them. */
  lemma {:induction false} TwoAnchorsFromOneRegion()
    ensures OdPercentAnchors(ExampleSheet, ExampleSheet.merged, ["30-"], "H") == [Anchor("30-", "B4"), Anchor("30-", "B4")]
  {
    var s, g := ExampleSheet, ExampleRegion;
    var f := RowAnchors(s, "30-", g, "H");
    ExampleHeaderRow(2);
    ExampleHeaderRow(3);
    ExampleLabelRow();
    RowAnchorsAt(s, "30-", g, "H", 2);
    RowAnchorsAt(s, "30-", g, "H", 3);
    RowAnchorsAt(s, "30-", g, "H", 4);
    assert Gather(f, 2, 1) == [];
    assert RegionAnchors(s, g, ["30-"], "H") == Gather(f, 2, 4);
    assert s.merged[..0] == [];
  }

  /** Each of the two header rows of the example finds the label in A4. */
  lemma {:induction false} ExampleHeaderRow(r: int)
    requires r == 2 || r == 3
    ensures RowAnchor(ExampleSheet, "30-", ExampleRegion, r, "H") == [Anchor("30-", "B4")]
  {
    var s := ExampleSheet;
    assert ValueAt(s, r, 1) == Str("H");
    assert FirstInRow(s, r, 1, 1, Str("H")) == Some(1);
    assert ValueAt(s, 4, 1) == Str(OdPercentLabel);
    assert ValueAt(s, 3, 1) != Str(OdPercentLabel);
    assert FirstInWindow(s, 4, 4, 1, 1, Str(OdPercentLabel)) == Some((4, 1));
    assert FirstInWindow(s, r + 1, 4, 1, 1, Str(OdPercentLabel)) == Some((4, 1));
    assert ColumnLetter(2) == "B";
    assert NatToString(4) == "4";
    assert Coordinate(4, 2) == "B4";
  }

  /** The label row of the example holds no header. */
  lemma {:induction false} ExampleLabelRow()
    ensures RowAnchor(ExampleSheet, "30-", ExampleRegion, 4, "H") == []
  {
    assert ValueAt(ExampleSheet, 4, 1) != Str("H");
  }

  // ---------------------------------------------------------------------
  // create_od_percent_table

  /** The table `create_od_percent_table` returns: an empty table, an
      exception (the sort reads the category column of an empty result), or
      the anchors in their final order. */
  datatype OdTable = NoTable | Failed | Rows(anchors: seq<Anchor>)

  /** The category order: the overall category, then the headings, each
      kept at its first occurrence. */
  function CategoryOrder(headings: seq<string>): seq<string> {
    Dedup([OverallCategory] + headings)
  }

  /** The sort key: a category's position in the order; categories outside
      it (none occur) would sort last, as missing values do. */
  function Rank(order: seq<string>): Anchor -> int {
    (a: Anchor) => if a.category in order then IndexOf(order, a.category) else |order|
  }

  /** The overall anchor: three columns right of the count header, same row. */
  function TotalAnchor(wb: Workbook, name: string, header: string): (r: seq<Anchor>)
    ensures |r| <= 1
  {
    match AddressOf(wb, name, Str(header))
    case None => []
    case Some(addr) =>
      if addr == [] then []
      else
        var p := FirstInWindow(wb[name], 1, wb[name].maxRow, 1, wb[name].maxCol, Str(header)).value;
        CoordinateParts(p.0, p.1);
        [Anchor(OverallCategory, IncrementColumn(KeepLetters(addr), 3) + KeepDigits(addr))]
  }

  /** `create_od_percent_table`; `wb` is the workbook as loaded, None when
      its file is missing. */
  function OdPercentTable(path: string, wb: Option<Workbook>, name: string, headings: seq<string>): OdTable {
    match ExtractDate(path)
    case None => NoTable
    case Some(date) =>
      if wb.None? then NoTable
      else
        var results := TotalAnchor(wb.value, name, CountPrefix + date) +
                       OdPercentAddresses(wb.value, name, headings, ArrearsPrefix + date);
        if results == [] then Failed else Rows(SortBy(results, Rank(CategoryOrder(headings))))
  }

  /** `create_od_percent_table`: the date, the two dated headers, the
      category anchors, the overall anchor put in front, and the sort by
      category order. */
  method CreateOdPercentTable(path: string, wb: Option<Workbook>, name: string, headings: seq<string>)
    returns (out: OdTable)
    ensures out == OdPercentTable(path, wb, name, headings)
  {
    var date := ExtractDate(path);
    if date.None? {
      return NoTable;
    }
    var arrearsHeader := ArrearsPrefix + date.value;
    var countHeader := CountPrefix + date.value;
    if wb.None? {
      return NoTable;
    }
    var results := FindOdPercentAddress(wb.value, name, headings, arrearsHeader);
    ghost var found := results;
    var totalAddress := FindAddressForValue(wb.value, name, Str(countHeader));
    if totalAddress.Some? && totalAddress.value != [] {
      var addr := totalAddress.value;
      var s := wb.value[name];
      var p := FirstInWindow(s, 1, s.maxRow, 1, s.maxCol, Str(countHeader)).value;
      CoordinateParts(p.0, p.1);
      var totalCol := KeepLetters(addr);
      var totalRow := KeepDigits(addr);
      var newTotalCol := IncrementColumn(totalCol, 3);
      assert TotalAnchor(wb.value, name, countHeader) == [Anchor(OverallCategory, newTotalCol + totalRow)];
      results := [Anchor(OverallCategory, newTotalCol + totalRow)] + results;
    } else {
      assert TotalAnchor(wb.value, name, countHeader) == [];
    }
    assert results == TotalAnchor(wb.value, name, countHeader) + found;
    assert OdPercentTable(path, wb, name, headings) ==
           if results == [] then Failed else Rows(SortBy(results, Rank(CategoryOrder(headings))));
    if results == [] {
      return Failed;
    }
    var order := CategoryOrder(headings);
    out := Rows(SortBy(results, Rank(order)));
  }

  // ---------------------------------------------------------------------
  // Properties of create_od_percent_table

  /** An empty table comes exactly from a path without a date or a missing
      file; the exception exactly from finding neither the count header nor
      any category anchor. */
  lemma {:induction false} OdPercentTableOutcomes(path: string, wb: Option<Workbook>, name: string, headings: seq<string>)
    ensures OdPercentTable(path, wb, name, headings) == NoTable <==> ExtractDate(path).None? || wb.None?
    ensures OdPercentTable(path, wb, name, headings) == Failed <==>
              ExtractDate(path).Some? && wb.Some? &&
              AddressOf(wb.value, name, Str(CountPrefix + ExtractDate(path).value)).None? &&
              OdPercentAddresses(wb.value, name, headings, ArrearsPrefix + ExtractDate(path).value) == []
  {
    if ExtractDate(path).Some? && wb.Some? {
      var date := ExtractDate(path).value;
      var addr := AddressOf(wb.value, name, Str(CountPrefix + date));
      if addr.Some? {
        var p := FirstInWindow(wb.value[name], 1, wb.value[name].maxRow, 1, wb.value[name].maxCol, Str(CountPrefix + date)).value;
        assert addr.value == Coordinate(p.0, p.1);
        assert |TotalAnchor(wb.value, name, CountPrefix + date)| == 1;
      }
    }
  }

  /** The overall anchor of a found count header at `(r, c)` sits at row
      `r`, column `c + 3`. */
  lemma {:induction false} TotalAnchorAddress(wb: Workbook, name: string, header: string)
    requires name in wb
    requires FirstInWindow(wb[name], 1, wb[name].maxRow, 1, wb[name].maxCol, Str(header)).Some?
    ensures var p := FirstInWindow(wb[name], 1, wb[name].maxRow, 1, wb[name].maxCol, Str(header)).value;
            TotalAnchor(wb, name, header) == [Anchor(OverallCategory, Coordinate(p.0, p.1 + 3))]
  {
    var p := FirstInWindow(wb[name], 1, wb[name].maxRow, 1, wb[name].maxCol, Str(header)).value;
    CoordinateParts(p.0, p.1);
    ShiftedColumn(p.1, 3);
    assert Coordinate(p.0, p.1) != [];
  }

  /** The overall anchor, when there is one, sits at a coordinate, on the
      sheet the workbook has under `name`. */
  lemma {:induction false} TotalAnchorAtCoordinate(wb: Workbook, name: string, header: string)
    ensures TotalAnchor(wb, name, header) != [] ==> name in wb
    ensures forall a :: a in TotalAnchor(wb, name, header) ==> exists r: nat, c :: c >= 1 && a.address == Coordinate(r, c)
  {
    if TotalAnchor(wb, name, header) != [] {
      assert name in wb;
      var p := FirstInWindow(wb[name], 1, wb[name].maxRow, 1, wb[name].maxCol, Str(header)).value;
      TotalAnchorAddress(wb, name, header);
      var r: nat, c := p.0, p.1 + 3;
      assert TotalAnchor(wb, name, header) == [Anchor(OverallCategory, Coordinate(r, c))];
    }
  }

  /** The final table holds exactly the anchors found, as a multiset, in
      category order; every category is in that order, and anchors of one
      category keep the order in which they were found. */
  lemma {:induction false} OdPercentTableOrdered(path: string, wb: Option<Workbook>, name: string, headings: seq<string>)
    requires OdPercentTable(path, wb, name, headings).Rows?
    ensures var date := ExtractDate(path).value;
            var results := TotalAnchor(wb.value, name, CountPrefix + date) +
                           OdPercentAddresses(wb.value, name, headings, ArrearsPrefix + date);
            var rows := OdPercentTable(path, wb, name, headings).anchors;
            && multiset(rows) == multiset(results)
            && SortedBy(rows, Rank(CategoryOrder(headings)))
            && (forall k :: WithKey(rows, Rank(CategoryOrder(headings)), k) == WithKey(results, Rank(CategoryOrder(headings)), k))
            && (forall a :: a in rows ==> a.category in CategoryOrder(headings))
  {
    var date := ExtractDate(path).value;
    var total := TotalAnchor(wb.value, name, CountPrefix + date);
    var found := OdPercentAddresses(wb.value, name, headings, ArrearsPrefix + date);
    var results := total + found;
    var rows := SortBy(results, Rank(CategoryOrder(headings)));
    SortByFacts(results, Rank(CategoryOrder(headings)));
    if name in wb.value {
      AnchorCategories(wb.value[name], wb.value[name].merged, headings, ArrearsPrefix + date);
    }
    forall a | a in rows ensures a.category in CategoryOrder(headings) {
      assert a in multiset(rows);
      assert a in results;
      if a in total {
        assert a.category == OverallCategory;
      } else {
        assert a in found;
      }
    }
  }

  /** The overall category comes first in the category order. */
  lemma {:induction false} OverallRankZero(headings: seq<string>)
    ensures OverallCategory in CategoryOrder(headings)
    ensures Rank(CategoryOrder(headings))(Anchor(OverallCategory, "")) == 0
  {
    var s := [OverallCategory] + headings;
    var order := CategoryOrder(headings);
    assert OverallCategory in s;
    DedupFirstSeenOrder(s);
    assert order[0] in s && IndexOf(s, order[0]) >= 0;
  }

  /** When the count header is found, the overall anchor heads the final
      table, ahead of every category anchor. */
  lemma {:induction false} OverallAnchorFirst(path: string, wb: Option<Workbook>, name: string, headings: seq<string>)
    requires ExtractDate(path).Some? && wb.Some?
    requires TotalAnchor(wb.value, name, CountPrefix + ExtractDate(path).value) != []
    ensures OdPercentTable(path, wb, name, headings).Rows?
    ensures OdPercentTable(path, wb, name, headings).anchors[0] == TotalAnchor(wb.value, name, CountPrefix + ExtractDate(path).value)[0]
  {
    var date := ExtractDate(path).value;
    var t := TotalAnchor(wb.value, name, CountPrefix + date)[0];
    var found := OdPercentAddresses(wb.value, name, headings, ArrearsPrefix + date);
    var results := [t] + found;
    assert TotalAnchor(wb.value, name, CountPrefix + date) == [t];
    var key := Rank(CategoryOrder(headings));
    var rows := SortBy(results, key);
    assert OdPercentTable(path, wb, name, headings) == Rows(rows);
    OverallRankZero(headings);
    assert t.category == OverallCategory;
    assert key(t) == 0;
    SortByFacts(results, key);
    assert t in multiset(rows);
    var j :| 0 <= j < |rows| && rows[j] == t;
    assert key(rows[0]) <= key(rows[j]);
    assert key(rows[0]) == 0;
    assert WithKey(results, key, 0)[0] == t;
    assert WithKey(rows, key, 0)[0] == rows[0];
  }
}
