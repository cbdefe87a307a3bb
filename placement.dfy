/** The report writer of main.py: the processed tables are written into a
    copy of the report sheet, each at its category's anchor, after as many
    fresh columns as the table has are inserted there. */
module Placement {
  import opened Common
  import opened Grid
  import opened CrossTab
  import opened Ledger
  import opened Layout
  import opened Pipeline

  /** Header labels whose cells are filled red. */
  const RedHeaders: seq<string> := ["Не дозвон", "Бросил трубку", "Другой номер", "Не знаком с клиентом",
                                    "Дело в суде", "Клиент умер", "Отказывается от оплаты", "Отказывается от разговора"]

  /** The merged headings of the report's category blocks. */
  const MainHeadings: seq<string> := ["30-", "30+", "60+", "90+", "180+", "365+"]

  // ---------------------------------------------------------------------
  // find_row_in_report

  /** `find_row_in_report`: the coordinate of the first cell, row by row
      over `1..max_row` and `1..max_column`, holding `v`. */
  method FindRowInReport(s: Sheet, v: Value) returns (addr: Option<string>)
    ensures addr == CellAddress(s, v)
    ensures addr.None? <==> forall r, c :: 1 <= r <= s.maxRow && 1 <= c <= s.maxCol ==> ValueAt(s, r, c) != v
    ensures addr.Some? ==> exists r: nat, c :: c >= 1 && IsFirstMatch(s, r, c, v) && addr.value == Coordinate(r, c)
  {
    var p := ScanWindow(s, 1, s.maxRow, 1, s.maxCol, v);
    WholeSheetScan(s, v);
    if p.None? {
      return None;
    }
    addr := Some(Coordinate(p.value.0, p.value.1));
  }

  // ---------------------------------------------------------------------
  // The anchor dictionary

  /** One address split by `re.findall(r'([A-Z]+)([0-9]+)', address)[0]`
      into `(row, column)`; None where the source indexes an empty list. */
  function ParseAddress(address: string): Option<(nat, int)> {
    match SplitA1(address)
    case None => None
    case Some(parts) => Some((ParseNat(parts.1), ColumnIndex(parts.0)))
  }

  /** A coordinate parses back to its row and column. */
  lemma {:induction false} ParseCoordinate(r: nat, c: int)
    requires c >= 1
    ensures ParseAddress(Coordinate(r, c)) == Some((r, c))
  {
    SplitCoordinate(r, c);
    ParsePrinted(r);
    IndexOfLetter(c);
  }

  /** The dictionary of anchors `category -> (row, column)` built row by row
      from the anchor table; a later row of a category overwrites an earlier
      one in place. None when an address does not parse. */
  function Addresses(anchors: seq<Anchor>): Option<OrderedMap<string, (nat, int)>> {
    if anchors == [] then Some([])
    else
      var a := anchors[|anchors| - 1];
      match Addresses(anchors[..|anchors| - 1])
      case None => None
      case Some(m) =>
        match ParseAddress(a.address)
        case None => None
        case Some(p) => Some(Put(m, a.category, p))
  }

  /** The loop building the anchor dictionary. */
  method ParseAddresses(anchors: seq<Anchor>) returns (addresses: Option<OrderedMap<string, (nat, int)>>)
    ensures addresses == Addresses(anchors)
  {
    var m: OrderedMap<string, (nat, int)> := [];
    var i := 0;
    while i < |anchors|
      invariant 0 <= i <= |anchors|
      invariant Addresses(anchors[..i]) == Some(m)
    {
      assert anchors[..i + 1][..i] == anchors[..i];
      var parts := SplitA1(anchors[i].address);
      if parts.None? {
        AddressesDefined(anchors);
        assert ParseAddress(anchors[i].address).None?;
        return None;
      }
      var col := ColumnIndex(parts.value.0);
      var row := ParseNat(parts.value.1);
      m := Put(m, anchors[i].category, (row, col));
      i := i + 1;
    }
    assert anchors[..i] == anchors;
    return Some(m);
  }

  /** The dictionary is built exactly when every address parses; its keys
      are the categories in order of first appearance. */
  lemma {:induction false} AddressesDefined(anchors: seq<Anchor>)
    ensures Addresses(anchors).Some? <==> forall a :: a in anchors ==> ParseAddress(a.address).Some?
    ensures Addresses(anchors).Some? ==> Keys(Addresses(anchors).value) == Dedup(CategoriesOf(anchors))
  {
    if anchors != [] {
      var init := anchors[..|anchors| - 1];
      var a := anchors[|anchors| - 1];
      AddressesDefined(init);
      assert anchors == init + [a];
      assert forall x :: x in anchors <==> x in init || x == a;
      assert CategoriesOf(anchors) == CategoriesOf(init) + [a.category];
    }
  }

  /** The categories of the anchors, in order. */
  function CategoriesOf(anchors: seq<Anchor>): (cs: seq<string>)
    ensures |cs| == |anchors| && forall i :: 0 <= i < |anchors| ==> cs[i] == anchors[i].category
  {
    seq(|anchors|, i requires 0 <= i < |anchors| => anchors[i].category)
  }

  /** A category holds the position of its last anchor. */
  lemma {:induction false} AddressesLastWins(anchors: seq<Anchor>, i: int)
    requires Addresses(anchors).Some? && 0 <= i < |anchors|
    requires forall j :: i < j < |anchors| ==> anchors[j].category != anchors[i].category
    ensures Get(Addresses(anchors).value, anchors[i].category) == ParseAddress(anchors[i].address)
  {
    var n := |anchors| - 1;
    var init := anchors[..n];
    var a := anchors[n];
    var m := Addresses(init).value;
    var p := ParseAddress(a.address).value;
    assert Addresses(anchors).value == Put(m, a.category, p);
    if i < n {
      assert a.category != anchors[i].category;
      assert init[i] == anchors[i];
      assert forall j :: i < j < |init| ==> init[j] == anchors[j];
      AddressesLastWins(init, i);
    }
  }

  /** A category without an anchor is not a key. */
  lemma {:induction false} AddressesAbsent(anchors: seq<Anchor>, k: string)
    requires Addresses(anchors).Some?
    requires forall a :: a in anchors ==> a.category != k
    ensures Get(Addresses(anchors).value, k) == None
  {
    if anchors != [] {
      var init := anchors[..|anchors| - 1];
      assert forall a :: a in init ==> a in anchors;
      AddressesAbsent(init, k);
    }
  }

  /** Every anchor of a final anchor table parses, so the dictionary is
      built and the sheet it was read from exists. */
  lemma {:induction false} TableAddressesDefined(path: string, wb: Option<Workbook>, name: string, headings: seq<string>)
    requires OdPercentTable(path, wb, name, headings).Rows?
    ensures name in wb.value
    ensures Addresses(OdPercentTable(path, wb, name, headings).anchors).Some?
  {
    var date := ExtractDate(path).value;
    var total := TotalAnchor(wb.value, name, CountPrefix + date);
    var found := OdPercentAddresses(wb.value, name, headings, ArrearsPrefix + date);
    var results := total + found;
    var rows := OdPercentTable(path, wb, name, headings).anchors;
    assert multiset(rows) == multiset(results) by {
      OdPercentTableOrdered(path, wb, name, headings);
    }
    TotalAnchorAtCoordinate(wb.value, name, CountPrefix + date);
    ResultsAtCoordinates(wb.value, name, headings, date, results);
    CoordinateAddresses(rows, results);
  }

  /** Every anchor `create_od_percent_table` collects sits at a coordinate. */
  lemma {:induction false} ResultsAtCoordinates(wb: Workbook, name: string, headings: seq<string>, date: string, results: seq<Anchor>)
    requires results == TotalAnchor(wb, name, CountPrefix + date) + OdPercentAddresses(wb, name, headings, ArrearsPrefix + date)
    ensures forall a :: a in results ==> exists r: nat, c :: c >= 1 && a.address == Coordinate(r, c)
  {
    TotalAnchorAtCoordinate(wb, name, CountPrefix + date);
    if name in wb {
      AnchorsAtCoordinates(wb[name], wb[name].merged, headings, ArrearsPrefix + date);
    }
  }

  /** Anchors that are, up to order, anchors at coordinates all parse. */
  lemma {:induction false} CoordinateAddresses(rows: seq<Anchor>, results: seq<Anchor>)
    requires multiset(rows) == multiset(results)
    requires forall a :: a in results ==> exists r: nat, c :: c >= 1 && a.address == Coordinate(r, c)
    ensures Addresses(rows).Some?
  {
    forall a | a in rows ensures ParseAddress(a.address).Some? {
      assert a in multiset(rows);
      assert a in results;
      var r: nat, c :| c >= 1 && a.address == Coordinate(r, c);
      ParseCoordinate(r, c);
    }
    AddressesDefined(rows);
  }

  // ---------------------------------------------------------------------
  // Sheet edits

  function Max(a: int, b: int): int {
    if a < b then b else a
  }

  /** Every stored cell lies inside `1..max_row` and `1..max_column`, as
      openpyxl keeps a worksheet. */
  predicate Bounded(s: Sheet) {
    forall p :: p in s.cells ==> 1 <= p.0 <= s.maxRow && 1 <= p.1 <= s.maxCol
  }

  /** `ws.cell(row=r, column=c).value = v`; the sheet's extent grows to
      cover the cell. */
  function WriteCell(s: Sheet, r: int, c: int, v: Value): (t: Sheet)
    ensures ValueAt(t, r, c) == v
    ensures forall r', c' :: (r', c') != (r, c) ==> ValueAt(t, r', c') == ValueAt(s, r', c')
    ensures t.maxRow >= s.maxRow && t.maxCol >= s.maxCol && t.merged == s.merged
    ensures Bounded(s) && r >= 1 && c >= 1 ==> Bounded(t)
  {
    s.(cells := s.cells[(r, c) := v], maxRow := Max(s.maxRow, r), maxCol := Max(s.maxCol, c))
  }

  /** Where column `c` lands when `n` columns are inserted at column `at`. */
  function ShiftCol(c: int, at: int, n: nat): int {
    if c >= at then c + n else c
  }

  /** The column that lands on `c`, for a column outside the inserted ones. */
  function UnshiftCol(c: int, at: int, n: nat): int {
    if c >= at + n then c - n else c
  }

  function ShiftSpan(g: Span, at: int, n: nat): (h: Span)
    ensures h.minRow == g.minRow && h.maxRow == g.maxRow && h.minCol >= g.minCol
    ensures g.minCol <= g.maxCol ==> h.minCol <= h.maxCol
  {
    Span(g.minRow, g.maxRow, ShiftCol(g.minCol, at, n), ShiftCol(g.maxCol, at, n))
  }

  lemma {:induction false} ShiftColTwice(c: int, at: int, k: nat)
    ensures ShiftCol(ShiftCol(c, at, k), at + k, 1) == ShiftCol(c, at, k + 1)
  {
  }

  /** The cells (or fills) after inserting `n` columns at `at`. */
  function ShiftCells<V>(cells: map<(int, int), V>, at: int, n: nat): map<(int, int), V> {
    map p | p in cells :: (p.0, ShiftCol(p.1, at, n)) := cells[p]
  }

  /** `m` is `cells` after inserting `n` columns at `at`: a position in the
      inserted columns holds nothing, any other holds what the position that
      moved onto it held. */
  ghost predicate ShiftedFrom<V>(m: map<(int, int), V>, cells: map<(int, int), V>, at: int, n: nat) {
    forall q :: (q in m <==> !(at <= q.1 < at + n) && (q.0, UnshiftCol(q.1, at, n)) in cells) &&
                (q in m ==> m[q] == cells[(q.0, UnshiftCol(q.1, at, n))])
  }

  lemma {:induction false} ShiftCellsShifted<V>(cells: map<(int, int), V>, at: int, n: nat)
    ensures ShiftedFrom(ShiftCells(cells, at, n), cells, at, n)
  {
    var m := ShiftCells(cells, at, n);
    forall q ensures (q in m <==> !(at <= q.1 < at + n) && (q.0, UnshiftCol(q.1, at, n)) in cells) &&
                     (q in m ==> m[q] == cells[(q.0, UnshiftCol(q.1, at, n))])
    {
      var p := (q.0, UnshiftCol(q.1, at, n));
      if !(at <= q.1 < at + n) && p in cells {
        assert (p.0, ShiftCol(p.1, at, n)) == q;
      }
      if q in m {
        var p' :| p' in cells && (p'.0, ShiftCol(p'.1, at, n)) == q;
        assert p' == p;
      }
    }
  }

  lemma {:induction false} ShiftedNone<V>(cells: map<(int, int), V>, at: int)
    ensures ShiftedFrom(cells, cells, at, 0)
  {
  }

  /** Inserting `k` columns at `at` and then one more right after them is
      inserting `k + 1` columns at `at`. */
  lemma {:induction false} ShiftedOneMore<V>(cells: map<(int, int), V>, mid: map<(int, int), V>, two: map<(int, int), V>, at: int, k: nat, next: int)
    requires next == at + k
    requires ShiftedFrom(mid, cells, at, k) && ShiftedFrom(two, mid, next, 1)
    ensures ShiftedFrom(two, cells, at, k + 1)
  {
    forall q ensures (q in two <==> !(at <= q.1 < at + k + 1) && (q.0, UnshiftCol(q.1, at, k + 1)) in cells) &&
                     (q in two ==> two[q] == cells[(q.0, UnshiftCol(q.1, at, k + 1))])
    {
      var c := q.1;
      var m := (q.0, UnshiftCol(c, at + k, 1));
      var p := (q.0, UnshiftCol(c, at, k + 1));
      if at <= c < at + k + 1 {
        if at + k <= c {
          assert q !in two;
        } else {
          assert m == q;
          assert at <= m.1 < at + k;
          assert m !in mid;
          assert q !in two;
        }
      } else {
        assert (m.0, UnshiftCol(m.1, at, k)) == p;
        assert !(at <= m.1 < at + k);
        assert q in two <==> m in mid;
        assert m in mid <==> p in cells;
      }
    }
  }

  /** The insertion determines the new cells. */
  lemma {:induction false} ShiftedUnique<V>(a: map<(int, int), V>, b: map<(int, int), V>, cells: map<(int, int), V>, at: int, n: nat)
    requires ShiftedFrom(a, cells, at, n) && ShiftedFrom(b, cells, at, n)
    ensures a == b
  {
    assert a.Keys == b.Keys;
  }

  function ShiftSpans(gs: seq<Span>, at: int, n: nat): (r: seq<Span>)
    ensures |r| == |gs| && forall i :: 0 <= i < |gs| ==> r[i] == ShiftSpan(gs[i], at, n)
  {
    seq(|gs|, i requires 0 <= i < |gs| => ShiftSpan(gs[i], at, n))
  }

  lemma {:induction false} ShiftSpansTwice(gs: seq<Span>, at: int, k: nat)
    ensures ShiftSpans(ShiftSpans(gs, at, k), at + k, 1) == ShiftSpans(gs, at, k + 1)
  {
    var two := ShiftSpans(ShiftSpans(gs, at, k), at + k, 1);
    forall i | 0 <= i < |gs| ensures two[i] == ShiftSpans(gs, at, k + 1)[i] {
      ShiftColTwice(gs[i].minCol, at, k);
      ShiftColTwice(gs[i].maxCol, at, k);
    }
  }

  function ShiftRegions(rs: seq<Region>, at: int, n: nat): (r: seq<Region>)
    ensures r == ShiftSpans(rs, at, n)
  {
    seq(|rs|, i requires 0 <= i < |rs| => ShiftSpan(rs[i], at, n))
  }

  /** Excel's `Columns(at).Insert(Shift=xlToRight)` done `n` times: the cells
      and merged ranges at or right of column `at` move `n` columns right. */
  function InsertedSheet(s: Sheet, at: int, n: nat): Sheet {
    Sheet(ShiftCells(s.cells, at, n), s.maxRow, ShiftCol(s.maxCol, at, n), ShiftRegions(s.merged, at, n))
  }

  /** A sheet and fills shifted like an insertion of `n` columns are that
      insertion. */
  lemma {:induction false} InsertedExactly(s0: Sheet, s: Sheet, f0: map<(int, int), Fill>, f: map<(int, int), Fill>, at: int, n: nat)
    requires ShiftedFrom(s.cells, s0.cells, at, n) && ShiftedFrom(f, f0, at, n)
    requires s.maxRow == s0.maxRow && s.maxCol == ShiftCol(s0.maxCol, at, n) && s.merged == ShiftSpans(s0.merged, at, n)
    ensures s == InsertedSheet(s0, at, n) && f == ShiftCells(f0, at, n)
  {
    ShiftCellsShifted(s0.cells, at, n);
    ShiftedUnique(s.cells, ShiftCells(s0.cells, at, n), s0.cells, at, n);
    ShiftCellsShifted(f0, at, n);
    ShiftedUnique(f, ShiftCells(f0, at, n), f0, at, n);
  }

  /** After the insertion every old cell sits `n` columns right when it was
      at or right of `at`, and the inserted columns are empty. */
  lemma {:induction false} InsertedValues(s: Sheet, at: int, n: nat)
    ensures forall r, c :: ValueAt(InsertedSheet(s, at, n), r, ShiftCol(c, at, n)) == ValueAt(s, r, c)
    ensures forall r, c :: at <= c < at + n ==> ValueAt(InsertedSheet(s, at, n), r, c) == Blank
    ensures Bounded(s) && at >= 1 ==> Bounded(InsertedSheet(s, at, n))
  {
    var t := InsertedSheet(s, at, n);
    ShiftCellsShifted(s.cells, at, n);
    forall r, c ensures ValueAt(t, r, ShiftCol(c, at, n)) == ValueAt(s, r, c) {
      assert UnshiftCol(ShiftCol(c, at, n), at, n) == c;
    }
  }

  /** A cell outside a bounded sheet's extent is empty. */
  lemma {:induction false} OutsideIsBlank(s: Sheet, r: int, c: int)
    requires Bounded(s) && !(1 <= r <= s.maxRow && 1 <= c <= s.maxCol)
    ensures ValueAt(s, r, c) == Blank
  {
  }

  /** Writing a number into a cell that does not hold label `x` leaves the
      lookup of `x` where it was. */
  lemma {:induction false} LookupAfterNumber(s: Sheet, r: int, c: int, m: int, x: string)
    requires Bounded(s) && r >= 1 && c >= 1 && ValueAt(s, r, c) != Str(x)
    ensures FirstCell(WriteCell(s, r, c, Num(m)), Str(x)) == FirstCell(s, Str(x))
  {
    var t := WriteCell(s, r, c, Num(m));
    var v := Str(x);
    WholeSheetScan(s, v);
    WholeSheetScan(t, v);
    forall r', c' | ValueAt(t, r', c') == v ensures ValueAt(s, r', c') == v && 1 <= r' <= s.maxRow && 1 <= c' <= s.maxCol {
      if !(1 <= r' <= s.maxRow && 1 <= c' <= s.maxCol) {
        OutsideIsBlank(s, r', c');
      }
    }
    if FirstCell(s, v).Some? {
      var p := FirstCell(s, v).value;
      assert IsFirstMatch(t, p.0, p.1, v);
      FirstCellOf(t, v, p.0, p.1);
    }
  }

  // ---------------------------------------------------------------------
  // The header row, its fills and the merge band

  /** The cell fills the writer sets: red on a header with a red label,
      blue on the merged band above the headers. */
  datatype Fill = Red | Blue

  /** What the writer has made of the report sheet: its cells, the fills it
      set and the ranges it merged. */
  datatype Report = Report(sheet: Sheet, fills: map<(int, int), Fill>, bands: seq<Span>)

  /** The header loop: `headers[i]` is written at `(row, start + i)`. */
  function WithHeaders(s: Sheet, row: int, start: int, headers: seq<string>): Sheet
    decreases |headers|
  {
    if headers == [] then s
    else WriteCell(WithHeaders(s, row, start, headers[..|headers| - 1]), row, start + |headers| - 1, Str(headers[|headers| - 1]))
  }

  /** The headers stand left to right from the start column, in order, and
      nothing else changes. */
  lemma {:induction false} HeaderCells(s: Sheet, row: int, start: int, headers: seq<string>)
    ensures forall i :: 0 <= i < |headers| ==> ValueAt(WithHeaders(s, row, start, headers), row, start + i) == Str(headers[i])
    ensures forall r, c :: r != row || c < start || c >= start + |headers| ==>
              ValueAt(WithHeaders(s, row, start, headers), r, c) == ValueAt(s, r, c)
    ensures Bounded(s) && row >= 1 && start >= 1 ==> Bounded(WithHeaders(s, row, start, headers))
    ensures WithHeaders(s, row, start, headers).merged == s.merged
  {
    if headers != [] {
      var init := headers[..|headers| - 1];
      HeaderCells(s, row, start, init);
      assert forall i :: 0 <= i < |init| ==> init[i] == headers[i];
    }
  }

  /** A header label that is filled red. */
  predicate IsRed(v: Value) {
    v.Str? && v.s in RedHeaders
  }

  /** The fill loop over the `n` header cells: a cell holding a red label
      is filled red. */
  function RedFills(fills: map<(int, int), Fill>, s: Sheet, row: int, start: int, n: nat): map<(int, int), Fill>
    decreases n
  {
    if n == 0 then fills
    else
      var f := RedFills(fills, s, row, start, n - 1);
      if IsRed(ValueAt(s, row, start + n - 1)) then f[(row, start + n - 1) := Red] else f
  }

  /** The fill loop colours red exactly the cells among the `n` that hold a
      red label; no other fill changes. */
  lemma {:induction false} RedFillsCells(fills: map<(int, int), Fill>, s: Sheet, row: int, start: int, n: nat)
    ensures forall c :: start <= c < start + n && IsRed(ValueAt(s, row, c)) ==>
              (row, c) in RedFills(fills, s, row, start, n) && RedFills(fills, s, row, start, n)[(row, c)] == Red
    ensures forall c :: start <= c < start + n && !IsRed(ValueAt(s, row, c)) ==>
              ((row, c) in RedFills(fills, s, row, start, n) <==> (row, c) in fills) &&
              ((row, c) in fills ==> RedFills(fills, s, row, start, n)[(row, c)] == fills[(row, c)])
    ensures forall q: (int, int) :: (q.0 != row || q.1 < start || q.1 >= start + n) ==>
              (q in RedFills(fills, s, row, start, n) <==> q in fills) &&
              (q in fills ==> RedFills(fills, s, row, start, n)[q] == fills[q])
  {
    if n > 0 {
      RedFillsCells(fills, s, row, start, n - 1);
    }
  }

  /** After the headers are written, header `i` is red exactly when its
      label is a red label; no other fill changes. */
  lemma {:induction false} RedHeaderFills(fills: map<(int, int), Fill>, s: Sheet, row: int, start: int, headers: seq<string>, n: nat)
    requires n <= |headers|
    ensures forall i :: 0 <= i < n ==>
              (headers[i] in RedHeaders ==>
                 (row, start + i) in RedFills(fills, WithHeaders(s, row, start, headers), row, start, n) &&
                 RedFills(fills, WithHeaders(s, row, start, headers), row, start, n)[(row, start + i)] == Red)
    ensures forall i :: 0 <= i < n && headers[i] !in RedHeaders ==>
              ((row, start + i) in RedFills(fills, WithHeaders(s, row, start, headers), row, start, n) <==> (row, start + i) in fills) &&
              ((row, start + i) in fills ==> RedFills(fills, WithHeaders(s, row, start, headers), row, start, n)[(row, start + i)] == fills[(row, start + i)])
    ensures forall q: (int, int) :: (q.0 != row || q.1 < start || q.1 >= start + n) ==>
              (q in RedFills(fills, WithHeaders(s, row, start, headers), row, start, n) <==> q in fills) &&
              (q in fills ==> RedFills(fills, WithHeaders(s, row, start, headers), row, start, n)[q] == fills[q])
  {
    var w := WithHeaders(s, row, start, headers);
    HeaderCells(s, row, start, headers);
    RedFillsCells(fills, w, row, start, n);
    assert forall i :: 0 <= i < n ==> ValueAt(w, row, start + i) == Str(headers[i]);
  }

  /** The band fill loop: the `n` cells of row `row` from `start` on are
      filled blue. */
  function BlueFills(fills: map<(int, int), Fill>, row: int, start: int, n: nat): (f: map<(int, int), Fill>)
    ensures forall c :: start <= c < start + n ==> (row, c) in f && f[(row, c)] == Blue
    ensures forall q: (int, int) :: (q.0 != row || q.1 < start || q.1 >= start + n) ==> (q in f <==> q in fills) && (q in fills ==> f[q] == fills[q])
    decreases n
  {
    if n == 0 then fills else BlueFills(fills, row, start, n - 1)[(row, start + n - 1) := Blue]
  }

  /** The merged band: one row, `n` columns from `start`. */
  function Band(row: int, start: int, n: nat): (g: Span)
    ensures g.minRow == g.maxRow == row && g.minCol == start && g.maxCol - g.minCol + 1 == n
  {
    Span(row, row, start, start + n - 1)
  }

  // ---------------------------------------------------------------------
  // The data rows

  /** One table row written into sheet row `r`: the value under header `i`
      goes to column `start + i`; a header the table lacks is skipped. */
  function RowValues(s: Sheet, r: int, start: int, t: Table, rowLabel: string, headers: seq<string>): Sheet
    decreases |headers|
  {
    if headers == [] then s
    else
      var prev := RowValues(s, r, start, t, rowLabel, headers[..|headers| - 1]);
      var h := headers[|headers| - 1];
      if h in t.cols then WriteCell(prev, r, start + |headers| - 1, Num(At(t, rowLabel, h))) else prev
  }

  lemma {:induction false} RowValuesCells(s: Sheet, r: int, start: int, t: Table, rowLabel: string, headers: seq<string>)
    ensures forall i :: 0 <= i < |headers| && headers[i] in t.cols ==>
              ValueAt(RowValues(s, r, start, t, rowLabel, headers), r, start + i) == Num(At(t, rowLabel, headers[i]))
    ensures forall r', c :: r' != r || !(start <= c < start + |headers|) || headers[c - start] !in t.cols ==>
              ValueAt(RowValues(s, r, start, t, rowLabel, headers), r', c) == ValueAt(s, r', c)
    ensures RowValues(s, r, start, t, rowLabel, headers).merged == s.merged
    ensures Bounded(s) && r >= 1 && start >= 1 ==> Bounded(RowValues(s, r, start, t, rowLabel, headers))
  {
    if headers != [] {
      var init := headers[..|headers| - 1];
      RowValuesCells(s, r, start, t, rowLabel, init);
      assert forall i :: 0 <= i < |init| ==> init[i] == headers[i];
    }
  }

  /** No cell of the columns `start .. start + n - 1` holds label `x`. */
  ghost predicate Clear(s: Sheet, start: int, n: int, x: string) {
    forall r, c :: start <= c < start + n ==> ValueAt(s, r, c) != Str(x)
  }

  /** Writing a row of numbers puts no label into the block's columns. */
  lemma {:induction false} RowValuesClear(s: Sheet, r: int, start: int, t: Table, rowLabel: string, headers: seq<string>, x: string)
    requires Clear(s, start, |headers|, x)
    ensures Clear(RowValues(s, r, start, t, rowLabel, headers), start, |headers|, x)
  {
    RowValuesCells(s, r, start, t, rowLabel, headers);
    var w := RowValues(s, r, start, t, rowLabel, headers);
    forall r', c | start <= c < start + |headers| ensures ValueAt(w, r', c) != Str(x) {
      if r' == r && headers[c - start] in t.cols {
        assert ValueAt(w, r, start + (c - start)) == Num(At(t, rowLabel, headers[c - start]));
      }
    }
  }

  /** Writing a row of numbers leaves the lookup of a label where it was. */
  lemma {:induction false} RowValuesLookup(s: Sheet, r: int, start: int, t: Table, rowLabel: string, headers: seq<string>, x: string)
    requires Bounded(s) && r >= 1 && start >= 1 && Clear(s, start, |headers|, x)
    ensures Clear(RowValues(s, r, start, t, rowLabel, headers), start, |headers|, x)
    ensures FirstCell(RowValues(s, r, start, t, rowLabel, headers), Str(x)) == FirstCell(s, Str(x))
  {
    RowValuesClear(s, r, start, t, rowLabel, headers, x);
    if headers != [] {
      var init := headers[..|headers| - 1];
      assert Clear(s, start, |init|, x);
      RowValuesLookup(s, r, start, t, rowLabel, init, x);
      RowValuesLookupStep(s, r, start, t, rowLabel, headers, x);
    }
  }

  /** The last header's number does not move the lookup of a label. */
  lemma {:induction false} RowValuesLookupStep(s: Sheet, r: int, start: int, t: Table, rowLabel: string, headers: seq<string>, x: string)
    requires Bounded(s) && r >= 1 && start >= 1 && Clear(s, start, |headers|, x) && headers != []
    requires FirstCell(RowValues(s, r, start, t, rowLabel, headers[..|headers| - 1]), Str(x)) == FirstCell(s, Str(x))
    ensures FirstCell(RowValues(s, r, start, t, rowLabel, headers), Str(x)) == FirstCell(s, Str(x))
  {
    var n := |headers| - 1;
    var init := headers[..n];
    var prev := RowValues(s, r, start, t, rowLabel, init);
    if headers[n] in t.cols {
      assert RowValues(s, r, start, t, rowLabel, headers) == WriteCell(prev, r, start + n, Num(At(t, rowLabel, headers[n])));
      assert Bounded(prev) && ValueAt(prev, r, start + n) == ValueAt(s, r, start + n) by {
        RowValuesCells(s, r, start, t, rowLabel, init);
      }
      assert ValueAt(s, r, start + n) != Str(x);
      LookupAfterNumber(prev, r, start + n, At(t, rowLabel, headers[n]), x);
    }
  }

  /** The data loop over the table's row labels: a label found in the sheet
      as it stands has its row written into the row of its first match; a
      label not found is skipped. */
  function WithData(s: Sheet, t: Table, start: int, headers: seq<string>, labels: seq<string>): Sheet
    decreases |labels|
  {
    if labels == [] then s
    else
      var s0 := WithData(s, t, start, headers, labels[..|labels| - 1]);
      var rowLabel := labels[|labels| - 1];
      match FirstCell(s0, Str(rowLabel))
      case None => s0
      case Some(p) => RowValues(s0, p.0, start, t, rowLabel, headers)
  }

  /** The data loop changes only the block's columns, writes numbers only,
      and so never moves the lookup of a label absent from those columns. */
  lemma {:induction false} DataLookup(s: Sheet, t: Table, start: int, headers: seq<string>, labels: seq<string>, x: string)
    requires Bounded(s) && start >= 1 && Clear(s, start, |headers|, x)
    ensures Bounded(WithData(s, t, start, headers, labels))
    ensures Clear(WithData(s, t, start, headers, labels), start, |headers|, x)
    ensures FirstCell(WithData(s, t, start, headers, labels), Str(x)) == FirstCell(s, Str(x))
  {
    if labels != [] {
      var init := labels[..|labels| - 1];
      var rowLabel := labels[|labels| - 1];
      DataLookup(s, t, start, headers, init, x);
      var s0 := WithData(s, t, start, headers, init);
      match FirstCell(s0, Str(rowLabel))
      case None =>
      case Some(p) =>
        RowValuesCells(s0, p.0, start, t, rowLabel, headers);
        RowValuesLookup(s0, p.0, start, t, rowLabel, headers, x);
    }
  }

  /** Columns outside the block keep their cells. */
  lemma {:induction false} DataFrame(s: Sheet, t: Table, start: int, headers: seq<string>, labels: seq<string>)
    ensures forall r, c :: c < start || c >= start + |headers| ==> ValueAt(WithData(s, t, start, headers, labels), r, c) == ValueAt(s, r, c)
    ensures WithData(s, t, start, headers, labels).merged == s.merged
  {
    if labels != [] {
      var init := labels[..|labels| - 1];
      DataFrame(s, t, start, headers, init);
      var s0 := WithData(s, t, start, headers, init);
      match FirstCell(s0, Str(labels[|labels| - 1]))
      case None =>
      case Some(p) => RowValuesCells(s0, p.0, start, t, labels[|labels| - 1], headers);
    }
  }

  /** The row of a label's first match receives that label's values, unless
      a later label matches in the same row and overwrites them. */
  lemma {:induction false} DataRowWritten(s: Sheet, t: Table, start: int, headers: seq<string>, labels: seq<string>, k: int, p: (int, int))
    requires Bounded(s) && start >= 1
    requires forall x :: x in labels ==> Clear(s, start, |headers|, x)
    requires 0 <= k < |labels| && FirstCell(s, Str(labels[k])) == Some(p)
    requires forall j :: k < j < |labels| && FirstCell(s, Str(labels[j])).Some? ==> FirstCell(s, Str(labels[j])).value.0 != p.0
    ensures forall i :: 0 <= i < |headers| && headers[i] in t.cols ==>
              ValueAt(WithData(s, t, start, headers, labels), p.0, start + i) == Num(At(t, labels[k], headers[i]))
  {
    var n := |labels| - 1;
    var init := labels[..n];
    var rowLabel := labels[n];
    var s0 := WithData(s, t, start, headers, init);
    assert FirstCell(s0, Str(rowLabel)) == FirstCell(s, Str(rowLabel)) by {
      DataLookup(s, t, start, headers, init, rowLabel);
    }
    if k == n {
      assert WithData(s, t, start, headers, labels) == RowValues(s0, p.0, start, t, rowLabel, headers);
      RowValuesCells(s0, p.0, start, t, rowLabel, headers);
    } else {
      assert forall x :: x in init ==> x in labels;
      assert forall j :: k < j < |init| ==> init[j] == labels[j];
      DataRowWritten(s, t, start, headers, init, k, p);
      match FirstCell(s, Str(rowLabel))
      case None =>
        assert WithData(s, t, start, headers, labels) == s0;
      case Some(q) =>
        assert q.0 != p.0;
        assert WithData(s, t, start, headers, labels) == RowValues(s0, q.0, start, t, rowLabel, headers);
        RowValuesCells(s0, q.0, start, t, rowLabel, headers);
    }
  }

  /** A row where no label is found is left as it was. */
  lemma {:induction false} DataRowUntouched(s: Sheet, t: Table, start: int, headers: seq<string>, labels: seq<string>, r: int)
    requires Bounded(s) && start >= 1
    requires forall x :: x in labels ==> Clear(s, start, |headers|, x)
    requires forall x :: x in labels && FirstCell(s, Str(x)).Some? ==> FirstCell(s, Str(x)).value.0 != r
    ensures forall c :: ValueAt(WithData(s, t, start, headers, labels), r, c) == ValueAt(s, r, c)
  {
    if labels != [] {
      var n := |labels| - 1;
      var init := labels[..n];
      var rowLabel := labels[n];
      assert forall x :: x in init ==> x in labels;
      DataRowUntouched(s, t, start, headers, init, r);
      DataLookup(s, t, start, headers, init, rowLabel);
      var s0 := WithData(s, t, start, headers, init);
      match FirstCell(s0, Str(rowLabel))
      case None =>
      case Some(q) => RowValuesCells(s0, q.0, start, t, rowLabel, headers);
    }
  }

  // ---------------------------------------------------------------------
  // One block

  /** `create_columns_and_insert_headers_and_data` for table `t`: `|t.cols|`
      columns are inserted at `start`, the headers written into `headerRow`
      and filled, the row above merged and filled, and the data rows
      written. The caller works out `headerRow` (one below the anchor for
      the overall table) and `start` (the anchor column plus the columns
      already inserted). */
  function BlockAt(rep: Report, headerRow: int, start: int, t: Table): Report {
    var n := |t.cols|;
    var withHeaders := WithHeaders(InsertedSheet(rep.sheet, start, n), headerRow, start, t.cols);
    Report(WithData(withHeaders, t, start, t.cols, t.rows),
           BlueFills(RedFills(ShiftCells(rep.fills, start, n), withHeaders, headerRow, start, n), headerRow - 1, start, n),
           ShiftSpans(rep.bands, start, n) + [Band(headerRow - 1, start, n)])
  }

  /** The header fills of a block: header `i` is filled red exactly when
      its label is one of the red labels (the inserted columns carry no
      fill of their own). */
  lemma {:induction false} BlockAtRedHeaders(rep: Report, headerRow: int, start: int, t: Table, r: Report)
    requires r == BlockAt(rep, headerRow, start, t)
    ensures forall i :: 0 <= i < |t.cols| ==>
              ((headerRow, start + i) in r.fills <==> t.cols[i] in RedHeaders) &&
              (t.cols[i] in RedHeaders ==> r.fills[(headerRow, start + i)] == Red)
  {
    var n := |t.cols|;
    var inserted := InsertedSheet(rep.sheet, start, n);
    var shifted := ShiftCells(rep.fills, start, n);
    var red := RedFills(shifted, WithHeaders(inserted, headerRow, start, t.cols), headerRow, start, n);
    assert r.fills == BlueFills(red, headerRow - 1, start, n);
    ShiftCellsShifted(rep.fills, start, n);
    RedHeaderFills(shifted, inserted, headerRow, start, t.cols, n);
    forall c | start <= c < start + n
      ensures (headerRow, c) !in shifted
    {
    }
  }

  /** The band of a block: the row above the headers is filled blue over
      the block's width and is the last merged band. */
  lemma {:induction false} BlockAtBand(rep: Report, headerRow: int, start: int, t: Table, r: Report)
    requires r == BlockAt(rep, headerRow, start, t)
    ensures forall q: (int, int) :: q.0 == headerRow - 1 && start <= q.1 < start + |t.cols| ==> q in r.fills && r.fills[q] == Blue
    ensures |r.bands| == |rep.bands| + 1 && r.bands[|r.bands| - 1] == Band(headerRow - 1, start, |t.cols|)
  {
  }

  /** The report `BlockAt` builds, assembled from its three parts. */
  lemma {:induction false} BlockAtParts(rep: Report, headerRow: int, start: int, t: Table, inserted: Sheet, withHeaders: Sheet, shifted: map<(int, int), Fill>, r: Report)
    requires inserted == InsertedSheet(rep.sheet, start, |t.cols|)
    requires withHeaders == WithHeaders(inserted, headerRow, start, t.cols)
    requires shifted == ShiftCells(rep.fills, start, |t.cols|)
    requires r.sheet == WithData(withHeaders, t, start, t.cols, t.rows)
    requires r.fills == BlueFills(RedFills(shifted, withHeaders, headerRow, start, |t.cols|), headerRow - 1, start, |t.cols|)
    requires r.bands == ShiftSpans(rep.bands, start, |t.cols|) + [Band(headerRow - 1, start, |t.cols|)]
    ensures r == BlockAt(rep, headerRow, start, t)
  {
  }

  /** The output worksheet as the writer changes it. */
  class Worksheet {
    var sheet: Sheet
    var fills: map<(int, int), Fill>
    var bands: seq<Span>

    function State(): Report
      reads this
    {
      Report(sheet, fills, bands)
    }

    /** The copy of the report sheet, before any block is written. */
    constructor (s: Sheet)
      ensures State() == Report(s, map[], [])
    {
      sheet := s;
      fills := map[];
      bands := [];
    }

    /** `ws.Columns(at).Insert(Shift=xlToRight)`: one empty column at `at`. */
    method InsertColumn(at: int)
      modifies this
      ensures ShiftedFrom(sheet.cells, old(sheet.cells), at, 1) && ShiftedFrom(fills, old(fills), at, 1)
      ensures sheet.maxRow == old(sheet.maxRow) && sheet.maxCol == ShiftCol(old(sheet.maxCol), at, 1)
      ensures sheet.merged == ShiftSpans(old(sheet.merged), at, 1) && bands == ShiftSpans(old(bands), at, 1)
    {
      ShiftCellsShifted(sheet.cells, at, 1);
      ShiftCellsShifted(fills, at, 1);
      sheet := InsertedSheet(sheet, at, 1);
      fills := ShiftCells(fills, at, 1);
      bands := ShiftSpans(bands, at, 1);
    }

    /** The state after inserting `k` of the columns at `at`, starting from
        `s0`, `f0` and `b0`. */
    ghost predicate InsertedSoFar(s0: Sheet, f0: map<(int, int), Fill>, b0: seq<Span>, at: int, k: nat)
      reads this
    {
      && ShiftedFrom(sheet.cells, s0.cells, at, k) && ShiftedFrom(fills, f0, at, k)
      && sheet.maxRow == s0.maxRow && sheet.maxCol == ShiftCol(s0.maxCol, at, k)
      && sheet.merged == ShiftSpans(s0.merged, at, k) && bands == ShiftSpans(b0, at, k)
    }

    /** One pass of the insertion loop: the next column goes in right after
        the `k` already inserted. */
    method InsertNext(ghost s0: Sheet, ghost f0: map<(int, int), Fill>, ghost b0: seq<Span>, at: int, k: nat, col: int)
      requires col == at + k && InsertedSoFar(s0, f0, b0, at, k)
      modifies this
      ensures InsertedSoFar(s0, f0, b0, at, k + 1)
    {
      ghost var mid, midFills := sheet.cells, fills;
      ShiftColTwice(s0.maxCol, at, k);
      ShiftSpansTwice(s0.merged, at, k);
      ShiftSpansTwice(b0, at, k);
      InsertColumn(col);
      ShiftedOneMore(s0.cells, mid, sheet.cells, at, k, col);
      ShiftedOneMore(f0, midFills, fills, at, k, col);
    }

    /** `create_columns_with_pywin32`: one column inserted at a time, the
        insertion point moving one column right each time. */
    method InsertColumns(at: int, n: nat)
      modifies this
      ensures sheet == InsertedSheet(old(sheet), at, n)
      ensures fills == ShiftCells(old(fills), at, n)
      ensures bands == ShiftSpans(old(bands), at, n)
    {
      ghost var s0, f0, b0 := sheet, fills, bands;
      ShiftedNone(s0.cells, at);
      ShiftedNone(f0, at);
      assert ShiftSpans(b0, at, 0) == b0;
      assert ShiftSpans(s0.merged, at, 0) == s0.merged;
      var col := at;
      for i := 0 to n
        invariant col == at + i
        invariant InsertedSoFar(s0, f0, b0, at, i)
      {
        InsertNext(s0, f0, b0, at, i, col);
        col := col + 1;
      }
      InsertedExactly(s0, sheet, f0, fills, at, n);
    }

    /** The header loop. */
    method WriteHeaders(row: int, start: int, headers: seq<string>)
      modifies this
      ensures sheet == WithHeaders(old(sheet), row, start, headers)
      ensures fills == old(fills) && bands == old(bands)
    {
      ghost var s0 := sheet;
      for i := 0 to |headers|
        invariant sheet == WithHeaders(s0, row, start, headers[..i])
        invariant fills == old(fills) && bands == old(bands)
      {
        assert headers[..i + 1][..i] == headers[..i];
        sheet := WriteCell(sheet, row, start + i, Str(headers[i]));
      }
      assert headers[..|headers|] == headers;
    }

    /** The border-and-fill loop over the header cells; only the red fill
        is kept. */
    method FillHeaders(row: int, start: int, n: nat)
      modifies this
      ensures fills == RedFills(old(fills), sheet, row, start, n)
      ensures sheet == old(sheet) && bands == old(bands)
    {
      for i := 0 to n
        invariant fills == RedFills(old(fills), sheet, row, start, i)
        invariant sheet == old(sheet) && bands == old(bands)
      {
        if IsRed(ValueAt(sheet, row, start + i)) {
          fills := fills[(row, start + i) := Red];
        }
      }
    }

    /** `merge_cells` on the band of `n` columns in row `row`, then the
        blue fill of its cells. */
    method MergeBand(row: int, start: int, n: nat)
      modifies this
      ensures bands == old(bands) + [Band(row, start, n)]
      ensures fills == BlueFills(old(fills), row, start, n)
      ensures sheet == old(sheet)
    {
      bands := bands + [Band(row, start, n)];
      var f := fills;
      for i := 0 to n
        invariant f == BlueFills(old(fills), row, start, i)
      {
        f := f[(row, start + i) := Blue];
      }
      fills := f;
    }

    /** The inner data loop: one table row into sheet row `row`. */
    method WriteRow(row: int, start: int, t: Table, rowLabel: string, headers: seq<string>)
      modifies this
      ensures sheet == RowValues(old(sheet), row, start, t, rowLabel, headers)
      ensures fills == old(fills) && bands == old(bands)
    {
      ghost var s0 := sheet;
      for i := 0 to |headers|
        invariant sheet == RowValues(s0, row, start, t, rowLabel, headers[..i])
        invariant fills == old(fills) && bands == old(bands)
      {
        assert headers[..i + 1][..i] == headers[..i];
        if headers[i] in t.cols {
          sheet := WriteCell(sheet, row, start + i, Num(At(t, rowLabel, headers[i])));
        }
      }
      assert headers[..|headers|] == headers;
    }

    /** The outer data loop: each row label is looked up in the sheet as it
        stands, and its address split into letters and row number. */
    method WriteData(t: Table, start: int, headers: seq<string>)
      modifies this
      ensures sheet == WithData(old(sheet), t, start, headers, t.rows)
      ensures fills == old(fills) && bands == old(bands)
    {
      ghost var s0 := sheet;
      for k := 0 to |t.rows|
        invariant sheet == WithData(s0, t, start, headers, t.rows[..k])
        invariant fills == old(fills) && bands == old(bands)
      {
        assert t.rows[..k + 1][..k] == t.rows[..k];
        var rowLabel := t.rows[k];
        var address := FindRowInReport(sheet, Str(rowLabel));
        if address.Some? {
          ghost var p := FirstCell(sheet, Str(rowLabel)).value;
          ParseCoordinate(p.0, p.1);
          var parts := SplitA1(address.value);
          var rowNumber := ParseNat(parts.value.1);
          WriteRow(rowNumber, start, t, rowLabel, headers);
        }
      }
      assert t.rows[..|t.rows|] == t.rows;
    }

    /** `create_columns_and_insert_headers_and_data`. */
    method PlaceBlock(headerRow: int, start: int, t: Table)
      modifies this
      ensures State() == BlockAt(old(State()), headerRow, start, t)
    {
      ghost var rep := State();
      var headers := t.cols;
      var n := |headers|;
      InsertColumns(start, n);
      ghost var inserted := sheet;
      ghost var shifted := fills;
      WriteHeaders(headerRow, start, headers);
      ghost var withHeaders := sheet;
      FillHeaders(headerRow, start, n);
      MergeBand(headerRow - 1, start, n);
      WriteData(t, start, headers);
      BlockAtParts(rep, headerRow, start, t, inserted, withHeaders, shifted, State());
    }
  }
}
