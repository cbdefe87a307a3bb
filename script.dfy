// main_script of main.py: the processed tables are written next to the
// anchors of the report sheet, one block of columns per category, each
// block's insertion point moved right by the columns inserted before it.

module Script {
  import opened Common
  import opened Grid
  import opened CrossTab
  import opened Ledger
  import opened Layout
  import opened Pipeline
  import opened Placement

  // ---------------------------------------------------------------------
  // The blocks main_script places

  /** One call of `create_columns_and_insert_headers_and_data`: the table
      of `category`, its anchor `(row, column)` and the number of columns
      inserted before it. */
  datatype Block = Block(category: string, anchor: (nat, int), offset: nat, table: Table)

  /** The overall table's headers go one row below its anchor. */
  function HeaderRow(b: Block): int {
    if b.category == OverallCategory then b.anchor.0 + 1 else b.anchor.0
  }

  /** The first inserted column: the anchor column moved right by the
      columns inserted before. */
  function Start(b: Block): int {
    b.anchor.1 + b.offset
  }

  /** The columns inserted by the blocks, `total_added_columns`. */
  function Width(blocks: seq<Block>): nat {
    if blocks == [] then 0 else Width(blocks[..|blocks| - 1]) + |blocks[|blocks| - 1].table.cols|
  }

  /** The blocks of the placement loop: one per anchor whose category has a
      processed table, in the order of the anchors. */
  function Plan(addresses: OrderedMap<string, (nat, int)>, processed: OrderedMap<string, Table>): seq<Block> {
    if addresses == [] then []
    else
      var prev := Plan(addresses[..|addresses| - 1], processed);
      var k := addresses[|addresses| - 1].0;
      match Get(processed, k)
      case None => prev
      case Some(t) => prev + [Block(k, addresses[|addresses| - 1].1, Width(prev), t)]
  }

  /** The categories of the blocks. */
  function BlockCategories(blocks: seq<Block>): (cs: seq<string>)
    ensures |cs| == |blocks| && forall i :: 0 <= i < |blocks| ==> cs[i] == blocks[i].category
  {
    seq(|blocks|, i requires 0 <= i < |blocks| => blocks[i].category)
  }

  /** The keys that have a processed table, in their order. */
  function Kept(keys: seq<string>, processed: OrderedMap<string, Table>): seq<string> {
    if keys == [] then []
    else Kept(keys[..|keys| - 1], processed) + (if Get(processed, keys[|keys| - 1]).Some? then [keys[|keys| - 1]] else [])
  }

  /** The report after the blocks, each written by `BlockAt` in turn. */
  function ApplyBlocks(rep: Report, blocks: seq<Block>): Report {
    if blocks == [] then rep
    else
      var b := blocks[|blocks| - 1];
      BlockAt(ApplyBlocks(rep, blocks[..|blocks| - 1]), HeaderRow(b), Start(b), b.table)
  }

  lemma {:induction false} ApplyBlocksSnoc(rep: Report, blocks: seq<Block>, b: Block, before: Report, headerRow: int, start: int, t: Table, r: Report)
    requires before == ApplyBlocks(rep, blocks)
    requires headerRow == HeaderRow(b) && start == Start(b) && t == b.table
    requires r == BlockAt(before, headerRow, start, t)
    ensures r == ApplyBlocks(rep, blocks + [b])
  {
    assert (blocks + [b])[..|blocks|] == blocks;
  }

  lemma {:induction false} WidthSnoc(blocks: seq<Block>, b: Block)
    ensures Width(blocks + [b]) == Width(blocks) + |b.table.cols|
  {
    assert (blocks + [b])[..|blocks|] == blocks;
  }

  /** One more anchor adds a block exactly when its category has a table. */
  lemma {:induction false} PlanStep(addresses: OrderedMap<string, (nat, int)>, processed: OrderedMap<string, Table>, i: int)
    requires 0 <= i < |addresses|
    ensures var prev := Plan(addresses[..i], processed);
            Plan(addresses[..i + 1], processed) ==
              match Get(processed, addresses[i].0)
              case None => prev
              case Some(t) => prev + [Block(addresses[i].0, addresses[i].1, Width(prev), t)]
  {
    assert addresses[..i + 1][..i] == addresses[..i];
  }

  /** An anchor whose category has a table adds its block. */
  lemma {:induction false} PlanStepSome(addresses: OrderedMap<string, (nat, int)>, processed: OrderedMap<string, Table>, i: int,
                     prev: seq<Block>, b: Block)
    requires 0 <= i < |addresses| && prev == Plan(addresses[..i], processed)
    requires b.category == addresses[i].0 && b.anchor == addresses[i].1 && b.offset == Width(prev)
    requires Get(processed, b.category) == Some(b.table)
    ensures Plan(addresses[..i + 1], processed) == prev + [b]
  {
    PlanStep(addresses, processed, i);
  }

  /** An anchor whose category has no table adds nothing. */
  lemma {:induction false} PlanStepNone(addresses: OrderedMap<string, (nat, int)>, processed: OrderedMap<string, Table>, i: int)
    requires 0 <= i < |addresses| && Get(processed, addresses[i].0).None?
    ensures Plan(addresses[..i + 1], processed) == Plan(addresses[..i], processed)
  {
    PlanStep(addresses, processed, i);
  }

  /** The blocks before block `i` of `blocks + [b]` are those of `blocks`. */
  lemma {:induction false} PrefixOfSnoc(blocks: seq<Block>, b: Block)
    ensures forall i :: 0 <= i <= |blocks| ==> (blocks + [b])[..i] == blocks[..i]
  {
  }

  /** Every block comes from an anchor whose category has a table, and its
      offset is the width of the blocks before it. */
  lemma {:induction false} PlanFacts(addresses: OrderedMap<string, (nat, int)>, processed: OrderedMap<string, Table>)
    ensures var blocks := Plan(addresses, processed);
            forall i :: 0 <= i < |blocks| ==>
              && blocks[i].offset == Width(blocks[..i])
              && (blocks[i].category, blocks[i].anchor) in addresses
              && Get(processed, blocks[i].category) == Some(blocks[i].table)
  {
    if addresses != [] {
      var n := |addresses| - 1;
      var init := addresses[..n];
      PlanFacts(init, processed);
      PlanStep(addresses, processed, n);
      assert addresses[..n + 1] == addresses;
      var prev := Plan(init, processed);
      assert forall a :: a in init ==> a in addresses;
      match Get(processed, addresses[n].0)
      case None =>
      case Some(t) =>
        var b := Block(addresses[n].0, addresses[n].1, Width(prev), t);
        PrefixOfSnoc(prev, b);
        assert addresses[n] in addresses;
    }
  }

  /** The blocks follow the anchors that have a table, in order. */
  lemma {:induction false} PlanCategories(addresses: OrderedMap<string, (nat, int)>, processed: OrderedMap<string, Table>)
    ensures BlockCategories(Plan(addresses, processed)) == Kept(Keys(addresses), processed)
  {
    if addresses != [] {
      var n := |addresses| - 1;
      var init := addresses[..n];
      PlanCategories(init, processed);
      PlanStep(addresses, processed, n);
      assert addresses[..n + 1] == addresses;
      assert Keys(addresses) == Keys(init) + [addresses[n].0];
      assert Keys(addresses)[..n] == Keys(init);
      var prev := Plan(init, processed);
      match Get(processed, addresses[n].0)
      case None =>
      case Some(t) =>
        var b := Block(addresses[n].0, addresses[n].1, Width(prev), t);
        assert BlockCategories(prev + [b]) == BlockCategories(prev) + [b.category];
    }
  }

  /** The placement loop of `main_script`, over the anchors in order. */
  method PlaceBlocks(ws: Worksheet, addresses: OrderedMap<string, (nat, int)>, processed: OrderedMap<string, Table>)
    returns (total: nat)
    modifies ws
    ensures ws.State() == ApplyBlocks(old(ws.State()), Plan(addresses, processed))
    ensures total == Width(Plan(addresses, processed))
  {
    ghost var rep := ws.State();
    total := 0;
    for i := 0 to |addresses|
      invariant ws.State() == ApplyBlocks(rep, Plan(addresses[..i], processed))
      invariant total == Width(Plan(addresses[..i], processed))
    {
      total := PlaceAnchor(ws, addresses, processed, i, total, rep);
    }
    assert addresses[..|addresses|] == addresses;
  }

  /** One pass of the placement loop: the block of anchor `i`, written only
      when its category has a processed table. */
  method PlaceAnchor(ws: Worksheet, addresses: OrderedMap<string, (nat, int)>, processed: OrderedMap<string, Table>,
                     i: int, total: nat, ghost rep: Report)
    returns (next: nat)
    requires 0 <= i < |addresses|
    requires ws.State() == ApplyBlocks(rep, Plan(addresses[..i], processed))
    requires total == Width(Plan(addresses[..i], processed))
    modifies ws
    ensures ws.State() == ApplyBlocks(rep, Plan(addresses[..i + 1], processed))
    ensures next == Width(Plan(addresses[..i + 1], processed))
  {
    var category := addresses[i].0;
    var address := addresses[i].1;
    var found := Get(processed, category);
    next := total;
    if found.Some? {
      var t := found.value;
      ghost var blocks := Plan(addresses[..i], processed);
      var b := Block(category, address, total, t);
      PlanStepSome(addresses, processed, i, blocks, b);
      var headerRow := HeaderRow(b);
      var start := Start(b);
      ghost var before := ws.State();
      ws.PlaceBlock(headerRow, start, t);
      ApplyBlocksSnoc(rep, blocks, b, before, headerRow, start, t, ws.State());
      WidthSnoc(blocks, b);
      next := total + |t.cols|;
    } else {
      PlanStepNone(addresses, processed, i);
    }
  }

  // ---------------------------------------------------------------------
  // Where the report's own columns go

  /** The column that column `c` of the report has moved to once the
      blocks' columns are inserted. */
  function Image(c: int, blocks: seq<Block>): int {
    if blocks == [] then c
    else
      var b := blocks[|blocks| - 1];
      ShiftCol(Image(c, blocks[..|blocks| - 1]), Start(b), |b.table.cols|)
  }

  /** A block keeps every cell of the report, moved by the column insert. */
  lemma {:induction false} BlockAtMoves(rep: Report, headerRow: int, start: int, t: Table)
    ensures forall r, c :: ValueAt(BlockAt(rep, headerRow, start, t).sheet, r, ShiftCol(c, start, |t.cols|)) == ValueAt(rep.sheet, r, c)
  {
    var n := |t.cols|;
    var inserted := InsertedSheet(rep.sheet, start, n);
    var withHeaders := WithHeaders(inserted, headerRow, start, t.cols);
    InsertedValues(rep.sheet, start, n);
    HeaderCells(inserted, headerRow, start, t.cols);
    DataFrame(withHeaders, t, start, t.cols, t.rows);
    forall r, c
      ensures ValueAt(BlockAt(rep, headerRow, start, t).sheet, r, ShiftCol(c, start, n)) == ValueAt(rep.sheet, r, c)
    {
      var d := ShiftCol(c, start, n);
      assert d < start || d >= start + n;
      assert ValueAt(WithData(withHeaders, t, start, t.cols, t.rows), r, d) == ValueAt(withHeaders, r, d);
      assert ValueAt(withHeaders, r, d) == ValueAt(inserted, r, d);
    }
  }

  /** Nothing of the report is overwritten: after all blocks, every cell
      of the copied sheet is found in the column it has moved to. */
  lemma {:induction false} ApplyBlocksMoves(rep: Report, blocks: seq<Block>)
    ensures forall r, c :: ValueAt(ApplyBlocks(rep, blocks).sheet, r, Image(c, blocks)) == ValueAt(rep.sheet, r, c)
  {
    if blocks != [] {
      var init := blocks[..|blocks| - 1];
      var b := blocks[|blocks| - 1];
      ApplyBlocksMoves(rep, init);
      BlockAtMoves(ApplyBlocks(rep, init), HeaderRow(b), Start(b), b.table);
    }
  }

  /** With every anchor at or left of column `c`, column `c` has moved right
      by exactly the columns inserted. */
  lemma {:induction false} PlanImage(addresses: OrderedMap<string, (nat, int)>, processed: OrderedMap<string, Table>, c: int)
    requires forall a :: a in addresses ==> a.1.1 <= c
    ensures Image(c, Plan(addresses, processed)) == c + Width(Plan(addresses, processed))
  {
    if addresses != [] {
      var init := addresses[..|addresses| - 1];
      assert forall a :: a in init ==> a in addresses;
      PlanImage(init, processed, c);
      var prev := Plan(init, processed);
      match Get(processed, addresses[|addresses| - 1].0)
      case None =>
      case Some(t) =>
        var blocks := Plan(addresses, processed);
        assert blocks[..|blocks| - 1] == prev;
    }
  }

  /** The offset `total_added_columns` compensates exactly for the columns
      inserted before: when the anchors run left to right, every block
      starts in the column its anchor cell has moved to. */
  lemma {:induction false} PlanStartsAtAnchors(addresses: OrderedMap<string, (nat, int)>, processed: OrderedMap<string, Table>)
    requires forall i, j :: 0 <= i < j < |addresses| ==> addresses[i].1.1 <= addresses[j].1.1
    ensures var blocks := Plan(addresses, processed);
            forall i :: 0 <= i < |blocks| ==> Start(blocks[i]) == Image(blocks[i].anchor.1, blocks[..i])
  {
    if addresses != [] {
      var n := |addresses| - 1;
      var init := addresses[..n];
      assert addresses[..n + 1] == addresses;
      PlanStartsAtAnchors(init, processed);
      var prev := Plan(init, processed);
      match Get(processed, addresses[n].0)
      case None =>
        PlanStepNone(addresses, processed, n);
      case Some(t) =>
        var col := addresses[n].1.1;
        var b := Block(addresses[n].0, addresses[n].1, Width(prev), t);
        PlanStepSome(addresses, processed, n, prev, b);
        assert forall a :: a in init ==> a.1.1 <= col by {
          forall a | a in init
            ensures a.1.1 <= col
          {
            var j :| 0 <= j < n && init[j] == a;
            assert addresses[j] == a;
          }
        }
        PlanImage(init, processed, col);
        StartsSnoc(prev, b);
    }
  }

  /** A block starting at its anchor's image keeps every block of the list
      starting at its own. */
  lemma {:induction false} StartsSnoc(prev: seq<Block>, b: Block)
    requires forall i :: 0 <= i < |prev| ==> Start(prev[i]) == Image(prev[i].anchor.1, prev[..i])
    requires Start(b) == Image(b.anchor.1, prev)
    ensures forall i :: 0 <= i < |prev + [b]| ==> Start((prev + [b])[i]) == Image((prev + [b])[i].anchor.1, (prev + [b])[..i])
  {
    PrefixOfSnoc(prev, b);
    assert (prev + [b])[..|prev|] == prev;
  }

  // ---------------------------------------------------------------------
  // main_script

  /** How `main_script` ends: a message that one of the two modules
      returned nothing, an exception caught and reported, or the written
      report with the number of columns added. */
  datatype ScriptEnd = NoData | NoAnchors | Error | Finished(report: Report, added: nat)

  /** The end of `main_script`, given what `main` and
      `create_od_percent_table` returned and the report workbook. */
  function ScriptOutcome(main: Outcome, od: OdTable, report: Option<Workbook>, reportSheet: string): ScriptEnd {
    match main
    case Raised => Error
    case Stopped => NoData
    case Done(tables) =>
      if tables == [] then NoData
      else
        match od
        case NoTable => NoAnchors
        case Failed => Error
        case Rows(anchors) =>
          match Addresses(anchors)
          case None => Error
          case Some(addresses) =>
            if report.None? || reportSheet !in report.value then Error
            else
              var blocks := Plan(addresses, tables);
              Finished(ApplyBlocks(Report(report.value[reportSheet], map[], []), blocks), Width(blocks))
  }

  /** `main_script`. `ledger` is the ledger sheet and `orderSheet` the
      report sheet as pandas reads them; `report` is the report workbook as
      loaded (None when its file is missing). The output file is a copy of
      the report, so the blocks are written into a copy of `reportSheet`. */
  method MainScript(ledger: Option<RawSheet>, orderSheet: Option<seq<seq<Value>>>,
                    reportPath: string, report: Option<Workbook>, reportSheet: string)
    returns (end: ScriptEnd)
    ensures end == ScriptOutcome(MainOutcome(ledger, orderSheet, DivisionColumn, TypeColumn, KindColumn, ResultColumn),
                                 OdPercentTable(reportPath, report, reportSheet, MainHeadings), report, reportSheet)
  {
    var main := Run(ledger, orderSheet, DivisionColumn, TypeColumn, KindColumn, ResultColumn);
    if main.Raised? {
      return Error;
    }
    if main.Stopped? || main.tables == [] {
      return NoData;
    }
    var od := CreateOdPercentTable(reportPath, report, reportSheet, MainHeadings);
    if od.NoTable? {
      return NoAnchors;
    }
    if od.Failed? {
      return Error;
    }
    var addresses := ParseAddresses(od.anchors);
    if addresses.None? || report.None? || reportSheet !in report.value {
      return Error;
    }
    var ws := new Worksheet(report.value[reportSheet]);
    var total := PlaceBlocks(ws, addresses.value, main.tables);
    return Finished(ws.State(), total);
  }

  /** `main_script` reports "no data" exactly when `main` returns nothing,
      finishes exactly when both modules return tables, and reports an
      exception exactly when `main` raises or the anchor table cannot be
      built: the anchors of a built table always parse. */
  lemma {:induction false} ScriptOutcomes(main: Outcome, path: string, report: Option<Workbook>, reportSheet: string, headings: seq<string>)
    ensures var s := ScriptOutcome(main, OdPercentTable(path, report, reportSheet, headings), report, reportSheet);
            && (s == NoData <==> main.Stopped? || main == Done([]))
            && (s == NoAnchors <==> main.Done? && main.tables != [] && OdPercentTable(path, report, reportSheet, headings) == NoTable)
            && (s == Error <==> main.Raised? || (main.Done? && main.tables != [] && OdPercentTable(path, report, reportSheet, headings) == Failed))
            && (s.Finished? <==> main.Done? && main.tables != [] && OdPercentTable(path, report, reportSheet, headings).Rows?)
  {
    if OdPercentTable(path, report, reportSheet, headings).Rows? {
      TableAddressesDefined(path, report, reportSheet, headings);
    }
  }
}
