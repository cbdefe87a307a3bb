/** The driver of data_processing.py: one structured table per division,
    the overall table summed over them, and the sequencing of `main`. */
module Pipeline {
  import opened Common
  import opened Ledger
  import opened CrossTab

  /** The per-division step of `process_dataframes`: the structured count,
      or nothing when the count fails. */
  function StructuredCount(f: Frame, typeCol: string, kindCol: string, resCol: string): Option<Table> {
    match CountUniqueValues(f, typeCol, kindCol, resCol)
    case None => None
    case Some(t) => Some(ApplyStructure(t))
  }

  /** The loop of `process_dataframes` over the divisions: each division
      whose counts succeed gets its structured table under its name; the
      others are skipped. */
  function Structured(divs: OrderedMap<string, Frame>, typeCol: string, kindCol: string, resCol: string): OrderedMap<string, Table> {
    FoldPut(divs, f => StructuredCount(f, typeCol, kindCol, resCol))
  }

  /** What `process_dataframes` returns: the structured tables, then, when
      their sum is not empty, the structured sum under `OverallCategory`. */
  function Processed(divs: OrderedMap<string, Frame>, typeCol: string, kindCol: string, resCol: string): OrderedMap<string, Table>
  {
    var s := Structured(divs, typeCol, kindCol, resCol);
    var o := Overall(Values(s));
    if IsEmpty(o) then s
    else
      StructuredWellFormed(divs, typeCol, kindCol, resCol);
      OverallHasTotalCol(Values(s));
      Put(s, OverallCategory, ApplyStructure(o))
  }

  /** Every table of the sum has the `Итог` column, so a sum of at least one table has it too. */
  lemma {:induction false} OverallHasTotalCol(ts: seq<Table>)
    requires forall t :: t in ts ==> TotalCol in t.cols
    ensures ts != [] ==> TotalCol in Overall(ts).cols
  {
    if ts != [] {
      var init := ts[..|ts| - 1];
      assert forall t :: t in init ==> t in ts;
      OverallHasTotalCol(init);
      assert ts[|ts| - 1] in ts;
    }
  }

  /** The overall sum of tables with distinct row labels has distinct row labels. */
  lemma {:induction false} OverallDistinctRows(ts: seq<Table>)
    requires forall t :: t in ts ==> Distinct(t.rows)
    ensures Distinct(Overall(ts).rows)
  {
    if ts != [] {
      var init := ts[..|ts| - 1];
      assert forall t :: t in init ==> t in ts;
      OverallDistinctRows(init);
      assert ts[|ts| - 1] in ts;
    }
  }

  /** Every structured table has the `Итог` column, the `Итого` row and
      distinct row labels. */
  lemma {:induction false} StructuredWellFormed(divs: OrderedMap<string, Frame>, typeCol: string, kindCol: string, resCol: string)
    ensures forall t :: t in Values(Structured(divs, typeCol, kindCol, resCol)) ==>
              TotalCol in t.cols && TotalRow in t.rows && Distinct(t.rows)
  {
    var g := f => StructuredCount(f, typeCol, kindCol, resCol);
    FoldPutValues(divs, g);
    forall w | w in Values(Structured(divs, typeCol, kindCol, resCol))
      ensures TotalCol in w.cols && TotalRow in w.rows && Distinct(w.rows)
    {
      var i :| 0 <= i < |divs| && g(divs[i].1) == Some(w);
      var t := CountUniqueValues(divs[i].1, typeCol, kindCol, resCol).value;
      CountedRowsDistinct(divs[i].1, typeCol, kindCol, resCol, t);
      StructureKeepsTotalCol(t);
      StructureRows(t);
      StructureRowsDistinct(t);
    }
  }

  lemma {:induction false} CountedRowsDistinct(f: Frame, typeCol: string, kindCol: string, resCol: string, t: Table)
    requires CountUniqueValues(f, typeCol, kindCol, resCol) == Some(t)
    ensures Distinct(t.rows)
  {
    CountUniqueValuesIsCombine(f, typeCol, kindCol, resCol);
    var cc := Concat(Side(f, typeCol, resCol), Side(f, kindCol, resCol));
    assert Distinct(cc.rows);
    RowsWithTotalDistinct(cc);
  }

  lemma {:induction false} StructureRowsDistinct(t: Table)
    requires TotalCol in t.cols && Distinct(t.rows)
    ensures Distinct(ApplyStructure(t).rows)
  {
    RowsWithTotalDistinct(t);
  }

  lemma {:induction false} RowsWithTotalDistinct(t: Table)
    requires Distinct(t.rows)
    ensures Distinct([TotalRow] + Without(RowsWithTotal(t), TotalRow))
  {
    var w := Without(RowsWithTotal(t), TotalRow);
    assert TotalRow !in w;
    if TotalRow !in t.rows {
      assert Distinct(t.rows + [TotalRow]);
    }
  }

  /** A division is among the structured tables exactly when its counts
      succeed, and then its table is the structured count. This needs the
      division names to be distinct, as the keys of a dictionary are. */
  lemma {:induction false} StructuredGet(divs: OrderedMap<string, Frame>, typeCol: string, kindCol: string, resCol: string, d: string)
    requires Distinct(Keys(divs))
    ensures Get(Structured(divs, typeCol, kindCol, resCol), d) ==
            if d in Keys(divs) then StructuredCount(divs[IndexOf(Keys(divs), d)].1, typeCol, kindCol, resCol) else None
  {
    FoldPutGet(divs, f => StructuredCount(f, typeCol, kindCol, resCol), d);
  }

  /** A division keeps its structured table in the result, unless it is
      named like the overall table. */
  lemma {:induction false} ProcessedDivision(divs: OrderedMap<string, Frame>, typeCol: string, kindCol: string, resCol: string, d: string)
    requires Distinct(Keys(divs)) && d != OverallCategory
    ensures Get(Processed(divs, typeCol, kindCol, resCol), d) ==
            if d in Keys(divs) then StructuredCount(divs[IndexOf(Keys(divs), d)].1, typeCol, kindCol, resCol) else None
  {
    StructuredGet(divs, typeCol, kindCol, resCol, d);
  }

  /** The overall entry: added exactly when the sum of the structured tables
      is not empty, that is, when some table has a row and some table has a
      column; otherwise the result is the structured tables alone. */
  lemma {:induction false} ProcessedOverall(divs: OrderedMap<string, Frame>, typeCol: string, kindCol: string, resCol: string, o: Table)
    requires o == Overall(Values(Structured(divs, typeCol, kindCol, resCol)))
    ensures IsEmpty(o) <==> NoRows(Values(Structured(divs, typeCol, kindCol, resCol))) || NoCols(Values(Structured(divs, typeCol, kindCol, resCol)))
    ensures IsEmpty(o) ==> Processed(divs, typeCol, kindCol, resCol) == Structured(divs, typeCol, kindCol, resCol)
    ensures !IsEmpty(o) ==> TotalCol in o.cols && Get(Processed(divs, typeCol, kindCol, resCol), OverallCategory) == Some(ApplyStructure(o))
  {
    OverallEmpty(Values(Structured(divs, typeCol, kindCol, resCol)));
    StructuredWellFormed(divs, typeCol, kindCol, resCol);
    OverallHasTotalCol(Values(Structured(divs, typeCol, kindCol, resCol)));
  }

  /** The cells of the overall table: every category cell is that cell summed
      over the divisions' tables, and each total cell of an outcome column is
      counted once more, since the sum already holds the divisions' totals. */
  lemma {:induction false} OverallTableCells(divs: OrderedMap<string, Frame>, typeCol: string, kindCol: string, resCol: string, o: Table)
    requires o == Overall(Values(Structured(divs, typeCol, kindCol, resCol))) && !IsEmpty(o)
    ensures TotalCol in o.cols
    ensures forall x, c :: x != TotalRow && c in ApplyStructure(o).cols ==>
              At(ApplyStructure(o), x, c) == SumAt(Values(Structured(divs, typeCol, kindCol, resCol)), x, c)
    ensures forall c :: c != TotalCol && c in ApplyStructure(o).cols ==>
              At(ApplyStructure(o), TotalRow, c) ==
              SumAt(Values(Structured(divs, typeCol, kindCol, resCol)), TotalRow, c) + ColSum(o, Without(o.rows, TotalRow), c)
  {
    var ts := Values(Structured(divs, typeCol, kindCol, resCol));
    StructuredWellFormed(divs, typeCol, kindCol, resCol);
    OverallHasTotalCol(ts);
    OverallDistinctRows(ts);
    ApplyStructureCells(o);
    assert ts != [];
    assert ts[|ts| - 1] in ts;
    assert TotalRow in o.rows;
    forall x, c | x != TotalRow && c in ApplyStructure(o).cols
      ensures At(ApplyStructure(o), x, c) == SumAt(ts, x, c)
    {
      OverallCells(ts, x, c);
    }
    forall c | c != TotalCol && c in ApplyStructure(o).cols
      ensures At(ApplyStructure(o), TotalRow, c) == SumAt(ts, TotalRow, c) + ColSum(o, Without(o.rows, TotalRow), c)
    {
      OverallCells(ts, TotalRow, c);
      ColSumWithout(o, o.rows, TotalRow, c);
    }
  }

  /** `process_dataframes`: the loop over the divisions, the running sum over
      the structured tables, and the overall entry. The cells are already
      numbers, so the numeric coercion before the sum changes nothing. */
  method ProcessDataframes(divs: OrderedMap<string, Frame>, typeCol: string, kindCol: string, resCol: string)
    returns (processed: OrderedMap<string, Table>)
    ensures processed == Processed(divs, typeCol, kindCol, resCol)
  {
    processed := [];
    var i := 0;
    while i < |divs|
      invariant 0 <= i <= |divs|
      invariant processed == Structured(divs[..i], typeCol, kindCol, resCol)
    {
      assert divs[..i + 1][..i] == divs[..i];
      var pivot := CountUniqueValues(divs[i].1, typeCol, kindCol, resCol);
      if pivot.Some? {
        processed := Put(processed, divs[i].0, ApplyStructure(pivot.value));
      }
      i := i + 1;
    }
    assert divs[..i] == divs;
    var ts := Values(processed);
    var overall := EmptyTable;
    var j := 0;
    while j < |ts|
      invariant 0 <= j <= |ts|
      invariant overall == Overall(ts[..j])
    {
      assert ts[..j + 1][..j] == ts[..j];
      overall := AddTables(overall, ts[j]);
      j := j + 1;
    }
    assert ts[..j] == ts;
    if !IsEmpty(overall) {
      StructuredWellFormed(divs, typeCol, kindCol, resCol);
      OverallHasTotalCol(ts);
      processed := Put(processed, OverallCategory, ApplyStructure(overall));
    }
  }

  /** How `main` ends: it returns None early, an exception escapes it, or it
      returns the processed tables. */
  datatype Outcome = Stopped | Raised | Done(tables: OrderedMap<string, Table>)

  /** The ordered loan types `find_ordered_types_in_report` yields. */
  function OrderedTypes(orderSheet: Option<seq<seq<Value>>>, uniqueTypes: seq<string>): seq<string> {
    if orderSheet.None? then [] else OrderedScan(Flatten(orderSheet.value), uniqueTypes)
  }

  /** What `main` of data_processing.py ends with. */
  function MainOutcome(ledger: Option<RawSheet>, orderSheet: Option<seq<seq<Value>>>,
                       divisionCol: string, typeCol: string, kindCol: string, resCol: string): Outcome {
    match LoadExcel(ledger)
    case None => Stopped
    case Some(f) =>
      if typeCol !in f.columns then Raised
      else
        var ordered := OrderedTypes(orderSheet, DistinctValues(f.rows, typeCol));
        if ordered == [] then Stopped
        else
          match SplitByDivision(Reorder(f, typeCol, ordered), divisionCol)
          case None => Stopped
          case Some(divs) => Done(Processed(divs, typeCol, kindCol, resCol))
  }

  /** `main` of data_processing.py. `ledger` and `orderSheet` are the two
      sheets as read from their files (None when reading fails). Selecting
      the loan type column raises when the loaded table lacks it; every
      other failure returns None. */
  method Run(ledger: Option<RawSheet>, orderSheet: Option<seq<seq<Value>>>,
             divisionCol: string, typeCol: string, kindCol: string, resCol: string)
    returns (out: Outcome)
    ensures LoadExcel(ledger).None? ==> out == Stopped
    ensures LoadExcel(ledger).Some? && typeCol !in LoadExcel(ledger).value.columns ==> out == Raised
    ensures LoadExcel(ledger).Some? && typeCol in LoadExcel(ledger).value.columns ==>
              var f := LoadExcel(ledger).value;
              var ordered := OrderedTypes(orderSheet, DistinctValues(f.rows, typeCol));
              if ordered == [] || divisionCol !in f.columns then out == Stopped
              else out == Done(Processed(SplitByDivision(Reorder(f, typeCol, ordered), divisionCol).value, typeCol, kindCol, resCol))
    ensures out == MainOutcome(ledger, orderSheet, divisionCol, typeCol, kindCol, resCol)
  {
    var loaded := LoadExcel(ledger);
    if loaded.None? {
      return Stopped;
    }
    var f := loaded.value;
    if typeCol !in f.columns {
      return Raised;
    }
    var uniqueTypes := DistinctValues(f.rows, typeCol);
    var ordered := FindOrderedTypes(orderSheet, uniqueTypes);
    if ordered == [] {
      return Stopped;
    }
    var reordered := Reorder(f, typeCol, ordered);
    var divisions := SplitByDivision(reordered, divisionCol);
    if divisions.None? {
      return Stopped;
    }
    var processed := ProcessDataframes(divisions.value, typeCol, kindCol, resCol);
    return Done(processed);
  }
}
