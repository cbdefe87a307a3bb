/** The cross-tabulation side of data_processing.py: the count pivots of
    `count_unique_values`, the row-total column, the synthetic total row and
    its move to the top, the canonical column order of
    `apply_structure_and_sorting`, and the cell-wise sum behind the overall
    table. */
module CrossTab {
  import opened Common
  import opened Ledger

  /** A pivot table: row labels, column labels, and the counts. A cell that
      is not stored, or lies outside rows x cols, reads as 0. */
  datatype Table = Table(rows: seq<string>, cols: seq<string>, cells: map<(string, string), nat>)

  const TotalRow := "Итого"
  const TotalCol := "Итог"
  const AllSecured := "Всего залоговые"
  const AllUnsecured := "Всего без залоговые"

  /** The canonical outcome columns, with the row total last. */
  const ColumnOrder := [
    "Дал обещание", "Не звонили", "Дал номер клиента", "Клиент заграницей",
    "Обещал связаться с клиентом", "Связался с клиентом и сообщил", "Частично оплатил", "Не дозвон",
    "Бросил трубку", "Другой номер", "Не знаком с клиентом", "Дело в суде", "Клиент умер",
    "Отказывается от оплаты", "Отказывается от разговора", TotalCol
  ]

  /** The cell at row `r` and column `c`. */
  function At(t: Table, r: string, c: string): nat {
    if r in t.rows && c in t.cols && (r, c) in t.cells then t.cells[(r, c)] else 0
  }

  function Pairs(rows: seq<string>, cols: seq<string>): (ps: set<(string, string)>)
    ensures forall r, c :: (r, c) in ps <==> r in rows && c in cols
  {
    set r, c | r in rows && c in cols :: (r, c)
  }

  /** Sum of the cells of row `r` over the columns `cs`. */
  function RowSum(t: Table, r: string, cs: seq<string>): nat {
    if cs == [] then 0 else At(t, r, cs[0]) + RowSum(t, r, cs[1..])
  }

  /** Sum of the cells of column `c` over the rows `rs`. */
  function ColSum(t: Table, rs: seq<string>, c: string): nat {
    if rs == [] then 0 else At(t, rs[0], c) + ColSum(t, rs[1..], c)
  }

  /** `xs` without the occurrences of `x`. */
  function Without(xs: seq<string>, x: string): (r: seq<string>)
    ensures forall y :: y in r <==> y in xs && y != x
    ensures Distinct(xs) ==> Distinct(r)
    ensures x !in xs ==> r == xs
  {
    if xs == [] then []
    else
      var rest := Without(xs[1..], x);
      assert Distinct(xs) ==> xs[0] !in xs[1..] && Distinct(xs[1..]);
      (if xs[0] == x then [] else [xs[0]]) + rest
  }

  /** The labels of `ys` that are not in `xs`, in their order. */
  function Minus(ys: seq<string>, xs: seq<string>): (r: seq<string>)
    ensures forall y :: y in r <==> y in ys && y !in xs
    ensures Distinct(ys) ==> Distinct(r)
  {
    if ys == [] then []
    else
      var rest := Minus(ys[1..], xs);
      assert Distinct(ys) ==> ys[0] !in ys[1..] && Distinct(ys[1..]);
      (if ys[0] in xs then [] else [ys[0]]) + rest
  }

  /** Union of two label lists: `xs`, then the new labels of `ys`. */
  function Union(xs: seq<string>, ys: seq<string>): (r: seq<string>)
    ensures forall y :: y in r <==> y in xs || y in ys
    ensures Distinct(xs) && Distinct(ys) ==> Distinct(r)
  {
    var m := Minus(ys, xs);
    assert forall i, j :: 0 <= i < |xs| && 0 <= j < |m| ==> xs[i] != m[j] by {
      assert forall j :: 0 <= j < |m| ==> m[j] in m;
    }
    xs + m
  }

  /** 1 when the record has `r` under `rowCol` and `c` under `colCol`. */
  function Hit(row: Row, rowCol: string, r: string, colCol: string, c: string): nat {
    if rowCol in row && row[rowCol] == r && colCol in row && row[colCol] == c then 1 else 0
  }

  /** Number of records whose `rowCol` cell is `r` and whose `colCol` cell is `c`. */
  function Count(rows: seq<Row>, rowCol: string, r: string, colCol: string, c: string): nat {
    if rows == [] then 0 else Hit(rows[0], rowCol, r, colCol, c) + Count(rows[1..], rowCol, r, colCol, c)
  }

  /** Number of records whose `rowCol` cell is `r` and whose `colCol` cell is filled. */
  function CountWith(rows: seq<Row>, rowCol: string, r: string, colCol: string): nat {
    if rows == [] then 0
    else
      (if rowCol in rows[0] && rows[0][rowCol] == r && colCol in rows[0] then 1 else 0)
      + CountWith(rows[1..], rowCol, r, colCol)
  }

  /** Python's string order: by code point, a proper prefix first. */
  predicate StrLess(a: string, b: string) {
    if a == [] then b != []
    else if b == [] then false
    else if a[0] != b[0] then a[0] < b[0]
    else StrLess(a[1..], b[1..])
  }

  /** The `key` cells of the records whose `other` cell is also filled. */
  function PairedValues(rows: seq<Row>, key: string, other: string): (vs: seq<string>)
    ensures forall v :: v in vs <==> exists i :: 0 <= i < |rows| && key in rows[i] && other in rows[i] && rows[i][key] == v
  {
    if rows == [] then []
    else
      assert forall i :: 0 < i < |rows| ==> rows[i] == rows[1..][i - 1];
      (if key in rows[0] && other in rows[0] then [rows[0][key]] else []) + PairedValues(rows[1..], key, other)
  }

  /** The group keys a pivot uses for `key` when grouping by `key` and
      `other`: every category of a categorical column (`observed=False`),
      otherwise the distinct values met together with an `other` value, in
      sorted order. */
  function GroupKeys(f: Frame, key: string, other: string): (ks: seq<string>)
    ensures key !in f.categories ==> Distinct(ks)
    ensures key !in f.categories ==> forall v :: v in ks <==> v in PairedValues(f.rows, key, other)
    ensures key in f.categories ==> ks == f.categories[key]
  {
    if key in f.categories then f.categories[key]
    else
      var d := Dedup(PairedValues(f.rows, key, other));
      var ks := SortWith(d, StrLess);
      DistinctPermutation(d, ks);
      assert forall v :: v in ks <==> v in multiset(d);
      ks
  }

  /** `df.pivot_table(index=rowCol, columns=colCol, aggfunc='size', fill_value=0)`. */
  function Pivot(f: Frame, rowCol: string, colCol: string): (t: Table)
    ensures t.rows == GroupKeys(f, rowCol, colCol) && t.cols == GroupKeys(f, colCol, rowCol)
    ensures forall r, c :: r in t.rows && c in t.cols ==> At(t, r, c) == Count(f.rows, rowCol, r, colCol, c)
  {
    var rows := GroupKeys(f, rowCol, colCol);
    var cols := GroupKeys(f, colCol, rowCol);
    Table(rows, cols, map p | p in Pairs(rows, cols) :: Count(f.rows, rowCol, p.0, colCol, p.1))
  }

  /** `t['Итог'] = t.sum(axis=1)`: the total column holds the sum of the
      row's cells over the columns present before it was added. */
  function AddRowTotals(t: Table): (r: Table)
    ensures r.rows == t.rows
    ensures r.cols == if TotalCol in t.cols then t.cols else t.cols + [TotalCol]
    ensures forall x, c :: x in r.rows && c in r.cols ==>
              At(r, x, c) == if c == TotalCol then RowSum(t, x, t.cols) else At(t, x, c)
  {
    var cols := if TotalCol in t.cols then t.cols else t.cols + [TotalCol];
    Table(t.rows, cols, map p | p in Pairs(t.rows, cols) ::
      if p.1 == TotalCol then RowSum(t, p.0, t.cols) else At(t, p.0, p.1))
  }

  /** The index rename of `count_unique_values`. */
  function RenameLabel(l: string): string {
    if l == SecuredKind then AllSecured
    else if l == UnsecuredKind then AllUnsecured
    else l
  }

  function RenameAll(ls: seq<string>): (r: seq<string>)
    ensures |r| == |ls| && forall i :: 0 <= i < |ls| ==> r[i] == RenameLabel(ls[i])
  {
    seq(|ls|, i requires 0 <= i < |ls| => RenameLabel(ls[i]))
  }

  /** `t.rename(index={...})`: row labels renamed, each renamed row keeping
      the cells of the row it came from. */
  function RenameRows(t: Table): (r: Table)
    ensures r.rows == RenameAll(t.rows) && r.cols == t.cols
    ensures forall i, c :: 0 <= i < |t.rows| && c in t.cols && t.rows[i] !in t.rows[..i] &&
                           RenameLabel(t.rows[i]) !in RenameAll(t.rows)[..i] ==>
              At(r, RenameLabel(t.rows[i]), c) == At(t, t.rows[i], c)
  {
    var rows := RenameAll(t.rows);
    var res := Table(rows, t.cols, map p | p in Pairs(rows, t.cols) :: At(t, t.rows[IndexOf(rows, p.0)], p.1));
    assert forall i :: 0 <= i < |t.rows| && RenameLabel(t.rows[i]) !in rows[..i] ==> IndexOf(rows, rows[i]) == i;
    res
  }

  /** `pd.concat([a, b])`: the rows of `a` then those of `b`, over the union
      of their columns; a cell missing from its table reads as 0. */
  function Concat(a: Table, b: Table): (r: Table)
    ensures r.rows == a.rows + b.rows && r.cols == Union(a.cols, b.cols)
    ensures forall x, c :: x in r.rows && c in r.cols ==>
              At(r, x, c) == if x in a.rows then At(a, x, c) else At(b, x, c)
  {
    var rows := a.rows + b.rows;
    var cols := Union(a.cols, b.cols);
    Table(rows, cols, map p | p in Pairs(rows, cols) :: if p.0 in a.rows then At(a, p.0, p.1) else At(b, p.0, p.1))
  }

  /** The rows of `t` with a total row (appended if missing). */
  function RowsWithTotal(t: Table): seq<string> {
    if TotalRow in t.rows then t.rows else t.rows + [TotalRow]
  }

  /** `t.loc['Итого'] = t.sum()`: every cell of the total row becomes the
      column sum over the rows of `t`, a total row already present included. */
  function WithTotalRow(t: Table): (r: Table)
    ensures r.rows == RowsWithTotal(t) && r.cols == t.cols
  {
    var rows := RowsWithTotal(t);
    Table(rows, t.cols, map p | p in Pairs(rows, t.cols) ::
      if p.0 == TotalRow then ColSum(t, t.rows, p.1) else At(t, p.0, p.1))
  }

  /** The total row of data_processing.py:88-93 and :189-193: after
      `WithTotalRow`, its `Итог` cell is replaced by the two product-kind
      totals when both rows exist, and otherwise by the sum of the whole
      `Итог` column, which now includes the total row itself. */
  function SetTotalRow(t: Table): (r: Table)
    requires TotalCol in t.cols
    ensures r.rows == RowsWithTotal(t) && r.cols == t.cols
  {
    var t1 := WithTotalRow(t);
    var total := if AllSecured in t1.rows && AllUnsecured in t1.rows
                 then At(t1, AllSecured, TotalCol) + At(t1, AllUnsecured, TotalCol)
                 else ColSum(t1, t1.rows, TotalCol);
    Table(t1.rows, t1.cols, t1.cells[(TotalRow, TotalCol) := total])
  }

  /** `drop('Итого')` and concatenating it back in front. */
  function MoveTotalToTop(t: Table): (r: Table)
    requires TotalRow in t.rows
    ensures r.rows == [TotalRow] + Without(t.rows, TotalRow) && r.cols == t.cols
  {
    Table([TotalRow] + Without(t.rows, TotalRow), t.cols, t.cells)
  }

  /** `df[[c for c in order if c in df.columns]]`. */
  function SelectColumns(t: Table, order: seq<string>): (r: Table)
    ensures r.rows == t.rows && r.cols == PresentColumns(order, t.cols)
  {
    Table(t.rows, PresentColumns(order, t.cols), t.cells)
  }

  /** One of the two pivots of `count_unique_values`: counts by `keyCol` and
      outcome, with the row total, the product-kind labels renamed. */
  function Side(f: Frame, keyCol: string, resCol: string): (t: Table)
    ensures t.rows == RenameAll(GroupKeys(f, keyCol, resCol)) && TotalCol in t.cols
  {
    RenameRows(AddRowTotals(Pivot(f, keyCol, resCol)))
  }

  /** `count_unique_values`: None when one of the three columns is missing
      (the pivot raises) or when the two pivots' renamed row labels repeat,
      which a table keyed by label cannot hold. */
  function CountUniqueValues(f: Frame, typeCol: string, kindCol: string, resCol: string): (r: Option<Table>)
    ensures r.None? <==> typeCol !in f.columns || kindCol !in f.columns || resCol !in f.columns ||
                         !Distinct(Labels(f, typeCol, kindCol, resCol))
    ensures r.Some? ==> TotalCol in r.value.cols && r.value.rows != [] && r.value.rows[0] == TotalRow
  {
    if typeCol !in f.columns || kindCol !in f.columns || resCol !in f.columns then None
    else
      var byType := Side(f, typeCol, resCol);
      var byKind := Side(f, kindCol, resCol);
      if !Distinct(byType.rows + byKind.rows) then None
      else Some(Combine(byType, byKind))
  }

  /** The second half of `count_unique_values`: stack the two pivots, add
      the total row and move it to the top. */
  function Combine(byType: Table, byKind: Table): (t: Table)
    requires TotalCol in byType.cols
    ensures t.rows == [TotalRow] + Without(RowsWithTotal(Concat(byType, byKind)), TotalRow)
    ensures TotalCol in t.cols
  {
    MoveTotalToTop(SetTotalRow(Concat(byType, byKind)))
  }

  /** `apply_structure_and_sorting`; the table must have the `Итог` column
      (every table of the pipeline has it; without it the source raises). */
  function ApplyStructure(t: Table): (r: Table)
    requires TotalCol in t.cols
  {
    SelectColumns(MoveTotalToTop(SetTotalRow(t)), ColumnOrder)
  }

  /** `a.add(b, fill_value=0)`: the union of rows and of columns, each cell
      the sum of the two tables' cells. */
  function AddTables(a: Table, b: Table): (r: Table)
    ensures r.rows == Union(a.rows, b.rows) && r.cols == Union(a.cols, b.cols)
  {
    var rows := Union(a.rows, b.rows);
    var cols := Union(a.cols, b.cols);
    Table(rows, cols, map p | p in Pairs(rows, cols) :: At(a, p.0, p.1) + At(b, p.0, p.1))
  }

  const EmptyTable := Table([], [], map[])

  /** `DataFrame.empty`: no rows or no columns. */
  predicate IsEmpty(t: Table) {
    |t.rows| == 0 || |t.cols| == 0
  }

  /** The cell-wise sum of the tables of `ts`, left to right, starting from
      an empty table (the `overall_summary` fold). */
  function Overall(ts: seq<Table>): Table {
    if ts == [] then EmptyTable else AddTables(Overall(ts[..|ts| - 1]), ts[|ts| - 1])
  }

  /** Sum of the cells at row `x` and column `c` over the tables of `ts`. */
  function SumAt(ts: seq<Table>, x: string, c: string): nat {
    if ts == [] then 0 else SumAt(ts[..|ts| - 1], x, c) + At(ts[|ts| - 1], x, c)
  }

  // ---------------------------------------------------------------------
  // Sums over rows

  lemma {:induction false} ColSumAppend(t: Table, a: seq<string>, b: seq<string>, c: string)
    ensures ColSum(t, a + b, c) == ColSum(t, a, c) + ColSum(t, b, c)
  {
    if a == [] {
      assert a + b == b;
    } else {
      assert (a + b)[0] == a[0] && (a + b)[1..] == a[1..] + b;
      ColSumAppend(t, a[1..], b, c);
    }
  }

  lemma {:induction false} ColSumAgree(t: Table, u: Table, rs: seq<string>, c: string)
    requires forall x :: x in rs ==> At(t, x, c) == At(u, x, c)
    ensures ColSum(t, rs, c) == ColSum(u, rs, c)
  {
    if rs != [] {
      ColSumAgree(t, u, rs[1..], c);
    }
  }

  /** Splitting one row off a column sum over distinct rows. */
  lemma {:induction false} ColSumWithout(t: Table, rs: seq<string>, x: string, c: string)
    requires Distinct(rs) && x in rs
    ensures ColSum(t, rs, c) == At(t, x, c) + ColSum(t, Without(rs, x), c)
  {
    assert Distinct(rs[1..]) && rs[0] !in rs[1..];
    if rs[0] == x {
      assert Without(rs, x) == Without(rs[1..], x) == rs[1..];
    } else {
      ColSumWithout(t, rs[1..], x, c);
      var w := Without(rs[1..], x);
      assert Without(rs, x) == [rs[0]] + w;
      assert ([rs[0]] + w)[0] == rs[0] && ([rs[0]] + w)[1..] == w;
    }
  }

  /** A label appended to `xs` is dropped again by `Without` of that label. */
  lemma {:induction false} WithoutSnoc(xs: seq<string>, x: string)
    ensures Without(xs + [x], x) == Without(xs, x)
  {
    if xs == [] {
      assert xs + [x] == [x];
      assert [x][1..] == [];
    } else {
      var zs := xs + [x];
      assert zs[0] == xs[0] && zs[1..] == xs[1..] + [x];
      WithoutSnoc(xs[1..], x);
    }
  }

  // ---------------------------------------------------------------------
  // Counting

  /** Sum over the outcomes `cs` of the counts for row label `r`. */
  function CountOver(rows: seq<Row>, rowCol: string, r: string, colCol: string, cs: seq<string>): nat {
    if cs == [] then 0 else Count(rows, rowCol, r, colCol, cs[0]) + CountOver(rows, rowCol, r, colCol, cs[1..])
  }

  function HitOver(row: Row, rowCol: string, r: string, colCol: string, cs: seq<string>): nat {
    if cs == [] then 0 else Hit(row, rowCol, r, colCol, cs[0]) + HitOver(row, rowCol, r, colCol, cs[1..])
  }

  lemma {:induction false} CountOverNone(rowCol: string, r: string, colCol: string, cs: seq<string>)
    ensures CountOver([], rowCol, r, colCol, cs) == 0
  {
    if cs != [] {
      CountOverNone(rowCol, r, colCol, cs[1..]);
    }
  }

  lemma {:induction false} CountOverStep(rows: seq<Row>, rowCol: string, r: string, colCol: string, cs: seq<string>)
    requires rows != []
    ensures CountOver(rows, rowCol, r, colCol, cs) ==
            HitOver(rows[0], rowCol, r, colCol, cs) + CountOver(rows[1..], rowCol, r, colCol, cs)
  {
    if cs != [] {
      CountOverStep(rows, rowCol, r, colCol, cs[1..]);
    }
  }

  lemma {:induction false} HitOverDistinct(row: Row, rowCol: string, r: string, colCol: string, cs: seq<string>)
    requires Distinct(cs)
    ensures HitOver(row, rowCol, r, colCol, cs) ==
            if rowCol in row && row[rowCol] == r && colCol in row && row[colCol] in cs then 1 else 0
  {
    if cs != [] {
      assert Distinct(cs[1..]) && cs[0] !in cs[1..];
      HitOverDistinct(row, rowCol, r, colCol, cs[1..]);
      assert colCol in row ==> (row[colCol] in cs <==> row[colCol] == cs[0] || row[colCol] in cs[1..]);
    }
  }

  /** Summing the counts of label `r` over distinct outcomes that cover
      every outcome the label occurs with gives the number of its records
      that have an outcome. */
  lemma {:induction false} CountOverIsCountWith(rows: seq<Row>, rowCol: string, r: string, colCol: string, cs: seq<string>)
    requires Distinct(cs)
    requires forall i :: 0 <= i < |rows| && rowCol in rows[i] && rows[i][rowCol] == r && colCol in rows[i] ==>
               rows[i][colCol] in cs
    ensures CountOver(rows, rowCol, r, colCol, cs) == CountWith(rows, rowCol, r, colCol)
  {
    if rows == [] {
      CountOverNone(rowCol, r, colCol, cs);
    } else {
      CountOverStep(rows, rowCol, r, colCol, cs);
      HitOverDistinct(rows[0], rowCol, r, colCol, cs);
      assert forall i :: 0 <= i < |rows| - 1 ==> rows[1..][i] == rows[i + 1];
      CountOverIsCountWith(rows[1..], rowCol, r, colCol, cs);
    }
  }

  /** An outcome never met together with a `rowCol` value counts 0 for every label. */
  lemma {:induction false} CountUnpaired(rows: seq<Row>, rowCol: string, r: string, colCol: string, c: string)
    requires c !in PairedValues(rows, colCol, rowCol)
    ensures Count(rows, rowCol, r, colCol, c) == 0
  {
    if rows != [] {
      assert c !in PairedValues(rows[1..], colCol, rowCol);
      CountUnpaired(rows[1..], rowCol, r, colCol, c);
    }
  }

  lemma {:induction false} RowSumPivot(f: Frame, rowCol: string, colCol: string, r: string, cs: seq<string>)
    requires r in Pivot(f, rowCol, colCol).rows
    requires forall c :: c in cs ==> c in Pivot(f, rowCol, colCol).cols
    ensures RowSum(Pivot(f, rowCol, colCol), r, cs) == CountOver(f.rows, rowCol, r, colCol, cs)
  {
    if cs != [] {
      RowSumPivot(f, rowCol, colCol, r, cs[1..]);
    }
  }

  /** The `Итог` column of a pivot on an outcome column that is not
      categorical counts, per label, the records that have an outcome. */
  lemma {:induction false} PivotRowTotal(f: Frame, rowCol: string, colCol: string, r: string)
    requires colCol !in f.categories
    requires r in Pivot(f, rowCol, colCol).rows
    ensures At(AddRowTotals(Pivot(f, rowCol, colCol)), r, TotalCol) == CountWith(f.rows, rowCol, r, colCol)
  {
    var p := Pivot(f, rowCol, colCol);
    RowSumPivot(f, rowCol, colCol, r, p.cols);
    OutcomesAreColumns(f, rowCol, colCol);
    CountOverIsCountWith(f.rows, rowCol, r, colCol, p.cols);
  }

  /** Without categories on the outcome column, every outcome a record has
      next to a label is one of the pivot's columns. */
  lemma {:induction false} OutcomesAreColumns(f: Frame, rowCol: string, colCol: string)
    requires colCol !in f.categories
    ensures Distinct(GroupKeys(f, colCol, rowCol))
    ensures forall i :: 0 <= i < |f.rows| && rowCol in f.rows[i] && colCol in f.rows[i] ==>
              f.rows[i][colCol] in GroupKeys(f, colCol, rowCol)
  {
    forall i | 0 <= i < |f.rows| && rowCol in f.rows[i] && colCol in f.rows[i]
      ensures f.rows[i][colCol] in GroupKeys(f, colCol, rowCol)
    {
      assert f.rows[i][colCol] in PairedValues(f.rows, colCol, rowCol);
    }
  }

  /** The cells of one pivot of `count_unique_values`, under the renamed
      label: the count of records with that label and outcome, and in the
      `Итог` column the number of records with that label and an outcome. */
  lemma {:induction false} SideCells(f: Frame, keyCol: string, resCol: string, i: nat)
    requires resCol !in f.categories
    requires Distinct(Side(f, keyCol, resCol).rows)
    requires i < |GroupKeys(f, keyCol, resCol)|
    ensures forall c :: c != TotalCol ==>
              At(Side(f, keyCol, resCol), RenameLabel(GroupKeys(f, keyCol, resCol)[i]), c) ==
              Count(f.rows, keyCol, GroupKeys(f, keyCol, resCol)[i], resCol, c)
    ensures At(Side(f, keyCol, resCol), RenameLabel(GroupKeys(f, keyCol, resCol)[i]), TotalCol) ==
            CountWith(f.rows, keyCol, GroupKeys(f, keyCol, resCol)[i], resCol)
  {
    var l := GroupKeys(f, keyCol, resCol)[i];
    var a := AddRowTotals(Pivot(f, keyCol, resCol));
    RenamedRowCells(a, i);
    PivotRowTotal(f, keyCol, resCol, l);
    forall c | c != TotalCol
      ensures At(a, l, c) == Count(f.rows, keyCol, l, resCol, c)
    {
      if c !in a.cols {
        CountUnpaired(f.rows, keyCol, l, resCol, c);
      }
    }
  }

  /** A row keeps its cells under its new label when no two labels are
      renamed alike. */
  lemma {:induction false} RenamedRowCells(a: Table, i: nat)
    requires Distinct(RenameAll(a.rows)) && i < |a.rows|
    ensures forall c :: At(RenameRows(a), RenameLabel(a.rows[i]), c) == At(a, a.rows[i], c)
  {
    var rs := RenameAll(a.rows);
    assert rs[i] == RenameLabel(a.rows[i]);
    assert RenameLabel(a.rows[i]) !in rs[..i];
    assert a.rows[i] !in a.rows[..i] by {
      forall j | 0 <= j < i ensures a.rows[j] != a.rows[i] {
        assert rs[j] != rs[i];
      }
    }
  }

  // ---------------------------------------------------------------------
  // The total row and the final structure

  /** What the total-row step does to a table with distinct row labels and
      the `Итог` column: the other rows are untouched, each outcome cell of
      the total row is the column sum over every row present before (a total
      row already there counts too), and the `Итог` cell is either the two
      product-kind totals or the column sum counted once more. */
  lemma {:induction false} SetTotalRowFacts(t: Table)
    requires TotalCol in t.cols && Distinct(t.rows)
    ensures var r := SetTotalRow(t);
            && (forall x, c :: x != TotalRow ==> At(r, x, c) == At(t, x, c))
            && (forall c :: c != TotalCol && c in t.cols ==> At(r, TotalRow, c) == ColSum(t, t.rows, c))
            && At(r, TotalRow, TotalCol) ==
                 if AllSecured in t.rows && AllUnsecured in t.rows
                 then At(t, AllSecured, TotalCol) + At(t, AllUnsecured, TotalCol)
                 else ColSum(t, t.rows, TotalCol) + ColSum(t, Without(t.rows, TotalRow), TotalCol)
  {
    WithTotalRowCells(t);
    SetTotalRowCells(t);
    if !(AllSecured in t.rows && AllUnsecured in t.rows) {
      TotalColumnSum(t);
    }
  }

  lemma {:induction false} WithTotalRowCells(t: Table)
    ensures var t1 := WithTotalRow(t);
            && (forall x, c :: x != TotalRow ==> At(t1, x, c) == At(t, x, c))
            && (forall c :: c in t.cols ==> At(t1, TotalRow, c) == ColSum(t, t.rows, c))
  {
  }

  lemma {:induction false} SetTotalRowCells(t: Table)
    requires TotalCol in t.cols
    ensures var t1 := WithTotalRow(t);
            var r := SetTotalRow(t);
            && (forall x, c :: !(x == TotalRow && c == TotalCol) ==> At(r, x, c) == At(t1, x, c))
            && At(r, TotalRow, TotalCol) ==
                 if AllSecured in t1.rows && AllUnsecured in t1.rows
                 then At(t1, AllSecured, TotalCol) + At(t1, AllUnsecured, TotalCol)
                 else ColSum(t1, t1.rows, TotalCol)
  {
  }

  /** The `Итог` column summed after the total row was added counts the
      category rows twice: once by themselves and once through the total row. */
  lemma {:induction false} TotalColumnSum(t: Table)
    requires TotalCol in t.cols && Distinct(t.rows)
    ensures var t1 := WithTotalRow(t);
            ColSum(t1, t1.rows, TotalCol) == ColSum(t, t.rows, TotalCol) + ColSum(t, Without(t.rows, TotalRow), TotalCol)
  {
    var t1 := WithTotalRow(t);
    WithTotalRowCells(t);
    var w := Without(t.rows, TotalRow);
    ColSumAgree(t1, t, w, TotalCol);
    if TotalRow in t.rows {
      ColSumWithout(t1, t.rows, TotalRow, TotalCol);
    } else {
      ColSumAppend(t1, t.rows, [TotalRow], TotalCol);
      ColSumAgree(t1, t, t.rows, TotalCol);
    }
  }

  /** Moving the total row to the top keeps every cell. */
  lemma {:induction false} MoveTotalToTopCells(t: Table)
    requires TotalRow in t.rows
    ensures forall x, c :: At(MoveTotalToTop(t), x, c) == At(t, x, c)
  {
  }

  /** The shape `apply_structure_and_sorting` gives a table: the total row
      first and the other rows in their order, the outcome columns in the
      canonical order with `Итог` last. */
  lemma {:induction false} ApplyStructureShape(t: Table)
    requires TotalCol in t.cols
    ensures ApplyStructure(t).rows == [TotalRow] + Without(t.rows, TotalRow)
    ensures ApplyStructure(t).cols == PresentColumns(ColumnOrder, t.cols)
    ensures ApplyStructure(t).cols[|ApplyStructure(t).cols| - 1] == TotalCol
  {
    StructureRows(t);
    CanonicalColumns(t.cols);
  }

  lemma {:induction false} StructureKeepsTotalCol(t: Table)
    requires TotalCol in t.cols
    ensures TotalCol in ApplyStructure(t).cols
  {
  }

  lemma {:induction false} StructureRows(t: Table)
    requires TotalCol in t.cols
    ensures ApplyStructure(t).rows == [TotalRow] + Without(t.rows, TotalRow)
  {
    if TotalRow !in t.rows {
      WithoutSnoc(t.rows, TotalRow);
    }
  }

  /** Of the canonical columns, `Итог` comes last. */
  lemma {:induction false} CanonicalColumns(cols: seq<string>)
    requires TotalCol in cols
    ensures PresentColumns(ColumnOrder, cols)[|PresentColumns(ColumnOrder, cols)| - 1] == TotalCol
  {
    PresentColumnsLast(ColumnOrder, cols);
  }

  /** The cells after `apply_structure_and_sorting`, for a table with distinct
      row labels: the other rows unchanged, the total row recomputed as
      `SetTotalRowFacts` says. */
  lemma {:induction false} ApplyStructureCells(t: Table)
    requires TotalCol in t.cols && Distinct(t.rows)
    ensures var a := ApplyStructure(t);
            && (forall x, c :: x != TotalRow && c in a.cols ==> At(a, x, c) == At(t, x, c))
            && (forall c :: c != TotalCol && c in a.cols ==> At(a, TotalRow, c) == ColSum(t, t.rows, c))
            && At(a, TotalRow, TotalCol) ==
                 if AllSecured in t.rows && AllUnsecured in t.rows
                 then At(t, AllSecured, TotalCol) + At(t, AllUnsecured, TotalCol)
                 else ColSum(t, t.rows, TotalCol) + ColSum(t, Without(t.rows, TotalRow), TotalCol)
  {
    var st := SetTotalRow(t);
    SetTotalRowFacts(t);
    MoveTotalToTopCells(st);
    var m := MoveTotalToTop(st);
    assert forall x, c :: c in PresentColumns(ColumnOrder, m.cols) ==> At(SelectColumns(m, ColumnOrder), x, c) == At(m, x, c);
  }

  /** A table whose total row already holds the column sums of the other
      rows gets every outcome total doubled by `apply_structure_and_sorting`:
      the recomputed sum counts the old total row as one more row. */
  lemma {:induction false} ApplyStructureDoublesTotals(t: Table, c: string)
    requires TotalCol in t.cols && Distinct(t.rows) && TotalRow in t.rows
    requires c != TotalCol && c in t.cols && c in ColumnOrder
    requires At(t, TotalRow, c) == ColSum(t, Without(t.rows, TotalRow), c)
    ensures At(ApplyStructure(t), TotalRow, c) == 2 * At(t, TotalRow, c)
  {
    ApplyStructureCells(t);
    ColSumWithout(t, t.rows, TotalRow, c);
  }

  // ---------------------------------------------------------------------
  // count_unique_values

  /** The row labels of the two pivots, renamed: the loan types, then the
      product kinds. */
  function Labels(f: Frame, typeCol: string, kindCol: string, resCol: string): seq<string> {
    Side(f, typeCol, resCol).rows + Side(f, kindCol, resCol).rows
  }

  /** Stacking two pivots with distinct labels, none of them the total
      row's: the total row, then the rows of each; each cell of the total row
      sums its column over the other rows, except the `Итог` cell, which is
      the two product-kind totals when both exist and otherwise twice the
      `Итог` column sum. */
  lemma {:induction false} CombineTotals(tp: Table, kp: Table, t: Table)
    requires TotalCol in tp.cols
    requires Distinct(tp.rows + kp.rows) && TotalRow !in tp.rows + kp.rows
    requires t == Combine(tp, kp)
    ensures t.rows == [TotalRow] + (tp.rows + kp.rows)
    ensures TotalCol in t.cols
    ensures forall c :: c != TotalCol && c in t.cols ==> At(t, TotalRow, c) == ColSum(t, tp.rows + kp.rows, c)
    ensures At(t, TotalRow, TotalCol) ==
              if AllSecured in tp.rows + kp.rows && AllUnsecured in tp.rows + kp.rows
              then At(t, AllSecured, TotalCol) + At(t, AllUnsecured, TotalCol)
              else 2 * ColSum(t, tp.rows + kp.rows, TotalCol)
  {
    var labels := tp.rows + kp.rows;
    var cc := Concat(tp, kp);
    assert cc.rows == labels && TotalCol in cc.cols;
    CombineRows(labels);
    StackedTotals(cc, t);
  }

  lemma {:induction false} CombineRows(labels: seq<string>)
    requires TotalRow !in labels
    ensures Without(labels + [TotalRow], TotalRow) == labels
  {
    WithoutSnoc(labels, TotalRow);
  }

  /** The total-row facts for a table without a total row, read on the
      table with the total row moved to the top. */
  lemma {:induction false} StackedTotals(cc: Table, t: Table)
    requires TotalCol in cc.cols && Distinct(cc.rows) && TotalRow !in cc.rows
    requires t == MoveTotalToTop(SetTotalRow(cc))
    ensures forall c :: c != TotalCol && c in t.cols ==> At(t, TotalRow, c) == ColSum(t, cc.rows, c)
    ensures At(t, TotalRow, TotalCol) ==
              if AllSecured in cc.rows && AllUnsecured in cc.rows
              then At(t, AllSecured, TotalCol) + At(t, AllUnsecured, TotalCol)
              else 2 * ColSum(t, cc.rows, TotalCol)
  {
    SetTotalRowFacts(cc);
    MoveTotalToTopCells(SetTotalRow(cc));
    forall c ensures ColSum(t, cc.rows, c) == ColSum(cc, cc.rows, c) {
      ColSumAgree(t, cc, cc.rows, c);
    }
  }

  /** Stacking keeps each pivot's cells under its own labels. */
  lemma {:induction false} CombineCells(tp: Table, kp: Table)
    requires TotalCol in tp.cols
    requires Distinct(tp.rows + kp.rows) && TotalRow !in tp.rows + kp.rows
    ensures forall x, c :: x in tp.rows ==> At(Combine(tp, kp), x, c) == At(tp, x, c)
    ensures forall x, c :: x in kp.rows ==> At(Combine(tp, kp), x, c) == At(kp, x, c)
  {
    var cc := Concat(tp, kp);
    assert cc.rows == tp.rows + kp.rows && TotalCol in cc.cols;
    StackedCells(cc, Combine(tp, kp));
    DisjointLabels(tp.rows, kp.rows);
  }

  lemma {:induction false} StackedCells(cc: Table, t: Table)
    requires TotalCol in cc.cols && Distinct(cc.rows)
    requires t == MoveTotalToTop(SetTotalRow(cc))
    ensures forall x, c :: x != TotalRow ==> At(t, x, c) == At(cc, x, c)
  {
    SetTotalRowFacts(cc);
    MoveTotalToTopCells(SetTotalRow(cc));
  }

  /** The two halves of a list without repetitions share no element. */
  lemma {:induction false} DisjointLabels(a: seq<string>, b: seq<string>)
    requires Distinct(a + b)
    ensures Distinct(a) && Distinct(b)
    ensures forall x :: x in b ==> x !in a
  {
    forall i, j | 0 <= i < j < |a| ensures a[i] != a[j] {
      assert (a + b)[i] == a[i] && (a + b)[j] == a[j];
    }
    forall i, j | 0 <= i < j < |b| ensures b[i] != b[j] {
      assert (a + b)[|a| + i] == b[i] && (a + b)[|a| + j] == b[j];
    }
    forall x | x in b ensures x !in a {
      var i :| 0 <= i < |b| && b[i] == x;
      forall j | 0 <= j < |a| ensures a[j] != x {
        assert (a + b)[j] == a[j] && (a + b)[|a| + i] == x;
      }
    }
  }

  /** The table `count_unique_values` returns, as `CombineTotals` states
      for the loan-type and product-kind pivots. */
  lemma {:induction false} CountUniqueValuesTotals(f: Frame, typeCol: string, kindCol: string, resCol: string, t: Table)
    requires CountUniqueValues(f, typeCol, kindCol, resCol) == Some(t)
    requires TotalRow !in Labels(f, typeCol, kindCol, resCol)
    ensures t.rows == [TotalRow] + Labels(f, typeCol, kindCol, resCol)
    ensures TotalCol in t.cols
    ensures forall c :: c != TotalCol && c in t.cols ==>
              At(t, TotalRow, c) == ColSum(t, Labels(f, typeCol, kindCol, resCol), c)
    ensures At(t, TotalRow, TotalCol) ==
              if AllSecured in Labels(f, typeCol, kindCol, resCol) && AllUnsecured in Labels(f, typeCol, kindCol, resCol)
              then At(t, AllSecured, TotalCol) + At(t, AllUnsecured, TotalCol)
              else 2 * ColSum(t, Labels(f, typeCol, kindCol, resCol), TotalCol)
  {
    var tp, kp := Side(f, typeCol, resCol), Side(f, kindCol, resCol);
    CountUniqueValuesIsCombine(f, typeCol, kindCol, resCol);
    CombineTotals(tp, kp, t);
  }

  lemma {:induction false} CountUniqueValuesIsCombine(f: Frame, typeCol: string, kindCol: string, resCol: string)
    requires CountUniqueValues(f, typeCol, kindCol, resCol).Some?
    ensures Distinct(Labels(f, typeCol, kindCol, resCol))
    ensures CountUniqueValues(f, typeCol, kindCol, resCol).value == Combine(Side(f, typeCol, resCol), Side(f, kindCol, resCol))
  {
  }

  /** Every category row of the table `count_unique_values` returns counts
      the records: under a loan type, the records of that type with each
      outcome, and in `Итог` those of that type with any outcome; likewise
      under a product kind. The outcome column is not categorical in the
      pipeline, and no label is the total row's. */
  lemma {:induction false} CountUniqueValuesCounts(f: Frame, typeCol: string, kindCol: string, resCol: string, t: Table)
    requires CountUniqueValues(f, typeCol, kindCol, resCol) == Some(t)
    requires resCol !in f.categories
    requires TotalRow !in Labels(f, typeCol, kindCol, resCol)
    ensures forall i, c :: 0 <= i < |GroupKeys(f, typeCol, resCol)| && c != TotalCol ==>
              At(t, RenameLabel(GroupKeys(f, typeCol, resCol)[i]), c) ==
              Count(f.rows, typeCol, GroupKeys(f, typeCol, resCol)[i], resCol, c)
    ensures forall i :: 0 <= i < |GroupKeys(f, typeCol, resCol)| ==>
              At(t, RenameLabel(GroupKeys(f, typeCol, resCol)[i]), TotalCol) ==
              CountWith(f.rows, typeCol, GroupKeys(f, typeCol, resCol)[i], resCol)
    ensures forall i, c :: 0 <= i < |GroupKeys(f, kindCol, resCol)| && c != TotalCol ==>
              At(t, RenameLabel(GroupKeys(f, kindCol, resCol)[i]), c) ==
              Count(f.rows, kindCol, GroupKeys(f, kindCol, resCol)[i], resCol, c)
    ensures forall i :: 0 <= i < |GroupKeys(f, kindCol, resCol)| ==>
              At(t, RenameLabel(GroupKeys(f, kindCol, resCol)[i]), TotalCol) ==
              CountWith(f.rows, kindCol, GroupKeys(f, kindCol, resCol)[i], resCol)
  {
    var tp := Side(f, typeCol, resCol);
    var kp := Side(f, kindCol, resCol);
    CountUniqueValuesIsCombine(f, typeCol, kindCol, resCol);
    DisjointLabels(tp.rows, kp.rows);
    CombineCells(tp, kp);
    forall i | 0 <= i < |GroupKeys(f, typeCol, resCol)|
      ensures forall c :: c != TotalCol ==>
                At(t, RenameLabel(GroupKeys(f, typeCol, resCol)[i]), c) == Count(f.rows, typeCol, GroupKeys(f, typeCol, resCol)[i], resCol, c)
      ensures At(t, RenameLabel(GroupKeys(f, typeCol, resCol)[i]), TotalCol) == CountWith(f.rows, typeCol, GroupKeys(f, typeCol, resCol)[i], resCol)
    {
      SideCells(f, typeCol, resCol, i);
      assert RenameLabel(GroupKeys(f, typeCol, resCol)[i]) == tp.rows[i];
    }
    forall i | 0 <= i < |GroupKeys(f, kindCol, resCol)|
      ensures forall c :: c != TotalCol ==>
                At(t, RenameLabel(GroupKeys(f, kindCol, resCol)[i]), c) == Count(f.rows, kindCol, GroupKeys(f, kindCol, resCol)[i], resCol, c)
      ensures At(t, RenameLabel(GroupKeys(f, kindCol, resCol)[i]), TotalCol) == CountWith(f.rows, kindCol, GroupKeys(f, kindCol, resCol)[i], resCol)
    {
      SideCells(f, kindCol, resCol, i);
      assert RenameLabel(GroupKeys(f, kindCol, resCol)[i]) == kp.rows[i];
    }
  }

  /** What a division's table holds after `apply_structure_and_sorting`:
      since `count_unique_values` already added a total row, each outcome
      total comes out as twice the sum of the category rows, and the `Итог`
      total four times the `Итог` sum unless both product-kind rows exist. */
  lemma {:induction false} StructuredDivisionTotals(f: Frame, typeCol: string, kindCol: string, resCol: string, t: Table)
    requires CountUniqueValues(f, typeCol, kindCol, resCol) == Some(t)
    requires TotalRow !in Labels(f, typeCol, kindCol, resCol)
    ensures ApplyStructure(t).rows == [TotalRow] + Labels(f, typeCol, kindCol, resCol)
    ensures forall x, c :: x != TotalRow && c in ApplyStructure(t).cols ==> At(ApplyStructure(t), x, c) == At(t, x, c)
    ensures forall c :: c != TotalCol && c in ApplyStructure(t).cols ==>
              At(ApplyStructure(t), TotalRow, c) == 2 * ColSum(t, Labels(f, typeCol, kindCol, resCol), c)
    ensures At(ApplyStructure(t), TotalRow, TotalCol) ==
              if AllSecured in Labels(f, typeCol, kindCol, resCol) && AllUnsecured in Labels(f, typeCol, kindCol, resCol)
              then At(t, AllSecured, TotalCol) + At(t, AllUnsecured, TotalCol)
              else 4 * ColSum(t, Labels(f, typeCol, kindCol, resCol), TotalCol)
  {
    var labels := Labels(f, typeCol, kindCol, resCol);
    CountUniqueValuesTotals(f, typeCol, kindCol, resCol, t);
    assert Distinct(labels) by { CountUniqueValuesIsCombine(f, typeCol, kindCol, resCol); }
    StructuredTotals(t, labels);
  }

  /** `apply_structure_and_sorting` on a table that already carries a total
      row on top, of the column sums over `labels`: the label rows keep their
      cells and every outcome total is doubled. */
  lemma {:induction false} StructuredTotals(t: Table, labels: seq<string>)
    requires TotalCol in t.cols && Distinct(labels) && TotalRow !in labels
    requires t.rows == [TotalRow] + labels
    requires forall c :: c != TotalCol && c in t.cols ==> At(t, TotalRow, c) == ColSum(t, labels, c)
    requires At(t, TotalRow, TotalCol) ==
              if AllSecured in labels && AllUnsecured in labels
              then At(t, AllSecured, TotalCol) + At(t, AllUnsecured, TotalCol)
              else 2 * ColSum(t, labels, TotalCol)
    ensures ApplyStructure(t).rows == [TotalRow] + labels
    ensures forall x, c :: x != TotalRow && c in ApplyStructure(t).cols ==> At(ApplyStructure(t), x, c) == At(t, x, c)
    ensures forall c :: c != TotalCol && c in ApplyStructure(t).cols ==>
              At(ApplyStructure(t), TotalRow, c) == 2 * ColSum(t, labels, c)
    ensures At(ApplyStructure(t), TotalRow, TotalCol) ==
              if AllSecured in labels && AllUnsecured in labels
              then At(t, AllSecured, TotalCol) + At(t, AllUnsecured, TotalCol)
              else 4 * ColSum(t, labels, TotalCol)
  {
    TotalOnTop(t, labels);
    StructureRows(t);
    ApplyStructureCells(t);
    forall c | c != TotalCol && c in ApplyStructure(t).cols
      ensures At(ApplyStructure(t), TotalRow, c) == 2 * ColSum(t, labels, c)
    {
      ApplyStructureDoublesTotals(t, c);
    }
    QuadrupledGrandTotal(t, labels);
  }

  /** `apply_structure_and_sorting` on a table whose total row, on top,
      already holds the two product-kind totals or twice the `Итог` column
      sum: unless both product-kind rows exist, the `Итог` cell grows to four
      times that sum. */
  lemma {:induction false} QuadrupledGrandTotal(t: Table, labels: seq<string>)
    requires TotalCol in t.cols && Distinct(labels) && TotalRow !in labels
    requires t.rows == [TotalRow] + labels
    requires At(t, TotalRow, TotalCol) ==
              if AllSecured in labels && AllUnsecured in labels
              then At(t, AllSecured, TotalCol) + At(t, AllUnsecured, TotalCol)
              else 2 * ColSum(t, labels, TotalCol)
    ensures At(ApplyStructure(t), TotalRow, TotalCol) ==
              if AllSecured in labels && AllUnsecured in labels
              then At(t, AllSecured, TotalCol) + At(t, AllUnsecured, TotalCol)
              else 4 * ColSum(t, labels, TotalCol)
  {
    TotalOnTop(t, labels);
    ApplyStructureCells(t);
    ColSumWithout(t, t.rows, TotalRow, TotalCol);
  }

  lemma {:induction false} TotalOnTop(t: Table, labels: seq<string>)
    requires Distinct(labels) && TotalRow !in labels && t.rows == [TotalRow] + labels
    ensures Distinct(t.rows) && Without(t.rows, TotalRow) == labels
  {
    assert t.rows[0] == TotalRow && t.rows[1..] == labels;
  }

  // ---------------------------------------------------------------------
  // The overall table

  /** Each cell of a sum of two tables is the sum of their cells. */
  lemma {:induction false} AddTablesCells(a: Table, b: Table, x: string, c: string)
    ensures At(AddTables(a, b), x, c) == At(a, x, c) + At(b, x, c)
  {
  }

  /** Each cell of the overall table is the sum of that cell over the tables. */
  lemma {:induction false} OverallCells(ts: seq<Table>, x: string, c: string)
    ensures At(Overall(ts), x, c) == SumAt(ts, x, c)
  {
    if ts != [] {
      OverallCells(ts[..|ts| - 1], x, c);
      AddTablesCells(Overall(ts[..|ts| - 1]), ts[|ts| - 1], x, c);
    }
  }

  lemma {:induction false} OverallNoRows(ts: seq<Table>)
    ensures Overall(ts).rows == [] <==> NoRows(ts)
  {
    if ts != [] {
      var init := ts[..|ts| - 1];
      OverallNoRows(init);
      NoRowsSnoc(ts);
      UnionEmpty(Overall(init).rows, ts[|ts| - 1].rows);
    }
  }

  lemma {:induction false} OverallNoCols(ts: seq<Table>)
    ensures Overall(ts).cols == [] <==> NoCols(ts)
  {
    if ts != [] {
      var init := ts[..|ts| - 1];
      OverallNoCols(init);
      NoColsSnoc(ts);
      UnionEmpty(Overall(init).cols, ts[|ts| - 1].cols);
    }
  }

  predicate NoRows(ts: seq<Table>) {
    forall i :: 0 <= i < |ts| ==> ts[i].rows == []
  }

  predicate NoCols(ts: seq<Table>) {
    forall i :: 0 <= i < |ts| ==> ts[i].cols == []
  }

  lemma {:induction false} NoRowsSnoc(ts: seq<Table>)
    requires ts != []
    ensures NoRows(ts) <==> NoRows(ts[..|ts| - 1]) && ts[|ts| - 1].rows == []
  {
    assert forall i :: 0 <= i < |ts| - 1 ==> ts[..|ts| - 1][i] == ts[i];
  }

  lemma {:induction false} NoColsSnoc(ts: seq<Table>)
    requires ts != []
    ensures NoCols(ts) <==> NoCols(ts[..|ts| - 1]) && ts[|ts| - 1].cols == []
  {
    assert forall i :: 0 <= i < |ts| - 1 ==> ts[..|ts| - 1][i] == ts[i];
  }

  lemma {:induction false} UnionEmpty(xs: seq<string>, ys: seq<string>)
    ensures Union(xs, ys) == [] <==> xs == [] && ys == []
  {
    if xs == [] && ys != [] {
      assert ys[0] in Union(xs, ys);
    }
  }

  /** The overall table is empty exactly when no table has a row or no
      table has a column. */
  lemma {:induction false} OverallEmpty(ts: seq<Table>)
    ensures IsEmpty(Overall(ts)) <==> NoRows(ts) || NoCols(ts)
  {
    OverallNoRows(ts);
    OverallNoCols(ts);
  }
}
