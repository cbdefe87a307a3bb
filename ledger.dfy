/** The ledger side of data_processing.py: classifying a loan type into a
    product kind, loading the ledger columns, the first-seen scan of the
    order-reference sheet, reordering records by that order, and splitting
    records by division. */
module Ledger {
  import opened Common

  /** A ledger row: column name to cell text. A column missing from the map
      is an empty (NaN) cell. */
  type Row = map<string, string>

  /** A sheet as it is read from the ledger file: its header and its rows. */
  datatype RawSheet = RawSheet(columns: seq<string>, rows: seq<Row>)

  /** A loaded table: column names, rows, and for every categorical column
      the ordered list of its categories. */
  datatype Frame = Frame(columns: seq<string>, rows: seq<Row>, categories: map<string, seq<string>>)

  const TypeColumn := "ТИП кредита"
  const ResultColumn := "Результат"
  const DivisionColumn := "Деления"
  const KindColumn := "Вид продукта"

  /** The only ledger columns that are kept, in this order. */
  const ExpectedColumns := [TypeColumn, ResultColumn, DivisionColumn]

  /** Loan types whose product is secured. */
  const Secured := ["автокредиты", "автомикрозаймы физическим лицам", "cashloan",
                    "Бизнес авто", "Бизнес ипотека", "ипотека"]

  /** Loan types whose product is unsecured. */
  const Unsecured := ["микрозаймы физическим лицам", "карта рассрочка", "Овердрафт"]

  const SecuredKind := "Залоговый"
  const UnsecuredKind := "Беззалоговый"
  const UndeterminedKind := "Неопределенный"

  /** The product kind of a loan type; an empty cell (None) is in neither list. */
  function AssignProductKind(creditType: Option<string>): (kind: string)
    ensures kind in {SecuredKind, UnsecuredKind, UndeterminedKind}
    ensures kind == SecuredKind <==> creditType.Some? && creditType.value in Secured
    ensures kind == UnsecuredKind <==> creditType.Some? && creditType.value in Unsecured
    ensures kind == UndeterminedKind <==>
              !(creditType.Some? && (creditType.value in Secured || creditType.value in Unsecured))
  {
    if creditType.Some? && creditType.value in Secured then SecuredKind
    else if creditType.Some? && creditType.value in Unsecured then UnsecuredKind
    else UndeterminedKind
  }

  /** The cell of `col` in `r`, None when it is empty. */
  function CellOf(r: Row, col: string): Option<string> {
    if col in r then Some(r[col]) else None
  }

  /** The names of `wanted`, in that order, that occur in `columns`. */
  function PresentColumns(wanted: seq<string>, columns: seq<string>): (r: seq<string>)
    ensures forall c :: c in r <==> c in wanted && c in columns
    ensures Distinct(wanted) ==> Distinct(r)
  {
    if wanted == [] then []
    else (if wanted[0] in columns then [wanted[0]] else []) + PresentColumns(wanted[1..], columns)
  }

  /** The selected columns keep the order of `wanted`. */
  lemma {:induction false} PresentColumnsOrder(wanted: seq<string>, columns: seq<string>)
    requires Distinct(wanted)
    ensures forall i, j :: 0 <= i < j < |PresentColumns(wanted, columns)| ==>
              IndexOf(wanted, PresentColumns(wanted, columns)[i]) < IndexOf(wanted, PresentColumns(wanted, columns)[j])
  {
    if wanted != [] {
      var w := wanted[1..];
      assert Distinct(w) && wanted[0] !in w;
      PresentColumnsOrder(w, columns);
      var tail := PresentColumns(w, columns);
      var r := PresentColumns(wanted, columns);
      if wanted[0] in columns {
        assert r == [wanted[0]] + tail;
      } else {
        assert r == [] + tail == tail;
      }
      assert wanted == [wanted[0]] + w;
      OrderAfterHead(wanted, tail, r);
    }
  }

  /** A sequence ordered by position in `s[1..]`, with or without the head of
      `s` in front, is ordered by position in `s`. */
  lemma {:induction false} OrderAfterHead(s: seq<string>, ys: seq<string>, r: seq<string>)
    requires s != [] && s[0] !in s[1..]
    requires forall y :: y in ys ==> y in s[1..] && y in s
    requires forall i, j :: 0 <= i < j < |ys| ==> IndexOf(s[1..], ys[i]) < IndexOf(s[1..], ys[j])
    requires r == ys || r == [s[0]] + ys
    ensures forall i, j :: 0 <= i < j < |r| ==> IndexOf(s, r[i]) < IndexOf(s, r[j])
  {
    IndicesInTail(s, ys);
    if r == ys {
      forall i, j | 0 <= i < j < |r| ensures IndexOf(s, r[i]) < IndexOf(s, r[j]) {
        assert r[i] in ys && r[j] in ys;
      }
    } else {
      forall i, j | 0 <= i < j < |r| ensures IndexOf(s, r[i]) < IndexOf(s, r[j]) {
        assert r[j] == ys[j - 1] && ys[j - 1] in ys;
        if i > 0 {
          assert r[i] == ys[i - 1] && ys[i - 1] in ys;
        }
      }
    }
  }

  /** Past the head of `s`, positions are one more than in `s[1..]`. */
  lemma {:induction false} IndicesInTail(s: seq<string>, ys: seq<string>)
    requires s != [] && s[0] !in s[1..] && forall y :: y in ys ==> y in s[1..]
    ensures forall y :: y in ys ==> IndexOf(s, y) == 1 + IndexOf(s[1..], y)
  {
    forall y | y in ys ensures IndexOf(s, y) == 1 + IndexOf(s[1..], y) {
      IndexOfTail(s, y);
    }
  }

  lemma {:induction false} IndexOfTail(s: seq<string>, y: string)
    requires s != [] && y in s[1..] && s[0] != y
    ensures IndexOf(s, y) == 1 + IndexOf(s[1..], y)
  {
  }

  /** When the last wanted column is present, it comes last. */
  lemma {:induction false} PresentColumnsLast(wanted: seq<string>, columns: seq<string>)
    requires wanted != [] && wanted[|wanted| - 1] in columns
    ensures var r := PresentColumns(wanted, columns);
            r != [] && r[|r| - 1] == wanted[|wanted| - 1]
  {
    var head := if wanted[0] in columns then [wanted[0]] else [];
    var w := wanted[1..];
    assert PresentColumns(wanted, columns) == head + PresentColumns(w, columns);
    if |wanted| > 1 {
      assert w[|w| - 1] == wanted[|wanted| - 1];
      PresentColumnsLast(w, columns);
      var tail := PresentColumns(w, columns);
      assert (head + tail)[|head + tail| - 1] == tail[|tail| - 1];
    } else {
      assert PresentColumns(w, columns) == [];
    }
  }

  /** The row reduced to the kept columns, with the product kind derived from
      the loan type when the kind column is missing and the type is kept. */
  function LoadRow(r: Row, kept: seq<string>): (out: Row)
    requires KindColumn !in kept
    ensures forall c :: c != KindColumn ==> CellOf(out, c) == if c in kept then CellOf(r, c) else None
    ensures KindColumn in out <==> TypeColumn in kept
    ensures TypeColumn in kept ==> out[KindColumn] == AssignProductKind(CellOf(r, TypeColumn))
  {
    var base := map c | c in r && c in kept :: r[c];
    if KindColumn !in kept && TypeColumn in kept then base[KindColumn := AssignProductKind(CellOf(r, TypeColumn))]
    else base
  }

  /** `load_excel`: None for a missing or unreadable file (None input) and
      when none of the expected columns is present. Otherwise only the
      expected columns are kept, so the product kind is never taken from the
      file: it is derived from the loan type on every row whenever the loan
      type column is there. */
  function LoadExcel(sheet: Option<RawSheet>): (r: Option<Frame>)
    ensures r.None? <==> sheet.None? || forall c :: c in ExpectedColumns ==> c !in sheet.value.columns
    ensures r.Some? ==>
              var kept := PresentColumns(ExpectedColumns, sheet.value.columns);
              && r.value.columns == kept + (if TypeColumn in kept then [KindColumn] else [])
              && r.value.categories == map[]
              && |r.value.rows| == |sheet.value.rows|
              && forall i :: 0 <= i < |r.value.rows| ==>
                   && (forall c :: c in ExpectedColumns ==>
                         CellOf(r.value.rows[i], c) ==
                         (if c in sheet.value.columns then CellOf(sheet.value.rows[i], c) else None))
                   && (KindColumn in r.value.rows[i] <==> TypeColumn in sheet.value.columns)
                   && (TypeColumn in sheet.value.columns ==>
                         r.value.rows[i][KindColumn] == AssignProductKind(CellOf(sheet.value.rows[i], TypeColumn)))
  {
    if sheet.None? then None
    else
      var kept := PresentColumns(ExpectedColumns, sheet.value.columns);
      if kept == [] then None
      else
        assert kept[0] in kept;
        assert KindColumn !in kept;
        var rows := seq(|sheet.value.rows|, i requires 0 <= i < |sheet.value.rows| => LoadRow(sheet.value.rows[i], kept));
        LoadedRows(sheet.value, kept, rows);
        var columns := if KindColumn !in kept && TypeColumn in kept then kept + [KindColumn] else kept;
        Some(Frame(columns, rows, map[]))
  }

  /** Every loaded row holds the ledger's cells of the expected columns and
      the product kind derived from its loan type. */
  lemma {:induction false} LoadedRows(sheet: RawSheet, kept: seq<string>, rows: seq<Row>)
    requires kept == PresentColumns(ExpectedColumns, sheet.columns) && KindColumn !in kept
    requires |rows| == |sheet.rows| && forall i :: 0 <= i < |rows| ==> rows[i] == LoadRow(sheet.rows[i], kept)
    ensures forall i :: 0 <= i < |rows| ==>
              && (forall c :: c in ExpectedColumns ==>
                    CellOf(rows[i], c) == (if c in sheet.columns then CellOf(sheet.rows[i], c) else None))
              && (KindColumn in rows[i] <==> TypeColumn in sheet.columns)
              && (TypeColumn in sheet.columns ==> rows[i][KindColumn] == AssignProductKind(CellOf(sheet.rows[i], TypeColumn)))
  {
    forall i | 0 <= i < |rows|
      ensures forall c :: c in ExpectedColumns ==>
                CellOf(rows[i], c) == (if c in sheet.columns then CellOf(sheet.rows[i], c) else None)
      ensures KindColumn in rows[i] <==> TypeColumn in sheet.columns
      ensures TypeColumn in sheet.columns ==> rows[i][KindColumn] == AssignProductKind(CellOf(sheet.rows[i], TypeColumn))
    {
      LoadedRow(sheet.rows[i], sheet.columns, kept, rows[i]);
    }
  }

  lemma {:induction false} LoadedRow(r: Row, columns: seq<string>, kept: seq<string>, out: Row)
    requires kept == PresentColumns(ExpectedColumns, columns) && KindColumn !in kept
    requires out == LoadRow(r, kept)
    ensures forall c :: c in ExpectedColumns ==> CellOf(out, c) == (if c in columns then CellOf(r, c) else None)
    ensures KindColumn in out <==> TypeColumn in columns
    ensures TypeColumn in columns ==> out[KindColumn] == AssignProductKind(CellOf(r, TypeColumn))
  {
    assert TypeColumn in kept <==> TypeColumn in columns;
    assert KindColumn !in ExpectedColumns;
  }

  /** The non-empty cells of `col`, top to bottom. */
  function ColumnValues(rows: seq<Row>, col: string): (vs: seq<string>)
    ensures forall v :: v in vs <==> exists i :: 0 <= i < |rows| && col in rows[i] && rows[i][col] == v
  {
    if rows == [] then []
    else
      var rest := ColumnValues(rows[1..], col);
      assert forall i :: 0 < i < |rows| ==> rows[i] == rows[1..][i - 1];
      (if col in rows[0] then [rows[0][col]] else []) + rest
  }

  /** `df[col].dropna().unique()`: the distinct non-empty values of `col` in
      first-occurrence order. */
  function DistinctValues(rows: seq<Row>, col: string): (vs: seq<string>)
    ensures Distinct(vs)
    ensures forall v :: v in vs <==> exists i :: 0 <= i < |rows| && col in rows[i] && rows[i][col] == v
  {
    Dedup(ColumnValues(rows, col))
  }

  /** The rows whose `col` cell equals `v`, in their original order
      (`df[df[col] == v]`; an empty cell equals nothing). */
  function RowsWith(rows: seq<Row>, col: string, v: string): (r: seq<Row>)
    ensures forall x :: x in r ==> col in x && x[col] == v
    ensures forall i :: 0 <= i < |rows| && col in rows[i] && rows[i][col] == v ==> rows[i] in r
    ensures |r| <= |rows|
  {
    if rows == [] then []
    else
      assert forall i :: 0 < i < |rows| ==> rows[i] == rows[1..][i - 1];
      (if col in rows[0] && rows[0][col] == v then [rows[0]] else []) + RowsWith(rows[1..], col, v)
  }

  /** A single row is kept exactly when its `col` cell equals `v`. */
  lemma {:induction false} RowsWithOne(x: Row, col: string, v: string)
    ensures RowsWith([x], col, v) == if col in x && x[col] == v then [x] else []
  {
    assert [x][1..] == [];
  }

  /** The filter distributes over concatenation, so together with
      `RowsWithOne` it fixes the result row by row: the kept rows, in their
      order, each as often as it occurs. */
  lemma {:induction false} RowsWithAppend(a: seq<Row>, b: seq<Row>, col: string, v: string)
    ensures RowsWith(a + b, col, v) == RowsWith(a, col, v) + RowsWith(b, col, v)
    decreases |a|
  {
    if a == [] {
      assert a + b == b;
    } else {
      assert (a + b)[0] == a[0];
      assert (a + b)[1..] == a[1..] + b;
      RowsWithAppend(a[1..], b, col, v);
    }
  }

  /** Multiplicities: a matching row occurs in the result as often as in
      the input, any other row not at all. */
  lemma {:induction false} RowsWithCount(rows: seq<Row>, col: string, v: string, x: Row)
    ensures multiset(RowsWith(rows, col, v))[x] == if col in x && x[col] == v then multiset(rows)[x] else 0
    decreases |rows|
  {
    if rows != [] {
      assert rows == [rows[0]] + rows[1..];
      RowsWithAppend([rows[0]], rows[1..], col, v);
      RowsWithOne(rows[0], col, v);
      RowsWithCount(rows[1..], col, v, x);
    }
  }

  /** `create_dataframes_by_division`: None when the division column is
      missing; otherwise one bucket per distinct division, in first-seen
      order, each holding exactly that division's rows in their order. */
  function SplitByDivision(f: Frame, col: string): (r: Option<OrderedMap<string, Frame>>)
    ensures r.None? <==> col !in f.columns
    ensures r.Some? ==>
              && Keys(r.value) == DistinctValues(f.rows, col)
              && forall j :: 0 <= j < |r.value| ==>
                   r.value[j].1 == Frame(f.columns, RowsWith(f.rows, col, r.value[j].0), f.categories)
  {
    if col !in f.columns then None
    else
      var ks := DistinctValues(f.rows, col);
      Some(seq(|ks|, j requires 0 <= j < |ks| => (ks[j], Frame(f.columns, RowsWith(f.rows, col, ks[j]), f.categories))))
  }

  /** Every row that has a division lies in exactly one bucket: the one of
      its own division. */
  lemma {:induction false} SplitIsPartition(f: Frame, col: string, i: nat)
    requires col in f.columns && i < |f.rows| && col in f.rows[i]
    ensures var buckets := SplitByDivision(f, col).value;
            && (exists j :: 0 <= j < |buckets| && buckets[j].0 == f.rows[i][col])
            && forall j :: 0 <= j < |buckets| ==>
                 (f.rows[i] in buckets[j].1.rows <==> buckets[j].0 == f.rows[i][col])
  {
    var buckets := SplitByDivision(f, col).value;
    var ks := DistinctValues(f.rows, col);
    assert f.rows[i][col] in ks;
    var j := IndexOf(ks, f.rows[i][col]);
    assert buckets[j].0 == f.rows[i][col];
  }

  /** The position of a row's loan type in `ordered`; rows whose type is
      empty or not listed come after all listed ones. */
  function RankKey(ordered: seq<string>, col: string): Row -> int {
    (r: Row) => if col in r && r[col] in ordered then IndexOf(ordered, r[col]) else |ordered|
  }

  /** The row as the categorical column sees it: a type not in the category
      list becomes empty. */
  function Recode(r: Row, col: string, ordered: seq<string>): Row {
    if col in r && r[col] !in ordered then r - {col} else r
  }

  function RecodeAll(rows: seq<Row>, col: string, ordered: seq<string>): (r: seq<Row>)
    ensures |r| == |rows| && forall i :: 0 <= i < |rows| ==> r[i] == Recode(rows[i], col, ordered)
  {
    seq(|rows|, i requires 0 <= i < |rows| => Recode(rows[i], col, ordered))
  }

  /** `reorder_dataframe`: the column becomes categorical over `ordered` and
      the rows are sorted by the position of their type in that list. */
  function Reorder(f: Frame, col: string, ordered: seq<string>): (r: Frame)
    requires col in f.columns
    ensures r.columns == f.columns && r.categories == f.categories[col := ordered]
  {
    Frame(f.columns, SortBy(RecodeAll(f.rows, col, ordered), RankKey(ordered, col)), f.categories[col := ordered])
  }

  /** Reordering keeps every record (with an unlisted type emptied), lists
      them by the position of their type with empty types last, keeps the
      original order among records of one type, and leaves only listed or
      empty types. */
  lemma {:induction false} ReorderFacts(f: Frame, col: string, ordered: seq<string>)
    requires col in f.columns
    ensures var r := Reorder(f, col, ordered);
            && multiset(r.rows) == multiset(RecodeAll(f.rows, col, ordered))
            && SortedBy(r.rows, RankKey(ordered, col))
            && (forall k :: WithKey(r.rows, RankKey(ordered, col), k) ==
                            WithKey(RecodeAll(f.rows, col, ordered), RankKey(ordered, col), k))
            && (forall i :: 0 <= i < |r.rows| && col in r.rows[i] ==> r.rows[i][col] in ordered)
  {
    var rec := RecodeAll(f.rows, col, ordered);
    var r := Reorder(f, col, ordered);
    SortByFacts(rec, RankKey(ordered, col));
    forall i | 0 <= i < |r.rows| && col in r.rows[i] ensures r.rows[i][col] in ordered {
      assert r.rows[i] in multiset(rec);
      var k :| 0 <= k < |rec| && rec[k] == r.rows[i];
    }
  }

  /** Concatenation of the sheet's rows, row by row (numpy's `flatten`). */
  function Flatten(g: seq<seq<Value>>): (cells: seq<Value>)
    ensures forall v :: v in cells <==> exists i :: 0 <= i < |g| && v in g[i]
  {
    if g == [] then []
    else
      assert forall i :: 0 < i < |g| ==> g[i] == g[1..][i - 1];
      g[0] + Flatten(g[1..])
  }

  /** The first-seen scan: walking the cells in order, a text cell is added
      when it is one of `targets` and not yet in the result. */
  function OrderedScan(cells: seq<Value>, targets: seq<string>): (r: seq<string>)
    ensures Distinct(r)
    ensures forall x :: x in r ==> x in targets && Str(x) in cells
    ensures forall t :: t in targets && Str(t) in cells ==> t in r
  {
    if cells == [] then []
    else
      var n := |cells| - 1;
      var p := OrderedScan(cells[..n], targets);
      assert cells == cells[..n] + [cells[n]];
      if cells[n].Str? && cells[n].s in targets && cells[n].s !in p then p + [cells[n].s] else p
  }

  /** The scan lists labels in the order of their first occurrence. */
  ghost predicate InFirstSeenOrder(cells: seq<Value>, r: seq<string>)
    requires forall x :: x in r ==> Str(x) in cells
  {
    forall i, j :: 0 <= i < j < |r| ==> IndexOf(cells, Str(r[i])) < IndexOf(cells, Str(r[j]))
  }

  lemma {:induction false} OrderedScanFirstSeen(cells: seq<Value>, targets: seq<string>)
    ensures InFirstSeenOrder(cells, OrderedScan(cells, targets))
  {
    if cells != [] {
      var n := |cells| - 1;
      var init := cells[..n];
      var p := OrderedScan(init, targets);
      var r := OrderedScan(cells, targets);
      OrderedScanFirstSeen(init, targets);
      assert p <= r;
      forall i, j | 0 <= i < j < |r| ensures IndexOf(cells, Str(r[i])) < IndexOf(cells, Str(r[j])) {
        var a := p[i];
        assert Str(a) in init;
        IndexOfPrefix(cells, n, Str(a));
        if j < |p| {
          var b := p[j];
          assert Str(b) in init;
          IndexOfPrefix(cells, n, Str(b));
          assert InFirstSeenOrder(init, p);
          assert IndexOf(init, Str(p[i])) < IndexOf(init, Str(p[j]));
        } else {
          assert r[j] == cells[n].s && Str(r[j]) == cells[n];
          assert cells[n] !in init;
          assert IndexOf(cells, cells[n]) == n;
        }
      }
    }
  }

  /** `find_ordered_types_in_report`: `sheet` is the order-reference sheet as
      pandas reads it (the rows below its header row), None when it cannot
      be read, which yields the empty list. */
  method FindOrderedTypes(sheet: Option<seq<seq<Value>>>, uniqueTypes: seq<string>) returns (ordered: seq<string>)
    ensures sheet.None? ==> ordered == []
    ensures sheet.Some? ==> ordered == OrderedScan(Flatten(sheet.value), uniqueTypes)
  {
    if sheet.None? {
      return [];
    }
    var cells := Flatten(sheet.value);
    ordered := [];
    for i := 0 to |cells|
      invariant ordered == OrderedScan(cells[..i], uniqueTypes)
    {
      assert cells[..i + 1][..i] == cells[..i];
      var v := cells[i];
      if v.Str? && v.s in uniqueTypes && v.s !in ordered {
        ordered := ordered + [v.s];
      }
    }
    assert cells[..|cells|] == cells;
  }
}
