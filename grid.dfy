/** Worksheets as openpyxl presents them: cells addressed by 1-based row
    and column, merged ranges, row-major scans for a value, A1 column
    letters and decimal row numbers. */
module Grid {
  import opened Common

  /** A merged range: rows `minRow..maxRow`, columns `minCol..maxCol`. */
  datatype Span = Span(minRow: int, maxRow: int, minCol: int, maxCol: int)

  /** A merged range as a worksheet holds it: non-empty and inside the sheet's
      positive coordinates. */
  type Region = g: Span | 1 <= g.minRow <= g.maxRow && 1 <= g.minCol <= g.maxCol witness Span(1, 1, 1, 1)

  /** A worksheet: its stored cells, `max_row`, `max_column` and its merged
      ranges in the order the workbook lists them. */
  datatype Sheet = Sheet(cells: map<(int, int), Value>, maxRow: int, maxCol: int, merged: seq<Region>)

  /** `sheet.cell(row, column).value`: a cell never written is empty. */
  function ValueAt(s: Sheet, r: int, c: int): Value {
    if (r, c) in s.cells then s.cells[(r, c)] else Blank
  }

  // ---------------------------------------------------------------------
  // Row-major scans

  /** The leftmost column of row `r` among `lo..hi` holding `v`. */
  function FirstInRow(s: Sheet, r: int, lo: int, hi: int, v: Value): (c: Option<int>)
    decreases hi - lo
    ensures c.Some? ==> lo <= c.value <= hi && ValueAt(s, r, c.value) == v
  {
    if lo > hi then None
    else if ValueAt(s, r, lo) == v then Some(lo)
    else FirstInRow(s, r, lo + 1, hi, v)
  }

  /** `FirstInRow` finds the leftmost cell holding `v`, and finds nothing
      only when no cell of the row segment holds it. */
  lemma {:induction false} FirstInRowIsFirst(s: Sheet, r: int, lo: int, hi: int, v: Value)
    decreases hi - lo
    ensures FirstInRow(s, r, lo, hi, v).Some? ==> forall c' :: lo <= c' < FirstInRow(s, r, lo, hi, v).value ==> ValueAt(s, r, c') != v
    ensures FirstInRow(s, r, lo, hi, v).None? ==> forall c' :: lo <= c' <= hi ==> ValueAt(s, r, c') != v
  {
    if lo <= hi && ValueAt(s, r, lo) != v {
      FirstInRowIsFirst(s, r, lo + 1, hi, v);
    }
  }

  /** The first cell holding `v` in rows `top..bottom` and columns `lo..hi`,
      scanning row after row, each row left to right. */
  function FirstInWindow(s: Sheet, top: int, bottom: int, lo: int, hi: int, v: Value): (p: Option<(int, int)>)
    decreases bottom - top
    ensures p.Some? ==> top <= p.value.0 <= bottom && lo <= p.value.1 <= hi && ValueAt(s, p.value.0, p.value.1) == v
  {
    if top > bottom then None
    else match FirstInRow(s, top, lo, hi, v)
      case Some(c) => Some((top, c))
      case None => FirstInWindow(s, top + 1, bottom, lo, hi, v)
  }

  /** `FirstInWindow` finds the first cell in row-major order holding `v`,
      and finds nothing only when no cell of the window holds it. */
  lemma {:induction false} FirstInWindowIsFirst(s: Sheet, top: int, bottom: int, lo: int, hi: int, v: Value)
    decreases bottom - top
    ensures FirstInWindow(s, top, bottom, lo, hi, v).Some? ==>
              var p := FirstInWindow(s, top, bottom, lo, hi, v).value;
              && (forall r, c :: top <= r < p.0 && lo <= c <= hi ==> ValueAt(s, r, c) != v)
              && (forall c :: lo <= c < p.1 ==> ValueAt(s, p.0, c) != v)
    ensures FirstInWindow(s, top, bottom, lo, hi, v).None? ==>
              forall r, c :: top <= r <= bottom && lo <= c <= hi ==> ValueAt(s, r, c) != v
  {
    if top <= bottom {
      FirstInRowIsFirst(s, top, lo, hi, v);
      if FirstInRow(s, top, lo, hi, v).None? {
        FirstInWindowIsFirst(s, top + 1, bottom, lo, hi, v);
      }
    }
  }

  /** Column `c` is the leftmost of `lo..hi` in row `r` holding `v`. */
  predicate IsFirstInRow(s: Sheet, r: int, lo: int, hi: int, v: Value, c: int) {
    && lo <= c <= hi && ValueAt(s, r, c) == v
    && forall c' :: lo <= c' < c ==> ValueAt(s, r, c') != v
  }

  /** `FirstInRow` finds `c` exactly when `c` is the leftmost match. */
  lemma {:induction false} FirstInRowExact(s: Sheet, r: int, lo: int, hi: int, v: Value, c: int)
    ensures FirstInRow(s, r, lo, hi, v) == Some(c) <==> IsFirstInRow(s, r, lo, hi, v, c)
  {
    FirstInRowIsFirst(s, r, lo, hi, v);
  }

  /** Cell `(r, c)` is the first of rows `top..bottom` and columns `lo..hi`,
      in row-major order, holding `v`. */
  predicate IsFirstInWindow(s: Sheet, top: int, bottom: int, lo: int, hi: int, v: Value, r: int, c: int) {
    && top <= r <= bottom && lo <= c <= hi && ValueAt(s, r, c) == v
    && (forall r', c' :: top <= r' < r && lo <= c' <= hi ==> ValueAt(s, r', c') != v)
    && (forall c' :: lo <= c' < c ==> ValueAt(s, r, c') != v)
  }

  /** `FirstInWindow` finds `(r, c)` exactly when it is the first match in
      row-major order. */
  lemma {:induction false} FirstInWindowExact(s: Sheet, top: int, bottom: int, lo: int, hi: int, v: Value, r: int, c: int)
    ensures FirstInWindow(s, top, bottom, lo, hi, v) == Some((r, c)) <==> IsFirstInWindow(s, top, bottom, lo, hi, v, r, c)
  {
    FirstInWindowIsFirst(s, top, bottom, lo, hi, v);
  }

  /** Cell `(r, c)` is the first cell of the whole sheet, in row-major order
      over rows `1..max_row` and columns `1..max_column`, that holds `v`. */
  predicate IsFirstMatch(s: Sheet, r: int, c: int, v: Value) {
    && 1 <= r <= s.maxRow && 1 <= c <= s.maxCol && ValueAt(s, r, c) == v
    && (forall r', c' :: 1 <= r' < r && 1 <= c' <= s.maxCol ==> ValueAt(s, r', c') != v)
    && (forall c' :: 1 <= c' < c ==> ValueAt(s, r, c') != v)
  }

  /** The first cell of the whole sheet holding `v`, row by row. */
  function FirstCell(s: Sheet, v: Value): Option<(int, int)> {
    FirstInWindow(s, 1, s.maxRow, 1, s.maxCol, v)
  }

  /** A cell that is the first match is the one the scan finds. */
  lemma {:induction false} FirstCellOf(s: Sheet, v: Value, r: int, c: int)
    requires IsFirstMatch(s, r, c, v)
    ensures FirstCell(s, v) == Some((r, c))
  {
    WholeSheetScan(s, v);
  }

  /** `cell.coordinate` of the first cell of the sheet holding `v`, in
      row-major order; None when no cell holds it. */
  function CellAddress(s: Sheet, v: Value): Option<string> {
    match FirstCell(s, v)
    case None => None
    case Some(p) => Some(Coordinate(p.0, p.1))
  }

  /** The inner loop of a scan: the columns `lo..hi` of row `r`, stopping at
      the first cell holding `v`. */
  method ScanRow(s: Sheet, r: int, lo: int, hi: int, v: Value) returns (c: Option<int>)
    ensures c == FirstInRow(s, r, lo, hi, v)
  {
    var col := lo;
    while col <= hi
      invariant FirstInRow(s, r, col, hi, v) == FirstInRow(s, r, lo, hi, v)
      decreases hi - col
    {
      if ValueAt(s, r, col) == v {
        return Some(col);
      }
      col := col + 1;
    }
    return None;
  }

  /** The nested loops of a scan: rows `top..bottom`, each row over the
      columns `lo..hi`, leaving both loops at the first cell holding `v`. */
  method ScanWindow(s: Sheet, top: int, bottom: int, lo: int, hi: int, v: Value) returns (p: Option<(int, int)>)
    ensures p == FirstInWindow(s, top, bottom, lo, hi, v)
  {
    var row := top;
    while row <= bottom
      invariant FirstInWindow(s, row, bottom, lo, hi, v) == FirstInWindow(s, top, bottom, lo, hi, v)
      decreases bottom - row
    {
      var c := ScanRow(s, row, lo, hi, v);
      if c.Some? {
        return Some((row, c.value));
      }
      row := row + 1;
    }
    return None;
  }

  /** The whole-sheet scan is the first match: soundness and completeness of
      `FirstInWindow` over rows `1..max_row` and columns `1..max_column`. */
  lemma {:induction false} WholeSheetScan(s: Sheet, v: Value)
    ensures FirstInWindow(s, 1, s.maxRow, 1, s.maxCol, v).Some? ==>
              IsFirstMatch(s, FirstInWindow(s, 1, s.maxRow, 1, s.maxCol, v).value.0, FirstInWindow(s, 1, s.maxRow, 1, s.maxCol, v).value.1, v)
    ensures FirstInWindow(s, 1, s.maxRow, 1, s.maxCol, v).None? <==>
              forall r, c :: 1 <= r <= s.maxRow && 1 <= c <= s.maxCol ==> ValueAt(s, r, c) != v
  {
    FirstInWindowIsFirst(s, 1, s.maxRow, 1, s.maxCol, v);
    var p := FirstInWindow(s, 1, s.maxRow, 1, s.maxCol, v);
    if p.Some? {
      assert ValueAt(s, p.value.0, p.value.1) == v;
    }
  }

  // ---------------------------------------------------------------------
  // A1 notation

  predicate IsUpper(ch: char) {
    'A' as int <= ch as int <= 'Z' as int
  }

  predicate IsDigit(ch: char) {
    '0' as int <= ch as int <= '9' as int
  }

  /** The capital letter at position `d` of the alphabet, from 0. */
  function Letter(d: int): (ch: char)
    requires 0 <= d < 26
    ensures ch as int == 'A' as int + d && IsUpper(ch)
  {
    ('A' as int + d) as char
  }

  /** The decimal digit `d`. */
  function Digit(d: int): (ch: char)
    requires 0 <= d < 10
    ensures ch as int == '0' as int + d && IsDigit(ch)
  {
    ('0' as int + d) as char
  }

  /** A non-empty run of capital Latin letters: a column name. */
  predicate IsLetters(s: string) {
    |s| > 0 && forall i :: 0 <= i < |s| ==> IsUpper(s[i])
  }

  /** A non-empty run of decimal digits: a row number. */
  predicate IsDigits(s: string) {
    |s| > 0 && forall i :: 0 <= i < |s| ==> IsDigit(s[i])
  }

  /** `get_column_letter`: column 1 is A, 26 is Z, 27 is AA (bijective base 26). */
  function ColumnLetter(n: int): (s: string)
    requires n >= 1
    ensures IsLetters(s)
  {
    var q := (n - 1) / 26;
    (if q == 0 then [] else ColumnLetter(q)) + [Letter((n - 1) % 26)]
  }

  /** `column_index_from_string` on a column name. */
  function ColumnIndex(s: string): int {
    if s == [] then 0
    else 26 * ColumnIndex(s[..|s| - 1]) + ((s[|s| - 1] as int) - ('A' as int) + 1)
  }

  /** Converting a column number to its letters and back gives the number. */
  lemma {:induction false} IndexOfLetter(n: int)
    requires n >= 1
    ensures ColumnIndex(ColumnLetter(n)) == n
  {
    var q := (n - 1) / 26;
    var d := (n - 1) % 26;
    assert n == 26 * q + d + 1;
    var s := ColumnLetter(n);
    assert s[..|s| - 1] == if q == 0 then [] else ColumnLetter(q);
    assert s[|s| - 1] == Letter(d);
    if q != 0 {
      IndexOfLetter(q);
    }
    assert ColumnIndex(s) == 26 * ColumnIndex(s[..|s| - 1]) + d + 1;
  }

  /** A base-26 number splits into its leading part and its last digit. */
  lemma {:induction false} DigitSplit(q: int, d: int, m: int)
    requires q >= 0 && 0 <= d < 26 && m == 26 * q + d
    ensures m / 26 == q && m % 26 == d
  {
  }

  /** Converting a column name to its number and back gives the name. */
  lemma {:induction false} LetterOfIndex(s: string)
    requires IsLetters(s)
    ensures ColumnIndex(s) >= 1 && ColumnLetter(ColumnIndex(s)) == s
  {
    var init := s[..|s| - 1];
    var last := s[|s| - 1];
    var d := (last as int) - ('A' as int);
    assert IsUpper(last);
    var k := ColumnIndex(init);
    var n := ColumnIndex(s);
    assert n == 26 * k + d + 1;
    if init == [] {
      ColumnLetterStep(0, d, n);
      assert s == [last];
    } else {
      assert IsLetters(init) by {
        assert forall i :: 0 <= i < |init| ==> init[i] == s[i];
      }
      LetterOfIndex(init);
      ColumnLetterStep(k, d, n);
      assert s == init + [last];
    }
  }

  /** The last letter of a column name is its last base-26 digit. */
  lemma {:induction false} ColumnLetterStep(k: int, d: int, n: int)
    requires k >= 0 && 0 <= d < 26 && n == 26 * k + d + 1
    ensures ColumnLetter(n) == (if k == 0 then [] else ColumnLetter(k)) + [Letter(d)]
  {
    DigitSplit(k, d, n - 1);
  }

  /** `increment_column`: the column name `inc` places to the right. */
  function IncrementColumn(col: string, inc: nat): (r: string)
    requires IsLetters(col)
    ensures IsLetters(r)
  {
    LetterOfIndex(col);
    ColumnLetter(ColumnIndex(col) + inc)
  }

  /** Moving column `c`'s name `inc` places lands on column `c + inc`. */
  lemma {:induction false} ShiftedColumn(c: int, inc: nat)
    requires c >= 1
    ensures IncrementColumn(ColumnLetter(c), inc) == ColumnLetter(c + inc)
  {
    IndexOfLetter(c);
  }

  /** `str(n)` for a non-negative integer. */
  function NatToString(n: nat): (s: string)
    ensures IsDigits(s)
  {
    (if n < 10 then [] else NatToString(n / 10)) + [Digit(n % 10)]
  }

  /** `int(s)` on a run of digits. */
  function ParseNat(s: string): nat
    requires forall i :: 0 <= i < |s| ==> IsDigit(s[i])
  {
    if s == [] then 0
    else
      assert IsDigit(s[|s| - 1]);
      10 * ParseNat(s[..|s| - 1]) + ((s[|s| - 1] as int) - ('0' as int))
  }

  /** Reading back a printed row number gives the number. */
  lemma {:induction false} ParsePrinted(n: nat)
    ensures ParseNat(NatToString(n)) == n
  {
    var s := NatToString(n);
    assert s[..|s| - 1] == if n < 10 then [] else NatToString(n / 10);
    assert s[|s| - 1] == Digit(n % 10);
    assert n == 10 * (n / 10) + n % 10;
    if n >= 10 {
      ParsePrinted(n / 10);
    }
  }

  /** `cell.coordinate`: the column name followed by the row number. */
  function Coordinate(r: nat, c: int): string
    requires c >= 1
  {
    ColumnLetter(c) + NatToString(r)
  }

  /** `re.sub(r'[^A-Z]', '', s)`: the capital Latin letters of `s`. */
  function KeepLetters(s: string): (r: string)
    ensures forall i :: 0 <= i < |r| ==> IsUpper(r[i])
  {
    if s == [] then []
    else (if IsUpper(s[0]) then [s[0]] else []) + KeepLetters(s[1..])
  }

  /** `re.sub(r'[^0-9]', '', s)`: the decimal digits of `s`. */
  function KeepDigits(s: string): (r: string)
    ensures forall i :: 0 <= i < |r| ==> IsDigit(r[i])
  {
    if s == [] then []
    else (if IsDigit(s[0]) then [s[0]] else []) + KeepDigits(s[1..])
  }

  lemma {:induction false} KeepOnConcat(a: string, b: string)
    ensures KeepLetters(a + b) == KeepLetters(a) + KeepLetters(b)
    ensures KeepDigits(a + b) == KeepDigits(a) + KeepDigits(b)
  {
    if a == [] {
      assert a + b == b;
    } else {
      assert (a + b)[0] == a[0];
      assert (a + b)[1..] == a[1..] + b;
      KeepOnConcat(a[1..], b);
    }
  }

  lemma {:induction false} KeepOnLetters(s: string)
    requires forall i :: 0 <= i < |s| ==> IsUpper(s[i])
    ensures KeepLetters(s) == s && KeepDigits(s) == []
  {
    if s != [] {
      KeepOnLetters(s[1..]);
    }
  }

  lemma {:induction false} KeepOnDigits(s: string)
    requires forall i :: 0 <= i < |s| ==> IsDigit(s[i])
    ensures KeepLetters(s) == [] && KeepDigits(s) == s
  {
    if s != [] {
      KeepOnDigits(s[1..]);
    }
  }

  /** Stripping a coordinate to its letters gives its column name, and to
      its digits its row number. */
  lemma {:induction false} CoordinateParts(r: nat, c: int)
    requires c >= 1
    ensures KeepLetters(Coordinate(r, c)) == ColumnLetter(c)
    ensures KeepDigits(Coordinate(r, c)) == NatToString(r)
  {
    KeepOnConcat(ColumnLetter(c), NatToString(r));
    KeepOnLetters(ColumnLetter(c));
    KeepOnDigits(NatToString(r));
  }

  /** The length of the run of capital letters that starts `s`. */
  function LetterRun(s: string): (n: nat)
    ensures n <= |s| && (forall i :: 0 <= i < n ==> IsUpper(s[i])) && (n < |s| ==> !IsUpper(s[n]))
  {
    if s == [] || !IsUpper(s[0]) then 0 else 1 + LetterRun(s[1..])
  }

  /** The length of the run of digits that starts `s`. */
  function DigitRun(s: string): (n: nat)
    ensures n <= |s| && (forall i :: 0 <= i < n ==> IsDigit(s[i])) && (n < |s| ==> !IsDigit(s[n]))
  {
    if s == [] || !IsDigit(s[0]) then 0 else 1 + DigitRun(s[1..])
  }

  /** `re.findall(r'([A-Z]+)([0-9]+)', s)[0]`: the leftmost run of letters
      directly followed by digits, both runs taken whole; None where the
      source indexes an empty list. */
  function SplitA1(s: string): (r: Option<(string, string)>)
    ensures r.Some? ==> IsLetters(r.value.0) && IsDigits(r.value.1)
  {
    if s == [] then None
    else
      var j := LetterRun(s);
      var k := DigitRun(s[j..]);
      if j > 0 && k > 0 then Some((s[..j], s[j..j + k])) else SplitA1(s[1..])
  }

  /** A coordinate splits back into its column name and its row number. */
  lemma {:induction false} SplitCoordinate(r: nat, c: int)
    requires c >= 1
    ensures SplitA1(Coordinate(r, c)) == Some((ColumnLetter(c), NatToString(r)))
  {
    SplitLettersDigits(ColumnLetter(c), NatToString(r));
  }

  /** A column name directly followed by a row number splits into the two. */
  lemma {:induction false} SplitLettersDigits(l: string, d: string)
    requires IsLetters(l) && IsDigits(d)
    ensures SplitA1(l + d) == Some((l, d))
  {
    var s := l + d;
    assert !IsUpper(d[0]);
    LetterRunOf(l, d);
    assert s[|l|..] == d;
    DigitRunWhole(d);
    assert s[..|l|] == l;
    assert s[|l|..|l| + |d|] == d;
  }

  lemma {:induction false} LetterRunOf(l: string, d: string)
    requires forall i :: 0 <= i < |l| ==> IsUpper(l[i])
    requires d != [] && !IsUpper(d[0])
    ensures LetterRun(l + d) == |l|
  {
    if l != [] {
      assert (l + d)[1..] == l[1..] + d;
      LetterRunOf(l[1..], d);
    }
  }

  lemma {:induction false} DigitRunWhole(d: string)
    requires forall i :: 0 <= i < |d| ==> IsDigit(d[i])
    ensures DigitRun(d) == |d|
  {
    if d != [] {
      DigitRunWhole(d[1..]);
    }
  }
}
