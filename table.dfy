/**
 * The in-memory table every component works on: a row count and an ordered
 * sequence of named, typed columns of equal length.  A cell is missing
 * (pandas' NaN), a number or a piece of text.
 */
module DataTable {

  datatype Cell = Null | Num(x: real) | Str(s: string)

  /** The three pandas dtypes the pipeline distinguishes. */
  datatype DType = Int64 | Float64 | Object

  datatype Column = Column(name: string, dtype: DType, cells: seq<Cell>)

  /** `rows` is kept apart from the columns so a frame with no columns still has a length. */
  datatype Table = Table(rows: nat, cols: seq<Column>)

  predicate IsNumeric(d: DType) {
    d == Int64 || d == Float64
  }

  /** Numeric columns hold numbers, object columns hold text; either may hold nulls. */
  predicate CellFits(d: DType, c: Cell) {
    match c
    case Null => true
    case Num(_) => IsNumeric(d)
    case Str(_) => d == Object
  }

  predicate ColumnOk(col: Column, rows: nat) {
    |col.cells| == rows && forall i :: 0 <= i < rows ==> CellFits(col.dtype, col.cells[i])
  }

  predicate Valid(t: Table) {
    && (forall c :: 0 <= c < |t.cols| ==> ColumnOk(t.cols[c], t.rows))
    && (forall c, d :: 0 <= c < d < |t.cols| ==> t.cols[c].name != t.cols[d].name)
  }

  /** pandas' `DataFrame.empty`: no rows or no columns. */
  predicate IsEmpty(t: Table) {
    t.rows == 0 || |t.cols| == 0
  }

  // ---------------------------------------------------------------------
  // Missing cells

  function NullCount(cells: seq<Cell>): (k: nat)
    ensures k <= |cells|
    ensures k == 0 <==> Null !in cells
  {
    if cells == [] then 0
    else NullCount(cells[..|cells| - 1]) + (if cells[|cells| - 1] == Null then 1 else 0)
  }

  /** `data.isnull().sum().sum()`: nulls over all columns. */
  function TotalNulls(cols: seq<Column>): nat {
    if cols == [] then 0 else TotalNulls(cols[..|cols| - 1]) + NullCount(cols[|cols| - 1].cells)
  }

  lemma {:induction false} TotalNullsZero(cols: seq<Column>)
    ensures TotalNulls(cols) == 0 <==> forall c :: 0 <= c < |cols| ==> Null !in cols[c].cells
  {
    if cols != [] {
      var init := cols[..|cols| - 1];
      TotalNullsZero(init);
      assert forall c :: 0 <= c < |init| ==> init[c] == cols[c];
    }
  }

  /** `count / rows * 100`, with an empty table giving 0. */
  function Percentage(count: nat, rows: nat): real {
    if rows == 0 then 0.0 else (count as real / rows as real) * 100.0
  }

  /** A count of at most `rows` that is not zero is a percentage in (0, 100]. */
  lemma PercentageRange(count: nat, rows: nat)
    requires 0 < count <= rows
    ensures 0.0 < Percentage(count, rows) <= 100.0
  {
    var q := count as real / rows as real;
    assert q <= 1.0;
  }

  // ---------------------------------------------------------------------
  // Duplicate rows (pandas `duplicated()` with keep='first': null equals null)

  predicate RowsEqual(t: Table, i: nat, j: nat)
    requires Valid(t) && i < t.rows && j < t.rows
  {
    forall c :: 0 <= c < |t.cols| ==> t.cols[c].cells[i] == t.cols[c].cells[j]
  }

  /**
   * Row `i` repeats an earlier row.  On a frame without columns pandas'
   * `duplicated()` returns an empty series, so no row is a duplicate there.
   */
  predicate IsDuplicateRow(t: Table, i: nat)
    requires Valid(t) && i < t.rows
  {
    |t.cols| > 0 && exists j :: 0 <= j < i && RowsEqual(t, j, i)
  }

  /** The duplicate rows among the first `n`, ascending. */
  function DuplicatesBelow(t: Table, n: nat): (r: seq<nat>)
    requires Valid(t) && n <= t.rows
    ensures forall k :: 0 <= k < |r| ==> r[k] < n
  {
    if n == 0 then []
    else DuplicatesBelow(t, n - 1) + (if IsDuplicateRow(t, n - 1) then [n - 1] else [])
  }

  /** The first occurrences among the first `n` rows, ascending. */
  function KeptBelow(t: Table, n: nat): (r: seq<nat>)
    requires Valid(t) && n <= t.rows
    ensures forall k :: 0 <= k < |r| ==> r[k] < n
  {
    if n == 0 then []
    else KeptBelow(t, n - 1) + (if IsDuplicateRow(t, n - 1) then [] else [n - 1])
  }

  function DuplicateIndices(t: Table): seq<nat>
    requires Valid(t)
  {
    DuplicatesBelow(t, t.rows)
  }

  function DuplicateCount(t: Table): nat
    requires Valid(t)
  {
    |DuplicateIndices(t)|
  }

  predicate StrictlyIncreasing(s: seq<nat>) {
    forall a, b :: 0 <= a < b < |s| ==> s[a] < s[b]
  }

  lemma {:induction false} DuplicatesBelowExact(t: Table, n: nat)
    requires Valid(t) && n <= t.rows
    ensures StrictlyIncreasing(DuplicatesBelow(t, n))
    ensures forall i :: 0 <= i < n ==> (i in DuplicatesBelow(t, n) <==> IsDuplicateRow(t, i))
  {
    if n > 0 {
      DuplicatesBelowExact(t, n - 1);
    }
  }

  lemma {:induction false} KeptBelowExact(t: Table, n: nat)
    requires Valid(t) && n <= t.rows
    ensures StrictlyIncreasing(KeptBelow(t, n))
    ensures forall i :: 0 <= i < n ==> (i in KeptBelow(t, n) <==> !IsDuplicateRow(t, i))
  {
    if n > 0 {
      KeptBelowExact(t, n - 1);
    }
  }

  /** Every row is either kept or a duplicate. */
  lemma {:induction false} KeptPlusDuplicates(t: Table, n: nat)
    requires Valid(t) && n <= t.rows
    ensures |KeptBelow(t, n)| + |DuplicatesBelow(t, n)| == n
  {
    if n > 0 {
      KeptPlusDuplicates(t, n - 1);
    }
  }

  /** The table made of the rows `idx`, in that order. */
  function SelectRows(t: Table, idx: seq<nat>): (r: Table)
    requires Valid(t)
    requires forall k :: 0 <= k < |idx| ==> idx[k] < t.rows
  {
    Table(|idx|, seq(|t.cols|, c requires 0 <= c < |t.cols| =>
      Column(t.cols[c].name, t.cols[c].dtype,
             seq(|idx|, k requires 0 <= k < |idx| => t.cols[c].cells[idx[k]]))))
  }

  lemma SelectRowsValid(t: Table, idx: seq<nat>)
    requires Valid(t)
    requires forall k :: 0 <= k < |idx| ==> idx[k] < t.rows
    ensures Valid(SelectRows(t, idx))
  {
    var r := SelectRows(t, idx);
    forall c | 0 <= c < |r.cols| ensures ColumnOk(r.cols[c], r.rows) {
      assert ColumnOk(t.cols[c], t.rows);
    }
  }

  lemma SelectRowsEqual(t: Table, idx: seq<nat>, i: nat, j: nat)
    requires Valid(t)
    requires forall k :: 0 <= k < |idx| ==> idx[k] < t.rows
    requires i < |idx| && j < |idx|
    ensures Valid(SelectRows(t, idx))
    ensures RowsEqual(SelectRows(t, idx), i, j) <==> RowsEqual(t, idx[i], idx[j])
  {
    SelectRowsValid(t, idx);
    var r := SelectRows(t, idx);
    forall c | 0 <= c < |t.cols|
      ensures r.cols[c].cells[i] == t.cols[c].cells[idx[i]] && r.cols[c].cells[j] == t.cols[c].cells[idx[j]]
    {
    }
  }

  /** pandas' `drop_duplicates()`: keep the first occurrence of every row, in order. */
  function DropDuplicates(t: Table): (r: Table)
    requires Valid(t)
    ensures Valid(r)
    ensures r.rows <= t.rows
    ensures |r.cols| == |t.cols|
    ensures forall c :: 0 <= c < |t.cols| ==> r.cols[c].name == t.cols[c].name && r.cols[c].dtype == t.cols[c].dtype
  {
    KeptPlusDuplicates(t, t.rows);
    SelectRowsValid(t, KeptBelow(t, t.rows));
    SelectRows(t, KeptBelow(t, t.rows))
  }

  /** Row `i` of `t` and row `k` of `u` hold the same cells, column by column. */
  predicate SameRow(t: Table, i: nat, u: Table, k: nat)
    requires Valid(t) && Valid(u) && i < t.rows && k < u.rows
  {
    |t.cols| == |u.cols| && forall c :: 0 <= c < |t.cols| ==> t.cols[c].cells[i] == u.cols[c].cells[k]
  }

  /** Some row of `u` holds the same cells as row `i` of `t`. */
  predicate RowPresent(t: Table, i: nat, u: Table)
    requires Valid(t) && Valid(u) && i < t.rows
  {
    exists k :: 0 <= k < u.rows && SameRow(t, i, u, k)
  }

  /** The earliest row in `j..i` that equals row `i`. */
  function FirstEqual(t: Table, i: nat, j: nat): (f: nat)
    requires Valid(t) && j <= i < t.rows
    ensures j <= f <= i && RowsEqual(t, f, i)
    ensures forall k :: j <= k < f ==> !RowsEqual(t, k, i)
    decreases i - j
  {
    if RowsEqual(t, j, i) then j else FirstEqual(t, i, j + 1)
  }

  /** The earliest row equal to a given row is never itself a duplicate. */
  lemma FirstOccurrenceKept(t: Table, i: nat)
    requires Valid(t) && i < t.rows
    ensures !IsDuplicateRow(t, FirstEqual(t, i, 0))
  {
    var f := FirstEqual(t, i, 0);
    forall j | 0 <= j < f ensures !RowsEqual(t, j, f) {
      assert !RowsEqual(t, j, i);
      var c :| 0 <= c < |t.cols| && t.cols[c].cells[j] != t.cols[c].cells[i];
      assert t.cols[c].cells[f] == t.cols[c].cells[i];
    }
  }

  /**
   * drop_duplicates: the rows left are pairwise different, every original row
   * survives as one of them, and exactly the duplicate rows are gone.
   */
  lemma DropDuplicatesCorrect(t: Table)
    requires Valid(t)
    ensures var r := DropDuplicates(t);
      && t.rows - r.rows == DuplicateCount(t)
      && (|t.cols| > 0 ==> forall i, j :: 0 <= i < j < r.rows ==> !RowsEqual(r, i, j))
      && (forall i :: 0 <= i < t.rows ==> RowPresent(t, i, r))
  {
    var kept := KeptBelow(t, t.rows);
    var r := DropDuplicates(t);
    KeptBelowExact(t, t.rows);
    KeptPlusDuplicates(t, t.rows);
    assert r == SelectRows(t, kept);
    forall i, j | 0 <= i < j < r.rows && |t.cols| > 0 ensures !RowsEqual(r, i, j) {
      assert kept[i] < kept[j] && kept[j] in kept;
      SelectRowsEqual(t, kept, i, j);
      assert RowsEqual(t, kept[i], kept[j]) ==> IsDuplicateRow(t, kept[j]);
    }
    forall i | 0 <= i < t.rows ensures RowPresent(t, i, r) {
      var f := FirstEqual(t, i, 0);
      FirstOccurrenceKept(t, i);
      assert f in kept;
      var k :| 0 <= k < |kept| && kept[k] == f;
      assert SameRow(t, i, r, k);
    }
  }
}
