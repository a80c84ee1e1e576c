/**
 * DataProfiler: inspects a table and builds a read-only profile of its
 * missing values, duplicate rows, type-narrowing candidates, IQR outliers
 * and text-column inconsistencies.
 */
module Profiling {
  import opened Wrappers
  import opened DataTable
  import opened Text
  import opened Stats

  // ---------------------------------------------------------------------
  // The profile record

  datatype BasicInfo = BasicInfo(shape: (nat, nat), memoryUsage: nat, columnCount: nat, rowCount: nat)

  datatype MissingEntry = MissingEntry(column: string, count: nat, percentage: real)

  datatype MissingInfo = MissingInfo(totalMissing: nat, columnsWithMissing: nat, byColumn: seq<MissingEntry>)

  datatype DuplicateInfo = DuplicateInfo(count: nat, percentage: real, indices: seq<nat>)

  /** The narrower pandas dtypes a column may be converted to. */
  datatype TypeTag = Int8 | Int16 | Int32 | Category

  datatype TypeEntry = TypeEntry(column: string, currentType: DType, uniqueValues: nat, suggestions: seq<TypeTag>)

  datatype OutlierEntry = OutlierEntry(
    column: string, count: nat, percentage: real,
    lowerBound: real, upperBound: real, indices: seq<nat>)

  /** `whitespaceIssue` stands for the list `['whitespace_found']` (true) or `[]` (false). */
  datatype CategoricalEntry = CategoricalEntry(
    column: string, uniqueValues: nat, caseIssues: seq<string>, whitespaceIssue: bool)

  datatype Profile = Profile(
    basicInfo: BasicInfo,
    missingValues: MissingInfo,
    duplicates: DuplicateInfo,
    dataTypes: seq<TypeEntry>,
    outliers: seq<OutlierEntry>,
    categoricalIssues: seq<CategoricalEntry>)

  /** `_get_basic_info`; the memory footprint is measured outside the model. */
  function GetBasicInfo(t: Table, memoryUsage: nat): (info: BasicInfo)
    ensures info.shape == (info.rowCount, info.columnCount)
    ensures info.columnCount == |t.cols| && info.memoryUsage == memoryUsage
    ensures Valid(t) ==> forall c :: 0 <= c < |t.cols| ==> |t.cols[c].cells| == info.rowCount
  {
    BasicInfo((t.rows, |t.cols|), memoryUsage, |t.cols|, t.rows)
  }

  // ---------------------------------------------------------------------
  // Missing values

  function MissingEntryOf(col: Column, rows: nat): MissingEntry {
    MissingEntry(col.name, NullCount(col.cells), Percentage(NullCount(col.cells), rows))
  }

  /** `by_column`: one entry per column that has a null, in column order. */
  function MissingEntries(cols: seq<Column>, rows: nat): seq<MissingEntry> {
    if cols == [] then []
    else
      var last := cols[|cols| - 1];
      MissingEntries(cols[..|cols| - 1], rows) + (if NullCount(last.cells) > 0 then [MissingEntryOf(last, rows)] else [])
  }

  /** `(missing_count > 0).sum()` */
  function ColumnsWithMissing(cols: seq<Column>): nat {
    if cols == [] then 0
    else ColumnsWithMissing(cols[..|cols| - 1]) + (if NullCount(cols[|cols| - 1].cells) > 0 then 1 else 0)
  }

  function SumCounts(es: seq<MissingEntry>): nat {
    if es == [] then 0 else SumCounts(es[..|es| - 1]) + es[|es| - 1].count
  }

  /** `_analyze_missing_values` (the co-occurrence patterns are not modelled). */
  method AnalyzeMissingValues(t: Table) returns (m: MissingInfo)
    requires Valid(t)
    ensures m.totalMissing == TotalNulls(t.cols)
    ensures m.columnsWithMissing == ColumnsWithMissing(t.cols)
    ensures m.byColumn == MissingEntries(t.cols, t.rows)
  {
    var total := 0;
    var withMissing := 0;
    var byColumn := [];
    for c := 0 to |t.cols|
      invariant total == TotalNulls(t.cols[..c])
      invariant withMissing == ColumnsWithMissing(t.cols[..c])
      invariant byColumn == MissingEntries(t.cols[..c], t.rows)
    {
      assert t.cols[..c + 1][..c] == t.cols[..c];
      var count := NullCount(t.cols[c].cells);
      total := total + count;
      if count > 0 {
        withMissing := withMissing + 1;
        byColumn := byColumn + [MissingEntry(t.cols[c].name, count, Percentage(count, t.rows))];
      }
    }
    assert t.cols[..|t.cols|] == t.cols;
    m := MissingInfo(total, withMissing, byColumn);
  }

  /** `total_missing` is the sum of the `by_column` counts, and `columns_with_missing` its size. */
  lemma {:induction false} MissingTotalsAgree(cols: seq<Column>, rows: nat)
    ensures SumCounts(MissingEntries(cols, rows)) == TotalNulls(cols)
    ensures |MissingEntries(cols, rows)| == ColumnsWithMissing(cols)
  {
    if cols != [] {
      var init := cols[..|cols| - 1];
      var last := cols[|cols| - 1];
      MissingTotalsAgree(init, rows);
      var es := MissingEntries(cols, rows);
      if NullCount(last.cells) > 0 {
        assert es[..|es| - 1] == MissingEntries(init, rows);
      } else {
        assert es == MissingEntries(init, rows);
      }
    }
  }

  /** `e` is the missing-value entry of one of `cols`, for a column that has nulls. */
  predicate EntryOfSomeColumn(e: MissingEntry, cols: seq<Column>, rows: nat) {
    e.count > 0 && exists c :: 0 <= c < |cols| && e == MissingEntryOf(cols[c], rows)
  }

  /** Every `by_column` entry belongs to a column with nulls and reports its count and `count / rows * 100`. */
  lemma {:induction false} MissingEntriesSound(cols: seq<Column>, rows: nat)
    ensures forall e :: e in MissingEntries(cols, rows) ==> EntryOfSomeColumn(e, cols, rows)
  {
    if cols != [] {
      var init := cols[..|cols| - 1];
      MissingEntriesSound(init, rows);
      forall e | e in MissingEntries(cols, rows) ensures EntryOfSomeColumn(e, cols, rows) {
        if e in MissingEntries(init, rows) {
          assert EntryOfSomeColumn(e, init, rows);
          var c :| 0 <= c < |init| && e == MissingEntryOf(init[c], rows);
          assert init[c] == cols[c];
        } else {
          assert e == MissingEntryOf(cols[|cols| - 1], rows);
        }
      }
    }
  }

  /** Every column with at least one null has its entry in `by_column`. */
  lemma {:induction false} MissingEntriesComplete(cols: seq<Column>, rows: nat)
    ensures var es := MissingEntries(cols, rows);
      forall c :: 0 <= c < |cols| && NullCount(cols[c].cells) > 0 ==> MissingEntryOf(cols[c], rows) in es
  {
    if cols != [] {
      var init := cols[..|cols| - 1];
      MissingEntriesComplete(init, rows);
      assert forall c :: 0 <= c < |init| ==> init[c] == cols[c];
    }
  }

  /** A missing percentage is positive and at most 100. */
  lemma MissingPercentageRange(col: Column, rows: nat)
    requires |col.cells| == rows && NullCount(col.cells) > 0
    ensures 0.0 < MissingEntryOf(col, rows).percentage <= 100.0
  {
    PercentageRange(NullCount(col.cells), rows);
  }

  // ---------------------------------------------------------------------
  // Duplicate rows

  /**
   * The exception the profiler can raise: on a frame with rows but no
   * columns `duplicated()` is an empty series, and indexing the frame with
   * it (`data[data.duplicated()]`) raises pandas' `IndexingError`.
   */
  datatype ProfileError = UnalignableIndexer

  /** `_analyze_duplicates` */
  function AnalyzeDuplicates(t: Table): (d: Result<DuplicateInfo, ProfileError>)
    requires Valid(t)
    ensures d.Err? <==> t.rows > 0 && |t.cols| == 0
    ensures d.Ok? ==> d.value.count == |d.value.indices|
    ensures d.Ok? ==> StrictlyIncreasing(d.value.indices)
    ensures d.Ok? ==> forall k :: 0 <= k < |d.value.indices| ==> d.value.indices[k] < t.rows
    ensures d.Ok? ==> forall i :: 0 <= i < t.rows ==> (i in d.value.indices <==> IsDuplicateRow(t, i))
    ensures d.Ok? ==> d.value.percentage == Percentage(d.value.count, t.rows)
  {
    if t.rows > 0 && |t.cols| == 0 then Err(UnalignableIndexer)
    else
      DuplicatesBelowExact(t, t.rows);
      Ok(DuplicateInfo(DuplicateCount(t), Percentage(DuplicateCount(t), t.rows), DuplicateIndices(t)))
  }

  // ---------------------------------------------------------------------
  // Values of a column

  /** The non-null numbers of a column, in row order. */
  function NumValues(cells: seq<Cell>): (vs: seq<real>)
    ensures |vs| <= |cells|
    ensures forall v :: v in vs <==> Num(v) in cells
  {
    if cells == [] then []
    else
      var init := cells[..|cells| - 1];
      assert cells == init + [cells[|cells| - 1]];
      NumValues(init) + (match cells[|cells| - 1] case Num(x) => [x] case _ => [])
  }

  /** `dropna().astype(str)` of a text column: its non-null strings, in row order. */
  function TextValues(cells: seq<Cell>): (vs: seq<string>)
    ensures forall v :: v in vs <==> Str(v) in cells
  {
    if cells == [] then []
    else
      var init := cells[..|cells| - 1];
      assert cells == init + [cells[|cells| - 1]];
      TextValues(init) + (match cells[|cells| - 1] case Str(v) => [v] case _ => [])
  }

  /** `nunique()`: the number of distinct non-null values. */
  function UniqueCount(cells: seq<Cell>): (k: nat)
    ensures k > 0 <==> exists i :: 0 <= i < |cells| && cells[i] != Null
  {
    var vals := set c | c in cells && c != Null;
    if exists i :: 0 <= i < |cells| && cells[i] != Null then
      var i :| 0 <= i < |cells| && cells[i] != Null;
      assert cells[i] in vals;
      |vals|
    else
      assert vals == {};
      |vals|
  }

  function MinOf(vs: seq<real>): (m: real)
    requires |vs| > 0
    ensures m in vs && forall v :: v in vs ==> m <= v
  {
    if |vs| == 1 then vs[0]
    else
      var r := MinOf(vs[1..]);
      assert forall v :: v in vs ==> v == vs[0] || v in vs[1..];
      if vs[0] <= r then vs[0] else r
  }

  function MaxOf(vs: seq<real>): (m: real)
    requires |vs| > 0
    ensures m in vs && forall v :: v in vs ==> v <= m
  {
    if |vs| == 1 then vs[0]
    else
      var r := MaxOf(vs[1..]);
      assert forall v :: v in vs ==> v == vs[0] || v in vs[1..];
      if vs[0] >= r then vs[0] else r
  }

  // ---------------------------------------------------------------------
  // Data types

  predicate IsIntegral(x: real) {
    x.Floor as real == x
  }

  /** `apply(float.is_integer).all()`: a null (NaN) is not integral. */
  predicate AllIntegral(cells: seq<Cell>) {
    forall i :: 0 <= i < |cells| ==> cells[i].Num? && IsIntegral(cells[i].x)
  }

  predicate AllWithin(vs: seq<real>, lo: real, hi: real) {
    forall v :: v in vs ==> lo <= v <= hi
  }

  /** The int64 narrowing: min and max of the non-null values (NaN when there are none). */
  function NarrowIntTags(vs: seq<real>): seq<TypeTag> {
    if |vs| == 0 then []
    else
      var lo, hi := MinOf(vs), MaxOf(vs);
      if -128.0 <= lo && hi <= 127.0 then [Int8]
      else if -32768.0 <= lo && hi <= 32767.0 then [Int16]
      else []
  }

  function TypeSuggestions(col: Column, rows: nat): seq<TypeTag> {
    (if col.dtype == Int64 then NarrowIntTags(NumValues(col.cells))
     else if col.dtype == Float64 && AllIntegral(col.cells) then [Int32]
     else [])
    + (if col.dtype == Object && (UniqueCount(col.cells) as real) < (rows as real) * 0.5 then [Category] else [])
  }

  function TypeEntryOf(col: Column, rows: nat): TypeEntry {
    TypeEntry(col.name, col.dtype, UniqueCount(col.cells), TypeSuggestions(col, rows))
  }

  /**
   * Each narrowing tag is given exactly when its condition holds: int8 when
   * every value of an int64 column fits a byte, else int16 when every value
   * fits 16 bits, int32 for a float64 column of integral values only, and
   * category for a text column with fewer distinct values than half its rows.
   */
  lemma TypeSuggestionsExact(col: Column, rows: nat)
    ensures var tags := TypeSuggestions(col, rows);
      var vs := NumValues(col.cells);
      && (Int8 in tags <==> col.dtype == Int64 && |vs| > 0 && AllWithin(vs, -128.0, 127.0))
      && (Int16 in tags <==> col.dtype == Int64 && |vs| > 0 && AllWithin(vs, -32768.0, 32767.0)
                             && !AllWithin(vs, -128.0, 127.0))
      && (Int32 in tags <==> col.dtype == Float64 && AllIntegral(col.cells))
      && (Category in tags <==> col.dtype == Object && (UniqueCount(col.cells) as real) < (rows as real) * 0.5)
      && !(Int8 in tags && Int16 in tags)
  {
    var vs := NumValues(col.cells);
    if |vs| > 0 {
      var lo, hi := MinOf(vs), MaxOf(vs);
      assert AllWithin(vs, -128.0, 127.0) <==> -128.0 <= lo && hi <= 127.0;
      assert AllWithin(vs, -32768.0, 32767.0) <==> -32768.0 <= lo && hi <= 32767.0;
    }
  }

  /** `_analyze_data_types` */
  method AnalyzeDataTypes(t: Table) returns (entries: seq<TypeEntry>)
    requires Valid(t)
    ensures |entries| == |t.cols|
    ensures forall c :: 0 <= c < |t.cols| ==> entries[c] == TypeEntryOf(t.cols[c], t.rows)
  {
    entries := [];
    for c := 0 to |t.cols|
      invariant |entries| == c
      invariant forall d :: 0 <= d < c ==> entries[d] == TypeEntryOf(t.cols[d], t.rows)
    {
      var e := AnalyzeColumnType(t.cols[c], t.rows);
      ghost var prev := entries;
      entries := entries + [e];
      assert forall d :: 0 <= d < c ==> entries[d] == prev[d];
    }
  }

  /** The body of the `_analyze_data_types` loop for one column. */
  method AnalyzeColumnType(col: Column, rows: nat) returns (e: TypeEntry)
    ensures e == TypeEntryOf(col, rows)
  {
    var suggestions := [];
    if col.dtype == Int64 {
      suggestions := NarrowIntTags(NumValues(col.cells));
    } else if col.dtype == Float64 && AllIntegral(col.cells) {
      suggestions := [Int32];
    }
    var unique := UniqueCount(col.cells);
    if col.dtype == Object && (unique as real) < (rows as real) * 0.5 {
      suggestions := suggestions + [Category];
    }
    e := TypeEntry(col.name, col.dtype, unique, suggestions);
  }

  // ---------------------------------------------------------------------
  // Outliers

  /** The quartiles of a column and the fences 1.5 IQR beyond them. */
  datatype Fences = Fences(q1: real, q3: real, lower: real, upper: real)

  function IqrFences(vs: seq<real>): (f: Fences)
    requires |vs| > 0
    ensures f.lower <= f.q1 <= f.q3 <= f.upper
  {
    var s := Sort(vs);
    var q1, q3 := Quantile(s, 1), Quantile(s, 3);
    QuantileMonotone(s, 1, 3);
    var iqr := q3 - q1;
    Fences(q1, q3, q1 - 1.5 * iqr, q3 + 1.5 * iqr)
  }

  /** `(x < lower) | (x > upper)`: a null compares false both ways. */
  predicate IsOutlier(c: Cell, f: Fences) {
    c.Num? && (c.x < f.lower || c.x > f.upper)
  }

  /** The outlier rows among the first `n`, ascending. */
  function OutlierRows(cells: seq<Cell>, f: Fences, n: nat): (r: seq<nat>)
    requires n <= |cells|
    ensures |r| <= n
    ensures forall k :: 0 <= k < |r| ==> r[k] < n
  {
    if n == 0 then []
    else OutlierRows(cells, f, n - 1) + (if IsOutlier(cells[n - 1], f) then [n - 1] else [])
  }

  lemma {:induction false} OutlierRowsExact(cells: seq<Cell>, f: Fences, n: nat)
    requires n <= |cells|
    ensures StrictlyIncreasing(OutlierRows(cells, f, n))
    ensures forall i :: 0 <= i < n ==> (i in OutlierRows(cells, f, n) <==> IsOutlier(cells[i], f))
  {
    if n > 0 {
      OutlierRowsExact(cells, f, n - 1);
    }
  }

  function OutlierEntryOf(col: Column, rows: nat): Option<OutlierEntry>
    requires |col.cells| == rows
  {
    if !IsNumeric(col.dtype) then None
    else
      var vs := NumValues(col.cells);
      if |vs| == 0 then None
      else
        var f := IqrFences(vs);
        var idx := OutlierRows(col.cells, f, rows);
        if |idx| == 0 then None
        else Some(OutlierEntry(col.name, |idx|, Percentage(|idx|, rows), f.lower, f.upper, idx))
  }

  /**
   * A column is reported exactly when it is numeric, has at least one value,
   * and some cell lies strictly outside its fences.
   */
  lemma OutlierEntryWhen(col: Column, rows: nat)
    requires |col.cells| == rows
    ensures var vs := NumValues(col.cells);
      OutlierEntryOf(col, rows).Some? <==>
        IsNumeric(col.dtype) && |vs| > 0 && exists i :: 0 <= i < rows && IsOutlier(col.cells[i], IqrFences(vs))
  {
    var vs := NumValues(col.cells);
    if IsNumeric(col.dtype) && |vs| > 0 {
      var f := IqrFences(vs);
      OutlierRowsNonEmpty(col.cells, f, rows);
      assert OutlierEntryOf(col, rows).Some? <==> |OutlierRows(col.cells, f, rows)| > 0;
    }
  }

  /** Some row among the first `n` is listed exactly when some such row is an outlier. */
  lemma {:induction false} OutlierRowsNonEmpty(cells: seq<Cell>, f: Fences, n: nat)
    requires n <= |cells|
    ensures |OutlierRows(cells, f, n)| > 0 <==> exists i :: 0 <= i < n && IsOutlier(cells[i], f)
  {
    if n > 0 {
      OutlierRowsNonEmpty(cells, f, n - 1);
      if !IsOutlier(cells[n - 1], f) {
        assert OutlierRows(cells, f, n) == OutlierRows(cells, f, n - 1);
      }
    }
  }

  /**
   * A reported column lists its outlier rows in order and counts them, its
   * percentage is count / rows * 100, and its bounds enclose both quartiles.
   */
  lemma OutlierEntryContents(col: Column, rows: nat)
    requires |col.cells| == rows && OutlierEntryOf(col, rows).Some?
    ensures var e := OutlierEntryOf(col, rows).value;
      var f := IqrFences(NumValues(col.cells));
      && e.column == col.name
      && e.count == |e.indices| > 0
      && StrictlyIncreasing(e.indices)
      && (forall i :: 0 <= i < rows ==> (i in e.indices <==> IsOutlier(col.cells[i], f)))
      && e.lowerBound <= f.q1 <= f.q3 <= e.upperBound
      && e.percentage == Percentage(e.count, rows)
      && 0.0 < e.percentage <= 100.0
  {
    var f := IqrFences(NumValues(col.cells));
    var idx := OutlierRows(col.cells, f, rows);
    OutlierRowsExact(col.cells, f, rows);
    PercentageRange(|idx|, rows);
  }

  /** The outlier report: one entry per reported column, in column order. */
  function OutlierEntries(cols: seq<Column>, rows: nat): seq<OutlierEntry>
    requires forall c :: 0 <= c < |cols| ==> |cols[c].cells| == rows
  {
    if cols == [] then []
    else
      var last := cols[|cols| - 1];
      OutlierEntries(cols[..|cols| - 1], rows)
      + (match OutlierEntryOf(last, rows) case Some(e) => [e] case None => [])
  }

  lemma OutlierEntriesStep(cols: seq<Column>, c: nat, rows: nat)
    requires c < |cols|
    requires forall d :: 0 <= d < |cols| ==> |cols[d].cells| == rows
    ensures OutlierEntries(cols[..c + 1], rows)
      == OutlierEntries(cols[..c], rows) + (match OutlierEntryOf(cols[c], rows) case Some(e) => [e] case None => [])
  {
    var p := cols[..c + 1];
    assert p[..|p| - 1] == cols[..c];
    assert p[|p| - 1] == cols[c];
  }

  /** `_detect_outliers` */
  method DetectOutliers(t: Table) returns (outliers: seq<OutlierEntry>)
    requires Valid(t)
    ensures outliers == OutlierEntries(t.cols, t.rows)
  {
    outliers := [];
    for c := 0 to |t.cols|
      invariant outliers == OutlierEntries(t.cols[..c], t.rows)
    {
      OutlierEntriesStep(t.cols, c, t.rows);
      var col := t.cols[c];
      if IsNumeric(col.dtype) {
        var vs := NumValues(col.cells);
        if |vs| > 0 {
          var f := IqrFences(vs);
          var idx := OutlierRows(col.cells, f, t.rows);
          if |idx| > 0 {
            outliers := outliers + [OutlierEntry(col.name, |idx|, Percentage(|idx|, t.rows), f.lower, f.upper, idx)];
          }
        }
      }
    }
    assert t.cols[..|t.cols|] == t.cols;
  }

  // ---------------------------------------------------------------------
  // Categorical issues

  /** Some other spelling of `v` in `vs` has the same lowercase form. */
  predicate HasCaseVariant(vs: seq<string>, v: string) {
    exists w :: w in vs && w != v && Lower(w) == Lower(v)
  }

  /** The flagged spellings among the first `n` values, each once, by first appearance. */
  function CaseIssuesBelow(vs: seq<string>, n: nat): seq<string>
    requires n <= |vs|
  {
    if n == 0 then []
    else
      var prev := CaseIssuesBelow(vs, n - 1);
      prev + (if vs[n - 1] !in prev && HasCaseVariant(vs, vs[n - 1]) then [vs[n - 1]] else [])
  }

  predicate NoDuplicates(s: seq<string>) {
    forall a, b :: 0 <= a < b < |s| ==> s[a] != s[b]
  }

  /** `case_issues` lists, once each, exactly the values that share their lowercase form with another spelling. */
  lemma {:induction false} CaseIssuesExact(vs: seq<string>, n: nat)
    requires n <= |vs|
    ensures NoDuplicates(CaseIssuesBelow(vs, n))
    ensures forall v :: v in CaseIssuesBelow(vs, n) <==> v in vs[..n] && HasCaseVariant(vs, v)
  {
    if n > 0 {
      CaseIssuesExact(vs, n - 1);
      assert vs[..n] == vs[..n - 1] + [vs[n - 1]];
    }
  }

  /** Some text starts or ends with the space character (`str.startswith(' ')`, `str.endswith(' ')`). */
  predicate HasEdgeSpace(cells: seq<Cell>) {
    exists i :: 0 <= i < |cells| && cells[i].Str? && |cells[i].s| > 0 &&
      (cells[i].s[0] == ' ' || cells[i].s[|cells[i].s| - 1] == ' ')
  }

  function CategoricalEntryOf(col: Column): CategoricalEntry {
    var vs := TextValues(col.cells);
    CategoricalEntry(col.name, UniqueCount(col.cells), CaseIssuesBelow(vs, |vs|), HasEdgeSpace(col.cells))
  }

  /** `any(col_issues.values())`: the integer `unique_values` counts as a flag too. */
  predicate AnyIssue(e: CategoricalEntry) {
    e.uniqueValues > 0 || e.caseIssues != [] || e.whitespaceIssue
  }

  /**
   * Because `unique_values` is truthy, a text column enters the issues map
   * exactly when it has a non-null value, whether or not anything is wrong with it.
   */
  lemma CategoricalInclusion(col: Column)
    ensures AnyIssue(CategoricalEntryOf(col)) <==> exists i :: 0 <= i < |col.cells| && col.cells[i] != Null
  {
    var e := CategoricalEntryOf(col);
    var vs := TextValues(col.cells);
    CaseIssuesExact(vs, |vs|);
    assert vs[..|vs|] == vs;
    if e.caseIssues != [] {
      assert e.caseIssues[0] in vs;
      assert Str(e.caseIssues[0]) in col.cells;
    }
  }

  /** The issues map: the text columns with an issue flag, in column order. */
  function CategoricalIssues(cols: seq<Column>): seq<CategoricalEntry> {
    if cols == [] then []
    else
      var last := cols[|cols| - 1];
      CategoricalIssues(cols[..|cols| - 1])
      + (if last.dtype == Object && AnyIssue(CategoricalEntryOf(last)) then [CategoricalEntryOf(last)] else [])
  }

  /** The case-inconsistency scan of one text column. */
  method FindCaseIssues(vs: seq<string>) returns (caseIssues: seq<string>)
    ensures caseIssues == CaseIssuesBelow(vs, |vs|)
  {
    caseIssues := [];
    for i := 0 to |vs|
      invariant caseIssues == CaseIssuesBelow(vs, i)
    {
      if vs[i] !in caseIssues && HasCaseVariant(vs, vs[i]) {
        caseIssues := caseIssues + [vs[i]];
      }
    }
  }

  lemma CategoricalIssuesStep(cols: seq<Column>, c: nat)
    requires c < |cols|
    ensures var col := cols[c];
      CategoricalIssues(cols[..c + 1]) == CategoricalIssues(cols[..c])
        + (if col.dtype == Object && AnyIssue(CategoricalEntryOf(col)) then [CategoricalEntryOf(col)] else [])
  {
    var p := cols[..c + 1];
    assert p[..|p| - 1] == cols[..c];
    assert p[|p| - 1] == cols[c];
  }

  /** `_detect_categorical_issues` */
  method DetectCategoricalIssues(t: Table) returns (issues: seq<CategoricalEntry>)
    requires Valid(t)
    ensures issues == CategoricalIssues(t.cols)
  {
    issues := [];
    for c := 0 to |t.cols|
      invariant issues == CategoricalIssues(t.cols[..c])
    {
      CategoricalIssuesStep(t.cols, c);
      var col := t.cols[c];
      if col.dtype == Object {
        var caseIssues := FindCaseIssues(TextValues(col.cells));
        var entry := CategoricalEntry(col.name, UniqueCount(col.cells), caseIssues, HasEdgeSpace(col.cells));
        if AnyIssue(entry) {
          issues := issues + [entry];
        }
      }
    }
    assert t.cols[..|t.cols|] == t.cols;
  }

  // ---------------------------------------------------------------------
  // The whole profile

  /**
   * `generate_profile` (missing-value co-occurrence and correlations are not
   * modelled); it raises exactly when the duplicate analysis does.
   */
  method GenerateProfile(t: Table, memoryUsage: nat) returns (r: Result<Profile, ProfileError>)
    requires Valid(t)
    ensures r.Err? <==> t.rows > 0 && |t.cols| == 0
    ensures r.Ok? ==> var p := r.value;
      && p.basicInfo == GetBasicInfo(t, memoryUsage)
      && p.missingValues == MissingInfo(TotalNulls(t.cols), ColumnsWithMissing(t.cols), MissingEntries(t.cols, t.rows))
      && AnalyzeDuplicates(t) == Ok(p.duplicates)
      && |p.dataTypes| == |t.cols| && (forall c :: 0 <= c < |t.cols| ==> p.dataTypes[c] == TypeEntryOf(t.cols[c], t.rows))
      && p.outliers == OutlierEntries(t.cols, t.rows)
      && p.categoricalIssues == CategoricalIssues(t.cols)
  {
    var missing := AnalyzeMissingValues(t);
    var duplicates := AnalyzeDuplicates(t);
    if duplicates.Err? {
      return Err(duplicates.error);
    }
    var types := AnalyzeDataTypes(t);
    var outliers := DetectOutliers(t);
    var categorical := DetectCategoricalIssues(t);
    r := Ok(Profile(GetBasicInfo(t, memoryUsage), missing, duplicates.value, types, outliers, categorical));
  }
}
