/**
 * DataCleaner: three optional stages run in a fixed order on a copy of the
 * table (median/mode imputation, keep-first de-duplication, whitespace and
 * case normalisation of text columns), each appending to an operation log;
 * plus the module-level case-inconsistency scan.
 */
module Cleaning {
  import opened Wrappers
  import opened DataTable
  import opened Text
  import opened Stats
  import opened Profiling

  datatype Strategy = WithMedian | WithMode

  /** One line of the operation log. */
  datatype Operation =
    | Filled(column: string, count: nat, strategy: Strategy)
    | RemovedDuplicates(count: nat)
    | Standardized(column: string, count: nat, caseType: string)

  /** The log line as the cleaner formats it. */
  function Render(op: Operation): string {
    match op
    case Filled(col, k, how) =>
      "Filled " + NatToString(k) + " missing values in '" + col + "' with "
      + (if how == WithMedian then "median" else "mode")
    case RemovedDuplicates(n) => "Removed " + NatToString(n) + " duplicate rows"
    case Standardized(col, k, caseType) =>
      "Standardized " + NatToString(k) + " values in '" + col + "' (whitespace cleaned + " + caseType + " case)"
  }

  /** The words a log line starts with, up to its count. */
  function Verb(op: Operation): string {
    match op
    case Filled(_, _, _) => "Filled "
    case RemovedDuplicates(_) => "Removed "
    case Standardized(_, _, _) => "Standardized "
  }

  /** `line` is `v`, then `n` in decimal, then a space and the rest of the line. */
  predicate CountAfter(line: string, v: string, n: nat) {
    var d := NatToString(n);
    && |v| + |d| < |line|
    && line[..|v|] == v
    && line[|v|..|v| + |d|] == d && DigitsValue(d) == n
    && line[|v| + |d|] == ' '
  }

  /**
   * Every log line names its kind of operation first, then the count in
   * decimal followed by a space, so the count can be read back from it.
   */
  lemma RenderReadsBack(op: Operation)
    ensures CountAfter(Render(op), Verb(op), op.count)
  {
    var v, d := Verb(op), NatToString(op.count);
    match op {
      case Filled(col, k, how) =>
        var rest := " missing values in '" + col + "' with " + (if how == WithMedian then "median" else "mode");
        assert Render(op) == v + d + rest;
        SplitLine(v, k, rest);
      case RemovedDuplicates(n) =>
        SplitLine(v, n, " duplicate rows");
      case Standardized(col, k, caseType) =>
        var rest := " values in '" + col + "' (whitespace cleaned + " + caseType + " case)";
        assert Render(op) == v + d + rest;
        SplitLine(v, k, rest);
    }
  }

  lemma SplitLine(v: string, n: nat, rest: string)
    requires rest != [] && rest[0] == ' '
    ensures CountAfter(v + NatToString(n) + rest, v, n)
  {
    var d := NatToString(n);
    var line := v + d + rest;
    NatToStringValue(n);
    assert line[|v| + |d|] == rest[0];
  }

  /**
   * `mode()[0]` of a text column with no non-null value is a label lookup on
   * an empty series and raises `KeyError: 0`.
   */
  datatype CleanError = EmptyMode(column: string)

  /** The configuration keys the cleaner reads; `None` is a key that is absent. */
  datatype Config = Config(
    handleMissing: Option<bool>,
    removeDuplicates: Option<bool>,
    standardizeText: Option<bool>,
    textCase: Option<string>)

  /** `config.get(flag, False)` */
  predicate Enabled(flag: Option<bool>) {
    flag == Some(true)
  }

  /** `config.get("text_case", "lower")` */
  function CaseType(cfg: Config): string {
    if cfg.textCase.Some? then cfg.textCase.value else "lower"
  }

  /** Columns rewritten by one stage, with the log lines the stage produced. */
  datatype Stage = Stage(cols: seq<Column>, ops: seq<Operation>)

  /** The table a stage's columns make with `rows` rows. */
  datatype Cleaned = Cleaned(table: Table, ops: seq<Operation>)

  // ---------------------------------------------------------------------
  // Mode

  /** `a` is at least as frequent in `vs` as `b`, and sorts first on a tie. */
  predicate Beats(vs: seq<string>, a: string, b: string) {
    multiset(vs)[a] > multiset(vs)[b] || (multiset(vs)[a] == multiset(vs)[b] && StrLe(a, b))
  }

  lemma BeatsTotal(vs: seq<string>, a: string, b: string)
    ensures Beats(vs, a, b) || Beats(vs, b, a)
  {
    StrLeTotal(a, b);
  }

  lemma BeatsTransitive(vs: seq<string>, a: string, b: string, c: string)
    requires Beats(vs, a, b) && Beats(vs, b, c)
    ensures Beats(vs, a, c)
  {
    if multiset(vs)[a] == multiset(vs)[b] == multiset(vs)[c] {
      StrLeTransitive(a, b, c);
    }
  }

  /** The candidate that beats every other candidate. */
  function ModeAmong(vs: seq<string>, cands: seq<string>): (m: string)
    requires cands != []
    ensures m in cands
    ensures forall c :: c in cands ==> Beats(vs, m, c)
  {
    if |cands| == 1 then
      StrLeTotal(cands[0], cands[0]);
      cands[0]
    else
      var init := cands[..|cands| - 1];
      var best := ModeAmong(vs, init);
      var last := cands[|cands| - 1];
      assert forall c :: c in cands ==> c in init || c == last;
      if Beats(vs, best, last) then best
      else
        BeatsTotal(vs, best, last);
        assert forall c :: c in init ==> Beats(vs, best, c) && (Beats(vs, best, c) ==> Beats(vs, last, c)) by {
          forall c | c in init && Beats(vs, best, c) ensures Beats(vs, last, c) {
            BeatsTransitive(vs, last, best, c);
          }
        }
        StrLeTotal(last, last);
        last
  }

  /**
   * `mode()[0]`: pandas lists the most frequent values in sorted order, so
   * the first is the smallest of the most frequent values.
   */
  function Mode(vs: seq<string>): (m: string)
    requires vs != []
    ensures m in vs
    ensures forall v :: v in vs ==> multiset(vs)[v] <= multiset(vs)[m]
    ensures forall v :: v in vs && multiset(vs)[v] == multiset(vs)[m] ==> StrLe(m, v)
  {
    ModeAmong(vs, vs)
  }

  // ---------------------------------------------------------------------
  // Missing values

  /** `fillna(v)`: every null becomes `v`, everything else stays. */
  function FillNulls(cells: seq<Cell>, v: Cell): (r: seq<Cell>)
    ensures |r| == |cells|
    ensures forall i :: 0 <= i < |cells| ==> r[i] == (if cells[i] == Null then v else cells[i])
  {
    seq(|cells|, i requires 0 <= i < |cells| => if cells[i] == Null then v else cells[i])
  }

  /**
   * The value `fillna` receives: the median of a numeric column (NaN, which
   * fills nothing, when it has no numbers) or the mode of any other column.
   */
  function FillValue(col: Column): Result<Option<Cell>, CleanError> {
    if IsNumeric(col.dtype) then
      var vs := NumValues(col.cells);
      Ok(if vs == [] then None else Some(Num(Median(vs))))
    else
      var ts := TextValues(col.cells);
      if ts == [] then Err(EmptyMode(col.name)) else Ok(Some(Str(Mode(ts))))
  }

  datatype ColumnFix = ColumnFix(col: Column, op: Option<Operation>)

  /** One turn of `_handle_missing`'s loop. */
  function HandleColumn(col: Column): Result<ColumnFix, CleanError> {
    var k := NullCount(col.cells);
    if k == 0 then Ok(ColumnFix(col, None))
    else
      match FillValue(col)
      case Err(e) => Err(e)
      case Ok(v) =>
        var cells := if v.Some? then FillNulls(col.cells, v.value) else col.cells;
        var how := if IsNumeric(col.dtype) then WithMedian else WithMode;
        Ok(ColumnFix(Column(col.name, col.dtype, cells), Some(Filled(col.name, k, how))))
  }

  function OpList(op: Option<Operation>): seq<Operation> {
    if op.Some? then [op.value] else []
  }

  /** `_handle_missing` over the columns in order; the first failing column stops it. */
  function MissingStage(cols: seq<Column>): Result<Stage, CleanError> {
    if cols == [] then Ok(Stage([], []))
    else
      match MissingStage(cols[..|cols| - 1])
      case Err(e) => Err(e)
      case Ok(st) =>
        match HandleColumn(cols[|cols| - 1])
        case Err(e) => Err(e)
        case Ok(fix) => Ok(Stage(st.cols + [fix.col], st.ops + OpList(fix.op)))
  }

  /** Once a prefix of the columns fails, the whole stage fails the same way. */
  lemma {:induction false} MissingStageErrPrefix(cols: seq<Column>, n: nat)
    requires n <= |cols|
    requires MissingStage(cols[..n]).Err?
    ensures MissingStage(cols) == MissingStage(cols[..n])
    decreases |cols| - n
  {
    if n < |cols| {
      assert cols[..n + 1][..n] == cols[..n];
      MissingStageErrPrefix(cols, n + 1);
    } else {
      assert cols[..n] == cols;
    }
  }

  /** The body of `_handle_missing`'s loop for one column. */
  method FillColumn(col: Column) returns (r: Result<ColumnFix, CleanError>)
    ensures r == HandleColumn(col)
  {
    var missing := NullCount(col.cells);
    if missing == 0 {
      return Ok(ColumnFix(col, None));
    }
    if IsNumeric(col.dtype) {
      var vs := NumValues(col.cells);
      var filled := col;
      if vs != [] {
        filled := Column(col.name, col.dtype, FillNulls(col.cells, Num(Median(vs))));
      }
      r := Ok(ColumnFix(filled, Some(Filled(col.name, missing, WithMedian))));
    } else {
      var ts := TextValues(col.cells);
      if ts == [] {
        return Err(EmptyMode(col.name));
      }
      var filled := Column(col.name, col.dtype, FillNulls(col.cells, Str(Mode(ts))));
      r := Ok(ColumnFix(filled, Some(Filled(col.name, missing, WithMode))));
    }
  }

  method HandleMissing(t: Table) returns (r: Result<Stage, CleanError>)
    ensures r == MissingStage(t.cols)
  {
    var cols, ops := [], [];
    for k := 0 to |t.cols|
      invariant MissingStage(t.cols[..k]) == Ok(Stage(cols, ops))
    {
      assert t.cols[..k + 1][..k] == t.cols[..k];
      var fix := FillColumn(t.cols[k]);
      if fix.Err? {
        r := Err(fix.error);
        MissingStageErrPrefix(t.cols, k + 1);
        return;
      }
      cols := cols + [fix.value.col];
      ops := ops + OpList(fix.value.op);
    }
    assert t.cols[..|t.cols|] == t.cols;
    r := Ok(Stage(cols, ops));
  }

  /** A column without nulls is left as it is and logs nothing. */
  lemma ColumnUntouched(col: Column)
    requires NullCount(col.cells) == 0
    ensures HandleColumn(col) == Ok(ColumnFix(col, None))
  {
  }

  /**
   * A numeric column with `k` nulls and some numbers: every null becomes
   * the median, which lies between the two middle values, nothing else
   * changes, and the column is logged as filled with the median.
   */
  lemma MedianFill(col: Column)
    requires IsNumeric(col.dtype) && NullCount(col.cells) > 0 && NumValues(col.cells) != []
    ensures HandleColumn(col).Ok?
    ensures var fix := HandleColumn(col).value;
      var vs := NumValues(col.cells);
      var m := Median(vs);
      var sorted := Sort(vs);
      && sorted[(|vs| - 1) / 2] <= m <= sorted[|vs| / 2]
      && fix.op == Some(Filled(col.name, NullCount(col.cells), WithMedian))
      && fix.col.name == col.name && fix.col.dtype == col.dtype && |fix.col.cells| == |col.cells|
      && forall i :: 0 <= i < |col.cells| ==>
           fix.col.cells[i] == (if col.cells[i] == Null then Num(m) else col.cells[i])
  {
    MedianBetweenMiddles(NumValues(col.cells));
  }

  /** A numeric column with only nulls keeps them (the median is NaN) but is still logged. */
  lemma AllNullNumericLogged(col: Column)
    requires IsNumeric(col.dtype) && NullCount(col.cells) > 0 && NumValues(col.cells) == []
    ensures HandleColumn(col) == Ok(ColumnFix(col, Some(Filled(col.name, NullCount(col.cells), WithMedian))))
  {
  }

  /**
   * A text column with nulls fails exactly when it has no text at all;
   * otherwise every null becomes the smallest most frequent value.
   */
  lemma ModeFill(col: Column)
    requires !IsNumeric(col.dtype) && NullCount(col.cells) > 0
    ensures HandleColumn(col).Err? <==> TextValues(col.cells) == []
    ensures HandleColumn(col).Err? ==> HandleColumn(col).error == EmptyMode(col.name)
    ensures HandleColumn(col).Ok? ==>
      var vs := TextValues(col.cells);
      var fix := HandleColumn(col).value;
      exists m ::
        && m in vs
        && (forall v :: v in vs ==> multiset(vs)[v] <= multiset(vs)[m])
        && (forall v :: v in vs && multiset(vs)[v] == multiset(vs)[m] ==> StrLe(m, v))
        && fix.op == Some(Filled(col.name, NullCount(col.cells), WithMode))
        && fix.col.cells == FillNulls(col.cells, Str(m))
  {
    if TextValues(col.cells) != [] {
      var m := Mode(TextValues(col.cells));
      assert HandleColumn(col).value.col.cells == FillNulls(col.cells, Str(m));
    }
  }

  /** Imputation keeps a column's name, type, length and cell kinds. */
  lemma HandleColumnValid(col: Column, rows: nat)
    requires ColumnOk(col, rows)
    ensures HandleColumn(col).Ok? ==>
      var c := HandleColumn(col).value.col;
      c.name == col.name && c.dtype == col.dtype && ColumnOk(c, rows)
  {
  }

  /** An imputed column keeps nulls only when it is numeric with no numbers. */
  lemma HandleColumnNoNulls(col: Column)
    requires HandleColumn(col).Ok?
    ensures Null in HandleColumn(col).value.col.cells ==>
      Null in col.cells && IsNumeric(col.dtype) && NumValues(col.cells) == []
  {
    var fix := HandleColumn(col).value;
    if NullCount(col.cells) > 0 && FillValue(col).value.Some? {
      var v := FillValue(col).value.value;
      assert v != Null;
      assert forall i :: 0 <= i < |fix.col.cells| ==> fix.col.cells[i] != Null;
    }
  }

  /** A text column that needs a mode but has no text, which makes `mode()[0]` raise. */
  predicate EmptyModeColumn(col: Column) {
    !IsNumeric(col.dtype) && NullCount(col.cells) > 0 && TextValues(col.cells) == []
  }

  lemma HandleColumnFails(col: Column)
    ensures HandleColumn(col).Err? <==> EmptyModeColumn(col)
  {
  }

  predicate AnyEmptyMode(cols: seq<Column>) {
    exists c :: 0 <= c < |cols| && EmptyModeColumn(cols[c])
  }

  lemma AnyEmptyModeStep(cols: seq<Column>)
    requires cols != []
    ensures AnyEmptyMode(cols) <==> AnyEmptyMode(cols[..|cols| - 1]) || EmptyModeColumn(cols[|cols| - 1])
  {
    var init := cols[..|cols| - 1];
    assert forall c :: 0 <= c < |init| ==> init[c] == cols[c];
    if AnyEmptyMode(cols) {
      var c :| 0 <= c < |cols| && EmptyModeColumn(cols[c]);
      assert c < |init| ==> EmptyModeColumn(init[c]);
    }
  }

  /** The stage fails exactly when some column is a text column made only of nulls. */
  lemma {:induction false} MissingStageFails(cols: seq<Column>)
    ensures MissingStage(cols).Err? <==> AnyEmptyMode(cols)
  {
    if cols != [] {
      var n := |cols| - 1;
      var init := cols[..n];
      MissingStageFails(init);
      HandleColumnFails(cols[n]);
      AnyEmptyModeStep(cols);
      if MissingStage(init).Err? {
        assert MissingStage(cols).Err?;
      } else if HandleColumn(cols[n]).Err? {
        assert MissingStage(cols).Err?;
      } else {
        var st, fix := MissingStage(init).value, HandleColumn(cols[n]).value;
        assert MissingStage(cols) == Ok(Stage(st.cols + [fix.col], st.ops + OpList(fix.op)));
      }
    }
  }

  /** A successful stage is the stage of all but the last column plus that column's fix. */
  lemma MissingStageLast(cols: seq<Column>)
    requires cols != [] && MissingStage(cols).Ok?
    ensures MissingStage(cols[..|cols| - 1]).Ok? && HandleColumn(cols[|cols| - 1]).Ok?
    ensures MissingStage(cols).value.cols == MissingStage(cols[..|cols| - 1]).value.cols + [HandleColumn(cols[|cols| - 1]).value.col]
  {
  }

  lemma {:induction false} MissingStageLength(cols: seq<Column>)
    requires MissingStage(cols).Ok?
    ensures |MissingStage(cols).value.cols| == |cols|
  {
    if cols != [] {
      MissingStageLast(cols);
      MissingStageLength(cols[..|cols| - 1]);
    }
  }

  lemma {:induction false} MissingStageColumnAt(cols: seq<Column>, c: nat)
    requires MissingStage(cols).Ok? && c < |cols|
    ensures |MissingStage(cols).value.cols| == |cols|
    ensures HandleColumn(cols[c]).Ok? && MissingStage(cols).value.cols[c] == HandleColumn(cols[c]).value.col
    decreases |cols|
  {
    var init := cols[..|cols| - 1];
    MissingStageLast(cols);
    MissingStageLength(init);
    var prev := MissingStage(init).value.cols;
    var fix := HandleColumn(cols[|cols| - 1]);
    assert MissingStage(cols).value.cols == prev + [fix.value.col];
    if c < |init| {
      MissingStageColumnAt(init, c);
      assert init[c] == cols[c];
      assert (prev + [fix.value.col])[c] == prev[c];
    } else {
      assert c == |init|;
    }
  }

  /** Otherwise every column is rewritten through `HandleColumn`. */
  lemma MissingStageColumns(cols: seq<Column>)
    requires MissingStage(cols).Ok?
    ensures var st := MissingStage(cols).value;
      && |st.cols| == |cols|
      && forall c :: 0 <= c < |cols| ==> HandleColumn(cols[c]).Ok? && st.cols[c] == HandleColumn(cols[c]).value.col
  {
    MissingStageLength(cols);
    forall c | 0 <= c < |cols|
      ensures HandleColumn(cols[c]).Ok? && MissingStage(cols).value.cols[c] == HandleColumn(cols[c]).value.col
    {
      MissingStageColumnAt(cols, c);
    }
  }

  lemma MissingStageValid(t: Table)
    requires Valid(t)
    requires MissingStage(t.cols).Ok?
    ensures var st := MissingStage(t.cols).value;
      && |st.cols| == |t.cols|
      && Valid(Table(t.rows, st.cols))
      && forall c :: 0 <= c < |t.cols| ==> st.cols[c].name == t.cols[c].name && st.cols[c].dtype == t.cols[c].dtype
  {
    MissingStageColumns(t.cols);
    var st := MissingStage(t.cols).value;
    forall c | 0 <= c < |t.cols|
      ensures ColumnOk(st.cols[c], t.rows) && st.cols[c].name == t.cols[c].name && st.cols[c].dtype == t.cols[c].dtype
    {
      HandleColumnValid(t.cols[c], t.rows);
    }
  }

  // ---------------------------------------------------------------------
  // Text standardisation

  /** `replace("nan", np.nan)` */
  function Restore(s: string): Cell {
    if s == "nan" then Null else Str(s)
  }

  /** `str.strip()`, `\s+` collapsed to one space, then the requested case. */
  function Normalize(s: string, caseType: string): string {
    var w := Collapse(Strip(s));
    if caseType == "lower" then Lower(w)
    else if caseType == "title" then Title(w)
    else w
  }

  /** One cell through `astype(str)` (a null becomes `"nan"`), normalisation and restoring. */
  function StdCell(c: Cell, caseType: string): Cell
    requires !c.Num?
  {
    match c
    case Null => Restore(Normalize("nan", caseType))
    case Str(s) => Restore(Normalize(s, caseType))
  }

  predicate TextCells(cells: seq<Cell>) {
    forall i :: 0 <= i < |cells| ==> !cells[i].Num?
  }

  function StdCells(cells: seq<Cell>, caseType: string): (r: seq<Cell>)
    requires TextCells(cells)
    ensures |r| == |cells| && TextCells(r)
  {
    seq(|cells|, i requires 0 <= i < |cells| => StdCell(cells[i], caseType))
  }

  /** `original != new` element-wise, where NaN never equals anything. */
  predicate Changed(before: Cell, after: Cell) {
    before == Null || after == Null || before != after
  }

  function ChangeCount(before: seq<Cell>, after: seq<Cell>): nat
    requires |before| == |after|
  {
    if before == [] then 0
    else
      var n := |before| - 1;
      ChangeCount(before[..n], after[..n]) + (if Changed(before[n], after[n]) then 1 else 0)
  }

  /** One turn of `_standardize_text`'s loop: object columns only. */
  function StdColumn(col: Column, caseType: string): ColumnFix
    requires col.dtype == Object ==> TextCells(col.cells)
  {
    if col.dtype != Object then ColumnFix(col, None)
    else
      var cells := StdCells(col.cells, caseType);
      var k := ChangeCount(col.cells, cells);
      ColumnFix(Column(col.name, col.dtype, cells), if k > 0 then Some(Standardized(col.name, k, caseType)) else None)
  }

  predicate TextColumns(cols: seq<Column>) {
    forall c :: 0 <= c < |cols| ==> cols[c].dtype == Object ==> TextCells(cols[c].cells)
  }

  lemma ValidTextColumns(t: Table)
    requires Valid(t)
    ensures TextColumns(t.cols)
  {
    forall c, i | 0 <= c < |t.cols| && t.cols[c].dtype == Object && 0 <= i < |t.cols[c].cells|
      ensures !t.cols[c].cells[i].Num?
    {
      assert ColumnOk(t.cols[c], t.rows);
    }
  }

  function TextStage(cols: seq<Column>, caseType: string): Stage
    requires TextColumns(cols)
  {
    if cols == [] then Stage([], [])
    else
      var st := TextStage(cols[..|cols| - 1], caseType);
      var fix := StdColumn(cols[|cols| - 1], caseType);
      Stage(st.cols + [fix.col], st.ops + OpList(fix.op))
  }

  method StandardizeText(t: Table, caseType: string) returns (st: Stage)
    requires TextColumns(t.cols)
    ensures st == TextStage(t.cols, caseType)
  {
    var cols, ops := [], [];
    for k := 0 to |t.cols|
      invariant TextStage(t.cols[..k], caseType) == Stage(cols, ops)
    {
      assert t.cols[..k + 1][..k] == t.cols[..k];
      var col := t.cols[k];
      if col.dtype == Object {
        var original := col.cells;
        var cells := StdCells(col.cells, caseType);
        var changes := ChangeCount(original, cells);
        col := Column(col.name, col.dtype, cells);
        if changes > 0 {
          ops := ops + [Standardized(col.name, changes, caseType)];
        }
      }
      cols := cols + [col];
    }
    assert t.cols[..|t.cols|] == t.cols;
    st := Stage(cols, ops);
  }

  /**
   * Normalised text is stripped and has no run of whitespace, and it keeps
   * every other character of the input in order up to case: under "lower"
   * they are lower-cased and no upper-case letter is left, under "title" only
   * their case changes, and under any other case they are untouched.
   */
  lemma NormalizeShape(s: string, caseType: string)
    ensures var r := Normalize(s, caseType);
      && Trimmed(r) && NoDoubleSpace(r)
      && Lower(NonSpace(r)) == Lower(NonSpace(s))
      && (caseType == "lower" ==> NonSpace(r) == Lower(NonSpace(s)) && forall i :: 0 <= i < |r| ==> !IsUpper(r[i]))
      && (caseType != "lower" && caseType != "title" ==> r == Collapse(Strip(s)) && NonSpace(r) == NonSpace(s))
  {
    var w := Collapse(Strip(s));
    CleanWhitespace(s);
    NonSpaceLower(w);
    if caseType == "lower" {
      SpacesCarryOver(w, Lower(w));
      NonSpaceLower(Lower(w));
      LowerIdempotent(w);
      LowerIdempotent(NonSpace(w));
    } else if caseType == "title" {
      TitleKeepsLetters(w);
      SpacesCarryOver(w, Title(w));
      NonSpaceLower(Title(w));
    }
  }

  /** So every text a standardised cell holds has that shape. */
  lemma StdCellShape(c: Cell, caseType: string)
    requires !c.Num?
    ensures StdCell(c, caseType).Str? ==>
      var s := StdCell(c, caseType).s;
      var orig := if c.Str? then c.s else "nan";
      && s == Normalize(orig, caseType)
      && Trimmed(s) && NoDoubleSpace(s)
      && (caseType == "lower" ==> forall i :: 0 <= i < |s| ==> !IsUpper(s[i]))
  {
    var orig := if c.Str? then c.s else "nan";
    var n := Normalize(orig, caseType);
    NormalizeShape(orig, caseType);
    assert StdCell(c, caseType) == Restore(n);
  }

  /** Under title case a null comes back as the text "Nan", not as a null. */
  lemma NullBecomesNanUnderTitle()
    ensures StdCell(Null, "title") == Str("Nan")
  {
    TitleOfNan();
  }

  /** Under lower case genuine text spelling " NaN " becomes a null. */
  lemma NanTextBecomesNullUnderLower()
    ensures StdCell(Str(" NaN "), "lower") == Null
  {
    StripSpacedNaN();
    CollapseNaN();
    LowerNaN();
  }

  /** Every null counts as a change, whatever it turns into. */
  lemma {:induction false} NullsCountAsChanged(before: seq<Cell>, after: seq<Cell>)
    requires |before| == |after|
    ensures ChangeCount(before, after) >= NullCount(before)
  {
    if before != [] {
      var n := |before| - 1;
      NullsCountAsChanged(before[..n], after[..n]);
    }
  }

  /** So a text column holding a null always produces a "Standardized" line. */
  lemma NullColumnLogged(col: Column, caseType: string)
    requires col.dtype == Object && TextCells(col.cells) && Null in col.cells
    ensures StdColumn(col, caseType).op.Some?
  {
    NullsCountAsChanged(col.cells, StdCells(col.cells, caseType));
  }

  /** Standardisation touches only text columns and keeps every column's kind. */
  lemma StdColumnValid(col: Column, rows: nat, caseType: string)
    requires ColumnOk(col, rows) && (col.dtype == Object ==> TextCells(col.cells))
    ensures var c := StdColumn(col, caseType).col;
      && c.name == col.name && c.dtype == col.dtype && ColumnOk(c, rows)
      && (col.dtype != Object ==> c == col)
  {
  }

  /** The text stage of all columns is that of all but the last, plus the last one standardised. */
  lemma TextStageLast(cols: seq<Column>, caseType: string)
    requires cols != [] && TextColumns(cols)
    ensures TextColumns(cols[..|cols| - 1])
    ensures TextStage(cols, caseType).cols
         == TextStage(cols[..|cols| - 1], caseType).cols + [StdColumn(cols[|cols| - 1], caseType).col]
  {
    var init := cols[..|cols| - 1];
    assert forall c :: 0 <= c < |init| ==> init[c] == cols[c];
  }

  lemma {:induction false} TextStageLength(cols: seq<Column>, caseType: string)
    requires TextColumns(cols)
    ensures |TextStage(cols, caseType).cols| == |cols|
  {
    if cols != [] {
      TextStageLast(cols, caseType);
      TextStageLength(cols[..|cols| - 1], caseType);
    }
  }

  lemma {:induction false} TextStageColumnAt(cols: seq<Column>, caseType: string, c: nat)
    requires TextColumns(cols) && c < |cols|
    ensures |TextStage(cols, caseType).cols| == |cols|
    ensures TextStage(cols, caseType).cols[c] == StdColumn(cols[c], caseType).col
    decreases |cols|
  {
    var init := cols[..|cols| - 1];
    TextStageLast(cols, caseType);
    TextStageLength(init, caseType);
    var prev := TextStage(init, caseType).cols;
    var last := StdColumn(cols[|cols| - 1], caseType).col;
    assert TextStage(cols, caseType).cols == prev + [last];
    if c < |init| {
      TextStageColumnAt(init, caseType, c);
      assert init[c] == cols[c];
      assert (prev + [last])[c] == prev[c];
    } else {
      assert c == |init|;
    }
  }

  /** The stage rewrites column `c` through the one-column step, for every `c`. */
  lemma TextStageColumns(cols: seq<Column>, caseType: string)
    requires TextColumns(cols)
    ensures |TextStage(cols, caseType).cols| == |cols|
    ensures forall c :: 0 <= c < |cols| ==> TextStage(cols, caseType).cols[c] == StdColumn(cols[c], caseType).col
  {
    TextStageLength(cols, caseType);
    forall c | 0 <= c < |cols| ensures TextStage(cols, caseType).cols[c] == StdColumn(cols[c], caseType).col {
      TextStageColumnAt(cols, caseType, c);
    }
  }

  lemma TextStageValid(t: Table, caseType: string)
    requires Valid(t)
    ensures TextColumns(t.cols)
    ensures Valid(Table(t.rows, TextStage(t.cols, caseType).cols))
  {
    ValidTextColumns(t);
    TextStageColumns(t.cols, caseType);
    forall c | 0 <= c < |t.cols| ensures ColumnOk(TextStage(t.cols, caseType).cols[c], t.rows) {
      StdColumnValid(t.cols[c], t.rows, caseType);
    }
  }

  // ---------------------------------------------------------------------
  // De-duplication

  /** `drop_duplicates()` and its log line, which is written only when rows went away. */
  function DedupStage(t: Table): (c: Cleaned)
    requires Valid(t)
    ensures Valid(c.table)
  {
    var r := DropDuplicates(t);
    var n := t.rows - r.rows;
    Cleaned(r, if n != 0 then [RemovedDuplicates(n)] else [])
  }

  /**
   * De-duplication removes exactly the rows that repeat an earlier row,
   * leaves no two equal rows, keeps a copy of every row, and logs
   * "Removed n duplicate rows" exactly when n > 0.
   */
  lemma DedupLogged(t: Table)
    requires Valid(t)
    ensures var c := DedupStage(t);
      && (|t.cols| > 0 ==> forall i, j :: 0 <= i < j < c.table.rows ==> !RowsEqual(c.table, i, j))
      && (forall i :: 0 <= i < t.rows ==> RowPresent(t, i, c.table))
      && (DuplicateCount(t) > 0 ==> c.ops == [RemovedDuplicates(DuplicateCount(t))])
      && (DuplicateCount(t) == 0 ==> c.ops == [] && c.table.rows == t.rows)
  {
    DropDuplicatesCorrect(t);
  }

  // ---------------------------------------------------------------------
  // The pipeline

  /** Stage 1, when `handle_missing` is set; every later stage sees a valid table. */
  function AfterMissing(t: Table, cfg: Config): (r: Result<Cleaned, CleanError>)
    requires Valid(t)
    ensures r.Ok? ==> Valid(r.value.table) && r.value.table.rows == t.rows
  {
    if Enabled(cfg.handleMissing) then
      match MissingStage(t.cols)
      case Err(e) => Err(e)
      case Ok(st) => MissingStageValid(t); Ok(Cleaned(Table(t.rows, st.cols), st.ops))
    else Ok(Cleaned(t, []))
  }

  /** Stage 2, when `remove_duplicates` is set. */
  function AfterDedup(c: Cleaned, cfg: Config): (r: Cleaned)
    requires Valid(c.table)
    ensures Valid(r.table)
  {
    if Enabled(cfg.removeDuplicates) then
      var d := DedupStage(c.table);
      Cleaned(d.table, c.ops + d.ops)
    else c
  }

  /** Stage 3, when `standardize_text` is set. */
  function AfterText(c: Cleaned, cfg: Config): (r: Cleaned)
    requires Valid(c.table)
    ensures Valid(r.table)
  {
    if Enabled(cfg.standardizeText) then
      TextStageValid(c.table, CaseType(cfg));
      var st := TextStage(c.table.cols, CaseType(cfg));
      Cleaned(Table(c.table.rows, st.cols), c.ops + st.ops)
    else c
  }

  /** `clean_data`: missing values, then duplicates, then text, each behind its flag. */
  function CleanSpec(t: Table, cfg: Config): (r: Result<Cleaned, CleanError>)
    requires Valid(t)
    ensures r.Ok? ==> Valid(r.value.table)
  {
    match AfterMissing(t, cfg)
    case Err(e) => Err(e)
    case Ok(c1) => Ok(AfterText(AfterDedup(c1, cfg), cfg))
  }

  method CleanData(t: Table, cfg: Config) returns (r: Result<Cleaned, CleanError>)
    requires Valid(t)
    ensures r == CleanSpec(t, cfg)
  {
    r := MissingBlock(t, cfg);
    if r.Err? {
      return;
    }
    var cleaned := DuplicatesBlock(r.value, cfg);
    cleaned := TextBlock(cleaned, cfg);
    r := Ok(cleaned);
  }

  /** Block 1 of `clean_data`: imputation when `handle_missing` is set. */
  method MissingBlock(t: Table, cfg: Config) returns (r: Result<Cleaned, CleanError>)
    requires Valid(t)
    ensures r == AfterMissing(t, cfg)
  {
    r := Ok(Cleaned(t, []));
    if Enabled(cfg.handleMissing) {
      var m := HandleMissing(t);
      if m.Err? {
        return Err(m.error);
      }
      MissingStageValid(t);
      r := Ok(Cleaned(Table(t.rows, m.value.cols), m.value.ops));
    }
  }

  /** Block 2 of `clean_data`: de-duplication when `remove_duplicates` is set. */
  method DuplicatesBlock(c: Cleaned, cfg: Config) returns (d: Cleaned)
    requires Valid(c.table)
    ensures d == AfterDedup(c, cfg)
  {
    d := c;
    if Enabled(cfg.removeDuplicates) {
      var before := c.table.rows;
      var dropped := DropDuplicates(c.table);
      var after := dropped.rows;
      var ops := c.ops;
      if before != after {
        ops := ops + [RemovedDuplicates(before - after)];
      }
      d := Cleaned(dropped, ops);
    }
  }

  /** Block 3 of `clean_data`: text standardisation when `standardize_text` is set. */
  method TextBlock(c: Cleaned, cfg: Config) returns (d: Cleaned)
    requires Valid(c.table)
    ensures d == AfterText(c, cfg)
  {
    d := c;
    if Enabled(cfg.standardizeText) {
      TextStageValid(c.table, CaseType(cfg));
      var st := StandardizeText(c.table, CaseType(cfg));
      d := Cleaned(Table(c.table.rows, st.cols), c.ops + st.ops);
    }
  }

  /** With every flag absent nothing runs and nothing is logged; the case defaults to "lower". */
  lemma CleanDefaults(t: Table, cfg: Config)
    requires Valid(t)
    ensures cfg.handleMissing.None? && cfg.removeDuplicates.None? && cfg.standardizeText.None? ==>
      CleanSpec(t, cfg) == Ok(Cleaned(t, []))
    ensures cfg.textCase.None? ==> CaseType(cfg) == "lower"
  {
  }

  /** Only imputation can fail, and only on a text column made of nulls. */
  lemma CleanFailsOnlyOnEmptyMode(t: Table, cfg: Config)
    requires Valid(t)
    ensures CleanSpec(t, cfg).Err? <==>
      Enabled(cfg.handleMissing) && AnyEmptyMode(t.cols)
  {
    MissingStageFails(t.cols);
    if Enabled(cfg.handleMissing) && MissingStage(t.cols).Ok? {
      MissingStageValid(t);
    }
  }

  // ---------------------------------------------------------------------
  // detect_case_inconsistencies

  /** `dropna().unique()`: distinct texts in order of first appearance. */
  function Uniques(cells: seq<Cell>): (us: seq<string>)
    ensures forall v :: v in us <==> Str(v) in cells
    ensures NoDuplicates(us)
  {
    if cells == [] then []
    else
      var init := cells[..|cells| - 1];
      assert cells == init + [cells[|cells| - 1]];
      var rest := Uniques(init);
      match cells[|cells| - 1]
      case Str(v) => if v in rest then rest else rest + [v]
      case _ => rest
  }

  /** The spellings in `us` whose lower-case form is `key`, in order. */
  function Group(us: seq<string>, key: string): seq<string> {
    if us == [] then []
    else Group(us[..|us| - 1], key) + (if Lower(us[|us| - 1]) == key then [us[|us| - 1]] else [])
  }

  /** The keys of `lower_map`, in insertion order. */
  function Keys(us: seq<string>): seq<string> {
    if us == [] then []
    else
      var rest := Keys(us[..|us| - 1]);
      var key := Lower(us[|us| - 1]);
      if key in rest then rest else rest + [key]
  }

  /** A group holds exactly the spellings that lower-case to its key. */
  lemma {:induction false} GroupMembers(us: seq<string>, key: string)
    ensures forall v :: v in Group(us, key) <==> v in us && Lower(v) == key
  {
    if us != [] {
      var init := us[..|us| - 1];
      GroupMembers(init, key);
      assert us == init + [us[|us| - 1]];
    }
  }

  /** The keys are exactly the lower-case forms of the spellings, each once. */
  lemma {:induction false} KeysExact(us: seq<string>)
    ensures forall k :: k in Keys(us) <==> exists v :: v in us && Lower(v) == k
    ensures NoDuplicates(Keys(us))
  {
    if us != [] {
      var init := us[..|us| - 1];
      KeysExact(init);
      var last := us[|us| - 1];
      assert us == init + [last];
      forall k ensures k in Keys(us) <==> exists v :: v in us && Lower(v) == k {
        if k == Lower(last) {
          assert last in us;
        } else if exists v :: v in init && Lower(v) == k {
          var v :| v in init && Lower(v) == k;
          assert v in us;
        }
      }
    }
  }

  /** A lower-case form that is not yet a key has no spellings. */
  lemma {:induction false} NoKeyNoGroup(us: seq<string>, key: string)
    requires key !in Keys(us)
    ensures Group(us, key) == []
  {
    if us != [] {
      var init := us[..|us| - 1];
      var rest := Keys(init);
      assert forall k :: k in rest ==> k in Keys(us);
      NoKeyNoGroup(init, key);
    }
  }

  /** The variations of the last key (in `ks`) that has more than one spelling. */
  function LastInconsistent(us: seq<string>, ks: seq<string>): Option<seq<string>> {
    if ks == [] then None
    else
      var g := Group(us, ks[|ks| - 1]);
      if |g| > 1 then Some(g) else LastInconsistent(us, ks[..|ks| - 1])
  }

  datatype CaseIssue = CaseIssue(column: string, variations: seq<string>)

  /** The issues map: object columns in order, each with its last inconsistent group. */
  function CaseInconsistencies(cols: seq<Column>): seq<CaseIssue> {
    if cols == [] then []
    else
      var col := cols[|cols| - 1];
      var rest := CaseInconsistencies(cols[..|cols| - 1]);
      if col.dtype != Object then rest
      else
        var us := Uniques(col.cells);
        match LastInconsistent(us, Keys(us))
        case None => rest
        case Some(g) => rest + [CaseIssue(col.name, g)]
  }

  /** Adding one more spelling extends its key's group and, for a new key, the keys. */
  lemma LowerMapStep(us: seq<string>, i: nat)
    requires i < |us|
    ensures forall k :: Group(us[..i + 1], k) == Group(us[..i], k) + (if Lower(us[i]) == k then [us[i]] else [])
    ensures Keys(us[..i + 1]) == if Lower(us[i]) in Keys(us[..i]) then Keys(us[..i]) else Keys(us[..i]) + [Lower(us[i])]
  {
    assert us[..i + 1][..i] == us[..i];
  }

  /** The `lower_map` loop: each lower-case key with its spellings, keys in insertion order. */
  method BuildLowerMap(us: seq<string>) returns (lowerMap: map<string, seq<string>>, keys: seq<string>)
    ensures keys == Keys(us)
    ensures forall k :: k in lowerMap <==> k in keys
    ensures forall k :: k in keys ==> lowerMap[k] == Group(us, k)
  {
    lowerMap, keys := map[], [];
    for i := 0 to |us|
      invariant keys == Keys(us[..i])
      invariant forall k :: k in lowerMap <==> k in keys
      invariant forall k :: k in keys ==> lowerMap[k] == Group(us[..i], k)
    {
      ghost var pre, post := us[..i], us[..i + 1];
      LowerMapStep(us, i);
      var lowerVal := Lower(us[i]);
      ghost var oldMap, oldKeys := lowerMap, keys;
      if lowerVal !in lowerMap {
        NoKeyNoGroup(pre, lowerVal);
        lowerMap := lowerMap[lowerVal := [us[i]]];
        keys := keys + [lowerVal];
      } else {
        lowerMap := lowerMap[lowerVal := lowerMap[lowerVal] + [us[i]]];
      }
      forall k | k in keys ensures lowerMap[k] == Group(post, k) {
        if k != lowerVal {
          assert k in oldKeys && lowerMap[k] == oldMap[k];
        }
      }
    }
    assert us[..|us|] == us;
  }

  /** One column: build `lower_map`, then let every inconsistent group overwrite the last. */
  method ColumnInconsistency(cells: seq<Cell>) returns (found: Option<seq<string>>)
    ensures var us := Uniques(cells); found == LastInconsistent(us, Keys(us))
  {
    var us := Uniques(cells);
    var lowerMap, keys := BuildLowerMap(us);
    found := None;
    for j := 0 to |keys|
      invariant found == LastInconsistent(us, keys[..j])
    {
      assert keys[..j + 1][..j] == keys[..j];
      var variations := lowerMap[keys[j]];
      if |variations| > 1 {
        found := Some(variations);
      }
    }
    assert keys[..|keys|] == keys;
  }

  /** `detect_case_inconsistencies` */
  method DetectCaseInconsistencies(t: Table) returns (issues: seq<CaseIssue>)
    ensures issues == CaseInconsistencies(t.cols)
  {
    issues := [];
    for c := 0 to |t.cols|
      invariant issues == CaseInconsistencies(t.cols[..c])
    {
      assert t.cols[..c + 1][..c] == t.cols[..c];
      var col := t.cols[c];
      if col.dtype == Object {
        var found := ColumnInconsistency(col.cells);
        if found.Some? {
          issues := issues + [CaseIssue(col.name, found.value)];
        }
      }
    }
    assert t.cols[..|t.cols|] == t.cols;
  }

  /** Nothing is reported exactly when every lower-case key has at most one spelling. */
  lemma {:induction false} LastInconsistentNone(us: seq<string>, ks: seq<string>)
    ensures LastInconsistent(us, ks).None? <==> forall j :: 0 <= j < |ks| ==> |Group(us, ks[j])| <= 1
  {
    if ks != [] {
      var init := ks[..|ks| - 1];
      LastInconsistentNone(us, init);
      assert forall j :: 0 <= j < |init| ==> init[j] == ks[j];
    }
  }

  /**
   * What is reported is all the spellings of one lower-case key, at least
   * two of them, and no key inserted later has two: earlier inconsistent
   * groups are overwritten by later ones.
   */
  lemma {:induction false} LastInconsistentWins(us: seq<string>, ks: seq<string>)
    requires LastInconsistent(us, ks).Some?
    ensures exists i :: 0 <= i < |ks| && LastInconsistent(us, ks).value == Group(us, ks[i]) && |Group(us, ks[i])| > 1
                        && forall j :: i < j < |ks| ==> |Group(us, ks[j])| <= 1
  {
    var n := |ks| - 1;
    if |Group(us, ks[n])| > 1 {
      assert LastInconsistent(us, ks).value == Group(us, ks[n]);
    } else {
      var init := ks[..n];
      LastInconsistentWins(us, init);
      var i :| 0 <= i < |init| && LastInconsistent(us, init).value == Group(us, init[i]) && |Group(us, init[i])| > 1
        && forall j :: i < j < |init| ==> |Group(us, init[j])| <= 1;
      assert ks[i] == init[i];
      assert forall j :: i < j < n ==> ks[j] == init[j];
    }
  }
}
