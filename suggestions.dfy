/**
 * AISuggestionEngine: fixed thresholds split the profiled columns into
 * bands, each non-empty band becomes one suggestion record, and the records
 * are stably sorted by priority weight.
 */
module Suggestions {
  import opened DataTable
  import opened Profiling

  // The engine's `suggestion_rules`.
  const MissingThresholdLow: real := 0.10
  const MissingThresholdHigh: real := 0.40
  const OutlierThreshold: real := 0.05
  /** Declared among the rules; the duplicate rule compares against 5 and 1 instead. */
  const DuplicateThreshold: real := 0.01

  datatype Priority = High | Medium | Low

  /** `priority_order`; a record never carries a priority outside these three. */
  function Weight(p: Priority): nat {
    match p
    case High => 3
    case Medium => 2
    case Low => 1
  }

  datatype Action =
    | RemoveColumns | ImputeNumeric | ImputeCategorical | CarefulImputation
    | RemoveDuplicates | HandleOutliers | ReviewOutliers | OptimizeTypes
    | StandardizeCase | StripWhitespace

  /**
   * One record per `type`; the free-text description (which embeds Python
   * list and float formatting) is not modelled, the title and recommendation
   * follow from the action.
   */
  datatype Suggestion =
    | MissingValues(priority: Priority, action: Action, columns: seq<string>)
    | Duplicates(priority: Priority, action: Action, count: nat)
    | Outliers(priority: Priority, action: Action, columns: seq<string>)
    | DataTypes(priority: Priority, action: Action, columns: seq<string>)
    | CategoricalCleaning(priority: Priority, action: Action, columns: seq<string>)

  function Title(a: Action): string {
    match a
    case RemoveColumns => "Remove columns with >40% missing values"
    case ImputeNumeric => "Impute missing values in numeric columns"
    case ImputeCategorical => "Impute missing values in categorical columns"
    case CarefulImputation => "Carefully handle moderate missing values"
    case RemoveDuplicates => "Remove duplicate rows"
    case HandleOutliers => "Handle outliers in columns with high outlier percentage"
    case ReviewOutliers => "Review outliers in columns"
    case OptimizeTypes => "Optimize data types for memory efficiency"
    case StandardizeCase => "Standardize text case in categorical columns"
    case StripWhitespace => "Remove whitespace from categorical columns"
  }

  function Recommendation(a: Action): string {
    match a
    case RemoveColumns => "Consider removing these columns as imputation may not be reliable"
    case ImputeNumeric => "Use mean/median imputation or KNN imputation"
    case ImputeCategorical => "Use mode imputation or create \"Unknown\" category"
    case CarefulImputation => "Consider advanced imputation techniques or domain knowledge"
    case RemoveDuplicates => "Remove duplicate rows to avoid bias in analysis"
    case HandleOutliers => "Consider capping, transformation, or removal based on domain knowledge"
    case ReviewOutliers => "Review outliers manually - they might be valid extreme values"
    case OptimizeTypes => "Convert to more efficient data types to reduce memory usage"
    case StandardizeCase => "Standardize text case (e.g., lowercase) for consistency"
    case StripWhitespace => "Strip leading/trailing whitespace"
  }

  /** The number of records that carry action `a`. */
  function ActionCount(s: seq<Suggestion>, a: Action): nat {
    if s == [] then 0 else ActionCount(s[..|s| - 1], a) + (if s[|s| - 1].action == a then 1 else 0)
  }

  // ---------------------------------------------------------------------
  // Missing values

  datatype Band = HighBand | MediumBand | LowBand

  /** Over 40% is high, under 10% is low, everything else (both limits included) is medium. */
  function BandOf(percentage: real): Band {
    var ratio := percentage / 100.0;
    if ratio > MissingThresholdHigh then HighBand
    else if ratio < MissingThresholdLow then LowBand
    else MediumBand
  }

  /** The columns of band `b`, in `by_column` order. */
  function BandColumns(es: seq<MissingEntry>, b: Band): seq<string> {
    if es == [] then []
    else
      var last := es[|es| - 1];
      BandColumns(es[..|es| - 1], b) + (if BandOf(last.percentage) == b then [last.column] else [])
  }

  function MissingNames(es: seq<MissingEntry>): seq<string> {
    if es == [] then [] else MissingNames(es[..|es| - 1]) + [es[|es| - 1].column]
  }

  /** `data[col]` names an existing column. */
  predicate HasColumn(t: Table, name: string) {
    exists c :: 0 <= c < |t.cols| && t.cols[c].name == name
  }

  /** `data[col].dtype in ['int64', 'float64']` */
  predicate IsNumericColumn(t: Table, name: string) {
    exists c :: 0 <= c < |t.cols| && t.cols[c].name == name && IsNumeric(t.cols[c].dtype)
  }

  /** `[col for col in cols if data[col].dtype in ['int64', 'float64']]` */
  function NumericColumns(t: Table, cols: seq<string>): seq<string> {
    if cols == [] then []
    else NumericColumns(t, cols[..|cols| - 1]) + (if IsNumericColumn(t, cols[|cols| - 1]) then [cols[|cols| - 1]] else [])
  }

  /** `[col for col in cols if col not in excluded]` */
  function ColumnsNotIn(cols: seq<string>, excluded: seq<string>): seq<string> {
    if cols == [] then []
    else ColumnsNotIn(cols[..|cols| - 1], excluded) + (if cols[|cols| - 1] !in excluded then [cols[|cols| - 1]] else [])
  }

  predicate MissingColumnsExist(t: Table, p: Profile) {
    forall k :: 0 <= k < |p.missingValues.byColumn| ==> HasColumn(t, p.missingValues.byColumn[k].column)
  }

  /** The profiler reports only columns of the table, so every lookup the rule makes succeeds. */
  lemma ProfiledColumnsExist(t: Table, p: Profile)
    requires p.missingValues.byColumn == MissingEntries(t.cols, t.rows)
    ensures MissingColumnsExist(t, p)
  {
    var es := p.missingValues.byColumn;
    MissingEntriesSound(t.cols, t.rows);
    forall k | 0 <= k < |es| ensures HasColumn(t, es[k].column) {
      assert es[k] in es;
      var c :| 0 <= c < |t.cols| && es[k] == MissingEntryOf(t.cols[c], t.rows);
      assert t.cols[c].name == es[k].column;
    }
  }

  /** A single record when `cond` holds, nothing otherwise. */
  function Piece(cond: bool, p: Priority, a: Action, cols: seq<string>): seq<Suggestion> {
    if cond then [MissingValues(p, a, cols)] else []
  }

  /** `_suggest_missing_values_handling` */
  function MissingSuggestions(t: Table, p: Profile): seq<Suggestion> {
    if p.missingValues.totalMissing == 0 then []
    else
      var es := p.missingValues.byColumn;
      var high, low, medium := BandColumns(es, HighBand), BandColumns(es, LowBand), BandColumns(es, MediumBand);
      var numeric := NumericColumns(t, low);
      var categorical := ColumnsNotIn(low, numeric);
      Piece(high != [], High, RemoveColumns, high)
      + Piece(numeric != [], Medium, ImputeNumeric, numeric)
      + Piece(categorical != [], Medium, ImputeCategorical, categorical)
      + Piece(medium != [], Medium, CarefulImputation, medium)
  }

  /** The banding loop of `_suggest_missing_values_handling`. */
  method SplitBands(es: seq<MissingEntry>) returns (high: seq<string>, low: seq<string>, medium: seq<string>)
    ensures high == BandColumns(es, HighBand)
    ensures low == BandColumns(es, LowBand)
    ensures medium == BandColumns(es, MediumBand)
  {
    high, low, medium := [], [], [];
    for k := 0 to |es|
      invariant high == BandColumns(es[..k], HighBand)
      invariant low == BandColumns(es[..k], LowBand)
      invariant medium == BandColumns(es[..k], MediumBand)
    {
      assert es[..k + 1][..k] == es[..k];
      var ratio := es[k].percentage / 100.0;
      if ratio > MissingThresholdHigh {
        high := high + [es[k].column];
      } else if ratio < MissingThresholdLow {
        low := low + [es[k].column];
      } else {
        medium := medium + [es[k].column];
      }
    }
    assert es[..|es|] == es;
  }

  /** The two comprehensions that split the low band. */
  method SplitLow(t: Table, low: seq<string>) returns (numeric: seq<string>, categorical: seq<string>)
    ensures numeric == NumericColumns(t, low)
    ensures categorical == ColumnsNotIn(low, numeric)
  {
    numeric := [];
    for k := 0 to |low|
      invariant numeric == NumericColumns(t, low[..k])
    {
      assert low[..k + 1][..k] == low[..k];
      if IsNumericColumn(t, low[k]) {
        numeric := numeric + [low[k]];
      }
    }
    assert low[..|low|] == low;
    categorical := [];
    for k := 0 to |low|
      invariant categorical == ColumnsNotIn(low[..k], numeric)
    {
      assert low[..k + 1][..k] == low[..k];
      if low[k] !in numeric {
        categorical := categorical + [low[k]];
      }
    }
    assert low[..|low|] == low;
  }

  method SuggestMissingValuesHandling(t: Table, p: Profile) returns (s: seq<Suggestion>)
    requires MissingColumnsExist(t, p)
    ensures s == MissingSuggestions(t, p)
  {
    s := [];
    if p.missingValues.totalMissing == 0 {
      return;
    }
    var high, low, medium := SplitBands(p.missingValues.byColumn);
    if high != [] {
      s := s + [MissingValues(High, RemoveColumns, high)];
    }
    assert s == Piece(high != [], High, RemoveColumns, high);
    var numeric, categorical := [], [];
    if low != [] {
      numeric, categorical := SplitLow(t, low);
      if numeric != [] {
        s := s + [MissingValues(Medium, ImputeNumeric, numeric)];
      }
      if categorical != [] {
        s := s + [MissingValues(Medium, ImputeCategorical, categorical)];
      }
    }
    assert numeric == NumericColumns(t, low) && categorical == ColumnsNotIn(low, numeric);
    assert s == Piece(high != [], High, RemoveColumns, high)
              + Piece(numeric != [], Medium, ImputeNumeric, numeric)
              + Piece(categorical != [], Medium, ImputeCategorical, categorical);
    if medium != [] {
      s := s + [MissingValues(Medium, CarefulImputation, medium)];
    }
  }

  /** `n` is in the list of band `b` exactly when some entry named `n` falls in that band. */
  lemma {:induction false} InBandColumns(es: seq<MissingEntry>, b: Band, n: string)
    ensures n in BandColumns(es, b) <==> exists k :: 0 <= k < |es| && es[k].column == n && BandOf(es[k].percentage) == b
  {
    if es != [] {
      var init := es[..|es| - 1];
      InBandColumns(init, b, n);
      assert forall k :: 0 <= k < |init| ==> init[k] == es[k];
    }
  }

  /**
   * The three bands share out the `by_column` keys: together they hold each
   * key as often as `by_column` does, so when the keys are distinct every key
   * lies in exactly one band, the one its percentage selects.
   */
  lemma {:induction false} BandsPartition(es: seq<MissingEntry>)
    ensures multiset(BandColumns(es, HighBand)) + multiset(BandColumns(es, MediumBand)) + multiset(BandColumns(es, LowBand))
            == multiset(MissingNames(es))
  {
    if es != [] {
      BandsPartition(es[..|es| - 1]);
    }
  }

  lemma BandExclusive(es: seq<MissingEntry>, k: nat)
    requires k < |es|
    requires forall i, j :: 0 <= i < j < |es| ==> es[i].column != es[j].column
    ensures forall b :: es[k].column in BandColumns(es, b) <==> b == BandOf(es[k].percentage)
  {
    forall b ensures es[k].column in BandColumns(es, b) <==> b == BandOf(es[k].percentage) {
      InBandColumns(es, b, es[k].column);
    }
  }

  /** `col not in numeric_cols` picks exactly the non-numeric low-band columns, in order. */
  lemma {:induction false} LowSplitComplement(t: Table, low: seq<string>)
    ensures ColumnsNotIn(low, NumericColumns(t, low)) == NonNumericColumns(t, low)
  {
    if low != [] {
      var init := low[..|low| - 1];
      LowSplitComplement(t, init);
      NotInPrefix(t, low);
      NumericColumnsMembers(t, low);
    }
  }

  /** The numeric and the non-numeric low-band columns together are the low band. */
  lemma {:induction false} LowSplitPartition(t: Table, low: seq<string>)
    ensures multiset(NumericColumns(t, low)) + multiset(NonNumericColumns(t, low)) == multiset(low)
  {
    if low != [] {
      var init, last := low[..|low| - 1], low[|low| - 1];
      var n, c := NumericColumns(t, init), NonNumericColumns(t, init);
      var isNumeric := IsNumericColumn(t, last);
      LowSplitPartition(t, init);
      assert low == init + [last];
      ColumnsSnoc(t, low);
      SplitSnoc(n, c, init, last, isNumeric);
    }
  }

  /** The last low-band column goes to exactly one of the two lists. */
  lemma ColumnsSnoc(t: Table, low: seq<string>)
    requires low != []
    ensures var init, last := low[..|low| - 1], low[|low| - 1];
      && NumericColumns(t, low) == NumericColumns(t, init) + (if IsNumericColumn(t, last) then [last] else [])
      && NonNumericColumns(t, low) == NonNumericColumns(t, init) + (if IsNumericColumn(t, last) then [] else [last])
  {
  }

  /** Sending one more item to one of two parts keeps them a split of the longer sequence. */
  lemma SplitSnoc(n: seq<string>, c: seq<string>, init: seq<string>, x: string, toFirst: bool)
    requires multiset(n) + multiset(c) == multiset(init)
    ensures multiset(if toFirst then n + [x] else n) + multiset(if toFirst then c else c + [x]) == multiset(init + [x])
  {
    assert multiset(init + [x]) == multiset(init) + multiset{x};
    if toFirst {
      assert multiset(n + [x]) == multiset(n) + multiset{x};
    } else {
      assert multiset(c + [x]) == multiset(c) + multiset{x};
    }
  }

  /** `[col for col in cols if data[col].dtype not in ['int64', 'float64']]` */
  function NonNumericColumns(t: Table, cols: seq<string>): seq<string> {
    if cols == [] then []
    else NonNumericColumns(t, cols[..|cols| - 1]) + (if !IsNumericColumn(t, cols[|cols| - 1]) then [cols[|cols| - 1]] else [])
  }

  lemma {:induction false} NumericColumnsMembers(t: Table, cols: seq<string>)
    ensures forall n :: n in NumericColumns(t, cols) <==> n in cols && IsNumericColumn(t, n)
  {
    if cols != [] {
      NumericColumnsMembers(t, cols[..|cols| - 1]);
      assert cols == cols[..|cols| - 1] + [cols[|cols| - 1]];
    }
  }

  /** Filtering a prefix against the whole numeric list is the same as against the prefix's. */
  lemma NotInPrefix(t: Table, low: seq<string>)
    requires low != []
    ensures ColumnsNotIn(low[..|low| - 1], NumericColumns(t, low)) ==
            ColumnsNotIn(low[..|low| - 1], NumericColumns(t, low[..|low| - 1]))
  {
    var init := low[..|low| - 1];
    NumericColumnsMembers(t, low);
    NumericColumnsMembers(t, init);
    NotInSame(init, NumericColumns(t, low), NumericColumns(t, init));
  }

  lemma {:induction false} NotInSame(cols: seq<string>, a: seq<string>, b: seq<string>)
    requires forall n :: n in cols ==> (n in a <==> n in b)
    ensures ColumnsNotIn(cols, a) == ColumnsNotIn(cols, b)
  {
    if cols != [] {
      var init := cols[..|cols| - 1];
      assert forall n :: n in init ==> n in cols;
      NotInSame(init, a, b);
    }
  }

  lemma PieceCount(cond: bool, p: Priority, a: Action, cols: seq<string>, x: Action)
    ensures ActionCount(Piece(cond, p, a, cols), x) == if cond && a == x then 1 else 0
  {
    if cond {
      assert Piece(cond, p, a, cols)[..0] == [];
    }
  }

  /** Counting an action over four pieces adds up the pieces that carry it. */
  lemma FourPieces(c1: bool, p1: Priority, a1: Action, l1: seq<string>,
                   c2: bool, p2: Priority, a2: Action, l2: seq<string>,
                   c3: bool, p3: Priority, a3: Action, l3: seq<string>,
                   c4: bool, p4: Priority, a4: Action, l4: seq<string>)
    ensures forall x :: (ActionCount(Piece(c1, p1, a1, l1) + Piece(c2, p2, a2, l2) + Piece(c3, p3, a3, l3) + Piece(c4, p4, a4, l4), x)
         == (if c1 && a1 == x then 1 else 0) + (if c2 && a2 == x then 1 else 0)
          + (if c3 && a3 == x then 1 else 0) + (if c4 && a4 == x then 1 else 0))
  {
    var a, b, c, d := Piece(c1, p1, a1, l1), Piece(c2, p2, a2, l2), Piece(c3, p3, a3, l3), Piece(c4, p4, a4, l4);
    forall x
      ensures ActionCount(a + b + c + d, x)
           == (if c1 && a1 == x then 1 else 0) + (if c2 && a2 == x then 1 else 0)
            + (if c3 && a3 == x then 1 else 0) + (if c4 && a4 == x then 1 else 0)
    {
      ActionCountAppend(a, b, x);
      ActionCountAppend(a + b, c, x);
      ActionCountAppend(a + b + c, d, x);
      PieceCount(c1, p1, a1, l1, x);
      PieceCount(c2, p2, a2, l2, x);
      PieceCount(c3, p3, a3, l3, x);
      PieceCount(c4, p4, a4, l4, x);
    }
  }

  /**
   * When something is missing: one record for the >40% band, one for each
   * non-empty half of the <10% band, and one for the 10-40% band.
   */
  lemma MissingSuggestionCounts(t: Table, p: Profile)
    requires p.missingValues.totalMissing > 0
    ensures var s := MissingSuggestions(t, p);
      var es := p.missingValues.byColumn;
      var low := BandColumns(es, LowBand);
      && ActionCount(s, RemoveColumns) == (if BandColumns(es, HighBand) != [] then 1 else 0)
      && ActionCount(s, ImputeNumeric) == (if NumericColumns(t, low) != [] then 1 else 0)
      && ActionCount(s, ImputeCategorical) == (if NonNumericColumns(t, low) != [] then 1 else 0)
      && ActionCount(s, CarefulImputation) == (if BandColumns(es, MediumBand) != [] then 1 else 0)
  {
    var es := p.missingValues.byColumn;
    var high, low, medium := BandColumns(es, HighBand), BandColumns(es, LowBand), BandColumns(es, MediumBand);
    var numeric := NumericColumns(t, low);
    var categorical := ColumnsNotIn(low, numeric);
    LowSplitComplement(t, low);
    MissingPiecesCounts(high, numeric, categorical, medium);
  }

  /** The four missing-value pieces count each action once exactly when its column list is non-empty. */
  lemma MissingPiecesCounts(high: seq<string>, numeric: seq<string>, categorical: seq<string>, medium: seq<string>)
    ensures var s := Piece(high != [], High, RemoveColumns, high) + Piece(numeric != [], Medium, ImputeNumeric, numeric)
                   + Piece(categorical != [], Medium, ImputeCategorical, categorical) + Piece(medium != [], Medium, CarefulImputation, medium);
      && ActionCount(s, RemoveColumns) == (if high != [] then 1 else 0)
      && ActionCount(s, ImputeNumeric) == (if numeric != [] then 1 else 0)
      && ActionCount(s, ImputeCategorical) == (if categorical != [] then 1 else 0)
      && ActionCount(s, CarefulImputation) == (if medium != [] then 1 else 0)
  {
    FourPieces(high != [], High, RemoveColumns, high, numeric != [], Medium, ImputeNumeric, numeric,
               categorical != [], Medium, ImputeCategorical, categorical, medium != [], Medium, CarefulImputation, medium);
  }

  /** A missing-value record that is High exactly when it proposes removing columns. */
  predicate MissingKind(x: Suggestion) {
    && x.MissingValues?
    && x.action in {RemoveColumns, ImputeNumeric, ImputeCategorical, CarefulImputation}
    && (x.priority == High <==> x.action == RemoveColumns)
  }

  lemma PieceKind(cond: bool, p: Priority, a: Action, cols: seq<string>)
    requires a in {RemoveColumns, ImputeNumeric, ImputeCategorical, CarefulImputation}
    requires p == High <==> a == RemoveColumns
    ensures forall k :: 0 <= k < |Piece(cond, p, a, cols)| ==> MissingKind(Piece(cond, p, a, cols)[k])
  {
  }

  lemma AppendKind(s: seq<Suggestion>, u: seq<Suggestion>)
    requires forall k :: 0 <= k < |s| ==> MissingKind(s[k])
    requires forall k :: 0 <= k < |u| ==> MissingKind(u[k])
    ensures forall k :: 0 <= k < |s + u| ==> MissingKind((s + u)[k])
  {
  }

  /** Every missing-value record is High exactly when it proposes removing columns. */
  lemma MissingSuggestionKinds(t: Table, p: Profile)
    ensures var s := MissingSuggestions(t, p); forall k :: 0 <= k < |s| ==> MissingKind(s[k])
  {
    if p.missingValues.totalMissing > 0 {
      var es := p.missingValues.byColumn;
      var high, low, medium := BandColumns(es, HighBand), BandColumns(es, LowBand), BandColumns(es, MediumBand);
      var numeric := NumericColumns(t, low);
      var categorical := ColumnsNotIn(low, numeric);
      var a := Piece(high != [], High, RemoveColumns, high);
      var b := Piece(numeric != [], Medium, ImputeNumeric, numeric);
      var c := Piece(categorical != [], Medium, ImputeCategorical, categorical);
      var d := Piece(medium != [], Medium, CarefulImputation, medium);
      assert MissingSuggestions(t, p) == a + b + c + d;
      PieceKind(high != [], High, RemoveColumns, high);
      PieceKind(numeric != [], Medium, ImputeNumeric, numeric);
      PieceKind(categorical != [], Medium, ImputeCategorical, categorical);
      PieceKind(medium != [], Medium, CarefulImputation, medium);
      AppendKind(a, b);
      AppendKind(a + b, c);
      AppendKind(a + b + c, d);
    }
  }

  /** An empty or one-record list counts its record's action once. */
  lemma ActionCountAtMostOne(s: seq<Suggestion>, a: Action)
    requires |s| <= 1
    ensures ActionCount(s, a) == if s != [] && s[0].action == a then 1 else 0
  {
    if s != [] {
      assert s[..0] == [];
    }
  }

  /** Two optional records with different actions count once each when present. */
  lemma TwoRecordCounts(x: seq<Suggestion>, y: seq<Suggestion>, a: Action, b: Action)
    requires |x| <= 1 && |y| <= 1 && a != b
    requires x != [] ==> x[0].action == a
    requires y != [] ==> y[0].action == b
    ensures ActionCount(x + y, a) == |x|
    ensures ActionCount(x + y, b) == |y|
  {
    ActionCountAppend(x, y, a);
    ActionCountAppend(x, y, b);
    ActionCountAtMostOne(x, a);
    ActionCountAtMostOne(x, b);
    ActionCountAtMostOne(y, a);
    ActionCountAtMostOne(y, b);
  }

  lemma {:induction false} ActionCountAppend(s: seq<Suggestion>, u: seq<Suggestion>, a: Action)
    ensures ActionCount(s + u, a) == ActionCount(s, a) + ActionCount(u, a)
  {
    if u != [] {
      ActionCountAppend(s, u[..|u| - 1], a);
      assert (s + u)[..|s + u| - 1] == s + u[..|u| - 1];
    } else {
      assert s + u == s;
    }
  }

  // ---------------------------------------------------------------------
  // Duplicates

  /** Over 5% is High, over 1% Medium, anything else Low. */
  function DuplicatePriority(percentage: real): (q: Priority)
    ensures q == High <==> percentage > 5.0
    ensures q == Medium <==> 1.0 < percentage <= 5.0
    ensures q == Low <==> percentage <= 1.0
  {
    if percentage > 5.0 then High else if percentage > 1.0 then Medium else Low
  }

  /** `_suggest_duplicate_handling`: one record exactly when some row is a duplicate. */
  function SuggestDuplicateHandling(p: Profile): (s: seq<Suggestion>)
    ensures |s| == if p.duplicates.count > 0 then 1 else 0
    ensures |s| == 1 ==> && s[0].Duplicates? && s[0].action == RemoveDuplicates
                         && s[0].count == p.duplicates.count
                         && s[0].priority == DuplicatePriority(p.duplicates.percentage)
  {
    if p.duplicates.count > 0 then
      [Duplicates(DuplicatePriority(p.duplicates.percentage), RemoveDuplicates, p.duplicates.count)]
    else []
  }

  // ---------------------------------------------------------------------
  // Outliers

  predicate HighOutlier(e: OutlierEntry) {
    e.percentage / 100.0 > OutlierThreshold
  }

  /** The outlier columns over 5% (`high`) or at most 5% (`!high`), in report order. */
  function OutlierColumns(es: seq<OutlierEntry>, high: bool): seq<string> {
    if es == [] then []
    else
      var last := es[|es| - 1];
      OutlierColumns(es[..|es| - 1], high) + (if HighOutlier(last) == high then [last.column] else [])
  }

  function OutlierNames(es: seq<OutlierEntry>): seq<string> {
    if es == [] then [] else OutlierNames(es[..|es| - 1]) + [es[|es| - 1].column]
  }

  /** The handle record is Medium, the review record Low. */
  predicate OutlierKind(x: Suggestion) {
    && x.Outliers?
    && (x.priority == Medium <==> x.action == HandleOutliers)
    && (x.priority == Low <==> x.action == ReviewOutliers)
  }

  /** The handle record for the high columns, then the review record for the moderate ones, each only when its list is non-empty. */
  function OutlierRecords(high: seq<string>, moderate: seq<string>): (s: seq<Suggestion>)
    ensures |s| <= 2
    ensures forall k :: 0 <= k < |s| ==> OutlierKind(s[k])
    ensures forall k :: 0 <= k < |s| ==> s[k].Outliers? && s[k].columns != [] && s[k].columns == (if s[k].action == HandleOutliers then high else moderate)
    ensures ActionCount(s, HandleOutliers) == if high != [] then 1 else 0
    ensures ActionCount(s, ReviewOutliers) == if moderate != [] then 1 else 0
  {
    var handle := if high != [] then [Outliers(Medium, HandleOutliers, high)] else [];
    var review := if moderate != [] then [Outliers(Low, ReviewOutliers, moderate)] else [];
    TwoRecordCounts(handle, review, HandleOutliers, ReviewOutliers);
    handle + review
  }

  /** `_suggest_outlier_handling`: at most one record of each kind. */
  function OutlierSuggestions(p: Profile): (s: seq<Suggestion>)
    ensures |s| <= 2
    ensures forall k :: 0 <= k < |s| ==> OutlierKind(s[k])
    ensures forall k :: 0 <= k < |s| ==> s[k].Outliers? && s[k].columns != [] && s[k].columns == (if s[k].action == HandleOutliers then OutlierColumns(p.outliers, true) else OutlierColumns(p.outliers, false))
    ensures ActionCount(s, HandleOutliers) == if OutlierColumns(p.outliers, true) != [] then 1 else 0
    ensures ActionCount(s, ReviewOutliers) == if OutlierColumns(p.outliers, false) != [] then 1 else 0
  {
    var es := p.outliers;
    if es == [] then []
    else OutlierRecords(OutlierColumns(es, true), OutlierColumns(es, false))
  }

  method SuggestOutlierHandling(p: Profile) returns (s: seq<Suggestion>)
    ensures s == OutlierSuggestions(p)
  {
    s := [];
    var es := p.outliers;
    if es == [] {
      return;
    }
    var high, moderate := [], [];
    for k := 0 to |es|
      invariant high == OutlierColumns(es[..k], true)
      invariant moderate == OutlierColumns(es[..k], false)
    {
      assert es[..k + 1][..k] == es[..k];
      var percentage := es[k].percentage / 100.0;
      if percentage > OutlierThreshold {
        high := high + [es[k].column];
      } else {
        moderate := moderate + [es[k].column];
      }
    }
    assert es[..|es|] == es;
    if high != [] {
      s := s + [Outliers(Medium, HandleOutliers, high)];
    }
    if moderate != [] {
      s := s + [Outliers(Low, ReviewOutliers, moderate)];
    }
  }

  /** The two lists share out the reported columns: together they hold each as often as the report. */
  lemma {:induction false} OutlierColumnsPartition(es: seq<OutlierEntry>)
    ensures multiset(OutlierColumns(es, true)) + multiset(OutlierColumns(es, false)) == multiset(OutlierNames(es))
  {
    if es != [] {
      OutlierColumnsPartition(es[..|es| - 1]);
    }
  }

  /**
   * A column is in the handle list exactly when over 5% of its rows are
   * outliers, and in the review list exactly when at most 5% are.
   */
  lemma {:induction false} OutlierColumnsExact(es: seq<OutlierEntry>, high: bool)
    ensures forall n :: n in OutlierColumns(es, high) <==> exists k :: 0 <= k < |es| && es[k].column == n && HighOutlier(es[k]) == high
  {
    if es != [] {
      var init := es[..|es| - 1];
      OutlierColumnsExact(init, high);
      assert forall k :: 0 <= k < |init| ==> init[k] == es[k];
    }
  }

  /** Some outlier record exists exactly when any column was reported. */
  lemma OutlierSuggestionPresent(p: Profile)
    ensures OutlierSuggestions(p) != [] <==> p.outliers != []
  {
    var es := p.outliers;
    if es != [] {
      OutlierColumnsPartition(es);
      var names := OutlierNames(es);
      assert names == OutlierNames(es[..|es| - 1]) + [es[|es| - 1].column];
      assert es[|es| - 1].column in multiset(names);
      assert OutlierColumns(es, true) != [] || OutlierColumns(es, false) != [];
    }
  }

  // ---------------------------------------------------------------------
  // Data types

  /** The columns with at least one type suggestion, in report order. */
  function OptimizableColumns(es: seq<TypeEntry>): seq<string> {
    if es == [] then []
    else
      var last := es[|es| - 1];
      OptimizableColumns(es[..|es| - 1]) + (if last.suggestions != [] then [last.column] else [])
  }

  /** `_suggest_data_type_optimization` */
  function TypeSuggestionRecords(p: Profile): seq<Suggestion> {
    var cols := OptimizableColumns(p.dataTypes);
    if cols != [] then [DataTypes(Low, OptimizeTypes, cols)] else []
  }

  method SuggestDataTypeOptimization(p: Profile) returns (s: seq<Suggestion>)
    ensures s == TypeSuggestionRecords(p)
  {
    var es := p.dataTypes;
    var cols := [];
    for k := 0 to |es|
      invariant cols == OptimizableColumns(es[..k])
    {
      assert es[..k + 1][..k] == es[..k];
      if es[k].suggestions != [] {
        cols := cols + [es[k].column];
      }
    }
    assert es[..|es|] == es;
    s := [];
    if cols != [] {
      s := s + [DataTypes(Low, OptimizeTypes, cols)];
    }
  }

  /** A column is listed for optimisation exactly when the profiler had a suggestion for it. */
  lemma {:induction false} OptimizableColumnsExact(es: seq<TypeEntry>)
    ensures forall n :: n in OptimizableColumns(es) <==> exists k :: 0 <= k < |es| && es[k].column == n && es[k].suggestions != []
  {
    if es != [] {
      var init := es[..|es| - 1];
      OptimizableColumnsExact(init);
      assert forall k :: 0 <= k < |init| ==> init[k] == es[k];
    }
  }

  // ---------------------------------------------------------------------
  // Categorical cleaning

  /** Columns with case variants (`byCase`) or edge whitespace (`!byCase`), in report order. */
  function IssueColumns(es: seq<CategoricalEntry>, byCase: bool): seq<string> {
    if es == [] then []
    else
      var last := es[|es| - 1];
      var hit := if byCase then last.caseIssues != [] else last.whitespaceIssue;
      IssueColumns(es[..|es| - 1], byCase) + (if hit then [last.column] else [])
  }

  /** The case record is Medium, the whitespace record Low. */
  predicate CategoricalKind(x: Suggestion) {
    && x.CategoricalCleaning?
    && (x.priority == Medium <==> x.action == StandardizeCase)
    && (x.priority == Low <==> x.action == StripWhitespace)
  }

  /** The case record, then the whitespace record, each only when its list is non-empty. */
  function CategoricalRecords(caseCols: seq<string>, spaceCols: seq<string>): (s: seq<Suggestion>)
    ensures |s| <= 2
    ensures forall k :: 0 <= k < |s| ==> CategoricalKind(s[k])
    ensures forall k :: 0 <= k < |s| ==> s[k].CategoricalCleaning? && s[k].columns != [] && s[k].columns == (if s[k].action == StandardizeCase then caseCols else spaceCols)
    ensures ActionCount(s, StandardizeCase) == if caseCols != [] then 1 else 0
    ensures ActionCount(s, StripWhitespace) == if spaceCols != [] then 1 else 0
  {
    var byCase := if caseCols != [] then [CategoricalCleaning(Medium, StandardizeCase, caseCols)] else [];
    var bySpace := if spaceCols != [] then [CategoricalCleaning(Low, StripWhitespace, spaceCols)] else [];
    TwoRecordCounts(byCase, bySpace, StandardizeCase, StripWhitespace);
    byCase + bySpace
  }

  /** `_suggest_categorical_cleaning`: at most one record of each kind. */
  function CategoricalSuggestions(p: Profile): (s: seq<Suggestion>)
    ensures |s| <= 2
    ensures forall k :: 0 <= k < |s| ==> CategoricalKind(s[k])
    ensures forall k :: 0 <= k < |s| ==> s[k].CategoricalCleaning? && s[k].columns != [] && s[k].columns == (if s[k].action == StandardizeCase then IssueColumns(p.categoricalIssues, true) else IssueColumns(p.categoricalIssues, false))
    ensures ActionCount(s, StandardizeCase) == if IssueColumns(p.categoricalIssues, true) != [] then 1 else 0
    ensures ActionCount(s, StripWhitespace) == if IssueColumns(p.categoricalIssues, false) != [] then 1 else 0
  {
    var es := p.categoricalIssues;
    if es == [] then []
    else CategoricalRecords(IssueColumns(es, true), IssueColumns(es, false))
  }

  method SuggestCategoricalCleaning(p: Profile) returns (s: seq<Suggestion>)
    ensures s == CategoricalSuggestions(p)
  {
    s := [];
    var es := p.categoricalIssues;
    if es == [] {
      return;
    }
    var caseCols, spaceCols := [], [];
    for k := 0 to |es|
      invariant caseCols == IssueColumns(es[..k], true)
      invariant spaceCols == IssueColumns(es[..k], false)
    {
      assert es[..k + 1][..k] == es[..k];
      if es[k].caseIssues != [] {
        caseCols := caseCols + [es[k].column];
      }
      if es[k].whitespaceIssue {
        spaceCols := spaceCols + [es[k].column];
      }
    }
    assert es[..|es|] == es;
    if caseCols != [] {
      s := s + [CategoricalCleaning(Medium, StandardizeCase, caseCols)];
    }
    if spaceCols != [] {
      s := s + [CategoricalCleaning(Low, StripWhitespace, spaceCols)];
    }
  }

  /**
   * The two lists are chosen independently: a column is in the case list
   * exactly when it has case variants and in the whitespace list exactly
   * when it has edge whitespace, so it can be in both.
   */
  lemma {:induction false} IssueColumnsExact(es: seq<CategoricalEntry>)
    ensures forall n :: n in IssueColumns(es, true) <==> exists k :: 0 <= k < |es| && es[k].column == n && es[k].caseIssues != []
    ensures forall n :: n in IssueColumns(es, false) <==> exists k :: 0 <= k < |es| && es[k].column == n && es[k].whitespaceIssue
  {
    if es != [] {
      var init := es[..|es| - 1];
      IssueColumnsExact(init);
      assert forall k :: 0 <= k < |init| ==> init[k] == es[k];
    }
  }

  // ---------------------------------------------------------------------
  // Ordering

  /** The records of priority `q`, in their original order. */
  function WithPriority(s: seq<Suggestion>, q: Priority): seq<Suggestion> {
    if s == [] then []
    else WithPriority(s[..|s| - 1], q) + (if s[|s| - 1].priority == q then [s[|s| - 1]] else [])
  }

  /**
   * `suggestions.sort(key=weight, reverse=True)`: Python's sort is stable,
   * so the High records come first, then Medium, then Low, each group in the
   * order the rules produced it.
   */
  function SortByPriority(s: seq<Suggestion>): seq<Suggestion> {
    WithPriority(s, High) + WithPriority(s, Medium) + WithPriority(s, Low)
  }

  predicate ByPriority(s: seq<Suggestion>) {
    forall i, j :: 0 <= i < j < |s| ==> Weight(s[i].priority) >= Weight(s[j].priority)
  }

  lemma {:induction false} WithPriorityOnly(s: seq<Suggestion>, q: Priority)
    ensures forall k :: 0 <= k < |WithPriority(s, q)| ==> WithPriority(s, q)[k].priority == q
  {
    if s != [] {
      WithPriorityOnly(s[..|s| - 1], q);
    }
  }

  lemma {:induction false} WithPriorityAppend(s: seq<Suggestion>, u: seq<Suggestion>, q: Priority)
    ensures WithPriority(s + u, q) == WithPriority(s, q) + WithPriority(u, q)
  {
    if u == [] {
      assert s + u == s;
    } else {
      WithPriorityAppend(s, u[..|u| - 1], q);
      assert (s + u)[..|s + u| - 1] == s + u[..|u| - 1];
    }
  }

  /** No record of priority `q` means an empty group. */
  lemma {:induction false} WithPriorityNone(s: seq<Suggestion>, q: Priority)
    requires forall k :: 0 <= k < |s| ==> s[k].priority != q
    ensures WithPriority(s, q) == []
  {
    if s != [] {
      WithPriorityNone(s[..|s| - 1], q);
    }
  }

  /** Picking a group twice changes nothing; picking another group of it gives nothing. */
  lemma WithPriorityIdem(s: seq<Suggestion>, q: Priority, q': Priority)
    ensures WithPriority(WithPriority(s, q), q') == if q == q' then WithPriority(s, q) else []
  {
    WithPriorityOnly(s, q);
    if q == q' {
      WithPriorityAll(WithPriority(s, q), q);
    } else {
      WithPriorityNone(WithPriority(s, q), q');
    }
  }

  lemma {:induction false} WithPriorityAll(s: seq<Suggestion>, q: Priority)
    requires forall k :: 0 <= k < |s| ==> s[k].priority == q
    ensures WithPriority(s, q) == s
  {
    if s != [] {
      WithPriorityAll(s[..|s| - 1], q);
      assert s == s[..|s| - 1] + [s[|s| - 1]];
    }
  }

  lemma {:induction false} GroupsPermutation(s: seq<Suggestion>)
    ensures multiset(SortByPriority(s)) == multiset(s)
  {
    if s != [] {
      var init, x := s[..|s| - 1], s[|s| - 1];
      GroupsPermutation(init);
      assert s == init + [x];
      var h, m, l := WithPriority(init, High), WithPriority(init, Medium), WithPriority(init, Low);
      var h', m', l' := WithPriority(s, High), WithPriority(s, Medium), WithPriority(s, Low);
      assert multiset(init) == multiset(h) + multiset(m) + multiset(l) by {
        assert SortByPriority(init) == h + m + l;
      }
      GroupSnocMultiset(init, x, High);
      GroupSnocMultiset(init, x, Medium);
      GroupSnocMultiset(init, x, Low);
      assert multiset(SortByPriority(s)) == multiset(h') + multiset(m') + multiset(l') by {
        assert SortByPriority(s) == h' + m' + l';
      }
    }
  }

  /** Appending one record adds it to its own group's multiset and to no other. */
  lemma GroupSnocMultiset(init: seq<Suggestion>, x: Suggestion, q: Priority)
    ensures multiset(WithPriority(init + [x], q))
      == multiset(WithPriority(init, q)) + (if x.priority == q then multiset{x} else multiset{})
  {
    var s := init + [x];
    assert s[..|s| - 1] == init;
  }

  /** The three groups laid end to end are ordered by weight. */
  lemma SortByPriorityOrdered(s: seq<Suggestion>)
    ensures ByPriority(SortByPriority(s))
  {
    var h, m, l := WithPriority(s, High), WithPriority(s, Medium), WithPriority(s, Low);
    WithPriorityOnly(s, High);
    WithPriorityOnly(s, Medium);
    WithPriorityOnly(s, Low);
    var r := h + m + l;
    forall i, j | 0 <= i < j < |r| ensures Weight(r[i].priority) >= Weight(r[j].priority) {
      if i < |h| {
      } else if i < |h| + |m| {
        assert r[i] == m[i - |h|];
        assert j >= |h| + |m| ==> r[j] == l[j - |h| - |m|];
      } else {
        assert r[i] == l[i - |h| - |m|] && r[j] == l[j - |h| - |m|];
      }
    }
  }

  /** Picking one priority group out of the sorted records gives that group of the input. */
  lemma SortByPriorityStable(s: seq<Suggestion>, q: Priority)
    ensures WithPriority(SortByPriority(s), q) == WithPriority(s, q)
  {
    var h, m, l := WithPriority(s, High), WithPriority(s, Medium), WithPriority(s, Low);
    WithPriorityAppend(h, m, q);
    WithPriorityAppend(h + m, l, q);
    WithPriorityIdem(s, High, q);
    WithPriorityIdem(s, Medium, q);
    WithPriorityIdem(s, Low, q);
    assert WithPriority(SortByPriority(s), q)
      == WithPriority(h, q) + WithPriority(m, q) + WithPriority(l, q);
    match q {
      case High => assert WithPriority(h, q) + [] + [] == h;
      case Medium => assert [] + WithPriority(m, q) + [] == m;
      case Low => assert [] + [] + WithPriority(l, q) == l;
    }
  }

  /**
   * The sort is a permutation, orders the records by non-increasing weight,
   * and is stable: every priority group keeps its relative order.
   */
  lemma SortByPriorityCorrect(s: seq<Suggestion>)
    ensures multiset(SortByPriority(s)) == multiset(s)
    ensures ByPriority(SortByPriority(s))
    ensures forall q :: WithPriority(SortByPriority(s), q) == WithPriority(s, q)
  {
    GroupsPermutation(s);
    SortByPriorityOrdered(s);
    forall q ensures WithPriority(SortByPriority(s), q) == WithPriority(s, q) {
      SortByPriorityStable(s, q);
    }
  }

  /** The prefix of an ordered sequence is ordered, and its last record weighs least. */
  lemma ByPrioritySplit(r: seq<Suggestion>)
    requires r != [] && ByPriority(r)
    ensures ByPriority(r[..|r| - 1])
    ensures forall k :: 0 <= k < |r| - 1 ==> Weight(r[k].priority) >= Weight(r[|r| - 1].priority)
  {
  }

  /** Appending a record no heavier than all before it adds it to its group's end. */
  lemma {:induction false} GroupedSnoc(init: seq<Suggestion>, x: Suggestion)
    requires init == SortByPriority(init)
    requires forall k :: 0 <= k < |init| ==> Weight(init[k].priority) >= Weight(x.priority)
    ensures init + [x] == SortByPriority(init + [x])
  {
    var r := init + [x];
    assert r[..|r| - 1] == init;
    var h, m, l := WithPriority(init, High), WithPriority(init, Medium), WithPriority(init, Low);
    match x.priority
    case Low =>
      assert WithPriority(r, High) == h && WithPriority(r, Medium) == m && WithPriority(r, Low) == l + [x];
    case Medium =>
      WithPriorityNone(init, Low);
      assert WithPriority(r, High) == h && WithPriority(r, Medium) == m + [x] && WithPriority(r, Low) == l;
    case High =>
      WithPriorityNone(init, Low);
      WithPriorityNone(init, Medium);
      assert WithPriority(r, High) == h + [x] && WithPriority(r, Medium) == m && WithPriority(r, Low) == l;
  }

  /** A sequence ordered by weight is its three groups laid end to end. */
  lemma {:induction false} OrderedIsGrouped(r: seq<Suggestion>)
    requires ByPriority(r)
    ensures r == SortByPriority(r)
  {
    if r != [] {
      var init, x := r[..|r| - 1], r[|r| - 1];
      ByPrioritySplit(r);
      OrderedIsGrouped(init);
      GroupedSnoc(init, x);
      assert r == init + [x];
    }
  }

  /**
   * The sort is the only stable ordering by weight: any arrangement that is
   * ordered by weight and keeps every group's order equals it.
   */
  lemma StableSortUnique(s: seq<Suggestion>, r: seq<Suggestion>)
    requires ByPriority(r)
    requires forall q :: WithPriority(r, q) == WithPriority(s, q)
    ensures r == SortByPriority(s)
  {
    OrderedIsGrouped(r);
  }

  // ---------------------------------------------------------------------
  // Engine

  /** The records of the five rules, in rule order, before sorting. */
  function AllSuggestions(t: Table, p: Profile): seq<Suggestion> {
    MissingSuggestions(t, p) + SuggestDuplicateHandling(p) + OutlierSuggestions(p)
    + TypeSuggestionRecords(p) + CategoricalSuggestions(p)
  }

  /** `generate_suggestions` */
  method GenerateSuggestions(t: Table, p: Profile) returns (s: seq<Suggestion>)
    requires MissingColumnsExist(t, p)
    ensures s == SortByPriority(AllSuggestions(t, p))
  {
    var missing := SuggestMissingValuesHandling(t, p);
    var outliers := SuggestOutlierHandling(p);
    var types := SuggestDataTypeOptimization(p);
    var categorical := SuggestCategoricalCleaning(p);
    var all := missing + SuggestDuplicateHandling(p) + outliers + types + categorical;
    s := SortByPriority(all);
  }
}
