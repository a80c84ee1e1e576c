/**
 * ReportGenerator: the quality score of a table and the before/after
 * report built from two tables, the cleaner's report and two memory sizes.
 */
module Report {
  import opened Wrappers
  import opened DataTable

  /** `max(0, min(100, x))` */
  function Clamp(x: real): (r: real)
    ensures 0.0 <= r <= 100.0
    ensures 0.0 <= x <= 100.0 ==> r == x
  {
    if x < 0.0 then 0.0 else if x > 100.0 then 100.0 else x
  }

  /** Every row is at most one duplicate. */
  lemma DuplicateCountBound(t: Table)
    requires Valid(t)
    ensures DuplicateCount(t) <= t.rows
  {
    KeptPlusDuplicates(t, t.rows);
  }

  /**
   * `_calculate_quality_score`: 100 less the percentage of missing cells
   * and less ten times the share of duplicate rows, clamped to [0, 100];
   * an empty table scores 0.
   */
  function QualityScore(t: Table): (score: real)
    requires Valid(t)
    ensures 0.0 <= score <= 100.0
    ensures IsEmpty(t) ==> score == 0.0
  {
    if IsEmpty(t) then 0.0
    else
      var totalCells := t.rows * |t.cols|;
      var missingPenalty := Percentage(TotalNulls(t.cols), totalCells);
      var duplicatePenalty := if t.rows > 0 then (DuplicateCount(t) as real / t.rows as real) * 10.0 else 0.0;
      Clamp(100.0 - missingPenalty - duplicatePenalty)
  }

  lemma PenaltiesNonNegative(count: nat, rows: nat)
    ensures Percentage(count, rows) >= 0.0
    ensures rows > 0 ==> (count as real / rows as real) * 10.0 >= 0.0
    ensures rows > 0 ==> (count as real / rows as real * 10.0 == 0.0 <==> count == 0)
    ensures Percentage(count, rows) == 0.0 <==> count == 0 || rows == 0
  {
  }

  /** A non-empty table scores 100 exactly when it has no null cell and no duplicate row. */
  lemma QualityScorePerfect(t: Table)
    requires Valid(t) && !IsEmpty(t)
    ensures QualityScore(t) == 100.0 <==> TotalNulls(t.cols) == 0 && DuplicateCount(t) == 0
  {
    PenaltiesNonNegative(TotalNulls(t.cols), t.rows * |t.cols|);
    PenaltiesNonNegative(DuplicateCount(t), t.rows);
  }

  /** Duplicates alone never cost more than 10 points. */
  lemma QualityScoreWithoutNulls(t: Table)
    requires Valid(t) && !IsEmpty(t) && TotalNulls(t.cols) == 0
    ensures 90.0 <= QualityScore(t)
  {
    DuplicateCountBound(t);
    var share := DuplicateCount(t) as real / t.rows as real;
    assert share <= 1.0;
  }

  /** The keys `generate_report` reads from the cleaning report; `None` is an absent key. */
  datatype CleaningReport = CleaningReport(
    missingValuesHandled: Option<int>,
    duplicatesRemoved: Option<int>,
    outliersHandled: Option<int>,
    operationsPerformed: Option<seq<string>>,
    operations: Option<seq<string>>)

  datatype Shape = Shape(rows: nat, cols: nat)

  datatype QualityImprovement = QualityImprovement(originalScore: real, finalScore: real, improvement: real)

  datatype MemoryReduction = MemoryReduction(originalMb: real, finalMb: real, reductionPercent: real)

  datatype Report = Report(
    timestamp: string,
    originalShape: Shape,
    finalShape: Shape,
    rowsRemoved: int,
    columnsRemoved: int,
    missingValuesHandled: int,
    duplicatesRemoved: int,
    outliersHandled: int,
    operationsPerformed: seq<string>,
    quality: QualityImprovement,
    memory: MemoryReduction)

  /** `dict.get(key, 0)` */
  function OrZero(v: Option<int>): int {
    if v.Some? then v.value else 0
  }

  /** `get("operations_performed", get("operations", []))` */
  function Operations(cr: CleaningReport): seq<string> {
    if cr.operationsPerformed.Some? then cr.operationsPerformed.value
    else if cr.operations.Some? then cr.operations.value
    else []
  }

  /** Bytes to mebibytes. */
  function Mebibytes(bytes: nat): real {
    bytes as real / 1048576.0
  }

  /** `(orig - final) / orig * 100`, and 0 when the original size is 0. */
  function ReductionPercent(originalMb: real, finalMb: real): real {
    if originalMb > 0.0 then ((originalMb - finalMb) / originalMb) * 100.0 else 0.0
  }

  /** A reduction is never more than 100%, and is negative exactly when the table grew. */
  lemma ReductionRange(originalBytes: nat, finalBytes: nat)
    ensures var p := ReductionPercent(Mebibytes(originalBytes), Mebibytes(finalBytes));
      && p <= 100.0
      && (originalBytes == 0 ==> p == 0.0)
      && (originalBytes > 0 ==> (p < 0.0 <==> finalBytes > originalBytes))
  {
    var o, f := Mebibytes(originalBytes), Mebibytes(finalBytes);
    if originalBytes > 0 {
      assert o > 0.0;
      var q := (o - f) / o;
      assert q * o == o - f;
      assert q <= 1.0;
      assert q < 0.0 <==> f > o;
    }
  }

  /**
   * `generate_report`.  The clock reading and both memory footprints are
   * measured outside and passed in.
   */
  function GenerateReport(original: Table, cleaned: Table, cr: CleaningReport,
                          originalBytes: nat, finalBytes: nat, timestamp: string): (r: Report)
    requires Valid(original) && Valid(cleaned)
    ensures r.originalShape == Shape(original.rows, |original.cols|)
    ensures r.finalShape == Shape(cleaned.rows, |cleaned.cols|)
    ensures r.rowsRemoved + cleaned.rows == original.rows
    ensures r.columnsRemoved + |cleaned.cols| == |original.cols|
    ensures r.quality.originalScore == QualityScore(original) && r.quality.finalScore == QualityScore(cleaned)
    ensures r.quality.originalScore + r.quality.improvement == r.quality.finalScore
    ensures -100.0 <= r.quality.improvement <= 100.0
    ensures r.memory.originalMb == Mebibytes(originalBytes) && r.memory.finalMb == Mebibytes(finalBytes)
    ensures originalBytes > 0 ==> r.memory.reductionPercent == (r.memory.originalMb - r.memory.finalMb) / r.memory.originalMb * 100.0
    ensures r.memory.reductionPercent <= 100.0
    ensures originalBytes == 0 ==> r.memory.reductionPercent == 0.0
    ensures r.missingValuesHandled == OrZero(cr.missingValuesHandled)
    ensures r.duplicatesRemoved == OrZero(cr.duplicatesRemoved)
    ensures r.outliersHandled == OrZero(cr.outliersHandled)
    ensures cr.missingValuesHandled.Some? ==> r.missingValuesHandled == cr.missingValuesHandled.value
    ensures cr.duplicatesRemoved.Some? ==> r.duplicatesRemoved == cr.duplicatesRemoved.value
    ensures cr.outliersHandled.Some? ==> r.outliersHandled == cr.outliersHandled.value
    ensures cr.operationsPerformed.Some? ==> r.operationsPerformed == cr.operationsPerformed.value
    ensures cr.operationsPerformed.None? && cr.operations.Some? ==> r.operationsPerformed == cr.operations.value
    ensures cr.operationsPerformed.None? && cr.operations.None? ==> r.operationsPerformed == []
    ensures r.timestamp == timestamp
  {
    var originalQuality := QualityScore(original);
    var finalQuality := QualityScore(cleaned);
    var originalMb := Mebibytes(originalBytes);
    var finalMb := Mebibytes(finalBytes);
    ReductionRange(originalBytes, finalBytes);
    Report(
      timestamp,
      Shape(original.rows, |original.cols|),
      Shape(cleaned.rows, |cleaned.cols|),
      original.rows - cleaned.rows,
      |original.cols| - |cleaned.cols|,
      OrZero(cr.missingValuesHandled),
      OrZero(cr.duplicatesRemoved),
      OrZero(cr.outliersHandled),
      Operations(cr),
      QualityImprovement(originalQuality, finalQuality, finalQuality - originalQuality),
      MemoryReduction(originalMb, finalMb, ReductionPercent(originalMb, finalMb)))
  }

  /**
   * Fed the cleaner's own report, which holds only "operations", the report
   * lists those operations and shows every counter as 0; fed a report with
   * none of the keys it reads, like the application's `{"rows_removed": n}`,
   * it lists no operation.
   */
  lemma ReportOfCleanerLog(original: Table, cleaned: Table, log: seq<string>,
                           originalBytes: nat, finalBytes: nat, timestamp: string)
    requires Valid(original) && Valid(cleaned)
    ensures var r := GenerateReport(original, cleaned, CleaningReport(None, None, None, None, Some(log)),
                                    originalBytes, finalBytes, timestamp);
      r.operationsPerformed == log && r.missingValuesHandled == 0 && r.duplicatesRemoved == 0 && r.outliersHandled == 0
    ensures var r := GenerateReport(original, cleaned, CleaningReport(None, None, None, None, None),
                                    originalBytes, finalBytes, timestamp);
      r.operationsPerformed == [] && r.missingValuesHandled == 0 && r.duplicatesRemoved == 0 && r.outliersHandled == 0
  {
  }
}
