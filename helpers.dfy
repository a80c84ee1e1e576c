/**
 * The small utilities in `helpers`: thousands separators, the stand-alone
 * quality score, and the sample-size estimate.
 */
module Helpers {
  import opened Wrappers
  import opened DataTable
  import opened Text
  import Report

  /** Commas between groups of three digits, counted from the right. */
  function Group3(d: string): string {
    if |d| <= 3 then d else Group3(d[..|d| - 3]) + "," + d[|d| - 3..]
  }

  /** `f"{n:,}"` for an integer. */
  function FormatNumber(n: int): string {
    if n < 0 then "-" + Group3(NatToString(-n)) else Group3(NatToString(n))
  }

  function RemoveCommas(s: string): string {
    if s == [] then [] else (if s[0] == ',' then [] else [s[0]]) + RemoveCommas(s[1..])
  }

  lemma {:induction false} RemoveCommasAppend(a: string, b: string)
    ensures RemoveCommas(a + b) == RemoveCommas(a) + RemoveCommas(b)
  {
    if a == [] {
      assert a + b == b;
    } else {
      var ab := a + b;
      assert ab[0] == a[0] && ab[1..] == a[1..] + b;
      RemoveCommasAppend(a[1..], b);
      assert RemoveCommas(ab) == (if a[0] == ',' then [] else [a[0]]) + RemoveCommas(a[1..] + b);
    }
  }

  lemma {:induction false} RemoveCommasDigits(d: string)
    requires AllDigits(d)
    ensures RemoveCommas(d) == d
  {
    if d != [] {
      RemoveCommasDigits(d[1..]);
    }
  }

  lemma {:induction false} Group3RoundTrip(d: string)
    requires AllDigits(d)
    ensures RemoveCommas(Group3(d)) == d
  {
    if |d| > 3 {
      var hi, lo := d[..|d| - 3], d[|d| - 3..];
      var g := Group3(hi);
      Group3RoundTrip(hi);
      RemoveCommasDigits(lo);
      calc {
        RemoveCommas(Group3(d));
        RemoveCommas(g + "," + lo);
        { RemoveCommasAppend(g + ",", lo); }
        RemoveCommas(g + ",") + RemoveCommas(lo);
        { RemoveCommasAppend(g, ","); assert RemoveCommas(",") == []; }
        hi + lo;
        { assert hi + lo == d; }
        d;
      }
    } else {
      RemoveCommasDigits(d);
    }
  }

  /**
   * Deleting the separators gives back the plain decimal rendering, an
   * optional minus sign followed by the digits of the magnitude.
   */
  lemma FormatNumberRoundTrip(n: int)
    ensures RemoveCommas(FormatNumber(n)) == IntToString(n)
    ensures var m := if n < 0 then -n else n;
      IntToString(n) == (if n < 0 then "-" else "") + NatToString(m) && DigitsValue(NatToString(m)) == m
  {
    NatToStringValue(if n < 0 then -n else n);
    if n < 0 {
      Group3RoundTrip(NatToString(-n));
      RemoveCommasAppend("-", Group3(NatToString(-n)));
    } else {
      Group3RoundTrip(NatToString(n));
    }
  }

  /**
   * A comma sits exactly every fourth place from the right, everything else
   * is a digit, and the length is never a multiple of four: the leading
   * group has one to three digits and every later group exactly three.
   */
  lemma {:induction false} Group3Shape(d: string)
    requires d != [] && AllDigits(d)
    ensures var r := Group3(d);
      && |r| % 4 != 0
      && forall i :: 0 <= i < |r| ==> (r[i] == ',' <==> (|r| - i) % 4 == 0) && (r[i] != ',' ==> '0' <= r[i] <= '9')
  {
    if |d| > 3 {
      var hi, lo := d[..|d| - 3], d[|d| - 3..];
      Group3Shape(hi);
      var g := Group3(hi);
      var r := g + "," + lo;
      assert Group3(d) == r;
      assert |r| == |g| + 4;
      forall i | 0 <= i < |r|
        ensures (r[i] == ',' <==> (|r| - i) % 4 == 0) && (r[i] != ',' ==> '0' <= r[i] <= '9')
      {
        if i < |g| {
          assert r[i] == g[i];
          assert ((|g| - i) + 4) % 4 == (|g| - i) % 4;
          assert |r| - i == (|g| - i) + 4;
        } else if i == |g| {
          assert r[i] == ',';
        } else {
          assert r[i] == lo[i - |g| - 1];
        }
      }
    }
  }

  lemma FormatNumberShape(n: int)
    ensures var g := Group3(NatToString(if n < 0 then -n else n));
      && FormatNumber(n) == (if n < 0 then "-" else "") + g
      && |g| % 4 != 0
      && forall i :: 0 <= i < |g| ==> (g[i] == ',' <==> (|g| - i) % 4 == 0) && (g[i] != ',' ==> '0' <= g[i] <= '9')
  {
    Group3Shape(NatToString(if n < 0 then -n else n));
  }

  /**
   * `get_data_quality_score`: the same score as the report generator's,
   * written here with both penalties summed before clamping.
   */
  function GetDataQualityScore(t: Table): (score: real)
    requires Valid(t)
    ensures score == Report.QualityScore(t)
    ensures 0.0 <= score <= 100.0
    ensures IsEmpty(t) ==> score == 0.0
  {
    if IsEmpty(t) then 0.0
    else
      var missing := TotalNulls(t.cols) as real / (t.rows * |t.cols|) as real;
      var duplicates := DuplicateCount(t) as real / t.rows as real;
      var penalty := missing * 100.0 + duplicates * 10.0;
      Report.PenaltiesNonNegative(TotalNulls(t.cols), t.rows * |t.cols|);
      Report.PenaltiesNonNegative(DuplicateCount(t), t.rows);
      if penalty > 100.0 then 0.0 else 100.0 - penalty
  }

  datatype SampleError = DivisionByZero

  /** Python's `int()` of a real: truncation toward zero. */
  function Truncate(x: real): int {
    if x >= 0.0 then x.Floor else -((-x).Floor)
  }

  /**
   * `suggest_sample_size`: all rows when the 8-bytes-a-cell estimate fits
   * the target, otherwise as many rows as fit, at most all of them.  With
   * no columns and a negative target the estimate divides by zero.
   */
  function SuggestSampleSize(rows: nat, cols: nat, targetMb: real): Result<int, SampleError> {
    var estimatedMb := (rows * cols * 8) as real / 1048576.0;
    if estimatedMb <= targetMb then Ok(rows)
    else if cols == 0 then Err(DivisionByZero)
    else
      var suggested := Truncate((targetMb * 1048576.0) / (cols * 8) as real);
      Ok(if suggested < rows then suggested else rows)
  }

  /** The estimate fits exactly when rows * cols * 8 bytes are within the target. */
  lemma SampleSizeFits(rows: nat, cols: nat, targetMb: real)
    requires (rows * cols * 8) as real <= targetMb * 1048576.0
    ensures SuggestSampleSize(rows, cols, targetMb) == Ok(rows)
  {
  }

  /**
   * When it does not fit and the target is not negative, the answer is the
   * largest row count below `rows` whose estimate fits.
   */
  lemma SampleSizeShrinks(rows: nat, cols: nat, targetMb: real)
    requires (rows * cols * 8) as real > targetMb * 1048576.0 && targetMb >= 0.0
    ensures SuggestSampleSize(rows, cols, targetMb).Ok?
    ensures var v := SuggestSampleSize(rows, cols, targetMb).value;
      && 0 <= v < rows
      && (v * cols * 8) as real <= targetMb * 1048576.0
      && ((v + 1) * cols * 8) as real > targetMb * 1048576.0
  {
    var budget := targetMb * 1048576.0;
    var cell := (cols * 8) as real;
    assert cols > 0;
    FloorQuotient(budget, cell);
    var f := (budget / cell).Floor;
    assert Truncate(budget / cell) == f;
    CastProduct(f, cols);
    CastProduct(f + 1, cols);
    CastProduct(rows, cols);
    assert f < rows by {
      if f >= rows {
        MultiplyMonotone(rows as real, f as real, cell);
      }
    }
    assert SuggestSampleSize(rows, cols, targetMb) == Ok(f);
  }

  /** The integer part of a non-negative quotient times the divisor stays within the dividend. */
  lemma FloorQuotient(budget: real, cell: real)
    requires budget >= 0.0 && cell > 0.0
    ensures 0 <= (budget / cell).Floor
    ensures (budget / cell).Floor as real * cell <= budget
    ensures budget < ((budget / cell).Floor + 1) as real * cell
  {
    var x := budget / cell;
    assert x * cell == budget;
    assert x >= 0.0 by {
      if x < 0.0 {
        MultiplyStrict(x, 0.0, cell);
      }
    }
    var f := x.Floor;
    assert f as real <= x < (f + 1) as real;
    MultiplyMonotone(f as real, x, cell);
    MultiplyStrict(x, (f + 1) as real, cell);
    assert budget < (f + 1) as real * cell;
  }

  /** Proof step for `SampleSizeShrinks`: the byte estimate as a product of reals. */
  lemma CastProduct(a: int, cols: nat)
    ensures (a * cols * 8) as real == a as real * (cols * 8) as real
  {
  }

  /** Proof step: multiplying by a positive real keeps order. */
  lemma MultiplyMonotone(a: real, b: real, c: real)
    requires a <= b && c > 0.0
    ensures a * c <= b * c
  {
  }

  /** Proof step: multiplying by a positive real keeps strict order. */
  lemma MultiplyStrict(a: real, b: real, c: real)
    requires a < b && c > 0.0
    ensures a * c < b * c
  {
  }
}
