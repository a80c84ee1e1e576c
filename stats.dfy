/**
 * The order statistics pandas computes for the pipeline: sorting the non-null
 * values of a column and taking numpy's linear-interpolation quantile
 * (`Series.quantile`, `Series.median`).
 */
module Stats {

  predicate Sorted(s: seq<real>) {
    forall i, j :: 0 <= i <= j < |s| ==> s[i] <= s[j]
  }

  function Insert(x: real, s: seq<real>): (r: seq<real>)
    requires Sorted(s)
    ensures Sorted(r)
    ensures multiset(r) == multiset(s) + multiset{x}
    ensures |r| == |s| + 1
    ensures r[0] == if s != [] && s[0] < x then s[0] else x
  {
    if s == [] || x <= s[0] then [x] + s
    else
      var rest := Insert(x, s[1..]);
      assert s == [s[0]] + s[1..];
      assert s[0] <= rest[0];
      [s[0]] + rest
  }

  /** The values in ascending order. */
  function Sort(s: seq<real>): (r: seq<real>)
    ensures Sorted(r)
    ensures multiset(r) == multiset(s)
    ensures |r| == |s|
  {
    if s == [] then []
    else
      assert s == s[..|s| - 1] + [s[|s| - 1]];
      Insert(s[|s| - 1], Sort(s[..|s| - 1]))
  }

  /** `a + (r/4)·(b − a)`: the interpolation numpy performs, for a fraction of r quarters. */
  function Lerp(a: real, b: real, r: nat): (v: real)
    requires r < 4
    ensures a <= b ==> a <= v <= b
  {
    if r == 0 then a
    else if r == 1 then a + (b - a) / 4.0
    else if r == 2 then a + (b - a) / 2.0
    else a + 3.0 * (b - a) / 4.0
  }

  /** The interpolation position (n - 1)·k/4 scaled by 4, for k quarters. */
  function Position(n: nat, k: nat): (h: nat)
    requires 0 < n && 1 <= k <= 3
    ensures h / 4 < n
  {
    var m := n - 1;
    if k == 1 then m else if k == 2 then m + m else m + m + m
  }

  /**
   * numpy's 'linear' quantile at k/4 of a sorted sequence: the position
   * (n - 1)·k/4 splits into an index and a fraction, and the value is
   * interpolated between that element and the next.
   */
  function Quantile(s: seq<real>, k: nat): real
    requires |s| > 0 && 1 <= k <= 3
  {
    var h := Position(|s|, k);
    var i := h / 4;
    if i + 1 < |s| then Lerp(s[i], s[i + 1], h % 4) else s[i]
  }

  /** The quantile lies between the element at index ⌊(n-1)k/4⌋ and the next one. */
  lemma QuantileBetween(s: seq<real>, k: nat)
    requires Sorted(s) && |s| > 0 && 1 <= k <= 3
    ensures var i := Position(|s|, k) / 4;
      && s[i] <= Quantile(s, k)
      && Quantile(s, k) <= s[if i + 1 < |s| then i + 1 else i]
  {
  }

  /** A quantile at a larger fraction is never smaller: in particular Q1 <= median <= Q3. */
  lemma QuantileMonotone(s: seq<real>, k1: nat, k2: nat)
    requires Sorted(s) && |s| > 0 && 1 <= k1 <= k2 <= 3
    ensures Quantile(s, k1) <= Quantile(s, k2)
  {
    var h1, h2 := Position(|s|, k1), Position(|s|, k2);
    var i1, i2 := h1 / 4, h2 / 4;
    QuantileBetween(s, k1);
    QuantileBetween(s, k2);
    if i1 < i2 {
      assert s[i1 + 1] <= s[i2];
    } else {
      assert h1 % 4 <= h2 % 4;
    }
  }

  /** pandas' `median` is the 0.5 quantile. */
  function Median(s: seq<real>): real
    requires |s| > 0
  {
    Quantile(Sort(s), 2)
  }

  lemma HalfQuantileBetweenMiddles(v: seq<real>)
    requires Sorted(v) && |v| > 0
    ensures v[(|v| - 1) / 2] <= Quantile(v, 2) <= v[|v| / 2]
  {
    var n := |v|;
    var h := Position(n, 2);
    QuantileBetween(v, 2);
    if n % 2 == 1 {
      assert h % 4 == 0 && h / 4 == (n - 1) / 2 == n / 2;
    } else {
      assert h / 4 == (n - 1) / 2 && h / 4 + 1 == n / 2;
    }
  }

  /** The 0.5 quantile is the mean of the two middle elements (one and the same for an odd count). */
  lemma HalfQuantileMiddle(v: seq<real>)
    requires |v| > 0
    ensures Quantile(v, 2) == (v[(|v| - 1) / 2] + v[|v| / 2]) / 2.0
  {
    var n := |v|;
    var h := Position(n, 2);
    assert h == 2 * (n - 1);
    if n % 2 == 1 {
      assert h % 4 == 0 && h / 4 == (n - 1) / 2 == n / 2;
    } else {
      assert h % 4 == 2 && h / 4 == (n - 1) / 2 && h / 4 + 1 == n / 2;
    }
  }

  /**
   * pandas' median: the middle value of the sorted values for an odd count,
   * and the mean of the two middle values for an even count.
   */
  lemma MedianOfMiddles(s: seq<real>)
    requires |s| > 0
    ensures var v := Sort(s);
      && (|s| % 2 == 1 ==> Median(s) == v[|s| / 2])
      && (|s| % 2 == 0 ==> Median(s) == (v[|s| / 2 - 1] + v[|s| / 2]) / 2.0)
  {
    HalfQuantileMiddle(Sort(s));
  }

  /**
   * The median lies between the two middle order statistics: it is the middle
   * value for an odd count and lies between the two middle values otherwise.
   */
  lemma MedianBetweenMiddles(s: seq<real>)
    requires |s| > 0
    ensures var v := Sort(s);
      v[(|s| - 1) / 2] <= Median(s) <= v[|s| / 2]
  {
    HalfQuantileBetweenMiddles(Sort(s));
  }
}
