/**
 * The numeric summary of `showStatsSummary` together with `calculateMedian`
 * and `calculateStd`. Numbers are exact reals; the standard deviation is
 * modelled by the population variance it is the square root of.
 */
module NumericStats {
  import opened Wrappers
  import opened JsValues

  // ---------------------------------------------------------------------------
  // Reductions
  // ---------------------------------------------------------------------------

  /** `values.reduce((a, b) => a + b, 0)`, folding from the left. */
  function Sum(s: seq<real>): real {
    if s == [] then 0.0 else Sum(s[..|s| - 1]) + s[|s| - 1]
  }

  /** `Math.min(...values)` */
  function Min(s: seq<real>): (m: real)
    requires |s| > 0
    ensures m in s
    ensures forall i :: 0 <= i < |s| ==> m <= s[i]
  {
    if |s| == 1 then s[0]
    else
      var rest := Min(s[1..]);
      assert forall i :: 1 <= i < |s| ==> s[i] == s[1..][i - 1];
      if s[0] <= rest then s[0] else rest
  }

  /** `Math.max(...values)` */
  function Max(s: seq<real>): (m: real)
    requires |s| > 0
    ensures m in s
    ensures forall i :: 0 <= i < |s| ==> s[i] <= m
  {
    if |s| == 1 then s[0]
    else
      var rest := Max(s[1..]);
      assert forall i :: 1 <= i < |s| ==> s[i] == s[1..][i - 1];
      if s[0] >= rest then s[0] else rest
  }

  /** The arithmetic mean, `sum / values.length`. */
  function Mean(s: seq<real>): (m: real)
    requires |s| > 0
    ensures m * |s| as real == Sum(s)
  {
    Sum(s) / |s| as real
  }

  lemma MulNonNeg(x: real, y: real)
    requires x >= 0.0 && y >= 0.0
    ensures x * y >= 0.0
  {
  }

  /** `Math.pow(d, 2)`, never negative. */
  function Sq(d: real): (r: real)
    ensures r >= 0.0
  {
    var a := if d >= 0.0 then d else -d;
    MulNonNeg(a, a);
    a * a
  }

  /** The sum of `Math.pow(val - avg, 2)` over the values. */
  function SquaredDeviations(s: seq<real>, avg: real): real {
    if s == [] then 0.0
    else SquaredDeviations(s[..|s| - 1], avg) + Sq(s[|s| - 1] - avg)
  }

  /** The square of `calculateStd`: squared deviations divided by N, not N - 1. */
  function Variance(s: seq<real>): (v: real)
    requires |s| > 0
    ensures v * |s| as real == SquaredDeviations(s, Mean(s))
  {
    SquaredDeviations(s, Mean(s)) / |s| as real
  }

  // ---------------------------------------------------------------------------
  // Sorting a copy and taking the middle
  // ---------------------------------------------------------------------------

  predicate SortedAsc(s: seq<real>) {
    forall i, j :: 0 <= i < j < |s| ==> s[i] <= s[j]
  }

  /** Prefixing an element no larger than the head keeps a sequence sorted. */
  lemma SortedCons(h: real, t: seq<real>)
    requires SortedAsc(t) && (t != [] ==> h <= t[0])
    ensures SortedAsc([h] + t)
  {
    var r := [h] + t;
    forall i, j | 0 <= i < j < |r| ensures r[i] <= r[j] {
      assert r[j] == t[j - 1];
      if i > 0 {
        assert r[i] == t[i - 1];
      }
    }
  }

  function InsertAsc(x: real, s: seq<real>): (r: seq<real>)
    requires SortedAsc(s)
    ensures SortedAsc(r)
    ensures multiset(r) == multiset(s) + multiset{x}
    ensures r[0] == x || (|s| > 0 && r[0] == s[0])
  {
    if s == [] || x <= s[0] then
      SortedCons(x, s);
      [x] + s
    else
      assert s == [s[0]] + s[1..];
      var tail := InsertAsc(x, s[1..]);
      SortedCons(s[0], tail);
      [s[0]] + tail
  }

  /** `values.slice().sort((a, b) => a - b)`: a sorted permutation; the
      argument itself is a value and stays as it was. */
  function SortAscending(s: seq<real>): (r: seq<real>)
    ensures SortedAsc(r)
    ensures multiset(r) == multiset(s)
    ensures |r| == |s|
  {
    if s == [] then []
    else
      assert s == [s[0]] + s[1..];
      var r := InsertAsc(s[0], SortAscending(s[1..]));
      assert |r| == |multiset(r)|;
      r
  }

  /** The middle element of a sorted sequence of odd length, the mean of the
      two middle ones for an even length. */
  function Middle(sorted: seq<real>): (m: real)
    requires |sorted| > 0 && SortedAsc(sorted)
    ensures sorted[0] <= m <= sorted[|sorted| - 1]
  {
    var mid := |sorted| / 2;
    if |sorted| % 2 == 1 then sorted[mid] else (sorted[mid - 1] + sorted[mid]) / 2.0
  }

  /** `calculateMedian`: the middle of the sorted copy. */
  function Median(values: seq<real>): (m: real)
    requires |values| > 0
    ensures Min(values) <= m <= Max(values)
  {
    var sorted := SortAscending(values);
    assert sorted[0] in multiset(values) && sorted[|sorted| - 1] in multiset(values);
    Middle(sorted)
  }

  /** Two sorted sequences with the same elements are equal. */
  lemma {:induction false} SortedUnique(a: seq<real>, b: seq<real>)
    requires SortedAsc(a) && SortedAsc(b)
    requires multiset(a) == multiset(b)
    ensures a == b
  {
    assert |b| == |multiset(b)| == |multiset(a)| == |a|;
    if a != [] {
      var a0, b0 := a[0], b[0];
      assert a0 in multiset(b) && b0 in multiset(a);
      var j :| 0 <= j < |b| && b[j] == a0;
      var k :| 0 <= k < |a| && a[k] == b0;
      assert b0 <= a0 && a0 <= b0;
      assert a == [a0] + a[1..] && b == [b0] + b[1..];
      assert multiset(a) == multiset{a0} + multiset(a[1..]);
      assert multiset(b) == multiset{b0} + multiset(b[1..]);
      assert a0 == b0;
      assert multiset(a[1..]) == multiset(a) - multiset{a0};
      assert multiset(b[1..]) == multiset(b) - multiset{b0};
      SortedTail(a);
      SortedTail(b);
      SortedUnique(a[1..], b[1..]);
    }
  }

  lemma SortedTail(s: seq<real>)
    requires SortedAsc(s) && s != []
    ensures SortedAsc(s[1..])
  {
    forall i, j | 0 <= i < j < |s| - 1 ensures s[1..][i] <= s[1..][j] {
      assert s[1..][i] == s[i + 1] && s[1..][j] == s[j + 1];
    }
  }

  /** The median depends only on which values there are, not on their order. */
  lemma MedianIgnoresOrder(a: seq<real>, b: seq<real>)
    requires |a| > 0
    requires multiset(a) == multiset(b)
    ensures |b| > 0 && Median(a) == Median(b)
  {
    assert |b| == |multiset(b)| == |multiset(a)| == |a|;
    SortedUnique(SortAscending(a), SortAscending(b));
  }

  lemma SortedIsItsOwnSort(s: seq<real>)
    requires SortedAsc(s)
    ensures SortAscending(s) == s
  {
    SortedUnique(SortAscending(s), s);
  }

  /** On values that are already in order the median is read off directly. */
  lemma MedianOfSorted(s: seq<real>)
    requires |s| > 0 && SortedAsc(s)
    ensures Median(s) == if |s| % 2 == 1 then s[|s| / 2] else (s[|s| / 2 - 1] + s[|s| / 2]) / 2.0
  {
    SortedIsItsOwnSort(s);
  }

  /** [1, 2, 3, 4, 5] has median 3. */
  lemma MedianOddExample(s: seq<real>)
    requires |s| == 5 && forall i :: 0 <= i < 5 ==> s[i] == i as real + 1.0
    ensures Median(s) == 3.0
  {
    MedianOfSorted(s);
    assert s[2] == 3.0;
  }

  /** [1, 2, 3, 4] has median 2.5. */
  lemma MedianEvenExample(s: seq<real>)
    requires |s| == 4 && forall i :: 0 <= i < 4 ==> s[i] == i as real + 1.0
    ensures Median(s) == 2.5
  {
    MedianOfSorted(s);
    assert s[1] == 2.0 && s[2] == 3.0;
  }

  // ---------------------------------------------------------------------------
  // Bounds on the statistics
  // ---------------------------------------------------------------------------

  lemma {:induction false} SumBounds(s: seq<real>, lo: real, hi: real)
    requires forall i :: 0 <= i < |s| ==> lo <= s[i] <= hi
    ensures |s| as real * lo <= Sum(s) <= |s| as real * hi
  {
    if s != [] {
      SumBounds(s[..|s| - 1], lo, hi);
    }
  }

  /** The mean lies between the smallest and the largest value. */
  lemma MeanBetweenMinMax(s: seq<real>)
    requires |s| > 0
    ensures Min(s) <= Mean(s) <= Max(s)
  {
    MeanBounds(s, Min(s), Max(s));
  }

  lemma MeanBounds(s: seq<real>, lo: real, hi: real)
    requires |s| > 0
    requires forall i :: 0 <= i < |s| ==> lo <= s[i] <= hi
    ensures lo <= Mean(s) <= hi
  {
    SumBounds(s, lo, hi);
    QuotientBounds(Sum(s), |s| as real, lo, hi);
  }

  lemma QuotientBounds(total: real, n: real, lo: real, hi: real)
    requires n > 0.0 && n * lo <= total <= n * hi
    ensures lo <= total / n <= hi
  {
    var q := total / n;
    assert q * n == total;
  }

  lemma {:induction false} SquaredDeviationsNonNegative(s: seq<real>, avg: real)
    ensures SquaredDeviations(s, avg) >= 0.0
  {
    if s != [] {
      SquaredDeviationsNonNegative(s[..|s| - 1], avg);
    }
  }

  lemma {:induction false} SquaredDeviationsOfConstant(s: seq<real>, c: real)
    requires forall i :: 0 <= i < |s| ==> s[i] == c
    ensures SquaredDeviations(s, c) == 0.0
  {
    if s != [] {
      SquaredDeviationsOfConstant(s[..|s| - 1], c);
    }
  }

  /** The variance is never negative. */
  lemma VarianceNonNegative(s: seq<real>)
    requires |s| > 0
    ensures Variance(s) >= 0.0
  {
    SquaredDeviationsNonNegative(s, Mean(s));
  }

  lemma {:induction false} SumOfConstant(s: seq<real>, c: real)
    requires forall i :: 0 <= i < |s| ==> s[i] == c
    ensures Sum(s) == |s| as real * c
  {
    if s != [] {
      SumOfConstant(s[..|s| - 1], c);
    }
  }

  /** The variance is zero when all the values are equal. */
  lemma VarianceOfConstant(s: seq<real>)
    requires |s| > 0
    requires forall i :: 0 <= i < |s| ==> s[i] == s[0]
    ensures Mean(s) == s[0] && Variance(s) == 0.0
  {
    SumOfConstant(s, s[0]);
    assert Sum(s) / (|s| as real) == s[0];
    SquaredDeviationsOfConstant(s, s[0]);
  }

  lemma SumSnoc(s: seq<real>, x: real)
    ensures Sum(s + [x]) == Sum(s) + x
    ensures forall avg :: SquaredDeviations(s + [x], avg) == SquaredDeviations(s, avg) + Sq(x - avg)
  {
    assert (s + [x])[..|s|] == s;
  }

  /** The divisor is N: the textbook data set has population deviation 2
      (with N - 1 the variance would be 32/7). */
  lemma VarianceExample()
    ensures Variance([2.0, 4.0, 4.0, 4.0, 5.0, 5.0, 7.0, 9.0]) == 4.0
  {
    var s0: seq<real> := [];
    SumSnoc(s0, 2.0);
    var s1 := s0 + [2.0];
    SumSnoc(s1, 4.0);
    var s2 := s1 + [4.0];
    SumSnoc(s2, 4.0);
    var s3 := s2 + [4.0];
    SumSnoc(s3, 4.0);
    var s4 := s3 + [4.0];
    SumSnoc(s4, 5.0);
    var s5 := s4 + [5.0];
    SumSnoc(s5, 5.0);
    var s6 := s5 + [5.0];
    SumSnoc(s6, 7.0);
    var s7 := s6 + [7.0];
    SumSnoc(s7, 9.0);
    var s8 := s7 + [9.0];
    assert s8 == [2.0, 4.0, 4.0, 4.0, 5.0, 5.0, 7.0, 9.0];
    assert Sum(s8) == 40.0;
    assert Mean(s8) == 5.0;
    assert SquaredDeviations(s8, 5.0) == 32.0;
  }

  // ---------------------------------------------------------------------------
  // One column's summary
  // ---------------------------------------------------------------------------

  /** The row of the numeric summary table for one column. `variance` is the
      square of the `Std` the application shows. */
  datatype Summary = Summary(mean: real, median: real, variance: real, min: real, max: real)

  /** The summary of a non-empty list of kept values. */
  function Summarize(values: seq<real>): (r: Summary)
    requires |values| > 0
    ensures r.min in values && r.max in values
    ensures forall i :: 0 <= i < |values| ==> r.min <= values[i] <= r.max
    ensures r.min <= r.median <= r.max
    ensures r.min <= r.mean <= r.max
    ensures r.variance >= 0.0
    ensures r.min == r.max ==> r.mean == r.median == r.min && r.variance == 0.0
  {
    MeanBetweenMinMax(values);
    VarianceNonNegative(values);
    assert Min(values) == Max(values) ==> Variance(values) == 0.0 by {
      if Min(values) == Max(values) {
        assert forall i :: 0 <= i < |values| ==> values[i] == values[0];
        VarianceOfConstant(values);
      }
    }
    Summary(Mean(values), Median(values), Variance(values), Min(values), Max(values))
  }

  /** The filter `val => !isNaN(val)`. */
  predicate NotNaN(v: Value) {
    !IsNaN(v)
  }

  /** The kept cells, each taken by its numeric coercion. */
  function Coerce(kept: seq<Value>): (r: seq<real>)
    requires forall i :: 0 <= i < |kept| ==> NotNaN(kept[i])
    ensures |r| == |kept|
    ensures forall i :: 0 <= i < |r| ==> ToNumber(kept[i]) == Some(r[i])
  {
    if kept == [] then []
    else
      var last := kept[|kept| - 1];
      assert NotNaN(last);
      Coerce(kept[..|kept| - 1]) + [ToNumber(last).value]
  }

  /** `gameData.map(row => row[col]).filter(val => !isNaN(val))`, each kept
      value taken by its numeric coercion (null and '' count as 0). */
  function KeptValues(table: Table, col: string): (r: seq<real>)
    ensures |r| == |Positions(Column(table, col), NotNaN)| <= |table|
  {
    FilterLength(Column(table, col), NotNaN);
    Coerce(Filter(Column(table, col), NotNaN))
  }

  /** A column has kept values exactly when some record's value under it
      coerces to a number. */
  lemma KeptNonEmptyIff(table: Table, col: string)
    ensures |KeptValues(table, col)| > 0 <==> exists i :: 0 <= i < |table| && !IsNaN(Get(table[i], col))
  {
    var c := Column(table, col);
    assert |KeptValues(table, col)| == |Filter(c, NotNaN)|;
    FilterLength(c, NotNaN);
    if exists i :: 0 <= i < |table| && !IsNaN(Get(table[i], col)) {
      var i :| 0 <= i < |table| && !IsNaN(Get(table[i], col));
      assert i in Positions(c, NotNaN);
    } else {
      assert Positions(c, NotNaN) == {};
    }
  }

  /** The `NUMERIC_COLS.forEach` loop filling `numericStats`: a column is
      present exactly when it has kept values, and then holds their summary. */
  method SummarizeNumeric(table: Table, cols: seq<string>) returns (numericStats: map<string, Summary>)
    ensures forall col :: col in numericStats <==> col in cols && |KeptValues(table, col)| > 0
    ensures forall col :: col in numericStats ==> numericStats[col] == Summarize(KeptValues(table, col))
  {
    numericStats := map[];
    for i := 0 to |cols|
      invariant forall col :: col in numericStats <==> col in cols[..i] && |KeptValues(table, col)| > 0
      invariant forall col :: col in numericStats ==> numericStats[col] == Summarize(KeptValues(table, col))
    {
      assert forall col :: col in cols[..i + 1] <==> col in cols[..i] || col == cols[i];
      var values := KeptValues(table, cols[i]);
      if |values| > 0 {
        numericStats := numericStats[cols[i] := Summarize(values)];
      }
    }
    assert cols[..|cols|] == cols;
  }
}
