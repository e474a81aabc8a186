/** The interpolated percentile of the benchmark's latencies, in exact arithmetic. */
module Percentile {
  import opened Prelude
  import opened Ordering
  import opened Rounding
  import opened RealArithmetic

  predicate IntLe(a: int, b: int) {
    a <= b
  }

  lemma IntLeTotal()
    ensures TotalPreorder(IntLe)
  {
  }

  predicate Ascending(s: seq<int>) {
    forall i, j | 0 <= i < j < |s| :: s[i] <= s[j]
  }

  /** Linear interpolation between the two neighbours of `position`. */
  function Interpolate(ordered: seq<int>, position: real): real
    requires ordered != [] && 0.0 <= position <= (|ordered| - 1) as real
  {
    var lower := position.Floor;
    if position == lower as real then ordered[lower] as real
    else ordered[lower] as real * (1.0 - (position - lower as real)) + ordered[lower + 1] as real * (position - lower as real)
  }

  function Position(n: nat, percentile: real): (x: real)
    requires n > 0 && 0.0 <= percentile <= 1.0
    ensures 0.0 <= x <= (n - 1) as real
  {
    PositionBound((n - 1) as real, percentile);
    (n - 1) as real * percentile
  }

  lemma PositionBound(top: real, percentile: real)
    requires top >= 0.0 && 0.0 <= percentile <= 1.0
    ensures 0.0 <= top * percentile <= top
  {
    MulNonNegative(top, percentile);
    MulNonNegative(top, 1.0 - percentile);
  }

  /** `_percentile`: exact neighbours are returned as they are, interpolated values are rounded. */
  function PercentileOf(values: seq<int>, percentile: real): (r: Option<real>)
    requires 0.0 <= percentile <= 1.0
    ensures r.None? <==> values == []
  {
    if values == [] then None
    else
      var ordered := SortBy(values, IntLe);
      var position := Position(|ordered|, percentile);
      var value := Interpolate(ordered, position);
      if position == position.Floor as real then Some(value) else Some(Round4(value))
  }

  /** Both arms are the rounding of the interpolation. */
  lemma PercentileIsRounded(values: seq<int>, percentile: real)
    requires 0.0 <= percentile <= 1.0 && values != []
    ensures var ordered := SortBy(values, IntLe);
            PercentileOf(values, percentile) == Some(Round4(Interpolate(ordered, Position(|ordered|, percentile))))
  {
    var ordered := SortBy(values, IntLe);
    var position := Position(|ordered|, percentile);
    if position == position.Floor as real {
      Round4Whole(ordered[position.Floor]);
    }
  }

  lemma Blend(a: real, b: real, t: real)
    requires a <= b && 0.0 <= t <= 1.0
    ensures a <= a * (1.0 - t) + b * t <= b
  {
    BlendMonotone(a, b, 0.0, t);
    BlendMonotone(a, b, t, 1.0);
  }

  lemma BlendMonotone(a: real, b: real, t: real, u: real)
    requires a <= b && t <= u
    ensures a * (1.0 - t) + b * t <= a * (1.0 - u) + b * u
  {
    assert (a * (1.0 - u) + b * u) - (a * (1.0 - t) + b * t) == (b - a) * (u - t);
    MulNonNegative(b - a, u - t);
  }

  /** An interpolated value lies between its two neighbours. */
  lemma BetweenNeighbours(ordered: seq<int>, x: real)
    requires ordered != [] && Ascending(ordered) && 0.0 <= x <= (|ordered| - 1) as real
    ensures ordered[x.Floor] as real <= Interpolate(ordered, x)
    ensures x.Floor + 1 < |ordered| ==> Interpolate(ordered, x) <= ordered[x.Floor + 1] as real
    ensures x.Floor + 1 == |ordered| ==> Interpolate(ordered, x) == ordered[x.Floor] as real
  {
    var i := x.Floor;
    if x != i as real {
      Blend(ordered[i] as real, ordered[i + 1] as real, x - i as real);
    }
  }

  lemma InterpolateMonotone(ordered: seq<int>, x: real, y: real)
    requires ordered != [] && Ascending(ordered) && 0.0 <= x <= y <= (|ordered| - 1) as real
    ensures Interpolate(ordered, x) <= Interpolate(ordered, y)
  {
    BetweenNeighbours(ordered, x);
    BetweenNeighbours(ordered, y);
    var i, j := x.Floor, y.Floor;
    if i == j && y != j as real && x != i as real {
      BlendMonotone(ordered[i] as real, ordered[i + 1] as real, x - i as real, y - i as real);
    }
  }

  lemma SortedValues(values: seq<int>)
    ensures Ascending(SortBy(values, IntLe))
    ensures forall v :: v in SortBy(values, IntLe) <==> v in values
  {
    IntLeTotal();
    SortBySorted(values, IntLe);
    PermutationFacts(SortBy(values, IntLe), values);
  }

  lemma PositionMonotone(n: nat, low: real, high: real)
    requires n > 0 && 0.0 <= low <= high <= 1.0
    ensures Position(n, low) <= Position(n, high)
  {
    MulNonNegative((n - 1) as real, high - low);
  }

  /** A higher percentile is never a smaller value: p50 <= p95. */
  lemma PercentileMonotone(values: seq<int>, low: real, high: real)
    requires values != [] && 0.0 <= low <= high <= 1.0
    ensures PercentileOf(values, low).value <= PercentileOf(values, high).value
  {
    hide *;
    SortedValues(values);
    var ordered := SortBy(values, IntLe);
    PercentileIsRounded(values, low);
    PercentileIsRounded(values, high);
    var x, y := Position(|ordered|, low), Position(|ordered|, high);
    PositionMonotone(|ordered|, low, high);
    InterpolateMonotone(ordered, x, y);
    Round4Monotone(Interpolate(ordered, x), Interpolate(ordered, y));
  }

  /** Between the least and the greatest latency, and equal to them at the two ends. */
  lemma PercentileBetweenExtremes(values: seq<int>, percentile: real, least: int, greatest: int)
    requires 0.0 <= percentile <= 1.0 && least in values && greatest in values
    requires forall v | v in values :: least <= v <= greatest
    ensures least as real <= PercentileOf(values, percentile).value <= greatest as real
    ensures PercentileOf(values, 0.0) == Some(least as real) && PercentileOf(values, 1.0) == Some(greatest as real)
  {
    SortedValues(values);
    var ordered := SortBy(values, IntLe);
    var n := |ordered|;
    assert ordered[0] in values && ordered[n - 1] in values;
    assert least in ordered && greatest in ordered;
    assert ordered[0] == least && ordered[n - 1] == greatest;
    PercentileMonotone(values, 0.0, percentile);
    PercentileMonotone(values, percentile, 1.0);
    assert Position(n, 0.0) == 0.0 && Position(n, 1.0) == (n - 1) as real;
  }

  /** The order in which latencies arrive does not matter. */
  lemma PercentileIgnoresOrder(values: seq<int>, shuffled: seq<int>, percentile: real)
    requires 0.0 <= percentile <= 1.0 && multiset(values) == multiset(shuffled)
    ensures PercentileOf(values, percentile) == PercentileOf(shuffled, percentile)
  {
    PermutationFacts(values, shuffled);
    IntLeTotal();
    SortBySorted(values, IntLe);
    SortBySorted(shuffled, IntLe);
    SortedUnique(SortBy(values, IntLe), SortBy(shuffled, IntLe), IntLe);
  }

  // ----- What determines the interpolation -----

  /** `ordered` holds the values in ascending order. */
  ghost predicate Arranges(ordered: seq<int>, values: seq<int>) {
    Ascending(ordered) && multiset(ordered) == multiset(values)
  }

  lemma OnlyArrangement(values: seq<int>, ordered: seq<int>)
    requires Arranges(ordered, values)
    ensures ordered == SortBy(values, IntLe)
  {
    IntLeTotal();
    SortBySorted(values, IntLe);
    assert Sorted(ordered, IntLe);
    SortedUnique(ordered, SortBy(values, IntLe), IntLe);
  }

  /** At a whole position the interpolation is the value there. */
  lemma InterpolateAtRank(ordered: seq<int>, i: nat)
    requires i < |ordered|
    ensures Interpolate(ordered, i as real) == ordered[i] as real
  {
    assert (i as real).Floor == i;
  }

  /** Between two neighbouring ranks it is the straight line through their values, the ends included. */
  lemma OnTheLine(ordered: seq<int>, i: nat, x: real)
    requires i + 1 < |ordered| && i as real <= x <= i as real + 1.0
    ensures Interpolate(ordered, x)
            == ordered[i] as real + (ordered[i + 1] as real - ordered[i] as real) * (x - i as real)
  {
    if x == i as real + 1.0 {
      assert x == (i + 1) as real;
      InterpolateAtRank(ordered, i + 1);
    } else {
      assert x.Floor == i;
      LineAsBlend(ordered[i] as real, ordered[i + 1] as real, x - i as real);
    }
  }

  lemma LineAsBlend(a: real, b: real, t: real)
    ensures a * (1.0 - t) + b * t == a + (b - a) * t
  {
  }

  /** So within one gap the value at a mix of two positions is the same mix of their values. */
  lemma InterpolateLinear(ordered: seq<int>, i: nat, x: real, y: real, w: real)
    requires i + 1 < |ordered| && i as real <= x <= y <= i as real + 1.0 && 0.0 <= w <= 1.0
    ensures i as real <= x + w * (y - x) <= i as real + 1.0
    ensures Interpolate(ordered, x + w * (y - x))
            == Interpolate(ordered, x) + w * (Interpolate(ordered, y) - Interpolate(ordered, x))
  {
    hide *;
    var z := MixInside(x, y, w);
    MixOnTheLine(ordered, i, x, y, z, w);
  }

  lemma MixInside(x: real, y: real, w: real) returns (z: real)
    requires x <= y && 0.0 <= w <= 1.0
    ensures z == x + w * (y - x) && x <= z <= y
  {
    z := x + w * (y - x);
    MulNonNegative(w, y - x);
    MulNonNegative(1.0 - w, y - x);
    assert (1.0 - w) * (y - x) == (y - x) - w * (y - x);
  }

  lemma MixOnTheLine(ordered: seq<int>, i: nat, x: real, y: real, z: real, w: real)
    requires i + 1 < |ordered| && i as real <= x <= z <= y <= i as real + 1.0 && z == x + w * (y - x)
    ensures Interpolate(ordered, z) == Interpolate(ordered, x) + w * (Interpolate(ordered, y) - Interpolate(ordered, x))
  {
    hide *;
    OnTheLine(ordered, i, x);
    OnTheLine(ordered, i, y);
    OnTheLine(ordered, i, z);
    var a, slope := ordered[i] as real, ordered[i + 1] as real - ordered[i] as real;
    MixOfLine(a, slope, x - i as real, y - x, w);
    assert z - i as real == (x - i as real) + w * (y - x) && y - i as real == (x - i as real) + (y - x);
  }

  lemma MixOfLine(a: real, slope: real, x: real, gap: real, w: real)
    ensures a + slope * (x + w * gap) == a + slope * x + w * (slope * (x + gap) - slope * x)
  {
  }

  /** The percentile is the rounded interpolation at rank (n - 1) * percentile of the values in ascending order. */
  lemma PercentileIs(values: seq<int>, ordered: seq<int>, percentile: real, x: real)
    requires 0.0 <= percentile <= 1.0 && values != [] && Arranges(ordered, values)
    requires x == (|values| - 1) as real * percentile
    ensures |ordered| == |values| && 0.0 <= x <= (|values| - 1) as real
    ensures PercentileOf(values, percentile) == Some(Round4(Interpolate(ordered, x)))
  {
    hide *;
    SamePosition(|values|, percentile, x);
    OnlyArrangement(values, ordered);
    PercentileIsRounded(values, percentile);
  }

  lemma SamePosition(n: nat, percentile: real, x: real)
    requires n > 0 && 0.0 <= percentile <= 1.0 && x == (n - 1) as real * percentile
    ensures x == Position(n, percentile)
  {
  }

  /** At rank i / (n - 1) the percentile is the i-th smallest value, as it is. */
  lemma PercentileAtRank(values: seq<int>, ordered: seq<int>, i: nat)
    requires Arranges(ordered, values) && i < |values| && |values| > 1
    ensures |ordered| == |values| && 0.0 <= i as real / (|values| - 1) as real <= 1.0
    ensures PercentileOf(values, i as real / (|values| - 1) as real) == Some(ordered[i] as real)
  {
    SameLength(values, ordered);
    hide *;
    var top := (|values| - 1) as real;
    RankShare(i as real, top);
    PercentileIs(values, ordered, i as real / top, i as real);
    InterpolateAtRank(ordered, i);
    Round4Whole(ordered[i]);
  }

  lemma SameLength(values: seq<int>, ordered: seq<int>)
    requires Arranges(ordered, values)
    ensures |ordered| == |values|
  {
    assert |multiset(ordered)| == |multiset(values)|;
  }

  lemma RankShare(x: real, top: real)
    requires 0.0 <= x <= top && top > 0.0
    ensures 0.0 <= x / top <= 1.0 && top * (x / top) == x
  {
    DivTimes(x, top);
    DivWeakOrder(0.0, x, top);
    DivWeakOrder(x, top, top);
    assert top / top == 1.0;
  }

  /** The median of an even number of values is the rounded mean of the two middle ones, and of an odd number the
      middle one. */
  lemma MedianIs(values: seq<int>, ordered: seq<int>, m: nat)
    requires Arranges(ordered, values) && m > 0
    ensures |ordered| == |values|
    ensures |values| == 2 * m ==>
              PercentileOf(values, 0.5) == Some(Round4((ordered[m - 1] as real + ordered[m] as real) / 2.0))
    ensures |values| == 2 * m - 1 ==> PercentileOf(values, 0.5) == Some(ordered[m - 1] as real)
  {
    SameLength(values, ordered);
    hide *;
    if |values| == 2 * m {
      MedianBetween(values, ordered, m);
    } else if |values| == 2 * m - 1 {
      assert (2 * m - 2) as real * 0.5 == (m - 1) as real;
      PercentileIs(values, ordered, 0.5, (m - 1) as real);
      InterpolateAtRank(ordered, m - 1);
      Round4Whole(ordered[m - 1]);
    }
  }

  lemma MedianBetween(values: seq<int>, ordered: seq<int>, m: nat)
    requires Arranges(ordered, values) && |values| == 2 * m > 0
    ensures |ordered| == |values|
    ensures PercentileOf(values, 0.5) == Some(Round4((ordered[m - 1] as real + ordered[m] as real) / 2.0))
  {
    SameLength(values, ordered);
    hide *;
    var x := (m - 1) as real + 0.5;
    assert (2 * m - 1) as real * 0.5 == x;
    PercentileIs(values, ordered, 0.5, x);
    HalfWay(ordered, m - 1);
  }

  lemma HalfWay(ordered: seq<int>, i: nat)
    requires i + 1 < |ordered|
    ensures Interpolate(ordered, i as real + 0.5) == (ordered[i] as real + ordered[i + 1] as real) / 2.0
  {
    OnTheLine(ordered, i, i as real + 0.5);
    hide Interpolate;
    assert i as real + 0.5 - i as real == 0.5;
  }
}
