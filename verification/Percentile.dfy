/** The AI evaluation's latency percentiles, over the reals. */
module Percentile {
  import opened ReviewTypes
  import opened Sorting
  import opened RowMatching

  function Ascending(): (real, real) -> bool { (a: real, b: real) => a <= b }

  function Ceiling(x: real): int { -(-x).Floor }

  /** The value at a position between two neighbours of a sorted list. */
  function Interpolate(sorted: seq<real>, x: real): real
    requires 0.0 <= x <= (|sorted| - 1) as real
  {
    var lower, upper := x.Floor, Ceiling(x);
    sorted[lower] + (sorted[upper] - sorted[lower]) * (x - lower as real)
  }

  /** Where a quantile falls between the first position and the last. */
  function Position(last: real, quantile: real): (x: real)
    requires 0.0 <= last && 0.0 <= quantile <= 1.0
    ensures 0.0 <= x <= last
    ensures quantile == 0.0 ==> x == 0.0
    ensures quantile == 1.0 ==> x == last
  {
    Product(last, 0.0, quantile);
    Product(last, quantile, 1.0);
    last * quantile
  }

  lemma Product(factor: real, p: real, q: real)
    requires 0.0 <= factor && p <= q
    ensures factor * p <= factor * q
  {
    assert factor * q == factor * p + factor * (q - p);
    NonNegative(factor, q - p);
  }

  lemma NonNegative(a: real, b: real)
    requires 0.0 <= a && 0.0 <= b
    ensures 0.0 <= a * b
  {
  }

  function PercentileBeforeRounding(values: seq<real>, quantile: real): real
    requires values != [] && 0.0 <= quantile <= 1.0
  {
    var sorted := Sort(Ascending(), values);
    Interpolate(sorted, Position((|sorted| - 1) as real, quantile))
  }

  function Percentile(values: seq<real>, quantile: real): Option<real>
    requires 0.0 <= quantile <= 1.0
  {
    if values == [] then None else Some(Round(PercentileBeforeRounding(values, quantile)))
  }

  lemma Weighted(low: real, high: real, t: real, u: real)
    requires low <= high && 0.0 <= t <= u <= 1.0
    ensures low <= low + (high - low) * t <= low + (high - low) * u <= high
  {
    Product(high - low, 0.0, t);
    Product(high - low, t, u);
    Product(high - low, u, 1.0);
    assert (high - low) * 1.0 == high - low;
  }

  lemma BetweenNeighbours(sorted: seq<real>, x: real)
    requires 0.0 <= x <= (|sorted| - 1) as real && Sorted(Ascending(), sorted)
    ensures x.Floor <= Ceiling(x) <= x.Floor + 1
    ensures sorted[x.Floor] <= Interpolate(sorted, x) <= sorted[Ceiling(x)]
    ensures x == x.Floor as real ==> Interpolate(sorted, x) == sorted[x.Floor]
  {
    var lower, upper := x.Floor, Ceiling(x);
    if lower < upper {
      assert Ascending()(sorted[lower], sorted[upper]);
      Weighted(sorted[lower], sorted[upper], 0.0, x - lower as real);
      Weighted(sorted[lower], sorted[upper], x - lower as real, 1.0);
    }
  }

  /** Further along a sorted list, values do not get smaller. */
  lemma InterpolateIsMonotone(sorted: seq<real>, x: real, y: real)
    requires 0.0 <= x <= y <= (|sorted| - 1) as real && Sorted(Ascending(), sorted)
    ensures Interpolate(sorted, x) <= Interpolate(sorted, y)
  {
    BetweenNeighbours(sorted, x);
    BetweenNeighbours(sorted, y);
    if x.Floor < y.Floor {
      assert Ceiling(x) <= y.Floor;
      assert Ceiling(x) < y.Floor ==> Ascending()(sorted[Ceiling(x)], sorted[y.Floor]);
    } else if x != x.Floor as real {
      assert Ceiling(x) == Ceiling(y) == x.Floor + 1;
      assert Ascending()(sorted[x.Floor], sorted[x.Floor + 1]);
      Weighted(sorted[x.Floor], sorted[x.Floor + 1], x - x.Floor as real, y - x.Floor as real);
    }
  }

  lemma AscendingIsOrdering()
    ensures Ordering(Ascending())
  {
  }

  lemma PositionsInOrder(last: real, p: real, q: real)
    requires 0.0 <= last && 0.0 <= p <= q <= 1.0
    ensures Position(last, p) <= Position(last, q)
  {
    Product(last, p, q);
  }

  /** A larger quantile never gives a smaller percentile, rounded or not: p50 is at most p95. */
  lemma PercentileIsMonotone(values: seq<real>, p: real, q: real)
    requires values != [] && 0.0 <= p <= q <= 1.0
    ensures PercentileBeforeRounding(values, p) <= PercentileBeforeRounding(values, q)
    ensures Percentile(values, p).value <= Percentile(values, q).value
  {
    hide Round, Position, Interpolate, Sort, Ordering, Sorted;
    var sorted := Sort(Ascending(), values);
    AscendingIsOrdering();
    SortSorts(Ascending(), values);
    PositionsInOrder((|sorted| - 1) as real, p, q);
    InterpolateIsMonotone(sorted, Position((|sorted| - 1) as real, p), Position((|sorted| - 1) as real, q));
    RoundIsMonotone(PercentileBeforeRounding(values, p), PercentileBeforeRounding(values, q));
  }

  lemma SortedEnds(values: seq<real>)
    requires values != []
    ensures var sorted := Sort(Ascending(), values);
            && sorted[0] in values && sorted[|sorted| - 1] in values
            && forall v :: v in values ==> sorted[0] <= v <= sorted[|sorted| - 1]
  {
    hide Sort;
    var sorted := Sort(Ascending(), values);
    AscendingIsOrdering();
    SortSorts(Ascending(), values);
    SameElements(sorted, values);
    forall v | v in values ensures sorted[0] <= v <= sorted[|sorted| - 1] {
      var i :| 0 <= i < |sorted| && sorted[i] == v;
      assert 0 < i ==> Ascending()(sorted[0], sorted[i]);
      assert i < |sorted| - 1 ==> Ascending()(sorted[i], sorted[|sorted| - 1]);
    }
  }

  /** Before rounding a percentile lies between the least and the greatest value, which it reaches at the ends. */
  lemma PercentileIsWithin(values: seq<real>, q: real) returns (least: real, greatest: real)
    requires values != [] && 0.0 <= q <= 1.0
    ensures least in values && greatest in values && forall v :: v in values ==> least <= v <= greatest
    ensures least <= PercentileBeforeRounding(values, q) <= greatest
    ensures PercentileBeforeRounding(values, 0.0) == least && PercentileBeforeRounding(values, 1.0) == greatest
  {
    hide Position, Interpolate, Sort, Ordering, Sorted;
    var sorted := Sort(Ascending(), values);
    AscendingIsOrdering();
    SortSorts(Ascending(), values);
    SortedEnds(values);
    least, greatest := sorted[0], sorted[|sorted| - 1];
    BetweenNeighbours(sorted, 0.0);
    BetweenNeighbours(sorted, (|sorted| - 1) as real);
    PercentileIsMonotone(values, 0.0, q);
    PercentileIsMonotone(values, q, 1.0);
  }

  /** The order in which latencies were observed does not matter. */
  lemma PercentileIgnoresOrder(a: seq<real>, b: seq<real>, q: real)
    requires multiset(a) == multiset(b) && 0.0 <= q <= 1.0
    ensures Percentile(a, q) == Percentile(b, q)
  {
    hide Interpolate, Sort, Ordering;
    AscendingIsOrdering();
    SortIgnoresOrder(Ascending(), a, b);
    SameElements(a, b);
  }

  // ---------- Between two observations ----------

  lemma AtPosition(sorted: seq<real>, k: nat, t: real, x: real)
    requires k + 1 < |sorted| && 0.0 < t < 1.0 && x == k as real + t
    ensures 0.0 <= x <= (|sorted| - 1) as real
    ensures Interpolate(sorted, x) == sorted[k] + (sorted[k + 1] - sorted[k]) * t
  {
    FloorIs(x, k);
    FloorIs(-x, -(k + 1));
  }

  lemma AtWhole(sorted: seq<real>, k: nat, x: real)
    requires k < |sorted| && x == k as real
    ensures 0.0 <= x <= (|sorted| - 1) as real
    ensures Interpolate(sorted, x) == sorted[k]
  {
    FloorIs(x, k);
  }

  /** From one position to the next the value grows in proportion to the way covered. */
  lemma InterpolatesInProportion(sorted: seq<real>, k: nat, t: real)
    requires k + 1 < |sorted| && 0.0 <= t <= 1.0
    ensures 0.0 <= k as real + t <= (|sorted| - 1) as real
    ensures Interpolate(sorted, k as real + t) == sorted[k] + (sorted[k + 1] - sorted[k]) * t
  {
    hide Interpolate;
    if t == 0.0 {
      AtWhole(sorted, k, k as real + t);
    } else if t == 1.0 {
      AtWhole(sorted, k + 1, k as real + t);
    } else {
      AtPosition(sorted, k, t, k as real + t);
    }
  }

  lemma Halfway(k: nat)
    ensures (2 * k) as real * 0.5 == k as real && (2 * k + 1) as real * 0.5 == k as real + 0.5
  {
  }

  lemma Mean(a: real, b: real)
    ensures a + (b - a) * 0.5 == (a + b) / 2.0 && a + (b - a) * 0.0 == a
  {
  }

  /** The middle of a sorted list: its middle value, or the mean of the middle two. */
  lemma MiddleOf(sorted: seq<real>)
    requires sorted != []
    ensures Interpolate(sorted, Position((|sorted| - 1) as real, 0.5))
            == if |sorted| % 2 == 1 then sorted[|sorted| / 2]
               else (sorted[|sorted| / 2 - 1] + sorted[|sorted| / 2]) / 2.0
  {
    hide Interpolate;
    var k := (|sorted| - 1) / 2;
    Halfway(k);
    if |sorted| % 2 == 1 {
      assert |sorted| - 1 == 2 * k;
      AtWhole(sorted, k, k as real);
    } else {
      assert |sorted| - 1 == 2 * k + 1;
      AtPosition(sorted, k, 0.5, k as real + 0.5);
      Mean(sorted[k], sorted[k + 1]);
    }
  }

  /** The median of an odd number of observations is the middle one, of an even number the mean of the middle two. */
  lemma MedianIsTheMiddle(values: seq<real>)
    requires values != []
    ensures var sorted := Sort(Ascending(), values);
            && |sorted| == |values|
            && PercentileBeforeRounding(values, 0.5)
               == if |values| % 2 == 1 then sorted[|values| / 2]
                  else (sorted[|values| / 2 - 1] + sorted[|values| / 2]) / 2.0
  {
    hide Sort, Interpolate, Position;
    AscendingIsOrdering();
    SortSorts(Ascending(), values);
    var sorted := Sort(Ascending(), values);
    assert |sorted| == |multiset(sorted)| == |multiset(values)|;
    MiddleOf(sorted);
  }
}
