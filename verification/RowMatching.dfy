/** How the AI evaluation scores extracted rows against the expected ones. */
module RowMatching {
  import opened ReviewTypes
  import opened Sequences
  import opened Json
  import opened StableJson

  function Keys(collation: Collation, rows: seq<Value>): seq<string> {
    Map(row => StableValue(collation, row), rows)
  }

  /** How many rows of the two lists can be paired off so that the rows of a pair have one text. */
  function Matching(collation: Collation, expected: seq<Value>, actual: seq<Value>): nat {
    |multiset(Keys(collation, expected)) * multiset(Keys(collation, actual))|
  }

  /** The expected texts not yet used up. */
  ghost predicate Holds(remaining: map<string, nat>, rest: multiset<string>) {
    forall key :: rest[key] == if key in remaining then remaining[key] else 0
  }

  lemma NothingHeld()
    ensures Holds(map[], multiset{})
  {
  }

  lemma CountIs(remaining: map<string, nat>, rest: multiset<string>, key: string)
    requires Holds(remaining, rest)
    ensures rest[key] == if key in remaining then remaining[key] else 0
  {
  }

  lemma OneMore(remaining: map<string, nat>, rest: multiset<string>, key: string)
    requires Holds(remaining, rest)
    ensures Holds(remaining[key := (if key in remaining then remaining[key] else 0) + 1], rest + multiset{key})
  {
  }

  lemma OneLess(remaining: map<string, nat>, rest: multiset<string>, key: string)
    requires Holds(remaining, rest) && key in remaining && remaining[key] > 0
    ensures Holds(remaining[key := remaining[key] - 1], rest - multiset{key})
  {
  }

  /** A further text matches exactly if not all of its expected occurrences are used up. */
  lemma UseOne(left: multiset<string>, seen: multiset<string>, key: string)
    ensures var more, rest := left * (seen + multiset{key}), left - left * seen;
            if rest[key] > 0
            then |more| == |left * seen| + 1 && left - more == rest - multiset{key}
            else more == left * seen
  {
    assert left * (seen + multiset{key})
           == left * seen + if (left - left * seen)[key] > 0 then multiset{key} else multiset{};
  }

  /** Where the second pass stands after `seen`. */
  ghost predicate Used(all: multiset<string>, seen: multiset<string>, matched: nat, remaining: map<string, nat>) {
    matched == |all * seen| && Holds(remaining, all - all * seen)
  }

  lemma UsedNext(all: multiset<string>, seen: multiset<string>, matched: nat, remaining: map<string, nat>, key: string)
    requires Used(all, seen, matched, remaining)
    ensures var count := if key in remaining then remaining[key] else 0;
            if count != 0 then Used(all, seen + multiset{key}, matched + 1, remaining[key := count - 1])
            else Used(all, seen + multiset{key}, matched, remaining)
  {
    hide Holds;
    var rest := all - all * seen;
    CountIs(remaining, rest, key);
    UseOne(all, seen, key);
    if rest[key] > 0 {
      OneLess(remaining, rest, key);
    }
  }

  /** One pass counts the expected texts in a map, the other uses them up. */
  method CountMatchingRows(collation: Collation, expected: seq<Value>, actual: seq<Value>) returns (matched: nat)
    ensures matched == Matching(collation, expected, actual)
  {
    hide Holds, Used, StableValue;
    var remaining: map<string, nat> := map[];
    ghost var left, right := Keys(collation, expected), Keys(collation, actual);
    NothingHeld();
    for i := 0 to |expected|
      invariant Holds(remaining, multiset(left[..i]))
    {
      var key := StableValue(collation, expected[i]);
      OneMore(remaining, multiset(left[..i]), key);
      remaining := remaining[key := (if key in remaining then remaining[key] else 0) + 1];
      assert left[..i + 1] == left[..i] + [key];
    }
    assert left[..|expected|] == left;
    matched := 0;
    ghost var all := multiset(left);
    NothingUsed(all, remaining);
    for i := 0 to |actual|
      invariant Used(all, multiset(right[..i]), matched, remaining)
    {
      var key := StableValue(collation, actual[i]);
      var count := if key in remaining then remaining[key] else 0;
      assert right[..i + 1] == right[..i] + [key];
      UsedNext(all, multiset(right[..i]), matched, remaining, key);
      if count != 0 {
        matched := matched + 1;
        remaining := remaining[key := count - 1];
      }
    }
    assert right[..|actual|] == right;
    AllUsed(all, multiset(right), matched, remaining);
  }

  lemma NothingUsed(all: multiset<string>, remaining: map<string, nat>)
    requires Holds(remaining, all)
    ensures Used(all, multiset{}, 0, remaining)
  {
    assert all - all * multiset{} == all;
  }

  lemma AllUsed(all: multiset<string>, seen: multiset<string>, matched: nat, remaining: map<string, nat>)
    requires Used(all, seen, matched, remaining)
    ensures matched == |all * seen|
  {
  }

  lemma MatchingIsSymmetric(collation: Collation, a: seq<Value>, b: seq<Value>)
    ensures Matching(collation, a, b) == Matching(collation, b, a)
  {
    var x, y := multiset(Keys(collation, a)), multiset(Keys(collation, b));
    assert x * y == y * x;
  }

  /** The order of the rows does not matter, nor the way they are split over samples. */
  lemma MatchingIgnoresOrder(collation: Collation, a: seq<Value>, b: seq<Value>, a': seq<Value>, b': seq<Value>)
    requires multiset(a) == multiset(a') && multiset(b) == multiset(b')
    ensures Matching(collation, a, b) == Matching(collation, a', b')
  {
    MapAnyOrder(row => StableValue(collation, row), a, a');
    MapAnyOrder(row => StableValue(collation, row), b, b');
  }

  /** No more rows match than either list has, and all of both match exactly if the lists hold the same rows. */
  lemma MatchingIsBounded(collation: Collation, a: seq<Value>, b: seq<Value>)
    ensures Matching(collation, a, b) <= |a| && Matching(collation, a, b) <= |b|
    ensures Matching(collation, a, b) == |a| == |b|
            <==> multiset(Keys(collation, a)) == multiset(Keys(collation, b))
  {
    hide StableValue;
    var x, y := multiset(Keys(collation, a)), multiset(Keys(collation, b));
    assert x == x * y + (x - y) && y == x * y + (y - x);
    assert |x| == |a| && |y| == |b|;
    assert x == y ==> x * y == x;
    if |x * y| == |x| == |y| {
      assert |x - y| == 0 && |y - x| == 0;
      assert x - y == multiset{} && y - x == multiset{};
    }
  }

  // ---------- Pooling ----------

  /** The expected and the extracted rows of one evaluated document. */
  datatype Sample = Sample(expected: seq<Value>, actual: seq<Value>)

  function AllExpected(samples: seq<Sample>): seq<Value> {
    if samples == [] then [] else AllExpected(samples[..|samples| - 1]) + samples[|samples| - 1].expected
  }

  function AllActual(samples: seq<Sample>): seq<Value> {
    if samples == [] then [] else AllActual(samples[..|samples| - 1]) + samples[|samples| - 1].actual
  }

  /** What matches sample by sample. */
  function MatchingApart(collation: Collation, samples: seq<Sample>): nat {
    if samples == [] then 0
    else
      var last := samples[|samples| - 1];
      MatchingApart(collation, samples[..|samples| - 1]) + Matching(collation, last.expected, last.actual)
  }

  /** The text occurs more often among the expected rows than among the actual ones. */
  predicate Lacks(collation: Collation, expected: seq<Value>, actual: seq<Value>, key: string) {
    multiset(Keys(collation, expected))[key] > multiset(Keys(collation, actual))[key]
  }

  lemma KeysSplit(collation: Collation, a: seq<Value>, b: seq<Value>)
    ensures multiset(Keys(collation, a + b)) == multiset(Keys(collation, a)) + multiset(Keys(collation, b))
  {
    hide StableValue;
    assert Keys(collation, a + b) == Keys(collation, a) + Keys(collation, b);
  }

  /** One side has too many of the key in the first pair and too few in the second. */
  predicate Opposed(x: multiset<string>, y: multiset<string>, x': multiset<string>, y': multiset<string>, key: string) {
    (x[key] > y[key] && x'[key] < y'[key]) || (x[key] < y[key] && x'[key] > y'[key])
  }

  lemma MinOfSums(x: multiset<string>, y: multiset<string>, x': multiset<string>, y': multiset<string>)
    ensures var all, apart := (x + x') * (y + y'), x * y + x' * y';
            |all| >= |apart| && (|all| == |apart| <==> forall key :: !Opposed(x, y, x', y', key))
  {
    var all, apart := (x + x') * (y + y'), x * y + x' * y';
    assert forall key :: all[key] >= apart[key] && (all[key] == apart[key] <==> !Opposed(x, y, x', y', key));
    assert all == apart + (all - apart);
    if forall key :: !Opposed(x, y, x', y', key) {
      assert all == apart;
    } else {
      var key :| Opposed(x, y, x', y', key);
      assert key in all - apart;
    }
  }

  /** Two lots of rows match as many pooled as apart exactly if no text lacks in one and is left over in the other. */
  lemma PoolingTwoIff(collation: Collation, a: seq<Value>, b: seq<Value>, a': seq<Value>, b': seq<Value>)
    ensures Matching(collation, a + a', b + b') >= Matching(collation, a, b) + Matching(collation, a', b')
    ensures Matching(collation, a + a', b + b') == Matching(collation, a, b) + Matching(collation, a', b')
            <==> forall key :: !(Lacks(collation, a, b, key) && Lacks(collation, b', a', key))
                               && !(Lacks(collation, b, a, key) && Lacks(collation, a', b', key))
  {
    hide Keys;
    KeysSplit(collation, a, a');
    KeysSplit(collation, b, b');
    var x, y := multiset(Keys(collation, a)), multiset(Keys(collation, b));
    var x', y' := multiset(Keys(collation, a')), multiset(Keys(collation, b'));
    MinOfSums(x, y, x', y');
    assert forall key :: Opposed(x, y, x', y', key)
                         <==> (Lacks(collation, a, b, key) && Lacks(collation, b', a', key))
                              || (Lacks(collation, b, a, key) && Lacks(collation, a', b', key));
  }

  predicate SomeLacks(collation: Collation, samples: seq<Sample>, key: string) {
    exists i :: 0 <= i < |samples| && Lacks(collation, samples[i].expected, samples[i].actual, key)
  }

  predicate SomeHasLeft(collation: Collation, samples: seq<Sample>, key: string) {
    exists i :: 0 <= i < |samples| && Lacks(collation, samples[i].actual, samples[i].expected, key)
  }

  /** A text some sample lacks and some sample has left over. */
  predicate Crosses(collation: Collation, samples: seq<Sample>, key: string) {
    SomeLacks(collation, samples, key) && SomeHasLeft(collation, samples, key)
  }

  lemma OneMoreSample(collation: Collation, init: seq<Sample>, last: Sample, key: string)
    ensures SomeLacks(collation, init + [last], key)
            <==> SomeLacks(collation, init, key) || Lacks(collation, last.expected, last.actual, key)
    ensures SomeHasLeft(collation, init + [last], key)
            <==> SomeHasLeft(collation, init, key) || Lacks(collation, last.actual, last.expected, key)
    ensures !(Lacks(collation, last.expected, last.actual, key) && Lacks(collation, last.actual, last.expected, key))
  {
    var samples := init + [last];
    assert samples[|init|] == last && forall i :: 0 <= i < |init| ==> samples[i] == init[i];
  }

  /** Without a crossing, the pooled rows lack a text exactly if some sample does, and so for left-over ones. */
  lemma {:induction false} PooledLacksIff(collation: Collation, samples: seq<Sample>, key: string)
    requires !Crosses(collation, samples, key)
    ensures Lacks(collation, AllExpected(samples), AllActual(samples), key) <==> SomeLacks(collation, samples, key)
    ensures Lacks(collation, AllActual(samples), AllExpected(samples), key) <==> SomeHasLeft(collation, samples, key)
  {
    hide Keys, SomeLacks, SomeHasLeft;
    if samples == [] {
      NoneLacks(collation, key);
    } else {
      var init, last := samples[..|samples| - 1], samples[|samples| - 1];
      assert samples == init + [last];
      OneMoreSample(collation, init, last, key);
      KeysSplit(collation, AllExpected(init), last.expected);
      KeysSplit(collation, AllActual(init), last.actual);
      PooledLacksIff(collation, init, key);
    }
  }

  lemma NoneLacks(collation: Collation, key: string)
    ensures !SomeLacks(collation, [], key) && !SomeHasLeft(collation, [], key) && !Lacks(collation, [], [], key)
  {
  }

  lemma CrossingSplits(collation: Collation, init: seq<Sample>, last: Sample, key: string)
    ensures var x, y := AllExpected(init), AllActual(init);
            Crosses(collation, init + [last], key)
            <==> || Crosses(collation, init, key)
                 || (Lacks(collation, x, y, key) && Lacks(collation, last.actual, last.expected, key))
                 || (Lacks(collation, y, x, key) && Lacks(collation, last.expected, last.actual, key))
  {
    hide Lacks, SomeLacks, SomeHasLeft, AllExpected, AllActual;
    OneMoreSample(collation, init, last, key);
    if !Crosses(collation, init, key) {
      PooledLacksIff(collation, init, key);
    }
  }

  /** Rows are pooled over all samples before they are matched. Never fewer match than sample by sample, and as
      many exactly if no text that is missing in one sample is left over in another. */
  lemma {:induction false} PoolingMatchesApartIff(collation: Collation, samples: seq<Sample>)
    ensures Matching(collation, AllExpected(samples), AllActual(samples)) >= MatchingApart(collation, samples)
    ensures Matching(collation, AllExpected(samples), AllActual(samples)) == MatchingApart(collation, samples)
            <==> forall key :: !Crosses(collation, samples, key)
  {
    hide Matching, Lacks, Crosses;
    if samples == [] {
      NothingMatches(collation);
    } else {
      var init, last := samples[..|samples| - 1], samples[|samples| - 1];
      assert samples == init + [last];
      PoolingMatchesApartIff(collation, init);
      PoolingTwoIff(collation, AllExpected(init), AllActual(init), last.expected, last.actual);
      forall key
        ensures Crosses(collation, samples, key)
                <==> || Crosses(collation, init, key)
                     || (Lacks(collation, AllExpected(init), AllActual(init), key)
                         && Lacks(collation, last.actual, last.expected, key))
                     || (Lacks(collation, AllActual(init), AllExpected(init), key)
                         && Lacks(collation, last.expected, last.actual, key))
      {
        CrossingSplits(collation, init, last, key);
      }
    }
  }

  lemma NothingMatches(collation: Collation)
    ensures Matching(collation, [], []) == 0
    ensures forall key :: !Crosses(collation, [], key)
  {
  }

  /** It does happen: a row missing in one sample is made up for by the same row invented in another. */
  lemma PoolingCanMatchMore(collation: Collation, row: Value)
    ensures var samples := [Sample([row], []), Sample([], [row])];
            MatchingApart(collation, samples) == 0
            && Matching(collation, AllExpected(samples), AllActual(samples)) == 1
  {
    hide StableValue;
    var first, second := Sample([row], []), Sample([], [row]);
    var samples := [first, second];
    assert samples[..1] == [first] && [first][..0] == [];
    assert AllExpected(samples) == AllExpected([first]) + [] && AllExpected([first]) == [] + [row];
    assert AllActual(samples) == AllActual([first]) + [row] && AllActual([first]) == [] + [];
    assert AllExpected(samples) == [row] && AllActual(samples) == [row];
    var key := StableValue(collation, row);
    assert Keys(collation, [row]) == [key] && Keys(collation, []) == [];
    assert multiset([key]) * multiset([key]) == multiset{key};
    assert MatchingApart(collation, samples) == MatchingApart(collation, [first]) + Matching(collation, [], [row]);
  }

  // ---------- Scores ----------

  /** `Math.round(value * 100) / 100`, with halves rounded up. */
  function Round(value: real): real { (value * 100.0 + 0.5).Floor as real / 100.0 }

  lemma FloorIs(y: real, n: int)
    ensures y.Floor == n <==> n as real <= y < n as real + 1.0
  {
  }

  lemma SameHundredth(m: int, n: int)
    ensures m as real / 100.0 == n as real / 100.0 <==> m == n
  {
    assert (m as real / 100.0) * 100.0 == m as real && (n as real / 100.0) * 100.0 == n as real;
  }

  /** The nearest hundredth, and the upper one from halfway between two. */
  lemma RoundsToTheNearest(x: real, n: int)
    ensures Round(x) == n as real / 100.0 <==> n as real - 0.5 <= x * 100.0 < n as real + 0.5
  {
    var y := x * 100.0 + 0.5;
    FloorIs(y, n);
    SameHundredth(y.Floor, n);
  }

  lemma RoundIsMonotone(a: real, b: real)
    requires a <= b
    ensures Round(a) <= Round(b)
  {
    assert (a * 100.0 + 0.5).Floor <= (b * 100.0 + 0.5).Floor;
  }

  function Ratio(numerator: nat, denominator: nat): Option<real> {
    if denominator == 0 then None else Some(Round(numerator as real / denominator as real))
  }

  /** Precision and recall lie between 0 and 1, and are missing exactly if there are no rows to score. */
  lemma ScoresAreFractions(collation: Collation, expected: seq<Value>, actual: seq<Value>)
    ensures var precision := Ratio(Matching(collation, expected, actual), |actual|);
            (precision.None? <==> actual == []) && (precision.Some? ==> 0.0 <= precision.value <= 1.0)
    ensures var recall := Ratio(Matching(collation, expected, actual), |expected|);
            (recall.None? <==> expected == []) && (recall.Some? ==> 0.0 <= recall.value <= 1.0)
  {
    hide Matching;
    MatchingIsBounded(collation, expected, actual);
    if actual != [] {
      FractionRounds(Matching(collation, expected, actual), |actual|);
    }
    if expected != [] {
      FractionRounds(Matching(collation, expected, actual), |expected|);
    }
  }

  lemma FractionRounds(n: nat, d: nat)
    requires n <= d && d > 0
    ensures 0.0 <= Round(n as real / d as real) <= 1.0
  {
    assert 0.0 <= n as real / d as real <= 1.0;
    RoundIsMonotone(0.0, n as real / d as real);
    RoundIsMonotone(n as real / d as real, 1.0);
    assert Round(0.0) == 0.0 && Round(1.0) == 1.0;
  }
}
