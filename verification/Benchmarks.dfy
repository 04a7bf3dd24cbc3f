/** Latency percentiles. Samples are exact reals here; rounding is not modelled. */
module Benchmarks {
  import opened Sequences

  // ---------------------------------------------------------------- the code

  function Insert(x: real, xs: seq<real>): seq<real>
  {
    if xs == [] then [x]
    else if x <= xs[0] then [x] + xs
    else [xs[0]] + Insert(x, xs[1..])
  }

  /** `sorted(values)` */
  function Sorted(values: seq<real>): seq<real>
  {
    if values == [] then [] else Insert(values[0], Sorted(values[1..]))
  }

  function Min(values: seq<real>): real
    requires values != []
  {
    if |values| == 1 || values[0] <= Min(values[1..]) then values[0] else Min(values[1..])
  }

  function Max(values: seq<real>): real
    requires values != []
  {
    if |values| == 1 || values[0] >= Max(values[1..]) then values[0] else Max(values[1..])
  }

  function Sum(values: seq<real>): real
  {
    if values == [] then 0.0 else values[0] + Sum(values[1..])
  }

  function Ceil(x: real): int { -(-x).Floor }

  /** How many samples make `pct` percent of `n`. */
  function Needed(pct: real, n: nat): int { Ceil((pct / 100.0) * n as real) }

  /** The sample at the needed rank, with the index kept inside the list. */
  function AtRank(ordered: seq<real>, needed: int): real
    requires ordered != []
  {
    var rank := needed - 1;
    var least := if rank < |ordered| - 1 then rank else |ordered| - 1;
    ordered[if least > 0 then least else 0]
  }

  function Mean(values: seq<real>): real
    requires values != []
  {
    Sum(values) / |values| as real
  }

  /** The nearest-rank percentile; `None` when there are no samples. */
  function Percentile(values: seq<real>, pct: real): Option<real>
  {
    if values == [] then None
    else if pct <= 0.0 then Some(Min(values))
    else if pct >= 100.0 then Some(Max(values))
    else
      SortedMeaning(values);
      Some(AtRank(Sorted(values), Needed(pct, |values|)))
  }

  datatype Summary = Summary(count: nat, min: Option<real>, mean: Option<real>,
                             p50: Option<real>, p95: Option<real>, p99: Option<real>, max: Option<real>)

  function Summarize(timings: seq<real>): Summary
  {
    if timings == [] then Summary(0, None, None, None, None, None, None)
    else
      Summary(|timings|, Some(Min(timings)), Some(Mean(timings)),
              Percentile(timings, 50.0), Percentile(timings, 95.0), Percentile(timings, 99.0),
              Some(Max(timings)))
  }

  // ---------------------------------------------------------------- the reference

  /** How many samples are at most `v`. */
  function AtMost(values: seq<real>, v: real): (n: nat)
    ensures n <= |values|
  {
    if values == [] then 0 else (if values[0] <= v then 1 else 0) + AtMost(values[1..], v)
  }

  /** At least `pct` percent of the samples are at most `v`. */
  ghost predicate Covers(values: seq<real>, pct: real, v: real)
  {
    100.0 * AtMost(values, v) as real >= pct * |values| as real
  }

  /** The least sample that has at least `k` samples at or below it. */
  ghost predicate IsLeastWith(values: seq<real>, k: int, v: real)
  {
    && v in values && AtMost(values, v) >= k
    && forall w <- values :: AtMost(values, w) >= k ==> v <= w
  }

  ghost predicate Ascending(xs: seq<real>) { forall i, j :: 0 <= i < j < |xs| ==> xs[i] <= xs[j] }

  function Clamped(pct: real): real { if pct < 0.0 then 0.0 else if pct > 100.0 then 100.0 else pct }

  // ---------------------------------------------------------------- sorting

  lemma AscendingCons(x: real, xs: seq<real>)
    requires Ascending(xs) && forall y <- xs :: x <= y
    ensures Ascending([x] + xs)
  {
    var longer := [x] + xs;
    assert forall i :: 0 < i < |longer| ==> longer[i] == xs[i - 1];
    assert forall j :: 0 <= j < |xs| ==> xs[j] in xs;
  }

  lemma {:induction false} InsertMeaning(x: real, xs: seq<real>)
    requires Ascending(xs)
    ensures Ascending(Insert(x, xs)) && |Insert(x, xs)| == |xs| + 1
    ensures forall y :: y in Insert(x, xs) <==> y == x || y in xs
  {
    if xs != [] {
      assert xs == [xs[0]] + xs[1..];
      if x > xs[0] {
        InsertMeaning(x, xs[1..]);
        AscendingCons(xs[0], Insert(x, xs[1..]));
      } else {
        AscendingCons(x, xs);
      }
    }
  }

  lemma {:induction false} InsertCounts(x: real, xs: seq<real>, v: real)
    ensures AtMost(Insert(x, xs), v) == AtMost([x] + xs, v)
  {
    assert ([x] + xs)[1..] == xs;
    if xs != [] && x > xs[0] {
      var rest := Insert(x, xs[1..]);
      InsertCounts(x, xs[1..], v);
      assert ([xs[0]] + rest)[1..] == rest;
      assert ([x] + xs[1..])[1..] == xs[1..];
    }
  }

  lemma {:induction false} SortedMeaning(values: seq<real>)
    ensures Ascending(Sorted(values)) && |Sorted(values)| == |values|
    ensures forall y :: y in Sorted(values) <==> y in values
  {
    if values != [] {
      SortedMeaning(values[1..]);
      InsertMeaning(values[0], Sorted(values[1..]));
      assert values == [values[0]] + values[1..];
    }
  }

  lemma {:induction false} SortedCounts(values: seq<real>, v: real)
    ensures AtMost(Sorted(values), v) == AtMost(values, v)
  {
    if values != [] {
      var rest := Sorted(values[1..]);
      SortedCounts(values[1..], v);
      InsertCounts(values[0], rest, v);
      assert ([values[0]] + rest)[1..] == rest;
    }
  }

  lemma {:induction false} AtMostConcat(a: seq<real>, b: seq<real>, v: real)
    ensures AtMost(a + b, v) == AtMost(a, v) + AtMost(b, v)
  {
    if a == [] {
      assert a + b == b;
    } else {
      assert (a + b)[1..] == a[1..] + b;
      AtMostConcat(a[1..], b, v);
    }
  }

  /** Counting does not depend on the order of the samples. */
  lemma {:induction false} AtMostOfPermutation(a: seq<real>, b: seq<real>, v: real)
    requires multiset(a) == multiset(b)
    ensures AtMost(a, v) == AtMost(b, v)
  {
    if a == [] {
      assert |b| == |multiset(b)| == 0;
    } else {
      assert a == [a[0]] + a[1..];
      var before, after := SplitAt(a, b);
      AtMostOfPermutation(a[1..], before + after, v);
      AtMostConcat(before, after, v);
      AtMostConcat(before, [a[0]] + after, v);
      assert ([a[0]] + after)[1..] == after;
    }
  }

  lemma SplitAt(a: seq<real>, b: seq<real>) returns (before: seq<real>, after: seq<real>)
    requires multiset(a) == multiset(b) && a != []
    ensures b == before + ([a[0]] + after) && multiset(a[1..]) == multiset(before + after)
  {
    assert a == [a[0]] + a[1..];
    assert a[0] in multiset(b);
    var k :| 0 <= k < |b| && b[k] == a[0];
    before, after := b[..k], b[k + 1..];
    assert b == before + ([a[0]] + after);
    CancelOne(a[0], multiset(a[1..]), multiset(before + after));
  }

  lemma CancelOne(x: real, a: multiset<real>, b: multiset<real>)
    requires multiset{x} + a == multiset{x} + b
    ensures a == b
  {
    forall y: real
      ensures a[y] == b[y]
    {
      assert (multiset{x} + a)[y] == (multiset{x} + b)[y];
    }
  }

  lemma {:induction false} AllAtMost(xs: seq<real>, v: real)
    ensures (forall x <- xs :: x <= v) ==> AtMost(xs, v) == |xs|
    ensures (forall x <- xs :: x > v) ==> AtMost(xs, v) == 0
  {
    if xs != [] {
      assert xs[0] in xs && forall x <- xs[1..] :: x in xs;
      AllAtMost(xs[1..], v);
    }
  }

  /** In an ascending list position and count say the same. */
  lemma AtMostInAscending(xs: seq<real>, k: nat, v: real)
    requires Ascending(xs) && k < |xs|
    ensures xs[k] <= v ==> AtMost(xs, v) >= k + 1
    ensures xs[k] > v ==> AtMost(xs, v) <= k
  {
    if xs[k] <= v {
      var low, high := xs[..k + 1], xs[k + 1..];
      assert forall x <- low :: x <= xs[k];
      assert xs == low + high;
      AtMostConcat(low, high, v);
      AllAtMost(low, v);
    } else {
      var low, high := xs[..k], xs[k..];
      assert forall x <- high :: x >= xs[k];
      assert xs == low + high;
      AtMostConcat(low, high, v);
      AllAtMost(high, v);
    }
  }

  lemma {:induction false} MinMeaning(values: seq<real>)
    requires values != []
    ensures Min(values) in values && forall v <- values :: Min(values) <= v
  {
    if |values| > 1 {
      MinMeaning(values[1..]);
      assert values == [values[0]] + values[1..];
    }
  }

  lemma {:induction false} MaxMeaning(values: seq<real>)
    requires values != []
    ensures Max(values) in values && forall v <- values :: v <= Max(values)
  {
    if |values| > 1 {
      MaxMeaning(values[1..]);
      assert values == [values[0]] + values[1..];
    }
  }

  // ---------------------------------------------------------------- percentiles

  /** Counting up to the needed number and comparing percentages is the same. */
  lemma NeededMeaning(pct: real, n: nat, count: int)
    ensures count >= Needed(pct, n) <==> 100.0 * count as real >= pct * n as real
  {
    var share := (pct / 100.0) * n as real;
    assert 100.0 * share == pct * n as real;
    assert -(count as real) <= -share <==> -count <= (-share).Floor;
  }

  lemma NeededBounds(pct: real, n: nat)
    requires 0.0 < pct < 100.0 && n > 0
    ensures 0 < Needed(pct, n) <= n
  {
    NeededMeaning(pct, n, n);
    NeededMeaning(pct, n, 0);
    ShareBounds(pct, n as real);
  }

  lemma ShareBounds(pct: real, n: real)
    requires 0.0 < pct < 100.0 && n > 0.0
    ensures 0.0 < pct * n <= 100.0 * n
  {
    assert (100.0 - pct) * n >= 0.0;
  }

  lemma NeededAtTheEnds(n: nat)
    ensures Needed(0.0, n) == 0 && Needed(100.0, n) == n
  {
  }

  lemma NeededIsMonotone(p: real, q: real, n: nat)
    requires p <= q
    ensures Needed(p, n) <= Needed(q, n)
  {
    NeededMeaning(p, n, Needed(q, n));
    NeededMeaning(q, n, Needed(q, n));
    ShareIsMonotone(p, q, n as real);
  }

  lemma ShareIsMonotone(p: real, q: real, n: real)
    requires p <= q && n >= 0.0
    ensures p * n <= q * n
  {
  }

  lemma PercentileIsLeast(values: seq<real>, pct: real)
    requires values != []
    ensures Percentile(values, pct).Some?
    ensures IsLeastWith(values, Needed(Clamped(pct), |values|), Percentile(values, pct).value)
  {
    NeededAtTheEnds(|values|);
    if pct <= 0.0 {
      MinMeaning(values);
    } else if pct >= 100.0 {
      MaxIsLeastWithAll(values);
    } else {
      NeededBounds(pct, |values|);
      RankIsLeast(values, Needed(pct, |values|));
    }
  }

  lemma RankIsLeast(values: seq<real>, k: nat)
    requires 0 < k <= |values|
    ensures Sorted(values) != [] && IsLeastWith(values, k, AtRank(Sorted(values), k))
  {
    var ordered := Sorted(values);
    SortedMeaning(values);
    var v := AtRank(ordered, k);
    assert v == ordered[k - 1];
    forall w: real
      ensures AtMost(values, w) >= k <==> v <= w
    {
      SortedCounts(values, w);
      AtMostInAscending(ordered, k - 1, w);
    }
  }

  lemma MaxIsLeastWithAll(values: seq<real>)
    requires values != []
    ensures IsLeastWith(values, |values|, Max(values))
  {
    MaxMeaning(values);
    AllAtMost(values, Max(values));
    forall w <- values | w < Max(values)
      ensures AtMost(values, w) < |values|
    {
      NotAllAtMost(values, Max(values), w);
    }
  }

  /** The percentile of any samples, at any percentage, is the least sample at or below
      which that percentage of them lies. */
  lemma PercentileMeaning(values: seq<real>, pct: real)
    requires values != []
    ensures Percentile(values, pct).Some?
    ensures
      var v := Percentile(values, pct).value;
      && v in values && Covers(values, Clamped(pct), v)
      && forall w <- values :: Covers(values, Clamped(pct), w) ==> v <= w
  {
    PercentileIsLeast(values, pct);
    LeastCovers(values, Clamped(pct), Percentile(values, pct).value);
  }

  lemma LeastCovers(values: seq<real>, pct: real, v: real)
    requires IsLeastWith(values, Needed(pct, |values|), v)
    ensures Covers(values, pct, v)
    ensures forall w <- values :: Covers(values, pct, w) ==> v <= w
  {
    NeededMeaning(pct, |values|, AtMost(values, v));
    forall w <- values | Covers(values, pct, w)
      ensures v <= w
    {
      NeededMeaning(pct, |values|, AtMost(values, w));
    }
  }

  lemma {:induction false} NotAllAtMost(values: seq<real>, v: real, w: real)
    requires v in values && v > w
    ensures AtMost(values, w) < |values|
  {
    assert values == [values[0]] + values[1..];
    if values[0] != v {
      NotAllAtMost(values[1..], v, w);
    }
  }

  /** Only the samples count, not their order. */
  lemma PercentileOfPermutation(a: seq<real>, b: seq<real>, pct: real)
    requires multiset(a) == multiset(b)
    ensures Percentile(a, pct) == Percentile(b, pct)
  {
    assert |a| == |multiset(a)| == |b|;
    if a != [] {
      PercentileIsLeast(a, pct);
      PercentileIsLeast(b, pct);
      var v, w := Percentile(a, pct).value, Percentile(b, pct).value;
      assert v in multiset(b) && w in multiset(a);
      AtMostOfPermutation(a, b, v);
      AtMostOfPermutation(a, b, w);
    }
  }

  /** A higher percentage never gives a lower percentile. */
  lemma PercentileIsMonotone(values: seq<real>, p: real, q: real)
    requires values != [] && p <= q
    ensures Percentile(values, p).Some? && Percentile(values, q).Some?
    ensures Percentile(values, p).value <= Percentile(values, q).value
  {
    PercentileIsLeast(values, p);
    PercentileIsLeast(values, q);
    NeededIsMonotone(Clamped(p), Clamped(q), |values|);
  }

  /** The sum of `n` times the same value. */
  function Times(x: real, n: nat): real { if n == 0 then 0.0 else Times(x, n - 1) + x }

  lemma {:induction false} TimesMeaning(x: real, n: nat)
    ensures Times(x, n) == x * n as real
  {
    if n > 0 {
      TimesMeaning(x, n - 1);
      OneMore(x, (n - 1) as real);
      assert n as real == (n - 1) as real + 1.0;
    }
  }

  lemma OneMore(x: real, n: real)
    ensures x * (n + 1.0) == x * n + x
  {
  }

  lemma {:induction false} SumBounds(values: seq<real>, low: real, high: real)
    requires forall v <- values :: low <= v <= high
    ensures Times(low, |values|) <= Sum(values) <= Times(high, |values|)
  {
    if values != [] {
      assert values[0] in values && forall v <- values[1..] :: v in values;
      SumBounds(values[1..], low, high);
    }
  }

  lemma MeanBounds(sum: real, n: real, low: real, high: real)
    requires n > 0.0 && low * n <= sum <= high * n
    ensures low <= sum / n <= high
  {
    assert (sum / n) * n == sum;
  }

  lemma SumIsInside(timings: seq<real>)
    requires timings != []
    ensures Min(timings) * |timings| as real <= Sum(timings) <= Max(timings) * |timings| as real
  {
    MinMeaning(timings);
    MaxMeaning(timings);
    SumBounds(timings, Min(timings), Max(timings));
    TimesMeaning(Min(timings), |timings|);
    TimesMeaning(Max(timings), |timings|);
  }

  lemma MeanIsInside(timings: seq<real>)
    requires timings != []
    ensures Min(timings) <= Mean(timings) <= Max(timings)
  {
    SumIsInside(timings);
    MeanBounds(Sum(timings), |timings| as real, Min(timings), Max(timings));
  }

  lemma PercentilesAreOrdered(timings: seq<real>, p: real, q: real, r: real)
    requires timings != [] && 0.0 <= p <= q <= r <= 100.0
    ensures Percentile(timings, p).Some? && Percentile(timings, q).Some? && Percentile(timings, r).Some?
    ensures Min(timings) <= Percentile(timings, p).value <= Percentile(timings, q).value
    ensures Percentile(timings, q).value <= Percentile(timings, r).value <= Max(timings)
  {
    PercentileIsMonotone(timings, 0.0, p);
    PercentileIsMonotone(timings, p, q);
    PercentileIsMonotone(timings, q, r);
    PercentileIsMonotone(timings, r, 100.0);
  }

  /** A summary of at least one sample is complete and ordered, and its mean lies inside. */
  lemma SummaryIsOrdered(timings: seq<real>)
    requires timings != []
    ensures
      var s := Summarize(timings);
      && s.min.Some? && s.p50.Some? && s.p95.Some? && s.p99.Some? && s.max.Some? && s.mean.Some?
      && s.min.value <= s.p50.value <= s.p95.value <= s.p99.value <= s.max.value
      && s.min.value <= s.mean.value <= s.max.value
      && forall t <- timings :: s.min.value <= t <= s.max.value
  {
    MinMeaning(timings);
    MaxMeaning(timings);
    PercentilesAreOrdered(timings, 50.0, 95.0, 99.0);
    MeanIsInside(timings);
  }

  /** The least sample at or below which at least `pct` percent of the samples lie. */
  ghost predicate IsPercentile(values: seq<real>, pct: real, v: Option<real>)
  {
    && v.Some? && v.value in values && Covers(values, pct, v.value)
    && forall w <- values :: Covers(values, pct, w) ==> v.value <= w
  }

  /** What a summary reports: how many samples there are, the least and the greatest, and the 50th, 95th
      and 99th percentile. Without samples it reports nothing. */
  lemma SummaryMeaning(timings: seq<real>)
    ensures Summarize([]) == Summary(0, None, None, None, None, None, None)
    ensures timings != [] ==>
      var s := Summarize(timings);
      && s.count == |timings| && s.mean == Some(Mean(timings))
      && IsPercentile(timings, 50.0, s.p50) && IsPercentile(timings, 95.0, s.p95) && IsPercentile(timings, 99.0, s.p99)
      && s.min.Some? && s.min.value in timings && s.max.Some? && s.max.value in timings
      && forall t <- timings :: s.min.value <= t <= s.max.value
  {
    if timings != [] {
      PercentileMeaning(timings, 50.0);
      PercentileMeaning(timings, 95.0);
      PercentileMeaning(timings, 99.0);
      MinMeaning(timings);
      MaxMeaning(timings);
    }
  }

  lemma {:induction false} SumSnoc(values: seq<real>, x: real)
    ensures Sum(values + [x]) == Sum(values) + x
  {
    if values == [] {
      assert [] + [x] == [x] && [x][1..] == [];
    } else {
      assert (values + [x])[1..] == values[1..] + [x];
      SumSnoc(values[1..], x);
    }
  }

  lemma QuotientBack(sum: real, n: real)
    requires n > 0.0
    ensures sum / n * n == sum
  {
  }

  lemma MeanTimesCount(timings: seq<real>, n: real)
    requires timings != [] && n == |timings| as real
    ensures Mean(timings) * n == Sum(timings)
  {
    QuotientBack(Sum(timings), n);
  }

  /** The mean of one sample is that sample. */
  lemma MeanOfOne(x: real)
    ensures Mean([x]) == x
  {
    assert [x][1..] == [] && Sum([]) == 0.0;
    MeanTimesCount([x], 1.0);
  }

  /** Each further sample adds itself to the total. */
  lemma MeanGrows(timings: seq<real>, x: real, n: real)
    requires timings != [] && n == |timings| as real
    ensures Mean(timings + [x]) * (n + 1.0) == Mean(timings) * n + x
  {
    MeanTimesCount(timings, n);
    MeanTimesCount(timings + [x], n + 1.0);
    SumSnoc(timings, x);
  }
}
