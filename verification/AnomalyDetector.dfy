/**
 Connection-rate anomalies: a window of timestamps gives a rate for each event, and a
 window of rates gives the baseline the next rate is compared with. Arithmetic is over
 the reals, and the z-score test compares squares.
 */
module AnomalyDetector {
  import opened Sequences

  const WINDOW_SIZE := 200
  const MAX_LOGGED_ANOMALIES := 1000
  const MEBIBYTE := 1048576.0

  // ---------------------------------------------------------------- statistics

  function Sum(xs: seq<real>): real { if xs == [] then 0.0 else xs[0] + Sum(xs[1..]) }

  function Product(a: real, b: real): (r: real)
    ensures (a > 0.0 && b > 0.0) || (a < 0.0 && b < 0.0) ==> r > 0.0
    ensures a == 0.0 || b == 0.0 ==> r == 0.0
  {
    a * b
  }

  function Square(d: real): (r: real)
    ensures r >= 0.0 && (r == 0.0 <==> d == 0.0)
  {
    Product(d, d)
  }

  lemma PositiveProduct(a: real, b: real)
    ensures a > 0.0 && b > 0.0 ==> a * b > 0.0
  {
  }

  function SquaresAround(xs: seq<real>, m: real): (r: real)
    ensures r >= 0.0
  {
    if xs == [] then 0.0 else Square(xs[0] - m) + SquaresAround(xs[1..], m)
  }

  function Mean(xs: seq<real>): real { if xs == [] then 0.0 else Sum(xs) / |xs| as real }

  /** The square of `stdev()`. */
  function Variance(xs: seq<real>): real
  {
    if |xs| < 2 then 0.0 else SquaresAround(xs, Mean(xs)) / (|xs| - 1) as real
  }

  /** `zscore(value) > threshold` for a positive threshold. */
  predicate ZScoreExceeds(xs: seq<real>, value: real, threshold: real)
  {
    var d := value - Mean(xs);
    Variance(xs) > 0.0 && d > 0.0 && Square(d) > Square(threshold) * Variance(xs)
  }

  /** The branch for a window without deviation: at least twice the baseline. */
  predicate DoublesFlatBaseline(xs: seq<real>, value: real)
  {
    Variance(xs) == 0.0 && Mean(xs) > 0.0 && value >= Mean(xs) * 2.0
  }

  predicate Unusual(xs: seq<real>, value: real, threshold: real)
  {
    |xs| >= 2 && (ZScoreExceeds(xs, value, threshold) || DoublesFlatBaseline(xs, value))
  }

  ghost predicate AllEqual(xs: seq<real>, m: real) { forall i :: 0 <= i < |xs| ==> xs[i] == m }

  lemma {:induction false} SumOfEqual(xs: seq<real>, m: real)
    requires AllEqual(xs, m)
    ensures Sum(xs) == |xs| as real * m
  {
    if xs != [] {
      SumOfEqual(xs[1..], m);
    }
  }

  lemma {:induction false} SquaresVanish(xs: seq<real>, m: real)
    ensures SquaresAround(xs, m) == 0.0 <==> AllEqual(xs, m)
  {
    if xs != [] {
      SquaresVanish(xs[1..], m);
      assert Square(xs[0] - m) == 0.0 <==> xs[0] == m;
      var rest := xs[1..];
      assert forall i :: 1 <= i < |xs| ==> xs[i] == rest[i - 1];
    }
  }

  lemma MeanOfEqual(xs: seq<real>, m: real)
    requires xs != [] && AllEqual(xs, m)
    ensures Mean(xs) == m
  {
    SumOfEqual(xs, m);
  }

  /** The sample variance is zero exactly when all values are the same. */
  lemma VarianceVanishes(xs: seq<real>)
    requires |xs| >= 2
    ensures Variance(xs) == 0.0 <==> AllEqual(xs, xs[0])
  {
    var n := (|xs| - 1) as real;
    var s := SquaresAround(xs, Mean(xs));
    assert s / n == 0.0 <==> s == 0.0;
    SquaresVanish(xs, Mean(xs));
    assert xs[0] in xs;
    if AllEqual(xs, xs[0]) {
      MeanOfEqual(xs, xs[0]);
    }
  }

  // ---------------------------------------------------------------- one destination

  /** What is kept for one destination: recent timestamps, and recent rates. */
  datatype Destination = Destination(times: seq<real>, rates: seq<real>)

  const UNSEEN := Destination([], [])

  /** Drop timestamps from the front while they are older than the window. */
  function Evicted(times: seq<real>, now: real, window: real): seq<real>
  {
    if times != [] && now - times[0] > window then Evicted(times[1..], now, window) else times
  }

  /** The number of connections that the event at `now` is counted with, itself included. */
  function ConnectionCount(d: Destination, now: real, window: real): nat
  {
    |Evicted(d.times, now, window)| + 1
  }

  function Rate(d: Destination, now: real, window: real): real
    requires window > 0.0
  {
    ConnectionCount(d, now, window) as real / window
  }

  function AfterEvent(d: Destination, now: real, window: real): Destination
    requires window > 0.0
  {
    Destination(LastN(Evicted(d.times, now, window) + [now], WINDOW_SIZE),
                LastN(d.rates + [Rate(d, now, window)], WINDOW_SIZE))
  }

  function AfterEvents(arrivals: seq<real>, window: real): Destination
    requires window > 0.0
  {
    if arrivals == [] then UNSEEN
    else AfterEvent(AfterEvents(arrivals[..|arrivals| - 1], window), arrivals[|arrivals| - 1], window)
  }

  /** The last rate accounts for every timestamp kept, and no rate is below one connection
      per window. */
  ghost predicate RatesCoverTimes(d: Destination, window: real)
  {
    && (d.rates == [] ==> d.times == [])
    && (d.rates != [] ==> |d.times| as real <= d.rates[|d.rates| - 1] * window)
    && forall r <- d.rates :: r * window >= 1.0
  }

  lemma {:induction false} EvictedIsShorter(times: seq<real>, now: real, window: real)
    ensures |Evicted(times, now, window)| <= |times|
  {
    if times != [] && now - times[0] > window {
      EvictedIsShorter(times[1..], now, window);
    }
  }

  lemma EventKeepsCover(d: Destination, now: real, window: real)
    requires window > 0.0 && RatesCoverTimes(d, window)
    ensures RatesCoverTimes(AfterEvent(d, now, window), window)
  {
    var rate := Rate(d, now, window);
    assert rate * window == ConnectionCount(d, now, window) as real;
    var all := d.rates + [rate];
    var kept := LastN(all, WINDOW_SIZE);
    assert kept[|kept| - 1] == rate;
    assert forall r <- kept :: r in all;
  }

  lemma {:induction false} EventsKeepCover(arrivals: seq<real>, window: real)
    requires window > 0.0
    ensures RatesCoverTimes(AfterEvents(arrivals, window), window)
  {
    if arrivals != [] {
      var front := arrivals[..|arrivals| - 1];
      EventsKeepCover(front, window);
      EventKeepsCover(AfterEvents(front, window), arrivals[|arrivals| - 1], window);
    }
  }

  /** Whatever the arrival times, the flat-baseline branch fires exactly when at least two
      rates are kept, each of them is one connection per window, and the event is counted
      as the second: the count grows by at most one per event, so it cannot double any
      higher baseline. */
  lemma FlatBranchMeansOneThenTwo(arrivals: seq<real>, now: real, window: real)
    requires window > 0.0
    ensures var d := AfterEvents(arrivals, window);
      |d.rates| >= 2 && DoublesFlatBaseline(d.rates, Rate(d, now, window))
      <==> |d.rates| >= 2 && AllEqual(d.rates, 1.0 / window) && ConnectionCount(d, now, window) == 2
  {
    var d := AfterEvents(arrivals, window);
    EventsKeepCover(arrivals, window);
    EvictedIsShorter(d.times, now, window);
    if |d.rates| >= 2 {
      FlatBranchOf(d, ConnectionCount(d, now, window), window);
    }
  }

  lemma FlatBranchOf(d: Destination, count: nat, window: real)
    requires window > 0.0 && RatesCoverTimes(d, window) && |d.rates| >= 2 && count <= |d.times| + 1
    ensures DoublesFlatBaseline(d.rates, count as real / window) <==> AllEqual(d.rates, 1.0 / window) && count == 2
  {
    VarianceVanishes(d.rates);
    var r := d.rates[0];
    assert r in d.rates && d.rates[|d.rates| - 1] in d.rates;
    if AllEqual(d.rates, r) {
      MeanOfEqual(d.rates, r);
      FlatArithmetic(r, |d.times|, count, window);
    }
  }

  /** With `times` kept at a rate `r` of at least one, a count of at most one more doubles
      `r` exactly when `r` is one and the count two. */
  lemma FlatArithmetic(r: real, times: nat, count: nat, window: real)
    requires window > 0.0 && r * window >= 1.0
    requires times as real <= r * window && count <= times + 1
    ensures r > 0.0
    ensures count as real / window >= r * 2.0 <==> r == 1.0 / window && count == 2
  {
    var q := count as real / window;
    assert q * window == count as real;
    PositiveProduct(-r, window);
    PositiveProduct(q - r * 2.0, window);
    PositiveProduct(r * 2.0 - q, window);
    assert (q - r * 2.0) * window == count as real - 2.0 * (r * window);
    assert r * window == 1.0 <==> r == 1.0 / window;
  }

  // ---------------------------------------------------------------- the timestamp window

  ghost predicate NonDecreasing(xs: seq<real>)
  {
    forall i, j :: 0 <= i <= j < |xs| ==> xs[i] <= xs[j]
  }

  function Fresh(now: real, window: real): real -> bool { (t: real) => !(now - t > window) }

  /** The arrivals that are not older than the window at `now`. */
  function InWindow(arrivals: seq<real>, now: real, window: real): seq<real>
  {
    Keep(arrivals, Fresh(now, window))
  }

  /** On sorted timestamps, eviction is filtering. */
  lemma {:induction false} EvictionFilters(times: seq<real>, now: real, window: real)
    requires NonDecreasing(times)
    ensures Evicted(times, now, window) == InWindow(times, now, window)
  {
    if times != [] {
      if now - times[0] > window {
        EvictionFilters(times[1..], now, window);
      } else {
        assert forall t <- times :: Fresh(now, window)(t);
        KeepEverything(times, Fresh(now, window));
      }
    }
  }

  /** How many timestamps eviction drops. */
  function Stale(times: seq<real>, now: real, window: real): (c: nat)
    ensures c <= |times|
  {
    if times != [] && now - times[0] > window then 1 + Stale(times[1..], now, window) else 0
  }

  /** On sorted timestamps the window is a suffix. */
  lemma {:induction false} WindowIsSuffix(times: seq<real>, now: real, window: real)
    requires NonDecreasing(times)
    ensures InWindow(times, now, window) == times[Stale(times, now, window)..]
  {
    if times != [] {
      if now - times[0] > window {
        WindowIsSuffix(times[1..], now, window);
        assert times[1..][Stale(times[1..], now, window)..] == times[Stale(times, now, window)..];
      } else {
        assert forall t <- times :: Fresh(now, window)(t);
        KeepEverything(times, Fresh(now, window));
      }
    }
  }

  /** Of a suffix as many are stale as are left of the stale ones. */
  lemma {:induction false} StaleOfSuffix(times: seq<real>, cut: nat, now: real, window: real)
    requires NonDecreasing(times) && cut <= |times|
    ensures Stale(times[cut..], now, window) ==
      if Stale(times, now, window) <= cut then 0 else Stale(times, now, window) - cut
  {
    if cut > 0 {
      if now - times[0] > window {
        StaleOfSuffix(times[1..], cut - 1, now, window);
        assert times[1..][cut - 1..] == times[cut..];
      } else if cut < |times| {
        assert times[0] <= times[cut];
      }
    }
  }

  lemma WindowOfLastN(times: seq<real>, n: nat, now: real, window: real)
    requires NonDecreasing(times)
    ensures InWindow(LastN(times, n), now, window) == LastN(InWindow(times, now, window), n)
  {
    var last := LastN(times, n);
    var cut := |times| - |last|;
    assert last == times[cut..];
    assert NonDecreasing(last);
    WindowIsSuffix(times, now, window);
    WindowIsSuffix(last, now, window);
    StaleOfSuffix(times, cut, now, window);
    SuffixOfSuffix(times, Stale(times, now, window), n);
  }

  lemma SuffixOfSuffix(times: seq<real>, c: nat, n: nat)
    requires c <= |times|
    ensures var cut := |times| - |LastN(times, n)|;
      LastN(times[c..], n) == times[cut..][if c <= cut then 0 else c - cut..]
  {
  }

  lemma NonDecreasingParts(xs: seq<real>, n: nat, now: real, window: real)
    requires NonDecreasing(xs)
    ensures NonDecreasing(LastN(xs, n)) && NonDecreasing(InWindow(xs, now, window))
  {
    WindowIsSuffix(xs, now, window);
  }

  /** For timestamps that do not go back, what is kept after each event is exactly the last
      200 of the arrivals that are in the window at that moment. */
  lemma {:induction false} TimesAreLatestInWindow(arrivals: seq<real>, window: real)
    requires window > 0.0 && NonDecreasing(arrivals) && arrivals != []
    ensures AfterEvents(arrivals, window).times
         == LastN(InWindow(arrivals, arrivals[|arrivals| - 1], window), WINDOW_SIZE)
  {
    var front, now := arrivals[..|arrivals| - 1], arrivals[|arrivals| - 1];
    EvictedIsLatestInWindow(front, now, window);
    assert arrivals == front + [now];
    KeepSnoc(front, now, Fresh(now, window));
    LastNAppend(InWindow(front, now, window), [now], WINDOW_SIZE);
  }

  lemma {:induction false} EvictedIsLatestInWindow(front: seq<real>, now: real, window: real)
    requires window > 0.0 && NonDecreasing(front + [now])
    ensures Evicted(AfterEvents(front, window).times, now, window)
         == LastN(InWindow(front, now, window), WINDOW_SIZE)
    decreases |front|, 0
  {
    if front != [] {
      var previous := front[|front| - 1];
      assert previous == (front + [now])[|front| - 1] && now == (front + [now])[|front|];
      assert forall i :: 0 <= i < |front| ==> front[i] == (front + [now])[i];
      var earlier := front[..|front| - 1];
      assert earlier + [previous] == front;
      EvictedIsLatestInWindow(earlier, previous, window);
      var kept := InWindow(front, previous, window);
      KeepSnoc(earlier, previous, Fresh(previous, window));
      LastNAppend(InWindow(earlier, previous, window), [previous], WINDOW_SIZE);
      NonDecreasingParts(front, WINDOW_SIZE, previous, window);
      NonDecreasingParts(kept, WINDOW_SIZE, now, window);
      EvictionFilters(LastN(kept, WINDOW_SIZE), now, window);
      WindowOfLastN(kept, WINDOW_SIZE, now, window);
      KeepTwice(front, Fresh(previous, window), Fresh(now, window));
    }
  }

  /** The reported rate is the direct count of connections in the window while fewer than
      200 earlier ones are in it, and never more than 201 per window. */
  lemma RateRefinesDirectCount(front: seq<real>, now: real, window: real)
    requires window > 0.0 && NonDecreasing(front + [now])
    ensures var direct := |InWindow(front + [now], now, window)|;
      ConnectionCount(AfterEvents(front, window), now, window) ==
        if direct <= WINDOW_SIZE + 1 then direct else WINDOW_SIZE + 1
  {
    EvictedIsLatestInWindow(front, now, window);
    KeepSnoc(front, now, Fresh(now, window));
  }

  // ---------------------------------------------------------------- the detector

  /** One event; `timestamp` is `None` when it is no finite number, `bytesSent` when the
      counters are missing or unusable. */
  datatype ConnectionEvent = ConnectionEvent(
    timestamp: Option<real>, dst: string, destination: string, // `destination` is `dst` stripped
    bytesSent: Option<real>)

  datatype Anomaly =
    | ConnectionSpike(ip: string)
    | FailedStorm(ip: string, attempts: nat)
    | BulkExfiltration(ip: string)

  function Count(m: map<string, nat>, ip: string): nat { if ip in m then m[ip] else 0 }

  // ---------------------------------------------------------------- runs

  lemma AfterEventsStep(arrivals: seq<real>, i: nat, window: real)
    requires window > 0.0 && i < |arrivals|
    ensures AfterEvents(arrivals[..i + 1], window)
         == AfterEvent(AfterEvents(arrivals[..i], window), arrivals[i], window)
  {
    assert arrivals[..i + 1][..i] == arrivals[..i];
  }

  predicate SpikeAt(earlier: seq<real>, now: real, window: real, threshold: real)
    requires window > 0.0
  {
    var d := AfterEvents(earlier, window);
    Unusual(d.rates, Rate(d, now, window), threshold)
  }

  /** The verdicts over a run of events, given the one on each event behind those before it. */
  function Verdicts<T>(events: seq<T>, judge: (seq<T>, T) -> bool): seq<bool>
  {
    if events == [] then []
    else
      var front, last := events[..|events| - 1], events[|events| - 1];
      Verdicts(front, judge) + [judge(front, last)]
  }

  lemma VerdictsStep<T>(events: seq<T>, i: nat, judge: (seq<T>, T) -> bool)
    requires i < |events|
    ensures Verdicts(events[..i + 1], judge) == Verdicts(events[..i], judge) + [judge(events[..i], events[i])]
  {
    assert events[..i + 1][..i] == events[..i];
  }

  lemma {:induction false} VerdictAt<T>(events: seq<T>, judge: (seq<T>, T) -> bool, i: nat)
    requires i < |events|
    ensures |Verdicts(events, judge)| == |events| && Verdicts(events, judge)[i] == judge(events[..i], events[i])
  {
    var n := |events| - 1;
    VerdictsLength(events[..n], judge);
    if i < n {
      VerdictAt(events[..n], judge, i);
      assert events[..n][..i] == events[..i];
    }
  }

  lemma {:induction false} VerdictsLength<T>(events: seq<T>, judge: (seq<T>, T) -> bool)
    ensures |Verdicts(events, judge)| == |events|
  {
    if events != [] {
      VerdictsLength(events[..|events| - 1], judge);
    }
  }

  lemma VerdictsMeaning<T>(events: seq<T>, judge: (seq<T>, T) -> bool)
    ensures |Verdicts(events, judge)| == |events|
    ensures forall i :: 0 <= i < |events| ==> Verdicts(events, judge)[i] == judge(events[..i], events[i])
  {
    VerdictsLength(events, judge);
    forall i | 0 <= i < |events|
      ensures Verdicts(events, judge)[i] == judge(events[..i], events[i])
    {
      VerdictAt(events, judge, i);
    }
  }

  function SpikeJudge(window: real, threshold: real): (seq<real>, real) -> bool
    requires window > 0.0
  {
    (earlier: seq<real>, now: real) => SpikeAt(earlier, now, window, threshold)
  }

  /** The failure is the tenth or the fiftieth to its destination, on top of those in `start`. */
  predicate StormAt(start: map<string, nat>, earlier: seq<ConnectionEvent>, event: ConnectionEvent)
  {
    Count(start, event.destination) + FailuresTo(earlier, event.destination) + 1 in {10, 50}
  }

  function StormJudge(start: map<string, nat>): (seq<ConnectionEvent>, ConnectionEvent) -> bool
  {
    (earlier: seq<ConnectionEvent>, event: ConnectionEvent) => StormAt(start, earlier, event)
  }

  function ExfiltrationJudge(threshold: real): (seq<Option<real>>, Option<real>) -> bool
  {
    (earlier: seq<Option<real>>, transfer: Option<real>) => ExfiltrationAt(earlier, transfer, threshold)
  }

  /** The failure counts after a run. */
  function FailuresAfter(start: map<string, nat>, events: seq<ConnectionEvent>): map<string, nat>
  {
    if events == [] then start
    else
      var n := |events| - 1;
      var front, ip := FailuresAfter(start, events[..n]), events[n].destination;
      front[ip := Count(front, ip) + 1]
  }

  lemma FailuresAfterStep(start: map<string, nat>, events: seq<ConnectionEvent>, i: nat)
    requires i < |events|
    ensures var front, ip := FailuresAfter(start, events[..i]), events[i].destination;
      FailuresAfter(start, events[..i + 1]) == front[ip := Count(front, ip) + 1]
  {
    assert events[..i + 1][..i] == events[..i];
  }

  lemma {:induction false} FailuresAfterMeaning(start: map<string, nat>, events: seq<ConnectionEvent>, ip: string)
    ensures Count(FailuresAfter(start, events), ip) == Count(start, ip) + FailuresTo(events, ip)
  {
    if events != [] {
      FailuresAfterMeaning(start, events[..|events| - 1], ip);
    }
  }

  /** How many of the failed connections are to one destination. */
  function FailuresTo(events: seq<ConnectionEvent>, ip: string): nat
  {
    if events == [] then 0
    else
      var n := |events| - 1;
      FailuresTo(events[..n], ip) + if events[n].destination == ip then 1 else 0
  }

  lemma StormsFromNothing(events: seq<ConnectionEvent>)
    ensures forall i :: 0 <= i < |events| ==>
      (StormAt(map[], events[..i], events[i]) <==> FailuresTo(events[..i], events[i].destination) + 1 in {10, 50})
  {
  }

  /** A transfer that can be compared at all. */
  function Usable(transfer: Option<real>): Option<real>
  {
    if transfer.Some? && transfer.value < 0.0 then None else transfer
  }

  function UsableTransfers(transfers: seq<Option<real>>): seq<real> { FilterMap(transfers, Usable) }

  /** What the detector keeps of the transfers to one destination. */
  function Baseline(transfers: seq<Option<real>>): seq<real> { LastN(UsableTransfers(transfers), WINDOW_SIZE) }

  lemma BaselineStep(transfers: seq<Option<real>>, i: nat)
    requires i < |transfers|
    ensures Baseline(transfers[..i + 1])
         == LastN(Baseline(transfers[..i]) + OneOrNone(Usable(transfers[i])), WINDOW_SIZE)
  {
    assert transfers[..i + 1] == transfers[..i] + [transfers[i]];
    FilterMapSnoc(transfers[..i], transfers[i], Usable);
    LastNAppend(UsableTransfers(transfers[..i]), OneOrNone(Usable(transfers[i])), WINDOW_SIZE);
  }

  /** A transfer is reported if it is large and unusual against the latest ones before it. */
  predicate ExfiltrationAt(earlier: seq<Option<real>>, transfer: Option<real>, threshold: real)
  {
    && Usable(transfer).Some? && transfer.value >= MEBIBYTE
    && Unusual(Baseline(earlier), transfer.value, threshold)
  }

  /** Only what lies above the mean of at least two earlier values is ever reported. */
  lemma UnusualIsAboveMean(xs: seq<real>, value: real, threshold: real)
    requires Unusual(xs, value, threshold)
    ensures |xs| >= 2 && value > Mean(xs)
  {
  }

  /** After equal values exactly those of at least twice their size are reported. */
  lemma FlatBaselineIff(xs: seq<real>, b: real, value: real, threshold: real)
    requires |xs| >= 2 && AllEqual(xs, b) && b > 0.0
    ensures Unusual(xs, value, threshold) <==> value >= b * 2.0
  {
    assert xs[0] == b;
    VarianceVanishes(xs);
    MeanOfEqual(xs, b);
  }

  // ---------------------------------------------------------------- what the verdicts mean

  /** The sum of `f` over the samples. */
  ghost function Total(xs: seq<real>, f: real -> real): real
  {
    if xs == [] then 0.0 else Total(xs[..|xs| - 1], f) + f(xs[|xs| - 1])
  }

  /** `m` is the mean of the samples, and `s` their sample standard deviation. */
  ghost predicate HasMoments(xs: seq<real>, m: real, s: real)
  {
    && |xs| >= 2 && s >= 0.0
    && m * |xs| as real == Total(xs, x => x)
    && s * s * (|xs| - 1) as real == Total(xs, x => (x - m) * (x - m))
  }

  /** The test for samples with these moments: more than `threshold` deviations above the mean; and
      without deviation, at least twice a positive mean. */
  ghost predicate StandsOut(m: real, s: real, value: real, threshold: real)
  {
    if s > 0.0 then value > m + threshold * s else m > 0.0 && value >= 2.0 * m
  }

  lemma {:induction false} TotalFront(xs: seq<real>, f: real -> real)
    requires xs != []
    ensures Total(xs, f) == f(xs[0]) + Total(xs[1..], f)
  {
    if |xs| > 1 {
      TotalFront(xs[..|xs| - 1], f);
      assert xs[..|xs| - 1][1..] == xs[1..][..|xs| - 2];
    }
  }

  lemma {:induction false} SumIsTotal(xs: seq<real>, f: real -> real)
    requires forall x :: f(x) == x
    ensures Sum(xs) == Total(xs, f)
  {
    if xs != [] {
      TotalFront(xs, f);
      SumIsTotal(xs[1..], f);
    }
  }

  lemma {:induction false} SquaresAreTotal(xs: seq<real>, m: real, f: real -> real)
    requires forall x :: f(x) == (x - m) * (x - m)
    ensures SquaresAround(xs, m) == Total(xs, f)
  {
    if xs != [] {
      TotalFront(xs, f);
      SquaresAreTotal(xs[1..], m, f);
    }
  }

  lemma QuotientIs(a: real, b: real, q: real)
    requires b > 0.0 && q * b == a
    ensures a / b == q
  {
    assert (a / b) * b == a;
    assert (a / b - q) * b == 0.0;
  }

  lemma MomentsAre(xs: seq<real>, m: real, s: real)
    requires HasMoments(xs, m, s)
    ensures Mean(xs) == m && Variance(xs) == s * s
  {
    SumIsTotal(xs, x => x);
    QuotientIs(Sum(xs), |xs| as real, m);
    SquaresAreTotal(xs, m, x => (x - m) * (x - m));
    QuotientIs(SquaresAround(xs, m), (|xs| - 1) as real, s * s);
  }

  lemma SquaresCompare(a: real, b: real)
    requires a > 0.0 && b > 0.0
    ensures a * a > b * b <==> a > b
  {
    if a > b {
      assert a * a > a * b > b * b;
    } else {
      assert a * a <= a * b <= b * b;
    }
  }

  lemma ProductOfSquares(t: real, s: real)
    ensures Square(t) * (s * s) == (t * s) * (t * s)
  {
  }

  /** When a value is reported, for a positive threshold: in terms of mean and deviation alone. */
  lemma UnusualIff(xs: seq<real>, m: real, s: real, value: real, threshold: real)
    requires threshold > 0.0 && HasMoments(xs, m, s)
    ensures Unusual(xs, value, threshold) <==> StandsOut(m, s, value, threshold)
  {
    MomentsAre(xs, m, s);
    if s > 0.0 {
      ProductOfSquares(threshold, s);
      if value > m {
        PositiveProduct(threshold, s);
        SquaresCompare(value - m, threshold * s);
      } else {
        PositiveProduct(threshold, s);
      }
    }
  }

  /** With fewer than two samples nothing is reported. */
  lemma TooFewSamples(xs: seq<real>, value: real, threshold: real)
    ensures |xs| < 2 ==> !Unusual(xs, value, threshold)
  {
  }

  /** A verdict on samples, by their moments. */
  ghost predicate Judged(xs: seq<real>, value: real, threshold: real, verdict: bool)
  {
    && (|xs| < 2 ==> !verdict)
    && forall m: real, s: real | HasMoments(xs, m, s) :: verdict <==> StandsOut(m, s, value, threshold)
  }

  lemma UnusualIsJudged(xs: seq<real>, value: real, threshold: real)
    requires threshold > 0.0
    ensures Judged(xs, value, threshold, Unusual(xs, value, threshold))
  {
    forall m: real, s: real | HasMoments(xs, m, s)
      ensures Unusual(xs, value, threshold) <==> StandsOut(m, s, value, threshold)
    {
      UnusualIff(xs, m, s, value, threshold);
    }
  }

  /** How many of the first `i + 1` arrivals are at most one window older than the last of them, the
      last included; counted up to 201. */
  function CountAt(arrivals: seq<real>, i: nat, window: real): nat
    requires i < |arrivals|
  {
    var direct := |Keep(arrivals[..i + 1], t => arrivals[i] - t <= window)|;
    if direct <= 201 then direct else 201
  }

  function RatesOf(arrivals: seq<real>, window: real): seq<real>
    requires window > 0.0
  {
    seq(|arrivals|, i requires 0 <= i < |arrivals| => CountAt(arrivals, i, window) as real / window)
  }

  lemma {:induction false} KeepSame(xs: seq<real>, f: real -> bool, g: real -> bool)
    requires forall x :: f(x) == g(x)
    ensures Keep(xs, f) == Keep(xs, g)
  {
    if xs != [] {
      KeepSame(xs[1..], f, g);
    }
  }

  lemma RateIsCount(arrivals: seq<real>, window: real)
    requires window > 0.0 && NonDecreasing(arrivals) && arrivals != []
    ensures var n := |arrivals| - 1;
      Rate(AfterEvents(arrivals[..n], window), arrivals[n], window) == CountAt(arrivals, n, window) as real / window
  {
    var n := |arrivals| - 1;
    assert arrivals == arrivals[..n] + [arrivals[n]] && arrivals[..n + 1] == arrivals;
    RateRefinesDirectCount(arrivals[..n], arrivals[n], window);
    KeepSame(arrivals, Fresh(arrivals[n], window), t => arrivals[n] - t <= window);
  }

  lemma RatesOfFront(arrivals: seq<real>, n: nat, window: real)
    requires window > 0.0 && n <= |arrivals|
    ensures RatesOf(arrivals[..n], window) == RatesOf(arrivals, window)[..n]
  {
    forall i | 0 <= i < n
      ensures CountAt(arrivals[..n], i, window) == CountAt(arrivals, i, window)
    {
      assert arrivals[..n][..i + 1] == arrivals[..i + 1] && arrivals[..n][i] == arrivals[i];
      KeepSame(arrivals[..i + 1], t => arrivals[..n][i] - t <= window, t => arrivals[i] - t <= window);
    }
  }

  /** For times that do not go back, the rates kept are the last 200 direct counts per window. */
  lemma {:induction false} RatesAreCounts(arrivals: seq<real>, window: real)
    requires window > 0.0 && NonDecreasing(arrivals)
    ensures AfterEvents(arrivals, window).rates == LastN(RatesOf(arrivals, window), 200)
  {
    if arrivals != [] {
      var n := |arrivals| - 1;
      RatesAreCounts(arrivals[..n], window);
      RatesOfFront(arrivals, n, window);
      RateIsCount(arrivals, window);
      var all := RatesOf(arrivals, window);
      assert all == all[..n] + [all[n]];
      LastNAppend(all[..n], [all[n]], 200);
    }
  }

  /** The verdict on the last of some arrivals that do not go back: its count per window is judged by
      the moments of the last 200 counts per window before it. */
  lemma SpikeIff(arrivals: seq<real>, window: real, threshold: real)
    requires window > 0.0 && threshold > 0.0 && NonDecreasing(arrivals) && arrivals != []
    ensures var n := |arrivals| - 1;
      Judged(LastN(RatesOf(arrivals, window)[..n], 200), RatesOf(arrivals, window)[n], threshold,
             SpikeAt(arrivals[..n], arrivals[n], window, threshold))
  {
    var n := |arrivals| - 1;
    RatesAreCounts(arrivals[..n], window);
    RatesOfFront(arrivals, n, window);
    RateIsCount(arrivals, window);
    UnusualIsJudged(AfterEvents(arrivals[..n], window).rates, RatesOf(arrivals, window)[n], threshold);
  }

  lemma SpikeAtIff(arrivals: seq<real>, i: nat, window: real, threshold: real)
    requires window > 0.0 && threshold > 0.0 && NonDecreasing(arrivals) && i < |arrivals|
    ensures Judged(LastN(RatesOf(arrivals, window)[..i], 200), RatesOf(arrivals, window)[i], threshold,
                   SpikeAt(arrivals[..i], arrivals[i], window, threshold))
  {
    var front := arrivals[..i + 1];
    assert front[..i] == arrivals[..i];
    RatesOfFront(arrivals, i + 1, window);
    SpikeIff(front, window, threshold);
    assert RatesOf(front, window)[..i] == RatesOf(arrivals, window)[..i];
  }

  lemma TotalOfFour(a: real, b: real, c: real, d: real, f: real -> real)
    ensures Total([a, b, c, d], f) == f(a) + f(b) + f(c) + f(d)
  {
    assert [a][..0] == [] && Total([a], f) == f(a);
    assert [a, b][..1] == [a] && Total([a, b], f) == f(a) + f(b);
    assert [a, b, c][..2] == [a, b] && Total([a, b, c], f) == f(a) + f(b) + f(c);
    assert [a, b, c, d][..3] == [a, b, c];
  }

  /** Three samples of one size and one of twice that size. */
  lemma MomentsOfBurst(q: real)
    requires q > 0.0
    ensures HasMoments([q, q, q, 2.0 * q], 1.25 * q, 0.5 * q)
  {
    var m := 1.25 * q;
    TotalOfFour(q, q, q, 2.0 * q, x => x);
    TotalOfFour(q, q, q, 2.0 * q, x => (x - m) * (x - m));
  }

  /** The first `n` arrivals, and one more that finds `kept` of the times in the window. */
  lemma OneMore(arrivals: seq<real>, n: nat, window: real, kept: seq<real>, rates: seq<real>)
    requires window > 0.0 && n < |arrivals| && |kept| < 10 && |rates| < 10
    requires AfterEvents(arrivals[..n], window).rates == rates
    requires Evicted(AfterEvents(arrivals[..n], window).times, arrivals[n], window) == kept
    ensures AfterEvents(arrivals[..n + 1], window)
         == Destination(kept + [arrivals[n]], rates + [(|kept| + 1) as real / window])
  {
    AfterEventsStep(arrivals, n, window);
  }

  /** An arrival more than a window behind the one time that is kept. */
  lemma FarEvent(arrivals: seq<real>, n: nat, window: real, t: real, rates: seq<real>)
    requires window > 0.0 && n < |arrivals| && |rates| < 10 && arrivals[n] - t > window
    requires AfterEvents(arrivals[..n], window) == Destination([t], rates)
    ensures AfterEvents(arrivals[..n + 1], window) == Destination([arrivals[n]], rates + [1.0 / window])
  {
    assert [t][1..] == [];
    assert Evicted([t][1..], arrivals[n], window) == [];
    assert Evicted([t], arrivals[n], window) == [];
    OneMore(arrivals, n, window, [], rates);
  }

  lemma FirstEvent(arrivals: seq<real>, window: real, q: real)
    requires window > 0.0 && arrivals != [] && q == 1.0 / window
    ensures AfterEvents(arrivals[..1], window) == Destination([arrivals[0]], [q])
  {
    assert arrivals[..0] == [] && AfterEvents(arrivals[..0], window) == UNSEEN;
    OneMore(arrivals, 0, window, [], []);
    assert [] + [q] == [q] && [] + [arrivals[0]] == [arrivals[0]];
  }

  lemma FarApart(arrivals: seq<real>, window: real, q: real)
    requires window > 0.0 && |arrivals| >= 3 && q == 1.0 / window
    requires arrivals[1] - arrivals[0] > window && arrivals[2] - arrivals[1] > window
    ensures AfterEvents(arrivals[..3], window) == Destination([arrivals[2]], [q, q, q])
  {
    FirstEvent(arrivals, window, q);
    FarEvent(arrivals, 1, window, arrivals[0], [q]);
    assert [q] + [q] == [q, q];
    FarEvent(arrivals, 2, window, arrivals[1], [q, q]);
    assert [q, q] + [q] == [q, q, q];
  }

  /** A case: three connections far apart, then three within two seconds. The last of them is reported
      by the z-score: its count is three, and those before it were 1, 1, 1 and 2. */
  lemma BurstIsReported()
    ensures SpikeAt([0.0, 100.0, 200.0, 201.0], 202.0, 60.0, 3.0)
  {
    var arrivals, q := [0.0, 100.0, 200.0, 201.0], 1.0 / 60.0;
    FarApart(arrivals, 60.0, q);
    OneMore(arrivals, 3, 60.0, [200.0], [q, q, q]);
    assert arrivals[..4] == arrivals;
    var d := AfterEvents(arrivals, 60.0);
    assert d == Destination([200.0, 201.0], [q, q, q, 2.0 * q]);
    assert Rate(d, 202.0, 60.0) == 3.0 * q;
    MomentsOfBurst(q);
    UnusualIff(d.rates, 1.25 * q, 0.5 * q, 3.0 * q, 3.0);
  }

  /** A case: after three transfers of one mebibyte and one of two, one of three is reported, at the
      bound of three deviations, and one of two and a half is not. */
  lemma BulkTransferIsReported()
    ensures var seen := [Some(MEBIBYTE), Some(MEBIBYTE), Some(MEBIBYTE), Some(2.0 * MEBIBYTE)];
      && ExfiltrationAt(seen, Some(3.0 * MEBIBYTE), 3.0)
      && !ExfiltrationAt(seen, Some(2.5 * MEBIBYTE), 3.0)
  {
    var a, b := Some(MEBIBYTE), Some(2.0 * MEBIBYTE);
    var seen, q := [a, a, a, b], MEBIBYTE;
    FilterMapAllUsable(seen);
    MomentsOfBurst(q);
    UnusualIff([q, q, q, 2.0 * q], 1.25 * q, 0.5 * q, 3.0 * q, 3.0);
    UnusualIff([q, q, q, 2.0 * q], 1.25 * q, 0.5 * q, 2.5 * q, 3.0);
  }

  lemma FilterMapAllUsable(seen: seq<Option<real>>)
    requires |seen| == 4 && forall t <- seen :: t.Some? && t.value >= 0.0
    ensures Baseline(seen) == [seen[0].value, seen[1].value, seen[2].value, seen[3].value]
  {
    BaselineStep(seen, 0);
    BaselineStep(seen, 1);
    BaselineStep(seen, 2);
    BaselineStep(seen, 3);
    assert seen[..4] == seen && seen[..0] == [];
  }

  class Detector {
    const window: real
    const threshold: real
    var destinations: map<string, Destination>
    var bandwidth: map<string, seq<real>>
    var connections: map<string, nat>
    var failures: map<string, nat>
    var anomalies: seq<Anomaly>

    constructor (window: real, threshold: real)
      requires window > 0.0 && threshold > 0.0
      ensures Valid() && this.window == window && this.threshold == threshold
      ensures destinations == map[] && bandwidth == map[] && connections == map[] && failures == map[]
      ensures anomalies == []
    {
      this.window, this.threshold := window, threshold;
      destinations, bandwidth, connections, failures, anomalies := map[], map[], map[], map[], [];
    }

    predicate Valid()
      reads this
    {
      window > 0.0 && threshold > 0.0 && |anomalies| <= MAX_LOGGED_ANOMALIES
    }

    function At(ip: string): Destination
      reads this
    {
      if ip in destinations then destinations[ip] else UNSEEN
    }

    function BandwidthAt(ip: string): seq<real>
      reads this
    {
      if ip in bandwidth then bandwidth[ip] else []
    }

    /** `_detect_spike`: an event without a usable timestamp changes nothing; otherwise the new
        rate is compared with the rates before it, and then joins them. */
    method DetectSpike(event: ConnectionEvent) returns (anomaly: Option<Anomaly>)
      requires Valid()
      modifies this`destinations, this`connections
      ensures Valid()
      ensures event.timestamp == None ==>
        anomaly == None && destinations == old(destinations) && connections == old(connections)
      ensures event.timestamp.Some? ==>
        var ip, now, d := event.destination, event.timestamp.value, old(At(event.destination));
        && (anomaly == if Unusual(d.rates, Rate(d, now, window), threshold) then Some(ConnectionSpike(ip)) else None)
        && destinations == old(destinations)[ip := AfterEvent(d, now, window)]
        && connections == old(connections)[ip := Count(old(connections), ip) + 1]
        && (ip !in old(connections) ==> connections[ip] == 1)
      ensures event.timestamp.Some? ==>
        var d := old(At(event.destination));
        Judged(d.rates, Rate(d, event.timestamp.value, window), threshold, anomaly.Some?)
    {
      if event.timestamp == None {
        return None;
      }
      var ip, now := event.destination, event.timestamp.value;
      var d := At(ip);
      var times := d.times;
      while times != [] && now - times[0] > window
        invariant Evicted(times, now, window) == Evicted(d.times, now, window)
        decreases |times|
      {
        times := times[1..];
      }
      var rate := (|times| + 1) as real / window;
      UnusualIsJudged(d.rates, rate, threshold);
      anomaly := if Unusual(d.rates, rate, threshold) then Some(ConnectionSpike(ip)) else None;
      var after := Destination(LastN(times + [now], WINDOW_SIZE), LastN(d.rates + [rate], WINDOW_SIZE));
      destinations := destinations[ip := after];
      connections := connections[ip := Count(connections, ip) + 1];
    }

    /** `_detect_failed_storm`: reported at the tenth and at the fiftieth failure only. */
    method DetectFailedStorm(event: ConnectionEvent) returns (anomaly: Option<Anomaly>)
      requires Valid()
      modifies this`failures
      ensures Valid()
      ensures failures == old(failures)[event.destination := Count(old(failures), event.destination) + 1]
      ensures event.destination !in old(failures) ==> failures[event.destination] == 1
      ensures anomaly == if failures[event.destination] in {10, 50}
        then Some(FailedStorm(event.destination, failures[event.destination])) else None
    {
      var ip := event.destination;
      failures := failures[ip := Count(failures, ip) + 1];
      if failures[ip] !in {10, 50} {
        return None;
      }
      return Some(FailedStorm(ip, failures[ip]));
    }

    /** `_detect_exfiltration`: only transfers of at least one mebibyte are compared; every usable
        one joins the baseline. The key is the destination as it came, not stripped. */
    method DetectExfiltration(event: ConnectionEvent) returns (anomaly: Option<Anomaly>)
      requires Valid()
      modifies this`bandwidth
      ensures Valid()
      ensures event.bytesSent == None || event.bytesSent.value < 0.0 ==> anomaly == None && bandwidth == old(bandwidth)
      ensures event.bytesSent.Some? && event.bytesSent.value >= 0.0 ==>
        var ip, sent, seen := event.dst, event.bytesSent.value, old(BandwidthAt(event.dst));
        && bandwidth == old(bandwidth)[ip := LastN(seen + [sent], WINDOW_SIZE)]
        && (anomaly ==
              if sent >= MEBIBYTE && Unusual(seen, sent, threshold) then Some(BulkExfiltration(ip)) else None)
      ensures event.bytesSent.Some? && event.bytesSent.value >= 1048576.0 ==>
        Judged(old(BandwidthAt(event.dst)), event.bytesSent.value, threshold, anomaly.Some?)
      ensures anomaly.Some? ==> event.bytesSent.Some? && event.bytesSent.value >= 1048576.0
    {
      if event.bytesSent == None || event.bytesSent.value < 0.0 {
        return None;
      }
      var ip, sent := event.dst, event.bytesSent.value;
      var seen := BandwidthAt(ip);
      anomaly := None;
      UnusualIsJudged(seen, sent, threshold);
      if |seen| >= 2 && sent >= MEBIBYTE {
        anomaly := if Unusual(seen, sent, threshold) then Some(BulkExfiltration(ip)) else None;
      }
      bandwidth := bandwidth[ip := LastN(seen + [sent], WINDOW_SIZE)];
    }

    /** `_record_anomalies` in memory: appended one by one, the oldest beyond the bound dropped. */
    method RecordAnomalies(found: seq<Anomaly>)
      requires Valid()
      modifies this`anomalies
      ensures Valid()
      ensures anomalies == LastN(old(anomalies) + found, 1000)
    {
      ghost var a0 := anomalies;
      assert a0 + [] == a0;
      for i := 0 to |found|
        invariant Valid()
        invariant anomalies == LastN(a0 + found[..i], MAX_LOGGED_ANOMALIES)
      {
        assert found[..i + 1] == found[..i] + [found[i]];
        BoundedStep(a0, found[..i], [found[i]], found[..i + 1], MAX_LOGGED_ANOMALIES);
        anomalies := anomalies + [found[i]];
        if |anomalies| > MAX_LOGGED_ANOMALIES {
          anomalies := NegativeSlice(anomalies, MAX_LOGGED_ANOMALIES);
        }
      }
      assert found[..|found|] == found;
    }

    /** `reset_hourly`, without the hourly totals it records: all baselines start over. */
    method ResetHourly()
      requires Valid()
      modifies this`destinations, this`bandwidth, this`connections, this`failures
      ensures Valid()
      ensures destinations == map[] && bandwidth == map[] && connections == map[] && failures == map[]
    {
      destinations, bandwidth, connections, failures := map[], map[], map[], map[];
    }

    /** A run of events to one destination takes it through `AfterEvents`; each is compared
        with the rates of those before it, and nothing else changes. */
    method DetectSpikes(ip: string, arrivals: seq<real>) returns (spikes: seq<bool>)
      requires Valid() && At(ip) == UNSEEN
      modifies this`destinations, this`connections
      ensures Valid()
      ensures At(ip) == AfterEvents(arrivals, window)
      ensures destinations - {ip} == old(destinations) - {ip}
      ensures |spikes| == |arrivals|
      ensures forall i :: 0 <= i < |arrivals| ==>
        (spikes[i] <==> SpikeAt(arrivals[..i], arrivals[i], window, threshold))
      ensures NonDecreasing(arrivals) ==> forall i :: 0 <= i < |arrivals| ==>
        Judged(LastN(RatesOf(arrivals, window)[..i], 200), RatesOf(arrivals, window)[i], threshold, spikes[i])
    {
      spikes := [];
      for i := 0 to |arrivals|
        invariant Valid()
        invariant At(ip) == AfterEvents(arrivals[..i], window)
        invariant destinations - {ip} == old(destinations) - {ip}
        invariant spikes == Verdicts(arrivals[..i], SpikeJudge(window, threshold))
      {
        AfterEventsStep(arrivals, i, window);
        VerdictsStep(arrivals, i, SpikeJudge(window, threshold));
        var spike := DetectOne(ip, arrivals[i], arrivals[..i]);
        spikes := spikes + [spike];
      }
      assert arrivals[..|arrivals|] == arrivals;
      VerdictsMeaning(arrivals, SpikeJudge(window, threshold));
      if NonDecreasing(arrivals) {
        forall i | 0 <= i < |arrivals|
          ensures Judged(LastN(RatesOf(arrivals, window)[..i], 200), RatesOf(arrivals, window)[i], threshold, spikes[i])
        {
          SpikeAtIff(arrivals, i, window, threshold);
        }
      }
    }

    /** One event of such a run. */
    method DetectOne(ip: string, now: real, ghost earlier: seq<real>) returns (spike: bool)
      requires Valid() && At(ip) == AfterEvents(earlier, window)
      modifies this`destinations, this`connections
      ensures Valid()
      ensures At(ip) == AfterEvent(AfterEvents(earlier, window), now, window)
      ensures destinations - {ip} == old(destinations) - {ip}
      ensures spike <==> SpikeAt(earlier, now, window, threshold)
    {
      var anomaly := DetectSpike(ConnectionEvent(Some(now), ip, ip, None));
      spike := anomaly.Some?;
    }

    /** A reset forgets: whatever the state was, the events behind it are judged as if they were the
        first ones, and the anomalies found so far stay. */
    method ResetThenDetect(ip: string, arrivals: seq<real>) returns (spikes: seq<bool>)
      requires Valid()
      modifies this`destinations, this`bandwidth, this`connections, this`failures
      ensures Valid()
      ensures destinations.Keys <= {ip} && bandwidth == map[] && failures == map[]
      ensures |spikes| == |arrivals|
      ensures forall i :: 0 <= i < |arrivals| ==>
        (spikes[i] <==> SpikeAt(arrivals[..i], arrivals[i], window, threshold))
    {
      ResetHourly();
      spikes := DetectSpikes(ip, arrivals);
      assert forall key <- destinations.Keys :: key != ip ==> key in destinations - {ip};
    }

    /** A run of failed connections: a report exactly when the failures to one destination reach 10
        and 50, counted over all of them. */
    method DetectFailedStorms(events: seq<ConnectionEvent>) returns (reports: seq<bool>)
      requires Valid()
      modifies this`failures
      ensures Valid()
      ensures forall ip :: Count(failures, ip) == Count(old(failures), ip) + FailuresTo(events, ip)
      ensures |reports| == |events|
      ensures forall i :: 0 <= i < |events| ==> (reports[i] <==> StormAt(old(failures), events[..i], events[i]))
      ensures old(failures) == map[] ==> forall i :: 0 <= i < |events| ==>
        (reports[i] <==> FailuresTo(events[..i], events[i].destination) + 1 in {10, 50})
    {
      reports := [];
      for i := 0 to |events|
        invariant Valid()
        invariant failures == FailuresAfter(old(failures), events[..i])
        invariant reports == Verdicts(events[..i], StormJudge(old(failures)))
      {
        FailuresAfterStep(old(failures), events, i);
        FailuresAfterMeaning(old(failures), events[..i], events[i].destination);
        VerdictsStep(events, i, StormJudge(old(failures)));
        var anomaly := DetectFailedStorm(events[i]);
        reports := reports + [anomaly.Some?];
      }
      assert events[..|events|] == events;
      VerdictsMeaning(events, StormJudge(old(failures)));
      forall ip
        ensures Count(failures, ip) == Count(old(failures), ip) + FailuresTo(events, ip)
      {
        FailuresAfterMeaning(old(failures), events, ip);
      }
      StormsFromNothing(events);
    }

    /** A run of transfers to a new destination: each is compared with the latest usable ones before
        it, and no other destination changes. */
    method DetectExfiltrations(ip: string, transfers: seq<Option<real>>) returns (reports: seq<bool>)
      requires Valid() && BandwidthAt(ip) == []
      modifies this`bandwidth
      ensures Valid()
      ensures BandwidthAt(ip) == Baseline(transfers)
      ensures bandwidth - {ip} == old(bandwidth) - {ip}
      ensures |reports| == |transfers|
      ensures forall i :: 0 <= i < |transfers| ==>
        (reports[i] <==> ExfiltrationAt(transfers[..i], transfers[i], threshold))
      ensures forall i :: 0 <= i < |transfers| && transfers[i].Some? && transfers[i].value >= 1048576.0 ==>
        Judged(Baseline(transfers[..i]), transfers[i].value, threshold, reports[i])
      ensures forall i :: 0 <= i < |transfers| && reports[i] ==> transfers[i].Some? && transfers[i].value >= 1048576.0
    {
      reports := [];
      for i := 0 to |transfers|
        invariant Valid()
        invariant BandwidthAt(ip) == Baseline(transfers[..i])
        invariant bandwidth - {ip} == old(bandwidth) - {ip}
        invariant reports == Verdicts(transfers[..i], ExfiltrationJudge(threshold))
      {
        VerdictsStep(transfers, i, ExfiltrationJudge(threshold));
        var report := CompareOne(ip, transfers[..i], transfers, i);
        reports := reports + [report];
      }
      assert transfers[..|transfers|] == transfers;
      VerdictsMeaning(transfers, ExfiltrationJudge(threshold));
      forall i | 0 <= i < |transfers| && transfers[i].Some? && transfers[i].value >= 1048576.0
        ensures Judged(Baseline(transfers[..i]), transfers[i].value, threshold, reports[i])
      {
        UnusualIsJudged(Baseline(transfers[..i]), transfers[i].value, threshold);
      }
    }

    /** One transfer of such a run. */
    method CompareOne(ip: string, ghost earlier: seq<Option<real>>, transfers: seq<Option<real>>, i: nat)
        returns (report: bool)
      requires Valid() && i < |transfers| && earlier == transfers[..i] && BandwidthAt(ip) == Baseline(earlier)
      modifies this`bandwidth
      ensures Valid()
      ensures BandwidthAt(ip) == Baseline(transfers[..i + 1])
      ensures bandwidth - {ip} == old(bandwidth) - {ip}
      ensures report <==> ExfiltrationAt(earlier, transfers[i], threshold)
    {
      BaselineStep(transfers, i);
      NothingMore(Baseline(earlier), WINDOW_SIZE);
      var anomaly := DetectExfiltration(ConnectionEvent(None, ip, ip, transfers[i]));
      report := anomaly.Some?;
    }
  }
}
