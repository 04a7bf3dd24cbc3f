/** Merging the bus history with the journal: windows, deduplication, and the latest few. */
module RecentEvents {
  import opened Sequences
  import opened OrderedDict
  import opened Windows
  import opened Sanitizer
  import opened Events
  import opened EventBus

  // ---------------------------------------------------------------- order of timestamps

  /** Python's order on strings. */
  predicate StringLe(a: string, b: string)
  {
    a == "" || (b != "" && (a[0] < b[0] || (a[0] == b[0] && StringLe(a[1..], b[1..]))))
  }

  predicate StringLt(a: string, b: string) { a != b && StringLe(a, b) }

  lemma {:induction false} StringLeTotal(a: string, b: string)
    ensures StringLe(a, b) || StringLe(b, a)
    ensures StringLe(a, b) && StringLe(b, a) ==> a == b
  {
    if a != "" && b != "" && a[0] == b[0] {
      StringLeTotal(a[1..], b[1..]);
      assert a == [a[0]] + a[1..] && b == [b[0]] + b[1..];
    }
  }

  lemma {:induction false} StringLeTransitive(a: string, b: string, c: string)
    requires StringLe(a, b) && StringLe(b, c)
    ensures StringLe(a, c)
  {
    if a != "" && a[0] == b[0] == c[0] {
      StringLeTransitive(a[1..], b[1..], c[1..]);
    }
  }

  /** The strings first differ at `k`, where `a` has the smaller character. */
  ghost predicate SmallerAt(a: string, b: string, k: nat)
  {
    k < |a| && k < |b| && a[..k] == b[..k] && a[k] < b[k]
  }

  lemma SmallerBehind(c: char, x: string, y: string, k: nat)
    ensures SmallerAt([c] + x, [c] + y, k + 1) <==> SmallerAt(x, y, k)
    ensures !SmallerAt([c] + x, [c] + y, 0)
  {
    var a, b := [c] + x, [c] + y;
    if k < |x| && k < |y| {
      assert a[..k + 1] == [c] + x[..k] && b[..k + 1] == [c] + y[..k];
      assert a[..k + 1] == b[..k + 1] <==> x[..k] == y[..k] by {
        assert x[..k] == a[..k + 1][1..] && y[..k] == b[..k + 1][1..];
      }
    }
  }

  lemma SmallerSomewhere(c: char, x: string, y: string)
    ensures (exists k: nat :: SmallerAt([c] + x, [c] + y, k)) <==> exists k: nat :: SmallerAt(x, y, k)
  {
    if k: nat :| SmallerAt([c] + x, [c] + y, k) {
      SmallerBehind(c, x, y, if k > 0 then k - 1 else 0);
    }
    if k: nat :| SmallerAt(x, y, k) {
      SmallerBehind(c, x, y, k);
    }
  }

  lemma SameHead(a: string, b: string, k: nat)
    requires 0 < k <= |a| && k <= |b| && a[..k] == b[..k]
    ensures a[0] == b[0]
  {
    assert a[0] == a[..k][0] && b[0] == b[..k][0];
  }

  lemma SmallerAtOnce(a: string, b: string)
    requires a != "" && b != "" && a[0] != b[0]
    ensures (exists k: nat :: SmallerAt(a, b, k)) <==> a[0] < b[0]
  {
    if k: nat :| SmallerAt(a, b, k) {
      if k > 0 {
        SameHead(a, b, k);
        assert false;
      }
    }
    assert a[0] < b[0] ==> SmallerAt(a, b, 0);
  }

  /** One string comes strictly before another if it is a proper beginning of it, or has the smaller
      character where they first differ. */
  lemma {:induction false} StringLtIff(a: string, b: string)
    ensures StringLt(a, b) <==> a < b || exists k: nat :: SmallerAt(a, b, k)
  {
    if a != "" && b != "" {
      assert a == [a[0]] + a[1..] && b == [b[0]] + b[1..];
      if a[0] == b[0] {
        StringLtIff(a[1..], b[1..]);
        SmallerSomewhere(a[0], a[1..], b[1..]);
      } else {
        SmallerAtOnce(a, b);
      }
    }
  }

  predicate Before(x: Event, y: Event) { StringLt(x.timestamp, y.timestamp) }

  lemma BeforeIsStrictOrder(x: Event, y: Event, z: Event)
    ensures !(Before(x, y) && Before(y, x))
    ensures Before(x, y) && Before(y, z) ==> Before(x, z)
    ensures x.timestamp != y.timestamp ==> Before(x, y) || Before(y, x)
  {
    StringLeTotal(x.timestamp, y.timestamp);
    if Before(x, y) && Before(y, z) {
      StringLeTransitive(x.timestamp, y.timestamp, z.timestamp);
      StringLeTotal(y.timestamp, z.timestamp);
    }
  }

  /** Strictly increasing timestamps. */
  ghost predicate Increasing(xs: seq<Event>) { Ascending(xs, Before) }

  lemma BeforeIsAsymmetric()
    ensures Asymmetric(Before)
  {
    forall x: Event, y: Event
      ensures !(Before(x, y) && Before(y, x))
    {
      BeforeIsStrictOrder(x, y, x);
    }
  }

  // ---------------------------------------------------------------- the merge

  /** A stable sort by timestamp: each event goes behind those not later than it. */
  function InsertByTime(sorted: seq<Event>, x: Event): seq<Event>
  {
    if sorted == [] then [x]
    else
      var n := |sorted| - 1;
      if StringLe(sorted[n].timestamp, x.timestamp) then sorted + [x]
      else InsertByTime(sorted[..n], x) + [sorted[n]]
  }

  function SortByTime(xs: seq<Event>): seq<Event>
  {
    if xs == [] then [] else InsertByTime(SortByTime(xs[..|xs| - 1]), xs[|xs| - 1])
  }

  function Keyed(xs: seq<Event>): seq<(string, Event)>
  {
    seq(|xs|, i requires 0 <= i < |xs| => (xs[i].eventId, xs[i]))
  }

  /** All events of both sources, each identifier once, in time order. */
  function MergedByTime(journal: seq<Event>, history: seq<Event>): seq<Event>
  {
    SortByTime(Values(PutAll([], Keyed(journal + history))))
  }

  function WindowSize(limit: int): int { if limit * 4 > 200 then limit * 4 else 200 }

  /** `merged_recent_events` */
  method MergedRecentEvents(bus: Bus, journal: Journal, decode: Line -> Option<Event>,
                            limit: int, typePrefix: Option<string>, includePersisted: bool, readable: bool)
      returns (merged: seq<Event>)
    ensures
      var window := if includePersisted && readable then JournalTail(journal.lines, WindowSize(limit), decode) else [];
      merged == Recent(OfType(MergedByTime(window, Recent(bus.history, WindowSize(limit))), typePrefix), limit)
  {
    var combined: Dict<string, Event> := [];
    var persisted: seq<Event> := [];
    if includePersisted {
      persisted := journal.Read(WindowSize(limit), decode, readable);
      assert Keyed([]) == [] && [] + persisted == persisted;
      combined := Collect(combined, [], persisted);
    }
    var recent := bus.RecentEvents(WindowSize(limit), None);
    KeepEverything(bus.history, OfKind(None));
    combined := Collect(combined, persisted, recent);
    var sorted := SortByTime(Values(combined));
    merged := KeepLoop(sorted, OfKind(typePrefix));
    merged := Recent(merged, limit);
  }

  /** `for item in items: combined[item["event_id"]] = item` */
  method Collect(start: Dict<string, Event>, ghost done: seq<Event>, items: seq<Event>)
      returns (combined: Dict<string, Event>)
    requires start == PutAll([], Keyed(done))
    ensures combined == PutAll([], Keyed(done + items))
  {
    combined := start;
    assert done + [] == done;
    for i := 0 to |items|
      invariant combined == PutAll([], Keyed(done + items[..i]))
    {
      assert items[..i + 1] == items[..i] + [items[i]];
      assert Keyed(done + items[..i + 1]) == Keyed(done + items[..i]) + [(items[i].eventId, items[i])];
      PutAllStep<string, Event>([], Keyed(done + items[..i]), (items[i].eventId, items[i]));
      combined := Put(combined, items[i].eventId, items[i]);
    }
    assert items[..|items|] == items;
  }

  // ---------------------------------------------------------------- sorting

  lemma {:induction false} InsertByTimeMeaning(sorted: seq<Event>, x: Event)
    requires Increasing(sorted) && forall y <- sorted :: y.timestamp != x.timestamp
    ensures Increasing(InsertByTime(sorted, x))
    ensures forall y :: y in InsertByTime(sorted, x) <==> y in sorted || y == x
  {
    if sorted != [] {
      var n := |sorted| - 1;
      var last := sorted[n];
      assert last in sorted;
      assert sorted == sorted[..n] + [last];
      if StringLe(last.timestamp, x.timestamp) {
        forall i | 0 <= i < n
          ensures Before(sorted[i], x)
        {
          BeforeIsStrictOrder(sorted[i], last, x);
        }
      } else {
        InsertByTimeMeaning(sorted[..n], x);
        BeforeIsStrictOrder(last, x, x);
        var r := InsertByTime(sorted[..n], x);
        forall i | 0 <= i < |r|
          ensures Before(r[i], last)
        {
          assert r[i] in r;
        }
      }
    }
  }

  /** Events are told apart by their timestamps. */
  ghost predicate DistinctTimes(xs: seq<Event>)
  {
    forall i, j :: 0 <= i < j < |xs| ==> xs[i].timestamp != xs[j].timestamp
  }

  lemma {:induction false} SortByTimeMeaning(xs: seq<Event>)
    requires DistinctTimes(xs)
    ensures Increasing(SortByTime(xs))
    ensures forall y :: y in SortByTime(xs) <==> y in xs
  {
    if xs != [] {
      var n := |xs| - 1;
      SortByTimeMeaning(xs[..n]);
      forall y | y in SortByTime(xs[..n])
        ensures y.timestamp != xs[n].timestamp
      {
        var i :| 0 <= i < n && xs[..n][i] == y;
      }
      InsertByTimeMeaning(SortByTime(xs[..n]), xs[n]);
      assert xs == xs[..n] + [xs[n]];
    }
  }

  // ---------------------------------------------------------------- equal times, equal identifiers

  ghost predicate TimeOrdered(xs: seq<Event>)
  {
    forall i, j :: 0 <= i <= j < |xs| ==> StringLe(xs[i].timestamp, xs[j].timestamp)
  }

  function AtTime(t: string): Event -> bool { (e: Event) => e.timestamp == t }

  lemma {:induction false} InsertKeepsOrder(sorted: seq<Event>, x: Event)
    requires TimeOrdered(sorted)
    ensures TimeOrdered(InsertByTime(sorted, x))
    ensures forall y :: y in InsertByTime(sorted, x) <==> y in sorted || y == x
  {
    StringLeTotal(x.timestamp, x.timestamp);
    if sorted != [] {
      var n := |sorted| - 1;
      var last := sorted[n];
      assert sorted == sorted[..n] + [last];
      if StringLe(last.timestamp, x.timestamp) {
        forall i | 0 <= i < |sorted|
          ensures StringLe(sorted[i].timestamp, x.timestamp)
        {
          StringLeTransitive(sorted[i].timestamp, last.timestamp, x.timestamp);
        }
      } else {
        InsertKeepsOrder(sorted[..n], x);
        StringLeTotal(last.timestamp, x.timestamp);
        StringLeTotal(last.timestamp, last.timestamp);
        var r := InsertByTime(sorted[..n], x);
        forall i | 0 <= i < |r|
          ensures StringLe(r[i].timestamp, last.timestamp)
        {
          assert r[i] in r;
        }
      }
    }
  }

  lemma {:induction false} NoneLater(sorted: seq<Event>, x: Event)
    requires TimeOrdered(sorted) && (sorted != [] ==> !StringLe(sorted[|sorted| - 1].timestamp, x.timestamp))
    ensures sorted != [] ==> sorted[|sorted| - 1].timestamp != x.timestamp
  {
    StringLeTotal(x.timestamp, x.timestamp);
  }

  /** An inserted event stands behind all others of its time. */
  lemma {:induction false} InsertIsStable(sorted: seq<Event>, x: Event, t: string)
    requires TimeOrdered(sorted)
    ensures Keep(InsertByTime(sorted, x), AtTime(t)) == Keep(sorted + [x], AtTime(t))
  {
    KeepSnoc(sorted, x, AtTime(t));
    if sorted != [] && !StringLe(sorted[|sorted| - 1].timestamp, x.timestamp) {
      var front, last := sorted[..|sorted| - 1], sorted[|sorted| - 1];
      assert sorted == front + [last];
      NoneLater(sorted, x);
      InsertIsStable(front, x, t);
      KeepSnoc(InsertByTime(front, x), last, AtTime(t));
      KeepSnoc(front, last, AtTime(t));
      KeepSnoc(front, x, AtTime(t));
    } else if sorted == [] {
      assert sorted + [x] == [x];
    }
  }

  /** The sort is by time, keeps every event, and leaves events of equal times in their order. */
  lemma {:induction false} SortIsStable(xs: seq<Event>, t: string)
    ensures TimeOrdered(SortByTime(xs))
    ensures Keep(SortByTime(xs), AtTime(t)) == Keep(xs, AtTime(t))
  {
    if xs != [] {
      var front, x := xs[..|xs| - 1], xs[|xs| - 1];
      assert xs == front + [x];
      SortIsStable(front, t);
      InsertKeepsOrder(SortByTime(front), x);
      InsertIsStable(SortByTime(front), x, t);
      KeepSnoc(SortByTime(front), x, AtTime(t));
      KeepSnoc(front, x, AtTime(t));
    }
  }

  lemma {:induction false} SortKeepsMembers(xs: seq<Event>, y: Event)
    ensures y in SortByTime(xs) <==> y in xs
  {
    SortIsStable(xs, y.timestamp);
    KeepMembers(SortByTime(xs), AtTime(y.timestamp));
    KeepMembers(xs, AtTime(y.timestamp));
  }

  /** The event at `i` is the last with its identifier. */
  ghost predicate LastOfItsId(xs: seq<Event>, x: Event)
  {
    exists i :: 0 <= i < |xs| && xs[i] == x && forall j :: i < j < |xs| ==> xs[j].eventId != x.eventId
  }

  lemma {:induction false} LastValueIff(xs: seq<Event>, x: Event)
    ensures LastValue(Keyed(xs), x.eventId) == Some(x) <==> LastOfItsId(xs, x)
  {
    if xs != [] {
      var n := |xs| - 1;
      var front, last := xs[..n], xs[n];
      assert Keyed(xs)[..n] == Keyed(front);
      LastValueIff(front, x);
      if last.eventId == x.eventId {
        assert last == x ==> xs[n] == x;
      } else {
        LastOfFront(front, last, x);
        assert xs == front + [last];
      }
    }
  }

  lemma LastOfFront(front: seq<Event>, last: Event, x: Event)
    requires last.eventId != x.eventId
    ensures LastOfItsId(front + [last], x) <==> LastOfItsId(front, x)
  {
    var xs := front + [last];
    if i :| 0 <= i < |xs| && xs[i] == x && forall j :: i < j < |xs| ==> xs[j].eventId != x.eventId {
      assert i < |front| && front[i] == x;
      assert forall j :: i < j < |front| ==> front[j] == xs[j];
    }
    if i :| 0 <= i < |front| && front[i] == x && forall j :: i < j < |front| ==> front[j].eventId != x.eventId {
      assert xs[i] == x;
    }
  }

  lemma ValueIsLastOfItsId(xs: seq<Event>, x: Event)
    ensures x in Values(PutAll([], Keyed(xs))) <==> LastOfItsId(xs, x)
  {
    var d := PutAll([], Keyed(xs));
    LastValueIff(xs, x);
    PutAllMeaning(Keyed(xs), x.eventId);
    PutAllKeys(xs);
    if x in Values(d) {
      var i :| 0 <= i < |d| && Values(d)[i] == x;
      LookupOfItem(d, i);
    }
    if Lookup(d, x.eventId) == Some(x) {
      LookupIndex(d, x.eventId);
      var i :| 0 <= i < |d| && d[i].0 == x.eventId && Lookup(d, x.eventId) == Some(d[i].1);
      assert Values(d)[i] == x;
    }
  }

  /** For any two sources: of the events with one identifier the merge has exactly the last, with the
      history behind the journal. */
  lemma LastOfEachIdIsMerged(journal: seq<Event>, history: seq<Event>, x: Event)
    ensures x in MergedByTime(journal, history) <==> LastOfItsId(journal + history, x)
    ensures TimeOrdered(MergedByTime(journal, history))
  {
    var values := Values(PutAll([], Keyed(journal + history)));
    SortIsStable(values, "");
    SortKeepsMembers(values, x);
    ValueIsLastOfItsId(journal + history, x);
  }

  // ---------------------------------------------------------------- the union

  /** Equal identifiers, equal timestamps and equal events are the same thing. */
  ghost predicate Consistent(xs: seq<Event>)
  {
    forall x, y :: x in xs && y in xs && (x.eventId == y.eventId || x.timestamp == y.timestamp) ==> x == y
  }

  lemma {:induction false} LastValueIn(xs: seq<Event>, id: string)
    ensures LastValue(Keyed(xs), id).Some? ==>
      LastValue(Keyed(xs), id).value in xs && LastValue(Keyed(xs), id).value.eventId == id
    ensures (exists x <- xs :: x.eventId == id) ==> LastValue(Keyed(xs), id).Some?
  {
    if xs != [] {
      var n := |xs| - 1;
      assert Keyed(xs)[..n] == Keyed(xs[..n]);
      assert xs == xs[..n] + [xs[n]];
      LastValueIn(xs[..n], id);
    }
  }

  lemma {:induction false} PutAllKeys(xs: seq<Event>)
    ensures forall i :: 0 <= i < |PutAll([], Keyed(xs))| ==>
      PutAll([], Keyed(xs))[i].1.eventId == PutAll([], Keyed(xs))[i].0
  {
    if xs != [] {
      var n := |xs| - 1;
      assert Keyed(xs)[..n] == Keyed(xs[..n]);
      PutAllKeys(xs[..n]);
      PutKey(PutAll([], Keyed(xs[..n])), xs[n]);
    }
  }

  lemma {:induction false} PutKey(d: Dict<string, Event>, x: Event)
    requires forall i :: 0 <= i < |d| ==> d[i].1.eventId == d[i].0
    ensures forall i :: 0 <= i < |Put(d, x.eventId, x)| ==>
      Put(d, x.eventId, x)[i].1.eventId == Put(d, x.eventId, x)[i].0
  {
    if d != [] && d[0].0 != x.eventId {
      PutKey(d[1..], x);
    }
  }

  lemma ItemOf(d: Dict<string, Event>, i: nat, xs: seq<Event>)
    requires d == PutAll([], Keyed(xs)) && i < |d|
    ensures d[i].1 in xs
  {
    PutAllMeaning(Keyed(xs), d[i].0);
    LookupOfItem(d, i);
    LastValueIn(xs, d[i].0);
  }

  lemma {:induction false} LookupIndex(d: Dict<string, Event>, k: string)
    requires Has(d, k)
    ensures exists i :: 0 <= i < |d| && d[i].0 == k && Lookup(d, k) == Some(d[i].1)
  {
    if d[0].0 != k {
      LookupIndex(d[1..], k);
      var i :| 0 <= i < |d[1..]| && d[1..][i].0 == k && Lookup(d[1..], k) == Some(d[1..][i].1);
      assert d[i + 1].0 == k;
    }
  }

  /** On consistent sources the merge is the union, in strict time order. */
  lemma MergedMeaning(journal: seq<Event>, history: seq<Event>)
    requires Consistent(journal + history)
    ensures Increasing(MergedByTime(journal, history))
    ensures forall x :: x in MergedByTime(journal, history) <==> x in journal || x in history
  {
    var xs := journal + history;
    var d := PutAll([], Keyed(xs));
    PutAllMeaning(Keyed(xs), "");
    PutAllKeys(xs);
    forall i, j | 0 <= i < j < |d|
      ensures Values(d)[i].timestamp != Values(d)[j].timestamp
    {
      ItemOf(d, i, xs);
      ItemOf(d, j, xs);
    }
    SortByTimeMeaning(Values(d));
    forall x
      ensures x in Values(d) <==> x in xs
    {
      if x in Values(d) {
        var i :| 0 <= i < |d| && Values(d)[i] == x;
        ItemOf(d, i, xs);
      }
      if x in xs {
        PutAllMeaning(Keyed(xs), x.eventId);
        LastValueIn(xs, x.eventId);
        LookupIndex(d, x.eventId);
        var i :| 0 <= i < |d| && d[i].0 == x.eventId && Lookup(d, x.eventId) == Some(d[i].1);
        assert Values(d)[i] == x;
      }
    }
  }

  // ---------------------------------------------------------------- windows

  /** What the merge gives for two windows of its sources. */
  function MergedRecent(j: seq<Event>, h: seq<Event>, prefix: Option<string>, limit: int): seq<Event>
  {
    Recent(OfType(MergedByTime(j, h), prefix), limit)
  }

  /** The event is in one of the sources and of the type asked for, but outside both windows. */
  predicate Missed(x: Event, journal: seq<Event>, history: seq<Event>, j: seq<Event>, h: seq<Event>,
                   prefix: Option<string>)
  {
    (x in journal || x in history) && StartsWith(x.kind, prefix) && x !in j && x !in h
  }

  lemma MatchingMeaning(journal: seq<Event>, history: seq<Event>, prefix: Option<string>)
    requires Consistent(journal + history)
    ensures var matching := OfType(MergedByTime(journal, history), prefix);
      && Increasing(matching)
      && (forall x :: x in matching <==> (x in journal || x in history) && StartsWith(x.kind, prefix))
  {
    MergedMeaning(journal, history);
    KeepAscends(MergedByTime(journal, history), OfKind(prefix), Before);
  }

  /** The matching events of the two windows that are later than `x`. */
  ghost function LaterInWindows(x: Event, j: seq<Event>, h: seq<Event>, prefix: Option<string>): set<Event>
  {
    set y | y in j + h && StartsWith(y.kind, prefix) && Before(x, y)
  }

  /** For any type filter and any windows: the merge of the windows gives the latest `limit`
      matching events of the whole sources if and only if for every matching event that the
      windows miss they hold at least `limit` later ones. */
  lemma WindowedMergeIsExactIff(journal: seq<Event>, history: seq<Event>, j: seq<Event>, h: seq<Event>,
                                prefix: Option<string>, limit: nat)
    requires limit >= 1 && Consistent(journal + history) && Within(j, journal) && Within(h, history)
    ensures MergedRecent(j, h, prefix, limit) == MergedRecent(journal, history, prefix, limit) <==>
      forall x <- journal + history :: Missed(x, journal, history, j, h, prefix) ==>
        |LaterInWindows(x, j, h, prefix)| >= limit
  {
    BeforeIsAsymmetric();
    assert Consistent(j + h) by {
      assert forall x <- j + h :: x in journal + history;
    }
    MatchingMeaning(journal, history, prefix);
    MatchingMeaning(j, h, prefix);
    var all, part := OfType(MergedByTime(journal, history), prefix), OfType(MergedByTime(j, h), prefix);
    LastNOfPartIffLater(all, part, limit, Before);
    forall x
      ensures x in all && x !in part <==> x in journal + history && Missed(x, journal, history, j, h, prefix)
      ensures Later(part, x, Before) == LaterInWindows(x, j, h, prefix)
    {
    }
  }

  /** The windows of `merged_recent_events` are ends of their sources. */
  lemma WindowsOf(lines: seq<Line>, history: seq<Event>, limit: nat, decode: Line -> Option<Event>)
    requires limit >= 1
    ensures Within(JournalTail(lines, WindowSize(limit), decode), FilterMap(lines, decode))
    ensures Within(Recent(history, WindowSize(limit)), history)
  {
    var all, tail := FilterMap(lines, decode), JournalTail(lines, WindowSize(limit), decode);
    TailIsSuffix(lines, WindowSize(limit), decode);
    assert all == all[..|all| - |tail|] + tail;
  }

  /** `merged_recent_events` returns the last `limit` matching events of the sorted,
      deduplicated union of the whole journal and the whole history if and only if for every
      matching event outside its windows they hold at least `limit` later ones. */
  lemma MergedRecentIsExactIff(lines: seq<Line>, history: seq<Event>, prefix: Option<string>, limit: nat,
                               decode: Line -> Option<Event>)
    requires limit >= 1 && Consistent(FilterMap(lines, decode) + history)
    ensures var journal := FilterMap(lines, decode);
      var j, h := JournalTail(lines, WindowSize(limit), decode), Recent(history, WindowSize(limit));
      MergedRecent(j, h, prefix, limit) == MergedRecent(journal, history, prefix, limit) <==>
        forall x <- journal + history :: Missed(x, journal, history, j, h, prefix) ==>
          |LaterInWindows(x, j, h, prefix)| >= limit
  {
    WindowsOf(lines, history, limit, decode);
    WindowedMergeIsExactIff(FilterMap(lines, decode), history,
      JournalTail(lines, WindowSize(limit), decode), Recent(history, WindowSize(limit)), prefix, limit);
  }

  /** A case in which it is not: one usable line, 200 lines that are no JSON behind it, and a
      limit of one. The result is empty, and the event is missed. */
  lemma OneUsableLineIsMissed(e: Event, ambient: Ambient)
    requires Normal(e) && Reasonable(ambient)
    ensures var lines: seq<Line> := [Some(Obj(ToDict(e)))] + seq(200, _ => None);
      var decode := JournalDecoder(ambient);
      && FilterMap(lines, decode) == [e]
      && MergedRecent(JournalTail(lines, WindowSize(1), decode), [], None, 1) == []
      && MergedRecent(FilterMap(lines, decode), [], None, 1) == [e]
  {
    var usable: seq<Line>, rest: seq<Line> := [Some(Obj(ToDict(e)))], seq(200, _ => None);
    var lines, decode := usable + rest, JournalDecoder(ambient);
    JournalRoundTrip(e, ambient);
    NothingUsable(rest, decode);
    FilterMapConcat(usable, rest, decode);
    assert usable[..0] == [] && FilterMap(usable, decode) == [e];
    assert FilterMap(lines, decode) == [e];
    assert Recent(lines, WindowSize(1)) == rest;
    MergedOfNothing(1);
    MergedOfOne(e, 1);
  }

  /** How far the window goes back: one usable line with `k` unusable ones behind it is found if and only
      if there are fewer than 200 of these, or fewer than four times the limit. */
  lemma OneUsableLineIff(e: Event, k: nat, limit: nat, ambient: Ambient)
    requires Normal(e) && Reasonable(ambient) && limit >= 1
    ensures var lines: seq<Line> := [Some(Obj(ToDict(e)))] + seq(k, _ => None);
      MergedRecent(JournalTail(lines, WindowSize(limit), JournalDecoder(ambient)), [], None, limit) ==
        if k < 200 || k < 4 * limit then [e] else []
  {
    var usable: Line := Some(Obj(ToDict(e)));
    JournalRoundTrip(e, ambient);
    TailWithOneUsable(usable, seq(k, _ => None), limit, JournalDecoder(ambient), e);
    MergedOfNothing(limit);
    MergedOfOne(e, limit);
  }

  lemma TailWithOneUsable(usable: Line, rest: seq<Line>, limit: nat, decode: Line -> Option<Event>, e: Event)
    requires limit >= 1 && decode(usable) == Some(e) && forall line <- rest :: decode(line) == None
    ensures JournalTail([usable] + rest, WindowSize(limit), decode) ==
      if |rest| < 200 || |rest| < 4 * limit then [e] else []
  {
    var lines := [usable] + rest;
    var window := Recent(lines, WindowSize(limit));
    if |rest| < 200 || |rest| < 4 * limit {
      assert window == lines;
      NothingUsable(rest, decode);
      FilterMapConcat([usable], rest, decode);
      assert [usable][..0] == [] && FilterMap([usable], decode) == [e];
    } else {
      assert window == lines[|lines| - |window|..];
      assert forall line <- window :: line in rest;
      NothingUsable(window, decode);
    }
  }

  lemma {:induction false} NothingUsable(lines: seq<Line>, decode: Line -> Option<Event>)
    requires forall line <- lines :: decode(line) == None
    ensures FilterMap(lines, decode) == []
  {
    if lines != [] {
      var n := |lines| - 1;
      assert lines[n] in lines && forall line <- lines[..n] :: line in lines;
      NothingUsable(lines[..n], decode);
    }
  }

  lemma MergedOfNothing(limit: nat)
    ensures MergedRecent([], [], None, limit) == []
  {
    assert Keyed([] + []) == [];
    assert Values(PutAll<string, Event>([], [])) == [];
    KeepMembers(MergedByTime([], []), OfKind(None));
  }

  lemma KeyedOne(e: Event)
    ensures Values(PutAll([], Keyed([e]))) == [e]
  {
    assert Keyed([e]) == [(e.eventId, e)];
    assert [(e.eventId, e)][..0] == [];
    assert PutAll([], Keyed([e])) == [(e.eventId, e)];
  }

  lemma SortedOne(e: Event)
    ensures SortByTime([e]) == [e]
  {
    assert [e][..0] == [];
  }

  /** The merge of one event, from either source. */
  lemma MergedOne(e: Event)
    ensures MergedByTime([e], []) == MergedByTime([], [e]) == [e]
  {
    KeyedOne(e);
    SortedOne(e);
    assert [e] + [] == [e] && [] + [e] == [e];
  }

  lemma MergedOfOne(e: Event, limit: nat)
    requires limit >= 1
    ensures MergedRecent([e], [], None, limit) == [e]
  {
    MergedOne(e);
    KeepEverything([e], OfKind(None));
  }

  // ---------------------------------------------------------------- without a filter

  /** Merging windows loses nothing that matters: the latest `k` of the merged windows are
      the latest `k` of everything, when each window has `k` events or its whole source. */
  lemma WindowedMergeIsExact(journal: seq<Event>, history: seq<Event>, j: seq<Event>, h: seq<Event>, k: nat)
    requires Increasing(journal) && Increasing(history) && Consistent(journal + history)
    requires Covers(j, journal, k) && Covers(h, history, k)
    ensures LastN(MergedByTime(j, h), k) == LastN(MergedByTime(journal, history), k)
  {
    BeforeIsAsymmetric();
    assert forall x <- j :: x in journal;
    assert forall x <- h :: x in history;
    MergedMeaning(journal, history);
    assert Consistent(j + h) by {
      assert forall x <- j + h :: x in journal + history;
    }
    MergedMeaning(j, h);
    var all, part := MergedByTime(journal, history), MergedByTime(j, h);
    forall x | x in LastN(all, k)
      ensures x in part
    {
      assert x in all;
      if x in journal {
        LatestAreInWindow(all, journal, j, k, x, Before);
      } else {
        LatestAreInWindow(all, history, h, k, x, Before);
      }
    }
    assert Within(part, all) && Within(LastN(all, k), part);
    LastNOfPart(all, part, k, Before);
  }

  /** The usable events of the journal in front of its window. */
  function InFrontOfWindow(lines: seq<Line>, limit: nat, decode: Line -> Option<Event>): seq<Event>
  {
    TailIsSuffix(lines, WindowSize(limit), decode);
    var all, tail := FilterMap(lines, decode), JournalTail(lines, WindowSize(limit), decode);
    all[..|all| - |tail|]
  }

  /** The events of the history window that are later than `x` and not in the journal window. */
  ghost function LaterInHistory(x: Event, j: seq<Event>, h: seq<Event>): set<Event>
  {
    set y | y in h && y !in j && Before(x, y)
  }

  /** An event in front of a window is older than all of it, so the window counts in full. */
  lemma LaterThanInFront(front: seq<Event>, j: seq<Event>, h: seq<Event>, x: Event)
    requires Increasing(front + j) && x in front
    ensures x !in j && |LaterInWindows(x, j, h, None)| == |j| + |LaterInHistory(x, j, h)|
  {
    BeforeIsAsymmetric();
    var whole := front + j;
    var i :| 0 <= i < |front| && front[i] == x;
    assert forall k :: 0 <= k < |j| ==> j[k] == whole[|front| + k] && Before(whole[i], whole[|front| + k]);
    assert forall y <- j :: Before(x, y);
    assert Increasing(j);
    AscendingSize(j, Before);
    assert LaterInWindows(x, j, h, None) == Elements(j) + LaterInHistory(x, j, h);
  }

  /** The history window is never the trouble: in front of it, every event has at least `limit`
      later ones in it. */
  lemma HistoryWindowSuffices(history: seq<Event>, j: seq<Event>, limit: nat, x: Event)
    requires limit >= 1 && Increasing(history)
    requires x in history && x !in Recent(history, WindowSize(limit))
    ensures |LaterInWindows(x, j, Recent(history, WindowSize(limit)), None)| >= limit
  {
    BeforeIsAsymmetric();
    var h := Recent(history, WindowSize(limit));
    var cut := |history| - |h|;
    assert history == history[..cut] + h;
    WindowIsGreater(history, h, x, Before);
    AscendingSize(h, Before);
    SubsetSize(Elements(h), LaterInWindows(x, j, h, None));
  }

  /** Without a filter, and with both sources in strict time order, only the journal window can
      be too small: the result is exact if and only if every usable event in front of that window
      is in the history window, or has at least `limit` later events in the two windows. */
  lemma UnfilteredIsExactIff(lines: seq<Line>, history: seq<Event>, limit: nat, decode: Line -> Option<Event>)
    requires limit >= 1
    requires var journal := FilterMap(lines, decode);
      Increasing(journal) && Increasing(history) && Consistent(journal + history)
    ensures var j, h := JournalTail(lines, WindowSize(limit), decode), Recent(history, WindowSize(limit));
      MergedRecent(j, h, None, limit) == MergedRecent(FilterMap(lines, decode), history, None, limit) <==>
        forall x <- InFrontOfWindow(lines, limit, decode) :: x in h || |j| + |LaterInHistory(x, j, h)| >= limit
  {
    var journal, front := FilterMap(lines, decode), InFrontOfWindow(lines, limit, decode);
    var j, h := JournalTail(lines, WindowSize(limit), decode), Recent(history, WindowSize(limit));
    TailIsSuffix(lines, WindowSize(limit), decode);
    assert journal == front + j;
    MergedRecentIsExactIff(lines, history, None, limit, decode);
    forall x | x in front
      ensures x !in j && |LaterInWindows(x, j, h, None)| == |j| + |LaterInHistory(x, j, h)|
    {
      LaterThanInFront(front, j, h, x);
    }
    forall x | x in history && x !in h
      ensures |LaterInWindows(x, j, h, None)| >= limit
    {
      HistoryWindowSuffices(history, j, limit, x);
    }
    OnlyFrontMatters(front, history, j, h, limit);
  }

  lemma OnlyFrontMatters(front: seq<Event>, history: seq<Event>, j: seq<Event>, h: seq<Event>, limit: nat)
    requires forall x <- front :: x !in j && |LaterInWindows(x, j, h, None)| == |j| + |LaterInHistory(x, j, h)|
    requires forall x <- history :: x !in h ==> |LaterInWindows(x, j, h, None)| >= limit
    ensures
      (forall x <- front + j + history :: Missed(x, front + j, history, j, h, None) ==>
         |LaterInWindows(x, j, h, None)| >= limit)
      <==> forall x <- front :: x in h || |j| + |LaterInHistory(x, j, h)| >= limit
  {
    forall x
      ensures x in front + j + history && Missed(x, front + j, history, j, h, None) <==>
        (x in front || x in history) && x !in j && x !in h
    {
    }
  }

  /** So the result is exact when the journal window decodes to at least `limit` events or is
      the whole file. */
  lemma MergedRecentIsExact(lines: seq<Line>, history: seq<Event>, limit: nat, decode: Line -> Option<Event>)
    requires limit >= 1
    requires var journal := FilterMap(lines, decode);
      Increasing(journal) && Increasing(history) && Consistent(journal + history)
    requires |lines| <= WindowSize(limit) || limit <= |JournalTail(lines, WindowSize(limit), decode)|
    ensures
      MergedRecent(JournalTail(lines, WindowSize(limit), decode), Recent(history, WindowSize(limit)), None, limit)
      == LastN(MergedByTime(FilterMap(lines, decode), history), limit)
  {
    UnfilteredIsExactIff(lines, history, limit, decode);
    if |lines| <= WindowSize(limit) {
      assert Recent(lines, WindowSize(limit)) == lines;
      assert InFrontOfWindow(lines, limit, decode) == [];
    }
    KeepEverything(MergedByTime(FilterMap(lines, decode), history), OfKind(None));
  }

  /** A journal without unusable lines always meets that proviso. */
  lemma UsableLinesSuffice(lines: seq<Line>, limit: nat, decode: Line -> Option<Event>)
    requires limit >= 1 && forall i :: 0 <= i < |lines| ==> decode(lines[i]).Some?
    ensures |lines| <= WindowSize(limit) || limit <= |JournalTail(lines, WindowSize(limit), decode)|
  {
    var window := Recent(lines, WindowSize(limit));
    FilterMapAll(window, decode);
  }

  /** Unusable lines and events of other types count against the windows: with a matching event
      outside them and fewer than `limit` later ones inside, the result is not the right one. */
  lemma WindowsHideEvents(lines: seq<Line>, history: seq<Event>, prefix: Option<string>, limit: nat,
                          decode: Line -> Option<Event>, x: Event)
    requires limit >= 1 && Consistent(FilterMap(lines, decode) + history)
    requires Missed(x, FilterMap(lines, decode), history,
                    JournalTail(lines, WindowSize(limit), decode), Recent(history, WindowSize(limit)), prefix)
    ensures |LaterInWindows(x, JournalTail(lines, WindowSize(limit), decode),
                            Recent(history, WindowSize(limit)), prefix)| < limit ==>
      MergedRecent(JournalTail(lines, WindowSize(limit), decode), Recent(history, WindowSize(limit)), prefix, limit)
      != MergedRecent(FilterMap(lines, decode), history, prefix, limit)
  {
    MergedRecentIsExactIff(lines, history, prefix, limit, decode);
    assert x in FilterMap(lines, decode) + history;
  }
}
