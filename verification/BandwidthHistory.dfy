/** The bandwidth history: a bounded least-recently-updated map of bounded sample lists. */
module BandwidthHistory {
  import opened Sequences

  const MAX_SAMPLES := 300
  const MAX_INTERFACES := 32

  type Sample = real
  datatype Entry = Entry(name: string, samples: seq<Sample>)

  /** One observation of one interface. */
  datatype Update = Update(name: string, sample: Sample)

  function Names(entries: seq<Entry>): seq<string>
  {
    seq(|entries|, i requires 0 <= i < |entries| => entries[i].name)
  }

  function OtherThan(name: string): string -> bool { other => other != name }

  function NotNamed(name: string): Entry -> bool { (e: Entry) => e.name != name }

  function Without(names: seq<string>, name: string): seq<string> { Keep(names, OtherThan(name)) }

  function WithoutEntry(entries: seq<Entry>, name: string): seq<Entry> { Keep(entries, NotNamed(name)) }

  function Find(entries: seq<Entry>, name: string): Option<seq<Sample>>
  {
    if entries == [] then None
    else if entries[0].name == name then Some(entries[0].samples)
    else Find(entries[1..], name)
  }

  // ---------------------------------------------------------------- the code

  /** The entries that stay in front of the updated one. */
  function Room(entries: seq<Entry>, name: string): seq<Entry>
  {
    var others := WithoutEntry(entries, name);
    if Find(entries, name) == None && |others| >= MAX_INTERFACES then others[1..] else others
  }

  /** One round of the loop: pop the interface, evict the front one if a new interface finds
      the map full, put it back last, append the sample, drop the first if there are too many. */
  function AfterUpdate(entries: seq<Entry>, u: Update): seq<Entry>
  {
    var popped := Find(entries, u.name);
    var samples := (if popped.Some? then popped.value else []) + [u.sample];
    Room(entries, u.name) + [Entry(u.name, if |samples| > MAX_SAMPLES then samples[1..] else samples)]
  }

  function AfterUpdates(log: seq<Update>): seq<Entry>
  {
    if log == [] then [] else AfterUpdate(AfterUpdates(log[..|log| - 1]), log[|log| - 1])
  }

  /** The dictionary that is passed in and changed in place, oldest update first. */
  class History {
    var entries: seq<Entry>

    constructor ()
      ensures entries == []
    {
      entries := [];
    }

    /** `_record_bandwidth_history`: any number of interfaces in one call. */
    method Record(rates: seq<Update>, ghost log: seq<Update>)
      requires entries == AfterUpdates(log)
      modifies this
      ensures entries == AfterUpdates(log + rates)
    {
      NoUpdatesYet(log, rates);
      for i := 0 to |rates|
        invariant entries == AfterUpdates(log + rates[..i])
      {
        AfterUpdatesStep(log, rates, i);
        RecordOne(rates[i]);
      }
    }

    /** The loop body. */
    method RecordOne(u: Update)
      modifies this
      ensures entries == AfterUpdate(old(entries), u)
    {
      var popped := Find(entries, u.name);
      entries := WithoutEntry(entries, u.name);
      var samples := [];
      if popped.Some? {
        samples := popped.value;
      } else if |entries| >= MAX_INTERFACES {
        entries := entries[1..];
      }
      samples := samples + [u.sample];
      if |samples| > MAX_SAMPLES {
        samples := samples[1..];
      }
      entries := entries + [Entry(u.name, samples)];
    }
  }

  lemma NoUpdatesYet(log: seq<Update>, rates: seq<Update>)
    ensures log + rates[..0] == log && rates[..|rates|] == rates
  {
  }

  lemma AfterUpdatesStep(log: seq<Update>, rates: seq<Update>, i: nat)
    requires i < |rates|
    ensures AfterUpdates(log + rates[..i + 1]) == AfterUpdate(AfterUpdates(log + rates[..i]), rates[i])
  {
    var longer := log + rates[..i + 1];
    assert longer[..|longer| - 1] == log + rates[..i];
  }

  // ---------------------------------------------------------------- the reference

  /** All interfaces ever updated, each once, by their last update. */
  function ByLastUpdate(log: seq<Update>): seq<string>
  {
    if log == [] then []
    else
      var name := log[|log| - 1].name;
      Without(ByLastUpdate(log[..|log| - 1]), name) + [name]
  }

  /** The interfaces a least-recently-updated map keeps. */
  function Retained(log: seq<Update>): seq<string> { LastN(ByLastUpdate(log), MAX_INTERFACES) }

  /** All samples of an interface since it last came in, without any bound. */
  function SamplesSinceInserted(log: seq<Update>, name: string): seq<Sample>
  {
    if log == [] then []
    else
      var front, last := log[..|log| - 1], log[|log| - 1];
      if last.name != name then SamplesSinceInserted(front, name)
      else (if name in Retained(front) then SamplesSinceInserted(front, name) else []) + [last.sample]
  }

  // ---------------------------------------------------------------- refinement

  lemma {:induction false} WithoutKeepsDistinct(xs: seq<string>, x: string)
    requires Distinct(xs)
    ensures Distinct(Without(xs, x))
    ensures forall y :: y in Without(xs, x) <==> y in xs && y != x
    ensures |Without(xs, x)| == |xs| - if x in xs then 1 else 0
  {
    if xs != [] {
      WithoutKeepsDistinct(xs[1..], x);
      assert xs == [xs[0]] + xs[1..];
      assert xs[0] !in xs[1..];
      KeepMembers(xs, OtherThan(x));
      if xs[0] == x {
        assert x !in xs[1..];
        assert Without(xs, x) == Without(xs[1..], x);
      } else {
        assert Without(xs, x) == [xs[0]] + Without(xs[1..], x);
      }
    }
  }

  lemma {:induction false} ByLastUpdateIsDistinct(log: seq<Update>)
    ensures Distinct(ByLastUpdate(log))
    ensures forall name :: name in ByLastUpdate(log) <==> exists u <- log :: u.name == name
  {
    if log != [] {
      var front, last := log[..|log| - 1], log[|log| - 1];
      ByLastUpdateIsDistinct(front);
      WithoutKeepsDistinct(ByLastUpdate(front), last.name);
      assert log == front + [last];
    }
  }

  lemma {:induction false} NamesWithout(entries: seq<Entry>, name: string)
    ensures Names(WithoutEntry(entries, name)) == Without(Names(entries), name)
  {
    if entries != [] {
      NamesWithout(entries[1..], name);
      assert Names(entries) == [entries[0].name] + Names(entries[1..]);
      assert Names(entries)[1..] == Names(entries[1..]);
      assert forall e: Entry, es: seq<Entry> :: Names([e] + es) == [e.name] + Names(es);
    }
  }

  lemma {:induction false} FindMeaning(entries: seq<Entry>, name: string)
    ensures Find(entries, name).Some? <==> name in Names(entries)
  {
    if entries != [] {
      FindMeaning(entries[1..], name);
      assert Names(entries) == [entries[0].name] + Names(entries[1..]);
    }
  }

  lemma {:induction false} FindConcat(a: seq<Entry>, b: seq<Entry>, name: string)
    ensures Find(a + b, name) == if Find(a, name).Some? then Find(a, name) else Find(b, name)
  {
    if a == [] {
      assert a + b == b;
    } else {
      assert (a + b)[1..] == a[1..] + b;
      FindConcat(a[1..], b, name);
    }
  }

  lemma {:induction false} FindWithout(entries: seq<Entry>, name: string, other: string)
    requires other != name
    ensures Find(WithoutEntry(entries, name), other) == Find(entries, other)
  {
    if entries != [] {
      var e, rest := entries[0], WithoutEntry(entries[1..], name);
      FindWithout(entries[1..], name, other);
      if e.name == name {
        assert WithoutEntry(entries, name) == rest;
      } else {
        assert WithoutEntry(entries, name) == [e] + rest;
        assert ([e] + rest)[1..] == rest;
      }
    }
  }

  lemma {:induction false} WithoutConcat(a: seq<string>, b: seq<string>, x: string)
    ensures Without(a + b, x) == Without(a, x) + Without(b, x)
  {
    if a == [] {
      assert a + b == b;
    } else {
      assert (a + b)[1..] == a[1..] + b;
      WithoutConcat(a[1..], b, x);
    }
  }

  lemma WithoutAbsent(xs: seq<string>, x: string)
    requires x !in xs
    ensures Without(xs, x) == xs
  {
    KeepEverything(xs, OtherThan(x));
  }

  /** The number of updates up to and including the last one of an interface. */
  function LastUpdate(log: seq<Update>, name: string): (r: nat)
    ensures r <= |log|
    ensures r > 0 <==> exists u <- log :: u.name == name
  {
    if log == [] then 0
    else
      assert log == log[..|log| - 1] + [log[|log| - 1]];
      if log[|log| - 1].name == name then |log| else LastUpdate(log[..|log| - 1], name)
  }

  ghost predicate InUpdateOrder(names: seq<string>, log: seq<Update>)
  {
    forall i, j :: 0 <= i < j < |names| ==> LastUpdate(log, names[i]) < LastUpdate(log, names[j])
  }

  lemma {:induction false} WithoutKeepsOrder(names: seq<string>, name: string, log: seq<Update>)
    requires InUpdateOrder(names, log)
    ensures InUpdateOrder(Without(names, name), log)
  {
    if names != [] {
      var rest := Without(names[1..], name);
      WithoutKeepsOrder(names[1..], name, log);
      KeepMembers(names[1..], OtherThan(name));
      forall later | later in rest
        ensures LastUpdate(log, names[0]) < LastUpdate(log, later)
      {
        assert later in names[1..];
      }
      if names[0] == name {
        assert Without(names, name) == rest;
      } else {
        assert Without(names, name) == [names[0]] + rest;
      }
    }
  }

  lemma {:induction false} ByLastUpdateIsOrdered(log: seq<Update>)
    ensures InUpdateOrder(ByLastUpdate(log), log)
  {
    if log != [] {
      var front, name := log[..|log| - 1], log[|log| - 1].name;
      var others := Without(ByLastUpdate(front), name);
      ByLastUpdateIsOrdered(front);
      WithoutKeepsOrder(ByLastUpdate(front), name, front);
      KeepMembers(ByLastUpdate(front), OtherThan(name));
      forall other | other in others
        ensures LastUpdate(log, other) == LastUpdate(front, other)
      {
      }
      assert ByLastUpdate(log) == others + [name];
    }
  }

  lemma OutsideIsOlder(all: seq<string>, k: nat, kept: string, evicted: string, log: seq<Update>)
    requires InUpdateOrder(all, log)
    requires kept in LastN(all, k) && evicted in all && evicted !in LastN(all, k)
    ensures LastUpdate(log, evicted) < LastUpdate(log, kept) && |LastN(all, k)| == k
  {
    var latest := LastN(all, k);
    var dropped := |all| - |latest|;
    assert all == all[..dropped] + latest;
    assert evicted in all[..dropped];
    var i :| 0 <= i < dropped && all[i] == evicted;
    var j :| 0 <= j < |latest| && latest[j] == kept;
    assert all[dropped + j] == kept;
  }

  /** Every interface that was updated and is not kept was last updated before every one that is. */
  lemma OnlyOldestAreEvicted(log: seq<Update>, kept: string, evicted: string)
    requires kept in Names(AfterUpdates(log))
    requires LastUpdate(log, evicted) > 0 && evicted !in Names(AfterUpdates(log))
    ensures 0 < LastUpdate(log, evicted) < LastUpdate(log, kept)
    ensures |AfterUpdates(log)| == MAX_INTERFACES
  {
    NamesAreRetained(log);
    ByLastUpdateIsOrdered(log);
    ByLastUpdateIsDistinct(log);
    OutsideIsOlder(ByLastUpdate(log), MAX_INTERFACES, kept, evicted, log);
    assert |Names(AfterUpdates(log))| == |AfterUpdates(log)|;
  }

  lemma LatestOfConcat(older: seq<string>, latest: seq<string>, k: nat)
    requires |latest| == k || (|latest| <= k && older == [])
    ensures LastN(older + latest, k) == latest
  {
  }

  lemma DistinctParts(older: seq<string>, latest: seq<string>)
    requires Distinct(older + latest)
    ensures Distinct(latest) && forall name <- latest :: name !in older
  {
    var all := older + latest;
    assert forall i :: 0 <= i < |older| ==> all[i] == older[i];
    assert forall i :: 0 <= i < |latest| ==> all[|older| + i] == latest[i];
  }

  /** Moving a kept name to the end moves it to the end of the kept ones. */
  lemma LatestAfterMove(older: seq<string>, kept: seq<string>, name: string, k: nat)
    requires |kept| == k || (|kept| <= k && older == [])
    requires Distinct(older + kept) && name in kept
    ensures LastN(Without(older + kept, name) + [name], k) == Without(kept, name) + [name]
  {
    DistinctParts(older, kept);
    WithoutKeepsDistinct(kept, name);
    WithoutConcat(older, kept, name);
    WithoutAbsent(older, name);
    LatestOfConcat(older, Without(kept, name) + [name], k);
    assert Without(older + kept, name) + [name] == older + (Without(kept, name) + [name]);
  }

  /** A new name pushes out the oldest of the kept ones, if there are `k` of them. */
  lemma LatestAfterInsert(older: seq<string>, kept: seq<string>, name: string, k: nat)
    requires |kept| == k || (|kept| <= k && older == [])
    requires name !in kept && k > 0
    ensures LastN(Without(older + kept, name) + [name], k) == (if |kept| >= k then kept[1..] else kept) + [name]
  {
    var before := Without(older, name);
    WithoutConcat(older, kept, name);
    WithoutAbsent(kept, name);
    if |kept| < k {
      LatestOfConcat([], kept + [name], k);
      assert Without(older + kept, name) + [name] == [] + (kept + [name]);
    } else {
      LatestOfConcat(before + [kept[0]], kept[1..] + [name], k);
      assert Without(older + kept, name) + [name] == before + [kept[0]] + (kept[1..] + [name]);
    }
  }

  /** Which interfaces are kept, and in what order: the 32 last updated, oldest first. */
  lemma {:induction false} NamesAreRetained(log: seq<Update>)
    ensures Names(AfterUpdates(log)) == Retained(log) == LastN(ByLastUpdate(log), 32)
  {
    if log != [] {
      var front, u := log[..|log| - 1], log[|log| - 1];
      var entries := AfterUpdates(front);
      NamesAreRetained(front);
      ByLastUpdateIsDistinct(front);
      var all, kept := ByLastUpdate(front), Retained(front);
      var older := all[..|all| - |kept|];
      assert all == older + kept;
      if u.name in kept {
        LatestAfterMove(older, kept, u.name, MAX_INTERFACES);
      } else {
        LatestAfterInsert(older, kept, u.name, MAX_INTERFACES);
      }
      NamesOfUpdate(entries, u);
    }
  }

  lemma NamesOfUpdate(entries: seq<Entry>, u: Update)
    ensures var names := Names(entries);
      Names(AfterUpdate(entries, u)) ==
        if u.name in names then Without(names, u.name) + [u.name]
        else (if |names| >= MAX_INTERFACES then names[1..] else names) + [u.name]
  {
    FindMeaning(entries, u.name);
    NamesWithout(entries, u.name);
    var others := WithoutEntry(entries, u.name);
    if u.name !in Names(entries) {
      WithoutAbsent(Names(entries), u.name);
      assert |others| == |Names(others)|;
      if |others| >= MAX_INTERFACES {
        assert Names(others[1..]) == Names(others)[1..];
      }
    }
    assert forall es: seq<Entry>, e: Entry :: Names(es + [e]) == Names(es) + [e.name];
  }

  lemma RoomKeepsOthers(entries: seq<Entry>, name: string)
    requires Distinct(Names(entries))
    ensures name !in Names(Room(entries, name)) && Distinct(Names(Room(entries, name)))
    ensures forall other :: other in Names(Room(entries, name)) ==>
      Find(Room(entries, name), other) == Find(entries, other)
  {
    var others, room := WithoutEntry(entries, name), Room(entries, name);
    NamesWithout(entries, name);
    WithoutKeepsDistinct(Names(entries), name);
    assert Names(room) == if room == others then Names(others) else Names(others)[1..];
    forall other | other in Names(room)
      ensures Find(room, other) == Find(entries, other)
    {
      assert other in Names(others);
      FindWithout(entries, name, other);
      if room != others {
        assert others[0].name == Names(others)[0];
        assert Names(others)[0] !in Names(others)[1..];
      }
    }
  }

  /** The interface that is updated gets the sample, and loses its oldest one if it has too many. */
  lemma FindUpdated(entries: seq<Entry>, u: Update)
    requires Distinct(Names(entries))
    ensures
      var earlier := if Find(entries, u.name).Some? then Find(entries, u.name).value else [];
      var samples := earlier + [u.sample];
      Find(AfterUpdate(entries, u), u.name) == Some(if |samples| > MAX_SAMPLES then samples[1..] else samples)
  {
    var room := Room(entries, u.name);
    RoomKeepsOthers(entries, u.name);
    var last := AfterUpdate(entries, u)[|room|..];
    FindConcat(room, last, u.name);
    FindMeaning(room, u.name);
    assert AfterUpdate(entries, u) == room + last;
  }

  /** An interface that is still there keeps its samples. */
  lemma FindOther(entries: seq<Entry>, u: Update, name: string)
    requires Distinct(Names(entries)) && name != u.name && name in Names(AfterUpdate(entries, u))
    ensures Find(AfterUpdate(entries, u), name) == Find(entries, name)
  {
    var room := Room(entries, u.name);
    RoomKeepsOthers(entries, u.name);
    var last := AfterUpdate(entries, u)[|room|..];
    assert AfterUpdate(entries, u) == room + last;
    FindConcat(room, last, name);
    assert Names(room + last) == Names(room) + [u.name];
    FindMeaning(room, name);
  }

  /** What is kept of each interface: the last 300 samples since it last came in. */
  lemma {:induction false} SamplesAreLatest(log: seq<Update>, name: string)
    requires name in Retained(log)
    ensures Find(AfterUpdates(log), name) == Some(LastN(SamplesSinceInserted(log, name), 300))
    ensures 1 <= |LastN(SamplesSinceInserted(log, name), 300)| <= 300
  {
    NamesAreRetained(log);
    var front, u := log[..|log| - 1], log[|log| - 1];
    NamesAreDistinct(front);
    FindMeaning(AfterUpdates(front), name);
    if name != u.name {
      FindOther(AfterUpdates(front), u, name);
      FindMeaning(AfterUpdates(log), name);
      SamplesAreLatest(front, name);
    } else {
      FindUpdated(AfterUpdates(front), u);
      if name in Retained(front) {
        SamplesAreLatest(front, name);
      }
      BoundedAppend(if name in Retained(front) then SamplesSinceInserted(front, name) else [], u.sample, MAX_SAMPLES);
    }
  }

  lemma NamesAreDistinct(log: seq<Update>)
    ensures Names(AfterUpdates(log)) == Retained(log) && Distinct(Retained(log))
  {
    NamesAreRetained(log);
    ByLastUpdateIsDistinct(log);
  }

  lemma BoundedAppend(xs: seq<Sample>, x: Sample, n: nat)
    requires n > 0
    ensures var longer := LastN(xs, n) + [x];
      LastN(xs + [x], n) == if |longer| > n then longer[1..] else longer
  {
  }
}
