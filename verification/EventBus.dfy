/** The bounded in-process history and the rotating journal file. */
module EventBus {
  import opened Sequences
  import opened Sanitizer
  import opened Events

  type Observer = nat

  /** `xs[-max(0, limit):]` */
  function Recent<T>(xs: seq<T>, limit: int): seq<T>
  {
    NegativeSlice(xs, if limit > 0 then limit else 0)
  }

  predicate StartsWith(s: string, prefix: Option<string>)
  {
    prefix.Some? && prefix.value != "" ==> prefix.value <= s
  }

  function OfKind(prefix: Option<string>): Event -> bool
  {
    (e: Event) => StartsWith(e.kind, prefix)
  }

  function OfType(events: seq<Event>, prefix: Option<string>): seq<Event>
  {
    Keep(events, OfKind(prefix))
  }

  function Skipping<T>(xs: seq<T>, i: nat): seq<T>
    requires i < |xs|
  {
    xs[..i] + xs[i + 1..]
  }

  class Bus {
    var observers: seq<Observer>
    var history: seq<Event>
    const capacity: nat

    constructor (historySize: int)
      ensures observers == [] && history == []
      ensures capacity == (if historySize < 1 then 1 else historySize)
    {
      observers, history, capacity := [], [], if historySize < 1 then 1 else historySize;
    }

    ghost predicate Valid()
      reads this
    {
      |history| <= capacity && Distinct(observers)
    }

    method Subscribe(callback: Observer)
      requires Valid()
      modifies this`observers
      ensures Valid()
      ensures observers == if callback in old(observers) then old(observers) else old(observers) + [callback]
    {
      if callback !in observers {
        observers := observers + [callback];
      }
    }

    /** The callable that `subscribe` returns; calling it again does nothing. */
    method Unsubscribe(callback: Observer)
      requires Valid()
      modifies this`observers
      ensures Valid()
      ensures callback !in old(observers) ==> observers == old(observers)
      ensures callback in old(observers) ==>
        exists i :: 0 <= i < |old(observers)| && old(observers)[i] == callback
          && observers == Skipping(old(observers), i)
      ensures callback !in observers
    {
      if callback in observers {
        var i :| 0 <= i < |observers| && observers[i] == callback;
        observers := Skipping(observers, i);
      }
    }

    /** Record, then dispatch to the observers there were when the event was recorded, whatever
        each of them does (`raises` tells which ones fail). */
    method Publish(raw: RawEvent, ambient: Ambient, raises: Observer -> bool)
        returns (event: Option<Event>, called: seq<Observer>, swallowed: nat)
      requires Valid()
      modifies this`history
      ensures Valid()
      ensures event == FromRaw(raw, ambient)
      ensures event.Some? && Reasonable(ambient) ==> (Normal(event.value) <==> (raw.Ready? ==> Normal(raw.event)))
      ensures history == if event.Some? then LastN(old(history) + [event.value], capacity) else old(history)
      ensures called == if event.Some? then observers else []
      ensures swallowed <= |called| && (swallowed == 0 <==> forall o <- called :: !raises(o))
    {
      event, called, swallowed := FromRaw(raw, ambient), [], 0;
      if event == None {
        return;
      }
      if Reasonable(ambient) {
        AcceptedIsNormalIff(raw, ambient);
      }
      history := LastN(history + [event.value], capacity);
      called, swallowed := Dispatch(observers, raises);
    }

    /** Every observer of the snapshot is called, also after one that raises. */
    method Dispatch(snapshot: seq<Observer>, raises: Observer -> bool) returns (called: seq<Observer>, swallowed: nat)
      ensures called == snapshot
      ensures swallowed <= |called| && (swallowed == 0 <==> forall o <- called :: !raises(o))
    {
      called, swallowed := [], 0;
      for i := 0 to |snapshot|
        invariant called == snapshot[..i]
        invariant swallowed <= i && (swallowed == 0 <==> forall o <- called :: !raises(o))
      {
        assert snapshot[..i + 1] == snapshot[..i] + [snapshot[i]];
        called := called + [snapshot[i]];
        if raises(snapshot[i]) {
          swallowed := swallowed + 1;
        }
      }
    }

    /** `recent`, without the severity filter: the latest `limit` matching events, and all of
        them for a limit of zero or less. */
    method RecentEvents(limit: int, typePrefix: Option<string>) returns (events: seq<Event>)
      ensures events == Recent(OfType(history, typePrefix), limit)
      ensures limit >= 1 ==> events == LastN(OfType(history, typePrefix), limit)
      ensures limit <= 0 ==> events == OfType(history, typePrefix)
      ensures forall e <- events :: e in history && StartsWith(e.kind, typePrefix)
      ensures forall e <- history :: StartsWith(e.kind, typePrefix) ==> e in events || |events| == limit
      ensures typePrefix.Some? ==> forall e <- events :: typePrefix.value <= e.kind
      ensures forall e <- history ::
        (typePrefix.Some? ==> typePrefix.value <= e.kind) ==> e in events || |events| == limit
    {
      KeepMembers(history, OfKind(typePrefix));
      events := KeepLoop(history, OfKind(typePrefix));
      LastNMembers(events, if limit > 0 then limit else 0);
      events := Recent(events, limit);
    }
  }

  // ---------------------------------------------------------------- whole runs of the bus

  /** One publish call: what is published, and what the outside supplies meanwhile. */
  datatype Publication = Publication(raw: RawEvent, ambient: Ambient)

  function Normalized(p: Publication): Option<Event> { FromRaw(p.raw, p.ambient) }

  /** The last `capacity` of `start` and the accepted events. */
  function HistoryAfter(start: seq<Event>, ps: seq<Publication>, capacity: nat): seq<Event>
  {
    LastN(start + FilterMap(ps, Normalized), capacity)
  }

  lemma HistoryStep(start: seq<Event>, ps: seq<Publication>, i: nat, capacity: nat)
    requires i < |ps|
    ensures HistoryAfter(start, ps[..i + 1], capacity)
         == LastN(HistoryAfter(start, ps[..i], capacity) + OneOrNone(Normalized(ps[i])), capacity)
  {
    var accepted, more := FilterMap(ps[..i], Normalized), OneOrNone(Normalized(ps[i]));
    assert ps[..i + 1] == ps[..i] + [ps[i]];
    FilterMapSnoc(ps[..i], ps[i], Normalized);
    BoundedStep(start, accepted, more, accepted + more, capacity);
  }

  /** After any run of publishes the history holds the last `capacity` accepted events. */
  method PublishAll(bus: Bus, ps: seq<Publication>, raises: Observer -> bool)
    requires bus.Valid()
    modifies bus`history
    ensures bus.Valid()
    ensures bus.history == LastN(old(bus.history) + FilterMap(ps, Normalized), bus.capacity)
  {
    ghost var start := bus.history;
    NothingMore(start, bus.capacity);
    for i := 0 to |ps|
      invariant bus.Valid()
      invariant bus.history == HistoryAfter(start, ps[..i], bus.capacity)
    {
      HistoryStep(start, ps, i, bus.capacity);
      NothingMore(bus.history, bus.capacity);
      var _, _, _ := bus.Publish(ps[i].raw, ps[i].ambient, raises);
    }
    assert ps[..|ps|] == ps;
  }

  // ---------------------------------------------------------------- journal

  /** A journal line: what decoding it gives, `None` when it is no JSON. */
  type Line = Option<Json>

  /** How the file operations of one append go. */
  datatype JournalFault = Works | AppendFails | ReadFails | RewriteCutShort(kept: nat)

  function Rotated(lines: seq<Line>, maxLines: int): seq<Line>
  {
    if |lines| > maxLines then NegativeSlice(lines, maxLines) else lines
  }

  class Journal {
    var lines: seq<Line>

    constructor (lines: seq<Line>)
      ensures this.lines == lines
    {
      this.lines := lines;
    }

    /** `_append_event_line`. The rewrite truncates the file before it writes, so cutting it
        short loses lines. */
    method Append(line: Line, maxLines: int, fault: JournalFault)
      modifies this
      ensures lines ==
        match fault
        case Works => Rotated(old(lines) + [line], maxLines)
        case AppendFails => old(lines)
        case ReadFails => old(lines) + [line]
        case RewriteCutShort(kept) =>
          var all := old(lines) + [line];
          if |all| > maxLines then Take(NegativeSlice(all, maxLines), kept) else all
    {
      if fault == AppendFails {
        return;
      }
      lines := lines + [line];
      if fault == ReadFails {
        return;
      }
      var read := lines;
      if |read| > maxLines {
        var tail := NegativeSlice(read, maxLines);
        lines := [];
        lines := if fault.RewriteCutShort? then Take(tail, fault.kept) else tail;
      }
    }

    /** `read_event_file`; for `decode` see `JournalDecoder`. A file that cannot be read gives
        nothing. Otherwise what is read is an end of what the whole file holds: all of it for a
        limit of zero or less, else at most `limit` events, and exactly the latest `limit` if every
        line is usable. */
    method Read(limit: int, decode: Line -> Option<Event>, works: bool) returns (events: seq<Event>)
      ensures events == if works then JournalTail(lines, limit, decode) else []
      ensures events == LastN(FilterMap(lines, decode), |events|)
      ensures works && limit <= 0 ==> events == FilterMap(lines, decode)
      ensures limit >= 1 ==> |events| <= limit
      ensures works && limit >= 1 && (forall line <- lines :: decode(line).Some?) ==>
        events == LastN(FilterMap(lines, decode), limit)
    {
      if !works {
        return [];
      }
      TailIsEnd(lines, limit, decode);
      var window := Recent(lines, limit);
      events := FilterMapLoop(window, decode);
    }
  }

  /** Decoding one line: no JSON, and JSON that is no event, are skipped. */
  function JournalDecoder(ambient: Ambient): Line -> Option<Event>
  {
    (line: Line) => if line.Some? then FromRaw(Value(line.value), ambient) else None
  }

  /** The usable lines among the last `limit`, decoded in order. */
  function JournalTail(lines: seq<Line>, limit: int, decode: Line -> Option<Event>): seq<Event>
  {
    FilterMap(Recent(lines, limit), decode)
  }

  /** After any run of working appends the journal holds the last `maxLines` of the initial
      and appended lines. */
  method AppendAll(journal: Journal, more: seq<Line>, maxLines: nat)
    requires maxLines >= 1
    modifies journal
    ensures journal.lines == if more == [] then old(journal.lines) else LastN(old(journal.lines) + more, maxLines)
  {
    ghost var start := journal.lines;
    for i := 0 to |more|
      invariant journal.lines == if i == 0 then start else LastN(start + more[..i], maxLines)
    {
      assert more[..i + 1] == more[..i] + [more[i]];
      if i == 0 {
        assert more[..1] == [more[0]];
      } else {
        BoundedStep(start, more[..i], [more[i]], more[..i + 1], maxLines);
      }
      journal.Append(more[i], maxLines, Works);
    }
    assert more[..|more|] == more;
  }

  /** The window read is the end of what reading the whole file gives. */
  lemma TailIsSuffix(lines: seq<Line>, limit: int, decode: Line -> Option<Event>)
    ensures var all, tail := FilterMap(lines, decode), JournalTail(lines, limit, decode);
      |tail| <= |all| && all[|all| - |tail|..] == tail
  {
    var window := Recent(lines, limit);
    var rest := lines[..|lines| - |window|];
    assert lines == rest + window;
    FilterMapConcat(rest, window, decode);
    SuffixOfConcat(FilterMap(rest, decode), JournalTail(lines, limit, decode));
  }

  lemma {:induction false} FilterMapIsShorter(lines: seq<Line>, decode: Line -> Option<Event>)
    ensures |FilterMap(lines, decode)| <= |lines|
  {
    if lines != [] {
      FilterMapIsShorter(lines[..|lines| - 1], decode);
    }
  }

  lemma AllUsable(lines: seq<Line>, decode: Line -> Option<Event>)
    requires forall line <- lines :: decode(line).Some?
    ensures |FilterMap(lines, decode)| == |lines|
  {
    FilterMapAll(lines, decode);
  }

  /** How much of the whole file a window shows. */
  lemma TailIsEnd(lines: seq<Line>, limit: int, decode: Line -> Option<Event>)
    ensures var all, tail := FilterMap(lines, decode), JournalTail(lines, limit, decode);
      && tail == LastN(all, |tail|)
      && (limit <= 0 ==> tail == all)
      && (limit >= 1 ==> |tail| <= limit)
      && (limit >= 1 && (forall line <- lines :: decode(line).Some?) ==> tail == LastN(all, limit))
  {
    var window := Recent(lines, limit);
    TailIsSuffix(lines, limit, decode);
    FilterMapIsShorter(window, decode);
    if limit >= 1 && forall line <- lines :: decode(line).Some? {
      AllUsable(lines, decode);
      LastNMembers(lines, limit);
      AllUsable(window, decode);
    }
  }

  /** What is journalled is read back: the line written for a normal event decodes to it. */
  lemma JournalRoundTrip(e: Event, ambient: Ambient)
    requires Reasonable(ambient) && Normal(e)
    ensures JournalDecoder(ambient)(Some(Obj(ToDict(e)))) == Some(e)
  {
    RoundTrip(e, ambient);
  }
}
