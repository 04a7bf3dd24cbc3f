/**
 One client of the event bridge, as a state machine over the interleaved steps of the
 publishers, the observer that fills the client's queue, and the handler thread that
 replays recent events and then drains the queue.
 */
module EventBridge {
  import opened Sequences
  import opened OrderedDict
  import opened Windows
  import opened Sanitizer
  import opened Events
  import opened EventBus
  import opened RecentEvents

  const QUEUE_SIZE := 200

  /** Where one call of `forward` stands: about to put, to make room, or to put again. */
  datatype Pc = TryPut | MakeRoom | PutAgain

  datatype Forward = Forward(event: Event, pc: Pc)

  datatype Phase = Idle | Subscribed | Replaying(pending: seq<Event>) | Streaming | Closed

  datatype State = State(
    history: seq<Event>,    // the bus history
    phase: Phase,
    during: seq<Event>,     // recorded while the client was subscribed
    forwards: seq<Forward>, // calls of `forward` under way
    queue: seq<Event>,
    dropped: seq<Event>,
    window: seq<Event>,     // what the replay was to send
    replayed: seq<Event>,   // what the replay sent of it
    delivered: seq<Event>)  // taken from the queue and sent

  datatype Action =
    | Record(event: Event)
    | Subscribe
    | StartReplay(journal: seq<Event>)
    | SendReplayed
    | EndReplay
    | RunForward(i: nat)
    | Take
    | Close

  /** The bus history size, the number of events to replay, and what an event of the replay
      becomes when its dict is read back (see `ReadBack`). */
  datatype Bridge = Bridge(capacity: nat, limit: int, resend: Event -> Option<Event>)

  const INITIAL := State([], Idle, [], [], [], [], [], [], [])

  /** The observer is registered with the bus. */
  predicate Registered(phase: Phase) { phase.Subscribed? || phase.Replaying? || phase.Streaming? }

  /** Recording and taking the observer snapshot happen in one critical section. */
  function AfterRecord(b: Bridge, s: State, event: Event): State
  {
    var recorded := s.(history := LastN(s.history + [event], b.capacity));
    if Registered(s.phase)
    then recorded.(during := s.during + [event], forwards := s.forwards + [Forward(event, TryPut)])
    else recorded
  }

  /** One queue operation of a `forward` call. */
  function AfterForward(s: State, i: nat): State
    requires i < |s.forwards|
  {
    var Forward(event, pc) := s.forwards[i];
    var others := Skipping(s.forwards, i);
    match pc
    case TryPut =>
      if |s.queue| < QUEUE_SIZE then s.(queue := s.queue + [event], forwards := others)
      else s.(forwards := others + [Forward(event, MakeRoom)])
    case MakeRoom =>
      if s.queue == [] then s.(dropped := s.dropped + [event], forwards := others)
      else
        s.(dropped := s.dropped + [s.queue[0]], queue := s.queue[1..],
           forwards := others + [Forward(event, PutAgain)])
    case PutAgain =>
      if |s.queue| < QUEUE_SIZE then s.(queue := s.queue + [event], forwards := others)
      else s.(dropped := s.dropped + [event], forwards := others)
  }

  /** What `merged_recent_events(limit=replay)` gives at this moment. */
  function ReplayWindow(b: Bridge, s: State, journal: seq<Event>): seq<Event>
  {
    Recent(OfType(MergedByTime(journal, Recent(s.history, WindowSize(b.limit))), None), b.limit)
  }

  /** What the replay makes of an event: it reads the dict back before it sends it. */
  function ReadBack(ambient: Ambient): Event -> Option<Event>
  {
    (e: Event) => FromRaw(Value(Obj(ToDict(e))), ambient)
  }

  /** The next event of the replay. One that cannot be read back ends the handler: its exception
      is none of those the handler catches. */
  function AfterSendReplayed(b: Bridge, s: State): State
    requires s.phase.Replaying? && s.phase.pending != []
  {
    var sent := b.resend(s.phase.pending[0]);
    if sent == None then s.(phase := Closed)
    else s.(phase := Replaying(s.phase.pending[1..]), replayed := s.replayed + [sent.value])
  }

  /** The state after an action, `None` when the action is not possible. */
  function Next(b: Bridge, s: State, a: Action): Option<State>
  {
    match a
    case Record(event) => Some(AfterRecord(b, s, event))
    case Subscribe => if s.phase.Idle? then Some(s.(phase := Subscribed)) else None
    case StartReplay(journal) =>
      if s.phase.Subscribed? then
        var window := ReplayWindow(b, s, journal);
        Some(s.(phase := Replaying(window), window := window))
      else None
    case SendReplayed =>
      if s.phase.Replaying? && s.phase.pending != [] then Some(AfterSendReplayed(b, s)) else None
    case EndReplay =>
      if s.phase == Replaying([]) then Some(s.(phase := Streaming)) else None
    case RunForward(i) => if i < |s.forwards| then Some(AfterForward(s, i)) else None
    case Take =>
      if s.phase.Streaming? && s.queue != []
      then Some(s.(queue := s.queue[1..], delivered := s.delivered + [s.queue[0]]))
      else None
    case Close => if Registered(s.phase) then Some(s.(phase := Closed)) else None
  }

  /** The state after a run; impossible actions are skipped. */
  function Run(b: Bridge, actions: seq<Action>): State
  {
    if actions == [] then INITIAL
    else Step(b, Run(b, actions[..|actions| - 1]), actions[|actions| - 1])
  }

  function Step(b: Bridge, s: State, a: Action): State
  {
    var next := Next(b, s, a);
    if next.Some? then next.value else s
  }

  /** All that the client was sent, in order. */
  function Sent(s: State): seq<Event> { s.replayed + s.delivered }

  function EventsOf(forwards: seq<Forward>): seq<Event>
  {
    seq(|forwards|, i requires 0 <= i < |forwards| => forwards[i].event)
  }

  // ---------------------------------------------------------------- invariant

  /** Every event recorded for the client is in exactly one place. */
  ghost predicate Conserved(s: State)
  {
    multiset(s.during) ==
      multiset(EventsOf(s.forwards)) + multiset(s.queue) + multiset(s.dropped) + multiset(s.delivered)
  }

  /** A full queue was seen only after more events than the queue can hold. */
  ghost predicate OverflowNeedsMany(s: State)
  {
    s.dropped != [] || (exists f <- s.forwards :: f.pc != TryPut) ==> |s.during| > QUEUE_SIZE
  }

  /** The replay sent the first `n` events of its window, each as it reads back. */
  ghost predicate SentFirst(b: Bridge, s: State, n: nat)
  {
    && n <= |s.window| && |s.replayed| == n
    && forall i :: 0 <= i < n ==> b.resend(s.window[i]) == Some(s.replayed[i])
  }

  ghost predicate ReplayInOrder(b: Bridge, s: State)
  {
    match s.phase
    case Idle => s.window == s.replayed == s.delivered == s.during == [] && s.forwards == []
    case Subscribed => s.window == s.replayed == s.delivered == []
    case Replaying(pending) =>
      SentFirst(b, s, |s.replayed|) && pending == s.window[|s.replayed|..] && s.delivered == []
    case Streaming => SentFirst(b, s, |s.window|)
    case Closed => SentFirst(b, s, |s.replayed|) && (|s.replayed| < |s.window| ==> s.delivered == [])
  }

  ghost predicate Invariant(b: Bridge, s: State)
  {
    Conserved(s) && |s.queue| <= QUEUE_SIZE && OverflowNeedsMany(s) && ReplayInOrder(b, s)
  }

  lemma SkippingOne(forwards: seq<Forward>, i: nat)
    requires i < |forwards|
    ensures multiset(EventsOf(forwards)) == multiset(EventsOf(Skipping(forwards, i))) + multiset{forwards[i].event}
    ensures forall f :: f in Skipping(forwards, i) ==> f in forwards
  {
    var events := EventsOf(forwards);
    assert events == events[..i] + [events[i]] + events[i + 1..];
    assert EventsOf(Skipping(forwards, i)) == events[..i] + events[i + 1..];
  }

  lemma AddingOne(forwards: seq<Forward>, f: Forward)
    ensures multiset(EventsOf(forwards + [f])) == multiset(EventsOf(forwards)) + multiset{f.event}
  {
    assert EventsOf(forwards + [f]) == EventsOf(forwards) + [f.event];
  }

  lemma Counts(s: State)
    requires Conserved(s)
    ensures |s.during| == |s.forwards| + |s.queue| + |s.delivered| + |s.dropped|
  {
    assert |multiset(s.during)| == |s.during|;
  }

  lemma HeadAndTail(xs: seq<Event>)
    requires xs != []
    ensures multiset(xs) == multiset{xs[0]} + multiset(xs[1..])
  {
    assert xs == [xs[0]] + xs[1..];
  }

  /** The three places a `forward` call can move an event between. */
  lemma Moved(forwards: seq<Event>, others: seq<Event>, event: Event, queue: seq<Event>, dropped: seq<Event>)
    requires multiset(forwards) == multiset(others) + multiset{event}
    ensures multiset(forwards) + multiset(queue) + multiset(dropped)
         == multiset(others) + multiset(queue + [event]) + multiset(dropped)
         == multiset(others) + multiset(queue) + multiset(dropped + [event])
         == multiset(others + [event]) + multiset(queue) + multiset(dropped)
    ensures queue != [] ==>
         multiset(forwards) + multiset(queue) + multiset(dropped)
         == multiset(others + [event]) + multiset(queue[1..]) + multiset(dropped + [queue[0]])
  {
    if queue != [] {
      HeadAndTail(queue);
    }
  }

  lemma ForwardConserves(s: State, i: nat)
    requires Conserved(s) && i < |s.forwards|
    ensures Conserved(AfterForward(s, i))
  {
    var f, others := s.forwards[i], Skipping(s.forwards, i);
    SkippingOne(s.forwards, i);
    Moved(EventsOf(s.forwards), EventsOf(others), f.event, s.queue, s.dropped);
    var next := Forward(f.event, if f.pc == TryPut then MakeRoom else PutAgain);
    assert EventsOf(others + [next]) == EventsOf(others) + [f.event];
  }

  lemma ForwardKeepsOverflow(s: State, i: nat)
    requires Conserved(s) && OverflowNeedsMany(s) && |s.queue| <= QUEUE_SIZE && i < |s.forwards|
    ensures OverflowNeedsMany(AfterForward(s, i))
  {
    Counts(s);
    SkippingOne(s.forwards, i);
    assert s.forwards[i] in s.forwards;
  }

  lemma ForwardKeepsInvariant(b: Bridge, s: State, i: nat)
    requires Invariant(b, s) && i < |s.forwards|
    ensures Invariant(b, AfterForward(s, i))
  {
    ForwardConserves(s, i);
    ForwardKeepsOverflow(s, i);
    ReplayUnaffected(b, s, AfterForward(s, i));
  }

  /** What does not touch the replay leaves it in order. */
  lemma ReplayUnaffected(b: Bridge, s: State, t: State)
    requires ReplayInOrder(b, s) && t.phase == s.phase
    requires t.window == s.window && t.replayed == s.replayed && t.delivered == s.delivered
    requires s.phase.Idle? ==> t.during == s.during && t.forwards == s.forwards
    ensures ReplayInOrder(b, t)
  {
  }

  lemma RecordConserves(b: Bridge, s: State, event: Event)
    requires Conserved(s)
    ensures Conserved(AfterRecord(b, s, event))
  {
    AddingOne(s.forwards, Forward(event, TryPut));
    assert multiset(s.during + [event]) == multiset(s.during) + multiset{event};
  }

  lemma RecordKeepsInvariant(b: Bridge, s: State, event: Event)
    requires Invariant(b, s)
    ensures Invariant(b, AfterRecord(b, s, event))
  {
    RecordConserves(b, s, event);
    RecordKeepsOverflow(b, s, event);
    ReplayUnaffected(b, s, AfterRecord(b, s, event));
  }

  lemma RecordKeepsOverflow(b: Bridge, s: State, event: Event)
    requires OverflowNeedsMany(s)
    ensures OverflowNeedsMany(AfterRecord(b, s, event))
  {
  }

  lemma TakeKeepsInvariant(b: Bridge, s: State)
    requires Invariant(b, s) && Next(b, s, Take).Some?
    ensures Invariant(b, Next(b, s, Take).value)
  {
    TakeConserves(b, s);
    TakeKeepsReplay(b, s);
  }

  lemma TakeConserves(b: Bridge, s: State)
    requires Conserved(s) && Next(b, s, Take).Some?
    ensures Conserved(Next(b, s, Take).value)
  {
    HeadAndTail(s.queue);
    assert multiset(s.delivered + [s.queue[0]]) == multiset(s.delivered) + multiset{s.queue[0]};
  }

  lemma TakeKeepsReplay(b: Bridge, s: State)
    requires ReplayInOrder(b, s) && OverflowNeedsMany(s) && Next(b, s, Take).Some?
    ensures ReplayInOrder(b, Next(b, s, Take).value) && OverflowNeedsMany(Next(b, s, Take).value)
  {
    var t := Next(b, s, Take).value;
    assert t.phase == Streaming && t.window == s.window && t.replayed == s.replayed;
    assert SentFirst(b, t, |t.window|);
  }

  predicate IsHandlerStep(a: Action)
  {
    a.Subscribe? || a.StartReplay? || a.SendReplayed? || a.EndReplay? || a.Close?
  }

  /** The steps of the handler thread outside the queue leave the queues alone. */
  lemma HandlerLeavesQueues(b: Bridge, s: State, a: Action)
    requires Next(b, s, a).Some? && IsHandlerStep(a)
    ensures var t := Next(b, s, a).value;
      t.during == s.during && t.forwards == s.forwards && t.queue == s.queue && t.dropped == s.dropped
      && t.delivered == s.delivered
  {
  }

  lemma SendReplayedKeepsOrder(b: Bridge, s: State)
    requires ReplayInOrder(b, s) && s.phase.Replaying? && s.phase.pending != []
    ensures ReplayInOrder(b, AfterSendReplayed(b, s))
  {
    var n := |s.replayed|;
    assert s.phase.pending[0] == s.window[n] && s.phase.pending[1..] == s.window[n + 1..];
    var t := AfterSendReplayed(b, s);
    assert SentFirst(b, t, |t.replayed|);
  }

  lemma HandlerReplaysInOrder(b: Bridge, s: State, a: Action)
    requires Next(b, s, a).Some? && IsHandlerStep(a) && ReplayInOrder(b, s)
    ensures ReplayInOrder(b, Next(b, s, a).value)
  {
    match a
    case SendReplayed => SendReplayedKeepsOrder(b, s);
    case Close => assert SentFirst(b, s, |s.replayed|);
    case _ =>
  }

  lemma HandlerKeepsInvariant(b: Bridge, s: State, a: Action)
    requires Invariant(b, s) && Next(b, s, a).Some? && IsHandlerStep(a)
    ensures Invariant(b, Next(b, s, a).value)
  {
    HandlerLeavesQueues(b, s, a);
    HandlerReplaysInOrder(b, s, a);
  }

  lemma StepKeepsInvariant(b: Bridge, s: State, a: Action)
    requires Invariant(b, s) && Next(b, s, a).Some?
    ensures Invariant(b, Next(b, s, a).value)
  {
    match a
    case Record(event) => RecordKeepsInvariant(b, s, event);
    case RunForward(i) => ForwardKeepsInvariant(b, s, i);
    case Take => TakeKeepsInvariant(b, s);
    case _ => HandlerKeepsInvariant(b, s, a);
  }

  /** The invariant holds in every state of every run. */
  lemma {:induction false} RunKeepsInvariant(b: Bridge, actions: seq<Action>)
    ensures Invariant(b, Run(b, actions))
  {
    if actions != [] {
      var n := |actions| - 1;
      RunKeepsInvariant(b, actions[..n]);
      var s := Run(b, actions[..n]);
      if Next(b, s, actions[n]).Some? {
        StepKeepsInvariant(b, s, actions[n]);
      }
    }
  }

  // ---------------------------------------------------------------- main results

  /** No event is lost unless more than a queueful was recorded for the client. */
  lemma LossNeedsOverflow(b: Bridge, actions: seq<Action>)
    ensures var s := Run(b, actions); s.dropped != [] ==> |s.during| > 200
  {
    RunKeepsInvariant(b, actions);
  }

  /** No gap: once the handler streams, nothing is under way and the queue is drained, the
      whole replay window was sent, each event as it reads back, and so was every event recorded
      since the client subscribed, but for those that were dropped. */
  lemma NoGap(b: Bridge, actions: seq<Action>)
    ensures var s := Run(b, actions);
      s.phase.Streaming? && s.forwards == [] && s.queue == [] ==>
        && SentFirst(b, s, |s.window|)
        && multiset(s.during) == multiset(s.delivered) + multiset(s.dropped)
        && (|s.during| <= 200 ==> multiset(Sent(s)) == multiset(s.replayed) + multiset(s.during))
  {
    RunKeepsInvariant(b, actions);
    var s := Run(b, actions);
    if s.phase.Streaming? && s.forwards == [] && s.queue == [] {
      assert EventsOf(s.forwards) == [];
    }
  }

  /** What the replay sends is the event itself if and only if it is in normal form, and
      nothing if and only if it has no usable type. */
  lemma ReadBackIff(ambient: Ambient, e: Event)
    requires Reasonable(ambient)
    ensures ReadBack(ambient)(e) == Some(e) <==> Normal(e)
    ensures ReadBack(ambient)(e) == None <==> !UsableKind(e.kind)
  {
    RoundTrip(e, ambient);
    KindRoundTrips(e, ambient);
  }

  /** The replay stands in front of an event that it cannot send. */
  ghost predicate AtUnreadable(b: Bridge, s: State)
  {
    |s.replayed| < |s.window| && b.resend(s.window[|s.replayed|]) == None
  }

  lemma StepCloses(b: Bridge, s: State, a: Action)
    requires ReplayInOrder(b, s) && !a.Close? && Step(b, s, a).phase.Closed?
    requires s.phase.Closed? ==> AtUnreadable(b, s)
    ensures AtUnreadable(b, Step(b, s, a))
  {
    if !s.phase.Closed? {
      assert a.SendReplayed? && s.phase.pending[0] == s.window[|s.replayed|];
    }
  }

  /** A handler that was not closed from outside ended in front of an event it could not send. */
  lemma {:induction false} OnlyUnreadableCloses(b: Bridge, actions: seq<Action>)
    requires Close !in actions && Run(b, actions).phase.Closed?
    ensures AtUnreadable(b, Run(b, actions))
  {
    var front, a := actions[..|actions| - 1], actions[|actions| - 1];
    assert a in actions && forall x <- front :: x in actions;
    RunKeepsInvariant(b, front);
    if Run(b, front).phase.Closed? {
      OnlyUnreadableCloses(b, front);
    }
    StepCloses(b, Run(b, front), a);
  }

  /** The replay has ended, one way or the other. */
  predicate ReplayOver(phase: Phase) { phase.Streaming? || phase.Closed? }

  /** From every state of a replay, its own steps bring it to an end. */
  lemma {:induction false} ReplayEnds(b: Bridge, actions: seq<Action>) returns (more: seq<Action>)
    requires Run(b, actions).phase.Replaying?
    ensures forall a <- more :: a.SendReplayed? || a.EndReplay?
    ensures ReplayOver(Run(b, actions + more).phase)
    decreases |Run(b, actions).phase.pending|
  {
    var a := if Run(b, actions).phase.pending == [] then EndReplay else SendReplayed;
    RunSnoc(b, actions, a);
    more := [a];
    if Run(b, actions + [a]).phase.Replaying? {
      var rest := ReplayEnds(b, actions + [a]);
      assert actions + [a] + rest == actions + ([a] + rest);
      more := [a] + rest;
    }
  }

  /** In every run in which nothing else closes the handler: the end of the replay is the end of the
      handler if and only if the window holds an event without a usable type. All events in front of
      the first of that kind were sent then, and nothing else. */
  lemma UnreadableEventEndsHandlerIff(b: Bridge, actions: seq<Action>, ambient: Ambient)
    requires Reasonable(ambient) && b.resend == ReadBack(ambient)
    requires Close !in actions && ReplayOver(Run(b, actions).phase)
    ensures var s := Run(b, actions);
      && (s.phase.Closed? <==> exists e <- s.window :: !UsableKind(e.kind))
      && (s.phase.Closed? ==>
            && |s.replayed| < |s.window| && !UsableKind(s.window[|s.replayed|].kind)
            && (forall e <- s.window[..|s.replayed|] :: UsableKind(e.kind))
            && Sent(s) == s.replayed)
  {
    var s := Run(b, actions);
    RunKeepsInvariant(b, actions);
    if s.phase.Closed? {
      OnlyUnreadableCloses(b, actions);
    }
    WindowReadsBack(b, s, ambient);
  }

  lemma WindowReadsBack(b: Bridge, s: State, ambient: Ambient)
    requires Reasonable(ambient) && b.resend == ReadBack(ambient)
    requires SentFirst(b, s, |s.replayed|)
    ensures forall e <- s.window[..|s.replayed|] :: UsableKind(e.kind)
    ensures |s.replayed| == |s.window| ==> forall e <- s.window :: UsableKind(e.kind)
    ensures AtUnreadable(b, s) ==> !UsableKind(s.window[|s.replayed|].kind) && s.window[|s.replayed|] in s.window
  {
    forall e | e in s.window
      ensures b.resend(e) == None <==> !UsableKind(e.kind)
    {
      ReadBackIff(ambient, e);
    }
    assert |s.replayed| == |s.window| ==> s.window[..|s.replayed|] == s.window;
  }

  /** A client whose window holds an event that cannot be sent never gets anything of the stream, in
      no run. */
  lemma UnreadableEventEndsHandler(b: Bridge, actions: seq<Action>, i: nat)
    requires i < |Run(b, actions).window| && b.resend(Run(b, actions).window[i]) == None
    ensures var s := Run(b, actions); !s.phase.Streaming? && s.delivered == [] && |s.replayed| <= i
  {
    RunKeepsInvariant(b, actions);
  }

  /** A case: a ready-made event without a type was recorded, a client subscribes, and its replay ends
      the handler. */
  lemma EmptyTypeEndsHandler(e: Event, ambient: Ambient)
    requires e.kind == "" && Reasonable(ambient)
    ensures var b := Bridge(500, 20, ReadBack(ambient));
      var s := Run(b, [Record(e), Subscribe, StartReplay([]), SendReplayed]);
      s.phase == Closed && s.window == [e] && s.replayed == []
  {
    var b := Bridge(500, 20, ReadBack(ambient));
    var s1, s2 := INITIAL.(history := [e]), INITIAL.(history := [e], phase := Subscribed);
    var s3 := s2.(phase := Replaying([e]), window := [e]);
    FirstRecord(b, e);
    WindowOfOne(b, s2, e);
    UnreadableStep(b, s3, e, ambient);
    FourSteps(b, Record(e), Subscribe, StartReplay([]), SendReplayed);
    assert Step(b, s1, Subscribe) == s2 && Step(b, s2, StartReplay([])) == s3;
  }

  lemma FirstRecord(b: Bridge, e: Event)
    requires b.capacity >= 1
    ensures Step(b, INITIAL, Record(e)) == INITIAL.(history := [e])
  {
    assert [] + [e] == [e];
  }

  lemma WindowOfOne(b: Bridge, s: State, e: Event)
    requires b.limit >= 1 && s.history == [e]
    ensures ReplayWindow(b, s, []) == [e]
  {
    MergedOne(e);
    KeepEverything([e], OfKind(None));
  }

  lemma UnreadableStep(b: Bridge, s: State, e: Event, ambient: Ambient)
    requires b.resend == ReadBack(ambient) && Reasonable(ambient) && e.kind == "" && s.phase == Replaying([e])
    ensures Step(b, s, SendReplayed) == s.(phase := Closed)
  {
    ReadBackIff(ambient, e);
  }

  lemma FourSteps(b: Bridge, a1: Action, a2: Action, a3: Action, a4: Action)
    ensures Run(b, [a1, a2, a3, a4]) == Step(b, Step(b, Step(b, Step(b, INITIAL, a1), a2), a3), a4)
  {
    assert [] + [a1] == [a1] && [a1] + [a2] == [a1, a2] && [a1, a2] + [a3] == [a1, a2, a3];
    assert [a1, a2, a3] + [a4] == [a1, a2, a3, a4];
    RunSnoc(b, [], a1);
    RunSnoc(b, [a1], a2);
    RunSnoc(b, [a1, a2], a3);
    RunSnoc(b, [a1, a2, a3], a4);
  }

  lemma DeliveredAtMostOnce(b: Bridge, actions: seq<Action>, e: Event)
    requires multiset(Run(b, actions).during)[e] <= 1
    ensures var s := Run(b, actions);
      multiset(s.delivered)[e] <= 1 && (e in s.delivered ==> e in s.during)
  {
    RunKeepsInvariant(b, actions);
    var s := Run(b, actions);
    assert multiset(s.delivered)[e] <= multiset(s.during)[e];
    assert e in s.delivered ==> multiset(s.delivered)[e] > 0;
  }

  lemma ReplayedAtMostOnce(b: Bridge, actions: seq<Action>, e: Event, ambient: Ambient)
    requires Reasonable(ambient) && b.resend == ReadBack(ambient) && forall x <- Run(b, actions).window :: Normal(x)
    ensures var s := Run(b, actions);
      multiset(s.replayed)[e] <= 1 && (e in s.replayed ==> e in s.window)
  {
    RunKeepsInvariant(b, actions);
    RunWindowHasNoRepeats(b, actions, e);
    var s := Run(b, actions);
    NormalReplay(b, s, ambient);
    PrefixCount(s.replayed, s.window, e);
  }

  lemma ReplayIsShort(b: Bridge, actions: seq<Action>)
    ensures |Run(b, actions).replayed| <= |Run(b, actions).window|
  {
    RunKeepsInvariant(b, actions);
  }

  lemma SentCount(s: State, e: Event)
    ensures multiset(Sent(s))[e] == multiset(s.replayed)[e] + multiset(s.delivered)[e]
    ensures multiset(s.replayed)[e] > 0 <==> e in s.replayed
    ensures multiset(s.delivered)[e] > 0 <==> e in s.delivered
  {
  }

  /** At every moment, whatever the interleaving, the queue sends an event at most once for each
      time it was recorded, and the replay sends at most one event for each one of its window;
      if those are in normal form, it sends each at most once. */
  lemma SentAtMostTwice(b: Bridge, actions: seq<Action>, e: Event, ambient: Ambient)
    requires multiset(Run(b, actions).during)[e] <= 1
    ensures var s := Run(b, actions);
      multiset(s.delivered)[e] <= 1 && (e in s.delivered ==> e in s.during) && |s.replayed| <= |s.window|
    ensures Reasonable(ambient) && b.resend == ReadBack(ambient) ==>
      (forall x <- Run(b, actions).window :: Normal(x)) ==>
      var s := Run(b, actions);
      && multiset(Sent(s))[e] <= 2
      && (multiset(Sent(s))[e] == 2 ==> e in s.window && e in s.during)
  {
    var s := Run(b, actions);
    ReplayIsShort(b, actions);
    DeliveredAtMostOnce(b, actions, e);
    SentCount(s, e);
    if Reasonable(ambient) && b.resend == ReadBack(ambient) && forall x <- s.window :: Normal(x) {
      ReplayedAtMostOnce(b, actions, e, ambient);
    }
  }

  lemma NormalReplay(b: Bridge, s: State, ambient: Ambient)
    requires Reasonable(ambient) && b.resend == ReadBack(ambient)
    requires SentFirst(b, s, |s.replayed|) && forall x <- s.window :: Normal(x)
    ensures s.replayed <= s.window
  {
    forall i | 0 <= i < |s.replayed|
      ensures s.replayed[i] == s.window[i]
    {
      ReadBackIff(ambient, s.window[i]);
    }
  }

  lemma PrefixCount(a: seq<Event>, b: seq<Event>, e: Event)
    requires a <= b
    ensures multiset(a)[e] <= multiset(b)[e]
  {
    assert b == a + b[|a|..];
  }

  // ---------------------------------------------------------------- the replay window

  lemma {:induction false} DistinctCount(xs: seq<Event>, e: Event)
    requires Distinct(xs)
    ensures multiset(xs)[e] <= 1
  {
    if xs != [] {
      DistinctCount(xs[1..], e);
      HeadAndTail(xs);
      assert xs[0] !in xs[1..];
    }
  }

  lemma {:induction false} SortKeepsEvents(xs: seq<Event>)
    ensures multiset(SortByTime(xs)) == multiset(xs)
  {
    if xs != [] {
      var front, x := xs[..|xs| - 1], xs[|xs| - 1];
      calc {
        multiset(SortByTime(xs));
        multiset(InsertByTime(SortByTime(front), x));
        { InsertKeepsEvents(SortByTime(front), x); }
        multiset(SortByTime(front)) + multiset{x};
        { SortKeepsEvents(front); }
        multiset(front) + multiset{x};
        { assert xs == front + [x]; }
        multiset(xs);
      }
    }
  }

  lemma {:induction false} InsertKeepsEvents(sorted: seq<Event>, x: Event)
    ensures multiset(InsertByTime(sorted, x)) == multiset(sorted) + multiset{x}
  {
    if sorted != [] {
      var n := |sorted| - 1;
      InsertKeepsEvents(sorted[..n], x);
      assert sorted == sorted[..n] + [sorted[n]];
    }
  }

  lemma LastNCount(xs: seq<Event>, n: nat, e: Event)
    ensures multiset(LastN(xs, n))[e] <= multiset(xs)[e]
  {
    assert xs == xs[..|xs| - |LastN(xs, n)|] + LastN(xs, n);
  }

  /** The replay sends no event twice, whatever the journal and the history hold. */
  lemma WindowHasNoRepeats(b: Bridge, s: State, journal: seq<Event>, e: Event)
    ensures multiset(ReplayWindow(b, s, journal))[e] <= 1
  {
    var history := Recent(s.history, WindowSize(b.limit));
    var xs := journal + history;
    var d := PutAll([], Keyed(xs));
    PutAllMeaning(Keyed(xs), "");
    PutAllKeys(xs);
    var values := Values(d);
    assert Distinct(values) by {
      assert forall i :: 0 <= i < |d| ==> values[i].eventId == d[i].0;
    }
    DistinctCount(values, e);
    SortKeepsEvents(values);
    var merged := MergedByTime(journal, history);
    KeepEverything(merged, OfKind(None));
    LastNCount(merged, if b.limit > 0 then b.limit else 0, e);
  }

  lemma {:induction false} RunWindowHasNoRepeats(b: Bridge, actions: seq<Action>, e: Event)
    ensures multiset(Run(b, actions).window)[e] <= 1
  {
    if actions != [] {
      var n := |actions| - 1;
      RunWindowHasNoRepeats(b, actions[..n], e);
      if actions[n].StartReplay? {
        WindowHasNoRepeats(b, Run(b, actions[..n]), actions[n].journal, e);
      }
    }
  }

  // ---------------------------------------------------------------- what the fields mean

  function RecordedBy(a: Action): Option<Event> { if a.Record? then Some(a.event) else None }

  /** The events a run recorded, in order. */
  function Recorded(actions: seq<Action>): seq<Event> { FilterMap(actions, RecordedBy) }

  lemma StepRecords(b: Bridge, s: State, a: Action)
    ensures var t := Step(b, s, a);
      && t.history == (if a.Record? then LastN(s.history + [a.event], b.capacity) else s.history)
      && (Registered(s.phase) && Registered(t.phase) ==> t.during == s.during + OneOrNone(RecordedBy(a)))
      && (s.phase != Idle ==> t.phase != Idle && (Registered(t.phase) ==> Registered(s.phase)))
  {
  }

  lemma {:induction false} HistoryIsLatest(b: Bridge, actions: seq<Action>)
    ensures Run(b, actions).history == LastN(Recorded(actions), b.capacity)
  {
    if actions != [] {
      var front, a := actions[..|actions| - 1], actions[|actions| - 1];
      HistoryIsLatest(b, front);
      StepRecords(b, Run(b, front), a);
      LastNAppend(Recorded(front), OneOrNone(RecordedBy(a)), b.capacity);
      LastNOfLastN(Recorded(front), b.capacity, b.capacity);
    }
  }

  lemma {:induction false} IdleBeforeSubscribe(b: Bridge, pre: seq<Action>)
    requires forall a <- pre :: !a.Subscribe?
    ensures Run(b, pre).phase == Idle && Run(b, pre).during == []
  {
    if pre != [] {
      var front := pre[..|pre| - 1];
      assert pre[|pre| - 1] in pre && forall a <- front :: a in pre;
      IdleBeforeSubscribe(b, front);
    }
  }

  lemma SubscribeStarts(b: Bridge, s: State)
    requires s.phase == Idle
    ensures var t := Step(b, s, Subscribe); Registered(t.phase) && t.during == s.during
  {
  }

  lemma RunSnoc(b: Bridge, actions: seq<Action>, a: Action)
    ensures Run(b, actions + [a]) == Step(b, Run(b, actions), a)
  {
    assert (actions + [a])[..|actions|] == actions;
  }

  /** From the subscription on, for as long as the client is registered, every recorded event is
      recorded for it: there is no moment in which one could slip through. */
  lemma {:induction false} DuringIsSinceSubscribe(b: Bridge, pre: seq<Action>, post: seq<Action>)
    requires forall a <- pre :: !a.Subscribe?
    ensures var s := Run(b, pre + [Subscribe] + post);
      && s.phase != Idle
      && (Registered(s.phase) ==> s.during == Recorded(post))
    decreases |post|
  {
    if post == [] {
      IdleBeforeSubscribe(b, pre);
      RunSnoc(b, pre, Subscribe);
      SubscribeStarts(b, Run(b, pre));
      assert pre + [Subscribe] + post == pre + [Subscribe];
    } else {
      var front, a := post[..|post| - 1], post[|post| - 1];
      DuringIsSinceSubscribe(b, pre, front);
      RunSnoc(b, pre + [Subscribe] + front, a);
      assert pre + [Subscribe] + post == (pre + [Subscribe] + front) + [a];
      StepRecords(b, Run(b, pre + [Subscribe] + front), a);
    }
  }

  // ---------------------------------------------------------------- over the recorded sequence

  lemma {:induction false} StaysSubscribed(b: Bridge, pre: seq<Action>, mid: seq<Action>)
    requires forall a <- pre :: !a.Subscribe?
    requires forall a <- mid :: !a.Close? && !a.StartReplay?
    ensures Run(b, pre + [Subscribe] + mid).phase == Subscribed
    decreases |mid|
  {
    if mid == [] {
      IdleBeforeSubscribe(b, pre);
      RunSnoc(b, pre, Subscribe);
      assert pre + [Subscribe] + mid == pre + [Subscribe];
    } else {
      var front, a := mid[..|mid| - 1], mid[|mid| - 1];
      assert a in mid && forall x <- front :: x in mid;
      StaysSubscribed(b, pre, front);
      RunSnoc(b, pre + [Subscribe] + front, a);
      assert pre + [Subscribe] + mid == (pre + [Subscribe] + front) + [a];
    }
  }

  predicate ReplayStarted(phase: Phase) { phase.Replaying? || phase.Streaming? || phase.Closed? }

  lemma StepKeepsWindow(b: Bridge, s: State, a: Action)
    requires ReplayStarted(s.phase)
    ensures ReplayStarted(Step(b, s, a).phase) && Step(b, s, a).window == s.window
  {
  }

  /** The window is fixed once the replay has started. */
  lemma {:induction false} WindowStays(b: Bridge, before: seq<Action>, post: seq<Action>)
    requires ReplayStarted(Run(b, before).phase)
    ensures ReplayStarted(Run(b, before + post).phase) && Run(b, before + post).window == Run(b, before).window
    decreases |post|
  {
    if post == [] {
      assert before + post == before;
    } else {
      var front, a := post[..|post| - 1], post[|post| - 1];
      WindowStays(b, before, front);
      RunSnoc(b, before + front, a);
      assert before + post == (before + front) + [a];
      StepKeepsWindow(b, Run(b, before + front), a);
    }
  }

  lemma WindowOfRun(b: Bridge, pre: seq<Action>, mid: seq<Action>, journal: seq<Event>, post: seq<Action>)
    requires forall a <- pre :: !a.Subscribe?
    requires forall a <- mid :: !a.Close? && !a.StartReplay?
    ensures Run(b, pre + [Subscribe] + mid + [StartReplay(journal)] + post).window
         == ReplayWindow(b, Run(b, pre + [Subscribe] + mid), journal)
  {
    var before := pre + [Subscribe] + mid;
    StaysSubscribed(b, pre, mid);
    RunSnoc(b, before, StartReplay(journal));
    WindowStays(b, before + [StartReplay(journal)], post);
  }

  lemma RecordedConcat(x: seq<Action>, y: seq<Action>)
    ensures Recorded(x + y) == Recorded(x) + Recorded(y)
  {
    FilterMapConcat(x, y, RecordedBy);
  }

  lemma RecordsNothing(a: Action)
    requires !a.Record?
    ensures Recorded([a]) == []
  {
    assert [a][..0] == [] && [a][0] == a;
    assert FilterMap([a], RecordedBy) == FilterMap([a][..0], RecordedBy) + OneOrNone(RecordedBy(a));
  }

  lemma RecordedAround(x: seq<Action>, a: Action, y: seq<Action>)
    requires !a.Record?
    ensures Recorded(x + [a] + y) == Recorded(x) + Recorded(y)
  {
    RecordedConcat(x + [a], y);
    RecordedConcat(x, [a]);
    RecordsNothing(a);
  }

  lemma LatestOfSources(b: Bridge, s: State, journal: seq<Event>)
    requires b.limit >= 1
    requires Increasing(journal) && Increasing(s.history) && Consistent(journal + s.history)
    ensures ReplayWindow(b, s, journal) == LastN(MergedByTime(journal, s.history), b.limit)
  {
    var h := Recent(s.history, WindowSize(b.limit));
    assert s.history == s.history[..|s.history| - |h|] + h;
    KeepEverything(MergedByTime(journal, h), OfKind(None));
    WindowedMergeIsExact(journal, s.history, journal, h, b.limit);
  }

  lemma WindowIsLatest(b: Bridge, pre: seq<Action>, mid: seq<Action>, journal: seq<Event>, post: seq<Action>)
    requires b.limit >= 1
    requires forall a <- pre :: !a.Subscribe?
    requires forall a <- mid :: !a.Close? && !a.StartReplay?
    requires var history := LastN(Recorded(pre) + Recorded(mid), b.capacity);
      Increasing(journal) && Increasing(history) && Consistent(journal + history)
    ensures Run(b, pre + [Subscribe] + mid + [StartReplay(journal)] + post).window
         == LastN(MergedByTime(journal, LastN(Recorded(pre) + Recorded(mid), b.capacity)), b.limit)
  {
    var before := pre + [Subscribe] + mid;
    RecordedAround(pre, Subscribe, mid);
    HistoryIsLatest(b, before);
    LatestOfSources(b, Run(b, before), journal);
    WindowOfRun(b, pre, mid, journal, post);
  }

  lemma DuringOfRun(b: Bridge, pre: seq<Action>, mid: seq<Action>, journal: seq<Event>, post: seq<Action>)
    requires forall a <- pre :: !a.Subscribe?
    ensures var s := Run(b, pre + [Subscribe] + mid + [StartReplay(journal)] + post);
      Registered(s.phase) ==> s.during == Recorded(mid) + Recorded(post)
  {
    var since := mid + [StartReplay(journal)] + post;
    assert pre + [Subscribe] + mid + [StartReplay(journal)] + post == pre + [Subscribe] + since;
    RecordedAround(mid, StartReplay(journal), post);
    DuringIsSinceSubscribe(b, pre, since);
  }

  /** One client from beginning to end. `pre` was recorded before it subscribed, `mid` between that
      and its replay, `post` after the start of the replay. Once it streams and is drained, the
      replay window is the latest `limit` events of the journal and of all that the bus still
      held of `pre` and `mid`, each of them was sent, and every event of `mid` and `post` was sent
      or dropped; none was dropped if they fit into the queue. */
  lemma NothingIsMissed(b: Bridge, pre: seq<Action>, mid: seq<Action>, journal: seq<Event>, post: seq<Action>,
                        x: Event)
    requires b.limit >= 1
    requires forall a <- pre :: !a.Subscribe?
    requires forall a <- mid :: !a.Close? && !a.StartReplay?
    requires var history := LastN(Recorded(pre) + Recorded(mid), b.capacity);
      Increasing(journal) && Increasing(history) && Consistent(journal + history)
    ensures var s := Run(b, pre + [Subscribe] + mid + [StartReplay(journal)] + post);
      var history := LastN(Recorded(pre) + Recorded(mid), b.capacity);
      s.phase.Streaming? && s.forwards == [] && s.queue == [] ==>
        && s.window == LastN(MergedByTime(journal, history), b.limit)
        && (x in s.window ==> b.resend(x).Some? && b.resend(x).value in Sent(s))
        && (x in Recorded(mid) + Recorded(post) ==> x in Sent(s) || x in s.dropped)
        && (|Recorded(mid) + Recorded(post)| <= 200 ==> s.dropped == [])
  {
    var actions := pre + [Subscribe] + mid + [StartReplay(journal)] + post;
    var s := Run(b, actions);
    WindowIsLatest(b, pre, mid, journal, post);
    DuringOfRun(b, pre, mid, journal, post);
    NoGap(b, actions);
    LossNeedsOverflow(b, actions);
    if s.phase.Streaming? && s.forwards == [] && s.queue == [] {
      SentOrDropped(b, s, x);
    }
  }

  lemma SentOrDropped(b: Bridge, s: State, x: Event)
    requires SentFirst(b, s, |s.window|)
    requires multiset(s.during) == multiset(s.delivered) + multiset(s.dropped)
    ensures x in s.window ==> b.resend(x).Some? && b.resend(x).value in Sent(s)
    ensures x in s.during ==> x in Sent(s) || x in s.dropped
  {
    if x in s.window {
      var i :| 0 <= i < |s.window| && s.window[i] == x;
      assert s.replayed[i] in s.replayed;
    }
    if x in s.during {
      assert x in multiset(s.during);
      assert x in multiset(s.delivered) || x in multiset(s.dropped);
    }
  }

  // ---------------------------------------------------------------- what was sent, and the end of it

  lemma StepSendsAtTheEnd(b: Bridge, s: State, a: Action)
    requires ReplayInOrder(b, s)
    ensures Sent(s) <= Sent(Step(b, s, a))
  {
    if a.Take? && s.phase.Streaming? && s.queue != [] {
      assert s.replayed + (s.delivered + [s.queue[0]]) == s.replayed + s.delivered + [s.queue[0]];
    }
  }

  /** What a client was sent only grows at its end. */
  lemma {:induction false} SentOnlyGrows(b: Bridge, before: seq<Action>, more: seq<Action>)
    ensures Sent(Run(b, before)) <= Sent(Run(b, before + more))
    decreases |more|
  {
    if more == [] {
      assert before + more == before;
    } else {
      var front, a := more[..|more| - 1], more[|more| - 1];
      SentOnlyGrows(b, before, front);
      assert before + more == before + front + [a];
      RunSnoc(b, before + front, a);
      RunKeepsInvariant(b, before + front);
      StepSendsAtTheEnd(b, Run(b, before + front), a);
    }
  }

  /** A client that is closed is sent nothing more, and nothing more is recorded for it. */
  lemma {:induction false} NothingAfterClose(b: Bridge, before: seq<Action>, more: seq<Action>)
    requires Registered(Run(b, before).phase)
    ensures var s, t := Run(b, before), Run(b, before + [Close] + more);
      t.phase == Closed && Sent(t) == Sent(s) && t.during == s.during
    decreases |more|
  {
    if more == [] {
      RunSnoc(b, before, Close);
      assert before + [Close] + more == before + [Close];
    } else {
      var front, a := more[..|more| - 1], more[|more| - 1];
      NothingAfterClose(b, before, front);
      assert before + [Close] + more == before + [Close] + front + [a];
      RunSnoc(b, before + [Close] + front, a);
    }
  }

  // ---------------------------------------------------------------- order of the stream

  /** One publish whose `forward` runs to its end before anything else happens, or one other step. */
  datatype Turn = Publish(event: Event) | Other(action: Action)

  ghost predicate OneAtATime(turns: seq<Turn>)
  {
    forall turn <- turns :: turn.Other? ==> !turn.action.Record? && !turn.action.RunForward?
  }

  function StepsOf(turn: Turn): seq<Action>
  {
    match turn
    case Publish(event) => [Record(event), RunForward(0), RunForward(0), RunForward(0)]
    case Other(action) => [action]
  }

  function Flat(turns: seq<Turn>): seq<Action>
  {
    if turns == [] then [] else Flat(turns[..|turns| - 1]) + StepsOf(turns[|turns| - 1])
  }

  /** The queue is the end of what was recorded for the client. What was delivered came in order; what
      was dropped is older than what is queued, and nothing is dropped from a queue that has room. */
  ghost predicate InOrder(s: State)
  {
    && s.forwards == [] && |s.queue| <= 200
    && s.queue == LastN(s.during, |s.queue|)
    && (s.dropped == [] ==> s.delivered + s.queue == s.during)
    && (s.delivered == [] ==> s.dropped + s.queue == s.during && (s.dropped != [] ==> |s.queue| == 200))
  }

  /** The queue after one event more. */
  lemma PublishedState(b: Bridge, s: State, event: Event)
    requires s.forwards == [] && |s.queue| <= 200 && Registered(s.phase)
    ensures var s1 := AfterRecord(b, s, event);
      var t := Step(b, Step(b, Step(b, s1, RunForward(0)), RunForward(0)), RunForward(0));
      t == if |s.queue| < 200 then s1.(queue := s.queue + [event], forwards := [])
           else s1.(queue := s.queue[1..] + [event], dropped := s.dropped + [s.queue[0]], forwards := [])
  {
    var s1 := AfterRecord(b, s, event);
    assert s1.forwards == [Forward(event, TryPut)] && Skipping(s1.forwards, 0) == [];
    if |s.queue| == 200 {
      var s2, s3 := AfterForward(s1, 0), AfterForward(AfterForward(s1, 0), 0);
      assert s2.forwards == [Forward(event, MakeRoom)] && Skipping(s2.forwards, 0) == [];
      assert s3.forwards == [Forward(event, PutAgain)] && Skipping(s3.forwards, 0) == [];
    }
  }

  lemma PublishKeepsOrder(b: Bridge, s: State, event: Event)
    requires InOrder(s)
    ensures var t := Step(b, Step(b, Step(b, Step(b, s, Record(event)), RunForward(0)), RunForward(0)), RunForward(0));
      InOrder(t)
  {
    if Registered(s.phase) {
      PublishedState(b, s, event);
      var q := s.queue;
      if |q| < 200 {
        assert s.delivered + (q + [event]) == s.delivered + q + [event];
        assert s.dropped + (q + [event]) == s.dropped + q + [event];
      } else {
        assert q == [q[0]] + q[1..];
        assert s.dropped + [q[0]] + (q[1..] + [event]) == s.dropped + q + [event];
      }
    }
  }

  lemma OtherKeepsOrder(b: Bridge, s: State, a: Action)
    requires InOrder(s) && !a.Record? && !a.RunForward?
    ensures InOrder(Step(b, s, a))
  {
    if a.Take? && s.phase.Streaming? && s.queue != [] {
      assert s.delivered + [s.queue[0]] + s.queue[1..] == s.delivered + s.queue;
    }
  }

  lemma RunFour(b: Bridge, front: seq<Action>, a: seq<Action>)
    requires |a| == 4
    ensures Run(b, front + a) == Step(b, Step(b, Step(b, Step(b, Run(b, front), a[0]), a[1]), a[2]), a[3])
  {
    RunSnoc(b, front, a[0]);
    RunSnoc(b, front + [a[0]], a[1]);
    RunSnoc(b, front + [a[0]] + [a[1]], a[2]);
    RunSnoc(b, front + [a[0]] + [a[1]] + [a[2]], a[3]);
    assert front + a == front + [a[0]] + [a[1]] + [a[2]] + [a[3]];
  }

  lemma {:induction false} FlatMeaning(x: seq<Turn>, y: seq<Turn>)
    ensures Flat(x + y) == Flat(x) + Flat(y)
    ensures |x| == 1 ==> Flat(x) == StepsOf(x[0])
  {
    if |x| == 1 {
      assert x[..0] == [] && Flat(x[..0]) + StepsOf(x[0]) == StepsOf(x[0]);
    }
    if y == [] {
      assert x + y == x;
    } else {
      assert (x + y)[..|x + y| - 1] == x + y[..|y| - 1];
      FlatMeaning(x, y[..|y| - 1]);
    }
  }

  /** As long as no two publishes overlap, a client gets its events in order, and a slow one loses the
      oldest: a queue from which nothing was taken holds the latest 200. */
  lemma {:induction false} StreamIsInOrder(b: Bridge, turns: seq<Turn>)
    requires OneAtATime(turns)
    ensures InOrder(Run(b, Flat(turns)))
    ensures var s := Run(b, Flat(turns)); s.delivered == [] ==> s.queue == LastN(s.during, 200)
  {
    if turns != [] {
      var front, last := turns[..|turns| - 1], turns[|turns| - 1];
      assert last in turns && forall turn <- front :: turn in turns;
      StreamIsInOrder(b, front);
      var s := Run(b, Flat(front));
      if last.Publish? {
        RunFour(b, Flat(front), StepsOf(last));
        PublishKeepsOrder(b, s, last.event);
      } else {
        RunSnoc(b, Flat(front), last.action);
        OtherKeepsOrder(b, s, last.action);
      }
    }
  }
}
