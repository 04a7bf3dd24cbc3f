/** Starting engines in order, and stopping them in reverse when one does not start. */
module EngineStack {

  type Engine = nat

  /** The calls a connection makes to the outside, in the order it makes them. */
  datatype Call =
    | Prepare | Enable | Start(engine: Engine) | SetProxy | Monitor
    | Stop(engine: Engine) | CleanupProxy | RestoreProxy | ClearProxy | Disable | ClearEndpoint

  /** How one engine start ends. An interrupt is no `Exception`. */
  datatype StartReply = Started | Refused | Fails | Interrupts

  datatype StackResult = Running(engines: seq<Engine>) | NoneRunning | Raised | Interrupted

  class CallLog {
    var calls: seq<Call>

    constructor ()
      ensures calls == []
    {
      calls := [];
    }

    method Note(c: Call)
      modifies this
      ensures calls == old(calls) + [c]
    {
      calls := calls + [c];
    }
  }

  function Starts(engines: seq<Engine>): seq<Call>
  {
    seq(|engines|, i requires 0 <= i < |engines| => Start(engines[i]))
  }

  function Stops(engines: seq<Engine>): seq<Call>
  {
    seq(|engines|, i requires 0 <= i < |engines| => Stop(engines[i]))
  }

  function Reversed(engines: seq<Engine>): seq<Engine>
  {
    seq(|engines|, i requires 0 <= i < |engines| => engines[|engines| - 1 - i])
  }

  /** How many engines start before the first that does not. */
  function StartedCount(engines: seq<Engine>, start: Engine -> StartReply): (n: nat)
    ensures n <= |engines|
    ensures forall i :: 0 <= i < n ==> start(engines[i]) == Started
    ensures n < |engines| ==> start(engines[n]) != Started
  {
    if engines == [] || start(engines[0]) != Started then 0
    else 1 + StartedCount(engines[1..], start)
  }

  /** `stop_engines_in_reverse`: every engine is stopped, also behind one whose stop raises. */
  method StopEnginesInReverse(log: CallLog, engines: seq<Engine>, stopRaises: Engine -> bool) returns (swallowed: nat)
    modifies log
    ensures log.calls == old(log.calls) + Stops(Reversed(engines))
    ensures |log.calls| == |old(log.calls)| + |engines|
    ensures forall i :: 0 <= i < |engines| ==> log.calls[|log.calls| - 1 - i] == Stop(engines[i])
    ensures swallowed <= |engines| && (swallowed == 0 <==> forall e <- engines :: !stopRaises(e))
  {
    var reversed := Reversed(engines);
    swallowed := 0;
    for i := 0 to |reversed|
      invariant log.calls == old(log.calls) + Stops(reversed[..i])
      invariant swallowed <= i && (swallowed == 0 <==> forall k :: 0 <= k < i ==> !stopRaises(reversed[k]))
    {
      assert Stops(reversed[..i + 1]) == Stops(reversed[..i]) + [Stop(reversed[i])];
      log.Note(Stop(reversed[i]));
      if stopRaises(reversed[i]) {
        swallowed := swallowed + 1;
      }
    }
    assert reversed[..|reversed|] == reversed;
    assert forall k :: 0 <= k < |engines| ==> engines[k] == reversed[|engines| - 1 - k];
  }

  /** All, or none left running: the engines started before one that refuses or fails are stopped,
      last first. An interrupt is not caught, so then they keep running. */
  function StackTrace(engines: seq<Engine>, start: Engine -> StartReply): seq<Call>
  {
    var n := StartedCount(engines, start);
    if n == |engines| then Starts(engines)
    else
      Starts(engines[..n + 1]) + if start(engines[n]) == Interrupts then [] else Stops(Reversed(engines[..n]))
  }

  function StackEnd(engines: seq<Engine>, start: Engine -> StartReply): StackResult
  {
    var n := StartedCount(engines, start);
    if n == |engines| then Running(engines)
    else match start(engines[n])
      case Refused => NoneRunning
      case Interrupts => Interrupted
      case _ => Raised
  }

  lemma StartsSnoc(engines: seq<Engine>, i: nat)
    requires i < |engines|
    ensures Starts(engines[..i + 1]) == Starts(engines[..i]) + [Start(engines[i])]
    ensures engines[..i + 1] == engines[..i] + [engines[i]]
  {
  }

  lemma StackTraceAt(engines: seq<Engine>, start: Engine -> StartReply, i: nat)
    requires i < |engines| && i <= StartedCount(engines, start)
    ensures if start(engines[i]) == Started then i + 1 <= StartedCount(engines, start)
      else
        && StackTrace(engines, start) == Starts(engines[..i]) + [Start(engines[i])]
             + (if start(engines[i]) == Interrupts then [] else Stops(Reversed(engines[..i])))
        && StackEnd(engines, start) ==
             match start(engines[i]) case Refused => NoneRunning case Interrupts => Interrupted case _ => Raised
  {
    StartsSnoc(engines, i);
  }

  lemma Behind(a: seq<Call>, b: seq<Call>)
    ensures (a + b)[|a|..] == b
  {
  }

  lemma Regrouped(a: seq<Call>, b: seq<Call>, c: seq<Call>, d: seq<Call>)
    ensures a + b + c + d == a + (b + c + d)
  {
  }

  /** The first `n + 1` engines are started in order, and then the first `n` are stopped, the last
      started first. */
  ghost predicate Unwound(calls: seq<Call>, engines: seq<Engine>, n: nat)
    requires n < |engines|
  {
    && |calls| == 2 * n + 1
    && (forall i :: 0 <= i <= n ==> calls[i] == Start(engines[i]))
    && (forall i :: 0 <= i < n ==> calls[2 * n - i] == Stop(engines[i]))
  }

  lemma StopsByPlace(engines: seq<Engine>)
    ensures var stops := Stops(Reversed(engines));
      |stops| == |engines| && forall i :: 0 <= i < |engines| ==> stops[|stops| - 1 - i] == Stop(engines[i])
  {
  }

  lemma UnwindsByPlace(engines: seq<Engine>, n: nat)
    requires n < |engines|
    ensures Unwound(Starts(engines[..n + 1]) + Stops(Reversed(engines[..n])), engines, n)
  {
    var starts, stops := Starts(engines[..n + 1]), Stops(Reversed(engines[..n]));
    StopsByPlace(engines[..n]);
    assert forall i :: 0 <= i <= n ==> starts[i] == Start(engines[i]);
    InTwoParts(starts, stops, engines, n);
  }

  lemma InTwoParts(starts: seq<Call>, stops: seq<Call>, engines: seq<Engine>, n: nat)
    requires n < |engines| && |starts| == n + 1 && |stops| == n
    requires forall i :: 0 <= i <= n ==> starts[i] == Start(engines[i])
    requires forall i :: 0 <= i < n ==> stops[n - 1 - i] == Stop(engines[i])
    ensures Unwound(starts + stops, engines, n)
  {
    forall i | 0 <= i < n
      ensures (starts + stops)[2 * n - i] == Stop(engines[i])
    {
      assert (starts + stops)[2 * n - i] == stops[n - 1 - i];
    }
  }

  /** When an engine refuses or fails, the engines in front of it are stopped in reverse. */
  lemma FailedStartUnwinds(engines: seq<Engine>, start: Engine -> StartReply)
    requires var n := StartedCount(engines, start); n < |engines| && start(engines[n]) != Interrupts
    ensures Unwound(StackTrace(engines, start), engines, StartedCount(engines, start))
  {
    UnwindsByPlace(engines, StartedCount(engines, start));
  }

  /** Of two engines that run when a later one refuses or fails, the one started later is stopped first. */
  lemma LaterStartedIsStoppedFirst(calls: seq<Call>, engines: seq<Engine>, n: nat, i: nat, j: nat)
    requires n < |engines| && Unwound(calls, engines, n) && i < j < n
    ensures exists p, q :: 0 <= p < q < |calls| && calls[p] == Stop(engines[j]) && calls[q] == Stop(engines[i])
  {
    assert calls[2 * n - j] == Stop(engines[j]) && calls[2 * n - i] == Stop(engines[i]);
  }

  /** `start_engines_in_order` */
  method StartEnginesInOrder(log: CallLog, engines: seq<Engine>, start: Engine -> StartReply,
                             stopRaises: Engine -> bool) returns (result: StackResult)
    modifies log
    ensures result == StackEnd(engines, start)
    ensures log.calls == old(log.calls) + StackTrace(engines, start)
    ensures var n := StartedCount(engines, start);
      n < |engines| && start(engines[n]) != Interrupts ==> Unwound(log.calls[|old(log.calls)|..], engines, n)
  {
    var started: seq<Engine> := [];
    for i := 0 to |engines|
      invariant started == engines[..i]
      invariant log.calls == old(log.calls) + Starts(engines[..i])
      invariant i <= StartedCount(engines, start)
    {
      log.Note(Start(engines[i]));
      var reply := start(engines[i]);
      StackTraceAt(engines, start, i);
      if reply != Started {
        Regrouped(old(log.calls), Starts(engines[..i]), [Start(engines[i])], Stops(Reversed(started)));
        if reply == Interrupts {
          return Interrupted;
        }
        var _ := StopEnginesInReverse(log, started, stopRaises);
        FailedStartUnwinds(engines, start);
        Behind(old(log.calls), StackTrace(engines, start));
        return if reply == Refused then NoneRunning else Raised;
      }
      StartsSnoc(engines, i);
      started := started + [engines[i]];
    }
    assert engines[..|engines|] == engines;
    return Running(started);
  }

  // ---------------------------------------------------------------- counting

  function Count<T(==)>(xs: seq<T>, x: T): nat { multiset(xs)[x] }

  lemma CountConcat<T>(a: seq<T>, b: seq<T>, x: T)
    ensures Count(a + b, x) == Count(a, x) + Count(b, x)
  {
  }

  lemma CountOne<T>(y: T, x: T)
    ensures Count([y], x) == if y == x then 1 else 0
  {
  }

  lemma CountPositive<T>(xs: seq<T>, x: T)
    ensures Count(xs, x) > 0 <==> x in xs
  {
  }

  /** Starts hold no stops, and each call as often as its engine. */
  lemma {:induction false} CountStarts(engines: seq<Engine>, c: Call)
    ensures Count(Starts(engines), c) == if c.Start? then Count(engines, c.engine) else 0
  {
    if engines != [] {
      CountStarts(engines[1..], c);
      assert engines == [engines[0]] + engines[1..];
      assert Starts(engines) == [Start(engines[0])] + Starts(engines[1..]);
    }
  }

  lemma {:induction false} CountStops(engines: seq<Engine>, c: Call)
    ensures Count(Stops(engines), c) == if c.Stop? then Count(engines, c.engine) else 0
  {
    if engines != [] {
      CountStops(engines[1..], c);
      assert engines == [engines[0]] + engines[1..];
      assert Stops(engines) == [Stop(engines[0])] + Stops(engines[1..]);
    }
  }

  lemma {:induction false} CountReversed(engines: seq<Engine>, e: Engine)
    ensures Count(Reversed(engines), e) == Count(engines, e)
  {
    if engines != [] {
      CountReversed(engines[1..], e);
      CountConcat(Reversed(engines[1..]), [engines[0]], e);
      CountOne(engines[0], e);
      assert engines == [engines[0]] + engines[1..];
      assert Reversed(engines) == Reversed(engines[1..]) + [engines[0]];
    }
  }

  /** The first elements hold as many of one kind as all do, unless there is one behind them. */
  lemma CountFirst<T>(xs: seq<T>, k: nat, x: T)
    requires k <= |xs|
    ensures Count(xs[..k], x) <= Count(xs, x)
    ensures Count(xs[..k], x) < Count(xs, x) <==> x in xs[k..]
  {
    assert xs == xs[..k] + xs[k..];
    CountConcat(xs[..k], xs[k..], x);
    CountPositive(xs[k..], x);
  }
}
