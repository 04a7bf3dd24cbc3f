/** The lifecycle of one foreground connection: acquire in stages, release in one `finally`. */
module ConnectionService {
  import opened Plans
  import opened EngineStack

  /** How a call to an injected callable ends. */
  datatype Reply = Yes | No | Raises

  datatype MonitorReply = Ends | KeyboardInterrupt | MonitorRaises

  /** Everything the run meets outside. */
  datatype World = World(
    linux: bool, killSwitch: bool, autoProxy: bool, tracksProxy: bool,
    proxyWasEnabled: bool, // what `get_proxy_status` said before the start
    prepare: Reply, enable: Reply,
    engines: seq<Engine>, start: Engine -> StartReply, stopRaises: Engine -> bool,
    proxyDetails: Reply, setProxy: Reply, monitor: MonitorReply,
    cleanupProxyRaises: bool, clearProxyRaises: bool,
    disableRaises: bool, clearEndpointRaises: bool,
    emitRaises: nat -> bool) // the n-th event handed to the injected `emit`

  datatype Result = Stopped(interrupted: bool) | Failed(code: string) | Propagated

  /** The flags of `_start_foreground` that its `finally` looks at. */
  datatype Held = Held(prepared: bool, enabled: bool, engines: seq<Engine>, proxyChanged: bool)

  predicate WantsKillSwitch(w: World) { w.linux && w.killSwitch }

  predicate PassesKillSwitch(w: World) { WantsKillSwitch(w) ==> w.prepare == Yes && w.enable == Yes }

  predicate AllStarted(w: World) { StartedCount(w.engines, w.start) == |w.engines| }

  /** An engine start was interrupted. */
  predicate StartInterrupted(w: World)
  {
    var n := StartedCount(w.engines, w.start);
    n < |w.engines| && w.start(w.engines[n]) == Interrupts
  }

  /** The run gets as far as reporting its engines. */
  predicate Serves(w: World) { PassesKillSwitch(w) && AllStarted(w) && w.engines != [] }

  // ---------------------------------------------------------------- the `try` block

  /** The calls of the kill-switch stage: `enable` only behind a successful `prepare`. */
  function KillSwitchCalls(w: World): seq<Call>
  {
    if !WantsKillSwitch(w) then []
    else if w.prepare != Yes then [Prepare]
    else [Prepare, Enable]
  }

  /** The calls of the engine stage. */
  function StackCalls(w: World): seq<Call> { StackTrace(w.engines, w.start) }

  /** Report the engines, set the proxy, watch. */
  function ServePlan(w: World): Course
  {
    Then(Steps(Reports(|w.engines|)), Then(Steps(ProxyPlan(w)), Then(Steps([Report]), Steps(MonitorPlan(w)))))
  }

  function ProxyPlan(w: World): seq<Step>
  {
    if !w.autoProxy then []
    else match w.proxyDetails
      case Raises => [Fail]
      case Yes => [Attempt(SetProxy, w.setProxy == Raises), Report]
      case No => [Report]
  }

  function MonitorPlan(w: World): seq<Step>
  {
    [Attempt(Monitor, w.monitor == MonitorRaises)] + if w.monitor == KeyboardInterrupt then [Report] else []
  }

  /** The rest of the `try` block, when `n` events were handed out before. */
  function ServeRun(w: World, n: nat): Run { RunCourse(ServePlan(w), w.emitRaises, n) }

  /** The proxy was set, when `n` events were handed out before the engines were reported. */
  predicate SetsProxy(w: World, n: nat)
  {
    && w.autoProxy && w.proxyDetails == Yes && w.setProxy == Yes
    && RunPlan(Reports(|w.engines|), w.emitRaises, n).completed
  }

  /** All calls of the `try` block. */
  function TryCalls(w: World, n: nat): seq<Call>
  {
    KillSwitchCalls(w) +
    if !PassesKillSwitch(w) then []
    else StackCalls(w) + if Serves(w) then ServeRun(w, n).calls else []
  }

  /** The `try` block returns a failure, and hands out an event for it. */
  predicate ReportsFailure(w: World)
  {
    if !PassesKillSwitch(w) then w.prepare == No || (w.prepare == Yes && w.enable == No)
    else !Serves(w) && !StartInterrupted(w)
  }

  function FailureCode(w: World): string
  {
    if PassesKillSwitch(w) then "engine_start_failed"
    else if w.prepare != Yes then "kill_switch_unavailable"
    else "kill_switch_failed"
  }

  /** How many events were handed out when the `finally` begins. */
  function TryEmitted(w: World, n: nat): nat
  {
    if Serves(w) then ServeRun(w, n).emitted else if ReportsFailure(w) then n + 1 else n
  }

  /** What is held when the `finally` begins. */
  function HeldAfter(w: World, n: nat): Held
  {
    Held(
      WantsKillSwitch(w) && w.prepare == Yes,
      WantsKillSwitch(w) && w.prepare == Yes && w.enable == Yes,
      if Serves(w) then w.engines else [],
      Serves(w) && SetsProxy(w, n))
  }

  // ---------------------------------------------------------------- the `finally` block

  function StopPlan(w: World, engines: seq<Engine>): seq<Step>
  {
    seq(|engines|, i requires 0 <= i < |engines| => Release(Stop(engines[i]), w.stopRaises(engines[i])))
  }

  function EnginePlan(w: World, held: Held): seq<Step>
  {
    if held.engines == [] then [] else [Report] + StopPlan(w, held.engines)
  }

  /** The proxy call. `restore_proxy` needs a status recorded before the start, which exists
      only under ownership tracking, which takes the first branch. */
  function ProxyReleasePlan(w: World, held: Held): seq<Step>
  {
    if w.tracksProxy && w.autoProxy then [Release(CleanupProxy, w.cleanupProxyRaises)]
    else if held.proxyChanged && w.autoProxy then [Release(ClearProxy, w.clearProxyRaises)]
    else []
  }

  function DisablePlan(w: World, held: Held): seq<Step>
  {
    if held.enabled then [Release(Disable, w.disableRaises)] else []
  }

  function ClearPlan(w: World, held: Held): seq<Step>
  {
    if held.prepared then [Release(ClearEndpoint, w.clearEndpointRaises)] else []
  }

  function LastReport(held: Held): seq<Step> { if held.engines == [] then [] else [Report] }

  /** The kill switch, the endpoint, and the last report. */
  function KillSwitchPlan(w: World, held: Held): Course
  {
    Then(Steps(DisablePlan(w, held)), Then(Steps(ClearPlan(w, held)), Steps(LastReport(held))))
  }

  function BehindEngines(w: World, held: Held): Course
  {
    Then(Steps(ProxyReleasePlan(w, held)), KillSwitchPlan(w, held))
  }

  /** The releases in their order: engines, proxy, kill switch, endpoint. */
  function CleanupPlan(w: World, held: Held): Course
  {
    Then(Steps(EnginePlan(w, held)), BehindEngines(w, held))
  }

  /** The `finally` block of a run before which `n` events had been handed out. */
  function CleanupRun(w: World, n: nat): Run
  {
    RunCourse(CleanupPlan(w, HeldAfter(w, n)), w.emitRaises, TryEmitted(w, n))
  }

  /** All calls of a run, cut short or not. */
  function WholeRun(w: World, n: nat): seq<Call> { TryCalls(w, n) + CleanupRun(w, n).calls }

  // ---------------------------------------------------------------- the code

  class Session {
    const log: CallLog
    const w: World
    var emitted: nat

    constructor (w: World)
      ensures this.w == w && emitted == 0 && fresh(log) && log.calls == []
    {
      this.w, emitted := w, 0;
      log := new CallLog();
    }

    /** From `calls` and `n` on, exactly the steps of `course` were made that come before one that
        ended it. */
    ghost predicate Did(course: Course, calls: seq<Call>, n: nat, goesOn: bool)
      reads this, log
    {
      Made(course, w.emitRaises, calls, n, log.calls, emitted, goesOn)
    }

    /** `_event`: the injected `emit` may raise. */
    method Emit() returns (goesOn: bool)
      modifies this`emitted
      ensures goesOn == !w.emitRaises(old(emitted)) && emitted == old(emitted) + 1
      ensures Did(Steps([Report]), old(log.calls), old(emitted), goesOn)
    {
      OneStep(Report, w.emitRaises, emitted);
      goesOn := !w.emitRaises(emitted);
      emitted := emitted + 1;
    }

    /** `_failure` emits an event before it returns. */
    method Failure(code: string) returns (r: Result)
      modifies this`emitted
      ensures r == if w.emitRaises(old(emitted)) then Propagated else Failed(code)
      ensures emitted == old(emitted) + 1
    {
      var goesOn := Emit();
      r := if goesOn then Failed(code) else Propagated;
    }

    /** The kill-switch stage of the `try` block. */
    method KillSwitchStage() returns (prepared: bool, enabled: bool, done: bool, r: Result)
      modifies this`emitted, log
      ensures log.calls == old(log.calls) + KillSwitchCalls(w)
      ensures prepared == (WantsKillSwitch(w) && w.prepare == Yes)
      ensures enabled == (prepared && w.enable == Yes)
      ensures done <==> !PassesKillSwitch(w)
      ensures !done ==> emitted == old(emitted)
      ensures done ==>
        && emitted == old(emitted) + (if ReportsFailure(w) then 1 else 0)
        && r == if ReportsFailure(w) && !w.emitRaises(old(emitted)) then Failed(FailureCode(w)) else Propagated
    {
      prepared, enabled, done, r := false, false, false, Propagated;
      if !WantsKillSwitch(w) {
        return;
      }
      log.Note(Prepare);
      if w.prepare != Yes {
        done := true;
        if w.prepare == No {
          r := Failure("kill_switch_unavailable");
        }
        return;
      }
      prepared := true;
      log.Note(Enable);
      if w.enable != Yes {
        done := true;
        if w.enable == No {
          r := Failure("kill_switch_failed");
        }
        return;
      }
      enabled := true;
    }

    /** The engine stage. */
    method StackStage() returns (engines: seq<Engine>, done: bool, r: Result)
      requires PassesKillSwitch(w)
      modifies this`emitted, log
      ensures log.calls == old(log.calls) + StackCalls(w)
      ensures engines == if AllStarted(w) then w.engines else []
      ensures done <==> !Serves(w)
      ensures !done ==> emitted == old(emitted)
      ensures done ==>
        && emitted == old(emitted) + (if ReportsFailure(w) then 1 else 0)
        && r == if ReportsFailure(w) && !w.emitRaises(old(emitted)) then Failed(FailureCode(w)) else Propagated
    {
      r := Propagated;
      var stack := StartEnginesInOrder(log, w.engines, w.start, w.stopRaises);
      match stack {
        case Running(es) =>
          engines, done := es, es == [];
          if done {
            r := Failure("engine_start_failed");
          }
        case Interrupted => engines, done := [], true;
        case NoneRunning | Raised =>
          engines, done := [], true;
          r := Failure("engine_start_failed");
      }
    }

    /** The reports of the started engines. */
    method ReportEngines(engines: seq<Engine>) returns (goesOn: bool)
      modifies this`emitted, log
      ensures Did(Steps(Reports(|engines|)), old(log.calls), old(emitted), goesOn)
    {
      goesOn := true;
      for i := 0 to |engines|
        invariant goesOn && Did(Steps(Reports(i)), old(log.calls), old(emitted), true)
      {
        PlanInParts(Reports(i), [Report], w.emitRaises, old(emitted));
        assert Reports(i + 1) == Reports(i) + [Report];
        goesOn := Emit();
        if !goesOn {
          PlanInParts(Reports(i + 1), Reports(|engines| - i - 1), w.emitRaises, old(emitted));
          assert Reports(|engines|) == Reports(i + 1) + Reports(|engines| - i - 1);
          return;
        }
      }
    }

    /** The proxy branch of the `try` block. */
    method ServeProxy() returns (proxyChanged: bool, goesOn: bool)
      modifies this`emitted, log
      ensures Did(Steps(ProxyPlan(w)), old(log.calls), old(emitted), goesOn)
      ensures proxyChanged == (w.autoProxy && w.proxyDetails == Yes && w.setProxy == Yes)
    {
      proxyChanged, goesOn := false, true;
      if !w.autoProxy {
        return;
      }
      if w.proxyDetails == Raises {
        OneStep(Fail, w.emitRaises, emitted);
        return false, false;
      }
      if w.proxyDetails == Yes {
        var attempt := Attempt(SetProxy, w.setProxy == Raises);
        OneStep(attempt, w.emitRaises, emitted);
        PlanInParts([attempt], [Report], w.emitRaises, emitted);
        assert ProxyPlan(w) == [attempt] + [Report];
        log.Note(SetProxy);
        if w.setProxy == Raises {
          return false, false;
        }
        proxyChanged := w.setProxy == Yes;
      }
      goesOn := Emit();
    }

    /** The monitor, and the report of its interruption. */
    method Watch() returns (goesOn: bool)
      modifies this`emitted, log
      ensures Did(Steps(MonitorPlan(w)), old(log.calls), old(emitted), goesOn)
    {
      var attempt := Attempt(Monitor, w.monitor == MonitorRaises);
      OneStep(attempt, w.emitRaises, emitted);
      PlanInParts([attempt], [Report], w.emitRaises, emitted);
      assert [attempt] + [] == [attempt];
      log.Note(Monitor);
      goesOn := w.monitor != MonitorRaises;
      if w.monitor == KeyboardInterrupt {
        goesOn := Emit();
      }
    }

    /** The rest of the `try` block: report, set the proxy, watch. */
    method ServeStage() returns (proxyChanged: bool, goesOn: bool)
      modifies this`emitted, log
      ensures Did(ServePlan(w), old(log.calls), old(emitted), goesOn)
      ensures proxyChanged == SetsProxy(w, old(emitted))
    {
      ghost var c0, n0 := log.calls, emitted;
      ghost var first := Steps(Reports(|w.engines|));
      ghost var rest := Then(Steps(ProxyPlan(w)), Then(Steps([Report]), Steps(MonitorPlan(w))));
      proxyChanged := false;
      goesOn := ReportEngines(w.engines);
      ghost var c1, n1 := log.calls, emitted;
      if !goesOn {
        MadeFirst(first, rest, w.emitRaises, c0, n0, c1, n1);
        return;
      }
      proxyChanged, goesOn := ProxyAndMonitor();
      MadeBoth(first, rest, w.emitRaises, c0, n0, c1, n1, log.calls, emitted, goesOn);
    }

    method ProxyAndMonitor() returns (proxyChanged: bool, goesOn: bool)
      modifies this`emitted, log
      ensures Did(Then(Steps(ProxyPlan(w)), Then(Steps([Report]), Steps(MonitorPlan(w)))),
                  old(log.calls), old(emitted), goesOn)
      ensures proxyChanged == (w.autoProxy && w.proxyDetails == Yes && w.setProxy == Yes)
    {
      ghost var c0, n0 := log.calls, emitted;
      ghost var first, rest := Steps(ProxyPlan(w)), Then(Steps([Report]), Steps(MonitorPlan(w)));
      proxyChanged, goesOn := ServeProxy();
      ghost var c1, n1 := log.calls, emitted;
      if !goesOn {
        MadeFirst(first, rest, w.emitRaises, c0, n0, c1, n1);
        return;
      }
      goesOn := MonitorStage();
      MadeBoth(first, rest, w.emitRaises, c0, n0, c1, n1, log.calls, emitted, goesOn);
    }

    /** The report of the monitor, and the monitor. */
    method MonitorStage() returns (goesOn: bool)
      modifies this`emitted, log
      ensures Did(Then(Steps([Report]), Steps(MonitorPlan(w))), old(log.calls), old(emitted), goesOn)
    {
      ghost var c0, n0 := log.calls, emitted;
      goesOn := Emit();
      ghost var c1, n1 := log.calls, emitted;
      if !goesOn {
        MadeFirst(Steps([Report]), Steps(MonitorPlan(w)), w.emitRaises, c0, n0, c1, n1);
        return;
      }
      goesOn := Watch();
      MadeBoth(Steps([Report]), Steps(MonitorPlan(w)), w.emitRaises, c0, n0, c1, n1, log.calls, emitted, goesOn);
    }

    /** One release of the `finally`, with its error report. */
    method ReleaseOne(c: Call, raises: bool) returns (goesOn: bool)
      modifies this`emitted, log
      ensures Did(Steps([Release(c, raises)]), old(log.calls), old(emitted), goesOn)
    {
      OneStep(Release(c, raises), w.emitRaises, emitted);
      log.Note(c);
      goesOn := true;
      if raises {
        goesOn := Emit();
      }
    }

    method StopAll(engines: seq<Engine>) returns (goesOn: bool)
      modifies this`emitted, log
      ensures Did(Steps(StopPlan(w, engines)), old(log.calls), old(emitted), goesOn)
    {
      goesOn := true;
      for i := 0 to |engines|
        invariant goesOn && Did(Steps(StopPlan(w, engines[..i])), old(log.calls), old(emitted), true)
      {
        ghost var done, one := StopPlan(w, engines[..i]), [Release(Stop(engines[i]), w.stopRaises(engines[i]))];
        StopPlanParts(w, engines, i);
        PlanInParts(done, one, w.emitRaises, old(emitted));
        goesOn := ReleaseOne(Stop(engines[i]), w.stopRaises(engines[i]));
        if !goesOn {
          PlanInParts(done + one, StopPlan(w, engines)[i + 1..], w.emitRaises, old(emitted));
          return;
        }
      }
      assert engines[..|engines|] == engines;
    }

    /** The engine branch of the `finally`. */
    method ReleaseEngines(held: Held) returns (goesOn: bool)
      modifies this`emitted, log
      ensures Did(Steps(EnginePlan(w, held)), old(log.calls), old(emitted), goesOn)
    {
      goesOn := true;
      if held.engines != [] {
        PlanInParts([Report], StopPlan(w, held.engines), w.emitRaises, emitted);
        goesOn := Emit();
        if goesOn {
          goesOn := StopAll(held.engines);
        }
      }
    }

    /** The proxy branch. */
    method ReleaseProxy(held: Held) returns (goesOn: bool)
      modifies this`emitted, log
      ensures Did(Steps(ProxyReleasePlan(w, held)), old(log.calls), old(emitted), goesOn)
    {
      goesOn := true;
      if w.tracksProxy && w.autoProxy {
        goesOn := ReleaseOne(CleanupProxy, w.cleanupProxyRaises);
      } else if held.proxyChanged && w.autoProxy {
        if w.tracksProxy && w.autoProxy && w.proxyWasEnabled {
          assert false; // `restore_proxy` is unreachable
        } else {
          goesOn := ReleaseOne(ClearProxy, w.clearProxyRaises);
        }
      }
    }

    /** The kill-switch branches, and the last report. */
    method ReleaseKillSwitch(held: Held) returns (goesOn: bool)
      modifies this`emitted, log
      ensures Did(KillSwitchPlan(w, held), old(log.calls), old(emitted), goesOn)
    {
      ghost var c0, n0 := log.calls, emitted;
      ghost var first, rest := Steps(DisablePlan(w, held)), Then(Steps(ClearPlan(w, held)), Steps(LastReport(held)));
      goesOn := true;
      if held.enabled {
        goesOn := ReleaseOne(Disable, w.disableRaises);
      }
      ghost var c1, n1 := log.calls, emitted;
      if !goesOn {
        MadeFirst(first, rest, w.emitRaises, c0, n0, c1, n1);
        return;
      }
      goesOn := ReleaseEndpoint(held);
      MadeBoth(first, rest, w.emitRaises, c0, n0, c1, n1, log.calls, emitted, goesOn);
    }

    method ReleaseEndpoint(held: Held) returns (goesOn: bool)
      modifies this`emitted, log
      ensures Did(Then(Steps(ClearPlan(w, held)), Steps(LastReport(held))), old(log.calls), old(emitted), goesOn)
    {
      ghost var c0, n0 := log.calls, emitted;
      goesOn := true;
      if held.prepared {
        goesOn := ReleaseOne(ClearEndpoint, w.clearEndpointRaises);
      }
      ghost var c1, n1 := log.calls, emitted;
      if !goesOn {
        MadeFirst(Steps(ClearPlan(w, held)), Steps(LastReport(held)), w.emitRaises, c0, n0, c1, n1);
        return;
      }
      if held.engines != [] {
        goesOn := Emit();
      }
      MadeBoth(Steps(ClearPlan(w, held)), Steps(LastReport(held)), w.emitRaises, c0, n0, c1, n1,
               log.calls, emitted, goesOn);
    }

    /** The releases behind those of the engines. */
    method ReleaseRest(held: Held) returns (goesOn: bool)
      modifies this`emitted, log
      ensures Did(BehindEngines(w, held), old(log.calls), old(emitted), goesOn)
    {
      ghost var c0, n0 := log.calls, emitted;
      ghost var first, rest := Steps(ProxyReleasePlan(w, held)), KillSwitchPlan(w, held);
      goesOn := ReleaseProxy(held);
      ghost var c1, n1 := log.calls, emitted;
      if !goesOn {
        MadeFirst(first, rest, w.emitRaises, c0, n0, c1, n1);
        return;
      }
      goesOn := ReleaseKillSwitch(held);
      MadeBoth(first, rest, w.emitRaises, c0, n0, c1, n1, log.calls, emitted, goesOn);
    }

    /** The `finally` block: exactly the releases of its plan, up to the first report on which
        the injected `emit` raises. */
    method Cleanup(held: Held) returns (goesOn: bool)
      modifies this`emitted, log
      ensures Did(CleanupPlan(w, held), old(log.calls), old(emitted), goesOn)
    {
      ghost var c0, n0 := log.calls, emitted;
      ghost var first := Steps(EnginePlan(w, held));
      ghost var rest := BehindEngines(w, held);
      goesOn := ReleaseEngines(held);
      ghost var c1, n1 := log.calls, emitted;
      if !goesOn {
        MadeFirst(first, rest, w.emitRaises, c0, n0, c1, n1);
        return;
      }
      goesOn := ReleaseRest(held);
      MadeBoth(first, rest, w.emitRaises, c0, n0, c1, n1, log.calls, emitted, goesOn);
    }

    /** The `try` block of `_start_foreground`. */
    method TryBlock() returns (r: Result, held: Held)
      modifies this`emitted, log
      ensures log.calls == old(log.calls) + TryCalls(w, old(emitted))
      ensures held == HeldAfter(w, old(emitted)) && emitted == TryEmitted(w, old(emitted))
      ensures r.Stopped? <==> Serves(w) && ServeRun(w, old(emitted)).completed
      ensures r.Failed? <==> ReportsFailure(w) && !w.emitRaises(old(emitted))
      ensures r.Failed? ==> r.code == FailureCode(w)
      ensures r.Stopped? ==> r.interrupted == (w.monitor == KeyboardInterrupt)
    {
      ghost var calls := log.calls;
      var prepared, enabled, done, result := KillSwitchStage();
      r, held := result, Held(prepared, enabled, [], false);
      if done {
        assert calls + KillSwitchCalls(w) == calls + (KillSwitchCalls(w) + []);
        return;
      }
      var engines, failed, result2 := StackStage();
      r, held := result2, held.(engines := engines);
      if failed {
        Associates(calls, KillSwitchCalls(w), StackCalls(w), []);
        return;
      }
      Associates(calls, KillSwitchCalls(w), StackCalls(w), ServeRun(w, old(emitted)).calls);
      var proxyChanged, goesOn := ServeStage();
      held := held.(proxyChanged := proxyChanged);
      r := if goesOn then Stopped(w.monitor == KeyboardInterrupt) else Propagated;
    }

    /** `_start_foreground` behind its elevation branch. */
    method StartForeground() returns (r: Result)
      modifies this`emitted, log
      ensures log.calls == old(log.calls) + WholeRun(w, old(emitted))
      ensures r.Stopped? <==>
        Serves(w) && ServeRun(w, old(emitted)).completed && CleanupRun(w, old(emitted)).completed
      ensures r.Failed? <==>
        ReportsFailure(w) && !w.emitRaises(old(emitted)) && CleanupRun(w, old(emitted)).completed
      ensures r.Failed? ==> r.code == FailureCode(w)
      ensures r.Stopped? ==> r.interrupted == (w.monitor == KeyboardInterrupt)
    {
      ghost var calls := log.calls;
      var held;
      r, held := TryBlock();
      Associates(calls, TryCalls(w, old(emitted)), CleanupRun(w, old(emitted)).calls, []);
      var goesOn := Cleanup(held);
      if !goesOn {
        r := Propagated;
      }
    }
  }

  lemma StopPlanParts(w: World, engines: seq<Engine>, i: nat)
    requires i < |engines|
    ensures var one := [Release(Stop(engines[i]), w.stopRaises(engines[i]))];
      && StopPlan(w, engines[..i + 1]) == StopPlan(w, engines[..i]) + one
      && StopPlan(w, engines) == StopPlan(w, engines[..i]) + one + StopPlan(w, engines)[i + 1..]
  {
  }

  lemma Associates(a: seq<Call>, b: seq<Call>, c: seq<Call>, d: seq<Call>)
    ensures a + b + c + d == a + (b + (c + d))
    ensures a + b + c == a + (b + c)
    ensures d == [] ==> c + d == c
  {
  }

  // ---------------------------------------------------------------- what the `finally` makes

  /** How many of `engines` raise when they are stopped. */
  function RaisingStops(w: World, engines: seq<Engine>): nat
  {
    if engines == [] then 0
    else RaisingStops(w, engines[..|engines| - 1]) + if w.stopRaises(engines[|engines| - 1]) then 1 else 0
  }

  /** `emit` raises on no report of a stop among the first `k`, when `m` events were handed out
      before them. */
  ghost predicate StopsHeard(w: World, engines: seq<Engine>, m: nat, k: nat)
    requires k <= |engines|
  {
    forall j :: 0 <= j < k && w.stopRaises(engines[j]) ==> !w.emitRaises(m + RaisingStops(w, engines[..j]))
  }

  lemma {:induction false} StopPlanMeaning(w: World, engines: seq<Engine>)
    ensures Persistent(StopPlan(w, engines)) && Spoken(StopPlan(w, engines)) == RaisingStops(w, engines)
    ensures CallsOf(StopPlan(w, engines)) == Stops(engines)
  {
    if engines != [] {
      var k := |engines| - 1;
      StopPlanMeaning(w, engines[..k]);
      assert StopPlan(w, engines)[..k] == StopPlan(w, engines[..k]);
      assert Stops(engines) == Stops(engines[..k]) + [Stop(engines[k])];
    }
  }

  lemma StopHeard(w: World, engines: seq<Engine>, m: nat, j: nat)
    requires j < |engines|
    ensures Heard(StopPlan(w, engines), w.emitRaises, m, j) <==>
      (w.stopRaises(engines[j]) ==> !w.emitRaises(m + RaisingStops(w, engines[..j])))
  {
    assert StopPlan(w, engines)[..j] == StopPlan(w, engines[..j]);
    StopPlanMeaning(w, engines[..j]);
  }

  lemma StopPlanHeard(w: World, engines: seq<Engine>, m: nat, k: nat)
    requires k <= |engines|
    ensures Reached(StopPlan(w, engines), w.emitRaises, m, k) <==> StopsHeard(w, engines, m, k)
  {
    forall j | 0 <= j < k
      ensures Heard(StopPlan(w, engines), w.emitRaises, m, j) <==>
        (w.stopRaises(engines[j]) ==> !w.emitRaises(m + RaisingStops(w, engines[..j])))
    {
      StopHeard(w, engines, m, j);
    }
  }

  /** How many of `engines` the `finally` stops, when `m` events were handed out before it. */
  function StoppedAt(w: World, engines: seq<Engine>, m: nat): (k: nat)
    ensures k <= |engines|
  {
    if engines == [] || w.emitRaises(m) then 0
    else StepsMade(StopPlan(w, engines), w.emitRaises, m + 1)
  }

  /** How many of its engines a run stops in its `finally`. */
  function EnginesStopped(w: World, n: nat): (k: nat)
    ensures k <= |w.engines|
  {
    if Serves(w) then StoppedAt(w, w.engines, TryEmitted(w, n)) else 0
  }

  lemma StoppedAtIff(w: World, engines: seq<Engine>, m: nat, i: nat)
    requires i < |engines|
    ensures i < StoppedAt(w, engines, m) <==> !w.emitRaises(m) && StopsHeard(w, engines, m + 1, i)
  {
    StopPlanMeaning(w, engines);
    StopPlanHeard(w, engines, m + 1, i);
    StepsMadeIff(StopPlan(w, engines), w.emitRaises, m + 1, i);
  }

  /** A running engine is stopped if and only if `emit` raised neither on the event that announces
      the end nor on the report of an earlier stop. */
  lemma EnginesStoppedIff(w: World, n: nat, i: nat)
    requires Serves(w) && i < |w.engines|
    ensures i < EnginesStopped(w, n) <==>
      !w.emitRaises(TryEmitted(w, n)) && StopsHeard(w, w.engines, TryEmitted(w, n) + 1, i)
  {
    StoppedAtIff(w, w.engines, TryEmitted(w, n), i);
  }

  /** The engine branch is left at its end. */
  ghost predicate EnginesHeard(w: World, engines: seq<Engine>, m: nat)
  {
    engines != [] ==> !w.emitRaises(m) && StopsHeard(w, engines, m + 1, |engines|)
  }

  function EngineEvents(w: World, engines: seq<Engine>): nat
  {
    if engines == [] then 0 else 1 + RaisingStops(w, engines)
  }

  lemma StopPlanCount(w: World, engines: seq<Engine>, m: nat, c: Call)
    ensures Count(RunPlan(StopPlan(w, engines), w.emitRaises, m).calls, c) ==
      if c.Stop? then Count(engines[..StepsMade(StopPlan(w, engines), w.emitRaises, m)], c.engine) else 0
  {
    var plan := StopPlan(w, engines);
    var k := StepsMade(plan, w.emitRaises, m);
    StopPlanMeaning(w, engines);
    StepsMadeCalls(plan, w.emitRaises, m);
    assert plan[..k] == StopPlan(w, engines[..k]);
    StopPlanMeaning(w, engines[..k]);
    CountStops(engines[..k], c);
  }

  lemma EngineBranch(w: World, held: Held, m: nat, c: Call)
    ensures Part(Steps(EnginePlan(w, held)), w.emitRaises, m, c, EnginesHeard(w, held.engines, m),
                 m + EngineEvents(w, held.engines), StopCount(w, held, m, c))
  {
    if held.engines != [] {
      var plan := StopPlan(w, held.engines);
      OneStep(Report, w.emitRaises, m);
      PlanInParts([Report], plan, w.emitRaises, m);
      StopPlanMeaning(w, held.engines);
      StopPlanHeard(w, held.engines, m + 1, |held.engines|);
      CompletesIff(plan, w.emitRaises, m + 1);
      StopPlanCount(w, held.engines, m + 1, c);
    }
  }

  /** The proxy release is made and raises. */
  predicate ProxyReleaseRaises(w: World, held: Held)
  {
    if w.tracksProxy && w.autoProxy then w.cleanupProxyRaises
    else held.proxyChanged && w.autoProxy && w.clearProxyRaises
  }

  function ProxyReleaseCall(w: World): Call { if w.tracksProxy then CleanupProxy else ClearProxy }

  lemma ReleaseBranch(call: Call, raises: bool, made: bool, emitRaises: nat -> bool, m: nat, c: Call)
    ensures Part(Steps(if made then [Release(call, raises)] else []), emitRaises, m, c,
                 made && raises ==> !emitRaises(m), if made && raises then m + 1 else m,
                 if made && c == call then 1 else 0)
  {
    OneStep(Release(call, raises), emitRaises, m);
    CountOne(call, c);
  }

  /** The `finally` has a proxy to release. */
  predicate ReleasesProxy(w: World, held: Held) { w.autoProxy && (w.tracksProxy || held.proxyChanged) }

  function ProxyCount(w: World, held: Held, c: Call): nat
  {
    if ReleasesProxy(w, held) && c == ProxyReleaseCall(w) then 1 else 0
  }

  lemma ProxyBranch(w: World, held: Held, m: nat, c: Call)
    ensures Part(Steps(ProxyReleasePlan(w, held)), w.emitRaises, m, c,
                 ProxyHeard(w, held, m), m + ProxyEvents(w, held), ProxyCount(w, held, c))
  {
    if w.tracksProxy && w.autoProxy {
      ReleaseBranch(CleanupProxy, w.cleanupProxyRaises, true, w.emitRaises, m, c);
    } else {
      ReleaseBranch(ClearProxy, w.clearProxyRaises, held.proxyChanged && w.autoProxy, w.emitRaises, m, c);
    }
  }

  lemma LastBranch(held: Held, emitRaises: nat -> bool, m: nat, c: Call)
    ensures Part(Steps(LastReport(held)), emitRaises, m, c, held.engines != [] ==> !emitRaises(m),
                 if held.engines != [] then m + 1 else m, 0)
  {
    OneStep(Report, emitRaises, m);
  }

  function ProxyEvents(w: World, held: Held): nat { if ProxyReleaseRaises(w, held) then 1 else 0 }

  /** How many events the `finally` hands out before the kill switch. */
  function EventsBefore(w: World, held: Held): nat
  {
    EngineEvents(w, held.engines) + ProxyEvents(w, held)
  }

  /** `emit` raises on none of them, when `m` were handed out before. */
  ghost predicate HeardBefore(w: World, held: Held, m: nat)
  {
    EnginesHeard(w, held.engines, m) && ProxyHeard(w, held, m + EngineEvents(w, held.engines))
  }

  /** Nor on the report of the kill switch. */
  ghost predicate HeardThroughDisable(w: World, held: Held, m: nat)
  {
    HeardBefore(w, held, m) && DisableHeard(w, held, m + EventsBefore(w, held))
  }

  /** `emit` raises on no report of the `finally` before the kill switch. */
  ghost predicate DisableReached(w: World, n: nat)
  {
    HeardBefore(w, HeldAfter(w, n), TryEmitted(w, n))
  }

  /** Nor on that of the kill switch. */
  ghost predicate ClearReached(w: World, n: nat)
  {
    HeardThroughDisable(w, HeldAfter(w, n), TryEmitted(w, n))
  }

  function ClearCount(held: Held, c: Call): nat { if held.prepared && c == ClearEndpoint then 1 else 0 }

  function DisableCount(held: Held, c: Call): nat { if held.enabled && c == Disable then 1 else 0 }

  /** `emit` raises on the report of the kill switch, when `m` events were handed out before. */
  predicate DisableHeard(w: World, held: Held, m: nat) { held.enabled && w.disableRaises ==> !w.emitRaises(m) }

  lemma ClearBranch(w: World, held: Held, m: nat, c: Call) returns (completed: bool, last: nat)
    ensures Part(Then(Steps(ClearPlan(w, held)), Steps(LastReport(held))), w.emitRaises, m, c,
                 completed, last, ClearCount(held, c))
  {
    var cleared := held.prepared && w.clearEndpointRaises ==> !w.emitRaises(m);
    var m1 := if held.prepared && w.clearEndpointRaises then m + 1 else m;
    var done := held.engines != [] ==> !w.emitRaises(m1);
    completed := cleared && done;
    last := if held.engines != [] then m1 + 1 else m1;
    ReleaseBranch(ClearEndpoint, w.clearEndpointRaises, held.prepared, w.emitRaises, m, c);
    LastBranch(held, w.emitRaises, m1, c);
    PartThenPart(Steps(ClearPlan(w, held)), Steps(LastReport(held)), w.emitRaises, m, c,
                 cleared, m1, ClearCount(held, c), done, last, 0, completed, ClearCount(held, c));
  }

  /** How often the branches behind the engines and the proxy make a call. */
  function KillSwitchCount(w: World, held: Held, m: nat, c: Call): nat
  {
    DisableCount(held, c) + if DisableHeard(w, held, m) then ClearCount(held, c) else 0
  }

  lemma KillSwitchBranch(w: World, held: Held, m: nat, c: Call) returns (completed: bool, last: nat)
    ensures Part(KillSwitchPlan(w, held), w.emitRaises, m, c, completed, last, KillSwitchCount(w, held, m, c))
  {
    var m1 := if held.enabled && w.disableRaises then m + 1 else m;
    ReleaseBranch(Disable, w.disableRaises, held.enabled, w.emitRaises, m, c);
    var cleared, end := ClearBranch(w, held, m1, c);
    completed, last := DisableHeard(w, held, m) && cleared, end;
    PartThenPart(Steps(DisablePlan(w, held)), Then(Steps(ClearPlan(w, held)), Steps(LastReport(held))),
                 w.emitRaises, m, c, DisableHeard(w, held, m), m1, DisableCount(held, c),
                 cleared, last, ClearCount(held, c), completed, KillSwitchCount(w, held, m, c));
  }

  /** How often the branches behind the engines make a call. */
  function CountBehindEngines(w: World, held: Held, m: nat, c: Call): nat
  {
    ProxyCount(w, held, c) +
    if ProxyHeard(w, held, m) then KillSwitchCount(w, held, m + ProxyEvents(w, held), c) else 0
  }

  predicate ProxyHeard(w: World, held: Held, m: nat) { ProxyReleaseRaises(w, held) ==> !w.emitRaises(m) }

  /** The two parts of what stands behind the engines. */
  lemma BehindInParts(w: World, held: Held, m: nat, c: Call, released: bool, last: nat, count: nat)
    requires Part(Steps(ProxyReleasePlan(w, held)), w.emitRaises, m, c,
                  ProxyHeard(w, held, m), m + ProxyEvents(w, held), ProxyCount(w, held, c))
    requires Part(KillSwitchPlan(w, held), w.emitRaises, m + ProxyEvents(w, held), c, released, last, count)
    ensures Part(BehindEngines(w, held), w.emitRaises, m, c, ProxyHeard(w, held, m) && released, last,
                 ProxyCount(w, held, c) + if ProxyHeard(w, held, m) then count else 0)
  {
    var proxy, rest := Steps(ProxyReleasePlan(w, held)), KillSwitchPlan(w, held);
    PartThenPart(proxy, rest, w.emitRaises, m, c,
                 ProxyHeard(w, held, m), m + ProxyEvents(w, held), ProxyCount(w, held, c), released, last, count,
                 ProxyHeard(w, held, m) && released,
                 ProxyCount(w, held, c) + if ProxyHeard(w, held, m) then count else 0);
  }

  lemma ProxyThenKillSwitch(w: World, held: Held, m: nat, c: Call) returns (completed: bool, last: nat)
    ensures Part(BehindEngines(w, held), w.emitRaises, m, c, completed, last, CountBehindEngines(w, held, m, c))
  {
    var m1 := m + ProxyEvents(w, held);
    ProxyBranch(w, held, m, c);
    var released, end := KillSwitchBranch(w, held, m1, c);
    BehindInParts(w, held, m, c, released, end, KillSwitchCount(w, held, m1, c));
    completed, last := ProxyHeard(w, held, m) && released, end;
  }

  function StopCount(w: World, held: Held, m: nat, c: Call): nat
  {
    if c.Stop? then Count(held.engines[..StoppedAt(w, held.engines, m)], c.engine) else 0
  }

  /** How often the `finally` makes a call. */
  ghost function FinallyCount(w: World, held: Held, m: nat, c: Call): nat
  {
    StopCount(w, held, m, c) +
    if EnginesHeard(w, held.engines, m)
    then CountBehindEngines(w, held, m + EngineEvents(w, held.engines), c) else 0
  }

  lemma FinallyBranch(w: World, held: Held, m: nat, c: Call) returns (completed: bool, last: nat)
    ensures Part(CleanupPlan(w, held), w.emitRaises, m, c, completed, last,
                 FinallyCount(w, held, m, c))
  {
    var m1 := m + EngineEvents(w, held.engines);
    EngineBranch(w, held, m, c);
    var released, end := ProxyThenKillSwitch(w, held, m1, c);
    completed, last := EnginesHeard(w, held.engines, m) && released, end;
    PartThenPart(Steps(EnginePlan(w, held)), BehindEngines(w, held), w.emitRaises, m, c,
                 EnginesHeard(w, held.engines, m), m1, StopCount(w, held, m, c),
                 released, last, CountBehindEngines(w, held, m1, c), completed, FinallyCount(w, held, m, c));
  }

  /** `emit` raises on no report of the `finally` before the proxy. */
  ghost predicate ProxyReached(w: World, n: nat)
  {
    EnginesHeard(w, HeldAfter(w, n).engines, TryEmitted(w, n))
  }

  /** How often the `finally` makes each call. */
  lemma CleanupCount(w: World, n: nat, c: Call)
    ensures Count(CleanupRun(w, n).calls, c) ==
      match c
      case Stop(e) => Count(w.engines[..EnginesStopped(w, n)], e)
      case Disable => if HeldAfter(w, n).enabled && DisableReached(w, n) then 1 else 0
      case ClearEndpoint => if HeldAfter(w, n).prepared && ClearReached(w, n) then 1 else 0
      case _ => if ProxyReached(w, n) then ProxyCount(w, HeldAfter(w, n), c) else 0
  {
    var held, m := HeldAfter(w, n), TryEmitted(w, n);
    var _, _ := FinallyBranch(w, held, m, c);
    FinallyCases(w, held, m, c);
    StoppedEngines(w, n);
  }

  lemma FinallyCases(w: World, held: Held, m: nat, c: Call)
    ensures FinallyCount(w, held, m, c) ==
      match c
      case Stop(e) => Count(held.engines[..StoppedAt(w, held.engines, m)], e)
      case Disable => if held.enabled && HeardBefore(w, held, m) then 1 else 0
      case ClearEndpoint => if held.prepared && HeardThroughDisable(w, held, m) then 1 else 0
      case _ => if EnginesHeard(w, held.engines, m) then ProxyCount(w, held, c) else 0
  {
  }

  lemma StoppedEngines(w: World, n: nat)
    ensures var held := HeldAfter(w, n);
      held.engines[..StoppedAt(w, held.engines, TryEmitted(w, n))] == w.engines[..EnginesStopped(w, n)]
  {
  }

  // ---------------------------------------------------------------- what the `try` block makes

  lemma CountKillSwitchCalls(w: World, c: Call)
    ensures Count(KillSwitchCalls(w), c)
         == (if WantsKillSwitch(w) && c == Prepare then 1 else 0)
          + (if WantsKillSwitch(w) && w.prepare == Yes && c == Enable then 1 else 0)
  {
    CountOne(Prepare, c);
    CountOne(Enable, c);
    CountConcat([Prepare], [Enable], c);
    assert [Prepare] + [Enable] == [Prepare, Enable];
  }

  /** The stops the engine stage makes on its own: those of the engines started before one
      that refuses or fails. */
  lemma CountStack(w: World, c: Call)
    requires !c.Start?
    ensures Count(StackCalls(w), c) ==
      if c.Stop? && !AllStarted(w) && !StartInterrupted(w)
      then Count(w.engines[..StartedCount(w.engines, w.start)], c.engine) else 0
  {
    var n := StartedCount(w.engines, w.start);
    if n == |w.engines| {
      CountStarts(w.engines, c);
    } else {
      var undone := if w.start(w.engines[n]) == Interrupts then [] else Stops(Reversed(w.engines[..n]));
      CountStarts(w.engines[..n + 1], c);
      CountStops(Reversed(w.engines[..n]), c);
      if c.Stop? {
        CountReversed(w.engines[..n], c.engine);
      }
      CountConcat(Starts(w.engines[..n + 1]), undone, c);
    }
  }

  /** Behind the engines only the proxy is set and the monitor called. */
  lemma ServeCalls(w: World, n: nat)
    ensures forall c <- ServeRun(w, n).calls :: c in {SetProxy, Monitor}
  {
    var n1 := RunPlan(Reports(|w.engines|), w.emitRaises, n).emitted;
    var n2 := RunPlan(ProxyPlan(w), w.emitRaises, n1).emitted;
    var n3 := RunPlan([Report], w.emitRaises, n2).emitted;
    ServiceCalls(Reports(|w.engines|), w.emitRaises, n);
    ServiceCalls(ProxyPlan(w), w.emitRaises, n1);
    ServiceCalls([Report], w.emitRaises, n2);
    ServiceCalls(MonitorPlan(w), w.emitRaises, n3);
    var tail := Then(Steps([Report]), Steps(MonitorPlan(w)));
    ThenRun(Steps([Report]), Steps(MonitorPlan(w)), w.emitRaises, n2);
    ThenRun(Steps(ProxyPlan(w)), tail, w.emitRaises, n1);
    ThenRun(Steps(Reports(|w.engines|)), Then(Steps(ProxyPlan(w)), tail), w.emitRaises, n);
  }

  lemma ServiceCalls(plan: seq<Step>, emitRaises: nat -> bool, n: nat)
    requires forall step <- plan :: step.Report? || step.Fail? || (step.Attempt? && step.call in {SetProxy, Monitor})
    ensures forall c <- RunPlan(plan, emitRaises, n).calls :: c in {SetProxy, Monitor}
  {
    forall c | c in RunPlan(plan, emitRaises, n).calls
      ensures c in {SetProxy, Monitor}
    {
      CallsFromSteps(plan, emitRaises, n, c);
    }
  }

  lemma CountTry(w: World, n: nat, c: Call)
    requires !c.Start? && c !in {SetProxy, Monitor}
    ensures Count(TryCalls(w, n), c)
         == Count(KillSwitchCalls(w), c) + if PassesKillSwitch(w) then Count(StackCalls(w), c) else 0
  {
    var served := if Serves(w) then ServeRun(w, n).calls else [];
    ServeCalls(w, n);
    CountPositive(served, c);
    CountConcat(StackCalls(w), served, c);
    CountConcat(KillSwitchCalls(w), if !PassesKillSwitch(w) then [] else StackCalls(w) + served, c);
  }

  /** How often a run makes a call other than the starts, the monitor and the setting of the proxy. */
  lemma CountRun(w: World, n: nat, c: Call)
    requires !c.Start? && c !in {SetProxy, Monitor}
    ensures Count(WholeRun(w, n), c) ==
      Count(KillSwitchCalls(w), c) + (if PassesKillSwitch(w) then Count(StackCalls(w), c) else 0)
      + match c
        case Stop(e) => Count(w.engines[..EnginesStopped(w, n)], e)
        case Disable => if HeldAfter(w, n).enabled && DisableReached(w, n) then 1 else 0
        case ClearEndpoint => if HeldAfter(w, n).prepared && ClearReached(w, n) then 1 else 0
        case _ => if ProxyReached(w, n) then ProxyCount(w, HeldAfter(w, n), c) else 0
  {
    CountTry(w, n, c);
    CleanupCount(w, n, c);
    CountConcat(TryCalls(w, n), CleanupRun(w, n).calls, c);
  }

  // ---------------------------------------------------------------- main results

  /** What a run does with the kill switch, whatever cuts its `finally` short. Enable is called only
      behind a successful prepare. A successful enable has exactly one disable if and only if
      `emit` raised on no report of the `finally` before it, and none otherwise; likewise a
      successful prepare and the clearing of the endpoint. `restore_proxy` is never called. */
  lemma KillSwitchIsBalanced(w: World, n: nat, c: Call)
    requires c in {Prepare, Enable, Disable, ClearEndpoint, RestoreProxy}
    ensures Count(WholeRun(w, n), c) ==
      match c
      case Prepare => if w.linux && w.killSwitch then 1 else 0
      case Enable => if w.linux && w.killSwitch && w.prepare == Yes then 1 else 0
      case Disable =>
        if w.linux && w.killSwitch && w.prepare == Yes && w.enable == Yes && DisableReached(w, n) then 1 else 0
      case ClearEndpoint => if w.linux && w.killSwitch && w.prepare == Yes && ClearReached(w, n) then 1 else 0
      case _ => 0
  {
    KillSwitchCallsOfRun(w, n, c);
    CountKillSwitchCalls(w, c);
  }

  lemma KillSwitchCallsOfRun(w: World, n: nat, c: Call)
    requires c in {Prepare, Enable, Disable, ClearEndpoint, RestoreProxy}
    ensures Count(WholeRun(w, n), c) == Count(KillSwitchCalls(w), c) +
      match c
      case Disable => if HeldAfter(w, n).enabled && DisableReached(w, n) then 1 else 0
      case ClearEndpoint => if HeldAfter(w, n).prepared && ClearReached(w, n) then 1 else 0
      case _ => 0
  {
    CountRun(w, n, c);
    CountStack(w, c);
  }

  /** No step of the plan makes the call. */
  ghost predicate Omits(plan: seq<Step>, c: Call)
  {
    forall step <- plan :: (step.Release? || step.Attempt?) ==> step.call != c
  }

  lemma OtherCalls(plan: seq<Step>, emitRaises: nat -> bool, n: nat, c: Call)
    requires Omits(plan, c)
    ensures Count(RunPlan(plan, emitRaises, n).calls, c) == 0
  {
    var calls := RunPlan(plan, emitRaises, n).calls;
    CountPositive(calls, c);
    if c in calls {
      CallsFromSteps(plan, emitRaises, n, c);
    }
  }

  lemma ProxyPlanCount(w: World, n: nat)
    ensures Count(RunPlan(ProxyPlan(w), w.emitRaises, n).calls, SetProxy)
         == if w.autoProxy && w.proxyDetails == Yes then 1 else 0
  {
    if w.autoProxy && w.proxyDetails == Yes {
      var attempt := Attempt(SetProxy, w.setProxy == Raises);
      OneStep(attempt, w.emitRaises, n);
      PlanInParts([attempt], [Report], w.emitRaises, n);
      OneStep(Report, w.emitRaises, n);
      assert ProxyPlan(w) == [attempt] + [Report];
      assert [SetProxy] + [] == [SetProxy];
      CountOne(SetProxy, SetProxy);
    } else {
      OtherCalls(ProxyPlan(w), w.emitRaises, n, SetProxy);
    }
  }

  lemma CountSetProxy(w: World, n: nat)
    ensures Count(ServeRun(w, n).calls, SetProxy) ==
      if w.autoProxy && w.proxyDetails == Yes && RunPlan(Reports(|w.engines|), w.emitRaises, n).completed then 1 else 0
  {
    var reports := RunPlan(Reports(|w.engines|), w.emitRaises, n);
    var proxy := RunPlan(ProxyPlan(w), w.emitRaises, reports.emitted);
    var tail := Then(Steps([Report]), Steps(MonitorPlan(w)));
    var watched := RunPlan([Report], w.emitRaises, proxy.emitted);
    OtherCalls(Reports(|w.engines|), w.emitRaises, n, SetProxy);
    ProxyPlanCount(w, reports.emitted);
    OtherCalls([Report], w.emitRaises, proxy.emitted, SetProxy);
    OtherCalls(MonitorPlan(w), w.emitRaises, watched.emitted, SetProxy);
    ThenRun(Steps([Report]), Steps(MonitorPlan(w)), w.emitRaises, proxy.emitted);
    var last := RunCourse(tail, w.emitRaises, proxy.emitted);
    assert Count(last.calls, SetProxy) == 0;
    ThenRun(Steps(ProxyPlan(w)), tail, w.emitRaises, reports.emitted);
    ThenRun(Steps(Reports(|w.engines|)), Then(Steps(ProxyPlan(w)), tail), w.emitRaises, n);
  }

  /** What a run does with the system proxy, whatever cuts its `finally` short. It is set at most once.
      With ownership tracking, the cleanup is called once if and only if `emit` raised on no
      report of the `finally` before it, whether the proxy was set or not; without it, a proxy
      that was set is cleared once under the same condition, and any other never. */
  lemma ProxyIsReleased(w: World, n: nat)
    ensures Count(WholeRun(w, n), SetProxy) ==
      if Serves(w) && w.autoProxy && w.proxyDetails == Yes
        && RunPlan(Reports(|w.engines|), w.emitRaises, n).completed then 1 else 0
    ensures Count(WholeRun(w, n), CleanupProxy) ==
      if w.autoProxy && w.tracksProxy && ProxyReached(w, n) then 1 else 0
    ensures Count(WholeRun(w, n), ClearProxy) ==
      if !w.tracksProxy && Serves(w) && SetsProxy(w, n) && ProxyReached(w, n) then 1 else 0
  {
    SetProxyOfRun(w, n);
    ProxyReleasesOfRun(w, n, CleanupProxy);
    ProxyReleasesOfRun(w, n, ClearProxy);
    ProxyToRelease(w, n);
  }

  lemma ProxyToRelease(w: World, n: nat)
    ensures ProxyCount(w, HeldAfter(w, n), CleanupProxy) == if w.autoProxy && w.tracksProxy then 1 else 0
    ensures ProxyCount(w, HeldAfter(w, n), ClearProxy) ==
      if !w.tracksProxy && Serves(w) && SetsProxy(w, n) then 1 else 0
  {
  }

  lemma ProxyReleasesOfRun(w: World, n: nat, c: Call)
    requires c in {CleanupProxy, ClearProxy}
    ensures Count(WholeRun(w, n), c) == if ProxyReached(w, n) then ProxyCount(w, HeldAfter(w, n), c) else 0
  {
    CountRun(w, n, c);
    CountKillSwitchCalls(w, c);
    CountStack(w, c);
  }

  lemma SetProxyOfRun(w: World, n: nat)
    ensures Count(WholeRun(w, n), SetProxy) == if Serves(w) then Count(ServeRun(w, n).calls, SetProxy) else 0
    ensures Count(ServeRun(w, n).calls, SetProxy) ==
      if w.autoProxy && w.proxyDetails == Yes && RunPlan(Reports(|w.engines|), w.emitRaises, n).completed then 1 else 0
  {
    var served := if Serves(w) then ServeRun(w, n).calls else [];
    CountKillSwitchCalls(w, SetProxy);
    CountStack(w, SetProxy);
    CountSetProxy(w, n);
    CleanupCount(w, n, SetProxy);
    CountConcat(TryCalls(w, n), CleanupRun(w, n).calls, SetProxy);
    CountConcat(StackCalls(w), served, SetProxy);
    CountConcat(KillSwitchCalls(w), if !PassesKillSwitch(w) then [] else StackCalls(w) + served, SetProxy);
  }

  /** How often a run stops an engine: never, if it got no engine running or a start was interrupted;
      each engine that was started, once, if a later one refused or failed; otherwise those that
      the `finally` gets to. */
  lemma StopsOfRun(w: World, n: nat, e: Engine)
    ensures Count(WholeRun(w, n), Stop(e)) ==
      if !PassesKillSwitch(w) || StartInterrupted(w) then 0
      else if !AllStarted(w) then Count(w.engines[..StartedCount(w.engines, w.start)], e)
      else Count(w.engines[..EnginesStopped(w, n)], e)
  {
    CountRun(w, n, Stop(e));
    CountKillSwitchCalls(w, Stop(e));
    CountStack(w, Stop(e));
    assert !Serves(w) ==> w.engines[..EnginesStopped(w, n)] == [];
  }

  /** No engine is stopped more often than it was started. One that was started keeps running if
      and only if a later start was interrupted, or the `finally` was cut short before it. */
  lemma LeakIff(w: World, n: nat, e: Engine)
    requires PassesKillSwitch(w)
    ensures var started := w.engines[..StartedCount(w.engines, w.start)];
      && Count(WholeRun(w, n), Stop(e)) <= Count(started, e)
      && (Count(WholeRun(w, n), Stop(e)) < Count(started, e) <==>
            && e in started
            && (StartInterrupted(w) || (AllStarted(w) && e in w.engines[EnginesStopped(w, n)..])))
  {
    StopsOfRun(w, n, e);
    LeakOf(w, EnginesStopped(w, n), Count(WholeRun(w, n), Stop(e)), e);
  }

  lemma LeakOf(w: World, k: nat, stops: nat, e: Engine)
    requires PassesKillSwitch(w) && k <= |w.engines|
    requires stops ==
      if StartInterrupted(w) then 0
      else if !AllStarted(w) then Count(w.engines[..StartedCount(w.engines, w.start)], e)
      else Count(w.engines[..k], e)
    ensures var started := w.engines[..StartedCount(w.engines, w.start)];
      && stops <= Count(started, e)
      && (stops < Count(started, e) <==>
            e in started && (StartInterrupted(w) || (AllStarted(w) && e in w.engines[k..])))
  {
    var started := w.engines[..StartedCount(w.engines, w.start)];
    CountPositive(started, e);
    if AllStarted(w) {
      assert started == w.engines;
      CountFirst(w.engines, k, e);
      assert w.engines == w.engines[..k] + w.engines[k..];
    }
  }

  /** Without an interrupted start and with an `emit` that raises on no event of the `finally`, each
      engine is stopped exactly as often as it was started. */
  lemma QuietRunStopsAll(w: World, n: nat, e: Engine)
    requires PassesKillSwitch(w) && !StartInterrupted(w)
    requires forall i :: i >= TryEmitted(w, n) ==> !w.emitRaises(i)
    ensures Count(WholeRun(w, n), Stop(e)) == Count(w.engines[..StartedCount(w.engines, w.start)], e)
  {
    LeakIff(w, n, e);
    if AllStarted(w) && w.engines != [] {
      EnginesStoppedIff(w, n, |w.engines| - 1);
    }
  }

  /** The engines of a run are stopped in the order of their start, up to where the `finally` gets to. */
  lemma StopsInOrderOfStart(w: World, n: nat, i: nat)
    requires Serves(w) && i < |w.engines| && i < |CleanupRun(w, n).calls|
    ensures CleanupRun(w, n).calls[i] == Stop(w.engines[i])
  {
    CleanupMakesTeardown(w, n);
    assert Teardown(w, HeldAfter(w, n))[i] == Stops(w.engines)[i];
  }

  /** `emit` raises on none of `k` events from the `n`-th on. */
  ghost predicate Silent(emitRaises: nat -> bool, n: nat, k: nat) { forall i :: n <= i < n + k ==> !emitRaises(i) }

  lemma {:induction false} ReportsComplete(emitRaises: nat -> bool, n: nat, k: nat)
    ensures var r := RunPlan(Reports(k), emitRaises, n);
      (r.completed <==> Silent(emitRaises, n, k)) && (r.completed ==> r.emitted == n + k)
  {
    if k > 0 {
      ReportsComplete(emitRaises, n, k - 1);
      PlanInParts(Reports(k - 1), [Report], emitRaises, n);
      assert Reports(k) == Reports(k - 1) + [Report];
      OneStep(Report, emitRaises, n + k - 1);
    }
  }

  /** Neither the lookup nor the setting of the proxy raises, where they are made. */
  predicate ProxyGoesWell(w: World)
  {
    w.autoProxy ==> w.proxyDetails != Raises && (w.proxyDetails == Yes ==> w.setProxy != Raises)
  }

  /** The number of events handed out for the proxy. */
  function ProxySetEvents(w: World): nat { if w.autoProxy then 1 else 0 }

  lemma ProxyPlanCompletes(w: World, n: nat)
    ensures var r := RunPlan(ProxyPlan(w), w.emitRaises, n);
      && (r.completed <==> ProxyGoesWell(w) && Silent(w.emitRaises, n, ProxySetEvents(w)))
      && (r.completed ==> r.emitted == n + ProxySetEvents(w))
  {
    if w.autoProxy {
      OneStep(Fail, w.emitRaises, n);
      OneStep(Report, w.emitRaises, n);
      var attempt := Attempt(SetProxy, w.setProxy == Raises);
      OneStep(attempt, w.emitRaises, n);
      PlanInParts([attempt], [Report], w.emitRaises, n);
      assert [attempt] + [Report] == [attempt, Report];
    }
  }

  lemma MonitorPlanCount(w: World, n: nat)
    ensures Count(RunPlan(MonitorPlan(w), w.emitRaises, n).calls, Monitor) == 1
  {
    var attempt := Attempt(Monitor, w.monitor == MonitorRaises);
    OneStep(attempt, w.emitRaises, n);
    PlanInParts([attempt], if w.monitor == KeyboardInterrupt then [Report] else [], w.emitRaises, n);
    OneStep(Report, w.emitRaises, n);
    CountOne(Monitor, Monitor);
  }

  /** From the event that announces the monitor on. */
  lemma MonitorInTail(w: World, n: nat)
    ensures var r := RunCourse(Then(Steps([Report]), Steps(MonitorPlan(w))), w.emitRaises, n);
      Count(r.calls, Monitor) == if Silent(w.emitRaises, n, 1) then 1 else 0
  {
    OneStep(Report, w.emitRaises, n);
    MonitorPlanCount(w, n + 1);
    ThenRun(Steps([Report]), Steps(MonitorPlan(w)), w.emitRaises, n);
  }

  /** A course behind a plan that does not make the call. */
  lemma CountBehind(plan: seq<Step>, rest: Course, emitRaises: nat -> bool, n: nat, c: Call)
    requires Omits(plan, c)
    ensures var first := RunPlan(plan, emitRaises, n);
      Count(RunCourse(Then(Steps(plan), rest), emitRaises, n).calls, c) ==
        if first.completed then Count(RunCourse(rest, emitRaises, first.emitted).calls, c) else 0
  {
    var first := RunPlan(plan, emitRaises, n);
    OtherCalls(plan, emitRaises, n, c);
    ThenRun(Steps(plan), rest, emitRaises, n);
    if first.completed {
      CountConcat(first.calls, RunCourse(rest, emitRaises, first.emitted).calls, c);
    }
  }

  /** Two plans that do not make the call, and a course behind them. */
  lemma CountInThird(a: seq<Step>, b: seq<Step>, tail: Course, emitRaises: nat -> bool, n: nat, c: Call,
                     done: bool, m: nat, done2: bool, m2: nat, count: nat)
    requires Omits(a, c) && Omits(b, c)
    requires RunPlan(a, emitRaises, n).completed == done && (done ==> RunPlan(a, emitRaises, n).emitted == m)
    requires RunPlan(b, emitRaises, m).completed == done2 && (done2 ==> RunPlan(b, emitRaises, m).emitted == m2)
    requires Count(RunCourse(tail, emitRaises, m2).calls, c) == count
    ensures Count(RunCourse(Then(Steps(a), Then(Steps(b), tail)), emitRaises, n).calls, c) ==
      if done && done2 then count else 0
  {
    CountBehind(b, tail, emitRaises, m, c);
    CountBehind(a, Then(Steps(b), tail), emitRaises, n, c);
  }

  lemma SilentParts(emitRaises: nat -> bool, n: nat, k: nat, more: nat)
    ensures Silent(emitRaises, n, k + more + 1) <==>
      Silent(emitRaises, n, k) && Silent(emitRaises, n + k, more) && Silent(emitRaises, n + k + more, 1)
  {
  }

  lemma NoMonitorBefore(w: World)
    ensures Omits(Reports(|w.engines|), Monitor) && Omits(ProxyPlan(w), Monitor)
  {
  }

  /** Two plans and a call behind them: it is made if no event up to it is one that `emit` raises on. */
  lemma CallInThird(a: seq<Step>, b: seq<Step>, tail: Course, emitRaises: nat -> bool, n: nat, c: Call,
                    k: nat, more: nat, good: bool, first: bool, second: bool, third: bool)
    requires Omits(a, c) && Omits(b, c)
    requires RunPlan(a, emitRaises, n).completed == first && (first ==> RunPlan(a, emitRaises, n).emitted == n + k)
    requires var r := RunPlan(b, emitRaises, n + k);
      r.completed == (good && second) && (r.completed ==> r.emitted == n + k + more)
    requires Count(RunCourse(tail, emitRaises, n + k + more).calls, c) == if third then 1 else 0
    ensures Count(RunCourse(Then(Steps(a), Then(Steps(b), tail)), emitRaises, n).calls, c) ==
      if good && first && second && third then 1 else 0
  {
    CountInThird(a, b, tail, emitRaises, n, c, first, n + k, good && second, n + k + more, if third then 1 else 0);
  }

  lemma MonitorInServe(w: World, n: nat)
    ensures Count(ServeRun(w, n).calls, Monitor) ==
      if ProxyGoesWell(w) && Silent(w.emitRaises, n, |w.engines| + ProxySetEvents(w) + 1) then 1 else 0
  {
    var k, more := |w.engines|, ProxySetEvents(w);
    ReportsComplete(w.emitRaises, n, k);
    ProxyPlanCompletes(w, n + k);
    MonitorInTail(w, n + k + more);
    NoMonitorBefore(w);
    CallInThird(Reports(k), ProxyPlan(w), Then(Steps([Report]), Steps(MonitorPlan(w))), w.emitRaises, n, Monitor,
                k, more, ProxyGoesWell(w), Silent(w.emitRaises, n, k), Silent(w.emitRaises, n + k, more),
                Silent(w.emitRaises, n + k + more, 1));
    SilentParts(w.emitRaises, n, k, more);
  }

  /** The monitor is called once if and only if the engines run, the proxy was looked up and set without
      an exception, and `emit` raised on none of the events up to the one that announces it. */
  lemma MonitorIsCalledIff(w: World, n: nat)
    ensures Count(WholeRun(w, n), Monitor) ==
      if Serves(w) && ProxyGoesWell(w) && Silent(w.emitRaises, n, |w.engines| + ProxySetEvents(w) + 1)
      then 1 else 0
  {
    var served := if Serves(w) then ServeRun(w, n).calls else [];
    CountKillSwitchCalls(w, Monitor);
    CountStack(w, Monitor);
    MonitorInServe(w, n);
    CleanupCount(w, n, Monitor);
    CountConcat(TryCalls(w, n), CleanupRun(w, n).calls, Monitor);
    CountConcat(StackCalls(w), served, Monitor);
    CountConcat(KillSwitchCalls(w), if !PassesKillSwitch(w) then [] else StackCalls(w) + served, Monitor);
  }

  // ---------------------------------------------------------------- cases that go wrong

  function QuietWorld(engines: seq<Engine>, start: Engine -> StartReply, emitRaises: nat -> bool): World
  {
    World(true, true, false, false, false, Yes, Yes, engines, start, _ => false, No, No, Ends,
          false, false, false, false, emitRaises)
  }

  /** An `emit` that raises on the event that announces the end: the kill switch stays on, and the
      engine keeps running, without any interrupt. */
  lemma KillSwitchCanStayOn(e: Engine)
    ensures var w := QuietWorld([e], _ => Started, i => i == 2);
      && Count(WholeRun(w, 0), Enable) == 1 && Count(WholeRun(w, 0), Disable) == 0
      && Count(WholeRun(w, 0), Stop(e)) == 0 && !StartInterrupted(w)
  {
    var w := QuietWorld([e], _ => Started, i => i == 2);
    ServeOfOne(w);
    KillSwitchIsBalanced(w, 0, Enable);
    KillSwitchIsBalanced(w, 0, Disable);
    StopsOfRun(w, 0, e);
  }

  lemma ServeOfOne(w: World)
    requires |w.engines| == 1 && !w.autoProxy && w.monitor == Ends && !w.emitRaises(0) && !w.emitRaises(1)
    ensures ServeRun(w, 0).emitted == 2
  {
    assert Reports(1) == [Report] && ProxyPlan(w) == [];
    OneStep(Report, w.emitRaises, 0);
    OneStep(Report, w.emitRaises, 1);
    OneStep(Attempt(Monitor, false), w.emitRaises, 2);
    assert MonitorPlan(w) == [Attempt(Monitor, false)];
    var tail := Then(Steps([Report]), Steps(MonitorPlan(w)));
    ThenRun(Steps([Report]), Steps(MonitorPlan(w)), w.emitRaises, 1);
    ThenRun(Steps(ProxyPlan(w)), tail, w.emitRaises, 1);
    ThenRun(Steps(Reports(1)), Then(Steps(ProxyPlan(w)), tail), w.emitRaises, 0);
  }

  /** An interrupt while the second of two engines starts: the first keeps running. */
  lemma InterruptedStartLeaks(a: Engine, b: Engine, emitRaises: nat -> bool, n: nat)
    requires a != b
    ensures var w := QuietWorld([a, b], x => if x == a then Started else Interrupts, emitRaises);
      StartInterrupted(w) && Start(a) in WholeRun(w, n) && Count(WholeRun(w, n), Stop(a)) == 0
  {
    var w := QuietWorld([a, b], x => if x == a then Started else Interrupts, emitRaises);
    assert [a, b][1..] == [b];
    assert StartedCount(w.engines, w.start) == 1;
    assert StackCalls(w)[0] == Start(a);
    StopsOfRun(w, n, a);
  }

  // ---------------------------------------------------------------- order

  /** The phase of a run that a call belongs to. */
  function Phase(c: Call): nat
  {
    match c
    case Prepare => 0
    case Enable => 1
    case Disable => 3
    case ClearEndpoint => 4
    case _ => 2
  }

  /** The place of a release in the `finally`. */
  function Place(c: Call): nat
  {
    match c
    case CleanupProxy | RestoreProxy | ClearProxy => 1
    case Disable => 2
    case ClearEndpoint => 3
    case _ => 0
  }

  ghost predicate Ordered(calls: seq<Call>, rank: Call -> nat)
  {
    forall i, j :: 0 <= i < j < |calls| ==> rank(calls[i]) <= rank(calls[j])
  }

  /** In order, with all ranks from `low` to `high`. */
  ghost predicate Ranked(calls: seq<Call>, rank: Call -> nat, low: nat, high: nat)
  {
    Ordered(calls, rank) && forall c <- calls :: low <= rank(c) <= high
  }

  lemma RankedConcat(a: seq<Call>, b: seq<Call>, rank: Call -> nat, low: nat, middle: nat, high: nat)
    requires Ranked(a, rank, low, middle) && Ranked(b, rank, middle, high) && low <= middle <= high
    ensures Ranked(a + b, rank, low, high)
  {
    forall i, j | 0 <= i < j < |a + b|
      ensures rank((a + b)[i]) <= rank((a + b)[j])
    {
      if i < |a| <= j {
        assert a[i] in a && b[j - |a|] in b;
      }
    }
  }

  lemma RankedPrefix(a: seq<Call>, b: seq<Call>, rank: Call -> nat, low: nat, high: nat)
    requires a <= b && Ranked(b, rank, low, high)
    ensures Ranked(a, rank, low, high)
  {
    assert forall i :: 0 <= i < |a| ==> a[i] == b[i];
  }

  lemma StopsRanked(engines: seq<Engine>)
    ensures Ranked(Stops(engines), Phase, 2, 2) && Ranked(Stops(engines), Place, 0, 0)
  {
  }

  lemma StartsRanked(engines: seq<Engine>)
    ensures Ranked(Starts(engines), Phase, 2, 2)
  {
  }

  /** All releases of a `finally` that is not cut short. */
  function Teardown(w: World, held: Held): seq<Call>
  {
    Stops(held.engines) + (ProxyCalls(w, held) + KillSwitchReleases(held))
  }

  function ProxyCalls(w: World, held: Held): seq<Call>
  {
    if ReleasesProxy(w, held) then [ProxyReleaseCall(w)] else []
  }

  function KillSwitchReleases(held: Held): seq<Call>
  {
    (if held.enabled then [Disable] else []) + (if held.prepared then [ClearEndpoint] else [])
  }

  lemma ProxyCallsRanked(w: World, held: Held)
    ensures Ranked(ProxyCalls(w, held), Phase, 2, 2) && Ranked(ProxyCalls(w, held), Place, 1, 1)
  {
  }

  lemma KillSwitchReleasesRanked(held: Held)
    ensures Ranked(KillSwitchReleases(held), Phase, 2, 4) && Ranked(KillSwitchReleases(held), Place, 1, 3)
  {
  }

  lemma TeardownRanked(w: World, held: Held)
    ensures Ranked(Teardown(w, held), Place, 0, 3) && Ranked(Teardown(w, held), Phase, 2, 4)
  {
    var stops, proxy, rest := Stops(held.engines), ProxyCalls(w, held), KillSwitchReleases(held);
    StopsRanked(held.engines);
    ProxyCallsRanked(w, held);
    KillSwitchReleasesRanked(held);
    RankedConcat(proxy, rest, Phase, 2, 2, 4);
    RankedConcat(stops, proxy + rest, Phase, 2, 2, 4);
    RankedConcat(proxy, rest, Place, 1, 1, 3);
    assert Ranked(stops, Place, 0, 1);
    RankedConcat(stops, proxy + rest, Place, 0, 1, 3);
  }

  lemma SingleCalls(step: Step)
    ensures CallsOf([step]) == if step.Release? || step.Attempt? then [step.call] else []
  {
    assert [step][..0] == [];
  }

  lemma EnginePlanCalls(w: World, held: Held)
    ensures Persistent(EnginePlan(w, held)) && CallsOf(EnginePlan(w, held)) == Stops(held.engines)
  {
    if held.engines != [] {
      StopPlanMeaning(w, held.engines);
      SingleCalls(Report);
      CallsOfConcat([Report], StopPlan(w, held.engines));
    }
  }

  lemma ProxyPlanCalls(w: World, held: Held)
    ensures Persistent(ProxyReleasePlan(w, held)) && CallsOf(ProxyReleasePlan(w, held)) == ProxyCalls(w, held)
  {
    SingleCalls(Release(CleanupProxy, w.cleanupProxyRaises));
    SingleCalls(Release(ClearProxy, w.clearProxyRaises));
  }

  lemma KillSwitchPlanCalls(w: World, held: Held)
    ensures PersistentCourse(KillSwitchPlan(w, held))
    ensures CourseCalls(KillSwitchPlan(w, held)) == KillSwitchReleases(held)
  {
    SingleCalls(Release(Disable, w.disableRaises));
    SingleCalls(Release(ClearEndpoint, w.clearEndpointRaises));
    SingleCalls(Report);
    assert CallsOf(DisablePlan(w, held)) == if held.enabled then [Disable] else [];
    assert CallsOf(ClearPlan(w, held)) == if held.prepared then [ClearEndpoint] else [];
    assert CallsOf(LastReport(held)) == [];
    ThenCalls(Steps(ClearPlan(w, held)), Steps(LastReport(held)));
    ThenCalls(Steps(DisablePlan(w, held)), Then(Steps(ClearPlan(w, held)), Steps(LastReport(held))));
  }

  /** The plan of the `finally` releases the engines, the proxy, the kill switch and the endpoint;
      when it completes it makes exactly these calls, and cut short the first of them. */
  lemma CleanupMakesTeardown(w: World, n: nat)
    ensures CleanupRun(w, n).calls <= Teardown(w, HeldAfter(w, n))
    ensures CleanupRun(w, n).completed ==> CleanupRun(w, n).calls == Teardown(w, HeldAfter(w, n))
  {
    var held := HeldAfter(w, n);
    EnginePlanCalls(w, held);
    ProxyPlanCalls(w, held);
    KillSwitchPlanCalls(w, held);
    ThenCalls(Steps(ProxyReleasePlan(w, held)), KillSwitchPlan(w, held));
    ThenCalls(Steps(EnginePlan(w, held)), BehindEngines(w, held));
    CourseCallsAreFirst(CleanupPlan(w, held), w.emitRaises, TryEmitted(w, n));
  }

  /** The releases of every `finally` come in this order: engines, proxy, kill switch, endpoint. */
  lemma TeardownOrder(w: World, n: nat)
    ensures Ordered(CleanupRun(w, n).calls, Place)
    ensures Ranked(CleanupRun(w, n).calls, Phase, 2, 4)
  {
    CleanupMakesTeardown(w, n);
    TeardownRanked(w, HeldAfter(w, n));
    RankedPrefix(CleanupRun(w, n).calls, Teardown(w, HeldAfter(w, n)), Phase, 2, 4);
    RankedPrefix(CleanupRun(w, n).calls, Teardown(w, HeldAfter(w, n)), Place, 0, 3);
  }

  lemma KillSwitchCallsRanked(w: World)
    ensures Ranked(KillSwitchCalls(w), Phase, 0, 2)
    ensures WantsKillSwitch(w) && PassesKillSwitch(w) ==> KillSwitchCalls(w) == [Prepare, Enable]
  {
  }

  lemma StackCallsRanked(w: World)
    ensures Ranked(StackCalls(w), Phase, 2, 2)
  {
    var n := StartedCount(w.engines, w.start);
    StartsRanked(w.engines);
    if n < |w.engines| {
      var starts, stops := Starts(w.engines[..n + 1]), Stops(Reversed(w.engines[..n]));
      StartsRanked(w.engines[..n + 1]);
      StopsRanked(Reversed(w.engines[..n]));
      RankedConcat(starts, stops, Phase, 2, 2, 2);
      assert starts + [] == starts;
    }
  }

  lemma MiddleRanked(calls: seq<Call>)
    requires forall c <- calls :: c in {SetProxy, Monitor}
    ensures Ranked(calls, Phase, 2, 2)
  {
    assert forall i :: 0 <= i < |calls| ==> calls[i] in calls;
  }

  lemma TryRanked(w: World, n: nat)
    ensures Ranked(TryCalls(w, n), Phase, 0, 2)
  {
    var served := if Serves(w) then ServeRun(w, n).calls else [];
    ServeCalls(w, n);
    MiddleRanked(served);
    StackCallsRanked(w);
    RankedConcat(StackCalls(w), served, Phase, 2, 2, 2);
    KillSwitchCallsRanked(w);
    RankedConcat(KillSwitchCalls(w), if !PassesKillSwitch(w) then [] else StackCalls(w) + served, Phase, 0, 2, 2);
  }

  lemma RunIsOrdered(w: World, n: nat)
    ensures Ordered(WholeRun(w, n), Phase)
  {
    TryRanked(w, n);
    TeardownOrder(w, n);
    RankedConcat(TryCalls(w, n), CleanupRun(w, n).calls, Phase, 0, 2, 4);
  }

  lemma StartNeedsKillSwitch(w: World, n: nat, e: Engine)
    requires WantsKillSwitch(w) && Start(e) in WholeRun(w, n)
    ensures PassesKillSwitch(w) && [Prepare, Enable] <= WholeRun(w, n)
  {
    CleanupCount(w, n, Start(e));
    CountPositive(CleanupRun(w, n).calls, Start(e));
    KillSwitchCallsRanked(w);
    assert Start(e) in TryCalls(w, n);
  }

  /** In every run, also in one whose `finally` is cut short: if a kill switch is wanted,
      engines start, run and stop only while it is on. It was enabled with success before
      the first start, and behind its release only the clearing of the endpoint follows. */
  lemma EnginesRunBehindKillSwitch(w: World, n: nat, i: nat)
    requires WantsKillSwitch(w) && i < |WholeRun(w, n)| && WholeRun(w, n)[i].Start?
    ensures w.prepare == Yes && w.enable == Yes
    ensures i >= 2 && WholeRun(w, n)[..2] == [Prepare, Enable]
    ensures forall j, k :: 0 <= j < k < |WholeRun(w, n)| && WholeRun(w, n)[j] == Disable ==>
      WholeRun(w, n)[k] in {Disable, ClearEndpoint}
  {
    StartNeedsKillSwitch(w, n, WholeRun(w, n)[i].engine);
    RunIsOrdered(w, n);
    Positions(WholeRun(w, n), i);
  }

  lemma Positions(run: seq<Call>, i: nat)
    requires [Prepare, Enable] <= run && Ordered(run, Phase)
    requires i < |run| && run[i].Start?
    ensures i >= 2 && run[..2] == [Prepare, Enable]
    ensures forall j, k :: 0 <= j < k < |run| && run[j] == Disable ==> run[k] in {Disable, ClearEndpoint}
  {
    assert run[0] == Prepare && run[1] == Enable;
  }
}
