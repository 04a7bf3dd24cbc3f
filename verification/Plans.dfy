/** A stretch of code that makes calls and hands out events, and that an exception can cut short. */
module Plans {
  import opened EngineStack

  datatype Step =
    | Report                            // hand an event to `emit`; an exception of it ends the stretch
    | Release(call: Call, raises: bool) // an exception of the call is caught, and reported
    | Attempt(call: Call, raises: bool) // an exception of the call ends the stretch
    | Fail                              // an exception

  /** The calls made, the number of events handed out in all, and whether the end was reached. */
  datatype Run = Run(calls: seq<Call>, emitted: nat, completed: bool)

  /** One step; `emitRaises` tells on which events `emit` raises, `n` were handed out before. */
  function RunStep(step: Step, emitRaises: nat -> bool, n: nat): Run
  {
    match step
    case Report => Run([], n + 1, !emitRaises(n))
    case Release(c, raises) => if raises then Run([c], n + 1, !emitRaises(n)) else Run([c], n, true)
    case Attempt(c, raises) => Run([c], n, !raises)
    case Fail => Run([], n, false)
  }

  function RunPlan(plan: seq<Step>, emitRaises: nat -> bool, n: nat): Run
  {
    if plan == [] then Run([], n, true)
    else
      var first := RunStep(plan[0], emitRaises, n);
      if !first.completed then first
      else Follow(first.calls, RunPlan(plan[1..], emitRaises, first.emitted))
  }

  function Follow(calls: seq<Call>, r: Run): Run { Run(calls + r.calls, r.emitted, r.completed) }

  function Reports(k: nat): seq<Step> { seq(k, _ => Report) }

  lemma OneStep(step: Step, emitRaises: nat -> bool, n: nat)
    ensures RunPlan([step], emitRaises, n) == RunStep(step, emitRaises, n)
  {
    assert [step][1..] == [];
  }

  /** A plan in two parts: the second is reached if and only if the first completes. */
  lemma {:induction false} PlanInParts(a: seq<Step>, b: seq<Step>, emitRaises: nat -> bool, n: nat)
    ensures var first := RunPlan(a, emitRaises, n);
      RunPlan(a + b, emitRaises, n) ==
        if first.completed then Follow(first.calls, RunPlan(b, emitRaises, first.emitted)) else first
  {
    if a == [] {
      assert a + b == b;
    } else {
      assert (a + b)[1..] == a[1..] + b;
      var step := RunStep(a[0], emitRaises, n);
      if step.completed {
        PlanInParts(a[1..], b, emitRaises, step.emitted);
        var front := RunPlan(a[1..], emitRaises, step.emitted);
        var back := RunPlan(b, emitRaises, front.emitted);
        assert step.calls + (front.calls + back.calls) == (step.calls + front.calls) + back.calls;
      }
    }
  }

  lemma Joined(a: seq<Call>, b: seq<Call>, c: seq<Call>)
    ensures a + (b + c) == a + b + c
  {
  }

  // ---------------------------------------------------------------- which steps are made

  predicate Speaks(step: Step) { step.Report? || (step.Release? && step.raises) }

  /** How many events a plan hands out when nothing cuts it short. */
  function Spoken(plan: seq<Step>): nat
  {
    if plan == [] then 0 else Spoken(plan[..|plan| - 1]) + if Speaks(plan[|plan| - 1]) then 1 else 0
  }

  /** Only an exception of `emit` can end it. */
  ghost predicate Persistent(plan: seq<Step>) { forall step <- plan :: step.Report? || step.Release? }

  function CallsOf(plan: seq<Step>): seq<Call>
  {
    if plan == [] then []
    else
      var last := plan[|plan| - 1];
      CallsOf(plan[..|plan| - 1]) + if last.Release? || last.Attempt? then [last.call] else []
  }

  /** The event of step `j` is one on which `emit` does not raise, if it has one. */
  predicate Heard(plan: seq<Step>, emitRaises: nat -> bool, n: nat, j: nat)
    requires j < |plan|
  {
    Speaks(plan[j]) ==> !emitRaises(n + Spoken(plan[..j]))
  }

  /** `emit` raises on none of the events of the steps before step `j`. */
  ghost predicate Reached(plan: seq<Step>, emitRaises: nat -> bool, n: nat, j: nat)
    requires j <= |plan|
  {
    forall i :: 0 <= i < j ==> Heard(plan, emitRaises, n, i)
  }

  lemma ReachedInFront(plan: seq<Step>, emitRaises: nat -> bool, n: nat, m: nat, j: nat)
    requires j <= m <= |plan|
    ensures Reached(plan, emitRaises, n, j) <==> Reached(plan[..m], emitRaises, n, j)
  {
    forall i | 0 <= i < j
      ensures Heard(plan, emitRaises, n, i) <==> Heard(plan[..m], emitRaises, n, i)
    {
      assert plan[..m][..i] == plan[..i];
    }
  }

  /** A persistent plan completes if and only if `emit` raises on none of its events, and then it
      made all its calls. */
  lemma {:induction false} CompletesIff(plan: seq<Step>, emitRaises: nat -> bool, n: nat)
    requires Persistent(plan)
    ensures var r := RunPlan(plan, emitRaises, n);
      && (r.completed <==> Reached(plan, emitRaises, n, |plan|))
      && (r.completed ==> r.emitted == n + Spoken(plan) && r.calls == CallsOf(plan))
  {
    if plan != [] {
      var k := |plan| - 1;
      var front, step := plan[..k], plan[k];
      PersistentFront(plan);
      CompletesIff(front, emitRaises, n);
      RunLast(plan, emitRaises, n);
      ReachedSnoc(plan, emitRaises, n);
      LastStep(step, emitRaises, n + Spoken(front));
    }
  }

  lemma PersistentFront(plan: seq<Step>)
    requires Persistent(plan) && plan != []
    ensures Persistent(plan[..|plan| - 1])
    ensures plan[|plan| - 1].Report? || plan[|plan| - 1].Release?
  {
    assert plan[|plan| - 1] in plan && forall s <- plan[..|plan| - 1] :: s in plan;
  }

  lemma RunLast(plan: seq<Step>, emitRaises: nat -> bool, n: nat)
    requires plan != []
    ensures var first := RunPlan(plan[..|plan| - 1], emitRaises, n);
      RunPlan(plan, emitRaises, n) ==
        if first.completed then Follow(first.calls, RunStep(plan[|plan| - 1], emitRaises, first.emitted)) else first
  {
    var front, step := plan[..|plan| - 1], plan[|plan| - 1];
    assert plan == front + [step];
    PlanInParts(front, [step], emitRaises, n);
    OneStep(step, emitRaises, RunPlan(front, emitRaises, n).emitted);
  }

  lemma ReachedSnoc(plan: seq<Step>, emitRaises: nat -> bool, n: nat)
    requires plan != []
    ensures var k := |plan| - 1;
      Reached(plan, emitRaises, n, |plan|) <==>
        Reached(plan[..k], emitRaises, n, k) && (Speaks(plan[k]) ==> !emitRaises(n + Spoken(plan[..k])))
  {
    var k := |plan| - 1;
    ReachedInFront(plan, emitRaises, n, k, k);
    assert Reached(plan, emitRaises, n, |plan|) <==>
      Reached(plan, emitRaises, n, k) && Heard(plan, emitRaises, n, k);
  }

  lemma LastStep(step: Step, emitRaises: nat -> bool, n: nat)
    requires step.Report? || step.Release?
    ensures var r := RunStep(step, emitRaises, n);
      && (r.completed <==> (Speaks(step) ==> !emitRaises(n)))
      && r.emitted == n + (if Speaks(step) then 1 else 0)
      && r.calls == if step.Release? then [step.call] else []
  {
  }

  /** How many steps are made. */
  function StepsMade(plan: seq<Step>, emitRaises: nat -> bool, n: nat): (k: nat)
    ensures k <= |plan|
  {
    if plan == [] then 0
    else
      var k := StepsMade(plan[..|plan| - 1], emitRaises, n);
      if RunPlan(plan[..|plan| - 1], emitRaises, n).completed then |plan| else k
  }

  /** Exactly the calls of the first steps are made. */
  lemma {:induction false} StepsMadeCalls(plan: seq<Step>, emitRaises: nat -> bool, n: nat)
    requires Persistent(plan)
    ensures RunPlan(plan, emitRaises, n).calls == CallsOf(plan[..StepsMade(plan, emitRaises, n)])
  {
    if plan != [] {
      var m := |plan| - 1;
      var front, step := plan[..m], plan[m];
      assert plan == front + [step] && forall s <- front :: s in plan;
      StepsMadeCalls(front, emitRaises, n);
      PlanInParts(front, [step], emitRaises, n);
      if RunPlan(front, emitRaises, n).completed {
        CompletesIff(front, emitRaises, n);
        OneStep(step, emitRaises, RunPlan(front, emitRaises, n).emitted);
        LastCall(plan);
      } else {
        var k := StepsMade(front, emitRaises, n);
        assert front[..k] == plan[..k];
      }
    }
  }

  lemma LastCall(plan: seq<Step>)
    requires Persistent(plan) && plan != []
    ensures var step := plan[|plan| - 1];
      && CallsOf(plan) == CallsOf(plan[..|plan| - 1]) + (if step.Release? then [step.call] else [])
      && plan[..|plan|] == plan
  {
    assert plan[|plan| - 1] in plan;
  }

  /** A step is made if and only if `emit` raised on none of the events before it. */
  lemma {:induction false} StepsMadeIff(plan: seq<Step>, emitRaises: nat -> bool, n: nat, j: nat)
    requires Persistent(plan) && j < |plan|
    ensures j < StepsMade(plan, emitRaises, n) <==> Reached(plan, emitRaises, n, j)
  {
    var m := |plan| - 1;
    var front := plan[..m];
    assert forall s <- front :: s in plan;
    CompletesIff(front, emitRaises, n);
    assert RunPlan(front, emitRaises, n).completed <==> Reached(front, emitRaises, n, m);
    ReachedInFront(plan, emitRaises, n, m, j);
    ReachedInFront(plan, emitRaises, n, m, m);
    if j < m {
      StepsMadeIff(front, emitRaises, n, j);
    }
  }

  // ---------------------------------------------------------------- calls

  lemma {:induction false} CallsOfConcat(a: seq<Step>, b: seq<Step>)
    ensures CallsOf(a + b) == CallsOf(a) + CallsOf(b)
  {
    if b == [] {
      assert a + b == a;
    } else {
      assert (a + b)[..|a + b| - 1] == a + b[..|b| - 1];
      CallsOfConcat(a, b[..|b| - 1]);
    }
  }

  /** Whatever cuts a plan short, its calls are the first of all. */
  lemma CallsAreFirst(plan: seq<Step>, emitRaises: nat -> bool, n: nat)
    requires Persistent(plan)
    ensures RunPlan(plan, emitRaises, n).calls <= CallsOf(plan)
  {
    var k := StepsMade(plan, emitRaises, n);
    StepsMadeCalls(plan, emitRaises, n);
    CallsOfConcat(plan[..k], plan[k..]);
    assert plan == plan[..k] + plan[k..];
  }

  /** All calls of a plan are calls of its steps. */
  lemma {:induction false} CallsFromSteps(plan: seq<Step>, emitRaises: nat -> bool, n: nat, c: Call)
    requires c in RunPlan(plan, emitRaises, n).calls
    ensures exists step <- plan :: (step.Release? || step.Attempt?) && step.call == c
  {
    var first := RunStep(plan[0], emitRaises, n);
    assert plan[0] in plan && forall step <- plan[1..] :: step in plan;
    if c !in first.calls {
      CallsFromSteps(plan[1..], emitRaises, first.emitted, c);
    }
  }

  // ---------------------------------------------------------------- plans one behind the other

  /** Stretches of code one behind the other: the second is reached if the first completes. */
  datatype Course = Steps(steps: seq<Step>) | Then(first: Course, second: Course)

  function RunCourse(course: Course, emitRaises: nat -> bool, n: nat): Run
  {
    match course
    case Steps(steps) => RunPlan(steps, emitRaises, n)
    case Then(a, b) =>
      var first := RunCourse(a, emitRaises, n);
      if first.completed then Follow(first.calls, RunCourse(b, emitRaises, first.emitted)) else first
  }

  lemma ThenRun(a: Course, b: Course, emitRaises: nat -> bool, n: nat)
    ensures var first := RunCourse(a, emitRaises, n);
      RunCourse(Then(a, b), emitRaises, n) ==
        if first.completed then Follow(first.calls, RunCourse(b, emitRaises, first.emitted)) else first
  {
  }

  /** All calls of a course that is not cut short. */
  function CourseCalls(course: Course): seq<Call>
  {
    match course
    case Steps(steps) => CallsOf(steps)
    case Then(a, b) => CourseCalls(a) + CourseCalls(b)
  }

  lemma ThenCalls(a: Course, b: Course)
    ensures CourseCalls(Then(a, b)) == CourseCalls(a) + CourseCalls(b)
  {
  }

  ghost predicate PersistentCourse(course: Course)
  {
    match course
    case Steps(steps) => Persistent(steps)
    case Then(a, b) => PersistentCourse(a) && PersistentCourse(b)
  }

  /** From `calls` and `n` on, exactly the steps of `course` were made that come before one that
      ended it; the log is now `after`, and `m` events were handed out in all. */
  ghost predicate Made(course: Course, emitRaises: nat -> bool, calls: seq<Call>, n: nat,
                       after: seq<Call>, m: nat, completed: bool)
  {
    var r := RunCourse(course, emitRaises, n);
    after == calls + r.calls && m == r.emitted && completed == r.completed
  }

  lemma MadeBoth(a: Course, b: Course, emitRaises: nat -> bool, c0: seq<Call>, n0: nat,
                 c1: seq<Call>, n1: nat, c2: seq<Call>, n2: nat, completed: bool)
    requires Made(a, emitRaises, c0, n0, c1, n1, true) && Made(b, emitRaises, c1, n1, c2, n2, completed)
    ensures Made(Then(a, b), emitRaises, c0, n0, c2, n2, completed)
  {
    Joined(c0, RunCourse(a, emitRaises, n0).calls, RunCourse(b, emitRaises, n1).calls);
  }

  lemma MadeFirst(a: Course, b: Course, emitRaises: nat -> bool, c0: seq<Call>, n0: nat, c1: seq<Call>, n1: nat)
    requires Made(a, emitRaises, c0, n0, c1, n1, false)
    ensures Made(Then(a, b), emitRaises, c0, n0, c1, n1, false)
  {
  }

  /** Whatever cuts a course short, its calls are the first of all; and all of them if nothing does. */
  lemma {:induction false} CourseCallsAreFirst(course: Course, emitRaises: nat -> bool, n: nat)
    requires PersistentCourse(course)
    ensures var r := RunCourse(course, emitRaises, n);
      r.calls <= CourseCalls(course) && (r.completed ==> r.calls == CourseCalls(course))
  {
    match course
    case Steps(steps) =>
      CallsAreFirst(steps, emitRaises, n);
      CompletesIff(steps, emitRaises, n);
    case Then(a, b) =>
      CourseCallsAreFirst(a, emitRaises, n);
      CourseCallsAreFirst(b, emitRaises, RunCourse(a, emitRaises, n).emitted);
  }

  /** What is known of one part of a course: when it completes, after how many events, and how often
      it makes a call. */
  ghost predicate Part(course: Course, emitRaises: nat -> bool, n: nat, c: Call,
                       completed: bool, m: nat, count: nat)
  {
    var r := RunCourse(course, emitRaises, n);
    r.completed == completed && (completed ==> r.emitted == m) && Count(r.calls, c) == count
  }

  /** The parts give the whole. */
  lemma PartThenPart(a: Course, b: Course, emitRaises: nat -> bool, n: nat, c: Call,
                     completed: bool, m: nat, count: nat, completed2: bool, m2: nat, count2: nat,
                     whole: bool, total: nat)
    requires Part(a, emitRaises, n, c, completed, m, count)
    requires completed ==> Part(b, emitRaises, m, c, completed2, m2, count2)
    requires whole == (completed && completed2) && total == count + if completed then count2 else 0
    ensures Part(Then(a, b), emitRaises, n, c, whole, m2, total)
  {
    CountConcat(RunCourse(a, emitRaises, n).calls, RunCourse(b, emitRaises, m).calls, c);
  }
}
