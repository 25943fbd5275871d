/**
 The scenario runner: Given and When steps that may register cleanups, Then checks, early exit at the
 first failure, and unconditional unwinding of the cleanups in reverse order.

 `E` is everything actions, checks and cleanups can see or change (contexts and clocks included). An
 action may fail after changing part of it and may register a cleanup all the same.
 */
module ScenarioRunner {
  import opened Wrappers

  type Cleanup<!E> = E -> (E, Option<string>)

  datatype ActionResult<!E> = ActionResult(env: E, cleanup: Option<Cleanup<E>>, err: Option<string>)

  datatype Step<!E> = Step(name: string, action: E -> ActionResult<E>)

  datatype CheckResult<E> = CheckResult(env: E, passed: bool, message: string, err: Option<string>)

  datatype Assertion<!E> = Assertion(name: string, check: E -> CheckResult<E>)

  datatype Scenario<!E> = Scenario(name: string, given: seq<Step<E>>, when_: seq<Step<E>>, then_: seq<Assertion<E>>)

  datatype TimelineEvent = TimelineEvent(scenario: string, phase: string, name: string, status: string, error: string)

  datatype Failure =
    | Misconfigured
    | StepFailed(phase: string, name: string, cause: string)
    | CheckFailed(name: string, cause: string)
    | AssertionFailed(name: string, message: string)
    | CleanupFailed(cause: string)

  class Timeline {
    var records: seq<TimelineEvent>

    constructor ()
      ensures records == []
    {
      records := [];
    }

    method Record(event: TimelineEvent)
      modifies this
      ensures records == old(records) + [event]
    {
      records := records + [event];
    }
  }

  // ---- specification ----

  /** Where a run stands: the environment, the registered cleanups, the timeline, the error if it has stopped. */
  datatype Progress<!E> = Progress(env: E, cleanups: seq<Cleanup<E>>, records: seq<TimelineEvent>, err: Option<Failure>)

  function ErrorString(err: Option<string>): string {
    match err case Some(text) => text case None => ""
  }

  function Status(passed: bool): string {
    if passed then "pass" else "fail"
  }

  function AfterStep<E>(p: Progress<E>, scenario: string, phase: string, step: Step<E>): Progress<E> {
    var r := step.action(p.env);
    Progress(
      r.env,
      match r.cleanup case Some(cleanup) => p.cleanups + [cleanup] case None => p.cleanups,
      p.records + [TimelineEvent(scenario, phase, step.name, Status(r.err.None?), ErrorString(r.err))],
      match r.err case Some(cause) => Some(StepFailed(phase, step.name, cause)) case None => None)
  }

  function AfterSteps<E>(p: Progress<E>, scenario: string, phase: string, steps: seq<Step<E>>): Progress<E> {
    if steps == [] then p
    else
      var q := AfterSteps(p, scenario, phase, Front(steps));
      if q.err.Some? then q else AfterStep(q, scenario, phase, Last(steps))
  }

  function AfterCheck<E>(p: Progress<E>, scenario: string, a: Assertion<E>): Progress<E> {
    var r := a.check(p.env);
    Progress(
      r.env, p.cleanups,
      p.records + [TimelineEvent(scenario, "then", a.name, Status(r.err.None? && r.passed), ErrorString(r.err))],
      match r.err
      case Some(cause) => Some(CheckFailed(a.name, cause))
      case None => if r.passed then None else Some(AssertionFailed(a.name, r.message)))
  }

  function AfterChecks<E>(p: Progress<E>, scenario: string, assertions: seq<Assertion<E>>): Progress<E> {
    if assertions == [] then p
    else
      var q := AfterChecks(p, scenario, Front(assertions));
      if q.err.Some? then q else AfterCheck(q, scenario, Last(assertions))
  }

  /** The run up to its return, cleanups not yet run. */
  function Body<E>(s: Scenario<E>, env: E, records: seq<TimelineEvent>): Progress<E> {
    var given := AfterSteps(Progress(env, [], records, None), s.name, "given", s.given);
    if given.err.Some? then given
    else
      var when_ := AfterSteps(given, s.name, "when", s.when_);
      if when_.err.Some? then when_ else AfterChecks(when_, s.name, s.then_)
  }

  function CleanupFailures(err: Option<string>): seq<Failure> {
    match err case Some(cause) => [CleanupFailed(cause)] case None => []
  }

  /** Last registered first; a failing cleanup does not keep the others from running. */
  function Unwind<E>(cleanups: seq<Cleanup<E>>, env: E): (E, seq<Failure>) {
    if cleanups == [] then (env, [])
    else
      var (env', err) := Last(cleanups)(env);
      var (end, failures) := Unwind(Front(cleanups), env');
      (end, CleanupFailures(err) + failures)
  }

  function Errors(err: Option<Failure>): seq<Failure> {
    match err case Some(failure) => [failure] case None => []
  }

  /** The environment, joined errors and timeline a run ends with. */
  function Outcome<E>(s: Scenario<E>, env: E, records: seq<TimelineEvent>): (E, seq<Failure>, seq<TimelineEvent>) {
    var p := Body(s, env, records);
    var (end, failures) := Unwind(p.cleanups, p.env);
    (end, Errors(p.err) + failures, p.records)
  }

  // ---- the runner ----

  lemma {:induction false} StoppedStaysStopped<E>(p: Progress<E>, scenario: string, phase: string,
                                                  steps: seq<Step<E>>, i: nat)
    requires i <= |steps| && AfterSteps(p, scenario, phase, steps[..i]).err.Some?
    ensures AfterSteps(p, scenario, phase, steps) == AfterSteps(p, scenario, phase, steps[..i])
  {
    if i == |steps| {
      assert steps[..i] == steps;
    } else {
      assert Front(steps)[..i] == steps[..i];
      StoppedStaysStopped(p, scenario, phase, Front(steps), i);
    }
  }

  lemma {:induction false} FailedCheckStaysFailed<E>(p: Progress<E>, scenario: string,
                                                     assertions: seq<Assertion<E>>, i: nat)
    requires i <= |assertions| && AfterChecks(p, scenario, assertions[..i]).err.Some?
    ensures AfterChecks(p, scenario, assertions) == AfterChecks(p, scenario, assertions[..i])
  {
    if i == |assertions| {
      assert assertions[..i] == assertions;
    } else {
      assert Front(assertions)[..i] == assertions[..i];
      FailedCheckStaysFailed(p, scenario, Front(assertions), i);
    }
  }

  method RunSteps<E>(timeline: Timeline, scenario: string, phase: string, steps: seq<Step<E>>,
                     env0: E, cleanups0: seq<Cleanup<E>>)
    returns (env: E, cleanups: seq<Cleanup<E>>, err: Option<Failure>)
    modifies timeline
    ensures Progress(env, cleanups, timeline.records, err)
            == AfterSteps(Progress(env0, cleanups0, old(timeline.records), None), scenario, phase, steps)
  {
    ghost var p0 := Progress(env0, cleanups0, timeline.records, None);
    env, cleanups, err := env0, cleanups0, None;
    for i := 0 to |steps|
      invariant err.None?
      invariant Progress(env, cleanups, timeline.records, None) == AfterSteps(p0, scenario, phase, steps[..i])
    {
      assert Front(steps[..i + 1]) == steps[..i] && Last(steps[..i + 1]) == steps[i];
      var r := steps[i].action(env);
      env := r.env;
      var status := if r.err.Some? then "fail" else "pass";
      timeline.Record(TimelineEvent(scenario, phase, steps[i].name, status, ErrorString(r.err)));
      if r.cleanup.Some? {
        cleanups := cleanups + [r.cleanup.value];
      }
      if r.err.Some? {
        err := Some(StepFailed(phase, steps[i].name, r.err.value));
        StoppedStaysStopped(p0, scenario, phase, steps, i + 1);
        return;
      }
    }
    assert steps[..|steps|] == steps;
  }

  method RunChecks<E>(timeline: Timeline, scenario: string, assertions: seq<Assertion<E>>,
                      env0: E, ghost cleanups: seq<Cleanup<E>>)
    returns (env: E, err: Option<Failure>)
    modifies timeline
    ensures Progress(env, cleanups, timeline.records, err)
            == AfterChecks(Progress(env0, cleanups, old(timeline.records), None), scenario, assertions)
  {
    ghost var p0 := Progress(env0, cleanups, timeline.records, None);
    env, err := env0, None;
    for i := 0 to |assertions|
      invariant err.None?
      invariant Progress(env, cleanups, timeline.records, None) == AfterChecks(p0, scenario, assertions[..i])
    {
      assert Front(assertions[..i + 1]) == assertions[..i] && Last(assertions[..i + 1]) == assertions[i];
      var r := assertions[i].check(env);
      env := r.env;
      var status := if r.err.Some? || !r.passed then "fail" else "pass";
      timeline.Record(TimelineEvent(scenario, "then", assertions[i].name, status, ErrorString(r.err)));
      if r.err.Some? {
        err := Some(CheckFailed(assertions[i].name, r.err.value));
        FailedCheckStaysFailed(p0, scenario, assertions, i + 1);
        return;
      }
      if !r.passed {
        err := Some(AssertionFailed(assertions[i].name, r.message));
        FailedCheckStaysFailed(p0, scenario, assertions, i + 1);
        return;
      }
    }
    assert assertions[..|assertions|] == assertions;
  }

  /** The deferred function: every registered cleanup, in reverse, joining errors. */
  method RunCleanups<E>(cleanups: seq<Cleanup<E>>, env0: E, err0: seq<Failure>) returns (env: E, err: seq<Failure>)
    ensures env == Unwind(cleanups, env0).0
    ensures err == err0 + Unwind(cleanups, env0).1
  {
    env, err := env0, err0;
    var index := |cleanups|;
    assert cleanups[..index] == cleanups;
    while index > 0
      invariant 0 <= index <= |cleanups|
      invariant Unwind(cleanups[..index], env).0 == Unwind(cleanups, env0).0
      invariant err + Unwind(cleanups[..index], env).1 == err0 + Unwind(cleanups, env0).1
    {
      index := index - 1;
      assert Front(cleanups[..index + 1]) == cleanups[..index] && Last(cleanups[..index + 1]) == cleanups[index];
      var (env', cleanupErr) := cleanups[index](env);
      if cleanupErr.Some? {
        err := err + [CleanupFailed(cleanupErr.value)];
      }
      env := env';
    }
  }

  method Run<E>(timeline: Timeline?, scenario: Scenario<E>, env0: E) returns (env: E, err: seq<Failure>)
    modifies if timeline == null then {} else {timeline}
    ensures scenario.name == "" || timeline == null ==> env == env0 && err == [Misconfigured]
    ensures scenario.name == "" && timeline != null ==> timeline.records == old(timeline.records)
    ensures scenario.name != "" && timeline != null ==>
      (env, err, timeline.records) == Outcome(scenario, env0, old(timeline.records))
  {
    if scenario.name == "" || timeline == null {
      return env0, [Misconfigured];
    }
    ghost var records0 := timeline.records;
    var cleanups, failure;
    env, cleanups, failure := RunSteps(timeline, scenario.name, "given", scenario.given, env0, []);
    if failure.None? {
      env, cleanups, failure := RunSteps(timeline, scenario.name, "when", scenario.when_, env, cleanups);
      if failure.None? {
        env, failure := RunChecks(timeline, scenario.name, scenario.then_, env, cleanups);
      }
    }
    assert Progress(env, cleanups, timeline.records, failure) == Body(scenario, env0, records0);
    env, err := RunCleanups(cleanups, env, Errors(failure));
  }
}
