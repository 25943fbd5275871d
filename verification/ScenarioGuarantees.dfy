/** What the scenario runner guarantees of every scenario, whatever its actions, checks and cleanups do. */
module ScenarioGuarantees {
  import opened Wrappers
  import opened ScenarioRunner

  // ---- the environment is restored ----

  /** Wherever the action starts, running its cleanup right after it restores that environment; without a
      cleanup it changed nothing. */
  ghost predicate Undoes<E(!new)>(step: Step<E>) {
    forall e: E :: match step.action(e).cleanup
      case Some(cleanup) => cleanup(step.action(e).env).0 == e
      case None => step.action(e).env == e
  }

  ghost predicate ReadOnly<E(!new)>(a: Assertion<E>) {
    forall e: E :: a.check(e).env == e
  }

  ghost predicate Bracketed<E(!new)>(s: Scenario<E>) {
    && (forall i :: 0 <= i < |s.given| ==> Undoes(s.given[i]))
    && (forall i :: 0 <= i < |s.when_| ==> Undoes(s.when_[i]))
    && (forall i :: 0 <= i < |s.then_| ==> ReadOnly(s.then_[i]))
  }

  lemma {:induction false} StepsUnwind<E(!new)>(p: Progress<E>, scenario: string, phase: string, steps: seq<Step<E>>)
    requires forall i :: 0 <= i < |steps| ==> Undoes(steps[i])
    ensures var q := AfterSteps(p, scenario, phase, steps); Unwind(q.cleanups, q.env).0 == Unwind(p.cleanups, p.env).0
  {
    if steps != [] {
      StepsUnwind(p, scenario, phase, Front(steps));
      var q, step := AfterSteps(p, scenario, phase, Front(steps)), Last(steps);
      assert Undoes(step);
      var r := step.action(q.env);
      if r.cleanup.Some? {
        FrontOfAppend(q.cleanups, r.cleanup.value);
      }
    }
  }

  lemma {:induction false} ChecksUnwind<E(!new)>(p: Progress<E>, scenario: string, assertions: seq<Assertion<E>>)
    requires forall i :: 0 <= i < |assertions| ==> ReadOnly(assertions[i])
    ensures var q := AfterChecks(p, scenario, assertions); q.env == p.env && q.cleanups == p.cleanups
  {
    if assertions != [] {
      ChecksUnwind(p, scenario, Front(assertions));
      assert ReadOnly(Last(assertions));
    }
  }

  /**
   Bracket restoration: if every cleanup undoes its own step, however partial the step was, steps without
   a cleanup change nothing and checks only read, then every run ends in the environment it began in,
   wherever it failed and whichever cleanups reported errors.
   */
  lemma RunRestoresEnvironment<E(!new)>(s: Scenario<E>, env: E, records: seq<TimelineEvent>)
    requires Bracketed(s)
    ensures Outcome(s, env, records).0 == env
  {
    var p := Progress(env, [], records, None);
    var given := AfterSteps(p, s.name, "given", s.given);
    StepsUnwind(p, s.name, "given", s.given);
    if given.err.None? {
      var when_ := AfterSteps(given, s.name, "when", s.when_);
      StepsUnwind(given, s.name, "when", s.when_);
      if when_.err.None? {
        ChecksUnwind(when_, s.name, s.then_);
      }
    }
  }

  // ---- cleanups ----

  /** One execution of a cleanup: which one, and the error it returned. */
  datatype Execution = Execution(cleanup: nat, err: Option<string>)

  /** The cleanup, observed: it does what it does and enters its execution into a log beside the environment. */
  function Logged<E>(cleanup: Cleanup<E>, k: nat): Cleanup<(E, seq<Execution>)> {
    (p: (E, seq<Execution>)) => var (env, err) := cleanup(p.0); ((env, p.1 + [Execution(k, err)]), err)
  }

  function Logging<E>(cleanups: seq<Cleanup<E>>): seq<Cleanup<(E, seq<Execution>)>> {
    if cleanups == [] then [] else Logging(Front(cleanups)) + [Logged(Last(cleanups), |cleanups| - 1)]
  }

  /** The log has every one of `n` cleanups once, the last registered first. */
  predicate OnceInReverse(log: seq<Execution>, n: nat) {
    |log| == n && forall j :: 0 <= j < n ==> log[j].cleanup == n - 1 - j
  }

  /** `errors` report exactly the executions that returned an error, each with its cause, in the order of the log. */
  predicate ReportsFailures(errors: seq<Failure>, log: seq<Execution>) {
    if log == [] then errors == []
    else match log[0].err
      case None => ReportsFailures(errors, log[1..])
      case Some(cause) =>
        errors != [] && errors[0] == CleanupFailed(cause) && ReportsFailures(errors[1..], log[1..])
  }

  /** The log is what running the cleanups from the last to the first, from `start` to `end`, looks like. */
  ghost predicate Ran<E(!new)>(cleanups: seq<Cleanup<E>>, start: E, end: E, log: seq<Execution>) {
    exists envs: seq<E> :: RanThrough(cleanups, start, end, log, envs)
  }

  ghost predicate RanThrough<E(!new)>(cleanups: seq<Cleanup<E>>, start: E, end: E, log: seq<Execution>, envs: seq<E>) {
    var n := |cleanups|;
    && OnceInReverse(log, n)
    && |envs| == n + 1 && envs[0] == start && envs[n] == end
    && forall j :: 0 <= j < n ==> cleanups[n - 1 - j](envs[j]) == (envs[j + 1], log[j].err)
  }

  /** Observed, `cleanups` end where they end unobserved, with the same failures, after the executions `log`. */
  ghost predicate Executes<E(!new)>(cleanups: seq<Cleanup<E>>, env: E, before: seq<Execution>, log: seq<Execution>) {
    && Unwind(Logging(cleanups), (env, before)) == ((Unwind(cleanups, env).0, before + log), Unwind(cleanups, env).1)
    && Ran(cleanups, env, Unwind(cleanups, env).0, log)
    && ReportsFailures(Unwind(cleanups, env).1, log)
  }

  lemma RanOneMore<E(!new)>(cleanups: seq<Cleanup<E>>, start: E, next: E, end: E, err: Option<string>,
                            log: seq<Execution>)
    requires cleanups != [] && Last(cleanups)(start) == (next, err) && Ran(Front(cleanups), next, end, log)
    ensures Ran(cleanups, start, end, [Execution(|cleanups| - 1, err)] + log)
  {
    var envs :| RanThrough(Front(cleanups), next, end, log, envs);
    assert RanThrough(cleanups, start, end, [Execution(|cleanups| - 1, err)] + log, [start] + envs);
  }

  /**
   Whatever the cleanups do and whichever fail, unwinding executes each registered cleanup exactly once, the
   last registered first, each in the environment the one before it left, and joins exactly the errors they
   returned, in that order.
   */
  lemma {:induction false} CleanupsRunOnceInReverse<E(!new)>(cleanups: seq<Cleanup<E>>, env: E,
                                                              before: seq<Execution>)
    returns (log: seq<Execution>)
    ensures Executes(cleanups, env, before, log)
  {
    if cleanups == [] {
      log := [];
      assert before + log == before;
      assert RanThrough(cleanups, env, env, log, [env]);
    } else {
      var front, n := Front(cleanups), |cleanups|;
      var (env', err) := Last(cleanups)(env);
      var here := [Execution(n - 1, err)];
      FrontOfAppend(Logging(front), Logged(Last(cleanups), n - 1));
      var rest := CleanupsRunOnceInReverse(front, env', before + here);
      log := here + rest;
      assert (before + here) + rest == before + log;
      var failures := Unwind(front, env').1;
      assert log[1..] == rest;
      assert Unwind(cleanups, env).1 == CleanupFailures(err) + failures;
      assert (CleanupFailures(err) + failures)[if err.Some? then 1 else 0..] == failures;
      assert err.None? ==> CleanupFailures(err) + failures == failures;
      RanOneMore(cleanups, env, env', Unwind(front, env').0, err, rest);
    }
  }

  /**
   The same of a whole run: it ends where its cleanups, each executed once in reverse order, lead from the end of
   its body; and its errors are its own, if any, followed by exactly those the cleanups returned.
   */
  lemma RunExecutesItsCleanupsOnce<E(!new)>(s: Scenario<E>, env: E, records: seq<TimelineEvent>)
    returns (log: seq<Execution>, failures: seq<Failure>)
    ensures var p, outcome := Body(s, env, records), Outcome(s, env, records);
      && Ran(p.cleanups, p.env, outcome.0, log)
      && Unwind(Logging(p.cleanups), (p.env, [])).0 == (outcome.0, log)
      && outcome.1 == (match p.err case Some(failure) => [failure] case None => []) + failures
      && ReportsFailures(failures, log)
  {
    var p := Body(s, env, records);
    log := CleanupsRunOnceInReverse(p.cleanups, p.env, []);
    failures := Unwind(p.cleanups, p.env).1;
    assert [] + log == log;
  }

  // ---- the timeline ----

  /** Everything the scenario would attempt, in order, as (phase, name). */
  function StepPlan<E>(phase: string, steps: seq<Step<E>>): seq<(string, string)> {
    seq(|steps|, i requires 0 <= i < |steps| => (phase, steps[i].name))
  }

  function CheckPlan<E>(assertions: seq<Assertion<E>>): seq<(string, string)> {
    seq(|assertions|, i requires 0 <= i < |assertions| => ("then", assertions[i].name))
  }

  function Plan<E>(s: Scenario<E>): seq<(string, string)> {
    StepPlan("given", s.given) + StepPlan("when", s.when_) + CheckPlan(s.then_)
  }

  /** The record is the attempt planned at its place; it failed iff it is the one that stopped the run. */
  ghost predicate Fits(r: TimelineEvent, scenario: string, planned: (string, string), stopped: bool) {
    r.scenario == scenario && (r.phase, r.name) == planned && r.status == if stopped then "fail" else "pass"
  }

  /** `p` has been through `plan`, or through its beginning if it stopped; everything before the last attempt passed. */
  ghost predicate OnPlan<E>(p: Progress<E>, scenario: string, old_: seq<TimelineEvent>, plan: seq<(string, string)>) {
    && old_ <= p.records && |p.records| - |old_| <= |plan|
    && (forall i :: |old_| <= i < |p.records| ==>
          Fits(p.records[i], scenario, plan[i - |old_|], p.err.Some? && i == |p.records| - 1))
    && (p.err.None? ==> |p.records| - |old_| == |plan|)
    && (p.err.Some? ==> |p.records| > |old_|)
  }

  lemma OnPlanExtends<E>(p: Progress<E>, scenario: string, old_: seq<TimelineEvent>,
                         plan: seq<(string, string)>, more: seq<(string, string)>)
    requires p.err.Some? && OnPlan(p, scenario, old_, plan)
    ensures OnPlan(p, scenario, old_, plan + more)
  {
  }

  lemma {:induction false} StepsOnPlan<E>(p: Progress<E>, scenario: string, old_: seq<TimelineEvent>,
                                          plan: seq<(string, string)>, phase: string, steps: seq<Step<E>>)
    requires p.err.None? && OnPlan(p, scenario, old_, plan)
    ensures OnPlan(AfterSteps(p, scenario, phase, steps), scenario, old_, plan + StepPlan(phase, steps))
  {
    if steps == [] {
      assert plan + StepPlan(phase, steps) == plan;
    } else {
      StepsOnPlan(p, scenario, old_, plan, phase, Front(steps));
      var here := plan + StepPlan(phase, Front(steps));
      assert plan + StepPlan(phase, steps) == here + [(phase, Last(steps).name)];
    }
  }

  lemma {:induction false} ChecksOnPlan<E>(p: Progress<E>, scenario: string, old_: seq<TimelineEvent>,
                                           plan: seq<(string, string)>, assertions: seq<Assertion<E>>)
    requires p.err.None? && OnPlan(p, scenario, old_, plan)
    ensures OnPlan(AfterChecks(p, scenario, assertions), scenario, old_, plan + CheckPlan(assertions))
  {
    if assertions == [] {
      assert plan + CheckPlan(assertions) == plan;
    } else {
      ChecksOnPlan(p, scenario, old_, plan, Front(assertions));
      var here := plan + CheckPlan(Front(assertions));
      assert plan + CheckPlan(assertions) == here + [("then", Last(assertions).name)];
    }
  }

  /** The records a run adds are a prefix of the plan, all "pass" but the last one of a stopped run. */
  lemma TimelineFollowsPlan<E>(s: Scenario<E>, env: E, records: seq<TimelineEvent>)
    ensures OnPlan(Body(s, env, records), s.name, records, Plan(s))
  {
    var p := Progress(env, [], records, None);
    assert OnPlan(p, s.name, records, []);
    StepsOnPlan(p, s.name, records, [], "given", s.given);
    assert [] + StepPlan("given", s.given) == StepPlan("given", s.given);
    var given := AfterSteps(p, s.name, "given", s.given);
    if given.err.Some? {
      OnPlanExtends(given, s.name, records, StepPlan("given", s.given), StepPlan("when", s.when_) + CheckPlan(s.then_));
      assert StepPlan("given", s.given) + (StepPlan("when", s.when_) + CheckPlan(s.then_)) == Plan(s);
    } else {
      StepsOnPlan(given, s.name, records, StepPlan("given", s.given), "when", s.when_);
      var when_ := AfterSteps(given, s.name, "when", s.when_);
      if when_.err.Some? {
        var steps := StepPlan("given", s.given) + StepPlan("when", s.when_);
        OnPlanExtends(when_, s.name, records, steps, CheckPlan(s.then_));
      } else {
        ChecksOnPlan(when_, s.name, records, StepPlan("given", s.given) + StepPlan("when", s.when_), s.then_);
      }
    }
  }

  lemma {:induction false} NothingReported(failures: seq<Failure>, log: seq<Execution>)
    requires ReportsFailures(failures, log)
    ensures failures == [] <==> forall j :: 0 <= j < |log| ==> log[j].err.None?
  {
    if log != [] && log[0].err.None? {
      NothingReported(failures, log[1..]);
      assert forall j :: 0 < j < |log| ==> log[j] == log[1..][j - 1];
    }
  }

  /** A run with a name and a timeline reports no error exactly when everything planned was attempted and
      passed and no execution of its cleanups returned one. */
  lemma NoErrorIffAllPassed<E(!new)>(s: Scenario<E>, env: E, records: seq<TimelineEvent>) returns (log: seq<Execution>)
    ensures var (end, errors, after) := Outcome(s, env, records);
      && Ran(Body(s, env, records).cleanups, Body(s, env, records).env, end, log)
      && (errors == [] <==>
            && |after| == |records| + |Plan(s)|
            && (forall i :: |records| <= i < |after| ==> after[i].status == "pass")
            && (forall j :: 0 <= j < |log| ==> log[j].err.None?))
  {
    TimelineFollowsPlan(s, env, records);
    var p := Body(s, env, records);
    var failures;
    log, failures := RunExecutesItsCleanupsOnce(s, env, records);
    NothingReported(failures, log);
    if p.err.Some? {
      assert p.records[|p.records| - 1].status == "fail";
      assert "fail"[0] != "pass"[0];
    }
  }

  /** A Then check is attempted only after every Given and When step has passed. */
  lemma ChecksOnlyAfterPassedSteps<E>(s: Scenario<E>, env: E, records: seq<TimelineEvent>, i: nat)
    requires |records| <= i < |Outcome(s, env, records).2| && Outcome(s, env, records).2[i].phase == "then"
    ensures i >= |records| + |s.given| + |s.when_|
    ensures forall j :: |records| <= j < |records| + |s.given| + |s.when_| ==>
      Outcome(s, env, records).2[j].status == "pass" && Outcome(s, env, records).2[j].phase != "then"
  {
    TimelineFollowsPlan(s, env, records);
    var p := Body(s, env, records);
    assert "given"[0] == 'g' && "when"[0] == 'w' && "then"[0] == 't';
    assert Fits(p.records[i], s.name, Plan(s)[i - |records|], p.err.Some? && i == |p.records| - 1);
    forall j | |records| <= j < |records| + |s.given| + |s.when_|
      ensures p.records[j].status == "pass" && p.records[j].phase != "then"
    {
      assert Fits(p.records[j], s.name, Plan(s)[j - |records|], p.err.Some? && j == |p.records| - 1);
    }
  }
}
