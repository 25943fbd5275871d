/**
 What a run of a scenario is, told by its attempts: which action or check was attempted, in which environment it
 began and ended, whether it registered a cleanup and why it failed. The statements are about what the actions
 and checks return, not about how the runner keeps track of it.
 */
module ScenarioTrace {
  import opened Wrappers
  import opened ScenarioRunner
  import opened ScenarioGuarantees

  datatype Attempt<!E> = Attempt(
    before: E, after: E, phase: string, name: string, cleanup: Option<Cleanup<E>>,
    failure: Option<Failure>, error: string)

  /** The step's action was run in `a.before`. */
  ghost predicate AttemptsStep<E>(a: Attempt<E>, phase: string, step: Step<E>) {
    var r := step.action(a.before);
    && a.phase == phase && a.name == step.name && a.after == r.env && a.cleanup == r.cleanup
    && match r.err
       case None => a.failure == None && a.error == ""
       case Some(cause) => a.failure == Some(StepFailed(phase, step.name, cause)) && a.error == cause
  }

  /** The check was evaluated in `a.before`. */
  ghost predicate AttemptsCheck<E>(a: Attempt<E>, assertion: Assertion<E>) {
    var r := assertion.check(a.before);
    && a.phase == "then" && a.name == assertion.name && a.after == r.env && a.cleanup.None?
    && match r.err
       case Some(cause) => a.failure == Some(CheckFailed(assertion.name, cause)) && a.error == cause
       case None =>
         && a.error == ""
         && a.failure == if r.passed then None else Some(AssertionFailed(assertion.name, r.message))
  }

  /** Each attempt begins where the one before ended, the first in `env`; only the last may have failed. */
  ghost predicate Linked<E>(env: E, attempts: seq<Attempt<E>>) {
    && (attempts != [] ==> attempts[0].before == env)
    && (forall i, j :: 0 <= i < j < |attempts| && j == i + 1 ==> attempts[j].before == attempts[i].after)
    && (forall i :: 0 <= i < |attempts| - 1 ==> attempts[i].failure.None?)
  }

  /** The timeline's record of an attempt. */
  predicate Records<E>(record: TimelineEvent, scenario: string, a: Attempt<E>) {
    && record.scenario == scenario && record.phase == a.phase && record.name == a.name
    && record.error == a.error && record.status == if a.failure.None? then "pass" else "fail"
  }

  /** The cleanups the attempts registered, in order. */
  function Registered<E>(attempts: seq<Attempt<E>>): seq<Cleanup<E>> {
    if attempts == [] then []
    else match Last(attempts).cleanup
      case Some(cleanup) => Registered(Front(attempts)) + [cleanup]
      case None => Registered(Front(attempts))
  }

  /** The timeline grew by the records of the attempts. */
  ghost predicate Recorded<E>(old_: seq<TimelineEvent>, new_: seq<TimelineEvent>, scenario: string,
                              attempts: seq<Attempt<E>>)
  {
    && old_ <= new_ && |new_| == |old_| + |attempts|
    && forall i :: 0 <= i < |attempts| ==> Records(new_[|old_| + i], scenario, attempts[i])
  }

  /** The attempts lead to this environment and error, and register the cleanups. */
  ghost predicate LeadTo<E>(p: Progress<E>, q: Progress<E>, attempts: seq<Attempt<E>>) {
    && q.env == (if attempts == [] then p.env else Last(attempts).after)
    && q.err == (if attempts == [] then None else Last(attempts).failure)
    && q.cleanups == p.cleanups + Registered(attempts)
  }

  /** Progress from `p` to `q` consists of these attempts. */
  ghost predicate Consists<E>(p: Progress<E>, q: Progress<E>, scenario: string, attempts: seq<Attempt<E>>) {
    && Linked(p.env, attempts) && LeadTo(p, q, attempts)
    && Recorded(p.records, q.records, scenario, attempts)
  }

  lemma {:induction false} RegisteredAdds<E>(a: seq<Attempt<E>>, b: seq<Attempt<E>>)
    ensures Registered(a + b) == Registered(a) + Registered(b)
  {
    if b == [] {
      assert a + b == a;
    } else {
      RegisteredAdds(a, Front(b));
      assert Front(a + b) == a + Front(b) && Last(a + b) == Last(b);
    }
  }

  lemma LinkedAdds<E>(env: E, a: seq<Attempt<E>>, b: seq<Attempt<E>>)
    requires Linked(env, a) && Linked(if a == [] then env else Last(a).after, b)
    requires a != [] ==> Last(a).failure.None?
    ensures Linked(env, a + b)
  {
    forall i, j | 0 <= i < j < |a + b| && j == i + 1
      ensures (a + b)[j].before == (a + b)[i].after
    {
      if i >= |a| {
        assert b[j - |a|].before == b[i - |a|].after;
      }
    }
  }

  lemma RecordedAdds<E>(r0: seq<TimelineEvent>, r1: seq<TimelineEvent>, r2: seq<TimelineEvent>, scenario: string,
                        a: seq<Attempt<E>>, b: seq<Attempt<E>>)
    requires Recorded(r0, r1, scenario, a) && Recorded(r1, r2, scenario, b)
    ensures Recorded(r0, r2, scenario, a + b)
  {
    forall i | 0 <= i < |a + b|
      ensures Records(r2[|r0| + i], scenario, (a + b)[i])
    {
      if i < |a| {
        assert Records(r1[|r0| + i], scenario, a[i]);
      } else {
        assert Records(r2[|r1| + (i - |a|)], scenario, b[i - |a|]);
      }
    }
  }

  lemma LeadsOn<E>(p: Progress<E>, q: Progress<E>, r: Progress<E>, a: seq<Attempt<E>>, b: seq<Attempt<E>>)
    requires LeadTo(p, q, a) && q.err.None? && LeadTo(q, r, b)
    ensures LeadTo(p, r, a + b)
  {
    RegisteredAdds(a, b);
    if b == [] {
      assert a + b == a;
    } else {
      assert Last(a + b) == Last(b);
    }
  }

  /** One phase after another. */
  lemma Continued<E>(p: Progress<E>, q: Progress<E>, r: Progress<E>, scenario: string,
                     a: seq<Attempt<E>>, b: seq<Attempt<E>>)
    requires Consists(p, q, scenario, a) && q.err.None? && Consists(q, r, scenario, b)
    ensures Consists(p, r, scenario, a + b)
  {
    LeadsOn(p, q, r, a, b);
    LinkedAdds(p.env, a, b);
    RecordedAdds(p.records, q.records, r.records, scenario, a, b);
  }

  lemma OneMoreAttempt<E>(p: Progress<E>, q: Progress<E>, q': Progress<E>, scenario: string,
                          attempts: seq<Attempt<E>>, a: Attempt<E>, record: TimelineEvent)
    requires Consists(p, q, scenario, attempts) && q.err.None?
    requires a.before == q.env && a.after == q'.env && q'.err == a.failure
    requires q'.cleanups == q.cleanups + match a.cleanup case Some(cleanup) => [cleanup] case None => []
    requires q'.records == q.records + [record] && Records(record, scenario, a)
    ensures Consists(p, q', scenario, attempts + [a])
  {
    assert Registered([a]) == match a.cleanup case Some(cleanup) => [cleanup] case None => [];
    assert Consists(q, q', scenario, [a]);
    Continued(p, q, q', scenario, attempts, [a]);
  }

  /** The attempts go through a beginning of the steps, through all of them unless one failed. */
  ghost predicate ThroughSteps<E>(attempts: seq<Attempt<E>>, phase: string, steps: seq<Step<E>>) {
    && |attempts| <= |steps|
    && (forall i :: 0 <= i < |attempts| ==> AttemptsStep(attempts[i], phase, steps[i]))
    && (|attempts| < |steps| ==> attempts != [] && Last(attempts).failure.Some?)
  }

  ghost predicate ThroughChecks<E>(attempts: seq<Attempt<E>>, assertions: seq<Assertion<E>>) {
    && |attempts| <= |assertions|
    && (forall i :: 0 <= i < |attempts| ==> AttemptsCheck(attempts[i], assertions[i]))
    && (|attempts| < |assertions| ==> attempts != [] && Last(attempts).failure.Some?)
  }

  lemma ThroughOneMore<E>(attempts: seq<Attempt<E>>, a: Attempt<E>, phase: string, steps: seq<Step<E>>)
    requires steps != [] && ThroughSteps(attempts, phase, Front(steps)) && AttemptsStep(a, phase, Last(steps))
    requires attempts == [] || Last(attempts).failure.None?
    ensures ThroughSteps(attempts + [a], phase, steps)
  {
    assert forall i :: 0 <= i < |attempts| ==> steps[i] == Front(steps)[i];
  }

  lemma ThroughOneMoreCheck<E>(attempts: seq<Attempt<E>>, a: Attempt<E>, assertions: seq<Assertion<E>>)
    requires assertions != [] && ThroughChecks(attempts, Front(assertions)) && AttemptsCheck(a, Last(assertions))
    requires attempts == [] || Last(attempts).failure.None?
    ensures ThroughChecks(attempts + [a], assertions)
  {
    assert forall i :: 0 <= i < |attempts| ==> assertions[i] == Front(assertions)[i];
  }

  lemma StepTraced<E>(q: Progress<E>, scenario: string, phase: string, step: Step<E>)
    returns (a: Attempt<E>, record: TimelineEvent)
    ensures AttemptsStep(a, phase, step) && a.before == q.env
    ensures var q' := AfterStep(q, scenario, phase, step);
      && a.after == q'.env && q'.err == a.failure
      && q'.cleanups == q.cleanups + (match a.cleanup case Some(cleanup) => [cleanup] case None => [])
      && q'.records == q.records + [record] && Records(record, scenario, a)
  {
    var r, q' := step.action(q.env), AfterStep(q, scenario, phase, step);
    record := Last(q'.records);
    a := Attempt(q.env, r.env, phase, step.name, r.cleanup, q'.err, record.error);
    assert q.cleanups + [] == q.cleanups;
  }

  lemma CheckTraced<E>(q: Progress<E>, scenario: string, assertion: Assertion<E>)
    returns (a: Attempt<E>, record: TimelineEvent)
    ensures AttemptsCheck(a, assertion) && a.before == q.env
    ensures var q' := AfterCheck(q, scenario, assertion);
      && a.after == q'.env && q'.err == a.failure
      && q'.cleanups == q.cleanups + (match a.cleanup case Some(cleanup) => [cleanup] case None => [])
      && q'.records == q.records + [record] && Records(record, scenario, a)
  {
    var r, q' := assertion.check(q.env), AfterCheck(q, scenario, assertion);
    record := Last(q'.records);
    a := Attempt(q.env, r.env, "then", assertion.name, None, q'.err, record.error);
    assert q.cleanups + [] == q.cleanups;
  }

  lemma {:induction false} StepsTraced<E>(p: Progress<E>, scenario: string, phase: string, steps: seq<Step<E>>)
    returns (attempts: seq<Attempt<E>>)
    requires p.err.None?
    ensures Consists(p, AfterSteps(p, scenario, phase, steps), scenario, attempts)
    ensures ThroughSteps(attempts, phase, steps)
  {
    if steps == [] {
      attempts := [];
      assert p.cleanups + Registered(attempts) == p.cleanups;
    } else {
      var q, step := AfterSteps(p, scenario, phase, Front(steps)), Last(steps);
      attempts := StepsTraced(p, scenario, phase, Front(steps));
      if q.err.None? {
        var a, record := StepTraced(q, scenario, phase, step);
        OneMoreAttempt(p, q, AfterStep(q, scenario, phase, step), scenario, attempts, a, record);
        ThroughOneMore(attempts, a, phase, steps);
        attempts := attempts + [a];
      }
    }
  }

  lemma {:induction false} ChecksTraced<E>(p: Progress<E>, scenario: string, assertions: seq<Assertion<E>>)
    returns (attempts: seq<Attempt<E>>)
    requires p.err.None?
    ensures Consists(p, AfterChecks(p, scenario, assertions), scenario, attempts)
    ensures ThroughChecks(attempts, assertions)
  {
    if assertions == [] {
      attempts := [];
      assert p.cleanups + Registered(attempts) == p.cleanups;
    } else {
      var q, assertion := AfterChecks(p, scenario, Front(assertions)), Last(assertions);
      attempts := ChecksTraced(p, scenario, Front(assertions));
      if q.err.None? {
        var a, record := CheckTraced(q, scenario, assertion);
        OneMoreAttempt(p, q, AfterCheck(q, scenario, assertion), scenario, attempts, a, record);
        ThroughOneMoreCheck(attempts, a, assertions);
        attempts := attempts + [a];
      }
    }
  }

  /** The attempts of a whole run, phase by phase. */
  ghost predicate Phases<E>(s: Scenario<E>, given: seq<Attempt<E>>, when_: seq<Attempt<E>>, then_: seq<Attempt<E>>) {
    && ThroughSteps(given, "given", s.given)
    && (if given != [] && Last(given).failure.Some? then when_ == [] else ThroughSteps(when_, "when", s.when_))
    && (if (given != [] && Last(given).failure.Some?) || (when_ != [] && Last(when_).failure.Some?) then then_ == []
        else ThroughChecks(then_, s.then_))
  }

  /** The When steps and Then checks, after Given steps that all passed. */
  lemma RestIsTraced<E>(s: Scenario<E>, q: Progress<E>)
    returns (when_: seq<Attempt<E>>, then_: seq<Attempt<E>>, rest: seq<Attempt<E>>)
    requires q.err.None?
    ensures ThroughSteps(when_, "when", s.when_) && rest == when_ + then_
    ensures if when_ != [] && Last(when_).failure.Some? then then_ == [] else ThroughChecks(then_, s.then_)
    ensures var r := AfterSteps(q, s.name, "when", s.when_);
      Consists(q, if r.err.Some? then r else AfterChecks(r, s.name, s.then_), s.name, rest)
  {
    var r := AfterSteps(q, s.name, "when", s.when_);
    when_ := StepsTraced(q, s.name, "when", s.when_);
    if r.err.Some? {
      then_ := [];
    } else {
      then_ := ChecksTraced(r, s.name, s.then_);
      Continued(q, r, AfterChecks(r, s.name, s.then_), s.name, when_, then_);
    }
    rest := when_ + then_;
    assert when_ + [] == when_;
  }

  /**
   Main theorem: the body of every run is a chain of attempts of the Given steps, the When steps and the Then checks
   in order, each beginning where the one before ended, up to the first that failed; the timeline records each with
   what it returned, the cleanups are those it registered, and the error is that of the attempt that failed.
   */
  lemma RunIsTraced<E>(s: Scenario<E>, env: E, records: seq<TimelineEvent>)
    returns (given: seq<Attempt<E>>, when_: seq<Attempt<E>>, then_: seq<Attempt<E>>, attempts: seq<Attempt<E>>)
    ensures Phases(s, given, when_, then_) && attempts == given + (when_ + then_)
    ensures Consists(Progress(env, [], records, None), Body(s, env, records), s.name, attempts)
  {
    var p := Progress(env, [], records, None);
    var q := AfterSteps(p, s.name, "given", s.given);
    given := StepsTraced(p, s.name, "given", s.given);
    if q.err.Some? {
      when_, then_, attempts := [], [], given;
    } else {
      var rest;
      when_, then_, rest := RestIsTraced(s, q);
      Continued(p, q, Body(s, env, records), s.name, given, rest);
      attempts := given + rest;
    }
  }

  lemma AllPassed<E>(env: E, attempts: seq<Attempt<E>>)
    requires Linked(env, attempts) && (attempts != [] ==> Last(attempts).failure.None?)
    ensures forall i :: 0 <= i < |attempts| ==> attempts[i].failure.None?
  {
  }

  /** If no attempt failed, everything planned was attempted. */
  lemma AllAttempted<E>(s: Scenario<E>, given: seq<Attempt<E>>, when_: seq<Attempt<E>>, then_: seq<Attempt<E>>,
                        attempts: seq<Attempt<E>>)
    requires Phases(s, given, when_, then_) && attempts == given + (when_ + then_)
    requires forall i :: 0 <= i < |attempts| ==> attempts[i].failure.None?
    ensures |attempts| == |s.given| + |s.when_| + |s.then_|
  {
    var n, k := |given|, |given| + |when_|;
    if given != [] {
      assert Last(given) == attempts[n - 1];
    }
    if when_ != [] {
      assert Last(when_) == attempts[k - 1];
    }
    if then_ != [] {
      assert Last(then_) == attempts[|attempts| - 1];
    }
  }

  /**
   With the cleanups, in terms of attempts and executions: a run reports no error exactly if every attempt planned
   was made and succeeded and every execution of a registered cleanup did.
   */
  lemma RunSucceedsIff<E(!new)>(s: Scenario<E>, env: E, records: seq<TimelineEvent>)
    returns (attempts: seq<Attempt<E>>, log: seq<Execution>)
    ensures Linked(env, attempts)
    ensures var p, outcome := Body(s, env, records), Outcome(s, env, records);
      && p.env == (if attempts == [] then env else Last(attempts).after)
      && Ran(Registered(attempts), p.env, outcome.0, log)
      && (outcome.1 == [] <==>
            && |attempts| == |s.given| + |s.when_| + |s.then_|
            && (forall i :: 0 <= i < |attempts| ==> attempts[i].failure.None?)
            && (forall j :: 0 <= j < |log| ==> log[j].err.None?))
  {
    var p := Body(s, env, records);
    var given, when_, then_;
    given, when_, then_, attempts := RunIsTraced(s, env, records);
    assert [] + Registered(attempts) == Registered(attempts);
    var failures;
    log, failures := RunExecutesItsCleanupsOnce(s, env, records);
    NothingReported(failures, log);
    if p.err.None? {
      AllPassed(env, attempts);
      AllAttempted(s, given, when_, then_, attempts);
    } else {
      assert attempts[|attempts| - 1].failure.Some?;
    }
  }
}
