/** What the repeatability aggregate counts, told by the recorded runs and tests themselves. */
module RepeatContents {
  import opened Wrappers
  import opened Sorting
  import opened RepeatReport

  // ---- the runs of a directory ----

  /** The entries before `i` that hold a readable summary. */
  function SummariesBefore(entries: seq<DirEntry>, i: nat): set<nat>
    requires i <= |entries|
  {
    set j | 0 <= j < i && entries[j].HasSummary?
  }

  /** The runs aggregated are the summaries found, each in its place, and no others. */
  lemma {:induction false} RunsAreTheSummaries(entries: seq<DirEntry>, i: nat)
    requires i <= |entries|
    ensures |Runs(entries)| == |SummariesBefore(entries, |entries|)|
    ensures i < |entries| && entries[i].HasSummary? ==>
      var k := |SummariesBefore(entries, i)|; k < |Runs(entries)| && Runs(entries)[k] == entries[i].run
  {
    if entries == [] {
      assert SummariesBefore(entries, 0) == {};
    } else {
      var n := |entries| - 1;
      RunsAreTheSummaries(Front(entries), if i < n then i else n);
      assert SummariesBefore(entries, n) == SummariesBefore(Front(entries), n);
      assert SummariesBefore(entries, |entries|)
          == SummariesBefore(entries, n) + if entries[n].HasSummary? then {n} else {};
      if i < n {
        assert SummariesBefore(entries, i) == SummariesBefore(Front(entries), i);
      }
    }
  }

  // ---- the tests of all runs ----

  /** How many tests the first `i` runs have. */
  function TestsBefore(runs: seq<RunSummary>, i: nat): nat
    requires i <= |runs|
  {
    if i == 0 then 0 else TestsBefore(runs, i - 1) + |runs[i - 1].tests|
  }

  lemma {:induction false} TestsBeforeFront(runs: seq<RunSummary>, i: nat)
    requires runs != [] && i < |runs|
    ensures TestsBefore(Front(runs), i) == TestsBefore(runs, i)
  {
    if i > 0 {
      TestsBeforeFront(runs, i - 1);
    }
  }

  /** The tests aggregated are those of every run, one run after the other. */
  lemma {:induction false} AllTestsAreThoseOfTheRuns(runs: seq<RunSummary>, i: nat)
    requires i < |runs|
    ensures |AllTests(runs)| == TestsBefore(runs, |runs|)
    ensures TestsBefore(runs, i) + |runs[i].tests| <= |AllTests(runs)|
    ensures AllTests(runs)[TestsBefore(runs, i)..TestsBefore(runs, i) + |runs[i].tests|] == runs[i].tests
  {
    var front, n := Front(runs), |runs| - 1;
    TestsBeforeFront(runs, n);
    TestsBeforeFront(runs, i);
    assert AllTests(runs) == AllTests(front) + runs[n].tests;
    if i < n {
      AllTestsAreThoseOfTheRuns(front, i);
      var k := TestsBefore(runs, i);
      assert AllTests(runs)[k..k + |runs[i].tests|] == AllTests(front)[k..k + |front[i].tests|];
    } else if n > 0 {
      AllTestsAreThoseOfTheRuns(front, 0);
    }
  }

  // ---- runs ----

  function FailedAt(runs: seq<RunSummary>): set<nat> {
    set i | 0 <= i < |runs| && runs[i].failed != 0
  }

  function PassedAt(runs: seq<RunSummary>): set<nat> {
    set i | 0 <= i < |runs| && runs[i].failed == 0
  }

  function FailedAs(runs: seq<RunSummary>, id: string): set<nat> {
    set i | 0 <= i < |runs| && runs[i].failed != 0 && runs[i].runId == id
  }

  lemma FailedAtStep(runs: seq<RunSummary>)
    requires runs != []
    ensures |FailedAt(runs)| == |FailedAt(Front(runs))| + if Last(runs).failed != 0 then 1 else 0
  {
    var n := |runs| - 1;
    assert FailedAt(runs) == FailedAt(Front(runs)) + if Last(runs).failed != 0 then {n} else {};
  }

  lemma PassedAtStep(runs: seq<RunSummary>)
    requires runs != []
    ensures |PassedAt(runs)| == |PassedAt(Front(runs))| + if Last(runs).failed == 0 then 1 else 0
  {
    var n := |runs| - 1;
    assert PassedAt(runs) == PassedAt(Front(runs)) + if Last(runs).failed == 0 then {n} else {};
  }

  lemma FailedAsStep(runs: seq<RunSummary>, id: string)
    requires runs != []
    ensures |FailedAs(runs, id)|
            == |FailedAs(Front(runs), id)| + if Last(runs).failed != 0 && Last(runs).runId == id then 1 else 0
  {
    var n := |runs| - 1;
    assert FailedAs(runs, id)
        == FailedAs(Front(runs), id) + if Last(runs).failed != 0 && Last(runs).runId == id then {n} else {};
  }

  lemma {:induction false} FailedRunsCount(runs: seq<RunSummary>, id: string)
    ensures |Bag(runs, FailedIdOf())| == |FailedAt(runs)|
    ensures Bag(runs, FailedIdOf())[id] == |FailedAs(runs, id)|
    ensures |FailedAt(runs)| + |PassedAt(runs)| == |runs|
  {
    if runs != [] {
      FailedRunsCount(Front(runs), id);
      FailedAtStep(runs);
      PassedAtStep(runs);
      FailedAsStep(runs, id);
    }
  }

  /** A run fails if its summary counts a failed test; the failing runs are counted and listed by id, in order. */
  lemma RunsAreCounted(runs: seq<RunSummary>, s: RepeatSummary)
    requires IsAggregate(runs, s)
    ensures s.runs == |runs| && s.failingRuns == |FailedAt(runs)| && s.passingRuns == |PassedAt(runs)|
    ensures forall id :: multiset(s.failedRunIds)[id] == |FailedAs(runs, id)|
    ensures forall i, j :: 0 <= i < j < |s.failedRunIds| ==>
      s.failedRunIds[i] == s.failedRunIds[j] || Precedes(s.failedRunIds[i], s.failedRunIds[j])
  {
    forall id
      ensures multiset(s.failedRunIds)[id] == |FailedAs(runs, id)|
    {
      FailedRunsCount(runs, id);
    }
    FailedRunsCount(runs, "");
    forall i, j | 0 <= i < j < |s.failedRunIds|
      ensures s.failedRunIds[i] == s.failedRunIds[j] || Precedes(s.failedRunIds[i], s.failedRunIds[j])
    {
      StringLessTotal(s.failedRunIds[i], s.failedRunIds[j]);
      StringLessIsPrecedes(s.failedRunIds[i], s.failedRunIds[j]);
    }
  }

  // ---- scenarios ----

  function ExecutedAt(tests: seq<TestRow>, name: string): set<nat> {
    set k | 0 <= k < |tests| && tests[k].name == name
  }

  function EndedAt(tests: seq<TestRow>, name: string, status: string): set<nat> {
    set k | 0 <= k < |tests| && tests[k].name == name && tests[k].status == status
  }

  function TookAt(tests: seq<TestRow>, name: string, d: real): set<nat> {
    set k | 0 <= k < |tests| && tests[k].name == name && tests[k].elapsed == d
  }

  lemma ExecutedAtStep(tests: seq<TestRow>, name: string)
    requires tests != []
    ensures |ExecutedAt(tests, name)| == |ExecutedAt(Front(tests), name)| + if Last(tests).name == name then 1 else 0
  {
    var n := |tests| - 1;
    assert ExecutedAt(tests, name) == ExecutedAt(Front(tests), name) + if Last(tests).name == name then {n} else {};
  }

  lemma TookAtStep(tests: seq<TestRow>, name: string, d: real)
    requires tests != []
    ensures |TookAt(tests, name, d)|
            == |TookAt(Front(tests), name, d)| + if Last(tests).name == name && Last(tests).elapsed == d then 1 else 0
  {
    var n := |tests| - 1;
    assert TookAt(tests, name, d)
        == TookAt(Front(tests), name, d) + if Last(tests).name == name && Last(tests).elapsed == d then {n} else {};
  }

  lemma EndedAtStep(tests: seq<TestRow>, name: string, status: string)
    requires tests != []
    ensures |EndedAt(tests, name, status)|
            == |EndedAt(Front(tests), name, status)|
               + if Last(tests).name == name && Last(tests).status == status then 1 else 0
  {
    var n := |tests| - 1;
    assert EndedAt(tests, name, status)
        == EndedAt(Front(tests), name, status)
           + if Last(tests).name == name && Last(tests).status == status then {n} else {};
  }

  lemma {:induction false} DurationsCount(tests: seq<TestRow>, name: string, d: real)
    ensures |Bag(tests, ElapsedOf(name))| == |ExecutedAt(tests, name)|
    ensures Bag(tests, ElapsedOf(name))[d] == |TookAt(tests, name, d)|
  {
    if tests != [] {
      DurationsCount(Front(tests), name, d);
      ExecutedAtStep(tests, name);
      TookAtStep(tests, name, d);
    }
  }

  lemma {:induction false} StatusesCount(tests: seq<TestRow>, name: string, status: string)
    ensures |Bag(tests, StatusOf(name, status))| == |EndedAt(tests, name, status)|
  {
    if tests != [] {
      StatusesCount(Front(tests), name, status);
      EndedAtStep(tests, name, status);
    }
  }

  /** A scenario's numbers are those of the tests of its name: how many, how they ended, how long they took. */
  lemma ScenarioIsCounted(runs: seq<RunSummary>, s: RepeatSummary, i: nat)
    requires IsAggregate(runs, s) && i < |s.scenarios|
    ensures var a, tests := s.scenarios[i], AllTests(runs);
      && a.executions == |a.durations| == |ExecutedAt(tests, a.name)| > 0
      && a.passed == |EndedAt(tests, a.name, "pass")| && a.failed == |EndedAt(tests, a.name, "fail")|
      && (forall d :: multiset(a.durations)[d] == |TookAt(tests, a.name, d)|)
      && (forall j, k :: 0 <= j < k < |a.durations| ==> a.durations[j] <= a.durations[k])
  {
    var a, tests := s.scenarios[i], AllTests(runs);
    StatusesCount(tests, a.name, "pass");
    StatusesCount(tests, a.name, "fail");
    assert |a.durations| == |multiset(a.durations)|;
    forall d
      ensures multiset(a.durations)[d] == |TookAt(tests, a.name, d)| && |a.durations| == |ExecutedAt(tests, a.name)|
    {
      DurationsCount(tests, a.name, d);
    }
    DurationsCount(tests, a.name, 0.0);
    assert forall j, k :: 0 <= j < k < |a.durations| ==> !Less(a.durations[k], a.durations[j]);
  }

  /** Scenarios are listed by name, ascending, none twice. */
  lemma ScenariosAreOrdered(runs: seq<RunSummary>, s: RepeatSummary, i: nat, j: nat)
    requires IsAggregate(runs, s) && i < j < |s.scenarios|
    ensures Precedes(s.scenarios[i].name, s.scenarios[j].name)
  {
    StringLessTotal(s.scenarios[i].name, s.scenarios[j].name);
    StringLessIsPrecedes(s.scenarios[i].name, s.scenarios[j].name);
    assert !NameLess(s.scenarios[j], s.scenarios[i]);
  }
}
