/**
 Collapsing a `go test -json` event stream into one result per test. Events of different tests may be
 interleaved in any way; results are kept in a map under a composite key, parents of other tests are
 dropped, and the rest is counted and sorted. Map iteration orders are left open everywhere.
 */
module TestReport {
  import opened Wrappers
  import opened Sorting

  datatype GoTestEvent = GoTestEvent(action: string, pkg: string, test: string, elapsed: real, output: string)

  datatype TestResult = TestResult(pkg: string, name: string, status: string, elapsed: real, output: string)

  datatype Summary = Summary(
    runId: string, generatedAt: int, passed: nat, failed: nat, skipped: nat, duration: real, tests: seq<TestResult>)

  type Results = map<string, TestResult>

  // ---- the table of results ----

  function Key(pkg: string, test: string): string {
    pkg + ['\0'] + test
  }

  predicate Terminal(action: string) {
    action == "pass" || action == "fail" || action == "skip"
  }

  function Fresh(pkg: string, test: string): TestResult {
    TestResult(pkg, test, "running", 0.0, "")
  }

  function Absorb(r: TestResult, e: GoTestEvent): TestResult {
    var r' := r.(output := r.output + e.output);
    if Terminal(e.action) then r'.(status := e.action, elapsed := e.elapsed) else r'
  }

  function Extend(table: Results, e: GoTestEvent): Results {
    if e.test == "" then table
    else
      var key := Key(e.pkg, e.test);
      table[key := Absorb(if key in table then table[key] else Fresh(e.pkg, e.test), e)]
  }

  function Table(es: seq<GoTestEvent>): Results {
    if es == [] then map[] else Extend(Table(Front(es)), Last(es))
  }

  /** The longest package-level elapsed time, at least 0. */
  function Duration(es: seq<GoTestEvent>): real {
    if es == [] then 0.0
    else
      var before := Duration(Front(es));
      if Last(es).test == "" && Last(es).elapsed > before then Last(es).elapsed else before
  }

  // ---- the report ----

  predicate IsAncestor(candidate: TestResult, other: TestResult) {
    candidate.pkg == other.pkg && candidate.name + "/" <= other.name
  }

  predicate HasDescendant(table: Results, key: string)
    requires key in table
  {
    exists other :: other in table && IsAncestor(table[key], table[other])
  }

  const UNFINISHED := "test stream ended without a terminal event\n"

  function Finalize(r: TestResult): TestResult {
    if r.status == "running" then r.(status := "fail", output := r.output + UNFINISHED) else r
  }

  function Leaves(table: Results): set<string> {
    set key | key in table && !HasDescendant(table, key)
  }

  function LeafResults(table: Results): set<TestResult> {
    set key | key in Leaves(table) :: Finalize(table[key])
  }

  function Having(results: set<TestResult>, status: string): set<TestResult> {
    set r | r in results && r.status == status
  }

  predicate Before(a: TestResult, b: TestResult) {
    if a.pkg == b.pkg then StringLess(a.name, b.name) else StringLess(a.pkg, b.pkg)
  }

  /** The summary reports exactly the leaf results, each once, in order, and counts them by status. */
  ghost predicate IsReport(table: Results, s: Summary) {
    && Distinct(s.tests) && Elements(s.tests) == LeafResults(table)
    && Sorted(s.tests, Before)
    && s.passed == |Having(LeafResults(table), "pass")|
    && s.skipped == |Having(LeafResults(table), "skip")|
    && s.passed + s.skipped + s.failed == |LeafResults(table)|
  }

  // ---- facts about the table ----

  /** Every entry is stored under the key of its own package and name, with one of four statuses. */
  ghost predicate WellKeyed(table: Results) {
    forall key :: key in table ==>
      && Key(table[key].pkg, table[key].name) == key
      && (Terminal(table[key].status) || table[key].status == "running")
  }

  lemma {:induction false} TableIsWellKeyed(es: seq<GoTestEvent>)
    ensures WellKeyed(Table(es))
  {
    if es != [] {
      TableIsWellKeyed(Front(es));
    }
  }

  /** Different keys give results that differ in package or name, so the report order never ties. */
  lemma LeafResultsDoNotTie(table: Results, a: string, b: string)
    requires WellKeyed(table) && a in table && b in table && a != b
    ensures Finalize(table[a]) != Finalize(table[b])
    ensures Before(Finalize(table[a]), Finalize(table[b])) || Before(Finalize(table[b]), Finalize(table[a]))
  {
    StringLessTotal(table[a].name, table[b].name);
    StringLessTotal(table[a].pkg, table[b].pkg);
  }

  lemma BeforeIsStrictWeakOrder()
    ensures StrictWeakOrder(Before)
  {
    StringOrder();
    forall a, b, c | !Before(b, a) && !Before(c, b)
      ensures !Before(c, a)
    {
      assert !StringLess(b.pkg, a.pkg) && !StringLess(c.pkg, b.pkg);
      assert !StringLess(c.pkg, a.pkg);
      if a.pkg == c.pkg {
        assert StringLess(a.pkg, b.pkg) || StringLess(b.pkg, a.pkg) || a.pkg == b.pkg;
      }
    }
  }

  // ---- Parse ----

  predicate Decoded(lines: seq<Option<GoTestEvent>>) {
    forall i :: 0 <= i < |lines| ==> lines[i].Some?
  }

  function Events(lines: seq<Option<GoTestEvent>>): (es: seq<GoTestEvent>)
    requires Decoded(lines)
    ensures |es| == |lines| && forall i :: 0 <= i < |lines| ==> Some(es[i]) == lines[i]
  {
    seq(|lines|, i requires 0 <= i < |lines| => lines[i].value)
  }

  lemma EventsStep(lines: seq<Option<GoTestEvent>>, i: nat)
    requires i < |lines| && Decoded(lines[..i]) && lines[i].Some?
    ensures Decoded(lines[..i + 1]) && Events(lines[..i + 1]) == Events(lines[..i]) + [lines[i].value]
    ensures Table(Events(lines[..i + 1])) == Extend(Table(Events(lines[..i])), lines[i].value)
    ensures Duration(Events(lines[..i + 1])) ==
      if lines[i].value.test == "" && lines[i].value.elapsed > Duration(Events(lines[..i])) then lines[i].value.elapsed
      else Duration(Events(lines[..i]))
  {
    assert Events(lines[..i + 1]) == Events(lines[..i]) + [lines[i].value];
    FrontOfAppend(Events(lines[..i]), lines[i].value);
  }

  /** One test event goes into the table. */
  method AddEvent(table: Results, event: GoTestEvent) returns (table': Results)
    requires event.test != ""
    ensures table' == Extend(table, event)
  {
    var key := event.pkg + ['\0'] + event.test;
    var result;
    if key in table {
      result := table[key];
    } else {
      result := TestResult(event.pkg, event.test, "running", 0.0, "");
    }
    assert result.output + "" == result.output;
    if event.output != "" {
      result := result.(output := result.output + event.output);
    }
    if event.action == "pass" || event.action == "fail" || event.action == "skip" {
      result := result.(status := event.action, elapsed := event.elapsed);
    }
    table' := table[key := result];
  }

  method ReadEvents(lines: seq<Option<GoTestEvent>>) returns (ok: bool, table: Results, duration: real)
    ensures ok <==> Decoded(lines)
    ensures ok ==> table == Table(Events(lines)) && duration == Duration(Events(lines))
  {
    table, duration := map[], 0.0;
    for i := 0 to |lines|
      invariant Decoded(lines[..i])
      invariant table == Table(Events(lines[..i])) && duration == Duration(Events(lines[..i]))
    {
      if lines[i].None? {
        return false, table, duration;
      }
      var event := lines[i].value;
      EventsStep(lines, i);
      if event.test == "" {
        if event.elapsed > duration {
          duration := event.elapsed;
        }
      } else {
        table := AddEvent(table, event);
      }
    }
    assert lines[..|lines|] == lines;
    ok := true;
  }

  method FindParents(table: Results) returns (parents: set<string>)
    ensures parents == table.Keys - Leaves(table)
  {
    parents := {};
    var candidates := table.Keys;
    while candidates != {}
      invariant candidates <= table.Keys
      invariant parents == (table.Keys - candidates) - Leaves(table)
      decreases candidates
    {
      var key :| key in candidates;
      candidates := candidates - {key};
      var isParent := false;
      var others := table.Keys;
      while others != {} && !isParent
        invariant others <= table.Keys
        invariant isParent ==> HasDescendant(table, key)
        invariant !isParent ==> forall other :: other in table.Keys - others ==> !IsAncestor(table[key], table[other])
        decreases others
      {
        var other :| other in others;
        others := others - {other};
        isParent := key != other && table[key].pkg == table[other].pkg && table[key].name + "/" <= table[other].name;
      }
      if isParent {
        parents := parents + {key};
      }
    }
  }

  /** The results of the keys in `done` that are leaves. */
  function Reported(table: Results, done: set<string>): set<TestResult> {
    set key | key in done && key in Leaves(table) :: Finalize(table[key])
  }

  lemma ReportedAdds(table: Results, done: set<string>, key: string)
    requires WellKeyed(table) && done <= table.Keys && key in Leaves(table) && key !in done
    ensures Reported(table, done + {key}) == Reported(table, done) + {Finalize(table[key])}
    ensures Finalize(table[key]) !in Reported(table, done)
  {
    forall k | k in done && k in Leaves(table)
      ensures Finalize(table[k]) != Finalize(table[key])
    {
      LeafResultsDoNotTie(table, k, key);
    }
  }

  lemma HavingAdds(results: set<TestResult>, r: TestResult, status: string)
    requires r !in results
    ensures |Having(results + {r}, status)| == |Having(results, status)| + if r.status == status then 1 else 0
  {
    if r.status == status {
      assert Having(results + {r}, status) == Having(results, status) + {r};
    } else {
      assert Having(results + {r}, status) == Having(results, status);
    }
  }

  /** Counts and collected results so far. */
  ghost predicate Counted(results: set<TestResult>, tests: seq<TestResult>, passed: nat, failed: nat, skipped: nat) {
    && Distinct(tests) && Elements(tests) == results
    && passed == |Having(results, "pass")| && skipped == |Having(results, "skip")|
    && passed + skipped + failed == |results|
  }

  lemma CountedAdds(results: set<TestResult>, tests: seq<TestResult>, passed: nat, failed: nat, skipped: nat,
                    r: TestResult)
    requires Counted(results, tests, passed, failed, skipped) && r !in results
    ensures r.status == "pass" ==> Counted(results + {r}, tests + [r], passed + 1, failed, skipped)
    ensures r.status == "skip" ==> Counted(results + {r}, tests + [r], passed, failed, skipped + 1)
    ensures r.status != "pass" && r.status != "skip" ==>
      Counted(results + {r}, tests + [r], passed, failed + 1, skipped)
  {
    HavingAdds(results, r, "pass");
    HavingAdds(results, r, "skip");
    assert Elements(tests + [r]) == results + {r};
    assert "pass"[0] == 'p' && "skip"[0] == 's';
  }

  /** One leaf's result, as reported. */
  method Conclude(result: TestResult) returns (r: TestResult)
    ensures r == Finalize(result)
  {
    r := result;
    if result.status == "running" {
      r := result.(status := "fail", output := result.output + UNFINISHED);
    }
  }

  method Tally(tests: seq<TestResult>, passed: nat, failed: nat, skipped: nat, result: TestResult,
               ghost results: set<TestResult>)
    returns (tests': seq<TestResult>, passed': nat, failed': nat, skipped': nat)
    requires Counted(results, tests, passed, failed, skipped) && result !in results
    ensures Counted(results + {result}, tests', passed', failed', skipped')
  {
    CountedAdds(results, tests, passed, failed, skipped, result);
    tests', passed', failed', skipped' := tests + [result], passed, failed, skipped;
    if result.status == "pass" {
      passed' := passed + 1;
    } else if result.status == "skip" {
      skipped' := skipped + 1;
    } else {
      failed' := failed + 1;
    }
  }

  lemma ParentsAreNotReported(table: Results, done: set<string>, key: string)
    requires key !in Leaves(table)
    ensures Reported(table, done + {key}) == Reported(table, done)
  {
  }

  lemma EverythingReported(table: Results)
    ensures Reported(table, table.Keys) == LeafResults(table)
    ensures Reported(table, {}) == {}
  {
  }

  /** One key of the iteration. */
  method CollectOne(table: Results, parents: set<string>, key: string, ghost done: set<string>,
                    tests: seq<TestResult>, passed: nat, failed: nat, skipped: nat)
    returns (tests': seq<TestResult>, passed': nat, failed': nat, skipped': nat)
    requires WellKeyed(table) && parents == table.Keys - Leaves(table)
    requires done <= table.Keys && key in table && key !in done
    requires Counted(Reported(table, done), tests, passed, failed, skipped)
    ensures Counted(Reported(table, done + {key}), tests', passed', failed', skipped')
  {
    if key in parents {
      ParentsAreNotReported(table, done, key);
      return tests, passed, failed, skipped;
    }
    ReportedAdds(table, done, key);
    var result := Conclude(table[key]);
    tests', passed', failed', skipped' := Tally(tests, passed, failed, skipped, result, Reported(table, done));
  }

  /** `remaining` is what a map iteration has still to visit. */
  ghost predicate Visiting(table: Results, remaining: set<string>, done: set<string>) {
    remaining + done == table.Keys && remaining !! done
  }

  lemma VisitOne(table: Results, remaining: set<string>, done: set<string>, key: string)
    requires Visiting(table, remaining, done) && key in remaining
    ensures Visiting(table, remaining - {key}, done + {key}) && key in table && key !in done && done <= table.Keys
  {
  }

  method CollectLeaves(table: Results, parents: set<string>)
    returns (tests: seq<TestResult>, passed: nat, failed: nat, skipped: nat)
    requires WellKeyed(table) && parents == table.Keys - Leaves(table)
    ensures Counted(LeafResults(table), tests, passed, failed, skipped)
  {
    EverythingReported(table);
    tests, passed, failed, skipped := [], 0, 0, 0;
    var remaining := table.Keys;
    ghost var done: set<string> := {};
    while remaining != {}
      invariant Visiting(table, remaining, done)
      invariant Counted(Reported(table, done), tests, passed, failed, skipped)
      decreases remaining
    {
      var key :| key in remaining;
      VisitOne(table, remaining, done, key);
      tests, passed, failed, skipped := CollectOne(table, parents, key, done, tests, passed, failed, skipped);
      remaining, done := remaining - {key}, done + {key};
    }
    assert done == table.Keys;
  }

  /** None is the error return: a line that does not decode, or a failing reader. */
  method Parse(lines: seq<Option<GoTestEvent>>, readError: bool, runId: string, now: int) returns (r: Option<Summary>)
    ensures r.Some? <==> Decoded(lines) && !readError
    ensures r.Some? ==>
      && r.value.runId == runId && r.value.generatedAt == now
      && r.value.duration == Duration(Events(lines))
      && IsReport(Table(Events(lines)), r.value)
  {
    var ok, table, duration := ReadEvents(lines);
    if !ok || readError {
      return None;
    }
    TableIsWellKeyed(Events(lines));
    var parents := FindParents(table);
    var tests, passed, failed, skipped := CollectLeaves(table, parents);
    BeforeIsStrictWeakOrder();
    var sorted := Sort(tests, Before);
    DistinctPermutes(tests, sorted);
    r := Some(Summary(runId, now, passed, failed, skipped, duration, sorted));
  }

  // ---- toJUnit ----

  datatype JunitCase = JunitCase(
    name: string, className: string, time: real, failure: Option<string>, skipped: bool, output: string)

  datatype JunitSuite = JunitSuite(
    name: string, tests: nat, failures: nat, skipped: nat, time: real, cases: seq<JunitCase>)

  /** One case stands for one result: marked failed with its output, marked skipped, or unmarked. */
  predicate StandsFor(item: JunitCase, r: TestResult) {
    && item.name == r.name && item.className == r.pkg && item.time == r.elapsed && item.output == r.output
    && item.failure == (if r.status == "fail" then Some(r.output) else None)
    && item.skipped == (r.status == "skip")
  }

  /** The suite carries the run's id and counts, and one case per test in the same order. */
  ghost predicate IsJunit(s: Summary, suite: JunitSuite) {
    && suite.name == s.runId && suite.time == s.duration
    && suite.tests == |s.tests| == |suite.cases|
    && suite.failures == s.failed && suite.skipped == s.skipped
    && forall i :: 0 <= i < |s.tests| ==> StandsFor(suite.cases[i], s.tests[i])
  }

  method ToJunit(s: Summary) returns (suite: JunitSuite)
    ensures IsJunit(s, suite)
  {
    var cases: seq<JunitCase> := [];
    for i := 0 to |s.tests|
      invariant |cases| == i
      invariant forall j :: 0 <= j < i ==> StandsFor(cases[j], s.tests[j])
    {
      var result := s.tests[i];
      var item := JunitCase(result.name, result.pkg, result.elapsed, None, false, result.output);
      if result.status == "fail" {
        item := item.(failure := Some(result.output));
      } else if result.status == "skip" {
        item := item.(skipped := true);
      }
      cases := cases + [item];
    }
    suite := JunitSuite(s.runId, |cases|, s.failed, s.skipped, s.duration, cases);
  }
}
