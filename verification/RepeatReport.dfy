/**
 Aggregating the summaries of repeated runs: counts of passing and failing runs, and per scenario name
 the number of executions, passes and failures, the nearest-rank 95th percentile and the maximum of its
 durations. Durations are exact numbers.
 */
module RepeatReport {
  import opened Wrappers
  import opened Sorting

  datatype TestRow = TestRow(name: string, status: string, elapsed: real)

  datatype RunSummary = RunSummary(
    runId: string, passed: int, failed: int, skipped: int, duration: real, tests: seq<TestRow>)

  /** What the directory listing yields for one entry. */
  datatype DirEntry = NotADirectory | NoSummary | Corrupt(name: string) | HasSummary(run: RunSummary)

  datatype ScenarioAggregate = ScenarioAggregate(
    name: string, executions: nat, passed: nat, failed: nat, p95: real, max: real, durations: seq<real>)

  datatype RepeatSummary = RepeatSummary(
    generatedAt: int, runs: nat, passingRuns: nat, failingRuns: nat, scenarioExecutions: nat,
    scenarios: seq<ScenarioAggregate>, failedRunIds: seq<string>)

  datatype Aggregation = Aggregated(summary: RepeatSummary) | DecodeFailed(name: string) | NoRuns

  // ---- bags: what a sequence amounts to regardless of order ----

  function Bag<T, U>(s: seq<T>, f: T -> multiset<U>): multiset<U> {
    if s == [] then multiset{} else Bag(Front(s), f) + f(Last(s))
  }

  lemma BagAppend<T, U>(s: seq<T>, x: T, f: T -> multiset<U>)
    ensures Bag(s + [x], f) == Bag(s, f) + f(x)
  {
    FrontOfAppend(s, x);
  }

  lemma {:induction false} BagConcat<T, U>(a: seq<T>, b: seq<T>, f: T -> multiset<U>)
    ensures Bag(a + b, f) == Bag(a, f) + Bag(b, f)
  {
    if b == [] {
      assert a + b == a;
    } else {
      BagConcat(a, Front(b), f);
      assert Front(a + b) == a + Front(b);
    }
  }

  function TestsOf(): RunSummary -> multiset<TestRow> {
    (r: RunSummary) => multiset(r.tests)
  }

  function FailedIdOf(): RunSummary -> multiset<string> {
    (r: RunSummary) => if r.failed == 0 then multiset{} else multiset{r.runId}
  }

  function ElapsedOf(name: string): TestRow -> multiset<real> {
    (t: TestRow) => if t.name == name then multiset{t.elapsed} else multiset{}
  }

  function StatusOf(name: string, status: string): TestRow -> multiset<string> {
    (t: TestRow) => if t.name == name && t.status == status then multiset{name} else multiset{}
  }

  function AllTests(runs: seq<RunSummary>): seq<TestRow> {
    if runs == [] then [] else AllTests(Front(runs)) + Last(runs).tests
  }

  // ---- what the aggregate is ----

  /** ceil(n * 19/20) - 1 */
  function RankIndex(n: int): int {
    (19 * n + 19) / 20 - 1
  }

  predicate Less(a: real, b: real) { a < b }

  predicate NameLess(a: ScenarioAggregate, b: ScenarioAggregate) {
    StringLess(a.name, b.name)
  }

  /** Everything but the percentile and maximum, which wait for the sort. */
  ghost predicate Tallied(tests: seq<TestRow>, a: ScenarioAggregate) {
    && multiset(a.durations) == Bag(tests, ElapsedOf(a.name))
    && a.executions == |a.durations| > 0
    && a.passed == |Bag(tests, StatusOf(a.name, "pass"))|
    && a.failed == |Bag(tests, StatusOf(a.name, "fail"))|
  }

  ghost predicate IsScenario(tests: seq<TestRow>, a: ScenarioAggregate) {
    && Tallied(tests, a)
    && Sorted(a.durations, Less)
    && a.max == Last(a.durations)
    && 0 <= RankIndex(|a.durations|) < |a.durations| && a.p95 == a.durations[RankIndex(|a.durations|)]
  }

  ghost predicate Named(tests: seq<TestRow>, name: string) {
    exists i :: 0 <= i < |tests| && tests[i].name == name
  }

  function NamesOf(scenarios: seq<ScenarioAggregate>): set<string> {
    if scenarios == [] then {} else NamesOf(Front(scenarios)) + {Last(scenarios).name}
  }

  ghost predicate IsAggregate(runs: seq<RunSummary>, s: RepeatSummary) {
    var tests := AllTests(runs);
    && s.runs == |runs| > 0
    && s.failingRuns == |Bag(runs, FailedIdOf())| && s.passingRuns + s.failingRuns == s.runs
    && s.scenarioExecutions == |tests|
    && (forall i :: 0 <= i < |s.scenarios| ==> IsScenario(tests, s.scenarios[i]))
    && (forall i, j :: 0 <= i < j < |s.scenarios| ==> s.scenarios[i].name != s.scenarios[j].name)
    && (forall name :: name in NamesOf(s.scenarios) <==> Named(tests, name))
    && Sorted(s.scenarios, NameLess)
    && Sorted(s.failedRunIds, StringLess) && multiset(s.failedRunIds) == Bag(runs, FailedIdOf())
  }

  // ---- reading the runs ----

  function Runs(entries: seq<DirEntry>): seq<RunSummary> {
    if entries == [] then []
    else match Last(entries)
      case HasSummary(run) => Runs(Front(entries)) + [run]
      case _ => Runs(Front(entries))
  }

  type ByScenario = map<string, ScenarioAggregate>

  ghost predicate TableOf(tests: seq<TestRow>, table: ByScenario) {
    && (forall name :: name in table <==> Named(tests, name))
    && AllTallied(tests, table)
  }

  ghost predicate AllTallied(tests: seq<TestRow>, table: ByScenario) {
    forall name :: TalliedAt(tests, table, name)
  }

  ghost predicate TalliedAt(tests: seq<TestRow>, table: ByScenario, name: string) {
    name in table ==> table[name].name == name && Tallied(tests, table[name])
  }

  lemma BagOfUnnamed(tests: seq<TestRow>, name: string, status: string)
    requires !Named(tests, name)
    ensures Bag(tests, ElapsedOf(name)) == multiset{} && Bag(tests, StatusOf(name, status)) == multiset{}
  {
    if tests != [] {
      assert Last(tests).name == tests[|tests| - 1].name;
      assert forall i :: 0 <= i < |Front(tests)| ==> Front(tests)[i] == tests[i];
      BagOfUnnamed(Front(tests), name, status);
    }
  }

  lemma NamedAppend(tests: seq<TestRow>, t: TestRow, name: string)
    ensures Named(tests + [t], name) <==> Named(tests, name) || t.name == name
  {
    if i :| 0 <= i < |tests| && tests[i].name == name {
      assert (tests + [t])[i].name == name;
    }
    assert (tests + [t])[|tests|] == t;
  }

  /** Scenarios other than the test's own do not notice it. */
  lemma TalliedOther(tests: seq<TestRow>, t: TestRow, a: ScenarioAggregate)
    requires Tallied(tests, a) && t.name != a.name
    ensures Tallied(tests + [t], a)
  {
    BagAppend(tests, t, ElapsedOf(a.name));
    BagAppend(tests, t, StatusOf(a.name, "pass"));
    BagAppend(tests, t, StatusOf(a.name, "fail"));
  }

  lemma StatusCountStep(tests: seq<TestRow>, t: TestRow, status: string)
    ensures |Bag(tests + [t], StatusOf(t.name, status))| ==
      |Bag(tests, StatusOf(t.name, status))| + if t.status == status then 1 else 0
  {
    BagAppend(tests, t, StatusOf(t.name, status));
  }

  lemma DurationsStep(tests: seq<TestRow>, t: TestRow, durations: seq<real>)
    requires multiset(durations) == Bag(tests, ElapsedOf(t.name))
    ensures multiset(durations + [t.elapsed]) == Bag(tests + [t], ElapsedOf(t.name))
  {
    BagAppend(tests, t, ElapsedOf(t.name));
  }

  /** The test's own scenario, brand new or extended. */
  lemma TalliedOwn(tests: seq<TestRow>, t: TestRow, a: ScenarioAggregate, b: ScenarioAggregate)
    requires a.name == b.name == t.name && a.executions == |a.durations|
    requires multiset(a.durations) == Bag(tests, ElapsedOf(t.name))
    requires a.passed == |Bag(tests, StatusOf(t.name, "pass"))| && a.failed == |Bag(tests, StatusOf(t.name, "fail"))|
    requires b.durations == a.durations + [t.elapsed] && b.executions == a.executions + 1
    requires b.passed == a.passed + if t.status == "pass" then 1 else 0
    requires b.failed == a.failed + if t.status == "fail" then 1 else 0
    ensures Tallied(tests + [t], b)
  {
    DurationsStep(tests, t, a.durations);
    StatusCountStep(tests, t, "pass");
    StatusCountStep(tests, t, "fail");
  }

  lemma TableExtends(tests: seq<TestRow>, t: TestRow, table: ByScenario, own: ScenarioAggregate)
    requires TableOf(tests, table) && own.name == t.name && Tallied(tests + [t], own)
    ensures TableOf(tests + [t], table[t.name := own])
  {
    var table' := table[t.name := own];
    forall name
      ensures name in table' <==> Named(tests + [t], name)
    {
      NamedAppend(tests, t, name);
    }
    AllTalliedExtends(tests, t, table, own);
  }

  lemma AllTalliedExtends(tests: seq<TestRow>, t: TestRow, table: ByScenario, own: ScenarioAggregate)
    requires AllTallied(tests, table) && own.name == t.name && Tallied(tests + [t], own)
    ensures AllTallied(tests + [t], table[t.name := own])
  {
    var tests', table' := tests + [t], table[t.name := own];
    forall name
      ensures TalliedAt(tests', table', name)
    {
      if name in table && name != t.name {
        assert TalliedAt(tests, table, name);
        TalliedOther(tests, t, table[name]);
      }
    }
  }

  method AddTest(table: ByScenario, t: TestRow, ghost tests: seq<TestRow>) returns (table': ByScenario)
    requires TableOf(tests, table)
    ensures TableOf(tests + [t], table')
  {
    var scenario := ScenarioAggregate(t.name, 0, 0, 0, 0.0, 0.0, []);
    if t.name in table {
      assert TalliedAt(tests, table, t.name);
      scenario := table[t.name];
    } else {
      BagOfUnnamed(tests, t.name, "pass");
      BagOfUnnamed(tests, t.name, "fail");
    }
    ghost var before := scenario;
    scenario := scenario.(executions := scenario.executions + 1, durations := scenario.durations + [t.elapsed]);
    if t.status == "pass" {
      scenario := scenario.(passed := scenario.passed + 1);
    } else if t.status == "fail" {
      scenario := scenario.(failed := scenario.failed + 1);
    }
    TalliedOwn(tests, t, before, scenario);
    TableExtends(tests, t, table, scenario);
    table' := table[t.name := scenario];
  }

  method AddTests(table: ByScenario, added: seq<TestRow>, ghost tests: seq<TestRow>) returns (table': ByScenario)
    requires TableOf(tests, table)
    ensures TableOf(tests + added, table')
  {
    table' := table;
    assert tests + added[..0] == tests;
    for i := 0 to |added|
      invariant TableOf(tests + added[..i], table')
    {
      table' := AddTest(table', added[i], tests + added[..i]);
      assert (tests + added[..i]) + [added[i]] == tests + added[..i + 1];
    }
    assert added[..|added|] == added;
  }

  /** The runs seen so far, counted and collected. */
  ghost predicate Read(runs: seq<RunSummary>, s: RepeatSummary, table: ByScenario) {
    && s.runs == |runs|
    && s.failingRuns == |Bag(runs, FailedIdOf())| && s.passingRuns + s.failingRuns == s.runs
    && s.scenarioExecutions == |AllTests(runs)|
    && multiset(s.failedRunIds) == Bag(runs, FailedIdOf())
    && s.scenarios == []
    && TableOf(AllTests(runs), table)
  }

  method AddRun(s: RepeatSummary, table: ByScenario, run: RunSummary, ghost runs: seq<RunSummary>)
    returns (s': RepeatSummary, table': ByScenario)
    requires Read(runs, s, table)
    ensures Read(runs + [run], s', table') && s'.generatedAt == s.generatedAt
  {
    FrontOfAppend(runs, run);
    BagAppend(runs, run, FailedIdOf());
    s' := s.(runs := s.runs + 1);
    if run.failed == 0 {
      s' := s'.(passingRuns := s.passingRuns + 1);
    } else {
      s' := s'.(failingRuns := s.failingRuns + 1, failedRunIds := s.failedRunIds + [run.runId]);
    }
    s' := s'.(scenarioExecutions := s.scenarioExecutions + |run.tests|);
    table' := AddTests(table, run.tests, AllTests(runs));
  }

  predicate IsCorrupt(entry: DirEntry) { entry.Corrupt? }

  lemma RunsStep(entries: seq<DirEntry>, i: nat)
    requires i < |entries|
    ensures Runs(entries[..i + 1]) ==
      if entries[i].HasSummary? then Runs(entries[..i]) + [entries[i].run] else Runs(entries[..i])
  {
    assert Front(entries[..i + 1]) == entries[..i];
  }

  lemma NothingRead(now: int)
    ensures Read([], RepeatSummary(now, 0, 0, 0, 0, [], []), map[])
  {
  }

  method ReadRuns(entries: seq<DirEntry>, now: int)
    returns (corrupt: Option<string>, s: RepeatSummary, table: ByScenario)
    ensures corrupt.None? <==> forall i :: 0 <= i < |entries| ==> !IsCorrupt(entries[i])
    ensures corrupt.Some? ==> exists i :: 0 <= i < |entries| && entries[i] == Corrupt(corrupt.value) &&
                                          forall j :: 0 <= j < i ==> !IsCorrupt(entries[j])
    ensures corrupt.None? ==> Read(Runs(entries), s, table) && s.generatedAt == now
  {
    corrupt, s, table := None, RepeatSummary(now, 0, 0, 0, 0, [], []), map[];
    NothingRead(now);
    ghost var runs: seq<RunSummary> := [];
    for i := 0 to |entries|
      invariant forall j :: 0 <= j < i ==> !IsCorrupt(entries[j])
      invariant runs == Runs(entries[..i]) && Read(runs, s, table) && s.generatedAt == now
    {
      RunsStep(entries, i);
      if entries[i].Corrupt? {
        assert IsCorrupt(entries[i]);
        return Some(entries[i].name), s, table;
      }
      if entries[i].HasSummary? {
        s, table := AddRun(s, table, entries[i].run, runs);
        runs := runs + [entries[i].run];
      }
    }
    assert entries[..|entries|] == entries;
  }

  // ---- sorting and ranking ----

  lemma RankInBounds(n: int)
    requires n >= 1
    ensures 0 <= RankIndex(n) < n
  {
  }

  lemma RankedIsScenario(tests: seq<TestRow>, a: ScenarioAggregate, durations: seq<real>, b: ScenarioAggregate)
    requires Tallied(tests, a) && Sorted(durations, Less) && multiset(durations) == multiset(a.durations)
    requires |durations| == |a.durations|
    requires b == a.(durations := durations, max := Last(durations), p95 := b.p95)
    requires 0 <= RankIndex(|durations|) < |durations| && b.p95 == durations[RankIndex(|durations|)]
    ensures IsScenario(tests, b)
  {
  }

  method Rank(a: ScenarioAggregate, ghost tests: seq<TestRow>) returns (b: ScenarioAggregate)
    requires Tallied(tests, a)
    ensures IsScenario(tests, b) && b.name == a.name
  {
    var durations := Sort(a.durations, Less);
    assert |durations| == |multiset(durations)| == |multiset(a.durations)| == |a.durations|;
    var n := |durations|;
    RankInBounds(n);
    var index := (19 * n + 19) / 20 - 1;
    b := a.(durations := durations, max := durations[n - 1], p95 := durations[index]);
    RankedIsScenario(tests, a, durations, b);
  }

  ghost predicate AllRanked(tests: seq<TestRow>, scenarios: seq<ScenarioAggregate>) {
    forall i :: 0 <= i < |scenarios| ==> IsScenario(tests, scenarios[i])
  }

  ghost predicate OnePerName(scenarios: seq<ScenarioAggregate>, names: set<string>) {
    && (forall i, j :: 0 <= i < j < |scenarios| ==> scenarios[i].name != scenarios[j].name)
    && NamesOf(scenarios) == names
  }

  lemma {:induction false} NamesOfMembers(scenarios: seq<ScenarioAggregate>, name: string)
    ensures name in NamesOf(scenarios) <==> exists i :: 0 <= i < |scenarios| && scenarios[i].name == name
  {
    if scenarios != [] {
      NamesOfMembers(Front(scenarios), name);
      if i :| 0 <= i < |scenarios| && scenarios[i].name == name {
        assert i < |scenarios| - 1 ==> Front(scenarios)[i] == scenarios[i];
      }
    }
  }

  lemma OnePerNameAdds(scenarios: seq<ScenarioAggregate>, names: set<string>, a: ScenarioAggregate)
    requires OnePerName(scenarios, names) && a.name !in names
    ensures OnePerName(scenarios + [a], names + {a.name})
  {
    NamesOfMembers(scenarios, a.name);
    FrontOfAppend(scenarios, a);
  }

  lemma AllRankedAdds(tests: seq<TestRow>, scenarios: seq<ScenarioAggregate>, a: ScenarioAggregate)
    requires AllRanked(tests, scenarios) && IsScenario(tests, a)
    ensures AllRanked(tests, scenarios + [a])
  {
  }

  method RankOne(scenarios: seq<ScenarioAggregate>, table: ByScenario, name: string,
                 ghost tests: seq<TestRow>, ghost done: set<string>)
    returns (scenarios': seq<ScenarioAggregate>)
    requires AllTallied(tests, table) && name in table && name !in done
    requires AllRanked(tests, scenarios) && OnePerName(scenarios, done)
    ensures AllRanked(tests, scenarios') && OnePerName(scenarios', done + {name})
  {
    assert TalliedAt(tests, table, name);
    var ranked := Rank(table[name], tests);
    AllRankedAdds(tests, scenarios, ranked);
    OnePerNameAdds(scenarios, done, ranked);
    scenarios' := scenarios + [ranked];
  }

  method RankAll(table: ByScenario, ghost tests: seq<TestRow>) returns (scenarios: seq<ScenarioAggregate>)
    requires AllTallied(tests, table)
    ensures AllRanked(tests, scenarios) && OnePerName(scenarios, table.Keys)
  {
    scenarios := [];
    var remaining := table.Keys;
    while remaining != {}
      invariant remaining <= table.Keys
      invariant AllRanked(tests, scenarios) && OnePerName(scenarios, table.Keys - remaining)
      decreases remaining
    {
      var name :| name in remaining;
      scenarios := RankOne(scenarios, table, name, tests, table.Keys - remaining);
      assert table.Keys - (remaining - {name}) == (table.Keys - remaining) + {name};
      remaining := remaining - {name};
    }
    assert table.Keys - {} == table.Keys;
  }

  /** A permutation lists and ranks the same scenarios. */
  lemma RankingPermutes(tests: seq<TestRow>, a: seq<ScenarioAggregate>, b: seq<ScenarioAggregate>)
    requires AllRanked(tests, a) && multiset(a) == multiset(b)
    ensures AllRanked(tests, b)
  {
    forall i | 0 <= i < |b|
      ensures IsScenario(tests, b[i])
    {
      SameMembers(a, b, b[i]);
      assert b[i] in a;
    }
  }

  lemma NamesPermute(a: seq<ScenarioAggregate>, b: seq<ScenarioAggregate>, names: set<string>)
    requires OnePerName(a, names) && multiset(a) == multiset(b)
    ensures OnePerName(b, names)
  {
    forall name
      ensures name in NamesOf(a) <==> name in NamesOf(b)
    {
      NamesOfMembers(a, name);
      NamesOfMembers(b, name);
      if i :| 0 <= i < |a| && a[i].name == name { SameMembers(a, b, a[i]); }
      if i :| 0 <= i < |b| && b[i].name == name { SameMembers(a, b, b[i]); }
    }
    assert Distinct(a);
    DistinctPermutes(a, b);
    forall i, j | 0 <= i < j < |b|
      ensures b[i].name != b[j].name
    {
      SameMembers(a, b, b[i]);
      SameMembers(a, b, b[j]);
      assert b[i] in a && b[j] in a && b[i] != b[j];
    }
  }

  method Aggregate(entries: seq<DirEntry>, now: int) returns (r: Aggregation)
    ensures r.DecodeFailed? <==> exists i :: 0 <= i < |entries| && IsCorrupt(entries[i])
    ensures r.DecodeFailed? ==> exists i :: 0 <= i < |entries| && entries[i] == Corrupt(r.name) &&
                                            forall j :: 0 <= j < i ==> !IsCorrupt(entries[j])
    ensures r.NoRuns? <==> Runs(entries) == [] && forall i :: 0 <= i < |entries| ==> !IsCorrupt(entries[i])
    ensures r.Aggregated? ==> r.summary.generatedAt == now && IsAggregate(Runs(entries), r.summary)
  {
    var corrupt, s, table := ReadRuns(entries, now);
    if corrupt.Some? {
      return DecodeFailed(corrupt.value);
    }
    if s.runs == 0 {
      return NoRuns;
    }
    ghost var tests := AllTests(Runs(entries));
    var scenarios := RankAll(table, tests);
    StringOrder();
    assert StrictWeakOrder(NameLess);
    var sortedScenarios := Sort(scenarios, NameLess);
    RankingPermutes(tests, scenarios, sortedScenarios);
    NamesPermute(scenarios, sortedScenarios, table.Keys);
    var failedIds := Sort(s.failedRunIds, StringLess);
    r := Aggregated(s.(scenarios := sortedScenarios, failedRunIds := failedIds));
  }
}
