/** What the repeatability aggregate says about the recorded runs. */
module RepeatGuarantees {
  import opened Wrappers
  import opened Sorting
  import opened RepeatReport

  // ---- the percentile ----

  /** Durations at or below `x`. */
  function AtMost(ds: seq<real>, x: real): nat {
    if ds == [] then 0 else AtMost(Front(ds), x) + if Last(ds) <= x then 1 else 0
  }

  /** `x` has at least 95% of the durations at or below it. */
  predicate Covers95(ds: seq<real>, x: real) {
    20 * AtMost(ds, x) >= 19 * |ds|
  }

  lemma {:induction false} AtMostBounds(ds: seq<real>, x: real, k: nat)
    requires k <= |ds|
    ensures (forall i :: 0 <= i < k ==> ds[i] <= x) ==> AtMost(ds, x) >= k
    ensures (forall i :: k <= i < |ds| ==> ds[i] > x) ==> AtMost(ds, x) <= k
  {
    if ds != [] {
      if k == |ds| {
        AtMostBounds(Front(ds), x, k - 1);
      } else {
        AtMostBounds(Front(ds), x, k);
      }
    }
  }

  /** The entry at the nearest rank of a sorted list, and its last entry. */
  lemma RankOfSorted(ds: seq<real>, k: nat)
    requires Sorted(ds, Less) && |ds| >= 1 && k == RankIndex(|ds|) < |ds|
    ensures Covers95(ds, ds[k])
    ensures forall d :: d in ds && Covers95(ds, d) ==> ds[k] <= d
    ensures forall d :: d in ds ==> d <= Last(ds)
  {
    assert forall i :: 0 <= i < |ds| - 1 ==> !Less(ds[|ds| - 1], ds[i]);
    assert forall i :: 0 <= i < k ==> !Less(ds[k], ds[i]);
    AtMostBounds(ds, ds[k], k + 1);
    forall d | d in ds && d < ds[k]
      ensures !Covers95(ds, d)
    {
      assert forall i :: k < i < |ds| ==> !Less(ds[i], ds[k]);
      AtMostBounds(ds, d, k);
    }
  }

  /**
   The reported p95 is the least recorded duration with at least 95% of the durations at or below it,
   and the reported maximum is the greatest.
   */
  lemma PercentileIsNearestRank(tests: seq<TestRow>, a: ScenarioAggregate)
    requires IsScenario(tests, a)
    ensures a.p95 in a.durations && Covers95(a.durations, a.p95)
    ensures forall d :: d in a.durations && Covers95(a.durations, d) ==> a.p95 <= d
    ensures a.max in a.durations && forall d :: d in a.durations ==> d <= a.max
  {
    RankOfSorted(a.durations, RankIndex(|a.durations|));
  }

  /** With fewer than 20 executions the percentile is the maximum. */
  lemma FewExecutions(tests: seq<TestRow>, a: ScenarioAggregate)
    requires IsScenario(tests, a) && a.executions < 20
    ensures a.p95 == a.max
  {
  }

  // ---- conservation ----

  function Executions(scenarios: seq<ScenarioAggregate>): nat {
    if scenarios == [] then 0 else Executions(Front(scenarios)) + Last(scenarios).executions
  }

  /** The tests whose name is not among `names`. */
  function Excluding(names: set<string>): TestRow -> multiset<real> {
    (t: TestRow) => if t.name in names then multiset{} else multiset{t.elapsed}
  }

  /** Taking one more name out of the tests removes exactly that name's executions. */
  lemma {:induction false} ExcludeOneMore(tests: seq<TestRow>, names: set<string>, name: string)
    requires name !in names
    ensures |Bag(tests, Excluding(names))| == |Bag(tests, Excluding(names + {name}))| + |Bag(tests, ElapsedOf(name))|
  {
    if tests != [] {
      ExcludeOneMore(Front(tests), names, name);
    }
  }

  lemma {:induction false} ExcludeNone(tests: seq<TestRow>)
    ensures |Bag(tests, Excluding({}))| == |tests|
  {
    if tests != [] {
      ExcludeNone(Front(tests));
    }
  }

  lemma {:induction false} ExcludeAll(tests: seq<TestRow>, names: set<string>)
    requires forall i :: 0 <= i < |tests| ==> tests[i].name in names
    ensures Bag(tests, Excluding(names)) == multiset{}
  {
    if tests != [] {
      ExcludeAll(Front(tests), names);
    }
  }

  lemma {:induction false} ExecutionsAddUp(tests: seq<TestRow>, scenarios: seq<ScenarioAggregate>)
    requires AllRanked(tests, scenarios)
    requires forall i, j :: 0 <= i < j < |scenarios| ==> scenarios[i].name != scenarios[j].name
    ensures Executions(scenarios) + |Bag(tests, Excluding(NamesOf(scenarios)))| == |tests|
  {
    if scenarios == [] {
      ExcludeNone(tests);
    } else {
      var front, a := Front(scenarios), Last(scenarios);
      ExecutionsAddUp(tests, front);
      NamesOfMembers(front, a.name);
      ExcludeOneMore(tests, NamesOf(front), a.name);
      assert IsScenario(tests, scenarios[|scenarios| - 1]);
      assert |a.durations| == |multiset(a.durations)|;
    }
  }

  /** Passing and failing runs make up the runs, and the scenarios' executions make up the tests. */
  lemma NothingIsLost(runs: seq<RunSummary>, s: RepeatSummary)
    requires IsAggregate(runs, s)
    ensures s.passingRuns + s.failingRuns == s.runs && |s.failedRunIds| == s.failingRuns
    ensures Executions(s.scenarios) == s.scenarioExecutions == |AllTests(runs)|
  {
    var tests := AllTests(runs);
    ExecutionsAddUp(tests, s.scenarios);
    forall i | 0 <= i < |tests|
      ensures tests[i].name in NamesOf(s.scenarios)
    {
      assert Named(tests, tests[i].name);
    }
    ExcludeAll(tests, NamesOf(s.scenarios));
    assert |s.failedRunIds| == |multiset(s.failedRunIds)|;
  }

  // ---- independence of order ----

  lemma BagAround<T, U>(before: seq<T>, x: T, after: seq<T>, f: T -> multiset<U>)
    ensures Bag((before + [x]) + after, f) == Bag(before + after, f) + f(x)
  {
    BagConcat(before, after, f);
    BagConcat(before + [x], after, f);
    BagAppend(before, x, f);
  }

  lemma TakenApart<T>(s: seq<T>, j: nat)
    requires j < |s|
    ensures s == (s[..j] + [s[j]]) + s[j + 1..]
  {
  }

  /** Taking one element out of a sequence. */
  lemma BagWithout<T, U>(s: seq<T>, j: nat, f: T -> multiset<U>)
    requires j < |s|
    ensures Bag(s, f) == Bag(s[..j] + s[j + 1..], f) + f(s[j])
  {
    TakenApart(s, j);
    BagAround(s[..j], s[j], s[j + 1..], f);
  }

  lemma MultisetWithout<T>(s: seq<T>, j: nat)
    requires j < |s|
    ensures multiset(s[..j] + s[j + 1..]) == multiset(s) - multiset{s[j]}
  {
    assert s == (s[..j] + [s[j]]) + s[j + 1..];
  }

  lemma BagSplit<T, U>(a: seq<T>, b: seq<T>, j: nat, f: T -> multiset<U>)
    requires a != [] && j < |b| && b[j] == Last(a) && Bag(Front(a), f) == Bag(b[..j] + b[j + 1..], f)
    ensures Bag(a, f) == Bag(b, f)
  {
    BagWithout(b, j, f);
  }

  lemma MultisetSplit<T>(a: seq<T>, b: seq<T>) returns (j: nat)
    requires a != [] && multiset(a) == multiset(b)
    ensures j < |b| && b[j] == Last(a) && multiset(Front(a)) == multiset(b[..j] + b[j + 1..])
  {
    SameMembers(a, b, Last(a));
    j :| 0 <= j < |b| && b[j] == Last(a);
    MultisetWithout(b, j);
    MultisetWithout(a, |a| - 1);
    assert a[..|a| - 1] + a[|a|..] == Front(a);
  }

  /** Bags do not depend on the order of their sequence. */
  lemma {:induction false} BagPermutes<T, U>(a: seq<T>, b: seq<T>, f: T -> multiset<U>)
    requires multiset(a) == multiset(b)
    ensures Bag(a, f) == Bag(b, f)
  {
    assert |a| == |multiset(a)| == |multiset(b)| == |b|;
    if a != [] {
      var j := MultisetSplit(a, b);
      BagPermutes(Front(a), b[..j] + b[j + 1..], f);
      BagSplit(a, b, j, f);
    }
  }

  lemma {:induction false} AllTestsIsBag(runs: seq<RunSummary>)
    ensures multiset(AllTests(runs)) == Bag(runs, TestsOf())
  {
    if runs != [] {
      AllTestsIsBag(Front(runs));
    }
  }

  /** The same runs with the tests inside each of them in another order. */
  ghost predicate TestsReordered(runs: seq<RunSummary>, runs': seq<RunSummary>) {
    |runs| == |runs'| &&
    forall i :: 0 <= i < |runs| ==>
      runs'[i].(tests := []) == runs[i].(tests := []) && multiset(runs'[i].tests) == multiset(runs[i].tests)
  }

  lemma {:induction false} ReorderedBags(runs: seq<RunSummary>, runs': seq<RunSummary>)
    requires TestsReordered(runs, runs')
    ensures Bag(runs, FailedIdOf()) == Bag(runs', FailedIdOf()) && Bag(runs, TestsOf()) == Bag(runs', TestsOf())
  {
    if runs != [] {
      ReorderedBags(Front(runs), Front(runs'));
      assert runs'[|runs| - 1].(tests := []) == runs[|runs| - 1].(tests := []);
      assert Last(runs').failed == Last(runs').(tests := []).failed
            && Last(runs).failed == Last(runs).(tests := []).failed;
      assert Last(runs').runId == Last(runs').(tests := []).runId && Last(runs).runId == Last(runs).(tests := []).runId;
    }
  }

  /** One scenario's numbers are determined by the tests as a bag. */
  lemma ScenarioIsDetermined(tests: seq<TestRow>, tests': seq<TestRow>, a: ScenarioAggregate, b: ScenarioAggregate)
    requires multiset(tests) == multiset(tests') && IsScenario(tests, a) && IsScenario(tests', b) && a.name == b.name
    ensures a == b
  {
    BagPermutes(tests, tests', ElapsedOf(a.name));
    BagPermutes(tests, tests', StatusOf(a.name, "pass"));
    BagPermutes(tests, tests', StatusOf(a.name, "fail"));
    SortedPermutationsAgree(a.durations, b.durations, Less);
  }

  lemma NamedPermutes(tests: seq<TestRow>, tests': seq<TestRow>, name: string)
    requires multiset(tests) == multiset(tests') && Named(tests, name)
    ensures Named(tests', name)
  {
    var i :| 0 <= i < |tests| && tests[i].name == name;
    SameMembers(tests, tests', tests[i]);
    var j :| 0 <= j < |tests'| && tests'[j] == tests[i];
  }

  lemma ScenarioIsShared(tests: seq<TestRow>, tests': seq<TestRow>,
                         a: seq<ScenarioAggregate>, b: seq<ScenarioAggregate>, x: ScenarioAggregate)
    requires multiset(tests) == multiset(tests') && AllRanked(tests, a) && AllRanked(tests', b)
    requires NamesOf(a) == NamesOf(b) && x in a
    ensures x in b
  {
    var i :| 0 <= i < |a| && a[i] == x;
    NamesOfMembers(a, x.name);
    NamesOfMembers(b, x.name);
    var j :| 0 <= j < |b| && b[j].name == x.name;
    ScenarioIsDetermined(tests, tests', a[i], b[j]);
  }

  lemma ScenarioListsAgree(tests: seq<TestRow>, tests': seq<TestRow>,
                           a: seq<ScenarioAggregate>, b: seq<ScenarioAggregate>)
    requires multiset(tests) == multiset(tests') && AllRanked(tests, a) && AllRanked(tests', b)
    requires OnePerName(a, NamesOf(b)) && OnePerName(b, NamesOf(a))
    requires Sorted(a, NameLess) && Sorted(b, NameLess)
    ensures a == b
  {
    forall x
      ensures x in a <==> x in b
    {
      if x in a { ScenarioIsShared(tests, tests', a, b, x); }
      if x in b { ScenarioIsShared(tests', tests, b, a, x); }
    }
    forall x, y | x in a && y in a && x != y
      ensures NameLess(x, y) || NameLess(y, x)
    {
      StringLessTotal(x.name, y.name);
    }
    SortedSetsAgree(a, b, NameLess);
  }

  /**
   Main theorem: the aggregate does not depend on the order of the runs, on the order of the tests inside
   the runs, on map iteration or on the sort used; only its timestamp may differ.
   */
  lemma AggregateIgnoresOrder(runs: seq<RunSummary>, shuffled: seq<RunSummary>, runs': seq<RunSummary>,
                              s: RepeatSummary, s': RepeatSummary)
    requires multiset(runs) == multiset(shuffled) && TestsReordered(shuffled, runs')
    requires IsAggregate(runs, s) && IsAggregate(runs', s')
    ensures s' == s.(generatedAt := s'.generatedAt)
  {
    BagPermutes(runs, shuffled, FailedIdOf());
    BagPermutes(runs, shuffled, TestsOf());
    ReorderedBags(shuffled, runs');
    AllTestsIsBag(runs);
    AllTestsIsBag(runs');
    assert |runs| == |multiset(runs)| == |multiset(shuffled)| == |shuffled|;
    var tests, tests' := AllTests(runs), AllTests(runs');
    assert |tests| == |multiset(tests)| == |multiset(tests')| == |tests'|;
    StringOrder();
    SortedPermutationsAgree(s.failedRunIds, s'.failedRunIds, StringLess);
    NamesAgree(tests, tests', s, s');
    ScenarioListsAgree(tests, tests', s.scenarios, s'.scenarios);
  }

  lemma NamesAgree(tests: seq<TestRow>, tests': seq<TestRow>, s: RepeatSummary, s': RepeatSummary)
    requires multiset(tests) == multiset(tests')
    requires forall name :: name in NamesOf(s.scenarios) <==> Named(tests, name)
    requires forall name :: name in NamesOf(s'.scenarios) <==> Named(tests', name)
    ensures NamesOf(s.scenarios) == NamesOf(s'.scenarios)
  {
    forall name
      ensures Named(tests, name) <==> Named(tests', name)
    {
      if Named(tests, name) { NamedPermutes(tests, tests', name); }
      if Named(tests', name) { NamedPermutes(tests', tests, name); }
    }
  }
}
