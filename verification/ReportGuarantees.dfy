/** What the report of an event stream does and does not depend on, and what it covers. */
module ReportGuarantees {
  import opened Wrappers
  import opened Sorting
  import opened TestReport

  // ---- one stream, any map order, any correct sort ----

  lemma LeafResultsNeverTie(table: Results, x: TestResult, y: TestResult)
    requires WellKeyed(table) && x in LeafResults(table) && y in LeafResults(table) && x != y
    ensures Before(x, y) || Before(y, x)
  {
    var a :| a in Leaves(table) && Finalize(table[a]) == x;
    var b :| b in Leaves(table) && Finalize(table[b]) == y;
    LeafResultsDoNotTie(table, a, b);
  }

  /** All map iteration orders and all correct sorts give one and the same report. */
  lemma ReportIsUnique(table: Results, s: Summary, s': Summary)
    requires WellKeyed(table) && IsReport(table, s) && IsReport(table, s')
    ensures s.tests == s'.tests && s.passed == s'.passed && s.failed == s'.failed && s.skipped == s'.skipped
  {
    forall x, y | x in s.tests && y in s.tests && x != y
      ensures Before(x, y) || Before(y, x)
    {
      assert x in Elements(s.tests) && y in Elements(s.tests);
      LeafResultsNeverTie(table, x, y);
    }
    assert forall x :: x in s.tests <==> x in Elements(s.tests);
    assert forall x :: x in s'.tests <==> x in Elements(s'.tests);
    SortedSetsAgree(s.tests, s'.tests, Before);
  }

  // ---- streams that differ in interleaving only ----

  /** The events of one test, in their order. */
  function Of(es: seq<GoTestEvent>, pkg: string, test: string): seq<GoTestEvent> {
    if es == [] then []
    else if Last(es).pkg == pkg && Last(es).test == test then Of(Front(es), pkg, test) + [Last(es)]
    else Of(Front(es), pkg, test)
  }

  function PackageElapsed(es: seq<GoTestEvent>): set<real> {
    set i | 0 <= i < |es| && es[i].test == "" :: es[i].elapsed
  }

  /** The same events for each test, and the same package-level elapsed times. */
  ghost predicate SameTests(es: seq<GoTestEvent>, es': seq<GoTestEvent>) {
    && (forall pkg, test :: test != "" ==> Of(es, pkg, test) == Of(es', pkg, test))
    && PackageElapsed(es) == PackageElapsed(es')
  }

  /** No two tests of the stream share a composite key. */
  ghost predicate KeysDistinguish(es: seq<GoTestEvent>) {
    forall i, j :: 0 <= i < |es| && 0 <= j < |es| && es[i].test != "" && es[j].test != "" &&
                   Key(es[i].pkg, es[i].test) == Key(es[j].pkg, es[j].test) ==>
      es[i].pkg == es[j].pkg && es[i].test == es[j].test
  }

  /** The composite key is injective on package names without NUL. */
  lemma KeyInjective(pkg: string, test: string, pkg': string, test': string)
    requires '\0' !in pkg && '\0' !in pkg' && Key(pkg, test) == Key(pkg', test')
    ensures pkg == pkg' && test == test'
  {
    var k, k' := Key(pkg, test), Key(pkg', test');
    assert k[|pkg|] == '\0' && k'[|pkg'|] == '\0';
    assert forall i :: 0 <= i < |pkg| ==> k[i] == pkg[i];
    assert forall i :: 0 <= i < |pkg'| ==> k'[i] == pkg'[i];
    assert |pkg| == |pkg'|;
    assert k[..|pkg|] == pkg && k'[..|pkg|] == pkg';
    assert k[|pkg| + 1..] == test && k'[|pkg| + 1..] == test';
  }

  lemma PackagesWithoutNul(es: seq<GoTestEvent>)
    requires forall i :: 0 <= i < |es| ==> '\0' !in es[i].pkg
    ensures KeysDistinguish(es)
  {
    forall i, j | 0 <= i < |es| && 0 <= j < |es| && Key(es[i].pkg, es[i].test) == Key(es[j].pkg, es[j].test)
      ensures es[i].pkg == es[j].pkg && es[i].test == es[j].test
    {
      KeyInjective(es[i].pkg, es[i].test, es[j].pkg, es[j].test);
    }
  }

  /** One test's result, from its own events alone. */
  function ResultOf(pkg: string, test: string, es: seq<GoTestEvent>): TestResult {
    if es == [] then Fresh(pkg, test) else Absorb(ResultOf(pkg, test, Front(es)), Last(es))
  }

  lemma {:induction false} OfIsEmptyIffUnseen(es: seq<GoTestEvent>, pkg: string, test: string)
    ensures Of(es, pkg, test) != [] <==> exists i :: 0 <= i < |es| && es[i].pkg == pkg && es[i].test == test
  {
    if es != [] {
      OfIsEmptyIffUnseen(Front(es), pkg, test);
      if i :| 0 <= i < |es| && es[i].pkg == pkg && es[i].test == test {
        assert i < |es| - 1 ==> Front(es)[i] == es[i];
      }
    }
  }

  /** A key is in the table iff an event of the stream has it. */
  lemma {:induction false} TableKeys(es: seq<GoTestEvent>, key: string)
    ensures key in Table(es) <==> exists i :: 0 <= i < |es| && es[i].test != "" && Key(es[i].pkg, es[i].test) == key
  {
    if es != [] {
      TableKeys(Front(es), key);
      if i :| 0 <= i < |es| && es[i].test != "" && Key(es[i].pkg, es[i].test) == key {
        assert i < |es| - 1 ==> Front(es)[i] == es[i];
      }
    }
  }

  /** The entry of the last event's key after it was absorbed, when keys distinguish. */
  lemma {:induction false} TableIsPerTest(es: seq<GoTestEvent>, k: nat)
    requires KeysDistinguish(es) && k < |es| && es[k].test != ""
    ensures var pkg, test := es[k].pkg, es[k].test;
      Key(pkg, test) in Table(es) && Table(es)[Key(pkg, test)] == ResultOf(pkg, test, Of(es, pkg, test))
  {
    var pkg, test, front, last := es[k].pkg, es[k].test, Front(es), Last(es);
    assert KeysDistinguish(front);
    TableKeys(front, Key(pkg, test));
    OfIsEmptyIffUnseen(front, pkg, test);
    if j :| 0 <= j < |front| && front[j].test != "" && Key(front[j].pkg, front[j].test) == Key(pkg, test) {
      assert es[j] == front[j];
      TableIsPerTest(front, j);
    }
    if last.test != "" && Key(last.pkg, last.test) == Key(pkg, test) {
      assert last == es[|es| - 1];
      FrontOfAppend(Of(front, pkg, test), last);
    }
  }

  lemma SameTestsSeen(es: seq<GoTestEvent>, es': seq<GoTestEvent>, i: nat) returns (j: nat)
    requires SameTests(es, es') && i < |es| && es[i].test != ""
    ensures j < |es'| && es'[j].pkg == es[i].pkg && es'[j].test == es[i].test
  {
    OfIsEmptyIffUnseen(es, es[i].pkg, es[i].test);
    OfIsEmptyIffUnseen(es', es[i].pkg, es[i].test);
    j :| 0 <= j < |es'| && es'[j].pkg == es[i].pkg && es'[j].test == es[i].test;
  }

  lemma SameTestsSymmetric(es: seq<GoTestEvent>, es': seq<GoTestEvent>)
    requires SameTests(es, es')
    ensures SameTests(es', es)
  {
  }

  lemma SameTestsDistinguish(es: seq<GoTestEvent>, es': seq<GoTestEvent>)
    requires SameTests(es, es') && KeysDistinguish(es)
    ensures KeysDistinguish(es')
  {
    SameTestsSymmetric(es, es');
    forall i, j | 0 <= i < |es'| && 0 <= j < |es'| && es'[i].test != "" && es'[j].test != "" &&
                  Key(es'[i].pkg, es'[i].test) == Key(es'[j].pkg, es'[j].test)
      ensures es'[i].pkg == es'[j].pkg && es'[i].test == es'[j].test
    {
      var k := SameTestsSeen(es', es, i);
      var l := SameTestsSeen(es', es, j);
      assert Key(es[k].pkg, es[k].test) == Key(es[l].pkg, es[l].test);
    }
  }

  lemma TableEntriesAgree(es: seq<GoTestEvent>, es': seq<GoTestEvent>, key: string)
    requires SameTests(es, es') && KeysDistinguish(es) && KeysDistinguish(es') && key in Table(es)
    ensures key in Table(es') && Table(es')[key] == Table(es)[key]
  {
    TableKeys(es, key);
    var i :| 0 <= i < |es| && es[i].test != "" && Key(es[i].pkg, es[i].test) == key;
    var j := SameTestsSeen(es, es', i);
    TableIsPerTest(es, i);
    TableIsPerTest(es', j);
  }

  lemma TablesAgree(es: seq<GoTestEvent>, es': seq<GoTestEvent>)
    requires SameTests(es, es') && KeysDistinguish(es)
    ensures Table(es) == Table(es')
  {
    SameTestsDistinguish(es, es');
    SameTestsSymmetric(es, es');
    forall key
      ensures key in Table(es) ==> key in Table(es') && Table(es')[key] == Table(es)[key]
      ensures key in Table(es') ==> key in Table(es)
    {
      if key in Table(es) {
        TableEntriesAgree(es, es', key);
      }
      if key in Table(es') {
        TableEntriesAgree(es', es, key);
      }
    }
  }

  lemma {:induction false} DurationIsMaximum(es: seq<GoTestEvent>)
    ensures Duration(es) == 0.0 || Duration(es) in PackageElapsed(es)
    ensures Duration(es) >= 0.0 && forall d :: d in PackageElapsed(es) ==> d <= Duration(es)
  {
    if es != [] {
      DurationIsMaximum(Front(es));
      assert PackageElapsed(es) ==
        PackageElapsed(Front(es)) + if Last(es).test == "" then {Last(es).elapsed} else {} by {
        forall d
          ensures d in PackageElapsed(es) <==>
            d in PackageElapsed(Front(es)) || (Last(es).test == "" && d == Last(es).elapsed)
        {
          if i :| 0 <= i < |es| && es[i].test == "" && es[i].elapsed == d {
            assert i < |es| - 1 ==> Front(es)[i] == es[i];
          }
          if i :| 0 <= i < |Front(es)| && Front(es)[i].test == "" && Front(es)[i].elapsed == d {
            assert es[i] == Front(es)[i];
          }
        }
      }
    }
  }

  lemma DurationsAgree(es: seq<GoTestEvent>, es': seq<GoTestEvent>)
    requires PackageElapsed(es) == PackageElapsed(es')
    ensures Duration(es) == Duration(es')
  {
    DurationIsMaximum(es);
    DurationIsMaximum(es');
  }

  /**
   Main theorem: two streams that differ only in how the tests' events are interleaved parse to the same
   summary apart from its timestamp, for every map order and every correct sort, provided no two tests
   share a composite key.
   */
  lemma ParseIgnoresInterleaving(es: seq<GoTestEvent>, es': seq<GoTestEvent>, s: Summary, s': Summary)
    requires SameTests(es, es') && KeysDistinguish(es)
    requires IsReport(Table(es), s) && s.duration == Duration(es)
    requires IsReport(Table(es'), s') && s'.duration == Duration(es')
    ensures s' == s.(runId := s'.runId, generatedAt := s'.generatedAt)
  {
    TablesAgree(es, es');
    DurationsAgree(es, es');
    TableIsWellKeyed(es);
    ReportIsUnique(Table(es), s, s');
  }

  // ---- the proviso is exact ----

  function Without(es: seq<GoTestEvent>, pkg: string, test: string): seq<GoTestEvent> {
    if es == [] then []
    else if Last(es).pkg == pkg && Last(es).test == test then Without(Front(es), pkg, test)
    else Without(Front(es), pkg, test) + [Last(es)]
  }

  lemma {:induction false} OfAppend(a: seq<GoTestEvent>, b: seq<GoTestEvent>, pkg: string, test: string)
    ensures Of(a + b, pkg, test) == Of(a, pkg, test) + Of(b, pkg, test)
  {
    if b == [] {
      assert a + b == a;
    } else {
      OfAppend(a, Front(b), pkg, test);
      assert Front(a + b) == a + Front(b);
    }
  }

  lemma {:induction false} OfParts(es: seq<GoTestEvent>, pkg: string, test: string, pkg': string, test': string)
    ensures Of(Of(es, pkg, test), pkg', test') == if pkg' == pkg && test' == test then Of(es, pkg, test) else []
    ensures Of(Without(es, pkg, test), pkg', test') == if pkg' == pkg && test' == test then [] else Of(es, pkg', test')
  {
    if es != [] {
      OfParts(Front(es), pkg, test, pkg', test');
      FrontOfAppend(Of(Front(es), pkg, test), Last(es));
      FrontOfAppend(Without(Front(es), pkg, test), Last(es));
    }
  }

  lemma {:induction false} PartsKeepEvents(es: seq<GoTestEvent>, pkg: string, test: string, e: GoTestEvent)
    ensures e in es <==> e in Of(es, pkg, test) || e in Without(es, pkg, test)
    ensures e in Of(es, pkg, test) ==> e.pkg == pkg && e.test == test
  {
    if es != [] {
      PartsKeepEvents(Front(es), pkg, test, e);
      assert es == Front(es) + [Last(es)];
    }
  }

  lemma ElapsedIsOfEvents(es: seq<GoTestEvent>, es': seq<GoTestEvent>)
    requires forall e :: e in es ==> e in es'
    ensures PackageElapsed(es) <= PackageElapsed(es')
  {
    forall d | d in PackageElapsed(es)
      ensures d in PackageElapsed(es')
    {
      var i :| 0 <= i < |es| && es[i].test == "" && es[i].elapsed == d;
      assert es[i] in es';
      var j :| 0 <= j < |es'| && es'[j] == es[i];
    }
  }

  /** Moving one test's events to the front is a change of interleaving only. */
  lemma MovedToFrontIsSameTests(es: seq<GoTestEvent>, pkg: string, test: string)
    ensures SameTests(es, Of(es, pkg, test) + Without(es, pkg, test))
  {
    var es' := Of(es, pkg, test) + Without(es, pkg, test);
    forall p, t
      ensures Of(es, p, t) == Of(es', p, t)
    {
      OfParts(es, pkg, test, p, t);
      OfAppend(Of(es, pkg, test), Without(es, pkg, test), p, t);
    }
    forall e
      ensures e in es <==> e in es'
    {
      PartsKeepEvents(es, pkg, test, e);
    }
    ElapsedIsOfEvents(es, es');
    ElapsedIsOfEvents(es', es);
  }

  /** The entry under `key` has the package and name of this event. */
  predicate OwnedBy(r: TestResult, e: GoTestEvent, key: string) {
    e.pkg == r.pkg && e.test == r.name && e.test != "" && Key(e.pkg, e.test) == key
  }

  /** An entry keeps the package and name it was created with, those of an event with its key. */
  lemma {:induction false} EntryOwner(es: seq<GoTestEvent>, key: string)
    requires key in Table(es)
    ensures exists e :: e in es && OwnedBy(Table(es)[key], e, key)
  {
    if key in Table(Front(es)) {
      EntryOwner(Front(es), key);
      var e :| e in Front(es) && OwnedBy(Table(Front(es))[key], e, key);
      assert e in es;
    } else {
      assert Last(es) in es && OwnedBy(Table(es)[key], Last(es), key);
    }
  }

  lemma {:induction false} EntryKeepsOwner(es: seq<GoTestEvent>, more: seq<GoTestEvent>, key: string)
    requires key in Table(es)
    ensures key in Table(es + more)
    ensures Table(es + more)[key].pkg == Table(es)[key].pkg && Table(es + more)[key].name == Table(es)[key].name
  {
    if more == [] {
      assert es + more == es;
    } else {
      EntryKeepsOwner(es, Front(more), key);
      assert Front(es + more) == es + Front(more);
    }
  }

  /** With the events of a test moved to the front, the test owns its key's entry. */
  lemma FrontOwns(es: seq<GoTestEvent>, i: nat)
    requires i < |es| && es[i].test != ""
    ensures var pkg, test := es[i].pkg, es[i].test;
      var table := Table(Of(es, pkg, test) + Without(es, pkg, test));
      Key(pkg, test) in table && table[Key(pkg, test)].pkg == pkg && table[Key(pkg, test)].name == test
  {
    var pkg, test := es[i].pkg, es[i].test;
    var own, key := Of(es, pkg, test), Key(pkg, test);
    OfIsEmptyIffUnseen(es, pkg, test);
    forall e
      ensures e in own ==> e.pkg == pkg && e.test == test
    {
      PartsKeepEvents(es, pkg, test, e);
    }
    assert own[0] in own;
    TableKeys(own, key);
    assert own[0].test != "" && Key(own[0].pkg, own[0].test) == key;
    EntryOwner(own, key);
    EntryKeepsOwner(own, Without(es, pkg, test), key);
  }

  /** The table of results is independent of the interleaving exactly when no two tests share a composite key. */
  lemma TableIgnoresInterleavingIff(es: seq<GoTestEvent>)
    ensures KeysDistinguish(es) <==> forall es' :: SameTests(es, es') ==> Table(es') == Table(es)
  {
    if KeysDistinguish(es) {
      forall es' | SameTests(es, es')
        ensures Table(es') == Table(es)
      {
        TablesAgree(es, es');
      }
    } else {
      var i, j :| 0 <= i < |es| && 0 <= j < |es| && es[i].test != "" && es[j].test != "" &&
                  Key(es[i].pkg, es[i].test) == Key(es[j].pkg, es[j].test) &&
                  (es[i].pkg != es[j].pkg || es[i].test != es[j].test);
      FrontOwns(es, i);
      FrontOwns(es, j);
      MovedToFrontIsSameTests(es, es[i].pkg, es[i].test);
      MovedToFrontIsSameTests(es, es[j].pkg, es[j].test);
    }
  }

  // ---- coverage ----

  /** Names longer than this entry's, the measure that grows smaller from parent to child. */
  function Longer(table: Results, key: string): set<string>
    requires key in table
  {
    set other | other in table && |table[other].name| > |table[key].name|
  }

  /** Below every entry there is a leaf: itself or a slash-descendant in the same package. */
  lemma {:induction false} LeafBelow(table: Results, key: string) returns (leaf: string)
    requires key in table
    ensures leaf in Leaves(table) && (leaf == key || IsAncestor(table[key], table[leaf]))
    decreases Longer(table, key)
  {
    if HasDescendant(table, key) {
      var child :| child in table && IsAncestor(table[key], table[child]);
      assert child in Longer(table, key) && child !in Longer(table, child);
      leaf := LeafBelow(table, child);
    } else {
      leaf := key;
    }
  }

  /** Every test seen is reported itself or through a slash-descendant of its package. */
  lemma EveryTestIsCovered(es: seq<GoTestEvent>, s: Summary, i: nat)
    requires KeysDistinguish(es) && IsReport(Table(es), s) && i < |es| && es[i].test != ""
    ensures exists r :: r in s.tests && r.pkg == es[i].pkg && (r.name == es[i].test || es[i].test + "/" <= r.name)
  {
    var table, key := Table(es), Key(es[i].pkg, es[i].test);
    TableIsPerTest(es, i);
    ResultKeepsItsTest(es[i].pkg, es[i].test, Of(es, es[i].pkg, es[i].test));
    var leaf := LeafBelow(table, key);
    var r := Finalize(table[leaf]);
    assert r in LeafResults(table);
    assert r in Elements(s.tests);
  }

  lemma {:induction false} ResultKeepsItsTest(pkg: string, test: string, es: seq<GoTestEvent>)
    ensures ResultOf(pkg, test, es).pkg == pkg && ResultOf(pkg, test, es).name == test
  {
    if es != [] {
      ResultKeepsItsTest(pkg, test, Front(es));
    }
  }

  /** No reported test is a slash-ancestor of another reported test of its package. */
  lemma ReportIsAntichain(table: Results, s: Summary, a: TestResult, b: TestResult)
    requires IsReport(table, s) && a in s.tests && b in s.tests
    ensures !IsAncestor(a, b)
  {
  }

  // ---- JUnit ----

  function Failures(cases: seq<JunitCase>): nat {
    if cases == [] then 0 else Failures(Front(cases)) + if Last(cases).failure.Some? then 1 else 0
  }

  function Skips(cases: seq<JunitCase>): nat {
    if cases == [] then 0 else Skips(Front(cases)) + if Last(cases).skipped then 1 else 0
  }

  lemma {:induction false} CasesCount(tests: seq<TestResult>, cases: seq<JunitCase>)
    requires |cases| == |tests| && Distinct(tests)
    requires forall i :: 0 <= i < |tests| ==> StandsFor(cases[i], tests[i])
    ensures Failures(cases) == |Having(Elements(tests), "fail")|
    ensures Skips(cases) == |Having(Elements(tests), "skip")|
  {
    if tests != [] {
      CasesCount(Front(tests), Front(cases));
      assert Elements(tests) == Elements(Front(tests)) + {Last(tests)};
      HavingAdds(Elements(Front(tests)), Last(tests), "fail");
      HavingAdds(Elements(Front(tests)), Last(tests), "skip");
    }
  }

  /** Reported statuses are pass, fail and skip; a test without a terminal event is reported as failed. */
  lemma StatusesPartition(table: Results)
    requires WellKeyed(table)
    ensures |LeafResults(table)| ==
      |Having(LeafResults(table), "pass")| + |Having(LeafResults(table), "fail")| + |Having(LeafResults(table), "skip")|
  {
    var all := LeafResults(table);
    var passed, failed, skipped := Having(all, "pass"), Having(all, "fail"), Having(all, "skip");
    assert "pass"[0] == 'p' && "fail"[0] == 'f' && "skip"[0] == 's';
    assert all == passed + failed + skipped;
    assert passed !! failed && (passed + failed) !! skipped;
  }

  /** The numbers on the JUnit suite agree with the cases inside it. */
  lemma JunitAgreesWithItself(es: seq<GoTestEvent>, s: Summary, suite: JunitSuite)
    requires IsReport(Table(es), s) && IsJunit(s, suite)
    ensures suite.tests == s.passed + s.failed + s.skipped == |suite.cases|
    ensures suite.failures == Failures(suite.cases) && suite.skipped == Skips(suite.cases)
  {
    TableIsWellKeyed(es);
    StatusesPartition(Table(es));
    CasesCount(s.tests, suite.cases);
    DistinctCardinality(s.tests);
  }
}
