/**
 What the report of an event stream says, told by the events alone: which tests it lists, with which status,
 elapsed time and output, how it counts them and in which order.
 */
module ReportContents {
  import opened Wrappers
  import opened Sorting
  import opened TestReport
  import opened ReportGuarantees

  // ---- one test's result ----

  /** The event ends its test. */
  predicate Ends(e: GoTestEvent) {
    e.action == "pass" || e.action == "fail" || e.action == "skip"
  }

  function Outputs(es: seq<GoTestEvent>): string {
    if es == [] then "" else Outputs(Front(es)) + Last(es).output
  }

  /** `k` is the last event that ends the test. */
  ghost predicate LastEnd(own: seq<GoTestEvent>, k: int) {
    0 <= k < |own| && Ends(own[k]) && forall j :: k < j < |own| ==> !Ends(own[j])
  }

  ghost predicate NeverEnds(own: seq<GoTestEvent>) {
    forall j :: 0 <= j < |own| ==> !Ends(own[j])
  }

  /** The result is what the test's own events say; a test that never ended has failed. */
  ghost predicate Tells(r: TestResult, own: seq<GoTestEvent>) {
    && (NeverEnds(own) ==>
          && r.status == "fail" && r.elapsed == 0.0
          && r.output == Outputs(own) + "test stream ended without a terminal event\n")
    && (forall k :: LastEnd(own, k) ==>
          r.status == own[k].action && r.elapsed == own[k].elapsed && r.output == Outputs(own))
  }

  /** The result before the stream has been read to its end. */
  ghost predicate TellsSoFar(r: TestResult, own: seq<GoTestEvent>) {
    && r.output == Outputs(own)
    && (NeverEnds(own) ==> r.status == "running" && r.elapsed == 0.0)
    && (forall k :: LastEnd(own, k) ==> r.status == own[k].action && r.elapsed == own[k].elapsed)
  }

  /** What one more event does to the last ending event. */
  lemma LastEndMoves(own: seq<GoTestEvent>, k: int)
    requires own != []
    ensures LastEnd(own, k) <==> if Ends(Last(own)) then k == |own| - 1 else LastEnd(Front(own), k)
  {
    var front := Front(own);
    assert forall j :: 0 <= j < |front| ==> own[j] == front[j];
    if LastEnd(own, k) && k < |front| {
      assert !Ends(own[|own| - 1]);
    }
  }

  lemma NeverEndsMoves(own: seq<GoTestEvent>)
    requires own != []
    ensures NeverEnds(own) <==> NeverEnds(Front(own)) && !Ends(Last(own))
  {
    assert forall j :: 0 <= j < |own| - 1 ==> own[j] == Front(own)[j];
    assert NeverEnds(own) ==> !Ends(own[|own| - 1]);
  }

  lemma AbsorbTells(r: TestResult, own: seq<GoTestEvent>)
    requires own != [] && TellsSoFar(r, Front(own))
    ensures TellsSoFar(Absorb(r, Last(own)), own)
  {
    NeverEndsMoves(own);
    forall k | LastEnd(own, k)
      ensures Absorb(r, Last(own)).status == own[k].action && Absorb(r, Last(own)).elapsed == own[k].elapsed
    {
      LastEndMoves(own, k);
    }
  }

  lemma {:induction false} ResultTellsSoFar(pkg: string, test: string, own: seq<GoTestEvent>)
    ensures TellsSoFar(ResultOf(pkg, test, own), own)
  {
    if own != [] {
      ResultTellsSoFar(pkg, test, Front(own));
      AbsorbTells(ResultOf(pkg, test, Front(own)), own);
    }
  }

  lemma {:induction false} EndsOrNever(own: seq<GoTestEvent>) returns (k: nat)
    ensures NeverEnds(own) || LastEnd(own, k)
  {
    if own == [] {
      k := 0;
    } else if Ends(Last(own)) {
      k := |own| - 1;
    } else {
      k := EndsOrNever(Front(own));
      assert forall j :: 0 <= j < |own| - 1 ==> own[j] == Front(own)[j];
    }
  }

  lemma FinalResultTells(r: TestResult, own: seq<GoTestEvent>)
    requires TellsSoFar(r, own)
    ensures Tells(Finalize(r), own)
  {
    var k := EndsOrNever(own);
    assert "running"[0] == 'r' && "pass"[0] == 'p' && "fail"[0] == 'f' && "skip"[0] == 's';
    assert LastEnd(own, k) ==> r.status == own[k].action;
    assert forall i :: LastEnd(own, i) ==> Ends(own[i]);
  }

  // ---- which tests are reported ----

  predicate Seen(es: seq<GoTestEvent>, pkg: string, name: string) {
    name != "" && exists i :: 0 <= i < |es| && es[i].pkg == pkg && es[i].test == name
  }

  /** A seen test has its entry, which tells its events so far. */
  lemma SeenHasEntry(es: seq<GoTestEvent>, pkg: string, name: string)
    requires KeysDistinguish(es) && Seen(es, pkg, name)
    ensures Key(pkg, name) in Table(es)
    ensures var r := Table(es)[Key(pkg, name)];
      r.pkg == pkg && r.name == name && TellsSoFar(r, Of(es, pkg, name))
  {
    var i :| 0 <= i < |es| && es[i].pkg == pkg && es[i].test == name;
    TableIsPerTest(es, i);
    ResultKeepsItsTest(pkg, name, Of(es, pkg, name));
    ResultTellsSoFar(pkg, name, Of(es, pkg, name));
  }

  /** An entry is that of a seen test, under its key. */
  lemma EntryIsSeen(es: seq<GoTestEvent>, key: string)
    requires KeysDistinguish(es) && key in Table(es)
    ensures var r := Table(es)[key]; Seen(es, r.pkg, r.name) && key == Key(r.pkg, r.name)
  {
    TableKeys(es, key);
    var i :| 0 <= i < |es| && es[i].test != "" && Key(es[i].pkg, es[i].test) == key;
    assert Seen(es, es[i].pkg, es[i].test);
    SeenHasEntry(es, es[i].pkg, es[i].test);
  }

  /** Main theorem on contents: every reported test was seen, and its result is what its own events say. */
  lemma ReportedTestsTellTheirEvents(es: seq<GoTestEvent>, s: Summary, r: TestResult)
    requires KeysDistinguish(es) && IsReport(Table(es), s) && r in s.tests
    ensures Seen(es, r.pkg, r.name) && Tells(r, Of(es, r.pkg, r.name))
  {
    assert r in Elements(s.tests);
    var key :| key in Leaves(Table(es)) && Finalize(Table(es)[key]) == r;
    EntryIsSeen(es, key);
    SeenHasEntry(es, r.pkg, r.name);
    FinalResultTells(Table(es)[key], Of(es, r.pkg, r.name));
  }

  predicate Listed(s: Summary, pkg: string, name: string) {
    exists i :: 0 <= i < |s.tests| && s.tests[i].pkg == pkg && s.tests[i].name == name
  }

  /** The test has a subtest in the stream. */
  ghost predicate HasSubtest(es: seq<GoTestEvent>, pkg: string, name: string) {
    exists other :: Seen(es, pkg, other) && name + "/" <= other
  }

  lemma SubtestIsDescendant(es: seq<GoTestEvent>, pkg: string, name: string)
    requires KeysDistinguish(es) && Seen(es, pkg, name)
    ensures Key(pkg, name) in Table(es)
    ensures HasSubtest(es, pkg, name) <==> HasDescendant(Table(es), Key(pkg, name))
  {
    var table, key := Table(es), Key(pkg, name);
    SeenHasEntry(es, pkg, name);
    if HasSubtest(es, pkg, name) {
      var other :| Seen(es, pkg, other) && name + "/" <= other;
      SeenHasEntry(es, pkg, other);
      assert IsAncestor(table[key], table[Key(pkg, other)]);
    }
    if other :| other in table && IsAncestor(table[key], table[other]) {
      EntryIsSeen(es, other);
      assert Seen(es, pkg, table[other].name);
    }
  }

  /** Exactly the tests seen without a subtest are listed. */
  lemma ListedIffLeaf(es: seq<GoTestEvent>, s: Summary, pkg: string, name: string)
    requires KeysDistinguish(es) && IsReport(Table(es), s)
    ensures Listed(s, pkg, name) <==> Seen(es, pkg, name) && !HasSubtest(es, pkg, name)
  {
    var table := Table(es);
    if i :| 0 <= i < |s.tests| && s.tests[i].pkg == pkg && s.tests[i].name == name {
      assert s.tests[i] in Elements(s.tests);
      var key :| key in Leaves(table) && Finalize(table[key]) == s.tests[i];
      EntryIsSeen(es, key);
      SubtestIsDescendant(es, pkg, name);
    }
    if Seen(es, pkg, name) && !HasSubtest(es, pkg, name) {
      SeenHasEntry(es, pkg, name);
      SubtestIsDescendant(es, pkg, name);
      var r := Finalize(table[Key(pkg, name)]);
      assert r in LeafResults(table);
      assert r in Elements(s.tests);
      var i :| 0 <= i < |s.tests| && s.tests[i] == r;
    }
  }

  // ---- counts and order ----

  /** The places of the tests with this status. */
  function WithStatus(tests: seq<TestResult>, status: string): set<nat> {
    set i | 0 <= i < |tests| && tests[i].status == status
  }

  lemma OneMorePlace(tests: seq<TestResult>, status: string)
    requires tests != []
    ensures |WithStatus(tests, status)|
            == |WithStatus(Front(tests), status)| + if Last(tests).status == status then 1 else 0
  {
    var n := |tests| - 1;
    assert WithStatus(tests, status)
        == WithStatus(Front(tests), status) + if Last(tests).status == status then {n} else {};
  }

  lemma {:induction false} PlacesAndResults(tests: seq<TestResult>, status: string)
    requires Distinct(tests)
    ensures |WithStatus(tests, status)| == |Having(Elements(tests), status)|
  {
    if tests != [] {
      var front := Front(tests);
      PlacesAndResults(front, status);
      assert Elements(tests) == Elements(front) + {Last(tests)};
      HavingAdds(Elements(front), Last(tests), status);
      OneMorePlace(tests, status);
    }
  }

  /** The summary counts the listed tests by status, and no listed test has any other status. */
  lemma CountsAreOfTheListed(es: seq<GoTestEvent>, s: Summary)
    requires KeysDistinguish(es) && IsReport(Table(es), s)
    ensures s.passed == |WithStatus(s.tests, "pass")|
    ensures s.failed == |WithStatus(s.tests, "fail")|
    ensures s.skipped == |WithStatus(s.tests, "skip")|
    ensures s.passed + s.failed + s.skipped == |s.tests|
  {
    PlacesAndResults(s.tests, "pass");
    PlacesAndResults(s.tests, "fail");
    PlacesAndResults(s.tests, "skip");
    TableIsWellKeyed(es);
    StatusesPartition(Table(es));
    DistinctCardinality(s.tests);
  }

  /** The listing is ordered by package, then by name, ascending, and lists no test twice. */
  lemma ListingIsOrdered(es: seq<GoTestEvent>, s: Summary, i: nat, j: nat)
    requires KeysDistinguish(es) && IsReport(Table(es), s) && i < j < |s.tests|
    ensures var a, b := s.tests[i], s.tests[j];
      Precedes(a.pkg, b.pkg) || (a.pkg == b.pkg && Precedes(a.name, b.name))
  {
    var a, b := s.tests[i], s.tests[j];
    TableIsWellKeyed(es);
    assert a in Elements(s.tests) && b in Elements(s.tests);
    LeafResultsNeverTie(Table(es), a, b);
    StringLessIsPrecedes(a.pkg, b.pkg);
    StringLessIsPrecedes(a.name, b.name);
  }
}
