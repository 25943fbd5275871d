/** Cross-authority invariant checks, the fixture observer, and the bounded polling loop that runs them. */
module Convergence {
  import opened Wrappers
  import FixtureState

  // ---- snapshots and checks ----

  datatype Snapshot = Snapshot(
    intentId: string, localVersion: int, localStatus: string, desiredVersion: int, publishedVersion: int,
    desiredDssState: string, confirmedDssState: string, publicationSyncStatus: string, publicationOvn: string,
    dssReferenceExists: bool, dssVersion: int, dssState: string, dssOvn: string)

  datatype Finding =
    | NotActive
    | BackedByDss
    | ForbiddenActive(localVersion: int, publishedVersion: int, confirmedDssState: string, dssState: string)
    | NotBlocked
    | BlockedUnpublished
    | BlockedVisible(desiredVersion: int, dssVersion: int)

  datatype Result = Result(name: string, passed: bool, finding: Finding)

  function ActiveRequiresDssActivated(s: Snapshot): (r: Result)
    ensures r.passed <==>
      (s.localStatus == "active" ==>
         && s.publishedVersion == s.localVersion && s.confirmedDssState == "Activated"
         && s.dssReferenceExists && s.dssState == "Activated")
    ensures r.name == "local_active_requires_same_version_dss_activated"
    ensures r.finding.NotActive? <==> s.localStatus != "active"
    ensures !r.passed ==>
      r.finding == ForbiddenActive(s.localVersion, s.publishedVersion, s.confirmedDssState, s.dssState)
  {
    var name := "local_active_requires_same_version_dss_activated";
    if s.localStatus != "active" then Result(name, true, NotActive)
    else if s.publishedVersion == s.localVersion && s.confirmedDssState == "Activated" &&
            s.dssReferenceExists && s.dssState == "Activated" then Result(name, true, BackedByDss)
    else Result(name, false, ForbiddenActive(s.localVersion, s.publishedVersion, s.confirmedDssState, s.dssState))
  }

  function BlockedVersionHasNoDssReference(s: Snapshot): (r: Result)
    ensures !r.passed <==>
      s.publicationSyncStatus == "blocked" && s.dssReferenceExists && s.dssVersion >= s.desiredVersion
    ensures r.name == "blocked_version_has_no_dss_reference"
    ensures r.finding.NotBlocked? <==> s.publicationSyncStatus != "blocked"
    ensures !r.passed ==> r.finding == BlockedVisible(s.desiredVersion, s.dssVersion)
  {
    var name := "blocked_version_has_no_dss_reference";
    if s.publicationSyncStatus != "blocked" then Result(name, true, NotBlocked)
    else if !s.dssReferenceExists || s.dssVersion < s.desiredVersion then Result(name, true, BlockedUnpublished)
    else Result(name, false, BlockedVisible(s.desiredVersion, s.dssVersion))
  }

  // ---- the fixture observer ----

  datatype DssReference = DssReference(
    present: bool, version: int, state: string, ovn: string, manager: string, ussBaseUrl: string)

  /** `found` is the first listed entry with the id, field by field, or nothing if there is none. */
  ghost predicate Scanned(list: seq<FixtureState.Reference>, intentId: string, found: DssReference) {
    && (found.present <==> exists i :: 0 <= i < |list| && list[i].id == intentId)
    && (!found.present ==>
          && found.version == 0 && found.state == "" && found.ovn == "" && found.manager == ""
          && found.ussBaseUrl == "")
    && (forall i ::
          && 0 <= i < |list| && list[i].id == intentId
          && (forall j :: 0 <= j < i ==> list[j].id != intentId) ==>
            && found.version == list[i].version && found.state == list[i].state && found.ovn == list[i].ovn
            && found.manager == list[i].manager && found.ussBaseUrl == list[i].ussBaseUrl)
  }

  /** Scan a listing for the intent: the first entry with its id, or nothing. */
  method ObserveDssReference(list: seq<FixtureState.Reference>, intentId: string) returns (found: DssReference)
    ensures Scanned(list, intentId, found)
  {
    for i := 0 to |list|
      invariant forall j :: 0 <= j < i ==> list[j].id != intentId
    {
      if list[i].id != intentId {
        continue;
      }
      return DssReference(true, list[i].version, list[i].state, list[i].ovn, list[i].manager, list[i].ussBaseUrl);
    }
    return DssReference(false, 0, "", "", "", "");
  }

  // ---- Eventually ----

  const SECOND: int := 1_000_000_000

  /** One turn of the loop as the world presents it: the snapshot or its failure, and whether the context ends
      the wait. */
  datatype Round = Round(snapshot: Option<Snapshot>, expired: bool)

  type Check = Snapshot -> Result

  function Evaluate(checks: seq<Check>, s: Snapshot): (results: seq<Result>)
    ensures |results| == |checks|
    ensures forall i :: 0 <= i < |checks| ==> results[i] == checks[i](s)
  {
    seq(|checks|, i requires 0 <= i < |checks| => checks[i](s))
  }

  predicate AllPass(checks: seq<Check>, s: Snapshot) {
    forall i :: 0 <= i < |checks| ==> checks[i](s).passed
  }

  /** The snapshots that succeeded, in order. */
  function Samples(rounds: seq<Round>): seq<Snapshot> {
    if rounds == [] then []
    else match Last(rounds).snapshot
      case Some(s) => Samples(Front(rounds)) + [s]
      case None => Samples(Front(rounds))
  }

  function FirstWait(interval: int): int {
    if interval <= 0 then 100_000_000 else interval
  }

  function NextWait(delay: int): int {
    if delay < SECOND then (if delay * 2 > SECOND then SECOND else delay * 2) else delay
  }

  /** The wait after `k` completed waits. */
  function Wait(first: int, k: nat): int {
    if k == 0 then first else NextWait(Wait(first, k - 1))
  }

  /** The outcome of the loop over the first `used` rounds. */
  ghost predicate Converges(rounds: seq<Round>, interval: int, checks: seq<Check>,
                            used: nat, samples: seq<Snapshot>, results: seq<Result>, converged: bool, waits: seq<int>)
  {
    && 1 <= used <= |rounds|
    && samples == Samples(rounds[..used])
    && results == (if samples == [] then [] else Evaluate(checks, Last(samples)))
    && |waits| == used - 1
    && (forall k :: 0 <= k < |waits| ==> waits[k] == Wait(FirstWait(interval), k) && !rounds[k].expired)
    && (converged ==> samples != [] && AllPass(checks, Last(samples)))
    && (converged ==> forall k :: 0 <= k < |samples| - 1 ==> !AllPass(checks, samples[k]))
    && (!converged ==> rounds[used - 1].expired && forall k :: 0 <= k < |samples| ==> !AllPass(checks, samples[k]))
  }

  lemma SamplesStep(rounds: seq<Round>, k: nat)
    requires k < |rounds|
    ensures Samples(rounds[..k + 1]) ==
            Samples(rounds[..k]) + match rounds[k].snapshot case Some(s) => [s] case None => []
  {
    assert Front(rounds[..k + 1]) == rounds[..k];
  }

  /** The waits completed so far, none of them in a round that expired. */
  ghost predicate Waited(rounds: seq<Round>, interval: int, waits: seq<int>) {
    && |waits| <= |rounds|
    && forall k :: 0 <= k < |waits| ==> waits[k] == Wait(FirstWait(interval), k) && !rounds[k].expired
  }

  ghost predicate NonePassed(checks: seq<Check>, samples: seq<Snapshot>) {
    forall k :: 0 <= k < |samples| ==> !AllPass(checks, samples[k])
  }

  /** The loop has been through the first `used` rounds and goes on. */
  ghost predicate Polling(rounds: seq<Round>, interval: int, checks: seq<Check>,
                          used: nat, samples: seq<Snapshot>, results: seq<Result>, waits: seq<int>)
  {
    && |waits| == used < |rounds|
    && samples == Samples(rounds[..used])
    && results == (if samples == [] then [] else Evaluate(checks, Last(samples)))
    && Waited(rounds, interval, waits) && NonePassed(checks, samples)
  }

  /** The rounds before `i` whose snapshot succeeded. */
  function Successes(rounds: seq<Round>, i: nat): set<nat>
    requires i <= |rounds|
  {
    set j | 0 <= j < i && rounds[j].snapshot.Some?
  }

  lemma SuccessesStep(rounds: seq<Round>, i: nat)
    requires rounds != [] && i <= |rounds| - 1
    ensures Successes(rounds, i) == Successes(Front(rounds), i)
    ensures |Successes(rounds, |rounds|)|
            == |Successes(Front(rounds), |rounds| - 1)| + if Last(rounds).snapshot.Some? then 1 else 0
  {
    var n := |rounds| - 1;
    assert Successes(rounds, n) == Successes(Front(rounds), n);
    assert Successes(rounds, |rounds|) == Successes(rounds, n) + if rounds[n].snapshot.Some? then {n} else {};
  }

  /** Every successful snapshot is a sample, in its place, and there is no other. */
  lemma {:induction false} SamplesAreTheSnapshots(rounds: seq<Round>, i: nat)
    requires i <= |rounds|
    ensures |Samples(rounds)| == |Successes(rounds, |rounds|)|
    ensures i < |rounds| && rounds[i].snapshot.Some? ==>
      |Successes(rounds, i)| < |Samples(rounds)| && Samples(rounds)[|Successes(rounds, i)|] == rounds[i].snapshot.value
  {
    if rounds == [] {
      assert Successes(rounds, 0) == {};
    } else {
      var n := |rounds| - 1;
      SamplesAreTheSnapshots(Front(rounds), if i < n then i else n);
      SuccessesStep(rounds, if i < n then i else n);
    }
  }

  method RunChecks(checks: seq<Check>, s: Snapshot) returns (results: seq<Result>, passed: bool)
    ensures results == Evaluate(checks, s) && passed == AllPass(checks, s)
  {
    results, passed := [], true;
    for i := 0 to |checks|
      invariant results == Evaluate(checks[..i], s)
      invariant passed <==> forall j :: 0 <= j < i ==> checks[j](s).passed
    {
      var result := checks[i](s);
      results := results + [result];
      passed := passed && result.passed;
    }
    assert checks[..|checks|] == checks;
  }

  /** One turn's sampling, given what earlier turns sampled. */
  method TakeSample(round: Round, checks: seq<Check>, samples: seq<Snapshot>, results: seq<Result>)
    returns (samples': seq<Snapshot>, results': seq<Result>, passed: bool)
    requires results == if samples == [] then [] else Evaluate(checks, Last(samples))
    ensures samples' == samples + match round.snapshot case Some(s) => [s] case None => []
    ensures results' == if samples' == [] then [] else Evaluate(checks, Last(samples'))
    ensures passed <==> round.snapshot.Some? && AllPass(checks, round.snapshot.value)
  {
    samples', results', passed := samples, results, false;
    if round.snapshot.Some? {
      samples' := samples + [round.snapshot.value];
      results', passed := RunChecks(checks, round.snapshot.value);
    }
  }

  lemma WaitedOnce(rounds: seq<Round>, interval: int, waits: seq<int>)
    requires Waited(rounds, interval, waits) && |waits| < |rounds| && !rounds[|waits|].expired
    ensures Waited(rounds, interval, waits + [Wait(FirstWait(interval), |waits|)])
  {
    var waits' := waits + [Wait(FirstWait(interval), |waits|)];
    forall k | 0 <= k < |waits'|
      ensures waits'[k] == Wait(FirstWait(interval), k) && !rounds[k].expired
    {
      if k < |waits| {
        assert waits'[k] == waits[k];
      }
    }
  }

  lemma NonePassedYet(checks: seq<Check>, samples: seq<Snapshot>, snapshot: Option<Snapshot>)
    requires NonePassed(checks, samples) && !(snapshot.Some? && AllPass(checks, snapshot.value))
    ensures NonePassed(checks, samples + match snapshot case Some(s) => [s] case None => [])
  {
  }

  /** A turn that neither passed nor expired is followed by another. */
  lemma GoesOn(rounds: seq<Round>, interval: int, checks: seq<Check>, used: nat, samples: seq<Snapshot>,
               results: seq<Result>, waits: seq<int>, samples': seq<Snapshot>, results': seq<Result>)
    requires Polling(rounds, interval, checks, used, samples, results, waits)
    requires samples' == samples + match rounds[used].snapshot case Some(s) => [s] case None => []
    requires results' == if samples' == [] then [] else Evaluate(checks, Last(samples'))
    requires !(rounds[used].snapshot.Some? && AllPass(checks, rounds[used].snapshot.value))
    requires !rounds[used].expired && used + 1 < |rounds|
    ensures Polling(rounds, interval, checks, used + 1, samples', results', waits + [Wait(FirstWait(interval), used)])
  {
    SamplesStep(rounds, used);
    WaitedOnce(rounds, interval, waits);
    NonePassedYet(checks, samples, rounds[used].snapshot);
  }

  lemma Stops(rounds: seq<Round>, interval: int, checks: seq<Check>, used: nat, samples: seq<Snapshot>,
              results: seq<Result>, waits: seq<int>, samples': seq<Snapshot>, results': seq<Result>, passed: bool)
    requires Polling(rounds, interval, checks, used, samples, results, waits)
    requires samples' == samples + match rounds[used].snapshot case Some(s) => [s] case None => []
    requires results' == if samples' == [] then [] else Evaluate(checks, Last(samples'))
    requires passed <==> rounds[used].snapshot.Some? && AllPass(checks, rounds[used].snapshot.value)
    requires passed || rounds[used].expired
    ensures Converges(rounds, interval, checks, used + 1, samples', results', passed, waits)
  {
    SamplesStep(rounds, used);
  }

  /**
   Sample until all checks pass or the context expires. `rounds` is what the world will present; it must
   let the context expire at some point, or the loop need not end.
   */
  method Eventually(rounds: seq<Round>, interval: int, checks: seq<Check>)
    returns (samples: seq<Snapshot>, results: seq<Result>, converged: bool, waits: seq<int>, used: nat)
    requires rounds != [] && Last(rounds).expired
    ensures Converges(rounds, interval, checks, used, samples, results, converged, waits)
  {
    var delay := interval;
    if interval <= 0 {
      delay := 100_000_000;
    }
    samples, results, waits, used := [], [], [], 0;
    while true
      invariant Polling(rounds, interval, checks, used, samples, results, waits)
      invariant delay == Wait(FirstWait(interval), used)
      decreases |rounds| - used
    {
      ghost var before, resultsBefore := samples, results;
      var passed;
      samples, results, passed := TakeSample(rounds[used], checks, samples, results);
      if passed || rounds[used].expired {
        Stops(rounds, interval, checks, used, before, resultsBefore, waits, samples, results, passed);
        return samples, results, passed, waits, used + 1;
      }
      GoesOn(rounds, interval, checks, used, before, resultsBefore, waits, samples, results);
      waits, used := waits + [delay], used + 1;
      if delay < SECOND {
        delay := delay * 2;
        if delay > SECOND {
          delay := SECOND;
        }
      }
    }
  }

  // ---- backoff ----

  function Pow2(k: nat): (p: int)
    ensures p >= 1
  {
    if k == 0 then 1 else 2 * Pow2(k - 1)
  }

  /** The k-th wait is min(interval * 2^k, 1s) for intervals below a second, and the interval itself otherwise. */
  lemma {:induction false} WaitClosedForm(first: int, k: nat)
    requires first > 0
    ensures first < SECOND ==> Wait(first, k) == if first * Pow2(k) <= SECOND then first * Pow2(k) else SECOND
    ensures first >= SECOND ==> Wait(first, k) == first
  {
    if k > 0 {
      WaitClosedForm(first, k - 1);
      assert first * Pow2(k) == 2 * (first * Pow2(k - 1));
    }
  }

  /** ceil(log2(1s / first)): how often the first wait doubles before it reaches a second. */
  function Doublings(first: int): nat
    requires first > 0
    decreases SECOND - first
  {
    if first >= SECOND then 0 else 1 + Doublings(2 * first)
  }

  lemma {:induction false} DoublingsReachASecond(first: int)
    requires first > 0
    ensures first * Pow2(Doublings(first)) >= SECOND
    ensures Doublings(first) > 0 ==> first * Pow2(Doublings(first) - 1) < SECOND
    decreases SECOND - first
  {
    if first < SECOND {
      DoublingsReachASecond(2 * first);
      var n := Doublings(2 * first);
      assert first * Pow2(n + 1) == (2 * first) * Pow2(n);
      if n > 0 {
        assert first * Pow2(n) == (2 * first) * Pow2(n - 1);
      }
    }
  }

  function Total(waits: seq<int>): int {
    if waits == [] then 0 else Total(Front(waits)) + Last(waits)
  }

  /** The waits of one run of the loop. */
  ghost predicate AreWaits(first: int, waits: seq<int>) {
    forall k :: 0 <= k < |waits| ==> waits[k] == Wait(first, k)
  }

  lemma {:induction false} LateWaitsAreASecond(first: int, k: nat)
    requires 0 < first < SECOND && k >= Doublings(first)
    ensures Wait(first, k) == SECOND
  {
    DoublingsReachASecond(first);
    WaitClosedForm(first, k);
    Pow2Grows(Doublings(first), k);
    assert first * Pow2(k) >= first * Pow2(Doublings(first)) by {
      MulGrows(first, Pow2(Doublings(first)), Pow2(k));
    }
  }

  lemma MulGrows(x: int, a: int, b: int)
    requires x > 0 && a <= b
    ensures x * a <= x * b
  {
  }

  lemma {:induction false} Pow2Grows(a: nat, b: nat)
    requires a <= b
    ensures Pow2(a) <= Pow2(b)
  {
    if a < b {
      Pow2Grows(a, b - 1);
    }
  }

  lemma {:induction false} TotalOfShortWaits(first: int, waits: seq<int>)
    requires 0 < first < SECOND && AreWaits(first, waits)
    ensures Total(waits) >= (|waits| - Doublings(first)) * SECOND && Total(waits) >= 0
  {
    if waits != [] {
      TotalOfShortWaits(first, Front(waits));
      WaitClosedForm(first, |waits| - 1);
      assert first * Pow2(|waits| - 1) > 0 by { MulGrows(first, 1, Pow2(|waits| - 1)); }
      if |waits| > Doublings(first) {
        LateWaitsAreASecond(first, |waits| - 1);
      }
    }
  }

  lemma {:induction false} TotalOfLongWaits(first: int, waits: seq<int>)
    requires first >= SECOND && AreWaits(first, waits)
    ensures Total(waits) == |waits| * first
  {
    if waits != [] {
      TotalOfLongWaits(first, Front(waits));
      WaitClosedForm(first, |waits| - 1);
    }
  }

  /** Completed waits that fit into a time `budget` are few. */
  lemma WaitsAreBounded(first: int, waits: seq<int>, budget: int)
    requires first > 0 && AreWaits(first, waits) && Total(waits) <= budget
    ensures first < SECOND ==> |waits| <= Doublings(first) + budget / SECOND
    ensures first >= SECOND ==> |waits| <= budget / first
  {
    if first < SECOND {
      TotalOfShortWaits(first, waits);
    } else {
      TotalOfLongWaits(first, waits);
      QuotientBound(|waits|, first, budget);
    }
  }

  /** The loop's waits in terms of its interval: 100 ms if none is given, doubled after every wait up to 1 s. */
  lemma WaitsFollowInterval(rounds: seq<Round>, interval: int, checks: seq<Check>, used: nat, samples: seq<Snapshot>,
                            results: seq<Result>, converged: bool, waits: seq<int>, k: nat)
    requires Converges(rounds, interval, checks, used, samples, results, converged, waits) && k < |waits|
    ensures interval >= 1_000_000_000 ==> waits[k] == interval
    ensures 0 < interval < 1_000_000_000 ==>
      waits[k] == if interval * Pow2(k) <= 1_000_000_000 then interval * Pow2(k) else 1_000_000_000
    ensures interval <= 0 ==>
      waits[k] == if 100_000_000 * Pow2(k) <= 1_000_000_000 then 100_000_000 * Pow2(k) else 1_000_000_000
  {
    WaitClosedForm(if interval <= 0 then 100_000_000 else interval, k);
  }

  lemma QuotientBound(n: int, d: int, total: int)
    requires d > 0 && n * d <= total
    ensures n <= total / d
  {
    assert total < (total / d + 1) * d;
    if n >= total / d + 1 {
      MulGrows(d, total / d + 1, n);
    }
  }
}
