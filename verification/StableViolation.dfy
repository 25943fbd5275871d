/**
 The observer against the fixture. Whatever order the server lists its map in, the scan finds what a
 direct lookup finds. A reference's version never decreases within an incarnation, so a failed
 blocked-version check stays failed and polling for it to pass cannot succeed.
 */
module StableViolation {
  import opened Wrappers
  import FixtureState
  import opened FixtureServer
  import opened AtomicStore
  import opened Linearizability
  import opened Schedule
  import opened CasChain
  import opened Convergence
  import SoloRun

  // ---- observer agreement ----

  /** `found` is the stored entry, field by field, or nothing if there is none. */
  predicate Shows(found: DssReference, store: FixtureState.Store, intentId: string) {
    if intentId in store then
      && found.present && found.version == store[intentId].version && found.state == store[intentId].state
      && found.ovn == store[intentId].ovn && found.manager == store[intentId].manager
      && found.ussBaseUrl == store[intentId].ussBaseUrl
    else
      !found.present && found.version == 0 && found.state == "" && found.ovn == ""
      && found.manager == "" && found.ussBaseUrl == ""
  }

  /** In a listing of a coherent store, an entry's id is its key, and no other entry has it. */
  lemma ListedAt(list: seq<FixtureState.Reference>, keys: seq<string>, store: FixtureState.Store, i: nat)
    requires Coherent(store) && EnumeratesBy(list, keys, store) && i < |list|
    ensures keys[i] in store && list[i].id == keys[i] && list[i] == store[keys[i]]
    ensures forall j :: 0 <= j < i ==> keys[j] != keys[i]
  {
    assert keys[i] in keys;
  }

  lemma ScanOfAbsent(list: seq<FixtureState.Reference>, keys: seq<string>, store: FixtureState.Store, intentId: string)
    requires Coherent(store) && EnumeratesBy(list, keys, store) && intentId !in store
    ensures forall i :: 0 <= i < |list| ==> list[i].id != intentId
  {
    forall i | 0 <= i < |list|
      ensures list[i].id != intentId
    {
      ListedAt(list, keys, store, i);
    }
  }

  lemma ScanOfPresent(list: seq<FixtureState.Reference>, keys: seq<string>, store: FixtureState.Store, i: nat)
    requires Coherent(store) && EnumeratesBy(list, keys, store) && i < |list|
    ensures list[i].id == keys[i] && list[i] == store[keys[i]]
    ensures forall j :: 0 <= j < i ==> list[j].id != keys[i]
  {
    ListedAt(list, keys, store, i);
    forall j | 0 <= j < i
      ensures list[j].id != keys[i]
    {
      ListedAt(list, keys, store, j);
    }
  }

  /** Main theorem on the observer: for every iteration order of the map the scan equals the lookup. */
  lemma ScanIsLookup(list: seq<FixtureState.Reference>, store: FixtureState.Store, intentId: string,
                     found: DssReference)
    requires Coherent(store) && Enumerates(list, store) && Scanned(list, intentId, found)
    ensures Shows(found, store, intentId)
  {
    var keys :| EnumeratesBy(list, keys, store);
    if intentId in store {
      assert intentId in keys;
      var i :| 0 <= i < |keys| && keys[i] == intentId;
      ScanOfPresent(list, keys, store, i);
    } else {
      ScanOfAbsent(list, keys, store, intentId);
    }
  }

  /** The handler and the observer together, on the server object. */
  method ObserveServer(server: Server, r: FixtureState.Request, env: SoloRun.Environment, intentId: string)
    returns (found: DssReference)
    requires r.call.ReadState? && server.Valid()
    ensures Shows(found, server.references, intentId)
  {
    var reply, list := server.HandleState(r, env);
    found := ObserveDssReference(list, intentId);
    ScanIsLookup(list, server.references, intentId, found);
  }

  /** A snapshot of the publication row `row` and what the observer sees in `store`. */
  function SnapshotOf(row: Snapshot, store: FixtureState.Store): Snapshot {
    if row.intentId in store then
      var entry := store[row.intentId];
      row.(dssReferenceExists := true, dssVersion := entry.version, dssState := entry.state, dssOvn := entry.ovn)
    else row.(dssReferenceExists := false, dssVersion := 0, dssState := "", dssOvn := "")
  }

  /** Sampling: the publication row completed with what is observed of the server. */
  method TakeSnapshot(server: Server, r: FixtureState.Request, env: SoloRun.Environment, row: Snapshot)
    returns (s: Snapshot)
    requires r.call.ReadState? && server.Valid()
    ensures s == SnapshotOf(row, server.references)
    ensures s.dssReferenceExists <==> row.intentId in server.references
    ensures row.intentId in server.references ==>
      var entry := server.references[row.intentId];
      s.dssVersion == entry.version && s.dssState == entry.state && s.dssOvn == entry.ovn
    ensures row.intentId !in server.references ==> s.dssVersion == 0 && s.dssState == "" && s.dssOvn == ""
    ensures s.(dssReferenceExists := row.dssReferenceExists, dssVersion := row.dssVersion, dssState := row.dssState,
               dssOvn := row.dssOvn) == row
  {
    var found := ObserveServer(server, r, env, row.intentId);
    s := row.(dssReferenceExists := found.present);
    s := s.(dssVersion := found.version);
    s := s.(dssState := found.state);
    s := s.(dssOvn := found.ovn);
  }

  /** The checks on such a snapshot, in terms of the row and the stored entry. */
  lemma ChecksReadTheStore(row: Snapshot, store: FixtureState.Store)
    ensures ActiveRequiresDssActivated(SnapshotOf(row, store)).passed <==>
      (row.localStatus == "active" ==>
         && row.publishedVersion == row.localVersion && row.confirmedDssState == "Activated"
         && row.intentId in store && store[row.intentId].state == "Activated")
    ensures BlockedVersionHasNoDssReference(SnapshotOf(row, store)).passed <==>
      !(row.publicationSyncStatus == "blocked" && row.intentId in store
        && store[row.intentId].version >= row.desiredVersion)
  {
  }

  // ---- a violation is stable ----

  lemma VersionsNeverDecrease(c: FixtureState.Config, es: seq<Access>, id: string, i: nat, j: nat)
    requires i <= j <= |es| && SameIncarnation(c, es, id, i, j) && id in After(c, es[..i])
    ensures id in After(c, es[..j]) && After(c, es[..j])[id].version >= After(c, es[..i])[id].version
  {
    ChainGrows(c, es, id, i, j);
    VersionIsChainLength(c, es[..i], id);
    VersionIsChainLength(c, es[..j], id);
  }

  /** A blocked version that is visible stays visible while its incarnation lasts and the row wants no newer version. */
  lemma ViolationIsStable(c: FixtureState.Config, es: seq<Access>, row: Snapshot, row': Snapshot, i: nat, j: nat)
    requires i <= j <= |es| && SameIncarnation(c, es, row.intentId, i, j)
    requires row'.intentId == row.intentId
    requires row'.publicationSyncStatus == "blocked" && row'.desiredVersion <= row.desiredVersion
    requires !BlockedVersionHasNoDssReference(SnapshotOf(row, After(c, es[..i]))).passed
    ensures !BlockedVersionHasNoDssReference(SnapshotOf(row', After(c, es[..j]))).passed
  {
    VersionsNeverDecrease(c, es, row.intentId, i, j);
  }

  lemma {:induction false} SamplesComeFromRounds(rounds: seq<Round>, k: nat) returns (n: nat)
    requires k < |Samples(rounds)|
    ensures n < |rounds| && rounds[n].snapshot == Some(Samples(rounds)[k])
  {
    if Last(rounds).snapshot.Some? && k == |Samples(Front(rounds))| {
      n := |rounds| - 1;
    } else {
      n := SamplesComeFromRounds(Front(rounds), k);
    }
  }

  /** Round `n` of a polling run samples the fixture at a point of its history between `i` and `j`. */
  ghost predicate SampledWithin(c: FixtureState.Config, es: seq<Access>, row: Snapshot, i: nat, j: nat, s: Snapshot) {
    exists k, row': Snapshot :: i <= k <= j <= |es| && SampledAt(c, es, row, k, row', s)
  }

  ghost predicate SampledAt(c: FixtureState.Config, es: seq<Access>, row: Snapshot, k: nat, row': Snapshot,
                            s: Snapshot)
  {
    && k <= |es| && s == SnapshotOf(row', After(c, es[..k]))
    && row'.intentId == row.intentId
    && row'.publicationSyncStatus == "blocked" && row'.desiredVersion == row.desiredVersion
  }

  lemma SampleFails(c: FixtureState.Config, es: seq<Access>, row: Snapshot, i: nat, j: nat, s: Snapshot)
    requires i <= j <= |es| && SameIncarnation(c, es, row.intentId, i, j) && SampledWithin(c, es, row, i, j, s)
    requires !BlockedVersionHasNoDssReference(SnapshotOf(row, After(c, es[..i]))).passed
    ensures !BlockedVersionHasNoDssReference(s).passed
  {
    var k, row' :| i <= k <= j <= |es| && SampledAt(c, es, row, k, row', s);
    ViolationIsStable(c, es, row, row', i, k);
  }

  /** Every round of a polling run whose snapshot succeeded sampled the incarnation between `i` and `j`. */
  ghost predicate SamplesOnly(c: FixtureState.Config, es: seq<Access>, row: Snapshot, i: nat, j: nat,
                              rounds: seq<Round>)
  {
    forall k :: 0 <= k < |rounds| && rounds[k].snapshot.Some? ==>
      SampledWithin(c, es, row, i, j, rounds[k].snapshot.value)
  }

  lemma LastSampleFails(c: FixtureState.Config, es: seq<Access>, row: Snapshot, i: nat, j: nat, rounds: seq<Round>,
                        used: nat)
    requires i <= j <= |es| && SameIncarnation(c, es, row.intentId, i, j)
    requires !BlockedVersionHasNoDssReference(SnapshotOf(row, After(c, es[..i]))).passed
    requires SamplesOnly(c, es, row, i, j, rounds) && used <= |rounds| && Samples(rounds[..used]) != []
    ensures !BlockedVersionHasNoDssReference(Last(Samples(rounds[..used]))).passed
  {
    var samples := Samples(rounds[..used]);
    var r := SamplesComeFromRounds(rounds[..used], |samples| - 1);
    assert rounds[r].snapshot == Some(Last(samples));
    SampleFails(c, es, row, i, j, Last(samples));
  }

  /**
   Main theorem: in any schedule, once the check failed at some point, a polling run that includes it and
   samples only later points of the same incarnation, with the row still blocked at the same desired
   version, cannot converge, whatever its other checks and its timing.
   */
  lemma PollingCannotSucceed(c: FixtureState.Config, ls: seq<Label>, row: Snapshot, i: nat, j: nat,
                             rounds: seq<Round>, interval: int, checks: seq<Check>, n: nat,
                             used: nat, samples: seq<Snapshot>, results: seq<Result>, converged: bool, waits: seq<int>)
    requires var es := Accesses(c, ls);
      && i <= j <= |es| && SameIncarnation(c, es, row.intentId, i, j)
      && !BlockedVersionHasNoDssReference(SnapshotOf(row, After(c, es[..i]))).passed
      && SamplesOnly(c, es, row, i, j, rounds)
    requires n < |checks| && forall s: Snapshot :: checks[n](s) == BlockedVersionHasNoDssReference(s)
    requires Converges(rounds, interval, checks, used, samples, results, converged, waits)
    ensures !converged
  {
    if samples != [] {
      LastSampleFails(c, Accesses(c, ls), row, i, j, rounds, used);
      assert !checks[n](Last(samples)).passed;
    }
  }
}
