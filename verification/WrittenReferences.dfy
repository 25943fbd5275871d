/**
 What committed creates and updates write, field by field, and what becomes of it: at every point of every
 schedule a stored entry is what the latest create or update of its incarnation asked for, under the version
 and OVN that the rotations since then have given it.
 */
module WrittenReferences {
  import opened Wrappers
  import opened FixtureState
  import opened AtomicStore
  import opened Schedule
  import opened Linearizability
  import opened CasChain
  import Ovn

  /** The entry is what a request with this body asked for at this time; only version and OVN are left open. */
  ghost predicate WrittenFrom(c: Config, reference: Reference, id: string, body: PutBody, clock: int) {
    && reference.id == id
    && reference.manager == c.manager
    && reference.state == body.state
    && reference.volumes == body.extents
    && (body.ussBaseUrl != "" ==> reference.ussBaseUrl == body.ussBaseUrl)
    && (body.ussBaseUrl == "" ==> reference.ussBaseUrl == c.peerBaseUrl)
    && reference.subscriptionId == "33333333-3333-4333-8333-333333333333"
    && reference.ussAvailability == "Normal"
    && reference.timeStart == clock - 60
    && reference.timeEnd == clock - 60 + 3600
  }

  /** A create or update that the store section let through. */
  predicate Puts(c: Config, es: seq<Access>, k: nat, id: string)
    requires k < |es|
  {
    && (es[k].call.Create? || es[k].call.Update?) && es[k].call.id == id && es[k].call.body.Some?
    && (OutcomeOf(c, es, k).Created? || OutcomeOf(c, es, k).Updated?)
  }

  /** What one committed create or update writes and what its client is told; a create starts at version 1. */
  lemma CommitWritesBody(c: Config, store: Store, call: Call, clock: int)
    requires var outcome := Atomic(c, store, call, clock).1; outcome.Created? || outcome.Updated?
    ensures (call.Create? || call.Update?) && call.body.Some?
    ensures var (store', outcome) := Atomic(c, store, call, clock);
      && call.id in store' && store' == store[call.id := store'[call.id]] && store'[call.id] == outcome.reference
      && WrittenFrom(c, outcome.reference, call.id, call.body.value, clock)
      && (call.Create? ==> outcome.Created? && call.id !in store && outcome.reference.version == 1)
      && (call.Update? ==> outcome.Updated? && call.id in store && call.ovn == store[call.id].ovn
                           && outcome.reference.version == store[call.id].version + 1)
      && outcome.reference.ovn == Ovn.Print(call.id, outcome.reference.version)
  {
  }

  /** The same at a store section of any schedule. */
  lemma CommittedReference(c: Config, es: seq<Access>, k: nat)
    requires k < |es| && (OutcomeOf(c, es, k).Created? || OutcomeOf(c, es, k).Updated?)
    ensures Puts(c, es, k, es[k].call.id)
    ensures WrittenFrom(c, OutcomeOf(c, es, k).reference, es[k].call.id, es[k].call.body.value, es[k].clock)
    ensures var id, after := es[k].call.id, After(c, es[..k + 1]);
      id in after && after[id] == OutcomeOf(c, es, k).reference
  {
    CommitWritesBody(c, After(c, es[..k]), es[k].call, es[k].clock);
    AfterStep(c, es, k);
  }

  /** `k` is the latest create or update of the identifier's incarnation: only rotations changed the entry since. */
  ghost predicate LatestPut(c: Config, es: seq<Access>, k: nat, id: string) {
    && k < |es| && Puts(c, es, k, id)
    && forall j :: k < j < |es| ==>
         && !Ends(OutcomeOf(c, es, j), id)
         && (Writes(OutcomeOf(c, es, j), id) ==> OutcomeOf(c, es, j).Rotated?)
  }

  ghost predicate CarriesPut(c: Config, es: seq<Access>, k: nat, id: string, reference: Reference) {
    LatestPut(c, es, k, id) && WrittenFrom(c, reference, id, es[k].call.body.value, es[k].clock)
  }

  /** One access that neither writes the entry, unless it rotates it, nor ends the incarnation. */
  lemma EntryCarriesOver(c: Config, store: Store, call: Call, clock: int, id: string, body: PutBody, at: int)
    requires Coherent(store)
    requires var (store', outcome) := Atomic(c, store, call, clock);
      !Ends(outcome, id) && (Writes(outcome, id) ==> outcome.Rotated?) && id in store'
    ensures id in store
    ensures WrittenFrom(c, store[id], id, body, at) ==>
      WrittenFrom(c, Atomic(c, store, call, clock).0[id], id, body, at)
  {
  }

  lemma LatestPutExtends(c: Config, front: seq<Access>, e: Access, k: nat, id: string)
    requires LatestPut(c, front, k, id)
    requires var outcome := OutcomeOf(c, front + [e], |front|);
      !Ends(outcome, id) && (Writes(outcome, id) ==> outcome.Rotated?)
    ensures LatestPut(c, front + [e], k, id)
  {
    var es := front + [e];
    forall j | 0 <= j < |front|
      ensures OutcomeOf(c, es, j) == OutcomeOf(c, front, j) && es[j] == front[j]
    {
      OutcomeOfAppend(c, front, [e], j);
    }
  }

  lemma {:induction false} EntryIsLatestPut(c: Config, es: seq<Access>, id: string) returns (k: nat)
    requires id in After(c, es)
    ensures CarriesPut(c, es, k, id, After(c, es)[id])
  {
    var front, e, last := Front(es), Last(es), |es| - 1;
    assert es == front + [e] && es[..last] == front;
    var outcome := OutcomeOf(c, es, last);
    AfterIsCoherent(c, front);
    LastEffect(c, es, id);
    if Writes(outcome, id) && !outcome.Rotated? {
      CommitWritesBody(c, After(c, front), e.call, e.clock);
      k := last;
    } else {
      EntryCarriesOver(c, After(c, front), e.call, e.clock, id, PutBody("", "", []), 0);
      k := EntryIsLatestPut(c, front, id);
      LatestPutExtends(c, front, e, k, id);
      EntryCarriesOver(c, After(c, front), e.call, e.clock, id, front[k].call.body.value, front[k].clock);
    }
  }

  /** Main theorem: what is stored after any schedule is what the latest committed create or update asked for. */
  lemma StoredEntryIsLatestPut(c: Config, ls: seq<Label>, id: string) returns (k: nat)
    requires id in Run(c, ls).server.references
    ensures CarriesPut(c, Accesses(c, ls), k, id, Run(c, ls).server.references[id])
  {
    EveryScheduleLinearizes(c, ls);
    k := EntryIsLatestPut(c, Accesses(c, ls), id);
  }

  /** A rotation changes nothing but version and OVN. */
  lemma RotationKeepsFields(c: Config, store: Store, id: string, clock: int)
    requires id in store
    ensures var store' := Atomic(c, store, RotateOvn(id), clock).0;
      && id in store' && store' == store[id := store'[id]]
      && store'[id] == store[id].(version := store[id].version + 1, ovn := Ovn.Print(id, store[id].version + 1))
  {
  }
}
