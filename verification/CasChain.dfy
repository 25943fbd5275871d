/**
 Optimistic concurrency on the store. An incarnation of an identifier lasts from its create to
 the next delete or reset; within it the writes form a chain of versions 1, 2, 3, ..., every
 committed update or delete presented the OVN of the write just before it, and no two of them
 presented the same one. The claims are about any order of atomic accesses, hence by
 `Linearizability.EveryScheduleLinearizes` about every schedule of the concurrent fixture.
 */
module CasChain {
  import opened Wrappers
  import opened FixtureState
  import opened AtomicStore
  import opened Linearizability
  import opened Schedule
  import Ovn

  // ---- writes, endings and incarnations ----

  predicate Writes(outcome: Outcome, id: string) {
    (outcome.Created? || outcome.Updated? || outcome.Rotated?) && outcome.reference.id == id
  }

  predicate Ends(outcome: Outcome, id: string) {
    outcome.Cleared? || (outcome.Deleted? && outcome.reference.id == id)
  }

  /** No access from `i` up to `j` deletes the identifier or resets the store. */
  ghost predicate SameIncarnation(c: Config, es: seq<Access>, id: string, i: int, j: int)
    requires 0 <= i <= j <= |es|
  {
    forall k :: i <= k < j ==> !Ends(OutcomeOf(c, es, k), id)
  }

  /** No access from `i` up to `j` changes the identifier's entry. */
  ghost predicate Unchanged(c: Config, es: seq<Access>, id: string, i: int, j: int)
    requires 0 <= i <= j <= |es|
  {
    forall k :: i <= k < j ==> !Ends(OutcomeOf(c, es, k), id) && !Writes(OutcomeOf(c, es, k), id)
  }

  /** The positions of the writes of the identifier's current incarnation, oldest first. */
  function Incarnation(c: Config, es: seq<Access>, id: string): (ks: seq<nat>)
    ensures forall i :: 0 <= i < |ks| ==> ks[i] < |es|
    ensures forall i, j :: 0 <= i < j < |ks| ==> ks[i] < ks[j]
  {
    if es == [] then []
    else
      var outcome := OutcomeOf(c, es, |es| - 1);
      if Ends(outcome, id) then []
      else if Writes(outcome, id) then Incarnation(c, Front(es), id) + [|es| - 1]
      else Incarnation(c, Front(es), id)
  }

  /** The OVN a request presents; only updates and deletes do. */
  predicate Presents(call: Call, id: string, ovn: string) {
    (call.Update? || call.Delete?) && call.id == id && call.ovn == ovn
  }

  predicate CommitsWith(c: Config, es: seq<Access>, k: nat, id: string, ovn: string)
    requires k < |es|
  {
    Presents(es[k].call, id, ovn) && Commits(OutcomeOf(c, es, k))
  }

  // ---- the chain ----

  /** One link: the `n`-th write of an incarnation, at position `k`. */
  ghost predicate Link(c: Config, es: seq<Access>, id: string, n: nat, k: nat)
    requires k < |es|
  {
    var outcome := OutcomeOf(c, es, k);
    && Writes(outcome, id)
    && outcome.reference.version == n + 1
    && outcome.reference.ovn == Ovn.Print(id, n + 1)
    && (outcome.Created? <==> n == 0)
    && (outcome.Updated? ==> Presents(es[k].call, id, Ovn.Print(id, n)))
  }

  /** What one atomic access does to one identifier's entry. */
  lemma AtomicEffect(c: Config, store: Store, call: Call, clock: int, id: string)
    requires Coherent(store)
    ensures var (store', outcome) := Atomic(c, store, call, clock);
      && (Ends(outcome, id) ==> id !in store')
      && (Writes(outcome, id) ==>
            && id in store' && store'[id] == outcome.reference
            && (outcome.Created? <==> id !in store)
            && outcome.reference.version == (if id in store then store[id].version else 0) + 1
            && (outcome.Updated? ==> Presents(call, id, store[id].ovn)))
      && (!Ends(outcome, id) && !Writes(outcome, id) ==> Lookup(store', id) == Lookup(store, id))
  {
  }

  /** The same for the last access of a sequence. */
  lemma LastEffect(c: Config, es: seq<Access>, id: string)
    requires es != []
    ensures Coherent(After(c, es)) && Coherent(After(c, Front(es)))
    ensures var store, store', outcome := After(c, Front(es)), After(c, es), OutcomeOf(c, es, |es| - 1);
      && (Ends(outcome, id) ==> id !in store')
      && (Writes(outcome, id) ==>
            && id in store' && store'[id] == outcome.reference
            && (outcome.Created? <==> id !in store)
            && outcome.reference.version == (if id in store then store[id].version else 0) + 1
            && (outcome.Updated? ==> Presents(Last(es).call, id, store[id].ovn)))
      && (!Ends(outcome, id) && !Writes(outcome, id) ==> Lookup(store', id) == Lookup(store, id))
  {
    AfterIsCoherent(c, es);
    AfterIsCoherent(c, Front(es));
    AtomicEffect(c, After(c, Front(es)), Last(es).call, Last(es).clock, id);
  }

  lemma {:induction false} VersionIsChainLength(c: Config, es: seq<Access>, id: string)
    ensures id in After(c, es) <==> Incarnation(c, es, id) != []
    ensures id in After(c, es) ==> After(c, es)[id].version == |Incarnation(c, es, id)|
  {
    if es != [] {
      VersionIsChainLength(c, Front(es), id);
      LastEffect(c, es, id);
    }
  }

  lemma LinkExtends(c: Config, front: seq<Access>, e: Access, id: string, n: nat, k: nat)
    requires k < |front| && Link(c, front, id, n, k)
    ensures Link(c, front + [e], id, n, k)
  {
    OutcomeOfAppend(c, front, [e], k);
  }

  /** The last access extends the chain by a link. */
  lemma NewLink(c: Config, es: seq<Access>, id: string)
    requires es != [] && Writes(OutcomeOf(c, es, |es| - 1), id)
    ensures Link(c, es, id, |Incarnation(c, Front(es), id)|, |es| - 1)
  {
    LastEffect(c, es, id);
    VersionIsChainLength(c, Front(es), id);
  }

  ghost predicate Linked(c: Config, es: seq<Access>, id: string, chain: seq<nat>) {
    forall n :: 0 <= n < |chain| ==> chain[n] < |es| && Link(c, es, id, n, chain[n])
  }

  lemma LinkedExtends(c: Config, front: seq<Access>, e: Access, id: string, chain: seq<nat>)
    requires Linked(c, front, id, chain)
    ensures Linked(c, front + [e], id, chain)
  {
    forall n | 0 <= n < |chain|
      ensures chain[n] < |front + [e]| && Link(c, front + [e], id, n, chain[n])
    {
      LinkExtends(c, front, e, id, n, chain[n]);
    }
  }

  lemma LinkedAppend(c: Config, es: seq<Access>, id: string, chain: seq<nat>, k: nat)
    requires Linked(c, es, id, chain) && k < |es| && Link(c, es, id, |chain|, k)
    ensures Linked(c, es, id, chain + [k])
  {
  }

  /** The store holds the last link, if there is one. */
  ghost predicate HoldsLast(c: Config, es: seq<Access>, id: string) {
    var chain := Incarnation(c, es, id);
    && (id in After(c, es) <==> chain != [])
    && (chain != [] ==>
          && Writes(OutcomeOf(c, es, Last(chain)), id)
          && After(c, es)[id] == OutcomeOf(c, es, Last(chain)).reference)
  }

  ghost predicate Chained(c: Config, es: seq<Access>, id: string) {
    Linked(c, es, id, Incarnation(c, es, id)) && HoldsLast(c, es, id)
  }

  /** The chain after one more access, taken apart. */
  lemma IncarnationLast(c: Config, es: seq<Access>, id: string)
    requires es != []
    ensures var outcome, before := OutcomeOf(c, es, |es| - 1), Incarnation(c, Front(es), id);
      Incarnation(c, es, id) ==
        if Ends(outcome, id) then [] else if Writes(outcome, id) then before + [|es| - 1] else before
  {
  }

  lemma ChainExtendedByWrite(c: Config, es: seq<Access>, id: string)
    requires es != [] && Writes(OutcomeOf(c, es, |es| - 1), id)
    requires Linked(c, Front(es), id, Incarnation(c, Front(es), id))
    ensures Linked(c, es, id, Incarnation(c, es, id))
  {
    var chain := Incarnation(c, Front(es), id);
    assert es == Front(es) + [Last(es)];
    IncarnationLast(c, es, id);
    NewLink(c, es, id);
    LinkedExtends(c, Front(es), Last(es), id, chain);
    LinkedAppend(c, es, id, chain, |es| - 1);
  }

  lemma LastHeldAfterWrite(c: Config, es: seq<Access>, id: string)
    requires es != [] && Writes(OutcomeOf(c, es, |es| - 1), id)
    ensures HoldsLast(c, es, id)
  {
    LastEffect(c, es, id);
    IncarnationLast(c, es, id);
  }

  lemma LastHeldStill(c: Config, es: seq<Access>, id: string)
    requires es != [] && HoldsLast(c, Front(es), id)
    requires !Writes(OutcomeOf(c, es, |es| - 1), id) && !Ends(OutcomeOf(c, es, |es| - 1), id)
    ensures HoldsLast(c, es, id)
  {
    var chain := Incarnation(c, Front(es), id);
    assert es == Front(es) + [Last(es)];
    LastEffect(c, es, id);
    IncarnationLast(c, es, id);
    if chain != [] {
      OutcomeOfAppend(c, Front(es), [Last(es)], Last(chain));
    }
  }

  lemma ChainKept(c: Config, es: seq<Access>, id: string)
    requires es != [] && Linked(c, Front(es), id, Incarnation(c, Front(es), id))
    requires !Writes(OutcomeOf(c, es, |es| - 1), id) && !Ends(OutcomeOf(c, es, |es| - 1), id)
    ensures Linked(c, es, id, Incarnation(c, es, id))
  {
    assert es == Front(es) + [Last(es)];
    IncarnationLast(c, es, id);
    LinkedExtends(c, Front(es), Last(es), id, Incarnation(c, Front(es), id));
  }

  /**
   Main theorem, at any point of any order of accesses: the current incarnation's committed
   versions are exactly 1, 2, ..., k, written in that order, the first by a create and every
   update presenting its predecessor's OVN; the store holds the last of them.
   */
  lemma {:induction false} CommittedVersionsFormAChain(c: Config, es: seq<Access>, id: string)
    ensures Chained(c, es, id)
  {
    if es != [] {
      CommittedVersionsFormAChain(c, Front(es), id);
      if Writes(OutcomeOf(c, es, |es| - 1), id) {
        ChainExtendedByWrite(c, es, id);
        LastHeldAfterWrite(c, es, id);
      } else if Ends(OutcomeOf(c, es, |es| - 1), id) {
        LastEffect(c, es, id);
      } else {
        ChainKept(c, es, id);
        LastHeldStill(c, es, id);
      }
    }
  }

  /**
   An update or delete commits exactly if it presents the OVN of the last write of the identifier's current
   incarnation: an OVN read in an earlier one is accepted again exactly when this one has got to its version.
   */
  lemma CommitsIffPresentsLastOvn(c: Config, es: seq<Access>, k: nat, id: string, ovn: string)
    requires k < |es| && Presents(es[k].call, id, ovn) && Touches(es[k].call)
    ensures var chain := Incarnation(c, es[..k], id);
      Commits(OutcomeOf(c, es, k)) <==> chain != [] && ovn == Ovn.Print(id, |chain|)
  {
    VersionIsChainLength(c, es[..k], id);
    AfterIsCoherent(c, es[..k]);
  }

  // ---- a single winner ----

  lemma IncarnationStep(c: Config, es: seq<Access>, id: string, k: nat)
    requires k < |es|
    ensures
      var before, after := Incarnation(c, es[..k], id), Incarnation(c, es[..k + 1], id);
      var outcome := OutcomeOf(c, es, k);
      after == if Ends(outcome, id) then [] else if Writes(outcome, id) then before + [k] else before
  {
    assert es[..k + 1] == es[..k] + [es[k]] && Front(es[..k + 1]) == es[..k];
    assert es[..k + 1][..k] == es[..k];
  }

  /** Within an incarnation the chain only grows. */
  lemma {:induction false} ChainGrows(c: Config, es: seq<Access>, id: string, i: nat, j: nat)
    requires i <= j <= |es| && SameIncarnation(c, es, id, i, j)
    ensures Incarnation(c, es[..i], id) <= Incarnation(c, es[..j], id)
    decreases j - i
  {
    if i < j {
      IncarnationStep(c, es, id, i);
      ChainGrows(c, es, id, i + 1, j);
    }
  }

  /** A commit that does not end the incarnation adds a link to it. */
  lemma CommitLengthensChain(c: Config, es: seq<Access>, k: nat, id: string, ovn: string)
    requires k < |es| && CommitsWith(c, es, k, id, ovn) && !Ends(OutcomeOf(c, es, k), id)
    ensures |Incarnation(c, es[..k + 1], id)| == |Incarnation(c, es[..k], id)| + 1
  {
    AfterIsCoherent(c, es[..k]);
    CommitWrites(c, After(c, es[..k]), es[k].call, es[k].clock, id, ovn);
    IncarnationStep(c, es, id, k);
  }

  lemma CommitWrites(c: Config, store: Store, call: Call, clock: int, id: string, ovn: string)
    requires Coherent(store) && Presents(call, id, ovn) && Commits(Atomic(c, store, call, clock).1)
    ensures Ends(Atomic(c, store, call, clock).1, id) || Writes(Atomic(c, store, call, clock).1, id)
  {
  }

  /** Within an incarnation, commits presenting one OVN are at chains of one length. */
  lemma SameOvnSameLength(c: Config, es: seq<Access>, id: string, ovn: string, i: nat, j: nat)
    requires i < |es| && j < |es| && CommitsWith(c, es, i, id, ovn) && CommitsWith(c, es, j, id, ovn)
    ensures |Incarnation(c, es[..i], id)| == |Incarnation(c, es[..j], id)|
  {
    CommitsIffPresentsLastOvn(c, es, i, id, ovn);
    CommitsIffPresentsLastOvn(c, es, j, id, ovn);
    Ovn.PrintInjective(id, |Incarnation(c, es[..i], id)|, id, |Incarnation(c, es[..j], id)|);
  }

  /** Of all updates and deletes presenting one OVN of one incarnation, at most one commits. */
  lemma SingleWinner(c: Config, es: seq<Access>, id: string, ovn: string, i: nat, j: nat)
    requires i < j < |es|
    requires CommitsWith(c, es, i, id, ovn) && CommitsWith(c, es, j, id, ovn)
    ensures !SameIncarnation(c, es, id, i, j)
  {
    SameOvnSameLength(c, es, id, ovn, i, j);
    if SameIncarnation(c, es, id, i, j) {
      CommitLengthensChain(c, es, i, id, ovn);
      ChainGrows(c, es, id, i + 1, j);
      assert false;
    }
  }
}
