/**
 What a client that lost a response, or was told its OVN is stale, can rely on. Positions are
 in the order of store accesses, so the claims hold under any concurrency.
 */
module RetrySafety {
  import opened Wrappers
  import opened FixtureState
  import opened HandlerProgram
  import opened AtomicStore
  import opened Linearizability
  import opened Schedule
  import opened CasChain
  import opened JournalNumbering
  import opened JournalBalance
  import Ovn

  // ---- create retries ----

  predicate Creates(call: Call, id: string) {
    call.Create? && call.id == id && call.body.Some?
  }

  lemma {:induction false} StaysStored(c: Config, es: seq<Access>, id: string, i: nat, j: nat)
    requires i <= j <= |es| && SameIncarnation(c, es, id, i, j) && id in After(c, es[..i])
    ensures id in After(c, es[..j])
    decreases j - i
  {
    if i < j {
      assert !Ends(OutcomeOf(c, es, i), id);
      AfterIsCoherent(c, es[..i]);
      AfterStep(c, es, i);
      AtomicEffect(c, After(c, es[..i]), es[i].call, es[i].clock, id);
      StaysStored(c, es, id, i + 1, j);
    }
  }

  lemma {:induction false} StaysAbsentUntilCreated(c: Config, es: seq<Access>, id: string, i: nat, j: nat)
    requires i <= j <= |es| && id !in After(c, es[..i])
    requires forall k :: i <= k < j ==> !Creates(es[k].call, id)
    ensures id !in After(c, es[..j])
    decreases j - i
  {
    if i < j {
      AfterStep(c, es, i);
      StaysAbsentUntilCreated(c, es, id, i + 1, j);
    }
  }

  /** The earliest create of the identifier from position `p` on. */
  lemma FirstCreate(es: seq<Access>, id: string, p: nat, k: nat) returns (first: nat)
    requires p <= k < |es| && Creates(es[k].call, id)
    ensures p <= first < |es| && Creates(es[first].call, id)
    ensures forall j :: p <= j < first ==> !Creates(es[j].call, id)
  {
    first := p;
    while !Creates(es[first].call, id)
      invariant p <= first <= k
      invariant forall j :: p <= j < first ==> !Creates(es[j].call, id)
      decreases k - first
    {
      first := first + 1;
    }
  }

  /**
   Any number of creates of an absent identifier, from any clients, with no delete or reset among
   them: the first commits and every other is told that the reference exists.
   */
  lemma CreateRetriesCommitOnce(c: Config, es: seq<Access>, id: string, p: nat, k: nat) returns (first: nat)
    requires p <= k < |es| && Creates(es[k].call, id)
    requires id !in After(c, es[..p]) && SameIncarnation(c, es, id, p, |es|)
    ensures p <= first < |es| && Creates(es[first].call, id) && OutcomeOf(c, es, first).Created?
    ensures forall j :: p <= j < |es| && Creates(es[j].call, id) && j != first ==>
                          first < j && OutcomeOf(c, es, j) == AlreadyExists
    ensures id in After(c, es)
  {
    first := FirstCreate(es, id, p, k);
    StaysAbsentUntilCreated(c, es, id, p, first);
    AfterStep(c, es, first);
    forall j | first < j <= |es|
      ensures id in After(c, es[..j])
    {
      StaysStored(c, es, id, first + 1, j);
    }
    assert es[..|es|] == es;
  }

  // ---- presenting an OVN that was read ----

  lemma {:induction false} EntryUnchanged(c: Config, es: seq<Access>, id: string, i: nat, j: nat)
    requires i <= j <= |es| && Unchanged(c, es, id, i, j)
    ensures Lookup(After(c, es[..j]), id) == Lookup(After(c, es[..i]), id)
    decreases j - i
  {
    if i < j {
      assert !Ends(OutcomeOf(c, es, i), id);
      AfterIsCoherent(c, es[..i]);
      AfterStep(c, es, i);
      AtomicEffect(c, After(c, es[..i]), es[i].call, es[i].clock, id);
      EntryUnchanged(c, es, id, i + 1, j);
    }
  }

  /** What an outcome tells its client about the identifier's current OVN. */
  predicate RevealsBy(call: Call, outcome: Outcome, id: string, ovn: string) {
    match outcome
    case Found(reference) => reference.id == id && reference.ovn == ovn
    case Listed(references) => id in references && references[id].ovn == ovn
    case Created(reference) => reference.id == id && reference.ovn == ovn
    case Updated(reference) => reference.id == id && reference.ovn == ovn
    case Rotated(reference) => reference.id == id && reference.ovn == ovn
    case Stale(current) => (call.Update? || call.Delete?) && call.id == id && current == ovn
    case _ => false
  }

  predicate Reveals(c: Config, es: seq<Access>, i: nat, id: string, ovn: string)
    requires i < |es|
  {
    RevealsBy(es[i].call, OutcomeOf(c, es, i), id, ovn)
  }

  lemma AtomicReveals(c: Config, store: Store, call: Call, clock: int, id: string, ovn: string)
    requires Coherent(store)
    ensures var (store', outcome) := Atomic(c, store, call, clock);
      RevealsBy(call, outcome, id, ovn) ==> id in store' && store'[id].ovn == ovn
  {
  }

  /** What an access revealed is the OVN in the store right after it. */
  lemma RevealedIsStored(c: Config, es: seq<Access>, i: nat, id: string, ovn: string)
    requires i < |es| && Reveals(c, es, i, id, ovn)
    ensures id in After(c, es[..i + 1]) && After(c, es[..i + 1])[id].ovn == ovn
  {
    AfterIsCoherent(c, es[..i]);
    AfterStep(c, es, i);
    AtomicReveals(c, After(c, es[..i]), es[i].call, es[i].clock, id, ovn);
  }

  /** What an access revealed is the OVN of the incarnation's last write. */
  lemma RevealedIsLastOvn(c: Config, es: seq<Access>, i: nat, id: string, ovn: string)
    requires i < |es| && Reveals(c, es, i, id, ovn)
    ensures var chain := Incarnation(c, es[..i + 1], id); chain != [] && ovn == Ovn.Print(id, |chain|)
  {
    RevealedIsStored(c, es, i, id, ovn);
    VersionIsChainLength(c, es[..i + 1], id);
    AfterIsCoherent(c, es[..i + 1]);
  }

  lemma UnchangedSplits(c: Config, es: seq<Access>, id: string, i: nat, j: nat)
    requires i < j <= |es| && SameIncarnation(c, es, id, i, j)
    ensures !Ends(OutcomeOf(c, es, i), id) && SameIncarnation(c, es, id, i + 1, j)
    ensures Unchanged(c, es, id, i, j) <==> !Writes(OutcomeOf(c, es, i), id) && Unchanged(c, es, id, i + 1, j)
  {
  }

  function Length(c: Config, es: seq<Access>, id: string, i: nat): nat
    requires i <= |es|
  {
    |Incarnation(c, es[..i], id)|
  }

  lemma LengthStep(c: Config, es: seq<Access>, id: string, i: nat, j: nat)
    requires i < j <= |es| && SameIncarnation(c, es, id, i, j)
    ensures Length(c, es, id, i + 1) == Length(c, es, id, i) + if Writes(OutcomeOf(c, es, i), id) then 1 else 0
    ensures Length(c, es, id, i + 1) <= Length(c, es, id, j)
  {
    UnchangedSplits(c, es, id, i, j);
    IncarnationStep(c, es, id, i);
    ChainGrows(c, es, id, i + 1, j);
  }

  /** Within an incarnation the chain keeps its length exactly as long as the entry is unchanged. */
  lemma {:induction false} LengthKeptIffUnchanged(c: Config, es: seq<Access>, id: string, i: nat, j: nat)
    requires i <= j <= |es| && SameIncarnation(c, es, id, i, j)
    ensures Length(c, es, id, j) == Length(c, es, id, i) <==> Unchanged(c, es, id, i, j)
    decreases j - i
  {
    if i < j {
      UnchangedSplits(c, es, id, i, j);
      LengthStep(c, es, id, i, j);
      LengthKeptIffUnchanged(c, es, id, i + 1, j);
    }
  }

  /**
   Presenting a revealed OVN in an update or delete commits if and only if the identifier's incarnation is as
   long as when the OVN was revealed: within one incarnation, if and only if no other write came in between.
   A write in between forces the refusal; after a delete or reset the OVN works again once its version recurs.
   */
  lemma PresentingRevealedOvn(c: Config, es: seq<Access>, i: nat, j: nat, id: string, ovn: string)
    requires i < j < |es| && Reveals(c, es, i, id, ovn)
    requires Presents(es[j].call, id, ovn) && Touches(es[j].call)
    ensures Commits(OutcomeOf(c, es, j)) <==>
      |Incarnation(c, es[..j], id)| == |Incarnation(c, es[..i + 1], id)|
    ensures SameIncarnation(c, es, id, i + 1, j) ==>
      if Unchanged(c, es, id, i + 1, j) then Commits(OutcomeOf(c, es, j)) else OutcomeOf(c, es, j).Stale?
  {
    var then_, now := Incarnation(c, es[..i + 1], id), Incarnation(c, es[..j], id);
    RevealedIsLastOvn(c, es, i, id, ovn);
    CommitsIffPresentsLastOvn(c, es, j, id, ovn);
    if ovn == Ovn.Print(id, |now|) {
      Ovn.PrintInjective(id, |then_|, id, |now|);
    }
    if SameIncarnation(c, es, id, i + 1, j) {
      LengthKeptIffUnchanged(c, es, id, i + 1, j);
      ChainGrows(c, es, id, i + 1, j);
      VersionIsChainLength(c, es[..j], id);
    }
  }

  // ---- the same at the level of replies ----

  /** The reply tells its client the identifier's current OVN: a read, a listing, a commit, or a stale-OVN refusal. */
  predicate Tells(call: Call, reply: Reply, id: string, ovn: string) {
    match reply
    case Answer(200, One(reference)) => reference.id == id && reference.ovn == ovn
    case Answer(200, Details(reference)) => reference.id == id && reference.ovn == ovn
    case Answer(200, Listing(references)) => id in references && references[id].ovn == ovn
    case Answer(201, Committed(reference, _)) => reference.id == id && reference.ovn == ovn
    case Answer(200, Committed(reference, _)) => call.Update? && reference.id == id && reference.ovn == ovn
    case Answer(409, StaleOvn(current)) => (call.Update? || call.Delete?) && call.id == id && current == ovn
    case _ => false
  }

  lemma ToldIsRevealed(c: Config, store: Store, call: Call, clock: int, fault: Option<FaultSnapshot>,
                       id: string, ovn: string)
    requires Coherent(store) && Touches(call)
    requires var outcome := Atomic(c, store, call, clock).1;
      Tells(call, Seen(outcome, AnswerFor(c, call, outcome), fault), id, ovn)
    ensures RevealsBy(call, Atomic(c, store, call, clock).1, id, ovn)
  {
  }

  /** Told by an access, as a handler with this fault passes it on. */
  lemma ToldByAccess(c: Config, es: seq<Access>, k: nat, fault: Option<FaultSnapshot>, id: string, ovn: string)
    requires k < |es| && Touches(es[k].call)
    requires var outcome := OutcomeOf(c, es, k);
      Tells(es[k].call, Seen(outcome, AnswerFor(c, es[k].call, outcome), fault), id, ovn)
    ensures Reveals(c, es, k, id, ovn)
  {
    AfterIsCoherent(c, es[..k]);
    ToldIsRevealed(c, After(c, es[..k]), es[k].call, es[k].clock, fault, id, ovn);
  }

  lemma BypassTellsNothing(call: Call, status: int, reply: Reply, fault: Option<FaultSnapshot>, id: string, ovn: string)
    requires Bypassed(call, status, reply, fault)
    ensures !Tells(call, reply, id, ovn)
  {
  }

  lemma TellingReply(c: Config, es: seq<Access>, t: nat, call: Call, pc: Pc, id: string, ovn: string)
    returns (k: nat, fault: Option<FaultSnapshot>)
    requires HandlerOk(c, es, t, call, pc) && pc.Done? && Touches(call) && Tells(call, pc.reply, id, ovn)
    ensures k < |es| && es[k].t == t && es[k].call == call
    ensures pc.reply == Seen(OutcomeOf(c, es, k), AnswerFor(c, call, OutcomeOf(c, es, k)), fault)
  {
    match pc.journaled
    case None =>
      k :| IsAccess(es, k, t, call) && pc.reply == AnswerFor(c, call, OutcomeOf(c, es, k));
      fault := None;
    case Some(e) =>
      if Absent(es, t) && Bypassed(call, e.status, pc.reply, e.fault) {
        BypassTellsNothing(call, e.status, pc.reply, e.fault, id, ovn);
        assert false;
      }
      k :| Linearized(c, es, k, t, call, e.status, pc.reply, e.fault);
      fault := e.fault;
  }

  /** Who was told an OVN, by a DSS or peer request or by the control plane, was told it by the store. */
  lemma ToldAt(c: Config, ls: seq<Label>, t: nat, id: string, ovn: string) returns (k: nat)
    requires t in Run(c, ls).threads && Run(c, ls).threads[t].pc.Done?
    requires Tells(Run(c, ls).threads[t].request.call, Run(c, ls).threads[t].pc.reply, id, ovn)
    requires Touches(Run(c, ls).threads[t].request.call)
    ensures k < |Accesses(c, ls)| && Accesses(c, ls)[k].t == t && Reveals(c, Accesses(c, ls), k, id, ovn)
  {
    EveryScheduleLinearizes(c, ls);
    var th, fault := Run(c, ls).threads[t], None;
    k, fault := TellingReply(c, Accesses(c, ls), t, th.request.call, th.pc, id, ovn);
    ToldByAccess(c, Accesses(c, ls), k, fault, id, ovn);
  }

  /** A journaled request that reaches the store and was not stopped by its fault. */
  ghost predicate LetIn(m: Machine, t: nat) {
    && HasJournaled(m, t) && Touches(m.threads[t].request.call)
    && !Stopped(m.threads[t].pc.journaled.value.status, m.threads[t].pc.journaled.value.fault)
  }

  function EventOf(m: Machine, t: nat): Event
    requires HasJournaled(m, t)
  {
    m.threads[t].pc.journaled.value
  }

  /** The event of such a request tells what its store section did. */
  lemma AccessOf(c: Config, ls: seq<Label>, t: nat) returns (k: nat)
    requires LetIn(Run(c, ls), t)
    ensures var es, m, e := Accesses(c, ls), Run(c, ls), EventOf(Run(c, ls), t);
      && k < |es| && es[k].t == t && es[k].call == m.threads[t].request.call
      && e.status == JournalStatus(c, es[k].call, OutcomeOf(c, es, k), e.fault)
      && (DenotesCommit(e.operation, e.status, e.fault) <==> Commits(OutcomeOf(c, es, k)))
  {
    FinishedRequestIsSettled(c, ls, t);
    var th, es, e := Run(c, ls).threads[t], Accesses(c, ls), EventOf(Run(c, ls), t);
    k :| Linearized(c, es, k, t, th.request.call, e.status, th.pc.reply, e.fault);
    StatusRevealsCommit(c, After(c, es[..k]), th.request.call, es[k].clock, e.fault);
  }

  lemma RefusalStatus(c: Config, store: Store, call: Call, clock: int, fault: Option<FaultSnapshot>)
    requires call.Update? || call.Delete?
    ensures var outcome := Atomic(c, store, call, clock).1;
      && (outcome.Stale? ==> JournalStatus(c, call, outcome, fault) == 409)
      && (fault.None? ==> (Commits(outcome) <==> JournalStatus(c, call, outcome, fault) == 200))
  {
  }

  /**
   A client that was told an OVN, by whatever reply and in spite of whatever fault, then sends an update or
   delete presenting it that its fault lets in. It commits if and only if the incarnation is as long as when the
   OVN was told; within one incarnation it commits if nothing else wrote in between, and is refused with 409 if
   something did. Without a fault, committing and being answered 200 are the same.
   */
  lemma ToldOvnSucceeds(c: Config, ls: seq<Label>, more: seq<Label>, a: nat, b: nat, id: string, ovn: string)
    returns (i: nat, j: nat)
    requires a in Run(c, ls).threads && Run(c, ls).threads[a].pc.Done?
    requires Touches(Run(c, ls).threads[a].request.call)
    requires Tells(Run(c, ls).threads[a].request.call, Run(c, ls).threads[a].pc.reply, id, ovn)
    requires b !in Run(c, ls).threads && LetIn(Run(c, ls + more), b)
    requires Presents(Run(c, ls + more).threads[b].request.call, id, ovn)
    ensures var es, e := Accesses(c, ls + more), EventOf(Run(c, ls + more), b);
      && i < j < |es| && es[i].t == a && es[j].t == b
      && (DenotesCommit(e.operation, e.status, e.fault) <==>
            |Incarnation(c, es[..j], id)| == |Incarnation(c, es[..i + 1], id)|)
      && (SameIncarnation(c, es, id, i + 1, j) ==>
            if Unchanged(c, es, id, i + 1, j) then DenotesCommit(e.operation, e.status, e.fault) else e.status == 409)
      && (e.fault.None? ==> (DenotesCommit(e.operation, e.status, e.fault) <==> e.status == 200))
  {
    var es := Accesses(c, ls + more);
    DonePersists(c, ls, more, a);
    i := ToldAt(c, ls + more, a, id, ovn);
    j := AccessOf(c, ls + more, b);
    RealTimeOrder(c, ls, more, a, b, i, j);
    PresentingRevealedOvn(c, es, i, j, id, ovn);
    RefusalStatus(c, After(c, es[..j]), es[j].call, es[j].clock, EventOf(Run(c, ls + more), b).fault);
  }

  // ---- create retries by handlers ----

  predicate Asks(m: Machine, t: nat, id: string) {
    t in m.threads && m.threads[t].request.call.Create? && m.threads[t].request.call.id == id
  }

  /** The create's event denotes its commit if it is the `first`; any other was refused, stopped or undecodable. */
  ghost predicate FirstOrRefused(m: Machine, t: nat, id: string, first: nat)
    requires HasJournaled(m, t) && Asks(m, t, id)
  {
    var e := EventOf(m, t);
    && (DenotesCommit(e.operation, e.status, e.fault) <==> t == first)
    && (t != first ==> e.status == 409 || Stopped(e.status, e.fault) || m.threads[t].request.call.body.None?)
  }

  lemma CreateStatus(c: Config, store: Store, call: Call, clock: int, fault: Option<FaultSnapshot>)
    requires call.Create?
    ensures Atomic(c, store, call, clock).1 == AlreadyExists ==> JournalStatus(c, call, AlreadyExists, fault) == 409
  {
  }

  lemma CreateIsFirstOrRefused(c: Config, ls: seq<Label>, id: string, k: nat, t: nat)
    requires k < |Accesses(c, ls)| && Commits(OutcomeOf(c, Accesses(c, ls), k))
    requires forall j :: 0 <= j < |Accesses(c, ls)| && Creates(Accesses(c, ls)[j].call, id) && j != k ==>
      OutcomeOf(c, Accesses(c, ls), j) == AlreadyExists
    requires HasJournaled(Run(c, ls), t) && Asks(Run(c, ls), t, id)
    ensures FirstOrRefused(Run(c, ls), t, id, Accesses(c, ls)[k].t)
  {
    var es, m := Accesses(c, ls), Run(c, ls);
    EventDenotesCommit(c, ls, t);
    EveryScheduleLinearizes(c, ls);
    if LetIn(m, t) {
      var j := AccessOf(c, ls, t);
      CreateStatus(c, After(c, es[..j]), es[j].call, es[j].clock, EventOf(m, t).fault);
      if t == es[k].t {
        assert j == k;
      }
    }
  }

  /**
   Any number of handlers creating one identifier, in a schedule that neither deletes it nor resets: if one of them
   got in, then exactly one of them, `first`, commits. Of those that have journaled, only `first` shows a commit;
   every other was answered 409, was stopped by a fault, or had no decodable body.
   */
  lemma CreatingHandlersCommitOnce(c: Config, ls: seq<Label>, id: string, t: nat) returns (first: nat)
    requires SameIncarnation(c, Accesses(c, ls), id, 0, |Accesses(c, ls)|)
    requires LetIn(Run(c, ls), t) && Asks(Run(c, ls), t, id)
    ensures Asks(Run(c, ls), first, id) && JournalBalance.Committed(c, Accesses(c, ls), first)
    ensures forall u :: HasJournaled(Run(c, ls), u) && Asks(Run(c, ls), u, id) ==>
      FirstOrRefused(Run(c, ls), u, id, first)
  {
    var es := Accesses(c, ls);
    EveryScheduleLinearizes(c, ls);
    var k := AccessOf(c, ls, t);
    var p := CreateRetriesCommitOnce(c, es, id, 0, k);
    first := es[p].t;
    forall u | HasJournaled(Run(c, ls), u) && Asks(Run(c, ls), u, id)
      ensures FirstOrRefused(Run(c, ls), u, id, first)
    {
      CreateIsFirstOrRefused(c, ls, id, p, u);
    }
  }
}
