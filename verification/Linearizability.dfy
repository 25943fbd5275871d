/**
 Every interleaving of the fixture's handlers refines the atomic store: each request that
 reaches the store acts there exactly once, in its store section, and the reply it sends
 later is the one the atomic store gives at that point, seen through its fault.
 */
module Linearizability {
  import opened Wrappers
  import opened FixtureState
  import opened HandlerProgram
  import opened AtomicStore
  import opened Schedule
  import Ovn

  // ---- coherence of stored references ----

  ghost predicate Coherent(store: Store) {
    forall id :: id in store ==>
      store[id].id == id && store[id].version >= 1 && store[id].ovn == Ovn.Print(id, store[id].version)
  }

  lemma AtomicKeepsCoherence(c: Config, store: Store, call: Call, clock: int)
    requires Coherent(store)
    ensures Coherent(Atomic(c, store, call, clock).0)
  {
  }

  lemma {:induction false} AfterIsCoherent(c: Config, es: seq<Access>)
    ensures Coherent(After(c, es))
  {
    if es != [] {
      AfterIsCoherent(c, Front(es));
      AtomicKeepsCoherence(c, After(c, Front(es)), Last(es).call, Last(es).clock);
    }
  }

  // ---- one section against the atomic store ----

  function Lookup(store: Store, id: string): Option<Reference> {
    if id in store then Some(store[id]) else None
  }

  /** The pc of a handler that has settled on the atomic store's outcome. */
  function SettledAt(c: Config, call: Call, outcome: Outcome, fault: Option<FaultSnapshot>): Pc {
    Recording(JournalStatus(c, call, outcome, fault), Seen(outcome, AnswerFor(c, call, outcome), fault), fault)
  }

  lemma SectionRefinesAtomic(c: Config, store: Store, call: Call, fault: Option<FaultSnapshot>, clock: int)
    requires call.Federated() && Touches(call)
    ensures StoreSection(c, store, call, fault, clock).0 == Atomic(c, store, call, clock).0
    ensures !call.Delete? ==> StoreSection(c, store, call, fault, clock).1
                              == SettledAt(c, call, Atomic(c, store, call, clock).1, fault)
    ensures call.Delete? ==> StoreSection(c, store, call, fault, clock).1 == Deleting(Lookup(store, call.id), fault)
  {
  }

  /** Deciding a delete again outside the lock gives the outcome the store section had. */
  lemma DecideDeleteRefinesAtomic(c: Config, store: Store, call: Call, fault: Option<FaultSnapshot>, clock: int)
    requires call.Delete? && Coherent(store)
    ensures DecideDelete(call.id, call.ovn, Lookup(store, call.id), fault)
            == SettledAt(c, call, Atomic(c, store, call, clock).1, fault)
  {
  }

  lemma ControlRefinesAtomic(c: Config, s: ServerState, call: Call, clock: int)
    requires !call.Federated() && Touches(call)
    ensures ControlSection(s, call).0.references == Atomic(c, s.references, call, clock).0
    ensures ControlSection(s, call).1 == if call.Reset? then ZeroingSequence else
      Done(AnswerFor(c, call, Atomic(c, s.references, call, clock).1), None)
  {
  }

  // ---- what holds of each handler, given the store sections so far ----

  ghost predicate Absent(es: seq<Access>, t: nat) {
    forall k :: 0 <= k < |es| ==> es[k].t != t
  }

  ghost predicate IsAccess(es: seq<Access>, k: int, t: nat, call: Call) {
    0 <= k < |es| && es[k].t == t && es[k].call == call
  }

  /** The fault lets the handler reach the store. */
  predicate Passes(fault: Option<FaultSnapshot>) {
    fault.None? || fault.value.status == 0
  }

  /** The fault stopped the handler before the store: injected status, or cancelled during the delay. */
  predicate Stopped(status: int, fault: Option<FaultSnapshot>) {
    fault.Some? && (fault.value.status != 0 || (status == 499 && fault.value.delayMillis > 0))
  }

  ghost predicate Linearized(c: Config, es: seq<Access>, k: int, t: nat, call: Call,
                             status: int, reply: Reply, fault: Option<FaultSnapshot>)
  {
    && IsAccess(es, k, t, call)
    && status == JournalStatus(c, call, OutcomeOf(c, es, k), fault)
    && reply == Seen(OutcomeOf(c, es, k), AnswerFor(c, call, OutcomeOf(c, es, k)), fault)
  }

  /** A reply given without the store: by a fault, or because the request has nothing to do there. */
  predicate Bypassed(call: Call, status: int, reply: Reply, fault: Option<FaultSnapshot>) {
    || (Stopped(status, fault)
        && (reply == NoReply || reply == Respond(status, Message("injected fixture failure"), fault)))
    || (Passes(fault) && (call.Create? || call.Update?) && !Touches(call) && status == 400
        && reply == Respond(400, DecodeError, fault))
    || (Passes(fault) && call.Subscriptions? && status == 200 && reply == Respond(200, NoSubscriptions, fault))
    || (Passes(fault) && call.PeerNotify? && status == 204 && reply == Answer(204, Nothing))
  }

  ghost predicate Settled(c: Config, es: seq<Access>, t: nat, call: Call,
                          status: int, reply: Reply, fault: Option<FaultSnapshot>)
  {
    || (Passes(fault) && exists k :: Linearized(c, es, k, t, call, status, reply, fault))
    || (Absent(es, t) && Bypassed(call, status, reply, fault))
  }

  ghost predicate Journals(call: Call, e: Event) {
    call.Federated() && e.operation == call.Operation() && e.intentId == call.IntentId()
  }

  ghost predicate HandlerOk(c: Config, es: seq<Access>, t: nat, call: Call, pc: Pc) {
    match pc
    case TakingFault => call.Federated() && Absent(es, t)
    case Preparing(_) => call.Federated() && Absent(es, t)
    case Locking(fault) => call.Federated() && Touches(call) && Passes(fault) && Absent(es, t)
    case Deleting(found, fault) =>
      call.Delete? && Passes(fault) &&
      exists k :: IsAccess(es, k, t, call) && found == Lookup(After(c, es[..k]), call.id)
    case Recording(status, reply, fault) => call.Federated() && Settled(c, es, t, call, status, reply, fault)
    case Appending(e, reply) => Journals(call, e) && Settled(c, es, t, call, e.status, reply, e.fault)
    case Controlling => !call.Federated() && Absent(es, t)
    case ZeroingSequence => call.Reset? && exists k :: IsAccess(es, k, t, call)
    case Done(reply, Some(e)) => Journals(call, e) && Settled(c, es, t, call, e.status, reply, e.fault)
    case Done(reply, None) =>
      && !call.Federated()
      && (Touches(call) ==> exists k :: IsAccess(es, k, t, call) && reply == AnswerFor(c, call, OutcomeOf(c, es, k)))
      && (!Touches(call) ==> Absent(es, t))
  }

  /** The linearization of a machine state: `es` is its order of store accesses. */
  ghost predicate LinearizedBy(c: Config, m: Machine, es: seq<Access>) {
    && m.server.references == After(c, es)
    && (forall k :: 0 <= k < |es| ==>
          es[k].t in m.threads && m.threads[es[k].t].request.call == es[k].call && Touches(es[k].call))
    && (forall j, k :: 0 <= j < k < |es| ==> es[j].t != es[k].t)
    && (forall t :: t in m.threads ==> HandlerOk(c, es, t, m.threads[t].request.call, m.threads[t].pc))
  }

  // ---- every step keeps it ----

  lemma LinearizedExtends(c: Config, es: seq<Access>, a: Access, k: int, t: nat, call: Call,
                          status: int, reply: Reply, fault: Option<FaultSnapshot>)
    requires Linearized(c, es, k, t, call, status, reply, fault)
    ensures Linearized(c, es + [a], k, t, call, status, reply, fault)
  {
    OutcomeOfAppend(c, es, [a], k);
  }

  lemma SettledExtends(c: Config, es: seq<Access>, a: Access, t: nat, call: Call,
                       status: int, reply: Reply, fault: Option<FaultSnapshot>)
    requires a.t != t && Settled(c, es, t, call, status, reply, fault)
    ensures Settled(c, es + [a], t, call, status, reply, fault)
  {
    if !(Absent(es, t) && Bypassed(call, status, reply, fault)) {
      var k :| Linearized(c, es, k, t, call, status, reply, fault);
      LinearizedExtends(c, es, a, k, t, call, status, reply, fault);
    }
  }

  /** Another handler's store section does not disturb this handler. */
  lemma HandlerOkExtends(c: Config, es: seq<Access>, a: Access, t: nat, call: Call, pc: Pc)
    requires a.t != t && HandlerOk(c, es, t, call, pc)
    ensures HandlerOk(c, es + [a], t, call, pc)
  {
    match pc
    case Recording(status, reply, fault) => SettledExtends(c, es, a, t, call, status, reply, fault);
    case Appending(e, reply) => SettledExtends(c, es, a, t, call, e.status, reply, e.fault);
    case Done(reply, Some(e)) => SettledExtends(c, es, a, t, call, e.status, reply, e.fault);
    case Done(reply, None) =>
      if Touches(call) {
        var k :| IsAccess(es, k, t, call) && reply == AnswerFor(c, call, OutcomeOf(c, es, k));
        OutcomeOfAppend(c, es, [a], k);
        assert IsAccess(es + [a], k, t, call);
      }
    case Deleting(found, fault) =>
      var k :| IsAccess(es, k, t, call) && found == Lookup(After(c, es[..k]), call.id);
      assert (es + [a])[..k] == es[..k];
      assert IsAccess(es + [a], k, t, call);
    case ZeroingSequence =>
      var k :| IsAccess(es, k, t, call);
      assert IsAccess(es + [a], k, t, call);
    case _ =>
  }

  /** The stepping handler, away from the store. */
  lemma LocalStepOk(c: Config, s: ServerState, es: seq<Access>, t: nat, r: Request, pc: Pc, i: Input)
    requires HandlerOk(c, es, t, r.call, pc) && !AtStore(Thread(r, pc))
    ensures HandlerOk(c, es, t, r.call, Advance(c, s, r, pc, i).1)
    ensures Advance(c, s, r, pc, i).0.references == s.references
  {
    match pc
    case Deleting(found, fault) =>
      var k :| IsAccess(es, k, t, r.call) && found == Lookup(After(c, es[..k]), r.call.id);
      AfterIsCoherent(c, es[..k]);
      DecideDeleteRefinesAtomic(c, After(c, es[..k]), r.call, fault, es[k].clock);
      var outcome := OutcomeOf(c, es, k);
      assert Linearized(c, es, k, t, r.call, JournalStatus(c, r.call, outcome, fault),
                        Seen(outcome, AnswerFor(c, r.call, outcome), fault), fault);
    case ZeroingSequence =>
      var k :| IsAccess(es, k, t, r.call);
      assert IsAccess(es, k, t, r.call) && Answer(204, Nothing) == AnswerFor(c, r.call, OutcomeOf(c, es, k));
    case _ =>
  }

  /** The stepping handler, in its store section. */
  lemma StoreStepOk(c: Config, s: ServerState, es: seq<Access>, t: nat, r: Request, pc: Pc, i: Input)
    requires s.references == After(c, es)
    requires HandlerOk(c, es, t, r.call, pc) && AtStore(Thread(r, pc))
    ensures HandlerOk(c, es + [Access(t, r.call, i.clock)], t, r.call, Advance(c, s, r, pc, i).1)
    ensures Advance(c, s, r, pc, i).0.references == After(c, es + [Access(t, r.call, i.clock)])
  {
    var es', k := es + [Access(t, r.call, i.clock)], |es|;
    FrontOfAppend(es, Access(t, r.call, i.clock));
    assert es'[..k] == es && IsAccess(es', k, t, r.call);
    if r.call.Federated() {
      SectionRefinesAtomic(c, s.references, r.call, pc.fault, i.clock);
      var outcome := OutcomeOf(c, es', k);
      if !r.call.Delete? {
        assert Linearized(c, es', k, t, r.call, JournalStatus(c, r.call, outcome, pc.fault),
                          Seen(outcome, AnswerFor(c, r.call, outcome), pc.fault), pc.fault);
      }
    } else {
      ControlRefinesAtomic(c, s, r.call, i.clock);
      if !r.call.Reset? {
        assert IsAccess(es', k, t, r.call);
        assert Advance(c, s, r, pc, i).1.reply == AnswerFor(c, r.call, OutcomeOf(c, es', k));
      }
    }
  }

  /** Only handler `t` moved, away from the store. */
  lemma LocalMove(c: Config, m: Machine, m': Machine, es: seq<Access>, t: nat)
    requires LinearizedBy(c, m, es) && t in m.threads && m'.threads.Keys == m.threads.Keys
    requires forall u :: u in m.threads && u != t ==> m'.threads[u] == m.threads[u]
    requires m'.server.references == m.server.references && m'.threads[t].request == m.threads[t].request
    requires HandlerOk(c, es, t, m.threads[t].request.call, m'.threads[t].pc)
    ensures LinearizedBy(c, m', es)
  {
  }

  /** Only handler `t` moved, in its store section. */
  lemma StoreMove(c: Config, m: Machine, m': Machine, es: seq<Access>, t: nat, a: Access)
    requires LinearizedBy(c, m, es) && t in m.threads && m'.threads.Keys == m.threads.Keys
    requires forall u :: u in m.threads && u != t ==> m'.threads[u] == m.threads[u]
    requires m'.threads[t].request == m.threads[t].request
    requires a.t == t && a.call == m.threads[t].request.call && Touches(a.call) && Absent(es, t)
    requires m'.server.references == After(c, es + [a])
    requires HandlerOk(c, es + [a], t, m.threads[t].request.call, m'.threads[t].pc)
    ensures LinearizedBy(c, m', es + [a])
  {
    forall u | u in m'.threads && u != t
      ensures HandlerOk(c, es + [a], u, m'.threads[u].request.call, m'.threads[u].pc)
    {
      HandlerOkExtends(c, es, a, u, m.threads[u].request.call, m.threads[u].pc);
    }
  }

  lemma StepKeepsLinearization(c: Config, m: Machine, es: seq<Access>, t: nat, i: Input)
    requires LinearizedBy(c, m, es) && t in m.threads
    ensures LinearizedBy(c, Next(c, m, Step(t, i)), es + Accessed(m, Step(t, i)))
  {
    var th, m' := m.threads[t], Next(c, m, Step(t, i));
    assert HandlerOk(c, es, t, th.request.call, th.pc);
    if AtStore(th) {
      StoreStepOk(c, m.server, es, t, th.request, th.pc, i);
      StoreMove(c, m, m', es, t, Access(t, th.request.call, i.clock));
    } else {
      LocalStepOk(c, m.server, es, t, th.request, th.pc, i);
      assert es + Accessed(m, Step(t, i)) == es;
      LocalMove(c, m, m', es, t);
    }
  }

  lemma ArrivalKeepsLinearization(c: Config, m: Machine, es: seq<Access>, t: nat, r: Request)
    requires LinearizedBy(c, m, es)
    ensures LinearizedBy(c, Next(c, m, Arrive(t, r)), es + Accessed(m, Arrive(t, r)))
  {
    assert es + Accessed(m, Arrive(t, r)) == es;
    var m' := Next(c, m, Arrive(t, r));
    if t !in m.threads {
      assert Absent(es, t);
      forall u | u in m'.threads
        ensures HandlerOk(c, es, u, m'.threads[u].request.call, m'.threads[u].pc)
      {
        if u != t {
          assert m'.threads[u] == m.threads[u];
        }
      }
    }
  }

  /** Main theorem: every schedule whatsoever is linearized by its order of store sections. */
  lemma {:induction false} EveryScheduleLinearizes(c: Config, ls: seq<Label>)
    ensures LinearizedBy(c, Run(c, ls), Accesses(c, ls))
  {
    if ls != [] {
      var m, es := Run(c, Front(ls)), Accesses(c, Front(ls));
      EveryScheduleLinearizes(c, Front(ls));
      match Last(ls)
      case Arrive(t, r) => ArrivalKeepsLinearization(c, m, es, t, r);
      case Step(t, i) =>
        if t in m.threads {
          StepKeepsLinearization(c, m, es, t, i);
        } else {
          assert es + Accessed(m, Last(ls)) == es;
        }
    }
  }

  /** The reply of a finished DSS or peer request: it is the atomic store's, or was given without the store. */
  lemma FinishedRequestIsSettled(c: Config, ls: seq<Label>, t: nat)
    requires t in Run(c, ls).threads && Run(c, ls).threads[t].pc.Done? && Run(c, ls).threads[t].pc.journaled.Some?
    ensures var th := Run(c, ls).threads[t]; var e := th.pc.journaled.value;
      Journals(th.request.call, e) && Settled(c, Accesses(c, ls), t, th.request.call, e.status, th.pc.reply, e.fault)
  {
    EveryScheduleLinearizes(c, ls);
    var th := Run(c, ls).threads[t];
    assert HandlerOk(c, Accesses(c, ls), t, th.request.call, th.pc);
  }

  /** The order respects real time: a request answered before another arrives comes before it. */
  lemma RealTimeOrder(c: Config, ls: seq<Label>, more: seq<Label>, a: nat, b: nat, i: nat, j: nat)
    requires a in Run(c, ls).threads && Run(c, ls).threads[a].pc.Done? && b !in Run(c, ls).threads
    requires i < |Accesses(c, ls + more)| && Accesses(c, ls + more)[i].t == a
    requires j < |Accesses(c, ls + more)| && Accesses(c, ls + more)[j].t == b
    ensures i < j
  {
    var es, es' := Accesses(c, ls), Accesses(c, ls + more);
    EveryScheduleLinearizes(c, ls);
    EveryScheduleLinearizes(c, ls + more);
    AccessesExtend(c, ls, more);
    DonePersists(c, ls, more, a);
    DoneHasItsAccess(c, ls, more, a, i);
    assert forall k :: 0 <= k < |es| ==> es'[k] == es[k];
  }

  /** A handler's access is in the past once the handler has replied. */
  lemma DoneHasItsAccess(c: Config, ls: seq<Label>, more: seq<Label>, a: nat, i: nat)
    requires a in Run(c, ls).threads && Run(c, ls).threads[a].pc.Done?
    requires i < |Accesses(c, ls + more)| && Accesses(c, ls + more)[i].t == a
    ensures i < |Accesses(c, ls)|
  {
    if more == [] {
      assert ls + more == ls;
    } else {
      RunSplit(c, ls, more);
      DonePersists(c, ls, Front(more), a);
      DoneHasItsAccess(c, ls, Front(more), a, i);
    }
  }

  /** Every stored reference names its own key, has version at least 1 and the OVN printed from both. */
  lemma StoredReferencesAreCoherent(c: Config, ls: seq<Label>)
    ensures Coherent(Run(c, ls).server.references)
  {
    EveryScheduleLinearizes(c, ls);
    AfterIsCoherent(c, Accesses(c, ls));
  }
}
