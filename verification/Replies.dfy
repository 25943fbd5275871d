/**
 What a finished request answered and journaled, in plain terms: which status and body follow from what the
 request found in the store, which fault it met, and what its event says about it. The statements name neither
 the handler programs nor the functions those share with the server object.
 */
module Replies {
  import opened Wrappers
  import opened FixtureState
  import opened HandlerProgram
  import opened AtomicStore
  import opened Schedule
  import opened Linearizability
  import opened JournalNumbering
  import opened JournalBalance
  import FaultBudget
  import Ovn

  // ---- what a handler has settled on stays ----

  /** The handler has settled on this status, reply and fault, and has yet to journal or has journaled them. */
  predicate Says(pc: Pc, status: int, reply: Reply, fault: Option<FaultSnapshot>) {
    match pc
    case Recording(s, r, f) => s == status && r == reply && f == fault
    case Appending(e, r) => e.status == status && r == reply && e.fault == fault
    case Done(r, Some(e)) => e.status == status && r == reply && e.fault == fault
    case _ => false
  }

  lemma LabelKeepsSaid(c: Config, m: Machine, l: Label, t: nat, status: int, reply: Reply,
                       fault: Option<FaultSnapshot>)
    requires t in m.threads && m.threads[t].request.call.Federated() && Says(m.threads[t].pc, status, reply, fault)
    ensures t in Next(c, m, l).threads && Says(Next(c, m, l).threads[t].pc, status, reply, fault)
  {
  }

  lemma {:induction false} SaidPersists(c: Config, ls: seq<Label>, more: seq<Label>, t: nat,
                                        status: int, reply: Reply, fault: Option<FaultSnapshot>)
    requires t in Run(c, ls).threads && Run(c, ls).threads[t].request.call.Federated()
    requires Says(Run(c, ls).threads[t].pc, status, reply, fault)
    ensures t in Run(c, ls + more).threads && Says(Run(c, ls + more).threads[t].pc, status, reply, fault)
  {
    if more == [] {
      assert ls + more == ls;
    } else {
      SaidPersists(c, ls, Front(more), t, status, reply, fault);
      RequestsPersist(c, ls, Front(more), t);
      RunSplit(c, ls, more);
      LabelKeepsSaid(c, Run(c, ls + Front(more)), Last(more), t, status, reply, fault);
    }
  }

  // ---- faults ----

  /** What a client sees of an injected status. */
  predicate InjectedReply(reply: Reply, f: FaultSnapshot) {
    && reply.Answer? && reply.status == f.status
    && (f.malformedJson ==> reply.body == Truncated)
    && (!f.malformedJson && f.status == 204 ==> reply.body == Nothing)
    && (!f.malformedJson && f.status != 204 ==> reply.body == Message("injected fixture failure"))
  }

  /** A fault with a status was either injected, or its delay was cancelled before. */
  predicate InjectedOrCancelled(status: int, reply: Reply, f: FaultSnapshot) {
    || (status == f.status && InjectedReply(reply, f))
    || (status == 499 && f.delayMillis > 0 && reply == NoReply)
  }

  predicate StatusHonoured(pc: Pc) {
    match pc
    case Recording(status, reply, Some(f)) => f.status != 0 ==> InjectedOrCancelled(status, reply, f)
    case Appending(e, reply) => e.fault.Some? && e.fault.value.status != 0 ==>
      InjectedOrCancelled(e.status, reply, e.fault.value)
    case Done(reply, Some(e)) => e.fault.Some? && e.fault.value.status != 0 ==>
      InjectedOrCancelled(e.status, reply, e.fault.value)
    case _ => true
  }

  lemma StepHonoursStatus(c: Config, s: ServerState, es: seq<Access>, t: nat, r: Request, pc: Pc, i: Input)
    requires HandlerOk(c, es, t, r.call, pc) && StatusHonoured(pc)
    ensures StatusHonoured(Advance(c, s, r, pc, i).1)
  {
  }

  lemma {:induction false} StatusesAreHonoured(c: Config, ls: seq<Label>, t: nat)
    requires t in Run(c, ls).threads
    ensures StatusHonoured(Run(c, ls).threads[t].pc)
  {
    if ls != [] {
      var front, l, m := Front(ls), Last(ls), Run(c, Front(ls));
      if t in m.threads {
        StatusesAreHonoured(c, front, t);
        EveryScheduleLinearizes(c, front);
        if l.Step? && l.t == t {
          StepHonoursStatus(c, m.server, Accesses(c, front), t, m.threads[t].request, m.threads[t].pc, l.input);
        }
      }
    }
  }

  /** A request whose fault has a status answers and journals exactly that status, unless cancelled in the delay. */
  lemma InjectedStatusIsAnswered(c: Config, ls: seq<Label>, t: nat)
    requires HasJournaled(Run(c, ls), t)
    requires var fault := Run(c, ls).threads[t].pc.journaled.value.fault; fault.Some? && fault.value.status != 0
    ensures var pc := Run(c, ls).threads[t].pc;
      InjectedOrCancelled(pc.journaled.value.status, pc.reply, pc.journaled.value.fault.value)
  {
    StatusesAreHonoured(c, ls, t);
  }

  /** What becomes of a request when its delay ends: cancelled, stopped by the fault's status, or let through. */
  lemma DelayDecides(c: Config, ls: seq<Label>, t: nat, i: Input, more: seq<Label>)
    requires t in Run(c, ls).threads && Run(c, ls).threads[t].request.call.Federated()
    requires Run(c, ls).threads[t].pc.Preparing? && HasJournaled(Run(c, ls + [Step(t, i)] + more), t)
    ensures var pc, fault := Run(c, ls + [Step(t, i)] + more).threads[t].pc, Run(c, ls).threads[t].pc.fault;
      var e := pc.journaled.value;
      && (fault.Some? && fault.value.delayMillis > 0 && i.cancelled ==>
            e.status == 499 && pc.reply == NoReply && e.fault == fault)
      && (fault.Some? && !(fault.value.delayMillis > 0 && i.cancelled) && fault.value.status != 0 ==>
            e.status == fault.value.status && InjectedReply(pc.reply, fault.value) && e.fault == fault)
  {
    RunAppend(c, ls, Step(t, i));
    var pc' := Run(c, ls + [Step(t, i)]).threads[t].pc;
    if pc'.Recording? {
      SaidPersists(c, ls + [Step(t, i)], more, t, pc'.status, pc'.reply, pc'.fault);
    }
  }

  /** The fault a handler carries once it has been to the fault table. */
  predicate Carries(pc: Pc, fault: Option<FaultSnapshot>) {
    match pc
    case Preparing(f) => f == fault
    case Locking(f) => f == fault
    case Deleting(_, f) => f == fault
    case Recording(_, _, f) => f == fault
    case Appending(e, _) => e.fault == fault
    case Done(_, Some(e)) => e.fault == fault
    case _ => false
  }

  lemma StepCarries(c: Config, s: ServerState, es: seq<Access>, t: nat, r: Request, pc: Pc, i: Input,
                    fault: Option<FaultSnapshot>)
    requires r.call.Federated() && HandlerOk(c, es, t, r.call, pc) && Carries(pc, fault)
    ensures Carries(Advance(c, s, r, pc, i).1, fault)
  {
  }

  lemma LabelCarries(c: Config, m: Machine, es: seq<Access>, l: Label, t: nat, fault: Option<FaultSnapshot>)
    requires LinearizedBy(c, m, es) && t in m.threads && m.threads[t].request.call.Federated()
    requires Carries(m.threads[t].pc, fault)
    ensures t in Next(c, m, l).threads && Carries(Next(c, m, l).threads[t].pc, fault)
  {
    if l.Step? && l.t == t {
      StepCarries(c, m.server, es, t, m.threads[t].request, m.threads[t].pc, l.input, fault);
    }
  }

  lemma {:induction false} CarriedPersists(c: Config, ls: seq<Label>, more: seq<Label>, t: nat,
                                           fault: Option<FaultSnapshot>)
    requires t in Run(c, ls).threads && Run(c, ls).threads[t].request.call.Federated()
    requires Carries(Run(c, ls).threads[t].pc, fault)
    ensures t in Run(c, ls + more).threads && Carries(Run(c, ls + more).threads[t].pc, fault)
  {
    if more == [] {
      assert ls + more == ls;
    } else {
      var before := ls + Front(more);
      CarriedPersists(c, ls, Front(more), t, fault);
      RequestsPersist(c, ls, Front(more), t);
      RunSplit(c, ls, more);
      EveryScheduleLinearizes(c, before);
      LabelCarries(c, Run(c, before), Accesses(c, before), Last(more), t, fault);
    }
  }

  /** The fault a request journals is the plan armed for its operation when it came to the fault table, if any. */
  lemma SnapshotIsJournaled(c: Config, ls: seq<Label>, t: nat, i: Input, more: seq<Label>)
    requires t in Run(c, ls).threads && Run(c, ls).threads[t].pc.TakingFault?
    requires Run(c, ls).threads[t].request.call.Federated()
    requires HasJournaled(Run(c, ls + [Step(t, i)] + more), t)
    ensures var faults, operation := Run(c, ls).server.faults, Run(c, ls).threads[t].request.call.Operation();
      var fault := Run(c, ls + [Step(t, i)] + more).threads[t].pc.journaled.value.fault;
      && (fault.Some? <==> operation in faults)
      && (fault.Some? ==> FaultBudget.ShowsPlan(fault.value, faults[operation]))
  {
    FaultBudget.TableAlwaysMatches(c, ls);
    RunAppend(c, ls, Step(t, i));
    CarriedPersists(c, ls + [Step(t, i)], more, t, Run(c, ls + [Step(t, i)]).threads[t].pc.fault);
  }

  // ---- events ----

  /** The names under which operations are armed and journaled. */
  predicate NamesOperation(call: Call, operation: string) {
    match call
    case Create(_, _) => operation == "dss.create_reference"
    case Update(_, _, _) => operation == "dss.update_reference"
    case Delete(_, _) => operation == "dss.delete_reference"
    case GetReference(_) => operation == "dss.get_reference"
    case PeerDetails(_) => operation == "peer.get_details"
    case QueryReferences => operation == "dss.query_references"
    case Subscriptions => operation == "dss.query_subscriptions"
    case PeerNotify => operation == "peer.notify"
    case _ => false
  }

  predicate NamesIntent(call: Call, intentId: string) {
    match call
    case Create(id, _) => intentId == id
    case Update(id, _, _) => intentId == id
    case Delete(id, _) => intentId == id
    case GetReference(id) => intentId == id
    case PeerDetails(id) => intentId == id
    case _ => intentId == ""
  }

  /** The event identifies the request. */
  predicate Identifies(e: Event, r: Request) {
    && e.httpMethod == r.httpMethod && e.path == r.path
    && NamesOperation(r.call, e.operation) && NamesIntent(r.call, e.intentId)
  }

  predicate EventIdentifies(th: Thread) {
    match th.pc
    case Appending(e, _) => Identifies(e, th.request)
    case Done(_, Some(e)) => Identifies(e, th.request)
    case _ => true
  }

  lemma StepIdentifies(c: Config, s: ServerState, r: Request, pc: Pc, i: Input)
    requires EventIdentifies(Thread(r, pc))
    ensures EventIdentifies(Thread(r, Advance(c, s, r, pc, i).1))
  {
  }

  /** In every schedule, a request's event carries its method, path, operation and intent. */
  lemma {:induction false} EventsIdentifyRequests(c: Config, ls: seq<Label>, t: nat)
    requires t in Run(c, ls).threads
    ensures EventIdentifies(Run(c, ls).threads[t])
  {
    if ls != [] {
      var l, m := Last(ls), Run(c, Front(ls));
      if t in m.threads {
        EventsIdentifyRequests(c, Front(ls), t);
        if l.Step? && l.t == t {
          StepIdentifies(c, m.server, m.threads[t].request, m.threads[t].pc, l.input);
        }
      }
    }
  }

  /** The handler holds or has journaled an event with this number and time. */
  predicate Stamped(pc: Pc, number: nat, at: int) {
    match pc
    case Appending(e, _) => e.sequence == number && e.at == at
    case Done(_, Some(e)) => e.sequence == number && e.at == at
    case _ => false
  }

  lemma LabelKeepsStamp(c: Config, m: Machine, l: Label, t: nat, number: nat, at: int)
    requires t in m.threads && m.threads[t].request.call.Federated() && Stamped(m.threads[t].pc, number, at)
    ensures t in Next(c, m, l).threads && Stamped(Next(c, m, l).threads[t].pc, number, at)
  {
  }

  lemma {:induction false} StampPersists(c: Config, ls: seq<Label>, more: seq<Label>, t: nat, number: nat, at: int)
    requires t in Run(c, ls).threads && Run(c, ls).threads[t].request.call.Federated()
    requires Stamped(Run(c, ls).threads[t].pc, number, at)
    ensures t in Run(c, ls + more).threads && Stamped(Run(c, ls + more).threads[t].pc, number, at)
  {
    if more == [] {
      assert ls + more == ls;
    } else {
      StampPersists(c, ls, Front(more), t, number, at);
      RequestsPersist(c, ls, Front(more), t);
      RunSplit(c, ls, more);
      LabelKeepsStamp(c, Run(c, ls + Front(more)), Last(more), t, number, at);
    }
  }

  /** An event has the number after the counter's, and the time, of the moment its request drew them. */
  lemma EventIsStamped(c: Config, ls: seq<Label>, t: nat, i: Input, more: seq<Label>)
    requires t in Run(c, ls).threads && Run(c, ls).threads[t].pc.Recording?
    requires Run(c, ls).threads[t].request.call.Federated()
    requires HasJournaled(Run(c, ls + [Step(t, i)] + more), t)
    ensures var e := Run(c, ls + [Step(t, i)] + more).threads[t].pc.journaled.value;
      e.sequence == Run(c, ls).server.sequence + 1 && e.at == i.clock
  {
    RunAppend(c, ls, Step(t, i));
    StampPersists(c, ls + [Step(t, i)], more, t, Run(c, ls).server.sequence + 1, i.clock);
  }

  // ---- replies from the store ----

  /** Whom a committed write asks its client to notify. */
  function Notified(c: Config): seq<string> {
    if c.subscriberUrl == "" then [] else [c.subscriberUrl]
  }

  /** The reply to a DSS or peer request that met no fault, from the store just before and just after its section. */
  predicate PlainReply(c: Config, call: Call, before: Store, after: Store, reply: Reply) {
    match call
    case Create(id, _) =>
      if id in before then reply == Answer(409, Message("reference exists"))
      else id in after && reply == Answer(201, Committed(after[id], Notified(c)))
    case Update(id, ovn, _) =>
      if id !in before then reply == Answer(404, Message("reference not found"))
      else if before[id].ovn != ovn then reply == Answer(409, StaleOvn(before[id].ovn))
      else id in after && reply == Answer(200, Committed(after[id], Notified(c)))
    case Delete(id, ovn) =>
      if id !in before then reply == Answer(404, Message("reference not found"))
      else if before[id].ovn != ovn then reply == Answer(409, StaleOvn(before[id].ovn))
      else
        var version := before[id].version + 1;
        reply == Answer(200, Committed(before[id].(version := version, ovn := Ovn.Print(id, version)), []))
    case GetReference(id) =>
      reply == if id in before then Answer(200, One(before[id])) else Answer(404, Message("reference not found"))
    case PeerDetails(id) =>
      reply == if id in before then Answer(200, Details(before[id])) else Answer(404, Message("intent not found"))
    case QueryReferences => reply == Answer(200, Listing(before))
    case _ => false
  }

  /** The store after the section: creates and updates put one entry, deletes remove it, all else leaves it alone. */
  predicate PlainEffect(call: Call, before: Store, after: Store) {
    match call
    case Create(id, _) => if id in before then after == before else id in after && after == before[id := after[id]]
    case Update(id, ovn, _) =>
      if id in before && before[id].ovn == ovn then id in after && after == before[id := after[id]] else after == before
    case Delete(id, ovn) =>
      after == if id in before && before[id].ovn == ovn then before - {id} else before
    case _ => after == before
  }

  lemma SectionInPlainTerms(c: Config, before: Store, call: Call, clock: int)
    requires Coherent(before) && call.Federated() && Touches(call)
    ensures var (after, outcome) := Atomic(c, before, call, clock);
      PlainEffect(call, before, after) && PlainReply(c, call, before, after, AnswerFor(c, call, outcome))
  {
  }

  /** What is left of the plain reply under a fault, and what is journaled. */
  predicate SeenThrough(plain: Reply, committed: bool, fault: Option<FaultSnapshot>, status: int, reply: Reply) {
    plain.Answer? &&
    if fault.Some? && fault.value.closeAfterCommit && committed then status == 0 && reply == NoReply
    else
      && status == plain.status
      && reply == if fault.Some? && fault.value.malformedJson then Answer(plain.status, Truncated) else plain
  }

  lemma SeenInPlainTerms(c: Config, store: Store, call: Call, clock: int, fault: Option<FaultSnapshot>)
    requires call.Federated() && Touches(call)
    ensures var outcome := Atomic(c, store, call, clock).1;
      var plain := AnswerFor(c, call, outcome);
      SeenThrough(plain, Commits(outcome), fault, JournalStatus(c, call, outcome, fault), Seen(outcome, plain, fault))
  {
  }

  /** A commit is a create, update or delete that changed the store. */
  lemma CommitInPlainTerms(c: Config, store: Store, call: Call, clock: int)
    requires Coherent(store) && call.Federated() && Touches(call)
    ensures var (after, outcome) := Atomic(c, store, call, clock);
      Commits(outcome) <==>
        || (call.Create? && call.id !in store)
        || ((call.Update? || call.Delete?) && call.id in store && store[call.id].ovn == call.ovn)
  {
  }

  /** The whole of what one finished request did, told and journaled at its store section, position `k`. */
  ghost predicate ServedAt(c: Config, es: seq<Access>, k: nat, call: Call, status: int, reply: Reply,
                           fault: Option<FaultSnapshot>)
    requires k < |es|
  {
    var before, after := After(c, es[..k]), After(c, es[..k + 1]);
    && PlainEffect(call, before, after)
    && exists plain :: PlainReply(c, call, before, after, plain) &&
         SeenThrough(plain, Commits(OutcomeOf(c, es, k)), fault, status, reply)
  }

  lemma LinearizedIsServed(c: Config, es: seq<Access>, k: nat, t: nat, call: Call, status: int, reply: Reply,
                           fault: Option<FaultSnapshot>)
    requires Linearized(c, es, k, t, call, status, reply, fault) && call.Federated() && Touches(call)
    ensures ServedAt(c, es, k, call, status, reply, fault)
  {
    var before := After(c, es[..k]);
    AfterIsCoherent(c, es[..k]);
    AfterStep(c, es, k);
    SectionInPlainTerms(c, before, call, es[k].clock);
    SeenInPlainTerms(c, before, call, es[k].clock, fault);
    assert PlainReply(c, call, before, After(c, es[..k + 1]), AnswerFor(c, call, OutcomeOf(c, es, k)));
  }

  /** Main theorem: in every schedule, a finished request that no fault stopped did and said what it should. */
  lemma RequestsInPlainTerms(c: Config, ls: seq<Label>, t: nat) returns (k: nat)
    requires HasJournaled(Run(c, ls), t) && Touches(Run(c, ls).threads[t].request.call)
    requires var e := Run(c, ls).threads[t].pc.journaled.value;
      e.fault.None? || (e.fault.value.status == 0 && e.status != 499)
    ensures k < |Accesses(c, ls)| && Accesses(c, ls)[k].t == t
    ensures var th := Run(c, ls).threads[t]; var e := th.pc.journaled.value;
      ServedAt(c, Accesses(c, ls), k, th.request.call, e.status, th.pc.reply, e.fault)
  {
    FinishedRequestIsSettled(c, ls, t);
    var th, es := Run(c, ls).threads[t], Accesses(c, ls);
    var e := th.pc.journaled.value;
    k :| Linearized(c, es, k, t, th.request.call, e.status, th.pc.reply, e.fault);
    LinearizedIsServed(c, es, k, t, th.request.call, e.status, th.pc.reply, e.fault);
  }

  /** Requests that do not reach the store answer the same whatever it holds. */
  predicate PlainBypass(call: Call, status: int, reply: Reply, fault: Option<FaultSnapshot>) {
    var truncated := fault.Some? && fault.value.malformedJson;
    match call
    case Subscriptions => status == 200 && reply == Answer(200, if truncated then Truncated else NoSubscriptions)
    case PeerNotify => status == 204 && reply == Answer(204, Nothing)
    case Create(_, None) => status == 400 && reply == Answer(400, if truncated then Truncated else DecodeError)
    case Update(_, _, None) => status == 400 && reply == Answer(400, if truncated then Truncated else DecodeError)
    case _ => false
  }

  /** The same for a finished request that no fault stopped and that has nothing to do at the store. */
  lemma BypassesInPlainTerms(c: Config, ls: seq<Label>, t: nat)
    requires HasJournaled(Run(c, ls), t) && !Touches(Run(c, ls).threads[t].request.call)
    requires var e := Run(c, ls).threads[t].pc.journaled.value;
      e.fault.None? || (e.fault.value.status == 0 && e.status != 499)
    ensures var th := Run(c, ls).threads[t]; var e := th.pc.journaled.value;
      PlainBypass(th.request.call, e.status, th.pc.reply, e.fault)
  {
    FinishedRequestIsSettled(c, ls, t);
    EveryScheduleLinearizes(c, ls);
    var th, es := Run(c, ls).threads[t], Accesses(c, ls);
    var e := th.pc.journaled.value;
    assert forall k :: 0 <= k < |es| ==> es[k].call != th.request.call;
    assert Bypassed(th.request.call, e.status, th.pc.reply, e.fault);
  }

  // ---- the control plane ----

  /** One control request at its section: what it answers and what it changes. */
  predicate PlainControl(s: ServerState, call: Call, s': ServerState, pc: Pc) {
    match call
    case RotateOvn(id) =>
      if id !in s.references then s' == s && pc == Done(Answer(404, Message("reference not found")), None)
      else
        var version := s.references[id].version + 1;
        var rotated := s.references[id].(version := version, ovn := Ovn.Print(id, version));
        s' == s.(references := s.references[id := rotated]) && pc == Done(Answer(200, One(rotated)), None)
    case ReadState => s' == s && pc == Done(Answer(200, Listing(s.references)), None)
    case ReadEvents => s' == s && pc == Done(Answer(200, Journal(s.events)), None)
    case ClearFaults => s' == s.(faults := map[]) && pc == Done(Answer(204, Nothing), None)
    case ArmFault(Some(plan)) =>
      if plan.operation != "" && plan.times > 0 && plan.delayMillis >= 0 && 0 <= plan.status && plan.status <= 599 then
        s' == s.(faults := s.faults[plan.operation := plan]) && pc == Done(Answer(201, Armed(plan)), None)
      else s' == s && pc == Done(Answer(400, Message("invalid fault plan")), None)
    case ArmFault(None) => s' == s && pc == Done(Answer(400, DecodeError), None)
    case Reset => s' == s.(references := map[], faults := map[], events := []) && !pc.Done?
    case _ => false
  }

  /** In every schedule, a control request acts and answers at its section as it should. */
  lemma ControlInPlainTerms(c: Config, ls: seq<Label>, t: nat, i: Input)
    requires t in Run(c, ls).threads && Run(c, ls).threads[t].pc.Controlling?
    ensures var m, m' := Run(c, ls), Run(c, ls + [Step(t, i)]);
      PlainControl(m.server, m.threads[t].request.call, m'.server, m'.threads[t].pc)
  {
    EveryScheduleLinearizes(c, ls);
    RunAppend(c, ls, Step(t, i));
    assert HandlerOk(c, Accesses(c, ls), t, Run(c, ls).threads[t].request.call, Controlling);
  }
}
