/**
 Faults never change what happens to the reference store except by stopping a request before
 its store section. Erase from a schedule every request that a fault stopped, together with
 all arming of faults: the remaining fault-free run performs the same store sections in the
 same order and goes through the same reference maps.
 */
module FaultErasure {
  import opened Wrappers
  import opened FixtureState
  import opened HandlerProgram
  import opened AtomicStore
  import opened Schedule
  import opened Linearizability

  // ---- a handler's verdict: did its fault stop it before the store? ----

  datatype Verdict = Undecided | StoppedEarly | LetThrough

  function VerdictOf(pc: Pc): Verdict {
    match pc
    case TakingFault => Undecided
    case Preparing(_) => Undecided
    case Recording(status, _, fault) => if Stopped(status, fault) then StoppedEarly else LetThrough
    case Appending(e, _) => if Stopped(e.status, e.fault) then StoppedEarly else LetThrough
    case Done(_, Some(e)) => if Stopped(e.status, e.fault) then StoppedEarly else LetThrough
    case _ => LetThrough
  }

  lemma VerdictIsFinal(c: Config, s: ServerState, r: Request, pc: Pc, i: Input, es: seq<Access>, t: nat)
    requires HandlerOk(c, es, t, r.call, pc) && !VerdictOf(pc).Undecided?
    ensures VerdictOf(Advance(c, s, r, pc, i).1) == VerdictOf(pc)
  {
  }

  lemma {:induction false} VerdictPersists(c: Config, ls: seq<Label>, n: nat, t: nat)
    requires n <= |ls| && t in Run(c, ls[..n]).threads
    requires !VerdictOf(Run(c, ls[..n]).threads[t].pc).Undecided?
    ensures t in Run(c, ls).threads
    ensures VerdictOf(Run(c, ls).threads[t].pc) == VerdictOf(Run(c, ls[..n]).threads[t].pc)
    decreases |ls|
  {
    if n == |ls| {
      assert ls[..n] == ls;
    } else {
      var front := Front(ls);
      assert front[..n] == ls[..n];
      VerdictPersists(c, front, n, t);
      EveryScheduleLinearizes(c, front);
      var m := Run(c, front);
      if Last(ls).Step? && Last(ls).t == t {
        VerdictIsFinal(c, m.server, m.threads[t].request, m.threads[t].pc, Last(ls).input, Accesses(c, front), t);
      }
    }
  }

  // ---- erasing ----

  /** The requests that a fault stopped in the run of `ls`, and those that arm faults. */
  ghost function FaultRequests(c: Config, ls: seq<Label>): set<nat> {
    var m := Run(c, ls);
    set t | t in m.threads && (VerdictOf(m.threads[t].pc).StoppedEarly? || m.threads[t].request.call.ArmFault?)
  }

  function Erase(ls: seq<Label>, erased: set<nat>): seq<Label> {
    if ls == [] then []
    else if Last(ls).t in erased then Erase(Front(ls), erased)
    else Erase(Front(ls), erased) + [Last(ls)]
  }

  /** The same point of the program, reached without a fault. */
  predicate SamePoint(pc: Pc, calm: Pc) {
    match pc
    case TakingFault => calm.TakingFault?
    case Preparing(_) => calm == Preparing(None)
    case Locking(_) => calm == Locking(None)
    case Deleting(found, _) => calm == Deleting(found, None)
    case Recording(_, _, _) => calm.Recording?
    case Appending(_, _) => calm.Appending?
    case Controlling => calm.Controlling?
    case ZeroingSequence => calm.ZeroingSequence?
    case Done(_, _) => calm.Done?
  }

  /** `calm` runs the requests of `m` that are not erased, without any fault armed. */
  ghost predicate Simulates(m: Machine, calm: Machine, erased: set<nat>) {
    && calm.server.references == m.server.references
    && calm.server.faults == map[]
    && calm.threads.Keys == m.threads.Keys - erased
    && (forall t :: t in calm.threads ==>
          calm.threads[t].request == m.threads[t].request && SamePoint(m.threads[t].pc, calm.threads[t].pc))
  }

  /** One step of a request that is not stopped, faulted on one side and fault-free on the other. */
  lemma StepsInParallel(c: Config, s: ServerState, calm: ServerState, r: Request, pc: Pc, calmPc: Pc, i: Input)
    requires calm.references == s.references && calm.faults == map[]
    requires SamePoint(pc, calmPc) && !r.call.ArmFault?
    requires !VerdictOf(Advance(c, s, r, pc, i).1).StoppedEarly?
    ensures Advance(c, calm, r, calmPc, i).0.references == Advance(c, s, r, pc, i).0.references
    ensures Advance(c, calm, r, calmPc, i).0.faults == map[]
    ensures SamePoint(Advance(c, s, r, pc, i).1, Advance(c, calm, r, calmPc, i).1)
  {
    if r.call.Federated() {
      match pc
      case Locking(fault) => SectionIgnoresFault(c, s.references, r.call, fault, i.clock);
      case _ =>
    }
  }

  lemma PutIgnoresFault(c: Config, store: Store, id: string, create: bool, presented: string, body: PutBody, clock: int,
                        fault: Option<FaultSnapshot>)
    ensures var (store', pc), (calmStore, calmPc) :=
        PutSection(c, store, id, create, presented, body, clock, fault),
        PutSection(c, store, id, create, presented, body, clock, None);
      store' == calmStore && SamePoint(pc, calmPc)
  {
  }

  lemma SectionIgnoresFault(c: Config, store: Store, call: Call, fault: Option<FaultSnapshot>, clock: int)
    ensures StoreSection(c, store, call, fault, clock).0 == StoreSection(c, store, call, None, clock).0
    ensures SamePoint(StoreSection(c, store, call, fault, clock).1, StoreSection(c, store, call, None, clock).1)
  {
    match call
    case Create(id, Some(body)) => PutIgnoresFault(c, store, id, true, "", body, clock, fault);
    case Update(id, ovn, Some(body)) => PutIgnoresFault(c, store, id, false, ovn, body, clock, fault);
    case _ =>
  }

  /** A step of an erased request does not concern the store. */
  lemma ErasedStepIsIdle(c: Config, m: Machine, es: seq<Access>, t: nat, i: Input)
    requires LinearizedBy(c, m, es) && t in m.threads
    requires VerdictOf(m.threads[t].pc) != LetThrough || m.threads[t].request.call.ArmFault?
    ensures Accessed(m, Step(t, i)) == [] && Next(c, m, Step(t, i)).server.references == m.server.references
  {
    LocalStepOk(c, m.server, es, t, m.threads[t].request, m.threads[t].pc, i);
  }

  /** A label of an erased request, skipped in the fault-free run. */
  lemma ErasedLabel(c: Config, m: Machine, calm: Machine, es: seq<Access>, erased: set<nat>, l: Label)
    requires LinearizedBy(c, m, es) && Simulates(m, calm, erased) && l.t in erased
    requires l.t in m.threads ==> VerdictOf(m.threads[l.t].pc) != LetThrough || m.threads[l.t].request.call.ArmFault?
    ensures Simulates(Next(c, m, l), calm, erased) && Accessed(m, l) == []
  {
    if l.Step? && l.t in m.threads {
      ErasedStepIsIdle(c, m, es, l.t, l.input);
    }
    assert Next(c, m, l).threads.Keys - erased == m.threads.Keys - erased;
    assert forall t :: t in calm.threads ==> Next(c, m, l).threads[t] == m.threads[t];
  }

  /** A label of any other request, taken in both runs. */
  lemma KeptLabel(c: Config, m: Machine, calm: Machine, erased: set<nat>, l: Label)
    requires Simulates(m, calm, erased) && l.t !in erased
    requires l.t in Next(c, m, l).threads ==>
      !VerdictOf(Next(c, m, l).threads[l.t].pc).StoppedEarly? && !Next(c, m, l).threads[l.t].request.call.ArmFault?
    ensures Simulates(Next(c, m, l), Next(c, calm, l), erased) && Accessed(calm, l) == Accessed(m, l)
  {
    var m', calm' := Next(c, m, l), Next(c, calm, l);
    assert l.t in m.threads <==> l.t in calm.threads;
    if l.Step? && l.t in m.threads {
      var th := m.threads[l.t];
      StepsInParallel(c, m.server, calm.server, th.request, th.pc, calm.threads[l.t].pc, l.input);
    }
    assert calm'.threads.Keys == m'.threads.Keys - erased;
    forall t | t in calm'.threads
      ensures calm'.threads[t].request == m'.threads[t].request && SamePoint(m'.threads[t].pc, calm'.threads[t].pc)
    {
      if t != l.t {
        assert t in calm.threads && calm'.threads[t] == calm.threads[t] && m'.threads[t] == m.threads[t];
      }
    }
  }

  /** What the whole run says about an earlier point: erased requests have not got past their fault. */
  lemma ErasedBefore(c: Config, ls: seq<Label>, n: nat, t: nat)
    requires n <= |ls| && t in Run(c, ls[..n]).threads
    ensures t in FaultRequests(c, ls) ==>
      VerdictOf(Run(c, ls[..n]).threads[t].pc) != LetThrough || Run(c, ls[..n]).threads[t].request.call.ArmFault?
    ensures t !in FaultRequests(c, ls) ==>
      !VerdictOf(Run(c, ls[..n]).threads[t].pc).StoppedEarly? && !Run(c, ls[..n]).threads[t].request.call.ArmFault?
  {
    assert ls[..n] + ls[n..] == ls;
    RequestsPersist(c, ls[..n], ls[n..], t);
    if !VerdictOf(Run(c, ls[..n]).threads[t].pc).Undecided? {
      VerdictPersists(c, ls, n, t);
    }
  }

  lemma {:induction false} ErasurePrefix(c: Config, ls: seq<Label>, n: nat)
    requires n <= |ls|
    ensures Simulates(Run(c, ls[..n]), Run(c, Erase(ls[..n], FaultRequests(c, ls))), FaultRequests(c, ls))
    ensures Accesses(c, Erase(ls[..n], FaultRequests(c, ls))) == Accesses(c, ls[..n])
  {
    if n > 0 {
      var erased, before, l := FaultRequests(c, ls), ls[..n - 1], ls[n - 1];
      assert ls[..n] == before + [l] && Front(ls[..n]) == before;
      ErasurePrefix(c, ls, n - 1);
      var m, calm := Run(c, before), Run(c, Erase(before, erased));
      RunAppend(c, before, l);
      if l.t in erased {
        if l.t in m.threads {
          ErasedBefore(c, ls, n - 1, l.t);
        }
        EveryScheduleLinearizes(c, before);
        ErasedLabel(c, m, calm, Accesses(c, before), erased, l);
      } else {
        if l.t in Next(c, m, l).threads {
          ErasedBefore(c, ls, n, l.t);
        }
        KeptLabel(c, m, calm, erased, l);
        RunAppend(c, Erase(before, erased), l);
      }
    }
  }

  /**
   Main theorem: after every prefix of every schedule the reference map is that of the erased,
   fault-free run at the same point, and both have executed the same store sections.
   */
  lemma FaultsOnlyStopRequests(c: Config, ls: seq<Label>, n: nat)
    requires n <= |ls|
    ensures var faulted, calm := ls[..n], Erase(ls[..n], FaultRequests(c, ls));
      && Run(c, calm).server.references == Run(c, faulted).server.references
      && Accesses(c, calm) == Accesses(c, faulted)
      && Run(c, calm).server.faults == map[]
      && Run(c, calm).threads.Keys == Run(c, faulted).threads.Keys - FaultRequests(c, ls)
  {
    ErasurePrefix(c, ls, n);
  }

  /** Atomic outcomes are never journaled as 499. */
  lemma NoOutcomeIsCancelled(c: Config, call: Call, outcome: Outcome, fault: Option<FaultSnapshot>)
    ensures JournalStatus(c, call, outcome, fault) != 499
  {
  }

  lemma StoppedIff(c: Config, es: seq<Access>, t: nat, call: Call, status: int, reply: Reply,
                   fault: Option<FaultSnapshot>)
    requires Settled(c, es, t, call, status, reply, fault)
    ensures Stopped(status, fault) <==> fault.Some? && (fault.value.status != 0 || status == 499)
  {
    if k :| Linearized(c, es, k, t, call, status, reply, fault) {
      NoOutcomeIsCancelled(c, call, OutcomeOf(c, es, k), fault);
    }
  }

  /** Exactly the requests with an injected status and those cancelled in their delay are erased. */
  lemma ErasedIffInjectedOrCancelled(c: Config, ls: seq<Label>, t: nat)
    requires t in Run(c, ls).threads && Run(c, ls).threads[t].pc.Done? && Run(c, ls).threads[t].pc.journaled.Some?
    ensures var e := Run(c, ls).threads[t].pc.journaled.value;
      t in FaultRequests(c, ls) <==> e.fault.Some? && (e.fault.value.status != 0 || e.status == 499)
  {
    FinishedRequestIsSettled(c, ls, t);
    var th, e := Run(c, ls).threads[t], Run(c, ls).threads[t].pc.journaled.value;
    StoppedIff(c, Accesses(c, ls), t, th.request.call, e.status, th.pc.reply, e.fault);
  }

  /**
   A fault without an injected status stops nothing unless its delay is cancelled: whether it delays the request,
   drops the reply after the commit or truncates it, the request is never erased.
   */
  lemma LateFaultsStopNothing(c: Config, ls: seq<Label>, t: nat)
    requires t in Run(c, ls).threads && Run(c, ls).threads[t].pc.Done? && Run(c, ls).threads[t].pc.journaled.Some?
    requires var e := Run(c, ls).threads[t].pc.journaled.value;
      e.fault.Some? ==> e.fault.value.status == 0 && e.status != 499
    ensures t !in FaultRequests(c, ls)
  {
    ErasedIffInjectedOrCancelled(c, ls, t);
  }
}
