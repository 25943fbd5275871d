/**
 What the journal says about commits. An event denotes a committed create, update or delete
 exactly when its status is the operation's success code or 0 and its fault injected no status.
 Counting such events, plus commits on their way to the journal, gives for every identifier and at
 every moment creates - deletes = 1 if the identifier is stored and 0 if not, up to what the latest
 reset overtook on its way to the journal.
 */
module JournalBalance {
  import opened Wrappers
  import opened FixtureState
  import opened HandlerProgram
  import opened AtomicStore
  import opened Schedule
  import opened Linearizability
  import opened CasChain
  import opened JournalNumbering

  // ---- which events denote commits ----

  /** The three writing operations are told apart, and from every other, by their names. */
  lemma OperationNames(call: Call)
    requires call.Federated()
    ensures call.Operation() == CREATE_REFERENCE <==> call.Create?
    ensures call.Operation() == UPDATE_REFERENCE <==> call.Update?
    ensures call.Operation() == DELETE_REFERENCE <==> call.Delete?
  {
  }

  predicate DenotesCommit(operation: string, status: int, fault: Option<FaultSnapshot>) {
    && (fault.None? || fault.value.status == 0)
    && (status == 0
        || (operation == CREATE_REFERENCE && status == 201)
        || (operation == UPDATE_REFERENCE && status == 200)
        || (operation == DELETE_REFERENCE && status == 200))
  }

  /** What the journal status of an outcome reveals. */
  lemma StatusRevealsCommit(c: Config, store: Store, call: Call, clock: int, fault: Option<FaultSnapshot>)
    requires call.Federated() && Touches(call) && Passes(fault)
    ensures var outcome := Atomic(c, store, call, clock).1;
      DenotesCommit(call.Operation(), JournalStatus(c, call, outcome, fault), fault) <==> Commits(outcome)
  {
    OperationNames(call);
  }

  lemma BypassDenotesNothing(call: Call, status: int, reply: Reply, fault: Option<FaultSnapshot>)
    requires call.Federated() && Bypassed(call, status, reply, fault)
    ensures !DenotesCommit(call.Operation(), status, fault)
  {
    OperationNames(call);
  }

  /** A handler's access is unique. */
  lemma AccessIsUnique(c: Config, ls: seq<Label>, j: nat, k: nat)
    requires j < |Accesses(c, ls)| && k < |Accesses(c, ls)| && Accesses(c, ls)[j].t == Accesses(c, ls)[k].t
    ensures j == k
  {
    EveryScheduleLinearizes(c, ls);
  }

  /** Handler `t` committed in its store section. */
  ghost predicate Committed(c: Config, es: seq<Access>, t: nat) {
    exists k :: 0 <= k < |es| && es[k].t == t && Commits(OutcomeOf(c, es, k))
  }

  /** Main result on single events: the journal entry of a request denotes a commit iff the request committed. */
  lemma EventDenotesCommit(c: Config, ls: seq<Label>, t: nat)
    requires HasJournaled(Run(c, ls), t)
    ensures var e := Run(c, ls).threads[t].pc.journaled.value;
      DenotesCommit(e.operation, e.status, e.fault) <==> Committed(c, Accesses(c, ls), t)
  {
    FinishedRequestIsSettled(c, ls, t);
    var th, es := Run(c, ls).threads[t], Accesses(c, ls);
    var call, e := th.request.call, th.pc.journaled.value;
    if Absent(es, t) && Bypassed(call, e.status, th.pc.reply, e.fault) {
      BypassDenotesNothing(call, e.status, th.pc.reply, e.fault);
    } else {
      var k :| Linearized(c, es, k, t, call, e.status, th.pc.reply, e.fault);
      TouchedAt(c, ls, k);
      StatusRevealsCommit(c, After(c, es[..k]), call, es[k].clock, e.fault);
      if j :| 0 <= j < |es| && es[j].t == t && Commits(OutcomeOf(c, es, j)) {
        AccessIsUnique(c, ls, j, k);
      }
    }
  }

  /** A handler that presented this OVN and whose event denotes a commit, its reply sent or lost. */
  ghost predicate CommittedWith(m: Machine, t: nat, id: string, ovn: string) {
    && HasJournaled(m, t) && Presents(m.threads[t].request.call, id, ovn)
    && var e := m.threads[t].pc.journaled.value; DenotesCommit(e.operation, e.status, e.fault)
  }

  lemma CommitsAt(c: Config, ls: seq<Label>, t: nat, id: string, ovn: string) returns (k: nat)
    requires CommittedWith(Run(c, ls), t, id, ovn)
    ensures k < |Accesses(c, ls)| && Accesses(c, ls)[k].t == t && CommitsWith(c, Accesses(c, ls), k, id, ovn)
  {
    EventDenotesCommit(c, ls, t);
    EveryScheduleLinearizes(c, ls);
    k :| 0 <= k < |Accesses(c, ls)| && Accesses(c, ls)[k].t == t && Commits(OutcomeOf(c, Accesses(c, ls), k));
  }

  /** The incarnation ended between two handlers' accesses, whichever came first. */
  ghost predicate EndedBetween(c: Config, es: seq<Access>, id: string, a: nat, b: nat) {
    exists i, j ::
      && 0 <= i < |es| && 0 <= j < |es| && es[i].t == a && es[j].t == b
      && if i < j then !SameIncarnation(c, es, id, i, j) else !SameIncarnation(c, es, id, j, i)
  }

  /**
   Of any handlers presenting one OVN, two commit only if the identifier was deleted or the server reset between
   their store sections; this includes handlers whose fault dropped the reply after the commit.
   */
  lemma SingleWinnerAmongHandlers(c: Config, ls: seq<Label>, id: string, ovn: string, a: nat, b: nat)
    requires a != b && CommittedWith(Run(c, ls), a, id, ovn) && CommittedWith(Run(c, ls), b, id, ovn)
    ensures EndedBetween(c, Accesses(c, ls), id, a, b)
  {
    var i := CommitsAt(c, ls, a, id, ovn);
    var j := CommitsAt(c, ls, b, id, ovn);
    if i < j {
      SingleWinner(c, Accesses(c, ls), id, ovn, i, j);
    } else {
      SingleWinner(c, Accesses(c, ls), id, ovn, j, i);
    }
  }

  lemma TouchedAt(c: Config, ls: seq<Label>, k: nat)
    requires k < |Accesses(c, ls)|
    ensures Touches(Accesses(c, ls)[k].call)
  {
    EveryScheduleLinearizes(c, ls);
  }

  // ---- balance ----

  /** Committed at the store, not yet in the journal. */
  predicate Pending(call: Call, pc: Pc) {
    call.Federated() &&
    match pc
    case Deleting(found, _) => call.Delete? && found.Some? && found.value.ovn == call.ovn
    case Recording(status, _, fault) => DenotesCommit(call.Operation(), status, fault)
    case Appending(e, _) => DenotesCommit(e.operation, e.status, e.fault)
    case _ => false
  }

  predicate PendingCreate(th: Thread, id: string) {
    th.request.call.Create? && th.request.call.id == id && Pending(th.request.call, th.pc)
  }

  predicate PendingDelete(th: Thread, id: string) {
    th.request.call.Delete? && th.request.call.id == id && Pending(th.request.call, th.pc)
  }

  function PendingCreates(m: Machine, id: string): set<nat> {
    set t | t in m.threads && PendingCreate(m.threads[t], id)
  }

  function PendingDeletes(m: Machine, id: string): set<nat> {
    set t | t in m.threads && PendingDelete(m.threads[t], id)
  }

  predicate Counts(e: Event, operation: string, id: string) {
    e.operation == operation && e.intentId == id && DenotesCommit(e.operation, e.status, e.fault)
  }

  function CommitsJournaled(events: seq<Event>, operation: string, id: string): nat {
    if events == [] then 0
    else CommitsJournaled(Front(events), operation, id) + if Counts(Last(events), operation, id) then 1 else 0
  }

  function Balance(m: Machine, id: string): int {
    CommitsJournaled(m.server.events, CREATE_REFERENCE, id) + |PendingCreates(m, id)|
    - CommitsJournaled(m.server.events, DELETE_REFERENCE, id) - |PendingDeletes(m, id)|
  }

  function OneIf(b: bool): nat { if b then 1 else 0 }

  /** One handler's share of the balance on its way to the journal. */
  function Weight(call: Call, pc: Pc, id: string): int {
    OneIf(call.Create? && call.id == id && Pending(call, pc))
    - OneIf(call.Delete? && call.id == id && Pending(call, pc))
  }

  /** The journal's share that one event adds. */
  function EventWeight(e: Event, id: string): int {
    OneIf(Counts(e, CREATE_REFERENCE, id)) - OneIf(Counts(e, DELETE_REFERENCE, id))
  }

  /** Sets that differ in one element at most. */
  lemma SizesDifferByOneElement(s: set<nat>, s': set<nat>, t: nat)
    requires s - {t} == s' - {t}
    ensures |s'| - |s| == OneIf(t in s') - OneIf(t in s)
  {
    assert s == (s - {t}) + if t in s then {t} else {};
    assert s' == (s - {t}) + if t in s' then {t} else {};
  }

  lemma PendingMoves(m: Machine, m': Machine, t: nat, id: string)
    requires OnlyMoved(m, m', t) && m'.threads[t].request == m.threads[t].request
    ensures |PendingCreates(m', id)| - |PendingDeletes(m', id)| - |PendingCreates(m, id)| + |PendingDeletes(m, id)|
            == Weight(m.threads[t].request.call, m'.threads[t].pc, id)
               - Weight(m.threads[t].request.call, m.threads[t].pc, id)
  {
    assert PendingCreates(m, id) - {t} == PendingCreates(m', id) - {t};
    SizesDifferByOneElement(PendingCreates(m, id), PendingCreates(m', id), t);
    assert PendingDeletes(m, id) - {t} == PendingDeletes(m', id) - {t};
    SizesDifferByOneElement(PendingDeletes(m, id), PendingDeletes(m', id), t);
  }

  /** What a step adds to the journal's share. */
  function Gain(pc: Pc, id: string): int {
    if pc.Appending? then EventWeight(pc.event, id) else 0
  }

  /** A DSS or peer request's step moves weight between store, handler and journal without losing any. */
  lemma StepConserves(c: Config, s: ServerState, es: seq<Access>, t: nat, r: Request, pc: Pc, i: Input, id: string)
    requires r.call.Federated() && HandlerOk(c, es, t, r.call, pc)
    ensures var (s', pc') := Advance(c, s, r, pc, i);
      Gain(pc, id) + Weight(r.call, pc', id) - Weight(r.call, pc, id)
      == OneIf(id in s'.references) - OneIf(id in s.references)
  {
    OperationNames(r.call);
    match pc
    case Locking(fault) => SectionConserves(c, s.references, r.call, fault, i.clock, id);
    case _ =>
  }

  lemma SectionConserves(c: Config, store: Store, call: Call, fault: Option<FaultSnapshot>, clock: int, id: string)
    requires call.Federated() && Touches(call) && Passes(fault)
    ensures var (store', pc) := StoreSection(c, store, call, fault, clock);
      Weight(call, pc, id) == OneIf(id in store') - OneIf(id in store)
  {
    OperationNames(call);
  }

  lemma CommitsJournaledAppend(events: seq<Event>, e: Event, operation: string, id: string)
    ensures CommitsJournaled(events + [e], operation, id)
            == CommitsJournaled(events, operation, id) + OneIf(Counts(e, operation, id))
  {
    FrontOfAppend(events, e);
  }

  lemma FederatedStepBalances(c: Config, m: Machine, es: seq<Access>, t: nat, i: Input, id: string)
    requires t in m.threads && m.threads[t].request.call.Federated()
    requires HandlerOk(c, es, t, m.threads[t].request.call, m.threads[t].pc)
    ensures var m' := Next(c, m, Step(t, i));
      Balance(m', id) - Balance(m, id) == OneIf(id in m'.server.references) - OneIf(id in m.server.references)
  {
    var m', th := Next(c, m, Step(t, i)), m.threads[t];
    PendingMoves(m, m', t, id);
    StepConserves(c, m.server, es, t, th.request, th.pc, i, id);
    if th.pc.Appending? {
      CommitsJournaledAppend(m.server.events, th.pc.event, CREATE_REFERENCE, id);
      CommitsJournaledAppend(m.server.events, th.pc.event, DELETE_REFERENCE, id);
    }
  }

  /** The step is a reset's mutex section. */
  predicate Wiping(m: Machine, l: Label) {
    ResetStep(m, l) && m.threads[l.t].pc.Controlling?
  }

  /** Committed creates minus deletes of the identifier that the latest reset overtook on their way to the journal. */
  function Overtaken(c: Config, ls: seq<Label>, id: string): int {
    if ls == [] then 0
    else
      var m := Run(c, Front(ls));
      if Wiping(m, Last(ls)) then |PendingCreates(m, id)| - |PendingDeletes(m, id)| else Overtaken(c, Front(ls), id)
  }

  ghost predicate OthersIdle(m: Machine, t: nat) {
    forall u :: u in m.threads && u != t ==> Idle(m.threads[u].pc)
  }

  lemma NothingPending(m: Machine, t: nat, id: string)
    requires t in m.threads && m.threads[t].request.call.Reset? && OthersIdle(m, t)
    ensures PendingCreates(m, id) == {} && PendingDeletes(m, id) == {}
  {
  }

  /** A reset with no other request under way overtakes nothing. */
  lemma QuiescentResetOvertakesNothing(c: Config, ls: seq<Label>, id: string)
    requires ls != [] && Wiping(Run(c, Front(ls)), Last(ls))
    requires OthersIdle(Run(c, Front(ls)), Last(ls).t)
    ensures Overtaken(c, ls, id) == 0
  {
    NothingPending(Run(c, Front(ls)), Last(ls).t, id);
  }

  /** A reset empties the store and the journal; what is pending stays pending. */
  lemma ResetBalances(c: Config, m: Machine, l: Label, id: string)
    requires Wiping(m, l)
    ensures var m' := Next(c, m, l);
      && Balance(m', id) == |PendingCreates(m, id)| - |PendingDeletes(m, id)|
      && id !in m'.server.references
  {
    var m' := Next(c, m, l);
    assert m.threads.Keys == m'.threads.Keys;
    assert PendingCreates(m', id) == PendingCreates(m, id) && PendingDeletes(m', id) == PendingDeletes(m, id);
  }

  lemma ControlStepBalances(c: Config, m: Machine, t: nat, i: Input, id: string)
    requires t in m.threads && !m.threads[t].request.call.Federated() && !Wiping(m, Step(t, i))
    ensures var m' := Next(c, m, Step(t, i));
      && Balance(m', id) == Balance(m, id)
      && (id in m'.server.references <==> id in m.server.references)
  {
    var m', th := Next(c, m, Step(t, i)), m.threads[t];
    PendingMoves(m, m', t, id);
    ControlKeepsKeys(m.server, th.request, th.pc);
  }

  /** Apart from the reset's section, control requests neither add nor remove entries, and never journal. */
  lemma ControlKeepsKeys(s: ServerState, r: Request, pc: Pc)
    requires !(r.call.Reset? && pc.Controlling?)
    ensures AdvanceControl(s, r, pc).0.references.Keys == s.references.Keys
    ensures AdvanceControl(s, r, pc).0.events == s.events
  {
  }

  /** Every label but a reset's section conserves the balance against the store. */
  lemma LabelBalances(c: Config, m: Machine, es: seq<Access>, l: Label, id: string)
    requires LinearizedBy(c, m, es) && !Wiping(m, l)
    ensures var m' := Next(c, m, l);
      Balance(m', id) - OneIf(id in m'.server.references) == Balance(m, id) - OneIf(id in m.server.references)
  {
    if l.Step? && l.t in m.threads {
      assert HandlerOk(c, es, l.t, m.threads[l.t].request.call, m.threads[l.t].pc);
      if m.threads[l.t].request.call.Federated() {
        FederatedStepBalances(c, m, es, l.t, l.input, id);
      } else {
        ControlStepBalances(c, m, l.t, l.input, id);
      }
    } else {
      ArrivalBalances(c, m, l, id);
    }
  }

  /**
   Main theorem: at every point of every schedule the committed creates of an identifier minus its committed
   deletes (journaled, or committed and not yet journaled) are 1 if the identifier is stored and 0 otherwise,
   if and only if the latest reset overtook as many committed creates of it as deletes.
   */
  lemma {:induction false} JournalBalances(c: Config, ls: seq<Label>, id: string)
    ensures Balance(Run(c, ls), id) == OneIf(id in Run(c, ls).server.references) + Overtaken(c, ls, id)
    ensures Balance(Run(c, ls), id) == OneIf(id in Run(c, ls).server.references) <==> Overtaken(c, ls, id) == 0
  {
    if ls == [] {
      assert PendingCreates(INITIAL, id) == {} && PendingDeletes(INITIAL, id) == {};
    } else {
      var m, l := Run(c, Front(ls)), Last(ls);
      if Wiping(m, l) {
        ResetBalances(c, m, l, id);
      } else {
        JournalBalances(c, Front(ls), id);
        EveryScheduleLinearizes(c, Front(ls));
        LabelBalances(c, m, Accesses(c, Front(ls)), l, id);
      }
    }
  }

  lemma ArrivalBalances(c: Config, m: Machine, l: Label, id: string)
    requires l.Arrive? || l.t !in m.threads
    ensures Balance(Next(c, m, l), id) == Balance(m, id)
    ensures Next(c, m, l).server.references == m.server.references
  {
    assert PendingCreates(Next(c, m, l), id) == PendingCreates(m, id);
    assert PendingDeletes(Next(c, m, l), id) == PendingDeletes(m, id);
  }

  /** When nothing is under way the journal alone tells which identifiers are stored, under the same condition. */
  lemma QuiescentJournalBalances(c: Config, ls: seq<Label>, id: string)
    requires Quiescent(Run(c, ls))
    ensures var events := Run(c, ls).server.events;
      CommitsJournaled(events, CREATE_REFERENCE, id) - CommitsJournaled(events, DELETE_REFERENCE, id)
      == OneIf(id in Run(c, ls).server.references) + Overtaken(c, ls, id)
  {
    JournalBalances(c, ls, id);
    assert PendingCreates(Run(c, ls), id) == {} && PendingDeletes(Run(c, ls), id) == {};
  }
}
