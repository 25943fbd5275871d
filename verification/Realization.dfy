/**
 The converse of `Linearizability`: every order of atomic accesses is that of some schedule of handlers,
 so what is true or false of orders of accesses is true or false of the concurrent fixture.
 */
module Realization {
  import opened Wrappers
  import opened FixtureState
  import opened HandlerProgram
  import opened AtomicStore
  import opened Schedule
  import opened Linearizability

  /** Accesses of different requests, each of which reaches the store. */
  ghost predicate Orderly(es: seq<Access>) {
    && (forall k :: 0 <= k < |es| ==> Touches(es[k].call))
    && (forall j, k :: 0 <= j < k < |es| ==> es[j].t != es[k].t)
  }

  function Arrival(a: Access): Label {
    Arrive(a.t, Request(a.call, "", ""))
  }

  function Move(a: Access): Label {
    Step(a.t, Input(false, a.clock))
  }

  function Moves(a: Access, n: nat): seq<Label> {
    if n == 0 then [] else Moves(a, n - 1) + [Move(a)]
  }

  /** One request from its arrival to its end; a handler has at most six steps. */
  function Alone(a: Access): seq<Label> {
    [Arrival(a)] + Moves(a, 6)
  }

  /** The handler has replied and met no fault. */
  predicate Replied(pc: Pc) {
    pc.Done? && (pc.journaled.Some? ==> pc.journaled.value.fault.None?)
  }

  /** Where a handler that meets no fault can stand `n` steps after its store section. */
  predicate PastStore(th: Thread, n: nat) {
    if !th.request.call.Federated() then
      Replied(th.pc) || (n == 0 && th.request.call.Reset? && th.pc.ZeroingSequence?)
    else
      match th.pc
      case Deleting(_, fault) => n == 0 && th.request.call.Delete? && fault.None?
      case Recording(_, _, fault) => n <= 1 && fault.None?
      case Appending(e, _) => n <= 2 && e.fault.None?
      case Done(_, journaled) => Replied(th.pc)
      case _ => false
  }

  /** The machine `m` gone on to `m'`: only `a`'s handler is new or has moved, and no fault is armed. */
  ghost predicate OnlyAdds(m: Machine, m': Machine, a: Access) {
    && a.t in m'.threads && m'.threads[a.t].request.call == a.call && m'.server.faults == map[]
    && (forall t :: t != a.t ==> (t in m'.threads <==> t in m.threads))
    && (forall t :: t != a.t && t in m.threads ==> m'.threads[t] == m.threads[t])
  }

  /** `a`'s request was added to `m0` and has been through its section `n` steps ago. */
  ghost predicate Past(m0: Machine, m: Machine, a: Access, n: nat) {
    OnlyAdds(m0, m, a) && PastStore(m.threads[a.t], n)
  }

  /** A step of a request past the store, on a server with no fault armed. */
  lemma MovesOn(c: Config, th: Thread, s: ServerState, i: Input, n: nat)
    requires Touches(th.request.call) && PastStore(th, n) && s.faults == map[]
    ensures !AtStore(th)
    ensures var (s', pc') := Advance(c, s, th.request, th.pc, i);
      PastStore(Thread(th.request, pc'), n + 1) && s'.faults == map[]
  {
  }

  lemma PastNext(c: Config, m0: Machine, m: Machine, a: Access, n: nat)
    requires Touches(a.call) && Past(m0, m, a, n)
    ensures Past(m0, Next(c, m, Move(a)), a, n + 1) && Accessed(m, Move(a)) == []
  {
    MovesOn(c, m.threads[a.t], m.server, Move(a).input, n);
  }

  lemma FederatedEnters(c: Config, m: Machine, a: Access, m1: Machine, m2: Machine, m3: Machine)
    requires m.server.faults == map[] && a.t !in m.threads && Touches(a.call) && a.call.Federated()
    requires m1 == Next(c, m, Arrival(a)) && m2 == Next(c, m1, Move(a)) && m3 == Next(c, m2, Move(a))
    ensures OnlyAdds(m, m3, a) && m3.threads[a.t].pc == Locking(None)
    ensures Accessed(m, Arrival(a)) == Accessed(m1, Move(a)) == Accessed(m2, Move(a)) == []
  {
    assert m2.threads[a.t].pc == Preparing(None);
  }

  lemma StoreStep(c: Config, th: Thread, s: ServerState, i: Input)
    requires Touches(th.request.call) && s.faults == map[]
    requires th.pc == if th.request.call.Federated() then Locking(None) else Controlling
    ensures AtStore(th)
    ensures var (s', pc') := Advance(c, s, th.request, th.pc, i);
      PastStore(Thread(th.request, pc'), 0) && s'.faults == map[]
  {
  }

  lemma EntersStore(c: Config, m0: Machine, m: Machine, a: Access)
    requires Touches(a.call) && OnlyAdds(m0, m, a)
    requires m.threads[a.t].pc == if a.call.Federated() then Locking(None) else Controlling
    ensures Past(m0, Next(c, m, Move(a)), a, 0) && Accessed(m, Move(a)) == [a]
  {
    StoreStep(c, m.threads[a.t], m.server, Move(a).input);
  }

  /** After `ls`, `a` was added to `m0` and is the last of the accesses. */
  ghost predicate Reached(c: Config, ls: seq<Label>, m0: Machine, es: seq<Access>, a: Access, n: nat) {
    Touches(a.call) && Past(m0, Run(c, ls), a, n) && Accesses(c, ls) == es + [a]
  }

  lemma ReachesNext(c: Config, ls: seq<Label>, m0: Machine, es: seq<Access>, a: Access, n: nat)
    requires Reached(c, ls, m0, es, a, n)
    ensures Reached(c, ls + [Move(a)], m0, es, a, n + 1)
  {
    RunAppend(c, ls, Move(a));
    PastNext(c, m0, Run(c, ls), a, n);
  }

  lemma {:induction false} ReachesOn(c: Config, ls: seq<Label>, m0: Machine, es: seq<Access>, a: Access, n: nat, k: nat)
    requires Reached(c, ls, m0, es, a, n)
    ensures Reached(c, ls + Moves(a, k), m0, es, a, n + k)
  {
    if k == 0 {
      assert ls + Moves(a, k) == ls;
    } else {
      ReachesOn(c, ls, m0, es, a, n, k - 1);
      ReachesNext(c, ls + Moves(a, k - 1), m0, es, a, n + k - 1);
      assert ls + Moves(a, k) == ls + Moves(a, k - 1) + [Move(a)];
    }
  }

  /** Steps up to and including the store section. */
  function Entering(call: Call): nat {
    if call.Federated() then 3 else 1
  }

  lemma FederatedIsLocking(c: Config, ls: seq<Label>, a: Access, ls3: seq<Label>)
    requires Run(c, ls).server.faults == map[] && a.t !in Run(c, ls).threads && Touches(a.call) && a.call.Federated()
    requires ls3 == ls + [Arrival(a)] + [Move(a)] + [Move(a)]
    ensures OnlyAdds(Run(c, ls), Run(c, ls3), a) && Run(c, ls3).threads[a.t].pc == Locking(None)
    ensures Accesses(c, ls3) == Accesses(c, ls)
  {
    var ls1 := ls + [Arrival(a)];
    var ls2 := ls1 + [Move(a)];
    RunAppend(c, ls, Arrival(a));
    RunAppend(c, ls1, Move(a));
    RunAppend(c, ls2, Move(a));
    FederatedEnters(c, Run(c, ls), a, Run(c, ls1), Run(c, ls2), Run(c, ls3));
  }

  lemma FederatedIsIn(c: Config, ls: seq<Label>, a: Access)
    requires Run(c, ls).server.faults == map[] && a.t !in Run(c, ls).threads && Touches(a.call) && a.call.Federated()
    ensures Reached(c, ls + [Arrival(a)] + [Move(a)] + [Move(a)] + [Move(a)], Run(c, ls), Accesses(c, ls), a, 0)
  {
    var ls3 := ls + [Arrival(a)] + [Move(a)] + [Move(a)];
    FederatedIsLocking(c, ls, a, ls3);
    RunAppend(c, ls3, Move(a));
    EntersStore(c, Run(c, ls), Run(c, ls3), a);
  }

  lemma ControlIsIn(c: Config, ls: seq<Label>, a: Access)
    requires Run(c, ls).server.faults == map[] && a.t !in Run(c, ls).threads && Touches(a.call) && !a.call.Federated()
    ensures Reached(c, ls + [Arrival(a)] + [Move(a)], Run(c, ls), Accesses(c, ls), a, 0)
  {
    var ls1 := ls + [Arrival(a)];
    RunAppend(c, ls, Arrival(a));
    RunAppend(c, ls1, Move(a));
    EntersStore(c, Run(c, ls), Run(c, ls1), a);
  }

  lemma MovesOneByOne(ls: seq<Label>, a: Access)
    ensures ls + Moves(a, 1) == ls + [Move(a)]
    ensures ls + Moves(a, 3) == ls + [Move(a)] + [Move(a)] + [Move(a)]
  {
    assert Moves(a, 1) == [Move(a)] && Moves(a, 2) == [Move(a)] + [Move(a)];
  }

  lemma Enters(c: Config, ls: seq<Label>, a: Access, entered: seq<Label>)
    requires Run(c, ls).server.faults == map[] && a.t !in Run(c, ls).threads && Touches(a.call)
    requires entered == ls + [Arrival(a)] + Moves(a, Entering(a.call))
    ensures Reached(c, entered, Run(c, ls), Accesses(c, ls), a, 0)
  {
    MovesOneByOne(ls + [Arrival(a)], a);
    if a.call.Federated() {
      FederatedIsIn(c, ls, a);
    } else {
      ControlIsIn(c, ls, a);
    }
  }

  lemma {:induction false} MovesAdd(a: Access, j: nat, k: nat)
    ensures Moves(a, j) + Moves(a, k) == Moves(a, j + k)
  {
    if k > 0 {
      MovesAdd(a, j, k - 1);
    }
  }

  lemma AloneSplits(ls: seq<Label>, a: Access, j: nat, k: nat)
    requires j + k == 6
    ensures ls + [Arrival(a)] + Moves(a, j) + Moves(a, k) == ls + Alone(a)
  {
    MovesAdd(a, j, k);
  }

  /** A request that runs alone accesses the store once and replies. */
  lemma RunsAlone(c: Config, ls: seq<Label>, a: Access)
    requires Run(c, ls).server.faults == map[] && a.t !in Run(c, ls).threads && Touches(a.call)
    ensures Reached(c, ls + Alone(a), Run(c, ls), Accesses(c, ls), a, 6 - Entering(a.call))
  {
    var j := Entering(a.call);
    var entered := ls + [Arrival(a)] + Moves(a, j);
    Enters(c, ls, a, entered);
    ReachesOn(c, entered, Run(c, ls), Accesses(c, ls), a, 0, 6 - j);
    AloneSplits(ls, a, j, 6 - j);
  }

  lemma HasReplied(c: Config, ls: seq<Label>, m: Machine, es: seq<Access>, a: Access, n: nat)
    requires Reached(c, ls, m, es, a, n) && n >= 6 - Entering(a.call)
    ensures Replied(Run(c, ls).threads[a.t].pc)
  {
  }

  /** After the accesses, one request at a time, exactly their handlers exist and all have replied. */
  ghost predicate AllReplied(m: Machine, es: seq<Access>) {
    && m.server.faults == map[]
    && (forall t :: t in m.threads ==> Replied(m.threads[t].pc) && exists k :: 0 <= k < |es| && es[k].t == t)
    && (forall k :: 0 <= k < |es| ==> es[k].t in m.threads && m.threads[es[k].t].request.call == es[k].call)
  }

  lemma AllRepliedExtends(m: Machine, m': Machine, es: seq<Access>, a: Access)
    requires AllReplied(m, es) && OnlyAdds(m, m', a) && Replied(m'.threads[a.t].pc)
    requires forall k :: 0 <= k < |es| ==> es[k].t != a.t
    ensures AllReplied(m', es + [a])
  {
    forall t | t in m'.threads
      ensures Replied(m'.threads[t].pc) && exists k :: 0 <= k < |es + [a]| && (es + [a])[k].t == t
    {
      if t == a.t {
        assert (es + [a])[|es|].t == t;
      } else {
        var k :| 0 <= k < |es| && es[k].t == t;
        assert (es + [a])[k].t == t;
      }
    }
  }

  /** The schedule accesses the store in this order and leaves nothing under way. */
  ghost predicate Realizes(c: Config, ls: seq<Label>, es: seq<Access>) {
    Accesses(c, ls) == es && AllReplied(Run(c, ls), es)
  }

  lemma OneMoreAlone(c: Config, ls: seq<Label>, es: seq<Access>, a: Access) returns (ls': seq<Label>)
    requires Realizes(c, ls, es) && Orderly(es + [a])
    ensures Realizes(c, ls', es + [a])
  {
    ls' := ls + Alone(a);
    assert (es + [a])[|es|] == a && forall k :: 0 <= k < |es| ==> (es + [a])[k] == es[k];
    RunsAlone(c, ls, a);
    HasReplied(c, ls', Run(c, ls), es, a, 6 - Entering(a.call));
    AllRepliedExtends(Run(c, ls), Run(c, ls'), es, a);
  }

  /** Every orderly sequence of accesses is what some schedule does to the store, one request at a time. */
  lemma {:induction false} EveryOrderHasASchedule(c: Config, es: seq<Access>) returns (ls: seq<Label>)
    requires Orderly(es)
    ensures Realizes(c, ls, es)
  {
    if es == [] {
      ls := [];
    } else {
      var before := EveryOrderHasASchedule(c, Front(es));
      ls := OneMoreAlone(c, before, Front(es), Last(es));
      assert es == Front(es) + [Last(es)];
    }
  }

  /** A handler that replied and met no fault answered what the atomic store gave it. */
  lemma AnswerIsAtomic(c: Config, es: seq<Access>, k: nat, pc: Pc)
    requires Orderly(es) && k < |es| && Replied(pc) && HandlerOk(c, es, es[k].t, es[k].call, pc)
    ensures pc.reply == AnswerFor(c, es[k].call, OutcomeOf(c, es, k))
  {
    var t, call := es[k].t, es[k].call;
    match pc.journaled
    case None =>
      var j :| IsAccess(es, j, t, call) && pc.reply == AnswerFor(c, call, OutcomeOf(c, es, j));
      assert j == k;
    case Some(e) =>
      assert IsAccess(es, k, t, call) && !Absent(es, t);
      var j :| Linearized(c, es, j, t, call, e.status, pc.reply, e.fault);
      assert j == k;
      UnfaultedSeesAll(OutcomeOf(c, es, k), AnswerFor(c, call, OutcomeOf(c, es, k)));
  }

  lemma UnfaultedSeesAll(outcome: Outcome, answer: Reply)
    ensures Seen(outcome, answer, None) == answer
  {
  }

  /** Main theorem: every orderly sequence of accesses is that of a schedule whose handlers give the atomic answers. */
  lemma EveryOrderIsServed(c: Config, es: seq<Access>) returns (ls: seq<Label>)
    requires Orderly(es)
    ensures Accesses(c, ls) == es
    ensures forall k :: 0 <= k < |es| ==>
      && es[k].t in Run(c, ls).threads && Run(c, ls).threads[es[k].t].pc.Done?
      && Run(c, ls).threads[es[k].t].pc.reply == AnswerFor(c, es[k].call, OutcomeOf(c, es, k))
  {
    ls := EveryOrderHasASchedule(c, es);
    EveryScheduleLinearizes(c, ls);
    var m := Run(c, ls);
    forall k | 0 <= k < |es|
      ensures Replied(m.threads[es[k].t].pc)
      ensures m.threads[es[k].t].pc.reply == AnswerFor(c, es[k].call, OutcomeOf(c, es, k))
    {
      assert es[k].t in m.threads && m.threads[es[k].t].request.call == es[k].call;
      assert Replied(m.threads[es[k].t].pc);
      AnswerIsAtomic(c, es, k, m.threads[es[k].t].pc);
    }
  }

  /** The orders of accesses of schedules are exactly the orderly ones. */
  lemma SchedulesHaveOrderlyAccesses(c: Config, es: seq<Access>)
    ensures Orderly(es) <==> exists ls :: Accesses(c, ls) == es
  {
    if Orderly(es) {
      var ls := EveryOrderHasASchedule(c, es);
      assert Accesses(c, ls) == es;
    }
    if ls :| Accesses(c, ls) == es {
      EveryScheduleLinearizes(c, ls);
    }
  }
}
