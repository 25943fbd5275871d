/**
 The fixture as a concurrent machine: any number of handlers, interleaved step by step in
 any order. A schedule is any sequence of labels; a label that is not possible where it
 stands changes nothing, so every statement about `Run` is about every schedule.
 */
module Schedule {
  import opened Wrappers
  import opened FixtureState
  import opened HandlerProgram
  import opened AtomicStore

  datatype Thread = Thread(request: Request, pc: Pc)

  datatype Machine = Machine(server: ServerState, threads: map<nat, Thread>)

  datatype Label =
    | Arrive(t: nat, request: Request)
    | Step(t: nat, input: Input)

  const INITIAL := Machine(EMPTY_SERVER, map[])

  function Next(c: Config, m: Machine, l: Label): Machine {
    match l
    case Arrive(t, r) =>
      if t in m.threads then m else m.(threads := m.threads[t := Thread(r, Entry(r.call))])
    case Step(t, i) =>
      if t !in m.threads then m
      else
        var (server, pc) := Advance(c, m.server, m.threads[t].request, m.threads[t].pc, i);
        Machine(server, m.threads[t := Thread(m.threads[t].request, pc)])
  }

  function Run(c: Config, ls: seq<Label>): Machine {
    if ls == [] then INITIAL else Next(c, Run(c, Front(ls)), Last(ls))
  }

  /** The handler is about to execute its store section. */
  predicate AtStore(th: Thread) {
    Touches(th.request.call) && (th.pc.Locking? || th.pc.Controlling?)
  }

  function Accessed(m: Machine, l: Label): seq<Access> {
    if l.Step? && l.t in m.threads && AtStore(m.threads[l.t])
    then [Access(l.t, m.threads[l.t].request.call, l.input.clock)]
    else []
  }

  /** The store sections of a run in the order they were executed. */
  function Accesses(c: Config, ls: seq<Label>): seq<Access> {
    if ls == [] then [] else Accesses(c, Front(ls)) + Accessed(Run(c, Front(ls)), Last(ls))
  }

  /** One more label, seen from the end of the schedule. */
  lemma {:induction false} RunAppend(c: Config, ls: seq<Label>, l: Label)
    ensures Run(c, ls + [l]) == Next(c, Run(c, ls), l)
    ensures Accesses(c, ls + [l]) == Accesses(c, ls) + Accessed(Run(c, ls), l)
  {
    FrontOfAppend(ls, l);
  }

  /** A continued schedule, taken apart at its last label. */
  lemma RunSplit(c: Config, ls: seq<Label>, more: seq<Label>)
    requires more != []
    ensures Run(c, ls + more) == Next(c, Run(c, ls + Front(more)), Last(more))
    ensures Accesses(c, ls + more) == Accesses(c, ls + Front(more)) + Accessed(Run(c, ls + Front(more)), Last(more))
  {
    AppendSplit(ls, more);
    RunAppend(c, ls + Front(more), Last(more));
  }

  /** Handlers neither disappear nor change their request. */
  lemma {:induction false} RequestsPersist(c: Config, ls: seq<Label>, more: seq<Label>, t: nat)
    requires t in Run(c, ls).threads
    ensures t in Run(c, ls + more).threads
    ensures Run(c, ls + more).threads[t].request == Run(c, ls).threads[t].request
  {
    if more == [] {
      assert ls + more == ls;
    } else {
      RequestsPersist(c, ls, Front(more), t);
      RunSplit(c, ls, more);
    }
  }

  lemma DoneIsKept(c: Config, m: Machine, l: Label, t: nat)
    requires t in m.threads && m.threads[t].pc.Done?
    ensures t in Next(c, m, l).threads && Next(c, m, l).threads[t] == m.threads[t]
  {
  }

  /** A handler that has replied stays as it is. */
  lemma {:induction false} DonePersists(c: Config, ls: seq<Label>, more: seq<Label>, t: nat)
    requires t in Run(c, ls).threads && Run(c, ls).threads[t].pc.Done?
    ensures t in Run(c, ls + more).threads && Run(c, ls + more).threads[t] == Run(c, ls).threads[t]
  {
    if more == [] {
      assert ls + more == ls;
    } else {
      DonePersists(c, ls, Front(more), t);
      RunSplit(c, ls, more);
      DoneIsKept(c, Run(c, ls + Front(more)), Last(more), t);
    }
  }

  /** The order of store sections is only ever extended. */
  lemma {:induction false} AccessesExtend(c: Config, ls: seq<Label>, more: seq<Label>)
    ensures Accesses(c, ls) <= Accesses(c, ls + more)
  {
    if more == [] {
      assert ls + more == ls;
    } else {
      AccessesExtend(c, ls, Front(more));
      RunSplit(c, ls, more);
    }
  }
}
