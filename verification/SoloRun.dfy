/**
 One handler running without interruption. `Serve` iterates the handler program's atomic steps to
 the end; a schedule that lets one request run alone does the same.
 */
module SoloRun {
  import opened Wrappers
  import opened FixtureState
  import opened HandlerProgram
  import opened Schedule

  /** What one request meets: whether its context is cancelled, and the clock at its commit and at its journaling. */
  datatype Environment = Environment(cancelled: bool, committedAt: int, recordedAt: int)

  function InputAt(env: Environment, pc: Pc): Input {
    Input(env.cancelled, if pc.Recording? then env.recordedAt else env.committedAt)
  }

  /** Steps a handler has left at most. */
  function Remaining(pc: Pc): nat {
    match pc
    case TakingFault => 6
    case Preparing(_) => 5
    case Locking(_) => 4
    case Deleting(_, _) => 3
    case Recording(_, _, _) => 2
    case Appending(_, _) => 1
    case Controlling => 2
    case ZeroingSequence => 1
    case Done(_, _) => 0
  }

  function Serve(c: Config, s: ServerState, r: Request, pc: Pc, env: Environment): (ServerState, Pc)
    decreases Remaining(pc)
  {
    var (s', pc') := Advance(c, s, r, pc, InputAt(env, pc));
    if Remaining(pc') < Remaining(pc) then Serve(c, s', r, pc', env) else (s, pc)
  }

  /** From `pc` on, handling `r` takes the server from `s` to `s'` and answers `reply`. */
  predicate Finishes(c: Config, s: ServerState, r: Request, pc: Pc, env: Environment, s': ServerState, reply: Reply) {
    var (end, last) := Serve(c, s, r, pc, env);
    end == s' && last.Done? && last.reply == reply
  }

  /** Handling `r` from its arrival on. */
  predicate Serves(c: Config, s: ServerState, r: Request, env: Environment, s': ServerState, reply: Reply) {
    Finishes(c, s, r, Entry(r.call), env, s', reply)
  }

  /** One step, then the rest. */
  lemma FinishesAfterStep(c: Config, s: ServerState, r: Request, pc: Pc, env: Environment,
                          s1: ServerState, pc1: Pc, s': ServerState, reply: Reply)
    requires Advance(c, s, r, pc, InputAt(env, pc)) == (s1, pc1) && Remaining(pc1) < Remaining(pc)
    requires Finishes(c, s1, r, pc1, env, s', reply)
    ensures Finishes(c, s, r, pc, env, s', reply)
  {
  }

  function Journaled(s: ServerState, r: Request, at: int, status: int, fault: Option<FaultSnapshot>): ServerState
    requires r.call.Federated()
  {
    s.(sequence := s.sequence + 1, events := s.events + [NewEvent(s.sequence + 1, at, r, status, fault)])
  }

  /** From `record` on there is nothing left to decide. */
  lemma ServeRecording(c: Config, s: ServerState, r: Request, status: int, reply: Reply,
                       fault: Option<FaultSnapshot>, env: Environment)
    requires r.call.Federated()
    ensures
      var s' := Journaled(s, r, env.recordedAt, status, fault);
      Finishes(c, s, r, Recording(status, reply, fault), env, s', reply)
  {
    var e := NewEvent(s.sequence + 1, env.recordedAt, r, status, fault);
    var s' := s.(sequence := s.sequence + 1);
    assert Serve(c, s', r, Appending(e, reply), env) == (s'.(events := s.events + [e]), Done(reply, Some(e)));
  }

  // ---- the same as a schedule ----

  function Steps(t: nat, c: Config, s: ServerState, r: Request, pc: Pc, env: Environment): seq<Label>
    decreases Remaining(pc)
  {
    var (s', pc') := Advance(c, s, r, pc, InputAt(env, pc));
    if Remaining(pc') < Remaining(pc) then [Step(t, InputAt(env, pc))] + Steps(t, c, s', r, pc', env) else []
  }

  lemma Overwrite<K, V>(m: map<K, V>, k: K, v: V, v': V)
    ensures m[k := v][k := v'] == m[k := v']
    ensures k in m && m[k] == v ==> m[k := v] == m
  {
  }

  /** The machine with handler `t` at `pc` and the server in state `s`. */
  function Moved(m: Machine, t: nat, s: ServerState, pc: Pc): Machine
    requires t in m.threads
  {
    Machine(s, m.threads[t := Thread(m.threads[t].request, pc)])
  }

  lemma MovedTwice(m: Machine, t: nat, s: ServerState, pc: Pc, s': ServerState, pc': Pc)
    requires t in m.threads
    ensures Moved(Moved(m, t, s, pc), t, s', pc') == Moved(m, t, s', pc')
    ensures Moved(m, t, m.server, m.threads[t].pc) == m
  {
    Overwrite(m.threads, t, Thread(m.threads[t].request, pc), Thread(m.threads[t].request, pc'));
    Overwrite(m.threads, t, m.threads[t], m.threads[t]);
  }

  lemma Concatenation<T>(a: seq<T>, x: T, b: seq<T>)
    ensures a + ([x] + b) == (a + [x]) + b
  {
  }

  /** One step of `Serve`, of `Steps` and of the machine at once; without `more` the handler has finished. */
  lemma OneStep(c: Config, ls: seq<Label>, m: Machine, t: nat, r: Request, pc: Pc, env: Environment)
    returns (more: bool, s': ServerState, pc': Pc)
    requires Run(c, ls) == m && t in m.threads && m.threads[t] == Thread(r, pc)
    ensures !more ==> Serve(c, m.server, r, pc, env) == (m.server, pc) && Steps(t, c, m.server, r, pc, env) == []
    ensures more ==>
      && Remaining(pc') < Remaining(pc)
      && Serve(c, m.server, r, pc, env) == Serve(c, s', r, pc', env)
      && Steps(t, c, m.server, r, pc, env) == [Step(t, InputAt(env, pc))] + Steps(t, c, s', r, pc', env)
      && Run(c, ls + [Step(t, InputAt(env, pc))]) == Moved(m, t, s', pc')
  {
    s', pc' := Advance(c, m.server, r, pc, InputAt(env, pc)).0, Advance(c, m.server, r, pc, InputAt(env, pc)).1;
    more := Remaining(pc') < Remaining(pc);
    RunAppend(c, ls, Step(t, InputAt(env, pc)));
  }

  lemma {:induction false} StepsServe(c: Config, ls: seq<Label>, m: Machine, t: nat, r: Request, pc: Pc,
                                      env: Environment, end: (ServerState, Pc), labels: seq<Label>)
    requires Run(c, ls) == m && t in m.threads && m.threads[t] == Thread(r, pc)
    requires end == Serve(c, m.server, r, pc, env) && labels == Steps(t, c, m.server, r, pc, env)
    ensures Run(c, ls + labels) == Moved(m, t, end.0, end.1)
    decreases Remaining(pc)
  {
    var more, s', pc' := OneStep(c, ls, m, t, r, pc, env);
    if more {
      var l, rest := Step(t, InputAt(env, pc)), Steps(t, c, s', r, pc', env);
      StepsServe(c, ls + [l], Moved(m, t, s', pc'), t, r, pc', env, end, rest);
      MovedTwice(m, t, s', pc', end.0, end.1);
      Concatenation(ls, l, rest);
    } else {
      MovedTwice(m, t, m.server, pc, m.server, pc);
      assert ls + [] == ls;
    }
  }

  /** A request that arrives and runs alone leaves the machine exactly as `Serve` says. */
  lemma SoloScheduleServes(c: Config, ls: seq<Label>, t: nat, r: Request, env: Environment)
    requires t !in Run(c, ls).threads
    ensures var m := Run(c, ls);
      var (s', pc') := Serve(c, m.server, r, Entry(r.call), env);
      Run(c, ls + [Arrive(t, r)] + Steps(t, c, m.server, r, Entry(r.call), env))
      == Machine(s', m.threads[t := Thread(r, pc')])
  {
    var m, m1 := Run(c, ls), Run(c, ls + [Arrive(t, r)]);
    RunAppend(c, ls, Arrive(t, r));
    StepsServe(c, ls + [Arrive(t, r)], m1, t, r, Entry(r.call), env,
               Serve(c, m1.server, r, Entry(r.call), env), Steps(t, c, m1.server, r, Entry(r.call), env));
    var pc' := Serve(c, m.server, r, Entry(r.call), env).1;
    Overwrite(m.threads, t, Thread(r, Entry(r.call)), Thread(r, pc'));
  }
}
