/**
 The journal as a log. When requests do not overlap, replaying the committed events since the last
 reset (a create sets 1, an update adds 1, a delete removes) rebuilds the set of stored identifiers
 and, up to the unjournaled rotations of their incarnation, their versions.
 */
module LogReplay {
  import opened Wrappers
  import opened FixtureState
  import opened HandlerProgram
  import opened AtomicStore
  import opened Linearizability
  import opened JournalBalance
  import opened SoloRun
  import opened Schedule

  /** A request and what it meets. */
  datatype Job = Job(request: Request, env: Environment)

  /** The server after the jobs were served one after the other. */
  function AfterAll(c: Config, jobs: seq<Job>): ServerState {
    if jobs == [] then EMPTY_SERVER
    else Serve(c, AfterAll(c, Front(jobs)), Last(jobs).request, Entry(Last(jobs).request.call), Last(jobs).env).0
  }

  function ReplayEvent(versions: map<string, nat>, e: Event): map<string, nat> {
    if !DenotesCommit(e.operation, e.status, e.fault) then versions
    else if e.operation == CREATE_REFERENCE then versions[e.intentId := 1]
    else if e.operation == UPDATE_REFERENCE then
      versions[e.intentId := (if e.intentId in versions then versions[e.intentId] else 0) + 1]
    else if e.operation == DELETE_REFERENCE then versions - {e.intentId}
    else versions
  }

  function Replay(events: seq<Event>): map<string, nat> {
    if events == [] then map[] else ReplayEvent(Replay(Front(events)), Last(events))
  }

  /** Successful rotations in the identifier's current incarnation. */
  function Rotations(c: Config, jobs: seq<Job>, id: string): nat {
    if jobs == [] || id !in AfterAll(c, jobs).references then 0
    else
      var before := AfterAll(c, Front(jobs));
      Rotations(c, Front(jobs), id) +
      if Last(jobs).request.call == RotateOvn(id) && id in before.references then 1 else 0
  }

  // ---- what serving one request does ----

  lemma LockingEffect(c: Config, s: ServerState, r: Request, fault: Option<FaultSnapshot>, env: Environment)
    requires r.call.Federated() && Touches(r.call) && Coherent(s.references)
    ensures var (store, outcome) := Atomic(c, s.references, r.call, env.committedAt);
      Serve(c, s, r, Locking(fault), env).0
      == Journaled(s.(references := store), r, env.recordedAt, JournalStatus(c, r.call, outcome, fault), fault)
  {
    var (store, outcome) := Atomic(c, s.references, r.call, env.committedAt);
    var s' := s.(references := store);
    var status := JournalStatus(c, r.call, outcome, fault);
    var reply := Seen(outcome, AnswerFor(c, r.call, outcome), fault);
    SectionRefinesAtomic(c, s.references, r.call, fault, env.committedAt);
    ServeRecording(c, s', r, status, reply, fault, env);
    if r.call.Delete? {
      DecideDeleteRefinesAtomic(c, s.references, r.call, fault, env.committedAt);
      var deleting, recording := Deleting(Lookup(s.references, r.call.id), fault), Recording(status, reply, fault);
      assert Advance(c, s', r, deleting, InputAt(env, deleting)) == (s', recording);
      assert Serve(c, s', r, deleting, env) == Serve(c, s', r, recording, env);
    }
  }

  /** A DSS or peer request appends one event, and changes the store as the atomic store does iff the event says so. */
  ghost predicate ServedAs(c: Config, s: ServerState, r: Request, env: Environment, s': ServerState, e: Event) {
    && r.call.Federated() && Journals(r.call, e)
    && s'.events == s.events + [e]
    && (if DenotesCommit(e.operation, e.status, e.fault)
        then Touches(r.call) && s'.references == Atomic(c, s.references, r.call, env.committedAt).0
             && Commits(Atomic(c, s.references, r.call, env.committedAt).1)
        else s'.references == s.references)
  }

  lemma LockedEffect(c: Config, s: ServerState, r: Request, fault: Option<FaultSnapshot>, env: Environment)
    requires r.call.Federated() && Touches(r.call) && Passes(fault) && Coherent(s.references)
    ensures exists e :: ServedAs(c, s, r, env, Serve(c, s, r, Locking(fault), env).0, e)
  {
    LockingEffect(c, s, r, fault, env);
    StatusRevealsCommit(c, s.references, r.call, env.committedAt, fault);
    UncommittedIsUnchanged(c, s.references, r.call, env.committedAt);
    var outcome := Atomic(c, s.references, r.call, env.committedAt).1;
    var e := NewEvent(s.sequence + 1, env.recordedAt, r, JournalStatus(c, r.call, outcome, fault), fault);
    assert ServedAs(c, s, r, env, Serve(c, s, r, Locking(fault), env).0, e);
  }

  lemma UncommittedIsUnchanged(c: Config, store: Store, call: Call, clock: int)
    requires call.Federated()
    ensures !Commits(Atomic(c, store, call, clock).1) ==> Atomic(c, store, call, clock).0 == store
  {
  }

  lemma BypassedEffect(c: Config, s: ServerState, r: Request, status: int, reply: Reply,
                       fault: Option<FaultSnapshot>, env: Environment)
    requires r.call.Federated() && Bypassed(r.call, status, reply, fault)
    ensures exists e :: ServedAs(c, s, r, env, Serve(c, s, r, Recording(status, reply, fault), env).0, e)
  {
    ServeRecording(c, s, r, status, reply, fault, env);
    BypassDenotesNothing(r.call, status, reply, fault);
    var e := NewEvent(s.sequence + 1, env.recordedAt, r, status, fault);
    assert ServedAs(c, s, r, env, Serve(c, s, r, Recording(status, reply, fault), env).0, e);
  }

  lemma PreparingEffect(c: Config, s: ServerState, r: Request, fault: Option<FaultSnapshot>, env: Environment)
    requires r.call.Federated() && Coherent(s.references)
    ensures exists e :: ServedAs(c, s, r, env, Serve(c, s, r, Preparing(fault), env).0, e)
  {
    var pc := Prepare(r.call, fault, env.cancelled);
    assert Serve(c, s, r, Preparing(fault), env) == Serve(c, s, r, pc, env);
    if pc.Locking? {
      LockedEffect(c, s, r, fault, env);
    } else {
      BypassedEffect(c, s, r, pc.status, pc.reply, fault, env);
    }
  }

  lemma ServeEffect(c: Config, s: ServerState, r: Request, env: Environment) returns (e: Event)
    requires r.call.Federated() && Coherent(s.references)
    ensures ServedAs(c, s, r, env, Serve(c, s, r, TakingFault, env).0, e)
  {
    var (faults, fault) := HandlerProgram.TakeFault(s.faults, r.call.Operation());
    var s1 := s.(faults := faults);
    assert Serve(c, s, r, TakingFault, env) == Serve(c, s1, r, Preparing(fault), env);
    PreparingEffect(c, s1, r, fault, env);
    e :| ServedAs(c, s1, r, env, Serve(c, s1, r, Preparing(fault), env).0, e);
  }

  // ---- replay ----

  /** The log explains one identifier's entry, up to `rotations`. */
  predicate Replays(store: Store, versions: map<string, nat>, id: string, rotations: nat) {
    if id in store then id in versions && store[id].version == versions[id] + rotations else id !in versions
  }

  /** One committed event against one commit of the atomic store. */
  lemma CommitReplays(c: Config, store: Store, versions: map<string, nat>, call: Call, clock: int, e: Event,
                      id: string, rotations: nat)
    requires Coherent(store) && Journals(call, e) && Touches(call)
    requires DenotesCommit(e.operation, e.status, e.fault) && Commits(Atomic(c, store, call, clock).1)
    requires Replays(store, versions, id, rotations) && (id !in store ==> rotations == 0)
    ensures var store' := Atomic(c, store, call, clock).0;
      Replays(store', ReplayEvent(versions, e), id, if id in store' then rotations else 0)
  {
    OperationNames(call);
  }

  lemma ServedReplays(c: Config, s: ServerState, r: Request, env: Environment, s': ServerState, e: Event,
                      id: string, rotations: nat)
    requires Coherent(s.references) && ServedAs(c, s, r, env, s', e)
    requires Replays(s.references, Replay(s.events), id, rotations) && (id !in s.references ==> rotations == 0)
    ensures Replays(s'.references, Replay(s'.events), id, if id in s'.references then rotations else 0)
  {
    FrontOfAppend(s.events, e);
    assert Replay(s'.events) == ReplayEvent(Replay(s.events), e);
    if DenotesCommit(e.operation, e.status, e.fault) {
      CommitReplays(c, s.references, Replay(s.events), r.call, env.committedAt, e, id, rotations);
    }
  }

  lemma ControlReplays(c: Config, s: ServerState, r: Request, env: Environment, id: string, rotations: nat)
    requires !r.call.Federated()
    requires Replays(s.references, Replay(s.events), id, rotations)
    ensures var s' := Serve(c, s, r, Controlling, env).0;
      Replays(s'.references, Replay(s'.events), id,
              if id !in s'.references then 0
              else rotations + if r.call == RotateOvn(id) && id in s.references then 1 else 0)
  {
    var s1 := ControlSection(s, r.call).0;
    assert Serve(c, s, r, Controlling, env).0 == if r.call.Reset? then s1.(sequence := 0) else s1;
  }

  lemma RotationKeepsCoherence(s: ServerState, call: Call)
    requires Coherent(s.references) && !call.Federated()
    ensures Coherent(ControlSection(s, call).0.references)
  {
  }

  lemma ServeKeepsCoherence(c: Config, s: ServerState, r: Request, env: Environment)
    requires Coherent(s.references)
    ensures Coherent(Serve(c, s, r, Entry(r.call), env).0.references)
  {
    if r.call.Federated() {
      var e := ServeEffect(c, s, r, env);
      AtomicKeepsCoherence(c, s.references, r.call, env.committedAt);
    } else {
      RotationKeepsCoherence(s, r.call);
      assert Serve(c, s, r, Controlling, env).0.references == ControlSection(s, r.call).0.references;
    }
  }

  /**
   Main theorem: after any sequence of requests served one at a time, with any faults, cancellations
   and resets among them, the journal replays to exactly the stored identifiers, and each stored
   version is the replayed one plus the rotations in the identifier's incarnation.
   */
  lemma {:induction false} JournalReplaysToStore(c: Config, jobs: seq<Job>, id: string)
    ensures Coherent(AfterAll(c, jobs).references)
    ensures var s := AfterAll(c, jobs); Replays(s.references, Replay(s.events), id, Rotations(c, jobs, id))
  {
    if jobs != [] {
      var s, job := AfterAll(c, Front(jobs)), Last(jobs);
      JournalReplaysToStore(c, Front(jobs), id);
      ServeKeepsCoherence(c, s, job.request, job.env);
      if job.request.call.Federated() {
        var e := ServeEffect(c, s, job.request, job.env);
        ServedReplays(c, s, job.request, job.env, AfterAll(c, jobs), e, id, Rotations(c, Front(jobs), id));
      } else {
        ControlReplays(c, s, job.request, job.env, id, Rotations(c, Front(jobs), id));
      }
    }
  }

  // ---- the same in the machine ----

  /** The schedule in which the jobs' handlers, numbered in order, arrive and run one after the other. */
  function Blocks(c: Config, jobs: seq<Job>): seq<Label> {
    if jobs == [] then []
    else
      var t, job := |jobs| - 1, Last(jobs);
      Blocks(c, Front(jobs)) + [Arrive(t, job.request)]
      + Steps(t, c, AfterAll(c, Front(jobs)), job.request, Entry(job.request.call), job.env)
  }

  lemma {:induction false} BlocksServe(c: Config, jobs: seq<Job>)
    ensures Run(c, Blocks(c, jobs)).server == AfterAll(c, jobs)
    ensures forall t :: t in Run(c, Blocks(c, jobs)).threads ==> t < |jobs|
  {
    if jobs != [] {
      BlocksServe(c, Front(jobs));
      SoloScheduleServes(c, Blocks(c, Front(jobs)), |jobs| - 1, Last(jobs).request, Last(jobs).env);
    }
  }

  /** The replay theorem about the concurrent machine, in schedules whose requests do not overlap. */
  lemma JournalReplaysInMachine(c: Config, jobs: seq<Job>, id: string)
    ensures var s := Run(c, Blocks(c, jobs)).server;
      Replays(s.references, Replay(s.events), id, Rotations(c, jobs, id))
  {
    BlocksServe(c, jobs);
    JournalReplaysToStore(c, jobs, id);
  }
}
