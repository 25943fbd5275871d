/**
 The atomic reference store the concurrent fixture is meant to behave like: a map from
 identifiers to references on which every request acts once, in one indivisible step.
 */
module AtomicStore {
  import opened Wrappers
  import opened FixtureState
  import HandlerProgram
  import Ovn

  datatype Outcome =
    | Created(reference: Reference)
    | Updated(reference: Reference)
    | Deleted(reference: Reference)
    | Rotated(reference: Reference)
    | AlreadyExists
    | Missing
    | Stale(currentOvn: string)
    | Found(reference: Reference)
    | Listed(references: Store)
    | Cleared
    | Untouched

  /** Requests that reach the store; a body that does not decode never does. */
  predicate Touches(call: Call) {
    match call
    case Create(_, body) => body.Some?
    case Update(_, _, body) => body.Some?
    case Subscriptions => false
    case PeerNotify => false
    case ReadEvents => false
    case ArmFault(_) => false
    case ClearFaults => false
    case _ => true
  }

  function Atomic(c: Config, store: Store, call: Call, clock: int): (Store, Outcome) {
    match call
    case Create(id, Some(body)) =>
      if id in store then (store, AlreadyExists)
      else
        var reference := HandlerProgram.NewReference(c, id, 1, body, clock);
        (store[id := reference], Created(reference))
    case Update(id, ovn, Some(body)) =>
      if id !in store then (store, Missing)
      else if ovn != store[id].ovn then (store, Stale(store[id].ovn))
      else
        var reference := HandlerProgram.NewReference(c, id, store[id].version + 1, body, clock);
        (store[id := reference], Updated(reference))
    case Delete(id, ovn) =>
      if id !in store then (store, Missing)
      else if ovn != store[id].ovn then (store, Stale(store[id].ovn))
      else (store - {id}, Deleted(store[id]))
    case RotateOvn(id) =>
      if id !in store then (store, Missing)
      else
        var version := store[id].version + 1;
        var reference := store[id].(version := version, ovn := Ovn.Print(id, version));
        (store[id := reference], Rotated(reference))
    case GetReference(id) => (store, if id in store then Found(store[id]) else Missing)
    case PeerDetails(id) => (store, if id in store then Found(store[id]) else Missing)
    case QueryReferences => (store, Listed(store))
    case ReadState => (store, Listed(store))
    case Reset => (map[], Cleared)
    case _ => (store, Untouched)
  }

  // ---- sequences of atomic accesses ----

  datatype Access = Access(t: nat, call: Call, clock: int)

  /** The store after the accesses happened one after the other, starting empty. */
  function After(c: Config, es: seq<Access>): Store {
    if es == [] then map[] else Atomic(c, After(c, Front(es)), Last(es).call, Last(es).clock).0
  }

  function OutcomeOf(c: Config, es: seq<Access>, k: nat): Outcome
    requires k < |es|
  {
    Atomic(c, After(c, es[..k]), es[k].call, es[k].clock).1
  }

  lemma AfterStep(c: Config, es: seq<Access>, k: nat)
    requires k < |es|
    ensures After(c, es[..k + 1]) == Atomic(c, After(c, es[..k]), es[k].call, es[k].clock).0
  {
    assert Front(es[..k + 1]) == es[..k];
  }

  lemma OutcomeOfAppend(c: Config, es: seq<Access>, more: seq<Access>, k: nat)
    requires k < |es|
    ensures OutcomeOf(c, es + more, k) == OutcomeOf(c, es, k)
  {
    assert (es + more)[..k] == es[..k];
  }

  /** What an unfaulted client is told about an outcome. */
  function AnswerFor(c: Config, call: Call, outcome: Outcome): Reply {
    match outcome
    case Created(reference) => Answer(201, Committed(reference, HandlerProgram.Subscribers(c)))
    case Updated(reference) => Answer(200, Committed(reference, HandlerProgram.Subscribers(c)))
    case Deleted(reference) =>
      var version := reference.version + 1;
      Answer(200, Committed(reference.(version := version, ovn := Ovn.Print(reference.id, version)), []))
    case Rotated(reference) => Answer(200, One(reference))
    case AlreadyExists => Answer(409, Message("reference exists"))
    case Missing => Answer(404, Message(if call.PeerDetails? then "intent not found" else "reference not found"))
    case Stale(ovn) => Answer(409, StaleOvn(ovn))
    case Found(reference) => Answer(200, if call.PeerDetails? then Details(reference) else One(reference))
    case Listed(references) => Answer(200, Listing(references))
    case Cleared => Answer(204, Nothing)
    case Untouched => NoReply
  }

  predicate Commits(outcome: Outcome) {
    outcome.Created? || outcome.Updated? || outcome.Deleted?
  }

  /** What a fault lets the client see of the answer. */
  function Seen(outcome: Outcome, answer: Reply, fault: Option<FaultSnapshot>): Reply {
    if fault.Some? && fault.value.closeAfterCommit && Commits(outcome) then NoReply
    else if fault.Some? && fault.value.malformedJson && answer.Answer? then Answer(answer.status, Truncated)
    else answer
  }

  /** The status the journal shows for an outcome. */
  function JournalStatus(c: Config, call: Call, outcome: Outcome, fault: Option<FaultSnapshot>): int {
    if fault.Some? && fault.value.closeAfterCommit && Commits(outcome) then 0
    else match AnswerFor(c, call, outcome) case Answer(status, _) => status case NoReply => 0
  }
}
