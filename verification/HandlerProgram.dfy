/**
 The fixture's request handlers as programs whose steps are the sections the code executes
 atomically: each mutex section, the atomic sequence increment or reset, and the local
 computation between them. `Advance` is one such step.
 */
module HandlerProgram {
  import opened Wrappers
  import opened FixtureState
  import Ovn

  /** Where a handler stands, with the local variables it still needs. */
  datatype Pc =
    | TakingFault                                                         // before `takeFault`
    | Preparing(fault: Option<FaultSnapshot>)                             // delay, injected status, body decoding
    | Locking(fault: Option<FaultSnapshot>)                               // before the store section
    | Deleting(found: Option<Reference>, fault: Option<FaultSnapshot>)    // delete, lock released, outcome undecided
    | Recording(status: int, reply: Reply, fault: Option<FaultSnapshot>)  // before the sequence increment
    | Appending(event: Event, reply: Reply)                               // before the journal section
    | Controlling                                                         // before a control request's section
    | ZeroingSequence                                                     // reset, lock released
    | Done(reply: Reply, journaled: Option<Event>)

  /** What the environment decides at a step: is the context cancelled, what does the clock read. */
  datatype Input = Input(cancelled: bool, clock: int)

  function Entry(call: Call): Pc {
    if call.Federated() then TakingFault else Controlling
  }

  // ---- takeFault ----

  function TakeFault(faults: Faults, operation: string): (Faults, Option<FaultSnapshot>) {
    if operation !in faults || faults[operation].times <= 0 then (faults, None)
    else
      var plan := faults[operation].(times := faults[operation].times - 1);
      (if plan.times == 0 then faults - {operation} else faults[operation := plan], Some(Behaviour(plan)))
  }

  // ---- between takeFault and the store section ----

  function Prepare(call: Call, fault: Option<FaultSnapshot>, cancelled: bool): Pc {
    if fault.Some? && fault.value.delayMillis > 0 && cancelled then
      Recording(499, NoReply, fault)
    else if fault.Some? && fault.value.status != 0 then
      Recording(fault.value.status, Respond(fault.value.status, Message("injected fixture failure"), fault), fault)
    else if (call.Create? || call.Update?) && call.body.None? then
      Recording(400, Respond(400, DecodeError, fault), fault)
    else if call.Subscriptions? then
      Recording(200, Respond(200, NoSubscriptions, fault), fault)
    else if call.PeerNotify? then
      Recording(204, Answer(204, Nothing), fault)
    else
      Locking(fault)
  }

  // ---- store sections ----

  /** The value a create or update writes: every field but the version comes from the request. */
  function NewReference(c: Config, id: string, version: nat, body: PutBody, clock: int): Reference {
    var start := clock - 60;
    Reference(id, c.manager, Ovn.Print(id, version), body.state, "33333333-3333-4333-8333-333333333333", "Normal",
              if body.ussBaseUrl == "" then c.peerBaseUrl else body.ussBaseUrl,
              version, start, start + 3600, body.extents)
  }

  function Subscribers(c: Config): seq<string> {
    if c.subscriberUrl != "" then [c.subscriberUrl] else []
  }

  function FinishPut(c: Config, status: int, reference: Reference, fault: Option<FaultSnapshot>): Pc {
    if fault.Some? && fault.value.closeAfterCommit then Recording(0, NoReply, fault)
    else Recording(status, Respond(status, Committed(reference, Subscribers(c)), fault), fault)
  }

  /** `handlePutReference` from the lock to the decision of its reply; an absent entry reads as version 0. */
  function PutSection(c: Config, store: Store, id: string, create: bool, presented: string, body: PutBody, clock: int,
                      fault: Option<FaultSnapshot>): (Store, Pc)
  {
    var exists_ := id in store;
    if create && exists_ then
      (store, Recording(409, Respond(409, Message("reference exists"), fault), fault))
    else if !create && !exists_ then
      (store, Recording(404, Respond(404, Message("reference not found"), fault), fault))
    else if !create && presented != store[id].ovn then
      (store, Recording(409, Respond(409, StaleOvn(store[id].ovn), fault), fault))
    else
      var version := (if exists_ then store[id].version else 0) + 1;
      var reference := NewReference(c, id, version, body, clock);
      (store[id := reference], FinishPut(c, if create then 201 else 200, reference, fault))
  }

  /** `handleDeleteReference`, mutex section only: the handler leaves it with a copy of what it found. */
  function DeleteSection(store: Store, id: string, presented: string): (Store, Option<Reference>) {
    if id !in store then (store, None)
    else (if presented == store[id].ovn then store - {id} else store, Some(store[id]))
  }

  function Bumped(reference: Reference, id: string): Reference {
    reference.(version := reference.version + 1, ovn := Ovn.Print(id, reference.version + 1))
  }

  /** `handleDeleteReference` after the lock: the outcome is decided again from the local copy. */
  function DecideDelete(id: string, presented: string, found: Option<Reference>, fault: Option<FaultSnapshot>): Pc {
    if found.None? then
      Recording(404, Respond(404, Message("reference not found"), fault), fault)
    else if presented != found.value.ovn then
      Recording(409, Respond(409, StaleOvn(found.value.ovn), fault), fault)
    else if fault.Some? && fault.value.closeAfterCommit then
      Recording(0, NoReply, fault)
    else
      Recording(200, Respond(200, Committed(Bumped(found.value, id), []), fault), fault)
  }

  function ReadSection(store: Store, call: Call, fault: Option<FaultSnapshot>): Pc {
    match call
    case GetReference(id) =>
      if id in store then Recording(200, Respond(200, One(store[id]), fault), fault)
      else Recording(404, Respond(404, Message("reference not found"), fault), fault)
    case PeerDetails(id) =>
      if id in store then Recording(200, Respond(200, Details(store[id]), fault), fault)
      else Recording(404, Respond(404, Message("intent not found"), fault), fault)
    case _ => Recording(200, Respond(200, Listing(store), fault), fault)
  }

  function StoreSection(c: Config, store: Store, call: Call, fault: Option<FaultSnapshot>, clock: int): (Store, Pc) {
    match call
    case Create(id, Some(body)) => PutSection(c, store, id, true, "", body, clock, fault)
    case Update(id, ovn, Some(body)) => PutSection(c, store, id, false, ovn, body, clock, fault)
    case Delete(id, ovn) =>
      var (store', found) := DeleteSection(store, id, ovn);
      (store', Deleting(found, fault))
    case _ => (store, ReadSection(store, call, fault))
  }

  // ---- control plane ----

  function RotateSection(store: Store, id: string): (Store, Pc) {
    if id in store then (store[id := Bumped(store[id], id)], Done(Answer(200, One(Bumped(store[id], id))), None))
    else (store, Done(Answer(404, Message("reference not found")), None))
  }

  function ControlSection(s: ServerState, call: Call): (ServerState, Pc) {
    match call
    case RotateOvn(id) =>
      var (store, pc) := RotateSection(s.references, id);
      (s.(references := store), pc)
    case Reset => (s.(references := map[], faults := map[], events := []), ZeroingSequence)
    case ReadState => (s, Done(Answer(200, Listing(s.references)), None))
    case ReadEvents => (s, Done(Answer(200, Journal(s.events)), None))
    case ArmFault(plan) =>
      if plan.None? then (s, Done(Answer(400, DecodeError), None))
      else if !Acceptable(plan.value) then (s, Done(Answer(400, Message("invalid fault plan")), None))
      else (s.(faults := s.faults[plan.value.operation := plan.value]), Done(Answer(201, Armed(plan.value)), None))
    case ClearFaults => (s.(faults := map[]), Done(Answer(204, Nothing), None))
    case _ => (s, Controlling)
  }

  // ---- record ----

  function NewEvent(sequence: nat, at: int, r: Request, status: int, fault: Option<FaultSnapshot>): Event
    requires r.call.Federated()
  {
    Event(sequence, at, r.call.Operation(), r.httpMethod, r.path, r.call.IntentId(), status, fault)
  }

  // ---- one atomic step of one handler ----

  function Advance(c: Config, s: ServerState, r: Request, pc: Pc, i: Input): (ServerState, Pc) {
    if r.call.Federated() then AdvanceFederated(c, s, r, pc, i) else AdvanceControl(s, r, pc)
  }

  function AdvanceFederated(c: Config, s: ServerState, r: Request, pc: Pc, i: Input): (ServerState, Pc)
    requires r.call.Federated()
  {
    match pc
    case TakingFault =>
      var (faults, fault) := TakeFault(s.faults, r.call.Operation());
      (s.(faults := faults), Preparing(fault))
    case Preparing(fault) => (s, Prepare(r.call, fault, i.cancelled))
    case Locking(fault) =>
      var (store, pc') := StoreSection(c, s.references, r.call, fault, i.clock);
      (s.(references := store), pc')
    case Deleting(found, fault) =>
      (s, if r.call.Delete? then DecideDelete(r.call.id, r.call.ovn, found, fault) else pc)
    case Recording(status, reply, fault) =>
      (s.(sequence := s.sequence + 1), Appending(NewEvent(s.sequence + 1, i.clock, r, status, fault), reply))
    case Appending(event, reply) => (s.(events := s.events + [event]), Done(reply, Some(event)))
    case _ => (s, pc)
  }

  function AdvanceControl(s: ServerState, r: Request, pc: Pc): (ServerState, Pc) {
    match pc
    case Controlling => ControlSection(s, r.call)
    case ZeroingSequence => (s.(sequence := 0), Done(Answer(204, Nothing), None))
    case _ => (s, pc)
  }
}
