/**
 The fixture server as the object it is: handlers update its maps, journal and counter in place.
 Each method runs without interference here and is proved to do what `SoloRun.Serve` says, that is,
 what the steps of the concurrent machine do when they are not interleaved with others.
 */
module FixtureServer {
  import opened Wrappers
  import opened FixtureState
  import opened HandlerProgram
  import opened SoloRun
  import opened Linearizability
  import opened FaultBudget
  import opened WrittenReferences
  import opened Replies
  import Ovn

  /** The fault ends the request before its own work. */
  predicate StopsBefore(fault: Option<FaultSnapshot>, cancelled: bool) {
    fault.Some? && ((fault.value.delayMillis > 0 && cancelled) || fault.value.status != 0)
  }

  /** The journal grew by one event, of this request with this status and fault. */
  predicate Appends(before: seq<Event>, after: seq<Event>, r: Request, status: int, fault: Option<FaultSnapshot>) {
    && |after| == |before| + 1 && after[..|before|] == before
    && Identifies(Last(after), r) && Last(after).status == status && Last(after).fault == fault
  }

  /** The create or update either left the store alone or wrote what it asked for under its identifier. */
  ghost predicate PutsInto(c: Config, call: Call, before: Store, after: Store, clock: int) {
    && (call.Create? || call.Update?) && call.body.Some? && PlainEffect(call, before, after)
    && (after != before ==> WrittenFrom(c, after[call.id], call.id, call.body.value, clock))
  }

  lemma WrittenIsNew(c: Config, call: Call, before: Store, reference: Reference, version: nat, clock: int)
    requires (call.Create? || call.Update?) && call.body.Some?
    requires WrittenFrom(c, reference, call.id, call.body.value, clock)
    requires reference.version == version && reference.ovn == Ovn.Print(call.id, version)
    requires if call.Create? then call.id !in before else call.id in before && before[call.id].ovn == call.ovn
    ensures reference == NewReference(c, call.id, version, call.body.value, clock)
    ensures PutsInto(c, call, before, before[call.id := reference], clock)
  {
  }

  /** The store section of a create or update that is not refused. */
  lemma PutIsOneStep(c: Config, s: ServerState, r: Request, fault: Option<FaultSnapshot>, env: Environment,
                     reference: Reference, status: int)
    requires (r.call.Create? || r.call.Update?) && r.call.body.Some?
    requires if r.call.Create? then r.call.id !in s.references
             else r.call.id in s.references && s.references[r.call.id].ovn == r.call.ovn
    requires WrittenFrom(c, reference, r.call.id, r.call.body.value, env.committedAt)
    requires reference.version == (if r.call.id in s.references then s.references[r.call.id].version else 0) + 1
    requires reference.ovn == Ovn.Print(r.call.id, reference.version) && status == if r.call.Create? then 201 else 200
    ensures Advance(c, s, r, Locking(fault), InputAt(env, Locking(fault)))
            == (s.(references := s.references[r.call.id := reference]), FinishPut(c, status, reference, fault))
    ensures PutsInto(c, r.call, s.references, s.references[r.call.id := reference], env.committedAt)
  {
    WrittenIsNew(c, r.call, s.references, reference, reference.version, env.committedAt);
  }

  /** `list` holds the values of `store` in the order `keys` of its keys. */
  ghost predicate EnumeratesBy(list: seq<Reference>, keys: seq<string>, store: Store) {
    && |list| == |keys| && Distinct(keys)
    && (forall id :: id in store <==> id in keys)
    && (forall i :: 0 <= i < |keys| ==> list[i] == store[keys[i]])
  }

  /** Some iteration order of the map yields `list`. */
  ghost predicate Enumerates(list: seq<Reference>, store: Store) {
    exists keys :: EnumeratesBy(list, keys, store)
  }

  lemma EnumeratesAdds(list: seq<Reference>, keys: seq<string>, store: Store, id: string, reference: Reference)
    requires EnumeratesBy(list, keys, store) && id !in store
    ensures EnumeratesBy(list + [reference], keys + [id], store[id := reference])
  {
  }

  lemma WriteKeepsCoherence(store: Store, id: string, reference: Reference)
    requires Coherent(store)
    requires reference.id == id && reference.version >= 1 && reference.ovn == Ovn.Print(id, reference.version)
    ensures Coherent(store[id := reference])
  {
  }

  /** A control request other than a reset is its one section. */
  lemma ControlServes(c: Config, s: ServerState, r: Request, env: Environment)
    requires !r.call.Federated() && !r.call.Reset?
    ensures ControlSection(s, r.call).1.Done?
    ensures Serves(c, s, r, env, ControlSection(s, r.call).0, ControlSection(s, r.call).1.reply)
  {
  }

  class Server {
    const config: Config
    var references: Store
    var faults: Faults
    var events: seq<Event>
    var sequence: nat

    ghost function State(): ServerState
      reads this
    {
      ServerState(references, faults, events, sequence)
    }

    /** Stored references name their keys and carry their version's OVN; stored fault plans are not spent. */
    ghost predicate Valid()
      reads this
    {
      Coherent(references) && Stocked(faults)
    }

    constructor (manager: string, peerBaseUrl: string, subscriberUrl: string)
      ensures config.manager == if manager == "" then "fixture-dss" else manager
      ensures config.peerBaseUrl == TrimSlashes(peerBaseUrl) && config.subscriberUrl == TrimSlashes(subscriberUrl)
      ensures Valid() && State() == EMPTY_SERVER
    {
      var name := if manager == "" then "fixture-dss" else manager;
      config := Config(name, TrimSlashes(peerBaseUrl), TrimSlashes(subscriberUrl));
      references, faults, events, sequence := map[], map[], [], 0;
    }

    // ---- shared pieces ----

    method TakeFault(operation: string) returns (fault: Option<FaultSnapshot>)
      requires Valid()
      modifies this
      ensures Valid()
      ensures HandlerProgram.TakeFault(old(faults), operation) == (faults, fault)
      ensures State() == old(State()).(faults := faults)
      ensures fault.Some? <==> operation in old(faults)
      ensures fault.Some? ==> ShowsPlan(fault.value, old(faults)[operation])
    {
      if operation !in faults || faults[operation].times <= 0 {
        return None;
      }
      var plan := faults[operation];
      plan := plan.(times := plan.times - 1);
      if plan.times == 0 {
        faults := faults - {operation};
      } else {
        faults := faults[operation := plan];
      }
      fault := Some(FaultSnapshot(plan.status, plan.delayMillis, plan.closeAfterCommit, plan.malformedJson));
    }

    method Record(r: Request, status: int, fault: Option<FaultSnapshot>, at: int)
      requires Valid()
      requires r.call.Federated()
      modifies this
      ensures Valid()
      ensures State() == Journaled(old(State()), r, at, status, fault)
      ensures Appends(old(events), events, r, status, fault)
      ensures Last(events).sequence == old(sequence) + 1 && Last(events).at == at
    {
      sequence := sequence + 1;
      var event := Event(sequence, at, r.call.Operation(), r.httpMethod, r.path, r.call.IntentId(), status, fault);
      events := events + [event];
    }

    /** `respond`: journal, then answer. */
    method Respond(r: Request, status: int, body: Body, fault: Option<FaultSnapshot>, env: Environment)
      returns (reply: Reply)
      requires Valid()
      requires r.call.Federated()
      modifies this
      ensures Valid()
      ensures reply == FixtureState.Respond(status, body, fault)
      ensures State() == Journaled(old(State()), r, env.recordedAt, status, fault)
      ensures Appends(old(events), events, r, status, fault)
      ensures Finishes(config, old(State()), r, Recording(status, reply, fault), env, State(), reply)
    {
      Record(r, status, fault, env.recordedAt);
      if fault.Some? && fault.value.malformedJson {
        reply := Answer(status, Truncated);
      } else {
        reply := WriteJson(status, body);
      }
      ServeRecording(config, old(State()), r, status, reply, fault, env);
    }

    /** Delay, then injected status; None means the handler goes on to its own work. */
    method PreCommitFault(r: Request, fault: Option<FaultSnapshot>, env: Environment) returns (stopped: Option<Reply>)
      requires Valid()
      requires r.call.Federated()
      modifies this
      ensures Valid()
      ensures references == old(references)
      ensures stopped.Some? ==> Finishes(config, old(State()), r, Preparing(fault), env, State(), stopped.value)
      ensures stopped.Some? && stopped.value.Answer? ==> !stopped.value.body.Listing?
      ensures stopped.Some? <==> StopsBefore(fault, env.cancelled)
      ensures stopped.None? ==> State() == old(State())
      ensures stopped.Some? ==>
        if fault.value.delayMillis > 0 && env.cancelled then
          stopped.value == NoReply && Appends(old(events), events, r, 499, fault)
        else
          InjectedReply(stopped.value, fault.value) && Appends(old(events), events, r, fault.value.status, fault)
    {
      if fault.None? {
        return None;
      }
      if fault.value.delayMillis > 0 && env.cancelled {
        Record(r, 499, fault, env.recordedAt);
        ServeRecording(config, old(State()), r, 499, NoReply, fault, env);
        return Some(NoReply);
      }
      if fault.value.status != 0 {
        var answer := Respond(r, fault.value.status, Message("injected fixture failure"), fault, env);
        return Some(answer);
      }
      return None;
    }

    // ---- reads ----

    /** The map iteration of the query and state handlers: some order, every entry once. */
    method ListReferences() returns (list: seq<Reference>)
      requires Valid()
      ensures Enumerates(list, references)
    {
      list := [];
      ghost var keys: seq<string> := [];
      var remaining := references.Keys;
      while remaining != {}
        invariant remaining <= references.Keys
        invariant EnumeratesBy(list, keys, references - remaining)
        decreases remaining
      {
        var id :| id in remaining;
        EnumeratesAdds(list, keys, references - remaining, id, references[id]);
        assert references - (remaining - {id}) == (references - remaining)[id := references[id]];
        list, keys := list + [references[id]], keys + [id];
        remaining := remaining - {id};
      }
      assert references - {} == references;
      assert EnumeratesBy(list, keys, references);
    }

    method HandleQueryReferences(r: Request, env: Environment) returns (reply: Reply, list: seq<Reference>)
      requires Valid()
      requires r.call.QueryReferences?
      modifies this
      ensures Valid()
      ensures Serves(config, old(State()), r, env, State(), reply)
      ensures reply == Answer(200, Listing(old(references))) ==> Enumerates(list, old(references))
    {
      ghost var s0 := State();
      list := [];
      var fault := TakeFault(QUERY_REFERENCES);
      ghost var s1 := State();
      var stopped := PreCommitFault(r, fault, env);
      if stopped.Some? {
        FinishesAfterStep(config, s0, r, TakingFault, env, s1, Preparing(fault), State(), stopped.value);
        return stopped.value, list;
      }
      list := ListReferences();
      reply := Respond(r, 200, Listing(references), fault, env);
      FinishesAfterStep(config, s1, r, Locking(fault), env, s1, Recording(200, reply, fault), State(), reply);
      FinishesAfterStep(config, s1, r, Preparing(fault), env, s1, Locking(fault), State(), reply);
      FinishesAfterStep(config, s0, r, TakingFault, env, s1, Preparing(fault), State(), reply);
    }

    method HandleSubscriptions(r: Request, env: Environment) returns (reply: Reply)
      requires Valid()
      requires r.call.Subscriptions?
      modifies this
      ensures Valid()
      ensures Serves(config, old(State()), r, env, State(), reply)
    {
      ghost var s0 := State();
      var fault := TakeFault(QUERY_SUBSCRIPTIONS);
      ghost var s1 := State();
      var stopped := PreCommitFault(r, fault, env);
      if stopped.Some? {
        reply := stopped.value;
      } else {
        reply := Respond(r, 200, NoSubscriptions, fault, env);
        FinishesAfterStep(config, s1, r, Preparing(fault), env, s1, Recording(200, reply, fault), State(), reply);
      }
      FinishesAfterStep(config, s0, r, TakingFault, env, s1, Preparing(fault), State(), reply);
    }

    method HandleGetReference(r: Request, env: Environment) returns (reply: Reply)
      requires Valid()
      requires r.call.GetReference?
      modifies this
      ensures Valid()
      ensures Serves(config, old(State()), r, env, State(), reply)
    {
      ghost var s0 := State();
      var id := r.call.id;
      var fault := TakeFault(GET_REFERENCE);
      ghost var s1 := State();
      var stopped := PreCommitFault(r, fault, env);
      if stopped.Some? {
        FinishesAfterStep(config, s0, r, TakingFault, env, s1, Preparing(fault), State(), stopped.value);
        return stopped.value;
      }
      ghost var section := ReadSection(references, r.call, fault);
      if id !in references {
        reply := Respond(r, 404, Message("reference not found"), fault, env);
      } else {
        reply := Respond(r, 200, One(references[id]), fault, env);
      }
      FinishesAfterStep(config, s1, r, Locking(fault), env, s1, section, State(), reply);
      FinishesAfterStep(config, s1, r, Preparing(fault), env, s1, Locking(fault), State(), reply);
      FinishesAfterStep(config, s0, r, TakingFault, env, s1, Preparing(fault), State(), reply);
    }

    method HandlePeerDetails(r: Request, env: Environment) returns (reply: Reply)
      requires Valid()
      requires r.call.PeerDetails?
      modifies this
      ensures Valid()
      ensures Serves(config, old(State()), r, env, State(), reply)
    {
      ghost var s0 := State();
      var id := r.call.id;
      var fault := TakeFault(PEER_DETAILS);
      ghost var s1 := State();
      var stopped := PreCommitFault(r, fault, env);
      if stopped.Some? {
        FinishesAfterStep(config, s0, r, TakingFault, env, s1, Preparing(fault), State(), stopped.value);
        return stopped.value;
      }
      ghost var section := ReadSection(references, r.call, fault);
      if id !in references {
        reply := Respond(r, 404, Message("intent not found"), fault, env);
      } else {
        reply := Respond(r, 200, Details(references[id]), fault, env);
      }
      FinishesAfterStep(config, s1, r, Locking(fault), env, s1, section, State(), reply);
      FinishesAfterStep(config, s1, r, Preparing(fault), env, s1, Locking(fault), State(), reply);
      FinishesAfterStep(config, s0, r, TakingFault, env, s1, Preparing(fault), State(), reply);
    }

    /** Journaled, then acknowledged without going through `Respond`: truncation does not apply. */
    method HandlePeerNotification(r: Request, env: Environment) returns (reply: Reply)
      requires Valid()
      requires r.call.PeerNotify?
      modifies this
      ensures Valid()
      ensures Serves(config, old(State()), r, env, State(), reply)
    {
      ghost var s0 := State();
      var fault := TakeFault(PEER_NOTIFY);
      ghost var s1 := State();
      var stopped := PreCommitFault(r, fault, env);
      if stopped.Some? {
        reply := stopped.value;
      } else {
        Record(r, 204, fault, env.recordedAt);
        reply := Answer(204, Nothing);
        ServeRecording(config, s1, r, 204, reply, fault, env);
        FinishesAfterStep(config, s1, r, Preparing(fault), env, s1, Recording(204, reply, fault), State(), reply);
      }
      FinishesAfterStep(config, s0, r, TakingFault, env, s1, Preparing(fault), State(), reply);
    }

    // ---- writes ----

    /** The refusals of create and update; None means the entry may be written. */
    method RefusePut(r: Request, create: bool, fault: Option<FaultSnapshot>, env: Environment)
      returns (refused: Option<Reply>)
      requires Valid()
      requires if create then r.call.Create? else r.call.Update?
      requires r.call.body.Some?
      modifies this
      ensures Valid()
      ensures references == old(references)
      ensures refused.Some? ==> Finishes(config, old(State()), r, Locking(fault), env, State(), refused.value)
      ensures refused.None? <==>
        if create then r.call.id !in old(references)
        else r.call.id in old(references) && r.call.ovn == old(references)[r.call.id].ovn
      ensures refused.None? ==> State() == old(State())
    {
      var id := r.call.id;
      var reply;
      if create && id in references {
        reply := Respond(r, 409, Message("reference exists"), fault, env);
        return Some(reply);
      }
      if !create {
        if id !in references {
          reply := Respond(r, 404, Message("reference not found"), fault, env);
          return Some(reply);
        }
        if r.call.ovn != references[id].ovn {
          reply := Respond(r, 409, StaleOvn(references[id].ovn), fault, env);
          return Some(reply);
        }
      }
      return None;
    }

    /** Writes the next version of the entry. */
    method StoreReference(id: string, body: PutBody, clock: int) returns (reference: Reference)
      requires Valid()
      modifies this
      ensures Valid()
      ensures WrittenFrom(config, reference, id, body, clock)
      ensures reference.version == (if id in old(references) then old(references)[id].version else 0) + 1
      ensures reference.ovn == Ovn.Print(id, reference.version)
      ensures State() == old(State()).(references := old(references)[id := reference])
    {
      var version := (if id in references then references[id].version else 0) + 1;
      var start := clock - 60;
      var baseUrl := body.ussBaseUrl;
      if baseUrl == "" {
        baseUrl := config.peerBaseUrl;
      }
      reference := Reference(id, config.manager, Ovn.Print(id, version), body.state,
                             "33333333-3333-4333-8333-333333333333", "Normal", baseUrl, version,
                             start, start + 3600, body.extents);
      WriteKeepsCoherence(references, id, reference);
      references := references[id := reference];
    }

    /** After the write: the reply, unless the fault closes the connection instead. */
    method AnswerPut(r: Request, create: bool, reference: Reference, fault: Option<FaultSnapshot>, env: Environment)
      returns (reply: Reply)
      requires Valid()
      requires r.call.Federated()
      modifies this
      ensures Valid() && references == old(references)
      ensures
        var pc := FinishPut(config, if create then 201 else 200, reference, fault);
        Finishes(config, old(State()), r, pc, env, State(), reply)
    {
      if fault.Some? && fault.value.closeAfterCommit {
        Record(r, 0, fault, env.recordedAt);
        reply := NoReply;
        ServeRecording(config, old(State()), r, 0, NoReply, fault, env);
      } else {
        var subscribers := if config.subscriberUrl != "" then [config.subscriberUrl] else [];
        reply := Respond(r, if create then 201 else 200, Committed(reference, subscribers), fault, env);
      }
    }

    /** From the write on: an update or create that is not refused. */
    method WriteReference(r: Request, create: bool, fault: Option<FaultSnapshot>, env: Environment)
      returns (reply: Reply)
      requires Valid()
      requires if create then r.call.Create? else r.call.Update?
      requires r.call.body.Some?
      requires if create then r.call.id !in references
               else r.call.id in references && references[r.call.id].ovn == r.call.ovn
      modifies this
      ensures Valid()
      ensures Finishes(config, old(State()), r, Locking(fault), env, State(), reply)
      ensures PutsInto(config, r.call, old(references), references, env.committedAt)
    {
      ghost var s1 := State();
      var reference := StoreReference(r.call.id, r.call.body.value, env.committedAt);
      ghost var s2 := State();
      PutIsOneStep(config, s1, r, fault, env, reference, if create then 201 else 200);
      reply := AnswerPut(r, create, reference, fault, env);
      ghost var pc := FinishPut(config, if create then 201 else 200, reference, fault);
      FinishesAfterStep(config, s1, r, Locking(fault), env, s2, pc, State(), reply);
    }

    /** Create and update, without the fault that precedes them. */
    method PutReference(r: Request, create: bool, fault: Option<FaultSnapshot>, env: Environment) returns (reply: Reply)
      requires Valid()
      requires if create then r.call.Create? else r.call.Update?
      requires r.call.body.Some?
      modifies this
      ensures Valid()
      ensures Finishes(config, old(State()), r, Locking(fault), env, State(), reply)
      ensures PutsInto(config, r.call, old(references), references, env.committedAt)
    {
      var refused := RefusePut(r, create, fault, env);
      if refused.Some? {
        reply := refused.value;
      } else {
        reply := WriteReference(r, create, fault, env);
      }
    }

    method HandlePutReference(r: Request, create: bool, env: Environment) returns (reply: Reply)
      requires Valid()
      requires if create then r.call.Create? else r.call.Update?
      modifies this
      ensures Valid()
      ensures Serves(config, old(State()), r, env, State(), reply)
      ensures references == old(references) || PutsInto(config, r.call, old(references), references, env.committedAt)
    {
      ghost var s0 := State();
      var fault := TakeFault(if create then CREATE_REFERENCE else UPDATE_REFERENCE);
      ghost var s1 := State();
      var stopped := PreCommitFault(r, fault, env);
      if stopped.Some? {
        reply := stopped.value;
      } else if r.call.body.None? {
        reply := Respond(r, 400, DecodeError, fault, env);
        FinishesAfterStep(config, s1, r, Preparing(fault), env, s1, Recording(400, reply, fault), State(), reply);
      } else {
        reply := PutReference(r, create, fault, env);
        FinishesAfterStep(config, s1, r, Preparing(fault), env, s1, Locking(fault), State(), reply);
      }
      FinishesAfterStep(config, s0, r, TakingFault, env, s1, Preparing(fault), State(), reply);
    }

    /** After the locked part of a delete: the reply, decided from the copy of what was found. */
    method AnswerDelete(r: Request, found: Option<Reference>, fault: Option<FaultSnapshot>, env: Environment)
      returns (reply: Reply)
      requires Valid()
      requires r.call.Delete?
      modifies this
      ensures Valid() && references == old(references)
      ensures Finishes(config, old(State()), r, DecideDelete(r.call.id, r.call.ovn, found, fault), env, State(), reply)
    {
      var id, presented := r.call.id, r.call.ovn;
      if found.None? {
        reply := Respond(r, 404, Message("reference not found"), fault, env);
      } else if presented != found.value.ovn {
        reply := Respond(r, 409, StaleOvn(found.value.ovn), fault, env);
      } else if fault.Some? && fault.value.closeAfterCommit {
        Record(r, 0, fault, env.recordedAt);
        reply := NoReply;
        ServeRecording(config, old(State()), r, 0, NoReply, fault, env);
      } else {
        var version := found.value.version + 1;
        var reference := found.value.(version := version, ovn := Ovn.Print(id, version));
        reply := Respond(r, 200, Committed(reference, []), fault, env);
      }
    }

    /** Delete without the fault before it: the entry goes in the locked part, the reply is decided from a copy. */
    method DeleteReference(r: Request, fault: Option<FaultSnapshot>, env: Environment) returns (reply: Reply)
      requires Valid()
      requires r.call.Delete?
      modifies this
      ensures Valid() && PlainEffect(r.call, old(references), references)
      ensures Finishes(config, old(State()), r, Locking(fault), env, State(), reply)
    {
      var id := r.call.id;
      ghost var s1 := State();
      var found := if id in references then Some(references[id]) else None;
      if found.Some? && r.call.ovn == found.value.ovn {
        references := references - {id};
      }
      ghost var s2, pc := State(), DecideDelete(id, r.call.ovn, found, fault);
      reply := AnswerDelete(r, found, fault, env);
      FinishesAfterStep(config, s2, r, Deleting(found, fault), env, s2, pc, State(), reply);
      FinishesAfterStep(config, s1, r, Locking(fault), env, s2, Deleting(found, fault), State(), reply);
    }

    method HandleDeleteReference(r: Request, env: Environment) returns (reply: Reply)
      requires Valid()
      requires r.call.Delete?
      modifies this
      ensures Valid()
      ensures Serves(config, old(State()), r, env, State(), reply)
    {
      ghost var s0 := State();
      var fault := TakeFault(DELETE_REFERENCE);
      ghost var s1 := State();
      var stopped := PreCommitFault(r, fault, env);
      if stopped.Some? {
        reply := stopped.value;
      } else {
        reply := DeleteReference(r, fault, env);
        FinishesAfterStep(config, s1, r, Preparing(fault), env, s1, Locking(fault), State(), reply);
      }
      FinishesAfterStep(config, s0, r, TakingFault, env, s1, Preparing(fault), State(), reply);
    }

    // ---- control plane ----

    method HandleRotateOvn(r: Request, env: Environment) returns (reply: Reply)
      requires Valid()
      requires r.call.RotateOvn?
      modifies this
      ensures Valid()
      ensures Serves(config, old(State()), r, env, State(), reply)
      ensures PlainControl(old(State()), r.call, State(), Done(reply, None))
    {
      var id := r.call.id;
      ControlServes(config, State(), r, env);
      if id !in references {
        return Answer(404, Message("reference not found"));
      }
      var reference := references[id];
      reference := reference.(version := reference.version + 1, ovn := Ovn.Print(id, reference.version + 1));
      WriteKeepsCoherence(references, id, reference);
      references := references[id := reference];
      reply := Answer(200, One(reference));
    }

    method HandleReset(r: Request, env: Environment) returns (reply: Reply)
      requires Valid()
      requires r.call.Reset?
      modifies this
      ensures Valid()
      ensures Serves(config, old(State()), r, env, State(), reply)
      ensures State() == EMPTY_SERVER
    {
      references, faults, events := map[], map[], [];
      sequence := 0;
      reply := Answer(204, Nothing);
    }

    method HandleFault(r: Request, env: Environment) returns (reply: Reply)
      requires Valid()
      requires r.call.ArmFault?
      modifies this
      ensures Valid()
      ensures Serves(config, old(State()), r, env, State(), reply)
      ensures PlainControl(old(State()), r.call, State(), Done(reply, None))
    {
      if r.call.plan.None? {
        return Answer(400, DecodeError);
      }
      var plan := r.call.plan.value;
      if plan.operation == "" || plan.times <= 0 || plan.delayMillis < 0 || plan.status < 0 || plan.status > 599 {
        return Answer(400, Message("invalid fault plan"));
      }
      faults := faults[plan.operation := plan];
      reply := Answer(201, Armed(plan));
    }

    method HandleClearFaults(r: Request, env: Environment) returns (reply: Reply)
      requires Valid()
      requires r.call.ClearFaults?
      modifies this
      ensures Valid()
      ensures Serves(config, old(State()), r, env, State(), reply)
      ensures PlainControl(old(State()), r.call, State(), Done(reply, None))
    {
      faults := map[];
      reply := Answer(204, Nothing);
    }

    method HandleEvents(r: Request, env: Environment) returns (reply: Reply)
      requires Valid()
      requires r.call.ReadEvents?
      ensures Serves(config, State(), r, env, State(), reply)
      ensures PlainControl(State(), r.call, State(), Done(reply, None))
    {
      reply := Answer(200, Journal(events));
    }

    method HandleState(r: Request, env: Environment) returns (reply: Reply, list: seq<Reference>)
      requires Valid()
      requires r.call.ReadState?
      ensures Serves(config, State(), r, env, State(), reply)
      ensures PlainControl(State(), r.call, State(), Done(reply, None))
      ensures reply == Answer(200, Listing(references)) && Enumerates(list, references)
    {
      list := ListReferences();
      reply := Answer(200, Listing(references));
    }
  }
}
