/**
 Why the theorems carry the provisos they carry: concrete runs in which the unconditional claims fail.
 */
module Provisos {
  import opened Wrappers
  import opened FixtureState
  import opened HandlerProgram
  import opened AtomicStore
  import opened Schedule
  import opened CasChain
  import opened JournalNumbering
  import opened Linearizability
  import opened NumberReuse
  import opened JournalBalance
  import opened RetrySafety
  import opened Realization
  import Ovn

  // ---- a reset with a request under way ----

  const RESET := Request(Reset, "POST", "/control/reset")

  function Play(c: Config, m: Machine, ls: seq<Label>): Machine
    decreases |ls|
  {
    if ls == [] then m else Play(c, Next(c, m, ls[0]), ls[1..])
  }

  lemma {:induction false} PlayContinuesRun(c: Config, ls: seq<Label>, more: seq<Label>)
    ensures Run(c, ls + more) == Play(c, Run(c, ls), more)
    decreases |more|
  {
    if more == [] {
      assert ls + more == ls;
    } else {
      RunAppend(c, ls, more[0]);
      PlayContinuesRun(c, ls + [more[0]], more[1..]);
      assert ls + more == (ls + [more[0]]) + more[1..];
    }
  }

  /** An unfaulted notification draws the next number... */
  lemma NotifyDraws(c: Config, m: Machine, t: nat)
    requires t !in m.threads && m.server.faults == map[]
    ensures var e := NewEvent(m.server.sequence + 1, 0, NOTIFY, 204, None);
      Play(c, m, [Arrive(t, NOTIFY), Go(t), Go(t), Go(t)])
      == Machine(m.server.(sequence := m.server.sequence + 1),
                 m.threads[t := Thread(NOTIFY, Appending(e, Answer(204, Nothing)))])
  {
    var m1 := Next(c, m, Arrive(t, NOTIFY));
    var m2 := Next(c, m1, Go(t));
    assert m2.threads[t].pc == Preparing(None);
    var m3 := Next(c, m2, Go(t));
    assert m3.threads[t].pc == Recording(204, Answer(204, Nothing), None);
    var m4 := Next(c, m3, Go(t));
    var l1, l2, l3 := [Go(t), Go(t), Go(t)], [Go(t), Go(t)], [Go(t)];
    assert [Arrive(t, NOTIFY), Go(t), Go(t), Go(t)][1..] == l1 && l1[1..] == l2 && l2[1..] == l3 && l3[1..] == [];
    assert Play(c, m3, l3) == Play(c, m4, []);
    assert Play(c, m2, l2) == Play(c, m3, l3);
    assert Play(c, m1, l1) == Play(c, m2, l2);
    assert m4.threads == m.threads[t := m4.threads[t]];
  }

  /** ...and a reset at that moment forgets it. */
  lemma ResetForgets(c: Config, m: Machine, t: nat)
    requires t !in m.threads
    ensures Play(c, m, [Arrive(t, RESET), Go(t), Go(t)])
            == Machine(EMPTY_SERVER, m.threads[t := Thread(RESET, Done(Answer(204, Nothing), None))])
  {
    var m1 := Next(c, m, Arrive(t, RESET));
    var m2 := Next(c, m1, Go(t));
    var m3 := Next(c, m2, Go(t));
    var l1, l2 := [Go(t), Go(t)], [Go(t)];
    assert [Arrive(t, RESET), Go(t), Go(t)][1..] == l1 && l1[1..] == l2 && l2[1..] == [];
    assert Play(c, m2, l2) == Play(c, m3, []);
    assert Play(c, m1, l1) == Play(c, m2, l2);
    assert m3.threads == m.threads[t := m3.threads[t]];
  }

  lemma NotifierAppends(c: Config, m: Machine, t: nat, e: Event)
    requires t in m.threads && m.threads[t] == Thread(NOTIFY, Appending(e, Answer(204, Nothing)))
    ensures Play(c, m, [Go(t)]) == Machine(m.server.(events := m.server.events + [e]),
                                           m.threads[t := Thread(NOTIFY, Done(Answer(204, Nothing), Some(e)))])
  {
    assert [Go(t)][1..] == [];
    assert Play(c, m, [Go(t)]) == Play(c, Next(c, m, Go(t)), []);
  }

  const DRAWN := Thread(NOTIFY, Appending(FIRST, Answer(204, Nothing)))
  const NOTIFIED := Thread(NOTIFY, Done(Answer(204, Nothing), Some(FIRST)))
  const WIPED := Thread(RESET, Done(Answer(204, Nothing), None))

  /** The event of a notification that drew number 1. */
  const FIRST := NewEvent(1, 0, NOTIFY, 204, None)

  /** A schedule that runs into the machine `m`. */
  ghost predicate Reaches(c: Config, ls: seq<Label>, events: seq<Event>, sequence: nat, threads: map<nat, Thread>) {
    Run(c, ls) == Machine(ServerState(map[], map[], events, sequence), threads)
  }

  lemma DrawFirst(c: Config, ls: seq<Label>, events: seq<Event>, threads: map<nat, Thread>, t: nat)
    returns (ls': seq<Label>)
    requires Reaches(c, ls, events, 0, threads) && t !in threads
    ensures ls <= ls' && Reaches(c, ls', events, 1, threads[t := DRAWN])
  {
    NotifyDraws(c, Run(c, ls), t);
    PlayContinuesRun(c, ls, [Arrive(t, NOTIFY), Go(t), Go(t), Go(t)]);
    ls' := ls + [Arrive(t, NOTIFY), Go(t), Go(t), Go(t)];
  }

  lemma AppendFirst(c: Config, ls: seq<Label>, events: seq<Event>, sequence: nat, threads: map<nat, Thread>, t: nat)
    returns (ls': seq<Label>)
    requires Reaches(c, ls, events, sequence, threads) && t in threads && threads[t] == DRAWN
    ensures ls <= ls' && Reaches(c, ls', events + [FIRST], sequence, threads[t := NOTIFIED])
  {
    NotifierAppends(c, Run(c, ls), t, FIRST);
    PlayContinuesRun(c, ls, [Go(t)]);
    ls' := ls + [Go(t)];
  }

  lemma Wipe(c: Config, ls: seq<Label>, events: seq<Event>, sequence: nat, threads: map<nat, Thread>, t: nat)
    returns (ls': seq<Label>)
    requires Reaches(c, ls, events, sequence, threads) && t !in threads
    ensures ls <= ls' && Reaches(c, ls', [], 0, threads[t := WIPED])
  {
    ResetForgets(c, Run(c, ls), t);
    PlayContinuesRun(c, ls, [Arrive(t, RESET), Go(t), Go(t)]);
    ls' := ls + [Arrive(t, RESET), Go(t), Go(t)];
  }

  /** Resetting while a request holds a drawn number makes the journal repeat that number. */
  lemma UntimelyResetRepeatsNumbers(c: Config) returns (ls: seq<Label>)
    ensures !Distinct(Numbers(Run(c, ls).server.events)) && |Run(c, ls).server.events| == 2
  {
    ls := DrawFirst(c, [], [], map[], 0);
    ls := Wipe(c, ls, [], 1, map[0 := DRAWN], 1);
    ls := DrawFirst(c, ls, [], map[0 := DRAWN, 1 := WIPED], 2);
    ls := AppendFirst(c, ls, [], 1, map[0 := DRAWN, 1 := WIPED, 2 := DRAWN], 0);
    ls := AppendFirst(c, ls, [] + [FIRST], 1, map[0 := NOTIFIED, 1 := WIPED, 2 := DRAWN], 2);
    assert Run(c, ls).server.events == [FIRST, FIRST];
    assert Numbers(Run(c, ls).server.events)[0] == Numbers(Run(c, ls).server.events)[1];
  }

  // ---- a reset between two requests ----

  /**
   A reset between two requests that do not overlap, even when nothing else is under way, starts the numbers
   again: the later request's number is not greater.
   */
  lemma ResetRestartsNumbers(c: Config) returns (ls: seq<Label>, ls': seq<Label>)
    ensures ls <= ls' && Quiescent(Run(c, ls)) && HasJournaled(Run(c, ls), 0) && 2 !in Run(c, ls).threads
    ensures HasJournaled(Run(c, ls'), 2) && NumberOf(Run(c, ls'), 2) == NumberOf(Run(c, ls), 0) == 1
  {
    var drawn := DrawFirst(c, [], [], map[], 0);
    ls := AppendFirst(c, drawn, [], 1, map[0 := DRAWN], 0);
    ls' := Wipe(c, ls, [] + [FIRST], 1, map[0 := NOTIFIED], 1);
    ls' := DrawFirst(c, ls', [], map[0 := NOTIFIED, 1 := WIPED], 2);
    ls' := AppendFirst(c, ls', [], 1, map[0 := NOTIFIED, 1 := WIPED, 2 := DRAWN], 2);
  }

  // ---- a reset overtaking a commit ----

  function Creating(id: string, body: PutBody): Request {
    Request(Create(id, Some(body)), "PUT", "/dss/v1/operational_intent_references/" + id)
  }

  lemma CreateCommits(c: Config, m: Machine, t: nat, id: string, body: PutBody)
    requires t !in m.threads && m.server == EMPTY_SERVER
    ensures var m' := Play(c, m, [Arrive(t, Creating(id, body)), Go(t), Go(t), Go(t)]);
      && t in m'.threads && m'.threads == m.threads[t := m'.threads[t]]
      && m'.threads[t].request == Creating(id, body)
      && m'.threads[t].pc.Recording? && m'.threads[t].pc.status == 201 && m'.threads[t].pc.fault == None
  {
    var m1 := Next(c, m, Arrive(t, Creating(id, body)));
    var m2 := Next(c, m1, Go(t));
    assert m2.threads[t].pc == Preparing(None);
    var m3 := Next(c, m2, Go(t));
    assert m3.threads[t].pc == Locking(None);
    var m4 := Next(c, m3, Go(t));
    var l1, l2, l3 := [Go(t), Go(t), Go(t)], [Go(t), Go(t)], [Go(t)];
    assert [Arrive(t, Creating(id, body)), Go(t), Go(t), Go(t)][1..] == l1;
    assert l1[1..] == l2 && l2[1..] == l3 && l3[1..] == [];
    assert Play(c, m3, l3) == Play(c, m4, []);
    assert Play(c, m2, l2) == Play(c, m3, l3);
    assert Play(c, m1, l1) == Play(c, m2, l2);
  }

  lemma CreatorJournals(c: Config, m: Machine, t: nat, r: Request, reply: Reply)
    requires t in m.threads && m.threads[t] == Thread(r, Recording(201, reply, None)) && r.call.Federated()
    requires m.server == EMPTY_SERVER
    ensures var m', e := Play(c, m, [Go(t), Go(t)]), NewEvent(1, 0, r, 201, None);
      && m'.server == EMPTY_SERVER.(sequence := 1, events := [e])
      && m'.threads == m.threads[t := Thread(r, Done(reply, Some(e)))]
  {
    var m1 := Next(c, m, Go(t));
    var m2 := Next(c, m1, Go(t));
    assert [Go(t), Go(t)][1..] == [Go(t)] && [Go(t)][1..] == [];
    assert Play(c, m1, [Go(t)]) == Play(c, m2, []);
    assert m2.threads == m.threads[t := m2.threads[t]];
  }

  /** A reset overtaking a committed create: the journal then shows a create of an identifier that is not stored. */
  lemma OvertakenCreateUnbalances(c: Config, id: string, body: PutBody) returns (ls: seq<Label>)
    ensures Quiescent(Run(c, ls)) && id !in Run(c, ls).server.references
    ensures CommitsJournaled(Run(c, ls).server.events, CREATE_REFERENCE, id) == 1
    ensures CommitsJournaled(Run(c, ls).server.events, DELETE_REFERENCE, id) == 0
  {
    var r := Creating(id, body);
    var commit, wipe := [Arrive(0, r), Go(0), Go(0), Go(0)], [Arrive(1, RESET), Go(1), Go(1)];
    CreateCommits(c, INITIAL, 0, id, body);
    var m1 := Play(c, INITIAL, commit);
    ResetForgets(c, m1, 1);
    var m2 := Play(c, m1, wipe);
    CreatorJournals(c, m2, 0, r, m1.threads[0].pc.reply);
    PlayContinuesRun(c, [], commit);
    PlayContinuesRun(c, [] + commit, wipe);
    PlayContinuesRun(c, [] + commit + wipe, [Go(0), Go(0)]);
    ls := [] + commit + wipe + [Go(0), Go(0)];
    var e := NewEvent(1, 0, r, 201, None);
    OperationNames(r.call);
    assert Run(c, ls).server.events == [e] && Front([e]) == [];
  }

  // ---- OVNs across incarnations ----

  function CreateTwice(id: string, body: PutBody, clock: int): seq<Access> {
    var ovn := Ovn.Print(id, 1);
    [Access(0, Create(id, Some(body)), clock), Access(1, Delete(id, ovn), clock),
     Access(2, Create(id, Some(body)), clock), Access(3, Update(id, ovn, Some(body)), clock)]
  }

  lemma CreateTwiceOutcomes(c: Config, id: string, body: PutBody, clock: int)
    ensures var es := CreateTwice(id, body, clock);
      && OutcomeOf(c, es, 0).Created? && OutcomeOf(c, es, 1).Deleted?
      && OutcomeOf(c, es, 2).Created? && OutcomeOf(c, es, 3).Updated?
      && OutcomeOf(c, es, 0).reference.ovn == Ovn.Print(id, 1) && OutcomeOf(c, es, 0).reference.id == id
      && Ends(OutcomeOf(c, es, 1), id)
  {
    var es := CreateTwice(id, body, clock);
    AfterStep(c, es, 0);
    AfterStep(c, es, 1);
    AfterStep(c, es, 2);
    assert es[..0] == [];
  }

  /**
   A create after a delete starts again at version 1, so the new incarnation's OVN is the old one's. In this
   run of four handlers, one after the other, the first create tells its client the OVN, the identifier is
   deleted and created again, and an update presenting the OVN told before the delete is answered 200.
   */
  lemma OvnsRepeatAcrossIncarnations(c: Config, id: string, body: PutBody, clock: int) returns (ls: seq<Label>)
    ensures Accesses(c, ls) == CreateTwice(id, body, clock) && !SameIncarnation(c, Accesses(c, ls), id, 1, 3)
    ensures var m, ovn := Run(c, ls), Ovn.Print(id, 1);
      && 0 in m.threads && m.threads[0].pc.Done? && Tells(m.threads[0].request.call, m.threads[0].pc.reply, id, ovn)
      && 3 in m.threads && m.threads[3].pc.Done? && Presents(m.threads[3].request.call, id, ovn)
      && m.threads[3].pc.reply.Answer? && m.threads[3].pc.reply.status == 200
  {
    var es := CreateTwice(id, body, clock);
    ls := EveryOrderIsServed(c, es);
    CreateTwiceOutcomes(c, id, body, clock);
    EveryScheduleLinearizes(c, ls);
    assert es[0].t in Run(c, ls).threads && es[3].t in Run(c, ls).threads;
    assert Ends(OutcomeOf(c, es, 1), id);
  }
}
