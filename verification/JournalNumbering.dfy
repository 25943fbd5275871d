/**
 The event journal. Every DSS or peer request that completes has appended exactly one event, on
 every path through its handler. Sequence numbers are drawn outside the lock, so the journal need
 not be sorted; but if resets zero the counter only while no number is in use, numbers never repeat,
 are exactly 1..n when nothing is in flight, and order requests that do not overlap in time.
 */
module JournalNumbering {
  import opened Wrappers
  import opened FixtureState
  import opened HandlerProgram
  import opened AtomicStore
  import opened Schedule
  import opened Linearizability

  // ---- exactly one event per completed request ----

  function Appended(m: Machine, l: Label): seq<nat> {
    if l.Step? && l.t in m.threads && m.threads[l.t].request.call.Federated() && m.threads[l.t].pc.Appending?
    then [l.t] else []
  }

  /** The handlers that executed their journal section, in that order; resets do not erase it. */
  function Appenders(c: Config, ls: seq<Label>): seq<nat> {
    if ls == [] then [] else Appenders(c, Front(ls)) + Appended(Run(c, Front(ls)), Last(ls))
  }

  predicate HasJournaled(m: Machine, t: nat) {
    t in m.threads && m.threads[t].pc.Done? && m.threads[t].pc.journaled.Some?
  }

  /** The stored events are those of the latest appenders, and appenders are the handlers done journaling. */
  ghost predicate JournalMatches(m: Machine, apps: seq<nat>) {
    && |m.server.events| <= |apps|
    && Distinct(apps)
    && (forall t :: HasJournaled(m, t) <==> t in apps)
    && (forall i :: 0 <= i < |m.server.events| ==>
          var owner := apps[|apps| - |m.server.events| + i];
          HasJournaled(m, owner) && m.threads[owner].pc.journaled.value == m.server.events[i])
  }

  /** Only handler `t` moved. */
  ghost predicate OnlyMoved(m: Machine, m': Machine, t: nat) {
    && m'.threads.Keys == m.threads.Keys
    && t in m.threads
    && forall u :: u in m.threads && u != t ==> m'.threads[u] == m.threads[u]
  }

  lemma AppendKeepsJournal(m: Machine, m': Machine, apps: seq<nat>, t: nat, e: Event)
    requires JournalMatches(m, apps) && OnlyMoved(m, m', t) && !HasJournaled(m, t)
    requires HasJournaled(m', t) && m'.threads[t].pc.journaled.value == e
    requires m'.server.events == m.server.events + [e]
    ensures JournalMatches(m', apps + [t])
  {
    var apps' := apps + [t];
    forall u
      ensures HasJournaled(m', u) <==> u in apps'
    {
      assert u != t ==> (HasJournaled(m', u) <==> HasJournaled(m, u));
    }
  }

  lemma OtherStepKeepsJournal(m: Machine, m': Machine, apps: seq<nat>, t: nat)
    requires JournalMatches(m, apps) && OnlyMoved(m, m', t)
    requires HasJournaled(m, t) ==> m'.threads[t] == m.threads[t]
    requires HasJournaled(m', t) ==> HasJournaled(m, t)
    requires m'.server.events == m.server.events || m'.server.events == []
    ensures JournalMatches(m', apps)
  {
    assert forall u :: HasJournaled(m', u) <==> HasJournaled(m, u);
  }

  /** What a step does to the stepping handler and to the journal. */
  lemma StepOnJournal(c: Config, m: Machine, es: seq<Access>, t: nat, i: Input)
    requires t in m.threads && HandlerOk(c, es, t, m.threads[t].request.call, m.threads[t].pc)
    ensures var m' := Next(c, m, Step(t, i));
      && OnlyMoved(m, m', t)
      && (Appended(m, Step(t, i)) != [] ==>
            && !HasJournaled(m, t) && HasJournaled(m', t)
            && m'.server.events == m.server.events + [m'.threads[t].pc.journaled.value])
      && (Appended(m, Step(t, i)) == [] ==>
            && (HasJournaled(m, t) ==> m'.threads[t] == m.threads[t])
            && (HasJournaled(m', t) ==> HasJournaled(m, t))
            && (m'.server.events == m.server.events || m'.server.events == []))
  {
  }

  lemma StepKeepsJournal(c: Config, m: Machine, es: seq<Access>, apps: seq<nat>, t: nat, i: Input)
    requires t in m.threads && HandlerOk(c, es, t, m.threads[t].request.call, m.threads[t].pc)
    requires JournalMatches(m, apps)
    ensures JournalMatches(Next(c, m, Step(t, i)), apps + Appended(m, Step(t, i)))
  {
    var m' := Next(c, m, Step(t, i));
    StepOnJournal(c, m, es, t, i);
    if Appended(m, Step(t, i)) != [] {
      AppendKeepsJournal(m, m', apps, t, m'.threads[t].pc.journaled.value);
    } else {
      assert apps + Appended(m, Step(t, i)) == apps;
      OtherStepKeepsJournal(m, m', apps, t);
    }
  }

  lemma ArrivalKeepsJournal(c: Config, m: Machine, apps: seq<nat>, l: Label)
    requires (l.Arrive? || l.t !in m.threads) && JournalMatches(m, apps)
    ensures JournalMatches(Next(c, m, l), apps + Appended(m, l))
  {
    assert apps + Appended(m, l) == apps;
    assert forall u :: HasJournaled(Next(c, m, l), u) <==> HasJournaled(m, u);
  }

  lemma {:induction false} JournalAlwaysMatches(c: Config, ls: seq<Label>)
    ensures JournalMatches(Run(c, ls), Appenders(c, ls))
  {
    if ls != [] {
      JournalAlwaysMatches(c, Front(ls));
      EveryScheduleLinearizes(c, Front(ls));
      if Last(ls).Step? && Last(ls).t in Run(c, Front(ls)).threads {
        var l := Last(ls);
        StepKeepsJournal(c, Run(c, Front(ls)), Accesses(c, Front(ls)), Appenders(c, Front(ls)), l.t, l.input);
      } else {
        ArrivalKeepsJournal(c, Run(c, Front(ls)), Appenders(c, Front(ls)), Last(ls));
      }
    }
  }

  /** A DSS or peer request has completed exactly when it has appended one event, and never appends a second. */
  lemma CompletedMeansJournaledOnce(c: Config, ls: seq<Label>, t: nat)
    requires t in Run(c, ls).threads && Run(c, ls).threads[t].request.call.Federated()
    ensures Run(c, ls).threads[t].pc.Done? <==> t in Appenders(c, ls)
    ensures forall i, j :: 0 <= i < j < |Appenders(c, ls)| ==> !(Appenders(c, ls)[i] == t == Appenders(c, ls)[j])
  {
    JournalAlwaysMatches(c, ls);
    EveryScheduleLinearizes(c, ls);
    assert HandlerOk(c, Accesses(c, ls), t, Run(c, ls).threads[t].request.call, Run(c, ls).threads[t].pc);
  }

  // ---- timely resets ----

  predicate Holds(m: Machine, t: nat, n: int) {
    t in m.threads && m.threads[t].pc.Appending? && m.threads[t].pc.event.sequence == n
  }

  ghost predicate ResetPending(m: Machine, z: nat) {
    z in m.threads && m.threads[z].pc.ZeroingSequence?
  }

  /** No number is in the journal or held by a handler on its way there. */
  ghost predicate NothingNumbered(m: Machine) {
    m.server.events == [] && forall t, n :: !Holds(m, t, n)
  }

  /** A reset may do anything at any time but zero the counter while a number is in use. */
  ghost predicate TimelyLabel(m: Machine, l: Label) {
    l.Step? && ResetPending(m, l.t) ==> NothingNumbered(m)
  }

  ghost predicate Timely(c: Config, ls: seq<Label>) {
    ls == [] || (Timely(c, Front(ls)) && TimelyLabel(Run(c, Front(ls)), Last(ls)))
  }

  // ---- numbering ----

  /** No number is in use twice or still to be drawn. */
  ghost predicate Collisionless(m: Machine) {
    && (forall i :: 0 <= i < |m.server.events| ==> m.server.events[i].sequence <= m.server.sequence)
    && (forall i, j :: 0 <= i < j < |m.server.events| ==> m.server.events[i].sequence != m.server.events[j].sequence)
    && (forall t, n :: Holds(m, t, n) ==> n <= m.server.sequence)
    && (forall t, u, n :: Holds(m, t, n) && Holds(m, u, n) ==> t == u)
    && (forall i, t, n :: 0 <= i < |m.server.events| && Holds(m, t, n) ==> m.server.events[i].sequence != n)
  }

  ghost predicate InUse(m: Machine, n: int) {
    (exists i :: 0 <= i < |m.server.events| && m.server.events[i].sequence == n) || (exists t :: Holds(m, t, n))
  }

  /** The numbers in use are those from 1 up to the counter, once a reset that took the lock has zeroed it. */
  ghost predicate Gapless(m: Machine) {
    (forall z :: !ResetPending(m, z)) ==> forall n :: 1 <= n <= m.server.sequence ==> InUse(m, n)
  }

  ghost predicate Positive(m: Machine) {
    forall n :: InUse(m, n) ==> n >= 1
  }

  /** What a step of handler `t` does to the numbers in use. */
  datatype Effect = Draws | Appends | Keeps | Wipes | Zeroes

  function EffectOf(th: Thread): Effect {
    if th.request.call.Federated() then
      if th.pc.Recording? then Draws else if th.pc.Appending? then Appends else Keeps
    else if th.pc.ZeroingSequence? then Zeroes
    else if th.request.call.Reset? && th.pc.Controlling? then Wipes
    else Keeps
  }

  ghost predicate Has(m: Machine, m': Machine, t: nat, effect: Effect)
    requires OnlyMoved(m, m', t)
  {
    var s, s', pc, pc' := m.server, m'.server, m.threads[t].pc, m'.threads[t].pc;
    && (pc'.Appending? <==> effect.Draws?)
    && (pc.Appending? <==> effect.Appends?)
    && (pc'.ZeroingSequence? <==> effect.Wipes?)
    && (pc.ZeroingSequence? <==> effect.Zeroes?)
    && s'.sequence == (if effect.Draws? then s.sequence + 1 else if effect.Zeroes? then 0 else s.sequence)
    && (effect.Draws? ==> pc'.event.sequence == s.sequence + 1)
    && s'.events == (if effect.Appends? then s.events + [pc.event] else if effect.Wipes? then [] else s.events)
  }

  lemma StepHasEffect(c: Config, m: Machine, es: seq<Access>, t: nat, i: Input)
    requires t in m.threads && HandlerOk(c, es, t, m.threads[t].request.call, m.threads[t].pc)
    ensures OnlyMoved(m, Next(c, m, Step(t, i)), t)
    ensures Has(m, Next(c, m, Step(t, i)), t, EffectOf(m.threads[t]))
  {
  }

  /** A draw, an append or a wipe never makes two numbers equal; zeroing does not if none is in use. */
  lemma StepKeepsApart(m: Machine, m': Machine, t: nat, effect: Effect)
    requires OnlyMoved(m, m', t) && Has(m, m', t, effect) && Collisionless(m)
    requires effect.Zeroes? ==> NothingNumbered(m)
    ensures Collisionless(m')
  {
    assert forall u, n :: u != t ==> (Holds(m', u, n) <==> Holds(m, u, n));
    assert effect.Appends? ==> Holds(m, t, m.threads[t].pc.event.sequence);
  }

  lemma StepKeepsPositive(m: Machine, m': Machine, t: nat, effect: Effect)
    requires OnlyMoved(m, m', t) && Has(m, m', t, effect) && Positive(m)
    ensures Positive(m')
  {
    forall n | InUse(m', n)
      ensures n >= 1
    {
      if i :| 0 <= i < |m'.server.events| && m'.server.events[i].sequence == n {
        assert i < |m.server.events| || Holds(m, t, n);
        assert InUse(m, n);
      } else {
        var u :| Holds(m', u, n);
        assert u != t ==> Holds(m, u, n);
        assert u != t ==> InUse(m, n);
      }
    }
  }

  /** A number stays in use until a reset wipes the journal. */
  lemma StaysInUse(m: Machine, m': Machine, t: nat, effect: Effect, n: int)
    requires OnlyMoved(m, m', t) && Has(m, m', t, effect) && !effect.Wipes? && InUse(m, n)
    ensures InUse(m', n)
  {
    if i :| 0 <= i < |m.server.events| && m.server.events[i].sequence == n {
      assert m'.server.events[i].sequence == n;
    } else {
      var u :| Holds(m, u, n);
      if u == t {
        assert m'.server.events[|m.server.events|].sequence == n;
      } else {
        assert Holds(m', u, n);
      }
    }
  }

  lemma StepKeepsGapless(m: Machine, m': Machine, t: nat, effect: Effect)
    requires OnlyMoved(m, m', t) && Has(m, m', t, effect) && Gapless(m)
    ensures Gapless(m')
  {
    if effect.Wipes? {
      assert ResetPending(m', t);
    } else if !effect.Zeroes? && forall z :: !ResetPending(m', z) {
      assert forall z :: ResetPending(m, z) ==> ResetPending(m', z);
      forall n | 1 <= n <= m'.server.sequence
        ensures InUse(m', n)
      {
        if n <= m.server.sequence {
          assert InUse(m, n);
          StaysInUse(m, m', t, effect, n);
        } else {
          assert Holds(m', t, n);
        }
      }
    }
  }

  lemma ArrivalKeepsNumbers(c: Config, m: Machine, l: Label)
    requires l.Arrive? || l.t !in m.threads
    ensures Collisionless(m) ==> Collisionless(Next(c, m, l))
    ensures Positive(m) ==> Positive(Next(c, m, l))
    ensures Gapless(m) ==> Gapless(Next(c, m, l))
  {
    var m' := Next(c, m, l);
    assert forall z :: ResetPending(m', z) <==> ResetPending(m, z);
    assert forall u, n :: Holds(m', u, n) <==> Holds(m, u, n);
    assert forall n :: InUse(m', n) <==> InUse(m, n);
  }

  lemma LabelKeepsNumbers(c: Config, m: Machine, es: seq<Access>, l: Label)
    requires LinearizedBy(c, m, es)
    ensures TimelyLabel(m, l) && Collisionless(m) ==> Collisionless(Next(c, m, l))
    ensures Positive(m) ==> Positive(Next(c, m, l))
    ensures Gapless(m) ==> Gapless(Next(c, m, l))
  {
    if l.Step? && l.t in m.threads {
      var m', effect := Next(c, m, l), EffectOf(m.threads[l.t]);
      assert HandlerOk(c, es, l.t, m.threads[l.t].request.call, m.threads[l.t].pc);
      StepHasEffect(c, m, es, l.t, l.input);
      if TimelyLabel(m, l) && Collisionless(m) { StepKeepsApart(m, m', l.t, effect); }
      if Positive(m) { StepKeepsPositive(m, m', l.t, effect); }
      if Gapless(m) { StepKeepsGapless(m, m', l.t, effect); }
    } else {
      ArrivalKeepsNumbers(c, m, l);
    }
  }

  /** Whatever the resets do, drawn numbers start at 1 and have no gap; timely ones keep them apart. */
  lemma {:induction false} SchedulesNumber(c: Config, ls: seq<Label>)
    ensures Positive(Run(c, ls)) && Gapless(Run(c, ls))
    ensures Timely(c, ls) ==> Collisionless(Run(c, ls))
  {
    if ls != [] {
      SchedulesNumber(c, Front(ls));
      EveryScheduleLinearizes(c, Front(ls));
      LabelKeepsNumbers(c, Run(c, Front(ls)), Accesses(c, Front(ls)), Last(ls));
    }
  }

  function Numbers(events: seq<Event>): (ns: seq<nat>)
    ensures |ns| == |events|
    ensures forall i :: 0 <= i < |ns| ==> ns[i] == events[i].sequence
  {
    seq(|events|, i requires 0 <= i < |events| => events[i].sequence)
  }

  /** The numbers 1..n. */
  function UpTo(n: nat): (s: set<nat>)
    ensures forall k :: k in s <==> 1 <= k <= n
    ensures |s| == n
  {
    if n == 0 then {} else UpTo(n - 1) + {n}
  }

  /** Not yet begun, or finished. */
  predicate Idle(pc: Pc) {
    pc.TakingFault? || pc.Controlling? || pc.Done?
  }

  /** No handler is under way. */
  ghost predicate Quiescent(m: Machine) {
    forall t :: t in m.threads ==> Idle(m.threads[t].pc)
  }

  lemma QuiescentNumbersAreInUse(m: Machine, n: nat)
    requires Collisionless(m) && Positive(m) && Gapless(m) && Quiescent(m)
    ensures n in Numbers(m.server.events) <==> 1 <= n <= m.server.sequence
  {
    var events, ns := m.server.events, Numbers(m.server.events);
    if 1 <= n <= m.server.sequence {
      assert InUse(m, n);
      var i :| 0 <= i < |events| && events[i].sequence == n;
      assert ns[i] == n;
    } else if n in ns {
      assert InUse(m, n);
    }
  }

  lemma QuiescentNumbers(m: Machine)
    requires Collisionless(m) && Positive(m) && Gapless(m) && Quiescent(m)
    ensures Elements(Numbers(m.server.events)) == UpTo(m.server.sequence)
    ensures m.server.sequence == |m.server.events|
  {
    var ns := Numbers(m.server.events);
    var used := Elements(ns);
    forall n: nat
      ensures n in used <==> n in UpTo(m.server.sequence)
    {
      QuiescentNumbersAreInUse(m, n);
    }
    assert used == UpTo(m.server.sequence);
    DistinctCardinality(ns);
  }

  /**
   If every reset zeroes the counter while no number is in use, no number ever repeats; and when nothing is
   under way the numbers are exactly 1..n. `NumberReuse.DistinctIffTimely` says that the proviso is exact.
   */
  lemma NumbersAreExact(c: Config, ls: seq<Label>)
    requires Timely(c, ls)
    ensures Distinct(Numbers(Run(c, ls).server.events))
    ensures Quiescent(Run(c, ls)) ==>
      var events := Run(c, ls).server.events;
      Elements(Numbers(events)) == UpTo(|events|) && Run(c, ls).server.sequence == |events|
  {
    SchedulesNumber(c, ls);
    if Quiescent(Run(c, ls)) {
      QuiescentNumbers(Run(c, ls));
    }
  }

  // ---- requests that do not overlap ----

  predicate ResetStep(m: Machine, l: Label) {
    l.Step? && l.t in m.threads && m.threads[l.t].request.call.Reset?
  }

  ghost predicate NoResetWithin(c: Config, ls: seq<Label>, more: seq<Label>) {
    more == [] || (NoResetWithin(c, ls, Front(more)) && !ResetStep(Run(c, ls + Front(more)), Last(more)))
  }

  /** A handler that arrived later and drew a number has a later number and a later place. */
  ghost predicate ComesLater(before: Machine, now: Machine, t: nat) {
    t !in before.threads && t in now.threads ==>
      match now.threads[t].pc
      case Appending(e, _) => e.sequence > before.server.sequence
      case Done(_, Some(e)) =>
        && e.sequence > before.server.sequence
        && exists j :: |before.server.events| <= j < |now.server.events| && now.server.events[j] == e
      case _ => true
  }

  ghost predicate LaterOnly(before: Machine, now: Machine) {
    && before.server.events <= now.server.events
    && before.server.sequence <= now.server.sequence
    && (forall t :: ComesLater(before, now, t))
    && (forall t :: t in before.threads ==> t in now.threads)
  }

  /** A handler that did not move keeps its later place in a journal that only grew. */
  lemma OthersComeLater(before: Machine, m: Machine, m': Machine, t: nat)
    requires ComesLater(before, m, t) && m.server.events <= m'.server.events
    requires t in m'.threads ==> t in m.threads && m'.threads[t] == m.threads[t]
    ensures ComesLater(before, m', t)
  {
    if t !in before.threads && t in m'.threads && HasJournaled(m, t) {
      var e := m.threads[t].pc.journaled.value;
      var j :| |before.server.events| <= j < |m.server.events| && m.server.events[j] == e;
      assert m'.server.events[j] == e;
    }
  }

  /** The stepping handler. */
  lemma MoverComesLater(c: Config, before: Machine, m: Machine, es: seq<Access>, t: nat, i: Input)
    requires t in m.threads && HandlerOk(c, es, t, m.threads[t].request.call, m.threads[t].pc)
    requires LaterOnly(before, m) && !m.threads[t].request.call.Reset?
    ensures var m' := Next(c, m, Step(t, i));
      m.server.events <= m'.server.events && m.server.sequence <= m'.server.sequence && ComesLater(before, m', t)
  {
    var m', pc := Next(c, m, Step(t, i)), m.threads[t].pc;
    assert ComesLater(before, m, t);
    if pc.Appending? {
      assert m'.server.events[|m.server.events|] == pc.event;
    } else if pc.Done? {
      assert m' == m;
    }
  }

  lemma StepComesLater(c: Config, before: Machine, m: Machine, es: seq<Access>, l: Label)
    requires LinearizedBy(c, m, es) && LaterOnly(before, m) && !ResetStep(m, l)
    ensures LaterOnly(before, Next(c, m, l))
  {
    var m' := Next(c, m, l);
    if l.Step? && l.t in m.threads {
      assert HandlerOk(c, es, l.t, m.threads[l.t].request.call, m.threads[l.t].pc);
      MoverComesLater(c, before, m, es, l.t, l.input);
    }
    forall t
      ensures ComesLater(before, m', t)
    {
      assert ComesLater(before, m, t);
      if t != l.t {
        OthersComeLater(before, m, m', t);
      }
    }
  }

  lemma {:induction false} LaterRequestsComeLater(c: Config, ls: seq<Label>, more: seq<Label>)
    requires NoResetWithin(c, ls, more)
    ensures LaterOnly(Run(c, ls), Run(c, ls + more))
  {
    if more == [] {
      assert ls + more == ls;
    } else {
      LaterRequestsComeLater(c, ls, Front(more));
      RunSplit(c, ls, more);
      EveryScheduleLinearizes(c, ls + Front(more));
      StepComesLater(c, Run(c, ls), Run(c, ls + Front(more)), Accesses(c, ls + Front(more)), Last(more));
    }
  }

  function NumberOf(m: Machine, t: nat): nat
    requires HasJournaled(m, t)
  {
    m.threads[t].pc.journaled.value.sequence
  }

  /**
   A request journaled before another arrives precedes it in the journal by position, and by number if no
   reset has zeroed the counter while numbers were in use.
   */
  lemma NonOverlappingRequestsAreOrdered(c: Config, ls: seq<Label>, more: seq<Label>, a: nat, b: nat, i: nat)
    requires NoResetWithin(c, ls, more)
    requires HasJournaled(Run(c, ls), a) && b !in Run(c, ls).threads && HasJournaled(Run(c, ls + more), b)
    requires i < |Run(c, ls).server.events| && Run(c, ls).server.events[i] == Run(c, ls).threads[a].pc.journaled.value
    ensures var m := Run(c, ls + more);
      && HasJournaled(m, a) && i < |m.server.events| && m.server.events[i] == m.threads[a].pc.journaled.value
      && exists j :: i < j < |m.server.events| && m.server.events[j] == m.threads[b].pc.journaled.value
    ensures Timely(c, ls) ==> NumberOf(Run(c, ls + more), a) < NumberOf(Run(c, ls + more), b)
  {
    LaterRequestsComeLater(c, ls, more);
    SchedulesNumber(c, ls);
    DonePersists(c, ls, more, a);
    assert ComesLater(Run(c, ls), Run(c, ls + more), b);
  }
}
