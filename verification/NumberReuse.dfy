/**
 When exactly journal numbers repeat. From any point of any schedule, the numbers stay distinct however the
 run goes on without a reset if and only if at that point none is in use twice or still to be drawn; and
 they stay distinct from every point of a schedule on if and only if all its resets are timely.
 */
module NumberReuse {
  import opened Wrappers
  import opened FixtureState
  import opened HandlerProgram
  import opened Schedule
  import opened Linearizability
  import opened JournalNumbering

  /** However the run goes on without a reset, no number repeats. */
  ghost predicate StaysDistinct(c: Config, ls: seq<Label>) {
    forall more :: NoResetWithin(c, ls, more) ==> Distinct(Numbers(Run(c, ls + more).server.events))
  }

  ghost predicate Repeats(c: Config, ls: seq<Label>, more: seq<Label>) {
    NoResetWithin(c, ls, more) && !Distinct(Numbers(Run(c, ls + more).server.events))
  }

  // ---- sufficiency ----

  lemma {:induction false} CollisionlessStays(c: Config, ls: seq<Label>, more: seq<Label>)
    requires Collisionless(Run(c, ls)) && NoResetWithin(c, ls, more)
    ensures Collisionless(Run(c, ls + more))
  {
    if more == [] {
      assert ls + more == ls;
    } else {
      var before, l := ls + Front(more), Last(more);
      CollisionlessStays(c, ls, Front(more));
      RunSplit(c, ls, more);
      EveryScheduleLinearizes(c, before);
      var m := Run(c, before);
      if l.Step? && l.t in m.threads {
        assert HandlerOk(c, Accesses(c, before), l.t, m.threads[l.t].request.call, m.threads[l.t].pc);
      }
      LabelKeepsNumbers(c, m, Accesses(c, before), l);
    }
  }

  // ---- continuing a schedule ----

  const NOTIFY := Request(PeerNotify, "POST", "/uss/v1/operational_intents")

  function Go(t: nat): Label {
    Step(t, Input(false, 0))
  }

  lemma {:induction false} ResetFreeThen(c: Config, ls: seq<Label>, a: seq<Label>, b: seq<Label>)
    requires NoResetWithin(c, ls, a) && NoResetWithin(c, ls + a, b)
    ensures NoResetWithin(c, ls, a + b)
  {
    if b == [] {
      assert a + b == a;
    } else {
      ResetFreeThen(c, ls, a, Front(b));
      assert Front(a + b) == a + Front(b) && Last(a + b) == Last(b);
      assert ls + (a + Front(b)) == (ls + a) + Front(b);
    }
  }

  /** A repetition further on is a repetition. */
  lemma RepeatsLater(c: Config, ls: seq<Label>, a: seq<Label>, b: seq<Label>)
    requires NoResetWithin(c, ls, a) && Repeats(c, ls + a, b)
    ensures Repeats(c, ls, a + b)
  {
    ResetFreeThen(c, ls, a, b);
    assert ls + (a + b) == (ls + a) + b;
  }

  lemma OneMore(c: Config, ls: seq<Label>, more: seq<Label>, l: Label)
    requires NoResetWithin(c, ls, more) && !ResetStep(Run(c, ls + more), l)
    ensures NoResetWithin(c, ls, more + [l])
    ensures Run(c, ls + (more + [l])) == Next(c, Run(c, ls + more), l)
  {
    FrontOfAppend(more, l);
    assert ls + (more + [l]) == (ls + more) + [l];
    RunAppend(c, ls + more, l);
  }

  lemma {:induction false} Bound(s: set<nat>) returns (b: nat)
    ensures forall x :: x in s ==> x < b
  {
    if s == {} {
      b := 0;
    } else {
      var x :| x in s;
      var rest := Bound(s - {x});
      b := if x < rest then rest else x + 1;
      assert s == (s - {x}) + {x};
    }
  }

  // ---- drawing any number ahead of the counter ----

  /** Only the handler `u` was added; it holds the number the counter is at. */
  ghost predicate DrawnBy(m: Machine, m': Machine, u: nat) {
    && u !in m.threads
    && m'.server.events == m.server.events
    && (forall t :: t in m.threads ==> t in m'.threads && m'.threads[t] == m.threads[t])
    && Holds(m', u, m'.server.sequence)
  }

  /** A notification gets to its number whatever fault it meets, if it is not cancelled. */
  lemma NotificationDraws(c: Config, m: Machine, u: nat, m1: Machine, m2: Machine, m3: Machine, m4: Machine)
    requires u !in m.threads && m1 == Next(c, m, Arrive(u, NOTIFY))
    requires m2 == Next(c, m1, Go(u)) && m3 == Next(c, m2, Go(u)) && m4 == Next(c, m3, Go(u))
    ensures DrawnBy(m, m4, u) && m4.server.sequence == m.server.sequence + 1
  {
    assert m2.threads[u].pc.Preparing?;
    assert m3.threads[u].pc.Recording?;
  }

  /** Without a reset, `more` adds only the handler `u`, which draws the number `n`. */
  ghost predicate Draws(c: Config, ls: seq<Label>, more: seq<Label>, u: nat, n: nat) {
    && NoResetWithin(c, ls, more)
    && DrawnBy(Run(c, ls), Run(c, ls + more), u) && Run(c, ls + more).server.sequence == n
  }

  lemma DrawNext(c: Config, ls: seq<Label>) returns (more: seq<Label>, u: nat)
    ensures Draws(c, ls, more, u, Run(c, ls).server.sequence + 1)
  {
    var m := Run(c, ls);
    u := Bound(m.threads.Keys);
    assert u !in m.threads;
    var more1 := [] + [Arrive(u, NOTIFY)];
    assert ls + [] == ls;
    OneMore(c, ls, [], Arrive(u, NOTIFY));
    OneMore(c, ls, more1, Go(u));
    OneMore(c, ls, more1 + [Go(u)], Go(u));
    OneMore(c, ls, more1 + [Go(u)] + [Go(u)], Go(u));
    more := more1 + [Go(u)] + [Go(u)] + [Go(u)];
    NotificationDraws(c, m, u, Run(c, ls + more1), Run(c, ls + (more1 + [Go(u)])),
                      Run(c, ls + (more1 + [Go(u)] + [Go(u)])), Run(c, ls + more));
  }

  lemma DrawsTwice(c: Config, ls: seq<Label>, first: seq<Label>, u: nat, k: nat, rest: seq<Label>, w: nat, n: nat)
    requires Draws(c, ls, first, u, k) && Draws(c, ls + first, rest, w, n)
    ensures Draws(c, ls, first + rest, w, n)
  {
    ResetFreeThen(c, ls, first, rest);
    assert ls + (first + rest) == (ls + first) + rest;
  }

  lemma {:induction false} DrawUpTo(c: Config, ls: seq<Label>, n: nat) returns (more: seq<Label>, u: nat)
    requires Run(c, ls).server.sequence < n
    ensures Draws(c, ls, more, u, n)
    decreases n - Run(c, ls).server.sequence
  {
    var k := Run(c, ls).server.sequence + 1;
    var first, v := DrawNext(c, ls);
    if k == n {
      more, u := first, v;
    } else {
      var rest, w := DrawUpTo(c, ls + first, n);
      DrawsTwice(c, ls, first, v, k, rest, w, n);
      more, u := first + rest, w;
    }
  }

  // ---- necessity ----

  /** A held number can be appended at once. */
  lemma AppendHeld(c: Config, ls: seq<Label>, t: nat, n: nat)
    requires Holds(Run(c, ls), t, n)
    ensures NoResetWithin(c, ls, [Go(t)])
    ensures var m, m' := Run(c, ls), Run(c, ls + [Go(t)]);
      && OnlyMoved(m, m', t)
      && m'.server.events == m.server.events + [m.threads[t].pc.event]
  {
    EveryScheduleLinearizes(c, ls);
    var m := Run(c, ls);
    assert HandlerOk(c, Accesses(c, ls), t, m.threads[t].request.call, m.threads[t].pc);
    assert ls + [] == ls && [] + [Go(t)] == [Go(t)];
    OneMore(c, ls, [], Go(t));
  }

  lemma HeldIsJournaled(c: Config, ls: seq<Label>, i: nat, t: nat, n: nat) returns (more: seq<Label>)
    requires i < |Run(c, ls).server.events| && Run(c, ls).server.events[i].sequence == n && Holds(Run(c, ls), t, n)
    ensures Repeats(c, ls, more)
  {
    AppendHeld(c, ls, t, n);
    more := [Go(t)];
    var ns := Numbers(Run(c, ls + more).server.events);
    assert ns[i] == n && ns[|ns| - 1] == n;
  }

  lemma HeldTwice(c: Config, ls: seq<Label>, t: nat, u: nat, n: nat) returns (more: seq<Label>)
    requires t != u && Holds(Run(c, ls), t, n) && Holds(Run(c, ls), u, n)
    ensures Repeats(c, ls, more)
  {
    AppendHeld(c, ls, t, n);
    var rest := HeldIsJournaled(c, ls + [Go(t)], |Run(c, ls).server.events|, u, n);
    RepeatsLater(c, ls, [Go(t)], rest);
    more := [Go(t)] + rest;
  }

  /** A number in use that the counter has yet to reach will be drawn again. */
  lemma InUseAhead(c: Config, ls: seq<Label>, n: nat) returns (more: seq<Label>)
    requires InUse(Run(c, ls), n) && n > Run(c, ls).server.sequence
    ensures Repeats(c, ls, more)
  {
    var m := Run(c, ls);
    var draws, u := DrawUpTo(c, ls, n);
    var rest;
    if i :| 0 <= i < |m.server.events| && m.server.events[i].sequence == n {
      rest := HeldIsJournaled(c, ls + draws, i, u, n);
    } else {
      var t: nat :| Holds(m, t, n);
      rest := HeldTwice(c, ls + draws, t, u, n);
    }
    RepeatsLater(c, ls, draws, rest);
    more := draws + rest;
  }

  lemma CollisionRepeats(c: Config, ls: seq<Label>) returns (more: seq<Label>)
    requires !Collisionless(Run(c, ls))
    ensures Repeats(c, ls, more)
  {
    var m := Run(c, ls);
    if i :| 0 <= i < |m.server.events| && m.server.events[i].sequence > m.server.sequence {
      more := InUseAhead(c, ls, m.server.events[i].sequence);
    } else if i, j :| 0 <= i < j < |m.server.events| && m.server.events[i].sequence == m.server.events[j].sequence {
      more := [];
      assert ls + [] == ls;
      assert Numbers(m.server.events)[i] == Numbers(m.server.events)[j];
    } else if t: nat, n: int :| Holds(m, t, n) && n > m.server.sequence {
      more := InUseAhead(c, ls, n);
    } else if t: nat, u: nat, n: int :| Holds(m, t, n) && Holds(m, u, n) && t != u {
      more := HeldTwice(c, ls, t, u, n);
    } else {
      var i, t: nat, n: int :| 0 <= i < |m.server.events| && Holds(m, t, n) && m.server.events[i].sequence == n;
      more := HeldIsJournaled(c, ls, i, t, n);
    }
  }

  // ---- the exact conditions ----

  /** At any point of any schedule. */
  lemma DistinctIffCollisionless(c: Config, ls: seq<Label>)
    ensures StaysDistinct(c, ls) <==> Collisionless(Run(c, ls))
  {
    if Collisionless(Run(c, ls)) {
      forall more | NoResetWithin(c, ls, more)
        ensures Distinct(Numbers(Run(c, ls + more).server.events))
      {
        CollisionlessStays(c, ls, more);
      }
    } else {
      var more := CollisionRepeats(c, ls);
    }
  }

  /** Where the counter stands at 0, as right after a reset zeroed it: exactly if no number is in use. */
  lemma DistinctAfterZeroingIff(c: Config, ls: seq<Label>)
    requires Run(c, ls).server.sequence == 0
    ensures StaysDistinct(c, ls) <==> NothingNumbered(Run(c, ls))
  {
    DistinctIffCollisionless(c, ls);
    SchedulesNumber(c, ls);
    var m := Run(c, ls);
    if Collisionless(m) {
      if m.server.events != [] {
        assert InUse(m, m.server.events[0].sequence);
        assert false;
      }
      forall t, n
        ensures !Holds(m, t, n)
      {
        assert Holds(m, t, n) ==> InUse(m, n);
      }
    }
  }

  /** Zeroing neither journals nor takes a number from its holder. */
  lemma ZeroingLeavesNumbers(c: Config, ls: seq<Label>)
    requires ls != [] && Last(ls).Step? && ResetPending(Run(c, Front(ls)), Last(ls).t)
    ensures Run(c, ls).server.sequence == 0
    ensures NothingNumbered(Run(c, ls)) <==> NothingNumbered(Run(c, Front(ls)))
  {
    var m, m', t := Run(c, Front(ls)), Run(c, ls), Last(ls).t;
    EveryScheduleLinearizes(c, Front(ls));
    assert HandlerOk(c, Accesses(c, Front(ls)), t, m.threads[t].request.call, m.threads[t].pc);
    StepHasEffect(c, m, Accesses(c, Front(ls)), t, Last(ls).input);
    assert forall u, n :: Holds(m', u, n) <==> Holds(m, u, n);
  }

  lemma {:induction false} TimelyPrefix(c: Config, ls: seq<Label>, k: nat)
    requires k <= |ls| && Timely(c, ls)
    ensures Timely(c, ls[..k])
  {
    if k == |ls| {
      assert ls[..k] == ls;
    } else {
      assert Front(ls)[..k] == ls[..k];
      TimelyPrefix(c, Front(ls), k);
    }
  }

  /**
   Main theorem: along a schedule, numbers stay distinct from every point on if and only if every reset in it
   zeroed the counter at a moment when the journal was empty and no handler held a number.
   */
  lemma {:induction false} DistinctIffTimely(c: Config, ls: seq<Label>)
    ensures (forall k :: 0 <= k <= |ls| ==> StaysDistinct(c, ls[..k])) <==> Timely(c, ls)
  {
    if Timely(c, ls) {
      forall k | 0 <= k <= |ls|
        ensures StaysDistinct(c, ls[..k])
      {
        TimelyPrefix(c, ls, k);
        SchedulesNumber(c, ls[..k]);
        DistinctIffCollisionless(c, ls[..k]);
      }
    }
    if ls != [] && forall k :: 0 <= k <= |ls| ==> StaysDistinct(c, ls[..k]) {
      forall k | 0 <= k <= |Front(ls)|
        ensures StaysDistinct(c, Front(ls)[..k])
      {
        assert Front(ls)[..k] == ls[..k];
      }
      DistinctIffTimely(c, Front(ls));
      assert ls[..|ls|] == ls;
      if Last(ls).Step? && ResetPending(Run(c, Front(ls)), Last(ls).t) {
        ZeroingLeavesNumbers(c, ls);
        DistinctAfterZeroingIff(c, ls);
      }
    }
  }

  // ---- requests that do not overlap ----

  /** Handler `b`, which has yet to arrive, journals a number up to `n` if the run goes on like this. */
  ghost predicate NumberedUpTo(c: Config, ls: seq<Label>, more: seq<Label>, b: nat, n: nat) {
    && NoResetWithin(c, ls, more) && b !in Run(c, ls).threads
    && HasJournaled(Run(c, ls + more), b) && NumberOf(Run(c, ls + more), b) <= n
  }

  /** Every later request has a number greater than `n` exactly if the counter has reached `n`. */
  lemma LaterNumbersAreGreaterIff(c: Config, ls: seq<Label>, n: nat)
    ensures (forall more, b :: !NumberedUpTo(c, ls, more, b, n)) <==> n <= Run(c, ls).server.sequence
  {
    if n <= Run(c, ls).server.sequence {
      forall more, b
        ensures !NumberedUpTo(c, ls, more, b, n)
      {
        if NoResetWithin(c, ls, more) && b !in Run(c, ls).threads && HasJournaled(Run(c, ls + more), b) {
          LaterNumberIsGreater(c, ls, more, b);
        }
      }
    } else {
      var draw, b := DrawNext(c, ls);
      AppendHeld(c, ls + draw, b, Run(c, ls).server.sequence + 1);
      ResetFreeThen(c, ls, draw, [Go(b)]);
      assert ls + (draw + [Go(b)]) == (ls + draw) + [Go(b)];
      AppendedNumber(c, ls + draw, b, Run(c, ls).server.sequence + 1);
      assert NumberedUpTo(c, ls, draw + [Go(b)], b, n);
    }
  }

  lemma LaterNumberIsGreater(c: Config, ls: seq<Label>, more: seq<Label>, b: nat)
    requires NoResetWithin(c, ls, more) && b !in Run(c, ls).threads && HasJournaled(Run(c, ls + more), b)
    ensures NumberOf(Run(c, ls + more), b) > Run(c, ls).server.sequence
  {
    LaterRequestsComeLater(c, ls, more);
    assert ComesLater(Run(c, ls), Run(c, ls + more), b);
  }

  lemma AppendedNumber(c: Config, ls: seq<Label>, t: nat, n: nat)
    requires Holds(Run(c, ls), t, n)
    ensures HasJournaled(Run(c, ls + [Go(t)]), t) && NumberOf(Run(c, ls + [Go(t)]), t) == n
  {
    EveryScheduleLinearizes(c, ls);
    assert HandlerOk(c, Accesses(c, ls), t, Run(c, ls).threads[t].request.call, Run(c, ls).threads[t].pc);
    RunAppend(c, ls, Go(t));
  }
}
