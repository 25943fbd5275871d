/**
 Faults are bounded. The control plane arms an operation for a number of requests; every request
 of that operation takes one snapshot until the budget is used up, replaced or cleared. Nothing is
 handed out twice or lost, under any interleaving.
 */
module FaultBudget {
  import opened Wrappers
  import opened FixtureState
  import opened HandlerProgram
  import opened Schedule

  /** What happens to the fault table, in the order of its mutex sections. */
  datatype Action =
    | Arming(plan: FaultPlan, overwritten: int)            // an accepted arm, and the budget it replaced
    | Handing(operation: string, snapshot: FaultSnapshot)  // a request takes a snapshot
    | Finding(operation: string)                           // a request finds nothing armed
    | Wiping(faults: Faults)                               // clear or reset, and what it discarded

  function StoredTimes(faults: Faults, operation: string): int {
    if operation in faults then faults[operation].times else 0
  }

  /** The snapshot shows the plan's behaviour. */
  predicate ShowsPlan(f: FaultSnapshot, plan: FaultPlan) {
    && f.status == plan.status && f.delayMillis == plan.delayMillis
    && f.closeAfterCommit == plan.closeAfterCommit && f.malformedJson == plan.malformedJson
  }

  ghost predicate Stocked(faults: Faults) {
    forall operation :: operation in faults ==>
      faults[operation].times >= 1 && faults[operation].operation == operation && Acceptable(faults[operation])
  }

  function Acted(m: Machine, l: Label): seq<Action> {
    if l.Arrive? || l.t !in m.threads then []
    else
      var call, pc, faults := m.threads[l.t].request.call, m.threads[l.t].pc, m.server.faults;
      if call.Federated() && pc.TakingFault? then
        match TakeFault(faults, call.Operation()).1
        case Some(snapshot) => [Handing(call.Operation(), snapshot)]
        case None => [Finding(call.Operation())]
      else if pc.Controlling? && (call.ClearFaults? || call.Reset?) then [Wiping(faults)]
      else if pc.Controlling? && call.ArmFault? && call.plan.Some? && Acceptable(call.plan.value) then
        [Arming(call.plan.value, StoredTimes(faults, call.plan.value.operation))]
      else []
  }

  function Actions(c: Config, ls: seq<Label>): seq<Action> {
    if ls == [] then [] else Actions(c, Front(ls)) + Acted(Run(c, Front(ls)), Last(ls))
  }

  // ---- sums over the actions ----

  function TimesArmedBy(a: Action, operation: string): int {
    if a.Arming? && a.plan.operation == operation then a.plan.times else 0
  }

  function TimesDiscardedBy(a: Action, operation: string): int {
    match a
    case Arming(plan, overwritten) => if plan.operation == operation then overwritten else 0
    case Wiping(faults) => StoredTimes(faults, operation)
    case _ => 0
  }

  function ArmedTimes(actions: seq<Action>, operation: string): int {
    if actions == [] then 0
    else ArmedTimes(Front(actions), operation) + TimesArmedBy(Last(actions), operation)
  }

  function HandedOut(actions: seq<Action>, operation: string): nat {
    if actions == [] then 0
    else HandedOut(Front(actions), operation) + if IsHanding(Last(actions), operation) then 1 else 0
  }

  function Discarded(actions: seq<Action>, operation: string): int {
    if actions == [] then 0
    else Discarded(Front(actions), operation) + TimesDiscardedBy(Last(actions), operation)
  }

  predicate IsHanding(a: Action, operation: string) {
    a.Handing? && a.operation == operation
  }

  // ---- the arm in force ----

  /** The accepted arm an operation is under: the latest, unless faults were wiped after it. */
  function InForce(actions: seq<Action>, operation: string): Option<FaultPlan> {
    if actions == [] then None
    else match Last(actions)
      case Arming(plan, _) => if plan.operation == operation then Some(plan) else InForce(Front(actions), operation)
      case Wiping(_) => None
      case _ => InForce(Front(actions), operation)
  }

  /** Snapshots taken since that arm. */
  function HandedSince(actions: seq<Action>, operation: string): nat {
    if actions == [] then 0
    else match Last(actions)
      case Arming(plan, _) => if plan.operation == operation then 0 else HandedSince(Front(actions), operation)
      case Wiping(_) => 0
      case _ => HandedSince(Front(actions), operation) + if IsHanding(Last(actions), operation) then 1 else 0
  }

  /** The fault table, told from the actions alone. */
  ghost predicate TableMatches(faults: Faults, actions: seq<Action>, operation: string) {
    match InForce(actions, operation)
    case None => operation !in faults
    case Some(plan) =>
      var used := HandedSince(actions, operation);
      && plan.operation == operation && used <= plan.times
      && (operation in faults <==> used < plan.times)
      && (operation in faults ==> faults[operation] == plan.(times := plan.times - used))
  }

  /** A request's section on the fault table, described by the arm in force. */
  ghost predicate Explained(actions: seq<Action>, k: nat)
    requires k < |actions|
  {
    var before := actions[..k];
    match actions[k]
    case Handing(operation, snapshot) =>
      && InForce(before, operation).Some?
      && HandedSince(before, operation) < InForce(before, operation).value.times
      && ShowsPlan(snapshot, InForce(before, operation).value)
    case Finding(operation) =>
      InForce(before, operation).Some? ==> HandedSince(before, operation) == InForce(before, operation).value.times
    case _ => true
  }

  ghost predicate Accounted(faults: Faults, actions: seq<Action>, operation: string) {
    ArmedTimes(actions, operation)
    == HandedOut(actions, operation) + StoredTimes(faults, operation) + Discarded(actions, operation)
  }

  // ---- one action ----

  ghost predicate Effect(faults: Faults, a: Action, faults': Faults) {
    match a
    case Arming(plan, overwritten) =>
      && Acceptable(plan) && faults' == faults[plan.operation := plan]
      && overwritten == StoredTimes(faults, plan.operation)
    case Handing(operation, snapshot) =>
      operation in faults && TakeFault(faults, operation) == (faults', Some(snapshot))
    case Finding(operation) => operation !in faults && faults' == faults
    case Wiping(discarded) => discarded == faults && faults' == map[]
  }

  lemma ActionKeepsTable(faults: Faults, actions: seq<Action>, a: Action, faults': Faults, operation: string)
    requires Stocked(faults) && Effect(faults, a, faults') && TableMatches(faults, actions, operation)
    ensures TableMatches(faults', actions + [a], operation)
  {
    FrontOfAppend(actions, a);
  }

  lemma ActionKeepsAccount(faults: Faults, actions: seq<Action>, a: Action, faults': Faults, operation: string)
    requires Stocked(faults) && Effect(faults, a, faults') && Accounted(faults, actions, operation)
    ensures Accounted(faults', actions + [a], operation)
  {
    FrontOfAppend(actions, a);
  }

  lemma ActionKeepsStock(faults: Faults, a: Action, faults': Faults)
    requires Stocked(faults) && Effect(faults, a, faults')
    ensures Stocked(faults')
  {
  }

  lemma ActionIsExplained(faults: Faults, actions: seq<Action>, a: Action, faults': Faults)
    requires Effect(faults, a, faults') && forall operation :: TableMatches(faults, actions, operation)
    ensures Explained(actions + [a], |actions|)
  {
    assert (actions + [a])[..|actions|] == actions;
    match a
    case Handing(operation, _) => assert TableMatches(faults, actions, operation);
    case Finding(operation) => assert TableMatches(faults, actions, operation);
    case _ =>
  }

  /** A label acts on the fault table once, or not at all. */
  lemma LabelEffect(c: Config, m: Machine, l: Label)
    requires Stocked(m.server.faults)
    ensures Acted(m, l) == [] ==> Next(c, m, l).server.faults == m.server.faults
    ensures Acted(m, l) != [] ==>
      |Acted(m, l)| == 1 && Effect(m.server.faults, Acted(m, l)[0], Next(c, m, l).server.faults)
  {
  }

  lemma {:induction false} TableAlwaysMatches(c: Config, ls: seq<Label>)
    ensures Stocked(Run(c, ls).server.faults)
    ensures forall operation :: TableMatches(Run(c, ls).server.faults, Actions(c, ls), operation)
    ensures forall operation :: Accounted(Run(c, ls).server.faults, Actions(c, ls), operation)
  {
    if ls != [] {
      var m, actions, l := Run(c, Front(ls)), Actions(c, Front(ls)), Last(ls);
      var faults, faults' := m.server.faults, Run(c, ls).server.faults;
      TableAlwaysMatches(c, Front(ls));
      LabelEffect(c, m, l);
      if Acted(m, l) == [] {
        assert Actions(c, ls) == actions;
      } else {
        var a := Acted(m, l)[0];
        assert Actions(c, ls) == actions + [a];
        ActionKeepsStock(faults, a, faults');
        forall operation
          ensures TableMatches(faults', actions + [a], operation) && Accounted(faults', actions + [a], operation)
        {
          assert TableMatches(faults, actions, operation) && Accounted(faults, actions, operation);
          ActionKeepsTable(faults, actions, a, faults', operation);
          ActionKeepsAccount(faults, actions, a, faults', operation);
        }
      }
    }
  }

  /**
   Conservation, at every point of every schedule and for every operation: the Times of all accepted
   arms equal the snapshots handed out, plus what is still stored, plus what re-arming, clearing and
   resetting threw away; and nothing stored is spent or empty.
   */
  lemma BudgetIsConserved(c: Config, ls: seq<Label>, operation: string)
    ensures ArmedTimes(Actions(c, ls), operation) ==
      HandedOut(Actions(c, ls), operation) + StoredTimes(Run(c, ls).server.faults, operation) +
            Discarded(Actions(c, ls), operation)
    ensures operation in Run(c, ls).server.faults ==> Run(c, ls).server.faults[operation].times >= 1
  {
    TableAlwaysMatches(c, ls);
    assert Accounted(Run(c, ls).server.faults, Actions(c, ls), operation);
  }

  /**
   Every snapshot carries the behaviour of the arm in force and is within its Times; and a request that
   found nothing armed came when no arm was in force or its Times were used up.
   */
  lemma {:induction false} SnapshotsFollowTheArmInForce(c: Config, ls: seq<Label>, k: nat)
    requires k < |Actions(c, ls)|
    ensures Explained(Actions(c, ls), k)
  {
    var m, actions, l := Run(c, Front(ls)), Actions(c, Front(ls)), Last(ls);
    TableAlwaysMatches(c, Front(ls));
    LabelEffect(c, m, l);
    if k < |actions| {
      SnapshotsFollowTheArmInForce(c, Front(ls), k);
      assert Actions(c, ls)[..k] == actions[..k];
    } else {
      assert Actions(c, ls) == actions + [Acted(m, l)[0]];
      ActionIsExplained(m.server.faults, actions, Acted(m, l)[0], Run(c, ls).server.faults);
    }
  }

  // ---- which requests an arm hits ----

  /** A request's turn at the fault table. */
  predicate IsTurn(a: Action, operation: string) {
    (a.Handing? || a.Finding?) && a.operation == operation
  }

  predicate Replaces(a: Action, operation: string) {
    a.Wiping? || (a.Arming? && a.plan.operation == operation)
  }

  /** Requests of the operation among the actions from `i` up to `k`. */
  function Turns(actions: seq<Action>, operation: string, i: nat, k: nat): nat
    requires i <= k <= |actions|
  {
    if i == k then 0 else Turns(actions, operation, i, k - 1) + if IsTurn(actions[k - 1], operation) then 1 else 0
  }

  lemma {:induction false} UsedUpInOrder(actions: seq<Action>, i: nat, k: nat)
    requires i < k <= |actions| && actions[i].Arming? && Acceptable(actions[i].plan)
    requires forall j :: i < j < k ==> !Replaces(actions[j], actions[i].plan.operation)
    requires forall j :: 0 <= j < |actions| ==> Explained(actions, j)
    ensures var plan := actions[i].plan; var turns := Turns(actions, plan.operation, i + 1, k);
      && InForce(actions[..k], plan.operation) == Some(plan)
      && HandedSince(actions[..k], plan.operation) == if turns < plan.times then turns else plan.times
  {
    assert Front(actions[..k]) == actions[..k - 1];
    if k > i + 1 {
      UsedUpInOrder(actions, i, k - 1);
      assert Explained(actions, k - 1);
      assert !Replaces(actions[k - 1], actions[i].plan.operation);
    }
  }

  lemma {:induction false} ArmsAreAcceptable(c: Config, ls: seq<Label>, i: nat)
    requires i < |Actions(c, ls)| && Actions(c, ls)[i].Arming?
    ensures Acceptable(Actions(c, ls)[i].plan)
  {
    if i < |Actions(c, Front(ls))| {
      ArmsAreAcceptable(c, Front(ls), i);
    }
  }

  /**
   An arm with Times n hits exactly the next n requests of its operation: as long as it is not replaced
   or wiped, a request is handed its fault iff fewer than n requests came since the arm.
   */
  lemma ArmHitsExactlyTheNextRequests(c: Config, ls: seq<Label>, i: nat, k: nat)
    requires i < k < |Actions(c, ls)| && Actions(c, ls)[i].Arming?
    requires forall j :: i < j < k ==> !Replaces(Actions(c, ls)[j], Actions(c, ls)[i].plan.operation)
    requires IsTurn(Actions(c, ls)[k], Actions(c, ls)[i].plan.operation)
    ensures var actions := Actions(c, ls); var plan := actions[i].plan;
      var hit := Turns(actions, plan.operation, i + 1, k) < plan.times;
      if hit then actions[k].Handing? && actions[k].operation == plan.operation && ShowsPlan(actions[k].snapshot, plan)
      else actions[k] == Finding(plan.operation)
  {
    var actions := Actions(c, ls);
    forall j | 0 <= j < |actions|
      ensures Explained(actions, j)
    {
      SnapshotsFollowTheArmInForce(c, ls, j);
    }
    ArmsAreAcceptable(c, ls, i);
    UsedUpInOrder(actions, i, k);
    assert Explained(actions, k);
  }
}
