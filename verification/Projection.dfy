/**
 * Projecting subscription events onto the stored mailbox plan under a watermark
 * (packages/billing/src/mailbox-lifecycle.ts:194-474).
 *
 * A delivery carries the subscription as it was re-fetched under the Customer
 * lock. Deliveries come in any order, any number of times, with management
 * read-backs (no event time) and internal grants between them.
 */
module Projection {
  import opened Common

  datatype PlanStatus = Inactive | Trialing | Active | PastDue | Canceled

  predicate Occupied(status: PlanStatus) {
    status in {Active, Trialing, PastDue}
  }

  /** The stored plan. An internal grant has neither a subscription nor a creation time. */
  datatype Plan = Plan(
    status: PlanStatus, seats: nat, subscription: Option<string>, created: Option<int>,
    lastEvent: Option<int>, periodStart: int)

  /** What the price catalog and ownership checks make of the subscription. */
  datatype Projected = Projected(status: PlanStatus, seats: nat, periodStart: int)

  datatype Delivery = Delivery(
    customerKnown: bool, systemTeam: bool, subscription: string, created: int, event: Option<int>,
    projected: Option<Projected>, terminal: bool, paid: bool, reductionUntil: Option<int>)

  datatype Reason = Applied | Revoked | UnknownCustomer | InvalidProjection | StaleEvent | Superseded | SystemTeam

  /** A whole positive second that fits the column. */
  predicate Epoch(value: int) {
    0 < value <= 2147483647
  }

  predicate IsCurrent(plan: Option<Plan>, subscription: string) {
    plan.Some? && plan.value.subscription == Some(subscription)
  }

  predicate Stale(plan: Option<Plan>, d: Delivery) {
    d.event.Some? && plan.Some? && plan.value.lastEvent.Some? && d.event.value < plan.value.lastEvent.value
  }

  /** A subscription created no later than the stored one, and not the stored one itself. */
  predicate Superseding(plan: Option<Plan>, d: Delivery) {
    && plan.Some? && plan.value.created.Some? && !IsCurrent(plan, d.subscription)
    && (!Epoch(d.created) || d.created <= plan.value.created.value)
  }

  predicate UnpaidIncrease(plan: Option<Plan>, d: Delivery, p: Projected) {
    && !d.terminal && IsCurrent(plan, d.subscription)
    && 0 < plan.value.seats < p.seats && !d.paid
  }

  predicate EarlyReduction(plan: Option<Plan>, d: Delivery, p: Projected) {
    && plan.Some? && d.reductionUntil.Some? && p.status in {Active, Trialing}
    && p.seats < plan.value.seats && p.periodStart < d.reductionUntil.value
  }

  function Watermark(plan: Option<Plan>, d: Delivery): Option<int> {
    if d.event.Some? then d.event else if plan.Some? then plan.value.lastEvent else None
  }

  /** One delivery, branch by branch. */
  function Apply(plan: Option<Plan>, d: Delivery): (Option<Plan>, Reason) {
    if !d.customerKnown then (plan, UnknownCustomer)
    else if d.systemTeam then (plan, SystemTeam)
    else if d.event.None? && !IsCurrent(plan, d.subscription) then (plan, InvalidProjection)
    else if Stale(plan, d) then (plan, StaleEvent)
    else if Superseding(plan, d) then (plan, Superseded)
    else
      var creationMatches := !IsCurrent(plan, d.subscription) || plan.value.created in {None, Some(d.created)};
      if !Epoch(d.created) || !creationMatches || d.projected.None? then
        if !IsCurrent(plan, d.subscription) then (plan, InvalidProjection)
        else (Some(plan.value.(status := Inactive, seats := 0, lastEvent := Watermark(plan, d))), Revoked)
      else
        var p := d.projected.value;
        if plan.Some? && !IsCurrent(plan, d.subscription) && Occupied(plan.value.status) then (plan, Superseded)
        else if UnpaidIncrease(plan, d, p) || EarlyReduction(plan, d, p) then (plan, InvalidProjection)
        else
          (Some(Plan(p.status, p.seats, Some(d.subscription), Some(d.created), Watermark(plan, d), p.periodStart)),
           Reason.Applied)
  }

  // ---- Which deliveries are applied ---------------------------------------

  predicate Bound(plan: Option<Plan>, subscription: string) {
    plan.Some? && plan.value.subscription == Some(subscription)
  }

  /** The delivery may speak for the row at all: a known customer of an ordinary team, and a
      timed event, or a read-back of the row's own subscription. */
  predicate Admitted(plan: Option<Plan>, d: Delivery) {
    d.customerKnown && !d.systemTeam && (d.event.Some? || Bound(plan, d.subscription))
  }

  /** A later event was applied already. */
  predicate Late(plan: Option<Plan>, d: Delivery) {
    d.event.Some? && plan.Some? && plan.value.lastEvent.Some? && d.event.value < plan.value.lastEvent.value
  }

  /** The row names another subscription, and this one is not known to be younger. */
  predicate Outdated(plan: Option<Plan>, d: Delivery) {
    && plan.Some? && plan.value.created.Some? && !Bound(plan, d.subscription)
    && !(0 < d.created <= 2_147_483_647 && plan.value.created.value < d.created)
  }

  /** The subscription can be projected: a catalog price, an owner, and the creation time
      the row knows it by. */
  predicate Sound(plan: Option<Plan>, d: Delivery) {
    && d.projected.Some? && 0 < d.created <= 2_147_483_647
    && (Bound(plan, d.subscription) && plan.value.created.Some? ==> plan.value.created.value == d.created)
  }

  /** The row is taken by another subscription or by a grant. */
  predicate Taken(plan: Option<Plan>, d: Delivery) {
    && plan.Some? && !Bound(plan, d.subscription)
    && (plan.value.status.Active? || plan.value.status.Trialing? || plan.value.status.PastDue?)
  }

  predicate GrowsUnpaid(plan: Option<Plan>, d: Delivery)
    requires d.projected.Some?
  {
    Bound(plan, d.subscription) && 0 < plan.value.seats < d.projected.value.seats && !d.paid && !d.terminal
  }

  /** Fewer seats before the end of the period a reduction is scheduled for. */
  predicate ShrinksEarly(plan: Option<Plan>, d: Delivery)
    requires d.projected.Some?
  {
    var p := d.projected.value;
    && plan.Some? && d.reductionUntil.Some? && p.periodStart < d.reductionUntil.value
    && (p.status.Active? || p.status.Trialing?) && p.seats < plan.value.seats
  }

  /** The delivery becomes the row. */
  predicate Takes(plan: Option<Plan>, d: Delivery) {
    && Admitted(plan, d) && !Late(plan, d) && !Outdated(plan, d) && Sound(plan, d) && !Taken(plan, d)
    && !GrowsUnpaid(plan, d) && !ShrinksEarly(plan, d)
  }

  /** It takes the seats of the row's own subscription away. */
  predicate Revokes(plan: Option<Plan>, d: Delivery) {
    Admitted(plan, d) && !Late(plan, d) && Bound(plan, d.subscription) && !Sound(plan, d)
  }

  /** The answer to a delivery, case by case. */
  function Verdict(plan: Option<Plan>, d: Delivery): Reason {
    if Takes(plan, d) then Reason.Applied
    else if Revokes(plan, d) then Revoked
    else if !d.customerKnown then UnknownCustomer
    else if d.systemTeam then SystemTeam
    else if Admitted(plan, d) && Late(plan, d) then StaleEvent
    else if Admitted(plan, d) && (Outdated(plan, d) || (Sound(plan, d) && Taken(plan, d))) then Superseded
    else InvalidProjection
  }

  /** The row after a delivery. */
  function RowAfter(plan: Option<Plan>, d: Delivery): Option<Plan> {
    var mark := if d.event.Some? || plan.None? then d.event else plan.value.lastEvent;
    if Takes(plan, d) then
      var p := d.projected.value;
      Some(Plan(p.status, p.seats, Some(d.subscription), Some(d.created), mark, p.periodStart))
    else if Revokes(plan, d) then
      Some(Plan(Inactive, 0, plan.value.subscription, plan.value.created, mark, plan.value.periodStart))
    else plan
  }

  /** A delivery is applied, revokes or is turned down exactly by these conditions. */
  lemma {:induction false} AppliesExactly(plan: Option<Plan>, d: Delivery)
    ensures Apply(plan, d) == (RowAfter(plan, d), Verdict(plan, d))
  {}

  /** In particular the first sound event of a team is always applied, and so is a younger
      subscription's where the row is not taken. */
  lemma {:induction false} SoundEventsAreApplied(plan: Option<Plan>, d: Delivery)
    requires d.customerKnown && !d.systemTeam && d.event.Some? && Epoch(d.created) && d.projected.Some?
    requires plan.None?
             || (plan.value.status in {Inactive, Canceled} && plan.value.subscription != Some(d.subscription))
    requires plan.Some? && plan.value.created.Some? ==> plan.value.created.value < d.created
    requires plan.Some? && plan.value.lastEvent.Some? ==> plan.value.lastEvent.value <= d.event.value
    requires plan.Some? && plan.value.seats > d.projected.value.seats ==> d.reductionUntil.None?
    ensures Apply(plan, d) == (Some(Plan(d.projected.value.status, d.projected.value.seats, Some(d.subscription),
                                         Some(d.created), d.event, d.projected.value.periodStart)), Reason.Applied)
  {}

  // ---- Every order of deliveries ------------------------------------------

  /** Internal grants need an empty row and leave the identifiers empty; revoking one
      only changes status and seats (packages/core/src/mailbox-internal-license.ts:161-256). */
  datatype Action = Deliver(delivery: Delivery) | Grant(seats: nat, periodStart: int) | RevokeGrant

  function Next(plan: Option<Plan>, a: Action): Option<Plan> {
    match a
    case Deliver(d) => Apply(plan, d).0
    case Grant(seats, periodStart) =>
      if plan.Some? then plan else Some(Plan(Active, seats, None, None, None, periodStart))
    case RevokeGrant =>
      if plan.None? || plan.value.subscription.Some? then plan
      else Some(plan.value.(status := Canceled, seats := 0))
  }

  function Run(plan: Option<Plan>, actions: seq<Action>): Option<Plan>
    decreases actions
  {
    if actions == [] then plan else Run(Next(plan, actions[0]), actions[1..])
  }

  /** A subscription's creation time never changes at the provider. */
  ghost predicate Consistent(actions: seq<Action>, createdOf: map<string, int>) {
    forall k :: 0 <= k < |actions| && actions[k].Deliver? ==>
      && actions[k].delivery.subscription in createdOf
      && createdOf[actions[k].delivery.subscription] == actions[k].delivery.created
  }

  /** A stored subscription comes with its creation time. */
  ghost predicate Inv(plan: Option<Plan>, createdOf: map<string, int>) {
    plan.Some? && plan.value.subscription.Some? ==>
      && plan.value.created.Some?
      && plan.value.subscription.value in createdOf
      && plan.value.created.value == createdOf[plan.value.subscription.value]
  }

  function CreatedOf(plan: Option<Plan>): int {
    if plan.Some? && plan.value.created.Some? then plan.value.created.value else 0
  }

  function WatermarkOf(plan: Option<Plan>): int {
    if plan.Some? && plan.value.lastEvent.Some? then plan.value.lastEvent.value else 0
  }

  /** A grant fills only an empty row, and ending one touches no subscription's row. */
  lemma {:induction false} GrantsExactly(plan: Option<Plan>, seats: nat, periodStart: int)
    ensures Next(plan, Grant(seats, periodStart)) ==
      if plan.None? then Some(Plan(Active, seats, None, None, None, periodStart)) else plan
    ensures Next(plan, RevokeGrant) ==
      if plan.Some? && plan.value.subscription.None?
      then Some(Plan(Canceled, 0, None, plan.value.created, plan.value.lastEvent, plan.value.periodStart)) else plan
  {}

  /** What one action may do: the watermark holds or rises, another subscription enters
      only with a strictly later creation time, and never over an occupied plan. */
  lemma StepIsMonotone(plan: Option<Plan>, a: Action, createdOf: map<string, int>)
    requires Inv(plan, createdOf) && Consistent([a], createdOf)
    requires a.Deliver? && a.delivery.event.Some? ==> Epoch(a.delivery.event.value)
    ensures var plan' := Next(plan, a);
      && Inv(plan', createdOf)
      && WatermarkOf(plan) <= WatermarkOf(plan')
      && CreatedOf(plan) <= CreatedOf(plan')
      && (plan.Some? ==> plan'.Some?)
      && (plan.Some? && plan.value.subscription.Some? ==>
            plan'.value.subscription == plan.value.subscription || CreatedOf(plan) < CreatedOf(plan'))
      && (plan.Some? && Occupied(plan.value.status) ==> plan'.value.subscription == plan.value.subscription)
  {
    if a.Deliver? { assert [a][0] == a; }
  }

  ghost predicate Timed(actions: seq<Action>) {
    forall k :: 0 <= k < |actions| && actions[k].Deliver? && actions[k].delivery.event.Some? ==>
      Epoch(actions[k].delivery.event.value)
  }

  /** Over any run the watermark and the creation time only rise, and once the creation
      time has risen past a subscription's own, that subscription is never bound again. */
  lemma {:induction false} RunIsMonotone(plan: Option<Plan>, actions: seq<Action>, createdOf: map<string, int>)
    requires Inv(plan, createdOf) && Consistent(actions, createdOf) && Timed(actions)
    ensures var plan' := Run(plan, actions);
      && Inv(plan', createdOf)
      && WatermarkOf(plan) <= WatermarkOf(plan')
      && CreatedOf(plan) <= CreatedOf(plan')
      && (plan.Some? ==> plan'.Some?)
      && (plan.Some? && plan.value.subscription.Some? ==>
            plan'.value.subscription == plan.value.subscription || CreatedOf(plan) < CreatedOf(plan'))
    decreases actions
  {
    if actions != [] {
      assert [actions[0]][0] == actions[0];
      StepIsMonotone(plan, actions[0], createdOf);
      RunIsMonotone(Next(plan, actions[0]), actions[1..], createdOf);
    }
  }

  /** A replaced subscription never returns, whatever is delivered afterwards. */
  lemma ReplacedNeverReturns(plan: Option<Plan>, first: seq<Action>, second: seq<Action>, createdOf: map<string, int>)
    requires Inv(plan, createdOf) && Consistent(first, createdOf) && Consistent(second, createdOf)
    requires Timed(first) && Timed(second)
    requires plan.Some? && plan.value.subscription.Some?
    requires var between := Run(plan, first); between.None? || between.value.subscription != plan.value.subscription
    ensures Run(Run(plan, first), second).Some?
    ensures Run(Run(plan, first), second).value.subscription != plan.value.subscription
  {
    RunIsMonotone(plan, first, createdOf);
    RunIsMonotone(Run(plan, first), second, createdOf);
  }

  /** While the plan stays occupied in every state of the run, its holder stays the same. */
  lemma {:induction false} OccupiedPlanIsNeverDisplaced(plan: Option<Plan>, actions: seq<Action>)
    requires plan.Some?
    requires forall k :: 0 <= k < |actions| ==>
      var p := Run(plan, actions[..k]); p.Some? && Occupied(p.value.status)
    ensures Run(plan, actions).Some? && Run(plan, actions).value.subscription == plan.value.subscription
  {
    if actions != [] {
      var n := |actions| - 1;
      forall k | 0 <= k < n
        ensures var p := Run(plan, actions[..n][..k]); p.Some? && Occupied(p.value.status)
      {
        assert actions[..n][..k] == actions[..k];
      }
      OccupiedPlanIsNeverDisplaced(plan, actions[..n]);
      RunSnoc(plan, actions[..n], actions[n]);
      assert actions[..n] + [actions[n]] == actions;
    }
  }

  lemma {:induction false} RunSnoc(plan: Option<Plan>, actions: seq<Action>, a: Action)
    ensures Run(plan, actions + [a]) == Next(Run(plan, actions), a)
    decreases actions
  {
    if actions == [] {
      assert actions + [a] == [a] && [a][1..] == [];
      assert Run(plan, [a]) == Run(Next(plan, a), []);
    } else {
      assert (actions + [a])[1..] == actions[1..] + [a];
      RunSnoc(Next(plan, actions[0]), actions[1..], a);
    }
  }

  /** Delivering the same event again changes nothing more. */
  lemma RedeliveryIsIdempotent(plan: Option<Plan>, d: Delivery)
    ensures Apply(Apply(plan, d).0, d).0 == Apply(plan, d).0
  {}

  // ---- Seats and payments -------------------------------------------------

  /** A delivery for the subscription that shows a payment, or the contract over, for at
      least so many seats. */
  predicate Backs(a: Action, subscription: string, seats: nat) {
    && a.Deliver? && a.delivery.subscription == subscription && (a.delivery.paid || a.delivery.terminal)
    && a.delivery.projected.Some? && a.delivery.projected.value.seats >= seats
  }

  /** One delivery can give a bound plan more seats with neither a payment nor the end of
      the contract exactly when the plan stands at zero seats, as a revocation leaves it. */
  lemma {:induction false} UnpaidGrowthExactly(plan: Option<Plan>, subscription: string)
    requires Bound(plan, subscription) && plan.value.created.Some? && Epoch(plan.value.created.value)
    ensures (exists d: Delivery :: d.subscription == subscription && !d.paid && !d.terminal
                         && Apply(plan, d).0.value.seats > plan.value.seats)
      <==> plan.value.seats == 0
  {
    if plan.value.seats == 0 {
      var d := Unpaid(plan.value, subscription, 1);
      assert Apply(plan, d).0.value.seats == 1;
    }
  }

  /** The subscription as it stands, active with so many seats and nothing paid. */
  function Unpaid(plan: Plan, subscription: string, seats: nat): Delivery
    requires plan.created.Some?
  {
    Delivery(true, false, subscription, plan.created.value, plan.lastEvent,
             Some(Projected(Active, seats, plan.periodStart)), false, false, None)
  }

  /** Over any run, a plan that ends under the subscription it began with has no more seats
      than it began with or than one payment of the run showed, unless it stood at zero
      seats on the way. */
  lemma {:induction false} SeatsGrowOnlyPaid(plan: Option<Plan>, actions: seq<Action>, subscription: string,
                                             createdOf: map<string, int>)
    requires Inv(plan, createdOf) && Consistent(actions, createdOf) && Timed(actions)
    requires Bound(plan, subscription) && Bound(Run(plan, actions), subscription)
    requires Run(plan, actions).value.seats > plan.value.seats
    ensures
      || (exists k :: 0 <= k < |actions| && Backs(actions[k], subscription, Run(plan, actions).value.seats))
      || (exists k :: 0 <= k < |actions| && Bound(Run(plan, actions[..k]), subscription)
            && Run(plan, actions[..k]).value.seats == 0)
  {
    if actions != [] {
      var n := |actions| - 1;
      var fewer, last := actions[..n], actions[n];
      var before, end := Run(plan, fewer), Run(plan, actions);
      assert fewer + [last] == actions;
      RunSnoc(plan, fewer, last);
      StaysBoundBefore(plan, fewer, last, subscription, createdOf);
      if before.value.seats >= end.value.seats {
        SeatsGrowOnlyPaid(plan, fewer, subscription, createdOf);
        if k :| 0 <= k < n && Backs(fewer[k], subscription, before.value.seats) {
          assert Backs(actions[k], subscription, end.value.seats);
        } else {
          var k :| 0 <= k < n && Bound(Run(plan, fewer[..k]), subscription) && Run(plan, fewer[..k]).value.seats == 0;
          assert fewer[..k] == actions[..k];
        }
      } else if before.value.seats > 0 {
        assert Backs(actions[n], subscription, end.value.seats);
      }
    }
  }

  /** A plan bound before and after a run was bound at its last step too. */
  lemma StaysBoundBefore(plan: Option<Plan>, fewer: seq<Action>, last: Action, subscription: string,
                         createdOf: map<string, int>)
    requires Inv(plan, createdOf) && Consistent(fewer + [last], createdOf) && Timed(fewer + [last])
    requires Bound(plan, subscription) && Bound(Next(Run(plan, fewer), last), subscription)
    ensures Bound(Run(plan, fewer), subscription) && Consistent(fewer, createdOf) && Timed(fewer)
  {
    var all := fewer + [last];
    assert forall k :: 0 <= k < |fewer| ==> all[k] == fewer[k];
    assert all[|fewer|] == last;
    RunIsMonotone(plan, fewer, createdOf);
    StepIsMonotone(Run(plan, fewer), last, createdOf);
  }

  /** Five seats, a delivery no catalog price explains, then ten seats nobody paid for. */
  lemma {:induction false} RevokedSeatsReturnUnpaid()
    ensures var plan := Some(Plan(Active, 5, Some("sub_a"), Some(10), Some(20), 10));
      var revoking := Delivery(true, false, "sub_a", 10, Some(21), None, false, false, None);
      var growing := Delivery(true, false, "sub_a", 10, Some(22), Some(Projected(Active, 10, 10)), false, false, None);
      && UnpaidIncrease(plan, growing, growing.projected.value)
      && Run(plan, [Deliver(revoking), Deliver(growing)])
         == Some(Plan(Active, 10, Some("sub_a"), Some(10), Some(22), 10))
  {
    var plan := Some(Plan(Active, 5, Some("sub_a"), Some(10), Some(20), 10));
    var revoking := Delivery(true, false, "sub_a", 10, Some(21), None, false, false, None);
    var growing := Delivery(true, false, "sub_a", 10, Some(22), Some(Projected(Active, 10, 10)), false, false, None);
    var run := [Deliver(revoking), Deliver(growing)];
    assert run[1..] == [Deliver(growing)] && run[1..][1..] == [];
    var middle := Next(plan, run[0]);
    assert Run(middle, run[1..]) == Run(Next(middle, run[1]), []);
  }

  /** The plan row and the method that applies one delivery to it. */
  class PlanStore {
    var plan: Option<Plan>

    constructor ()
      ensures plan == None
    {
      plan := None;
    }

    /** A late event, an older subscription and one that would displace an occupied plan
        change nothing; seats above zero grow only against a payment or at the end of the
        contract; and only the plan's own subscription can revoke it. */
    method ApplyMailboxProjection(d: Delivery) returns (reason: Reason)
      modifies this
      ensures (plan, reason) == Apply(old(plan), d)
      ensures reason == Verdict(old(plan), d) && plan == RowAfter(old(plan), d)
      ensures (old(plan).None? && d.customerKnown && !d.systemTeam && d.event.Some? && Epoch(d.created)
               && d.projected.Some?) ==>
        reason == Reason.Applied
      ensures reason !in {Reason.Applied, Revoked} ==> plan == old(plan)
      ensures reason == Reason.Applied ==>
        && Bound(plan, d.subscription) && plan.value.created == Some(d.created) && d.projected.Some?
        && Projected(plan.value.status, plan.value.seats, plan.value.periodStart) == d.projected.value
      ensures reason == Revoked ==>
        && Bound(old(plan), d.subscription) && plan.value.seats == 0 && plan.value.status == Inactive
        && plan.value.subscription == old(plan).value.subscription
      ensures old(plan).Some? ==> plan.Some?
      ensures old(plan).Some? && old(plan).value.lastEvent.Some? ==>
        plan.value.lastEvent.Some? && plan.value.lastEvent.value >= old(plan).value.lastEvent.value
      ensures old(plan).Some? && old(plan).value.created.Some? ==>
        && plan.value.created.Some? && plan.value.created.value >= old(plan).value.created.value
        && (plan.value.subscription == old(plan).value.subscription
            || plan.value.created.value > old(plan).value.created.value)
      ensures old(plan).Some? && Occupied(old(plan).value.status) ==>
        plan.value.subscription == old(plan).value.subscription
      ensures (old(plan).Some? && plan.value.subscription == old(plan).value.subscription
               && 0 < old(plan).value.seats < plan.value.seats) ==> d.paid || d.terminal
    {
      AppliesExactly(plan, d);
      if !d.customerKnown { return UnknownCustomer; }
      if d.systemTeam { return SystemTeam; }
      if d.event.None? && !IsCurrent(plan, d.subscription) { return InvalidProjection; }
      if Stale(plan, d) { return StaleEvent; }
      if Superseding(plan, d) { return Superseded; }
      var watermark := Watermark(plan, d);
      var creationMatches := !IsCurrent(plan, d.subscription) || plan.value.created in {None, Some(d.created)};
      if !Epoch(d.created) || !creationMatches || d.projected.None? {
        if !IsCurrent(plan, d.subscription) { return InvalidProjection; }
        plan := Some(plan.value.(status := Inactive, seats := 0, lastEvent := watermark));
        return Revoked;
      }
      var p := d.projected.value;
      if plan.Some? && !IsCurrent(plan, d.subscription) && Occupied(plan.value.status) { return Superseded; }
      if UnpaidIncrease(plan, d, p) { return InvalidProjection; }
      if EarlyReduction(plan, d, p) { return InvalidProjection; }
      plan := Some(Plan(p.status, p.seats, Some(d.subscription), Some(d.created), watermark, p.periodStart));
      return Reason.Applied;
    }
  }
}
