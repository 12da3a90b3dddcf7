/**
 * The usage-meter journal of one billing period (packages/billing/src/overage.ts).
 */
module Overage {
  import opened Common

  // A reporter pins the next step (from, to) in one transaction, then posts it to the provider
  // under an identifier built from that step and clears the pin in a second one. Any number of
  // reporters, sends, releases, re-bindings and plan upgrades interleave; a post may be
  // refused, or recorded with its answer or its commit lost.

  const METER_MAX_AGE_MS: int := 35 * 86400000

  /** Price terms a team or a period was sold with, already tied to its subscription. */
  datatype Terms = Terms(
    baseItem: string, basePrice: string, overagePrice: string,
    centsPerBlock: nat, included: nat, periodEnd: int)

  predicate SamePrices(a: Terms, b: Terms) {
    && a.baseItem == b.baseItem
    && a.basePrice == b.basePrice
    && a.overagePrice == b.overagePrice
    && a.centsPerBlock == b.centsPerBlock
    && a.included == b.included
  }

  /** The team and period rows as one locked read sees them. `current` and
      `historical` are the terms that passed verification, None otherwise. */
  datatype Row = Row(
    system: bool, customer: Option<string>, planQuota: Option<nat>,
    current: Option<Terms>, historical: Option<Terms>,
    accepted: nat, reported: nat, pending: Option<int>)

  /** The historical terms, only while they still name the current prices. */
  function TermsOf(row: Row): Option<Terms> {
    if && row.current.Some? && row.historical.Some?
       && SamePrices(row.current.value, row.historical.value)
       && row.historical.value.periodEnd <= row.current.value.periodEnd
    then row.historical
    else None
  }

  /** The meter refuses events older than 35 days; a closed period reports its last second. */
  function EventTime(terms: Terms, now: int): Option<int> {
    var at := if now >= terms.periodEnd then terms.periodEnd - 1000 else now;
    if now - at <= METER_MAX_AGE_MS then Some(at) else None
  }

  /** A pinned step a reporter carries from its first transaction to its second. */
  datatype Step = Step(customer: string, from: nat, to: nat, terms: Terms)

  datatype Prepared = Nothing | Refused | Pinned(step: Step)

  /** First transaction: validate, and pin the step durably. */
  function PrepareTx(row: Option<Row>, customer: string, now: int): (Option<Row>, Prepared) {
    if row.None? || row.value.system then (row, Nothing)
    else
      var r := row.value;
      var terms := TermsOf(r);
      if terms.None? || r.customer != Some(customer) then
        (row, if r.pending.Some? || r.accepted > r.planQuota.GetOr(0) then Refused else Nothing)
      else
        var to: int := if r.pending.Some? then r.pending.value else r.accepted - terms.value.included;
        if to <= r.reported then (row, Nothing)
        else if EventTime(terms.value, now).None? then (row, Refused)
        else (Some(r.(pending := Some(to))), Pinned(Step(customer, r.reported, to, terms.value)))
  }

  /** A meter event as the provider keeps it. The identifier carries both ends of the step. */
  datatype Event = Event(from: nat, to: nat, value: int)

  /** What the provider call and the commit that follows it did. */
  datatype Answer =
    | Accepted        // recorded, answered, transaction committed
    | Rejected        // not recorded; the caller sees an error
    | AnswerLost      // recorded, but the caller sees an error
    | CommitLost      // recorded and answered, but the transaction did not commit

  datatype Outcome = Reported | Failed | Skipped

  /** The provider keeps one event per identifier. */
  function Record(log: seq<Event>, e: Event): seq<Event> {
    if exists k :: 0 <= k < |log| && log[k].from == e.from && log[k].to == e.to then log
    else log + [e]
  }

  predicate MayPost(row: Option<Row>, step: Step, now: int) {
    && row.Some?
    && row.value.reported == step.from
    && TermsOf(row.value).Some?
    && !row.value.system
    && row.value.customer == Some(step.customer)
    && SamePrices(TermsOf(row.value).value, step.terms)
    && TermsOf(row.value).value.periodEnd == step.terms.periodEnd
    && row.value.pending == Some(step.to)
    && EventTime(TermsOf(row.value).value, now).Some?
  }

  /** Second transaction: re-read everything, post under the same lock, clear the pin. */
  function ReportTx(row: Option<Row>, log: seq<Event>, step: Step, now: int, answer: Answer)
    : (Option<Row>, seq<Event>, Outcome)
  {
    if row.Some? && row.value.reported != step.from then (row, log, Skipped)
    else if !MayPost(row, step, now) then (row, log, Failed)
    else
      var posted := Record(log, Event(step.from, step.to, step.to - step.from));
      match answer
      case Accepted =>
        (Some(row.value.(reported := step.to, pending := None)), posted, Reported)
      case Rejected => (row, log, Failed)
      case AnswerLost => (row, posted, Failed)
      case CommitLost => (row, posted, Failed)
  }

  // ---- What the two transactions decide -----------------------------------

  /** A paying team of this customer, whose period was sold at prices that are still the
      team's own and ends no later than the current one. */
  predicate Verified(r: Row, customer: string) {
    && !r.system && r.customer == Some(customer) && r.current.Some? && r.historical.Some?
    && var c, h := r.current.value, r.historical.value;
    && c.baseItem == h.baseItem && c.basePrice == h.basePrice && c.overagePrice == h.overagePrice
    && c.centsPerBlock == h.centsPerBlock && c.included == h.included && h.periodEnd <= c.periodEnd
  }

  /** How far there is to bill: to the pin, or the use beyond the volume where there is none. */
  function EndOfStep(r: Row): int
    requires r.historical.Some?
  {
    if r.pending.Some? then r.pending.value else r.accepted - r.historical.value.included
  }

  predicate Ahead(r: Row)
    requires r.historical.Some?
  {
    r.reported < EndOfStep(r)
  }

  /** A second before the end is at most 35 days back. */
  predicate InWindow(end: int, now: int) {
    now - (end - 1_000) <= 3_024_000_000
  }

  predicate Billable(row: Option<Row>, customer: string, now: int) {
    && row.Some? && Verified(row.value, customer) && Ahead(row.value)
    && InWindow(row.value.historical.value.periodEnd, now)
  }

  /** The team's books cannot be billed, and there is or may be something to bill. */
  predicate Stranded(row: Option<Row>, customer: string, now: int) {
    && row.Some? && !row.value.system
    && if Verified(row.value, customer)
       then Ahead(row.value) && !InWindow(row.value.historical.value.periodEnd, now)
       else row.value.pending.Some? || row.value.accepted > row.value.planQuota.GetOr(0)
  }

  /** The first transaction pins exactly what can be billed, refuses exactly what is
      stranded, and otherwise leaves everything alone. */
  lemma {:induction false} PinsExactly(row: Option<Row>, customer: string, now: int)
    ensures var (after, prepared) := PrepareTx(row, customer, now);
      && (prepared.Pinned? <==> Billable(row, customer, now))
      && (prepared.Refused? <==> Stranded(row, customer, now))
      && (!prepared.Pinned? ==> after == row)
      && (prepared.Pinned? ==>
            var r, step := row.value, prepared.step;
            && after == Some(r.(pending := Some(step.to))) && step.from == r.reported
            && step.to == EndOfStep(r)
            && step.customer == customer && step.terms == r.historical.value)
  {}

  /** The row still stands where the step was pinned, under the same prices and period. */
  predicate StillPinned(row: Option<Row>, step: Step) {
    && row.Some? && Verified(row.value, step.customer)
    && row.value.reported == step.from && row.value.pending == Some(step.to)
    && var h, t := row.value.historical.value, step.terms;
    && h.baseItem == t.baseItem && h.basePrice == t.basePrice && h.overagePrice == t.overagePrice
    && h.centsPerBlock == t.centsPerBlock && h.included == t.included && h.periodEnd == t.periodEnd
  }

  /** An event with these ends is in the log. */
  predicate Recorded(log: seq<Event>, from: nat, to: nat) {
    exists k :: 0 <= k < |log| && log[k].from == from && log[k].to == to
  }

  /** The second transaction posts exactly a step that is still pinned and in the window; the
      counter moves exactly when the provider's answer and the commit both come through. */
  lemma {:induction false} PostsExactly(row: Option<Row>, log: seq<Event>, step: Step, now: int, answer: Answer)
    ensures var posts := StillPinned(row, step) && InWindow(step.terms.periodEnd, now);
      var (after, log', outcome) := ReportTx(row, log, step, now, answer);
      && (outcome.Skipped? <==> row.Some? && row.value.reported != step.from)
      && (outcome.Reported? <==> posts && answer.Accepted?)
      && after == (if outcome.Reported? then Some(row.value.(reported := step.to, pending := None)) else row)
      && log' == (if posts && !answer.Rejected? && !Recorded(log, step.from, step.to)
                  then log + [Event(step.from, step.to, step.to - step.from)] else log)
      && (PostOf(row, step, now).Some? <==> posts)
  {}

  // ---- What is sent -------------------------------------------------------

  /** A meter event as it is sent: whom it bills, its ends, and its time. */
  datatype Post = Post(customer: string, from: nat, to: nat, at: int, second: int)

  function PostOf(row: Option<Row>, step: Step, now: int): Option<Post> {
    if MayPost(row, step, now) then
      var at := EventTime(TermsOf(row.value).value, now).value;
      Some(Post(step.customer, step.from, step.to, at, at / 1000))
    else None
  }

  /** A post of a run, when it was sent, and the end of the period it bills. */
  datatype Sent = Sent(post: Post, now: int, end: int)

  /** Everything sent over a run. */
  function AllSent(s: State, actions: seq<Action>): seq<Sent>
    decreases actions
  {
    if actions == [] then []
    else
      var a := actions[0];
      (if a.Report? && a.poster in s.carried && PostOf(s.row, s.carried[a.poster], a.when).Some?
       then [Sent(PostOf(s.row, s.carried[a.poster], a.when).value, a.when, s.carried[a.poster].terms.periodEnd)]
       else [])
      + AllSent(Next(s, a), actions[1..])
  }

  /** Dated now while the period runs, and one second before its end afterwards; so before
      its end, not in the future, and at most 35 days back. */
  predicate Timely(x: Sent) {
    && x.post.at == (if x.now < x.end then x.now else x.end - 1_000)
    && x.post.at < x.end && x.post.at <= x.now && x.now - x.post.at <= 3_024_000_000
    && x.post.second * 1_000 <= x.post.at < (x.post.second + 1) * 1_000
  }

  /** Whatever is sent over any run bills a stretch forwards and carries such a time. */
  lemma {:induction false} PostsAreTimely(s: State, actions: seq<Action>)
    requires CarriedInv(s.carried)
    ensures forall x :: x in AllSent(s, actions) ==> Timely(x) && x.post.from < x.post.to
    decreases actions
  {
    if actions != [] {
      StepsGoForwards(s, actions[0]);
      PostsAreTimely(Next(s, actions[0]), actions[1..]);
    }
  }

  lemma {:induction false} StepsGoForwards(s: State, a: Action)
    requires CarriedInv(s.carried)
    ensures CarriedInv(Next(s, a).carried)
  {}

  // ---- Every interleaving -------------------------------------------------

  /** A stretch of the counter, either billed by one event or settled by an upgrade. */
  datatype Span = Billed(from: nat, to: nat) | Settled(from: nat, to: nat)

  /** `spans`, `peak` are histories: how the counter moved, and the largest `accepted` so far. */
  datatype State = State(
    included: nat, row: Option<Row>, log: seq<Event>,
    carried: map<nat, Step>, spans: seq<Span>, peak: nat)

  datatype Action =
    | Send(count: nat)
    | Release(count: nat)
    | Rebind(system: bool, customer: Option<string>, planQuota: Option<nat>,
             current: Option<Terms>, historical: Option<Terms>)
    | Upgrade(newIncluded: nat)
    | DeleteTeam
    | Prepare(reporter: nat, forCustomer: string, at: int)
    | Report(poster: nat, when: int, answer: Answer)
    | Crash(who: nat)

  function Init(included: nat, row: Row): State
    requires row.accepted == 0 && row.reported == 0 && row.pending.None?
    requires row.historical.Some? ==> row.historical.value.included == included
  {
    State(included, Some(row), [], map[], [], 0)
  }

  /** One committed action. A period keeps the terms it was first accepted under
      (packages/core/src/quota.ts:175), so re-binding never changes its volume. */
  function Next(s: State, a: Action): State {
    match a
    case Send(count) =>
      if s.row.None? then s
      else
        var accepted := s.row.value.accepted + count;
        s.(row := Some(s.row.value.(accepted := accepted)),
           peak := if s.peak < accepted then accepted else s.peak)
    case Release(count) =>
      if s.row.None? then s
      else
        var left := s.row.value.accepted - count;
        s.(row := Some(s.row.value.(accepted := if left < 0 then 0 else left)))
    case Rebind(system, customer, planQuota, current, historical) =>
      if s.row.None? || (historical.Some? && historical.value.included != s.included) then s
      else
        s.(row := Some(s.row.value.(system := system, customer := customer, planQuota := planQuota,
                                    current := current, historical := historical)))
    case Upgrade(newIncluded) => Settle(s, newIncluded)
    case DeleteTeam => s.(row := None)
    case Prepare(reporter, forCustomer, at) =>
      if reporter in s.carried then s
      else
        var (row, prepared) := PrepareTx(s.row, forCustomer, at);
        s.(row := row, carried := if prepared.Pinned? then s.carried[reporter := prepared.step] else s.carried)
    case Report(poster, when, answer) =>
      if poster !in s.carried then s
      else
        var step := s.carried[poster];
        var (row, log, outcome) := ReportTx(s.row, s.log, step, when, answer);
        s.(row := row, log := log, carried := s.carried - {poster},
           spans := if outcome.Reported? then s.spans + [Billed(step.from, step.to)] else s.spans)
    case Crash(who) => s.(carried := s.carried - {who})
  }

  /** What the traffic, a re-binding, a deletion and a crash do: the traffic moves `accepted`
      alone, never below zero, a re-binding never touches the counters, and none of them posts. */
  lemma OtherStepsExactly(s: State, a: Action)
    requires a.Send? || a.Release? || a.Rebind? || a.DeleteTeam? || a.Crash?
    ensures var t := Next(s, a);
      && t.log == s.log && t.spans == s.spans && t.included == s.included
      && t.carried == (map w | w in s.carried && a != Crash(w) :: s.carried[w])
      && t.row == (if s.row.None? || a.DeleteTeam? then None else Some(RowAfter(s.row.value, a, s.included)))
      && (t.peak == if a.Send? && t.row.Some? && s.peak < t.row.value.accepted then t.row.value.accepted else s.peak)
  {
    if a.Crash? {
      assert s.carried - {a.who} == map w | w in s.carried && a != Crash(w) :: s.carried[w];
    } else {
      assert s.carried == map w | w in s.carried && a != Crash(w) :: s.carried[w];
    }
  }

  function RowAfter(r: Row, a: Action, included: nat): Row
    requires a.Send? || a.Release? || a.Rebind? || a.DeleteTeam? || a.Crash?
  {
    match a
    case Send(count) => r.(accepted := r.accepted + count)
    case Release(count) => r.(accepted := if count <= r.accepted then r.accepted - count else 0)
    case Rebind(system, customer, planQuota, current, historical) =>
      if historical.Some? && historical.value.included != included then r
      else Row(system, customer, planQuota, current, historical, r.accepted, r.reported, r.pending)
    case DeleteTeam => r
    case Crash(_) => r
  }

  /** A paid upgrade counts what the new volume covers as already settled
      (packages/billing/src/subscription.ts:610-623). */
  function Settle(s: State, newIncluded: nat): State {
    if s.row.None? || s.row.value.accepted - newIncluded <= s.row.value.reported then s
    else
      var to := s.row.value.accepted - newIncluded;
      s.(row := Some(s.row.value.(reported := to)),
         spans := s.spans + [Settled(s.row.value.reported, to)])
  }

  function Run(s: State, actions: seq<Action>): State
    decreases actions
  {
    if actions == [] then s else Run(Next(s, actions[0]), actions[1..])
  }

  // ---- What holds in every reachable state --------------------------------

  function EndOf(spans: seq<Span>): int {
    if spans == [] then 0 else spans[|spans| - 1].to
  }

  /** The spans abut: from 0 upwards, no gap and no overlap. */
  ghost predicate Chain(spans: seq<Span>) {
    spans == [] ||
    (var shorter := spans[..|spans| - 1];
     Chain(shorter) && spans[|spans| - 1].from == EndOf(shorter) < spans[|spans| - 1].to)
  }

  /** The events the billed spans stand for, in order. */
  function Bills(spans: seq<Span>): seq<Event> {
    if spans == [] then []
    else
      var last := spans[|spans| - 1];
      Bills(spans[..|spans| - 1]) + (if last.Billed? then [Event(last.from, last.to, last.to - last.from)] else [])
  }

  function SettledTotal(spans: seq<Span>): int {
    if spans == [] then 0
    else
      var last := spans[|spans| - 1];
      SettledTotal(spans[..|spans| - 1]) + (if last.Settled? then last.to - last.from else 0)
  }

  /** What the provider will bill: the sum of the recorded values. */
  function Total(log: seq<Event>): int {
    if log == [] then 0 else Total(log[..|log| - 1]) + log[|log| - 1].value
  }

  function HighestBill(spans: seq<Span>): int {
    if spans == [] then 0
    else
      var last := spans[|spans| - 1];
      if last.Billed? then last.to else HighestBill(spans[..|spans| - 1])
  }

  ghost predicate Inv(s: State) {
    && Chain(s.spans)
    && HighestBill(s.spans) <= Max(0, s.peak - s.included)
    && CarriedInv(s.carried)
    && (s.log == Bills(s.spans) || OneMore(s.log, s.spans, s.peak - s.included))
    && (s.row.Some? ==> RowInv(s, s.row.value))
  }

  /** The log is the committed bills and one pinned step more. */
  ghost predicate OneMore(log: seq<Event>, spans: seq<Span>, bound: int) {
    && |log| > 0
    && log[..|log| - 1] == Bills(spans)
    && log[|log| - 1].from == EndOf(spans)
    && EndOf(spans) < log[|log| - 1].to <= bound
    && log[|log| - 1].value == log[|log| - 1].to - log[|log| - 1].from
  }

  /** A reporter carries a step forwards. */
  ghost predicate CarriedInv(carried: map<nat, Step>) {
    forall w :: w in carried ==> carried[w].from < carried[w].to
  }

  /** A pin ahead of the counter may be recorded; one that an upgrade has passed never was. */
  ghost predicate RowInv(s: State, r: Row) {
    && r.reported == EndOf(s.spans)
    && r.accepted <= s.peak
    && (r.historical.Some? ==> r.historical.value.included == s.included)
    && (r.pending.Some? ==> 0 <= r.pending.value <= s.peak - s.included)
    && (s.log == Bills(s.spans)
        || (r.pending.Some? && r.reported < r.pending.value
            && s.log == Bills(s.spans) + [Event(r.reported, r.pending.value, r.pending.value - r.reported)]))
  }

  /** An upgrade that leaves the books exact: it moves nothing, or no pinned step is
      recorded beyond the counter. */
  ghost predicate SafeUpgrade(s: State, newIncluded: nat) {
    s.row.Some? ==> s.row.value.accepted - newIncluded <= s.row.value.reported || s.log == Bills(s.spans)
  }

  /** No upgrade of the run moves the counter over a recorded pin. */
  ghost predicate SafeRun(s: State, actions: seq<Action>)
    decreases actions
  {
    actions == [] ||
    ((actions[0].Upgrade? ==> SafeUpgrade(s, actions[0].newIncluded)) && SafeRun(Next(s, actions[0]), actions[1..]))
  }

  lemma {:induction false} Snoc(spans: seq<Span>, x: Span)
    ensures (spans + [x])[..|spans + [x]| - 1] == spans
    ensures EndOf(spans + [x]) == x.to
  {}

  /** Every recorded bill of a chain lies below its end. */
  lemma {:induction false} BillsBelowEnd(spans: seq<Span>)
    requires Chain(spans)
    ensures forall k :: 0 <= k < |Bills(spans)| ==>
      Bills(spans)[k].from < Bills(spans)[k].to <= EndOf(spans)
  {
    if spans != [] {
      BillsBelowEnd(spans[..|spans| - 1]);
    }
  }

  lemma {:induction false} BillsAreDisjoint(spans: seq<Span>)
    requires Chain(spans)
    ensures forall i, j :: 0 <= i < j < |Bills(spans)| ==> Bills(spans)[i].to <= Bills(spans)[j].from
  {
    if spans != [] {
      var shorter := spans[..|spans| - 1];
      BillsAreDisjoint(shorter);
      BillsBelowEnd(shorter);
    }
  }

  /** What was billed and what was settled add up to where the chain ends. */
  lemma {:induction false} ChainTotals(spans: seq<Span>)
    requires Chain(spans)
    ensures Total(Bills(spans)) + SettledTotal(spans) == EndOf(spans)
    ensures 0 <= Total(Bills(spans)) <= HighestBill(spans) <= EndOf(spans)
  {
    if spans != [] {
      var shorter := spans[..|spans| - 1];
      ChainTotals(shorter);
      if spans[|spans| - 1].Billed? {
        assert Bills(spans)[..|Bills(spans)| - 1] == Bills(shorter);
      } else {
        assert Bills(spans) == Bills(shorter);
      }
    }
  }

  /** A post by any reporter either records the pinned step or finds it recorded. */
  lemma {:induction false} RecordPinned(s: State, r: Row)
    requires Inv(s) && s.row == Some(r) && r.pending.Some? && r.reported < r.pending.value
    ensures Record(s.log, Event(r.reported, r.pending.value, r.pending.value - r.reported))
         == Bills(s.spans) + [Event(r.reported, r.pending.value, r.pending.value - r.reported)]
  {
    BillsBelowEnd(s.spans);
    var e := Event(r.reported, r.pending.value, r.pending.value - r.reported);
    if s.log != Bills(s.spans) {
      assert s.log[|Bills(s.spans)|] == e;
    }
  }

  lemma {:induction false} AppendBill(spans: seq<Span>, from: nat, to: nat)
    requires Chain(spans) && from == EndOf(spans) && from < to
    ensures Chain(spans + [Billed(from, to)])
    ensures Bills(spans + [Billed(from, to)]) == Bills(spans) + [Event(from, to, to - from)]
    ensures HighestBill(spans + [Billed(from, to)]) == to == EndOf(spans + [Billed(from, to)])
  {
    Snoc(spans, Billed(from, to));
  }

  lemma {:induction false} AppendSettlement(spans: seq<Span>, from: nat, to: nat)
    requires Chain(spans) && from == EndOf(spans) && from < to
    ensures Chain(spans + [Settled(from, to)])
    ensures Bills(spans + [Settled(from, to)]) == Bills(spans)
    ensures HighestBill(spans + [Settled(from, to)]) == HighestBill(spans)
    ensures EndOf(spans + [Settled(from, to)]) == to
  {
    Snoc(spans, Settled(from, to));
  }

  /** The pinned step as the provider would record it. */
  function PinnedEvent(r: Row): Event
    requires r.pending.Some? && r.pending.value >= 0
  {
    Event(r.reported, r.pending.value, r.pending.value - r.reported)
  }

  lemma {:induction false} CarriedIsAside(s: State, carried: map<nat, Step>)
    requires Inv(s) && CarriedInv(carried)
    ensures Inv(s.(carried := carried))
  {}

  /** The step is recorded but its pin stays. */
  lemma {:induction false} RecordedKeepsInv(s: State, r: Row)
    requires Inv(s) && s.row == Some(r) && r.pending.Some? && r.reported < r.pending.value
    ensures Inv(s.(log := Bills(s.spans) + [PinnedEvent(r)]))
  {}

  /** The step is recorded and its pin cleared. */
  lemma {:induction false} ClearedKeepsInv(s: State, r: Row)
    requires Inv(s) && s.row == Some(r) && r.pending.Some? && r.reported < r.pending.value
    ensures Inv(s.(row := Some(r.(reported := r.pending.value, pending := None)),
                   log := Bills(s.spans) + [PinnedEvent(r)], spans := s.spans + [Billed(r.reported, r.pending.value)]))
  {
    AppendBill(s.spans, r.reported, r.pending.value);
  }

  /** What a report does to the state, case by case. */
  lemma {:induction false} ReportOutcome(s: State, poster: nat, when: int, answer: Answer)
    requires poster in s.carried
    ensures var step, carried := s.carried[poster], s.carried - {poster};
      Next(s, Report(poster, when, answer)) ==
        if !MayPost(s.row, step, when) || answer.Rejected? then s.(carried := carried)
        else
          var log := Record(s.log, Event(step.from, step.to, step.to - step.from));
          if answer.Accepted? then
            State(s.included, Some(s.row.value.(reported := step.to, pending := None)), log, carried,
                  s.spans + [Billed(step.from, step.to)], s.peak)
          else s.(log := log, carried := carried)
  {}

  lemma {:induction false} ReportKeepsInv(s: State, poster: nat, when: int, answer: Answer)
    requires Inv(s) && poster in s.carried
    ensures Inv(Next(s, Report(poster, when, answer)))
  {
    ReportOutcome(s, poster, when, answer);
    var t := s.(carried := s.carried - {poster});
    CarriedIsAside(s, t.carried);
    if MayPost(s.row, s.carried[poster], when) && !answer.Rejected? {
      PostedIs(s, poster, when, answer);
      if answer.Accepted? { ClearedKeepsInv(t, s.row.value); } else { RecordedKeepsInv(t, s.row.value); }
    }
  }

  lemma {:induction false} PostedIs(s: State, poster: nat, when: int, answer: Answer)
    requires Inv(s) && poster in s.carried && MayPost(s.row, s.carried[poster], when) && !answer.Rejected?
    ensures var r, t := s.row.value, s.(carried := s.carried - {poster});
      && r.pending.Some? && 0 <= r.reported < r.pending.value
      && Next(s, Report(poster, when, answer)) ==
           if answer.Accepted? then
             t.(row := Some(r.(reported := r.pending.value, pending := None)),
                log := Bills(s.spans) + [PinnedEvent(r)], spans := s.spans + [Billed(r.reported, r.pending.value)])
           else t.(log := Bills(s.spans) + [PinnedEvent(r)])
  {
    ReportOutcome(s, poster, when, answer);
    RecordPinned(s, s.row.value);
  }

  lemma {:induction false} SafeUpgradeKeepsInv(s: State, newIncluded: nat)
    requires Inv(s) && SafeUpgrade(s, newIncluded)
    ensures Inv(Next(s, Upgrade(newIncluded)))
  {
    if s.row.Some? && s.row.value.accepted - newIncluded > s.row.value.reported {
      AppendSettlement(s.spans, s.row.value.reported, s.row.value.accepted - newIncluded);
    }
  }

  lemma {:induction false} DeleteKeepsInv(s: State)
    requires Inv(s)
    ensures Inv(Next(s, DeleteTeam))
  {
    if s.row.Some? && s.log != Bills(s.spans) {
      assert s.log[..|s.log| - 1] == Bills(s.spans);
    }
  }

  /** A pin is put where there was none, ahead of the counter. */
  lemma {:induction false} PinKeepsInv(s: State, r: Row, to: int)
    requires Inv(s) && s.row == Some(r) && r.pending.None? && to == r.accepted - s.included > r.reported
    ensures Inv(s.(row := Some(r.(pending := Some(to)))))
  {}

  /** The first transaction leaves the row as it was or puts a new pin. */
  lemma {:induction false} PreparedIs(s: State, r: Row, customer: string, at: int)
    requires Inv(s) && s.row == Some(r)
    ensures var (row, prepared) := PrepareTx(s.row, customer, at);
      && (prepared.Pinned? ==> prepared.step.from < prepared.step.to)
      && (row == s.row
          || (r.pending.None? && r.accepted - s.included > r.reported
              && row == Some(r.(pending := Some(r.accepted - s.included)))))
  {}

  lemma {:induction false} PrepareKeepsInv(s: State, reporter: nat, customer: string, at: int)
    requires Inv(s)
    ensures Inv(Next(s, Prepare(reporter, customer, at)))
  {
    if s.row.Some? && reporter !in s.carried {
      var r, row := s.row.value, PrepareTx(s.row, customer, at).0;
      PreparedIs(s, r, customer, at);
      if row != s.row { PinKeepsInv(s, r, r.accepted - s.included); }
      CarriedIsAside(s.(row := row), Next(s, Prepare(reporter, customer, at)).carried);
    }
  }

  lemma {:induction false} StepKeepsInv(s: State, a: Action)
    requires Inv(s)
    requires a.Upgrade? ==> SafeUpgrade(s, a.newIncluded)
    ensures Inv(Next(s, a))
  {
    match a
    case Report(poster, when, answer) => if poster in s.carried { ReportKeepsInv(s, poster, when, answer); }
    case Upgrade(newIncluded) => SafeUpgradeKeepsInv(s, newIncluded);
    case DeleteTeam => DeleteKeepsInv(s);
    case Prepare(reporter, customer, at) => PrepareKeepsInv(s, reporter, customer, at);
    case Crash(who) => CarriedIsAside(s, s.carried - {who});
    case Send(count) => SendKeepsInv(s, count);
    case _ => RowKeepsInv(s, a);
  }

  lemma {:induction false} SendKeepsInv(s: State, count: nat)
    requires Inv(s)
    ensures Inv(Next(s, Send(count)))
  {}

  lemma {:induction false} RowKeepsInv(s: State, a: Action)
    requires Inv(s) && (a.Release? || a.Rebind?)
    ensures Inv(Next(s, a))
  {}

  lemma {:induction false} RunKeepsInv(s: State, actions: seq<Action>)
    requires Inv(s) && SafeRun(s, actions)
    ensures Inv(Run(s, actions))
    decreases actions
  {
    if actions != [] {
      StepKeepsInv(s, actions[0]);
      RunKeepsInv(Next(s, actions[0]), actions[1..]);
    }
  }

  // ---- Main results -------------------------------------------------------

  ghost predicate Fresh(row: Row, included: nat) {
    && row.accepted == 0 && row.reported == 0 && row.pending.None?
    && (row.historical.Some? ==> row.historical.value.included == included)
  }

  ghost predicate BooksExact(s: State) {
    && (s.row.Some? ==>
          var billed := Total(s.log) + SettledTotal(s.spans);
          billed == s.row.value.reported || Some(billed) == s.row.value.pending)
    && Total(s.log) <= Max(0, s.peak - s.included)
    && (forall i, j :: 0 <= i < j < |s.log| ==> s.log[i].to <= s.log[j].from)
  }

  lemma {:induction false} PinnedLogTotals(spans: seq<Span>, log: seq<Event>, bound: int)
    requires Chain(spans) && OneMore(log, spans, bound)
    ensures Total(log) + SettledTotal(spans) == log[|log| - 1].to
    ensures Total(log) <= log[|log| - 1].to
  {
    ChainTotals(spans);
  }

  lemma {:induction false} BilledStretchesAreDisjoint(s: State)
    requires Inv(s)
    ensures forall i, j :: 0 <= i < j < |s.log| ==> s.log[i].to <= s.log[j].from
  {
    BillsAreDisjoint(s.spans);
    BillsBelowEnd(s.spans);
    forall i, j | 0 <= i < j < |s.log| ensures s.log[i].to <= s.log[j].from {
      assert s.log[i] == Bills(s.spans)[i];
    }
  }

  lemma {:induction false} InvMakesBooksExact(s: State)
    requires Inv(s)
    ensures BooksExact(s)
  {
    BilledStretchesAreDisjoint(s);
    ChainTotals(s.spans);
    if s.log != Bills(s.spans) {
      PinnedLogTotals(s.spans, s.log, s.peak - s.included);
    }
  }

  /** An upgrade keeps the books exact if and only if it is a safe one. */
  lemma {:induction false} UpgradeKeepsBooksExactly(s: State, newIncluded: nat)
    requires Inv(s)
    ensures BooksExact(Next(s, Upgrade(newIncluded))) <==> SafeUpgrade(s, newIncluded)
  {
    if SafeUpgrade(s, newIncluded) {
      SafeUpgradeKeepsInv(s, newIncluded);
      InvMakesBooksExact(Next(s, Upgrade(newIncluded)));
    } else {
      UnsafeUpgradeBreaksBooks(s, s.row.value, newIncluded);
    }
  }

  lemma {:induction false} SettledGrows(spans: seq<Span>, from: nat, to: nat)
    ensures SettledTotal(spans + [Settled(from, to)]) == SettledTotal(spans) + to - from
  {
    Snoc(spans, Settled(from, to));
  }

  lemma {:induction false} RecordedPinTotals(s: State, r: Row)
    requires Inv(s) && s.row == Some(r) && s.log != Bills(s.spans)
    ensures r.pending.Some? && r.reported < r.pending.value && Total(s.log) + SettledTotal(s.spans) == r.pending.value
  {
    PinnedLogTotals(s.spans, s.log, s.peak - s.included);
  }

  lemma {:induction false} UnsafeUpgradeBreaksBooks(s: State, r: Row, newIncluded: nat)
    requires Inv(s) && s.row == Some(r) && !SafeUpgrade(s, newIncluded)
    ensures !BooksExact(Next(s, Upgrade(newIncluded)))
  {
    RecordedPinTotals(s, r);
    SettledGrows(s.spans, r.reported, r.accepted - newIncluded);
  }

  /** The books are exact in every state a run passes through. */
  ghost predicate ExactAlong(s: State, actions: seq<Action>)
    decreases actions
  {
    BooksExact(s) && (actions != [] ==> ExactAlong(Next(s, actions[0]), actions[1..]))
  }

  /** They are, over any interleaving, if and only if no upgrade moves the counter over a
      recorded pin. */
  lemma {:induction false} BooksStayExactExactly(s: State, actions: seq<Action>)
    requires Inv(s)
    ensures ExactAlong(s, actions) <==> SafeRun(s, actions)
    decreases actions
  {
    InvMakesBooksExact(s);
    if actions != [] {
      var a := actions[0];
      if a.Upgrade? { UpgradeKeepsBooksExactly(s, a.newIncluded); }
      if a.Upgrade? ==> SafeUpgrade(s, a.newIncluded) {
        StepKeepsInv(s, a);
        BooksStayExactExactly(Next(s, a), actions[1..]);
      }
    }
  }

  /** Over every interleaving: what is billed plus what upgrades settled is the
      reported counter or the pinned one, it never passes the highest use beyond
      the included volume, and no stretch of the counter is billed twice. */
  lemma {:induction false} BillingIsConserved(included: nat, row: Row, actions: seq<Action>)
    requires Fresh(row, included) && SafeRun(Init(included, row), actions)
    ensures BooksExact(Run(Init(included, row), actions))
    ensures Run(Init(included, row), actions).included == included
  {
    RunKeepsInv(Init(included, row), actions);
    RunKeepsIncluded(Init(included, row), actions);
    InvMakesBooksExact(Run(Init(included, row), actions));
  }

  lemma {:induction false} RunKeepsIncluded(s: State, actions: seq<Action>)
    ensures Run(s, actions).included == s.included
    decreases actions
  {
    if actions != [] { RunKeepsIncluded(Next(s, actions[0]), actions[1..]); }
  }

  /** Without a release the highest use is the current one, so the bill never
      passes what the period has accepted beyond its volume. */
  lemma {:induction false} WithoutReleasesUseOnlyGrows(s: State, actions: seq<Action>)
    requires s.row.Some? ==> s.row.value.accepted == s.peak
    requires forall k :: 0 <= k < |actions| ==> !actions[k].Release?
    ensures var after := Run(s, actions); after.row.Some? ==> after.row.value.accepted == after.peak
    decreases actions
  {
    if actions != [] {
      var s' := Next(s, actions[0]);
      assert s'.row.Some? ==> s'.row.value.accepted == s'.peak;
      WithoutReleasesUseOnlyGrows(s', actions[1..]);
    }
  }

  /** How the row and the books move when both transactions run undisturbed. */
  lemma {:induction false} CleanReportMoves(s: State, reporter: nat, customer: string, now: int, later: int)
    requires reporter !in s.carried && s.row.Some?
    requires PrepareTx(s.row, customer, now).1.Pinned?
    requires EventTime(s.row.value.historical.value, later).Some?
    ensures var r := s.row.value;
      var to: int := if r.pending.Some? then r.pending.value else r.accepted - r.historical.value.included;
      var after := Next(Next(s, Prepare(reporter, customer, now)), Report(reporter, later, Answer.Accepted));
      after.row == Some(r.(reported := to, pending := None)) && to > r.reported
  {}

  /** With no pin left the recorded events are the billed spans. */
  lemma {:induction false} BooksAreClosed(s: State)
    requires Inv(s) && s.row.Some? && s.row.value.pending.None?
    ensures s.row.value.reported == Total(s.log) + SettledTotal(s.spans)
  {
    ChainTotals(s.spans);
  }

  /** One reporter that runs both transactions undisturbed bills exactly the step
      it pinned; that is all the use if and only if no older pin was waiting. */
  lemma {:induction false} CleanReport(s: State, reporter: nat, customer: string, now: int, later: int)
    requires Inv(s) && reporter !in s.carried && s.row.Some?
    requires PrepareTx(s.row, customer, now).1.Pinned?
    requires EventTime(s.row.value.historical.value, later).Some?
    ensures var r := s.row.value;
      var after := Next(Next(s, Prepare(reporter, customer, now)), Report(reporter, later, Answer.Accepted));
      var billed := Total(after.log) + SettledTotal(after.spans);
      && after.row.Some? && after.row.value.reported == billed
      && after.row == Some(r.(reported := after.row.value.reported, pending := None))
      && (billed == r.accepted - s.included <==> r.pending.None? || r.pending.value == r.accepted - s.included)
  {
    var pinned := Next(s, Prepare(reporter, customer, now));
    StepKeepsInv(s, Prepare(reporter, customer, now));
    var after := Next(pinned, Report(reporter, later, Answer.Accepted));
    StepKeepsInv(pinned, Report(reporter, later, Answer.Accepted));
    CleanReportMoves(s, reporter, customer, now, later);
    BooksAreClosed(after);
  }

  // ---- A pin that an upgrade has passed -----------------------------------

  /** The pinned step lies behind the counter. */
  predicate Stuck(row: Option<Row>) {
    row.Some? && row.value.pending.Some? && row.value.pending.value <= row.value.reported
  }

  /** A step strands the pin exactly when it is an upgrade that settles at least to it. */
  lemma {:induction false} StrandsExactly(s: State, a: Action)
    requires Inv(s) && !Stuck(s.row)
    ensures Stuck(Next(s, a).row) <==>
      a.Upgrade? && s.row.Some? && s.row.value.pending.Some?
      && s.row.value.accepted - a.newIncluded >= s.row.value.pending.value
  {}

  /** From then on no reporter pins or posts anything for the period: the pin stays, and
      no use after it is ever billed, in any continuation. */
  lemma {:induction false} StuckPinIsNeverPassed(s: State, actions: seq<Action>)
    requires Stuck(s.row) && CarriedInv(s.carried)
    ensures var t := Run(s, actions);
      && t.log == s.log
      && (t.row.Some? ==> Stuck(t.row) && t.row.value.pending == s.row.value.pending)
    decreases actions
  {
    if actions != [] {
      var t := Next(s, actions[0]);
      if t.row.Some? { StuckPinIsNeverPassed(t, actions[1..]); } else { NothingWithoutARow(t, actions[1..]); }
    }
  }

  lemma {:induction false} NothingWithoutARow(s: State, actions: seq<Action>)
    requires s.row.None?
    ensures Run(s, actions).log == s.log && Run(s, actions).row.None?
    decreases actions
  {
    if actions != [] { NothingWithoutARow(Next(s, actions[0]), actions[1..]); }
  }

  /** Nobody hears of it exactly while the team's terms verify and name the same customer, or
      the team is a system one: then the reporter finds nothing to do. Otherwise it refuses,
      and a failure is counted. */
  lemma {:induction false} StuckPinIsSilentExactly(row: Option<Row>, customer: string, now: int)
    requires Stuck(row)
    ensures PrepareTx(row, customer, now).0 == row
    ensures PrepareTx(row, customer, now).1 ==
      if row.value.system || (TermsOf(row.value).Some? && row.value.customer == Some(customer))
        then Nothing else Refused
  {}

  /** A run that strands a pin: a step of 50 is pinned and not yet posted, 250 more are
      sent, and an upgrade to 120 settles 280. Whatever is sent from then on is unbilled. */
  lemma {:induction false} UpgradeStrandsAPin(later: seq<Action>)
    ensures var first := [Send(150), Prepare(0, "cus_a", 5), Send(250), Upgrade(120)];
      var s := Run(Init(100, SampleRow()), first);
      && SafeRun(Init(100, SampleRow()), first)
      && Stuck(s.row)
      && Run(s, later).log == []
  {
    var s0, terms := Init(100, SampleRow()), SampleTerms("price_a", 100);
    var s1 := SampleState(0, None, [], map[], []);
    var s2 := SampleState(0, Some(50), [], map[0 := Step("cus_a", 0, 50, terms)], []);
    var s3 := s2.(row := Some(s2.row.value.(accepted := 400)), peak := 400);
    assert Next(s0, Send(150)) == s1;
    assert Next(s1, Prepare(0, "cus_a", 5)) == s2;
    assert Next(s2, Send(250)) == s3;
    RunFour(s0, Send(150), Prepare(0, "cus_a", 5), Send(250), Upgrade(120));
    LastUpgradeIsSafe(s0, Send(150), Prepare(0, "cus_a", 5), Send(250), 120);
    StuckPinIsNeverPassed(Next(s3, Upgrade(120)), later);
  }

  lemma {:induction false} LastUpgradeIsSafe(s: State, a: Action, b: Action, c: Action, n: nat)
    requires !a.Upgrade? && !b.Upgrade? && !c.Upgrade?
    requires SafeUpgrade(Next(Next(Next(s, a), b), c), n)
    ensures SafeRun(s, [a, b, c, Upgrade(n)])
  {
    var all := [a, b, c, Upgrade(n)];
    assert all[1..] == [b, c, Upgrade(n)] && [b, c, Upgrade(n)][1..] == [c, Upgrade(n)]
           && [c, Upgrade(n)][1..] == [Upgrade(n)] && [Upgrade(n)][1..] == [];
    var t := Next(Next(Next(s, a), b), c);
    assert SafeRun(t, [Upgrade(n)]);
    assert SafeRun(Next(Next(s, a), b), [c, Upgrade(n)]);
    assert SafeRun(Next(s, a), [b, c, Upgrade(n)]);
  }

  // ---- The bill against the current use -----------------------------------

  /** What is billed, and what a pin has claimed to bill. */
  ghost function Claimed(s: State): int
    requires s.row.Some?
  {
    var r := s.row.value;
    (if r.pending.Some? then Max(r.reported, r.pending.value) else r.reported) - SettledTotal(s.spans)
  }

  /** In a reachable state the bill is what is claimed, but for a pin not recorded yet. */
  lemma {:induction false} BillIsClaimed(s: State)
    requires Inv(s) && s.row.Some?
    ensures 0 <= Total(s.log) <= Claimed(s)
    ensures s.log != Bills(s.spans) || s.row.value.pending.None? || Stuck(s.row) ==> Total(s.log) == Claimed(s)
    ensures Total(s.log) > Max(0, UseOf(s)) ==> s.row.value.accepted < s.peak
  {
    BooksTotal(s);
    InvMakesBooksExact(s);
    ChainTotals(s.spans);
  }

  lemma {:induction false} BooksTotal(s: State)
    requires Inv(s) && s.row.Some?
    ensures s.log == Bills(s.spans) ==> Total(s.log) + SettledTotal(s.spans) == s.row.value.reported
    ensures s.log != Bills(s.spans) ==>
      s.row.value.pending.Some?
      && Total(s.log) + SettledTotal(s.spans) == s.row.value.pending.value > s.row.value.reported
  {
    if s.log == Bills(s.spans) { ChainTotals(s.spans); } else { RecordedPinTotals(s, s.row.value); }
  }

  /** The use that is paid by the piece, as it stands. */
  function UseOf(s: State): int
    requires s.row.Some?
  {
    s.row.value.accepted - s.included
  }

  ghost predicate WithinUse(s: State) {
    s.row.Some? ==> Claimed(s) <= Max(0, UseOf(s))
  }

  /** A release of more than the use that is not claimed. */
  ghost predicate OverReleases(s: State, a: Action) {
    a.Release? && s.row.Some? && 0 < Claimed(s) && a.count > UseOf(s) - Claimed(s)
  }

  /** One step takes the use below what is claimed exactly when it is such a release. */
  lemma {:induction false} OnlyAReleaseUndercutsTheBill(s: State, a: Action)
    requires Inv(s) && WithinUse(s)
    ensures WithinUse(Next(s, a)) <==> !OverReleases(s, a)
  {
    match a
    case Upgrade(newIncluded) => UpgradeKeepsClaim(s, newIncluded);
    case Report(poster, when, answer) =>
      if s.row.Some? && poster in s.carried { ReportKeepsClaim(s, poster, when, answer); }
    case Prepare(reporter, customer, at) => PrepareKeepsClaim(s, reporter, customer, at);
    case Release(count) => ReleaseKeepsClaim(s, count);
    case _ =>
  }

  lemma {:induction false} ReleaseKeepsClaim(s: State, count: nat)
    requires WithinUse(s)
    ensures WithinUse(Next(s, Release(count))) <==> !OverReleases(s, Release(count))
  {}

  lemma {:induction false} UpgradeKeepsClaim(s: State, newIncluded: nat)
    requires WithinUse(s)
    ensures WithinUse(Next(s, Upgrade(newIncluded)))
  {
    if s.row.Some? && s.row.value.accepted - newIncluded > s.row.value.reported {
      SettledGrows(s.spans, s.row.value.reported, s.row.value.accepted - newIncluded);
    }
  }

  lemma {:induction false} SettledIsNothingLost(s: State)
    requires Inv(s)
    ensures SettledTotal(s.spans) >= 0
  {
    ChainTotals(s.spans);
  }

  lemma {:induction false} PrepareKeepsClaim(s: State, reporter: nat, customer: string, at: int)
    requires Inv(s) && WithinUse(s)
    ensures WithinUse(Next(s, Prepare(reporter, customer, at)))
  {
    SettledIsNothingLost(s);
  }

  lemma {:induction false} ReportKeepsClaim(s: State, poster: nat, when: int, answer: Answer)
    requires Inv(s) && s.row.Some? && poster in s.carried
    ensures var t := Next(s, Report(poster, when, answer));
      t.row.Some? && Claimed(t) == Claimed(s) && UseOf(t) == UseOf(s)
  {
    var step := s.carried[poster];
    Snoc(s.spans, Billed(step.from, step.to));
  }

  ghost predicate WithinUseAlong(s: State, actions: seq<Action>)
    decreases actions
  {
    WithinUse(s) && (actions != [] ==> WithinUseAlong(Next(s, actions[0]), actions[1..]))
  }

  ghost predicate NeverOverReleases(s: State, actions: seq<Action>)
    decreases actions
  {
    actions != [] ==> !OverReleases(s, actions[0]) && NeverOverReleases(Next(s, actions[0]), actions[1..])
  }

  /** Over a run with exact books, the bill stays within the current use in every state
      exactly when no release of it takes more than the use that is not claimed. */
  lemma {:induction false} BillStaysWithinUseExactly(s: State, actions: seq<Action>)
    requires Inv(s) && WithinUse(s) && SafeRun(s, actions)
    ensures WithinUseAlong(s, actions) <==> NeverOverReleases(s, actions)
    decreases actions
  {
    if actions != [] {
      OnlyAReleaseUndercutsTheBill(s, actions[0]);
      if !OverReleases(s, actions[0]) {
        StepKeepsInv(s, actions[0]);
        BillStaysWithinUseExactly(Next(s, actions[0]), actions[1..]);
      }
    }
  }

  function SampleTerms(base: string, included: nat): Terms {
    Terms("si_base", base, "price_over", 40, included, 1000000000)
  }

  function SampleRow(): Row {
    Row(false, Some("cus_a"), Some(100), Some(SampleTerms("price_a", 100)),
        Some(SampleTerms("price_a", 100)), 0, 0, None)
  }

  /** The sample period with 150 sends accepted. */
  function SampleState(reported: nat, pending: Option<int>, log: seq<Event>, carried: map<nat, Step>,
                       spans: seq<Span>): State {
    State(100, Some(SampleRow().(accepted := 150, reported := reported, pending := pending)), log, carried, spans, 150)
  }

  /** Use that is given back after it was billed leaves the bill above the current use. */
  lemma {:induction false} ReleaseLeavesBillAboveUse()
    ensures exists actions ::
      (var s := Run(Init(100, SampleRow()), actions);
       && SafeRun(Init(100, SampleRow()), actions)
       && s.row.Some? && Total(s.log) > s.row.value.accepted - s.included > 0)
  {
    var s0, terms := Init(100, SampleRow()), SampleTerms("price_a", 100);
    var a1, a2, a3, a4 := Send(150), Prepare(0, "cus_a", 5), Report(0, 6, Answer.Accepted), Release(30);
    var s1 := SampleState(0, None, [], map[], []);
    var s2 := SampleState(0, Some(50), [], map[0 := Step("cus_a", 0, 50, terms)], []);
    var s3 := SampleState(50, None, [Event(0, 50, 50)], map[], [Billed(0, 50)]);
    assert Next(s0, a1) == s1;
    assert Next(s1, a2) == s2;
    FirstReport(s2, s3);
    RunFour(s0, a1, a2, a3, a4);
    NoUpgrades(s0, [a1, a2, a3, a4]);
    assert [Event(0, 50, 50)][..0] == [];
    assert Total(Next(s3, a4).log) == 50;
  }

  lemma {:induction false} FirstReport(s2: State, s3: State)
    requires s2 == SampleState(0, Some(50), [], map[0 := Step("cus_a", 0, 50, SampleTerms("price_a", 100))], [])
    requires s3 == SampleState(50, None, [Event(0, 50, 50)], map[], [Billed(0, 50)])
    ensures Next(s2, Report(0, 6, Answer.Accepted)) == s3
  {
    assert s2.carried - {0} == map[];
    assert [] + [Event(0, 50, 50)] == [Event(0, 50, 50)] && [] + [Billed(0, 50)] == [Billed(0, 50)];
  }

  lemma {:induction false} NoUpgrades(s: State, actions: seq<Action>)
    requires forall i :: 0 <= i < |actions| ==> !actions[i].Upgrade?
    ensures SafeRun(s, actions)
    decreases actions
  {
    if actions != [] { NoUpgrades(Next(s, actions[0]), actions[1..]); }
  }

  /** A step of 50 whose answer is lost, then an upgrade to 120 that settles 30 of it. */
  lemma {:induction false} UpgradeOverALostAnswer()
    ensures Run(Init(100, SampleRow()),
                [Send(150), Prepare(0, "cus_a", 5), Report(0, 6, Answer.AnswerLost), Upgrade(120)])
      == SampleState(30, Some(50), [Event(0, 50, 50)], map[], [Settled(0, 30)])
  {
    var terms := SampleTerms("price_a", 100);
    var s1 := SampleState(0, None, [], map[], []);
    var s2 := SampleState(0, Some(50), [], map[0 := Step("cus_a", 0, 50, terms)], []);
    var s3 := SampleState(0, Some(50), [Event(0, 50, 50)], map[], []);
    assert Next(Init(100, SampleRow()), Send(150)) == s1;
    assert Next(s1, Prepare(0, "cus_a", 5)) == s2;
    assert Next(s2, Report(0, 6, Answer.AnswerLost)) == s3 by { assert s2.carried - {0} == map[]; }
    assert [] + [Settled(0, 30)] == [Settled(0, 30)];
    RunFour(Init(100, SampleRow()), Send(150), Prepare(0, "cus_a", 5), Report(0, 6, Answer.AnswerLost), Upgrade(120));
  }

  /** The prices move on and back, and the step left over is posted as 30 to 50. */
  lemma {:induction false} OldPricesReturn(s: State)
    requires s == SampleState(30, Some(50), [Event(0, 50, 50)], map[], [Settled(0, 30)])
    ensures var narrow, wide := Some(SampleTerms("price_a", 100)), Some(SampleTerms("price_b", 120));
      Run(s, [Rebind(false, Some("cus_a"), Some(120), wide, narrow),
              Rebind(false, Some("cus_a"), Some(100), narrow, narrow),
              Prepare(1, "cus_a", 7), Report(1, 8, Answer.Accepted)])
      == SampleState(50, None, [Event(0, 50, 50), Event(30, 50, 20)], map[], [Settled(0, 30), Billed(30, 50)])
  {
    var narrow, wide := Some(SampleTerms("price_a", 100)), Some(SampleTerms("price_b", 120));
    var a5, a6 := Rebind(false, Some("cus_a"), Some(120), wide, narrow),
                  Rebind(false, Some("cus_a"), Some(100), narrow, narrow);
    var a7, a8 := Prepare(1, "cus_a", 7), Report(1, 8, Answer.Accepted);
    assert Next(Next(s, a5), a6) == s;
    var s7 := s.(carried := map[1 := Step("cus_a", 30, 50, narrow.value)]);
    assert Next(s, a7) == s7;
    assert s7.carried - {1} == map[];
    assert [Event(0, 50, 50)] + [Event(30, 50, 20)] == [Event(0, 50, 50), Event(30, 50, 20)];
    assert [Settled(0, 30)] + [Billed(30, 50)] == [Settled(0, 30), Billed(30, 50)];
    RunFour(s, a5, a6, a7, a8);
  }

  /** An upgrade that settles over a pin whose answer was lost bills a stretch twice
      once the old prices name the period again: 70 recorded for 50 used. */
  lemma {:induction false} UpgradeOverALostAnswerBillsTwice()
    ensures exists actions ::
      (var s := Run(Init(100, SampleRow()), actions);
       && s.row.Some? && s.row.value.accepted == s.peak
       && Total(s.log) > s.row.value.accepted - s.included > 0)
  {
    var narrow, wide := Some(SampleTerms("price_a", 100)), Some(SampleTerms("price_b", 120));
    var first := [Send(150), Prepare(0, "cus_a", 5), Report(0, 6, Answer.AnswerLost), Upgrade(120)];
    var second := [Rebind(false, Some("cus_a"), Some(120), wide, narrow),
                   Rebind(false, Some("cus_a"), Some(100), narrow, narrow),
                   Prepare(1, "cus_a", 7), Report(1, 8, Answer.Accepted)];
    UpgradeOverALostAnswer();
    OldPricesReturn(Run(Init(100, SampleRow()), first));
    RunAppend(Init(100, SampleRow()), first, second);
    var s := Run(Init(100, SampleRow()), first + second);
    TotalOfTwo(Event(0, 50, 50), Event(30, 50, 20));
    assert Total(s.log) == 70 && s.row.value.accepted == 150 == s.peak;
  }

  lemma {:induction false} TotalOfTwo(a: Event, b: Event)
    ensures Total([a, b]) == a.value + b.value
  {
    assert [a, b][..1] == [a] && [a][..0] == [];
    assert Total([a]) == a.value;
  }

  lemma {:induction false} RunFour(s: State, a1: Action, a2: Action, a3: Action, a4: Action)
    ensures Run(s, [a1, a2, a3, a4]) == Next(Next(Next(Next(s, a1), a2), a3), a4)
  {
    assert [a1, a2, a3, a4][1..] == [a2, a3, a4] && [a2, a3, a4][1..] == [a3, a4] && [a3, a4][1..] == [a4];
    var s1 := Next(s, a1);
    var s2 := Next(s1, a2);
    var s3 := Next(s2, a3);
    assert Run(s, [a1, a2, a3, a4]) == Run(s1, [a2, a3, a4]) == Run(s2, [a3, a4])
           == Run(s3, [a4]) == Run(Next(s3, a4), []);
  }

  lemma {:induction false} RunAppend(s: State, first: seq<Action>, second: seq<Action>)
    ensures Run(s, first + second) == Run(Run(s, first), second)
    decreases first
  {
    if first == [] {
      assert first + second == second;
    } else {
      assert (first + second)[1..] == first[1..] + second;
      RunAppend(Next(s, first[0]), first[1..], second);
    }
  }

  // ---- The reporting loop -------------------------------------------------

  datatype Candidate = Candidate(key: string, customer: Option<string>)

  /** The rows and provider events, per period key. */
  datatype Books = Books(rows: map<string, Row>, logs: map<string, seq<Event>>)

  function RowOf(b: Books, key: string): Option<Row> {
    if key in b.rows then Some(b.rows[key]) else None
  }

  function LogOf(b: Books, key: string): seq<Event> {
    if key in b.logs then b.logs[key] else []
  }

  function WithRow(b: Books, key: string, row: Option<Row>): Books {
    if row.Some? then b.(rows := b.rows[key := row.value]) else b
  }

  /** One candidate: prepare, then report what was pinned. */
  function ReportOne(b: Books, c: Candidate, now: int, answer: Answer): (Books, Outcome) {
    if c.customer.None? then (b, Skipped)
    else
      var (row, prepared) := PrepareTx(RowOf(b, c.key), c.customer.value, now);
      match prepared
      case Nothing => (b, Skipped)
      case Refused => (b, Failed)
      case Pinned(step) =>
        var (row', log, outcome) := ReportTx(row, LogOf(b, c.key), step, now, answer);
        (WithRow(b, c.key, row').(logs := b.logs[c.key := log]), outcome)
  }

  /** All candidates in order, counting outcomes. */
  function ReportAll(b: Books, cs: seq<Candidate>, now: int, answers: seq<Answer>): (Books, nat, nat)
    requires |answers| == |cs|
  {
    if cs == [] then (b, 0, 0)
    else
      var n := |cs| - 1;
      var (before, reported, failed) := ReportAll(b, cs[..n], now, answers[..n]);
      var (after, outcome) := ReportOne(before, cs[n], now, answers[n]);
      (after, reported + (if outcome.Reported? then 1 else 0), failed + (if outcome.Failed? then 1 else 0))
  }

  /** The candidate's period can be billed. */
  predicate MayBill(b: Books, c: Candidate, now: int) {
    c.customer.Some? && Billable(RowOf(b, c.key), c.customer.value, now)
  }

  predicate CountsAsReported(b: Books, c: Candidate, now: int, answer: Answer) {
    MayBill(b, c, now) && answer.Accepted?
  }

  predicate CountsAsFailed(b: Books, c: Candidate, now: int, answer: Answer) {
    || (MayBill(b, c, now) && !answer.Accepted?)
    || (c.customer.Some? && Stranded(RowOf(b, c.key), c.customer.value, now))
  }

  /** A candidate is reported exactly when its period can be billed and the provider answers,
      and counted as failed exactly when it cannot answer or the books are stranded. Its row
      and its events say so; other periods stay. */
  lemma {:induction false} ReportOneExactly(b: Books, c: Candidate, now: int, answer: Answer)
    ensures var (b', outcome) := ReportOne(b, c, now, answer);
      && (outcome.Reported? <==> CountsAsReported(b, c, now, answer))
      && (outcome.Failed? <==> CountsAsFailed(b, c, now, answer))
      && (!MayBill(b, c, now) ==> RowOf(b', c.key) == RowOf(b, c.key) && LogOf(b', c.key) == LogOf(b, c.key))
      && (MayBill(b, c, now) ==>
            var r := b.rows[c.key];
            var to := EndOfStep(r);
            && RowOf(b', c.key) == Some(if answer.Accepted? then r.(reported := to, pending := None)
                                        else r.(pending := Some(to)))
            && LogOf(b', c.key) == (if answer.Rejected? || Recorded(LogOf(b, c.key), r.reported, to)
                                    then LogOf(b, c.key)
                                    else LogOf(b, c.key) + [Event(r.reported, to, to - r.reported)]))
      && (forall k :: k != c.key ==> RowOf(b', k) == RowOf(b, k) && LogOf(b', k) == LogOf(b, k))
  {
    if c.customer.Some? {
      var (row, prepared) := PrepareTx(RowOf(b, c.key), c.customer.value, now);
      PinsExactly(RowOf(b, c.key), c.customer.value, now);
      if prepared.Pinned? { PostsExactly(row, LogOf(b, c.key), prepared.step, now, answer); }
    }
  }

  /** What is sent for a candidate. */
  function PostOfOne(b: Books, c: Candidate, now: int): seq<Post> {
    if c.customer.None? then []
    else
      var (row, prepared) := PrepareTx(RowOf(b, c.key), c.customer.value, now);
      if prepared.Pinned? && PostOf(row, prepared.step, now).Some? then [PostOf(row, prepared.step, now).value] else []
  }

  /** One event is sent for a period that can be billed, and none otherwise. */
  lemma {:induction false} PostOfOneExactly(b: Books, c: Candidate, now: int)
    ensures if !MayBill(b, c, now) then PostOfOne(b, c, now) == []
            else
              var r := b.rows[c.key];
              && EndOfStep(r) >= 0 && |PostOfOne(b, c, now)| == 1
              && var p := PostOfOne(b, c, now)[0];
              && p.customer == c.customer.value && p.from == r.reported && p.to == EndOfStep(r)
              && Timely(Sent(p, now, r.historical.value.periodEnd))
  {}

  /** What is sent for all candidates, in order. */
  function PostsOfAll(b: Books, cs: seq<Candidate>, now: int, answers: seq<Answer>): seq<Post>
    requires |answers| == |cs|
  {
    if cs == [] then []
    else
      var n := |cs| - 1;
      PostsOfAll(b, cs[..n], now, answers[..n]) + PostOfOne(ReportAll(b, cs[..n], now, answers[..n]).0, cs[n], now)
  }

  /** The first `n` candidates are done: the books, both counters and what was sent. */
  ghost predicate Processed(b: Books, cs: seq<Candidate>, now: int, answers: seq<Answer>, n: nat,
                            after: Books, reported: nat, failed: nat, sent: seq<Post>)
    requires n <= |cs| == |answers|
  {
    && (after, reported, failed) == ReportAll(b, cs[..n], now, answers[..n])
    && sent == PostsOfAll(b, cs[..n], now, answers[..n])
  }

  lemma {:induction false} OneMoreCandidate(b: Books, cs: seq<Candidate>, now: int, answers: seq<Answer>, n: nat,
                                            before: Books, reported: nat, failed: nat, sent: seq<Post>)
    requires n < |cs| == |answers| && Processed(b, cs, now, answers, n, before, reported, failed, sent)
    ensures var (after, outcome) := ReportOne(before, cs[n], now, answers[n]);
      Processed(b, cs, now, answers, n + 1, after, reported + (if outcome.Reported? then 1 else 0),
                failed + (if outcome.Failed? then 1 else 0), sent + PostOfOne(before, cs[n], now))
  {
    assert cs[..n + 1][..n] == cs[..n] && answers[..n + 1][..n] == answers[..n];
  }

  lemma {:induction false} AllProcessed(b: Books, cs: seq<Candidate>, now: int, answers: seq<Answer>,
                                        after: Books, reported: nat, failed: nat, sent: seq<Post>)
    requires |cs| == |answers| && Processed(b, cs, now, answers, |cs|, after, reported, failed, sent)
    ensures (after, reported, failed) == ReportAll(b, cs, now, answers)
    ensures sent == PostsOfAll(b, cs, now, answers)
    ensures EachOnce(cs) ==>
      reported == |ReportedOf(b, cs, now, answers)| && failed == |FailedOf(b, cs, now, answers)|
  {
    assert cs[..|cs|] == cs && answers[..|cs|] == answers;
    if EachOnce(cs) { CountersAreExact(b, cs, now, answers); }
  }

  class UsageReporter {
    var rows: map<string, Row>
    var logs: map<string, seq<Event>>
    /** Every event sent, whatever became of it. */
    var posts: seq<Post>

    constructor (rows: map<string, Row>, logs: map<string, seq<Event>>)
      ensures this.rows == rows && this.logs == logs && posts == []
    {
      this.rows, this.logs, posts := rows, logs, [];
    }

    /** One candidate: both transactions of its period. */
    method ReportCandidate(c: Candidate, now: int, answer: Answer) returns (outcome: Outcome)
      modifies this
      ensures (Books(rows, logs), outcome) == ReportOne(Books(old(rows), old(logs)), c, now, answer)
      ensures posts == old(posts) + PostOfOne(Books(old(rows), old(logs)), c, now)
    {
      if c.customer.None? { return Skipped; }
      ghost var before := Books(rows, logs);
      var found := if c.key in rows then Some(rows[c.key]) else None;
      var (row, prepared) := PrepareTx(found, c.customer.value, now);
      match prepared {
        case Nothing => outcome := Skipped;
        case Refused => outcome := Failed;
        case Pinned(step) =>
          rows := rows[c.key := row.value];
          var log := if c.key in logs then logs[c.key] else [];
          var post := PostOf(Some(rows[c.key]), step, now);
          if post.Some? { posts := posts + [post.value]; }
          var (row', log', answered) := ReportTx(Some(rows[c.key]), log, step, now, answer);
          rows := rows[c.key := row'.value];
          logs := logs[c.key := log'];
          outcome := answered;
          assert before.rows[c.key := row.value][c.key := row'.value] == before.rows[c.key := row'.value];
      }
      assert Books(rows, logs) == ReportOne(before, c, now, answer).0;
    }

    /** The `answers` stand for what the provider does at each candidate. */
    method ReportOverage(candidates: seq<Candidate>, now: int, answers: seq<Answer>)
      returns (reported: nat, failed: nat)
      requires |answers| == |candidates|
      modifies this
      ensures (Books(rows, logs), reported, failed)
           == ReportAll(Books(old(rows), old(logs)), candidates, now, answers)
      ensures posts == old(posts) + PostsOfAll(Books(old(rows), old(logs)), candidates, now, answers)
      ensures EachOnce(candidates) ==>
        && reported == |ReportedOf(Books(old(rows), old(logs)), candidates, now, answers)|
        && failed == |FailedOf(Books(old(rows), old(logs)), candidates, now, answers)|
    {
      ghost var b, sent := Books(rows, logs), [];
      reported, failed := 0, 0;
      for i := 0 to |candidates|
        invariant Processed(b, candidates, now, answers, i, Books(rows, logs), reported, failed, sent)
        invariant posts == old(posts) + sent
      {
        ghost var before := Books(rows, logs);
        OneMoreCandidate(b, candidates, now, answers, i, before, reported, failed, sent);
        var outcome := ReportCandidate(candidates[i], now, answers[i]);
        sent := sent + PostOfOne(before, candidates[i], now);
        if outcome.Reported? {
          reported := reported + 1;
        } else if outcome.Failed? {
          failed := failed + 1;
        }
      }
      AllProcessed(b, candidates, now, answers, Books(rows, logs), reported, failed, sent);
    }
  }

  /** One candidate of the loop is two steps of the interleaving, so everything
      proved of runs holds of the loop. */
  lemma {:induction false} ReportOneIsTwoSteps(s: State, b: Books, c: Candidate, now: int, answer: Answer,
                                               reporter: nat)
    requires c.customer.Some? && reporter !in s.carried
    requires s.row == RowOf(b, c.key) && s.log == LogOf(b, c.key)
    ensures var after := Run(s, [Prepare(reporter, c.customer.value, now), Report(reporter, now, answer)]);
      var (b', outcome) := ReportOne(b, c, now, answer);
      && after.row == RowOf(b', c.key)
      && after.log == LogOf(b', c.key)
      && after.carried == s.carried
      && (forall k :: k != c.key ==> RowOf(b', k) == RowOf(b, k) && LogOf(b', k) == LogOf(b, k))
  {
    var a1, a2 := Prepare(reporter, c.customer.value, now), Report(reporter, now, answer);
    assert [a1, a2][1..] == [a2] && [a2][1..] == [];
    assert Run(s, [a1, a2]) == Run(Next(s, a1), [a2]) == Run(Next(Next(s, a1), a2), []);
    var pinned := Next(s, a1);
    if PrepareTx(s.row, c.customer.value, now).1.Pinned? {
      assert pinned.carried - {reporter} == s.carried;
    }
  }

  predicate EachOnce(cs: seq<Candidate>) {
    forall i, j :: 0 <= i < j < |cs| ==> cs[i].key != cs[j].key
  }

  /** The candidates whose period can be billed and is answered for. */
  function ReportedOf(b: Books, cs: seq<Candidate>, now: int, answers: seq<Answer>): set<int>
    requires |answers| == |cs|
  {
    set i | 0 <= i < |cs| && CountsAsReported(b, cs[i], now, answers[i])
  }

  function FailedOf(b: Books, cs: seq<Candidate>, now: int, answers: seq<Answer>): set<int>
    requires |answers| == |cs|
  {
    set i | 0 <= i < |cs| && CountsAsFailed(b, cs[i], now, answers[i])
  }

  lemma {:induction false} OneMoreReported(b: Books, cs: seq<Candidate>, now: int, answers: seq<Answer>, n: nat)
    requires |answers| == |cs| == n + 1
    ensures |ReportedOf(b, cs, now, answers)| == |ReportedOf(b, cs[..n], now, answers[..n])|
              + (if CountsAsReported(b, cs[n], now, answers[n]) then 1 else 0)
  {
    OneMoreIndex(n, ReportedOf(b, cs[..n], now, answers[..n]), ReportedOf(b, cs, now, answers),
                 CountsAsReported(b, cs[n], now, answers[n]));
  }

  lemma {:induction false} OneMoreFailed(b: Books, cs: seq<Candidate>, now: int, answers: seq<Answer>, n: nat)
    requires |answers| == |cs| == n + 1
    ensures |FailedOf(b, cs, now, answers)| == |FailedOf(b, cs[..n], now, answers[..n])|
              + (if CountsAsFailed(b, cs[n], now, answers[n]) then 1 else 0)
  {
    OneMoreIndex(n, FailedOf(b, cs[..n], now, answers[..n]), FailedOf(b, cs, now, answers),
                 CountsAsFailed(b, cs[n], now, answers[n]));
  }

  lemma {:induction false} OneMoreIndex(n: int, fewer: set<int>, all: set<int>, last: bool)
    requires n !in fewer && all == if last then fewer + {n} else fewer
    ensures |all| == |fewer| + if last then 1 else 0
  {}

  /** The loop touches only the periods it names. */
  lemma {:induction false} OtherPeriodsStay(b: Books, cs: seq<Candidate>, now: int, answers: seq<Answer>, key: string)
    requires |answers| == |cs| && forall i :: 0 <= i < |cs| ==> cs[i].key != key
    ensures var after := ReportAll(b, cs, now, answers).0;
      RowOf(after, key) == RowOf(b, key) && LogOf(after, key) == LogOf(b, key)
  {
    if cs != [] {
      var n := |cs| - 1;
      OtherPeriodsStay(b, cs[..n], now, answers[..n], key);
      ReportOneExactly(ReportAll(b, cs[..n], now, answers[..n]).0, cs[n], now, answers[n]);
    }
  }

  /** Over candidates of different periods the counters are the numbers of those that could
      be billed and were answered for, and of those that failed, by the books at the start. */
  lemma {:induction false} CountersAreExact(b: Books, cs: seq<Candidate>, now: int, answers: seq<Answer>)
    requires |answers| == |cs| && EachOnce(cs)
    ensures var (_, reported, failed) := ReportAll(b, cs, now, answers);
      reported == |ReportedOf(b, cs, now, answers)| && failed == |FailedOf(b, cs, now, answers)|
  {
    if cs != [] {
      var n := |cs| - 1;
      CountersAreExact(b, cs[..n], now, answers[..n]);
      OneMoreReported(b, cs, now, answers, n);
      OneMoreFailed(b, cs, now, answers, n);
      OtherPeriodsStay(b, cs[..n], now, answers[..n], cs[n].key);
      LastCounts(ReportAll(b, cs[..n], now, answers[..n]).0, b, cs[n], now, answers[n]);
    }
  }

  lemma {:induction false} LastCounts(before: Books, b: Books, c: Candidate, now: int, answer: Answer)
    requires RowOf(before, c.key) == RowOf(b, c.key)
    ensures ReportOne(before, c, now, answer).1.Reported? <==> CountsAsReported(b, c, now, answer)
    ensures ReportOne(before, c, now, answer).1.Failed? <==> CountsAsFailed(b, c, now, answer)
  {
    ReportOneExactly(before, c, now, answer);
  }

  /** The two counters never count one candidate twice. */
  lemma {:induction false} CountersStayWithinCandidates(b: Books, cs: seq<Candidate>, now: int, answers: seq<Answer>)
    requires |answers| == |cs|
    ensures var (_, reported, failed) := ReportAll(b, cs, now, answers); reported + failed <= |cs|
  {
    if cs != [] {
      CountersStayWithinCandidates(b, cs[..|cs| - 1], now, answers[..|cs| - 1]);
    }
  }
}
