/**
 * The durable request machine behind mailbox plan changes
 * (packages/billing/src/mailbox-management.ts).
 */
module Management {
  import opened Common

  // One team's rows, and what the subscription projection does to them
  // (packages/billing/src/mailbox-lifecycle.ts:301-442). Every transaction is one atomic step;
  // what the provider answers inside it is part of the step, so a run quantifies over every
  // answer and every interleaving of drivers, webhooks and crashes.

  datatype Kind = Cancel | Resume | Increase | Decrease
  datatype Status = Prepared | Creating | Pending | Scheduled | Confirmed | Expired
  datatype Step = Update | ConfigureSchedule | CreateSchedule | ReleaseSchedule

  /** `comebacks` is a history: how often the row went back to Prepared. */
  datatype Request = Request(
    subscription: nat, kind: Kind, status: Status, step: Step,
    seatsBefore: nat, seats: nat, periodEnd: int,
    scheduleId: Option<nat>, invoiceId: Option<nat>, comebacks: nat)

  predicate IsOpen(r: Request) {
    r.status in {Prepared, Creating, Pending}
  }

  type Rows = map<nat, Request>

  // ---- The projection's effect on the rows --------------------------------

  /** How far the projection gets before it returns. */
  datatype Gate = Rejected | UnpaidIncrease | EarlyReduction | Applied

  /** The provider facts the projection reads. `voided` names the invoice of a voided
      increase; `paid` holds the invoices that confirm a row's increase. */
  datatype Projected = Projected(
    subscription: nat, terminal: bool, pendingUpdate: bool, seats: nat, periodStart: int,
    voided: Option<nat>, confirms: set<nat>, invoice: Option<nat>)

  predicate IsLiveIncrease(r: Request, p: Projected) {
    r.subscription == p.subscription && r.kind == Increase && r.status in {Creating, Pending}
  }

  predicate IncreaseVoided(r: Request, p: Projected) {
    IsLiveIncrease(r, p) && !p.pendingUpdate && p.seats == r.seatsBefore && p.voided.Some? && p.voided == r.invoiceId
  }

  /** The updates run in the source's order; a later one sees the row read first. */
  function ProjectRow(id: nat, r: Request, p: Projected, gate: Gate): Request {
    if gate.Rejected? then r
    else
      var r1 := if IncreaseVoided(r, p) then r.(status := Expired) else r;
      if gate.UnpaidIncrease? || gate.EarlyReduction? then r1
      else
        var r2 := if IsLiveIncrease(r, p) && !p.terminal && p.seats == r.seats && id in p.confirms
                  then r1.(status := Confirmed, invoiceId := p.invoice) else r1;
        var r3 := if r2.subscription == p.subscription && r2.kind == Decrease && r2.status == Scheduled
                     && r2.seats == p.seats && r2.periodEnd <= p.periodStart
                  then r2.(status := Confirmed) else r2;
        if p.terminal && r3.subscription == p.subscription && (IsOpen(r3) || r3.status == Scheduled)
        then r3.(status := Expired) else r3
  }

  function ProjectRows(rows: Rows, p: Projected, gate: Gate): Rows {
    map id | id in rows :: ProjectRow(id, rows[id], p, gate)
  }

  // ---- prepare ------------------------------------------------------------

  datatype Ask = AskCancel | AskResume | AskQuantity(wanted: nat) | AskReconcile

  /** The subscription as prepare reads it under the lock. */
  datatype View = View(
    subscription: nat, active: bool, trialing: bool, pastDue: bool,
    periodStart: int, periodEnd: int, pendingUpdate: bool, seats: nat,
    cancelAtPeriodEnd: bool, cancelAt: bool, automatic: bool, adjusted: bool,
    included: nat, hasPlan: bool, schedule: Option<nat>, scheduleMatches: set<nat>,
    canReadSchedules: bool, eligible: bool)

  function KindOf(ask: Ask, v: View): Kind
    requires !ask.AskReconcile?
  {
    match ask
    case AskCancel => Cancel
    case AskResume => Resume
    case AskQuantity(wanted) => if wanted > v.seats then Increase else Decrease
  }

  /** A decrease row owns the schedule on the subscription, if one is there. */
  predicate OwnsSchedule(rows: Rows, id: nat, v: View) {
    && id in rows && v.schedule.Some?
    && rows[id].subscription == v.subscription && rows[id].scheduleId == v.schedule
    && rows[id].kind == Decrease && rows[id].status in {Scheduled, Confirmed}
    && id in v.scheduleMatches
  }

  /** The guards that throw before an unneeded change is recognised. */
  predicate Refuses(ask: Ask, v: View, now: int, reduction: bool)
    requires !ask.AskReconcile?
  {
    var kind := KindOf(ask, v);
    || !(v.active || v.trialing || v.pastDue)
    || v.periodEnd <= now || v.periodStart > now
    || v.pendingUpdate
    || (kind == Increase && !v.eligible)
    || (ask.AskQuantity? &&
          (!v.active || v.cancelAtPeriodEnd || !v.automatic || ask.wanted < v.included || v.hasPlan || v.adjusted
           || ask.wanted < 1 || ask.wanted > 10000))
    || ((reduction || kind == Decrease) && !v.canReadSchedules)
  }

  predicate AlreadyDone(ask: Ask, v: View, reduction: bool)
    requires !ask.AskReconcile?
  {
    match ask
    case AskCancel => v.cancelAtPeriodEnd
    case AskResume => !v.cancelAtPeriodEnd
    case AskQuantity(wanted) => wanted == v.seats && !reduction
  }

  predicate RefusesLate(ask: Ask, v: View) {
    || (ask.AskResume? && !v.active && !v.trialing)
    || (v.cancelAt && !v.cancelAtPeriodEnd)
  }

  function NewRequest(ask: Ask, v: View, reduction: bool): Request
    requires !ask.AskReconcile?
  {
    var kind := KindOf(ask, v);
    Request(v.subscription, kind, Prepared,
            if reduction then ReleaseSchedule else if kind == Decrease then CreateSchedule else Update,
            v.seats, if ask.AskQuantity? then ask.wanted else v.seats, v.periodEnd,
            if reduction then v.schedule else None, None, 0)
  }

  /** Returns the open row, or inserts one under a fresh id; the projection of the
      subscription just read runs first when no row is open. */
  function PrepareTx(rows: Rows, newId: nat, ask: Ask, v: View, now: int, owner: Option<nat>,
                     p: Projected, gate: Gate): Rows
  {
    if exists id :: id in rows && IsOpen(rows[id]) then rows
    else
      var reconciled := ProjectRows(rows, p, gate);
      var reduction := v.schedule.Some?;
      if ask.AskReconcile? then reconciled
      else if reduction && (owner.None? || !OwnsSchedule(reconciled, owner.value, v)) then rows
      else if Refuses(ask, v, now, reduction) || newId in rows then rows
      else if AlreadyDone(ask, v, reduction) then reconciled
      else if RefusesLate(ask, v) then rows
      else reconciled[newId := NewRequest(ask, v, reduction)]
  }

  // ---- stage --------------------------------------------------------------

  datatype Armed = Throws | Unarmed | Arms

  /** First transaction of a stage: commit Creating before any provider call. */
  function ArmTx(r: Request, readOnly: bool, eligible: bool, planEligible: bool): (Request, Armed) {
    if r.status != Prepared || readOnly then (r, Unarmed)
    else if r.kind == Increase && !eligible then (r.(status := Expired), Throws)
    else if !planEligible && r.kind in {Increase, Resume} then (r.(status := Expired), Unarmed)
    else (r.(status := Creating), Arms)
  }

  /** What the second transaction reads before it may call the provider. */
  datatype Before = Before(
    terminal: bool, planEligible: bool, samePeriod: bool, seats: nat, ended: bool, pendingUpdate: bool,
    schedule: Option<nat>, owned: bool, configurable: bool, eligible: bool)

  /** The provider call: it may fail, and creating a schedule names one. */
  datatype Call = CallFailed | Called(created: nat, owns: bool)

  /** The read-back that alone decides completion. */
  datatype After = Unreadable | Read(
    terminal: bool, schedule: Option<nat>, matches: bool, seats: nat, pendingUpdate: bool,
    cancelAtPeriodEnd: bool, invoice: Option<nat>, matchingInvoice: bool, invoiceUnreadable: bool,
    confirmsPayment: bool, voided: bool)

  predicate MayCall(r: Request, b: Before) {
    && !(!b.planEligible && r.kind in {Increase, Resume})
    && b.samePeriod && b.seats == r.seatsBefore && !b.ended && !b.pendingUpdate
    && (match r.step
        case ReleaseSchedule => r.scheduleId.Some? && b.schedule == r.scheduleId && b.owned
        case CreateSchedule => b.schedule.None?
        case ConfigureSchedule => r.scheduleId.Some? && b.schedule == r.scheduleId && b.configurable
        case Update => b.schedule.None?)
  }

  /** Denied inside the locked transaction: proves that no update went out. */
  predicate DeniedLate(r: Request, b: Before) {
    MayCall(r, b) && r.step == Update && r.kind == Increase && !b.eligible
  }

  /** Completion by read-back. */
  function Settle(r: Request, a: After): Request
    requires a.Read?
  {
    if a.terminal then r.(status := Expired)
    else if r.step == ReleaseSchedule && a.schedule.None? then
      if r.kind == Decrease && r.seats == r.seatsBefore then r.(status := Confirmed, scheduleId := None)
      else r.(status := Prepared, scheduleId := None, comebacks := r.comebacks + 1,
              step := if r.kind == Decrease then CreateSchedule else Update)
    else if r.step == CreateSchedule && r.scheduleId.Some? && a.schedule == r.scheduleId then
      r.(status := Prepared, step := ConfigureSchedule, comebacks := r.comebacks + 1)
    else if r.step == ConfigureSchedule && a.schedule.Some? && a.matches then r.(status := Scheduled)
    else if r.step == Update && r.kind == Increase then
      var r1 := if r.invoiceId.None? && a.invoice.Some? && a.matchingInvoice then r.(invoiceId := a.invoice) else r;
      if r1.invoiceId.Some? && a.invoice != r1.invoiceId && a.invoiceUnreadable then r1.(status := Pending)
      else if a.seats == r.seats && a.confirmsPayment then r1.(status := Confirmed)
      else if !a.pendingUpdate && a.seats == r.seatsBefore && a.voided && r1.invoiceId.Some? then r1.(status := Expired)
      else r1.(status := Pending)
    else if r.step == Update && r.kind in {Cancel, Resume} && a.cancelAtPeriodEnd == (r.kind == Cancel) then
      r.(status := Confirmed)
    else r.(status := Pending)
  }

  /** Whether the completed branch also reconciles the subscription row, and so the other requests. */
  predicate Reconciles(r: Request, a: After)
    requires a.Read?
  {
    a.terminal || (r.step == Update && Settle(r, a).status == Confirmed)
  }

  /** A released schedule closes the rows it had been scheduled for. */
  function CloseReleased(rows: Rows, schedule: Option<nat>): Rows {
    map id | id in rows ::
      if schedule.Some? && rows[id].scheduleId == schedule && rows[id].status == Scheduled
      then rows[id].(status := Expired) else rows[id]
  }

  /** Second transaction: dispatch if armed, read back, settle. The second result says
      whether the provider was called. */
  function StageTx(rows: Rows, id: nat, armed: bool, readOnly: bool, b: Before, call: Call, a: After,
                   p: Projected, gate: Gate): (Rows, bool)
    requires id in rows
  {
    var r := rows[id];
    if !IsOpen(r) || (r.status == Prepared && readOnly) then (rows, false)
    else if b.terminal then
      var projected := ProjectRows(rows, p, gate);
      (projected[id := projected[id].(status := Expired)], false)
    else if armed && !MayCall(r, b) then (rows[id := r.(status := Pending)], false)
    else if armed && DeniedLate(r, b) then (rows[id := r.(status := Expired)], false)
    else
      var r1 := if armed && call.Called? && r.step == CreateSchedule then r.(scheduleId := Some(call.created)) else r;
      if (armed && (call.CallFailed? || (r.step == CreateSchedule && !call.owns))) || a.Unreadable? then
        (rows[id := r1.(status := Pending)], armed)
      else
        var settled := Settle(r1, a);
        var saved := rows[id := r1.(invoiceId := settled.invoiceId)];
        var others := if Reconciles(r1, a) then ProjectRows(saved, p, gate) else saved;
        var closed := if !a.terminal && r1.step == ReleaseSchedule && a.schedule.None?
                      then CloseReleased(others, r1.scheduleId) else others;
        (closed[id := settled.(invoiceId := closed[id].invoiceId)], armed)
  }

  /** Whether the driver runs another stage. */
  predicate Again(r: Request, readOnly: bool, b: Before) {
    !readOnly && r.status == Prepared && (b.planEligible || r.kind !in {Increase, Resume})
  }

  // ---- Every interleaving -------------------------------------------------

  /** A driver between the two transactions of a stage. `step` is where the row stood. */
  datatype Driver = Driver(id: nat, armed: bool, step: Step)

  /** A provider write: the step sent, and whether its driver armed that very step. */
  datatype Dispatch = Dispatch(id: nat, step: Step, own: bool)

  /** `arms` and `dispatches` are histories. */
  datatype State = State(rows: Rows, drivers: map<nat, Driver>, arms: seq<(nat, Step)>, dispatches: seq<Dispatch>)

  datatype Action =
    | Prepare(newId: nat, ask: Ask, view: View, now: int, owner: Option<nat>, proj: Projected, gate: Gate)
    | Arm(driver: nat, id: nat, readOnly: bool, eligible: bool, planEligible: bool)
    | Stage(driver: nat, readOnly: bool, before: Before, call: Call, after: After,
            proj: Projected, gate: Gate, commits: bool)
    | Webhook(proj: Projected, gate: Gate)
    | Crash(driver: nat)

  function Init(): State {
    State(map[], map[], [], [])
  }

  function Next(s: State, a: Action): State {
    match a
    case Prepare(newId, ask, view, now, owner, proj, gate) =>
      s.(rows := PrepareTx(s.rows, newId, ask, view, now, owner, proj, gate))
    case Arm(driver, id, readOnly, eligible, planEligible) =>
      if driver in s.drivers || id !in s.rows then s
      else
        var (r, armed) := ArmTx(s.rows[id], readOnly, eligible, planEligible);
        s.(rows := s.rows[id := r],
           drivers := if armed.Throws? then s.drivers
                      else s.drivers[driver := Driver(id, armed.Arms?, s.rows[id].step)],
           arms := if armed.Arms? then s.arms + [(id, s.rows[id].step)] else s.arms)
    case Stage(driver, readOnly, before, call, after, proj, gate, commits) =>
      if driver !in s.drivers || s.drivers[driver].id !in s.rows then s
      else
        var d := s.drivers[driver];
        var (rows, called) := StageTx(s.rows, d.id, d.armed, readOnly, before, call, after, proj, gate);
        s.(rows := if commits then rows else s.rows,
           drivers := s.drivers - {driver},
           dispatches := if called
                         then s.dispatches + [Dispatch(d.id, s.rows[d.id].step, d.step == s.rows[d.id].step)]
                         else s.dispatches)
    case Webhook(proj, gate) => s.(rows := ProjectRows(s.rows, proj, gate))
    case Crash(driver) => s.(drivers := s.drivers - {driver})
  }

  function Run(s: State, actions: seq<Action>): State
    decreases actions
  {
    if actions == [] then s else Run(Next(s, actions[0]), actions[1..])
  }

  // ---- Order of statuses and steps ----------------------------------------

  /** Release, then create, then configure; or release, then update. */
  function Rank(step: Step): nat {
    match step
    case Update => 0
    case ConfigureSchedule => 1
    case CreateSchedule => 2
    case ReleaseSchedule => 3
  }

  /** How many more times a row standing at a step can return to Prepared. */
  function ReturnsLeft(step: Step): nat {
    match step
    case Update => 0
    case ConfigureSchedule => 0
    case CreateSchedule => 1
    case ReleaseSchedule => 2
  }

  /** What one transaction may do to one row. */
  predicate Moves(r: Request, r': Request) {
    && r'.subscription == r.subscription && r'.kind == r.kind
    && r'.seatsBefore == r.seatsBefore && r'.seats == r.seats && r'.periodEnd == r.periodEnd
    // confirmed and expired are absorbing
    && (r.status in {Confirmed, Expired} ==> r'.status == r.status && r'.step == r.step && r'.comebacks == r.comebacks)
    // scheduled moves only to confirmed or expired
    && (r.status == Scheduled ==>
          r'.status in {Scheduled, Confirmed, Expired} && r'.step == r.step && r'.comebacks == r.comebacks)
    // a return to prepared strictly lowers the step; nothing else changes it
    && ((r'.step == r.step && r'.comebacks == r.comebacks)
        || (IsOpen(r) && r'.status == Prepared && Rank(r'.step) < Rank(r.step)
            && r'.comebacks == r.comebacks + 1 && ReturnsLeft(r'.step) < ReturnsLeft(r.step)))
    && (r'.status == Prepared && r.status != Prepared ==> r'.step != r.step)
  }

  lemma {:induction false} ProjectMoves(id: nat, r: Request, p: Projected, gate: Gate)
    ensures Moves(r, ProjectRow(id, r, p, gate))
    ensures IsOpen(ProjectRow(id, r, p, gate)) ==> IsOpen(r)
    ensures r.status != Prepared ==> ProjectRow(id, r, p, gate).status != Prepared
  {}

  /** No transaction adds, drops or reopens a row; every row moves forward. */
  predicate RowsMove(rows: Rows, rows': Rows) {
    rows'.Keys == rows.Keys && forall id :: id in rows ==> Moves(rows[id], rows'[id])
  }

  lemma {:induction false} ProjectRowsMove(rows: Rows, p: Projected, gate: Gate)
    ensures RowsMove(rows, ProjectRows(rows, p, gate))
  {
    forall id | id in rows ensures Moves(rows[id], ProjectRows(rows, p, gate)[id]) {
      ProjectMoves(id, rows[id], p, gate);
    }
  }

  lemma {:induction false} ClosedMoves(r: Request, schedule: Option<nat>, id: nat, p: Projected, gate: Gate)
    ensures var q := ProjectRow(id, r, p, gate);
      Moves(r, if schedule.Some? && q.scheduleId == schedule && q.status == Scheduled then q.(status := Expired) else q)
  {}

  lemma {:induction false} CloseMoves(r: Request, schedule: Option<nat>)
    ensures Moves(r, if schedule.Some? && r.scheduleId == schedule && r.status == Scheduled
                     then r.(status := Expired) else r)
  {}

  lemma {:induction false} StageOtherMoves(rows: Rows, id: nat, k: nat, armed: bool, readOnly: bool, b: Before,
                                           call: Call, a: After, p: Projected, gate: Gate)
    requires id in rows && k in rows && k != id
    ensures var rows' := StageTx(rows, id, armed, readOnly, b, call, a, p, gate).0;
      k in rows' && Moves(rows[k], rows'[k])
  {
    ProjectMoves(k, rows[k], p, gate);
    CloseMoves(rows[k], None);
    var r := rows[id];
    var r1 := if armed && call.Called? && r.step == CreateSchedule then r.(scheduleId := Some(call.created)) else r;
    ClosedMoves(rows[k], r1.scheduleId, k, p, gate);
    CloseMoves(rows[k], r1.scheduleId);
  }

  /** What a stage leaves of its own row when it does not come to a read-back. */
  lemma {:induction false} StageEndsEarly(rows: Rows, id: nat, armed: bool, readOnly: bool, b: Before, call: Call,
                                          a: After, p: Projected, gate: Gate)
    requires id in rows
    requires var r := rows[id];
      !IsOpen(r) || (r.status == Prepared && readOnly) || b.terminal || (armed && (!MayCall(r, b) || DeniedLate(r, b)))
      || (armed && (call.CallFailed? || (r.step == CreateSchedule && !call.owns))) || a.Unreadable?
    ensures var rows' := StageTx(rows, id, armed, readOnly, b, call, a, p, gate).0;
      id in rows' && Moves(rows[id], rows'[id])
  {
    ProjectMoves(id, rows[id], p, gate);
  }

  /** And when it does: the settled row. */
  lemma {:induction false} StageSettles(rows: Rows, id: nat, armed: bool, readOnly: bool, b: Before, call: Call,
                                        a: After, p: Projected, gate: Gate)
    requires id in rows && IsOpen(rows[id]) && !(rows[id].status == Prepared && readOnly) && !b.terminal
    requires !(armed && (!MayCall(rows[id], b) || DeniedLate(rows[id], b)))
    requires !(armed && (call.CallFailed? || (rows[id].step == CreateSchedule && !call.owns))) && a.Read?
    ensures var r := rows[id];
      var r1 := if armed && call.Called? && r.step == CreateSchedule then r.(scheduleId := Some(call.created)) else r;
      var rows' := StageTx(rows, id, armed, readOnly, b, call, a, p, gate).0;
      id in rows' && exists invoice :: rows'[id] == Settle(r1, a).(invoiceId := invoice)
  {}

  lemma {:induction false} StageOwnMoves(rows: Rows, id: nat, armed: bool, readOnly: bool, b: Before, call: Call,
                                         a: After, p: Projected, gate: Gate)
    requires id in rows
    ensures var rows' := StageTx(rows, id, armed, readOnly, b, call, a, p, gate).0;
      id in rows' && Moves(rows[id], rows'[id])
  {
    var r := rows[id];
    if !IsOpen(r) || (r.status == Prepared && readOnly) || b.terminal || (armed && (!MayCall(r, b) || DeniedLate(r, b)))
       || (armed && (call.CallFailed? || (r.step == CreateSchedule && !call.owns))) || a.Unreadable? {
      StageEndsEarly(rows, id, armed, readOnly, b, call, a, p, gate);
    } else {
      StageSettles(rows, id, armed, readOnly, b, call, a, p, gate);
      SettledRowMoves(r, armed, call, a);
    }
  }

  lemma {:induction false} SettledRowMoves(r: Request, armed: bool, call: Call, a: After)
    requires IsOpen(r) && a.Read?
    ensures var r1 := if armed && call.Called? && r.step == CreateSchedule
              then r.(scheduleId := Some(call.created)) else r;
      forall invoice :: Moves(r, Settle(r1, a).(invoiceId := invoice))
  {}

  lemma {:induction false} StageKeys(rows: Rows, id: nat, armed: bool, readOnly: bool, b: Before, call: Call, a: After,
                  p: Projected, gate: Gate)
    requires id in rows
    ensures StageTx(rows, id, armed, readOnly, b, call, a, p, gate).0.Keys == rows.Keys
  {}

  lemma {:induction false} StageRowsMove(rows: Rows, id: nat, armed: bool, readOnly: bool, b: Before, call: Call,
                                         a: After, p: Projected, gate: Gate)
    requires id in rows
    ensures RowsMove(rows, StageTx(rows, id, armed, readOnly, b, call, a, p, gate).0)
  {
    StageKeys(rows, id, armed, readOnly, b, call, a, p, gate);
    forall k | k in rows
      ensures Moves(rows[k], StageTx(rows, id, armed, readOnly, b, call, a, p, gate).0[k])
    {
      if k == id {
        StageOwnMoves(rows, id, armed, readOnly, b, call, a, p, gate);
      } else {
        StageOtherMoves(rows, id, k, armed, readOnly, b, call, a, p, gate);
      }
    }
  }

  // ---- What holds in every reachable state --------------------------------

  ghost predicate RowsInv(rows: Rows) {
    && (forall i, j :: i in rows && j in rows && IsOpen(rows[i]) && IsOpen(rows[j]) ==> i == j)
    && (forall i :: i in rows ==> rows[i].comebacks + ReturnsLeft(rows[i].step) <= 2)
  }

  /** A row never stands at a step above one it was armed at, and a prepared row
      stands strictly below all of them. */
  ghost predicate ArmsInv(rows: Rows, arms: seq<(nat, Step)>) {
    && (forall k :: 0 <= k < |arms| ==>
          && arms[k].0 in rows
          && Rank(rows[arms[k].0].step) <= Rank(arms[k].1)
          && (rows[arms[k].0].status == Prepared ==> Rank(rows[arms[k].0].step) < Rank(arms[k].1)))
    && (forall i, j :: 0 <= i < j < |arms| ==> arms[i] != arms[j])
  }

  /** A row that says Creating was armed at the step it stands at. */
  ghost predicate CreatingInv(rows: Rows, arms: seq<(nat, Step)>) {
    forall i :: i in rows && rows[i].status == Creating ==> (i, rows[i].step) in arms
  }

  predicate Holds(drivers: map<nat, Driver>, w: nat, pair: (nat, Step)) {
    w in drivers && drivers[w].armed && (drivers[w].id, drivers[w].step) == pair
  }

  /** An armed step is carried by at most one driver, and is spent when that driver sends it. */
  ghost predicate DispatchInv(s: State) {
    && (forall w, pair :: Holds(s.drivers, w, pair) ==> pair in s.arms)
    && (forall w, v, pair :: Holds(s.drivers, w, pair) && Holds(s.drivers, v, pair) ==> w == v)
    && (forall k :: 0 <= k < |s.dispatches| && s.dispatches[k].own ==>
          && (s.dispatches[k].id, s.dispatches[k].step) in s.arms
          && (forall w :: !Holds(s.drivers, w, (s.dispatches[k].id, s.dispatches[k].step))))
    && (forall i, j :: 0 <= i < j < |s.dispatches| && s.dispatches[i].own && s.dispatches[j].own ==>
          s.dispatches[i].id != s.dispatches[j].id || s.dispatches[i].step != s.dispatches[j].step)
  }

  ghost predicate Inv(s: State) {
    RowsInv(s.rows) && ArmsInv(s.rows, s.arms) && CreatingInv(s.rows, s.arms) && DispatchInv(s)
  }

  /** No row becomes Creating. */
  ghost predicate NoneCreated(rows: Rows, rows': Rows) {
    forall i :: i in rows' && rows'[i].status == Creating ==>
      i in rows && rows[i].status == Creating && rows[i].step == rows'[i].step
  }

  lemma {:induction false} ProjectCreatesNone(rows: Rows, p: Projected, gate: Gate)
    ensures NoneCreated(rows, ProjectRows(rows, p, gate))
  {}

  lemma {:induction false} StageCreatesNone(rows: Rows, id: nat, armed: bool, readOnly: bool, b: Before, call: Call,
                                            a: After, p: Projected, gate: Gate)
    requires id in rows
    ensures NoneCreated(rows, StageTx(rows, id, armed, readOnly, b, call, a, p, gate).0)
  {
    var rows' := StageTx(rows, id, armed, readOnly, b, call, a, p, gate).0;
    forall i | i in rows' && rows'[i].status == Creating
      ensures i in rows && rows[i].status == Creating && rows[i].step == rows'[i].step
    {
      ProjectMoves(i, rows[i], p, gate);
    }
  }

  lemma {:induction false} MoveKeepsRowsInv(rows: Rows, rows': Rows, arms: seq<(nat, Step)>)
    requires RowsInv(rows) && ArmsInv(rows, arms) && RowsMove(rows, rows')
    ensures RowsInv(rows') && ArmsInv(rows', arms)
  {
    forall k | 0 <= k < |arms|
      ensures arms[k].0 in rows' && Rank(rows'[arms[k].0].step) <= Rank(arms[k].1)
        && (rows'[arms[k].0].status == Prepared ==> Rank(rows'[arms[k].0].step) < Rank(arms[k].1))
    {
      assert Moves(rows[arms[k].0], rows'[arms[k].0]);
    }
    forall i | i in rows'
      ensures rows'[i].comebacks + ReturnsLeft(rows'[i].step) <= 2 && (IsOpen(rows'[i]) ==> IsOpen(rows[i]))
    {
      assert Moves(rows[i], rows'[i]);
    }
  }

  lemma {:induction false} InsertKeepsRowsInv(rows: Rows, arms: seq<(nat, Step)>, newId: nat, r: Request)
    requires RowsInv(rows) && ArmsInv(rows, arms)
    requires newId !in rows && r.comebacks == 0 && forall i :: i in rows ==> !IsOpen(rows[i])
    ensures RowsInv(rows[newId := r]) && ArmsInv(rows[newId := r], arms)
  {}

  /** prepare leaves the rows alone, reconciles them, or adds one fresh row when none is open. */
  lemma {:induction false} PrepareCases(rows: Rows, newId: nat, ask: Ask, v: View, now: int, owner: Option<nat>,
                                        p: Projected, gate: Gate)
    returns (inserted: Option<Request>)
    ensures var rows' := PrepareTx(rows, newId, ask, v, now, owner, p, gate);
      match inserted
      case None => rows' == rows || rows' == ProjectRows(rows, p, gate)
      case Some(r) =>
        && r.comebacks == 0 && newId !in rows && (forall id :: id in rows ==> !IsOpen(rows[id]))
        && rows' == ProjectRows(rows, p, gate)[newId := r]
  {
    var reconciled := ProjectRows(rows, p, gate);
    var rows' := PrepareTx(rows, newId, ask, v, now, owner, p, gate);
    if rows' == rows || rows' == reconciled {
      inserted := None;
    } else {
      inserted := Some(NewRequest(ask, v, v.schedule.Some?));
    }
  }

  lemma {:induction false} PrepareRows(rows: Rows, arms: seq<(nat, Step)>, newId: nat, ask: Ask, v: View, now: int,
                                       owner: Option<nat>, p: Projected, gate: Gate)
    requires RowsInv(rows) && ArmsInv(rows, arms)
    ensures var rows' := PrepareTx(rows, newId, ask, v, now, owner, p, gate);
      && RowsInv(rows') && ArmsInv(rows', arms)
      && (forall k :: k in rows ==> k in rows' && Moves(rows[k], rows'[k]))
  {
    var reconciled := ProjectRows(rows, p, gate);
    ProjectRowsMove(rows, p, gate);
    MoveKeepsRowsInv(rows, reconciled, arms);
    var rows' := PrepareTx(rows, newId, ask, v, now, owner, p, gate);
    var inserted := PrepareCases(rows, newId, ask, v, now, owner, p, gate);
    if inserted.Some? {
      NoneReopen(rows, p, gate);
      InsertKeepsRowsInv(reconciled, arms, newId, inserted.value);
    }
    forall k | k in rows ensures k in rows' && Moves(rows[k], rows'[k]) {
      assert Moves(rows[k], reconciled[k]);
    }
  }

  lemma {:induction false} NoneReopen(rows: Rows, p: Projected, gate: Gate)
    requires forall id :: id in rows ==> !IsOpen(rows[id])
    ensures forall id :: id in rows ==> !IsOpen(ProjectRows(rows, p, gate)[id])
  {
    forall id | id in rows ensures !IsOpen(ProjectRows(rows, p, gate)[id]) {
      ProjectMoves(id, rows[id], p, gate);
    }
  }

  lemma {:induction false} PrepareKeepsInv(s: State, a: Action)
    requires Inv(s) && a.Prepare?
    ensures Inv(Next(s, a))
  {
    PrepareRows(s.rows, s.arms, a.newId, a.ask, a.view, a.now, a.owner, a.proj, a.gate);
    PrepareCreatesNone(s.rows, a.newId, a.ask, a.view, a.now, a.owner, a.proj, a.gate);
    RowsChangeAlone(s, PrepareTx(s.rows, a.newId, a.ask, a.view, a.now, a.owner, a.proj, a.gate));
  }

  lemma {:induction false} PrepareCreatesNone(rows: Rows, newId: nat, ask: Ask, v: View, now: int, owner: Option<nat>,
                                              p: Projected, gate: Gate)
    ensures NoneCreated(rows, PrepareTx(rows, newId, ask, v, now, owner, p, gate))
  {
    ProjectCreatesNone(rows, p, gate);
  }

  /** Rows that move without becoming Creating keep the invariant. */
  lemma {:induction false} RowsChangeAlone(s: State, rows: Rows)
    requires Inv(s) && RowsInv(rows) && ArmsInv(rows, s.arms) && NoneCreated(s.rows, rows)
    ensures Inv(s.(rows := rows))
  {}

  /** The rows after arming: a step is armed only from Prepared, so never twice. */
  lemma {:induction false} ArmKeepsRows(rows: Rows, arms: seq<(nat, Step)>, id: nat, readOnly: bool, eligible: bool,
                                        planEligible: bool)
    requires RowsInv(rows) && ArmsInv(rows, arms) && id in rows
    ensures var (r, armed) := ArmTx(rows[id], readOnly, eligible, planEligible);
      var pair := (id, rows[id].step);
      && RowsInv(rows[id := r])
      && ArmsInv(rows[id := r], if armed.Arms? then arms + [pair] else arms)
      && (armed.Arms? ==> pair !in arms)
  {
    var (r, armed) := ArmTx(rows[id], readOnly, eligible, planEligible);
    var rows' := rows[id := r];
    forall k | k in rows ensures Moves(rows[k], rows'[k]) {}
    assert RowsMove(rows, rows');
    MoveKeepsRowsInv(rows, rows', arms);
  }

  /** A driver that carries away a freshly armed step, or none. */
  lemma {:induction false} CarryKeepsDispatchInv(s: State, t: State, driver: nat, d: Driver)
    requires DispatchInv(s) && driver !in s.drivers && t.dispatches == s.dispatches
    requires t.drivers == s.drivers || t.drivers == s.drivers[driver := d]
    requires if t.drivers != s.drivers && d.armed then (d.id, d.step) !in s.arms && t.arms == s.arms + [(d.id, d.step)]
             else t.arms == s.arms
    ensures DispatchInv(t)
  {
    forall w, q | Holds(t.drivers, w, q) ensures w == driver || Holds(s.drivers, w, q) {}
  }

  lemma {:induction false} ArmKeepsInv(s: State, a: Action)
    requires Inv(s) && a.Arm?
    ensures Inv(Next(s, a))
  {
    if a.driver !in s.drivers && a.id in s.rows {
      var armed := ArmTx(s.rows[a.id], a.readOnly, a.eligible, a.planEligible).1;
      ArmKeepsRows(s.rows, s.arms, a.id, a.readOnly, a.eligible, a.planEligible);
      CarryKeepsDispatchInv(s, Next(s, a), a.driver, Driver(a.id, armed.Arms?, s.rows[a.id].step));
    }
  }

  lemma {:induction false} StageKeepsRows(rows: Rows, arms: seq<(nat, Step)>, id: nat, armed: bool, readOnly: bool,
                                          b: Before, call: Call, a: After, p: Projected, gate: Gate)
    requires RowsInv(rows) && ArmsInv(rows, arms) && CreatingInv(rows, arms) && id in rows
    ensures var rows' := StageTx(rows, id, armed, readOnly, b, call, a, p, gate).0;
      RowsInv(rows') && ArmsInv(rows', arms) && CreatingInv(rows', arms)
  {
    StageRowsMove(rows, id, armed, readOnly, b, call, a, p, gate);
    StageCreatesNone(rows, id, armed, readOnly, b, call, a, p, gate);
    MoveKeepsRowsInv(rows, StageTx(rows, id, armed, readOnly, b, call, a, p, gate).0, arms);
  }

  /** A driver leaves, having sent the step the row stood at, or nothing. */
  lemma {:induction false} LeaveKeepsDispatchInv(s: State, t: State, driver: nat, step: Step)
    requires DispatchInv(s) && driver in s.drivers && t.drivers == s.drivers - {driver} && t.arms == s.arms
    requires var d := s.drivers[driver];
      t.dispatches == s.dispatches || (d.armed && t.dispatches == s.dispatches + [Dispatch(d.id, step, d.step == step)])
    ensures DispatchInv(t)
  {
    forall w, q | Holds(t.drivers, w, q) ensures w != driver && Holds(s.drivers, w, q) {}
    var d := s.drivers[driver];
    if d.armed { assert Holds(s.drivers, driver, (d.id, d.step)); }
  }

  /** Only an armed driver calls the provider. */
  lemma {:induction false} OnlyArmedCalls(rows: Rows, id: nat, armed: bool, readOnly: bool, b: Before, call: Call,
                                          a: After, p: Projected, gate: Gate)
    requires id in rows && StageTx(rows, id, armed, readOnly, b, call, a, p, gate).1
    ensures armed && IsOpen(rows[id])
  {}

  lemma {:induction false} StageKeepsInv(s: State, a: Action)
    requires Inv(s) && a.Stage?
    ensures Inv(Next(s, a))
  {
    if a.driver in s.drivers && s.drivers[a.driver].id in s.rows {
      var d := s.drivers[a.driver];
      StageKeepsRows(s.rows, s.arms, d.id, d.armed, a.readOnly, a.before, a.call, a.after, a.proj, a.gate);
      if StageTx(s.rows, d.id, d.armed, a.readOnly, a.before, a.call, a.after, a.proj, a.gate).1 {
        OnlyArmedCalls(s.rows, d.id, d.armed, a.readOnly, a.before, a.call, a.after, a.proj, a.gate);
      }
      LeaveKeepsDispatchInv(s, Next(s, a), a.driver, s.rows[d.id].step);
    }
  }

  lemma {:induction false} StepKeepsInv(s: State, a: Action)
    requires Inv(s)
    ensures Inv(Next(s, a))
  {
    match a
    case Prepare(_, _, _, _, _, _, _) => PrepareKeepsInv(s, a);
    case Arm(_, _, _, _, _) => ArmKeepsInv(s, a);
    case Stage(_, _, _, _, _, _, _, _) => StageKeepsInv(s, a);
    case Webhook(proj, gate) =>
      ProjectRowsMove(s.rows, proj, gate);
      ProjectCreatesNone(s.rows, proj, gate);
      MoveKeepsRowsInv(s.rows, ProjectRows(s.rows, proj, gate), s.arms);
      RowsChangeAlone(s, ProjectRows(s.rows, proj, gate));
    case Crash(driver) =>
      var s' := Next(s, a);
      forall w, q | Holds(s'.drivers, w, q) ensures Holds(s.drivers, w, q) {}
  }

  lemma {:induction false} RunKeepsInv(s: State, actions: seq<Action>)
    requires Inv(s)
    ensures Inv(Run(s, actions))
    decreases actions
  {
    if actions != [] {
      StepKeepsInv(s, actions[0]);
      RunKeepsInv(Next(s, actions[0]), actions[1..]);
    }
  }

  // ---- Main results -------------------------------------------------------

  /** No action removes a row, and every row it finds moves forward. */
  lemma {:induction false} StepMovesRows(s: State, a: Action, id: nat)
    requires Inv(s) && id in s.rows
    ensures id in Next(s, a).rows && Moves(s.rows[id], Next(s, a).rows[id])
  {
    match a
    case Prepare(newId, ask, view, now, owner, proj, gate) =>
      PrepareRows(s.rows, s.arms, newId, ask, view, now, owner, proj, gate);
    case Stage(driver, readOnly, before, call, after, proj, gate, commits) =>
      if driver in s.drivers && s.drivers[driver].id in s.rows {
        StageRowsMove(s.rows, s.drivers[driver].id, s.drivers[driver].armed, readOnly, before, call, after, proj, gate);
      }
    case Webhook(proj, gate) => ProjectRowsMove(s.rows, proj, gate);
    case _ =>
  }

  /** Over any run: confirmed and expired rows stay as they are, scheduled rows end
      only as confirmed or expired, and the count of returns to Prepared never drops. */
  lemma {:induction false} RowsOnlyMoveForward(s: State, actions: seq<Action>, id: nat)
    requires Inv(s) && id in s.rows
    ensures id in Run(s, actions).rows
    ensures var r, r' := s.rows[id], Run(s, actions).rows[id];
      && (r.status in {Confirmed, Expired} ==> r'.status == r.status)
      && (r.status == Scheduled ==> r'.status in {Scheduled, Confirmed, Expired})
      && r.comebacks <= r'.comebacks
      && Rank(r'.step) <= Rank(r.step)
      && r'.kind == r.kind && r'.seats == r.seats
    decreases actions
  {
    if actions != [] {
      StepMovesRows(s, actions[0], id);
      StepKeepsInv(s, actions[0]);
      RowsOnlyMoveForward(Next(s, actions[0]), actions[1..], id);
    }
  }

  /** In every reachable state of a team: at most one request is open, no step of a
      request was armed twice, and no request went back to Prepared more than twice. */
  lemma {:induction false} RequestsAreSafe(actions: seq<Action>)
    ensures var s := Run(Init(), actions);
      && (forall i, j :: i in s.rows && j in s.rows && IsOpen(s.rows[i]) && IsOpen(s.rows[j]) ==> i == j)
      && (forall i, j :: 0 <= i < j < |s.arms| ==> s.arms[i] != s.arms[j])
      && (forall i :: i in s.rows ==> s.rows[i].comebacks <= 2)
  {
    RunKeepsInv(Init(), actions);
  }

  /** A write sent while the row still stands at the step its driver armed was
      committed as Creating first, and that step is sent in this way at most once. */
  lemma {:induction false} OwnWritesAreArmedAndUnique(actions: seq<Action>)
    ensures var s := Run(Init(), actions);
      && (forall k :: 0 <= k < |s.dispatches| && s.dispatches[k].own ==>
            (s.dispatches[k].id, s.dispatches[k].step) in s.arms)
      && (forall i, j :: 0 <= i < j < |s.dispatches| && s.dispatches[i].own && s.dispatches[j].own ==>
            (s.dispatches[i].id, s.dispatches[i].step) != (s.dispatches[j].id, s.dispatches[j].step))
  {
    RunKeepsInv(Init(), actions);
  }

  /** The provider is called by this step. */
  predicate Sends(s: State, a: Action) {
    a.Stage? && a.driver in s.drivers && s.drivers[a.driver].id in s.rows
    && StageTx(s.rows, s.drivers[a.driver].id, s.drivers[a.driver].armed, a.readOnly,
               a.before, a.call, a.after, a.proj, a.gate).1
  }

  predicate StandsCreating(rows: Rows, id: nat, step: Step) {
    id in rows && rows[id].status == Creating && rows[id].step == step
  }

  /** In some state of the run the row stood at this step as Creating. */
  predicate HasStoodCreating(actions: seq<Action>, id: nat, step: Step) {
    exists k :: 0 <= k <= |actions| && StandsCreating(Run(Init(), actions[..k]).rows, id, step)
  }

  lemma {:induction false} StoodCreatingSnoc(fewer: seq<Action>, a: Action, id: nat, step: Step)
    ensures HasStoodCreating(fewer + [a], id, step) <==>
      HasStoodCreating(fewer, id, step) || StandsCreating(Run(Init(), fewer + [a]).rows, id, step)
  {
    var all := fewer + [a];
    assert all[..|all|] == all;
    assert forall k :: 0 <= k <= |fewer| ==> all[..k] == fewer[..k];
  }

  /** A step was armed exactly if its row has stood at it as Creating. */
  lemma {:induction false} ArmedExactly(actions: seq<Action>, id: nat, step: Step)
    ensures (id, step) in Run(Init(), actions).arms <==> HasStoodCreating(actions, id, step)
  {
    if actions == [] {
      assert actions[..0] == [];
    } else {
      var n := |actions| - 1;
      var fewer := actions[..n];
      assert fewer + [actions[n]] == actions;
      StoodCreatingSnoc(fewer, actions[n], id, step);
      ArmedExactly(fewer, id, step);
      RunKeepsInv(Init(), actions);
      RunSnoc(Init(), fewer, actions[n]);
      ArmsGrowOnlyAtCreating(Run(Init(), fewer), actions[n], id, step);
    }
  }

  lemma {:induction false} ArmsGrowOnlyAtCreating(s: State, a: Action, id: nat, step: Step)
    ensures (id, step) in s.arms ==> (id, step) in Next(s, a).arms
    ensures (id, step) in Next(s, a).arms ==> (id, step) in s.arms || StandsCreating(Next(s, a).rows, id, step)
  {}

  /** Whether a write was armed, exactly: the locked row decides. Sent from Prepared it
      never was, sent from Creating it always was, and sent from Pending it was if and only
      if the row has been Creating at this very step. */
  lemma {:induction false} WriteIsArmedExactly(actions: seq<Action>, a: Action)
    requires Sends(Run(Init(), actions), a)
    ensures var s := Run(Init(), actions);
      var d := s.drivers[a.driver];
      var r, write := s.rows[d.id], (d.id, s.rows[d.id].step);
      && r.status in {Prepared, Creating, Pending}
      && (write in s.arms <==> r.status == Creating || (r.status == Pending && HasStoodCreating(actions, d.id, r.step)))
      && (d.step == r.step ==> write in s.arms)
      && Next(s, a).dispatches == s.dispatches + [Dispatch(write.0, write.1, d.step == r.step)]
  {
    RunKeepsInv(Init(), actions);
    var s := Run(Init(), actions);
    var d := s.drivers[a.driver];
    OnlyArmedCalls(s.rows, d.id, d.armed, a.readOnly, a.before, a.call, a.after, a.proj, a.gate);
    assert Holds(s.drivers, a.driver, (d.id, d.step));
    var r, write := s.rows[d.id], (d.id, s.rows[d.id].step);
    ArmedExactly(actions, d.id, r.step);
    if r.status == Prepared { PreparedIsUnarmed(s.rows, s.arms, d.id); }
  }

  lemma {:induction false} PreparedIsUnarmed(rows: Rows, arms: seq<(nat, Step)>, id: nat)
    requires ArmsInv(rows, arms) && id in rows && rows[id].status == Prepared
    ensures (id, rows[id].step) !in arms
  {
    forall k | 0 <= k < |arms| ensures arms[k] != (id, rows[id].step) {}
  }

  // ---- What each transaction decides --------------------------------------

  /** The provider's state shows the change that was asked for. */
  predicate Shown(r: Request, a: After)
    requires a.Read?
  {
    match r.kind
    case Cancel => r.step == Update && a.cancelAtPeriodEnd
    case Resume => r.step == Update && !a.cancelAtPeriodEnd
    case Increase => r.step == Update && a.seats == r.seats && a.confirmsPayment && InvoiceRead(r, a)
    case Decrease => r.step == ReleaseSchedule && r.seats == r.seatsBefore && a.schedule.None?
  }

  /** The invoice of the increase was read, if there is one to read. */
  predicate InvoiceRead(r: Request, a: After)
    requires a.Read?
  {
    a.invoiceUnreadable ==> r.invoiceId.None? || r.invoiceId == a.invoice
  }

  /** A later reduction stands in a schedule of its own. */
  predicate ShownScheduled(r: Request, a: After)
    requires a.Read?
  {
    r.step == ConfigureSchedule && a.schedule.Some? && a.matches
  }

  /** The old schedule is gone, or the new one is there, and a step is left to do. */
  predicate ShownHalfway(r: Request, a: After)
    requires a.Read?
  {
    || (r.step == ReleaseSchedule && a.schedule.None? && !(r.kind == Decrease && r.seats == r.seatsBefore))
    || (r.step == CreateSchedule && r.scheduleId.Some? && r.scheduleId == a.schedule)
  }

  /** The increase was given up: its invoice is void and the seats are as before. */
  predicate ShownVoid(r: Request, a: After)
    requires a.Read?
  {
    && r.step == Update && r.kind == Increase && !a.pendingUpdate && a.seats == r.seatsBefore && a.voided
    && InvoiceRead(r, a) && (r.invoiceId.Some? || (a.invoice.Some? && a.matchingInvoice))
  }

  /** A readable read-back decides the row, and nothing but what it shows. */
  lemma {:induction false} SettlesExactly(r: Request, a: After)
    requires a.Read? && IsOpen(r)
    ensures var r' := Settle(r, a);
      && (r'.status == Confirmed <==> !a.terminal && Shown(r, a))
      && (r'.status == Scheduled <==> !a.terminal && ShownScheduled(r, a))
      && (r'.status == Prepared <==> !a.terminal && ShownHalfway(r, a))
      && (r'.status == Expired <==> a.terminal || (ShownVoid(r, a) && !Shown(r, a)))
      && r'.status != Creating
      && r'.step == (if r'.status != Prepared then r.step else if r.step == CreateSchedule then ConfigureSchedule
                     else if r.kind == Decrease then CreateSchedule else Update)
      && r'.scheduleId == (if !a.terminal && r.step == ReleaseSchedule && a.schedule.None? then None else r.scheduleId)
      && r'.invoiceId == (if !a.terminal && r.step == Update && r.kind == Increase && r.invoiceId.None?
                             && a.matchingInvoice
                          then a.invoice else r.invoiceId)
      && r' == r.(status := r'.status, step := r'.step, scheduleId := r'.scheduleId, invoiceId := r'.invoiceId,
                  comebacks := r.comebacks + if r'.status == Prepared then 1 else 0)
  {}

  /** A step of an open row may still be sent: the plan allows it, the subscription stands as
      it did, and the schedule is the row's own or, for a new one, absent. */
  predicate MayWrite(r: Request, b: Before) {
    && (b.planEligible || r.kind.Cancel? || r.kind.Decrease?)
    && b.samePeriod && b.seats == r.seatsBefore && !b.ended && !b.pendingUpdate
    && (r.step.CreateSchedule? || r.step.Update? ==> b.schedule.None?)
    && (r.step.ReleaseSchedule? || r.step.ConfigureSchedule? ==> b.schedule.Some? && b.schedule == r.scheduleId)
    && (r.step == ReleaseSchedule ==> b.owned)
    && (r.step == ConfigureSchedule ==> b.configurable)
  }

  lemma {:induction false} MayWriteIsMayCall(r: Request, b: Before)
    ensures MayWrite(r, b) <==> MayCall(r, b)
  {
    match r.step
    case ReleaseSchedule =>
    case CreateSchedule =>
    case ConfigureSchedule =>
    case Update =>
  }

  /** An increase whose buyer has lost the right to buy in the meantime. */
  predicate LosesRight(r: Request, b: Before) {
    r.step == Update && r.kind == Increase && !b.eligible
  }

  /** The second transaction has something to do for the row. */
  predicate Works(r: Request, readOnly: bool, b: Before) {
    r.status in {Prepared, Creating, Pending} && !(r.status == Prepared && readOnly) && !b.terminal
  }

  /** It gets as far as a readable read-back. */
  predicate ReadsBack(r: Request, armed: bool, readOnly: bool, b: Before, call: Call, a: After) {
    && Works(r, readOnly, b) && a.Read?
    && (armed ==> MayWrite(r, b) && !LosesRight(r, b) && call.Called? && (r.step == CreateSchedule ==> call.owns))
  }

  /** The row with the schedule that was just created for it. */
  function WithSchedule(r: Request, armed: bool, call: Call): Request {
    if armed && call.Called? && r.step == CreateSchedule then r.(scheduleId := Some(call.created)) else r
  }

  /** What the second transaction makes of its row, and whether it writes to the provider. */
  lemma {:induction false} StageDecidesExactly(rows: Rows, id: nat, armed: bool, readOnly: bool, b: Before, call: Call,
                                               a: After, p: Projected, gate: Gate)
    requires id in rows
    ensures var r := rows[id];
      var (rows', called) := StageTx(rows, id, armed, readOnly, b, call, a, p, gate);
      && id in rows'
      && (called <==> armed && Works(r, readOnly, b) && MayWrite(r, b) && !LosesRight(r, b))
      && (!IsOpen(r) || (r.status == Prepared && readOnly) ==> rows' == rows)
      && (IsOpen(r) && !(r.status == Prepared && readOnly) && b.terminal ==>
            rows'[id] == r.(status := Expired,
                            invoiceId := if gate == Applied && Paid(id, r, p) then p.invoice else r.invoiceId))
      && (Works(r, readOnly, b) && armed && !MayWrite(r, b) ==> rows'[id] == r.(status := Pending))
      && (Works(r, readOnly, b) && armed && MayWrite(r, b) && LosesRight(r, b) ==> rows'[id] == r.(status := Expired))
      && (called && !ReadsBack(r, armed, readOnly, b, call, a) ==>
            rows'[id] == WithSchedule(r, armed, call).(status := Pending))
      && (Works(r, readOnly, b) && !armed && a.Unreadable? ==> rows'[id] == r.(status := Pending))
  {
    MayWriteIsMayCall(rows[id], b);
    ProjectMoves(id, rows[id], p, gate);
  }

  /** After a readable read-back the row is what it shows. */
  lemma {:induction false} ReadBackDecides(rows: Rows, id: nat, armed: bool, readOnly: bool, b: Before, call: Call,
                                           a: After, p: Projected, gate: Gate)
    requires id in rows && ReadsBack(rows[id], armed, readOnly, b, call, a)
    ensures var r := WithSchedule(rows[id], armed, call);
      var rows' := StageTx(rows, id, armed, readOnly, b, call, a, p, gate).0;
      && id in rows'
      && (rows'[id].status == Confirmed <==> !a.terminal && Shown(r, a))
      && (rows'[id].status == Scheduled <==> !a.terminal && ShownScheduled(r, a))
      && (rows'[id].status == Prepared <==> !a.terminal && ShownHalfway(r, a))
      && (rows'[id].status == Expired <==> a.terminal || (ShownVoid(r, a) && !Shown(r, a)))
      && rows'[id].status != Creating
  {
    var r := WithSchedule(rows[id], armed, call);
    MayWriteIsMayCall(rows[id], b);
    StageSettles(rows, id, armed, readOnly, b, call, a, p, gate);
    SettlesExactly(r, a);
  }

  // ---- What the projection decides ----------------------------------------

  /** The payment of a live increase is there: the new seats are the asked ones. */
  predicate Paid(id: nat, r: Request, p: Projected) {
    && r.subscription == p.subscription && r.kind == Increase && r.status in {Creating, Pending}
    && !p.terminal && p.seats == r.seats && id in p.confirms
  }

  /** The invoice of a live increase is void and the seats are as before. */
  predicate Voided(r: Request, p: Projected) {
    && r.subscription == p.subscription && r.kind == Increase && r.status in {Creating, Pending}
    && !p.pendingUpdate && p.seats == r.seatsBefore && r.invoiceId.Some? && r.invoiceId == p.voided
  }

  /** A scheduled reduction stands in the period it was scheduled for. */
  predicate Fulfilled(r: Request, p: Projected) {
    && r.subscription == p.subscription && r.kind == Decrease && r.status == Scheduled
    && r.seats == p.seats && r.periodEnd <= p.periodStart
  }

  /** The contract is over while the request waits. */
  predicate Over(r: Request, p: Projected) {
    p.terminal && r.subscription == p.subscription && r.status in {Prepared, Creating, Pending, Scheduled}
  }

  /** A projection confirms a request exactly when it is paid or fulfilled, ends it exactly
      when it is void or over, and otherwise leaves it alone. */
  lemma {:induction false} ProjectsExactly(id: nat, r: Request, p: Projected, gate: Gate)
    ensures var r' := ProjectRow(id, r, p, gate);
      var confirms := gate == Applied && (Paid(id, r, p) || Fulfilled(r, p));
      var ends := !confirms && ((gate != Rejected && Voided(r, p)) || (gate == Applied && Over(r, p)));
      r' == if confirms then r.(status := Confirmed, invoiceId := if Paid(id, r, p) then p.invoice else r.invoiceId)
            else if ends then r.(status := Expired) else r
  {}

  /** The webhook projects every row and nothing else; a stage that rolls back has sent its
      write all the same; and a driver remembers the step it armed. */
  lemma {:induction false} ActionsExactly(s: State, a: Action, id: nat)
    requires id in s.rows
    ensures var t := Next(s, a);
      a.Webhook? ==>
        var r, p := s.rows[id], a.proj;
        var confirms := a.gate == Applied && (Paid(id, r, p) || Fulfilled(r, p));
        && t == s.(rows := t.rows) && t.rows.Keys == s.rows.Keys
        && (t.rows[id].status == Confirmed <==> r.status == Confirmed || confirms)
        && (t.rows[id].status == Expired <==>
              || r.status == Expired
              || (!confirms && ((a.gate != Rejected && Voided(r, p)) || (a.gate == Applied && Over(r, p)))))
    ensures var t := Next(s, a);
      a.Stage? && a.driver in s.drivers && s.drivers[a.driver].id == id ==>
        var r, d := s.rows[id], s.drivers[a.driver];
        var called := d.armed && Works(r, a.readOnly, a.before) && MayWrite(r, a.before) && !LosesRight(r, a.before);
        && t.dispatches == (if called then s.dispatches + [Dispatch(id, r.step, d.step == r.step)] else s.dispatches)
        && (!a.commits ==> t.rows == s.rows) && t.drivers == s.drivers - {a.driver} && t.arms == s.arms
    ensures var t := Next(s, a);
      a.Arm? && a.driver !in s.drivers && a.id == id ==>
        var r := s.rows[id];
        var begins := r.status == Prepared && !a.readOnly;
        var buys, plans := r.kind == Increase ==> a.eligible, r.kind in {Cancel, Decrease} || a.planEligible;
        && t.dispatches == s.dispatches && t.rows.Keys == s.rows.Keys
        && t.arms == (if begins && buys && plans then s.arms + [(id, r.step)] else s.arms)
        && t.drivers == (if begins && !buys then s.drivers
                         else s.drivers[a.driver := Driver(id, begins && buys && plans, r.step)])
    ensures var t := Next(s, a);
      a.Crash? ==> t == s.(drivers := t.drivers) && forall d :: d in t.drivers <==> d in s.drivers && d != a.driver
  {
    match a
    case Webhook(proj, gate) => ProjectsExactly(id, s.rows[id], proj, gate);
    case Stage(driver, readOnly, before, call, after, proj, gate, _) =>
      if driver in s.drivers && s.drivers[driver].id == id {
        StageDecidesExactly(s.rows, id, s.drivers[driver].armed, readOnly, before, call, after, proj, gate);
      }
    case Arm(_, armedId, readOnly, eligible, planEligible) =>
      if armedId == id { ArmsExactly(s.rows[id], readOnly, eligible, planEligible); }
    case _ =>
  }

  /** What a readable read-back leaves besides the status: the step and the schedule it settles
      on, and the invoice it names or the one the projection finds paid. */
  lemma {:induction false} ReadBackRecordsExactly(rows: Rows, id: nat, armed: bool, readOnly: bool, b: Before,
                                                  call: Call, a: After, p: Projected, gate: Gate)
    requires id in rows && ReadsBack(rows[id], armed, readOnly, b, call, a)
    ensures var r := WithSchedule(rows[id], armed, call);
      var rows' := StageTx(rows, id, armed, readOnly, b, call, a, p, gate).0;
      var named := if !a.terminal && r.step == Update && r.kind == Increase && r.invoiceId.None? && a.matchingInvoice
                   then a.invoice else r.invoiceId;
      var projects := (a.terminal || (r.step == Update && Shown(r, a))) && gate == Applied;
      && id in rows'
      && rows'[id] == Settle(r, a).(invoiceId := if projects && Paid(id, r.(invoiceId := named), p) then p.invoice
                                                 else named)
  {
    var r := WithSchedule(rows[id], armed, call);
    MayWriteIsMayCall(rows[id], b);
    SettlesExactly(r, a);
    ProjectsExactly(id, r.(invoiceId := Settle(r, a).invoiceId), p, gate);
  }

  /** What a stage does to the other rows: a released schedule ends the reductions that stood
      in it, and an ended contract or a confirmed update projects the subscription. */
  lemma {:induction false} OtherRowsExactly(rows: Rows, id: nat, armed: bool, readOnly: bool, b: Before, call: Call,
                                            a: After, p: Projected, gate: Gate, k: nat)
    requires id in rows && k in rows && k != id
    ensures var r := WithSchedule(rows[id], armed, call);
      var rows' := StageTx(rows, id, armed, readOnly, b, call, a, p, gate).0;
      var seen := ReadsBack(rows[id], armed, readOnly, b, call, a);
      && k in rows'
      && rows'[k] ==
           if IsOpen(rows[id]) && !(rows[id].status == Prepared && readOnly) && b.terminal
           then ProjectRow(k, rows[k], p, gate)
           else if seen && (a.terminal || (r.step == Update && Shown(r, a))) then ProjectRow(k, rows[k], p, gate)
           else if seen && r.step == ReleaseSchedule && a.schedule.None? && r.scheduleId.Some?
                   && rows[k].status == Scheduled && rows[k].scheduleId == r.scheduleId then rows[k].(status := Expired)
           else rows[k]
  {
    var r := WithSchedule(rows[id], armed, call);
    var rows' := StageTx(rows, id, armed, readOnly, b, call, a, p, gate).0;
    MayWriteIsMayCall(rows[id], b);
    if ReadsBack(rows[id], armed, readOnly, b, call, a) {
      SettlesExactly(r, a);
      assert Reconciles(r, a) <==> a.terminal || (r.step == Update && Shown(r, a));
      if Reconciles(r, a) {
        assert rows'[k] == ProjectRow(k, rows[k], p, gate);
      } else {
        assert rows'[k] == (if r.step == ReleaseSchedule && a.schedule.None? && r.scheduleId.Some?
                   && rows[k].status == Scheduled && rows[k].scheduleId == r.scheduleId
                then rows[k].(status := Expired) else rows[k]);
      }
    } else if b.terminal {
      ProjectionOnly(rows, id, armed, readOnly, b, call, a, p, gate, k);
    } else {
      NoReadBackNoChange(rows, id, armed, readOnly, b, call, a, p, gate, k);
    }
  }

  lemma {:induction false} ProjectionOnly(rows: Rows, id: nat, armed: bool, readOnly: bool, b: Before, call: Call,
                                          a: After, p: Projected, gate: Gate, k: nat)
    requires id in rows && k in rows && k != id && b.terminal
    ensures var rows' := StageTx(rows, id, armed, readOnly, b, call, a, p, gate).0;
      && k in rows'
      && rows'[k] == if IsOpen(rows[id]) && !(rows[id].status == Prepared && readOnly)
                     then ProjectRow(k, rows[k], p, gate)
                     else rows[k]
  {}

  lemma {:induction false} NoReadBackNoChange(rows: Rows, id: nat, armed: bool, readOnly: bool, b: Before, call: Call,
                                              a: After, p: Projected, gate: Gate, k: nat)
    requires id in rows && k in rows && k != id && !b.terminal && !ReadsBack(rows[id], armed, readOnly, b, call, a)
    ensures var rows' := StageTx(rows, id, armed, readOnly, b, call, a, p, gate).0; k in rows' && rows'[k] == rows[k]
  {
    var rows' := StageTx(rows, id, armed, readOnly, b, call, a, p, gate).0;
    var r := rows[id];
    MayWriteIsMayCall(r, b);
    if !Works(r, readOnly, b) {
      assert rows' == rows;
    } else if armed && !MayCall(r, b) {
      assert rows'[k] == rows[k];
    } else if armed && DeniedLate(r, b) {
      assert rows'[k] == rows[k];
    } else if a.Read? {
      assert call.CallFailed? || (r.step == CreateSchedule && !call.owns);
      assert rows'[k] == rows[k];
    }
  }

  // ---- What prepare and the first transaction decide ----------------------

  /** The first transaction arms exactly a prepared row of a deployment that may write, whose
      buyer may still buy and whose plan allows it; a buyer who may not closes the row. */
  lemma {:induction false} ArmsExactly(r: Request, readOnly: bool, eligible: bool, planEligible: bool)
    ensures var (r', armed) := ArmTx(r, readOnly, eligible, planEligible);
      var begins := r.status == Prepared && !readOnly;
      var buys, plans := r.kind == Increase ==> eligible, r.kind in {Cancel, Decrease} || planEligible;
      && (armed.Arms? <==> begins && buys && plans)
      && (armed.Throws? <==> begins && !buys)
      && r' == (if !begins then r else if buys && plans then r.(status := Creating) else r.(status := Expired))
  {}

  /** The subscription can be changed this way now. */
  predicate CanChange(ask: Ask, v: View, now: int) {
    && (v.active || v.trialing || v.pastDue) && v.periodStart <= now < v.periodEnd && !v.pendingUpdate
    && !(v.cancelAt && !v.cancelAtPeriodEnd)
    && match ask
       case AskCancel => !v.cancelAtPeriodEnd
       case AskResume => v.cancelAtPeriodEnd && (v.active || v.trialing)
       case AskQuantity(wanted) =>
         && v.active && !v.cancelAtPeriodEnd && v.automatic && !v.adjusted && !v.hasPlan
         && 1 <= wanted <= 10000 && v.included <= wanted
         && (wanted > v.seats ==> v.eligible)
         && (wanted == v.seats ==> v.schedule.Some?)
       case AskReconcile => false
  }

  /** A schedule on the subscription must be one of the team's own reductions and must be
      readable, and so must a new one. */
  predicate SchedulesReadable(rows: Rows, ask: Ask, v: View, owner: Option<nat>) {
    && (v.schedule.Some? ==> v.canReadSchedules && owner.Some? && owner.value in rows
                             && owner.value in v.scheduleMatches
                             && rows[owner.value].kind.Decrease? && rows[owner.value].subscription == v.subscription
                             && rows[owner.value].scheduleId == v.schedule
                             && (rows[owner.value].status.Scheduled? || rows[owner.value].status.Confirmed?))
    && (ask.AskQuantity? && ask.wanted <= v.seats ==> v.canReadSchedules)
  }

  /** A request is written exactly when none is open and the change can be made, and it says
      what was asked for and which step comes first. */
  lemma {:induction false} PreparesExactly(rows: Rows, newId: nat, ask: Ask, v: View, now: int, owner: Option<nat>,
                                           p: Projected, gate: Gate)
    requires newId !in rows
    ensures var rows' := PrepareTx(rows, newId, ask, v, now, owner, p, gate);
      && (newId in rows' <==>
            && (forall id :: id in rows ==> rows[id].status !in {Prepared, Creating, Pending})
            && CanChange(ask, v, now) && SchedulesReadable(ProjectRows(rows, p, gate), ask, v, owner))
      && (newId in rows' ==> rows' - {newId} == ProjectRows(rows, p, gate) && IsWhatWasAsked(rows'[newId], ask, v))
  {
    var rows' := PrepareTx(rows, newId, ask, v, now, owner, p, gate);
    if newId in rows' { assert rows' - {newId} == ProjectRows(rows, p, gate); }
  }

  predicate IsWhatWasAsked(r: Request, ask: Ask, v: View) {
    && r.subscription == v.subscription && r.status == Prepared
    && r.seatsBefore == v.seats && r.periodEnd == v.periodEnd
    && r.invoiceId.None? && r.scheduleId == v.schedule && r.comebacks == 0
    && (ask.AskCancel? ==> r.kind == Cancel && r.seats == v.seats)
    && (ask.AskResume? ==> r.kind == Resume && r.seats == v.seats)
    && (ask.AskQuantity? ==> r.seats == ask.wanted && r.kind == (if ask.wanted > v.seats then Increase else Decrease))
    && r.step == (if v.schedule.Some? then ReleaseSchedule
                  else if r.kind == Decrease then CreateSchedule else Update)
  }

  /** A request for reconciliation projects the subscription when no request is open. */
  lemma {:induction false} ReconcilesExactly(rows: Rows, newId: nat, v: View, now: int, owner: Option<nat>,
                                             p: Projected, gate: Gate)
    ensures PrepareTx(rows, newId, AskReconcile, v, now, owner, p, gate) ==
      if (exists id :: id in rows && IsOpen(rows[id])) then rows else ProjectRows(rows, p, gate)
  {}

  // ---- Over every run -----------------------------------------------------

  /** The stage of this action reads the row's asked change back. */
  predicate StageShows(s: State, a: Action, id: nat) {
    && a.Stage? && a.driver in s.drivers && s.drivers[a.driver].id == id && id in s.rows
    && var armed := s.drivers[a.driver].armed;
    && ReadsBack(s.rows[id], armed, a.readOnly, a.before, a.call, a.after) && !a.after.terminal
    && Shown(WithSchedule(s.rows[id], armed, a.call), a.after)
  }

  /** The action projects the subscription and finds the row paid or fulfilled. */
  predicate ProjectionShows(s: State, a: Action, id: nat) {
    && (a.Stage? || a.Webhook? || a.Prepare?) && a.gate == Applied && id in s.rows
    && (Paid(id, s.rows[id], a.proj) || Fulfilled(s.rows[id], a.proj))
  }

  /** Over every run, a request becomes confirmed only by a read-back that shows its change,
      or by a projection that finds it paid or fulfilled. */
  lemma {:induction false} ConfirmedMeansShown(actions: seq<Action>, a: Action, id: nat)
    requires var s := Run(Init(), actions);
      id in s.rows && s.rows[id].status != Confirmed && id in Next(s, a).rows && Next(s, a).rows[id].status == Confirmed
    ensures var s := Run(Init(), actions); StageShows(s, a, id) || ProjectionShows(s, a, id)
  {
    var s := Run(Init(), actions);
    if a.Stage? {
      var d := s.drivers[a.driver];
      if d.id == id { OwnConfirmed(s, a, id); } else { OtherConfirmed(s, a, id); }
    } else if !a.Arm? {
      ProjectsExactly(id, s.rows[id], a.proj, a.gate);
    }
  }

  lemma {:induction false} OwnConfirmed(s: State, a: Action, id: nat)
    requires a.Stage? && a.driver in s.drivers && s.drivers[a.driver].id == id && id in s.rows
    requires s.rows[id].status != Confirmed && id in Next(s, a).rows && Next(s, a).rows[id].status == Confirmed
    ensures StageShows(s, a, id)
  {
    var armed := s.drivers[a.driver].armed;
    StageDecidesExactly(s.rows, id, armed, a.readOnly, a.before, a.call, a.after, a.proj, a.gate);
    if ReadsBack(s.rows[id], armed, a.readOnly, a.before, a.call, a.after) {
      ReadBackDecides(s.rows, id, armed, a.readOnly, a.before, a.call, a.after, a.proj, a.gate);
    }
  }

  lemma {:induction false} OtherConfirmed(s: State, a: Action, id: nat)
    requires a.Stage? && a.driver in s.drivers && s.drivers[a.driver].id in s.rows
    requires s.drivers[a.driver].id != id && id in s.rows
    requires s.rows[id].status != Confirmed && id in Next(s, a).rows && Next(s, a).rows[id].status == Confirmed
    ensures ProjectionShows(s, a, id)
  {
    var d := s.drivers[a.driver];
    OtherRowsExactly(s.rows, d.id, d.armed, a.readOnly, a.before, a.call, a.after, a.proj, a.gate, id);
    ProjectsExactly(id, s.rows[id], a.proj, a.gate);
  }

  /** A request becomes scheduled only when its own schedule is read back as asked. */
  lemma {:induction false} ScheduledMeansShown(s: State, a: Action, id: nat)
    requires id in s.rows && s.rows[id].status != Scheduled
    requires id in Next(s, a).rows && Next(s, a).rows[id].status == Scheduled
    ensures a.Stage? && a.driver in s.drivers && s.drivers[a.driver].id == id && a.after.Read? && a.commits
    ensures s.rows[id].step == ConfigureSchedule && a.after.schedule.Some? && a.after.matches && !a.after.terminal
  {
    if a.Stage? {
      var d := s.drivers[a.driver];
      if d.id == id {
        StageDecidesExactly(s.rows, id, d.armed, a.readOnly, a.before, a.call, a.after, a.proj, a.gate);
        if ReadsBack(s.rows[id], d.armed, a.readOnly, a.before, a.call, a.after) {
          ReadBackDecides(s.rows, id, d.armed, a.readOnly, a.before, a.call, a.after, a.proj, a.gate);
        }
      } else {
        OtherRowsExactly(s.rows, d.id, d.armed, a.readOnly, a.before, a.call, a.after, a.proj, a.gate, id);
        ProjectsExactly(id, s.rows[id], a.proj, a.gate);
      }
    } else if !a.Arm? && !a.Crash? {
      ProjectsExactly(id, s.rows[id], a.proj, a.gate);
    }
  }

  // ---- With the missing guard ---------------------------------------------

  /** The state as a second transaction sees it that also compares the step: a driver
      whose row has moved on counts as unarmed. */
  function Guarded(s: State, a: Action): State {
    if a.Stage? && a.driver in s.drivers && s.drivers[a.driver].id in s.rows
       && s.drivers[a.driver].step != s.rows[s.drivers[a.driver].id].step
    then s.(drivers := s.drivers[a.driver := s.drivers[a.driver].(armed := false)])
    else s
  }

  function RunGuarded(s: State, actions: seq<Action>): State
    decreases actions
  {
    if actions == [] then s else RunGuarded(Next(Guarded(s, actions[0]), actions[0]), actions[1..])
  }

  ghost predicate AllOwn(s: State) {
    forall k :: 0 <= k < |s.dispatches| ==> s.dispatches[k].own
  }

  lemma {:induction false} GuardKeepsInv(s: State, a: Action)
    requires Inv(s)
    ensures Inv(Guarded(s, a))
  {
    var t := Guarded(s, a);
    forall w, q | Holds(t.drivers, w, q) ensures Holds(s.drivers, w, q) {}
  }

  lemma {:induction false} GuardedStepIsOwn(s: State, a: Action)
    requires AllOwn(s)
    ensures AllOwn(Next(Guarded(s, a), a))
  {
    var t := Guarded(s, a);
    if Sends(t, a) {
      var d := t.drivers[a.driver];
      OnlyArmedCalls(t.rows, d.id, d.armed, a.readOnly, a.before, a.call, a.after, a.proj, a.gate);
    }
  }

  lemma {:induction false} GuardedRunIsOwn(s: State, actions: seq<Action>)
    requires Inv(s) && AllOwn(s)
    ensures Inv(RunGuarded(s, actions)) && AllOwn(RunGuarded(s, actions))
    decreases actions
  {
    if actions != [] {
      GuardKeepsInv(s, actions[0]);
      StepKeepsInv(Guarded(s, actions[0]), actions[0]);
      GuardedStepIsOwn(s, actions[0]);
      GuardedRunIsOwn(Next(Guarded(s, actions[0]), actions[0]), actions[1..]);
    }
  }

  /** Comparing the step is enough: over every run then, each provider write was armed
      first and is sent at most once. */
  lemma {:induction false} GuardArmsEveryWrite(actions: seq<Action>)
    ensures var s := RunGuarded(Init(), actions);
      && (forall k :: 0 <= k < |s.dispatches| ==> (s.dispatches[k].id, s.dispatches[k].step) in s.arms)
      && (forall i, j :: 0 <= i < j < |s.dispatches| ==>
            (s.dispatches[i].id, s.dispatches[i].step) != (s.dispatches[j].id, s.dispatches[j].step))
  {
    GuardedRunIsOwn(Init(), actions);
  }

  // ---- A step no driver armed ---------------------------------------------

  lemma {:induction false} RunSnoc(s: State, actions: seq<Action>, a: Action)
    ensures Run(s, actions + [a]) == Next(Run(s, actions), a)
    decreases actions
  {
    if actions == [] {
      assert actions + [a] == [a] && [a][1..] == [];
      assert Run(s, [a]) == Run(Next(s, a), []);
    } else {
      assert (actions + [a])[1..] == actions[1..] + [a];
      RunSnoc(Next(s, actions[0]), actions[1..], a);
    }
  }

  function SampleView(schedule: Option<nat>, matches: set<nat>): View {
    View(1, true, false, false, 0, 100, false, 2, false, false, true, false, 1, false, schedule, matches, true, true)
  }

  function SampleBefore(schedule: Option<nat>): Before {
    Before(false, true, true, 2, false, false, schedule, true, true, true)
  }

  function SampleAfter(schedule: Option<nat>, matches: bool): After {
    Read(false, schedule, matches, 2, false, false, None, false, false, false, false)
  }

  function NoProjection(): Projected {
    Projected(1, false, false, 2, 0, None, {}, None)
  }

  function SampleStage(driver: nat, before: Option<nat>, after: Option<nat>, matches: bool): Action {
    Stage(driver, false, SampleBefore(before), Called(7, true), SampleAfter(after, matches),
          NoProjection(), Rejected, true)
  }

  /** The reduction as it was asked for. */
  function Asked(): Request {
    Request(1, Decrease, Prepared, CreateSchedule, 2, 1, 100, None, None, 0)
  }

  function AskReduction(): Action {
    Prepare(1, AskQuantity(1), SampleView(None, {}), 5, None, NoProjection(), Rejected)
  }

  lemma {:induction false} ReductionIsAsked()
    ensures Next(Init(), AskReduction()) == State(map[1 := Asked()], map[], [], [])
  {
    assert ProjectRows(map[], NoProjection(), Rejected) == map[];
  }

  /** The first stage creates schedule 7 and comes back to configure it. */
  lemma {:induction false} ScheduleIsCreated(s: State)
    requires s == State(map[1 := Asked()], map[], [], [])
    ensures Next(Next(s, Arm(0, 1, false, true, true)), SampleStage(0, None, Some(7), false))
      == State(map[1 := Asked().(step := ConfigureSchedule, scheduleId := Some(7), comebacks := 1)],
               map[], [(1, CreateSchedule)], [Dispatch(1, CreateSchedule, true)])
  {
    var armed := Next(s, Arm(0, 1, false, true, true));
    assert armed == State(map[1 := Asked().(status := Creating)], map[0 := Driver(1, true, CreateSchedule)],
                          [(1, CreateSchedule)], []);
  }

  /** The second configures it, and the row is scheduled. */
  lemma {:induction false} ScheduleIsConfigured(s: State)
    requires s == State(map[1 := Asked().(step := ConfigureSchedule, scheduleId := Some(7), comebacks := 1)],
                        map[], [(1, CreateSchedule)], [Dispatch(1, CreateSchedule, true)])
    ensures Next(Next(s, Arm(0, 1, false, true, true)), SampleStage(0, Some(7), Some(7), true))
      == State(map[1 := Reduced()], map[], [(1, CreateSchedule), (1, ConfigureSchedule)],
               [Dispatch(1, CreateSchedule, true), Dispatch(1, ConfigureSchedule, true)])
  {
    var armed := Next(s, Arm(0, 1, false, true, true));
    assert armed == s.(rows := map[1 := s.rows[1].(status := Creating)],
                       drivers := map[0 := Driver(1, true, ConfigureSchedule)],
                       arms := [(1, CreateSchedule), (1, ConfigureSchedule)]);
  }

  /** A reduction is scheduled: one row at Scheduled owning schedule 7. */
  lemma {:induction false} ScheduledReduction() returns (actions: seq<Action>)
    ensures Run(Init(), actions)
      == State(map[1 := Reduced()], map[], [(1, CreateSchedule), (1, ConfigureSchedule)],
               [Dispatch(1, CreateSchedule, true), Dispatch(1, ConfigureSchedule, true)])
  {
    var a1, a2 := AskReduction(), Arm(0, 1, false, true, true);
    var a3, a5 := SampleStage(0, None, Some(7), false), SampleStage(0, Some(7), Some(7), true);
    actions := [] + [a1] + [a2] + [a3] + [a2] + [a5];
    RunFive(Init(), [], a1, a2, a3, a2, a5);
    ReductionIsAsked();
    ScheduleIsCreated(Next(Init(), a1));
    ScheduleIsConfigured(Next(Next(Next(Init(), a1), a2), a3));
  }

  function Reduced(): Request {
    Request(1, Decrease, Scheduled, ConfigureSchedule, 2, 1, 100, Some(7), None, 1)
  }

  function Cancelling(): Request {
    Request(1, Kind.Cancel, Prepared, ReleaseSchedule, 2, 2, 100, Some(7), None, 0)
  }

  /** The reduction of `ScheduledReduction` with a cancellation beside it. */
  function Beside(r: Request, drivers: map<nat, Driver>, arms: seq<(nat, Step)>, sent: seq<Dispatch>): State {
    State(map[1 := Reduced(), 2 := r], drivers, [(1, CreateSchedule), (1, ConfigureSchedule)] + arms,
          [Dispatch(1, CreateSchedule, true), Dispatch(1, ConfigureSchedule, true)] + sent)
  }

  lemma {:induction false} CancelIsPrepared(s: State)
    requires s == State(map[1 := Reduced()], map[], [(1, CreateSchedule), (1, ConfigureSchedule)],
                        [Dispatch(1, CreateSchedule, true), Dispatch(1, ConfigureSchedule, true)])
    ensures Next(s, Prepare(2, AskCancel, SampleView(Some(7), {1}), 5, Some(1), NoProjection(), Rejected))
      == Beside(Cancelling(), map[], [], [])
  {
    assert ProjectRows(s.rows, NoProjection(), Rejected) == s.rows;
    assert OwnsSchedule(s.rows, 1, SampleView(Some(7), {1}));
  }

  lemma {:induction false} TwoDriversStart()
    ensures Next(Next(Beside(Cancelling(), map[], [], []), Arm(10, 2, false, true, true)),
                 Arm(11, 2, false, true, true))
      == Beside(Cancelling().(status := Creating),
                map[10 := Driver(2, true, ReleaseSchedule), 11 := Driver(2, false, ReleaseSchedule)],
                [(2, ReleaseSchedule)], [])
  {
    var s := Beside(Cancelling(), map[], [], []);
    var s1 := Next(s, Arm(10, 2, false, true, true));
    assert s1 == Beside(Cancelling().(status := Creating), map[10 := Driver(2, true, ReleaseSchedule)],
                        [(2, ReleaseSchedule)], []);
  }

  lemma {:induction false} ReadBackMovesOn()
    ensures Next(Beside(Cancelling().(status := Creating),
                        map[10 := Driver(2, true, ReleaseSchedule), 11 := Driver(2, false, ReleaseSchedule)],
                        [(2, ReleaseSchedule)], []),
                 SampleStage(11, Some(7), None, false)).rows[2]
      == Cancelling().(step := Update, scheduleId := None, comebacks := 1)
    ensures var s' := Next(Beside(Cancelling().(status := Creating),
                        map[10 := Driver(2, true, ReleaseSchedule), 11 := Driver(2, false, ReleaseSchedule)],
                        [(2, ReleaseSchedule)], []),
                 SampleStage(11, Some(7), None, false));
      && s'.drivers == map[10 := Driver(2, true, ReleaseSchedule)]
      && s'.arms == [(1, CreateSchedule), (1, ConfigureSchedule), (2, ReleaseSchedule)]
      && s'.rows.Keys == {1, 2}
  {}

  lemma {:induction false} OvertakenSends(s: State)
    requires 2 in s.rows && s.rows[2] == Cancelling().(step := Update, scheduleId := None, comebacks := 1)
    requires s.drivers == map[10 := Driver(2, true, ReleaseSchedule)]
    ensures var s' := Next(s, SampleStage(10, None, None, false));
      s'.dispatches == s.dispatches + [Dispatch(2, Update, false)] && s'.arms == s.arms
  {}

  lemma {:induction false} RunFive(s: State, start: seq<Action>, a1: Action, a2: Action, a3: Action, a4: Action,
                                   a5: Action)
    ensures Run(s, start + [a1] + [a2] + [a3] + [a4] + [a5])
      == Next(Next(Next(Next(Next(Run(s, start), a1), a2), a3), a4), a5)
  {
    RunSnoc(s, start, a1);
    RunSnoc(s, start + [a1], a2);
    RunSnoc(s, start + [a1] + [a2], a3);
    RunSnoc(s, start + [a1] + [a2] + [a3], a4);
    RunSnoc(s, start + [a1] + [a2] + [a3] + [a4], a5);
  }

  predicate SentUnarmed(s: State) {
    exists k :: 0 <= k < |s.dispatches| && !s.dispatches[k].own
      && (s.dispatches[k].id, s.dispatches[k].step) !in s.arms
  }

  lemma {:induction false} LastSendIsUnarmed(s: State, sent: seq<Dispatch>)
    requires s.dispatches == sent + [Dispatch(2, Update, false)]
    requires s.arms == [(1, CreateSchedule), (1, ConfigureSchedule), (2, ReleaseSchedule)]
    ensures SentUnarmed(s)
  {
    assert s.dispatches[|sent|] == Dispatch(2, Update, false);
    assert (2, Update) !in s.arms;
  }

  /** The second transaction trusts `armed` without comparing the step: a driver armed to
      release a schedule can send an update nobody armed, while the row says Prepared,
      after another driver's read-back moved the row on. */
  lemma {:induction false} OvertakenDriverSendsAnUnarmedStep()
    ensures exists actions :: SentUnarmed(Run(Init(), actions))
  {
    var start := ScheduledReduction();
    var a1 := Prepare(2, AskCancel, SampleView(Some(7), {1}), 5, Some(1), NoProjection(), Rejected);
    var a2, a3 := Arm(10, 2, false, true, true), Arm(11, 2, false, true, true);
    var a4, a5 := SampleStage(11, Some(7), None, false), SampleStage(10, None, None, false);
    OvertakenEnd(Run(Init(), start), a1, a2, a3, a4, a5);
    RunFive(Init(), start, a1, a2, a3, a4, a5);
    Reached(start + [a1] + [a2] + [a3] + [a4] + [a5]);
  }

  lemma {:induction false} Reached(actions: seq<Action>)
    requires SentUnarmed(Run(Init(), actions))
    ensures exists some :: SentUnarmed(Run(Init(), some))
  {}

  lemma {:induction false} OvertakenEnd(s0: State, a1: Action, a2: Action, a3: Action, a4: Action, a5: Action)
    requires s0 == State(map[1 := Reduced()], map[], [(1, CreateSchedule), (1, ConfigureSchedule)],
                         [Dispatch(1, CreateSchedule, true), Dispatch(1, ConfigureSchedule, true)])
    requires a1 == Prepare(2, AskCancel, SampleView(Some(7), {1}), 5, Some(1), NoProjection(), Rejected)
    requires a2 == Arm(10, 2, false, true, true) && a3 == Arm(11, 2, false, true, true)
    requires a4 == SampleStage(11, Some(7), None, false) && a5 == SampleStage(10, None, None, false)
    ensures SentUnarmed(Next(Next(Next(Next(Next(s0, a1), a2), a3), a4), a5))
  {
    CancelIsPrepared(s0);
    TwoDriversStart();
    ReadBackMovesOn();
    var s4 := Next(Next(Next(Next(s0, a1), a2), a3), a4);
    OvertakenSends(s4);
    LastSendIsUnarmed(Next(s4, a5), s4.dispatches);
  }

  // ---- A write sent from Pending may be either ----------------------------

  function Unread(driver: nat, before: Option<nat>): Action {
    Stage(driver, false, SampleBefore(before), Called(7, true), Unreadable, NoProjection(), Rejected, true)
  }

  /** The provider is called for a row standing at Pending, at a step that was armed or not. */
  predicate SendsPending(s: State, a: Action, armed: bool) {
    && Sends(s, a)
    && var id := s.drivers[a.driver].id;
    && s.rows[id].status == Pending && (armed <==> (id, s.rows[id].step) in s.arms)
  }

  lemma {:induction false} ParkedAfterArming(s: State)
    requires s == State(map[1 := Asked()], map[], [], [])
    ensures SendsPending(Next(Next(Next(s, Arm(0, 1, false, true, true)), Arm(1, 1, false, true, true)),
                              Unread(1, None)),
                         SampleStage(0, None, Some(7), false), true)
  {
    var pair := (1, CreateSchedule);
    var s1 := State(map[1 := Asked().(status := Creating)], map[0 := Driver(1, true, CreateSchedule)], [pair], []);
    var s2 := s1.(drivers := map[0 := Driver(1, true, CreateSchedule), 1 := Driver(1, false, CreateSchedule)]);
    assert Next(s, Arm(0, 1, false, true, true)) == s1;
    assert Next(s1, Arm(1, 1, false, true, true)) == s2;
    assert Next(s2, Unread(1, None)).arms[0] == pair;
  }

  lemma {:induction false} ReachedPending(actions: seq<Action>, a: Action, armed: bool)
    requires SendsPending(Run(Init(), actions), a, armed)
    ensures exists some, write :: SendsPending(Run(Init(), some), write, armed)
  {}

  /** A driver parks the row of another one that has just armed its step: that step is
      then sent from Pending, and was armed. */
  lemma {:induction false} PendingWriteMayBeArmed()
    ensures exists actions, a :: SendsPending(Run(Init(), actions), a, true)
  {
    var a1, a2, a3, a4 := AskReduction(), Arm(0, 1, false, true, true), Arm(1, 1, false, true, true), Unread(1, None);
    ReductionIsAsked();
    ParkedAfterArming(Next(Init(), a1));
    RunSnoc(Init(), [], a1);
    RunSnoc(Init(), [] + [a1], a2);
    RunSnoc(Init(), [] + [a1] + [a2], a3);
    RunSnoc(Init(), [] + [a1] + [a2] + [a3], a4);
    ReachedPending([] + [a1] + [a2] + [a3] + [a4], SampleStage(0, None, Some(7), false), true);
  }

  /** Three drivers of the cancellation: one armed to release, two beside it. */
  lemma {:induction false} ThreeDriversStart(s: State)
    requires s == Beside(Cancelling().(status := Creating),
                         map[10 := Driver(2, true, ReleaseSchedule), 11 := Driver(2, false, ReleaseSchedule)],
                         [(2, ReleaseSchedule)], [])
    ensures var t := Next(Next(s, Arm(12, 2, false, true, true)), SampleStage(11, Some(7), None, false));
      && 2 in t.rows && t.rows[2] == Cancelling().(step := Update, scheduleId := None, comebacks := 1)
      && t.drivers == map[10 := Driver(2, true, ReleaseSchedule), 12 := Driver(2, false, ReleaseSchedule)]
      && (2, Update) !in t.arms
  {
    var s1 := Next(s, Arm(12, 2, false, true, true));
    assert s1 == s.(drivers := s.drivers[12 := Driver(2, false, ReleaseSchedule)]);
    assert s.arms == [(1, CreateSchedule), (1, ConfigureSchedule), (2, ReleaseSchedule)];
  }

  lemma {:induction false} ParkedAfterMovingOn(s: State)
    requires 2 in s.rows && s.rows[2] == Cancelling().(step := Update, scheduleId := None, comebacks := 1)
    requires s.drivers == map[10 := Driver(2, true, ReleaseSchedule), 12 := Driver(2, false, ReleaseSchedule)]
    requires (2, Update) !in s.arms
    ensures SendsPending(Next(s, Unread(12, None)), SampleStage(10, None, None, false), false)
  {}

  /** And one that parks the row after it has moved on to a step nobody armed: the
      overtaken driver sends that step from Pending, unarmed. */
  lemma {:induction false} PendingWriteMayBeUnarmed()
    ensures exists actions, a :: SendsPending(Run(Init(), actions), a, false)
  {
    var start := ScheduledReduction();
    var a1 := Prepare(2, AskCancel, SampleView(Some(7), {1}), 5, Some(1), NoProjection(), Rejected);
    var a2, a3, a4 := Arm(10, 2, false, true, true), Arm(11, 2, false, true, true), Arm(12, 2, false, true, true);
    var a5, a6 := SampleStage(11, Some(7), None, false), Unread(12, None);
    var five := start + [a1] + [a2] + [a3] + [a4] + [a5];
    CancelIsPrepared(Run(Init(), start));
    TwoDriversStart();
    ThreeDriversStart(Next(Next(Next(Run(Init(), start), a1), a2), a3));
    RunFive(Init(), start, a1, a2, a3, a4, a5);
    ParkedAfterMovingOn(Run(Init(), five));
    RunSnoc(Init(), five, a6);
    ReachedPending(five + [a6], SampleStage(10, None, None, false), false);
  }

  // ---- The driver's loop --------------------------------------------------

  /** A stage that asks for another one has just returned the row to Prepared. */
  lemma {:induction false} AgainMeansComeback(rows: Rows, id: nat, armed: bool, readOnly: bool, b: Before, call: Call,
                                              a: After, p: Projected, gate: Gate)
    requires id in rows
    requires var rows' := StageTx(rows, id, armed, readOnly, b, call, a, p, gate).0;
      id in rows' && Again(rows'[id], readOnly, b)
    ensures StageTx(rows, id, armed, readOnly, b, call, a, p, gate).0[id].comebacks == rows[id].comebacks + 1
  {}

  /** One turn of the loop: what others do before it, the stage's inputs, and what
      others do between its two transactions. */
  datatype Turn = Turn(
    earlier: seq<Action>, readOnly: bool, eligible: bool, planEligible: bool, between: seq<Action>,
    before: Before, call: Call, after: After, proj: Projected, gate: Gate)

  /** Only the driver itself acts under its own number. */
  predicate Foreign(actions: seq<Action>, driver: nat) {
    forall k :: 0 <= k < |actions| ==>
      && (actions[k].Arm? ==> actions[k].driver != driver)
      && (actions[k].Stage? ==> actions[k].driver != driver)
      && (actions[k].Crash? ==> actions[k].driver != driver)
  }

  lemma {:induction false} ForeignRunKeepsDriver(s: State, actions: seq<Action>, driver: nat)
    requires Foreign(actions, driver)
    ensures driver in Run(s, actions).drivers <==> driver in s.drivers
    ensures driver in s.drivers ==> Run(s, actions).drivers[driver] == s.drivers[driver]
    decreases actions
  {
    if actions != [] {
      ForeignRunKeepsDriver(Next(s, actions[0]), actions[1..], driver);
    }
  }

  function ArmOf(driver: nat, id: nat, t: Turn): Action {
    Arm(driver, id, t.readOnly, t.eligible, t.planEligible)
  }

  function StageOf(driver: nat, t: Turn): Action {
    Stage(driver, t.readOnly, t.before, t.call, t.after, t.proj, t.gate, true)
  }

  /** Both transactions of a stage, with what others do between them. */
  function AfterStage(s: State, driver: nat, id: nat, t: Turn): State {
    Next(Run(Next(s, ArmOf(driver, id, t)), t.between), StageOf(driver, t))
  }

  function AfterTurns(s: State, driver: nat, id: nat, turns: seq<Turn>): State {
    if turns == [] then s
    else
      var last := turns[|turns| - 1];
      AfterStage(Run(AfterTurns(s, driver, id, turns[..|turns| - 1]), last.earlier), driver, id, last)
  }

  /** The row was left at another step to send, and this driver may send it. */
  predicate AsksAgain(r: Request, t: Turn) {
    r.status == Prepared && !t.readOnly && (t.before.planEligible || r.kind.Cancel? || r.kind.Decrease?)
  }

  /** Where a turn finds its row: what others did between the two transactions is done. */
  function BeforeStage(s: State, driver: nat, id: nat, t: Turn): State {
    Run(Next(s, ArmOf(driver, id, t)), t.between)
  }

  /** Both transactions of a turn: the row is armed by the first, and after a readable
      read-back of the second it is confirmed or scheduled exactly if that shows it. */
  lemma {:induction false} TurnDecides(s: State, driver: nat, id: nat, t: Turn)
    requires Inv(s) && driver !in s.drivers && id in s.rows && Foreign(t.between, driver)
    ensures var r := s.rows[id];
      var begins := r.status == Prepared && !t.readOnly;
      var buys, plans := r.kind == Increase ==> t.eligible, r.kind.Cancel? || r.kind.Decrease? || t.planEligible;
      var mid, after := BeforeStage(s, driver, id, t), AfterStage(s, driver, id, t);
      && id in mid.rows && id in after.rows
      && (driver in mid.drivers <==> !(begins && !buys))
      && (driver in mid.drivers ==>
            && mid.drivers[driver] == Driver(id, begins && buys && plans, r.step)
            && (ReadsBack(mid.rows[id], mid.drivers[driver].armed, t.readOnly, t.before, t.call, t.after) ==>
                  var row := WithSchedule(mid.rows[id], mid.drivers[driver].armed, t.call);
                  && (after.rows[id].status == Confirmed <==> !t.after.terminal && Shown(row, t.after))
                  && (after.rows[id].status == Scheduled <==> !t.after.terminal && ShownScheduled(row, t.after))
                  && (after.rows[id].status == Prepared <==> !t.after.terminal && ShownHalfway(row, t.after))))
  {
    var first := Next(s, ArmOf(driver, id, t));
    ArmsExactly(s.rows[id], t.readOnly, t.eligible, t.planEligible);
    StepKeepsInv(s, ArmOf(driver, id, t));
    StepMovesRows(s, ArmOf(driver, id, t), id);
    ForeignRunKeepsDriver(first, t.between, driver);
    RowsOnlyMoveForward(first, t.between, id);
    var mid := BeforeStage(s, driver, id, t);
    if driver in mid.drivers {
      var armed := mid.drivers[driver].armed;
      StageDecidesExactly(mid.rows, id, armed, t.readOnly, t.before, t.call, t.after, t.proj, t.gate);
      if ReadsBack(mid.rows[id], armed, t.readOnly, t.before, t.call, t.after) {
        ReadBackDecides(mid.rows, id, armed, t.readOnly, t.before, t.call, t.after, t.proj, t.gate);
      }
    }
  }

  /** What a turn keeps, and what it means that it asks for another. */
  lemma {:induction false} TurnKeeps(s: State, driver: nat, id: nat, t: Turn)
    requires Inv(s) && driver !in s.drivers && id in s.rows && Foreign(t.between, driver)
    ensures var first, after := Next(s, ArmOf(driver, id, t)), AfterStage(s, driver, id, t);
      && Inv(after) && driver !in after.drivers && id in after.rows
      && s.rows[id].comebacks <= after.rows[id].comebacks
      && (driver in first.drivers && Again(after.rows[id], t.readOnly, t.before) ==>
            s.rows[id].comebacks < after.rows[id].comebacks)
      && (driver !in first.drivers ==> after.rows[id].status == Expired)
  {
    var first, mid := Next(s, ArmOf(driver, id, t)), BeforeStage(s, driver, id, t);
    StepKeepsInv(s, ArmOf(driver, id, t));
    StepMovesRows(s, ArmOf(driver, id, t), id);
    RunKeepsInv(first, t.between);
    RowsOnlyMoveForward(first, t.between, id);
    ForeignRunKeepsDriver(first, t.between, driver);
    ArmsExactly(s.rows[id], t.readOnly, t.eligible, t.planEligible);
    LastOfTurn(mid, driver, id, t);
  }

  lemma {:induction false} LastOfTurn(mid: State, driver: nat, id: nat, t: Turn)
    requires Inv(mid) && id in mid.rows && (driver in mid.drivers ==> mid.drivers[driver].id == id)
    ensures var after := Next(mid, StageOf(driver, t));
      && Inv(after) && driver !in after.drivers && id in after.rows
      && mid.rows[id].comebacks <= after.rows[id].comebacks
      && (driver in mid.drivers && Again(after.rows[id], t.readOnly, t.before) ==>
            mid.rows[id].comebacks < after.rows[id].comebacks)
      && (driver !in mid.drivers ==> after == mid)
  {
    StepKeepsInv(mid, StageOf(driver, t));
    StepMovesRows(mid, StageOf(driver, t), id);
    if driver in mid.drivers && Again(Next(mid, StageOf(driver, t)).rows[id], t.readOnly, t.before) {
      AgainMeansComeback(mid.rows, id, mid.drivers[driver].armed, t.readOnly, t.before, t.call, t.after,
                         t.proj, t.gate);
    }
  }

  /** The turn with this number asked for another. */
  predicate AskedAt(s: State, driver: nat, id: nat, turns: seq<Turn>, k: nat)
    requires 0 < k <= |turns|
  {
    var t := AfterTurns(s, driver, id, turns[..k]);
    id in t.rows && AsksAgain(t.rows[id], turns[k - 1])
  }

  /** After this many turns the state is theirs, and all of them asked for another one but,
      once the loop is finished, the last. */
  ghost predicate Turned(s: State, driver: nat, id: nat, turns: seq<Turn>, n: nat, finished: bool, after: State)
    requires n <= |turns|
  {
    && after == AfterTurns(s, driver, id, turns[..n])
    && forall k :: 0 < k <= n ==> (AskedAt(s, driver, id, turns, k) <==> k < n || !finished)
  }

  lemma {:induction false} OneMoreTurn(s: State, driver: nat, id: nat, turns: seq<Turn>, n: nat, before: State,
                                       after: State, finished: bool)
    requires n < |turns| && Turned(s, driver, id, turns, n, false, before)
    requires after == AfterStage(Run(before, turns[n].earlier), driver, id, turns[n])
    requires id in after.rows && (finished <==> !AsksAgain(after.rows[id], turns[n]))
    ensures Turned(s, driver, id, turns, n + 1, finished, after)
  {
    assert turns[..n + 1][..n] == turns[..n];
    assert after == AfterTurns(s, driver, id, turns[..n + 1]);
  }

  class ManagementDriver {
    var state: State

    constructor (state: State)
      ensures this.state == state
    {
      this.state := state;
    }

    /** Both transactions of one stage; `finished` when the first one throws or the
        second one asks for nothing more. */
    method RunStage(driver: nat, id: nat, turn: Turn) returns (finished: bool)
      requires Inv(state) && driver !in state.drivers && id in state.rows
      requires Foreign(turn.between, driver)
      modifies this
      ensures Inv(state) && driver !in state.drivers && id in state.rows
      ensures old(state.rows[id].comebacks) + (if finished then 0 else 1) <= state.rows[id].comebacks
      ensures state == AfterStage(old(state), driver, id, turn)
      ensures finished <==>
        driver !in Next(old(state), ArmOf(driver, id, turn)).drivers
        || !Again(state.rows[id], turn.readOnly, turn.before)
      ensures finished <==> !AsksAgain(state.rows[id], turn)
    {
      TurnKeeps(state, driver, id, turn);
      state := Next(state, Arm(driver, id, turn.readOnly, turn.eligible, turn.planEligible));
      ForeignRunKeepsDriver(state, turn.between, driver);
      var threw := driver !in state.drivers;
      state := Run(state, turn.between);
      if threw {
        finished := true;
        return;
      }
      var stage := Stage(driver, turn.readOnly, turn.before, turn.call, turn.after, turn.proj, turn.gate, true);
      state := Next(state, stage);
      finished := !Again(state.rows[id], turn.readOnly, turn.before);
    }

    /** A turn of the loop: what others do before it, and the stage. */
    method RunTurn(driver: nat, id: nat, turn: Turn) returns (finished: bool)
      requires Inv(state) && driver !in state.drivers && id in state.rows
      requires Foreign(turn.earlier, driver) && Foreign(turn.between, driver)
      modifies this
      ensures Inv(state) && driver !in state.drivers && id in state.rows
      ensures old(state.rows[id].comebacks) + (if finished then 0 else 1) <= state.rows[id].comebacks
      ensures state == AfterStage(Run(old(state), turn.earlier), driver, id, turn)
      ensures finished <==> !AsksAgain(state.rows[id], turn)
    {
      RunKeepsInv(state, turn.earlier);
      RowsOnlyMoveForward(state, turn.earlier, id);
      ForeignRunKeepsDriver(state, turn.earlier, driver);
      state := Run(state, turn.earlier);
      finished := RunStage(driver, id, turn);
    }

    /** The loop of four stages. Whatever the others do, it ends within three, so the
        source's fall-through after the loop is never reached. */
    method Manage(driver: nat, id: nat, turns: seq<Turn>) returns (stages: nat, finished: bool)
      requires Inv(state) && driver !in state.drivers && id in state.rows && |turns| == 4
      requires forall k :: 0 <= k < 4 ==> Foreign(turns[k].earlier, driver) && Foreign(turns[k].between, driver)
      modifies this
      ensures finished && 1 <= stages <= 3
      ensures Inv(state) && id in state.rows && state == AfterTurns(old(state), driver, id, turns[..stages])
      ensures forall k :: 0 < k <= stages ==> (AskedAt(old(state), driver, id, turns, k) <==> k < stages)
    {
      stages, finished := 0, false;
      while stages < 4 && !finished
        invariant stages <= 4 && Inv(state) && driver !in state.drivers && id in state.rows
        invariant !finished ==> stages <= state.rows[id].comebacks
        invariant finished ==> 1 <= stages <= 3
        invariant Turned(old(state), driver, id, turns, stages, finished, state)
        decreases 4 - stages, !finished
      {
        ghost var before := state;
        finished := RunTurn(driver, id, turns[stages]);
        OneMoreTurn(old(state), driver, id, turns, stages, before, state, finished);
        stages := stages + 1;
      }
    }
  }
}
