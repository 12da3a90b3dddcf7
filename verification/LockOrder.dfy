/**
 * The order in which batches lock a team's counter rows
 * (apps/api/src/app.ts:3986-3994; packages/core/src/quota.ts:58-89, 188-218).
 *
 * A transaction locks its rows one after another and keeps them until it ends. The
 * period row is reserved before the first day; each day's row is followed, once its
 * reservation is granted, by the row of the hour its first item is counted in.
 */
module LockOrder {

  datatype Row = Period | Day(day: int) | Hour(hourDay: int, hour: nat)

  /** The global order: the period, then each day followed by its hours. */
  predicate Before(a: Row, b: Row) {
    match (a, b)
    case (_, Period) => false
    case (Period, _) => true
    case (Day(d), Day(e)) => d < e
    case (Day(d), Hour(e, _)) => d <= e
    case (Hour(d, _), Day(e)) => d < e
    case (Hour(d, h), Hour(e, g)) => d < e || (d == e && h < g)
  }

  lemma BeforeIsStrict(a: Row, b: Row, c: Row)
    ensures !Before(a, a)
    ensures Before(a, b) && Before(b, c) ==> Before(a, c)
  {}

  /** One group of a batch: its day, and the hour it is counted in. */
  datatype Group = Group(day: int, hourDay: int, hour: nat)

  /** The rows a batch locks, in the order it asks for them. */
  function Plan(monthly: bool, groups: seq<Group>): seq<Row> {
    (if monthly then [Period] else []) + GroupRows(groups)
  }

  function GroupRows(groups: seq<Group>): seq<Row> {
    if groups == [] then []
    else [Day(groups[0].day), Hour(groups[0].hourDay, groups[0].hour)] + GroupRows(groups[1..])
  }

  /** Groups as a batch forms them: days in sorted order, and no group counted in an hour
      before its own day, since it is counted at its delivery or at the time of the call. */
  predicate Formed(groups: seq<Group>) {
    && (forall i, j :: 0 <= i < j < |groups| ==> groups[i].day < groups[j].day)
    && (forall i :: 0 <= i < |groups| ==> groups[i].day <= groups[i].hourDay)
  }

  /** And no group counted at or past the day of a later group. */
  predicate Orderly(groups: seq<Group>) {
    Formed(groups) && forall i, j :: 0 <= i < j < |groups| ==> groups[i].hourDay < groups[j].day
  }

  predicate InOrder(rows: seq<Row>) {
    forall i, j :: 0 <= i < j < |rows| ==> Before(rows[i], rows[j])
  }

  /** A transaction holds the first `held` rows of its plan and asks for the next. */
  datatype Tx = Tx(plan: seq<Row>, held: nat)

  predicate Waits(a: Tx, b: Tx) {
    && a.held < |a.plan| && b.held <= |b.plan|
    && a.plan[a.held] in b.plan[..b.held]
  }

  /** Each transaction waits for the next, and the last for the first. */
  ghost predicate WaitCycle(txs: seq<Tx>) {
    && txs != []
    && (forall i :: 0 <= i < |txs| - 1 ==> Waits(txs[i], txs[i + 1]))
    && Waits(txs[|txs| - 1], txs[0])
  }

  /** Each group asks for its day and then its hour. */
  lemma {:induction false} RowsOfGroup(groups: seq<Group>, i: nat)
    requires i < |groups|
    ensures |GroupRows(groups)| == 2 * |groups|
    ensures GroupRows(groups)[2 * i] == Day(groups[i].day)
    ensures GroupRows(groups)[2 * i + 1] == Hour(groups[i].hourDay, groups[i].hour)
  {
    if i == 0 {
      RowCount(groups);
    } else {
      RowsOfGroup(groups[1..], i - 1);
    }
  }

  lemma {:induction false} RowCount(groups: seq<Group>)
    ensures |GroupRows(groups)| == 2 * |groups|
  {
    if groups != [] { RowCount(groups[1..]); }
  }

  /** The day of the group a row belongs to, and the last day that row is at. */
  lemma RowIsOfItsGroup(groups: seq<Group>, k: nat)
    requires Formed(groups) && k < 2 * |groups|
    ensures |GroupRows(groups)| == 2 * |groups|
    ensures var g, row := groups[k / 2], GroupRows(groups)[k];
      row == if k % 2 == 0 then Day(g.day) else Hour(g.hourDay, g.hour)
  {
    RowsOfGroup(groups, k / 2);
  }

  lemma OrderlyRowsAreInOrder(groups: seq<Group>)
    requires Orderly(groups)
    ensures InOrder(GroupRows(groups))
    ensures forall k :: 0 <= k < |GroupRows(groups)| ==> GroupRows(groups)[k] != Period
  {
    RowCount(groups);
    var rows := GroupRows(groups);
    forall k | 0 <= k < |rows| ensures rows[k] != Period { RowIsOfItsGroup(groups, k); }
    forall k, l | 0 <= k < l < |rows| ensures Before(rows[k], rows[l]) {
      RowIsOfItsGroup(groups, k);
      RowIsOfItsGroup(groups, l);
      if k / 2 < l / 2 { assert groups[k / 2].hourDay < groups[l / 2].day; }
    }
  }

  lemma DisorderShows(groups: seq<Group>, i: nat, j: nat)
    requires i < j < |groups| && groups[i].hourDay >= groups[j].day
    ensures |GroupRows(groups)| == 2 * |groups| && !Before(GroupRows(groups)[2 * i + 1], GroupRows(groups)[2 * j])
  {
    RowsOfGroup(groups, i);
    RowsOfGroup(groups, j);
  }

  /** A formed batch asks for rows in the global order exactly when it is orderly. */
  lemma PlanIsInOrderExactly(monthly: bool, groups: seq<Group>)
    requires Formed(groups)
    ensures InOrder(Plan(monthly, groups)) <==> Orderly(groups)
  {
    var rows, plan := GroupRows(groups), Plan(monthly, groups);
    if Orderly(groups) {
      OrderlyRowsAreInOrder(groups);
    } else {
      var i, j :| 0 <= i < j < |groups| && groups[i].hourDay >= groups[j].day;
      DisorderShows(groups, i, j);
      var first := if monthly then 1 else 0;
      assert plan[first + 2 * i + 1] == rows[2 * i + 1] && plan[first + 2 * j] == rows[2 * j];
    }
  }

  /** Along a chain of waiting transactions the wanted rows only go up. */
  lemma {:induction false} WantedRowsGoUp(txs: seq<Tx>)
    requires |txs| > 1
    requires forall i :: 0 <= i < |txs| ==> InOrder(txs[i].plan) && txs[i].held < |txs[i].plan|
    requires forall i :: 0 <= i < |txs| - 1 ==> Waits(txs[i], txs[i + 1])
    ensures Before(txs[0].plan[txs[0].held], txs[|txs| - 1].plan[txs[|txs| - 1].held])
  {
    var a, b := txs[0], txs[1];
    var k :| 0 <= k < b.held && b.plan[..b.held][k] == a.plan[a.held];
    assert Before(b.plan[k], b.plan[b.held]);
    if |txs| > 2 {
      var rest := txs[1..];
      forall i | 0 <= i < |rest| - 1 ensures Waits(rest[i], rest[i + 1]) {
        assert rest[i] == txs[i + 1] && rest[i + 1] == txs[i + 2];
      }
      WantedRowsGoUp(rest);
      BeforeIsStrict(a.plan[a.held], b.plan[b.held], txs[|txs| - 1].plan[txs[|txs| - 1].held]);
    }
  }

  /** Any number of transactions that ask for rows in the global order and keep them to
      commit never form a wait cycle. */
  lemma OrderedLocksNeverCycle(txs: seq<Tx>)
    requires forall i :: 0 <= i < |txs| ==> InOrder(txs[i].plan)
    ensures !WaitCycle(txs)
  {
    if WaitCycle(txs) {
      forall i | 0 <= i < |txs| ensures txs[i].held < |txs[i].plan| {
        if i < |txs| - 1 { assert Waits(txs[i], txs[i + 1]); }
      }
      var round := txs + [txs[0]];
      forall i | 0 <= i < |round| - 1 ensures Waits(round[i], round[i + 1]) {
        if i < |txs| - 1 { assert Waits(txs[i], txs[i + 1]); }
      }
      WantedRowsGoUp(round);
      BeforeIsStrict(txs[0].plan[txs[0].held], txs[0].plan[txs[0].held], txs[0].plan[txs[0].held]);
    }
  }

  /** Any number of orderly batches never deadlock on the counters. */
  lemma BatchesNeverCycle(monthly: seq<bool>, groups: seq<seq<Group>>, txs: seq<Tx>)
    requires |monthly| == |groups| == |txs|
    requires forall i :: 0 <= i < |txs| ==> Orderly(groups[i]) && txs[i].plan == Plan(monthly[i], groups[i])
    ensures !WaitCycle(txs)
  {
    forall i | 0 <= i < |txs| ensures InOrder(txs[i].plan) {
      assert Orderly(groups[i]) && txs[i].plan == Plan(monthly[i], groups[i]);
      PlanIsInOrderExactly(monthly[i], groups[i]);
    }
    OrderedLocksNeverCycle(txs);
  }

  // ---- Exactly which batches can deadlock ---------------------------------

  /** No row is held by both. */
  predicate Apart(a: Tx, b: Tx) {
    a.held <= |a.plan| && b.held <= |b.plan| && forall r :: r in a.plan[..a.held] ==> r !in b.plan[..b.held]
  }

  /** Two transactions that can be where they are, each waiting for the other. */
  ghost predicate Deadlock(a: Tx, b: Tx) {
    Apart(a, b) && WaitCycle([a, b])
  }

  /** Some orderly batch of the same team can deadlock with this one. */
  ghost predicate CanDeadlock(monthly: bool, groups: seq<Group>) {
    exists others, held, held' ::
      Orderly(others) && Deadlock(Tx(Plan(monthly, groups), held), Tx(Plan(monthly, others), held'))
  }

  lemma DeadlockIsMutual(a: Tx, b: Tx)
    ensures Deadlock(a, b) <==> Apart(a, b) && Waits(a, b) && Waits(b, a)
  {
    var txs := [a, b];
    assert txs[0] == a && txs[1] == b;
    if WaitCycle(txs) { assert Waits(txs[0], txs[0 + 1]); }
  }

  ghost predicate IsRowOf(groups: seq<Group>, i: nat, r: Row) {
    i < |groups| && (r == Day(groups[i].day) || r == Hour(groups[i].hourDay, groups[i].hour))
  }

  /** What a batch asks for when it has served the groups before `j`, and what it holds. */
  lemma AskedAt(groups: seq<Group>, j: nat)
    requires j < |groups|
    ensures |Plan(false, groups)| == 2 * |groups| && Plan(false, groups)[2 * j] == Day(groups[j].day)
  {
    assert Plan(false, groups) == GroupRows(groups);
    RowsOfGroup(groups, j);
  }

  lemma HeldIsOfEarlier(groups: seq<Group>, j: nat, r: Row)
    requires j < |groups| && |Plan(false, groups)| == 2 * |groups| && r in Plan(false, groups)[..2 * j]
    ensures exists i: nat :: i < j && IsRowOf(groups, i, r)
  {
    var plan := Plan(false, groups);
    assert plan == GroupRows(groups);
    var k :| 0 <= k < 2 * j && plan[k] == r;
    RowsOfGroup(groups, k / 2);
    assert IsRowOf(groups, k / 2, r);
  }

  lemma HourIsHeld(groups: seq<Group>, i: nat, j: nat)
    requires i < j < |groups| && |Plan(false, groups)| == 2 * |groups|
    ensures Hour(groups[i].hourDay, groups[i].hour) in Plan(false, groups)[..2 * j]
  {
    assert Plan(false, groups) == GroupRows(groups);
    RowsOfGroup(groups, i);
    assert Plan(false, groups)[..2 * j][2 * i + 1] == Hour(groups[i].hourDay, groups[i].hour);
  }

  /** A group counted in the very day a later group asks for: that day's own batch closes
      the circle. */
  lemma SameDayDeadlock(groups: seq<Group>, i: nat, j: nat)
    requires Formed(groups) && i < j < |groups| && groups[i].hourDay == groups[j].day
    ensures CanDeadlock(false, groups)
  {
    var e, h := groups[j].day, groups[i].hour;
    var others := [Group(e, e, h)];
    var a, b := Tx(Plan(false, groups), 2 * j), Tx(Plan(false, others), 1);
    AskedAt(groups, j);
    HourIsHeld(groups, i, j);
    RowsOfGroup(others, 0);
    assert b.plan[..1] == [Day(e)] && b.plan[1] == Hour(e, h);
    forall r | r in a.plan[..a.held] ensures r != Day(e) {
      HeldIsOfEarlier(groups, j, r);
    }
    DeadlockIsMutual(a, b);
  }

  /** A group counted past that day, and none in it: a batch of both days does. */
  lemma LaterDayDeadlock(groups: seq<Group>, i: nat, j: nat)
    requires Formed(groups) && i < j < |groups| && groups[i].hourDay > groups[j].day
    requires forall k :: 0 <= k < j ==> groups[k].hourDay != groups[j].day
    ensures CanDeadlock(false, groups)
  {
    var d, e, h := groups[j].day, groups[i].hourDay, groups[i].hour;
    var others := [Group(d, d, 0), Group(e, e, h)];
    var a, b := Tx(Plan(false, groups), 2 * j), Tx(Plan(false, others), 3);
    AskedAt(groups, j);
    HourIsHeld(groups, i, j);
    RowsOfGroup(others, 0);
    RowsOfGroup(others, 1);
    assert b.plan[..3] == [Day(d), Hour(d, 0), Day(e)] && b.plan[3] == Hour(e, h);
    forall r | r in a.plan[..a.held] ensures r !in [Day(d), Hour(d, 0), Day(e)] {
      HeldIsOfEarlier(groups, j, r);
    }
    DeadlockIsMutual(a, b);
  }

  /** On a monthly plan the period row lets only one batch of the team through at a time. */
  lemma MonthlyNeverDeadlocks(groups: seq<Group>)
    ensures !CanDeadlock(true, groups)
  {
    forall others, held, held' ensures !Deadlock(Tx(Plan(true, groups), held), Tx(Plan(true, others), held')) {
      var a, b := Tx(Plan(true, groups), held), Tx(Plan(true, others), held');
      DeadlockIsMutual(a, b);
      if Waits(a, b) && Waits(b, a) {
        assert a.plan[..a.held][0] == Period && b.plan[..b.held][0] == Period;
      }
    }
  }

  lemma TwoOrderlyNeverDeadlock(groups: seq<Group>, others: seq<Group>, a: Tx, b: Tx)
    requires Orderly(groups) && Orderly(others) && a.plan == Plan(false, groups) && b.plan == Plan(false, others)
    ensures !Deadlock(a, b)
  {
    PlanIsInOrderExactly(false, groups);
    PlanIsInOrderExactly(false, others);
    OrderedLocksNeverCycle([a, b]);
  }

  lemma OrderlyNeverDeadlocks(groups: seq<Group>)
    requires Orderly(groups)
    ensures !CanDeadlock(false, groups)
  {
    forall others, held, held' | Orderly(others)
      ensures !Deadlock(Tx(Plan(false, groups), held), Tx(Plan(false, others), held'))
    {
      TwoOrderlyNeverDeadlock(groups, others, Tx(Plan(false, groups), held), Tx(Plan(false, others), held'));
    }
  }

  lemma DisorderlyCanDeadlock(groups: seq<Group>, i: nat, j: nat)
    requires Formed(groups) && i < j < |groups| && groups[i].hourDay >= groups[j].day
    ensures CanDeadlock(false, groups)
  {
    if k :| 0 <= k < j && groups[k].hourDay == groups[j].day {
      SameDayDeadlock(groups, k, j);
    } else {
      LaterDayDeadlock(groups, i, j);
    }
  }

  /** A batch can deadlock with an orderly one exactly when its team is not on a monthly
      plan and one of its groups is counted at or past the day of a later group. */
  lemma CanDeadlockExactly(monthly: bool, groups: seq<Group>)
    requires Formed(groups)
    ensures CanDeadlock(monthly, groups) <==> !monthly && !Orderly(groups)
  {
    MonthlyNeverDeadlocks(groups);
    if Orderly(groups) {
      OrderlyNeverDeadlocks(groups);
    } else {
      var i, j :| 0 <= i < j < |groups| && groups[i].hourDay >= groups[j].day;
      DisorderlyCanDeadlock(groups, i, j);
    }
  }

  /** So sorted days alone are not enough once the hourly rows are locked too: a batch whose
      undated items were accepted just before midnight and are counted just after it, with
      more items on the next day, can deadlock with a batch of that next day. */
  lemma MidnightHourCanCycle(today: int)
    ensures var late := [Group(today, today + 1, 0), Group(today + 1, today + 1, 9)];
      Formed(late) && CanDeadlock(false, late)
  {
    SameDayDeadlock([Group(today, today + 1, 0), Group(today + 1, today + 1, 9)], 0, 1);
  }
}
