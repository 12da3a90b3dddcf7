/**
 * Quota for a batch: one reservation per delivery day, and what does not fit is parked
 * (apps/api/src/app.ts:3982-4074; packages/core/src/quota.ts:38-299).
 */
module Quota {
  import opened Common

  /** What caps a team: nothing, the UTC day, or the billing period. */
  datatype TeamQuota =
    | Unlimited
    | Daily(limit: nat, ceiling: Option<nat>)
    | Monthly(included: nat, overage: bool, terms: Option<nat>, dayCeiling: Option<nat>)

  const OVERAGE_HARD_CAP: nat := 5
  const QUOTA_BACKLOG_DAYS: nat := 3

  /** A team's counters; `terms` are the financial terms frozen into the period. */
  datatype Counters = Counters(days: map<int, nat>, period: nat, terms: Option<nat>)

  /** `accepted` and `ceiling` speak of the counter that answered. */
  datatype QuotaResult = QuotaResult(reserved: bool, accepted: nat, ceiling: Option<nat>, byDay: bool)

  function OnDay(c: Counters, day: int): nat {
    if day in c.days then c.days[day] else 0
  }

  /** Half as much again as the plan's limit, rounded down. */
  function DailyCeiling(limit: nat): nat {
    limit * 3 / 2
  }

  function Least(a: Option<nat>, b: Option<nat>): Option<nat> {
    if a.None? then b else if b.None? then a else Some(Min(a.value, b.value))
  }

  function ReserveDay(c: Counters, day: int, count: nat, ceiling: Option<nat>): (Counters, QuotaResult) {
    if ceiling.Some? && (count > ceiling.value || OnDay(c, day) + count > ceiling.value) then
      (c, QuotaResult(false, OnDay(c, day), ceiling, false))
    else
      var after := c.(days := c.days[day := OnDay(c, day) + count]);
      (after, QuotaResult(true, OnDay(after, day), ceiling, false))
  }

  function HardCeiling(q: TeamQuota): nat
    requires q.Monthly?
  {
    if q.overage then q.included * OVERAGE_HARD_CAP else q.included
  }

  /** A period that froze other terms is held to the included volume. */
  function PeriodCeiling(q: TeamQuota, stored: Option<nat>): nat
    requires q.Monthly?
  {
    if stored.None? || stored == q.terms then HardCeiling(q) else q.included
  }

  /** The period first, then the day; a day that refuses hands the period its count back. */
  function ReservePeriod(c: Counters, day: int, count: nat, q: TeamQuota): (Counters, QuotaResult)
    requires q.Monthly?
  {
    var ceiling := PeriodCeiling(q, c.terms);
    if count > HardCeiling(q) || c.period + count > ceiling then (c, QuotaResult(false, c.period, Some(ceiling), false))
    else
      var terms := if c.terms.Some? then c.terms else q.terms;
      var booked := c.(period := c.period + count, terms := terms);
      var (after, daily) := ReserveDay(booked, day, count, q.dayCeiling);
      if !daily.reserved then
        (after.(period := Max(after.period - count, 0)), QuotaResult(false, daily.accepted, daily.ceiling, true))
      else (after, QuotaResult(true, after.period, Some(PeriodCeiling(q, terms)), false))
  }

  function Reserve(c: Counters, day: int, count: nat, q: TeamQuota): (Counters, QuotaResult) {
    match q
    case Unlimited => ReserveDay(c, day, count, None)
    case Daily(limit, ceiling) => ReserveDay(c, day, count, Least(Some(DailyCeiling(limit)), ceiling))
    case Monthly(_, _, _, _) => ReservePeriod(c, day, count, q)
  }

  function Release(c: Counters, day: int, count: nat, q: TeamQuota): Counters {
    var less := if day in c.days then c.(days := c.days[day := Max(c.days[day] - count, 0)]) else c;
    if q.Monthly? then less.(period := Max(less.period - count, 0)) else less
  }

  /** The room a refusal leaves; zero when it does not say. */
  function Room(r: QuotaResult): nat {
    if r.ceiling.None? then 0 else Max(0, r.ceiling.value - r.accepted)
  }

  /** Equal counts on every day and in the period. */
  predicate SameCounts(a: Counters, b: Counters) {
    a.period == b.period && forall d :: d in a.days.Keys + b.days.Keys ==> OnDay(a, d) == OnDay(b, d)
  }

  /** A reservation books its count on its day, and in the period of a monthly plan, or
      books nothing; it never takes a counter past what caps it; a release undoes it; and
      a refusal for the day leaves room for less than the count. */
  lemma {:induction false} ReserveBooksAllOrNothing(c: Counters, day: int, count: nat, q: TeamQuota)
    requires count > 0
    ensures var (after, r) := Reserve(c, day, count, q);
      && (!r.reserved ==> SameCounts(after, c))
      && (r.reserved ==>
            && OnDay(after, day) == OnDay(c, day) + count
            && (forall d :: d in after.days && d != day ==> OnDay(after, d) == OnDay(c, d))
            && after.period == (if q.Monthly? then c.period + count else c.period)
            && (q.Daily? ==> OnDay(after, day) <= DailyCeiling(q.limit))
            && (q.Daily? && q.ceiling.Some? ==> OnDay(after, day) <= q.ceiling.value)
            && (q.Monthly? ==> after.period <= PeriodCeiling(q, c.terms))
            && (q.Monthly? && q.dayCeiling.Some? ==> OnDay(after, day) <= q.dayCeiling.value)
            && SameCounts(Release(after, day, count, q), c))
      && (!r.reserved && !(q.Monthly? && !r.byDay) ==> Room(r) < count)
  {
    var (after, r) := Reserve(c, day, count, q);
    if r.reserved {
      var released := Release(after, day, count, q);
      assert OnDay(released, day) == OnDay(c, day);
    }
  }

  /** What is counted already. */
  function CountedOn(c: Counters, day: int): nat {
    if day in c.days then c.days[day] else 0
  }

  /** The count fits the day: half as much again as a daily plan's limit, and never past an
      operator's ceiling. */
  predicate FitsDay(c: Counters, day: int, count: nat, q: TeamQuota) {
    var sum := CountedOn(c, day) + count;
    match q
    case Unlimited => true
    case Daily(limit, ceiling) => 2 * sum <= 3 * limit && (ceiling.Some? ==> sum <= ceiling.value)
    case Monthly(_, _, _, ceiling) => ceiling.Some? ==> sum <= ceiling.value
  }

  /** Five times the volume where overage is sold, the volume otherwise; and the volume for a
      period that was begun under other terms. */
  function PeriodCap(c: Counters, q: TeamQuota): nat
    requires q.Monthly?
  {
    if q.overage && (c.terms.None? || c.terms == q.terms) then 5 * q.included else q.included
  }

  predicate FitsPeriod(c: Counters, count: nat, q: TeamQuota) {
    q.Monthly? ==> c.period + count <= PeriodCap(c, q)
  }

  /** A reservation is made exactly when the count fits; a refusal says which counter had no
      room, what it held and what caps it. */
  lemma {:induction false} ReservesExactly(c: Counters, day: int, count: nat, q: TeamQuota)
    requires count > 0
    ensures var (after, r) := Reserve(c, day, count, q);
      var day', period := FitsDay(c, day, count, q), FitsPeriod(c, count, q);
      && (r.reserved <==> day' && period)
      && (r.byDay <==> q.Monthly? && period && !day')
      && (!r.reserved ==> r.ceiling.Some?)
      && r.accepted == (if q.Monthly? && !r.byDay then c.period else CountedOn(c, day))
                       + (if r.reserved then count else 0)
      && r.ceiling == (match q
                       case Unlimited => None
                       case Daily(limit, ceiling) =>
                         Some(if ceiling.Some? && 2 * ceiling.value <= 3 * limit then ceiling.value
                              else (3 * limit) / 2)
                       case Monthly(_, _, _, ceiling) => if r.byDay then ceiling else Some(PeriodCap(c, q)))
      && after.days == (if r.reserved then c.days[day := CountedOn(c, day) + count] else c.days)
      && after.period == (if q.Monthly? && r.reserved then c.period + count else c.period)
      && after.terms == (if q.Monthly? && period && c.terms.None? then q.terms else c.terms)
  {}

  /** A release gives back what was booked, and never more than there is. */
  lemma {:induction false} ReleasesExactly(c: Counters, day: int, count: nat, q: TeamQuota)
    ensures var after := Release(c, day, count, q);
      && after.days.Keys == c.days.Keys
      && (forall d :: d in c.days ==>
            after.days[d] == if d != day then c.days[d] else if c.days[d] < count then 0 else c.days[d] - count)
      && after.period == (if !q.Monthly? then c.period else if c.period < count then 0 else c.period - count)
      && after.terms == c.terms
  {}

  /** When only the day refused, exactly as much as the room it left would still be reserved. */
  lemma {:induction false} RoomIsReservableExactly(c: Counters, day: int, count: nat, q: TeamQuota, less: nat)
    requires !Reserve(c, day, count, q).1.reserved && 0 < less < count
    requires q.Monthly? ==> Reserve(c, day, count, q).1.byDay
    ensures Reserve(Reserve(c, day, count, q).0, day, less, q).1.reserved <==> less <= Room(Reserve(c, day, count, q).1)
  {}

  /** When only the day refused, as much as the room it left would still be reserved. */
  lemma {:induction false} RoomIsReservable(c: Counters, day: int, count: nat, q: TeamQuota, less: nat)
    requires !Reserve(c, day, count, q).1.reserved
    requires q.Monthly? ==> Reserve(c, day, count, q).1.byDay
    requires 0 < less <= Room(Reserve(c, day, count, q).1)
    ensures Reserve(Reserve(c, day, count, q).0, day, less, q).1.reserved
  {}

  // ---- The longest prefix -------------------------------------------------

  /** How many items go out, in request order, before one does not fit. */
  function Fit(counts: seq<nat>, room: nat): (n: nat)
    ensures n <= |counts|
  {
    if counts == [] || counts[0] > room then 0 else 1 + Fit(counts[1..], room - counts[0])
  }

  /** It is the longest prefix whose sum fits. */
  lemma {:induction false} FitIsLongest(counts: seq<nat>, room: nat)
    ensures Sum(counts[..Fit(counts, room)]) <= room
    ensures forall n :: Fit(counts, room) < n <= |counts| ==> Sum(counts[..n]) > room
  {
    if counts != [] && counts[0] <= room {
      FitIsLongest(counts[1..], room - counts[0]);
      var fit := Fit(counts, room);
      assert counts[..fit][1..] == counts[1..][..fit - 1];
      forall n | fit < n <= |counts| ensures Sum(counts[..n]) > room {
        assert counts[..n][1..] == counts[1..][..n - 1];
      }
    } else if counts != [] {
      forall n | 0 < n <= |counts| ensures Sum(counts[..n]) > room {
        assert counts[..n][0] == counts[0];
      }
    }
  }

  /** Reserving item by item: whatever still fits goes out. */
  function OneByOne(counts: seq<nat>, room: nat): seq<bool> {
    if counts == [] then []
    else if counts[0] <= room then [true] + OneByOne(counts[1..], room - counts[0])
    else [false] + OneByOne(counts[1..], room)
  }

  /** The batch: the fitting head goes out, the tail parks. */
  function HeadOnly(counts: seq<nat>, room: nat): seq<bool> {
    seq(|counts|, i => i < Fit(counts, room))
  }

  predicate AllExceed(counts: seq<nat>, room: nat) {
    forall i :: 0 <= i < |counts| ==> counts[i] > room
  }

  lemma {:induction false} NothingFits(counts: seq<nat>, room: nat)
    ensures OneByOne(counts, room) == seq(|counts|, i => false) <==> AllExceed(counts, room)
  {
    if counts != [] {
      NothingFits(counts[1..], room);
      var none, rest := seq(|counts|, i => false), seq(|counts| - 1, i => false);
      assert none == [false] + rest;
      if counts[0] > room {
        assert OneByOne(counts, room)[1..] == OneByOne(counts[1..], room) && none[1..] == rest;
        assert AllExceed(counts, room) <==> AllExceed(counts[1..], room) by {
          if AllExceed(counts, room) {
            forall i | 0 <= i < |counts| - 1 ensures counts[1..][i] > room { assert counts[i + 1] > room; }
          }
        }
      } else {
        assert OneByOne(counts, room)[0] != none[0];
      }
    }
  }

  /** Every item past the head is larger than what the head leaves. */
  predicate TailExceeds(counts: seq<nat>, room: nat) {
    var fit := Fit(counts, room);
    Sum(counts[..fit]) <= room && AllExceed(counts[fit..], room - Sum(counts[..fit]))
  }

  /** For a given room the two agree exactly when every item past the head is larger than
      what the head leaves. */
  lemma {:induction false} HeadAgreesExactly(counts: seq<nat>, room: nat)
    ensures HeadOnly(counts, room) == OneByOne(counts, room) <==> TailExceeds(counts, room)
    decreases counts
  {
    if counts != [] && counts[0] <= room {
      HeadAgreesExactly(counts[1..], room - counts[0]);
      FirstGoesOut(counts, room);
      TailPastFirst(counts, room);
    } else {
      NothingGoesOut(counts, room);
    }
  }

  lemma {:induction false} TailPastFirst(counts: seq<nat>, room: nat)
    requires counts != [] && counts[0] <= room
    ensures TailExceeds(counts, room) <==> TailExceeds(counts[1..], room - counts[0])
  {
    var fit, rest := Fit(counts, room), Fit(counts[1..], room - counts[0]);
    assert counts[..fit][1..] == counts[1..][..rest];
    assert counts[fit..] == counts[1..][rest..];
  }

  lemma {:induction false} NothingGoesOut(counts: seq<nat>, room: nat)
    requires counts == [] || counts[0] > room
    ensures Fit(counts, room) == 0 && Sum(counts[..0]) == 0
    ensures HeadOnly(counts, room) == OneByOne(counts, room) <==> TailExceeds(counts, room)
  {
    NothingFits(counts, room);
    assert counts[0..] == counts;
    assert HeadOnly(counts, room) == seq(|counts|, i => false);
  }

  /** A first item that fits goes out either way and leaves the question to the rest. */
  lemma {:induction false} FirstGoesOut(counts: seq<nat>, room: nat)
    requires counts != [] && counts[0] <= room
    ensures HeadOnly(counts, room) == OneByOne(counts, room) <==>
      HeadOnly(counts[1..], room - counts[0]) == OneByOne(counts[1..], room - counts[0])
  {
    var head, rest := HeadOnly(counts, room), HeadOnly(counts[1..], room - counts[0]);
    assert head == [true] + rest && head[1..] == rest;
    assert OneByOne(counts, room)[1..] == OneByOne(counts[1..], room - counts[0]);
  }

  predicate NonDecreasing(counts: seq<nat>) {
    forall i, j :: 0 <= i < j < |counts| ==> counts[i] <= counts[j]
  }

  lemma {:induction false} SumIsMonotone(counts: seq<nat>, i: nat, j: nat)
    requires i <= j <= |counts|
    ensures Sum(counts[..i]) <= Sum(counts[..j])
  {
    assert counts[..j] == counts[..i] + counts[i..j];
    SumConcat(counts[..i], counts[i..j]);
  }

  lemma {:induction false} SumSnoc(counts: seq<nat>, i: nat)
    requires i < |counts|
    ensures Sum(counts[..i + 1]) == Sum(counts[..i]) + counts[i]
  {
    assert counts[..i + 1] == counts[..i] + [counts[i]];
    SumConcat(counts[..i], [counts[i]]);
  }

  /** They agree for every room exactly when no item is smaller than one before it; equal
      counts are such a batch. */
  lemma {:induction false} HeadAgreesForEveryRoom(counts: seq<nat>)
    ensures (forall room: nat :: HeadOnly(counts, room) == OneByOne(counts, room)) <==> NonDecreasing(counts)
  {
    if NonDecreasing(counts) {
      forall room: nat ensures HeadOnly(counts, room) == OneByOne(counts, room) {
        SortedHeadAgrees(counts, room);
      }
    } else {
      var i, j :| 0 <= i < j < |counts| && counts[i] > counts[j];
      SmallerTailDisagrees(counts, i, j);
    }
  }

  lemma {:induction false} SortedHeadAgrees(counts: seq<nat>, room: nat)
    requires NonDecreasing(counts)
    ensures HeadOnly(counts, room) == OneByOne(counts, room)
  {
    HeadAgreesExactly(counts, room);
    FitIsLongest(counts, room);
    var fit := Fit(counts, room);
    if fit < |counts| {
      SumSnoc(counts, fit);
      assert counts[fit] > room - Sum(counts[..fit]);
    }
  }

  lemma {:induction false} FitStopsAt(counts: seq<nat>, room: nat, i: nat)
    requires i < |counts| && Sum(counts[..i]) <= room < Sum(counts[..i]) + counts[i]
    ensures Fit(counts, room) == i
  {
    FitIsLongest(counts, room);
    var fit := Fit(counts, room);
    SumSnoc(counts, i);
    if fit > i { SumIsMonotone(counts, i + 1, fit); }
  }

  lemma {:induction false} RoomBehindHead(counts: seq<nat>, room: nat, i: nat, left: nat)
    requires Fit(counts, room) == i && room == Sum(counts[..i]) + left && !AllExceed(counts[i..], left)
    ensures HeadOnly(counts, room) != OneByOne(counts, room)
  {
    HeadAgreesExactly(counts, room);
  }

  lemma {:induction false} SmallOneLeft(counts: seq<nat>, k: nat, room: nat)
    requires k < |counts| && counts[k] == room
    ensures !AllExceed(counts, room)
  {
    assert !(counts[k] > room);
  }

  /** A smaller item behind a larger one is parked by the head rule with room to spare. */
  lemma {:induction false} SmallerTailDisagrees(counts: seq<nat>, i: nat, j: nat)
    requires i < j < |counts| && counts[i] > counts[j]
    ensures var room := Sum(counts[..i]) + counts[j];
      Fit(counts, room) == i && HeadOnly(counts, room) != OneByOne(counts, room)
  {
    var room := Sum(counts[..i]) + counts[j];
    FitStopsAt(counts, room, i);
    SmallOneLeft(counts[i..], j - i, counts[j]);
    RoomBehindHead(counts, room, i, counts[j]);
  }

  // ---- Day groups ---------------------------------------------------------

  datatype Item = Item(recipients: nat, day: int, quota: TeamQuota)

  /** The items of one day, in request order. */
  function GroupOf(items: seq<Item>, day: int): seq<nat> {
    if items == [] then []
    else
      var n := |items| - 1;
      GroupOf(items[..n], day) + if items[n].day == day then [n] else []
  }

  /** A day's group holds exactly the indices of its items, in order. */
  lemma {:induction false} GroupIsExact(items: seq<Item>, day: int)
    ensures forall i :: i in GroupOf(items, day) <==> 0 <= i < |items| && items[i].day == day
    ensures forall a, b :: 0 <= a < b < |GroupOf(items, day)| ==> GroupOf(items, day)[a] < GroupOf(items, day)[b]
  {
    if items != [] {
      var n := |items| - 1;
      GroupIsExact(items[..n], day);
      forall i | 0 <= i < n ensures items[..n][i] == items[i] {}
      forall a | 0 <= a < |GroupOf(items[..n], day)| ensures GroupOf(items[..n], day)[a] < n {
        assert GroupOf(items[..n], day)[a] in GroupOf(items[..n], day);
      }
    }
  }

  function Counts(items: seq<Item>, group: seq<nat>): seq<nat>
    requires forall k :: 0 <= k < |group| ==> group[k] < |items|
  {
    seq(|group|, k requires 0 <= k < |group| => items[group[k]].recipients)
  }

  /** What this transaction added to the counters. */
  datatype Booking = Booking(day: int, count: nat)

  datatype Refusal = MonthlyQuotaExceeded(first: nat) | BacklogFull(backlogFirst: nat)

  /** The counters a group's two reservations met, the one of all of it and that of its head. */
  datatype Met = Met(bulk: Counters, head: Counters)

  /** Count the items of a group that fit the room. */
  method CountFit(counts: seq<nat>, room: nat) returns (sum: nat, fit: nat)
    ensures fit == Fit(counts, room) && sum == Sum(counts[..fit])
  {
    sum, fit := 0, 0;
    while fit < |counts| && sum + counts[fit] <= room
      invariant fit <= |counts| && sum == Sum(counts[..fit]) && sum <= room
      invariant Fit(counts, room) == fit + Fit(counts[fit..], room - sum)
    {
      SumSnoc(counts, fit);
      assert counts[fit..][1..] == counts[fit + 1..];
      sum := sum + counts[fit];
      fit := fit + 1;
    }
  }

  method CountAll(counts: seq<nat>) returns (total: nat)
    ensures total == Sum(counts)
  {
    total := 0;
    for i := 0 to |counts|
      invariant total == Sum(counts[..i])
    {
      SumSnoc(counts, i);
      total := total + counts[i];
    }
    assert counts[..|counts|] == counts;
  }

  /** How many items of a group go out, from what its reservations answered. */
  function Placement(counts: seq<nat>, bulk: QuotaResult, head: Option<QuotaResult>): nat {
    if bulk.reserved then |counts|
    else if head.Some? && head.value.reserved then Fit(counts, Room(bulk))
    else 0
  }

  /** With nobody in between, a refused group goes out up to its longest fitting prefix and
      never whole. */
  lemma {:induction false} UndisturbedPlacement(c: Counters, day: int, counts: seq<nat>, q: TeamQuota)
    requires counts != [] && forall i :: 0 <= i < |counts| ==> counts[i] > 0
    requires q.Monthly? ==> Reserve(c, day, Sum(counts), q).1.reserved || Reserve(c, day, Sum(counts), q).1.byDay
    ensures var (mid, bulk) := Reserve(c, day, Sum(counts), q);
      var fit := Fit(counts, Room(bulk));
      var head := if fit > 0 then Some(Reserve(mid, day, Sum(counts[..fit]), q).1) else None;
      && (!bulk.reserved ==> Placement(counts, bulk, head) == fit < |counts|)
  {
    var (mid, bulk) := Reserve(c, day, Sum(counts), q);
    if !bulk.reserved {
      var fit := Fit(counts, Room(bulk));
      RefusedFitIsShort(c, day, counts, q, bulk);
      if fit > 0 { RoomIsReservable(c, day, Sum(counts), q, Sum(counts[..fit])); }
    }
  }

  /** A refused group does not fit whole into the room its refusal leaves. */
  lemma {:induction false} RefusedFitIsShort(c: Counters, day: int, counts: seq<nat>, q: TeamQuota, bulk: QuotaResult)
    requires counts != [] && forall i :: 0 <= i < |counts| ==> counts[i] > 0
    requires bulk == Reserve(c, day, Sum(counts), q).1 && !bulk.reserved && (q.Monthly? ==> bulk.byDay)
    ensures var fit := Fit(counts, Room(bulk)); fit < |counts| && (fit > 0 ==> 0 < Sum(counts[..fit]) <= Room(bulk))
  {
    assert Sum(counts) > 0;
    ReserveBooksAllOrNothing(c, day, Sum(counts), q);
    var fit := Fit(counts, Room(bulk));
    FitIsLongest(counts, Room(bulk));
    assert counts[..|counts|] == counts;
    if fit > 0 { assert counts[..fit][0] > 0; }
  }

  function InsertDay(days: seq<int>, day: int): seq<int> {
    if days == [] || day < days[0] then [day] + days
    else if day == days[0] then days
    else [days[0]] + InsertDay(days[1..], day)
  }

  /** The delivery days of a batch, each once, in order. */
  function Days(items: seq<Item>): seq<int> {
    if items == [] then [] else InsertDay(Days(items[..|items| - 1]), items[|items| - 1].day)
  }

  predicate Increasing(days: seq<int>) {
    forall i, j :: 0 <= i < j < |days| ==> days[i] < days[j]
  }

  lemma {:induction false} InsertIsExact(days: seq<int>, day: int)
    requires Increasing(days)
    ensures Increasing(InsertDay(days, day))
    ensures forall d :: d in InsertDay(days, day) <==> d == day || d in days
  {
    if days != [] && day > days[0] {
      InsertIsExact(days[1..], day);
      var rest := InsertDay(days[1..], day);
      forall j | 0 <= j < |rest| ensures days[0] < rest[j] {
        assert rest[j] in rest;
      }
      assert days == [days[0]] + days[1..];
    }
  }

  lemma {:induction false} DaysAreExact(items: seq<Item>)
    ensures Increasing(Days(items))
    ensures forall d :: d in Days(items) <==> exists i :: 0 <= i < |items| && items[i].day == d
  {
    if items != [] {
      var n := |items| - 1;
      DaysAreExact(items[..n]);
      InsertIsExact(Days(items[..n]), items[n].day);
      forall d | exists i :: 0 <= i < |items| && items[i].day == d ensures d in Days(items) {
        var i :| 0 <= i < |items| && items[i].day == d;
        if i < n { assert items[..n][i].day == d; }
      }
    }
  }

  lemma {:induction false} DayComesNext(items: seq<Item>, d: nat)
    requires d < |Days(items)|
    ensures Days(items)[d] in Days(items) && forall e :: e in Days(items)[..d] ==> e < Days(items)[d]
  {
    DaysAreExact(items);
  }

  function BookedOn(bookings: seq<Booking>, day: int): nat {
    if bookings == [] then 0
    else
      var last := bookings[|bookings| - 1];
      BookedOn(bookings[..|bookings| - 1], day) + if last.day == day then last.count else 0
  }

  /** What the reservation of a whole group answered. */
  function BulkAnswer(counts: seq<nat>, day: int, q: TeamQuota, met: Met): QuotaResult {
    Reserve(met.bulk, day, Sum(counts), q).1
  }

  /** What that of its head answered, made only after a refusal that leaves room for one. */
  function HeadAnswer(counts: seq<nat>, day: int, q: TeamQuota, met: Met): Option<QuotaResult> {
    var bulk := BulkAnswer(counts, day, q, met);
    var fit := Fit(counts, Room(bulk));
    if bulk.reserved || fit == 0 then None else Some(Reserve(met.head, day, Sum(counts[..fit]), q).1)
  }

  /** A refusal that ends the request: the period is used up. */
  predicate EndsRequest(q: TeamQuota, bulk: QuotaResult) {
    q.Monthly? && !bulk.reserved && !bulk.byDay
  }

  /** So many items of a day go out by what its reservations met, and the request goes on. */
  predicate Decided(items: seq<Item>, day: int, out: nat, met: Met) {
    var group := GroupOf(items, day);
    && group != [] && InRange(items, group)
    && var counts, q := Counts(items, group), items[group[0]].quota;
    && out == Placement(counts, BulkAnswer(counts, day, q, met), HeadAnswer(counts, day, q, met))
    && !EndsRequest(q, BulkAnswer(counts, day, q, met))
  }

  ghost predicate AllDecided(items: seq<Item>, done: seq<int>, sent: map<int, nat>, met: map<int, Met>) {
    forall e :: e in done ==> e in sent && e in met && Decided(items, e, sent[e], met[e])
  }

  /** Why a day's group ends the request, and at which item. */
  predicate RefusedOn(items: seq<Item>, day: int, met: Met, refusal: Refusal) {
    var group := GroupOf(items, day);
    && group != [] && InRange(items, group)
    && var q := items[group[0]].quota;
    && var bulk := BulkAnswer(Counts(items, group), day, q, met);
    && !bulk.reserved
    && if EndsRequest(q, bulk) then refusal == MonthlyQuotaExceeded(group[0])
       else q.Daily? && refusal == BacklogFull(group[0])
  }

  /** A day's group went out as its first `out` items, and what was reserved on the day is
      exactly their recipients. */
  ghost predicate PlacedOn(items: seq<Item>, parked: seq<bool>, mine: seq<Booking>, day: int, out: nat)
    requires |parked| == |items|
  {
    var group := GroupOf(items, day);
    && InRange(items, group)
    && IsPrefix(parked, group, out) && BookedOn(mine, day) == Sum(Counts(items, group)[..out])
  }

  predicate InRange(items: seq<Item>, group: seq<nat>) {
    forall k :: 0 <= k < |group| ==> group[k] < |items|
  }

  predicate IsPrefix(parked: seq<bool>, group: seq<nat>, out: nat) {
    out <= |group| && forall k :: 0 <= k < |group| ==> group[k] < |parked| && (parked[group[k]] <==> k >= out)
  }

  /** Mark the tail of a group as parked. */
  method Park(parked: seq<bool>, group: seq<nat>, out: nat) returns (marked: seq<bool>)
    requires out <= |group| && forall k :: 0 <= k < |group| ==> group[k] < |parked|
    requires forall a, b :: 0 <= a < b < |group| ==> group[a] < group[b]
    ensures |marked| == |parked|
    ensures forall i :: 0 <= i < |parked| ==> marked[i] == (parked[i] || i in group[out..])
  {
    marked := parked;
    for k := out to |group|
      invariant |marked| == |parked|
      invariant forall i :: 0 <= i < |parked| ==> marked[i] == (parked[i] || i in group[out..k])
    {
      assert group[out..k + 1] == group[out..k] + [group[k]];
      marked := marked[group[k] := true];
    }
    assert group[out..|group|] == group[out..];
  }

  lemma {:induction false} TailIsParked(items: seq<Item>, was: seq<bool>, parked: seq<bool>, group: seq<nat>,
                                        day: int, out: nat)
    requires |was| == |parked| == |items| && group == GroupOf(items, day) && out <= |group|
    requires forall i :: 0 <= i < |items| ==> parked[i] == (was[i] || i in group[out..])
    requires forall i :: 0 <= i < |items| && items[i].day == day ==> !was[i]
    ensures IsPrefix(parked, group, out)
  {
    GroupIsExact(items, day);
    forall k | 0 <= k < |group| ensures group[k] < |parked| && (parked[group[k]] <==> k >= out) {
      assert group[k] in group;
      if k >= out { assert group[out..][k - out] == group[k]; }
      if group[k] in group[out..] {
        var l :| 0 <= l < |group[out..]| && group[out..][l] == group[k];
        assert group[out + l] == group[k];
      }
    }
  }

  lemma {:induction false} DayIsBooked(items: seq<Item>, before: seq<Booking>, day: int, out: nat)
    requires InRange(items, GroupOf(items, day)) && out <= |GroupOf(items, day)|
    requires forall a :: 0 <= a < |before| ==> before[a].day != day
    ensures BookedOn(before + Booked(items, day, out), day) == Sum(Counts(items, GroupOf(items, day))[..out])
  {
    NoneBooked(before, day);
    var mine := before + Booked(items, day, out);
    if out > 0 { assert mine[..|mine| - 1] == before; } else { assert mine == before; }
  }

  lemma {:induction false} GroupIsPlaced(items: seq<Item>, was: seq<bool>, parked: seq<bool>, before: seq<Booking>,
                                         day: int, out: nat)
    requires Marked(items, was, parked, day, out)
    requires forall i :: 0 <= i < |items| && items[i].day == day ==> !was[i]
    requires forall a :: 0 <= a < |before| ==> before[a].day != day
    ensures PlacedOn(items, parked, before + Booked(items, day, out), day, out)
  {
    TailIsParked(items, was, parked, GroupOf(items, day), day, out);
    DayIsBooked(items, before, day, out);
  }

  lemma {:induction false} NoneBooked(bookings: seq<Booking>, day: int)
    requires forall a :: 0 <= a < |bookings| ==> bookings[a].day != day
    ensures BookedOn(bookings, day) == 0
  {
    if bookings != [] { NoneBooked(bookings[..|bookings| - 1], day); }
  }

  /** Placing one day leaves the others as they were. */
  lemma {:induction false} OtherDayStays(items: seq<Item>, was: seq<bool>, parked: seq<bool>, before: seq<Booking>,
                                         mine: seq<Booking>, day: int, out: nat, other: int, n: nat)
    requires |was| == |parked| == |items| && other != day && PlacedOn(items, was, before, other, n)
    requires out <= |GroupOf(items, day)|
    requires forall i :: 0 <= i < |items| ==> parked[i] == (was[i] || i in GroupOf(items, day)[out..])
    requires mine == before || exists n :: mine == before + [Booking(day, n)]
    ensures PlacedOn(items, parked, mine, other, n)
  {
    var group := GroupOf(items, other);
    GroupIsExact(items, day);
    GroupIsExact(items, other);
    forall k | 0 <= k < |group| ensures parked[group[k]] == was[group[k]] {
      assert group[k] in group;
      assert group[k] !in GroupOf(items, day);
    }
    assert IsPrefix(parked, group, n);
    if mine != before { assert mine[..|mine| - 1] == before; }
    assert BookedOn(mine, other) == BookedOn(before, other);
  }

  function Booked(items: seq<Item>, day: int, out: nat): seq<Booking>
    requires InRange(items, GroupOf(items, day)) && out <= |GroupOf(items, day)|
  {
    if out == 0 then [] else [Booking(day, Sum(Counts(items, GroupOf(items, day))[..out]))]
  }

  lemma {:induction false} DayHasItems(items: seq<Item>, day: int)
    requires day in Days(items)
    ensures GroupOf(items, day) != []
  {
    DaysAreExact(items);
    GroupIsExact(items, day);
    var i :| 0 <= i < |items| && items[i].day == day;
    assert i in GroupOf(items, day);
  }

  /** The days in `done` have `sent` their first items. */
  ghost predicate AllPlaced(items: seq<Item>, done: seq<int>, parked: seq<bool>, mine: seq<Booking>,
                            sent: map<int, nat>)
    requires |parked| == |items|
  {
    forall e :: e in done ==> e in sent && PlacedOn(items, parked, mine, e, sent[e])
  }

  /** One booking a day at most, in day order. */
  ghost predicate InDayOrder(mine: seq<Booking>, done: seq<int>) {
    && (forall a :: 0 <= a < |mine| ==> mine[a].day in done)
    && (forall a, b :: 0 <= a < b < |mine| ==> mine[a].day < mine[b].day)
  }

  /** No item of another day is parked. */
  ghost predicate OthersUnmarked(items: seq<Item>, done: seq<int>, parked: seq<bool>)
    requires |parked| == |items|
  {
    forall i :: 0 <= i < |items| && items[i].day !in done ==> !parked[i]
  }

  /** The days in `done` are placed; nothing else is parked or booked. */
  ghost predicate PartlyPlaced(items: seq<Item>, done: seq<int>, parked: seq<bool>, mine: seq<Booking>,
                               sent: map<int, nat>) {
    && |parked| == |items|
    && AllPlaced(items, done, parked, mine, sent) && InDayOrder(mine, done) && OthersUnmarked(items, done, parked)
  }

  /** A day's items are marked from `out` on. */
  ghost predicate Marked(items: seq<Item>, was: seq<bool>, parked: seq<bool>, day: int, out: nat) {
    && |was| == |parked| == |items| && InRange(items, GroupOf(items, day)) && out <= |GroupOf(items, day)|
    && forall i :: 0 <= i < |items| ==> parked[i] == (was[i] || i in GroupOf(items, day)[out..])
  }

  lemma {:induction false} OtherDaysStay(items: seq<Item>, done: seq<int>, was: seq<bool>, parked: seq<bool>,
                                         before: seq<Booking>, day: int, out: nat, sent: map<int, nat>)
    requires Marked(items, was, parked, day, out) && day !in done && AllPlaced(items, done, was, before, sent)
    ensures AllPlaced(items, done, parked, before + Booked(items, day, out), sent)
  {
    var mine := before + Booked(items, day, out);
    assert out == 0 ==> mine == before;
    forall e | e in done ensures PlacedOn(items, parked, mine, e, sent[e]) {
      OtherDayStays(items, was, parked, before, mine, day, out, e, sent[e]);
    }
  }

  lemma {:induction false} OneMorePlaced(items: seq<Item>, done: seq<int>, parked: seq<bool>, mine: seq<Booking>,
                                         day: int, out: nat, sent: map<int, nat>)
    requires |parked| == |items| && day !in done
    requires AllPlaced(items, done, parked, mine, sent) && PlacedOn(items, parked, mine, day, out)
    ensures AllPlaced(items, done + [day], parked, mine, sent[day := out])
  {}

  lemma {:induction false} OneMoreDecided(items: seq<Item>, done: seq<int>, day: int, out: nat, m: Met,
                                          sent: map<int, nat>, met: map<int, Met>)
    requires day !in done && AllDecided(items, done, sent, met) && Decided(items, day, out, m)
    ensures AllDecided(items, done + [day], sent[day := out], met[day := m])
  {}

  lemma {:induction false} BookingsStayInOrder(done: seq<int>, before: seq<Booking>, added: seq<Booking>, day: int)
    requires InDayOrder(before, done) && |added| <= 1 && (added != [] ==> added[0].day == day)
    requires forall e :: e in done ==> e < day
    ensures InDayOrder(before + added, done + [day])
  {}

  lemma {:induction false} OthersStayUnmarked(items: seq<Item>, done: seq<int>, was: seq<bool>, parked: seq<bool>,
                                              day: int, out: nat)
    requires Marked(items, was, parked, day, out) && OthersUnmarked(items, done, was)
    ensures OthersUnmarked(items, done + [day], parked)
  {
    GroupIsExact(items, day);
    forall i | 0 <= i < |items| && items[i].day !in done + [day] ensures !parked[i] {
      assert i !in GroupOf(items, day);
    }
  }

  lemma {:induction false} StepIsPlaced(items: seq<Item>, done: seq<int>, was: seq<bool>, parked: seq<bool>,
                                        before: seq<Booking>, day: int, out: nat, sent: map<int, nat>)
    requires PartlyPlaced(items, done, was, before, sent) && (forall e :: e in done ==> e < day)
    requires Marked(items, was, parked, day, out)
    ensures PartlyPlaced(items, done + [day], parked, before + Booked(items, day, out), sent[day := out])
  {
    var added := Booked(items, day, out);
    GroupIsPlaced(items, was, parked, before, day, out);
    OtherDaysStay(items, done, was, parked, before, day, out, sent);
    OneMorePlaced(items, done, parked, before + added, day, out, sent);
    BookingsStayInOrder(done, before, added, day);
    OthersStayUnmarked(items, done, was, parked, day, out);
  }

  class TeamUsage {
    var counters: Counters
    /** Emails of the team waiting for a day with room, before this batch. */
    var backlog: nat
    ghost var booked: seq<Booking>

    constructor (counters: Counters, backlog: nat)
      ensures booked == []
    {
      this.counters, this.backlog, booked := counters, backlog, [];
    }

    /** Other transactions commit between two reservations. */
    method Others()
      modifies this`counters, this`backlog
    {
      var c: Counters := *;
      var n: nat := *;
      counters, backlog := c, n;
    }

    /** One atomic reservation, on the counters as they are by then. */
    method ReserveQuota(day: int, count: nat, q: TeamQuota) returns (r: QuotaResult, ghost met: Counters)
      modifies this
      ensures (counters, r) == Reserve(met, day, count, q)
      ensures booked == if r.reserved then old(booked) + [Booking(day, count)] else old(booked)
    {
      Others();
      met := counters;
      var (after, result) := Reserve(counters, day, count, q);
      counters, r := after, result;
      if r.reserved { booked := booked + [Booking(day, count)]; }
    }

    /** Place one day's group: whole, or its fitting head, or none of it. Also returns what
        the two reservations met. */
    method PlaceGroup(day: int, first: nat, counts: seq<nat>, q: TeamQuota)
      returns (refusal: Option<Refusal>, out: nat, ghost met: Met)
      requires counts != [] && forall i :: 0 <= i < |counts| ==> counts[i] > 0
      modifies this
      ensures refusal.None? ==>
        && out == Placement(counts, BulkAnswer(counts, day, q, met), HeadAnswer(counts, day, q, met)) <= |counts|
        && booked == (if out == 0 then old(booked) else old(booked) + [Booking(day, Sum(counts[..out]))])
      ensures refusal.Some? ==>
        && !BulkAnswer(counts, day, q, met).reserved
        && if EndsRequest(q, BulkAnswer(counts, day, q, met)) then refusal == Some(MonthlyQuotaExceeded(first))
           else refusal == Some(BacklogFull(first)) && q.Daily? && backlog >= 3 * q.limit
      ensures EndsRequest(q, BulkAnswer(counts, day, q, met)) ==> refusal.Some?
      ensures q.Daily? && !BulkAnswer(counts, day, q, met).reserved && backlog >= 3 * q.limit ==> refusal.Some?
    {
      assert counts[..|counts|] == counts;
      var total := CountAll(counts);
      assert total > 0;
      var reservation;
      ghost var whole, head;
      reservation, whole := ReserveQuota(day, total, q);
      met, out := Met(whole, whole), 0;
      if reservation.reserved { return None, |counts|, met; }
      if q.Monthly? && !reservation.byDay { return Some(MonthlyQuotaExceeded(first)), 0, met; }
      var room := Room(reservation);
      var sum, fit := CountFit(counts, room);
      if fit > 0 {
        var second;
        second, head := ReserveQuota(day, sum, q);
        met := Met(whole, head);
        if second.reserved { out := fit; }
      }
      if q.Daily? && backlog >= q.limit * QUOTA_BACKLOG_DAYS { return Some(BacklogFull(first)), out, met; }
      refusal := None;
    }

    /** Place the group of one day. */
    method PlaceDay(items: seq<Item>, day: int, was: seq<bool>)
      returns (refusal: Option<Refusal>, parked: seq<bool>, out: nat, ghost met: Met)
      requires |was| == |items| && forall i :: 0 <= i < |items| ==> items[i].recipients > 0
      requires GroupOf(items, day) != []
      modifies this
      ensures |parked| == |items| && InRange(items, GroupOf(items, day))
      ensures refusal.None? ==>
        && Decided(items, day, out, met) && Marked(items, was, parked, day, out)
        && booked == old(booked) + Booked(items, day, out)
      ensures refusal.Some? ==> RefusedOn(items, day, met, refusal.value)
    {
      GroupIsExact(items, day);
      var group := GroupOf(items, day);
      forall k | 0 <= k < |group| ensures group[k] < |items| { assert group[k] in group; }
      var counts := Counts(items, group);
      refusal, out, met := PlaceGroup(day, group[0], counts, items[group[0]].quota);
      parked := was;
      if refusal.None? { parked := Park(was, group, out); }
    }

    /** Place the next day after those in `done`. */
    method PlaceNext(items: seq<Item>, ghost done: seq<int>, was: seq<bool>, ghost start: seq<Booking>,
                     ghost before: seq<Booking>, ghost sent: map<int, nat>, ghost met: map<int, Met>, day: int)
      returns (refusal: Option<Refusal>, parked: seq<bool>, ghost mine: seq<Booking>, ghost sent': map<int, nat>,
               ghost met': map<int, Met>)
      requires booked == start + before
      requires forall i :: 0 <= i < |items| ==> items[i].recipients > 0
      requires PartlyPlaced(items, done, was, before, sent) && AllDecided(items, done, sent, met)
      requires day in Days(items) && forall e :: e in done ==> e < day
      modifies this
      ensures refusal.None? ==>
        && PartlyPlaced(items, done + [day], parked, mine, sent') && AllDecided(items, done + [day], sent', met')
        && booked == start + mine
      ensures refusal.Some? ==> day in met' && RefusedOn(items, day, met'[day], refusal.value)
    {
      DayHasItems(items, day);
      var out;
      ghost var m;
      refusal, parked, out, m := PlaceDay(items, day, was);
      mine, sent', met' := before, sent[day := out], met[day := m];
      if refusal.None? {
        mine := before + Booked(items, day, out);
        StepIsPlaced(items, done, was, parked, before, day, out, sent);
        OneMoreDecided(items, done, day, out, m, sent, met);
      }
    }

    /** The whole batch, one group per delivery day in one order: each day sends what the
        answers of its reservations call for. A refusal names its day's first item and
        rolls the batch back. */
    method PlaceBatch(items: seq<Item>)
      returns (refusal: Option<Refusal>, parked: seq<bool>, ghost mine: seq<Booking>, ghost sent: map<int, nat>,
               ghost met: map<int, Met>)
      requires forall i :: 0 <= i < |items| ==> items[i].recipients > 0
      modifies this
      ensures refusal.None? ==>
        && booked == old(booked) + mine
        && PartlyPlaced(items, Days(items), parked, mine, sent) && AllDecided(items, Days(items), sent, met)
      ensures refusal.Some? ==>
        && booked == old(booked)
        && exists day :: day in Days(items) && day in met && RefusedOn(items, day, met[day], refusal.value)
    {
      var days := Days(items);
      ghost var start := booked;
      parked, mine, refusal, sent, met := seq(|items|, i => false), [], None, map[], map[];
      for d := 0 to |days|
        invariant booked == start + mine && refusal.None?
        invariant PartlyPlaced(items, days[..d], parked, mine, sent) && AllDecided(items, days[..d], sent, met)
      {
        TakeOneMore(days, d);
        DayComesNext(items, d);
        refusal, parked, mine, sent, met := PlaceNext(items, days[..d], parked, start, mine, sent, met, days[d]);
        if refusal.Some? {
          booked := start;
          return;
        }
      }
      assert days[..|days|] == days;
    }
  }
}
