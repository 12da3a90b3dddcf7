/**
 * Send accounting: nested probation wrappers and the day ledger
 * (apps/worker/src/mailbox-sender.ts:104-150, 161-168, 430-442).
 *
 * A wrapped sender is a stack of layers around a transport. The mark that keeps a second
 * wrapper from charging again is on the identity of the input object.
 */
module Probation {
  import opened Common

  datatype Layer = Charging | Cloning

  /** How a send ends for its caller; every other error is an unknown outcome. */
  datatype Outcome = Accepted | Deferred | Rejected | Unknown

  /** Reservations a stack attempts, given whether its input is marked. */
  function Charges(layers: seq<Layer>, marked: bool): nat {
    if layers == [] then 0
    else if layers[0].Cloning? then Charges(layers[1..], false)
    else if marked then Charges(layers[1..], marked)
    else 1 + Charges(layers[1..], true)
  }

  /** A clone between two charging layers hides the mark from the inner one. */
  ghost predicate ClonesBetween(layers: seq<Layer>) {
    exists i, j, k :: 0 <= i < j < k < |layers| && layers[i].Charging? && layers[j].Cloning? && layers[k].Charging?
  }

  /** There is a charging layer, in front of which a clone stands if `cloned`. */
  predicate HasCharging(layers: seq<Layer>, cloned: bool) {
    if layers == [] then false
    else if layers[0].Cloning? then HasCharging(layers[1..], false)
    else !cloned || HasCharging(layers[1..], cloned)
  }

  lemma {:induction false} NoneAfterNoCharging(layers: seq<Layer>, marked: bool)
    ensures Charges(layers, marked) == 0 <==> !HasCharging(layers, marked)
  {
    if layers != [] {
      NoneAfterNoCharging(layers[1..], if layers[0].Cloning? then false else marked);
    }
  }

  lemma {:induction false} HasChargingExactly(layers: seq<Layer>, marked: bool)
    ensures HasCharging(layers, marked) <==>
      (exists k :: 0 <= k < |layers| && layers[k].Charging?
        && (marked ==> exists j :: 0 <= j < k && layers[j].Cloning?))
  {
    if layers != [] {
      var rest := layers[1..];
      var next := if layers[0].Cloning? then false else marked;
      HasChargingExactly(rest, next);
      if HasCharging(rest, next) {
        var k :| 0 <= k < |rest| && rest[k].Charging? && (next ==> exists j :: 0 <= j < k && rest[j].Cloning?);
        assert layers[k + 1] == rest[k];
        if next {
          var j :| 0 <= j < k && rest[j].Cloning?;
          assert layers[j + 1].Cloning?;
        } else if marked {
          assert layers[0].Cloning?;
        }
      }
      if k :| 0 <= k < |layers| && layers[k].Charging? && (marked ==> exists j :: 0 <= j < k && layers[j].Cloning?) {
        if k > 0 {
          assert rest[k - 1] == layers[k];
          if next {
            var j :| 0 <= j < k && layers[j].Cloning?;
            assert rest[j - 1] == layers[j];
          }
        }
      }
    }
  }

  /** Any nesting charges at most once exactly when no clone stands between two charging
      layers, and then it charges once if it charges at all. */
  lemma {:induction false} ChargedOnceExactly(layers: seq<Layer>)
    ensures Charges(layers, false) <= 1 <==> !ClonesBetween(layers)
    ensures Charges(layers, false) == 0 <==> forall i :: 0 <= i < |layers| ==> layers[i].Cloning?
  {
    NoneAfterNoCharging(layers, false);
    HasChargingExactly(layers, false);
    if layers != [] {
      var rest := layers[1..];
      if layers[0].Cloning? {
        ChargedOnceExactly(rest);
        SkipFirst(layers);
      } else {
        NoneAfterNoCharging(rest, true);
        HasChargingExactly(rest, true);
        if k :| 0 <= k < |rest| && rest[k].Charging? && exists j :: 0 <= j < k && rest[j].Cloning? {
          var j :| 0 <= j < k && rest[j].Cloning?;
          assert layers[0].Charging? && layers[j + 1].Cloning? && layers[k + 1].Charging?;
        }
        if ClonesBetween(layers) {
          var i, j, k :| 0 <= i < j < k < |layers| && layers[i].Charging? && layers[j].Cloning? && layers[k].Charging?;
          assert rest[k - 1].Charging? && rest[j - 1].Cloning?;
        }
      }
    }
  }

  lemma SkipFirst(layers: seq<Layer>)
    requires layers != [] && layers[0].Cloning?
    ensures ClonesBetween(layers) <==> ClonesBetween(layers[1..])
  {
    var rest := layers[1..];
    if ClonesBetween(layers) {
      var i, j, k :| 0 <= i < j < k < |layers| && layers[i].Charging? && layers[j].Cloning? && layers[k].Charging?;
      assert rest[i - 1].Charging? && rest[j - 1].Cloning? && rest[k - 1].Charging?;
    }
    if ClonesBetween(rest) {
      var i, j, k :| 0 <= i < j < k < |rest| && rest[i].Charging? && rest[j].Cloning? && rest[k].Charging?;
      assert layers[i + 1].Charging? && layers[j + 1].Cloning? && layers[k + 1].Charging?;
    }
  }

  // ---- One send through a stack -------------------------------------------

  function LowerChar(c: char): char {
    if 'A' <= c <= 'Z' then (c as int + 32) as char else c
  }

  function Lower(s: string): string {
    seq(|s|, i requires 0 <= i < |s| => LowerChar(s[i]))
  }

  datatype Input = Input(to: seq<string>, cc: seq<string>, bcc: seq<string>)

  /** The recipients a send is charged for. */
  function Distinct(input: Input): nat {
    |set a | a in input.to + input.cc + input.bcc :: Lower(a)|
  }

  /** Lower-casing by the two alphabets, with every other character as it is. */
  lemma LowersExactly(s: string)
    ensures |Lower(s)| == |s|
    ensures var upper, lower := "ABCDEFGHIJKLMNOPQRSTUVWXYZ", "abcdefghijklmnopqrstuvwxyz";
      forall i :: 0 <= i < |s| ==>
        && (s[i] !in upper ==> Lower(s)[i] == s[i])
        && forall k :: 0 <= k < 26 && s[i] == upper[k] ==> Lower(s)[i] == lower[k]
  {
    forall c | 'A' <= c <= 'Z' ensures c in "ABCDEFGHIJKLMNOPQRSTUVWXYZ" {
      assert c == "ABCDEFGHIJKLMNOPQRSTUVWXYZ"[c as int - 'A' as int];
    }
  }

  // ---- The ledger over all interleavings ----------------------------------

  /** One charge. `lost` says that its refund failed without saying whether it was made. */
  datatype Charged = Charged(day: int, count: nat, outcome: Option<Outcome>, refunded: bool, lost: bool)

  /** `others` is what the rest of the team's traffic booked on the same counters. */
  datatype Books = Books(ledger: map<int, nat>, others: map<int, nat>, charges: seq<Charged>)

  datatype Step =
    | Reserve(day: int, count: nat)
    | End(charge: nat, outcome: Outcome, refundFails: bool, took: bool)
    | Other(otherDay: int, delta: int)

  function On(days: map<int, nat>, day: int): nat {
    if day in days then days[day] else 0
  }

  function Next(b: Books, s: Step): Books {
    match s
    case Reserve(day, count) =>
      b.(ledger := b.ledger[day := On(b.ledger, day) + count],
         charges := b.charges + [Charged(day, count, None, false, false)])
    case End(i, outcome, refundFails, took) =>
      if i >= |b.charges| || b.charges[i].outcome.Some? then b
      else
        var c := b.charges[i];
        if outcome == Accepted || outcome == Unknown then b.(charges := b.charges[i := c.(outcome := Some(outcome))])
        else
          var refunded := b.ledger[c.day := Max(On(b.ledger, c.day) - c.count, 0)];
          if !refundFails then
            b.(ledger := refunded, charges := b.charges[i := c.(outcome := Some(outcome), refunded := true)])
          else
            b.(ledger := if took then refunded else b.ledger,
               charges := b.charges[i := c.(outcome := Some(Unknown), refunded := took, lost := true)])
    case Other(day, delta) =>
      if On(b.others, day) + delta < 0 || On(b.ledger, day) + delta < 0 then b
      else
        b.(ledger := b.ledger[day := On(b.ledger, day) + delta], others := b.others[day := On(b.others, day) + delta])
  }

  function Run(b: Books, steps: seq<Step>): Books
    decreases steps
  {
    if steps == [] then b else Run(Next(b, steps[0]), steps[1..])
  }

  /** The counters of a step's day move by `by` and every other counter stays. */
  ghost predicate DayMoves(before: map<int, nat>, after: map<int, nat>, day: int, amount: int) {
    forall d :: On(after, d) == On(before, d) + if d == day then amount else 0
  }

  /** A charge is booked in full; other traffic moves both its counters alike, unless one of
      them would fall below zero. */
  lemma BooksExactly(b: Books, day: int, count: nat, delta: int)
    ensures var t := Next(b, Reserve(day, count));
      && DayMoves(b.ledger, t.ledger, day, count) && t.others == b.others
      && t.charges == b.charges + [Charged(day, count, None, false, false)]
    ensures var t := Next(b, Other(day, delta));
      && t.charges == b.charges
      && if On(b.ledger, day) + delta >= 0 && On(b.others, day) + delta >= 0
         then DayMoves(b.ledger, t.ledger, day, delta) && DayMoves(b.others, t.others, day, delta)
         else t == b
  {}

  /** A charge ends once. Only a deferred or rejected send is refunded: by what the charge
      booked and not below zero, unless the statement failed without effect. A failed refund
      leaves the send unknown, any other ending is recorded as it is. */
  lemma EndsExactly(b: Books, i: nat, outcome: Outcome, refundFails: bool, took: bool)
    ensures var t := Next(b, End(i, outcome, refundFails, took));
      if i < |b.charges| && b.charges[i].outcome.None?
      then var c := b.charges[i];
        var tried := outcome == Deferred || outcome == Rejected;
        var refunded := tried && (took || !refundFails);
        var taken := if On(b.ledger, c.day) < c.count then On(b.ledger, c.day) else c.count;
        && DayMoves(b.ledger, t.ledger, c.day, if refunded then -taken else 0) && t.others == b.others
        && |t.charges| == |b.charges| && (forall k :: 0 <= k < |b.charges| && k != i ==> t.charges[k] == b.charges[k])
        && t.charges[i].day == c.day && t.charges[i].count == c.count
        && t.charges[i].outcome == Some(if tried && refundFails then Unknown else outcome)
        && t.charges[i].refunded == (refunded || (!tried && c.refunded))
        && t.charges[i].lost == ((tried && refundFails) || c.lost)
      else t == b
  {}

  /** What the charges of a day hold. */
  function Held(charges: seq<Charged>, day: int): nat {
    if charges == [] then 0
    else
      var c := charges[|charges| - 1];
      Held(charges[..|charges| - 1], day) + if c.day == day && !c.refunded then c.count else 0
  }

  ghost predicate Balanced(b: Books) {
    && (forall day :: On(b.ledger, day) == On(b.others, day) + Held(b.charges, day))
    && (forall i :: 0 <= i < |b.charges| ==> Honest(b.charges[i]))
  }

  /** A charge is refunded exactly when its send was deferred or rejected, but for a refund
      whose answer was lost; that send ends as unknown. */
  predicate Honest(c: Charged) {
    && (c.lost ==> c.outcome == Some(Unknown))
    && (!c.lost ==> (c.refunded <==> c.outcome == Some(Deferred) || c.outcome == Some(Rejected)))
  }

  lemma {:induction false} HeldAfterUpdate(charges: seq<Charged>, i: nat, c: Charged, day: int)
    requires i < |charges| && !charges[i].refunded && c.day == charges[i].day && c.count == charges[i].count
    ensures Held(charges[i := c], day) == Held(charges, day) - if c.refunded && c.day == day then c.count else 0
    ensures Held(charges, charges[i].day) >= charges[i].count
  {
    var n := |charges| - 1;
    if i == n {
      assert charges[i := c][..n] == charges[..n];
    } else {
      HeldAfterUpdate(charges[..n], i, c, day);
      assert charges[i := c][..n] == charges[..n][i := c];
    }
  }

  /** Ending charge `i` as `c`: a refund takes exactly what the charge held. */
  lemma EndKeepsBalance(b: Books, i: nat, c: Charged)
    requires Balanced(b) && i < |b.charges| && b.charges[i].outcome.None? && Honest(c)
    requires c.day == b.charges[i].day && c.count == b.charges[i].count
    ensures var ledger := if c.refunded then b.ledger[c.day := Max(On(b.ledger, c.day) - c.count, 0)] else b.ledger;
      Balanced(b.(ledger := ledger, charges := b.charges[i := c]))
  {
    assert Honest(b.charges[i]);
    var ledger := if c.refunded then b.ledger[c.day := Max(On(b.ledger, c.day) - c.count, 0)] else b.ledger;
    forall day ensures On(ledger, day) == On(b.others, day) + Held(b.charges[i := c], day) {
      HeldAfterUpdate(b.charges, i, c, day);
      assert On(b.ledger, day) == On(b.others, day) + Held(b.charges, day);
      assert On(b.ledger, c.day) == On(b.others, c.day) + Held(b.charges, c.day);
    }
  }

  lemma ReserveKeepsBalance(b: Books, day: int, count: nat)
    requires Balanced(b)
    ensures Balanced(Next(b, Reserve(day, count)))
  {
    var more := b.charges + [Charged(day, count, None, false, false)];
    assert more[..|b.charges|] == b.charges;
    forall d ensures On(b.ledger[day := On(b.ledger, day) + count], d) == On(b.others, d) + Held(more, d) {
      assert On(b.ledger, d) == On(b.others, d) + Held(b.charges, d);
    }
  }

  lemma StepKeepsBalance(b: Books, s: Step)
    requires Balanced(b)
    ensures Balanced(Next(b, s))
  {
    match s
    case Reserve(day, count) => ReserveKeepsBalance(b, day, count);
    case End(i, outcome, refundFails, took) =>
      if i < |b.charges| && b.charges[i].outcome.None? { EndKeepsBalance(b, i, Next(b, s).charges[i]); }
    case Other(day, delta) => OtherKeepsBalance(b, day, delta);
  }

  lemma OtherKeepsBalance(b: Books, day: int, delta: int)
    requires Balanced(b)
    ensures Balanced(Next(b, Other(day, delta)))
  {
    var b' := Next(b, Other(day, delta));
    forall d ensures On(b'.ledger, d) == On(b'.others, d) + Held(b.charges, d) {
      assert On(b.ledger, d) == On(b.others, d) + Held(b.charges, d);
    }
  }

  /** Over every interleaving of sends and other traffic, the ledger of a day is the other
      traffic plus the recipients of the sends that are pending, accepted or unknown;
      deferred and rejected sends are refunded in full, never floored away. */
  lemma {:induction false} LedgerIsWhatMayHaveBeenSent(b: Books, steps: seq<Step>)
    requires Balanced(b)
    ensures Balanced(Run(b, steps))
    decreases steps
  {
    if steps != [] {
      StepKeepsBalance(b, steps[0]);
      LedgerIsWhatMayHaveBeenSent(Next(b, steps[0]), steps[1..]);
    }
  }

  // ---- A send as steps of the ledger --------------------------------------

  lemma {:induction false} RunSnoc(b: Books, steps: seq<Step>, s: Step)
    ensures Run(b, steps + [s]) == Next(Run(b, steps), s)
    decreases steps
  {
    if steps == [] {
      assert steps + [s] == [s] && Run(Next(b, s), [s][1..]) == Next(b, s);
    } else {
      assert (steps + [s])[1..] == steps[1..] + [s];
      RunSnoc(Next(b, steps[0]), steps[1..], s);
    }
  }

  /** How many of these charges stay booked. */
  function Kept(charges: seq<Charged>): nat {
    if charges == [] then 0 else Kept(charges[1..]) + if charges[0].refunded then 0 else 1
  }

  /** A send added these charges, each of its recipients and each ended. */
  ghost predicate Added(before: seq<Charged>, after: seq<Charged>, count: nat) {
    && before <= after
    && forall i :: |before| <= i < |after| ==> after[i].count == count && after[i].outcome.Some?
  }

  /** A charge around the charges of the send inside it. */
  lemma AddedAround(before: seq<Charged>, inside: seq<Charged>, open: Charged, ended: Charged, count: nat)
    requires open.count == ended.count == count && ended.outcome.Some? && Added(before + [open], inside, count)
    ensures Added(before, inside[|before| := ended], count)
    ensures Kept(inside[|before| := ended][|before|..])
         == Kept(inside[|before| + 1..]) + if ended.refunded then 0 else 1
    ensures inside[|before|] == open
  {
    assert (before + [open])[|before|] == inside[|before|];
    var all := inside[|before| := ended];
    assert forall i :: 0 <= i < |before| ==> all[i] == (before + [open])[i];
    assert all[|before|..] == [ended] + inside[|before| + 1..];
    assert ([ended] + inside[|before| + 1..])[1..] == inside[|before| + 1..];
  }

  class Sender {
    /** Marked input objects, by identity. */
    var marks: set<nat>
    var nextObject: nat
    var books: Books
    /** The books at the beginning, and every step made on them since. */
    ghost const start: Books
    ghost var trace: seq<Step>
    const isCloud: bool

    constructor (isCloud: bool, books: Books)
      ensures Valid() && marks == {} && this.books == start == books && trace == []
    {
      this.isCloud, marks, nextObject, this.books, start, trace := isCloud, {}, 0, books, books, [];
    }

    ghost predicate Valid()
      reads this
    {
      (forall m :: m in marks ==> m < nextObject) && books == Run(start, trace)
    }

    /** One step on the books. */
    method Take(s: Step)
      requires Valid()
      modifies this`books, this`trace
      ensures Valid() && books == Next(old(books), s) && trace == old(trace) + [s]
    {
      RunSnoc(start, trace, s);
      books, trace := Next(books, s), trace + [s];
    }

    /** The rest of the team's traffic. */
    method Others()
      requires Valid()
      modifies this`books, this`trace
      ensures Valid() && books.charges == old(books).charges && old(trace) <= trace
    {
      var k: nat := *;
      while k > 0
        invariant Valid() && books.charges == old(books).charges && old(trace) <= trace
      {
        var day: int, delta: int := *, *;
        Take(Other(day, delta));
        k := k - 1;
      }
    }

    /** Hand the message to the provider. */
    method Transport() returns (o: Outcome)
    {
      var accepted: bool, deferred: bool, rejected: bool := *, *, *;
      o := if accepted then Accepted else if deferred then Deferred else if rejected then Rejected else Unknown;
    }

    /** The checks around a reservation. An error of the database itself is no verdict. */
    method Check() returns (verdict: Option<Outcome>, failed: bool)
      ensures failed <==> verdict == Some(Unknown)
      ensures verdict != Some(Accepted)
    {
      var passes: bool, defers: bool, rejects: bool := *, *, *;
      verdict := if passes then None else if defers then Some(Deferred)
                 else if rejects then Some(Rejected) else Some(Unknown);
      failed := verdict == Some(Unknown);
    }

    /** What a statement of the accounting did. A failed one may or may not have taken effect. */
    method Statement() returns (failed: bool, took: bool)
      ensures !failed ==> took
    {
      var f: bool, t: bool := *, *;
      failed, took := f, t || !f;
    }

    /** Send through the stack. Every move of the books is a step of the ledger: the send adds
        at most the charges its layers call for and leaves every other charge alone. `charged`
        counts the reservations that stay booked, `dbFailed` says whether a statement of the
        accounting itself failed, and `reached` is what the transport made of the message, if
        it got that far. */
    method Send(layers: seq<Layer>, input: nat, message: Input)
      returns (o: Outcome, ghost charged: int, ghost dbFailed: bool, ghost reached: Option<Outcome>)
      requires Valid() && input < nextObject
      modifies this`marks, this`nextObject, this`books, this`trace
      ensures Valid() && marks == old(marks) && nextObject >= old(nextObject) && old(trace) <= trace
      ensures Added(old(books).charges, books.charges, Distinct(message))
      ensures charged == Kept(books.charges[|old(books).charges|..])
      ensures charged <= |books.charges| - |old(books).charges| <= Charges(layers, input in marks)
      ensures Balanced(start) ==> Balanced(books)
      ensures !isCloud ==> charged == 0 && books.charges == old(books).charges
      ensures !dbFailed && (o == Deferred || o == Rejected) ==> charged == 0
      ensures !dbFailed && isCloud && (o == Accepted || o == Unknown) ==> charged == Charges(layers, input in marks)
      ensures isCloud && o == Accepted ==> charged == Charges(layers, input in marks)
      ensures !dbFailed && reached.Some? ==> o == reached.value
      ensures !dbFailed && reached.None? ==> o == Deferred || o == Rejected
      ensures o == Accepted ==> reached == Some(Accepted)
      ensures !isCloud ==> reached.Some? && !dbFailed
      decreases |layers|, 1
    {
      charged, dbFailed, reached := 0, false, None;
      if layers == [] {
        o := Transport();
        reached := Some(o);
      } else if layers[0].Cloning? {
        var copy := nextObject;
        nextObject := nextObject + 1;
        o, charged, dbFailed, reached := Send(layers[1..], copy, message);
      } else if !isCloud || input in marks {
        o, charged, dbFailed, reached := Send(layers[1..], input, message);
      } else {
        o, charged, dbFailed, reached := Charge(layers, input, message);
      }
      if Balanced(start) { LedgerIsWhatMayHaveBeenSent(start, trace); }
    }

    /** Reserve, send on with the mark set, and refund only a proven non-acceptance. */
    method Charge(layers: seq<Layer>, input: nat, message: Input)
      returns (o: Outcome, ghost charged: int, ghost dbFailed: bool, ghost reached: Option<Outcome>)
      requires Valid() && input < nextObject && isCloud && input !in marks
      requires layers != [] && layers[0].Charging?
      modifies this`marks, this`nextObject, this`books, this`trace
      ensures Valid() && marks == old(marks) && nextObject >= old(nextObject) && old(trace) <= trace
      ensures Added(old(books).charges, books.charges, Distinct(message))
      ensures charged == Kept(books.charges[|old(books).charges|..])
      ensures charged <= |books.charges| - |old(books).charges| <= Charges(layers, false)
      ensures !dbFailed && (o == Deferred || o == Rejected) ==> charged == 0
      ensures !dbFailed && (o == Accepted || o == Unknown) ==> charged == Charges(layers, false)
      ensures o == Accepted ==> charged == Charges(layers, false)
      ensures !dbFailed && reached.Some? ==> o == reached.value
      ensures !dbFailed && reached.None? ==> o == Deferred || o == Rejected
      ensures o == Accepted ==> reached == Some(Accepted)
      decreases |layers|, 0
    {
      charged, reached := 0, None;
      var verdict, checkFailed := Check();
      dbFailed := checkFailed;
      if verdict.Some? { return verdict.value, 0, dbFailed, None; }
      var refused: bool, day: int := *, *;
      if refused { return Deferred, 0, false, None; }
      var failed, charge := Reserved(day, Distinct(message));
      if failed {
        charged := Kept(books.charges[|old(books).charges|..]);
        return Unknown, charged, true, None;
      }
      ghost var open := books.charges[charge];
      marks := marks + {input};
      ghost var inner;
      o, inner, dbFailed, reached := SendOn(layers[1..], input, message);
      failed, charged := Ended(charge, o, old(books).charges, open, inner);
      if failed { o, dbFailed := Unknown, true; }
      marks := marks - {input};
      assert marks == old(marks);
    }

    /** Check once more and send on under the mark. */
    method SendOn(layers: seq<Layer>, input: nat, message: Input)
      returns (o: Outcome, ghost charged: int, ghost dbFailed: bool, ghost reached: Option<Outcome>)
      requires Valid() && input < nextObject && isCloud && input in marks
      modifies this`marks, this`nextObject, this`books, this`trace
      ensures Valid() && marks == old(marks) && nextObject >= old(nextObject) && old(trace) <= trace
      ensures Added(old(books).charges, books.charges, Distinct(message))
      ensures charged == Kept(books.charges[|old(books).charges|..])
      ensures charged <= |books.charges| - |old(books).charges| <= Charges(layers, true)
      ensures !dbFailed && (o == Deferred || o == Rejected) ==> charged == 0
      ensures !dbFailed && (o == Accepted || o == Unknown) ==> charged == Charges(layers, true)
      ensures o == Accepted ==> charged == Charges(layers, true)
      ensures !dbFailed && reached.Some? ==> o == reached.value
      ensures !dbFailed && reached.None? ==> o == Deferred || o == Rejected
      ensures o == Accepted ==> reached == Some(Accepted)
      decreases |layers|, 2
    {
      var verdict, checkFailed := Check();
      charged, dbFailed, reached := 0, checkFailed, None;
      if verdict.Some? {
        o := verdict.value;
      } else {
        o, charged, dbFailed, reached := Send(layers, input, message);
      }
    }

    /** Reserve on the day the clock showed. `charge` is the new reservation. */
    method Reserved(day: int, count: nat) returns (failed: bool, charge: nat)
      requires Valid()
      modifies this`books, this`trace
      ensures Valid() && old(trace) <= trace && charge == |old(books).charges|
      ensures !failed ==> books.charges == old(books).charges + [Charged(day, count, None, false, false)]
      ensures failed ==>
        && Added(old(books).charges, books.charges, count)
        && Kept(books.charges[charge..]) == |books.charges| - charge <= 1
    {
      Others();
      charge := |books.charges|;
      var took;
      failed, took := Statement();
      if took {
        Take(Reserve(day, count));
        if failed { Take(End(charge, Unknown, false, false)); }
      }
    }

    /** The end of a charge's send: a proven non-acceptance is refunded. */
    method Ended(charge: nat, o: Outcome, ghost before: seq<Charged>, ghost open: Charged, ghost inner: int)
      returns (failed: bool, ghost charged: int)
      requires Valid() && charge == |before| && open.outcome.None? && !open.refunded && !open.lost
      requires Added(before + [open], books.charges, open.count) && inner == Kept(books.charges[charge + 1..])
      modifies this`books, this`trace
      ensures Valid() && old(trace) <= trace
      ensures |books.charges| == |old(books).charges| && Added(before, books.charges, open.count)
      ensures charged == Kept(books.charges[charge..])
      ensures charged == inner || charged == inner + 1
      ensures !failed ==> charged == inner + if o == Deferred || o == Rejected then 0 else 1
      ensures failed ==> o == Deferred || o == Rejected
    {
      Others();
      assert books.charges[charge] == (before + [open])[charge];
      var took := true;
      failed := false;
      if o == Deferred || o == Rejected { failed, took := Statement(); }
      ghost var mid := books;
      Take(End(charge, o, failed, took));
      AddedAround(before, mid.charges, open, books.charges[charge], open.count);
      charged := Kept(books.charges[charge..]);
    }
  }
}
