/**
 * Conversion deliveries gated on consent
 * (packages/billing/src/google-advertising.ts:130-167, 204-215, 327-397;
 * packages/billing/src/meta-advertising.ts:76-85, 103-193).
 *
 * The consent row is locked first everywhere, so each transaction is one step; a delivery
 * is posted inside its transaction and stays posted when the transaction rolls back.
 */
module Outbox {
  import opened Common

  /** Milliseconds. */
  const MAX_ATTEMPTS: nat := 5
  const FIRST_DELAY: nat := 60_000
  const MAX_DELAY: nat := 3_600_000
  const CONTEXT_LIFE: nat := 7 * 24 * 60 * 60 * 1000
  const DELIVERY_LIFE: nat := 72 * 60 * 60 * 1000

  datatype Receipt = Receipt(user: Option<nat>, granted: bool, revoked: Option<int>, expires: int)

  datatype Status = Pending | Leased | Sent | Cancelled | Dead

  datatype Row = Row(attempt: nat, receipt: nat, status: Status, attempts: nat, next: int,
                     leaseUntil: Option<int>, expires: int)

  datatype Context = Context(receipt: nat, captured: int, expires: int)

  /** `posts` is a history: which row was posted under which consent, and whether the
      transaction around it committed. */
  datatype Post = Post(row: nat, receipt: nat, committed: bool)

  datatype State = State(
    now: int, receipts: map<nat, Receipt>, rows: map<nat, Row>, contexts: map<nat, Context>,
    owners: map<nat, nat>, posts: seq<Post>)

  datatype Delivery = Accepted | Retry | Rejected

  datatype Action =
    | Tick(elapsed: nat)
    | Consent(receipt: nat, user: Option<nat>, granted: bool, expires: int)
    | Withdraw(withdrawn: nat)
    | Capture(attempt: nat, owner: nat, under: nat)
    | Record(row: nat, ofAttempt: nat, paidAt: int)
    | Dispatch(candidate: nat, delivery: Delivery, commits: bool)

  predicate IsAccepted(r: Receipt, now: int) {
    r.granted && r.revoked.None? && r.expires > now
  }

  predicate Settled(status: Status) {
    status == Sent || status == Cancelled || status == Dead
  }

  function Power(n: nat): nat {
    if n == 0 then 1 else 2 * Power(n - 1)
  }

  function Delay(attempts: nat): nat {
    Min(MAX_DELAY, FIRST_DELAY * Power(attempts))
  }

  /** The row may be worked on now. */
  predicate Due(row: Row, now: int) {
    && !Settled(row.status) && row.next <= now
    && (row.status == Leased && row.leaseUntil.Some? ==> row.leaseUntil.value <= now)
  }

  /** The consent still stands for the very checkout the row came from. */
  predicate StillConsented(s: State, row: Row) {
    && row.receipt in s.receipts && IsAccepted(s.receipts[row.receipt], s.now)
    && row.attempt in s.owners && s.receipts[row.receipt].user == Some(s.owners[row.attempt])
    && row.attempt in s.contexts && s.contexts[row.attempt].receipt == row.receipt
  }

  predicate Posts(s: State, id: nat) {
    id in s.rows && Due(s.rows[id], s.now) && StillConsented(s, s.rows[id])
    && s.rows[id].expires > s.now && s.rows[id].attempts < MAX_ATTEMPTS
  }

  function AfterDelivery(row: Row, now: int, delivery: Delivery): Row {
    var tried := row.(attempts := row.attempts + 1, leaseUntil := None);
    match delivery
    case Accepted => tried.(status := Sent)
    case Retry => tried.(status := Pending, next := now + Delay(row.attempts))
    case Rejected => tried.(status := Dead)
  }

  /** One delivery transaction. */
  function DispatchTx(s: State, id: nat, delivery: Delivery, commits: bool): State {
    if id !in s.rows || !Due(s.rows[id], s.now) then s
    else
      var row := s.rows[id];
      if !StillConsented(s, row) then
        if commits then s.(rows := s.rows[id := row.(status := Cancelled, leaseUntil := None)]) else s
      else if row.expires <= s.now || row.attempts >= MAX_ATTEMPTS then
        if commits then s.(rows := s.rows[id := row.(status := Dead, leaseUntil := None)]) else s
      else
        var posted := s.(posts := s.posts + [Post(id, row.receipt, commits)]);
        if commits then posted.(rows := s.rows[id := AfterDelivery(row, s.now, delivery)]) else posted
  }

  /** Withdrawal or replacement of a consent: nothing pending leaves, the identity is erased. */
  function WithdrawTx(s: State, id: nat): State {
    if id !in s.receipts then s
    else
      s.(receipts := s.receipts[id := s.receipts[id].(granted := false, revoked := Some(s.now))],
         rows := map i | i in s.rows ::
           if s.rows[i].receipt == id && !Settled(s.rows[i].status)
           then s.rows[i].(status := Cancelled, leaseUntil := None)
           else s.rows[i],
         contexts := map a | a in s.contexts && s.contexts[a].receipt != id :: s.contexts[a])
  }

  /** A finished purchase, recorded only under the consent its checkout was begun with. */
  function RecordTx(s: State, id: nat, attempt: nat, paidAt: int): State {
    if id in s.rows || attempt !in s.contexts || attempt !in s.owners
       || paidAt > s.now || paidAt + DELIVERY_LIFE <= s.now then s
    else
      var context := s.contexts[attempt];
      if context.expires <= s.now || context.receipt !in s.receipts || !IsAccepted(s.receipts[context.receipt], s.now)
         || s.receipts[context.receipt].user != Some(s.owners[attempt])
         || context.captured / 1000 > paidAt / 1000 then s
      else s.(rows := s.rows[id := Row(attempt, context.receipt, Pending, 0, s.now, None, paidAt + DELIVERY_LIFE)])
  }

  function CaptureTx(s: State, attempt: nat, owner: nat, under: nat): State {
    if under !in s.receipts || !IsAccepted(s.receipts[under], s.now) || attempt in s.contexts || attempt in s.owners
       || (s.receipts[under].user.Some? && s.receipts[under].user != Some(owner)) then s
    else
      s.(receipts := s.receipts[under := s.receipts[under].(user := Some(owner))],
         owners := s.owners[attempt := owner],
         contexts := s.contexts[attempt := Context(under, s.now, s.now + CONTEXT_LIFE)])
  }

  function Next(s: State, a: Action): State {
    match a
    case Tick(elapsed) => s.(now := s.now + elapsed)
    case Consent(id, user, granted, expires) =>
      if id in s.receipts then s
      else s.(receipts := s.receipts[id := Receipt(user, granted, if granted then None else Some(s.now), expires)])
    case Withdraw(id) => WithdrawTx(s, id)
    case Capture(attempt, owner, under) => CaptureTx(s, attempt, owner, under)
    case Record(id, attempt, paidAt) => RecordTx(s, id, attempt, paidAt)
    case Dispatch(id, delivery, commits) => DispatchTx(s, id, delivery, commits)
  }

  function Run(s: State, actions: seq<Action>): State
    decreases actions
  {
    if actions == [] then s else Run(Next(s, actions[0]), actions[1..])
  }

  // ---- What each transaction decides --------------------------------------

  /** The consent stands: granted, not taken back, and not run out. */
  predicate Stands(s: State, receipt: nat) {
    && receipt in s.receipts && s.receipts[receipt].granted && s.receipts[receipt].revoked.None?
    && s.now < s.receipts[receipt].expires
  }

  /** The row waits for this moment: it is not settled, its time has come, and no worker holds it. */
  predicate Waits(s: State, id: nat) {
    && id in s.rows && s.rows[id].next <= s.now
    && match s.rows[id].status
       case Pending => true
       case Leased => s.rows[id].leaseUntil.None? || s.rows[id].leaseUntil.value <= s.now
       case _ => false
  }

  /** Its buyer still consents, through the consent the checkout was begun under. */
  predicate BuyerConsents(s: State, row: Row) {
    && Stands(s, row.receipt) && row.attempt in s.owners && row.attempt in s.contexts
    && s.receipts[row.receipt].user == Some(s.owners[row.attempt]) && s.contexts[row.attempt].receipt == row.receipt
  }

  /** A minute before the second attempt, then twice as long each time. */
  function WaitAfter(attempts: nat): nat
    requires attempts < 5
  {
    if attempts == 0 then 60_000
    else if attempts == 1 then 120_000
    else if attempts == 2 then 240_000
    else if attempts == 3 then 480_000
    else 960_000
  }

  lemma {:induction false} DelayExactly(attempts: nat)
    requires attempts < 5
    ensures Delay(attempts) == WaitAfter(attempts)
  {
    assert Power(4) == 2 * Power(3) == 4 * Power(2) == 8 * Power(1) == 16;
    assert Power(3) == 8 && Power(2) == 4 && Power(1) == 2 && Power(0) == 1;
  }

  /** The row after a committed delivery. */
  predicate Delivered(row: Row, now: int, delivery: Delivery, after: Row)
    requires row.attempts < 5
  {
    && after.attempts == row.attempts + 1 && after.leaseUntil.None?
    && after.attempt == row.attempt && after.receipt == row.receipt && after.expires == row.expires
    && (delivery.Accepted? ==> after.status == Sent && after.next == row.next)
    && (delivery.Rejected? ==> after.status == Dead && after.next == row.next)
    && (delivery.Retry? ==> after.status == Pending && after.next == now + WaitAfter(row.attempts))
  }

  /** A waiting row is posted exactly while its buyer consents, its time is not over and it
      has attempts left; without consent it is cancelled, and past its time it is given up. */
  lemma {:induction false} DispatchesExactly(s: State, id: nat, delivery: Delivery, commits: bool)
    ensures var t := DispatchTx(s, id, delivery, commits);
      var posts :=
        Waits(s, id) && BuyerConsents(s, s.rows[id]) && s.now < s.rows[id].expires && s.rows[id].attempts < 5;
      && t.posts == (if posts then s.posts + [Post(id, s.rows[id].receipt, commits)] else s.posts)
      && t.rows.Keys == s.rows.Keys && (forall i :: i in s.rows && i != id ==> t.rows[i] == s.rows[i])
      && (id in s.rows && !(commits && Waits(s, id)) ==> t.rows[id] == s.rows[id])
      && (commits && posts ==> Delivered(s.rows[id], s.now, delivery, t.rows[id]))
      && (commits && Waits(s, id) && !BuyerConsents(s, s.rows[id]) ==>
            t.rows[id] == s.rows[id].(status := Cancelled, leaseUntil := None))
      && (commits && Waits(s, id) && BuyerConsents(s, s.rows[id]) && !posts ==>
            t.rows[id] == s.rows[id].(status := Dead, leaseUntil := None))
      && t.now == s.now && t.receipts == s.receipts && t.contexts == s.contexts && t.owners == s.owners
  {
    if id in s.rows && s.rows[id].attempts < 5 { DelayExactly(s.rows[id].attempts); }
  }

  /** A purchase is recorded exactly within its 72 hours, for the buyer who still consents,
      and not for a payment of a second before the checkout was begun. */
  lemma {:induction false} RecordsExactly(s: State, id: nat, attempt: nat, paidAt: int)
    ensures var t := RecordTx(s, id, attempt, paidAt);
      var records := id !in s.rows && attempt in s.contexts && attempt in s.owners
        && paidAt <= s.now < paidAt + 259_200_000 && s.now < s.contexts[attempt].expires
        && Stands(s, s.contexts[attempt].receipt)
        && s.receipts[s.contexts[attempt].receipt].user == Some(s.owners[attempt])
        && s.contexts[attempt].captured / 1_000 <= paidAt / 1_000;
      t == if records
           then s.(rows := s.rows[id := Row(attempt, s.contexts[attempt].receipt, Pending, 0, s.now, None,
                                            paidAt + 259_200_000)])
           else s
  {}

  /** A checkout is remembered for seven days exactly under a consent that stands and is the
      buyer's own or nobody's yet. */
  lemma {:induction false} CapturesExactly(s: State, attempt: nat, owner: nat, under: nat)
    ensures var t := CaptureTx(s, attempt, owner, under);
      var captures := Stands(s, under) && attempt !in s.contexts && attempt !in s.owners
        && (s.receipts[under].user.None? || s.receipts[under].user == Some(owner));
      t == if captures
           then s.(receipts := s.receipts[under := s.receipts[under].(user := Some(owner))],
                   owners := s.owners[attempt := owner],
                   contexts := s.contexts[attempt := Context(under, s.now, s.now + 604_800_000)])
           else s
  {}

  /** A withdrawal takes the consent back, cancels what waits under it and forgets its
      checkouts; a consent is recorded once. */
  lemma {:induction false} WithdrawsExactly(s: State, id: nat)
    ensures var t := WithdrawTx(s, id);
      && (id !in s.receipts ==> t == s)
      && (id in s.receipts ==>
            && t.receipts == s.receipts[id := Receipt(s.receipts[id].user, false, Some(s.now), s.receipts[id].expires)]
            && t.rows.Keys == s.rows.Keys
            && (forall i :: i in s.rows ==>
                  t.rows[i] == if s.rows[i].receipt == id && (s.rows[i].status == Pending || s.rows[i].status == Leased)
                               then s.rows[i].(status := Cancelled, leaseUntil := None) else s.rows[i])
            && (forall a :: a in t.contexts <==> a in s.contexts && s.contexts[a].receipt != id)
            && (forall a :: a in t.contexts ==> t.contexts[a] == s.contexts[a]))
      && t.posts == s.posts && t.now == s.now && t.owners == s.owners
  {}

  lemma {:induction false} ConsentsExactly(s: State, id: nat, user: Option<nat>, granted: bool, expires: int,
                                           elapsed: nat)
    ensures Next(s, Consent(id, user, granted, expires)) ==
      if id in s.receipts then s
      else s.(receipts := s.receipts[id := Receipt(user, granted, if granted then None else Some(s.now), expires)])
    ensures Next(s, Tick(elapsed)) == s.(now := s.now + elapsed)
  {}

  // ---- Rows only move forward ---------------------------------------------

  /** A settled row is never touched again; attempts only count up, to at most five; and a
      row that was tried again is put off strictly further. */
  ghost predicate RowMoves(a: Row, b: Row) {
    && (Settled(a.status) ==> b == a)
    && a.attempts <= b.attempts && (a.attempts <= MAX_ATTEMPTS ==> b.attempts <= MAX_ATTEMPTS)
    && a.next <= b.next
    && (a.attempts < b.attempts && !Settled(b.status) ==> a.next < b.next)
    && a.receipt == b.receipt && a.attempt == b.attempt && a.expires == b.expires
  }

  ghost predicate Moves(s: State, t: State) {
    && s.now <= t.now
    && (forall i :: i in s.rows ==> i in t.rows && RowMoves(s.rows[i], t.rows[i]))
    && (forall i :: i in t.rows && i !in s.rows ==> t.rows[i].attempts <= MAX_ATTEMPTS)
    && (forall r :: r in s.receipts ==>
          r in t.receipts && (s.receipts[r].revoked.Some? ==> t.receipts[r].revoked.Some?))
  }

  lemma {:induction false} PowerIsPositive(n: nat)
    ensures Power(n) >= 1
  {
    if n > 0 { PowerIsPositive(n - 1); }
  }

  /** Below five attempts the doubling delay never reaches its cap. */
  lemma {:induction false} DelayNeverCaps(attempts: nat)
    requires attempts < MAX_ATTEMPTS
    ensures Delay(attempts) == FIRST_DELAY * Power(attempts) < MAX_DELAY
  {
    assert Power(4) == 2 * Power(3) == 4 * Power(2) == 8 * Power(1) == 16;
    assert Power(3) == 8 && Power(2) == 4;
  }

  /** A revoked receipt grants nothing any more. */
  ghost predicate Consistent(s: State) {
    forall r :: r in s.receipts ==> (s.receipts[r].revoked.Some? ==> !s.receipts[r].granted)
  }

  lemma {:induction false} DispatchMoves(s: State, id: nat, delivery: Delivery, commits: bool)
    ensures Moves(s, DispatchTx(s, id, delivery, commits))
  {
    if id in s.rows { PowerIsPositive(s.rows[id].attempts); }
  }

  lemma {:induction false} WithdrawMoves(s: State, id: nat)
    ensures Moves(s, WithdrawTx(s, id))
  {}

  lemma {:induction false} StepMoves(s: State, a: Action)
    requires Consistent(s)
    ensures Moves(s, Next(s, a)) && Consistent(Next(s, a))
  {
    match a
    case Dispatch(id, delivery, commits) => DispatchMoves(s, id, delivery, commits);
    case Withdraw(id) => WithdrawMoves(s, id);
    case _ =>
  }

  /** Over every interleaving of dispatches, withdrawals and rollbacks. */
  lemma {:induction false} RowsOnlyMoveForward(s: State, actions: seq<Action>)
    requires Consistent(s)
    ensures Moves(s, Run(s, actions)) && Consistent(Run(s, actions))
    decreases actions
  {
    if actions != [] {
      StepMoves(s, actions[0]);
      RowsOnlyMoveForward(Next(s, actions[0]), actions[1..]);
    }
  }

  // ---- Nothing is posted for a withdrawn consent --------------------------

  function PostsUnder(posts: seq<Post>, receipt: nat): nat {
    if posts == [] then 0
    else PostsUnder(posts[..|posts| - 1], receipt) + if posts[|posts| - 1].receipt == receipt then 1 else 0
  }

  lemma {:induction false} NoPostWithoutConsent(s: State, a: Action, receipt: nat)
    requires Consistent(s) && receipt in s.receipts && s.receipts[receipt].revoked.Some?
    ensures PostsUnder(Next(s, a).posts, receipt) == PostsUnder(s.posts, receipt)
  {
    var t := Next(s, a);
    if t.posts != s.posts { assert t.posts[..|s.posts|] == s.posts; }
  }

  /** Once a withdrawal has committed no delivery is posted under that consent any more,
      whatever else commits or rolls back. */
  lemma {:induction false} NothingIsPostedAfterWithdrawal(s: State, actions: seq<Action>, receipt: nat)
    requires Consistent(s) && receipt in s.receipts && s.receipts[receipt].revoked.Some?
    ensures PostsUnder(Run(s, actions).posts, receipt) == PostsUnder(s.posts, receipt)
    decreases actions
  {
    if actions != [] {
      StepMoves(s, actions[0]);
      NoPostWithoutConsent(s, actions[0], receipt);
      NothingIsPostedAfterWithdrawal(Next(s, actions[0]), actions[1..], receipt);
    }
  }

  /** A withdrawal cancels every row still waiting under the consent and erases its contexts. */
  lemma {:induction false} WithdrawalCancels(s: State, receipt: nat)
    requires receipt in s.receipts
    ensures var t := Next(s, Withdraw(receipt));
      && t.receipts[receipt].revoked.Some?
      && (forall i :: i in t.rows && t.rows[i].receipt == receipt ==> Settled(t.rows[i].status))
      && (forall a :: a in t.contexts ==> t.contexts[a].receipt != receipt)
  {}

  // ---- Attempts count the posts that committed ----------------------------

  function CommittedPosts(posts: seq<Post>, row: nat): nat {
    if posts == [] then 0
    else
      var last := posts[|posts| - 1];
      CommittedPosts(posts[..|posts| - 1], row) + if last.row == row && last.committed then 1 else 0
  }

  ghost predicate Tallied(s: State) {
    && (forall i :: i in s.rows ==> s.rows[i].attempts == CommittedPosts(s.posts, i) <= MAX_ATTEMPTS)
    && (forall i :: i !in s.rows ==> CommittedPosts(s.posts, i) == 0)
  }

  lemma {:induction false} PostCounts(posts: seq<Post>, p: Post, row: nat)
    ensures CommittedPosts(posts + [p], row) ==
      CommittedPosts(posts, row) + if p.row == row && p.committed then 1 else 0
  {
    assert (posts + [p])[..|posts|] == posts;
  }

  lemma {:induction false} DispatchKeepsTally(s: State, id: nat, delivery: Delivery, commits: bool)
    requires Tallied(s)
    ensures Tallied(DispatchTx(s, id, delivery, commits))
  {
    if Posts(s, id) {
      var p := Post(id, s.rows[id].receipt, commits);
      forall i
        ensures CommittedPosts(s.posts + [p], i) == CommittedPosts(s.posts, i) + if i == id && commits then 1 else 0 {
        PostCounts(s.posts, p, i);
      }
    }
  }

  lemma {:induction false} StepKeepsTally(s: State, a: Action)
    requires Tallied(s)
    ensures Tallied(Next(s, a))
  {
    match a
    case Dispatch(id, delivery, commits) => DispatchKeepsTally(s, id, delivery, commits);
    case _ => assert Next(s, a).posts == s.posts;
  }

  /** A row's attempts are exactly its deliveries that committed, so at most five; a
      delivery whose transaction rolled back was posted without being counted. */
  lemma {:induction false} AttemptsAreCommittedPosts(s: State, actions: seq<Action>)
    requires Tallied(s)
    ensures Tallied(Run(s, actions))
    decreases actions
  {
    if actions != [] {
      StepKeepsTally(s, actions[0]);
      AttemptsAreCommittedPosts(Next(s, actions[0]), actions[1..]);
    }
  }

  // ---- The dispatch loop --------------------------------------------------

  function SentRows(s: State): set<nat> {
    set i | i in s.rows && s.rows[i].status == Sent
  }

  class Dispatcher {
    var state: State

    constructor (state: State)
      ensures this.state == state
    {
      this.state := state;
    }

    /** Other transactions and the clock between two deliveries. */
    method Others(actions: seq<Action>)
      modifies this
      ensures state == Run(old(state), actions)
    {
      var i := 0;
      while i < |actions|
        invariant 0 <= i <= |actions| && Run(old(state), actions) == Run(state, actions[i..])
      {
        assert actions[i..][0] == actions[i] && actions[i..][1..] == actions[i + 1..];
        state := Next(state, actions[i]);
        i := i + 1;
      }
      assert actions[i..] == [];
    }

    /** One delivery; says whether the conversion was sent and committed. */
    method DispatchOne(id: nat, delivery: Delivery, commits: bool) returns (sent: bool)
      modifies this
      ensures state == Next(old(state), Dispatch(id, delivery, commits))
      ensures sent <==> commits && Posts(old(state), id) && delivery == Accepted
      ensures sent <==> SentRows(state) == SentRows(old(state)) + {id} && id !in SentRows(old(state))
      ensures !sent ==> SentRows(state) == SentRows(old(state))
    {
      sent := commits && Posts(state, id) && delivery == Accepted;
      ghost var before := state;
      state := DispatchTx(state, id, delivery, commits);
      if sent {
        assert state.rows[id].status == Sent;
        assert SentRows(state) == SentRows(before) + {id};
      } else {
        assert SentRows(state) == SentRows(before);
      }
    }

    /** A pass over the due rows. A transaction that fails ends the pass. */
    method DispatchGoogleConversions(due: seq<nat>, deliveries: seq<Delivery>, commits: seq<bool>)
      returns (considered: nat, sent: nat, ghost actions: seq<Action>)
      requires |due| == |deliveries| == |commits| <= 20
      modifies this
      ensures considered == |due| && state == Run(old(state), actions)
      ensures forall i :: 0 <= i < |actions| ==> actions[i].Dispatch?
      ensures SentRows(old(state)) <= SentRows(state) && |SentRows(state)| == |SentRows(old(state))| + sent
      ensures |actions| <= |due|
      ensures forall i :: 0 <= i < |actions| ==> actions[i] == Dispatch(due[i], deliveries[i], commits[i])
      ensures forall i :: 0 <= i < |actions| - 1 ==> commits[i]
      ensures |actions| < |due| ==> actions != [] && !commits[|actions| - 1]
    {
      considered, sent, actions := |due|, 0, [];
      for i := 0 to |due|
        invariant state == Run(old(state), actions) && forall j :: 0 <= j < |actions| ==> actions[j].Dispatch?
        invariant SentRows(old(state)) <= SentRows(state) && |SentRows(state)| == |SentRows(old(state))| + sent
        invariant |actions| == i && forall j :: 0 <= j < i ==> commits[j]
        invariant forall j :: 0 <= j < i ==> actions[j] == Dispatch(due[j], deliveries[j], commits[j])
      {
        ghost var before := state;
        var delivered := DispatchOne(due[i], deliveries[i], commits[i]);
        RunSnoc(old(state), actions, Dispatch(due[i], deliveries[i], commits[i]));
        actions := actions + [Dispatch(due[i], deliveries[i], commits[i])];
        if delivered { sent := sent + 1; }
        if !commits[i] { return; }
      }
    }
  }

  lemma {:induction false} RunSnoc(s: State, actions: seq<Action>, a: Action)
    ensures Run(s, actions + [a]) == Next(Run(s, actions), a)
    decreases actions
  {
    if actions == [] {
      assert [] + [a] == [a] && [a][1..] == [];
    } else {
      assert (actions + [a])[1..] == actions[1..] + [a];
      RunSnoc(Next(s, actions[0]), actions[1..], a);
    }
  }
}
