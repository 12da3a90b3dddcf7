/**
 * What erasing takes on trust about sessions, shown of the purchase protocol: the rows it
 * passes over without asking the provider, and the one kind of them that may be payable
 * (packages/billing/src/mailbox-erasure.ts:212-222; packages/billing/src/mailbox-lifecycle.ts:461-471).
 */
module LeasedRows {
  import opened Common
  import L = Leases
  import E = Erasure

  predicate SameStatus(row: E.LeaseStatus, status: L.Status) {
    match status
    case Prepared => row.LeasePrepared?
    case Creating => row.LeaseCreating?
    case Ready => row.LeaseReady?
    case Completed => row.LeaseCompleted?
    case Expired => row.LeaseExpired?
  }

  predicate SameSession(seen: E.Session, session: L.Session) {
    && seen.lease == session.lease
    && (seen.status.Open? <==> session.status.Open?) && (seen.status.Complete? <==> session.status.Paid?)
  }

  /** The rows and sessions erasing meets are those of this state of the protocol. */
  predicate Mirrors(s: L.State, w: E.World, leases: seq<E.Lease>) {
    && w.sessions.Keys == s.sessions.Keys
    && (forall x :: x in s.sessions ==> SameSession(w.sessions[x], s.sessions[x]))
    && (forall l :: l in leases ==>
          l.id in s.leases && SameStatus(l.status, s.leases[l.id].status) && l.session == s.leases[l.id].session)
  }

  /** The rows passed over that no subscription stands for. */
  function Quiet(leases: seq<E.Lease>): set<nat> {
    set l | l in leases && E.Skipped(l) && !E.StoodFor(l) :: l.id
  }

  /** What the provider does while the rows are locked. */
  predicate OnlyProvider(moves: seq<L.Action>) {
    forall i :: 0 <= i < |moves| ==> moves[i].Land? || moves[i].Move?
  }

  lemma {:induction false} ProviderKeepsRows(s: L.State, moves: seq<L.Action>)
    requires OnlyProvider(moves)
    ensures L.Run(s, moves).leases == s.leases
    decreases moves
  {
    if moves != [] { ProviderKeepsRows(L.Next(s, moves[0]), moves[1..]); }
  }

  lemma InvariantIsLeased(s: L.State, w: E.World, leases: seq<E.Lease>)
    requires L.Inv(s) && Mirrors(s, w, leases)
    ensures E.Leased(w, Quiet(leases))
  {
    forall x | x in w.sessions && w.sessions[x].lease in Quiet(leases) ensures w.sessions[x].status != E.Open {
      var l :| l in leases && E.Skipped(l) && !E.StoodFor(l) && l.id == w.sessions[x].lease;
      assert SameSession(w.sessions[x], s.sessions[x]);
      if l.status == E.LeaseExpired { assert L.Dead(s, l.id); }
    }
  }

  /** After any run of purchases, and whatever the provider does while the rows are locked,
      a lease has at most one session and a prepared or expired row that is passed over
      has none that can be paid. */
  lemma {:induction false} PassedOverRowsAreQuiet(purchases: seq<L.Action>, moves: seq<L.Action>, w: E.World,
                                                  leases: seq<E.Lease>)
    requires OnlyProvider(moves) && Mirrors(L.Run(L.Run(L.Init(), purchases), moves), w, leases)
    ensures L.Run(L.Run(L.Init(), purchases), moves).leases == L.Run(L.Init(), purchases).leases
    ensures E.Leased(w, Quiet(leases)) && E.QuietRows(leases, Quiet(leases))
  {
    L.RunKeepsInv(L.Init(), purchases);
    L.RunKeepsInv(L.Run(L.Init(), purchases), moves);
    ProviderKeepsRows(L.Run(L.Init(), purchases), moves);
    InvariantIsLeased(L.Run(L.Run(L.Init(), purchases), moves), w, leases);
  }

  /** A creation for this lease whose answer is lost but which made a session, and then a
      subscription that matches the lease's terms without coming from that session. */
  function LostThenFulfilled(lease: nat, session: nat): seq<L.Action> {
    [L.Begin(0, None, lease, false, true),
     L.Finish(0, false, true, false, L.LostButRecorded(session), None, false, false, false),
     L.Fulfil(lease)]
  }

  lemma {:induction false} LostRun(lease: nat, session: nat)
    ensures L.Run(L.Init(), LostThenFulfilled(lease, session)) ==
      L.State(map[lease := L.Lease(L.Completed, None)], map[session := L.Session(lease, L.Open)], map[], [lease], {})
    ensures var later := L.Run(L.Init(), LostThenFulfilled(lease, session) + [L.Move(session, true)]);
      session in later.sessions && later.sessions[session].status == L.Paid
  {
    var run := LostThenFulfilled(lease, session);
    var one := L.Next(L.Init(), run[0]);
    var two := L.Next(one, run[1]);
    var three := L.Next(two, run[2]);
    assert one == L.State(map[lease := L.Lease(L.Creating, None)], map[], map[0 := L.Buyer(lease, true)], [], {});
    assert two == L.State(map[lease := L.Lease(L.Creating, None)],
                          map[session := L.Session(lease, L.Open)], map[], [lease], {});
    assert three == two.(leases := map[lease := L.Lease(L.Completed, None)]);
    RunOfThree(L.Init(), run, []);
    RunOfThree(L.Init(), run, [L.Move(session, true)]);
    assert [L.Move(session, true)][1..] == [];
    assert L.Run(three, [L.Move(session, true)]) == L.Run(L.Next(three, L.Move(session, true)), []);
  }

  /** For any such lease: it is completed with no stored session while its session can still
      be paid; erasing passes it over and asks the provider nothing about it. */
  lemma {:induction false} CompletedLeaseMayStayPayable(w: E.World, l: E.Lease, session: nat)
    requires E.Skipped(l) && Mirrors(L.Run(L.Init(), LostThenFulfilled(l.id, session)), w, [l])
    ensures E.StoodFor(l) && E.Asked([l]) == {} && session in w.sessions && !E.NoneOpen(w, l.id)
    ensures var later := L.Run(L.Init(), LostThenFulfilled(l.id, session) + [L.Move(session, true)]);
      session in later.sessions && later.sessions[session].status == L.Paid
  {
    LostRun(l.id, session);
    assert l in [l];
    assert SameSession(w.sessions[session], L.Session(l.id, L.Open));
  }

  /** After some run of purchases and provider moves the row is met with a session of its
      lease that can be paid. */
  ghost predicate MayBePayable(l: E.Lease) {
    exists purchases, moves, w ::
      OnlyProvider(moves) && Mirrors(L.Run(L.Run(L.Init(), purchases), moves), w, [l]) && !E.NoneOpen(w, l.id)
  }

  lemma {:induction false} MetPayable(purchases: seq<L.Action>, moves: seq<L.Action>, w: E.World, l: E.Lease)
    requires OnlyProvider(moves) && Mirrors(L.Run(L.Run(L.Init(), purchases), moves), w, [l]) && !E.NoneOpen(w, l.id)
    ensures MayBePayable(l)
  {}

  /** Of the rows erasing passes over, those that may be payable are exactly the completed
      ones that a subscription stands for. */
  lemma {:induction false} PassedOverMayBePayableExactly(l: E.Lease)
    requires E.Skipped(l)
    ensures MayBePayable(l) <==> E.StoodFor(l)
  {
    if MayBePayable(l) {
      var purchases, moves, w :|
        OnlyProvider(moves) && Mirrors(L.Run(L.Run(L.Init(), purchases), moves), w, [l]) && !E.NoneOpen(w, l.id);
      PassedOverRowsAreQuiet(purchases, moves, w, [l]);
      assert l in [l];
    }
    if E.StoodFor(l) {
      var purchases := LostThenFulfilled(l.id, 3);
      var w := E.World(map[3 := E.Session(l.id, E.Open, None)], map[], []);
      LostRun(l.id, 3);
      assert w.sessions[3].status == E.Open && !E.NoneOpen(w, l.id);
      assert L.Run(L.Run(L.Init(), purchases), []) == L.Run(L.Init(), purchases);
      MetPayable(purchases, [], w, l);
    }
  }

  lemma {:induction false} RunOfThree(s: L.State, run: seq<L.Action>, rest: seq<L.Action>)
    requires |run| == 3
    ensures L.Run(s, run + rest) == L.Run(L.Next(L.Next(L.Next(s, run[0]), run[1]), run[2]), rest)
    ensures rest == [] ==> L.Run(s, run) == L.Next(L.Next(L.Next(s, run[0]), run[1]), run[2])
  {
    var all := run + rest;
    assert all[0] == run[0] && all[1..][0] == run[1] && all[1..][1..][0] == run[2];
    assert all[1..][1..][1..] == rest;
    var one := L.Next(s, run[0]);
    var two := L.Next(one, run[1]);
    assert L.Run(two, all[1..][1..]) == L.Run(L.Next(two, run[2]), rest);
    assert L.Run(one, all[1..]) == L.Run(two, all[1..][1..]);
    assert rest == [] ==> all == run;
  }
}
