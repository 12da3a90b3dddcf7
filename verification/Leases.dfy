/**
 * Checkout leases: a durable purchase intent whose one provider session may be
 * paid, expire, or be lost to a dropped answer
 * (packages/billing/src/mailbox-lifecycle.ts:481-551, 1021-1216, 1396-1444).
 *
 * One team. The provider moves on its own between transactions, a creation call
 * may land after its caller gave up, and any transaction may fail to commit
 * after its provider calls took effect.
 */
module Leases {
  import opened Common

  datatype Status = Prepared | Creating | Ready | Completed | Expired

  predicate IsOpen(s: Status) {
    s in {Prepared, Creating, Ready}
  }

  datatype Lease = Lease(status: Status, session: Option<nat>)

  datatype SessionStatus = Open | Paid | Closed

  /** A provider session, tied to its lease by the idempotency key in its metadata. */
  datatype Session = Session(lease: nat, status: SessionStatus)

  /** A buyer between the two transactions of a purchase. */
  datatype Buyer = Buyer(lease: nat, create: bool)

  /** `calls` is a history: the leases a creation call was sent for. `inFlight` holds
      those whose call may still land. */
  datatype State = State(
    leases: map<nat, Lease>, sessions: map<nat, Session>, buyers: map<nat, Buyer>,
    calls: seq<nat>, inFlight: set<nat>)

  /** What becomes of a creation call. */
  datatype Creation = Answered(session: nat) | LostButRecorded(recorded: nat) | LateOrNever | Refused

  /** What the expire call does to an open session. */
  datatype Expiry = Expires | PaidFirst | NoEffect

  datatype Action =
    | Begin(buyer: nat, existing: Option<nat>, newLease: nat, blocked: bool, compatible: bool)
    | Finish(buyer: nat, blocked: bool, compatible: bool, recovers: bool, creation: Creation,
             found: Option<nat>, linked: bool, hasUrl: bool, commits: bool)
    | Close(existing: Option<nat>, found: Option<nat>, expiry: Expiry, linked: bool, byBuyer: bool, commits: bool)
    | Fulfil(lease: nat)
    | Erase(lease: nat, found: Option<nat>, expiry: Expiry, commits: bool)
    | Legacy(newLease: nat)
    | Land(lease: nat, session: nat)
    | Move(session: nat, paid: bool)
    | Crash(buyer: nat)

  predicate IsOpenLease(s: State, id: nat) {
    id in s.leases && IsOpen(s.leases[id].status)
  }

  /** A read-back: by the stored session, otherwise the single session with the lease's key. */
  predicate Recovers(s: State, id: nat, session: nat) {
    && id in s.leases && session in s.sessions && s.sessions[session].lease == id
    && (s.leases[id].session.Some? ==> s.leases[id].session == Some(session))
  }

  /** The open lease a locked read finds, if any. */
  ghost predicate FindsOpen(s: State, existing: Option<nat>) {
    match existing
    case Some(id) => IsOpenLease(s, id)
    case None => forall id :: id in s.leases ==> !IsOpen(s.leases[id].status)
  }

  /** First transaction of a purchase: claim the open lease once, or insert a new one
      already marked Creating. */
  ghost function BeginTx(s: State, buyer: nat, existing: Option<nat>, newLease: nat, blocked: bool, compatible: bool)
    : State {
    if buyer in s.buyers || blocked || !FindsOpen(s, existing) then s
    else
      match existing
      case Some(id) =>
        if !compatible then s
        else if s.leases[id].status != Prepared then s.(buyers := s.buyers[buyer := Buyer(id, false)])
        else
          s.(leases := s.leases[id := s.leases[id].(status := Creating)], buyers := s.buyers[buyer := Buyer(id, true)])
      case None =>
        if newLease in s.leases then s
        else
          s.(leases := s.leases[newLease := Lease(Creating, None)], buyers := s.buyers[buyer := Buyer(newLease, true)])
  }

  /** The provider's side of a creation call for `lease`. */
  function Create(s: State, lease: nat, c: Creation): State {
    var called := s.(calls := s.calls + [lease]);
    match c
    case Answered(id) =>
      if id in s.sessions then called else called.(sessions := s.sessions[id := Session(lease, Open)])
    case LostButRecorded(id) =>
      if id in s.sessions then called else called.(sessions := s.sessions[id := Session(lease, Open)])
    case LateOrNever => called.(inFlight := s.inFlight + {lease})
    case Refused => called
  }

  /** Record what the session of a lease proves. An unreadable session changes nothing. */
  function RecordSession(s: State, id: nat, session: nat, linked: bool, hasUrl: bool): State {
    if !Recovers(s, id, session) then s
    else
      match s.sessions[session].status
      case Closed => s.(leases := s.leases[id := Lease(Expired, Some(session))])
      case Paid => if linked then s.(leases := s.leases[id := Lease(Completed, Some(session))]) else s
      case Open => if hasUrl then s.(leases := s.leases[id := Lease(Ready, Some(session))]) else s
  }

  /** Second transaction of a purchase: create once if this buyer claimed the lease,
      otherwise read back when the deployment can, and record what was found. */
  function FinishTx(s: State, buyer: nat, blocked: bool, compatible: bool, recovers: bool, creation: Creation,
                    found: Option<nat>, linked: bool, hasUrl: bool, commits: bool): State
    requires buyer in s.buyers
  {
    var b := s.buyers[buyer];
    var gone := s.(buyers := s.buyers - {buyer});
    if blocked || !compatible || b.lease !in s.leases then gone
    else if s.leases[b.lease].status == Ready && !recovers then gone
    else if !IsOpen(s.leases[b.lease].status) then gone
    else if b.create then
      var called := Create(gone, b.lease, creation);
      if creation.Answered? && commits then RecordSession(called, b.lease, creation.session, linked, hasUrl) else called
    else if recovers && found.Some? && commits then RecordSession(gone, b.lease, found.value, linked, hasUrl)
    else gone
  }

  /** Try to expire an open session. The provider refuses once it was paid. */
  function ExpireCall(s: State, session: nat, e: Expiry): State {
    if session !in s.sessions || s.sessions[session].status != Open then s
    else
      match e
      case Expires => s.(sessions := s.sessions[session := s.sessions[session].(status := Closed)])
      case PaidFirst => s.(sessions := s.sessions[session := s.sessions[session].(status := Paid)])
      case NoEffect => s
  }

  /** Leaving an unpaid purchase, for the buyer and for a paid Pix: only a session the
      provider confirms closed releases the lease. */
  ghost function CloseTx(s: State, existing: Option<nat>, found: Option<nat>, e: Expiry, linked: bool, byBuyer: bool,
                         commits: bool): State
  {
    if existing.None? || !FindsOpen(s, existing) then s
    else
      var id := existing.value;
      if s.leases[id].status == Prepared && s.leases[id].session.None? then
        if commits then s.(leases := s.leases[id := s.leases[id].(status := Expired)]) else s
      else if found.None? || !Recovers(s, id, found.value) then s
      else
        var after := ExpireCall(s, found.value, e);
        if !commits then after
        else
          match after.sessions[found.value].status
          case Open => after
          case Paid =>
            if byBuyer && !linked then after
            else after.(leases := after.leases[id := Lease(Completed, found)])
          case Closed => after.(leases := after.leases[id := Lease(Expired, found)])
  }

  /** Team erasure closes the session of any lease it can recover
      (packages/billing/src/mailbox-erasure.ts:212-248, 305-315). */
  function EraseTx(s: State, id: nat, found: Option<nat>, e: Expiry, commits: bool): State {
    if id !in s.leases || found.None? || !Recovers(s, id, found.value) then s
    else
      var after := ExpireCall(s, found.value, e);
      if !commits then after
      else
        match after.sessions[found.value].status
        case Open => after
        case Paid => after.(leases := after.leases[id := Lease(Completed, found)])
        case Closed => after.(leases := after.leases[id := Lease(Expired, found)])
  }

  ghost function Next(s: State, a: Action): State {
    match a
    case Begin(buyer, existing, newLease, blocked, compatible) =>
      BeginTx(s, buyer, existing, newLease, blocked, compatible)
    case Finish(buyer, blocked, compatible, recovers, creation, found, linked, hasUrl, commits) =>
      if buyer !in s.buyers then s
      else FinishTx(s, buyer, blocked, compatible, recovers, creation, found, linked, hasUrl, commits)
    case Close(existing, found, expiry, linked, byBuyer, commits) =>
      CloseTx(s, existing, found, expiry, linked, byBuyer, commits)
    case Fulfil(lease) =>
      if IsOpenLease(s, lease) then s.(leases := s.leases[lease := s.leases[lease].(status := Completed)]) else s
    case Erase(lease, found, expiry, commits) => EraseTx(s, lease, found, expiry, commits)
    case Legacy(newLease) =>
      if newLease in s.leases || !FindsOpen(s, None) then s
      else s.(leases := s.leases[newLease := Lease(Prepared, None)])
    case Land(lease, session) =>
      if lease !in s.inFlight || session in s.sessions then s
      else s.(sessions := s.sessions[session := Session(lease, Open)], inFlight := s.inFlight - {lease})
    case Move(session, paid) => ExpireCall(s, session, if paid then PaidFirst else Expires)
    case Crash(buyer) => s.(buyers := s.buyers - {buyer})
  }

  ghost function Run(s: State, actions: seq<Action>): State
    decreases actions
  {
    if actions == [] then s else Run(Next(s, actions[0]), actions[1..])
  }

  function Init(): State {
    State(map[], map[], map[], [], {})
  }

  // ---- What holds in every reachable state --------------------------------

  ghost predicate OneOpenLease(s: State) {
    forall i, j :: i in s.leases && j in s.leases && IsOpen(s.leases[i].status) && IsOpen(s.leases[j].status) ==> i == j
  }

  predicate MayCreate(s: State, buyer: nat, lease: nat) {
    buyer in s.buyers && s.buyers[buyer] == Buyer(lease, true)
  }

  /** A lease is called for at most once; a buyer that still may call holds it alone and
      nothing of it exists at the provider. */
  ghost predicate CallsInv(s: State) {
    && (forall i, j :: 0 <= i < j < |s.calls| ==> s.calls[i] != s.calls[j])
    && (forall c :: c in s.calls ==> c in s.leases)
    && (forall b, id :: MayCreate(s, b, id) ==>
          id in s.leases && id !in s.calls && s.leases[id].status != Prepared && s.leases[id].session.None?)
    && (forall b, c, id :: MayCreate(s, b, id) && MayCreate(s, c, id) ==> b == c)
    && (forall id :: id in s.leases && s.leases[id].status == Prepared ==> id !in s.calls && s.leases[id].session.None?)
  }

  /** A lease has at most one session, ever. */
  ghost predicate SessionsInv(s: State) {
    && (forall id :: id in s.inFlight ==> id in s.calls)
    && (forall x :: x in s.sessions ==> s.sessions[x].lease in s.calls && s.sessions[x].lease !in s.inFlight)
    && (forall x, y :: x in s.sessions && y in s.sessions && s.sessions[x].lease == s.sessions[y].lease ==> x == y)
  }

  /** Nothing of the lease can still be paid, now or later. */
  ghost predicate Dead(s: State, id: nat) {
    && id !in s.inFlight
    && (forall b :: !MayCreate(s, b, id))
    && (forall x :: x in s.sessions && s.sessions[x].lease == id ==> s.sessions[x].status == Closed)
  }

  ghost predicate ExpiredInv(s: State) {
    forall id :: id in s.leases && s.leases[id].status == Expired ==> Dead(s, id)
  }

  ghost predicate Inv(s: State) {
    OneOpenLease(s) && CallsInv(s) && SessionsInv(s) && ExpiredInv(s)
  }

  lemma {:induction false} ClaimKeepsInv(s: State, buyer: nat, id: nat)
    requires Inv(s) && buyer !in s.buyers && id in s.leases && s.leases[id].status == Prepared
    ensures Inv(s.(leases := s.leases[id := s.leases[id].(status := Creating)],
                   buyers := s.buyers[buyer := Buyer(id, true)]))
  {
    var s' := s.(leases := s.leases[id := s.leases[id].(status := Creating)],
                 buyers := s.buyers[buyer := Buyer(id, true)]);
    forall b, l | MayCreate(s', b, l) ensures MayCreate(s, b, l) || (b == buyer && l == id) {}
    forall b ensures !MayCreate(s, b, id) {}
    forall l | l in s'.leases && s'.leases[l].status == Expired ensures Dead(s', l) {
      assert Dead(s, l);
    }
  }

  lemma {:induction false} InsertKeepsInv(s: State, buyer: nat, id: nat)
    requires Inv(s) && buyer !in s.buyers && id !in s.leases
    requires forall l :: l in s.leases ==> !IsOpen(s.leases[l].status)
    ensures Inv(s.(leases := s.leases[id := Lease(Creating, None)], buyers := s.buyers[buyer := Buyer(id, true)]))
  {
    var s' := s.(leases := s.leases[id := Lease(Creating, None)], buyers := s.buyers[buyer := Buyer(id, true)]);
    forall b, l | MayCreate(s', b, l) ensures (MayCreate(s, b, l) && l != id) || (b == buyer && l == id) {
      if b != buyer { assert MayCreate(s, b, l); }
    }
    forall l | l in s'.leases && s'.leases[l].status == Expired ensures Dead(s', l) {
      assert Dead(s, l);
    }
  }

  lemma {:induction false} ShareKeepsInv(s: State, buyer: nat, id: nat)
    requires Inv(s) && buyer !in s.buyers
    ensures Inv(s.(buyers := s.buyers[buyer := Buyer(id, false)]))
  {
    var s' := s.(buyers := s.buyers[buyer := Buyer(id, false)]);
    forall b, l | MayCreate(s', b, l) ensures MayCreate(s, b, l) {}
    forall l | l in s'.leases && s'.leases[l].status == Expired ensures Dead(s', l) {
      assert Dead(s, l);
    }
  }

  lemma {:induction false} BeginKeepsInv(s: State, buyer: nat, existing: Option<nat>, newLease: nat, blocked: bool,
                                         compatible: bool)
    requires Inv(s)
    ensures Inv(BeginTx(s, buyer, existing, newLease, blocked, compatible))
  {
    if buyer !in s.buyers && FindsOpen(s, existing) {
      match existing
      case Some(id) =>
        if s.leases[id].status == Prepared {
          ClaimKeepsInv(s, buyer, id);
        } else {
          ShareKeepsInv(s, buyer, id);
        }
      case None =>
        if newLease !in s.leases { InsertKeepsInv(s, buyer, newLease); }
    }
  }

  /** The creation call spends the buyer's claim. */
  lemma {:induction false} CallKeepsInv(s: State, buyer: nat)
    requires Inv(s) && buyer in s.buyers && s.buyers[buyer].create && IsOpenLease(s, s.buyers[buyer].lease)
    ensures var lease := s.buyers[buyer].lease;
      var s' := s.(buyers := s.buyers - {buyer}, calls := s.calls + [lease]);
      && Inv(s') && lease !in s'.inFlight && (forall x :: x in s'.sessions ==> s'.sessions[x].lease != lease)
  {
    var lease := s.buyers[buyer].lease;
    assert MayCreate(s, buyer, lease);
    var s' := s.(buyers := s.buyers - {buyer}, calls := s.calls + [lease]);
    forall b, id | MayCreate(s', b, id) ensures MayCreate(s, b, id) && id != lease {
      assert MayCreate(s, b, id);
      assert id == lease ==> b == buyer;
    }
    forall id | id in s'.leases && s'.leases[id].status == Expired ensures Dead(s', id) {
      assert Dead(s, id);
    }
  }

  lemma {:induction false} AddSessionKeepsInv(s: State, lease: nat, id: nat)
    requires Inv(s) && IsOpenLease(s, lease) && lease in s.calls && lease !in s.inFlight && id !in s.sessions
    requires forall x :: x in s.sessions ==> s.sessions[x].lease != lease
    ensures Inv(s.(sessions := s.sessions[id := Session(lease, Open)]))
  {
    var s' := s.(sessions := s.sessions[id := Session(lease, Open)]);
    forall b, l | MayCreate(s', b, l) ensures MayCreate(s, b, l) {}
    forall l | l in s'.leases && s'.leases[l].status == Expired ensures Dead(s', l) {
      assert Dead(s, l);
    }
  }

  lemma {:induction false} AddInFlightKeepsInv(s: State, lease: nat)
    requires Inv(s) && IsOpenLease(s, lease) && lease in s.calls
    requires forall x :: x in s.sessions ==> s.sessions[x].lease != lease
    ensures Inv(s.(inFlight := s.inFlight + {lease}))
  {
    var s' := s.(inFlight := s.inFlight + {lease});
    forall b, l | MayCreate(s', b, l) ensures MayCreate(s, b, l) {}
    forall l | l in s'.leases && s'.leases[l].status == Expired ensures Dead(s', l) {
      assert Dead(s, l);
    }
  }

  lemma {:induction false} CreateKeepsInv(s: State, buyer: nat, creation: Creation)
    requires Inv(s) && buyer in s.buyers && s.buyers[buyer].create && IsOpenLease(s, s.buyers[buyer].lease)
    ensures Inv(Create(s.(buyers := s.buyers - {buyer}), s.buyers[buyer].lease, creation))
  {
    var lease := s.buyers[buyer].lease;
    var called := s.(buyers := s.buyers - {buyer}, calls := s.calls + [lease]);
    CallKeepsInv(s, buyer);
    match creation
    case Answered(id) => if id !in s.sessions { AddSessionKeepsInv(called, lease, id); }
    case LostButRecorded(id) => if id !in s.sessions { AddSessionKeepsInv(called, lease, id); }
    case LateOrNever => AddInFlightKeepsInv(called, lease);
    case Refused =>
  }

  lemma {:induction false} RecordKeepsInv(s: State, id: nat, session: nat, linked: bool, hasUrl: bool)
    requires Inv(s) && IsOpenLease(s, id)
    ensures Inv(RecordSession(s, id, session, linked, hasUrl))
  {
    if Recovers(s, id, session) {
      var s' := RecordSession(s, id, session, linked, hasUrl);
      forall b, l | MayCreate(s', b, l) ensures MayCreate(s, b, l) {}
      forall l | l in s'.leases && s'.leases[l].status == Expired ensures Dead(s', l) {
        if l != id { assert Dead(s, l); }
      }
    }
  }

  lemma {:induction false} ExpireKeepsInv(s: State, session: nat, e: Expiry)
    requires Inv(s)
    ensures Inv(ExpireCall(s, session, e))
  {
    var s' := ExpireCall(s, session, e);
    forall b, l | MayCreate(s', b, l) ensures MayCreate(s, b, l) {}
    forall l | l in s'.leases && s'.leases[l].status == Expired ensures Dead(s', l) {
      assert Dead(s, l);
    }
  }

  /** Writing what a settled session proves onto its lease. */
  lemma {:induction false} SettleKeepsInv(s: State, id: nat, session: nat)
    requires Inv(s) && Recovers(s, id, session) && s.sessions[session].status != Open
    ensures var status := if s.sessions[session].status == Closed then Expired else Completed;
      Inv(s.(leases := s.leases[id := Lease(status, Some(session))]))
  {
    var status := if s.sessions[session].status == Closed then Expired else Completed;
    var s' := s.(leases := s.leases[id := Lease(status, Some(session))]);
    forall b, l | MayCreate(s', b, l) ensures MayCreate(s, b, l) {}
    forall l | l in s'.leases && s'.leases[l].status == Expired ensures Dead(s', l) {
      if l != id { assert Dead(s, l); }
    }
  }

  lemma {:induction false} FinishKeepsInv(s: State, buyer: nat, blocked: bool, compatible: bool, recovers: bool,
                                          creation: Creation, found: Option<nat>, linked: bool, hasUrl: bool,
                                          commits: bool)
    requires Inv(s) && buyer in s.buyers
    ensures Inv(FinishTx(s, buyer, blocked, compatible, recovers, creation, found, linked, hasUrl, commits))
  {
    var b := s.buyers[buyer];
    var gone := s.(buyers := s.buyers - {buyer});
    DropBuyerKeepsInv(s, buyer);
    if !blocked && compatible && IsOpenLease(s, b.lease) {
      if b.create {
        CreateKeepsInv(s, buyer, creation);
        if creation.Answered? {
          RecordKeepsInv(Create(gone, b.lease, creation), b.lease, creation.session, linked, hasUrl);
        }
      } else if found.Some? {
        RecordKeepsInv(gone, b.lease, found.value, linked, hasUrl);
      }
    }
  }

  lemma {:induction false} DropBuyerKeepsInv(s: State, buyer: nat)
    requires Inv(s)
    ensures Inv(s.(buyers := s.buyers - {buyer}))
  {
    var s' := s.(buyers := s.buyers - {buyer});
    forall b, l | MayCreate(s', b, l) ensures MayCreate(s, b, l) {}
    forall l | l in s'.leases && s'.leases[l].status == Expired ensures Dead(s', l) {
      assert Dead(s, l);
    }
  }

  /** A prepared lease was never called for, so it may simply be closed. */
  lemma {:induction false} ReleasePreparedKeepsInv(s: State, id: nat)
    requires Inv(s) && id in s.leases && s.leases[id].status == Prepared
    ensures Inv(s.(leases := s.leases[id := s.leases[id].(status := Expired)]))
  {
    var s' := s.(leases := s.leases[id := s.leases[id].(status := Expired)]);
    forall b, l | MayCreate(s', b, l) ensures MayCreate(s, b, l) {}
    forall l | l in s'.leases && s'.leases[l].status == Expired ensures Dead(s', l) {
      if l != id { assert Dead(s, l); }
    }
  }

  lemma {:induction false} CloseKeepsInv(s: State, existing: Option<nat>, found: Option<nat>, e: Expiry, linked: bool,
                                         byBuyer: bool, commits: bool)
    requires Inv(s)
    ensures Inv(CloseTx(s, existing, found, e, linked, byBuyer, commits))
  {
    if existing.Some? && IsOpenLease(s, existing.value) {
      var id := existing.value;
      if s.leases[id].status == Prepared {
        ReleasePreparedKeepsInv(s, id);
      }
      if found.Some? && Recovers(s, id, found.value) {
        ExpireKeepsInv(s, found.value, e);
        var after := ExpireCall(s, found.value, e);
        assert Recovers(after, id, found.value);
        if after.sessions[found.value].status != Open {
          SettleKeepsInv(after, id, found.value);
        }
      }
    }
  }

  lemma {:induction false} EraseKeepsInv(s: State, id: nat, found: Option<nat>, e: Expiry, commits: bool)
    requires Inv(s)
    ensures Inv(EraseTx(s, id, found, e, commits))
  {
    if id in s.leases && found.Some? && Recovers(s, id, found.value) {
      ExpireKeepsInv(s, found.value, e);
      var after := ExpireCall(s, found.value, e);
      assert Recovers(after, id, found.value);
      if after.sessions[found.value].status != Open {
        SettleKeepsInv(after, id, found.value);
      }
    }
  }

  lemma {:induction false} FulfilKeepsInv(s: State, id: nat)
    requires Inv(s) && IsOpenLease(s, id)
    ensures Inv(s.(leases := s.leases[id := s.leases[id].(status := Completed)]))
  {
    var s' := s.(leases := s.leases[id := s.leases[id].(status := Completed)]);
    forall b, l | MayCreate(s', b, l) ensures MayCreate(s, b, l) {}
    forall l | l in s'.leases && s'.leases[l].status == Expired ensures Dead(s', l) {
      assert Dead(s, l);
    }
  }

  lemma {:induction false} LandKeepsInv(s: State, lease: nat, session: nat)
    requires Inv(s)
    ensures Inv(Next(s, Land(lease, session)))
  {
    var s' := Next(s, Land(lease, session));
    forall b, l | MayCreate(s', b, l) ensures MayCreate(s, b, l) {}
    forall l | l in s'.leases && s'.leases[l].status == Expired ensures Dead(s', l) {
      assert Dead(s, l);
    }
  }

  lemma {:induction false} LegacyKeepsInv(s: State, newLease: nat)
    requires Inv(s)
    ensures Inv(Next(s, Legacy(newLease)))
  {
    var s' := Next(s, Legacy(newLease));
    forall b, l | MayCreate(s', b, l) ensures MayCreate(s, b, l) {}
    forall l | l in s'.leases && s'.leases[l].status == Expired ensures Dead(s', l) {
      assert Dead(s, l);
    }
  }

  lemma {:induction false} StepKeepsInv(s: State, a: Action)
    requires Inv(s)
    ensures Inv(Next(s, a))
  {
    match a
    case Begin(buyer, existing, newLease, blocked, compatible) =>
      BeginKeepsInv(s, buyer, existing, newLease, blocked, compatible);
    case Finish(buyer, blocked, compatible, recovers, creation, found, linked, hasUrl, commits) =>
      if buyer in s.buyers {
        FinishKeepsInv(s, buyer, blocked, compatible, recovers, creation, found, linked, hasUrl, commits);
      }
    case Close(existing, found, expiry, linked, byBuyer, commits) =>
      CloseKeepsInv(s, existing, found, expiry, linked, byBuyer, commits);
    case Fulfil(lease) => if IsOpenLease(s, lease) { FulfilKeepsInv(s, lease); }
    case Erase(lease, found, expiry, commits) => EraseKeepsInv(s, lease, found, expiry, commits);
    case Legacy(newLease) => LegacyKeepsInv(s, newLease);
    case Land(lease, session) => LandKeepsInv(s, lease, session);
    case Move(session, paid) => ExpireKeepsInv(s, session, if paid then PaidFirst else Expires);
    case Crash(buyer) => DropBuyerKeepsInv(s, buyer);
  }

  lemma {:induction false} RunKeepsInv(s: State, actions: seq<Action>)
    requires Inv(s)
    ensures Inv(Run(s, actions))
    decreases actions
  {
    if actions != [] {
      StepKeepsInv(s, actions[0]);
      RunKeepsInv(Next(s, actions[0]), actions[1..]);
    }
  }

  // ---- Main results -------------------------------------------------------

  /** In every reachable state at most one lease is open, and no lease was ever called
      for twice, whatever was lost, late, replayed or abandoned. */
  lemma {:induction false} OneCallPerLease(actions: seq<Action>)
    ensures var s := Run(Init(), actions);
      && OneOpenLease(s)
      && (forall i, j :: 0 <= i < j < |s.calls| ==> s.calls[i] != s.calls[j])
  {
    RunKeepsInv(Init(), actions);
  }

  /** The lease is settled and nothing of it can be paid. */
  ghost predicate Settled(s: State, id: nat) {
    id in s.leases && !IsOpen(s.leases[id].status) && Dead(s, id)
  }

  lemma {:induction false} BeginKeepsSettled(s: State, buyer: nat, existing: Option<nat>, newLease: nat,
                                             blocked: bool, compatible: bool, id: nat)
    requires Settled(s, id)
    ensures Settled(BeginTx(s, buyer, existing, newLease, blocked, compatible), id)
  {
    var s' := BeginTx(s, buyer, existing, newLease, blocked, compatible);
    forall b ensures !MayCreate(s', b, id) {
      assert !MayCreate(s, b, id);
    }
  }

  lemma {:induction false} RecordKeepsSettled(s: State, lease: nat, session: nat, linked: bool, hasUrl: bool, id: nat)
    requires Settled(s, id) && lease != id
    ensures Settled(RecordSession(s, lease, session, linked, hasUrl), id)
  {
    var s' := RecordSession(s, lease, session, linked, hasUrl);
    forall b ensures !MayCreate(s', b, id) {
      assert !MayCreate(s, b, id);
    }
  }

  lemma {:induction false} CreateKeepsSettled(s: State, lease: nat, creation: Creation, id: nat)
    requires Settled(s, id) && lease != id
    ensures Settled(Create(s, lease, creation), id)
  {
    var s' := Create(s, lease, creation);
    forall b ensures !MayCreate(s', b, id) {
      assert !MayCreate(s, b, id);
    }
  }

  lemma {:induction false} DropBuyerKeepsSettled(s: State, buyer: nat, id: nat)
    requires Settled(s, id)
    ensures Settled(s.(buyers := s.buyers - {buyer}), id)
  {
    var s' := s.(buyers := s.buyers - {buyer});
    forall b ensures !MayCreate(s', b, id) {
      assert !MayCreate(s, b, id);
    }
  }

  lemma {:induction false} FinishKeepsSettled(s: State, buyer: nat, blocked: bool, compatible: bool, recovers: bool,
                                              creation: Creation, found: Option<nat>, linked: bool, hasUrl: bool,
                                              commits: bool, id: nat)
    requires Settled(s, id) && buyer in s.buyers
    ensures Settled(FinishTx(s, buyer, blocked, compatible, recovers, creation, found, linked, hasUrl, commits), id)
  {
    var b := s.buyers[buyer];
    var gone := s.(buyers := s.buyers - {buyer});
    DropBuyerKeepsSettled(s, buyer, id);
    if b.lease != id {
      CreateKeepsSettled(gone, b.lease, creation, id);
      if creation.Answered? {
        RecordKeepsSettled(Create(gone, b.lease, creation), b.lease, creation.session, linked, hasUrl, id);
      }
      if found.Some? {
        RecordKeepsSettled(gone, b.lease, found.value, linked, hasUrl, id);
      }
    }
  }

  lemma {:induction false} ExpireKeepsSettled(s: State, session: nat, e: Expiry, id: nat)
    requires Settled(s, id)
    ensures Settled(ExpireCall(s, session, e), id)
  {
    var s' := ExpireCall(s, session, e);
    forall b ensures !MayCreate(s', b, id) {
      assert !MayCreate(s, b, id);
    }
  }

  lemma {:induction false} WriteKeepsSettled(s: State, lease: nat, value: Lease, id: nat)
    requires Settled(s, id) && (lease == id ==> !IsOpen(value.status))
    ensures Settled(s.(leases := s.leases[lease := value]), id)
  {
    var s' := s.(leases := s.leases[lease := value]);
    forall b ensures !MayCreate(s', b, id) {
      assert !MayCreate(s, b, id);
    }
  }

  lemma {:induction false} StepKeepsSettled(s: State, a: Action, id: nat)
    requires Inv(s) && Settled(s, id)
    ensures Settled(Next(s, a), id)
  {
    match a
    case Begin(buyer, existing, newLease, blocked, compatible) =>
      BeginKeepsSettled(s, buyer, existing, newLease, blocked, compatible, id);
    case Finish(buyer, blocked, compatible, recovers, creation, found, linked, hasUrl, commits) =>
      if buyer in s.buyers {
        FinishKeepsSettled(s, buyer, blocked, compatible, recovers, creation, found, linked, hasUrl, commits, id);
      }
    case Close(existing, found, expiry, linked, byBuyer, commits) =>
      if existing.Some? && FindsOpen(s, existing) {
        WriteKeepsSettled(s, existing.value, s.leases[existing.value].(status := Expired), id);
        if found.Some? {
          ExpireKeepsSettled(s, found.value, expiry, id);
          WriteKeepsSettled(ExpireCall(s, found.value, expiry), existing.value, Lease(Completed, found), id);
          WriteKeepsSettled(ExpireCall(s, found.value, expiry), existing.value, Lease(Expired, found), id);
        }
      }
    case Fulfil(lease) =>
      if IsOpenLease(s, lease) { WriteKeepsSettled(s, lease, s.leases[lease].(status := Completed), id); }
    case Erase(lease, found, expiry, commits) =>
      if found.Some? {
        ExpireKeepsSettled(s, found.value, expiry, id);
        WriteKeepsSettled(ExpireCall(s, found.value, expiry), lease, Lease(Completed, found), id);
        WriteKeepsSettled(ExpireCall(s, found.value, expiry), lease, Lease(Expired, found), id);
      }
    case Legacy(newLease) => if newLease !in s.leases { WriteKeepsSettled(s, newLease, Lease(Prepared, None), id); }
    case Land(lease, session) =>
      forall b ensures !MayCreate(Next(s, a), b, id) {
        assert !MayCreate(s, b, id);
      }
    case Move(session, paid) => ExpireKeepsSettled(s, session, if paid then PaidFirst else Expires, id);
    case Crash(buyer) => DropBuyerKeepsSettled(s, buyer, id);
  }

  lemma {:induction false} RunKeepsSettled(s: State, actions: seq<Action>, id: nat)
    requires Inv(s) && Settled(s, id)
    ensures Settled(Run(s, actions), id)
    decreases actions
  {
    if actions != [] {
      StepKeepsInv(s, actions[0]);
      StepKeepsSettled(s, actions[0], id);
      RunKeepsSettled(Next(s, actions[0]), actions[1..], id);
    }
  }

  /** Once a lease is recorded expired, no session of it is ever open or paid again:
      what the buyer abandoned can never be charged, in any continuation. */
  lemma {:induction false} ExpiredIsNeverPaid(before: seq<Action>, after: seq<Action>, id: nat)
    requires id in Run(Init(), before).leases && Run(Init(), before).leases[id].status == Expired
    ensures var s := Run(Run(Init(), before), after);
      && id !in s.inFlight
      && (forall x :: x in s.sessions && s.sessions[x].lease == id ==> s.sessions[x].status == Closed)
  {
    RunKeepsInv(Init(), before);
    assert Settled(Run(Init(), before), id);
    RunKeepsSettled(Run(Init(), before), after, id);
  }

  // ---- What a purchase does -----------------------------------------------

  /** A buyer gets the right to create exactly for a new lease, where none is open, or for
      an open one still prepared and made for the same terms; the lease is marked first. */
  lemma {:induction false} BeginsExactly(s: State, buyer: nat, existing: Option<nat>, newLease: nat, blocked: bool,
                                         compatible: bool, id: nat)
    requires buyer !in s.buyers && FindsOpen(s, existing)
    ensures var s' := BeginTx(s, buyer, existing, newLease, blocked, compatible);
      && (MayCreate(s', buyer, id) <==>
            && !blocked
            && if existing.Some? then id == existing.value && compatible && s.leases[id].status == Prepared
               else id == newLease && id !in s.leases)
      && (MayCreate(s', buyer, id) ==>
            s'.leases == s.leases[id := Lease(Creating, if id in s.leases then s.leases[id].session else None)])
      && (buyer in s'.buyers && !s'.buyers[buyer].create <==>
            !blocked && existing.Some? && compatible && s.leases[existing.value].status != Prepared)
      && (buyer in s'.buyers && !s'.buyers[buyer].create ==>
            s'.buyers[buyer].lease == existing.value && s'.leases == s.leases)
      && (buyer !in s'.buyers ==> s' == s)
      && s'.calls == s.calls && s'.sessions == s.sessions
  {}

  /** The second transaction still stands where it was begun. */
  predicate GoesOn(s: State, b: Buyer, blocked: bool, compatible: bool, recovers: bool) {
    && !blocked && compatible && b.lease in s.leases
    && (s.leases[b.lease].status == Prepared || s.leases[b.lease].status == Creating
        || (s.leases[b.lease].status == Ready && recovers))
  }

  /** The session the transaction holds afterwards, if any: the created one, or one read back. */
  function Held(b: Buyer, recovers: bool, creation: Creation, found: Option<nat>): Option<nat> {
    if b.create then (if creation.Answered? then Some(creation.session) else None)
    else if recovers then found else None
  }

  /** The provider is called exactly by a buyer with the right to create whose purchase goes
      on; nothing but its own lease is touched. */
  lemma {:induction false} FinishCallsExactly(s: State, buyer: nat, blocked: bool, compatible: bool, recovers: bool,
                                              creation: Creation, found: Option<nat>, linked: bool, hasUrl: bool,
                                              commits: bool)
    requires buyer in s.buyers
    ensures var b := s.buyers[buyer];
      var s' := FinishTx(s, buyer, blocked, compatible, recovers, creation, found, linked, hasUrl, commits);
      var calls := GoesOn(s, b, blocked, compatible, recovers) && b.create;
      && s'.buyers == s.buyers - {buyer}
      && s'.calls == (if calls then s.calls + [b.lease] else s.calls)
      && s'.sessions == (if calls then Create(s, b.lease, creation).sessions else s.sessions)
      && s'.inFlight == (if calls then Create(s, b.lease, creation).inFlight else s.inFlight)
      && s'.leases.Keys == s.leases.Keys
      && (forall id :: id in s.leases && id != b.lease ==> s'.leases[id] == s.leases[id])
  {}

  /** What the session `x`, read or created by this transaction, makes of its lease. */
  function Proves(l: Lease, session: Session, x: nat, linked: bool, hasUrl: bool): Lease {
    if session.status == Closed then Lease(Expired, Some(x))
    else if session.status == Paid && linked then Lease(Completed, Some(x))
    else if session.status == Open && hasUrl then Lease(Ready, Some(x))
    else l
  }

  lemma {:induction false} RecordsExactly(s: State, id: nat, x: nat, linked: bool, hasUrl: bool)
    ensures var s' := RecordSession(s, id, x, linked, hasUrl);
      s' == if id in s.leases && x in s.sessions && s.sessions[x].lease == id
               && (s.leases[id].session.None? || s.leases[id].session == Some(x))
            then s.(leases := s.leases[id := Proves(s.leases[id], s.sessions[x], x, linked, hasUrl)]) else s
  {
    if id in s.leases { assert s.leases[id := s.leases[id]] == s.leases; }
  }

  /** The lease then says what its session proves: ready while it can be paid, completed
      when it made a subscription, expired when it is closed. */
  lemma {:induction false} FinishRecordsExactly(s: State, buyer: nat, blocked: bool, compatible: bool, recovers: bool,
                                                creation: Creation, found: Option<nat>, linked: bool, hasUrl: bool,
                                                commits: bool)
    requires buyer in s.buyers
    ensures var b := s.buyers[buyer];
      var s' := FinishTx(s, buyer, blocked, compatible, recovers, creation, found, linked, hasUrl, commits);
      var x := Held(b, recovers, creation, found);
      b.lease in s.leases ==>
        && b.lease in s'.leases
        && s'.leases[b.lease] ==
             if GoesOn(s, b, blocked, compatible, recovers) && commits && x.Some? && x.value in s'.sessions
                && s'.sessions[x.value].lease == b.lease
                && (s.leases[b.lease].session.None? || s.leases[b.lease].session == x)
             then Proves(s.leases[b.lease], s'.sessions[x.value], x.value, linked, hasUrl) else s.leases[b.lease]
  {
    var b, gone := s.buyers[buyer], s.(buyers := s.buyers - {buyer});
    if b.create {
      if creation.Answered? {
        RecordsExactly(Create(gone, b.lease, creation), b.lease, creation.session, linked, hasUrl);
      }
    } else if found.Some? {
      RecordsExactly(gone, b.lease, found.value, linked, hasUrl);
    }
  }

  /** What the provider holds after a creation call: a session of this lease when it was
      recorded, a call that may land when it was lost, and nothing when it was refused. */
  lemma {:induction false} CreatesExactly(s: State, lease: nat, c: Creation)
    ensures var s' := Create(s, lease, c);
      var id := if c.Answered? then Some(c.session) else if c.LostButRecorded? then Some(c.recorded) else None;
      && s'.calls == s.calls + [lease]
      && s'.inFlight == (if c.LateOrNever? then s.inFlight + {lease} else s.inFlight)
      && s'.sessions == (if id.Some? && id.value !in s.sessions then s.sessions[id.value := Session(lease, Open)]
                         else s.sessions)
      && s'.leases == s.leases && s'.buyers == s.buyers
  {}

  /** With nothing open, an undisturbed purchase ends with one call and a ready lease whose
      session can be paid. */
  lemma {:induction false} UndisturbedPurchase(s: State, buyer: nat, lease: nat, session: nat)
    requires buyer !in s.buyers && FindsOpen(s, None) && lease !in s.leases && session !in s.sessions
    ensures var s' := Next(Next(s, Begin(buyer, None, lease, false, true)),
                           Finish(buyer, false, true, false, Answered(session), None, false, true, true));
      && s'.leases == s.leases[lease := Lease(Ready, Some(session))]
      && s'.sessions == s.sessions[session := Session(lease, Open)]
      && s'.calls == s.calls + [lease] && s'.buyers == s.buyers
  {
    BeginsExactly(s, buyer, None, lease, false, true, lease);
    var mid := Next(s, Begin(buyer, None, lease, false, true));
    assert mid.buyers - {buyer} == s.buyers;
    FinishCallsExactly(mid, buyer, false, true, false, Answered(session), None, false, true, true);
    FinishRecordsExactly(mid, buyer, false, true, false, Answered(session), None, false, true, true);
  }

  /** Fulfilment by the webhook, a landing call and the provider's own moves. */
  lemma {:induction false} OthersMoveExactly(s: State, lease: nat, session: nat, paid: bool)
    ensures Next(s, Fulfil(lease)) ==
      if lease in s.leases && s.leases[lease].status in {Prepared, Creating, Ready}
      then s.(leases := s.leases[lease := Lease(Completed, s.leases[lease].session)]) else s
    ensures Next(s, Land(lease, session)) ==
      if lease in s.inFlight && session !in s.sessions
      then s.(sessions := s.sessions[session := Session(lease, Open)], inFlight := s.inFlight - {lease}) else s
    ensures Next(s, Move(session, paid)) ==
      if session in s.sessions && s.sessions[session].status == Open
      then s.(sessions := s.sessions[session := Session(s.sessions[session].lease, if paid then Paid else Closed)])
      else s
  {}

  // ---- Leaving a purchase, step by step -----------------------------------

  datatype Left = Abandoned | NothingOpen | AlreadyPaid | StillPending | Unavailable

  /** The lease never reached the provider. */
  predicate Unsent(l: Lease) {
    l.status == Prepared && l.session.None?
  }

  /** The session is open when it is found, so the provider is asked to expire it. */
  predicate FoundOpen(s: State, id: nat, found: Option<nat>) {
    found.Some? && Recovers(s, id, found.value) && s.sessions[found.value].status == Open
  }

  /** The provider is asked to expire the session. */
  predicate Asks(s: State, existing: Option<nat>, found: Option<nat>, canExpire: bool)
    requires existing.Some? ==> existing.value in s.leases
  {
    existing.Some? && !Unsent(s.leases[existing.value]) && FoundOpen(s, existing.value, found) && canExpire
  }

  /** What the provider's session is after the expire call. */
  function AfterExpiry(e: Expiry): SessionStatus {
    match e
    case Expires => Closed
    case PaidFirst => Paid
    case NoEffect => Open
  }

  /** What leaving does to the lease and its session. `reread` is the status the second
      read-back shows, if it was readable. */
  predicate Closes(s: State, s': State, id: nat, found: Option<nat>, expiry: Expiry, canExpire: bool, rereads: bool,
                   needsLink: bool, linked: bool)
    requires id in s.leases && !Unsent(s.leases[id]) && found.Some? && Recovers(s, id, found.value)
  {
    var x := found.value;
    var asks := s.sessions[x].status == Open && canExpire;
    var status := if asks then AfterExpiry(expiry) else s.sessions[x].status;
    && s'.sessions == s.sessions[x := Session(id, status)]
    && s'.leases == (if asks && !rereads then s.leases
                     else if status == Closed then s.leases[id := Lease(Expired, found)]
                     else if status == Paid && (linked || !needsLink) then s.leases[id := Lease(Completed, found)]
                     else s.leases)
    && s'.buyers == s.buyers && s'.calls == s.calls && s'.inFlight == s.inFlight
  }

  /** The lease rows and the provider, changed in the order the source changes them. */
  class CheckoutDesk {
    var state: State

    constructor (state: State)
      ensures this.state == state
    {
      this.state := state;
    }

    /** `existing` and `found` are what the locked read and the first read-back return;
        `canExpire` says whether the deployment can expire sessions, and `rereads` whether
        the read-back after an expire call succeeds. */
    method AbandonMailboxCheckout(existing: Option<nat>, found: Option<nat>, canExpire: bool, expiry: Expiry,
                                  rereads: bool, linked: bool)
      returns (left: Left)
      requires FindsOpen(state, existing)
      modifies this
      ensures state == CloseTx(old(state), existing, found, if canExpire then expiry else NoEffect, linked, true,
                               rereads || !Asks(old(state), existing, found, canExpire))
      ensures left.NothingOpen? <==> existing.None?
      ensures existing.None? ==> state == old(state)
      ensures existing.Some? ==>
        var id := existing.value;
        var l := old(state).leases[id];
        if Unsent(l) then
          left.Abandoned? && state == old(state).(leases := old(state).leases[id := Lease(Expired, None)])
        else if found.None? || !Recovers(old(state), id, found.value) then left.StillPending? && state == old(state)
        else
          && Closes(old(state), state, id, found, expiry, canExpire, rereads, true, linked)
          && (left.Unavailable? <==> FoundOpen(old(state), id, found) && !canExpire)
          && (left.Abandoned? <==> state.leases[id] == Lease(Expired, found))
          && (left.AlreadyPaid? <==> state.leases[id] == Lease(Completed, found))
      ensures existing.Some? && FoundOpen(old(state), existing.value, found)
              && !Unsent(old(state).leases[existing.value])
              && canExpire && rereads ==>
        && (expiry.Expires? ==> left.Abandoned? && state.sessions[found.value].status == Closed)
        && (expiry.PaidFirst? ==> left == if linked then AlreadyPaid else StillPending)
        && (expiry.NoEffect? ==> left.StillPending?)
    {
      if existing.None? { return NothingOpen; }
      var id := existing.value;
      if state.leases[id].status == Prepared && state.leases[id].session.None? {
        state := state.(leases := state.leases[id := state.leases[id].(status := Expired)]);
        return Abandoned;
      }
      if found.None? || !Recovers(state, id, found.value) { return StillPending; }
      var session := found.value;
      assert state.sessions[session := Session(id, state.sessions[session].status)] == state.sessions;
      if state.sessions[session].status == Open {
        if !canExpire { return Unavailable; }
        state := ExpireCall(state, session, expiry);
        if !rereads { return StillPending; }
      }
      match state.sessions[session].status {
        case Open => return StillPending;
        case Paid =>
          if !linked { return StillPending; }
          state := state.(leases := state.leases[id := Lease(Completed, found)]);
          return AlreadyPaid;
        case Closed =>
          state := state.(leases := state.leases[id := Lease(Expired, found)]);
          return Abandoned;
      }
    }

    /** The same from the webhook of a paid Pix: a session that was paid is recorded even
        where it names no subscription. */
    method CloseOpenMailboxCheckout(existing: Option<nat>, found: Option<nat>, canExpire: bool, expiry: Expiry,
                                    rereads: bool)
      returns (left: Left)
      requires FindsOpen(state, existing)
      modifies this
      ensures state == CloseTx(old(state), existing, found, if canExpire then expiry else NoEffect, false, false,
                               rereads || !Asks(old(state), existing, found, canExpire))
      ensures left.NothingOpen? <==> existing.None?
      ensures existing.None? ==> state == old(state)
      ensures existing.Some? ==>
        var id := existing.value;
        var l := old(state).leases[id];
        if Unsent(l) then
          left.Abandoned? && state == old(state).(leases := old(state).leases[id := Lease(Expired, None)])
        else if found.None? || !Recovers(old(state), id, found.value) then left.StillPending? && state == old(state)
        else
          && Closes(old(state), state, id, found, expiry, canExpire, rereads, false, false)
          && (left.Abandoned? <==> state.leases[id] == Lease(Expired, found))
          && (left.AlreadyPaid? <==> state.leases[id] == Lease(Completed, found))
          && (left.StillPending? <==> IsOpen(state.leases[id].status))
    {
      if existing.None? { return NothingOpen; }
      var id := existing.value;
      if state.leases[id].status == Prepared && state.leases[id].session.None? {
        state := state.(leases := state.leases[id := state.leases[id].(status := Expired)]);
        return Abandoned;
      }
      if found.None? || !Recovers(state, id, found.value) { return StillPending; }
      var session := found.value;
      assert state.sessions[session := Session(id, state.sessions[session].status)] == state.sessions;
      if state.sessions[session].status == Open && canExpire {
        state := ExpireCall(state, session, expiry);
        if !rereads { return StillPending; }
      }
      match state.sessions[session].status {
        case Open => return StillPending;
        case Paid =>
          state := state.(leases := state.leases[id := Lease(Completed, found)]);
          return AlreadyPaid;
        case Closed =>
          state := state.(leases := state.leases[id := Lease(Expired, found)]);
          return Abandoned;
      }
    }
  }

  /** Team erasure records what the session of a lease proves, whatever the lease said. */
  lemma {:induction false} ErasesExactly(s: State, id: nat, found: Option<nat>, e: Expiry, commits: bool)
    ensures var s' := EraseTx(s, id, found, e, commits);
      if found.None? || !Recovers(s, id, found.value) then s' == s
      else
        var status := if s.sessions[found.value].status == Open then AfterExpiry(e) else s.sessions[found.value].status;
        && s'.sessions == s.sessions[found.value := Session(id, status)]
        && s'.leases == (if !commits || status == Open then s.leases
                         else s.leases[id := Lease(if status == Paid then Completed else Expired, found)])
  {
    if found.Some? && Recovers(s, id, found.value) {
      assert s.sessions[found.value := Session(id, s.sessions[found.value].status)] == s.sessions;
    }
  }
}
