/**
 * Erasing a team: every remote Mail obligation is closed before the delete runs
 * (packages/billing/src/mailbox-erasure.ts:78-99, 106-325).
 *
 * The database rows are locked for the whole call, so only the provider moves. It may
 * change between any two calls, refuse any call, or act and lose the answer. The call first
 * closes the sessions of the leases, then reads every linked subscription and pages through
 * the customer's listing, then ends what it found, and only then records what was confirmed
 * and lets the delete run; any doubt on the way leaves the rows as they were.
 */
module Erasure {
  import opened Common

  datatype SessionStatus = Open | Complete | Expired

  /** A Checkout session, tied to its lease by the key in its metadata. */
  datatype Session = Session(lease: nat, status: SessionStatus, subscription: Option<nat>)

  datatype Subscription = Subscription(customer: nat, livemode: bool, mail: bool, terminal: bool)

  /** What the provider holds. `listing` is the customer's subscriptions, newest first. */
  datatype World = World(sessions: map<nat, Session>, subs: map<nat, Subscription>, listing: seq<nat>)

  datatype Event = Listing | Expiring(session: nat) | Cancelling(subscription: nat)

  datatype Page = Page(ids: seq<nat>, hasMore: bool)

  /** How the provider may move on its own. Settled sessions and ended subscriptions stay
      so; new subscriptions appear at the front of the listing; the product of a `steady`
      subscription does not change. */
  predicate Later(a: World, b: World, steady: set<nat>) {
    && (forall x :: x in a.sessions ==>
          && x in b.sessions && b.sessions[x].lease == a.sessions[x].lease
          && (a.sessions[x].status != Open ==> b.sessions[x] == a.sessions[x]))
    && (forall id :: id in a.subs ==>
          && id in b.subs && (a.subs[id].terminal ==> b.subs[id].terminal)
          && (id in steady ==> b.subs[id].mail == a.subs[id].mail))
    && Extends(a.listing, b.listing)
  }

  /** `b` is `a` with newer entries in front. */
  predicate Extends(a: seq<nat>, b: seq<nat>) {
    if |b| <= |a| then b == a else b[0] !in a && Extends(a, b[1..])
  }

  lemma {:induction false} NewerListingHolds(a: seq<nat>, b: seq<nat>)
    requires Extends(a, b)
    ensures |a| <= |b| && forall id :: id in a ==> id in b
    decreases |b|
  {
    if |b| > |a| { NewerListingHolds(a, b[1..]); }
  }

  lemma {:induction false} ExtendsIsTransitive(a: seq<nat>, b: seq<nat>, c: seq<nat>)
    requires Extends(a, b) && Extends(b, c)
    ensures Extends(a, c)
    decreases |c|
  {
    NewerListingHolds(a, b);
    NewerListingHolds(b, c);
    if |c| > |b| { ExtendsIsTransitive(a, b, c[1..]); }
  }

  lemma LaterIsTransitive(a: World, b: World, c: World, steady: set<nat>)
    requires Later(a, b, steady) && Later(b, c, steady)
    ensures Later(a, c, steady)
  {
    ExtendsIsTransitive(a.listing, b.listing, c.listing);
  }

  function Ids(s: seq<nat>): set<nat> {
    set id | id in s
  }

  /** What follows a cursor in a listing. */
  function After(listing: seq<nat>, cursor: nat): seq<nat> {
    if listing == [] then [] else if listing[0] == cursor then listing[1..] else After(listing[1..], cursor)
  }

  /** The listing from a cursor on. */
  function From(listing: seq<nat>, cursor: Option<nat>): seq<nat> {
    if cursor.None? then listing else After(listing, cursor.value)
  }

  /** A cursor's remainder does not move when newer subscriptions appear. */
  lemma {:induction false} CursorIsStable(a: seq<nat>, b: seq<nat>, cursor: nat)
    requires Extends(a, b) && cursor in a
    ensures After(b, cursor) == After(a, cursor)
    decreases |b|
  {
    if |b| > |a| {
      CursorIsStable(a, b[1..], cursor);
    }
  }

  /** Splitting a listing at the last entry of a page: what follows that entry is the rest. */
  lemma {:induction false} AfterLast(listing: seq<nat>, k: nat)
    requires 0 < k <= |listing| && Distinct(listing)
    ensures After(listing, listing[k - 1]) == listing[k..]
  {
    if k > 1 {
      assert listing[1..][k - 2] == listing[k - 1];
      AfterLast(listing[1..], k - 1);
      assert listing[1..][k - 1..] == listing[k..];
    }
  }

  predicate Distinct(s: seq<nat>) {
    forall i, j :: 0 <= i < j < |s| ==> s[i] != s[j]
  }

  /** What follows a cursor, continued from a cursor inside it. */
  lemma {:induction false} AfterContinues(listing: seq<nat>, cursor: nat, k: nat)
    requires Distinct(listing) && cursor in listing && 0 < k <= |After(listing, cursor)|
    ensures After(listing, cursor)[k - 1] in listing
    ensures After(listing, After(listing, cursor)[k - 1]) == After(listing, cursor)[k..]
  {
    if listing[0] == cursor {
      AfterLast(listing, k + 1);
    } else {
      AfterContinues(listing[1..], cursor, k);
    }
  }

  /** A page as a faithful listing gives it: the next few entries, and whether more follow. */
  ghost predicate Shows(listing: seq<nat>, startingAfter: Option<nat>, page: Page) {
    && (startingAfter.Some? ==> startingAfter.value in listing)
    && var rest := From(listing, startingAfter);
    && page.ids <= rest && page.hasMore == (|page.ids| < |rest|) && (rest != [] ==> page.ids != [])
  }

  ghost predicate Ended(w: World, id: nat) {
    id in w.subs && w.subs[id].terminal
  }

  /** What a calm provider changes: sessions it was told to expire, subscriptions it was
      told to cancel. */
  predicate Calmly(a: World, b: World) {
    && b.listing == a.listing && b.sessions.Keys == a.sessions.Keys && b.subs.Keys == a.subs.Keys
    && (forall x :: x in a.sessions ==>
          && b.sessions[x] == a.sessions[x].(status := b.sessions[x].status)
          && (b.sessions[x].status == Complete <==> a.sessions[x].status == Complete))
    && (forall id :: id in a.subs ==> b.subs[id] == a.subs[id].(terminal := b.subs[id].terminal))
  }

  /** A subscription of this customer, in this mode. */
  predicate Ours(w: World, id: nat, customer: nat, livemode: bool) {
    id in w.subs && w.subs[id].customer == customer && w.subs[id].livemode == livemode
  }

  /** Everything the provider holds for the customer is in order. */
  ghost predicate InOrder(w: World, customer: nat, livemode: bool, send: Option<nat>) {
    && (forall i :: 0 <= i < |w.listing| ==> Ours(w, w.listing[i], customer, livemode))
    && (forall x :: x in w.sessions ==>
          && (w.sessions[x].status == Complete ==> w.sessions[x].subscription.Some?)
          && (w.sessions[x].subscription.Some? ==>
                send != w.sessions[x].subscription && Ours(w, w.sessions[x].subscription.value, customer, livemode)))
  }

  /** The sessions with a lease's key. */
  function Keyed(w: World, lease: nat): set<nat> {
    set x | x in w.sessions && w.sessions[x].lease == lease
  }

  /** A read-back finds exactly one session. */
  predicate FindsOne(w: World, lease: nat, stored: Option<nat>) {
    if stored.Some? then stored.value in w.sessions && w.sessions[stored.value].lease == lease
    else |Keyed(w, lease)| == 1
  }

  /** Of the sessions an expire call named, each belongs to one of these leases. */
  ghost predicate ExpiresFor(w: World, e: Event, asked: set<nat>) {
    e.Expiring? && e.session in w.sessions && w.sessions[e.session].lease in asked
  }

  /** What the leases' own life leaves behind at the provider: one session a lease at most,
      and none open for a quiet one. */
  predicate Leased(w: World, quiet: set<nat>) {
    && (forall x, y :: x in w.sessions && y in w.sessions && w.sessions[x].lease == w.sessions[y].lease ==> x == y)
    && (forall x :: x in w.sessions && w.sessions[x].lease in quiet ==> w.sessions[x].status != Open)
  }

  lemma CalmIsTransitive(a: World, b: World, c: World)
    requires Calmly(a, b) && Calmly(b, c)
    ensures Calmly(a, c)
  {}

  lemma CalmKeepsOrder(a: World, b: World, customer: nat, livemode: bool, send: Option<nat>)
    requires Calmly(a, b)
    ensures InOrder(a, customer, livemode, send) ==> InOrder(b, customer, livemode, send)
    ensures forall id :: Ours(a, id, customer, livemode) ==> Ours(b, id, customer, livemode)
  {}

  lemma CalmKeepsFinds(a: World, b: World, lease: nat, stored: Option<nat>)
    requires Calmly(a, b) && FindsOne(a, lease, stored)
    ensures FindsOne(b, lease, stored)
  {
    assert Keyed(b, lease) == Keyed(a, lease);
  }

  // ---- The provider -------------------------------------------------------

  class Provider {
    var w: World
    /** Every call that matters for the order of things. */
    ghost var log: seq<Event>
    const customer: nat
    /** The finitely many subscription ids the customer will ever have. */
    const universe: set<nat>
    const steady: set<nat>
    /** Whether paging returns the listing itself, rather than anything at all. */
    const faithful: bool
    /** A provider that answers every call, does as it is told and nothing else. */
    const calm: bool
    /** Whether the sessions are those the team's leases made, and which of these are quiet. */
    const leased: bool
    const quiet: set<nat>

    constructor (customer: nat, universe: set<nat>, steady: set<nat>, faithful: bool, calm: bool, leased: bool,
                 quiet: set<nat>)
      requires calm ==> faithful
      ensures Valid() && log == []
    {
      this.customer, this.universe, this.steady, this.faithful, this.calm := customer, universe, steady, faithful, calm;
      this.leased, this.quiet := leased, quiet;
      w, log := World(map[], map[], []), [];
    }

    predicate Valid()
      reads this
    {
      && (calm ==> faithful)
      && (leased ==> Leased(w, quiet))
      && Distinct(w.listing) && forall i :: 0 <= i < |w.listing| ==> w.listing[i] in universe
    }

    /** Time passes. */
    method Drift()
      requires Valid()
      modifies this`w
      ensures Valid() && Later(old(w), w, steady)
      ensures calm ==> Calmly(old(w), w)
    {
      var next: World := *;
      if !calm && Later(w, next, steady) && (leased ==> Leased(next, quiet)) && Distinct(next.listing)
         && forall i :: 0 <= i < |next.listing| ==> next.listing[i] in universe {
        w := next;
      }
    }

    method RetrieveSession(id: nat) returns (r: Option<Session>)
      requires Valid()
      modifies this`w
      ensures Valid() && Later(old(w), w, steady)
      ensures calm ==> Calmly(old(w), w)
      ensures r.Some? ==> id in w.sessions && w.sessions[id] == r.value
      ensures calm && id in w.sessions ==> r.Some?
    {
      Drift();
      var answers: bool := *;
      r := if (answers || calm) && id in w.sessions then Some(w.sessions[id]) else None;
    }

    /** A read-back by the stored session, or by the lease's key: none unless exactly one matches. */
    method RecoverSession(lease: nat, stored: Option<nat>) returns (r: Option<nat>, session: Option<Session>)
      requires Valid()
      modifies this`w
      ensures Valid() && Later(old(w), w, steady)
      ensures calm ==> Calmly(old(w), w)
      ensures r.Some? <==> session.Some?
      ensures r.Some? ==> r.value in w.sessions && w.sessions[r.value] == session.value && session.value.lease == lease
      ensures r.Some? ==> if stored.Some? then r == stored else Keyed(w, lease) == {r.value}
      ensures calm && FindsOne(old(w), lease, stored) ==> r.Some?
    {
      Drift();
      if calm && FindsOne(old(w), lease, stored) { CalmKeepsFinds(old(w), w, lease, stored); }
      var answers: bool := *;
      r, session := None, None;
      if !FindsOne(w, lease, stored) || !(answers || calm) { return; }
      var id: nat;
      if stored.Some? {
        id := stored.value;
      } else {
        id :| id in Keyed(w, lease);
        OnlyOne(Keyed(w, lease), id);
      }
      r, session := Some(id), Some(w.sessions[id]);
    }

    /** The answer, when there is one, is the session after the call. */
    method ExpireSession(id: nat) returns (r: Option<Session>)
      requires Valid()
      modifies this
      ensures Valid() && Later(old(w), w, steady) && log == old(log) + [Expiring(id)]
      ensures calm ==> Calmly(old(w), w)
      ensures r.Some? ==> id in w.sessions && w.sessions[id] == r.value
      ensures calm && id in w.sessions ==> r.Some? && r.value.status != Open
    {
      log := log + [Expiring(id)];
      Drift();
      var works: bool, answers: bool := *, *;
      if id !in w.sessions { return None; }
      if (works || calm) && w.sessions[id].status == Open {
        w := w.(sessions := w.sessions[id := w.sessions[id].(status := Expired)]);
      }
      r := if answers || calm then Some(w.sessions[id]) else None;
    }

    method RetrieveSubscription(id: nat) returns (r: Option<Subscription>)
      requires Valid()
      modifies this`w
      ensures Valid() && Later(old(w), w, steady)
      ensures calm ==> Calmly(old(w), w)
      ensures r.Some? ==> id in w.subs && w.subs[id] == r.value
      ensures calm && id in w.subs ==> r.Some?
    {
      Drift();
      var answers: bool := *;
      r := if (answers || calm) && id in w.subs then Some(w.subs[id]) else None;
    }

    /** One page of the listing. A provider that is not faithful may return any page. */
    method ListSubscriptions(startingAfter: Option<nat>) returns (r: Option<Page>)
      requires Valid()
      modifies this
      ensures Valid() && Later(old(w), w, steady) && log == old(log) + [Listing]
      ensures calm ==> Calmly(old(w), w)
      ensures r.Some? ==> forall i :: 0 <= i < |r.value.ids| ==> r.value.ids[i] in universe
      ensures r.Some? && faithful ==> Shows(w.listing, startingAfter, r.value)
      ensures calm && (startingAfter.Some? ==> startingAfter.value in w.listing) ==> r.Some?
    {
      log := log + [Listing];
      Drift();
      var answers: bool := *;
      if !(answers || calm) || (faithful && startingAfter.Some? && startingAfter.value !in w.listing) { return None; }
      if faithful {
        var rest := From(w.listing, startingAfter);
        var k: int := *;
        if k <= 0 || k > |rest| { k := |rest|; }
        AfterIsWithin(w.listing, startingAfter);
        assert forall i :: 0 <= i < |rest| ==> rest[i] in w.listing;
        r := Some(Page(rest[..k], k < |rest|));
      } else {
        var ids: seq<nat>, more: bool := *, *;
        if exists i :: 0 <= i < |ids| && ids[i] !in universe { ids := []; }
        r := Some(Page(ids, more));
      }
    }

    method CancelSubscription(id: nat) returns (r: Option<Subscription>)
      requires Valid()
      modifies this
      ensures Valid() && Later(old(w), w, steady) && log == old(log) + [Cancelling(id)]
      ensures calm ==> Calmly(old(w), w)
      ensures r.Some? ==> id in w.subs && w.subs[id] == r.value
      ensures calm && id in w.subs ==> r.Some? && r.value.terminal
    {
      log := log + [Cancelling(id)];
      Drift();
      var works: bool, answers: bool := *, *;
      if id !in w.subs { return None; }
      if works || calm { w := w.(subs := w.subs[id := w.subs[id].(terminal := true)]); }
      r := if answers || calm then Some(w.subs[id]) else None;
    }
  }

  lemma OnlyOne(s: set<nat>, x: nat)
    requires |s| == 1 && x in s
    ensures s == {x}
  {
    assert |s - {x}| == 0;
  }

  lemma {:induction false} AfterIsWithin(listing: seq<nat>, cursor: Option<nat>)
    ensures cursor.Some? ==> forall x :: x in After(listing, cursor.value) ==> x in listing
  {
    if cursor.Some? && listing != [] && listing[0] != cursor.value {
      AfterIsWithin(listing[1..], cursor);
    }
  }

  // ---- The team's rows ----------------------------------------------------

  datatype Team = Team(customer: Option<nat>, send: Option<nat>)

  datatype Plan = Plan(customer: Option<nat>, subscription: Option<nat>, livemode: Option<bool>,
                         canceled: bool, seats: nat)

  datatype LeaseStatus = LeasePrepared | LeaseCreating | LeaseReady | LeaseCompleted | LeaseExpired

  datatype Lease = Lease(id: nat, status: LeaseStatus, session: Option<nat>, subscription: Option<nat>, url: bool,
                         customer: Option<nat>, livemode: Option<bool>)

  datatype CustomerRequest = CustomerRequest(creating: bool, customer: Option<nat>, livemode: bool)

  datatype Code = NotFound | Forbidden | Conflict | Pending | Unavailable

  datatype Outcome = Deleted | Refused(code: Code) | CallbackFailed

  datatype Fact = Fact(lease: nat, session: nat, subscription: Option<nat>, completed: bool)

  /** A lease that never reached the provider, or that a subscription stands for. */
  predicate Skipped(l: Lease) {
    l.session.None? && !l.url
    && (l.status == LeasePrepared || l.status == LeaseExpired || (l.status == LeaseCompleted && l.subscription.Some?))
  }

  /** Which rows the provider is not asked about: none that names a session or a link, all of
      the others that were prepared or expired, and of the completed ones those with a
      subscription. */
  lemma SkippedExactly(l: Lease)
    ensures l.session.Some? || l.url ==> !Skipped(l)
    ensures l.session.None? && !l.url ==>
      (Skipped(l) <==> match l.status
                       case LeasePrepared | LeaseExpired => true
                       case LeaseCreating | LeaseReady => false
                       case LeaseCompleted => l.subscription.Some?)
  {}

  function Linked(plan: Option<Plan>, leases: seq<Lease>): set<nat> {
    (if plan.Some? && plan.value.subscription.Some? then {plan.value.subscription.value} else {})
    + (set l | l in leases && l.subscription.Some? :: l.subscription.value)
  }

  /** The local checks, in their order, before the provider is asked anything. */
  function Refusal(discovered: Option<nat>, team: Team, owner: bool, plan: Option<Plan>, leases: seq<Lease>,
                   request: Option<CustomerRequest>, livemode: Option<bool>): Option<Code>
  {
    if team.customer != discovered then Some(Conflict)
    else if !owner then Some(Forbidden)
    else if request.Some? && request.value.creating then Some(Pending)
    else if request.Some? && (request.value.customer != team.customer
                              || (livemode.Some? && request.value.livemode != livemode.value)) then Some(Conflict)
    else if plan.Some? && plan.value.customer.Some? && plan.value.customer != team.customer then Some(Conflict)
    else if plan.Some? && plan.value.subscription.Some? && plan.value.customer.None? then Some(Conflict)
    else if plan.Some? && plan.value.livemode.Some? && livemode.Some? && plan.value.livemode != livemode
      then Some(Conflict)
    else if exists l :: l in leases && (l.customer != team.customer || l.livemode != livemode) then Some(Conflict)
    else if team.send.Some? && team.send.value in Linked(plan, leases) then Some(Conflict)
    else if team.customer.None? && (Linked(plan, leases) != {} || leases != [] || request.Some?) then Some(Pending)
    else if team.customer.Some? && livemode.None? then Some(Unavailable)
    else None
  }

  // ---- Who may erase, and when --------------------------------------------

  /** The Customer request of the team is settled, for this Customer and this mode. */
  predicate RequestFits(team: Team, request: Option<CustomerRequest>, livemode: Option<bool>) {
    request.Some? ==>
      && request.value.customer == team.customer
      && (livemode.None? || request.value.livemode == livemode.value)
  }

  /** The plan and every lease are of this Customer and this mode, a subscription comes with
      its Customer, and none of them is the Send subscription. */
  predicate RowsFit(team: Team, plan: Option<Plan>, leases: seq<Lease>, livemode: Option<bool>) {
    && (plan.Some? ==>
          && (plan.value.customer.Some? ==> plan.value.customer == team.customer)
          && (plan.value.subscription.Some? ==> plan.value.customer.Some?)
          && (plan.value.livemode.None? || livemode.None? || plan.value.livemode == livemode)
          && (team.send.Some? ==> plan.value.subscription != team.send))
    && (forall l :: l in leases ==>
          l.customer == team.customer && l.livemode == livemode && (team.send.Some? ==> l.subscription != team.send))
  }

  /** There is nothing to close, because the team never had a Customer. */
  predicate NothingBought(plan: Option<Plan>, leases: seq<Lease>, request: Option<CustomerRequest>) {
    (plan.None? || plan.value.subscription.None?) && leases == [] && request.None?
  }

  /** Every local check passes. */
  predicate MayErase(discovered: Option<nat>, team: Team, owner: bool, plan: Option<Plan>, leases: seq<Lease>,
                     request: Option<CustomerRequest>, livemode: Option<bool>) {
    && team.customer == discovered && owner && !(request.Some? && request.value.creating)
    && RequestFits(team, request, livemode) && RowsFit(team, plan, leases, livemode)
    && if team.customer.None? then NothingBought(plan, leases, request) else livemode.Some?
  }

  /** The first check that fails, and its code. */
  lemma {:induction false} RefusesExactly(discovered: Option<nat>, team: Team, owner: bool, plan: Option<Plan>,
                                          leases: seq<Lease>, request: Option<CustomerRequest>, livemode: Option<bool>)
    ensures var refusal := Refusal(discovered, team, owner, plan, leases, request, livemode);
      && (refusal.None? <==> MayErase(discovered, team, owner, plan, leases, request, livemode))
      && (team.customer != discovered ==> refusal == Some(Conflict))
      && (team.customer == discovered && !owner ==> refusal == Some(Forbidden))
      && (team.customer == discovered && owner ==>
            && (request.Some? && request.value.creating ==> refusal == Some(Pending))
            && (!(request.Some? && request.value.creating) ==>
                  && (!RequestFits(team, request, livemode) || !RowsFit(team, plan, leases, livemode) ==>
                        refusal == Some(Conflict))
                  && (RequestFits(team, request, livemode) && RowsFit(team, plan, leases, livemode) ==>
                        && (team.customer.None? && !NothingBought(plan, leases, request) ==> refusal == Some(Pending))
                        && (team.customer.Some? && livemode.None? ==> refusal == Some(Unavailable)))))
  {
    LinkedExactly(plan, leases);
  }

  /** What is linked: the plan's subscription and those of the leases. */
  lemma {:induction false} LinkedExactly(plan: Option<Plan>, leases: seq<Lease>)
    ensures forall id :: id in Linked(plan, leases) <==>
      (plan.Some? && plan.value.subscription == Some(id)) || exists l :: l in leases && l.subscription == Some(id)
    ensures forall l :: l in leases && l.subscription.Some? ==> l.subscription.value in Linked(plan, leases)
  {}

  // ---- What each phase leaves behind --------------------------------------

  /** The session a fact names can no longer be paid, and the subscription it made is linked. */
  ghost predicate Proved(w: World, f: Fact, linked: set<nat>) {
    && f.session in w.sessions && w.sessions[f.session].lease == f.lease
    && w.sessions[f.session].status == (if f.completed then Complete else Expired)
    && (w.sessions[f.session].subscription.Some? ==> w.sessions[f.session].subscription.value in linked)
    && (f.completed ==>
          w.sessions[f.session].subscription.Some? && f.subscription == w.sessions[f.session].subscription)
  }

  ghost predicate AllProved(w: World, facts: seq<Fact>, linked: set<nat>) {
    forall f :: f in facts ==> Proved(w, f, linked)
  }

  /** Every lease that may have reached the provider has a fact. */
  ghost predicate Covered(leases: seq<Lease>, facts: seq<Fact>) {
    && (forall i :: 0 <= i < |leases| && !Skipped(leases[i]) ==> HasFact(facts, leases[i].id))
    && (forall f :: f in facts ==> exists l :: l in leases && !Skipped(l) && l.id == f.lease)
  }

  predicate HasFact(facts: seq<Fact>, lease: nat) {
    exists i :: 0 <= i < |facts| && facts[i].lease == lease
  }

  /** The calls made are expire calls for sessions of the leases in `asked`. */
  ghost predicate OnlyExpiring(w: World, before: seq<Event>, after: seq<Event>, asked: set<nat>) {
    before <= after && forall i :: |before| <= i < |after| ==> ExpiresFor(w, after[i], asked)
  }

  lemma ExpiringGrows(w: World, now: World, steady: set<nat>, a: seq<Event>, b: seq<Event>, c: seq<Event>,
                      asked: set<nat>, more: set<nat>)
    requires Later(w, now, steady) && OnlyExpiring(w, a, b, asked) && OnlyExpiring(now, b, c, more)
    ensures OnlyExpiring(now, a, c, asked + more)
  {
    forall i | |a| <= i < |c| ensures ExpiresFor(now, c[i], asked + more) {
      if i < |b| { assert ExpiresFor(w, b[i], asked); } else { assert ExpiresFor(now, c[i], more); }
    }
  }

  /** The leases the provider is asked about. */
  function Asked(leases: seq<Lease>): set<nat> {
    set l | l in leases && !Skipped(l) :: l.id
  }

  ghost predicate OnlyListing(before: seq<Event>, after: seq<Event>) {
    before <= after && forall i :: |before| <= i < |after| ==> after[i].Listing?
  }

  ghost predicate OnlyCancelling(before: seq<Event>, after: seq<Event>, ids: set<nat>) {
    before <= after && forall i :: |before| <= i < |after| ==> after[i].Cancelling? && after[i].subscription in ids
  }

  lemma ProofsKeep(a: World, b: World, steady: set<nat>, facts: seq<Fact>, linked: set<nat>, more: set<nat>)
    requires Later(a, b, steady) && AllProved(a, facts, linked) && linked <= more
    ensures AllProved(b, facts, more)
  {
    forall f | f in facts ensures Proved(b, f, more) {
      assert Proved(a, f, linked);
    }
  }

  /** Nothing the provider holds stands in the way: it is calm, all is in order, and every
      lease that may have a session has one that can be found. */
  ghost predicate Smooth(p: Provider, w: World, leases: seq<Lease>, livemode: bool, send: Option<nat>) {
    && p.calm && InOrder(w, p.customer, livemode, send)
    && (forall i :: 0 <= i < |leases| && !Skipped(leases[i]) ==> FindsOne(w, leases[i].id, leases[i].session))
  }

  lemma SmoothStays(p: Provider, a: World, b: World, leases: seq<Lease>, livemode: bool, send: Option<nat>)
    requires Calmly(a, b) && Smooth(p, a, leases, livemode, send)
    ensures Smooth(p, b, leases, livemode, send)
  {
    CalmKeepsOrder(a, b, p.customer, livemode, send);
    forall i | 0 <= i < |leases| && !Skipped(leases[i]) ensures FindsOne(b, leases[i].id, leases[i].session) {
      CalmKeepsFinds(a, b, leases[i].id, leases[i].session);
    }
  }

  ghost predicate AllOurs(w: World, ids: set<nat>, customer: nat, livemode: bool) {
    forall id :: id in ids ==> Ours(w, id, customer, livemode)
  }

  /** Make one session unpayable: expire it, or read back what happened to it. */
  method CloseSession(p: Provider, id: nat, found: Session) returns (error: Option<Code>, session: Session)
    requires p.Valid() && id in p.w.sessions && p.w.sessions[id] == found
    modifies p
    ensures p.Valid() && Later(old(p.w), p.w, p.steady) && OnlyExpiring(p.w, old(p.log), p.log, {found.lease})
    ensures p.calm ==> Calmly(old(p.w), p.w)
    ensures error.None? ==>
      && id in p.w.sessions && p.w.sessions[id] == session && session.status != Open
      && (session.status == Complete ==> session.subscription.Some?)
    ensures p.calm && (found.status == Complete ==> found.subscription.Some?) ==> error.None?
  {
    session := found;
    if session.status == Open {
      var answer := p.ExpireSession(id);
      if answer.None? {
        ghost var mid := p.w;
        answer := p.RetrieveSession(id);
        LaterIsTransitive(old(p.w), mid, p.w, p.steady);
        if answer.None? { return Some(Pending), session; }
      }
      session := answer.value;
    }
    if session.status == Open || (session.status == Complete && session.subscription.None?) {
      return Some(Pending), session;
    }
    error := None;
  }

  /** Recover and close the session of one lease, and state what it proves. */
  method CloseLease(p: Provider, send: Option<nat>, lease: Lease, ghost livemode: bool)
    returns (error: Option<Code>, fact: Fact, sub: Option<nat>)
    requires p.Valid()
    modifies p
    ensures p.Valid() && Later(old(p.w), p.w, p.steady) && OnlyExpiring(p.w, old(p.log), p.log, {lease.id})
    ensures p.calm ==> Calmly(old(p.w), p.w)
    ensures error.None? ==>
      && fact.lease == lease.id && Proved(p.w, fact, if sub.Some? then {sub.value} else {})
      && (sub.Some? ==> send != sub)
    ensures p.calm && InOrder(old(p.w), p.customer, livemode, send) && FindsOne(old(p.w), lease.id, lease.session) ==>
      error.None? && (sub.Some? ==> Ours(p.w, sub.value, p.customer, livemode))
  {
    ghost var start := p.w;
    fact, sub := Fact(lease.id, 0, None, false), None;
    var id, found := p.RecoverSession(lease.id, lease.session);
    ghost var mid := p.w;
    if p.calm {
      CalmKeepsOrder(start, mid, p.customer, livemode, send);
      if FindsOne(start, lease.id, lease.session) { CalmKeepsFinds(start, mid, lease.id, lease.session); }
    }
    if id.None? { error := Some(Pending); return; }
    var session;
    error, session := CloseSession(p, id.value, found.value);
    LaterIsTransitive(start, mid, p.w, p.steady);
    if p.calm { CalmKeepsOrder(mid, p.w, p.customer, livemode, send); }
    if error.Some? { return; }
    sub := session.subscription;
    if sub.Some? && send == sub { error := Some(Conflict); return; }
    fact := Fact(lease.id, id.value, if sub.Some? then sub else lease.subscription, session.status == Complete);
  }

  /** The next lease after those in `done`. */
  method CloseNext(p: Provider, send: Option<nat>, lease: Lease, known: set<nat>, had: seq<Fact>,
                   ghost done: seq<Lease>, ghost livemode: bool)
    returns (error: Option<Code>, linked: set<nat>, facts: seq<Fact>)
    requires p.Valid() && (send.Some? ==> send.value !in known)
    requires Covered(done, had) && AllProved(p.w, had, known)
    modifies p
    ensures p.Valid() && Later(old(p.w), p.w, p.steady) && OnlyExpiring(p.w, old(p.log), p.log, Asked([lease]))
    ensures p.calm ==> Calmly(old(p.w), p.w)
    ensures known <= linked && (send.Some? ==> send.value !in linked)
    ensures error.None? ==> Covered(done + [lease], facts) && AllProved(p.w, facts, linked)
    ensures p.calm && InOrder(old(p.w), p.customer, livemode, send) && AllOurs(old(p.w), known, p.customer, livemode)
            && (Skipped(lease) || FindsOne(old(p.w), lease.id, lease.session))
            ==> error.None? && AllOurs(p.w, linked, p.customer, livemode)
  {
    ghost var before := p.w;
    error, linked, facts := None, known, had;
    if Skipped(lease) {
      CoveredBySkip(done, lease, facts);
      return;
    }
    var fact, sub;
    error, fact, sub := CloseLease(p, send, lease, livemode);
    assert Asked([lease]) == {lease.id} by { assert lease in [lease]; }
    if p.calm { CalmKeepsOrder(before, p.w, p.customer, livemode, send); }
    if error.Some? { return; }
    if sub.Some? { linked := linked + {sub.value}; }
    facts := facts + [fact];
    FactIsAdded(before, p.w, p.steady, done, lease, had, known, fact, linked);
  }

  lemma FactIsAdded(before: World, now: World, steady: set<nat>, done: seq<Lease>, lease: Lease, had: seq<Fact>,
                    known: set<nat>, fact: Fact, linked: set<nat>)
    requires Later(before, now, steady) && Covered(done, had) && AllProved(before, had, known) && known <= linked
    requires !Skipped(lease) && fact.lease == lease.id && Proved(now, fact, linked)
    ensures Covered(done + [lease], had + [fact]) && AllProved(now, had + [fact], linked)
  {
    ProofsKeep(before, now, steady, had, known, linked);
    CoveredByFact(done, lease, had, fact);
  }

  /** Close the session of every lease that may have one. */
  method CloseSessions(p: Provider, send: Option<nat>, leases: seq<Lease>, known: set<nat>, ghost livemode: bool)
    returns (error: Option<Code>, linked: set<nat>, facts: seq<Fact>)
    requires p.Valid() && (send.Some? ==> send.value !in known)
    modifies p
    ensures p.Valid() && Later(old(p.w), p.w, p.steady) && OnlyExpiring(p.w, old(p.log), p.log, Asked(leases))
    ensures p.calm ==> Calmly(old(p.w), p.w)
    ensures known <= linked && (send.Some? ==> send.value !in linked)
    ensures error.None? ==> Covered(leases, facts) && AllProved(p.w, facts, linked)
    ensures (Smooth(p, old(p.w), leases, livemode, send) && AllOurs(old(p.w), known, p.customer, livemode)) ==>
      error.None? && AllOurs(p.w, linked, p.customer, livemode)
  {
    ghost var smooth := Smooth(p, p.w, leases, livemode, send) && AllOurs(p.w, known, p.customer, livemode);
    linked, facts, error := known, [], None;
    for i := 0 to |leases|
      invariant error.None? && p.Valid()
      invariant Later(old(p.w), p.w, p.steady) && OnlyExpiring(p.w, old(p.log), p.log, Asked(leases[..i]))
      invariant p.calm ==> Calmly(old(p.w), p.w)
      invariant known <= linked && (send.Some? ==> send.value !in linked)
      invariant Covered(leases[..i], facts) && AllProved(p.w, facts, linked)
      invariant smooth ==> Smooth(p, p.w, leases, livemode, send) && AllOurs(p.w, linked, p.customer, livemode)
    {
      ghost var before, beforeLog := p.w, p.log;
      TakeOneMore(leases, i);
      error, linked, facts := CloseNext(p, send, leases[i], linked, facts, leases[..i], livemode);
      LaterIsTransitive(old(p.w), before, p.w, p.steady);
      ExpiringGrows(before, p.w, p.steady, old(p.log), beforeLog, p.log, Asked(leases[..i]), Asked([leases[i]]));
      AskedOneMore(leases, i);
      if p.calm { CalmIsTransitive(old(p.w), before, p.w); }
      if smooth { SmoothStays(p, before, p.w, leases, livemode, send); }
      if error.Some? { return; }
    }
    assert leases[..|leases|] == leases;
  }

  lemma AskedOneMore(leases: seq<Lease>, i: nat)
    requires i < |leases|
    ensures Asked(leases[..i]) + Asked([leases[i]]) == Asked(leases[..i + 1]) <= Asked(leases)
  {
    TakeOneMore(leases, i);
  }

  lemma CoveredBySkip(leases: seq<Lease>, lease: Lease, facts: seq<Fact>)
    requires Covered(leases, facts) && Skipped(lease)
    ensures Covered(leases + [lease], facts)
  {
    forall f | f in facts ensures exists l :: l in leases + [lease] && !Skipped(l) && l.id == f.lease {
      var l :| l in leases && !Skipped(l) && l.id == f.lease;
      assert l in leases + [lease];
    }
  }

  lemma CoveredByFact(leases: seq<Lease>, lease: Lease, facts: seq<Fact>, fact: Fact)
    requires Covered(leases, facts) && !Skipped(lease) && fact.lease == lease.id
    ensures Covered(leases + [lease], facts + [fact])
  {
    var all, more := leases + [lease], facts + [fact];
    forall i | 0 <= i < |all| && !Skipped(all[i]) ensures HasFact(more, all[i].id) {
      if i < |leases| {
        assert HasFact(facts, leases[i].id);
        var k :| 0 <= k < |facts| && facts[k].lease == leases[i].id;
        assert more[k].lease == all[i].id;
      } else {
        assert more[|facts|].lease == all[i].id;
      }
    }
    forall f | f in more ensures exists l :: l in all && !Skipped(l) && l.id == f.lease {
      if f in facts {
        var l :| l in leases && !Skipped(l) && l.id == f.lease;
        assert l in all;
      } else {
        assert lease in all;
      }
    }
  }

  /** An authoritative read that must belong to this customer. */
  method FetchSubscription(p: Provider, id: nat, livemode: bool) returns (error: Option<Code>, sub: Subscription)
    requires p.Valid()
    modifies p`w
    ensures p.Valid() && Later(old(p.w), p.w, p.steady)
    ensures p.calm ==> Calmly(old(p.w), p.w)
    ensures error.None? ==> id in p.w.subs && p.w.subs[id] == sub
    ensures p.calm && Ours(old(p.w), id, p.customer, livemode) ==> error.None?
  {
    sub := Subscription(0, false, false, false);
    var answer := p.RetrieveSubscription(id);
    if answer.None? { return Some(Pending), sub; }
    sub := answer.value;
    error := if sub.customer == p.customer && sub.livemode == livemode then None else Some(Conflict);
  }

  /** A found subscription was read as this state of it, or ended since. */
  ghost predicate Found(w: World, subs: map<nat, Subscription>) {
    forall id :: id in subs ==> id in w.subs && (subs[id].terminal ==> w.subs[id].terminal)
  }

  /** Read every subscription linked through the plan, the leases or their sessions. */
  method FetchLinked(p: Provider, livemode: bool, linked: set<nat>)
    returns (error: Option<Code>, subs: map<nat, Subscription>)
    requires p.Valid()
    modifies p`w
    ensures p.Valid() && Later(old(p.w), p.w, p.steady)
    ensures p.calm ==> Calmly(old(p.w), p.w)
    ensures error.None? ==> subs.Keys == linked && Found(p.w, subs)
    ensures p.calm && AllOurs(old(p.w), linked, p.customer, livemode) ==> error.None?
  {
    subs, error := map[], None;
    var todo := linked;
    while todo != {}
      invariant p.Valid() && Later(old(p.w), p.w, p.steady) && error.None?
      invariant p.calm ==> Calmly(old(p.w), p.w)
      invariant todo <= linked && subs.Keys == linked - todo && Found(p.w, subs)
    {
      var id :| id in todo;
      ghost var before := p.w;
      var code, sub := FetchSubscription(p, id, livemode);
      LaterIsTransitive(old(p.w), before, p.w, p.steady);
      if code.Some? { return code, subs; }
      subs := subs[id := sub];
      todo := todo - {id};
    }
  }

  /** Everything read in a page is either kept, or the Send subscription, or was no Mail
      subscription when it was read. */
  ghost predicate Looked(w: World, seen: set<nat>, subs: map<nat, Subscription>, send: Option<nat>, steady: set<nat>) {
    forall id :: id in seen ==> send == Some(id) || id in subs || (id in w.subs && (id in steady ==> !w.subs[id].mail))
  }

  /** What was found beyond the known ones is this customer's and Mail. */
  ghost predicate FoundMail(w: World, subs: map<nat, Subscription>, known: set<nat>, customer: nat, livemode: bool) {
    forall id :: id in subs ==> id in known || (Ours(w, id, customer, livemode) && w.subs[id].mail)
  }

  /** One entry of a page: its own facts from the list, and an authoritative read if new. */
  method ReadEntry(p: Provider, livemode: bool, send: Option<nat>, id: nat, known: map<nat, Subscription>,
                   ghost seen: set<nat>)
    returns (error: Option<Code>, subs: map<nat, Subscription>)
    requires p.Valid() && Found(p.w, known) && Looked(p.w, seen, known, send, p.steady)
    requires send.Some? ==> send.value !in known
    modifies p`w
    ensures p.Valid() && Later(old(p.w), p.w, p.steady)
    ensures p.calm ==> Calmly(old(p.w), p.w)
    ensures known.Keys <= subs.Keys && (send.Some? ==> send.value !in subs)
    ensures error.None? ==> Found(p.w, subs) && Looked(p.w, seen + {id}, subs, send, p.steady)
    ensures p.calm && Ours(old(p.w), id, p.customer, livemode) ==>
      error.None? && FoundMail(p.w, subs, known.Keys, p.customer, livemode)
  {
    subs, error := known, None;
    if id !in p.w.subs || p.w.subs[id].customer != p.customer || p.w.subs[id].livemode != livemode {
      error := Some(Conflict);
    } else if send != Some(id) && id !in subs {
      ghost var before := p.w;
      var sub;
      error, sub := FetchSubscription(p, id, livemode);
      ReadingsKeep(before, p.w, p.steady, seen, known, send);
      if error.None? && sub.mail { subs := subs[id := sub]; }
    }
  }

  method ReadPage(p: Provider, livemode: bool, send: Option<nat>, page: seq<nat>, known: map<nat, Subscription>,
                  ghost seen: set<nat>)
    returns (error: Option<Code>, subs: map<nat, Subscription>)
    requires p.Valid() && Found(p.w, known) && Looked(p.w, seen, known, send, p.steady)
    requires send.Some? ==> send.value !in known
    modifies p`w
    ensures p.Valid() && Later(old(p.w), p.w, p.steady)
    ensures p.calm ==> Calmly(old(p.w), p.w)
    ensures known.Keys <= subs.Keys && (send.Some? ==> send.value !in subs)
    ensures error.None? ==> Found(p.w, subs) && Looked(p.w, seen + Ids(page), subs, send, p.steady)
    ensures p.calm && AllOurs(old(p.w), Ids(page), p.customer, livemode) ==>
      error.None? && FoundMail(p.w, subs, known.Keys, p.customer, livemode)
  {
    ghost var start := p.w;
    ghost var smooth := p.calm && AllOurs(start, Ids(page), p.customer, livemode);
    subs, error := known, None;
    for i := 0 to |page|
      invariant p.Valid() && Later(start, p.w, p.steady) && error.None?
      invariant p.calm ==> Calmly(start, p.w)
      invariant known.Keys <= subs.Keys && (send.Some? ==> send.value !in subs)
      invariant Found(p.w, subs) && Looked(p.w, seen + Ids(page[..i]), subs, send, p.steady)
      invariant smooth ==> FoundMail(p.w, subs, known.Keys, p.customer, livemode)
    {
      ghost var before, had := p.w, subs;
      if smooth { EntryIsOurs(start, before, page, i, p.customer, livemode); }
      error, subs := ReadEntry(p, livemode, send, page[i], subs, seen + Ids(page[..i]));
      LaterIsTransitive(start, before, p.w, p.steady);
      if p.calm { CalmIsTransitive(start, before, p.w); }
      if smooth { FoundMailGrows(before, p.w, had, subs, known.Keys, p.customer, livemode); }
      if error.Some? { return; }
      TakeOneMore(page, i);
      SeenOneMore(page[..i], page[i], page[..i + 1]);
    }
    assert page[..|page|] == page;
  }

  lemma EntryIsOurs(start: World, now: World, page: seq<nat>, i: nat, customer: nat, livemode: bool)
    requires i < |page| && Calmly(start, now) && AllOurs(start, Ids(page), customer, livemode)
    ensures Ours(now, page[i], customer, livemode)
  {
    assert page[i] in Ids(page);
    CalmKeepsOrder(start, now, customer, livemode, None);
  }

  lemma FoundMailGrows(a: World, b: World, had: map<nat, Subscription>, subs: map<nat, Subscription>, known: set<nat>,
                       customer: nat, livemode: bool)
    requires Calmly(a, b) && FoundMail(a, had, known, customer, livemode)
    requires FoundMail(b, subs, had.Keys, customer, livemode)
    ensures FoundMail(b, subs, known, customer, livemode)
  {}

  lemma SeenOneMore(before: seq<nat>, x: nat, after: seq<nat>)
    requires after == before + [x]
    ensures Ids(after) == Ids(before) + {x}
  {}

  /** `rest` is what a faithful listing has not shown yet. */
  ghost predicate AtCursor(start: seq<nat>, listing: seq<nat>, cursor: Option<nat>, rest: seq<nat>) {
    && Extends(start, listing)
    && (cursor.None? ==> rest == start)
    && (cursor.Some? ==> cursor.value in listing && rest == After(listing, cursor.value))
  }

  /** Ask for one page; `next` is what a faithful listing has not shown after it. */
  method ListPage(p: Provider, ghost livemode: bool, startingAfter: Option<nat>, ghost start: seq<nat>,
                  ghost rest: seq<nat>)
    returns (error: Option<Code>, page: Page, ghost next: seq<nat>)
    requires p.Valid() && (p.faithful ==> AtCursor(start, p.w.listing, startingAfter, rest))
    modifies p
    ensures p.Valid() && Later(old(p.w), p.w, p.steady) && OnlyListing(old(p.log), p.log)
    ensures p.calm ==> Calmly(old(p.w), p.w)
    ensures error.None? ==> forall i :: 0 <= i < |page.ids| ==> page.ids[i] in p.universe
    ensures error.None? && p.faithful ==>
      && (forall id :: id in rest ==> id in page.ids || id in next)
      && (page.hasMore <==> next != [])
      && (page.ids != [] ==> AtCursor(start, p.w.listing, Some(page.ids[|page.ids| - 1]), next))
    ensures p.calm && AllOurs(old(p.w), Ids(old(p.w).listing), p.customer, livemode) && start == old(p.w).listing ==>
      && error.None? && page.ids + next == rest && (page.hasMore ==> page.ids != [])
      && AllOurs(p.w, Ids(page.ids), p.customer, livemode)
  {
    ghost var before := p.w;
    var answer := p.ListSubscriptions(startingAfter);
    next, page, error := rest, Page([], false), None;
    if answer.None? { error := Some(Pending); return; }
    page := answer.value;
    if p.faithful {
      next := RestOf(start, before.listing, p.w.listing, startingAfter, rest, page);
      if p.calm && AllOurs(before, Ids(before.listing), p.customer, livemode) {
        PageIsOurs(before, p.w, startingAfter, page, p.customer, livemode);
      }
    }
  }

  /** List one page and read what is new on it. */
  method NextPage(p: Provider, livemode: bool, send: Option<nat>, startingAfter: Option<nat>,
                  known: map<nat, Subscription>, ghost seen: set<nat>, ghost start: seq<nat>, ghost rest: seq<nat>)
    returns (error: Option<Code>, subs: map<nat, Subscription>, page: Page, ghost next: seq<nat>)
    requires p.Valid() && Found(p.w, known) && Looked(p.w, seen, known, send, p.steady)
    requires send.Some? ==> send.value !in known
    requires p.faithful ==> AtCursor(start, p.w.listing, startingAfter, rest)
    modifies p
    ensures p.Valid() && Later(old(p.w), p.w, p.steady) && OnlyListing(old(p.log), p.log)
    ensures p.calm ==> Calmly(old(p.w), p.w)
    ensures known.Keys <= subs.Keys && (send.Some? ==> send.value !in subs)
    ensures error.None? ==>
      && Found(p.w, subs) && Looked(p.w, seen + Ids(page.ids), subs, send, p.steady)
      && forall i :: 0 <= i < |page.ids| ==> page.ids[i] in p.universe
    ensures error.None? && p.faithful ==>
      && (forall id :: id in rest ==> id in page.ids || id in next)
      && (page.hasMore <==> next != [])
      && (page.ids != [] ==> AtCursor(start, p.w.listing, Some(page.ids[|page.ids| - 1]), next))
    ensures p.calm && AllOurs(old(p.w), Ids(old(p.w).listing), p.customer, livemode) && start == old(p.w).listing ==>
      && error.None? && page.ids + next == rest && (page.hasMore ==> page.ids != [])
      && FoundMail(p.w, subs, known.Keys, p.customer, livemode)
  {
    ghost var before := p.w;
    subs := known;
    error, page, next := ListPage(p, livemode, startingAfter, start, rest);
    if error.Some? { return; }
    ghost var listed := p.w;
    ReadingsKeep(before, listed, p.steady, seen, known, send);
    error, subs := ReadPage(p, livemode, send, page.ids, known, seen);
    LaterIsTransitive(before, listed, p.w, p.steady);
    if p.faithful && page.ids != [] {
      CursorStays(start, listed.listing, p.w.listing, page.ids[|page.ids| - 1], next);
    }
  }

  lemma CursorStays(start: seq<nat>, now: seq<nat>, later: seq<nat>, cursor: nat, next: seq<nat>)
    requires AtCursor(start, now, Some(cursor), next) && Extends(now, later)
    ensures AtCursor(start, later, Some(cursor), next)
  {
    ExtendsIsTransitive(start, now, later);
    CursorIsStable(now, later, cursor);
    NewerListingHolds(now, later);
  }

  lemma PageIsOurs(before: World, listed: World, cursor: Option<nat>, page: Page, customer: nat, livemode: bool)
    requires Calmly(before, listed) && AllOurs(before, Ids(before.listing), customer, livemode)
    requires Shows(listed.listing, cursor, page)
    ensures AllOurs(listed, Ids(page.ids), customer, livemode)
  {
    AfterIsWithin(listed.listing, cursor);
    var rest := From(listed.listing, cursor);
    forall i | 0 <= i < |page.ids| ensures Ours(listed, page.ids[i], customer, livemode) {
      assert page.ids[i] == rest[i] && rest[i] in rest;
      assert rest[i] in listed.listing && rest[i] in Ids(before.listing);
      assert Ours(before, rest[i], customer, livemode);
    }
  }

  lemma ReadingsKeep(a: World, b: World, steady: set<nat>, seen: set<nat>, subs: map<nat, Subscription>,
                     send: Option<nat>)
    requires Later(a, b, steady) && Found(a, subs) && Looked(a, seen, subs, send, steady)
    ensures Found(b, subs) && Looked(b, seen, subs, send, steady)
  {}

  /** Every entry was seen or is still to come. */
  ghost predicate Remaining(start: seq<nat>, seen: set<nat>, rest: seq<nat>) {
    forall id :: id in start ==> id in seen || id in rest
  }

  lemma StillCovered(start: seq<nat>, seen: set<nat>, rest: seq<nat>, page: seq<nat>, next: seq<nat>)
    requires Remaining(start, seen, rest)
    requires forall id :: id in rest ==> id in page || id in next
    ensures Remaining(start, seen + Ids(page), next)
  {}

  /** No cursor used so far is still to come. */
  ghost predicate Ahead(cursors: set<nat>, rest: seq<nat>) {
    Distinct(rest) && forall c :: c in cursors ==> c !in rest
  }

  /** Page through the customer's listing until the last page. The loop ends on any listing
      over a finite set of ids, since a cursor that comes back stops it. */
  method ReadListing(p: Provider, livemode: bool, send: Option<nat>, known: map<nat, Subscription>)
    returns (error: Option<Code>, subs: map<nat, Subscription>)
    requires p.Valid() && Found(p.w, known) && (send.Some? ==> send.value !in known)
    modifies p
    ensures p.Valid() && Later(old(p.w), p.w, p.steady) && OnlyListing(old(p.log), p.log)
    ensures p.calm ==> Calmly(old(p.w), p.w)
    ensures known.Keys <= subs.Keys && (send.Some? ==> send.value !in subs)
    ensures error.None? ==> Found(p.w, subs)
    ensures error.None? && p.faithful ==> Looked(p.w, Ids(old(p.w.listing)), subs, send, p.steady)
    ensures p.calm && InOrder(old(p.w), p.customer, livemode, send) ==>
      error.None? && FoundMail(p.w, subs, known.Keys, p.customer, livemode)
  {
    ghost var start := p.w;
    ghost var smooth := p.calm && InOrder(start, p.customer, livemode, send);
    subs, error := known, None;
    var startingAfter: Option<nat> := None;
    var cursors: set<nat> := {};
    ghost var seen: set<nat>, rest := {}, start.listing;
    var more := true;
    while more
      invariant p.Valid() && Later(old(p.w), p.w, p.steady) && OnlyListing(old(p.log), p.log) && error.None?
      invariant p.calm ==> Calmly(old(p.w), p.w)
      invariant known.Keys <= subs.Keys && (send.Some? ==> send.value !in subs)
      invariant Found(p.w, subs) && Looked(p.w, seen, subs, send, p.steady)
      invariant cursors <= p.universe
      invariant p.faithful ==> Remaining(start.listing, seen, rest)
      invariant p.faithful && more ==> AtCursor(start.listing, p.w.listing, startingAfter, rest)
      invariant p.faithful && !more ==> rest == []
      invariant smooth ==> FoundMail(p.w, subs, known.Keys, p.customer, livemode)
      invariant smooth ==> Ahead(cursors, rest)
      decreases more, p.universe - cursors
    {
      ghost var before := p.w;
      var code, read, page;
      ghost var next;
      code, read, page, next := NextPage(p, livemode, send, startingAfter, subs, seen, start.listing, rest);
      LaterIsTransitive(start, before, p.w, p.steady);
      if p.calm { CalmIsTransitive(start, before, p.w); }
      if smooth {
        PageLeavesFewer(rest, page.ids, next, cursors);
        FoundMailGrows(before, p.w, subs, read, known.Keys, p.customer, livemode);
      }
      if code.Some? { return code, read; }
      if p.faithful { StillCovered(start.listing, seen, rest, page.ids, next); }
      subs, seen, rest := read, seen + Ids(page.ids), next;
      if page.hasMore {
        if page.ids == [] || page.ids[|page.ids| - 1] in cursors { return Some(Pending), subs; }
        cursors := cursors + {page.ids[|page.ids| - 1]};
        startingAfter := Some(page.ids[|page.ids| - 1]);
      }
      more := page.hasMore;
    }
  }

  /** On a listing that stands still a cursor cannot come back. */
  lemma PageLeavesFewer(rest: seq<nat>, page: seq<nat>, next: seq<nat>, cursors: set<nat>)
    requires page + next == rest && Ahead(cursors, rest)
    ensures Ahead(cursors, next)
    ensures page != [] ==> page[|page| - 1] !in cursors && Ahead(cursors + {page[|page| - 1]}, next)
  {
    assert forall i :: 0 <= i < |next| ==> rest[|page| + i] == next[i];
    if page != [] {
      assert rest[|page| - 1] == page[|page| - 1];
    }
  }

  /** What a page leaves of a still listing follows the page's last entry. */
  lemma PageSplits(now: seq<nat>, cursor: Option<nat>, page: Page)
    requires Distinct(now) && Shows(now, cursor, page) && page.ids != []
    ensures var last := page.ids[|page.ids| - 1];
      last in now && After(now, last) == From(now, cursor)[|page.ids|..]
  {
    assert page.ids[|page.ids| - 1] == From(now, cursor)[|page.ids| - 1];
    if cursor.None? {
      AfterLast(now, |page.ids|);
    } else {
      AfterContinues(now, cursor.value, |page.ids|);
    }
  }

  /** Nothing of what was left is lost by newer entries. */
  lemma RestIsKept(start: seq<nat>, before: seq<nat>, now: seq<nat>, cursor: Option<nat>, rest: seq<nat>)
    requires AtCursor(start, before, cursor, rest) && Extends(before, now)
    ensures forall id :: id in rest ==> id in From(now, cursor)
  {
    if cursor.None? {
      ExtendsIsTransitive(start, before, now);
      NewerListingHolds(start, now);
    } else {
      CursorIsStable(before, now, cursor.value);
    }
  }

  /** What is left of the listing after a faithful page, seen through its last entry. */
  lemma RestOf(start: seq<nat>, before: seq<nat>, now: seq<nat>, cursor: Option<nat>, rest: seq<nat>, page: Page)
    returns (next: seq<nat>)
    requires AtCursor(start, before, cursor, rest) && Extends(before, now) && Distinct(now) && Shows(now, cursor, page)
    ensures forall id :: id in rest ==> id in page.ids || id in next
    ensures page.hasMore <==> next != []
    ensures page.ids != [] ==> AtCursor(start, now, Some(page.ids[|page.ids| - 1]), next)
    ensures start == before == now ==> page.ids + next == rest
    ensures page.hasMore ==> page.ids != []
  {
    next := From(now, cursor)[|page.ids|..];
    RestIsKept(start, before, now, cursor, rest);
    assert From(now, cursor) == page.ids + next;
    if page.ids != [] {
      PageSplits(now, cursor, page);
      ExtendsIsTransitive(start, before, now);
    }
  }

  /** End every found subscription that has not ended. */
  method CancelAll(p: Provider, livemode: bool, linked: set<nat>, subs: map<nat, Subscription>)
    returns (error: Option<Code>)
    requires p.Valid() && Found(p.w, subs)
    modifies p
    ensures p.Valid() && Later(old(p.w), p.w, p.steady) && OnlyCancelling(old(p.log), p.log, subs.Keys)
    ensures p.calm ==> Calmly(old(p.w), p.w)
    ensures error.None? ==> forall id :: id in subs ==> Ended(p.w, id)
    ensures (p.calm && AllOurs(old(p.w), subs.Keys, p.customer, livemode)
             && forall id :: id in subs ==> id in linked || old(p.w).subs[id].mail) ==> error.None?
  {
    ghost var start, startLog := p.w, p.log;
    error := None;
    var todo := subs.Keys;
    while todo != {}
      invariant p.Valid() && Later(start, p.w, p.steady) && OnlyCancelling(startLog, p.log, subs.Keys)
      invariant p.calm ==> Calmly(start, p.w)
      invariant error.None? && Found(p.w, subs) && todo <= subs.Keys
      invariant forall id :: id in subs && id !in todo ==> Ended(p.w, id)
    {
      var id :| id in todo;
      ghost var before, beforeLog := p.w, p.log;
      if p.calm { CalmKeepsOrder(start, before, p.customer, livemode, None); }
      if !subs[id].terminal {
        error := EndSubscription(p, livemode, linked, id);
        LaterIsTransitive(start, before, p.w, p.steady);
        if p.calm { CalmIsTransitive(start, before, p.w); }
        CancellingGrows(startLog, beforeLog, p.log, subs.Keys, id);
        if error.Some? { return; }
      }
      todo := todo - {id};
    }
  }

  lemma CancellingGrows(a: seq<Event>, b: seq<Event>, c: seq<Event>, ids: set<nat>, id: nat)
    requires OnlyCancelling(a, b, ids) && OnlyCancelling(b, c, {id}) && id in ids
    ensures OnlyCancelling(a, c, ids)
  {}

  method EndSubscription(p: Provider, livemode: bool, linked: set<nat>, id: nat) returns (error: Option<Code>)
    requires p.Valid()
    modifies p
    ensures p.Valid() && Later(old(p.w), p.w, p.steady) && OnlyCancelling(old(p.log), p.log, {id})
    ensures p.calm ==> Calmly(old(p.w), p.w)
    ensures error.None? ==> Ended(p.w, id)
    ensures p.calm && Ours(old(p.w), id, p.customer, livemode) && (id in linked || old(p.w).subs[id].mail) ==>
      error.None?
  {
    var sub: Subscription;
    error, sub := FetchSubscription(p, id, livemode);
    if error.Some? { return; }
    if id !in linked && !sub.mail { return Some(Conflict); }
    if sub.terminal { return; }
    ghost var first := p.w;
    var answer := p.CancelSubscription(id);
    LaterIsTransitive(old(p.w), first, p.w, p.steady);
    if answer.None? {
      ghost var cancelled := p.w;
      error, sub := FetchSubscription(p, id, livemode);
      LaterIsTransitive(old(p.w), cancelled, p.w, p.steady);
      if error.Some? { return; }
    } else {
      sub := answer.value;
    }
    if sub.customer != p.customer || sub.livemode != livemode { return Some(Conflict); }
    if !sub.terminal { return Some(Pending); }
  }

  // ---- The whole erasure --------------------------------------------------

  /** Discovery first: no page is listed and no session expired after a cancellation. */
  ghost predicate CancelsComeLast(before: seq<Event>, after: seq<Event>) {
    forall i, j :: |before| <= i < j < |after| && after[i].Cancelling? ==> after[j].Cancelling?
  }

  ghost predicate NeverCancels(before: seq<Event>, after: seq<Event>, id: nat) {
    forall i :: |before| <= i < |after| ==> after[i] != Cancelling(id)
  }

  /** Nothing of the team's Mail service is left running: sessions, linked subscriptions,
      and whatever a faithful listing showed when the call began. */
  ghost predicate NothingLeft(start: World, w: World, p: Provider, team: Team, plan: Option<Plan>, leases: seq<Lease>)
  {
    && (forall l :: l in leases && !Skipped(l) ==> Settled(w, l))
    && (forall id :: id in Linked(plan, leases) ==> Ended(w, id))
    && (p.faithful ==> forall id :: id in start.listing && team.send != Some(id) && id in p.steady ==>
          Ended(w, id) || (id in w.subs && !w.subs[id].mail))
    && (p.leased && QuietRows(leases, p.quiet) ==> forall l :: l in leases && !StoodFor(l) ==> NoneOpen(w, l.id))
  }

  /** A lease passed over because a subscription stands for it. */
  predicate StoodFor(l: Lease) {
    Skipped(l) && l.status == LeaseCompleted
  }

  ghost predicate NoneOpen(w: World, lease: nat) {
    forall x :: x in w.sessions && w.sessions[x].lease == lease ==> w.sessions[x].status != Open
  }

  /** The other leases passed over are quiet. */
  ghost predicate QuietRows(leases: seq<Lease>, quiet: set<nat>) {
    forall l :: l in leases && Skipped(l) && !StoodFor(l) ==> l.id in quiet
  }

  /** What closing left unpayable stays so, whatever the provider does next. */
  lemma ClosedForGood(a: World, b: World, steady: set<nat>, leases: seq<Lease>, quiet: set<nat>)
    requires Later(a, b, steady) && Leased(b, quiet) && QuietRows(leases, quiet)
    requires forall l :: l in leases && !Skipped(l) ==> Settled(a, l)
    ensures forall l :: l in leases && !StoodFor(l) ==> NoneOpen(b, l.id)
  {
    forall l | l in leases && !StoodFor(l) ensures NoneOpen(b, l.id) {
      if !Skipped(l) {
        var x :| x in a.sessions && a.sessions[x].lease == l.id && a.sessions[x].status != Open;
        assert b.sessions[x] == a.sessions[x];
      }
    }
  }

  lemma LaterIsReflexive(w: World, steady: set<nat>)
    ensures Later(w, w, steady)
  {}

  /** Closing everything leaves only the leases a subscription stands for. */
  lemma OnlyStoodForLeft(p: Provider, leases: seq<Lease>)
    requires p.Valid() && forall l :: l in leases && !Skipped(l) ==> Settled(p.w, l)
    ensures p.leased && QuietRows(leases, p.quiet) ==> forall l :: l in leases && !StoodFor(l) ==> NoneOpen(p.w, l.id)
  {
    if p.leased && QuietRows(leases, p.quiet) {
      LaterIsReflexive(p.w, p.steady);
      ClosedForGood(p.w, p.w, p.steady, leases, p.quiet);
    }
  }

  /** A lease's session cannot be paid any more, and the subscription it made has ended. */
  ghost predicate Settled(w: World, l: Lease) {
    exists x :: x in w.sessions && w.sessions[x].lease == l.id && w.sessions[x].status != Open
      && (w.sessions[x].subscription.Some? ==> Ended(w, w.sessions[x].subscription.value))
  }

  lemma SettledByFacts(w: World, leases: seq<Lease>, facts: seq<Fact>, linked: set<nat>)
    requires Covered(leases, facts) && AllProved(w, facts, linked)
    requires forall id :: id in linked ==> Ended(w, id)
    ensures forall l :: l in leases && !Skipped(l) ==> Settled(w, l)
  {
    forall l | l in leases && !Skipped(l) ensures Settled(w, l) {
      assert HasFact(facts, l.id);
      var k :| 0 <= k < |facts| && facts[k].lease == l.id;
      assert Proved(w, facts[k], linked);
    }
  }

  /** The row a lease is left with: the facts are applied in order, by id. */
  function RecordLease(l: Lease, facts: seq<Fact>): Lease {
    if facts == [] then l
    else
      var f := facts[|facts| - 1];
      if f.lease == l.id then
        l.(status := if f.completed then LeaseCompleted else LeaseExpired, session := Some(f.session),
           subscription := f.subscription, url := false)
      else RecordLease(l, facts[..|facts| - 1])
  }

  function Record(leases: seq<Lease>, facts: seq<Fact>): seq<Lease> {
    seq(|leases|, i requires 0 <= i < |leases| => RecordLease(leases[i], facts))
  }

  /** A lease's row says what its session says. */
  ghost predicate Truthful(w: World, before: Lease, after: Lease) {
    if Skipped(before) then after == before
    else
      && after == before.(status := after.status, session := after.session,
                          subscription := after.subscription, url := false)
      && after.session.Some? && after.session.value in w.sessions
      && var x := w.sessions[after.session.value];
      && x.lease == before.id
      && after.status == (if x.status == Complete then LeaseCompleted else LeaseExpired) && x.status != Open
      && (x.status == Complete ==> after.subscription == x.subscription && x.subscription.Some?)
  }

  /** The rows at the delete state only what the provider confirmed. */
  ghost predicate Recorded(w: World, before: seq<Lease>, after: seq<Lease>, plan: Option<Plan>,
                           planAfter: Option<Plan>) {
    && |after| == |before|
    && (forall i :: 0 <= i < |before| ==> Truthful(w, before[i], after[i]))
    && planAfter == (if plan.Some? && plan.value.subscription.Some? then Some(plan.value.(canceled := true, seats := 0))
                        else plan)
  }

  lemma {:induction false} LeaseIsTruthful(w: World, l: Lease, facts: seq<Fact>, linked: set<nat>)
    requires AllProved(w, facts, linked)
    requires !Skipped(l) ==> HasFact(facts, l.id)
    requires Skipped(l) ==> forall f :: f in facts ==> f.lease != l.id
    ensures Truthful(w, l, RecordLease(l, facts))
  {
    if facts != [] {
      var f, fewer := facts[|facts| - 1], facts[..|facts| - 1];
      assert f in facts && Proved(w, f, linked);
      if f.lease != l.id {
        forall g | g in fewer ensures Proved(w, g, linked) && (Skipped(l) ==> g.lease != l.id) { assert g in facts; }
        if !Skipped(l) {
          var k :| 0 <= k < |facts| && facts[k].lease == l.id;
          assert fewer[k].lease == l.id;
        }
        LeaseIsTruthful(w, l, fewer, linked);
      }
    }
  }

  lemma RecordIsTruthful(w: World, leases: seq<Lease>, facts: seq<Fact>, linked: set<nat>)
    requires Covered(leases, facts) && AllProved(w, facts, linked)
    requires forall i, j :: 0 <= i < j < |leases| ==> leases[i].id != leases[j].id
    ensures forall i :: 0 <= i < |leases| ==> Truthful(w, leases[i], Record(leases, facts)[i])
  {
    forall i | 0 <= i < |leases| ensures Truthful(w, leases[i], Record(leases, facts)[i]) {
      if Skipped(leases[i]) {
        forall f | f in facts ensures f.lease != leases[i].id {
          var l :| l in leases && !Skipped(l) && l.id == f.lease;
          var j :| 0 <= j < |leases| && leases[j] == l;
        }
      }
      LeaseIsTruthful(w, leases[i], facts, linked);
    }
  }

  /** Everything up to the first cancellation: close the sessions, read what is linked, and
      page through the listing. */
  method Discover(p: Provider, livemode: bool, send: Option<nat>, leases: seq<Lease>, known: set<nat>)
    returns (error: Option<Code>, linked: set<nat>, facts: seq<Fact>, subs: map<nat, Subscription>)
    requires p.Valid() && (send.Some? ==> send.value !in known)
    modifies p
    ensures p.Valid() && Later(old(p.w), p.w, p.steady) && NoCancelling(old(p.log), p.log)
    ensures ExpiresOnlyFor(p.w, old(p.log), p.log, Asked(leases))
    ensures p.calm ==> Calmly(old(p.w), p.w)
    ensures error.None? ==>
      && known <= linked <= subs.Keys && (send.Some? ==> send.value !in subs)
      && Covered(leases, facts) && AllProved(p.w, facts, linked) && Found(p.w, subs)
    ensures error.None? && p.faithful ==> Looked(p.w, Ids(old(p.w).listing), subs, send, p.steady)
    ensures (Smooth(p, old(p.w), leases, livemode, send) && AllOurs(old(p.w), known, p.customer, livemode)) ==>
      error.None? && AllOurs(p.w, subs.Keys, p.customer, livemode) && FoundMail(p.w, subs, linked, p.customer, livemode)
  {
    ghost var start := p.w;
    subs := map[];
    error, linked, facts := CloseSessions(p, send, leases, known, livemode);
    if error.Some? { return; }
    ghost var closed, closedLog := p.w, p.log;
    error, subs := ReadAll(p, livemode, send, linked);
    LaterIsTransitive(start, closed, p.w, p.steady);
    ExpiringStays(closed, p.w, p.steady, old(p.log), closedLog, p.log, Asked(leases));
    if p.calm {
      CalmKeepsOrder(start, closed, p.customer, livemode, send);
      CalmIsTransitive(start, closed, p.w);
    }
    if error.Some? { return; }
    ProofsKeep(closed, p.w, p.steady, facts, linked, linked);
    NewerListingHolds(start.listing, closed.listing);
  }

  /** No session of a lease outside `asked` was told to expire. */
  ghost predicate ExpiresOnlyFor(w: World, before: seq<Event>, after: seq<Event>, asked: set<nat>) {
    forall i :: |before| <= i < |after| && after[i].Expiring? ==> ExpiresFor(w, after[i], asked)
  }

  lemma ExpiringStays(w: World, now: World, steady: set<nat>, a: seq<Event>, b: seq<Event>, c: seq<Event>,
                      asked: set<nat>)
    requires Later(w, now, steady) && ExpiresOnlyFor(w, a, b, asked) && |a| <= |b| && b <= c
    requires forall i :: |b| <= i < |c| ==> !c[i].Expiring?
    ensures ExpiresOnlyFor(now, a, c, asked)
  {
    forall i | |a| <= i < |c| && c[i].Expiring? ensures ExpiresFor(now, c[i], asked) {
      assert c[i] == b[i] && ExpiresFor(w, b[i], asked);
    }
  }

  /** Read every linked subscription, then whatever Mail the listing shows beside them. */
  method ReadAll(p: Provider, livemode: bool, send: Option<nat>, linked: set<nat>)
    returns (error: Option<Code>, subs: map<nat, Subscription>)
    requires p.Valid() && (send.Some? ==> send.value !in linked)
    modifies p
    ensures p.Valid() && Later(old(p.w), p.w, p.steady) && OnlyListing(old(p.log), p.log)
    ensures p.calm ==> Calmly(old(p.w), p.w)
    ensures error.None? ==> linked <= subs.Keys && (send.Some? ==> send.value !in subs) && Found(p.w, subs)
    ensures error.None? && p.faithful ==> Looked(p.w, Ids(old(p.w).listing), subs, send, p.steady)
    ensures (p.calm && InOrder(old(p.w), p.customer, livemode, send)
             && AllOurs(old(p.w), linked, p.customer, livemode)) ==>
      error.None? && AllOurs(p.w, subs.Keys, p.customer, livemode) && FoundMail(p.w, subs, linked, p.customer, livemode)
  {
    ghost var start := p.w;
    error, subs := FetchLinked(p, livemode, linked);
    if p.calm { CalmKeepsOrder(start, p.w, p.customer, livemode, send); }
    if error.Some? { return; }
    ghost var read := p.w;
    error, subs := ReadListing(p, livemode, send, subs);
    LaterIsTransitive(start, read, p.w, p.steady);
    if p.calm {
      CalmKeepsOrder(start, p.w, p.customer, livemode, send) by { CalmIsTransitive(start, read, p.w); }
      CalmIsTransitive(start, read, p.w);
    }
    NewerListingHolds(start.listing, read.listing);
  }

  ghost predicate NoCancelling(before: seq<Event>, after: seq<Event>) {
    before <= after && forall i :: |before| <= i < |after| ==> !after[i].Cancelling?
  }

  class TeamRows {
    var team: Team
    var plan: Option<Plan>
    var leases: seq<Lease>
    var request: Option<CustomerRequest>
    var deleted: bool

    constructor (team: Team, plan: Option<Plan>, leases: seq<Lease>, request: Option<CustomerRequest>)
      ensures !deleted
    {
      this.team, this.plan, this.leases, this.request, deleted := team, plan, leases, request, false;
    }

    /** Close every remote obligation with the rows still untouched. */
    method CloseObligations(p: Provider, livemode: bool)
      returns (error: Option<Code>, facts: seq<Fact>, linked: set<nat>)
      requires p.Valid() && (team.send.Some? ==> team.send.value !in Linked(plan, leases))
      modifies p
      ensures p.Valid() && Later(old(p.w), p.w, p.steady) && old(p.log) <= p.log
      ensures p.calm ==> Calmly(old(p.w), p.w)
      ensures CancelsComeLast(old(p.log), p.log) && ExpiresOnlyFor(p.w, old(p.log), p.log, Asked(leases))
      ensures team.send.Some? ==> NeverCancels(old(p.log), p.log, team.send.value)
      ensures error.None? ==> NothingLeft(old(p.w), p.w, p, team, plan, leases)
      ensures error.None? ==> Covered(leases, facts) && AllProved(p.w, facts, linked)
      ensures Smooth(p, old(p.w), leases, livemode, team.send)
              && AllOurs(old(p.w), Linked(plan, leases), p.customer, livemode) ==>
        error.None?
    {
      var known := Linked(plan, leases);
      var subs: map<nat, Subscription>;
      error, linked, facts, subs := Discover(p, livemode, team.send, leases, known);
      if error.Some? { return; }
      ghost var listed, listedLog := p.w, p.log;
      error := CancelAll(p, livemode, linked, subs);
      LaterIsTransitive(old(p.w), listed, p.w, p.steady);
      ExpiringStays(listed, p.w, p.steady, old(p.log), listedLog, p.log, Asked(leases));
      if p.calm { CalmIsTransitive(old(p.w), listed, p.w); }
      if error.Some? { return; }
      ProofsKeep(listed, p.w, p.steady, facts, linked, linked);
      SettledByFacts(p.w, leases, facts, linked);
      OnlyStoodForLeft(p, leases);
    }

    /** The whole call. The delete runs only when nothing remote is left; otherwise the
        rows are as they were. */
    method Erase(p: Provider, found: bool, discovered: Option<nat>, owner: bool, livemode: Option<bool>, sdk: bool,
                 sendCancelled: bool, deletes: bool)
      returns (r: Outcome)
      requires p.Valid() && !deleted
      requires team.customer.Some? ==> team.customer.value == p.customer
      requires forall i, j :: 0 <= i < j < |leases| ==> leases[i].id != leases[j].id
      modifies this, p
      ensures p.Valid() && Later(old(p.w), p.w, p.steady)
      ensures p.calm ==> Calmly(old(p.w), p.w)
      ensures CancelsComeLast(old(p.log), p.log) && ExpiresOnlyFor(p.w, old(p.log), p.log, Asked(old(leases)))
      ensures old(team).send.Some? ==> NeverCancels(old(p.log), p.log, old(team).send.value)
      ensures deleted <==> r == Deleted
      ensures !found ==> r == Refused(NotFound)
      ensures var refusal := Refusal(discovered, old(team), owner, old(plan), old(leases), old(request), livemode);
        found && refusal.Some? ==> r == Refused(refusal.value) && p.log == old(p.log)
      ensures r == Deleted || r == CallbackFailed ==>
        && found && Refusal(discovered, old(team), owner, old(plan), old(leases), old(request), livemode).None?
        && (r == Deleted <==> sendCancelled && deletes)
      ensures r == Deleted || r == CallbackFailed ==>
        && owner && old(team).customer == discovered
        && MayErase(discovered, old(team), owner, old(plan), old(leases), old(request), livemode)
      ensures found && old(team).customer != discovered ==> r == Refused(Conflict) && p.log == old(p.log)
      ensures found && old(team).customer == discovered && !owner ==> r == Refused(Forbidden) && p.log == old(p.log)
      ensures found && old(team).customer == discovered && owner
              && old(request).Some? && old(request).value.creating ==>
        r == Refused(Pending) && p.log == old(p.log)
      ensures !MayErase(discovered, old(team), owner, old(plan), old(leases), old(request), livemode) ==>
        r.Refused? && p.log == old(p.log)
      ensures (found && MayErase(discovered, old(team), owner, old(plan), old(leases), old(request), livemode)
               && old(team).customer.Some? && !sdk) ==>
        r == Refused(Unavailable) && p.log == old(p.log)
      ensures (found && MayErase(discovered, old(team), owner, old(plan), old(leases), old(request), livemode)
               && old(team).customer.None?) ==>
        r == if sendCancelled && deletes then Deleted else CallbackFailed
      ensures found && sdk && livemode.Some?
              && Refusal(discovered, old(team), owner, old(plan), old(leases), old(request), livemode).None?
              && Smooth(p, old(p.w), old(leases), livemode.value, old(team).send)
              && AllOurs(old(p.w), Linked(old(plan), old(leases)), p.customer, livemode.value) ==>
        r == if sendCancelled && deletes then Deleted else CallbackFailed
      ensures (r == Deleted || r == CallbackFailed) && old(team).customer.Some? ==>
        NothingLeft(old(p.w), p.w, p, old(team), old(plan), old(leases))
      ensures r == Deleted && old(team).customer.Some? ==> Recorded(p.w, old(leases), leases, old(plan), plan)
      ensures r == Deleted && old(team).customer.None? ==>
        old(leases) == [] && Linked(old(plan), old(leases)) == {} && p.log == old(p.log)
      ensures r != Deleted ==>
        team == old(team) && plan == old(plan) && leases == old(leases) && request == old(request)
    {
      if !found { return Refused(NotFound); }
      RefusesExactly(discovered, team, owner, plan, leases, request, livemode);
      var refusal := Refusal(discovered, team, owner, plan, leases, request, livemode);
      if refusal.Some? { return Refused(refusal.value); }
      var plan0, leases0 := plan, leases;
      if team.customer.Some? {
        if !sdk { return Refused(Unavailable); }
        var error, facts, linked := CloseObligations(p, livemode.value);
        if error.Some? { return Refused(error.value); }
        RecordIsTruthful(p.w, leases, facts, linked);
        leases := Record(leases, facts);
        if plan.Some? && plan.value.subscription.Some? {
          plan := Some(plan.value.(canceled := true, seats := 0));
        }
      }
      if !sendCancelled || !deletes {
        plan, leases := plan0, leases0;
        return CallbackFailed;
      }
      deleted := true;
      r := Deleted;
    }
  }
}
