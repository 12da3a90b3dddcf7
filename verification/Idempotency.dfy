/**
 * Idempotent commits for one team and one key
 * (packages/core/src/idempotency.ts:29-110; apps/api/src/app.ts:3699-3781, 3916-3946, 4075-4124).
 *
 * Each statement or transaction is one step on one clock that never runs back. Requests
 * interleave freely, may die at any point, and may finish after their claim was taken over.
 */
module Idempotency {
  import opened Common

  /** Milliseconds. */
  const TTL: int := 24 * 60 * 60 * 1000
  const LEASE: int := 10 * 60 * 1000

  /** The stored row. Its response is the index of the commit whose email ids it holds. */
  datatype Record = Record(body: nat, response: Option<nat>, expires: int, created: int)

  /** A request that was told it owns the key and has not finished. */
  datatype Worker = Worker(body: nat, began: int)

  /** A transaction that committed emails under the key. `until` is the end of the record's
      life when it did. */
  datatype Commit = Commit(body: nat, at: int, until: int)

  datatype State = State(now: int, row: Option<Record>, workers: map<nat, Worker>, commits: seq<Commit>)

  datatype Action =
    | Tick(elapsed: nat)
    | Begin(request: nat, body: nat)
    | Finish(worker: nat)
    | Fail(worker: nat)
    | Crash(worker: nat)
    | Purge

  datatype Answer = Replay(commit: nat) | InFlight | Conflict

  /** The claim: a fresh insert, or a takeover of an expired row or of a stale claim for
      the same body. */
  predicate MayClaim(row: Option<Record>, body: nat, now: int) {
    || row.None?
    || row.value.expires <= now
    || (row.value.response.None? && row.value.created < now - LEASE && row.value.body == body)
  }

  /** What a request that could not claim reads afterwards. */
  function ReadBack(row: Option<Record>, body: nat, now: int): Answer {
    if row.None? || row.value.expires <= now then Conflict
    else if row.value.body != body then Conflict
    else if row.value.response.None? then InFlight
    else Replay(row.value.response.value)
  }

  /** A request whose transaction finds no open claim commits nothing; asking for the key
      again afterwards is a Begin of its own. */
  function Next(s: State, a: Action): State {
    match a
    case Tick(elapsed) => s.(now := s.now + elapsed)
    case Begin(request, body) =>
      if request in s.workers || !MayClaim(s.row, body, s.now) then s
      else s.(row := Some(Record(body, None, s.now + TTL, s.now)), workers := s.workers[request := Worker(body, s.now)])
    case Finish(worker) =>
      if worker !in s.workers then s
      else if s.row.None? || s.row.value.response.Some? then s.(workers := s.workers - {worker})
      else
        s.(row := Some(s.row.value.(response := Some(|s.commits|))),
           workers := s.workers - {worker},
           commits := s.commits + [Commit(s.workers[worker].body, s.now, s.row.value.expires)])
    case Fail(worker) =>
      if worker !in s.workers then s
      else
        s.(row := if s.row.Some? && s.row.value.response.None? then None else s.row, workers := s.workers - {worker})
    case Crash(worker) => s.(workers := s.workers - {worker})
    case Purge => if s.row.Some? && s.row.value.expires < s.now then s.(row := None) else s
  }

  function Run(s: State, actions: seq<Action>): State
    decreases actions
  {
    if actions == [] then s else Run(Next(s, actions[0]), actions[1..])
  }

  function Init(now: int): State {
    State(now, None, map[], [])
  }

  // ---- The life of a claim, in milliseconds -------------------------------

  /** What another request is told at `at`, and whether it takes the key over, when the key was
      claimed for `body` at `began` and holds the ids of commit `done` if there is one. */
  predicate Told(row: Option<Record>, body: nat, began: int, done: Option<nat>, other: nat, at: int) {
    var alive := at < began + 86_400_000;
    && (MayClaim(row, other, at) <==> !alive || (done.None? && other == body && at > began + 600_000))
    && ReadBack(row, other, at) == (if !alive || other != body then Conflict
                                    else if done.None? then InFlight
                                    else Replay(done.value))
  }

  /** A new claim holds the key for a day: the same body is told it is in flight and may take
      over after ten minutes, another body is refused, and past the day the key is free. */
  lemma ClaimIsHeldExactly(s: State, request: nat, body: nat, other: nat, at: int)
    requires request !in s.workers && MayClaim(s.row, body, s.now)
    ensures var t := Next(s, Begin(request, body));
      && Told(t.row, body, s.now, None, other, at)
      && t == s.(row := t.row, workers := s.workers[request := Worker(body, s.now)])
  {}

  /** Finishing under an open claim commits once, under the finisher's own body, and the key
      then replays those ids to the claim's body for the rest of the day. */
  lemma FinishIsReplayedExactly(s: State, worker: nat, began: int, other: nat, at: int)
    requires worker in s.workers && s.row.Some? && s.row.value.response.None?
    requires s.row.value.created == began && s.row.value.expires == began + 86_400_000
    ensures var t := Next(s, Finish(worker));
      && Told(t.row, s.row.value.body, began, Some(|s.commits|), other, at)
      && t.commits == s.commits + [Commit(s.workers[worker].body, s.now, began + 86_400_000)]
      && t.workers == s.workers - {worker} && t.now == s.now
  {}

  /** Who changes the row at all, and what else a step does. A request that cannot claim, a
      finisher without an open claim and a failure without one leave the row alone. */
  lemma RowChangesExactly(s: State, a: Action)
    requires s.row.Some?
    ensures var r, t := s.row.value, Next(s, a);
      && (t.row == None <==> (a.Fail? && a.worker in s.workers && r.response.None?) || (a.Purge? && r.expires < s.now))
      && (t.commits == s.commits <==> !(a.Finish? && a.worker in s.workers && r.response.None?))
      && (t.row.Some? && t.row != s.row ==>
            || (a.Finish? && a.worker in s.workers && r.response.None?)
            || (a.Begin? && a.request !in s.workers && MayClaim(s.row, a.body, s.now)))
      && t.now == s.now + (if a.Tick? then a.elapsed else 0)
      && (forall w :: w in t.workers <==>
            (w in s.workers && a != Finish(w) && a != Fail(w) && a != Crash(w))
            || (a.Begin? && a.request == w && MayClaim(s.row, a.body, s.now)))
  {
    if a.Finish? && a.worker in s.workers && s.row.value.response.None? {
      assert |Next(s, a).commits| == |s.commits| + 1;
    }
  }

  // ---- At most one commit in a record's life ------------------------------

  /** The row still answers for commit `i`. */
  predicate Answers(s: State, i: nat) {
    i < |s.commits| && s.row.Some? && s.row.value.response == Some(i) && s.row.value.expires == s.commits[i].until
  }

  ghost predicate Inv(s: State) {
    && (s.row.Some? && s.row.value.response.Some? ==> s.row.value.response.value < |s.commits|)
    && (forall i :: 0 <= i < |s.commits| ==> s.commits[i].at <= s.now && (Answers(s, i) || s.commits[i].until <= s.now))
    && (forall i, j :: 0 <= i < j < |s.commits| ==> s.commits[i].until <= s.commits[j].at)
  }

  lemma StepKeepsInv(s: State, a: Action)
    requires Inv(s)
    ensures Inv(Next(s, a)) && s.commits <= Next(s, a).commits && s.now <= Next(s, a).now
  {
    var t := Next(s, a);
    forall i | 0 <= i < |t.commits| ensures t.commits[i].at <= t.now && (Answers(t, i) || t.commits[i].until <= t.now) {
      if i < |s.commits| { assert Answers(s, i) || s.commits[i].until <= s.now; }
    }
    forall i, j | 0 <= i < j < |t.commits| ensures t.commits[i].until <= t.commits[j].at {
      if j == |s.commits| { assert !Answers(s, i); }
    }
  }

  lemma {:induction false} RunKeepsInv(s: State, actions: seq<Action>)
    requires Inv(s)
    ensures Inv(Run(s, actions)) && s.commits <= Run(s, actions).commits && s.now <= Run(s, actions).now
    decreases actions
  {
    if actions != [] {
      StepKeepsInv(s, actions[0]);
      RunKeepsInv(Next(s, actions[0]), actions[1..]);
    }
  }

  /** Over every run, a later transaction commits under the key only once the life of the
      earlier record is over, and until then the key replays the earlier ids. */
  lemma OneCommitPerLife(now: int, actions: seq<Action>, i: nat)
    requires i < |Run(Init(now), actions).commits|
    ensures var s := Run(Init(now), actions);
      && (forall j :: i < j < |s.commits| ==> s.commits[i].until <= s.commits[j].at)
      && (s.now < s.commits[i].until ==>
            && s.row.Some?
            && forall body :: !MayClaim(s.row, body, s.now)
                 && ReadBack(s.row, body, s.now) == if body == s.row.value.body then Replay(i) else Conflict)
  {
    RunKeepsInv(Init(now), actions);
    var s := Run(Init(now), actions);
    if s.now < s.commits[i].until { assert Answers(s, i); }
  }

  // ---- Whose ids a replay returns -----------------------------------------

  /** The stored response was committed for the stored body. */
  predicate Faithful(s: State) {
    s.row.Some? && s.row.value.response.Some? ==>
      && s.row.value.response.value < |s.commits|
      && s.commits[s.row.value.response.value].body == s.row.value.body
  }

  /** In a faithful state a replay returns ids committed for the very body it was asked with. */
  lemma FaithfulReplays(s: State, body: nat)
    requires Faithful(s)
    ensures var r := ReadBack(s.row, body, s.now);
      r.Replay? ==> r.commit < |s.commits| && s.commits[r.commit].body == body
  {}

  /** The request commits under an open claim that was made for another body. */
  predicate CompletesForeign(s: State, a: Action) {
    && a.Finish? && a.worker in s.workers && s.row.Some? && s.row.value.response.None?
    && s.row.value.body != s.workers[a.worker].body
  }

  /** Only a commit can spoil it, and exactly when the open claim is for another body:
      neither the completion nor the release of a claim checks whose claim it is. */
  lemma FaithfulnessIsKeptExactly(s: State, a: Action)
    requires Inv(s) && Faithful(s)
    ensures Faithful(Next(s, a)) <==> !CompletesForeign(s, a)
  {
    if a.Finish? && a.worker in s.workers && s.row.Some? && s.row.value.response.None? {
      assert Next(s, a).commits[|s.commits|].body == s.workers[a.worker].body;
    }
  }

  ghost predicate FaithfulAlong(s: State, actions: seq<Action>)
    decreases actions
  {
    Faithful(s) && (actions != [] ==> FaithfulAlong(Next(s, actions[0]), actions[1..]))
  }

  /** No request of the run commits under a claim for another body. */
  ghost predicate OwnCommits(s: State, actions: seq<Action>)
    decreases actions
  {
    actions != [] ==> !CompletesForeign(s, actions[0]) && OwnCommits(Next(s, actions[0]), actions[1..])
  }

  /** Replays are right in every state of a run exactly when no request of it commits under
      an open claim for another body. */
  lemma {:induction false} RunIsFaithfulExactly(s: State, actions: seq<Action>)
    requires Inv(s) && Faithful(s)
    ensures FaithfulAlong(s, actions) <==> OwnCommits(s, actions)
    decreases actions
  {
    if actions != [] {
      var a := actions[0];
      FaithfulnessIsKeptExactly(s, a);
      if !CompletesForeign(s, a) {
        StepKeepsInv(s, a);
        RunIsFaithfulExactly(Next(s, a), actions[1..]);
      }
    }
  }

  ghost predicate OneBody(actions: seq<Action>, body: nat) {
    forall i :: 0 <= i < |actions| && actions[i].Begin? ==> actions[i].body == body
  }

  ghost predicate AllFor(s: State, body: nat) {
    && (s.row.Some? ==> s.row.value.body == body)
    && (forall w :: w in s.workers ==> s.workers[w].body == body)
  }

  /** With one body under the key every run stays faithful, whatever takeovers, late
      commits and releases it holds. */
  lemma {:induction false} OneBodyIsFaithful(s: State, actions: seq<Action>, body: nat)
    requires Inv(s) && Faithful(s) && AllFor(s, body) && OneBody(actions, body)
    ensures Faithful(Run(s, actions)) && AllFor(Run(s, actions), body)
    decreases actions
  {
    if actions != [] {
      StepKeepsInv(s, actions[0]);
      FaithfulnessIsKeptExactly(s, actions[0]);
      OneBodyIsFaithful(Next(s, actions[0]), actions[1..], body);
    }
  }

  /** Every unfinished request is younger than the lease. */
  ghost predicate Prompt(s: State) {
    forall w :: w in s.workers ==> s.now <= s.workers[w].began + LEASE
  }

  ghost predicate PromptRun(s: State, actions: seq<Action>)
    decreases actions
  {
    Prompt(s) && (actions != [] ==> PromptRun(Next(s, actions[0]), actions[1..]))
  }

  /** The one unfinished request holds the open claim. */
  ghost predicate Owned(s: State) {
    && (forall w :: w in s.workers ==>
          s.row.Some? && s.row.value == Record(s.workers[w].body, None, s.workers[w].began + TTL, s.workers[w].began)
          && s.workers[w].began <= s.now)
    && (forall v, w :: v in s.workers && w in s.workers ==> v == w)
  }

  lemma PromptStepKeepsOwner(s: State, a: Action)
    requires Owned(s) && Prompt(s)
    ensures Owned(Next(s, a))
  {
    match a
    case Begin(request, body) =>
      if MayClaim(s.row, body, s.now) {
        forall w ensures w !in s.workers {}
      }
    case _ =>
  }

  /** If every request ends within the lease, at most one holds the key at a time and every
      replay is faithful, for any mix of bodies. */
  lemma {:induction false} PromptRunsAreFaithful(s: State, actions: seq<Action>)
    requires Inv(s) && Faithful(s) && Owned(s) && PromptRun(s, actions)
    ensures Faithful(Run(s, actions)) && Owned(Run(s, actions))
    decreases actions
  {
    if actions != [] {
      StepKeepsInv(s, actions[0]);
      FaithfulnessIsKeptExactly(s, actions[0]);
      PromptStepKeepsOwner(s, actions[0]);
      PromptRunsAreFaithful(Next(s, actions[0]), actions[1..]);
    }
  }

  /** The run that breaks it. A outlives its lease, B takes over for the same body, A fails
      and releases B's claim, C begins with another body, and B completes C's record. C's
      body now replays the ids of the emails B sent. */
  function LateOwner(): seq<Action> {
    [Begin(0, 1), Tick(LEASE + 1), Begin(1, 1), Fail(0), Begin(2, 2), Finish(1)]
  }

  lemma LateOwnerAnswersAnotherBody(now: int)
    ensures var s := Run(Init(now), LateOwner());
      && |s.commits| == 1 && s.commits[0].body == 1
      && ReadBack(s.row, 2, s.now) == Replay(0)
      && Next(s, Finish(2)).commits == s.commits
  {
    var later := now + LEASE + 1;
    var mine := Record(1, None, later + TTL, later);
    var s0 := Init(now);
    var s1 := State(now, Some(Record(1, None, now + TTL, now)), map[0 := Worker(1, now)], []);
    var s2 := s1.(now := later);
    var s3 := State(later, Some(mine), map[0 := Worker(1, now), 1 := Worker(1, later)], []);
    var s4 := State(later, None, map[1 := Worker(1, later)], []);
    var s5 := State(later, Some(mine.(body := 2)), map[1 := Worker(1, later), 2 := Worker(2, later)], []);
    var s6 := State(later, Some(Record(2, Some(0), later + TTL, later)), map[2 := Worker(2, later)],
                    [Commit(1, later, later + TTL)]);
    assert Next(s0, Begin(0, 1)) == s1;
    assert Next(s1, Tick(LEASE + 1)) == s2;
    assert Next(s2, Begin(1, 1)) == s3;
    assert Next(s3, Fail(0)) == s4 by { assert s3.workers - {0} == s4.workers; }
    assert Next(s4, Begin(2, 2)) == s5;
    assert Next(s5, Finish(1)) == s6 by { assert s5.workers - {1} == s6.workers; }
    RunOfSix(s0, Begin(0, 1), Tick(LEASE + 1), Begin(1, 1), Fail(0), Begin(2, 2), Finish(1));
  }

  lemma RunOfSix(s: State, a: Action, b: Action, c: Action, d: Action, e: Action, f: Action)
    ensures Run(s, [a, b, c, d, e, f]) == Next(Next(Next(Next(Next(Next(s, a), b), c), d), e), f)
  {
    var all := [a, b, c, d, e, f];
    assert all[1..] == [b, c, d, e, f];
    assert [d, e, f][1..] == [e, f] && [e, f][1..] == [f] && [f][1..] == [];
    assert Run(s, all) == Run(Next(s, a), all[1..]);
    assert Run(Next(s, a), [b, c, d, e, f]) == Run(Next(Next(s, a), b), [b, c, d, e, f][1..]);
    assert [b, c, d, e, f][1..] == [c, d, e, f] && [c, d, e, f][1..] == [d, e, f];
    assert Run(Next(Next(s, a), b), [c, d, e, f]) == Run(Next(Next(Next(s, a), b), c), [d, e, f]);
    var t := Next(Next(Next(s, a), b), c);
    assert Run(t, [d, e, f]) == Run(Next(Next(t, d), e), [f]);
  }
}
