/**
 * The first provider Customer of a team
 * (packages/billing/src/mailbox-lifecycle.ts:608-868). The Send checkout claims the same
 * request row in the same two transactions (packages/billing/src/send-checkout.ts:142-216),
 * so its callers are among the creators here.
 */
module Customers {
  import opened Common

  datatype Request = Request(ready: bool, customer: Option<nat>)

  /** `calls` is a history: how many creation calls were sent. A creator is a caller whose
      own insert committed and whose second transaction has not run yet. */
  datatype State = State(customer: Option<nat>, request: Option<Request>, creators: set<nat>, calls: nat)

  datatype Answer = Created(id: nat) | NoAnswer | CommitLost(lost: nat)

  datatype Action =
    | Begin(caller: nat, blocked: bool)
    | Finish(caller: nat, blocked: bool, answer: Answer)
    | Resolve(known: nat, matches: bool)
    | LinkBySend(linked: nat)
    | Crash(caller: nat)

  function Next(s: State, a: Action): State {
    match a
    case Begin(caller, blocked) =>
      if s.customer.Some? || blocked || s.request.Some? || caller in s.creators then s
      else s.(request := Some(Request(false, None)), creators := s.creators + {caller})
    case Finish(caller, blocked, answer) =>
      if caller !in s.creators then s
      else
        var gone := s.(creators := s.creators - {caller});
        if s.customer.Some? || blocked || s.request.None? || s.request.value.ready then gone
        else
          var called := gone.(calls := s.calls + 1);
          if answer.Created? then called.(customer := Some(answer.id), request := Some(Request(true, Some(answer.id))))
          else called
    case Resolve(known, matches) =>
      if s.request.None? || !matches then s
      else if s.request.value.customer.Some? && s.request.value.customer != Some(known) then s
      else if s.customer.Some? && s.customer != Some(known) then s
      else if s.request.value.ready then s
      else s.(customer := Some(known), request := Some(Request(true, Some(known))))
    case LinkBySend(linked) => if s.customer.Some? then s else s.(customer := Some(linked))
    case Crash(caller) => s.(creators := s.creators - {caller})
  }

  function Run(s: State, actions: seq<Action>): State
    decreases actions
  {
    if actions == [] then s else Run(Next(s, actions[0]), actions[1..])
  }

  /** One creation is still possible only while none was sent. */
  predicate Inv(s: State) {
    && s.calls + |s.creators| <= 1
    && (s.request.None? ==> s.calls == 0 && s.creators == {})
    && (s.request.Some? && s.request.value.ready ==> s.request.value.customer.Some? && s.customer.Some?)
  }

  lemma StepKeepsInv(s: State, a: Action)
    requires Inv(s)
    ensures Inv(Next(s, a))
    ensures s.customer.Some? ==> Next(s, a).customer == s.customer
    ensures s.request.Some? ==> Next(s, a).request.Some?
  {
    match a
    case Finish(caller, _, _) =>
      if caller in s.creators { assert |s.creators - {caller}| == |s.creators| - 1; }
    case Crash(caller) =>
      if caller in s.creators {
        assert |s.creators - {caller}| == |s.creators| - 1;
      } else {
        assert s.creators - {caller} == s.creators;
      }
    case _ =>
  }

  // ---- What each action does ----------------------------------------------

  /** The call is sent: by a caller that holds the right, to a team still without a Customer,
      while the request is open and nothing blocks it. */
  predicate Calls(s: State, a: Action) {
    && a.Finish? && a.caller in s.creators && !a.blocked
    && s.customer.None? && s.request.Some? && !s.request.value.ready
  }

  /** A Customer found at the provider settles an open request that names it or no other, for
      a team that has it or none. */
  predicate Resolves(s: State, known: nat, matches: bool) {
    && matches && s.request.Some? && !s.request.value.ready
    && (s.request.value.customer.None? || s.request.value.customer == Some(known))
    && (s.customer.None? || s.customer == Some(known))
  }

  /** Who holds the right to create, when the call is sent, what it links, and what each
      answer leaves of the request. A refused action changes nothing. */
  lemma StepsExactly(s: State, a: Action)
    ensures var t := Next(s, a);
      && t.calls == s.calls + (if Calls(s, a) then 1 else 0)
      && (forall c :: c in t.creators <==>
            (c in s.creators && a != Crash(c) && !(a.Finish? && a.caller == c))
            || (a == Begin(c, false) && s.customer.None? && s.request.None?))
      && t.customer == (if Calls(s, a) && a.answer.Created? then Some(a.answer.id)
                        else if a.Resolve? && Resolves(s, a.known, a.matches) then Some(a.known)
                        else if a.LinkBySend? && s.customer.None? then Some(a.linked)
                        else s.customer)
      && t.request == (if Calls(s, a) && a.answer.Created? then Some(Request(true, Some(a.answer.id)))
                       else if a.Resolve? && Resolves(s, a.known, a.matches) then Some(Request(true, Some(a.known)))
                       else if a.Begin? && !a.blocked && a.caller !in s.creators && s.customer.None? && s.request.None?
                       then Some(Request(false, None))
                       else s.request)
  {}

  /** Nothing linked, nothing asked for. */
  function Start(): State {
    State(None, None, {}, 0)
  }

  lemma {:induction false} RunKeepsInv(s: State, actions: seq<Action>)
    requires Inv(s)
    ensures Inv(Run(s, actions))
    ensures s.customer.Some? ==> Run(s, actions).customer == s.customer
    decreases actions
  {
    if actions != [] {
      StepKeepsInv(s, actions[0]);
      RunKeepsInv(Next(s, actions[0]), actions[1..]);
    }
  }

  /** Over any run from the start a team sends at most one Customer creation call, and a
      Customer once linked is never replaced. */
  lemma AtMostOneCustomerCall(before: seq<Action>, after: seq<Action>)
    ensures var s := Run(Start(), before);
      && Run(s, after).calls <= 1
      && (s.customer.Some? ==> Run(s, after).customer == s.customer)
  {
    RunKeepsInv(Start(), before);
    RunKeepsInv(Run(Start(), before), after);
  }

  /** The call was sent and its answer lost, or its sender died. */
  predicate AnswerLost(s: State) {
    s.creators == {} && s.calls <= 1 && s.customer.None? && s.request == Some(Request(false, None))
  }

  predicate Links(a: Action) {
    a.LinkBySend? || (a.Resolve? && a.matches)
  }

  /** After a lost answer nobody creates again: the team gets a Customer exactly when the Send
      checkout links one or somebody resolves the request to the one that was created. */
  lemma {:induction false} LostAnswerNeedsResolution(s: State, actions: seq<Action>)
    requires AnswerLost(s)
    ensures Run(s, actions).customer.Some? <==> exists a :: a in actions && Links(a)
    ensures Run(s, actions).calls == s.calls
    decreases actions
  {
    if actions != [] {
      var a, t := actions[0], Next(s, actions[0]);
      assert forall b :: b in actions <==> b == a || b in actions[1..];
      StepsExactly(s, a);
      if Links(a) {
        RunKeepsInv(t, actions[1..]);
        LinkedCallsNoMore(t, actions[1..]);
      } else {
        assert t == s;
        LostAnswerNeedsResolution(t, actions[1..]);
      }
    }
  }

  lemma {:induction false} LinkedCallsNoMore(s: State, actions: seq<Action>)
    requires Inv(s) && s.customer.Some?
    ensures Run(s, actions).calls == s.calls
    decreases actions
  {
    if actions != [] {
      StepKeepsInv(s, actions[0]);
      StepsExactly(s, actions[0]);
      LinkedCallsNoMore(Next(s, actions[0]), actions[1..]);
    }
  }
}
