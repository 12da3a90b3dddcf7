/**
 * Client submission: who a message goes to, and what the server lets in
 * (apps/smtp/src/mailbox-submission.ts:127-146, 163-229).
 */
module Submission {
  import opened Common
  import Bcc
  import HeaderLines

  const MAX_RCPT: nat := 20
  const MAX_CONNECTIONS_PER_IP: nat := 20
  /** Milliseconds. */
  const FAILURE_WINDOW: int := 15 * 60 * 1000

  // ---- The recipient split ------------------------------------------------

  /** The first occurrence of each, in order. */
  function Dedup(s: seq<string>): seq<string> {
    if s == [] then []
    else
      var before, last := s[..|s| - 1], s[|s| - 1];
      Dedup(before) + if last in before then [] else [last]
  }

  /** The entries of `s` that are not in `drop`, in order. */
  function Without(s: seq<string>, drop: seq<string>): seq<string> {
    if s == [] then []
    else
      var last := s[|s| - 1];
      Without(s[..|s| - 1], drop) + if last in drop then [] else [last]
  }

  /** The first entry of `visible` that is not in the envelope. */
  function Stray(visible: seq<string>, envelope: seq<string>): Option<string> {
    if visible == [] then None
    else if visible[0] !in envelope then Some(visible[0])
    else Stray(visible[1..], envelope)
  }

  datatype Verdict = Draft(bcc: seq<string>, raw: string) | Refused(code: nat)

  /** What the client declared. Addresses are lower-cased; `visible` are those of To and Cc. */
  datatype Message = Message(mailFrom: string, from: seq<string>, rcptTo: seq<string>,
                             visible: seq<string>, raw: string)

  function Submit(enabled: bool, identity: string, m: Message): Verdict {
    var envelope := Dedup(m.rcptTo);
    if !enabled then Refused(451)
    else if |m.from| != 1 || m.from[0] != identity || m.mailFrom != identity then Refused(553)
    else if Stray(m.visible, envelope).Some? then Refused(if |envelope| >= MAX_RCPT then 452 else 554)
    else
      var bcc := Without(envelope, m.visible);
      Draft(bcc, Bcc.Rewrite(m.raw, bcc))
  }

  predicate NoRepeats(s: seq<string>) {
    forall i, j :: 0 <= i < j < |s| ==> s[i] != s[j]
  }

  lemma {:induction false} DedupIsExact(s: seq<string>)
    ensures NoRepeats(Dedup(s)) && forall a :: a in Dedup(s) <==> a in s
  {
    if s != [] {
      var before, last := s[..|s| - 1], s[|s| - 1];
      DedupIsExact(before);
      assert s == before + [last];
    }
  }

  lemma {:induction false} WithoutIsExact(s: seq<string>, drop: seq<string>)
    requires NoRepeats(s)
    ensures NoRepeats(Without(s, drop)) && forall a :: a in Without(s, drop) <==> a in s && a !in drop
  {
    if s != [] {
      var before, last := s[..|s| - 1], s[|s| - 1];
      WithoutIsExact(before, drop);
      assert s == before + [last];
      assert last !in before;
    }
  }

  lemma {:induction false} StrayIsFirst(visible: seq<string>, envelope: seq<string>)
    ensures Stray(visible, envelope).None? <==> forall a :: a in visible ==> a in envelope
  {
    if visible != [] {
      StrayIsFirst(visible[1..], envelope);
      assert visible == [visible[0]] + visible[1..];
    }
  }

  /** Where `a` is first named. */
  function FirstAt(s: seq<string>, a: string): nat {
    if s == [] || s[0] == a then 0 else 1 + FirstAt(s[1..], a)
  }

  predicate InOrder(part: seq<string>, whole: seq<string>) {
    forall i, j :: 0 <= i < j < |part| ==> FirstAt(whole, part[i]) < FirstAt(whole, part[j])
  }

  lemma {:induction false} FirstAtGrows(s: seq<string>, last: string, a: string)
    ensures a in s ==> FirstAt(s + [last], a) == FirstAt(s, a) < |s|
    ensures a !in s ==> FirstAt(s, a) == |s| && FirstAt(s + [last], a) >= |s|
  {
    if s != [] {
      assert (s + [last])[1..] == s[1..] + [last] && s == [s[0]] + s[1..];
      FirstAtGrows(s[1..], last, a);
    }
  }

  lemma {:induction false} DedupIsInOrder(s: seq<string>)
    ensures InOrder(Dedup(s), s)
  {
    if s != [] {
      var before, last := s[..|s| - 1], s[|s| - 1];
      DedupIsInOrder(before);
      DedupIsExact(before);
      assert s == before + [last];
      forall a ensures a in before ==> FirstAt(s, a) == FirstAt(before, a) < |before|
        ensures a !in before ==> FirstAt(s, a) >= |before|
      {
        FirstAtGrows(before, last, a);
      }
      forall i, j | 0 <= i < j < |Dedup(s)| ensures FirstAt(s, Dedup(s)[i]) < FirstAt(s, Dedup(s)[j]) {
        assert Dedup(s)[i] in before;
        if j < |Dedup(before)| { assert Dedup(s)[j] in before; }
      }
    }
  }

  lemma {:induction false} WithoutIsInOrder(s: seq<string>, drop: seq<string>, whole: seq<string>)
    requires InOrder(s, whole)
    ensures InOrder(Without(s, drop), whole) && forall a :: a in Without(s, drop) ==> a in s
    ensures s != [] ==> forall a :: a in Without(s, drop) && a != s[|s| - 1] ==> a in s[..|s| - 1]
  {
    if s != [] {
      var before, last := s[..|s| - 1], s[|s| - 1];
      WithoutIsInOrder(before, drop, whole);
      var kept := Without(before, drop);
      forall i | 0 <= i < |kept| ensures FirstAt(whole, kept[i]) < FirstAt(whole, last) {
        assert kept[i] in before;
        var k :| 0 <= k < |before| && before[k] == kept[i];
        assert s[k] == kept[i];
      }
    }
  }

  /** A message is drafted exactly when it is from the mailbox's own address and To and Cc
      stay inside the envelope, and then To, Cc and Bcc together are the envelope, each
      hidden recipient once, none of them visible, in the order they were first named. A
      paused server answers 451 and a foreign sender 553. A stray recipient is refused with
      452 when the envelope is full and 554 otherwise. */
  lemma {:induction false} DraftNamesTheEnvelope(enabled: bool, identity: string, m: Message)
    ensures var v := Submit(enabled, identity, m);
      var own := m.from == [identity] && m.mailFrom == identity;
      var inside := forall a :: a in m.visible ==> a in m.rcptTo;
      && (v.Draft? <==> enabled && own && inside)
      && (v.Draft? ==> (NoRepeats(v.bcc)
                        && (forall a :: a in m.rcptTo <==> a in m.visible || a in v.bcc)
                        && (forall a :: !(a in m.visible && a in v.bcc)) && InOrder(v.bcc, m.rcptTo)))
      && (!enabled ==> v == Refused(451)) && (enabled && !own ==> v == Refused(553))
      && (enabled && own && !inside ==> v == Refused(if |set a | a in m.rcptTo| >= 20 then 452 else 554))
  {
    var envelope := Dedup(m.rcptTo);
    DedupIsExact(m.rcptTo);
    StrayIsFirst(m.visible, envelope);
    SizeOfSet(envelope);
    assert (set a | a in m.rcptTo) == set a | a in envelope;
    if Submit(enabled, identity, m).Draft? { HiddenAreTheRest(m); }
  }

  lemma {:induction false} HiddenAreTheRest(m: Message)
    requires forall a :: a in m.visible ==> a in m.rcptTo
    ensures var bcc := Without(Dedup(m.rcptTo), m.visible);
      && NoRepeats(bcc) && InOrder(bcc, m.rcptTo)
      && (forall a :: a in m.rcptTo <==> a in m.visible || a in bcc) && (forall a :: !(a in m.visible && a in bcc))
  {
    DedupIsExact(m.rcptTo);
    DedupIsInOrder(m.rcptTo);
    WithoutIsExact(Dedup(m.rcptTo), m.visible);
    WithoutIsInOrder(Dedup(m.rcptTo), m.visible, m.rcptTo);
  }

  lemma {:induction false} SizeOfSet(s: seq<string>)
    requires NoRepeats(s)
    ensures |set a | a in s| == |s|
  {
    if s != [] {
      var before, last := s[..|s| - 1], s[|s| - 1];
      SizeOfSet(before);
      assert s == before + [last];
      assert (set a | a in s) == (set a | a in before) + {last};
    }
  }

  /** The draft's only Bcc field is the new one, and every other field and the body are the
      client's own, exactly when no stray CR meets a bare LF and the new field fits. */
  lemma {:induction false} DraftKeepsTheMessage(enabled: bool, identity: string, m: Message)
    requires Submit(enabled, identity, m).Draft? && HeaderLines.Split(m.raw).Some?
    ensures var v := Submit(enabled, identity, m);
      Bcc.SameMessage(m.raw, v.bcc, v.raw) <==>
        !Bcc.StrayCr(m.raw, v.bcc) && Bcc.FieldFits(v.bcc, HeaderLines.Rest(m.raw))
    ensures var others := Bcc.Others(Bcc.Fields(HeaderLines.Lines(HeaderLines.Head(m.raw))));
      forall f :: f in others ==> f != [] && !Bcc.IsBcc(f[0])
  {
    Bcc.OtherFieldsAndBodyStay(m.raw, Submit(enabled, identity, m).bcc);
  }

  // ---- What the server lets in --------------------------------------------

  function Occupied(admitted: set<nat>, address: map<nat, string>, ip: string): set<nat> {
    set s | s in admitted && s in address && address[s] == ip
  }

  /** Each address's count is the number of its admitted sessions, within the limit; an
      address without any has no entry. */
  ghost predicate Counted(connections: map<string, nat>, admitted: set<nat>, address: map<nat, string>) {
    && (forall ip :: ip in connections ==>
          connections[ip] == |Occupied(admitted, address, ip)| && 0 < connections[ip] <= MAX_CONNECTIONS_PER_IP)
    && (forall ip :: ip !in connections ==> Occupied(admitted, address, ip) == {})
  }

  function Open(connections: map<string, nat>, ip: string): nat {
    if ip in connections then connections[ip] else 0
  }

  lemma {:induction false} NewSessionIsNotCounted(connections: map<string, nat>, admitted: set<nat>,
                                                  address: map<nat, string>, s: nat, ip: string)
    requires Counted(connections, admitted, address) && s !in admitted
    ensures Counted(connections, admitted, address[s := ip])
  {
    forall other ensures Occupied(admitted, address[s := ip], other) == Occupied(admitted, address, other) {}
  }

  lemma {:induction false} AdmittedIsCounted(connections: map<string, nat>, admitted: set<nat>,
                                             address: map<nat, string>, s: nat, ip: string)
    requires Counted(connections, admitted, address) && s !in admitted && s in address && address[s] == ip
    requires Open(connections, ip) < MAX_CONNECTIONS_PER_IP
    ensures Counted(connections[ip := Open(connections, ip) + 1], admitted + {s}, address)
  {
    var more := admitted + {s};
    var mine := Occupied(admitted, address, ip);
    assert Occupied(more, address, ip) == mine + {s} && s !in mine;
    assert |mine| == Open(connections, ip);
    var after := connections[ip := Open(connections, ip) + 1];
    forall other | other != ip ensures Occupied(more, address, other) == Occupied(admitted, address, other) {}
    assert after[ip] == |Occupied(more, address, ip)|;
  }

  lemma {:induction false} ClosedIsNotCounted(connections: map<string, nat>, admitted: set<nat>,
                                              address: map<nat, string>, s: nat, ip: string)
    requires Counted(connections, admitted, address) && s in admitted && s in address && address[s] == ip
    ensures ip in connections
    ensures Counted(if connections[ip] == 1 then connections - {ip} else connections[ip := connections[ip] - 1],
                    admitted - {s}, address)
  {
    assert s in Occupied(admitted, address, ip);
    forall other ensures Occupied(admitted - {s}, address, other)
      == Occupied(admitted, address, other) - (if other == ip then {s} else {}) {}
    assert |Occupied(admitted - {s}, address, ip)| == |Occupied(admitted, address, ip)| - 1;
  }

  function FailuresSince(history: seq<(string, int)>, key: string, since: int): nat {
    if history == [] then 0
    else
      var last := history[|history| - 1];
      FailuresSince(history[..|history| - 1], key, since) + if last.0 == key && last.1 > since then 1 else 0
  }

  /** The failures of the key that are younger. */
  function FailedAt(history: seq<(string, int)>, key: string, since: int): set<int> {
    set i | 0 <= i < |history| && history[i].0 == key && history[i].1 > since
  }

  lemma {:induction false} FailuresAreCounted(history: seq<(string, int)>, key: string, since: int)
    ensures FailuresSince(history, key, since) == |FailedAt(history, key, since)|
  {
    if history != [] {
      FailuresAreCounted(history[..|history| - 1], key, since);
      LastFailure(history, key, since);
    }
  }

  lemma {:induction false} LastFailure(history: seq<(string, int)>, key: string, since: int)
    requires history != []
    ensures var n := |history| - 1;
      |FailedAt(history, key, since)| ==
        |FailedAt(history[..n], key, since)| + if history[n].0 == key && history[n].1 > since then 1 else 0
  {
    var n := |history| - 1;
    var fewer := FailedAt(history[..n], key, since);
    assert n !in fewer;
    assert FailedAt(history, key, since) == if history[n].0 == key && history[n].1 > since then fewer + {n} else fewer;
  }

  function CountSince(times: seq<int>, since: int): nat {
    if times == [] then 0
    else CountSince(times[..|times| - 1], since) + if times[|times| - 1] > since then 1 else 0
  }

  function Newer(times: seq<int>, since: int): seq<int> {
    if times == [] then []
    else Newer(times[..|times| - 1], since) + if times[|times| - 1] > since then [times[|times| - 1]] else []
  }

  lemma {:induction false} NewerCounts(times: seq<int>, since: int, later: int)
    requires since <= later
    ensures CountSince(Newer(times, since), later) == CountSince(times, later)
    ensures |Newer(times, since)| == CountSince(times, since)
  {
    if times != [] {
      var last, fewer := times[|times| - 1], Newer(times[..|times| - 1], since);
      NewerCounts(times[..|times| - 1], since, later);
      if last > since { assert (fewer + [last])[..|fewer|] == fewer; } else { assert fewer + [] == fewer; }
    }
  }

  class SubmissionServer {
    var connectionsByIp: map<string, nat>
    var admitted: set<nat>
    var failures: map<string, seq<int>>
    /** The address each session came from, every failure, and the latest time seen. */
    ghost var address: map<nat, string>
    ghost var history: seq<(string, int)>
    ghost var clock: int

    /** The stored times still answer every window that may be asked for. */
    ghost predicate FailuresValid()
      reads this
    {
      forall key, since :: since >= clock - FAILURE_WINDOW ==>
        FailuresSince(history, key, since) == if key in failures then CountSince(failures[key], since) else 0
    }

    ghost predicate Valid()
      reads this
    {
      && (forall s :: s in admitted ==> s in address)
      && Counted(connectionsByIp, admitted, address)
      && FailuresValid()
    }

    constructor ()
      ensures Valid() && admitted == {} && history == []
    {
      connectionsByIp, admitted, failures := map[], {}, map[];
      address, history, clock := map[], [], 0;
    }

    /** A connection is let in while its address has fewer than the limit open. */
    method OnConnect(session: nat, ip: string) returns (accepted: bool)
      requires Valid() && session !in address
      modifies this`connectionsByIp, this`admitted, this`address
      ensures Valid()
      ensures accepted <==> |set s | s in old(admitted) && old(address)[s] == ip| < 20
      ensures admitted == if accepted then old(admitted) + {session} else old(admitted)
      ensures address == old(address)[session := ip]
    {
      var open := Open(connectionsByIp, ip);
      NewSessionIsNotCounted(connectionsByIp, admitted, address, session, ip);
      address := address[session := ip];
      assert (set s | s in old(admitted) && old(address)[s] == ip) == Occupied(old(admitted), old(address), ip);
      if open >= MAX_CONNECTIONS_PER_IP { return false; }
      AdmittedIsCounted(connectionsByIp, admitted, address, session, ip);
      connectionsByIp := connectionsByIp[ip := open + 1];
      admitted := admitted + {session};
      accepted := true;
    }

    /** Closing gives back exactly what an admitted session took, once. */
    method OnClose(session: nat, ip: string)
      requires Valid() && session in address && address[session] == ip
      modifies this`connectionsByIp, this`admitted
      ensures Valid() && admitted == old(admitted) - {session}
    {
      if session !in admitted {
        assert admitted - {session} == admitted;
        return;
      }
      ClosedIsNotCounted(connectionsByIp, admitted, address, session, ip);
      var open := (if ip in connectionsByIp then connectionsByIp[ip] else 1) - 1;
      admitted := admitted - {session};
      connectionsByIp := if open <= 0 then connectionsByIp - {ip} else connectionsByIp[ip := open];
    }

    /** Forgets what is older than the window and counts the rest: the number of failures
        of the key in the last window over the full history. */
    method Recent(key: string, now: int) returns (count: nat)
      requires Valid() && now >= clock
      modifies this`failures, this`clock
      ensures Valid() && clock == now
      ensures count == |FailedAt(history, key, now - 900_000)|
    {
      var since := now - FAILURE_WINDOW;
      var times := if key in failures then failures[key] else [];
      var kept := Newer(times, since);
      NewerCounts(times, since, since);
      ghost var was := failures;
      failures := if kept != [] then failures[key := kept] else failures - {key};
      count := |kept|;
      FailuresAreCounted(history, key, since);
      forall k, s | s >= since
        ensures FailuresSince(history, k, s) == if k in failures then CountSince(failures[k], s) else 0
      {
        assert FailuresSince(history, k, s) == if k in was then CountSince(was[k], s) else 0;
        if k == key { NewerCounts(times, since, s); }
      }
      clock := now;
    }

    method Fail(key: string, now: int)
      requires Valid() && now >= clock
      modifies this`failures, this`clock, this`history
      ensures Valid() && clock == now && history == old(history) + [(key, now)]
    {
      var times := if key in failures then failures[key] else [];
      ghost var was, before := failures, history;
      failures := failures[key := times + [now]];
      history := history + [(key, now)];
      assert history[..|before|] == before && (times + [now])[..|times|] == times;
      forall k, s | s >= now - FAILURE_WINDOW
        ensures FailuresSince(history, k, s) == if k in failures then CountSince(failures[k], s) else 0
      {
        assert FailuresSince(before, k, s) == if k in was then CountSince(was[k], s) else 0;
      }
      clock := now;
    }
  }
}
