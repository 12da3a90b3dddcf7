/**
 * The swept fixed-window counter (apps/api/src/app.ts:625-650) and the limits built on it
 * (apps/api/src/app.ts:3479-3494, 3549-3555).
 */
module Window {
  import opened Common

  /** Milliseconds. */
  const WINDOW: nat := 60_000
  const SWEEP_SIZE: nat := 10_000

  datatype Hit = Hit(key: string, at: nat)

  datatype Entry = Entry(windowStart: nat, count: nat)

  function Start(now: nat): (w: nat)
    ensures w <= now < w + WINDOW && w % WINDOW == 0
  {
    now - now % WINDOW
  }

  /** Two instants lie in one window or the later window is at least one further on. */
  lemma WindowsStep(a: nat, b: nat)
    requires a <= b
    ensures Start(a) == Start(b) || Start(a) + WINDOW <= Start(b)
    ensures b < a + WINDOW ==> Start(b) == Start(a) || Start(b) == Start(a) + WINDOW
  {
    var q, r := a / WINDOW, b / WINDOW;
    assert Start(a) == q * WINDOW && Start(b) == r * WINDOW;
    assert q <= r;
    if q < r { assert (r - q) * WINDOW >= WINDOW; }
    if r > q + 1 { assert (r - q) * WINDOW >= 2 * WINDOW; }
  }

  /** How often a key was hit in a window, over a whole history. */
  function CountIn(history: seq<Hit>, key: string, window: nat): nat {
    if history == [] then 0
    else
      var h := history[|history| - 1];
      CountIn(history[..|history| - 1], key, window) + if h.key == key && Start(h.at) == window then 1 else 0
  }

  /** The hits of the key in the same minute of the clock. */
  function HitsInMinute(history: seq<Hit>, key: string, now: nat): set<int> {
    set i | 0 <= i < |history| && history[i].key == key && history[i].at / 60_000 == now / 60_000
  }

  lemma {:induction false} HitsAreCounted(history: seq<Hit>, key: string, now: nat)
    ensures CountIn(history, key, Start(now)) == |HitsInMinute(history, key, now)|
  {
    if history != [] {
      HitsAreCounted(history[..|history| - 1], key, now);
      LastHit(history, key, now);
      SameMinute(history[|history| - 1].at, now);
    }
  }

  lemma {:induction false} LastHit(history: seq<Hit>, key: string, now: nat)
    requires history != []
    ensures var n := |history| - 1;
      |HitsInMinute(history, key, now)| == |HitsInMinute(history[..n], key, now)|
        + if history[n].key == key && history[n].at / 60_000 == now / 60_000 then 1 else 0
  {
    var n := |history| - 1;
    var fewer := HitsInMinute(history[..n], key, now);
    assert n !in fewer;
    assert HitsInMinute(history, key, now) ==
      if history[n].key == key && history[n].at / 60_000 == now / 60_000 then fewer + {n} else fewer;
  }

  lemma SameMinute(a: nat, b: nat)
    ensures Start(a) == Start(b) <==> a / 60_000 == b / 60_000
  {
    assert Start(a) == 60_000 * (a / 60_000) && Start(b) == 60_000 * (b / 60_000);
  }

  /** Seconds until the window rolls over, at least one. */
  function RetryAfter(now: nat): nat {
    Max(1, (Start(now) + WINDOW - now + 999) / 1000)
  }

  /** The wait is between 1 and 60 seconds, ends within a second after the window does, and
      always reaches a new window. */
  lemma WaitingReachesANewWindow(now: nat, later: nat)
    requires later >= now + 1000 * RetryAfter(now)
    ensures 1 <= RetryAfter(now) <= 60
    ensures Start(later) > Start(now)
    ensures now + 1000 * RetryAfter(now) < Start(now) + WINDOW + 1000
  {
    WindowsStep(now, later);
  }

  ghost predicate Ordered(history: seq<Hit>) {
    forall i, j :: 0 <= i < j < |history| ==> history[i].at <= history[j].at
  }

  function Stored(hits: map<string, Entry>, key: string, w: nat): nat {
    if key in hits && hits[key].windowStart == w then hits[key].count else 0
  }

  /** The stored entries agree with the history for every window that is not over, and
      none is for a window to come. */
  ghost predicate Agrees(hits: map<string, Entry>, history: seq<Hit>, current: nat) {
    && (forall key, w :: w >= current ==> CountIn(history, key, w) == Stored(hits, key, w))
    && (forall key :: key in hits ==> hits[key].windowStart <= current)
  }

  /** Dropping the entries of windows that are over loses nothing. */
  lemma SweepKeepsCounts(hits: map<string, Entry>, swept: map<string, Entry>, history: seq<Hit>, was: nat, current: nat)
    requires Agrees(hits, history, was) && was <= current
    requires forall key :: key in hits && hits[key].windowStart == current ==> key in swept
    requires forall key :: key in swept ==> key in hits && swept[key] == hits[key]
    ensures Agrees(swept, history, current)
  {
    forall key, w | w >= current ensures CountIn(history, key, w) == Stored(swept, key, w) {
      assert CountIn(history, key, w) == Stored(hits, key, w);
    }
  }

  lemma HitKeepsCounts(hits: map<string, Entry>, history: seq<Hit>, key: string, now: nat)
    requires Agrees(hits, history, Start(now))
    ensures var count := Stored(hits, key, Start(now)) + 1;
      && Agrees(hits[key := Entry(Start(now), count)], history + [Hit(key, now)], Start(now))
      && CountIn(history + [Hit(key, now)], key, Start(now)) == count
  {
    var longer := history + [Hit(key, now)];
    assert longer[..|longer| - 1] == history;
    var after := hits[key := Entry(Start(now), Stored(hits, key, Start(now)) + 1)];
    forall k, w | w >= Start(now) ensures CountIn(longer, k, w) == Stored(after, k, w) {
      assert CountIn(history, k, w) == Stored(hits, k, w);
    }
  }

  /** The entries of a window. */
  function InWindow(hits: map<string, Entry>, window: nat): map<string, Entry> {
    map k | k in hits && hits[k].windowStart == window :: hits[k]
  }

  class FixedWindowCounter {
    var hits: map<string, Entry>
    /** Every hit so far, and the time of the last. */
    ghost var history: seq<Hit>
    ghost var last: nat

    ghost predicate Valid()
      reads this
    {
      Agrees(hits, history, Start(last)) && (history != [] ==> history[|history| - 1].at == last)
    }

    constructor ()
      ensures Valid() && history == [] && last == 0
    {
      hits, history, last := map[], [], 0;
    }

    /** Drop the entries of other windows. */
    method Sweep(windowStart: nat)
      modifies this`hits
      ensures hits == InWindow(old(hits), windowStart)
    {
      var todo := hits.Keys;
      ghost var was := hits;
      while todo != {}
        invariant todo <= was.Keys
        invariant forall key :: key in hits <==> key in was && (key in todo || was[key].windowStart == windowStart)
        invariant forall key :: key in hits ==> hits[key] == was[key]
      {
        var key :| key in todo;
        if hits[key].windowStart != windowStart { hits := hits - {key}; }
        todo := todo - {key};
      }
    }

    /** One hit. With a clock that never runs back the count is the number of hits of this
        key in the current window over the full history, swept or not. */
    method Count(key: string, now: nat) returns (count: nat, retryAfterSec: nat)
      requires Valid() && now >= last
      modifies this
      ensures Valid() && last == now && history == old(history) + [Hit(key, now)]
      ensures count == |HitsInMinute(history, key, now)|
      ensures var entry := Entry(now - now % 60_000, count);
        hits == (if |old(hits)| > 10_000 then InWindow(old(hits), now - now % 60_000) else old(hits))[key := entry]
      ensures 1 <= retryAfterSec <= 60 && now % 60_000 + 1000 * retryAfterSec >= 60_000
      ensures now % 60_000 + 1000 * (retryAfterSec - 1) < 60_000
    {
      var windowStart := Start(now);
      WindowsStep(last, now);
      ghost var was := hits;
      if |hits| > SWEEP_SIZE { Sweep(windowStart); }
      SweepKeepsCounts(was, hits, history, Start(last), windowStart);
      HitKeepsCounts(hits, history, key, now);
      HitsAreCounted(history + [Hit(key, now)], key, now);
      count := if key in hits && hits[key].windowStart == windowStart then hits[key].count + 1 else 1;
      assert count == Stored(hits, key, windowStart) + 1;
      hits := hits[key := Entry(windowStart, count)];
      history, last := history + [Hit(key, now)], now;
      retryAfterSec := RetryAfter(now);
      WaitingReachesANewWindow(now, now + 1000 * retryAfterSec);
    }
  }

  // ---- What a limit on the count lets through -----------------------------

  /** Hit `i` is within the limit at its time. */
  predicate Passes(history: seq<Hit>, limit: nat, i: nat)
    requires i < |history|
  {
    CountIn(history[..i + 1], history[i].key, Start(history[i].at)) <= limit
  }

  /** The hits of a key that pass in a span of time. */
  function PassedIn(history: seq<Hit>, limit: nat, key: string, from: nat, to: nat): nat {
    if history == [] then 0
    else
      var n := |history| - 1;
      PassedIn(history[..n], limit, key, from, to)
      + if history[n].key == key && from <= history[n].at < to && Passes(history, limit, n) then 1 else 0
  }

  /** A window lets through its hits up to the limit and no more. */
  lemma {:induction false} WindowPassesUpToLimit(history: seq<Hit>, limit: nat, key: string, window: nat)
    requires window % WINDOW == 0
    ensures PassedIn(history, limit, key, window, window + WINDOW) == Min(limit, CountIn(history, key, window))
  {
    if history != [] {
      var n := |history| - 1;
      WindowPassesUpToLimit(history[..n], limit, key, window);
      assert history[..n + 1] == history;
      StartIsUnique(history[n].at, window);
    }
  }

  lemma StartIsUnique(at: nat, window: nat)
    requires window % WINDOW == 0
    ensures window <= at < window + WINDOW <==> Start(at) == window
  {
    if window <= at < window + WINDOW { WindowsStep(window, at); }
  }

  /** What passes in a span passes in one of the windows that cover it. */
  lemma {:induction false} SpanIsCovered(history: seq<Hit>, limit: nat, key: string, from: nat, to: nat, window: nat)
    requires window <= from && to <= window + 2 * WINDOW
    ensures PassedIn(history, limit, key, from, to)
         <= PassedIn(history, limit, key, window, window + WINDOW)
          + PassedIn(history, limit, key, window + WINDOW, window + 2 * WINDOW)
  {
    if history != [] { SpanIsCovered(history[..|history| - 1], limit, key, from, to, window); }
  }

  /** At most the limit passes per window, and at most twice the limit in any 60 seconds. */
  lemma AtMostTwiceTheLimitInAMinute(history: seq<Hit>, limit: nat, key: string, from: nat)
    ensures PassedIn(history, limit, key, Start(from), Start(from) + WINDOW) <= limit
    ensures PassedIn(history, limit, key, from, from + WINDOW) <= 2 * limit
  {
    var window := Start(from);
    assert (window + WINDOW) % WINDOW == 0;
    WindowPassesUpToLimit(history, limit, key, window);
    WindowPassesUpToLimit(history, limit, key, window + WINDOW);
    SpanIsCovered(history, limit, key, from, from + WINDOW, window);
  }

  function Burst(key: string, at: nat, n: nat): seq<Hit> {
    if n == 0 then [] else Burst(key, at, n - 1) + [Hit(key, at)]
  }

  /** The bound is reached: a full burst at the end of a window and another right after it
      all pass, within two milliseconds. */
  lemma TwiceTheLimitIsReached(key: string, limit: nat)
    ensures var history := Burst(key, WINDOW - 1, limit) + Burst(key, WINDOW, limit);
      Ordered(history) && PassedIn(history, limit, key, WINDOW - 1, WINDOW + 1) == 2 * limit
  {
    var first := Burst(key, WINDOW - 1, limit);
    BurstPasses([], key, WINDOW - 1, limit, limit, 0);
    assert [] + first == first;
    NoneLater(key, WINDOW - 1, WINDOW, limit);
    BurstPasses(first, key, WINDOW, limit, limit, limit);
    BurstsAreOrdered(key, limit);
  }

  lemma BurstsAreOrdered(key: string, limit: nat)
    ensures Ordered(Burst(key, WINDOW - 1, limit) + Burst(key, WINDOW, limit))
  {
    BurstIsAt(key, WINDOW - 1, limit);
    BurstIsAt(key, WINDOW, limit);
  }

  /** What a history counts and lets through around the burst. */
  ghost predicate Passing(history: seq<Hit>, key: string, at: nat, limit: nat, count: nat, passed: nat) {
    && CountIn(history, key, Start(at)) == count
    && PassedIn(history, limit, key, WINDOW - 1, WINDOW + 1) == passed
  }

  /** A burst in a window the key has not hit yet passes up to the limit. */
  lemma {:induction false} BurstPasses(before: seq<Hit>, key: string, at: nat, limit: nat, n: nat, passed: nat)
    requires n <= limit && Passing(before, key, at, limit, 0, passed) && WINDOW - 1 <= at <= WINDOW
    ensures Passing(before + Burst(key, at, n), key, at, limit, n, passed + n)
  {
    if n == 0 {
      assert before + [] == before;
    } else {
      BurstPasses(before, key, at, limit, n - 1, passed);
      BurstGrows(before, key, at, n - 1);
      LastHitPasses(before + Burst(key, at, n - 1), before + Burst(key, at, n), key, at, limit, n - 1, passed + n - 1);
    }
  }

  lemma BurstGrows(before: seq<Hit>, key: string, at: nat, n: nat)
    ensures before + Burst(key, at, n + 1) == before + Burst(key, at, n) + [Hit(key, at)]
  {}

  lemma LastHitPasses(fewer: seq<Hit>, history: seq<Hit>, key: string, at: nat, limit: nat, count: nat, passed: nat)
    requires history == fewer + [Hit(key, at)] && count < limit && WINDOW - 1 <= at <= WINDOW
    requires Passing(fewer, key, at, limit, count, passed)
    ensures Passing(history, key, at, limit, count + 1, passed + 1)
  {
    assert history[..|history| - 1] == fewer && history[..|history|] == history;
  }

  lemma {:induction false} NoneLater(key: string, at: nat, later: nat, n: nat)
    requires Start(at) != Start(later)
    ensures CountIn(Burst(key, at, n), key, Start(later)) == 0
  {
    if n > 0 {
      NoneLater(key, at, later, n - 1);
      assert Burst(key, at, n)[..n - 1] == Burst(key, at, n - 1) by { BurstIsAt(key, at, n - 1); }
      BurstIsAt(key, at, n);
    }
  }

  lemma {:induction false} BurstIsAt(key: string, at: nat, n: nat)
    ensures |Burst(key, at, n)| == n && forall i :: 0 <= i < n ==> Burst(key, at, n)[i] == Hit(key, at)
  {
    if n > 0 { BurstIsAt(key, at, n - 1); }
  }
}
