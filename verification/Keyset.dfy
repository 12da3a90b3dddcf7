/**
 * Keyset pagination over (created_at, id)
 * (apps/api/src/app.ts:671-695; packages/db/src/keyset.ts:11-21).
 *
 * A table is its rows' sort keys in index order; a row's key never changes.
 */
module Keyset {
  import opened Common

  /** `created` in microseconds, as the database stores it. */
  datatype Key = Key(created: int, id: int)

  predicate Less(a: Key, b: Key) {
    a.created < b.created || (a.created == b.created && a.id < b.id)
  }

  predicate Sorted(t: seq<Key>) {
    forall i, j :: 0 <= i < j < |t| ==> Less(t[i], t[j])
  }

  /** A table: sorted, with one row per id. */
  predicate Table(t: seq<Key>) {
    Sorted(t) && forall i, j :: 0 <= i < j < |t| ==> t[i].id != t[j].id
  }

  // ---- The two queries ----------------------------------------------------

  function LoadCursor(t: seq<Key>, id: int): Option<Key> {
    if t == [] then None else if t[0].id == id then Some(t[0]) else LoadCursor(t[1..], id)
  }

  /** Rows past a cursor, in index order. */
  function Above(t: seq<Key>, c: Key): seq<Key> {
    if t == [] then [] else if Less(c, t[0]) then [t[0]] + Above(t[1..], c) else Above(t[1..], c)
  }

  /** Rows before a cursor, in index order. */
  function Below(t: seq<Key>, c: Key): seq<Key> {
    if t == [] then [] else if Less(t[0], c) then [t[0]] + Below(t[1..], c) else Below(t[1..], c)
  }

  function Reverse(s: seq<Key>): seq<Key> {
    if s == [] then [] else Reverse(s[1..]) + [s[0]]
  }

  function Take(s: seq<Key>, n: nat): seq<Key> {
    if n < |s| then s[..n] else s
  }

  datatype Result = Page(rows: seq<Key>, hasMore: bool) | BadCursor

  /** One page. `before` wins over `after`; one extra row decides whether more follow. */
  function KeysetPage(t: seq<Key>, limit: Option<nat>, after: Option<int>, before: Option<int>): Result {
    var take := limit.GetOr(20);
    var cursorId := if before.Some? then before else after;
    if cursorId.None? then PageOf(Take(t, take + 1), take, false)
    else
      match LoadCursor(t, cursorId.value)
      case None => BadCursor
      case Some(c) =>
        if before.Some? then PageOf(Take(Reverse(Below(t, c)), take + 1), take, true)
        else PageOf(Take(Above(t, c), take + 1), take, false)
  }

  function PageOf(fetched: seq<Key>, limit: nat, newestFirst: bool): Result {
    var rows := Take(fetched, limit);
    Page(if newestFirst then Reverse(rows) else rows, |fetched| > limit)
  }

  // ---- Where a cursor cuts a table ----------------------------------------

  lemma {:induction false} CursorIsFound(t: seq<Key>, i: nat)
    requires Table(t) && i < |t|
    ensures LoadCursor(t, t[i].id) == Some(t[i])
  {
    if i > 0 { CursorIsFound(t[1..], i - 1); }
  }

  lemma {:induction false} CursorIsARow(t: seq<Key>, id: int)
    ensures LoadCursor(t, id).Some? ==> LoadCursor(t, id).value in t && LoadCursor(t, id).value.id == id
  {
    if t != [] { CursorIsARow(t[1..], id); }
  }

  lemma {:induction false} AllAbove(t: seq<Key>, c: Key)
    requires forall i :: 0 <= i < |t| ==> Less(c, t[i])
    ensures Above(t, c) == t && Below(t, c) == []
  {
    if t != [] { AllAbove(t[1..], c); }
  }

  /** The two sides of a row are the rest of the table. */
  lemma {:induction false} CutAt(t: seq<Key>, i: nat)
    requires Sorted(t) && i < |t|
    ensures Above(t, t[i]) == t[i + 1..] && Below(t, t[i]) == t[..i]
  {
    if i == 0 {
      AllAbove(t[1..], t[0]);
    } else {
      CutAt(t[1..], i - 1);
      assert t[1..][i - 1 + 1..] == t[i + 1..];
      assert [t[0]] + t[1..][..i - 1] == t[..i];
    }
  }

  lemma {:induction false} ReverseTwice(s: seq<Key>)
    ensures Reverse(Reverse(s)) == s && |Reverse(s)| == |s|
  {
    if s != [] {
      ReverseTwice(s[1..]);
      ReverseSnoc(Reverse(s[1..]), s[0]);
    }
  }

  lemma {:induction false} ReverseSnoc(s: seq<Key>, x: Key)
    ensures Reverse(s + [x]) == [x] + Reverse(s)
  {
    if s == [] {
      assert s + [x] == [x];
    } else {
      assert (s + [x])[1..] == s[1..] + [x];
      ReverseSnoc(s[1..], x);
    }
  }

  lemma {:induction false} ReverseConcat(a: seq<Key>, b: seq<Key>)
    ensures Reverse(a + b) == Reverse(b) + Reverse(a)
  {
    if a == [] {
      assert a + b == b;
    } else {
      assert (a + b)[1..] == a[1..] + b;
      ReverseConcat(a[1..], b);
    }
  }

  /** The last `n` entries, newest first. */
  lemma TakeReversed(s: seq<Key>, n: nat)
    ensures Reverse(Take(Reverse(s), n)) == s[Max(0, |s| - n)..] && |Reverse(s)| == |s|
  {
    var from := Max(0, |s| - n);
    assert s == s[..from] + s[from..];
    ReverseConcat(s[..from], s[from..]);
    ReverseTwice(s);
    ReverseTwice(s[from..]);
    assert Take(Reverse(s), n) == Reverse(s[from..]);
  }

  lemma PageOfTake(s: seq<Key>, limit: nat, newestFirst: bool)
    ensures PageOf(Take(s, limit + 1), limit, newestFirst)
         == Page(if newestFirst then Reverse(Take(s, limit)) else Take(s, limit), |s| > limit)
  {
    assert Take(Take(s, limit + 1), limit) == Take(s, limit);
  }

  /** A page after row `i` is the next rows of the table. */
  lemma PageAfter(t: seq<Key>, limit: nat, i: nat)
    requires Table(t) && i < |t|
    ensures KeysetPage(t, Some(limit), Some(t[i].id), None) == Page(Take(t[i + 1..], limit), i + 1 + limit < |t|)
  {
    CursorIsFound(t, i);
    CutAt(t, i);
    PageOfTake(t[i + 1..], limit, false);
  }

  /** A page before row `i` is the rows just before it, oldest first. */
  lemma PageBefore(t: seq<Key>, limit: nat, i: nat)
    requires Table(t) && i < |t|
    ensures KeysetPage(t, Some(limit), None, Some(t[i].id)) == Page(t[Max(0, i - limit)..i], limit < i)
  {
    CursorIsFound(t, i);
    CutAt(t, i);
    PageOfTake(Reverse(t[..i]), limit, true);
    TakeReversed(t[..i], limit);
    assert t[..i][Max(0, i - limit)..] == t[Max(0, i - limit)..i];
  }

  /** On a static table `before` the first row of a page is the preceding page, with more
      before it exactly when that page was not the first. */
  lemma BeforeIsThePrecedingPage(t: seq<Key>, limit: nat, start: nat)
    requires Table(t) && 0 < limit && start + limit < |t|
    ensures var page := t[start..start + limit];
      && Page(page, true) == (if start == 0 then KeysetPage(t, Some(limit), None, None)
                              else KeysetPage(t, Some(limit), Some(t[start - 1].id), None))
      && KeysetPage(t, Some(limit), None, Some(t[start + limit].id)) == Page(page, 0 < start)
  {
    PageBefore(t, limit, start + limit);
    if start > 0 {
      PageAfter(t, limit, start - 1);
      assert Take(t[start..], limit) == t[start..start + limit];
    } else {
      PageOfTake(t, limit, false);
    }
  }

  /** The index orders rows by creation and equal creation by id, strictly and totally. */
  lemma OrderIsTotal(a: Key, b: Key)
    ensures a.created < b.created ==> Less(a, b) && !Less(b, a)
    ensures a.created == b.created ==> (Less(a, b) <==> a.id < b.id)
    ensures a == b || Less(a, b) || Less(b, a)
  {}

  /** Which row a request pages from: `before` counts and `after` only without it. An id
      that names no row is refused whatever the limit, any other request gets a page of at
      most its limit, and a request without a limit asks for twenty. */
  lemma {:induction false} RefusesExactly(t: seq<Key>, limit: Option<nat>, after: Option<int>, before: Option<int>)
    ensures var r := KeysetPage(t, limit, after, before);
      var from := if before.Some? then before else after;
      && (r == BadCursor <==> from.Some? && forall k :: k in t ==> k.id != from.value)
      && (r.Page? ==> |r.rows| <= if limit.Some? then limit.value else 20)
      && (before.Some? ==> r == KeysetPage(t, limit, None, before))
      && (limit.None? ==> r == KeysetPage(t, Some(20), after, before))
  {
    var from := if before.Some? then before else after;
    if from.Some? {
      CursorIsARow(t, from.value);
      if LoadCursor(t, from.value).None? { MissingCursor(t, from.value); }
    }
    forall s: seq<Key> ensures |Reverse(s)| == |s| { ReverseTwice(s); }
  }

  lemma {:induction false} MissingCursor(t: seq<Key>, id: int)
    requires LoadCursor(t, id).None?
    ensures forall k :: k in t ==> k.id != id
  {
    if t != [] { MissingCursor(t[1..], id); }
  }

  // ---- Walking a table that changes ---------------------------------------

  /** A walk: one request per table state, each after the last row of the page before it,
      until a page says there is no more. Limits may differ. */
  ghost predicate Walk(tables: seq<seq<Key>>, limits: seq<nat>, cursor: Option<Key>, pages: seq<seq<Key>>)
    requires |limits| == |tables|
  {
    && |pages| == |tables| > 0 && limits[0] > 0
    && var id := if cursor.Some? then Some(cursor.value.id) else None;
    && KeysetPage(tables[0], Some(limits[0]), id, None) == Page(pages[0], |pages| > 1)
    && (|pages| > 1 ==>
          pages[0] != [] && Walk(tables[1..], limits[1..], Some(pages[0][|pages[0]| - 1]), pages[1..]))
  }

  function Concat(pages: seq<seq<Key>>): seq<Key> {
    if pages == [] then [] else pages[0] + Concat(pages[1..])
  }

  /** Rows keep their sort key while tables change. */
  ghost predicate SameKeys(tables: seq<seq<Key>>) {
    forall a, b, k, l :: a in tables && b in tables && k in a && l in b && k.id == l.id ==> k == l
  }

  predicate Past(cursor: Option<Key>, k: Key) {
    cursor.Some? ==> Less(cursor.value, k)
  }

  lemma {:induction false} AboveIsExact(t: seq<Key>, c: Key)
    requires Sorted(t)
    ensures Sorted(Above(t, c)) && forall k :: k in Above(t, c) <==> k in t && Less(c, k)
  {
    if t != [] {
      AboveIsExact(t[1..], c);
      assert forall k :: k in t <==> k == t[0] || k in t[1..];
      forall k | k in Above(t[1..], c) ensures Less(t[0], k) { assert k in t[1..]; }
    }
  }

  /** The rows a request without `before` ranges over. */
  function Candidates(t: seq<Key>, cursor: Option<Key>): seq<Key> {
    if cursor.Some? then Above(t, cursor.value) else t
  }

  lemma CandidatesAreExact(t: seq<Key>, cursor: Option<Key>)
    requires Sorted(t)
    ensures Sorted(Candidates(t, cursor))
    ensures forall k :: k in Candidates(t, cursor) <==> k in t && Past(cursor, k)
  {
    if cursor.Some? { AboveIsExact(t, cursor.value); }
  }

  lemma TakeIsLeast(s: seq<Key>, limit: nat)
    requires Sorted(s) && limit > 0
    ensures var rows := Take(s, limit);
      && Sorted(rows) && (forall k :: k in rows ==> k in s)
      && (forall k :: k in s ==> k in rows || (|s| > limit && Less(rows[|rows| - 1], k)))
  {
    if |s| > limit {
      forall k | k in s ensures k in s[..limit] || Less(s[..limit][limit - 1], k) {
        var i :| 0 <= i < |s| && s[i] == k;
        if i < limit { assert s[..limit][i] == k; }
      }
    }
  }

  /** What one page holds: the least rows past the cursor, all of them when no more follow. */
  lemma PageIsExact(t: seq<Key>, limit: nat, cursor: Option<Key>)
    requires Table(t) && limit > 0
    requires cursor.Some? ==> forall k :: k in t && k.id == cursor.value.id ==> k == cursor.value
    ensures var r := KeysetPage(t, Some(limit), if cursor.Some? then Some(cursor.value.id) else None, None);
      r.Page? ==>
        && Sorted(r.rows)
        && (forall k :: k in r.rows ==> k in t && Past(cursor, k))
        && (r.hasMore ==> |r.rows| == limit)
        && (forall k :: k in t && Past(cursor, k) ==>
              k in r.rows || (r.hasMore && Less(r.rows[|r.rows| - 1], k)))
  {
    if cursor.Some? { CursorIsARow(t, cursor.value.id); }
    var all := Candidates(t, cursor);
    CandidatesAreExact(t, cursor);
    PageOfTake(all, limit, false);
    TakeIsLeast(all, limit);
  }

  /** Walking `after` cursors to the end lists rows in order and at most once, only rows
      that were there when their page was read, and every row that was there throughout. */
  lemma {:induction false} WalkListsStableRowsOnce(tables: seq<seq<Key>>, limits: seq<nat>, cursor: Option<Key>,
                                                   pages: seq<seq<Key>>)
    requires |limits| == |tables| && Walk(tables, limits, cursor, pages)
    requires forall i :: 0 <= i < |tables| ==> Table(tables[i])
    requires SameKeys(tables)
    requires cursor.Some? ==> forall t, k :: t in tables && k in t && k.id == cursor.value.id ==> k == cursor.value
    ensures var listed := Concat(pages);
      && Sorted(listed)
      && (forall k :: k in listed ==> Past(cursor, k) && exists t :: t in tables && k in t)
      && (forall k :: (forall t :: t in tables ==> k in t) && Past(cursor, k) ==> k in listed)
  {
    var page := pages[0];
    PageIsExact(tables[0], limits[0], cursor);
    if |pages| == 1 {
      assert pages == [page] && Concat(pages) == page + Concat([]) == page;
      assert tables[0] in tables;
    } else {
      var last := page[|page| - 1];
      assert tables[0] in tables && forall t :: t in tables[1..] ==> t in tables;
      assert last in tables[0];
      WalkListsStableRowsOnce(tables[1..], limits[1..], Some(last), pages[1..]);
      var rest := Concat(pages[1..]);
      WalkStep(tables, cursor, page, rest);
    }
  }

  /** Joining a page to the rest of its walk. */
  lemma WalkStep(tables: seq<seq<Key>>, cursor: Option<Key>, page: seq<Key>, rest: seq<Key>)
    requires |tables| > 1 && page != [] && Sorted(page) && Sorted(rest)
    requires forall k :: k in page ==> k in tables[0] && Past(cursor, k)
    requires forall k :: k in tables[0] && Past(cursor, k) ==> k in page || Less(page[|page| - 1], k)
    requires forall k :: k in rest ==> Less(page[|page| - 1], k) && exists t :: t in tables[1..] && k in t
    requires forall k :: (forall t :: t in tables[1..] ==> k in t) && Less(page[|page| - 1], k) ==> k in rest
    ensures Sorted(page + rest)
    ensures forall k :: k in page + rest ==> Past(cursor, k) && exists t :: t in tables && k in t
    ensures forall k :: (forall t :: t in tables ==> k in t) && Past(cursor, k) ==> k in page + rest
  {
    var last := page[|page| - 1];
    forall i, j | 0 <= i < j < |page + rest| ensures Less((page + rest)[i], (page + rest)[j]) {
      if i < |page| <= j {
        assert rest[j - |page|] in rest;
        assert i < |page| - 1 ==> Less(page[i], last);
      }
    }
    assert last in page;
    forall k | k in page + rest ensures Past(cursor, k) && exists t :: t in tables && k in t {
      if k in page {
        assert tables[0] in tables;
      } else {
        var t :| t in tables[1..] && k in t;
        assert t in tables;
      }
    }
    forall k | (forall t :: t in tables ==> k in t) && Past(cursor, k) ensures k in page + rest {
      assert tables[0] in tables && forall t :: t in tables[1..] ==> t in tables;
    }
  }

  // ---- Walking a static table ends ----------------------------------------

  function Repeat<T>(x: T, n: nat): (r: seq<T>)
    ensures |r| == n
  {
    if n == 0 then [] else [x] + Repeat(x, n - 1)
  }

  /** The pages of a static table from its row `from` on. The rows that remain are the
      termination measure. */
  function StaticPages(t: seq<Key>, limit: nat, from: nat): seq<seq<Key>>
    requires limit > 0 && from <= |t|
    decreases |t| - from
  {
    if from + limit >= |t| then [t[from..]] else [t[from..from + limit]] + StaticPages(t, limit, from + limit)
  }

  function CursorAt(t: seq<Key>, from: nat): Option<Key>
    requires from <= |t|
  {
    if from == 0 then None else Some(t[from - 1])
  }

  lemma StaticPage(t: seq<Key>, limit: nat, from: nat)
    requires Table(t) && limit > 0 && from <= |t|
    ensures var cursor := CursorAt(t, from);
      KeysetPage(t, Some(limit), if cursor.Some? then Some(cursor.value.id) else None, None)
        == Page(Take(t[from..], limit), from + limit < |t|)
  {
    if from > 0 {
      PageAfter(t, limit, from - 1);
    } else {
      PageOfTake(t, limit, false);
      assert t[0..] == t;
    }
  }

  /** On a static table the walk ends with any limit and lists exactly what remains. */
  lemma {:induction false} StaticWalkEnds(t: seq<Key>, limit: nat, from: nat)
    requires Table(t) && limit > 0 && from <= |t|
    ensures var pages := StaticPages(t, limit, from);
      && Walk(Repeat(t, |pages|), Repeat(limit, |pages|), CursorAt(t, from), pages)
      && Concat(pages) == t[from..]
    decreases |t| - from
  {
    StaticPage(t, limit, from);
    if from + limit >= |t| {
      assert StaticPages(t, limit, from) == [t[from..]];
      assert Repeat(t, 1)[0] == t && Repeat(limit, 1)[0] == limit;
      assert Concat([t[from..]]) == t[from..] + Concat([]);
    } else {
      StaticWalkEnds(t, limit, from + limit);
      StaticStep(t, limit, from);
    }
  }

  lemma StaticStep(t: seq<Key>, limit: nat, from: nat)
    requires Table(t) && limit > 0 && from + limit < |t|
    requires var rest := StaticPages(t, limit, from + limit);
      && Walk(Repeat(t, |rest|), Repeat(limit, |rest|), CursorAt(t, from + limit), rest)
      && Concat(rest) == t[from + limit..]
    ensures var pages := StaticPages(t, limit, from);
      && Walk(Repeat(t, |pages|), Repeat(limit, |pages|), CursorAt(t, from), pages)
      && Concat(pages) == t[from..]
  {
    StaticPage(t, limit, from);
    var page, rest, pages := t[from..from + limit], StaticPages(t, limit, from + limit), StaticPages(t, limit, from);
    assert pages == [page] + rest && pages[0] == page && pages[1..] == rest;
    assert Take(t[from..], limit) == page;
    assert page[|page| - 1] == t[from + limit - 1];
    var ts, ls := Repeat(t, |pages|), Repeat(limit, |pages|);
    assert ts == [t] + Repeat(t, |rest|) && ls == [limit] + Repeat(limit, |rest|);
    assert ts[1..] == Repeat(t, |rest|) && ls[1..] == Repeat(limit, |rest|);
    assert t[from..] == page + t[from + limit..];
  }

  /** It takes the fewest pages that hold the rows, and one when there are none. */
  lemma {:induction false} StaticWalkIsShort(t: seq<Key>, limit: nat, from: nat)
    requires limit > 0 && from <= |t|
    ensures var n := |StaticPages(t, limit, from)|;
      (n - 1) * limit < Max(1, |t| - from) <= Max(1, n * limit) && n >= 1
    decreases |t| - from
  {
    if from + limit < |t| {
      StaticWalkIsShort(t, limit, from + limit);
      var n := |StaticPages(t, limit, from + limit)|;
      assert n * limit == (n - 1) * limit + limit;
      assert (n + 1) * limit == n * limit + limit;
    }
  }

  // ---- Why the cursor is compared inside the database ---------------------

  /** A cursor bound to whole milliseconds readmits its own row whenever that row carries
      microseconds, so the next page starts over with it. */
  lemma MillisecondCursorReadmits(t: seq<Key>, c: Key)
    requires Sorted(t) && c in t && c.created % 1000 != 0
    ensures c in Above(t, Key(c.created - c.created % 1000, c.id))
  {
    AboveIsExact(t, Key(c.created - c.created % 1000, c.id));
  }
}
