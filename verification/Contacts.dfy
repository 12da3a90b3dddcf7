/**
 * The contact batch: repeated emails are collapsed into one row and written once
 * (apps/api/src/app.ts:1014-1078, 1083-1091, 1131-1147, 1154-1253).
 *
 * Contacts are keyed by their lower-cased email. The whole batch is one atomic step.
 */
module Contacts {
  import opened Common

  datatype Item =
    | Item(email: string, key: string, first: Option<string>, last: Option<string>, unsubscribed: Option<bool>,
           properties: map<string, string>, segments: set<nat>, topics: map<nat, bool>)
    | Invalid(code: nat)

  /** A collapsed row and the items it stands for. */
  datatype Row = Row(
    indices: seq<nat>, email: string, first: Option<string>, last: Option<string>, unsubscribed: Option<bool>,
    properties: map<string, string>, segments: set<nat>, topics: map<nat, bool>)

  datatype Contact = Contact(
    email: string, first: Option<string>, last: Option<string>, unsubscribed: bool,
    properties: map<string, string>, segments: set<nat>, topics: map<nat, bool>)

  datatype Mode = Error | Skip | Upsert

  datatype Status = Created | Updated | Skipped

  datatype Outcome = Done(key: string, status: Status) | Failed(code: nat)

  type Store = map<string, Contact>

  // ---- One row against one contact ----------------------------------------

  function RowOf(item: Item, i: nat): Row
    requires item.Item?
  {
    Row([i], item.email, item.first, item.last, item.unsubscribed, item.properties, item.segments, item.topics)
  }

  function Later<T>(a: Option<T>, b: Option<T>): Option<T> {
    if b.Some? then b else a
  }

  /** Later scalars override, associations union. */
  function Collapse(row: Row, item: Item, i: nat): Row
    requires item.Item?
  {
    Row(row.indices + [i], row.email, Later(row.first, item.first), Later(row.last, item.last),
        Later(row.unsubscribed, item.unsubscribed), row.properties + item.properties,
        row.segments + item.segments, row.topics + item.topics)
  }

  /** A new contact. */
  function Insert(row: Row): Contact {
    Contact(row.email, row.first, row.last, row.unsubscribed == Some(true), row.properties, row.segments, row.topics)
  }

  function PropertiesChange(current: map<string, string>, incoming: map<string, string>): bool {
    exists k :: k in incoming && (k !in current || current[k] != incoming[k])
  }

  function Dirty(row: Row, c: Contact): bool {
    || (row.first.Some? && row.first != c.first)
    || (row.last.Some? && row.last != c.last)
    || (row.unsubscribed == Some(true) && !c.unsubscribed)
    || PropertiesChange(c.properties, row.properties)
  }

  /** Write the scalars of a row over a contact. A batch never re-subscribes anyone. */
  function Write(row: Row, c: Contact): Contact {
    c.(first := Later(c.first, row.first), last := Later(c.last, row.last),
       unsubscribed := c.unsubscribed || row.unsubscribed == Some(true),
       properties := c.properties + row.properties)
  }

  /** An existing contact: the scalars only when something would change, the associations always. */
  function Update(row: Row, c: Contact): Contact {
    var written := if Dirty(row, c) then Write(row, c) else c;
    written.(segments := c.segments + row.segments, topics := c.topics + row.topics)
  }

  /** Update without the shortcut. */
  function Merge(row: Row, c: Contact): Contact {
    Contact(c.email, Later(c.first, row.first), Later(c.last, row.last),
            c.unsubscribed || row.unsubscribed == Some(true), c.properties + row.properties,
            c.segments + row.segments, c.topics + row.topics)
  }

  /** A row is skipped exactly when writing it would change nothing, so the shortcut is
      invisible in what is stored. */
  lemma {:induction false} SkippedExactlyWhenClean(row: Row, c: Contact)
    ensures Dirty(row, c) <==> Write(row, c) != c
    ensures Update(row, c) == Merge(row, c)
  {
    if PropertiesChange(c.properties, row.properties) {
      var k :| k in row.properties && (k !in c.properties || c.properties[k] != row.properties[k]);
      assert (c.properties + row.properties)[k] == row.properties[k];
      assert c.properties + row.properties != c.properties;
    } else {
      assert c.properties + row.properties == c.properties;
    }
  }

  // ---- The batch ----------------------------------------------------------

  /** The collapsed rows of a batch. */
  function Rows(items: seq<Item>, mode: Mode): map<string, Row> {
    if items == [] then map[]
    else
      var n := |items| - 1;
      AddItem(Rows(items[..n], mode), items[n], n, mode)
  }

  function AddItem(rows: map<string, Row>, item: Item, i: nat, mode: Mode): map<string, Row> {
    if item.Invalid? then rows
    else if item.key !in rows then rows[item.key := RowOf(item, i)]
    else
      match mode
      case Error => rows
      case Skip => rows[item.key := rows[item.key].(indices := rows[item.key].indices + [i])]
      case Upsert => rows[item.key := Collapse(rows[item.key], item, i)]
  }

  datatype Verdict = Reject(code: nat) | Leave | Add | Change

  /** What becomes of a row: unknown associations first, then the conflict mode. */
  function Judge(row: Row, exists_: bool, mode: Mode, segments: set<nat>, topics: set<nat>): Verdict {
    if !(row.segments <= segments) then Reject(404)
    else if !(row.topics.Keys <= topics) then Reject(404)
    else if !exists_ then Add
    else if mode == Error then Reject(409)
    else if mode == Skip then Leave
    else Change
  }

  function Outcomes(key: string, v: Verdict, isFirst: bool, mode: Mode): Outcome {
    match v
    case Reject(code) => Failed(code)
    case Leave => Done(key, Skipped)
    case Add => Done(key, if !isFirst && mode == Skip then Skipped else Created)
    case Change => Done(key, Updated)
  }

  /** The contacts after the batch. */
  function Written(db: Store, rows: map<string, Row>, mode: Mode, segments: set<nat>, topics: set<nat>): Store {
    map k | k in db.Keys + (set k | k in rows && Judge(rows[k], k in db, mode, segments, topics).Add?) ::
      if k !in db then Insert(rows[k])
      else if k in rows && Judge(rows[k], true, mode, segments, topics).Change? then Update(rows[k], db[k])
      else db[k]
  }

  /** What item `i` of the batch is answered. */
  function Answer(db: Store, items: seq<Item>, mode: Mode, segments: set<nat>, topics: set<nat>, i: nat): Outcome
    requires i < |items|
  {
    var item := items[i];
    if item.Invalid? then Failed(item.code)
    else
      RowsCoverItems(items, mode);
      var row := Rows(items, mode)[item.key];
      if mode == Error && i != row.indices[0] then Failed(422)
      else Outcomes(item.key, Judge(row, item.key in db, mode, segments, topics), i == row.indices[0], mode)
  }

  /** Each valid item belongs to the row of its key. */
  ghost predicate Covers(items: seq<Item>, mode: Mode, rows: map<string, Row>) {
    forall i :: 0 <= i < |items| && items[i].Item? ==>
      && items[i].key in rows
      && var indices := rows[items[i].key].indices;
      && indices != [] && indices[0] <= i
      && (mode != Error ==> i in indices)
  }

  ghost predicate AreRowsOf(items: seq<Item>, mode: Mode, rows: map<string, Row>) {
    forall k :: k in rows ==> RowIsOf(items, mode, k, rows[k])
  }

  lemma {:induction false} AddKeepsCover(items: seq<Item>, item: Item, mode: Mode, rows: map<string, Row>)
    requires Covers(items, mode, rows) && AreRowsOf(items, mode, rows)
    ensures Covers(items + [item], mode, AddItem(rows, item, |items|, mode))
  {
    var all, after := items + [item], AddItem(rows, item, |items|, mode);
    forall i | 0 <= i < |all| && all[i].Item?
      ensures all[i].key in after && after[all[i].key].indices != [] && after[all[i].key].indices[0] <= i
      ensures mode != Error ==> i in after[all[i].key].indices
    {
      if i < |items| {
        assert items[i].key in rows;
      } else if item.key in rows {
        assert RowIsOf(items, mode, item.key, rows[item.key]);
      }
    }
  }

  lemma {:induction false} AddKeepsRows(items: seq<Item>, item: Item, mode: Mode, rows: map<string, Row>)
    requires AreRowsOf(items, mode, rows)
    ensures AreRowsOf(items + [item], mode, AddItem(rows, item, |items|, mode))
  {
    var after := AddItem(rows, item, |items|, mode);
    forall k | k in after ensures RowIsOf(items + [item], mode, k, after[k]) {
      if k in rows { assert RowIsOf(items, mode, k, rows[k]); }
    }
  }

  /** Each valid item belongs to the row of its key, rows hold their items in order, and
      the first of them opened the row. */
  lemma {:induction false} RowsCoverItems(items: seq<Item>, mode: Mode)
    ensures Covers(items, mode, Rows(items, mode)) && AreRowsOf(items, mode, Rows(items, mode))
  {
    if items != [] {
      var n := |items| - 1;
      RowsCoverItems(items[..n], mode);
      assert items == items[..n] + [items[n]];
      AddKeepsCover(items[..n], items[n], mode, Rows(items[..n], mode));
      AddKeepsRows(items[..n], items[n], mode, Rows(items[..n], mode));
    }
  }

  ghost predicate RowIsOf(items: seq<Item>, mode: Mode, key: string, row: Row) {
    && row.indices != []
    && (forall j :: 0 <= j < |row.indices| ==>
          row.indices[j] < |items| && items[row.indices[j]].Item? && items[row.indices[j]].key == key)
    && (forall j, l :: 0 <= j < l < |row.indices| ==> row.indices[j] < row.indices[l])
    && (mode == Error ==> |row.indices| == 1)
  }

  // ---- One item at a time -------------------------------------------------

  /** The same item as a batch of its own. */
  function Single(db: Store, item: Item, mode: Mode): (Store, Outcome) {
    if item.Invalid? then (db, Failed(item.code))
    else if item.key !in db then (db[item.key := Insert(RowOf(item, 0))], Done(item.key, Created))
    else
      match mode
      case Error => (db, Failed(409))
      case Skip => (db, Done(item.key, Skipped))
      case Upsert => (db[item.key := Update(RowOf(item, 0), db[item.key])], Done(item.key, Updated))
  }

  function OneByOne(db: Store, items: seq<Item>, mode: Mode): Store {
    if items == [] then db
    else Single(OneByOne(db, items[..|items| - 1], mode), items[|items| - 1], mode).0
  }

  function SingleAnswer(db: Store, items: seq<Item>, mode: Mode, i: nat): Outcome
    requires i < |items|
  {
    Single(OneByOne(db, items[..i], mode), items[i], mode).1
  }

  /** A batch of one item is that item alone. */
  lemma {:induction false} BatchOfOne(db: Store, item: Item, mode: Mode, segments: set<nat>, topics: set<nat>)
    requires Known([item], segments, topics)
    ensures Written(db, Rows([item], mode), mode, segments, topics) == Single(db, item, mode).0
    ensures Answer(db, [item], mode, segments, topics, 0) == Single(db, item, mode).1
  {
    RowsOfOne(item, mode);
    if item.Item? {
      var row := RowOf(item, 0);
      assert Known([item], segments, topics) ==> [item][0].segments <= segments && [item][0].topics.Keys <= topics;
      assert row.segments <= segments && row.topics.Keys <= topics;
      assert Written(db, map[item.key := row], mode, segments, topics) == Single(db, item, mode).0;
    } else {
      assert Written(db, map[], mode, segments, topics) == db;
    }
  }

  lemma {:induction false} RowsOfOne(item: Item, mode: Mode)
    ensures Rows([item], mode) == if item.Invalid? then map[] else map[item.key := RowOf(item, 0)]
  {
    assert [item][..0] == [];
    assert Rows([item][..0], mode) == map[];
    assert Rows([item], mode) == AddItem(map[], [item][0], 0, mode);
  }

  /** Every association named in the batch exists. */
  ghost predicate Known(items: seq<Item>, segments: set<nat>, topics: set<nat>) {
    forall i :: 0 <= i < |items| && items[i].Item? ==> items[i].segments <= segments && items[i].topics.Keys <= topics
  }

  /** With known associations no row is turned away for them. */
  lemma {:induction false} RowsAreKnown(items: seq<Item>, mode: Mode, segments: set<nat>, topics: set<nat>)
    requires Known(items, segments, topics)
    ensures forall k :: k in Rows(items, mode) ==>
      Rows(items, mode)[k].segments <= segments && Rows(items, mode)[k].topics.Keys <= topics
  {
    if items != [] {
      var n := |items| - 1;
      assert forall i :: 0 <= i < n ==> items[..n][i] == items[i];
      RowsAreKnown(items[..n], mode, segments, topics);
    }
  }

  // ---- Upsert: the collapse agrees, but for consent -----------------------

  /** Equal in everything but the opt-out. */
  predicate SameButConsent(a: Contact, b: Contact) {
    a == b.(unsubscribed := a.unsubscribed)
  }

  lemma {:induction false} PlusIsAssociative<K, V>(a: map<K, V>, b: map<K, V>, c: map<K, V>)
    ensures a + (b + c) == (a + b) + c
  {}

  /** Writing a collapsed row is writing its parts in turn. */
  lemma {:induction false} CollapseIsSequential(row: Row, item: Item, i: nat, c: Contact)
    requires item.Item?
    ensures SameButConsent(Merge(Collapse(row, item, i), c), Merge(RowOf(item, 0), Merge(row, c)))
    ensures SameButConsent(Insert(Collapse(row, item, i)), Merge(RowOf(item, 0), Insert(row)))
  {
    PlusIsAssociative(c.properties, row.properties, item.properties);
    PlusIsAssociative(c.topics, row.topics, item.topics);
    assert c.segments + (row.segments + item.segments) == (c.segments + row.segments) + item.segments;
  }

  /** What the batch makes of one key. */
  function Result(db: Store, rows: map<string, Row>, k: string): Option<Contact> {
    if k in rows then Some(if k in db then Merge(rows[k], db[k]) else Insert(rows[k]))
    else if k in db then Some(db[k])
    else None
  }

  function Lookup(db: Store, k: string): Option<Contact> {
    if k in db then Some(db[k]) else None
  }

  lemma {:induction false} WrittenPerKey(db: Store, items: seq<Item>, segments: set<nat>, topics: set<nat>, k: string)
    requires Known(items, segments, topics)
    ensures Lookup(Written(db, Rows(items, Upsert), Upsert, segments, topics), k) == Result(db, Rows(items, Upsert), k)
  {
    RowsAreKnown(items, Upsert, segments, topics);
    var rows := Rows(items, Upsert);
    if k in rows && k in db { SkippedExactlyWhenClean(rows[k], db[k]); }
  }

  lemma {:induction false} PerKeyAgrees(db: Store, items: seq<Item>, k: string)
    ensures var batch, single := Result(db, Rows(items, Upsert), k), Lookup(OneByOne(db, items, Upsert), k);
      && (batch.Some? <==> single.Some?)
      && (batch.Some? ==> SameButConsent(batch.value, single.value))
  {
    if items != [] {
      var n := |items| - 1;
      var item := items[n];
      PerKeyAgrees(db, items[..n], k);
      var rows, before := Rows(items[..n], Upsert), OneByOne(db, items[..n], Upsert);
      if item.Item? && item.key == k {
        if k in before { SkippedExactlyWhenClean(RowOf(item, 0), before[k]); }
        if k in rows { CollapseIsSequential(rows[k], item, n, if k in db then db[k] else Insert(rows[k])); }
      }
    }
  }

  /** For every batch whose associations exist, writing the collapsed rows gives the same
      contacts, names, properties, segments and topic choices as upserting the items one
      at a time. */
  lemma {:induction false} CollapseAgrees(db: Store, items: seq<Item>, segments: set<nat>, topics: set<nat>)
    requires Known(items, segments, topics)
    ensures var batch := Written(db, Rows(items, Upsert), Upsert, segments, topics);
      var single := OneByOne(db, items, Upsert);
      batch.Keys == single.Keys && forall k :: k in batch ==> SameButConsent(batch[k], single[k])
  {
    var batch := Written(db, Rows(items, Upsert), Upsert, segments, topics);
    var single := OneByOne(db, items, Upsert);
    forall k ensures k in batch <==> k in single
             ensures k in batch && k in single ==> SameButConsent(batch[k], single[k])
    {
      WrittenPerKey(db, items, segments, topics, k);
      PerKeyAgrees(db, items, k);
      assert k in batch <==> Lookup(batch, k).Some?;
      assert k in single <==> Lookup(single, k).Some?;
    }
  }

  // ---- Upsert: exactly when the opt-out agrees too ------------------------

  /** Some item for the key opts out. */
  predicate AnyOptsOut(items: seq<Item>, k: string) {
    exists i :: 0 <= i < |items| && items[i].Item? && items[i].key == k && items[i].unsubscribed == Some(true)
  }

  /** The last choice an item for the key makes. */
  function LastChoice(items: seq<Item>, k: string): Option<bool> {
    if items == [] then None
    else
      var item := items[|items| - 1];
      if item.Item? && item.key == k && item.unsubscribed.Some? then item.unsubscribed
      else LastChoice(items[..|items| - 1], k)
  }

  lemma {:induction false} BatchTakesLastChoice(items: seq<Item>, k: string)
    ensures k in Rows(items, Upsert) ==> Rows(items, Upsert)[k].unsubscribed == LastChoice(items, k)
    ensures k !in Rows(items, Upsert) ==> LastChoice(items, k) == None
  {
    if items != [] { BatchTakesLastChoice(items[..|items| - 1], k); }
  }

  lemma {:induction false} SingleTakesAnyOptOut(db: Store, items: seq<Item>, k: string)
    ensures k in OneByOne(db, items, Upsert) ==>
      OneByOne(db, items, Upsert)[k].unsubscribed == ((k in db && db[k].unsubscribed) || AnyOptsOut(items, k))
    ensures k !in OneByOne(db, items, Upsert) ==> k !in db && !AnyOptsOut(items, k)
  {
    if items != [] {
      var n := |items| - 1;
      SingleTakesAnyOptOut(db, items[..n], k);
      var item, before := items[n], OneByOne(db, items[..n], Upsert);
      assert AnyOptsOut(items, k) <==>
        AnyOptsOut(items[..n], k) || (item.Item? && item.key == k && item.unsubscribed == Some(true)) by {
        if AnyOptsOut(items[..n], k) {
          var i :| 0 <= i < n && items[..n][i].Item? && items[..n][i].key == k
               && items[..n][i].unsubscribed == Some(true);
          assert items[i].unsubscribed == Some(true);
        }
        if AnyOptsOut(items, k) {
          var i :| 0 <= i < |items| && items[i].Item? && items[i].key == k && items[i].unsubscribed == Some(true);
          if i < n { assert items[..n][i] == items[i]; }
        }
      }
      if item.Item? && item.key == k && k in before { SkippedExactlyWhenClean(RowOf(item, 0), before[k]); }
    }
  }

  /** The opt-out of a contact differs from the one-at-a-time result exactly when it was
      not stored, some item opts out, and the last choice made does not: a later false
      overrides an earlier true before the never-resubscribe rule sees it. */
  lemma {:induction false} ConsentAgreesExactly(db: Store, items: seq<Item>, segments: set<nat>, topics: set<nat>,
                                                k: string)
    requires Known(items, segments, topics)
    requires k in OneByOne(db, items, Upsert)
    ensures var batch := Written(db, Rows(items, Upsert), Upsert, segments, topics);
      && k in batch
      && (batch[k] == OneByOne(db, items, Upsert)[k] <==>
          (k in db && db[k].unsubscribed) || !AnyOptsOut(items, k) || LastChoice(items, k) == Some(true))
  {
    CollapseAgrees(db, items, segments, topics);
    WrittenPerKey(db, items, segments, topics, k);
    var rows, batch := Rows(items, Upsert), Written(db, Rows(items, Upsert), Upsert, segments, topics);
    BatchTakesLastChoice(items, k);
    SingleTakesAnyOptOut(db, items, k);
    LastChoiceIsMade(items, k);
    assert Lookup(batch, k) == Some(batch[k]);
    if k in rows && k in db { SkippedExactlyWhenClean(rows[k], db[k]); }
    assert batch[k].unsubscribed == ((k in db && db[k].unsubscribed) || LastChoice(items, k) == Some(true));
  }

  lemma {:induction false} LastChoiceIsMade(items: seq<Item>, k: string)
    ensures LastChoice(items, k) == Some(true) ==> AnyOptsOut(items, k)
  {
    if items != [] {
      var n := |items| - 1;
      LastChoiceIsMade(items[..n], k);
      if AnyOptsOut(items[..n], k) {
        var i :| 0 <= i < n && items[..n][i].Item? && items[..n][i].key == k
             && items[..n][i].unsubscribed == Some(true);
        assert items[i] == items[..n][i];
      }
    }
  }

  /** An opt-out followed by an opt-in for the same new email: the batch keeps the address
      subscribed, one at a time it is opted out. */
  lemma {:induction false} LaterFalseLosesAnOptOut(email: string)
    ensures var out := Item(email, email, None, None, Some(true), map[], {}, map[]);
      var back := out.(unsubscribed := Some(false));
      var batch, single := Written(map[], Rows([out, back], Upsert), Upsert, {}, {}),
        OneByOne(map[], [out, back], Upsert);
      && email in batch && email in single && !batch[email].unsubscribed && single[email].unsubscribed
  {
    var out := Item(email, email, None, None, Some(true), map[], {}, map[]);
    var back := out.(unsubscribed := Some(false));
    var items := [out, back];
    assert items[..1] == [out] && [out][..0] == [];
    assert Rows([out], Upsert) == map[email := RowOf(out, 0)];
    assert OneByOne(map[], [out], Upsert) == map[email := Insert(RowOf(out, 0))];
  }

  // ---- Skip and error modes -----------------------------------------------

  /** The first item for a key opens its row and is the only one that writes. */
  lemma {:induction false} FirstOneWrites(db: Store, items: seq<Item>, mode: Mode, k: string)
    requires mode != Upsert
    ensures k in Rows(items, mode) ==>
      && Rows(items, mode)[k].indices != [] && Rows(items, mode)[k].indices[0] < |items|
      && var first := items[Rows(items, mode)[k].indices[0]];
      && first.Item?
      && Rows(items, mode)[k] == RowOf(first, 0).(indices := Rows(items, mode)[k].indices)
    ensures var single := OneByOne(db, items, mode);
      && (k in db ==> k in single && single[k] == db[k])
      && (k !in db ==> (k in single <==> k in Rows(items, mode)))
      && (k !in db && k in single ==> single[k] == Insert(Rows(items, mode)[k]))
  {
    if items != [] {
      var n := |items| - 1;
      FirstOneWrites(db, items[..n], mode, k);
      assert forall i :: 0 <= i < n ==> items[..n][i] == items[i];
    }
  }

  /** With skip or error the batch leaves the contacts exactly as one item at a time would. */
  lemma {:induction false} FirstWinsAgrees(db: Store, items: seq<Item>, mode: Mode, segments: set<nat>,
                                           topics: set<nat>)
    requires mode != Upsert && Known(items, segments, topics)
    ensures Written(db, Rows(items, mode), mode, segments, topics) == OneByOne(db, items, mode)
  {
    var batch, single := Written(db, Rows(items, mode), mode, segments, topics), OneByOne(db, items, mode);
    RowsAreKnown(items, mode, segments, topics);
    forall k ensures k in batch <==> k in single
             ensures k in batch && k in single ==> batch[k] == single[k]
    {
      FirstOneWrites(db, items, mode, k);
    }
  }

  /** The item that opened the row of a key. */
  function Opener(items: seq<Item>, mode: Mode, k: string): Option<nat> {
    var rows := Rows(items, mode);
    if k in rows && rows[k].indices != [] then Some(rows[k].indices[0]) else None
  }

  /** A row's opener does not change as more items arrive. */
  lemma {:induction false} OpenerStays(items: seq<Item>, mode: Mode, n: nat, k: string)
    requires n <= |items|
    ensures k in Rows(items[..n], mode) <==> Opener(items, mode, k).Some? && Opener(items, mode, k).value < n
    decreases |items|
  {
    RowsCoverItems(items[..n], mode);
    if n == |items| {
      assert items[..n] == items;
      if k in Rows(items, mode) { assert RowIsOf(items, mode, k, Rows(items, mode)[k]); }
    } else {
      var m := |items| - 1;
      assert items[..m][..n] == items[..n];
      OpenerStays(items[..m], mode, n, k);
      RowsCoverItems(items[..m], mode);
      if k in Rows(items[..m], mode) { assert RowIsOf(items[..m], mode, k, Rows(items[..m], mode)[k]); }
    }
  }

  /** The answers of a skip batch are those of one item at a time; in error mode the same
      items fail, a repeated email as 422 instead of 409; in upsert mode every item of a
      row is answered as its first item would be. */
  lemma {:induction false} AnswersAgree(db: Store, items: seq<Item>, mode: Mode, segments: set<nat>, topics: set<nat>,
                                        i: nat)
    requires Known(items, segments, topics) && i < |items|
    ensures var batch, single := Answer(db, items, mode, segments, topics, i), SingleAnswer(db, items, mode, i);
      match mode
      case Skip => batch == single
      case Error => (batch.Failed? <==> single.Failed?) && (batch.Done? ==> batch == single)
      case Upsert => items[i].Item? ==>
        var first := Opener(items, mode, items[i].key);
        first.Some? && first.value <= i && batch == SingleAnswer(db, items, mode, first.value)
  {
    RowsCoverItems(items, mode);
    RowsAreKnown(items, mode, segments, topics);
    if items[i].Item? {
      var k := items[i].key;
      var f := Rows(items, mode)[k].indices[0];
      assert RowIsOf(items, mode, k, Rows(items, mode)[k]);
      PresenceBefore(db, items, mode, k, i);
      PresenceBefore(db, items, mode, k, f);
    }
  }

  /** Before item `i`, a key is there when it was stored or its row has been opened. */
  lemma {:induction false} PresenceBefore(db: Store, items: seq<Item>, mode: Mode, k: string, i: nat)
    requires i < |items| && k in Rows(items, mode)
    ensures Opener(items, mode, k).Some?
    ensures k in OneByOne(db, items[..i], mode) <==> k in db || Opener(items, mode, k).value < i
  {
    RowsCoverItems(items, mode);
    assert RowIsOf(items, mode, k, Rows(items, mode)[k]);
    OpenerStays(items, mode, i, k);
    if mode == Upsert {
      PerKeyAgrees(db, items[..i], k);
    } else {
      FirstOneWrites(db, items[..i], mode, k);
    }
  }

  // ---- The operation itself -----------------------------------------------

  /** What the first pass over items `..n` has already answered item `j`. */
  function EarlyAnswer(items: seq<Item>, rows: map<string, Row>, mode: Mode, n: nat, j: nat): Option<Outcome>
    requires j < |items|
  {
    if j >= n then None
    else if items[j].Invalid? then Some(Failed(items[j].code))
    else if mode == Error && items[j].key in rows && rows[items[j].key].indices != []
            && rows[items[j].key].indices[0] != j then Some(Failed(422))
    else None
  }

  /** What item `j` is answered once its row is judged; rows to be written stay open until
      they are. */
  function FinalAnswer(db: Store, items: seq<Item>, rows: map<string, Row>, mode: Mode, segments: set<nat>,
                       topics: set<nat>, written: bool, j: nat): Option<Outcome>
    requires j < |items|
  {
    var early := EarlyAnswer(items, rows, mode, |items|, j);
    if early.Some? || items[j].Invalid? || items[j].key !in rows || rows[items[j].key].indices == [] then early
    else
      var row := rows[items[j].key];
      var v := Judge(row, items[j].key in db, mode, segments, topics);
      if v.Reject? || v.Leave? || written then Some(Outcomes(items[j].key, v, j == row.indices[0], mode)) else None
  }

  /** Give every item of a row the row's answer. */
  method AnswerRow(results: seq<Option<Outcome>>, key: string, row: Row, v: Verdict, mode: Mode)
    returns (answered: seq<Option<Outcome>>)
    requires forall l :: 0 <= l < |row.indices| ==> row.indices[l] < |results|
    requires forall j, l :: 0 <= j < l < |row.indices| ==> row.indices[j] < row.indices[l]
    ensures |answered| == |results|
    ensures forall j :: 0 <= j < |results| ==>
      answered[j] == if j in row.indices then Some(Outcomes(key, v, j == row.indices[0], mode)) else results[j]
  {
    answered := results;
    for l := 0 to |row.indices|
      invariant |answered| == |results|
      invariant forall j :: 0 <= j < |results| ==>
        answered[j] == if j in row.indices[..l] then Some(Outcomes(key, v, j == row.indices[0], mode)) else results[j]
    {
      assert row.indices[..l + 1] == row.indices[..l] + [row.indices[l]];
      answered := answered[row.indices[l] := Some(Outcomes(key, v, l == 0, mode))];
    }
    assert row.indices[..|row.indices|] == row.indices;
  }

  /** Judge every row and answer its items. */
  method Classify(db: Store, items: seq<Item>, mode: Mode, rows: map<string, Row>, segments: set<nat>, topics: set<nat>,
                  early: seq<Option<Outcome>>, written: bool)
    returns (results: seq<Option<Outcome>>)
    requires rows == Rows(items, mode) && |early| == |items|
    requires forall j :: 0 <= j < |items| ==> early[j] == EarlyAnswer(items, rows, mode, |items|, j)
    ensures |results| == |items|
    ensures forall j :: 0 <= j < |items| ==>
      results[j] == FinalAnswer(db, items, rows, mode, segments, topics, written, j)
  {
    RowsCoverItems(items, mode);
    results := early;
    var todo := rows.Keys;
    while todo != {}
      invariant |results| == |items| && todo <= rows.Keys
      invariant forall j :: 0 <= j < |items| ==>
        results[j] == if items[j].Item? && items[j].key in todo then early[j]
                      else FinalAnswer(db, items, rows, mode, segments, topics, written, j)
    {
      var key :| key in todo;
      var row := rows[key];
      assert RowIsOf(items, mode, key, row);
      var v := Judge(row, key in db, mode, segments, topics);
      if v.Reject? || v.Leave? || written {
        results := AnswerRow(results, key, row, v, mode);
      }
      todo := todo - {key};
    }
  }

  /** Every failure is known before anything is written. */
  lemma {:induction false} FinalIsAnswer(db: Store, items: seq<Item>, mode: Mode, segments: set<nat>,
                                         topics: set<nat>, j: nat)
    requires j < |items|
    ensures var rows := Rows(items, mode);
      var answer := Answer(db, items, mode, segments, topics, j);
      && FinalAnswer(db, items, rows, mode, segments, topics, true, j) == Some(answer)
      && var unwritten := FinalAnswer(db, items, rows, mode, segments, topics, false, j);
      && (unwritten.Some? ==> unwritten.value == answer)
      && (answer.Failed? ==> unwritten.Some?)
  {
    RowsCoverItems(items, mode);
  }

  ghost predicate AnyFails(db: Store, items: seq<Item>, mode: Mode, segments: set<nat>, topics: set<nat>) {
    exists i :: 0 <= i < |items| && Answer(db, items, mode, segments, topics, i).Failed?
  }

  lemma {:induction false} FailuresAreKnown(db: Store, items: seq<Item>, mode: Mode, segments: set<nat>,
                                            topics: set<nat>, results: seq<Option<Outcome>>)
    requires |results| == |items|
    requires forall j :: 0 <= j < |items| ==>
      results[j] == FinalAnswer(db, items, Rows(items, mode), mode, segments, topics, false, j)
    ensures forall i :: 0 <= i < |items| && results[i].Some? ==>
      results[i].value == Answer(db, items, mode, segments, topics, i)
    ensures AnyFails(db, items, mode, segments, topics) <==>
      (exists i :: 0 <= i < |items| && results[i].Some? && results[i].value.Failed?)
  {
    forall i | 0 <= i < |items|
      ensures results[i].Some? ==> results[i].value == Answer(db, items, mode, segments, topics, i)
      ensures Answer(db, items, mode, segments, topics, i).Failed? ==> results[i].Some?
    {
      FinalIsAnswer(db, items, mode, segments, topics, i);
    }
    if AnyFails(db, items, mode, segments, topics) {
      var i :| 0 <= i < |items| && Answer(db, items, mode, segments, topics, i).Failed?;
      assert results[i].value.Failed?;
    }
  }

  lemma {:induction false} AllAnswered(db: Store, items: seq<Item>, mode: Mode, segments: set<nat>, topics: set<nat>,
                    results: seq<Option<Outcome>>)
    requires |results| == |items|
    requires forall j :: 0 <= j < |items| ==>
      results[j] == FinalAnswer(db, items, Rows(items, mode), mode, segments, topics, true, j)
    ensures forall i :: 0 <= i < |items| ==> results[i] == Some(Answer(db, items, mode, segments, topics, i))
  {
    forall i | 0 <= i < |items| ensures results[i] == Some(Answer(db, items, mode, segments, topics, i)) {
      FinalIsAnswer(db, items, mode, segments, topics, i);
    }
  }

  /** The first pass: collapse the items into rows and answer those that are out already. */
  method Gather(items: seq<Item>, mode: Mode) returns (rows: map<string, Row>, results: seq<Option<Outcome>>)
    ensures rows == Rows(items, mode) && |results| == |items|
    ensures forall j :: 0 <= j < |items| ==> results[j] == EarlyAnswer(items, rows, mode, |items|, j)
  {
    rows := map[];
    results := seq(|items|, i => None);
    for i := 0 to |items|
      invariant |results| == |items| && rows == Rows(items[..i], mode)
      invariant forall j :: 0 <= j < |items| ==> results[j] == EarlyAnswer(items, rows, mode, i, j)
    {
      assert items[..i + 1][..i] == items[..i];
      RowsCoverItems(items[..i], mode);
      var item := items[i];
      ghost var was, had := rows, results;
      if item.Invalid? {
        results := results[i := Some(Failed(item.code))];
      } else if item.key !in rows {
        rows := rows[item.key := RowOf(item, i)];
      } else {
        match mode
        case Error => results := results[i := Some(Failed(422))];
        case Skip => rows := rows[item.key := rows[item.key].(indices := rows[item.key].indices + [i])];
        case Upsert => rows := rows[item.key := Collapse(rows[item.key], item, i)];
      }
      assert rows == AddItem(was, item, i, mode);
      forall j | 0 <= j < |items| ensures results[j] == EarlyAnswer(items, rows, mode, i + 1, j) {
        EarlyStays(items, was, mode, i, j);
      }
    }
    assert items[..|items|] == items;
  }

  /** An early answer does not change as more items arrive. */
  lemma {:induction false} EarlyStays(items: seq<Item>, rows: map<string, Row>, mode: Mode, i: nat, j: nat)
    requires i < |items| && j < |items| && rows == Rows(items[..i], mode)
    ensures j < i ==>
      EarlyAnswer(items, AddItem(rows, items[i], i, mode), mode, i + 1, j) == EarlyAnswer(items, rows, mode, i, j)
  {
    RowsCoverItems(items[..i], mode);
    if j < i && items[j].Item? { assert items[..i][j].key in rows; }
  }

  class ContactStore {
    var contacts: Store

    constructor (contacts: Store)
      ensures this.contacts == contacts
    {
      this.contacts := contacts;
    }

    /** The batch write. In strict mode nothing is written once an item failed. */
    method Batch(items: seq<Item>, mode: Mode, strict: bool, segments: set<nat>, topics: set<nat>)
      returns (results: seq<Option<Outcome>>)
      modifies this
      ensures |results| == |items|
      ensures forall i :: 0 <= i < |items| && results[i].Some? ==>
        results[i].value == Answer(old(contacts), items, mode, segments, topics, i)
      ensures if strict && AnyFails(old(contacts), items, mode, segments, topics) then
          contacts == old(contacts) && exists i :: 0 <= i < |items| && results[i].Some? && results[i].value.Failed?
        else
          && contacts == Written(old(contacts), Rows(items, mode), mode, segments, topics)
          && forall i :: 0 <= i < |items| ==> results[i].Some?
    {
      var db := contacts;
      var rows, early := Gather(items, mode);
      results := Classify(db, items, mode, rows, segments, topics, early, false);
      var failed := exists i :: 0 <= i < |items| && results[i].Some? && results[i].value.Failed?;
      FailuresAreKnown(db, items, mode, segments, topics, results);
      if strict && failed { return; }
      contacts := Written(db, rows, mode, segments, topics);
      results := Classify(db, items, mode, rows, segments, topics, early, true);
      AllAnswered(db, items, mode, segments, topics, results);
    }
  }
}
