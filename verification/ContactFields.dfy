/**
 * What the contact batch leaves in each field, read off the items alone
 * (apps/api/src/app.ts:1014-1078, 1131-1147, 1154-1253).
 */
module ContactFields {
  import opened Common
  import opened Contacts

  /** The item is a valid one for this email. */
  predicate IsFor(items: seq<Item>, k: string, i: nat) {
    i < |items| && items[i].Item? && items[i].key == k
  }

  predicate IsFirst(items: seq<Item>, k: string, i: nat) {
    IsFor(items, k, i) && forall j :: 0 <= j < i ==> !IsFor(items, k, j)
  }

  /** The item's data count: those of the first item of an email, and in upsert mode of all. */
  predicate Counts(items: seq<Item>, mode: Mode, k: string, i: nat) {
    IsFor(items, k, i) && (mode == Upsert || IsFirst(items, k, i))
  }

  /** The last value that a counting item gives. */
  ghost predicate IsLast<T>(items: seq<Item>, mode: Mode, k: string, f: Item -> Option<T>, v: Option<T>) {
    if v.None? then forall i: nat :: Counts(items, mode, k, i) ==> f(items[i]).None?
    else exists i: nat ::
      && Counts(items, mode, k, i) && f(items[i]) == v
      && forall j: nat :: i < j && Counts(items, mode, k, j) ==> f(items[j]).None?
  }

  function FirstName(item: Item): Option<string> {
    if item.Item? then item.first else None
  }

  function LastName(item: Item): Option<string> {
    if item.Item? then item.last else None
  }

  function Choice(item: Item): Option<bool> {
    if item.Item? then item.unsubscribed else None
  }

  function Property(p: string): Item -> Option<string> {
    (item: Item) => if item.Item? && p in item.properties then Some(item.properties[p]) else None
  }

  function Topic(t: nat): Item -> Option<bool> {
    (item: Item) => if item.Item? && t in item.topics then Some(item.topics[t]) else None
  }

  function At<K, V>(m: map<K, V>, k: K): Option<V> {
    if k in m then Some(m[k]) else None
  }

  ghost predicate Names(items: seq<Item>, mode: Mode, k: string, segment: nat) {
    exists i: nat :: Counts(items, mode, k, i) && segment in items[i].segments
  }

  lemma {:induction false} CountsSnoc(items: seq<Item>, item: Item, mode: Mode, k: string, i: nat)
    ensures Counts(items + [item], mode, k, i) <==>
      if i < |items| then Counts(items, mode, k, i)
      else i == |items| && item.Item? && item.key == k && (mode == Upsert || forall j: nat :: !IsFor(items, k, j))
  {
    var all := items + [item];
    assert forall j: nat :: j < |items| ==> all[j] == items[j];
    if i < |items| {
      if IsFirst(items, k, i) {
        forall j | 0 <= j < i ensures !IsFor(all, k, j) { assert !IsFor(items, k, j); }
      }
      if IsFirst(all, k, i) {
        forall j | 0 <= j < i ensures !IsFor(items, k, j) { assert !IsFor(all, k, j); }
      }
    }
    if i == |items| {
      assert all[i] == item;
      if forall j: nat :: !IsFor(items, k, j) {
        forall j | 0 <= j < i ensures !IsFor(all, k, j) { assert !IsFor(items, k, j); }
      }
      if IsFirst(all, k, i) {
        forall j: nat ensures !IsFor(items, k, j) { if j < i { assert !IsFor(all, k, j); } }
      }
    }
  }

  /** One more item: its value where it counts and gives one, and the old one otherwise. */
  lemma {:induction false} IsLastSnoc<T>(items: seq<Item>, item: Item, mode: Mode, k: string, f: Item -> Option<T>,
                                         v: Option<T>)
    requires IsLast(items, mode, k, f, v)
    ensures IsLast(items + [item], mode, k, f,
                   if Counts(items + [item], mode, k, |items|) then Later(v, f(item)) else v)
  {
    var all, n := items + [item], |items|;
    forall i: nat
      ensures Counts(all, mode, k, i) <==> (Counts(items, mode, k, i) || (i == n && Counts(all, mode, k, n)))
    {
      CountsSnoc(items, item, mode, k, i);
    }
    assert all[n] == item && forall i: nat :: i < n ==> all[i] == items[i];
    if v.Some? {
      var i: nat :| Counts(items, mode, k, i) && f(items[i]) == v
        && forall j: nat :: i < j && Counts(items, mode, k, j) ==> f(items[j]).None?;
      if !(Counts(all, mode, k, n) && f(item).Some?) {
        assert Counts(all, mode, k, i) && f(all[i]) == v;
      }
    }
    if Counts(all, mode, k, n) && f(item).Some? { assert f(all[n]) == f(item); }
  }

  lemma {:induction false} NothingYet<T>(items: seq<Item>, mode: Mode, k: string, f: Item -> Option<T>)
    requires forall i: nat :: !IsFor(items, k, i)
    ensures IsLast(items, mode, k, f, None)
  {}

  /** Every field of a row is the last value a counting item gives; its segments are all that
      are named. */
  ghost predicate RowSays(items: seq<Item>, mode: Mode, k: string, row: Row) {
    && IsLast(items, mode, k, FirstName, row.first) && IsLast(items, mode, k, LastName, row.last)
    && IsLast(items, mode, k, Choice, row.unsubscribed)
    && (forall p :: IsLast(items, mode, k, Property(p), At(row.properties, p)))
    && (forall t :: IsLast(items, mode, k, Topic(t), At(row.topics, t)))
    && (forall x :: x in row.segments <==> Names(items, mode, k, x))
    && row.indices != [] && IsFirst(items, k, row.indices[0]) && row.email == items[row.indices[0]].email
  }

  ghost predicate RowsSay(items: seq<Item>, mode: Mode, rows: map<string, Row>) {
    && (forall k :: k in rows <==> exists i: nat :: IsFor(items, k, i))
    && (forall k :: k in rows ==> RowSays(items, mode, k, rows[k]))
  }

  lemma {:induction false} NewRowSays(items: seq<Item>, item: Item, mode: Mode)
    requires item.Item? && forall i: nat :: !IsFor(items, item.key, i)
    ensures RowSays(items + [item], mode, item.key, RowOf(item, |items|))
  {
    var all, k, n := items + [item], item.key, |items|;
    CountsSnoc(items, item, mode, k, n);
    NothingYet(items, mode, k, FirstName);
    IsLastSnoc(items, item, mode, k, FirstName, None);
    NothingYet(items, mode, k, LastName);
    IsLastSnoc(items, item, mode, k, LastName, None);
    NothingYet(items, mode, k, Choice);
    IsLastSnoc(items, item, mode, k, Choice, None);
    forall p ensures IsLast(all, mode, k, Property(p), At(item.properties, p)) {
      NothingYet(items, mode, k, Property(p));
      IsLastSnoc(items, item, mode, k, Property(p), None);
    }
    forall t ensures IsLast(all, mode, k, Topic(t), At(item.topics, t)) {
      NothingYet(items, mode, k, Topic(t));
      IsLastSnoc(items, item, mode, k, Topic(t), None);
    }
    assert all[n] == item;
    forall x ensures x in item.segments <==> Names(all, mode, k, x) {
      OnlyOneNames(items, item, mode, x);
    }
    forall j | 0 <= j < n ensures !IsFor(all, k, j) { assert !IsFor(items, k, j); }
  }

  lemma {:induction false} OnlyOneNames(items: seq<Item>, item: Item, mode: Mode, x: nat)
    requires item.Item? && forall i: nat :: !IsFor(items, item.key, i)
    ensures x in item.segments <==> Names(items + [item], mode, item.key, x)
  {
    var all := items + [item];
    forall i: nat ensures Counts(all, mode, item.key, i) <==> i == |items| {
      CountsSnoc(items, item, mode, item.key, i);
      if i < |items| { assert !IsFor(items, item.key, i); }
    }
    assert all[|items|] == item;
  }

  /** A row an item does not count for stays what it was. */
  lemma {:induction false} OtherRowSays(items: seq<Item>, item: Item, mode: Mode, k: string, row: Row, after: Row)
    requires RowSays(items, mode, k, row) && !Counts(items + [item], mode, k, |items|)
    requires after == row.(indices := after.indices) && after.indices != [] && after.indices[0] == row.indices[0]
    ensures RowSays(items + [item], mode, k, after)
  {
    var all := items + [item];
    IsLastSnoc(items, item, mode, k, FirstName, row.first);
    IsLastSnoc(items, item, mode, k, LastName, row.last);
    IsLastSnoc(items, item, mode, k, Choice, row.unsubscribed);
    forall p ensures IsLast(all, mode, k, Property(p), At(row.properties, p)) {
      IsLastSnoc(items, item, mode, k, Property(p), At(row.properties, p));
    }
    forall t ensures IsLast(all, mode, k, Topic(t), At(row.topics, t)) {
      IsLastSnoc(items, item, mode, k, Topic(t), At(row.topics, t));
    }
    forall x ensures Names(all, mode, k, x) <==> Names(items, mode, k, x) { NamesSnoc(items, item, mode, k, x); }
    FirstStays(items, item, k, row.indices[0]);
  }

  lemma {:induction false} NamesSnoc(items: seq<Item>, item: Item, mode: Mode, k: string, x: nat)
    ensures Names(items + [item], mode, k, x) <==>
      Names(items, mode, k, x) || (Counts(items + [item], mode, k, |items|) && x in item.segments)
  {
    var all := items + [item];
    assert all[|items|] == item && forall i: nat :: i < |items| ==> all[i] == items[i];
    forall i: nat
      ensures Counts(all, mode, k, i) <==>
                (Counts(items, mode, k, i) || (i == |items| && Counts(all, mode, k, |items|)))
    {
      CountsSnoc(items, item, mode, k, i);
    }
    if Names(items, mode, k, x) {
      var i: nat :| Counts(items, mode, k, i) && x in items[i].segments;
      assert Counts(all, mode, k, i) && x in all[i].segments;
    }
  }

  lemma {:induction false} FirstStays(items: seq<Item>, item: Item, k: string, i: nat)
    requires IsFirst(items, k, i)
    ensures IsFirst(items + [item], k, i) && (items + [item])[i] == items[i]
  {
    forall j | 0 <= j < i ensures !IsFor(items + [item], k, j) { assert !IsFor(items, k, j); }
  }

  /** A collapsed item counts, and overrides what it gives. */
  lemma {:induction false} CollapsedRowSays(items: seq<Item>, item: Item, k: string, row: Row)
    requires RowSays(items, Upsert, k, row) && item.Item? && item.key == k
    ensures RowSays(items + [item], Upsert, k, Collapse(row, item, |items|))
  {
    var all, after := items + [item], Collapse(row, item, |items|);
    CountsSnoc(items, item, Upsert, k, |items|);
    IsLastSnoc(items, item, Upsert, k, FirstName, row.first);
    IsLastSnoc(items, item, Upsert, k, LastName, row.last);
    IsLastSnoc(items, item, Upsert, k, Choice, row.unsubscribed);
    forall p ensures IsLast(all, Upsert, k, Property(p), At(after.properties, p)) {
      IsLastSnoc(items, item, Upsert, k, Property(p), At(row.properties, p));
      assert At(after.properties, p) == Later(At(row.properties, p), Property(p)(item));
    }
    forall t ensures IsLast(all, Upsert, k, Topic(t), At(after.topics, t)) {
      IsLastSnoc(items, item, Upsert, k, Topic(t), At(row.topics, t));
      assert At(after.topics, t) == Later(At(row.topics, t), Topic(t)(item));
    }
    forall x ensures x in after.segments <==> Names(all, Upsert, k, x) { NamesSnoc(items, item, Upsert, k, x); }
    FirstStays(items, item, k, row.indices[0]);
    assert after.indices[0] == row.indices[0];
  }

  lemma {:induction false} IsForSnoc(items: seq<Item>, item: Item, k: string)
    ensures (exists i: nat :: IsFor(items + [item], k, i)) <==>
      (exists i: nat :: IsFor(items, k, i)) || (item.Item? && item.key == k)
  {
    var all := items + [item];
    if i: nat :| IsFor(items, k, i) { assert IsFor(all, k, i); }
    if item.Item? && item.key == k { assert IsFor(all, k, |items|); }
    if i: nat :| IsFor(all, k, i) { if i < |items| { assert IsFor(items, k, i); } }
  }

  lemma {:induction false} AddedRowsSay(items: seq<Item>, item: Item, mode: Mode, rows: map<string, Row>)
    requires RowsSay(items, mode, rows)
    ensures RowsSay(items + [item], mode, AddItem(rows, item, |items|, mode))
  {
    var after := AddItem(rows, item, |items|, mode);
    forall k ensures k in after <==> exists i: nat :: IsFor(items + [item], k, i) { IsForSnoc(items, item, k); }
    forall k | k in after ensures RowSays(items + [item], mode, k, after[k]) {
      CountsSnoc(items, item, mode, k, |items|);
      if k !in rows {
        NewRowSays(items, item, mode);
      } else if item.Item? && item.key == k && mode == Upsert {
        CollapsedRowSays(items, item, k, rows[k]);
      } else {
        OtherRowSays(items, item, mode, k, rows[k], after[k]);
      }
    }
  }

  /** The collapsed rows say exactly what the items say. */
  lemma {:induction false} RowsSayTheItems(items: seq<Item>, mode: Mode)
    ensures RowsSay(items, mode, Rows(items, mode))
  {
    if items != [] {
      var n := |items| - 1;
      RowsSayTheItems(items[..n], mode);
      assert items == items[..n] + [items[n]];
      AddedRowsSay(items[..n], items[n], mode, Rows(items[..n], mode));
    }
  }

  // ---- The batch ----------------------------------------------------------

  /** A counting item of the email names a segment or a topic that does not exist. */
  ghost predicate NamesUnknown(items: seq<Item>, mode: Mode, k: string, segments: set<nat>, topics: set<nat>) {
    exists i: nat :: Counts(items, mode, k, i)
      && ((exists x :: x in items[i].segments && x !in segments) || (exists t :: t in items[i].topics && t !in topics))
  }

  lemma {:induction false} UnknownExactly(items: seq<Item>, mode: Mode, k: string, row: Row, segments: set<nat>,
                                          topics: set<nat>)
    requires RowSays(items, mode, k, row)
    ensures NamesUnknown(items, mode, k, segments, topics) <==>
      !(row.segments <= segments) || !(row.topics.Keys <= topics)
  {
    if x :| x in row.segments && x !in segments { assert Names(items, mode, k, x); }
    if t :| t in row.topics && t !in topics {
      assert IsLast(items, mode, k, Topic(t), At(row.topics, t));
      var i: nat :| Counts(items, mode, k, i) && Topic(t)(items[i]) == At(row.topics, t);
      assert t in items[i].topics;
    }
    if i: nat :| Counts(items, mode, k, i) && exists x :: x in items[i].segments && x !in segments {
      var x :| x in items[i].segments && x !in segments;
      assert Names(items, mode, k, x);
    }
    if i: nat :| Counts(items, mode, k, i) && exists t :: t in items[i].topics && t !in topics {
      var t :| t in items[i].topics && t !in topics;
      assert IsLast(items, mode, k, Topic(t), At(row.topics, t));
      assert Topic(t)(items[i]).Some?;
    }
  }

  /** What an item is answered: its own error, a repeated email, a missing association, an
      existing contact, or what was done. */
  ghost function AnswerTo(db: Store, items: seq<Item>, mode: Mode, segments: set<nat>, topics: set<nat>,
                          i: nat): Outcome
    requires i < |items|
  {
    var item := items[i];
    if item.Invalid? then Failed(item.code)
    else if mode == Error && !IsFirst(items, item.key, i) then Failed(422)
    else if NamesUnknown(items, mode, item.key, segments, topics) then Failed(404)
    else if item.key !in db then
      Done(item.key, if mode == Skip && !IsFirst(items, item.key, i) then Skipped else Created)
    else
      match mode
      case Error => Failed(409)
      case Skip => Done(item.key, Skipped)
      case Upsert => Done(item.key, Updated)
  }

  /** What is known of the row of an item. */
  lemma {:induction false} RowOfItem(items: seq<Item>, mode: Mode, i: nat, segments: set<nat>, topics: set<nat>)
    requires i < |items| && items[i].Item? && IsFor(items, items[i].key, i)
    ensures var k, rows := items[i].key, Rows(items, mode);
      && k in rows && rows[k].indices != []
      && (IsFirst(items, k, i) <==> i == rows[k].indices[0])
      && (NamesUnknown(items, mode, k, segments, topics) <==>
            !(rows[k].segments <= segments) || !(rows[k].topics.Keys <= topics))
  {
    RowsSayTheItems(items, mode);
    var k, row := items[i].key, Rows(items, mode)[items[i].key];
    UnknownExactly(items, mode, k, row, segments, topics);
    FirstIsUnique(items, k, row.indices[0], i);
  }

  /** Every item is answered by these rules, in every mode and with any associations. */
  lemma {:induction false} AnswersExactly(db: Store, items: seq<Item>, mode: Mode, segments: set<nat>, topics: set<nat>,
                                          i: nat)
    requires i < |items|
    ensures Answer(db, items, mode, segments, topics, i) == AnswerTo(db, items, mode, segments, topics, i)
  {
    if items[i].Item? { RowOfItem(items, mode, i, segments, topics); }
  }

  lemma {:induction false} FirstIsUnique(items: seq<Item>, k: string, first: nat, i: nat)
    requires IsFirst(items, k, first) && IsFor(items, k, i)
    ensures IsFirst(items, k, i) <==> i == first
  {
    if first < i { assert IsFor(items, k, first); }
  }

  /** A field after the batch: the last value given, or the stored one. */
  ghost predicate FieldIs<T(!new)>(items: seq<Item>, mode: Mode, k: string, f: Item -> Option<T>, stored: Option<T>,
                             after: Option<T>) {
    exists v :: IsLast(items, mode, k, f, v) && after == if v.Some? then v else stored
  }

  /** The contact the batch leaves: every field is the last value given, or as it was; an
      opt-out stays. */
  ghost predicate ContactSays(items: seq<Item>, mode: Mode, k: string, stored: Option<Contact>, c: Contact) {
    && FieldIs(items, mode, k, FirstName, if stored.Some? then stored.value.first else None, c.first)
    && FieldIs(items, mode, k, LastName, if stored.Some? then stored.value.last else None, c.last)
    && (c.unsubscribed <==> (stored.Some? && stored.value.unsubscribed) || IsLast(items, mode, k, Choice, Some(true)))
    && (forall p :: FieldIs(items, mode, k, Property(p), if stored.Some? then At(stored.value.properties, p) else None,
                            At(c.properties, p)))
    && (forall t :: FieldIs(items, mode, k, Topic(t), if stored.Some? then At(stored.value.topics, t) else None,
                            At(c.topics, t)))
    && (forall x :: x in c.segments <==> (stored.Some? && x in stored.value.segments) || Names(items, mode, k, x))
    && (if stored.Some? then c.email == stored.value.email
        else exists i: nat :: IsFirst(items, k, i) && c.email == items[i].email)
  }

  lemma {:induction false} LastIsUnique<T>(items: seq<Item>, mode: Mode, k: string, f: Item -> Option<T>, v: Option<T>,
                                           w: Option<T>)
    requires IsLast(items, mode, k, f, v) && IsLast(items, mode, k, f, w)
    ensures v == w
  {
    if v.Some? && w.Some? {
      var i: nat :| Counts(items, mode, k, i) && f(items[i]) == v
        && forall j: nat :: i < j && Counts(items, mode, k, j) ==> f(items[j]).None?;
      var l: nat :| Counts(items, mode, k, l) && f(items[l]) == w
        && forall j: nat :: l < j && Counts(items, mode, k, j) ==> f(items[j]).None?;
      assert i == l;
    }
  }

  lemma {:induction false} InsertSays(items: seq<Item>, mode: Mode, k: string, row: Row)
    requires RowSays(items, mode, k, row)
    ensures ContactSays(items, mode, k, None, Insert(row))
  {
    var c := Insert(row);
    ChoiceIsLast(items, mode, k, row);
    forall p ensures FieldIs(items, mode, k, Property(p), None, At(c.properties, p)) {
      assert IsLast(items, mode, k, Property(p), At(row.properties, p));
    }
    forall t ensures FieldIs(items, mode, k, Topic(t), None, At(c.topics, t)) {
      assert IsLast(items, mode, k, Topic(t), At(row.topics, t));
    }
  }

  lemma {:induction false} ChoiceIsLast(items: seq<Item>, mode: Mode, k: string, row: Row)
    requires RowSays(items, mode, k, row)
    ensures row.unsubscribed == Some(true) <==> IsLast(items, mode, k, Choice, Some(true))
  {
    if IsLast(items, mode, k, Choice, Some(true)) {
      LastIsUnique(items, mode, k, Choice, Some(true), row.unsubscribed);
    }
  }

  lemma {:induction false} UpdateSays(items: seq<Item>, mode: Mode, k: string, row: Row, stored: Contact)
    requires RowSays(items, mode, k, row)
    ensures ContactSays(items, mode, k, Some(stored), Update(row, stored))
  {
    SkippedExactlyWhenClean(row, stored);
    var c := Update(row, stored);
    ChoiceIsLast(items, mode, k, row);
    forall p ensures FieldIs(items, mode, k, Property(p), At(stored.properties, p), At(c.properties, p)) {
      assert IsLast(items, mode, k, Property(p), At(row.properties, p));
    }
    forall t ensures FieldIs(items, mode, k, Topic(t), At(stored.topics, t), At(c.topics, t)) {
      assert IsLast(items, mode, k, Topic(t), At(row.topics, t));
    }
  }

  /** What is written for one row. */
  lemma {:induction false} WrittenByRow(db: Store, rows: map<string, Row>, mode: Mode, segments: set<nat>,
                                        topics: set<nat>, k: string)
    ensures var after := Written(db, rows, mode, segments, topics);
      var writes := k in rows && rows[k].segments <= segments && rows[k].topics.Keys <= topics
        && (k !in db || mode == Upsert);
      && (k in after <==> k in db || writes)
      && (writes ==> after[k] == if k in db then Update(rows[k], db[k]) else Insert(rows[k]))
      && (k in db && !writes ==> after[k] == db[k])
  {}

  lemma {:induction false} WrittenSays(db: Store, items: seq<Item>, mode: Mode, k: string, row: Row)
    requires RowSays(items, mode, k, row)
    ensures ContactSays(items, mode, k, At(db, k), if k in db then Update(row, db[k]) else Insert(row))
  {
    if k in db { UpdateSays(items, mode, k, row, db[k]); } else { InsertSays(items, mode, k, row); }
  }

  lemma {:induction false} RowOfEmail(items: seq<Item>, mode: Mode, segments: set<nat>, topics: set<nat>, k: string)
    ensures k in Rows(items, mode) <==> exists i: nat :: IsFor(items, k, i)
    ensures k in Rows(items, mode) ==> RowSays(items, mode, k, Rows(items, mode)[k])
    ensures k in Rows(items, mode) ==>
      (NamesUnknown(items, mode, k, segments, topics) <==>
         !(Rows(items, mode)[k].segments <= segments) || !(Rows(items, mode)[k].topics.Keys <= topics))
  {
    RowsSayTheItems(items, mode);
    if k in Rows(items, mode) { UnknownExactly(items, mode, k, Rows(items, mode)[k], segments, topics); }
  }

  /** For any associations: an email is written exactly when it is new or upserted and names
      nothing unknown, and its contact is then what the items say; all else stays. */
  lemma {:induction false} WritesExactly(db: Store, items: seq<Item>, mode: Mode, segments: set<nat>, topics: set<nat>,
                                         k: string)
    ensures var after := Written(db, Rows(items, mode), mode, segments, topics);
      var writes := (exists i: nat :: IsFor(items, k, i)) && !NamesUnknown(items, mode, k, segments, topics)
        && (k !in db || mode == Upsert);
      && (k in after <==> k in db || writes)
      && (writes ==> ContactSays(items, mode, k, At(db, k), after[k]))
      && (k in db && !writes ==> after[k] == db[k])
  {
    var rows := Rows(items, mode);
    RowOfEmail(items, mode, segments, topics, k);
    WrittenByRow(db, rows, mode, segments, topics, k);
    if k in rows { WrittenSays(db, items, mode, k, rows[k]); }
  }
}
