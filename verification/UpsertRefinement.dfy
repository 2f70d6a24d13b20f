/** Adding scraped items by key to the buckets is adding them to a plain map: new ones are created, changed ones
    replaced. */
module UpsertRefinement {
  import opened Options
  import opened ByteStrings
  import opened Buckets
  import opened UniqueIndexes
  import opened RecordIds
  import opened Fields
  import opened IndexKeys
  import opened Joins
  import opened Records
  import opened RecordStore
  import opened RecordOrder

  datatype Outcome = Refused | New | Same | Changed

  // ---------- what adding means ----------

  /** A plain map from key values to data, and the unique values that are taken. */
  datatype Plain = Plain(entries: map<Bytes, ModelData>, taken: set<Bytes>)

  /** The unique value counts only where there is a unique key. */
  function UniqueOf(unique: Option<string>, value: Bytes): Option<Bytes> {
    if unique.Some? then Some(value) else None
  }

  /** Adding to the plain map. What is compared is what was added before, as it comes back from the store; a torrent
      item equals nothing that is found. */
  function PlainAdd(p: Plain, value: Bytes, r: Record, unique: Option<Bytes>): (Plain, Outcome) {
    if value in p.entries && r.torrent.None? && DataBack(p.entries[value]) == r.data then (p, Same)
    else if !Writable(r) then (p, Refused)
    else if value in p.entries then (p.(entries := p.entries[value := r.data]), Changed)
    else if !IsKey(value) || (unique.Some? && (unique.value in p.taken || !IsKey(unique.value))) then (p, Refused)
    else (Plain(p.entries[value := r.data], if unique.Some? then p.taken + {unique.value} else p.taken), New)
  }

  /** Adding an item again with the data that is there is no change exactly if it is no torrent item and every field
      comes back from the store as it was: texts in UTF-8, flags, float64s and nil do, other numbers, times and lists
      do not. */
  lemma ReaddedIsSameExactly(p: Plain, value: Bytes, r: Record, unique: Option<Bytes>)
    requires value in p.entries && p.entries[value] == r.data && Writable(r)
    ensures PlainAdd(p, value, r, unique).1 ==
            if r.torrent.None? && forall k <- r.data.Keys :: ComesBack(r.data[k]) then Same else Changed
  {
    DataBackExactly(r.data);
  }

  // ---------- what the store does ----------

  /** The committed buckets and the names known in memory. */
  datatype Db = Db(results: Option<State>, known: set<string>)

  function BucketOf(db: Db): State {
    if db.results.Some? then db.results.value else EMPTY
  }

  /** One item that has its key: `queried` and `primary` are the indexes that are read and written, under the
      values that the query and the item give. */
  function StoreAdd(db: Db, queried: string, sought: Bytes, primary: string, value: Bytes,
                    unique: Option<string>, uniqueValue: Bytes, r: Record): (Db, Outcome) {
    var found := Lookup(BucketOf(db), queried, sought);
    var after := Db(AfterFind(db.results, db.known, queried), KnownAfterFind(db.results, db.known, queried, sought));
    var s := BucketOf(after);
    if found.None? then
      var t := Created(s, after.known, primary, value, r, unique, uniqueValue);
      (Db(if t.Some? then t else after.results, KnownAfter(s, after.known, primary, value, r, unique)),
       if t.Some? then New else Refused)
    else if (r.torrent.None? && found.value.data == r.data) || sought !in RowsOf(s, queried) then (after, Same)
    else if !Writable(r) then (Db(after.results, after.known + {queried}), Refused)
    else (Db(Some(Updated(Opened(s, after.known, queried), queried, sought, r)), after.known + {queried}), Changed)
  }

  // ---------- the buckets agree with one plain map ----------

  /** The text an item has for a key field, and nothing where it has none. */
  function KeyText(key: string, r: Record): string {
    var f := QueryField(key, AsItem(r, false, false));
    if f.Some? && f.value.Text? then f.value.text else ""
  }

  /** The primary index is a bijection onto the records: each key value leads to a record with this value, and
      every record is found under its value. */
  ghost predicate Indexed(s: State, key: string) {
    var rows := RowsOf(s, key);
    && (forall v <- rows :: rows[v] in s.values && rows[v] != META_KEY && s.values[rows[v]].Stored?
                            && KeyText(key, s.values[rows[v]].record) == v)
    && (forall k <- s.values :: k != META_KEY ==>
          s.values[k].Stored? && KeyText(key, s.values[k].record) in rows && rows[KeyText(key, s.values[k].record)] == k)
  }

  ghost predicate Inv(s: State, key: string) {
    Formed(s) && HoldsIds(s) && Indexed(s, key)
  }

  ghost function Entries(s: State, key: string): map<Bytes, ModelData>
    requires Indexed(s, key)
  {
    var rows := RowsOf(s, key);
    map v | v in rows :: s.values[rows[v]].record.data
  }

  ghost function Abstract(s: State, key: string, unique: Option<string>): Plain
    requires Indexed(s, key)
  {
    Plain(Entries(s, key), if unique.Some? then RowsOf(s, unique.value).Keys else {})
  }

  /** Finding by key finds the data that the plain map has, as it comes back. */
  lemma FoundIsPlain(s: State, key: string, value: Bytes)
    requires Inv(s, key)
    ensures var found := Lookup(s, key, value);
            && (found.Some? <==> value in Entries(s, key))
            && (found.Some? ==> found.value.data == DataBack(Entries(s, key)[value]))
  {
  }

  /** The key value of a record does not depend on the id. */
  lemma KeyTextIgnoresId(key: string, r: Record, id: nat)
    ensures KeyText(key, r.(id := id)) == KeyText(key, r)
  {
    assert FieldsOf(r.(id := id)) == FieldsOf(r);
  }

  lemma OpenedRows(s: State, known: set<string>, name: string, other: string)
    ensures RowsOf(Opened(s, known, name), other) == RowsOf(s, other)
  {
    IndexNamesDiffer(name, other);
  }

  /** t has the records and the primary index of s. */
  ghost predicate SameRecords(s: State, t: State, key: string) {
    && t.sequence == s.sequence && RowsOf(t, key) == RowsOf(s, key)
    && (forall k :: k != META_KEY ==> (k in t.values <==> k in s.values))
    && (forall k <- s.values :: k != META_KEY ==> t.values[k] == s.values[k])
  }

  lemma SameRecordsInv(s: State, t: State, key: string)
    requires Inv(s, key) && Formed(t) && SameRecords(s, t, key)
    ensures Inv(t, key) && Entries(t, key) == Entries(s, key)
  {
    hide KeyText, IdBytes, Formed;
  }

  lemma OpenedInv(s: State, known: set<string>, name: string, key: string, unique: Option<string>)
    requires Inv(s, key)
    ensures Inv(Opened(s, known, name), key)
    ensures Abstract(Opened(s, known, name), key, unique) == Abstract(s, key, unique)
  {
    hide Formed, HoldsIds, Indexed, Entries;
    OpenedFormed(s, known, name);
    OpenedRows(s, known, name, key);
    SameRecordsInv(s, Opened(s, known, name), key);
    if unique.Some? {
      OpenedRows(s, known, name, unique.value);
    }
  }

  lemma RowsAfter(s: State, name: string, rows: map<Bytes, Bytes>, other: string)
    ensures RowsOf(WithRows(s, name, rows), other) == if other == name then rows else RowsOf(s, other)
  {
    IndexNamesDiffer(name, other);
  }

  /** The next id is new. */
  lemma NextIdIsNew(s: State)
    requires HoldsIds(s) && s.sequence + 1 < TWO_32
    ensures NextId(s) == s.sequence + 1 && IdBytes(NextId(s)) !in s.values && IdBytes(NextId(s)) != META_KEY
  {
    hide IdBytes;
    var id := s.sequence + 1;
    if IdBytes(id) in s.values && IdBytes(id) != META_KEY {
      var i :| 1 <= i <= s.sequence && IdBytes(id) == IdBytes(i);
      IdsAreOrdered(id, i);
    }
  }

  /** t is s with one more record. */
  ghost predicate HasOneMore(s: State, t: State, key: string, id: Bytes, r: Record) {
    && id !in s.values && id != META_KEY && KeyText(key, r) !in RowsOf(s, key)
    && RowsOf(t, key) == RowsOf(s, key)[KeyText(key, r) := id]
    && (forall k :: k in t.values && k != META_KEY <==> (k in s.values && k != META_KEY) || k == id)
    && (forall k <- s.values :: k != META_KEY ==> k in t.values && t.values[k] == s.values[k])
    && t.values[id] == Stored(r)
  }

  lemma IndexGrows(s: State, t: State, key: string, id: Bytes, r: Record)
    requires Indexed(s, key) && HasOneMore(s, t, key, id, r)
    ensures Indexed(t, key) && Entries(t, key) == Entries(s, key)[KeyText(key, r) := r.data]
  {
    hide KeyText;
    var rows := RowsOf(t, key);
    forall v | v in rows
      ensures rows[v] in t.values && rows[v] != META_KEY && t.values[rows[v]].Stored?
              && KeyText(key, t.values[rows[v]].record) == v
              && t.values[rows[v]].record.data == Entries(s, key)[KeyText(key, r) := r.data][v]
    {
      if v != KeyText(key, r) {
        assert v in RowsOf(s, key) && rows[v] == RowsOf(s, key)[v];
      }
    }
    forall k | k in t.values && k != META_KEY
      ensures t.values[k].Stored? && KeyText(key, t.values[k].record) in rows && rows[KeyText(key, t.values[k].record)] == k
    {
    }
  }

  lemma IdsGrow(s: State, t: State)
    requires HoldsIds(s) && s.sequence + 1 < TWO_32 && t.sequence == s.sequence + 1
    requires forall k :: k in t.values && k != META_KEY <==> (k in s.values && k != META_KEY) || k == IdBytes(s.sequence + 1)
    ensures HoldsIds(t)
  {
    hide IdBytes;
    forall k ensures (k in t.values && k != META_KEY) <==> exists i :: 1 <= i <= t.sequence && k == IdBytes(i) {
      if k in t.values && k != META_KEY && k != IdBytes(t.sequence) {
        var i :| 1 <= i <= s.sequence && k == IdBytes(i);
        assert i <= t.sequence;
      }
      if i :| 1 <= i <= t.sequence && k == IdBytes(i) {
        assert i <= s.sequence || i == t.sequence;
      }
    }
  }

  lemma RowsWithRecord(s: State, known: set<string>, key: string, value: Bytes, r: Record, other: string)
    requires WithRecord(s, known, key, value, r).Some?
    ensures RowsOf(WithRecord(s, known, key, value, r).value, other) ==
            if other == key then WithRow(RowsOf(s, key), value, IdBytes(NextId(s))).value else RowsOf(s, other)
  {
    hide IdBytes;
    RowsAfter(Opened(s, known, key), key, WithRow(RowsOf(s, key), value, IdBytes(NextId(s))).value, other);
    OpenedRows(s, known, key, other);
  }

  lemma ValuesWithRecord(s: State, known: set<string>, key: string, value: Bytes, r: Record)
    requires WithRecord(s, known, key, value, r).Some? && IdBytes(NextId(s)) != META_KEY
    ensures var t, id := WithRecord(s, known, key, value, r).value, IdBytes(NextId(s));
            && t.sequence == s.sequence + 1
            && (forall k :: k in t.values && k != META_KEY <==> (k in s.values && k != META_KEY) || k == id)
            && (forall k <- s.values :: k != META_KEY && k != id ==> t.values[k] == s.values[k])
            && t.values[id] == Stored(r.(id := NextId(s)))
  {
    hide IdBytes;
  }

  lemma RecordIsAdded(s: State, known: set<string>, key: string, value: Bytes, r: Record)
    requires Inv(s, key) && s.sequence + 1 < TWO_32
    requires KeyText(key, r) == value && value !in RowsOf(s, key)
    ensures var t := WithRecord(s, known, key, value, r);
            && (t.Some? <==> IsKey(value) && Writable(r))
            && (t.Some? ==> Inv(t.value, key) && Entries(t.value, key) == Entries(s, key)[value := r.data]
                            && t.value.sequence == s.sequence + 1)
  {
    hide KeyText, IdBytes, Formed, Indexed, HoldsIds, Entries, WithRecord;
    var t := WithRecord(s, known, key, value, r);
    AddedIfKey(s, known, key, value, r);
    if t.Some? {
      NextIdIsNew(s);
      WithRecordFormed(s, known, key, value, r);
      RowsWithRecord(s, known, key, value, r, key);
      ValuesWithRecord(s, known, key, value, r);
      KeyTextIgnoresId(key, r, NextId(s));
      IndexGrows(s, t.value, key, IdBytes(NextId(s)), r.(id := NextId(s)));
      IdsGrow(s, t.value);
    }
  }

  lemma AddedIfKey(s: State, known: set<string>, key: string, value: Bytes, r: Record)
    requires value !in RowsOf(s, key)
    ensures WithRecord(s, known, key, value, r).Some? <==> IsKey(value) && Writable(r)
  {
  }

  lemma UniqueIsAdded(s: State, known: set<string>, name: string, value: Bytes, id: Bytes, key: string)
    requires Inv(s, key) && name != key && RowId(id)
    ensures var t := WithUnique(s, known, name, value, id);
            && (t.Some? <==> value !in RowsOf(s, name) && IsKey(value))
            && (t.Some? ==> Inv(t.value, key) && Entries(t.value, key) == Entries(s, key)
                            && t.value.sequence == s.sequence
                            && RowsOf(t.value, name).Keys == RowsOf(s, name).Keys + {value})
  {
    hide Formed, HoldsIds, Indexed, Entries;
    var t := WithUnique(s, known, name, value, id);
    WithUniqueFormed(s, known, name, value, id);
    if t.Some? {
      OpenedRows(s, known, name, key);
      RowsAfter(Opened(s, known, name), name, RowsOf(s, name)[value := id], key);
      RowsAfter(Opened(s, known, name), name, RowsOf(s, name)[value := id], name);
      SameRecordsInv(s, t.value, key);
    }
  }

  /** Creating keeps the invariant, and is what the plain map does with a new value. */
  lemma CreateRefines(s: State, known: set<string>, key: string, r: Record, unique: Option<string>, uniqueValue: Bytes)
    requires Inv(s, key) && s.sequence + 1 < TWO_32 && unique != Some(key)
    requires KeyText(key, r) !in RowsOf(s, key)
    ensures var t := Created(s, known, key, KeyText(key, r), r, unique, uniqueValue);
            var p, plain := Abstract(s, key, unique),
                            PlainAdd(Abstract(s, key, unique), KeyText(key, r), r, UniqueOf(unique, uniqueValue));
            && plain.1 == (if t.Some? then New else Refused)
            && (t.Some? ==> Inv(t.value, key) && Abstract(t.value, key, unique) == plain.0 && t.value.sequence == s.sequence + 1)
  {
    hide Inv, KeyText, IdBytes, WithRecord, WithUnique;
    RecordIsAdded(s, known, key, KeyText(key, r), r);
    IdsAreRowIds(NextId(s));
    var t := WithRecord(s, known, key, KeyText(key, r), r);
    if t.Some? && unique.Some? {
      RowsWithRecord(s, known, key, KeyText(key, r), r, unique.value);
      UniqueIsAdded(t.value, known + {key}, unique.value, uniqueValue, IdBytes(NextId(s)), key);
    }
  }

  lemma UpdatedIndex(s: State, key: string, r: Record)
    requires Indexed(s, key) && KeyText(key, r) in RowsOf(s, key)
    ensures var t := Updated(s, key, KeyText(key, r), r);
            Indexed(t, key) && Entries(t, key) == Entries(s, key)[KeyText(key, r) := r.data]
  {
    hide KeyText;
    var rows, t := RowsOf(s, key), Updated(s, key, KeyText(key, r), r);
    forall v | v in rows && v != KeyText(key, r) ensures rows[v] != rows[KeyText(key, r)] {
      assert KeyText(key, s.values[rows[v]].record) == v;
    }
  }

  /** Replacing a record keeps the invariant, and changes the data of its value only. */
  lemma UpdateRefines(s: State, key: string, r: Record, unique: Option<string>)
    requires Inv(s, key) && KeyText(key, r) in RowsOf(s, key)
    ensures var t := Updated(s, key, KeyText(key, r), r);
            && Inv(t, key) && t.sequence == s.sequence
            && Abstract(t, key, unique) == Abstract(s, key, unique).(entries := Entries(s, key)[KeyText(key, r) := r.data])
  {
    hide KeyText, IdBytes, Entries;
    UpdatedIndex(s, key, r);
  }

  /** What the step of the store has to be, seen from the plain map. */
  ghost predicate Refines(db: Db, key: string, unique: Option<string>, uniqueValue: Bytes, r: Record, after: (Db, Outcome)) {
    && Inv(BucketOf(db), key) && Inv(BucketOf(after.0), key)
    && (Abstract(BucketOf(after.0), key, unique), after.1) ==
       PlainAdd(Abstract(BucketOf(db), key, unique), KeyText(key, r), r, UniqueOf(unique, uniqueValue))
    && BucketOf(after.0).sequence == BucketOf(db).sequence + (if after.1.New? then 1 else 0)
    && (after.1.Refused? || after.1.Same? ==> after.0.results == AfterFind(db.results, db.known, key))
  }

  lemma AddedRefines(db: Db, key: string, unique: Option<string>, uniqueValue: Bytes, r: Record)
    requires Inv(BucketOf(db), key) && Indexed(BucketOf(db), key)
    requires BucketOf(db).sequence + 1 < TWO_32 && unique != Some(key)
    requires Lookup(BucketOf(db), key, KeyText(key, r)).None?
    ensures var value := KeyText(key, r);
            Refines(db, key, unique, uniqueValue, r, StoreAdd(db, key, value, key, value, unique, uniqueValue, r))
  {
    hide Inv, Indexed, Abstract, Entries, KeyText, Created, Opened, Lookup, RowsOf, Updated, PlainAdd, AfterFind, KnownAfterFind,
      KnownAfter, DataBack, Writable, WithRecord, WithUnique;
    var value := KeyText(key, r);
    AfterFindRefines(db, key, key, unique);
    var found := Db(AfterFind(db.results, db.known, key), KnownAfterFind(db.results, db.known, key, value));
    FoundMeans(BucketOf(db), key, value, unique);
    FoundMeans(BucketOf(found), key, value, unique);
    CreateRefines(BucketOf(found), found.known, key, r, unique, uniqueValue);
    RefusedChangesNothing(Abstract(BucketOf(db), key, unique), value, r, UniqueOf(unique, uniqueValue));
  }

  lemma RefusedChangesNothing(p: Plain, value: Bytes, r: Record, unique: Option<Bytes>)
    ensures var after := PlainAdd(p, value, r, unique);
            && (after.1.Refused? || after.1.Same? ==> after.0 == p)
            && (value in p.entries ==> after == if r.torrent.None? && DataBack(p.entries[value]) == r.data then (p, Same)
                                                else if !Writable(r) then (p, Refused)
                                                else (p.(entries := p.entries[value := r.data]), Changed))
  {
  }

  lemma ChangedRefines(db: Db, key: string, unique: Option<string>, uniqueValue: Bytes, r: Record)
    requires Inv(BucketOf(db), key) && Indexed(BucketOf(db), key) && unique != Some(key)
    requires Lookup(BucketOf(db), key, KeyText(key, r)).Some?
    ensures var value := KeyText(key, r);
            Refines(db, key, unique, uniqueValue, r, StoreAdd(db, key, value, key, value, unique, uniqueValue, r))
  {
    hide Inv, Indexed, Abstract, Entries, KeyText, Created, Opened, Lookup, RowsOf, Updated, PlainAdd, AfterFind, KnownAfterFind,
      KnownAfter, DataBack, Writable, WithRecord, WithUnique;
    var value := KeyText(key, r);
    AfterFindRefines(db, key, key, unique);
    var found := Db(AfterFind(db.results, db.known, key), KnownAfterFind(db.results, db.known, key, value));
    var t := BucketOf(found);
    FoundMeans(BucketOf(db), key, value, unique);
    FoundMeans(t, key, value, unique);
    RefusedChangesNothing(Abstract(BucketOf(db), key, unique), value, r, UniqueOf(unique, uniqueValue));
    if !(r.torrent.None? && Lookup(BucketOf(db), key, value).value.data == r.data) && Writable(r) {
      OpenedInv(t, found.known, key, key, unique);
      FoundMeans(Opened(t, found.known, key), key, value, unique);
      UpdateRefines(Opened(t, found.known, key), key, r, unique);
    }
  }

  /** One step of the store on an item with a value for its one-field key is the step of the plain map. A refused
      item leaves the buckets as finding left them, and a new one has the next id. */
  lemma AddRefines(db: Db, key: string, unique: Option<string>, uniqueValue: Bytes, r: Record)
    requires Inv(BucketOf(db), key) && BucketOf(db).sequence + 1 < TWO_32 && unique != Some(key)
    ensures var value := KeyText(key, r);
            Refines(db, key, unique, uniqueValue, r, StoreAdd(db, key, value, key, value, unique, uniqueValue, r))
  {
    assert Indexed(BucketOf(db), key);
    hide *;
    if Lookup(BucketOf(db), key, KeyText(key, r)).None? {
      AddedRefines(db, key, unique, uniqueValue, r);
    } else {
      ChangedRefines(db, key, unique, uniqueValue, r);
    }
  }

  /** Finding changes nothing that the plain map can see. */
  lemma AfterFindRefines(db: Db, name: string, key: string, unique: Option<string>)
    requires Inv(BucketOf(db), key)
    ensures var t := BucketOf(Db(AfterFind(db.results, db.known, name), db.known));
            Inv(t, key) && t.sequence == BucketOf(db).sequence && Abstract(t, key, unique) == Abstract(BucketOf(db), key, unique)
  {
    hide Inv, Abstract;
    OpenedInv(BucketOf(db), db.known, name, key, unique);
  }

  lemma FoundMeans(s: State, key: string, value: Bytes, unique: Option<string>)
    requires Inv(s, key)
    ensures var entries, found := Abstract(s, key, unique).entries, Lookup(s, key, value);
            && entries == Entries(s, key)
            && (value in RowsOf(s, key) <==> value in entries)
            && (found.Some? <==> value in entries)
            && (found.Some? ==> found.value.data == DataBack(entries[value]))
  {
    hide KeyText, IdBytes;
    FoundIsPlain(s, key, value);
  }

  // ---------- whole runs ----------

  /** An item that is added, and its value for the unique key. */
  datatype Offer = Offer(record: Record, uniqueValue: Bytes)

  function RunStore(db: Db, key: string, unique: Option<string>, offers: seq<Offer>): (Db, seq<Outcome>) {
    if offers == [] then (db, [])
    else
      var before := RunStore(db, key, unique, offers[..|offers| - 1]);
      var o := offers[|offers| - 1];
      var value := KeyText(key, o.record);
      var after := StoreAdd(before.0, key, value, key, value, unique, o.uniqueValue, o.record);
      (after.0, before.1 + [after.1])
  }

  function RunPlain(p: Plain, key: string, unique: bool, offers: seq<Offer>): (Plain, seq<Outcome>) {
    if offers == [] then (p, [])
    else
      var before := RunPlain(p, key, unique, offers[..|offers| - 1]);
      var o := offers[|offers| - 1];
      var after := PlainAdd(before.0, KeyText(key, o.record), o.record, if unique then Some(o.uniqueValue) else None);
      (after.0, before.1 + [after.1])
  }

  function CountNew(outcomes: seq<Outcome>): nat {
    if outcomes == [] then 0
    else CountNew(outcomes[..|outcomes| - 1]) + if outcomes[|outcomes| - 1].New? then 1 else 0
  }

  /** Every run of fewer than 2^32 adds is a run of the plain map: the same outcomes, the same entries, and as many
      records, under the ids from 1 on, as outcomes that were new. */
  lemma {:induction false} RunRefines(key: string, unique: Option<string>, offers: seq<Offer>)
    requires |offers| < TWO_32 && unique != Some(key)
    ensures var run, plain := RunStore(Db(None, {}), key, unique, offers), RunPlain(Plain(map[], {}), key, unique.Some?, offers);
            && run.1 == plain.1
            && Inv(BucketOf(run.0), key) && Abstract(BucketOf(run.0), key, unique) == plain.0
            && BucketOf(run.0).sequence == CountNew(run.1) <= |offers|
  {
    hide Inv, Abstract, KeyText, StoreAdd, PlainAdd;
    if offers == [] {
      EmptyInv(key, unique);
    } else {
      var init, o := offers[..|offers| - 1], offers[|offers| - 1];
      RunRefines(key, unique, init);
      var before := RunStore(Db(None, {}), key, unique, init);
      AddRefines(before.0, key, unique, o.uniqueValue, o.record);
      var run := RunStore(Db(None, {}), key, unique, offers);
      assert run.1[..|run.1| - 1] == before.1;
    }
  }

  lemma EmptyInv(key: string, unique: Option<string>)
    ensures Inv(EMPTY, key) && Abstract(EMPTY, key, unique) == Plain(map[], {})
  {
  }

  // ---------- where it needs its conditions ----------

  /** A unique key with the name of the primary one refuses every new item: its own entry is in the way. */
  lemma UniqueLikePrimaryRefuses(s: State, known: set<string>, key: string, value: Bytes, r: Record)
    ensures Created(s, known, key, value, r, Some(key), value) == None
  {
    hide IdBytes;
    if WithRecord(s, known, key, value, r).Some? {
      RowsWithRecord(s, known, key, value, r, key);
    }
  }

  // ---------- keys of several fields ----------

  /** The index that queries look into is empty, and the primary one leads to ids that were given. */
  ghost predicate Blind(s: State, names: seq<string>) {
    && s.sequence < TWO_32 && RowsOf(s, QueryIndexName(names)) == map[]
    && forall v <- RowsOf(s, KeyIndexName(names)) :: exists i :: 1 <= i <= s.sequence && RowsOf(s, KeyIndexName(names))[v] == IdBytes(i)
  }

  lemma BlindStays(s: State, t: State, names: seq<string>)
    requires Blind(s, names) && t.sequence == s.sequence
    requires RowsOf(t, QueryIndexName(names)) == map[] && RowsOf(t, KeyIndexName(names)) == RowsOf(s, KeyIndexName(names))
    ensures Blind(t, names)
  {
    hide IdBytes, Join;
  }

  lemma BlindRefuses(s: State, known: set<string>, names: seq<string>, value: Bytes, r: Record)
    requires Blind(s, names) && s.sequence + 1 < TWO_32 && value in RowsOf(s, KeyIndexName(names))
    ensures WithRecord(s, known, KeyIndexName(names), value, r) == None
  {
    hide IdBytes, Join;
    var i :| 1 <= i <= s.sequence && RowsOf(s, KeyIndexName(names))[value] == IdBytes(i);
    IdsAreOrdered(i, s.sequence + 1);
  }

  lemma BlindGrows(s: State, known: set<string>, names: seq<string>, value: Bytes, r: Record)
    requires |names| >= 2 && Blind(s, names) && s.sequence + 1 < TWO_32
    requires WithRecord(s, known, KeyIndexName(names), value, r).Some?
    ensures var t := WithRecord(s, known, KeyIndexName(names), value, r).value;
            Blind(t, names) && RowsOf(t, KeyIndexName(names)).Keys == RowsOf(s, KeyIndexName(names)).Keys + {value}
  {
    hide Join;
    var primary, queried := KeyIndexName(names), QueryIndexName(names);
    SameIndexExactly(names);
    RowsWithRecord(s, known, primary, value, r, primary);
    RowsWithRecord(s, known, primary, value, r, queried);
    var t := WithRecord(s, known, primary, value, r).value;
    assert t.sequence == s.sequence + 1;
    hide IdBytes, WithRecord;
    forall v | v in RowsOf(t, primary) ensures exists i :: 1 <= i <= t.sequence && RowsOf(t, primary)[v] == IdBytes(i) {
      if v != value {
        var i :| 1 <= i <= s.sequence && RowsOf(s, primary)[v] == IdBytes(i);
        assert i <= t.sequence;
      }
    }
  }

  /** With a key of several fields the query looks into another index, which nothing is ever entered in: an item whose
      value is there is neither found nor updated, but refused; no other item is ever the same or changed. */
  lemma CompositeStep(db: Db, names: seq<string>, sought: Bytes, value: Bytes, unique: Option<string>, uniqueValue: Bytes, r: Record)
    requires |names| >= 2 && unique != Some(QueryIndexName(names)) && unique != Some(KeyIndexName(names))
    requires Blind(BucketOf(db), names) && BucketOf(db).sequence + 1 < TWO_32
    ensures var after := StoreAdd(db, QueryIndexName(names), sought, KeyIndexName(names), value, unique, uniqueValue, r);
            var rows, rows' := RowsOf(BucketOf(db), KeyIndexName(names)), RowsOf(BucketOf(after.0), KeyIndexName(names));
            && (after.1.New? || after.1.Refused?) && Blind(BucketOf(after.0), names)
            && rows'.Keys == (if after.1.New? then rows.Keys + {value} else rows.Keys)
            && (value in rows ==> after.1.Refused?)
            && BucketOf(after.0).sequence == BucketOf(db).sequence + (if after.1.New? then 1 else 0)
  {
    hide Blind, Join, IdBytes, WithRecord, WithUnique, Opened;
    var queried, primary := QueryIndexName(names), KeyIndexName(names);
    BlindMeans(BucketOf(db), names);
    OpenedRows(BucketOf(db), db.known, queried, primary);
    OpenedRows(BucketOf(db), db.known, queried, queried);
    var found := Db(AfterFind(db.results, db.known, queried), KnownAfterFind(db.results, db.known, queried, sought));
    var s := BucketOf(found);
    BlindStays(BucketOf(db), s, names);
    var t := WithRecord(s, found.known, primary, value, r);
    if value in RowsOf(s, primary) {
      BlindRefuses(s, found.known, names, value, r);
    }
    if t.Some? {
      BlindGrows(s, found.known, names, value, r);
      ValuesWithRecordSequence(s, found.known, primary, value, r);
      if unique.Some? {
        BlindUnique(t.value, found.known + {primary}, names, unique.value, uniqueValue, IdBytes(NextId(s)));
      }
    }
  }

  lemma BlindMeans(s: State, names: seq<string>)
    requires Blind(s, names)
    ensures s.sequence < TWO_32 && RowsOf(s, QueryIndexName(names)) == map[]
  {
  }

  lemma ValuesWithRecordSequence(s: State, known: set<string>, primary: string, value: Bytes, r: Record)
    requires WithRecord(s, known, primary, value, r).Some?
    ensures WithRecord(s, known, primary, value, r).value.sequence == s.sequence + 1
  {
  }

  lemma BlindUnique(s: State, known: set<string>, names: seq<string>, name: string, value: Bytes, id: Bytes)
    requires Blind(s, names) && name != QueryIndexName(names) && name != KeyIndexName(names)
    ensures var t := WithUnique(s, known, name, value, id);
            t.Some? ==> Blind(t.value, names) && t.value.sequence == s.sequence
                        && RowsOf(t.value, KeyIndexName(names)) == RowsOf(s, KeyIndexName(names))
  {
    hide Join, Opened;
    BlindMeans(s, names);
    var t := WithUnique(s, known, name, value, id);
    if t.Some? {
      var rows := RowsOf(s, name)[value := id];
      RowsAfter(Opened(s, known, name), name, rows, KeyIndexName(names));
      RowsAfter(Opened(s, known, name), name, rows, QueryIndexName(names));
      OpenedRows(s, known, name, KeyIndexName(names));
      OpenedRows(s, known, name, QueryIndexName(names));
      BlindStays(s, t.value, names);
    }
  }

  /** An item with the values it gives to the query, to the primary and to the unique index. */
  datatype CompositeOffer = CompositeOffer(sought: Bytes, value: Bytes, uniqueValue: Bytes, record: Record)

  function RunComposite(names: seq<string>, unique: Option<string>, offers: seq<CompositeOffer>): (Db, seq<Outcome>) {
    if offers == [] then (Db(None, {}), [])
    else
      var before := RunComposite(names, unique, offers[..|offers| - 1]);
      var o := offers[|offers| - 1];
      var after := StoreAdd(before.0, QueryIndexName(names), o.sought, KeyIndexName(names), o.value, unique, o.uniqueValue, o.record);
      (after.0, before.1 + [after.1])
  }

  /** In every run with a key of several fields nothing is ever found: each item is created or refused, and one whose
      value was created before is refused. */
  lemma {:induction false} CompositeRun(names: seq<string>, unique: Option<string>, offers: seq<CompositeOffer>)
    requires |names| >= 2 && unique != Some(QueryIndexName(names)) && unique != Some(KeyIndexName(names))
    requires |offers| < TWO_32
    ensures var run := RunComposite(names, unique, offers);
            && |run.1| == |offers| && (forall o <- run.1 :: o.New? || o.Refused?)
            && Blind(BucketOf(run.0), names) && BucketOf(run.0).sequence <= |offers|
            && (forall j :: 0 <= j < |offers| && run.1[j].New? ==> offers[j].value in RowsOf(BucketOf(run.0), KeyIndexName(names)))
            && forall i, j :: 0 <= i < j < |offers| && run.1[i].New? && offers[i].value == offers[j].value ==> run.1[j].Refused?
  {
    hide Join, StoreAdd, Blind;
    if offers == [] {
      BlindAtFirst(names);
    } else {
      var init, o := offers[..|offers| - 1], offers[|offers| - 1];
      CompositeRun(names, unique, init);
      var before, run := RunComposite(names, unique, init), RunComposite(names, unique, offers);
      CompositeStep(before.0, names, o.sought, o.value, unique, o.uniqueValue, o.record);
      assert forall j :: 0 <= j < |init| ==> run.1[j] == before.1[j] && offers[j] == init[j];
    }
  }

  lemma BlindAtFirst(names: seq<string>)
    ensures Blind(EMPTY, names)
  {
  }

  // ---------- the keyed storage ----------

  /** A one-field key whose name does not clash gives the query and the item the same index and the same value. */
  lemma OneFieldAgrees(key: string, r: Record, isNew: bool, isUpdate: bool)
    requires var item := AsItem(r, isNew, isUpdate);
             HasPart(key, item) && !Clashes(key, item.fields.Keys, item.methods.Keys)
    ensures var item := AsItem(r, isNew, isUpdate);
            && Keyed([key], item) && QueryPrintable([key], item)
            && ItemValue([key], item) == QueryValue([key], item) == KeyText(key, r) != ""
            && KeyIndexName([key]) == QueryIndexName([key]) == key
  {
    var item := AsItem(r, isNew, isUpdate);
    FieldNamesArePlain(r);
    hide FieldsOf, MethodsOf;
    NoClashAgrees([key], item);
    assert QueryParts([key], item) == [KeyText(key, r)];
  }
}
