/** Runs that add items with and without a value for the key: the records are those of a plain map whose entries
    belong to key values and to UUIDs. */
module MixedRefinement {
  import opened Options
  import opened ByteStrings
  import opened Buckets
  import opened UniqueIndexes
  import opened RecordIds
  import opened Fields
  import opened Records
  import opened RecordStore
  import opened RecordOrder
  import opened UpsertRefinement

  // ---------- what adding means ----------

  /** What a record is found by: its value for the key, or, where it has none, its UUID. */
  datatype Owner = ByKey(value: Bytes) | ByUuid(uuid: Bytes)

  function OwnerOf(key: string, r: Record): Owner {
    if KeyText(key, r) != "" then ByKey(KeyText(key, r)) else ByUuid(r.uuid)
  }

  datatype Mixed = Mixed(entries: map<Owner, ModelData>, taken: set<Bytes>)

  predicate Refuses(p: Mixed, unique: Option<Bytes>) {
    unique.Some? && (unique.value in p.taken || !IsKey(unique.value))
  }

  function WithEntry(p: Mixed, o: Owner, data: ModelData): Mixed {
    p.(entries := p.entries[o := data])
  }

  function WithTaken(p: Mixed, unique: Option<Bytes>): Mixed {
    if unique.Some? then p.(taken := p.taken + {unique.value}) else p
  }

  /** An item with a key is updated; one without is only ever created, and stays even if its unique value is refused. */
  function MixedAdd(p: Mixed, o: Owner, r: Record, unique: Option<Bytes>): (Mixed, Outcome) {
    match o
    case ByKey(value) =>
      if o in p.entries && r.torrent.None? && DataBack(p.entries[o]) == r.data then (p, Same)
      else if !Writable(r) then (p, Refused)
      else if o in p.entries then (WithEntry(p, o, r.data), Changed)
      else if !IsKey(value) || Refuses(p, unique) then (p, Refused)
      else (WithTaken(WithEntry(p, o, r.data), unique), New)
    case ByUuid(uuid) =>
      if o in p.entries || !IsKey(uuid) || !Writable(r) then (p, Refused)
      else if Refuses(p, unique) then (WithEntry(p, o, r.data), Refused)
      else (WithTaken(WithEntry(p, o, r.data), unique), New)
  }

  /** When an item with a new key value is new, and what it adds. */
  lemma NewByKeyExactly(p: Mixed, value: Bytes, r: Record, unique: Option<Bytes>)
    requires ByKey(value) !in p.entries
    ensures var step := MixedAdd(p, ByKey(value), r, unique);
            && (step.1.New? <==> && Writable(r) && 0 < |value| <= 32768
                                 && (unique.Some? ==> unique.value !in p.taken && 0 < |unique.value| <= 32768))
            && (step.1.New? || step.1.Refused?)
            && (step.1.New? ==> && step.0.entries == p.entries[ByKey(value) := r.data]
                                && step.0.taken == p.taken + if unique.Some? then {unique.value} else {})
  {
    hide Writable;
  }

  /** And of one without its key. */
  lemma NewByUuidExactly(p: Mixed, uuid: Bytes, r: Record, unique: Option<Bytes>)
    ensures var step := MixedAdd(p, ByUuid(uuid), r, unique);
            && (step.1.New? <==> && ByUuid(uuid) !in p.entries && 0 < |uuid| <= 32768 && Writable(r)
                                 && (unique.Some? ==> unique.value !in p.taken && 0 < |unique.value| <= 32768))
            && (step.1.New? || step.1.Refused?)
            && (step.1.New? ==> && step.0.entries == p.entries[ByUuid(uuid) := r.data]
                                && step.0.taken == p.taken + if unique.Some? then {unique.value} else {})
  {
    hide Writable;
  }

  // ---------- what the store does ----------

  /** An item without its key is created under its UUID. */
  function UuidAdd(db: Db, unique: Option<string>, uniqueValue: Bytes, r: Record): (Db, Outcome) {
    var after := CreatedWithUuid(db.results, db.known, r, unique, uniqueValue);
    (Db(after.0, after.1), if after.2 then New else Refused)
  }

  function AnyAdd(db: Db, key: string, unique: Option<string>, o: Offer): (Db, Outcome) {
    var value := KeyText(key, o.record);
    if value != "" then StoreAdd(db, key, value, key, value, unique, o.uniqueValue, o.record)
    else UuidAdd(db, unique, o.uniqueValue, o.record)
  }

  // ---------- the buckets show the plain map ----------

  function IndexFor(key: string, o: Owner): string {
    if o.ByKey? then key else "UUID"
  }

  function ValueOf(o: Owner): Bytes {
    if o.ByKey? then o.value else o.uuid
  }

  /** The id that the index of the owner has for it. */
  function RowOf(s: State, key: string, o: Owner): Option<Bytes> {
    var rows := RowsOf(s, IndexFor(key, o));
    if ValueOf(o) in rows then Some(rows[ValueOf(o)]) else None
  }

  /** The two indexes together are a bijection onto the records: each leads to the records of its owners only, and
      every record is found by its owner. */
  ghost predicate Owned(s: State, key: string) {
    && (forall o {:trigger RowOf(s, key, o)} :: RowOf(s, key, o).Some? ==>
          var id := RowOf(s, key, o).value;
          id in s.values && id != META_KEY && s.values[id].Stored? && OwnerOf(key, s.values[id].record) == o)
    && (forall k <- s.values :: k != META_KEY ==>
          s.values[k].Stored? && RowOf(s, key, OwnerOf(key, s.values[k].record)) == Some(k))
  }

  ghost predicate ShowsEntries(s: State, key: string, entries: map<Owner, ModelData>)
    requires Owned(s, key)
  {
    && (forall o {:trigger RowOf(s, key, o)} :: o in entries <==> RowOf(s, key, o).Some?)
    && (forall o <- entries :: s.values[RowOf(s, key, o).value].record.data == entries[o])
  }

  /** The unique index has the taken values, each for the id of a record or for the UUID of one. */
  ghost predicate ShowsTaken(s: State, unique: Option<string>, p: Mixed) {
    if unique.None? then p.taken == {}
    else
      var rows := RowsOf(s, unique.value);
      rows.Keys == p.taken && forall v <- rows :: (|rows[v]| == 4 && rows[v] in s.values) || ByUuid(rows[v]) in p.entries
  }

  ghost predicate Shows(s: State, key: string, unique: Option<string>, p: Mixed) {
    Formed(s) && HoldsIds(s) && Owned(s, key) && ShowsEntries(s, key, p.entries) && ShowsTaken(s, unique, p)
  }

  /** Names that are not in each other's way. */
  ghost predicate Apart(key: string, unique: Option<string>) {
    key != "UUID" && unique != Some(key) && unique != Some("UUID")
  }

  lemma OwnerIgnoresId(key: string, r: Record, id: nat)
    ensures OwnerOf(key, r.(id := id)) == OwnerOf(key, r)
  {
    KeyTextIgnoresId(key, r, id);
  }

  /** t has the records and the rows of s. */
  ghost predicate SameShown(s: State, t: State, key: string) {
    && t.sequence == s.sequence && RowsOf(t, key) == RowsOf(s, key) && RowsOf(t, "UUID") == RowsOf(s, "UUID")
    && (forall k :: k != META_KEY ==> (k in t.values <==> k in s.values))
    && (forall k <- s.values :: k != META_KEY ==> t.values[k] == s.values[k])
  }

  lemma SameShownShows(s: State, t: State, key: string, unique: Option<string>, p: Mixed, q: Mixed)
    requires Shows(s, key, unique, p) && Formed(t) && SameShown(s, t, key) && ShowsTaken(t, unique, q) && q.entries == p.entries
    ensures Shows(t, key, unique, q)
  {
    hide Formed, IdBytes, ShowsTaken, OwnerOf, RowsOf;
    forall o ensures RowOf(t, key, o) == RowOf(s, key, o) {
    }
  }

  lemma OpenedShows(s: State, known: set<string>, name: string, key: string, unique: Option<string>, p: Mixed)
    requires Shows(s, key, unique, p)
    ensures Shows(Opened(s, known, name), key, unique, p)
  {
    hide Formed, HoldsIds, Owned, ShowsEntries;
    OpenedFormed(s, known, name);
    OpenedRows(s, known, name, key);
    OpenedRows(s, known, name, "UUID");
    if unique.Some? {
      OpenedRows(s, known, name, unique.value);
    }
    SameShownShows(s, Opened(s, known, name), key, unique, p, p);
  }

  // ---------- one more record ----------

  /** t is s with one more record, found by its owner. */
  ghost predicate OneMore(s: State, t: State, key: string, id: Bytes, r: Record) {
    && id !in s.values && id != META_KEY && RowOf(s, key, OwnerOf(key, r)) == None
    && (forall o {:trigger RowOf(t, key, o)} :: RowOf(t, key, o) == if o == OwnerOf(key, r) then Some(id) else RowOf(s, key, o))
    && (forall k :: k in t.values && k != META_KEY <==> (k in s.values && k != META_KEY) || k == id)
    && (forall k <- s.values :: k != META_KEY ==> k in t.values && t.values[k] == s.values[k])
    && t.values[id] == Stored(r)
  }

  lemma OneMoreIsOwned(s: State, t: State, key: string, id: Bytes, r: Record, entries: map<Owner, ModelData>)
    requires Owned(s, key) && ShowsEntries(s, key, entries) && OneMore(s, t, key, id, r)
    ensures Owned(t, key) && ShowsEntries(t, key, entries[OwnerOf(key, r) := r.data])
  {
    hide OwnerOf, RowOf;
    forall o | RowOf(t, key, o).Some?
      ensures var k := RowOf(t, key, o).value;
              k in t.values && k != META_KEY && t.values[k].Stored? && OwnerOf(key, t.values[k].record) == o
    {
      assert o != OwnerOf(key, r) ==> RowOf(s, key, o).Some?;
    }
    forall k | k in t.values && k != META_KEY
      ensures t.values[k].Stored? && RowOf(t, key, OwnerOf(key, t.values[k].record)) == Some(k)
    {
      if k != id {
        assert RowOf(s, key, OwnerOf(key, s.values[k].record)) == Some(k);
      }
    }
  }

  lemma RowsAfterRecord(s: State, known: set<string>, key: string, r: Record)
    requires key != "UUID"
    requires var o := OwnerOf(key, r); RowOf(s, key, o) == None && WithRecord(s, known, IndexFor(key, o), ValueOf(o), r).Some?
    ensures var o := OwnerOf(key, r);
            var t := WithRecord(s, known, IndexFor(key, o), ValueOf(o), r).value;
            forall x {:trigger RowOf(t, key, x)} :: RowOf(t, key, x) == if x == o then Some(IdBytes(NextId(s))) else RowOf(s, key, x)
  {
    hide IdBytes, KeyText;
    var o := OwnerOf(key, r);
    RowsWithRecord(s, known, IndexFor(key, o), ValueOf(o), r, key);
    RowsWithRecord(s, known, IndexFor(key, o), ValueOf(o), r, "UUID");
  }

  lemma RecordShows(s: State, known: set<string>, key: string, unique: Option<string>, p: Mixed, r: Record)
    requires Shows(s, key, unique, p) && s.sequence + 1 < TWO_32 && Apart(key, unique) && OwnerOf(key, r) !in p.entries
    ensures var o := OwnerOf(key, r);
            var t := WithRecord(s, known, IndexFor(key, o), ValueOf(o), r);
            && (t.Some? <==> IsKey(ValueOf(o)) && Writable(r))
            && (t.Some? ==> Shows(t.value, key, unique, WithEntry(p, o, r.data)) && t.value.sequence == s.sequence + 1)
  {
    hide IdBytes, Formed, HoldsIds, Owned, ShowsEntries, WithRecord, KeyText, OwnerOf;
    var o := OwnerOf(key, r);
    var index, value := IndexFor(key, o), ValueOf(o);
    NoRow(s, key, p.entries, o);
    AddedIfKey(s, known, index, value, r);
    var t := WithRecord(s, known, index, value, r);
    if t.Some? {
      NextIdIsNew(s);
      WithRecordFormed(s, known, index, value, r);
      ValuesWithRecord(s, known, index, value, r);
      RowsAfterRecord(s, known, key, r);
      OwnerIgnoresId(key, r, NextId(s));
      OneMoreIsOwned(s, t.value, key, IdBytes(NextId(s)), r.(id := NextId(s)), p.entries);
      IdsGrow(s, t.value);
      if unique.Some? {
        RowsWithRecord(s, known, index, value, r, unique.value);
      }
    }
  }

  lemma NoRow(s: State, key: string, entries: map<Owner, ModelData>, o: Owner)
    requires Owned(s, key) && ShowsEntries(s, key, entries)
    ensures RowOf(s, key, o).Some? <==> o in entries
    ensures ValueOf(o) in RowsOf(s, IndexFor(key, o)) <==> o in entries
  {
  }

  // ---------- one more unique value ----------

  lemma TakenShows(s: State, known: set<string>, key: string, unique: string, p: Mixed, value: Bytes, id: Bytes)
    requires Shows(s, key, Some(unique), p) && Apart(key, Some(unique))
    requires RowId(id) && ((|id| == 4 && id in s.values) || ByUuid(id) in p.entries)
    ensures var t := WithRows(Opened(s, known, unique), unique, RowsOf(s, unique)[value := id]);
            Shows(t, key, Some(unique), WithTaken(p, Some(value))) && t.sequence == s.sequence
  {
    hide HoldsIds, Owned, ShowsEntries;
    OpenedFormed(s, known, unique);
    OpenedRows(s, known, unique, key);
    OpenedRows(s, known, unique, "UUID");
    var rows := RowsOf(s, unique)[value := id];
    forall v | v in rows ensures RowId(rows[v]) {
    }
    WithRowsFormed(Opened(s, known, unique), unique, rows);
    RowsAfter(Opened(s, known, unique), unique, rows, key);
    RowsAfter(Opened(s, known, unique), unique, rows, "UUID");
    RowsAfter(Opened(s, known, unique), unique, rows, unique);
    hide Formed;
    SameShownShows(s, WithRows(Opened(s, known, unique), unique, rows), key, Some(unique), p, WithTaken(p, Some(value)));
  }

  // ---------- creating and replacing ----------

  lemma RecordIsThere(s: State, known: set<string>, name: string, value: Bytes, r: Record)
    requires WithRecord(s, known, name, value, r).Some?
    ensures IdBytes(NextId(s)) in WithRecord(s, known, name, value, r).value.values
  {
    hide IdBytes;
  }

  /** Creating an item with a new key value. */
  lemma CreatedShows(s: State, known: set<string>, key: string, unique: Option<string>, p: Mixed, r: Record, uniqueValue: Bytes)
    requires Shows(s, key, unique, p) && s.sequence + 1 < TWO_32 && Apart(key, unique)
    requires KeyText(key, r) != "" && ByKey(KeyText(key, r)) !in p.entries
    ensures var t := Created(s, known, key, KeyText(key, r), r, unique, uniqueValue);
            var after := MixedAdd(p, ByKey(KeyText(key, r)), r, UniqueOf(unique, uniqueValue));
            && after.1 == (if t.Some? then New else Refused)
            && (t.Some? ==> Shows(t.value, key, unique, after.0) && t.value.sequence == s.sequence + 1)
  {
    hide IdBytes, Formed, HoldsIds, Owned, ShowsEntries, WithRecord, KeyText, Opened, RowsOf, NextId;
    RecordShows(s, known, key, unique, p, r);
    var t := WithRecord(s, known, key, KeyText(key, r), r);
    IdsAreRowIds(NextId(s));
    if t.Some? && unique.Some? {
      RecordIsThere(s, known, key, KeyText(key, r), r);
      TakenShows(t.value, known + {key}, key, unique.value, WithEntry(p, ByKey(KeyText(key, r)), r.data),
                 uniqueValue, IdBytes(NextId(s)));
    }
  }

  lemma TakenUuidIsRefused(s: State, known: set<string>, key: string, entries: map<Owner, ModelData>, r: Record)
    requires HoldsIds(s) && Owned(s, key) && ShowsEntries(s, key, entries) && s.sequence + 1 < TWO_32 && ByUuid(r.uuid) in entries
    ensures WithRecord(s, known, "UUID", r.uuid, r) == None
  {
    hide IdBytes, OwnerOf, HoldsIds;
    NextIdIsNew(s);
    assert RowOf(s, key, ByUuid(r.uuid)).Some?;
  }

  /** Creating an item without its key; its record stays if the unique value is refused. */
  lemma UuidAddShows(db: Db, key: string, unique: Option<string>, p: Mixed, r: Record, uniqueValue: Bytes)
    requires Shows(BucketOf(db), key, unique, p) && BucketOf(db).sequence + 1 < TWO_32 && Apart(key, unique)
    requires KeyText(key, r) == "" && RowId(r.uuid) && |r.uuid| != 4
    ensures var t, after := UuidAdd(db, unique, uniqueValue, r), MixedAdd(p, ByUuid(r.uuid), r, UniqueOf(unique, uniqueValue));
            t.1 == after.1 && Shows(BucketOf(t.0), key, unique, after.0) && BucketOf(t.0).sequence <= BucketOf(db).sequence + 1
  {
    var s := BucketOf(db);
    hide IdBytes, Formed, HoldsIds, Owned, ShowsEntries, WithRecord, KeyText, Opened, RowsOf, NextId, RowId;
    var o := ByUuid(r.uuid);
    if o in p.entries {
      TakenUuidIsRefused(s, db.known, key, p.entries, r);
    } else {
      RecordShows(s, db.known, key, unique, p, r);
      var t := WithRecord(s, db.known, "UUID", r.uuid, r);
      if t.Some? && unique.Some? {
        RowsWithRecord(s, db.known, "UUID", r.uuid, r, unique.value);
        UuidOfOther(s, unique.value, p, r.uuid, uniqueValue);
        TakenShows(t.value, db.known + {"UUID"}, key, unique.value, WithEntry(p, o, r.data), uniqueValue, r.uuid);
      }
    }
  }

  /** The rows after an item was created without its key. */
  lemma UuidRows(db: Db, unique: string, r: Record, uniqueValue: Bytes)
    requires UuidAdd(db, Some(unique), uniqueValue, r).1.New? && unique != "UUID"
    requires NextId(BucketOf(db)) == BucketOf(db).sequence + 1 && IdBytes(NextId(BucketOf(db))) != META_KEY
    ensures var s, t := BucketOf(db), BucketOf(UuidAdd(db, Some(unique), uniqueValue, r).0);
            && r.uuid in RowsOf(t, "UUID") && RowsOf(t, "UUID")[r.uuid] == IdBytes(NextId(s))
            && uniqueValue in RowsOf(t, unique) && RowsOf(t, unique)[uniqueValue] == r.uuid
            && IdBytes(NextId(s)) in t.values && t.values[IdBytes(NextId(s))] == Stored(r.(id := NextId(s)))
  {
    hide IdBytes, NextId, Writable;
    var s := BucketOf(db);
    var u := WithRecord(s, db.known, "UUID", r.uuid, r).value;
    ValuesWithRecord(s, db.known, "UUID", r.uuid, r);
    RowsWithRecord(s, db.known, "UUID", r.uuid, r, "UUID");
    hide WithRecord;
    var rows := WithRow(RowsOf(u, unique), uniqueValue, r.uuid).value;
    OpenedRows(u, db.known + {"UUID"}, unique, "UUID");
    RowsAfter(Opened(u, db.known + {"UUID"}, unique), unique, rows, "UUID");
    RowsAfter(Opened(u, db.known + {"UUID"}, unique), unique, rows, unique);
  }

  /** An item that was created without its key is found by its UUID, and, through it, by its unique value. */
  lemma UuidIsFound(db: Db, key: string, unique: string, p: Mixed, r: Record, uniqueValue: Bytes)
    requires Shows(BucketOf(db), key, Some(unique), p) && BucketOf(db).sequence + 1 < TWO_32 && Apart(key, Some(unique))
    requires KeyText(key, r) == "" && RowId(r.uuid) && |r.uuid| != 4
    ensures var t := UuidAdd(db, Some(unique), uniqueValue, r);
            var stored := r.(id := BucketOf(db).sequence + 1);
            t.1.New? ==> && Lookup(BucketOf(t.0), "UUID", r.uuid) == Some(Loaded(stored))
                         && Lookup(BucketOf(t.0), unique, uniqueValue) == Some(Loaded(stored))
  {
    hide IdBytes, NextId, RowsOf, Owned, ShowsEntries, ShowsTaken, KeyText, Loaded, MixedAdd, UuidAdd, Formed;
    UuidAddShows(db, key, Some(unique), p, r, uniqueValue);
    if UuidAdd(db, Some(unique), uniqueValue, r).1.New? {
      NextIdIsNew(BucketOf(db));
      UuidRows(db, unique, r, uniqueValue);
    }
  }

  /** No taken value is there for a UUID that is new. */
  lemma UuidOfOther(s: State, unique: string, p: Mixed, uuid: Bytes, value: Bytes)
    requires ShowsTaken(s, Some(unique), p) && |uuid| != 4 && ByUuid(uuid) !in p.entries
    ensures WithRow(RowsOf(s, unique), value, uuid) ==
            if Refuses(p, Some(value)) then None else Some(RowsOf(s, unique)[value := uuid])
  {
  }

  lemma FoundByOwner(s: State, key: string, unique: Option<string>, p: Mixed, value: Bytes)
    requires Shows(s, key, unique, p)
    ensures var found := Lookup(s, key, value);
            && (found.Some? <==> ByKey(value) in p.entries) && (value in RowsOf(s, key) <==> ByKey(value) in p.entries)
            && (found.Some? ==> found.value.data == DataBack(p.entries[ByKey(value)]))
  {
    hide OwnerOf, HoldsIds, Formed, ShowsTaken;
    assert RowOf(s, key, ByKey(value)).Some? <==> value in RowsOf(s, key);
  }

  lemma UpdatedRows(s: State, key: string, r: Record, o: Owner)
    requires KeyText(key, r) in RowsOf(s, key)
    ensures RowOf(Updated(s, key, KeyText(key, r), r), key, o) == RowOf(s, key, o)
  {
    hide KeyText;
  }

  /** Different owners have different records. */
  lemma OwnersDiffer(s: State, key: string, o: Owner, x: Owner)
    requires Owned(s, key) && RowOf(s, key, o).Some? && RowOf(s, key, x).Some? && o != x
    ensures RowOf(s, key, o) != RowOf(s, key, x)
  {
    hide OwnerOf, RowOf;
  }

  lemma ReplacedIsOwned(s: State, t: State, key: string, entries: map<Owner, ModelData>, id: Bytes, r: Record)
    requires Owned(s, key) && ShowsEntries(s, key, entries) && RowOf(s, key, OwnerOf(key, r)) == Some(id)
    requires t.values == s.values[id := Stored(r)] && forall x {:trigger RowOf(t, key, x)} :: RowOf(t, key, x) == RowOf(s, key, x)
    ensures Owned(t, key) && ShowsEntries(t, key, entries[OwnerOf(key, r) := r.data])
  {
    hide OwnerOf, RowOf;
    var o := OwnerOf(key, r);
    forall x | RowOf(s, key, x).Some? && x != o ensures RowOf(s, key, x) != Some(id) {
      OwnersDiffer(s, key, o, x);
    }
  }

  lemma UpdatedIsOwned(s: State, key: string, entries: map<Owner, ModelData>, r: Record)
    requires Owned(s, key) && ShowsEntries(s, key, entries) && KeyText(key, r) != "" && KeyText(key, r) in RowsOf(s, key)
    ensures var t := Updated(s, key, KeyText(key, r), r);
            Owned(t, key) && ShowsEntries(t, key, entries[ByKey(KeyText(key, r)) := r.data])
  {
    hide KeyText, Owned, ShowsEntries;
    var t := Updated(s, key, KeyText(key, r), r);
    assert RowOf(s, key, OwnerOf(key, r)) == Some(RowsOf(s, key)[KeyText(key, r)]);
    forall x ensures RowOf(t, key, x) == RowOf(s, key, x) {
      UpdatedRows(s, key, r, x);
    }
    ReplacedIsOwned(s, t, key, entries, RowsOf(s, key)[KeyText(key, r)], r);
  }

  lemma UpdatedFormed(s: State, name: string, value: Bytes, r: Record)
    requires Formed(s) && HoldsIds(s)
    requires value in RowsOf(s, name) && RowsOf(s, name)[value] in s.values && RowsOf(s, name)[value] != META_KEY
    ensures Formed(Updated(s, name, value, r)) && HoldsIds(Updated(s, name, value, r))
    ensures forall other :: RowsOf(Updated(s, name, value, r), other) == RowsOf(s, other)
  {
    hide IdBytes;
  }

  lemma UpdatedShows(s: State, key: string, unique: Option<string>, p: Mixed, r: Record)
    requires Shows(s, key, unique, p) && KeyText(key, r) != "" && KeyText(key, r) in RowsOf(s, key)
    ensures var t := Updated(s, key, KeyText(key, r), r);
            Shows(t, key, unique, WithEntry(p, ByKey(KeyText(key, r)), r.data)) && t.sequence == s.sequence
  {
    assert RowOf(s, key, ByKey(KeyText(key, r))) == Some(RowsOf(s, key)[KeyText(key, r)]);
    hide KeyText, IdBytes, OwnerOf, RowOf, RowsOf, ShowsEntries, Formed, HoldsIds;
    UpdatedIsOwned(s, key, p.entries, r);
    UpdatedFormed(s, key, KeyText(key, r), r);
  }

  // ---------- one step ----------

  lemma FindShows(db: Db, name: string, key: string, unique: Option<string>, p: Mixed)
    requires Shows(BucketOf(db), key, unique, p)
    ensures var t := BucketOf(Db(AfterFind(db.results, db.known, name), db.known));
            Shows(t, key, unique, p) && t.sequence == BucketOf(db).sequence
  {
    hide Shows;
    OpenedShows(BucketOf(db), db.known, name, key, unique, p);
  }

  /** What a step of the store has to be. */
  ghost predicate StepsAs(db: Db, after: (Db, Outcome), key: string, unique: Option<string>, p: Mixed, o: Owner, r: Record,
                        uniqueValue: Bytes)
  {
    var plain := MixedAdd(p, o, r, UniqueOf(unique, uniqueValue));
    && after.1 == plain.1 && Shows(BucketOf(after.0), key, unique, plain.0)
    && BucketOf(after.0).sequence <= BucketOf(db).sequence + 1
  }

  lemma KeyAddNew(db: Db, key: string, unique: Option<string>, p: Mixed, r: Record, uniqueValue: Bytes)
    requires Shows(BucketOf(db), key, unique, p) && BucketOf(db).sequence + 1 < TWO_32 && Apart(key, unique)
    requires KeyText(key, r) != "" && Lookup(BucketOf(db), key, KeyText(key, r)).None?
    ensures StepsAs(db, StoreAdd(db, key, KeyText(key, r), key, KeyText(key, r), unique, uniqueValue, r), key, unique, p,
                  ByKey(KeyText(key, r)), r, uniqueValue)
  {
    hide Shows, KeyText, Created, Opened, Lookup, RowsOf, Updated, MixedAdd, AfterFind, KnownAfterFind, KnownAfter, Writable, Apart;
    var value := KeyText(key, r);
    FindShows(db, key, key, unique, p);
    FoundByOwner(BucketOf(db), key, unique, p, value);
    var found := Db(AfterFind(db.results, db.known, key), KnownAfterFind(db.results, db.known, key, value));
    CreatedShows(BucketOf(found), found.known, key, unique, p, r, uniqueValue);
    RefusedKeyChangesNothing(p, value, r, UniqueOf(unique, uniqueValue));
  }

  lemma RefusedKeyChangesNothing(p: Mixed, value: Bytes, r: Record, unique: Option<Bytes>)
    ensures var after := MixedAdd(p, ByKey(value), r, unique);
            && (after.1.Refused? ==> after.0 == p)
            && (ByKey(value) in p.entries ==> after == if r.torrent.None? && DataBack(p.entries[ByKey(value)]) == r.data then (p, Same)
                                                       else if !Writable(r) then (p, Refused)
                                                       else (WithEntry(p, ByKey(value), r.data), Changed))
  {
  }

  lemma KeyAddFound(db: Db, key: string, unique: Option<string>, p: Mixed, r: Record, uniqueValue: Bytes)
    requires Shows(BucketOf(db), key, unique, p)
    requires KeyText(key, r) != "" && Lookup(BucketOf(db), key, KeyText(key, r)).Some?
    ensures StepsAs(db, StoreAdd(db, key, KeyText(key, r), key, KeyText(key, r), unique, uniqueValue, r), key, unique, p,
                  ByKey(KeyText(key, r)), r, uniqueValue)
  {
    hide Shows, KeyText, Created, Opened, Lookup, RowsOf, Updated, MixedAdd, AfterFind, KnownAfterFind, KnownAfter, Writable, DataBack;
    var value := KeyText(key, r);
    FindShows(db, key, key, unique, p);
    var found := Db(AfterFind(db.results, db.known, key), KnownAfterFind(db.results, db.known, key, value));
    var t := BucketOf(found);
    FoundByOwner(BucketOf(db), key, unique, p, value);
    FoundByOwner(t, key, unique, p, value);
    RefusedKeyChangesNothing(p, value, r, UniqueOf(unique, uniqueValue));
    if !(r.torrent.None? && Lookup(BucketOf(db), key, value).value.data == r.data) && Writable(r) {
      OpenedShows(t, found.known, key, key, unique, p);
      FoundByOwner(Opened(t, found.known, key), key, unique, p, value);
      UpdatedShows(Opened(t, found.known, key), key, unique, p, r);
    }
  }

  /** The UUID of an item without its key can be a key of the bucket, and cannot be taken for an id. */
  ghost predicate UuidIsFine(key: string, o: Offer) {
    KeyText(key, o.record) == "" ==> RowId(o.record.uuid) && |o.record.uuid| != 4
  }

  /** One add, of an item with its key or without, is the step of the plain map. */
  lemma AnyAddSteps(db: Db, key: string, unique: Option<string>, p: Mixed, o: Offer)
    requires Shows(BucketOf(db), key, unique, p) && BucketOf(db).sequence + 1 < TWO_32 && Apart(key, unique) && UuidIsFine(key, o)
    ensures StepsAs(db, AnyAdd(db, key, unique, o), key, unique, p, OwnerOf(key, o.record), o.record, o.uniqueValue)
  {
    hide Shows, KeyText, StoreAdd, UuidAdd, MixedAdd, Lookup, RowId, Apart;
    if KeyText(key, o.record) == "" {
      UuidAddShows(db, key, unique, p, o.record, o.uniqueValue);
    } else if Lookup(BucketOf(db), key, KeyText(key, o.record)).None? {
      KeyAddNew(db, key, unique, p, o.record, o.uniqueValue);
    } else {
      KeyAddFound(db, key, unique, p, o.record, o.uniqueValue);
    }
  }

  // ---------- whole runs ----------

  function RunAny(db: Db, key: string, unique: Option<string>, offers: seq<Offer>): (Db, seq<Outcome>) {
    if offers == [] then (db, [])
    else
      var before := RunAny(db, key, unique, offers[..|offers| - 1]);
      var after := AnyAdd(before.0, key, unique, offers[|offers| - 1]);
      (after.0, before.1 + [after.1])
  }

  function RunMixed(p: Mixed, key: string, unique: Option<string>, offers: seq<Offer>): (Mixed, seq<Outcome>) {
    if offers == [] then (p, [])
    else
      var before, o := RunMixed(p, key, unique, offers[..|offers| - 1]), offers[|offers| - 1];
      var after := MixedAdd(before.0, OwnerOf(key, o.record), o.record, UniqueOf(unique, o.uniqueValue));
      (after.0, before.1 + [after.1])
  }

  const NOTHING := Mixed(map[], {})

  lemma NothingShown(key: string, unique: Option<string>)
    ensures Shows(EMPTY, key, unique, NOTHING)
  {
  }

  /** Every run of fewer than 2^32 adds of items with and without their key has the outcomes and the entries of the
      plain map, and its two indexes together are a bijection onto the records, under the ids from 1 on. */
  lemma {:induction false} MixedRunRefines(key: string, unique: Option<string>, offers: seq<Offer>)
    requires |offers| < TWO_32 && Apart(key, unique) && forall o <- offers :: UuidIsFine(key, o)
    ensures var run, plain := RunAny(Db(None, {}), key, unique, offers), RunMixed(NOTHING, key, unique, offers);
            run.1 == plain.1 && Shows(BucketOf(run.0), key, unique, plain.0) && BucketOf(run.0).sequence <= |offers|
  {
    hide Shows, KeyText, AnyAdd, MixedAdd, OwnerOf, UuidIsFine, Apart;
    if offers == [] {
      NothingShown(key, unique);
    } else {
      var init, o := offers[..|offers| - 1], offers[|offers| - 1];
      MixedRunRefines(key, unique, init);
      AnyAddSteps(RunAny(Db(None, {}), key, unique, init).0, key, unique, RunMixed(NOTHING, key, unique, init).0, o);
    }
  }
}
