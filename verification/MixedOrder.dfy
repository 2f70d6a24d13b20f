/** Runs that add items with and without their key, and what going over the records then gives: the items that were
    created, in that order. */
module MixedOrder {
  import opened Options
  import opened ByteStrings
  import opened UniqueIndexes
  import opened Fields
  import opened RecordIds
  import opened Records
  import opened RecordStore
  import opened RecordOrder
  import opened UpsertRefinement
  import opened MixedRefinement

  /** The records have these owners, in the order of their ids. */
  ghost predicate Placed(s: State, key: string, owners: seq<Owner>) {
    && |owners| == s.sequence < TWO_32
    && forall i :: 1 <= i <= |owners| ==> RowOf(s, key, owners[i - 1]) == Some(IdBytes(i))
  }

  lemma SameRowsPlaced(s: State, t: State, key: string, owners: seq<Owner>)
    requires Placed(s, key, owners) && t.sequence == s.sequence
    requires RowsOf(t, key) == RowsOf(s, key) && RowsOf(t, "UUID") == RowsOf(s, "UUID")
    ensures Placed(t, key, owners)
  {
    hide IdBytes, RowsOf;
  }

  lemma FindPlaced(db: Db, key: string, owners: seq<Owner>)
    requires Placed(BucketOf(db), key, owners)
    ensures Placed(BucketOf(Db(AfterFind(db.results, db.known, key), {})), key, owners)
  {
    hide Placed, Opened;
    OpenedRows(BucketOf(db), db.known, key, key);
    OpenedRows(BucketOf(db), db.known, key, "UUID");
    OpenedPlaced(BucketOf(db), db.known, key, key, owners);
  }

  lemma OpenedPlaced(s: State, known: set<string>, name: string, key: string, owners: seq<Owner>)
    requires Placed(s, key, owners)
    ensures Placed(Opened(s, known, name), key, owners)
  {
    hide Placed;
    OpenedRows(s, known, name, key);
    OpenedRows(s, known, name, "UUID");
    SameRowsPlaced(s, Opened(s, known, name), key, owners);
  }

  /** A new record comes behind the others. */
  lemma RecordPlaced(s: State, known: set<string>, key: string, r: Record, owners: seq<Owner>)
    requires Placed(s, key, owners) && s.sequence + 1 < TWO_32 && key != "UUID" && RowOf(s, key, OwnerOf(key, r)) == None
    requires WithRecord(s, known, IndexFor(key, OwnerOf(key, r)), ValueOf(OwnerOf(key, r)), r).Some?
    ensures Placed(WithRecord(s, known, IndexFor(key, OwnerOf(key, r)), ValueOf(OwnerOf(key, r)), r).value, key, owners + [OwnerOf(key, r)])
  {
    hide IdBytes, RowOf, OwnerOf, WithRecord;
    var o := OwnerOf(key, r);
    RowsAfterRecord(s, known, key, r);
    ValuesWithRecordSequence(s, known, IndexFor(key, o), ValueOf(o), r);
    var t := WithRecord(s, known, IndexFor(key, o), ValueOf(o), r).value;
    forall i | 1 <= i <= t.sequence ensures RowOf(t, key, (owners + [o])[i - 1]) == Some(IdBytes(i)) {
      if i <= s.sequence {
        assert RowOf(s, key, owners[i - 1]) == Some(IdBytes(i));
      }
    }
  }

  lemma RowsPlaced(s: State, known: set<string>, key: string, name: string, rows: map<Bytes, Bytes>, owners: seq<Owner>)
    requires Placed(s, key, owners) && name != key && name != "UUID"
    ensures Placed(WithRows(Opened(s, known, name), name, rows), key, owners)
  {
    hide Placed;
    OpenedPlaced(s, known, name, key, owners);
    RowsAfter(Opened(s, known, name), name, rows, key);
    RowsAfter(Opened(s, known, name), name, rows, "UUID");
    SameRowsPlaced(Opened(s, known, name), WithRows(Opened(s, known, name), name, rows), key, owners);
  }

  /** The owners after one more add: one that has no record yet, and has one then, comes at the end. */
  function OwnersAfter(owners: seq<Owner>, p: Mixed, q: Mixed, o: Owner): seq<Owner> {
    if o in q.entries && o !in p.entries then owners + [o] else owners
  }

  lemma CreatedPlaced(s: State, known: set<string>, key: string, unique: Option<string>, p: Mixed, r: Record,
                      uniqueValue: Bytes, owners: seq<Owner>)
    requires Shows(s, key, unique, p) && Placed(s, key, owners) && s.sequence + 1 < TWO_32 && Apart(key, unique)
    requires KeyText(key, r) != "" && ByKey(KeyText(key, r)) !in p.entries
    ensures var t := Created(s, known, key, KeyText(key, r), r, unique, uniqueValue);
            t.Some? ==> Placed(t.value, key, owners + [ByKey(KeyText(key, r))])
  {
    hide Placed, KeyText, WithRecord, Opened, RowsOf, RowOf;
    NoRow(s, key, p.entries, ByKey(KeyText(key, r)));
    var t := WithRecord(s, known, key, KeyText(key, r), r);
    if t.Some? {
      RecordPlaced(s, known, key, r, owners);
      if unique.Some? {
        RowsPlaced(t.value, known + {key}, key, unique.value, RowsOf(t.value, unique.value)[uniqueValue := IdBytes(NextId(s))],
                   owners + [ByKey(KeyText(key, r))]);
      }
    }
  }

  lemma UuidAddPlaced(db: Db, key: string, unique: Option<string>, p: Mixed, r: Record, uniqueValue: Bytes, owners: seq<Owner>)
    requires Shows(BucketOf(db), key, unique, p) && Placed(BucketOf(db), key, owners) && BucketOf(db).sequence + 1 < TWO_32 && Apart(key, unique)
    requires KeyText(key, r) == "" && RowId(r.uuid) && |r.uuid| != 4
    ensures var t, after := UuidAdd(db, unique, uniqueValue, r), MixedAdd(p, ByUuid(r.uuid), r, UniqueOf(unique, uniqueValue));
            Placed(BucketOf(t.0), key, OwnersAfter(owners, p, after.0, ByUuid(r.uuid)))
  {
    hide Placed, KeyText, WithRecord, Opened, RowsOf, RowOf, RowId;
    var s, o := BucketOf(db), ByUuid(r.uuid);
    NoRow(s, key, p.entries, o);
    if o in p.entries {
      TakenUuidIsRefused(s, db.known, key, p.entries, r);
    } else {
      RecordShows(s, db.known, key, unique, p, r);
      var t := WithRecord(s, db.known, "UUID", r.uuid, r);
      if t.Some? {
        RecordPlaced(s, db.known, key, r, owners);
        if unique.Some? {
          var u := WithUuid(t.value, db.known + {"UUID"}, unique.value, uniqueValue, r.uuid);
          if u.Some? {
            RowsPlaced(t.value, db.known + {"UUID"}, key, unique.value,
                       WithRow(RowsOf(t.value, unique.value), uniqueValue, r.uuid).value, owners + [o]);
          }
        }
      }
    }
  }

  lemma KeyAddPlaced(db: Db, key: string, unique: Option<string>, p: Mixed, r: Record, uniqueValue: Bytes, owners: seq<Owner>)
    requires Shows(BucketOf(db), key, unique, p) && Placed(BucketOf(db), key, owners) && BucketOf(db).sequence + 1 < TWO_32 && Apart(key, unique)
    requires KeyText(key, r) != ""
    ensures var t, after := StoreAdd(db, key, KeyText(key, r), key, KeyText(key, r), unique, uniqueValue, r),
                            MixedAdd(p, ByKey(KeyText(key, r)), r, UniqueOf(unique, uniqueValue));
            Placed(BucketOf(t.0), key, OwnersAfter(owners, p, after.0, ByKey(KeyText(key, r))))
  {
    hide Placed, Shows, KeyText, Created, Opened, Lookup, RowsOf, Updated, AfterFind, KnownAfterFind, KnownAfter, Writable, Apart, DataBack;
    var value := KeyText(key, r);
    FindShows(db, key, key, unique, p);
    FindPlaced(db, key, owners);
    FoundByOwner(BucketOf(db), key, unique, p, value);
    var found := Db(AfterFind(db.results, db.known, key), KnownAfterFind(db.results, db.known, key, value));
    var t := BucketOf(found);
    FoundByOwner(t, key, unique, p, value);
    if ByKey(value) in p.entries {
      OpenedPlaced(t, found.known, key, key, owners);
      OpenedShows(t, found.known, key, key, unique, p);
      FoundByOwner(Opened(t, found.known, key), key, unique, p, value);
      UpdatedPlaced(Opened(t, found.known, key), key, r, owners);
    } else {
      CreatedPlaced(t, found.known, key, unique, p, r, uniqueValue, owners);
      CreatedShows(t, found.known, key, unique, p, r, uniqueValue);
    }
  }

  lemma UpdatedPlaced(s: State, key: string, r: Record, owners: seq<Owner>)
    requires Placed(s, key, owners) && KeyText(key, r) in RowsOf(s, key)
    ensures Placed(Updated(s, key, KeyText(key, r), r), key, owners)
  {
    hide KeyText, Placed;
    SameRowsPlaced(s, Updated(s, key, KeyText(key, r), r), key, owners);
  }

  lemma AnyAddPlaced(db: Db, key: string, unique: Option<string>, p: Mixed, o: Offer, owners: seq<Owner>)
    requires Shows(BucketOf(db), key, unique, p) && Placed(BucketOf(db), key, owners) && BucketOf(db).sequence + 1 < TWO_32
    requires Apart(key, unique) && UuidIsFine(key, o)
    ensures var after := MixedAdd(p, OwnerOf(key, o.record), o.record, UniqueOf(unique, o.uniqueValue));
            Placed(BucketOf(AnyAdd(db, key, unique, o).0), key, OwnersAfter(owners, p, after.0, OwnerOf(key, o.record)))
  {
    hide Placed, Shows, KeyText, StoreAdd, UuidAdd, MixedAdd, RowId, Apart, OwnersAfter;
    if KeyText(key, o.record) == "" {
      UuidAddPlaced(db, key, unique, p, o.record, o.uniqueValue, owners);
    } else {
      KeyAddPlaced(db, key, unique, p, o.record, o.uniqueValue, owners);
    }
  }

  // ---------- whole runs ----------

  /** The owners of the records that a run creates, in order. */
  function OwnersOf(key: string, unique: Option<string>, offers: seq<Offer>): seq<Owner> {
    if offers == [] then []
    else
      var init, o := offers[..|offers| - 1], offers[|offers| - 1];
      OwnersAfter(OwnersOf(key, unique, init), RunMixed(NOTHING, key, unique, init).0, RunMixed(NOTHING, key, unique, offers).0,
                  OwnerOf(key, o.record))
  }

  /** The bucket comes into being with the first record. */
  lemma OnlyRecordsMake(db: Db, key: string, unique: Option<string>, o: Offer)
    ensures var after := BucketOf(AnyAdd(db, key, unique, o).0);
            (db.results.Some? ==> BucketOf(db).sequence > 0) && AnyAdd(db, key, unique, o).0.results.Some? ==> after.sequence > 0
  {
    hide KeyText, IdBytes, Writable, DataBack;
  }

  lemma {:induction false} RunPlaced(key: string, unique: Option<string>, offers: seq<Offer>)
    requires |offers| < TWO_32 && Apart(key, unique) && forall o <- offers :: UuidIsFine(key, o)
    ensures var run := RunAny(Db(None, {}), key, unique, offers);
            Placed(BucketOf(run.0), key, OwnersOf(key, unique, offers)) && (run.0.results.Some? ==> BucketOf(run.0).sequence > 0)
  {
    hide Placed, Shows, KeyText, AnyAdd, MixedAdd, OwnerOf, UuidIsFine, Apart, OwnersAfter;
    if offers == [] {
      NonePlaced(key);
    } else {
      var init, o := offers[..|offers| - 1], offers[|offers| - 1];
      RunPlaced(key, unique, init);
      MixedRunRefines(key, unique, init);
      var before := RunAny(Db(None, {}), key, unique, init);
      AnyAddPlaced(before.0, key, unique, RunMixed(NOTHING, key, unique, init).0, o, OwnersOf(key, unique, init));
      OnlyRecordsMake(before.0, key, unique, o);
    }
  }

  lemma NonePlaced(key: string)
    ensures Placed(EMPTY, key, [])
  {
  }

  /** A value that is read is the record of an owner, with the data it has in the plain map as it comes back. */
  ghost predicate ReadsOwner(key: string, p: Mixed, asTorrent: bool, read: Value, o: Owner) {
    && o in p.entries && read.Stored?
    && exists r :: OwnerOf(key, r) == o && r.data == p.entries[o] && read.record == ReadAs(r, asTorrent)
  }

  /** After every run from the empty store, going over the records gives those of the items that were created, with and
      without their key, in the order in which they came, each with the data last added for its owner, as it comes
      back; up to record 0x5F5F696E. */
  lemma ReadsAnyInOrder(asTorrent: bool, key: string, unique: Option<string>, offers: seq<Offer>)
    requires |offers| < TWO_32 && Apart(key, unique) && forall o <- offers :: UuidIsFine(key, o)
    ensures var run, owners := RunAny(Db(None, {}), key, unique, offers), OwnersOf(key, unique, offers);
            run.0.results.Some? ==>
              var read := Readable(run.0.results.value, asTorrent, KeysInOrder(run.0.results.value), 0);
              && |read| == Reached(|owners|)
              && forall i :: 0 <= i < |read| ==> ReadsOwner(key, RunMixed(NOTHING, key, unique, offers).0, asTorrent, read[i], owners[i])
  {
    hide Placed, Shows, KeyText, Readable, KeysInOrder, OwnersOf, ReadsOwner, Apart, UuidIsFine;
    RunPlaced(key, unique, offers);
    MixedRunRefines(key, unique, offers);
    var run := RunAny(Db(None, {}), key, unique, offers);
    if run.0.results.Some? {
      ReadsPlaced(run.0.results.value, asTorrent, key, unique, RunMixed(NOTHING, key, unique, offers).0, OwnersOf(key, unique, offers));
    }
  }

  lemma ReadsPlaced(s: State, asTorrent: bool, key: string, unique: Option<string>, p: Mixed, owners: seq<Owner>)
    requires Shows(s, key, unique, p) && Placed(s, key, owners) && s.sequence > 0
    ensures var read := Readable(s, asTorrent, KeysInOrder(s), 0);
            |read| == Reached(|owners|) && forall i :: 0 <= i < |read| ==> ReadsOwner(key, p, asTorrent, read[i], owners[i])
  {
    hide IdBytes, OwnerOf, Readable, KeysInOrder, ReadAs, Formed, HoldsIds;
    assert 1 <= 1 <= |owners| && RowOf(s, key, owners[1 - 1]) == Some(IdBytes(1));
    HasIndex(s, key, owners[0]);
    ReadsInOrder(s, asTorrent);
    var read := Readable(s, asTorrent, KeysInOrder(s), 0);
    forall i | 0 <= i < |read| ensures ReadsOwner(key, p, asTorrent, read[i], owners[i]) {
      assert 1 <= i + 1 <= |read| && RowOf(s, key, owners[i]) == Some(IdBytes(i + 1));
      var r := s.values[IdBytes(i + 1)].record;
      assert read[(i + 1) - 1] == Decoded(s.values[IdBytes(i + 1)], asTorrent);
      assert OwnerOf(key, r) == owners[i];
    }
  }

  lemma HasIndex(s: State, key: string, o: Owner)
    requires RowOf(s, key, o).Some?
    ensures s.nested != map[]
  {
  }
}
