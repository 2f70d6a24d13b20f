/** Runs of adds and what going over the records then gives: the items that were created, in that order. */
module CreationOrder {
  import opened Options
  import opened ByteStrings
  import opened Fields
  import opened RecordIds
  import opened Records
  import opened RecordStore
  import opened RecordOrder
  import opened UpsertRefinement

  /** The records have the key values `keys`, in the order of their ids. */
  ghost predicate CreatedAs(s: State, key: string, keys: seq<string>) {
    && |keys| == s.sequence < TWO_32
    && forall i :: 1 <= i <= |keys| ==>
         IdBytes(i) in s.values && s.values[IdBytes(i)].Stored? && KeyText(key, s.values[IdBytes(i)].record) == keys[i - 1]
  }

  lemma IdsAreNotMeta(id: nat)
    requires id < TWO_32
    ensures IdBytes(id) != META_KEY
  {
  }

  lemma OpenedKeepsOrder(s: State, known: set<string>, name: string, key: string, keys: seq<string>)
    requires CreatedAs(s, key, keys)
    ensures CreatedAs(Opened(s, known, name), key, keys)
  {
    hide IdBytes, KeyText;
    forall i | 1 <= i <= |keys| ensures IdBytes(i) != META_KEY {
      IdsAreNotMeta(i);
    }
  }

  lemma RecordJoinsOrder(s: State, known: set<string>, key: string, value: Bytes, r: Record, keys: seq<string>)
    requires CreatedAs(s, key, keys) && s.sequence + 1 < TWO_32 && WithRecord(s, known, key, value, r).Some?
    ensures CreatedAs(WithRecord(s, known, key, value, r).value, key, keys + [KeyText(key, r)])
  {
    hide IdBytes, KeyText;
    var n := s.sequence + 1;
    IdsAreNotMeta(n);
    ValuesWithRecord(s, known, key, value, r);
    KeyTextIgnoresId(key, r, n);
    hide WithRecord;
    forall i | 1 <= i <= |keys| ensures IdBytes(i) != META_KEY && IdBytes(i) != IdBytes(n) {
      IdsAreNotMeta(i);
      IdsAreOrdered(i, n);
    }
  }

  lemma UniqueKeepsOrder(s: State, known: set<string>, name: string, value: Bytes, id: Bytes, key: string, keys: seq<string>)
    requires CreatedAs(s, key, keys) && WithUnique(s, known, name, value, id).Some?
    ensures CreatedAs(WithUnique(s, known, name, value, id).value, key, keys)
  {
    hide IdBytes, KeyText;
    OpenedKeepsOrder(s, known, name, key, keys);
  }

  lemma UpdateKeepsOrder(s: State, key: string, r: Record, keys: seq<string>)
    requires Inv(s, key) && CreatedAs(s, key, keys) && KeyText(key, r) in RowsOf(s, key)
    ensures CreatedAs(Updated(s, key, KeyText(key, r), r), key, keys)
  {
    hide IdBytes, KeyText;
  }

  lemma CreateKeepsOrder(s: State, known: set<string>, key: string, r: Record, unique: Option<string>, uniqueValue: Bytes,
                         keys: seq<string>)
    requires CreatedAs(s, key, keys) && s.sequence + 1 < TWO_32
    ensures var t := Created(s, known, key, KeyText(key, r), r, unique, uniqueValue);
            t.Some? ==> CreatedAs(t.value, key, keys + [KeyText(key, r)])
  {
    hide CreatedAs, KeyText, IdBytes, WithRecord, WithUnique;
    var t := WithRecord(s, known, key, KeyText(key, r), r);
    if t.Some? {
      RecordJoinsOrder(s, known, key, KeyText(key, r), r, keys);
      if unique.Some? && WithUnique(t.value, known + {key}, unique.value, uniqueValue, IdBytes(NextId(s))).Some? {
        UniqueKeepsOrder(t.value, known + {key}, unique.value, uniqueValue, IdBytes(NextId(s)), key, keys + [KeyText(key, r)]);
      }
    }
  }

  /** A new item joins the order at its end; no other add changes it. */
  lemma AddKeepsOrder(db: Db, key: string, unique: Option<string>, uniqueValue: Bytes, r: Record, keys: seq<string>)
    requires Inv(BucketOf(db), key) && CreatedAs(BucketOf(db), key, keys) && BucketOf(db).sequence + 1 < TWO_32
    ensures var after := StoreAdd(db, key, KeyText(key, r), key, KeyText(key, r), unique, uniqueValue, r);
            CreatedAs(BucketOf(after.0), key, if after.1.New? then keys + [KeyText(key, r)] else keys)
  {
    hide Inv, CreatedAs, KeyText, Created, Opened, Lookup, RowsOf, Updated, KnownAfter, AfterFind, KnownAfterFind;
    var value := KeyText(key, r);
    var found := Db(AfterFind(db.results, db.known, key), KnownAfterFind(db.results, db.known, key, value));
    var s := BucketOf(found);
    FindKeepsOrder(db, key, keys);
    CreateKeepsOrder(s, found.known, key, r, unique, uniqueValue, keys);
    if value in RowsOf(s, key) {
      ChangeKeepsOrder(s, found.known, key, r, keys);
    }
  }

  lemma FindKeepsOrder(db: Db, key: string, keys: seq<string>)
    requires Inv(BucketOf(db), key) && CreatedAs(BucketOf(db), key, keys)
    ensures var s := BucketOf(Db(AfterFind(db.results, db.known, key), db.known));
            Inv(s, key) && CreatedAs(s, key, keys) && s.sequence == BucketOf(db).sequence
  {
    hide Inv, CreatedAs, Opened;
    OpenedInv(BucketOf(db), db.known, key, key, None);
    OpenedKeepsOrder(BucketOf(db), db.known, key, key, keys);
  }

  lemma ChangeKeepsOrder(s: State, known: set<string>, key: string, r: Record, keys: seq<string>)
    requires Inv(s, key) && CreatedAs(s, key, keys) && KeyText(key, r) in RowsOf(s, key)
    ensures KeyText(key, r) in RowsOf(Opened(s, known, key), key)
    ensures CreatedAs(Updated(Opened(s, known, key), key, KeyText(key, r), r), key, keys)
  {
    hide Inv, CreatedAs, KeyText, Opened, Updated, RowsOf;
    OpenedRows(s, known, key, key);
    OpenedInv(s, known, key, key, None);
    OpenedKeepsOrder(s, known, key, key, keys);
    UpdateKeepsOrder(Opened(s, known, key), key, r, keys);
  }

  /** The key values of the items that were new, in order. */
  function NewKeys(key: string, offers: seq<Offer>, outcomes: seq<Outcome>): seq<string>
    requires |offers| == |outcomes|
  {
    if offers == [] then []
    else
      var n := |offers| - 1;
      NewKeys(key, offers[..n], outcomes[..n]) + (if outcomes[n].New? then [KeyText(key, offers[n].record)] else [])
  }

  lemma NewKeysNext(key: string, offers: seq<Offer>, outcomes: seq<Outcome>, o: Offer, outcome: Outcome)
    requires |offers| == |outcomes|
    ensures NewKeys(key, offers + [o], outcomes + [outcome]) ==
            if outcome.New? then NewKeys(key, offers, outcomes) + [KeyText(key, o.record)] else NewKeys(key, offers, outcomes)
  {
    hide KeyText;
    assert (offers + [o])[..|offers|] == offers && (outcomes + [outcome])[..|outcomes|] == outcomes;
  }

  lemma {:induction false} RunOutcomes(db: Db, key: string, unique: Option<string>, offers: seq<Offer>)
    ensures |RunStore(db, key, unique, offers).1| == |offers|
  {
    if offers == [] {
      assert RunStore(db, key, unique, offers).1 == [];
    } else {
      RunOutcomes(db, key, unique, offers[..|offers| - 1]);
    }
  }

  lemma {:induction false} RunKeepsOrder(key: string, unique: Option<string>, offers: seq<Offer>)
    requires |offers| < TWO_32 && unique != Some(key)
    ensures var run := RunStore(Db(None, {}), key, unique, offers);
            && |run.1| == |offers|
            && CreatedAs(BucketOf(run.0), key, NewKeys(key, offers, run.1))
            && (run.0.results.Some? ==> BucketOf(run.0).sequence > 0)
  {
    hide Inv, CreatedAs, KeyText, StoreAdd, NewKeys, RunPlain, Abstract, CountNew;
    RunOutcomes(Db(None, {}), key, unique, offers);
    if offers == [] {
      NothingCreated(key);
      NoNewKeys(key);
    } else {
      var init, o := offers[..|offers| - 1], offers[|offers| - 1];
      RunKeepsOrder(key, unique, init);
      RunRefines(key, unique, init);
      RunOutcomes(Db(None, {}), key, unique, init);
      var before, run := RunStore(Db(None, {}), key, unique, init), RunStore(Db(None, {}), key, unique, offers);
      AddKeepsOrder(before.0, key, unique, o.uniqueValue, o.record, NewKeys(key, init, before.1));
      AddRefines(before.0, key, unique, o.uniqueValue, o.record);
      OnlyNewMakes(before.0, key, unique, o.uniqueValue, o.record);
      assert offers == init + [o] && run.1 == before.1 + [run.1[|init|]];
      NewKeysNext(key, init, before.1, o, run.1[|init|]);
    }
  }

  lemma NoNewKeys(key: string)
    ensures NewKeys(key, [], []) == []
  {
  }

  /** The bucket comes into being with the first record. */
  lemma OnlyNewMakes(db: Db, key: string, unique: Option<string>, uniqueValue: Bytes, r: Record)
    ensures var after := StoreAdd(db, key, KeyText(key, r), key, KeyText(key, r), unique, uniqueValue, r);
            db.results.None? && after.0.results.Some? ==> after.1.New?
  {
    hide KeyText, Created, Opened;
  }

  lemma NothingCreated(key: string)
    ensures CreatedAs(EMPTY, key, [])
  {
  }

  lemma RecordsHaveIndex(s: State, key: string, keys: seq<string>)
    requires Inv(s, key) && CreatedAs(s, key, keys) && s.sequence > 0
    ensures s.nested != map[]
  {
    hide IdBytes, KeyText;
    IdsAreNotMeta(1);
    assert IdBytes(1) in s.values;
    assert KeyText(key, s.values[IdBytes(1)].record) in RowsOf(s, key);
  }

  /** A value that is read is the record of a key value, with its data as it comes back. */
  ghost predicate Reads(s: State, asTorrent: bool, key: string, read: Value, value: string)
    requires Inv(s, key)
  {
    && value in Entries(s, key) && read.Stored? && read.record.data == DataBack(Entries(s, key)[value])
    && exists r :: KeyText(key, r) == value && read.record == ReadAs(r, asTorrent)
  }

  lemma ReadsCreated(s: State, asTorrent: bool, key: string, keys: seq<string>)
    requires Inv(s, key) && CreatedAs(s, key, keys) && s.sequence > 0
    ensures var read := Readable(s, asTorrent, KeysInOrder(s), 0);
            |read| == Reached(|keys|) && forall i :: 0 <= i < |read| ==> Reads(s, asTorrent, key, read[i], keys[i])
  {
    RecordsHaveIndex(s, key, keys);
    ReadsInOrder(s, asTorrent);
    hide IdBytes, KeyText, Readable, KeysInOrder;
    var read := Readable(s, asTorrent, KeysInOrder(s), 0);
    forall i | 0 <= i < |read| ensures Reads(s, asTorrent, key, read[i], keys[i]) {
      assert 1 <= i + 1 <= |read|;
      IdsAreNotMeta(i + 1);
      var r := s.values[IdBytes(i + 1)].record;
      assert read[(i + 1) - 1] == Decoded(s.values[IdBytes(i + 1)], asTorrent);
      assert KeyText(key, r) == keys[i] && read[i].record == ReadAs(r, asTorrent);
    }
  }

  /** After every run from the empty store, going over the records gives the items that were new, in the order in
      which they were, each with its key value and the data last added under it, as it comes back; up to record
      0x5F5F696E. */
  lemma ReadsNewInOrder(asTorrent: bool, key: string, unique: Option<string>, offers: seq<Offer>)
    requires |offers| < TWO_32 && unique != Some(key)
    ensures |RunStore(Db(None, {}), key, unique, offers).1| == |offers|
    ensures var run := RunStore(Db(None, {}), key, unique, offers);
            run.0.results.Some? ==>
              var s, keys := run.0.results.value, NewKeys(key, offers, run.1);
              var read := Readable(s, asTorrent, KeysInOrder(s), 0);
              && Inv(s, key) && |read| == Reached(|keys|)
              && forall i :: 0 <= i < |read| ==> Reads(s, asTorrent, key, read[i], keys[i])
  {
    hide Inv, CreatedAs, KeyText, Readable, KeysInOrder;
    RunKeepsOrder(key, unique, offers);
    RunRefines(key, unique, offers);
    var run := RunStore(Db(None, {}), key, unique, offers);
    if run.0.results.Some? {
      ReadsCreated(run.0.results.value, asTorrent, key, NewKeys(key, offers, run.1));
    }
  }
}
