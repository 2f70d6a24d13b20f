/** Storing the items that a search found, with and without their key: the storage, used item by item, is the plain
    map. */
module Discovery {
  import opened Options
  import opened Fields
  import opened IndexKeys
  import opened RecordIds
  import opened Records
  import opened RecordStore
  import opened Sequences
  import opened UpsertRefinement
  import opened KeyedStorages
  import opened MixedRefinement

  /** The storage has a one-field key that is no UUID, and a unique key of another name or none. */
  ghost predicate KeyedBy(storage: KeyedStorage, key: string)
    reads storage, storage.indexKeys
  {
    storage.primaryKey == [key] && Apart(key, UniqueName(storage.indexKeys.fields)) && Parsed(key) != "UUIDValue"
  }

  /** What an item says before it is stored. */
  datatype Scraped = Scraped(record: Record, isNew: bool, isUpdate: bool) {
    function Item(): Item {
      AsItem(record, isNew, isUpdate)
    }

    function WithUuid(uuid: string): Record {
      record.(uuid := uuid)
    }

    function ItemWithUuid(uuid: string): Item {
      AsItem(WithUuid(uuid), isNew, isUpdate)
    }
  }

  /** The fields that are looked at can be. The key field is a text, or is missing; a key that is there names no struct
      field behind the prefix and no method, and no value of a scraped item was itself read back. */
  ghost predicate Keepable(s: Scraped, key: string, uniqueNames: seq<string>, uuid: string) {
    && RowId(uuid) && |uuid| != 4 && Inspectable([key], s.Item()) && ItemPrintable(uniqueNames, s.ItemWithUuid(uuid))
    && (HasPart(key, s.Item()) ==>
          && !Clashes(key, s.Item().fields.Keys, s.Item().methods.Keys) && ItemPrintable(uniqueNames, s.Item())
          && (s.record.torrent.None? ==> forall k <- s.record.data.Keys :: !s.record.data[k].Json?))
  }

  /** The item as it is offered to the store: without its key it gets the UUID. */
  ghost function OfferOf(s: Scraped, key: string, uniqueNames: seq<string>, uuid: string): Offer
    requires Keepable(s, key, uniqueNames, uuid)
  {
    if HasPart(key, s.Item()) then Offer(s.record, UniqueValue(uniqueNames, s.Item()))
    else Offer(s.WithUuid(uuid), if uniqueNames == [] then "" else ItemValue(uniqueNames, s.ItemWithUuid(uuid)))
  }

  // ---------- one item ----------

  /** What is read back holds no list of the type that an item has. */
  lemma StoredCompares(stored: ModelData, data: ModelData)
    requires forall k <- data.Keys :: !data[k].Json?
    ensures Comparable(DataBack(stored), data)
  {
  }

  lemma FoundCompares(db: Db, key: string, unique: Option<string>, p: Mixed, r: Record)
    requires Shows(BucketOf(db), key, unique, p) && forall k <- r.data.Keys :: !r.data[k].Json?
    ensures var found := Lookup(BucketOf(db), key, KeyText(key, r));
            found.Some? ==> Comparable(found.value.data, r.data)
  {
    hide KeyText, Shows, Comparable, DataBack, Lookup;
    FoundByOwner(BucketOf(db), key, unique, p, KeyText(key, r));
    if Lookup(BucketOf(db), key, KeyText(key, r)).Some? {
      StoredCompares(p.entries[ByKey(KeyText(key, r))], r.data);
    }
  }

  /** The item has a text under the key exactly if its record has, whatever its state and UUID. */
  lemma PartIsKeyText(s: Scraped, key: string, uuid: string)
    requires Parsed(key) != "UUIDValue"
    ensures HasPart(key, s.Item()) <==> KeyText(key, s.record) != ""
    ensures KeyText(key, s.WithUuid(uuid)) == KeyText(key, s.record)
  {
    hide FieldsOf, Parsed, MethodsOf;
    FieldsIgnoreUuid(s.record, uuid, Parsed(key));
  }

  lemma KeepableIsUsable(db: Db, s: Scraped, key: string, unique: Option<string>, p: Mixed, uniqueNames: seq<string>, uuid: string)
    requires Keepable(s, key, uniqueNames, uuid) && HasPart(key, s.Item()) && Shows(BucketOf(db), key, unique, p)
    ensures && Keyed([key], s.Item()) && OnceEach([key]) == [key] && QueryPrintable([key], s.Item())
            && KeyIndexName([key]) == QueryIndexName([key]) == key
            && ItemValue([key], s.Item()) == QueryValue([key], s.Item()) == KeyText(key, s.record)
            && CanMeet(db, [key], s.Item(), s.record.torrent.Some?)
  {
    OneFieldAgrees(key, s.record, s.isNew, s.isUpdate);
    hide KeyText, Shows, FieldsOf, MethodsOf, Comparable, Lookup, ItemValue, QueryValue;
    if s.record.torrent.None? {
      FoundCompares(db, key, unique, p, s.record);
    }
    AddedToNothing([key]);
  }

  /** What the plain map has to make of one item. */
  ghost function MixedStep(p: Mixed, key: string, unique: Option<string>, o: Offer): (Mixed, Outcome) {
    MixedAdd(p, OwnerOf(key, o.record), o.record, UniqueOf(unique, o.uniqueValue))
  }

  /** An item with a new key is new exactly if it can be written, its key fits, and its unique value fits and was taken by no
      other: its fields, or a placeholder where they are empty. */
  lemma NewExactly(p: Mixed, key: string, names: seq<string>, s: Scraped, uuid: string)
    requires Keepable(s, key, names, uuid) && HasPart(key, s.Item()) && Parsed(key) != "UUIDValue"
    requires ByKey(KeyText(key, s.record)) !in p.entries
    ensures ItemPrintable(names, s.Item())
    ensures var step, value := MixedStep(p, key, UniqueName(names), OfferOf(s, key, names, uuid)), ItemValue(names, s.Item());
            var entered := if value == "" then [0 as char, ';', 0 as char] else value;
            && (step.1.New? <==> && Writable(s.record) && 0 < |KeyText(key, s.record)| <= 32768
                                 && (names == [] || (entered !in p.taken && 0 < |entered| <= 32768)))
            && (step.1.New? || step.1.Refused?)
            && (step.1.New? ==> && step.0.entries == p.entries[ByKey(KeyText(key, s.record)) := s.record.data]
                                && step.0.taken == p.taken + if names == [] then {} else {entered})
  {
    hide HasPart, KeyText, ItemValue, AsItem, Clashes, ItemPrintable, RowId, KeyIndexName, Parsed, Writable, MixedAdd;
    PartIsKeyText(s, key, uuid);
    var o := OfferOf(s, key, names, uuid);
    NewByKeyExactly(p, KeyText(key, s.record), o.record, UniqueOf(UniqueName(names), o.uniqueValue));
  }

  /** So an item with a new key and a text for a one-field unique key is new if no item that was created had the text. */
  lemma NewTextIsNew(p: Mixed, key: string, name: string, text: string, s: Scraped, uuid: string)
    requires Keepable(s, key, [name], uuid) && HasPart(key, s.Item()) && Parsed(key) != "UUIDValue"
    requires Writable(s.record) && |KeyText(key, s.record)| <= 32768 && ByKey(KeyText(key, s.record)) !in p.entries
    requires ItemField(name, s.Item()) == Text(text) && 0 < |text| <= 32768 && text !in p.taken
    ensures var step := MixedStep(p, key, Some(name), OfferOf(s, key, [name], uuid));
            step.1.New? && step.0.taken == p.taken + {text}
  {
    hide HasPart, Writable, AsItem, Clashes, RowId, Parsed, MixedStep, OfferOf;
    assert Keepable(s, key, [name], uuid) && HasPart(key, s.Item()) ==> ItemPrintable([] + [name], s.Item()) by {
      assert [] + [name] == [name];
    }
    PartIsKeyText(s, key, uuid);
    ItemValueJoins([], name, s.Item());
    NamesJoin([], name);
    NewExactly(p, key, [name], s, uuid);
  }

  /** An item without its key is new exactly if its UUID is, it can be written, and its unique value fits and is not taken. */
  lemma NewWithoutKeyExactly(p: Mixed, key: string, names: seq<string>, s: Scraped, uuid: string)
    requires Keepable(s, key, names, uuid) && !HasPart(key, s.Item()) && Parsed(key) != "UUIDValue"
    ensures var step, value := MixedStep(p, key, UniqueName(names), OfferOf(s, key, names, uuid)), ItemValue(names, s.ItemWithUuid(uuid));
            && (step.1.New? <==> && ByUuid(uuid) !in p.entries && 0 < |uuid| <= 32768 && Writable(s.record)
                                 && (names == [] || (value !in p.taken && 0 < |value| <= 32768)))
            && (step.1.New? || step.1.Refused?)
            && (step.1.New? ==> && step.0.entries == p.entries[ByUuid(uuid) := s.record.data]
                                && step.0.taken == p.taken + if names == [] then {} else {value})
  {
    hide HasPart, KeyText, ItemValue, AsItem, Clashes, ItemPrintable, RowId, KeyIndexName, Parsed, Writable, MixedAdd;
    PartIsKeyText(s, key, uuid);
    var o := OfferOf(s, key, names, uuid);
    NewByUuidExactly(p, uuid, o.record, UniqueOf(UniqueName(names), o.uniqueValue));
    SameWritable(s.record, uuid);
  }

  lemma SameWritable(r: Record, uuid: string)
    ensures Writable(r.(uuid := uuid)) == Writable(r)
  {
  }

  /** The buckets show the plain map, and there are ids for so many more items. */
  ghost predicate Room(s: State, key: string, unique: Option<string>, p: Mixed, more: nat) {
    Shows(s, key, unique, p) && s.sequence + more < TWO_32
  }

  /** What the storage does with an item that has its key is the step of the plain map. */
  lemma AddIsMixedStep(db: Db, s: Scraped, key: string, names: seq<string>, uuid: string, p: Mixed, more: nat)
    requires Keepable(s, key, names, uuid) && HasPart(key, s.Item()) && Apart(key, UniqueName(names)) && Parsed(key) != "UUIDValue"
    requires Room(BucketOf(db), key, UniqueName(names), p, more + 1)
    ensures ItemPrintable(names, s.Item()) && Keyed([key], s.Item()) && QueryPrintable(OnceEach([key]), s.Item())
    ensures CanMeet(db, [key], s.Item(), s.record.torrent.Some?)
    ensures var after := StoreAdd(db, QueryIndexName(OnceEach([key])), QueryValue(OnceEach([key]), s.Item()),
                                  KeyIndexName([key]), ItemValue([key], s.Item()),
                                  UniqueName(names), UniqueValue(names, s.Item()), s.record);
            var step := MixedStep(p, key, UniqueName(names), OfferOf(s, key, names, uuid));
            after.1 == step.1 && Room(BucketOf(after.0), key, UniqueName(names), step.0, more)
  {
    hide Shows, MixedAdd, KeyText, StoreAdd, UniqueValue, ItemValue, QueryValue, ItemPrintable, QueryPrintable, Keyed, HasPart,
      AsItem, Clashes, OnceEach, QueryIndexName, KeyIndexName, RowId, UniqueName, CanMeet, Apart;
    PartIsKeyText(s, key, uuid);
    KeepableIsUsable(db, s, key, UniqueName(names), p, names, uuid);
    AnyAddSteps(db, key, UniqueName(names), p, OfferOf(s, key, names, uuid));
  }

  lemma CreateIsMixedStep(db: Db, s: Scraped, key: string, names: seq<string>, uuid: string, p: Mixed, more: nat)
    requires Keepable(s, key, names, uuid) && !HasPart(key, s.Item()) && Apart(key, UniqueName(names)) && Parsed(key) != "UUIDValue"
    requires Room(BucketOf(db), key, UniqueName(names), p, more + 1)
    ensures var value := if names == [] then "" else ItemValue(names, s.ItemWithUuid(uuid));
            var after := UuidAdd(db, UniqueName(names), value, s.WithUuid(uuid));
            var step := MixedStep(p, key, UniqueName(names), OfferOf(s, key, names, uuid));
            after.1 == step.1 && Room(BucketOf(after.0), key, UniqueName(names), step.0, more)
  {
    hide Shows, MixedAdd, KeyText, UuidAdd, ItemValue, ItemPrintable, HasPart, AsItem, RowId, UniqueName, Apart;
    PartIsKeyText(s, key, uuid);
    AnyAddSteps(db, key, UniqueName(names), p, OfferOf(s, key, names, uuid));
  }

  /** Whether an item is called new and an update after its outcome; a failure leaves both. */
  ghost function StateAfter(s: Scraped, outcome: Outcome): (bool, bool) {
    if outcome.Refused? then (s.isNew, s.isUpdate) else (outcome.New?, outcome.Changed?)
  }

  ghost function Seen(item: ResultItem): Scraped
    reads item
  {
    Scraped(item.record, item.isNew, item.isUpdate)
  }

  /** A storage with such keys, whose buckets show the plain map. */
  ghost predicate Stands(storage: KeyedStorage, key: string, p: Mixed, more: nat)
    reads storage, storage.backing, storage.indexKeys
  {
    && storage.Valid() && KeyedBy(storage, key)
    && Room(BucketOf(storage.Buckets()), key, UniqueName(storage.indexKeys.fields), p, more)
  }

  /** Stores one item; a failure is only logged. There are ids for so many more. */
  method SaveItem(storage: KeyedStorage, item: ResultItem, uuid: string, ghost key: string, ghost p: Mixed, ghost more: nat)
    requires Stands(storage, key, p, more + 1) && Keepable(Seen(item), key, storage.indexKeys.fields, uuid)
    modifies storage.backing, item
    ensures var step := old(MixedStep(p, key, UniqueName(storage.indexKeys.fields),
                                      OfferOf(Seen(item), key, storage.indexKeys.fields, uuid)));
            Stands(storage, key, step.0, more) && (item.isNew, item.isUpdate) == StateAfter(old(Seen(item)), step.1)
  {
    hide Room, MixedStep, StoreAdd, CreatedWithUuid, UniqueValue, ItemValue, QueryValue, CanMeet, ItemPrintable, QueryPrintable,
      Keyed, HasPart, AsItem, Clashes, OnceEach, QueryIndexName, KeyIndexName, RowId, OfferOf;
    ghost var s, names, db := Seen(item), storage.indexKeys.fields, storage.Buckets();
    if HasPart(key, s.Item()) {
      AddIsMixedStep(db, s, key, names, uuid, p, more);
    } else {
      CreateIsMixedStep(db, s, key, names, uuid, p, more);
    }
    var ok := storage.Add(item, uuid);
  }

  // ---------- all of them ----------

  ghost predicate AllKeepable(items: seq<Scraped>, key: string, uniqueNames: seq<string>, uuids: seq<string>)
    requires |items| == |uuids|
  {
    forall i :: 0 <= i < |items| ==> Keepable(items[i], key, uniqueNames, uuids[i])
  }

  /** The items as they are offered to the storage. */
  ghost function OffersOf(items: seq<Scraped>, key: string, uniqueNames: seq<string>, uuids: seq<string>): (offers: seq<Offer>)
    requires |items| == |uuids| && AllKeepable(items, key, uniqueNames, uuids)
    ensures |offers| == |items|
    ensures forall i :: 0 <= i < |items| ==>
              Keepable(items[i], key, uniqueNames, uuids[i]) && offers[i] == OfferOf(items[i], key, uniqueNames, uuids[i])
  {
    seq(|items|, i requires 0 <= i < |items| =>
      assert Keepable(items[i], key, uniqueNames, uuids[i]);
      OfferOf(items[i], key, uniqueNames, uuids[i]))
  }

  ghost function AllSeen(items: seq<ResultItem>): (all: seq<Scraped>)
    reads items
    ensures |all| == |items| && forall i :: 0 <= i < |items| ==> all[i] == Seen(items[i])
  {
    if items == [] then [] else AllSeen(items[..|items| - 1]) + [Seen(items[|items| - 1])]
  }

  lemma OthersStay<T>(s: seq<T>)
    requires NoRepeats(s)
    ensures forall i, j :: 0 <= i < |s| && 0 <= j < |s| && i != j ==> s[i] != s[j]
  {
  }

  lemma RunNext(p: Mixed, key: string, unique: Option<string>, offers: seq<Offer>, i: nat)
    requires i < |offers|
    ensures var before, after := RunMixed(p, key, unique, offers[..i]), RunMixed(p, key, unique, offers[..i + 1]);
            var step := MixedStep(before.0, key, unique, offers[i]);
            after == (step.0, before.1 + [step.1])
  {
    hide OwnerOf, MixedAdd;
    assert offers[..i + 1][..i] == offers[..i];
  }

  lemma NothingRuns(p: Mixed, key: string, unique: Option<string>, offers: seq<Offer>)
    ensures RunMixed(p, key, unique, offers[..0]) == (p, [])
  {
  }

  /** Storing the items one after the other is a run of the plain map: its entries, and every item's state. */
  method SaveDiscoveredItems(storage: KeyedStorage, items: seq<ResultItem>, uuids: seq<string>, ghost key: string, ghost p: Mixed)
    requires Stands(storage, key, p, |items|) && NoRepeats(items) && |uuids| == |items|
    requires AllKeepable(AllSeen(items), key, storage.indexKeys.fields, uuids)
    modifies storage.backing, items
    ensures var run := old(RunMixed(p, key, UniqueName(storage.indexKeys.fields),
                                    OffersOf(AllSeen(items), key, storage.indexKeys.fields, uuids)));
            && Stands(storage, key, run.0, 0) && |run.1| == |items|
            && forall i :: 0 <= i < |items| ==> (items[i].isNew, items[i].isUpdate) == StateAfter(old(AllSeen(items))[i], run.1[i])
  {
    hide *;
    ghost var names, was := storage.indexKeys.fields, AllSeen(items);
    ghost var unique, offers := UniqueName(names), OffersOf(was, key, names, uuids);
    ghost var q, outcomes: seq<Outcome> := p, [];
    NothingRuns(p, key, unique, offers);
    OthersStay(items);
    var i := 0;
    while i < |items|
      invariant 0 <= i <= |items| == |was| == |offers| && |outcomes| == i
      invariant Stands(storage, key, q, |items| - i)
      invariant (q, outcomes) == RunMixed(p, key, unique, offers[..i])
      invariant forall j :: 0 <= j < i ==> (items[j].isNew, items[j].isUpdate) == StateAfter(was[j], outcomes[j])
      invariant forall j :: i <= j < |items| ==> Seen(items[j]) == was[j]
    {
      RunNext(p, key, unique, offers, i);
      SaveItem(storage, items[i], uuids[i], key, q, |items| - i - 1);
      ghost var step := MixedStep(q, key, unique, offers[i]);
      q, outcomes := step.0, outcomes + [step.1];
      i := i + 1;
    }
    assert offers[..i] == offers;
  }
}
