/** The store of records: every write is a transaction on the committed buckets, kept whole or not at all. */
module RecordStore {
  import opened Options
  import opened ByteStrings
  import opened Buckets
  import opened Cursors
  import opened UniqueIndexes
  import opened LatestResults
  import LatestOrder
  import opened RecordIds
  import opened Fields
  import opened IndexKeys
  import opened Joins
  import opened Records

  const DEFAULT_KEY: seq<string> := ["UUID"]
  const NO_UNIQUE_VALUE: Bytes := [NUL, ';', NUL]

  /** The bucket inside a transaction as a value. */
  function StateOf(bucket: Bucket<Value>): State
    reads bucket
  {
    State(bucket.values, bucket.nested, bucket.sequence)
  }

  function UniqueName(names: seq<string>): Option<string> {
    if names == [] then None else Some(KeyIndexName(names))
  }

  /** The value under which a record is unique; a placeholder where it has none. */
  ghost function UniqueValue(names: seq<string>, item: Item): Bytes
    requires ItemPrintable(names, item)
  {
    if names == [] || ItemValue(names, item) == "" then NO_UNIQUE_VALUE else ItemValue(names, item)
  }

  lemma {:induction false} JoinedToNothing(parts: seq<string>)
    requires parts != []
    ensures Join(parts, ZERO) == "" <==> parts == [""]
  {
    if |parts| == 1 {
      assert parts == [parts[0]];
    } else {
      assert |Join(parts, ZERO)| == |parts[0]| + 1 + |Join(parts[1..], ZERO)|;
    }
  }

  lemma JoinedToPlaceholder(parts: seq<string>)
    requires parts != [] && ZeroFree(parts)
    ensures Join(parts, ZERO) == [0 as char, ';', 0 as char] <==> parts == ["", ";", ""]
  {
    var three := ["", ";", ""];
    assert ZeroFree(three);
    assert three[1..] == [";", ""] && three[1..][1..] == [""];
    assert Join(three[1..], ZERO) == ";" + ZERO + "";
    assert Join(three, ZERO) == [0 as char, ';', 0 as char];
    JoinInjective(parts, three);
  }

  /** The placeholder is the value exactly of an item whose one field is empty, and of one whose three fields happen to
      join to it; other items have the value of their fields. */
  lemma PlaceholderExactly(names: seq<string>, item: Item)
    requires names != [] && ItemPrintable(names, item) && ZeroFree(ItemParts(names, item))
    ensures UniqueValue(names, item) == [0 as char, ';', 0 as char] <==> ItemParts(names, item) in {[""], ["", ";", ""]}
    ensures ItemParts(names, item) != [""] ==> UniqueValue(names, item) == ItemValue(names, item)
  {
    hide Join, ZeroFree;
    JoinedToNothing(ItemParts(names, item));
    JoinedToPlaceholder(ItemParts(names, item));
  }

  /** Two items have the same unique value exactly if they have the same fields of the key. */
  lemma CollideExactly(names: seq<string>, a: Item, b: Item)
    requires names != [] && ItemPrintable(names, a) && ItemPrintable(names, b)
    requires ZeroFree(ItemParts(names, a)) && ZeroFree(ItemParts(names, b))
    ensures UniqueValue(names, a) == UniqueValue(names, b) <==> ItemParts(names, a) == ItemParts(names, b)
  {
    hide Join, ZeroFree;
    PlaceholderExactly(names, a);
    PlaceholderExactly(names, b);
    JoinInjective(ItemParts(names, a), ItemParts(names, b));
    JoinedToNothing(ItemParts(names, a));
    JoinedToNothing(ItemParts(names, b));
  }

  lemma UniqueIsEntered(s: State, known: set<string>, primary: string, value: Bytes, r: Record, name: string, uniqueValue: Bytes)
    ensures var t := Created(s, known, primary, value, r, Some(name), uniqueValue);
            t.Some? ==> uniqueValue in RowsOf(t.value, name) && RowsOf(t.value, name)[uniqueValue] == IdBytes(NextId(s))
  {
    hide WithRecord, IdBytes;
  }

  /** The bucket after a value was made to lead to a UUID. */
  function WithUuid(s: State, known: set<string>, name: string, value: Bytes, uuid: string): Option<State> {
    var rows := WithRow(RowsOf(s, name), value, uuid);
    if rows.None? then None else Some(WithRows(Opened(s, known, name), name, rows.value))
  }

  /** A record that is created under its UUID, and the UUID under a further value, if there is one; whether all of
      it succeeded. */
  function CreatedWithUuid(results: Option<State>, known: set<string>, r: Record, name: Option<string>, value: Bytes)
    : (Option<State>, set<string>, bool)
  {
    var t := WithRecord(if results.Some? then results.value else EMPTY, known, "UUID", r.uuid, r);
    if t.None? then (results, known + {"UUID"}, false)
    else if name.None? then (t, known + {"UUID"}, true)
    else
      var u := WithUuid(t.value, known + {"UUID"}, name.value, value, r.uuid);
      (if u.Some? then u else t, known + {"UUID", name.value}, u.Some?)
  }

  class Storage {
    /** Whether it was built for torrent items. */
    const ofTorrents: bool
    /** The committed bucket of the records, if it was ever written. */
    var results: Option<State>
    /** The committed ring of the latest records. */
    var latest: map<Bytes, Slot<Record>>
    /** The indexes known in memory. */
    var known: set<string>
    /** The records that were put into the ring. */
    ghost var pushed: seq<Record>

    constructor (ofTorrents: bool)
      ensures this.ofTorrents == ofTorrents
      ensures Valid() && results == None && latest == map[] && known == {} && pushed == []
    {
      this.ofTorrents := ofTorrents;
      results, latest, known, pushed := None, map[], {}, [];
    }

    ghost predicate Valid()
      reads this
    {
      (results.Some? ==> Formed(results.value)) && Holds(latest, pushed)
    }

    function Committed(): State
      reads this
    {
      if results.Some? then results.value else EMPTY
    }

    /** Starts a transaction on the bucket of the records. */
    method Begin() returns (bucket: Bucket<Value>)
      ensures fresh(bucket) && StateOf(bucket) == Committed()
    {
      var s := Committed();
      bucket := new Bucket(s.values, s.nested, s.sequence);
    }

    method Commit(bucket: Bucket<Value>)
      modifies this`results
      ensures results == Some(StateOf(bucket))
    {
      results := Some(StateOf(bucket));
    }

    /** The index of that name; it is created, and noted, if it is missing. */
    method GetIndex(bucket: Bucket<Value>, name: string) returns (ok: bool, index: UniqueIndex<Value>)
      requires Formed(StateOf(bucket))
      modifies this`known, bucket`values, bucket`nested
      ensures ok && StateOf(bucket) == old(Opened(StateOf(bucket), known, name)) && known == old(known) + {name}
      ensures index.parent == bucket && index.name == IndexName(name) && index.Valid()
      ensures bucket.nested == if "__index_" + name in old(bucket.nested) then old(bucket.nested)
                               else old(bucket.nested)["__index_" + name := map[]]
      ensures bucket.values == if name in old(known) then old(bucket.values) else old(bucket.values)["__meta" := Meta(old(known) + {name})]
      ensures Formed(StateOf(bucket))
    {
      OpenedFormed(StateOf(bucket), known, name);
      var indexName := IndexName(name);
      IndexNamesDiffer(name, name);
      ok := bucket.CreateBucketIfNotExists(indexName);
      index := new UniqueIndex(bucket, indexName);
      if !ok {
        return;
      }
      if name !in known {
        known := known + {name};
        var saved := bucket.Put(META_KEY, Meta(known));
      }
    }

    /** Gives the item the next id and stores it under it; the value of the primary index leads to the id. An item
        that cannot be written leaves its entry in the index behind. */
    method CreateWithAutoIncrementingID(bucket: Bucket<Value>, item: ResultItem, primaryIndex: UniqueIndex<Value>,
                                        indexValue: Bytes) returns (ok: bool, idBytes: Bytes)
      requires Formed(StateOf(bucket)) && primaryIndex.parent == bucket && primaryIndex.Valid()
      requires INDEX_PREFIX <= primaryIndex.name
      modifies bucket, item`record
      ensures item.record == old(item.record.(id := NextId(StateOf(bucket))))
      ensures idBytes == IdBytes(old(NextId(StateOf(bucket))))
      ensures var rows := old(WithRow(primaryIndex.Rows(), indexValue, IdBytes(NextId(StateOf(bucket)))));
              && (ok <==> rows.Some? && Writable(item.record))
              && StateOf(bucket) == State(if ok then old(bucket.values)[idBytes := Stored(item.record)] else old(bucket.values),
                                          if rows.Some? then old(bucket.nested)[primaryIndex.name := rows.value] else old(bucket.nested),
                                          old(bucket.sequence) + 1)
    {
      var nextID := bucket.NextSequence();
      item.record := item.record.(id := nextID % TWO_32);
      idBytes := IdBytes(item.record.id);
      IdsAreRowIds(item.record.id);
      ok := primaryIndex.Add(Some(indexValue), Some(idBytes));
      if !ok {
        return;
      }
      if !Writable(item.record) {
        return false, idBytes;
      }
      ok := bucket.Put(idBytes, Stored(item.record));
    }

    /** Adds the value to the unique index, unless it is taken. */
    method AddUniqueIndexRecord(bucket: Bucket<Value>, uniqueNames: seq<string>, uniqueValue: Bytes, idBytes: Bytes) returns (ok: bool)
      requires Formed(StateOf(bucket)) && RowId(idBytes)
      modifies this`known, bucket`values, bucket`nested
      ensures known == old(known) + (if uniqueNames == [] then {} else {KeyIndexName(uniqueNames)})
      ensures uniqueNames == [] ==> ok && StateOf(bucket) == old(StateOf(bucket))
      ensures uniqueNames != [] ==>
                var t := old(WithUnique(StateOf(bucket), known, KeyIndexName(uniqueNames), uniqueValue, idBytes));
                (ok <==> t.Some?)
                && StateOf(bucket) == if ok then t.value else old(Opened(StateOf(bucket), known, KeyIndexName(uniqueNames)))
    {
      if uniqueNames == [] {
        return true;
      }
      var index: UniqueIndex<Value>;
      ok, index := GetIndex(bucket, KeyIndexName(uniqueNames));
      if !ok {
        return;
      }
      var existing := index.Get(uniqueValue);
      if existing.Some? {
        return false;
      }
      ok := index.Add(Some(uniqueValue), Some(idBytes));
    }

    /** Creates a record under a primary key, and under a unique key if one is given: all of it or nothing. */
    method CreateWithID(keyNames: seq<string>, item: ResultItem, uniqueNames: seq<string>) returns (ok: bool)
      requires Valid() && ItemPrintable(keyNames, item.View()) && ItemPrintable(uniqueNames, item.View())
      modifies this, item`record
      ensures Valid()
      ensures var primary, value := KeyIndexName(keyNames), old(ItemValue(keyNames, item.View()));
              var t := old(Created(Committed(), known, primary, value, item.record,
                                   UniqueName(uniqueNames), UniqueValue(uniqueNames, item.View())));
              && (ok <==> t.Some?)
              && results == (if ok then t else old(results))
              && known == old(KnownAfter(Committed(), known, primary, value, item.record, UniqueName(uniqueNames)))
      ensures item.record == old(item.record.(id := NextId(Committed())))
      ensures pushed == if ok then old(pushed) + [item.record] else old(pushed)
      ensures ok && uniqueNames != [] ==>
                var value, rows := old(ItemValue(uniqueNames, item.View())), RowsOf(results.value, KeyIndexName(uniqueNames));
                var entered := if value == "" then [0 as char, ';', 0 as char] else value;
                entered in rows && rows[entered] == IdBytes(item.record.id)
    {
      hide Holds, Formed, Created, KnownAfter, IdBytes, NextId, ItemValue, ItemPrintable, AsItem, KeyIndexName;
      if uniqueNames != [] {
        UniqueIsEntered(Committed(), known, KeyIndexName(keyNames), ItemValue(keyNames, item.View()), item.record,
                        KeyIndexName(uniqueNames), UniqueValue(uniqueNames, item.View()));
      }
      var indexValue := GetIndexValueFromItem(keyNames, item.View());
      var uniqueValue := "";
      if uniqueNames != [] {
        uniqueValue := GetIndexValueFromItem(uniqueNames, item.View());
      }
      if uniqueValue == "" {
        uniqueValue := NO_UNIQUE_VALUE;
      }
      ok := WriteRecord(KeyIndexName(keyNames), indexValue, item, uniqueNames, uniqueValue);
    }

    /** The transaction of CreateWithID. */
    method WriteRecord(primary: string, indexValue: Bytes, item: ResultItem, uniqueNames: seq<string>, uniqueValue: Bytes)
      returns (ok: bool)
      requires Valid()
      modifies this, item`record
      ensures Valid()
      ensures var t := old(Created(Committed(), known, primary, indexValue, item.record, UniqueName(uniqueNames), uniqueValue));
              && (ok <==> t.Some?)
              && results == (if ok then t else old(results))
              && known == old(KnownAfter(Committed(), known, primary, indexValue, item.record, UniqueName(uniqueNames)))
      ensures item.record == old(item.record.(id := NextId(Committed())))
      ensures pushed == if ok then old(pushed) + [item.record] else old(pushed)
    {
      hide Holds, Formed, WithRecord, WithUnique, StateOf, IdBytes, NextId;
      ghost var s, r, k := Committed(), item.record, known;
      EmptyIsFormed();
      IdsAreRowIds(NextId(s));
      var bucket := Begin();
      var idBytes: Bytes;
      ok, idBytes := EnterRecord(bucket, primary, item, indexValue);
      if !ok {
        return;
      }
      if uniqueNames != [] {
        WithUniqueFormed(StateOf(bucket), k + {primary}, KeyIndexName(uniqueNames), uniqueValue, idBytes);
      }
      ok := AddUniqueIndexRecord(bucket, uniqueNames, uniqueValue, idBytes);
      if !ok {
        return;
      }
      ok := Finish(bucket, item);
    }

    /** Stores the item under the next id and in the primary index. */
    method EnterRecord(bucket: Bucket<Value>, primary: string, item: ResultItem, indexValue: Bytes)
      returns (ok: bool, idBytes: Bytes)
      requires Formed(StateOf(bucket))
      modifies this`known, bucket, item`record
      ensures known == old(known) + {primary}
      ensures item.record == old(item.record.(id := NextId(StateOf(bucket)))) && idBytes == IdBytes(old(NextId(StateOf(bucket))))
      ensures var t := old(WithRecord(StateOf(bucket), known, primary, indexValue, item.record));
              (ok <==> t.Some?) && (ok ==> StateOf(bucket) == t.value && Formed(StateOf(bucket)))
    {
      hide Formed, IdBytes;
      WithRecordFormed(StateOf(bucket), known, primary, indexValue, item.record);
      var primaryIndex: UniqueIndex<Value>;
      ok, primaryIndex := GetIndex(bucket, primary);
      if !ok {
        return;
      }
      ok, idBytes := CreateWithAutoIncrementingID(bucket, item, primaryIndex, indexValue);
    }

    /** Pushes the record to the latest ones and commits. */
    method Finish(bucket: Bucket<Value>, item: ResultItem) returns (ok: bool)
      requires Valid() && Formed(StateOf(bucket))
      modifies this`results, this`latest, this`pushed
      ensures ok && Valid() && results == Some(old(StateOf(bucket))) && pushed == old(pushed) + [item.record]
    {
      hide Holds, Formed;
      var ring := new Bucket(latest, map[], 0);
      ok := PushToLatestItems(ring, item.record, pushed);
      if !ok {
        return;
      }
      latest := ring.values;
      pushed := pushed + [item.record];
      Commit(bucket);
    }

    /** Creates a record under a new UUID. With further key fields their value leads to the UUID, in a second
        transaction: if that one fails the record stays. */
    method Create(item: ResultItem, additional: seq<string>, uuid: string) returns (ok: bool)
      requires Valid() && RowId(uuid)
      requires ItemPrintable(additional, AsItem(item.record.(uuid := uuid), item.isNew, item.isUpdate))
      modifies this, item`record
      ensures Valid()
      ensures item.record == old(item.record.(uuid := uuid, id := NextId(Committed())))
      ensures var r := old(item.record).(uuid := uuid);
              var value := if additional == [] then ""
                           else old(ItemValue(additional, AsItem(item.record.(uuid := uuid), item.isNew, item.isUpdate)));
              var t := CreatedWithUuid(old(results), old(known), r, UniqueName(additional), value);
              && results == t.0 && known == t.1 && ok == t.2
              && pushed == if old(WithRecord(Committed(), known, "UUID", uuid, r)).Some? then old(pushed) + [item.record] else old(pushed)
    {
      hide Holds, Formed, RowId, AsItem, ItemPrintable, ItemValue, WithRecord, WithUuid, KeyIndexName;
      item.record := item.record.(uuid := uuid);
      UuidValue(item.record, item.isNew, item.isUpdate);
      ghost var r := item.record;
      ok := CreateWithID(DEFAULT_KEY, item, []);
      assert known == old(known) + {"UUID"};
      if !ok || additional == [] {
        return;
      }
      ValueIgnoresId(additional, r, NextId(old(Committed())), item.isNew, item.isUpdate);
      var indexValue := GetIndexValueFromItem(additional, item.View());
      ok := WriteUuid(KeyIndexName(additional), indexValue, uuid);
    }

    method WriteUuid(name: string, indexValue: Bytes, uuid: string) returns (ok: bool)
      requires Valid() && RowId(uuid)
      modifies this`results, this`known
      ensures Valid()
      ensures var t := old(WithUuid(Committed(), known, name, indexValue, uuid));
              (ok <==> t.Some?) && results == (if ok then t else old(results))
      ensures known == old(known) + {name}
    {
      hide Holds, Formed, WithUuid, StateOf;
      EmptyIsFormed();
      var bucket := Begin();
      ok := EnterUuid(bucket, name, indexValue, uuid);
      if ok {
        Commit(bucket);
      }
    }

    method EnterUuid(bucket: Bucket<Value>, name: string, indexValue: Bytes, uuid: string) returns (ok: bool)
      requires Formed(StateOf(bucket)) && RowId(uuid)
      modifies this`known, bucket`values, bucket`nested
      ensures known == old(known) + {name}
      ensures var t := old(WithUuid(StateOf(bucket), known, name, indexValue, uuid));
              (ok <==> t.Some?) && (ok ==> StateOf(bucket) == t.value && Formed(StateOf(bucket)))
    {
      ghost var s, k := StateOf(bucket), known;
      var index: UniqueIndex<Value>;
      ok, index := GetIndex(bucket, name);
      if !ok {
        return;
      }
      ok := index.Add(Some(indexValue), Some(uuid));
      if ok {
        WithRowsFormed(Opened(s, k, name), name, index.Rows());
      }
    }

    /** The record that the index of the query leads to. A missing index is created on the way. */
    method Find(query: Query) returns (found: Option<Record>)
      requires Valid() && query.Valid() && forall k <- query.keys :: Printable(query.values[k])
      modifies this`results, this`known
      ensures Valid()
      ensures var name, value := QueryIndexName(query.keys), ValueOfPairs(query.keys, query.values);
              && found == Lookup(old(Committed()), name, value)
              && results == old(AfterFind(results, known, name))
              && known == old(KnownAfterFind(results, known, name, value))
    {
      hide Holds;
      var name := GetIndexNameFromQuery(query);
      var indexValue := GetIndexValueFromQuery(query);
      if results.None? {
        return None;
      }
      var s := results.value;
      if IndexName(name) !in s.nested {
        WriteIndex(name);
        return None;
      }
      found := ReadByIndex(s, name, indexValue);
    }

    /** Creates the index of a query. */
    method WriteIndex(name: string)
      requires Valid()
      modifies this`results, this`known
      ensures Valid() && results == Some(Opened(old(Committed()), old(known), name)) && known == old(known) + {name}
    {
      hide Holds;
      var bucket := Begin();
      var ok, index := GetIndex(bucket, name);
      if ok {
        Commit(bucket);
      }
    }

    /** Reads through an index that exists; nothing can be written on the way, but a name is learned. */
    method ReadByIndex(s: State, name: string, indexValue: Bytes) returns (found: Option<Record>)
      requires Formed(s) && IndexName(name) in s.nested
      modifies this`known
      ensures found == Lookup(s, name, indexValue)
      ensures known == old(KnownAfterFind(Some(s), known, name, indexValue))
    {
      known := known + {name};
      var bucket := new Bucket(s.values, s.nested, s.sequence);
      var index := new UniqueIndex(bucket, IndexName(name));
      var ids := index.All(indexValue);
      if ids == [] {
        return None;
      }
      assert ids[0] in ids;
      var raw := bucket.Get(ids[0]);
      if raw.None? {
        if IndexName("UUID") !in s.nested {
          return None;
        }
        known := known + {"UUID"};
        var uuidIndex := new UniqueIndex(bucket, IndexName("UUID"));
        var id := uuidIndex.Get(ids[0]);
        if id.Some? {
          raw := bucket.Get(id.value);
        }
      }
      return if raw.Some? && raw.value.Stored? then Some(Loaded(raw.value.record)) else None;
    }

    /** Stores the item where the index of the query leads to, if it can be written. The item keeps the id it carries. */
    method Update(query: Query, item: ResultItem) returns (ok: bool)
      requires Valid() && query.Valid() && forall k <- query.keys :: Printable(query.values[k])
      requires ValueOfPairs(query.keys, query.values) in RowsOf(Committed(), QueryIndexName(query.keys))
      modifies this`results, this`known
      ensures Valid()
      ensures var name, value := QueryIndexName(query.keys), ValueOfPairs(query.keys, query.values);
              && (ok <==> Writable(item.record)) && known == old(known) + {name}
              && results == if ok then Some(Updated(Opened(old(Committed()), old(known), name), name, value, item.record))
                              else old(results)
    {
      hide Holds, Formed, Opened, Updated, StateOf, RowsOf;
      EmptyIsFormed();
      var name := GetIndexNameFromQuery(query);
      var indexValue := GetIndexValueFromQuery(query);
      var bucket := Begin();
      ok := Overwrite(bucket, name, indexValue, item);
      if ok {
        Commit(bucket);
      }
    }

    /** Stores the item where the index leads to. */
    method Overwrite(bucket: Bucket<Value>, name: string, indexValue: Bytes, item: ResultItem) returns (ok: bool)
      requires Formed(StateOf(bucket)) && indexValue in RowsOf(StateOf(bucket), name)
      modifies this`known, bucket`values, bucket`nested
      ensures known == old(known) + {name} && (ok <==> Writable(item.record))
      ensures ok ==> StateOf(bucket) == Updated(old(Opened(StateOf(bucket), known, name)), name, indexValue, item.record)
                     && Formed(StateOf(bucket))
    {
      OpenedFormed(StateOf(bucket), known, name);
      var queryIndex: UniqueIndex<Value>;
      ok, queryIndex := GetIndex(bucket, name);
      if !ok {
        return;
      }
      var ids := queryIndex.All(indexValue);
      assert ids[0] in ids;
      if !Writable(item.record) {
        return false;
      }
      ok := bucket.Put(ids[0], Stored(item.record));
    }

    /** The latest records: those in the slots of the ring whose names come first, as they are read back. */
    method GetLatest(count: int) returns (output: seq<Record>)
      requires Valid()
      ensures var turns := LatestOrder.Picked(|pushed|, count);
              |output| == |turns| && forall i :: 0 <= i < |turns| ==> output[i] == ReadAs(pushed[turns[i]], ofTorrents)
    {
      hide Holds, Formed, AllPacked, Cut, InSlotOrder, ReadAs, LatestOrder.Picked;
      LatestOrder.LatestByPosition(latest, pushed, count);
      var items := LatestResults.GetLatest(Some(latest), count);
      output := seq(|items|, i requires 0 <= i < |items| => ReadAs(items[i], ofTorrents));
    }

    /** What the callback is given: the records in key order, up to the first index bucket. There has to be a
        bucket. */
    method ForEach() returns (visited: seq<Value>)
      requires Valid() && results.Some?
      ensures visited == Readable(results.value, ofTorrents, KeysInOrder(results.value), 0)
    {
      hide Sorted, Holds, Formed, Decoded, Readable, KeysInOrder, AreKeys;
      visited := [];
      var s := results.value;
      var c := new Cursor(s.values.Keys + s.nested.Keys);
      ghost var keys := KeysInOrder(s);
      KeysAreSorted(s);
      ghost var i := 0;
      var k := c.First();
      while k.Some? && k.value !in s.nested
        invariant 0 <= i <= |keys| && c.keys == keys
        invariant if i < |keys| then c.pos == i && k == Some(keys[i]) else k == None
        invariant Readable(s, ofTorrents, keys, 0) == visited + Readable(s, ofTorrents, keys, i)
        decreases |keys| - i
      {
        ReadableNext(s, ofTorrents, keys, i);
        visited := visited + [Decoded(s.values[k.value], ofTorrents)];
        i := i + 1;
        k := c.Next();
      }
      ReadableEnds(s, ofTorrents, keys, i);
    }
  }

  ghost predicate AreKeys(s: State, keys: seq<Bytes>) {
    forall k <- keys :: k in s.values || k in s.nested
  }

  function KeysInOrder(s: State): (keys: seq<Bytes>)
    ensures AreKeys(s, keys) && Sorted(keys)
    ensures forall k :: k in keys <==> k in s.values || k in s.nested
  {
    SortedKeys(s.values.Keys + s.nested.Keys)
  }

  function Decoded(v: Value, asTorrent: bool): Value {
    if v.Stored? then Stored(ReadAs(v.record, asTorrent)) else v
  }

  /** The values under the keys from i on, read back, in front of the first nested bucket. */
  function Readable(s: State, asTorrent: bool, keys: seq<Bytes>, i: nat): seq<Value>
    requires AreKeys(s, keys)
    decreases |keys| - i
  {
    if i >= |keys| || keys[i] in s.nested then []
    else
      assert keys[i] in keys;
      [Decoded(s.values[keys[i]], asTorrent)] + Readable(s, asTorrent, keys, i + 1)
  }

  lemma EmptyIsFormed()
    ensures Formed(EMPTY)
  {
  }

  lemma KeysAreSorted(s: State)
    ensures KeysInOrder(s) == SortedKeys(s.values.Keys + s.nested.Keys) && AreKeys(s, KeysInOrder(s))
  {
  }

  lemma ReadableNext(s: State, asTorrent: bool, keys: seq<Bytes>, i: nat)
    requires AreKeys(s, keys) && i < |keys| && keys[i] !in s.nested
    ensures keys[i] in s.values && Readable(s, asTorrent, keys, i) == [Decoded(s.values[keys[i]], asTorrent)] + Readable(s, asTorrent, keys, i + 1)
  {
    assert keys[i] in keys;
  }

  lemma ReadableEnds(s: State, asTorrent: bool, keys: seq<Bytes>, i: nat)
    requires AreKeys(s, keys) && (i >= |keys| || keys[i] in s.nested)
    ensures Readable(s, asTorrent, keys, i) == []
  {
  }

  /** The bucket after the record that the index leads to was replaced. */
  function Updated(s: State, name: string, value: Bytes, r: Record): State
    requires value in RowsOf(s, name)
  {
    s.(values := s.values[RowsOf(s, name)[value] := Stored(r)])
  }

  function AfterFind(results: Option<State>, known: set<string>, name: string): Option<State> {
    if results.Some? && IndexName(name) !in results.value.nested then Some(Opened(results.value, known, name)) else results
  }

  function KnownAfterFind(results: Option<State>, known: set<string>, name: string, value: Bytes): set<string> {
    if results.None? then known
    else
      var s := results.value;
      var rows := RowsOf(s, name);
      if value in rows && rows[value] !in s.values && IndexName("UUID") in s.nested then known + {name, "UUID"}
      else known + {name}
  }

  /** Finding leaves the records and all rows as they are, and the index is there afterwards, unless nothing was ever stored. */
  lemma FindLeaves(results: Option<State>, known: set<string>, name: string)
    ensures results.None? ==> AfterFind(results, known, name) == None
    ensures results.Some? ==>
              var s, after := results.value, AfterFind(results, known, name);
              && after.Some? && IndexName(name) in after.value.nested && after.value.sequence == s.sequence
              && (forall other :: RowsOf(after.value, other) == RowsOf(s, other))
              && after.value.values - {META_KEY} == s.values - {META_KEY}
  {
    if results.Some? {
      forall other ensures RowsOf(AfterFind(results, known, name).value, other) == RowsOf(results.value, other) {
        IndexNamesDiffer(name, other);
      }
    }
  }

  /** The default key gives the UUID of an item. */
  lemma UuidValue(r: Record, isNew: bool, isUpdate: bool)
    ensures ItemPrintable(DEFAULT_KEY, AsItem(r, isNew, isUpdate))
    ensures ItemValue(DEFAULT_KEY, AsItem(r, isNew, isUpdate)) == r.uuid
    ensures KeyIndexName(DEFAULT_KEY) == "UUID" && ItemPrintable([], AsItem(r, isNew, isUpdate))
  {
    var item := AsItem(r, isNew, isUpdate);
    UuidIsNoField(r);
    hide FieldsOf;
    assert ItemParts(DEFAULT_KEY, item) == [r.uuid];
  }

  /** No index value depends on the id. */
  lemma ValueIgnoresId(names: seq<string>, r: Record, id: nat, isNew: bool, isUpdate: bool)
    requires ItemPrintable(names, AsItem(r, isNew, isUpdate))
    ensures ItemPrintable(names, AsItem(r.(id := id), isNew, isUpdate))
    ensures ItemValue(names, AsItem(r.(id := id), isNew, isUpdate)) == ItemValue(names, AsItem(r, isNew, isUpdate))
  {
    assert AsItem(r.(id := id), isNew, isUpdate) == AsItem(r, isNew, isUpdate);
  }
}
