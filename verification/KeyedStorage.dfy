/** The storage that is used by the rest of the program: it adds items by key, and sets their state. */
module KeyedStorages {
  import opened Options
  import opened ByteStrings
  import opened Fields
  import opened IndexKeys
  import opened Records
  import opened RecordStore
  import opened UpsertRefinement

  class KeyedStorage {
    const backing: Storage
    /** The fields of the primary key; without any, the UUID is the key. */
    var primaryKey: seq<string>
    const indexKeys: Key

    constructor (backing: Storage, primaryKey: Key)
      requires backing.Valid()
      ensures this.backing == backing && fresh(indexKeys) && Valid()
      ensures this.primaryKey == primaryKey.fields && indexKeys.fields == []
    {
      this.backing, this.primaryKey := backing, primaryKey.fields;
      indexKeys := new Key.Literal([]);
    }

    ghost predicate Valid()
      reads backing
    {
      backing.Valid()
    }

    method SetKey(index: Key) returns (ok: bool)
      modifies this`primaryKey
      ensures ok <==> index.fields != []
      ensures primaryKey == if ok then index.fields else old(primaryKey)
    {
      if index.IsEmpty() {
        return false;
      }
      primaryKey := index.fields;
      return true;
    }

    method AddUniqueIndex(key: Key)
      modifies indexKeys
      ensures indexKeys.fields == Appended(old(indexKeys.fields), old(indexKeys.Known()), old(key.fields))
    {
      indexKeys.AddKeys(key);
    }

    function KeyNames(): seq<string>
      reads this
    {
      if primaryKey == [] then DEFAULT_KEY else primaryKey
    }

    function Buckets(): Db
      reads backing
    {
      Db(backing.results, backing.known)
    }

    /** What can be asked of the fields of the keys without a panic: those that are looked at are texts, those that are
        written into an index can be printed, and the data can be compared with what is found. */
    ghost predicate Usable(item: Item, withUuid: Item, isTorrent: bool)
      reads this, indexKeys, backing
    {
      && Inspectable(KeyNames(), item)
      && ((forall n <- KeyNames() :: HasPart(n, item)) ==>
            Keyed(KeyNames(), item) && ItemPrintable(indexKeys.fields, item) && CanMeet(Buckets(), KeyNames(), item, isTorrent))
      && ItemPrintable(indexKeys.fields, withUuid)
    }

    /** Adds the item: with a value for every key field, by its key; otherwise under the new UUID. */
    method Add(item: ResultItem, uuid: string) returns (ok: bool)
      requires Valid() && RowId(uuid)
      requires Usable(item.View(), AsItem(item.record.(uuid := uuid), item.isNew, item.isUpdate), item.record.torrent.Some?)
      modifies backing, item
      ensures Valid()
      ensures old(forall n <- KeyNames() :: HasPart(n, item.View())) ==>
                old(QueryPrintable(OnceEach(KeyNames()), item.View())) &&
                var after := old(StoreAdd(Buckets(), QueryIndexName(OnceEach(KeyNames())), QueryValue(OnceEach(KeyNames()), item.View()),
                                          KeyIndexName(KeyNames()), ItemValue(KeyNames(), item.View()),
                                          UniqueName(indexKeys.fields), UniqueValue(indexKeys.fields, item.View()), item.record));
                && Buckets() == after.0 && (ok <==> !after.1.Refused?)
                && item.isNew == (if ok then after.1.New? else old(item.isNew))
                && item.isUpdate == (if ok then after.1.Changed? else old(item.isUpdate))
                && item.record == (if old(Missing(Buckets(), KeyNames(), item.View()))
                                    then old(item.record.(id := NextId(BucketOf(Buckets())))) else old(item.record))
                && backing.pushed == if after.1.New? then old(backing.pushed) + [item.record] else old(backing.pushed)
      ensures old(exists n <- KeyNames() :: !HasPart(n, item.View())) ==>
                var r := old(item.record).(uuid := uuid);
                var value := if indexKeys.fields == [] then ""
                             else old(ItemValue(indexKeys.fields, AsItem(item.record.(uuid := uuid), item.isNew, item.isUpdate)));
                var after := CreatedWithUuid(old(backing.results), old(backing.known), r, UniqueName(indexKeys.fields), value);
                && backing.results == after.0 && backing.known == after.1 && ok == after.2
                && item.isNew == (ok || old(item.isNew)) && item.isUpdate == (!ok && old(item.isUpdate))
                && item.record == old(item.record.(uuid := uuid, id := NextId(BucketOf(Buckets()))))
    {
      hide Inspectable, HasPart, ItemPrintable, QueryPrintable, StoreAdd, ItemValue, QueryValue, UniqueValue,
        CreatedWithUuid, RowId, AsItem, KeyIndexName, QueryIndexName;
      var key := KeyNames();
      var keyHasValue := KeyHasValue(key, item.View());
      if keyHasValue {
        ok := AddByKey(key, item);
      } else {
        ok := backing.Create(item, indexKeys.fields, uuid);
        if ok {
          item.SetState(true, false);
        }
      }
    }

    /** Adds an item that has its key. */
    method AddByKey(key: seq<string>, item: ResultItem) returns (ok: bool)
      requires Valid() && Keyed(key, item.View()) && ItemPrintable(indexKeys.fields, item.View())
      requires CanMeet(Buckets(), key, item.View(), item.record.torrent.Some?)
      modifies backing, item
      ensures Valid()
      ensures old(QueryPrintable(OnceEach(key), item.View()))
      ensures var after := old(StoreAdd(Buckets(), QueryIndexName(OnceEach(key)), QueryValue(OnceEach(key), item.View()),
                                        KeyIndexName(key), ItemValue(key, item.View()),
                                        UniqueName(indexKeys.fields), UniqueValue(indexKeys.fields, item.View()), item.record));
              && Buckets() == after.0 && (ok <==> !after.1.Refused?)
              && item.isNew == (if ok then after.1.New? else old(item.isNew))
              && item.isUpdate == (if ok then after.1.Changed? else old(item.isUpdate))
              && item.record == (if old(Missing(Buckets(), key, item.View()))
                                  then old(item.record.(id := NextId(BucketOf(Buckets())))) else old(item.record))
              && backing.pushed == if after.1.New? then old(backing.pushed) + [item.record] else old(backing.pushed)
    {
      hide CanMeet, Comparable, Lookup, Created, KnownAfter, AfterFind, KnownAfterFind, Updated, Opened, RowsOf, ItemValue,
        QueryValue, UniqueValue, ItemPrintable, QueryPrintable, KeyIndexName, QueryIndexName, AsItem;
      ghost var db := Buckets();
      assert BucketOf(db) == backing.Committed();
      var existingQuery, existing := Seek(key, item);
      if existing.None? {
        ok := backing.CreateWithID(key, item, indexKeys.fields);
        if ok {
          item.SetState(true, false);
        }
        return;
      }
      FoundStays(db, QueryIndexName(OnceEach(key)), QueryValue(OnceEach(key), item.View()));
      var equal := Equals(existing.value, item.record);
      if equal {
        item.SetState(false, false);
        return true;
      }
      ok := backing.Update(existingQuery, item);
      if ok {
        item.SetState(false, true);
      }
    }

    /** The query of the item for the key, and the record it finds. */
    method Seek(key: seq<string>, item: ResultItem) returns (query: Query, found: Option<Record>)
      requires Valid() && Keyed(key, item.View()) && CanMeet(Buckets(), key, item.View(), item.record.torrent.Some?)
      modifies backing`results, backing`known
      ensures Valid() && fresh(query) && query.Valid() && query.keys == OnceEach(key) && QueryPrintable(OnceEach(key), item.View())
      ensures forall k <- query.keys :: Printable(query.values[k])
      ensures ValueOfPairs(query.keys, query.values) == QueryValue(OnceEach(key), item.View())
      ensures var name, value := QueryIndexName(OnceEach(key)), QueryValue(OnceEach(key), item.View());
              && found == Lookup(BucketOf(old(Buckets())), name, value)
              && Buckets() == old(Db(AfterFind(backing.results, backing.known, name),
                                     KnownAfterFind(backing.results, backing.known, name, value)))
              && NextId(backing.Committed()) == old(NextId(backing.Committed()))
      ensures found.Some? && item.record.torrent.None? ==> Comparable(found.value.data, item.record.data)
    {
      assert item.View().data == item.record.data;
      FindKeepsNextId(backing.results, backing.known, QueryIndexName(OnceEach(key)));
      hide Comparable, Lookup, AfterFind, KnownAfterFind, QueryValue, QueryIndexName, AsItem;
      OnceEachIsPrintable(key, item.View());
      query := GetKeyQueryFromItem(key, item.View());
      PairsOfItem(query.keys, query.values, item.View());
      found := backing.Find(query);
    }
  }

  /** The names a query has: those of the key, each once. */
  function OnceEach(names: seq<string>): seq<string> {
    WithAll([], names)
  }

  lemma OnceEachIsPrintable(names: seq<string>, item: Item)
    requires Keyed(names, item)
    ensures QueryPrintable(OnceEach(names), item) && QueryNames(names, item) == OnceEach(names)
  {
    KeyedIsPrintable(names, item);
    AddedOnce([], names);
  }

  /** What the query of the item finds can be compared with the item; with a torrent item nothing is. */
  ghost predicate CanMeet(db: Db, names: seq<string>, item: Item, isTorrent: bool)
    requires Keyed(names, item)
  {
    OnceEachIsPrintable(names, item);
    var found := Lookup(BucketOf(db), QueryIndexName(OnceEach(names)), QueryValue(OnceEach(names), item));
    found.Some? && !isTorrent ==> Comparable(found.value.data, item.data)
  }

  /** The query of the item finds nothing. */
  ghost predicate Missing(db: Db, names: seq<string>, item: Item)
    requires QueryPrintable(OnceEach(names), item)
  {
    Lookup(BucketOf(db), QueryIndexName(OnceEach(names)), QueryValue(OnceEach(names), item)).None?
  }

  lemma FindKeepsNextId(results: Option<State>, known: set<string>, name: string)
    ensures NextId(BucketOf(Db(AfterFind(results, known, name), known))) == NextId(BucketOf(Db(results, known)))
  {
  }

  lemma FoundStays(db: Db, name: string, value: Bytes)
    requires Lookup(BucketOf(db), name, value).Some?
    ensures AfterFind(db.results, db.known, name) == db.results && value in RowsOf(BucketOf(db), name)
  {
  }
}
