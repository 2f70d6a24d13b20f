/** Scraped records, and the bucket they are kept in: records under their ids, index buckets, and metadata. */
module Records {
  import opened Options
  import opened ByteStrings
  import opened Buckets
  import opened UniqueIndexes
  import opened RecordIds
  import opened Fields
  import opened IndexKeys

  /** What a torrent item has besides; its own links hide those of the record. */
  datatype Torrent = Torrent(
    title: string, originalTitle: string, shortTitle: string, description: string, comments: string, link: string,
    fingerprint: string, banner: string, isMagnet: bool, sourceLink: string, magnetLink: string, category: int, size: int,
    files: int, grabs: int, seeders: int, peers: int, minimumRatio: Floating, minimumSeedTime: int,
    downloadVolumeFactor: Floating, uploadVolumeFactor: Floating, author: string, authorId: string, extraFields: ModelData,
    localCategoryId: string, localCategoryName: string, announce: string, publisher: string, publishedWith: string)

  /** A scraped item, or a torrent item. */
  datatype Record = Record(id: nat, uuid: string, localId: string, site: string, link: string, sourceLink: string,
                           publishDate: int, data: ModelData, torrent: Option<Torrent>)

  class ResultItem {
    var record: Record
    var isNew: bool
    var isUpdate: bool

    constructor (record: Record)
      ensures this.record == record && !isNew && !isUpdate
    {
      this.record, isNew, isUpdate := record, false, false;
    }

    method SetState(isNew: bool, isUpdate: bool)
      modifies this`isNew, this`isUpdate
      ensures this.isNew == isNew && this.isUpdate == isUpdate
    {
      this.isNew, this.isUpdate := isNew, isUpdate;
    }

    function View(): Item
      reads this
    {
      AsItem(record, isNew, isUpdate)
    }
  }

  /** Whether a found item, which is no torrent item, equals another one: not if that is a torrent item. */
  method Equals(found: Record, other: Record) returns (equal: bool)
    requires other.torrent.None? ==> Comparable(found.data, other.data)
    ensures equal <==> other.torrent.None? && found.data == other.data
  {
    if other.torrent.Some? {
      return false;
    }
    equal := DataEquals(found.data, other.data);
  }

  /** A value of a type without an index value. */
  const OPAQUE := Other("")

  /** The times of an item are never set. */
  const NO_TIME := Time(-62135596800, "0001-01-01T00:00:00Z")

  /** The struct fields that a torrent item has besides, or in front. */
  function TorrentFields(t: Torrent): map<string, Field> {
    map[
      "ScrapeResultItem" := OPAQUE, "Title" := Text(t.title), "OriginalTitle" := Text(t.originalTitle),
      "ShortTitle" := Text(t.shortTitle), "Description" := Text(t.description), "Comments" := Text(t.comments),
      "Link" := Text(t.link), "Fingerprint" := Text(t.fingerprint), "Banner" := Text(t.banner),
      "IsMagnet" := Flag(t.isMagnet), "SourceLink" := Text(t.sourceLink), "MagnetLink" := Text(t.magnetLink),
      "Category" := Number(t.category, Int), "Size" := Number(t.size, OtherInt), "Files" := Number(t.files, Int),
      "Grabs" := Number(t.grabs, Int), "Seeders" := Number(t.seeders, Int), "Peers" := Number(t.peers, Int),
      "MinimumRatio" := Float(t.minimumRatio), "MinimumSeedTime" := Number(t.minimumSeedTime, OtherInt),
      "DownloadVolumeFactor" := Float(t.downloadVolumeFactor), "UploadVolumeFactor" := Float(t.uploadVolumeFactor),
      "Author" := Text(t.author), "AuthorID" := Text(t.authorId), "ExtraFields" := OPAQUE,
      "LocalCategoryID" := Text(t.localCategoryId), "LocalCategoryName" := Text(t.localCategoryName),
      "Announce" := Text(t.announce), "Publisher" := Text(t.publisher), "PublishedWith" := Text(t.publishedWith)
    ]
  }

  /** The struct fields of an item by name. */
  function FieldsOf(r: Record): map<string, Field> {
    RecordFields(r) + if r.torrent.Some? then TorrentFields(r.torrent.value) else map[]
  }

  function RecordFields(r: Record): map<string, Field> {
    map[
      "Model" := OPAQUE, "ID" := OPAQUE, "UUIDValue" := Text(r.uuid), "CreatedAt" := NO_TIME, "UpdatedAt" := NO_TIME,
      "DeletedAt" := OPAQUE, "ModelData" := OPAQUE, "ScrapeLocalData" := OPAQUE, "LocalID" := Text(r.localId),
      "Site" := Text(r.site), "Link" := Text(r.link), "SourceLink" := Text(r.sourceLink),
      "PublishDate" := Number(r.publishDate, Int64), "isNew" := OPAQUE, "isUpdate" := OPAQUE, "Indexer" := OPAQUE
    ]
  }

  /** How an item is shown. */
  function Shown(r: Record): string {
    if r.torrent.Some? then "[" + r.localId + "]" + r.torrent.value.title else r.localId + ": " + r.link
  }

  /** Its methods by name; opaque where the call needs arguments or answers no index value. */
  function MethodsOf(r: Record, isNew: bool, isUpdate: bool): map<string, Field> {
    RecordMethods(r, isNew, isUpdate) + if r.torrent.Some? then map["AddedOnStr" := OPAQUE, "MarshalXML" := OPAQUE] else map[]
  }

  function RecordMethods(r: Record, isNew: bool, isUpdate: bool): map<string, Field> {
    map[
      "UUID" := Text(r.uuid), "IsNew" := Flag(isNew), "IsUpdate" := Flag(isUpdate), "String" := Text(Shown(r)),
      "GetID" := OPAQUE, "AsScrapeItem" := OPAQUE, "SetSite" := OPAQUE,
      "SetIndexer" := OPAQUE, "SetLocalID" := OPAQUE, "SetPublishDate" := OPAQUE, "SetUUID" := OPAQUE,
      "SetState" := OPAQUE, "SetID" := OPAQUE, "SetField" := OPAQUE, "GetField" := OPAQUE,
      "GetFieldWithDefault" := OPAQUE, "Equals" := OPAQUE
    ]
  }

  function AsItem(r: Record, isNew: bool, isUpdate: bool): Item {
    Item(FieldsOf(r), MethodsOf(r, isNew, isUpdate), r.data)
  }

  /** The texts and numbers of a scraped item under their names. */
  lemma ScrapedFields(r: Record)
    ensures "UUIDValue" in RecordFields(r) && "LocalID" in RecordFields(r) && "Site" in RecordFields(r)
    ensures "Link" in RecordFields(r) && "SourceLink" in RecordFields(r) && "PublishDate" in RecordFields(r)
    ensures RecordFields(r)["UUIDValue"] == Text(r.uuid) && RecordFields(r)["LocalID"] == Text(r.localId)
    ensures RecordFields(r)["Site"] == Text(r.site) && RecordFields(r)["PublishDate"] == Number(r.publishDate, Int64)
    ensures RecordFields(r)["Link"] == Text(r.link) && RecordFields(r)["SourceLink"] == Text(r.sourceLink)
  {
  }

  /** The title and the links of a torrent item under their names. */
  lemma TorrentTexts(t: Torrent)
    ensures "Title" in TorrentFields(t) && "Link" in TorrentFields(t) && "SourceLink" in TorrentFields(t)
    ensures TorrentFields(t)["Title"] == Text(t.title) && TorrentFields(t)["Link"] == Text(t.link)
    ensures TorrentFields(t)["SourceLink"] == Text(t.sourceLink)
  {
  }

  /** The methods that answer an index value: a torrent item is shown by its title, another one by its link. */
  lemma AnsweringMethods(r: Record, isNew: bool, isUpdate: bool)
    ensures var methods := RecordMethods(r, isNew, isUpdate);
            && "UUID" in methods && methods["UUID"] == Text(r.uuid)
            && "IsNew" in methods && methods["IsNew"] == Flag(isNew) && "IsUpdate" in methods && methods["IsUpdate"] == Flag(isUpdate)
            && "String" in methods
            && methods["String"] == Text(if r.torrent.Some? then "[" + r.localId + "]" + r.torrent.value.title else r.localId + ": " + r.link)
  {
  }

  /** A field of a torrent item hides the one of the same name that it has as a scraped item. */
  lemma TorrentHides(r: Record, n: string)
    ensures n in FieldsOf(r) <==> n in RecordFields(r) || (r.torrent.Some? && n in TorrentFields(r.torrent.value))
    ensures n in FieldsOf(r) ==> FieldsOf(r)[n] == if r.torrent.Some? && n in TorrentFields(r.torrent.value)
                                                   then TorrentFields(r.torrent.value)[n] else RecordFields(r)[n]
  {
    hide RecordFields, TorrentFields;
  }

  /** No struct field has the name of the method that answers the UUID. */
  lemma UuidIsNoField(r: Record)
    ensures "UUID" !in FieldsOf(r)
  {
    hide RecordFields, TorrentFields;
    assert "UUID" !in RecordFields(r) by {
      RecordNames(r);
    }
    if r.torrent.Some? {
      TorrentNames(r.torrent.value);
    }
  }

  lemma RecordNames(r: Record)
    ensures "UUID" !in RecordFields(r) && PlainNames(RecordFields(r).Keys)
  {
    forall n | n in RecordFields(r) ensures !IsExtra(n) {
      assert |n| < |MODEL_DATA| || n[0] != MODEL_DATA[0];
    }
  }

  lemma TorrentNames(t: Torrent)
    ensures "UUID" !in TorrentFields(t) && PlainNames(TorrentFields(t).Keys)
  {
    forall n | n in TorrentFields(t) ensures !IsExtra(n) {
      assert n[0] != MODEL_DATA[0] || n[1] != MODEL_DATA[1];
    }
  }

  lemma FieldNamesArePlain(r: Record)
    ensures PlainNames(FieldsOf(r).Keys)
  {
    hide RecordFields, TorrentFields, IsExtra;
    RecordNames(r);
    if r.torrent.Some? {
      TorrentNames(r.torrent.value);
    }
  }

  /** Only one struct field depends on the UUID. */
  lemma FieldsIgnoreUuid(r: Record, uuid: string, n: string)
    requires n != "UUIDValue"
    ensures n in FieldsOf(r.(uuid := uuid)) <==> n in FieldsOf(r)
    ensures n in FieldsOf(r) ==> FieldsOf(r.(uuid := uuid))[n] == FieldsOf(r)[n]
  {
    hide TorrentFields;
  }

  // ---------- records in JSON ----------

  /** Whether JSON can write the record. */
  predicate Writable(r: Record) {
    Encodable(r.data) && (r.torrent.Some? ==> TorrentWritable(r.torrent.value))
  }

  predicate TorrentWritable(t: Torrent) {
    && IsFinite(t.minimumRatio) && IsFinite(t.downloadVolumeFactor) && IsFinite(t.uploadVolumeFactor)
    && Encodable(t.extraFields)
  }

  /** A torrent item without any value. */
  const NO_TORRENT := Torrent("", "", "", "", "", "", "", "", false, "", "", 0, 0, 0, 0, 0, 0, Whole(0), 0, Whole(0), Whole(0),
                              "", "", map[], "", "", "", "", "")

  /** A record that was written and is read into an item or a torrent item. A torrent item writes its own links only,
      and reads into them. */
  function ReadAs(r: Record, asTorrent: bool): Record {
    var link, sourceLink := if r.torrent.Some? then r.torrent.value.link else r.link,
                            if r.torrent.Some? then r.torrent.value.sourceLink else r.sourceLink;
    var t := if r.torrent.Some? then r.torrent.value else NO_TORRENT;
    if asTorrent then
      r.(data := DataBack(r.data), link := "", sourceLink := "",
         torrent := Some(t.(link := link, sourceLink := sourceLink, extraFields := DataBack(t.extraFields))))
    else r.(data := DataBack(r.data), link := link, sourceLink := sourceLink, torrent := None)
  }

  ghost predicate Numeric(data: ModelData) {
    forall k <- data.Keys :: data[k].Float? || data[k].Float32? ==> FloatText(data[k].value) !in {"NaN", "+Inf", "-Inf"}
  }

  /** Every record can be written but one with a float that is no finite number. */
  lemma WritableExactly(r: Record)
    ensures Writable(r) <==>
            && Numeric(r.data)
            && (r.torrent.Some? ==>
                  var t := r.torrent.value;
                  && Numeric(t.extraFields)
                  && forall f <- [t.minimumRatio, t.downloadVolumeFactor, t.uploadVolumeFactor] :: FloatText(f) !in {"NaN", "+Inf", "-Inf"})
  {
    hide FloatText, IsFinite;
    forall f: Floating ensures IsFinite(f) <==> FloatText(f) !in {"NaN", "+Inf", "-Inf"} {
      FiniteExactly(f);
    }
    if r.torrent.Some? {
      var t := r.torrent.value;
      assert forall f <- [t.minimumRatio, t.downloadVolumeFactor, t.uploadVolumeFactor] ::
          f == t.minimumRatio || f == t.downloadVolumeFactor || f == t.uploadVolumeFactor;
      var all := [t.minimumRatio, t.downloadVolumeFactor, t.uploadVolumeFactor];
      assert all[0] in all && all[1] in all && all[2] in all;
    }
  }

  /** A record that is read into what it was comes back as it was exactly if its values do and, as a torrent item, it
      has no links behind its own. */
  lemma ReadAsItselfExactly(r: Record)
    ensures ReadAs(r, r.torrent.Some?) == r <==>
            && (forall k <- r.data.Keys :: ComesBack(r.data[k]))
            && (r.torrent.Some? ==> r.link == "" && r.sourceLink == "")
            && (r.torrent.Some? ==> forall k <- r.torrent.value.extraFields.Keys :: ComesBack(r.torrent.value.extraFields[k]))
  {
    hide DataBack, ComesBack;
    DataBackExactly(r.data);
    if r.torrent.Some? {
      DataBackExactly(r.torrent.value.extraFields);
    }
  }

  // ---------- the bucket of the records ----------

  const INDEX_PREFIX: Bytes := "__index_"
  const META_KEY: Bytes := "__meta"

  function IndexName(name: string): Bytes {
    INDEX_PREFIX + name
  }

  lemma IndexNamesDiffer(a: string, b: string)
    ensures IndexName(a) == IndexName(b) <==> a == b
    ensures INDEX_PREFIX <= IndexName(a)
  {
    assert IndexName(a)[|INDEX_PREFIX|..] == a && IndexName(b)[|INDEX_PREFIX|..] == b;
  }

  /** A serialized record, or the serialized names of the indexes. */
  datatype Value = Stored(record: Record) | Meta(indexes: set<string>)

  datatype State = State(values: map<Bytes, Value>, nested: map<Bytes, map<Bytes, Bytes>>, sequence: nat)

  const EMPTY := State(map[], map[], 0)

  /** An id that a record can be stored under. */
  ghost predicate RowId(id: Bytes) {
    IsKey(id) && !(INDEX_PREFIX <= id) && id != META_KEY
  }

  lemma IdsAreRowIds(id: nat)
    requires id < TWO_32
    ensures RowId(IdBytes(id))
  {
  }

  ghost predicate Formed(s: State) {
    && (forall k <- s.nested :: INDEX_PREFIX <= k)
    && (forall k <- s.values :: !(INDEX_PREFIX <= k) && (s.values[k].Meta? <==> k == META_KEY))
    && (forall k <- s.nested :: forall v <- s.nested[k] :: RowId(s.nested[k][v]))
  }

  function RowsOf(s: State, name: string): map<Bytes, Bytes> {
    if IndexName(name) in s.nested then s.nested[IndexName(name)] else map[]
  }

  /** The bucket after an index was asked for: the index exists, and a new one is noted in the metadata. */
  function Opened(s: State, known: set<string>, name: string): (t: State)
    ensures t.sequence == s.sequence && RowsOf(t, name) == RowsOf(s, name) && IndexName(name) in t.nested
  {
    State(if name in known then s.values else s.values[META_KEY := Meta(known + {name})],
          if IndexName(name) in s.nested then s.nested else s.nested[IndexName(name) := map[]],
          s.sequence)
  }

  function WithRows(s: State, name: string, rows: map<Bytes, Bytes>): State {
    s.(nested := s.nested[IndexName(name) := rows])
  }

  function NextId(s: State): (id: nat)
    ensures id < TWO_32
  {
    (s.sequence + 1) % TWO_32
  }

  /** The bucket after the next id was given to the record, the record was stored under it and its index value
      leads to it; None if another id has the value, the value is no key, or the record cannot be written. */
  function WithRecord(s: State, known: set<string>, primary: string, value: Bytes, r: Record): Option<State> {
    var ready := Opened(s, known, primary);
    var id := NextId(s);
    var rows := WithRow(RowsOf(s, primary), value, IdBytes(id));
    if rows.None? || !Writable(r) then None
    else Some(WithRows(ready, primary, rows.value).(values := ready.values[IdBytes(id) := Stored(r.(id := id))],
                                                     sequence := s.sequence + 1))
  }

  /** The bucket after a value was added to a unique index; None if it is taken, or no key. */
  function WithUnique(s: State, known: set<string>, name: string, value: Bytes, id: Bytes): Option<State> {
    var ready := Opened(s, known, name);
    var rows := RowsOf(s, name);
    if value in rows then None
    else
      var put := PutRow(rows, value, id);
      if put.None? then None else Some(WithRows(ready, name, put.value))
  }

  /** Creating a record: all of it or nothing. */
  function Created(s: State, known: set<string>, primary: string, value: Bytes, r: Record,
                   unique: Option<string>, uniqueValue: Bytes): Option<State> {
    var t := WithRecord(s, known, primary, value, r);
    if t.None? || unique.None? then t
    else WithUnique(t.value, known + {primary}, unique.value, uniqueValue, IdBytes(NextId(s)))
  }

  /** The indexes known in memory after that; an abandoned transaction does not forget them. */
  function KnownAfter(s: State, known: set<string>, primary: string, value: Bytes, r: Record, unique: Option<string>): set<string> {
    known + {primary} +
    if unique.Some? && WithRecord(s, known, primary, value, r).Some? then {unique.value} else {}
  }

  /** A record that is found: it is read into an item that is no torrent item. */
  function Loaded(r: Record): Record {
    ReadAs(r, false)
  }

  /** What is found is no torrent item; one that was stored shows its own links, and all else is as it was, but for what
      JSON makes of the free fields. */
  lemma FoundAs(r: Record)
    ensures Loaded(r) == Record(r.id, r.uuid, r.localId, r.site, if r.torrent.Some? then r.torrent.value.link else r.link,
                                if r.torrent.Some? then r.torrent.value.sourceLink else r.sourceLink,
                                r.publishDate, DataBack(r.data), None)
    ensures forall k <- r.data.Keys :: k in Loaded(r).data && Loaded(r).data[k] == ReadBack(r.data[k])
    ensures Loaded(r).data.Keys == r.data.Keys
  {
    hide ReadBack;
  }

  /** The record that an index leads to, read back: under the id itself, or under what the UUID index has for the id. */
  function Lookup(s: State, name: string, value: Bytes): Option<Record> {
    var rows := RowsOf(s, name);
    if value !in rows then None
    else
      var id := rows[value];
      if id in s.values && s.values[id].Stored? then Some(Loaded(s.values[id].record))
      else
        var uuids := RowsOf(s, "UUID");
        if id in uuids && uuids[id] in s.values && s.values[uuids[id]].Stored? then Some(Loaded(s.values[uuids[id]].record))
        else None
  }

  // ---------- every step keeps the bucket formed ----------

  lemma OpenedFormed(s: State, known: set<string>, name: string)
    requires Formed(s)
    ensures Formed(Opened(s, known, name))
  {
    assert !(INDEX_PREFIX <= META_KEY);
  }

  lemma WithRowsFormed(s: State, name: string, rows: map<Bytes, Bytes>)
    requires Formed(s) && forall v <- rows :: RowId(rows[v])
    ensures Formed(WithRows(s, name, rows))
  {
  }

  lemma WithRecordFormed(s: State, known: set<string>, primary: string, value: Bytes, r: Record)
    requires Formed(s)
    ensures var t := WithRecord(s, known, primary, value, r); t.Some? ==> Formed(t.value)
  {
    var id := IdBytes(NextId(s));
    IdsAreRowIds(NextId(s));
    OpenedFormed(s, known, primary);
    var rows := WithRow(RowsOf(s, primary), value, id);
    if rows.Some? {
      WithRowsFormed(Opened(s, known, primary), primary, rows.value);
    }
  }

  lemma WithUniqueFormed(s: State, known: set<string>, name: string, value: Bytes, id: Bytes)
    requires Formed(s) && RowId(id)
    ensures var t := WithUnique(s, known, name, value, id); t.Some? ==> Formed(t.value)
  {
    OpenedFormed(s, known, name);
    var put := PutRow(RowsOf(s, name), value, id);
    if put.Some? {
      WithRowsFormed(Opened(s, known, name), name, put.value);
    }
  }
}
