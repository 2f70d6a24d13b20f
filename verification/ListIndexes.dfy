/** An index that keeps many ids under one value: a bucket of `value__id` keys that hold the id, and inside it a
    bucket that holds the key of every id. */
module ListIndexes {
  import opened Options
  import opened ByteStrings
  import opened Buckets
  import opened Cursors
  import opened UniqueIndexes

  const IDS_INDEX: Bytes := "__ids"

  function Prefix(value: Bytes): Bytes {
    value + "__"
  }

  /** The key prefix of a value. An empty value makes the last write run out of the slice. */
  method GeneratePrefix(indexValue: Bytes) returns (r: Bytes)
    requires indexValue != ""
    ensures r == Prefix(indexValue) == indexValue + "__"
  {
    var prefix := new char[|indexValue| + 2];
    var i := 0;
    prefix[i] := indexValue[i];
    while i + 1 < |indexValue|
      invariant 0 <= i < |indexValue|
      invariant prefix[..i + 1] == indexValue[..i + 1]
    {
      i := i + 1;
      prefix[i] := indexValue[i];
    }
    prefix[i + 1] := '_';
    prefix[i + 2] := '_';
    r := prefix[..];
  }

  /** Behind its first character, the prefix of the value contains "__" only at its end: the value contains no
      "__" there and does not end in "_". */
  ghost predicate Safe(value: Bytes) {
    && value != ""
    && forall p {:trigger Prefix(value)[p..p + 2]} :: 1 <= p < |value| ==> Prefix(value)[p..p + 2] != "__"
  }

  /** If the prefix of a shorter value finds a key, the value of the key contains "__" where the shorter one ends. */
  lemma FoundUnderShorter(u: Bytes, v: Bytes, id: Bytes)
    requires |v| < |u|
    ensures Prefix(v) <= Prefix(u) + id ==> Prefix(u)[|v|..|v| + 2] == "__"
  {
    var k := Prefix(u) + id;
    assert k[|v|..|v| + 2] == Prefix(u)[|v|..|v| + 2];
    assert Prefix(v) <= k ==> k[|v|] == Prefix(v)[|v|] && k[|v| + 1] == Prefix(v)[|v| + 1];
  }

  lemma FoundUnderLonger(u: Bytes, v: Bytes, id: Bytes)
    requires |u| < |v|
    ensures Prefix(v) <= Prefix(u) + id ==> Prefix(v)[|u|..|u| + 2] == "__"
  {
    var k := Prefix(u) + id;
    assert k[|u|] == '_' && k[|u| + 1] == '_';
    assert Prefix(v) <= k ==> k[|u|] == Prefix(v)[|u|] && k[|u| + 1] == Prefix(v)[|u| + 1];
  }

  /** Between safe values, the prefix of one finds exactly its own keys. */
  lemma SafeKeysMatch(u: Bytes, v: Bytes, id: Bytes)
    requires Safe(u) && Safe(v)
    ensures Prefix(v) <= Prefix(u) + id <==> u == v
  {
    if |v| < |u| {
      FoundUnderShorter(u, v, id);
    } else if |u| < |v| {
      FoundUnderLonger(u, v, id);
    } else {
      assert (Prefix(u) + id)[..|u|] == u;
      assert Prefix(v)[..|v|] == v;
    }
  }

  /** The keys of an unsafe value, and only those, are also found under a shorter value. */
  lemma UnsafeKeysConfuse(u: Bytes, id: Bytes)
    requires u != ""
    ensures !Safe(u) <==> exists p :: 1 <= p < |u| && Prefix(u[..p]) <= Prefix(u) + id
  {
    forall p | 1 <= p < |u|
      ensures Prefix(u)[p..p + 2] == "__" <==> Prefix(u[..p]) <= Prefix(u) + id
    {
      var short := Prefix(u[..p]);
      assert (Prefix(u) + id)[..p + 2] == u[..p] + Prefix(u)[p..p + 2];
      assert short == u[..p] + "__";
      if Prefix(u)[p..p + 2] != "__" {
        assert short[p..] != (Prefix(u) + id)[..p + 2][p..];
      }
    }
    if !Safe(u) {
      var p :| 1 <= p < |u| && Prefix(u)[p..p + 2] == "__";
      assert Prefix(u[..p]) <= Prefix(u) + id;
    } else {
      forall p | 1 <= p < |u| ensures !(Prefix(u[..p]) <= Prefix(u) + id) {
        assert Prefix(u)[p..p + 2] != "__";
      }
    }
  }

  /** The two buckets say the same: keys lead to ids and ids lead back to their keys. */
  ghost predicate MutuallyInverse(keys: map<Bytes, Bytes>, ids: map<Bytes, Bytes>) {
    && (forall k <- keys :: keys[k] in ids && ids[keys[k]] == k)
    && (forall id <- ids :: ids[id] in keys && keys[ids[id]] == id)
  }

  ghost predicate Describes(under: map<Bytes, Bytes>, ids: map<Bytes, Bytes>) {
    && under.Keys == ids.Keys
    && forall id <- ids :: IsKey(id) && under[id] != "" && ids[id] == Prefix(under[id]) + id
  }

  ghost function IdsUnder(under: map<Bytes, Bytes>, value: Bytes): set<Bytes> {
    set id | id in under && under[id] == value
  }

  lemma NotIdsIndex(value: Bytes, rest: Bytes)
    requires value != ""
    ensures Prefix(value) + rest != IDS_INDEX
  {
    var k := Prefix(value) + rest;
    assert k[|value| + 1] == '_';
    assert |value| + 1 < 5 ==> IDS_INDEX[|value| + 1] != '_';
  }

  /** The value and those of all ids are safe. */
  ghost predicate AllSafe(under: map<Bytes, Bytes>, value: Bytes) {
    Safe(value) && forall id <- under :: Safe(under[id])
  }

  /** Only the ids under the value have keys with its prefix. */
  ghost predicate Unmixed(under: map<Bytes, Bytes>, value: Bytes) {
    forall id <- under :: Prefix(value) <= Prefix(under[id]) + id ==> under[id] == value
  }

  lemma SafeIsUnmixed(under: map<Bytes, Bytes>, value: Bytes)
    requires AllSafe(under, value)
    ensures Unmixed(under, value)
  {
    forall id | id in under && Prefix(value) <= Prefix(under[id]) + id ensures under[id] == value {
      SafeKeysMatch(under[id], value, id);
    }
  }

  /** Another id has the key that the id would have under the value. */
  ghost predicate Collides(under: map<Bytes, Bytes>, value: Bytes, id: Bytes) {
    exists other <- under :: other != id && Prefix(under[other]) + other == Prefix(value) + id
  }

  /** Ids of one width do not collide. */
  lemma OneWidthNeverCollides(under: map<Bytes, Bytes>, value: Bytes, id: Bytes)
    requires forall other <- under :: |other| == |id|
    ensures !Collides(under, value, id)
  {
    forall other | other in under && Prefix(under[other]) + other == Prefix(value) + id ensures other == id {
      var k := Prefix(value) + id;
      assert id == k[|k| - |id|..] && other == k[|k| - |other|..];
    }
  }

  /** Nor does an id under a value that is not mixed up with others. */
  lemma UnmixedNeverCollides(under: map<Bytes, Bytes>, value: Bytes, id: Bytes)
    requires Unmixed(under, value)
    ensures !Collides(under, value, id)
  {
    forall other | other in under && Prefix(under[other]) + other == Prefix(value) + id ensures other == id {
      assert Prefix(value) <= Prefix(under[other]) + other;
      assert (Prefix(value) + id)[|value| + 2..] == id && (Prefix(value) + other)[|value| + 2..] == other;
    }
  }

  /** The keys without the one of the id. */
  function KeysWithout(keys: map<Bytes, Bytes>, rows: map<Bytes, Bytes>, id: Bytes): map<Bytes, Bytes> {
    if id in rows then keys - {rows[id]} else keys
  }

  class ListIndex {
    const index: Bucket<Bytes>
    const ids: UniqueIndex<Bytes>
    /** The value of every id. */
    ghost var under: map<Bytes, Bytes>

    /** An index over buckets that exist and are empty. */
    constructor (index: Bucket<Bytes>, ids: UniqueIndex<Bytes>)
      requires ids.parent == index && ids.name == IDS_INDEX && ids.Valid()
      requires index.values == map[] && index.nested == map[IDS_INDEX := map[]]
      ensures this.index == index && this.ids == ids
      ensures Valid() && under == map[]
    {
      this.index, this.ids, this.under := index, ids, map[];
    }

    ghost predicate Formed()
      reads index
    {
      && ids.parent == index && ids.name == IDS_INDEX && ids.Valid()
      && index.nested.Keys == {IDS_INDEX} && IDS_INDEX !in index.values
    }

    ghost predicate Valid()
      reads this, index
    {
      && Formed()
      && MutuallyInverse(index.values, ids.Rows())
      && Describes(under, ids.Rows())
    }

    /** Drops the entry of the id from both buckets. */
    method Forget(id: Bytes) returns (ok: bool)
      requires Valid()
      modifies this`under, index`values, index`nested
      ensures ok && Valid() && under == old(under) - {id}
      ensures index.values == old(KeysWithout(index.values, ids.Rows(), id)) && ids.Rows() == old(ids.Rows()) - {id}
    {
      var idKey := ids.Get(id);
      if idKey.None? {
        return true;
      }
      ok := index.Delete(idKey.value);
      if !ok {
        return;
      }
      ids.Remove(id);
      under := under - {id};
    }

    /** Puts the id under the value, and takes it from where it was. The bucket refuses ids and keys that are too
        long, or empty. The transaction has to be given up when the id is left without a key, or has taken the key
        of another: exactly then the buckets disagree. */
    method Add(value: Option<Bytes>, id: Option<Bytes>) returns (ok: bool)
      requires Valid()
      requires value.Some? && id.Some? ==> value.value != ""
      modifies this`under, index`values, index`nested
      ensures ok <==> value.Some? && id.Some? && IsKey(id.value) && IsKey(Prefix(value.value) + id.value)
      ensures value.None? || id.None? || !IsKey(id.value) ==>
                Valid() && under == old(under) && index.values == old(index.values) && ids.Rows() == old(ids.Rows())
      ensures Formed()
      ensures value.Some? && id.Some? && IsKey(id.value) ==>
                var keys, key := old(KeysWithout(index.values, ids.Rows(), id.value)), Prefix(value.value) + id.value;
                index.values == (if ok then keys[key := id.value] else keys) && ids.Rows() == old(ids.Rows())[id.value := key]
      ensures value.Some? && id.Some? && IsKey(id.value) ==>
                && (MutuallyInverse(index.values, ids.Rows()) <==> ok && !Collides(old(under), value.value, id.value))
                && (ok && !Collides(old(under), value.value, id.value) ==> Valid() && under == old(under)[id.value := value.value])
    {
      assert id.Some? && (id.value in under || id.value in ids.Rows()) ==> IsKey(id.value);
      hide MutuallyInverse, Describes, Prefix, IsKey, Collides;
      if value.None? || id.None? {
        return false;
      }
      Overwritten(ids.Rows(), id.value, Prefix(value.value) + id.value);
      Overwritten(under, id.value, value.value);
      SameCollisions(under, value.value, id.value);
      ok := Forget(id.value);
      if !ok {
        return;
      }
      ok := Link(value.value, id.value);
    }

    /** Enters the id into both buckets. */
    method Link(value: Bytes, id: Bytes) returns (ok: bool)
      requires Valid() && id !in under && value != ""
      modifies this`under, index`values, index`nested
      ensures ok <==> IsKey(id) && IsKey(Prefix(value) + id)
      ensures !IsKey(id) ==> Valid() && under == old(under) && index.values == old(index.values) && ids.Rows() == old(ids.Rows())
      ensures Formed()
      ensures IsKey(id) ==>
                && index.values == (if ok then old(index.values)[Prefix(value) + id := id] else old(index.values))
                && ids.Rows() == old(ids.Rows())[id := Prefix(value) + id]
      ensures IsKey(id) ==>
                && (MutuallyInverse(index.values, ids.Rows()) <==> ok && !Collides(old(under), value, id))
                && (ok && !Collides(old(under), value, id) ==> Valid() && under == old(under)[id := value])
    {
      hide MutuallyInverse, Describes, Collides;
      var idKey := GeneratePrefix(value);
      idKey := idKey + id;
      NotIdsIndex(value, id);
      Linked(index.values, ids.Rows(), under, value, id);
      ok := ids.Add(Some(id), Some(idKey));
      if !ok {
        return;
      }
      HalfLinked(index.values, old(ids.Rows()), value, id);
      ok := index.Put(idKey, id);
      if ok {
        under := under[id := value];
      }
    }

    /** Takes the id out of the index. */
    method RemoveByID(id: Bytes) returns (ok: bool)
      requires Valid()
      modifies this`under, index`values, index`nested
      ensures ok && Valid() && under == old(under) - {id}
      ensures index.values == old(KeysWithout(index.values, ids.Rows(), id)) && ids.Rows() == old(ids.Rows()) - {id}
    {
      ok := Forget(id);
    }

    /** What a cursor over the index bucket answers under its keys; the nested bucket has no value. */
    function Listing(): map<Bytes, Bytes>
      reads index
    {
      index.values[IDS_INDEX := ""]
    }

    /** The id under the first key with the prefix of a value; that is the first one under the value, unless the value
        is mixed up with others. */
    method Get(indexValue: Bytes) returns (id: Option<Bytes>)
      requires Valid() && indexValue != ""
      ensures id == KeyAt(KeptIds(Listing(), HasPrefix(Prefix(indexValue))), 0)
      ensures Unmixed(under, indexValue) ==> id == KeyAt(SortedKeys(IdsUnder(under, indexValue)), 0)
    {
      hide Filter, Unmixed, MutuallyInverse, Describes, Sorted;
      var cursor := new Cursor(Listing().Keys);
      var prefix := GeneratePrefix(indexValue);
      FirstKept(Listing(), prefix);
      IdsOfValue(index.values, ids.Rows(), under, indexValue);
      var key := cursor.Seek(prefix);
      if key.Some? && prefix <= key.value {
        return Some(Listing()[key.value]);
      }
      return None;
    }

    /** The ids under the keys with the prefix of a value, skipped and limited; those are the ids under the value, in id
        order or backwards, unless the value is mixed up with others. */
    method All(indexValue: Bytes, ops: CursorOptions?) returns (results: seq<Bytes>)
      requires Valid() && indexValue != ""
      modifies ops
      ensures results == old(Answer(Turned(KeptIds(Listing(), HasPrefix(Prefix(indexValue))), ops != null && ops.reverse), ops))
      ensures Unmixed(under, indexValue) ==>
                results == old(Answer(Turned(SortedKeys(IdsUnder(under, indexValue)), ops != null && ops.reverse), ops))
    {
      hide Answer, Page, Visited, Filter, Reversed, IdsOf, Unmixed;
      var prefix := GeneratePrefix(indexValue);
      var cursor := new Cursor(Listing().Keys);
      var c := new ScanCursor(cursor, Prefixed(prefix), ops != null && ops.reverse);
      PrefixIds(Listing(), prefix);
      IdsOfValue(index.values, ids.Rows(), under, indexValue);
      results := ScanIds(c, ops, Listing());
    }
  }

  /** An id that is not there can be entered with its key, unless another has the key: then the buckets disagree. */
  lemma Linked(keys: map<Bytes, Bytes>, rows: map<Bytes, Bytes>, under: map<Bytes, Bytes>, value: Bytes, id: Bytes)
    requires MutuallyInverse(keys, rows) && Describes(under, rows) && id !in under && value != ""
    ensures id !in rows
    ensures var k := Prefix(value) + id;
            && (k in keys <==> Collides(under, value, id))
            && (MutuallyInverse(keys[k := id], rows[id := k]) <==> !Collides(under, value, id))
            && (IsKey(id) ==> Describes(under[id := value], rows[id := k]))
  {
    var k := Prefix(value) + id;
    if k in keys {
      var other := keys[k];
      assert other in under && other != id && Prefix(under[other]) + other == k;
      assert rows[id := k][other] == k && keys[k := id][k] == id;
    } else {
      forall other | other in under && other != id ensures Prefix(under[other]) + other != k {
        assert rows[other] in keys;
      }
    }
  }

  lemma Overwritten(m: map<Bytes, Bytes>, k: Bytes, v: Bytes)
    ensures (m - {k})[k := v] == m[k := v]
    ensures k !in m ==> m - {k} == m
  {
  }

  lemma SameCollisions(under: map<Bytes, Bytes>, value: Bytes, id: Bytes)
    ensures Collides(under - {id}, value, id) <==> Collides(under, value, id)
  {
    if Collides(under, value, id) {
      var other :| other in under && other != id && Prefix(under[other]) + other == Prefix(value) + id;
      assert other in under - {id};
    }
  }

  /** An id without a key. */
  lemma HalfLinked(keys: map<Bytes, Bytes>, rows: map<Bytes, Bytes>, value: Bytes, id: Bytes)
    requires MutuallyInverse(keys, rows) && id !in rows
    ensures !MutuallyInverse(keys, rows[id := Prefix(value) + id])
  {
    var k := Prefix(value) + id;
    assert k in keys ==> keys[k] != id;
    assert rows[id := k][id] == k;
  }

  /** A scan of the prefix of a value finds exactly the ids under the value, in order, if and only if no other id has
      a key with the prefix. */
  lemma IdsOfValue(keys: map<Bytes, Bytes>, rows: map<Bytes, Bytes>, under: map<Bytes, Bytes>, value: Bytes)
    requires MutuallyInverse(keys, rows) && Describes(under, rows) && value != ""
    ensures KeptIds(keys[IDS_INDEX := ""], HasPrefix(Prefix(value))) == SortedKeys(IdsUnder(under, value)) <==> Unmixed(under, value)
  {
    hide Sorted, Unmixed, KeptIds;
    if Unmixed(under, value) {
      UnmixedIds(keys, rows, under, value);
    } else {
      var id := MixedUpId(under, value);
      var key := Prefix(under[id]) + id;
      NotIdsIndex(under[id], id);
      FoundByKey(keys[IDS_INDEX := ""], Prefix(value), key);
    }
  }

  lemma MixedUpId(under: map<Bytes, Bytes>, value: Bytes) returns (id: Bytes)
    requires !Unmixed(under, value)
    ensures id in under && Prefix(value) <= Prefix(under[id]) + id && under[id] != value
  {
    id :| id in under && Prefix(value) <= Prefix(under[id]) + id && under[id] != value;
  }

  lemma FoundByKey(listing: map<Bytes, Bytes>, prefix: Bytes, key: Bytes)
    requires key in listing && prefix <= key
    ensures listing[key] in KeptIds(listing, HasPrefix(prefix))
  {
    hide Sorted;
    var sorted := SortedKeys(listing.Keys);
    var kept := Filter(sorted, HasPrefix(prefix));
    FilterMembers(sorted, HasPrefix(prefix));
    assert key in kept;
    var i :| 0 <= i < |kept| && kept[i] == key;
    assert KeptIds(listing, HasPrefix(prefix))[i] == listing[key];
  }

  lemma UnmixedIds(keys: map<Bytes, Bytes>, rows: map<Bytes, Bytes>, under: map<Bytes, Bytes>, value: Bytes)
    requires MutuallyInverse(keys, rows) && Describes(under, rows) && value != "" && Unmixed(under, value)
    ensures KeptIds(keys[IDS_INDEX := ""], HasPrefix(Prefix(value))) == SortedKeys(IdsUnder(under, value))
  {
    hide Sorted;
    var listing := keys[IDS_INDEX := ""];
    var sorted := SortedKeys(listing.Keys);
    var kept := Filter(sorted, HasPrefix(Prefix(value)));
    var found := KeptIds(listing, HasPrefix(Prefix(value)));
    FilterMembers(sorted, HasPrefix(Prefix(value)));
    forall i | 0 <= i < |kept|
      ensures found[i] in rows && under[found[i]] == value && kept[i] == Prefix(value) + found[i]
    {
      var k := kept[i];
      assert k in kept && Prefix(value) <= k;
      NotIdsIndex(value, k[|value| + 2..]);
      assert k == Prefix(value) + k[|value| + 2..];
    }
    WithPrefixIsSorted(sorted, Prefix(value));
    IdsInOrder(kept, found, Prefix(value));
    forall id ensures id in found <==> id in IdsUnder(under, value) {
      if id in IdsUnder(under, value) {
        assert Prefix(value) + id in kept;
        var i :| 0 <= i < |kept| && kept[i] == Prefix(value) + id;
        assert found[i] == id;
      }
    }
    SortedUnique(found, SortedKeys(IdsUnder(under, value)));
  }

  lemma FirstKept(rows: map<Bytes, Bytes>, prefix: Bytes)
    ensures var keys := SortedKeys(rows.Keys);
            var at := SeekIndex(keys, prefix);
            && (forall k <- keys :: k in rows)
            && KeyAt(KeptIds(rows, HasPrefix(prefix)), 0) ==
               if at < |keys| && prefix <= keys[at] then Some(rows[keys[at]]) else None
  {
    PrefixIsSlice(SortedKeys(rows.Keys), prefix);
  }

  lemma WithPrefixIsSorted(keys: seq<Bytes>, prefix: Bytes)
    requires Sorted(keys)
    ensures Sorted(Filter(keys, HasPrefix(prefix)))
  {
    PrefixIsSlice(keys, prefix);
  }

  lemma IdsInOrder(kept: seq<Bytes>, found: seq<Bytes>, prefix: Bytes)
    requires |kept| == |found| && Sorted(kept) && forall i :: 0 <= i < |kept| ==> kept[i] == prefix + found[i]
    ensures Sorted(found)
  {
    forall i, j | 0 <= i < j < |found| ensures Less(found[i], found[j]) {
      assert Less(kept[i], kept[j]);
      LessUnderPrefix(prefix, found[i], found[j]);
    }
  }
}
