/** An index bucket that maps every indexed value to one id. */
module UniqueIndexes {
  import opened Options
  import opened ByteStrings
  import opened Buckets
  import opened Cursors

  /** The rows after adding (value, id), or None if the index refuses: an index value never changes its id. */
  function WithRow(rows: map<Bytes, Bytes>, indexValue: Bytes, id: Bytes): Option<map<Bytes, Bytes>> {
    if indexValue in rows then (if rows[indexValue] == id then Some(rows) else None)
    else PutRow(rows, indexValue, id)
  }

  ghost predicate IsFirstWithId(rows: map<Bytes, Bytes>, k: Bytes, id: Bytes) {
    && k in rows && rows[k] == id
    && forall l <- rows :: rows[l] == id ==> AtMost(k, l)
  }

  class UniqueIndex<V> {
    const parent: Bucket<V>
    const name: Bytes

    constructor (parent: Bucket<V>, name: Bytes)
      ensures this.parent == parent && this.name == name
    {
      this.parent, this.name := parent, name;
    }

    ghost predicate Valid()
      reads parent
    {
      name in parent.nested
    }

    function Rows(): map<Bytes, Bytes>
      requires Valid()
      reads parent
    {
      parent.nested[name]
    }

    /** Only the rows of this index may change. */
    twostate predicate Becomes(rows: map<Bytes, Bytes>)
      requires old(Valid())
      reads parent
    {
      parent.nested == old(parent.nested)[name := rows]
    }

    method Add(indexValue: Option<Bytes>, id: Option<Bytes>) returns (ok: bool)
      requires Valid()
      modifies parent`nested
      ensures Valid()
      ensures ok <==> indexValue.Some? && id.Some? && old(WithRow(Rows(), indexValue.value, id.value)).Some?
      ensures Becomes(if ok then old(WithRow(Rows(), indexValue.value, id.value)).value else old(Rows()))
      ensures ok <==> && indexValue.Some? && id.Some?
                      && (if indexValue.value in old(Rows()) then old(Rows())[indexValue.value] == id.value
                          else 0 < |indexValue.value| <= 32768)
      ensures Rows() == if ok then old(Rows())[indexValue.value := id.value] else old(Rows())
    {
      if indexValue.None? || id.None? {
        return false;
      }
      var existing := Get(indexValue.value);
      if existing.Some? {
        return existing.value == id.value;
      }
      var put := PutRow(Rows(), indexValue.value, id.value);
      if put.Some? {
        parent.nested := parent.nested[name := put.value];
      }
      return put.Some?;
    }

    method Remove(indexValue: Bytes)
      requires Valid()
      modifies parent`nested
      ensures Valid() && Becomes(old(Rows()) - {indexValue})
    {
      parent.nested := parent.nested[name := Rows() - {indexValue}];
    }

    /** Removes the smallest index value that stands for the id, if there is one. */
    method RemoveByID(id: Bytes)
      requires Valid()
      modifies parent`nested
      ensures Valid()
      ensures id !in old(Rows()).Values ==> Becomes(old(Rows()))
      ensures id in old(Rows()).Values ==>
              exists k :: IsFirstWithId(old(Rows()), k, id) && Becomes(old(Rows()) - {k})
    {
      hide Sorted, IsFirstWithId;
      var rows := Rows();
      var cursor := new Cursor(rows.Keys);
      var k := cursor.First();
      while k.Some?
        invariant k == cursor.Key() && 0 <= cursor.pos && (k.None? ==> cursor.keys == [])
        invariant parent.nested == old(parent.nested)
        invariant forall j :: 0 <= j < cursor.pos && j < |cursor.keys| ==> rows[cursor.keys[j]] != id
        decreases |cursor.keys| - cursor.pos
      {
        assert k.value in cursor.keys;
        if rows[k.value] == id {
          FirstFound(rows, cursor.keys, cursor.pos, id);
          Remove(k.value);
          return;
        }
        ghost var before := cursor.pos;
        k := cursor.Next();
        if k.None? {
          NoneHasId(rows, cursor.keys, id);
          return;
        }
      }
      NoneHasId(rows, cursor.keys, id);
    }

    function Get(indexValue: Bytes): Option<Bytes>
      requires Valid()
      reads parent
    {
      if indexValue in Rows() then Some(Rows()[indexValue]) else None
    }

    /** All ids under a value: at most one, whatever the options say. */
    function All(indexValue: Bytes): (ids: seq<Bytes>)
      requires Valid()
      reads parent
      ensures |ids| <= 1
      ensures forall id :: id in ids <==> indexValue in Rows() && id == Rows()[indexValue]
    {
      if indexValue in Rows() then [Rows()[indexValue]] else []
    }

    /** The ids in key order, or backwards. */
    method AllRecords(ops: CursorOptions?) returns (ids: seq<Bytes>)
      requires Valid()
      modifies ops
      ensures ids == old(Answer(Turned(KeptIds(Rows(), k => true), ops != null && ops.reverse), ops))
    {
      hide Answer, Page, Visited, Filter, Reversed, IdsOf;
      AllIds(Rows());
      ids := Scan(Kind.All, ops);
    }

    /** The ids the range scan visits: those under the keys of [min, max], and backwards too where the reverse
        scan starts in the right place. */
    method Range(min: Bytes, max: Bytes, ops: CursorOptions?) returns (ids: seq<Bytes>)
      requires Valid()
      modifies ops
      ensures ids == old(Answer(VisitedIds(Rows(), Kind.Range(min, max), ops != null && ops.reverse), ops))
      ensures old(ops == null || !ops.reverse || ReverseStartsWell(SortedKeys(Rows().Keys), min, max)) ==>
                ids == old(Answer(Turned(KeptIds(Rows(), InRange(min, max)), ops != null && ops.reverse), ops))
    {
      hide Answer, Page, Visited, Filter, Reversed, IdsOf, ReverseStartsWell;
      RangeIds(Rows(), min, max);
      ids := Scan(Kind.Range(min, max), ops);
    }

    /** The ids under the keys with the prefix; backwards it is the exact reverse. */
    method AllWithPrefix(prefix: Bytes, ops: CursorOptions?) returns (ids: seq<Bytes>)
      requires Valid()
      modifies ops
      ensures ids == old(Answer(Turned(KeptIds(Rows(), HasPrefix(prefix)), ops != null && ops.reverse), ops))
    {
      hide Answer, Page, Visited, Filter, Reversed, IdsOf;
      PrefixIds(Rows(), prefix);
      ids := Scan(Prefixed(prefix), ops);
    }

    method Scan(kind: Kind, ops: CursorOptions?) returns (ids: seq<Bytes>)
      requires Valid()
      modifies ops
      ensures ids == old(Answer(VisitedIds(Rows(), kind, ops != null && ops.reverse), ops))
    {
      hide Answer, Page, Visited, IdsOf;
      var cursor := new Cursor(Rows().Keys);
      var c := new ScanCursor(cursor, kind, ops != null && ops.reverse);
      ids := ScanIds(c, ops, Rows());
    }
  }

  function VisitedIds(rows: map<Bytes, Bytes>, kind: Kind, reverse: bool): seq<Bytes> {
    IdsOf(rows, Visited(SortedKeys(rows.Keys), kind, reverse))
  }

  /** The ids under the keys that a test keeps, in key order. */
  ghost function KeptIds(rows: map<Bytes, Bytes>, keep: Bytes -> bool): seq<Bytes> {
    var kept := Filter(SortedKeys(rows.Keys), keep);
    FilterMembers(SortedKeys(rows.Keys), keep);
    IdsOf(rows, kept)
  }

  function Turned<T>(s: seq<T>, reverse: bool): seq<T> {
    if reverse then Reversed(s) else s
  }

  lemma {:induction false} FilterMembers<T>(s: seq<T>, keep: T -> bool)
    ensures forall x :: x in Filter(s, keep) <==> x in s && keep(x)
  {
    if s != [] {
      FilterMembers(s[1..], keep);
      assert s == [s[0]] + s[1..];
    }
  }

  lemma ReversedIds(rows: map<Bytes, Bytes>, keys: seq<Bytes>)
    requires forall k <- keys :: k in rows
    ensures forall k <- Reversed(keys) :: k in rows
    ensures IdsOf(rows, Reversed(keys)) == Reversed(IdsOf(rows, keys))
  {
    forall k | k in Reversed(keys) ensures k in rows {
      var i :| 0 <= i < |keys| && Reversed(keys)[i] == k;
      assert keys[|keys| - 1 - i] == k;
    }
  }

  lemma AllIds(rows: map<Bytes, Bytes>)
    ensures forall reverse :: VisitedIds(rows, Kind.All, reverse) == Turned(KeptIds(rows, k => true), reverse)
  {
    var keys := SortedKeys(rows.Keys);
    VisitsAll(keys);
    FilterIsSlice(keys, k => true, 0, |keys|);
    assert keys[0..|keys|] == keys;
    ReversedIds(rows, keys);
  }

  lemma RangeIds(rows: map<Bytes, Bytes>, min: Bytes, max: Bytes)
    ensures VisitedIds(rows, Kind.Range(min, max), false) == KeptIds(rows, InRange(min, max))
    ensures ReverseStartsWell(SortedKeys(rows.Keys), min, max) ==>
              VisitedIds(rows, Kind.Range(min, max), true) == Reversed(KeptIds(rows, InRange(min, max)))
  {
    hide Visited, Filter, Reversed, IdsOf, ReverseStartsWell;
    var keys := SortedKeys(rows.Keys);
    RangeForward(keys, min, max);
    RangeReverse(keys, min, max);
    FilterMembers(keys, InRange(min, max));
    ReversedIds(rows, Filter(keys, InRange(min, max)));
  }

  lemma PrefixIds(rows: map<Bytes, Bytes>, prefix: Bytes)
    ensures forall reverse :: VisitedIds(rows, Prefixed(prefix), reverse) == Turned(KeptIds(rows, HasPrefix(prefix)), reverse)
  {
    hide Visited, Filter, Reversed, IdsOf;
    var keys := SortedKeys(rows.Keys);
    PrefixBothWays(keys, prefix);
    FilterMembers(keys, HasPrefix(prefix));
    ReversedIds(rows, Filter(keys, HasPrefix(prefix)));
  }

  lemma KeptExactly(rows: map<Bytes, Bytes>, keep: Bytes -> bool, id: Bytes)
    ensures id in KeptIds(rows, keep) <==> exists k <- rows :: keep(k) && rows[k] == id
  {
    hide Sorted, Filter;
    var kept := Filter(SortedKeys(rows.Keys), keep);
    FilterMembers(SortedKeys(rows.Keys), keep);
    if k :| k in rows && keep(k) && rows[k] == id {
      assert k in kept;
      var i :| 0 <= i < |kept| && kept[i] == k;
      assert KeptIds(rows, keep)[i] == id;
    }
    if id in KeptIds(rows, keep) {
      var i :| 0 <= i < |kept| && KeptIds(rows, keep)[i] == id;
      assert kept[i] in kept;
    }
  }

  /** The ids of a range are those under a key that is not below its minimum and not above its maximum, both included; the ids of
      a prefix those under a key that begins with it. */
  lemma FoundExactly(rows: map<Bytes, Bytes>, min: Bytes, max: Bytes, prefix: Bytes, id: Bytes)
    ensures id in KeptIds(rows, InRange(min, max)) <==>
            exists k <- rows :: (min == k || Less(min, k)) && (k == max || Less(k, max)) && rows[k] == id
    ensures id in KeptIds(rows, HasPrefix(prefix)) <==> exists k <- rows :: prefix <= k && rows[k] == id
  {
    hide KeptIds, Less;
    KeptExactly(rows, InRange(min, max), id);
    KeptExactly(rows, HasPrefix(prefix), id);
    assert forall k :: InRange(min, max)(k) <==> (min == k || Less(min, k)) && (k == max || Less(k, max));
    assert forall k :: HasPrefix(prefix)(k) <==> prefix <= k;
  }

  /** The first key in order that leads to the id is the smallest one. */
  lemma FirstFound(rows: map<Bytes, Bytes>, keys: seq<Bytes>, at: nat, id: Bytes)
    requires keys == SortedKeys(rows.Keys) && at < |keys| && rows[keys[at]] == id
    requires forall j :: 0 <= j < at ==> rows[keys[j]] != id
    ensures IsFirstWithId(rows, keys[at], id)
  {
    forall l | l in rows && rows[l] == id ensures AtMost(keys[at], l) {
      var j :| 0 <= j < |keys| && keys[j] == l;
      assert j == at || Less(keys[at], keys[j]);
    }
  }

  lemma NoneHasId(rows: map<Bytes, Bytes>, keys: seq<Bytes>, id: Bytes)
    requires keys == SortedKeys(rows.Keys) && forall j :: 0 <= j < |keys| ==> rows[keys[j]] != id
    ensures id !in rows.Values
  {
    forall l | l in rows ensures rows[l] != id {
      assert l in keys;
    }
  }
}
