/** Going over all records: how far it comes. */
module RecordOrder {
  import opened ByteStrings
  import opened RecordIds
  import opened Records
  import opened RecordStore

  /** The records have exactly the ids 1 to the last one given. */
  ghost predicate HoldsIds(s: State) {
    && s.sequence < TWO_32
    && forall k :: (k in s.values && k != META_KEY) <==> exists i :: 1 <= i <= s.sequence && k == IdBytes(i)
  }

  /** The keys of the first records. */
  function FirstIds(n: nat): (ids: seq<Bytes>)
    requires n < TWO_32
    ensures |ids| == n && forall i :: 0 <= i < n ==> ids[i] == IdBytes(i + 1)
  {
    seq(n, i requires 0 <= i < n => IdBytes(i + 1))
  }

  lemma FirstIdsSorted(n: nat)
    requires n < TWO_32
    ensures Sorted(FirstIds(n))
  {
    hide IdBytes, Less;
    forall i, j | 0 <= i < j < n ensures Less(FirstIds(n)[i], FirstIds(n)[j]) {
      IdsAreOrdered(i + 1, j + 1);
    }
  }

  lemma IndexesBeforeMeta(name: Bytes)
    requires INDEX_PREFIX <= name
    ensures Less(name, META_KEY)
  {
    assert name[0] == '_' && name[1] == '_' && name[2] == 'i';
    assert name[1..][0] == '_' && name[1..][1..][0] == 'i';
  }

  /** `end` is the index of the first nested bucket among the keys. */
  ghost predicate EndsAt(s: State, keys: seq<Bytes>, end: nat) {
    && end <= |keys| && (forall i :: 0 <= i < end ==> keys[i] !in s.nested)
    && (end < |keys| ==> keys[end] in s.nested)
  }

  lemma {:induction false} ReadableIsPrefix(s: State, asTorrent: bool, keys: seq<Bytes>, from: nat, end: nat)
    requires AreKeys(s, keys) && EndsAt(s, keys, end) && from <= end
    ensures |Readable(s, asTorrent, keys, from)| == end - from
    ensures forall i :: from <= i < end ==>
              keys[i] in s.values && Readable(s, asTorrent, keys, from)[i - from] == Decoded(s.values[keys[i]], asTorrent)
    decreases end - from
  {
    if from < end {
      assert keys[from] in keys;
      ReadableIsPrefix(s, asTorrent, keys, from + 1, end);
    }
  }

  lemma FirstNested(s: State, keys: seq<Bytes>) returns (end: nat)
    ensures EndsAt(s, keys, end)
  {
    end := 0;
    while end < |keys| && keys[end] !in s.nested
      invariant end <= |keys| && forall i :: 0 <= i < end ==> keys[i] !in s.nested
    {
      end := end + 1;
    }
  }

  function Reached(n: nat): nat {
    if n <= LAST_BELOW_INDEXES then n else LAST_BELOW_INDEXES
  }

  /** The keys in front of the first index bucket are those of the first records. */
  lemma KeysInFront(s: State, keys: seq<Bytes>, end: nat)
    requires Formed(s) && HoldsIds(s) && s.nested != map[] && keys == KeysInOrder(s) && EndsAt(s, keys, end)
    ensures keys[..end] == FirstIds(Reached(s.sequence))
  {
    var ids := FirstIds(Reached(s.sequence));
    FirstIdsSorted(Reached(s.sequence));
    assert end < |keys| by {
      var some :| some in s.nested;
      assert some in keys;
    }
    forall k ensures k in keys[..end] <==> k in ids {
      InFrontExactly(s, keys, end, k);
    }
    assert Sorted(keys[..end]);
    SortedUnique(keys[..end], ids);
  }

  lemma InFrontExactly(s: State, keys: seq<Bytes>, end: nat, k: Bytes)
    requires Formed(s) && HoldsIds(s) && keys == KeysInOrder(s) && EndsAt(s, keys, end) && end < |keys|
    ensures k in keys[..end] <==> k in FirstIds(Reached(s.sequence))
  {
    hide IdBytes, Less;
    var name, ids := keys[end], FirstIds(Reached(s.sequence));
    if k in keys[..end] {
      var i :| 0 <= i < end && keys[i] == k;
      assert Less(k, name) && k in keys;
      InFront(s, k, name);
      var id :| 1 <= id <= Reached(s.sequence) && k == IdBytes(id);
      assert ids[id - 1] == k;
    }
    if k in ids {
      var i :| 0 <= i < |ids| && ids[i] == k;
      assert k == IdBytes(i + 1) && k in s.values;
      BelowIndexes(i + 1, name);
      SmallerIsInFront(keys, end, k);
    }
  }

  lemma SmallerIsInFront(keys: seq<Bytes>, end: nat, k: Bytes)
    requires Sorted(keys) && k in keys && end < |keys| && Less(k, keys[end])
    ensures k in keys[..end]
  {
    var j :| 0 <= j < |keys| && keys[j] == k;
    assert j > end ==> Less(keys[end], keys[j]);
    LessTotal(k, keys[end]);
    assert j < end;
    assert keys[..end][j] == k;
  }

  lemma InFront(s: State, k: Bytes, name: Bytes)
    requires Formed(s) && HoldsIds(s) && k in s.values && name in s.nested && Less(k, name)
    ensures exists i :: 1 <= i <= Reached(s.sequence) && k == IdBytes(i)
  {
    hide IdBytes;
    IndexesBeforeMeta(name);
    LessTotal(META_KEY, name);
    var i :| 1 <= i <= s.sequence && k == IdBytes(i);
    BelowIndexes(i, name);
  }

  /** Going over the records reads the first ones in the order they were created, up to id 0x5F5F696E. */
  lemma ReadsInOrder(s: State, asTorrent: bool)
    requires Formed(s) && HoldsIds(s) && s.nested != map[]
    ensures var read := Readable(s, asTorrent, KeysInOrder(s), 0);
            && |read| == Reached(s.sequence)
            && forall i :: 1 <= i <= |read| ==> IdBytes(i) in s.values && read[i - 1] == Decoded(s.values[IdBytes(i)], asTorrent)
  {
    hide IdBytes;
    var keys := KeysInOrder(s);
    var end := FirstNested(s, keys);
    KeysInFront(s, keys, end);
    ReadableIsPrefix(s, asTorrent, keys, 0, end);
    forall i | 1 <= i <= end ensures keys[i - 1] == IdBytes(i) {
      assert keys[..end][i - 1] == FirstIds(Reached(s.sequence))[i - 1];
    }
  }

  /** It reads every record exactly while no id is above that one. */
  lemma ReadsAllExactly(s: State, asTorrent: bool)
    requires Formed(s) && HoldsIds(s) && s.nested != map[]
    ensures |Readable(s, asTorrent, KeysInOrder(s), 0)| == s.sequence <==> s.sequence <= LAST_BELOW_INDEXES
  {
    ReadsInOrder(s, asTorrent);
  }
}
