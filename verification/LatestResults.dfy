/** The ring of the latest results: numbered slots, and the number of the last one written under its own key. */
module LatestResults {
  import opened Options
  import opened ByteStrings
  import opened Buckets
  import opened Cursors
  import opened Decimal
  import opened Sequences

  const INDEX_KEY: Bytes := "__index"
  const BUCKET_SIZE := 20
  /** Only a slot number above the size makes the next one 0, so the slots are 0 to 21. */
  const SLOTS: nat := 22

  datatype Slot<T> = Packed(item: T) | Text(text: Bytes)

  function SlotKey(n: nat): Bytes {
    Itoa(n % SLOTS)
  }

  lemma SlotKeysDiffer(n: nat, m: nat)
    ensures SlotKey(n) == SlotKey(m) <==> n % SLOTS == m % SLOTS
    ensures SlotKey(n) != INDEX_KEY && 0 < |SlotKey(n)| <= 2
    ensures Atoi(SlotKey(n)).0 == n % SLOTS
  {
    AtoiOfItoa(n % SLOTS);
    AtoiOfItoa(m % SLOTS);
    assert IsNumeral(SlotKey(n));
    assert !IsDigit(INDEX_KEY[0]);
    assert |Digits(n % SLOTS / 10)| == 1;
  }

  /** The bucket after the items were pushed: the last 22 of them, each in the slot of its turn, and nothing else
      but the number of the last slot. */
  ghost predicate Holds<T(!new)>(values: map<Bytes, Slot<T>>, pushed: seq<T>) {
    var n := |pushed|;
    && (forall k :: k in values <==> n > 0 && (k == INDEX_KEY || exists i :: Recent(i, n) && k == SlotKey(i)))
    && (n > 0 ==> values[INDEX_KEY] == Text(SlotKey(n - 1)))
    && (forall i :: Recent(i, n) ==> values[SlotKey(i)] == Packed(pushed[i]))
  }

  /** What that means: the last 22 pushes are there, each under its number modulo 22 in decimal, and the number of the last one. */
  lemma RingHolds<T(!new)>(values: map<Bytes, Slot<T>>, pushed: seq<T>)
    requires Holds(values, pushed) && pushed != []
    ensures forall i {:trigger pushed[i]} :: 0 <= i < |pushed| && |pushed| - 22 <= i ==>
              Itoa(i % 22) in values && values[Itoa(i % 22)] == Packed(pushed[i])
    ensures "__index" in values && values["__index"] == Text(Itoa((|pushed| - 1) % 22))
    ensures forall k <- values :: k == "__index" || exists i :: 0 <= i < |pushed| && |pushed| - 22 <= i && k == Itoa(i % 22)
  {
    hide Itoa;
    forall i | 0 <= i < |pushed| && |pushed| - 22 <= i
      ensures Itoa(i % 22) in values && values[Itoa(i % 22)] == Packed(pushed[i])
    {
      assert Recent(i, |pushed|) && SlotKey(i) == Itoa(i % 22);
    }
    forall k | k in values && k != INDEX_KEY ensures exists i :: 0 <= i < |pushed| && |pushed| - 22 <= i && k == Itoa(i % 22) {
      var i :| Recent(i, |pushed|) && k == SlotKey(i);
    }
  }

  predicate Recent(i: int, n: nat) {
    0 <= i < n && n - SLOTS <= i
  }

  lemma NextSlot(n: nat)
    requires n > 0
    ensures n % SLOTS == if (n - 1) % SLOTS > BUCKET_SIZE then 0 else (n - 1) % SLOTS + 1
  {
  }

  lemma SlotsOfRecentDiffer(i: int, j: int, n: nat)
    requires Recent(i, n) && Recent(j, n) && i != j
    ensures SlotKey(i) != SlotKey(j)
  {
    SlotKeysDiffer(i, j);
  }

  /** A push puts the item into the slot of its turn, and writes its number. */
  method PushToLatestItems<T(!new)>(bucket: Bucket<Slot<T>>, item: T, ghost pushed: seq<T>) returns (ok: bool)
    requires bucket.nested == map[] && Holds(bucket.values, pushed)
    modifies bucket`values
    ensures ok && Holds(bucket.values, pushed + [item])
  {
    hide Holds, SlotKey, Itoa, Atoi;
    ghost var n := |pushed|;
    ghost var before := bucket.values;
    IndexOf(before, pushed);
    SlotKeysDiffer(n, n);
    var latestKey := bucket.Get(INDEX_KEY);
    var nextKey: Bytes;
    if latestKey.None? {
      nextKey := "0";
    } else {
      var indexInt := if latestKey.value.Text? then Atoi(latestKey.value.text).0 else 0;
      if indexInt > BUCKET_SIZE {
        indexInt := -1;
      }
      nextKey := Itoa(indexInt + 1);
    }
    assert nextKey == SlotKey(n);
    ok := bucket.Put(nextKey, Packed(item));
    if ok {
      ok := bucket.Put(INDEX_KEY, Text(nextKey));
    }
    PushHolds(before, pushed, item);
  }

  lemma IndexOf<T(!new)>(values: map<Bytes, Slot<T>>, pushed: seq<T>)
    requires Holds(values, pushed)
    ensures INDEX_KEY in values <==> pushed != []
    ensures pushed == [] ==> SlotKey(|pushed|) == "0"
    ensures pushed != [] ==>
              var at := Atoi(SlotKey(|pushed| - 1)).0;
              values[INDEX_KEY] == Text(SlotKey(|pushed| - 1)) && at == (|pushed| - 1) % SLOTS
              && SlotKey(|pushed|) == Itoa((if at > BUCKET_SIZE then -1 else at) + 1)
  {
    if pushed != [] {
      NextSlot(|pushed|);
      SlotKeysDiffer(|pushed| - 1, 0);
    }
  }

  lemma PushHolds<T(!new)>(values: map<Bytes, Slot<T>>, pushed: seq<T>, item: T)
    requires Holds(values, pushed)
    ensures Holds(values[SlotKey(|pushed|) := Packed(item)][INDEX_KEY := Text(SlotKey(|pushed|))], pushed + [item])
  {
    hide SlotKey;
    var n := |pushed|;
    var k := SlotKey(n);
    var after := values[k := Packed(item)][INDEX_KEY := Text(k)];
    SlotKeysDiffer(n, n);
    forall i | Recent(i, n + 1) ensures SlotKey(i) in after && after[SlotKey(i)] == Packed((pushed + [item])[i]) {
      SlotKeysDiffer(i, n);
      if i < n {
        SlotsOfRecentDiffer(i, n, n + 1);
      }
    }
    forall l | l in after && l != INDEX_KEY ensures exists i :: Recent(i, n + 1) && l == SlotKey(i) {
      if l == k {
        assert Recent(n, n + 1);
      } else {
        var i :| Recent(i, n) && l == SlotKey(i);
        SlotKeysDiffer(i, n);
        OldestSlot(i, n);
        assert Recent(i, n + 1);
      }
    }
  }

  lemma OldestSlot(i: int, n: nat)
    requires Recent(i, n) && SlotKey(i) != SlotKey(n)
    ensures Recent(i, n + 1)
  {
    hide Itoa;
    assert n >= SLOTS ==> (n - SLOTS) % SLOTS == n % SLOTS;
  }

  // ---------- reading ----------

  /** A cursor that leaves out the number of the last slot. */
  class FilteredCursor {
    const c: Cursor

    constructor (c: Cursor)
      ensures this.c == c
    {
      this.c := c;
    }

    static predicate ShouldSkip(id: Option<Bytes>) {
      id == Some(INDEX_KEY)
    }

    method First() returns (id: Option<Bytes>)
      modifies c
      ensures id == KeyAt(c.keys, NextKept(c.keys, 0)) && (id.Some? ==> c.pos == NextKept(c.keys, 0))
    {
      id := c.First();
      if ShouldSkip(id) {
        id := Next();
      }
    }

    method Next() returns (id: Option<Bytes>)
      requires 0 <= c.pos < |c.keys|
      modifies c
      ensures id == KeyAt(c.keys, NextKept(c.keys, old(c.pos) + 1)) && (id.Some? ==> c.pos == NextKept(c.keys, old(c.pos) + 1))
      decreases |c.keys| - c.pos
    {
      id := c.Next();
      if ShouldSkip(id) {
        id := Next();
      }
    }
  }

  function NextKept(keys: seq<Bytes>, i: nat): (j: nat)
    ensures i <= j
    decreases |keys| - i
  {
    if i < |keys| && keys[i] == INDEX_KEY then NextKept(keys, i + 1) else i
  }

  /** The keys from i on without the one of the number. */
  function KeptFrom(keys: seq<Bytes>, i: nat): (kept: seq<Bytes>)
    ensures forall k :: k in kept <==> k != INDEX_KEY && exists j :: i <= j < |keys| && keys[j] == k
    decreases |keys| - i
  {
    if i >= |keys| then []
    else (if keys[i] != INDEX_KEY then [keys[i]] else []) + KeptFrom(keys, i + 1)
  }

  lemma {:induction false} KeptFromNext(keys: seq<Bytes>, i: nat)
    ensures KeptFrom(keys, i) == KeptFrom(keys, NextKept(keys, i))
    ensures if NextKept(keys, i) < |keys| then keys[NextKept(keys, i)] != INDEX_KEY else KeptFrom(keys, i) == []
    decreases |keys| - i
  {
    if i < |keys| && keys[i] == INDEX_KEY {
      KeptFromNext(keys, i + 1);
    }
  }

  lemma {:induction false} KeptIsSorted(keys: seq<Bytes>, i: nat)
    requires Sorted(keys)
    ensures Sorted(KeptFrom(keys, i))
    decreases |keys| - i
  {
    if i < |keys| {
      KeptIsSorted(keys, i + 1);
      var rest := KeptFrom(keys, i + 1);
      forall j | 0 <= j < |rest| ensures Less(keys[i], rest[j]) {
        assert rest[j] in rest;
      }
    }
  }

  ghost predicate AllPacked(values: map<Bytes, Slot>) {
    forall k <- values :: k != INDEX_KEY ==> values[k].Packed?
  }

  function ItemsAt<T>(values: map<Bytes, Slot<T>>, keys: seq<Bytes>): (items: seq<T>)
    requires forall k <- keys :: k in values && values[k].Packed?
    ensures |items| == |keys|
  {
    seq(|keys|, i requires 0 <= i < |keys| => values[keys[i]].item)
  }

  function Cut<T>(s: seq<T>, count: int): seq<T> {
    if 0 < count < |s| then s[..count] else s
  }

  ghost predicate Within(keys: seq<Bytes>, values: map<Bytes, Slot>) {
    forall k <- keys :: k in values
  }

  /** The items under the keys from i on. */
  function ItemsFrom<T>(values: map<Bytes, Slot<T>>, keys: seq<Bytes>, i: nat): seq<T>
    requires AllPacked(values) && Within(keys, values)
  {
    ItemsAt(values, KeptFrom(keys, i))
  }

  /** The items in the order of the slot keys. */
  function InSlotOrder<T>(values: map<Bytes, Slot<T>>): seq<T>
    requires AllPacked(values)
  {
    ItemsFrom(values, SortedKeys(values.Keys), 0)
  }

  lemma ItemsNext<T>(values: map<Bytes, Slot<T>>, keys: seq<Bytes>, i: nat)
    requires AllPacked(values) && Within(keys, values) && i < |keys| && keys[i] != INDEX_KEY
    ensures keys[i] in values && values[keys[i]].Packed?
    ensures ItemsFrom(values, keys, i) == [values[keys[i]].item] + ItemsFrom(values, keys, NextKept(keys, i + 1))
  {
    assert keys[i] in keys;
    assert KeptFrom(keys, i) == [keys[i]] + KeptFrom(keys, i + 1);
    ItemsOfCons(values, keys[i], KeptFrom(keys, i + 1));
    KeptFromNext(keys, i + 1);
  }

  lemma ItemsOfCons<T>(values: map<Bytes, Slot<T>>, k: Bytes, keys: seq<Bytes>)
    requires k in values && values[k].Packed? && forall l <- keys :: l in values && values[l].Packed?
    ensures forall l <- [k] + keys :: l in values && values[l].Packed?
    ensures ItemsAt(values, [k] + keys) == [values[k].item] + ItemsAt(values, keys)
  {
  }

  /** An answer that is complete, or as long as asked for, is what the list cut off gives. */
  lemma CutThere<T>(output: seq<T>, rest: seq<T>, count: int)
    requires (count > 0 && |output| == count) || (rest == [] && (count <= 0 || |output| <= count))
    ensures Cut(output + rest, count) == output
  {
  }

  lemma ItemsBehind<T>(values: map<Bytes, Slot<T>>, keys: seq<Bytes>, i: nat)
    requires AllPacked(values) && Within(keys, values)
    ensures ItemsFrom(values, keys, i) == ItemsFrom(values, keys, NextKept(keys, i))
    ensures NextKept(keys, i) < |keys| ==> keys[NextKept(keys, i)] != INDEX_KEY
    ensures i >= |keys| ==> ItemsFrom(values, keys, i) == []
  {
    KeptFromNext(keys, i);
  }

  lemma AllItems<T>(values: map<Bytes, Slot<T>>)
    requires AllPacked(values)
    ensures Within(SortedKeys(values.Keys), values) && InSlotOrder(values) == ItemsFrom(values, SortedKeys(values.Keys), 0)
  {
  }

  /** The items of the bucket in key order up to a positive count; nothing without a bucket. */
  method GetLatest<T>(bucket: Option<map<Bytes, Slot<T>>>, count: int) returns (output: seq<T>)
    requires bucket.Some? ==> AllPacked(bucket.value)
    ensures output == if bucket.None? then [] else Cut(InSlotOrder(bucket.value), count)
  {
    output := [];
    if bucket.None? {
      return;
    }
    output := ReadItems(bucket.value, count);
  }

  method ReadItems<T>(values: map<Bytes, Slot<T>>, count: int) returns (output: seq<T>)
    requires AllPacked(values)
    ensures output == Cut(InSlotOrder(values), count)
  {
    hide Sorted, NextKept, ItemsFrom, Cut, AllPacked, Within, InSlotOrder;
    output := [];
    var c := new Cursor(values.Keys);
    var cursor := new FilteredCursor(c);
    ghost var keys := c.keys;
    AllItems(values);
    ItemsBehind(values, keys, 0);
    ghost var i := NextKept(keys, 0);
    var id := cursor.First();
    while id.Some?
      invariant i >= 0 && c.keys == keys && id == KeyAt(keys, i) && (id.Some? ==> c.pos == i && id.value != INDEX_KEY)
      invariant InSlotOrder(values) == output + ItemsFrom(values, keys, i)
      invariant count <= 0 || |output| < count
      decreases |keys| - i
    {
      ItemsNext(values, keys, i);
      ItemsBehind(values, keys, i + 1);
      output := output + [values[id.value].item];
      i := NextKept(keys, i + 1);
      assert InSlotOrder(values) == output + ItemsFrom(values, keys, i);
      if |output| == count {
        CutThere(output, ItemsFrom(values, keys, i), count);
        return;
      }
      id := cursor.Next();
    }
    ItemsBehind(values, keys, i);
    CutThere(output, [], count);
    assert output + [] == output;
  }

  // ---------- what is read ----------

  lemma ItemsWithout<T>(values: map<Bytes, Slot<T>>, keys: seq<Bytes>, p: nat)
    requires (forall k <- keys :: k in values && values[k].Packed?) && p < |keys|
    ensures forall k <- keys[..p] + keys[p + 1..] :: k in keys
    ensures multiset(ItemsAt(values, keys)) ==
            multiset(ItemsAt(values, keys[..p] + keys[p + 1..])) + multiset{values[keys[p]].item}
  {
    var before, after := ItemsAt(values, keys[..p]), ItemsAt(values, keys[p + 1..]);
    assert ItemsAt(values, keys) == before + [values[keys[p]].item] + after;
    assert ItemsAt(values, keys[..p] + keys[p + 1..]) == before + after;
  }

  lemma {:induction false} SameItems<T>(values: map<Bytes, Slot<T>>, a: seq<Bytes>, b: seq<Bytes>)
    requires forall k <- a :: k in values && values[k].Packed?
    requires (forall k :: k in a <==> k in b) && NoRepeats(a) && NoRepeats(b)
    ensures multiset(ItemsAt(values, a)) == multiset(ItemsAt(values, b))
  {
    hide ItemsAt, NoRepeats;
    assert b == [] || b[0] in b;
    if a == [] {
      assert b == [];
    } else {
      assert a[0] in b;
      var p :| 0 <= p < |b| && b[p] == a[0];
      var rest, tail := b[..p] + b[p + 1..], a[..0] + a[1..];
      RestIsOnce(a, 0);
      RestIsOnce(b, p);
      ItemsWithout(values, a, 0);
      ItemsWithout(values, b, p);
      forall k ensures k in tail <==> k in rest {
        InRest(a, 0, k);
        InRest(b, p, k);
      }
      SameItems(values, tail, rest);
    }
  }

  lemma RestIsOnce(keys: seq<Bytes>, p: nat)
    requires NoRepeats(keys) && p < |keys|
    ensures NoRepeats(keys[..p] + keys[p + 1..])
  {
  }

  lemma InRest(keys: seq<Bytes>, p: nat, k: Bytes)
    requires NoRepeats(keys) && p < |keys|
    ensures k in keys[..p] + keys[p + 1..] <==> k in keys && k != keys[p]
  {
    assert keys == keys[..p] + [keys[p]] + keys[p + 1..];
  }

  /** The pushes that are kept. */
  function LastPushed<T>(pushed: seq<T>): seq<T> {
    if |pushed| > SLOTS then pushed[|pushed| - SLOTS..] else pushed
  }

  lemma CutIsPart<T>(s: seq<T>, count: int)
    ensures multiset(Cut(s, count)) <= multiset(s)
    ensures |Cut(s, count)| == if 0 < count < |s| then count else |s|
  {
    if 0 < count < |s| {
      assert s == s[..count] + s[count..];
    }
  }

  /** Reading answers only the last pushes, in some order, and as many of them as there are up to a positive
      count; with a count of at least the slots, or none, all of them. */
  lemma LatestAreLastPushed<T(!new)>(values: map<Bytes, Slot<T>>, pushed: seq<T>, count: int)
    requires Holds(values, pushed)
    ensures AllPacked(values)
    ensures multiset(Cut(InSlotOrder(values), count)) <= multiset(LastPushed(pushed))
    ensures |Cut(InSlotOrder(values), count)| == if 0 < count < |LastPushed(pushed)| then count else |LastPushed(pushed)|
    ensures count <= 0 || count >= SLOTS ==> multiset(Cut(InSlotOrder(values), count)) == multiset(LastPushed(pushed))
  {
    hide Holds, SlotKey, Sorted, NoRepeats, KeptFrom, ItemsAt;
    var keys, slots := KeptFrom(SortedKeys(values.Keys), 0), RecentSlots(|pushed|);
    KeysAreOnce(values);
    RecentSlotsHold(values, pushed);
    SameItems(values, keys, slots);
    CutIsPart(ItemsAt(values, keys), count);
    assert |ItemsAt(values, keys)| == |multiset(ItemsAt(values, keys))| <= SLOTS;
  }

  /** The keys of the kept pushes, oldest first. */
  function RecentSlots(n: nat): (slots: seq<Bytes>)
    ensures |slots| == if n > SLOTS then SLOTS else n
  {
    var lo := if n > SLOTS then n - SLOTS else 0;
    seq(n - lo, i requires 0 <= i < n - lo => SlotKey(lo + i))
  }

  lemma RecentSlotsHold<T(!new)>(values: map<Bytes, Slot<T>>, pushed: seq<T>)
    requires Holds(values, pushed)
    ensures AllPacked(values) && NoRepeats(RecentSlots(|pushed|))
    ensures forall k :: k in KeptFrom(SortedKeys(values.Keys), 0) <==> k in RecentSlots(|pushed|)
    ensures ItemsAt(values, RecentSlots(|pushed|)) == LastPushed(pushed)
  {
    SlotsAreOnce(|pushed|);
    forall k ensures k in values && k != INDEX_KEY <==> k in RecentSlots(|pushed|) {
      SlotMembers(|pushed|, k);
    }
    hide SlotKey, Sorted, NoRepeats;
    KeptMembers(SortedKeys(values.Keys));
    ItemsOfSlots(values, pushed);
  }

  lemma SlotMembers(n: nat, k: Bytes)
    ensures k in RecentSlots(n) <==> exists i :: Recent(i, n) && k == SlotKey(i)
    ensures k in RecentSlots(n) ==> k != INDEX_KEY
  {
    hide SlotKey;
    var slots := RecentSlots(n);
    var lo := if n > SLOTS then n - SLOTS else 0;
    if k in slots {
      var j :| 0 <= j < |slots| && slots[j] == k;
      assert Recent(lo + j, n);
      SlotKeysDiffer(lo + j, 0);
    }
    if i :| Recent(i, n) && k == SlotKey(i) {
      assert slots[i - lo] == k;
    }
  }

  lemma ItemsOfSlots<T(!new)>(values: map<Bytes, Slot<T>>, pushed: seq<T>)
    requires Holds(values, pushed) && forall k <- RecentSlots(|pushed|) :: k in values && values[k].Packed?
    ensures ItemsAt(values, RecentSlots(|pushed|)) == LastPushed(pushed)
  {
    hide SlotKey;
    var n := |pushed|;
    var lo := if n > SLOTS then n - SLOTS else 0;
    forall j | 0 <= j < n - lo
      ensures RecentSlots(n)[j] == SlotKey(lo + j) && values[SlotKey(lo + j)] == Packed(pushed[lo + j])
    {
      assert Recent(lo + j, n);
    }
  }

  lemma SlotsAreOnce(n: nat)
    ensures NoRepeats(RecentSlots(n))
  {
    hide SlotKey;
    var slots := RecentSlots(n);
    var lo := if n > SLOTS then n - SLOTS else 0;
    forall i, j | 0 <= i < j < |slots| ensures slots[i] != slots[j] {
      SlotsOfRecentDiffer(lo + i, lo + j, n);
    }
  }

  lemma KeptMembers(keys: seq<Bytes>)
    ensures forall k :: k in KeptFrom(keys, 0) <==> k in keys && k != INDEX_KEY
  {
  }

  lemma KeysAreOnce(values: map<Bytes, Slot>)
    ensures NoRepeats(KeptFrom(SortedKeys(values.Keys), 0))
  {
    var keys := KeptFrom(SortedKeys(values.Keys), 0);
    KeptIsSorted(SortedKeys(values.Keys), 0);
    forall i, j | 0 <= i < j < |keys| ensures keys[i] != keys[j] {
      LessTotal(keys[i], keys[j]);
    }
  }
}
