/** The non-thread-safe fixed size cache: a recency list and a map from keys to its elements,
    changed together. `order` is the sequence of RecencyOrder.dfy that both of them stand for. */
module Lru {
  import opened Options
  import opened RecencyOrder
  import opened EvictionList
  import opened Sequences

  /** The map leads from each key of the order to the list element at the same place, and nowhere else. */
  ghost predicate Indexed<K, V, E>(order: seq<Entry<K, V>>, elements: seq<E>, items: map<K, E>) {
    && |order| == |elements|
    && (forall i :: 0 <= i < |order| ==> order[i].key in items && items[order[i].key] == elements[i])
    && (forall k <- items :: Has(order, k))
    && Distinct(order)
  }

  lemma IndexedAt<K, V, E>(order: seq<Entry<K, V>>, elements: seq<E>, items: map<K, E>, k: K) returns (i: nat)
    requires Indexed(order, elements, items) && k in items
    ensures i < |order| && order[i].key == k && items[k] == elements[i]
    ensures Lookup(order, k) == Some(order[i].value)
    ensures Without(order, k) == order[..i] + order[i + 1..]
  {
    i :| 0 <= i < |order| && order[i].key == k;
    WithoutAt(order, i);
  }

  lemma IndexedRemove<K, V, E>(order: seq<Entry<K, V>>, elements: seq<E>, items: map<K, E>, i: nat)
    requires Indexed(order, elements, items) && i < |order|
    ensures Indexed(order[..i] + order[i + 1..], elements[..i] + elements[i + 1..], items - {order[i].key})
  {
    var o, rest := order[..i] + order[i + 1..], items - {order[i].key};
    forall k | k in rest ensures Has(o, k) {
      var j :| 0 <= j < |order| && order[j].key == k;
      assert o[if j < i then j else j - 1].key == k;
    }
  }

  lemma IndexedPush<K, V, E>(order: seq<Entry<K, V>>, elements: seq<E>, items: map<K, E>, k: K, v: V, e: E)
    requires Indexed(order, elements, items) && k !in items
    ensures Indexed([Entry(k, v)] + order, [e] + elements, items[k := e])
  {
    var o, more := [Entry(k, v)] + order, items[k := e];
    forall x | x in more ensures Has(o, x) {
      if x == k {
        assert o[0].key == k;
      } else {
        var j :| 0 <= j < |order| && order[j].key == x;
        assert o[j + 1].key == x;
      }
    }
  }

  lemma IndexedMove<K, V, E>(order: seq<Entry<K, V>>, elements: seq<E>, items: map<K, E>, i: nat, v: V)
    requires Indexed(order, elements, items) && i < |order|
    ensures var k := order[i].key;
            && Without(order, k) == order[..i] + order[i + 1..]
            && Indexed([Entry(k, v)] + Without(order, k), [elements[i]] + (elements[..i] + elements[i + 1..]), items)
  {
    var k := order[i].key;
    WithoutAt(order, i);
    IndexedRemove(order, elements, items, i);
    IndexedPush(order[..i] + order[i + 1..], elements[..i] + elements[i + 1..], items - {k}, k, v, elements[i]);
    assert items == (items - {k})[k := elements[i]];
  }

  lemma IndexedAbsent<K, V, E>(order: seq<Entry<K, V>>, elements: seq<E>, items: map<K, E>, k: K)
    requires Indexed(order, elements, items) && k !in items
    ensures !Has(order, k)
  {
  }

  lemma Taken<T>(calls: seq<T>, left: seq<T>, i: nat)
    requires i < |left|
    ensures multiset(calls + [left[i]]) + multiset(left[..i] + left[i + 1..]) == multiset(calls) + multiset(left)
  {
    assert left == left[..i] + [left[i]] + left[i + 1..];
  }

  lemma IndexedLength<K, V, E>(order: seq<Entry<K, V>>, elements: seq<E>, items: map<K, E>)
    requires Indexed(order, elements, items)
    ensures |order| == |elements|
  {
  }

  lemma NothingIndexed<K, V, E>()
    ensures Indexed<K, V, E>([], [], map[])
  {
  }

  lemma IndexedOverwrite<K, V, E>(order: seq<Entry<K, V>>, elements: seq<E>, items: map<K, E>, v: V)
    requires Indexed(order, elements, items) && order != []
    ensures Indexed([Entry(order[0].key, v)] + order[1..], elements, items)
  {
    var o := [Entry(order[0].key, v)] + order[1..];
    assert forall i :: 0 <= i < |order| ==> o[i].key == order[i].key;
    forall k | k in items ensures Has(o, k) {
      var i :| 0 <= i < |order| && order[i].key == k;
      assert o[i].key == k;
    }
  }

  ghost function KeysOf<K, V>(order: seq<Entry<K, V>>): set<K> {
    set e <- order :: e.key
  }

  lemma {:induction false} CountKeys<K, V>(order: seq<Entry<K, V>>)
    requires Distinct(order)
    ensures |KeysOf(order)| == |order|
  {
    if order != [] {
      var rest := order[1..];
      CountKeys(rest);
      assert order == [order[0]] + rest;
      assert KeysOf(order) == {order[0].key} + KeysOf(rest);
    }
  }

  lemma IndexedCount<K, V, E>(order: seq<Entry<K, V>>, elements: seq<E>, items: map<K, E>)
    requires Indexed(order, elements, items)
    ensures |items| == |order|
  {
    CountKeys(order);
    assert items.Keys == KeysOf(order);
  }

  ghost predicate Stored<K, V>(order: seq<Entry<K, V>>, elements: seq<Element<K, V>>)
    reads elements
  {
    |order| == |elements| && forall i {:trigger elements[i]} :: 0 <= i < |order| ==> elements[i].data == Some(order[i])
  }

  /** NewLRU refuses a negative size. */
  method NewLRU<K(==), V>(size: int, hasCallback: bool) returns (c: LRU?<K, V>)
    ensures c == null <==> size < 0
    ensures c != null ==>
              && fresh(c) && fresh(c.evictionList.Repr)
              && c.Valid() && c.Order() == [] && c.size == size && c.hasCallback == hasCallback && c.evictions == []
  {
    if size < 0 {
      return null;
    }
    c := new LRU(size, hasCallback);
  }

  class LRU<K(==), V> {
    var size: int
    const evictionList: List<K, V>
    var items: map<K, Element<K, V>>
    const hasCallback: bool
    var evictions: seq<Entry<K, V>>  // the calls made to the eviction callback so far
    ghost var insertions: nat        // how often Add met a key that was not cached

    /** The entries, most recently used first. */
    ghost function Order(): seq<Entry<K, V>>
      reads this, evictionList
    {
      evictionList.contents
    }

    /** List and map describe the same entries. */
    ghost predicate Agree()
      reads this, evictionList, evictionList.Repr
    {
      this !in evictionList.Repr && evictionList.Valid() && Indexed(Order(), evictionList.elements, items)
    }

    /** Fresh insertions are either still cached or were reported to the callback. */
    ghost predicate Counted()
      reads this, evictionList
    {
      hasCallback ==> insertions == |Order()| + |evictions|
    }

    ghost predicate Valid()
      reads this, evictionList, evictionList.Repr
    {
      Agree() && Counted() && |Order()| <= (if size < 0 then 0 else size)
    }

    ghost function Reported(gone: seq<Entry<K, V>>): seq<Entry<K, V>> {
      if hasCallback then gone else []
    }

    constructor (size: int, hasCallback: bool)
      ensures Valid() && Order() == [] && this.size == size && this.hasCallback == hasCallback
      ensures evictions == [] && insertions == 0
      ensures fresh(evictionList.Repr)
    {
      this.size, this.hasCallback := size, hasCallback;
      evictionList := new List();
      items, evictions, insertions := map[], [], 0;
    }

    /** The internal remove: unlinks an element, deletes its key and reports it. */
    method RemoveElement(e: Element<K, V>, ghost i: nat)
      requires Agree() && i < |Order()| && evictionList.elements[i] == e
      modifies this`items, this`evictions, evictionList.Repr
      ensures Agree() && Order() == old(Order())[..i] + old(Order())[i + 1..]
      ensures evictions == old(evictions) + Reported([old(Order())[i]])
      ensures e.data == old(e.data)
      ensures evictionList.Repr == old(evictionList.Repr)
    {
      IndexedRemove(Order(), evictionList.elements, items, i);
      evictionList.Unlink(e, i);
      var ent := e.data.value;
      items := items - {ent.key};
      if hasCallback {
        evictions := evictions + [ent];
      }
    }

    method EvictOldest()
      requires Agree()
      modifies this`items, this`evictions, evictionList.Repr
      ensures Agree() && Order() == OldestDropped(old(Order()))
      ensures evictions == old(evictions) + Reported(old(Order())[|Order()|..])
      ensures evictionList.Repr == old(evictionList.Repr)
    {
      var e := evictionList.Back();
      if e != null {
        RemoveElement(e, |Order()| - 1);
      }
    }

    /** Moves the element of a cached key to the front. */
    method Promote(k: K) returns (e: Element<K, V>)
      requires Agree() && k in items
      modifies evictionList.Repr
      ensures Agree() && e == items[k] == evictionList.elements[0]
      ensures Order() == Touched(old(Order()), k) && |Order()| == old(|Order()|) && Order()[0].key == k
      ensures Order()[1..] == Without(old(Order()), k) && Lookup(old(Order()), k) == Some(Order()[0].value)
      ensures evictionList.Repr == old(evictionList.Repr)
    {
      ghost var i := IndexedAt(Order(), evictionList.elements, items, k);
      IndexedMove(Order(), evictionList.elements, items, i, Order()[i].value);
      e := items[k];
      evictionList.MoveToFront(e, i);
    }

    /** Puts a new key at the front, whatever the size. */
    method Insert(k: K, v: V)
      requires Agree() && k !in items
      modifies this`items, this`insertions, evictionList.Repr
      ensures Agree() && !Has(old(Order()), k) && Order() == [Entry(k, v)] + old(Order())
      ensures insertions == old(insertions) + 1
      ensures fresh(evictionList.Repr - old(evictionList.Repr))
    {
      IndexedAbsent(Order(), evictionList.elements, items, k);
      ghost var was, els, its := Order(), evictionList.elements, items;
      var e := evictionList.PushFront(Entry(k, v));
      items := items[k := e];
      insertions := insertions + 1;
      IndexedPush(was, els, its, k, v, e);
    }

    method Overwrite(k: K, v: V)
      requires Agree() && k in items
      modifies evictionList.Repr
      ensures Agree() && Has(old(Order()), k) && Order() == [Entry(k, v)] + Without(old(Order()), k)
      ensures |Order()| == old(|Order()|) && evictionList.Repr == old(evictionList.Repr)
    {
      hide Indexed, Without, Linked, NoRepeats, Distinct;
      var e := Promote(k);
      IndexedOverwrite(Order(), evictionList.elements, items, v);
      evictionList.StoreInFront(e, Entry(k, v));
    }

    method Add(k: K, v: V) returns (evicted: bool)
      requires Valid()
      modifies this, evictionList.Repr
      ensures Valid() && size == old(size)
      ensures Order() == Added(old(Order()), size, k, v) == Step(old(Order()), size, Op.Add(k, v))
      ensures evicted <==> !Has(old(Order()), k) && |old(Order())| + 1 > size
      ensures evictions == old(evictions) + (if evicted then Reported([([Entry(k, v)] + old(Order()))[|old(Order())|]]) else [])
      ensures insertions == old(insertions) + (if Has(old(Order()), k) then 0 else 1)
      ensures fresh(evictionList.Repr - old(evictionList.Repr))
    {
      hide Indexed, Has, Without, Linked, NoRepeats;
      if k in items {
        Overwrite(k, v);
        return false;
      }
      Insert(k, v);
      evicted := evictionList.len > size;
      if evicted {
        EvictOldest();
      }
    }

    method Get(k: K) returns (r: Option<V>)
      requires Valid()
      modifies evictionList.Repr
      ensures Valid() && Order() == Touched(old(Order()), k) == Step(old(Order()), size, Op.Get(k))
      ensures r == Lookup(old(Order()), k)
      ensures evictionList.Repr == old(evictionList.Repr)
    {
      if k in items {
        var e := Promote(k);
        if e.data.None? {
          return None;
        }
        return Some(e.data.value.value);
      }
      IndexedAbsent(Order(), evictionList.elements, items, k);
      return None;
    }

    method Contains(k: K) returns (ok: bool)
      requires Valid()
      ensures ok <==> Has(Order(), k)
    {
      if k !in items {
        IndexedAbsent(Order(), evictionList.elements, items, k);
      }
      return k in items;
    }

    method Peek(k: K) returns (r: Option<V>)
      requires Valid()
      ensures r == Lookup(Order(), k)
    {
      if k in items {
        ghost var i := IndexedAt(Order(), evictionList.elements, items, k);
        var e := items[k];
        assert evictionList.elements[i] == e;
        return Some(e.data.value.value);
      }
      IndexedAbsent(Order(), evictionList.elements, items, k);
      return None;
    }

    method Remove(k: K) returns (present: bool)
      requires Valid()
      modifies this, evictionList.Repr
      ensures Valid() && size == old(size) && insertions == old(insertions)
      ensures present <==> Has(old(Order()), k)
      ensures Order() == Without(old(Order()), k) == Step(old(Order()), size, Op.Remove(k))
      ensures evictions == old(evictions) + (if present then Reported([Entry(k, Lookup(old(Order()), k).value)]) else [])
      ensures evictionList.Repr == old(evictionList.Repr)
    {
      hide Indexed, Has, Without, Linked, NoRepeats, Distinct;
      if k in items {
        ghost var i := IndexedAt(Order(), evictionList.elements, items, k);
        RemoveElement(items[k], i);
        return true;
      }
      IndexedAbsent(Order(), evictionList.elements, items, k);
      return false;
    }

    method RemoveOldest() returns (r: Option<Entry<K, V>>)
      requires Valid()
      modifies this, evictionList.Repr
      ensures Valid() && size == old(size) && insertions == old(insertions)
      ensures Order() == OldestDropped(old(Order())) == Step(old(Order()), size, Op.RemoveOldest)
      ensures r == if old(Order()) == [] then None else Some(old(Order())[|old(Order())| - 1])
      ensures evictions == old(evictions) + Reported(old(Order())[|Order()|..])
      ensures evictionList.Repr == old(evictionList.Repr)
    {
      hide Indexed, Linked, NoRepeats, Distinct;
      var e := evictionList.Back();
      if e != null {
        RemoveElement(e, |Order()| - 1);
        return e.data;
      }
      return None;
    }

    method GetOldest() returns (r: Option<Entry<K, V>>)
      requires Valid()
      ensures r == if Order() == [] then None else Some(Order()[|Order()| - 1])
    {
      var e := evictionList.Back();
      if e != null {
        return e.data;
      }
      return None;
    }

    /** The keys, oldest first, filling an array of one place per cached key. */
    method Keys() returns (keys: array<Option<K>>)
      requires Valid()
      ensures fresh(keys) && keys.Length == |Order()|
      ensures forall j :: 0 <= j < keys.Length ==> keys[j] == Some(Order()[|Order()| - 1 - j].key)
    {
      IndexedCount(Order(), evictionList.elements, items);
      keys := new Option<K>[|items|](_ => None);
      FillKeys(keys);
    }

    method FillKeys(keys: array<Option<K>>)
      requires evictionList.Valid() && keys.Length == |Order()| && keys !in evictionList.Repr
      modifies keys
      ensures forall j :: 0 <= j < keys.Length ==> keys[j] == Some(Order()[keys.Length - 1 - j].key)
    {
      var i := 0;
      ghost var order, n := Order(), |Order()|;
      var e := evictionList.Back();
      while e != null
        invariant evictionList.Valid() && 0 <= i <= n
        invariant if i == n then e == null else e == evictionList.elements[n - 1 - i]
        invariant forall j :: 0 <= j < i ==> keys[j] == Some(order[n - 1 - j].key)
        decreases n - i
        modifies keys
      {
        keys[i] := Some(e.data.value.key);
        e := evictionList.Prev(e, n - 1 - i);
        i := i + 1;
      }
    }

    /** The entries of an order from n on, oldest first. */
    ghost function Dropped(was: seq<Entry<K, V>>, n: nat): seq<Entry<K, V>>
      decreases |was| - n
    {
      if n >= |was| then [] else Dropped(was, n + 1) + [was[n]]
    }

    /** Resize has come down from `was`, and reported what it dropped. */
    ghost predicate Shrunk(was: seq<Entry<K, V>>, log: seq<Entry<K, V>>)
      reads this, evictionList
    {
      |Order()| <= |was| && Order() == was[..|Order()|] && evictions == log + Reported(Dropped(was, |Order()|))
    }

    method Shrink(ghost was: seq<Entry<K, V>>, ghost log: seq<Entry<K, V>>)
      requires Agree() && Counted() && Shrunk(was, log)
      modifies this`items, this`evictions, evictionList.Repr
      ensures Agree() && Counted() && Shrunk(was, log) && evictionList.Repr == old(evictionList.Repr)
      ensures |Order()| == if old(|Order()|) == 0 then 0 else old(|Order()|) - 1
    {
      hide Indexed, Linked, NoRepeats;
      ghost var n := |Order()|;
      EvictOldest();
      if n > 0 {
        assert was[..n][n - 1..] == [was[n - 1]];
        assert Dropped(was, n - 1) == Dropped(was, n) + was[..n][n - 1..];
      }
    }

    method Resize(newSize: int) returns (diff: int)
      requires Valid()
      modifies this, evictionList.Repr
      ensures Valid() && size == newSize && insertions == old(insertions)
      ensures diff == if newSize < |old(Order())| then |old(Order())| - newSize else 0
      ensures Order() == old(Order())[..if newSize < 0 then 0 else if newSize < |old(Order())| then newSize else |old(Order())|]
      ensures evictions == old(evictions) + Reported(Dropped(old(Order()), |Order()|))
      ensures evictionList.Repr == old(evictionList.Repr)
    {
      diff := evictionList.len - newSize;
      if diff < 0 {
        diff := 0;
      }
      var i := 0;
      ghost var was := Order();
      while i < diff
        invariant 0 <= i <= diff
        invariant Agree() && Counted() && insertions == old(insertions)
        invariant |Order()| == (if i < |was| then |was| - i else 0) && Shrunk(was, old(evictions))
        invariant evictionList.Repr == old(evictionList.Repr)
      {
        Shrink(was, old(evictions));
        i := i + 1;
      }
      size := newSize;
    }

    /** Amid Clear: `left` is still cached, `calls` was forgotten, together they are `was`. */
    ghost predicate Forgetting(left: seq<Entry<K, V>>, els: seq<Element<K, V>>, calls: seq<Entry<K, V>>, was: seq<Entry<K, V>>)
      reads this, els
    {
      && Indexed(left, els, items) && Stored(left, els)
      && multiset(calls) + multiset(left) == multiset(was) && |calls| + |left| == |was|
    }

    /** One round of Clear: reports and forgets a single key. */
    method ForgetKey(k: K, ghost left: seq<Entry<K, V>>, ghost els: seq<Element<K, V>>,
                     ghost calls: seq<Entry<K, V>>, ghost was: seq<Entry<K, V>>, ghost log: seq<Entry<K, V>>)
        returns (ghost left': seq<Entry<K, V>>, ghost els': seq<Element<K, V>>, ghost calls': seq<Entry<K, V>>)
      requires Forgetting(left, els, calls, was) && k in items && evictions == log + Reported(calls)
      modifies this`items, this`evictions
      ensures Forgetting(left', els', calls', was) && |left'| < |left|
      ensures evictions == log + Reported(calls')
    {
      hide Indexed, Has, Lookup, Without, Distinct;
      assert |left| == |els| by {
        IndexedLength(left, els, items);
      }
      ghost var i := IndexedAt(left, els, items, k);
      IndexedRemove(left, els, items, i);
      Taken(calls, left, i);
      left', els', calls' := left[..i] + left[i + 1..], els[..i] + els[i + 1..], calls + [left[i]];
      if hasCallback {
        evictions := evictions + [items[k].data.value];
      }
      items := items - {k};
    }

    /** Reports and forgets every entry, in whatever order the map yields its keys. */
    method Clear()
      requires Valid()
      modifies this, evictionList.Repr
      ensures Valid() && size == old(size) && insertions == old(insertions)
      ensures Order() == [] == Step(old(Order()), size, Op.Clear)
      ensures |evictions| >= |old(evictions)| && evictions[..|old(evictions)|] == old(evictions)
      ensures multiset(evictions[|old(evictions)|..]) == multiset(Reported(old(Order())))
      ensures evictionList.Repr == old(evictionList.Repr)
    {
      assert evictionList.ring[0] in evictionList.Repr;
      ghost var left, els := Order(), evictionList.elements;
      assert Stored(left, els);
      hide Linked, NoRepeats, Indexed, Stored;
      ghost var calls: seq<Entry<K, V>> := [];
      while items != map[]
        invariant Forgetting(left, els, calls, old(Order()))
        invariant evictions == old(evictions) + Reported(calls)
        decreases |left|
        modifies this`items, this`evictions
      {
        var k :| k in items;
        left, els, calls := ForgetKey(k, left, els, calls, old(Order()), old(evictions));
      }
      IndexedCount(left, els, items);
      NothingIndexed<K, V, Element<K, V>>();
      evictionList.Init();
    }
  }
}
