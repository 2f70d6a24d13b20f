/** The cache whose entries expire: an LRU cache of stamped values, a Get that refuses stale ones,
    and a sweeper that walks over all keys. Every method is one critical section of the cache's lock,
    except Sweep, which is one undisturbed round of the background sweeper at a single instant. */
module TtlLru {
  import opened Options
  import opened RecencyOrder
  import opened Lru

  datatype Stamped<+V> = Stamped(value: V, lastAccessTime: int)

  predicate Stale<V>(s: Stamped<V>, now: int, ttl: int) {
    now > s.lastAccessTime + ttl
  }

  /** The entries that are not stale, in their order. */
  ghost function Fresh<K, V>(o: seq<Entry<K, Stamped<V>>>, now: int, ttl: int): seq<Entry<K, Stamped<V>>> {
    if o == [] then []
    else if Stale(o[0].value, now, ttl) then Fresh(o[1..], now, ttl)
    else [o[0]] + Fresh(o[1..], now, ttl)
  }

  /** What survives a sweep: the entries whose last Add is at most the TTL ago, in their order. */
  lemma {:induction false} FreshIsExactlyUnexpired<K, V>(o: seq<Entry<K, Stamped<V>>>, now: int, ttl: int)
    ensures forall e <- Fresh(o, now, ttl) :: e in o && now - e.value.lastAccessTime <= ttl
    ensures forall e <- o :: now - e.value.lastAccessTime <= ttl ==> e in Fresh(o, now, ttl)
    ensures Sub(Fresh(o, now, ttl), o)
  {
    if o == [] {
      assert Fresh(o, now, ttl) == [];
    } else {
      FreshIsExactlyUnexpired(o[1..], now, ttl);
      assert o == [o[0]] + o[1..];
    }
  }

  ghost function Expiring<K, V>(o: seq<Entry<K, Stamped<V>>>, k: K, now: int, ttl: int): seq<Entry<K, Stamped<V>>> {
    match Lookup(o, k)
    case None => o
    case Some(s) => if Stale(s, now, ttl) then Without(o, k) else Touched(o, k)
  }

  /** What a Get leaves: it takes out the entry of the key if that is expired, and otherwise moves it to the front; the
      other entries stay as they are. */
  lemma GetLeaves<K, V>(o: seq<Entry<K, Stamped<V>>>, k: K, i: nat, now: int, ttl: int)
    requires Distinct(o) && i < |o| && o[i].key == k
    ensures Expiring(o, k, now, ttl) == (if now - o[i].value.lastAccessTime <= ttl then [o[i]] else []) + o[..i] + o[i + 1..]
  {
    WithoutAt(o, i);
  }

  lemma TouchedThenRemoved<K, V>(o: seq<Entry<K, V>>, k: K)
    ensures Without(Touched(o, k), k) == Without(o, k)
    ensures Lookup(Touched(o, k), k) == Lookup(o, k)
  {
    if Has(o, k) {
      var w := Without(o, k);
      assert ([Entry(k, Lookup(o, k).value)] + w)[1..] == w;
    }
  }

  /** What Get reports for a key. */
  ghost function ExpiredAt<K, V>(o: seq<Entry<K, Stamped<V>>>, k: K, now: int, ttl: int): seq<Entry<K, Stamped<V>>> {
    match Lookup(o, k)
    case None => []
    case Some(s) => if Stale(s, now, ttl) then [Entry(k, s)] else []
  }

  /** The stale entries from n on, oldest first. */
  ghost function Expired<K, V>(o: seq<Entry<K, Stamped<V>>>, n: nat, now: int, ttl: int): seq<Entry<K, Stamped<V>>>
    decreases |o| - n
  {
    if n >= |o| then [] else Expired(o, n + 1, now, ttl) + (if Stale(o[n].value, now, ttl) then [o[n]] else [])
  }

  /** Every entry is a survivor of a sweep or reported by it, and not both. */
  lemma {:induction false} FreshOrExpired<K, V>(o: seq<Entry<K, Stamped<V>>>, n: nat, now: int, ttl: int)
    requires n <= |o|
    ensures multiset(Fresh(o[n..], now, ttl)) + multiset(Expired(o, n, now, ttl)) == multiset(o[n..])
    decreases |o| - n
  {
    if n == |o| {
      assert o[n..] == [];
    } else {
      FreshOrExpired(o, n + 1, now, ttl);
      assert o[n..] == [o[n]] + o[n + 1..] && o[n..][1..] == o[n + 1..];
    }
  }

  /** The order amid a sweep over `o` that has done the keys from n on. */
  ghost function SweptTo<K, V>(o: seq<Entry<K, Stamped<V>>>, n: nat, now: int, ttl: int): seq<Entry<K, Stamped<V>>>
    requires n <= |o|
  {
    Fresh(o[n..], now, ttl) + o[..n]
  }

  /** What the sweeper does to the order when it reaches entry n of `o` with the older ones done. */
  lemma SweepStep<K, V>(o: seq<Entry<K, Stamped<V>>>, n: nat, now: int, ttl: int)
    requires Distinct(o) && n < |o|
    ensures var cur, k := SweptTo(o, n + 1, now, ttl), o[n].key;
            && Distinct(cur) && Lookup(cur, k) == Some(o[n].value)
            && (if Stale(o[n].value, now, ttl) then Without(cur, k) else Touched(cur, k)) == SweptTo(o, n, now, ttl)
  {
    var f := Fresh(o[n + 1..], now, ttl);
    var cur := f + o[..n + 1];
    FreshKeepsDistinct(o[n + 1..], now, ttl);
    FreshIsExactlyUnexpired(o[n + 1..], now, ttl);
    forall i, j | 0 <= i < j < |cur| ensures cur[i].key != cur[j].key {
      if i < |f| <= j {
        var e := f[i];
        assert e in f && e in o[n + 1..];
      }
    }
    assert cur[|f| + n] == o[n];
    WithoutAt(cur, |f| + n);
    assert Without(cur, o[n].key) == f + o[..n];
    assert o[n..][1..] == o[n + 1..];
    assert [o[n]] + (f + o[..n]) == ([o[n]] + f) + o[..n];
  }

  lemma {:induction false} FreshKeepsDistinct<K, V>(o: seq<Entry<K, Stamped<V>>>, now: int, ttl: int)
    requires Distinct(o)
    ensures Distinct(Fresh(o, now, ttl))
  {
    if o != [] {
      FreshKeepsDistinct(o[1..], now, ttl);
      FreshIsExactlyUnexpired(o[1..], now, ttl);
      var f := Fresh(o[1..], now, ttl);
      forall i | 0 <= i < |f| ensures f[i].key != o[0].key {
        var e := f[i];
        assert e in f && e in o[1..];
      }
    }
  }

  lemma SweptEnds<K, V>(o: seq<Entry<K, Stamped<V>>>, now: int, ttl: int)
    ensures SweptTo(o, |o|, now, ttl) == o && SweptTo(o, 0, now, ttl) == Fresh(o, now, ttl)
    ensures Expired(o, |o|, now, ttl) == []
  {
    assert o[0..] == o && o[..|o|] == o;
  }

  class WithTTL<K(==), V> {
    const lru: LRU<K, Stamped<V>>
    const ttl: int

    ghost predicate Valid()
      reads this, lru, lru.evictionList, lru.evictionList.Repr
    {
      lru.Valid() && lru.hasCallback && this !in lru.evictionList.Repr
    }

    ghost function Order(): seq<Entry<K, Stamped<V>>>
      reads lru, lru.evictionList
    {
      lru.Order()
    }

    /** The inner cache always gets a callback; it unwraps the value for the caller's one. */
    constructor (size: int, ttl: int)
      requires size > 0
      ensures Valid() && Order() == [] && this.ttl == ttl && lru.size == size && lru.evictions == []
      ensures fresh(lru) && fresh(lru.evictionList.Repr)
    {
      lru := new LRU(size, true);
      this.ttl := ttl;
    }

    method Add(k: K, v: V, now: int) returns (evicted: bool)
      requires Valid()
      modifies lru, lru.evictionList.Repr
      ensures Valid() && lru.size == old(lru.size) && fresh(lru.evictionList.Repr - old(lru.evictionList.Repr))
      ensures Order() == Added(old(Order()), lru.size, k, Stamped(v, now)) == After(old(Order()), lru.size, ttl, DoAdd(k, v, now))
      ensures evicted <==> !Has(old(Order()), k) && |old(Order())| + 1 > lru.size
      ensures lru.evictions == old(lru.evictions) +
                                    (if evicted then [([Entry(k, Stamped(v, now))] + old(Order()))[|old(Order())|]] else [])
    {
      evicted := lru.Add(k, Stamped(v, now));
    }

    method Get(k: K, now: int) returns (r: Option<V>)
      requires Valid()
      modifies lru, lru.evictionList.Repr
      ensures Valid() && lru.size == old(lru.size) && lru.evictionList.Repr == old(lru.evictionList.Repr)
      ensures Order() == Expiring(old(Order()), k, now, ttl) == After(old(Order()), lru.size, ttl, DoGet(k, now))
      ensures !Has(old(Order()), k) ==> Order() == old(Order())
      ensures match Lookup(old(Order()), k)
              case None => r == None
              case Some(s) => r == if now - s.lastAccessTime <= ttl then Some(s.value) else None
      ensures lru.evictions == old(lru.evictions) + ExpiredAt(old(Order()), k, now, ttl)
    {
      TouchedThenRemoved(Order(), k);
      var val := lru.Get(k);
      if val.Some? {
        if Stale(val.value, now, ttl) {
          var _ := lru.Remove(k);
        } else {
          return Some(val.value.value);
        }
      }
      return None;
    }

    method Peek(k: K) returns (r: Option<V>)
      requires Valid()
      ensures match Lookup(Order(), k) case None => r == None case Some(s) => r == Some(s.value)
    {
      var val := lru.Peek(k);
      if val.Some? {
        return Some(val.value.value);
      }
      return None;
    }

    method Remove(k: K) returns (present: bool)
      requires Valid()
      modifies lru, lru.evictionList.Repr
      ensures Valid() && lru.evictionList.Repr == old(lru.evictionList.Repr)
      ensures Order() == Without(old(Order()), k) == After(old(Order()), lru.size, ttl, DoRemove(k))
      ensures present <==> Has(old(Order()), k)
      ensures lru.evictions == old(lru.evictions) + (if present then [Entry(k, Lookup(old(Order()), k).value)] else [])
    {
      present := lru.Remove(k);
    }

    /** The keys, oldest first. */
    method Keys() returns (keys: seq<Option<K>>)
      requires Valid()
      ensures |keys| == |Order()|
      ensures forall j :: 0 <= j < |keys| ==> keys[j] == Some(Order()[|keys| - 1 - j].key)
    {
      var listed := lru.Keys();
      keys := listed[..];
    }

    /** The first critical section of the sweeper for a key. */
    method ReadForSweep(k: K) returns (val: Option<Stamped<V>>)
      requires Valid()
      modifies lru, lru.evictionList.Repr
      ensures Valid() && lru.evictionList.Repr == old(lru.evictionList.Repr) && lru.evictions == old(lru.evictions)
      ensures Order() == Touched(old(Order()), k) == After(old(Order()), lru.size, ttl, SweepRead(k))
      ensures val == Lookup(old(Order()), k)
    {
      val := lru.Get(k);
    }

    /** One key of a sweep over `o`, the keys from position n on being done. */
    method SweepKey(key: K, now: int, ghost o: seq<Entry<K, Stamped<V>>>, ghost n: nat, ghost log: seq<Entry<K, Stamped<V>>>)
      requires Valid() && Distinct(o) && 0 < n <= |o| && key == o[n - 1].key
      requires Order() == SweptTo(o, n, now, ttl) && lru.evictions == log + Expired(o, n, now, ttl)
      modifies lru, lru.evictionList.Repr
      ensures Valid() && lru.evictionList.Repr == old(lru.evictionList.Repr)
      ensures Order() == SweptTo(o, n - 1, now, ttl) && lru.evictions == log + Expired(o, n - 1, now, ttl)
    {
      hide Fresh, SweptTo, Without, Touched, Lookup, Has, Distinct;
      SweepStep(o, n - 1, now, ttl);
      TouchedThenRemoved(Order(), key);
      var val := ReadForSweep(key);
      if val.Some? && Stale(val.value, now, ttl) {
        var _ := Remove(key);
      }
    }

    /** One sweep: exactly the expired entries go and are reported, oldest first, and the survivors keep their recency order although
        each of them was moved to the front on the way. */
    method Sweep(now: int)
      requires Valid()
      modifies lru, lru.evictionList.Repr
      ensures Valid() && Order() == Fresh(old(Order()), now, ttl)
      ensures forall e <- Order() :: e in old(Order()) && now - e.value.lastAccessTime <= ttl
      ensures forall e <- old(Order()) :: now - e.value.lastAccessTime <= ttl ==> e in Order()
      ensures lru.evictions == old(lru.evictions) + Expired(old(Order()), 0, now, ttl)
    {
      hide Fresh, SweptTo, Expired, Without, Touched, Lookup, Has;
      ghost var o := Order();
      SweptEnds(o, now, ttl);
      FreshIsExactlyUnexpired(o, now, ttl);
      var keys := Keys();
      var i := 0;
      ghost var n := |o|;
      while i < |keys|
        invariant 0 <= n <= |o| && i == |keys| - n
        invariant Valid() && lru.evictionList.Repr == old(lru.evictionList.Repr)
        invariant Order() == SweptTo(o, n, now, ttl) && lru.evictions == old(lru.evictions) + Expired(o, n, now, ttl)
      {
        SweepKey(keys[i].value, now, o, n, old(lru.evictions));
        i, n := i + 1, n - 1;
      }
    }
  }

  // ---------- whole traces, the sweeper's two critical sections apart ----------

  datatype Action<K, V> =
    | DoAdd(key: K, value: V, now: int)
    | DoGet(key: K, now: int)
    | SweepRead(key: K)    // the sweeper's Get
    | DoRemove(key: K)     // Remove, and the sweeper's Remove
    | DoRemoveOldest
    | DoClear

  ghost function After<K, V>(o: seq<Entry<K, Stamped<V>>>, size: int, ttl: int, a: Action<K, V>): seq<Entry<K, Stamped<V>>> {
    match a
    case DoAdd(k, v, now) => Added(o, size, k, Stamped(v, now))
    case DoGet(k, now) => Expiring(o, k, now, ttl)
    case SweepRead(k) => Touched(o, k)
    case DoRemove(k) => Without(o, k)
    case DoRemoveOldest => OldestDropped(o)
    case DoClear => []
  }

  ghost function Trace<K, V>(o: seq<Entry<K, Stamped<V>>>, size: int, ttl: int, actions: seq<Action<K, V>>): seq<Entry<K, Stamped<V>>> {
    if actions == [] then o
    else After(Trace(o, size, ttl, actions[..|actions| - 1]), size, ttl, actions[|actions| - 1])
  }

  /** The value and time of the last Add of a key. */
  ghost function LastAdd<K, V>(actions: seq<Action<K, V>>, k: K): Option<Stamped<V>> {
    if actions == [] then None
    else
      var a := actions[|actions| - 1];
      if a.DoAdd? && a.key == k then Some(Stamped(a.value, a.now)) else LastAdd(actions[..|actions| - 1], k)
  }

  lemma AfterOnlyKeepsOrAdds<K, V>(o: seq<Entry<K, Stamped<V>>>, size: int, ttl: int, a: Action<K, V>, e: Entry<K, Stamped<V>>)
    requires e in After(o, size, ttl, a)
    ensures if a.DoAdd? && a.key == e.key then e.value == Stamped(a.value, a.now) else e in o
  {
  }

  /** What is cached is the last Add of the trace, or was there before it. */
  lemma {:induction false} CachedIsLastAddOrOld<K, V>(o: seq<Entry<K, Stamped<V>>>, size: int, ttl: int,
                                                      actions: seq<Action<K, V>>, e: Entry<K, Stamped<V>>)
    requires e in Trace(o, size, ttl, actions)
    ensures if LastAdd(actions, e.key).Some? then LastAdd(actions, e.key).value == e.value else e in o
  {
    if actions == [] {
      assert Trace(o, size, ttl, actions) == o;
    } else {
      var before := actions[..|actions| - 1];
      AfterOnlyKeepsOrAdds(Trace(o, size, ttl, before), size, ttl, actions[|actions| - 1], e);
      if e in Trace(o, size, ttl, before) {
        CachedIsLastAddOrOld(o, size, ttl, before, e);
      }
    }
  }

  /** Whatever was done to the cache, a cached entry is the last Add of its key. */
  lemma {:induction false} CachedIsLastAdd<K, V>(size: int, ttl: int, actions: seq<Action<K, V>>, e: Entry<K, Stamped<V>>)
    requires e in Trace([], size, ttl, actions)
    ensures LastAdd(actions, e.key) == Some(e.value)
  {
    CachedIsLastAddOrOld([], size, ttl, actions, e);
  }

  /** What Get returns after a trace. */
  ghost function GetAfter<K, V>(size: int, ttl: int, actions: seq<Action<K, V>>, k: K, now: int): Option<V> {
    match Lookup(Trace([], size, ttl, actions), k)
    case None => None
    case Some(s) => if Stale(s, now, ttl) then None else Some(s.value)
  }

  /** Get answers exactly a value that is cached, is the one of the last Add of its key, and was added at most the TTL
      ago. */
  lemma {:induction false} GetExactly<K, V>(size: int, ttl: int, actions: seq<Action<K, V>>, k: K, now: int, v: V)
    ensures GetAfter(size, ttl, actions, k, now) == Some(v) <==>
            && Has(Trace([], size, ttl, actions), k) && LastAdd(actions, k).Some?
            && LastAdd(actions, k).value.value == v && now - LastAdd(actions, k).value.lastAccessTime <= ttl
  {
    var found := Lookup(Trace([], size, ttl, actions), k);
    if found.Some? {
      CachedIsLastAdd(size, ttl, actions, Entry(k, found.value));
    }
  }

  /** Right after an Add, Get answers the value until the TTL is over. */
  lemma AddIsAnswered<K, V>(size: int, ttl: int, actions: seq<Action<K, V>>, k: K, v: V, t: int, now: int)
    requires size > 0
    ensures GetAfter(size, ttl, actions + [DoAdd(k, v, t)], k, now) == if now - t <= ttl then Some(v) else None
  {
    assert (actions + [DoAdd(k, v, t)])[..|actions|] == actions;
    var o := Trace([], size, ttl, actions + [DoAdd(k, v, t)]);
    assert o[0] == Entry(k, Stamped(v, t));
  }

  lemma {:induction false} TraceAppend<K, V>(o: seq<Entry<K, Stamped<V>>>, size: int, ttl: int,
                                             before: seq<Action<K, V>>, after: seq<Action<K, V>>)
    ensures Trace(o, size, ttl, before + after) == Trace(Trace(o, size, ttl, before), size, ttl, after)
  {
    if after == [] {
      assert before + after == before;
    } else {
      var init := after[..|after| - 1];
      TraceAppend(o, size, ttl, before, init);
      assert (before + after)[..|before + after| - 1] == before + init;
    }
  }

  /** The sweeper reads k, finds it stale at `now`, and removes k after other sections ran in between. What it
      removes is not stale exactly if the last Add of k among them is not. */
  lemma {:induction false} SweeperRemovesFreshExactly<K, V>(o: seq<Entry<K, Stamped<V>>>, size: int, ttl: int, k: K, now: int,
                                                            between: seq<Action<K, V>>, e: Entry<K, Stamped<V>>)
    requires forall x <- o :: x.key == k ==> Stale(x.value, now, ttl)
    requires e in Trace(o, size, ttl, between) && e.key == k
    ensures !Stale(e.value, now, ttl) <==> LastAdd(between, k).Some? && !Stale(LastAdd(between, k).value, now, ttl)
  {
    CachedIsLastAddOrOld(o, size, ttl, between, e);
  }

  /** After any history at whose end k is stale: the removal takes away a value that Get would have answered at
      `now` exactly if k is still cached and its last Add in between is not stale. */
  lemma {:induction false} SweeperLosesExactly<K, V>(size: int, ttl: int, k: K, now: int,
                                                     history: seq<Action<K, V>>, between: seq<Action<K, V>>)
    requires forall x <- Trace([], size, ttl, history) :: x.key == k ==> Stale(x.value, now, ttl)
    ensures GetAfter(size, ttl, history + between + [DoRemove(k)], k, now) == None
    ensures GetAfter(size, ttl, history + between, k, now).Some? <==>
            && Has(Trace([], size, ttl, history + between), k)
            && LastAdd(between, k).Some? && !Stale(LastAdd(between, k).value, now, ttl)
  {
    var all := history + between;
    assert (all + [DoRemove(k)])[..|all|] == all;
    TraceAppend([], size, ttl, history, between);
    var found := Lookup(Trace([], size, ttl, all), k);
    if found.Some? {
      SweeperRemovesFreshExactly(Trace([], size, ttl, history), size, ttl, k, now, between, Entry(k, found.value));
    }
  }

  /** Such a loss happens: here the sweeper's second section deletes the entry just added. */
  lemma SweeperLosesFreshAdd<K, V>(size: int, ttl: nat, k: K, v: V, w: V, t: int, now: int)
    requires size > 0 && now > t + ttl
    ensures var actions := [DoAdd(k, v, t), SweepRead(k), DoAdd(k, w, now), DoRemove(k)];
            && LastAdd(actions, k) == Some(Stamped(w, now))
            && GetAfter(size, ttl, actions, k, now) == None
  {
    var actions := [DoAdd(k, v, t), SweepRead(k), DoAdd(k, w, now), DoRemove(k)];
    assert actions[..3] == [DoAdd(k, v, t), SweepRead(k), DoAdd(k, w, now)];
    assert !Has(Trace([], size, ttl, actions), k);
  }
}
