/** The plain ordered sequence an LRU cache stands for: its entries, most recently used first.
    The cache of Lru.dfy is proved to follow these functions; here one trace is compared across cache sizes. */
module RecencyOrder {

  import opened Options

  datatype Entry<+K, +V> = Entry(key: K, value: V)

  ghost predicate Has<K, V>(o: seq<Entry<K, V>>, k: K) {
    exists i :: 0 <= i < |o| && o[i].key == k
  }

  ghost predicate Distinct<K, V>(o: seq<Entry<K, V>>) {
    forall i, j :: 0 <= i < j < |o| ==> o[i].key != o[j].key
  }

  ghost function Without<K, V>(o: seq<Entry<K, V>>, k: K): (r: seq<Entry<K, V>>)
    ensures !Has(r, k)
    ensures forall e <- r :: e in o
    ensures !Has(o, k) ==> r == o
  {
    if o == [] then [] else if o[0].key == k then Without(o[1..], k) else [o[0]] + Without(o[1..], k)
  }

  ghost function Lookup<K, V>(o: seq<Entry<K, V>>, k: K): (r: Option<V>)
    ensures r.Some? <==> Has(o, k)
    ensures r.Some? ==> Entry(k, r.value) in o
  {
    if o == [] then None else if o[0].key == k then Some(o[0].value) else Lookup(o[1..], k)
  }

  /** Adding at the front; a new key that makes the order longer than `size` pushes the oldest entry out. */
  ghost function Added<K, V>(o: seq<Entry<K, V>>, size: int, k: K, v: V): seq<Entry<K, V>> {
    if Has(o, k) then [Entry(k, v)] + Without(o, k)
    else if |o| + 1 > size then ([Entry(k, v)] + o)[..|o|]
    else [Entry(k, v)] + o
  }

  ghost function Touched<K, V>(o: seq<Entry<K, V>>, k: K): seq<Entry<K, V>> {
    match Lookup(o, k)
    case None => o
    case Some(v) => [Entry(k, v)] + Without(o, k)
  }

  ghost function OldestDropped<K, V>(o: seq<Entry<K, V>>): seq<Entry<K, V>> {
    if o == [] then [] else o[..|o| - 1]
  }

  datatype Op<K, V> =
    | Add(key: K, value: V) | Get(key: K) | Peek(key: K) | Contains(key: K)
    | Remove(key: K) | RemoveOldest | Clear

  ghost function Step<K, V>(o: seq<Entry<K, V>>, size: int, op: Op<K, V>): seq<Entry<K, V>> {
    match op
    case Add(k, v) => Added(o, size, k, v)
    case Get(k) => Touched(o, k)
    case Peek(_) => o
    case Contains(_) => o
    case Remove(k) => Without(o, k)
    case RemoveOldest => OldestDropped(o)
    case Clear => []
  }

  /** The order after a whole trace on a fresh cache. */
  ghost function Run<K, V>(size: int, ops: seq<Op<K, V>>): seq<Entry<K, V>> {
    if ops == [] then [] else Step(Run(size, ops[..|ops| - 1]), size, ops[|ops| - 1])
  }

  /** `a` keeps some of the entries of `b`, in the same order. */
  ghost predicate Sub<K, V>(a: seq<Entry<K, V>>, b: seq<Entry<K, V>>) {
    a == [] || (b != [] && ((a[0] == b[0] && Sub(a[1..], b[1..])) || Sub(a, b[1..])))
  }

  // ---------- one order: what every step keeps ----------

  lemma {:induction false} WithoutKeepsDistinct<K, V>(o: seq<Entry<K, V>>, k: K)
    requires Distinct(o)
    ensures Distinct(Without(o, k))
    ensures |Without(o, k)| == if Has(o, k) then |o| - 1 else |o|
  {
    if o != [] {
      var rest := o[1..];
      WithoutKeepsDistinct(rest, k);
      assert forall i :: 0 <= i < |rest| ==> rest[i] == o[i + 1];
      if o[0].key == k {
        assert !Has(rest, k);
      } else {
        if Has(o, k) {
          var i :| 0 <= i < |o| && o[i].key == k;
          assert rest[i - 1].key == k;
        }
        var w := Without(rest, k);
        forall i | 0 <= i < |w| ensures w[i].key != o[0].key {
          assert w[i] in rest;
        }
      }
    }
  }

  lemma {:induction false} WithoutAt<K, V>(o: seq<Entry<K, V>>, i: nat)
    requires Distinct(o) && i < |o|
    ensures Without(o, o[i].key) == o[..i] + o[i + 1..]
    ensures Lookup(o, o[i].key) == Some(o[i].value)
  {
    if i == 0 {
      assert !Has(o[1..], o[0].key);
    } else {
      WithoutAt(o[1..], i - 1);
      assert o[1..][..i - 1] == o[1..i] && o[1..][i..] == o[i + 1..];
    }
  }

  lemma StepKeepsShape<K, V>(o: seq<Entry<K, V>>, size: nat, op: Op<K, V>)
    requires Distinct(o) && |o| <= size
    ensures Distinct(Step(o, size, op)) && |Step(o, size, op)| <= size
  {
    match op
    case Add(k, v) => WithoutKeepsDistinct(o, k);
    case Get(k) => WithoutKeepsDistinct(o, k);
    case Remove(k) => WithoutKeepsDistinct(o, k);
    case _ =>
  }

  // ---------- two orders: subsequences ----------

  lemma {:induction false} SubHas<K, V>(a: seq<Entry<K, V>>, b: seq<Entry<K, V>>)
    requires Sub(a, b)
    ensures |a| <= |b|
    ensures forall i :: 0 <= i < |a| ==> a[i] in b
    ensures forall k :: Has(a, k) ==> Has(b, k)
  {
    if a != [] {
      if a[0] == b[0] && Sub(a[1..], b[1..]) {
        SubHas(a[1..], b[1..]);
        forall i | 0 <= i < |a| ensures a[i] in b {
          assert i > 0 ==> a[i] == a[1..][i - 1];
        }
      } else {
        SubHas(a, b[1..]);
      }
    }
  }

  lemma {:induction false} SubWithout<K, V>(a: seq<Entry<K, V>>, b: seq<Entry<K, V>>, k: K)
    requires Sub(a, b)
    ensures Sub(Without(a, k), Without(b, k))
  {
    if a != [] {
      if a[0] == b[0] && Sub(a[1..], b[1..]) {
        SubWithout(a[1..], b[1..], k);
      } else {
        SubWithout(a, b[1..], k);
      }
    }
  }

  lemma OldestOfRest<K, V>(o: seq<Entry<K, V>>)
    requires |o| > 1
    ensures OldestDropped(o)[1..] == OldestDropped(o[1..]) && OldestDropped(o)[0] == o[0]
  {
  }

  lemma {:induction false} SubOldestDropped<K, V>(a: seq<Entry<K, V>>, b: seq<Entry<K, V>>)
    requires Sub(a, b)
    ensures Sub(OldestDropped(a), OldestDropped(b))
  {
    if |a| > 1 {
      SubHas(a, b);
      OldestOfRest(a);
      OldestOfRest(b);
      if a[0] == b[0] && Sub(a[1..], b[1..]) {
        SubOldestDropped(a[1..], b[1..]);
      } else {
        SubHas(a, b[1..]);
        SubOldestDropped(a, b[1..]);
      }
    }
  }

  lemma {:induction false} SubOldestDroppedLeft<K, V>(a: seq<Entry<K, V>>, b: seq<Entry<K, V>>)
    requires Sub(a, b)
    ensures Sub(OldestDropped(a), b)
  {
    if |a| > 1 {
      if a[0] == b[0] && Sub(a[1..], b[1..]) {
        SubOldestDroppedLeft(a[1..], b[1..]);
        assert OldestDropped(a)[1..] == OldestDropped(a[1..]);
      } else {
        SubOldestDroppedLeft(a, b[1..]);
      }
    }
  }

  lemma SubKeepsValue<K, V>(a: seq<Entry<K, V>>, b: seq<Entry<K, V>>, k: K)
    requires Sub(a, b) && Distinct(b) && Has(a, k)
    ensures Lookup(b, k) == Lookup(a, k)
  {
    SubHas(a, b);
    var e := Entry(k, Lookup(a, k).value);
    assert e in a;
    var i :| 0 <= i < |b| && b[i] == e;
    WithoutAt(b, i);
  }

  /** What a trace keeps between a small and a big cache: besides the subsequence, the small cache
      never has more free room than the big one. */
  ghost predicate Included<K, V>(small: seq<Entry<K, V>>, s: nat, big: seq<Entry<K, V>>, b: nat) {
    && Distinct(small) && |small| <= s
    && Distinct(big) && |big| <= b
    && Sub(small, big)
    && s - |small| <= b - |big|
  }

  lemma AddKeepsIncluded<K, V>(small: seq<Entry<K, V>>, s: nat, big: seq<Entry<K, V>>, b: nat, k: K, v: V)
    requires s <= b && Included(small, s, big, b)
    ensures Included(Added(small, s, k, v), s, Added(big, b, k, v), b)
  {
    StepKeepsShape(small, s, Add(k, v));
    StepKeepsShape(big, b, Add(k, v));
    SubWithout(small, big, k);
    WithoutKeepsDistinct(small, k);
    WithoutKeepsDistinct(big, k);
    SubHas(small, big);
    var e := Entry(k, v);
    assert Sub([e] + Without(small, k), [e] + Without(big, k));
    assert ([e] + small)[..|small|] == OldestDropped([e] + small);
    assert ([e] + big)[..|big|] == OldestDropped([e] + big);
    if !Has(small, k) && |small| + 1 > s {
      SubOldestDroppedLeft([e] + small, [e] + Without(big, k));
    }
    if !Has(big, k) && |big| + 1 > b {
      SubOldestDropped([e] + small, [e] + big);
    }
  }

  lemma StepKeepsIncluded<K, V>(small: seq<Entry<K, V>>, s: nat, big: seq<Entry<K, V>>, b: nat, op: Op<K, V>)
    requires s <= b && Included(small, s, big, b)
    ensures Included(Step(small, s, op), s, Step(big, b, op), b)
  {
    StepKeepsShape(small, s, op);
    StepKeepsShape(big, b, op);
    SubHas(small, big);
    match op
    case Add(k, v) => AddKeepsIncluded(small, s, big, b, k, v);
    case Get(k) => GetKeepsIncluded(small, s, big, b, k);
    case Remove(k) =>
      SubWithout(small, big, k);
      WithoutKeepsDistinct(small, k);
      WithoutKeepsDistinct(big, k);
    case RemoveOldest => SubOldestDropped(small, big);
    case _ =>
  }

  lemma GetKeepsIncluded<K, V>(small: seq<Entry<K, V>>, s: nat, big: seq<Entry<K, V>>, b: nat, k: K)
    requires Included(small, s, big, b)
    ensures Included(Touched(small, k), s, Touched(big, k), b)
  {
    StepKeepsShape(small, s, Op<K, V>.Get(k));
    StepKeepsShape(big, b, Op<K, V>.Get(k));
    SubWithout(small, big, k);
    WithoutKeepsDistinct(small, k);
    WithoutKeepsDistinct(big, k);
    SubHas(small, big);
    if Has(small, k) {
      SubKeepsValue(small, big, k);
    }
  }

  /** LRU inclusion: after any trace the small cache holds a subsequence of the big one, so every hit
      of the small cache is a hit of the big one, with the same value. */
  lemma {:induction false} Inclusion<K, V>(s: nat, b: nat, ops: seq<Op<K, V>>)
    requires s <= b
    ensures Included(Run(s, ops), s, Run(b, ops), b)
    ensures forall k :: Has(Run(s, ops), k) ==> Lookup(Run(b, ops), k) == Lookup(Run(s, ops), k)
  {
    if ops != [] {
      Inclusion(s, b, ops[..|ops| - 1]);
      StepKeepsIncluded(Run(s, ops[..|ops| - 1]), s, Run(b, ops[..|ops| - 1]), b, ops[|ops| - 1]);
    }
    forall k | Has(Run(s, ops), k) ensures Lookup(Run(b, ops), k) == Lookup(Run(s, ops), k) {
      SubKeepsValue(Run(s, ops), Run(b, ops), k);
    }
  }

  // ---------- what the order means ----------

  predicate UsesKey<K(==), V>(op: Op<K, V>, k: K) {
    (op.Add? || op.Get?) && op.key == k
  }

  /** When a key was added or got last, counted from 1. */
  function LastUse<K(==), V>(ops: seq<Op<K, V>>, k: K): nat {
    if ops == [] then 0
    else if UsesKey(ops[|ops| - 1], k) then |ops|
    else LastUse(ops[..|ops| - 1], k)
  }

  function LastAdded<K(==), V>(ops: seq<Op<K, V>>, k: K): Option<V> {
    if ops == [] then None
    else
      var op := ops[|ops| - 1];
      if op.Add? && op.key == k then Some(op.value) else LastAdded(ops[..|ops| - 1], k)
  }

  /** The entries stand in the order of their last uses, and have the values that were added last. */
  ghost predicate ByUse<K, V>(o: seq<Entry<K, V>>, ops: seq<Op<K, V>>) {
    && (forall i, j :: 0 <= i < j < |o| ==> LastUse(ops, o[i].key) > LastUse(ops, o[j].key))
    && (forall i :: 0 <= i < |o| ==> LastAdded(ops, o[i].key) == Some(o[i].value))
  }

  lemma {:induction false} UseIsPast<K, V>(ops: seq<Op<K, V>>, k: K)
    ensures LastUse(ops, k) <= |ops|
  {
    if ops == [] {
      assert LastUse(ops, k) == 0;
    } else {
      UseIsPast(ops[..|ops| - 1], k);
    }
  }

  /** Putting an entry to the front of others, where only its key was used. */
  lemma UsedToFront<K, V>(w: seq<Entry<K, V>>, e: Entry<K, V>, ops: seq<Op<K, V>>, op: Op<K, V>)
    requires ByUse(w, ops) && !Has(w, e.key) && UsesKey(op, e.key)
    requires op.Add? ==> op.value == e.value
    requires op.Get? ==> LastAdded(ops, e.key) == Some(e.value)
    ensures ByUse([e] + w, ops + [op])
  {
    var more := ops + [op];
    assert more[..|ops|] == ops;
    forall j | 0 <= j < |w|
      ensures LastUse(more, w[j].key) == LastUse(ops, w[j].key) < LastUse(more, e.key)
      ensures LastAdded(more, w[j].key) == Some(w[j].value)
    {
      assert w[j].key != e.key;
      UseIsPast(ops, w[j].key);
    }
    var o := [e] + w;
    assert forall i :: 0 < i < |o| ==> o[i] == w[i - 1];
  }

  /** An order whose keys were not used, or a beginning of it. */
  lemma UnusedStays<K, V>(o: seq<Entry<K, V>>, n: nat, ops: seq<Op<K, V>>, op: Op<K, V>)
    requires ByUse(o, ops) && n <= |o| && forall i :: 0 <= i < n ==> !UsesKey(op, o[i].key)
    ensures ByUse(o[..n], ops + [op])
  {
    assert (ops + [op])[..|ops|] == ops;
  }

  lemma WithoutByUse<K, V>(o: seq<Entry<K, V>>, k: K, ops: seq<Op<K, V>>)
    requires Distinct(o) && ByUse(o, ops)
    ensures ByUse(Without(o, k), ops)
  {
    hide Without, LastUse, LastAdded;
    if Has(o, k) {
      var i :| 0 <= i < |o| && o[i].key == k;
      WithoutAt(o, i);
      var w := o[..i] + o[i + 1..];
      assert forall j :: 0 <= j < |w| ==> w[j] == o[if j < i then j else j + 1];
    }
  }

  lemma GetByUse<K, V>(o: seq<Entry<K, V>>, ops: seq<Op<K, V>>, k: K)
    requires Distinct(o) && ByUse(o, ops)
    ensures ByUse(Touched(o, k), ops + [Op<K, V>.Get(k)])
  {
    hide Without, LastUse;
    if Has(o, k) {
      var i :| 0 <= i < |o| && o[i].key == k;
      WithoutAt(o, i);
      WithoutByUse(o, k, ops);
      UsedToFront(Without(o, k), o[i], ops, Op<K, V>.Get(k));
    } else {
      UnusedStays(o, |o|, ops, Op<K, V>.Get(k));
      assert o[..|o|] == o;
    }
  }

  lemma AddByUse<K, V>(o: seq<Entry<K, V>>, size: nat, ops: seq<Op<K, V>>, k: K, v: V)
    requires Distinct(o) && ByUse(o, ops)
    ensures ByUse(Added(o, size, k, v), ops + [Op.Add(k, v)])
  {
    hide Without, LastUse, LastAdded;
    WithoutByUse(o, k, ops);
    UsedToFront(Without(o, k), Entry(k, v), ops, Op.Add(k, v));
  }

  lemma StepByUse<K, V>(o: seq<Entry<K, V>>, size: nat, ops: seq<Op<K, V>>, op: Op<K, V>)
    requires Distinct(o) && ByUse(o, ops)
    ensures ByUse(Step(o, size, op), ops + [op])
  {
    hide Without, LastUse, LastAdded, ByUse, Added, Touched;
    assert o[..|o|] == o;
    match op
    case Add(k, v) => AddByUse(o, size, ops, k, v);
    case Get(k) => GetByUse(o, ops, k);
    case Remove(k) =>
      WithoutByUse(o, k, ops);
      UnusedStays(Without(o, k), |Without(o, k)|, ops, op);
      assert Without(o, k)[..|Without(o, k)|] == Without(o, k);
    case RemoveOldest => UnusedStays(o, |OldestDropped(o)|, ops, op);
    case Clear =>
      UnusedStays(o, 0, ops, op);
      assert o[..0] == [];
    case _ => UnusedStays(o, |o|, ops, op);
  }

  /** After any trace the entries stand in the order of their last uses, the most recent first, so that what is dropped is what
      was not used for longest; and each has the value that was added last under its key. */
  lemma {:induction false} OrderedByUse<K, V>(size: nat, ops: seq<Op<K, V>>)
    ensures Distinct(Run(size, ops)) && |Run(size, ops)| <= size
    ensures forall i, j :: 0 <= i < j < |Run(size, ops)| ==>
                             LastUse(ops, Run(size, ops)[i].key) > LastUse(ops, Run(size, ops)[j].key)
    ensures forall i :: 0 <= i < |Run(size, ops)| ==> LastAdded(ops, Run(size, ops)[i].key) == Some(Run(size, ops)[i].value)
  {
    if ops == [] {
      assert Run(size, ops) == [];
    } else {
      var init, op := ops[..|ops| - 1], ops[|ops| - 1];
      OrderedByUse(size, init);
      StepKeepsShape(Run(size, init), size, op);
      StepByUse(Run(size, init), size, init, op);
      assert init + [op] == ops;
    }
  }

  /** With room for one, what was just added stands in front. */
  lemma AddedIsInFront<K, V>(size: nat, ops: seq<Op<K, V>>, k: K, v: V)
    requires size > 0
    ensures var o := Run(size, ops + [Op.Add(k, v)]); o != [] && o[0] == Entry(k, v)
  {
    assert (ops + [Op.Add(k, v)])[..|ops|] == ops;
  }
}
