/** Cursors over the sorted keys of a bucket, and scans with skip and limit. */
module Cursors {
  import opened Options
  import opened ByteStrings

  function KeyAt(keys: seq<Bytes>, i: int): Option<Bytes> {
    if 0 <= i < |keys| then Some(keys[i]) else None
  }

  /** The index of the first key that is not below `seek`. */
  function SeekIndex(keys: seq<Bytes>, seek: Bytes): (i: nat)
    ensures i <= |keys|
    ensures forall j :: 0 <= j < i ==> Less(keys[j], seek)
    ensures i < |keys| ==> !Less(keys[i], seek)
  {
    if keys == [] || !Less(keys[0], seek) then 0 else 1 + SeekIndex(keys[1..], seek)
  }

  lemma SeekIndexIs(keys: seq<Bytes>, seek: Bytes, i: nat)
    requires i <= |keys| && (forall j :: 0 <= j < i ==> Less(keys[j], seek)) && (i < |keys| ==> !Less(keys[i], seek))
    ensures SeekIndex(keys, seek) == i
  {
  }

  /** A bolt cursor: a position in the sorted key sequence. Next at the end answers nothing and stays on the
      last key; Seek past the end answers nothing and stands behind it; Prev at the start gives the position up. */
  class Cursor {
    const keys: seq<Bytes>
    var pos: int

    constructor (bucketKeys: set<Bytes>)
      ensures keys == SortedKeys(bucketKeys)
    {
      keys := SortedKeys(bucketKeys);
      pos := -1;
    }

    function Key(): Option<Bytes>
      reads this
    {
      KeyAt(keys, pos)
    }

    method First() returns (k: Option<Bytes>)
      modifies this
      ensures pos == 0 && k == Key()
    {
      pos := 0;
      k := Key();
    }

    method Last() returns (k: Option<Bytes>)
      modifies this
      ensures pos == |keys| - 1 && k == Key()
    {
      pos := |keys| - 1;
      k := Key();
    }

    method Next() returns (k: Option<Bytes>)
      modifies this
      ensures if 0 <= old(pos) < |keys| - 1 then pos == old(pos) + 1 && k == Key() else pos == old(pos) && k == None
    {
      if 0 <= pos < |keys| - 1 {
        pos := pos + 1;
        k := Key();
      } else {
        k := None;
      }
    }

    method Prev() returns (k: Option<Bytes>)
      modifies this
      ensures if old(pos) > 0 then pos == old(pos) - 1 && k == Key() else pos == -1 && k == None
    {
      if pos > 0 {
        pos := pos - 1;
        k := Key();
      } else {
        pos := -1;
        k := None;
      }
    }

    method Seek(seek: Bytes) returns (k: Option<Bytes>)
      modifies this
      ensures pos == SeekIndex(keys, seek) && k == Key()
    {
      pos := 0;
      while pos < |keys| && Less(keys[pos], seek)
        invariant 0 <= pos <= |keys|
        invariant forall i :: 0 <= i < pos ==> Less(keys[i], seek)
      {
        pos := pos + 1;
      }
      SeekIndexIs(keys, seek, pos);
      k := Key();
    }
  }

  // ---------- cursors that can be scanned ----------

  /** What the scans range over: everything, the keys of [min, max], or the keys with a prefix. */
  datatype Kind = All | Range(min: Bytes, max: Bytes) | Prefixed(prefix: Bytes)

  predicate Continues(kind: Kind, reverse: bool, k: Bytes) {
    match kind
    case All => true
    case Range(min, max) => if reverse then AtMost(min, k) else AtMost(k, max)
    case Prefixed(prefix) => prefix <= k
  }

  /** The first index from i on whose key lacks the prefix. */
  function EndOfPrefix(keys: seq<Bytes>, prefix: Bytes, i: nat): (e: nat)
    requires i <= |keys|
    ensures i <= e <= |keys|
    ensures forall j :: i <= j < e ==> prefix <= keys[j]
    ensures e < |keys| ==> !(prefix <= keys[e])
    decreases |keys| - i
  {
    if i == |keys| || !(prefix <= keys[i]) then i else EndOfPrefix(keys, prefix, i + 1)
  }

  /** Where a cursor starts; outside the keys if it answers nothing. */
  function FirstIndex(keys: seq<Bytes>, kind: Kind, reverse: bool): int {
    match kind
    case All => if reverse then |keys| - 1 else 0
    case Range(min, max) =>
      if !reverse then SeekIndex(keys, min)
      else
        var i := SeekIndex(keys, max);
        if i < |keys| && !(max <= keys[i]) then i - 1 else i
    case Prefixed(prefix) =>
      var i := SeekIndex(keys, prefix);
      if i == |keys| || !reverse then i else EndOfPrefix(keys, prefix, i) - 1
  }

  /** ReversibleCursor, RangeCursor and PrefixCursor, by kind. */
  class ScanCursor {
    const c: Cursor
    const kind: Kind
    const reverse: bool

    constructor (c: Cursor, kind: Kind, reverse: bool)
      ensures this.c == c && this.kind == kind && this.reverse == reverse
    {
      this.c, this.kind, this.reverse := c, kind, reverse;
    }

    method First() returns (k: Option<Bytes>)
      modifies c
      ensures k == c.Key() || (k == None && kind.Prefixed?)
      ensures k == KeyAt(c.keys, FirstIndex(c.keys, kind, reverse))
      ensures k.Some? ==> c.pos == FirstIndex(c.keys, kind, reverse)
    {
      match kind {
        case All =>
          if reverse {
            k := c.Last();
          } else {
            k := c.First();
          }
        case Range(min, max) =>
          if !reverse {
            k := c.Seek(min);
          } else {
            k := c.Seek(max);
            if k.Some? && !(max <= k.value) {
              k := c.Prev();
            }
          }
        case Prefixed(prefix) =>
          k := c.Seek(prefix);
          if k.None? {
            return None;
          }
          if reverse {
            k := LastMatch(prefix, k);
          }
      }
    }

    /** Runs over the keys with the prefix and ends on the last one, or before the first. */
    method LastMatch(prefix: Bytes, seeked: Option<Bytes>) returns (k: Option<Bytes>)
      requires c.pos == SeekIndex(c.keys, prefix) < |c.keys| && seeked == c.Key()
      modifies c
      ensures var i := EndOfPrefix(c.keys, prefix, SeekIndex(c.keys, prefix)) - 1;
              k == KeyAt(c.keys, i) && (k.Some? ==> c.pos == i)
    {
      k := seeked;
      var kc := seeked;
      ghost var from := c.pos;
      ghost var i := c.pos;
      while kc.Some? && prefix <= kc.value
        invariant from <= i <= |c.keys| && EndOfPrefix(c.keys, prefix, from) == EndOfPrefix(c.keys, prefix, i)
        invariant if i < |c.keys| then c.pos == i && kc == c.Key() else c.pos == |c.keys| - 1 && kc == None
        invariant i > from ==> k == Some(c.keys[i - 1])
        decreases |c.keys| - i
      {
        k := kc;
        kc := c.Next();
        i := i + 1;
      }
      if kc.Some? {
        k := c.Prev();
      }
    }

    predicate CanContinue(k: Bytes) {
      Continues(kind, reverse, k)
    }

    method Next() returns (k: Option<Bytes>)
      modifies c
      ensures !reverse && 0 <= old(c.pos) < |c.keys| ==> k == KeyAt(c.keys, old(c.pos) + 1) && (k.Some? ==> c.pos == old(c.pos) + 1)
      ensures reverse && 0 <= old(c.pos) < |c.keys| ==> k == KeyAt(c.keys, old(c.pos) - 1) && (k.Some? ==> c.pos == old(c.pos) - 1)
    {
      if reverse {
        k := c.Prev();
      } else {
        k := c.Next();
      }
    }
  }

  // ---------- scans ----------

  class CursorOptions {
    var limit: int
    var skip: int
    var reverse: bool

    constructor (limit: int, skip: int, reverse: bool)
      ensures this.limit == limit && this.skip == skip && this.reverse == reverse
    {
      this.limit, this.skip, this.reverse := limit, skip, reverse;
    }
  }

  /** The keys a cursor visits from index i on. */
  function Walk(keys: seq<Bytes>, kind: Kind, reverse: bool, i: int): (w: seq<Bytes>)
    ensures forall k <- w :: k in keys
    decreases if reverse then i + 1 else |keys| - i
  {
    if !(0 <= i < |keys|) || !Continues(kind, reverse, keys[i]) then []
    else [keys[i]] + Walk(keys, kind, reverse, if reverse then i - 1 else i + 1)
  }

  function Visited(keys: seq<Bytes>, kind: Kind, reverse: bool): seq<Bytes> {
    Walk(keys, kind, reverse, FirstIndex(keys, kind, reverse))
  }

  /** Dropping `skip` elements and taking `limit` of the rest; a negative limit takes all. */
  function Page<T>(s: seq<T>, skip: int, limit: int): seq<T> {
    var rest := if skip <= 0 then s else if skip < |s| then s[skip..] else [];
    if 0 <= limit < |rest| then rest[..limit] else rest
  }

  function IdsOf(rows: map<Bytes, Bytes>, ks: seq<Bytes>): (r: seq<Bytes>)
    requires forall k <- ks :: k in rows
    ensures |r| == |ks|
  {
    seq(|ks|, i requires 0 <= i < |ks| => rows[ks[i]])
  }

  /** What the next element adds to the answer. */
  lemma PageOfCons<T>(x: T, s: seq<T>, skip: int, limit: int)
    ensures Page([x] + s, skip, limit) ==
            if skip > 0 then Page(s, skip - 1, limit)
            else if limit == 0 then []
            else [x] + Page(s, skip, if limit > 0 then limit - 1 else limit)
  {
    assert skip > 0 && skip < |s| + 1 ==> ([x] + s)[skip..] == s[skip - 1..];
    assert 0 < limit < |s| + 1 ==> ([x] + s)[..limit] == [x] + s[..limit - 1];
  }

  datatype Decision = SkipIt | StopHere | TakeIt

  /** What the options say about the next element, and what is left of them. */
  ghost function DecisionOf(skip: int, limit: int): Decision {
    if skip > 0 then SkipIt else if limit == 0 then StopHere else TakeIt
  }

  method Decide(ops: CursorOptions) returns (decision: Decision)
    modifies ops`skip, ops`limit
    ensures decision == DecisionOf(old(ops.skip), old(ops.limit))
    ensures ops.skip == if decision.SkipIt? then old(ops.skip) - 1 else old(ops.skip)
    ensures ops.limit == if decision.TakeIt? && old(ops.limit) > 0 then old(ops.limit) - 1 else old(ops.limit)
  {
    if ops.skip > 0 {
      ops.skip := ops.skip - 1;
      return SkipIt;
    }
    if ops.limit == 0 {
      return StopHere;
    }
    if ops.limit > 0 {
      ops.limit := ops.limit - 1;
    }
    return TakeIt;
  }

  /** What is still to be answered when the options stand at `skip` and `limit`; without options, everything. */
  ghost function Answer<T>(s: seq<T>, ops: CursorOptions?): seq<T>
    reads ops
  {
    if ops == null then s else Page(s, ops.skip, ops.limit)
  }

  /** What the options say about the next id, in front of the rest; without options every id is taken. */
  method DecideFor(id: Bytes, ghost rest: seq<Bytes>, ops: CursorOptions?) returns (decision: Decision)
    modifies ops
    ensures old(Answer([id] + rest, ops)) ==
            if decision.StopHere? then [] else (if decision.TakeIt? then [id] else []) + Answer(rest, ops)
    ensures ops != null ==> ops.limit == if decision.TakeIt? && old(ops.limit) > 0 then old(ops.limit) - 1 else old(ops.limit)
    ensures ops != null && decision.TakeIt? ==> old(ops.limit) != 0
  {
    decision := TakeIt;
    if ops != null {
      PageOfCons(id, rest, ops.skip, ops.limit);
      decision := Decide(ops);
    }
  }

  lemma IdsOfWalk(rows: map<Bytes, Bytes>, keys: seq<Bytes>, kind: Kind, reverse: bool, i: int)
    requires forall k <- keys :: k in rows
    requires 0 <= i < |keys| && Continues(kind, reverse, keys[i])
    ensures IdsOf(rows, Walk(keys, kind, reverse, i))
            == [rows[keys[i]]] + IdsOf(rows, Walk(keys, kind, reverse, if reverse then i - 1 else i + 1))
  {
  }

  /** scanCursor: the ids under the keys the cursor visits, skipped and limited. The options are used up on the way. */
  method ScanIds(c: ScanCursor, ops: CursorOptions?, rows: map<Bytes, Bytes>) returns (results: seq<Bytes>)
    requires forall k <- c.c.keys :: k in rows
    modifies c.c, ops
    ensures results == old(Answer(IdsOf(rows, Visited(c.c.keys, c.kind, c.reverse)), ops))
    ensures ops != null ==> ops.limit == if old(ops.limit) > 0 then old(ops.limit) - |results| else old(ops.limit)
  {
    hide Page, IdsOf, FirstIndex, Continues, Answer, Walk;
    results := [];
    var keys := c.c.keys;
    ghost var i := FirstIndex(keys, c.kind, c.reverse);
    ghost var all := old(Answer(IdsOf(rows, Visited(keys, c.kind, c.reverse)), ops));
    var k := c.First();
    while k.Some? && c.CanContinue(k.value)
      invariant k == KeyAt(keys, i) && (k.Some? ==> c.c.pos == i)
      invariant all == results + Answer(IdsOf(rows, Walk(keys, c.kind, c.reverse, i)), ops)
      invariant ops != null ==> ops.limit == if old(ops.limit) > 0 then old(ops.limit) - |results| else old(ops.limit)
      invariant ops != null && old(ops.limit) > 0 ==> |results| <= old(ops.limit)
      decreases if c.reverse then i + 1 else |keys| - i
    {
      var id := rows[k.value];
      IdsOfWalk(rows, keys, c.kind, c.reverse, i);
      i := if c.reverse then i - 1 else i + 1;
      var decision := DecideFor(id, IdsOf(rows, Walk(keys, c.kind, c.reverse, i)), ops);
      if decision.StopHere? {
        return;
      }
      if decision.TakeIt? {
        results := results + [id];
      }
      k := c.Next();
    }
    WalkEnds(keys, c.kind, c.reverse, i);
    EmptyPage(rows, ops);
  }

  lemma WalkEnds(keys: seq<Bytes>, kind: Kind, reverse: bool, i: int)
    requires !(KeyAt(keys, i).Some? && Continues(kind, reverse, keys[i]))
    ensures Walk(keys, kind, reverse, i) == []
  {
  }

  lemma EmptyPage(rows: map<Bytes, Bytes>, ops: CursorOptions?)
    ensures Answer(IdsOf(rows, []), ops) == []
  {
  }

  // ---------- which keys a scan visits ----------

  function Filter<T>(s: seq<T>, p: T -> bool): seq<T> {
    if s == [] then [] else (if p(s[0]) then [s[0]] else []) + Filter(s[1..], p)
  }

  function Reversed<T>(s: seq<T>): (r: seq<T>)
    ensures |r| == |s| && forall i :: 0 <= i < |s| ==> r[i] == s[|s| - 1 - i]
  {
    seq(|s|, i requires 0 <= i < |s| => s[|s| - 1 - i])
  }

  lemma {:induction false} FilterIsSlice<T>(s: seq<T>, p: T -> bool, lo: nat, hi: nat)
    requires lo <= hi <= |s| && forall i :: 0 <= i < |s| ==> (p(s[i]) <==> lo <= i < hi)
    ensures Filter(s, p) == s[lo..hi]
  {
    if s == [] {
      assert s[lo..hi] == [];
    } else {
      var t := s[1..];
      assert forall i :: 0 <= i < |t| ==> t[i] == s[i + 1];
      if lo > 0 {
        FilterIsSlice(t, p, lo - 1, hi - 1);
        assert t[lo - 1..hi - 1] == s[lo..hi];
      } else if hi > 0 {
        FilterIsSlice(t, p, 0, hi - 1);
        assert [s[0]] + t[0..hi - 1] == s[0..hi];
      } else {
        FilterIsSlice(t, p, 0, 0);
        assert t[0..0] == s[0..0];
      }
    }
  }

  lemma {:induction false} WalkForward(keys: seq<Bytes>, kind: Kind, lo: nat, hi: nat)
    requires lo <= hi <= |keys|
    requires forall i :: lo <= i < hi ==> Continues(kind, false, keys[i])
    requires hi < |keys| ==> !Continues(kind, false, keys[hi])
    ensures Walk(keys, kind, false, lo) == keys[lo..hi]
    decreases hi - lo
  {
    if lo == hi {
      assert keys[lo..hi] == [];
    } else {
      WalkForward(keys, kind, lo + 1, hi);
    }
  }

  lemma {:induction false} WalkBackward(keys: seq<Bytes>, kind: Kind, lo: nat, hi: nat)
    requires lo <= hi <= |keys|
    requires forall i :: lo <= i < hi ==> Continues(kind, true, keys[i])
    requires lo > 0 ==> !Continues(kind, true, keys[lo - 1])
    ensures Walk(keys, kind, true, hi - 1) == Reversed(keys[lo..hi])
    decreases hi - lo
  {
    if lo == hi {
      assert keys[lo..hi] == [];
    } else {
      WalkBackward(keys, kind, lo, hi - 1);
      assert Reversed(keys[lo..hi]) == [keys[hi - 1]] + Reversed(keys[lo..hi - 1]);
    }
  }

  function InRange(min: Bytes, max: Bytes): Bytes -> bool {
    k => AtMost(min, k) && AtMost(k, max)
  }

  function HasPrefix(prefix: Bytes): Bytes -> bool {
    k => prefix <= k
  }

  lemma AtMostChain(a: Bytes, b: Bytes, c: Bytes)
    ensures AtMost(a, b) && Less(b, c) ==> Less(a, c)
    ensures Less(a, b) && AtMost(b, c) ==> Less(a, c)
    ensures AtMost(a, b) <==> !Less(b, a)
  {
    LessTotal(a, b);
    if Less(a, b) && Less(b, c) {
      LessTransitive(a, b, c);
    }
  }

  /** Below the sought index keys are smaller, from it on they are not. */
  lemma SeekSplits(keys: seq<Bytes>, seek: Bytes, i: nat)
    requires Sorted(keys) && i < |keys|
    ensures Less(keys[i], seek) <==> i < SeekIndex(keys, seek)
    ensures AtMost(seek, keys[i]) <==> i >= SeekIndex(keys, seek)
  {
    var at := SeekIndex(keys, seek);
    AtMostChain(seek, keys[i], seek);
    if i > at {
      AtMostChain(seek, keys[at], seek);
      AtMostChain(seek, keys[at], keys[i]);
      assert Less(keys[at], keys[i]);
      LessTotal(seek, keys[i]);
    }
  }

  /** The index behind the last key that is at most `max`. */
  function EndIndex(keys: seq<Bytes>, max: Bytes): (i: nat)
    ensures i <= |keys|
  {
    var i := SeekIndex(keys, max);
    if i < |keys| && keys[i] == max then i + 1 else i
  }

  lemma EndSplits(keys: seq<Bytes>, max: Bytes, i: nat)
    requires Sorted(keys) && i < |keys|
    ensures AtMost(keys[i], max) <==> i < EndIndex(keys, max)
  {
    SeekSplits(keys, max, i);
    var at := SeekIndex(keys, max);
    LessTotal(keys[i], max);
    if i != at && at < |keys| {
      LessTotal(keys[i], keys[at]);
      assert if i < at then Less(keys[i], keys[at]) else Less(keys[at], keys[i]);
    }
  }

  lemma VisitsAll(keys: seq<Bytes>)
    ensures Visited(keys, All, false) == keys
    ensures Visited(keys, All, true) == Reversed(keys)
  {
    WalkForward(keys, All, 0, |keys|);
    WalkBackward(keys, All, 0, |keys|);
    assert keys[0..|keys|] == keys;
  }

  /** The keys of a range are a stretch of the sorted keys. */
  lemma RangeIsSlice(keys: seq<Bytes>, min: Bytes, max: Bytes)
    requires Sorted(keys)
    ensures Filter(keys, InRange(min, max)) ==
            if SeekIndex(keys, min) <= EndIndex(keys, max) then keys[SeekIndex(keys, min)..EndIndex(keys, max)] else []
  {
    var lo, hi := SeekIndex(keys, min), EndIndex(keys, max);
    forall i | 0 <= i < |keys| ensures InRange(min, max)(keys[i]) <==> lo <= i < hi {
      SeekSplits(keys, min, i);
      EndSplits(keys, max, i);
    }
    if lo <= hi {
      FilterIsSlice(keys, InRange(min, max), lo, hi);
    } else {
      FilterIsSlice(keys, InRange(min, max), 0, 0);
    }
  }

  /** A forward range scan visits exactly the keys of [min, max], in order. */
  lemma RangeForward(keys: seq<Bytes>, min: Bytes, max: Bytes)
    requires Sorted(keys)
    ensures Visited(keys, Range(min, max), false) == Filter(keys, InRange(min, max))
  {
    var lo, hi := SeekIndex(keys, min), EndIndex(keys, max);
    RangeIsSlice(keys, min, max);
    forall i | 0 <= i < |keys| ensures Continues(Range(min, max), false, keys[i]) <==> i < hi {
      EndSplits(keys, max, i);
    }
    if lo <= hi {
      WalkForward(keys, Range(min, max), lo, hi);
    } else {
      WalkForward(keys, Range(min, max), lo, lo);
    }
  }

  /** Whether the reverse scan of [min, max] starts in the right place: some key is not below `max` and the
      first such key does not properly extend `max` (or lies below `min`), or no key reaches `min` at all. */
  predicate ReverseStartsWell(keys: seq<Bytes>, min: Bytes, max: Bytes) {
    var i := SeekIndex(keys, max);
    if i == |keys| then SeekIndex(keys, min) == |keys|
    else keys[i] == max || !(max <= keys[i]) || Less(keys[i], min)
  }

  /** A reverse range scan visits exactly the keys of [min, max] backwards if and only if it starts well. */
  lemma RangeReverse(keys: seq<Bytes>, min: Bytes, max: Bytes)
    requires Sorted(keys)
    ensures Visited(keys, Range(min, max), true) == Reversed(Filter(keys, InRange(min, max)))
            <==> ReverseStartsWell(keys, min, max)
  {
    hide Filter, EndOfPrefix, Less, Sorted;
    var at, lo, hi := SeekIndex(keys, max), SeekIndex(keys, min), EndIndex(keys, max);
    var kind := Range(min, max);
    RangeIsSlice(keys, min, max);
    forall i | 0 <= i < |keys|
      ensures Continues(kind, true, keys[i]) <==> i >= lo
      ensures Less(keys[i], min) <==> i < lo
    {
      SeekSplits(keys, min, i);
    }
    if at == |keys| {
      assert Visited(keys, kind, true) == [];
    } else if keys[at] != max && max <= keys[at] {
      ReverseOvershoots(keys, min, max);
    } else {
      if lo <= hi {
        WalkBackward(keys, kind, lo, hi);
      } else {
        WalkBackward(keys, kind, hi, hi);
      }
    }
  }

  /** With a first key that properly extends `max`, the scan answers that key, unless it is below `min`. */
  lemma ReverseOvershoots(keys: seq<Bytes>, min: Bytes, max: Bytes)
    requires Sorted(keys) && SeekIndex(keys, max) < |keys|
    requires keys[SeekIndex(keys, max)] != max && max <= keys[SeekIndex(keys, max)]
    ensures Visited(keys, Range(min, max), true) == Reversed(Filter(keys, InRange(min, max)))
            <==> Less(keys[SeekIndex(keys, max)], min)
  {
    hide Filter, Less, EndOfPrefix, SeekIndex, Sorted, FirstIndex, EndIndex;
    var at, lo := SeekIndex(keys, max), SeekIndex(keys, min);
    RangeIsSlice(keys, min, max);
    SeekSplits(keys, min, at);
    OvershootStart(keys, min, max);
    if lo <= at {
      assert Visited(keys, Range(min, max), true)[0] == keys[at];
      if lo < at {
        assert Reversed(keys[lo..at])[0] == keys[at - 1];
        Increasing(keys, at - 1, at);
      }
    }
  }

  lemma OvershootStart(keys: seq<Bytes>, min: Bytes, max: Bytes)
    requires SeekIndex(keys, max) < |keys|
    requires keys[SeekIndex(keys, max)] != max && max <= keys[SeekIndex(keys, max)]
    ensures FirstIndex(keys, Range(min, max), true) == EndIndex(keys, max) == SeekIndex(keys, max)
  {
  }

  lemma Increasing(keys: seq<Bytes>, i: nat, j: nat)
    requires Sorted(keys) && i < j < |keys|
    ensures keys[i] != keys[j]
  {
    LessTotal(keys[i], keys[j]);
  }

  /** The keys with a prefix are a stretch of the sorted keys. */
  lemma PrefixIsSlice(keys: seq<Bytes>, prefix: Bytes)
    requires Sorted(keys)
    ensures var lo := SeekIndex(keys, prefix);
            Filter(keys, HasPrefix(prefix)) == keys[lo..EndOfPrefix(keys, prefix, lo)]
  {
    var lo := SeekIndex(keys, prefix);
    var hi := EndOfPrefix(keys, prefix, lo);
    forall i | 0 <= i < |keys| ensures HasPrefix(prefix)(keys[i]) <==> lo <= i < hi {
      SeekSplits(keys, prefix, i);
      if prefix <= keys[i] {
        PrefixFirst(prefix, keys[i]);
        if i >= hi {
          SeekSplits(keys, prefix, hi);
          PrefixConvex(prefix, keys[hi], keys[i]);
        }
      }
    }
    FilterIsSlice(keys, HasPrefix(prefix), lo, hi);
  }

  /** For every bucket and prefix the scan visits exactly the keys with the prefix, and the reverse scan is
      its exact reverse. */
  lemma PrefixBothWays(keys: seq<Bytes>, prefix: Bytes)
    requires Sorted(keys)
    ensures Visited(keys, Prefixed(prefix), false) == Filter(keys, HasPrefix(prefix))
    ensures Visited(keys, Prefixed(prefix), true) == Reversed(Visited(keys, Prefixed(prefix), false))
  {
    var lo := SeekIndex(keys, prefix);
    var hi := EndOfPrefix(keys, prefix, lo);
    PrefixIsSlice(keys, prefix);
    WalkForward(keys, Prefixed(prefix), lo, hi);
    if lo > 0 && prefix <= keys[lo - 1] {
      PrefixFirst(prefix, keys[lo - 1]);
      LessTotal(prefix, keys[lo - 1]);
    }
    WalkBackward(keys, Prefixed(prefix), lo, hi);
  }
}
