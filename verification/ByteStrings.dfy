/** Byte strings in the order of bytes.Compare. A Go string or byte slice is a Dafny string whose
    characters stand for single bytes; `p <= s` on strings says that p is a prefix of s. */
module ByteStrings {

  type Bytes = string

  /** bytes.Compare(a, b) < 0 */
  predicate Less(a: Bytes, b: Bytes) {
    if b == "" then false
    else if a == "" then true
    else if a[0] != b[0] then a[0] < b[0]
    else Less(a[1..], b[1..])
  }

  /** The strings differ first at i, where a has the smaller byte, or a ends there. */
  predicate SmallerAt(a: Bytes, b: Bytes, i: nat) {
    i <= |a| && i < |b| && a[..i] == b[..i] && (i == |a| || a[i] < b[i])
  }

  /** The order of byte strings: exactly if there is a first difference, and it is smaller there. */
  lemma {:induction false} LessExactly(a: Bytes, b: Bytes)
    ensures Less(a, b) <==> exists i: nat :: SmallerAt(a, b, i)
  {
    if b == "" {
      assert forall i: nat :: !SmallerAt(a, b, i);
    } else if a == "" || a[0] != b[0] {
      assert a == "" || a[0] < b[0] ==> SmallerAt(a, b, 0);
      assert forall i: nat :: SmallerAt(a, b, i) && i > 0 ==> a[..i][0] == b[..i][0];
    } else {
      LessExactly(a[1..], b[1..]);
      forall i: nat ensures SmallerAt(a[1..], b[1..], i) <==> SmallerAt(a, b, i + 1) {
        if i < |a| && i < |b| {
          assert a[..i + 1] == [a[0]] + a[1..][..i] && b[..i + 1] == [b[0]] + b[1..][..i];
          assert a[..i + 1] == b[..i + 1] ==> a[..i + 1][1..] == b[..i + 1][1..];
          assert a[..i + 1][1..] == a[1..][..i] && b[..i + 1][1..] == b[1..][..i];
        }
      }
      if Less(a, b) {
        var i: nat :| SmallerAt(a[1..], b[1..], i);
        assert SmallerAt(a, b, i + 1);
      } else if i: nat :| SmallerAt(a, b, i) {
        assert i > 0 ==> SmallerAt(a[1..], b[1..], i - 1);
      }
    }
  }

  predicate AtMost(a: Bytes, b: Bytes) {
    a == b || Less(a, b)
  }

  lemma {:induction false} LessTotal(a: Bytes, b: Bytes)
    ensures a == b || Less(a, b) || Less(b, a)
    ensures !(Less(a, b) && (Less(b, a) || a == b))
  {
    if a != "" && b != "" && a[0] == b[0] {
      LessTotal(a[1..], b[1..]);
      assert a == [a[0]] + a[1..] && b == [b[0]] + b[1..];
    }
  }

  lemma {:induction false} LessTransitive(a: Bytes, b: Bytes, c: Bytes)
    requires Less(a, b) && Less(b, c)
    ensures Less(a, c)
  {
    if a != "" && a[0] == b[0] == c[0] {
      LessTransitive(a[1..], b[1..], c[1..]);
    }
  }

  /** A string that extends p comes after p, and between p and an extension of p there are only extensions. */
  lemma {:induction false} PrefixFirst(p: Bytes, a: Bytes)
    requires p <= a
    ensures AtMost(p, a)
  {
    if p != "" {
      assert p[1..] <= a[1..];
      PrefixFirst(p[1..], a[1..]);
      assert a == [a[0]] + a[1..] && p == [p[0]] + p[1..];
    }
  }

  lemma {:induction false} PrefixConvex(p: Bytes, a: Bytes, b: Bytes)
    requires AtMost(p, a) && AtMost(a, b) && p <= b
    ensures p <= a
  {
    if p != "" && a != b && a != p {
      assert b[0] == p[0] && a[0] == p[0];
      PrefixConvex(p[1..], a[1..], b[1..]);
      assert a == [a[0]] + a[1..] && p == [p[0]] + p[1..];
    }
  }

  /** A common prefix does not matter. */
  lemma {:induction false} LessUnderPrefix(p: Bytes, a: Bytes, b: Bytes)
    ensures Less(p + a, p + b) <==> Less(a, b)
  {
    if p == "" {
      assert p + a == a && p + b == b;
    } else {
      LessUnderPrefix(p[1..], a, b);
      assert (p + a)[1..] == p[1..] + a && (p + b)[1..] == p[1..] + b;
    }
  }

  // ---------- sorted sequences of keys ----------

  ghost predicate Sorted(keys: seq<Bytes>) {
    forall i, j :: 0 <= i < j < |keys| ==> Less(keys[i], keys[j])
  }

  lemma {:induction false} HasLeast(s: set<Bytes>)
    requires s != {}
    ensures exists k :: k in s && forall x <- s :: AtMost(k, x)
  {
    hide Less;
    var any :| any in s;
    var rest := s - {any};
    assert s == rest + {any};
    if rest == {} {
      assert forall x <- s :: AtMost(any, x);
    } else {
      HasLeast(rest);
      var k :| k in rest && forall x <- rest :: AtMost(k, x);
      LeastWith(rest, k, any);
    }
  }

  lemma LeastWith(rest: set<Bytes>, k: Bytes, any: Bytes)
    requires k in rest && forall x <- rest :: AtMost(k, x)
    ensures exists l :: l in rest + {any} && forall x <- rest + {any} :: AtMost(l, x)
  {
    hide Less;
    LessTotal(k, any);
    if Less(any, k) {
      forall x | x in rest + {any} ensures AtMost(any, x) {
        if x in rest && x != k {
          LessTransitive(any, k, x);
        }
      }
      assert any in rest + {any};
    } else {
      assert k in rest + {any} && forall x <- rest + {any} :: AtMost(k, x);
    }
  }

  lemma LeastIsUnique(s: set<Bytes>)
    ensures forall k, l :: k in s && l in s && (forall x <- s :: AtMost(k, x)) && (forall x <- s :: AtMost(l, x)) ==> k == l
  {
    forall k, l | k in s && l in s && (forall x <- s :: AtMost(k, x)) && (forall x <- s :: AtMost(l, x)) ensures k == l {
      LessTotal(k, l);
    }
  }

  lemma AllAbove(s: set<Bytes>, k: Bytes, rest: seq<Bytes>)
    requires (forall x <- s :: AtMost(k, x)) && forall x :: x in rest <==> x in s - {k}
    ensures forall j :: 0 <= j < |rest| ==> Less(k, rest[j])
  {
    forall j | 0 <= j < |rest| ensures Less(k, rest[j]) {
      var x := rest[j];
      assert x in rest;
    }
  }

  /** The keys of a bucket in cursor order. */
  function SortedKeys(s: set<Bytes>): (keys: seq<Bytes>)
    ensures Sorted(keys)
    ensures forall k :: k in keys <==> k in s
  {
    if s == {} then []
    else
      HasLeast(s);
      LeastIsUnique(s);
      var k :| k in s && forall x <- s :: AtMost(k, x);
      var rest := SortedKeys(s - {k});
      AllAbove(s, k, rest);
      [k] + rest
  }

  /** Sorted sequences with the same elements are the same. */
  lemma {:induction false} SortedUnique(a: seq<Bytes>, b: seq<Bytes>)
    requires Sorted(a) && Sorted(b) && forall k :: k in a <==> k in b
    ensures a == b
  {
    assert |b| == 0 || b[0] in a;
    if a != [] {
      assert a[0] in b && b[0] in a;
      var i :| 0 <= i < |b| && b[i] == a[0];
      var j :| 0 <= j < |a| && a[j] == b[0];
      LessTotal(a[0], b[0]);
      assert a[0] == b[0];
      forall k ensures k in a[1..] <==> k in b[1..] {
        TailMembers(a, k);
        TailMembers(b, k);
      }
      SortedUnique(a[1..], b[1..]);
    }
  }

  lemma TailMembers(a: seq<Bytes>, k: Bytes)
    requires Sorted(a) && a != []
    ensures k in a[1..] <==> k in a && k != a[0]
  {
    assert a == [a[0]] + a[1..];
    if k in a[1..] {
      var i :| 0 <= i < |a| - 1 && a[1..][i] == k;
      assert Less(a[0], a[i + 1]);
      LessTotal(a[0], k);
    }
  }
}
