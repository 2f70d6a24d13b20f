/** The ordering facts behind the timer heap, on the keys alone: a key is a fire time and the sequence
    number that breaks ties. */
module HeapOrder {

  datatype Key = Key(fireTime: int, addseq: nat)

  predicate Less(a: Key, b: Key) {
    if a.fireTime < b.fireTime then true
    else if a.fireTime > b.fireTime then false
    else a.addseq < b.addseq
  }

  /** The index of the parent, the division truncating towards zero. */
  function Parent(i: nat): nat {
    if i == 0 then 0 else (i - 1) / 2
  }

  ghost predicate Ok(ks: seq<Key>, i: nat)
    requires i < |ks|
  {
    !Less(ks[i], ks[Parent(i)])
  }

  ghost predicate HeapBut(ks: seq<Key>, hole: int) {
    forall i {:trigger Ok(ks, i)} :: 0 <= i < |ks| && i != hole ==> Ok(ks, i)
  }

  ghost predicate IsHeap(ks: seq<Key>) {
    HeapBut(ks, -1)
  }

  /** The children of j are not earlier than its parent. */
  ghost predicate ChildrenOk(ks: seq<Key>, j: nat)
    requires j < |ks|
  {
    forall c {:trigger Parent(c)} :: 0 <= c < |ks| && Parent(c) == j ==> !Less(ks[c], ks[Parent(j)])
  }

  function Swapped<T>(s: seq<T>, i: nat, j: nat): seq<T>
    requires i < |s| && j < |s|
  {
    s[i := s[j]][j := s[i]]
  }

  lemma {:induction false} RootIsLeast(ks: seq<Key>, i: nat)
    requires IsHeap(ks) && i < |ks|
    ensures !Less(ks[i], ks[0])
  {
    if i > 0 {
      RootIsLeast(ks, Parent(i));
      assert Ok(ks, i);
    }
  }

  /** One round of sifting up: j is earlier than its parent and takes its place. */
  lemma UpStep(ks: seq<Key>, j: nat)
    requires j < |ks| && HeapBut(ks, j) && ChildrenOk(ks, j)
    requires 0 < j && Less(ks[j], ks[Parent(j)])
    ensures HeapBut(Swapped(ks, Parent(j), j), Parent(j)) && ChildrenOk(Swapped(ks, Parent(j), j), Parent(j))
  {
    var p := Parent(j);
    var s := Swapped(ks, p, j);
    forall i | 0 <= i < |s| && i != p ensures Ok(s, i) {
      if i != j {
        assert Ok(ks, i);
        if i == 0 {
        } else if Parent(i) == j {
          assert !Less(ks[i], ks[p]);
        }
      }
    }
    forall c | 0 <= c < |s| && Parent(c) == p ensures !Less(s[c], s[Parent(p)]) {
      assert Ok(ks, p);
      if c != j {
        assert Ok(ks, c);
      }
    }
  }

  /** Sifting up ends at the root or below a parent that is not later. */
  lemma UpDone(ks: seq<Key>, j: nat)
    requires j < |ks| && HeapBut(ks, j)
    requires j == 0 || !Less(ks[j], ks[Parent(j)])
    ensures IsHeap(ks)
  {
    assert Ok(ks, j);
  }

  /** Every place but the children of `hole` is ordered, and those are not earlier than its parent. */
  ghost predicate DownInv(ks: seq<Key>, hole: nat)
  {
    && (forall i {:trigger Ok(ks, i)} :: 0 <= i < |ks| && (i == 0 || Parent(i) != hole) ==> Ok(ks, i))
    && (0 < hole < |ks| ==> ChildrenOk(ks, hole))
  }

  /** One round of sifting down: the earlier child c of `hole` takes its place. */
  lemma DownStep(ks: seq<Key>, hole: nat, c: nat)
    requires DownInv(ks, hole) && 0 < c < |ks| && Parent(c) == hole
    requires Less(ks[c], ks[hole])
    requires forall d {:trigger Parent(d)} :: 0 < d < |ks| && Parent(d) == hole ==> !Less(ks[d], ks[c])
    ensures DownInv(Swapped(ks, hole, c), c)
  {
    var s := Swapped(ks, hole, c);
    forall i | 0 <= i < |s| && (i == 0 || Parent(i) != c) ensures Ok(s, i) {
      if i > 0 {
        if Parent(i) != hole {
          assert Ok(ks, i);
          if i == hole {
            assert !Less(ks[c], ks[Parent(hole)]);
          }
        }
      }
    }
    forall d | 0 <= d < |s| && Parent(d) == c ensures !Less(s[d], s[Parent(c)]) {
      assert Ok(ks, d);
    }
  }

  lemma DownDone(ks: seq<Key>, hole: nat)
    requires DownInv(ks, hole)
    requires forall d {:trigger Parent(d)} :: 0 < d < |ks| && Parent(d) == hole ==> !Less(ks[d], ks[hole])
    ensures IsHeap(ks)
  {
    forall i | 0 <= i < |ks| ensures Ok(ks, i) {
    }
  }

  lemma PushLast(ks: seq<Key>, k: Key)
    requires IsHeap(ks)
    ensures HeapBut(ks + [k], |ks|) && ChildrenOk(ks + [k], |ks|)
  {
    forall i | 0 <= i < |ks| ensures Ok(ks + [k], i) {
      assert Ok(ks, i);
    }
  }

  lemma MoveRootOut(ks: seq<Key>)
    requires IsHeap(ks) && ks != []
    ensures DownInv(Swapped(ks, 0, |ks| - 1)[..|ks| - 1], 0)
  {
    var s := Swapped(ks, 0, |ks| - 1)[..|ks| - 1];
    forall i | 0 <= i < |s| && (i == 0 || Parent(i) != 0) ensures Ok(s, i) {
      assert Ok(ks, i);
    }
  }
}
