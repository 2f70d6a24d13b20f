/** The doubly linked list the LRU cache keeps its entries on: a ring of elements closed by a sentinel. */
module EvictionList {
  import opened Options
  import opened RecencyOrder
  import opened Sequences

  class Element<K, V> {
    var next: Element?<K, V>
    var prev: Element?<K, V>
    var data: Option<Entry<K, V>>

    constructor (data: Option<Entry<K, V>>)
      ensures this.data == data
    {
      this.data := data;
      next, prev := null, null;
    }
  }

  /** Each element points to the next one and back; the last one closes the ring. */
  ghost predicate Linked<K, V>(ring: seq<Element<K, V>>)
    reads ring
  {
    && |ring| > 0
    && (forall i {:trigger ring[i].next} :: 0 <= i < |ring| - 1 ==> ring[i].next == ring[i + 1])
    && (forall i {:trigger ring[i].prev} :: 1 <= i < |ring| ==> ring[i].prev == ring[i - 1])
    && ring[|ring| - 1].next == ring[0]
    && ring[0].prev == ring[|ring| - 1]
  }

  class List<K, V> {
    const root: Element<K, V>
    var len: int
    ghost var elements: seq<Element<K, V>>  // front to back
    ghost var ring: seq<Element<K, V>>      // the sentinel, then the elements
    ghost var contents: seq<Entry<K, V>>    // what the elements hold
    ghost var Repr: set<object>

    ghost predicate Ring()
      reads this, Repr
    {
      && this in Repr && (forall x <- ring :: x in Repr)
      && |ring| > 0 && ring[0] == root && elements == ring[1..]
      && NoRepeats(ring)
      && Linked(ring)
    }

    ghost predicate Valid()
      reads this, Repr
    {
      && Ring() && len == |elements| == |contents|
      && forall i {:trigger elements[i]} :: 0 <= i < |elements| ==> elements[i].data == Some(contents[i])
    }

    constructor ()
      ensures Valid() && elements == [] && contents == [] && fresh(Repr)
    {
      root := new Element(None);
      len := 0;
      Repr := {this, root};
      new;
      root.next, root.prev := root, root;
      ring, elements, contents := [root], [], [];
    }

    method Init()
      requires this in Repr && root in Repr
      modifies this, root
      ensures Valid() && elements == [] && contents == [] && Repr == old(Repr)
    {
      root.next, root.prev := root, root;
      len := 0;
      ring, elements, contents := [root], [], [];
    }

    /** Links an element that is not on the list right behind the sentinel. */
    method Attach(e: Element<K, V>)
      requires Ring() && e !in ring && e in Repr
      modifies this`ring, this`elements, ring, e
      ensures Ring() && elements == [e] + old(elements)
      ensures e.data == old(e.data) && forall x <- old(elements) :: x.data == old(x.data)
    {
      e.prev := root;
      e.next := root.next;
      e.prev.next := e;
      e.next.prev := e;
      ring := [root, e] + ring[1..];
      elements := ring[1..];
    }

    /** Links the neighbours of the i-th element to each other. */
    method Detach(e: Element<K, V>, ghost i: nat)
      requires Ring() && i < |elements| && elements[i] == e
      modifies this`ring, this`elements, ring
      ensures Ring() && elements == old(elements)[..i] + old(elements)[i + 1..] && e !in ring
      ensures forall x <- old(elements) :: x.data == old(x.data)
    {
      assert ring[i + 1] == e && e.prev == ring[i];
      assert e.next == if i + 2 < |ring| then ring[i + 2] else ring[0];
      e.prev.next := e.next;
      e.next.prev := e.prev;
      ring := ring[..i + 1] + ring[i + 2..];
      elements := ring[1..];
    }

    method PushFront(entry: Entry<K, V>) returns (e: Element<K, V>)
      requires Valid()
      modifies Repr
      ensures Valid() && fresh(e) && Repr == old(Repr) + {e}
      ensures elements == [e] + old(elements) && contents == [entry] + old(contents)
    {
      e := new Element(Some(entry));
      Repr := Repr + {e};
      Attach(e);
      len := len + 1;
      contents := [entry] + contents;
    }

    method Unlink(e: Element<K, V>, ghost i: nat)
      requires Valid() && i < |elements| && elements[i] == e
      modifies Repr
      ensures Valid() && e.data == old(e.data)
      ensures elements == old(elements)[..i] + old(elements)[i + 1..]
      ensures contents == old(contents)[..i] + old(contents)[i + 1..]
      ensures Repr == old(Repr)
    {
      Detach(e, i);
      e.next, e.prev := null, null;
      len := len - 1;
      contents := contents[..i] + contents[i + 1..];
    }

    /** Links the i-th element behind the sentinel; what the elements hold stays. */
    method Relink(e: Element<K, V>, ghost i: nat)
      requires Ring() && i < |elements| && elements[i] == e
      modifies this`ring, this`elements, ring
      ensures Ring() && elements == [e] + (old(elements)[..i] + old(elements)[i + 1..])
      ensures forall x <- old(elements) :: x.data == old(x.data)
    {
      assert ring[i + 1] == e && e in ring;
      hide Linked, NoRepeats;
      Detach(e, i);
      Attach(e);
    }

    method MoveToFront(e: Element<K, V>, ghost i: nat)
      requires Valid() && i < |elements| && elements[i] == e
      modifies Repr
      ensures Valid()
      ensures elements == [e] + (old(elements)[..i] + old(elements)[i + 1..])
      ensures contents == [old(contents)[i]] + (old(contents)[..i] + old(contents)[i + 1..])
      ensures Repr == old(Repr)
    {
      assert ring[i + 1] == e;
      if root.next == e {
        assert ring[1] == e;
        return;
      }
      hide Linked, NoRepeats;
      Relink(e, i);
      contents := [contents[i]] + (contents[..i] + contents[i + 1..]);
    }

    /** Overwrites what the first element holds. */
    method StoreInFront(e: Element<K, V>, entry: Entry<K, V>)
      requires Valid() && elements != [] && elements[0] == e
      modifies this`contents, e`data
      ensures Valid() && contents == [entry] + old(contents)[1..]
    {
      assert ring[1] == e;
      e.data := Some(entry);
      contents := [entry] + contents[1..];
    }

    method Back() returns (e: Element?<K, V>)
      requires Valid()
      ensures if len == 0 then e == null else e == elements[|elements| - 1]
    {
      if len == 0 {
        return null;
      }
      e := root.prev;
    }

    method Prev(e: Element<K, V>, ghost i: nat) returns (p: Element?<K, V>)
      requires Valid() && i < |elements| && elements[i] == e
      ensures if i == 0 then p == null else p == elements[i - 1]
    {
      assert ring[i + 1] == e;
      p := e.prev;
      if p == root {
        p := null;
      }
    }
  }
}
