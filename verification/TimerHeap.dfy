/** Timers in a binary heap ordered by fire time, ties by the order in which they were added.
    Times and intervals are in nanoseconds. */
module TimerHeap {
  import opened HeapOrder

  const MIN_TIMER_INTERVAL := 1_000_000

  class Timer {
    var fireTime: int
    var interval: int
    var callback: bool  // whether a callback is set; Cancel clears it
    const repeat: bool
    var addseq: nat

    constructor (fireTime: int, interval: int, repeat: bool)
      ensures this.fireTime == fireTime && this.interval == interval && this.repeat == repeat && callback
    {
      this.fireTime, this.interval, this.repeat := fireTime, interval, repeat;
      this.callback, this.addseq := true, 0;
    }

    function Key(): Key
      reads this`fireTime, this`addseq
    {
      HeapOrder.Key(fireTime, addseq)
    }

    method Cancel()
      modifies this`callback
      ensures !callback
    {
      callback := false;
    }
  }

  ghost function Keys(ts: seq<Timer>): (ks: seq<Key>)
    reads ts
    ensures |ks| == |ts| && forall i :: 0 <= i < |ts| ==> ks[i] == ts[i].Key()
  {
    seq(|ts|, i requires 0 <= i < |ts| reads ts => ts[i].Key())
  }

  lemma SwappedPrefix<T>(s: seq<T>, i: nat, j: nat, n: nat)
    requires i < n && j < n <= |s|
    ensures Swapped(s, i, j)[..n] == Swapped(s[..n], i, j)
    ensures Swapped(s, i, j)[n..] == s[n..]
  {
  }

  class Heap {
    var timers: seq<Timer>

    constructor ()
      ensures timers == []
    {
      timers := [];
    }

    method Swap(i: nat, j: nat)
      requires i < |timers| && j < |timers|
      modifies this`timers
      ensures timers == Swapped(old(timers), i, j)
      ensures Keys(timers) == Swapped(Keys(old(timers)), i, j)
      ensures multiset(timers) == multiset(old(timers))
    {
      timers := timers[i := timers[j]][j := timers[i]];
    }

    method Up(k: nat)
      requires k < |timers| && HeapBut(Keys(timers), k) && ChildrenOk(Keys(timers), k)
      modifies this`timers
      ensures IsHeap(Keys(timers)) && multiset(timers) == multiset(old(timers))
    {
      var j := k;
      while true
        invariant 0 <= j < |timers| && HeapBut(Keys(timers), j) && ChildrenOk(Keys(timers), j)
        invariant multiset(timers) == multiset(old(timers))
        decreases j
      {
        var i := Parent(j);
        if i == j || !Less(timers[j].Key(), timers[i].Key()) {
          break;
        }
        UpStep(Keys(timers), j);
        Swap(i, j);
        j := i;
      }
      UpDone(Keys(timers), j);
    }

    /** Sifts down within the first n places. */
    method Down(n: nat)
      requires n <= |timers| && DownInv(Keys(timers)[..n], 0)
      modifies this`timers
      ensures |timers| == |old(timers)| && IsHeap(Keys(timers)[..n]) && timers[n..] == old(timers)[n..]
      ensures multiset(timers) == multiset(old(timers))
    {
      var i := 0;
      while true
        invariant 0 <= i && n <= |timers| == |old(timers)| && DownInv(Keys(timers)[..n], i)
        invariant timers[n..] == old(timers)[n..]
        invariant multiset(timers) == multiset(old(timers))
        decreases n - i
      {
        var j := 2 * i + 1;
        if j >= n {
          break;
        }
        if j + 1 < n && Less(timers[j + 1].Key(), timers[j].Key()) {
          j := j + 1;
        }
        if !Less(timers[j].Key(), timers[i].Key()) {
          break;
        }
        DownStep(Keys(timers)[..n], i, j);
        SwappedPrefix(Keys(timers), i, j, n);
        SwappedPrefix(timers, i, j, n);
        Swap(i, j);
        i := j;
      }
      DownDone(Keys(timers)[..n], i);
    }

    method Push(t: Timer)
      requires IsHeap(Keys(timers))
      modifies this`timers
      ensures IsHeap(Keys(timers)) && multiset(timers) == multiset(old(timers)) + multiset{t}
    {
      ghost var ks := Keys(timers);
      timers := timers + [t];
      PushLast(ks, t.Key());
      assert Keys(timers) == ks + [t.Key()];
      Up(|timers| - 1);
    }

    /** Takes out the earliest timer. */
    method Pop() returns (t: Timer)
      requires IsHeap(Keys(timers)) && timers != []
      modifies this`timers
      ensures IsHeap(Keys(timers)) && t == old(timers)[0]
      ensures multiset(timers) + multiset{t} == multiset(old(timers))
    {
      var n := |timers| - 1;
      MoveRootOut(Keys(timers));
      Swap(0, n);
      Down(n);
      assert timers == timers[..n] + [timers[n]];
      assert timers[n] == timers[n..][0] == old(timers)[0];
      assert Keys(timers[..n]) == Keys(timers)[..n];
      timers, t := timers[..n], timers[n];
    }
  }
}
