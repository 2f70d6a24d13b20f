/** Adding timers and the tick, proved to take the course that its timers and callbacks determine. */
module TimerTick {
  import opened HeapOrder
  import opened Sequences
  import opened TimerHeap
  import opened TickCourse

  /** A timer as it was asked for; cancelled ones have no callback. */
  ghost predicate Meets(t: Timer, a: Armed)
    reads t
  {
    && a.request.IsAdd()
    && t.fireTime == FireTimeOf(a.request) && t.interval == IntervalOf(a.request)
    && t.repeat == a.request.AddRepeating? && t.callback == a.live
  }

  /** The timers stand for the requests, one each, in order. */
  ghost predicate Fulfils(ts: seq<Timer>, armed: seq<Armed>)
    reads ts
  {
    |ts| == |armed| && NoRepeats(ts) && forall k :: 0 <= k < |ts| ==> Meets(ts[k], armed[k])
  }

  lemma FulfilsMore(ts: seq<Timer>, armed: seq<Armed>, e: Effect, t: Timer)
    requires Fulfils(ts, armed) && e.IsAdd() && Meets(t, Armed(e, true)) && t !in ts
    ensures Fulfils(ts + [t], Arming(armed, e))
  {
  }

  /** The timers were numbered in order, from one number on. */
  ghost predicate Numbered(ts: seq<Timer>, from: nat, to: nat)
    reads ts`addseq
  {
    && (forall k :: 0 <= k < |ts| ==> from <= ts[k].addseq < to)
    && forall i, j :: 0 <= i < j < |ts| ==> ts[i].addseq < ts[j].addseq
  }

  lemma NumberedMore(ts: seq<Timer>, from: nat, to: nat, t: Timer)
    requires Numbered(ts, from, to) && t.addseq == to && from <= to
    ensures Numbered(ts + [t], from, to + 1)
  {
  }

  lemma NumberedWider(ts: seq<Timer>, from: nat, to: nat, more: nat)
    requires Numbered(ts, from, to) && to <= more
    ensures Numbered(ts, from, more)
  {
  }

  ghost predicate Outside(ts: seq<Timer>, universe: set<Timer>) {
    forall x <- ts :: x !in universe
  }

  /** When a repeating timer fires again. */
  function NextFire(w: Was, now: int): int {
    if w.key.fireTime + w.interval > now then w.key.fireTime + w.interval else now + w.interval
  }

  class Timers {
    const heap: Heap
    var nextAddSeq: nat

    constructor ()
      ensures Valid() && heap.timers == [] && nextAddSeq == 1 && fresh(heap)
    {
      heap := new Heap();
      nextAddSeq := 1;
    }

    ghost predicate Valid()
      reads this, heap, heap.timers
    {
      && IsHeap(Keys(heap.timers))
      && (forall t <- heap.timers :: multiset(heap.timers)[t] == 1 && t.addseq < nextAddSeq)
      && (forall t <- heap.timers :: t.repeat ==> t.interval >= MIN_TIMER_INTERVAL)
      && (forall t <- heap.timers, u <- heap.timers :: t != u ==> t.addseq != u.addseq)
    }

    ghost function Pending(): set<Timer>
      reads heap
    {
      set t <- heap.timers
    }

    /** Numbers a timer that is not in the heap and pushes it. */
    method Arm(t: Timer)
      requires Valid() && t !in Pending() && (t.repeat ==> t.interval >= MIN_TIMER_INTERVAL)
      modifies this`nextAddSeq, heap, t`addseq
      ensures Valid() && t.addseq == old(nextAddSeq) && nextAddSeq == old(nextAddSeq) + 1
      ensures multiset(heap.timers) == multiset(old(heap.timers)) + multiset{t}
      ensures Pending() == old(Pending()) + {t}
    {
      t.addseq := nextAddSeq;
      nextAddSeq := nextAddSeq + 1;
      assert Keys(heap.timers) == old(Keys(heap.timers));
      ghost var was := heap.timers;
      heap.Push(t);
      MembersAfterPush(was, heap.timers, t);
    }

    method AddCallback(d: int, now: int) returns (t: Timer)
      requires Valid()
      modifies this`nextAddSeq, heap
      ensures Valid() && fresh(t) && !t.repeat && t.callback && t.interval == d && t.fireTime == now + d
      ensures t.addseq == old(nextAddSeq) && nextAddSeq == old(nextAddSeq) + 1
      ensures multiset(heap.timers) == multiset(old(heap.timers)) + multiset{t}
      ensures Pending() == old(Pending()) + {t}
    {
      t := new Timer(now + d, d, false);
      Arm(t);
    }

    method AddTimer(d: int, now: int) returns (t: Timer)
      requires Valid()
      modifies this`nextAddSeq, heap
      ensures Valid() && fresh(t) && t.repeat && t.callback
      ensures t.interval == (if d < 1_000_000 then 1_000_000 else d) && t.fireTime == now + t.interval
      ensures t.addseq == old(nextAddSeq) && nextAddSeq == old(nextAddSeq) + 1
      ensures multiset(heap.timers) == multiset(old(heap.timers)) + multiset{t}
      ensures Pending() == old(Pending()) + {t}
    {
      var interval := if d < MIN_TIMER_INTERVAL then MIN_TIMER_INTERVAL else d;
      t := new Timer(now + interval, interval, true);
      Arm(t);
    }

    lemma MembersAfterPush(was: seq<Timer>, ts: seq<Timer>, t: Timer)
      requires multiset(ts) == multiset(was) + multiset{t}
      ensures forall x :: x in ts <==> x in was || x == t
    {
      forall x ensures x in ts <==> x in was || x == t {
        assert x in ts <==> x in multiset(ts);
        assert x in was <==> x in multiset(was);
      }
    }

    /** Adds the timer that is asked for. */
    method AddAs(e: Effect) returns (t: Timer)
      requires Valid() && e.IsAdd()
      modifies this`nextAddSeq, heap
      ensures Valid() && t.addseq == old(nextAddSeq) && nextAddSeq == old(nextAddSeq) + 1
      ensures fresh(t) && Meets(t, Armed(e, true)) && Pending() == old(Pending()) + {t}
    {
      if e.AddOnce? {
        t := AddCallback(e.d, e.at);
      } else {
        t := AddTimer(e.d, e.at);
      }
    }

    /** Cancels the timer that is named, if there is one. */
    method CancelIt(e: Effect, added: seq<Timer>, ghost armed: seq<Armed>, ghost universe: set<Timer>)
      requires Valid() && !e.IsAdd() && CancelsWithin([e], universe) && Fulfils(added, armed)
      requires forall x <- added :: x !in universe
      modifies universe`callback, added`callback
      ensures Valid() && Fulfils(added, Arming(armed, e))
      ensures forall u <- universe :: u.callback == (old(u.callback) && e != CancelTimer(u))
    {
      if e.CancelTimer? {
        assert e in [e];
        e.t.Cancel();
      } else if e.n < |added| {
        assert added[e.n] in added;
        added[e.n].Cancel();
      }
      assert Keys(heap.timers) == old(Keys(heap.timers));
    }

    /** One effect of a callback, when `added` were added before in this tick. */
    method Perform(e: Effect, added: seq<Timer>, ghost armed: seq<Armed>, ghost universe: set<Timer>, ghost base: nat)
      returns (all: seq<Timer>)
      requires Valid() && CancelsWithin([e], universe) && Fulfils(added, armed) && Outside(added, universe)
      requires base <= nextAddSeq && Numbered(added, base, nextAddSeq)
      modifies this`nextAddSeq, heap, universe`callback, added`callback
      ensures Valid() && nextAddSeq >= old(nextAddSeq) && Numbered(all, base, nextAddSeq)
      ensures added <= all && (forall k :: |added| <= k < |all| ==> fresh(all[k])) && Fulfils(all, Arming(armed, e))
      ensures Pending() == old(Pending()) + (set x <- all[|added|..])
      ensures forall u <- universe :: u.callback == (old(u.callback) && e != CancelTimer(u))
    {
      hide Timers.Valid, Fulfils, Meets, Arming, Numbered;
      all := added;
      if e.IsAdd() {
        var t := AddAs(e);
        FulfilsMore(added, armed, e, t);
        NumberedMore(added, base, old(nextAddSeq), t);
        all := added + [t];
        assert all[|added|..] == [t];
      } else {
        CancelIt(e, added, armed, universe);
        assert all[|added|..] == [];
      }
    }

    /** A callback that does `effects`. */
    method RunCallback(effects: seq<Effect>, added: seq<Timer>, ghost armed: seq<Armed>, ghost universe: set<Timer>, ghost base: nat)
      returns (all: seq<Timer>)
      requires Valid() && CancelsWithin(effects, universe) && Fulfils(added, armed) && Outside(added, universe)
      requires base <= nextAddSeq && Numbered(added, base, nextAddSeq)
      modifies this`nextAddSeq, heap, universe`callback, added`callback
      ensures Valid() && nextAddSeq >= old(nextAddSeq) && Numbered(all, base, nextAddSeq)
      ensures added <= all && (forall k :: |added| <= k < |all| ==> fresh(all[k])) && Fulfils(all, ArmedBy(armed, effects))
      ensures Pending() == old(Pending()) + (set x <- all[|added|..])
      ensures forall u <- universe :: u.callback == (old(u.callback) && CancelTimer(u) !in effects)
    {
      hide Timers.Valid, Fulfils, ArmedBy, Arming, Numbered;
      all := added;
      NothingArmed(armed, effects);
      var i := 0;
      while i < |effects|
        invariant 0 <= i <= |effects|
        invariant Valid() && nextAddSeq >= old(nextAddSeq) && Numbered(all, base, nextAddSeq)
        invariant added <= all && (forall k :: |added| <= k < |all| ==> fresh(all[k]))
        invariant Fulfils(all, ArmedBy(armed, effects[..i]))
        invariant Pending() == old(Pending()) + (set x <- all[|added|..])
        invariant forall u <- universe :: u.callback == (old(u.callback) && CancelTimer(u) !in effects[..i])
      {
        ArmedNext(armed, effects, i);
        assert effects[i] in effects;
        assert forall k :: 0 <= k < |all| ==> all[k] in added || fresh(all[k]);
        ghost var before := all;
        all := Perform(effects[i], all, ArmedBy(armed, effects[..i]), universe, base);
        assert all[|added|..] == before[|added|..] + all[|before|..];
        i := i + 1;
      }
      assert effects[..|effects|] == effects;
    }

    lemma MembersAfterPop(was: seq<Timer>, ts: seq<Timer>, t: Timer)
      requires multiset(ts) + multiset{t} == multiset(was) && multiset(was)[t] == 1
      ensures forall x :: x in ts <==> x in was && x != t
    {
      forall x ensures x in ts <==> x in was && x != t {
        assert x in ts <==> x in multiset(ts);
        assert x in was <==> x in multiset(was);
        assert multiset(was)[x] == multiset(ts)[x] + (if x == t then 1 else 0);
      }
    }

    lemma Earliest(u: Timer)
      requires Valid() && u in heap.timers && u != heap.timers[0]
      ensures Less(heap.timers[0].Key(), u.Key())
    {
      var i :| 0 <= i < |heap.timers| && heap.timers[i] == u;
      RootIsLeast(Keys(heap.timers), i);
    }

    method PopEarliest() returns (t: Timer)
      requires Valid() && heap.timers != []
      modifies heap
      ensures Valid() && t == old(heap.timers)[0]
      ensures Pending() == old(Pending()) - {t}
      ensures forall u <- heap.timers :: Less(t.Key(), u.Key())
    {
      forall u | u in heap.timers && u != heap.timers[0] ensures Less(heap.timers[0].Key(), u.Key()) {
        Earliest(u);
      }
      ghost var before := heap.timers;
      t := heap.Pop();
      assert t in before;
      MembersAfterPop(before, heap.timers, t);
      assert forall u <- heap.timers :: multiset(before)[u] == multiset(heap.timers)[u];
    }

    method Rearm(t: Timer, now: int)
      requires Valid() && t !in Pending() && t.repeat && t.interval >= MIN_TIMER_INTERVAL
      modifies this`nextAddSeq, heap, t`fireTime, t`addseq
      ensures Valid() && t.addseq == old(nextAddSeq)
      ensures t.fireTime == (if old(t.fireTime) + t.interval > now then old(t.fireTime) + t.interval else now + t.interval) > now
      ensures Pending() == old(Pending()) + {t}
    {
      t.fireTime := t.fireTime + t.interval;
      if !(t.fireTime > now) {
        t.fireTime := now + t.interval;
      }
      assert Keys(heap.timers) == old(Keys(heap.timers));
      Arm(t);
    }

    lemma NothingDue(now: int)
      requires Valid() && (heap.timers != [] ==> heap.timers[0].fireTime > now)
      ensures forall t <- heap.timers :: t.fireTime > now
    {
      forall t | t in heap.timers ensures t.fireTime > now {
        if t != heap.timers[0] {
          Earliest(t);
        }
      }
    }

    // ---------- the tick ----------

    /** What became of a timer from before the tick. */
    ghost predicate StandsAs(u: Timer, w: Was, c: Course, now: int, turns: seq<Turn>)
      reads u
    {
      && u.interval == w.interval && u.callback == (u in c.live)
      && (if Turn(Waiting(u), true) in turns && u.repeat then u.fireTime == NextFire(w, now) > now else u.Key() == w.key)
    }

    ghost predicate Standing(was: map<Timer, Was>, c: Course, now: int, turns: seq<Turn>)
      reads was.Keys
    {
      forall u <- was.Keys :: StandsAs(u, was[u], c, now, turns)
    }

    /** The heap holds the timers that had no turn, and those that ran and repeat. */
    ghost predicate Members(pending: set<Timer>, start: set<Timer>, turns: seq<Turn>, added: seq<Timer>) {
      && (forall x <- pending :: x in start || x in added)
      && (forall x <- start :: x in pending <==> !HadTurn(turns, Waiting(x)) || (Turn(Waiting(x), true) in turns && x.repeat))
      && (forall k :: 0 <= k < |added| ==> (added[k] in pending <==> !HadTurn(turns, Added(k))))
    }

    /** What does not change amid a tick. */
    ghost predicate Given(was: map<Timer, Was>, start: set<Timer>, live: set<Timer>, env: seq<seq<Effect>>, now: int, base: nat) {
      && start <= was.Keys && live <= was.Keys && (forall u <- start :: was[u].key.addseq < base)
      && (forall u <- start :: u.repeat ==> was[u].interval >= MIN_TIMER_INTERVAL)
      && forall e <- env :: CancelsWithin(e, was.Keys) && RepeatsLater(e, now)
    }

    /** Everything a tick has settled: its turns so far, what became of the timers, and what the heap holds. */
    ghost predicate Amid(was: map<Timer, Was>, start: set<Timer>, live: set<Timer>, env: seq<seq<Effect>>, now: int, base: nat,
                         turns: seq<Turn>, added: seq<Timer>)
      reads this`nextAddSeq, heap, was.Keys, added
    {
      var c := CourseOf(live, env, turns);
      && History(was, start, live, env, now, turns) && AllRepeatLater(c.armed, now) && c.live <= live
      && Standing(was, c, now, turns) && Fulfils(added, c.armed) && Outside(added, was.Keys)
      && base <= nextAddSeq && Numbered(added, base, nextAddSeq) && Members(Pending(), start, turns, added)
    }

    /** Whose turn it is when a timer is popped. */
    ghost function WhoIs(t: Timer, start: set<Timer>, added: seq<Timer>): Who
      requires t in start || t in added
    {
      if t in start then Waiting(t)
      else
        var k: nat :| k < |added| && added[k] == t;
        Added(k)
    }

    ghost predicate IsFor(t: Timer, who: Who, start: set<Timer>, added: seq<Timer>) {
      match who
      case Waiting(u) => u == t && t in start
      case Added(k) => k < |added| && added[k] == t
    }

    /** A timer that is in the heap and due had no turn, and is as the course has it. */
    lemma DueIsPending(was: map<Timer, Was>, start: set<Timer>, live: set<Timer>, env: seq<seq<Effect>>, now: int, base: nat,
                       turns: seq<Turn>, added: seq<Timer>, who: Who, t: Timer)
      requires Given(was, start, live, env, now, base) && Amid(was, start, live, env, now, base, turns, added)
      requires t in Pending() && t.fireTime <= now && IsFor(t, who, start, added)
      ensures var c := CourseOf(live, env, turns);
              && Pends(start, c, turns, who) && FireTime(was, c, who) == t.fireTime && t.callback == HasCallback(c, who)
              && (t.repeat ==> who.Waiting? && t.interval >= MIN_TIMER_INTERVAL)
              && (who.Waiting? ==> t.Key() == was[t].key)
    {
      hide History, CourseOf, HadTurn, Numbered, NextFire;
      var c := CourseOf(live, env, turns);
      match who {
        case Waiting(u) =>
          assert StandsAs(t, was[t], c, now, turns);
        case Added(k) =>
          assert Meets(added[k], c.armed[k]) && c.armed[k] in c.armed;
      }
    }

    /** A timer that had no turn is in the heap, as the course has it. */
    lemma PendingIsThere(was: map<Timer, Was>, start: set<Timer>, live: set<Timer>, env: seq<seq<Effect>>, now: int, base: nat,
                         turns: seq<Turn>, added: seq<Timer>, who: Who) returns (t: Timer)
      requires Given(was, start, live, env, now, base) && Amid(was, start, live, env, now, base, turns, added)
      requires Pends(start, CourseOf(live, env, turns), turns, who)
      ensures t in Pending() && IsFor(t, who, start, added) && FireTime(was, CourseOf(live, env, turns), who) == t.fireTime
      ensures who.Waiting? ==> t.Key() == was[t].key
    {
      hide History, CourseOf, Numbered, NextFire;
      var c := CourseOf(live, env, turns);
      match who {
        case Waiting(u) =>
          t := u;
          assert StandsAs(t, was[t], c, now, turns);
          assert Turn(Waiting(t), true) in turns ==> HadTurn(turns, Waiting(t));
        case Added(k) =>
          t := added[k];
          assert Meets(added[k], c.armed[k]);
      }
    }

    /** A timer with a smaller key is before the other in the course. */
    lemma LessIsBefore(was: map<Timer, Was>, start: set<Timer>, live: set<Timer>, env: seq<seq<Effect>>, now: int, base: nat,
                       c: Course, added: seq<Timer>, who: Who, t: Timer, other: Who, u: Timer)
      requires Given(was, start, live, env, now, base) && Numbered(added, base, nextAddSeq) && Less(t.Key(), u.Key())
      requires IsFor(t, who, start, added) && IsFor(u, other, start, added)
      requires FireTime(was, c, who) == t.fireTime && FireTime(was, c, other) == u.fireTime
      requires (who.Waiting? ==> t.Key() == was[t].key) && (other.Waiting? ==> u.Key() == was[u].key)
      ensures Before(was, c, who, other)
    {
      hide FireTime;
      if who.Added? && other.Added? && who.k >= other.k {
        assert who.k == other.k || added[other.k].addseq < added[who.k].addseq;
      }
    }

    /** The timer at the root, being due, has the next turn. */
    lemma RootComesNext(was: map<Timer, Was>, start: set<Timer>, live: set<Timer>, env: seq<seq<Effect>>, now: int, base: nat,
                        turns: seq<Turn>, added: seq<Timer>, who: Who, t: Timer)
      requires Given(was, start, live, env, now, base) && Amid(was, start, live, env, now, base, turns, added)
      requires t in Pending() && t.fireTime <= now && IsFor(t, who, start, added)
      requires forall u <- heap.timers :: u != t ==> Less(t.Key(), u.Key())
      ensures ComesNext(was, start, live, env, now, turns, Turn(who, t.callback))
    {
      var c := CourseOf(live, env, turns);
      DueIsPending(was, start, live, env, now, base, turns, added, who, t);
      forall x | x in Known(start, c) && Pends(start, c, turns, x) && x != who ensures Before(was, c, who, x) {
        var u := PendingIsThere(was, start, live, env, now, base, turns, added, x);
        OneWhoEach(was, start, added, who, x, t, u);
        LessIsBefore(was, start, live, env, now, base, c, added, who, t, x, u);
      }
      hide Amid, Given, CourseOf, Known, HadTurn, FireTime, Before, HasCallback;
    }

    lemma OneWhoEach(was: map<Timer, Was>, start: set<Timer>, added: seq<Timer>, who: Who, x: Who, t: Timer, u: Timer)
      requires NoRepeats(added) && Outside(added, was.Keys) && start <= was.Keys
      requires IsFor(t, who, start, added) && IsFor(u, x, start, added) && who != x
      ensures t != u
    {
    }

    /** Takes the timer from the heap whose turn it is. */
    method PopDue(now: int, ghost env: seq<seq<Effect>>, ghost turns: seq<Turn>, ghost added: seq<Timer>, ghost was: map<Timer, Was>,
                  ghost start: set<Timer>, ghost live: set<Timer>, ghost base: nat) returns (t: Timer, ghost who: Who)
      requires Valid() && heap.timers != [] && heap.timers[0].fireTime <= now
      requires Given(was, start, live, env, now, base) && Amid(was, start, live, env, now, base, turns, added)
      modifies heap
      ensures Valid() && t !in Pending() && old(Pending()) == Pending() + {t} && t.fireTime <= now
      ensures IsFor(t, who, start, added) && ComesNext(was, start, live, env, now, turns, Turn(who, t.callback))
      ensures t.repeat ==> who.Waiting? && t.interval >= MIN_TIMER_INTERVAL
      ensures who.Waiting? ==> t.Key() == was[t].key
    {
      ghost var root := heap.timers[0];
      assert root in heap.timers;
      forall u | u in heap.timers && u != root ensures Less(root.Key(), u.Key()) {
        Earliest(u);
      }
      assert root in start || root in added by {
        assert Members(Pending(), start, turns, added);
      }
      who := WhoIs(root, start, added);
      RootComesNext(was, start, live, env, now, base, turns, added, who, root);
      DueIsPending(was, start, live, env, now, base, turns, added, who, root);
      hide Amid, Given, ComesNext, HasCallback, Pends;
      t := PopEarliest();
    }

    /** A timer that does not repeat loses its callback before it runs. */
    method TakeCallback(t: Timer, ghost added: seq<Timer>, ghost who: Who, ghost c: Course, ghost start: set<Timer>, ghost universe: set<Timer>)
      requires Valid() && Fulfils(added, c.armed) && Outside(added, universe)
      requires IsFor(t, who, start, added) && start <= universe && (t.repeat ==> who.Waiting?)
      modifies t`callback
      ensures Valid() && Fulfils(added, RunOut(c, who).armed)
      ensures forall u <- universe :: u.callback == (old(u.callback) && !(u == t && !t.repeat))
    {
      if !t.repeat {
        t.callback := false;
        assert Keys(heap.timers) == old(Keys(heap.timers));
      }
      assert forall k :: 0 <= k < |added| ==> old(Meets(added[k], c.armed[k]));
    }

    /** The timer's callback runs. */
    method RunUnlocked(t: Timer, effects: seq<Effect>, added: seq<Timer>, ghost who: Who, ghost c: Course, ghost start: set<Timer>,
                       ghost universe: set<Timer>, ghost base: nat) returns (all: seq<Timer>)
      requires Valid() && CancelsWithin(effects, universe) && Fulfils(added, c.armed) && Outside(added, universe)
      requires IsFor(t, who, start, added) && start <= universe && (t.repeat ==> who.Waiting?)
      requires base <= nextAddSeq && Numbered(added, base, nextAddSeq)
      modifies this`nextAddSeq, heap, universe`callback, added`callback
      ensures Valid() && nextAddSeq >= old(nextAddSeq) && Numbered(all, base, nextAddSeq)
      ensures added <= all && (forall k :: |added| <= k < |all| ==> fresh(all[k]))
      ensures Fulfils(all, ArmedBy(RunOut(c, who).armed, effects))
      ensures Pending() == old(Pending()) + (set x <- all[|added|..])
      ensures forall u <- universe :: u.callback == (old(u.callback) && !(u == t && !t.repeat) && CancelTimer(u) !in effects)
    {
      hide Timers.Valid, Fulfils, RunOut, ArmedBy, Numbered;
      assert t in universe || t in added;
      TakeCallback(t, added, who, c, start, universe);
      all := RunCallback(effects, added, RunOut(c, who).armed, universe, base);
    }

    /** Runs the callback of a timer taken from the heap, and puts a repeating timer back. */
    method Fire(t: Timer, now: int, env: seq<seq<Effect>>, ran: nat, ghost turns: seq<Turn>, added: seq<Timer>, ghost who: Who,
                ghost was: map<Timer, Was>, ghost start: set<Timer>, ghost live: set<Timer>, ghost base: nat) returns (all: seq<Timer>)
      requires Given(was, start, live, env, now, base) && ran == CourseOf(live, env, turns).ran
      requires Valid() && t !in Pending() && t.callback && IsFor(t, who, start, added)
      requires (t.repeat ==> who.Waiting? && t.interval >= MIN_TIMER_INTERVAL) && (who.Waiting? ==> t.Key() == was[t].key)
      requires Standing(was, CourseOf(live, env, turns), now, turns) && Fulfils(added, CourseOf(live, env, turns).armed)
      requires Outside(added, was.Keys) && base <= nextAddSeq && Numbered(added, base, nextAddSeq)
      modifies this`nextAddSeq, heap, was.Keys, added`callback
      ensures var next := turns + [Turn(who, true)];
              var d := CourseOf(live, env, next);
              d.ran == ran + 1 && Valid() && Standing(was, d, now, next) && Fulfils(all, d.armed)
      ensures base <= nextAddSeq && Numbered(all, base, nextAddSeq)
      ensures added <= all && (forall k :: |added| <= k < |all| ==> fresh(all[k]) && all[k] !in old(Pending()) + {t})
      ensures Pending() == old(Pending()) + (set x <- all[|added|..]) + (if t.repeat then {t} else {})
    {
      ghost var c := CourseOf(live, env, turns);
      ghost var next := turns + [Turn(who, true)];
      TurnNext(live, env, turns, Turn(who, true));
      hide Timers.Valid, Fulfils, ArmedBy, Numbered, CourseOf, HadTurn;
      var effects := if ran < |env| then env[ran] else [];
      all := RunUnlocked(t, effects, added, who, c, start, was.Keys, base);
      if t.repeat {
        forall k | 0 <= k < |all| ensures all[k] != t {
          assert k < |added| ==> added[k] in added && all[k] == added[k];
        }
        ghost var numbered := nextAddSeq;
        Rearm(t, now);
        NumberedWider(all, base, numbered, nextAddSeq);
      }
      forall u | u in was.Keys ensures StandsAs(u, was[u], CourseOf(live, env, next), now, next) {
        assert old(StandsAs(u, was[u], c, now, turns));
      }
    }

    /** A turn in which nothing runs. */
    lemma SkipKeeps(was: map<Timer, Was>, c: Course, now: int, turns: seq<Turn>, who: Who)
      requires Standing(was, c, now, turns)
      ensures Standing(was, c, now, turns + [Turn(who, false)])
    {
      forall u | u in was.Keys ensures StandsAs(u, was[u], c, now, turns + [Turn(who, false)]) {
        assert StandsAs(u, was[u], c, now, turns);
      }
    }

    lemma MembersSkipped(pending: set<Timer>, start: set<Timer>, turns: seq<Turn>, added: seq<Timer>, who: Who, t: Timer)
      requires Members(pending + {t}, start, turns, added) && t !in pending && IsFor(t, who, start, added) && !HadTurn(turns, who)
      requires NoRepeats(added) && Outside(added, start)
      ensures Members(pending, start, turns + [Turn(who, false)], added)
    {
      TurnNext({}, [], turns, Turn(who, false));
      assert who.Waiting? ==> Turn(who, true) in turns ==> HadTurn(turns, who);
      hide HadTurn;
    }

    lemma MembersRan(pending: set<Timer>, start: set<Timer>, turns: seq<Turn>, added: seq<Timer>, who: Who, t: Timer, all: seq<Timer>)
      requires Members(pending + {t}, start, turns, added) && t !in pending && IsFor(t, who, start, added) && !HadTurn(turns, who)
      requires NoRepeats(all) && Outside(all, start) && added <= all && (t.repeat ==> who.Waiting?)
      requires forall k :: |added| <= k < |all| ==> !HadTurn(turns, Added(k)) && all[k] !in pending + {t}
      ensures Members(pending + (set x <- all[|added|..]) + (if t.repeat then {t} else {}), start, turns + [Turn(who, true)], all)
    {
      TurnNext({}, [], turns, Turn(who, true));
      assert forall k :: 0 <= k < |added| ==> all[k] == added[k];
      assert forall k :: |added| <= k < |all| ==> all[|added|..][k - |added|] == all[k];
      hide HadTurn;
    }

    /** The next turn: the earliest timer, which is due, is taken from the heap, and runs if it has a callback. */
    method TakeTurn(now: int, env: seq<seq<Effect>>, ran: nat, ghost turns: seq<Turn>, added: seq<Timer>, ghost was: map<Timer, Was>,
                    ghost start: set<Timer>, ghost live: set<Timer>, ghost base: nat)
        returns (ran': nat, all: seq<Timer>, ghost turn: Turn)
      requires Valid() && heap.timers != [] && heap.timers[0].fireTime <= now && ran == CourseOf(live, env, turns).ran
      requires Given(was, start, live, env, now, base) && Amid(was, start, live, env, now, base, turns, added)
      modifies this`nextAddSeq, heap, was.Keys, added`callback
      ensures Valid() && ran' == CourseOf(live, env, turns + [turn]).ran
      ensures ComesNext(was, start, live, env, now, turns, turn) && Amid(was, start, live, env, now, base, turns + [turn], all)
      ensures added <= all && forall k :: |added| <= k < |all| ==> fresh(all[k])
    {
      hide *;
      ghost var c := CourseOf(live, env, turns);
      AmidMeans(was, start, live, env, now, base, turns, added);
      OutsideStart(added, was.Keys, start);
      var t;
      ghost var who;
      t, who := PopDue(now, env, turns, added, was, start, live, base);
      turn := Turn(who, t.callback);
      NextPends(was, start, live, env, now, turns, turn);
      TurnNext(live, env, turns, turn);
      TurnRepeatsLater(c, env, turn, now);
      TurnGrows(c, env, turn);
      HistoryNext(was, start, live, env, now, turns, turn);
      if t.callback {
        ghost var pending := Pending();
        all := Fire(t, now, env, ran, turns, added, who, was, start, live, base);
        ran' := ran + 1;
        AllOutside(added, all, was.Keys, start, CourseOf(live, env, turns + [turn]).armed);
        RanKeepsMembers(was, start, live, env, now, turns, added, who, t, all, pending);
      } else {
        SkipKeeps(was, c, now, turns, who);
        NothingRan(c, env, turn);
        MembersSkipped(Pending(), start, turns, added, who, t);
        ran', all := ran, added;
      }
      AmidNow(was, start, live, env, now, base, turns + [turn], all);
    }

    lemma OutsideStart(ts: seq<Timer>, universe: set<Timer>, start: set<Timer>)
      requires Outside(ts, universe) && start <= universe
      ensures Outside(ts, start)
    {
    }

    lemma NothingRan(c: Course, env: seq<seq<Effect>>, turn: Turn)
      ensures !turn.runs ==> AfterTurn(c, env, turn) == c
    {
    }

    /** What was added in the turn is new, too. */
    lemma AllOutside(added: seq<Timer>, all: seq<Timer>, universe: set<Timer>, start: set<Timer>, armed: seq<Armed>)
      requires Outside(added, universe) && start <= universe && added <= all && Fulfils(all, armed)
      requires forall k :: |added| <= k < |all| ==> all[k] !in universe
      ensures Outside(all, universe) && Outside(all, start) && NoRepeats(all)
    {
    }

    lemma AmidMeans(was: map<Timer, Was>, start: set<Timer>, live: set<Timer>, env: seq<seq<Effect>>, now: int, base: nat,
                    turns: seq<Turn>, added: seq<Timer>)
      requires Given(was, start, live, env, now, base) && Amid(was, start, live, env, now, base, turns, added)
      ensures var c := CourseOf(live, env, turns);
              && History(was, start, live, env, now, turns) && AllRepeatLater(c.armed, now) && c.live <= live
              && Standing(was, c, now, turns) && Fulfils(added, c.armed) && |added| == |c.armed| && NoRepeats(added)
              && Outside(added, was.Keys) && base <= nextAddSeq && Numbered(added, base, nextAddSeq)
              && Members(Pending(), start, turns, added)
              && start <= was.Keys && forall e <- env :: RepeatsLater(e, now)
    {
      hide CourseOf;
    }

    lemma AmidNow(was: map<Timer, Was>, start: set<Timer>, live: set<Timer>, env: seq<seq<Effect>>, now: int, base: nat,
                  turns: seq<Turn>, added: seq<Timer>)
      requires var c := CourseOf(live, env, turns);
               && History(was, start, live, env, now, turns) && AllRepeatLater(c.armed, now) && c.live <= live
               && Standing(was, c, now, turns) && Fulfils(added, c.armed)
               && Outside(added, was.Keys) && base <= nextAddSeq && Numbered(added, base, nextAddSeq)
               && Members(Pending(), start, turns, added)
      ensures Amid(was, start, live, env, now, base, turns, added)
    {
    }

    lemma RanKeepsMembers(was: map<Timer, Was>, start: set<Timer>, live: set<Timer>, env: seq<seq<Effect>>, now: int,
                          turns: seq<Turn>, added: seq<Timer>, who: Who, t: Timer, all: seq<Timer>, pending: set<Timer>)
      requires History(was, start, live, env, now, turns) && |added| == |CourseOf(live, env, turns).armed|
      requires Members(pending + {t}, start, turns, added) && t !in pending && IsFor(t, who, start, added) && !HadTurn(turns, who)
      requires NoRepeats(all) && Outside(all, start) && added <= all && (t.repeat ==> who.Waiting?)
      requires forall k :: |added| <= k < |all| ==> all[k] !in pending + {t}
      ensures Members(pending + (set x <- all[|added|..]) + (if t.repeat then {t} else {}), start, turns + [Turn(who, true)], all)
    {
      forall k | |added| <= k < |all| ensures !HadTurn(turns, Added(k)) {
        LaterHadNoTurn(was, start, live, env, now, turns, k);
      }
      MembersRan(pending, start, turns, added, who, t, all);
    }

    /** With nothing due in the heap the course is settled. */
    lemma NothingPends(was: map<Timer, Was>, start: set<Timer>, live: set<Timer>, env: seq<seq<Effect>>, now: int, base: nat,
                       turns: seq<Turn>, added: seq<Timer>)
      requires Given(was, start, live, env, now, base) && Amid(was, start, live, env, now, base, turns, added)
      requires forall t <- heap.timers :: t.fireTime > now
      ensures Settled(was, start, live, env, now, turns)
    {
      var c := CourseOf(live, env, turns);
      forall x | x in Known(start, c) && Pends(start, c, turns, x) ensures FireTime(was, c, x) > now {
        var t := PendingIsThere(was, start, live, env, now, base, turns, added, x);
      }
    }

    /** The loop of a tick. */
    method TakeTurns(now: int, env: seq<seq<Effect>>, ghost universe: set<Timer>) returns (ghost turns: seq<Turn>, added: seq<Timer>)
      requires Valid() && Pending() <= universe
      requires forall e <- env :: CancelsWithin(e, universe) && RepeatsLater(e, now)
      modifies this, heap, universe
      ensures Valid() && forall t <- heap.timers :: t.fireTime > now
      ensures Amid(old(Snapshot(universe)), old(Pending()), old(LiveOf(universe)), env, now, old(nextAddSeq), turns, added)
      ensures Settled(old(Snapshot(universe)), old(Pending()), old(LiveOf(universe)), env, now, turns)
      ensures Given(old(Snapshot(universe)), old(Pending()), old(LiveOf(universe)), env, now, old(nextAddSeq))
      ensures forall x <- added :: fresh(x)
    {
      ghost var was, start, live, base := Snapshot(universe), Pending(), LiveOf(universe), nextAddSeq;
      TickBegins(was, start, live, env, now, base, universe);
      hide Timers.Valid, Amid, Given, CourseOf, Known, HadTurn, ComesNext, Settled, Snapshot, Pending, LiveOf;
      turns, added := [], [];
      var ran := 0;
      while true
        invariant Valid() && Given(was, start, live, env, now, base) && Amid(was, start, live, env, now, base, turns, added)
        invariant ran == CourseOf(live, env, turns).ran
        invariant forall k :: 0 <= k < |added| ==> fresh(added[k])
        decreases Doing(env, CourseOf(live, env, turns)), Left(start, CourseOf(live, env, turns), turns)
      {
        if heap.timers == [] || heap.timers[0].fireTime > now {
          break;
        }
        ghost var turn;
        ran, added, turn := TakeTurn(now, env, ran, turns, added, was, start, live, base);
        NextPends(was, start, live, env, now, turns, turn);
        TurnUses(start, live, env, turns, turn);
        turns := turns + [turn];
      }
      NothingDue(now);
      NothingPends(was, start, live, env, now, base, turns, added);
    }

    /** What became of a timer that waited when the tick began. */
    ghost predicate BecameOf(was: map<Timer, Was>, now: int, turns: seq<Turn>, t: Timer)
      requires t in was
      reads heap, t
    {
      if Turn(Waiting(t), true) in turns && t.repeat
      then t in Pending() && t.fireTime == if was[t].key.fireTime + was[t].interval > now then was[t].key.fireTime + was[t].interval
                                           else now + was[t].interval
      else t.fireTime == was[t].key.fireTime && (t in Pending() <==> !HadTurn(turns, Waiting(t)))
           && (Turn(Waiting(t), true) in turns ==> !t.callback)
    }

    lemma WaitedBecame(was: map<Timer, Was>, start: set<Timer>, live: set<Timer>, env: seq<seq<Effect>>, now: int, base: nat,
                       turns: seq<Turn>, added: seq<Timer>, t: Timer)
      requires Given(was, start, live, env, now, base) && Amid(was, start, live, env, now, base, turns, added) && t in start
      ensures BecameOf(was, now, turns, t)
    {
      hide History, CourseOf, Numbered;
      assert StandsAs(t, was[t], CourseOf(live, env, turns), now, turns);
      if Turn(Waiting(t), true) in turns && !t.repeat {
        SpentOnce(live, env, turns, t);
      }
    }

    /** One tick, whatever its callbacks do, as long as timers that repeat are not due when they are added. It ends, as only
        finitely many callbacks do something; its turns are the course that follows from what was due and from what the
        callbacks did; and it leaves a heap with nothing due. */
    method Tick(now: int, env: seq<seq<Effect>>, ghost universe: set<Timer>) returns (ghost turns: seq<Turn>, added: seq<Timer>)
      requires Valid() && Pending() <= universe
      requires forall e <- env :: CancelsWithin(e, universe) && RepeatsLater(e, now)
      modifies this, heap, universe
      ensures Valid() && forall t <- heap.timers :: t.fireTime > now
      ensures Amid(old(Snapshot(universe)), old(Pending()), old(LiveOf(universe)), env, now, old(nextAddSeq), turns, added)
      ensures Settled(old(Snapshot(universe)), old(Pending()), old(LiveOf(universe)), env, now, turns)
      ensures forall x <- added :: fresh(x)
      ensures forall t <- old(Pending()) ::
                if Turn(Waiting(t), true) in turns && t.repeat
                then t in Pending() && t.fireTime == if old(t.fireTime) + old(t.interval) > now then old(t.fireTime) + old(t.interval)
                                                     else now + old(t.interval)
                else t.fireTime == old(t.fireTime) && (t in Pending() <==> !HadTurn(turns, Waiting(t)))
                     && (Turn(Waiting(t), true) in turns ==> !t.callback)
    {
      hide Timers.Valid, Amid, Given, Settled, LiveOf, HadTurn;
      ghost var was, start, live, base := Snapshot(universe), Pending(), LiveOf(universe), nextAddSeq;
      turns, added := TakeTurns(now, env, universe);
      forall t | t in start ensures t in was && BecameOf(was, now, turns, t) {
        WaitedBecame(was, start, live, env, now, base, turns, added, t);
      }
    }

    ghost function LiveOf(universe: set<Timer>): set<Timer>
      reads universe
    {
      set u <- universe | u.callback
    }

    lemma NextPends(was: map<Timer, Was>, start: set<Timer>, live: set<Timer>, env: seq<seq<Effect>>, now: int, turns: seq<Turn>, turn: Turn)
      requires ComesNext(was, start, live, env, now, turns, turn)
      ensures Pends(start, CourseOf(live, env, turns), turns, turn.who) && !HadTurn(turns, turn.who)
    {
      hide CourseOf, Known, HadTurn;
    }

    lemma TickBegins(was: map<Timer, Was>, start: set<Timer>, live: set<Timer>, env: seq<seq<Effect>>, now: int, base: nat, universe: set<Timer>)
      requires Valid() && start == Pending() <= universe && was == Snapshot(universe) && live == LiveOf(universe) && base == nextAddSeq
      requires forall e <- env :: CancelsWithin(e, universe) && RepeatsLater(e, now)
      ensures Given(was, start, live, env, now, base) && Amid(was, start, live, env, now, base, [], []) && was.Keys == universe
      ensures CourseOf(live, env, []).ran == 0
    {
    }
  }
}
