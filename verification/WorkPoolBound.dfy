/** How many items a pool can discover beyond the limit of its query. */
module WorkPoolBound {
  import opened SearchIterator
  import opened WorkPool

  /** The items counted by the iterators that are not in `seen`. */
  ghost function Unread(its: seq<Iterator>, seen: set<nat>): nat {
    if its == [] then 0
    else Unread(its[..|its| - 1], seen) + (if |its| - 1 in seen then 0 else its[|its| - 1].discovered)
  }

  ghost function Total(its: seq<Iterator>): nat {
    Unread(its, {})
  }

  lemma {:induction false} UnreadRead(its: seq<Iterator>, seen: set<nat>, i: nat)
    requires i < |its| && i !in seen
    ensures Unread(its, seen + {i}) + its[i].discovered == Unread(its, seen)
  {
    var n := |its| - 1;
    if i == n {
      UnreadOutside(its[..n], seen, i);
    } else {
      UnreadRead(its[..n], seen, i);
    }
  }

  lemma {:induction false} UnreadOutside(its: seq<Iterator>, seen: set<nat>, i: nat)
    requires i >= |its|
    ensures Unread(its, seen + {i}) == Unread(its, seen)
  {
    if its != [] {
      UnreadOutside(its[..|its| - 1], seen, i);
    }
  }

  lemma {:induction false} UnreadAll(its: seq<Iterator>, seen: set<nat>)
    requires forall i: nat :: i < |its| ==> i in seen
    ensures Unread(its, seen) == 0
  {
    if its != [] {
      UnreadAll(its[..|its| - 1], seen);
    }
  }

  /** Counting n more items of one iterator. */
  lemma {:induction false} UnreadUpdate(its: seq<Iterator>, seen: set<nat>, i: nat, it: Iterator)
    requires i < |its|
    ensures Unread(its[i := it], seen) == Unread(its, seen) + (if i in seen then 0 else it.discovered - its[i].discovered)
  {
    var n := |its| - 1;
    if i == n {
      assert its[i := it][..n] == its[..n];
    } else {
      assert its[i := it][..n] == its[..n][i := it];
      UnreadUpdate(its[..n], seen, i, it);
    }
  }

  /** A worker that may still count the items of a search: it will not learn, from the counters as they
      are, that the limit was reached. */
  ghost predicate InFlight(w: Worker, its: seq<Iterator>, limit: nat) {
    match w
    case Checking(_, scan) => scan.total + Unread(its, scan.seen) < limit
    case CheckingIterator(_) => true
    case Searching(_) => true
    case Saving(_, _, _) => true
    case Updating(_, _) => true
    case _ => false
  }

  ghost function Flying(ws: seq<Worker>, its: seq<Iterator>, limit: nat): nat {
    if ws == [] then 0
    else Flying(ws[..|ws| - 1], its, limit) + (if InFlight(ws[|ws| - 1], its, limit) then 1 else 0)
  }

  lemma {:induction false} FlyingUpdate(ws: seq<Worker>, its: seq<Iterator>, limit: nat, k: nat, w: Worker)
    requires k < |ws|
    ensures Flying(ws[k := w], its, limit) + (if InFlight(ws[k], its, limit) then 1 else 0)
         == Flying(ws, its, limit) + (if InFlight(w, its, limit) then 1 else 0)
  {
    var n := |ws| - 1;
    if k == n {
      assert ws[k := w][..n] == ws[..n];
    } else {
      assert ws[k := w][..n] == ws[..n][k := w];
      FlyingUpdate(ws[..n], its, limit, k, w);
    }
  }

  lemma {:induction false} FlyingAtMost(ws: seq<Worker>, its: seq<Iterator>, limit: nat)
    ensures Flying(ws, its, limit) <= |ws|
  {
    if ws != [] {
      FlyingAtMost(ws[..|ws| - 1], its, limit);
    }
  }

  /** Counting more items grounds workers, it never sends one flying. */
  lemma {:induction false} FlyingShrinks(ws: seq<Worker>, its: seq<Iterator>, limit: nat, i: nat, it: Iterator)
    requires i < |its| && it.discovered >= its[i].discovered
    ensures Flying(ws, its[i := it], limit) <= Flying(ws, its, limit)
  {
    if ws != [] {
      FlyingShrinks(ws[..|ws| - 1], its, limit, i, it);
      var w := ws[|ws| - 1];
      if w.Checking? {
        UnreadUpdate(its, w.scan.seen, i, it);
      }
    }
  }

  lemma {:induction false} FlyingSame(ws: seq<Worker>, its: seq<Iterator>, limit: nat, i: nat, it: Iterator)
    requires i < |its| && it.discovered == its[i].discovered
    ensures Flying(ws, its[i := it], limit) == Flying(ws, its, limit)
  {
    if ws != [] {
      FlyingSame(ws[..|ws| - 1], its, limit, i, it);
      var w := ws[|ws| - 1];
      if w.Checking? {
        UnreadUpdate(its, w.scan.seen, i, it);
      }
    }
  }

  ghost predicate WorkerBounded(w: Worker, limit: nat) {
    && (w.Checking? ==> w.scan.total < limit)
    && (w.Saving? || w.Updating? ==> |w.batch| <= limit)
  }

  /** Either the limit is not reached yet, or what is counted together with what may still be counted
      stays below the bound. */
  ghost predicate Bounded(c: Config, s: State) {
    && |s.workers| == c.workerCount
    && (forall w <- s.workers :: WorkerBounded(w, c.limit))
    && (Total(s.iterators) < c.limit
        || Total(s.iterators) + c.limit * Flying(s.workers, s.iterators, c.limit) < (c.workerCount + 1) * c.limit)
  }

  /** The worker moved without counting anything, and is in flight only if it was before or the limit is not reached. */
  lemma MoveKeepsBounded(c: Config, s: State, k: nat, w: Worker, t: State)
    requires c.limit > 0 && Bounded(c, s) && k < |s.workers| && WorkerBounded(w, c.limit)
    requires t.workers == s.workers[k := w] && t.iterators == s.iterators
    requires InFlight(w, s.iterators, c.limit) ==> InFlight(s.workers[k], s.iterators, c.limit) || Total(s.iterators) < c.limit
    ensures Bounded(c, t)
  {
    FlyingUpdate(s.workers, s.iterators, c.limit, k, w);
    var f, f' := Flying(s.workers, s.iterators, c.limit), Flying(t.workers, s.iterators, c.limit);
    if Total(s.iterators) >= c.limit {
      assert f' <= f;
      MulMonotone(c.limit, f', f);
    }
  }

  lemma MulMonotone(l: nat, a: nat, b: nat)
    requires a <= b
    ensures l * a <= l * b
  {
  }

  lemma ReadKeepsBounded(c: Config, s: State, k: nat, i: nat)
    requires c.limit > 0 && Bounded(c, s) && k < |s.workers| && Reads(c, s, k, i).Some?
    ensures Bounded(c, Reads(c, s, k, i).value)
  {
    hide Flying, Iterator.Complete;
    var t := Reads(c, s, k, i).value;
    assert WorkerBounded(s.workers[k], c.limit);
    UnreadRead(s.iterators, s.workers[k].scan.seen, i);
    MoveKeepsBounded(c, s, k, t.workers[k], t);
  }

  lemma DecideKeepsBounded(c: Config, s: State, k: nat)
    requires c.limit > 0 && Bounded(c, s) && k < |s.workers| && Decides(s, k).Some?
    ensures Bounded(c, Decides(s, k).value)
  {
    hide Flying;
    var t := Decides(s, k).value;
    assert WorkerBounded(s.workers[k], c.limit);
    UnreadAll(s.iterators, s.workers[k].scan.seen);
    MoveKeepsBounded(c, s, k, t.workers[k], t);
  }

  /** The steps that neither read nor count items. */
  lemma OtherKeepsBounded(c: Config, s: State, a: Action)
    requires c.limit > 0 && Bounded(c, s) && Next(c, s, a).Some?
    requires a.OfWorker() && !a.Read? && !a.Decide? && !a.Update?
    ensures Bounded(c, Next(c, s, a).value)
  {
    hide OtherStep, Flying, Unread, Iterator.Complete, Reads, Decides, Updates;
    var t := Next(c, s, a).value;
    assert WorkerBounded(s.workers[a.w], c.limit);
    if !t.panicked {
      MoveKeepsBounded(c, s, a.w, t.workers[a.w], t);
    }
  }

  /** A worker in flight counts at most l items and is in flight no more. */
  lemma Landing(l: nat, w: nat, total: nat, total': nat, f: nat, f': nat)
    requires total' <= total + l && f' + 1 <= f <= w
    requires total < l || total + l * f < (w + 1) * l
    ensures total' < l || total' + l * f' < (w + 1) * l
  {
    MulMonotone(l, f' + 1, f);
    MulMonotone(l, f' + 1, w);
    assert l * (f' + 1) == l * f' + l;
    assert (w + 1) * l == l * w + l;
  }

  lemma UpdateKeepsBounded(c: Config, s: State, k: nat)
    requires c.limit > 0 && Bounded(c, s) && k < |s.workers| && Updates(s, k).Some?
    ensures Bounded(c, Updates(s, k).value)
  {
    hide Flying, Unread;
    var t := Updates(s, k).value;
    var w := s.workers[k];
    assert WorkerBounded(w, c.limit);
    var i, l := w.job.index, c.limit;
    var it := t.iterators[i];
    UnreadUpdate(s.iterators, {}, i, it);
    FlyingShrinks(s.workers, s.iterators, l, i, it);
    FlyingUpdate(s.workers, t.iterators, l, k, t.workers[k]);
    FlyingAtMost(s.workers, s.iterators, l);
    Landing(l, c.workerCount, Total(s.iterators), Total(t.iterators),
            Flying(s.workers, s.iterators, l), Flying(t.workers, t.iterators, l));
  }

  lemma FeederDecideKeepsBounded(c: Config, s: State)
    requires c.limit > 0 && Bounded(c, s) && FeederDecides(s).Some?
    ensures Bounded(c, FeederDecides(s).value)
  {
    hide Flying, Unread, Iterator.Complete;
    if s.feeder.InnerChecking? && !s.feeder.scan.allComplete {
      var it := s.iterators[s.feeder.i].Stepped();
      FlyingSame(s.workers, s.iterators, c.limit, s.feeder.i, it);
      UnreadUpdate(s.iterators, {}, s.feeder.i, it);
    }
  }

  lemma NextKeepsBounded(c: Config, s: State, a: Action)
    requires c.limit > 0 && Bounded(c, s) && Next(c, s, a).Some?
    ensures Bounded(c, Next(c, s, a).value)
  {
    hide Flying, Unread, Iterator.Complete, Reads, Decides, Updates, FeederDecides;
    if a.Read? {
      ReadKeepsBounded(c, s, a.w, a.i);
    } else if a.Decide? {
      DecideKeepsBounded(c, s, a.w);
    } else if a.Update? {
      UpdateKeepsBounded(c, s, a.w);
    } else if a.FeederDecide? {
      FeederDecideKeepsBounded(c, s);
    } else if a.OfWorker() {
      OtherKeepsBounded(c, s, a);
    } else {
      assert Next(c, s, a).value.workers == s.workers && Next(c, s, a).value.iterators == s.iterators;
    }
  }

  lemma {:induction false} NothingYet(its: seq<Iterator>)
    requires forall it <- its :: it.discovered == 0
    ensures Total(its) == 0
  {
    if its != [] {
      NothingYet(its[..|its| - 1]);
    }
  }

  lemma {:induction false} RunKeepsBounded(c: Config, its: seq<Iterator>, schedule: seq<Action>)
    requires c.limit > 0 && forall it <- its :: it.discovered == 0
    requires Run(c, its, schedule).Some?
    ensures Bounded(c, Run(c, its, schedule).value)
  {
    hide Next, Flying, Unread;
    if schedule == [] {
      NothingYet(its);
    } else {
      var before := schedule[..|schedule| - 1];
      RunKeepsBounded(c, its, before);
      NextKeepsBounded(c, Run(c, its, before).value, schedule[|schedule| - 1]);
    }
  }

  lemma BoundedTotal(c: Config, s: State)
    requires c.limit > 0 && Bounded(c, s)
    ensures Total(s.iterators) <= (c.workerCount + 1) * c.limit - 1
  {
    hide Flying, Unread;
    MulMonotone(c.limit, 0, Flying(s.workers, s.iterators, c.limit));
    MulMonotone(c.limit, 1, c.workerCount + 1);
  }

  /** With a limit L and W workers, no schedule discovers more than (W + 1) * L - 1 items. */
  lemma DiscoveredBound(c: Config, its: seq<Iterator>, schedule: seq<Action>)
    requires c.limit > 0 && forall it <- its :: it.discovered == 0
    requires Run(c, its, schedule).Some?
    ensures Total(Run(c, its, schedule).value.iterators) <= (c.workerCount + 1) * c.limit - 1
  {
    RunKeepsBounded(c, its, schedule);
    BoundedTotal(c, Run(c, its, schedule).value);
  }
}
