/** The bound on what a pool discovers is reached: all workers may be searching when one item is missing. */
module WorkPoolExact {
  import opened Options
  import opened SearchIterator
  import opened Sequences
  import opened WorkPool
  import opened WorkPoolBound

  /** One search without range fields or a page limit. */
  const ENDLESS: seq<Iterator> := [Fresh(map[], 0, 0, false)]

  ghost predicate Reachable(c: Config, s: State) {
    exists schedule :: Run(c, ENDLESS, schedule) == Some(s)
  }

  lemma Go(c: Config, s: State, a: Action) returns (t: State)
    requires Reachable(c, s) && Next(c, s, a).Some?
    ensures t == Next(c, s, a).value && Reachable(c, t)
  {
    hide Next;
    var schedule :| Run(c, ENDLESS, schedule) == Some(s);
    t := Next(c, s, a).value;
    assert (schedule + [a])[..|schedule|] == schedule;
    assert Run(c, ENDLESS, schedule + [a]) == Some(t);
  }

  /** Nothing is closed, the search has found d items, and it goes on for ever. */
  ghost predicate Open(c: Config, s: State, d: nat) {
    && !s.panicked && !s.workClosed && !s.resultsClosed && |s.workers| == c.workerCount
    && |s.iterators| == 1 && s.iterators[0].discovered == d
    && s.iterators[0].fields == map[] && s.iterators[0].pageCount == 0 && !s.iterators[0].stopOnStale
  }

  /** And the feeder is about to start a round, with no job waiting. */
  ghost predicate Calm(c: Config, s: State, d: nat) {
    Open(c, s, d) && s.feeder == Outer(START) && s.work == []
  }

  lemma TotalOfOne(its: seq<Iterator>)
    requires |its| == 1
    ensures Total(its) == its[0].discovered
  {
    assert Unread(its[..0], {}) == 0;
  }

  lemma OneIterator()
    ensures Below(1) == {0}
  {
    assert Below(1) == Below(0) + {0};
  }

  /** A round of the feeder's checks. */
  lemma StartRound(c: Config, s: State, d: nat) returns (t: State)
    requires Reachable(c, s) && Calm(c, s, d) && d < c.limit && c.workerCount > 0
    ensures Reachable(c, t) && Open(c, t, d) && t.feeder == InnerChecking({}, 0, START)
    ensures t == s.(feeder := t.feeder)
  {
    hide Reachable, WorkerStep;
    OneIterator();
    t := Go(c, s, FeederRead(0));
    t := Go(c, t, FeederDecide);
    t := Go(c, t, FeederPick(0));
    assert {0} - {0} == {};
  }

  /** The feeder sends one more job. */
  lemma Feed(c: Config, s: State, d: nat) returns (t: State)
    requires Reachable(c, s) && Calm(c, s, d) && d < c.limit && c.workerCount > 0
    ensures Reachable(c, t) && Open(c, t, d) && t.feeder == Outer(START)
    ensures t.workers == s.workers && t.results == s.results && |t.work| == 1 && t.work[0].index == 0
  {
    hide Reachable, WorkerStep;
    OneIterator();
    t := StartRound(c, s, d);
    t := Go(c, t, FeederRead(0));
    t := Go(c, t, FeederDecide);
    t := Go(c, t, FeederSend);
    t := Go(c, t, FeederRoundOver);
  }

  /** With an item missing, a worker that checks its job starts to search. */
  lemma Check(c: Config, s: State, d: nat, w: nat) returns (t: State)
    requires Reachable(c, s) && Calm(c, s, d) && d < c.limit && w < c.workerCount
    requires s.workers[w].Checking? && s.workers[w].scan == START && s.workers[w].job.index == 0
    ensures Reachable(c, t) && Calm(c, t, d) && t.results == s.results
    ensures t.workers == s.workers[w := Searching(s.workers[w].job)]
  {
    hide Reachable, OtherStep;
    OneIterator();
    t := Go(c, s, Read(w, 0));
    t := Go(c, t, Decide(w));
    t := Go(c, t, CheckIterator(w));
  }

  /** A waiting worker takes a job and searches. */
  lemma Fly(c: Config, s: State, d: nat, w: nat) returns (t: State)
    requires Reachable(c, s) && Calm(c, s, d) && d < c.limit && w < c.workerCount && s.workers[w] == Waiting
    ensures Reachable(c, t) && Calm(c, t, d) && t.results == s.results
    ensures t.workers == s.workers[w := t.workers[w]] && t.workers[w].Searching? && t.workers[w].job.index == 0
  {
    hide Reachable, OtherStep;
    t := Feed(c, s, d);
    t := Go(c, t, Take(w));
    t := Check(c, t, d, w);
  }

  /** The items of a batch are stored one by one. */
  lemma {:induction false} SaveAll(c: Config, s: State, d: nat, w: nat) returns (t: State)
    requires Reachable(c, s) && Calm(c, s, d) && w < c.workerCount
    requires s.workers[w].Saving? && s.workers[w].saved <= |s.workers[w].batch|
    ensures Reachable(c, t) && Calm(c, t, d) && t.results == s.results
    ensures t.workers == s.workers[w := Updating(s.workers[w].job, s.workers[w].batch)]
    decreases |s.workers[w].batch| - s.workers[w].saved
  {
    hide Reachable, OtherStep;
    t := Go(c, s, Save(w));
    if s.workers[w].saved < |s.workers[w].batch| {
      t := SaveAll(c, t, d, w);
    }
  }

  /** A search finds n items, and they are counted. */
  lemma Land(c: Config, s: State, d: nat, w: nat, n: nat) returns (t: State)
    requires Reachable(c, s) && Calm(c, s, d) && w < c.workerCount && n <= c.limit
    requires s.workers[w].Searching? && s.workers[w].job.index == 0
    ensures Reachable(c, t) && Calm(c, t, d + n) && t.results == s.results
    ensures t.workers == s.workers[w := t.workers[w]] && (t.workers[w].Sending? || t.workers[w].CheckingAgain?)
    ensures t.workers[w].job.index == 0
  {
    hide Reachable, OtherStep;
    var batch := seq(n, k requires k >= 0 => Item(k, true));
    t := Go(c, s, Search(w, Some(batch)));
    t := SaveAll(c, t, d, w);
    t := Go(c, t, Update(w));
  }

  /** The worker sends its batch and waits for the next job. */
  lemma Return(c: Config, s: State, d: nat, w: nat) returns (t: State)
    requires Reachable(c, s) && Calm(c, s, d) && w < c.workerCount && |s.results| < c.workerCount
    requires (s.workers[w].Sending? || s.workers[w].CheckingAgain?) && s.workers[w].job.index == 0
    ensures Reachable(c, t) && Calm(c, t, d) && t.workers == s.workers[w := Waiting]
  {
    hide Reachable, OtherStep;
    t := s;
    if s.workers[w].Sending? {
      t := Go(c, s, Send(w));
    }
    t := Go(c, t, CheckAgain(w));
  }

  function Batches(n: nat, size: nat): nat {
    n * size
  }

  lemma NoBatch(size: nat)
    ensures Batches(0, size) == 0
  {
  }

  lemma OneBatchMore(n: nat, size: nat)
    ensures Batches(n + 1, size) == Batches(n, size) + size
  {
  }

  /** All workers search at once. */
  lemma AllFly(c: Config, s: State, d: nat) returns (t: State)
    requires Reachable(c, s) && Calm(c, s, d) && d < c.limit && forall w <- s.workers :: w == Waiting
    ensures Reachable(c, t) && Calm(c, t, d) && forall w <- t.workers :: w.Searching? && w.job.index == 0
  {
    hide Reachable, Next;
    t := s;
    assert forall j :: 0 <= j < c.workerCount ==> s.workers[j] in s.workers;
    for k := 0 to c.workerCount
      invariant Reachable(c, t) && Calm(c, t, d)
      invariant forall j :: 0 <= j < k ==> t.workers[j].Searching? && t.workers[j].job.index == 0
      invariant forall j :: k <= j < c.workerCount ==> t.workers[j] == Waiting
    {
      t := Fly(c, t, d, k);
    }
  }

  /** And each finds as many items as a search may. */
  lemma AllLand(c: Config, s: State, d: nat) returns (t: State)
    requires Reachable(c, s) && Calm(c, s, d) && forall w <- s.workers :: w.Searching? && w.job.index == 0
    ensures Reachable(c, t) && Calm(c, t, d + Batches(c.workerCount, c.limit))
  {
    hide Reachable, Next, Batches;
    t := s;
    NoBatch(c.limit);
    for k := 0 to c.workerCount
      invariant Reachable(c, t) && Calm(c, t, d + Batches(k, c.limit))
      invariant forall j :: k <= j < c.workerCount ==> t.workers[j].Searching? && t.workers[j].job.index == 0
    {
      t := Land(c, t, d + Batches(k, c.limit), k, c.limit);
      OneBatchMore(k, c.limit);
    }
  }

  lemma CalmAtFirst(c: Config)
    ensures Reachable(c, Initial(c, ENDLESS)) && Calm(c, Initial(c, ENDLESS), 0)
    ensures forall w <- Initial(c, ENDLESS).workers :: w == Waiting
  {
    assert Run(c, ENDLESS, []) == Some(Initial(c, ENDLESS));
  }

  /** For every limit and every number of workers some schedule discovers as many items as DiscoveredBound allows. */
  lemma BoundIsReached(c: Config)
    requires c.limit > 0 && c.workerCount > 0
    ensures exists schedule :: Run(c, ENDLESS, schedule).Some?
                               && Total(Run(c, ENDLESS, schedule).value.iterators) == (c.workerCount + 1) * c.limit - 1
  {
    hide Next;
    CalmAtFirst(c);
    var s := Fly(c, Initial(c, ENDLESS), 0, 0);
    s := Land(c, s, 0, 0, c.limit - 1);
    s := Return(c, s, c.limit - 1, 0);
    s := AllFly(c, s, c.limit - 1);
    s := AllLand(c, s, c.limit - 1);
    var schedule :| Run(c, ENDLESS, schedule) == Some(s);
    TotalOfOne(s.iterators);
    assert (c.workerCount + 1) * c.limit - 1 == c.limit - 1 + c.workerCount * c.limit;
  }
}
