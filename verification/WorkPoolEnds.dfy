/** How a worker pool comes to its end: what a finished index still gets, when the work channel is closed, when workers
    leave, and how many pages are searched. */
module WorkPoolEnds {
  import opened Options
  import opened SearchIterator
  import opened Sequences
  import opened WorkPool
  import opened WorkPoolBound
  import opened WorkPoolSafety

  // ---------- what every step does to an iterator ----------

  /** Steps keep what an iterator was made with; it never goes back, and once complete it stays complete. */
  ghost predicate Grown(a: Iterator, b: Iterator) {
    && b.startingPage == a.startingPage && b.pageCount == a.pageCount && b.stopOnStale == a.stopOnStale
    && a.currentPage <= b.currentPage && a.discovered <= b.discovered
    && (a.startingPage <= a.currentPage && a.Complete() ==> b.Complete())
  }

  lemma UpdatedGrows(it: Iterator, isNew: seq<bool>)
    ensures Grown(it, it.Updated(isNew)) && it.Updated(isNew).currentPage == it.currentPage
  {
    hide Iterator.Complete;
    if it.Complete() && it.startingPage <= it.currentPage {
      CompleteStays(it, isNew);
    }
  }

  lemma SteppedGrows(it: Iterator)
    ensures Grown(it, it.Stepped()) && it.Stepped().currentPage == it.currentPage + 1
  {
    hide Iterator.Complete;
    if it.Complete() && it.startingPage <= it.currentPage {
      CompleteStays(it, []);
    }
  }

  lemma UpdateGrows(s: State, w: nat)
    requires w < |s.workers| && Updates(s, w).Some?
    ensures var t, pc := Updates(s, w).value, s.workers[w];
            && pc.Updating? && pc.job.index < |s.iterators| == |t.iterators|
            && t.iterators == s.iterators[pc.job.index := s.iterators[pc.job.index].Updated(Newness(pc.batch))]
            && forall i :: 0 <= i < |s.iterators| ==> Grown(s.iterators[i], t.iterators[i])
  {
    var pc := s.workers[w];
    UpdatedGrows(s.iterators[pc.job.index], Newness(pc.batch));
    hide Iterator.Complete, Iterator.Updated;
  }

  lemma MakeGrows(s: State)
    requires FeederDecides(s).Some? && FeederDecides(s).value.feeder.Feeding?
    ensures var t := FeederDecides(s).value;
            && s.feeder.InnerChecking? && s.feeder.i < |s.iterators| == |t.iterators|
            && t.iterators == s.iterators[s.feeder.i := s.iterators[s.feeder.i].Stepped()]
            && !s.feeder.scan.allComplete && SawAll(s, s.feeder.scan)
            && forall i :: 0 <= i < |s.iterators| ==> Grown(s.iterators[i], t.iterators[i])
  {
    SteppedGrows(s.iterators[s.feeder.i]);
    hide Iterator.Complete, Iterator.Stepped, Iterator.Shown, Below, SawAll;
  }

  lemma IteratorsGrow(c: Config, s: State, a: Action)
    requires Next(c, s, a).Some?
    ensures var t := Next(c, s, a).value;
            |t.iterators| == |s.iterators| && forall i :: 0 <= i < |s.iterators| ==> Grown(s.iterators[i], t.iterators[i])
  {
    hide Iterator.Complete, Updates, FeederDecides;
    if a.OfWorker() {
      WorkerFrame(c, s, a);
      if a.Update? {
        UpdateGrows(s, a.w);
      }
    } else {
      FeederFrame(c, s, a);
      if a.FeederDecide? {
        if FeederDecides(s).value.feeder.Feeding? {
          MakeGrows(s);
        } else {
          DecidesWithoutJob(s);
        }
      }
    }
  }

  // ---------- a finished index ----------

  /** The iterator is complete, and the feeder is not past its check of it. */
  ghost predicate FinishedAt(s: State, i: nat) {
    && i < |s.iterators| && s.iterators[i].Complete() && s.iterators[i].startingPage <= s.iterators[i].currentPage
    && !(s.feeder.InnerChecking? && s.feeder.i == i)
  }

  lemma FeederPasses(c: Config, s: State, a: Action, i: nat)
    requires !a.OfWorker() && Next(c, s, a).Some? && FinishedAt(s, i)
    ensures var t := Next(c, s, a).value;
            && !(t.feeder.InnerChecking? && t.feeder.i == i)
            && (a.FeederDecide? && t.feeder.Feeding? ==> t.feeder.job.index != i)
  {
    hide Iterator.Complete, Iterator.Stepped, Iterator.Shown, ReadOne, Below;
  }

  /** No step makes a job for a finished index. */
  lemma StepKeepsFinished(c: Config, its: seq<Iterator>, s: State, a: Action, i: nat)
    requires Jobs(its, s) && FinishedAt(s, i) && Next(c, s, a).Some?
    ensures var t := Next(c, s, a).value;
            FinishedAt(t, i) && PagesOf(Made(t), i) == PagesOf(Made(s), i)
  {
    hide Iterator.Complete, PagesOf, Updates, FeederDecides, Grown, Jobs, FeederReads, WorkerStep, FeederPicks;
    var t := Next(c, s, a).value;
    FinishedMeans(c, s, a, i);
    JobsMean(its, s);
    if a.OfWorker() {
      WorkerFrame(c, s, a);
    } else {
      FeederPasses(c, s, a, i);
      if a.FeederDecide? && t.feeder.Feeding? {
        FeederMakes(s);
        OneMoreJob(s.fed, t.feeder.job, i);
      } else {
        FeederKeepsMade(c, s, a);
      }
    }
  }

  lemma FinishedMeans(c: Config, s: State, a: Action, i: nat)
    requires FinishedAt(s, i) && Next(c, s, a).Some?
    ensures var t := Next(c, s, a).value;
            |t.iterators| == |s.iterators| && t.iterators[i].Complete() && t.iterators[i].startingPage <= t.iterators[i].currentPage
  {
    hide Iterator.Complete, Next;
    IteratorsGrow(c, s, a);
    assert Grown(s.iterators[i], Next(c, s, a).value.iterators[i]);
  }

  lemma JobsMean(its: seq<Iterator>, s: State)
    requires Jobs(its, s)
    ensures s.fed == s.taken + s.work
  {
    hide PagesOf;
  }

  lemma OneMoreJob(jobs: seq<Job>, job: Job, i: nat)
    ensures PagesOf(jobs + [job], i) == PagesOf(jobs, i) + (if job.index == i then [job.page] else [])
  {
    assert (jobs + [job])[..|jobs|] == jobs;
  }

  lemma Halves(c: Config, its: seq<Iterator>, before: seq<Action>, after: seq<Action>)
    requires Run(c, its, before + after).Some? && after != []
    ensures var init, a := after[..|after| - 1], after[|after| - 1];
            Run(c, its, before + init).Some? && Next(c, Run(c, its, before + init).value, a) == Run(c, its, before + after)
  {
    hide Next;
    assert (before + after)[..|before + after| - 1] == before + after[..|after| - 1];
  }

  /** A finished index gets no more jobs: from any state on in which its iterator is complete and the feeder is not past the
      check of it, whatever the schedule. */
  lemma {:induction false} FinishedIsFedNoMore(c: Config, its: seq<Iterator>, before: seq<Action>, after: seq<Action>, i: nat)
    requires Run(c, its, before).Some? && FinishedAt(Run(c, its, before).value, i) && Run(c, its, before + after).Some?
    ensures var s, t := Run(c, its, before).value, Run(c, its, before + after).value;
            FinishedAt(t, i) && PagesOf(Made(t), i) == PagesOf(Made(s), i)
  {
    hide Next, FinishedAt, PagesOf, Jobs, Run;
    if after == [] {
      assert before + after == before;
    } else {
      var init := after[..|after| - 1];
      Halves(c, its, before, after);
      FinishedIsFedNoMore(c, its, before, init, i);
      RunIsSafe(c, its, before + init);
      StepKeepsFinished(c, its, Run(c, its, before + init).value, after[|after| - 1], i);
    }
  }

  // ---------- page limits ----------

  /** Iterators that have not made a job yet. */
  ghost predicate AllFresh(its: seq<Iterator>) {
    forall it <- its :: it.currentPage == it.startingPage
  }

  ghost predicate WithinLimit(it: Iterator, checking: bool) {
    it.startingPage <= it.currentPage
    && (it.pageCount != 0 ==> it.currentPage - it.startingPage + (if checking then 1 else 0) <= it.pageCount)
  }

  predicate IsChecking(s: State, i: nat) {
    s.feeder.InnerChecking? && s.feeder.i == i
  }

  /** A job is not for the last page of the limit, so that its iterator was not complete with it. */
  ghost predicate BeforeLast(it: Iterator, job: Job) {
    it.pageCount != 0 ==> job.page + 1 < it.startingPage + it.pageCount
  }

  /** No more pages are made than the limit, and none but the last is searched for. */
  ghost predicate Limited(its: seq<Iterator>, s: State) {
    && |s.iterators| == |its|
    && (forall i {:trigger IsChecking(s, i)} :: 0 <= i < |its| ==>
          && s.iterators[i].startingPage == its[i].startingPage && s.iterators[i].pageCount == its[i].pageCount
          && WithinLimit(s.iterators[i], IsChecking(s, i)))
    && (forall w <- s.workers :: w.Searching? && w.job.index < |its| ==> BeforeLast(its[w.job.index], w.job))
    && (forall job <- s.searched :: job.index < |its| ==> BeforeLast(its[job.index], job))
  }

  /** What a step of the feeder does to one iterator and to the check of it. */
  lemma FeederLimits(c: Config, s: State, a: Action, i: nat)
    requires !a.OfWorker() && Next(c, s, a).Some? && i < |s.iterators| && WithinLimit(s.iterators[i], IsChecking(s, i))
    ensures var t := Next(c, s, a).value;
            |t.iterators| == |s.iterators| && WithinLimit(t.iterators[i], IsChecking(t, i))
  {
    hide Iterator.Complete, Iterator.Shown, Below, WorkerStep, FeederReads, FeederPicks;
    if a.FeederRead? {
      ReadKeepsCheck(c, s, a.i);
    } else if a.FeederPick? {
      PickLimits(s, a.i, i);
    }
  }

  lemma ReadKeepsCheck(c: Config, s: State, j: nat)
    requires FeederReads(c, s, j).Some?
    ensures var t := FeederReads(c, s, j).value;
            t.iterators == s.iterators && (t.feeder.InnerChecking? ==> s.feeder.InnerChecking? && t.feeder.i == s.feeder.i)
  {
    hide ReadOne;
  }

  /** An iterator is checked only while it has not reached its limit. */
  lemma PickLimits(s: State, j: nat, i: nat)
    requires FeederPicks(s, j).Some? && i < |s.iterators| && WithinLimit(s.iterators[i], IsChecking(s, i))
    ensures var t := FeederPicks(s, j).value;
            t.iterators == s.iterators && WithinLimit(t.iterators[i], IsChecking(t, i))
  {
    hide Iterator.HasNextField;
  }

  /** Only the check of its iterator sends a worker to search, and only a search is noted. */
  lemma OnlyCheckSearches(c: Config, s: State, a: Action)
    requires a.OfWorker() && Next(c, s, a).Some?
    ensures var t := Next(c, s, a).value;
            && a.w < |s.workers| == |t.workers|
            && (t.workers[a.w].Searching? && !t.panicked ==> a.CheckIterator?)
            && (a.CheckIterator? ==> s.workers[a.w].CheckingIterator?)
            && (if a.Search? then s.workers[a.w].Searching? && t.searched == s.searched + [s.workers[a.w].job]
                else t.searched == s.searched)
  {
    hide OtherStep, Iterator.Complete, Iterator.Updated, ReadOne, CanRead, SawAll, Saves, Reads;
    WorkerMoves(c, s, a);
    if a.Read? {
      ReadIsNoSearch(c, s, a.w, a.i);
    } else if a.Save? {
      SaveIsNoSearch(s, a.w);
    }
  }

  lemma ReadIsNoSearch(c: Config, s: State, w: nat, i: nat)
    requires w < |s.workers| && Reads(c, s, w, i).Some?
    ensures var t := Reads(c, s, w, i).value;
            w < |t.workers| && !t.workers[w].Searching? && t.searched == s.searched && t.panicked == s.panicked
  {
    hide ReadOne, CanRead;
  }

  lemma SaveIsNoSearch(s: State, w: nat)
    requires w < |s.workers| && Saves(s, w).Some?
    ensures var t := Saves(s, w).value;
            w < |t.workers| && !t.workers[w].Searching? && t.searched == s.searched && t.panicked == s.panicked
  {
  }

  lemma NotPanicked(c: Config, s: State, a: Action)
    requires Channels(s) && Next(c, s, a).Some?
    ensures !Next(c, s, a).value.panicked
  {
    NextKeepsChannels(c, s, a);
    hide Next;
  }

  /** What a step of a worker does to the jobs that are searched for. */
  lemma WorkerSearches(c: Config, its: seq<Iterator>, s: State, a: Action)
    requires a.OfWorker() && Next(c, s, a).Some? && Channels(s) && Jobs(its, s) && Once(s) && Limited(its, s)
    ensures var t := Next(c, s, a).value;
            && a.w < |s.workers| == |t.workers|
            && (t.workers[a.w].Searching? && t.workers[a.w].job.index < |its| ==> BeforeLast(its[t.workers[a.w].job.index], t.workers[a.w].job))
            && (forall job <- t.searched :: job in s.searched || (s.workers[a.w].Searching? && s.workers[a.w].job == job))
  {
    OnlyCheckSearches(c, s, a);
    NotPanicked(c, s, a);
    if a.CheckIterator? {
      CheckLimits(its, s, a.w);
    }
    hide Next, Jobs, Once, Limited, Channels;
  }

  lemma CheckLimits(its: seq<Iterator>, s: State, w: nat)
    requires w < |s.workers| && ChecksIterator(s, w).Some? && Jobs(its, s) && Once(s) && Limited(its, s)
    ensures var t := ChecksIterator(s, w).value;
            w < |t.workers| && (t.workers[w].Searching? ==> t.workers[w].job.index < |its| && BeforeLast(its[t.workers[w].job.index], t.workers[w].job))
  {
    var job := s.workers[w].job;
    HeldIsMade(its, s, w, job);
    assert WithinLimit(s.iterators[job.index], IsChecking(s, job.index));
    hide PagesOf, Iterator.HasNextField;
  }

  /** A job that a worker has was made. */
  lemma HeldIsMade(its: seq<Iterator>, s: State, w: nat, job: Job)
    requires Jobs(its, s) && Once(s) && w < |s.workers| && s.workers[w].CheckingIterator? && s.workers[w].job == job
    ensures job in Made(s) && job.index < |its| && job.page < s.iterators[job.index].currentPage
  {
    hide PagesOf, Held;
    HeldUpdate(s.workers, w, Gone, job);
    assert multiset(s.taken)[job] >= Held(s.workers, job) >= 1;
    assert job in s.taken;
  }

  lemma StepKeepsLimited(c: Config, its: seq<Iterator>, s: State, a: Action)
    requires Channels(s) && Jobs(its, s) && Once(s) && Limited(its, s) && Next(c, s, a).Some?
    ensures Limited(its, Next(c, s, a).value)
  {
    hide Iterator.Complete, Jobs, Once, Channels, Next, BeforeLast, Grown, WithinLimit;
    var t := Next(c, s, a).value;
    IteratorsGrow(c, s, a);
    forall i | 0 <= i < |its|
      ensures && t.iterators[i].startingPage == its[i].startingPage && t.iterators[i].pageCount == its[i].pageCount
              && WithinLimit(t.iterators[i], IsChecking(t, i))
    {
      assert WithinLimit(s.iterators[i], IsChecking(s, i));
      if a.OfWorker() {
        WorkerLimits(c, s, a, i);
      } else {
        FeederLimits(c, s, a, i);
      }
      GrownMeans(s.iterators[i], t.iterators[i]);
    }
    if a.OfWorker() {
      WorkerSearches(c, its, s, a);
      WorkerMoves(c, s, a);
    } else {
      FeederFrame(c, s, a);
    }
  }

  lemma GrownMeans(a: Iterator, b: Iterator)
    requires Grown(a, b)
    ensures b.startingPage == a.startingPage && b.pageCount == a.pageCount
  {
    hide Iterator.Complete;
  }

  lemma WorkerLimits(c: Config, s: State, a: Action, i: nat)
    requires a.OfWorker() && Next(c, s, a).Some? && i < |s.iterators| && WithinLimit(s.iterators[i], IsChecking(s, i))
    ensures var t := Next(c, s, a).value;
            |t.iterators| == |s.iterators| && WithinLimit(t.iterators[i], IsChecking(t, i))
  {
    hide Iterator.Complete, Updates;
    WorkerFrame(c, s, a);
    if a.Update? {
      UpdateGrows(s, a.w);
    }
  }

  lemma {:induction false} RunIsLimited(c: Config, its: seq<Iterator>, schedule: seq<Action>)
    requires AllFresh(its) && Run(c, its, schedule).Some?
    ensures Limited(its, Run(c, its, schedule).value)
  {
    hide Next, Channels, Jobs, Once, Storage, Counters, Limited;
    if schedule == [] {
      InitiallyLimited(c, its);
    } else {
      var before, a := schedule[..|schedule| - 1], schedule[|schedule| - 1];
      RunIsLimited(c, its, before);
      RunIsSafe(c, its, before);
      StepKeepsLimited(c, its, Run(c, its, before).value, a);
    }
  }

  lemma InitiallyLimited(c: Config, its: seq<Iterator>)
    requires AllFresh(its)
    ensures Limited(its, Initial(c, its))
  {
  }

  /** No page at or behind the first page + P is ever made for an index with a page limit P. */
  lemma PagesBelowLimit(c: Config, its: seq<Iterator>, schedule: seq<Action>, i: nat)
    requires AllFresh(its) && Run(c, its, schedule).Some? && i < |its| && its[i].pageCount != 0
    ensures var s := Run(c, its, schedule).value;
            && |PagesOf(Made(s), i)| <= its[i].pageCount
            && forall job <- Made(s) :: job.index == i ==> job.page < its[i].startingPage + its[i].pageCount
  {
    hide Run, PagesOf;
    RunIsLimited(c, its, schedule);
    RunIsSafe(c, its, schedule);
    var s := Run(c, its, schedule).value;
    assert WithinLimit(s.iterators[i], IsChecking(s, i));
    assert its[i] in its;
    assert PagesOf(Made(s), i) == PagesFrom(its[i].currentPage, s.iterators[i].currentPage - its[i].currentPage);
  }

  ghost predicate AscendingPages(pages: seq<nat>) {
    forall a, b :: 0 <= a < b < |pages| ==> pages[a] < pages[b]
  }

  lemma {:induction false} PageIsThere(jobs: seq<Job>, i: nat, a: nat)
    requires a < |jobs| && jobs[a].index == i
    ensures jobs[a].page in PagesOf(jobs, i)
  {
    if a < |jobs| - 1 {
      PageIsThere(jobs[..|jobs| - 1], i, a);
    }
  }

  /** Two jobs of one index have different pages. */
  lemma {:induction false} PagesAscend(jobs: seq<Job>, i: nat, a: nat, b: nat)
    requires a < b < |jobs| && jobs[a].index == jobs[b].index == i && AscendingPages(PagesOf(jobs, i))
    ensures jobs[a].page < jobs[b].page
  {
    var init, last := jobs[..|jobs| - 1], jobs[|jobs| - 1];
    var pages := PagesOf(init, i);
    assert AscendingPages(pages) by {
      assert forall k :: 0 <= k < |pages| ==> pages[k] == PagesOf(jobs, i)[k];
    }
    if b < |init| {
      PagesAscend(init, i, a, b);
    } else {
      PageIsThere(init, i, a);
      var k :| 0 <= k < |pages| && pages[k] == jobs[a].page;
      assert PagesOf(jobs, i)[k] < PagesOf(jobs, i)[|pages|];
    }
  }

  /** At most n jobs have different pages among n. */
  lemma {:induction false} AtMostPages(jobs: set<Job>, first: nat, n: nat)
    requires forall j <- jobs :: first <= j.page < first + n
    requires forall j <- jobs, k <- jobs :: j.page == k.page ==> j == k
    ensures |jobs| <= n
  {
    if n == 0 {
      if j :| j in jobs {
        assert false;
      }
    } else if j :| j in jobs && j.page == first + n - 1 {
      AtMostPages(jobs - {j}, first, n - 1);
    } else {
      AtMostPages(jobs, first, n - 1);
    }
  }

  ghost function SearchedOf(s: State, i: nat): set<Job> {
    set j | j in s.searched && j.index == i
  }

  /** With a page limit P an index is searched for at most P - 1 pages, with P = 1 for none: the job of the last page finds its iterator
      complete already. */
  lemma SearchedBelowLimit(c: Config, its: seq<Iterator>, schedule: seq<Action>, i: nat)
    requires AllFresh(its) && Run(c, its, schedule).Some? && i < |its| && its[i].pageCount != 0
    ensures var s := Run(c, its, schedule).value;
            && |SearchedOf(s, i)| <= its[i].pageCount - 1
            && forall job <- SearchedOf(s, i) :: its[i].startingPage <= job.page < its[i].startingPage + its[i].pageCount - 1
  {
    hide Run, PagesOf, Channels, Once, Storage, Counters;
    RunIsLimited(c, its, schedule);
    RunIsSafe(c, its, schedule);
    var s := Run(c, its, schedule).value;
    assert its[i] in its;
    var pages := PagesOf(Made(s), i);
    assert pages == PagesFrom(its[i].currentPage, s.iterators[i].currentPage - its[i].currentPage);
    SearchedOnce(its, s);
    forall j | j in SearchedOf(s, i)
      ensures j in Made(s) && its[i].startingPage <= j.page < its[i].startingPage + its[i].pageCount - 1
    {
      assert BeforeLast(its[j.index], j);
      var a := IndexOfJob(Made(s), j);
      PageIsThere(Made(s), i, a);
    }
    forall j, k | j in SearchedOf(s, i) && k in SearchedOf(s, i) && j.page == k.page ensures j == k {
      var a := IndexOfJob(Made(s), j);
      var b := IndexOfJob(Made(s), k);
      if a < b {
        PagesAscend(Made(s), i, a, b);
      } else if b < a {
        PagesAscend(Made(s), i, b, a);
      }
    }
    AtMostPages(SearchedOf(s, i), its[i].startingPage, its[i].pageCount - 1);
  }

  lemma IndexOfJob(jobs: seq<Job>, job: Job) returns (a: nat)
    requires job in jobs
    ensures a < |jobs| && jobs[a] == job
  {
    a :| a < |jobs| && jobs[a] == job;
  }

  // ---------- when the pool is closed, and when workers leave ----------

  ghost predicate AllComplete(its: seq<Iterator>) {
    forall i :: 0 <= i < |its| ==> its[i].Complete()
  }

  /** The iterators are all complete, or have found as much as is wanted. */
  ghost predicate PoolDone(c: Config, its: seq<Iterator>) {
    AllComplete(its) || (c.limit > 0 && Total(its) >= c.limit)
  }

  /** What an evaluation of isComplete has read is true still: it counted no more than there is, and those that were
      complete are. */
  ghost predicate ScanHolds(its: seq<Iterator>, scan: Scan) {
    && scan.total + Unread(its, scan.seen) <= Total(its)
    && (scan.allComplete ==> forall i <- scan.seen :: i < |its| ==> its[i].Complete())
  }

  ghost predicate Forward(its: seq<Iterator>) {
    forall it <- its :: it.startingPage <= it.currentPage
  }

  lemma {:induction false} TotalGrows(a: seq<Iterator>, b: seq<Iterator>, seen: set<nat>)
    requires |a| == |b| && forall i :: 0 <= i < |a| ==> a[i].discovered <= b[i].discovered
    ensures Unread(a, seen) <= Unread(b, seen)
    ensures Unread(b, seen) - Unread(a, seen) <= Total(b) - Total(a)
  {
    if a != [] {
      TotalGrows(a[..|a| - 1], b[..|b| - 1], seen);
    }
  }

  ghost predicate AllGrown(a: seq<Iterator>, b: seq<Iterator>) {
    |a| == |b| && forall i :: 0 <= i < |a| ==> Grown(a[i], b[i])
  }

  lemma GrownKeeps(a: seq<Iterator>, b: seq<Iterator>)
    requires AllGrown(a, b) && Forward(a)
    ensures Forward(b) && |a| == |b| && forall i :: 0 <= i < |a| ==> a[i].discovered <= b[i].discovered && (a[i].Complete() ==> b[i].Complete())
  {
    hide Iterator.Complete;
    forall i | 0 <= i < |a|
      ensures b[i].startingPage <= b[i].currentPage && a[i].discovered <= b[i].discovered && (a[i].Complete() ==> b[i].Complete())
    {
      assert a[i] in a && Grown(a[i], b[i]);
    }
  }

  lemma ScanStays(a: seq<Iterator>, b: seq<Iterator>, scan: Scan)
    requires AllGrown(a, b) && Forward(a) && ScanHolds(a, scan)
    ensures ScanHolds(b, scan)
  {
    hide Iterator.Complete, Unread, Grown;
    GrownKeeps(a, b);
    TotalGrows(a, b, scan.seen);
  }

  lemma DoneStays(c: Config, a: seq<Iterator>, b: seq<Iterator>)
    requires AllGrown(a, b) && Forward(a) && PoolDone(c, a)
    ensures PoolDone(c, b)
  {
    hide Iterator.Complete, Unread, Grown;
    GrownKeeps(a, b);
    TotalGrows(a, b, {});
  }

  lemma ScanStarts(its: seq<Iterator>)
    ensures ScanHolds(its, START)
  {
  }

  /** One more iterator is read. */
  lemma ScanNext(c: Config, its: seq<Iterator>, scan: Scan, i: nat)
    requires ScanHolds(its, scan) && i < |its| && i !in scan.seen
    ensures match ReadOne(c.limit, its, scan, i)
            case None => PoolDone(c, its)
            case Some(next) => ScanHolds(its, next)
  {
    hide Iterator.Complete, Unread;
    UnreadRead(its, scan.seen, i);
    assert Unread(its, scan.seen + {i}) >= 0;
  }

  /** All iterators were read, and all were complete. */
  lemma ScanEnds(c: Config, s: State, scan: Scan)
    requires ScanHolds(s.iterators, scan) && SawAll(s, scan) && scan.allComplete
    ensures PoolDone(c, s.iterators)
  {
    hide Iterator.Complete, Unread;
  }

  /** Why a worker may leave: the pool is done, or the iterator of its last job is complete. */
  ghost predicate MayLeave(c: Config, its: seq<Iterator>) {
    PoolDone(c, its) || exists i :: 0 <= i < |its| && its[i].Complete()
  }

  ghost predicate WorkerSound(c: Config, its: seq<Iterator>, w: Worker) {
    && (w.Checking? ==> ScanHolds(its, w.scan))
    && (w.Leaving? || w.Gone? ==> MayLeave(c, its))
  }

  ghost predicate FeederSound(c: Config, s: State) {
    && (s.feeder.Outer? || s.feeder.InnerChecking? ==> ScanHolds(s.iterators, s.feeder.scan))
    && (s.workClosed ==> PoolDone(c, s.iterators))
  }

  ghost predicate EndsWell(c: Config, s: State) {
    Forward(s.iterators) && FeederSound(c, s) && forall w <- s.workers :: WorkerSound(c, s.iterators, w)
  }

  lemma WorkerSoundStays(c: Config, a: seq<Iterator>, b: seq<Iterator>, w: Worker)
    requires AllGrown(a, b) && Forward(a) && WorkerSound(c, a, w)
    ensures WorkerSound(c, b, w)
  {
    hide Iterator.Complete, Unread, Grown, ScanHolds, PoolDone;
    if w.Checking? {
      ScanStays(a, b, w.scan);
    }
    if w.Leaving? || w.Gone? {
      GrownKeeps(a, b);
      if PoolDone(c, a) {
        DoneStays(c, a, b);
      }
    }
  }

  lemma ReadSound(c: Config, s: State, w: nat, i: nat)
    requires w < |s.workers| && Reads(c, s, w, i).Some? && WorkerSound(c, s.iterators, s.workers[w])
    ensures var t := Reads(c, s, w, i).value; w < |t.workers| && WorkerSound(c, s.iterators, t.workers[w])
  {
    hide Iterator.Complete, Unread, ScanHolds, ReadOne, PoolDone;
    ScanNext(c, s.iterators, s.workers[w].scan, i);
  }

  lemma DecideSound(c: Config, s: State, w: nat)
    requires w < |s.workers| && Decides(s, w).Some? && WorkerSound(c, s.iterators, s.workers[w])
    ensures var t := Decides(s, w).value; w < |t.workers| && WorkerSound(c, s.iterators, t.workers[w])
  {
    hide Iterator.Complete, Unread, ScanHolds, PoolDone, Below;
    if s.workers[w].scan.allComplete {
      ScanEnds(c, s, s.workers[w].scan);
    }
  }

  /** The worker that moves. */
  lemma MovedSound(c: Config, s: State, a: Action)
    requires a.OfWorker() && Next(c, s, a).Some? && EndsWell(c, s)
    ensures var t := Next(c, s, a).value;
            a.w < |s.workers| == |t.workers| && WorkerSound(c, if a.Update? then t.iterators else s.iterators, t.workers[a.w])
  {
    hide Iterator.Complete, Iterator.Updated, Unread, ScanHolds, OtherStep, Reads, Decides, PoolDone;
    var t := Next(c, s, a).value;
    assert s.workers[a.w] in s.workers && WorkerSound(c, s.iterators, s.workers[a.w]);
    WorkerMoves(c, s, a);
    ScanStarts(s.iterators);
    match a
    case Read(w, i) => ReadSound(c, s, w, i);
    case Decide(w) => DecideSound(c, s, w);
    case _ =>
  }

  /** The feeder when it moves. */
  lemma FeederMoveSound(c: Config, s: State, a: Action)
    requires !a.OfWorker() && Next(c, s, a).Some? && EndsWell(c, s) && Channels(s)
    ensures var t := Next(c, s, a).value;
            && (t.feeder.Outer? || t.feeder.InnerChecking? ==> t.iterators == s.iterators && ScanHolds(s.iterators, t.feeder.scan))
            && (t.workClosed ==> PoolDone(c, s.iterators))
  {
    hide Iterator.Complete, Iterator.Stepped, Iterator.Shown, Unread, ScanHolds, WorkerStep, ReadOne, PoolDone, Present;
    ScanStarts(s.iterators);
    match a
    case FeederRead(i) => FeederReadSound(c, s, i);
    case FeederDecide =>
      if s.feeder.Outer? && s.feeder.scan.allComplete && SawAll(s, s.feeder.scan) {
        ScanEnds(c, s, s.feeder.scan);
      }
    case _ =>
  }

  lemma FeederReadSound(c: Config, s: State, i: nat)
    requires FeederReads(c, s, i).Some? && EndsWell(c, s)
    ensures var t := FeederReads(c, s, i).value;
            && t.iterators == s.iterators
            && (t.feeder.Outer? || t.feeder.InnerChecking? ==> ScanHolds(s.iterators, t.feeder.scan))
            && (t.workClosed ==> PoolDone(c, s.iterators))
  {
    hide Iterator.Complete, Unread, ScanHolds, ReadOne, PoolDone;
    ScanNext(c, s.iterators, s.feeder.scan, i);
  }

  lemma StepEndsWell(c: Config, s: State, a: Action)
    requires EndsWell(c, s) && Channels(s) && Next(c, s, a).Some?
    ensures EndsWell(c, Next(c, s, a).value)
  {
    hide Iterator.Complete, Next, Grown, ScanHolds, PoolDone, WorkerSound, Channels;
    var t := Next(c, s, a).value;
    IteratorsGrow(c, s, a);
    GrownKeeps(s.iterators, t.iterators);
    if PoolDone(c, s.iterators) {
      DoneStays(c, s.iterators, t.iterators);
    }
    if a.OfWorker() {
      WorkerFrame(c, s, a);
      WorkerMoves(c, s, a);
      MovedSound(c, s, a);
      SameFeeder(c, s, a);
      if s.feeder.Outer? || s.feeder.InnerChecking? {
        ScanStays(s.iterators, t.iterators, s.feeder.scan);
      }
    } else {
      FeederFrame(c, s, a);
      FeederMoveSound(c, s, a);
    }
    forall w | w in t.workers ensures WorkerSound(c, t.iterators, w) {
      if a.OfWorker() && w == t.workers[a.w] {
        if !a.Update? {
          WorkerSoundStays(c, s.iterators, t.iterators, w);
        }
      } else {
        WorkerSoundStays(c, s.iterators, t.iterators, w);
      }
    }
  }

  lemma SameFeeder(c: Config, s: State, a: Action)
    requires a.OfWorker() && Next(c, s, a).Some?
    ensures Next(c, s, a).value.workClosed == s.workClosed
  {
    hide OtherStep, Iterator.Complete, Iterator.Updated, ReadOne;
  }

  lemma {:induction false} RunEndsWell(c: Config, its: seq<Iterator>, schedule: seq<Action>)
    requires Forward(its) && Run(c, its, schedule).Some?
    ensures EndsWell(c, Run(c, its, schedule).value)
  {
    hide Next, Channels, Jobs, Once, Storage, Counters, EndsWell;
    if schedule == [] {
      BeginsWell(c, its);
    } else {
      var before, a := schedule[..|schedule| - 1], schedule[|schedule| - 1];
      RunEndsWell(c, its, before);
      RunIsSafe(c, its, before);
      StepEndsWell(c, Run(c, its, before).value, a);
    }
  }

  lemma BeginsWell(c: Config, its: seq<Iterator>)
    requires Forward(its)
    ensures EndsWell(c, Initial(c, its))
  {
    ScanStarts(its);
  }

  /** The work channel is closed only when all iterators are complete or have found as much as is wanted, and a worker leaves only
      then, or when some iterator is complete. */
  lemma ClosedOnlyWhenDone(c: Config, its: seq<Iterator>, schedule: seq<Action>)
    requires Forward(its) && Run(c, its, schedule).Some?
    ensures var s := Run(c, its, schedule).value;
            && (s.workClosed ==> (forall i :: 0 <= i < |s.iterators| ==> s.iterators[i].Complete())
                                 || (c.limit > 0 && Total(s.iterators) >= c.limit))
            && ((exists w <- s.workers :: w.Leaving? || w.Gone?) ==>
                  || (forall i :: 0 <= i < |s.iterators| ==> s.iterators[i].Complete())
                  || (exists i :: 0 <= i < |s.iterators| && s.iterators[i].Complete())
                  || (c.limit > 0 && Total(s.iterators) >= c.limit))
  {
    hide Iterator.Complete, Run, ScanHolds, Unread;
    RunEndsWell(c, its, schedule);
  }

  // ---------- a pool that is done ----------

  /** An evaluation of isComplete that began when the iterators were `was`, and the pool was done, has not missed that. */
  ghost predicate Catches(c: Config, was: seq<Iterator>, scan: Scan) {
    || (AllComplete(was) && scan.allComplete)
    || (c.limit > 0 && Total(was) >= c.limit && scan.total < c.limit && scan.total + Unread(was, scan.seen) >= Total(was))
  }

  lemma StartCatches(c: Config, was: seq<Iterator>)
    requires PoolDone(c, was)
    ensures Catches(c, was, START)
  {
  }

  lemma ReadCatches(c: Config, was: seq<Iterator>, its: seq<Iterator>, scan: Scan, i: nat)
    requires AllGrown(was, its) && Forward(was) && Catches(c, was, scan) && i < |its| && i !in scan.seen
    ensures ReadOne(c.limit, its, scan, i).Some? ==> Catches(c, was, ReadOne(c.limit, its, scan, i).value)
  {
    hide Iterator.Complete, Unread, Grown;
    GrownKeeps(was, its);
    UnreadRead(was, scan.seen, i);
  }

  /** Having read all iterators, it finds that they are complete. */
  lemma CaughtInTheEnd(c: Config, was: seq<Iterator>, s: State, scan: Scan)
    requires |was| == |s.iterators| && SawAll(s, scan) && Catches(c, was, scan)
    ensures scan.allComplete
  {
    hide Iterator.Complete, Unread;
    UnreadAll(was, scan.seen);
  }

  lemma GrownTwice(a: seq<Iterator>, b: seq<Iterator>, d: seq<Iterator>)
    requires AllGrown(a, b) && AllGrown(b, d) && Forward(a)
    ensures AllGrown(a, d)
  {
    hide Iterator.Complete;
    forall i | 0 <= i < |a| ensures Grown(a[i], d[i]) {
      assert Grown(a[i], b[i]) && Grown(b[i], d[i]) && a[i] in a;
    }
  }

  /** The pool was done when the iterators were `was`, and the feeder makes no job in spite of that. */
  ghost predicate FedUp(c: Config, was: seq<Iterator>, s: State) {
    && AllGrown(was, s.iterators) && Forward(was) && PoolDone(c, was)
    && (s.feeder.InnerChecking? ==> Catches(c, was, s.feeder.scan))
  }

  lemma FeederReadFedUp(c: Config, was: seq<Iterator>, s: State, i: nat)
    requires FedUp(c, was, s) && FeederReads(c, s, i).Some?
    ensures var t := FeederReads(c, s, i).value;
            t.iterators == s.iterators && (t.feeder.InnerChecking? ==> Catches(c, was, t.feeder.scan))
  {
    hide Iterator.Complete, ReadOne, Catches, PoolDone, AllGrown;
    AsManyIterators(was, s.iterators);
    if s.feeder.InnerChecking? {
      ReadCatches(c, was, s.iterators, s.feeder.scan, i);
    }
  }

  lemma AsManyIterators(a: seq<Iterator>, b: seq<Iterator>)
    requires AllGrown(a, b)
    ensures |a| == |b|
  {
  }

  lemma FeederDecideFedUp(c: Config, was: seq<Iterator>, s: State)
    requires FedUp(c, was, s) && FeederDecides(s).Some?
    ensures var t := FeederDecides(s).value;
            t.iterators == s.iterators && !t.feeder.Feeding? && !t.feeder.InnerChecking?
  {
    hide Iterator.Complete, Catches, PoolDone, AllGrown, Below;
    AsManyIterators(was, s.iterators);
    if s.feeder.InnerChecking? && SawAll(s, s.feeder.scan) {
      CaughtInTheEnd(c, was, s, s.feeder.scan);
    }
  }

  lemma FeederFedUp(c: Config, was: seq<Iterator>, s: State, a: Action)
    requires !a.OfWorker() && FedUp(c, was, s) && Next(c, s, a).Some?
    ensures var t := Next(c, s, a).value;
            && (t.feeder.InnerChecking? ==> Catches(c, was, t.feeder.scan))
            && !(a.FeederDecide? && t.feeder.Feeding?)
  {
    hide Iterator.Complete, Catches, PoolDone, AllGrown, WorkerStep, FeederReads, FeederDecides;
    StartCatches(c, was);
    match a
    case FeederRead(i) => FeederReadFedUp(c, was, s, i);
    case FeederDecide => FeederDecideFedUp(c, was, s);
    case _ =>
  }

  lemma StepKeepsFedUp(c: Config, its: seq<Iterator>, was: seq<Iterator>, s: State, a: Action)
    requires Jobs(its, s) && FedUp(c, was, s) && Next(c, s, a).Some?
    ensures var t := Next(c, s, a).value; FedUp(c, was, t) && Made(t) == Made(s)
  {
    hide Next, Iterator.Complete, PagesOf, Grown, PoolDone, Catches, Forward;
    var t := Next(c, s, a).value;
    IteratorsGrow(c, s, a);
    GrownTwice(was, s.iterators, t.iterators);
    JobsMean(its, s);
    if a.OfWorker() {
      WorkerFrame(c, s, a);
    } else {
      FeederFedUp(c, was, s, a);
      FeederKeepsMade(c, s, a);
    }
  }

  /** Once all iterators are complete, or enough was found, and the feeder is not past a check of that, no schedule makes a job. */
  lemma {:induction false} DoneIsFedNoMore(c: Config, its: seq<Iterator>, before: seq<Action>, after: seq<Action>)
    requires Forward(its) && Run(c, its, before).Some? && Run(c, its, before + after).Some?
    requires var s := Run(c, its, before).value; PoolDone(c, s.iterators) && !s.feeder.InnerChecking?
    ensures Made(Run(c, its, before + after).value) == Made(Run(c, its, before).value)
    ensures FedUp(c, Run(c, its, before).value.iterators, Run(c, its, before + after).value)
  {
    hide Next, Run, EndsWell, PoolDone, FedUp, Jobs;
    if after == [] {
      assert before + after == before;
      RunEndsWell(c, its, before);
      RunForward(c, Run(c, its, before).value);
      BeginsFedUp(c, Run(c, its, before).value);
    } else {
      Halves(c, its, before, after);
      var init := after[..|after| - 1];
      DoneIsFedNoMore(c, its, before, init);
      RunIsSafe(c, its, before + init);
      StepKeepsFedUp(c, its, Run(c, its, before).value.iterators, Run(c, its, before + init).value, after[|after| - 1]);
    }
  }

  lemma BeginsFedUp(c: Config, s: State)
    requires Forward(s.iterators) && PoolDone(c, s.iterators) && !s.feeder.InnerChecking?
    ensures FedUp(c, s.iterators, s)
  {
    hide Iterator.Complete, Unread;
  }

  /** The feeder, or the worker, evaluates isComplete and will find that the pool is done. */
  ghost predicate Closing(c: Config, was: seq<Iterator>, s: State) {
    && AllGrown(was, s.iterators) && Forward(was) && PoolDone(c, was)
    && (s.feeder.Finished? || (s.feeder.Outer? && Catches(c, was, s.feeder.scan)))
  }

  ghost predicate GivingUp(c: Config, was: seq<Iterator>, s: State, w: nat) {
    && AllGrown(was, s.iterators) && Forward(was) && PoolDone(c, was) && w < |s.workers|
    && (s.workers[w].Leaving? || s.workers[w].Gone? || (s.workers[w].Checking? && Catches(c, was, s.workers[w].scan)))
  }

  lemma FeederKeepsClosing(c: Config, was: seq<Iterator>, s: State, a: Action)
    requires !a.OfWorker() && Closing(c, was, s) && Next(c, s, a).Some?
    ensures var t := Next(c, s, a).value; t.feeder.Finished? || (t.feeder.Outer? && Catches(c, was, t.feeder.scan)) || t.panicked
  {
    hide Iterator.Complete, Catches, PoolDone, AllGrown, WorkerStep, ReadOne, Below;
    AsManyIterators(was, s.iterators);
    match a
    case FeederRead(i) =>
      if s.feeder.Outer? {
        ReadCatches(c, was, s.iterators, s.feeder.scan, i);
      }
    case FeederDecide =>
      if s.feeder.Outer? && SawAll(s, s.feeder.scan) {
        CaughtInTheEnd(c, was, s, s.feeder.scan);
      }
    case _ =>
  }

  lemma StepKeepsClosing(c: Config, was: seq<Iterator>, s: State, a: Action)
    requires Closing(c, was, s) && Channels(s) && Next(c, s, a).Some?
    ensures Closing(c, was, Next(c, s, a).value)
  {
    hide Next, Iterator.Complete, Grown, PoolDone, Catches, Forward, Channels;
    IteratorsGrow(c, s, a);
    GrownTwice(was, s.iterators, Next(c, s, a).value.iterators);
    NotPanicked(c, s, a);
    if a.OfWorker() {
      WorkerFrame(c, s, a);
    } else {
      FeederKeepsClosing(c, was, s, a);
    }
  }

  lemma OwnStepGivesUp(c: Config, was: seq<Iterator>, s: State, a: Action)
    requires a.OfWorker() && GivingUp(c, was, s, a.w) && Next(c, s, a).Some?
    ensures var t := Next(c, s, a).value;
            && !a.Take? && !a.Search? && a.w < |t.workers|
            && (t.workers[a.w].Leaving? || t.workers[a.w].Gone? || (t.workers[a.w].Checking? && Catches(c, was, t.workers[a.w].scan)))
  {
    hide Iterator.Complete, Iterator.Updated, Catches, PoolDone, AllGrown, OtherStep, ReadOne, Below;
    AsManyIterators(was, s.iterators);
    match a
    case Read(w, i) =>
      if s.workers[w].Checking? {
        ReadCatches(c, was, s.iterators, s.workers[w].scan, i);
      }
    case Decide(w) =>
      if s.workers[w].Checking? && SawAll(s, s.workers[w].scan) {
        CaughtInTheEnd(c, was, s, s.workers[w].scan);
      }
    case _ =>
  }

  lemma StepKeepsGivingUp(c: Config, was: seq<Iterator>, s: State, a: Action, w: nat)
    requires GivingUp(c, was, s, w) && Next(c, s, a).Some?
    ensures GivingUp(c, was, Next(c, s, a).value, w) && (a.OfWorker() && a.w == w ==> !a.Take? && !a.Search?)
  {
    hide Next, Iterator.Complete, Grown, PoolDone, Catches, Forward;
    IteratorsGrow(c, s, a);
    GrownTwice(was, s.iterators, Next(c, s, a).value.iterators);
    if a.OfWorker() {
      WorkerMoves(c, s, a);
      WorkerExists(c, s, a);
      if a.w == w {
        OwnStepGivesUp(c, was, s, a);
      }
    } else {
      FeederFrame(c, s, a);
    }
  }

  /** When the pool is done, a feeder that begins to evaluate isComplete starts no round any more: it can only close the channel. */
  lemma {:induction false} DoneIsClosed(c: Config, its: seq<Iterator>, before: seq<Action>, after: seq<Action>)
    requires Forward(its) && Run(c, its, before).Some? && Run(c, its, before + after).Some?
    requires var s := Run(c, its, before).value; PoolDone(c, s.iterators) && s.feeder == Outer(START)
    ensures Closing(c, Run(c, its, before).value.iterators, Run(c, its, before + after).value)
    ensures Run(c, its, before + after).value.feeder.Outer? || Run(c, its, before + after).value.feeder.Finished?
  {
    hide Next, Run, EndsWell, PoolDone, Channels, Jobs, Once, Storage, Counters, Catches;
    if after == [] {
      assert before + after == before;
      RunEndsWell(c, its, before);
      RunForward(c, Run(c, its, before).value);
      StartCatches(c, Run(c, its, before).value.iterators);
      GrownBySelf(Run(c, its, before).value.iterators);
    } else {
      Halves(c, its, before, after);
      var init := after[..|after| - 1];
      DoneIsClosed(c, its, before, init);
      RunIsSafe(c, its, before + init);
      hide Closing;
      StepKeepsClosing(c, Run(c, its, before).value.iterators, Run(c, its, before + init).value, after[|after| - 1]);
      ClosingMeans(c, Run(c, its, before).value.iterators, Run(c, its, before + after).value);
    }
  }

  lemma ClosingMeans(c: Config, was: seq<Iterator>, s: State)
    requires Closing(c, was, s)
    ensures s.feeder.Outer? || s.feeder.Finished?
  {
  }

  lemma GrownBySelf(its: seq<Iterator>)
    ensures AllGrown(its, its)
  {
    hide Iterator.Complete;
  }

  /** And a worker that begins to evaluate it takes and searches for no job any more. */
  lemma {:induction false} DoneWorkerLeaves(c: Config, its: seq<Iterator>, before: seq<Action>, after: seq<Action>, w: nat)
    requires Forward(its) && Run(c, its, before).Some? && Run(c, its, before + after).Some?
    requires var s := Run(c, its, before).value;
             PoolDone(c, s.iterators) && w < |s.workers| && s.workers[w].Checking? && s.workers[w].scan == START
    ensures GivingUp(c, Run(c, its, before).value.iterators, Run(c, its, before + after).value, w)
    ensures forall a <- after :: a.OfWorker() && a.w == w ==> !a.Take? && !a.Search?
  {
    hide Next, Run, EndsWell, PoolDone, Catches;
    if after == [] {
      assert before + after == before;
      RunEndsWell(c, its, before);
      RunForward(c, Run(c, its, before).value);
      StartCatches(c, Run(c, its, before).value.iterators);
      GrownBySelf(Run(c, its, before).value.iterators);
    } else {
      Halves(c, its, before, after);
      var init, a := after[..|after| - 1], after[|after| - 1];
      hide GivingUp;
      DoneWorkerLeaves(c, its, before, init, w);
      StepKeepsGivingUp(c, Run(c, its, before).value.iterators, Run(c, its, before + init).value, a, w);
      assert after == init + [a];
    }
  }

  // ---------- a worker whose index is finished ----------

  function JobOf(w: Worker): Option<Job> {
    if w.Waiting? || w.Leaving? || w.Gone? then None else Some(w.job)
  }

  /** The worker has left, or has a job of a complete iterator that it does not search for, or no more. */
  ghost predicate LeavesSoon(s: State, w: nat) {
    && w < |s.workers| && !s.workers[w].Waiting? && !s.workers[w].Searching?
    && var job := JobOf(s.workers[w]);
       job.Some? ==> job.value.index < |s.iterators| && s.iterators[job.value.index].Complete()
  }

  lemma OwnStepLeaves(c: Config, s: State, a: Action)
    requires a.OfWorker() && Next(c, s, a).Some? && LeavesSoon(s, a.w)
    ensures var t := Next(c, s, a).value;
            && !a.Take? && !a.Search? && a.w < |t.workers| && !t.workers[a.w].Waiting? && !t.workers[a.w].Searching?
            && (JobOf(t.workers[a.w]).Some? ==> JobOf(t.workers[a.w]) == JobOf(s.workers[a.w]))
  {
    hide OtherStep, Iterator.Updated, ReadOne, CanRead, SawAll, Iterator.Complete;
  }

  lemma StepKeepsLeaving(c: Config, s: State, a: Action, w: nat)
    requires Forward(s.iterators) && LeavesSoon(s, w) && Next(c, s, a).Some?
    ensures LeavesSoon(Next(c, s, a).value, w) && (a.OfWorker() && a.w == w ==> !a.Take? && !a.Search?)
  {
    hide Next, Iterator.Complete, Grown;
    IteratorsGrow(c, s, a);
    GrownKeeps(s.iterators, Next(c, s, a).value.iterators);
    if a.OfWorker() {
      WorkerMoves(c, s, a);
      WorkerExists(c, s, a);
      if a.w == w {
        OwnStepLeaves(c, s, a);
      }
    } else {
      FeederFrame(c, s, a);
    }
  }

  /** A worker that has a job of a complete iterator, and is not searching for it, takes no job and searches for none any more,
      whatever the schedule. */
  lemma {:induction false} FinishedWorkerLeaves(c: Config, its: seq<Iterator>, before: seq<Action>, after: seq<Action>, w: nat)
    requires Forward(its) && Run(c, its, before).Some? && LeavesSoon(Run(c, its, before).value, w) && Run(c, its, before + after).Some?
    ensures LeavesSoon(Run(c, its, before + after).value, w)
    ensures forall a <- after :: a.OfWorker() && a.w == w ==> !a.Take? && !a.Search?
  {
    hide Next, LeavesSoon, Run, EndsWell;
    if after == [] {
      assert before + after == before;
    } else {
      var init, a := after[..|after| - 1], after[|after| - 1];
      Halves(c, its, before, after);
      FinishedWorkerLeaves(c, its, before, init, w);
      RunEndsWell(c, its, before + init);
      RunForward(c, Run(c, its, before + init).value);
      StepKeepsLeaving(c, Run(c, its, before + init).value, a, w);
      assert after == init + [a];
    }
  }

  lemma RunForward(c: Config, s: State)
    requires EndsWell(c, s)
    ensures Forward(s.iterators)
  {
  }

  // ---------- results ----------

  /** The results channel holds the batches that were sent last, in the order in which they were sent. */
  ghost predicate Queued(s: State) {
    |s.results| <= |s.published| &&
    forall k :: 0 <= k < |s.results| ==> s.results[k] == s.published[|s.published| - |s.results| + k].batch
  }

  lemma StepKeepsQueued(c: Config, s: State, a: Action)
    requires Queued(s) && Next(c, s, a).Some?
    ensures Queued(Next(c, s, a).value)
  {
    hide Queued, Sends, Receives;
    if a.Send? {
      SendKeepsQueued(c, s, a.w);
    } else if a.Receive? {
      ReceiveKeepsQueued(s);
    } else {
      OthersKeepResults(c, s, a);
      SameQueue(s, Next(c, s, a).value);
    }
  }

  lemma SameQueue(s: State, t: State)
    requires Queued(s) && t.results == s.results && t.published == s.published
    ensures Queued(t)
  {
  }

  lemma SendKeepsQueued(c: Config, s: State, w: nat)
    requires Queued(s) && w < |s.workers| && Sends(c, s, w).Some?
    ensures Queued(Sends(c, s, w).value)
  {
  }

  lemma ReceiveKeepsQueued(s: State)
    requires Queued(s) && Receives(s).Some?
    ensures Queued(Receives(s).value)
  {
  }

  lemma OthersKeepResults(c: Config, s: State, a: Action)
    requires Next(c, s, a).Some? && !a.Send? && !a.Receive?
    ensures Next(c, s, a).value.results == s.results && Next(c, s, a).value.published == s.published
  {
    if a.OfWorker() {
      WorkerKeepsResults(c, s, a);
    } else {
      hide Iterator.Complete, Iterator.Stepped, Iterator.Shown, ReadOne, Below, WorkerStep;
    }
  }

  lemma WorkerKeepsResults(c: Config, s: State, a: Action)
    requires a.OfWorker() && Next(c, s, a).Some? && !a.Send?
    ensures Next(c, s, a).value.results == s.results && Next(c, s, a).value.published == s.published
  {
    hide OtherStep, Iterator.Updated, RunsOut, Reads, Decides, ChecksIterator, ChecksAgain;
    if a.Quiet() {
      QuietFrame(c, s, a);
    }
  }

  /** No batch without items is sent. */
  ghost predicate SendsItems(s: State) {
    && (forall p <- s.published :: p.batch != [])
    && (forall w <- s.workers :: w.Sending? ==> w.batch != [])
  }

  lemma StepKeepsSendsItems(c: Config, s: State, a: Action)
    requires SendsItems(s) && Channels(s) && Next(c, s, a).Some?
    ensures SendsItems(Next(c, s, a).value)
  {
    hide Next, Channels, HasOld;
    if a.OfWorker() {
      WorkerMoves(c, s, a);
      NotPanicked(c, s, a);
      WhoOffers(c, s, a);
    } else {
      FeederFrame(c, s, a);
    }
  }

  predicate HasOld(batch: seq<Item>) {
    exists k :: 0 <= k < |batch| && !batch[k].isNew
  }

  /** A batch with an item that is not new was sent for the index, or is about to be. */
  ghost predicate OldFound(s: State, i: nat) {
    || (exists p <- s.published :: p.job.index == i && HasOld(p.batch))
    || (exists w <- s.workers :: w.Sending? && w.job.index == i && HasOld(w.batch))
  }

  /** An iterator that stops on stale results has seen one exactly if such a batch was found. */
  ghost predicate Stales(its: seq<Iterator>, s: State) {
    |s.iterators| == |its| &&
    forall i {:trigger OldFound(s, i)} :: 0 <= i < |its| ==>
      && s.iterators[i].stopOnStale == its[i].stopOnStale
      && (s.iterators[i].reachedStale <==> its[i].reachedStale || (its[i].stopOnStale && OldFound(s, i)))
  }

  ghost predicate Offers(w: Worker, i: nat) {
    w.Sending? && w.job.index == i && HasOld(w.batch)
  }

  /** Of the workers only one changed. */
  lemma OffersUpdate(ws: seq<Worker>, k: nat, next: Worker, i: nat)
    requires k < |ws|
    ensures (exists w <- ws[k := next] :: Offers(w, i)) ==> (exists w <- ws :: Offers(w, i)) || Offers(next, i)
    ensures (exists w <- ws :: Offers(w, i)) ==> (exists w <- ws[k := next] :: Offers(w, i)) || Offers(ws[k], i)
    ensures Offers(next, i) ==> exists w <- ws[k := next] :: Offers(w, i)
  {
    hide HasOld;
    var us := ws[k := next];
    assert us[k] == next;
    if w :| w in ws && Offers(w, i) {
      var j :| 0 <= j < |ws| && ws[j] == w;
      assert us[j] == if j == k then next else w;
    }
  }

  lemma SentUpdate(ps: seq<Published>, p: Published, i: nat)
    ensures (exists q <- ps + [p] :: q.job.index == i && HasOld(q.batch)) <==>
            (exists q <- ps :: q.job.index == i && HasOld(q.batch)) || (p.job.index == i && HasOld(p.batch))
  {
    assert (ps + [p])[|ps|] == p;
  }

  /** Batches are offered by Update and sent by Send. */
  lemma WhoOffers(c: Config, s: State, a: Action)
    requires a.OfWorker() && Next(c, s, a).Some?
    ensures var t := Next(c, s, a).value;
            && a.w < |s.workers| && |t.workers| == |s.workers|
            && (!a.Update? && !a.Send? ==> t.published == s.published && !s.workers[a.w].Sending? && !t.workers[a.w].Sending?)
            && (a.Send? && !t.panicked ==>
                  && s.workers[a.w].Sending? && !t.workers[a.w].Sending?
                  && t.published == s.published + [Published(s.workers[a.w].job, s.workers[a.w].batch)])
            && (a.Update? ==>
                  && t.published == s.published && s.workers[a.w].Updating?
                  && (if s.workers[a.w].batch == [] then !t.workers[a.w].Sending?
                      else t.workers[a.w] == Sending(s.workers[a.w].job, s.workers[a.w].batch)))
  {
    hide OtherStep, Iterator.Updated, RunsOut, Reads, Decides, ChecksIterator, ChecksAgain, HasOld;
    if a.Quiet() {
      QuietFrame(c, s, a);
    }
  }

  /** Only counting a batch finds something. */
  lemma WorkerFinds(c: Config, s: State, a: Action, i: nat)
    requires a.OfWorker() && Next(c, s, a).Some? && Channels(s)
    ensures var t, w := Next(c, s, a).value, s.workers[a.w];
            && (a.Update? ==> w.Updating?)
            && (OldFound(t, i) <==> OldFound(s, i) || (a.Update? && w.job.index == i && HasOld(w.batch)))
  {
    hide Next, HasOld, Channels;
    var t := Next(c, s, a).value;
    NotPanicked(c, s, a);
    WhoOffers(c, s, a);
    WorkerMoves(c, s, a);
    OffersUpdate(s.workers, a.w, t.workers[a.w], i);
    assert forall w :: Offers(w, i) <==> w.Sending? && w.job.index == i && HasOld(w.batch);
    NothingOld();
    if a.Send? {
      SentUpdate(s.published, Published(s.workers[a.w].job, s.workers[a.w].batch), i);
    }
  }

  lemma NothingOld()
    ensures !HasOld([])
  {
  }

  lemma NewnessIs(batch: seq<Item>)
    ensures false in Newness(batch) <==> HasOld(batch)
  {
    if k :| 0 <= k < |batch| && !batch[k].isNew {
      assert Newness(batch)[k] == false;
    }
  }

  /** What a step does to the marks of one iterator. */
  lemma MarksAfter(c: Config, s: State, a: Action, i: nat)
    requires Next(c, s, a).Some? && i < |s.iterators|
    ensures var t := Next(c, s, a).value;
            && |t.iterators| == |s.iterators| && t.iterators[i].stopOnStale == s.iterators[i].stopOnStale
            && (a.Update? ==> a.w < |s.workers| && s.workers[a.w].Updating?)
            && (t.iterators[i].reachedStale <==>
                  s.iterators[i].reachedStale
                  || (a.Update? && s.workers[a.w].job.index == i && s.iterators[i].stopOnStale && HasOld(s.workers[a.w].batch)))
  {
    hide Iterator.Complete, Updates, FeederDecides, HasOld, Newness;
    if a.OfWorker() {
      WorkerFrame(c, s, a);
      if a.Update? {
        UpdateGrows(s, a.w);
        NewnessIs(s.workers[a.w].batch);
      }
    } else {
      FeederFrame(c, s, a);
      if a.FeederDecide? {
        if FeederDecides(s).value.feeder.Feeding? {
          MakeGrows(s);
        } else {
          DecidesWithoutJob(s);
        }
      }
    }
  }

  lemma StepKeepsStales(c: Config, its: seq<Iterator>, s: State, a: Action)
    requires Stales(its, s) && Channels(s) && Next(c, s, a).Some?
    ensures Stales(its, Next(c, s, a).value)
  {
    hide Next, HasOld, Channels, OldFound;
    var t := Next(c, s, a).value;
    IteratorsGrow(c, s, a);
    forall i | 0 <= i < |its|
      ensures t.iterators[i].stopOnStale == its[i].stopOnStale
      ensures t.iterators[i].reachedStale <==> its[i].reachedStale || (its[i].stopOnStale && OldFound(t, i))
    {
      MarksAfter(c, s, a, i);
      var found := OldFound(s, i);
      if a.OfWorker() {
        WorkerFinds(c, s, a, i);
      } else {
        FeederFrame(c, s, a);
        SameFound(s, t, i);
      }
    }
  }

  lemma SameFound(s: State, t: State, i: nat)
    requires t.workers == s.workers && t.published == s.published
    ensures OldFound(t, i) == OldFound(s, i)
  {
  }

  lemma {:induction false} RunCollects(c: Config, its: seq<Iterator>, schedule: seq<Action>)
    requires Run(c, its, schedule).Some?
    ensures Queued(Run(c, its, schedule).value) && Stales(its, Run(c, its, schedule).value) && SendsItems(Run(c, its, schedule).value)
  {
    hide Next, Channels, Jobs, Once, Storage, Counters, Stales, Queued, SendsItems;
    if schedule == [] {
      NothingCollected(c, its);
    } else {
      var before, a := schedule[..|schedule| - 1], schedule[|schedule| - 1];
      RunCollects(c, its, before);
      RunIsSafe(c, its, before);
      StepKeepsQueued(c, Run(c, its, before).value, a);
      StepKeepsSendsItems(c, Run(c, its, before).value, a);
      StepKeepsStales(c, its, Run(c, its, before).value, a);
    }
  }

  lemma NothingCollected(c: Config, its: seq<Iterator>)
    ensures Queued(Initial(c, its)) && Stales(its, Initial(c, its)) && SendsItems(Initial(c, its))
  {
    var s := Initial(c, its);
    forall i | 0 <= i < |its| ensures !OldFound(s, i) {
    }
  }

  /** What the results channel holds are the batches that were sent last, in order, and none of them is empty. */
  lemma ResultsInOrder(c: Config, its: seq<Iterator>, schedule: seq<Action>)
    requires Run(c, its, schedule).Some?
    ensures var s := Run(c, its, schedule).value;
            && |s.results| <= |s.published| && (forall p <- s.published :: p.batch != [])
            && forall k :: 0 <= k < |s.results| ==> s.results[k] == s.published[|s.published| - |s.results| + k].batch
  {
    hide Run, Stales;
    RunCollects(c, its, schedule);
  }

  /** An index whose search stops on stale results has seen one exactly when one of its batches that has an item that
      is not new was sent, or is about to be; then it is complete. */
  lemma StaleResultsEnd(c: Config, its: seq<Iterator>, schedule: seq<Action>, i: nat)
    requires Run(c, its, schedule).Some? && i < |its| && its[i].stopOnStale && !its[i].reachedStale
    ensures var s := Run(c, its, schedule).value;
            && |s.iterators| == |its|
            && (s.iterators[i].reachedStale <==>
                  || (exists p <- s.published :: p.job.index == i && exists k :: 0 <= k < |p.batch| && !p.batch[k].isNew)
                  || (exists w <- s.workers :: w.Sending? && w.job.index == i && exists k :: 0 <= k < |w.batch| && !w.batch[k].isNew))
            && (s.iterators[i].reachedStale ==> s.iterators[i].Complete())
  {
    hide Run, Iterator.ExceededPages, Iterator.HasNextField, Queued, SendsItems;
    RunCollects(c, its, schedule);
    StalesMean(its, Run(c, its, schedule).value, i);
  }

  lemma StalesMean(its: seq<Iterator>, s: State, i: nat)
    requires Stales(its, s) && i < |its|
    ensures |s.iterators| == |its| && s.iterators[i].stopOnStale == its[i].stopOnStale
    ensures s.iterators[i].reachedStale <==> its[i].reachedStale || (its[i].stopOnStale && OldFound(s, i))
    ensures OldFound(s, i) <==>
            || (exists p <- s.published :: p.job.index == i && exists k :: 0 <= k < |p.batch| && !p.batch[k].isNew)
            || (exists w <- s.workers :: w.Sending? && w.job.index == i && exists k :: 0 <= k < |w.batch| && !w.batch[k].isNew)
  {
    assert forall p <- s.published :: HasOld(p.batch) <==> exists k :: 0 <= k < |p.batch| && !p.batch[k].isNew;
    assert forall w <- s.workers :: w.Sending? ==> (HasOld(w.batch) <==> exists k :: 0 <= k < |w.batch| && !w.batch[k].isNew);
    var found := OldFound(s, i);
    hide HasOld;
  }

  // ---------- a round of the feeder ----------

  predicate InRound(f: Feeder) {
    f.Inner? || f.InnerChecking? || f.Feeding?
  }

  /** The indexes that the feeder has not dealt with in this round. */
  ghost function Undealt(f: Feeder): set<nat>
    requires InRound(f)
  {
    if f.InnerChecking? then f.left + {f.i} else f.left
  }

  ghost predicate Dealt(c: Config, its: seq<Iterator>, was: Iterator, i: nat)
    requires i < |its|
  {
    || its[i].currentPage == was.currentPage + 1
    || (its[i].currentPage == was.currentPage && (its[i].Complete() || PoolDone(c, its)))
  }

  /** Amid a round that began with the iterators `was`. */
  ghost predicate RoundGoesOn(c: Config, was: seq<Iterator>, s: State) {
    && |s.iterators| == |was| && InRound(s.feeder) && (s.feeder.InnerChecking? ==> s.feeder.i !in s.feeder.left)
    && forall i {:trigger was[i]} :: 0 <= i < |was| ==>
         if i in Undealt(s.feeder) then s.iterators[i].currentPage == was[i].currentPage else Dealt(c, s.iterators, was[i], i)
  }

  lemma DealtStays(c: Config, a: seq<Iterator>, b: seq<Iterator>, was: Iterator, i: nat)
    requires AllGrown(a, b) && Forward(a) && i < |a| && b[i].currentPage == a[i].currentPage && Dealt(c, a, was, i)
    ensures i < |b| && Dealt(c, b, was, i)
  {
    hide Iterator.Complete, Grown, PoolDone;
    GrownKeeps(a, b);
    if PoolDone(c, a) {
      DoneStays(c, a, b);
    }
  }

  /** What a step of the feeder deals with in a round. */
  lemma FeederDeals(c: Config, s: State, a: Action, i: nat)
    requires !a.OfWorker() && !a.FeederRoundOver? && Next(c, s, a).Some? && EndsWell(c, s) && i < |s.iterators|
    requires InRound(s.feeder) && (s.feeder.InnerChecking? ==> s.feeder.i !in s.feeder.left)
    ensures var t := Next(c, s, a).value;
            && InRound(t.feeder) && (t.feeder.InnerChecking? ==> t.feeder.i !in t.feeder.left) && |t.iterators| == |s.iterators|
            && (i in Undealt(t.feeder) ==> i in Undealt(s.feeder) && t.iterators[i].currentPage == s.iterators[i].currentPage)
            && (i !in Undealt(t.feeder) && i in Undealt(s.feeder) ==> Dealt(c, t.iterators, s.iterators[i], i))
            && (i !in Undealt(s.feeder) ==> t.iterators[i].currentPage == s.iterators[i].currentPage)
  {
    hide Iterator.Complete, Iterator.Shown, Unread, ScanHolds, WorkerStep, PoolDone, FeederReads, FeederDecides;
    match a
    case FeederRead(j) => RoundReads(c, s, j);
    case FeederDecide => RoundDecides(c, s);
    case _ =>
  }

  lemma RoundReads(c: Config, s: State, j: nat)
    requires FeederReads(c, s, j).Some? && EndsWell(c, s) && InRound(s.feeder)
    ensures var t := FeederReads(c, s, j).value;
            && t.iterators == s.iterators && s.feeder.InnerChecking?
            && ((t.feeder.InnerChecking? && t.feeder.i == s.feeder.i && t.feeder.left == s.feeder.left)
                || (t.feeder == Inner(s.feeder.left) && PoolDone(c, s.iterators)))
  {
    hide Iterator.Complete, Unread, ScanHolds, ReadOne, PoolDone;
    ScanNext(c, s.iterators, s.feeder.scan, j);
  }

  lemma RoundDecides(c: Config, s: State)
    requires FeederDecides(s).Some? && EndsWell(c, s) && InRound(s.feeder)
    ensures var t := FeederDecides(s).value;
            && s.feeder.InnerChecking? && s.feeder.i < |s.iterators| == |t.iterators|
            && (if t.feeder.Feeding?
                then t.feeder.left == s.feeder.left
                     && t.iterators == s.iterators[s.feeder.i := t.iterators[s.feeder.i]]
                     && t.iterators[s.feeder.i].currentPage == s.iterators[s.feeder.i].currentPage + 1
                else t.feeder == Inner(s.feeder.left) && t.iterators == s.iterators && PoolDone(c, s.iterators))
  {
    hide Iterator.Complete, Iterator.Shown, Unread, ScanHolds, PoolDone, Below;
    if s.feeder.scan.allComplete && SawAll(s, s.feeder.scan) {
      ScanEnds(c, s, s.feeder.scan);
    }
  }

  lemma StepGoesOn(c: Config, was: seq<Iterator>, s: State, a: Action)
    requires EndsWell(c, s) && RoundGoesOn(c, was, s) && Next(c, s, a).Some? && !a.FeederRoundOver?
    ensures RoundGoesOn(c, was, Next(c, s, a).value)
  {
    hide Next, Iterator.Complete, Grown, PoolDone, Undealt, FeederSound, WorkerSound;
    var t := Next(c, s, a).value;
    IteratorsGrow(c, s, a);
    if a.OfWorker() {
      WorkerFrame(c, s, a);
      WorkerPagesStay(c, s, a);
    } else {
      FeederStaysInRound(c, s, a);
    }
    forall i | 0 <= i < |was|
      ensures if i in Undealt(t.feeder) then t.iterators[i].currentPage == was[i].currentPage else Dealt(c, t.iterators, was[i], i)
    {
      assert if i in Undealt(s.feeder) then s.iterators[i].currentPage == was[i].currentPage else Dealt(c, s.iterators, was[i], i);
      if !a.OfWorker() {
        FeederDeals(c, s, a, i);
      }
      if i !in Undealt(s.feeder) {
        DealtStays(c, s.iterators, t.iterators, was[i], i);
      }
    }
  }

  lemma FeederStaysInRound(c: Config, s: State, a: Action)
    requires !a.OfWorker() && !a.FeederRoundOver? && Next(c, s, a).Some? && InRound(s.feeder)
    requires s.feeder.InnerChecking? ==> s.feeder.i !in s.feeder.left
    ensures var t := Next(c, s, a).value; InRound(t.feeder) && (t.feeder.InnerChecking? ==> t.feeder.i !in t.feeder.left)
  {
    hide Iterator.Complete, Iterator.Shown, WorkerStep;
  }

  lemma {:induction false} RoundRuns(c: Config, its: seq<Iterator>, before: seq<Action>, after: seq<Action>)
    requires Forward(its) && Run(c, its, before + after).Some? && Run(c, its, before).Some?
    requires var s := Run(c, its, before).value; s.feeder == Inner(Below(|s.iterators|))
    requires forall a <- after :: !a.FeederRoundOver?
    ensures RoundGoesOn(c, Run(c, its, before).value.iterators, Run(c, its, before + after).value)
  {
    hide Next, Run, EndsWell, RoundGoesOn;
    if after == [] {
      assert before + after == before;
      RoundBegins(c, Run(c, its, before).value);
    } else {
      var init, a := after[..|after| - 1], after[|after| - 1];
      Halves(c, its, before, after);
      assert after == init + [a];
      RoundRuns(c, its, before, init);
      RunEndsWell(c, its, before + init);
      StepGoesOn(c, Run(c, its, before).value.iterators, Run(c, its, before + init).value, a);
    }
  }

  lemma RoundBegins(c: Config, s: State)
    requires s.feeder == Inner(Below(|s.iterators|))
    ensures RoundGoesOn(c, s.iterators, s)
  {
  }

  /** In every round each index gets exactly one job, unless its iterator is complete or enough was found. */
  lemma RoundFeedsEach(c: Config, its: seq<Iterator>, before: seq<Action>, after: seq<Action>, i: nat)
    requires Forward(its) && Run(c, its, before + after).Some? && Run(c, its, before).Some? && i < |its|
    requires var s := Run(c, its, before).value; s.feeder == Inner(Below(|s.iterators|))
    requires (forall a <- after :: !a.FeederRoundOver?) && Run(c, its, before + after).value.feeder == Inner({})
    ensures var s, t := Run(c, its, before).value, Run(c, its, before + after).value;
            && |s.iterators| == |t.iterators| == |its|
            && s.iterators[i].currentPage <= t.iterators[i].currentPage <= s.iterators[i].currentPage + 1
            && (t.iterators[i].currentPage == s.iterators[i].currentPage ==>
                  t.iterators[i].Complete() || (c.limit > 0 && Total(t.iterators) >= c.limit))
  {
    hide Run, Iterator.Complete, Channels, Once, Storage, Counters, PagesOf;
    RunIsSafe(c, its, before);
    RunIsSafe(c, its, before + after);
    RoundRuns(c, its, before, after);
    var was := Run(c, its, before).value.iterators[i];
  }
}
