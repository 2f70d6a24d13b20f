/** What every schedule of the worker pool keeps: channels, jobs, stored items and counters. */
module WorkPoolSafety {
  import opened Options
  import opened SearchIterator
  import opened Sequences
  import opened WorkPool

  // ---------- sums over the workers ----------

  ghost function Present(ws: seq<Worker>): nat {
    if ws == [] then 0 else Present(ws[..|ws| - 1]) + (if ws[|ws| - 1].Gone? then 0 else 1)
  }

  lemma {:induction false} PresentUpdate(ws: seq<Worker>, k: nat, w: Worker)
    requires k < |ws|
    ensures Present(ws[k := w]) + (if ws[k].Gone? then 0 else 1) == Present(ws) + (if w.Gone? then 0 else 1)
    ensures !ws[k].Gone? ==> Present(ws) > 0
  {
    var n := |ws| - 1;
    if k == n {
      assert ws[k := w][..n] == ws[..n];
    } else {
      assert ws[k := w][..n] == ws[..n][k := w];
      PresentUpdate(ws[..n], k, w);
    }
  }

  /** Whether a worker has taken a job but not searched for it yet. */
  ghost function HeldBy(w: Worker, job: Job): nat {
    if (w.Checking? || w.CheckingIterator? || w.Searching?) && w.job == job then 1 else 0
  }

  ghost function Held(ws: seq<Worker>, job: Job): nat {
    if ws == [] then 0 else Held(ws[..|ws| - 1], job) + HeldBy(ws[|ws| - 1], job)
  }

  lemma {:induction false} HeldUpdate(ws: seq<Worker>, k: nat, w: Worker, job: Job)
    requires k < |ws|
    ensures Held(ws[k := w], job) + HeldBy(ws[k], job) == Held(ws, job) + HeldBy(w, job)
  {
    var n := |ws| - 1;
    if k == n {
      assert ws[k := w][..n] == ws[..n];
    } else {
      assert ws[k := w][..n] == ws[..n][k := w];
      HeldUpdate(ws[..n], k, w, job);
    }
  }

  /** The items a worker has counted for iterator i and is about to send. */
  ghost function PendingBy(w: Worker, i: nat): nat {
    if w.Sending? && w.job.index == i then |w.batch| else 0
  }

  ghost function Pending(ws: seq<Worker>, i: nat): nat {
    if ws == [] then 0 else Pending(ws[..|ws| - 1], i) + PendingBy(ws[|ws| - 1], i)
  }

  lemma {:induction false} PendingUpdate(ws: seq<Worker>, k: nat, w: Worker, i: nat)
    requires k < |ws|
    ensures Pending(ws[k := w], i) + PendingBy(ws[k], i) == Pending(ws, i) + PendingBy(w, i)
  {
    var n := |ws| - 1;
    if k == n {
      assert ws[k := w][..n] == ws[..n];
    } else {
      assert ws[k := w][..n] == ws[..n][k := w];
      PendingUpdate(ws[..n], k, w, i);
    }
  }

  lemma {:induction false} InitiallyNothing(n: nat, i: nat, job: Job)
    ensures var ws := seq(n, _ => Waiting); Present(ws) == n && Held(ws, job) == 0 && Pending(ws, i) == 0
  {
    if n > 0 {
      assert seq(n, _ => Waiting)[..n - 1] == seq(n - 1, _ => Waiting);
      InitiallyNothing(n - 1, i, job);
    }
  }

  // ---------- what one worker's step touches ----------

  /** Where a quiet step takes a worker: without a batch, not gone, and with no other job than it had. */
  ghost predicate MovesOn(w: Worker, next: Worker) {
    && !w.Saving? && !w.Updating? && !w.Sending? && !w.Gone?
    && !next.Saving? && !next.Updating? && !next.Sending? && !next.Gone?
    && forall job :: HeldBy(next, job) <= HeldBy(w, job)
  }

  lemma QuietFrame(c: Config, s: State, a: Action)
    requires a.Quiet() && Next(c, s, a).Some?
    ensures var t := Next(c, s, a).value;
            a.w < |s.workers| == |t.workers| && t == s.(workers := s.workers[a.w := t.workers[a.w]])
            && MovesOn(s.workers[a.w], t.workers[a.w])
  {
    hide OtherStep, Takes, Searches, Saves, Updates, Sends, Leaves, Iterator.Complete, ReadOne, CanRead, SawAll;
  }

  /** Queues and iterators: only Take moves a job, only Update touches an iterator. */
  lemma WorkerFrame(c: Config, s: State, a: Action)
    requires a.OfWorker() && Next(c, s, a).Some?
    ensures var t := Next(c, s, a).value;
            && t.feeder == s.feeder && t.fed == s.fed
            && |t.iterators| == |s.iterators|
            && (a.Update? || t.iterators == s.iterators)
            && (if a.Take? then s.work != [] && t.work == s.work[1..] && t.taken == s.taken + [s.work[0]]
                else t.work == s.work && t.taken == s.taken)
  {
    hide OtherStep, RunsOut, Reads, Decides, ChecksIterator, ChecksAgain, Iterator.Updated, MovesOn;
    if a.Quiet() {
      QuietFrame(c, s, a);
    }
  }

  lemma WorkerMoves(c: Config, s: State, a: Action)
    requires a.OfWorker() && Next(c, s, a).Some?
    ensures var t := Next(c, s, a).value;
            |t.workers| == |s.workers| && t.workers == s.workers[a.w := t.workers[a.w]]
  {
    hide OtherStep, RunsOut, Reads, Decides, ChecksIterator, ChecksAgain, Iterator.Updated, MovesOn;
    if a.Quiet() {
      QuietFrame(c, s, a);
    }
  }

  /** What an iterator counts, and that its page stays. */
  lemma UpdateFrame(s: State, w: nat)
    requires w < |s.workers| && Updates(s, w).Some?
    ensures var t, pc := Updates(s, w).value, s.workers[w];
            && |t.iterators| == |s.iterators| && pc.Updating? && pc.job.index < |s.iterators|
            && (forall i :: 0 <= i < |s.iterators| ==> t.iterators[i].currentPage == s.iterators[i].currentPage)
            && (forall i :: 0 <= i < |s.iterators| ==>
                  t.iterators[i].discovered == s.iterators[i].discovered + (if i == pc.job.index then |pc.batch| else 0))
  {
  }

  /** A step of the feeder, the closer or the reader leaves the workers and their accounts alone. */
  lemma FeederFrame(c: Config, s: State, a: Action)
    requires !a.OfWorker() && Next(c, s, a).Some?
    ensures var t := Next(c, s, a).value;
            && t.workers == s.workers && t.searched == s.searched && t.taken == s.taken
            && t.stored == s.stored && t.published == s.published && |t.iterators| == |s.iterators|
            && (a.FeederDecide? || t.iterators == s.iterators)
  {
    hide Iterator.Complete, Iterator.Shown, Iterator.Stepped, Iterator.Updated, HasEnough, Below, CanRead, SawAll,
      WorkerStep, ReadOne;
  }

  lemma FeederDecideFrame(s: State)
    requires FeederDecides(s).Some?
    ensures var t := FeederDecides(s).value;
            |t.iterators| == |s.iterators| &&
            forall i :: 0 <= i < |s.iterators| ==> t.iterators[i].discovered == s.iterators[i].discovered
  {
    hide Iterator.Complete, Iterator.Shown;
  }

  // ---------- channels ----------

  /** Nothing panicked: the work channel was closed by the feeder's last step only, the results channel
      only after every worker was done. */
  ghost predicate Channels(s: State) {
    && !s.panicked
    && (s.workClosed <==> s.feeder.Finished?)
    && (s.resultsClosed <==> s.closed)
    && s.waitCount == Present(s.workers)
    && (s.closed ==> s.waitCount == 0)
  }

  lemma NextKeepsChannels(c: Config, s: State, a: Action)
    requires Channels(s) && Next(c, s, a).Some?
    ensures Channels(Next(c, s, a).value)
  {
    hide Iterator.Complete, Iterator.Stepped, Iterator.Updated, Iterator.Shown, Present;
    var t := Next(c, s, a).value;
    if a.OfWorker() {
      PresentUpdate(s.workers, a.w, if a.w < |t.workers| then t.workers[a.w] else Gone);
    }
  }

  // ---------- jobs ----------

  /** The jobs the feeder has made, the one it is about to send included. */
  ghost function Made(s: State): seq<Job> {
    if s.feeder.Feeding? then s.fed + [s.feeder.job] else s.fed
  }

  /** The pages of the jobs for one index, in order. */
  ghost function PagesOf(jobs: seq<Job>, i: nat): seq<nat> {
    if jobs == [] then []
    else
      var last := jobs[|jobs| - 1];
      PagesOf(jobs[..|jobs| - 1], i) + (if last.index == i then [last.page] else [])
  }

  ghost function PagesFrom(first: nat, n: nat): seq<nat> {
    seq(n, k requires 0 <= k < n => first + k)
  }

  /** Jobs are taken in the order they were fed; those of one index carry the consecutive pages from its
      first page on; and no job is made twice. */
  ghost predicate Jobs(its: seq<Iterator>, s: State) {
    && s.fed == s.taken + s.work
    && |s.iterators| == |its|
    && (forall i :: 0 <= i < |its| ==> its[i].currentPage <= s.iterators[i].currentPage)
    && (forall i {:trigger PagesOf(Made(s), i)} :: 0 <= i < |its| ==>
          PagesOf(Made(s), i) == PagesFrom(its[i].currentPage, s.iterators[i].currentPage - its[i].currentPage))
    && (forall j <- Made(s) :: j.index < |its| && j.page < s.iterators[j.index].currentPage)
    && NoRepeats(Made(s))
  }

  /** No job is searched for more often than it was taken. */
  ghost predicate Once(s: State) {
    forall job :: multiset(s.searched)[job] + Held(s.workers, job) <= multiset(s.taken)[job]
  }

  lemma MakeKeepsJobs(its: seq<Iterator>, s: State, t: State, j: nat)
    requires Jobs(its, s) && j < |its| && !s.feeder.Feeding? && t.feeder.Feeding? && |t.iterators| == |s.iterators|
    requires t == s.(feeder := t.feeder, iterators := s.iterators[j := t.iterators[j]])
    requires t.feeder.job.index == j && t.feeder.job.page == s.iterators[j].currentPage
    requires t.iterators[j].currentPage == s.iterators[j].currentPage + 1
    ensures Jobs(its, t)
  {
    var job := t.feeder.job;
    assert Made(t) == s.fed + [job] && Made(s) == s.fed;
    assert Made(t)[..|Made(t)| - 1] == s.fed;
    forall i | 0 <= i < |its|
      ensures PagesOf(Made(t), i) == PagesFrom(its[i].currentPage, t.iterators[i].currentPage - its[i].currentPage)
    {
      assert PagesOf(Made(s), i) == PagesFrom(its[i].currentPage, s.iterators[i].currentPage - its[i].currentPage);
    }
    assert job !in s.fed;
  }

  lemma NextKeepsJobs(c: Config, its: seq<Iterator>, s: State, a: Action)
    requires Jobs(its, s) && Next(c, s, a).Some?
    ensures Jobs(its, Next(c, s, a).value)
  {
    hide PagesOf;
    if a.OfWorker() {
      WorkerKeepsJobs(c, its, s, a);
    } else {
      FeederKeepsJobs(c, its, s, a);
    }
  }

  /** A step of the feeder that makes no job makes none and loses none. */
  lemma FeederKeepsMade(c: Config, s: State, a: Action)
    requires !a.OfWorker() && Next(c, s, a).Some?
    requires s.fed == s.taken + s.work && !(a.FeederDecide? && Next(c, s, a).value.feeder.Feeding?)
    ensures var t := Next(c, s, a).value;
            Made(t) == Made(s) && t.iterators == s.iterators && t.fed == t.taken + t.work
  {
    hide FeederDecides, FeederReads, Iterator.Complete, Below, WorkerStep;
    if a.FeederDecide? {
      DecidesWithoutJob(s);
    } else if a.FeederRead? {
      ReadsWithoutJob(c, s, a.i);
    }
  }

  lemma DecidesWithoutJob(s: State)
    requires FeederDecides(s).Some? && !FeederDecides(s).value.feeder.Feeding?
    ensures var t := FeederDecides(s).value;
            !s.feeder.Feeding? && t.fed == s.fed && t.taken == s.taken && t.work == s.work && t.iterators == s.iterators
  {
    hide Iterator.Complete, Iterator.Shown, Iterator.Stepped, Below, SawAll;
  }

  lemma ReadsWithoutJob(c: Config, s: State, i: nat)
    requires FeederReads(c, s, i).Some?
    ensures var t := FeederReads(c, s, i).value;
            && !s.feeder.Feeding? && !t.feeder.Feeding?
            && t.fed == s.fed && t.taken == s.taken && t.work == s.work && t.iterators == s.iterators
  {
    hide ReadOne;
  }

  lemma FeederMakes(s: State)
    requires FeederDecides(s).Some? && FeederDecides(s).value.feeder.Feeding?
    ensures var t := FeederDecides(s).value;
            && s.feeder.InnerChecking? && s.feeder.i < |s.iterators| == |t.iterators|
            && t == s.(feeder := t.feeder, iterators := s.iterators[s.feeder.i := t.iterators[s.feeder.i]])
            && t.feeder.job.index == s.feeder.i && t.feeder.job.page == s.iterators[s.feeder.i].currentPage
            && t.iterators[s.feeder.i].currentPage == s.iterators[s.feeder.i].currentPage + 1
  {
    hide Iterator.Complete, Iterator.Shown, Below, SawAll;
  }

  lemma FeederKeepsJobs(c: Config, its: seq<Iterator>, s: State, a: Action)
    requires Jobs(its, s) && !a.OfWorker() && Next(c, s, a).Some?
    ensures Jobs(its, Next(c, s, a).value)
  {
    hide PagesOf, FeederDecides, FeederReads, FeederPicks, FeederSends, FeederEndsRound, ClosesResults, Receives, WorkerStep;
    var t := Next(c, s, a).value;
    if a.FeederDecide? && t.feeder.Feeding? {
      FeederMakes(s);
      MakeKeepsJobs(its, s, t, s.feeder.i);
    } else {
      FeederKeepsMade(c, s, a);
    }
  }

  lemma WorkerPagesStay(c: Config, s: State, a: Action)
    requires a.OfWorker() && Next(c, s, a).Some?
    ensures var t := Next(c, s, a).value;
            |t.iterators| == |s.iterators| &&
            forall i :: 0 <= i < |s.iterators| ==> t.iterators[i].currentPage == s.iterators[i].currentPage
  {
    hide Iterator.Complete, Updates;
    WorkerFrame(c, s, a);
    if a.Update? {
      UpdateFrame(s, a.w);
    }
  }

  lemma WorkerKeepsJobs(c: Config, its: seq<Iterator>, s: State, a: Action)
    requires Jobs(its, s) && a.OfWorker() && Next(c, s, a).Some?
    ensures Jobs(its, Next(c, s, a).value)
  {
    hide Next, PagesOf;
    WorkerFrame(c, s, a);
    WorkerPagesStay(c, s, a);
    var t := Next(c, s, a).value;
    assert Made(t) == Made(s);
    assert t.fed == t.taken + t.work;
  }

  lemma TakeBalance(s: State, w: nat, job: Job)
    requires w < |s.workers| && Takes(s, w).Some?
    ensures var t := Takes(s, w).value;
            && w < |t.workers| && t.searched == s.searched && HeldBy(s.workers[w], job) == 0
            && HeldBy(t.workers[w], job) + multiset(s.taken)[job] == multiset(t.taken)[job]
  {
  }

  lemma SearchBalance(c: Config, s: State, w: nat, found: Option<seq<Item>>, job: Job)
    requires w < |s.workers| && Searches(c, s, w, found).Some?
    ensures var t := Searches(c, s, w, found).value;
            && w < |t.workers| && t.taken == s.taken && HeldBy(t.workers[w], job) == 0
            && multiset(t.searched)[job] == multiset(s.searched)[job] + HeldBy(s.workers[w], job)
  {
  }

  lemma OtherBalance(c: Config, s: State, a: Action, job: Job)
    requires a.OfWorker() && Next(c, s, a).Some? && !a.Take? && !a.Search?
    ensures var t := Next(c, s, a).value;
            && a.w < |t.workers| && t.searched == s.searched && t.taken == s.taken
            && HeldBy(t.workers[a.w], job) <= HeldBy(s.workers[a.w], job)
  {
    hide OtherStep, Iterator.Updated, Takes, Searches, RunsOut, Reads, Decides, ChecksIterator, ChecksAgain;
    if a.Quiet() {
      QuietFrame(c, s, a);
    }
  }

  lemma NextKeepsOnce(c: Config, s: State, a: Action)
    requires Once(s) && Next(c, s, a).Some?
    ensures Once(Next(c, s, a).value)
  {
    hide Held, HeldBy, Takes, Searches, Updates, Sends, Reads, Decides, Saves, Iterator.Complete;
    if a.OfWorker() {
      WorkerMoves(c, s, a);
      var t := Next(c, s, a).value;
      forall job ensures multiset(t.searched)[job] + Held(t.workers, job) <= multiset(t.taken)[job] {
        if a.Take? {
          TakeBalance(s, a.w, job);
        } else if a.Search? {
          SearchBalance(c, s, a.w, a.found, job);
        } else {
          OtherBalance(c, s, a, job);
        }
        HeldUpdate(s.workers, a.w, t.workers[a.w], job);
      }
    } else {
      FeederFrame(c, s, a);
    }
  }

  lemma SubsetNoRepeats<T>(s: seq<T>, t: seq<T>)
    requires multiset(s) <= multiset(t) && NoRepeats(t)
    ensures NoRepeats(s)
  {
    if i, j :| 0 <= i < j < |s| && s[i] == s[j] {
      assert s == s[..i] + [s[i]] + s[i + 1..j] + [s[j]] + s[j + 1..];
      assert multiset(t)[s[i]] >= 2;
      AtMostOnce(t, s[i]);
    }
  }

  lemma {:induction false} AtMostOnce<T>(s: seq<T>, x: T)
    requires NoRepeats(s)
    ensures multiset(s)[x] <= 1
  {
    if s != [] {
      AtMostOnce(s[1..], x);
      assert s == [s[0]] + s[1..];
      if s[0] == x {
        assert x !in s[1..];
      }
    }
  }

  /** Each job fed is searched for at most once. */
  lemma SearchedOnce(its: seq<Iterator>, s: State)
    requires Jobs(its, s) && Once(s)
    ensures NoRepeats(s.searched) && forall j <- s.searched :: j in s.fed
  {
    hide PagesOf;
    assert forall i, j :: 0 <= i < j < |s.taken| ==> s.taken[i] == Made(s)[i] && s.taken[j] == Made(s)[j];
    forall job ensures multiset(s.searched)[job] <= multiset(s.taken)[job] {
      assert Held(s.workers, job) >= 0;
    }
    SubsetNoRepeats(s.searched, s.taken);
    forall j | j in s.searched ensures j in s.fed {
      assert j in multiset(s.searched);
    }
  }

  // ---------- stored items and counters ----------

  ghost predicate StoredUpTo(s: State, job: Job, batch: seq<Item>, n: nat) {
    n <= |batch| && forall k :: 0 <= k < n ==> (job, batch[k]) in s.stored
  }

  ghost predicate StoredBy(s: State, w: Worker) {
    && (w.Saving? ==> StoredUpTo(s, w.job, w.batch, w.saved))
    && (w.Updating? || w.Sending? ==> StoredUpTo(s, w.job, w.batch, |w.batch|))
  }

  /** Every item of a published batch, and of one about to be published, was added to the storage before. */
  ghost predicate Storage(s: State) {
    && (forall p <- s.published :: StoredUpTo(s, p.job, p.batch, |p.batch|))
    && (forall w <- s.workers :: StoredBy(s, w))
  }

  lemma StoredMore(s: State, t: State, w: Worker)
    requires StoredBy(s, w) && s.stored <= t.stored
    ensures StoredBy(t, w)
  {
  }

  lemma SaveStores(s: State, w: nat)
    requires w < |s.workers| && Saves(s, w).Some? && StoredBy(s, s.workers[w])
    ensures var t := Saves(s, w).value; |t.workers| == |s.workers| && StoredBy(t, t.workers[w]) && s.stored <= t.stored
  {
  }

  /** The worker that moved. */
  lemma MovedStored(c: Config, s: State, a: Action)
    requires a.OfWorker() && Next(c, s, a).Some? && StoredBy(s, s.workers[a.w])
    ensures var t := Next(c, s, a).value; |t.workers| == |s.workers| && StoredBy(t, t.workers[a.w]) && s.stored <= t.stored
  {
    hide OtherStep, Iterator.Updated, Saves, RunsOut, Reads, Decides, ChecksIterator, ChecksAgain;
    if a.Save? {
      SaveStores(s, a.w);
    } else if a.Quiet() {
      QuietFrame(c, s, a);
    } else {
      assert Next(c, s, a).value.stored == s.stored;
    }
  }

  lemma MovedPublished(c: Config, s: State, a: Action)
    requires a.OfWorker() && Next(c, s, a).Some?
    ensures var t, w := Next(c, s, a).value, s.workers[a.w];
            t.published == s.published || (w.Sending? && t.published == s.published + [Published(w.job, w.batch)])
  {
    hide OtherStep, Iterator.Updated, StoredUpTo, RunsOut, Reads, Decides, ChecksIterator, ChecksAgain;
    if a.Quiet() {
      QuietFrame(c, s, a);
    }
  }

  lemma NextKeepsStorage(c: Config, s: State, a: Action)
    requires Storage(s) && Next(c, s, a).Some?
    ensures Storage(Next(c, s, a).value)
  {
    hide Next;
    var t := Next(c, s, a).value;
    if !a.OfWorker() {
      FeederFrame(c, s, a);
      forall w | w in t.workers ensures StoredBy(t, w) {
        StoredMore(s, t, w);
      }
    } else {
      WorkerExists(c, s, a);
      assert StoredBy(s, s.workers[a.w]);
      WorkerFrame(c, s, a);
      WorkerMoves(c, s, a);
      MovedStored(c, s, a);
      MovedPublished(c, s, a);
      forall w | w in t.workers ensures StoredBy(t, w) {
        if w != t.workers[a.w] {
          assert w in s.workers;
          StoredMore(s, t, w);
        }
      }
    }
    forall p | p in t.published ensures StoredUpTo(t, p.job, p.batch, |p.batch|) {
      if p in s.published {
        assert StoredUpTo(s, p.job, p.batch, |p.batch|);
      }
    }
  }

  lemma WorkerExists(c: Config, s: State, a: Action)
    requires a.OfWorker() && Next(c, s, a).Some?
    ensures a.w < |s.workers|
  {
  }

  ghost function PublishedCount(ps: seq<Published>, i: nat): nat {
    if ps == [] then 0
    else PublishedCount(ps[..|ps| - 1], i) + (if ps[|ps| - 1].job.index == i then |ps[|ps| - 1].batch| else 0)
  }

  /** An iterator has counted the items of its batches sent and about to be sent. */
  ghost predicate Counters(its: seq<Iterator>, s: State) {
    && |s.iterators| == |its|
    && forall i {:trigger Pending(s.workers, i)} :: 0 <= i < |its| ==>
         s.iterators[i].discovered == its[i].discovered + PublishedCount(s.published, i) + Pending(s.workers, i)
  }

  /** What one worker's step does to one iterator's accounts. */
  lemma AccountsBalance(c: Config, s: State, a: Action, i: nat)
    requires a.OfWorker() && Next(c, s, a).Some? && i < |s.iterators| && !a.Update? && !a.Send?
    ensures var t := Next(c, s, a).value;
            && t.published == s.published && a.w < |t.workers|
            && PendingBy(s.workers[a.w], i) == PendingBy(t.workers[a.w], i)
  {
    hide OtherStep, Updates, Sends, RunsOut, Reads, Decides, ChecksIterator, ChecksAgain;
    if a.Quiet() {
      QuietFrame(c, s, a);
    }
  }

  lemma SendBalance(c: Config, s: State, w: nat, i: nat)
    requires w < |s.workers| && Sends(c, s, w).Some?
    ensures var t := Sends(c, s, w).value;
            && w < |t.workers|
            && PublishedCount(s.published, i) + PendingBy(s.workers[w], i)
               == PublishedCount(t.published, i) + PendingBy(t.workers[w], i)
  {
    var t := Sends(c, s, w).value;
    if !s.resultsClosed {
      assert t.published[..|s.published|] == s.published;
    }
  }

  lemma UpdateBalance(s: State, w: nat, i: nat)
    requires w < |s.workers| && Updates(s, w).Some? && i < |s.iterators|
    ensures var t := Updates(s, w).value;
            && w < |t.workers| && |t.iterators| == |s.iterators| && t.published == s.published
            && t.iterators[i].discovered == s.iterators[i].discovered + PendingBy(t.workers[w], i)
            && PendingBy(s.workers[w], i) == 0
  {
    UpdateFrame(s, w);
  }

  lemma NextKeepsCounters(c: Config, its: seq<Iterator>, s: State, a: Action)
    requires Counters(its, s) && Next(c, s, a).Some?
    ensures Counters(its, Next(c, s, a).value)
  {
    hide Pending, PendingBy, PublishedCount, Updates, Sends, FeederDecides, Iterator.Complete;
    var t := Next(c, s, a).value;
    if a.OfWorker() {
      WorkerFrame(c, s, a);
      WorkerMoves(c, s, a);
      forall i | 0 <= i < |its|
        ensures t.iterators[i].discovered == its[i].discovered + PublishedCount(t.published, i) + Pending(t.workers, i)
      {
        assert s.iterators[i].discovered == its[i].discovered + PublishedCount(s.published, i) + Pending(s.workers, i);
        PendingUpdate(s.workers, a.w, t.workers[a.w], i);
        if a.Update? {
          UpdateBalance(s, a.w, i);
        } else if a.Send? {
          SendBalance(c, s, a.w, i);
        } else {
          AccountsBalance(c, s, a, i);
        }
      }
    } else {
      FeederFrame(c, s, a);
      if a.FeederDecide? {
        FeederDecideFrame(s);
      }
    }
  }

  // ---------- every schedule ----------

  ghost predicate Safe(its: seq<Iterator>, s: State) {
    Channels(s) && Jobs(its, s) && Once(s) && Storage(s) && Counters(its, s)
  }

  lemma InitialSafe(c: Config, its: seq<Iterator>)
    ensures Safe(its, Initial(c, its))
  {
    hide Present, Held, Pending;
    var s := Initial(c, its);
    forall job ensures Held(s.workers, job) == 0 && Present(s.workers) == c.workerCount {
      InitiallyNothing(c.workerCount, 0, job);
    }
    assert Held(s.workers, Job(0, 0, map[])) == 0;
    forall i | 0 <= i < |its| ensures its[i].discovered == its[i].discovered + PublishedCount([], i) + Pending(s.workers, i) {
      InitiallyNothing(c.workerCount, i, Job(0, 0, map[]));
    }
  }

  /** Whatever the schedule, no channel is misused, jobs are fed and taken in page order and searched for
      at most once, published items are in the storage, and the counters match the batches. */
  lemma {:induction false} RunIsSafe(c: Config, its: seq<Iterator>, schedule: seq<Action>)
    requires Run(c, its, schedule).Some?
    ensures Safe(its, Run(c, its, schedule).value)
  {
    hide Next, Channels, Jobs, Once, Storage, Counters, Initial;
    if schedule == [] {
      InitialSafe(c, its);
    } else {
      var before, a := schedule[..|schedule| - 1], schedule[|schedule| - 1];
      RunIsSafe(c, its, before);
      var s := Run(c, its, before).value;
      NextKeepsChannels(c, s, a);
      NextKeepsJobs(c, its, s, a);
      NextKeepsOnce(c, s, a);
      NextKeepsStorage(c, s, a);
      NextKeepsCounters(c, its, s, a);
    }
  }
}
