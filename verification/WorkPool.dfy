/** The search worker pool as interleaved atomic steps: one feeder, W workers, two buffered channels, a wait
    group with its closer, and the shared iterators. One step is one channel operation, one read of an
    iterator's counters, one update of them, one Add to the storage, or one search. */
module WorkPool {
  import opened SearchIterator
  import opened Sequences
  import opened Options

  datatype Item = Item(id: nat, isNew: bool)

  datatype Job = Job(index: nat, page: nat, fields: map<string, string>)

  /** How far an evaluation of isComplete has got: the iterators read, the items counted, and whether all
      of those were complete. */
  datatype Scan = Scan(seen: set<nat>, total: nat, allComplete: bool)

  datatype Worker =
    | Waiting
    | Checking(job: Job, scan: Scan)          // pool.isComplete()
    | CheckingIterator(job: Job)              // workJob.Iterator.IsComplete()
    | Searching(job: Job)
    | Saving(job: Job, batch: seq<Item>, saved: nat)
    | Updating(job: Job, batch: seq<Item>)
    | Sending(job: Job, batch: seq<Item>)
    | CheckingAgain(job: Job)
    | Leaving                                 // before wg.Done()
    | Gone

  datatype Feeder =
    | Outer(scan: Scan)                       // for !pool.isComplete()
    | Inner(left: set<nat>)                   // range over the iterators
    | InnerChecking(left: set<nat>, i: nat, scan: Scan)
    | Feeding(left: set<nat>, job: Job)
    | Finished

  datatype Published = Published(job: Job, batch: seq<Item>)

  datatype State = State(
    iterators: seq<Iterator>,
    work: seq<Job>, workClosed: bool,
    results: seq<seq<Item>>, resultsClosed: bool,
    feeder: Feeder, workers: seq<Worker>,
    waitCount: int, closed: bool,
    panicked: bool,                           // a send on a closed channel, a second close, a negative wait group
    // history
    fed: seq<Job>, taken: seq<Job>, searched: seq<Job>,
    stored: set<(Job, Item)>, published: seq<Published>)

  datatype Config = Config(workerCount: nat, limit: nat)

  datatype Action =
    | FeederRead(i: nat) | FeederDecide | FeederPick(i: nat) | FeederRoundOver | FeederSend
    | Take(w: nat) | RanOut(w: nat) | Read(w: nat, i: nat) | Decide(w: nat) | CheckIterator(w: nat)
    | Search(w: nat, found: Option<seq<Item>>) | Save(w: nat) | Update(w: nat) | Send(w: nat) | CheckAgain(w: nat)
    | Leave(w: nat)
    | CloseResults | Receive
  {
    predicate OfWorker() {
      !FeederRead? && !FeederDecide? && !FeederPick? && !FeederRoundOver? && !FeederSend? && !CloseResults? && !Receive?
    }

    /** The steps that only move the worker on. */
    predicate Quiet() {
      RanOut? || Read? || Decide? || CheckIterator? || CheckAgain?
    }
  }

  predicate HasEnough(limit: nat, n: nat) {
    limit > 0 && n >= limit
  }

  const START := Scan({}, 0, true)

  /** One round of isComplete's loop; None when it returns true in the middle. */
  function ReadOne(limit: nat, its: seq<Iterator>, scan: Scan, i: nat): Option<Scan>
    requires i < |its|
  {
    var total := scan.total + its[i].discovered;
    if HasEnough(limit, total) then None
    else Some(Scan(scan.seen + {i}, total, scan.allComplete && its[i].Complete()))
  }

  function CloseWork(s: State): State {
    if s.workClosed then s.(panicked := true) else s.(feeder := Finished, workClosed := true)
  }

  predicate SawAll(s: State, scan: Scan) {
    scan.seen == Below(|s.iterators|)
  }

  predicate CanRead(s: State, scan: Scan, i: nat) {
    i < |s.iterators| && i !in scan.seen
  }

  // ---------- the feeder ----------

  /** One round of isComplete's loop, in the outer loop's condition or before a job is made. */
  function FeederReads(c: Config, s: State, i: nat): Option<State> {
    match s.feeder
    case Outer(scan) =>
      if !CanRead(s, scan, i) then None
      else (
        match ReadOne(c.limit, s.iterators, scan, i)
        case None => Some(CloseWork(s))
        case Some(scan') => Some(s.(feeder := Outer(scan'))))
    case InnerChecking(left, j, scan) =>
      if !CanRead(s, scan, i) then None
      else (
        match ReadOne(c.limit, s.iterators, scan, i)
        case None => Some(s.(feeder := Inner(left)))
        case Some(scan') => Some(s.(feeder := InnerChecking(left, j, scan'))))
    case _ => None
  }

  /** isComplete returns; if it is false, the outer loop starts a round, or iterator.Next makes a job. */
  function FeederDecides(s: State): Option<State> {
    match s.feeder
    case Outer(scan) =>
      if !SawAll(s, scan) then None
      else if scan.allComplete then Some(CloseWork(s))
      else Some(s.(feeder := Inner(Below(|s.iterators|))))
    case InnerChecking(left, j, scan) =>
      if !SawAll(s, scan) || j >= |s.iterators| then None
      else if scan.allComplete then Some(s.(feeder := Inner(left)))
      else
        var it := s.iterators[j];
        Some(s.(feeder := Feeding(left, Job(j, it.currentPage, it.Shown())), iterators := s.iterators[j := it.Stepped()]))
    case _ => None
  }

  function FeederPicks(s: State, i: nat): Option<State> {
    if !s.feeder.Inner? || i !in s.feeder.left || i >= |s.iterators| then None
    else if s.iterators[i].Complete() then Some(s.(feeder := Inner(s.feeder.left - {i})))
    else Some(s.(feeder := InnerChecking(s.feeder.left - {i}, i, START)))
  }

  function FeederEndsRound(s: State): Option<State> {
    if !s.feeder.Inner? || s.feeder.left != {} then None else Some(s.(feeder := Outer(START)))
  }

  function FeederSends(c: Config, s: State): Option<State> {
    if !s.feeder.Feeding? then None
    else if s.workClosed then Some(s.(panicked := true))
    else if |s.work| >= c.workerCount then None
    else Some(s.(feeder := Inner(s.feeder.left), work := s.work + [s.feeder.job], fed := s.fed + [s.feeder.job]))
  }

  // ---------- a worker ----------

  function SetWorker(s: State, w: nat, pc: Worker): State
    requires w < |s.workers|
  {
    s.(workers := s.workers[w := pc])
  }

  function Takes(s: State, w: nat): Option<State>
    requires w < |s.workers|
  {
    if !s.workers[w].Waiting? || s.work == [] then None
    else Some(SetWorker(s, w, Checking(s.work[0], START)).(work := s.work[1..], taken := s.taken + [s.work[0]]))
  }

  /** The work channel is closed and drained. */
  function RunsOut(s: State, w: nat): Option<State>
    requires w < |s.workers|
  {
    if !s.workers[w].Waiting? || s.work != [] || !s.workClosed then None else Some(SetWorker(s, w, Leaving))
  }

  function Reads(c: Config, s: State, w: nat, i: nat): Option<State>
    requires w < |s.workers|
  {
    var pc := s.workers[w];
    if !pc.Checking? || !CanRead(s, pc.scan, i) then None
    else
      match ReadOne(c.limit, s.iterators, pc.scan, i)
      case None => Some(SetWorker(s, w, Leaving))
      case Some(scan) => Some(SetWorker(s, w, Checking(pc.job, scan)))
  }

  function Decides(s: State, w: nat): Option<State>
    requires w < |s.workers|
  {
    var pc := s.workers[w];
    if !pc.Checking? || !SawAll(s, pc.scan) then None
    else Some(SetWorker(s, w, if pc.scan.allComplete then Leaving else CheckingIterator(pc.job)))
  }

  function ChecksIterator(s: State, w: nat): Option<State>
    requires w < |s.workers|
  {
    var pc := s.workers[w];
    if !pc.CheckingIterator? || pc.job.index >= |s.iterators| then None
    else Some(SetWorker(s, w, if s.iterators[pc.job.index].Complete() then Leaving else Searching(pc.job)))
  }

  /** A search fails, or yields at most `limit` items (see ProcessScrapedItems). */
  function Searches(c: Config, s: State, w: nat, found: Option<seq<Item>>): Option<State>
    requires w < |s.workers|
  {
    var pc := s.workers[w];
    if !pc.Searching? || (found.Some? && c.limit > 0 && |found.value| > c.limit) then None
    else Some(SetWorker(s, w, if found.None? then Waiting else Saving(pc.job, found.value, 0)).(searched := s.searched + [pc.job]))
  }

  function Saves(s: State, w: nat): Option<State>
    requires w < |s.workers|
  {
    var pc := s.workers[w];
    if !pc.Saving? then None
    else if pc.saved < |pc.batch| then
      Some(SetWorker(s, w, Saving(pc.job, pc.batch, pc.saved + 1)).(stored := s.stored + {(pc.job, pc.batch[pc.saved])}))
    else Some(SetWorker(s, w, Updating(pc.job, pc.batch)))
  }

  function Newness(batch: seq<Item>): seq<bool> {
    seq(|batch|, i requires 0 <= i < |batch| => batch[i].isNew)
  }

  /** The iterator counts the batch; an empty batch is nil and not sent. */
  function Updates(s: State, w: nat): Option<State>
    requires w < |s.workers|
  {
    var pc := s.workers[w];
    if !pc.Updating? || pc.job.index >= |s.iterators| then None
    else
      var it := s.iterators[pc.job.index].Updated(Newness(pc.batch));
      Some(SetWorker(s, w, if pc.batch == [] then CheckingAgain(pc.job) else Sending(pc.job, pc.batch)).(
             iterators := s.iterators[pc.job.index := it]))
  }

  function Sends(c: Config, s: State, w: nat): Option<State>
    requires w < |s.workers|
  {
    var pc := s.workers[w];
    if !pc.Sending? then None
    else if s.resultsClosed then Some(s.(panicked := true))
    else if |s.results| >= c.workerCount then None
    else Some(SetWorker(s, w, CheckingAgain(pc.job)).(
                results := s.results + [pc.batch], published := s.published + [Published(pc.job, pc.batch)]))
  }

  function ChecksAgain(s: State, w: nat): Option<State>
    requires w < |s.workers|
  {
    var pc := s.workers[w];
    if !pc.CheckingAgain? || pc.job.index >= |s.iterators| then None
    else Some(SetWorker(s, w, if s.iterators[pc.job.index].Complete() then Leaving else Waiting))
  }

  function Leaves(s: State, w: nat): Option<State>
    requires w < |s.workers|
  {
    if !s.workers[w].Leaving? then None
    else if s.waitCount <= 0 then Some(s.(panicked := true))
    else Some(SetWorker(s, w, Gone).(waitCount := s.waitCount - 1))
  }

  // ---------- the closer and the reader of the results ----------

  function ClosesResults(s: State): Option<State> {
    if s.waitCount != 0 || s.closed then None
    else if s.resultsClosed then Some(s.(panicked := true))
    else Some(s.(resultsClosed := true, closed := true))
  }

  function Receives(s: State): Option<State> {
    if s.results == [] then None else Some(s.(results := s.results[1..]))
  }

  function WorkerStep(c: Config, s: State, a: Action): Option<State>
    requires a.OfWorker() && a.w < |s.workers|
  {
    match a
    case Take(w) => Takes(s, w)
    case RanOut(w) => RunsOut(s, w)
    case Read(w, i) => Reads(c, s, w, i)
    case Decide(w) => Decides(s, w)
    case CheckIterator(w) => ChecksIterator(s, w)
    case Search(w, found) => Searches(c, s, w, found)
    case Save(w) => Saves(s, w)
    case Update(w) => Updates(s, w)
    case Send(w) => Sends(c, s, w)
    case CheckAgain(w) => ChecksAgain(s, w)
    case Leave(w) => Leaves(s, w)
  }

  /** A step of the feeder, the closer or the reader. */
  function OtherStep(c: Config, s: State, a: Action): Option<State>
    requires !a.OfWorker()
  {
    match a
    case FeederRead(i) => FeederReads(c, s, i)
    case FeederDecide => FeederDecides(s)
    case FeederPick(i) => FeederPicks(s, i)
    case FeederRoundOver => FeederEndsRound(s)
    case FeederSend => FeederSends(c, s)
    case CloseResults => ClosesResults(s)
    case Receive => Receives(s)
  }

  /** The step an action takes, if it can be taken. */
  function Next(c: Config, s: State, a: Action): Option<State> {
    if s.panicked then None
    else if !a.OfWorker() then OtherStep(c, s, a)
    else if a.w >= |s.workers| then None
    else WorkerStep(c, s, a)
  }

  function Initial(c: Config, its: seq<Iterator>): State {
    State(its, [], false, [], false, Outer(START), seq(c.workerCount, _ => Waiting), c.workerCount, false, false,
          [], [], [], {}, [])
  }

  /** The state after a schedule, if all its steps can be taken. */
  function Run(c: Config, its: seq<Iterator>, schedule: seq<Action>): Option<State> {
    if schedule == [] then Some(Initial(c, its))
    else match Run(c, its, schedule[..|schedule| - 1])
      case None => None
      case Some(s) => Next(c, s, schedule[|schedule| - 1])
  }
}
