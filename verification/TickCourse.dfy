/** What a tick does, as a course of turns: the earliest timer that is due has the next turn, and runs if it has a
    callback by then. Callbacks run with the lock given up, so they may add timers, which may be due at once, and
    cancel any timer, also one that was added in the same tick; what the i-th callback of a tick does is the i-th
    entry of `env`. */
module TickCourse {
  import opened HeapOrder
  import opened TimerHeap

  datatype Effect =
    | AddOnce(d: int, at: int)       // AddCallback called at time `at`
    | AddRepeating(d: int, at: int)  // AddTimer called at time `at`
    | CancelTimer(t: Timer)          // Cancel on a timer that existed before the tick
    | CancelAdded(n: nat)            // Cancel on the n-th timer added in this tick, if there is one by now
  {
    predicate IsAdd() {
      AddOnce? || AddRepeating?
    }
  }

  function IntervalOf(e: Effect): int
    requires e.IsAdd()
  {
    if e.AddRepeating? && e.d < MIN_TIMER_INTERVAL then MIN_TIMER_INTERVAL else e.d
  }

  function FireTimeOf(e: Effect): int
    requires e.IsAdd()
  {
    e.at + IntervalOf(e)
  }

  ghost predicate CancelsWithin(effects: seq<Effect>, universe: set<Timer>) {
    forall e <- effects :: e.CancelTimer? ==> e.t in universe
  }

  /** A timer that was asked for, and whether it was not cancelled since. */
  datatype Armed = Armed(request: Effect, live: bool)

  /** The timers asked for in this tick, after one more effect. */
  ghost function Arming(armed: seq<Armed>, e: Effect): seq<Armed> {
    if e.IsAdd() then armed + [Armed(e, true)]
    else if e.CancelAdded? && e.n < |armed| then armed[e.n := armed[e.n].(live := false)]
    else armed
  }

  ghost function ArmedBy(armed: seq<Armed>, effects: seq<Effect>): seq<Armed> {
    if effects == [] then armed else Arming(ArmedBy(armed, effects[..|effects| - 1]), effects[|effects| - 1])
  }

  /** A timer before the tick. */
  datatype Was = Was(key: Key, live: bool, interval: int)

  ghost function Snapshot(universe: set<Timer>): map<Timer, Was>
    reads universe
  {
    map t | t in universe :: Was(t.Key(), t.callback, t.interval)
  }

  ghost function EffectsAt(env: seq<seq<Effect>>, i: nat): seq<Effect> {
    if i < |env| then env[i] else []
  }

  lemma NothingArmed(armed: seq<Armed>, effects: seq<Effect>)
    ensures ArmedBy(armed, effects[..0]) == armed
  {
  }

  lemma ArmedNext(armed: seq<Armed>, effects: seq<Effect>, i: nat)
    requires i < |effects|
    ensures ArmedBy(armed, effects[..i + 1]) == Arming(ArmedBy(armed, effects[..i]), effects[i])
    ensures effects[..i + 1] == effects[..i] + [effects[i]]
  {
    assert effects[..i + 1][..i] == effects[..i];
  }

  lemma {:induction false} ArmedGrows(armed: seq<Armed>, effects: seq<Effect>)
    ensures |armed| <= |ArmedBy(armed, effects)|
    ensures forall k :: 0 <= k < |armed| ==> ArmedBy(armed, effects)[k].request == armed[k].request
  {
    if effects == [] {
      assert ArmedBy(armed, effects) == armed;
    } else {
      ArmedGrows(armed, effects[..|effects| - 1]);
    }
  }

  /** Timers that repeat are not due when they are added: their interval is positive, and the clock does not go back. */
  ghost predicate RepeatsLater(effects: seq<Effect>, now: int) {
    forall e <- effects :: e.AddRepeating? ==> FireTimeOf(e) > now
  }

  // ---------- turns ----------

  /** A timer that waited when the tick began, or the k-th that was added in it. */
  datatype Who = Waiting(t: Timer) | Added(k: nat)

  datatype Turn = Turn(who: Who, runs: bool)

  /** The timers from before the tick that have a callback, those added with theirs, and how many callbacks ran. */
  datatype Course = Course(live: set<Timer>, armed: seq<Armed>, ran: nat)

  /** A timer that does not repeat loses its callback before it runs. */
  ghost function RunOut(c: Course, who: Who): Course {
    match who
    case Waiting(t) => if t.repeat then c else c.(live := c.live - {t})
    case Added(k) =>
      if k < |c.armed| && !c.armed[k].request.AddRepeating? then c.(armed := c.armed[k := c.armed[k].(live := false)]) else c
  }

  ghost function LiveAfter(live: set<Timer>, effects: seq<Effect>): set<Timer> {
    set t <- live | CancelTimer(t) !in effects
  }

  ghost function AfterTurn(c: Course, env: seq<seq<Effect>>, turn: Turn): Course {
    if !turn.runs then c
    else
      var out, effects := RunOut(c, turn.who), EffectsAt(env, c.ran);
      Course(LiveAfter(out.live, effects), ArmedBy(out.armed, effects), c.ran + 1)
  }

  /** How things stand after the turns. */
  ghost function CourseOf(live: set<Timer>, env: seq<seq<Effect>>, turns: seq<Turn>): Course {
    if turns == [] then Course(live, [], 0)
    else AfterTurn(CourseOf(live, env, turns[..|turns| - 1]), env, turns[|turns| - 1])
  }

  ghost predicate HasCallback(c: Course, who: Who) {
    match who
    case Waiting(t) => t in c.live
    case Added(k) => k < |c.armed| && c.armed[k].live
  }

  ghost predicate HadTurn(turns: seq<Turn>, who: Who) {
    exists runs :: Turn(who, runs) in turns
  }

  /** The timers that waited, and those added so far. */
  ghost function Known(start: set<Timer>, c: Course): set<Who> {
    (set t <- start :: Waiting(t)) + (set k: nat | k < |c.armed| && c.armed[k].request.IsAdd() :: Added(k))
  }

  /** The timer is there and had no turn yet. */
  ghost predicate Pends(start: set<Timer>, c: Course, turns: seq<Turn>, who: Who) {
    who in Known(start, c) && !HadTurn(turns, who)
  }

  ghost function FireTime(was: map<Timer, Was>, c: Course, who: Who): int {
    match who
    case Waiting(t) => if t in was then was[t].key.fireTime else 0
    case Added(k) => if k < |c.armed| && c.armed[k].request.IsAdd() then FireTimeOf(c.armed[k].request) else 0
  }

  /** Of two timers with one fire time, the one that was added before. */
  ghost predicate AddedBefore(was: map<Timer, Was>, x: Who, y: Who) {
    match x
    case Waiting(t) => y.Added? || (t in was && y.t in was && was[t].key.addseq < was[y.t].key.addseq)
    case Added(k) => y.Added? && k < y.k
  }

  ghost predicate Before(was: map<Timer, Was>, c: Course, x: Who, y: Who) {
    FireTime(was, c, x) < FireTime(was, c, y) || (FireTime(was, c, x) == FireTime(was, c, y) && AddedBefore(was, x, y))
  }

  /** The turn comes next: it is that of the earliest timer, which is due, and runs exactly if it has a callback. */
  ghost predicate ComesNext(was: map<Timer, Was>, start: set<Timer>, live: set<Timer>, env: seq<seq<Effect>>, now: int,
                            turns: seq<Turn>, turn: Turn) {
    var c := CourseOf(live, env, turns);
    && Pends(start, c, turns, turn.who) && FireTime(was, c, turn.who) <= now && (turn.runs <==> HasCallback(c, turn.who))
    && forall x <- Known(start, c) :: Pends(start, c, turns, x) && x != turn.who ==> Before(was, c, turn.who, x)
  }

  ghost predicate History(was: map<Timer, Was>, start: set<Timer>, live: set<Timer>, env: seq<seq<Effect>>, now: int, turns: seq<Turn>) {
    turns == [] ||
    (History(was, start, live, env, now, turns[..|turns| - 1])
     && ComesNext(was, start, live, env, now, turns[..|turns| - 1], turns[|turns| - 1]))
  }

  /** No timer is due any more. */
  ghost predicate Settled(was: map<Timer, Was>, start: set<Timer>, live: set<Timer>, env: seq<seq<Effect>>, now: int, turns: seq<Turn>) {
    var c := CourseOf(live, env, turns);
    forall x <- Known(start, c) :: Pends(start, c, turns, x) ==> FireTime(was, c, x) > now
  }

  /** Timers that repeat and were added in the tick are not due in it. */
  ghost predicate AllRepeatLater(armed: seq<Armed>, now: int) {
    forall a <- armed :: a.request.AddRepeating? ==> FireTimeOf(a.request) > now
  }

  lemma {:induction false} ArmedRepeatLater(armed: seq<Armed>, effects: seq<Effect>, now: int)
    requires AllRepeatLater(armed, now) && RepeatsLater(effects, now)
    ensures AllRepeatLater(ArmedBy(armed, effects), now)
  {
    if effects == [] {
      assert ArmedBy(armed, effects) == armed;
    } else {
      ArmedRepeatLater(armed, effects[..|effects| - 1], now);
    }
  }

  lemma TurnRepeatsLater(c: Course, env: seq<seq<Effect>>, turn: Turn, now: int)
    requires AllRepeatLater(c.armed, now) && forall e <- env :: RepeatsLater(e, now)
    ensures AllRepeatLater(AfterTurn(c, env, turn).armed, now)
  {
    hide ArmedBy, LiveAfter;
    if turn.runs {
      ArmedRepeatLater(RunOut(c, turn.who).armed, EffectsAt(env, c.ran), now);
    }
  }

  lemma TurnNext(live: set<Timer>, env: seq<seq<Effect>>, turns: seq<Turn>, turn: Turn)
    ensures CourseOf(live, env, turns + [turn]) == AfterTurn(CourseOf(live, env, turns), env, turn)
    ensures forall who :: HadTurn(turns + [turn], who) <==> HadTurn(turns, who) || who == turn.who
  {
    assert (turns + [turn])[..|turns|] == turns;
    forall who ensures HadTurn(turns + [turn], who) <==> HadTurn(turns, who) || who == turn.who {
      if runs :| Turn(who, runs) in turns {
        assert Turn(who, runs) in turns + [turn];
      }
      assert Turn(turn.who, turn.runs) in turns + [turn];
    }
  }

  lemma HistoryNext(was: map<Timer, Was>, start: set<Timer>, live: set<Timer>, env: seq<seq<Effect>>, now: int, turns: seq<Turn>, turn: Turn)
    requires History(was, start, live, env, now, turns) && ComesNext(was, start, live, env, now, turns, turn)
    ensures History(was, start, live, env, now, turns + [turn])
  {
    hide ComesNext;
    assert (turns + [turn])[..|turns|] == turns;
  }

  /** The timers that are there and had no turn yet. */
  ghost function Left(start: set<Timer>, c: Course, turns: seq<Turn>): set<Who> {
    set who <- Known(start, c) | !HadTurn(turns, who)
  }

  /** How many callbacks still do something. */
  ghost function Doing(env: seq<seq<Effect>>, c: Course): nat {
    if c.ran < |env| then |env| - c.ran else 0
  }

  /** A turn uses up a callback that does something, or a timer. */
  lemma TurnUses(start: set<Timer>, live: set<Timer>, env: seq<seq<Effect>>, turns: seq<Turn>, turn: Turn)
    requires Pends(start, CourseOf(live, env, turns), turns, turn.who)
    ensures var c, d := CourseOf(live, env, turns), CourseOf(live, env, turns + [turn]);
            Doing(env, d) < Doing(env, c) || (Doing(env, d) == Doing(env, c) && Left(start, d, turns + [turn]) < Left(start, c, turns))
  {
    hide HadTurn, CourseOf;
    TurnNext(live, env, turns, turn);
    var c, d := CourseOf(live, env, turns), CourseOf(live, env, turns + [turn]);
    if !(turn.runs && c.ran < |env|) {
      assert |d.armed| == |c.armed| && forall k :: 0 <= k < |c.armed| ==> d.armed[k].request == c.armed[k].request;
      assert Known(start, d) == Known(start, c);
      assert turn.who in Left(start, c, turns) && turn.who !in Left(start, d, turns + [turn]);
    }
  }

  // ---------- what a course has in it ----------

  lemma HistoryPrefix(was: map<Timer, Was>, start: set<Timer>, live: set<Timer>, env: seq<seq<Effect>>, now: int, turns: seq<Turn>, n: nat)
    requires History(was, start, live, env, now, turns) && n <= |turns|
    ensures History(was, start, live, env, now, turns[..n])
    ensures n < |turns| ==> ComesNext(was, start, live, env, now, turns[..n], turns[n])
    decreases |turns| - n
  {
    hide ComesNext;
    if n == |turns| {
      assert turns[..n] == turns;
    } else {
      HistoryPrefix(was, start, live, env, now, turns, n + 1);
      assert turns[..n + 1][..n] == turns[..n];
    }
  }

  lemma NotBothBefore(was: map<Timer, Was>, c: Course, x: Who, y: Who)
    ensures !(Before(was, c, x, y) && Before(was, c, y, x))
  {
  }

  lemma TurnGrows(c: Course, env: seq<seq<Effect>>, turn: Turn)
    ensures |c.armed| <= |AfterTurn(c, env, turn).armed| && AfterTurn(c, env, turn).live <= c.live
  {
    hide ArmedBy;
    if turn.runs {
      ArmedGrows(RunOut(c, turn.who).armed, EffectsAt(env, c.ran));
    }
  }

  /** A timer that is added later had no turn yet. */
  lemma {:induction false} LaterHadNoTurn(was: map<Timer, Was>, start: set<Timer>, live: set<Timer>, env: seq<seq<Effect>>, now: int,
                                          turns: seq<Turn>, k: nat)
    requires History(was, start, live, env, now, turns) && k >= |CourseOf(live, env, turns).armed|
    ensures !HadTurn(turns, Added(k))
  {
    hide FireTime, Before, AfterTurn, HasCallback;
    if turns == [] {
      assert forall runs :: Turn(Added(k), runs) !in turns;
    } else {
      var init, last := turns[..|turns| - 1], turns[|turns| - 1];
      TurnGrows(CourseOf(live, env, init), env, last);
      LaterHadNoTurn(was, start, live, env, now, init, k);
      TurnNext(live, env, init, last);
      assert init + [last] == turns;
    }
  }

  /** Two turns cannot both come next. */
  lemma NextIsUnique(was: map<Timer, Was>, start: set<Timer>, live: set<Timer>, env: seq<seq<Effect>>, now: int,
                     turns: seq<Turn>, x: Turn, y: Turn)
    requires ComesNext(was, start, live, env, now, turns, x) && ComesNext(was, start, live, env, now, turns, y)
    ensures x == y
  {
    hide HadTurn, Known, CourseOf, Before;
    NotBothBefore(was, CourseOf(live, env, turns), x.who, y.who);
  }

  /** What was due, what had a callback, and what the callbacks do determine all turns: of two courses, one is the
      beginning of the other, and they are the same when nothing is due after either. */
  lemma {:induction false} HistoryIsUnique(was: map<Timer, Was>, start: set<Timer>, live: set<Timer>, env: seq<seq<Effect>>, now: int,
                                           f: seq<Turn>, g: seq<Turn>)
    requires History(was, start, live, env, now, f) && History(was, start, live, env, now, g) && |f| <= |g|
    ensures f == g[..|f|]
    ensures Settled(was, start, live, env, now, f) ==> f == g
    decreases |f|
  {
    hide ComesNext, Settled;
    if f == [] {
      assert g[..0] == f;
    } else {
      var n := |f| - 1;
      HistoryPrefix(was, start, live, env, now, g, n);
      HistoryIsUnique(was, start, live, env, now, f[..n], g);
      NextIsUnique(was, start, live, env, now, f[..n], f[n], g[n]);
      assert f == f[..n] + [f[n]] && g[..n + 1] == g[..n] + [g[n]];
    }
    if Settled(was, start, live, env, now, f) && |f| < |g| {
      HistoryPrefix(was, start, live, env, now, g, |f|);
      SettledHasNoNext(was, start, live, env, now, f, g[|f|]);
    }
    assert g[..|g|] == g;
  }

  lemma SettledHasNoNext(was: map<Timer, Was>, start: set<Timer>, live: set<Timer>, env: seq<seq<Effect>>, now: int, turns: seq<Turn>, turn: Turn)
    requires Settled(was, start, live, env, now, turns)
    ensures !ComesNext(was, start, live, env, now, turns, turn)
  {
    hide FireTime, HadTurn, Known, CourseOf, Before;
  }

  lemma TurnsStay(turns: seq<Turn>, n: nat, who: Who)
    requires n <= |turns|
    ensures HadTurn(turns[..n], who) ==> HadTurn(turns, who)
  {
    if runs :| Turn(who, runs) in turns[..n] {
      assert Turn(who, runs) in turns;
    }
  }

  lemma HadOwnTurn(turns: seq<Turn>, i: nat)
    requires i < |turns|
    ensures HadTurn(turns, turns[i].who)
  {
    assert Turn(turns[i].who, turns[i].runs) == turns[i];
    assert turns[i] in turns;
  }

  /** No timer has two turns. */
  lemma OneTurnEach(was: map<Timer, Was>, start: set<Timer>, live: set<Timer>, env: seq<seq<Effect>>, now: int, turns: seq<Turn>, i: nat, j: nat)
    requires History(was, start, live, env, now, turns) && i < j < |turns|
    ensures turns[i].who != turns[j].who
  {
    hide FireTime, CourseOf, Before, HadTurn, Known, History;
    HistoryPrefix(was, start, live, env, now, turns, j);
    HadOwnTurn(turns[..j], i);
    assert turns[..j][i] == turns[i];
  }

  /** Of two turns, the timer of the later one came behind the other, if it was there at its turn. */
  lemma EarlierIsBefore(was: map<Timer, Was>, start: set<Timer>, live: set<Timer>, env: seq<seq<Effect>>, now: int,
                        turns: seq<Turn>, i: nat, j: nat)
    requires History(was, start, live, env, now, turns) && i < j < |turns|
    ensures var c := CourseOf(live, env, turns[..i]);
            && turns[i].who in Known(start, c) && FireTime(was, c, turns[i].who) <= now
            && (turns[j].who in Known(start, c) ==> Before(was, c, turns[i].who, turns[j].who))
            && (turns[j].who.Waiting? ==> turns[j].who in Known(start, c))
  {
    HistoryPrefix(was, start, live, env, now, turns, i);
    HistoryPrefix(was, start, live, env, now, turns, j);
    OneTurnEach(was, start, live, env, now, turns, i, j);
    TurnsStay(turns[..j], i, turns[j].who);
    assert turns[..j][..i] == turns[..i];
    hide HadTurn, CourseOf, History, FireTime, Before, HasCallback;
  }

  /** Of two timers that waited when the tick began, the earlier one has its turn first. */
  lemma WaitingInOrder(was: map<Timer, Was>, start: set<Timer>, live: set<Timer>, env: seq<seq<Effect>>, now: int,
                       turns: seq<Turn>, i: nat, j: nat)
    requires History(was, start, live, env, now, turns) && i < j < |turns| && start <= was.Keys
    requires turns[i].who.Waiting? && turns[j].who.Waiting?
    ensures turns[i].who.t in start && turns[j].who.t in start
    ensures var x, y := was[turns[i].who.t].key, was[turns[j].who.t].key;
            (x.fireTime < y.fireTime || (x.fireTime == y.fireTime && x.addseq < y.addseq)) && y.fireTime <= now
  {
    EarlierIsBefore(was, start, live, env, now, turns, i, j);
    HistoryPrefix(was, start, live, env, now, turns, j);
    hide HadTurn, CourseOf, History;
  }

  /** No callback that ran cancelled the timer. */
  ghost predicate NotCancelled(env: seq<seq<Effect>>, ran: nat, t: Timer) {
    forall i :: 0 <= i < ran ==> CancelTimer(t) !in EffectsAt(env, i)
  }

  /** A timer that waited and had no turn has its callback still, exactly if no callback of this tick cancelled it. */
  lemma {:induction false} WaitingIsLiveExactly(was: map<Timer, Was>, start: set<Timer>, live: set<Timer>, env: seq<seq<Effect>>, now: int,
                                                turns: seq<Turn>, t: Timer)
    requires History(was, start, live, env, now, turns) && !HadTurn(turns, Waiting(t))
    ensures var c := CourseOf(live, env, turns); t in c.live <==> t in live && NotCancelled(env, c.ran, t)
  {
    hide ComesNext, ArmedBy, EffectsAt, HadTurn;
    if turns == [] {
      assert CourseOf(live, env, turns).ran == 0;
    } else {
      var init, last := turns[..|turns| - 1], turns[|turns| - 1];
      TurnsStay(turns, |turns| - 1, Waiting(t));
      HadOwnTurn(turns, |turns| - 1);
      WaitingIsLiveExactly(was, start, live, env, now, init, t);
      var c, n := CourseOf(live, env, turns), CourseOf(live, env, init).ran;
      assert last.runs ==> (NotCancelled(env, n + 1, t) <==> NotCancelled(env, n, t) && CancelTimer(t) !in EffectsAt(env, n));
    }
  }

  /** A timer that waited runs at its turn exactly if it had a callback and no callback before cancelled it. */
  lemma WaitingRunsExactly(was: map<Timer, Was>, start: set<Timer>, live: set<Timer>, env: seq<seq<Effect>>, now: int, turns: seq<Turn>, i: nat)
    requires History(was, start, live, env, now, turns) && i < |turns| && turns[i].who.Waiting?
    ensures turns[i].runs <==> turns[i].who.t in live && NotCancelled(env, CourseOf(live, env, turns[..i]).ran, turns[i].who.t)
  {
    HistoryPrefix(was, start, live, env, now, turns, i);
    WaitingIsLiveExactly(was, start, live, env, now, turns[..i], turns[i].who.t);
    hide FireTime, CourseOf, Before, NotCancelled;
  }

  /** After a settled course, every timer that was due has had its turn. */
  lemma DueHadTurns(was: map<Timer, Was>, start: set<Timer>, live: set<Timer>, env: seq<seq<Effect>>, now: int, turns: seq<Turn>, t: Timer)
    requires Settled(was, start, live, env, now, turns) && t in start && start <= was.Keys
    ensures was[t].key.fireTime <= now ==> HadTurn(turns, Waiting(t))
  {
    hide CourseOf;
    assert !HadTurn(turns, Waiting(t)) ==> Pends(start, CourseOf(live, env, turns), turns, Waiting(t));
  }

  /** A timer that does not repeat has no callback any more once it ran. */
  lemma {:induction false} SpentOnce(live: set<Timer>, env: seq<seq<Effect>>, turns: seq<Turn>, t: Timer)
    requires Turn(Waiting(t), true) in turns && !t.repeat
    ensures t !in CourseOf(live, env, turns).live
  {
    hide ArmedBy, EffectsAt;
    var init, last := turns[..|turns| - 1], turns[|turns| - 1];
    assert turns == init + [last];
    if last != Turn(Waiting(t), true) {
      SpentOnce(live, env, init, t);
    }
  }

  // ---------- timers that are added in the tick ----------

  /** What the first n callbacks did. */
  ghost function Performed(env: seq<seq<Effect>>, n: nat): seq<Effect> {
    if n == 0 then [] else Performed(env, n - 1) + EffectsAt(env, n - 1)
  }

  /** The requests for timers among the effects. */
  ghost function Requests(effects: seq<Effect>): seq<Effect> {
    if effects == [] then []
    else Requests(effects[..|effects| - 1]) + (if effects[|effects| - 1].IsAdd() then [effects[|effects| - 1]] else [])
  }

  /** The k-th timer is cancelled, being there by then; n were asked for before. */
  ghost predicate CancelledFrom(n: nat, effects: seq<Effect>, k: nat) {
    exists p :: 0 <= p < |effects| && effects[p] == CancelAdded(k) && k < n + |Requests(effects[..p])|
  }

  lemma CancelledNext(n: nat, effects: seq<Effect>, e: Effect, k: nat)
    ensures CancelledFrom(n, effects + [e], k) <==> CancelledFrom(n, effects, k) || (e == CancelAdded(k) && k < n + |Requests(effects)|)
    ensures Requests(effects + [e]) == Requests(effects) + (if e.IsAdd() then [e] else [])
  {
    hide Requests;
    var more := effects + [e];
    assert forall p :: 0 <= p <= |effects| ==> more[..p] == effects[..p];
    assert more[..|effects|] == effects && effects[..|effects|] == effects && more[|effects|] == e;
    if CancelledFrom(n, effects, k) {
      var p :| 0 <= p < |effects| && effects[p] == CancelAdded(k) && k < n + |Requests(effects[..p])|;
      assert more[p] == CancelAdded(k) && k < n + |Requests(more[..p])|;
    }
    if e == CancelAdded(k) && k < n + |Requests(effects)| {
      assert more[|effects|] == CancelAdded(k) && k < n + |Requests(more[..|effects|])|;
    }
    RequestsNext(effects, e);
  }

  lemma RequestsNext(effects: seq<Effect>, e: Effect)
    ensures Requests(effects + [e]) == Requests(effects) + (if e.IsAdd() then [e] else [])
  {
    assert (effects + [e])[..|effects|] == effects;
  }

  lemma {:induction false} RequestsAppend(a: seq<Effect>, b: seq<Effect>, k: nat)
    ensures Requests(a + b) == Requests(a) + Requests(b)
    ensures CancelledFrom(0, a + b, k) <==> CancelledFrom(0, a, k) || CancelledFrom(|Requests(a)|, b, k)
  {
    hide CancelledFrom, Requests;
    if b == [] {
      assert a + b == a;
      NothingRequested(|Requests(a)|, k);
    } else {
      var init, e := b[..|b| - 1], b[|b| - 1];
      assert init + [e] == b && a + init + [e] == a + b;
      RequestsAppend(a, init, k);
      CancelledNext(0, a + init, e, k);
      CancelledNext(|Requests(a)|, init, e, k);
    }
  }

  lemma NothingRequested(n: nat, k: nat)
    ensures Requests([]) == [] && !CancelledFrom(n, [], k)
  {
  }

  /** What effects make of the k-th timer. */
  lemma {:induction false} ArmedExactly(armed: seq<Armed>, effects: seq<Effect>, k: nat)
    ensures var after := ArmedBy(armed, effects);
            && |after| == |armed| + |Requests(effects)|
            && (k < |after| ==> after[k].request == if k < |armed| then armed[k].request else Requests(effects)[k - |armed|])
            && (k < |after| ==> (after[k].live <==> (k < |armed| ==> armed[k].live) && !CancelledFrom(|armed|, effects, k)))
  {
    hide CancelledFrom, Requests;
    if effects == [] {
      assert ArmedBy(armed, effects) == armed;
      NothingRequested(|armed|, k);
    } else {
      var init, e := effects[..|effects| - 1], effects[|effects| - 1];
      ArmedExactly(armed, init, k);
      CancelledNext(|armed|, init, e, k);
      NotYetCancelled(|armed|, init, k);
      assert init + [e] == effects;
    }
  }

  /** A timer that was not asked for yet cannot have been cancelled. */
  lemma NotYetCancelled(n: nat, effects: seq<Effect>, k: nat)
    ensures k >= n + |Requests(effects)| ==> !CancelledFrom(n, effects, k)
  {
    forall p | 0 <= p < |effects| ensures |Requests(effects[..p])| <= |Requests(effects)| {
      assert effects == effects[..p] + effects[p..];
      RequestsAppend(effects[..p], effects[p..], k);
    }
  }

  /** The timers that were added are those that were asked for; one that had no turn has its callback exactly if it was not
      cancelled. */
  lemma {:induction false} AddedAreRequested(was: map<Timer, Was>, start: set<Timer>, live: set<Timer>, env: seq<seq<Effect>>, now: int,
                                             turns: seq<Turn>, k: nat)
    requires History(was, start, live, env, now, turns)
    ensures var c := CourseOf(live, env, turns);
            var done := Performed(env, c.ran);
            && |c.armed| == |Requests(done)| && (k < |c.armed| ==> c.armed[k].request == Requests(done)[k])
            && (k < |c.armed| && !HadTurn(turns, Added(k)) ==> (c.armed[k].live <==> !CancelledFrom(0, done, k)))
  {
    hide ComesNext, ArmedBy, HadTurn, CancelledFrom, Requests;
    if turns == [] {
      NothingRequested(0, k);
      assert Performed(env, 0) == [];
    } else {
      var init, last := turns[..|turns| - 1], turns[|turns| - 1];
      var c := CourseOf(live, env, init);
      TurnsStay(turns, |turns| - 1, Added(k));
      HadOwnTurn(turns, |turns| - 1);
      AddedAreRequested(was, start, live, env, now, init, k);
      if last.runs {
        ArmedExactly(RunOut(c, last.who).armed, EffectsAt(env, c.ran), k);
        RequestsAppend(Performed(env, c.ran), EffectsAt(env, c.ran), k);
        NotYetCancelled(0, Performed(env, c.ran), k);
      }
    }
  }

  /** A timer that was added in the tick runs at its turn exactly if it was not cancelled after it was added. */
  lemma AddedRunsExactly(was: map<Timer, Was>, start: set<Timer>, live: set<Timer>, env: seq<seq<Effect>>, now: int, turns: seq<Turn>, i: nat)
    requires History(was, start, live, env, now, turns) && i < |turns| && turns[i].who.Added?
    ensures var k, done := turns[i].who.k, Performed(env, CourseOf(live, env, turns[..i]).ran);
            && k < |Requests(done)|
            && (turns[i].runs <==> !exists p :: 0 <= p < |done| && done[p] == CancelAdded(k) && k < |Requests(done[..p])|)
  {
    HistoryPrefix(was, start, live, env, now, turns, i);
    AddedAreRequested(was, start, live, env, now, turns[..i], turns[i].who.k);
    hide FireTime, CourseOf, Before, Requests, History;
  }

  /** When a timer fires that was asked for. */
  function AskedFor(e: Effect): int
    requires e.IsAdd()
  {
    e.at + (if e.AddRepeating? && e.d < 1_000_000 then 1_000_000 else e.d)
  }

  lemma RequestsAreAdds(effects: seq<Effect>)
    ensures forall e <- Requests(effects) :: e.IsAdd()
  {
  }

  /** Of two timers that were added in the tick, one that is there at the turn of the other and has its turn later fires later, or
      was added later. */
  lemma AddedInOrder(was: map<Timer, Was>, start: set<Timer>, live: set<Timer>, env: seq<seq<Effect>>, now: int,
                     turns: seq<Turn>, i: nat, j: nat)
    requires History(was, start, live, env, now, turns) && i < j < |turns| && turns[i].who.Added? && turns[j].who.Added?
    ensures var done, k, l := Requests(Performed(env, CourseOf(live, env, turns[..i]).ran)), turns[i].who.k, turns[j].who.k;
            k < |done| && done[k].IsAdd() && AskedFor(done[k]) <= now
            && (l < |done| ==> done[l].IsAdd() && (AskedFor(done[k]) < AskedFor(done[l]) || (AskedFor(done[k]) == AskedFor(done[l]) && k < l)))
  {
    var c := CourseOf(live, env, turns[..i]);
    EarlierIsBefore(was, start, live, env, now, turns, i, j);
    FiresAsAsked(was, start, live, env, now, turns, i, turns[i].who.k);
    FiresAsAsked(was, start, live, env, now, turns, i, turns[j].who.k);
    hide CourseOf, Requests, History, Performed, FireTime, AskedFor;
  }

  lemma FiresAsAsked(was: map<Timer, Was>, start: set<Timer>, live: set<Timer>, env: seq<seq<Effect>>, now: int,
                     turns: seq<Turn>, i: nat, k: nat)
    requires History(was, start, live, env, now, turns) && i < |turns|
    ensures var c, done := CourseOf(live, env, turns[..i]), Requests(Performed(env, CourseOf(live, env, turns[..i]).ran));
            && |c.armed| == |done|
            && (k < |done| ==> done[k].IsAdd() && FireTime(was, c, Added(k)) == AskedFor(done[k]) && Added(k) in Known(start, c))
  {
    HistoryPrefix(was, start, live, env, now, turns, i);
    hide CourseOf, Requests, CancelledFrom, History, HadTurn, Performed;
    AddedAreRequested(was, start, live, env, now, turns[..i], k);
    RequestsAreAdds(Performed(env, CourseOf(live, env, turns[..i]).ran));
  }

  /** Of a timer that waited and one that was added, the one that fires later has the later turn, and with one fire time the one that
      was added. */
  lemma WaitingBeforeAdded(was: map<Timer, Was>, start: set<Timer>, live: set<Timer>, env: seq<seq<Effect>>, now: int,
                           turns: seq<Turn>, i: nat, j: nat)
    requires History(was, start, live, env, now, turns) && i < j < |turns| && start <= was.Keys
    ensures var done := Requests(Performed(env, CourseOf(live, env, turns[..i]).ran));
            && (turns[i].who.Added? && turns[j].who.Waiting? ==>
                  && turns[i].who.k < |done| && done[turns[i].who.k].IsAdd() && turns[j].who.t in start
                  && AskedFor(done[turns[i].who.k]) < was[turns[j].who.t].key.fireTime)
            && (turns[i].who.Waiting? && turns[j].who.Added? && turns[j].who.k < |done| ==>
                  && turns[i].who.t in start && done[turns[j].who.k].IsAdd()
                  && was[turns[i].who.t].key.fireTime <= AskedFor(done[turns[j].who.k]))
  {
    EarlierIsBefore(was, start, live, env, now, turns, i, j);
    FiresAsAsked(was, start, live, env, now, turns, i,
                 if turns[i].who.Added? then turns[i].who.k else if turns[j].who.Added? then turns[j].who.k else 0);
    hide CourseOf, Requests, History, Performed, AskedFor;
  }

  /** After a settled course, every timer that was added and is due has had its turn. */
  lemma AddedHadTurns(was: map<Timer, Was>, start: set<Timer>, live: set<Timer>, env: seq<seq<Effect>>, now: int, turns: seq<Turn>, k: nat)
    requires History(was, start, live, env, now, turns) && Settled(was, start, live, env, now, turns)
    ensures var done := Requests(Performed(env, CourseOf(live, env, turns).ran));
            k < |done| ==> done[k].IsAdd() && (AskedFor(done[k]) <= now ==> HadTurn(turns, Added(k)))
  {
    AddedAreRequested(was, start, live, env, now, turns, k);
    RequestsAreAdds(Performed(env, CourseOf(live, env, turns).ran));
    hide CourseOf, Requests, CancelledFrom, HadTurn, History;
    var c := CourseOf(live, env, turns);
    if k < |c.armed| && !HadTurn(turns, Added(k)) {
      assert Pends(start, c, turns, Added(k));
    }
  }
}
