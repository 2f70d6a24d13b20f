/** Several workers that add to one storage at once. An Add is several transactions, which other workers' may come
    between: it may open the index, it looks the item up, and it creates or updates the record. */
module ConcurrentAdds {
  import opened Options
  import opened ByteStrings
  import opened RecordIds
  import opened Records
  import opened RecordStore
  import opened Fields
  import opened RecordOrder
  import opened UpsertRefinement

  // ---------- the transactions ----------

  /** What a worker is about to do: to look for its item, or, after it looked, to write. */
  datatype Phase = Idle | Looking(offer: Offer) | Writing(offer: Offer, found: bool)

  /** An Add that is done. */
  datatype Done = Done(offer: Offer, outcome: Outcome)

  datatype Shared = Shared(db: Db, workers: seq<Phase>, log: seq<Done>)

  datatype Action = Begin(w: nat, offer: Offer) | Open(w: nat) | Look(w: nat) | Write(w: nat)

  function Becomes(s: Shared, w: nat, phase: Phase): Shared
    requires w < |s.workers|
  {
    s.(workers := s.workers[w := phase])
  }

  function Finishes(s: Shared, w: nat, db: Db, outcome: Outcome): Shared
    requires w < |s.workers| && !s.workers[w].Idle?
  {
    s.(db := db, workers := s.workers[w := Idle], log := s.log + [Done(s.workers[w].offer, outcome)])
  }

  /** A missing index is created, once there is a bucket. */
  function Opens(s: Shared, key: string, w: nat): Option<Shared>
    requires w < |s.workers|
  {
    if !s.workers[w].Looking? || s.db.results.None? || IndexName(key) in s.db.results.value.nested then None
    else Some(s.(db := Db(Some(Opened(s.db.results.value, s.db.known, key)), s.db.known + {key})))
  }

  /** The item is looked up in the index; an item that equals what is found needs no writing. */
  function Looks(s: Shared, key: string, w: nat): Option<Shared>
    requires w < |s.workers|
  {
    if !s.workers[w].Looking? || (s.db.results.Some? && IndexName(key) !in s.db.results.value.nested) then None
    else
      var o := s.workers[w].offer;
      var found := Lookup(BucketOf(s.db), key, KeyText(key, o.record));
      if found.Some? && o.record.torrent.None? && found.value.data == o.record.data then Some(Finishes(s, w, s.db, Same))
      else Some(Becomes(s, w, Writing(o, found.Some?)))
  }

  /** The record is created if none was found, and replaced otherwise. */
  function Writes(s: Shared, key: string, unique: Option<string>, w: nat): Option<Shared>
    requires w < |s.workers|
  {
    if !s.workers[w].Writing? then None
    else
      var o, bucket := s.workers[w].offer, BucketOf(s.db);
      var value := KeyText(key, o.record);
      if !s.workers[w].found then
        var t := Created(bucket, s.db.known, key, value, o.record, unique, o.uniqueValue);
        var known := KnownAfter(bucket, s.db.known, key, value, o.record, unique);
        Some(Finishes(s, w, Db(if t.Some? then t else s.db.results, known), if t.Some? then New else Refused))
      else if value !in RowsOf(bucket, key) then None
      else if !Writable(o.record) then Some(Finishes(s, w, s.db, Refused))
      else Some(Finishes(s, w, Db(Some(Updated(Opened(bucket, s.db.known, key), key, value, o.record)), s.db.known + {key}), Changed))
  }

  function Next(s: Shared, key: string, unique: Option<string>, a: Action): Option<Shared> {
    if a.w >= |s.workers| then None
    else match a
      case Begin(w, offer) => if s.workers[w].Idle? then Some(Becomes(s, w, Looking(offer))) else None
      case Open(w) => Opens(s, key, w)
      case Look(w) => Looks(s, key, w)
      case Write(w) => Writes(s, key, unique, w)
  }

  function Initial(workers: nat): Shared {
    Shared(Db(None, {}), seq(workers, _ => Idle), [])
  }

  /** The state after a schedule, if all its steps can be taken. */
  function Run(workers: nat, key: string, unique: Option<string>, schedule: seq<Action>): Option<Shared> {
    if schedule == [] then Some(Initial(workers))
    else match Run(workers, key, unique, schedule[..|schedule| - 1])
      case None => None
      case Some(s) => Next(s, key, unique, schedule[|schedule| - 1])
  }

  // ---------- what every interleaving keeps ----------

  /** What was found is still there. */
  ghost predicate FoundIsThere(s: Shared, key: string) {
    forall w <- s.workers :: w.Writing? && w.found ==> KeyText(key, w.offer.record) in RowsOf(BucketOf(s.db), key)
  }

  ghost predicate Sound(s: Shared, key: string) {
    Inv(BucketOf(s.db), key) && FoundIsThere(s, key) && BucketOf(s.db).sequence <= |s.log|
  }

  /** The plain map that the buckets stand for. */
  ghost function PlainOf(s: Shared, key: string, unique: Option<string>): Plain
    requires Inv(BucketOf(s.db), key)
  {
    Abstract(BucketOf(s.db), key, unique)
  }

  /** What one Add that is done did to the plain map. */
  ghost function EffectOf(p: Plain, key: string, unique: bool, d: Done): Plain {
    var r := d.offer.record;
    match d.outcome
    case New => Plain(p.entries[KeyText(key, r) := r.data], if unique then p.taken + {d.offer.uniqueValue} else p.taken)
    case Changed => p.(entries := p.entries[KeyText(key, r) := r.data])
    case _ => p
  }

  /** The plain map after the Adds that are done, in the order in which they were. */
  ghost function Effects(key: string, unique: bool, log: seq<Done>): Plain {
    if log == [] then Plain(map[], {}) else EffectOf(Effects(key, unique, log[..|log| - 1]), key, unique, log[|log| - 1])
  }

  /** A create that finds the key value taken fails. */
  lemma TakenIsRefused(s: State, known: set<string>, key: string, r: Record, unique: Option<string>, uniqueValue: Bytes)
    requires Inv(s, key) && s.sequence + 1 < TWO_32 && KeyText(key, r) in RowsOf(s, key)
    ensures Created(s, known, key, KeyText(key, r), r, unique, uniqueValue) == None
  {
    hide KeyText, IdBytes, HoldsIds;
    NextIdIsNew(s);
  }

  /** The key values that have a record are those of the plain map, and finding gives their data. */
  lemma RowsArePlain(s: State, key: string, unique: Option<string>, value: Bytes)
    requires Inv(s, key)
    ensures Indexed(s, key) && (value in RowsOf(s, key) <==> value in Abstract(s, key, unique).entries)
    ensures Abstract(s, key, unique).entries == Entries(s, key)
  {
  }

  /** What creating does, whether the key value is taken or not. */
  lemma CreateEffect(db: Db, key: string, unique: Option<string>, o: Offer)
    requires Inv(BucketOf(db), key) && BucketOf(db).sequence + 1 < TWO_32 && unique != Some(key)
    ensures var s, value := BucketOf(db), KeyText(key, o.record);
            var t := Created(s, db.known, key, value, o.record, unique, o.uniqueValue);
            var p, plain := Abstract(s, key, unique), PlainAdd(Abstract(s, key, unique), value, o.record, UniqueOf(unique, o.uniqueValue));
            && (value in p.entries ==> t.None?)
            && (value !in p.entries ==> plain.1 == if t.Some? then New else Refused)
            && (t.Some? ==> Inv(t.value, key) && t.value.sequence == s.sequence + 1 && Abstract(t.value, key, unique) == plain.0
                            && plain.0 == EffectOf(p, key, unique.Some?, Done(o, New))
                            && forall v <- RowsOf(s, key) :: v in RowsOf(t.value, key))
  {
    hide Inv, Indexed, Abstract, KeyText, Created, RowsOf, PlainAdd;
    var s, value := BucketOf(db), KeyText(key, o.record);
    RowsArePlain(s, key, unique, value);
    if value in RowsOf(s, key) {
      TakenIsRefused(s, db.known, key, o.record, unique, o.uniqueValue);
    } else {
      CreateRefines(s, db.known, key, o.record, unique, o.uniqueValue);
      NewIsEffect(Abstract(s, key, unique), key, unique, o);
      var t := Created(s, db.known, key, value, o.record, unique, o.uniqueValue);
      if t.Some? {
        forall v | v in RowsOf(s, key) ensures v in RowsOf(t.value, key) {
          RowsArePlain(s, key, unique, v);
          RowsArePlain(t.value, key, unique, v);
        }
      }
    }
  }

  /** What a sequential Add does where it is no failure. */
  lemma NewIsEffect(p: Plain, key: string, unique: Option<string>, o: Offer)
    ensures var after := PlainAdd(p, KeyText(key, o.record), o.record, UniqueOf(unique, o.uniqueValue));
            && after.0 == EffectOf(p, key, unique.Some?, Done(o, after.1))
            && (after.1.New? ==> forall v <- p.entries :: v in after.0.entries)
  {
    hide KeyText;
  }

  /** What updating does. */
  lemma UpdateEffect(db: Db, key: string, unique: Option<string>, o: Offer)
    requires Inv(BucketOf(db), key) && KeyText(key, o.record) in RowsOf(BucketOf(db), key)
    ensures var s, value := BucketOf(db), KeyText(key, o.record);
            && value in RowsOf(Opened(s, db.known, key), key)
            && var t := Updated(Opened(s, db.known, key), key, value, o.record);
            && Inv(t, key) && t.sequence == s.sequence && RowsOf(t, key) == RowsOf(s, key)
            && Abstract(t, key, unique) == EffectOf(Abstract(s, key, unique), key, unique.Some?, Done(o, Changed))
  {
    hide Inv, Indexed, Abstract, KeyText, Opened, Updated, RowsOf;
    var s := BucketOf(db);
    OpenedInv(s, db.known, key, key, unique);
    OpenedRows(s, db.known, key, key);
    UpdateRefines(Opened(s, db.known, key), key, o.record, unique);
    UpdateKeepsRows(Opened(s, db.known, key), key, o.record);
    RowsArePlain(Opened(s, db.known, key), key, unique, KeyText(key, o.record));
  }

  lemma UpdateKeepsRows(s: State, key: string, r: Record)
    requires KeyText(key, r) in RowsOf(s, key)
    ensures RowsOf(Updated(s, key, KeyText(key, r), r), key) == RowsOf(s, key)
  {
    hide KeyText;
  }

  // ---------- one step ----------

  /** The step keeps the invariant, and the log says what it did to the plain map. */
  ghost predicate StepKeeps(s: Shared, t: Shared, key: string, unique: Option<string>) {
    && Sound(s, key) && Sound(t, key) && |t.workers| == |s.workers|
    && |s.log| <= |t.log| <= |s.log| + 1 && t.log[..|s.log|] == s.log
    && PlainOf(t, key, unique) == (if t.log == s.log then PlainOf(s, key, unique)
                                   else EffectOf(PlainOf(s, key, unique), key, unique.Some?, t.log[|s.log|]))
    && (t.log != s.log && t.log[|s.log|].outcome.New? ==>
          KeyText(key, t.log[|s.log|].offer.record) !in PlainOf(s, key, unique).entries)
  }

  lemma BeginKeeps(s: Shared, key: string, unique: Option<string>, w: nat, offer: Offer)
    requires Sound(s, key) && w < |s.workers|
    ensures StepKeeps(s, Becomes(s, w, Looking(offer)), key, unique)
  {
    hide Inv, Abstract, KeyText, RowsOf;
    var t := Becomes(s, w, Looking(offer));
    forall x | x in t.workers && x.Writing? && x.found ensures KeyText(key, x.offer.record) in RowsOf(BucketOf(t.db), key) {
      assert x in s.workers;
    }
  }

  lemma OpenKeeps(s: Shared, key: string, unique: Option<string>, w: nat)
    requires Sound(s, key) && w < |s.workers| && Opens(s, key, w).Some?
    ensures StepKeeps(s, Opens(s, key, w).value, key, unique)
  {
    hide Inv, Abstract, KeyText, RowsOf, Opened;
    OpenedInv(BucketOf(s.db), s.db.known, key, key, unique);
    OpenedRows(BucketOf(s.db), s.db.known, key, key);
  }

  lemma LookKeeps(s: Shared, key: string, unique: Option<string>, w: nat)
    requires Sound(s, key) && w < |s.workers| && Looks(s, key, w).Some?
    ensures StepKeeps(s, Looks(s, key, w).value, key, unique)
  {
    hide Inv, Abstract, KeyText, RowsOf, Lookup;
    FoundHasRow(BucketOf(s.db), key, KeyText(key, s.workers[w].offer.record));
  }

  lemma FoundHasRow(s: State, key: string, value: Bytes)
    ensures Lookup(s, key, value).Some? ==> value in RowsOf(s, key)
  {
  }

  lemma WriteKeeps(s: Shared, key: string, unique: Option<string>, w: nat)
    requires Sound(s, key) && w < |s.workers| && |s.log| + 1 < TWO_32 && unique != Some(key) && Writes(s, key, unique, w).Some?
    ensures StepKeeps(s, Writes(s, key, unique, w).value, key, unique)
  {
    hide Inv, Abstract, KeyText, RowsOf, Created, KnownAfter, Opened, Updated, PlainAdd, Writable, EffectOf;
    var o := s.workers[w].offer;
    assert s.workers[w] in s.workers;
    NoEffect(PlainOf(s, key, unique), key, unique.Some?, o);
    if s.workers[w].found {
      UpdateEffect(s.db, key, unique, o);
    } else {
      CreateEffect(s.db, key, unique, o);
    }
  }

  lemma NoEffect(p: Plain, key: string, unique: bool, o: Offer)
    ensures EffectOf(p, key, unique, Done(o, Refused)) == EffectOf(p, key, unique, Done(o, Same)) == p
  {
  }

  lemma NextKeeps(s: Shared, key: string, unique: Option<string>, a: Action)
    requires Sound(s, key) && |s.log| + 1 < TWO_32 && unique != Some(key) && Next(s, key, unique, a).Some?
    ensures StepKeeps(s, Next(s, key, unique, a).value, key, unique)
  {
    hide Sound, StepKeeps, Opens, Looks, Writes, Becomes;
    match a {
      case Begin(w, offer) => BeginKeeps(s, key, unique, w, offer);
      case Open(w) => OpenKeeps(s, key, unique, w);
      case Look(w) => LookKeeps(s, key, unique, w);
      case Write(w) => WriteKeeps(s, key, unique, w);
    }
  }

  // ---------- whole schedules ----------

  /** Whatever the schedule of fewer than 2^32 steps, the invariant holds, and the buckets stand for what the Adds that
      are done did, in the order in which they were. */
  lemma {:induction false} RunKeeps(workers: nat, key: string, unique: Option<string>, schedule: seq<Action>)
    requires |schedule| < TWO_32 && unique != Some(key) && Run(workers, key, unique, schedule).Some?
    ensures var s := Run(workers, key, unique, schedule).value;
            Sound(s, key) && |s.log| <= |schedule| && PlainOf(s, key, unique) == Effects(key, unique.Some?, s.log)
  {
    hide Next, Inv, Abstract, KeyText, FoundIsThere, EffectOf, PlainOf;
    if schedule == [] {
      NothingAdded(workers, key, unique);
    } else {
      var init := schedule[..|schedule| - 1];
      RunKeeps(workers, key, unique, init);
      var s, t := Run(workers, key, unique, init).value, Run(workers, key, unique, schedule).value;
      NextKeeps(s, key, unique, schedule[|schedule| - 1]);
      assert t.log == s.log || t.log[..|t.log| - 1] == s.log;
    }
  }

  lemma NothingAdded(workers: nat, key: string, unique: Option<string>)
    ensures Sound(Initial(workers), key) && PlainOf(Initial(workers), key, unique) == Effects(key, unique.Some?, [])
  {
    EmptyInv(key, unique);
  }

  lemma {:induction false} WrittenIsThere(key: string, unique: bool, log: seq<Done>, i: nat)
    requires i < |log| && log[i].outcome.New?
    ensures KeyText(key, log[i].offer.record) in Effects(key, unique, log).entries
  {
    hide KeyText;
    if i < |log| - 1 {
      WrittenIsThere(key, unique, log[..|log| - 1], i);
    } else {
      assert i == |log| - 1;
    }
  }

  /** However the workers come between each other, no key value is new twice. */
  lemma {:induction false} NewOnce(workers: nat, key: string, unique: Option<string>, schedule: seq<Action>)
    requires |schedule| < TWO_32 && unique != Some(key) && Run(workers, key, unique, schedule).Some?
    ensures var log := Run(workers, key, unique, schedule).value.log;
            forall i, j :: 0 <= i < j < |log| && log[i].outcome.New? && log[j].outcome.New? ==>
                             KeyText(key, log[i].offer.record) != KeyText(key, log[j].offer.record)
  {
    hide Next, KeyText, Sound, PlainOf, Effects, EffectOf;
    if schedule == [] {
      assert Run(workers, key, unique, schedule).value.log == [];
    } else {
      var init := schedule[..|schedule| - 1];
      NewOnce(workers, key, unique, init);
      RunKeeps(workers, key, unique, init);
      var s, t := Run(workers, key, unique, init).value, Run(workers, key, unique, schedule).value;
      NextKeeps(s, key, unique, schedule[|schedule| - 1]);
      forall i, j | 0 <= i < j < |t.log| && t.log[i].outcome.New? && t.log[j].outcome.New?
        ensures KeyText(key, t.log[i].offer.record) != KeyText(key, t.log[j].offer.record)
      {
        assert t.log[..|s.log|][i] == s.log[i];
        if j == |s.log| {
          WrittenIsThere(key, unique.Some?, s.log, i);
        } else {
          assert t.log[..|s.log|][j] == s.log[j];
        }
      }
    }
  }

  // ---------- when an outcome is that of a sequential Add ----------

  /** The item equals what is there, as it comes back. */
  predicate SameThere(p: Plain, value: Bytes, r: Record) {
    value in p.entries && r.torrent.None? && DataBack(p.entries[value]) == r.data
  }

  /** Since the worker looked, another has created the record that was not there, or has stored what the worker is
      about to store. */
  predicate Overtaken(p: Plain, key: string, phase: Phase)
    requires phase.Writing?
  {
    var r := phase.offer.record;
    var value := KeyText(key, r);
    if phase.found then SameThere(p, value, r) else value in p.entries && (SameThere(p, value, r) || Writable(r))
  }

  /** What a sequential Add would make of the plain map. */
  ghost function Sequential(p: Plain, key: string, unique: Option<string>, o: Offer): (Plain, Outcome) {
    PlainAdd(p, KeyText(key, o.record), o.record, UniqueOf(unique, o.uniqueValue))
  }

  /** A write has the outcome and the effect of a sequential Add at that moment, exactly if it was not overtaken. */
  lemma WriteAgreesExactly(s: Shared, key: string, unique: Option<string>, w: nat)
    requires Sound(s, key) && w < |s.workers| && |s.log| + 1 < TWO_32 && unique != Some(key) && Writes(s, key, unique, w).Some?
    ensures var t := Writes(s, key, unique, w).value;
            && s.workers[w].Writing? && Sound(t, key) && |t.log| == |s.log| + 1 && t.log[|s.log|].offer == s.workers[w].offer
            && ((PlainOf(t, key, unique), t.log[|s.log|].outcome) == Sequential(PlainOf(s, key, unique), key, unique, s.workers[w].offer)
                <==> !Overtaken(PlainOf(s, key, unique), key, s.workers[w]))
  {
    hide Inv, Abstract, KeyText, RowsOf, Created, KnownAfter, Opened, Updated, PlainAdd, Writable, EffectOf, DataBack;
    var o, p := s.workers[w].offer, PlainOf(s, key, unique);
    var value := KeyText(key, o.record);
    assert s.workers[w] in s.workers;
    NoEffect(p, key, unique.Some?, o);
    RowsArePlain(BucketOf(s.db), key, unique, value);
    SequentialCases(p, key, unique, o);
    WriteKeeps(s, key, unique, w);
    if s.workers[w].found {
      UpdateEffect(s.db, key, unique, o);
    } else {
      CreateEffect(s.db, key, unique, o);
    }
  }

  lemma SequentialCases(p: Plain, key: string, unique: Option<string>, o: Offer)
    ensures var after, value := Sequential(p, key, unique, o), KeyText(key, o.record);
            && after.0 == EffectOf(p, key, unique.Some?, Done(o, after.1))
            && (SameThere(p, value, o.record) ==> after == (p, Same))
            && (value in p.entries && !SameThere(p, value, o.record) ==> after.1 == if Writable(o.record) then Changed else Refused)
            && (value !in p.entries ==> after.1.New? || after.1.Refused?)
  {
    hide KeyText, DataBack, Writable;
  }

  /** An Add that ends with looking has the outcome of a sequential one; one that goes on is not overtaken yet. */
  lemma LookAgrees(s: Shared, key: string, unique: Option<string>, w: nat)
    requires Sound(s, key) && w < |s.workers| && Looks(s, key, w).Some?
    ensures var t, p := Looks(s, key, w).value, PlainOf(s, key, unique);
            && (t.log != s.log ==> Sequential(p, key, unique, s.workers[w].offer) == (p, Same))
            && (t.log == s.log ==> t.workers[w].Writing? && !Overtaken(p, key, t.workers[w]))
  {
    hide Inv, KeyText, RowsOf, Lookup, DataBack, Writable;
    var value := KeyText(key, s.workers[w].offer.record);
    RowsArePlain(BucketOf(s.db), key, unique, value);
    FoundIsPlain(BucketOf(s.db), key, value);
  }

  /** No write of the schedule is overtaken. */
  ghost predicate Undisturbed(workers: nat, key: string, unique: Option<string>, schedule: seq<Action>)
  {
    if schedule == [] then true
    else
      var init, a := schedule[..|schedule| - 1], schedule[|schedule| - 1];
      && Undisturbed(workers, key, unique, init)
      && (Run(workers, key, unique, init).Some? ==>
            var s := Run(workers, key, unique, init).value;
            a.Write? && a.w < |s.workers| && s.workers[a.w].Writing? ==>
              !Overtaken(Effects(key, unique.Some?, s.log), key, s.workers[a.w]))
  }

  function LogOffers(log: seq<Done>): (offers: seq<Offer>)
    ensures |offers| == |log|
  {
    if log == [] then [] else LogOffers(log[..|log| - 1]) + [log[|log| - 1].offer]
  }

  function LogOutcomes(log: seq<Done>): (outcomes: seq<Outcome>)
    ensures |outcomes| == |log|
  {
    if log == [] then [] else LogOutcomes(log[..|log| - 1]) + [log[|log| - 1].outcome]
  }

  lemma LogNext(p: Plain, key: string, unique: Option<string>, log: seq<Done>, d: Done)
    ensures LogOutcomes(log + [d]) == LogOutcomes(log) + [d.outcome]
    ensures var before := RunPlain(p, key, unique.Some?, LogOffers(log));
            var step := Sequential(before.0, key, unique, d.offer);
            RunPlain(p, key, unique.Some?, LogOffers(log + [d])) == (step.0, before.1 + [step.1])
  {
    hide PlainAdd, KeyText;
    assert (log + [d])[..|log|] == log;
    var offers := LogOffers(log + [d]);
    assert offers == LogOffers(log) + [d.offer];
    assert offers[..|offers| - 1] == LogOffers(log);
  }

  /** The Adds that are done have the outcomes and the effects of a sequential run in the order in which they were done. */
  ghost predicate IsSequential(s: Shared, key: string, unique: Option<string>) {
    RunPlain(Plain(map[], {}), key, unique.Some?, LogOffers(s.log)) == (Effects(key, unique.Some?, s.log), LogOutcomes(s.log))
  }

  /** So it was after every step. */
  ghost predicate AlwaysSequential(workers: nat, key: string, unique: Option<string>, schedule: seq<Action>) {
    if schedule == [] then true
    else
      && AlwaysSequential(workers, key, unique, schedule[..|schedule| - 1])
      && (Run(workers, key, unique, schedule).Some? ==> IsSequential(Run(workers, key, unique, schedule).value, key, unique))
  }

  /** A schedule is a sequential run all along exactly if none of its writes is overtaken. */
  lemma {:induction false} SequentialExactly(workers: nat, key: string, unique: Option<string>, schedule: seq<Action>)
    requires |schedule| < TWO_32 && unique != Some(key) && Run(workers, key, unique, schedule).Some?
    ensures AlwaysSequential(workers, key, unique, schedule) <==> Undisturbed(workers, key, unique, schedule)
    ensures AlwaysSequential(workers, key, unique, schedule) ==> IsSequential(Run(workers, key, unique, schedule).value, key, unique)
  {
    hide Next, Inv, Abstract, KeyText, FoundIsThere, PlainOf, RunPlain, LogOffers, LogOutcomes, Sequential, Overtaken, Effects;
    RunKeeps(workers, key, unique, schedule);
    if schedule == [] {
      NothingDone(workers, key, unique);
    } else {
      var init, a := schedule[..|schedule| - 1], schedule[|schedule| - 1];
      SequentialExactly(workers, key, unique, init);
      RunKeeps(workers, key, unique, init);
      var s, t := Run(workers, key, unique, init).value, Run(workers, key, unique, schedule).value;
      ActorExists(s, key, unique, a);
      StepIsSequentialExactly(s, key, unique, a);
      if t.log != s.log {
        var d, x := t.log[|s.log|], LogOutcomes(s.log);
        LogNext(Plain(map[], {}), key, unique, s.log, d);
        var outcome := Sequential(PlainOf(s, key, unique), key, unique, d.offer).1;
        assert (x + [outcome])[|x|] == outcome && (x + [d.outcome])[|x|] == d.outcome;
      }
    }
  }

  lemma NothingDone(workers: nat, key: string, unique: Option<string>)
    ensures IsSequential(Initial(workers), key, unique)
  {
  }

  /** A step that ends an Add does what a sequential one would do, exactly if it is no write that was overtaken. */
  lemma StepIsSequentialExactly(s: Shared, key: string, unique: Option<string>, a: Action)
    requires Sound(s, key) && |s.log| + 1 < TWO_32 && unique != Some(key) && Next(s, key, unique, a).Some?
    ensures var t := Next(s, key, unique, a).value;
            && Sound(t, key) && a.w < |s.workers| && (a.Write? ==> s.workers[a.w].Writing?)
            && (if t.log == s.log then !a.Write? && PlainOf(t, key, unique) == PlainOf(s, key, unique)
                else |t.log| == |s.log| + 1 && t.log == s.log + [t.log[|s.log|]]
                     && ((PlainOf(t, key, unique), t.log[|s.log|].outcome)
                         == Sequential(PlainOf(s, key, unique), key, unique, t.log[|s.log|].offer)
                         <==> !(a.Write? && Overtaken(PlainOf(s, key, unique), key, s.workers[a.w]))))
  {
    hide Inv, FoundIsThere, Opens, Looks, Writes, Sequential, Overtaken, PlainOf;
    NextKeeps(s, key, unique, a);
    if a.Write? {
      WriteAgreesExactly(s, key, unique, a.w);
    } else if a.Look? {
      LookAgrees(s, key, unique, a.w);
      LookEnds(s, key, a.w);
      NoEffect(PlainOf(s, key, unique), key, unique.Some?, s.workers[a.w].offer);
    } else if a.Open? {
      OpenEnds(s, key, a.w);
    }
  }

  lemma ActorExists(s: Shared, key: string, unique: Option<string>, a: Action)
    requires Next(s, key, unique, a).Some?
    ensures a.w < |s.workers|
  {
  }

  lemma LookEnds(s: Shared, key: string, w: nat)
    requires w < |s.workers| && Looks(s, key, w).Some?
    ensures var t := Looks(s, key, w).value;
            !s.workers[w].Idle? && (t.log == s.log || t.log == s.log + [Done(s.workers[w].offer, Same)])
  {
    hide Lookup, KeyText;
  }

  lemma OpenEnds(s: Shared, key: string, w: nat)
    requires w < |s.workers| && Opens(s, key, w).Some?
    ensures Opens(s, key, w).value.log == s.log
  {
  }
}
