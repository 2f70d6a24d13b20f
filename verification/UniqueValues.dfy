/** What the unique index says after updates: they change the record, but not the index. */
module UniqueValues {
  import opened Options
  import opened ByteStrings
  import opened RecordIds
  import opened Records
  import opened RecordOrder
  import opened RecordStore
  import opened UpsertRefinement

  /** The unique values that a record was created with, and that it was last stored with. */
  datatype Note = Note(first: Bytes, last: Bytes)

  /** The unique values by key value, after one more add. */
  function Noted(notes: map<Bytes, Note>, value: Bytes, uniqueValue: Bytes, outcome: Outcome): map<Bytes, Note> {
    match outcome
    case New => notes[value := Note(uniqueValue, uniqueValue)]
    case Changed => if value in notes then notes[value := notes[value].(last := uniqueValue)] else notes
    case _ => notes
  }

  function Notes(key: string, offers: seq<Offer>, outcomes: seq<Outcome>): map<Bytes, Note>
    requires |offers| == |outcomes|
  {
    if offers == [] then map[]
    else
      var n := |offers| - 1;
      Noted(Notes(key, offers[..n], outcomes[..n]), KeyText(key, offers[n].record), offers[n].uniqueValue, outcomes[n])
  }

  /** The values that records were created with, and only those, are taken, and lead to these records. */
  ghost predicate LeadsAsCreated(s: State, key: string, unique: string, notes: map<Bytes, Note>) {
    && notes.Keys == RowsOf(s, key).Keys
    && (forall v <- notes :: notes[v].first in RowsOf(s, unique) && RowsOf(s, unique)[notes[v].first] == RowsOf(s, key)[v])
    && (forall u <- RowsOf(s, unique) :: exists v :: v in notes && notes[v].first == u)
  }

  lemma SameRowsLead(s: State, t: State, key: string, unique: string, notes: map<Bytes, Note>)
    requires LeadsAsCreated(s, key, unique, notes) && RowsOf(t, key) == RowsOf(s, key) && RowsOf(t, unique) == RowsOf(s, unique)
    ensures LeadsAsCreated(t, key, unique, notes)
  {
    hide RowsOf;
  }

  lemma OpenedLeads(s: State, known: set<string>, name: string, key: string, unique: string, notes: map<Bytes, Note>)
    requires LeadsAsCreated(s, key, unique, notes)
    ensures LeadsAsCreated(Opened(s, known, name), key, unique, notes)
  {
    hide LeadsAsCreated;
    OpenedRows(s, known, name, key);
    OpenedRows(s, known, name, unique);
    SameRowsLead(s, Opened(s, known, name), key, unique, notes);
  }

  /** The rows after a create. */
  lemma CreatedRows(s: State, known: set<string>, key: string, value: Bytes, r: Record, unique: string, uniqueValue: Bytes)
    requires value !in RowsOf(s, key) && unique != key
    requires Created(s, known, key, value, r, Some(unique), uniqueValue).Some?
    ensures var t, id := Created(s, known, key, value, r, Some(unique), uniqueValue).value, IdBytes(NextId(s));
            && RowsOf(t, key) == RowsOf(s, key)[value := id] && RowsOf(t, unique) == RowsOf(s, unique)[uniqueValue := id]
            && uniqueValue !in RowsOf(s, unique)
  {
    hide IdBytes, NextId, Writable;
    RowsWithRecord(s, known, key, value, r, key);
    RowsWithRecord(s, known, key, value, r, unique);
    var t := WithRecord(s, known, key, value, r).value;
    hide WithRecord;
    OpenedRows(t, known + {key}, unique, key);
    RowsAfter(Opened(t, known + {key}, unique), unique, RowsOf(t, unique)[uniqueValue := IdBytes(NextId(s))], key);
    RowsAfter(Opened(t, known + {key}, unique), unique, RowsOf(t, unique)[uniqueValue := IdBytes(NextId(s))], unique);
  }

  lemma CreatedValues(s: State, known: set<string>, key: string, value: Bytes, r: Record, unique: string, uniqueValue: Bytes)
    requires Created(s, known, key, value, r, Some(unique), uniqueValue).Some? && IdBytes(NextId(s)) != META_KEY
    ensures var t, id := Created(s, known, key, value, r, Some(unique), uniqueValue).value, IdBytes(NextId(s));
            id in t.values && t.values[id] == Stored(r.(id := NextId(s)))
  {
    hide IdBytes, NextId, Writable;
    ValuesWithRecord(s, known, key, value, r);
  }

  /** An item that was created is found by its key, and by its unique value, with all it has. */
  lemma CreatedIsFound(s: State, known: set<string>, key: string, r: Record, unique: string, uniqueValue: Bytes)
    requires Inv(s, key) && s.sequence + 1 < TWO_32 && KeyText(key, r) !in RowsOf(s, key) && unique != key
    ensures var t, stored := Created(s, known, key, KeyText(key, r), r, Some(unique), uniqueValue), r.(id := s.sequence + 1);
            t.Some? ==> && Lookup(t.value, key, KeyText(key, r)) == Some(Loaded(stored))
                        && Lookup(t.value, unique, uniqueValue) == Some(Loaded(stored))
  {
    hide IdBytes, NextId, KeyText, Created, RowsOf, Loaded, Formed, Indexed;
    NextIdIsNew(s);
    if Created(s, known, key, KeyText(key, r), r, Some(unique), uniqueValue).Some? {
      CreatedRows(s, known, key, KeyText(key, r), r, unique, uniqueValue);
      CreatedValues(s, known, key, KeyText(key, r), r, unique, uniqueValue);
    }
  }

  /** An item that replaced another is found by its key with all it has, and every other key value leads to what it did. */
  lemma UpdatedIsFound(s: State, key: string, r: Record, other: Bytes)
    requires Inv(s, key) && KeyText(key, r) in RowsOf(s, key) && other != KeyText(key, r)
    ensures var t := Updated(s, key, KeyText(key, r), r);
            Lookup(t, key, KeyText(key, r)) == Some(Loaded(r)) && Lookup(t, key, other) == Lookup(s, key, other)
  {
    hide KeyText, Loaded, Formed, HoldsIds;
    if other in RowsOf(s, key) && RowsOf(s, key)[other] == RowsOf(s, key)[KeyText(key, r)] {
      OneKeyEach(s, key, other, KeyText(key, r));
    }
  }

  lemma CreatedLeads(s: State, known: set<string>, key: string, r: Record, unique: string, uniqueValue: Bytes, notes: map<Bytes, Note>)
    requires LeadsAsCreated(s, key, unique, notes) && KeyText(key, r) !in RowsOf(s, key) && unique != key
    ensures var t := Created(s, known, key, KeyText(key, r), r, Some(unique), uniqueValue);
            t.Some? ==> LeadsAsCreated(t.value, key, unique, Noted(notes, KeyText(key, r), uniqueValue, New))
  {
    hide IdBytes, NextId, KeyText, Created, RowsOf;
    var value := KeyText(key, r);
    if Created(s, known, key, value, r, Some(unique), uniqueValue).Some? {
      CreatedRows(s, known, key, value, r, unique, uniqueValue);
      var t, after := Created(s, known, key, value, r, Some(unique), uniqueValue).value, Noted(notes, value, uniqueValue, New);
      forall u | u in RowsOf(t, unique) ensures exists v :: v in after && after[v].first == u {
        if u == uniqueValue {
          assert value in after;
        } else {
          var v :| v in notes && notes[v].first == u;
          assert v in after;
        }
      }
    }
  }

  lemma UpdatedLeads(s: State, key: string, r: Record, unique: string, uniqueValue: Bytes, notes: map<Bytes, Note>)
    requires LeadsAsCreated(s, key, unique, notes) && KeyText(key, r) in RowsOf(s, key)
    ensures LeadsAsCreated(Updated(s, key, KeyText(key, r), r), key, unique, Noted(notes, KeyText(key, r), uniqueValue, Changed))
  {
    hide KeyText;
    var after := Noted(notes, KeyText(key, r), uniqueValue, Changed);
    assert after.Keys == notes.Keys && forall v <- notes :: after[v].first == notes[v].first;
    SameRowsLead(s, Updated(s, key, KeyText(key, r), r), key, unique, notes);
    hide Updated, RowsOf;
    assert forall v <- notes :: v in after;
  }

  lemma AddLeads(db: Db, key: string, unique: string, uniqueValue: Bytes, r: Record, notes: map<Bytes, Note>)
    requires Inv(BucketOf(db), key) && LeadsAsCreated(BucketOf(db), key, unique, notes) && unique != key
    ensures var after := StoreAdd(db, key, KeyText(key, r), key, KeyText(key, r), Some(unique), uniqueValue, r);
            LeadsAsCreated(BucketOf(after.0), key, unique, Noted(notes, KeyText(key, r), uniqueValue, after.1))
  {
    hide Inv, LeadsAsCreated, KeyText, Created, Opened, Lookup, RowsOf, Updated, KnownAfter, AfterFind, KnownAfterFind, Writable;
    var value := KeyText(key, r);
    var found := Db(AfterFind(db.results, db.known, key), KnownAfterFind(db.results, db.known, key, value));
    var s := BucketOf(found);
    FindLeads(db, key, unique, value, notes);
    if value in RowsOf(s, key) {
      OpenedLeads(s, found.known, key, key, unique, notes);
      OpenedRows(s, found.known, key, key);
      UpdatedLeads(Opened(s, found.known, key), key, r, unique, uniqueValue, notes);
    } else {
      CreatedLeads(s, found.known, key, r, unique, uniqueValue, notes);
    }
  }

  lemma FindLeads(db: Db, key: string, unique: string, value: Bytes, notes: map<Bytes, Note>)
    requires Inv(BucketOf(db), key) && LeadsAsCreated(BucketOf(db), key, unique, notes)
    ensures var s := BucketOf(Db(AfterFind(db.results, db.known, key), db.known));
            LeadsAsCreated(s, key, unique, notes) && (Lookup(BucketOf(db), key, value).Some? <==> value in RowsOf(s, key))
  {
    hide Inv, LeadsAsCreated, Opened;
    OpenedLeads(BucketOf(db), db.known, key, key, unique, notes);
    OpenedRows(BucketOf(db), db.known, key, key);
    FoundIsPlain(BucketOf(db), key, value);
    EntriesAreRows(BucketOf(db), key, value);
  }

  lemma EntriesAreRows(s: State, key: string, value: Bytes)
    requires Inv(s, key)
    ensures Indexed(s, key) && (value in Entries(s, key) <==> value in RowsOf(s, key))
  {
  }

  // ---------- whole runs ----------

  lemma NotesNext(key: string, offers: seq<Offer>, outcomes: seq<Outcome>, o: Offer, outcome: Outcome)
    requires |offers| == |outcomes|
    ensures Notes(key, offers + [o], outcomes + [outcome]) ==
            Noted(Notes(key, offers, outcomes), KeyText(key, o.record), o.uniqueValue, outcome)
  {
    hide KeyText, Noted;
    assert (offers + [o])[..|offers|] == offers && (outcomes + [outcome])[..|outcomes|] == outcomes;
  }

  lemma {:induction false} RunLeads(key: string, unique: string, offers: seq<Offer>)
    requires |offers| < TWO_32 && unique != key
    ensures var run := RunStore(Db(None, {}), key, Some(unique), offers);
            |run.1| == |offers| && Inv(BucketOf(run.0), key)
            && LeadsAsCreated(BucketOf(run.0), key, unique, Notes(key, offers, run.1))
  {
    hide Inv, LeadsAsCreated, KeyText, StoreAdd, Notes, RunPlain, Abstract, CountNew;
    RunRefines(key, Some(unique), offers);
    if offers == [] {
      NothingNoted(key, unique);
    } else {
      var init, o := offers[..|offers| - 1], offers[|offers| - 1];
      RunLeads(key, unique, init);
      var before, run := RunStore(Db(None, {}), key, Some(unique), init), RunStore(Db(None, {}), key, Some(unique), offers);
      AddLeads(before.0, key, unique, o.uniqueValue, o.record, Notes(key, init, before.1));
      assert offers == init + [o] && run.1 == before.1 + [run.1[|init|]];
      NotesNext(key, init, before.1, o, run.1[|init|]);
    }
  }

  lemma NothingNoted(key: string, unique: string)
    ensures LeadsAsCreated(EMPTY, key, unique, Notes(key, [], []))
  {
  }

  /** The unique index leads from a value to a record. */
  predicate Leads(s: State, key: string, unique: string, uniqueValue: Bytes, value: Bytes) {
    && uniqueValue in RowsOf(s, unique) && value in RowsOf(s, key)
    && RowsOf(s, unique)[uniqueValue] == RowsOf(s, key)[value]
  }

  /** After every run a value is taken exactly if some record was created with it, whatever that record has now; and the value
      that a record was last stored with leads to it exactly if it was created with that value. */
  lemma LeadsExactly(key: string, unique: string, offers: seq<Offer>)
    requires |offers| < TWO_32 && unique != key
    ensures |RunStore(Db(None, {}), key, Some(unique), offers).1| == |offers|
    ensures var run := RunStore(Db(None, {}), key, Some(unique), offers);
            var s, notes := BucketOf(run.0), Notes(key, offers, run.1);
            && notes.Keys == RowsOf(s, key).Keys
            && (forall u :: u in RowsOf(s, unique) <==> exists v :: v in notes && notes[v].first == u)
            && (forall v <- notes :: Leads(s, key, unique, notes[v].last, v) <==> notes[v].last == notes[v].first)
  {
    hide Inv, KeyText, RunStore, Notes, RowsOf;
    RunLeads(key, unique, offers);
    var run := RunStore(Db(None, {}), key, Some(unique), offers);
    var s, notes := BucketOf(run.0), Notes(key, offers, run.1);
    forall v | v in notes ensures Leads(s, key, unique, notes[v].last, v) <==> notes[v].last == notes[v].first {
      if Leads(s, key, unique, notes[v].last, v) {
        var w :| w in notes && notes[w].first == notes[v].last;
        OneKeyEach(s, key, v, w);
      }
    }
  }

  lemma OneKeyEach(s: State, key: string, v: Bytes, w: Bytes)
    requires Inv(s, key) && v in RowsOf(s, key) && w in RowsOf(s, key) && RowsOf(s, key)[v] == RowsOf(s, key)[w]
    ensures v == w
  {
    hide KeyText;
  }

  // ---------- without the notes ----------

  predicate Stores(outcome: Outcome) {
    outcome.New? || outcome.Changed?
  }

  /** What the notes say of a key value that was stored. */
  lemma {:induction false} NotedExactly(key: string, offers: seq<Offer>, outcomes: seq<Outcome>, c: nat, i: nat)
    requires |offers| == |outcomes| && c <= i < |offers| && KeyText(key, offers[c].record) == KeyText(key, offers[i].record)
    requires outcomes[c].New? && Stores(outcomes[i])
    requires forall j :: c < j < |offers| && KeyText(key, offers[j].record) == KeyText(key, offers[c].record) ==> !outcomes[j].New?
    requires forall j :: i < j < |offers| && KeyText(key, offers[j].record) == KeyText(key, offers[i].record) ==> !Stores(outcomes[j])
    ensures var notes, value := Notes(key, offers, outcomes), KeyText(key, offers[c].record);
            value in notes && notes[value] == Note(offers[c].uniqueValue, offers[i].uniqueValue)
  {
    hide KeyText;
    var n := |offers| - 1;
    if i < n {
      NotedExactly(key, offers[..n], outcomes[..n], c, i);
    } else if c < n {
      FirstNoted(key, offers[..n], outcomes[..n], c);
    }
  }

  lemma {:induction false} FirstNoted(key: string, offers: seq<Offer>, outcomes: seq<Outcome>, c: nat)
    requires |offers| == |outcomes| && c < |offers| && outcomes[c].New?
    requires forall j :: c < j < |offers| && KeyText(key, offers[j].record) == KeyText(key, offers[c].record) ==> !outcomes[j].New?
    ensures var notes, value := Notes(key, offers, outcomes), KeyText(key, offers[c].record);
            value in notes && notes[value].first == offers[c].uniqueValue
  {
    hide KeyText;
    if c < |offers| - 1 {
      FirstNoted(key, offers[..|offers| - 1], outcomes[..|offers| - 1], c);
    }
  }

  /** A key value that was new is there ever after, and not new again. */
  lemma {:induction false} NewIsThere(key: string, unique: bool, offers: seq<Offer>, c: nat)
    ensures |RunPlain(Plain(map[], {}), key, unique, offers).1| == |offers|
    ensures var run := RunPlain(Plain(map[], {}), key, unique, offers);
            c < |offers| && run.1[c].New? ==>
              && KeyText(key, offers[c].record) in run.0.entries
              && forall j :: c < j < |offers| && KeyText(key, offers[j].record) == KeyText(key, offers[c].record) ==> !run.1[j].New?
  {
    hide KeyText, Writable;
    if offers != [] {
      NewIsThere(key, unique, offers[..|offers| - 1], c);
    }
  }

  /** After every run, without the notes: of a record that was created by offer c and last stored by offer i, the value of c is
      taken, and the value of i, which it has now, leads to it exactly if that is the same. */
  lemma LastLeadsExactly(key: string, unique: string, offers: seq<Offer>, c: nat, i: nat)
    requires |offers| < TWO_32 && unique != key && c <= i < |offers|
    ensures var run := RunStore(Db(None, {}), key, Some(unique), offers);
            var value := KeyText(key, offers[c].record);
            && |run.1| == |offers|
            && (run.1[c].New? && Stores(run.1[i]) && KeyText(key, offers[i].record) == value
                && (forall j :: i < j < |offers| && KeyText(key, offers[j].record) == value ==> !Stores(run.1[j]))
                ==> && offers[c].uniqueValue in RowsOf(BucketOf(run.0), unique)
                    && (Leads(BucketOf(run.0), key, unique, offers[i].uniqueValue, value) <==> offers[i].uniqueValue == offers[c].uniqueValue))
  {
    hide KeyText, RunStore, Notes, RowsOf, Leads, RunPlain, Inv, Abstract, CountNew;
    RunRefines(key, Some(unique), offers);
    NewIsThere(key, true, offers, c);
    LeadsExactly(key, unique, offers);
    var run := RunStore(Db(None, {}), key, Some(unique), offers);
    if run.1[c].New? && Stores(run.1[i]) && KeyText(key, offers[i].record) == KeyText(key, offers[c].record)
       && (forall j :: i < j < |offers| && KeyText(key, offers[j].record) == KeyText(key, offers[c].record) ==> !Stores(run.1[j])) {
      NotedExactly(key, offers, run.1, c, i);
    }
  }
}
