/** The store when all ids are given: a run that gets there, and what the next two records do. */
module FullStore {
  import opened Options
  import opened ByteStrings
  import opened Buckets
  import opened Decimal
  import opened RecordIds
  import opened Records
  import opened RecordStore
  import opened RecordOrder
  import opened UpsertRefinement

  // ---------- what happens then ----------

  /** The record has taken the place of the first one, whose key value now leads to it too. */
  ghost predicate FirstIsLost(u: State, key: string, first: Bytes, q: Record) {
    && IdBytes(1) in u.values && u.values[IdBytes(1)] == Stored(q.(id := 1))
    && first != KeyText(key, q) && first in RowsOf(u, key) && KeyText(key, q) in RowsOf(u, key)
    && RowsOf(u, key)[first] == RowsOf(u, key)[KeyText(key, q)] == IdBytes(1)
    && !Indexed(u, key)
  }

  /** With 2^32 - 1 records the next one gets id 0; the index is still a bijection. */
  lemma IdZeroIsNew(s: State, known: set<string>, key: string, r: Record)
    requires Inv(s, key) && s.sequence == TWO_32 - 1
    requires KeyText(key, r) !in RowsOf(s, key) && IsKey(KeyText(key, r)) && Writable(r)
    ensures NextId(s) == 0
    ensures var t := WithRecord(s, known, key, KeyText(key, r), r);
            t.Some? && Indexed(t.value, key) && t.value.sequence == TWO_32
            && Entries(t.value, key) == Entries(s, key)[KeyText(key, r) := r.data]
            && RowsOf(t.value, key) == RowsOf(s, key)[KeyText(key, r) := IdBytes(0)]
  {
    hide KeyText, IdBytes, WithRecord, Indexed, Entries, HoldsIds;
    AddedIfKey(s, known, key, KeyText(key, r), r);
    ZeroIsNew(s);
    RowsWithRecord(s, known, key, KeyText(key, r), r, key);
    ValuesWithRecord(s, known, key, KeyText(key, r), r);
    KeyTextIgnoresId(key, r, 0);
    IndexGrows(s, WithRecord(s, known, key, KeyText(key, r), r).value, key, IdBytes(0), r.(id := 0));
  }

  lemma ZeroIsNew(s: State)
    requires HoldsIds(s)
    ensures IdBytes(0) !in s.values && IdBytes(0) != META_KEY
  {
    assert IdBytes(0) != META_KEY;
    hide IdBytes;
    if IdBytes(0) in s.values {
      var i :| 1 <= i <= s.sequence && IdBytes(0) == IdBytes(i);
      IdsAreOrdered(0, i);
    }
  }

  lemma FirstRecord(s: State, key: string)
    requires Inv(s, key) && s.sequence > 0
    ensures IdBytes(1) in s.values && s.values[IdBytes(1)].Stored?
    ensures var first := KeyText(key, s.values[IdBytes(1)].record);
            first in RowsOf(s, key) && RowsOf(s, key)[first] == IdBytes(1)
  {
    hide KeyText;
    assert IdBytes(1) in s.values && IdBytes(1) != META_KEY;
  }

  /** The one after that gets id 1: it takes the place of the first record, whose key value then leads to it, so the index
      is no bijection any more. */
  lemma IdsWrap(s: State, known: set<string>, later: set<string>, key: string, r: Record, q: Record)
    requires Inv(s, key) && s.sequence == TWO_32 - 1
    requires KeyText(key, r) !in RowsOf(s, key) && KeyText(key, q) !in RowsOf(s, key) && KeyText(key, r) != KeyText(key, q)
    requires IsKey(KeyText(key, r)) && IsKey(KeyText(key, q)) && Writable(r) && Writable(q)
    ensures IdBytes(1) in s.values && s.values[IdBytes(1)].Stored?
    ensures var t := WithRecord(s, known, key, KeyText(key, r), r);
            t.Some? && Indexed(t.value, key) &&
            var u := WithRecord(t.value, later, key, KeyText(key, q), q);
            u.Some? && FirstIsLost(u.value, key, KeyText(key, s.values[IdBytes(1)].record), q)
  {
    hide KeyText, IdBytes, WithRecord, FirstIsLost, Inv, Indexed;
    FirstRecord(s, key);
    InvMeansIndexed(s, key);
    IdZeroIsNew(s, known, key, r);
    TakesFirstPlace(WithRecord(s, known, key, KeyText(key, r), r).value, later, key, q, KeyText(key, s.values[IdBytes(1)].record));
  }

  lemma InvMeansIndexed(s: State, key: string)
    requires Inv(s, key)
    ensures Indexed(s, key)
  {
  }

  lemma TakesFirstPlace(t: State, known: set<string>, key: string, q: Record, first: Bytes)
    requires t.sequence == TWO_32 && first in RowsOf(t, key) && RowsOf(t, key)[first] == IdBytes(1)
    requires KeyText(key, q) !in RowsOf(t, key) && IsKey(KeyText(key, q)) && Writable(q)
    ensures var u := WithRecord(t, known, key, KeyText(key, q), q); u.Some? && FirstIsLost(u.value, key, first, q)
  {
    hide KeyText, IdBytes;
    AddedIfKey(t, known, key, KeyText(key, q), q);
    RowsWithRecord(t, known, key, KeyText(key, q), q, key);
    KeyTextIgnoresId(key, q, 1);
  }

  // ---------- a run that gets there ----------

  const KEY := "LocalID"

  /** Items that differ in their key, a number, only. */
  function NumberedOffer(i: nat): Offer {
    Offer(Record(0, "", Itoa(i), "", "", "", 0, map[], None), "")
  }

  function NumberedOffers(n: nat): (offers: seq<Offer>)
    ensures |offers| == n
  {
    if n == 0 then [] else NumberedOffers(n - 1) + [NumberedOffer(n - 1)]
  }

  /** The key of such an item is a key, and no other has it. */
  lemma NumbersAreKeys(i: nat)
    requires i <= TWO_32
    ensures KeyText(KEY, NumberedOffer(i).record) == Itoa(i) && IsKey(Itoa(i)) && Writable(NumberedOffer(i).record)
  {
    assert KeyText(KEY, NumberedOffer(i).record) == Itoa(i);
    hide KeyText, Digits;
    DigitsLength(i, 10);
    assert Pow10(5) == 100000 && Pow10(10) == 100000 * 100000 by {
      assert Pow10(5) == 10 * (10 * (10 * (10 * (10 * Pow10(0)))));
      assert Pow10(10) == 10 * (10 * (10 * (10 * (10 * Pow10(5)))));
    }
  }

  lemma NumbersDiffer(i: nat, j: nat)
    requires Itoa(i) == Itoa(j)
    ensures i == j
  {
    ValueOfDigits(i);
    ValueOfDigits(j);
  }

  /** All of them are new. */
  lemma {:induction false} NumbersAreNew(n: nat)
    requires n <= TWO_32 + 1
    ensures var run := RunPlain(Plain(map[], {}), KEY, false, NumberedOffers(n));
            && |run.1| == CountNew(run.1) == n
            && forall v :: v in run.0.entries <==> exists i :: 0 <= i < n && v == Itoa(i)
  {
    hide KeyText, Itoa, Writable;
    if n == 0 {
      assert RunPlain(Plain(map[], {}), KEY, false, NumberedOffers(n)) == (Plain(map[], {}), []);
    } else {
      NumbersAreNew(n - 1);
      var before := RunPlain(Plain(map[], {}), KEY, false, NumberedOffers(n - 1));
      var run := RunPlain(Plain(map[], {}), KEY, false, NumberedOffers(n));
      assert NumberedOffers(n)[..n - 1] == NumberedOffers(n - 1);
      NumbersAreKeys(n - 1);
      if Itoa(n - 1) in before.0.entries {
        var i :| 0 <= i < n - 1 && Itoa(n - 1) == Itoa(i);
        NumbersDiffer(n - 1, i);
      }
      assert run.1 == before.1 + [New] && run.1[..n - 1] == before.1;
      assert run.0.entries.Keys == before.0.entries.Keys + {Itoa(n - 1)};
      forall v ensures v in run.0.entries <==> exists i :: 0 <= i < n && v == Itoa(i) {
        if v == Itoa(n - 1) {
          assert 0 <= n - 1 < n;
        }
      }
    }
  }

  /** Their run fills the store. */
  lemma NumbersFill(n: nat)
    requires n < TWO_32
    ensures var s := BucketOf(RunStore(Db(None, {}), KEY, None, NumberedOffers(n)).0);
            && Inv(s, KEY) && s.sequence == n
            && forall i: nat :: i < TWO_32 + 2 ==> (Itoa(i) in RowsOf(s, KEY) <==> i < n)
  {
    hide Inv, Abstract, KeyText, Itoa, StoreAdd, PlainAdd, RowsOf;
    RunRefines(KEY, None, NumberedOffers(n));
    NumbersAreNew(n);
    var s := BucketOf(RunStore(Db(None, {}), KEY, None, NumberedOffers(n)).0);
    RowsAreEntries(s, KEY);
    forall i: nat | i < TWO_32 + 2 ensures Itoa(i) in RowsOf(s, KEY) <==> i < n {
      if j :| 0 <= j < n && Itoa(i) == Itoa(j) {
        NumbersDiffer(i, j);
      }
    }
  }

  lemma RowsAreEntries(s: State, key: string)
    requires Inv(s, key)
    ensures Indexed(s, key) && forall v :: v in RowsOf(s, key) <==> v in Abstract(s, key, None).entries
  {
  }

  /** An item that is not found is created in the buckets as finding left them. */
  lemma AddedWithRecord(db: Db, key: string, r: Record)
    requires Lookup(BucketOf(db), key, KeyText(key, r)).None?
    ensures var found := Db(AfterFind(db.results, db.known, key), KnownAfterFind(db.results, db.known, key, KeyText(key, r)));
            var t := WithRecord(BucketOf(found), found.known, key, KeyText(key, r), r);
            t.Some? ==> BucketOf(StoreAdd(db, key, KeyText(key, r), key, KeyText(key, r), None, "", r).0) == t.value
    ensures IndexName(key) in BucketOf(db).nested ==> BucketOf(Db(AfterFind(db.results, db.known, key), {})) == BucketOf(db)
  {
    hide KeyText, WithRecord, Lookup, Opened;
  }

  lemma NotFound(s: State, key: string, value: Bytes)
    requires value !in RowsOf(s, key)
    ensures Lookup(s, key, value).None?
  {
  }

  lemma IndexIsThere(s: State, known: set<string>, key: string, value: Bytes, r: Record)
    requires WithRecord(s, known, key, value, r).Some?
    ensures IndexName(key) in WithRecord(s, known, key, value, r).value.nested
  {
    hide IdBytes;
  }

  /** Finding leaves the invariant, the rows and the ids. */
  lemma FindKeepsInv(db: Db, key: string)
    requires Inv(BucketOf(db), key)
    ensures var s := BucketOf(Db(AfterFind(db.results, db.known, key), {}));
            Inv(s, key) && s.sequence == BucketOf(db).sequence && RowsOf(s, key) == RowsOf(BucketOf(db), key)
  {
    hide Inv, Abstract;
    OpenedInv(BucketOf(db), db.known, key, key, None);
    OpenedRows(BucketOf(db), db.known, key, key);
  }

  /** The store after so many of them. */
  function NumberedStore(n: nat): Db {
    RunStore(Db(None, {}), KEY, None, NumberedOffers(n)).0
  }

  lemma NumberedNext(n: nat)
    requires n <= TWO_32
    ensures var r := NumberedOffer(n).record;
            KeyText(KEY, r) == Itoa(n) && IsKey(KeyText(KEY, r)) && Writable(r)
            && NumberedStore(n + 1) == StoreAdd(NumberedStore(n), KEY, KeyText(KEY, r), KEY, KeyText(KEY, r), None, "", r).0
  {
    hide KeyText, Itoa, StoreAdd;
    NumbersAreKeys(n);
    assert NumberedOffers(n + 1)[..n] == NumberedOffers(n);
  }

  /** The 2^32nd gets id 0, and its key leads to it. */
  lemma LastNumberFits()
    ensures var s := BucketOf(NumberedStore(TWO_32));
            && Indexed(s, KEY) && s.sequence == TWO_32 && IndexName(KEY) in s.nested
            && Itoa(0) in RowsOf(s, KEY) && Itoa(TWO_32) !in RowsOf(s, KEY)
            && exists first :: first in RowsOf(s, KEY) && RowsOf(s, KEY)[first] == IdBytes(1)
  {
    hide KeyText, Itoa, StoreAdd, IdBytes, Inv, Indexed, NumberedStore, AfterFind, KnownAfterFind, WithRecord, RowsOf, Lookup;
    var n := TWO_32 - 1;
    var db, r := NumberedStore(n), NumberedOffer(n).record;
    FullNumbers();
    NumberedNext(n);
    FindKeepsInv(db, KEY);
    var found := Db(AfterFind(db.results, db.known, KEY), KnownAfterFind(db.results, db.known, KEY, Itoa(n)));
    var s := BucketOf(found);
    NotFound(BucketOf(db), KEY, Itoa(n));
    AddedWithRecord(db, KEY, r);
    IdZeroIsNew(s, found.known, KEY, r);
    IndexIsThere(s, found.known, KEY, Itoa(n), r);
    FirstRecord(s, KEY);
    NumbersApart();
    var first := KeyText(KEY, s.values[IdBytes(1)].record);
    assert first in RowsOf(BucketOf(NumberedStore(TWO_32)), KEY);
  }

  lemma NumbersApart()
    ensures Itoa(TWO_32) != Itoa(TWO_32 - 1)
  {
    hide Itoa;
    if Itoa(TWO_32) == Itoa(TWO_32 - 1) {
      NumbersDiffer(TWO_32, TWO_32 - 1);
    }
  }

  lemma FullNumbers()
    ensures var s := BucketOf(NumberedStore(TWO_32 - 1));
            && Inv(s, KEY) && s.sequence == TWO_32 - 1
            && Itoa(0) in RowsOf(s, KEY) && Itoa(TWO_32 - 1) !in RowsOf(s, KEY) && Itoa(TWO_32) !in RowsOf(s, KEY)
  {
    hide Inv, Itoa, RowsOf;
    NumbersFill(TWO_32 - 1);
  }

  /** The one after that takes the place of the first. */
  lemma NextNumberWraps()
    ensures !Indexed(BucketOf(NumberedStore(TWO_32 + 1)), KEY)
  {
    hide KeyText, Itoa, StoreAdd, IdBytes, Inv, Indexed, NumberedStore, AfterFind, KnownAfterFind, WithRecord, RowsOf, Lookup;
    LastNumberFits();
    NumberedNext(TWO_32);
    var db, r := NumberedStore(TWO_32), NumberedOffer(TWO_32).record;
    var found := Db(AfterFind(db.results, db.known, KEY), KnownAfterFind(db.results, db.known, KEY, Itoa(TWO_32)));
    NotFound(BucketOf(db), KEY, Itoa(TWO_32));
    AddedWithRecord(db, KEY, r);
    var first :| first in RowsOf(BucketOf(db), KEY) && RowsOf(BucketOf(db), KEY)[first] == IdBytes(1);
    TakesFirstPlace(BucketOf(found), found.known, KEY, r, first);
  }

  /** A run that shows the bound exactly: while no more than 2^32 items were new, the primary index is a bijection onto the
      records, and with the next one it is not. */
  lemma BijectionEndsExactly(n: nat)
    requires n <= TWO_32 + 1
    ensures Indexed(BucketOf(NumberedStore(n)), KEY) <==> n <= TWO_32
  {
    hide Inv, Indexed, Itoa, RowsOf, NumberedStore;
    if n < TWO_32 {
      FewNumbers(n);
    } else if n == TWO_32 {
      LastNumberFits();
    } else {
      NextNumberWraps();
    }
  }

  lemma FewNumbers(n: nat)
    requires n < TWO_32
    ensures Indexed(BucketOf(NumberedStore(n)), KEY)
  {
    hide Inv, Itoa, RowsOf, Indexed;
    NumbersFill(n);
    InvMeansIndexed(BucketOf(NumberedStore(n)), KEY);
  }
}
