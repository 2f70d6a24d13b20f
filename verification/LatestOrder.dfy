/** Which of the latest results a count picks: the slots are read in the order of their decimal names. */
module LatestOrder {
  import opened ByteStrings
  import opened Decimal
  import opened LatestResults
  import opened Sequences

  /** The slot whose name is the i-th of all. */
  function SlotAt(i: nat): (slot: nat)
    requires i < SLOTS
    ensures slot < SLOTS
  {
    if i < 2 then i else if i < 12 then i + 8 else if i == 12 then 2 else if i < 15 then i + 7 else i - 12
  }

  const NAMES: seq<Bytes> := ["0", "1", "10", "11", "12", "13", "14", "15", "16", "17", "18", "19", "2", "20", "21",
                              "3", "4", "5", "6", "7", "8", "9"]

  lemma {:induction false} ChainSorted(keys: seq<Bytes>)
    requires forall i :: 0 <= i < |keys| - 1 ==> Less(keys[i], keys[i + 1])
    ensures Sorted(keys)
  {
    if keys == [] {
      assert Sorted(keys);
    } else {
      var init := keys[..|keys| - 1];
      ChainSorted(init);
      forall i, j | 0 <= i < j < |keys| ensures Less(keys[i], keys[j]) {
        if j == |keys| - 1 && i < j - 1 {
          assert Less(init[i], init[j - 1]);
          LessTransitive(keys[i], keys[j - 1], keys[j]);
        } else if j < |keys| - 1 {
          assert Less(init[i], init[j]);
        }
      }
    }
  }

  lemma NamesSorted()
    ensures Sorted(NAMES)
  {
    forall i | 0 <= i < |NAMES| - 1 ensures Less(NAMES[i], NAMES[i + 1]) {
      NextName(i);
    }
    ChainSorted(NAMES);
  }

  lemma NextName(i: nat)
    requires i < 21
    ensures Less(NAMES[i], NAMES[i + 1])
  {
    var a, b := NAMES[i], NAMES[i + 1];
    assert a[0] < b[0] || (a[0] == b[0] && |b| == 2 && (|a| == 1 || a[1] < b[1]));
    assert a[0] == b[0] ==> Less(a[1..], b[1..]);
  }

  lemma NamesAreTexts(i: nat)
    requires i < SLOTS
    ensures Itoa(SlotAt(i)) == NAMES[i]
  {
    var n := SlotAt(i);
    if n < 10 {
      assert Itoa(n) == [Digit(n)];
    } else {
      assert Digits(n / 10) == [Digit(n / 10)];
      assert Digits(n) == [Digit(n / 10)] + [Digit(n % 10)];
    }
  }

  lemma NamesAscend(i: nat, j: nat)
    requires i < j < SLOTS
    ensures Less(Itoa(SlotAt(i)), Itoa(SlotAt(j)))
  {
    NamesSorted();
    NamesAreTexts(i);
    NamesAreTexts(j);
    hide SlotAt, Itoa, Less;
    assert Less(NAMES[i], NAMES[j]);
  }

  /** The first m slots, in the order of their names, from the i-th name on. */
  function SlotsFrom(m: nat, i: nat): (slots: seq<nat>)
    ensures forall s :: s in slots ==> s < m
    decreases SLOTS - i
  {
    if i >= SLOTS then [] else (if SlotAt(i) < m then [SlotAt(i)] else []) + SlotsFrom(m, i + 1)
  }

  function SlotOrder(m: nat): seq<nat> {
    SlotsFrom(m, 0)
  }

  lemma {:induction false} SlotsFromMembers(m: nat, i: nat, s: nat)
    ensures s in SlotsFrom(m, i) <==> s < m && exists j :: i <= j < SLOTS && SlotAt(j) == s
    decreases SLOTS - i
  {
    hide SlotAt;
    if i >= SLOTS {
      assert SlotsFrom(m, i) == [];
    } else {
      SlotsFromMembers(m, i + 1, s);
    }
  }

  /** The place of the name of a slot. */
  function PlaceOf(slot: nat): (i: nat)
    requires slot < SLOTS
    ensures i < SLOTS && SlotAt(i) == slot
  {
    if slot < 2 then slot else if slot == 2 then 12 else if slot < 10 then slot + 12 else if slot < 20 then slot - 8 else slot - 7
  }

  lemma {:induction false} SlotNamesSorted(m: nat, i: nat)
    ensures Sorted(Numerals(SlotsFrom(m, i)))
    decreases SLOTS - i
  {
    hide SlotAt, Itoa, Less;
    if i >= SLOTS {
      assert Numerals(SlotsFrom(m, i)) == [];
    } else {
      SlotNamesSorted(m, i + 1);
      var rest := SlotsFrom(m, i + 1);
      forall k | 0 <= k < |rest| ensures Less(Itoa(SlotAt(i)), Itoa(rest[k])) {
        SlotsFromMembers(m, i + 1, rest[k]);
        var j :| i + 1 <= j < SLOTS && SlotAt(j) == rest[k];
        NamesAscend(i, j);
      }
      assert forall k :: 0 <= k < |rest| ==> Numerals(rest)[k] == Itoa(rest[k]);
      assert Numerals([SlotAt(i)] + rest) == [Itoa(SlotAt(i))] + Numerals(rest);
    }
  }

  function Kept(n: nat): nat {
    if n < SLOTS then n else SLOTS
  }

  /** The push that a slot holds after n pushes. */
  function TurnOf(n: nat, slot: nat): (t: nat)
    requires slot < Kept(n)
    ensures Recent(t, n) && t % SLOTS == slot
  {
    n - 1 - (n - 1 - slot) % SLOTS
  }

  lemma SlotOrderMembers(m: nat, s: nat)
    requires m <= SLOTS
    ensures s in SlotOrder(m) <==> s < m
  {
    SlotsFromMembers(m, 0, s);
    if s < m {
      assert SlotAt(PlaceOf(s)) == s;
    }
  }

  lemma RecentSlotNames(n: nat, k: Bytes)
    ensures k in RecentSlots(n) <==> k in Numerals(SlotOrder(Kept(n)))
  {
    hide Itoa, SlotsFrom, RecentSlots;
    var m, names := Kept(n), Numerals(SlotOrder(Kept(n)));
    SlotMembers(n, k);
    if t :| Recent(t, n) && k == SlotKey(t) {
      SlotOrderMembers(m, t % SLOTS);
      var i :| 0 <= i < |SlotOrder(m)| && SlotOrder(m)[i] == t % SLOTS;
      assert names[i] == k;
    }
    if k in names {
      var i :| 0 <= i < |names| && names[i] == k;
      assert SlotOrder(m)[i] in SlotOrder(m);
      assert Recent(TurnOf(n, SlotOrder(m)[i]), n) && SlotKey(TurnOf(n, SlotOrder(m)[i])) == k;
    }
  }

  /** The keys are read in the order of the names of the slots. */
  lemma KeysAreSlotNames<T(!new)>(values: map<Bytes, Slot<T>>, pushed: seq<T>)
    requires Holds(values, pushed)
    ensures KeptFrom(SortedKeys(values.Keys), 0) == Numerals(SlotOrder(Kept(|pushed|)))
  {
    hide Holds, Sorted, SlotsFrom, Itoa, RecentSlots;
    var names := Numerals(SlotOrder(Kept(|pushed|)));
    RecentSlotsHold(values, pushed);
    KeptIsSorted(SortedKeys(values.Keys), 0);
    SlotNamesSorted(Kept(|pushed|), 0);
    forall k ensures k in RecentSlots(|pushed|) <==> k in names {
      RecentSlotNames(|pushed|, k);
    }
    SortedUnique(KeptFrom(SortedKeys(values.Keys), 0), names);
  }

  /** The pushes that reading picks for a count, by their number, in the order in which they are answered. */
  function Picked(n: nat, count: int): (turns: seq<nat>)
    ensures forall t <- turns :: Recent(t, n)
    ensures forall i :: 0 <= i < |turns| ==> turns[i] < n
  {
    var slots := SlotOrder(Kept(n));
    Cut(seq(|slots|, i requires 0 <= i < |slots| => assert slots[i] in slots; TurnOf(n, slots[i])), count)
  }

  /** Exactly what is answered, for every count: by position, the pushes in the slots whose names come first. */
  lemma LatestByPosition<T(!new)>(values: map<Bytes, Slot<T>>, pushed: seq<T>, count: int)
    requires Holds(values, pushed)
    ensures AllPacked(values)
    ensures var answer, turns := Cut(InSlotOrder(values), count), Picked(|pushed|, count);
            |answer| == |turns| && forall i :: 0 <= i < |turns| ==> answer[i] == pushed[turns[i]]
  {
    hide SlotsFrom, Itoa, RecentSlots, Sorted, KeptFrom;
    var n, slots := |pushed|, SlotOrder(Kept(|pushed|));
    RecentSlotsHold(values, pushed);
    KeysAreSlotNames(values, pushed);
    forall i | 0 <= i < |slots|
      ensures slots[i] < Kept(n) && Itoa(slots[i]) in values && values[Itoa(slots[i])] == Packed(pushed[TurnOf(n, slots[i])])
    {
      assert slots[i] in slots;
      assert Recent(TurnOf(n, slots[i]), n) && SlotKey(TurnOf(n, slots[i])) == Itoa(slots[i]);
    }
  }

  /** The answer is the newest pushes: as many as it has. */
  ghost predicate PicksNewest(n: nat, count: int) {
    forall t <- Picked(n, count) :: t >= n - |Picked(n, count)|
  }

  lemma FullOrder()
    ensures |SlotOrder(SLOTS)| == SLOTS
    ensures forall i :: 0 <= i < SLOTS ==> SlotOrder(SLOTS)[i] == SlotAt(i)
  {
    FullFrom(0);
  }

  lemma {:induction false} FullFrom(i: nat)
    requires i <= SLOTS
    ensures |SlotsFrom(SLOTS, i)| == SLOTS - i
    ensures forall j :: i <= j < SLOTS ==> SlotsFrom(SLOTS, i)[j - i] == SlotAt(j)
    decreases SLOTS - i
  {
    hide SlotAt;
    if i == SLOTS {
      assert SlotsFrom(SLOTS, i) == [];
    } else {
      FullFrom(i + 1);
    }
  }

  lemma {:induction false} OrderIsOnce(m: nat, i: nat)
    ensures NoRepeats(SlotsFrom(m, i))
    decreases SLOTS - i
  {
    if i >= SLOTS {
      assert SlotsFrom(m, i) == [];
    } else {
      OrderIsOnce(m, i + 1);
      SlotsFromMembers(m, i + 1, SlotAt(i));
    }
  }

  /** All kept pushes have a slot in the order. */
  lemma OrderIsComplete(m: nat)
    requires m <= SLOTS
    ensures |SlotOrder(m)| == m
  {
    hide SlotsFrom;
    var slots := SlotOrder(m);
    OrderIsOnce(m, 0);
    AsManyElements(slots);
    forall s: nat ensures s in Elements(slots) <==> s in Below(m) {
      SlotOrderMembers(m, s);
    }
    assert Elements(slots) == Below(m);
  }

  lemma PickedSize(n: nat, count: int)
    ensures |Picked(n, count)| == if 0 < count < Kept(n) then count else Kept(n)
  {
    hide SlotsFrom;
    OrderIsComplete(Kept(n));
  }

  /** How many pushes came after the one in a slot, when the last went to slot `last` of a full ring. */
  function Age(slot: nat, last: nat): (age: nat)
    requires slot < SLOTS && last < SLOTS
    ensures age < SLOTS
  {
    if slot <= last then last - slot else last - slot + SLOTS
  }

  lemma AgeOfSlot(n: nat, slot: nat)
    requires n >= SLOTS && slot < SLOTS
    ensures TurnOf(n, slot) == n - 1 - Age(slot, (n - 1) % SLOTS)
  {
    var last, q := (n - 1) % SLOTS, (n - 1) / SLOTS;
    assert n - 1 == SLOTS * q + last;
  }

  /** The slots whose names come first hold the youngest pushes. */
  ghost predicate FirstAreYoung(count: nat, last: nat)
    requires count <= SLOTS && last < SLOTS
  {
    forall i :: 0 <= i < count ==> Age(SlotAt(i), last) < count
  }

  lemma PickedAges(n: nat, count: nat)
    requires n >= SLOTS && 0 < count < SLOTS
    ensures PicksNewest(n, count) <==> FirstAreYoung(count, (n - 1) % SLOTS)
  {
    FullOrder();
    hide SlotAt, SlotsFrom, TurnOf, Age;
    var turns := Picked(n, count);
    assert |turns| == count && forall i :: 0 <= i < count ==> turns[i] == TurnOf(n, SlotAt(i));
    forall i | 0 <= i < count ensures turns[i] >= n - count <==> Age(SlotAt(i), (n - 1) % SLOTS) < count {
      AgeOfSlot(n, SlotAt(i));
    }
    if PicksNewest(n, count) {
      forall i | 0 <= i < count ensures Age(SlotAt(i), (n - 1) % SLOTS) < count {
        assert turns[i] in turns;
      }
    }
  }

  /** A place among the first whose slot is too old, where there is one. */
  function OldPlace(count: nat, last: nat): (i: nat)
    requires last < SLOTS
    ensures i < SLOTS
  {
    if last >= count then 0
    else if last == 0 then 1
    else if count <= 14 then
      if last >= 10 then PlaceOf(last + 1) else if last + 12 >= count then 2 else 12
    else if last < count - 13 || last >= 9 then PlaceOf((last + 1) % SLOTS) else 2
  }

  /** They do for the counts 1 and 2 right after the ring turned, and for 15 and more at one slot each. */
  lemma YoungExactly(count: nat, last: nat)
    requires 0 < count < SLOTS && last < SLOTS
    ensures FirstAreYoung(count, last) <==> (count <= 2 && last == count - 1) || (count >= 15 && last == count - 13)
  {
    if !((count <= 2 && last == count - 1) || (count >= 15 && last == count - 13)) {
      assert OldPlace(count, last) < count && Age(SlotAt(OldPlace(count, last)), last) >= count;
    }
  }

  /** With a ring that is not full, the oldest push is always picked. */
  lemma OldestIsPicked(n: nat, count: int)
    requires 0 < n < SLOTS
    ensures 0 in Picked(n, count)
  {
    assert SlotOrder(n) == [0] + SlotsFrom(n, 1);
    hide SlotsFrom;
    assert TurnOf(n, 0) == 0;
    assert Picked(n, count)[0] == 0;
  }

  /** For every number of pushes and every count: the answer is the newest pushes exactly if it is all that are kept,
      or the ring is full and the last push went to the slot that the count needs. */
  lemma NewestExactly(n: nat, count: int)
    ensures PicksNewest(n, count) <==>
            || count <= 0 || count >= Kept(n)
            || (n >= SLOTS && count <= 2 && (n - 1) % SLOTS == count - 1)
            || (n >= SLOTS && count >= 15 && (n - 1) % SLOTS == count - 13)
  {
    hide SlotOrder, Picked, OldPlace, FirstAreYoung;
    PickedSize(n, count);
    if 0 < count < Kept(n) {
      if n >= SLOTS {
        PickedAges(n, count);
        YoungExactly(count, (n - 1) % SLOTS);
      } else {
        OldestIsPicked(n, count);
      }
    }
  }

  /** The callers ask for 20: they get the newest while the ring has no more, and afterwards exactly when the last
      push went to slot 7. */
  lemma TwentyAreNewestExactly(n: nat)
    ensures PicksNewest(n, 20) <==> n <= 20 || (n >= SLOTS && (n - 1) % SLOTS == 7)
  {
    hide PicksNewest;
    NewestExactly(n, 20);
  }

  /** A count of one answers the push in slot 0, the newest exactly if the last push went there. */
  lemma OneIsNewestExactly(n: nat)
    requires n > 0
    ensures Picked(n, 1) == [n - 1 - (n - 1) % SLOTS]
    ensures PicksNewest(n, 1) <==> (n - 1) % SLOTS == 0
  {
    assert SlotOrder(Kept(n)) == [SlotAt(0)] + SlotsFrom(Kept(n), 1);
    hide SlotsFrom;
    assert Picked(n, 1) == [TurnOf(n, 0)];
    assert TurnOf(n, 0) in Picked(n, 1);
  }
}
