/** A search field that walks over a range of numbers kept as text, zero-padded to a fixed width. */
module RangeField {
  import opened Decimal

  /** A range field as a value. */
  datatype Range = Range(start: string, end: string, current: string) {
    predicate HasNext() {
      current != end
    }

    function GetCurrent(): string {
      if current == "" then start else current
    }

    /** 64-bit arithmetic; text that is no number counts as 0, a number out of range as the nearest one. */
    function Incremented(): Range {
      if !HasNext() then this
      else this.(current := Padded(|GetCurrent()|, Wrap(Atoi(GetCurrent()).0 + 1)))
    }
  }

  class RangeFieldState {
    const start: string
    const end: string
    var current: string

    constructor (start: string, end: string)
      ensures this.start == start && this.end == end && current == ""
    {
      this.start, this.end, current := start, end, "";
    }

    function View(): Range
      reads this
    {
      Range(start, end, current)
    }

    method HasNext() returns (b: bool)
      ensures b == View().HasNext()
    {
      b := current != end;
    }

    method GetCurrent() returns (s: string)
      ensures s == View().GetCurrent()
    {
      if current == "" {
        s := start;
      } else {
        s := current;
      }
    }

    method Increment()
      modifies this
      ensures View() == old(View()).Incremented()
    {
      var more := HasNext();
      if !more {
        return;
      }
      var cur := GetCurrent();
      var length := |cur|;
      var num := Atoi(cur).0;
      num := Wrap(num + 1);
      current := Padded(length, num);
    }

    /** The first call answers the start of the range, a call at its end the end again. */
    method Next() returns (s: string)
      modifies this
      ensures s == current
      ensures View() == (if old(current) == "" then old(View()).(current := start) else old(View()).Incremented())
    {
      if current == "" {
        current := start;
      } else {
        var more := HasNext();
        if !more {
          return current;
        }
        Increment();
      }
      return current;
    }
  }

  /** A fresh field after k increments. */
  function After(start: string, end: string, k: nat): (r: Range)
    ensures r.start == start && r.end == end
  {
    if k == 0 then Range(start, end, "") else After(start, end, k - 1).Incremented()
  }

  ghost predicate IsRange(start: string, end: string) {
    IsNumeral(start) && IsNumeral(end) && |start| == |end|
  }

  function Min(a: int, b: int): int {
    if a < b then a else b
  }

  // ---------- widths ----------

  lemma {:induction false} ValueBelowPow(s: string)
    requires AllDigits(s)
    ensures Value(s) < Pow10(|s|)
  {
    if s != "" {
      ValueBelowPow(s[..|s| - 1]);
    }
  }

  lemma PaddedWidth(w: nat, i: nat)
    requires w > 0
    ensures |Padded(w, i)| >= w
    ensures i < Pow10(w) ==> |Padded(w, i)| == w
  {
    DigitsLength(i, w);
  }

  lemma Pow10Of19()
    ensures Pow10(18) == 1_000_000_000_000_000_000
    ensures Pow10(19) == 10_000_000_000_000_000_000
  {
    assert Pow10(4) == 10_000;
    assert Pow10(8) == 100_000_000;
    assert Pow10(12) == 1_000_000_000_000;
    assert Pow10(16) == 10_000_000_000_000_000;
  }

  lemma {:induction false} Pow10Grows(v: nat, w: nat)
    requires v <= w
    ensures Pow10(v) <= Pow10(w)
  {
    if v < w {
      Pow10Grows(v, w - 1);
      PowPositive(w - 1);
    }
  }

  /** Any 64-bit integer fits 20 characters, and the smallest one needs them. */
  lemma PaddedWide(w: nat, i: int)
    requires IsInt(i)
    ensures w >= 20 ==> |Padded(w, i)| == w
    ensures i == MIN_INT ==> |Padded(w, i)| >= 20
  {
    Pow10Of19();
    if i < 0 {
      DigitsLength(-i, 19);
      DigitsLength(-i, 18);
    } else if w >= 20 {
      DigitsLength(i, 19);
    }
  }

  // ---------- an ascending range below 2^63 ----------

  lemma Bumped(r: Range, p: string, v: int)
    requires r.HasNext() && r.GetCurrent() == p && Atoi(p).0 == v
    ensures r.Incremented() == r.(current := Padded(|p|, Wrap(v + 1)))
  {
  }

  lemma Shown(w: nat, v: int, end: string)
    requires w == |end| > 0 && IsNumeral(end) && 0 <= v <= Value(end) <= MAX_INT
    ensures |Padded(w, v)| == w && Atoi(Padded(w, v)).0 == v
    ensures Padded(w, v) == end <==> v == Value(end)
  {
    ValueBelowPow(end);
    PaddedWidth(w, v);
    AtoiOfPadded(w, v);
    NumeralIsPadded(end);
  }

  lemma AscendStep(r: Range, w: nat, v: int, p: string, q: string)
    requires IsNumeral(r.end) && |r.end| == w && 0 <= v < Value(r.end) <= MAX_INT
    requires r.GetCurrent() == p == Padded(w, v) && q == Padded(w, v + 1) && r.HasNext()
    ensures r.Incremented() == r.(current := q) && q != "" && (q == r.end <==> v + 1 == Value(r.end))
  {
    Shown(w, v, r.end);
    Shown(w, v + 1, r.end);
    Bumped(r, p, v);
  }

  ghost predicate ShowsAfter(start: string, end: string, k: nat, v: int) {
    After(start, end, k).GetCurrent() == Padded(|end|, v)
  }

  lemma AscendsNext(start: string, end: string, k: nat, v: nat)
    requires IsRange(start, end) && v < Value(end) <= MAX_INT
    requires ShowsAfter(start, end, k, v) && After(start, end, k).HasNext()
    ensures ShowsAfter(start, end, k + 1, v + 1)
    ensures After(start, end, k + 1).HasNext() <==> v + 1 < Value(end)
  {
    AscendStep(After(start, end, k), |end|, v, Padded(|end|, v), Padded(|end|, v + 1));
    assert After(start, end, k + 1).current == Padded(|end|, v + 1);
  }

  /** The k-th increment shows start + k, padded, until the end is reached, and stays there. */
  lemma {:induction false} Ascends(start: string, end: string, k: nat)
    requires IsRange(start, end) && Value(start) < Value(end) <= MAX_INT
    ensures ShowsAfter(start, end, k, Value(start) + Min(k, Value(end) - Value(start)))
    ensures After(start, end, k).HasNext() <==> k < Value(end) - Value(start)
  {
    hide Padded, Atoi, Value, AllDigits;
    var span := Value(end) - Value(start);
    if k == 0 {
      NumeralIsPadded(start);
      assert After(start, end, 0).HasNext();
    } else {
      Ascends(start, end, k - 1);
      var before := After(start, end, k - 1);
      if k - 1 < span {
        AscendsNext(start, end, k - 1, Value(start) + (k - 1));
        assert After(start, end, k).HasNext() <==> k < span;
      } else {
        assert !before.HasNext();
        assert After(start, end, k) == before;
      }
    }
  }

  // ---------- which ranges are ever exhausted ----------

  lemma PaddedIsNoBigNumeral(w: nat, x: int, end: string)
    requires IsInt(x) && IsNumeral(end) && Value(end) > MAX_INT
    ensures Padded(w, x) != end
  {
    AtoiOfPadded(w, x);
    assert IsDigit(end[0]);
  }

  lemma {:induction false} NeverBeyondInt(start: string, end: string, k: nat)
    requires IsRange(start, end) && Value(end) > MAX_INT
    ensures After(start, end, k).HasNext()
  {
    hide Padded, Atoi, Value, AllDigits;
    if k > 0 {
      NeverBeyondInt(start, end, k - 1);
      var cur := After(start, end, k - 1).GetCurrent();
      PaddedIsNoBigNumeral(|cur|, Wrap(Atoi(cur).0 + 1), end);
    }
  }

  /** Text that lies beyond `end`: longer, or as long and a greater number. */
  ghost predicate Beyond(s: string, end: string)
    requires IsNumeral(end)
  {
    |s| > |end| || (|s| == |end| && IsNumeral(s) && Value(s) > Value(end))
  }

  lemma BeyondNext(s: string, end: string)
    requires IsNumeral(end) && |end| <= 19
    requires Beyond(s, end) || (|s| == |end| && IsNumeral(s) && Value(s) == Value(end))
    ensures Beyond(Padded(|s|, Wrap(Atoi(s).0 + 1)), end)
  {
    if |s| == |end| {
      AtoiOfNumeral(s);
      var n := Min(Value(s), MAX_INT);
      assert Atoi(s).0 == n;
      if n == MAX_INT {
        assert Wrap(n + 1) == MIN_INT;
        PaddedWide(|s|, MIN_INT);
      } else {
        PaddedWidth(|s|, n + 1);
        AtoiOfPadded(|s|, n + 1);
      }
    } else {
      PaddedAtLeast(|s|, Wrap(Atoi(s).0 + 1));
    }
  }

  lemma PaddedAtLeast(w: nat, i: int)
    ensures |Padded(w, i)| >= w && Padded(w, i) != ""
  {
  }

  lemma {:induction false} NeverBack(start: string, end: string, k: nat)
    requires IsRange(start, end) && |end| <= 19 && Value(start) >= Value(end)
    ensures After(start, end, k).HasNext()
    ensures k > 0 ==> Beyond(After(start, end, k).current, end)
  {
    hide Padded, Atoi, Value, AllDigits;
    if k > 0 {
      NeverBack(start, end, k - 1);
      BeyondNext(After(start, end, k - 1).GetCurrent(), end);
    }
  }

  lemma WrapNext(i: int)
    requires MIN_INT <= i < MAX_INT + TWO_64
    ensures Wrap(Wrap(i) + 1) == Wrap(i + 1)
  {
  }

  lemma WrapTurn(i: int)
    requires IsInt(i)
    ensures Wrap(i + TWO_64) == i
  {
  }

  lemma WideShown(w: nat, i: int)
    requires w >= 20 && IsInt(i)
    ensures |Padded(w, i)| == w && Padded(w, i) != "" && Atoi(Padded(w, i)).0 == i
  {
    PaddedWide(w, i);
    AtoiOfPadded(w, i);
  }

  /** Wide fields wrap around below zero and come back: before the end is met, the k-th increment shows
      the start (or the largest integer, if the start is beyond it) plus k, modulo 2^64. */
  lemma {:induction false} WideWalk(start: string, end: string, c: int, k: nat)
    requires IsRange(start, end) && |end| >= 20 && 0 < k <= TWO_64 && c == Min(Value(start), MAX_INT)
    requires forall j :: 0 <= j < k ==> After(start, end, j).HasNext()
    ensures After(start, end, k).current == Padded(|end|, Wrap(c + k))
  {
    hide Padded, Atoi, Value, AllDigits;
    assert After(start, end, k - 1).HasNext();
    if k == 1 {
      AtoiOfNumeral(start);
      Bumped(After(start, end, 0), start, c);
    } else {
      WideWalk(start, end, c, k - 1);
      var v := Wrap(c + (k - 1));
      WideShown(|end|, v);
      WrapNext(c + (k - 1));
      Bumped(After(start, end, k - 1), Padded(|end|, v), v);
    }
  }

  lemma WideReaches(start: string, end: string) returns (k: nat)
    requires IsRange(start, end) && |end| >= 20 && Value(end) <= MAX_INT
    ensures !After(start, end, k).HasNext()
  {
    var c, e := Min(Value(start), MAX_INT), Value(end);
    k := if e > c then e - c else e - c + TWO_64;
    if j :| 0 <= j < k && !After(start, end, j).HasNext() {
      k := j;
    } else {
      WideWalk(start, end, c, k);
      WrapTurn(e);
      assert Wrap(c + k) == e;
      NumeralIsPadded(end);
    }
  }

  /** A range of equally wide numerals comes to an end exactly when its end fits 64 bits and lies above
      the start, or the field is wide enough for the wrap-around to stay within its width. */
  lemma ExhaustedExactlyWhen(start: string, end: string)
    requires IsRange(start, end)
    ensures (exists k: nat :: !After(start, end, k).HasNext())
            <==> Value(end) <= MAX_INT && (Value(start) < Value(end) || |end| >= 20)
  {
    if Value(end) > MAX_INT {
      forall k: nat ensures After(start, end, k).HasNext() {
        NeverBeyondInt(start, end, k);
      }
    } else if Value(start) < Value(end) {
      Ascends(start, end, Value(end) - Value(start));
    } else if |end| <= 19 {
      forall k: nat ensures After(start, end, k).HasNext() {
        NeverBack(start, end, k);
      }
    } else {
      var k := WideReaches(start, end);
    }
  }
}
