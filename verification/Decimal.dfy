/** Decimal text of 64-bit signed integers: printing, zero-padded printing and parsing, as the Go
    standard library does them. */
module Decimal {
  import opened ByteStrings

  const MAX_INT := 0x7FFF_FFFF_FFFF_FFFF
  const MIN_INT := -0x8000_0000_0000_0000
  const TWO_64 := 0x1_0000_0000_0000_0000

  predicate IsInt(i: int) {
    MIN_INT <= i <= MAX_INT
  }

  /** Two's complement wrap-around to 64 bits, for sums that overflow at most once. */
  function Wrap(i: int): (r: int)
    requires MIN_INT <= i <= MAX_INT + TWO_64
    ensures IsInt(r) && (r == i || r == i - TWO_64)
  {
    if i > MAX_INT then i - TWO_64 else i
  }

  predicate IsDigit(c: char) {
    '0' <= c <= '9'
  }

  predicate AllDigits(s: string) {
    forall i :: 0 <= i < |s| ==> IsDigit(s[i])
  }

  predicate IsNumeral(s: string) {
    s != "" && AllDigits(s)
  }

  function Digit(d: nat): (c: char)
    requires d < 10
    ensures IsDigit(c)
  {
    '0' + d as char
  }

  function DigitValue(c: char): (d: nat)
    requires IsDigit(c)
    ensures d < 10
  {
    c as int - '0' as int
  }

  lemma DigitOfValue(c: char)
    requires IsDigit(c)
    ensures Digit(DigitValue(c)) == c
  {
  }

  function Value(s: string): (v: int)
    requires AllDigits(s)
    ensures v >= 0
  {
    if s == "" then 0 else Value(s[..|s| - 1]) * 10 + DigitValue(s[|s| - 1])
  }

  function Digits(n: nat): (s: string)
    ensures IsNumeral(s)
  {
    if n < 10 then [Digit(n)] else Digits(n / 10) + [Digit(n % 10)]
  }

  function Itoa(i: int): string {
    if i < 0 then "-" + Digits(-i) else Digits(i)
  }

  function Numerals(numbers: seq<int>): (r: seq<string>)
    ensures |r| == |numbers| && forall i :: 0 <= i < |numbers| ==> r[i] == Itoa(numbers[i])
  {
    seq(|numbers|, i requires 0 <= i < |numbers| => Itoa(numbers[i]))
  }

  function Zeros(n: int): (s: string)
    ensures AllDigits(s) && |s| == if n < 0 then 0 else n
  {
    if n <= 0 then "" else Zeros(n - 1) + ['0']
  }

  /** Printing with %0<width>d. */
  function Padded(width: nat, i: int): string {
    if i < 0 then "-" + (Zeros(width - 1 - |Digits(-i)|) + Digits(-i)) else Zeros(width - |Digits(i)|) + Digits(i)
  }

  /** The number and whether parsing succeeded: 0 for text that is no number, the nearest 64-bit integer
      for a number out of range. */
  function Atoi(s: string): (r: (int, bool))
    ensures IsInt(r.0)
  {
    var signed := s != "" && (s[0] == '-' || s[0] == '+');
    var body := if signed then s[1..] else s;
    if !IsNumeral(body) then (0, false)
    else
      var n: int := Value(body);
      var v := if s[0] == '-' then -n else n;
      if v > MAX_INT then (MAX_INT, false) else if v < MIN_INT then (MIN_INT, false) else (v, true)
  }

  lemma {:induction false} ValueOfDigits(n: nat)
    ensures Value(Digits(n)) == n
  {
    if n >= 10 {
      ValueOfDigits(n / 10);
      assert Digits(n)[..|Digits(n)| - 1] == Digits(n / 10);
    }
  }

  lemma {:induction false} ValueOfZeros(z: int, s: string)
    requires AllDigits(s)
    ensures AllDigits(Zeros(z) + s) && Value(Zeros(z) + s) == Value(s)
  {
    if s != "" {
      ValueOfZeros(z, s[..|s| - 1]);
      assert (Zeros(z) + s)[..|Zeros(z) + s| - 1] == Zeros(z) + s[..|s| - 1];
    } else {
      assert Zeros(z) + s == Zeros(z);
      if z > 0 {
        ValueOfZeros(z - 1, "");
        assert Zeros(z - 1) + "" == Zeros(z - 1);
        assert Zeros(z)[..z - 1] == Zeros(z - 1);
      }
    }
  }

  lemma ZerosThenDigits(z: int, n: nat)
    ensures IsNumeral(Zeros(z) + Digits(n)) && Value(Zeros(z) + Digits(n)) == n
  {
    ValueOfDigits(n);
    ValueOfZeros(z, Digits(n));
  }

  lemma AtoiOfNumeral(s: string)
    requires IsNumeral(s)
    ensures Value(s) <= MAX_INT ==> Atoi(s) == (Value(s), true)
    ensures Value(s) > MAX_INT ==> Atoi(s) == (MAX_INT, false)
  {
    assert IsDigit(s[0]);
  }

  lemma AtoiOfNegative(s: string)
    requires IsNumeral(s) && Value(s) <= -MIN_INT
    ensures Atoi("-" + s) == (-Value(s), true)
  {
    hide Value;
    var t := "-" + s;
    assert t[0] == '-' && t[1..] == s;
  }

  lemma AtoiOfPaddedNegative(width: nat, i: int)
    requires MIN_INT <= i < 0
    ensures Atoi(Padded(width, i)) == (i, true) && Padded(width, i)[0] == '-'
  {
    hide Value, Atoi, Zeros, Digits;
    var z := width - 1 - |Digits(-i)|;
    ZerosThenDigits(z, -i);
    AtoiOfNegative(Zeros(z) + Digits(-i));
  }

  /** Parsing undoes printing, with or without padding, for every 64-bit integer. */
  lemma AtoiOfPadded(width: nat, i: int)
    requires IsInt(i)
    ensures Atoi(Padded(width, i)) == (i, true)
    ensures i >= 0 ==> IsNumeral(Padded(width, i)) && Value(Padded(width, i)) == i
    ensures i < 0 ==> Padded(width, i)[0] == '-'
  {
    hide Value, Atoi, Zeros, Digits;
    if i < 0 {
      AtoiOfPaddedNegative(width, i);
    } else {
      var z := width - |Digits(i)|;
      ZerosThenDigits(z, i);
      AtoiOfNumeral(Zeros(z) + Digits(i));
    }
  }

  lemma UnpaddedIsItoa(i: int)
    ensures Padded(0, i) == Itoa(i)
  {
    var d := Digits(if i < 0 then -i else i);
    assert Zeros(-|d|) + d == d && Zeros(-1 - |d|) + d == d;
  }

  lemma AtoiOfItoa(i: int)
    requires IsInt(i)
    ensures Atoi(Itoa(i)) == (i, true)
  {
    AtoiOfPadded(0, i);
    UnpaddedIsItoa(i);
  }

  lemma LastDigit(s: string)
    requires IsNumeral(s)
    ensures var rest, last := s[..|s| - 1], s[|s| - 1];
            && s == rest + [last] && AllDigits(rest) && IsDigit(last)
            && Value(s) / 10 == Value(rest) && Digit(Value(s) % 10) == last && (rest == "" ==> Value(rest) == 0)
  {
    DigitOfValue(s[|s| - 1]);
  }

  lemma PaddedLonger(width: nat, n: nat)
    requires n >= 10
    ensures Padded(width + 1, n) == Padded(width, n / 10) + [Digit(n % 10)]
  {
    var d, zeros := Digits(n / 10), Zeros(width - |Digits(n / 10)|);
    assert Digits(n) == d + [Digit(n % 10)];
    hide Digits, Zeros;
    assert zeros + (d + [Digit(n % 10)]) == zeros + d + [Digit(n % 10)];
  }

  lemma PaddedDigit(width: nat, n: nat)
    requires n < 10
    ensures Padded(width + 1, n) == Zeros(width) + [Digit(n)]
    ensures width > 0 ==> Padded(width, 0) == Zeros(width)
  {
    assert Digits(n) == [Digit(n)] && Digits(0) == "0";
  }

  /** A numeral is its value, padded to its width. */
  lemma {:induction false} NumeralIsPadded(s: string)
    requires IsNumeral(s)
    ensures Padded(|s|, Value(s)) == s
  {
    hide Value, Digits, Zeros, Padded, Digit;
    var rest, v := s[..|s| - 1], Value(s);
    LastDigit(s);
    if rest != "" {
      NumeralIsPadded(rest);
    }
    if v >= 10 {
      PaddedLonger(|rest|, v);
    } else {
      PaddedDigit(|rest|, v);
      NoZeros();
    }
  }

  lemma NoZeros()
    ensures Zeros(0) == ""
  {
  }

  lemma {:induction false} DigitsLength(n: nat, w: nat)
    requires w > 0
    ensures |Digits(n)| <= w <==> n < Pow10(w)
  {
    if w > 1 && n >= 10 {
      DigitsLength(n / 10, w - 1);
    } else if n < 10 {
      PowPositive(w);
    } else {
      assert Pow10(1) == 10;
    }
  }

  function Pow10(w: nat): nat {
    if w == 0 then 1 else 10 * Pow10(w - 1)
  }

  lemma {:induction false} PowPositive(w: nat)
    ensures Pow10(w) >= 1 && (w > 0 ==> Pow10(w) >= 10)
  {
    if w > 0 {
      PowPositive(w - 1);
    }
  }

  // ---------- which texts are numbers ----------

  lemma LastDecides(a: string, b: string, x: char, y: char)
    requires |a| == |b|
    ensures Less(a + [x], b + [y]) <==> Less(a, b) || (a == b && x < y)
  {
    if a == b {
      LessUnderPrefix(a, [x], [y]);
      LessTotal(a, b);
    } else {
      SameWidth(a, b, x, y);
    }
  }

  lemma {:induction false} SameWidth(a: string, b: string, x: char, y: char)
    requires |a| == |b| && a != b
    ensures Less(a + [x], b + [y]) <==> Less(a, b)
  {
    assert (a + [x])[0] == a[0] && (b + [y])[0] == b[0];
    if a[0] == b[0] {
      assert a == [a[0]] + a[1..] && b == [b[0]] + b[1..];
      SameWidth(a[1..], b[1..], x, y);
      assert (a + [x])[1..] == a[1..] + [x] && (b + [y])[1..] == b[1..] + [y];
    }
  }

  /** Numerals of one width are ordered as texts like the numbers that they stand for. */
  lemma {:induction false} NumeralsInOrder(a: string, b: string)
    requires AllDigits(a) && AllDigits(b) && |a| == |b|
    ensures Less(a, b) <==> Value(a) < Value(b)
    ensures a == b <==> Value(a) == Value(b)
  {
    if a == "" {
      assert Value(a) == Value(b);
    } else {
      var n := |a| - 1;
      NumeralsInOrder(a[..n], b[..n]);
      assert a == a[..n] + [a[n]] && b == b[..n] + [b[n]];
      LastDecides(a[..n], b[..n], a[n], b[n]);
    }
  }

  /** A text is read as a number exactly if that fits 64 bits and the text is the number in decimal, with any number of
      leading zeros behind its sign, and with a plus sign or none where it is not negative. */
  lemma AtoiExactly(s: string, i: int)
    requires IsInt(i)
    ensures Atoi(s) == (i, true) <==>
            || (s != "" && i >= 0 && s == Padded(|s|, i))
            || (|s| > 1 && i >= 0 && s == "+" + Padded(|s| - 1, i))
            || (|s| > 1 && i <= 0 && s == "-" + Padded(|s| - 1, -i))
  {
    hide Value, Padded;
    if s != "" {
      var body := if s[0] == '-' || s[0] == '+' then s[1..] else s;
      if IsNumeral(body) {
        NumeralIsPadded(body);
        AtoiParts(s, body);
      }
      NumeralWhenPadded(s, |s|, i);
      if |s| > 1 {
        NumeralWhenPadded(s[1..], |s| - 1, i);
        NumeralWhenPadded(s[1..], |s| - 1, -i);
      }
    }
  }

  lemma AtoiParts(s: string, body: string)
    requires s != "" && body == (if s[0] == '-' || s[0] == '+' then s[1..] else s) && IsNumeral(body)
    ensures var v := if s[0] == '-' then -Value(body) else Value(body);
            Atoi(s).1 <==> IsInt(v)
    ensures Atoi(s).1 ==> Atoi(s).0 == if s[0] == '-' then -Value(body) else Value(body)
  {
    hide Value;
  }

  lemma NumeralWhenPadded(s: string, width: nat, n: int)
    ensures n >= 0 && s == Padded(width, n) ==> IsNumeral(s) && Value(s) == n && IsDigit(s[0])
  {
    hide Value, Zeros, Digits;
    if n >= 0 {
      ZerosThenDigits(width - |Digits(n)|, n);
    }
  }
}
