/** The values that the free fields of an item can have: how they are printed in an index, and what they are after
    they were stored as JSON and read back. */
module Fields {
  import opened Decimal

  datatype IntKind = Int | Int16 | Int64 | Uint | Uint16 | Uint64 | OtherInt

  /** A float: a whole number, or the text that Go prints for any other. Rounding is not modelled. */
  datatype Floating = Whole(number: int) | Shown(text: string)

  datatype Field =
    | Nil
    | Text(text: string)
    | Flag(flag: bool)
    | Number(number: int, kind: IntKind)
    | Float(value: Floating)               // float64
    | Float32(value: Floating)
    | Rune(code: int)
    | Time(unix: int, written: string)     // and its JSON text
    | Texts(texts: seq<string>)            // []string
    | Json(of: Field)                      // the list or object that JSON makes of a value
    | Other(identity: string)              // any other type

  type ModelData = map<string, Field>

  // ---------- printing ----------

  /** The types that have an index value. */
  predicate Printable(f: Field) {
    f.Text? || f.Flag? || (f.Number? && !f.kind.OtherInt?) || f.Float? || f.Float32? || f.Rune? || f.Time?
  }

  function Printed(f: Field): string
    requires Printable(f)
  {
    match f
    case Text(text) => text
    case Flag(flag) => if flag then "true" else "false"
    case Number(number, _) => Itoa(number)
    case Float(value) => FloatText(value)
    case Float32(value) => FloatText(value)
    case Rune(code) => Utf8(code)
    case Time(unix, _) => Itoa(unix)
  }

  /** Whole numbers of more than six digits are printed with an exponent. */
  function FloatText(value: Floating): string {
    match value
    case Shown(text) => text
    case Whole(number) =>
      var digits := Digits(if number < 0 then -number else number);
      var sign := if number < 0 then "-" else "";
      if |digits| <= 6 then sign + digits
      else
        var fraction := WithoutZeros(digits[1..]);
        var exponent := Digits(|digits| - 1);
        sign + [digits[0]] + (if fraction == "" then "" else "." + fraction)
          + "e+" + (if |exponent| < 2 then "0" else "") + exponent
  }

  function WithoutZeros(s: string): string {
    if s != "" && s[|s| - 1] == '0' then WithoutZeros(s[..|s| - 1]) else s
  }

  const REPLACEMENT: string := [0xEF as char, 0xBF as char, 0xBD as char]

  /** The bytes of a code point; those that are none are replaced. */
  function Utf8(code: int): string {
    if code < 0 || 0xD800 <= code < 0xE000 || code > 0x10FFFF then REPLACEMENT
    else if code < 0x80 then [code as char]
    else if code < 0x800 then [(0xC0 + code / 0x40) as char, (0x80 + code % 0x40) as char]
    else if code < 0x10000 then
      [(0xE0 + code / 0x1000) as char, (0x80 + code / 0x40 % 0x40) as char, (0x80 + code % 0x40) as char]
    else
      [(0xF0 + code / 0x40000) as char, (0x80 + code / 0x1000 % 0x40) as char, (0x80 + code / 0x40 % 0x40) as char,
       (0x80 + code % 0x40) as char]
  }

  // ---------- what is printed ----------

  /** Texts are printed as they are, flags as words, integers and the seconds of a time in decimal. */
  lemma PrintedPlainly(f: Field)
    ensures f.Text? ==> Printed(f) == f.text
    ensures f.Flag? ==> Printed(f) == if f.flag then "true" else "false"
    ensures f.Number? && Printable(f) && IsInt(f.number) ==> Atoi(Printed(f)) == (f.number, true)
    ensures f.Time? && IsInt(f.unix) ==> Atoi(Printed(f)) == (f.unix, true)
    ensures (f.Float? || f.Float32?) && f.value.Shown? ==> Printed(f) == f.value.text
  {
    hide Atoi, Itoa;
    if f.Number? && IsInt(f.number) {
      AtoiOfItoa(f.number);
    } else if f.Time? && IsInt(f.unix) {
      AtoiOfItoa(f.unix);
    }
  }

  lemma {:induction false} ZerosAreOut(s: string)
    requires AllDigits(s)
    ensures var w := WithoutZeros(s);
            AllDigits(w) && |w| <= |s| && s == w + Zeros(|s| - |w|) && (w != "" ==> w[|w| - 1] != '0')
  {
    if s == "" || s[|s| - 1] != '0' {
      assert s == s + Zeros(0);
    } else {
      var init := s[..|s| - 1];
      ZerosAreOut(init);
      assert s == init + ['0'];
      assert Zeros(|s| - |WithoutZeros(init)|) == Zeros(|init| - |WithoutZeros(init)|) + ['0'];
    }
  }

  lemma TenTimes(v: int, p: int)
    ensures v * p * 10 == v * (10 * p)
  {
  }

  lemma ZeroBehind(t: string)
    requires AllDigits(t)
    ensures AllDigits(t + ['0']) && Value(t + ['0']) == Value(t) * 10
  {
    assert (t + ['0'])[..|t|] == t && DigitValue('0') == 0;
  }

  lemma {:induction false} ZerosBehind(s: string, z: nat)
    requires AllDigits(s)
    ensures AllDigits(s + Zeros(z)) && Value(s + Zeros(z)) == Value(s) * Pow10(z)
  {
    if z == 0 {
      assert s + Zeros(0) == s;
    } else {
      var t := s + Zeros(z - 1);
      assert s + Zeros(z) == t + ['0'];
      assert Pow10(z) == 10 * Pow10(z - 1);
      hide Value, Zeros, Pow10;
      ZerosBehind(s, z - 1);
      ZeroBehind(t);
      TenTimes(Value(s), Pow10(z - 1));
    }
  }

  /** The text is that of `first`.`fraction` times ten to the `exponent`. */
  ghost predicate IsScientific(text: string, negative: bool, first: char, fraction: string, exponent: nat) {
    text == (if negative then "-" else "") + [first] + (if fraction == "" then "" else "." + fraction) + "e+" + Padded(2, exponent)
  }

  lemma TwoDigits(n: nat)
    ensures Padded(2, n) == (if |Digits(n)| < 2 then "0" else "") + Digits(n)
  {
    assert Zeros(1) == Zeros(0) + ['0'] == "0";
  }

  lemma ManyDigits(m: nat)
    ensures m < 1_000_000 <==> |Digits(m)| <= 6
  {
    DigitsLength(m, 6);
    assert Pow10(6) == 1_000_000;
  }

  /** A whole number of at most six digits is printed in decimal. */
  lemma ShortFloats(n: int)
    requires -1_000_000 < n < 1_000_000
    ensures FloatText(Whole(n)) == Itoa(n)
  {
    ManyDigits(if n < 0 then -n else n);
  }

  lemma DigitsOfLong(digits: string) returns (first: char, fraction: string, exponent: nat)
    requires IsNumeral(digits)
    ensures first == digits[0] && fraction == WithoutZeros(digits[1..]) && exponent == |digits| - 1
    ensures IsDigit(first) && AllDigits(fraction) && |fraction| <= exponent
    ensures fraction != "" ==> fraction[|fraction| - 1] != '0'
    ensures Value([first] + fraction) * Pow10(exponent - |fraction|) == Value(digits)
  {
    hide Value, Zeros, WithoutZeros, Pow10;
    first, fraction, exponent := digits[0], WithoutZeros(digits[1..]), |digits| - 1;
    ZerosAreOut(digits[1..]);
    assert IsDigit(first) && AllDigits([first] + fraction);
    ZerosBehind([first] + fraction, exponent - |fraction|);
    assert digits == [first] + fraction + Zeros(exponent - |fraction|);
  }

  /** A longer one is printed as a mantissa that does not end in a zero and an exponent; the text stands for the number. */
  lemma LongFloats(n: int) returns (first: char, fraction: string, exponent: nat)
    requires !(-1_000_000 < n < 1_000_000)
    ensures IsScientific(FloatText(Whole(n)), n < 0, first, fraction, exponent)
    ensures IsDigit(first) && AllDigits(fraction) && |fraction| <= exponent && exponent >= 6
    ensures fraction != "" ==> fraction[|fraction| - 1] != '0'
    ensures Value([first] + fraction) * Pow10(exponent - |fraction|) == if n < 0 then -n else n
  {
    hide Value, WithoutZeros, Pow10, Digits, Padded, IsNumeral;
    var m := if n < 0 then -n else n;
    ManyDigits(m);
    ValueOfDigits(m);
    first, fraction, exponent := DigitsOfLong(Digits(m));
    TwoDigits(exponent);
  }

  /** The code point of a UTF-8 sequence. */
  function RuneOf(s: string): int {
    match |s|
    case 1 => s[0] as int
    case 2 => (s[0] as int - 0xC0) * 0x40 + (s[1] as int - 0x80)
    case 3 => (s[0] as int - 0xE0) * 0x1000 + (s[1] as int - 0x80) * 0x40 + (s[2] as int - 0x80)
    case 4 => (s[0] as int - 0xF0) * 0x40000 + (s[1] as int - 0x80) * 0x1000 + (s[2] as int - 0x80) * 0x40 + (s[3] as int - 0x80)
    case _ => 0xFFFD
  }

  lemma ShortRunes(code: int)
    requires code < 0x800
    ensures RuneLength(Utf8(code)) == |Utf8(code)| > 0
    ensures RuneOf(Utf8(code)) == if 0 <= code then code else 0xFFFD
  {
  }

  lemma MiddleRunes(code: int)
    requires 0x800 <= code < 0x10000
    ensures RuneLength(Utf8(code)) == |Utf8(code)| == 3
    ensures RuneOf(Utf8(code)) == if 0xD800 <= code < 0xE000 then 0xFFFD else code
  {
  }

  /** The bytes of a long code point. */
  lemma FourBytes(code: int)
    requires 0x10000 <= code <= 0x10FFFF
    ensures var s := Utf8(code);
            && |s| == 4 && 0xF0 <= s[0] as int <= 0xF4 && (forall i :: 1 <= i < 4 ==> 0x80 <= s[i] as int <= 0xBF)
            && (s[0] as int == 0xF0 ==> s[1] as int >= 0x90) && (s[0] as int == 0xF4 ==> s[1] as int <= 0x8F)
            && RuneOf(s) == code
  {
    var a, b := code / 0x40, code / 0x1000;
    assert code == a * 0x40 + code % 0x40;
    assert a == b * 0x40 + a % 0x40;
    assert b == code / 0x40000 * 0x40 + b % 0x40;
  }

  lemma LongRunes(code: int)
    requires 0x10000 <= code
    ensures RuneLength(Utf8(code)) == |Utf8(code)| > 0
    ensures RuneOf(Utf8(code)) == if code <= 0x10FFFF then code else 0xFFFD
  {
    if code <= 0x10FFFF {
      FourBytes(code);
      hide Utf8, RuneOf;
      var s := Utf8(code);
      assert forall i :: 1 <= i < 4 ==> IsContinuation(s, i);
    }
  }

  /** A code point is printed as the one UTF-8 sequence that stands for it; what is none is replaced. */
  lemma RunesArePrinted(code: int)
    ensures RuneLength(Utf8(code)) == |Utf8(code)| > 0
    ensures RuneOf(Utf8(code)) == if 0 <= code < 0xD800 || 0xE000 <= code <= 0x10FFFF then code else 0xFFFD
  {
    hide RuneLength, RuneOf, Utf8;
    if code < 0x800 {
      ShortRunes(code);
    } else if code < 0x10000 {
      MiddleRunes(code);
    } else {
      LongRunes(code);
    }
  }

  // ---------- texts in JSON ----------

  predicate IsContinuation(s: string, i: nat) {
    i < |s| && 0x80 as char <= s[i] <= 0xBF as char
  }

  predicate Between(s: string, i: nat, low: int, high: int)
    requires 0 <= low < 256 && 0 <= high < 256
  {
    i < |s| && low as char <= s[i] <= high as char
  }

  /** The length of the UTF-8 sequence that a text begins with, or 0 if it begins with none. */
  function RuneLength(s: string): (n: nat)
    ensures n <= |s| && n <= 4
  {
    if s == "" then 0
    else if s[0] < 0x80 as char then 1
    else if Between(s, 0, 0xC2, 0xDF) then (if IsContinuation(s, 1) then 2 else 0)
    else if Between(s, 0, 0xE0, 0xEF) then
      if Between(s, 1, if s[0] == 0xE0 as char then 0xA0 else 0x80, if s[0] == 0xED as char then 0x9F else 0xBF)
         && IsContinuation(s, 2) then 3 else 0
    else if Between(s, 0, 0xF0, 0xF4) then
      if Between(s, 1, if s[0] == 0xF0 as char then 0x90 else 0x80, if s[0] == 0xF4 as char then 0x8F else 0xBF)
         && IsContinuation(s, 2) && IsContinuation(s, 3) then 4 else 0
    else 0
  }

  /** The text is UTF-8. */
  predicate ValidText(s: string) {
    s == "" || (RuneLength(s) > 0 && ValidText(s[RuneLength(s)..]))
  }

  /** What JSON writes of a text: a byte that begins no sequence is replaced. */
  function Sanitized(s: string): string {
    if s == "" then ""
    else if RuneLength(s) == 0 then REPLACEMENT + Sanitized(s[1..])
    else s[..RuneLength(s)] + Sanitized(s[RuneLength(s)..])
  }

  /** Writing keeps exactly the texts that are UTF-8; any other becomes longer. */
  lemma {:induction false} SanitizedExactly(s: string)
    ensures |Sanitized(s)| >= |s|
    ensures if ValidText(s) then Sanitized(s) == s else |Sanitized(s)| > |s|
  {
    if s == "" {
      assert Sanitized(s) == s;
    } else if RuneLength(s) == 0 {
      SanitizedExactly(s[1..]);
    } else {
      SanitizedExactly(s[RuneLength(s)..]);
      assert s == s[..RuneLength(s)] + s[RuneLength(s)..];
    }
  }

  // ---------- values in JSON ----------

  predicate IsFinite(value: Floating) {
    value != Shown("NaN") && value != Shown("+Inf") && value != Shown("-Inf")
  }

  /** Exactly the floats are finite that are not printed as one of these. */
  lemma FiniteExactly(value: Floating)
    ensures IsFinite(value) <==> FloatText(value) !in {"NaN", "+Inf", "-Inf"}
  {
    if value.Whole? {
      var digits := Digits(if value.number < 0 then -value.number else value.number);
      var text, at := FloatText(value), if value.number < 0 then 1 else 0;
      assert text[at] == digits[0] && IsDigit(digits[0]);
      assert !IsDigit("NaN"[0]) && !IsDigit("+Inf"[0]) && !IsDigit("-Inf"[0]) && !IsDigit("-Inf"[1]) && !IsDigit("NaN"[1]) && !IsDigit("+Inf"[1]);
    }
  }

  predicate CanBeWritten(f: Field) {
    f.Float? || f.Float32? ==> IsFinite(f.value)
  }

  /** Whether JSON can write the data. */
  predicate Encodable(data: ModelData) {
    forall k <- data.Keys :: CanBeWritten(data[k])
  }

  /** A value that was written as JSON and read into a free field. */
  function ReadBack(f: Field): Field {
    match f
    case Nil => Nil
    case Flag(_) => f
    case Text(text) => Text(Sanitized(text))
    case Number(number, _) => Float(Whole(number))
    case Float(_) => f
    case Float32(value) => Float(value)
    case Rune(code) => Float(Whole(code))
    case Time(_, written) => Text(written)
    case Texts(_) => Json(f)
    case Json(_) => f
    case Other(_) => Json(f)
  }

  /** What each value comes back as. */
  lemma ReadBackAs(f: Field)
    ensures f.Number? ==> ReadBack(f) == Float(Whole(f.number))
    ensures f.Rune? ==> ReadBack(f) == Float(Whole(f.code))
    ensures f.Float32? ==> ReadBack(f) == Float(f.value)
    ensures f.Time? ==> ReadBack(f) == Text(f.written)
    ensures f.Texts? || f.Other? ==> ReadBack(f) == Json(f)
    ensures f.Text? ==> ReadBack(f) == Text(Sanitized(f.text))
    ensures f.Nil? || f.Flag? || f.Float? || f.Json? ==> ReadBack(f) == f
  {
  }

  lemma {:induction false} ValidBehind(a: string, b: string)
    requires RuneLength(a) == |a| > 0 && ValidText(b)
    ensures ValidText(a + b)
  {
    assert RuneLength(a + b) == |a|;
    assert (a + b)[|a|..] == b;
  }

  lemma {:induction false} SanitizedIsValid(s: string)
    ensures ValidText(Sanitized(s))
  {
    if s == "" {
      assert Sanitized(s) == "";
    } else if RuneLength(s) == 0 {
      SanitizedIsValid(s[1..]);
      ValidBehind(REPLACEMENT, Sanitized(s[1..]));
    } else {
      var n := RuneLength(s);
      SanitizedIsValid(s[n..]);
      assert RuneLength(s[..n]) == n;
      ValidBehind(s[..n], Sanitized(s[n..]));
    }
  }

  /** What came back once comes back as it is. */
  lemma ReadBackTwice(f: Field)
    requires f.Time? ==> ValidText(f.written)
    ensures ReadBack(ReadBack(f)) == ReadBack(f)
  {
    ComesBackExactly(ReadBack(f));
    if f.Text? {
      SanitizedIsValid(f.text);
    }
  }

  /** The values that come back as they were. */
  predicate ComesBack(f: Field) {
    f.Nil? || f.Flag? || f.Float? || f.Json? || (f.Text? && ValidText(f.text))
  }

  lemma ComesBackExactly(f: Field)
    ensures ReadBack(f) == f <==> ComesBack(f)
  {
    if f.Text? {
      SanitizedExactly(f.text);
    }
  }

  function DataBack(data: ModelData): (r: ModelData)
    ensures r.Keys == data.Keys
  {
    map k | k in data :: ReadBack(data[k])
  }

  lemma DataBackExactly(data: ModelData)
    ensures DataBack(data) == data <==> forall k <- data.Keys :: ComesBack(data[k])
  {
    forall k | k in data ensures ReadBack(data[k]) == data[k] <==> ComesBack(data[k]) {
      ComesBackExactly(data[k]);
    }
    if DataBack(data) == data {
      forall k | k in data ensures ComesBack(data[k]) {
        assert DataBack(data)[k] == ReadBack(data[k]);
      }
    }
  }

  /** Two lists of one type cannot be compared; doing it panics. */
  predicate CanCompare(a: Field, b: Field) {
    !(a.Json? && b.Json?) && !(a.Texts? && b.Texts?)
  }

  /** Comparing the data panics in no order of their fields. */
  ghost predicate Comparable(a: ModelData, b: ModelData) {
    |a| == |b| ==> forall k <- a.Keys :: k in b ==> CanCompare(a[k], b[k])
  }

  /** Whether two data maps have as many fields, and the one has the fields of the other with the same values. */
  method DataEquals(a: ModelData, b: ModelData) returns (equal: bool)
    requires Comparable(a, b)
    ensures equal <==> a == b
  {
    if |a| != |b| {
      return false;
    }
    var left := a.Keys;
    while left != {}
      invariant left <= a.Keys
      invariant forall k <- a.Keys - left :: k in b && a[k] == b[k]
      decreases left
    {
      var k :| k in left;
      if k !in b {
        return false;
      }
      assert CanCompare(a[k], b[k]);
      if a[k] != b[k] {
        return false;
      }
      left := left - {k};
    }
    SameSize(a, b);
    return true;
  }

  lemma SameSize(a: ModelData, b: ModelData)
    requires |a| == |b| && forall k <- a.Keys :: k in b && a[k] == b[k]
    ensures a == b
  {
    assert a.Keys <= b.Keys;
    assert |b.Keys - a.Keys| == |b.Keys| - |a.Keys|;
    assert a.Keys == b.Keys;
  }
}
