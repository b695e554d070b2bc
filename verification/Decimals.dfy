/** Python decimals as `stable_client_order_id` uses them: their normal form and
    their text, on exact (sign, coefficient, exponent) triples. The text can be read
    back, so it determines the triple. */
module Decimals {

  /** The value is (-1)^negative * coefficient * 10^exponent. */
  datatype Dec = Dec(negative: bool, coefficient: nat, exponent: int)

  function Pow10(n: nat): (p: nat)
    ensures p >= 1
  {
    if n == 0 then 1 else 10 * Pow10(n - 1)
  }

  lemma {:induction false} Pow10Adds(a: nat, b: nat)
    ensures Pow10(a + b) == Pow10(a) * Pow10(b)
  {
    if a > 0 { Pow10Adds(a - 1, b); }
  }

  // ----- Digits -----

  predicate IsDigit(c: char) {
    '0' <= c <= '9'
  }

  predicate AllDigits(s: string) {
    forall i :: 0 <= i < |s| ==> IsDigit(s[i])
  }

  function DigitOf(n: nat): (c: char)
    requires n < 10
    ensures IsDigit(c) && ValueOf(c) == n
  {
    '0' + n as char
  }

  function ValueOf(c: char): (n: nat)
    requires IsDigit(c)
    ensures n < 10
  {
    (c - '0') as nat
  }

  /** `str(n)` of a natural number. */
  function NatText(n: nat): (s: string)
    ensures AllDigits(s) && s != []
  {
    if n < 10 then [DigitOf(n)] else NatText(n / 10) + [DigitOf(n % 10)]
  }

  function ReadNat(s: string): nat
    requires AllDigits(s)
  {
    if s == [] then 0 else 10 * ReadNat(s[..|s| - 1]) + ValueOf(s[|s| - 1])
  }

  lemma {:induction false} ReadNatText(n: nat)
    ensures ReadNat(NatText(n)) == n
  {
    if n < 10 {
      assert NatText(n)[..0] == [];
    } else {
      ReadNatText(n / 10);
      assert NatText(n)[..|NatText(n)| - 1] == NatText(n / 10);
    }
  }

  function Zeros(n: nat): (s: string)
    ensures AllDigits(s) && |s| == n
  {
    seq(n, i => '0')
  }

  lemma {:induction false} LeadingZeros(n: nat, s: string)
    requires AllDigits(s)
    ensures AllDigits(Zeros(n) + s) && ReadNat(Zeros(n) + s) == ReadNat(s)
    decreases |s|, n
  {
    if s == [] {
      assert Zeros(n) + s == Zeros(n);
      if n > 0 {
        assert Zeros(n)[..n - 1] == Zeros(n - 1) + [];
        LeadingZeros(n - 1, []);
      }
    } else {
      LeadingZeros(n, s[..|s| - 1]);
      assert (Zeros(n) + s)[..|Zeros(n) + s| - 1] == Zeros(n) + s[..|s| - 1];
    }
  }

  // ----- Text -----

  /** `"%+d" % n`. */
  function SignedText(n: int): string {
    if n < 0 then "-" + NatText(-n) else "+" + NatText(n)
  }

  function ReadSigned(s: string): int
    requires s != [] && AllDigits(s[1..])
  {
    if s[0] == '-' then -(ReadNat(s[1..]) as int) else ReadNat(s[1..])
  }

  /** The digits of a coefficient around a decimal point, `dotPlace` digits from the left. */
  function Mantissa(digits: string, dotPlace: int): string
  {
    if dotPlace <= 0 then "0." + Zeros(-dotPlace) + digits
    else if dotPlace >= |digits| then digits + Zeros(dotPlace - |digits|)
    else digits[..dotPlace] + "." + digits[dotPlace..]
  }

  /** Where the point goes: plain notation for an exponent that is not positive and a number
      that does not start after the sixth decimal place, else scientific notation. */
  function DotPlace(exponent: int, leftDigits: int): int {
    if exponent <= 0 && leftDigits > -6 then leftDigits else 1
  }

  function ExponentText(shift: int): string {
    if shift == 0 then "" else "E" + SignedText(shift)
  }

  /** `str` of a decimal without its sign. */
  function UnsignedText(coefficient: nat, exponent: int): string {
    var digits := NatText(coefficient);
    var leftDigits := exponent + |digits|;
    var dotPlace := DotPlace(exponent, leftDigits);
    Mantissa(digits, dotPlace) + ExponentText(leftDigits - dotPlace)
  }

  /** `str(d)`. */
  function Text(d: Dec): string {
    (if d.negative then "-" else "") + UnsignedText(d.coefficient, d.exponent)
  }

  // ----- Reading the text back -----

  /** The part of `s` before the first `c`, and the part after it (empty if there is none). */
  function Before(s: string, c: char): (r: string)
    ensures c !in r && |r| <= |s|
  {
    if s == [] || s[0] == c then [] else [s[0]] + Before(s[1..], c)
  }

  function Behind(s: string, c: char): string {
    if s == [] then [] else if s[0] == c then s[1..] else Behind(s[1..], c)
  }

  lemma {:induction false} CutAt(a: string, c: char, b: string)
    requires c !in a
    ensures Before(a + [c] + b, c) == a && Behind(a + [c] + b, c) == b
  {
    var s := a + [c] + b;
    if a == [] {
      assert s[1..] == b;
    } else {
      assert s[1..] == a[1..] + [c] + b;
      CutAt(a[1..], c, b);
    }
  }

  lemma {:induction false} CutWhole(a: string, c: char)
    requires c !in a
    ensures Before(a, c) == a && Behind(a, c) == []
  {
    if a != [] { CutWhole(a[1..], c); }
  }

  /** The decimal that an unsigned text stands for, if it is well formed. */
  function ReadUnsigned(negative: bool, s: string): Dec {
    var mantissa := Before(s, 'E');
    var exponent := Behind(s, 'E');
    var whole := Before(mantissa, '.');
    var fraction := Behind(mantissa, '.');
    if AllDigits(whole + fraction) && (exponent == [] || AllDigits(exponent[1..])) then
      Dec(negative, ReadNat(whole + fraction),
          (if exponent == [] then 0 else ReadSigned(exponent)) - |fraction|)
    else
      Dec(negative, 0, 0)
  }

  function Read(s: string): Dec {
    if s != [] && s[0] == '-' then ReadUnsigned(true, s[1..]) else ReadUnsigned(false, s)
  }

  lemma DigitsAreNot(s: string, c: char)
    requires AllDigits(s) && !IsDigit(c)
    ensures c !in s
  {
  }

  /** The mantissa splits into digits whose number is the coefficient. */
  lemma ReadMantissa(digits: string, dotPlace: int)
    requires AllDigits(digits) && digits != [] && (dotPlace <= |digits|)
    ensures var m := Mantissa(digits, dotPlace);
      && 'E' !in m && m != [] && m[0] != '-'
      && AllDigits(Before(m, '.') + Behind(m, '.'))
      && ReadNat(Before(m, '.') + Behind(m, '.')) == ReadNat(digits)
      && |Behind(m, '.')| == |digits| - dotPlace
  {
    var m := Mantissa(digits, dotPlace);
    if dotPlace <= 0 {
      var rest := Zeros(-dotPlace) + digits;
      assert m == "0" + ['.'] + rest;
      CutAt("0", '.', rest);
      assert "0" + rest == Zeros(1 - dotPlace) + digits;
      LeadingZeros(1 - dotPlace, digits);
    } else if dotPlace == |digits| {
      assert m == digits;
      DigitsAreNot(digits, '.');
      CutWhole(m, '.');
      assert digits + [] == digits;
    } else {
      var a, b := digits[..dotPlace], digits[dotPlace..];
      assert m == a + ['.'] + b;
      DigitsAreNot(a, '.');
      CutAt(a, '.', b);
      assert a + b == digits;
    }
  }

  lemma ReadSignedText(n: int)
    ensures var s := SignedText(n); s != [] && AllDigits(s[1..]) && ReadSigned(s) == n
  {
    ReadNatText(if n < 0 then -n else n);
    assert SignedText(n)[1..] == NatText(if n < 0 then -n else n);
  }

  lemma CutExponent(m: string, shift: int)
    requires 'E' !in m
    ensures var s := m + ExponentText(shift);
      && Before(s, 'E') == m
      && Behind(s, 'E') == (if shift == 0 then [] else SignedText(shift))
  {
    if shift == 0 {
      assert m + "" == m;
      CutWhole(m, 'E');
    } else {
      assert m + ExponentText(shift) == m + ['E'] + SignedText(shift);
      CutAt(m, 'E', SignedText(shift));
    }
  }

  lemma ReadFromParts(negative: bool, s: string, m: string, shift: int, coefficient: nat, places: int)
    requires Before(s, 'E') == m && Behind(s, 'E') == (if shift == 0 then [] else SignedText(shift))
    requires AllDigits(Before(m, '.') + Behind(m, '.'))
    requires ReadNat(Before(m, '.') + Behind(m, '.')) == coefficient && |Behind(m, '.')| == places
    ensures ReadUnsigned(negative, s) == Dec(negative, coefficient, shift - places)
  {
    ReadSignedText(shift);
  }

  lemma ReadUnsignedText(negative: bool, coefficient: nat, exponent: int)
    ensures var s := UnsignedText(coefficient, exponent);
      s != [] && s[0] != '-' && ReadUnsigned(negative, s) == Dec(negative, coefficient, exponent)
  {
    var digits := NatText(coefficient);
    var leftDigits := exponent + |digits|;
    var dotPlace := DotPlace(exponent, leftDigits);
    var m := Mantissa(digits, dotPlace);
    ReadNatText(coefficient);
    ReadMantissa(digits, dotPlace);
    var shift := leftDigits - dotPlace;
    CutExponent(m, shift);
    ReadFromParts(negative, UnsignedText(coefficient, exponent), m, shift, coefficient, |digits| - dotPlace);
    assert (m + ExponentText(shift))[0] == m[0];
  }

  /** Reading the text of a decimal gives the decimal back: sign, coefficient and exponent. */
  lemma ReadText(d: Dec)
    ensures Read(Text(d)) == d
  {
    var s := UnsignedText(d.coefficient, d.exponent);
    ReadUnsignedText(d.negative, d.coefficient, d.exponent);
    if d.negative {
      assert ("-" + s)[1..] == s;
    } else {
      assert "" + s == s;
    }
  }

  /** Two decimals with the same text are the same triple. */
  lemma TextIsInjective(a: Dec, b: Dec)
    requires Text(a) == Text(b)
    ensures a == b
  {
    ReadText(a);
    ReadText(b);
  }

  /** The notation, by example: plain down to the sixth decimal place, else scientific. */
  lemma TextExamples()
    ensures Text(Dec(false, 123, -2)) == "1.23" && Text(Dec(true, 5, -3)) == "-0.005"
    ensures Text(Dec(false, 1, -6)) == "0.000001" && Text(Dec(false, 1, -7)) == "1E-7"
    ensures Text(Dec(false, 12, 3)) == "1.2E+4" && Text(Dec(false, 12, 0)) == "12"
  {
    DigitExamples();
    assert Zeros(0) == "" && Zeros(2) == "00" && Zeros(5) == "00000";
  }

  lemma DigitExamples()
    ensures NatText(1) == "1" && NatText(5) == "5" && NatText(3) == "3" && NatText(4) == "4" && NatText(7) == "7"
    ensures NatText(12) == "12" && NatText(123) == "123"
  {
  }

  /** The characters that a decimal's text is made of. */
  predicate IsNumeral(c: char) {
    IsDigit(c) || c in {'-', '+', '.', 'E'}
  }

  predicate AllNumeral(s: string) {
    forall i :: 0 <= i < |s| ==> IsNumeral(s[i])
  }

  lemma MantissaIsNumeral(digits: string, dotPlace: int)
    requires AllDigits(digits)
    ensures AllNumeral(Mantissa(digits, dotPlace))
  {
  }

  lemma ExponentIsNumeral(shift: int)
    ensures AllNumeral(ExponentText(shift))
  {
  }

  lemma BothNumeral(a: string, b: string)
    requires AllNumeral(a) && AllNumeral(b)
    ensures AllNumeral(a + b)
  {
  }

  lemma TextIsNumeral(d: Dec)
    ensures AllNumeral(Text(d))
  {
    var digits := NatText(d.coefficient);
    var leftDigits := d.exponent + |digits|;
    var dotPlace := DotPlace(d.exponent, leftDigits);
    MantissaIsNumeral(digits, dotPlace);
    ExponentIsNumeral(leftDigits - dotPlace);
    BothNumeral(Mantissa(digits, dotPlace), ExponentText(leftDigits - dotPlace));
    BothNumeral(if d.negative then "-" else "", UnsignedText(d.coefficient, d.exponent));
  }

  // ----- Values and the normal form -----

  /** Equal value: the coefficients agree on the smaller exponent. */
  predicate SameValue(a: Dec, b: Dec) {
    if a.coefficient == 0 || b.coefficient == 0 then a.coefficient == b.coefficient
    else
      && a.negative == b.negative
      && if a.exponent <= b.exponent
         then a.coefficient == b.coefficient * Pow10(b.exponent - a.exponent)
         else b.coefficient == a.coefficient * Pow10(a.exponent - b.exponent)
  }

  /** `d.normalize()` for a coefficient that fits the context's precision. */
  function Normalize(d: Dec): (r: Dec)
    decreases d.coefficient
  {
    if d.coefficient == 0 then Dec(d.negative, 0, 0)
    else if d.coefficient % 10 == 0 then Normalize(Dec(d.negative, d.coefficient / 10, d.exponent + 1))
    else d
  }

  predicate IsNormal(d: Dec) {
    if d.coefficient == 0 then d.exponent == 0 else d.coefficient % 10 != 0
  }

  lemma {:induction false} StripZero(d: Dec, r: Dec)
    requires d.coefficient > 0 && d.coefficient % 10 == 0
    requires SameValue(Dec(d.negative, d.coefficient / 10, d.exponent + 1), r)
    requires r.coefficient > 0 && r.exponent > d.exponent
    ensures SameValue(d, r)
  {
    var k := r.exponent - (d.exponent + 1);
    assert Pow10(k + 1) == 10 * Pow10(k);
    assert d.coefficient == 10 * (r.coefficient * Pow10(k));
  }

  /** Normalizing keeps the value and the sign and leaves no trailing zero. */
  lemma {:induction false} NormalizeKeepsValue(d: Dec)
    ensures IsNormal(Normalize(d)) && SameValue(d, Normalize(d))
    ensures Normalize(d).negative == d.negative
    ensures d.coefficient > 0 ==> Normalize(d).coefficient > 0 && Normalize(d).exponent >= d.exponent
    decreases d.coefficient
  {
    if d.coefficient > 0 && d.coefficient % 10 == 0 {
      var e := Dec(d.negative, d.coefficient / 10, d.exponent + 1);
      NormalizeKeepsValue(e);
      StripZero(d, Normalize(e));
    }
  }

  lemma MultipleOfTen(c: nat, n: nat)
    requires n > 0
    ensures (c * Pow10(n)) % 10 == 0
  {
    assert c * Pow10(n) == 10 * (c * Pow10(n - 1));
  }

  /** A nonzero value has one normal form. */
  lemma NormalFormIsUnique(a: Dec, b: Dec)
    requires IsNormal(a) && IsNormal(b) && a.coefficient > 0 && b.coefficient > 0
    requires SameValue(a, b)
    ensures a == b
  {
    if a.exponent < b.exponent { MultipleOfTen(b.coefficient, b.exponent - a.exponent); }
    if b.exponent < a.exponent { MultipleOfTen(a.coefficient, a.exponent - b.exponent); }
  }

  lemma SameValueIsSymmetric(a: Dec, b: Dec)
    requires SameValue(a, b)
    ensures SameValue(b, a)
  {
  }

  /** Scaling to a common exponent `m` below both decides equality of nonzero values. */
  lemma CommonExponent(a: Dec, b: Dec, m: int)
    requires a.coefficient > 0 && b.coefficient > 0 && m <= a.exponent && m <= b.exponent
    ensures SameValue(a, b) <==>
      a.negative == b.negative
      && a.coefficient * Pow10(a.exponent - m) == b.coefficient * Pow10(b.exponent - m)
  {
    var lo := if a.exponent <= b.exponent then a else b;
    var hi := if a.exponent <= b.exponent then b else a;
    var p, q := Pow10(lo.exponent - m), Pow10(hi.exponent - lo.exponent);
    Pow10Adds(hi.exponent - lo.exponent, lo.exponent - m);
    ThreeFactors(hi.coefficient, q, p);
    CancelFactor(lo.coefficient, hi.coefficient * q, p);
  }

  lemma ThreeFactors(x: int, y: int, z: int)
    ensures x * (y * z) == (x * y) * z
  {
  }

  lemma CancelFactor(x: int, y: int, p: int)
    requires p >= 1
    ensures x * p == y * p <==> x == y
  {
    if x < y { assert x * p < y * p; }
    if y < x { assert y * p < x * p; }
  }

  lemma SameValueIsTransitive(a: Dec, b: Dec, c: Dec)
    requires SameValue(a, b) && SameValue(b, c)
    ensures SameValue(a, c)
  {
    if a.coefficient > 0 && b.coefficient > 0 && c.coefficient > 0 {
      var m := if a.exponent <= b.exponent then a.exponent else b.exponent;
      m := if m <= c.exponent then m else c.exponent;
      CommonExponent(a, b, m);
      CommonExponent(b, c, m);
      CommonExponent(a, c, m);
    }
  }

  lemma ZeroNormalizes(a: Dec, b: Dec)
    requires a.coefficient == 0 || b.coefficient == 0
    ensures Normalize(a) == Normalize(b) <==> a.coefficient == b.coefficient && a.negative == b.negative
  {
    NormalizeKeepsValue(a);
    NormalizeKeepsValue(b);
  }

  lemma NonzeroNormalizes(a: Dec, b: Dec)
    requires a.coefficient > 0 && b.coefficient > 0
    ensures Normalize(a) == Normalize(b) <==> SameValue(a, b)
  {
    NormalizeKeepsValue(a);
    NormalizeKeepsValue(b);
    var x, y := Normalize(a), Normalize(b);
    if SameValue(a, b) {
      SameValueIsSymmetric(a, x);
      SameValueIsTransitive(x, a, b);
      SameValueIsTransitive(x, b, y);
      NormalFormIsUnique(x, y);
    }
    if x == y {
      SameValueIsSymmetric(b, y);
      SameValueIsTransitive(a, x, b);
    }
  }

  /** Two decimals have the same normalized text exactly when they are equal as numbers and
      have the same sign, which only two zeros can differ in. */
  lemma NormalTextIffSameValue(a: Dec, b: Dec)
    ensures Text(Normalize(a)) == Text(Normalize(b)) <==> SameValue(a, b) && a.negative == b.negative
    ensures Text(Normalize(a)) == Text(Normalize(b)) <==> Normalize(a) == Normalize(b)
  {
    if Text(Normalize(a)) == Text(Normalize(b)) { TextIsInjective(Normalize(a), Normalize(b)); }
    if a.coefficient > 0 && b.coefficient > 0 { NonzeroNormalizes(a, b); } else { ZeroNormalizes(a, b); }
  }

  /** Zero is the exception: its two signs have equal value and different text. */
  lemma ZerosDiffer()
    ensures SameValue(Dec(false, 0, 0), Dec(true, 0, 0))
    ensures Text(Normalize(Dec(false, 0, 0))) != Text(Normalize(Dec(true, 0, 0)))
  {
    if Text(Dec(false, 0, 0)) == Text(Dec(true, 0, 0)) {
      TextIsInjective(Dec(false, 0, 0), Dec(true, 0, 0));
    }
  }

  // ----- Decimals as numbers -----

  function TenTo(e: int): (r: real)
    ensures r > 0.0
    decreases if e >= 0 then e else -e
  {
    if e == 0 then 1.0 else if e > 0 then 10.0 * TenTo(e - 1) else TenTo(e + 1) / 10.0
  }

  function Signed(d: Dec): int {
    if d.negative then -(d.coefficient as int) else d.coefficient
  }

  function Multiple(n: int, t: real): real {
    n as real * t
  }

  function Value(d: Dec): real {
    Multiple(Signed(d), TenTo(d.exponent))
  }

  lemma TenToNext(e: int)
    ensures TenTo(e + 1) == 10.0 * TenTo(e)
  {
  }

  lemma SameFactor(a: int, b: int, t: real)
    requires t > 0.0
    ensures Multiple(a, t) == Multiple(b, t) <==> a == b
  {
    if a < b { assert a as real * t < b as real * t; }
    if b < a { assert b as real * t < a as real * t; }
  }

  lemma {:induction false} TenToScales(e: int, m: int)
    requires m <= e
    ensures TenTo(e) == Multiple(Pow10(e - m), TenTo(m))
    decreases e - m
  {
    if m < e {
      TenToScales(e - 1, m);
      TenToNext(e - 1);
      TenTimes(Pow10(e - 1 - m), Pow10(e - m), TenTo(m));
    }
  }

  lemma TenTimes(a: int, b: int, t: real)
    requires b == 10 * a
    ensures Multiple(b, t) == 10.0 * Multiple(a, t)
  {
    assert b as real == 10.0 * a as real;
  }

  /** `d` as a multiple of the unit 10^m. */
  function Units(d: Dec, m: int): int
    requires m <= d.exponent
  {
    Signed(d) * Pow10(d.exponent - m)
  }

  lemma Regroup(a: int, b: int, t: real)
    ensures Multiple(a, Multiple(b, t)) == Multiple(a * b, t)
  {
    assert (a * b) as real == a as real * b as real;
  }

  lemma ValueInUnits(d: Dec, m: int)
    requires m <= d.exponent
    ensures Value(d) == Multiple(Units(d, m), TenTo(m))
  {
    TenToScales(d.exponent, m);
    Regroup(Signed(d), Pow10(d.exponent - m), TenTo(m));
  }

  lemma UnitsDecide(a: Dec, b: Dec, m: int)
    requires m <= a.exponent && m <= b.exponent
    ensures SameValue(a, b) <==> Units(a, m) == Units(b, m)
  {
    SignOfUnits(a, m);
    SignOfUnits(b, m);
    if a.coefficient > 0 && b.coefficient > 0 { CommonExponent(a, b, m); }
  }

  lemma SignOfUnits(d: Dec, m: int)
    requires m <= d.exponent
    ensures var u := d.coefficient * Pow10(d.exponent - m);
      u >= 0 && (u == 0 <==> d.coefficient == 0) && Units(d, m) == if d.negative then -u else u
  {
    SignOfProduct(d.coefficient, Pow10(d.exponent - m));
    NegatedProduct(d.coefficient, Pow10(d.exponent - m));
  }

  lemma SignOfProduct(c: nat, p: int)
    requires p >= 1
    ensures c * p >= 0 && (c * p == 0 <==> c == 0)
  {
    if c > 0 { assert c * p >= 1 * p; }
  }

  lemma NegatedProduct(c: int, p: int)
    ensures (-c) * p == -(c * p)
  {
  }

  /** Equal value is equality as numbers. */
  lemma SameValueMeans(a: Dec, b: Dec)
    ensures SameValue(a, b) <==> Value(a) == Value(b)
  {
    var m := if a.exponent <= b.exponent then a.exponent else b.exponent;
    UnitsDecide(a, b, m);
    ValueInUnits(a, m);
    ValueInUnits(b, m);
    SameFactor(Units(a, m), Units(b, m), TenTo(m));
  }

  /** The number has a finite decimal expansion. */
  ghost predicate IsDecimal(x: real) {
    exists d :: Value(d) == x
  }

  lemma OfUnits(n: int, m: int)
    ensures IsDecimal(Multiple(n, TenTo(m)))
  {
    var d := Dec(n < 0, if n < 0 then -n else n, m);
    assert Signed(d) == n;
    assert Value(d) == Multiple(n, TenTo(m));
  }

  lemma Subtracted(a: int, b: int, t: real)
    ensures Multiple(a, t) - Multiple(b, t) == Multiple(a - b, t)
  {
    assert (a - b) as real == a as real - b as real;
  }

  /** Differences of decimals are decimals. */
  lemma DifferenceIsDecimal(x: real, y: real)
    requires IsDecimal(x) && IsDecimal(y)
    ensures IsDecimal(x - y)
  {
    var a :| Value(a) == x;
    var b :| Value(b) == y;
    var m := if a.exponent <= b.exponent then a.exponent else b.exponent;
    ValueInUnits(a, m);
    ValueInUnits(b, m);
    Subtracted(Units(a, m), Units(b, m), TenTo(m));
    OfUnits(Units(a, m) - Units(b, m), m);
  }

  /** `spelling` gives every decimal number as a decimal of that value. */
  ghost predicate Spells(spelling: real -> Dec) {
    forall x | IsDecimal(x) :: Value(spelling(x)) == x
  }
}
