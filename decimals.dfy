/** The part of Python's decimal module the price update uses: Decimal(text) for finite
    values, addition in the default context (28 significant digits, half-even rounding)
    and str(). */
module Decimals {
  import opened Common
  import opened Text
  import opened Numbers

  /** A finite decimal number: coefficient × 10^exponent. */
  datatype Decimal = Decimal(coefficient: int, exponent: int)

  /** The default context's precision. */
  const Precision: nat := 28

  // ---------------------------------------------------------------- value

  /** 10^e as a real number, for any integer e. */
  ghost function Scale(e: int): real
    decreases if e >= 0 then e else -e
  {
    if e == 0 then 1.0
    else if e > 0 then 10.0 * Scale(e - 1)
    else Scale(e + 1) / 10.0
  }

  /** The number a decimal stands for. */
  ghost function Value(d: Decimal): real
  {
    d.coefficient as real * Scale(d.exponent)
  }

  lemma ScaleStep(m: int)
    ensures Scale(m + 1) == 10.0 * Scale(m)
  {
  }

  lemma {:induction false} ScaleShift(m: int, k: nat)
    ensures Scale(m + k) == Scale(m) * Pow10(k) as real
  {
    if k > 0 {
      ScaleShift(m, k - 1);
      ScaleStep(m + k - 1);
      assert Pow10(k) as real == 10.0 * Pow10(k - 1) as real;
    }
  }

  /** The same number written with a smaller exponent e. */
  function Rescale(d: Decimal, e: int): (r: Decimal)
    requires e <= d.exponent
    ensures r.exponent == e
  {
    Decimal(d.coefficient * Pow10(d.exponent - e), e)
  }

  /** Rescaling keeps the number. */
  lemma RescaleKeepsValue(d: Decimal, e: int)
    requires e <= d.exponent
    ensures Value(Rescale(d, e)) == Value(d)
  {
    var k := d.exponent - e;
    ScaleShift(e, k);
    RescaleValue(d.coefficient, Pow10(k), Scale(e));
  }

  lemma RescaleValue(c: int, p: nat, x: real)
    ensures (c * p) as real * x == c as real * (x * p as real)
  {
  }

  lemma SumValue(x: int, y: int, z: real)
    ensures (x + y) as real * z == x as real * z + y as real * z
  {
  }

  /** The exact sum, at the smaller of the two exponents. */
  function ExactSum(a: Decimal, b: Decimal): (r: Decimal)
    ensures r.exponent == if a.exponent <= b.exponent then a.exponent else b.exponent
  {
    var e := if a.exponent <= b.exponent then a.exponent else b.exponent;
    Decimal(Rescale(a, e).coefficient + Rescale(b, e).coefficient, e)
  }

  /** The exact sum stands for the sum of the two numbers. */
  lemma ExactSumValue(a: Decimal, b: Decimal)
    ensures Value(ExactSum(a, b)) == Value(a) + Value(b)
  {
    var e := ExactSum(a, b).exponent;
    RescaleKeepsValue(a, e);
    RescaleKeepsValue(b, e);
    SumValue(Rescale(a, e).coefficient, Rescale(b, e).coefficient, Scale(e));
  }

  // ---------------------------------------------------------------- rounding

  /** The number of digits str() writes for a coefficient. */
  function NumDigits(n: nat): nat
  {
    |NatToString(n)|
  }

  lemma {:induction false} NumDigitsBound(n: nat)
    ensures n < Pow10(NumDigits(n))
    ensures n > 0 ==> Pow10(NumDigits(n) - 1) <= n
  {
    if n >= 10 {
      NumDigitsBound(n / 10);
      assert NumDigits(n) == NumDigits(n / 10) + 1;
    }
  }

  /** n / p rounded to the nearest whole number, ties to the even neighbour. */
  function RoundHalfEven(n: nat, p: nat): (q: nat)
    requires p > 0
    ensures 2 * (q * p - n) <= p && 2 * (n - q * p) <= p
    ensures 2 * (n % p) == p ==> q % 2 == 0
    ensures q <= n / p + 1
  {
    var q0, r := n / p, n % p;
    if 2 * r < p then q0
    else if 2 * r > p then q0 + 1
    else if q0 % 2 == 0 then q0
    else q0 + 1
  }

  /** Rounding to the context's precision, as every arithmetic result is: a coefficient of
      more than 28 digits loses its last digits, rounded half-even, and the exponent grows
      by as many. */
  function Round(d: Decimal): (r: Decimal)
    ensures NumDigits(Abs(r.coefficient)) <= Precision
    ensures NumDigits(Abs(d.coefficient)) <= Precision ==> r == d
    ensures r.exponent >= d.exponent
  {
    var n := Abs(d.coefficient);
    if NumDigits(n) <= Precision then d
    else
      var k: nat := NumDigits(n) - Precision;
      var (q, k') := RoundDigits(n, k);
      Decimal(if d.coefficient < 0 then -(q as int) else q, d.exponent + k')
  }

  /** 10^28, the least coefficient with more digits than the precision. */
  const Top: nat := 10000000000000000000000000000

  lemma TopPower()
    ensures Pow10(Precision) == Top && Pow10(Precision - 1) * 10 == Top
  {
    assert Pow10(7) == 10000000;
    Pow10Add(7, 7);
    Pow10Add(14, 14);
    assert Pow10(28) == 10 * Pow10(27);
  }

  /** A coefficient below 10^28 fits the precision. */
  lemma BelowTop(n: nat)
    requires n < Top
    ensures NumDigits(n) <= Precision
  {
    TopPower();
    DigitsBelow(n, Precision);
  }

  /** Drops the last k of n's digits, rounding half-even; a carry into a 29th digit drops
      one digit more. */
  function RoundDigits(n: nat, k: nat): (r: (nat, nat))
    requires NumDigits(n) == Precision + k
    ensures NumDigits(r.0) <= Precision && r.1 >= k
  {
    var q := RoundHalfEven(n, Pow10(k));
    RoundedBelow(n, k);
    if q == Top then
      BelowTop(Top / 10);
      (Top / 10, k + 1)
    else
      BelowTop(q);
      (q, k)
  }

  lemma RoundedBelow(n: nat, k: nat)
    requires NumDigits(n) == Precision + k
    ensures RoundHalfEven(n, Pow10(k)) <= Top
  {
    NumDigitsBound(n);
    Pow10Add(Precision, k);
    TopPower();
    QuotientBound(n, Pow10(k), Top);
  }

  lemma QuotientBound(n: nat, p: nat, m: nat)
    requires p > 0 && n < m * p
    ensures n / p < m
  {
  }

  lemma {:induction false} DigitsBelow(n: nat, m: nat)
    requires n < Pow10(m) && m > 0
    ensures NumDigits(n) <= m
  {
    if n >= 10 {
      assert m > 0;
      assert n / 10 < Pow10(m - 1);
      DigitsBelow(n / 10, m - 1);
      assert NumDigits(n) == NumDigits(n / 10) + 1;
    }
  }

  /** Decimal addition in the default context: the exact sum, rounded. */
  function Add(a: Decimal, b: Decimal): (r: Decimal)
    ensures NumDigits(Abs(r.coefficient)) <= Precision
  {
    Round(ExactSum(a, b))
  }

  /** When the exact sum fits in 28 digits, the sum is exact. */
  lemma AddExact(a: Decimal, b: Decimal)
    requires NumDigits(Abs(ExactSum(a, b).coefficient)) <= Precision
    ensures Value(Add(a, b)) == Value(a) + Value(b)
    ensures Add(a, b).exponent == if a.exponent <= b.exponent then a.exponent else b.exponent
  {
    ExactSumValue(a, b);
  }

  // ---------------------------------------------------------------- Decimal(text)

  predicate IsExponentMark(c: char)
  {
    c == 'e' || c == 'E'
  }

  /** The index of the first exponent mark, or -1. */
  function FirstMark(s: string): (i: int)
    ensures -1 <= i < |s|
    ensures i == -1 <==> forall k :: 0 <= k < |s| ==> !IsExponentMark(s[k])
    ensures 0 <= i ==> IsExponentMark(s[i]) && forall k :: 0 <= k < i ==> !IsExponentMark(s[k])
  {
    if |s| == 0 then -1
    else if IsExponentMark(s[0]) then 0
    else
      var j := FirstMark(s[1..]);
      if j == -1 then -1 else j + 1
  }

  /** An exponent: an optional sign and at least one digit. */
  function ParseExponent(t: string): (r: Option<int>)
    ensures r.Some? <==> IsDigits(t) || (|t| > 0 && (t[0] == '+' || t[0] == '-') && IsDigits(t[1..]))
  {
    if |t| > 0 && (t[0] == '+' || t[0] == '-') then
      if IsDigits(t[1..]) then
        Some(if t[0] == '-' then -(DigitsValue(t[1..]) as int) else DigitsValue(t[1..]))
      else None
    else if IsDigits(t) then Some(DigitsValue(t))
    else None
  }

  /** A mantissa: digits, optionally a point and more digits, at least one digit in all.
      Gives the digits read as one number and the count of digits after the point. */
  function ParseMantissa(m: string): (r: Option<(nat, nat)>)
  {
    var i := IndexOf(m, '.');
    var intPart := if i < 0 then m else m[..i];
    var fraction := if i < 0 then "" else m[i + 1..];
    if AllDigits(intPart) && AllDigits(fraction) && |intPart| + |fraction| > 0 then
      DigitsAppend(intPart, fraction);
      Some((DigitsValue(intPart + fraction), |fraction|))
    else None
  }

  /** The number a mantissa and an exponent make together. */
  function Combine(digits: Option<(nat, nat)>, exponent: Option<int>): (r: Option<Decimal>)
    ensures r.Some? <==> digits.Some? && exponent.Some?
    ensures r.Some? ==> r.value.coefficient >= 0
  {
    if digits.None? || exponent.None? then None
    else Some(Decimal(digits.value.0, exponent.value - digits.value.1))
  }

  /** An unsigned number: a mantissa, then optionally 'e' or 'E' and an exponent. */
  function ParseUnsigned(body: string): (r: Option<Decimal>)
    ensures r.Some? ==> r.value.coefficient >= 0
  {
    var j := FirstMark(body);
    if j < 0 then Combine(ParseMantissa(body), Some(0))
    else Combine(ParseMantissa(body[..j]), ParseExponent(body[j + 1..]))
  }

  /** Decimal(s) for a finite value: an optional sign before an unsigned number.
      None where Python raises InvalidOperation. */
  function Parse(s: string): (r: Option<Decimal>)
    ensures r.Some? ==> |s| > 0
  {
    if |s| > 0 && s[0] == '-' then
      var u := ParseUnsigned(s[1..]);
      if u.None? then None else Some(Decimal(-u.value.coefficient, u.value.exponent))
    else if |s| > 0 && s[0] == '+' then ParseUnsigned(s[1..])
    else ParseUnsigned(s)
  }

  // ---------------------------------------------------------------- str(Decimal)

  /** str(d): plain notation when the exponent is not positive and the number is not
      below 10^-6; otherwise one digit, the rest after a point, and an exponent. */
  function Format(d: Decimal): string
  {
    (if d.coefficient < 0 then "-" else "") + FormatDigits(NatToString(Abs(d.coefficient)), d.exponent)
  }

  /** The unsigned text of the coefficient's digits at exponent e. */
  function FormatDigits(digits: string, e: int): (t: string)
    requires |digits| > 0
  {
    var left := e + |digits|;
    if e <= 0 && left > -6 then
      if left <= 0 then "0." + (Zeros(-left) + digits)
      else if e == 0 then digits
      else digits[..left] + "." + digits[left..]
    else Scientific(digits, left - 1)
  }

  /** One digit, the others after a point, and the exponent x after 'E'. */
  function Scientific(digits: string, x: int): string
    requires |digits| > 0
  {
    FirstDigit(digits) + "E" + SignedString(x)
  }

  /** The coefficient with a point after its first digit; no point when it has one digit. */
  function FirstDigit(digits: string): string
    requires |digits| > 0
  {
    if |digits| > 1 then digits[..1] + "." + digits[1..] else digits
  }

  // ---------------------------------------------------------------- round trip

  /** Decimal(str(d)) == d: the text str() writes reads back as the same coefficient and
      exponent. */
  lemma ParseFormat(d: Decimal)
    ensures Parse(Format(d)) == Some(d)
  {
    var n := Abs(d.coefficient);
    var digits := NatToString(n);
    NatToStringValue(n);
    var t := FormatDigits(digits, d.exponent);
    ParseDigits(digits, d.exponent);
    SignedParse(t, Decimal(n, d.exponent));
    if d.coefficient < 0 {
      assert Format(d) == "-" + t;
    } else {
      assert Format(d) == t;
    }
  }

  /** An unsigned text that starts with a digit reads the same on its own, and negated
      after a minus sign. */
  lemma SignedParse(t: string, u: Decimal)
    requires |t| > 0 && IsDigit(t[0]) && ParseUnsigned(t) == Some(u)
    ensures Parse(t) == Some(u)
    ensures Parse("-" + t) == Some(Decimal(-u.coefficient, u.exponent))
  {
    assert ("-" + t)[1..] == t;
  }

  /** The unsigned text reads back as the digits' value at the same exponent. */
  lemma ParseDigits(digits: string, e: int)
    requires IsDigits(digits)
    ensures var t := FormatDigits(digits, e); |t| > 0 && IsDigit(t[0])
    ensures ParseUnsigned(FormatDigits(digits, e)) == Some(Decimal(DigitsValue(digits), e))
  {
    var n := |digits|;
    var left := e + n;
    if e <= 0 && left > -6 {
      if left <= 0 {
        ParseSmall(digits, e);
      } else if e == 0 {
        MantissaWhole(digits);
        UnsignedWithout(digits, DigitsValue(digits), 0);
      } else {
        ParseFraction(digits, e);
      }
    } else {
      ParseScientific(digits, e);
    }
  }

  lemma ParseSmall(digits: string, e: int)
    requires IsDigits(digits) && -6 < e + |digits| <= 0
    ensures var t := FormatDigits(digits, e); |t| > 0 && IsDigit(t[0])
    ensures ParseUnsigned(FormatDigits(digits, e)) == Some(Decimal(DigitsValue(digits), e))
  {
    var k: nat := -(e + |digits|);
    var t := FormatDigits(digits, e);
    SmallText(digits, e, k, t);
    SmallUnsigned(digits, k, e, t);
  }

  /** "0.", k zeros and the digits: the digits' value, with as many places as follow the
      point. */
  lemma SmallUnsigned(digits: string, k: nat, e: int, m: string)
    requires IsDigits(digits) && e == -(k + |digits|) && m == "0" + "." + (Zeros(k) + digits)
    ensures |m| > 0 && IsDigit(m[0])
    ensures ParseUnsigned(m) == Some(Decimal(DigitsValue(digits), e))
  {
    var w := Zeros(k) + digits;
    LeadingZeros(k, digits);
    LeadingZero(w);
    UnsignedPoint("0", w, DigitsValue(digits), e);
  }

  /** Below 1 and not below 10^-6: "0.", the zeros after the point, then the digits. */
  lemma SmallText(digits: string, e: int, k: nat, t: string)
    requires |digits| > 0 && -6 < e + |digits| <= 0 && k == -(e + |digits|)
    requires t == FormatDigits(digits, e)
    ensures t == "0" + "." + (Zeros(k) + digits)
  {
    assert "0." + (Zeros(k) + digits) == "0" + "." + (Zeros(k) + digits);
  }

  lemma LeadingZero(w: string)
    requires AllDigits(w)
    ensures AllDigits("0" + w) && DigitsValue("0" + w) == DigitsValue(w)
  {
    DigitsValueAppend("0", w);
    assert DigitsValue("0") == 0;
  }

  /** Digits, a point and digits, starting with a digit: the digits read together, with as
      many places as follow the point. */
  lemma UnsignedPoint(a: string, b: string, c: nat, x: int)
    requires AllDigits(a) && AllDigits(b) && |a| > 0 && AllDigits(a + b)
    requires c == DigitsValue(a + b) && x == -|b|
    ensures var m := a + "." + b;
      && |m| > 0 && IsDigit(m[0])
      && ParseUnsigned(m) == Some(Decimal(c, x))
  {
    var m := a + "." + b;
    MantissaPoint(a, b);
    PointText(a, b);
    assert m[0] == a[0];
    UnsignedWithout(m, c, |b|);
  }

  lemma ParseFraction(digits: string, e: int)
    requires IsDigits(digits) && e < 0 < e + |digits|
    ensures var t := FormatDigits(digits, e); |t| > 0 && IsDigit(t[0])
    ensures ParseUnsigned(FormatDigits(digits, e)) == Some(Decimal(DigitsValue(digits), e))
  {
    var left := e + |digits|;
    var a, b := digits[..left], digits[left..];
    assert a + b == digits;
    UnsignedPoint(a, b, DigitsValue(digits), e);
    assert FormatDigits(digits, e) == a + "." + b;
  }

  lemma ParseScientific(digits: string, e: int)
    requires IsDigits(digits) && (e > 0 || e + |digits| <= -6)
    ensures var t := FormatDigits(digits, e); |t| > 0 && IsDigit(t[0])
    ensures ParseUnsigned(FormatDigits(digits, e)) == Some(Decimal(DigitsValue(digits), e))
  {
    var n := |digits|;
    var t := FormatDigits(digits, e);
    assert t == FirstDigit(digits) + "E" + SignedString(e + n - 1);
    FirstDigitMantissa(digits);
    UnsignedWith(FirstDigit(digits), DigitsValue(digits), n - 1, e + n - 1, t);
  }

  lemma FirstDigitMantissa(digits: string)
    requires IsDigits(digits)
    ensures var m := FirstDigit(digits);
      && |m| > 0 && IsDigit(m[0]) && ParseMantissa(m) == Some((DigitsValue(digits), |digits| - 1))
      && MantissaText(m)
  {
    if |digits| > 1 {
      assert digits[..1] + digits[1..] == digits;
      MantissaPoint(digits[..1], digits[1..]);
      PointText(digits[..1], digits[1..]);
    } else {
      MantissaWhole(digits);
    }
  }

  /** Every character a point or a digit. */
  predicate MantissaText(m: string)
  {
    forall k :: 0 <= k < |m| ==> m[k] == '.' || IsDigit(m[k])
  }

  /** Digits, a point and digits: every character a point or a digit. */
  lemma PointText(a: string, b: string)
    requires AllDigits(a) && AllDigits(b)
    ensures MantissaText(a + "." + b)
  {
    var m := a + "." + b;
    forall k | 0 <= k < |m| ensures m[k] == '.' || IsDigit(m[k]) {
      if k < |a| {
        assert m[k] == a[k];
      } else if k > |a| {
        assert m[k] == b[k - |a| - 1];
      }
    }
  }

  /** A mantissa without a point: its digits and no fraction. */
  lemma MantissaWhole(m: string)
    requires IsDigits(m)
    ensures ParseMantissa(m) == Some((DigitsValue(m), 0))
  {
    assert forall k :: 0 <= k < |m| ==> m[k] != '.';
    assert '.' !in m;
    assert m + "" == m;
  }

  /** A mantissa with a point: the digits on both sides read together, and the count of
      those after the point. */
  lemma MantissaPoint(intPart: string, fraction: string)
    requires AllDigits(intPart) && AllDigits(fraction) && |intPart| + |fraction| > 0
    ensures AllDigits(intPart + fraction)
    ensures ParseMantissa(intPart + "." + fraction) == Some((DigitsValue(intPart + fraction), |fraction|))
  {
    DigitsValueAppend(intPart, fraction);
    var m := intPart + "." + fraction;
    var i := IndexOf(m, '.');
    assert m[|intPart|] == '.';
    assert forall k :: 0 <= k < |intPart| ==> m[k] == intPart[k] && m[k] != '.';
    assert i == |intPart|;
    assert m[..i] == intPart;
    assert m[i + 1..] == fraction;
  }

  /** The exponent str() writes reads back as the same number. */
  lemma ParseSignedString(x: int)
    ensures ParseExponent(SignedString(x)) == Some(x)
  {
    var t := SignedString(x);
    NatToStringValue(Abs(x));
    assert t[1..] == NatToString(Abs(x));
  }

  /** A text of digits and points, with no exponent, reads as its mantissa. */
  lemma UnsignedWithout(m: string, c: nat, fl: nat)
    requires |m| > 0 && IsDigit(m[0]) && ParseMantissa(m) == Some((c, fl))
    requires MantissaText(m)
    ensures ParseUnsigned(m) == Some(Decimal(c, -(fl as int)))
  {
    assert forall k :: 0 <= k < |m| ==> !IsExponentMark(m[k]);
    assert FirstMark(m) == -1;
  }

  /** A text of digits and points, then 'E' and an exponent str() wrote. */
  lemma UnsignedWith(m: string, c: nat, fl: nat, x: int, t: string)
    requires |m| > 0 && IsDigit(m[0]) && ParseMantissa(m) == Some((c, fl))
    requires MantissaText(m)
    requires t == m + "E" + SignedString(x)
    ensures |t| > 0 && IsDigit(t[0])
    ensures ParseUnsigned(t) == Some(Decimal(c, x - fl))
  {
    var rest := SignedString(x);
    MarkAfter(m, rest);
    ParseSignedString(x);
    assert ParseUnsigned(t) == Combine(Some((c, fl)), Some(x));
    CombineSome(c, fl, x);
  }

  /** The first exponent mark of a text of digits and points, 'E' and more is that 'E'. */
  lemma MarkAfter(m: string, rest: string)
    requires MantissaText(m)
    ensures var t := m + "E" + rest;
      && FirstMark(t) == |m| && t[..|m|] == m && t[|m| + 1..] == rest
      && (|m| > 0 ==> t[0] == m[0])
  {
    var t := m + "E" + rest;
    assert forall k :: 0 <= k < |m| ==> !IsExponentMark(t[k]);
    assert t[|m|] == 'E';
    assert t[..|m|] == m;
    assert t[|m| + 1..] == rest;
  }

  lemma CombineSome(c: nat, fl: nat, x: int)
    ensures Combine(Some((c, fl)), Some(x)) == Some(Decimal(c, x - fl))
  {
  }
}
