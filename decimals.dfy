/** java.math.BigDecimal as far as the gateway uses it: a value and its canonical string. */
module Decimals {

  /** The number unscaled * 10^(-scale). */
  datatype Decimal = Decimal(unscaled: int, scale: int)

  /** BigDecimal.ZERO: unscaled value 0 at scale 0. */
  const Zero: Decimal := Decimal(0, 0)

  predicate IsDigit(c: char) {
    '0' <= c <= '9'
  }

  predicate AllDigits(s: string) {
    forall i :: 0 <= i < |s| ==> IsDigit(s[i])
  }

  function DigitValue(c: char): nat
    requires IsDigit(c)
  {
    c as int - '0' as int
  }

  function DigitChar(d: nat): (c: char)
    requires d < 10
    ensures IsDigit(c) && DigitValue(c) == d
  {
    ('0' as int + d) as char
  }

  /** The value of a string of decimal digits, most significant first. */
  function ValueOf(s: string): nat
    requires AllDigits(s)
  {
    if s == [] then 0 else 10 * ValueOf(s[..|s| - 1]) + DigitValue(s[|s| - 1])
  }

  /** BigInteger.toString of a non-negative value: its digits without leading zeros. */
  function Digits(n: nat): (s: string)
    ensures 1 <= |s| && AllDigits(s)
    ensures n > 0 ==> s[0] != '0'
  {
    if n < 10 then [DigitChar(n)] else Digits(n / 10) + [DigitChar(n % 10)]
  }

  /** Long.toString: an optional minus sign, then the digits. */
  function IntString(x: int): string {
    if x < 0 then "-" + Digits(-x) else Digits(x)
  }

  function Zeros(k: nat): (s: string)
    ensures |s| == k && forall i :: 0 <= i < k ==> s[i] == '0'
  {
    if k == 0 then "" else Zeros(k - 1) + "0"
  }

  function Magnitude(d: Decimal): nat {
    if d.unscaled < 0 then -d.unscaled else d.unscaled
  }

  /** The exponent of the value when it is written with one digit before the point. */
  function Adjusted(d: Decimal): int {
    -d.scale + (|Digits(Magnitude(d))| - 1)
  }

  /** The digits with the point placed `scale` digits from the right, padded with zeros after "0." when
      there are not enough of them. */
  function PointPlaced(coeff: string, scale: nat): (r: string)
    requires 1 <= |coeff| && AllDigits(coeff)
    ensures |r| >= 1 && IsDigit(r[0])
  {
    if scale >= |coeff| then "0." + Zeros(scale - |coeff|) + coeff
    else coeff[..|coeff| - scale] + "." + coeff[|coeff| - scale..]
  }

  /** The digits with a point after the first one, unless there is only one. */
  function Mantissa(coeff: string): (r: string)
    requires 1 <= |coeff| && AllDigits(coeff)
    ensures |r| >= 1 && IsDigit(r[0])
  {
    coeff[..1] + (if |coeff| > 1 then "." + coeff[1..] else "")
  }

  /** 'E', then '+' for a positive exponent, then the exponent as Long.toString writes it. */
  function Exponent(adjusted: int): string {
    "E" + (if adjusted > 0 then "+" else "") + IntString(adjusted)
  }

  /** BigDecimal.toString: plain notation when the scale is not negative and the adjusted exponent is at
      least -6, otherwise scientific notation with an exponent after 'E'. */
  function ToString(d: Decimal): (r: string)
    ensures |r| >= 1
    ensures r[0] == '-' <==> d.unscaled < 0
  {
    var sign := if d.unscaled < 0 then "-" else "";
    var coeff := Digits(Magnitude(d));
    if d.scale == 0 then
      sign + coeff
    else if d.scale > 0 && Adjusted(d) >= -6 then
      sign + PointPlaced(coeff, d.scale)
    else
      sign + Mantissa(coeff) + Exponent(Adjusted(d))
  }

  /** Digits is a faithful decimal rendering: reading the digits back gives the number. */
  lemma {:induction false} DigitsRoundTrip(n: nat)
    ensures ValueOf(Digits(n)) == n
  {
    var s := Digits(n);
    if n < 10 {
      assert s[..0] == [];
    } else {
      DigitsRoundTrip(n / 10);
      assert s[..|s| - 1] == Digits(n / 10);
    }
  }

  /** Characters of a number without exponent: sign, point and digits. */
  predicate Numeral(s: string) {
    forall i :: 0 <= i < |s| ==> s[i] == '-' || s[i] == '.' || IsDigit(s[i])
  }

  predicate NoPoint(s: string) {
    forall i :: 0 <= i < |s| ==> s[i] != '.'
  }

  lemma NumeralConcat(a: string, b: string)
    requires Numeral(a) && Numeral(b)
    ensures Numeral(a + b) && (NoPoint(a) && NoPoint(b) ==> NoPoint(a + b))
  {
    var r := a + b;
    forall i | 0 <= i < |r| ensures r[i] == '-' || r[i] == '.' || IsDigit(r[i]) {
      if i >= |a| { assert r[i] == b[i - |a|]; }
    }
  }

  /** A point between two point-free numerals is the only one. */
  lemma PointLayout(a: string, b: string)
    requires Numeral(a) && NoPoint(a) && AllDigits(b)
    ensures var r := a + "." + b;
      r[|a|] == '.' && r[|a| + 1..] == b && Numeral(r)
      && forall i :: 0 <= i < |r| && r[i] == '.' ==> i == |a|
  {
    var r := a + "." + b;
    assert r[|a| + 1..] == b;
    forall i | 0 <= i < |r| ensures (r[i] == '-' || r[i] == '.' || IsDigit(r[i])) && (r[i] == '.' ==> i == |a|) {
      if i < |a| { assert r[i] == a[i]; }
      else if i > |a| { assert r[i] == b[i - |a| - 1]; }
    }
  }

  /** An exponent appended to a numeral holds the only 'E' of the string. */
  lemma ExponentLayout(m: string, expSign: string, digits: string)
    requires Numeral(m) && (expSign == "+" || expSign == "-") && AllDigits(digits)
    ensures var r := m + "E" + expSign + digits;
      r[|m|] == 'E' && r[|m| + 1] == expSign[0] && r[|m| + 2..] == digits
      && forall i :: 0 <= i < |r| && r[i] == 'E' ==> i == |m|
  {
    var r := m + "E" + expSign + digits;
    assert r[|m| + 2..] == digits;
    forall i | 0 <= i < |r| ensures r[i] == 'E' ==> i == |m| {
      if i < |m| { assert r[i] == m[i]; }
      else if i > |m| + 1 { assert r[i] == digits[i - |m| - 2]; }
    }
  }

  lemma DigitsAreNumeral(s: string)
    requires AllDigits(s)
    ensures Numeral(s) && NoPoint(s)
  {
  }

  /** Placing the point leaves exactly `scale` digits after the only point. */
  lemma PointPlacedLayout(coeff: string, scale: nat)
    requires 1 <= |coeff| && AllDigits(coeff) && scale > 0
    ensures var p := PointPlaced(coeff, scale);
      |p| > scale && p[|p| - scale - 1] == '.' && AllDigits(p[|p| - scale..]) && Numeral(p)
      && forall i :: 0 <= i < |p| && p[i] == '.' ==> i == |p| - scale - 1
  {
    var a, b;
    if scale >= |coeff| {
      a, b := "0", Zeros(scale - |coeff|) + coeff;
    } else {
      var k := |coeff| - scale;
      a, b := coeff[..k], coeff[k..];
    }
    assert PointPlaced(coeff, scale) == a + "." + b;
    PointLayout(a, b);
  }

  /** In plain notation with a positive scale the string ends in exactly `scale` digits after its only
      point, and it has no exponent. */
  lemma PlainHasScaleFractionDigits(d: Decimal)
    requires d.scale > 0 && Adjusted(d) >= -6
    ensures var r := ToString(d);
      |r| > d.scale && r[|r| - d.scale - 1] == '.'
      && AllDigits(r[|r| - d.scale..])
      && (forall i :: 0 <= i < |r| && r[i] == '.' ==> i == |r| - d.scale - 1)
      && forall i :: 0 <= i < |r| ==> r[i] != 'E'
  {
    var sign := if d.unscaled < 0 then "-" else "";
    var p := PointPlaced(Digits(Magnitude(d)), d.scale);
    var r := ToString(d);
    assert r == sign + p;
    PointPlacedLayout(Digits(Magnitude(d)), d.scale);
    NumeralConcat(sign, p);
    assert r[|r| - d.scale..] == p[|p| - d.scale..];
    forall i | 0 <= i < |r| && r[i] == '.' ensures i == |r| - d.scale - 1 {
      assert r[i] == p[i - |sign|];
    }
  }

  lemma MantissaIsNumeral(coeff: string)
    requires 1 <= |coeff| && AllDigits(coeff)
    ensures Numeral(Mantissa(coeff))
  {
    DigitsAreNumeral(coeff[..1]);
    if |coeff| > 1 {
      DigitsAreNumeral(coeff[1..]);
      NumeralConcat(".", coeff[1..]);
      NumeralConcat(coeff[..1], "." + coeff[1..]);
    } else {
      assert Mantissa(coeff) == coeff[..1];
    }
  }

  /** A non-zero exponent is always written with its sign. */
  lemma ExponentIsSigned(adjusted: int)
    requires adjusted != 0
    ensures Exponent(adjusted)
      == "E" + (if adjusted > 0 then "+" else "-") + Digits(if adjusted < 0 then -adjusted else adjusted)
  {
  }

  /** Outside plain notation the string is a numeral, an 'E', the sign of the adjusted exponent and its
      digits. */
  lemma ScientificParts(d: Decimal) returns (mantissa: string, expSign: string)
    requires d.scale != 0 && !(d.scale > 0 && Adjusted(d) >= -6)
    ensures Numeral(mantissa) && (expSign == "+" || expSign == "-")
    ensures expSign == "+" <==> Adjusted(d) > 0
    ensures Adjusted(d) != 0
    ensures ToString(d) == mantissa + "E" + expSign + Digits(if Adjusted(d) < 0 then -Adjusted(d) else Adjusted(d))
  {
    var sign := if d.unscaled < 0 then "-" else "";
    var m := Mantissa(Digits(Magnitude(d)));
    MantissaIsNumeral(Digits(Magnitude(d)));
    mantissa := sign + m;
    NumeralConcat(sign, m);
    expSign := if Adjusted(d) > 0 then "+" else "-";
    assert ToString(d) == mantissa + Exponent(Adjusted(d));
    ExponentIsSigned(Adjusted(d));
  }

  /** Outside plain notation the string carries exactly one 'E'. The exponent after it is signed ('+' when
      positive, '-' when negative, never zero) and its digits read back as the adjusted exponent. */
  lemma ScientificHasOneExponent(d: Decimal)
    requires d.scale != 0 && !(d.scale > 0 && Adjusted(d) >= -6)
    ensures var r := ToString(d);
      exists e :: 0 < e && e + 2 < |r| && r[e] == 'E'
        && (forall i :: 0 <= i < |r| && r[i] == 'E' ==> i == e)
        && (r[e + 1] == '+' <==> Adjusted(d) > 0) && (r[e + 1] == '-' <==> Adjusted(d) < 0)
        && AllDigits(r[e + 2..])
        && ValueOf(r[e + 2..]) == (if Adjusted(d) < 0 then -Adjusted(d) else Adjusted(d))
  {
    var mantissa, expSign := ScientificParts(d);
    var magnitude: nat := if Adjusted(d) < 0 then -Adjusted(d) else Adjusted(d);
    ExponentLayout(mantissa, expSign, Digits(magnitude));
    DigitsRoundTrip(magnitude);
    var e := |mantissa|;
    assert 0 < e;
  }

  /** BigDecimal.ZERO prints as "0"; a zero read from a DECIMAL(19, 4) column prints as "0.0000". */
  lemma ZeroStrings()
    ensures ToString(Zero) == "0"
    ensures ToString(Decimal(0, 4)) == "0.0000"
  {
    assert Zeros(3) == "000";
  }

  /** A zero with seven decimals is below the plain-notation range and prints with an exponent. */
  lemma SmallZeroIsScientific()
    ensures ToString(Decimal(0, 7)) == "0E-7"
  {
    assert Digits(0) == "0";
    assert Adjusted(Decimal(0, 7)) == -7;
    assert IntString(-7) == "-7";
  }

  /** A negative scale always prints with an exponent. */
  lemma NegativeScaleIsScientific()
    ensures ToString(Decimal(12, -3)) == "1.2E+4"
  {
    assert Digits(12) == "12";
    assert Adjusted(Decimal(12, -3)) == 4;
    assert IntString(4) == "4";
  }

  /** A negative value keeps its sign and places the point `scale` digits from the right. */
  lemma NegativePlain()
    ensures ToString(Decimal(-12345, 2)) == "-123.45"
  {
    assert Digits(12345) == "12345";
  }
}
