/** The exact decimal that `new java.math.BigDecimal(String)` builds for the `number` return type:
    an unscaled integer and a 32-bit scale, value = unscaled × 10^(-scale). */
module Decimals {
  import opened Wrappers
  import opened Text

  const IntMin: int := -0x8000_0000
  const IntMax: int := 0x7FFF_FFFF

  /** A BigDecimal: equality compares unscaled value and scale, so 3.14 and 3.140 differ, as in Java. */
  datatype Decimal = Decimal(unscaled: int, scale: int)

  predicate IsExponentMarker(c: char) { c == 'e' || c == 'E' }

  /** Index of the first exponent marker at or after `k`, or |s| when there is none. */
  function ExponentIndexFrom(s: string, k: nat): (r: nat)
    requires k <= |s|
    ensures k <= r <= |s|
    ensures r < |s| ==> IsExponentMarker(s[r])
    ensures forall j :: k <= j < r ==> !IsExponentMarker(s[j])
    decreases |s| - k
  {
    if k == |s| || IsExponentMarker(s[k]) then k else ExponentIndexFrom(s, k + 1)
  }

  /** Index of the first exponent marker, or |s| when there is none. */
  function ExponentIndex(s: string): (k: nat)
    ensures k <= |s|
    ensures k < |s| ==> IsExponentMarker(s[k])
    ensures forall j :: 0 <= j < k ==> !IsExponentMarker(s[j])
  {
    ExponentIndexFrom(s, 0)
  }

  /** Index of the first '.' at or after `k`, or |s| when there is none. */
  function DotIndexFrom(s: string, k: nat): (r: nat)
    requires k <= |s|
    ensures k <= r <= |s|
    ensures r < |s| ==> s[r] == '.'
    ensures forall j :: k <= j < r ==> s[j] != '.'
    decreases |s| - k
  {
    if k == |s| || s[k] == '.' then k else DotIndexFrom(s, k + 1)
  }

  /** Index of the first '.', or |s| when there is none. */
  function DotIndex(s: string): (k: nat)
    ensures k <= |s|
    ensures k < |s| ==> s[k] == '.'
    ensures forall j :: 0 <= j < k ==> s[j] != '.'
  {
    DotIndexFrom(s, 0)
  }

  /** The significand `Digits '.' Digits? | '.' Digits | Digits`: the value of all its digits
      and the number of digits after the point. */
  function ParseSignificand(s: string): (r: Option<(nat, nat)>)
  {
    var d := DotIndex(s);
    var integerPart := s[..d];
    var fractionPart := if d < |s| then s[d + 1..] else "";
    if AllDigits(integerPart) && AllDigits(fractionPart) && |integerPart| + |fractionPart| > 0 then
      assert AllDigits(integerPart + fractionPart);
      Some((DigitsValue(integerPart + fractionPart), |fractionPart|))
    else None
  }

  /** A literal without its sign: the significand up to the first exponent marker, then an
      optional signed exponent; the exponent and the resulting scale must both fit in an `int`. */
  function ParseUnsignedDecimal(body: string): (r: Option<Decimal>)
    ensures r.Some? ==> r.value.unscaled >= 0 && IntMin <= r.value.scale <= IntMax
  {
    var e := ExponentIndex(body);
    var significand := ParseSignificand(body[..e]);
    var exponent := if e < |body| then ParseInt(body[e + 1..]) else Some(0);
    if significand.None? || exponent.None? then None
    else
      var magnitude := significand.value.0;
      var fractionDigits := significand.value.1;
      var x := exponent.value;
      if IntMin <= x <= IntMax && IntMin <= fractionDigits - x <= IntMax
      then Some(Decimal(magnitude, fractionDigits - x))
      else None
  }

  /** `new BigDecimal(s)`: an optional '+' or '-', then the unsigned grammar; None where Java
      throws `NumberFormatException`. */
  function ParseDecimal(s: string): (r: Option<Decimal>)
    ensures r.Some? ==> IntMin <= r.value.scale <= IntMax
  {
    if |s| > 0 && (s[0] == '+' || s[0] == '-') then
      match ParseUnsignedDecimal(s[1..])
      case None => None
      case Some(d) => Some(if s[0] == '-' then Decimal(-d.unscaled, d.scale) else d)
    else ParseUnsignedDecimal(s)
  }

  /** Scientific rendering `<unscaled>E<-scale>`, an independent way of writing any decimal. */
  function Scientific(d: Decimal): string
  {
    IntToString(d.unscaled) + "E" + IntToString(-d.scale)
  }

  lemma ExponentIndexOfDigits(digits: string, rest: string)
    requires AllDigits(digits)
    ensures ExponentIndex(digits + "E" + rest) == |digits|
  {
    var s := digits + "E" + rest;
    assert s[|digits|] == 'E';
    assert forall j :: 0 <= j < |digits| ==> s[j] == digits[j];
  }

  lemma SignificandOfDigits(digits: string)
    requires |digits| > 0 && AllDigits(digits)
    ensures ParseSignificand(digits) == Some((DigitsValue(digits), 0))
  {
    assert forall j :: 0 <= j < |digits| ==> digits[j] != '.';
    assert DotIndex(digits) == |digits|;
    assert digits[..|digits|] + "" == digits;
  }

  lemma UnsignedScientific(magnitude: nat, exponent: int)
    requires IntMin <= exponent <= IntMax && IntMin <= -exponent <= IntMax
    ensures ParseUnsignedDecimal(NatToString(magnitude) + "E" + IntToString(exponent))
            == Some(Decimal(magnitude, -exponent))
  {
    var digits := NatToString(magnitude);
    var exp := IntToString(exponent);
    IntToStringRoundTrip(exponent);
    var body := digits + "E" + exp;
    ExponentIndexOfDigits(digits, exp);
    assert body[..|digits|] == digits;
    assert body[|digits| + 1..] == exp;
    SignificandOfDigits(digits);
  }

  lemma ParseUnsigned(body: string)
    requires |body| > 0 && IsDigit(body[0])
    ensures ParseDecimal(body) == ParseUnsignedDecimal(body)
  {
  }

  lemma NegativeScientificText(d: Decimal)
    requires d.unscaled < 0
    ensures Scientific(d) == "-" + (NatToString(-d.unscaled) + "E" + IntToString(-d.scale))
  {
    var digits, exponent := NatToString(-d.unscaled), IntToString(-d.scale);
    assert IntToString(d.unscaled) == "-" + digits;
    assert "-" + digits + "E" + exponent == "-" + (digits + "E" + exponent);
  }

  lemma NegativeScientific(d: Decimal)
    requires IntMin < d.scale <= IntMax && d.unscaled < 0
    ensures ParseDecimal(Scientific(d)) == Some(d)
  {
    var mag: nat := -d.unscaled;
    var body := NatToString(mag) + "E" + IntToString(-d.scale);
    UnsignedScientific(mag, -d.scale);
    NegativeScientificText(d);
    NegativeLiteral(Scientific(d), body, d);
  }

  /** A literal starting with '-' denotes the negation of the unsigned literal after it. */
  lemma NegativeLiteral(s: string, body: string, d: Decimal)
    requires s == "-" + body
    requires ParseUnsignedDecimal(body) == Some(Decimal(-d.unscaled, d.scale))
    ensures ParseDecimal(s) == Some(d)
  {
    assert s[1..] == body;
  }

  lemma NonNegativeScientificText(d: Decimal)
    requires d.unscaled >= 0
    ensures Scientific(d) == NatToString(d.unscaled) + "E" + IntToString(-d.scale)
    ensures IsDigit(Scientific(d)[0])
  {
    var digits := NatToString(d.unscaled);
    assert IntToString(d.unscaled) == digits;
    assert Scientific(d)[0] == digits[0];
  }

  lemma NonNegativeScientific(d: Decimal)
    requires IntMin < d.scale <= IntMax && d.unscaled >= 0
    ensures ParseDecimal(Scientific(d)) == Some(d)
  {
    UnsignedScientific(d.unscaled, -d.scale);
    NonNegativeScientificText(d);
    ParseUnsigned(Scientific(d));
  }

  /** Every decimal whose negated scale is itself an `int` is read back exactly from its
      scientific rendering: the parser loses neither digits nor scale. */
  lemma ScientificRoundTrip(d: Decimal)
    requires IntMin < d.scale <= IntMax
    ensures ParseDecimal(Scientific(d)) == Some(d)
  {
    if d.unscaled < 0 {
      NegativeScientific(d);
    } else {
      NonNegativeScientific(d);
    }
  }

  lemma PointedHasNoExponent(integerPart: string, fractionPart: string)
    requires AllDigits(integerPart) && AllDigits(fractionPart)
    ensures ExponentIndex(integerPart + "." + fractionPart) == |integerPart| + 1 + |fractionPart|
  {
    var s := integerPart + "." + fractionPart;
    assert forall j :: 0 <= j < |integerPart| ==> s[j] == integerPart[j];
    assert s[|integerPart|] == '.';
    assert forall j :: |integerPart| < j < |s| ==> s[j] == fractionPart[j - |integerPart| - 1];
  }

  lemma PointedSignificand(integerPart: string, fractionPart: string)
    requires AllDigits(integerPart) && AllDigits(fractionPart) && |integerPart| + |fractionPart| > 0
    ensures AllDigits(integerPart + fractionPart)
    ensures ParseSignificand(integerPart + "." + fractionPart)
            == Some((DigitsValue(integerPart + fractionPart), |fractionPart|))
  {
    var s := integerPart + "." + fractionPart;
    assert DotIndex(s) == |integerPart| by {
      assert s[|integerPart|] == '.';
      assert forall j :: 0 <= j < |integerPart| ==> s[j] == integerPart[j];
    }
    assert s[..|integerPart|] == integerPart;
    assert s[|integerPart| + 1..] == fractionPart;
  }

  /** A significand with a point and no exponent keeps every digit and counts the fraction digits. */
  lemma PointedDecimal(integerPart: string, fractionPart: string)
    requires AllDigits(integerPart) && AllDigits(fractionPart) && |integerPart| + |fractionPart| > 0
    requires |fractionPart| <= IntMax
    ensures AllDigits(integerPart + fractionPart)
    ensures ParseUnsignedDecimal(integerPart + "." + fractionPart)
            == Some(Decimal(DigitsValue(integerPart + fractionPart), |fractionPart|))
  {
    var s := integerPart + "." + fractionPart;
    PointedHasNoExponent(integerPart, fractionPart);
    PointedSignificand(integerPart, fractionPart);
    UnsignedWithoutExponent(s, DigitsValue(integerPart + fractionPart), |fractionPart|);
  }

  /** A literal without an exponent is its significand, scaled by its fraction digits. */
  lemma UnsignedWithoutExponent(body: string, magnitude: nat, fractionDigits: nat)
    requires ExponentIndex(body) == |body| && ParseSignificand(body) == Some((magnitude, fractionDigits))
    requires fractionDigits <= IntMax
    ensures ParseUnsignedDecimal(body) == Some(Decimal(magnitude, fractionDigits))
  {
    assert body[..|body|] == body;
  }

  /** The literal a flag author types for 3.14 becomes exactly 314 × 10^-2, not a binary float. */
  lemma ParseExactDecimal()
    ensures ParseDecimal("3.14") == Some(Decimal(314, 2))
  {
    assert ParseUnsignedDecimal("3.14") == Some(Decimal(314, 2)) by {
      assert "3.14" == "3" + "." + "14";
      PointedDecimal("3", "14");
      assert DigitsValue("3" + "14") == 314 by {
        assert "3" + "14" == "314";
        assert "314"[..2] == "31";
        assert "31"[..1] == "3";
      }
    }
    ParseUnsigned("3.14");
  }

  /** A sign and trailing zeros are kept: -0.50 has unscaled value -50 and scale 2. */
  lemma ParseNegativeDecimal()
    ensures ParseDecimal("-0.50") == Some(Decimal(-50, 2))
  {
    assert ParseUnsignedDecimal("0.50") == Some(Decimal(50, 2)) by {
      assert "0.50" == "0" + "." + "50";
      PointedDecimal("0", "50");
      assert DigitsValue("0" + "50") == 50 by {
        assert "0" + "50" == "050";
        assert "050"[..2] == "05";
        assert "05"[..1] == "0";
      }
    }
    NegativeLiteral("-0.50", "0.50", Decimal(-50, 2));
  }

  /** Malformed literals are rejected rather than read as zero. */
  lemma RejectMalformedDecimal()
    ensures ParseDecimal("") == None
    ensures ParseDecimal(".") == None
    ensures ParseDecimal("abc") == None
  {
    assert ExponentIndex(".") == 1;
    assert DotIndex(".") == 0;
    assert ExponentIndex("abc") == 3;
    assert DotIndex("abc") == 3;
    assert !IsDigit("abc"[0]);
  }
}
