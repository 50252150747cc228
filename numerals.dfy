/**
 * The two number parsers the loader relies on: Long.parseLong for the
 * epoch-millisecond timestamp and new BigDecimal(String) for the price,
 * together with their printers (Long.toString, BigDecimal.toPlainString),
 * against which the parsers are proved to round-trip.
 */
module Numerals {
  import opened Results
  import opened Decimals

  const LongMin: int := -0x8000_0000_0000_0000
  const LongMax: int := 0x7FFF_FFFF_FFFF_FFFF

  predicate IsDigit(c: char) {
    '0' <= c <= '9'
  }

  predicate AllDigits(s: string) {
    forall i :: 0 <= i < |s| ==> IsDigit(s[i])
  }

  /** The value of a string of decimal digits, most significant first. */
  function DigitsValue(s: string): nat
    requires AllDigits(s)
  {
    if s == [] then 0
    else DigitsValue(s[..|s| - 1]) * 10 + (s[|s| - 1] - '0') as nat
  }

  /** The decimal digits of n, left-padded with zeros to at least w digits. */
  function ShowNat(n: nat, w: nat): (s: string)
    ensures AllDigits(s)
    ensures |s| >= w && |s| >= 1
    decreases n + w
  {
    var digit := ['0' + (n % 10) as char];
    if n < 10 && w <= 1 then digit
    else ShowNat(n / 10, if w > 0 then w - 1 else 0) + digit
  }

  lemma {:induction false} ShowNatValue(n: nat, w: nat)
    ensures DigitsValue(ShowNat(n, w)) == n
    decreases n + w
  {
    var digit := ['0' + (n % 10) as char];
    if n < 10 && w <= 1 {
    } else {
      var w' := if w > 0 then w - 1 else 0;
      var s := ShowNat(n / 10, w') + digit;
      ShowNatValue(n / 10, w');
      assert s[..|s| - 1] == ShowNat(n / 10, w');
    }
  }

  /** Sign and digits of an integer literal: an optional '+' or '-', then the rest. */
  function SplitSign(s: string): (r: (bool, string))
    ensures |s| > 0 && (s[0] == '-' || s[0] == '+') ==> r == (s[0] == '-', s[1..])
    ensures |s| == 0 || (s[0] != '-' && s[0] != '+') ==> r == (false, s)
  {
    if |s| > 0 && (s[0] == '-' || s[0] == '+') then (s[0] == '-', s[1..]) else (false, s)
  }

  function Signed(negative: bool, n: nat): int {
    if negative then -(n as int) else n
  }

  /**
   * Long.parseLong: an optional sign followed by one or more decimal digits
   * whose value lies in the 64-bit signed range; anything else is a
   * NumberFormatException, here None.
   */
  function ParseLong(s: string): (r: Option<int>)
    ensures r.Some? ==> LongMin <= r.value <= LongMax
    ensures r.Some? ==> |SplitSign(s).1| > 0 && AllDigits(SplitSign(s).1)
    ensures r.Some? ==> r.value == Signed(SplitSign(s).0, DigitsValue(SplitSign(s).1))
    ensures (&& |SplitSign(s).1| > 0 && AllDigits(SplitSign(s).1)
             && LongMin <= Signed(SplitSign(s).0, DigitsValue(SplitSign(s).1)) <= LongMax) ==> r.Some?
    ensures s == [] || s == "-" || s == "+" ==> r.None?
  {
    var (negative, digits) := SplitSign(s);
    if digits == [] || !AllDigits(digits) then None
    else
      var v := Signed(negative, DigitsValue(digits));
      if LongMin <= v <= LongMax then Some(v) else None
  }

  /** Long.toString: a '-' for negative values, then the digits without leading zeros. */
  function ShowLong(v: int): string {
    (if v < 0 then "-" else "") + ShowNat(if v < 0 then -v else v, 1)
  }

  /** Every long printed by Long.toString parses back to itself. */
  lemma ParseShowLong(v: int)
    requires LongMin <= v <= LongMax
    ensures ParseLong(ShowLong(v)) == Some(v)
  {
    var n: nat := if v < 0 then -v else v;
    ShowNatValue(n, 1);
    var digits := ShowNat(n, 1);
    if v < 0 {
      assert ShowLong(v) == "-" + digits;
      assert SplitSign(ShowLong(v)) == (true, digits);
    } else {
      assert ShowLong(v) == digits;
      assert SplitSign(ShowLong(v)) == (false, digits);
    }
  }

  /** Index of the first '.' in s, or |s| when there is none. */
  function PointIndex(s: string): (i: nat)
    ensures i <= |s|
    ensures i < |s| ==> s[i] == '.'
    ensures forall j :: 0 <= j < i ==> s[j] != '.'
  {
    if s == [] then 0
    else if s[0] == '.' then 0
    else 1 + PointIndex(s[1..])
  }

  /**
   * new BigDecimal(String) for plain decimals: an optional sign, then an
   * unsigned part. Anything else is a NumberFormatException, here None.
   */
  function ParseDecimal(s: string): (r: Option<Decimal>)
    ensures r.Some? ==> r.value.scale < |s|
    ensures s == [] || s == "." || s == "-" || s == "+" ==> r.None?
    ensures r.Some? <==> IsPlainNumeral(SplitSign(s).1)
    ensures r.Some? ==> r.value == Decimal(Signed(SplitSign(s).0, DigitsValue(Unpointed(SplitSign(s).1))), FractionLength(SplitSign(s).1))
  {
    var (negative, body) := SplitSign(s);
    match ParseUnsigned(body)
    case None => None
    case Some((v, scale)) => Some(Decimal(Signed(negative, v), scale))
  }

  /** A sign, and a leading or a trailing point, are accepted in a plain decimal. */
  lemma DecimalForms()
    ensures ParseDecimal("+1") == Some(Decimal(1, 0))
    ensures ParseDecimal(".5") == Some(Decimal(5, 1))
    ensures ParseDecimal("5.") == Some(Decimal(5, 0))
  {
    PlusOne();
    LeadingPoint();
    TrailingPoint();
  }

  lemma PlusOne()
    ensures ParseDecimal("+1") == Some(Decimal(1, 0))
  {
    assert SplitSign("+1") == (false, "1");
    assert PointIndex("1") == 1 && "1"[..1] == "1";
    assert DigitsValue("1") == 1;
  }

  lemma LeadingPoint()
    ensures ParseDecimal(".5") == Some(Decimal(5, 1))
  {
    var body := ".5";
    assert SplitSign(body) == (false, body);
    assert body[1..] == "5" && DigitsValue("5") == 5;
    assert Unpointed(body) == "" + Unpointed("5") == "5";
    assert FractionLength(body) == 1;
    assert IsPlainNumeral(body);
  }

  lemma TrailingPoint()
    ensures ParseDecimal("5.") == Some(Decimal(5, 0))
  {
    assert SplitSign("5.") == (false, "5.");
    assert PointIndex("5.") == 1 && "5."[..1] == "5" && "5."[2..] == "";
    assert "5" + "" == "5" && DigitsValue("5") == 5;
  }

  /** Two points make a string no plain decimal. */
  lemma TwoPointsRejected()
    ensures ParseDecimal("1.2.3") == None
  {
    var s := "1.2.3";
    assert SplitSign(s) == (false, s);
    assert s[1] == '.' && s[3] == '.';
    assert !IsPlainNumeral(s);
  }

  /** Digits and points only, no two points, and at least one digit: "5", "5.", ".5", "0.50". */
  predicate IsPlainNumeral(body: string) {
    && (forall k :: 0 <= k < |body| ==> IsDigit(body[k]) || body[k] == '.')
    && (forall k, l :: 0 <= k < l < |body| && body[k] == '.' ==> body[l] != '.')
    && |Unpointed(body)| > 0
  }

  /** The characters of s other than '.', in order. */
  function Unpointed(s: string): (r: string)
    ensures (forall k :: 0 <= k < |s| ==> IsDigit(s[k]) || s[k] == '.') ==> AllDigits(r)
  {
    if s == [] then ""
    else (if s[0] == '.' then "" else [s[0]]) + Unpointed(s[1..])
  }

  /** The number of characters after the first '.' of s, or 0 when there is none. */
  function FractionLength(s: string): nat {
    if s == [] then 0
    else if s[0] == '.' then |s| - 1
    else FractionLength(s[1..])
  }

  /**
   * The unsigned part of a plain decimal: digits with at most one '.', and
   * at least one digit. Its value is that of all its digits, and its scale
   * is the number of digits after the point.
   */
  function ParseUnsigned(body: string): (r: Option<(nat, nat)>)
    ensures r.Some? ==> r.value.1 < |body|
    ensures body == [] || body == "." ==> r.None?
    ensures r.Some? <==> IsPlainNumeral(body)
    ensures r.Some? ==> r.value == (DigitsValue(Unpointed(body)), FractionLength(body))
  {
    var i := PointIndex(body);
    var intPart := body[..i];
    var fracPart := if i < |body| then body[i + 1..] else "";
    if !AllDigits(intPart) || !AllDigits(fracPart) || |intPart| + |fracPart| == 0 then
      NotPlain(body, i);
      None
    else
      IsPlain(body, i);
      Some((DigitsValue(intPart + fracPart), |fracPart|))
  }

  /** Digits, then optionally a point and more digits, with at least one digit: a plain numeral. */
  lemma IsPlain(s: string, i: nat)
    requires i == PointIndex(s)
    requires var frac := if i < |s| then s[i + 1..] else "";
      AllDigits(s[..i]) && AllDigits(frac) && i + |frac| > 0
    ensures var frac := if i < |s| then s[i + 1..] else "";
      IsPlainNumeral(s) && Unpointed(s) == s[..i] + frac && FractionLength(s) == |frac|
  {
    var frac := if i < |s| then s[i + 1..] else "";
    assert forall k :: 0 <= k < |frac| ==> frac[k] != '.';
    PointSplit(s, i);
    forall k | 0 <= k < |s| ensures IsDigit(s[k]) || s[k] == '.' {
      if k < i {
        assert s[k] == s[..i][k];
      } else if k > i {
        assert s[k] == frac[k - i - 1];
      }
    }
    forall k, l | 0 <= k < l < |s| && s[k] == '.' ensures s[l] != '.' {
      assert k >= i;
      assert s[l] == frac[l - i - 1];
    }
  }

  /** A string without '.' is its own digits, and has no fraction. */
  lemma {:induction false} NoPointParts(s: string)
    requires forall k :: 0 <= k < |s| ==> s[k] != '.'
    ensures Unpointed(s) == s && FractionLength(s) == 0
  {
    if s != [] {
      NoPointParts(s[1..]);
      assert s == [s[0]] + s[1..];
    }
  }

  lemma {:induction false} UnpointedAppend(a: string, b: string)
    ensures Unpointed(a + b) == Unpointed(a) + Unpointed(b)
  {
    if a == [] {
      assert a + b == b;
    } else {
      assert (a + b)[0] == a[0] && (a + b)[1..] == a[1..] + b;
      UnpointedAppend(a[1..], b);
    }
  }

  lemma {:induction false} FractionAfterPoint(a: string, b: string)
    requires forall k :: 0 <= k < |a| ==> a[k] != '.'
    ensures FractionLength(a + "." + b) == |b|
  {
    if a == [] {
      assert a + "." + b == "." + b;
    } else {
      assert (a + "." + b)[0] == a[0] && (a + "." + b)[1..] == a[1..] + "." + b;
      FractionAfterPoint(a[1..], b);
    }
  }

  /**
   * Around the first point at i, the digits of s are those before it and
   * those after it, and the fraction is what follows it, provided nothing
   * after it is another point.
   */
  lemma PointSplit(s: string, i: nat)
    requires i == PointIndex(s)
    ensures var frac := if i < |s| then s[i + 1..] else "";
      (forall k :: 0 <= k < |frac| ==> frac[k] != '.') ==>
        Unpointed(s) == s[..i] + frac && FractionLength(s) == |frac|
  {
    var frac := if i < |s| then s[i + 1..] else "";
    if forall k :: 0 <= k < |frac| ==> frac[k] != '.' {
      NoPointParts(s[..i]);
      NoPointParts(frac);
      if i < |s| {
        assert s == s[..i] + "." + frac;
        UnpointedAppend(s[..i] + ".", frac);
        UnpointedAppend(s[..i], ".");
        FractionAfterPoint(s[..i], frac);
      } else {
        assert s[..i] == s;
      }
    }
  }

  /** A body that the split at its first point rejects is not a plain numeral. */
  lemma NotPlain(s: string, i: nat)
    requires i == PointIndex(s)
    requires var frac := if i < |s| then s[i + 1..] else "";
      !AllDigits(s[..i]) || !AllDigits(frac) || i + |frac| == 0
    ensures !IsPlainNumeral(s)
  {
    var frac := if i < |s| then s[i + 1..] else "";
    if IsPlainNumeral(s) {
      assert AllDigits(s[..i]) by {
        forall k | 0 <= k < i ensures IsDigit(s[..i][k]) {
          assert s[k] != '.';
        }
      }
      assert AllDigits(frac) by {
        forall k | 0 <= k < |frac| ensures IsDigit(frac[k]) {
          assert s[i] == '.' && frac[k] == s[i + 1 + k];
        }
      }
      PointSplit(s, i);
      assert false;
    }
  }

  /**
   * BigDecimal.toPlainString for a non-negative scale: a '-' for negative
   * values, the integer digits (at least one), and when the scale is
   * positive a '.' followed by exactly scale digits.
   */
  function ToPlainString(d: Decimal): string {
    var (intPart, fracPart) := PlainDigits(d);
    (if d.unscaled < 0 then "-" else "")
      + intPart
      + (if d.scale > 0 then "." + fracPart else "")
  }

  /**
   * The digits of toPlainString around the point: the magnitude printed with
   * at least scale + 1 digits, of which the last scale digits follow the point.
   */
  function PlainDigits(d: Decimal): (r: (string, string))
    ensures AllDigits(r.0) && AllDigits(r.1) && |r.0| > 0 && |r.1| == d.scale
    ensures DigitsValue(r.0 + r.1) == Abs(d.unscaled)
  {
    var digits := ShowNat(Abs(d.unscaled), d.scale + 1);
    ShowNatValue(Abs(d.unscaled), d.scale + 1);
    var cut := |digits| - d.scale;
    assert digits[..cut] + digits[cut..] == digits;
    (digits[..cut], digits[cut..])
  }

  /** Every decimal printed in plain notation parses back to the same unscaled value and scale. */
  lemma ParsePlainString(d: Decimal)
    ensures ParseDecimal(ToPlainString(d)) == Some(d)
  {
    var (intPart, fracPart) := PlainDigits(d);
    assert Signed(d.unscaled < 0, DigitsValue(intPart + fracPart)) == d.unscaled;
    ParseDecimalParts(d.unscaled < 0, intPart, fracPart);
  }

  /** A sign, a non-empty digit string and an optional fraction parse to their value and scale. */
  lemma ParseDecimalParts(negative: bool, intPart: string, fracPart: string)
    requires AllDigits(intPart) && AllDigits(fracPart) && |intPart| > 0
    ensures ParseDecimal((if negative then "-" else "") + intPart + (if |fracPart| > 0 then "." + fracPart else ""))
      == Some(Decimal(Signed(negative, DigitsValue(intPart + fracPart)), |fracPart|))
  {
    var rest := if |fracPart| > 0 then "." + fracPart else "";
    var body := intPart + rest;
    var sign := if negative then "-" else "";
    assert sign + intPart + rest == sign + body;
    assert body[0] == intPart[0];
    SignPrefix(negative, body);
    UnsignedParts(intPart, fracPart);
  }

  /** A sign written before text that starts with a digit is split off again. */
  lemma SignPrefix(negative: bool, body: string)
    requires |body| > 0 && IsDigit(body[0])
    ensures SplitSign((if negative then "-" else "") + body) == (negative, body)
  {
    if negative {
      assert ("-" + body)[1..] == body;
    } else {
      assert ("" + body) == body;
    }
  }

  /** Integer digits and optional fraction digits make an unsigned part with that value and scale. */
  lemma UnsignedParts(intPart: string, fracPart: string)
    requires AllDigits(intPart) && AllDigits(fracPart) && |intPart| > 0
    ensures ParseUnsigned(intPart + (if |fracPart| > 0 then "." + fracPart else ""))
      == Some((DigitsValue(intPart + fracPart), |fracPart|))
  {
    var rest := if |fracPart| > 0 then "." + fracPart else "";
    var body := intPart + rest;
    PointIndexOfDigits(intPart, rest);
    var i := PointIndex(body);
    assert body[..i] == intPart;
    if |fracPart| > 0 {
      assert body[i + 1..] == fracPart;
    } else {
      assert i == |body|;
    }
  }

  lemma {:induction false} PointIndexOfDigits(digits: string, rest: string)
    requires AllDigits(digits)
    requires rest == [] || rest[0] == '.'
    ensures PointIndex(digits + rest) == |digits|
  {
    if digits != [] {
      assert (digits + rest)[1..] == digits[1..] + rest;
      PointIndexOfDigits(digits[1..], rest);
    }
  }
}
