/** Exact decimal numbers in place of floats: mantissa over ten to the places, without trailing zeros. */
module Decimals {
  import opened Prelude
  import opened PythonText

  datatype Decimal = Decimal(mantissa: int, places: nat)

  predicate Normal(d: Decimal) {
    d.places == 0 || d.mantissa % 10 != 0
  }

  function Power10(n: nat): (r: nat)
    ensures r > 0
  {
    if n == 0 then 1 else 10 * Power10(n - 1)
  }

  /** The normal form of mantissa / 10^places. */
  function Normalise(mantissa: int, places: nat): (d: Decimal)
    ensures Normal(d) && d.places <= places
    decreases places
  {
    if places > 0 && mantissa % 10 == 0 then Normalise(mantissa / 10, places - 1)
    else Decimal(mantissa, places)
  }

  /** Normalising keeps the number. */
  lemma {:induction false} NormaliseKeepsValue(mantissa: int, places: nat)
    ensures var d := Normalise(mantissa, places); d.mantissa * Power10(places - d.places) == mantissa
    decreases places
  {
    if places > 0 && mantissa % 10 == 0 {
      NormaliseKeepsValue(mantissa / 10, places - 1);
      var d := Normalise(mantissa / 10, places - 1);
      TimesTen(d.mantissa, Power10(places - 1 - d.places));
    }
  }

  lemma TimesTen(a: int, b: int)
    ensures a * (10 * b) == 10 * (a * b)
  {
  }

  function Times(d: Decimal, factor: int): Decimal {
    Normalise(d.mantissa * factor, d.places)
  }

  /** A common power of ten does not show. */
  lemma {:induction false} NormaliseCommon(mantissa: int, places: nat, k: nat)
    ensures Normalise(mantissa * Power10(k), places + k) == Normalise(mantissa, places)
  {
    if k > 0 {
      var m := mantissa * Power10(k - 1);
      TimesTen(mantissa, Power10(k - 1));
      assert (m * 10) % 10 == 0 && (m * 10) / 10 == m;
      NormaliseCommon(mantissa, places, k - 1);
    }
  }

  /** A thousand times a thousandth of a number is the number. */
  lemma ThousandthTimesThousand(mantissa: int, places: nat)
    ensures Times(Normalise(mantissa, places + 3), 1000) == Normalise(mantissa, places)
  {
    var n := Normalise(mantissa, places + 3);
    var k := places + 3 - n.places;
    NormaliseKeepsValue(mantissa, places + 3);
    NormaliseCommon(n.mantissa * 1000, n.places, k);
    Regroup(n.mantissa, Power10(k));
    assert Power10(3) == 1000;
    NormaliseCommon(mantissa, places, 3);
  }

  lemma Regroup(a: int, b: int)
    ensures (a * 1000) * b == (a * b) * 1000
  {
  }

  /** A thousand times a number is that number only for zero. */
  lemma TimesThousandFixed(d: Decimal)
    requires Normal(d)
    ensures Times(d, 1000) == d <==> d.mantissa == 0
  {
    NormaliseKeepsValue(d.mantissa * 1000, d.places);
    if d.mantissa == 0 && d.places == 0 {
      assert Times(d, 1000) == d;
    }
  }

  // ---- text ----

  function Zeros(n: nat): (s: string)
    ensures |s| == n && AllDigits(s)
  {
    if n == 0 then "" else ['0'] + Zeros(n - 1)
  }

  /** At least `width` digits. */
  function Padded(n: nat, width: nat): (s: string)
    ensures |s| >= width && s != "" && AllDigits(s)
  {
    var s := Digits(n);
    if |s| >= width then s else Zeros(width - |s|) + s
  }

  lemma {:induction false} NumberOfZeros(n: nat, s: string)
    ensures NumberOf(Zeros(n) + s) == NumberOf(s)
  {
    if n == 0 {
      assert Zeros(n) + s == s;
    } else {
      assert Zeros(n) + s == ['0'] + (Zeros(n - 1) + s);
      LeadingZero(Zeros(n - 1) + s);
      NumberOfZeros(n - 1, s);
    }
  }

  lemma NumberOfPadded(n: nat, width: nat)
    ensures NumberOf(Padded(n, width)) == n
  {
    var s := Digits(n);
    assert NumberOf(s) == n by {
      NumberOfDigits(n);
    }
    if |s| < width {
      NumberOfZeros(width - |s|, s);
    }
  }

  function SignText(negative: bool): string {
    if negative then "-" else ""
  }

  /** str(float): at least one digit before and after the point. */
  function PrintDecimal(d: Decimal): string {
    SignText(d.mantissa < 0) + PrintMagnitude(Abs(d.mantissa), d.places)
  }

  function Pointed(a: string, b: string): string {
    a + ['.'] + b
  }

  function PrintMagnitude(n: nat, places: nat): string {
    if places == 0 then Pointed(Digits(n), "0")
    else
      var s := Padded(n, places + 1);
      Pointed(s[..|s| - places], s[|s| - places..])
  }

  /** How many digits a text of digits and underscores holds. */
  function DigitCount(s: string): nat {
    if s == "" then 0 else DigitCount(s[1..]) + (if IsDigit(s[0]) then 1 else 0)
  }

  /** The number whose digits stand in one group, or in two around a point; one group must have digits. */
  function DecimalOf(negative: bool, groups: seq<string>): Option<Decimal> {
    if |groups| == 1 then
      if DigitText(groups[0]) then Some(Decimal(Signed(negative, NumberOf(groups[0])), 0)) else None
    else if |groups| == 2 && (groups[0] == "" || DigitText(groups[0])) && (groups[1] == "" || DigitText(groups[1]))
                          && groups[0] + groups[1] != ""
    then Some(Normalise(Signed(negative, NumberOf(groups[0] + groups[1])), DigitCount(groups[1])))
    else None
  }

  /** float() without exponents. */
  function ParseDecimal(text: string): Option<Decimal> {
    var (negative, body) := SignOf(text);
    DecimalOf(negative, Split(body, '.'))
  }

  lemma {:induction false} DigitCountAll(s: string)
    requires AllDigits(s)
    ensures DigitCount(s) == |s|
  {
    if s != "" {
      DigitCountAll(s[1..]);
    }
  }

  lemma SplitPointed(a: string, b: string)
    requires AllDigits(a) && AllDigits(b)
    ensures Split(Pointed(a, b), '.') == [a, b]
  {
    SplitAtFirst(a, b, '.');
    SplitWhole(b, '.');
  }

  lemma SignOfDigits(negative: bool, body: string)
    requires body != "" && IsDigit(body[0])
    ensures SignOf(SignText(negative) + body) == (negative, body)
  {
    var text := SignText(negative) + body;
    if negative {
      assert text[1..] == body;
    } else {
      assert text == body;
    }
  }

  lemma TwoGroups(negative: bool, a: string, b: string)
    requires a != "" && b != "" && AllDigits(a) && AllDigits(b)
    ensures DecimalOf(negative, [a, b]) == Some(Normalise(Signed(negative, NumberOf(a + b)), |b|))
  {
    DigitsAreText(a);
    DigitsAreText(b);
    DigitCountAll(b);
  }

  /** Text of the form digits, point, digits reads as the digits together over ten to the second group. */
  lemma ParsePointed(negative: bool, a: string, b: string)
    requires a != "" && b != "" && AllDigits(a) && AllDigits(b)
    ensures ParseDecimal(SignText(negative) + Pointed(a, b)) == Some(Normalise(Signed(negative, NumberOf(a + b)), |b|))
  {
    assert Pointed(a, b)[0] == a[0];
    SignOfDigits(negative, Pointed(a, b));
    SplitPointed(a, b);
    TwoGroups(negative, a, b);
  }

  lemma AppendZero(s: string)
    ensures NumberOf(s + "0") == NumberOf(s) * 10
  {
    assert (s + "0")[..|s|] == s;
  }

  lemma DropOneZero(m: int)
    ensures Normalise(m * 10, 1) == Normalise(m, 0)
  {
    assert (m * 10) % 10 == 0 && (m * 10) / 10 == m;
  }

  lemma WholeRoundTrip(negative: bool, n: nat)
    ensures ParseDecimal(SignText(negative) + Pointed(Digits(n), "0")) == Some(Normalise(Signed(negative, n), 0))
  {
    ParsePointed(negative, Digits(n), "0");
    AppendZero(Digits(n));
    NumberOfDigits(n);
    DropOneZero(Signed(negative, n));
  }

  lemma FractionRoundTrip(negative: bool, s: string, places: nat)
    requires places > 0 && |s| > places && AllDigits(s)
    ensures ParseDecimal(SignText(negative) + Pointed(s[..|s| - places], s[|s| - places..]))
            == Some(Normalise(Signed(negative, NumberOf(s)), places))
  {
    var a, b := s[..|s| - places], s[|s| - places..];
    ParsePointed(negative, a, b);
    assert a + b == s;
  }

  lemma MagnitudeRoundTrip(negative: bool, n: nat, places: nat)
    ensures ParseDecimal(SignText(negative) + PrintMagnitude(n, places)) == Some(Normalise(Signed(negative, n), places))
  {
    if places == 0 {
      WholeRoundTrip(negative, n);
    } else {
      var s := Padded(n, places + 1);
      FractionRoundTrip(negative, s, places);
      assert NumberOf(s) == n by {
        NumberOfPadded(n, places + 1);
      }
    }
  }

  /** Reading a printed number gives the number back. */
  lemma DecimalRoundTrip(d: Decimal)
    requires Normal(d)
    ensures ParseDecimal(PrintDecimal(d)) == Some(d)
  {
    MagnitudeRoundTrip(d.mantissa < 0, Abs(d.mantissa), d.places);
  }

  /** A printed number starts with a sign or a digit and ends with a digit. */
  lemma PrintedEnds(d: Decimal)
    ensures var s := PrintDecimal(d);
            s != "" && IsDigit(s[|s| - 1]) && (s[0] == '-' || IsDigit(s[0]))
  {
  }
}
