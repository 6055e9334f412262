/** parse_currency and format_currency: the two readings of a monetary
    custom-field value. float() and the locale rendering are not modelled;
    what is modelled is which characters survive, which strings read as a
    number, and the fallbacks. */
module Currency {
  import opened Wrappers
  import opened Strings
  import opened Json

  /** The characters parse_currency keeps before calling float(). */
  predicate NumericChar(c: char) {
    IsDigit(c) || c == '.' || c == '-'
  }

  function NumericPart(s: string): (r: string)
    ensures forall i :: 0 <= i < |r| ==> NumericChar(r[i])
  {
    Filter(s, NumericChar)
  }

  /** The digits format_currency keeps. */
  function DigitsOf(s: string): (r: string)
    ensures AllDigits(r)
  {
    Filter(s, IsDigit)
  }

  /** An exact decimal: units / 10^scale. */
  datatype Decimal = Decimal(units: int, scale: nat)

  /** The 0.0 that parse_currency falls back on. */
  const Zero := Decimal(0, 0)

  /** The position of the first '.', or |s| when there is none. */
  function PointIndex(s: string): (i: nat)
    ensures i <= |s|
    ensures i < |s| ==> s[i] == '.'
    ensures forall k :: 0 <= k < i ==> s[k] != '.'
  {
    if s == [] || s[0] == '.' then 0
    else
      var i := 1 + PointIndex(s[1..]);
      assert forall k :: 1 <= k < i ==> s[k] == s[1..][k - 1];
      i
  }

  /** float(t) for a string made only of digits, '.' and '-': an optional
      minus, then digits with at most one '.', and at least one digit. */
  function ParseFloat(t: string): (r: Option<Decimal>)
  {
    if |t| > 0 && t[0] == '-' then
      match ParseUnsigned(t[1..])
      case Some((magnitude, scale)) => Some(Decimal(-(magnitude as int), scale))
      case None => None
    else
      match ParseUnsigned(t)
      case Some((magnitude, scale)) => Some(Decimal(magnitude, scale))
      case None => None
  }

  /** The unsigned part: digits, at most one '.', at least one digit; the
      result is the digits read as one number and the count after the '.'. */
  function ParseUnsigned(body: string): (r: Option<(nat, nat)>)
  {
    var cut := PointIndex(body);
    var whole := body[..cut];
    var frac := if cut < |body| then body[cut + 1..] else [];
    if AllDigits(whole) && AllDigits(frac) && |whole| + |frac| > 0 then
      Some((DigitsValue(whole + frac), |frac|))
    else None
  }

  /** parse_currency(value) */
  function ParseCurrency(v: Value): (r: Decimal)
    ensures !v.Text? ==> r == Zero
    ensures v.Text? && ParseFloat(NumericPart(v.s)).None? ==> r == Zero
  {
    match v
    case Text(s) => ParseFloat(NumericPart(s)).GetOr(Zero)
    case _ => Zero
  }

  /** What format_currency hands back: a fixed string, or the amount in minor
      units that locale.currency renders (as minorUnits / 100). */
  datatype Formatted = Literal(text: string) | LocaleCurrency(minorUnits: nat)

  /** format_currency(value); an int value raises TypeError, which nothing catches. */
  function FormatCurrency(v: Value): (r: Result<Formatted, string>)
    ensures v.Null? <==> r == Success(Literal(""))
    ensures v.Int? <==> r.Failure?
    ensures v.Text? && DigitsOf(v.s) == [] ==> r == Success(Literal("0,00"))
    ensures v.Text? && DigitsOf(v.s) != [] ==> r == Success(LocaleCurrency(DigitsValue(DigitsOf(v.s))))
  {
    match v
    case Null => Success(Literal(""))
    case Int(_) => Failure("TypeError: 'int' object is not iterable")
    case Text(s) =>
      var clean := DigitsOf(s);
      if clean == [] then Success(Literal("0,00")) else Success(LocaleCurrency(DigitsValue(clean)))
  }

  /** A decimal written out the way float() reads it back: sign, at least one
      whole digit, and exactly `scale` fraction digits. */
  function DecimalText(d: Decimal): (r: string)
  {
    var magnitude: nat := if d.units < 0 then -d.units else d.units;
    (if d.units < 0 then "-" else "") + MagnitudeText(magnitude, d.scale)
  }

  /** The unsigned part of DecimalText: at least scale + 1 digits, with the
      point before the last scale of them. */
  function MagnitudeText(magnitude: nat, scale: nat): string {
    PointText(PadDigits(magnitude, scale + 1), scale)
  }

  /** digits with a '.' before the last `scale` of them (none when scale is 0). */
  function PointText(digits: string, scale: nat): (r: string)
    requires scale < |digits|
  {
    if scale == 0 then digits
    else digits[..|digits| - scale] + "." + digits[|digits| - scale..]
  }

  /** str(n) left-padded with zeros to at least width digits. */
  function PadDigits(n: nat, width: nat): (r: string)
    ensures |r| >= width && AllDigits(r) && DigitsValue(r) == n
  {
    var s := NatToString(n);
    NatToStringValue(n);
    var z := Zeros(if |s| < width then width - |s| else 0);
    LeadingZeros(z, s);
    z + s
  }

  lemma ParsePointText(digits: string, scale: nat)
    requires scale < |digits| && AllDigits(digits)
    ensures ParseUnsigned(PointText(digits, scale)) == Some((DigitsValue(digits), scale))
  {
    if scale > 0 {
      ParseFraction(digits, scale);
    } else {
      ParseWithoutPoint(digits);
    }
  }

  lemma ParseFraction(digits: string, scale: nat)
    requires 0 < scale < |digits| && AllDigits(digits)
    ensures ParseUnsigned(PointText(digits, scale)) == Some((DigitsValue(digits), scale))
  {
    var cut := |digits| - scale;
    var body := PointText(digits, scale);
    assert body[..cut] == digits[..cut];
    assert body[cut + 1..] == digits[cut..];
    assert body[..cut] + body[cut + 1..] == digits;
    ParseAtPoint(body, cut);
  }

  /** A body whose first '.' is at cut, with digits on both sides. */
  lemma ParseAtPoint(body: string, cut: nat)
    requires 0 < cut < |body| && body[cut] == '.'
    requires AllDigits(body[..cut]) && AllDigits(body[cut + 1..])
    ensures ParseUnsigned(body) == Some((DigitsValue(body[..cut] + body[cut + 1..]), |body| - cut - 1))
  {
    forall k | 0 <= k < cut ensures body[k] != '.' {
      assert body[..cut][k] == body[k];
    }
    assert PointIndex(body) == cut;
  }

  lemma ParseWithoutPoint(digits: string)
    requires |digits| > 0 && AllDigits(digits)
    ensures ParseUnsigned(digits) == Some((DigitsValue(digits), 0))
  {
    assert forall k :: 0 <= k < |digits| ==> digits[k] != '.' by {
      forall k | 0 <= k < |digits| ensures digits[k] != '.' { assert IsDigit(digits[k]); }
    }
    assert PointIndex(digits) == |digits|;
    var whole: string := digits[..|digits|];
    var frac: string := [];
    assert whole == digits;
    assert whole + frac == digits;
    assert AllDigits(frac);
  }

  lemma ParseWithPoint(whole: string, frac: string)
    requires |whole| > 0 && AllDigits(whole) && AllDigits(frac)
    ensures ParseUnsigned(whole + "." + frac) == Some((DigitsValue(whole + frac), |frac|))
  {
    var body := whole + "." + frac;
    var cut := |whole|;
    assert body[..cut] == whole;
    assert body[cut + 1..] == frac;
    ParseAtPoint(body, cut);
  }

  /** ParseFloat reads back every decimal DecimalText writes. */
  lemma ParseDecimalText(d: Decimal)
    ensures ParseFloat(DecimalText(d)) == Some(d)
  {
    var magnitude: nat := if d.units < 0 then -d.units else d.units;
    ParseMagnitude(magnitude, d.scale);
    if d.units < 0 {
      assert DecimalText(d) == "-" + MagnitudeText(magnitude, d.scale);
    } else {
      assert DecimalText(d) == MagnitudeText(magnitude, d.scale);
    }
  }

  /** The magnitude text reads back, with or without a leading '-'. */
  lemma ParseMagnitude(magnitude: nat, scale: nat)
    ensures ParseFloat(MagnitudeText(magnitude, scale)) == Some(Decimal(magnitude, scale))
    ensures ParseFloat("-" + MagnitudeText(magnitude, scale)) == Some(Decimal(-(magnitude as int), scale))
  {
    var digits := PadDigits(magnitude, scale + 1);
    var body := MagnitudeText(magnitude, scale);
    ParsePointText(digits, scale);
    PointTextStartsWithDigit(digits, scale);
    ParseNegative(body, magnitude, scale);
    ParsePositive(body, magnitude, scale);
  }

  lemma PointTextStartsWithDigit(digits: string, scale: nat)
    requires scale < |digits| && AllDigits(digits)
    ensures |PointText(digits, scale)| > 0 && IsDigit(PointText(digits, scale)[0])
  {
    assert PointText(digits, scale)[0] == digits[0];
  }

  lemma ParseNegative(body: string, magnitude: nat, scale: nat)
    requires |body| > 0 && body[0] != '-' && ParseUnsigned(body) == Some((magnitude, scale))
    ensures ParseFloat("-" + body) == Some(Decimal(-(magnitude as int), scale))
  {
    assert ("-" + body)[1..] == body;
  }

  lemma ParsePositive(body: string, magnitude: nat, scale: nat)
    requires |body| > 0 && body[0] != '-' && ParseUnsigned(body) == Some((magnitude, scale))
    ensures ParseFloat(body) == Some(Decimal(magnitude, scale))
  {
  }

  /** Every character DecimalText writes survives NumericPart. */
  lemma DecimalTextNumeric(d: Decimal)
    ensures forall i :: 0 <= i < |DecimalText(d)| ==> NumericChar(DecimalText(d)[i])
  {
    var magnitude: nat := if d.units < 0 then -d.units else d.units;
    var digits := PadDigits(magnitude, d.scale + 1);
    var body := MagnitudeText(magnitude, d.scale);
    PointTextNumeric(digits, d.scale);
    if d.units < 0 {
      assert DecimalText(d) == "-" + body;
      SignedNumeric(body);
    } else {
      assert DecimalText(d) == body;
    }
  }

  lemma SignedNumeric(body: string)
    requires forall i :: 0 <= i < |body| ==> NumericChar(body[i])
    ensures forall i :: 0 <= i < |"-" + body| ==> NumericChar(("-" + body)[i])
  {
    forall i | 0 < i < |"-" + body| ensures NumericChar(("-" + body)[i]) {
      assert ("-" + body)[i] == body[i - 1];
    }
  }

  lemma PointTextNumeric(digits: string, scale: nat)
    requires scale < |digits| && AllDigits(digits)
    ensures forall i :: 0 <= i < |PointText(digits, scale)| ==> NumericChar(PointText(digits, scale)[i])
  {
    if scale > 0 {
      var cut := |digits| - scale;
      var body := PointText(digits, scale);
      assert body == digits[..cut] + "." + digits[cut..];
      forall i | 0 <= i < |body| ensures NumericChar(body[i]) {
        if i < cut { assert body[i] == digits[i]; }
        else if i > cut { assert body[i] == digits[i - 1]; }
      }
    }
  }

  /** Characters other than digits, '.' and '-' never change the amount read. */
  lemma ParseCurrencyIgnoresOtherCharacters(s: string)
    ensures ParseCurrency(Text(s)) == ParseCurrency(Text(NumericPart(s)))
  {
    FilterIdempotent(s, NumericChar);
  }

  /** Surrounding text such as a currency code is dropped before reading. */
  lemma {:induction false} ParseCurrencyWithCode(code: string, d: Decimal)
    requires forall i :: 0 <= i < |code| ==> !NumericChar(code[i])
    ensures ParseCurrency(Text(code + DecimalText(d))) == d
  {
    var t := DecimalText(d);
    FilterAppend(code, t, NumericChar);
    NoneKept(code, NumericChar);
    DecimalTextNumeric(d);
    FilterKeepsAll(t, NumericChar);
    assert [] + t == t;
    assert NumericPart(code + t) == t;
    ParseDecimalText(d);
  }

  lemma {:induction false} NoneKept(s: string, keep: char -> bool)
    requires forall i :: 0 <= i < |s| ==> !keep(s[i])
    ensures Filter(s, keep) == []
  {
    if s != [] {
      NoneKept(s[..|s| - 1], keep);
    }
  }

  /** More than one '.' never reads as a number, so the amount falls back to 0. */
  lemma TwoDotsFallBack(s: string, i: nat, j: nat)
    requires i < j < |NumericPart(s)|
    requires NumericPart(s)[i] == '.' && NumericPart(s)[j] == '.'
    ensures ParseCurrency(Text(s)) == Zero
  {
    var t := NumericPart(s);
    if |t| > 0 && t[0] == '-' {
      TwoDotsNoNumber(t[1..], i - 1, j - 1);
    } else {
      TwoDotsNoNumber(t, i, j);
    }
  }

  lemma TwoDotsNoNumber(body: string, a: nat, b: nat)
    requires a < b < |body| && body[a] == '.' && body[b] == '.'
    ensures ParseUnsigned(body).None?
  {
    var cut := PointIndex(body);
    assert cut <= a;
    assert !IsDigit(body[cut + 1..][b - cut - 1]);
  }

  /** "<code><whole>.<frac>" reads as the digits whole + frac over 10^|frac|. */
  lemma ParseCodeWholeFrac(code: string, whole: string, frac: string)
    requires forall i :: 0 <= i < |code| ==> !NumericChar(code[i])
    requires |whole| > 0 && AllDigits(whole) && AllDigits(frac)
    ensures ParseCurrency(Text(code + whole + "." + frac)) == Decimal(DigitsValue(whole + frac), |frac|)
  {
    var t := whole + "." + frac;
    assert code + whole + "." + frac == code + t;
    PointNumeric(whole, frac);
    NumericPartDropsCode(code, t);
    ParseFloatWithPoint(whole, frac);
  }

  lemma PointNumeric(whole: string, frac: string)
    requires AllDigits(whole) && AllDigits(frac)
    ensures forall i :: 0 <= i < |whole + "." + frac| ==> NumericChar((whole + "." + frac)[i])
  {
    var t := whole + "." + frac;
    forall i | 0 <= i < |t| ensures NumericChar(t[i]) {
      if i < |whole| { assert t[i] == whole[i]; }
      else if i > |whole| { assert t[i] == frac[i - |whole| - 1]; }
    }
  }

  lemma NumericPartDropsCode(code: string, t: string)
    requires forall i :: 0 <= i < |code| ==> !NumericChar(code[i])
    requires forall i :: 0 <= i < |t| ==> NumericChar(t[i])
    ensures NumericPart(code + t) == t
  {
    FilterAppend(code, t, NumericChar);
    NoneKept(code, NumericChar);
    FilterKeepsAll(t, NumericChar);
    assert [] + t == t;
  }

  lemma ParseFloatWithPoint(whole: string, frac: string)
    requires |whole| > 0 && AllDigits(whole) && AllDigits(frac)
    ensures ParseFloat(whole + "." + frac) == Some(Decimal(DigitsValue(whole + frac), |frac|))
  {
    var t := whole + "." + frac;
    ParseWithPoint(whole, frac);
    assert t[0] == whole[0];
    ParsePositive(t, DigitsValue(whole + frac), |frac|);
  }

  /** "<code><whole>.<frac>" formats as the digits whole + frac in minor units. */
  lemma FormatCodeWholeFrac(code: string, whole: string, frac: string)
    requires forall i :: 0 <= i < |code| ==> !IsDigit(code[i])
    requires |whole| > 0 && AllDigits(whole) && AllDigits(frac)
    ensures FormatCurrency(Text(code + whole + "." + frac)) == Success(LocaleCurrency(DigitsValue(whole + frac)))
  {
    var t := whole + "." + frac;
    assert code + whole + "." + frac == code + t;
    FilterAppend(code, t, IsDigit);
    NoneKept(code, IsDigit);
    DigitsAroundPoint(whole, frac);
    assert [] + (whole + frac) == whole + frac;
  }

  lemma ExampleTwoDotsFallBack()
    ensures ParseCurrency(Text("1.2.3")) == Zero
  {
    var s := "1.2.3";
    assert s[0] == '1' && s[1] == '.' && s[2] == '2' && s[3] == '.' && s[4] == '3';
    FilterKeepsAll(s, NumericChar);
    assert NumericPart(s) == s;
    TwoDotsFallBack(s, 1, 3);
  }

  lemma ExampleGarbageFallsBack()
    ensures ParseCurrency(Text("garbage")) == Zero
  {
    NoneKept("garbage", NumericChar);
  }

  /** A value without a single digit falls back to 0.0: whatever '.' and
      '-' survive the filter, float() needs a digit. */
  lemma NoDigitFallsBack(s: string)
    requires forall i :: 0 <= i < |s| ==> !IsDigit(s[i])
    ensures ParseCurrency(Text(s)) == Zero
  {
    var t := NumericPart(s);
    FilterNoDigit(s, NumericChar);
    UnsignedNeedsDigit(t);
    if |t| > 0 && t[0] == '-' {
      UnsignedNeedsDigit(t[1..]);
    }
  }

  lemma {:induction false} FilterNoDigit(s: string, keep: char -> bool)
    requires forall i :: 0 <= i < |s| ==> !IsDigit(s[i])
    ensures forall i :: 0 <= i < |Filter(s, keep)| ==> !IsDigit(Filter(s, keep)[i])
  {
    if s != [] {
      FilterNoDigit(s[..|s| - 1], keep);
    }
  }

  /** The unsigned part of float() reads nothing without a digit. */
  lemma UnsignedNeedsDigit(body: string)
    requires forall i :: 0 <= i < |body| ==> !IsDigit(body[i])
    ensures ParseUnsigned(body).None?
  {
    var cut := PointIndex(body);
    if cut > 0 {
      assert body[..cut][0] == body[0];
    }
    if cut + 1 < |body| {
      assert body[cut + 1..][0] == body[cut + 1];
    }
  }

  /** format_currency reads the digits as minor units: "<code><n>" is n / 100. */
  lemma {:induction false} FormatCurrencyMinorUnits(code: string, n: nat)
    requires forall i :: 0 <= i < |code| ==> !IsDigit(code[i])
    ensures FormatCurrency(Text(code + NatToString(n))) == Success(LocaleCurrency(n))
  {
    var t := NatToString(n);
    FilterAppend(code, t, IsDigit);
    NoneKept(code, IsDigit);
    FilterKeepsAll(t, IsDigit);
    NatToStringValue(n);
    assert [] + t == t;
    assert DigitsOf(code + t) == t;
  }

  /** With exactly two fraction digits both readings agree on the amount:
      parse_currency gives units / 100 and format_currency renders units / 100. */
  lemma {:induction false} TwoDecimalsAgree(code: string, units: nat)
    requires forall i :: 0 <= i < |code| ==> !NumericChar(code[i])
    ensures ParseCurrency(Text(code + DecimalText(Decimal(units, 2)))) == Decimal(units, 2)
    ensures FormatCurrency(Text(code + DecimalText(Decimal(units, 2)))) == Success(LocaleCurrency(units))
  {
    ParseCurrencyWithCode(code, Decimal(units, 2));
    var digits := PadDigits(units, 3);
    var t := DecimalText(Decimal(units, 2));
    assert t == PointText(digits, 2);
    FilterAppend(code, t, IsDigit);
    NoneKept(code, IsDigit);
    DigitsOfPointText(digits, 2);
    assert [] + digits == digits;
    assert DigitsOf(code + t) == digits;
  }

  /** format_currency's digit filter undoes the '.' DecimalText inserts. */
  lemma DigitsOfPointText(digits: string, scale: nat)
    requires scale < |digits| && AllDigits(digits)
    ensures DigitsOf(PointText(digits, scale)) == digits
  {
    if scale > 0 {
      var cut := |digits| - scale;
      DigitsAroundPoint(digits[..cut], digits[cut..]);
      assert digits[..cut] + digits[cut..] == digits;
    } else {
      FilterKeepsAll(digits, IsDigit);
    }
  }

  lemma DigitsAroundPoint(whole: string, frac: string)
    requires AllDigits(whole) && AllDigits(frac)
    ensures DigitsOf(whole + "." + frac) == whole + frac
  {
    FilterAppend(whole + ".", frac, IsDigit);
    FilterAppend(whole, ".", IsDigit);
    FilterKeepsAll(whole, IsDigit);
    FilterKeepsAll(frac, IsDigit);
    NoneKept(".", IsDigit);
    assert whole + [] == whole;
  }

  /** With one fraction digit the two readings differ by a factor of ten:
      "<code><whole>.<f>" parses as the digits over 10 but formats them as
      minor units, over 100 ("EUR5.5" reads as 5.5 and renders as 0,55). */
  lemma OneDecimalDisagrees(code: string, whole: string, f: char)
    requires forall i :: 0 <= i < |code| ==> !NumericChar(code[i])
    requires |whole| > 0 && AllDigits(whole) && IsDigit(f)
    ensures ParseCurrency(Text(code + whole + "." + [f])) == Decimal(DigitsValue(whole + [f]), 1)
    ensures FormatCurrency(Text(code + whole + "." + [f])) == Success(LocaleCurrency(DigitsValue(whole + [f])))
  {
    ParseCodeWholeFrac(code, whole, [f]);
    FormatCodeWholeFrac(code, whole, [f]);
  }
}
