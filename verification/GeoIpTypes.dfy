/** The record a lookup fills (src/geoip.h). */
module GeoIpTypes {
  import opened Text
  import J = Json

  /** Latitude and longitude are kept as the text `format_double` writes for them. */
  datatype LookupResult = LookupResult(
    found: bool,
    countryCode: Option<string>,
    countryName: Option<string>,
    continentCode: Option<string>,
    asn: Option<nat>,
    asOrg: Option<string>,
    cityName: Option<string>,
    postalCode: Option<string>,
    latitude: Option<string>,
    longitude: Option<string>,
    accuracyRadius: Option<nat>)

  const EMPTY := LookupResult(false, None, None, None, None, None, None, None, None, None, None)

  /** Characters of a number as the C++ library prints it, with inf and nan. */
  predicate IsNumberChar(c: char) {
    '0' <= c <= '9' || c == '+' || c == '-' || c == '.' || c == 'e'
    || c == 'i' || c == 'n' || c == 'f' || c == 'a'
  }

  predicate IsNumberText(t: string) {
    t != "" && forall k :: 0 <= k < |t| ==> IsNumberChar(t[k])
  }

  /** Both coordinates are texts `format_double` may have written. */
  predicate HasNumbers(r: LookupResult) {
    (r.latitude.Some? ==> IsNumberText(r.latitude.value))
    && (r.longitude.Some? ==> IsNumberText(r.longitude.value))
  }

  /** Both coordinates, where present, are JSON numbers. */
  predicate HasJsonNumbers(r: LookupResult) {
    (r.latitude.Some? ==> J.IsNumber(r.latitude.value))
    && (r.longitude.Some? ==> J.IsNumber(r.longitude.value))
  }

  /** A double as the library prints it with limited precision: the digits in front of the
      point, those behind it, and a signed exponent, if there is one. */
  datatype Double =
    | Finite(negative: bool, whole: nat, fraction: string, exponent: Option<(bool, string)>)
    | Infinite(negative: bool)
    | NotANumber(negative: bool)
  {
    predicate Valid() {
      Finite? ==>
        && (fraction == "" || J.AllDigits(fraction))
        && (exponent.Some? ==> J.AllDigits(exponent.value.1))
    }
  }

  function Sign(negative: bool): string {
    if negative then ['-'] else []
  }

  function ExponentText(e: Option<(bool, string)>): string {
    if e.None? then [] else ['e'] + (if e.value.0 then ['-'] else ['+']) + e.value.1
  }

  function FractionText(fraction: string): string {
    if fraction == "" then [] else ['.'] + fraction
  }

  /** `format_double`. */
  function FormatDouble(d: Double): string {
    match d
    case Finite(negative, whole, fraction, exponent) =>
      Sign(negative) + Decimal(whole) + (FractionText(fraction) + ExponentText(exponent))
    case Infinite(negative) => Sign(negative) + ['i', 'n', 'f']
    case NotANumber(negative) => Sign(negative) + ['n', 'a', 'n']
  }

  lemma {:induction false} DecimalLeads(n: nat)
    ensures Decimal(n)[0] == '0' <==> n == 0
  {
    if n >= 10 {
      DecimalLeads(n / 10);
    }
  }

  lemma ExponentIsExp(e: Option<(bool, string)>)
    requires e.Some? ==> J.AllDigits(e.value.1)
    ensures J.IsExp(ExponentText(e)) && (ExponentText(e) == [] || ExponentText(e)[0] == 'e')
  {
    if e.Some? {
      assert ExponentText(e)[2..] == e.value.1;
    }
  }

  lemma PointAndTail(fraction: string, tail: string)
    requires J.AllDigits(fraction) && J.IsExp(tail) && (tail == [] || tail[0] == 'e')
    ensures J.IsFracExp(['.'] + fraction + tail)
  {
    var s := ['.'] + fraction + tail;
    assert s[1..] == fraction + tail;
    J.DigitRunOf(fraction, tail);
    assert s[1 + |fraction|..] == tail;
  }

  lemma TailIsFracExp(fraction: string, exponent: Option<(bool, string)>)
    requires fraction == "" || J.AllDigits(fraction)
    requires exponent.Some? ==> J.AllDigits(exponent.value.1)
    ensures J.IsFracExp(FractionText(fraction) + ExponentText(exponent))
  {
    ExponentIsExp(exponent);
    if fraction == "" {
      assert FractionText(fraction) + ExponentText(exponent) == ExponentText(exponent);
    } else {
      PointAndTail(fraction, ExponentText(exponent));
    }
  }

  lemma FiniteIsNumber(d: Double)
    requires d.Valid() && d.Finite?
    ensures J.IsNumber(FormatDouble(d))
  {
    DecimalLeads(d.whole);
    SingleZero(d.whole);
    TailIsFracExp(d.fraction, d.exponent);
    J.NumberOfParts(d.negative, Decimal(d.whole), FractionText(d.fraction) + ExponentText(d.exponent));
  }

  lemma SingleZero(n: nat)
    ensures n == 0 ==> |Decimal(n)| == 1
  {
  }

  lemma WordIsNoNumber(negative: bool, word: string)
    requires word != "" && word[0] != '-' && !IsDigit(word[0])
    ensures !J.IsNumber(Sign(negative) + word)
  {
    var t := Sign(negative) + word;
    assert (if negative then t[1..] else t) == word;
    assert word[..0] == [];
  }

  /** What is printed for a double is a JSON number exactly if the double is finite. */
  lemma FormatIsNumberExactlyIfFinite(d: Double)
    requires d.Valid()
    ensures J.IsNumber(FormatDouble(d)) <==> d.Finite?
  {
    match d {
      case Finite(_, _, _, _) => FiniteIsNumber(d);
      case Infinite(negative) => WordIsNoNumber(negative, ['i', 'n', 'f']);
      case NotANumber(negative) => WordIsNoNumber(negative, ['n', 'a', 'n']);
    }
  }

  lemma FormatIsNumberText(d: Double)
    requires d.Valid()
    ensures IsNumberText(FormatDouble(d))
  {
    match d {
      case Finite(negative, whole, fraction, exponent) =>
        AllNumberChars(Sign(negative), Decimal(whole));
        AllNumberChars(FractionText(fraction), ExponentText(exponent));
        AllNumberChars(Sign(negative) + Decimal(whole), FractionText(fraction) + ExponentText(exponent));
      case Infinite(negative) => AllNumberChars(Sign(negative), ['i', 'n', 'f']);
      case NotANumber(negative) => AllNumberChars(Sign(negative), ['n', 'a', 'n']);
    }
  }

  predicate NumberChars(s: string) {
    forall k :: 0 <= k < |s| ==> IsNumberChar(s[k])
  }

  lemma AllNumberChars(a: string, b: string)
    requires NumberChars(a) && NumberChars(b)
    ensures NumberChars(a + b)
  {
  }
}
