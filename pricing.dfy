/**
 * The calculation engine of app.js: the input gate of the submit handler
 * (app.js:153-163) and calculateResults (app.js:88-122).
 */
module Pricing {
  import opened Wrappers

  /** Kilograms per unit of ceblok x swat length x swat width x swat count (app.js:96). */
  const KiloFactor: real := 25.0
  /** Kilograms in one quintal (app.js:97). */
  const KiloPerQuintal: real := 100.0
  /** tindak is half of the swat length (app.js:98). */
  const TindakDivisor: real := 2.0
  /** Per-kilo margin of category A (app.js:100, 102). */
  const MarginA: real := 9000.0
  /** Per-kilo margin of category B (app.js:101, 103). */
  const MarginB: real := 7000.0

  /** What parseFloat can produce: a finite number or one of the non-finite values. */
  datatype JsNumber = Finite(value: real) | NaN | PosInfinity | NegInfinity

  /** `Number.isFinite(v) && v > 0` */
  predicate IsPositiveFinite(v: JsNumber)
  {
    v.Finite? && v.value > 0.0
  }

  /** The formData object built by the submit handler (app.js:165). */
  datatype FormData = FormData(
    name: string,
    swatLength: real,
    ceblokPerMeter: real,
    swatWidth: real,
    totalSwat: real,
    marketPrice: real)

  /** The record returned by calculateResults; timestamp is in milliseconds. */
  datatype Calculation = Calculation(
    name: string,
    swatLength: real,
    ceblokPerMeter: real,
    swatWidth: real,
    totalSwat: real,
    marketPrice: real,
    kilo: real,
    quintal: real,
    tindak: real,
    marketValue: real,
    buyA: real,
    buyB: real,
    differenceA: real,
    differenceB: real,
    timestamp: int)

  /** The characters String.prototype.trim removes: WhiteSpace and LineTerminator of ECMAScript. */
  predicate IsJsWhitespace(c: char)
  {
    c == '\t' || c == '\n' || c == '\U{000B}' || c == '\U{000C}' || c == '\r' || c == ' '
    || c == '\U{00A0}' || c == '\U{1680}' || ('\U{2000}' <= c <= '\U{200A}')
    || c == '\U{2028}' || c == '\U{2029}' || c == '\U{202F}' || c == '\U{205F}'
    || c == '\U{3000}' || c == '\U{FEFF}'
  }

  /** The number of whitespace characters at the start of s. */
  function LeadingBlanks(s: string): (n: nat)
    ensures n <= |s|
    ensures forall i :: 0 <= i < n ==> IsJsWhitespace(s[i])
    ensures n == |s| || !IsJsWhitespace(s[n])
  {
    if s != [] && IsJsWhitespace(s[0]) then 1 + LeadingBlanks(s[1..]) else 0
  }

  /** The length of s once the whitespace characters at its end are dropped. */
  function TrailingStart(s: string): (n: nat)
    ensures n <= |s|
    ensures forall i :: n <= i < |s| ==> IsJsWhitespace(s[i])
    ensures n == 0 || !IsJsWhitespace(s[n - 1])
  {
    if s != [] && IsJsWhitespace(s[|s| - 1]) then TrailingStart(s[..|s| - 1]) else |s|
  }

  /**
   * String.prototype.trim: the slice of s between its leading and its trailing whitespace. It
   * is empty exactly when s is all whitespace, and otherwise starts and ends with a non-blank.
   */
  function Trim(s: string): (r: string)
    ensures LeadingBlanks(s) + |r| <= |s| && r == s[LeadingBlanks(s)..LeadingBlanks(s) + |r|]
    ensures forall i ::
      (0 <= i < LeadingBlanks(s) || LeadingBlanks(s) + |r| <= i < |s|) ==> IsJsWhitespace(s[i])
    ensures r == [] <==> forall i :: 0 <= i < |s| ==> IsJsWhitespace(s[i])
    ensures r != [] ==> !IsJsWhitespace(r[0]) && !IsJsWhitespace(r[|r| - 1])
  {
    var front := LeadingBlanks(s);
    var len := TrailingStart(s[front..]);
    TrimTail(s, front, len);
    assert len > 0 ==> s[front + len - 1] == s[front..][len - 1];
    s[front..front + len]
  }

  /** Whitespace at the end of the suffix s[front..] is whitespace at the end of s. */
  lemma TrimTail(s: string, front: nat, len: nat)
    requires front <= |s| && len <= |s| - front
    requires forall i :: len <= i < |s| - front ==> IsJsWhitespace(s[front..][i])
    ensures forall i :: front + len <= i < |s| ==> IsJsWhitespace(s[i])
  {
    forall i | front + len <= i < |s| ensures IsJsWhitespace(s[i]) {
      assert s[i] == s[front..][i - front];
    }
  }

  /**
   * The submit handler's gate (app.js:153-165): the trimmed name must be non-empty and each
   * of the five numbers finite and positive; on success the form carries the trimmed name.
   */
  function Validate(
    rawName: string, swatLength: JsNumber, ceblokPerMeter: JsNumber,
    swatWidth: JsNumber, totalSwat: JsNumber, marketPrice: JsNumber): (r: Option<FormData>)
    ensures r.Some? <==>
      (exists i :: 0 <= i < |rawName| && !IsJsWhitespace(rawName[i]))
      && IsPositiveFinite(swatLength) && IsPositiveFinite(ceblokPerMeter)
      && IsPositiveFinite(swatWidth) && IsPositiveFinite(totalSwat) && IsPositiveFinite(marketPrice)
    ensures r.Some? ==> PositiveForm(r.value)
    ensures r.Some? ==>
      r.value.name == Trim(rawName)
      && r.value.swatLength == swatLength.value && r.value.ceblokPerMeter == ceblokPerMeter.value
      && r.value.swatWidth == swatWidth.value && r.value.totalSwat == totalSwat.value
      && r.value.marketPrice == marketPrice.value
  {
    var name := Trim(rawName);
    if name == []
       || !(IsPositiveFinite(swatLength) && IsPositiveFinite(ceblokPerMeter)
            && IsPositiveFinite(swatWidth) && IsPositiveFinite(totalSwat)
            && IsPositiveFinite(marketPrice))
    then None
    else Some(FormData(name, swatLength.value, ceblokPerMeter.value,
                       swatWidth.value, totalSwat.value, marketPrice.value))
  }

  /** A form the gate lets through: a non-empty name and five positive numbers. */
  predicate PositiveForm(f: FormData)
  {
    f.name != [] && f.swatLength > 0.0 && f.ceblokPerMeter > 0.0 && f.swatWidth > 0.0
    && f.totalSwat > 0.0 && f.marketPrice > 0.0
  }

  /**
   * calculateResults: the inputs are carried over unchanged, the weight follows the yield
   * formula, and each buy price is the market value less that category's margin over the weight.
   */
  function CalculateResults(form: FormData, now: int): (r: Calculation)
    ensures r.name == form.name && r.timestamp == now
    ensures r.swatLength == form.swatLength && r.ceblokPerMeter == form.ceblokPerMeter
      && r.swatWidth == form.swatWidth && r.totalSwat == form.totalSwat
      && r.marketPrice == form.marketPrice
    ensures r.kilo == form.ceblokPerMeter * form.swatLength * form.swatWidth * form.totalSwat * KiloFactor
    ensures r.quintal * KiloPerQuintal == r.kilo
    ensures r.tindak * TindakDivisor == form.swatLength
    ensures r.marketValue == r.kilo * form.marketPrice
    ensures r.differenceA == r.kilo * MarginA && r.differenceB == r.kilo * MarginB
    ensures r.buyA + r.differenceA == r.marketValue && r.buyB + r.differenceB == r.marketValue
  {
    var kilo := form.ceblokPerMeter * form.swatLength * form.swatWidth * form.totalSwat * KiloFactor;
    Calculation(
      form.name, form.swatLength, form.ceblokPerMeter, form.swatWidth, form.totalSwat,
      form.marketPrice,
      kilo,
      kilo / KiloPerQuintal,
      form.swatLength / TindakDivisor,
      kilo * form.marketPrice,
      kilo * (form.marketPrice - MarginA),
      kilo * (form.marketPrice - MarginB),
      kilo * MarginA,
      kilo * MarginB,
      now)
  }

  /** Only the timestamp depends on the clock: equal forms give equal derived fields. */
  lemma CalculationIgnoresClock(form: FormData, t1: int, t2: int)
    ensures CalculateResults(form, t1).(timestamp := t2) == CalculateResults(form, t2)
  {
  }

  /**
   * For a form the gate accepts every weight and value is positive, category B always pays
   * kilo x 2000 more than category A, and category A pays a positive price exactly when the
   * market price exceeds its margin.
   */
  lemma AcceptedFormFigures(form: FormData, now: int)
    requires PositiveForm(form)
    ensures var r := CalculateResults(form, now);
      r.kilo > 0.0 && r.quintal > 0.0 && r.tindak > 0.0 && r.marketValue > 0.0
      && r.differenceB < r.differenceA
      && r.buyB - r.buyA == r.kilo * 2000.0
      && (r.buyA > 0.0 <==> form.marketPrice > MarginA)
      && (r.buyB > 0.0 <==> form.marketPrice > MarginB)
  {
    var r := CalculateResults(form, now);
    var a := form.ceblokPerMeter * form.swatLength;
    var b := a * form.swatWidth;
    var c := b * form.totalSwat;
    ScaledComparison(form.ceblokPerMeter, form.swatLength, 0.0, a, 0.0);
    ScaledComparison(a, form.swatWidth, 0.0, b, 0.0);
    ScaledComparison(b, form.totalSwat, 0.0, c, 0.0);
    assert r.kilo == c * KiloFactor;
    ScaledComparison(r.kilo, form.marketPrice, 0.0, r.marketValue, 0.0);
    ScaledComparison(r.kilo, form.marketPrice, MarginA, r.marketValue, r.differenceA);
    ScaledComparison(r.kilo, form.marketPrice, MarginB, r.marketValue, r.differenceB);
  }

  /** Scaling by a positive weight preserves the order of two per-kilo amounts. */
  lemma ScaledComparison(w: real, p: real, m: real, wp: real, wm: real)
    requires w > 0.0 && wp == w * p && wm == w * m
    ensures wp > wm <==> p > m
  {
    assert wp - wm == w * (p - m);
    if p > m {
      assert w * (p - m) > 0.0;
    } else {
      assert w * (m - p) >= 0.0;
      assert w * (p - m) == -(w * (m - p));
    }
  }

  /** The worked example: 2 ceblok/m, 10 m, width 1, 3 swats at 12000 per kilo. */
  lemma WorkedExample()
    ensures var r := CalculateResults(FormData("Pak Budi", 10.0, 2.0, 1.0, 3.0, 12000.0), 0);
      r.kilo == 1500.0 && r.quintal == 15.0 && r.tindak == 5.0
      && r.marketValue == 18000000.0 && r.buyA == 4500000.0 && r.buyB == 7500000.0
      && r.differenceA == 13500000.0 && r.differenceB == 10500000.0
  {
  }
}
