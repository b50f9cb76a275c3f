/**
 Display money (packages/sdk/src/display.ts): rates read as exact fractions,
 rounded decimals printed, and amounts converted with one rounding, half up.
 */
module Display {
  import opened Results
  import opened Numerals

  datatype Fraction = Fraction(numerator: nat, denominator: nat)

  const MAX_RATE_LENGTH := 80
  const MAX_EXPONENT := 30

  predicate IsDigit(c: char) {
    '0' <= c <= '9'
  }

  predicate AllDigits(s: string) {
    forall c :: c in s ==> IsDigit(c)
  }

  /** How many decimal digits `s` starts with. */
  function DigitSpan(s: string): (n: nat)
    ensures n <= |s|
    ensures AllDigits(s[..n])
  {
    if s == [] || !IsDigit(s[0]) then 0 else
      assert s[..1 + DigitSpan(s[1..])] == [s[0]] + s[1..][..DigitSpan(s[1..])];
      1 + DigitSpan(s[1..])
  }

  /** The three groups of `/^(0|[1-9][0-9]*)(?:\.([0-9]+))?(?:e([+-]?[0-9]+))?$/i`; an absent exponent is 0. */
  datatype Rate = NoRate | Rate(whole: string, decimals: string, exponent: int)

  /** The exponent part: nothing, or `e`, an optional sign and digits up to the end. */
  function ReadExponent(s: string): Option<int> {
    if s == "" then Some(0)
    else if s[0] != 'e' && s[0] != 'E' then None
    else
      var signed := |s| >= 2 && (s[1] == '-' || s[1] == '+');
      var digits := if signed then s[2..] else s[1..];
      if digits == "" || DigitSpan(digits) < |digits| then None else
        assert digits[..|digits|] == digits;
        Some(if signed && s[1] == '-' then 0 - Value(digits, 10) else Value(digits, 10))
  }

  function ReadRate(s: string): (r: Rate)
    ensures r.Rate? ==> AllDigits(r.whole) && AllDigits(r.decimals)
  {
    var w := DigitSpan(s);
    if w == 0 || (s[0] == '0' && w > 1) then NoRate
    else if w < |s| && s[w] == '.' then
      var d := DigitSpan(s[w + 1..]);
      if d == 0 then NoRate else WithExponent(s[..w], s[w + 1..][..d], ReadExponent(s[w + 1..][d..]))
    else WithExponent(s[..w], "", ReadExponent(s[w..]))
  }

  function WithExponent(whole: string, decimals: string, exponent: Option<int>): Rate {
    match exponent
    case None => NoRate
    case Some(e) => Rate(whole, decimals, e)
  }

  /** `a * 10 ** e`. */
  function Shift(a: nat, e: nat): nat {
    a * Pow(10, e)
  }

  /** `fraction(value)`; `None` is its throw. */
  function FractionOf(value: string): Option<Fraction> {
    var r := ReadRate(value);
    if r.NoRate? || |value| > MAX_RATE_LENGTH then None else
      var exponent := r.exponent - |r.decimals|;
      if exponent < -MAX_EXPONENT || exponent > MAX_EXPONENT then None else
        var digits := Value(r.whole + r.decimals, 10);
        var f := if exponent >= 0 then Fraction(Shift(digits, exponent), 1) else Fraction(digits, Pow(10, -exponent));
        if f.numerator == 0 then None else Some(f)
  }

  /** `(n * 2 + d) / (2 * d)`. */
  function RoundHalfUp(n: nat, d: nat): nat
    requires d > 0
  {
    (n * 2 + d) / (2 * d)
  }

  /** The integer nearest `n / d`, a tie rounded up. */
  predicate IsNearest(r: nat, n: nat, d: nat) {
    2 * r * d <= 2 * n + d < 2 * (r + 1) * d
  }

  lemma {:induction false} QuotientBounds(a: nat, b: nat)
    requires b > 0
    ensures (a / b) * b <= a < (a / b + 1) * b
  {
    DivMod(a, b);
  }

  lemma {:induction false} RoundIsNearest(n: nat, d: nat)
    requires d > 0
    ensures IsNearest(RoundHalfUp(n, d), n, d)
  {
    QuotientBounds(n * 2 + d, 2 * d);
    var r := RoundHalfUp(n, d);
    Twice(r, d);
    Twice(r + 1, d);
  }

  lemma {:induction false} Twice(r: nat, d: nat)
    ensures r * (2 * d) == 2 * r * d
  {
  }

  lemma {:induction false} NearestUnique(r: nat, s: nat, n: nat, d: nat)
    requires d > 0 && IsNearest(r, n, d) && IsNearest(s, n, d)
    ensures r == s
  {
    if r < s {
      MulMonotone(2 * (r + 1), 2 * s, d);
    } else if s < r {
      MulMonotone(2 * (s + 1), 2 * r, d);
    }
  }

  function StripZeros(s: string): (t: string)
    ensures t <= s
  {
    if s != "" && s[|s| - 1] == '0' then StripZeros(s[..|s| - 1]) else s
  }

  /** `decimal(numerator, denominator, places)` of positive arguments. */
  function Decimal(n: nat, d: nat, places: nat): string
    requires d > 0
  {
    var scale := Pow(10, places);
    var rounded := RoundHalfUp(Shift(n, places), d);
    var decimals := StripZeros(PadStart(Print(Remainder(rounded, scale), 10), places));
    var whole := Print(Quotient(rounded, scale), 10);
    if decimals != "" then whole + "." + decimals else whole
  }

  // ------------------------------------------------------- printed and read back

  lemma {:induction false} NumeralDigits(s: string)
    ensures IsNumeral(s, 10) <==> AllDigits(s)
  {
  }

  lemma {:induction false} DigitSpanAppend(s: string, t: string)
    requires AllDigits(s) && (t == "" || !IsDigit(t[0]))
    ensures DigitSpan(s + t) == |s|
  {
    if s == "" {
      assert s + t == t;
    } else {
      assert (s + t)[1..] == s[1..] + t;
      DigitSpanAppend(s[1..], t);
    }
  }

  /** Whole digits without a leading zero, and decimals when there are any, read as themselves. */
  lemma {:induction false} ReadPrinted(whole: string, decimals: string)
    requires whole != "" && AllDigits(whole) && AllDigits(decimals)
    requires whole[0] == '0' ==> |whole| == 1
    ensures decimals != "" ==> ReadRate(whole + "." + decimals) == Rate(whole, decimals, 0)
    ensures ReadRate(whole) == Rate(whole, "", 0)
  {
    DigitSpanAppend(whole, "");
    assert whole + "" == whole;
    assert whole[..|whole|] == whole && whole[|whole|..] == "";
    if decimals != "" {
      var s := whole + "." + decimals;
      DigitSpanAppend(whole, "." + decimals);
      assert s == whole + ("." + decimals);
      assert s[..|whole|] == whole && s[|whole| + 1..] == decimals;
      DigitSpanAppend(decimals, "");
      assert decimals + "" == decimals && decimals[..|decimals|] == decimals && decimals[|decimals|..] == "";
    }
  }

  lemma {:induction false} LastZero(s: string)
    requires AllDigits(s) && s != "" && s[|s| - 1] == '0'
    ensures AllDigits(s[..|s| - 1]) && Value(s, 10) == 10 * Value(s[..|s| - 1], 10)
  {
    assert DigitValue('0') == 0;
  }

  lemma {:induction false} TenTimes(v: nat, p: nat)
    ensures v * (10 * p) == 10 * (v * p)
  {
  }

  lemma {:induction false} StripValue(s: string)
    requires AllDigits(s)
    ensures AllDigits(StripZeros(s))
    ensures Value(StripZeros(s), 10) * Pow(10, |s| - |StripZeros(s)|) == Value(s, 10)
  {
    if s != "" && s[|s| - 1] == '0' {
      var init := s[..|s| - 1];
      LastZero(s);
      StripValue(init);
      TenTimes(Value(StripZeros(init), 10), Pow(10, |init| - |StripZeros(init)|));
    } else {
      assert Pow(10, 0) == 1;
    }
  }

  lemma {:induction false} PaddedDecimals(rest: nat, places: nat)
    requires rest < Pow(10, places) && places > 0
    ensures AllDigits(PadStart(Print(rest, 10), places)) && |PadStart(Print(rest, 10), places)| == places
    ensures Value(PadStart(Print(rest, 10), places), 10) == rest
  {
    ValuePrint(rest, 10);
    PrintLength(rest, places, 10);
    ValuePadStart(Print(rest, 10), places, 10);
  }

  lemma {:induction false} NoDecimals()
    ensures Print(0, 10) == "0" && PadStart("0", 0) == "0" && StripZeros("0") == "" && Value("", 10) * Pow(10, 0) == 0
  {
    assert "0"[..0] == "";
    assert StripZeros("0") == StripZeros("0"[..0]);
  }

  lemma {:induction false} StrippedDecimals(padded: string, rest: nat, places: nat)
    requires AllDigits(padded) && |padded| == places && Value(padded, 10) == rest
    ensures |StripZeros(padded)| <= places && AllDigits(StripZeros(padded))
    ensures Value(StripZeros(padded), 10) * Pow(10, places - |StripZeros(padded)|) == rest
  {
    StripValue(padded);
  }

  /** The decimals of a printed rounding: at most `places` digits, worth `rest / 10^places`. */
  lemma {:induction false} DecimalsOf(rest: nat, places: nat) returns (decimals: string)
    requires rest < Pow(10, places)
    ensures decimals == StripZeros(PadStart(Print(rest, 10), places))
    ensures |decimals| <= places && AllDigits(decimals)
    ensures Value(decimals, 10) * Pow(10, places - |decimals|) == rest
  {
    decimals := StripZeros(PadStart(Print(rest, 10), places));
    if places == 0 {
      assert rest == 0;
      NoDecimals();
    } else {
      PaddedDecimals(rest, places);
      StrippedDecimals(PadStart(Print(rest, 10), places), rest, places);
    }
  }

  lemma {:induction false} Recombine(whole: nat, value: nat, p: nat, low: nat, f: nat)
    requires p == low * f
    ensures (whole * f + value) * p == (whole * p + value * low) * f
  {
    assert (whole * f + value) * p == whole * f * p + value * (low * f);
    assert (whole * p + value * low) * f == whole * p * f + value * low * f;
  }

  /** A fraction read from whole digits and decimals: all digits over a power of ten, unless none is positive. */
  lemma {:induction false} FractionOfPrinted(whole: string, decimals: string)
    requires whole != "" && AllDigits(whole) && AllDigits(decimals) && |decimals| <= MAX_EXPONENT
    requires whole[0] == '0' ==> |whole| == 1
    ensures
      var s := if decimals != "" then whole + "." + decimals else whole;
      var digits := Value(whole + decimals, 10);
      FractionOf(s) == if digits > 0 && |s| <= MAX_RATE_LENGTH then Some(Fraction(digits, Pow(10, |decimals|)))
          else None
  {
    ReadPrinted(whole, decimals);
    if decimals == "" {
      assert whole + decimals == whole;
    }
  }

  /** Whole digits and decimals of a rounding together are the rounding, one power of ten apart. */
  lemma {:induction false} SameRounding(rounded: nat, whole: nat, rest: nat, places: nat, decimals: string)
    requires |decimals| <= places && AllDigits(decimals)
    requires Value(decimals, 10) * Pow(10, places - |decimals|) == rest
    requires rounded == whole * Pow(10, places) + rest
    ensures
      var digits := Value(Print(whole, 10) + decimals, 10);
      digits * Pow(10, places) == rounded * Pow(10, |decimals|) && (digits == 0 <==> rounded == 0)
  {
    DigitsTogether(whole, decimals);
    PowAdd(10, places - |decimals|, |decimals|);
    SameQuotient(rounded, whole, Value(decimals, 10), Pow(10, places), Pow(10, places - |decimals|),
        Pow(10, |decimals|));
  }

  lemma {:induction false} DigitsTogether(whole: nat, decimals: string)
    requires AllDigits(decimals)
    ensures Value(Print(whole, 10) + decimals, 10) == whole * Pow(10, |decimals|) + Value(decimals, 10)
  {
    ValuePrint(whole, 10);
    ValueAppend(Print(whole, 10), decimals, 10);
  }

  lemma {:induction false} SameQuotient(rounded: nat, whole: nat, value: nat, scale: nat, low: nat, f: nat)
    requires scale == low * f && scale > 0 && f > 0 && rounded == whole * scale + value * low
    ensures (whole * f + value) * scale == rounded * f && (whole * f + value == 0 <==> rounded == 0)
  {
    Recombine(whole, value, scale, low, f);
    Digits(whole * f + value, rounded, scale, f);
  }

  lemma {:induction false} DecimalShape(n: nat, d: nat, places: nat)
      returns (rounded: nat, whole: nat, rest: nat, decimals: string)
    requires d > 0
    ensures rounded == RoundHalfUp(Shift(n, places), d) == whole * Pow(10, places) + rest
    ensures |decimals| <= places && AllDigits(decimals)
    ensures Value(decimals, 10) * Pow(10, places - |decimals|) == rest
    ensures Decimal(n, d, places) == if decimals != "" then Print(whole, 10) + "." + decimals else Print(whole, 10)
  {
    rounded := RoundHalfUp(Shift(n, places), d);
    whole, rest := rounded / Pow(10, places), rounded % Pow(10, places);
    DivMod(rounded, Pow(10, places));
    decimals := DecimalsOf(rest, places);
  }

  /**
   What `decimal` prints, `fraction` reads back as exactly the rounding, whenever
   the rounding is positive and its print fits; otherwise it throws.
   */
  lemma {:induction false} DecimalReadsBack(n: nat, d: nat, places: nat)
    requires d > 0 && places <= MAX_EXPONENT
    ensures
      var rounded := RoundHalfUp(Shift(n, places), d);
      var read := FractionOf(Decimal(n, d, places));
      && (read.Some? <==> rounded > 0 && |Decimal(n, d, places)| <= MAX_RATE_LENGTH)
      && (read.Some? ==> read.value.numerator * Pow(10, places) == rounded * read.value.denominator)
  {
    var rounded, whole, rest, decimals := DecimalShape(n, d, places);
    NumeralDigits(Print(whole, 10));
    FractionOfPrinted(Print(whole, 10), decimals);
    SameRounding(rounded, whole, rest, places, decimals);
  }

  /** `a / b` and `n / d` differ by at most half of `1 / scale`. */
  predicate IsClose(a: nat, b: nat, n: nat, d: nat, scale: nat) {
    0 - b * d <= 2 * ((a * d - n * b) * scale) <= b * d
  }

  /** A rounded rate, printed and read, is within half a unit of its last place of the rate. */
  lemma {:induction false} DecimalIsClose(n: nat, d: nat, places: nat)
    requires d > 0 && places <= MAX_EXPONENT && FractionOf(Decimal(n, d, places)).Some?
    ensures
      var f := FractionOf(Decimal(n, d, places)).value;
      IsClose(f.numerator, f.denominator, n, d, Pow(10, places))
  {
    DecimalReadsBack(n, d, places);
    RoundIsNearest(Shift(n, places), d);
    var f := FractionOf(Decimal(n, d, places)).value;
    RoundingIsClose(RoundHalfUp(Shift(n, places), d), f.numerator, f.denominator, n, d, Pow(10, places));
  }

  lemma {:induction false} RoundingIsClose(rounded: nat, a: nat, b: nat, n: nat, d: nat, scale: nat)
    requires a * scale == rounded * b && IsNearest(rounded, n * scale, d)
    ensures IsClose(a, b, n, d, scale)
  {
    HalfGap(rounded, n * scale, d);
    ScaleGap(rounded * d - n * scale, d, b);
    GapScaled(rounded, a, b, n, d, scale);
  }

  lemma {:induction false} HalfGap(rounded: nat, n: nat, d: nat)
    requires IsNearest(rounded, n, d)
    ensures 0 - d <= 2 * (rounded * d - n) <= d
  {
    assert 2 * rounded * d == 2 * (rounded * d) && 2 * (rounded + 1) * d == 2 * (rounded * d) + 2 * d;
  }

  lemma {:induction false} GapScaled(rounded: nat, a: nat, b: nat, n: nat, d: nat, scale: nat)
    requires a * scale == rounded * b
    ensures (a * d - n * b) * scale == (rounded * d - n * scale) * b
  {
    assert (a * d - n * b) * scale == (a * scale) * d - (n * scale) * b;
    assert (rounded * b) * d == (rounded * d) * b;
  }

  lemma {:induction false} ScaleGap(gap: int, d: nat, b: nat)
    requires 0 - d <= 2 * gap <= d
    ensures 0 - b * d <= 2 * (gap * b) <= b * d
  {
    assert (d - 2 * gap) * b >= 0 && (d + 2 * gap) * b >= 0;
  }

  lemma {:induction false} Digits(digits: nat, rounded: nat, scale: nat, f: nat)
    requires digits * scale == rounded * f && scale > 0 && f > 0
    ensures digits == 0 <==> rounded == 0
  {
  }

  // ------------------------------------------------------------------- amounts

  /** `formatDisplayUnits` without its currency, of `decimals` from 0 to 8. */
  function FormatUnits(units: nat, decimals: nat): string {
    var digits := PadStart(Print(units, 10), decimals + 1);
    if decimals == 0 then digits else
      PadLength(Print(units, 10), decimals + 1);
      digits[..|digits| - decimals] + "." + digits[|digits| - decimals..]
  }

  lemma {:induction false} PadLength(s: string, width: nat)
    ensures |PadStart(s, width)| >= width
  {
  }

  /** The printed digits read back to exactly `units / 10^decimals`. */
  lemma {:induction false} FormatReadsBack(units: nat, decimals: nat)
    ensures
      var r := ReadRate(FormatUnits(units, decimals));
      r.Rate? && r.exponent == 0 && |r.decimals| == decimals && Value(r.whole + r.decimals, 10) == units
  {
    var printed := Print(units, 10);
    var digits := PadStart(printed, decimals + 1);
    ValuePrint(units, 10);
    ValuePadStart(printed, decimals + 1, 10);
    NumeralDigits(digits);
    var k := |digits| - decimals;
    var whole, rest := digits[..k], digits[k..];
    assert whole + rest == digits;
    if |printed| < decimals + 1 {
      RepeatMembers('0', decimals + 1 - |printed|);
    }
    ReadPrinted(whole, rest);
    if decimals == 0 {
      assert whole == digits;
    }
  }

  lemma {:induction false} FormatInjective(a: nat, b: nat, decimals: nat)
    requires FormatUnits(a, decimals) == FormatUnits(b, decimals)
    ensures a == b
  {
    FormatReadsBack(a, decimals);
    FormatReadsBack(b, decimals);
  }

  // ---------------------------------------------------------------- conversion

  datatype Currency = USD | EUR | FAIR

  /** A payment is in dollars or FairCoin. */
  type PaidCurrency = c: Currency | c != EUR witness USD

  function Name(c: Currency): string {
    match c
    case USD => "USD"
    case EUR => "EUR"
    case FAIR => "FAIR"
  }

  function Decimals(c: Currency): nat {
    if c == FAIR then 8 else 2
  }

  /** `Date.parse`: milliseconds, or NaN. */
  datatype Instant = NotADate | At(ms: int)

  datatype Reference = Reference(usdPerEur: string, observed: Instant, expires: Instant)

  datatype Rates = Rates(usdPerFair: string, reference: Option<Reference>, observed: Instant, expires: Instant)

  const ECB_RATE_MAX_AGE_MS := 4 * 24 * 60 * 60 * 1000

  predicate RatesAreFresh(r: Rates, now: int) {
    && r.observed.At? && r.expires.At?
    && now - 120_000 <= r.observed.ms <= now + 1000
    && now < r.expires.ms <= r.observed.ms + 120_000
  }

  predicate ReferenceIsFresh(r: Reference, now: int) {
    && r.observed.At? && r.expires.At?
    && now - ECB_RATE_MAX_AGE_MS <= r.observed.ms <= now + 1000
    && r.expires.ms > now && r.expires.ms == r.observed.ms + ECB_RATE_MAX_AGE_MS
  }

  /** `convertDisplayAmount` throws, answers `null`, or shows a text. */
  datatype Outcome = Throws | Unavailable | Shown(text: string)

  function Show(units: nat, c: Currency): Outcome {
    Shown(FormatUnits(units, Decimals(c)) + " " + Name(c))
  }

  function SourceScale(c: PaidCurrency): nat {
    if c == FAIR then 100_000_000 else 100
  }

  type Positive = f: Fraction | f.numerator > 0 && f.denominator > 0 witness Fraction(1, 1)

  function Times(a: Fraction, b: Fraction): Fraction {
    Fraction(a.numerator * b.numerator, a.denominator * b.denominator)
  }

  function Inverse(a: Fraction): Fraction {
    Fraction(a.denominator, a.numerator)
  }

  /** The units the destination shows for `units` of the source, as the code multiplies them out. */
  function TargetUnits(units: nat, from: PaidCurrency, to: Currency, usdPerFair: Positive, usdPerEur: Positive): nat {
    var numerator: nat :=
      match to
      case EUR => Product4(units, if from == FAIR then usdPerFair.numerator else 1, usdPerEur.denominator, 100)
      case FAIR => Product4(units, 1, 100_000_000, if from == USD then usdPerFair.denominator else 1)
      case USD => Product4(units, usdPerFair.numerator, 100, if from == USD then usdPerFair.denominator else 1);
    var denominator: nat :=
      match to
      case EUR => Product3(SourceScale(from), if from == FAIR then usdPerFair.denominator else 1, usdPerEur.numerator)
      case FAIR => Product3(SourceScale(from), 1, if from == USD then usdPerFair.numerator else 1)
      case USD => Product3(SourceScale(from), usdPerFair.denominator, if from == USD then usdPerFair.numerator else 1);
    RoundHalfUp(numerator, denominator)
  }

  function Product3(a: nat, b: nat, c: nat): (p: nat)
    ensures a > 0 && b > 0 && c > 0 ==> p > 0
  {
    a * b * c
  }

  function Product4(a: nat, b: nat, c: nat, d: nat): nat {
    a * b * c * d
  }

  /** `/^(0|[1-9][0-9]*)$/` */
  predicate IsAmount(s: string) {
    s != "" && AllDigits(s) && (s[0] == '0' ==> |s| == 1)
  }

  const MAX_AMOUNT_LENGTH := 30

  function Convert(units: string, from: PaidCurrency, to: Currency, rates: Option<Rates>, now: int): Outcome {
    ConvertAt(units, from, to, rates, now, UsdPerFair(rates), UsdPerEur(rates))
  }

  function UsdPerFair(rates: Option<Rates>): Option<Fraction> {
    if rates.None? then None else FractionOf(rates.value.usdPerFair)
  }

  function UsdPerEur(rates: Option<Rates>): Option<Fraction> {
    if rates.None? || rates.value.reference.None? then None else FractionOf(rates.value.reference.value.usdPerEur)
  }

  function ConvertAt(units: string, from: PaidCurrency, to: Currency, rates: Option<Rates>, now: int,
      usdPerFair: Option<Fraction>, usdPerEur: Option<Fraction>): Outcome {
    if !IsAmount(units) || |units| > MAX_AMOUNT_LENGTH then Throws else
      var n := Value(units, 10);
      if from == to || n == 0 then Show(n, to)
      else if rates.None? || !RatesAreFresh(rates.value, now) then Unavailable
      else if to == EUR then
        var reference := rates.value.reference;
        if reference.None? || !ReferenceIsFresh(reference.value, now) then Unavailable
        else ShowAt(n, from, to, usdPerFair, usdPerEur)
      else ShowAt(n, from, to, usdPerFair, Some(Fraction(1, 1)))
  }

  function ShowAt(units: nat, from: PaidCurrency, to: Currency, usdPerFair: Option<Fraction>,
      usdPerEur: Option<Fraction>): Outcome {
    if usdPerFair.Some? && usdPerEur.Some? && IsPositive(usdPerFair.value) && IsPositive(usdPerEur.value) then
      Show(TargetUnits(units, from, to, usdPerFair.value, usdPerEur.value), to)
    else Throws
  }

  predicate IsPositive(f: Fraction) {
    f.numerator > 0 && f.denominator > 0
  }

  /** The exact amount in the destination's units: through dollars, at the exact rates. */
  function ExactUnits(units: nat, from: PaidCurrency, to: Currency, usdPerFair: Positive,
      usdPerEur: Positive): Fraction {
    var dollars := if from == FAIR then Times(Fraction(units, 100_000_000), usdPerFair) else Fraction(units, 100);
    var amount :=
      match to
      case USD => dollars
      case EUR => Times(dollars, Inverse(usdPerEur))
      case FAIR => Times(dollars, Inverse(usdPerFair));
    Times(amount, Fraction(Pow(10, Decimals(to)), 1))
  }

  lemma {:induction false} Powers()
    ensures Pow(10, 2) == 100 && Pow(10, 8) == 100_000_000
  {
    assert Pow(10, 4) == 10_000;
    PowAdd(10, 4, 4);
  }

  /** The shown units are the ones nearest the exact amount, a tie rounded up: one rounding only. */
  lemma {:induction false} TargetIsNearest(units: nat, from: PaidCurrency, to: Currency, usdPerFair: Positive,
      usdPerEur: Positive)
    requires from != to
    ensures
      var exact := ExactUnits(units, from, to, usdPerFair, usdPerEur);
      IsNearest(TargetUnits(units, from, to, usdPerFair, usdPerEur), exact.numerator, exact.denominator)
  {
    Powers();
    var n, d := usdPerFair.numerator, usdPerFair.denominator;
    var en, ed := usdPerEur.numerator, usdPerEur.denominator;
    if to == EUR && from == FAIR {
      RoundIsNearest(Product4(units, n, ed, 100), Product3(100_000_000, d, en));
    } else if to == EUR {
      RoundIsNearest(Product4(units, 1, ed, 100), Product3(100, 1, en));
    } else if to == FAIR {
      RoundIsNearest(Product4(units, 1, 100_000_000, d), Product3(100, 1, n));
      Commute(units, d);
    } else {
      RoundIsNearest(Product4(units, n, 100, 1), Product3(100_000_000, d, 1));
    }
  }

  lemma {:induction false} Commute(units: nat, d: nat)
    ensures units * 1 * 100_000_000 * d == units * d * 100_000_000
  {
  }

  lemma {:induction false} TargetMonotone(small: nat, large: nat, from: PaidCurrency, to: Currency,
      usdPerFair: Positive, usdPerEur: Positive)
    requires small <= large && from != to
    ensures TargetUnits(small, from, to, usdPerFair, usdPerEur) <= TargetUnits(large, from, to, usdPerFair, usdPerEur)
  {
    TargetIsNearest(small, from, to, usdPerFair, usdPerEur);
    TargetIsNearest(large, from, to, usdPerFair, usdPerEur);
    var x := ExactUnits(small, from, to, usdPerFair, usdPerEur);
    var y := ExactUnits(large, from, to, usdPerFair, usdPerEur);
    ExactMonotone(small, large, from, to, usdPerFair, usdPerEur);
    NearestMonotone(TargetUnits(small, from, to, usdPerFair, usdPerEur), x.numerator,
                    TargetUnits(large, from, to, usdPerFair, usdPerEur), y.numerator, x.denominator);
  }

  lemma {:induction false} ExactMonotone(small: nat, large: nat, from: PaidCurrency, to: Currency,
      usdPerFair: Positive, usdPerEur: Positive)
    requires small <= large
    ensures
      var x, y := ExactUnits(small, from, to, usdPerFair, usdPerEur),
          ExactUnits(large, from, to, usdPerFair, usdPerEur);
      x.numerator <= y.numerator && x.denominator == y.denominator > 0
  {
    Powers();
    var n, d := usdPerFair.numerator, usdPerFair.denominator;
    var en, ed := usdPerEur.numerator, usdPerEur.denominator;
    MulMonotone(small, large, n);
    MulMonotone(small, large, ed);
    MulMonotone(small, large, d);
    MulMonotone(small * n, large * n, ed);
    MulMonotone(small * n, large * n, d);
  }

  lemma {:induction false} NearestMonotone(r: nat, n: nat, s: nat, m: nat, d: nat)
    requires d > 0 && n <= m && IsNearest(r, n, d) && IsNearest(s, m, d)
    ensures r <= s
  {
    if s < r {
      MulMonotone(2 * (s + 1), 2 * r, d);
    }
  }

  /** The rates a shown conversion was made at. */
  predicate ConvertsAt(rates: Rates, to: Currency, usdPerFair: Fraction, usdPerEur: Fraction) {
    && FractionOf(rates.usdPerFair) == Some(usdPerFair)
    && if to == EUR then rates.reference.Some? && FractionOf(rates.reference.value.usdPerEur) == Some(usdPerEur)
       else usdPerEur == Fraction(1, 1)
  }

  /** A shown amount in another currency is the exact amount at fresh rates, rounded once. */
  lemma {:induction false} ConvertShowsNearest(units: string, from: PaidCurrency, to: Currency, rates: Option<Rates>,
      now: int)
    requires Convert(units, from, to, rates, now).Shown?
    ensures IsAmount(units) && |units| <= MAX_AMOUNT_LENGTH
    ensures from == to || Value(units, 10) == 0 ==>
      Convert(units, from, to, rates, now) == Show(Value(units, 10), to)
    ensures from != to && Value(units, 10) > 0 ==>
      && rates.Some? && RatesAreFresh(rates.value, now)
      && (to == EUR ==> rates.value.reference.Some? && ReferenceIsFresh(rates.value.reference.value, now))
      && exists usdPerFair: Positive, usdPerEur: Positive ::
           && ConvertsAt(rates.value, to, usdPerFair, usdPerEur)
           && var exact := ExactUnits(Value(units, 10), from, to, usdPerFair, usdPerEur);
              exact.denominator > 0
              && Convert(units, from, to, rates, now) == Show(RoundHalfUp(exact.numerator, exact.denominator), to)
  {
    if from != to && Value(units, 10) > 0 {
      var n := Value(units, 10);
      var usdPerFair: Positive := FractionOf(rates.value.usdPerFair).value;
      var usdPerEur: Positive :=
        if to == EUR then FractionOf(rates.value.reference.value.usdPerEur).value else Fraction(1, 1);
      var exact := ExactUnits(n, from, to, usdPerFair, usdPerEur);
      TargetIsNearest(n, from, to, usdPerFair, usdPerEur);
      ExactMonotone(n, n, from, to, usdPerFair, usdPerEur);
      RoundIsNearest(exact.numerator, exact.denominator);
      NearestUnique(TargetUnits(n, from, to, usdPerFair, usdPerEur), RoundHalfUp(exact.numerator, exact.denominator),
                    exact.numerator, exact.denominator);
      assert ConvertsAt(rates.value, to, usdPerFair, usdPerEur);
    }
  }

  // ---------------------------------------------------------------- round trip

  /** Dollars' cents in FairCoin units, and FairCoin units in cents, at one rate. */
  function FairOf(cents: nat, rate: Positive): nat {
    TargetUnits(cents, USD, FAIR, rate, Fraction(1, 1))
  }

  function CentsOf(fair: nat, rate: Positive): nat {
    TargetUnits(fair, FAIR, USD, rate, Fraction(1, 1))
  }

  /** Within half a step: `2 f n` lies within `n` of `2 u m`, where `m` is a million denominators. */
  lemma {:induction false} FairBounds(cents: nat, rate: Positive)
    ensures
      var f, n, m := FairOf(cents, rate), rate.numerator, 1_000_000 * rate.denominator;
      2 * (cents * m) < 2 * (f * n) + n && 2 * (f * n) <= 2 * (cents * m) + n
  {
    var n, d := rate.numerator, rate.denominator;
    RoundIsNearest(Product4(cents, 1, 100_000_000, d), Product3(100, 1, n));
    FairScale(cents, FairOf(cents, rate), n, d);
  }

  lemma {:induction false} FairScale(cents: nat, f: nat, n: nat, d: nat)
    ensures 2 * f * (100 * 1 * n) == 200 * (f * n)
    ensures 2 * (f + 1) * (100 * 1 * n) == 200 * (f * n) + 200 * n
    ensures cents * 1 * 100_000_000 * d == 100 * (cents * (1_000_000 * d))
  {
  }

  lemma {:induction false} CentsAre(fair: nat, cents: nat, rate: Positive)
    requires
      var n, m := rate.numerator, 1_000_000 * rate.denominator;
      2 * (cents * m) <= 2 * (fair * n) + m && 2 * (fair * n) < 2 * (cents * m) + m
    ensures CentsOf(fair, rate) == cents
  {
    var n, d := rate.numerator, rate.denominator;
    var num, den := Product4(fair, n, 100, 1), Product3(100_000_000, d, 1);
    RoundIsNearest(num, den);
    assert 2 * cents * den == 200 * (cents * (1_000_000 * d));
    assert 2 * (cents + 1) * den == 200 * (cents * (1_000_000 * d)) + 200 * (1_000_000 * d);
    assert num == 100 * (fair * n);
    NearestUnique(CentsOf(fair, rate), cents, num, den);
  }

  lemma {:induction false} HalfStep(u: nat, f: nat, n: nat)
    requires n > 0 && 2 * (f * n) <= 2 * (u * n) + n
    ensures f <= u && f * n <= u * n
  {
    if f > u {
      MulMonotone(u + 1, f, n);
    } else {
      MulMonotone(f, u, n);
    }
  }

  /** At most a million dollars per FairCoin, every amount of cents comes back. */
  lemma {:induction false} RoundTrip(cents: nat, rate: Positive)
    requires rate.numerator <= 1_000_000 * rate.denominator
    ensures CentsOf(FairOf(cents, rate), rate) == cents
  {
    var f, n := FairOf(cents, rate), rate.numerator;
    FairBounds(cents, rate);
    if n == 1_000_000 * rate.denominator {
      HalfStep(cents, f, n);
    }
    CentsAre(f, cents, rate);
  }

  lemma {:induction false} FairGrows(cents: nat, rate: Positive)
    requires forall c :: 0 <= c <= cents ==> CentsOf(FairOf(c, rate), rate) == c
    ensures FairOf(cents, rate) >= cents
  {
    if cents > 0 {
      FairGrows(cents - 1, rate);
      TargetMonotone(cents - 1, cents, USD, FAIR, rate, Fraction(1, 1));
      assert CentsOf(FairOf(cents - 1, rate), rate) == cents - 1;
    }
  }

  /** Above a million dollars per FairCoin some amount, at most the rate's numerator, is lost. */
  lemma {:induction false} RoundTripFails(rate: Positive)
    requires rate.numerator > 1_000_000 * rate.denominator
    ensures exists cents: nat :: cents <= rate.numerator && CentsOf(FairOf(cents, rate), rate) != cents
  {
    var n, m := rate.numerator, 1_000_000 * rate.denominator;
    if forall cents: nat :: cents <= n ==> CentsOf(FairOf(cents, rate), rate) == cents {
      FairGrows(n, rate);
      FairBounds(n, rate);
      HalfStep(m, FairOf(n, rate), n);
    }
  }

  /** At three million dollars per FairCoin one cent comes back as none. */
  lemma {:induction false} RoundTripLosesCent()
    ensures CentsOf(FairOf(1, Fraction(3_000_000, 1)), Fraction(3_000_000, 1)) == 0
  {
    assert FairOf(1, Fraction(3_000_000, 1)) == RoundHalfUp(100_000_000, 300_000_000);
  }

  /** The dollars round trip is exact for all amounts at exactly the rates of at most a million dollars per FairCoin. */
  lemma {:induction false} RoundTripIff(rate: Positive)
    ensures rate.numerator <= 1_000_000 * rate.denominator <==>
      forall cents: nat :: CentsOf(FairOf(cents, rate), rate) == cents
  {
    if rate.numerator <= 1_000_000 * rate.denominator {
      forall cents: nat ensures CentsOf(FairOf(cents, rate), rate) == cents {
        RoundTrip(cents, rate);
      }
    } else {
      RoundTripFails(rate);
    }
  }

  /** What one conversion shows, the other turns back, on the texts a caller sees. */
  lemma {:induction false} RoundTripShown(cents: nat, rate: Positive, rates: Rates, now: int)
    requires RatesAreFresh(rates, now) && FractionOf(rates.usdPerFair) == Some(rate)
    requires rate.numerator <= 1_000_000 * rate.denominator
    requires |Print(cents, 10)| <= MAX_AMOUNT_LENGTH && |Print(FairOf(cents, rate), 10)| <= MAX_AMOUNT_LENGTH
    ensures Convert(Print(cents, 10), USD, FAIR, Some(rates), now) == Show(FairOf(cents, rate), FAIR)
    ensures Convert(Print(FairOf(cents, rate), 10), FAIR, USD, Some(rates), now) == Show(cents, USD)
  {
    RoundTrip(cents, rate);
    ConvertPrinted(cents, USD, FAIR, rate, rates, now);
    ConvertPrinted(FairOf(cents, rate), FAIR, USD, rate, rates, now);
  }

  /** An amount in digits, at fresh rates. */
  lemma {:induction false} ConvertAmount(text: string, from: PaidCurrency, to: PaidCurrency, rate: Positive,
      rates: Rates, now: int, usdPerEur: Option<Fraction>)
    requires RatesAreFresh(rates, now) && from != to
    requires IsAmount(text) && |text| <= MAX_AMOUNT_LENGTH
    ensures ConvertAt(text, from, to, Some(rates), now, Some(rate), usdPerEur)
      == if Value(text, 10) == 0 then Show(0, to)
          else Show(TargetUnits(Value(text, 10), from, to, rate, Fraction(1, 1)), to)
  {
  }

  lemma {:induction false} PrintedAmount(units: nat)
    ensures IsAmount(Print(units, 10)) && Value(Print(units, 10), 10) == units
  {
    ValuePrint(units, 10);
    NumeralDigits(Print(units, 10));
  }

  lemma {:induction false} ConvertPrinted(units: nat, from: PaidCurrency, to: PaidCurrency, rate: Positive,
      rates: Rates, now: int)
    requires RatesAreFresh(rates, now) && FractionOf(rates.usdPerFair) == Some(rate) && from != to
    requires |Print(units, 10)| <= MAX_AMOUNT_LENGTH
    ensures Convert(Print(units, 10), from, to, Some(rates), now)
      == Show(TargetUnits(units, from, to, rate, Fraction(1, 1)), to)
  {
    PrintedAmount(units);
    ConvertAmount(Print(units, 10), from, to, rate, rates, now, UsdPerEur(Some(rates)));
    ZeroConverts(from, to, rate);
  }

  lemma {:induction false} ZeroConverts(from: PaidCurrency, to: PaidCurrency, rate: Positive)
    requires from != to
    ensures TargetUnits(0, from, to, rate, Fraction(1, 1)) == 0
  {
    ZeroStays(rate);
  }

  lemma {:induction false} ZeroStays(rate: Positive)
    ensures FairOf(0, rate) == 0 && CentsOf(0, rate) == 0
  {
    FairBounds(0, rate);
    if FairOf(0, rate) > 0 {
      MulMonotone(1, FairOf(0, rate), rate.numerator);
    }
    CentsAre(0, 0, rate);
  }
}
