/** Price arithmetic and the guards of the display helpers. A JavaScript number is a
    real or NaN; the infinities and the rounding of binary floating point are not part
    of this model, and `toFixed` is a parameter. */
module PriceFormatting {
  import opened Wrappers
  import opened JsValue

  datatype Number = Finite(value: real) | NaN

  /** `Number(v)`: booleans become 1 or 0, null 0, undefined NaN; string-to-number
      conversion is the parameter `parse`. Arrays and objects are taken as NaN. */
  function ToNumber(v: Option<Json>, parse: string -> Number): Number {
    match v
    case None => NaN
    case Some(JNull) => Finite(0.0)
    case Some(JBool(b)) => Finite(if b then 1.0 else 0.0)
    case Some(JNumber(n)) => Finite(n)
    case Some(JString(s)) => parse(s)
    case Some(_) => NaN
  }

  /** `Number(x) || 0`: NaN (and 0) become 0. */
  function OrZero(x: Number): real {
    if x.NaN? then 0.0 else x.value
  }

  /** `calculateFinalPrice(price, shipping, couponValue)`: `Math.max(p + s - c, 0)`. */
  function CalculateFinalPrice(price: Number, shipping: Number, coupon: Number): (r: real)
    ensures r >= 0.0
    ensures r >= OrZero(price) + OrZero(shipping) - OrZero(coupon)
    ensures r == 0.0 || r == OrZero(price) + OrZero(shipping) - OrZero(coupon)
  {
    var total := OrZero(price) + OrZero(shipping) - OrZero(coupon);
    if total > 0.0 then total else 0.0
  }

  /** The final price is the sum when that is not negative, and 0 otherwise. */
  lemma FinalPriceCases(p: real, s: real, c: real)
    ensures p + s - c >= 0.0 ==> CalculateFinalPrice(Finite(p), Finite(s), Finite(c)) == p + s - c
    ensures p + s - c < 0.0 ==> CalculateFinalPrice(Finite(p), Finite(s), Finite(c)) == 0.0
  {
  }

  /** A value that is not a number counts as 0. */
  lemma NaNCountsAsZero(x: Number, y: Number)
    ensures CalculateFinalPrice(NaN, x, y) == CalculateFinalPrice(Finite(0.0), x, y)
    ensures CalculateFinalPrice(x, NaN, y) == CalculateFinalPrice(x, Finite(0.0), y)
    ensures CalculateFinalPrice(x, y, NaN) == CalculateFinalPrice(x, y, Finite(0.0))
  {
  }

  /** More price or shipping never lowers the final price; more coupon never raises it. */
  lemma FinalPriceMonotone(p: real, s: real, c: real, p': real, s': real, c': real)
    requires p <= p' && s <= s' && c' <= c
    ensures CalculateFinalPrice(Finite(p), Finite(s), Finite(c)) <= CalculateFinalPrice(Finite(p'), Finite(s'), Finite(c'))
  {
  }

  const Unavailable := "غير متوفر"
  const DollarSuffix := " دولار أمريكي"
  const PercentSign := "٪"

  /** `value == null || isNaN(value)`: null, undefined, or a value `Number` makes NaN. */
  predicate NotANumber(value: Option<Json>, parse: string -> Number) {
    value.None? || value == Some(JNull) || ToNumber(value, parse).NaN?
  }

  /** `formatCurrencyUSD(value)`: two decimals and the dollar label, or the fixed
      "unavailable" text. */
  function FormatCurrencyUSD(value: Option<Json>, parse: string -> Number, toFixed: (Number, nat) -> string): (r: string)
    ensures r == Unavailable <==> NotANumber(value, parse)
  {
    if NotANumber(value, parse) then Unavailable
    else
      var text := toFixed(ToNumber(value, parse), 2) + DollarSuffix;
      assert text[|text| - 1] != Unavailable[|Unavailable| - 1];
      text
  }

  /** `formatPercentage(value)`: no decimals and the Arabic percent sign, or the fixed
      "unavailable" text. */
  function FormatPercentage(value: Option<Json>, parse: string -> Number, toFixed: (Number, nat) -> string): (r: string)
    ensures r == Unavailable <==> NotANumber(value, parse)
  {
    if NotANumber(value, parse) then Unavailable
    else
      var text := toFixed(ToNumber(value, parse), 0) + PercentSign;
      assert text[|text| - 1] != Unavailable[|Unavailable| - 1];
      text
  }
}
