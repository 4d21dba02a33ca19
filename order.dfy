/**
  The order record. Product id and value are kept as the normalised text
  the decoder produces (digits without leading zeros; a decimal with '.'),
  rather than as the JavaScript numbers they are converted to.
*/
module OrderModel {
  import opened Wrappers
  import opened JsString

  datatype Order = Order(
    userId: string,
    userName: string,
    orderId: string,
    prodId: string,
    value: string,
    date: string)

  /**
    `Number(prodId)` for the product ids the decoder produces: a reading
    exists when the text is all decimal digits. Without a leading zero, the
    number reads back as the same text and is at least 1.
  */
  function ProdIdNumber(o: Order): (r: Option<nat>)
    ensures r.Some? <==> forall k :: 0 <= k < |o.prodId| ==> IsDigit(o.prodId[k])
    ensures r.Some? && o.prodId != [] && o.prodId[0] != '0' ==>
      DecimalString(r.value) == o.prodId && r.value >= 1
    ensures r.Some? && StripLeadingZeros(o.prodId) != [] ==>
      DecimalString(r.value) == StripLeadingZeros(o.prodId) && r.value >= 1
    ensures r.Some? && StripLeadingZeros(o.prodId) == [] ==> r.value == 0
  {
    if forall k :: 0 <= k < |o.prodId| ==> IsDigit(o.prodId[k]) then
      var n := DigitsValue(o.prodId);
      DigitsIgnoreLeadingZeros(o.prodId);
      Some(n)
    else None
  }

  /** An all-digit id denotes the same number as the id with its leading zeros stripped. */
  lemma DigitsIgnoreLeadingZeros(s: string)
    requires forall k :: 0 <= k < |s| ==> IsDigit(s[k])
    ensures var d := StripLeadingZeros(s);
      && (d != [] ==> DecimalString(DigitsValue(s)) == d && DigitsValue(s) >= 1)
      && (d == [] ==> DigitsValue(s) == 0)
  {
    var d := StripLeadingZeros(s);
    DigitsValueSkipsZeros(s, |s| - |d|);
    if d != [] {
      DecimalStringOfDigits(d);
    }
  }

  /** A product id made only of zeros reads as the number 0. */
  lemma ZeroProductReadsAsZero(o: Order)
    requires o.prodId == Repeat('0', |o.prodId|)
    ensures ProdIdNumber(o) == Some(0)
  {
    DigitsValueOfZeros(|o.prodId|);
  }
}
