/**
 * The conversion step of the currency converter: three user-entered strings
 * (amount, source code, target code) are validated in a fixed order, the rate
 * is the ratio of the two table rates, and each successful conversion appends
 * one row to the `history` ledger.
 */
module Conversion {
  import opened Wrappers
  import opened RateTable

  /** Why a conversion was refused, in the order the checks are made. */
  datatype ConvertError =
    | MissingField      // "Please fill in all fields"
    | InvalidAmount     // "Invalid amount"
    | ConversionFailed  // "Invalid currency code or rate not found"

  /** The columns of one `history` row other than its id. */
  datatype Record = Record(
    amount: real,
    fromCurrency: string,
    toCurrency: string,
    rate: real,
    convertedAmount: real,
    timestamp: string)

  /** A ledger row: the id the database assigned and the record stored under it. */
  datatype Row = Row(id: nat, rec: Record)

  /** The rate from one listed currency to another: the factor that turns the source's rate into the target's. */
  function CrossRate(rates: Table, fromCode: string, toCode: string): (r: real)
    requires HasCode(rates, fromCode) && HasCode(rates, toCode)
    requires Get(rates, fromCode) != 0.0
    ensures r * Get(rates, fromCode) == Get(rates, toCode)
  {
    Get(rates, toCode) / Get(rates, fromCode)
  }

  /**
   * The division by the source rate is defined whenever the conversion gets
   * that far: all fields filled in, the amount parsed and the target listed.
   */
  predicate DivisionDefined(amountText: string, fromCode: string, toCode: string, rates: Table,
                            parse: string -> Option<real>)
  {
    (amountText != [] && fromCode != [] && toCode != [] && parse(amountText) != None && HasCode(rates, toCode))
    ==> NonZeroRateOf(rates, fromCode)
  }

  /**
   * The outcome of converting `amountText` from `fromCode` to `toCode`.
   * `parse` stands for the language's float parser and `timestamp` for the
   * clock reading taken at the time of the conversion.
   */
  function ConvertCurrency(amountText: string, fromCode: string, toCode: string, rates: Table,
                           parse: string -> Option<real>, timestamp: string): (r: Result<Record, ConvertError>)
    requires DivisionDefined(amountText, fromCode, toCode, rates, parse)
    ensures r == Failure(MissingField) <==> amountText == [] || fromCode == [] || toCode == []
    ensures r == Failure(InvalidAmount) <==>
      amountText != [] && fromCode != [] && toCode != [] && parse(amountText) == None
    ensures r == Failure(ConversionFailed) <==>
      amountText != [] && fromCode != [] && toCode != [] && parse(amountText) != None &&
      !(HasCode(rates, fromCode) && HasCode(rates, toCode))
    ensures r.Success? ==>
      && HasCode(rates, fromCode) && HasCode(rates, toCode)
      && parse(amountText) == Some(r.value.amount)
      && r.value.fromCurrency == fromCode && r.value.toCurrency == toCode
      && r.value.rate * Get(rates, fromCode) == Get(rates, toCode)
      && r.value.convertedAmount == r.value.amount * r.value.rate
      && r.value.timestamp == timestamp
  {
    if amountText == [] || fromCode == [] || toCode == [] then Failure(MissingField)
    else
      var parsed := parse(amountText);
      if parsed.None? then Failure(InvalidAmount)
      else if |rates| > 0 && HasCode(rates, fromCode) && HasCode(rates, toCode) then
        var amount := parsed.value;
        var rate := CrossRate(rates, fromCode, toCode);
        Success(Record(amount, fromCode, toCode, rate, amount * rate, timestamp))
      else
        Failure(ConversionFailed)
  }

  /** The emptiness test on the table is subsumed by the two membership tests. */
  lemma EmptyTableFails(amountText: string, fromCode: string, toCode: string,
                        parse: string -> Option<real>, timestamp: string)
    requires amountText != [] && fromCode != [] && toCode != [] && parse(amountText) != None
    ensures ConvertCurrency(amountText, fromCode, toCode, [], parse, timestamp) == Failure(ConversionFailed)
  {
  }

  /** Zero and negative amounts go through: nothing checks the sign. */
  lemma AnySignAccepted(amountText: string, fromCode: string, toCode: string, rates: Table,
                        parse: string -> Option<real>, timestamp: string, amount: real)
    requires NonZeroRateOf(rates, fromCode)
    requires amountText != [] && fromCode != [] && toCode != []
    requires parse(amountText) == Some(amount) && amount <= 0.0
    requires HasCode(rates, fromCode) && HasCode(rates, toCode)
    ensures ConvertCurrency(amountText, fromCode, toCode, rates, parse, timestamp).Success?
    ensures ConvertCurrency(amountText, fromCode, toCode, rates, parse, timestamp).value.amount == amount
  {
  }

  /** Converting a currency to itself has rate 1 and returns the amount unchanged. */
  lemma SameCurrencyIsIdentity(amountText: string, code: string, rates: Table,
                               parse: string -> Option<real>, timestamp: string)
    requires NonZeroRateOf(rates, code)
    requires ConvertCurrency(amountText, code, code, rates, parse, timestamp).Success?
    ensures ConvertCurrency(amountText, code, code, rates, parse, timestamp).value.rate == 1.0
    ensures ConvertCurrency(amountText, code, code, rates, parse, timestamp).value.convertedAmount
            == ConvertCurrency(amountText, code, code, rates, parse, timestamp).value.amount
  {
    var rec := ConvertCurrency(amountText, code, code, rates, parse, timestamp).value;
    var g := Get(rates, code);
    assert rec.rate * g == g && g != 0.0;
    assert (rec.rate - 1.0) * g == 0.0;
  }

  /**
   * Converting a result back to the original currency gives the original
   * amount: the rates a->b and b->a are reciprocal.
   */
  lemma RoundTrip(s1: string, s2: string, a: string, b: string, rates: Table,
                  parse: string -> Option<real>, t1: string, t2: string)
    requires NonZeroRateOf(rates, a) && NonZeroRateOf(rates, b)
    requires ConvertCurrency(s1, a, b, rates, parse, t1).Success?
    requires parse(s2) == Some(ConvertCurrency(s1, a, b, rates, parse, t1).value.convertedAmount)
    requires s2 != []
    ensures ConvertCurrency(s2, b, a, rates, parse, t2).Success?
    ensures ConvertCurrency(s2, b, a, rates, parse, t2).value.convertedAmount
            == ConvertCurrency(s1, a, b, rates, parse, t1).value.amount
  {
    var there := ConvertCurrency(s1, a, b, rates, parse, t1).value;
    var back := ConvertCurrency(s2, b, a, rates, parse, t2).value;
    ReciprocalFactors(there.rate, back.rate, Get(rates, a), Get(rates, b));
    assert back.convertedAmount == there.amount * there.rate * back.rate;
    assert there.amount * there.rate * back.rate == there.amount * (there.rate * back.rate);
  }

  /** Two factors that carry `x` to `y` and `y` back to `x` multiply to 1. */
  lemma ReciprocalFactors(f: real, g: real, x: real, y: real)
    requires f * x == y && g * y == x && y != 0.0
    ensures f * g == 1.0
  {
    assert f * g * y == f * x;
    assert (f * g - 1.0) * y == 0.0;
  }

  /**
   * A zero rate for the target currency is not refused: the conversion
   * succeeds with rate 0 and converted amount 0.
   */
  lemma ZeroTargetRateConverts(amountText: string, fromCode: string, toCode: string, rates: Table,
                               parse: string -> Option<real>, timestamp: string)
    requires NonZeroRateOf(rates, fromCode)
    requires amountText != [] && fromCode != [] && toCode != [] && parse(amountText) != None
    requires HasCode(rates, fromCode) && HasCode(rates, toCode) && Get(rates, toCode) == 0.0
    ensures ConvertCurrency(amountText, fromCode, toCode, rates, parse, timestamp).Success?
    ensures ConvertCurrency(amountText, fromCode, toCode, rates, parse, timestamp).value.rate == 0.0
    ensures ConvertCurrency(amountText, fromCode, toCode, rates, parse, timestamp).value.convertedAmount == 0.0
  {
    var rec := ConvertCurrency(amountText, fromCode, toCode, rates, parse, timestamp).value;
    assert rec.rate * Get(rates, fromCode) == 0.0;
  }

  /** The example table USD 1.0, EUR 0.9, INR 83.0. */
  function SampleRates(): Table
  {
    [("USD", 1.0), ("EUR", 0.9), ("INR", 83.0)]
  }

  /** 10 USD is 9 EUR at rate 0.9. */
  lemma UsdToEurExample(parse: string -> Option<real>, timestamp: string)
    requires parse("10") == Some(10.0)
    ensures NonZeroRateOf(SampleRates(), "USD")
    ensures ConvertCurrency("10", "USD", "EUR", SampleRates(), parse, timestamp)
            == Success(Record(10.0, "USD", "EUR", 0.9, 9.0, timestamp))
  {
    var t := SampleRates();
    assert Codes(t) == ["USD", "EUR", "INR"];
    assert Get(t, "USD") == 1.0;
    assert Get(t, "EUR") == 0.9;
  }

  /** 100 INR is 100/83 USD. */
  lemma InrToUsdExample(parse: string -> Option<real>, timestamp: string)
    requires parse("100") == Some(100.0)
    ensures NonZeroRateOf(SampleRates(), "INR")
    ensures ConvertCurrency("100", "INR", "USD", SampleRates(), parse, timestamp)
            == Success(Record(100.0, "INR", "USD", 1.0 / 83.0, 100.0 / 83.0, timestamp))
  {
    var t := SampleRates();
    assert Codes(t) == ["USD", "EUR", "INR"];
    assert Get(t, "USD") == 1.0;
    assert Get(t, "INR") == 83.0;
  }
}
