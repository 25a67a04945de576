/**
 * The currency converter application with its widgets, network fetch and
 * database connection taken away: the state it keeps between user actions
 * and the handlers that change it.
 */
module App {
  import opened Wrappers
  import opened RateTable
  import opened Conversion
  import opened CurrencyFilter

  /** Row ids are positive, strictly increasing and never above the last id handed out. */
  ghost predicate LedgerIds(rows: seq<Row>, lastId: nat)
  {
    && (forall i :: 0 <= i < |rows| ==> 1 <= rows[i].id <= lastId)
    && (forall i, j :: 0 <= i < j < |rows| ==> rows[i].id < rows[j].id)
  }

  /** The ledger never holds more rows than ids handed out. */
  lemma {:induction false} IdsFit(rows: seq<Row>, lastId: nat)
    requires LedgerIds(rows, lastId)
    ensures |rows| <= lastId
  {
    if rows != [] {
      var last := rows[|rows| - 1].id;
      var front := rows[..|rows| - 1];
      assert forall i :: 0 <= i < |front| ==> front[i] == rows[i];
      IdsFit(front, last - 1);
    }
  }

  /**
   * The application's state: the rate table fetched once at start-up and
   * the `history` table of the database file with its AUTOINCREMENT counter
   * (`lastId`, the largest id ever assigned).
   */
  class CurrencyConverterApp {
    const rates: Table
    var history: seq<Row>
    var lastId: nat

    ghost predicate Valid()
      reads this
    {
      DistinctCodes(rates) && LedgerIds(history, lastId)
    }

    /** Opens the converter over `rates` and the rows already in the database file. */
    constructor (rates: Table, existing: seq<Row>, lastId: nat)
      requires DistinctCodes(rates)
      requires LedgerIds(existing, lastId)
      ensures Valid()
      ensures this.rates == rates && history == existing && this.lastId == lastId
    {
      this.rates := rates;
      history := existing;
      this.lastId := lastId;
    }

    /**
     * Validates the three entries, computes the conversion and, only when it
     * succeeds, appends exactly one row to the ledger under the next id.
     */
    method Convert(amountText: string, fromCode: string, toCode: string,
                   parse: string -> Option<real>, timestamp: string) returns (r: Result<Record, ConvertError>)
      requires Valid()
      requires DivisionDefined(amountText, fromCode, toCode, rates, parse)
      modifies this
      ensures Valid()
      ensures r == ConvertCurrency(amountText, fromCode, toCode, rates, parse, timestamp)
      ensures r.Success? ==> history == old(history) + [Row(old(lastId) + 1, r.value)] && lastId == old(lastId) + 1
      ensures r.Failure? ==> history == old(history) && lastId == old(lastId)
    {
      if amountText == [] || fromCode == [] || toCode == [] {
        return Failure(MissingField);
      }
      var parsed := parse(amountText);
      if parsed.None? {
        return Failure(InvalidAmount);
      }
      var amount := parsed.value;
      if |rates| > 0 && HasCode(rates, fromCode) && HasCode(rates, toCode) {
        var rate := CrossRate(rates, fromCode, toCode);
        var converted := amount * rate;
        var rec := Record(amount, fromCode, toCode, rate, converted, timestamp);
        ghost var expected := ConvertCurrency(amountText, fromCode, toCode, rates, parse, timestamp);
        assert expected.Success? && expected.value.amount == amount && expected.value.rate == rate;
        assert expected.value.convertedAmount == converted;
        assert expected == Success(rec);
        lastId := lastId + 1;
        history := history + [Row(lastId, rec)];
        r := Success(rec);
      } else {
        r := Failure(ConversionFailed);
      }
    }

    /**
     * Key-release handler of a dropdown: its choices become the table's codes
     * that match the typed text, and the text is written back only when some
     * code matched.
     */
    method FilterCurrency(dropdown: Dropdown, typed: string)
      modifies dropdown
      ensures dropdown.values == FilterCodes(Codes(rates), typed)
      ensures dropdown.text == if dropdown.values != [] then typed else old(dropdown.text)
    {
      var filtered := FilterCodes(Codes(rates), typed);
      dropdown.values := filtered;
      if filtered != [] {
        dropdown.text := typed;
      }
    }
  }
}
