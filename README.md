# Currency converter core, modelled in Dafny

This project models the logic of a small desktop currency converter (one
window class, `CurrencyConverterApp`). Its widgets, its HTTP client and its
SQLite connection are taken away. Three pieces remain:

- **Conversion** (`convert_currency`): the amount, source code and target code
  the user typed are checked in a fixed order. First any empty field gives
  "Please fill in all fields". Then an amount that does not parse gives
  "Invalid amount". Then an empty table or an unknown code gives "Invalid
  currency code or rate not found". On success the rate is
  `rates[to] / rates[from]`, the converted amount is `amount * rate`, and
  exactly one row is appended to the `history` table.
- **Dropdown filter** (`filter_currency`): on each key release a dropdown's
  choices become, in table order, the codes that contain the upper-cased
  typed text. The text is written back only when some code matched.
- **Chart data** (`visualize_rates`): nothing for an empty table, otherwise
  the first ten codes in table order (all of them when there are fewer),
  each with its own rate.

Modules:

- `Wrappers` (wrappers.dfy): `Option` and `Result`.
- `RateTable` (rate_table.dfy): the rate table is a sequence of
  (code, rate) pairs in insertion order, since a dictionary keeps insertion
  order and both the filter and the chart depend on it. Lookup returns the
  rate of the first entry with the code. A table from a dictionary has
  distinct codes (`DistinctCodes`).
- `Conversion` (conversion.dfy): the error kinds, the ledger record, and the
  pure `ConvertCurrency` function that specifies one conversion. Lemmas about
  it cover the error order, any sign being accepted, the identity and
  round-trip properties, and two worked examples.
- `CurrencyFilter` (currency_filter.dfy): ASCII upper-casing, the substring
  test, `FilterCodes`, and the `Dropdown` state (choices and entry text).
- `RateChart` (rate_chart.dfy): `ChartData`.
- `App` (app.dfy): the class `CurrencyConverterApp`. It holds the rate table,
  the ledger rows and the AUTOINCREMENT counter. `Convert` is proved equal to
  `ConvertCurrency` and appends a row only on success. `FilterCurrency`
  updates a dropdown.

Parameters stand for what the model cannot see. `parse` is the language's
float parser. `timestamp` is the clock reading (a local time in
Asia/Kolkata). `typed` is the text of the widget that raised the key event.

Notes on the program:

- The code does not split conversion and persistence. One handler validates,
  computes and inserts the row.
- An empty table and an unknown code give the same error.
- The `history` table has no owner column, and the program has no user
  accounts.
- Amounts are not checked for sign. Zero and negative amounts are converted
  and recorded.

In the program, the widget that raises the key event is the dropdown
itself. So the write-back in `filter_currency` sets the dropdown to the text
it already holds. The model keeps the typed text as a separate argument, so
the contract states the general behaviour.

## Model

| member | source | states |
|---|---|---|
| `RateTable.Codes` | app.py:126 | the key list has one code per table entry, in table order |
| `RateTable.HasCode` | app.py:103 | `code in rates` holds exactly when some entry of the table has that code |
| `RateTable.Get` | app.py:104 | `rates[code]` returns a rate stored in the table under that code |
| `RateTable.GetAt` | app.py:127 | with distinct codes, looking up the code of any entry gives that entry's own rate |
| `Conversion.CrossRate` | app.py:104 | the rate is the factor that turns the source currency's rate into the target currency's |
| `Conversion.ConvertCurrency` | app.py:87-116 | empty field gives MissingField before anything is parsed; otherwise an unparseable amount gives InvalidAmount; otherwise an empty table or a missing code gives ConversionFailed; success exactly when all checks pass, with the parsed amount, both codes, rate * rates[from] == rates[to], converted == amount * rate, and the timestamp |
| `Conversion.EmptyTableFails` | app.py:102-116 | with an empty table every well-formed request fails with ConversionFailed |
| `Conversion.AnySignAccepted` | app.py:96-105 | a zero or negative parsed amount is converted like any other |
| `Conversion.SameCurrencyIsIdentity` | app.py:104-105 | converting a code to itself gives rate 1 and the amount unchanged |
| `Conversion.RoundTrip` | app.py:104-105 | converting the result back to the source currency gives the original amount |
| `Conversion.ZeroTargetRateConverts` | app.py:103-105 | a zero target rate is not refused: the conversion succeeds with rate 0 and converted amount 0 |
| `Conversion.UsdToEurExample` | app.py:103-105 | with USD 1.0, EUR 0.9, INR 83.0, 10 USD is 9 EUR at rate 0.9 |
| `Conversion.InrToUsdExample` | app.py:103-105 | with the same table, 100 INR is 100/83 USD at rate 1/83 |
| `App.IdsFit` | app.py:58 | when the AUTOINCREMENT ids are positive, strictly increasing and at most the last id handed out (`LedgerIds`), the ledger holds no more rows than ids handed out |
| `App.CurrencyConverterApp.constructor` | app.py:53-67 | the application starts with the fetched table (distinct codes, as a dictionary has) and the rows already in the `history` table, ids ascending |
| `App.CurrencyConverterApp.Convert` | app.py:87-116 | the result is `ConvertCurrency` of the entries; on success exactly one row with the next id is appended and earlier rows are unchanged; on failure the ledger is unchanged; ids stay ascending |
| `App.CurrencyConverterApp.FilterCurrency` | app.py:80-85 | the dropdown's choices are replaced by the filtered codes in every case; the text is set to the typed text only when that list is non-empty |
| `CurrencyFilter.UpperChar` | app.py:82 | an ASCII lower-case letter becomes the matching capital, every other character is kept |
| `CurrencyFilter.Upper` | app.py:82 | upper-casing keeps the length and maps each character by `UpperChar` |
| `CurrencyFilter.Contains` | app.py:82 | the empty text occurs in every code, and a text longer than the code never does |
| `CurrencyFilter.Matches` | app.py:82 | `value.upper() in key` holds exactly when the upper-cased text occurs at some position of the code |
| `CurrencyFilter.ContainsIsSubstring` | app.py:82 | the substring test holds exactly when the text occurs at some position of the code |
| `CurrencyFilter.FilterCodes` | app.py:82 | every kept code is a table code that contains the upper-cased text, and every table code that does is kept |
| `CurrencyFilter.FilterKeepsOrder` | app.py:82 | the filtered list is a subsequence of the table's codes, so table order is kept |
| `CurrencyFilter.FilterMembership` | app.py:82 | a code is offered exactly when it is in the table and contains the upper-cased text |
| `CurrencyFilter.UpperIdempotent` | app.py:82 | upper-casing twice is upper-casing once |
| `CurrencyFilter.FilterIgnoresCase` | app.py:82 | the filter gives the same list whatever case the text is typed in |
| `CurrencyFilter.Dropdown.constructor` | app.py:30-32 | a dropdown starts with the given choices and text |
| `RateChart.ChartData` | app.py:118-127 | nothing for an empty table; otherwise min(10, size) labels and as many values, label i being the code of entry i |
| `RateChart.ChartPairsCodeWithRate` | app.py:126-127 | with distinct codes, bar i carries the code and the rate of entry i |

## Left out

- Widget creation, layout, event binding and the result label (app.py:11-51, 106). This is presentation with no behaviour to verify. The label's text is the returned record; its two-decimal formatting is not modelled.
- Fetching the rates over HTTP (app.py:69-78). This is network I/O. The table is an input, and a failed fetch is modelled only as the empty table it yields.
- The SQLite connection, `CREATE TABLE` and `commit` (app.py:54-67, 110-114). These are replaced by the in-memory ledger `history` with its id counter. Write failures of the database are not modelled.
- Reading the clock in the Asia/Kolkata time zone (app.py:109). The timestamp is an opaque string argument.
- The float parser (app.py:97). It is the abstract `parse` argument. Whitespace, "inf", "nan" and other parser details are not modelled.
- Floating-point rounding. Amounts and rates are exact reals. The identity also holds exactly in floating point, since a non-zero rate divided by itself is exactly 1. The round trip and the 100/83 example hold in the program only up to rounding.
- Conversion.ConvertCurrency: requires `DivisionDefined`: a request that gets as far as the division (all fields filled in, the amount parsed, the target listed) must have a source that is unlisted or listed with a non-zero rate. The program does not guard the division, and a zero source rate raises an uncaught error in the handler. Requests that stop earlier, a zero target rate, and zero rates of currencies the conversion does not use are all allowed (see `Conversion.ZeroTargetRateConverts`).
- App.CurrencyConverterApp.Convert: requires `DivisionDefined`, for the same reason.
- Conversion.CrossRate: requires a non-zero source rate, for the same reason.
- CurrencyFilter.UpperChar: maps ASCII letters only. Full Unicode case mapping is not modelled.
- CurrencyFilter.Upper: keeps the length of the text. The language's upper-casing can lengthen it, for example 'ß' becomes "SS" and 'ﬁ' becomes "FI", and such texts match codes in the program that they do not match in the model.
- Chart rendering and the debug output of the fetched table (app.py:74, 123-136). Only the selected labels and values are modelled.
