# Stock price chart and time-frame form: a Dafny model

This project models the small amount of logic inside two React components of a
stock-price dashboard. The logic is pulled out as pure functions over immutable
data.

- **Price chart** (`src/components/StockChart.js`). The `stockData` prop is turned
  into a list of price records:
  - an array is used as it is;
  - any other truthy value whose `stock` field is truthy becomes a one-element list;
  - anything else becomes an empty list.

  A non-empty list is then laid out as three parallel chart series: the labels,
  the prices and a constant average line. Before that, the records are sorted by
  time with a stable sort. The render picks one of five views: the select
  prompt, the current-price card, "no data", the spinner or the chart.
- **Selection form** (`src/components/StockSearch.js`). The time-frame input is
  read with `parseInt(value, 10)`. The value is forwarded only when it is a
  number from 5 to 60. The stock selector forwards the chosen ticker unchanged.

Modules:

| file | module | what it holds |
|---|---|---|
| `wrappers.dfy` | `Wrappers` | `Option`, standing in for the source's `null` |
| `time_sort.dfy` | `TimeSort` | `Record` (price, timestamp), the stable sort by timestamp, its specification and a uniqueness proof |
| `stock_chart.dfy` | `StockChart` | the response shape, the record-list normalisation, `formatChartData`, the effect's state update and the view choice |
| `js_parse_int.dfy` | `JsParseInt` | `parseInt` with radix 10, as in ECMA-262 (2023 edition) section 19.2.5 |
| `stock_search.dfy` | `StockSearch` | the two input handlers, the values their owner stores, and properties of edit sequences |

Modelling choices:

- **Timestamps.** `lastUpdatedAt` is modelled by its ordering key, an `int`. The
  source compares `new Date(a) - new Date(b)`.
- **Labels.** The chart labels are those same timestamps. Their locale rendering
  is not modelled.
- **Prices.** Prices are `real` values that are only passed through.
- **The average.** `calculateAverage` lives in the API module, which is not part
  of this model. `OnStockData` therefore takes it as a function parameter
  `averageOf`, and `FormatChartData` takes the average as an argument, as the
  source's `formatChartData` does.
- **The sort.** The sort is specified without reference to its algorithm.
  `StableSortOf(input, out)` says that `out` is ascending and that, for every
  timestamp, the records carrying it occur in `out` in their input order.
  `StableSortIsUnique` proves that only one sequence meets this. So the model's
  insertion sort gives the same result as any conforming `Array.prototype.sort`,
  which ECMA-262 (2023 edition) section 23.1.3.30 requires to be stable. The
  source sorts a copy (`[...data]`). In this value-based model the input can
  never be altered.
- **The response shape.** The response is a tagged union:
  - `Missing` is any falsy prop (`null`, `undefined`, `false`, `0`, `""`, `NaN`);
  - `ArrayResponse` is an array;
  - `StockResponse` is a truthy non-array value whose `stock` field is truthy;
  - `OtherResponse` is any other truthy value, primitives such as a string included.

  The tag abstracts the runtime checks the component makes (`!stockData`,
  `Array.isArray`, `stockData.stock`) in the effect and again in the render.
  Arrays are classified first, in the same order as those checks.
- **Who stores the form's values.** The owner of `selectedStock` and `timeFrame`
  is a page component that is not part of this model. Each handler's effect is
  therefore the list of callback calls it makes. `Apply` assumes the owner stores
  each forwarded value as it is.
- **Numbers from `parseInt`.** They are unbounded integers. JavaScript produces a
  double. That difference cannot change a decision here: any digit run too long
  to be exact as a double, or one that reads as `Infinity`, is far above 60.
  `-0` reads as 0, and both are rejected the same way.
- **White space.** `IsStrWhiteSpace` lists the white-space and line-terminator
  characters of ECMA-262 sections 12.2 and 12.3. These are what `parseInt` skips
  before the sign.

Behaviour worth noting:

- Malformed records are not dropped; the list is used as given.
- The handler does not enforce the step of 5. It rejects out-of-range input
  rather than clamping it.
- There is no time-window filtering, series alignment or correlation in these
  files.

Observed behaviour, stated as a lemma and not claimed as a defect:

- An `OtherResponse` leaves the chart state untouched
  (`OtherResponseKeepsPriorChart`).
- As a result, the chart from an earlier response stays on screen, or the
  spinner is shown forever if there was no earlier chart (`FreshComponentSpins`).

## Model

| member | source | states |
|---|---|---|
| StockChart.Records | src/components/StockChart.js:36-43 | an array response is the record list unchanged, a truthy `stock` field gives exactly `[stock]`, every other response gives the empty list |
| StockChart.RecordsIdempotent | src/components/StockChart.js:38-39 | normalising an already normalised list gives the same list |
| TimeSort.Insert | src/components/StockChart.js:59-61 | inserting into an ascending list keeps it ascending and adds exactly the one record (multiset) |
| TimeSort.InsertGroups | src/components/StockChart.js:59-61 | an inserted record goes in front of the records with its timestamp; the order of every other timestamp's records is kept |
| TimeSort.SortByTime | src/components/StockChart.js:59-61 | the sorted copy is ascending by timestamp and is a permutation of the input (same multiset, same length) |
| TimeSort.SortByTimeIsStable | src/components/StockChart.js:59-61 | ties keep their input order: for every timestamp, the records carrying it appear in the output as in the input |
| TimeSort.SameGroupsSameSequence | src/components/StockChart.js:59-61 | two ascending lists that agree on each timestamp's records in order are equal |
| TimeSort.StableSortIsUnique | src/components/StockChart.js:59-61 | any stable ascending sort of the input equals `SortByTime` of it, so the model agrees with a conforming `Array.prototype.sort` |
| TimeSort.SortOfSortedIsIdentity | src/components/StockChart.js:59-61 | records already in ascending order come out of the sort unchanged |
| StockChart.FormatChartData | src/components/StockChart.js:57-71 | labels, prices and the average line all have the input's length; (label i, price i) are the input stably sorted by time; every average-line entry equals the `average` argument |
| StockChart.FormattedPricesArePermutation | src/components/StockChart.js:59-68 | the price series holds exactly the input's prices, rearranged (multiset equality) |
| StockChart.SortPrices | src/components/StockChart.js:59-68 | sorting the records rearranges their prices without losing or adding one |
| StockChart.OnStockData | src/components/StockChart.js:33-54 | a missing response or an empty record list changes nothing (no average, no chart data); otherwise the average is that of the record list, and the chart data is its stable time-sorted layout: labels, prices and average line all as long as the list, every average-line entry equal to that average |
| StockChart.SelectView | src/components/StockChart.js:172-219 | exactly one view per case: no response gives the prompt; a `stock` object gives its current-price card; an empty array gives "no data"; otherwise the chart if chart data exists, and the spinner if not |
| StockChart.SettledViewOfList | src/components/StockChart.js:33-54 | after the effect for a non-empty array, the view is the chart of that array's records in sorted order with that array's average, whatever the earlier state |
| StockChart.SingleStockNeverCharted | src/components/StockChart.js:180-191 | a `stock` object always shows the current-price card, never the chart, whatever the chart state |
| StockChart.OtherResponseKeepsPriorChart | src/components/StockChart.js:37-45 | an unrecognised truthy value leaves the state as it was, so an earlier chart stays on screen, or the spinner if there was none |
| StockChart.FreshComponentSpins | src/components/StockChart.js:30-45 | a freshly mounted component (no chart data, average 0) that receives only unrecognised truthy values keeps no chart data, so the render's `!chartData` branch shows the spinner, however many arrive |
| JsParseInt.ParseInt | src/components/StockSearch.js:45 | NaN exactly when no digit follows the leading white space and one optional sign |
| JsParseInt.ParseSkipsWhiteSpace | src/components/StockSearch.js:45 | leading white space does not change the parse |
| JsParseInt.ParseUnsignedDigits | src/components/StockSearch.js:45 | a digit run reads as its decimal value up to the first non-digit; leading zeros add nothing |
| JsParseInt.ParseSignedDigits | src/components/StockSearch.js:45 | a `-` or `+` followed by a digit run reads as the signed value |
| JsParseInt.ParseNumber | src/components/StockSearch.js:45 | white space, one optional sign and a digit run read as the signed value of the run |
| JsParseInt.ParseNoDigits | src/components/StockSearch.js:45 | text with no digit right after its white space and optional sign is NaN |
| JsParseInt.ParseDecomposed | src/components/StockSearch.js:45 | for every split of a text into white space, sign, digit run and non-digit rest: NaN when the run is empty, otherwise the run's value, negated after `-` |
| JsParseInt.TrimStartDropsWhiteSpace | src/components/StockSearch.js:45 | the leading white space `parseInt` skips is a prefix made only of white space, and the text after it is kept |
| JsParseInt.SplitExists | src/components/StockSearch.js:45 | every text splits into white space, at most one sign, a digit run and a rest that does not continue the run |
| JsParseInt.ParseCharacterised | src/components/StockSearch.js:45 | every text splits into white space, at most one sign, a digit run and a rest that does not continue the run (and, with no sign and no digits, starts with neither white space nor a sign); the result is NaN when the run is empty, otherwise the run's value, negated after `-` |
| JsParseInt.ParseShow | src/components/StockSearch.js:45 | any integer's decimal spelling, after white space and before a non-digit, reads back as that integer |
| JsParseInt.DecimalValue | src/components/StockSearch.js:45 | the digit value of a natural number's decimal spelling is that number |
| StockSearch.HandleTimeChange | src/components/StockSearch.js:44-50 | at most one call; a call happens if and only if the parse is a number from 5 to 60, both bounds included, and it carries the parsed value |
| StockSearch.TimeEditEffect | src/components/StockSearch.js:47-49 | an accepted edit installs the parsed value; a rejected edit leaves the whole selection unchanged (no clamping); the stock never changes |
| StockSearch.TimeChangeOfNumber | src/components/StockSearch.js:45-49 | an integer's spelling, followed by text that does not continue it, is forwarded as that integer exactly when it lies in 5..60 |
| StockSearch.TimeChangeOfNonNumber | src/components/StockSearch.js:47 | text whose parse is NaN never calls back |
| StockSearch.TimeFrameStaysInRange | src/components/StockSearch.js:44-50 | from an in-range time frame, no sequence of time and stock edits can leave 5..60 |
| StockSearch.FractionIsTruncated | src/components/StockSearch.js:45 | "12.7" is forwarded as 12 |
| StockSearch.OffStepValueAccepted | src/components/StockSearch.js:47 | the step of 5 on the input is not enforced by the handler: "7" is forwarded as 7 |
| StockSearch.RejectedExamples | src/components/StockSearch.js:47-49 | "61" and "abc" cause no call |
| StockSearch.HandleStockChange | src/components/StockSearch.js:53-55 | a stock selection makes exactly one call, carrying the chosen ticker unchanged |
| StockSearch.StockEditEffect | src/components/StockSearch.js:53-55 | a stock selection installs exactly the chosen ticker and keeps the time frame |

## Left out

- JsParseInt.ParseInt: its own contract states only when the result is NaN. The value read is stated for every text by `ParseCharacterised` (with `ParseDecomposed`), and `ParseShow` gives the round trip through an integer's spelling.
- `calculateAverage` (src/components/StockChart.js:15): its module is not part of this model. The average is a parameter, so nothing is claimed about its value, including for an empty list.
- `getStocks`, the stock-list fetch and its loading and error rendering (src/components/StockSearch.js:16, 27-41, 57-63): asynchronous network I/O and UI state.
- The correlation heatmap and the page components (src/App.js:3-4): they are not part of this model, and no correlation or alignment logic is invented for them.
- Date parsing, `toLocaleTimeString` / `toLocaleString` and `toFixed(2)` (src/components/StockChart.js:60, 64-65, 185-187, 213): these depend on the locale and on floating point. Timestamps are integers, labels are the timestamps, and the price text is not modelled.
- Comparator behaviour on unparsable dates (`NaN` differences): with integer timestamps every comparison is defined.
- Chart.js registration, `chartOptions`, dataset colours and MUI styling (src/components/StockChart.js:18-27, 73-98, 101-170): presentation only.
- The React lifecycle: the render that happens with the new prop before the effect runs, and the order of state updates. `SettledViewOfList` describes the view once the effect has run.
- `stockName` in the headings: display text only.
- All of src/App.js: the theme, the tab navigation and the hidden `AuthSetup` are UI.
