/**
 The data side of the price-chart component: how the fetched response is
 turned into a list of records, how that list becomes the chart's three
 parallel series, what the effect stores, and which of the five views the
 component renders.
 */
module StockChart {
  import opened Wrappers
  import opened TimeSort

  /**
   The shape of the `stockData` prop. The tag abstracts the component's runtime
   checks (`!stockData`, `Array.isArray`, `stockData.stock`), which it repeats
   in the effect and in the render; both see the same tag.
   */
  datatype Response =
    | Missing                         // any falsy prop: no stock selected yet
    | ArrayResponse(items: seq<Record>)
    | StockResponse(stock: Record)    // a truthy non-array value whose `stock` field is truthy
    | OtherResponse                   // any other truthy value

  /** The record list the effect works on: a list as given, a single point wrapped, anything else empty. */
  function Records(resp: Response): (r: seq<Record>)
    ensures resp.ArrayResponse? ==> r == resp.items
    ensures resp.StockResponse? ==> r == [resp.stock]
    ensures resp.Missing? || resp.OtherResponse? ==> r == []
  {
    match resp
    case ArrayResponse(items) => items
    case StockResponse(stock) => [stock]
    case _ => []
  }

  /** Handing the normalised list back in as an array response changes nothing. */
  lemma RecordsIdempotent(resp: Response)
    ensures Records(ArrayResponse(Records(resp))) == Records(resp)
  {
  }

  /**
   What `formatChartData` hands to the chart: the x-axis labels (the sorted
   timestamps), the "Stock Price" dataset and the "Average Price" dataset.
   */
  datatype ChartData = ChartData(labels: seq<int>, prices: seq<real>, averageLine: seq<real>)

  /** The chart's points read back as records: the i-th label paired with the i-th price. */
  function Points(c: ChartData): (pts: seq<Record>)
    requires |c.labels| == |c.prices|
    ensures |pts| == |c.labels|
    ensures forall i :: 0 <= i < |pts| ==> pts[i].price == c.prices[i] && pts[i].lastUpdatedAt == c.labels[i]
  {
    seq(|c.labels|, i requires 0 <= i < |c.labels| => Record(c.prices[i], c.labels[i]))
  }

  /**
   Sorts a copy of the records by timestamp and lays them out as three series
   of the same length; the average line repeats `average` at every point.
   */
  function FormatChartData(data: seq<Record>, average: real): (c: ChartData)
    ensures |c.labels| == |data| && |c.prices| == |data| && |c.averageLine| == |data|
    ensures StableSortOf(data, Points(c))
    ensures forall i :: 0 <= i < |c.averageLine| ==> c.averageLine[i] == average
  {
    var sorted := SortByTime(data);
    var c := ChartData(
      seq(|sorted|, i requires 0 <= i < |sorted| => sorted[i].lastUpdatedAt),
      seq(|sorted|, i requires 0 <= i < |sorted| => sorted[i].price),
      seq(|sorted|, _ => average));
    assert Points(c) == sorted;
    SortByTimeIsStable(data);
    c
  }

  /** The chart's prices are the input's prices, rearranged: none lost, none added. */
  lemma {:induction false} FormattedPricesArePermutation(data: seq<Record>, average: real)
    ensures multiset(FormatChartData(data, average).prices) == multiset(PricesOf(data))
  {
    var c := FormatChartData(data, average);
    StableSortIsUnique(data, Points(c));
    assert c.prices == PricesOf(SortByTime(data));
    SortPrices(data);
  }

  /** The price column of a record list. */
  function PricesOf(s: seq<Record>): (ps: seq<real>)
    ensures |ps| == |s|
    ensures forall i :: 0 <= i < |s| ==> ps[i] == s[i].price
  {
    seq(|s|, i requires 0 <= i < |s| => s[i].price)
  }

  /** Inserting a record adds exactly its price to the price column. */
  lemma {:induction false} InsertPrices(x: Record, s: seq<Record>)
    requires SortedByTime(s)
    ensures multiset(PricesOf(Insert(x, s))) == multiset(PricesOf(s)) + multiset{x.price}
  {
    if |s| != 0 && x.lastUpdatedAt > s[0].lastUpdatedAt {
      var tail := Insert(x, s[1..]);
      InsertPrices(x, s[1..]);
      assert Insert(x, s) == [s[0]] + tail;
      ConsPrices(s[0], tail);
      HeadPrices(s);
    } else {
      assert Insert(x, s) == [x] + s;
      ConsPrices(x, s);
    }
  }

  /** Sorting rearranges the price column without losing or adding a price. */
  lemma {:induction false} SortPrices(s: seq<Record>)
    ensures multiset(PricesOf(SortByTime(s))) == multiset(PricesOf(s))
  {
    if |s| != 0 {
      var rest := SortByTime(s[1..]);
      SortPrices(s[1..]);
      InsertPrices(s[0], rest);
      assert SortByTime(s) == Insert(s[0], rest);
      HeadPrices(s);
    }
  }

  /** Putting a record in front adds its price to the price column. */
  lemma ConsPrices(x: Record, s: seq<Record>)
    ensures multiset(PricesOf([x] + s)) == multiset(PricesOf(s)) + multiset{x.price}
  {
    PricesOfSplit([x], s);
    assert PricesOf([x]) == [x.price];
  }

  /** The price column of a non-empty list is its head's price and the rest's column. */
  lemma HeadPrices(s: seq<Record>)
    requires |s| != 0
    ensures multiset(PricesOf(s)) == multiset(PricesOf(s[1..])) + multiset{s[0].price}
  {
    assert s == [s[0]] + s[1..];
    ConsPrices(s[0], s[1..]);
  }

  /** The price column of a concatenation is the concatenation of the columns. */
  lemma PricesOfSplit(a: seq<Record>, b: seq<Record>)
    ensures PricesOf(a + b) == PricesOf(a) + PricesOf(b)
  {
    assert forall i :: 0 <= i < |a + b| ==> PricesOf(a + b)[i] == (PricesOf(a) + PricesOf(b))[i];
  }

  /** The component state the effect writes: `chartData` (null until set) and `avgPrice`. */
  datatype ChartState = ChartState(chartData: Option<ChartData>, avgPrice: real)

  /** The state before any response has been processed. */
  const Initial := ChartState(None, 0.0)

  /**
   The effect run when `stockData` changes. `averageOf` stands for the
   average helper of the API module, whose definition is not part of this model.
   Nothing is written for a missing response or an empty record list;
   otherwise both the average and the formatted chart data are replaced.
   */
  function OnStockData(resp: Response, averageOf: seq<Record> -> real, st: ChartState): (st': ChartState)
    ensures Records(resp) == [] ==> st' == st
    ensures Records(resp) != [] ==>
      && st'.avgPrice == averageOf(Records(resp))
      && st'.chartData.Some?
      && |st'.chartData.value.labels| == |st'.chartData.value.prices| == |Records(resp)|
      && |st'.chartData.value.averageLine| == |Records(resp)|
      && StableSortOf(Records(resp), Points(st'.chartData.value))
      && forall i :: 0 <= i < |st'.chartData.value.averageLine| ==> st'.chartData.value.averageLine[i] == st'.avgPrice
  {
    if resp.Missing? then st
    else
      var data := Records(resp);
      if |data| == 0 then st
      else
        var average := averageOf(data);
        ChartState(Some(FormatChartData(data, average)), average)
  }

  /** The five things the component can render. */
  datatype View =
    | SelectPrompt                              // "Please select a stock ..."
    | CurrentPrice(stock: Record)               // the single-point card
    | NoData                                    // "No data available ..."
    | Loading                                   // the spinner
    | PriceChart(chart: ChartData, average: real)

  /** Responses that fall through to the chart branch of the render. */
  predicate ReachesChart(resp: Response) {
    resp.OtherResponse? || (resp.ArrayResponse? && |resp.items| != 0)
  }

  /** The render's branch order: missing, single point, empty list, no chart yet, chart. */
  function SelectView(resp: Response, st: ChartState): (v: View)
    ensures v.SelectPrompt? <==> resp.Missing?
    ensures v.CurrentPrice? <==> resp.StockResponse?
    ensures v.CurrentPrice? ==> v.stock == resp.stock
    ensures v.NoData? <==> resp == ArrayResponse([])
    ensures v.Loading? <==> ReachesChart(resp) && st.chartData.None?
    ensures v.PriceChart? <==> ReachesChart(resp) && st.chartData.Some?
    ensures v.PriceChart? ==> v.chart == st.chartData.value && v.average == st.avgPrice
  {
    match resp
    case Missing => SelectPrompt
    case StockResponse(stock) => CurrentPrice(stock)
    case ArrayResponse(items) =>
      if |items| == 0 then NoData
      else if st.chartData.None? then Loading
      else PriceChart(st.chartData.value, st.avgPrice)
    case OtherResponse =>
      if st.chartData.None? then Loading
      else PriceChart(st.chartData.value, st.avgPrice)
  }

  /**
   The view once the effect has run for a response: a non-empty list is always
   charted with its own records, sorted, and the average of that list.
   */
  lemma SettledViewOfList(items: seq<Record>, averageOf: seq<Record> -> real, st: ChartState)
    requires |items| != 0
    ensures var v := SelectView(ArrayResponse(items), OnStockData(ArrayResponse(items), averageOf, st));
      && v.PriceChart?
      && v.average == averageOf(items)
      && |v.chart.labels| == |v.chart.prices| == |items|
      && Points(v.chart) == SortByTime(items)
  {
    var st' := OnStockData(ArrayResponse(items), averageOf, st);
    StableSortIsUnique(items, Points(st'.chartData.value));
  }

  /** A single-point response shows the current-price card, whatever the chart state. */
  lemma SingleStockNeverCharted(stock: Record, averageOf: seq<Record> -> real, st: ChartState)
    ensures SelectView(StockResponse(stock), OnStockData(StockResponse(stock), averageOf, st)) == CurrentPrice(stock)
  {
  }

  /**
   Any other truthy value leaves the state untouched, so the view is whatever the
   previous state supports: the earlier chart if there was one, else the spinner.
   */
  lemma OtherResponseKeepsPriorChart(averageOf: seq<Record> -> real, st: ChartState)
    ensures OnStockData(OtherResponse, averageOf, st) == st
    ensures SelectView(OtherResponse, OnStockData(OtherResponse, averageOf, st))
      == (if st.chartData.Some? then PriceChart(st.chartData.value, st.avgPrice) else Loading)
  {
  }

  /** The state after the effect has run for each response of `resps`, in order. */
  function Deliver(resps: seq<Response>, averageOf: seq<Record> -> real, st: ChartState): (st': ChartState)
    ensures (forall i :: 0 <= i < |resps| ==> Records(resps[i]) == []) ==> st' == st
    decreases |resps|
  {
    if |resps| == 0 then st else Deliver(resps[1..], averageOf, OnStockData(resps[0], averageOf, st))
  }

  /**
   A freshly mounted component that only ever receives unrecognised truthy
   values shows the spinner, however many of them arrive.
   */
  lemma FreshComponentSpins(resps: seq<Response>, averageOf: seq<Record> -> real)
    requires forall i :: 0 <= i < |resps| ==> resps[i] == OtherResponse
    ensures SelectView(OtherResponse, Deliver(resps, averageOf, Initial)) == Loading
  {
    forall i | 0 <= i < |resps| ensures Records(resps[i]) == [] {
    }
  }
}
