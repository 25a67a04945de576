/**
 * The data behind the "Visualize Rates" bar chart: nothing when the table is
 * empty, otherwise the first ten codes in table order with their rates.
 */
module RateChart {
  import opened Wrappers
  import opened RateTable

  /** The chart shows at most this many currencies. */
  const MaxBars: nat := 10

  /** Bar labels and bar heights, position by position. */
  datatype Chart = Chart(labels: seq<string>, values: seq<real>)

  function Min(a: nat, b: nat): nat
  {
    if a <= b then a else b
  }

  /** The chart for a rate table, or None when the table is empty and nothing is drawn. */
  function ChartData(t: Table): (r: Option<Chart>)
    ensures r == None <==> t == []
    ensures r.Some? ==> |r.value.labels| == |r.value.values| == Min(MaxBars, |t|)
    ensures r.Some? ==> forall i :: 0 <= i < |r.value.labels| ==> r.value.labels[i] == t[i].0
  {
    if t == [] then None
    else
      var labels := Codes(t)[..Min(MaxBars, |t|)];
      Some(Chart(labels, seq(|labels|, i requires 0 <= i < |labels| => Get(t, labels[i]))))
  }

  /** In a table with distinct codes, every bar carries the rate of its own currency. */
  lemma ChartPairsCodeWithRate(t: Table)
    requires DistinctCodes(t)
    requires t != []
    ensures forall i :: 0 <= i < |ChartData(t).value.labels| ==>
      ChartData(t).value.labels[i] == t[i].0 && ChartData(t).value.values[i] == t[i].1
  {
    var c := ChartData(t).value;
    forall i | 0 <= i < |c.labels|
      ensures c.labels[i] == t[i].0 && c.values[i] == t[i].1
    {
      GetAt(t, i);
    }
  }

}
