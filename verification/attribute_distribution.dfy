/**
  The distribution of the compared attribute: a horizontal histogram whose
  bins start at the floor of the smallest value and have a fixed,
  per-attribute width, one series for all plotted rows and one for the
  members of the selected region.
 */
module AttributeDistribution {
  import opened Dataset
  import opened Stats

  /** `diffMap`: the bin width of each attribute. */
  function Step(m: Metric): (d: real)
    ensures d > 0.0
    ensures d <= 2.0
  {
    match m
    case Happiness => 0.5
    case LogGdp => 0.5
    case SocialSupport => 0.05
    case LifeExpectancy => 2.0
    case Freedom => 0.05
    case Generosity => 0.1
    case Corruption => 0.1
  }

  /** One bar: `x` the row count, `y` the bin's upper edge. */
  datatype StepBar = StepBar(x: nat, y: real)

  function BarCounts(bars: seq<StepBar>): (r: seq<nat>)
    ensures |r| == |bars|
    ensures forall i :: 0 <= i < |bars| ==> r[i] == bars[i].x
  {
    seq(|bars|, i requires 0 <= i < |bars| => bars[i].x)
  }

  /** The count loop `for (i = start; i < maxVal; i = i + diff)`: for each
      edge below `maxVal` the number of rows in [edge, edge + diff), paired
      with the bin's upper edge. */
  method CountStepBins(rows: seq<Row>, m: Metric, start: real, diff: real, maxVal: real)
    returns (bars: seq<StepBar>)
    requires diff > 0.0
    ensures |bars| == StepCount(start, diff, maxVal)
    ensures forall k :: 0 <= k < |bars| ==>
      && bars[k].x == CountIn(rows, m, Edge(start, diff, k), Edge(start, diff, k) + diff)
      && bars[k].y == Edge(start, diff, k) + diff
      && bars[k].y - diff < maxVal
    ensures BarCounts(bars) == BinCounts(rows, m, start, diff, |bars|)
  {
    bars := [];
    var i := start;
    var k := 0;
    while i < maxVal
      invariant 0 <= k <= StepCount(start, diff, maxVal)
      invariant i == Edge(start, diff, k)
      invariant |bars| == k
      invariant forall j :: 0 <= j < k ==>
        && bars[j].x == CountIn(rows, m, Edge(start, diff, j), Edge(start, diff, j) + diff)
        && bars[j].y == Edge(start, diff, j) + diff
        && bars[j].y - diff < maxVal
      decreases StepCount(start, diff, maxVal) - k
    {
      StepCountExact(start, diff, maxVal, k);
      bars := bars + [StepBar(CountIn(rows, m, i, i + diff), i + diff)];
      i := i + diff;
      k := k + 1;
    }
    StepCountExact(start, diff, maxVal, k);
  }

  /** What `updateVis` computes. */
  datatype View = View(
    rows: seq<Row>,
    regionRows: seq<Row>,
    start: Option<real>,
    bars: seq<StepBar>,
    regionBars: seq<StepBar>,
    xMax: Option<nat>,
    yDomain: Option<(real, real)>)

  /** `updateVis`: the rows of the selected year with a non-zero attribute,
      the subset in the region, both binned from the floor of the smallest
      value up to the largest; x domain [0, tallest bar], y domain
      [smallest, largest]. With no rows the minimum and maximum are
      undefined, the start is NaN and the loops never run. */
  method UpdateVis(data: seq<Row>, year: int, attr: Metric, regionIds: seq<CountryId>) returns (v: View)
    ensures forall x :: x in v.rows <==> x in data && x.year == year && Value(x, attr) != 0.0
    ensures forall x :: x in v.regionRows <==> x in v.rows && x.id in regionIds
    ensures IsSubsequence(v.rows, data) && IsSubsequence(v.regionRows, v.rows)
    ensures v.rows == PlottedRows(data, year, attr) && v.regionRows == RegionSubset(v.rows, regionIds)
    ensures v.rows == [] ==> v.start.None? && v.bars == [] && v.regionBars == [] && v.yDomain.None?
    ensures v.rows != [] ==>
      && v.start == Some(MinOf(v.rows, attr).value.Floor as real)
      && v.yDomain == Some((MinOf(v.rows, attr).value, MaxOf(v.rows, attr).value))
      && v.yDomain.value.0 <= v.yDomain.value.1
      && (forall x :: x in v.rows ==> v.start.value <= Value(x, attr))
      && |v.bars| == StepCount(v.start.value, Step(attr), v.yDomain.value.1)
      && BarCounts(v.bars) == BinCounts(v.rows, attr, v.start.value, Step(attr), |v.bars|)
      && BarCounts(v.regionBars) == BinCounts(v.regionRows, attr, v.start.value, Step(attr), |v.bars|)
      && (forall k :: 0 <= k < |v.bars| ==> v.bars[k].y == Edge(v.start.value, Step(attr), k) + Step(attr))
    ensures |v.regionBars| == |v.bars|
    ensures forall k :: 0 <= k < |v.bars| ==>
      v.regionBars[k].y == v.bars[k].y && v.regionBars[k].x <= v.bars[k].x
    ensures Sum(BarCounts(v.bars)) <= |v.rows|
    ensures v.xMax == MaxCount(BarCounts(v.bars))
  {
    var rows := PlottedRows(data, year, attr);
    var regionRows := RegionSubset(rows, regionIds);
    if rows == [] {
      v := View(rows, regionRows, None, [], [], None, None);
      return;
    }
    var start, bars, regionBars := BinFromFloor(rows, regionIds, attr);
    var lo, hi := MinOf(rows, attr).value, MaxOf(rows, attr).value;
    v := View(rows, regionRows, Some(start), bars, regionBars, MaxCount(BarCounts(bars)), Some((lo, hi)));
  }

  /** The non-empty case: the first edge is the floor of the smallest
      value, the loops run up to the largest. */
  method BinFromFloor(rows: seq<Row>, regionIds: seq<CountryId>, attr: Metric)
    returns (start: real, bars: seq<StepBar>, regionBars: seq<StepBar>)
    requires rows != []
    ensures start == MinOf(rows, attr).value.Floor as real
    ensures forall x :: x in rows ==> start <= Value(x, attr)
    ensures MinOf(rows, attr).value <= MaxOf(rows, attr).value
    ensures |bars| == |regionBars| == StepCount(start, Step(attr), MaxOf(rows, attr).value)
    ensures BarCounts(bars) == BinCounts(rows, attr, start, Step(attr), |bars|)
    ensures BarCounts(regionBars) == BinCounts(RegionSubset(rows, regionIds), attr, start, Step(attr), |bars|)
    ensures forall k :: 0 <= k < |bars| ==> bars[k].y == Edge(start, Step(attr), k) + Step(attr)
    ensures forall k :: 0 <= k < |bars| ==>
      regionBars[k].y == bars[k].y && regionBars[k].x <= bars[k].x
    ensures Sum(BarCounts(bars)) <= |rows|
  {
    start := MinOf(rows, attr).value.Floor as real;
    StartBelowRows(rows, attr);
    bars, regionBars := BinBoth(rows, regionIds, attr, start, MaxOf(rows, attr).value);
  }

  /** Both count loops over the same edges: the full series and the series
      of the region members. */
  method BinBoth(rows: seq<Row>, regionIds: seq<CountryId>, attr: Metric, start: real, maxVal: real)
    returns (bars: seq<StepBar>, regionBars: seq<StepBar>)
    ensures |bars| == |regionBars| == StepCount(start, Step(attr), maxVal)
    ensures BarCounts(bars) == BinCounts(rows, attr, start, Step(attr), |bars|)
    ensures BarCounts(regionBars) == BinCounts(RegionSubset(rows, regionIds), attr, start, Step(attr), |bars|)
    ensures forall k :: 0 <= k < |bars| ==> bars[k].y == Edge(start, Step(attr), k) + Step(attr)
    ensures forall k :: 0 <= k < |bars| ==>
      regionBars[k].y == bars[k].y && regionBars[k].x <= bars[k].x
    ensures Sum(BarCounts(bars)) <= |rows|
  {
    var diff := Step(attr);
    bars := CountStepBins(rows, attr, start, diff, maxVal);
    regionBars := CountStepBins(RegionSubset(rows, regionIds), attr, start, diff, maxVal);
    SubsetBinsBelow(rows, (x: Row) => x.id in regionIds, attr, start, diff, |bars|);
    BinsSumAtMostRows(rows, attr, start, diff, |bars|);
  }

  /** The first edge, the floor of the smallest value, lies at or below
      every value, and the smallest value at or below the largest. */
  lemma StartBelowRows(rows: seq<Row>, m: Metric)
    requires rows != []
    ensures forall x :: x in rows ==> MinOf(rows, m).value.Floor as real <= Value(x, m)
    ensures MinOf(rows, m).value <= MaxOf(rows, m).value
  {
    assert rows[0] in rows;
  }

  /** Whenever the largest value lies exactly on a bin edge, the loop stops
      at that edge, so the row holding it is in no bar. */
  lemma EdgeMaxRowDropped(rows: seq<Row>, m: Metric, k: nat)
    requires rows != []
    requires Edge(MinOf(rows, m).value.Floor as real, Step(m), k) == MaxOf(rows, m).value
    ensures var start := MinOf(rows, m).value.Floor as real;
      Sum(BinCounts(rows, m, start, Step(m), StepCount(start, Step(m), MaxOf(rows, m).value))) < |rows|
  {
    var start, diff, top := MinOf(rows, m).value.Floor as real, Step(m), MaxOf(rows, m).value;
    var n := StepCount(start, diff, top);
    StepCountExact(start, diff, top, k);
    StepCountExact(start, diff, top, n);
    EdgeMonotone(start, diff, n, k);
    BinsSum(rows, m, start, diff, n);
    var x :| x in rows && Value(x, m) == top;
    CountMisses(rows, m, start, Edge(start, diff, n), x);
  }

  /** The concrete case: a single row whose value is an integer starts and
      ends the loop at the same edge, and the chart has no bar at all. */
  lemma SingleIntegerRowNoBars(x: Row, m: Metric)
    requires Value(x, m) == 3.0
    ensures StepCount(MinOf([x], m).value.Floor as real, Step(m), MaxOf([x], m).value) == 0
  {
  }

  /** How many edges `for (i = start; i <= maxVal; i = i + diff)` visits. */
  function InclusiveStepCount(start: real, diff: real, maxVal: real): nat
    requires diff > 0.0
  {
    if maxVal < start then 0 else ((maxVal - start) / diff).Floor + 1
  }

  /** The edges visited are exactly those at or below `maxVal`. */
  lemma InclusiveStepCountExact(start: real, diff: real, maxVal: real, k: nat)
    requires diff > 0.0
    ensures k < InclusiveStepCount(start, diff, maxVal) <==> Edge(start, diff, k) <= maxVal
  {
    if maxVal >= start {
      var q := (maxVal - start) / diff;
      assert InclusiveStepCount(start, diff, maxVal) == q.Floor + 1;
      FloorAtMost(q, k);
      DivMul(maxVal - start, diff);
      StepsAtMost(k as real, q, diff, maxVal - start);
    } else {
      assert k as real * diff >= 0.0;
      assert Edge(start, diff, k) >= start;
    }
  }

  /** `i <= floor(q)` exactly when `i <= q`, for an integer `i`. */
  lemma FloorAtMost(q: real, i: int)
    ensures i <= q.Floor <==> (i as real) <= q
  {
  }

  lemma DivMul(x: real, d: real)
    requires d != 0.0
    ensures x / d * d == x
  {
  }

  lemma ScaleAtMost(a: real, b: real, c: real)
    requires c > 0.0
    ensures a <= b <==> a * c <= b * c
  {
    ScaleStrict(b, a, c);
  }

  /** `k` steps of width `diff` stay within `w` exactly when `k` is at most
      the quotient `q = w / diff`. */
  lemma StepsAtMost(k: real, q: real, diff: real, w: real)
    requires diff > 0.0 && q * diff == w
    ensures k <= q <==> k * diff <= w
  {
    ScaleAtMost(k, q, diff);
  }

  /** The count loop with the evidently intended bound `i <= maxVal`. */
  method CountStepBinsInclusive(rows: seq<Row>, m: Metric, start: real, diff: real, maxVal: real)
    returns (bars: seq<StepBar>)
    requires diff > 0.0
    ensures |bars| == InclusiveStepCount(start, diff, maxVal)
    ensures forall k :: 0 <= k < |bars| ==>
      && bars[k].x == CountIn(rows, m, Edge(start, diff, k), Edge(start, diff, k) + diff)
      && bars[k].y == Edge(start, diff, k) + diff
      && bars[k].y - diff <= maxVal
    ensures BarCounts(bars) == BinCounts(rows, m, start, diff, |bars|)
  {
    bars := [];
    var i := start;
    var k := 0;
    while i <= maxVal
      invariant 0 <= k <= InclusiveStepCount(start, diff, maxVal)
      invariant i == Edge(start, diff, k)
      invariant |bars| == k
      invariant forall j :: 0 <= j < k ==>
        && bars[j].x == CountIn(rows, m, Edge(start, diff, j), Edge(start, diff, j) + diff)
        && bars[j].y == Edge(start, diff, j) + diff
        && bars[j].y - diff <= maxVal
      decreases InclusiveStepCount(start, diff, maxVal) - k
    {
      InclusiveStepCountExact(start, diff, maxVal, k);
      bars := bars + [StepBar(CountIn(rows, m, i, i + diff), i + diff)];
      i := i + diff;
      k := k + 1;
    }
    InclusiveStepCountExact(start, diff, maxVal, k);
  }

  /** With the inclusive bound every plotted row lands in exactly one bar:
      the bars add up to the number of rows. */
  lemma InclusiveStepBinsCountEveryRow(rows: seq<Row>, m: Metric)
    requires rows != []
    ensures var start := MinOf(rows, m).value.Floor as real;
      Sum(BinCounts(rows, m, start, Step(m), InclusiveStepCount(start, Step(m), MaxOf(rows, m).value))) == |rows|
  {
    var start, diff, top := MinOf(rows, m).value.Floor as real, Step(m), MaxOf(rows, m).value;
    var n := InclusiveStepCount(start, diff, top);
    InclusiveStepCountExact(start, diff, top, n);
    BinsSum(rows, m, start, diff, n);
    CountAll(rows, m, start, Edge(start, diff, n));
  }
}
