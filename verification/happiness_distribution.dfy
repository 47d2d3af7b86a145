/**
  The happiness-score histogram: unit-width bins from 0 up to the largest
  score of the plotted rows, one series for all of them and one for the
  members of the selected region, drawn over the same bins.
 */
module HappinessDistribution {
  import opened Dataset
  import opened Stats

  /** One bar: the bin's lower edge `x` and its row count `y`. */
  datatype Bar = Bar(x: int, y: nat)

  function Counts(bars: seq<Bar>): (r: seq<nat>)
    ensures |r| == |bars|
    ensures forall i :: 0 <= i < |bars| ==> r[i] == bars[i].y
  {
    seq(|bars|, i requires 0 <= i < |bars| => bars[i].y)
  }

  /** The count loop: for each integer `i` from 0 while `i < maxVal`, the
      number of rows with `i <= Happiness Score < i + 1`. */
  method CountUnitBins(rows: seq<Row>, maxVal: Option<real>) returns (bars: seq<Bar>)
    ensures |bars| == UnitCount(maxVal)
    ensures forall i :: 0 <= i < |bars| ==>
      bars[i].x == i && bars[i].y == CountIn(rows, Happiness, i as real, i as real + 1.0)
    ensures Counts(bars) == BinCounts(rows, Happiness, 0.0, 1.0, |bars|)
  {
    bars := [];
    var i := 0;
    while maxVal.Some? && (i as real) < maxVal.value
      invariant 0 <= i <= UnitCount(maxVal)
      invariant |bars| == i
      invariant forall k :: 0 <= k < i ==>
        bars[k].x == k && bars[k].y == CountIn(rows, Happiness, k as real, k as real + 1.0)
      decreases UnitCount(maxVal) - i
    {
      UnitCountExact(maxVal, i);
      bars := bars + [Bar(i, CountIn(rows, Happiness, i as real, i as real + 1.0))];
      i := i + 1;
    }
    UnitCountExact(maxVal, i);
    assert forall k :: 0 <= k < i ==> Edge(0.0, 1.0, k) == k as real;
  }

  /** What `updateVis` computes. */
  datatype View = View(
    rows: seq<Row>,
    regionRows: seq<Row>,
    bars: seq<Bar>,
    regionBars: seq<Bar>,
    xMax: Option<real>,
    yMax: Option<nat>)

  /** `updateVis`: the rows of the selected year with a non-zero compared
      attribute, the subset in the region, both binned over the same unit
      bins, x domain [0, largest score], y domain [0, tallest full bar]. */
  method UpdateVis(data: seq<Row>, year: int, attr: Metric, regionIds: seq<CountryId>) returns (v: View)
    ensures forall x :: x in v.rows <==> x in data && x.year == year && Value(x, attr) != 0.0
    ensures forall x :: x in v.regionRows <==> x in v.rows && x.id in regionIds
    ensures IsSubsequence(v.rows, data) && IsSubsequence(v.regionRows, v.rows)
    ensures v.rows == PlottedRows(data, year, attr) && v.regionRows == RegionSubset(v.rows, regionIds)
    ensures v.xMax == MaxOf(v.rows, Happiness)
    ensures |v.bars| == |v.regionBars| == UnitCount(v.xMax)
    ensures forall i :: 0 <= i < |v.bars| ==>
      && v.bars[i].x == v.regionBars[i].x == i
      && v.bars[i].y == CountIn(v.rows, Happiness, i as real, i as real + 1.0)
      && v.regionBars[i].y == CountIn(v.regionRows, Happiness, i as real, i as real + 1.0)
      && v.regionBars[i].y <= v.bars[i].y
    ensures Counts(v.bars) == BinCounts(v.rows, Happiness, 0.0, 1.0, |v.bars|)
    ensures Counts(v.regionBars) == BinCounts(v.regionRows, Happiness, 0.0, 1.0, |v.bars|)
    ensures Sum(Counts(v.bars)) <= |v.rows|
    ensures Sum(Counts(v.regionBars)) <= |v.regionRows|
    ensures v.yMax == MaxCount(Counts(v.bars))
    ensures v.yMax.None? <==> v.bars == []
    ensures v.yMax.Some? ==> forall i :: 0 <= i < |v.bars| ==> v.bars[i].y <= v.yMax.value
  {
    var rows := PlottedRows(data, year, attr);
    var regionRows := RegionSubset(rows, regionIds);
    var xMax := MaxOf(rows, Happiness);
    var bars, regionBars := BinBoth(rows, regionIds, xMax);
    TallestBar(bars);
    v := View(rows, regionRows, bars, regionBars, xMax, MaxCount(Counts(bars)));
  }

  /** The y domain's top, `d3.max` of the counts, is undefined exactly
      when there are no bars and is otherwise at least every bar. */
  lemma TallestBar(bars: seq<Bar>)
    ensures MaxCount(Counts(bars)).None? <==> bars == []
    ensures MaxCount(Counts(bars)).Some? ==>
      forall i :: 0 <= i < |bars| ==> bars[i].y <= MaxCount(Counts(bars)).value
  {
  }

  /** Both count loops over the same unit bins: the full series and the
      series of the region members. */
  method BinBoth(rows: seq<Row>, regionIds: seq<CountryId>, maxVal: Option<real>)
    returns (bars: seq<Bar>, regionBars: seq<Bar>)
    ensures |bars| == |regionBars| == UnitCount(maxVal)
    ensures forall i :: 0 <= i < |bars| ==>
      && bars[i].x == regionBars[i].x == i
      && bars[i].y == CountIn(rows, Happiness, i as real, i as real + 1.0)
      && regionBars[i].y == CountIn(RegionSubset(rows, regionIds), Happiness, i as real, i as real + 1.0)
      && regionBars[i].y <= bars[i].y
    ensures Counts(bars) == BinCounts(rows, Happiness, 0.0, 1.0, |bars|)
    ensures Counts(regionBars) == BinCounts(RegionSubset(rows, regionIds), Happiness, 0.0, 1.0, |bars|)
    ensures Sum(Counts(bars)) <= |rows|
    ensures Sum(Counts(regionBars)) <= |RegionSubset(rows, regionIds)|
  {
    var regionRows := RegionSubset(rows, regionIds);
    bars := CountUnitBins(rows, maxVal);
    regionBars := CountUnitBins(regionRows, maxVal);
    SubsetBinsBelow(rows, (x: Row) => x.id in regionIds, Happiness, 0.0, 1.0, |bars|);
    BinsSumAtMostRows(rows, Happiness, 0.0, 1.0, |bars|);
    BinsSumAtMostRows(regionRows, Happiness, 0.0, 1.0, |regionBars|);
  }

  /** The loop stops at the first integer not below the largest score, so
      a largest score that is itself a positive integer `n` falls outside
      the last bin [n - 1, n): that row is in no bar. */
  lemma IntegerMaxRowDropped(rows: seq<Row>)
    requires MaxOf(rows, Happiness).Some?
    requires var top := MaxOf(rows, Happiness).value; top > 0.0 && top == top.Floor as real
    ensures Sum(BinCounts(rows, Happiness, 0.0, 1.0, UnitCount(MaxOf(rows, Happiness)))) < |rows|
  {
    var top := MaxOf(rows, Happiness).value;
    var n := UnitCount(MaxOf(rows, Happiness));
    assert n == top.Floor;
    BinsSum(rows, Happiness, 0.0, 1.0, n);
    var x :| x in rows && Value(x, Happiness) == top;
    CountMisses(rows, Happiness, 0.0, Edge(0.0, 1.0, n), x);
  }

  /** How many integers `for (let i = 0; i <= maxVal; i++)` visits. */
  function InclusiveUnitCount(maxVal: Option<real>): nat {
    if maxVal.None? || maxVal.value < 0.0 then 0 else maxVal.value.Floor + 1
  }

  lemma InclusiveUnitCountExact(maxVal: Option<real>, i: int)
    requires 0 <= i
    ensures i < InclusiveUnitCount(maxVal) <==> maxVal.Some? && (i as real) <= maxVal.value
  {
  }

  /** The count loop with the evidently intended bound `i <= maxVal`: the
      last bin then contains the largest score. */
  method CountUnitBinsInclusive(rows: seq<Row>, maxVal: Option<real>) returns (bars: seq<Bar>)
    ensures |bars| == InclusiveUnitCount(maxVal)
    ensures forall i :: 0 <= i < |bars| ==>
      bars[i].x == i && bars[i].y == CountIn(rows, Happiness, i as real, i as real + 1.0)
    ensures Counts(bars) == BinCounts(rows, Happiness, 0.0, 1.0, |bars|)
  {
    bars := [];
    var i := 0;
    while maxVal.Some? && (i as real) <= maxVal.value
      invariant 0 <= i <= InclusiveUnitCount(maxVal)
      invariant |bars| == i
      invariant forall k :: 0 <= k < i ==>
        bars[k].x == k && bars[k].y == CountIn(rows, Happiness, k as real, k as real + 1.0)
      decreases InclusiveUnitCount(maxVal) - i
    {
      InclusiveUnitCountExact(maxVal, i);
      bars := bars + [Bar(i, CountIn(rows, Happiness, i as real, i as real + 1.0))];
      i := i + 1;
    }
    InclusiveUnitCountExact(maxVal, i);
    assert forall k :: 0 <= k < i ==> Edge(0.0, 1.0, k) == k as real;
  }

  /** With the inclusive bound every row with a non-negative score lands in
      exactly one bar: the bars add up to the number of rows. */
  lemma InclusiveBinsCountEveryRow(rows: seq<Row>)
    requires forall x :: x in rows ==> Value(x, Happiness) >= 0.0
    ensures Sum(BinCounts(rows, Happiness, 0.0, 1.0, InclusiveUnitCount(MaxOf(rows, Happiness)))) == |rows|
  {
    var n := InclusiveUnitCount(MaxOf(rows, Happiness));
    BinsSum(rows, Happiness, 0.0, 1.0, n);
    if rows != [] {
      var top := MaxOf(rows, Happiness).value;
      assert Edge(0.0, 1.0, n) == n as real > top;
      CountAll(rows, Happiness, 0.0, Edge(0.0, 1.0, n));
    }
  }
}
