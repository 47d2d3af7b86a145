/**
  The derived data the dashboard's top level computes from the shared
  state: the confidence level behind the slider, the region members and
  the regional percentile ranks, and the rows handed to the radar chart.
 */
module Dashboard {
  import opened Dataset
  import opened Stats
  import opened Selection
  import RadarPlot

  // ---------------------------------------------------------------------
  // Confidence slider
  // ---------------------------------------------------------------------

  /** The confidence level set from the slider's percentage `v`. */
  function ConfidenceLevel(v: real): (c: real)
    ensures 100.0 - 100.0 * c == v
    ensures 0.0 <= v <= 100.0 ==> 0.0 <= c <= 1.0
  {
    (100.0 - v) / 100.0
  }

  /** A higher slider percentage gives a lower confidence level. */
  lemma ConfidenceLevelDecreasing(v: real, w: real)
    requires v <= w
    ensures ConfidenceLevel(w) <= ConfidenceLevel(v)
  {
  }

  // ---------------------------------------------------------------------
  // Percentile ranks
  // ---------------------------------------------------------------------

  /** The one metric ranked the other way round: a lower perception of
      corruption is better, so its rank counts the values at or above. */
  predicate Inverted(m: Metric) {
    m == Corruption
  }

  /** `d[m] <= mean` (`>=` for the inverted metric). A missing mean
      (`undefined`) compares false with every value. */
  predicate Qualifies(x: Row, m: Metric, mean: Option<real>) {
    mean.Some? && (if Inverted(m) then Value(x, m) >= mean.value else Value(x, m) <= mean.value)
  }

  /** `data.filter(d => d[m] <= mean).length`. */
  function CountQualifying(data: seq<Row>, m: Metric, mean: Option<real>): (n: nat)
    ensures n <= |data|
    ensures mean.None? ==> n == 0
  {
    if data == [] then 0
    else (if Qualifies(data[0], m, mean) then 1 else 0) + CountQualifying(data[1..], m, mean)
  }

  /** `count / data.length * 100`; with no data the division is 0/0, NaN,
      written `None`. */
  function PercentileRank(data: seq<Row>, m: Metric, mean: Option<real>): (r: Option<real>)
    ensures r.None? <==> data == []
    ensures r.Some? ==> 0.0 <= r.value <= 100.0
    ensures r.Some? && mean.None? ==> r.value == 0.0
  {
    if data == [] then None
    else Some(CountQualifying(data, m, mean) as real / |data| as real * 100.0)
  }

  lemma {:induction false} CountQualifyingMonotone(data: seq<Row>, m: Metric, a: real, b: real)
    requires a <= b
    ensures !Inverted(m) ==> CountQualifying(data, m, Some(a)) <= CountQualifying(data, m, Some(b))
    ensures Inverted(m) ==> CountQualifying(data, m, Some(b)) <= CountQualifying(data, m, Some(a))
  {
    if data != [] {
      CountQualifyingMonotone(data[1..], m, a, b);
    }
  }

  /** A larger mean never ranks lower, except for the inverted metric,
      where it never ranks higher. */
  lemma PercentileMonotone(data: seq<Row>, m: Metric, a: real, b: real)
    requires data != [] && a <= b
    ensures !Inverted(m) ==> PercentileRank(data, m, Some(a)).value <= PercentileRank(data, m, Some(b)).value
    ensures Inverted(m) ==> PercentileRank(data, m, Some(b)).value <= PercentileRank(data, m, Some(a)).value
  {
    CountQualifyingMonotone(data, m, a, b);
    var n := |data| as real;
    var ca, cb := CountQualifying(data, m, Some(a)) as real, CountQualifying(data, m, Some(b)) as real;
    DivideMonotone(ca, cb, n);
    DivideMonotone(cb, ca, n);
  }

  lemma DivideMonotone(x: real, y: real, n: real)
    requires n > 0.0
    ensures x <= y ==> x / n * 100.0 <= y / n * 100.0
  {
  }

  /** A mean at or above every value ranks 100 (at or below every value, for
      the inverted metric): all of the data qualifies. */
  lemma PercentileOfExtreme(data: seq<Row>, m: Metric, mean: real)
    requires data != []
    requires forall x :: x in data ==> (if Inverted(m) then Value(x, m) >= mean else Value(x, m) <= mean)
    ensures PercentileRank(data, m, Some(mean)) == Some(100.0)
  {
    AllQualify(data, m, mean);
    var n := |data| as real;
    assert n / n == 1.0;
  }

  lemma {:induction false} AllQualify(data: seq<Row>, m: Metric, mean: real)
    requires forall x :: x in data ==> (if Inverted(m) then Value(x, m) >= mean else Value(x, m) <= mean)
    ensures CountQualifying(data, m, Some(mean)) == |data|
  {
    if data != [] {
      assert data[0] in data;
      assert forall x :: x in data[1..] ==> x in data;
      AllQualify(data[1..], m, mean);
    }
  }

  // ---------------------------------------------------------------------
  // Region data
  // ---------------------------------------------------------------------

  /** `selectedRegionPercentiles`: the region's name under `Country name`
      and one percentile rank per metric. */
  datatype RegionPercentiles = RegionPercentiles(regionName: string, ranks: map<Metric, Option<real>>)

  /** What `updateRegionData` leaves behind: `filteredRegionIds`, and the
      percentiles object or `null` (`None`). */
  datatype RegionData = RegionData(ids: seq<CountryId>, percentiles: Option<RegionPercentiles>)

  /** The rank of the region's mean for metric `m` over this year's member
      rows, ranked against every row of every year. */
  function RegionRank(data: seq<Row>, yearRows: seq<Row>, ids: seq<CountryId>, m: Metric): Option<real> {
    PercentileRank(data, m, Mean(RegionSubset(yearRows, ids), m))
  }

  /** `updateRegionData`: the member ids are the codes of the region rows
      whose `column` equals `region`; with no member there are no
      percentiles, otherwise one rank per metric. */
  function UpdateRegionData(regions: seq<RegionRow>, column: string, region: string,
                            yearRows: seq<Row>, data: seq<Row>): (r: RegionData)
    ensures forall c :: c in r.ids <==> exists g :: g in regions && Matches(g, column, region) && g.code == c
    ensures r.percentiles.None? <==> r.ids == []
    ensures r.percentiles.None? <==> forall g :: g in regions ==> !Matches(g, column, region)
    ensures r.percentiles.Some? ==>
      && r.percentiles.value.regionName == region
      && r.percentiles.value.ranks.Keys == AllMetrics
      && forall m :: m in AllMetrics ==>
           && r.percentiles.value.ranks[m] == RegionRank(data, yearRows, r.ids, m)
           && (data != [] ==> r.percentiles.value.ranks[m].Some?
                              && 0.0 <= r.percentiles.value.ranks[m].value <= 100.0)
  {
    var ids := RegionIds(regions, column, region);
    if ids == [] then RegionData(ids, None)
    else RegionData(ids, Some(RegionPercentiles(region,
      map m | m in AllMetrics :: RegionRank(data, yearRows, ids, m))))
  }

  // ---------------------------------------------------------------------
  // The radar chart's rows
  // ---------------------------------------------------------------------

  /** `updateRadarPlot(countries, year)` as written: it stores its
      arguments on the chart, then calls `updateVis()` with none, whose
      defaults replace them; the chart is handed no rows whatever is
      selected. */
  function UpdateRadarPlot(data: seq<Row>, s: SelState, year: int): (r: seq<Row>)
    ensures r == []
  {
    RadarPlot.UpdateVis(data, RadarPlot.NoArguments)
  }

  /** A selected country whose row for the year exists is still not drawn. */
  lemma SelectedRowNotDrawn(data: seq<Row>, s: SelState, year: int, x: Row)
    requires x in data && x.year == year && Holds(x.id) in s.slots
    ensures x !in UpdateRadarPlot(data, s, year)
  {
  }

  /** Even with its arguments passed on, the chart compares them with the
      `Country name` column, while the slots hold country codes: a selected
      code whose country's name differs is not drawn. */
  lemma NameFilterMissesSelectedCode(data: seq<Row>, s: SelState, year: int, x: Row)
    requires x in data && x.year == year && Holds(x.id) in s.slots
    requires forall c :: Holds(c) in s.slots ==> c != x.name
    ensures x !in RadarPlot.UpdateVis(data, RadarPlot.Arguments(s.slots, Some(year)))
  {
  }

  /** The rows the radar chart is evidently meant to draw: those of the
      selected countries (matched by code) for the selected year, in data
      order. */
  function RadarRowsForSelection(data: seq<Row>, s: SelState, year: int): (r: seq<Row>)
    ensures forall x :: x in r <==> x in data && x.year == year && Holds(x.id) in s.slots
    ensures forall x :: multiset(r)[x] == if x.year == year && Holds(x.id) in s.slots then multiset(data)[x] else 0
    ensures IsSubsequence(r, data)
  {
    var p := (x: Row) => x.year == year && Holds(x.id) in s.slots;
    FilterMultiplicity(data, p);
    Filter(data, p)
  }

  /** Every row of a selected country in the selected year is drawn, and an
      empty selection draws nothing. */
  lemma RadarRowsComplete(data: seq<Row>, s: SelState, year: int)
    ensures forall x :: x in data && x.year == year && Holds(x.id) in s.slots ==> x in RadarRowsForSelection(data, s, year)
    ensures s.slots == Initial.slots ==> RadarRowsForSelection(data, s, year) == []
  {
  }
}
