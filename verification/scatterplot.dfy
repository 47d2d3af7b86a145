/**
  The scatterplot of happiness score against the compared attribute: the
  dots it draws, how each dot is coloured and faded, the axis domains and
  the end points of the regression line. The least-squares fit is done by
  a statistics library; the fitted line enters as the function `line`.
 */
module Scatterplot {
  import opened Dataset
  import opened Stats
  import opened Selection

  /** A dot's fill: its slot colour when selected, region blue for a region
      member, black otherwise. The chosen country has no branch of its own. */
  function DotFill(s: SelState, ids: seq<CountryId>, x: Row): (c: Colour)
    ensures Selected(s, Code(x.id)) ==> c == Palette[IndexOf(s.slots, Holds(x.id))]
    ensures !Selected(s, Code(x.id)) && x.id in ids ==> c == RegionBlue
    ensures !Selected(s, Code(x.id)) && x.id !in ids ==> c == Black
  {
    match Highlight(s, ids, Code(x.id), false)
    case SlotMark(i) => Palette[i]
    case RegionMark => RegionBlue
    case _ => Black
  }

  /** A dot's opacity: opaque when selected, 0.6 for a region member, 0.15
      otherwise. */
  function DotOpacity(s: SelState, ids: seq<CountryId>, x: Row): (o: real)
    ensures 0.15 <= o <= 1.0
    ensures o == 1.0 <==> Selected(s, Code(x.id))
    ensures o == 0.6 <==> !Selected(s, Code(x.id)) && x.id in ids
    ensures !Selected(s, Code(x.id)) && x.id !in ids ==> o == 0.15
  {
    if Holds(x.id) in s.slots then 1.0
    else if x.id in ids then 0.6
    else 0.15
  }

  /** Fill and opacity follow the same precedence: a dot is opaque exactly
      when its fill is a palette colour, and at 0.6 exactly when it is
      region blue. */
  lemma OpacityMatchesFill(s: SelState, ids: seq<CountryId>, x: Row)
    ensures DotOpacity(s, ids, x) == 1.0 <==> DotFill(s, ids, x) in Palette
    ensures DotOpacity(s, ids, x) == 0.6 <==> DotFill(s, ids, x) == RegionBlue
  {
  }

  /** A point of the regression line; `None` is `undefined` or NaN. */
  datatype RegPoint = RegPoint(x: Option<real>, y: Option<real>)

  /** What `updateVis` computes. */
  datatype View = View(
    rows: seq<Row>,
    ids: seq<CountryId>,
    xMax: Option<real>,
    yDomain: Option<(real, real)>,
    regression: seq<RegPoint>)

  /** `updateVis`: the dots are the year's rows with a non-zero attribute;
      the region members are recomputed from the region table; the x
      domain runs from 0 to the largest score of the chart's own rows; the
      y domain spans the attribute over the dots; the regression line is
      evaluated at the two ends of the x domain. */
  function UpdateVis(data: seq<Row>, chartRows: seq<Row>, year: int, attr: Metric,
                     regions: seq<RegionRow>, column: string, region: string,
                     line: real -> real): (v: View)
    ensures forall x :: x in v.rows <==> x in data && x.year == year && Value(x, attr) != 0.0
    ensures IsSubsequence(v.rows, data)
    ensures forall c :: c in v.ids <==> exists g :: g in regions && Matches(g, column, region) && g.code == c
    ensures v.xMax.None? <==> chartRows == []
    ensures v.xMax.Some? ==> forall x :: x in chartRows ==> x.happiness <= v.xMax.value
    ensures v.xMax.Some? ==> exists x :: x in chartRows && x.happiness == v.xMax.value
    ensures v.yDomain.None? <==> v.rows == []
    ensures v.rows != [] ==> v.yDomain == Some((MinOf(v.rows, attr).value, MaxOf(v.rows, attr).value))
    ensures v.yDomain.Some? ==>
      && v.yDomain.value.0 <= v.yDomain.value.1
      && forall x :: x in v.rows ==> v.yDomain.value.0 <= Value(x, attr) <= v.yDomain.value.1
    ensures |v.regression| == 2
    ensures v.regression[0] == RegPoint(Some(0.0), Some(line(0.0)))
    ensures v.regression[1].x == v.xMax
    ensures v.regression[1].y.Some? <==> v.xMax.Some?
    ensures v.xMax.Some? ==> v.regression[1].y == Some(line(v.xMax.value))
  {
    var rows := PlottedRows(data, year, attr);
    var xMax := MaxOf(chartRows, Happiness);
    var yDomain := if rows == [] then None else Some((MinOf(rows, attr).value, MaxOf(rows, attr).value));
    var far := if xMax.Some? then RegPoint(xMax, Some(line(xMax.value))) else RegPoint(None, None);
    assert rows != [] ==> rows[0] in rows;
    View(rows, RegionIds(regions, column, region), xMax, yDomain, [RegPoint(Some(0.0), Some(line(0.0))), far])
  }
}
