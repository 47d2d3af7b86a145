/**
  The data shaping of the radar (spider) chart: which rows it draws, the
  closed outline of one row and the flat list of its clickable points. The
  angle of each axis and the resulting screen position are trigonometry
  done by the renderer; they enter here as the function `place`.
 */
module RadarPlot {
  import opened Dataset
  import opened Selection

  /** One spoke of the chart: the data column it reads and its label. */
  datatype Axis = Axis(name: string, caption: string)

  const Axes: seq<Axis> := [
    Axis("Life Ladder", "Life Ladder"),
    Axis("Log GDP per capita pecentile", "GDP Per Capita"),
    Axis("Social support pecentile", "Social Support"),
    Axis("Healthy life expectancy at birth pecentile", "Life Expentancy"),
    Axis("Freedom to make life choices pecentile", "Freedom"),
    Axis("Generosity pecentile", "Generosity"),
    Axis("Perceptions of corruption pecentile", "Corruption")
  ]

  /** The radius of the outer circle: half the inner width, which is the
      500-pixel container less two 100-pixel margins. */
  const Radius: real := (500.0 - 100.0 - 100.0) / 2.0

  /** The radial scale: domain [0, 100] (percentages) onto [0, Radius]. */
  function RadialScale(v: real): (r: real)
    ensures v == 0.0 ==> r == 0.0
    ensures v == 100.0 ==> r == Radius
    ensures 0.0 <= v <= 100.0 ==> 0.0 <= r <= Radius
  {
    v * Radius / 100.0
  }

  lemma RadialScaleMonotone(a: real, b: real)
    requires a <= b
    ensures RadialScale(a) <= RadialScale(b)
  {
  }

  /** How `updateVis` was called: with no arguments (as every call site
      does), or with a selection and a year. */
  datatype Call = NoArguments | Arguments(countries: seq<Slot>, year: Option<int>)

  /** `filteredData`: the rows whose `Country name` is one of the selected
      values and whose year loosely equals the selected year. The year
      arrives as a string or `null`; a number loosely equals the string of
      the same number and never equals `null`. */
  function FilterRows(data: seq<Row>, countries: seq<Slot>, year: Option<int>): (r: seq<Row>)
    ensures forall x :: x in r <==> x in data && Holds(x.name) in countries && year == Some(x.year)
    ensures forall x :: multiset(r)[x] == if Holds(x.name) in countries && year == Some(x.year) then multiset(data)[x] else 0
    ensures IsSubsequence(r, data)
  {
    var p := (x: Row) => Holds(x.name) in countries && year == Some(x.year);
    FilterMultiplicity(data, p);
    Filter(data, p)
  }

  /** `updateVis(countriesSelected = [], yearSelected = null)`: called with
      no arguments it filters with the defaults and selects nothing. */
  function UpdateVis(data: seq<Row>, call: Call): (r: seq<Row>)
    ensures call.NoArguments? ==> r == []
    ensures call.Arguments? ==> forall x :: x in r <==>
      x in data && Holds(x.name) in call.countries && call.year == Some(x.year)
  {
    match call
    case NoArguments => FilterRows(data, [], None)
    case Arguments(countries, year) => FilterRows(data, countries, year)
  }

  datatype Point = Point(x: real, y: real)

  /** `createPathForRow`: one position per axis, then the first position
      again so that the outline closes. */
  function PathForRow(d: Row, read: (Row, string) -> real, place: (nat, real) -> Point): (path: seq<Point>)
    ensures |path| == |Axes| + 1
    ensures path[|Axes|] == path[0]
    ensures forall i :: 0 <= i < |Axes| ==> path[i] == place(i, RadialScale(read(d, Axes[i].name)))
  {
    var around := seq(|Axes|, i requires 0 <= i < |Axes| => place(i, RadialScale(read(d, Axes[i].name))));
    around + [around[0]]
  }

  /** One clickable point of the chart. */
  datatype RadarPoint = RadarPoint(index: nat, caption: string, name: string, value: real, dataPercent: real, data: Row)

  function PointFor(i: nat, d: Row, a: Axis, read: (Row, string) -> real): RadarPoint {
    RadarPoint(i, a.caption, a.name, RadialScale(read(d, a.name)), read(d, a.name), d)
  }

  /** `points`: for each row in order, one point per axis in order. Point k
      belongs to row k / |Axes| and axis k % |Axes|. */
  method Points(rows: seq<Row>, read: (Row, string) -> real) returns (points: seq<RadarPoint>)
    ensures |points| == |rows| * |Axes|
    ensures forall k :: 0 <= k < |points| ==>
      points[k] == PointFor(k / |Axes|, rows[k / |Axes|], Axes[k % |Axes|], read)
  {
    var n := |Axes|;
    points := [];
    var i := 0;
    while i < |rows|
      invariant 0 <= i <= |rows|
      invariant |points| == i * n
      invariant forall k :: 0 <= k < |points| ==> k / n < |rows| && points[k] == PointFor(k / n, rows[k / n], Axes[k % n], read)
    {
      var j := 0;
      while j < n
        invariant 0 <= j <= n
        invariant |points| == i * n + j
        invariant forall k :: 0 <= k < |points| ==> k / n < |rows| && points[k] == PointFor(k / n, rows[k / n], Axes[k % n], read)
      {
        RowMajor(i, j, n);
        points := points + [PointFor(i, rows[i], Axes[j], read)];
        j := j + 1;
      }
      i := i + 1;
    }
  }

  /** Position `i * n + j` of a row-major layout is row `i`, column `j`. */
  lemma RowMajor(i: nat, j: nat, n: nat)
    requires j < n
    ensures (i * n + j) / n == i && (i * n + j) % n == j
  {
    var k := i * n + j;
    var q, r := k / n, k % n;
    assert k == q * n + r && 0 <= r < n;
    assert (q - i) * n == j - r;
    Cancel(q - i, n, j - r);
  }

  /** A multiple of `n` strictly between `-n` and `n` is zero. */
  lemma Cancel(a: int, n: int, d: int)
    requires n > 0 && a * n == d && -n < d < n
    ensures a == 0
  {
    if a >= 1 {
      MulAtLeast(a, n);
    } else if a <= -1 {
      MulAtLeast(-a, n);
    }
  }

  lemma MulAtLeast(a: int, n: int)
    requires a >= 1 && n > 0
    ensures a * n >= n
  {
  }
}
