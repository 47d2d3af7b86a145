/**
  The rows of the well-being dataset and of the region table, and the row
  filters that every view of the dashboard applies to them.

  Metric values are exact `real`s: this abstracts the JavaScript doubles of
  the dashboard (no rounding, no NaN). A value that JavaScript would report
  as `undefined` (the maximum of no rows, say) is `None`.
 */
module Dataset {

  datatype Option<+T> = None | Some(value: T)

  /** A country code: the data's `id` column, the region table's
      `country-code` column and a map feature's id are all strings. */
  type CountryId = string

  /** The seven indicator columns of a data row. */
  datatype Metric =
    | Happiness
    | LogGdp
    | SocialSupport
    | LifeExpectancy
    | Freedom
    | Generosity
    | Corruption

  const AllMetrics: set<Metric> :=
    {Happiness, LogGdp, SocialSupport, LifeExpectancy, Freedom, Generosity, Corruption}

  /** One country-year row of the data file. */
  datatype Row = Row(
    name: string,
    id: CountryId,
    year: int,
    happiness: real,
    logGdp: real,
    socialSupport: real,
    lifeExpectancy: real,
    freedom: real,
    generosity: real,
    corruption: real)

  /** `d[metric]` for a data row. */
  function Value(r: Row, m: Metric): real {
    match m
    case Happiness => r.happiness
    case LogGdp => r.logGdp
    case SocialSupport => r.socialSupport
    case LifeExpectancy => r.lifeExpectancy
    case Freedom => r.freedom
    case Generosity => r.generosity
    case Corruption => r.corruption
  }

  /** One row of the region table: its country code, its display name and
      its classification columns (`region`, `sub-region`, ...). */
  datatype RegionRow = RegionRow(code: CountryId, name: string, classes: map<string, string>)

  /** `d[column] === value`; a column the row does not have reads as
      `undefined`, which equals no string. */
  predicate Matches(g: RegionRow, column: string, value: string) {
    column in g.classes && g.classes[column] == value
  }

  /** `sub` occurs in `s` in order, possibly with gaps (greedy matching). */
  ghost predicate IsSubsequence<T>(sub: seq<T>, s: seq<T>)
    decreases |s|
  {
    if sub == [] then true
    else if s == [] then false
    else if sub[0] == s[0] then IsSubsequence(sub[1..], s[1..])
    else IsSubsequence(sub, s[1..])
  }

  /** `Array.prototype.filter`. */
  function Filter<T(!new)>(s: seq<T>, p: T -> bool): (r: seq<T>)
    ensures |r| <= |s|
    ensures forall x :: x in r <==> x in s && p(x)
    ensures IsSubsequence(r, s)
  {
    if s == [] then []
    else if p(s[0]) then [s[0]] + Filter(s[1..], p)
    else Filter(s[1..], p)
  }

  /** The filter keeps every element that passes as many times as it
      occurs, and no copy of one that fails. */
  lemma {:induction false} FilterMultiplicity<T(!new)>(s: seq<T>, p: T -> bool)
    ensures forall x :: multiset(Filter(s, p))[x] == if p(x) then multiset(s)[x] else 0
  {
    if s != [] {
      assert s == [s[0]] + s[1..];
      FilterMultiplicity(s[1..], p);
    }
  }

  /** The rows of one year (`data.filter(d => d.year === selectedYear)`). */
  function YearRows(data: seq<Row>, year: int): (r: seq<Row>)
    ensures forall x :: x in r <==> x in data && x.year == year
    ensures forall x :: multiset(r)[x] == if x.year == year then multiset(data)[x] else 0
    ensures IsSubsequence(r, data)
  {
    var p := (x: Row) => x.year == year;
    FilterMultiplicity(data, p);
    Filter(data, p)
  }

  /** The rows a chart of `attr` plots: the selected year, and a value of
      `attr` other than 0, which the data uses for "missing". */
  function PlottedRows(data: seq<Row>, year: int, attr: Metric): (r: seq<Row>)
    ensures forall x :: x in r <==> x in data && x.year == year && Value(x, attr) != 0.0
    ensures forall x :: multiset(r)[x] == if x.year == year && Value(x, attr) != 0.0 then multiset(data)[x] else 0
    ensures IsSubsequence(r, data)
  {
    var p := (x: Row) => x.year == year && Value(x, attr) != 0.0;
    FilterMultiplicity(data, p);
    Filter(data, p)
  }

  /** `rows.filter(d => ids.includes(d.id))`. */
  function RegionSubset(rows: seq<Row>, ids: seq<CountryId>): (r: seq<Row>)
    ensures forall x :: x in r <==> x in rows && x.id in ids
    ensures forall x :: multiset(r)[x] == if x.id in ids then multiset(rows)[x] else 0
    ensures IsSubsequence(r, rows)
  {
    var p := (x: Row) => x.id in ids;
    FilterMultiplicity(rows, p);
    Filter(rows, p)
  }

  /** The country codes of the region rows whose `column` equals `value`,
      in table order. */
  function RegionIds(regions: seq<RegionRow>, column: string, value: string): (r: seq<CountryId>)
    ensures |r| <= |regions|
    ensures forall c :: c in r <==> exists g :: g in regions && Matches(g, column, value) && g.code == c
    ensures r == [] <==> forall g :: g in regions ==> !Matches(g, column, value)
  {
    if regions == [] then []
    else
      var rest := RegionIds(regions[1..], column, value);
      assert forall g :: g in regions[1..] ==> g in regions;
      if Matches(regions[0], column, value) then [regions[0].code] + rest else rest
  }

  /** The first row with the given id (`rows.filter(e => e.id === id)[0]`). */
  function FindRow(rows: seq<Row>, id: CountryId): (r: Option<Row>)
    ensures r.None? <==> forall x :: x in rows ==> x.id != id
    ensures r.Some? ==> r.value in rows && r.value.id == id
    ensures r.Some? ==> exists i :: 0 <= i < |rows| && rows[i] == r.value && forall j :: 0 <= j < i ==> rows[j].id != id
  {
    if rows == [] then None
    else if rows[0].id == id then Some(rows[0])
    else
      var r := FindRow(rows[1..], id);
      assert forall x :: x in rows[1..] ==> x in rows;
      if r.Some? then
        ghost var i :| 0 <= i < |rows[1..]| && rows[1..][i] == r.value && forall j :: 0 <= j < i ==> rows[1..][j].id != id;
        assert rows[i + 1] == r.value && forall j :: 0 <= j < i + 1 ==> rows[j].id != id;
        r
      else r
  }

  /** The first region row with the given code
      (`regions.find(e => e["country-code"] === code)`). */
  function FindRegion(regions: seq<RegionRow>, code: CountryId): (r: Option<RegionRow>)
    ensures r.None? <==> forall g :: g in regions ==> g.code != code
    ensures r.Some? ==> r.value in regions && r.value.code == code
    ensures r.Some? ==> exists i :: 0 <= i < |regions| && regions[i] == r.value && forall j :: 0 <= j < i ==> regions[j].code != code
  {
    if regions == [] then None
    else if regions[0].code == code then Some(regions[0])
    else
      var r := FindRegion(regions[1..], code);
      assert forall g :: g in regions[1..] ==> g in regions;
      if r.Some? then
        ghost var i :| 0 <= i < |regions[1..]| && regions[1..][i] == r.value && forall j :: 0 <= j < i ==> regions[1..][j].code != code;
        assert regions[i + 1] == r.value && forall j :: 0 <= j < i + 1 ==> regions[j].code != code;
        r
      else r
  }
}
