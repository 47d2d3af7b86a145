/**
  The world map: the fill and outline of each country, the tooltip swatch
  and text, the click that toggles a comparison slot, the colour legend
  of happiness scores, the legend of the chosen country and the selected
  region, and the marker on the chosen country. Projections, paths and
  centroids are the renderer's business and are not modelled.
 */
module GeoMap {
  import opened Dataset
  import opened Stats
  import opened Selection
  import Dashboard

  // ---------------------------------------------------------------------
  // Highlight colours
  // ---------------------------------------------------------------------

  /** The colour of a highlight mark, with `plain` for the last branch. */
  function MarkColour(m: Mark, plain: Colour): Colour
    requires m.SlotMark? ==> m.slot < |Palette|
  {
    match m
    case SlotMark(i) => Palette[i]
    case RegionMark => RegionColour
    case MyCountryMark => MyCountryColour
    case PlainMark => plain
  }

  /** `fillColor`: the slot colour of a selected country, else the region
      colour of a region member, else the chosen-country colour, else
      black. */
  function FillColor(s: SelState, ids: seq<CountryId>, k: Key): (c: Colour)
    ensures Selected(s, k) ==> c == Palette[IndexOf(s.slots, Holds(k.code))]
    ensures !Selected(s, k) && InRegion(ids, k) ==> c == RegionColour
    ensures !Selected(s, k) && !InRegion(ids, k) && IsMyCountry(s, k) ==> c == MyCountryColour
    ensures c == Black <==> !Selected(s, k) && !InRegion(ids, k) && !IsMyCountry(s, k)
  {
    MarkColour(Highlight(s, ids, k, true), Black)
  }

  /** `fillLegendColor`: the same chain, but ending in the region colour. */
  function FillLegendColor(s: SelState, ids: seq<CountryId>, k: Key): (c: Colour)
    ensures c == RegionColour <==>
      (!Selected(s, k) && !IsMyCountry(s, k)) || (!Selected(s, k) && InRegion(ids, k))
  {
    MarkColour(Highlight(s, ids, k, true), RegionColour)
  }

  /** The two chains agree on every id except those neither selected, in
      the region nor chosen, which are black on the map and in the region
      colour in the legend. */
  lemma LegendAgreesWithFill(s: SelState, ids: seq<CountryId>, k: Key)
    ensures Highlight(s, ids, k, true) != PlainMark ==> FillLegendColor(s, ids, k) == FillColor(s, ids, k)
    ensures Highlight(s, ids, k, true) == PlainMark ==>
      FillColor(s, ids, k) == Black && FillLegendColor(s, ids, k) == RegionColour
  {
  }

  /** While the chosen country sits in slot 3, a country's fill is a
      palette colour exactly when it is selected. */
  lemma FillInPaletteIffSelected(s: SelState, ids: seq<CountryId>, c: CountryId)
    requires MyCountryInSlot(s)
    ensures FillColor(s, ids, Code(c)) in Palette <==> Selected(s, Code(c))
  {
    MyCountryBranchUnreachable(s, ids, c);
  }

  /** The tooltip swatch: faded when the fill is black, opaque otherwise. */
  function TooltipOpacity(s: SelState, ids: seq<CountryId>, k: Key): (o: real)
    ensures o == 1.0 <==> Selected(s, k) || InRegion(ids, k) || IsMyCountry(s, k)
    ensures o == 0.15 <==> o != 1.0
  {
    if FillColor(s, ids, k) == Black then 0.15 else 1.0
  }

  // ---------------------------------------------------------------------
  // Country shapes
  // ---------------------------------------------------------------------

  predicate Valid(validCountries: seq<CountryId>, k: Key) {
    k.Code? && k.code in validCountries
  }

  /** The fill of a country: the colour scale at its happiness score for
      the year, else dark grey for a country with data in other years, else
      light grey. */
  function CountryFill(yearRows: seq<Row>, validCountries: seq<CountryId>, k: Key): (c: Colour)
    ensures c.Scale? <==> k.Code? && exists x :: x in yearRows && x.id == k.code
    ensures c.Scale? ==> exists x :: x in yearRows && x.id == k.code && c.score == x.happiness
    ensures c == Hex("#333") <==> !c.Scale? && Valid(validCountries, k)
    ensures c == Hex("#999") <==> !c.Scale? && !Valid(validCountries, k)
  {
    match RowOf(yearRows, k)
    case Some(x) => Scale(x.happiness)
    case None => if Valid(validCountries, k) then Hex("#333") else Hex("#999")
  }

  /** The outline of a country: thick and blue for a region member, none
      otherwise. */
  function Stroke(ids: seq<CountryId>, k: Key): (r: (Colour, nat))
    ensures r.1 > 0 <==> InRegion(ids, k)
    ensures InRegion(ids, k) ==> r == (RegionBlue, 2)
    ensures !InRegion(ids, k) ==> r == (Hex("#000000"), 0)
  {
    if InRegion(ids, k) then (RegionBlue, 2) else (Hex("#000000"), 0)
  }

  /** What the tooltip says about the score. */
  datatype ScoreText = ScoreOf(value: real) | MissingDataFor(year: int) | NoDataAvailable

  function TooltipScore(yearRows: seq<Row>, validCountries: seq<CountryId>, year: int, k: Key): (t: ScoreText)
    ensures t.ScoreOf? <==> CountryFill(yearRows, validCountries, k).Scale?
    ensures t.ScoreOf? ==> t.value == CountryFill(yearRows, validCountries, k).score
    ensures t.MissingDataFor? <==> CountryFill(yearRows, validCountries, k) == Hex("#333")
    ensures t.MissingDataFor? ==> t.year == year
  {
    match RowOf(yearRows, k)
    case Some(x) => ScoreOf(x.happiness)
    case None => if Valid(validCountries, k) then MissingDataFor(year) else NoDataAvailable
  }

  /** The tooltip title: the country's name from the region table, or
      "Somalia" when the table has no row for the feature. */
  function TooltipName(regions: seq<RegionRow>, k: Key): (n: string)
    ensures k.Code? && (exists g :: g in regions && g.code == k.code) ==>
      exists g :: g in regions && g.code == k.code && n == g.name
    ensures !k.Code? || (forall g :: g in regions ==> g.code != k.code) ==> n == "Somalia"
  {
    if k.Code? then
      match FindRegion(regions, k.code)
      case Some(g) => g.name
      case None => "Somalia"
    else "Somalia"
  }

  // ---------------------------------------------------------------------
  // Click
  // ---------------------------------------------------------------------

  /** A click on a country with data toggles its comparison slot, unless it
      is the chosen country (`d.id != myCountry`). */
  function Click(s: SelState, validCountries: seq<CountryId>, k: Key): (r: SelState)
    ensures r.myCountry == s.myCountry
    ensures Valid(validCountries, k) && s.myCountry != Some(k.code) ==> r == UpdateSelection(s, k.code)
    ensures !Valid(validCountries, k) || s.myCountry == Some(k.code) ==> r == s
  {
    if Valid(validCountries, k) && s.myCountry != Some(k.code) then UpdateSelection(s, k.code) else s
  }

  /** The click guard keeps the chosen country in slot 3. */
  lemma ClickKeepsSlot(s: SelState, validCountries: seq<CountryId>, k: Key)
    requires MyCountryInSlot(s)
    ensures MyCountryInSlot(Click(s, validCountries, k))
  {
    if Valid(validCountries, k) && s.myCountry != Some(k.code) {
      UpdateSelectionKeepsSlot(s, k.code);
    }
  }

  /** Two clicks on the same country with data, when it is not selected and
      a slot is free, leave the selection as it was. */
  lemma ClickTwiceRestores(s: SelState, validCountries: seq<CountryId>, c: CountryId)
    requires c in validCountries && s.myCountry != Some(c)
    requires Holds(c) !in s.slots && Empty in s.slots
    ensures Click(Click(s, validCountries, Code(c)), validCountries, Code(c)) == s
  {
    ToggleTwiceRestores(s, c);
  }

  // ---------------------------------------------------------------------
  // Legends and marker
  // ---------------------------------------------------------------------

  /** One stop of the colour legend. */
  datatype Tick = Tick(colour: Colour, value: int)

  /** Some row of the year scores above `i`. */
  predicate ScoreAbove(yearRows: seq<Row>, i: int) {
    exists x :: x in yearRows && (i as real) < x.happiness
  }

  /** `legendTicks`: one tick per integer from 0 below the ceiling of the
      year's largest score (none when the year has no rows). */
  function LegendTicks(yearRows: seq<Row>): (ticks: seq<Tick>)
    ensures forall i :: 0 <= i < |ticks| ==> ticks[i] == Tick(Scale(i as real), i) && ScoreAbove(yearRows, i)
    ensures forall i: nat :: ScoreAbove(yearRows, i) ==> i < |ticks|
  {
    var top := MaxOf(yearRows, Happiness);
    var n := UnitCount(top);
    TicksExact(yearRows, n);
    seq(n, i requires 0 <= i < n => Tick(Scale(i as real), i))
  }

  lemma TicksExact(yearRows: seq<Row>, n: nat)
    requires n == UnitCount(MaxOf(yearRows, Happiness))
    ensures forall i: nat :: i < n <==> ScoreAbove(yearRows, i)
  {
    var top := MaxOf(yearRows, Happiness);
    forall i: nat
      ensures i < n <==> ScoreAbove(yearRows, i)
    {
      UnitCountExact(top, i);
    }
  }

  /** The legend entries: the chosen country (named from the region table,
      keyed by its code, or by `null` when none is chosen), then the
      selected region's percentiles entry, whose `id` is `undefined`. */
  datatype LegendEntry = LegendEntry(name: string, key: Key)

  function MyCountryKey(s: SelState): (k: Key)
    ensures IsMyCountry(s, k)
  {
    if s.myCountry.Some? then Code(s.myCountry.value) else Null
  }

  function SelectedCountriesData(s: SelState, regions: seq<RegionRow>,
                                 percentiles: Option<Dashboard.RegionPercentiles>): (r: seq<LegendEntry>)
    ensures |r| == if percentiles.Some? then 2 else 1
    ensures r[0].key == MyCountryKey(s)
    ensures s.myCountry.None? ==> r[0].name == ""
    ensures s.myCountry.Some? && (forall g :: g in regions ==> g.code != s.myCountry.value) ==> r[0].name == ""
    ensures s.myCountry.Some? && (exists g :: g in regions && g.code == s.myCountry.value) ==>
      exists g :: g in regions && g.code == s.myCountry.value && r[0].name == g.name
    ensures percentiles.Some? ==> r[1] == LegendEntry(percentiles.value.regionName, Undefined)
  {
    var name := if s.myCountry.None? then ""
      else match FindRegion(regions, s.myCountry.value)
        case Some(g) => g.name
        case None => "";
    var first := LegendEntry(name, MyCountryKey(s));
    if percentiles.Some? then [first, LegendEntry(percentiles.value.regionName, Undefined)] else [first]
  }

  /** The percentiles entry is always drawn in the region colour: no slot,
      region member or chosen country has the id `undefined`. */
  lemma PercentileEntryInRegionColour(s: SelState, ids: seq<CountryId>, regions: seq<RegionRow>,
                                      p: Dashboard.RegionPercentiles)
    ensures FillLegendColor(s, ids, SelectedCountriesData(s, regions, Some(p))[1].key) == RegionColour
  {
  }

  /** The chosen country's entry takes the chosen-country colour when it
      occupies only slot 3, and so does the entry of no chosen country,
      because `null === null`. */
  lemma MyCountryEntryColour(s: SelState, ids: seq<CountryId>, regions: seq<RegionRow>,
                             percentiles: Option<Dashboard.RegionPercentiles>)
    requires MyCountryInSlot(s)
    requires s.myCountry.Some? ==> Holds(s.myCountry.value) !in s.slots[..MyCountrySlot]
    ensures FillLegendColor(s, ids, SelectedCountriesData(s, regions, percentiles)[0].key) == MyCountryColour
  {
    if s.myCountry.Some? {
      var c := s.myCountry.value;
      assert s.slots[MyCountrySlot] == Holds(c);
      assert s.slots == s.slots[..MyCountrySlot] + [s.slots[MyCountrySlot]];
      assert IndexOf(s.slots, Holds(c)) == MyCountrySlot;
    }
  }

  /** The marker data: the chosen country, or nothing. */
  function MarkerData(s: SelState): (r: seq<CountryId>)
    ensures |r| <= 1
    ensures r == [] <==> s.myCountry.None?
    ensures forall c :: c in r <==> s.myCountry == Some(c)
  {
    if s.myCountry.None? then [] else [s.myCountry.value]
  }
}
