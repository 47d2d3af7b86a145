/**
  The map on which the reader picks "my country": the projection chosen
  from the drop-down, each country's fill, outline and outline width, the
  tooltip, and the click that sets or clears the chosen country.
 */
module CountrySelector {
  import opened Dataset
  import opened Selection

  datatype Projection = NaturalEarth | Equirectangular | ConicEqualArea

  /** The `switch` on the drop-down value: the three known names pick their
      projection; any other value leaves the previous one in place. */
  function ChooseProjection(name: string, previous: Option<Projection>): (p: Option<Projection>)
    ensures name == "geoNaturalEarth" ==> p == Some(NaturalEarth)
    ensures name == "geoEquirectangular" ==> p == Some(Equirectangular)
    ensures name == "geoConicEqualArea" ==> p == Some(ConicEqualArea)
    ensures name !in {"geoNaturalEarth", "geoEquirectangular", "geoConicEqualArea"} ==> p == previous
  {
    if name == "geoNaturalEarth" then Some(NaturalEarth)
    else if name == "geoEquirectangular" then Some(Equirectangular)
    else if name == "geoConicEqualArea" then Some(ConicEqualArea)
    else previous
  }

  /** Choosing a projection twice is the same as choosing it once. */
  lemma ChooseProjectionIdempotent(name: string, previous: Option<Projection>)
    ensures ChooseProjection(name, ChooseProjection(name, previous)) == ChooseProjection(name, previous)
  {
  }

  /** The fill: the colour scale at the year's happiness score, else grey. */
  function Fill(yearRows: seq<Row>, k: Key): (c: Colour)
    ensures c.Scale? <==> k.Code? && exists x :: x in yearRows && x.id == k.code
    ensures c.Scale? ==> exists x :: x in yearRows && x.id == k.code && c.score == x.happiness
    ensures !c.Scale? ==> c == Hex("#777777")
  {
    match RowOf(yearRows, k)
    case Some(x) => Scale(x.happiness)
    case None => Hex("#777777")
  }

  /** The outline colour: the slot colour of a selected country, else
      region blue for a region member, else black. */
  function StrokeColour(s: SelState, ids: seq<CountryId>, k: Key): (c: Colour)
    ensures Selected(s, k) ==> c == Palette[IndexOf(s.slots, Holds(k.code))]
    ensures !Selected(s, k) && InRegion(ids, k) ==> c == RegionBlue
    ensures !Selected(s, k) && !InRegion(ids, k) ==> c == Hex("#000000")
  {
    match Highlight(s, ids, k, false)
    case SlotMark(i) => Palette[i]
    case RegionMark => RegionBlue
    case _ => Hex("#000000")
  }

  /** The outline width: 5 for the chosen country, 0 otherwise. A map
      feature's id is a code or `undefined`, never `null`, so no feature is
      outlined while no country is chosen. */
  function StrokeWidth(s: SelState, k: Key): (w: nat)
    ensures k != Null ==> (w > 0 <==> s.myCountry.Some? && k == Code(s.myCountry.value))
    ensures w > 0 ==> w == 5
  {
    if IsMyCountry(s, k) then 5 else 0
  }

  /** The chosen country, kept in slot 3, is outlined in the chosen-country
      colour (unless it also fills an earlier slot) and drawn with a wide
      outline. */
  lemma ChosenCountryOutline(s: SelState, ids: seq<CountryId>)
    requires MyCountryInSlot(s) && s.myCountry.Some?
    requires Holds(s.myCountry.value) !in s.slots[..MyCountrySlot]
    ensures StrokeColour(s, ids, Code(s.myCountry.value)) == MyCountryColour
    ensures StrokeWidth(s, Code(s.myCountry.value)) == 5
  {
    var c := s.myCountry.value;
    assert s.slots == s.slots[..MyCountrySlot] + [s.slots[MyCountrySlot]];
    assert IndexOf(s.slots, Holds(c)) == MyCountrySlot;
  }

  /** The tooltip: the name and score of the year's row, shown only when
      there is one. */
  function Tooltip(yearRows: seq<Row>, k: Key): (t: Option<(string, real)>)
    ensures t.Some? <==> Fill(yearRows, k).Scale?
    ensures t.Some? ==> exists x :: x in yearRows && Code(x.id) == k && t.value == (x.name, x.happiness)
  {
    match RowOf(yearRows, k)
    case Some(x) => Some((x.name, x.happiness))
    case None => None
  }

  /** A click on a country with a row for the year sets it as (or, if it
      already is, clears) the chosen country; any other click does nothing. */
  function Click(s: SelState, yearRows: seq<Row>, k: Key): (r: SelState)
    ensures k.Code? && (exists x :: x in yearRows && x.id == k.code) ==> r == SelectMyCountry(s, k.code)
    ensures !k.Code? || (forall x :: x in yearRows ==> x.id != k.code) ==> r == s
    ensures r.slots[..MyCountrySlot] == s.slots[..MyCountrySlot]
  {
    if RowOf(yearRows, k).Some? then SelectMyCountry(s, k.code) else s
  }

  /** A click keeps the chosen country in slot 3. */
  lemma ClickKeepsSlot(s: SelState, yearRows: seq<Row>, k: Key)
    requires MyCountryInSlot(s)
    ensures MyCountryInSlot(Click(s, yearRows, k))
  {
    if RowOf(yearRows, k).Some? {
      SelectMyCountryKeepsSlot(s, k.code);
    }
  }

  /** Clicking the same country twice, from a state with no chosen country
      and an empty slot 3, restores the state. */
  lemma ClickTwiceRestores(s: SelState, yearRows: seq<Row>, c: CountryId)
    requires s.myCountry.None? && s.slots[MyCountrySlot] == Empty
    ensures Click(Click(s, yearRows, Code(c)), yearRows, Code(c)) == s
  {
    if RowOf(yearRows, Code(c)).Some? {
      SelectMyCountryTwiceRestores(s, c);
    }
  }
}
