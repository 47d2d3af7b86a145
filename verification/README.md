# World Happiness dashboard: selection state and derived data

This project models the logic behind an interactive dashboard of the World
Happiness data. The model leaves out the D3 drawing. It keeps the decisions
each view makes from the shared state:

- **Shared selection state.** There are four comparison slots; slot 3
  doubles as the "my country" slot. The state also holds the chosen country.
  Two mutators change it: `updateSelection` and `selectMyCountry`.
- **Derived data.** This covers the year filter, the members of the
  selected region, and the region's percentile rank per metric. Ranks are
  taken against every row of every year, and the corruption metric is
  ranked the other way round. The confidence level set by the slider is
  also included.
- **Histograms.**
  - The happiness-score histogram uses unit bins.
  - The attribute histogram uses bins of a fixed width per attribute,
    starting at the floor of the smallest value.
  - Each has a full series and a region series over the same bins.
- **Colour, opacity and stroke precedence.** The world map, the
  scatterplot and the country-selector map all test the same order: a
  selected slot first, then a region member, then (on the world map) the
  chosen country. Both maps also have a click guard.
- **Radar chart data.** This covers which rows the chart receives, the
  closed outline of one row, and the row-major list of its points.

Modules:

| file | module | what |
|---|---|---|
| dataset.dfy | `Dataset` | rows, region table, row filters, first-match lookups |
| stats.dfy | `Stats` | max/min/mean, interval counts, bin edges and bin counts |
| selection.dfy | `Selection` | slots, `UpdateSelection`, `SelectMyCountry`, palette, highlight precedence |
| dashboard.dfy | `Dashboard` | confidence level, percentile ranks, `UpdateRegionData`, radar rows |
| happiness_distribution.dfy | `HappinessDistribution` | unit-bin histogram |
| attribute_distribution.dfy | `AttributeDistribution` | step-bin histogram |
| geo_map.dfy | `GeoMap` | world map fills, stroke, tooltip, click, legends, marker |
| scatterplot.dfy | `Scatterplot` | dot fill/opacity, domains, regression end points |
| country_selector.dfy | `CountrySelector` | projection switch, fill, stroke, click |
| radar_plot.dfy | `RadarPlot` | radar row filter, outline path, point list |

Modelling choices:

- **Numbers.** Metric values are exact `real`s. This abstracts JavaScript
  doubles: there is no rounding and no NaN.
- **`undefined` and NaN.** A result that JavaScript would report as
  `undefined` or NaN is `None`. Examples are the maximum or mean of no
  rows, and `0/0` for an empty dataset.
- **Slots.** A slot is `Empty` (the number 0) or `Holds(code)`. Country
  codes are strings, so a code never equals the empty marker.
- **Keys.** An id that a view compares with the state is a `Key`: a code,
  `null`, or `undefined`. `===` tells `null` and `undefined` apart, and the
  map's legend depends on the difference.
- **Things outside the core.** Some values are computed outside the core
  or are not defined in the files this model covers. They enter as parameters or opaque
  values:
  - the list of countries with data (`validCountries`);
  - the fitted regression line (`line`);
  - the radar's column lookup (`read`);
  - the radar's axis trigonometry (`place`);
  - the colour scale (`Scale(score)`);
  - the undefined `regionColor` (`RegionColour`), which differs from
    every hex colour.
- **State updates.** The source's mutators assign globals. Here they are
  functions from the old state to the new one.

## Model

| member | source | states |
|---|---|---|
| Dataset.YearRows | js/main.js:164 | keeps exactly the rows of the selected year, each as often as it occurs in the data, in their original order (a subsequence of the data) |
| Dataset.PlottedRows | js/happinessDistribution.js:81 | keeps exactly the rows of the year whose compared attribute is non-zero, each as often as it occurs, in data order |
| Dataset.RegionSubset | js/happinessDistribution.js:83 | keeps exactly the rows whose id is a region member, each as often as it occurs, as a subsequence of the rows |
| Dataset.FilterMultiplicity | js/main.js:164 | `filter` keeps every passing row as many times as it occurs and no copy of a failing one |
| Dataset.RegionIds | js/main.js:232-233 | a code is a member iff some region row with that code has `column` equal to the region; empty iff no row matches; at most one id per region row |
| Dataset.FindRow | js/map.js:244-246 | `None` iff no row has the id; otherwise a row with that id that no earlier row shares |
| Dataset.FindRegion | js/map.js:97-98 | `None` iff no region row has the code; otherwise the first region row with that code |
| Stats.MaxOf | js/happinessDistribution.js:85 | undefined iff there are no rows; otherwise an upper bound of the column that some row attains |
| Stats.MinOf | js/attributeDistribution.js:96 | undefined iff there are no rows; otherwise a lower bound of the column that some row attains |
| Stats.Mean | js/main.js:238-244 | the mean is undefined exactly for the empty region subset |
| Stats.MeanBetweenExtremes | js/main.js:238-244 | a mean of a non-empty subset lies between its minimum and its maximum |
| Stats.SumBounds | js/main.js:238-244 | values within [lo, hi] sum to between n·lo and n·hi |
| Stats.CountIn | js/happinessDistribution.js:89 | a bin count never exceeds the number of rows |
| Stats.CountSplit | js/attributeDistribution.js:99 | adjacent half-open bins are disjoint: counts over [a,b) and [b,c) add up to the count over [a,c) |
| Stats.CountSubset | js/happinessDistribution.js:96 | a filtered subset never has more rows in a bin than the whole |
| Stats.CountAll | js/happinessDistribution.js:89 | when every row lies in [lo, hi), the count is the number of rows |
| Stats.CountMisses | js/happinessDistribution.js:89 | one row outside [lo, hi) makes the count smaller than the number of rows |
| Stats.UnitCountExact | js/happinessDistribution.js:88 | the loop `i < maxVal` visits exactly the integers in [0, maxVal), and none when the maximum is undefined |
| Stats.StepCountExact | js/attributeDistribution.js:98 | the loop `i < maxVal; i += diff` visits exactly the edges `start + k·diff` below `maxVal` |
| Stats.BinsSum | js/attributeDistribution.js:98-101 | the first n bins together count exactly the rows in [start, start + n·diff) |
| Stats.BinsSumAtMostRows | js/happinessDistribution.js:88-91 | the bar heights add up to at most the number of rows |
| Stats.SubsetBinsBelow | js/happinessDistribution.js:95-98 | bin by bin, the region series is at most the full series |
| Stats.MaxCount | js/happinessDistribution.js:112 | undefined iff there are no bars; otherwise at least every bar's count and equal to one of them |
| Selection.IndexOf | js/main.js:215 | for a present value, an index holding it with no earlier occurrence; -1 for an absent value |
| Selection.UpdateSelection | js/main.js:212-218 | a held country empties its first slot (one occurrence fewer); an absent country fills the first empty slot; with no empty slot nothing changes; other slots, other countries' membership and the chosen country are kept |
| Selection.ToggleTwiceRestores | js/main.js:214-217 | toggling an unselected country twice, with a free slot, restores the state |
| Selection.SelectMyCountry | js/main.js:190-196 | re-choosing the chosen country clears it and slot 3; any other country becomes the chosen one and fills slot 3; slots 0-2 never change |
| Selection.SelectMyCountryTwiceRestores | js/main.js:191-196 | choosing a country twice, from no chosen country and an empty slot 3, restores the state |
| Selection.SelectMyCountryKeepsSlot | js/main.js:195-196 | after `selectMyCountry` the chosen country (if any) sits in slot 3 |
| Selection.UpdateSelectionKeepsSlot | js/map.js:297-300 | toggling any country other than the chosen one keeps the chosen country in slot 3 |
| Selection.UnguardedToggleLosesSlot | js/main.js:214-215 | without that guard, toggling the chosen country empties slot 3 while it stays chosen |
| Selection.RowOf | js/map.js:244 | `None` iff the key is not a code or no row has it; otherwise a row with that id |
| Selection.Highlight | js/map.js:117-127 | exactly one branch applies: slot (at the first index holding the id) iff selected; region iff not selected and a member; chosen country iff neither and it is the chosen id; plain otherwise |
| Selection.SlotBeatsRegion | js/map.js:118-121 | a selected country's mark does not depend on the region |
| Selection.MyCountryBranchUnreachable | js/map.js:122-123 | while the chosen country is in slot 3 the chosen-country branch never fires for a code |
| Dashboard.ConfidenceLevel | js/main.js:185 | `100 - 100·level` gives back the slider value; a slider value in [0, 100] gives a level in [0, 1] |
| Dashboard.ConfidenceLevelDecreasing | js/main.js:185 | a higher slider value never gives a higher level |
| Dashboard.CountQualifying | js/main.js:248 | at most the number of rows; no row qualifies against an undefined mean |
| Dashboard.PercentileRank | js/main.js:248-254 | NaN (`None`) iff the dataset is empty; otherwise in [0, 100]; 0 against an undefined mean |
| Dashboard.CountQualifyingMonotone | js/main.js:248-254 | a larger mean qualifies at least as many rows, and for corruption (`>=`) at most as many |
| Dashboard.PercentileMonotone | js/main.js:248-254 | the rank is non-decreasing in the mean, and non-increasing for corruption |
| Dashboard.PercentileOfExtreme | js/main.js:248-254 | a mean at or past every value ranks exactly 100 |
| Dashboard.AllQualify | js/main.js:248 | when every row qualifies, the count is the number of rows |
| Dashboard.UpdateRegionData | js/main.js:231-262 | member ids are exactly the codes of matching region rows; the percentiles are null iff there are no members; otherwise they carry the region's name and one rank per metric for the year's member rows against all years' rows, each in [0, 100] for non-empty data |
| Dashboard.UpdateRadarPlot | js/main.js:132-136 | as written, the radar chart receives no rows whatever the selection |
| Dashboard.SelectedRowNotDrawn | js/main.js:132-136 | a selected country's row for the selected year is not drawn |
| Dashboard.NameFilterMissesSelectedCode | js/radarPlot.js:84 | with its arguments passed on, the radar still misses a selected code whose country name differs from every selected slot |
| Dashboard.RadarRowsForSelection | js/main.js:132-135 | corrected: exactly the rows of the selected codes in the selected year, with their multiplicities, in data order |
| Dashboard.RadarRowsComplete | js/main.js:132-135 | corrected: every row of a selected country in the year is drawn; an empty selection draws none |
| RadarPlot.RadialScale | js/radarPlot.js:88-91 | 0 maps to the centre and 100 to the outer radius (150); [0, 100] stays within the radius |
| RadarPlot.RadialScaleMonotone | js/radarPlot.js:88-91 | a larger percentage is drawn no nearer the centre |
| RadarPlot.FilterRows | js/radarPlot.js:84 | exactly the rows whose `Country name` is among the selected values and whose year equals the selected year, with their multiplicities, in data order |
| RadarPlot.UpdateVis | js/radarPlot.js:78-84 | called with no arguments it keeps no rows; with arguments it keeps exactly the rows of the filter |
| RadarPlot.PathForRow | js/radarPlot.js:179-196 | one position per axis at the scaled value of that axis, plus a last position equal to the first, so the outline is closed |
| RadarPlot.Points | js/radarPlot.js:243-256 | |rows|·|axes| points; point k belongs to row k / |axes| and axis k mod |axes|, with that axis's caption and name, the scaled value and the raw percentage |
| HappinessDistribution.CountUnitBins | js/happinessDistribution.js:86-91 | one bar per integer in [0, maxVal); bar i has x = i and counts the rows in [i, i+1); the heights equal the reference bin counts |
| HappinessDistribution.UpdateVis | js/happinessDistribution.js:75-113 | rows and region rows are exactly the filters' results, so a repeated row is kept as often as it occurs; both series share bins and positions; each full bar counts the rows in [i, i + 1) and each region bar the region rows in the same bin, which is at most the full count; bars sum to at most the rows; x domain up to the largest score; y domain up to the tallest bar |
| HappinessDistribution.BinBoth | js/happinessDistribution.js:86-98 | both loops run over the same unit bins; the full bars count the rows and the region bars the region members in [i, i + 1); each region count is at most the full count; each series sums to at most its rows |
| HappinessDistribution.IntegerMaxRowDropped | js/happinessDistribution.js:88-89 | a largest score that is a positive integer is counted in no bar |
| HappinessDistribution.CountUnitBinsInclusive | js/happinessDistribution.js:88-91 | corrected loop `i <= maxVal`: one bar per integer in [0, maxVal], same bin counts |
| HappinessDistribution.InclusiveBinsCountEveryRow | js/happinessDistribution.js:88-91 | corrected: with non-negative scores the bars add up to exactly the number of rows |
| AttributeDistribution.Step | js/attributeDistribution.js:71-79 | every attribute has a positive bin width of at most 2 |
| AttributeDistribution.CountStepBins | js/attributeDistribution.js:98-101 | one bar per edge `start + k·diff` below the maximum; x counts [edge, edge+diff); y is the upper edge; the counts equal the reference bin counts |
| AttributeDistribution.UpdateVis | js/attributeDistribution.js:85-127 | rows and region rows are exactly the filters' results, so a repeated row is kept as often as it occurs; bins start at the floor of the minimum, which no row is below; bar k sits at the upper edge start + (k + 1)·diff; the full bars count the rows and the region bars the region rows in each bin, over the same edges, the region count at most the full count; counts sum to at most the rows; y domain [min, max] with min ≤ max; no bins and no domain without rows |
| AttributeDistribution.BinBoth | js/attributeDistribution.js:98-109 | the full and region series have the same length, and bar k of both sits at the upper edge start + (k + 1)·diff; the full bars count the rows and the region bars the region members in each bin; each region count is at most the full count; the full counts sum to at most the rows |
| AttributeDistribution.BinFromFloor | js/attributeDistribution.js:91-109 | with at least one row: the first edge is the floor of the minimum, at or below every value; both series are binned up to the maximum with the counts and upper edges of `BinBoth` |
| AttributeDistribution.EdgeMaxRowDropped | js/attributeDistribution.js:96-99 | a largest value lying exactly on a bin edge is counted in no bar |
| AttributeDistribution.SingleIntegerRowNoBars | js/attributeDistribution.js:91-98 | a year with one plotted row whose value is 3 gets no bar at all |
| AttributeDistribution.CountStepBinsInclusive | js/attributeDistribution.js:98-101 | corrected loop `i <= maxVal`: one bar per edge at or below the maximum |
| AttributeDistribution.InclusiveStepBinsCountEveryRow | js/attributeDistribution.js:96-101 | corrected: the bars add up to exactly the number of plotted rows |
| GeoMap.FillColor | js/map.js:117-127 | a selected country takes its first slot's colour, else a member the region colour, else the chosen country orange, else black; black exactly when no earlier branch applies |
| GeoMap.FillLegendColor | js/map.js:151-161 | the region colour exactly when the id is neither selected nor chosen, or is an unselected region member |
| GeoMap.LegendAgreesWithFill | js/map.js:151-161 | the legend chain agrees with the map chain except on plain ids, which are black on the map and in the region colour in the legend |
| GeoMap.FillInPaletteIffSelected | js/map.js:117-127 | while the chosen country is in slot 3, a country's fill is a palette colour iff it is selected |
| GeoMap.TooltipOpacity | js/map.js:288 | the swatch is opaque iff the country is selected, a member or chosen, and faded to 0.15 otherwise |
| GeoMap.CountryFill | js/map.js:243-252 | the colour scale at the happiness score of the year's row iff one exists; else dark grey iff the country has data, light grey otherwise |
| GeoMap.Stroke | js/map.js:253-266 | a positive outline width iff region member: blue and 2 for members, black and 0 otherwise |
| GeoMap.TooltipScore | js/map.js:291 | the score shown iff the fill is scaled; "missing data for the year" iff the fill is dark grey; "no data" otherwise |
| GeoMap.TooltipName | js/map.js:272-275 | the name from a region row with the id, or "Somalia" when there is none |
| GeoMap.Click | js/map.js:297-300 | toggles the slot of a country with data unless it is the chosen one; otherwise nothing changes; the chosen country is kept |
| GeoMap.ClickKeepsSlot | js/map.js:297-300 | a map click preserves "the chosen country sits in slot 3" |
| GeoMap.ClickTwiceRestores | js/map.js:297-300 | two clicks on an unselected country with data, with a free slot, restore the state |
| GeoMap.LegendTicks | js/map.js:129-134 | tick i has value i and colour scale(i); there is a tick for integer i iff some score of the year exceeds i |
| GeoMap.SelectedCountriesData | js/map.js:97-102 | the chosen country's entry comes first (named from the region table, else ""; keyed by its code, or null); the percentiles entry follows iff there are percentiles, keyed undefined |
| GeoMap.PercentileEntryInRegionColour | js/map.js:151-161 | the percentiles entry is always in the region colour |
| GeoMap.MyCountryEntryColour | js/map.js:151-161 | the chosen country's entry is orange when it fills only slot 3, and so is the entry of no chosen country (`null === null`) |
| GeoMap.MarkerData | js/map.js:303 | empty iff no country is chosen; otherwise exactly the chosen country |
| Scatterplot.DotFill | js/scatterplot.js:108-116 | first slot colour for a selected dot, blue for a region member, black otherwise |
| Scatterplot.DotOpacity | js/scatterplot.js:118-126 | in [0.15, 1]; 1 iff selected; 0.6 iff an unselected region member; 0.15 for a dot neither selected nor in the region |
| Scatterplot.OpacityMatchesFill | js/scatterplot.js:108-126 | a dot is opaque iff its fill is a palette colour, and at 0.6 iff it is region blue |
| Scatterplot.UpdateVis | js/scatterplot.js:98-139 | the dots are the year's rows with a non-zero attribute, in data order; members are the matching region codes; x domain up to the largest score of the chart's rows; y domain exactly [min, max] of the dots, which contains every dot; two regression points, at x = 0 and at the x maximum (undefined when that is) |
| CountrySelector.ChooseProjection | js/countrySelectionMap.js:74-84 | the three known names select their projection; any other value keeps the previous one |
| CountrySelector.ChooseProjectionIdempotent | js/countrySelectionMap.js:74-84 | choosing the same name again changes nothing |
| CountrySelector.Fill | js/countrySelectionMap.js:113-120 | the colour scale at the year's happiness score iff the year has a row for the country, grey otherwise |
| CountrySelector.StrokeColour | js/countrySelectionMap.js:121-129 | first slot colour if selected, else blue for a region member, else black |
| CountrySelector.StrokeWidth | js/countrySelectionMap.js:130-136 | for a feature id, a positive width (5) iff it is the chosen country |
| CountrySelector.ChosenCountryOutline | js/countrySelectionMap.js:121-136 | the chosen country, only in slot 3, is outlined in orange with width 5 |
| CountrySelector.Tooltip | js/countrySelectionMap.js:138-150 | shown iff the country has a row for the year, with that row's name and score |
| CountrySelector.Click | js/countrySelectionMap.js:155-159 | toggles the chosen country iff the country has a row for the year, otherwise nothing changes; slots 0-2 never change |
| CountrySelector.ClickKeepsSlot | js/countrySelectionMap.js:155-159 | a click preserves "the chosen country sits in slot 3" |
| CountrySelector.ClickTwiceRestores | js/countrySelectionMap.js:155-159 | two clicks on the same country, from no chosen country and an empty slot 3, restore the state |

## Left out

- Drawing is not modelled. This covers SVG joins, axes, gradients, tooltip
  placement, zoom, scrolling and showing or hiding the charts. It is
  renderer side effect.
- Geographic and trigonometric code is not modelled: projections,
  `topojson.feature`, centroids and the radar's axis angles. These are
  foreign calls on floating point. The radar's angle-and-radius placement
  is the parameter `place`.
- The colour scale's interpolation is opaque. It is `Scale(score)`.
- The least-squares fit comes from a statistics library. The fitted line
  is the parameter `line`.
- Confidence intervals are not modelled. The level is computed
  (`Dashboard.ConfidenceLevel`), but nothing in these files consumes it.
- Loading the CSV and JSON files and coercing columns to numbers are I/O
  and are not modelled.
- Event wiring and the order in which views are redrawn are glue and are
  not modelled. This includes `selectRegion`, the slider handlers and the
  radar's click handler, which is an empty stub.
- Floating point is not modelled: values and bin edges are exact reals.
  - The attribute histogram's edge `i = i + diff` accumulates rounding in
    JavaScript. Here it is exactly `start + k·diff`.
- The map legend's stop offsets (js/map.js:214) are drawing arithmetic and
  are not modelled.
- The histogram objects built with `d3.histogram` and the unused `maxY` are
  not modelled. The bars use the hand-written counts.
- js/lineChart.js only computes a domain and draws; it is not part of this
  model.
- The year slider's value is not checked against the years in the data,
  and region members are not limited to countries with data; the model
  follows the code.
- `validCountries` and `regionColor` are not defined in the files this
  model covers. They are a parameter and an opaque colour.
- CountrySelector.StrokeWidth: states "width 5 iff chosen" only for keys
  that are a code or `undefined`. A map feature's id is never `null`, and
  for a `null` key with no chosen country the width would be 5.

## Findings

Source lines are cited as above. None of these was executed.

| source | as written | input that shows it | evidently intended | confidence | as-written member | corrected member |
|---|---|---|---|---|---|---|
| js/happinessDistribution.js:88-98 | the bin loops run `i < maxVal`, so a largest score that is an integer n falls past the last bin [n-1, n) | a year whose plotted rows have happiness scores 5.5 and 7.0: bins [0,1)…[6,7) count only the 5.5 row | every plotted row in some bar (`i <= maxVal`) | medium, not executed | HappinessDistribution.IntegerMaxRowDropped | HappinessDistribution.InclusiveBinsCountEveryRow |
| js/attributeDistribution.js:98-109 | the bin loops run `i < maxVal`, so a largest value on a bin edge `floor(min) + k·diff` is in no bar | one plotted row with value 3.0: start = 3 = maxVal and the chart has no bar | every plotted row in some bar (`i <= maxVal`) | medium, not executed | AttributeDistribution.EdgeMaxRowDropped | AttributeDistribution.InclusiveStepBinsCountEveryRow |
| js/main.js:132-136 | `updateRadarPlot` stores the selection on the chart and then calls `updateVis()` with no arguments, whose defaults (`[]`, `null`) select no rows | any selected country with a row for the selected year: the radar is empty | pass the selection and year to `updateVis` | high, not executed | Dashboard.SelectedRowNotDrawn | Dashboard.RadarRowsComplete |
| js/radarPlot.js:84 | the radar filters on the `Country name` column, but the slots hold country codes | a selected slot holding code "004" for a row named "Afghanistan": the row is not kept | match on the row's `id` | high, not executed | Dashboard.NameFilterMissesSelectedCode | Dashboard.RadarRowsComplete |

The as-written members model the source as it stands:
`HappinessDistribution.CountUnitBins`, `HappinessDistribution.UpdateVis`,
`AttributeDistribution.CountStepBins`, `AttributeDistribution.UpdateVis`,
`Dashboard.UpdateRadarPlot` and `RadarPlot.UpdateVis`. The corrected
definitions are:

- `HappinessDistribution.CountUnitBinsInclusive`;
- `AttributeDistribution.CountStepBinsInclusive`;
- `Dashboard.RadarRowsForSelection`.
