# Earthquake map: depth colours, per-event derivation and legend

This project models the data logic of a single-page earthquake map written
in JavaScript (`static/js/logic.js`). The page loads a week of USGS
earthquake events as GeoJSON and turns each event into three things: a heat-map
sample, a bubble marker coloured by depth, and a popup on the GeoJSON event
layer. It also draws a legend of the depth colours. The map library, the
data loader and the DOM are outside this model. What is left is three pure
computations:

- `DepthColor` (`depth_color.dfy`) models `getColor`. It maps a depth in km
  onto five colour bands, using strict `>` tests against 50, 30, 10 and 0
  checked deepest first. The reference it is proved against is the band
  index, defined as the number of thresholds strictly below the depth, with
  band k being the interval (threshold k-1, threshold k].
- `Features` (`features.dfy`) models `createFeatures` and its `onEachFeature`
  callback. Each feature yields a heat sample, with the GeoJSON
  `[lon, lat, depth]` order swapped to `[lat, lon, mag]`. It also yields a
  marker spec with radius `mag * 3`, fill `getColor(depth)` and a fixed stroke,
  plus the two popups. The partner of the marker is `FeatureOf`, which reads
  the feature back from the marker's position and popup. The round trip shows
  that no event is lost, duplicated or reordered.
- `Legend` (`legend.dfy`) models the loop in `addLegend`. Each threshold in
  `[0, 10, 30, 50]` gets the colour `getColor(t + 1)`. Its label is `t–n km`
  when the next threshold is truthy in JavaScript, and `t+ km` otherwise.
  `Decimal` (`decimal.dfy`) gives the decimal text of the whole-number
  thresholds used in labels.

Notes on the source:
- The comment above `getColor` says "magnitude", but the function classifies
  by depth, and every caller passes it a depth. The model follows the code.
- The legend has no row for the shallowest band (depth <= 0 km, green).
  Labels such as `10–30 km` name a range that includes its lower end, but a
  depth of exactly 10 km is coloured like the `0–10 km` row.
  `LegendOmitsShallowestBand` and `LowerEndColouredByPreviousRow` prove both
  points.
- The GeoJSON layer `earthquakes` is built (line 50) but never passed to
  `createMap` (line 65), and the overlay control (lines 87-91) lists only the
  bubble layer and the heat layer, so the GeoJSON layer is never added to the
  map. Its place-and-time popup (`PlacePopupOf`) is therefore derived
  but never shown. The model follows the code: it derives the popup and claims
  nothing about it being displayed.

## Model

| member | source | states |
|---|---|---|
| DepthColor.GetColor | static/js/logic.js:5-11 | every depth gets one of the five palette colours; the colour is something other than green exactly when the depth is above 0 |
| DepthColor.CountBelow | static/js/logic.js:6-10 | the number of thresholds below a depth is at most the number of thresholds, and it is zero exactly when the depth is at or below every threshold |
| DepthColor.GetColorIsBandColour | static/js/logic.js:5-11 | the classifier paints each depth with the palette colour of its band index, where the index counts the thresholds strictly below the depth |
| DepthColor.InBandIffBand | static/js/logic.js:6-10 | a depth lies in the interval of band k if and only if k is its band index, so the five intervals are exhaustive and disjoint |
| DepthColor.PaletteDistinct | static/js/logic.js:6-10 | the five band colours are pairwise different, so a colour identifies its band |
| DepthColor.GetColorIffInBand | static/js/logic.js:6-10 | getColor returns band k's colour if and only if the depth lies in (threshold k-1, threshold k] |
| DepthColor.Bands | static/js/logic.js:6-10 | red iff depth > 50, orange iff 30 < depth <= 50, yellow iff 10 < depth <= 30, light green iff 0 < depth <= 10, green iff depth <= 0 |
| DepthColor.BoundariesGoShallower | static/js/logic.js:6-9 | depths of exactly 50, 30, 10 and 0 km get the shallower band's colour: orange, yellow, light green and green |
| DepthColor.CountBelowMonotone | static/js/logic.js:6-10 | a greater depth has at least as many thresholds below it |
| DepthColor.BandMonotone | static/js/logic.js:6-10 | if d1 <= d2 then d1's band index is at most d2's, and each depth's colour is the colour of its band |
| Decimal.NatToString | static/js/logic.js:126 | the decimal text of a threshold is a non-empty digit string, reads back as the same number, and has no leading zero |
| Decimal.IntToString | static/js/logic.js:126 | a negative threshold is written as a minus sign followed by the digits of its absolute value |
| Decimal.IntToStringInjective | static/js/logic.js:126 | two different thresholds never get the same text |
| Features.HeatOf | static/js/logic.js:32 | the heat sample is latitude first and longitude second, taken from GeoJSON coordinates 1 and 0, with the magnitude as intensity |
| Features.PlacePopupOf | static/js/logic.js:29 | the event-layer popup carries the feature's place and time |
| Features.MarkerOf | static/js/logic.js:36-43 | the marker sits at (lat, lon), keeps the marker invariant (radius is magnitude times 3, fill is the depth colour, black stroke of weight 1 and opacity 1, fill opacity 0.6), and its popup shows place, magnitude, depth and time |
| Features.FeatureOf | static/js/logic.js:36-43 | reading a marker back gives place, time and magnitude from its popup and coordinates (lon, lat, depth) from its position and popup |
| Features.FeatureOfMarkerOf | static/js/logic.js:36-43 | reading back the marker of a feature gives that feature, so no field is lost |
| Features.MarkerOfFeatureOf | static/js/logic.js:36-43 | a marker spec keeps the marker invariant if and only if it is the marker of the feature it shows |
| Features.HeatAgreesWithMarker | static/js/logic.js:32-37 | the heat sample and the marker of a feature share a position; the radius is the heat intensity times 3, and it is non-negative exactly when the magnitude is (no clamping) |
| Features.PlacePopupIsSummary | static/js/logic.js:29-43 | the event-layer popup is the marker popup with magnitude and depth dropped |
| Features.CreateFeatures | static/js/logic.js:21-52 | one heat sample, one marker and one event-layer popup per feature, as many as there are features, each derived from the feature at the same index |
| Features.DerivedUnique | static/js/logic.js:21-52 | deriving twice from the same features gives value-equal heat samples, markers and popups |
| Features.FeaturesOf | static/js/logic.js:36-45 | reading back a marker sequence gives one feature per marker, in the same order |
| Features.MarkersKeepFeatures | static/js/logic.js:28-52 | reading back the markers of a feature sequence gives exactly that sequence, with nothing dropped, duplicated or reordered, and every marker keeps the marker invariant |
| Features.ExampleFeature | static/js/logic.js:28-43 | a magnitude-4.5 event at (lon -120.5, lat 38.0, depth 25) gives the heat sample (38.0, -120.5, 4.5) and a yellow marker of radius 13.5 |
| Legend.EntryAt | static/js/logic.js:125-126 | a row's colour is getColor(threshold + 1); its label starts at the threshold and is a range to the next threshold exactly when that next threshold exists and is non-zero |
| Legend.Label.Text | static/js/logic.js:126 | a range label's text is the lower end, an en dash, the upper end and " km"; an open-ended label's text is the lower end followed by "+ km"; only open-ended texts contain "+" |
| Legend.Legend | static/js/logic.js:119-127 | the legend has one row per threshold, in threshold order, and row i is the row for threshold i |
| Legend.AddLegend | static/js/logic.js:119-128 | the loop appends one row per threshold, in threshold order, row i is the row for threshold i, and the result is exactly the legend value the other legend lemmas speak about |
| Legend.StandardLegend | static/js/logic.js:119-127 | the map's legend is exactly four rows: light green 0–10, yellow 10–30, orange 30–50, red 50+ |
| Legend.StandardLabels | static/js/logic.js:126 | the label texts are "0–10 km", "10–30 km", "30–50 km" and "50+ km" |
| Legend.LegendDepthsAreThresholds | static/js/logic.js:119 | the legend's thresholds are, in order, the classifier's band thresholds |
| Legend.LegendAgreesWithClassifier | static/js/logic.js:122-126 | row i has the colour of band i+1, and getColor gives that colour to a depth if and only if the depth is above the row's lower end and, for a range row, at most its upper end |
| Legend.LegendOmitsShallowestBand | static/js/logic.js:119-126 | no legend row has the colour given to depths at or below 0 km |
| Legend.LowerEndColouredByPreviousRow | static/js/logic.js:125-126 | a depth equal to a row's lower end is coloured like the previous row, not like the row whose label names it |
| Legend.ZeroNextThresholdIsOpenEnded | static/js/logic.js:126 | the label test is JavaScript truthiness, so a next threshold of 0 gives an open-ended label; the map's own next thresholds are all non-zero |

## Left out

- Feed acquisition (`d3.json(queryUrl).then(...)`, lines 14-17): network I/O and promise handling. The model starts from the feature sequence.
- Map composition (`createMap`, lines 69-111): tile layers, base and overlay maps, map centre (37.09, -95.71) and zoom 5, and the layer control. This is static UI configuration passed to the map library, with no logic to verify.
- Leaflet construction: `L.geoJSON`, `L.circleMarker`, `L.heatLayer` with radius 40, blur 15 and maxZoom 10, `L.layerGroup` and `L.control`. These are foreign library calls, so markers, samples and popups are plain records here.
- Popup and legend markup (`<h3>`, `<hr>`, `<p>`, the legend `<div>`s and `innerHTML` concatenation). Only the structured content (fields and label text) is modelled.
- Formatting of `new Date(time)` (lines 29 and 43) depends on the host and its locale. The time is carried into both popups as the raw epoch-millisecond value.
- Floating point: depths, magnitudes and coordinates are exact reals. The IEEE-754 rounding of `mag * 3` and of the comparisons in `getColor` is not modelled. Numbers in labels are whole numbers, rendered as JavaScript renders integers below 10^21 in magnitude.
- Malformed features: a missing property or a coordinates array shorter than three entries gives `undefined` in JavaScript (for example, `getColor(undefined)` is green, and a null magnitude gives radius 0). The model's Feature always has all fields, so these cases are not represented.
- Decimal.IntToString: writes every digit, which matches JavaScript's number-to-text conversion only for integers of magnitude below 10^21; from 10^21 on JavaScript writes exponent notation (`1e+21`), which is not modelled. The map's thresholds are all below 100.
- Features.CreateFeatures: assumes the GeoJSON layer calls `onEachFeature` exactly once per feature, in array order. That is the map library's behaviour, and it is not visible in this source.
