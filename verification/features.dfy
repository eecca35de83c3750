/**
 The per-feature derivation of the earthquake map (`createFeatures` and its
 `onEachFeature` callback).

 Every GeoJSON feature of the feed yields three things:
 - a heat sample `[lat, lon, mag]`, the GeoJSON `[lon, lat, depth]` order
   swapped to latitude first;
 - a bubble marker at `(lat, lon)` with radius `mag * 3`, the depth colour as
   its fill, a fixed black stroke, and a popup with place, magnitude, depth
   and time;
 - a popup for the feature in the GeoJSON event layer with place and time only.

 Markers, heat samples and popups are plain records here; the map library
 objects they are handed to are not modelled. The time stays the raw epoch
 value the feed delivers: its locale formatting is done by the host.
 */
module Features {
  import opened DepthColor

  /** GeoJSON point coordinates, in GeoJSON order: longitude, latitude, depth (km). */
  datatype Coordinates = Coordinates(lon: real, lat: real, depth: real)

  /** One event of the feed: `properties.place`, `properties.time` (epoch ms),
      `properties.mag` and `geometry.coordinates`. */
  datatype Feature = Feature(place: string, time: int, mag: real, coords: Coordinates)

  /** One point of the heat layer: latitude, longitude, intensity. */
  datatype HeatSample = HeatSample(lat: real, lon: real, intensity: real)

  /** Popup of a bubble marker: place, magnitude, depth in km and time. */
  datatype MarkerPopup = MarkerPopup(place: string, mag: real, depth: real, time: int)

  /** Popup of a feature in the GeoJSON event layer: place and time only. */
  datatype PlacePopup = PlacePopup(place: string, time: int)

  /** The options and popup of one circle marker. */
  datatype MarkerSpec = MarkerSpec(
    lat: real, lon: real,
    radius: real,
    fillColor: string,
    color: string,
    weight: real,
    opacity: real,
    fillOpacity: real,
    popup: MarkerPopup)

  /** Radius of a bubble per unit of magnitude. */
  const RadiusScale: real := 3.0

  /** The fixed stroke of every bubble marker. */
  const StrokeColor := "#000"
  const StrokeWeight: real := 1.0
  const StrokeOpacity: real := 1.0
  const FillOpacity: real := 0.6

  /** The heat sample of a feature: coordinates swapped to latitude first,
      magnitude as intensity. */
  function HeatOf(f: Feature): (h: HeatSample)
    ensures (h.lat, h.lon) == (f.coords.lat, f.coords.lon)
    ensures h.intensity == f.mag
  {
    HeatSample(f.coords.lat, f.coords.lon, f.mag)
  }

  /** The popup bound to a feature of the GeoJSON event layer. */
  function PlacePopupOf(f: Feature): (p: PlacePopup)
    ensures p.place == f.place && p.time == f.time
  {
    PlacePopup(f.place, f.time)
  }

  /** The bubble marker of a feature. */
  function MarkerOf(f: Feature): (m: MarkerSpec)
    ensures WellFormed(m)
    ensures (m.lat, m.lon) == (f.coords.lat, f.coords.lon)
    ensures m.popup == MarkerPopup(f.place, f.mag, f.coords.depth, f.time)
  {
    MarkerSpec(
      f.coords.lat, f.coords.lon,
      f.mag * RadiusScale,
      GetColor(f.coords.depth),
      StrokeColor, StrokeWeight, StrokeOpacity, FillOpacity,
      MarkerPopup(f.place, f.mag, f.coords.depth, f.time))
  }

  /** The invariant every bubble marker keeps: its radius and fill agree with
      the magnitude and depth its own popup shows, and its stroke is the fixed
      style. */
  predicate WellFormed(m: MarkerSpec) {
    && m.radius == m.popup.mag * RadiusScale
    && m.fillColor == GetColor(m.popup.depth)
    && m.color == StrokeColor
    && m.weight == StrokeWeight
    && m.opacity == StrokeOpacity
    && m.fillOpacity == FillOpacity
  }

  /** Reads a feature back from a bubble marker: its position and popup carry
      every field of the feature. */
  function FeatureOf(m: MarkerSpec): (f: Feature)
    ensures f.place == m.popup.place && f.time == m.popup.time
    ensures f.mag == m.popup.mag
    ensures f.coords == Coordinates(m.lon, m.lat, m.popup.depth)
  {
    Feature(m.popup.place, m.popup.time, m.popup.mag, Coordinates(m.lon, m.lat, m.popup.depth))
  }

  /** No field of a feature is lost in its marker. */
  lemma FeatureOfMarkerOf(f: Feature)
    ensures FeatureOf(MarkerOf(f)) == f
  {
  }

  /** Every well-formed marker is the marker of exactly the feature it shows. */
  lemma MarkerOfFeatureOf(m: MarkerSpec)
    ensures WellFormed(m) <==> MarkerOf(FeatureOf(m)) == m
  {
  }

  /** The heat sample and the marker of a feature agree: same position, and
      the radius is the heat intensity scaled by three. */
  lemma HeatAgreesWithMarker(f: Feature)
    ensures (HeatOf(f).lat, HeatOf(f).lon) == (MarkerOf(f).lat, MarkerOf(f).lon)
    ensures MarkerOf(f).radius == HeatOf(f).intensity * RadiusScale
    ensures MarkerOf(f).radius >= 0.0 <==> f.mag >= 0.0
  {
  }

  /** The event-layer popup is the bubble popup without magnitude and depth. */
  lemma PlacePopupIsSummary(f: Feature)
    ensures PlacePopupOf(f) == PlacePopup(MarkerOf(f).popup.place, MarkerOf(f).popup.time)
  {
  }

  /** The outputs of `createFeatures`: one heat sample, one marker and one
      event-layer popup per feature, each for the feature at the same index. */
  predicate Derived(fs: seq<Feature>, heat: seq<HeatSample>, markers: seq<MarkerSpec>, popups: seq<PlacePopup>) {
    && |heat| == |fs| && |markers| == |fs| && |popups| == |fs|
    && forall i :: 0 <= i < |fs| ==>
         heat[i] == HeatOf(fs[i]) && markers[i] == MarkerOf(fs[i]) && popups[i] == PlacePopupOf(fs[i])
  }

  /** `createFeatures`: the event layer calls `onEachFeature` once per feature,
      in order, and each call pushes one heat sample and one marker and binds
      one popup. */
  method CreateFeatures(fs: seq<Feature>) returns (heat: seq<HeatSample>, markers: seq<MarkerSpec>, popups: seq<PlacePopup>)
    ensures |heat| == |fs| && |markers| == |fs| && |popups| == |fs|
    ensures forall i :: 0 <= i < |fs| ==> heat[i] == HeatOf(fs[i])
    ensures forall i :: 0 <= i < |fs| ==> markers[i] == MarkerOf(fs[i])
    ensures forall i :: 0 <= i < |fs| ==> popups[i] == PlacePopupOf(fs[i])
  {
    heat, markers, popups := [], [], [];
    var i := 0;
    while i < |fs|
      invariant 0 <= i <= |fs|
      invariant Derived(fs[..i], heat, markers, popups)
    {
      var f := fs[i];
      popups := popups + [PlacePopupOf(f)];
      heat := heat + [HeatOf(f)];
      markers := markers + [MarkerOf(f)];
      i := i + 1;
    }
    assert fs[..i] == fs;
  }

  /** The derivation is deterministic: deriving twice from the same features
      gives value-equal outputs. */
  lemma DerivedUnique(fs: seq<Feature>,
                      heat1: seq<HeatSample>, markers1: seq<MarkerSpec>, popups1: seq<PlacePopup>,
                      heat2: seq<HeatSample>, markers2: seq<MarkerSpec>, popups2: seq<PlacePopup>)
    requires Derived(fs, heat1, markers1, popups1)
    requires Derived(fs, heat2, markers2, popups2)
    ensures heat1 == heat2 && markers1 == markers2 && popups1 == popups2
  {
  }

  /** The features a sequence of markers shows, in order. */
  function FeaturesOf(ms: seq<MarkerSpec>): (fs: seq<Feature>)
    ensures |fs| == |ms|
    ensures forall i :: 0 <= i < |ms| ==> fs[i] == FeatureOf(ms[i])
  {
    if ms == [] then [] else [FeatureOf(ms[0])] + FeaturesOf(ms[1..])
  }

  /** The markers of a feature sequence give back exactly that sequence: no
      feature is dropped, duplicated or moved. */
  lemma MarkersKeepFeatures(fs: seq<Feature>, heat: seq<HeatSample>, markers: seq<MarkerSpec>, popups: seq<PlacePopup>)
    requires Derived(fs, heat, markers, popups)
    ensures FeaturesOf(markers) == fs
    ensures forall i :: 0 <= i < |markers| ==> WellFormed(markers[i])
  {
  }

  /** The end-to-end example: a depth-25 event of magnitude 4.5. */
  lemma ExampleFeature()
    ensures
      var f := Feature("10km N of X", 1700000000000, 4.5, Coordinates(-120.5, 38.0, 25.0));
      && HeatOf(f) == HeatSample(38.0, -120.5, 4.5)
      && MarkerOf(f).radius == 13.5
      && MarkerOf(f).fillColor == Yellow
      && MarkerOf(f).popup.place == "10km N of X"
      && PlacePopupOf(f) == PlacePopup("10km N of X", 1700000000000)
  {
  }
}
