/**
 The depth-to-colour classifier of the earthquake map (`getColor`).

 A depth in kilometres is mapped onto one of five colour bands. The
 classifier tests the thresholds 50, 30, 10 and 0 from the deepest down with
 a strict `>`, so the first test that succeeds wins and a depth that sits
 exactly on a threshold belongs to the shallower band.

 The independent reference used to state what the classifier means is the
 band index: the number of thresholds that lie strictly below the depth.
 Band 0 is the shallowest band (depth <= 0) and band 4 the deepest
 (depth > 50); `Palette[k]` is the colour of band k.
 */
module DepthColor {

  const Red := "#FF0000"
  const Orange := "#FF7F00"
  const Yellow := "#FFFF00"
  const LightGreen := "#7FFF00"
  const Green := "#00FF00"

  /** The band thresholds in km, shallowest first. */
  const Thresholds: seq<real> := [0.0, 10.0, 30.0, 50.0]

  /** The colour of each band, shallowest band first. */
  const Palette: seq<string> := [Green, LightGreen, Yellow, Orange, Red]

  /** The classifier as the source writes it: a chain of strict comparisons,
      deepest threshold first. Every depth receives a colour of the palette. */
  function GetColor(depth: real): (c: string)
    ensures c in Palette
    ensures c != Green <==> depth > 0.0
  {
    if depth > 50.0 then Red
    else if depth > 30.0 then Orange
    else if depth > 10.0 then Yellow
    else if depth > 0.0 then LightGreen
    else Green
  }

  /** The number of thresholds in `ts` that lie strictly below `d`. */
  function CountBelow(ts: seq<real>, d: real): (n: nat)
    ensures n <= |ts|
    ensures n == 0 <==> forall i :: 0 <= i < |ts| ==> d <= ts[i]
  {
    if ts == [] then 0
    else (if ts[0] < d then 1 else 0) + CountBelow(ts[1..], d)
  }

  /** The band a depth falls into, counted from the shallowest. */
  function Band(depth: real): (k: nat)
    ensures k < |Palette|
  {
    CountBelow(Thresholds, depth)
  }

  /** Band k is the half-open interval (Thresholds[k-1], Thresholds[k]],
      unbounded below for the first band and above for the last. */
  predicate InBand(k: nat, depth: real)
    requires k < |Palette|
  {
    && (k == 0 || Thresholds[k - 1] < depth)
    && (k == |Thresholds| || depth <= Thresholds[k])
  }

  /** Unfolds the threshold count over the four concrete thresholds. */
  lemma BandValue(depth: real)
    ensures Band(depth) ==
      (if 0.0 < depth then 1 else 0) + (if 10.0 < depth then 1 else 0)
      + (if 30.0 < depth then 1 else 0) + (if 50.0 < depth then 1 else 0)
  {
    var t1: seq<real> := [10.0, 30.0, 50.0];
    var t2: seq<real> := [30.0, 50.0];
    var t3: seq<real> := [50.0];
    assert Thresholds[1..] == t1 && t1[1..] == t2 && t2[1..] == t3 && t3[1..] == [];
    assert CountBelow(t3, depth) == if 50.0 < depth then 1 else 0;
    assert CountBelow(t2, depth) == (if 30.0 < depth then 1 else 0) + CountBelow(t3, depth);
    assert CountBelow(t1, depth) == (if 10.0 < depth then 1 else 0) + CountBelow(t2, depth);
  }

  /** The classifier paints every depth with the colour of its band. */
  lemma GetColorIsBandColour(depth: real)
    ensures GetColor(depth) == Palette[Band(depth)]
  {
    BandValue(depth);
  }

  /** A depth lies in band k exactly when k is its threshold count: the bands
      are exhaustive and pairwise disjoint. */
  lemma InBandIffBand(k: nat, depth: real)
    requires k < |Palette|
    ensures InBand(k, depth) <==> k == Band(depth)
  {
    BandValue(depth);
  }

  /** The five palette colours are pairwise distinct. */
  lemma PaletteDistinct()
    ensures forall i, j :: 0 <= i < j < |Palette| ==> Palette[i] != Palette[j]
  {
  }

  /** The classifier returns the colour of band k if and only if the depth
      lies in the interval of band k. */
  lemma GetColorIffInBand(k: nat, depth: real)
    requires k < |Palette|
    ensures GetColor(depth) == Palette[k] <==> InBand(k, depth)
  {
  }

  /** The bands as the source's comments describe them. */
  lemma Bands(depth: real)
    ensures GetColor(depth) == Red <==> depth > 50.0
    ensures GetColor(depth) == Orange <==> 30.0 < depth <= 50.0
    ensures GetColor(depth) == Yellow <==> 10.0 < depth <= 30.0
    ensures GetColor(depth) == LightGreen <==> 0.0 < depth <= 10.0
    ensures GetColor(depth) == Green <==> depth <= 0.0
  {
  }

  /** A threshold value belongs to the shallower band. */
  lemma BoundariesGoShallower()
    ensures GetColor(50.0) == Orange
    ensures GetColor(30.0) == Yellow
    ensures GetColor(10.0) == LightGreen
    ensures GetColor(0.0) == Green
  {
  }

  /** The threshold count grows with the depth. */
  lemma {:induction false} CountBelowMonotone(ts: seq<real>, d1: real, d2: real)
    requires d1 <= d2
    ensures CountBelow(ts, d1) <= CountBelow(ts, d2)
    decreases |ts|
  {
    if ts != [] {
      CountBelowMonotone(ts[1..], d1, d2);
    }
  }

  /** A deeper event never receives the colour of a shallower band. */
  lemma BandMonotone(d1: real, d2: real)
    requires d1 <= d2
    ensures Band(d1) <= Band(d2)
    ensures GetColor(d1) == Palette[Band(d1)] && GetColor(d2) == Palette[Band(d2)]
  {
    CountBelowMonotone(Thresholds, d1, d2);
    GetColorIsBandColour(d1);
    GetColorIsBandColour(d2);
  }
}
