/**
 The depth legend of the earthquake map (`addLegend`).

 For every depth threshold the legend shows a coloured square and a range
 label. The square has the classifier's colour of the threshold plus one
 km. The label is `"t–n km"` when the next threshold `n` is truthy in
 JavaScript's sense, and `"t+ km"` otherwise; a next threshold is falsy
 when there is none (the array read past its end gives `undefined`) and
 also when it is the number 0.
 */
module Legend {
  import opened DepthColor
  import opened Decimal

  /** The threshold list the map's legend is built from. */
  const LegendDepths: seq<int> := [0, 10, 30, 50]

  /** The range a legend row names: from `lo` to `hi` km, or from `lo` km up. */
  datatype Label = Range(lo: int, hi: int) | OpenEnded(lo: int) {

    /** The label text, with the en dash the legend markup writes as `&ndash;`. */
    function Text(): (s: string)
      ensures |s| >= 4
      ensures s[|s| - 3..] == " km"
      ensures Range? ==> '+' !in s
      ensures Range? ==> s == IntToString(lo) + "\U{2013}" + IntToString(hi) + " km"
      ensures OpenEnded? ==> s == IntToString(lo) + "+ km"
    {
      match this
      case Range(lo, hi) => IntToString(lo) + "\U{2013}" + IntToString(hi) + " km"
      case OpenEnded(lo) => IntToString(lo) + "+ km"
    }
  }

  /** One row of the legend: the colour of its square and its label. */
  datatype LegendEntry = LegendEntry(color: string, caption: Label)

  /** JavaScript truthiness of `depths[i]`: an index past the end reads
      `undefined`, which is falsy, and so is the number 0. */
  predicate Truthy(depths: seq<int>, i: nat) {
    i < |depths| && depths[i] != 0
  }

  /** The row the loop body appends for index i. */
  function EntryAt(depths: seq<int>, i: nat): (e: LegendEntry)
    requires i < |depths|
    ensures e.color == GetColor(depths[i] as real + 1.0)
    ensures e.caption.lo == depths[i]
    ensures e.caption.Range? <==> (i + 1 < |depths| && depths[i + 1] != 0)
    ensures e.caption.Range? ==> e.caption.hi == depths[i + 1]
  {
    LegendEntry(
      GetColor(depths[i] as real + 1.0),
      if Truthy(depths, i + 1) then Range(depths[i], depths[i + 1]) else OpenEnded(depths[i]))
  }

  /** The legend's rows: one per threshold, in the order of the thresholds. */
  method AddLegend(depths: seq<int>) returns (entries: seq<LegendEntry>)
    ensures |entries| == |depths|
    ensures forall i :: 0 <= i < |depths| ==> entries[i] == EntryAt(depths, i)
    ensures entries == Legend(depths)
  {
    entries := [];
    var i := 0;
    while i < |depths|
      invariant 0 <= i <= |depths|
      invariant |entries| == i
      invariant forall j :: 0 <= j < i ==> entries[j] == EntryAt(depths, j)
    {
      entries := entries + [EntryAt(depths, i)];
      i := i + 1;
    }
  }

  /** The legend as a value, for stating facts about the map's own legend. */
  function Legend(depths: seq<int>): (es: seq<LegendEntry>)
    ensures |es| == |depths|
    ensures forall i :: 0 <= i < |depths| ==> es[i] == EntryAt(depths, i)
  {
    seq(|depths|, i requires 0 <= i < |depths| => EntryAt(depths, i))
  }

  /** The map's legend has exactly these four rows, in this order. */
  lemma StandardLegend()
    ensures Legend(LegendDepths) == [
      LegendEntry(LightGreen, Range(0, 10)),
      LegendEntry(Yellow, Range(10, 30)),
      LegendEntry(Orange, Range(30, 50)),
      LegendEntry(Red, OpenEnded(50))]
  {
  }

  /** The label texts of the map's legend. */
  lemma StandardLabels()
    ensures Range(0, 10).Text() == "0\U{2013}10 km"
    ensures Range(10, 30).Text() == "10\U{2013}30 km"
    ensures Range(30, 50).Text() == "30\U{2013}50 km"
    ensures OpenEnded(50).Text() == "50+ km"
  {
  }

  /** The legend's thresholds are the classifier's band thresholds. */
  lemma LegendDepthsAreThresholds()
    ensures |LegendDepths| == |Thresholds|
    ensures forall i :: 0 <= i < |LegendDepths| ==> LegendDepths[i] as real == Thresholds[i]
  {
  }

  /** Row i of the map's legend has the colour of band i + 1, and that colour
      is what the classifier gives every depth in the half-open range
      (lo, hi] its label names, or every depth above lo for the last row. */
  lemma LegendAgreesWithClassifier(i: nat, depth: real)
    requires i < |LegendDepths|
    ensures Legend(LegendDepths)[i].color == Palette[i + 1]
    ensures
      var l := Legend(LegendDepths)[i].caption;
      (l.lo as real < depth && (l.OpenEnded? || depth <= l.hi as real))
        <==> GetColor(depth) == Legend(LegendDepths)[i].color
  {
  }

  /** The shallowest band has no legend row: no row is green, so a depth of
      0 km or less is drawn in a colour the legend does not explain. */
  lemma LegendOmitsShallowestBand(depth: real)
    requires depth <= 0.0
    ensures forall e :: e in Legend(LegendDepths) ==> e.color != GetColor(depth)
  {
  }

  /** Each label names a range that includes its lower end, but a depth
      exactly at the lower end takes the colour of the row before. */
  lemma LowerEndColouredByPreviousRow(i: nat)
    requires 0 < i < |LegendDepths|
    ensures GetColor(LegendDepths[i] as real) == Legend(LegendDepths)[i - 1].color
    ensures GetColor(LegendDepths[i] as real) != Legend(LegendDepths)[i].color
  {
  }

  /** The label test is truthiness, not a bounds check: a next threshold of 0
      ends the range like a missing one would. The map's own thresholds never
      have 0 after the first position, so all its rows but the last are ranges. */
  lemma ZeroNextThresholdIsOpenEnded()
    ensures Legend([-10, 0, 10])[0].caption == OpenEnded(-10)
    ensures forall i :: 0 < i < |LegendDepths| ==> Truthy(LegendDepths, i)
  {
  }
}
