/** `WeightProgressChart`: the computed properties behind the weight chart of one exercise. */
module Chart {
  import opened Collections
  import opened Statistics

  /** `hasData`. */
  predicate HasData(chart: seq<ChartEntry>) {
    chart != []
  }

  function Weights(chart: seq<ChartEntry>): (w: seq<real>)
    ensures |w| == |chart|
    ensures forall i :: 0 <= i < |chart| ==> w[i] == chart[i].weight
  {
    Map(chart, (c: ChartEntry) => c.weight)
  }

  /**
   * `maxEntry`: `chartData.max(by: { $0.weight < $1.weight })`, which keeps the running maximum
   * and replaces it only by a strictly heavier entry, so the first of the heaviest entries wins.
   */
  function MaxEntry(chart: seq<ChartEntry>): (r: Option<ChartEntry>)
    ensures r.None? <==> chart == []
    ensures r.Some? ==>
      exists k :: 0 <= k < |chart| && chart[k] == r.value && (forall i :: 0 <= i < k ==> chart[i].weight < r.value.weight)
    ensures r.Some? ==> forall i :: 0 <= i < |chart| ==> chart[i].weight <= r.value.weight
  {
    if chart == [] then None
    else
      var init, last := chart[..|chart| - 1], chart[|chart| - 1];
      assert forall i :: 0 <= i < |init| ==> init[i] == chart[i];
      match MaxEntry(init)
      case None => Some(last)
      case Some(m) => if m.weight < last.weight then Some(last) else Some(m)
  }

  /** The chart has data exactly when it has a heaviest entry, which holds the largest weight. */
  lemma MaxEntryIsHeaviest(chart: seq<ChartEntry>)
    ensures HasData(chart) <==> MaxEntry(chart).Some?
    ensures HasData(chart) ==> MaxEntry(chart).value.weight == MaxReal(Weights(chart))
  {
    if chart != [] {
      var w, m := Weights(chart), MaxEntry(chart).value;
      var k :| 0 <= k < |chart| && chart[k] == m;
      assert w[k] == m.weight;
      assert MaxReal(w) in w;
    }
  }

  /** The padding above and below the data: a tenth of the spread, at least 5. */
  function Padding(lightest: real, heaviest: real): (p: real)
    ensures p >= 5.0
    ensures p >= (heaviest - lightest) * 0.1
    ensures p == 5.0 || p == (heaviest - lightest) * 0.1
  {
    MaxOfReals(5.0, (heaviest - lightest) * 0.1)
  }

  /**
   * `yAxisDomain` as `(lower, upper)`: `0...100` without data, otherwise from the padded lightest
   * weight, but not below 0, to the padded heaviest weight.
   */
  function YAxisDomain(chart: seq<ChartEntry>): (r: (real, real))
    ensures chart == [] ==> r == (0.0, 100.0)
    ensures chart != [] ==>
      var lightest, heaviest := MinReal(Weights(chart)), MaxReal(Weights(chart));
      && r.1 == heaviest + Padding(lightest, heaviest)
      && r.0 == MaxOfReals(0.0, lightest - Padding(lightest, heaviest))
    ensures r.0 >= 0.0
    ensures forall i :: 0 <= i < |chart| ==> chart[i].weight + 5.0 <= r.1
  {
    if chart == [] then (0.0, 100.0)
    else
      var w := Weights(chart);
      var lightest, heaviest := MinReal(w), MaxReal(w);
      var padding := Padding(lightest, heaviest);
      (MaxOfReals(0.0, lightest - padding), heaviest + padding)
  }

  /**
   * With no negative weight the domain is a well-formed range that holds every point, with at
   * least 5 to spare above the heaviest.
   */
  lemma DomainHoldsTheData(chart: seq<ChartEntry>)
    requires forall i :: 0 <= i < |chart| ==> chart[i].weight >= 0.0
    ensures YAxisDomain(chart).0 <= YAxisDomain(chart).1
    ensures forall i :: 0 <= i < |chart| ==> YAxisDomain(chart).0 <= chart[i].weight <= YAxisDomain(chart).1 - 5.0
  {
    if chart != [] {
      var w := Weights(chart);
      var lightest := MinReal(w);
      assert lightest in w;
      assert forall i :: 0 <= i < |chart| ==> lightest <= chart[i].weight by {
        assert forall i :: 0 <= i < |chart| ==> w[i] == chart[i].weight;
      }
    }
  }
}
