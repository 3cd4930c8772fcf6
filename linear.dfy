/** The "linear" model: the credit is spread evenly over the interactions. */
module Linear {
  import opened Options
  import opened Types
  import opened Attribution
  import Distribution = DistributeValue

  /**
   * `Linear.attribute` as written: the eligible interactions, in order, each weighted by one
   * over the length of the WHOLE log, excluded entries included.
   */
  function Attribute(xs: seq<Interaction>): (r: seq<Weighted>)
    ensures xs == [] ==> r == []
    ensures |r| == |Eligible(xs)|
    ensures forall i :: 0 <= i < |r| ==>
              r[i].interaction == Eligible(xs)[i] && r[i].weight == 1.0 / |xs| as real
              && r[i].occurrences.None? && r[i].value.None?
  {
    if |xs| == 0 then [] else WithWeights(Eligible(xs), 1.0 / |xs| as real)
  }

  /** The weights sum to the share of the log that is eligible. */
  lemma AttributeTotal(xs: seq<Interaction>)
    requires xs != []
    ensures SumWeights(Attribute(xs)) == |Eligible(xs)| as real / |xs| as real
  {
    assert Attribute(xs) == WithWeights(Eligible(xs), 1.0 / |xs| as real);
    SumEqualShares(Eligible(xs), |xs|);
  }

  /** With no exclusion, or with everything excluded, the weights sum to 1. */
  lemma AttributeTotalOne(xs: seq<Interaction>)
    requires xs != []
    requires (forall i :: 0 <= i < |xs| ==> Included(xs[i])) || (forall i :: 0 <= i < |xs| ==> IsExcluded(xs[i]))
    ensures SumWeights(Attribute(xs)) == 1.0
  {
    if forall i :: 0 <= i < |xs| ==> Included(xs[i]) {
      FilterAll(xs);
    }
    assert Eligible(xs) == xs;
    assert Attribute(xs) == WithWeights(xs, 1.0 / |xs| as real);
    SumWholeShares(xs);
  }

  /** A filter that keeps everything returns its input. */
  lemma {:induction false} FilterAll(xs: seq<Interaction>)
    requires forall i :: 0 <= i < |xs| ==> Included(xs[i])
    ensures Filter(xs, Included) == xs
    decreases |xs|
  {
    if xs != [] {
      FilterAll(xs[1..]);
    }
  }

  /** One excluded entry next to one included: as written the weights sum to 1/2, not 1. */
  lemma PartialExclusionLosesWeight(x: Interaction, y: Interaction)
    requires IsExcluded(x) && Included(y)
    ensures SumWeights(Attribute([x, y])) == 0.5
  {
    var xs := [x, y];
    assert xs[1..] == [y] && [y][1..] == [];
    assert Filter(xs, Included) == [y];
    AttributeTotal(xs);
  }

  /** The evidently intended weighting: one over the number of ELIGIBLE interactions. */
  function AttributeIntended(xs: seq<Interaction>): (r: seq<Weighted>)
    ensures |r| == |Eligible(xs)|
    ensures forall i :: 0 <= i < |r| ==>
              r[i].interaction == Eligible(xs)[i] && r[i].weight == 1.0 / |Eligible(xs)| as real
  {
    if |xs| == 0 then [] else WithWeights(Eligible(xs), 1.0 / |Eligible(xs)| as real)
  }

  /** The intended weights always sum to 1 on a non-empty log. */
  lemma AttributeIntendedTotal(xs: seq<Interaction>)
    requires xs != []
    ensures SumWeights(AttributeIntended(xs)) == 1.0
  {
    var e := Eligible(xs);
    assert AttributeIntended(xs) == WithWeights(e, 1.0 / |e| as real);
    SumWholeShares(e);
  }

  /** `Linear.distributeValue`: the same operation as the stand-alone `distributeValue`. */
  function DistributeValue(ws: seq<Weighted>, v: real): (r: seq<Weighted>)
    ensures |r| == |ws|
    ensures forall i :: 0 <= i < |ws| ==>
              r[i].interaction == ws[i].interaction && r[i].weight == ws[i].weight
              && r[i].value == Some(Distribution.Share(ws[i].weight, v))
    ensures r == Distribution.DistributeValue(ws, v)
  {
    var d := Distribution.DistributeValue(ws, v);
    var r := seq(|ws|, i requires 0 <= i < |ws| => ws[i].(value := Some(Distribution.Share(ws[i].weight, v))));
    assert forall i :: 0 <= i < |ws| ==> r[i] == d[i];
    r
  }
}
