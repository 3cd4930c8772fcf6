/**
 * The "position based" model: 40% of the credit to the first interaction, 40% to the last,
 * and the remaining 20% spread over the ones in between.
 */
module PositionBased {
  import opened Options
  import opened Types
  import opened Attribution
  import Distribution = DistributeValue

  /**
   * `positionBased`: one entry per eligible interaction, in order. One gets weight 1, two get
   * 0.5 each, and with `n >= 3` the ends get 0.4 and each interior one gets `0.2 / (n - 2)`.
   */
  function Attribute(xs: seq<Interaction>): (r: seq<Weighted>)
    ensures xs == [] ==> r == []
    ensures |r| == |Eligible(xs)|
    ensures forall i :: 0 <= i < |r| ==> r[i].interaction == Eligible(xs)[i]
    ensures forall i :: 0 <= i < |r| ==> r[i].occurrences.None? && r[i].value.None?
  {
    if |xs| == 0 then []
    else
      var e := Eligible(xs);
      var n := |e|;
      if n == 1 then [WithWeight(e[0], 1.0)]
      else if n == 2 then [WithWeight(e[0], 0.5), WithWeight(e[1], 0.5)]
      else
        var inner := e[1..n - 1];
        var middle := WithWeights(inner, 0.2 / |inner| as real);
        assert forall i :: 0 <= i < |inner| ==> inner[i] == e[i + 1];
        var r := [WithWeight(e[0], 0.4)] + middle + [WithWeight(e[n - 1], 0.4)];
        assert forall i :: 0 < i < n - 1 ==> r[i] == middle[i - 1];
        r
  }

  /** One entry gets 1, two get 0.5 each; with `n >= 3` the ends get 0.4 and the interior shares 0.2. */
  lemma AttributeWeights(xs: seq<Interaction>)
    ensures var r := Attribute(xs);
            (|r| == 1 ==> r[0].weight == 1.0)
            && (|r| == 2 ==> r[0].weight == 0.5 && r[1].weight == 0.5)
            && (|r| >= 3 ==> r[0].weight == 0.4 && r[|r| - 1].weight == 0.4)
            && (|r| >= 3 ==> forall i :: 0 < i < |r| - 1 ==> r[i].weight == 0.2 / (|r| - 2) as real)
  {
    var e := Eligible(xs);
    var n := |e|;
    if n >= 3 {
      var inner := e[1..n - 1];
      var middle := WithWeights(inner, 0.2 / |inner| as real);
      var r := [WithWeight(e[0], 0.4)] + middle + [WithWeight(e[n - 1], 0.4)];
      assert Attribute(xs) == r;
      assert forall i :: 0 < i < n - 1 ==> r[i] == middle[i - 1];
    }
  }

  /** Two ends of 0.4 around a non-empty interior sharing 0.2 weigh exactly 1. */
  lemma SplitTotal(first: Interaction, inner: seq<Interaction>, last: Interaction)
    requires inner != []
    ensures SumWeights([WithWeight(first, 0.4)] + WithWeights(inner, 0.2 / |inner| as real) + [WithWeight(last, 0.4)]) == 1.0
  {
    var a := [WithWeight(first, 0.4)];
    var middle := WithWeights(inner, 0.2 / |inner| as real);
    var b := [WithWeight(last, 0.4)];
    SumWeightsAppend(a + middle, b);
    SumWeightsAppend(a, middle);
    SumScaledShares(inner, 0.2);
    assert a[1..] == [] && b[1..] == [];
  }

  /** For a non-empty log the weights sum to exactly 1. */
  lemma AttributeTotal(xs: seq<Interaction>)
    requires xs != []
    ensures SumWeights(Attribute(xs)) == 1.0
  {
    var e := Eligible(xs);
    var n := |e|;
    if n == 1 {
      assert Attribute(xs) == [WithWeight(e[0], 1.0)];
      assert Attribute(xs)[1..] == [];
    } else if n == 2 {
      assert Attribute(xs) == [WithWeight(e[0], 0.5), WithWeight(e[1], 0.5)];
      assert Attribute(xs)[1..] == [WithWeight(e[1], 0.5)];
      assert Attribute(xs)[1..][1..] == [];
      assert SumWeights(Attribute(xs)[1..]) == 0.5;
    } else {
      var inner := e[1..n - 1];
      assert Attribute(xs) == [WithWeight(e[0], 0.4)] + WithWeights(inner, 0.2 / |inner| as real) + [WithWeight(e[n - 1], 0.4)];
      SplitTotal(e[0], inner, e[n - 1]);
    }
  }

  /** Distributing a value over the position-based weights hands out exactly that value. */
  lemma DistributesWholeValue(xs: seq<Interaction>, v: real)
    requires xs != []
    ensures Distribution.SumValues(Distribution.DistributeValue(Attribute(xs), v)) == v
  {
    AttributeTotal(xs);
    Distribution.SplitsWholeValue(Attribute(xs), v);
  }
}
