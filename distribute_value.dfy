/** `distributeValue`: split a value (an order total, say) over weighted interactions by weight. */
module DistributeValue {
  import opened Options
  import opened Types
  import opened Attribution

  /** The part of `v` that weight `w` earns. */
  function Share(w: real, v: real): real {
    w * v
  }

  /** `interactions.map(x => ({...x, value: x.weight * value}))`: overwrites any earlier value. */
  function DistributeValue(ws: seq<Weighted>, v: real): (r: seq<Weighted>)
    ensures |r| == |ws|
    ensures forall i :: 0 <= i < |ws| ==> r[i].interaction == ws[i].interaction
    ensures forall i :: 0 <= i < |ws| ==> r[i].weight == ws[i].weight
    ensures forall i :: 0 <= i < |ws| ==> r[i].occurrences == ws[i].occurrences
    ensures forall i :: 0 <= i < |ws| ==> r[i].value == Some(Share(ws[i].weight, v))
    decreases |ws|
  {
    if ws == [] then []
    else
      var rest := DistributeValue(ws[1..], v);
      assert forall i :: 1 <= i < |ws| ==> ws[1..][i - 1] == ws[i];
      [ws[0].(value := Some(Share(ws[0].weight, v)))] + rest
  }

  /** The total of the assigned values, an absent value counting as 0. */
  function SumValues(ws: seq<Weighted>): real
    decreases |ws|
  {
    if ws == [] then 0.0 else (if ws[0].value.Some? then ws[0].value.value else 0.0) + SumValues(ws[1..])
  }

  /** The distributed values add up to the value times the total weight. */
  lemma {:induction false} DistributedTotal(ws: seq<Weighted>, v: real)
    ensures SumValues(DistributeValue(ws, v)) == SumWeights(ws) * v
    decreases |ws|
  {
    if ws != [] {
      DistributedTotal(ws[1..], v);
      assert DistributeValue(ws, v)[1..] == DistributeValue(ws[1..], v);
    }
  }

  /** The weights of a list whose weights sum to 1 split the whole value. */
  lemma SplitsWholeValue(ws: seq<Weighted>, v: real)
    requires SumWeights(ws) == 1.0
    ensures SumValues(DistributeValue(ws, v)) == v
  {
    DistributedTotal(ws, v);
  }
}
