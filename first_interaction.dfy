/** The "first interaction" model: all credit to the first interaction that is not excluded. */
module FirstInteraction {
  import opened Options
  import opened Types
  import opened Attribution

  /**
   * `FirstInteraction.attribute`: null for an empty log; otherwise the first non-excluded
   * interaction, or the first interaction of all when every one is excluded.
   */
  function Attribute(xs: seq<Interaction>): (r: Option<Interaction>)
    ensures r.None? <==> xs == []
    ensures r.Some? ==> r.value in xs
    ensures (exists i :: 0 <= i < |xs| && Included(xs[i])) ==>
              exists i :: FirstWhere(xs, Included, i) && r == Some(xs[i])
    ensures xs != [] && (forall i :: 0 <= i < |xs| ==> IsExcluded(xs[i])) ==> r == Some(xs[0])
  {
    if |xs| == 0 then None
    else
      var included := Filter(xs, Included);
      FilterEmpty(xs, Included);
      if included != [] then
        FilterHead(xs, Included);
        Some(included[0])
      else Some(xs[0])
  }
}
