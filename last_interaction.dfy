/** The "last interaction" model: all credit to the last interaction that is not excluded. */
module LastInteraction {
  import opened Options
  import opened Types
  import opened Attribution

  /**
   * `LastInteraction.attribute`: the last non-excluded interaction, and null when there is
   * none; unlike the other single-touch models there is no all-excluded fallback.
   */
  function Attribute(xs: seq<Interaction>): (r: Option<Interaction>)
    ensures r.None? <==> forall i :: 0 <= i < |xs| ==> IsExcluded(xs[i])
    ensures r.Some? ==> exists i :: LastWhere(xs, Included, i) && r.value == xs[i]
  {
    var included := Filter(xs, Included);
    FilterEmpty(xs, Included);
    if included == [] then None
    else
      FilterLast(xs, Included);
      Some(included[|included| - 1])
  }

  /** An all-excluded, non-empty log gets no attribution at all. */
  lemma NoFallback(x: Interaction)
    requires IsExcluded(x)
    ensures Attribute([x]) == None
  {
  }
}
