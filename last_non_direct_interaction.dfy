/**
 * The "last non-direct interaction" model: direct visits after a session timeout do not take
 * the credit from the campaign that preceded them.
 */
module LastNonDirectInteraction {
  import opened Options
  import opened Types
  import opened Attribution

  /** Neither excluded nor direct. */
  predicate Counts(x: Interaction) {
    Included(x) && NotDirect(x)
  }

  /**
   * `LastNonDirectInteraction.attribute`: null for an empty log; else the last interaction that
   * is neither excluded nor direct, failing that the last non-excluded one, failing that the
   * last one of all.
   */
  function Attribute(xs: seq<Interaction>): (r: Option<Interaction>)
    ensures r.None? <==> xs == []
    ensures (exists i :: 0 <= i < |xs| && Counts(xs[i])) ==>
              exists i :: LastWhere(xs, Counts, i) && r == Some(xs[i])
    ensures (forall i :: 0 <= i < |xs| ==> !Counts(xs[i])) && (exists i :: 0 <= i < |xs| && Included(xs[i])) ==>
              exists i :: LastWhere(xs, Included, i) && r == Some(xs[i])
    ensures xs != [] && (forall i :: 0 <= i < |xs| ==> IsExcluded(xs[i])) ==> r == Some(xs[|xs| - 1])
  {
    if |xs| == 0 then None
    else
      var included := Filter(xs, Included);
      var counted := Filter(included, NotDirect);
      FilterFilter(xs, Included, NotDirect, Counts);
      FilterEmpty(xs, Included);
      FilterEmpty(xs, Counts);
      if counted != [] then
        FilterLast(xs, Counts);
        Some(counted[|counted| - 1])
      else if included != [] then
        FilterLast(xs, Included);
        Some(included[|included| - 1])
      else Some(xs[|xs| - 1])
  }
}
