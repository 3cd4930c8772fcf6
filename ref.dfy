/** The `ref` middleware: a `?ref=` query parameter names the referrer of a visit. */
module Ref {
  import opened Options
  import opened Types

  /**
   * With the channel unknown and a non-empty `ref` parameter, the result is the referral
   * `{source: ref, medium: 'referral'}` with the remaining parameters and no other field;
   * otherwise the input is returned unchanged.
   */
  function Ref(x: Interaction): (r: Interaction)
    ensures IsComplete(x) || !Truthy(Lookup(x.parameters, "ref")) ==> r == x
    ensures !IsComplete(x) && Truthy(Lookup(x.parameters, "ref")) ==>
              r.source == Some(x.parameters["ref"]) && r.medium == Some("referral")
              && "ref" !in r.parameters && r.parameters["ref" := x.parameters["ref"]] == x.parameters
              && r.importantParameters == map[]
              && r.campaign.None? && r.content.None? && r.term.None?
              && r.direct.None? && r.excluded.None? && r.timestamp.None?
  {
    if IsComplete(x) then x
    else
      match Lookup(x.parameters, "ref")
      case Some(name) =>
        if name == "" then x
        else Blank.(source := Some(name), medium := Some("referral"), parameters := x.parameters - {"ref"})
      case None => x
  }

  /** The output of `ref` is complete or unchanged, so a second application leaves it as it is. */
  lemma RefIdempotent(x: Interaction)
    ensures Ref(Ref(x)) == Ref(x)
  {
    if Ref(x) != x {
      assert IsComplete(Ref(x));
    }
  }
}
