/**
 * The shape shared by the advertising middlewares: a click-id query parameter (`fbclid`,
 * `gclid`) turns an interaction whose channel is still unknown into a paid click of one platform.
 */
module ClickIds {
  import opened Options
  import opened Types

  /**
   * With the channel unknown and a non-empty click id under `key`, the result is the paid
   * click `{source: platform, medium: 'cpc', importantParameters: {key: id}}` carrying the
   * remaining parameters; otherwise the input is returned unchanged.
   */
  function FromClickId(key: string, platform: string, x: Interaction): (r: Interaction)
    ensures IsComplete(x) ==> r == x
    ensures !Truthy(Lookup(x.parameters, key)) ==> r == x
    ensures !IsComplete(x) && Truthy(Lookup(x.parameters, key)) ==>
              r.source == Some(platform) && r.medium == Some("cpc")
              && r.importantParameters == map[key := x.parameters[key]]
              && key !in r.parameters && r.parameters[key := x.parameters[key]] == x.parameters
    ensures !IsComplete(x) && Truthy(Lookup(x.parameters, key)) ==>
              r.campaign.None? && r.content.None? && r.term.None?
              && r.direct.None? && r.excluded.None? && r.timestamp.None?
  {
    if IsComplete(x) then x
    else
      match Lookup(x.parameters, key)
      case Some(id) =>
        if id == "" then x
        else Blank.(source := Some(platform), medium := Some("cpc"),
                    importantParameters := map[key := id], parameters := x.parameters - {key})
      case None => x
  }

  /** A paid click is complete, so applying the middleware twice is applying it once. */
  lemma FromClickIdIdempotent(key: string, platform: string, x: Interaction)
    requires platform != ""
    ensures FromClickId(key, platform, FromClickId(key, platform, x)) == FromClickId(key, platform, x)
  {
    var r := FromClickId(key, platform, x);
    if r != x {
      assert IsComplete(r);
    }
  }
}
