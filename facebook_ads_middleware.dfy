/** `FacebookAdsMiddleware`: the same Facebook click-id rule under its newer name. */
module FacebookAdsMiddleware {
  import opened Options
  import opened Types
  import ClickIds
  import FacebookAds

  /** The input, unless its channel is unknown and it carries a non-empty `fbclid`: then facebook / cpc. */
  function FacebookAdsMiddleware(x: Interaction): (r: Interaction)
    ensures IsComplete(x) || !Truthy(Lookup(x.parameters, "fbclid")) ==> r == x
    ensures !IsComplete(x) && Truthy(Lookup(x.parameters, "fbclid")) ==>
              r.source == Some("facebook") && r.medium == Some("cpc")
              && r.importantParameters == map["fbclid" := x.parameters["fbclid"]]
              && r.parameters == x.parameters - {"fbclid"}
  {
    ClickIds.FromClickId("fbclid", "facebook", x)
  }

  /** The two Facebook middlewares agree on every interaction. */
  lemma SameAsFacebookAds(x: Interaction)
    ensures FacebookAdsMiddleware(x) == FacebookAds.FacebookAds(x)
  {
  }
}
