/** The `facebookAds` middleware: a Facebook click id (`fbclid`) makes a Facebook paid click. */
module FacebookAds {
  import opened Options
  import opened Types
  import ClickIds

  /** The input, unless its channel is unknown and it carries a non-empty `fbclid`: then facebook / cpc. */
  function FacebookAds(x: Interaction): (r: Interaction)
    ensures IsComplete(x) || !Truthy(Lookup(x.parameters, "fbclid")) ==> r == x
    ensures !IsComplete(x) && Truthy(Lookup(x.parameters, "fbclid")) ==>
              r == Blank.(source := Some("facebook"), medium := Some("cpc"),
                          importantParameters := map["fbclid" := x.parameters["fbclid"]],
                          parameters := x.parameters - {"fbclid"})
  {
    ClickIds.FromClickId("fbclid", "facebook", x)
  }

  /** Applying the middleware to its own output changes nothing. */
  lemma FacebookAdsIdempotent(x: Interaction)
    ensures FacebookAds(FacebookAds(x)) == FacebookAds(x)
  {
    ClickIds.FromClickIdIdempotent("fbclid", "facebook", x);
  }
}
