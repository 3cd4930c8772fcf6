/** `GoogleAdsMiddleware`: a Google click id (`gclid`) makes a Google paid click. */
module GoogleAdsMiddleware {
  import opened Options
  import opened Types
  import ClickIds

  /** The input, unless its channel is unknown and it carries a non-empty `gclid`: then google / cpc. */
  function GoogleAdsMiddleware(x: Interaction): (r: Interaction)
    ensures IsComplete(x) || !Truthy(Lookup(x.parameters, "gclid")) ==> r == x
    ensures !IsComplete(x) && Truthy(Lookup(x.parameters, "gclid")) ==>
              r == Blank.(source := Some("google"), medium := Some("cpc"),
                          importantParameters := map["gclid" := x.parameters["gclid"]],
                          parameters := x.parameters - {"gclid"})
  {
    ClickIds.FromClickId("gclid", "google", x)
  }

  /** A Facebook click id alone does not make a Google click. */
  lemma FbclidIsNotGclid(x: Interaction)
    requires "gclid" !in x.parameters
    ensures GoogleAdsMiddleware(x) == x
  {
  }

  /** Applying the middleware to its own output changes nothing. */
  lemma GoogleAdsIdempotent(x: Interaction)
    ensures GoogleAdsMiddleware(GoogleAdsMiddleware(x)) == GoogleAdsMiddleware(x)
  {
    ClickIds.FromClickIdIdempotent("gclid", "google", x);
  }
}
