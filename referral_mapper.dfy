/**
 * ReferralMapper: middlewares that turn a referral from a known domain into a named channel
 * (organic search, social), looking the referring domain up in a service table.
 */
module ReferralMapper {
  import opened Options
  import opened Types
  import DomainToService

  /**
   * The closure built by `newReferralMapper(mappedMedium, services)`. Only a referral with a
   * non-empty source is looked at; when the lower-cased source resolves to a non-empty service
   * name, exactly `source` and `medium` are replaced by that name and `mappedMedium`.
   */
  function MapReferral(mappedMedium: string, services: DomainToService.ServiceDatabase, x: Interaction): (r: Interaction)
    requires DomainToService.ValidDatabase(services)
    ensures x.medium != Some("referral") || !Truthy(x.source) ==> r == x
    ensures r == x || (r == x.(source := r.source, medium := Some(mappedMedium)) && Truthy(r.source))
    ensures x.medium == Some("referral") && Truthy(x.source) ==>
              var name := DomainToService.DomainToService(x.source.value, services);
              (Truthy(name) ==> r == x.(source := name, medium := Some(mappedMedium)))
              && (!Truthy(name) ==> r == x)
  {
    if x.medium != Some("referral") || !Truthy(x.source) then x
    else
      var name := DomainToService.DomainToService(DomainToService.LowerAscii(x.source.value), services);
      DomainToService.DomainToServiceIgnoresCase(x.source.value, services);
      if Truthy(name) then x.(source := name, medium := Some(mappedMedium)) else x
  }

  /** With a bound medium other than `'referral'`, the mapper's output is left alone by a second pass. */
  lemma MapReferralIdempotent(mappedMedium: string, services: DomainToService.ServiceDatabase, x: Interaction)
    requires DomainToService.ValidDatabase(services) && mappedMedium != "referral"
    ensures MapReferral(mappedMedium, services, MapReferral(mappedMedium, services, x))
            == MapReferral(mappedMedium, services, x)
  {
  }

  /** `newReferralMapper`: the middleware that applies `MapReferral` and ignores both URLs. */
  function NewReferralMapper(mappedMedium: string, services: DomainToService.ServiceDatabase): (m: Middleware)
    requires DomainToService.ValidDatabase(services)
    ensures forall x, url, referrer :: m(x, url, referrer) == MapReferral(mappedMedium, services, x)
  {
    (x: Interaction, url: Option<Url>, referrer: Option<Url>) => MapReferral(mappedMedium, services, x)
  }

  /** `newSearchEngineMiddleware`: referrals from the given search engines become `organic` traffic. */
  function NewSearchEngineMiddleware(searchEngines: DomainToService.ServiceDatabase): (m: Middleware)
    requires DomainToService.ValidDatabase(searchEngines)
    ensures forall x, url, referrer :: m(x, url, referrer) == MapReferral("organic", searchEngines, x)
  {
    NewReferralMapper("organic", searchEngines)
  }

  /** `newSocialNetworkMiddleware`: referrals from the given social networks become `social` traffic. */
  function NewSocialNetworkMiddleware(socialNetworks: DomainToService.ServiceDatabase): (m: Middleware)
    requires DomainToService.ValidDatabase(socialNetworks)
    ensures forall x, url, referrer :: m(x, url, referrer) == MapReferral("social", socialNetworks, x)
  {
    NewReferralMapper("social", socialNetworks)
  }

  /** Both variants are idempotent: their output medium is never `'referral'`. */
  lemma VariantsIdempotent(services: DomainToService.ServiceDatabase, x: Interaction, url: Option<Url>, referrer: Option<Url>)
    requires DomainToService.ValidDatabase(services)
    ensures var m := NewSearchEngineMiddleware(services); m(m(x, url, referrer), url, referrer) == m(x, url, referrer)
    ensures var m := NewSocialNetworkMiddleware(services); m(m(x, url, referrer), url, referrer) == m(x, url, referrer)
  {
    MapReferralIdempotent("organic", services, x);
    MapReferralIdempotent("social", services, x);
  }

  /** A referral the table does not resolve passes through unchanged. */
  lemma UnknownReferrerUnchanged(mappedMedium: string, services: DomainToService.ServiceDatabase, x: Interaction)
    requires DomainToService.ValidDatabase(services)
    requires x.source.Some? && DomainToService.DomainToService(x.source.value, services).None?
    ensures MapReferral(mappedMedium, services, x) == x
  {
  }
}
