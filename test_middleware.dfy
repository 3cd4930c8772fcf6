/**
 * The `TestMiddleware` fixture: a `test` query parameter forces the channel `test / test` and
 * becomes an important parameter, whatever the interaction already says.
 */
module TestMiddleware {
  import opened Options
  import opened Types
  import Logger = InteractionLogger

  /** The input, unless it carries a non-empty `test` parameter: then exactly `{test, test, {test}}`. */
  function TestMiddleware(x: Interaction): (r: Interaction)
    ensures !Truthy(Lookup(x.parameters, "test")) ==> r == x
    ensures Truthy(Lookup(x.parameters, "test")) ==>
              r.source == Some("test") && r.medium == Some("test")
              && r.importantParameters == map["test" := x.parameters["test"]]
              && r.parameters == map[]
              && r.campaign.None? && r.content.None? && r.term.None?
              && r.direct.None? && r.excluded.None? && r.timestamp.None?
  {
    match Lookup(x.parameters, "test")
    case Some(t) =>
      if t == "" then x
      else Blank.(source := Some("test"), medium := Some("test"), importantParameters := map["test" := t])
    case None => x
  }

  /** No completeness test: a `test` parameter overrides a channel the utm parameters already set. */
  lemma OverridesCompleteChannel(x: Interaction)
    requires IsComplete(x) && x.source != Some("test") && Truthy(Lookup(x.parameters, "test"))
    ensures TestMiddleware(x) != x && TestMiddleware(x).source == Some("test")
  {
  }

  /** The output has no parameters, so a second application leaves it as it is. */
  lemma TestMiddlewareIdempotent(x: Interaction)
    ensures TestMiddleware(TestMiddleware(x)) == TestMiddleware(x)
  {
  }

  /**
   * Within a session, a new `test` value after a logged entry with another one changes
   * attribution: the middleware drops the timestamp, so the rule compares `now` with the cursor.
   */
  lemma NewTestValueChangesAttribution(x: Interaction, last: Interaction, cursor: int, now: int, timeout: int)
    requires Truthy(Lookup(x.parameters, "test")) && cursor != 0 && now - cursor <= timeout
    requires last.importantParameters != map["test" := x.parameters["test"]]
    ensures Logger.Changed(TestMiddleware(x), Some(last), Some(cursor), now, timeout)
  {
  }

  /** The same `test` value on the same channel within a session changes nothing. */
  lemma SameTestValueKeepsAttribution(x: Interaction, last: Interaction, cursor: int, now: int, timeout: int)
    requires Truthy(Lookup(x.parameters, "test")) && cursor != 0 && now - cursor <= timeout
    requires last.importantParameters == map["test" := x.parameters["test"]]
    requires last.source == Some("test") && last.medium == Some("test")
    requires last.campaign.None? && last.content.None? && last.term.None?
    ensures !Logger.Changed(TestMiddleware(x), Some(last), Some(cursor), now, timeout)
  {
  }
}
