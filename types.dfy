/**
 * The records shared by every component (types.ts): an Interaction, its weighted form
 * and the URL fields the logger and the middlewares read.
 */
module Types {
  import opened Options

  /**
   * One observed touchpoint. Every property of the TypeScript interface is optional; the two
   * parameter records are maps, an absent record being the empty map, because every reader of
   * them substitutes `{}` for a missing one.
   */
  datatype Interaction = Interaction(
    campaign: Option<string>,
    content: Option<string>,
    medium: Option<string>,
    importantParameters: map<string, string>,
    parameters: map<string, string>,
    source: Option<string>,
    term: Option<string>,
    direct: Option<bool>,
    excluded: Option<bool>,
    timestamp: Option<int>)

  /** The record literal `{}`. */
  const Blank: Interaction :=
    Interaction(None, None, None, map[], map[], None, None, None, None, None)

  /** JavaScript truthiness of an optional string: present and not `''`. */
  predicate Truthy(s: Option<string>) {
    s.Some? && s.value != ""
  }

  /** `interaction.source && interaction.medium`: the channel is already known. */
  predicate IsComplete(x: Interaction) {
    Truthy(x.source) && Truthy(x.medium)
  }

  /** `interaction.excluded` is truthy. */
  predicate IsExcluded(x: Interaction) {
    x.excluded == Some(true)
  }

  /** `interaction.direct` is truthy. */
  predicate IsDirect(x: Interaction) {
    x.direct == Some(true)
  }

  /** `record?.[key]` on a string record. */
  function Lookup(m: map<string, string>, key: string): (r: Option<string>)
    ensures r.Some? <==> key in m
    ensures r.Some? ==> r.value == m[key]
  {
    if key in m then Some(m[key]) else None
  }

  /** An Interaction with the weight (and optionally the value) a multi-touch model gives it. */
  datatype Weighted = Weighted(
    interaction: Interaction,
    weight: real,
    occurrences: Option<int>,
    value: Option<real>)

  /** `{...interaction, weight: w}`. */
  function WithWeight(x: Interaction, w: real): Weighted {
    Weighted(x, w, None, None)
  }

  /** What the logger reads of a URL: its host name and its decoded query pairs, in order. */
  datatype Url = Url(hostname: string, query: seq<(string, string)>)

  /** The signature of an interaction middleware: the interaction, the page URL and the referrer. */
  type Middleware = (Interaction, Option<Url>, Option<Url>) -> Interaction
}
