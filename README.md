# just-attribute, modelled in Dafny

just-attribute is a client-side marketing-attribution library. Its core has four parts:

- **The interaction logger.** On every page view it turns the visited URL and the referrer into an
  *interaction*: the utm channel fields, the other query parameters, and a direct/referral
  classification. It runs the registered middlewares over the interaction. It then decides, by an
  ordered list of rules, whether that visit changes the attribution. It keeps two slots in a
  key-value storage: a session cursor (the time of the last visit) and a length-capped log of the
  interactions that changed attribution.
- **The middlewares.** Each rewrites one interaction: Ref, FacebookAds, FacebookAdsMiddleware,
  GoogleAdsMiddleware, the ReferralMapper variants, and the TestMiddleware fixture. The
  ReferralMapper variants name referrals from known domains through the wildcard domain resolver
  `domainToService`.
- **The attribution models.** First, Last, LastNonDirect, Linear and PositionBased choose or
  weight logged interactions. `distributeValue` spreads an order value over the weights.
- **The in-memory storage fixture.** It gives the storage its get/set/remove semantics.

The project is one Dafny module per source file, plus a few shared modules:

- `Options`: the option type.
- `Types`: the Interaction record, its weighted form, the URL and the middleware signature.
- `JsNumber`: the logger's `String(t)` / `Number(s)` conversion of the cursor.
- `ClickIds`: the rule the click-id middlewares share.
- `Attribution`: filtering and weight totals.

The logger and the storage are classes whose methods change their fields. The resolver, the
middlewares and the models are functions.

Weights and values are `real`, so weight totals are proved exactly.

## Model

| member | source | states |
|---|---|---|
| Types.Lookup | src/InteractionLogger.ts:240 | `record?.[key]` is present exactly for keys of the map, with the stored value |
| MemoryStorage.MemoryStorage.constructor | tests/fixtures/MemoryStorage.ts:2-5 | the storage starts with the given contents |
| MemoryStorage.MemoryStorage.GetItem | tests/fixtures/MemoryStorage.ts:7-9 | a key never set reads as null; a set key reads as what was stored, a stored null as null |
| MemoryStorage.MemoryStorage.SetItem | tests/fixtures/MemoryStorage.ts:11-13 | afterwards the key holds the value and exists; every other key reads and exists as before |
| MemoryStorage.MemoryStorage.Clear | tests/fixtures/MemoryStorage.ts:15-17 | afterwards no key exists and every key reads as null |
| MemoryStorage.MemoryStorage.RemoveItem | tests/fixtures/MemoryStorage.ts:29-31 | only that key is deleted; it then neither exists nor reads as anything |
| MemoryStorage.MemoryStorage.HasItem | tests/fixtures/MemoryStorage.ts:37-39 | true exactly for keys present in the store, even when they hold null |
| JsNumber.ParseNumber | src/InteractionLogger.ts:270 | `Number('')` is 0; a negative result comes from a text starting with `-` |
| JsNumber.NatToStringDigits | src/InteractionLogger.ts:260 | `String(n)` of a natural number is a non-empty run of digits whose value is `n` |
| JsNumber.RoundTrip | src/InteractionLogger.ts:257-276 | a timestamp written with `String` reads back with `Number` as the same integer |
| InteractionLogger.DecodeLog | src/InteractionLogger.ts:178-188 | a missing, null or empty stored log is absent; a stored JSON list is a log with those entries; every other stored text is read as malformed (which for valid non-list JSON is weaker than the source, see Left out) |
| InteractionLogger.Entries | src/InteractionLogger.ts:180-188 | `interactionLog` returns the entries of a log and `[]` for an absent or malformed one |
| InteractionLogger.CursorValue | src/InteractionLogger.ts:264-276 | the cursor is never 0; a text cursor is present exactly when `Number` reads it as a non-zero number; a missing cursor is null |
| InteractionLogger.CursorRoundTrip | src/InteractionLogger.ts:257-276 | a cursor written as `String(t)` reads back as `t`, except that 0 reads as null |
| InteractionLogger.LastValue | src/InteractionLogger.ts:125-128 | null exactly when no pair has the key; otherwise the value of a pair with that key after which no pair has it, i.e. the last one |
| InteractionLogger.LastNonEmpty | src/InteractionLogger.ts:129-135 | null exactly when no pair has the key with a non-empty value; otherwise the non-empty value of the last such pair |
| InteractionLogger.AddPair | src/InteractionLogger.ts:125-136 | one query pair changes one thing: a utm key sets exactly its field, even to `''`; an inherited key or an empty value changes nothing; any other key sets that parameter; timestamp, important parameters, direct and excluded never change |
| InteractionLogger.Collect | src/InteractionLogger.ts:123-137 | the collected record carries the timestamp `now`, no important parameters, and is neither direct nor excluded |
| InteractionLogger.CollectUtm | src/InteractionLogger.ts:32-38 | each utm field holds the last value given for its key, even an empty one; a later duplicate overwrites an earlier one |
| InteractionLogger.CollectParameters | src/InteractionLogger.ts:126-135 | a key is in `parameters` exactly when it is not a utm key, not a member inherited from `Object.prototype`, and has a non-empty value; it holds its last non-empty value |
| InteractionLogger.Referral | src/InteractionLogger.ts:205-211 | the referrer's host name as source, `referral` as medium, and no other field; complete exactly when the host name is non-empty |
| InteractionLogger.Determine | src/InteractionLogger.ts:139-151 | a complete channel is returned as collected, not direct; with no referrer or a same-host referrer the collected fields are kept and `direct` is true; otherwise the result is exactly `{source: hostname, medium: 'referral'}`, every collected field dropped; `direct` is true exactly in the second case |
| InteractionLogger.CompleteUtmIsNotDirect | src/InteractionLogger.ts:139-141 | with non-empty utm source and medium the visit is never direct, whatever the referrer, and keeps the utm source |
| InteractionLogger.Stamped | src/InteractionLogger.ts:104 | `timestamp ??= now`: an existing timestamp is kept, a missing one becomes `now` |
| InteractionLogger.RunMiddlewares | src/InteractionLogger.ts:110-112 | no middleware leaves the interaction as it is |
| InteractionLogger.RunMiddlewaresFirst | src/InteractionLogger.ts:110-112 | the first registered middleware runs first, on the interaction itself, and the rest run on its result |
| InteractionLogger.RunMiddlewaresAppend | src/InteractionLogger.ts:110-112 | the middleware pipeline is a left fold: running `a + b` is running `b` on the result of `a` |
| InteractionLogger.ImportantDiffersIff | src/InteractionLogger.ts:234-243 | some key of either important-parameter map differs exactly when the two maps differ |
| InteractionLogger.Changed | src/InteractionLogger.ts:213-251 | the rules in order: no logged entry or no (or 0) cursor changes; a gap strictly over the timeout changes; else a direct visit does not change; else it changes exactly when the important parameters or a channel field differ |
| InteractionLogger.ParametersNeverChange | src/InteractionLogger.ts:245-250 | replacing `parameters` never changes the decision |
| InteractionLogger.SameChannelWithinSession | src/InteractionLogger.ts:229-250 | within a session, a visit with the same channel and important parameters as the last entry is no change |
| InteractionLogger.JsSliceFrom | src/InteractionLogger.ts:289 | `slice(start)`: a non-negative start drops that many entries, a negative one keeps that many from the end |
| InteractionLogger.AppendCapped | src/InteractionLogger.ts:284-290 | whatever the limit, the new log is a suffix of `old + [x]`: only the oldest entries are ever dropped; with a limit of at least 1 it has `min(old + 1, limit)` entries |
| InteractionLogger.AppendCappedKeepsNewest | src/InteractionLogger.ts:284-290 | with a limit of at least 1 the log becomes the last `min(old + 1, limit)` entries of `old + [x]`, in order, ending with `x`, even when it was already over the limit |
| InteractionLogger.AppendCappedZeroKeepsAll | src/InteractionLogger.ts:288-289 | a limit of 0 keeps the whole appended log, because `slice(-0)` is `slice(0)` |
| InteractionLogger.AppendCappedNegative | src/InteractionLogger.ts:288-289 | a negative limit drops that many of the oldest entries instead |
| InteractionLogger.Notify | src/InteractionLogger.ts:116 | one call per callback, in registration order, each with the interaction |
| InteractionLogger.StoreAfter | src/InteractionLogger.ts:104-119 | the cursor key always holds `String(t)`; on a change the log key holds the stored log with the stamped interaction appended and capped |
| InteractionLogger.StoredEntries | src/InteractionLogger.ts:177-189 | the entries of a stored JSON list, and `[]` when the log key is missing |
| InteractionLogger.StoreAfterKeys | src/InteractionLogger.ts:104-119 | the keys afterwards are the old ones plus the cursor and, only on a change, the log key |
| InteractionLogger.StoreAfterOthers | src/InteractionLogger.ts:104-119 | every key other than the cursor and the log keeps its value |
| InteractionLogger.StoreAfterKeepsLog | src/InteractionLogger.ts:107-119 | without a change the log slot keeps its value |
| InteractionLogger.StoreAfterNewest | src/InteractionLogger.ts:107-117 | on a change with a limit of at least 1, the stored log decodes to a non-empty list whose newest entry is the stamped interaction |
| InteractionLogger.UnchangedKeepsLog | src/InteractionLogger.ts:107-119 | with no change the log slot is untouched and the cursor reads back as the new timestamp |
| InteractionLogger.InteractionLogger.constructor | src/InteractionLogger.ts:51-71 | given settings override the defaults of 30 minutes and 100 entries; no middleware, callback or notification yet |
| InteractionLogger.InteractionLogger.InteractionLog | src/InteractionLogger.ts:177-189 | the stored JSON list, and `[]` when the log is missing, null or empty, or fails to parse; a stored text that is valid non-list JSON also reads as `[]` here (see Left out) |
| InteractionLogger.InteractionLogger.LastInteraction | src/InteractionLogger.ts:199-203 | null exactly for an empty log, otherwise its final entry |
| InteractionLogger.InteractionLogger.LastInteractionTimestamp | src/InteractionLogger.ts:264-276 | never 0, and null when no cursor is stored |
| InteractionLogger.InteractionLogger.HasAttributionChanged | src/InteractionLogger.ts:213-219 | an empty log always means a change; otherwise the ordered rules against the newest entry |
| InteractionLogger.InteractionLogger.RegisterInteractionMiddleware | src/InteractionLogger.ts:164-166 | the middleware is appended; nothing else changes |
| InteractionLogger.InteractionLogger.OnAttributionChange | src/InteractionLogger.ts:173-175 | the callback is appended; nothing else changes |
| InteractionLogger.InteractionLogger.ClearLog | src/InteractionLogger.ts:195-197 | only the log key changes, to null: the log reads `[]`, there is no last interaction, and the cursor is unchanged |
| InteractionLogger.InteractionLogger.LogLastInteractionTimestamp | src/InteractionLogger.ts:257-262 | only the cursor key changes; it reads back as the timestamp (0 as null), and the log is unchanged |
| InteractionLogger.InteractionLogger.LogInteraction | src/InteractionLogger.ts:281-293 | only the log key changes: it holds the old log with the stamped interaction appended and capped by the limit; the cursor is unchanged |
| InteractionLogger.InteractionLogger.DetermineInteraction | src/InteractionLogger.ts:122-152 | the `forEach` over the query pairs collects exactly `Collect`, and the result is `Determine` |
| InteractionLogger.InteractionLogger.RunAll | src/InteractionLogger.ts:110-112 | the middleware loop computes the left fold in registration order |
| InteractionLogger.InteractionLogger.NotifyAll | src/InteractionLogger.ts:116 | every callback is called once with the interaction, in order, while the log is still the old one |
| InteractionLogger.InteractionLogger.ProcessInteraction | src/InteractionLogger.ts:102-120 | the cursor always becomes the stamped timestamp; the decision uses the cursor read before that write and the middlewares' result; only on a change are the callbacks called, seeing the old log, and the stamped result appended |
| InteractionLogger.InteractionLogger.Pageview | src/InteractionLogger.ts:80-94 | with the URL and referrer given: determine the interaction, then process it with the URL and the referrer |
| DomainToService.StripWwwAnyCase | src/domainToService.ts:9 | a leading `www.` in any letter case is removed from the domain, and nothing else |
| DomainToService.StripWww | src/domainToService.ts:15 | only a leading lower-case `www.` is removed from a pattern |
| DomainToService.Compile | src/domainToService.ts:13-23 | no longer than the pattern; never the escaped subdomain token, since the dot after `*.` is left unescaped; a `*`-free pattern becomes one literal per character |
| DomainToService.Matches | src/domainToService.ts:25 | the anchored, case-insensitive test: a match consumes at least one character per literal and per `*` label |
| DomainToService.AnyPatternMatches | src/domainToService.ts:12-28 | true exactly when some pattern of the service matches |
| DomainToService.FirstMatch | src/domainToService.ts:11-31 | null exactly when no service matches; otherwise the name of a matching service with no matching service before it |
| DomainToService.DomainToService | src/domainToService.ts:7-32 | with the domain's `www.` prefix removed: null exactly when no service has a matching pattern; otherwise the name of a service with a matching pattern and no matching service before it in table order |
| DomainToService.LabelMeaning | src/domainToService.ts:22-23 | a `*` not followed by `.` matches one or more label characters, never a dot, then the rest |
| DomainToService.OptionalSubdomainMeaning | src/domainToService.ts:20-21 | `*.` matches nothing, or a label and then one separator: any character but a line terminator as written, only a dot when escaped |
| DomainToService.LiteralMeaning | src/domainToService.ts:16-17 | a `*`-free pattern matches a text of its own length that is the same up to letter case, then the rest |
| DomainToService.CompileLiteralPrefix | src/domainToService.ts:16-23 | a `*`-free prefix compiles character by character, independently of what follows |
| DomainToService.LowerAscii | src/InteractionMiddlewares/ReferralMapper.ts:35 | `toLowerCase`: the same length, each ASCII capital replaced by its small letter, every other character kept |
| DomainToService.MatchesIgnoresCase | src/domainToService.ts:25 | the `i` flag: lower-casing the subject never changes a match |
| DomainToService.DomainToServiceIgnoresCase | src/domainToService.ts:25 | lower-casing the domain never changes the resolved service |
| DomainToService.LookupIgnoresWww | src/domainToService.ts:9 | `www.` in any case before a domain changes nothing: the lookup proceeds on the rest |
| DomainToService.PatternIgnoresWww | src/domainToService.ts:14-15 | a pattern `www.p` matches the same domains as `p` |
| DomainToService.TrailingWildcard | src/domainToService.ts:22-23 | `p*` matches `p` followed by any non-empty run of label characters |
| DomainToService.SubdomainWildcard | src/domainToService.ts:18-21 | `*.p` matches `p`, and a label, ANY separator but a line terminator, and `p`; escaped, only a dot separator is accepted |
| DomainToService.LiteralMismatch | src/domainToService.ts:16-17 | a `*`-free pattern rejects a same-length domain that differs from it at one position |
| DomainToService.LiteralLength | src/domainToService.ts:25 | the match is anchored at both ends: a `*`-free pattern rejects a domain of another length |
| DomainToService.WildcardTopLevelDomain | src/domainToService.ts:7-32 | `www.google.*` resolves `www.google.nl` to `google` |
| DomainToService.LiteralDots | src/domainToService.ts:16-17 | `google.com` rejects `googleXcom`; `www.google.com` does not resolve `wwwxgoogle.com` |
| DomainToService.OptionalSubdomainExamples | src/domainToService.ts:21 | `*.google.com` matches `google.com` and `www.google.com`, and, through its unescaped dot, `evilgoogle.com` |
| DomainToService.CompileIntendedStarFree | src/domainToService.ts:16-23 | escaping the subdomain's dot changes nothing in a `*`-free pattern |
| DomainToService.IntendedSubdomainMeaning | src/domainToService.ts:20-21 | with the dot escaped, `*.p` matches exactly `p`, or a label, a dot and `p` |
| ClickIds.FromClickId | src/InteractionMiddlewares/GoogleAdsMiddleware.ts:3-26 | a complete interaction, or one without a non-empty click id, is returned unchanged; otherwise the paid click of the platform with the click id as its only important parameter, the click id removed from the kept parameters, and every other field dropped |
| ClickIds.FromClickIdIdempotent | src/InteractionMiddlewares/GoogleAdsMiddleware.ts:5-7 | the paid click is complete, so a second application changes nothing |
| FacebookAds.FacebookAds | src/InteractionMiddlewares/FacebookAds.ts:3-26 | unchanged when complete or without `fbclid`; otherwise exactly `facebook / cpc` with `{fbclid}` important and the other parameters kept |
| FacebookAds.FacebookAdsIdempotent | src/InteractionMiddlewares/FacebookAds.ts:5-7 | applying it to its own output changes nothing |
| FacebookAdsMiddleware.FacebookAdsMiddleware | src/InteractionMiddlewares/FacebookAdsMiddleware.ts:3-26 | unchanged when complete or without `fbclid`; otherwise `facebook / cpc` with `{fbclid}` important and `fbclid` removed from the parameters |
| FacebookAdsMiddleware.SameAsFacebookAds | src/InteractionMiddlewares/FacebookAdsMiddleware.ts:3-26 | it agrees with `facebookAds` on every interaction |
| GoogleAdsMiddleware.GoogleAdsMiddleware | src/InteractionMiddlewares/GoogleAdsMiddleware.ts:3-26 | unchanged when complete or without `gclid`; otherwise exactly `google / cpc` with `{gclid}` important and the other parameters kept |
| GoogleAdsMiddleware.FbclidIsNotGclid | src/InteractionMiddlewares/GoogleAdsMiddleware.ts:9-13 | without a `gclid`, for instance with only an `fbclid`, the interaction is unchanged |
| GoogleAdsMiddleware.GoogleAdsIdempotent | src/InteractionMiddlewares/GoogleAdsMiddleware.ts:5-7 | applying it to its own output changes nothing |
| Ref.Ref | src/InteractionMiddlewares/Ref.ts:6-28 | unchanged when complete or without a non-empty `ref`; otherwise `{source: ref, medium: 'referral'}` with `ref` removed from the parameters and every other field dropped |
| Ref.RefIdempotent | src/InteractionMiddlewares/Ref.ts:8-10 | the referral is complete, so a second application changes nothing |
| TestMiddleware.TestMiddleware | tests/fixtures/TestMiddleware.ts:3-15 | unchanged without a non-empty `test`; otherwise exactly `test / test` with `{test}` important, no parameters and no other field |
| TestMiddleware.OverridesCompleteChannel | tests/fixtures/TestMiddleware.ts:4-14 | there is no completeness check: a `test` parameter overrides a channel already set |
| TestMiddleware.TestMiddlewareIdempotent | tests/fixtures/TestMiddleware.ts:10-14 | its output has no parameters, so a second application changes nothing |
| TestMiddleware.NewTestValueChangesAttribution | src/InteractionLogger.ts:234-243 | within a session, a `test` value other than the logged one changes attribution |
| TestMiddleware.SameTestValueKeepsAttribution | src/InteractionLogger.ts:229-250 | within a session, the same `test` value as the logged `test / test` entry changes nothing |
| ReferralMapper.MapReferral | src/InteractionMiddlewares/ReferralMapper.ts:26-48 | a non-referral or a referral with no source is unchanged; otherwise, when the source resolves to a non-empty name, exactly source and medium are replaced by the name and the bound medium, else nothing changes; lower-casing the source does not affect the lookup |
| ReferralMapper.MapReferralIdempotent | src/InteractionMiddlewares/ReferralMapper.ts:29-31 | with a bound medium other than `referral`, a second application changes nothing |
| ReferralMapper.NewReferralMapper | src/InteractionMiddlewares/ReferralMapper.ts:26-27 | the middleware applies the mapping to the interaction and ignores both URLs |
| ReferralMapper.NewSearchEngineMiddleware | src/InteractionMiddlewares/ReferralMapper.ts:12-16 | the mapping with the medium `organic` |
| ReferralMapper.NewSocialNetworkMiddleware | src/InteractionMiddlewares/ReferralMapper.ts:20-24 | the mapping with the medium `social` |
| ReferralMapper.VariantsIdempotent | src/InteractionMiddlewares/ReferralMapper.ts:12-24 | applying either variant twice is applying it once |
| ReferralMapper.UnknownReferrerUnchanged | src/InteractionMiddlewares/ReferralMapper.ts:46 | a referral the table does not resolve passes through unchanged |
| Attribution.Filter | src/AttributionModels/LastInteraction.ts:11 | `filter` keeps exactly the accepted elements and never grows the list |
| Attribution.FilterEmpty | src/AttributionModels/FirstInteraction.ts:15-18 | the filter is empty exactly when no element is accepted |
| Attribution.FilterHead | src/AttributionModels/FirstInteraction.ts:18 | the head of a non-empty filter is the first accepted element |
| Attribution.FilterLast | src/AttributionModels/LastInteraction.ts:14 | the last element of a non-empty filter is the last accepted element |
| Attribution.FilterFilter | src/AttributionModels/LastNonDirectInteraction.ts:16-17 | filtering twice is filtering once by both conditions |
| Attribution.Eligible | src/AttributionModels/Linear.ts:13-18 | the non-excluded interactions, or all of them when every one is excluded; empty exactly for an empty log |
| Attribution.WithWeights | src/AttributionModels/Linear.ts:20-25 | one entry per interaction, in order, each with the given weight and no value |
| Attribution.SumWithWeights | src/AttributionModels/Linear.ts:20-25 | `n` entries of weight `w` sum to `n * w` |
| FirstInteraction.Attribute | src/AttributionModels/FirstInteraction.ts:10-19 | null exactly for an empty log; always an element of the log; the first non-excluded one, or the first of all when all are excluded |
| LastInteraction.Attribute | src/AttributionModels/LastInteraction.ts:10-15 | null exactly when every entry is excluded; otherwise the last non-excluded entry |
| LastInteraction.NoFallback | src/AttributionModels/LastInteraction.ts:14 | a log of one excluded entry gets no attribution |
| LastNonDirectInteraction.Attribute | src/AttributionModels/LastNonDirectInteraction.ts:11-25 | null exactly for an empty log; the last entry neither excluded nor direct; failing that the last non-excluded one; failing that the last of all |
| DistributeValue.DistributeValue | src/distributeValue.ts:6-13 | same length and order; interaction, weight and occurrences kept; every value overwritten with weight times value |
| DistributeValue.DistributedTotal | src/distributeValue.ts:7-12 | the values add up to the total weight times the value |
| DistributeValue.SplitsWholeValue | src/distributeValue.ts:7-12 | weights summing to 1 hand out exactly the value |
| Linear.Attribute | src/AttributionModels/Linear.ts:8-26 | `[]` for an empty log; otherwise the eligible interactions in order, each weighted one over the length of the whole log |
| Linear.AttributeTotal | src/AttributionModels/Linear.ts:23 | the weights sum to the eligible share of the log |
| Linear.AttributeTotalOne | src/AttributionModels/Linear.ts:13-23 | with no exclusion, or everything excluded, the weights sum to 1 |
| Linear.PartialExclusionLosesWeight | src/AttributionModels/Linear.ts:23 | one excluded and one included entry: the weights sum to 1/2 |
| Linear.AttributeIntended | src/AttributionModels/Linear.ts:20-25 | the eligible interactions, each weighted one over their number |
| Linear.AttributeIntendedTotal | src/AttributionModels/Linear.ts:5 | the intended weights sum to 1 on every non-empty log |
| Linear.DistributeValue | src/AttributionModels/Linear.ts:28-35 | the same operation as the stand-alone `distributeValue` |
| PositionBased.Attribute | src/AttributionModels/PositionBased.ts:10-48 | one entry per eligible interaction, in order, with no occurrence count or value |
| PositionBased.AttributeWeights | src/AttributionModels/PositionBased.ts:22-47 | one entry gets 1; two get 0.5 each; with `n >= 3` the ends get 0.4 and each interior entry `0.2 / (n - 2)` |
| PositionBased.SplitTotal | src/AttributionModels/PositionBased.ts:38-47 | 0.4, an interior sharing 0.2, and 0.4 sum to exactly 1 |
| PositionBased.AttributeTotal | src/AttributionModels/PositionBased.ts:25-47 | on a non-empty log the weights sum to exactly 1 |
| PositionBased.DistributesWholeValue | src/AttributionModels/PositionBased.ts:3-9 | distributing a value over these weights hands out exactly that value |

## Left out

- `pageview` reading `document.location` and `document.referrer` and its `try/catch` around `new URL`: browser input. The page URL and an optional referrer are parameters. `detectReferrals` only controls that reading, so it is not a setting of the model.
- URL and query parsing and percent-decoding: a URL is its host name and its decoded query pairs, in order.
- JSON encoding and decoding of the log: a stored item is either a list of interactions (`Json`) or any other text (`Text`). Interactions are assumed to survive the JSON round trip unchanged.
- DecodeLog: a stored text that is valid JSON but not a list (`"null"`, `"{}"`, `"5"`, a quoted string) is read as a malformed log, so it reads as `[]` and a change appends to an empty log. The source returns whatever `JSON.parse` yields there. `lastInteraction` throws on `null` and returns a character for a string, and `logInteraction`'s `push` throws on any non-list, so every later changed visit fails. Thrown errors are not modelled.
- `Date.now()`: one `now` parameter serves every call in one `pageview`: the timestamp `determineInteraction` sets, and the fallbacks in `processInteraction`, `hasAttributionChanged` and `logInteraction`. The calls would differ only by the time they take apart.
- Callback bodies: callbacks are identities, and each call is recorded in a ghost trace.
- `logRetentionTime`: the setting is declared but never read.
- The default domain tables: `newSearchEngineMiddleware` and `newSocialNetworkMiddleware` are modelled with their table argument given.
- General regular-expression semantics: patterns are restricted to label characters, `.` and `*`, the only characters the compilation rewrites or that stand for themselves.
- A service whose pattern list is a string rather than an array: such a list is iterated character by character.
- Service table order: it is a sequence. `Object.entries` lists integer-like service names first; that is not modelled.
- Strings are sequences of Unicode characters, while JavaScript strings are UTF-16 code units. The unescaped `.` after `*.` matches one code unit in the source but one character here, so the two differ on characters outside the Basic Multilingual Plane. Lengths and indices of such characters differ in the same way.
- Letter case is ASCII only, for `toLowerCase` and for the expression's `i` flag. Non-ASCII case folding is not modelled.
- `Number` is modelled only on optional-minus decimal integers. Other numeric spellings (spaces, `+`, exponents, hex, `Infinity`) read as NaN here.
- Timestamps and other numbers are unbounded integers. Weights and values are exact reals, so IEEE float rounding is not modelled.
- Extra properties on an interaction (the open index signature of types.ts) are not modelled. This includes the own property that a query key inherited from `Object.prototype` sets. That such a key never reaches `parameters` is modelled.
- Mutation in place is not modelled. The model does not capture:
  - `interaction.timestamp ??= …` writing into the caller's record, which a callback might keep and see re-stamped later;
  - `shift`/`pop` emptying the caller's array in the all-excluded fallbacks.
- The constructor's `{...settings}` spread: an explicitly `undefined` setting overrides its default in the source, but falls back to the default in the model.
- The storage defaulting to `globalThis.localStorage`: the storage is the in-memory one, and a constructor argument. The real `localStorage` would store the null that `clearLog` writes as the text `"null"`, which is valid non-list JSON (see the DecodeLog line above).

## Findings

| source | as written | input that shows it | evidently intended | confidence | as-written member | corrected member |
|---|---|---|---|---|---|---|
| src/domainToService.ts:21 | the replacement `'([\\w\\d-]+\.)?'` is a string literal, so `\.` is just `.` and the optional subdomain ends in ANY character | pattern `*.google.com`, domain `evilgoogle.com` resolves to `google` | the subdomain ends in a literal dot, as the comment on line 20 and the escaping on line 17 intend | high, not executed | DomainToService.OptionalSubdomainExamples | DomainToService.IntendedSubdomainMeaning |
| src/AttributionModels/Linear.ts:23 | each eligible interaction weighs `1 / interactions.length`, the unfiltered length | one excluded and one included interaction: the single entry weighs 0.5 and the weights sum to 0.5 | weight `1 / includedInteractions.length`, so the weights always sum to 1 | high, not executed | Linear.PartialExclusionLosesWeight | Linear.AttributeIntendedTotal |

Elsewhere the model follows the code as written. The ReferralMapper variants resolve through
`DomainToService.DomainToService`, so the unescaped dot above applies to them.

The processing order also follows the code: the attribution-change callbacks are called before
the new entry is appended, so a callback that reads the log sees the previous one.
