/**
 * The InteractionLogger: turns a visited URL and its referrer into an interaction, keeps the
 * session cursor (the time of the last visit) and the capped attribution log in a key-value
 * storage, and decides by an ordered list of rules whether a visit changes attribution.
 */
module InteractionLogger {
  import opened Options
  import opened Types
  import opened JsNumber
  import opened MemoryStorage

  /** The storage key of the attribution log. */
  const LogKey := "ja_interaction_log"
  /** The storage key of the session cursor. */
  const CursorKey := "ja_last_interaction"

  /** A minute, a day and the defaults of the settings, in milliseconds where they are times. */
  const Minute := 1000 * 60
  const Day := Minute * 60 * 24
  const DefaultSessionTimeout := Minute * 30
  const DefaultLogLimit := 100

  /**
   * A stored string: the JSON encoding of a list of interactions, or any other text (the
   * cursor's decimal number, or something that is not a log).
   */
  datatype Item = Text(text: string) | Json(entries: seq<Interaction>)

  /** What `interactionLog` finds under the log key. */
  datatype StoredLog = Absent | Malformed | Log(entries: seq<Interaction>)

  /**
   * A null or empty string is no log; JSON of a list is a log; any other text is malformed. That
   * includes valid JSON that is not a list, which `JSON.parse` would return as it is.
   */
  function DecodeLog(v: Option<Item>): (r: StoredLog)
    ensures v.None? || v == Some(Text("")) <==> r.Absent?
    ensures r.Log? <==> v.Some? && v.value.Json?
    ensures r.Log? ==> r.entries == v.value.entries
  {
    match v
    case None => Absent
    case Some(Text(s)) => if s == "" then Absent else Malformed
    case Some(Json(entries)) => Log(entries)
  }

  /** The list `interactionLog` returns: the entries of a log, `[]` otherwise. */
  function Entries(s: StoredLog): (r: seq<Interaction>)
    ensures s.Log? ==> r == s.entries
    ensures !s.Log? ==> r == []
  {
    if s.Log? then s.entries else []
  }

  /**
   * `lastInteractionTimestamp` over the stored cursor: null for a missing or empty string, for
   * a string `Number` reads as NaN and for 0; otherwise the number.
   */
  function CursorValue(v: Option<Item>): (r: Option<int>)
    ensures r.Some? ==> r.value != 0
    ensures v.Some? && v.value.Text? ==> (r.Some? <==> ParseNumber(v.value.text).Some? && ParseNumber(v.value.text) != Some(0))
    ensures v.None? || (v.Some? && v.value.Json?) ==> r.None?
  {
    match v
    case Some(Text(s)) =>
      if s == "" then None
      else
        (match ParseNumber(s)
         case None => None
         case Some(t) => if t == 0 then None else Some(t))
    case _ => None
  }

  /** The cursor written as `String(t)` reads back as `t`, except that 0 reads as null. */
  lemma CursorRoundTrip(t: int)
    ensures CursorValue(Some(Text(IntToString(t)))) == if t == 0 then None else Some(t)
  {
    RoundTrip(t);
    if t >= 0 {
      NatToStringDigits(t);
    } else {
      assert IntToString(t)[0] == '-';
    }
  }

  // ---------------------------------------------------------------- determineInteraction

  /** The keys of `queryMapping`: the five utm parameters. */
  predicate IsUtmKey(k: string) {
    k == "utm_campaign" || k == "utm_content" || k == "utm_medium" || k == "utm_source" || k == "utm_term"
  }

  /**
   * The members `queryMapping` inherits from `Object.prototype`: looking one of them up finds a
   * truthy object, so such a key is treated as mapped and never reaches `parameters`.
   */
  predicate IsInheritedKey(k: string) {
    k == "constructor" || k == "hasOwnProperty" || k == "isPrototypeOf" || k == "propertyIsEnumerable"
    || k == "toLocaleString" || k == "toString" || k == "valueOf" || k == "__proto__"
    || k == "__defineGetter__" || k == "__defineSetter__" || k == "__lookupGetter__" || k == "__lookupSetter__"
  }

  /**
   * One step of the `searchParams.forEach`: a utm key sets its field, even to `''`; an inherited
   * key sets a property of its own name, outside the modelled fields; any other key is kept in
   * `parameters` only with a non-empty value.
   */
  function AddPair(x: Interaction, pair: (string, string)): (r: Interaction)
    ensures r.timestamp == x.timestamp && r.importantParameters == x.importantParameters
    ensures r.direct == x.direct && r.excluded == x.excluded
    ensures IsUtmKey(pair.0) ==> UtmField(r, pair.0) == Some(pair.1) && r.parameters == x.parameters
    ensures IsUtmKey(pair.0) ==> forall k :: IsUtmKey(k) && k != pair.0 ==> UtmField(r, k) == UtmField(x, k)
    ensures !IsUtmKey(pair.0) ==> forall k :: IsUtmKey(k) ==> UtmField(r, k) == UtmField(x, k)
    ensures !IsUtmKey(pair.0) && !IsInheritedKey(pair.0) && pair.1 != "" ==> r.parameters == x.parameters[pair.0 := pair.1]
    ensures !IsUtmKey(pair.0) && (IsInheritedKey(pair.0) || pair.1 == "") ==> r == x
  {
    var (k, v) := pair;
    if k == "utm_campaign" then x.(campaign := Some(v))
    else if k == "utm_content" then x.(content := Some(v))
    else if k == "utm_medium" then x.(medium := Some(v))
    else if k == "utm_source" then x.(source := Some(v))
    else if k == "utm_term" then x.(term := Some(v))
    else if IsInheritedKey(k) then x
    else if v != "" then x.(parameters := x.parameters[k := v])
    else x
  }

  /** The value of the last pair with key `k`, if any. */
  function LastValue(query: seq<(string, string)>, k: string): (r: Option<string>)
    ensures r.None? <==> forall i :: 0 <= i < |query| ==> query[i].0 != k
    ensures r.Some? ==> exists i :: 0 <= i < |query| && query[i] == (k, r.value)
                                     && forall j :: i < j < |query| ==> query[j].0 != k
    decreases |query|
  {
    if query == [] then None
    else
      var n := |query| - 1;
      if query[n].0 == k then Some(query[n].1)
      else
        var r := LastValue(query[..n], k);
        assert forall i :: 0 <= i < n ==> query[..n][i] == query[i];
        r
  }

  /** The value of the last pair with key `k` and a non-empty value, if any. */
  function LastNonEmpty(query: seq<(string, string)>, k: string): (r: Option<string>)
    ensures r.None? <==> forall i :: 0 <= i < |query| ==> !NonEmptyPair(query[i], k)
    ensures r.Some? ==> r.value != ""
    ensures r.Some? ==> exists i :: 0 <= i < |query| && query[i] == (k, r.value)
                                     && forall j :: i < j < |query| ==> !NonEmptyPair(query[j], k)
    decreases |query|
  {
    if query == [] then None
    else
      var n := |query| - 1;
      if NonEmptyPair(query[n], k) then Some(query[n].1)
      else
        var r := LastNonEmpty(query[..n], k);
        assert forall i :: 0 <= i < n ==> query[..n][i] == query[i];
        r
  }

  /** The pair has key `k` and a non-empty value. */
  predicate NonEmptyPair(pair: (string, string), k: string) {
    pair.0 == k && pair.1 != ""
  }

  /**
   * `{timestamp: now}` after the query loop. Each utm field holds the LAST value given for its
   * key, empty or not; `parameters` holds, for every other key not inherited from
   * `Object.prototype`, its last non-empty value.
   */
  function Collect(query: seq<(string, string)>, now: int): (x: Interaction)
    ensures x.timestamp == Some(now) && x.importantParameters == map[]
    ensures x.direct.None? && x.excluded.None?
    decreases |query|
  {
    if query == [] then Blank.(timestamp := Some(now))
    else AddPair(Collect(query[..|query| - 1], now), query[|query| - 1])
  }

  /** The field `queryMapping` assigns to a utm key. */
  function UtmField(x: Interaction, k: string): Option<string>
    requires IsUtmKey(k)
  {
    if k == "utm_campaign" then x.campaign
    else if k == "utm_content" then x.content
    else if k == "utm_medium" then x.medium
    else if k == "utm_source" then x.source
    else x.term
  }

  /** Each utm field holds the last value given for its key, even an empty one. */
  lemma {:induction false} CollectUtm(query: seq<(string, string)>, now: int, k: string)
    requires IsUtmKey(k)
    ensures UtmField(Collect(query, now), k) == LastValue(query, k)
    decreases |query|
  {
    if query != [] {
      CollectUtm(query[..|query| - 1], now, k);
    }
  }

  /**
   * `parameters` holds exactly the keys that are neither utm nor inherited and have a non-empty
   * value, each with its last such value.
   */
  lemma {:induction false} CollectParameters(query: seq<(string, string)>, now: int, k: string)
    ensures var x := Collect(query, now);
            (k in x.parameters <==> !IsUtmKey(k) && !IsInheritedKey(k) && LastNonEmpty(query, k).Some?)
            && (k in x.parameters ==> x.parameters[k] == LastNonEmpty(query, k).value)
    decreases |query|
  {
    if query != [] {
      CollectParameters(query[..|query| - 1], now, k);
    }
  }

  /** `referralFromUrl`: exactly the referrer's host name as source, medium `referral`. */
  function Referral(referrer: Url): (r: Interaction)
    ensures r.source == Some(referrer.hostname) && r.medium == Some("referral")
    ensures r.(source := None, medium := None) == Blank
    ensures IsComplete(r) <==> referrer.hostname != ""
  {
    Blank.(source := Some(referrer.hostname), medium := Some("referral"))
  }

  /**
   * `determineInteraction`: the collected fields when they name a source and a medium; else a
   * direct visit when there is no referrer or it is the same host; else the bare referral, which
   * drops every collected field, the timestamp included.
   */
  function Determine(url: Url, referrer: Option<Url>, now: int): (r: Interaction)
    ensures IsComplete(Collect(url.query, now)) ==> r == Collect(url.query, now) && r.direct.None?
    ensures !IsComplete(Collect(url.query, now)) && (referrer.None? || referrer.value.hostname == url.hostname) ==>
              r == Collect(url.query, now).(direct := Some(true))
    ensures !IsComplete(Collect(url.query, now)) && referrer.Some? && referrer.value.hostname != url.hostname ==>
              r == Blank.(source := Some(referrer.value.hostname), medium := Some("referral"))
    ensures r.direct == Some(true) <==> !IsComplete(Collect(url.query, now)) && (referrer.None? || referrer.value.hostname == url.hostname)
  {
    var x := Collect(url.query, now);
    if IsComplete(x) then x
    else if referrer.None? || url.hostname == referrer.value.hostname then x.(direct := Some(true))
    else Referral(referrer.value)
  }

  /** A visit with source and medium in its utm parameters is never direct, whatever the referrer. */
  lemma CompleteUtmIsNotDirect(url: Url, referrer: Option<Url>, now: int)
    requires Truthy(LastValue(url.query, "utm_source")) && Truthy(LastValue(url.query, "utm_medium"))
    ensures Determine(url, referrer, now).direct.None?
    ensures Determine(url, referrer, now).source == LastValue(url.query, "utm_source")
  {
    CollectUtm(url.query, now, "utm_source");
    CollectUtm(url.query, now, "utm_medium");
  }

  // ---------------------------------------------------------------- processInteraction

  /** `interaction.timestamp ??= now`. */
  function Stamped(x: Interaction, now: int): (r: Interaction)
    ensures r.timestamp.Some?
    ensures x.timestamp.Some? ==> r == x
    ensures x.timestamp.None? ==> r == x.(timestamp := Some(now))
  {
    if x.timestamp.None? then x.(timestamp := Some(now)) else x
  }

  /** The middlewares applied in registration order, each to the previous one's result. */
  function RunMiddlewares(ms: seq<Middleware>, x: Interaction, url: Option<Url>, referrer: Option<Url>): (r: Interaction)
    ensures ms == [] ==> r == x
    decreases |ms|
  {
    if ms == [] then x
    else ms[|ms| - 1](RunMiddlewares(ms[..|ms| - 1], x, url, referrer), url, referrer)
  }

  /** Running two lists of middlewares one after the other is running their concatenation. */
  lemma {:induction false} RunMiddlewaresAppend(a: seq<Middleware>, b: seq<Middleware>, x: Interaction, url: Option<Url>, referrer: Option<Url>)
    ensures RunMiddlewares(a + b, x, url, referrer) == RunMiddlewares(b, RunMiddlewares(a, x, url, referrer), url, referrer)
    decreases |b|
  {
    if b == [] {
      assert a + b == a;
    } else {
      var n := |b| - 1;
      assert (a + b)[..|a + b| - 1] == a + b[..n];
      RunMiddlewaresAppend(a, b[..n], x, url, referrer);
    }
  }

  /** The first registered middleware sees the interaction first; the rest run on its result. */
  lemma RunMiddlewaresFirst(ms: seq<Middleware>, x: Interaction, url: Option<Url>, referrer: Option<Url>)
    requires ms != []
    ensures RunMiddlewares(ms, x, url, referrer) == RunMiddlewares(ms[1..], ms[0](x, url, referrer), url, referrer)
  {
    assert ms == [ms[0]] + ms[1..];
    assert [ms[0]][..0] == [];
    RunMiddlewaresAppend([ms[0]], ms[1..], x, url, referrer);
  }

  /** Some key of either map is missing from one of them or holds a different value. */
  predicate ImportantDiffers(a: map<string, string>, b: map<string, string>) {
    exists k :: k in a.Keys + b.Keys && Lookup(a, k) != Lookup(b, k)
  }

  /** The key-by-key comparison over both key lists is exactly inequality of the two maps. */
  lemma ImportantDiffersIff(a: map<string, string>, b: map<string, string>)
    ensures ImportantDiffers(a, b) <==> a != b
  {
    if !ImportantDiffers(a, b) {
      forall k ensures Lookup(a, k) == Lookup(b, k) {
        if k in a.Keys + b.Keys {
          assert Lookup(a, k) == Lookup(b, k);
        }
      }
      assert forall k :: k in a <==> k in b by {
        forall k ensures k in a <==> k in b {
          assert Lookup(a, k).Some? == Lookup(b, k).Some?;
        }
      }
      assert forall k :: k in a ==> a[k] == b[k] by {
        forall k | k in a ensures a[k] == b[k] {
          assert Lookup(a, k) == Lookup(b, k);
        }
      }
      assert a == b;
    }
  }

  /** One of the five channel fields differs. */
  predicate ChannelDiffers(x: Interaction, last: Interaction) {
    x.source != last.source || x.medium != last.medium || x.campaign != last.campaign
    || x.content != last.content || x.term != last.term
  }

  /**
   * `hasAttributionChanged`, the first rule that applies deciding: no logged entry or no cursor
   * (a 0 cursor is falsy); the session timed out (strictly later than the timeout); a direct
   * visit does not change; an important parameter differs; a channel field differs.
   */
  function Changed(x: Interaction, last: Option<Interaction>, cursor: Option<int>, now: int, timeout: int): (r: bool)
    ensures last.None? || cursor.None? || cursor == Some(0) ==> r
    ensures last.Some? && cursor.Some? && cursor.value != 0 ==>
              var at := if x.timestamp.Some? then x.timestamp.value else now;
              (at - cursor.value > timeout ==> r)
              && (at - cursor.value <= timeout && IsDirect(x) ==> !r)
              && (at - cursor.value <= timeout && !IsDirect(x) ==>
                    (r <==> x.importantParameters != last.value.importantParameters || ChannelDiffers(x, last.value)))
  {
    if last.None? || cursor.None? || cursor.value == 0 then true
    else
      var at := if x.timestamp.Some? then x.timestamp.value else now;
      if at - cursor.value > timeout then true
      else if IsDirect(x) then false
      else
        ImportantDiffersIff(x.importantParameters, last.value.importantParameters);
        if ImportantDiffers(x.importantParameters, last.value.importantParameters) then true
        else ChannelDiffers(x, last.value)
  }

  /** A change in `parameters` alone never changes attribution. */
  lemma ParametersNeverChange(x: Interaction, p: map<string, string>, last: Option<Interaction>, cursor: Option<int>, now: int, timeout: int)
    ensures Changed(x.(parameters := p), last, cursor, now, timeout) == Changed(x, last, cursor, now, timeout)
  {
  }

  /** Within a session, a visit with the same channel and important parameters as the last entry changes nothing. */
  lemma SameChannelWithinSession(x: Interaction, last: Interaction, cursor: int, now: int, timeout: int)
    requires cursor != 0 && x.timestamp == Some(now) && now - cursor <= timeout
    requires x.importantParameters == last.importantParameters && !ChannelDiffers(x, last)
    ensures !Changed(x, Some(last), Some(cursor), now, timeout)
  {
  }

  // ---------------------------------------------------------------- logInteraction

  /** `s.slice(start)` for a whole-number start: a negative start counts from the end. */
  function JsSliceFrom<T>(s: seq<T>, start: int): (r: seq<T>)
    ensures start >= 0 ==> r == s[if start <= |s| then start else |s|..]
    ensures start < 0 ==> r == s[if |s| + start >= 0 then |s| + start else 0..]
  {
    if start < 0 then (if |s| + start >= 0 then s[|s| + start..] else s)
    else if start <= |s| then s[start..] else []
  }

  /** The log after `push(x)` and, when it is over the limit, `slice(-limit)`. */
  function AppendCapped(log: seq<Interaction>, x: Interaction, limit: int): (r: seq<Interaction>)
    ensures |r| <= |log| + 1 && r == (log + [x])[|log| + 1 - |r|..]
    ensures limit >= 1 ==> |r| == (if |log| + 1 <= limit then |log| + 1 else limit)
  {
    var pushed := log + [x];
    if |pushed| > limit then JsSliceFrom(pushed, -limit) else pushed
  }

  /**
   * With a limit of at least 1 the log keeps its last `min(|log| + 1, limit)` entries in order,
   * ending with the new one, even when it was already over the limit.
   */
  lemma AppendCappedKeepsNewest(log: seq<Interaction>, x: Interaction, limit: int)
    requires limit >= 1
    ensures var r := AppendCapped(log, x, limit);
            |r| == (if |log| + 1 <= limit then |log| + 1 else limit)
            && r == (log + [x])[|log| + 1 - |r|..]
            && r[|r| - 1] == x
  {
  }

  /** `slice(-0)` is `slice(0)`: a limit of 0 keeps the whole log. */
  lemma AppendCappedZeroKeepsAll(log: seq<Interaction>, x: Interaction)
    ensures AppendCapped(log, x, 0) == log + [x]
  {
  }

  /** A negative limit drops that many of the OLDEST entries instead. */
  lemma AppendCappedNegative(log: seq<Interaction>, x: Interaction, limit: int)
    requires limit < 0
    ensures AppendCapped(log, x, limit) == if -limit <= |log| + 1 then (log + [x])[-limit..] else []
  {
  }

  // ---------------------------------------------------------------- the logger

  /** A callback call: which subscriber, with which interaction, while the log still read `logSeen`. */
  datatype Notification = Notification(callback: nat, interaction: Interaction, logSeen: seq<Interaction>)

  /** The calls of `attributionChangeCallbacks.forEach(callback => callback(y))`, in order. */
  function Notify(callbacks: seq<nat>, y: Interaction, logSeen: seq<Interaction>): (r: seq<Notification>)
    ensures |r| == |callbacks|
    ensures forall i :: 0 <= i < |r| ==> r[i] == Notification(callbacks[i], y, logSeen)
  {
    seq(|callbacks|, i requires 0 <= i < |callbacks| => Notification(callbacks[i], y, logSeen))
  }

  /**
   * The storage after `processInteraction`: the cursor always holds the interaction's timestamp;
   * the log key holds the appended log only on a change.
   */
  function StoreAfter(store: map<string, Option<Item>>, t: int, changed: bool, y: Interaction, now: int, limit: int): (r: map<string, Option<Item>>)
    ensures CursorKey in r && r[CursorKey] == Some(Text(IntToString(t)))
    ensures changed ==> LogKey in r && r[LogKey] == Appended(store, y, now, limit)
  {
    var withCursor := store[CursorKey := Some(Text(IntToString(t)))];
    assert CursorKey != LogKey by { assert CursorKey[3] != LogKey[3]; }
    if changed then withCursor[LogKey := Appended(store, y, now, limit)] else withCursor
  }

  /** Only the cursor and, on a change, the log key are written. */
  lemma StoreAfterKeys(store: map<string, Option<Item>>, t: int, changed: bool, y: Interaction, now: int, limit: int)
    ensures StoreAfter(store, t, changed, y, now, limit).Keys == store.Keys + {CursorKey} + (if changed then {LogKey} else {})
  {
    var withCursor := store[CursorKey := Some(Text(IntToString(t)))];
    assert withCursor.Keys == store.Keys + {CursorKey};
  }

  /** Every key other than the cursor and the log keeps its value. */
  lemma StoreAfterOthers(store: map<string, Option<Item>>, t: int, changed: bool, y: Interaction, now: int, limit: int, k: string)
    requires k in store && k != CursorKey && k != LogKey
    ensures var r := StoreAfter(store, t, changed, y, now, limit); k in r && r[k] == store[k]
  {
  }

  /** Without a change, the log slot keeps its value. */
  lemma StoreAfterKeepsLog(store: map<string, Option<Item>>, t: int, y: Interaction, now: int, limit: int)
    requires LogKey in store
    ensures var r := StoreAfter(store, t, false, y, now, limit); LogKey in r && r[LogKey] == store[LogKey]
  {
    assert CursorKey != LogKey by { assert CursorKey[3] != LogKey[3]; }
  }

  /** The log item `processInteraction` writes: the stored log with the stamped interaction appended, capped. */
  function Appended(store: map<string, Option<Item>>, y: Interaction, now: int, limit: int): Option<Item> {
    Some(Json(AppendCapped(StoredEntries(store), Stamped(y, now), limit)))
  }

  /** The log `interactionLog` reads from a store. */
  function StoredEntries(store: map<string, Option<Item>>): (r: seq<Interaction>)
    ensures LogKey in store && store[LogKey].Some? && store[LogKey].value.Json? ==> r == store[LogKey].value.entries
    ensures LogKey !in store ==> r == []
  {
    Entries(DecodeLog(if LogKey in store then store[LogKey] else None))
  }

  /** After a change with a limit of at least 1, the newest entry of the stored log is the stamped interaction. */
  lemma StoreAfterNewest(store: map<string, Option<Item>>, t: int, y: Interaction, now: int, limit: int)
    requires limit >= 1
    ensures var r := StoreAfter(store, t, true, y, now, limit);
            DecodeLog(r[LogKey]).Log? && |DecodeLog(r[LogKey]).entries| > 0
            && DecodeLog(r[LogKey]).entries[|DecodeLog(r[LogKey]).entries| - 1] == Stamped(y, now)
  {
    var old_log := StoredEntries(store);
    var appended := AppendCapped(old_log, Stamped(y, now), limit);
    assert appended[|appended| - 1] == (old_log + [Stamped(y, now)])[|old_log|];
  }

  /** Without a change, only the cursor differs afterwards: the log slot is untouched. */
  lemma UnchangedKeepsLog(store: map<string, Option<Item>>, t: int, y: Interaction, now: int, limit: int)
    ensures var s := StoreAfter(store, t, false, y, now, limit);
            (LogKey in s <==> LogKey in store) && (LogKey in store ==> s[LogKey] == store[LogKey])
            && CursorValue(s[CursorKey]) == (if t == 0 then None else Some(t))
  {
    CursorRoundTrip(t);
  }

  class InteractionLogger {
    const storage: MemoryStorage<Item>
    var sessionTimeout: int
    var logLimit: int
    var middlewares: seq<Middleware>
    /** The registered callbacks, by identity: their bodies are not part of the model. */
    var callbacks: seq<nat>
    /** Every callback call made so far, in order. */
    ghost var notifications: seq<Notification>

    /** The settings given override the defaults (30 minutes, 100 entries). */
    constructor (storage: MemoryStorage<Item>, sessionTimeout: Option<int>, logLimit: Option<int>)
      ensures this.storage == storage
      ensures this.sessionTimeout == (if sessionTimeout.Some? then sessionTimeout.value else DefaultSessionTimeout)
      ensures this.logLimit == (if logLimit.Some? then logLimit.value else DefaultLogLimit)
      ensures middlewares == [] && callbacks == [] && notifications == []
    {
      this.storage := storage;
      this.sessionTimeout := if sessionTimeout.Some? then sessionTimeout.value else DefaultSessionTimeout;
      this.logLimit := if logLimit.Some? then logLimit.value else DefaultLogLimit;
      middlewares := [];
      callbacks := [];
      notifications := [];
    }

    /** `interactionLog`: the stored log, `[]` when it is missing, null or malformed. */
    function InteractionLog(): (r: seq<Interaction>)
      reads storage
      ensures storage.GetItem(LogKey).Some? && storage.GetItem(LogKey).value.Json? ==> r == storage.GetItem(LogKey).value.entries
      ensures !(storage.GetItem(LogKey).Some? && storage.GetItem(LogKey).value.Json?) ==> r == []
    {
      Entries(DecodeLog(storage.GetItem(LogKey)))
    }

    /** `lastInteraction`: the newest log entry, or null for an empty log. */
    function LastInteraction(): (r: Option<Interaction>)
      reads storage
      ensures r.None? <==> InteractionLog() == []
      ensures r.Some? ==> r.value == InteractionLog()[|InteractionLog()| - 1]
    {
      var log := InteractionLog();
      if log == [] then None else Some(log[|log| - 1])
    }

    /** `lastInteractionTimestamp`: the cursor, or null. */
    function LastInteractionTimestamp(): (r: Option<int>)
      reads storage
      ensures r.Some? ==> r.value != 0
      ensures !storage.HasItem(CursorKey) ==> r.None?
    {
      CursorValue(storage.GetItem(CursorKey))
    }

    /** `hasAttributionChanged` against the newest log entry and the given cursor. */
    function HasAttributionChanged(x: Interaction, cursor: Option<int>, now: int): (r: bool)
      reads this, storage
      ensures InteractionLog() == [] ==> r
      ensures r == Changed(x, LastInteraction(), cursor, now, sessionTimeout)
    {
      Changed(x, LastInteraction(), cursor, now, sessionTimeout)
    }

    /** `registerInteractionMiddleware`: appended, so middlewares run in registration order. */
    method RegisterInteractionMiddleware(m: Middleware)
      modifies this
      ensures middlewares == old(middlewares) + [m]
      ensures callbacks == old(callbacks) && notifications == old(notifications)
      ensures sessionTimeout == old(sessionTimeout) && logLimit == old(logLimit)
    {
      middlewares := middlewares + [m];
    }

    /** `onAttributionChange`: appended, so callbacks are called in registration order. */
    method OnAttributionChange(callback: nat)
      modifies this
      ensures callbacks == old(callbacks) + [callback]
      ensures middlewares == old(middlewares) && notifications == old(notifications)
      ensures sessionTimeout == old(sessionTimeout) && logLimit == old(logLimit)
    {
      callbacks := callbacks + [callback];
    }

    /** `clearLog`: a null under the log key, so the log reads `[]`; the cursor stays. */
    method ClearLog()
      modifies storage
      ensures storage.store == old(storage.store)[LogKey := None]
      ensures InteractionLog() == [] && LastInteraction().None?
      ensures LastInteractionTimestamp() == old(LastInteractionTimestamp())
    {
      storage.SetItem(LogKey, None);
    }

    /** `logLastInteractionTimestamp`: the cursor becomes `String(t)`; nothing else changes. */
    method LogLastInteractionTimestamp(t: int)
      modifies storage
      ensures storage.store == old(storage.store)[CursorKey := Some(Text(IntToString(t)))]
      ensures LastInteractionTimestamp() == if t == 0 then None else Some(t)
      ensures InteractionLog() == old(InteractionLog())
    {
      storage.SetItem(CursorKey, Some(Text(IntToString(t))));
      CursorRoundTrip(t);
    }

    /** `logInteraction`: the stamped interaction appended to the log, capped by `logLimit`. */
    method LogInteraction(x: Interaction, now: int)
      modifies storage
      ensures storage.store == old(storage.store)[LogKey := Some(Json(AppendCapped(old(InteractionLog()), Stamped(x, now), logLimit)))]
      ensures InteractionLog() == AppendCapped(old(InteractionLog()), Stamped(x, now), logLimit)
      ensures LastInteractionTimestamp() == old(LastInteractionTimestamp())
    {
      var y := if x.timestamp.None? then x.(timestamp := Some(now)) else x;
      var log := InteractionLog();
      log := log + [y];
      if |log| > logLimit {
        log := JsSliceFrom(log, -logLimit);
      }
      storage.SetItem(LogKey, Some(Json(log)));
    }

    /** `determineInteraction`: the query pairs collected in order, then the channel decided. */
    method DetermineInteraction(url: Url, referrer: Option<Url>, now: int) returns (x: Interaction)
      ensures x == Determine(url, referrer, now)
    {
      x := Blank.(timestamp := Some(now));
      var i := 0;
      while i < |url.query|
        invariant 0 <= i <= |url.query|
        invariant x == Collect(url.query[..i], now)
      {
        assert url.query[..i + 1][..i] == url.query[..i];
        x := AddPair(x, url.query[i]);
        i := i + 1;
      }
      assert url.query[..i] == url.query;
      if IsComplete(x) {
        return;
      }
      if referrer.None? || url.hostname == referrer.value.hostname {
        x := x.(direct := Some(true));
        return;
      }
      x := Referral(referrer.value);
    }

    /**
     * `processInteraction`: stamp the interaction, read the cursor and overwrite it with the
     * timestamp, run the middlewares; on a change, call every callback (the log they see is still
     * the old one) and then append.
     */
    method ProcessInteraction(x: Interaction, url: Option<Url>, referrer: Option<Url>, now: int)
      modifies this, storage
      ensures var x1 := Stamped(x, now);
              var y := RunMiddlewares(old(middlewares), x1, url, referrer);
              var changed := Changed(y, old(LastInteraction()), old(LastInteractionTimestamp()), now, sessionTimeout);
              storage.store == StoreAfter(old(storage.store), x1.timestamp.value, changed, y, now, logLimit)
              && notifications == old(notifications) + (if changed then Notify(callbacks, y, old(InteractionLog())) else [])
      ensures middlewares == old(middlewares) && callbacks == old(callbacks)
      ensures sessionTimeout == old(sessionTimeout) && logLimit == old(logLimit)
    {
      var x1 := if x.timestamp.None? then x.(timestamp := Some(now)) else x;
      var cursor := LastInteractionTimestamp();
      ghost var log0 := InteractionLog();
      ghost var last0 := LastInteraction();
      ghost var store0 := storage.store;
      LogLastInteractionTimestamp(x1.timestamp.value);
      assert InteractionLog() == log0 && LastInteraction() == last0;

      var y := RunAll(x1, url, referrer);

      if HasAttributionChanged(y, cursor, now) {
        NotifyAll(y);
        LogInteraction(y, now);
      }
    }

    /** The middleware loop: each registered middleware, in order, transforms the previous result. */
    method RunAll(x: Interaction, url: Option<Url>, referrer: Option<Url>) returns (y: Interaction)
      ensures y == RunMiddlewares(middlewares, x, url, referrer)
    {
      y := x;
      var i := 0;
      while i < |middlewares|
        invariant 0 <= i <= |middlewares|
        invariant y == RunMiddlewares(middlewares[..i], x, url, referrer)
      {
        assert middlewares[..i + 1][..i] == middlewares[..i];
        y := middlewares[i](y, url, referrer);
        i := i + 1;
      }
      assert middlewares[..i] == middlewares;
    }

    /** The `forEach` over the callbacks: every one is called with `y`, in registration order. */
    method NotifyAll(y: Interaction)
      modifies this
      ensures notifications == old(notifications) + Notify(callbacks, y, InteractionLog())
      ensures middlewares == old(middlewares) && callbacks == old(callbacks)
      ensures sessionTimeout == old(sessionTimeout) && logLimit == old(logLimit)
    {
      var j := 0;
      while j < |callbacks|
        invariant 0 <= j <= |callbacks|
        invariant notifications == old(notifications) + Notify(callbacks[..j], y, InteractionLog())
        invariant middlewares == old(middlewares) && callbacks == old(callbacks)
        invariant sessionTimeout == old(sessionTimeout) && logLimit == old(logLimit)
      {
        notifications := notifications + [Notification(callbacks[j], y, InteractionLog())];
        j := j + 1;
      }
      assert callbacks[..j] == callbacks;
    }

    /** `pageview` with the page URL and its referrer given: determine, then process. */
    method Pageview(url: Url, referrer: Option<Url>, now: int)
      modifies this, storage
      ensures var x1 := Stamped(Determine(url, referrer, now), now);
              var y := RunMiddlewares(old(middlewares), x1, Some(url), referrer);
              var changed := Changed(y, old(LastInteraction()), old(LastInteractionTimestamp()), now, sessionTimeout);
              storage.store == StoreAfter(old(storage.store), x1.timestamp.value, changed, y, now, logLimit)
              && notifications == old(notifications) + (if changed then Notify(callbacks, y, old(InteractionLog())) else [])
      ensures middlewares == old(middlewares) && callbacks == old(callbacks)
      ensures sessionTimeout == old(sessionTimeout) && logLimit == old(logLimit)
    {
      var x := DetermineInteraction(url, referrer, now);
      ProcessInteraction(x, Some(url), referrer, now);
    }
  }
}
