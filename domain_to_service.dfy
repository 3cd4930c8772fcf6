/**
 * The wildcard domain resolver (src/domainToService.ts). Each service pattern is compiled to a
 * small regular language and matched, anchored at both ends and ignoring ASCII letter case,
 * against the looked-up domain; the first service in table order with a matching pattern wins.
 */
module DomainToService {
  import opened Options

  /** The service table: service names with their domain patterns, in declaration order. */
  type ServiceDatabase = seq<(string, seq<string>)>

  /**
   * The compiled pattern language.
   * Lit(c)    a literal character (a `.` included), compared without regard to ASCII case;
   * Label     `[\w\d-]+`, what a `*` becomes;
   * OptSub    `([\w\d-]+.)?`, what `*.` becomes: the dot it emits is not escaped;
   * OptSubDot `([\w\d-]+\.)?`, the escaped form the comments describe (see CompileIntended).
   */
  datatype Token = Lit(c: char) | Label | OptSub | OptSubDot

  /** `[\w\d-]`: ASCII letters, digits, `_` and `-`. */
  predicate IsLabelChar(c: char) {
    ('a' <= c <= 'z') || ('A' <= c <= 'Z') || ('0' <= c <= '9') || c == '_' || c == '-'
  }

  predicate AllLabelChars(s: string) {
    forall i :: 0 <= i < |s| ==> IsLabelChar(s[i])
  }

  /** The characters a regular-expression `.` does not match. */
  predicate IsLineTerminator(c: char) {
    c == '\n' || c == '\r' || c == '\U{2028}' || c == '\U{2029}'
  }

  function LowerChar(c: char): char {
    if 'A' <= c <= 'Z' then (c as int + 32) as char else c
  }

  /** `toLowerCase`, on the ASCII letters. */
  function LowerAscii(s: string): (r: string)
    ensures |r| == |s| && forall i :: 0 <= i < |s| ==> r[i] == LowerChar(s[i])
  {
    seq(|s|, i requires 0 <= i < |s| => LowerChar(s[i]))
  }

  /** Character equality under the regular expression's `i` flag. */
  predicate SameCharI(a: char, b: char) {
    LowerChar(a) == LowerChar(b)
  }

  /** The characters a pattern may use: none of them is a regular-expression operator except `.` and `*`. */
  predicate IsPatternChar(c: char) {
    IsLabelChar(c) || c == '.' || c == '*'
  }

  predicate ValidPattern(p: string) {
    forall k :: 0 <= k < |p| ==> IsPatternChar(p[k])
  }

  predicate ValidPatterns(ps: seq<string>) {
    forall j :: 0 <= j < |ps| ==> ValidPattern(ps[j])
  }

  predicate ValidDatabase(services: ServiceDatabase) {
    forall i :: 0 <= i < |services| ==> ValidPatterns(services[i].1)
  }

  /** `domain.replace(/^www\./i, '')`. */
  function StripWwwAnyCase(d: string): (r: string)
    ensures |d| >= 4 && SameCharI(d[0], 'w') && SameCharI(d[1], 'w') && SameCharI(d[2], 'w') && d[3] == '.'
            ==> r == d[4..]
    ensures !(|d| >= 4 && SameCharI(d[0], 'w') && SameCharI(d[1], 'w') && SameCharI(d[2], 'w') && d[3] == '.')
            ==> r == d
  {
    if |d| >= 4 && SameCharI(d[0], 'w') && SameCharI(d[1], 'w') && SameCharI(d[2], 'w') && d[3] == '.'
    then d[4..] else d
  }

  /** `serviceDomain.replace(/^www\./, '')`: only a lower-case prefix is stripped. */
  function StripWww(p: string): (r: string)
    ensures |p| >= 4 && p[..4] == "www." ==> r == p[4..]
    ensures !(|p| >= 4 && p[..4] == "www.") ==> r == p
  {
    if |p| >= 4 && p[..4] == "www." then p[4..] else p
  }

  /**
   * The escaping and the two wildcard replacements of src/domainToService.ts:17-23, as written:
   * a `*` directly followed by `.` becomes OptSub, any other `*` becomes Label, every other
   * character stands for itself.
   */
  function Compile(p: string): (ts: seq<Token>)
    ensures |ts| <= |p|
    ensures OptSubDot !in ts
    ensures StarFree(p) ==> |ts| == |p| && forall i :: 0 <= i < |p| ==> ts[i] == Lit(p[i])
  {
    if |p| == 0 then []
    else if p[0] == '*' then
      if |p| > 1 && p[1] == '.' then [OptSub] + Compile(p[2..]) else [Label] + Compile(p[1..])
    else
      var rest := Compile(p[1..]);
      assert StarFree(p) ==> StarFree(p[1..]) by {
        assert forall k :: 0 <= k < |p[1..]| ==> p[1..][k] == p[k + 1];
      }
      [Lit(p[0])] + rest
  }

  /** The number of characters a match consumes at least: one per literal and per `*` label. */
  function Required(ts: seq<Token>): nat {
    if ts == [] then 0
    else (if ts[0].Lit? || ts[0].Label? then 1 else 0) + Required(ts[1..])
  }

  /** Matching of a compiled pattern against the whole of `s`. */
  function Matches(ts: seq<Token>, s: string): (b: bool)
    ensures b ==> |s| >= Required(ts)
    decreases |s|, |ts|
  {
    if |ts| == 0 then |s| == 0
    else match ts[0]
      case Lit(c) => |s| > 0 && SameCharI(c, s[0]) && Matches(ts[1..], s[1..])
      case Label => |s| > 0 && IsLabelChar(s[0]) && (Matches(ts[1..], s[1..]) || Matches(ts, s[1..]))
      case OptSub => Matches(ts[1..], s) || (|s| > 0 && IsLabelChar(s[0]) && SubdomainThen(ts[1..], s[1..], false))
      case OptSubDot => Matches(ts[1..], s) || (|s| > 0 && IsLabelChar(s[0]) && SubdomainThen(ts[1..], s[1..], true))
  }

  /** The character that closes an optional subdomain: any but a line terminator, or only `.`. */
  predicate IsSeparator(c: char, dotOnly: bool) {
    if dotOnly then c == '.' else !IsLineTerminator(c)
  }

  /**
   * Inside an optional subdomain, after its first label character: more label characters,
   * then the separator, then `rest` matching what is left.
   */
  function SubdomainThen(rest: seq<Token>, s: string, dotOnly: bool): (b: bool)
    ensures b ==> |s| >= Required(rest) + 1
    decreases |s|, |rest|
  {
    |s| > 0 &&
    ((IsLabelChar(s[0]) && SubdomainThen(rest, s[1..], dotOnly)) ||
     (IsSeparator(s[0], dotOnly) && Matches(rest, s[1..])))
  }

  /** `new RegExp('^' + pattern + '$', 'i').test(domain)` for one service domain. */
  predicate PatternMatches(pattern: string, domain: string) {
    Matches(Compile(StripWww(pattern)), domain)
  }

  /** Whether any of the service's patterns matches: the inner loop of src/domainToService.ts:12-28. */
  function AnyPatternMatches(patterns: seq<string>, domain: string): (b: bool)
    ensures b <==> exists j :: 0 <= j < |patterns| && PatternMatches(patterns[j], domain)
  {
    if |patterns| == 0 then false
    else PatternMatches(patterns[0], domain) || AnyPatternMatches(patterns[1..], domain)
  }

  /** The first service, in table order, with a pattern that matches `domain`. */
  function FirstMatch(domain: string, services: ServiceDatabase): (r: Option<string>)
    ensures r.None? <==> forall i :: 0 <= i < |services| ==> !AnyPatternMatches(services[i].1, domain)
    ensures r.Some? ==> exists i :: 0 <= i < |services| && services[i].0 == r.value
                          && AnyPatternMatches(services[i].1, domain)
                          && forall j :: 0 <= j < i ==> !AnyPatternMatches(services[j].1, domain)
  {
    if |services| == 0 then None
    else if AnyPatternMatches(services[0].1, domain) then Some(services[0].0)
    else
      var r := FirstMatch(domain, services[1..]);
      assert forall i :: 1 <= i < |services| ==> services[i] == services[1..][i - 1];
      r
  }

  /** `domainToService(domain, services)`. */
  function DomainToService(domain: string, services: ServiceDatabase): (r: Option<string>)
    requires ValidDatabase(services)
    ensures r == FirstMatch(StripWwwAnyCase(domain), services)
    ensures r.None? <==> forall i :: 0 <= i < |services| ==> !AnyPatternMatches(services[i].1, StripWwwAnyCase(domain))
    ensures r.Some? ==> exists i :: 0 <= i < |services| && services[i].0 == r.value
                          && AnyPatternMatches(services[i].1, StripWwwAnyCase(domain))
                          && forall j :: 0 <= j < i ==> !AnyPatternMatches(services[j].1, StripWwwAnyCase(domain))
  {
    FirstMatch(StripWwwAnyCase(domain), services)
  }

  /**
   * The replacement src/domainToService.ts:20-21 describes ("an optional subdomain"): the same
   * compilation with the subdomain's closing dot escaped, so that it matches only a dot.
   */
  function CompileIntended(p: string): (ts: seq<Token>)
    ensures |ts| <= |p|
  {
    if |p| == 0 then []
    else if p[0] == '*' then
      if |p| > 1 && p[1] == '.' then [OptSubDot] + CompileIntended(p[2..]) else [Label] + CompileIntended(p[1..])
    else [Lit(p[0])] + CompileIntended(p[1..])
  }

  predicate PatternMatchesIntended(pattern: string, domain: string) {
    Matches(CompileIntended(StripWww(pattern)), domain)
  }

  /** Every prefix of a label run is a label run. */
  lemma AllLabelCharsCons(s: string, k: nat)
    requires 1 <= k <= |s|
    ensures AllLabelChars(s[..k]) <==> IsLabelChar(s[0]) && AllLabelChars(s[1..][..k - 1])
  {
    assert forall i :: 1 <= i < k ==> s[..k][i] == s[1..][..k - 1][i - 1];
    assert s[..k][0] == s[0];
  }

  /** A `*` not followed by `.` matches one or more label characters (never a dot), then the rest. */
  lemma {:induction false} LabelMeaning(rest: seq<Token>, s: string)
    ensures Matches([Label] + rest, s) <==>
            exists k :: 1 <= k <= |s| && AllLabelChars(s[..k]) && Matches(rest, s[k..])
    decreases |s|
  {
    var ts := [Label] + rest;
    assert ts[1..] == rest;
    if |s| == 0 {
    } else if !IsLabelChar(s[0]) {
      forall k | 1 <= k <= |s| ensures !AllLabelChars(s[..k]) { assert s[..k][0] == s[0]; }
    } else {
      LabelMeaning(rest, s[1..]);
      assert Matches(ts, s) <==> Matches(rest, s[1..]) || Matches(ts, s[1..]);
      if Matches(ts, s) {
        if Matches(rest, s[1..]) {
          AllLabelCharsCons(s, 1);
          assert 1 <= 1 <= |s| && AllLabelChars(s[..1]) && Matches(rest, s[1..]);
        } else {
          var k' :| 1 <= k' <= |s[1..]| && AllLabelChars(s[1..][..k']) && Matches(rest, s[1..][k'..]);
          AllLabelCharsCons(s, k' + 1);
          assert s[1..][k'..] == s[k' + 1..];
        }
      }
      if exists k :: 1 <= k <= |s| && AllLabelChars(s[..k]) && Matches(rest, s[k..]) {
        var k :| 1 <= k <= |s| && AllLabelChars(s[..k]) && Matches(rest, s[k..]);
        AllLabelCharsCons(s, k);
        if k > 1 {
          assert s[1..][k - 1..] == s[k..];
        }
      }
    }
  }

  /** The tail of an optional subdomain: label characters, the separator, then the rest. */
  lemma {:induction false} SubdomainThenMeaning(rest: seq<Token>, s: string, dotOnly: bool)
    ensures SubdomainThen(rest, s, dotOnly) <==>
            exists k :: 0 <= k < |s| && SubdomainSplit(rest, s, dotOnly, k)
    decreases |s|
  {
    if |s| > 0 {
      var t := s[1..];
      SubdomainThenMeaning(rest, t, dotOnly);
      assert SubdomainThen(rest, s, dotOnly) ==
        ((IsLabelChar(s[0]) && SubdomainThen(rest, t, dotOnly)) || (IsSeparator(s[0], dotOnly) && Matches(rest, t)));
      if IsSeparator(s[0], dotOnly) && Matches(rest, t) {
        assert SubdomainSplit(rest, s, dotOnly, 0);
      }
      if IsLabelChar(s[0]) && SubdomainThen(rest, t, dotOnly) {
        var k' :| 0 <= k' < |t| && SubdomainSplit(rest, t, dotOnly, k');
        SplitCons(rest, s, dotOnly, k' + 1);
      }
      if exists k :: 0 <= k < |s| && SubdomainSplit(rest, s, dotOnly, k) {
        var k :| 0 <= k < |s| && SubdomainSplit(rest, s, dotOnly, k);
        if k > 0 {
          SplitCons(rest, s, dotOnly, k);
        }
      }
    }
  }

  /** Splitting `s` after `k` label characters and one separator, with `rest` matching the remainder. */
  predicate SubdomainSplit(rest: seq<Token>, s: string, dotOnly: bool, k: int) {
    0 <= k < |s| && AllLabelChars(s[..k]) && IsSeparator(s[k], dotOnly) && Matches(rest, s[k + 1..])
  }

  lemma SplitCons(rest: seq<Token>, s: string, dotOnly: bool, k: int)
    requires 1 <= k < |s|
    ensures SubdomainSplit(rest, s, dotOnly, k) <==> IsLabelChar(s[0]) && SubdomainSplit(rest, s[1..], dotOnly, k - 1)
  {
    AllLabelCharsCons(s, k);
    assert s[1..][k - 1] == s[k];
    assert s[1..][k - 1 + 1..] == s[k + 1..];
  }

  /**
   * `*.` matches nothing, or one or more label characters followed by one separator: ANY
   * character but a line terminator as written (OptSub), only a dot as intended (OptSubDot).
   */
  lemma OptionalSubdomainMeaning(tok: Token, rest: seq<Token>, s: string)
    requires tok == OptSub || tok == OptSubDot
    ensures Matches([tok] + rest, s) <==>
            Matches(rest, s) || exists k :: 1 <= k < |s| && SubdomainSplit(rest, s, tok.OptSubDot?, k)
  {
    var dotOnly := tok.OptSubDot?;
    var ts := [tok] + rest;
    assert ts[0] == tok && ts[1..] == rest;
    if |s| > 0 {
      var t := s[1..];
      SubdomainThenMeaning(rest, t, dotOnly);
      assert Matches(ts, s) == (Matches(rest, s) || (IsLabelChar(s[0]) && SubdomainThen(rest, t, dotOnly)));
      if IsLabelChar(s[0]) && SubdomainThen(rest, t, dotOnly) {
        var k' :| 0 <= k' < |t| && SubdomainSplit(rest, t, dotOnly, k');
        SplitCons(rest, s, dotOnly, k' + 1);
      }
      if exists k :: 1 <= k < |s| && SubdomainSplit(rest, s, dotOnly, k) {
        var k :| 1 <= k < |s| && SubdomainSplit(rest, s, dotOnly, k);
        SplitCons(rest, s, dotOnly, k);
      }
    }
  }

  /** No `*` occurs in `p`. */
  predicate StarFree(p: string) {
    forall k :: 0 <= k < |p| ==> p[k] != '*'
  }

  /** `a` and `b` have the same length and agree up to ASCII letter case. */
  predicate SameTextI(a: string, b: string) {
    |a| == |b| && forall i :: 0 <= i < |a| ==> SameCharI(a[i], b[i])
  }

  /** A `*`-free prefix compiles character by character. */
  lemma {:induction false} CompileLiteralPrefix(p: string, q: string)
    requires StarFree(p)
    ensures Compile(p + q) == Compile(p) + Compile(q)
    decreases |p|
  {
    if |p| > 0 {
      var pq := p + q;
      assert pq[0] == p[0] != '*' && pq[1..] == p[1..] + q;
      assert Compile(pq) == [Lit(p[0])] + Compile(p[1..] + q);
      CompileLiteralPrefix(p[1..], q);
    } else {
      assert p + q == q;
    }
  }

  /** On a `*`-free pattern, the as-written and the intended compilation agree. */
  lemma {:induction false} CompileIntendedStarFree(p: string)
    requires StarFree(p)
    ensures CompileIntended(p) == Compile(p)
    decreases |p|
  {
    if |p| > 0 {
      assert p[0] != '*';
      CompileIntendedStarFree(p[1..]);
    }
  }

  /** Case-insensitive agreement of two texts splits at the first character. */
  lemma SameTextICons(a: string, b: string)
    requires |a| == |b| > 0
    ensures SameTextI(a, b) <==> SameCharI(a[0], b[0]) && SameTextI(a[1..], b[1..])
  {
    assert forall i :: 0 <= i < |a| - 1 ==> a[1..][i] == a[i + 1] && b[1..][i] == b[i + 1];
  }

  /** A literal token consumes one character that agrees with it up to letter case. */
  lemma LitStep(c: char, ts: seq<Token>, s: string)
    ensures Matches([Lit(c)] + ts, s) <==> |s| > 0 && SameCharI(c, s[0]) && Matches(ts, s[1..])
  {
    assert ([Lit(c)] + ts)[1..] == ts;
  }

  /**
   * A `*`-free pattern prefix matches exactly a prefix of the subject of its own length that
   * agrees with it up to letter case: in particular a `.` in it matches only a dot.
   */
  lemma {:induction false} LiteralMeaning(p: string, rest: seq<Token>, s: string)
    requires StarFree(p)
    ensures Matches(Compile(p) + rest, s) <==> |s| >= |p| && SameTextI(p, s[..|p|]) && Matches(rest, s[|p|..])
    decreases |p|
  {
    if |p| == 0 {
      assert Compile(p) + rest == rest;
    } else {
      var tail := Compile(p[1..]) + rest;
      assert Compile(p) + rest == [Lit(p[0])] + tail by {
        assert Compile(p) == [Lit(p[0])] + Compile(p[1..]);
      }
      LitStep(p[0], tail, s);
      if |s| > 0 {
        LiteralMeaning(p[1..], rest, s[1..]);
        if |s| >= |p| {
          var h := s[..|p|];
          assert s[1..][..|p| - 1] == h[1..];
          assert s[1..][|p| - 1..] == s[|p|..];
          SameTextICons(p, h);
        }
      }
    }
  }

  lemma LowerCharFacts(c: char)
    ensures IsLabelChar(LowerChar(c)) == IsLabelChar(c)
    ensures LowerChar(LowerChar(c)) == LowerChar(c)
    ensures forall dotOnly :: IsSeparator(LowerChar(c), dotOnly) == IsSeparator(c, dotOnly)
  {
  }

  /** Lower-casing the subject never changes whether a compiled pattern matches it (the `i` flag). */
  lemma {:induction false} MatchesIgnoresCase(ts: seq<Token>, s: string)
    ensures Matches(ts, LowerAscii(s)) == Matches(ts, s)
    decreases |s|, |ts|
  {
    var l := LowerAscii(s);
    if |ts| > 0 && |s| > 0 {
      assert l[1..] == LowerAscii(s[1..]);
      LowerCharFacts(s[0]);
      match ts[0]
      case Lit(c) =>
        MatchesIgnoresCase(ts[1..], s[1..]);
      case Label =>
        MatchesIgnoresCase(ts[1..], s[1..]);
        MatchesIgnoresCase(ts, s[1..]);
      case OptSub =>
        MatchesIgnoresCase(ts[1..], s);
        SubdomainThenIgnoresCase(ts[1..], s[1..], false);
      case OptSubDot =>
        MatchesIgnoresCase(ts[1..], s);
        SubdomainThenIgnoresCase(ts[1..], s[1..], true);
    }
  }

  lemma {:induction false} SubdomainThenIgnoresCase(rest: seq<Token>, s: string, dotOnly: bool)
    ensures SubdomainThen(rest, LowerAscii(s), dotOnly) == SubdomainThen(rest, s, dotOnly)
    decreases |s|, |rest|
  {
    var l := LowerAscii(s);
    if |s| > 0 {
      assert l[1..] == LowerAscii(s[1..]);
      LowerCharFacts(s[0]);
      SubdomainThenIgnoresCase(rest, s[1..], dotOnly);
      MatchesIgnoresCase(rest, s[1..]);
    }
  }

  lemma {:induction false} AnyPatternMatchesIgnoresCase(patterns: seq<string>, d: string)
    ensures AnyPatternMatches(patterns, LowerAscii(d)) == AnyPatternMatches(patterns, d)
  {
    forall j | 0 <= j < |patterns|
      ensures PatternMatches(patterns[j], LowerAscii(d)) == PatternMatches(patterns[j], d)
    {
      MatchesIgnoresCase(Compile(StripWww(patterns[j])), d);
    }
  }

  lemma {:induction false} FirstMatchIgnoresCase(d: string, services: ServiceDatabase)
    ensures FirstMatch(LowerAscii(d), services) == FirstMatch(d, services)
  {
    if |services| > 0 {
      AnyPatternMatchesIgnoresCase(services[0].1, d);
      FirstMatchIgnoresCase(d, services[1..]);
    }
  }

  /**
   * The lookup is insensitive to ASCII letter case in the looked-up domain, so the
   * `toLowerCase()` a caller applies first (src/InteractionMiddlewares/ReferralMapper.ts:35)
   * does not change the result.
   */
  lemma DomainToServiceIgnoresCase(d: string, services: ServiceDatabase)
    requires ValidDatabase(services)
    ensures DomainToService(LowerAscii(d), services) == DomainToService(d, services)
  {
    var l := LowerAscii(d);
    if |d| >= 4 {
      LowerCharFacts(d[0]);
      LowerCharFacts(d[1]);
      LowerCharFacts(d[2]);
      assert l[4..] == LowerAscii(d[4..]);
    }
    assert StripWwwAnyCase(l) == LowerAscii(StripWwwAnyCase(d));
    FirstMatchIgnoresCase(StripWwwAnyCase(d), services);
  }

  /** A leading `www.` in any letter case is removed from the domain before any pattern is tried. */
  lemma LookupIgnoresWww(w: string, d: string, services: ServiceDatabase)
    requires ValidDatabase(services)
    requires |w| == 4 && SameCharI(w[0], 'w') && SameCharI(w[1], 'w') && SameCharI(w[2], 'w') && w[3] == '.'
    ensures DomainToService(w + d, services) == FirstMatch(d, services)
  {
    assert (w + d)[4..] == d;
  }

  /** A pattern's leading lower-case `www.` is optional: `www.p` and `p` match the same domains. */
  lemma PatternIgnoresWww(p: string, d: string)
    requires !(|p| >= 4 && p[..4] == "www.")
    ensures PatternMatches("www." + p, d) == PatternMatches(p, d)
  {
    assert ("www." + p)[..4] == "www." && ("www." + p)[4..] == p;
  }

  /** A pattern that does not start with a lower-case `www.` is used as it is. */
  predicate NoWwwPrefix(p: string) {
    !(|p| >= 4 && p[..4] == "www.")
  }

  /** `p*` (for a `*`-free `p`) matches `p` followed by any non-empty run of label characters. */
  lemma TrailingWildcard(p: string, d: string)
    requires StarFree(p) && NoWwwPrefix(p + "*")
    requires |d| > |p| && SameTextI(p, d[..|p|]) && AllLabelChars(d[|p|..])
    ensures PatternMatches(p + "*", d)
  {
    CompileLiteralPrefix(p, "*");
    assert Compile("*") == [Label];
    var tail := d[|p|..];
    LabelMeaning([], tail);
    assert tail[..|tail|] == tail && tail[|tail|..] == [];
    LiteralMeaning(p, [Label], d);
  }

  /**
   * `*.p` (for a `*`-free `p`) matches the bare `p`, and also a label followed by ANY separator
   * that is not a line terminator and then `p`; with the dot escaped, only a `.` separator is
   * accepted.
   */
  lemma SubdomainWildcard(p: string, sub: string, sep: char)
    requires StarFree(p) && 0 < |sub| && AllLabelChars(sub) && !IsLineTerminator(sep)
    ensures PatternMatches("*." + p, p)
    ensures PatternMatches("*." + p, sub + [sep] + p)
    ensures PatternMatchesIntended("*." + p, sub + [sep] + p) <==> sep == '.'
  {
    var pat := "*." + p;
    var d := sub + [sep] + p;
    var k := |sub|;
    assert pat[0] == '*' && pat[1] == '.' && pat[2..] == p;
    assert StripWww(pat) == pat;
    CompileIntendedStarFree(p);
    var rest := Compile(p);
    assert Compile(pat) == [OptSub] + rest;
    assert CompileIntended(pat) == [OptSubDot] + rest;
    assert rest + [] == rest;
    assert d[..k] == sub && d[k] == sep && d[k + 1..] == p;
    assert SameTextI(p, p);
    LiteralMeaning(p, [], p);
    assert SubdomainSplit(rest, d, false, k);
    OptionalSubdomainMeaning(OptSub, rest, p);
    OptionalSubdomainMeaning(OptSub, rest, d);
    assert Matches([OptSub] + rest, d) by {
      assert 1 <= k < |d|;
      assert SubdomainSplit(rest, d, OptSub.OptSubDot?, k);
      assert exists j :: 1 <= j < |d| && SubdomainSplit(rest, d, OptSub.OptSubDot?, j);
    }
    OptionalSubdomainMeaning(OptSubDot, rest, d);
    LiteralMeaning(p, [], d);
    forall j | 1 <= j < |d| && SubdomainSplit(rest, d, true, j) ensures j == k && sep == '.' {
      LiteralMeaning(p, [], d[j + 1..]);
    }
    if sep == '.' {
      assert SubdomainSplit(rest, d, true, k);
    }
  }

  /** A `*`-free pattern rejects a subject of its length that differs from it at one position. */
  lemma LiteralMismatch(p: string, d: string, i: int)
    requires StarFree(p) && NoWwwPrefix(p)
    requires |d| == |p| && 0 <= i < |p| && !SameCharI(p[i], d[i])
    ensures !PatternMatches(p, d)
  {
    assert Compile(p) + [] == Compile(p);
    LiteralMeaning(p, [], d);
    assert d[..|p|] == d;
  }

  /** A `*`-free pattern rejects a subject of another length. */
  lemma LiteralLength(p: string, d: string)
    requires StarFree(p) && |p| != |d|
    ensures !Matches(Compile(p), d)
  {
    assert Compile(p) + [] == Compile(p);
    LiteralMeaning(p, [], d);
  }

  /** `www.google.*` resolves `www.google.nl`: the `*` takes the label `nl`. */
  lemma WildcardTopLevelDomain(d: string, services: ServiceDatabase)
    requires d == "www.google.nl" && services == [("google", ["www.google.*"])]
    ensures DomainToService(d, services) == Some("google")
  {
    var p := "google.";
    assert StarFree(p) && NoWwwPrefix(p + "*") by {
      assert (p + "*")[..4][0] == 'g';
    }
    assert StripWwwAnyCase(d) == d[4..] by {
      assert d[..4] == "www.";
    }
    assert StripWww(services[0].1[0]) == p + "*" by {
      assert services[0].1[0][..4] == "www.";
    }
    var e := d[4..];
    assert e[..|p|] == p && e[|p|..] == "nl";
    TrailingWildcard(p, e);
    assert AnyPatternMatches(services[0].1, e);
  }

  /** `*.google.com` takes `google.com` bare and `www.google.com`, and through the unescaped dot `evilgoogle.com`, which the escaped form rejects. */
  lemma OptionalSubdomainExamples(p: string, d: string, evil: string)
    requires p == "google.com" && d == "www.google.com" && evil == "evilgoogle.com"
    ensures PatternMatches("*." + p, p) && PatternMatches("*." + p, d)
    ensures PatternMatches("*." + p, evil) && !PatternMatchesIntended("*." + p, evil)
  {
    assert StarFree(p);
    assert AllLabelChars("www") && AllLabelChars("evi");
    assert d == "www" + ['.'] + p;
    assert evil == "evi" + ['l'] + p;
    SubdomainWildcard(p, "www", '.');
    SubdomainWildcard(p, "evi", 'l');
  }

  /** With the dot escaped, `*.p` for a `*`-free `p` matches exactly `p`, or a label, a dot and `p`. */
  lemma IntendedSubdomainMeaning(p: string, d: string)
    requires StarFree(p)
    ensures PatternMatchesIntended("*." + p, d) <==>
            SameTextI(p, d) ||
            exists k :: 1 <= k < |d| && AllLabelChars(d[..k]) && d[k] == '.' && SameTextI(p, d[k + 1..])
  {
    var pat := "*." + p;
    assert pat[0] == '*' && pat[1] == '.' && pat[2..] == p;
    assert StripWww(pat) == pat;
    CompileIntendedStarFree(p);
    var rest := Compile(p);
    assert CompileIntended(pat) == [OptSubDot] + rest;
    assert rest + [] == rest;
    OptionalSubdomainMeaning(OptSubDot, rest, d);
    LiteralMeaning(p, [], d);
    forall k | 1 <= k < |d|
      ensures SubdomainSplit(rest, d, true, k) <==> AllLabelChars(d[..k]) && d[k] == '.' && SameTextI(p, d[k + 1..])
    {
      LiteralMeaning(p, [], d[k + 1..]);
    }
  }

  /** The dots of a pattern are literal: `google.com` rejects `googleXcom`, and `www.google.com` does not resolve `wwwxgoogle.com`. */
  lemma LiteralDots(p: string, d: string, w: string, services: ServiceDatabase)
    requires p == "google.com" && d == "googleXcom"
    requires w == "wwwxgoogle.com" && services == [("google", ["www.google.com"])]
    ensures !PatternMatches(p, d)
    ensures DomainToService(w, services) == None
  {
    assert StarFree(p);
    assert NoWwwPrefix(p) by {
      assert p[..4][0] == 'g';
    }
    assert p[6] == '.' && d[6] == 'X';
    LiteralMismatch(p, d, 6);
    assert StripWwwAnyCase(w) == w by {
      assert w[..4][3] == 'x';
    }
    assert StripWww(services[0].1[0]) == p by {
      assert services[0].1[0][..4] == "www.";
    }
    LiteralLength(p, w);
    assert !AnyPatternMatches(services[0].1, w);
  }
}
