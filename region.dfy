/** Region detection: the cascade of `detectRegion` (a valid override, a
    fresh cached decision, the visitor's languages against LOCALE_MAP, the
    time zone, and finally UK) and the one persisted cache slot it reads and
    writes. */
module Region {
  import opened Js
  import opened Stores

  /** CACHE_TTL_MS: thirty days in milliseconds. */
  const CacheTtlMs: int := 30 * 24 * 60 * 60 * 1000

  /** The JSON object `{code, ts}` stored under "amazonStoreRegion", once
      read and parsed. A missing, unreadable or unparsable entry is no entry
      at all (`None` in the slot). */
  datatype CacheEntry = CacheEntry(code: string, ts: int)

  /** What the browser reports: `navigator.languages` (None when it is
      missing), `navigator.language` ("" when missing), and the time zone
      name that `Intl.DateTimeFormat().resolvedOptions()` yields (None when
      that lookup throws, "" when it yields no name). */
  datatype Env = Env(languages: Option<seq<string>>, language: string, timeZone: Option<string>)

  /** `nav.languages || [nav.language || ""]`. */
  function Languages(env: Env): seq<string>
  {
    if env.languages.Some? then env.languages.value else [env.language]
  }

  /** `getCache()`: the cached code, unless the entry is missing, has a
      falsy code or timestamp, or is more than thirty days old. */
  function CachedCode(cache: Option<CacheEntry>, now: int): Option<string>
  {
    match cache
    case None => None
    case Some(e) =>
      if e.code == "" || e.ts == 0 then None
      else if now - e.ts > CacheTtlMs then None
      else Some(e.code)
  }

  /** The code of the first rule of LOCALE_MAP, from index `from` on, that
      matches `lang`; every code the table maps to is a storefront. */
  function FirstRule(lang: string, from: nat): (r: Option<string>)
    requires from <= |LocaleRules|
    ensures r.Some? ==> IsStore(r.value)
    decreases |LocaleRules| - from
  {
    if from == |LocaleRules| then None
    else if RuleMatches(LocaleRules[from], lang) then RuleCodesAreStores(); Some(LocaleRules[from].code)
    else FirstRule(lang, from + 1)
  }

  /** The languages tried in order, each against LOCALE_MAP in order: the
      code of the first language that any rule matches. */
  function MatchLanguages(langs: seq<string>): (r: Option<string>)
    ensures r.Some? ==> IsStore(r.value)
  {
    if langs == [] then None
    else
      match FirstRule(langs[0], 0)
      case Some(c) => Some(c)
      case None => MatchLanguages(langs[1..])
  }

  /** The time-zone tier: London or any "Europe/" zone gives UK, tested
      before "America/" gives US; anything else, and a lookup that throws,
      falls through to the UK default. */
  function TimeZoneRegion(tz: Option<string>): string
  {
    if tz.Some? && (Contains(tz.value, "London") || Contains(tz.value, "Europe/")) then "UK"
    else if tz.Some? && Contains(tz.value, "America/") then "US"
    else "UK"
  }

  /** A resolution: the code returned and whether it is written to the
      cache slot. */
  datatype Decision = Decision(code: string, persist: bool)

  /** The whole `detectRegion(override)` cascade on the cache slot, the
      browser's signals and the clock. It always lands on a storefront. */
  function Resolve(override: string, cache: Option<CacheEntry>, env: Env, now: int): (d: Decision)
    ensures IsStore(d.code)
  {
    if override != "" && IsStore(override) then Decision(override, true)
    else
      var cached := CachedCode(cache, now);
      if cached.Some? && IsStore(cached.value) then Decision(cached.value, false)
      else
        match MatchLanguages(Languages(env))
        case Some(c) => Decision(c, true)
        case None => Decision(TimeZoneRegion(env.timeZone), true)
  }

  /** The slot after a resolution: `setCache(code)` stamps it with the
      current time on every path except a cache hit. */
  function CacheAfter(cache: Option<CacheEntry>, d: Decision, now: int): Option<CacheEntry>
  {
    if d.persist then Some(CacheEntry(d.code, now)) else cache
  }

  /** The resolver's state: the persisted cache slot, the clock
      (`Date.now()`), and the browser's language and time-zone signals. */
  class Resolver {
    var cache: Option<CacheEntry>
    var now: int
    var env: Env

    constructor (cache: Option<CacheEntry>, now: int, env: Env)
      ensures this.cache == cache && this.now == now && this.env == env
    {
      this.cache := cache;
      this.now := now;
      this.env := env;
    }

    /** `setCache(code)`: overwrite the slot with the code and the time. */
    method SetCache(code: string)
      modifies this`cache
      ensures cache == Some(CacheEntry(code, now))
    {
      cache := Some(CacheEntry(code, now));
    }

    /** `detectRegion(override)`, with its nested loops over the languages
        and LOCALE_MAP and its early returns. */
    method DetectRegion(override: string) returns (code: string)
      modifies this`cache
      ensures code == Resolve(override, old(cache), env, now).code
      ensures cache == CacheAfter(old(cache), Resolve(override, old(cache), env, now), now)
    {
      if override != "" && IsStore(override) {
        SetCache(override);
        return override;
      }
      var cached := CachedCode(cache, now);
      if cached.Some? && IsStore(cached.value) {
        return cached.value;
      }
      var langs := Languages(env);
      var i := 0;
      while i < |langs|
        invariant 0 <= i <= |langs|
        invariant MatchLanguages(langs[i..]) == MatchLanguages(langs)
      {
        var lang := langs[i];
        var j := 0;
        while j < |LocaleRules|
          invariant 0 <= j <= |LocaleRules|
          invariant FirstRule(lang, j) == FirstRule(lang, 0)
        {
          if RuleMatches(LocaleRules[j], lang) {
            SetCache(LocaleRules[j].code);
            return LocaleRules[j].code;
          }
          j := j + 1;
        }
        assert langs[i..][1..] == langs[i + 1..];
        i := i + 1;
      }
      if env.timeZone.Some? {
        var tz := env.timeZone.value;
        if Contains(tz, "London") || Contains(tz, "Europe/") {
          SetCache("UK");
          return "UK";
        }
        if Contains(tz, "America/") {
          SetCache("US");
          return "US";
        }
      }
      SetCache("UK");
      return "UK";
    }
  }

  // ---------------------------------------------------------------------
  // the cascade, tier by tier

  /** A truthy override that is a storefront is returned and persisted,
      whatever the cache and the browser say. */
  lemma OverrideWins(override: string, cache: Option<CacheEntry>, env: Env, now: int)
    requires IsStore(override)
    ensures Resolve(override, cache, env, now) == Decision(override, true)
  {
  }

  /** Without a valid override, a cached entry whose code and timestamp are
      truthy, which is at most thirty days old and names a storefront, is
      returned and not rewritten. */
  lemma FreshCacheWins(override: string, code: string, ts: int, env: Env, now: int)
    requires !IsStore(override)
    requires code != "" && ts != 0 && now - ts <= CacheTtlMs && IsStore(code)
    ensures Resolve(override, Some(CacheEntry(code, ts)), env, now) == Decision(code, false)
  {
  }

  /** An entry that is stale, has a falsy code or timestamp, or names no
      storefront counts as a miss, exactly like an absent or corrupt one. */
  lemma StaleCacheIgnored(override: string, cache: Option<CacheEntry>, env: Env, now: int)
    requires cache.Some?
    requires cache.value.code == "" || cache.value.ts == 0 || now - cache.value.ts > CacheTtlMs
      || !IsStore(cache.value.code)
    ensures Resolve(override, cache, env, now) == Resolve(override, None, env, now)
  {
  }

  /** When nothing is cached and no language matches, the time zone
      decides, and the decision is persisted. */
  lemma TimeZoneTier(env: Env, now: int)
    requires MatchLanguages(Languages(env)).None?
    ensures Resolve("", None, env, now) == Decision(TimeZoneRegion(env.timeZone), true)
  {
  }

  /** The first language (in the visitor's order) that matches some rule
      decides; within it, the first rule (in table order) decides. */
  ghost predicate Wins(langs: seq<string>, i: int, j: int)
  {
    && 0 <= i < |langs| && 0 <= j < |LocaleRules|
    && RuleMatches(LocaleRules[j], langs[i])
    && (forall i', j' :: 0 <= i' < i && 0 <= j' < |LocaleRules| ==> !RuleMatches(LocaleRules[j'], langs[i']))
    && (forall j' :: 0 <= j' < j ==> !RuleMatches(LocaleRules[j'], langs[i]))
  }

  /** FirstRule finds nothing exactly when no rule matches. */
  lemma {:induction false} FirstRuleNone(lang: string, from: nat)
    requires from <= |LocaleRules|
    ensures FirstRule(lang, from).None? <==> forall j :: from <= j < |LocaleRules| ==> !RuleMatches(LocaleRules[j], lang)
    decreases |LocaleRules| - from
  {
    if from < |LocaleRules| {
      FirstRuleNone(lang, from + 1);
    }
  }

  /** FirstRule yields the code of the first matching rule. */
  lemma {:induction false} FirstRuleFirst(lang: string, from: nat, j: int)
    requires from <= j < |LocaleRules| && RuleMatches(LocaleRules[j], lang)
    requires forall j' :: from <= j' < j ==> !RuleMatches(LocaleRules[j'], lang)
    ensures FirstRule(lang, from) == Some(LocaleRules[j].code)
    decreases j - from
  {
    if from < j {
      FirstRuleFirst(lang, from + 1, j);
    }
  }

  /** No locale match exactly when no rule matches any language. */
  lemma {:induction false} MatchLanguagesNone(langs: seq<string>)
    ensures MatchLanguages(langs).None? <==>
      forall i, j :: 0 <= i < |langs| && 0 <= j < |LocaleRules| ==> !RuleMatches(LocaleRules[j], langs[i])
  {
    if langs != [] {
      MatchLanguagesNone(langs[1..]);
      FirstRuleNone(langs[0], 0);
      assert forall i :: 1 <= i < |langs| ==> langs[i] == langs[1..][i - 1];
    }
  }

  /** The first match in language-major order decides the locale tier. */
  lemma {:induction false} MatchLanguagesFirst(langs: seq<string>, i: int, j: int)
    requires Wins(langs, i, j)
    ensures MatchLanguages(langs) == Some(LocaleRules[j].code)
  {
    if i == 0 {
      FirstRuleFirst(langs[0], 0, j);
    } else {
      assert FirstRule(langs[0], 0).None? by {
        FirstRuleNone(langs[0], 0);
      }
      var rest := langs[1..];
      assert Wins(rest, i - 1, j) by {
        assert rest[i - 1] == langs[i];
        forall i', j' | 0 <= i' < i - 1 && 0 <= j' < |LocaleRules| ensures !RuleMatches(LocaleRules[j'], rest[i']) {
          assert rest[i'] == langs[i' + 1];
        }
      }
      MatchLanguagesFirst(rest, i - 1, j);
    }
  }

  // ---------------------------------------------------------------------
  // persistence

  /** Resolving again at the same instant, with the same override and the
      same browser, gives the same code and leaves the slot as the first
      resolution left it. */
  lemma ResolveStable(override: string, cache: Option<CacheEntry>, env: Env, now: int)
    ensures var d := Resolve(override, cache, env, now);
            var cache' := CacheAfter(cache, d, now);
            var d' := Resolve(override, cache', env, now);
            d'.code == d.code && CacheAfter(cache', d', now) == cache'
  {
  }

  /** A valid override is remembered: until thirty days have passed, a
      later resolution without an override returns it from the cache,
      whatever the browser then says. The clock must not read 0, since a
      zero timestamp is falsy and is read back as a miss. */
  lemma OverrideRemembered(code: string, cache: Option<CacheEntry>, env: Env, env': Env, t: int, later: int)
    requires IsStore(code) && t != 0 && later - t <= CacheTtlMs
    ensures Resolve("", CacheAfter(cache, Resolve(code, cache, env, t), t), env', later) == Decision(code, false)
  {
  }

  // ---------------------------------------------------------------------
  // examples

  /** A rule fails on a language as soon as one character of its head is
      missing or differs (ignoring ASCII case). */
  lemma RuleFailsAt(j: nat, lang: string, k: nat)
    requires j < |LocaleRules| && k < |LocaleRules[j].head|
    requires k >= |lang| || FoldAscii(lang[k]) != FoldAscii(LocaleRules[j].head[k])
    ensures !RuleMatches(LocaleRules[j], lang)
  {
  }

  /** The regional "en-" rules are exact prefixes: an Irish English tag and
      a bare "en" match no rule at all. */
  lemma EnglishWithoutRegionMatchesNothing()
    ensures MatchLanguages(["en"]) == None
    ensures MatchLanguages(["en-IE"]) == None
  {
    forall j | 0 <= j < |LocaleRules| ensures !RuleMatches(LocaleRules[j], "en") {
      if j < 5 {
        RuleFailsAt(j, "en", 2);
      } else if j == 7 {
        RuleFailsAt(j, "en", 1);
      } else {
        RuleFailsAt(j, "en", 0);
      }
    }
    IrishEnglishMatchesNoRule();
    MatchLanguagesNone(["en"]);
    MatchLanguagesNone(["en-IE"]);
  }

  /** No rule of LOCALE_MAP matches "en-IE": the regional "en-" rules
      differ at its region, and the others at its first or second letter. */
  lemma IrishEnglishMatchesNoRule()
    ensures forall j :: 0 <= j < |LocaleRules| ==> !RuleMatches(LocaleRules[j], "en-IE")
  {
    forall j | 0 <= j < |LocaleRules| ensures !RuleMatches(LocaleRules[j], "en-IE") {
      if j < 5 {
        RuleFailsAt(j, "en-IE", 3);
      } else if j == 7 {
        RuleFailsAt(j, "en-IE", 1);
      } else {
        RuleFailsAt(j, "en-IE", 0);
      }
    }
  }

  /** A language that matches nothing is passed over for the next one. */
  lemma LaterLanguageExample(langs: seq<string>)
    requires langs == ["en-IE", "fr-FR"]
    ensures MatchLanguages(langs) == Some("FR")
  {
    IrishEnglishMatchesNoRule();
    forall j | 0 <= j < 5 ensures !RuleMatches(LocaleRules[j], "fr-FR") {
      RuleFailsAt(j, "fr-FR", 0);
    }
    assert forall i', j' :: 0 <= i' < 1 && 0 <= j' < |LocaleRules| ==> !RuleMatches(LocaleRules[j'], langs[i']) by {
      assert langs[0] == "en-IE";
    }
    assert RuleMatches(LocaleRules[5], langs[1]);
    MatchLanguagesFirst(langs, 1, 5);
  }

  /** The visitor's first matching language decides, even when a later one
      names a storefront of its own. */
  lemma EarlierLanguageExample(langs: seq<string>)
    requires langs == ["fr-FR", "en-US"]
    ensures MatchLanguages(langs) == Some("FR")
  {
    forall j | 0 <= j < 5 ensures !RuleMatches(LocaleRules[j], langs[0]) {
      RuleFailsAt(j, langs[0], 0);
    }
    assert Wins(langs, 0, 5);
    MatchLanguagesFirst(langs, 0, 5);
  }

  /** New Zealand English is sent to the Australian store. */
  lemma NewZealandExample()
    ensures MatchLanguages(["en-NZ"]) == Some("AU")
  {
    forall j | 0 <= j < 4 ensures !RuleMatches(LocaleRules[j], "en-NZ") {
      RuleFailsAt(j, "en-NZ", 3);
    }
    assert Wins(["en-NZ"], 0, 4);
    MatchLanguagesFirst(["en-NZ"], 0, 4);
  }

  /** The Brazilian rule accepts an underscore separator. */
  lemma BrazilExample()
    ensures MatchLanguages(["pt_BR"]) == Some("BR")
  {
    forall j | 0 <= j < 11 ensures !RuleMatches(LocaleRules[j], "pt_BR") {
      RuleFailsAt(j, "pt_BR", 0);
    }
    assert Wins(["pt_BR"], 0, 11);
    MatchLanguagesFirst(["pt_BR"], 0, 11);
  }

  /** A pattern that needs a character the name lacks does not occur in it. */
  lemma {:induction false} MissingCharNotContained(s: string, sub: string, k: nat)
    requires k < |sub| && sub[k] !in s
    ensures !Contains(s, sub)
    decreases |s|
  {
    if s != [] {
      MissingCharNotContained(s[1..], sub, k);
    }
  }

  /** A European zone gives UK. */
  lemma EuropeExample(tz: string)
    requires tz == "Europe/Paris"
    ensures TimeZoneRegion(Some(tz)) == "UK"
  {
    assert tz[..7] == "Europe/";
  }

  /** An American zone gives US. */
  lemma AmericaExample(tz: string)
    requires tz == "America/New_York"
    ensures TimeZoneRegion(Some(tz)) == "US"
  {
    MissingCharNotContained(tz, "London", 0);
    MissingCharNotContained(tz, "Europe/", 0);
    assert tz[..8] == "America/";
  }

  /** Any other zone lands on the UK default. */
  lemma OtherZoneExample(tz: string)
    requires tz == "Asia/Tokyo"
    ensures TimeZoneRegion(Some(tz)) == "UK"
  {
    MissingCharNotContained(tz, "London", 0);
    MissingCharNotContained(tz, "Europe/", 0);
    MissingCharNotContained(tz, "America/", 1);
  }
}
