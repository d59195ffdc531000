/** `enhance(el, asin, opts)` and `enhanceAll(defaults)`: turn an element
    into a link to the visitor's storefront. The element's `data-amazon-*`
    attributes win over the caller's options, the `data-amazon-params`
    pairs are merged over the caller's params, the link is built, and the
    element is updated: an anchor gets `href`, `target` and `rel`, any other
    element a click handler; empty text gets a "Buy now on …" label; and
    `data-amazon-region` records the region. */
module Enhancer {
  import opened Js
  import opened Dicts
  import opened Stores
  import opened Region
  import opened Links
  import opened Params
  import opened Dom

  /** The options a caller passes to `enhance` (the shared defaults in
      `enhanceAll`), absent strings written "". */
  datatype CallerOptions = CallerOptions(
    region: string, tag: string, path: string, text: string, search: string,
    forceSearch: bool, params: Dict)

  /** What one `enhance` call comes to: a URIError thrown from
      `parseParams`, an early return with nothing to link, or the returned
      `{region, href}`. */
  datatype Outcome = Threw(error: Error) | Skipped | Enhanced(region: string, href: Url)

  /** `finalOpts`: each field is the data attribute `||` the option, the
      params are `Object.assign({}, opts.params, parsed)`, and
      `forceSearch` is not passed on. */
  function Merged(attrs: map<string, string>, opts: CallerOptions, parsed: Dict): LinkOptions
  {
    LinkOptions(
      Or(Data(attrs, "data-amazon-region"), opts.region),
      Or(Data(attrs, "data-amazon-search"), opts.search),
      false,
      Or(Data(attrs, "data-amazon-path"), opts.path),
      Or(Data(attrs, "data-amazon-tag"), opts.tag),
      Assign(opts.params, parsed))
  }

  /** The ASIN the link is built for: the argument `||` `data-amazon-asin`. */
  function AsinFor(attrs: map<string, string>, asin: string): string
  {
    Or(asin, Data(attrs, "data-amazon-asin"))
  }

  /** The outcome of `enhance` on an element with attributes `attrs`. */
  function EnhanceResult(
    attrs: map<string, string>, asin: string, opts: CallerOptions,
    cache: Option<CacheEntry>, env: Env, now: int, v: Version, decode: string -> Option<string>): Outcome
  {
    match ParsedParams(Data(attrs, "data-amazon-params"), v, decode)
    case Err(e) => Threw(e)
    case Ok(parsed) =>
      var o := Merged(attrs, opts, parsed);
      var d := Resolve(o.region, cache, env, now);
      match UrlFor(AsinFor(attrs, asin), o, d.code)
      case Err(_) => Skipped
      case Ok(u) => Enhanced(d.code, u)
  }

  /** The cache slot after `enhance`: untouched when `parseParams` throws,
      otherwise as `buildUrl`'s resolution left it, link or no link. */
  function CacheAfterEnhance(
    attrs: map<string, string>, opts: CallerOptions,
    cache: Option<CacheEntry>, env: Env, now: int, v: Version, decode: string -> Option<string>): Option<CacheEntry>
  {
    match ParsedParams(Data(attrs, "data-amazon-params"), v, decode)
    case Err(_) => cache
    case Ok(parsed) =>
      CacheAfter(cache, Resolve(Merged(attrs, opts, parsed).region, cache, env, now), now)
  }

  /** The element's text afterwards: kept unless it trims to nothing, then
      the text option or "Buy now on " and the region's label. */
  function NewText(old_text: string, attrs: map<string, string>, opts: CallerOptions, region: string): string
  {
    if Trim(old_text) != "" then old_text
    else Or(Or(Data(attrs, "data-amazon-text"), opts.text), "Buy now on " + Label(region))
  }

  /** The element's fields after `enhance` returned `res`: untouched unless
      it linked; then an anchor gets `href`, `target` "_blank" and `rel`
      "noopener", any other element a click handler for the URL; blank
      text is replaced by the default label (which also drops the child
      nodes), and `data-amazon-region` records the region. */
  function Applied(isAnchor: bool, s: ElementState, res: Outcome, opts: CallerOptions): ElementState
  {
    if !res.Enhanced? then s
    else
      ElementState(
        s.attrs["data-amazon-region" := res.region],
        NewText(s.text, s.attrs, opts, res.region),
        if isAnchor then Some(res.href) else s.href,
        if isAnchor then "_blank" else s.target,
        if isAnchor then "noopener" else s.rel,
        s.handlers + (if isAnchor then [] else [res.href]),
        if Trim(s.text) == "" then [] else s.children)
  }

  /** `enhance(el, asin, opts)` on an element that exists. */
  method Enhance(r: Resolver, el: Element, asin: string, opts: CallerOptions, v: Version, decode: string -> Option<string>)
    returns (res: Outcome)
    modifies r`cache, el
    ensures res == EnhanceResult(old(el.attrs), asin, opts, old(r.cache), r.env, r.now, v, decode)
    ensures r.cache == CacheAfterEnhance(old(el.attrs), opts, old(r.cache), r.env, r.now, v, decode)
    ensures !res.Enhanced? ==> unchanged(el)
    ensures el.State() == Applied(el.isAnchor, old(el.State()), res, opts)
  {
    var attrs := el.attrs;
    var region := Or(Data(attrs, "data-amazon-region"), opts.region);
    var tag := Or(Data(attrs, "data-amazon-tag"), opts.tag);
    var path := Or(Data(attrs, "data-amazon-path"), opts.path);
    var search := Or(Data(attrs, "data-amazon-search"), opts.search);
    var parsed := ParseParams(Data(attrs, "data-amazon-params"), v, decode);
    if parsed.Err? {
      return Threw(parsed.error);
    }
    var finalOpts := LinkOptions(region, search, false, path, tag, Assign(opts.params, parsed.value));
    assert finalOpts == Merged(attrs, opts, parsed.value);
    ghost var cache0 := r.cache;
    var built := BuildUrl(r, AsinFor(attrs, asin), finalOpts);
    if built.Err? {
      if search != "" {
        // The search fallback: buildUrl fails only when there is neither
        // an ASIN nor a search, so this retry is never reached.
        assert false;
      }
      return Skipped;
    }
    var href := built.value;
    ResolveStable(region, cache0, r.env, r.now);
    var regionFinal := r.DetectRegion(region);
    WriteLink(el, href, regionFinal, opts);
    return Enhanced(regionFinal, href);
  }

  /** The writes `enhance` makes once it has a link `href` for `region`. */
  method WriteLink(el: Element, href: Url, region: string, opts: CallerOptions)
    modifies el
    ensures el.State() == Applied(el.isAnchor, old(el.State()), Enhanced(region, href), opts)
  {
    var text := Or(Data(el.attrs, "data-amazon-text"), opts.text);
    if el.isAnchor {
      el.href := Some(href);
      el.target := "_blank";
      el.rel := "noopener";
    } else {
      el.handlers := el.handlers + [href];
    }
    if Trim(el.text) == "" {
      el.text := Or(text, "Buy now on " + Label(region));
      el.children := [];
    }
    el.attrs := el.attrs["data-amazon-region" := region];
  }

  // ---------------------------------------------------------------------
  // properties of one call

  /** `enhance` throws exactly when the `data-amazon-params` attribute does
      not decode, and then the cache slot is not touched. */
  lemma ThrowsOnlyOnBadParams(
    attrs: map<string, string>, asin: string, opts: CallerOptions,
    cache: Option<CacheEntry>, env: Env, now: int, v: Version, decode: string -> Option<string>)
    ensures EnhanceResult(attrs, asin, opts, cache, env, now, v, decode).Threw?
      <==> ParsedParams(Data(attrs, "data-amazon-params"), v, decode).Err?
    ensures EnhanceResult(attrs, asin, opts, cache, env, now, v, decode).Threw? ==>
      EnhanceResult(attrs, asin, opts, cache, env, now, v, decode).error == UriError
      && CacheAfterEnhance(attrs, opts, cache, env, now, v, decode) == cache
  {
  }

  /** Nothing is linked exactly when there is neither an ASIN (argument or
      attribute) nor a search (attribute or option); the element is then
      left alone, although the region was already resolved and persisted. */
  lemma SkippedIff(
    attrs: map<string, string>, asin: string, opts: CallerOptions,
    cache: Option<CacheEntry>, env: Env, now: int, v: Version, decode: string -> Option<string>)
    requires ParsedParams(Data(attrs, "data-amazon-params"), v, decode).Ok?
    ensures EnhanceResult(attrs, asin, opts, cache, env, now, v, decode).Skipped?
      <==> AsinFor(attrs, asin) == "" && Or(Data(attrs, "data-amazon-search"), opts.search) == ""
    ensures CacheAfterEnhance(attrs, opts, cache, env, now, v, decode)
      == CacheAfter(cache, Resolve(Or(Data(attrs, "data-amazon-region"), opts.region), cache, env, now), now)
  {
  }

  /** The region returned (and written to `data-amazon-region`) is a
      storefront and is the one whose domain the link points at. */
  lemma RegionMatchesHref(
    attrs: map<string, string>, asin: string, opts: CallerOptions,
    cache: Option<CacheEntry>, env: Env, now: int, v: Version, decode: string -> Option<string>)
    requires EnhanceResult(attrs, asin, opts, cache, env, now, v, decode).Enhanced?
    ensures var res := EnhanceResult(attrs, asin, opts, cache, env, now, v, decode);
      IsStore(res.region) && RegionOfDomain(res.href.host) == Some(res.region)
  {
    var parsed := ParsedParams(Data(attrs, "data-amazon-params"), v, decode).value;
    var o := Merged(attrs, opts, parsed);
    HostNamesRegion(AsinFor(attrs, asin), o, Resolve(o.region, cache, env, now).code);
  }

  /** `forceSearch` is not passed on: the caller's flag changes nothing,
      and an ASIN always gives the product page, even with a search. */
  lemma ForceSearchNotForwarded(
    attrs: map<string, string>, asin: string, opts: CallerOptions,
    cache: Option<CacheEntry>, env: Env, now: int, v: Version, decode: string -> Option<string>)
    ensures EnhanceResult(attrs, asin, opts, cache, env, now, v, decode)
      == EnhanceResult(attrs, asin, opts.(forceSearch := !opts.forceSearch), cache, env, now, v, decode)
    ensures var res := EnhanceResult(attrs, asin, opts, cache, env, now, v, decode);
      res.Enhanced? && AsinFor(attrs, asin) != "" ==>
        res.href.path == "/" + Or(Or(Data(attrs, "data-amazon-path"), opts.path), "dp") + "/" + AsinFor(attrs, asin)
  {
    var res := EnhanceResult(attrs, asin, opts, cache, env, now, v, decode);
    if res.Enhanced? && AsinFor(attrs, asin) != "" {
      var parsed := ParsedParams(Data(attrs, "data-amazon-params"), v, decode).value;
      var o := Merged(attrs, opts, parsed);
      PageChoice(AsinFor(attrs, asin), o, Resolve(o.region, cache, env, now).code);
    }
  }

  /** The argument ASIN beats `data-amazon-asin`, which is used only when
      the argument is empty. */
  lemma AsinArgumentWins(attrs: map<string, string>, asin: string)
    ensures asin != "" ==> AsinFor(attrs, asin) == asin
    ensures asin == "" ==> AsinFor(attrs, asin) == Data(attrs, "data-amazon-asin")
  {
  }

  /** The query the link carries: a `data-amazon-params` pair wins over a
      caller param of the same key, which wins over the tag (attribute
      first, then option), which wins over the search words. */
  lemma QueryPrecedence(
    attrs: map<string, string>, asin: string, opts: CallerOptions,
    cache: Option<CacheEntry>, env: Env, now: int, v: Version, decode: string -> Option<string>, key: string)
    requires UniqueKeys(opts.params)
    requires EnhanceResult(attrs, asin, opts, cache, env, now, v, decode).Enhanced?
    ensures var parsed := ParsedParams(Data(attrs, "data-amazon-params"), v, decode).value;
      var tag := Or(Data(attrs, "data-amazon-tag"), opts.tag);
      var q := EnhanceResult(attrs, asin, opts, cache, env, now, v, decode).href.query;
      UniqueKeys(q) &&
      Get(q, key) ==
        if Get(parsed, key).Some? then Get(parsed, key)
        else if Get(opts.params, key).Some? then Get(opts.params, key)
        else if key == "tag" && tag != "" then Some(tag)
        else if key == "k" && AsinFor(attrs, asin) == "" then Some(Or(Data(attrs, "data-amazon-search"), opts.search))
        else None
  {
    var s := Data(attrs, "data-amazon-params");
    var parsed := ParsedParams(s, v, decode).value;
    ParsedUnique(s, v, decode);
    AssignMerges(opts.params, parsed, key);
    var o := Merged(attrs, opts, parsed);
    QueryValues(AsinFor(attrs, asin), o, Resolve(o.region, cache, env, now).code, key);
  }

  /** Text that is not blank is kept; blank text becomes the text option,
      or "Buy now on Amazon " and the store's name. */
  lemma DefaultText(old_text: string, attrs: map<string, string>, opts: CallerOptions, region: string)
    requires IsStore(region)
    ensures (exists i :: 0 <= i < |old_text| && !IsSpace(old_text[i])) ==> NewText(old_text, attrs, opts, region) == old_text
    ensures (forall i :: 0 <= i < |old_text| ==> IsSpace(old_text[i])) ==>
      NewText(old_text, attrs, opts, region) ==
        if Or(Data(attrs, "data-amazon-text"), opts.text) != "" then Or(Data(attrs, "data-amazon-text"), opts.text)
        else "Buy now on Amazon " + Name(region)
  {
    TrimEmpty(old_text);
    assert "Buy now on " + ("Amazon " + Name(region)) == "Buy now on Amazon " + Name(region);
  }

  // ---------------------------------------------------------------------
  // every link on the page

  /** The elements `[data-amazon-asin], [data-amazon-search]` selects: those
      carrying either attribute, even empty. */
  predicate Selected(attrs: map<string, string>)
  {
    "data-amazon-asin" in attrs || "data-amazon-search" in attrs
  }

  /** An element `enhance` has linked: its `data-amazon-region` names a
      storefront, and its anchor `href` or its latest click handler points
      at that storefront's domain. */
  ghost predicate Linked(e: Element)
    reads e
  {
    && "data-amazon-region" in e.attrs
    && IsStore(e.attrs["data-amazon-region"])
    && (e.isAnchor ==> e.href.Some? && RegionOfDomain(e.href.value.host) == Some(e.attrs["data-amazon-region"]))
    && (!e.isAnchor ==> |e.handlers| > 0 && RegionOfDomain(e.handlers[|e.handlers| - 1].host) == Some(e.attrs["data-amazon-region"]))
  }

  /** Whether `enhance` links a selected element given the shared
      defaults: it has an ASIN attribute, or a search from its attribute or
      the defaults. */
  predicate WillLink(attrs: map<string, string>, defaults: CallerOptions)
  {
    Selected(attrs)
    && (Data(attrs, "data-amazon-asin") != "" || Or(Data(attrs, "data-amazon-search"), defaults.search) != "")
  }

  /** What `enhanceAll` makes of one element: `enhance(el,
      el.dataset.amazonAsin, defaults)` when the selector picks it, and
      nothing otherwise. */
  function StepOutcome(
    attrs: map<string, string>, defaults: CallerOptions,
    cache: Option<CacheEntry>, env: Env, now: int, v: Version, decode: string -> Option<string>): Outcome
  {
    if Selected(attrs) then EnhanceResult(attrs, Data(attrs, "data-amazon-asin"), defaults, cache, env, now, v, decode)
    else Skipped
  }

  /** The cache slot after `enhanceAll` has dealt with one element. */
  function StepCache(
    attrs: map<string, string>, defaults: CallerOptions,
    cache: Option<CacheEntry>, env: Env, now: int, v: Version, decode: string -> Option<string>): Option<CacheEntry>
  {
    if Selected(attrs) then CacheAfterEnhance(attrs, defaults, cache, env, now, v, decode) else cache
  }

  /** One step of `enhanceAll` throws exactly on a selected element whose
      params do not decode, and then leaves the slot as it was; an element
      the selector skips touches nothing. */
  lemma StepThrowsIff(
    attrs: map<string, string>, defaults: CallerOptions,
    cache: Option<CacheEntry>, env: Env, now: int, v: Version, decode: string -> Option<string>)
    ensures StepOutcome(attrs, defaults, cache, env, now, v, decode).Threw?
      <==> Selected(attrs) && ParsedParams(Data(attrs, "data-amazon-params"), v, decode).Err?
    ensures StepOutcome(attrs, defaults, cache, env, now, v, decode).Threw? ==>
      StepCache(attrs, defaults, cache, env, now, v, decode) == cache
    ensures !Selected(attrs) ==>
      StepOutcome(attrs, defaults, cache, env, now, v, decode) == Skipped
      && StepCache(attrs, defaults, cache, env, now, v, decode) == cache
  {
    if Selected(attrs) {
      ThrowsOnlyOnBadParams(attrs, Data(attrs, "data-amazon-asin"), defaults, cache, env, now, v, decode);
    }
  }

  /** One step of `enhanceAll`: enhance the element if it is selected. */
  method EnhanceOne(r: Resolver, el: Element, defaults: CallerOptions, v: Version, decode: string -> Option<string>)
    returns (err: Option<Error>)
    modifies r`cache, el
    ensures err.Some? <==> StepOutcome(old(el.attrs), defaults, old(r.cache), r.env, r.now, v, decode).Threw?
    ensures r.cache == StepCache(old(el.attrs), defaults, old(r.cache), r.env, r.now, v, decode)
    ensures el.State() ==
      Applied(el.isAnchor, old(el.State()), StepOutcome(old(el.attrs), defaults, old(r.cache), r.env, r.now, v, decode), defaults)
    ensures err.Some? ==>
      && err.value == UriError && unchanged(el)
      && Selected(old(el.attrs))
      && ParsedParams(Data(old(el.attrs), "data-amazon-params"), v, decode).Err?
    ensures err.None? && WillLink(old(el.attrs), defaults) ==> Linked(el)
    ensures err.None? && !WillLink(old(el.attrs), defaults) ==> unchanged(el)
  {
    if !Selected(el.attrs) {
      return None;
    }
    var asin := Data(el.attrs, "data-amazon-asin");
    ghost var attrs0 := el.attrs;
    ghost var cache0 := r.cache;
    var res := Enhance(r, el, asin, defaults, v, decode);
    if res.Threw? {
      ThrowsOnlyOnBadParams(attrs0, asin, defaults, cache0, r.env, r.now, v, decode);
      return Some(res.error);
    }
    if res.Enhanced? {
      RegionMatchesHref(attrs0, asin, defaults, cache0, r.env, r.now, v, decode);
    } else {
      SkippedIff(attrs0, asin, defaults, cache0, r.env, r.now, v, decode);
    }
    return None;
  }

  /** One element dealt with by `enhanceAll`: the slot moves from `c0` to
      `c1` as StepCache says, and the element's fields from `s0` to `s1` as
      Applied says of StepOutcome. */
  ghost predicate EnhanceStepped(
    anchor: bool, s0: ElementState, s1: ElementState, c0: Option<CacheEntry>, c1: Option<CacheEntry>,
    defaults: CallerOptions, env: Env, now: int, v: Version, decode: string -> Option<string>)
  {
    && c1 == StepCache(s0.attrs, defaults, c0, env, now, v, decode)
    && s1 == Applied(anchor, s0, StepOutcome(s0.attrs, defaults, c0, env, now, v, decode), defaults)
  }

  /** A walk of `enhanceAll` over elements whose kinds are `anchors`, whose
      fields were `olds` and are now `news`: element `k` stepped from slot
      `caches[k]` to slot `caches[k + 1]`. */
  ghost predicate EnhanceWalked(
    anchors: seq<bool>, olds: seq<ElementState>, news: seq<ElementState>, caches: seq<Option<CacheEntry>>,
    defaults: CallerOptions, env: Env, now: int, v: Version, decode: string -> Option<string>)
    requires |olds| == |news| == |anchors| && |caches| == |anchors| + 1
    decreases |anchors|, 1
  {
    |anchors| == 0 || EnhanceWalkedToLast(anchors, olds, news, caches, defaults, env, now, v, decode)
  }

  /** A non-empty walk: all but the last element walked, and the last one
      stepped from the slot they left. */
  ghost predicate EnhanceWalkedToLast(
    anchors: seq<bool>, olds: seq<ElementState>, news: seq<ElementState>, caches: seq<Option<CacheEntry>>,
    defaults: CallerOptions, env: Env, now: int, v: Version, decode: string -> Option<string>)
    requires |olds| == |news| == |anchors| && |caches| == |anchors| + 1 && |anchors| > 0
    decreases |anchors|, 0
  {
    var n := |anchors|;
    && EnhanceWalked(anchors[..n - 1], olds[..n - 1], news[..n - 1], caches[..n], defaults, env, now, v, decode)
    && EnhanceStepped(anchors[n - 1], olds[n - 1], news[n - 1], caches[n - 1], caches[n], defaults, env, now, v, decode)
  }

  /** Every element of a walk stepped from the slot the one before it left. */
  lemma {:induction false} EnhanceWalkedEach(
    anchors: seq<bool>, olds: seq<ElementState>, news: seq<ElementState>, caches: seq<Option<CacheEntry>>,
    defaults: CallerOptions, env: Env, now: int, v: Version, decode: string -> Option<string>)
    requires |olds| == |news| == |anchors| && |caches| == |anchors| + 1
    requires EnhanceWalked(anchors, olds, news, caches, defaults, env, now, v, decode)
    ensures forall k :: 0 <= k < |anchors| ==>
      EnhanceStepped(anchors[k], olds[k], news[k], caches[k], caches[k + 1], defaults, env, now, v, decode)
  {
    var n := |anchors|;
    if n > 0 {
      assert EnhanceWalkedToLast(anchors, olds, news, caches, defaults, env, now, v, decode);
      EnhanceWalkedEach(anchors[..n - 1], olds[..n - 1], news[..n - 1], caches[..n], defaults, env, now, v, decode);
      forall k | 0 <= k < n - 1
        ensures EnhanceStepped(anchors[k], olds[k], news[k], caches[k], caches[k + 1], defaults, env, now, v, decode)
      {
        assert anchors[..n - 1][k] == anchors[k] && olds[..n - 1][k] == olds[k] && news[..n - 1][k] == news[k];
        assert caches[..n][k] == caches[k] && caches[..n][k + 1] == caches[k + 1];
      }
    }
  }

  /** A walk extends by one element that steps from the slot it ends with. */
  lemma EnhanceWalkedExtend(
    anchors: seq<bool>, olds: seq<ElementState>, news: seq<ElementState>, caches: seq<Option<CacheEntry>>,
    defaults: CallerOptions, env: Env, now: int, v: Version, decode: string -> Option<string>,
    anchor: bool, s0: ElementState, s1: ElementState, after: Option<CacheEntry>)
    requires |olds| == |news| == |anchors| && |caches| == |anchors| + 1
    requires EnhanceWalked(anchors, olds, news, caches, defaults, env, now, v, decode)
    requires EnhanceStepped(anchor, s0, s1, caches[|anchors|], after, defaults, env, now, v, decode)
    ensures EnhanceWalked(anchors + [anchor], olds + [s0], news + [s1], caches + [after], defaults, env, now, v, decode)
  {
    var n := |anchors|;
    assert (anchors + [anchor])[..n] == anchors && (olds + [s0])[..n] == olds && (news + [s1])[..n] == news;
    assert (caches + [after])[..n + 1] == caches;
    assert EnhanceWalkedToLast(anchors + [anchor], olds + [s0], news + [s1], caches + [after], defaults, env, now, v, decode);
  }

  /** One turn of the loop of `enhanceAll`: EnhanceOne on `doc[i]`, and the
      walk so far extended by what it did. */
  method EnhanceStep(r: Resolver, doc: seq<Element>, i: nat, defaults: CallerOptions, v: Version, decode: string -> Option<string>,
                     ghost anchors: seq<bool>, ghost olds: seq<ElementState>, ghost news: seq<ElementState>,
                     ghost caches: seq<Option<CacheEntry>>)
    returns (err: Option<Error>, ghost anchors': seq<bool>, ghost olds': seq<ElementState>, ghost news': seq<ElementState>,
             ghost caches': seq<Option<CacheEntry>>)
    requires i < |doc|
    requires forall i, j :: 0 <= i < j < |doc| ==> doc[i] != doc[j]
    requires |anchors| == |olds| == |news| == i && |caches| == i + 1
    requires forall k :: 0 <= k < i ==> anchors[k] == doc[k].isAnchor && news[k] == doc[k].State()
    requires r.cache == caches[i] && EnhanceWalked(anchors, olds, news, caches, defaults, r.env, r.now, v, decode)
    modifies r`cache, doc[i]
    ensures forall k | 0 <= k < |doc| && k != i :: unchanged(doc[k])
    ensures err.Some? ==>
      && err.value == UriError && unchanged(doc[i]) && r.cache == caches[i]
      && Selected(doc[i].attrs)
      && ParsedParams(Data(doc[i].attrs, "data-amazon-params"), v, decode).Err?
    ensures err.None? && WillLink(old(doc[i].attrs), defaults) ==> Linked(doc[i])
    ensures err.None? && !WillLink(old(doc[i].attrs), defaults) ==> unchanged(doc[i])
    ensures err.None? ==>
      && |anchors'| == |olds'| == |news'| == i + 1 && |caches'| == i + 2
      && olds' == olds + [old(doc[i].State())]
      && (forall k :: 0 <= k < i + 1 ==> anchors'[k] == doc[k].isAnchor && news'[k] == doc[k].State())
      && caches'[0] == caches[0] && r.cache == caches'[i + 1]
      && EnhanceWalked(anchors', olds', news', caches', defaults, r.env, r.now, v, decode)
  {
    ghost var s0 := doc[i].State();
    err := EnhanceOne(r, doc[i], defaults, v, decode);
    forall k | 0 <= k < |doc| && k != i
      ensures unchanged(doc[k])
    {
      assert doc[k] != doc[i] by {
        if k < i { assert doc[k] != doc[i]; } else { assert doc[i] != doc[k]; }
      }
    }
    if err.Some? {
      StepThrowsIff(s0.attrs, defaults, caches[i], r.env, r.now, v, decode);
      return err, anchors, olds, news, caches;
    }
    EnhanceWalkedExtend(anchors, olds, news, caches, defaults, r.env, r.now, v, decode,
                        doc[i].isAnchor, s0, doc[i].State(), r.cache);
    anchors', olds', news', caches' := anchors + [doc[i].isAnchor], olds + [s0], news + [doc[i].State()], caches + [r.cache];
    forall k | 0 <= k < i + 1
      ensures anchors'[k] == doc[k].isAnchor && news'[k] == doc[k].State()
    {
    }
  }

  /** The loop of `enhanceAll`, recording the walk: for each element it
      passed, its kind, its fields before and after, and the slot it found
      and left. */
  method WalkEnhance(r: Resolver, doc: seq<Element>, defaults: CallerOptions, v: Version, decode: string -> Option<string>)
    returns (err: Option<Error>, ghost stopped: nat, ghost anchors: seq<bool>, ghost olds: seq<ElementState>,
             ghost news: seq<ElementState>, ghost caches: seq<Option<CacheEntry>>)
    requires forall i, j :: 0 <= i < j < |doc| ==> doc[i] != doc[j]
    modifies r`cache, set e | e in doc
    ensures stopped <= |doc| && |anchors| == |olds| == |news| == stopped && |caches| == stopped + 1
    ensures err.Some? <==> stopped < |doc|
    ensures err.Some? ==>
      && err.value == UriError
      && Selected(old(doc[stopped].attrs))
      && ParsedParams(Data(old(doc[stopped].attrs), "data-amazon-params"), v, decode).Err?
    ensures forall i :: stopped <= i < |doc| ==> unchanged(doc[i])
    ensures forall i :: 0 <= i < stopped ==>
      if WillLink(old(doc[i].attrs), defaults) then Linked(doc[i]) else unchanged(doc[i])
    ensures forall i :: 0 <= i < stopped ==>
      anchors[i] == doc[i].isAnchor && olds[i] == old(doc[i].State()) && news[i] == doc[i].State()
    ensures caches[0] == old(r.cache) && r.cache == caches[stopped]
    ensures EnhanceWalked(anchors, olds, news, caches, defaults, r.env, r.now, v, decode)
  {
    caches := [r.cache];
    anchors, olds, news := [], [], [];
    var i := 0;
    while i < |doc|
      invariant 0 <= i <= |doc| && |anchors| == |olds| == |news| == i && |caches| == i + 1
      invariant forall k :: i <= k < |doc| ==> unchanged(doc[k])
      invariant forall k :: 0 <= k < i ==>
        if WillLink(old(doc[k].attrs), defaults) then Linked(doc[k]) else unchanged(doc[k])
      invariant forall k :: 0 <= k < i ==>
        anchors[k] == doc[k].isAnchor && olds[k] == old(doc[k].State()) && news[k] == doc[k].State()
      invariant caches[0] == old(r.cache) && r.cache == caches[i]
      invariant EnhanceWalked(anchors, olds, news, caches, defaults, r.env, r.now, v, decode)
    {
      var e;
      ghost var anchors', olds', news', caches';
      e, anchors', olds', news', caches' := EnhanceStep(r, doc, i, defaults, v, decode, anchors, olds, news, caches);
      if e.Some? {
        return e, i, anchors, olds, news, caches;
      }
      anchors, olds, news, caches := anchors', olds', news', caches';
      i := i + 1;
    }
    return None, |doc|, anchors, olds, news, caches;
  }

  /** `enhanceAll(defaults)` over the document's elements in order: each
      selected element is enhanced with its own `data-amazon-asin` and the
      shared defaults. There is no try around `enhance`, so the first
      element whose params do not decode stops the walk with the error;
      that element and all after it are left as they were. `stopped` is
      the index where the walk ended. The cache slot is carried from
      element to element: `caches[i]` is the slot element `i` finds, the
      first being the slot as the walk found it. */
  method EnhanceAll(r: Resolver, doc: seq<Element>, defaults: CallerOptions, v: Version, decode: string -> Option<string>)
    returns (err: Option<Error>, ghost stopped: nat, ghost caches: seq<Option<CacheEntry>>)
    requires forall i, j :: 0 <= i < j < |doc| ==> doc[i] != doc[j]
    modifies r`cache, set e | e in doc
    ensures stopped <= |doc| && |caches| == stopped + 1
    ensures err.Some? <==> stopped < |doc|
    ensures err.Some? ==>
      && err.value == UriError
      && Selected(old(doc[stopped].attrs))
      && ParsedParams(Data(old(doc[stopped].attrs), "data-amazon-params"), v, decode).Err?
      && StepOutcome(old(doc[stopped].attrs), defaults, caches[stopped], r.env, r.now, v, decode).Threw?
    ensures forall i :: stopped <= i < |doc| ==> unchanged(doc[i])
    ensures forall i :: 0 <= i < stopped ==>
      if WillLink(old(doc[i].attrs), defaults) then Linked(doc[i]) else unchanged(doc[i])
    ensures caches[0] == old(r.cache) && r.cache == caches[stopped]
    ensures forall i :: 0 <= i < stopped ==>
      && caches[i + 1] == StepCache(old(doc[i].attrs), defaults, caches[i], r.env, r.now, v, decode)
      && doc[i].State() == Applied(doc[i].isAnchor, old(doc[i].State()),
                                   StepOutcome(old(doc[i].attrs), defaults, caches[i], r.env, r.now, v, decode), defaults)
  {
    ghost var anchors, olds, news;
    err, stopped, anchors, olds, news, caches := WalkEnhance(r, doc, defaults, v, decode);
    if err.Some? {
      StepThrowsIff(old(doc[stopped].attrs), defaults, caches[stopped], r.env, r.now, v, decode);
    }
    EnhanceWalkedEach(anchors, olds, news, caches, defaults, r.env, r.now, v, decode);
    forall k | 0 <= k < stopped
      ensures caches[k + 1] == StepCache(old(doc[k].attrs), defaults, caches[k], r.env, r.now, v, decode)
      ensures doc[k].State() == Applied(doc[k].isAnchor, old(doc[k].State()),
                                        StepOutcome(old(doc[k].attrs), defaults, caches[k], r.env, r.now, v, decode), defaults)
    {
      assert EnhanceStepped(anchors[k], olds[k], news[k], caches[k], caches[k + 1], defaults, r.env, r.now, v, decode);
    }
  }
}
