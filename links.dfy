/** `buildUrl` (published as `url`): the storefront link for a product or a
    search, on the domain of the region the resolver settles on, with the
    associate tag and the caller's extra query parameters. */
module Links {
  import opened Js
  import opened Dicts
  import opened Stores
  import opened Region

  /** An `https` URL: the host, the path, and the query as ordered pairs
      (`u.searchParams`). Serialisation and percent-encoding are not
      modelled. */
  datatype Url = Url(host: string, path: string, query: Dict)

  /** The options `buildUrl` reads, with absent values written "" (every
      one of them is only tested for truthiness). `params` is the own
      enumerable entries of the params object, in enumeration order. */
  datatype LinkOptions = LinkOptions(
    region: string, search: string, forceSearch: bool, path: string, tag: string, params: Dict)

  /** Whether the search form of the link is built. */
  predicate UsesSearch(asin: string, opts: LinkOptions)
  {
    opts.search != "" && (asin == "" || opts.forceSearch)
  }

  /** The query after the tag and the extra parameters are set on `q`. */
  function WithParams(q: Dict, opts: LinkOptions): Dict
  {
    PutAll(if opts.tag != "" then Put(q, "tag", opts.tag) else q, opts.params)
  }

  /** The link for `asin` and `opts` once the region is resolved: a search
      page when there is a search and either no ASIN or a forced search,
      otherwise a product page under `path` (default "dp"), which needs an
      ASIN. */
  function UrlFor(asin: string, opts: LinkOptions, region: string): (r: Result<Url>)
    ensures r.Err? <==> asin == "" && opts.search == ""
    ensures r.Err? ==> r.error == MissingAsin
    ensures r.Ok? ==> r.value.host == DomainFor(region)
  {
    if UsesSearch(asin, opts) then
      Ok(Url(DomainFor(region), "/s", WithParams(Put([], "k", opts.search), opts)))
    else if asin == "" then Err(MissingAsin)
    else Ok(Url(DomainFor(region), "/" + Or(opts.path, "dp") + "/" + asin, WithParams([], opts)))
  }

  /** `buildUrl(asin, opts)`: resolve the region (which writes the cache
      slot as `detectRegion` does, even when the call then throws), choose
      the page, then set `tag` and each extra parameter in turn. */
  method BuildUrl(r: Resolver, asin: string, opts: LinkOptions) returns (res: Result<Url>)
    modifies r`cache
    ensures res == UrlFor(asin, opts, Resolve(opts.region, old(r.cache), r.env, r.now).code)
    ensures r.cache == CacheAfter(old(r.cache), Resolve(opts.region, old(r.cache), r.env, r.now), r.now)
  {
    var region := r.DetectRegion(opts.region);
    var domain := DomainFor(region);
    var path: string;
    var query: Dict;
    if opts.search != "" && (asin == "" || opts.forceSearch) {
      path := "/s";
      query := Put([], "k", opts.search);
    } else {
      var p := Or(opts.path, "dp");
      if asin == "" {
        return Err(MissingAsin);
      }
      path := "/" + p + "/" + asin;
      query := [];
    }
    ghost var start := query;
    if opts.tag != "" {
      query := Put(query, "tag", opts.tag);
    }
    var i := 0;
    while i < |opts.params|
      invariant 0 <= i <= |opts.params|
      invariant PutAll(query, opts.params[i..]) == WithParams(start, opts)
    {
      assert opts.params[i..][1..] == opts.params[i + 1..];
      query := Put(query, opts.params[i].0, opts.params[i].1);
      i := i + 1;
    }
    return Ok(Url(domain, path, query));
  }

  // ---------------------------------------------------------------------
  // properties of the link

  /** The page chosen: the search page exactly when there is a search and
      either no ASIN or a forced search; otherwise the product page under
      the given path or "dp". An ASIN and a search without `forceSearch`
      give the product page. */
  lemma PageChoice(asin: string, opts: LinkOptions, region: string)
    requires asin != "" || opts.search != ""
    ensures UrlFor(asin, opts, region).value.path ==
      if UsesSearch(asin, opts) then "/s" else "/" + Or(opts.path, "dp") + "/" + asin
    ensures asin != "" && !opts.forceSearch ==>
      UrlFor(asin, opts, region).value.path == "/" + Or(opts.path, "dp") + "/" + asin
  {
  }

  /** The host names the storefront the link was built for. */
  lemma HostNamesRegion(asin: string, opts: LinkOptions, region: string)
    requires IsStore(region) && UrlFor(asin, opts, region).Ok?
    ensures RegionOfDomain(UrlFor(asin, opts, region).value.host) == Some(region)
  {
    DomainRoundTrip(region);
  }

  /** Setting `tag` and the parameters keeps the query's keys unique. */
  lemma WithParamsUnique(q: Dict, opts: LinkOptions)
    requires UniqueKeys(q)
    ensures UniqueKeys(WithParams(q, opts))
  {
    var q' := if opts.tag != "" then Put(q, "tag", opts.tag) else q;
    if opts.tag != "" {
      PutUnique(q, "tag", opts.tag);
    }
    PutAllUnique(q', opts.params);
  }

  /** What each query key reads: an extra parameter wins over `tag` and
      `k`, then the tag, then the search words. Each key appears once, so a
      parameter named `tag` or `k` overwrites rather than duplicates. */
  lemma QueryValues(asin: string, opts: LinkOptions, region: string, key: string)
    requires UrlFor(asin, opts, region).Ok? && UniqueKeys(opts.params)
    ensures var q := UrlFor(asin, opts, region).value.query;
      UniqueKeys(q) &&
      Get(q, key) ==
        if Get(opts.params, key).Some? then Get(opts.params, key)
        else if key == "tag" && opts.tag != "" then Some(opts.tag)
        else if key == "k" && UsesSearch(asin, opts) then Some(opts.search)
        else None
  {
    var q := if UsesSearch(asin, opts) then Put([], "k", opts.search) else [];
    var q' := if opts.tag != "" then Put(q, "tag", opts.tag) else q;
    GetPutAll(q', opts.params, key);
    if opts.tag != "" {
      GetPut(q, "tag", opts.tag, key);
    }
    GetPut([], "k", opts.search, key);
    WithParamsUnique(q, opts);
  }

  /** The keys are set in the order `k`, `tag`, then the parameters, and
      overwriting a key keeps its place: the search key comes first, and
      the tag comes right after it (or first on a product page). */
  lemma QueryOrder(asin: string, opts: LinkOptions, region: string)
    requires UrlFor(asin, opts, region).Ok?
    ensures var keys := Keys(UrlFor(asin, opts, region).value.query);
      && (UsesSearch(asin, opts) ==> |keys| >= 1 && keys[0] == "k")
      && (opts.tag != "" ==> |keys| >= 1 && if UsesSearch(asin, opts) then |keys| >= 2 && keys[1] == "tag" else keys[0] == "tag")
  {
    var q := if UsesSearch(asin, opts) then Put([], "k", opts.search) else [];
    var q' := if opts.tag != "" then Put(q, "tag", opts.tag) else q;
    assert UrlFor(asin, opts, region).value.query == PutAll(q', opts.params);
    assert Keys(q) == if UsesSearch(asin, opts) then ["k"] else [];
    assert UniqueKeys(q);
    if opts.tag != "" {
      PutKeys(q, "tag", opts.tag);
      PutUnique(q, "tag", opts.tag);
    }
    assert UsesSearch(asin, opts) ==> |Keys(q')| >= 1 && Keys(q')[0] == "k";
    assert opts.tag != "" ==> |Keys(q')| >= 1 && if UsesSearch(asin, opts) then |Keys(q')| >= 2 && Keys(q')[1] == "tag" else Keys(q')[0] == "tag";
    PutAllKeepsOrder(q', opts.params);
  }
}
