# Amazon Store Router, modelled in Dafny

The Amazon Store Router is a small browser library. It sends a visitor to
the Amazon storefront for their country. It has three published builds:

- v1.0.0 (UMD);
- v1.1.0 (UMD), which adds the store grid;
- v1 (ESM), which also has the grid.

This project models the library's logic and proves properties of it:

- **Region detection** (`detectRegion`) runs a cascade. The order is:
  a valid override, then a cached decision at most thirty days old, then the
  browser languages against the ordered locale table, then the time zone,
  and finally UK. It reads and writes a single persisted cache slot.
- **Link building** (`buildUrl`, published as `url`) makes a product page
  or a search page on the chosen storefront's domain. It adds the associate
  tag and the extra query parameters, set in order with
  `URLSearchParams.set` semantics.
- **Parameter parsing** (`parseParams`) reads the `data-amazon-params`
  attribute. Splitting, the empty-key skip and last-wins assignment are
  modelled. So is each build's replacement step before decoding.
- **`enhance` / `enhanceAll`** merge the element's data attributes over the
  caller's options and build the link. Then they update the element: an
  anchor gets `href`, `target` and `rel`; any other element gets a click
  handler. Blank text gets a default label, and the region is recorded.
- **`renderStoreGrid` / `renderStoreGridAll`** (v1.1.0 and ESM) list one
  anchor per admitted storefront. The visitor's storefront can come first,
  and the rest are in code order.

Modules:

| module | file | contents |
|---|---|---|
| `Js` | `js.dfy` | the JavaScript conventions the code relies on: `\|\|` and `??` on absent values, `split`, `trim`, `toUpperCase`, and the two regular-expression shapes |
| `Dicts` | `dicts.dfy` | ordered string dictionaries, used both for plain objects and for `searchParams` |
| `Stores` | `stores.dfy` | STORES, LOCALE_MAP, labels, and the three builds |
| `Region` | `region.dfy` | the cascade as a function (`Resolve`) and as the imperative `Resolver.DetectRegion`, over a `Resolver` object that holds the cache slot, the clock and the browser signals |
| `Links` | `links.dfy` | `buildUrl` |
| `Params` | `params.dfy` | `parseParams` |
| `Dom` | `dom.dfy` | the element state the library reads and writes |
| `Enhancer` | `enhancer.dfy` | `enhance` and `enhanceAll` |
| `Grid` | `grid.dfy` | the grid |

The methods change the `Resolver`'s cache slot and `Element` objects in
place. Each method is proved against a specification function of the old
state, and the properties are proved about those functions.

## Model

| member | source | states |
|---|---|---|
| Js.Split | docs/js/amazon-store/v1.1.0/amazon-store.min.js:98-99 | `split` on one character always yields at least one piece |
| Js.SplitSpec | docs/js/amazon-store/v1.1.0/amazon-store.min.js:98-99 | no piece holds the separator, and joining the pieces with it gives the input back |
| Js.SplitNoSeparator | docs/js/amazon-store/v1.1.0/amazon-store.min.js:99 | text without the separator splits to itself alone |
| Js.SplitAfterFirst | docs/js/amazon-store/v1.1.0/amazon-store.min.js:99 | the first piece is the text before the first separator, and the rest are the pieces of what follows it |
| Js.SplitJoin | docs/js/amazon-store/v1.1.0/amazon-store.min.js:162 | splitting the pieces joined with the separator gives back the same pieces, if none of them holds it |
| Js.TrimStartSpec | docs/js/amazon-store/v1.1.0/amazon-store.min.js:134 | the leading part removed is all white space, and what remains is a suffix that does not start with white space |
| Js.TrimEndSpec | docs/js/amazon-store/v1.1.0/amazon-store.min.js:134 | the trailing part removed is all white space, and what remains is a prefix that does not end with white space |
| Js.TrimEmpty | docs/js/amazon-store/v1.1.0/amazon-store.min.js:134 | a text trims to "" exactly when every character in it is white space |
| Dicts.Without | docs/js/amazon-store/v1.1.0/amazon-store.min.js:85 | the key is gone, every other key reads as it did before, and no new keys appear |
| Dicts.InKeys | docs/js/amazon-store/v1.1.0/amazon-store.min.js:92 | a key is among the keys exactly when reading it finds a value |
| Dicts.GetPut | docs/js/amazon-store/v1.1.0/amazon-store.min.js:91 | after a set, the key reads the new value and every other key is unchanged |
| Dicts.WithoutAbsent | docs/js/amazon-store/v1.1.0/amazon-store.min.js:92 | removing a key that is absent changes nothing |
| Dicts.Put | docs/js/amazon-store/v1.1.0/amazon-store.min.js:91 | `searchParams.set(k, v)` and `o[k] = v`: a present key takes the new value in its place and later copies are dropped, a new key is appended; its properties are GetPut, PutKeys and PutUnique |
| Dicts.PutKeys | docs/js/amazon-store/v1.1.0/amazon-store.min.js:91 | with unique keys, setting a present key keeps its position, and setting a new key appends it at the end |
| Dicts.PutUnique | docs/js/amazon-store/v1.1.0/amazon-store.min.js:91 | setting a key never creates a duplicate |
| Dicts.GetPutAll | docs/js/amazon-store/v1.1.0/amazon-store.min.js:92 | after all the params are set, a param key reads its value and every other key reads what it did before |
| Dicts.PutAllUnique | docs/js/amazon-store/v1.1.0/amazon-store.min.js:92 | setting params keeps the keys unique |
| Dicts.GetPutAllLast | docs/js/amazon-store/v1.1.0/amazon-store.min.js:100 | when the same key is assigned more than once, the last value assigned wins |
| Dicts.PutAllKeepsOrder | docs/js/amazon-store/v1.1.0/amazon-store.min.js:92 | setting params never moves a key already present: the old keys stay a prefix of the new ones |
| Dicts.AssignMerges | docs/js/amazon-store/v1.1.0/amazon-store.min.js:116 | `Object.assign({}, a, b)` has unique keys and takes each key from `b` if `b` has it, otherwise from `a` |
| Stores.StoreCodes | docs/js/amazon-store/v1.1.0/amazon-store.min.js:13-27 | STORES holds exactly the thirteen listed codes, and each entry is filed under its own code |
| Stores.DomainRoundTrip | docs/js/amazon-store/v1.1.0/amazon-store.min.js:13-27 | each store's domain maps back to that store's code |
| Stores.DomainInjective | docs/js/amazon-store/v1.1.0/amazon-store.min.js:13-27 | no two stores share a domain |
| Stores.Label | docs/js/amazon-store/v1.1.0/amazon-store.min.js:76 | `label(code)`; LabelOf states what it returns |
| Stores.LabelOf | docs/js/amazon-store/v1.1.0/amazon-store.min.js:76 | the label is "Amazon " plus the store name, and an unknown code gets the UK label |
| Stores.RuleCodesAreStores | docs/js/amazon-store/v1.1.0/amazon-store.min.js:29-33 | every code in LOCALE_MAP is a store |
| Region.CachedCode | docs/js/amazon-store/v1.1.0/amazon-store.min.js:38-47 | `getCache()`: no code for a missing entry, a falsy code or ts, or an entry more than 30 days old; FreshCacheWins and StaleCacheIgnored state its effect on the cascade |
| Region.FirstRule | docs/js/amazon-store/v1.1.0/amazon-store.min.js:63-66 | a code found is a storefront (FirstRuleNone and FirstRuleFirst state which one) |
| Region.MatchLanguages | docs/js/amazon-store/v1.1.0/amazon-store.min.js:61-67 | any code found is a store |
| Region.TimeZoneRegion | docs/js/amazon-store/v1.1.0/amazon-store.min.js:68-73 | the time-zone tier; TimeZoneTier, EuropeExample, AmericaExample and OtherZoneExample state its answers |
| Region.Resolve | docs/js/amazon-store/v1.1.0/amazon-store.min.js:55-74 | every path of the cascade ends at a store |
| Region.Resolver.SetCache | docs/js/amazon-store/v1.1.0/amazon-store.min.js:48-53 | the slot then holds the code stamped with the current time |
| Region.Resolver.DetectRegion | docs/js/amazon-store/v1.1.0/amazon-store.min.js:55-74 | the nested loops and early returns give the code `Resolve` decides, and the cache slot is rewritten on every path except a cache hit |
| Region.OverrideWins | docs/js/amazon-store/v1.1.0/amazon-store.min.js:56 | a truthy override that is a store wins and is saved |
| Region.FreshCacheWins | docs/js/amazon-store/v1.1.0/amazon-store.min.js:43-45 | without a valid override, a cached store with a truthy code and ts, at most 30 days old, is returned and not rewritten |
| Region.StaleCacheIgnored | docs/js/amazon-store/v1.1.0/amazon-store.min.js:41-44 | an entry that is stale, has a falsy code or ts, or names no store acts exactly like no entry |
| Region.TimeZoneTier | docs/js/amazon-store/v1.1.0/amazon-store.min.js:68-73 | with nothing cached and no language matching, the time zone decides, and the result is saved |
| Region.FirstRuleNone | docs/js/amazon-store/v1.1.0/amazon-store.min.js:63-66 | from any rule on, nothing is found exactly when none of the remaining rules matches the language |
| Region.FirstRuleFirst | docs/js/amazon-store/v1.1.0/amazon-store.min.js:63-66 | from any rule on, the first of the remaining rules that matches, in table order, decides |
| Region.MatchLanguagesNone | docs/js/amazon-store/v1.1.0/amazon-store.min.js:61-67 | no locale result exactly when no rule matches any language |
| Region.MatchLanguagesFirst | docs/js/amazon-store/v1.1.0/amazon-store.min.js:61-67 | the first match in language-major order decides |
| Region.ResolveStable | docs/js/amazon-store/v1.1.0/amazon-store.min.js:130 | resolving again at the same moment (enhance calls `detectRegion` a second time) gives the same code and leaves the slot unchanged |
| Region.OverrideRemembered | docs/js/amazon-store/v1.1.0/amazon-store.min.js:56-57 | for 30 days, a valid override is returned from the cache, whatever the browser says |
| Region.RuleFailsAt | docs/js/amazon-store/v1.1.0/amazon-store.min.js:29-33 | a rule fails once one character of its prefix is missing or differs, ignoring ASCII case |
| Region.EnglishWithoutRegionMatchesNothing | docs/js/amazon-store/v1.1.0/amazon-store.min.js:30 | "en" and "en-IE" match no rule |
| Region.IrishEnglishMatchesNoRule | docs/js/amazon-store/v1.1.0/amazon-store.min.js:29-33 | no rule of LOCALE_MAP matches "en-IE" |
| Region.LaterLanguageExample | docs/js/amazon-store/v1.1.0/amazon-store.min.js:61-67 | ["en-IE", "fr-FR"] gives FR: a language that matches nothing is passed over |
| Region.EarlierLanguageExample | docs/js/amazon-store/v1.1.0/amazon-store.min.js:61-67 | ["fr-FR", "en-US"] gives FR: the visitor's first matching language wins |
| Region.NewZealandExample | docs/js/amazon-store/v1.1.0/amazon-store.min.js:30 | "en-NZ" goes to AU |
| Region.BrazilExample | docs/js/amazon-store/v1.1.0/amazon-store.min.js:32 | "pt_BR" goes to BR |
| Region.MissingCharNotContained | docs/js/amazon-store/v1.1.0/amazon-store.min.js:70-71 | a pattern that needs a character the zone name lacks does not match |
| Region.EuropeExample | docs/js/amazon-store/v1.1.0/amazon-store.min.js:70 | Europe/Paris gives UK |
| Region.AmericaExample | docs/js/amazon-store/v1.1.0/amazon-store.min.js:71 | America/New_York gives US |
| Region.OtherZoneExample | docs/js/amazon-store/v1.1.0/amazon-store.min.js:73 | Asia/Tokyo falls back to UK |
| Links.UrlFor | docs/js/amazon-store/v1.1.0/amazon-store.min.js:81-90 | it throws (MissingAsin) exactly when there is neither an ASIN nor a search; otherwise the host is the region's domain, or UK's |
| Links.BuildUrl | docs/js/amazon-store/v1.1.0/amazon-store.min.js:78-94 | the result is `UrlFor` for the region `detectRegion` resolves, and the cache slot is written even when the call then throws |
| Links.PageChoice | docs/js/amazon-store/v1.1.0/amazon-store.min.js:83-90 | a search page exactly when there is a search and either no ASIN or `forceSearch`; otherwise `/path/asin` with path defaulting to "dp" |
| Links.HostNamesRegion | docs/js/amazon-store/v1.1.0/amazon-store.min.js:81 | the link's host names the store it was built for |
| Links.WithParamsUnique | docs/js/amazon-store/v1.1.0/amazon-store.min.js:91-92 | setting the tag and the params keeps the query keys unique |
| Links.QueryValues | docs/js/amazon-store/v1.1.0/amazon-store.min.js:85-92 | a param beats the tag, which beats `k`; each key appears once |
| Links.QueryOrder | docs/js/amazon-store/v1.1.0/amazon-store.min.js:85-92 | `k` comes first and `tag` next: keys already set never move |
| Params.PlusToSpace | docs/js/amazon-store/v1/amazon-store.esm.min.js:83 | ESM replacement step; PlusToSpaceSpec states it |
| Params.CollapseBackslashes | docs/js/amazon-store/v1.0.0/amazon-store.js:100 | UMD replacement step (each run of backslashes becomes one space); CollapseBackslashesSpec, BackslashRun and CollapseBackslashesIdentity state it |
| Params.PlusToSpaceSpec | docs/js/amazon-store/v1/amazon-store.esm.min.js:83 | ESM: every `+` becomes a space and every other character stays where it was |
| Params.CollapseBackslashesSpec | docs/js/amazon-store/v1.0.0/amazon-store.js:100 | UMD: no backslash is left, and every character that is neither a backslash nor a space, `+` included, keeps its count |
| Params.CollapseBackslashesIdentity | docs/js/amazon-store/v1.0.0/amazon-store.js:100 | UMD: text with no backslash is unchanged |
| Params.CollapseAfterPlain | docs/js/amazon-store/v1.0.0/amazon-store.js:100 | UMD: a prefix without backslashes passes through unchanged, and the rest is replaced on its own |
| Params.CollapseRun | docs/js/amazon-store/v1.0.0/amazon-store.js:100 | UMD: a run of n >= 1 backslashes that is not followed by another becomes one space |
| Params.BackslashRun | docs/js/amazon-store/v1.0.0/amazon-store.js:100 | UMD: each maximal run of backslashes becomes a single space, and the text around it is kept |
| Params.BackslashRunExample | docs/js/amazon-store/v1.0.0/amazon-store.js:100 | UMD: `a\\\b` (three backslashes) becomes "a b" |
| Params.PlusKeptInUmd | docs/js/amazon-store/v1.1.0/amazon-store.min.js:100 | "a+b" stays "a+b" in the UMD builds but becomes "a b" in the ESM build |
| Params.Pairs | docs/js/amazon-store/v1.1.0/amazon-store.min.js:98-100 | the only thing that can fail is decoding, and it fails with a URIError; no pair carries the key `__proto__`, which the assignment `o[k] = …` hands to the prototype setter |
| Params.BadPiece | docs/js/amazon-store/v1.1.0/amazon-store.min.js:99-100 | a piece that throws: its key is not empty, and the key or the replaced value does not decode |
| Params.PairsFails | docs/js/amazon-store/v1.1.0/amazon-store.min.js:98-100 | the pieces fail exactly when some piece is a BadPiece |
| Params.ParsedParams | docs/js/amazon-store/v1.1.0/amazon-store.min.js:96-102 | `parseParams(str)`; ParseParams, ParsedParamsFails, ParsedUnique and ParsedLastWins state it |
| Params.ParseParams | docs/js/amazon-store/v1.1.0/amazon-store.min.js:96-102 | the loop of assignments builds the parsed object, or stops with the URIError |
| Params.ParsedParamsFails | docs/js/amazon-store/v1.1.0/amazon-store.min.js:96-102 | `parseParams` throws exactly when the attribute is not empty and one of its `&` pieces is a BadPiece |
| Params.ParsedUnique | docs/js/amazon-store/v1.1.0/amazon-store.min.js:96-102 | the parsed object never has a key twice |
| Params.ParsedLastWins | docs/js/amazon-store/v1.1.0/amazon-store.min.js:98-100 | each key reads the value of its last occurrence |
| Params.PieceSplit | docs/js/amazon-store/v1.1.0/amazon-store.min.js:99-100 | the key is the text before the first `=`, and the value is the text up to the second `=` |
| Params.SplitTwoFields | docs/js/amazon-store/v1.1.0/amazon-store.min.js:99 | two fields without `=` and a tail split into those two fields followed by the tail's own pieces |
| Params.OnePair | docs/js/amazon-store/v1.1.0/amazon-store.min.js:99-100 | `k=v` (or `k=v=more`) gives the decoded key and the decoded value after replacement, or nothing when the key decodes to `__proto__`; anything after a second `=` is dropped |
| Params.ProtoKeyNotParsed | docs/js/amazon-store/v1.1.0/amazon-store.min.js:96-100 | the parsed object never has a `__proto__` key: on the `{}` literal that assignment reaches the prototype setter, which ignores a string |
| Params.ProtoPieceIgnored | docs/js/amazon-store/v1.1.0/amazon-store.min.js:96-100 | `__proto__=x` parses to the empty object |
| Params.EmptyKeySkipped | docs/js/amazon-store/v1.1.0/amazon-store.min.js:100 | a piece with an empty key, like `=x`, adds nothing |
| Enhancer.Merged | docs/js/amazon-store/v1.1.0/amazon-store.min.js:111-118 | `finalOpts`: each data attribute `||` the option, params merged with `Object.assign`, no `forceSearch`; QueryPrecedence and ForceSearchNotForwarded state its effect |
| Enhancer.EnhanceResult | docs/js/amazon-store/v1.1.0/amazon-store.min.js:116-130 | the outcome of `enhance`: a URIError, a skip, or `{region, href}`; ThrowsOnlyOnBadParams, SkippedIff and RegionMatchesHref state it |
| Enhancer.NewText | docs/js/amazon-store/v1.1.0/amazon-store.min.js:134 | the new text; DefaultText states it |
| Enhancer.Applied | docs/js/amazon-store/v1.1.0/amazon-store.min.js:132-139 | the element's fields after an outcome; Enhance, EnhanceOne and EnhanceAll state the element ends in this state |
| Enhancer.Enhance | docs/js/amazon-store/v1.1.0/amazon-store.min.js:104-141 | the outcome and the slot follow the option merge, params parse and link build; nothing changes when it throws or skips; otherwise the element ends as Applied gives: an anchor gets href/target/rel, anything else gets a click handler, blank text gets the default label, and data-amazon-region is set |
| Enhancer.WriteLink | docs/js/amazon-store/v1.1.0/amazon-store.min.js:132-139 | the writes made once there is a link leave the element exactly as Applied gives for that link |
| Enhancer.ThrowsOnlyOnBadParams | docs/js/amazon-store/v1.1.0/amazon-store.min.js:116 | enhance throws (URIError) exactly when the params attribute fails to decode, and the cache slot is then untouched |
| Enhancer.SkippedIff | docs/js/amazon-store/v1.1.0/amazon-store.min.js:120-128 | nothing is linked exactly when there is neither an ASIN nor a search, yet the region was already resolved and saved |
| Enhancer.RegionMatchesHref | docs/js/amazon-store/v1.1.0/amazon-store.min.js:130-139 | the region that is returned and recorded is a store, and the link's host is that store's domain |
| Enhancer.ForceSearchNotForwarded | docs/js/amazon-store/v1.1.0/amazon-store.min.js:118 | `forceSearch` is not passed on, so an ASIN always gives the product page |
| Enhancer.AsinArgumentWins | docs/js/amazon-store/v1.1.0/amazon-store.min.js:121 | the argument ASIN beats data-amazon-asin |
| Enhancer.QueryPrecedence | docs/js/amazon-store/v1.1.0/amazon-store.min.js:111-118 | attribute params beat option params, which beat the tag (attribute before option), which beats the search words |
| Enhancer.DefaultText | docs/js/amazon-store/v1.1.0/amazon-store.min.js:134 | text that is not blank is kept; blank text becomes the text option or "Buy now on Amazon <name>" |
| Enhancer.StepOutcome | docs/js/amazon-store/v1.1.0/amazon-store.min.js:145-148 | what `enhanceAll` makes of one element: `enhance` with its own ASIN if the selector picks it, nothing otherwise |
| Enhancer.StepCache | docs/js/amazon-store/v1.1.0/amazon-store.min.js:145-148 | the slot after `enhanceAll` has dealt with one element |
| Enhancer.StepThrowsIff | docs/js/amazon-store/v1.1.0/amazon-store.min.js:145-148 | a step throws exactly on a selected element whose params do not decode, and then leaves the slot as it was; an element that is not selected changes nothing |
| Enhancer.EnhanceOne | docs/js/amazon-store/v1.1.0/amazon-store.min.js:146-149 | it throws exactly when StepOutcome does; the slot ends as StepCache gives and the element as Applied gives for StepOutcome; a selected element that gets a link is linked to the store it records; an element that gets none is left as it was; an error is a URIError from the params |
| Enhancer.EnhanceWalkedEach | docs/js/amazon-store/v1.1.0/amazon-store.min.js:146-149 | in a recorded walk, each element stepped from the slot the one before it left |
| Enhancer.EnhanceWalkedExtend | docs/js/amazon-store/v1.1.0/amazon-store.min.js:146-149 | a recorded walk extends by one element that steps from the slot it ends with |
| Enhancer.EnhanceStep | docs/js/amazon-store/v1.1.0/amazon-store.min.js:146-149 | one turn of the loop: the element is dealt with, no other element changes, and the recorded walk grows by that element unless it threw |
| Enhancer.WalkEnhance | docs/js/amazon-store/v1.1.0/amazon-store.min.js:143-150 | the loop stops at the first element that throws; before it, every element is recorded in the walk and linked or left alone; it and everything after it are untouched |
| Enhancer.EnhanceAll | docs/js/amazon-store/v1.1.0/amazon-store.min.js:143-150 | the walk stops at the first element whose params fail to decode; the slot is carried from element to element: each element before the stop ends as Applied gives for StepOutcome from the slot it found, and leaves the slot StepCache gives; that element and everything after it are untouched |
| Grid.IncludeList | docs/js/amazon-store/v1.1.0/amazon-store.min.js:161-162 | the allow-list; IncludeListSpec, IncludeListPieces and IncludeListExample state it |
| Grid.EntryClean | docs/js/amazon-store/v1.1.0/amazon-store.min.js:162 | an allow-list entry holds no comma, no ASCII lower-case letter and no white space at either end |
| Grid.IncludeListSpec | docs/js/amazon-store/v1.1.0/amazon-store.min.js:161-162 | no allow-list exactly when the attribute is blank; otherwise at least one entry, each with no comma, no ASCII lower-case letter and no outer white space |
| Grid.IncludeListPieces | docs/js/amazon-store/v1.1.0/amazon-store.min.js:161-162 | the entries are the attribute's comma-separated pieces, each trimmed and upper-cased: there are comma-free pieces, one per entry, that joined with commas give back the trimmed attribute |
| Grid.TrimsOfExample | docs/js/amazon-store/v1.1.0/amazon-store.min.js:161-162 | the trims of " us, de" and its pieces |
| Grid.SplitOfExample | docs/js/amazon-store/v1.1.0/amazon-store.min.js:162 | "us, de" splits on `,` into "us" and " de" |
| Grid.IncludeListExample | docs/js/amazon-store/v1.1.0/amazon-store.min.js:161-162 | " us, de" lists US and DE |
| Grid.SettingsOf | docs/js/amazon-store/v1.1.0/amazon-store.min.js:156-169 | the settings from options and dataset; SettingsPrecedence states them |
| Grid.SettingsPrecedence | docs/js/amazon-store/v1.1.0/amazon-store.min.js:157-169 | an option given (even as "") wins over the dataset entry; `currentFirst` is on unless the option is false or, with no option, the dataset says "false"; `newTab` is on unless the option turns it off |
| Grid.SettingsExample | docs/js/amazon-store/v1.1.0/amazon-store.min.js:157-169 | no options and an empty dataset list every store, current first, in a new tab; a "" search option hides the dataset search; a dataset "false" turns `currentFirst` off |
| Grid.LessIrreflexive | docs/js/amazon-store/v1.1.0/amazon-store.min.js:175-176 | no code sorts before itself |
| Grid.LessTransitive | docs/js/amazon-store/v1.1.0/amazon-store.min.js:175-176 | the order is transitive |
| Grid.LessTotal | docs/js/amazon-store/v1.1.0/amazon-store.min.js:175-176 | of any two different codes, one sorts first |
| Grid.ChainAscending | docs/js/amazon-store/v1.1.0/amazon-store.min.js:176 | if each neighbour is in order, the whole list is ascending |
| Grid.AscendingTail | docs/js/amazon-store/v1.1.0/amazon-store.min.js:176 | the tail of an ascending list is ascending, and the head comes before it |
| Grid.AscendingCons | docs/js/amazon-store/v1.1.0/amazon-store.min.js:176 | a code smaller than everything in the list can go at the front |
| Grid.LessOfPair | docs/js/amazon-store/v1.1.0/amazon-store.min.js:176 | two-letter codes compare by first letter, then by second |
| Grid.CodesAscending | docs/js/amazon-store/v1.1.0/amazon-store.min.js:13-27 | STORES lists its codes in ascending order |
| Grid.KeepSpec | docs/js/amazon-store/v1.1.0/amazon-store.min.js:173 | from any index on, the filter keeps exactly the allowed codes of the rest of the list, and keeps an ascending list ascending |
| Grid.Listed | docs/js/amazon-store/v1.1.0/amazon-store.min.js:172-173 | the admitted stores in STORES order; ListedSpec states it |
| Grid.ListedSpec | docs/js/amazon-store/v1.1.0/amazon-store.min.js:172-173 | the listed codes are exactly the allowed stores, in ascending order |
| Grid.RemoveSpec | docs/js/amazon-store/v1.1.0/amazon-store.min.js:174-176 | removing drops exactly that code and keeps the list ascending |
| Grid.GridOrder | docs/js/amazon-store/v1.1.0/amazon-store.min.js:174-176 | the order the sort produces; GridOrderSpec, OrderEntries and EntriesAreGridOrder state it |
| Grid.GridOrderSpec | docs/js/amazon-store/v1.1.0/amazon-store.min.js:174-176 | the grid order has exactly the listed codes; the current store is first exactly when it is listed and either `currentFirst` is set or it is already first; the order follows the comparator |
| Grid.BeforeAsymmetric | docs/js/amazon-store/v1.1.0/amazon-store.min.js:174-176 | the comparator never ranks two codes each before the other |
| Grid.SortedUnique | docs/js/amazon-store/v1.1.0/amazon-store.min.js:174-176 | a list sorted by the comparator is fixed by its codes, whatever the sort algorithm |
| Grid.OrderEntries | docs/js/amazon-store/v1.1.0/amazon-store.min.js:171-176 | the entries are exactly the allowed stores, ordered by the comparator |
| Grid.EntriesAreGridOrder | docs/js/amazon-store/v1.1.0/amazon-store.min.js:172-176 | the allowed stores, sorted by the comparator, come out in the grid order |
| Grid.GridOrderExample | docs/js/amazon-store/v1.1.0/amazon-store.min.js:172-176 | allow-list US,DE,XX with the visitor in US: XX is dropped, and US leads only when `currentFirst` is set |
| Grid.GridUrlIsBuilt | docs/js/amazon-store/v1.1.0/amazon-store.min.js:180-181 | each anchor's URL is what buildUrl returns with that store forced, no path and no params, dropping the ASIN when there is a search |
| Grid.LinkFor | docs/js/amazon-store/v1.1.0/amazon-store.min.js:179-187 | the anchor for one store; LinkForSpec states it |
| Grid.LinkForSpec | docs/js/amazon-store/v1.1.0/amazon-store.min.js:179-187 | each anchor reads "Amazon <name>", carries data-store = code, points to that store's domain and links the search or the dp page, with the tag if there is one |
| Grid.GridLinks | docs/js/amazon-store/v1.1.0/amazon-store.min.js:179-188 | one anchor per code |
| Grid.GridLinksStores | docs/js/amazon-store/v1.1.0/amazon-store.min.js:186 | the anchors' data-store codes are the entries, in the same order |
| Grid.AppendLink | docs/js/amazon-store/v1.1.0/amazon-store.min.js:180-187 | it fails (MissingAsin) exactly when there is neither an ASIN nor a search, leaving the node unchanged; otherwise it appends the anchor and its text; either way the slot holds this code |
| Grid.FillGrid | docs/js/amazon-store/v1.1.0/amazon-store.min.js:178-188 | the node is cleared and then gets one anchor per entry; it fails only when there is an entry but neither an ASIN nor a search, leaving the node empty; the slot ends with the last code, or the first on failure |
| Grid.RenderStoreGrid | docs/js/amazon-store/v1.1.0/amazon-store.min.js:152-189 | the entries are exactly the allowed stores, in the comparator's order for the visitor's store; on success the node shows the grid order's anchors; the only error is MissingAsin with an empty node; the slot ends with the last code shown |
| Grid.SlotAfterGrid | docs/js/amazon-store/v1.1.0/amazon-store.min.js:171-188 | the slot after one element of `renderStoreGridAll`; GridOne, RenderLeavesLast and NextGridLeadsWithLastShown state it |
| Grid.GridOne | docs/js/amazon-store/v1.1.0/amazon-store.min.js:192-193 | `current` is the storefront detectRegion gives from the slot found, and the slot ends as SlotAfterGrid gives; a grid element is rendered for `current`, stopping only on MissingAsin with an empty node; any other element is left alone and the slot is untouched |
| Grid.GridStep | docs/js/amazon-store/v1.1.0/amazon-store.min.js:192-193 | GridOne on one element of the document: it steps as GridStepped says unless it fails, and no other element changes |
| Grid.WalkedEach | docs/js/amazon-store/v1.1.0/amazon-store.min.js:192-193 | in a recorded walk, each grid stepped from the slot the one before it left |
| Grid.WalkedExtend | docs/js/amazon-store/v1.1.0/amazon-store.min.js:192-193 | a recorded walk extends by one element that steps from the slot it ends with |
| Grid.WalkStep | docs/js/amazon-store/v1.1.0/amazon-store.min.js:192-193 | one turn of the loop: GridStep, and the recorded walk grows by the element unless it failed |
| Grid.WalkGrids | docs/js/amazon-store/v1.1.0/amazon-store.min.js:191-194 | the loop stops at the first grid that fails; before it, every element is recorded in the walk; everything after it is untouched |
| Grid.RenderStoreGridAll | docs/js/amazon-store/v1.1.0/amazon-store.min.js:191-194 | the walk stops at the first grid that can build no link, leaving it empty; the slot is carried from element to element: each element before the stop renders for the storefront detectRegion gives from the slot it found, and leaves the slot SlotAfterGrid gives; every other element is untouched; everything after the stop is untouched |
| Grid.NextGridLeadsWithLastShown | docs/js/amazon-store/v1.1.0/amazon-store.min.js:171-188 | after a grid that showed anchors, the next detectRegion returns the last store shown, from the slot and not rewritten, as long as the clock is not 0 |
| Grid.RenderLeavesLast | docs/js/amazon-store/v1.1.0/amazon-store.min.js:180-187 | once a grid that linked a product has drawn its anchors, the slot holds the last store drawn, stamped with the current time, so the next detectRegion returns that store without persisting it again |
| Grid.GridOrderStores | docs/js/amazon-store/v1.1.0/amazon-store.min.js:172-176 | every code the grid draws, in its order, is a storefront |
| Grid.NextGridLeadsWithLast | docs/js/amazon-store/v1.1.0/amazon-store.min.js:171 | after a grid, the next detectRegion returns the last code shown, from the cache, as long as the clock is not 0 |
| Grid.GridMovesVisitor | docs/js/amazon-store/v1.1.0/amazon-store.min.js:171-188 | as written, a grid whose last anchor is not the visitor's storefront makes the next detectRegion give another storefront |
| Grid.SlotAfterGridIntended | docs/js/amazon-store/v1.1.0/amazon-store.min.js:171-188 | the slot when forcing a grid anchor's storefront is not remembered: as the grid's own detectRegion left it; GridKeepsVisitorIntended states its effect |
| Grid.GridKeepsVisitorIntended | docs/js/amazon-store/v1.1.0/amazon-store.min.js:171-188 | with that slot, the next detectRegion gives the same storefront the grid found, while the clock is not 0 |

## Left out

- URL serialisation (`URL.toString`, percent-encoding of the path and query): a link is modelled as its host, path and ordered query pairs.
- `decodeURIComponent` is a parameter (`decode`), returning None where it would throw a URIError. Its UTF-8 decoding is not modelled.
- `localStorage` and JSON are not modelled; the cache is one slot holding an optional `{code, ts}` entry:
  - storage that is missing or throws, and JSON that does not parse, are modelled as an empty slot (the code catches those errors and treats them as a miss);
  - a timestamp that is not an integer cannot be represented.
- `Date.now()`, `navigator.languages`/`navigator.language` and the time-zone lookup come in as fields of the `Resolver`; the clock does not advance during a call. The ESM build's `navigator || {}` would throw when `navigator` is undeclared; that case is not modelled.
- `document.querySelector` and selector strings are not modelled. Elements are passed in directly, and the early return on a missing node is not modelled.
- `enhanceAll` and `renderStoreGridAll` take the matching document as a sequence of distinct elements, not from `querySelectorAll`.
- `window.open` inside the click handler is not run: the handler is recorded as the URL it would open.
- `innerHTML = ''` and `textContent` on the grid node are modelled as an empty child list and the concatenated anchor texts. Other DOM structure is not modelled.
- JavaScript values are not modelled at full generality:
  - `enhance` options that are absent, `null` or `undefined` are written as "";
  - grid options are None when `undefined`, and also when `null` except for `currentFirst`: that one is tested with `!== undefined`, so a `null` there is `Some(false)`;
  - `newTab` and `currentFirst` options hold only the truthiness of the value given;
  - `String(v)` on param values is not modelled, and values are strings;
  - inherited (prototype) keys of an options object are ignored;
  - integer-like keys, which JavaScript enumerates first, keep insertion order.
- `toUpperCase` is modelled one character to one character: the ASCII letters, plus dotless i and long s, which upper-case to `I` and `S`. Every other character is left unchanged, including non-ASCII lower-case letters such as `é`. So are the characters JavaScript expands to several letters: `ß` to `SS`, and the ligatures U+FB00 to U+FB06 to `FF`, `FI`, `FL`, `FFI`, `FFL`, `ST` and `ST`. Which storefronts an allow-list admits is unchanged. An entry holding one of these characters is not a STORES code in the model. In the source it becomes an entry with `SS`, `FF`, `FI`, `FL` or `ST` in it, or an entry with a non-ASCII letter, and none of these is a STORES code either.
- `localeCompare` is modelled as ordinal string order, which agrees with it on the two-letter upper-case codes of STORES.
- The UMD and ESM module wrappers, and the exported `STORES` object, are not modelled.
- v1.0.0 has no grid. The grid methods require a build that has one (`Version.HasGrid`).
- Region.Resolver.SetCache: the write always succeeds. The source skips it when `localStorage` is undefined (v1.1.0 line 50) and ignores a `setItem` that throws (v1.1.0 line 52); then the slot keeps its old entry, which the model does not capture.
- STORES lookups (`STORES[code]`) also find inherited keys of a plain object, such as "constructor"; the model's STORES has only its thirteen own codes, so such a code is not a store here (the source would take "constructor" as a store, labelled "Amazon Object", with no domain).
- The URL parser's rewriting of the path by `new URL` (v1.1.0 line 89, ESM line 72) is not modelled: `?` and `#` in an ASIN or path start a query or fragment, `\` counts as `/`, `.` and `..` segments (also written `%2e`) are resolved, and tabs and newlines are stripped. The model keeps the text as given in the path, so a path or ASIN of `..` gives a different path than the source.
- Enhancer.Merged: the caller's `opts.params` is taken as it is, while `Object.assign` (v1.1.0 line 116) assigns through the `__proto__` setter and so drops an own `__proto__` key with a string value (only `JSON.parse` or `Object.defineProperty` can give an object one). Keys parsed from `data-amazon-params` never include it (Params.ProtoKeyNotParsed).
- The default `opts={}` or `defaults={}` replaces only `undefined`, so an explicit `null` argument throws a TypeError at the first property read. This happens at v1.1.0 lines 152 (`renderStoreGrid`) and 191 (`renderStoreGridAll`), and at ESM lines 62 (`url`), 88 (`enhance`), 121 (`enhanceAll`), 128 (`renderStoreGrid`) and 167 (`renderStoreGridAll`). The model's options are always an object.

## Findings

| source | as written | input that shows it | evidently intended | confidence | as-written member | corrected member |
|---|---|---|---|---|---|---|
| docs/js/amazon-store/v1.0.0/amazon-store.js:100 | In both UMD builds (also v1.1.0:100), `parseParams` replaces `/\\+/g` with a space. That pattern matches a run of backslashes, so a `+` in a value stays a `+`. | `data-amazon-params="q=a+b"` gives `q` = "a+b" | `/\+/g`, as in the ESM build (line 83): form-encoded `+` becomes a space, so "a b" | high, not executed | Params.CollapseBackslashes (with Params.PlusKeptInUmd) | Params.PlusToSpace (with Params.PlusToSpaceSpec) |
| docs/js/amazon-store/v1.1.0/amazon-store.min.js:180-181 | Each grid anchor is built with `buildUrl` and `region: code`; `detectRegion(code)` remembers a forced storefront, so the slot ends with the grid's last store for 30 days (also ESM lines 156-157). | A visitor whose fresh slot says DE renders a grid with `data-amazon-regions="FR"` and an ASIN; afterwards `detectRegion()` gives FR, so a later `enhance` links to amazon.fr | the grid lists storefronts without changing the visitor's remembered one | medium, not executed | Grid.GridMovesVisitor (with Grid.NextGridLeadsWithLastShown) | Grid.SlotAfterGridIntended (with Grid.GridKeepsVisitorIntended) |
