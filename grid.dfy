/** `renderStoreGrid(node, opts)` and `renderStoreGridAll(defaults)`, in the
    builds that have them: one link per storefront in an optional
    allow-list, the visitor's current storefront first when asked, the rest
    in ascending order of code. */
module Grid {
  import opened Js
  import opened Dicts
  import opened Stores
  import opened Region
  import opened Links
  import opened Dom

  /** The caller's options. The fields read with `??` (all but
      `currentFirst`) are None where the property is `undefined` or `null`.
      `currentFirst` is tested with `!== undefined`, so it is None only for
      `undefined`, and a `null` there is `Some(false)`. `currentFirst` and
      `newTab` hold the truthiness of the value given. */
  datatype GridOptions = GridOptions(
    asin: Option<string>, search: Option<string>, tag: Option<string>,
    regions: Option<string>, currentFirst: Option<bool>,
    linkClass: Option<string>, newTab: Option<bool>)

  /** The settings the grid works with once options and dataset are
      combined; `allow` is None when every storefront is listed. */
  datatype Settings = Settings(
    asin: string, search: string, tag: string, allow: Option<seq<string>>,
    currentFirst: bool, linkClass: string, newTab: bool)

  /** The allow-list: the trimmed attribute split on ',' with each piece
      trimmed and upper-cased, or None when the trimmed attribute is empty. */
  function IncludeList(regions: string): Option<seq<string>>
  {
    var t := Trim(regions);
    if t == "" then None
    else
      var parts := Split(t, ',');
      Some(seq(|parts|, i requires 0 <= i < |parts| => ToUpper(Trim(parts[i]))))
  }

  /** One allow-list entry: a piece without a comma, trimmed and upper-cased. */
  lemma EntryClean(piece: string)
    requires ',' !in piece
    ensures var e := ToUpper(Trim(piece));
      && ',' !in e
      && (forall i :: 0 <= i < |e| ==> !('a' <= e[i] <= 'z'))
      && (e != [] ==> !IsSpace(e[0]) && !IsSpace(e[|e| - 1]))
  {
    var front := TrimStart(piece);
    TrimStartSpec(piece);
    TrimEndSpec(front);
    var q := TrimEnd(front);
    forall i | 0 <= i < |q| ensures q[i] != ',' {
      assert q[i] == front[i] == piece[|piece| - |front| + i];
    }
  }

  /** The allow-list is absent exactly when the attribute is all white
      space; otherwise each entry holds no comma, no lower-case ASCII letter
      and no white space at either end. */
  lemma IncludeListSpec(regions: string)
    ensures IncludeList(regions).None? <==> forall i :: 0 <= i < |regions| ==> IsSpace(regions[i])
    ensures IncludeList(regions).Some? ==> var list := IncludeList(regions).value;
      && |list| >= 1
      && forall k :: 0 <= k < |list| ==>
        && ',' !in list[k]
        && (forall i :: 0 <= i < |list[k]| ==> !('a' <= list[k][i] <= 'z'))
        && (list[k] != [] ==> !IsSpace(list[k][0]) && !IsSpace(list[k][|list[k]| - 1]))
  {
    TrimEmpty(regions);
    var t := Trim(regions);
    if t != "" {
      var parts := Split(t, ',');
      SplitSpec(t, ',');
      forall k | 0 <= k < |parts| {
        EntryClean(parts[k]);
      }
    }
  }

  /** The entries are the attribute's comma-separated pieces, each trimmed
      and upper-cased: there are comma-free pieces, one per entry, that
      joined with commas give back the trimmed attribute. */
  lemma IncludeListPieces(regions: string)
    ensures IncludeList(regions).Some? ==> var list := IncludeList(regions).value;
      exists pieces: seq<string> ::
        && |pieces| == |list| && |pieces| >= 1
        && Join(pieces, ',') == Trim(regions)
        && forall k :: 0 <= k < |pieces| ==> ',' !in pieces[k] && list[k] == ToUpper(Trim(pieces[k]))
  {
    var t := Trim(regions);
    if t != "" {
      SplitSpec(t, ',');
      var pieces := Split(t, ',');
      assert forall k :: 0 <= k < |pieces| ==> IncludeList(regions).value[k] == ToUpper(Trim(pieces[k]));
    }
  }

  /** The trims the example below needs. */
  lemma TrimsOfExample()
    ensures Trim(" us, de") == "us, de" && Trim("us") == "us" && Trim(" de") == "de"
  {
    assert " us, de"[1..] == "us, de";
    assert " de"[1..] == "de";
  }

  /** The split the example below needs. */
  lemma SplitOfExample()
    ensures Split("us, de", ',') == ["us", " de"]
  {
    assert "us, de" == "us" + [','] + " de";
    SplitAfterFirst("us", ',', " de");
    SplitNoSeparator(" de", ',');
  }

  /** " us, de" lists US and DE. */
  lemma IncludeListExample()
    ensures IncludeList(" us, de") == Some(["US", "DE"])
  {
    TrimsOfExample();
    SplitOfExample();
    var parts := Split("us, de", ',');
    assert "us, de" != "";
    var list := IncludeList(" us, de").value;
    assert |list| == |parts| == 2;
    assert list[0] == ToUpper(Trim(parts[0])) == ToUpper("us") == "US";
    assert list[1] == ToUpper(Trim(parts[1])) == ToUpper("de") == "DE";
    assert list == ["US", "DE"];
  }

  /** The option wins whenever it is given, even as "", and the dataset
      entry is read only when it is absent; `currentFirst` is on unless the
      option is false or, with no option, the dataset says "false"; `newTab`
      is on unless the option turns it off. */
  lemma SettingsPrecedence(attrs: map<string, string>, opts: GridOptions)
    ensures var s := SettingsOf(attrs, opts);
      && s.asin == (if opts.asin.Some? then opts.asin.value else Data(attrs, "data-amazon-asin"))
      && s.search == (if opts.search.Some? then opts.search.value else Data(attrs, "data-amazon-search"))
      && s.tag == (if opts.tag.Some? then opts.tag.value else Data(attrs, "data-amazon-tag"))
      && s.allow == IncludeList(if opts.regions.Some? then opts.regions.value else Data(attrs, "data-amazon-regions"))
      && s.linkClass == (if opts.linkClass.Some? then opts.linkClass.value else Data(attrs, "data-amazon-link-class"))
      && (s.currentFirst <==>
            if opts.currentFirst.Some? then opts.currentFirst.value
            else !("data-amazon-current-first" in attrs && attrs["data-amazon-current-first"] == "false"))
      && (s.newTab <==> opts.newTab != Some(false))
  {
  }

  /** With no options and an empty dataset every storefront is listed, the
      current one first, in a new tab; a caller's "" search hides the
      dataset's search. */
  lemma SettingsExample()
    ensures SettingsOf(map[], GridOptions(None, None, None, None, None, None, None))
      == Settings("", "", "", None, true, "", true)
    ensures SettingsOf(map["data-amazon-search" := "pens"], GridOptions(None, Some(""), None, None, None, None, None)).search == ""
    ensures SettingsOf(map["data-amazon-current-first" := "false"], GridOptions(None, None, None, None, None, None, None)).currentFirst == false
  {
    assert Trim("") == "";
  }

  /** Each setting is the option `??` the dataset entry; `currentFirst`
      falls back to `data-amazon-current-first !== 'false'`, and `newTab`
      to true, with no dataset entry. */
  function SettingsOf(attrs: map<string, string>, opts: GridOptions): Settings
  {
    Settings(
      Coalesce(opts.asin, DataOpt(attrs, "data-amazon-asin")).GetOr(""),
      Coalesce(opts.search, DataOpt(attrs, "data-amazon-search")).GetOr(""),
      Coalesce(opts.tag, DataOpt(attrs, "data-amazon-tag")).GetOr(""),
      IncludeList(Coalesce(opts.regions, DataOpt(attrs, "data-amazon-regions")).GetOr("")),
      if opts.currentFirst.Some? then opts.currentFirst.value
      else DataOpt(attrs, "data-amazon-current-first") != Some("false"),
      Coalesce(opts.linkClass, DataOpt(attrs, "data-amazon-link-class")).GetOr(""),
      opts.newTab.GetOr(true))
  }

  // ---------------------------------------------------------------------
  // ordering

  /** `a.localeCompare(b) < 0`, which on the two-letter upper-case codes is
      the ordinal order of strings. */
  predicate Less(a: string, b: string)
    decreases |a|
  {
    if a == [] then b != []
    else b != [] && (a[0] < b[0] || (a[0] == b[0] && Less(a[1..], b[1..])))
  }

  lemma {:induction false} LessIrreflexive(a: string)
    ensures !Less(a, a)
    decreases |a|
  {
    if a != [] {
      LessIrreflexive(a[1..]);
    }
  }

  lemma {:induction false} LessTransitive(a: string, b: string, c: string)
    requires Less(a, b) && Less(b, c)
    ensures Less(a, c)
    decreases |a|
  {
    if a != [] && a[0] == b[0] && b[0] == c[0] {
      LessTransitive(a[1..], b[1..], c[1..]);
    }
  }

  lemma {:induction false} LessTotal(a: string, b: string)
    ensures a == b || Less(a, b) || Less(b, a)
    decreases |a|
  {
    if a != [] && b != [] && a[0] == b[0] {
      LessTotal(a[1..], b[1..]);
      if a[1..] == b[1..] {
        assert a == [a[0]] + a[1..] && b == [b[0]] + b[1..];
      }
    }
  }

  predicate Ascending(s: seq<string>)
  {
    forall i, j :: 0 <= i < j < |s| ==> Less(s[i], s[j])
  }

  /** A chain of neighbours in order is in order throughout. */
  lemma {:induction false} ChainAscending(s: seq<string>)
    requires forall i :: 0 <= i < |s| - 1 ==> Less(s[i], s[i + 1])
    ensures Ascending(s)
    decreases |s|
  {
    if |s| > 1 {
      ChainAscending(s[1..]);
      forall j | 1 <= j < |s| ensures Less(s[0], s[j]) {
        if j > 1 {
          assert Less(s[1], s[j]) by { assert s[1..][0] == s[1] && s[1..][j - 1] == s[j]; }
          LessTransitive(s[0], s[1], s[j]);
        }
      }
      forall i, j | 0 <= i < j < |s| ensures Less(s[i], s[j]) {
        if i > 0 {
          assert s[1..][i - 1] == s[i] && s[1..][j - 1] == s[j];
        }
      }
    }
  }

  /** The tail of an ascending list is ascending, and its head comes
      before everything in the tail. */
  lemma AscendingTail(s: seq<string>)
    requires Ascending(s) && s != []
    ensures Ascending(s[1..])
    ensures forall c :: c in s[1..] ==> Less(s[0], c)
  {
    forall i, j | 0 <= i < j < |s[1..]| ensures Less(s[1..][i], s[1..][j]) {
      assert s[1..][i] == s[i + 1] && s[1..][j] == s[j + 1];
    }
    forall c | c in s[1..] ensures Less(s[0], c) {
      var k :| 0 <= k < |s[1..]| && s[1..][k] == c;
      assert s[k + 1] == c;
    }
  }

  /** A code before everything in an ascending list can go in front. */
  lemma AscendingCons(x: string, s: seq<string>)
    requires Ascending(s) && forall c :: c in s ==> Less(x, c)
    ensures Ascending([x] + s)
  {
    var r := [x] + s;
    forall i, j | 0 <= i < j < |r| ensures Less(r[i], r[j]) {
      assert r[j] == s[j - 1] && r[j] in s;
      if i > 0 {
        assert r[i] == s[i - 1];
      }
    }
  }

  /** Two-letter codes compare on their first letter, then their second. */
  lemma LessOfPair(a: string, b: string)
    requires |a| == 2 && |b| == 2
    requires a[0] < b[0] || (a[0] == b[0] && a[1] < b[1])
    ensures Less(a, b)
  {
    if a[0] == b[0] {
      assert Less(a[1..], b[1..]) by {
        assert a[1..][0] == a[1] && b[1..][0] == b[1];
      }
    }
  }

  /** STORES enumerates its codes in ascending order. */
  lemma CodesAscending()
    ensures Ascending(Codes)
  {
    forall i | 0 <= i < |Codes| - 1 ensures Less(Codes[i], Codes[i + 1]) {
      LessOfPair(Codes[i], Codes[i + 1]);
    }
    ChainAscending(Codes);
  }

  /** The codes among `codes[i..]` that `Object.entries(STORES).filter(...)`
      keeps, walked by index. */
  function Keep(codes: seq<string>, allow: Option<seq<string>>, i: nat): seq<string>
    requires i <= |codes|
    decreases |codes| - i
  {
    if i == |codes| then []
    else if allow.None? || codes[i] in allow.value then [codes[i]] + Keep(codes, allow, i + 1)
    else Keep(codes, allow, i + 1)
  }

  /** The filter keeps exactly the allowed codes, and keeps their order. */
  lemma {:induction false} KeepSpec(codes: seq<string>, allow: Option<seq<string>>, i: nat)
    requires i <= |codes|
    ensures forall c :: c in Keep(codes, allow, i) <==> c in codes[i..] && (allow.None? || c in allow.value)
    ensures Ascending(codes[i..]) ==> Ascending(Keep(codes, allow, i))
    decreases |codes| - i
  {
    if i < |codes| {
      KeepSpec(codes, allow, i + 1);
      var rest := Keep(codes, allow, i + 1);
      var tail := codes[i..];
      assert tail[0] == codes[i] && tail[1..] == codes[i + 1..];
      assert forall c :: c in tail <==> c == tail[0] || c in tail[1..];
      if Ascending(tail) {
        AscendingTail(tail);
        if allow.None? || codes[i] in allow.value {
          AscendingCons(codes[i], rest);
        }
      }
    }
  }

  /** Whether the allow-list admits `code` (`!include || include.includes(code)`). */
  predicate Allowed(allow: Option<seq<string>>, code: string)
  {
    allow.None? || code in allow.value
  }

  /** `Object.entries(STORES).filter(...)`: the storefronts the allow-list
      admits, in STORES order. */
  function Listed(allow: Option<seq<string>>): seq<string>
  {
    Keep(Codes, allow, 0)
  }

  /** The listed codes are exactly the admitted storefronts, ascending. */
  lemma ListedSpec(allow: Option<seq<string>>)
    ensures forall c :: c in Listed(allow) <==> IsStore(c) && Allowed(allow, c)
    ensures Ascending(Listed(allow))
  {
    CodesAscending();
    KeepSpec(Codes, allow, 0);
    assert Codes[0..] == Codes;
    forall c ensures IsStore(c) <==> c in Codes {
      StoreCodes(c);
    }
  }

  /** `s` without `x`. */
  function Remove(s: seq<string>, x: string): seq<string>
    decreases |s|
  {
    if s == [] then []
    else if s[0] == x then Remove(s[1..], x)
    else [s[0]] + Remove(s[1..], x)
  }

  /** Removing drops exactly `x` and keeps an ascending list ascending. */
  lemma {:induction false} RemoveSpec(s: seq<string>, x: string)
    ensures forall c :: c in Remove(s, x) <==> c in s && c != x
    ensures Ascending(s) ==> Ascending(Remove(s, x))
    decreases |s|
  {
    if s != [] {
      RemoveSpec(s[1..], x);
      if Ascending(s) {
        AscendingTail(s);
        if s[0] != x {
          AscendingCons(s[0], Remove(s[1..], x));
        }
      }
    }
  }

  /** The order the sort produces from the ascending list: the current
      storefront first when `currentFirst` is set and it is listed,
      everything else ascending. */
  function GridOrder(listed: seq<string>, current: string, currentFirst: bool): seq<string>
  {
    if currentFirst && current in listed then [current] + Remove(listed, current) else listed
  }

  /** The sort comparator is negative: `a` goes before `b`. */
  predicate Before(a: string, b: string, current: string, currentFirst: bool)
  {
    if currentFirst && a == current then b != current
    else if currentFirst && b == current then false
    else Less(a, b)
  }

  predicate SortedBy(s: seq<string>, current: string, currentFirst: bool)
  {
    forall i, j :: 0 <= i < j < |s| ==> Before(s[i], s[j], current, currentFirst)
  }

  /** The grid order holds exactly the listed codes, has the current
      storefront first precisely when it is listed and `currentFirst` is
      set, and is ordered by the comparator. */
  lemma GridOrderSpec(listed: seq<string>, current: string, currentFirst: bool)
    requires Ascending(listed)
    ensures var r := GridOrder(listed, current, currentFirst);
      && (forall c :: c in r <==> c in listed)
      && (|r| > 0 && r[0] == current <==> current in listed && (currentFirst || listed[0] == current))
      && SortedBy(r, current, currentFirst)
  {
    var r := GridOrder(listed, current, currentFirst);
    if currentFirst && current in listed {
      var rest := Remove(listed, current);
      RemoveSpec(listed, current);
      forall i, j | 0 <= i < j < |r| ensures Before(r[i], r[j], current, currentFirst) {
        if i == 0 {
          assert r[j] == rest[j - 1] && r[j] in rest;
        } else {
          assert r[i] == rest[i - 1] && r[j] == rest[j - 1];
          assert r[i] in rest && r[j] in rest;
        }
      }
    } else {
      forall i, j | 0 <= i < j < |r| ensures Before(r[i], r[j], current, currentFirst) {
        if currentFirst {
          assert r[i] in listed && r[j] in listed;
        }
      }
    }
  }

  /** The comparator never puts two codes both ways round. */
  lemma BeforeAsymmetric(a: string, b: string, current: string, currentFirst: bool)
    ensures !(Before(a, b, current, currentFirst) && Before(b, a, current, currentFirst))
  {
    if Less(a, b) && Less(b, a) {
      LessTransitive(a, b, a);
      LessIrreflexive(a);
    }
  }

  /** A list ordered by the comparator is determined by its codes: so
      whatever algorithm `Array.prototype.sort` runs, its result is the
      grid order. */
  lemma {:induction false} SortedUnique(x: seq<string>, y: seq<string>, current: string, currentFirst: bool)
    requires SortedBy(x, current, currentFirst) && SortedBy(y, current, currentFirst)
    requires forall c :: c in x <==> c in y
    ensures x == y
    decreases |x|
  {
    forall i | 0 <= i < |x| ensures !Before(x[i], x[i], current, currentFirst) {
      BeforeAsymmetric(x[i], x[i], current, currentFirst);
    }
    forall i | 0 <= i < |y| ensures !Before(y[i], y[i], current, currentFirst) {
      BeforeAsymmetric(y[i], y[i], current, currentFirst);
    }
    if y != [] {
      assert y[0] in x;
    }
    if x != [] {
      assert x[0] in y;
      if x[0] != y[0] {
        var i :| 0 <= i < |y| && y[i] == x[0];
        assert y[0] in y;
        var j :| 0 <= j < |x| && x[j] == y[0];
        BeforeAsymmetric(x[0], y[0], current, currentFirst);
        assert false;
      }
      assert x[0] !in x[1..] && y[0] !in y[1..];
      forall c ensures c in x[1..] <==> c in y[1..] {
        assert c in x[1..] <==> c in x && c != x[0];
        assert c in y[1..] <==> c in y && c != y[0];
      }
      assert SortedBy(x[1..], current, currentFirst) by {
        forall i, j | 0 <= i < j < |x[1..]| ensures Before(x[1..][i], x[1..][j], current, currentFirst) {
          assert x[1..][i] == x[i + 1] && x[1..][j] == x[j + 1];
        }
      }
      assert SortedBy(y[1..], current, currentFirst) by {
        forall i, j | 0 <= i < j < |y[1..]| ensures Before(y[1..][i], y[1..][j], current, currentFirst) {
          assert y[1..][i] == y[i + 1] && y[1..][j] == y[j + 1];
        }
      }
      SortedUnique(x[1..], y[1..], current, currentFirst);
      assert x == [x[0]] + x[1..] && y == [y[0]] + y[1..];
    }
  }

  /** The filtered and sorted entries, for a given current storefront:
      exactly the admitted storefronts, ordered by the comparator. Being
      determined by those two facts (SortedUnique), they are the grid
      order whatever algorithm the sort runs. */
  method OrderEntries(s: Settings, current: string) returns (entries: seq<string>)
    ensures forall c :: c in entries <==> IsStore(c) && Allowed(s.allow, c)
    ensures SortedBy(entries, current, s.currentFirst)
    ensures AllStores(entries)
  {
    var listed := Listed(s.allow);
    ListedSpec(s.allow);
    GridOrderSpec(listed, current, s.currentFirst);
    entries := GridOrder(listed, current, s.currentFirst);
  }

  /** The only order the comparator allows on the admitted storefronts is
      the grid order: current first when asked and listed, the rest
      ascending. */
  lemma EntriesAreGridOrder(entries: seq<string>, s: Settings, current: string)
    requires forall c :: c in entries <==> IsStore(c) && Allowed(s.allow, c)
    requires SortedBy(entries, current, s.currentFirst)
    ensures entries == GridOrder(Listed(s.allow), current, s.currentFirst)
  {
    ListedSpec(s.allow);
    GridOrderSpec(Listed(s.allow), current, s.currentFirst);
    SortedUnique(entries, GridOrder(Listed(s.allow), current, s.currentFirst), current, s.currentFirst);
  }

  /** An allow-list naming US, DE and an unknown code, with the visitor in
      the US: the unknown code is dropped, and the US link leads only when
      `currentFirst` is set. */
  lemma GridOrderExample()
    ensures GridOrder(Listed(Some(["US", "DE", "XX"])), "US", true) == ["US", "DE"]
    ensures GridOrder(Listed(Some(["US", "DE", "XX"])), "US", false) == ["DE", "US"]
  {
    var allow := Some(["US", "DE", "XX"]);
    forall c ensures c in ["US", "DE"] <==> IsStore(c) && Allowed(allow, c) {
      assert !IsStore("XX");
    }
    assert Less("DE", "US");
    EntriesAreGridOrder(["US", "DE"], Settings("", "", "", allow, true, "", true), "US");
    EntriesAreGridOrder(["DE", "US"], Settings("", "", "", allow, false, "", true), "US");
  }

  // ---------------------------------------------------------------------
  // rendering

  /** Every code is a storefront. */
  predicate AllStores(codes: seq<string>)
  {
    forall i :: 0 <= i < |codes| ==> IsStore(codes[i])
  }

  /** The URL of one grid anchor, written out: the storefront's domain,
      then "/s" with `k` and then `tag` for a search, or "/dp/" and the ASIN
      with `tag`. */
  function GridUrl(code: string, s: Settings): Url
    requires IsStore(code)
  {
    var tagged: Dict := if s.tag != "" then [("tag", s.tag)] else [];
    if s.search != "" then Url(Domain(code), "/s", [("k", s.search)] + tagged)
    else Url(Domain(code), "/dp/" + s.asin, tagged)
  }

  /** A grid anchor points where `buildUrl` sends it: the storefront
      forced, no path and no extra parameters, and the ASIN dropped when
      there is a search. */
  lemma GridUrlIsBuilt(code: string, s: Settings)
    requires IsStore(code) && (s.asin != "" || s.search != "")
    ensures UrlFor(if s.search != "" then "" else s.asin, LinkOptions(code, s.search, false, "", s.tag, []), code)
            == Ok(GridUrl(code, s))
  {
    var tagged: Dict := if s.tag != "" then [("tag", s.tag)] else [];
    if s.search != "" {
      var q: Dict := [("k", s.search)];
      assert "k" != "tag";
      assert (if s.tag != "" then Put(q, "tag", s.tag) else q) == q + tagged;
    } else {
      assert (if s.tag != "" then Put([], "tag", s.tag) else []) == tagged;
      assert "/" + Or("", "dp") + "/" + s.asin == "/dp/" + s.asin;
    }
  }

  /** The anchor for one storefront: a search link when there is a search,
      otherwise a product link, built with that storefront forced. */
  function LinkFor(code: string, s: Settings): Link
    requires IsStore(code) && (s.asin != "" || s.search != "")
  {
    Link(GridUrl(code, s), if s.newTab then "_blank" else "", if s.newTab then "noopener" else "",
         s.linkClass, "Amazon " + Name(code), code)
  }

  /** Each grid anchor is labelled "Amazon " and the store's name, carries
      its code in `data-store`, points at that storefront's domain, and is
      a search for the search words, or else the "dp" page of the ASIN,
      with the tag when there is one. */
  lemma LinkForSpec(code: string, s: Settings)
    requires IsStore(code) && (s.asin != "" || s.search != "")
    ensures var l := LinkFor(code, s);
      && l.store == code && l.text == "Amazon " + Name(code)
      && RegionOfDomain(l.href.host) == Some(code)
      && l.href.path == (if s.search != "" then "/s" else "/dp/" + s.asin)
      && Get(l.href.query, "k") == (if s.search != "" then Some(s.search) else None)
      && Get(l.href.query, "tag") == (if s.tag != "" then Some(s.tag) else None)
  {
    DomainRoundTrip(code);
  }

  /** One anchor per code, in order. */
  function GridLinks(codes: seq<string>, s: Settings): (links: seq<Link>)
    requires AllStores(codes)
    requires codes == [] || s.asin != "" || s.search != ""
    ensures |links| == |codes|
    decreases |codes|
  {
    if codes == [] then []
    else
      var init := codes[..|codes| - 1];
      assert AllStores(init) by {
        forall i | 0 <= i < |init| ensures IsStore(init[i]) {
          assert init[i] == codes[i];
        }
      }
      GridLinks(init, s) + [LinkFor(codes[|codes| - 1], s)]
  }

  /** The text content of a node holding only these anchors. */
  function Texts(links: seq<Link>): string
  {
    if links == [] then "" else Texts(links[..|links| - 1]) + links[|links| - 1].text
  }

  /** The codes the anchors carry in `data-store`. */
  function StoreCodesOf(links: seq<Link>): seq<string>
  {
    seq(|links|, i requires 0 <= i < |links| => links[i].store)
  }

  /** The grid's anchors name the codes they were built for, in order. */
  lemma {:induction false} GridLinksStores(codes: seq<string>, s: Settings)
    requires AllStores(codes)
    requires codes == [] || s.asin != "" || s.search != ""
    ensures StoreCodesOf(GridLinks(codes, s)) == codes
    decreases |codes|
  {
    if codes != [] {
      var init := codes[..|codes| - 1];
      assert AllStores(init) by {
        forall i | 0 <= i < |init| ensures IsStore(init[i]) {
          assert init[i] == codes[i];
        }
      }
      GridLinksStores(init, s);
      LinkForSpec(codes[|codes| - 1], s);
      assert codes == init + [codes[|codes| - 1]];
    }
  }

  /** One pass of the loop: build the link for `code` (which persists
      `code`), then append the anchor; a failed build leaves the node as
      it was. */
  method AppendLink(r: Resolver, node: Element, code: string, s: Settings) returns (err: Option<Error>)
    requires IsStore(code)
    modifies r`cache, node`children, node`text
    ensures err.Some? <==> s.asin == "" && s.search == ""
    ensures err.Some? ==> err.value == MissingAsin && node.children == old(node.children) && node.text == old(node.text)
    ensures err.None? ==> node.children == old(node.children) + [LinkFor(code, s)]
    ensures err.None? ==> node.text == old(node.text) + LinkFor(code, s).text
    ensures r.cache == Some(CacheEntry(code, r.now))
  {
    OverrideWins(code, r.cache, r.env, r.now);
    if s.asin != "" || s.search != "" {
      GridUrlIsBuilt(code, s);
    }
    var built := BuildUrl(r, if s.search != "" then "" else s.asin, LinkOptions(code, s.search, false, "", s.tag, []));
    if built.Err? {
      return Some(built.error);
    }
    var a := Link(built.value, if s.newTab then "_blank" else "", if s.newTab then "noopener" else "",
                  s.linkClass, "Amazon " + Name(code), code);
    node.children := node.children + [a];
    node.text := node.text + a.text;
    return None;
  }

  /** The body of the grid after the entries are known:
      `node.innerHTML = ''`, then one anchor per code, stopping at the first
      link that cannot be built. */
  method FillGrid(r: Resolver, node: Element, entries: seq<string>, s: Settings) returns (err: Option<Error>)
    requires AllStores(entries)
    modifies r`cache, node`children, node`text
    ensures err.Some? <==> entries != [] && s.asin == "" && s.search == ""
    ensures err.Some? ==> err.value == MissingAsin && node.children == [] && node.text == ""
    ensures err.None? ==> node.children == GridLinks(entries, s) && node.text == Texts(node.children)
    ensures r.cache == if entries == [] then old(r.cache)
                       else Some(CacheEntry(if err.Some? then entries[0] else entries[|entries| - 1], r.now))
  {
    node.text := "";
    node.children := [];
    var i := 0;
    while i < |entries|
      invariant 0 <= i <= |entries|
      invariant i > 0 ==> s.asin != "" || s.search != ""
      invariant AllStores(entries[..i])
      invariant node.children == GridLinks(entries[..i], s)
      invariant node.text == Texts(node.children)
      invariant r.cache == if i == 0 then old(r.cache) else Some(CacheEntry(entries[i - 1], r.now))
    {
      var code := entries[i];
      var before := node.children;
      err := AppendLink(r, node, code, s);
      if err.Some? {
        assert i == 0;
        return;
      }
      assert entries[..i + 1][..i] == entries[..i];
      assert node.children[..|node.children| - 1] == before;
      i := i + 1;
    }
    assert entries[..i] == entries;
    return None;
  }

  /** The settings, entries and state a rendered grid node shows: its
      anchors carry exactly the admitted storefronts, ordered by the
      comparator for the current storefront, one anchor per code as
      LinkFor builds it, and its text is theirs. */
  ghost predicate Shows(children: seq<Link>, text: string, s: Settings, current: string)
  {
    var codes := StoreCodesOf(children);
    && AllStores(codes)
    && (codes == [] || s.asin != "" || s.search != "")
    && (forall c {:trigger c in codes} :: c in codes <==> IsStore(c) && Allowed(s.allow, c))
    && SortedBy(codes, current, s.currentFirst)
    && children == GridLinks(codes, s)
    && text == Texts(children)
  }

  /** What a grid element shows once rendered without error, stated from
      its dataset: the links GridLinks builds for the grid order of the
      admitted storefronts, and their text. */
  ghost predicate Rendered(children: seq<Link>, text: string, attrs: map<string, string>, defaults: GridOptions, current: string)
  {
    var s := SettingsOf(attrs, defaults);
    var codes := GridOrder(Listed(s.allow), current, s.currentFirst);
    && AllStores(codes)
    && (codes == [] || s.asin != "" || s.search != "")
    && children == GridLinks(codes, s)
    && text == Texts(children)
  }

  /** `renderStoreGrid(node, opts)` on a node that exists: combine the
      options with the dataset, resolve the current storefront, filter and
      sort the storefronts, then fill the node. Each link forces its own
      code as the region, so each one rewrites the cache slot, which ends
      holding the last code shown; with neither ASIN nor search the first
      link throws and the node is left empty. `entries` is the order
      shown. */
  method RenderStoreGrid(r: Resolver, node: Element, opts: GridOptions, v: Version)
    returns (err: Option<Error>, entries: seq<string>)
    requires v.HasGrid()
    modifies r`cache, node`children, node`text
    ensures var s := SettingsOf(node.attrs, opts);
      var d := Resolve("", old(r.cache), r.env, r.now);
      && (forall c :: c in entries <==> IsStore(c) && Allowed(s.allow, c))
      && SortedBy(entries, d.code, s.currentFirst)
      && (err.Some? <==> entries != [] && s.asin == "" && s.search == "")
      && (err.Some? ==> err.value == MissingAsin && node.children == [] && node.text == "")
      && (err.None? ==> Shows(node.children, node.text, s, d.code) && StoreCodesOf(node.children) == entries)
      && (err.None? ==> Rendered(node.children, node.text, node.attrs, opts, d.code))
      && entries == GridOrder(Listed(s.allow), d.code, s.currentFirst)
      && r.cache == (if entries == [] then CacheAfter(old(r.cache), d, r.now)
                     else Some(CacheEntry(if err.Some? then entries[0] else entries[|entries| - 1], r.now)))
  {
    var s := SettingsOf(node.attrs, opts);
    var current := r.DetectRegion("");
    entries := OrderEntries(s, current);
    err := FillGrid(r, node, entries, s);
    EntriesAreGridOrder(entries, s, current);
    if err.None? {
      GridLinksStores(entries, s);
    }
  }

  // ---------------------------------------------------------------------
  // renderStoreGridAll

  /** The elements `querySelectorAll('[data-amazon-grid]')` selects. */
  predicate IsGrid(attrs: map<string, string>)
  {
    "data-amazon-grid" in attrs
  }

  /** The cache slot after `renderStoreGrid` reaches an element: unchanged
      on an element that is not a grid; on a grid, stamped by the
      `detectRegion()` that finds the current storefront, then by each
      anchor's forced region, so that it ends holding the last code shown,
      or the first when that first link throws. */
  function SlotAfterGrid(attrs: map<string, string>, defaults: GridOptions, cache: Option<CacheEntry>, env: Env, now: int): Option<CacheEntry>
  {
    if !IsGrid(attrs) then cache
    else
      var s := SettingsOf(attrs, defaults);
      var d := Resolve("", cache, env, now);
      SlotAfterRender(GridOrder(Listed(s.allow), d.code, s.currentFirst), s.asin == "" && s.search == "", cache, d, now)
  }

  /** The slot after `renderStoreGrid` drew the anchors for `codes` (only
      the first when `firstOnly`, the grid having no product to link), once
      its `detectRegion()` has decided `d`. */
  function SlotAfterRender(codes: seq<string>, firstOnly: bool, cache: Option<CacheEntry>, d: Decision, now: int): Option<CacheEntry>
  {
    if codes == [] then CacheAfter(cache, d, now)
    else Some(CacheEntry(if firstOnly then codes[0] else codes[|codes| - 1], now))
  }

  /** One step of `renderStoreGridAll`: render the element when it is a
      grid, and leave it alone otherwise. `current` is what
      `detectRegion()` answers at this point. */
  method GridOne(r: Resolver, el: Element, defaults: GridOptions, v: Version)
    returns (err: Option<Error>, ghost current: string)
    requires v.HasGrid()
    modifies r`cache, el`children, el`text
    ensures current == Resolve("", old(r.cache), r.env, r.now).code
    ensures r.cache == SlotAfterGrid(el.attrs, defaults, old(r.cache), r.env, r.now)
    ensures !IsGrid(el.attrs) ==> err.None? && unchanged(el) && r.cache == old(r.cache)
    ensures err.Some? ==>
      var s := SettingsOf(el.attrs, defaults);
      && IsGrid(el.attrs) && err.value == MissingAsin
      && s.asin == "" && s.search == "" && el.children == [] && el.text == ""
    ensures err.None? && IsGrid(el.attrs) ==> Rendered(el.children, el.text, el.attrs, defaults, current)
  {
    current := Resolve("", r.cache, r.env, r.now).code;
    if !IsGrid(el.attrs) {
      return None, current;
    }
    var entries;
    err, entries := RenderStoreGrid(r, el, defaults, v);
  }

  /** One element of `renderStoreGridAll`, as values: `current` is what
      `detectRegion()` gives from the slot `before` the element finds,
      `after` is the slot it leaves, and a grid ends showing what
      `renderStoreGrid` renders for `current`. */
  ghost predicate GridStepped(attrs: map<string, string>, children: seq<Link>, text: string, defaults: GridOptions,
                              current: string, before: Option<CacheEntry>, after: Option<CacheEntry>, env: Env, now: int)
  {
    && current == Resolve("", before, env, now).code
    && after == SlotAfterGrid(attrs, defaults, before, env, now)
    && (IsGrid(attrs) ==> Rendered(children, text, attrs, defaults, current))
  }

  /** GridOne on `doc[i]`, which leaves every other element of `doc` as it
      was. */
  method GridStep(r: Resolver, doc: seq<Element>, i: nat, defaults: GridOptions, v: Version)
    returns (err: Option<Error>, ghost current: string)
    requires v.HasGrid() && i < |doc|
    requires forall i, j :: 0 <= i < j < |doc| ==> doc[i] != doc[j]
    modifies r`cache, {doc[i]}`children, {doc[i]}`text
    ensures err.None? ==> GridStepped(doc[i].attrs, doc[i].children, doc[i].text, defaults, current, old(r.cache), r.cache, r.env, r.now)
    ensures err.Some? ==> r.cache == SlotAfterGrid(doc[i].attrs, defaults, old(r.cache), r.env, r.now)
    ensures !IsGrid(doc[i].attrs) ==> err.None? && unchanged(doc[i])
    ensures err.Some? ==>
      var s := SettingsOf(doc[i].attrs, defaults);
      && IsGrid(doc[i].attrs) && err.value == MissingAsin
      && s.asin == "" && s.search == "" && doc[i].children == [] && doc[i].text == ""
    ensures forall k | 0 <= k < |doc| && k != i :: doc[k].children == old(doc[k].children) && doc[k].text == old(doc[k].text)
  {
    err, current := GridOne(r, doc[i], defaults, v);
    forall k | 0 <= k < |doc| && k != i
      ensures doc[k].children == old(doc[k].children) && doc[k].text == old(doc[k].text)
    {
      assert k < i ==> doc[k] != doc[i];
      assert i < k ==> doc[i] != doc[k];
    }
  }

  /** The walk over the elements so far: each one stepped from the slot
      the element before it left, the first from `caches[0]`. */
  ghost predicate Walked(attrs: seq<map<string, string>>, children: seq<seq<Link>>, texts: seq<string>, defaults: GridOptions,
                         currents: seq<string>, caches: seq<Option<CacheEntry>>, env: Env, now: int)
    requires |children| == |texts| == |currents| == |attrs| && |caches| == |attrs| + 1
    decreases |attrs|, 1
  {
    |attrs| == 0 || WalkedToLast(attrs, children, texts, defaults, currents, caches, env, now)
  }

  /** A non-empty walk: all but the last element walked, and the last one
      stepped from the slot they left. */
  ghost predicate WalkedToLast(attrs: seq<map<string, string>>, children: seq<seq<Link>>, texts: seq<string>, defaults: GridOptions,
                               currents: seq<string>, caches: seq<Option<CacheEntry>>, env: Env, now: int)
    requires |children| == |texts| == |currents| == |attrs| && |caches| == |attrs| + 1 && |attrs| > 0
    decreases |attrs|, 0
  {
    var n := |attrs|;
    && Walked(attrs[..n - 1], children[..n - 1], texts[..n - 1], defaults, currents[..n - 1], caches[..n], env, now)
    && GridStepped(attrs[n - 1], children[n - 1], texts[n - 1], defaults, currents[n - 1], caches[n - 1], caches[n], env, now)
  }

  /** A walk holds element by element. */
  lemma {:induction false} WalkedEach(attrs: seq<map<string, string>>, children: seq<seq<Link>>, texts: seq<string>, defaults: GridOptions,
                                      currents: seq<string>, caches: seq<Option<CacheEntry>>, env: Env, now: int)
    requires |children| == |texts| == |currents| == |attrs| && |caches| == |attrs| + 1
    requires Walked(attrs, children, texts, defaults, currents, caches, env, now)
    ensures forall k :: 0 <= k < |attrs| ==>
      GridStepped(attrs[k], children[k], texts[k], defaults, currents[k], caches[k], caches[k + 1], env, now)
  {
    var n := |attrs|;
    if n > 0 {
      assert WalkedToLast(attrs, children, texts, defaults, currents, caches, env, now);
      WalkedEach(attrs[..n - 1], children[..n - 1], texts[..n - 1], defaults, currents[..n - 1], caches[..n], env, now);
      forall k | 0 <= k < n - 1
        ensures GridStepped(attrs[k], children[k], texts[k], defaults, currents[k], caches[k], caches[k + 1], env, now)
      {
        assert attrs[..n - 1][k] == attrs[k] && children[..n - 1][k] == children[k] && texts[..n - 1][k] == texts[k];
        assert currents[..n - 1][k] == currents[k] && caches[..n][k] == caches[k] && caches[..n][k + 1] == caches[k + 1];
      }
    }
  }

  /** A walk extends by one element that steps from the slot it ends with. */
  lemma WalkedExtend(attrs: seq<map<string, string>>, children: seq<seq<Link>>, texts: seq<string>, defaults: GridOptions,
                     currents: seq<string>, caches: seq<Option<CacheEntry>>, env: Env, now: int,
                     a: map<string, string>, ch: seq<Link>, t: string, current: string, after: Option<CacheEntry>)
    requires |children| == |texts| == |currents| == |attrs| && |caches| == |attrs| + 1
    requires Walked(attrs, children, texts, defaults, currents, caches, env, now)
    requires GridStepped(a, ch, t, defaults, current, caches[|attrs|], after, env, now)
    ensures Walked(attrs + [a], children + [ch], texts + [t], defaults, currents + [current], caches + [after], env, now)
  {
    var n := |attrs|;
    assert (attrs + [a])[..n] == attrs && (children + [ch])[..n] == children && (texts + [t])[..n] == texts;
    assert (currents + [current])[..n] == currents && (caches + [after])[..n + 1] == caches;
    assert WalkedToLast(attrs + [a], children + [ch], texts + [t], defaults, currents + [current], caches + [after], env, now);
  }

  /** One turn of the loop of `renderStoreGridAll`: GridStep on `doc[i]`,
      and the walk so far extended by what the element then shows. */
  method WalkStep(r: Resolver, doc: seq<Element>, i: nat, defaults: GridOptions, v: Version,
                  ghost attrs: seq<map<string, string>>, ghost shown: seq<seq<Link>>, ghost texts: seq<string>,
                  ghost currents: seq<string>, ghost caches: seq<Option<CacheEntry>>)
    returns (err: Option<Error>, ghost attrs': seq<map<string, string>>, ghost shown': seq<seq<Link>>, ghost texts': seq<string>,
             ghost currents': seq<string>, ghost caches': seq<Option<CacheEntry>>)
    requires v.HasGrid() && i < |doc|
    requires forall i, j :: 0 <= i < j < |doc| ==> doc[i] != doc[j]
    requires |attrs| == |shown| == |texts| == |currents| == i && |caches| == i + 1
    requires forall k :: 0 <= k < i ==> attrs[k] == doc[k].attrs && shown[k] == doc[k].children && texts[k] == doc[k].text
    requires r.cache == caches[i] && Walked(attrs, shown, texts, defaults, currents, caches, r.env, r.now)
    modifies r`cache, {doc[i]}`children, {doc[i]}`text
    ensures forall k | 0 <= k < |doc| && k != i :: doc[k].children == old(doc[k].children) && doc[k].text == old(doc[k].text)
    ensures !IsGrid(doc[i].attrs) ==> err.None? && unchanged(doc[i])
    ensures err.Some? ==>
      var s := SettingsOf(doc[i].attrs, defaults);
      && IsGrid(doc[i].attrs) && err.value == MissingAsin
      && s.asin == "" && s.search == "" && doc[i].children == [] && doc[i].text == ""
      && r.cache == SlotAfterGrid(doc[i].attrs, defaults, caches[i], r.env, r.now)
    ensures err.None? ==>
      && |attrs'| == |shown'| == |texts'| == |currents'| == i + 1 && |caches'| == i + 2
      && (forall k :: 0 <= k < i + 1 ==> attrs'[k] == doc[k].attrs && shown'[k] == doc[k].children && texts'[k] == doc[k].text)
      && caches'[0] == caches[0] && r.cache == caches'[i + 1]
      && Walked(attrs', shown', texts', defaults, currents', caches', r.env, r.now)
  {
    ghost var current;
    err, current := GridStep(r, doc, i, defaults, v);
    attrs', shown', texts', currents', caches' := attrs, shown, texts, currents, caches;
    if err.None? {
      WalkedExtend(attrs, shown, texts, defaults, currents, caches, r.env, r.now,
                   doc[i].attrs, doc[i].children, doc[i].text, current, r.cache);
      attrs' := attrs + [doc[i].attrs];
      shown' := shown + [doc[i].children];
      texts' := texts + [doc[i].text];
      currents' := currents + [current];
      caches' := caches + [r.cache];
      forall k | 0 <= k < i + 1
        ensures attrs'[k] == doc[k].attrs && shown'[k] == doc[k].children && texts'[k] == doc[k].text
      {
        if k < i {
          assert attrs'[k] == attrs[k] && shown'[k] == shown[k] && texts'[k] == texts[k];
        }
      }
    }
  }

  /** The loop of `renderStoreGridAll`, stated as a walk: the elements
      before `stopped` keep their attributes, show `shown` and `texts`, and
      stepped one after the other from the slot `caches[0]` the loop found. */
  method WalkGrids(r: Resolver, doc: seq<Element>, defaults: GridOptions, v: Version)
    returns (err: Option<Error>, ghost stopped: nat, ghost attrs: seq<map<string, string>>, ghost shown: seq<seq<Link>>,
             ghost texts: seq<string>, ghost currents: seq<string>, ghost caches: seq<Option<CacheEntry>>)
    requires v.HasGrid()
    requires forall i, j :: 0 <= i < j < |doc| ==> doc[i] != doc[j]
    modifies r`cache, doc`children, doc`text
    ensures stopped <= |doc| && |attrs| == |shown| == |texts| == |currents| == stopped && |caches| == stopped + 1
    ensures err.Some? <==> stopped < |doc|
    ensures err.Some? ==>
      var s := SettingsOf(doc[stopped].attrs, defaults);
      && IsGrid(doc[stopped].attrs) && err.value == MissingAsin
      && s.asin == "" && s.search == "" && doc[stopped].children == [] && doc[stopped].text == ""
    ensures forall i :: stopped < i < |doc| ==> unchanged(doc[i])
    ensures forall i :: 0 <= i < stopped ==>
      && attrs[i] == doc[i].attrs && shown[i] == doc[i].children && texts[i] == doc[i].text
      && (!IsGrid(doc[i].attrs) ==> unchanged(doc[i]))
    ensures caches[0] == old(r.cache) && Walked(attrs, shown, texts, defaults, currents, caches, r.env, r.now)
    ensures r.cache == if err.None? then caches[stopped]
                       else SlotAfterGrid(doc[stopped].attrs, defaults, caches[stopped], r.env, r.now)
  {
    attrs, shown, texts, currents := [], [], [], [];
    caches := [r.cache];
    var i := 0;
    while i < |doc|
      invariant 0 <= i <= |doc| && |attrs| == |shown| == |texts| == |currents| == i && |caches| == i + 1
      invariant forall k :: i <= k < |doc| ==> doc[k].children == old(doc[k].children) && doc[k].text == old(doc[k].text)
      invariant forall k :: 0 <= k < i && !IsGrid(doc[k].attrs) ==> doc[k].children == old(doc[k].children) && doc[k].text == old(doc[k].text)
      invariant forall k :: 0 <= k < i ==> attrs[k] == doc[k].attrs && shown[k] == doc[k].children && texts[k] == doc[k].text
      invariant caches[0] == old(r.cache) && r.cache == caches[i]
      invariant Walked(attrs, shown, texts, defaults, currents, caches, r.env, r.now)
    {
      var e;
      ghost var attrs', shown', texts', currents', caches';
      e, attrs', shown', texts', currents', caches' := WalkStep(r, doc, i, defaults, v, attrs, shown, texts, currents, caches);
      if e.Some? {
        return e, i, attrs, shown, texts, currents, caches;
      }
      attrs, shown, texts, currents, caches := attrs', shown', texts', currents', caches';
      i := i + 1;
    }
    return None, |doc|, attrs, shown, texts, currents, caches;
  }

  /** `renderStoreGridAll(defaults)` over the document's elements in
      order: every `[data-amazon-grid]` element is rendered with the shared
      defaults and its own dataset. There is no try around
      `renderStoreGrid`, so a grid that can build no link (no ASIN and no
      search, yet some storefront admitted) stops the walk, left empty;
      the elements after it are left as they were. `stopped` is where the
      walk ended. The cache slot is carried from element to element:
      `caches[i]` is the slot element `i` finds, the first being the slot
      as the walk found it, and `currents[i]` the storefront
      `detectRegion()` gives from it. */
  method RenderStoreGridAll(r: Resolver, doc: seq<Element>, defaults: GridOptions, v: Version)
    returns (err: Option<Error>, ghost stopped: nat, ghost currents: seq<string>, ghost caches: seq<Option<CacheEntry>>)
    requires v.HasGrid()
    requires forall i, j :: 0 <= i < j < |doc| ==> doc[i] != doc[j]
    modifies r`cache, doc`children, doc`text
    ensures stopped <= |doc| && |currents| == stopped && |caches| == stopped + 1
    ensures err.Some? <==> stopped < |doc|
    ensures err.Some? ==>
      var s := SettingsOf(doc[stopped].attrs, defaults);
      && IsGrid(doc[stopped].attrs) && err.value == MissingAsin
      && s.asin == "" && s.search == "" && doc[stopped].children == [] && doc[stopped].text == ""
    ensures forall i :: stopped < i < |doc| ==> unchanged(doc[i])
    ensures forall i :: 0 <= i < stopped ==>
      if IsGrid(doc[i].attrs) then Rendered(doc[i].children, doc[i].text, doc[i].attrs, defaults, currents[i])
      else unchanged(doc[i])
    ensures caches[0] == old(r.cache)
    ensures forall i :: 0 <= i < stopped ==>
      && currents[i] == Resolve("", caches[i], r.env, r.now).code
      && caches[i + 1] == SlotAfterGrid(doc[i].attrs, defaults, caches[i], r.env, r.now)
    ensures r.cache == if err.None? then caches[stopped]
                       else SlotAfterGrid(doc[stopped].attrs, defaults, caches[stopped], r.env, r.now)
  {
    ghost var attrs, shown, texts;
    err, stopped, attrs, shown, texts, currents, caches := WalkGrids(r, doc, defaults, v);
    WalkedEach(attrs, shown, texts, defaults, currents, caches, r.env, r.now);
    forall i | 0 <= i < stopped
      ensures IsGrid(doc[i].attrs) ==> Rendered(doc[i].children, doc[i].text, doc[i].attrs, defaults, currents[i])
      ensures currents[i] == Resolve("", caches[i], r.env, r.now).code
      ensures caches[i + 1] == SlotAfterGrid(doc[i].attrs, defaults, caches[i], r.env, r.now)
    {
      assert GridStepped(attrs[i], shown[i], texts[i], defaults, currents[i], caches[i], caches[i + 1], r.env, r.now);
    }
  }

  /** The hand-off between grids: after a grid that showed anchors, the
      next `detectRegion()` (so the storefront the next grid puts first)
      is the last storefront shown, read from the slot and not rewritten,
      while the clock is not 0. */
  lemma NextGridLeadsWithLastShown(attrs: map<string, string>, defaults: GridOptions, cache: Option<CacheEntry>, env: Env, now: int)
    requires IsGrid(attrs) && now != 0
    ensures var s := SettingsOf(attrs, defaults);
      var codes := GridOrder(Listed(s.allow), Resolve("", cache, env, now).code, s.currentFirst);
      codes != [] && (s.asin != "" || s.search != "") ==>
        Resolve("", SlotAfterGrid(attrs, defaults, cache, env, now), env, now) == Decision(codes[|codes| - 1], false)
  {
    var s := SettingsOf(attrs, defaults);
    var current := Resolve("", cache, env, now).code;
    var codes := GridOrder(Listed(s.allow), current, s.currentFirst);
    if codes != [] && (s.asin != "" || s.search != "") {
      GridOrderStores(s.allow, current, s.currentFirst);
      RenderLeavesLast(codes, cache, Resolve("", cache, env, now), env, now);
    }
  }

  /** Every code in the grid's order is a storefront. */
  lemma GridOrderStores(allow: Option<seq<string>>, current: string, currentFirst: bool)
    ensures AllStores(GridOrder(Listed(allow), current, currentFirst))
  {
    ListedSpec(allow);
    GridOrderSpec(Listed(allow), current, currentFirst);
  }

  /** After a grid that linked a product, the next resolution lands on the
      last storefront drawn, without persisting it again. */
  lemma RenderLeavesLast(codes: seq<string>, cache: Option<CacheEntry>, d: Decision, env: Env, now: int)
    requires codes != [] && AllStores(codes) && now != 0
    ensures Resolve("", SlotAfterRender(codes, false, cache, d, now), env, now) == Decision(codes[|codes| - 1], false)
  {
    NextGridLeadsWithLast(codes, env, now);
  }

  /** As written, a grid whose last anchor is not the visitor's storefront
      moves the visitor: the next `detectRegion()` gives another storefront. */
  lemma GridMovesVisitor(attrs: map<string, string>, defaults: GridOptions, cache: Option<CacheEntry>, env: Env, now: int)
    requires IsGrid(attrs) && now != 0
    ensures var s := SettingsOf(attrs, defaults);
      var current := Resolve("", cache, env, now).code;
      var codes := GridOrder(Listed(s.allow), current, s.currentFirst);
      codes != [] && (s.asin != "" || s.search != "") && codes[|codes| - 1] != current ==>
        Resolve("", SlotAfterGrid(attrs, defaults, cache, env, now), env, now).code != current
  {
    NextGridLeadsWithLastShown(attrs, defaults, cache, env, now);
  }

  /** The slot a grid leaves when forcing each anchor's storefront is not
      remembered: as the grid's own `detectRegion()` left it. */
  function SlotAfterGridIntended(attrs: map<string, string>, cache: Option<CacheEntry>, env: Env, now: int): Option<CacheEntry>
  {
    if !IsGrid(attrs) then cache else CacheAfter(cache, Resolve("", cache, env, now), now)
  }

  /** With that slot, a grid leaves the visitor's storefront as it found it:
      the next `detectRegion()` gives the same storefront, while the clock
      is not 0. */
  lemma GridKeepsVisitorIntended(attrs: map<string, string>, cache: Option<CacheEntry>, env: Env, now: int)
    requires now != 0
    ensures Resolve("", SlotAfterGridIntended(attrs, cache, env, now), env, now).code == Resolve("", cache, env, now).code
  {
    var d := Resolve("", cache, env, now);
    if IsGrid(attrs) && d.persist {
      FreshCacheWins("", d.code, now, env, now);
    }
  }

  /** Each anchor a grid appends forces its own storefront into the cache
      slot, stamped with the current time, so a grid that showed anchors
      leaves the last of them there. While the clock is not 0, the next
      `detectRegion()`, and so the storefront the next grid puts first, is
      that one, read from the slot and not rewritten. */
  lemma NextGridLeadsWithLast(entries: seq<string>, env: Env, now: int)
    requires entries != [] && AllStores(entries) && now != 0
    ensures var last := entries[|entries| - 1];
      Resolve("", Some(CacheEntry(last, now)), env, now) == Decision(last, false)
  {
    var last := entries[|entries| - 1];
    assert IsStore(last);
    FreshCacheWins("", last, now, env, now);
  }
}
