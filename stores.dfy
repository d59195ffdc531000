/** The fixed tables of the store router: the thirteen storefronts (STORES),
    the ordered locale rules (LOCALE_MAP), the labels derived from them, and
    the three published versions of the router. */
module Stores {
  import opened Js

  /** The three published builds. They differ only in how `parseParams`
      treats the value text and in whether the store grid exists. */
  datatype Version = V1_0_0 | V1_1_0 | V1Esm
  {
    /** Only v1.0.0 lacks renderStoreGrid and renderStoreGridAll. */
    predicate HasGrid() { this != V1_0_0 }
  }

  datatype Store = Store(code: string, name: string, domain: string)

  /** The keys of STORES in the order they were written, which is the order
      `Object.entries` gives them. */
  const Codes: seq<string> :=
    ["AU", "BR", "CA", "DE", "ES", "FR", "IN", "IT", "JP", "MX", "NL", "UK", "US"]

  /** `STORES[code]`, for exactly the thirteen own keys of the table. */
  function Lookup(code: string): Option<Store>
  {
    match code
    case "AU" => Some(Store("AU", "Australia", "amazon.com.au"))
    case "BR" => Some(Store("BR", "Brazil", "amazon.com.br"))
    case "CA" => Some(Store("CA", "Canada", "amazon.ca"))
    case "DE" => Some(Store("DE", "Germany", "amazon.de"))
    case "ES" => Some(Store("ES", "Spain", "amazon.es"))
    case "FR" => Some(Store("FR", "France", "amazon.fr"))
    case "IN" => Some(Store("IN", "India", "amazon.in"))
    case "IT" => Some(Store("IT", "Italy", "amazon.it"))
    case "JP" => Some(Store("JP", "Japan", "amazon.co.jp"))
    case "MX" => Some(Store("MX", "Mexico", "amazon.com.mx"))
    case "NL" => Some(Store("NL", "Netherlands", "amazon.nl"))
    case "UK" => Some(Store("UK", "UK", "amazon.co.uk"))
    case "US" => Some(Store("US", "US", "amazon.com"))
    case _ => None
  }

  predicate IsStore(code: string)
  {
    Lookup(code).Some?
  }

  function Name(code: string): string
    requires IsStore(code)
  {
    Lookup(code).value.name
  }

  function Domain(code: string): string
    requires IsStore(code)
  {
    Lookup(code).value.domain
  }

  /** `(STORES[region] || STORES.UK).domain`. */
  function DomainFor(code: string): string
  {
    if IsStore(code) then Domain(code) else Domain("UK")
  }

  /** `label(code)`: "Amazon " and the store's name, or "Amazon UK" for an
      unknown code. */
  function Label(code: string): string
  {
    "Amazon " + (if IsStore(code) then Name(code) else "UK")
  }

  /** The storefront a link's host belongs to. */
  function RegionOfDomain(domain: string): Option<string>
  {
    match domain
    case "amazon.com.au" => Some("AU")
    case "amazon.com.br" => Some("BR")
    case "amazon.ca" => Some("CA")
    case "amazon.de" => Some("DE")
    case "amazon.es" => Some("ES")
    case "amazon.fr" => Some("FR")
    case "amazon.in" => Some("IN")
    case "amazon.it" => Some("IT")
    case "amazon.co.jp" => Some("JP")
    case "amazon.com.mx" => Some("MX")
    case "amazon.nl" => Some("NL")
    case "amazon.co.uk" => Some("UK")
    case "amazon.com" => Some("US")
    case _ => None
  }

  // ---------------------------------------------------------------------
  // facts about the table

  /** The codes listed in order are exactly the keys STORES answers to, and
      each store is filed under its own code. */
  lemma StoreCodes(code: string)
    ensures IsStore(code) <==> code in Codes
    ensures IsStore(code) ==> Lookup(code).value.code == code
  {
  }

  /** The host of a link tells which storefront it was built for: every
      store's domain maps back to its code. */
  lemma DomainRoundTrip(code: string)
    requires IsStore(code)
    ensures RegionOfDomain(Domain(code)) == Some(code)
  {
  }

  /** Two storefronts never share a domain. */
  lemma DomainInjective(a: string, b: string)
    requires IsStore(a) && IsStore(b) && Domain(a) == Domain(b)
    ensures a == b
  {
    DomainRoundTrip(a);
    DomainRoundTrip(b);
  }

  /** A store's label is "Amazon " and its name; an unknown code is
      labelled like UK. */
  lemma LabelOf(code: string)
    ensures IsStore(code) ==> Label(code) == "Amazon " + Name(code)
    ensures !IsStore(code) ==> Label(code) == Label("UK") == "Amazon UK"
  {
  }

  // ---------------------------------------------------------------------
  // locale rules

  /** A LOCALE_MAP pattern `/^head(?:-|_)?tail/i` (the optional separator
      only when `separator` is set) and the code it maps to. */
  datatype LocaleRule = LocaleRule(head: string, separator: bool, tail: string, code: string)

  /** LOCALE_MAP, in order. */
  const LocaleRules: seq<LocaleRule> := [
    LocaleRule("en-GB", false, "", "UK"),
    LocaleRule("en-AU", false, "", "AU"),
    LocaleRule("en-CA", false, "", "CA"),
    LocaleRule("en-US", false, "", "US"),
    LocaleRule("en-NZ", false, "", "AU"),
    LocaleRule("fr", true, "", "FR"),
    LocaleRule("de", true, "", "DE"),
    LocaleRule("es", true, "", "ES"),
    LocaleRule("it", true, "", "IT"),
    LocaleRule("nl", true, "", "NL"),
    LocaleRule("ja", true, "", "JP"),
    LocaleRule("pt", true, "BR", "BR"),
    LocaleRule("hi", true, "", "IN")
  ]

  /** `rule.test(lang)`: the head at the start (ignoring ASCII case), then
      either the tail straight away or, when the rule allows it, a '-' or '_'
      and then the tail. */
  predicate RuleMatches(rule: LocaleRule, lang: string)
  {
    StartsWithIgnoringCase(lang, rule.head)
    && var rest := lang[|rule.head|..];
       (StartsWithIgnoringCase(rest, rule.tail)
        || (rule.separator && rest != [] && (rest[0] == '-' || rest[0] == '_')
            && StartsWithIgnoringCase(rest[1..], rule.tail)))
  }

  /** Every code a locale rule yields is a storefront. */
  lemma RuleCodesAreStores()
    ensures forall i :: 0 <= i < |LocaleRules| ==> IsStore(LocaleRules[i].code)
  {
  }
}
