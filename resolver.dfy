/**
 * The locale resolver run once at start-up: the persisted preference if it is
 * a catalog key, else the browser language if it is exactly a catalog key,
 * else the fixed default. It reads its two sources and changes nothing.
 */
module Resolver {
  import opened Wrappers
  import opened Catalog

  /** The storage slot that holds the persisted preference. */
  const UserLocaleKey: string := "userLocale"

  /** `localStorage.getItem(key)`: the stored string, or nothing. */
  function GetItem(storage: map<string, string>, key: string): (r: Option<string>)
    ensures r.Some? <==> key in storage
    ensures r.Some? ==> r.value == storage[key]
  {
    if key in storage then Some(storage[key]) else None
  }

  /** A source is accepted when it is present and names a catalog locale. */
  predicate Accepts(source: Option<string>) {
    source.Some? && source.value in Messages
  }

  /** `getDefaultLocale`, with the saved preference and `navigator.language` as inputs. */
  function GetDefaultLocale(saved: Option<string>, browserLang: Option<string>): (r: string)
    ensures r in Messages
    ensures Accepts(saved) ==> r == saved.value
    ensures !Accepts(saved) && Accepts(browserLang) ==> r == browserLang.value
    ensures !Accepts(saved) && !Accepts(browserLang) ==> r == DefaultLocale
  {
    if Accepts(saved) then saved.value
    else if Accepts(browserLang) then browserLang.value
    else DefaultLocale
  }

  /** A code outside the catalog is never chosen, whichever source supplies it. */
  lemma NeverUnsupported(saved: Option<string>, browserLang: Option<string>, c: string)
    requires c !in Messages
    ensures GetDefaultLocale(saved, browserLang) != c
  {
  }

  /** A valid saved preference wins whatever the browser reports. */
  lemma SavedPreferenceWins(c: string, b1: Option<string>, b2: Option<string>)
    requires c in Messages
    ensures GetDefaultLocale(Some(c), b1) == GetDefaultLocale(Some(c), b2) == c
  {
  }

  /** An absent or unknown saved value is the same as no preference at all. */
  lemma InvalidSavedIgnored(saved: Option<string>, browserLang: Option<string>)
    requires saved.None? || saved.value !in Messages
    ensures GetDefaultLocale(saved, browserLang) == GetDefaultLocale(None, browserLang)
  {
  }

  /** The browser language must match exactly: a bare language or an unknown region falls to the default. */
  lemma NoPrefixMatching()
    ensures GetDefaultLocale(None, Some("en")) == DefaultLocale
    ensures GetDefaultLocale(None, Some("en-GB")) == DefaultLocale
    ensures GetDefaultLocale(None, Some("zh")) == DefaultLocale
  {
  }

  /** No preference and browser `en-US` gives `en-US`; browser `fr-FR` gives the default `zh-CN`. */
  lemma StartupScenarios()
    ensures GetDefaultLocale(None, Some("en-US")) == "en-US"
    ensures GetDefaultLocale(None, Some("fr-FR")) == "zh-CN"
    ensures GetDefaultLocale(Some("fr-FR"), Some("en-US")) == "en-US"
    ensures GetDefaultLocale(None, None) == "zh-CN"
  {
  }
}
