/**
 * The module-level state of the localization module: the active locale cell,
 * the browser's local storage and reported language it reads, and the warning
 * channel the translation function writes to. The dictionary of the active
 * locale is derived from the cell on every read.
 */
module LocaleState {
  import opened Wrappers
  import opened Catalog
  import opened Resolver
  import opened Translation
  import TranslationExamples
  import KeyPath

  /** The diagnostic `t` emits for a missing key. */
  function MissingKeyWarning(key: string): string {
    "Translation key not found: " + key
  }

  class I18n {
    /** `currentLocale`: exported and writable, so it may hold a code outside the catalog. */
    var locale: string
    /** `localStorage`: the only slot used is `userLocale`. */
    var storage: map<string, string>
    /** `navigator.language`, when the browser reports one. */
    var browserLang: Option<string>
    /** The messages passed to `console.warn`, oldest first. */
    ghost var warnings: seq<string>

    /** Module load: the active locale starts as the resolver's choice. */
    constructor (storage: map<string, string>, browserLang: Option<string>)
      ensures this.storage == storage && this.browserLang == browserLang && warnings == []
      ensures locale == GetDefaultLocale(GetItem(storage, UserLocaleKey), browserLang)
      ensures locale in Messages
    {
      this.storage := storage;
      this.browserLang := browserLang;
      locale := GetDefaultLocale(GetItem(storage, UserLocaleKey), browserLang);
      warnings := [];
    }

    /** `currentMessages`: the active locale's pack, or the default pack when the cell holds an unknown code. */
    function CurrentMessages(): (d: Node)
      reads this
      ensures d in Messages.Values
      ensures locale in Messages ==> d == Messages[locale]
      ensures locale !in Messages ==> d == Messages[DefaultLocale]
    {
      MessagesFor(locale)
    }

    /** What the resolver would choose on a fresh start from the current storage and browser language. */
    function NextStartLocale(): (r: string)
      reads this
      ensures r in Messages
    {
      GetDefaultLocale(GetItem(storage, UserLocaleKey), browserLang)
    }

    /**
     * `setLocale`: a catalog code becomes the active locale and is persisted
     * under `userLocale`; any other code is ignored without a trace.
     */
    method SetLocale(c: string)
      modifies this`locale, this`storage
      ensures c in Messages ==> locale == c && storage == old(storage)[UserLocaleKey := c]
      ensures c !in Messages ==> locale == old(locale) && storage == old(storage)
      ensures c in Messages ==> NextStartLocale() == c
      ensures c == old(locale) ==> locale == old(locale) && CurrentMessages() == old(CurrentMessages())
      ensures c == old(locale) && GetItem(old(storage), UserLocaleKey) == Some(c) ==> storage == old(storage)
    {
      if c in Messages {
        locale := c;
        storage := storage[UserLocaleKey := c];
      }
    }

    /** `t`: look `key` up in the current dictionary, warning once when a segment is missing. */
    method T(key: string) returns (text: string)
      modifies this`warnings
      ensures text == Translate(CurrentMessages(), key)
      ensures text != key ==> Resolve(CurrentMessages(), KeyPath.Split(key)) == Some(Leaf(text))
      ensures warnings == old(warnings) + if Missing(CurrentMessages(), key) then [MissingKeyWarning(key)] else []
    {
      var warned;
      text, warned := Lookup(CurrentMessages(), key);
      if warned {
        warnings := warnings + [MissingKeyWarning(key)];
      }
    }
  }

  /** Start-up with no preference and browser `en-US` shows English; an unknown code is ignored. */
  method StartupScenario()
  {
    var s := new I18n(map[], Some("en-US"));
    assert GetItem(map[], UserLocaleKey) == None;
    assert s.locale == "en-US";
    s.SetLocale("fr-FR");
    assert s.locale == "en-US" && s.storage == map[];
  }

  /** A switch to `zh-CN` survives a restart. */
  method SwitchScenario()
  {
    var s := new I18n(map[], Some("en-US"));
    s.SetLocale("zh-CN");
    assert s.locale == "zh-CN";
    var restarted := new I18n(s.storage, s.browserLang);
    assert restarted.locale == "zh-CN";
  }

  /** With `zh-CN` saved, `toolbar.save` shows the Chinese label and nothing is logged. */
  method LookupScenario()
  {
    TranslationExamples.SaveInBothLocales();
    var s := new I18n(map[UserLocaleKey := "zh-CN"], Some("en-US"));
    var hello := s.T("toolbar.save");
    assert hello == "保存" && s.warnings == [];
  }
}
