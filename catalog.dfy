/**
 * The locale catalog: one nested translation dictionary per supported locale
 * code. Only an excerpt of the two locale files is reproduced; the lookup and
 * resolution logic is stated for any dictionary.
 */
module Catalog {

  /** A translation dictionary: a leaf string, or a mapping from keys to sub-dictionaries. */
  datatype Node = Leaf(text: string) | Dict(entries: map<string, Node>)

  /** The fixed default locale, also the first entry of `SupportedLocales`. */
  const DefaultLocale: string := "zh-CN"

  const ZhCN: Node := Dict(map[
    "toolbar" := Dict(map[
      "save" := Leaf("保存"),
      "export" := Leaf("导出"),
      "undo" := Leaf("撤销")]),
    "dialog" := Dict(map[
      "hyperlink" := Dict(map[
        "title" := Leaf("插入超链接"),
        "warning" := Dict(map[
          "emptyFields" := Leaf("请填写链接文本和地址"),
          "invalidUrl" := Leaf("请输入有效的链接地址")])])])])

  const EnUS: Node := Dict(map[
    "toolbar" := Dict(map[
      "save" := Leaf("Save"),
      "export" := Leaf("Export"),
      "undo" := Leaf("Undo")]),
    "dialog" := Dict(map[
      "hyperlink" := Dict(map[
        "title" := Leaf("Insert Hyperlink"),
        "warning" := Dict(map[
          "emptyFields" := Leaf("Please fill in both link text and URL"),
          "invalidUrl" := Leaf("Please enter a valid URL")])])])])

  /** All language packs, keyed by locale code. */
  const Messages: map<string, Node> := map["zh-CN" := ZhCN, "en-US" := EnUS]

  /** An entry of the published list of supported locales. */
  datatype LocaleInfo = LocaleInfo(code: string, name: string)

  const SupportedLocales: seq<LocaleInfo> := [LocaleInfo("zh-CN", "中文"), LocaleInfo("en-US", "English")]

  /** The published list names every catalog locale exactly once, the default first. */
  lemma SupportedLocalesMatchCatalog()
    ensures forall i :: 0 <= i < |SupportedLocales| ==> SupportedLocales[i].code in Messages
    ensures forall c :: c in Messages ==> exists i :: 0 <= i < |SupportedLocales| && SupportedLocales[i].code == c
    ensures forall i, j :: 0 <= i < j < |SupportedLocales| ==> SupportedLocales[i].code != SupportedLocales[j].code
    ensures SupportedLocales[0].code == DefaultLocale && DefaultLocale in Messages
  {
    forall c | c in Messages
      ensures exists i :: 0 <= i < |SupportedLocales| && SupportedLocales[i].code == c
    {
      if c == "zh-CN" { assert SupportedLocales[0].code == c; } else { assert SupportedLocales[1].code == c; }
    }
  }

  /**
   * The dictionary derived from a locale code: its own language pack when the
   * code is a catalog key, the default locale's pack otherwise. Never undefined.
   */
  function MessagesFor(locale: string): (d: Node)
    ensures d in Messages.Values
    ensures locale in Messages ==> d == Messages[locale]
    ensures locale !in Messages ==> d == Messages[DefaultLocale]
  {
    if locale in Messages then Messages[locale] else Messages[DefaultLocale]
  }
}
