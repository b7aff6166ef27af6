# Localization core of canvas-editor-toolbar, modelled in Dafny

The toolbar library translates its labels through one small module,
`src/i18n/index.ts`. That module holds four things:

- a catalog of language packs keyed by locale code (`zh-CN`, `en-US`);
- a resolver that picks the start-up locale. It tries the `userLocale`
  entry of local storage, then the browser language (exact match only),
  then the fixed default `zh-CN`;
- a mutable cell holding the active locale. The dictionary in use is
  derived from it, with the default pack as fallback. A validated switch,
  `setLocale`, updates the cell and persists the choice;
- the translation function `t`. It splits a key on `.` and walks the
  nested dictionary one owned key at a time. It returns the leaf string it
  reaches, or else the key itself. It warns only when a segment is missing.

Files:

- `wrappers.dfy`: `Option`.
- `keypath.dfy`: JavaScript's `split('.')` as `Split`, its inverse `Join`,
  and the two round trips between them.
- `catalog.dfy`: the dictionary tree `Node = Leaf | Dict`, an excerpt of
  the two language packs, the catalog `Messages`, the supported-locale list,
  and the lookup-or-default `MessagesFor`.
- `resolver.dfy`: `getDefaultLocale` as a pure function of the stored
  preference and the browser language, with its priority properties.
- `translation.dfy`: the walk `Resolve` and the meaning of `t`
  (`Translate`), together with the loop that `t` runs (`Lookup`). It proves
  that the walk completes exactly when every segment is owned along the
  path, and it gives the three outcomes of a lookup: leaf, branch, missing.
  Also worked lookups on a sample dictionary and on the catalog excerpt.
- `state.dfy`: class `I18n`. Its fields are the active locale, local
  storage (`map<string, string>`), the browser language, and a ghost log
  standing for `console.warn`. `SetLocale` and `T` are its methods.
  Three client methods replay start-up, switching and lookup.

Local storage and `navigator.language` are fields of `I18n`, set when it is
constructed. The console is a ghost log of the warning messages.

Three behaviours of the module a reader may not expect:

- `t` warns only when a segment is missing (src/i18n/index.ts:62-63). A key
  that ends on a sub-dictionary returns the key silently (line 68).
- The empty key is not an empty path. `"".split('.')` is `[""]`, so the
  empty key is a one-segment path and, in the catalog, a missing segment.
- `setLocale` with the code already active still writes `userLocale`
  (src/i18n/index.ts:50). The dictionary in use stays the same, but storage
  changes unless it already held that code, for instance when the locale
  came from the browser language.

## Model

| member | source | states |
|---|---|---|
| KeyPath.Split | src/i18n/index.ts:56 | `key.split('.')` yields at least one segment, and no segment contains a dot |
| KeyPath.JoinSplit | src/i18n/index.ts:56 | joining the segments of a key with dots gives the key back |
| KeyPath.SplitJoin | src/i18n/index.ts:56 | splitting a dot-join of dot-free segments gives exactly those segments |
| Catalog.Messages | src/i18n/index.ts:18-21 | the catalog maps `zh-CN` and `en-US` to their language packs, of which an excerpt is reproduced |
| Catalog.SupportedLocales | src/i18n/index.ts:12-15 | the published list: `zh-CN` (中文) then `en-US` (English) |
| Catalog.SupportedLocalesMatchCatalog | src/i18n/index.ts:12-21 | the published locale list names every catalog key exactly once and nothing else, `zh-CN` first |
| Catalog.MessagesFor | src/i18n/index.ts:42-44 | the derived dictionary always exists: the locale's own pack when it is a catalog key, the `zh-CN` pack otherwise |
| Resolver.Accepts | src/i18n/index.ts:26-31 | a source is taken only when it is present and is a catalog key (the guards at lines 26 and 31) |
| Resolver.GetDefaultLocale | src/i18n/index.ts:24-36 | the result is always a catalog key; a valid saved preference wins; otherwise an exactly matching browser language; otherwise `zh-CN` |
| Resolver.NeverUnsupported | src/i18n/index.ts:24-36 | no code outside the catalog is ever chosen, whichever source offers it |
| Resolver.SavedPreferenceWins | src/i18n/index.ts:25-28 | with a valid saved preference the browser language is irrelevant |
| Resolver.InvalidSavedIgnored | src/i18n/index.ts:25-28 | an absent or unknown saved value behaves as no preference at all |
| Resolver.NoPrefixMatching | src/i18n/index.ts:30-33 | `en`, `en-GB` and `zh` do not match `en-US` or `zh-CN`; the default is chosen |
| Resolver.StartupScenarios | src/i18n/index.ts:24-36 | browser `en-US` gives `en-US`; browser `fr-FR` gives `zh-CN`; an unknown saved value falls through to the browser language |
| Translation.Resolve | src/i18n/index.ts:59-65 | the walk: the node reached by following owned keys, or nothing at the first segment the current node does not own; a leaf string owns no segment |
| Translation.Translate | src/i18n/index.ts:55-69 | whenever the answer differs from the key, the key's path leads to a leaf holding exactly that answer |
| Translation.Lookup | src/i18n/index.ts:56-68 | the loop of `t` returns the answer `Translate` defines, and warns exactly when a segment is missing |
| Translation.ResolveConcat | src/i18n/index.ts:59-61 | walking a path `p + q` is walking `p`, then walking `q` from the node reached |
| Translation.ResolveSomeIffOwned | src/i18n/index.ts:59-61 | the walk completes if and only if each segment is an owned key of a dictionary reached by the segments before it |
| Translation.TranslateLeaf | src/i18n/index.ts:56-61 | a key whose dot-free segments lead to a leaf string translates to that string, with no warning |
| Translation.TranslateBranch | src/i18n/index.ts:68 | a key whose path ends on a sub-dictionary returns the key itself, with no warning |
| Translation.TranslateMissing | src/i18n/index.ts:59-64 | a key with a segment, at any depth, that the node reached before it does not own returns the key itself and warns |
| Translation.EmptyKey | src/i18n/index.ts:56-64 | the empty key is the one-segment path `[""]`: it returns `""` and warns, unless the root owns the empty key |
| TranslationExamples.SampleLeaf | src/i18n/index.ts:56-61 | in `{a: {b: {c: "X"}}}`, `a.b.c` gives `X` with no warning |
| TranslationExamples.SampleBranch | src/i18n/index.ts:68 | in the same dictionary, `a.b` gives `a.b` with no warning |
| TranslationExamples.SampleMissing | src/i18n/index.ts:62-64 | in the same dictionary, `x.y.z` gives `x.y.z` and warns |
| TranslationExamples.MissingBelowRoot | src/i18n/index.ts:59-64 | in `en-US`, `toolbar.nope` misses its second segment: `toolbar.nope` comes back and a warning is given |
| TranslationExamples.SaveInBothLocales | src/i18n/index.ts:55-69 | `toolbar.save` is `Save` in `en-US` and `保存` in `zh-CN` |
| TranslationExamples.NestedLeaf | src/i18n/index.ts:55-69 | `dialog.hyperlink.title` reaches its English leaf three levels down |
| TranslationExamples.PastLeaf | src/i18n/index.ts:59-64 | `toolbar.save.0` continues past a leaf string. Under the model's rule that descending into a leaf is a missing segment, the key comes back and a warning is given. JavaScript would give `S` (see Translation.Resolve under Left out) |
| LocaleState.I18n.constructor | src/i18n/index.ts:39 | the active locale starts as the resolver's choice from storage and browser language, a catalog key; no warning yet |
| LocaleState.I18n.CurrentMessages | src/i18n/index.ts:42-44 | the dictionary in use is a catalog pack, the active locale's own when the locale is a catalog key |
| LocaleState.I18n.NextStartLocale | src/i18n/index.ts:24-36 | a fresh start from the current storage and browser language chooses a catalog key |
| LocaleState.I18n.SetLocale | src/i18n/index.ts:47-52 | a catalog code becomes the active locale and is written to `userLocale`, leaving other storage keys as they were; a restart then chooses it; an unknown code changes nothing; switching to the active locale keeps the dictionary, and keeps storage when it already held that locale |
| LocaleState.I18n.T | src/i18n/index.ts:55-69 | `t` answers `Translate` on the current dictionary and appends `Translation key not found: <key>` to the warning log exactly when a segment is missing |

## Left out

- `install` (src/i18n/index.ts:72-86) registers the functions with Vue's global properties and `provide`. It has no logic of its own.
- Vue reactivity (`ref`, `computed`): `CurrentMessages` is recomputed from the `locale` field on every read. Re-rendering is not modelled.
- `localStorage` and `navigator` are fields set at construction. `Resolver.GetItem` stands for `localStorage.getItem` (src/i18n/index.ts:25). It only reads the map and has no logic of its own. Storage failures and other tabs writing to storage are not modelled.
- `console.warn` is a ghost log of message strings. It is not output.
- Translation.Resolve: descending into a leaf string counts as a missing segment. In JavaScript, `hasOwnProperty` on a string also accepts index and `length` segments (`toolbar.save.0` would give `S`), and an empty leaf string fails the truthiness test.
- LocaleState.I18n.CurrentMessages: a locale code naming a property of `Object.prototype` (such as `toString`) would, in JavaScript, select that property instead of the default pack. The model only knows the catalog's own keys.
- Catalog: only an excerpt of `src/i18n/locales/en-US.ts` and `src/i18n/locales/zh-CN.ts` is reproduced. The two packs are not proved to have the same key paths, since the code does not promise it.
- `vite.config.ts`, `src/index.ts` and `src/main.ts` are build configuration and Vue bootstrap, with no logic.
