# Language selector model

A Dafny model of the client-side language switcher of a three-locale static
site (`es`, the unprefixed default; `en` under `/en/`; `ca` under `/ca/`).
The script works out which locale the current URL shows and draws a locale
indicator (flag image and label). When the user picks another locale it
stores that choice under the `language` key of local storage. It then
navigates to a per-page permalink, or to a URL derived by rewriting the path
prefix. On the local host names `127.0.0.1` and `localhost` it first sends a
HEAD request. If that request fails it stays on the page and only updates
the indicator.

Browser globals are explicit inputs here:
- the path (`window.location.pathname`) and the host name;
- the `permalink-map` data island after parsing;
- how the HEAD probe settles.

The effects form an immutable state with three parts: the stored preference,
the URL navigated to (`None` while the page stays), and the indicator.

Modules:
- `Locales`: the `languages` table, JavaScript truthiness and `||` on strings,
  and the names every object inherits from `Object.prototype`.
- `Paths`: the resolver `Resolve` (`getCurrentLanguageFromURL`), the pattern
  `^\/(en|ca)` as `CleanPath`, and `GenerateFallbackURL`.
- `Display`: `updateDisplay` as a pure function over the two optional
  elements.
- `Navigation`:
  - the target choice, `navigateToLanguage` and `checkURLAndNavigate`;
  - `isDevelopment` (`IsDevelopment`, the two exact host names);
  - the `languages[lang]` guards of `setLanguage` and the click handler;
  - `init`'s choice of the first locale;
  - a fold of several clicks handled on one page.

Three facts about the code shape the model:
- The script does no deployment-root detection or root qualification, and
  does not tell absolute permalinks from relative ones. A permalink entry is
  used verbatim.
- The resolver tests `startsWith('/en/')` and `startsWith('/ca/')`, so the
  bare paths `/en` and `/ca` resolve to `es`.
- The fallback URL is idempotent for `en` and `ca` but not for `es`:
  `/en/en/x` gives `/en/x`, then `/x`.

The pattern has no boundary after the tag, so `/english` is cleaned to
`glish`, and switching to `ca` from there gives `/caglish`.

## Model

| member | source | states |
|---|---|---|
| `Paths.Resolve` | assets/js/language-selector.js:17-22 | always one of the three codes; `en` iff the path starts with `/en/`, `ca` iff it starts with `/ca/`, `es` iff neither |
| `Paths.BareTagResolvesToDefault` | assets/js/language-selector.js:17-22 | a path starting with `/en` or `/ca` not followed by `/` (the bare tags, `/english`) resolves to `es` |
| `Paths.CleanPath` | assets/js/language-selector.js:101 | never empty; a tagged path is its first three characters followed by the result; an untagged non-empty path is returned as is |
| `Paths.CleanTagged` | assets/js/language-selector.js:101 | cleaning `/en` or `/ca` followed by a non-empty rest gives back exactly the rest |
| `Paths.GenerateFallbackURL` | assets/js/language-selector.js:97-114 | for `en`/`ca` the result is `/en`/`/ca` followed by the cleaned path; for `es` and unknown codes it is the cleaned path; never empty |
| `Paths.FallbackRootPaths` | assets/js/language-selector.js:101-110 | on `/`, `/en`, `/ca` or an empty path: `es` gives `/`, `en` gives `/en/`, `ca` gives `/ca/` |
| `Paths.FallbackIdempotent` | assets/js/language-selector.js:101-110 | for `en` and `ca`, applying the fallback to its own output gives the same output |
| `Paths.DefaultFallbackNotIdempotent` | assets/js/language-selector.js:101-106 | for `es` idempotence fails: `/en/en/x` gives `/en/x`, then `/x` |
| `Paths.FallbackRoundTrip` | assets/js/language-selector.js:101-110 | for `en`/`ca`, the fallback URL resolves back to the requested locale iff the cleaned path starts with `/` |
| `Paths.TagStrippedInsideWord` | assets/js/language-selector.js:101 | `/english` cleans to `glish`; its `ca` fallback is `/caglish`, which resolves to `es` |
| `Paths.DefaultFallbackCanLeaveDefault` | assets/js/language-selector.js:101-106 | the `es` fallback of `/en/ca/x` is `/ca/x`, a page of locale `ca` |
| `Locales.LocaleOfLabel` | assets/js/language-selector.js:5-9 | a label found in the table belongs to the returned locale |
| `Locales.LabelIdentifiesLocale` | assets/js/language-selector.js:5-9 | the labels are distinct, so each label names exactly its locale |
| `Locales.LanguagesLookup` | assets/js/language-selector.js:5-9 | `languages[lang]` is defined exactly for the three table keys and the inherited `Object.prototype` names; a table key gives its label; every defined value is truthy |
| `Locales.LabelsTruthy` | assets/js/language-selector.js:5-9 | every table entry is truthy, so for own keys the guard is plain membership |
| `Display.UpdateDisplay` | assets/js/language-selector.js:24-33 | a missing flag or label element stays missing; a present one stays present |
| `Display.UpdateDisplayShowsLocale` | assets/js/language-selector.js:24-33 | after an update for a known locale, a page with either element shows that locale; the flag points at the locale's image |
| `Display.UpdateDisplayLastWins` | assets/js/language-selector.js:24-33 | two updates in a row leave exactly what the second alone leaves |
| `Navigation.TargetURL` | assets/js/language-selector.js:47-64 | a truthy permalink entry is the target verbatim; a missing element, a parse failure, a non-object, or a missing or empty entry gives the fallback URL |
| `Navigation.CheckURLAndNavigate` | assets/js/language-selector.js:79-95 | an ok probe navigates to the target and keeps the indicator; a non-ok response or a probe error keeps the location and shows `lang` |
| `Navigation.NavigateToLanguage` | assets/js/language-selector.js:35-73 | same locale as the URL: nothing changes; otherwise the preference becomes `lang`, and the page either goes to the target or only the indicator changes |
| `Navigation.ProductionAlwaysNavigates` | assets/js/language-selector.js:67-72 | off the local host names a switch always navigates to the target, stores `lang` and leaves the indicator |
| `Navigation.DevelopmentNavigatesIffProbeOk` | assets/js/language-selector.js:67-95 | on a local host a switch navigates iff the probe is ok; otherwise the location stays and the indicator shows `lang` |
| `Navigation.IsDevelopment` | assets/js/language-selector.js:75-77 | the development test: exactly the host names `127.0.0.1` and `localhost`; its effect is stated by `ProbeConsultedOnlyInDevelopment` |
| `Navigation.ProbeConsultedOnlyInDevelopment` | assets/js/language-selector.js:67-77 | `isDevelopment` holds exactly for `127.0.0.1` and `localhost`: elsewhere the probe's outcome cannot change a switch; there an ok and a failed probe always give different states |
| `Navigation.FallbackNavigationReachesLocale` | assets/js/language-selector.js:61-71 | a navigation to `en`/`ca` through the fallback lands on a page of that locale when the cleaned path starts with `/` |
| `Navigation.SetLanguage` | assets/js/language-selector.js:133-137 | an unknown code changes nothing; a known code does what `navigateToLanguage` does (guard as corrected, see Findings) |
| `Navigation.OnLanguageClick` | assets/js/language-selector.js:118-124 | a control without `data-lang` changes nothing; otherwise the click acts as `setLanguage` on the attribute (guard as corrected, see Findings) |
| `Navigation.OnLanguageClickAsWritten` | assets/js/language-selector.js:118-124 | the click handler with the guard as written: a missing `data-lang` changes nothing; otherwise it acts as the as-written `setLanguage` |
| `Navigation.SwitchChangesStateOnlyForOtherLocale` | assets/js/language-selector.js:36-44 | a state change implies a known locale other than the URL's; such a locale is then the stored preference (guard as corrected, see Findings) |
| `Navigation.InitialLanguage` | assets/js/language-selector.js:11-12 | the first locale is always the URL's locale; the local-storage fallback cannot be reached |
| `Navigation.Init` | assets/js/language-selector.js:11-15 | after `init` nothing is stored or navigated, and a page with an indicator shows the URL's locale |
| `Navigation.LanguagesLookupTruthy` | assets/js/language-selector.js:122 | the as-written guard passes exactly the three locale codes and the inherited `Object.prototype` names |
| `Navigation.SetLanguageAsWritten` | assets/js/language-selector.js:133-137 | with the truthy-lookup guard, a code that is neither a table key nor an inherited name changes nothing, and a table key acts as with the corrected guard |
| `Navigation.PrototypeNamePassesGuard` | assets/js/language-selector.js:133-137 | `setLanguage('toString')` stores `toString` and, in production with no permalink data, navigates to the cleaned path; the click handler does the same with `data-lang="toString"`; the corrected guard ignores it |
| `Navigation.PrototypeNameShownOnFailedProbe` | assets/js/language-selector.js:28-32 | on `localhost` with a failed probe, `setLanguage('toString')` stays on the page and sets the label to the inherited method's text `function toString() { [native code] }`, which names no locale |
| `Navigation.Session` | assets/js/language-selector.js:116-127 | the click handlers run one after another on one page, each probe settling before the next click: once the page has navigated no click changes anything, and the stored preference is either unchanged or a known locale other than the URL's (guard as corrected, see Findings) |
| `Navigation.LastSwitch` | assets/js/language-selector.js:36-44 | specification helper of `FailedProbesKeepPage`: `None` exactly when no click passes the guard with a locale other than the URL's; otherwise the locale of the last click that does, that is, the last click that reaches line 44 (guard as corrected, see Findings) |
| `Navigation.FailedProbesKeepPage` | assets/js/language-selector.js:79-95 | on a local host where no probe succeeds, any sequence of clicks leaves the page in place. Preference and indicator follow the last switching click, or stay unchanged if no click switches (guard as corrected, see Findings) |
| `Navigation.StaleIndicatorAfterFailedProbe` | assets/js/language-selector.js:36-41 | after a failed switch to `en` on a default-locale page the indicator shows English. A later click on `es` is ignored because the no-op test reads the URL |

## Left out

- DOM querying and event wiring are not modelled. This covers the body of `setupEventListeners`, `preventDefault`, the `readyState`/`DOMContentLoaded` gate and the `window.PersualiaPlusI18n` registration. Only the guard they apply is modelled. The public `getCurrentLanguage`, `generateFallbackURL` and `isDevelopment` are `Resolve`, `GenerateFallbackURL` and `IsDevelopment`.
- The `fetch` HEAD request and its promise chain are an input: `Probe` is ok, not ok, or error. Races between probes of concurrent clicks are not modelled. `Session` assumes each probe settles before the next click.
- `JSON.parse` is an input: `Permalinks` is no element, parse failure, non-object, or an object of string entries. Non-string JSON values (numbers, nested objects) are not modelled.
- `NavigateToLanguage`: reading an `Object.prototype` name off parsed permalink data (an object, or a non-object JSON value such as a number, string or array) yields an inherited function in the source. The model treats it as a missing entry. Only the as-written guard lets such a name reach this point.
- `Locales.LanguagesLookup`: the text of an inherited native method is the form V8 prints (`function toString() { [native code] }`); other engines may lay it out differently.
- `Navigation.Session`: assumes that a navigation unloads the page before the next click is handled. In the browser, assigning `window.location.href` does not stop the script. A click that arrives before the unload still runs `navigateToLanguage`, stores its own locale and replaces the pending destination.
- `Navigation.Session`: runs the click handlers behind the corrected guard, as do `LastSwitch` and `FailedProbesKeepPage`. With the guard as written, a click on `data-lang="toString"` also stores its value. That case is covered separately by `OnLanguageClickAsWritten` and `PrototypeNamePassesGuard`.
- `console.warn` logging is not modelled. It has no effect on the state.
- `localStorage` is a single optional string. Navigation is recorded as the assigned URL string. The browser's resolution of a relative URL is not modelled.
- The flag image's `src` is kept as the assigned string. The browser's conversion to an absolute URL is not modelled.

## Findings

| source | as written | input that shows it | evidently intended | confidence | as-written member | corrected member |
|---|---|---|---|---|---|---|
| assets/js/language-selector.js:133-137 | the guard `languages[lang]` is a property read on an object literal, truthy for every name it inherits from `Object.prototype`; the click handler (line 122) applies the same guard | `setLanguage('toString')` in production with no permalink element stores `toString` and navigates to the `es` version of the page | only the three locale codes reach `navigateToLanguage`; unknown codes are ignored | high; not executed | `Navigation.PrototypeNamePassesGuard` | `Navigation.SetLanguage` |
