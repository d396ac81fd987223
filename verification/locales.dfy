/** The closed set of site locales and the bits of JavaScript value semantics
    the language selector's guards rely on. */
module Locales {

  /** An optional value: a DOM element that may be missing, a storage key that
      may be unset, a data attribute that may be absent. */
  datatype Option<+T> = None | Some(value: T)

  /** The `languages` table: every known locale code with its display label.
      `es` is the unprefixed default; `en` and `ca` live under `/en/` and `/ca/`. */
  const Languages: map<string, string> :=
    map["es" := "Español", "ca" := "Català", "en" := "English"]

  /** JavaScript truthiness of a string: only the empty string is falsy. */
  predicate Truthy(s: string) {
    s != ""
  }

  /** JavaScript's `a || b` on strings: `a` when truthy, else `b`. */
  function JsOr(a: string, b: string): string {
    if Truthy(a) then a else b
  }

  /** `localStorage.getItem` as a string operand of `||`: a missing key reads
      as `null`, which is falsy like the empty string. */
  function StorageValue(stored: Option<string>): string {
    match stored
    case Some(v) => v
    case None => ""
  }

  /** The property names every plain JavaScript object inherits from
      `Object.prototype`. Reading one of them off an object literal yields a
      function or an object, which is truthy. */
  const ObjectPrototypeNames: set<string> :=
    {"constructor", "hasOwnProperty", "isPrototypeOf", "propertyIsEnumerable",
     "toLocaleString", "toString", "valueOf", "__proto__",
     "__defineGetter__", "__defineSetter__", "__lookupGetter__", "__lookupSetter__"}

  /** `languages[lang]` in string form, as assigning it to a DOM property
      converts it; `None` is `undefined`. An own key gives its label; an
      inherited name gives the inherited value: `Object.prototype` itself for
      `__proto__`, the `Object` constructor for `constructor`, and otherwise
      the native method of that name (in the form V8 prints it). */
  function LanguagesLookup(lang: string): (v: Option<string>)
    ensures v.Some? <==> lang in Languages || lang in ObjectPrototypeNames
    ensures lang in Languages ==> v == Some(Languages[lang])
    ensures v.Some? ==> Truthy(v.value)
  {
    if lang in Languages then Some(Languages[lang])
    else if lang == "__proto__" then Some("[object Object]")
    else if lang == "constructor" then Some("function Object() { [native code] }")
    else if lang in ObjectPrototypeNames then Some("function " + lang + "() { [native code] }")
    else None
  }

  /** The locale whose label is `text`, if any: the reverse of `Languages`. */
  function LocaleOfLabel(text: string): (code: Option<string>)
    ensures code.Some? ==> code.value in Languages && Languages[code.value] == text
  {
    if text == Languages["es"] then Some("es")
    else if text == Languages["ca"] then Some("ca")
    else if text == Languages["en"] then Some("en")
    else None
  }

  /** Every label names exactly one locale, so the indicator text alone tells
      which locale is displayed. */
  lemma LabelIdentifiesLocale(code: string)
    requires code in Languages
    ensures LocaleOfLabel(Languages[code]) == Some(code)
  {
  }

  /** Every entry of the table is truthy, so for own keys the guard
      `languages[lang]` is exactly membership. */
  lemma LabelsTruthy(code: string)
    requires code in Languages
    ensures Truthy(Languages[code])
  {
  }
}
