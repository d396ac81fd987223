/** `updateDisplay` as a pure function over the two optional indicator
    elements of the page: the flag image and the label text. */
module Display {
  import opened Locales

  datatype FlagImage = FlagImage(src: string, alt: string)

  /** The locale indicator; a `None` field is an element the page lacks. */
  datatype Indicator = Indicator(flag: Option<FlagImage>, caption: Option<string>)

  function FlagPath(lang: string): string {
    "/assets/images/languages/" + lang + ".svg"
  }

  /** Assigning `languages[lang]` to `alt`: `undefined` becomes the string
      "undefined". */
  function AltText(lang: string): string {
    match LanguagesLookup(lang)
    case Some(text) => text
    case None => "undefined"
  }

  /** Assigning `languages[lang]` to `textContent`: `undefined` empties the
      element. */
  function LabelText(lang: string): string {
    match LanguagesLookup(lang)
    case Some(text) => text
    case None => ""
  }

  /** Point both present elements at `lang`; an absent element stays absent. */
  function UpdateDisplay(ind: Indicator, lang: string): (shown: Indicator)
    ensures shown.flag.Some? <==> ind.flag.Some?
    ensures shown.caption.Some? <==> ind.caption.Some?
  {
    Indicator(
      if ind.flag.Some? then Some(FlagImage(FlagPath(lang), AltText(lang))) else None,
      if ind.caption.Some? then Some(LabelText(lang)) else None)
  }

  /** The locale an indicator shows, read back from its label (or, with no
      label element, from the flag's alt text). */
  function DisplayedLocale(ind: Indicator): Option<string> {
    if ind.caption.Some? then LocaleOfLabel(ind.caption.value)
    else if ind.flag.Some? then LocaleOfLabel(ind.flag.value.alt)
    else None
  }

  /** For a known locale, the updated indicator reads back as that locale
      whenever the page has either element, and the flag shows its image. */
  lemma UpdateDisplayShowsLocale(ind: Indicator, lang: string)
    requires lang in Languages
    ensures ind.flag.Some? || ind.caption.Some? ==> DisplayedLocale(UpdateDisplay(ind, lang)) == Some(lang)
    ensures ind.flag.Some? ==> UpdateDisplay(ind, lang).flag.value.src == FlagPath(lang)
    ensures ind.flag.Some? ==> LocaleOfLabel(UpdateDisplay(ind, lang).flag.value.alt) == Some(lang)
    ensures ind.caption.Some? ==> LocaleOfLabel(UpdateDisplay(ind, lang).caption.value) == Some(lang)
  {
    LabelIdentifiesLocale(lang);
  }

  /** The display depends only on the last locale written to it. */
  lemma UpdateDisplayLastWins(ind: Indicator, a: string, b: string)
    ensures UpdateDisplay(UpdateDisplay(ind, a), b) == UpdateDisplay(ind, b)
  {
  }
}
