/** The navigation decision of the language selector (`navigateToLanguage`,
    `checkURLAndNavigate`), the guards in front of it, and `init`'s choice of
    the first displayed locale. Browser globals are explicit: the page's path
    and host name, the permalink data island, and the outcome of the HEAD
    probe are inputs; the stored preference, the navigated-to URL and the
    indicator are the state. */
module Navigation {
  import opened Locales
  import opened Paths
  import opened Display

  /** The `permalink-map` element, after `JSON.parse` of its text. */
  datatype Permalinks =
    | NoElement                              // no element with that id
    | ParseFailed                            // `JSON.parse` threw
    | NotAnObject                            // `null`, a number, a string, ...
    | Parsed(entries: map<string, string>)   // an object of string values

  /** How the development-mode HEAD request settles. */
  datatype Probe = ProbeOk | ProbeNotOk | ProbeError

  datatype Env = Env(path: string, hostname: string, permalinks: Permalinks, probe: Probe)

  /** `stored` is the `language` key of local storage; `location` is the URL
      the page navigated to, `None` while it stays. */
  datatype State = State(stored: Option<string>, location: Option<string>, indicator: Indicator)

  /** `isDevelopment`: exactly the two local host names. */
  predicate IsDevelopment(hostname: string) {
    hostname == "127.0.0.1" || hostname == "localhost"
  }

  /** Whether the permalink data holds a truthy entry for `lang`. */
  predicate HasPermalink(pm: Permalinks, lang: string) {
    pm.Parsed? && lang in pm.entries && Truthy(pm.entries[lang])
  }

  /** The URL `navigateToLanguage` heads for: a truthy permalink entry
      verbatim, otherwise the derived fallback. */
  function TargetURL(path: string, lang: string, pm: Permalinks): (url: string)
    ensures HasPermalink(pm, lang) ==> url == pm.entries[lang]
    ensures !HasPermalink(pm, lang) ==> url == GenerateFallbackURL(path, lang)
    ensures Truthy(url)
  {
    var fromMap: Option<string> :=
      match pm
      case Parsed(entries) =>
        if lang in entries && Truthy(entries[lang]) then Some(entries[lang]) else None
      case _ => None;
    if fromMap.Some? then fromMap.value else GenerateFallbackURL(path, lang)
  }

  /** `checkURLAndNavigate`: go on an ok response; on a failed response or a
      probe error stay put and show `lang`. */
  function CheckURLAndNavigate(s: State, target: string, lang: string, probe: Probe): (s': State)
    ensures s'.stored == s.stored
    ensures probe == ProbeOk ==> s'.location == Some(target) && s'.indicator == s.indicator
    ensures probe != ProbeOk ==> s'.location == s.location && s'.indicator == UpdateDisplay(s.indicator, lang)
  {
    match probe
    case ProbeOk => s.(location := Some(target))
    case ProbeNotOk => s.(indicator := UpdateDisplay(s.indicator, lang))
    case ProbeError => s.(indicator := UpdateDisplay(s.indicator, lang))
  }

  /** `navigateToLanguage`: nothing when the URL already shows `lang`;
      otherwise store the preference first, then navigate (production) or
      probe and navigate or redisplay (development). */
  function NavigateToLanguage(env: Env, s: State, lang: string): (s': State)
    ensures Resolve(env.path) == lang ==> s' == s
    ensures Resolve(env.path) != lang ==> s'.stored == Some(lang)
    ensures Resolve(env.path) != lang ==>
      || (s'.location == Some(TargetURL(env.path, lang, env.permalinks)) && s'.indicator == s.indicator)
      || (s'.location == s.location && s'.indicator == UpdateDisplay(s.indicator, lang))
  {
    if Resolve(env.path) == lang then s
    else
      var saved := s.(stored := Some(lang));
      var target := TargetURL(env.path, lang, env.permalinks);
      if IsDevelopment(env.hostname) then CheckURLAndNavigate(saved, target, lang, env.probe)
      else saved.(location := Some(target))
  }

  /** Outside the two local host names a switch always navigates, with no
      probe, and leaves the indicator alone. */
  lemma ProductionAlwaysNavigates(env: Env, s: State, lang: string)
    requires !IsDevelopment(env.hostname)
    requires Resolve(env.path) != lang
    ensures NavigateToLanguage(env, s, lang)
         == State(Some(lang), Some(TargetURL(env.path, lang, env.permalinks)), s.indicator)
  {
  }

  /** On a local host the page navigates exactly when the probe is ok; when
      it is not, the location is unchanged and only the indicator moves. */
  lemma DevelopmentNavigatesIffProbeOk(env: Env, s: State, lang: string)
    requires IsDevelopment(env.hostname)
    requires Resolve(env.path) != lang
    requires s.location == None
    ensures NavigateToLanguage(env, s, lang).location.Some? <==> env.probe == ProbeOk
    ensures env.probe == ProbeOk ==>
      NavigateToLanguage(env, s, lang)
      == State(Some(lang), Some(TargetURL(env.path, lang, env.permalinks)), s.indicator)
    ensures env.probe != ProbeOk ==>
      NavigateToLanguage(env, s, lang) == State(Some(lang), None, UpdateDisplay(s.indicator, lang))
  {
  }

  /** The probe is consulted exactly on the two local host names: elsewhere
      its outcome cannot change a switch, there an ok and a failed probe
      always lead to different states. */
  lemma ProbeConsultedOnlyInDevelopment(env: Env, s: State, lang: string, other: Probe)
    requires Resolve(env.path) != lang
    ensures !IsDevelopment(env.hostname) ==>
      NavigateToLanguage(env.(probe := other), s, lang) == NavigateToLanguage(env, s, lang)
    ensures IsDevelopment(env.hostname) && s.location == None ==>
      NavigateToLanguage(env.(probe := ProbeOk), s, lang)
      != NavigateToLanguage(env.(probe := ProbeNotOk), s, lang)
  {
  }

  /** Whatever the permalink data, every switch away from the current locale
      that navigates lands on a page of the requested locale when it follows
      the fallback and the cleaned path is rooted. */
  lemma FallbackNavigationReachesLocale(env: Env, s: State, lang: string)
    requires lang == "en" || lang == "ca"
    requires !HasPermalink(env.permalinks, lang)
    requires StartsWith(CleanPath(env.path), "/")
    requires NavigateToLanguage(env, s, lang).location != s.location
    ensures Resolve(NavigateToLanguage(env, s, lang).location.value) == lang
  {
    FallbackRoundTrip(env.path, lang);
  }

  /** `setLanguage` behind the corrected guard: only the three locale codes
      reach `navigateToLanguage`. */
  function SetLanguage(env: Env, s: State, lang: string): (s': State)
    ensures lang !in Languages ==> s' == s
    ensures lang in Languages ==> s' == NavigateToLanguage(env, s, lang)
  {
    if lang in Languages then NavigateToLanguage(env, s, lang) else s
  }

  /** The click handler of a `.language-option` control; `dataLang` is its
      `data-lang` attribute, `None` when the attribute is missing (the lookup
      key is then the string "undefined", which is not a locale). */
  function OnLanguageClick(env: Env, s: State, dataLang: Option<string>): (s': State)
    ensures dataLang.None? ==> s' == s
    ensures dataLang.Some? ==> s' == SetLanguage(env, s, dataLang.value)
  {
    var key := if dataLang.Some? then dataLang.value else "undefined";
    SetLanguage(env, s, key)
  }

  /** Only a known locale other than the current one changes anything, and
      then the stored preference is that locale. */
  lemma SwitchChangesStateOnlyForOtherLocale(env: Env, s: State, lang: string)
    ensures SetLanguage(env, s, lang) != s ==> lang in Languages && lang != Resolve(env.path)
    ensures lang in Languages && lang != Resolve(env.path) ==> SetLanguage(env, s, lang).stored == Some(lang)
  {
  }

  /** `init`'s first locale: `URL || localStorage || 'es'`. The resolver never
      returns a falsy value, so the stored preference is never consulted. */
  function InitialLanguage(path: string, stored: Option<string>): (lang: string)
    ensures lang == Resolve(path)
    ensures lang in Languages
  {
    JsOr(JsOr(Resolve(path), StorageValue(stored)), "es")
  }

  /** The page right after `init`: nothing stored or navigated, the indicator
      showing the locale of the URL. */
  function Init(path: string, stored: Option<string>, ind: Indicator): (s: State)
    ensures s.stored == stored && s.location == None
    ensures ind.flag.Some? || ind.caption.Some? ==> DisplayedLocale(s.indicator) == Some(Resolve(path))
  {
    var lang := InitialLanguage(path, stored);
    UpdateDisplayShowsLocale(ind, lang);
    State(stored, None, UpdateDisplay(ind, lang))
  }

  /** The guard as written, `languages[lang]` truthy: an own entry of the
      table, or a name every object inherits from `Object.prototype`. */
  function LanguagesLookupTruthy(lang: string): (pass: bool)
    ensures pass <==> lang in Languages || lang in ObjectPrototypeNames
  {
    var v := LanguagesLookup(lang);
    v.Some? && Truthy(v.value)
  }

  /** `setLanguage` with the guard as written. */
  function SetLanguageAsWritten(env: Env, s: State, lang: string): (s': State)
    ensures !LanguagesLookupTruthy(lang) ==> s' == s
    ensures LanguagesLookupTruthy(lang) ==> s' == NavigateToLanguage(env, s, lang)
    ensures lang in Languages ==> s' == SetLanguage(env, s, lang)
  {
    if LanguagesLookupTruthy(lang) then NavigateToLanguage(env, s, lang) else s
  }

  /** The click handler with the guard as written. */
  function OnLanguageClickAsWritten(env: Env, s: State, dataLang: Option<string>): (s': State)
    ensures dataLang.None? ==> s' == s
    ensures dataLang.Some? ==> s' == SetLanguageAsWritten(env, s, dataLang.value)
  {
    var key := if dataLang.Some? then dataLang.value else "undefined";
    SetLanguageAsWritten(env, s, key)
  }

  /** The guard as written lets an inherited name through: `toString` stores
      itself as the preference and, in production with no permalink data,
      navigates to the cleaned (default-locale) path. The corrected guard
      ignores it. */
  lemma PrototypeNamePassesGuard(env: Env, s: State)
    requires !IsDevelopment(env.hostname)
    requires env.permalinks == NoElement
    ensures SetLanguageAsWritten(env, s, "toString")
         == State(Some("toString"), Some(CleanPath(env.path)), s.indicator)
    ensures OnLanguageClickAsWritten(env, s, Some("toString")) == SetLanguageAsWritten(env, s, "toString")
    ensures SetLanguage(env, s, "toString") == s
  {
  }

  /** On a local host whose probe fails, an inherited name reaches
      `updateDisplay`, and the indicator shows the inherited method's source
      text rather than a locale. */
  lemma PrototypeNameShownOnFailedProbe(ind: Indicator)
    requires ind.caption.Some?
    ensures var env := Env("/docs/", "localhost", NoElement, ProbeNotOk);
      var shown := SetLanguageAsWritten(env, State(None, None, ind), "toString");
      && shown.indicator.caption == Some("function toString() { [native code] }")
      && DisplayedLocale(shown.indicator) == None
      && shown.location == None
  {
    var text := "function toString() { [native code] }";
    assert "toString" !in Languages && "toString" in ObjectPrototypeNames;
    assert "toString" != "__proto__" && "toString" != "constructor";
    assert "function " + "toString" + "() { [native code] }" == text;
    assert LanguagesLookup("toString") == Some(text);
    assert Resolve("/docs/") == "es";
    var shown := SetLanguageAsWritten(Env("/docs/", "localhost", NoElement, ProbeNotOk), State(None, None, ind), "toString");
    assert shown.indicator.caption == Some(text);
  }

  /** One user click on a `.language-option` control, with the way its
      development-mode probe settles. */
  datatype Click = Click(dataLang: Option<string>, probe: Probe)

  /** Whether a click passes the guard and differs from the URL's locale. */
  predicate Switches(path: string, c: Click) {
    c.dataLang.Some? && c.dataLang.value in Languages && c.dataLang.value != Resolve(path)
  }

  /** Clicks handled one after another on one page; once the page has
      navigated it is gone and later clicks are not handled. */
  function Session(env: Env, s: State, clicks: seq<Click>): (s': State)
    ensures s.location.Some? ==> s' == s
    ensures s'.stored == s.stored
         || (s'.stored.Some? && s'.stored.value in Languages && s'.stored.value != Resolve(env.path))
    decreases |clicks|
  {
    if |clicks| == 0 || s.location.Some? then s
    else Session(env, OnLanguageClick(env.(probe := clicks[0].probe), s, clicks[0].dataLang), clicks[1..])
  }

  /** The locale of the last click in `clicks` that switches. */
  function LastSwitch(path: string, clicks: seq<Click>): (last: Option<string>)
    ensures last.Some? ==> last.value in Languages && last.value != Resolve(path)
    ensures last.None? <==> forall i :: 0 <= i < |clicks| ==> !Switches(path, clicks[i])
    ensures last.Some? ==>
      exists i :: 0 <= i < |clicks| && Switches(path, clicks[i]) && clicks[i].dataLang == last
        && forall j :: i < j < |clicks| ==> !Switches(path, clicks[j])
    decreases |clicks|
  {
    if |clicks| == 0 then None
    else
      var later := LastSwitch(path, clicks[1..]);
      assert forall i :: 0 < i < |clicks| ==> clicks[i] == clicks[1..][i - 1];
      if later.Some? then
        var k :| 0 <= k < |clicks[1..]| && Switches(path, clicks[1..][k]) && clicks[1..][k].dataLang == later
          && forall j :: k < j < |clicks[1..]| ==> !Switches(path, clicks[1..][j]);
        assert Switches(path, clicks[k + 1]);
        later
      else if Switches(path, clicks[0]) then Some(clicks[0].dataLang.value)
      else None
  }

  /** On a local host where no probe succeeds the page never moves; the
      stored preference and the indicator both follow the last switching
      click, and are untouched when no click switches. */
  lemma {:induction false} FailedProbesKeepPage(env: Env, s: State, clicks: seq<Click>)
    requires IsDevelopment(env.hostname)
    requires s.location == None
    requires forall i :: 0 <= i < |clicks| ==> clicks[i].probe != ProbeOk
    ensures Session(env, s, clicks).location == None
    ensures LastSwitch(env.path, clicks).None? ==> Session(env, s, clicks) == s
    ensures LastSwitch(env.path, clicks).Some? ==>
      Session(env, s, clicks).stored == LastSwitch(env.path, clicks) &&
      Session(env, s, clicks).indicator == UpdateDisplay(s.indicator, LastSwitch(env.path, clicks).value)
    decreases |clicks|
  {
    if |clicks| > 0 {
      var c := clicks[0];
      var next := OnLanguageClick(env.(probe := c.probe), s, c.dataLang);
      assert c.probe != ProbeOk;
      FailedProbesKeepPage(env, next, clicks[1..]);
      if Switches(env.path, c) {
        assert next == State(c.dataLang, None, UpdateDisplay(s.indicator, c.dataLang.value));
        var later := LastSwitch(env.path, clicks[1..]);
        if later.Some? {
          UpdateDisplayLastWins(s.indicator, c.dataLang.value, later.value);
        }
      } else {
        assert next == s;
      }
    }
  }

  /** After a failed probe the indicator can disagree with the URL: on a
      default-locale page, a failed switch to `en` shows English, and a
      following click on `es` is then ignored, because the no-op test reads
      the URL and not the indicator. */
  lemma StaleIndicatorAfterFailedProbe(ind: Indicator)
    requires ind.caption.Some?
    ensures var env := Env("/docs/", "localhost", NoElement, ProbeNotOk);
      var shown := Session(env, State(None, None, ind), [Click(Some("en"), ProbeNotOk)]);
      && DisplayedLocale(shown.indicator) == Some("en")
      && Resolve(env.path) == "es"
      && Session(env, shown, [Click(Some("es"), ProbeOk)]) == shown
  {
    var env := Env("/docs/", "localhost", NoElement, ProbeNotOk);
    UpdateDisplayShowsLocale(ind, "en");
    var shown := Session(env, State(None, None, ind), [Click(Some("en"), ProbeNotOk)]);
    assert shown.indicator == UpdateDisplay(ind, "en");
  }
}
