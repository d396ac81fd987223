/** Path-string logic of the language selector: the locale resolver
    (`getCurrentLanguageFromURL`) and the fallback URL generator
    (`generateFallbackURL`). The page's `window.location.pathname` is the
    explicit `path` parameter. */
module Paths {
  import opened Locales

  predicate StartsWith(s: string, prefix: string) {
    |prefix| <= |s| && s[..|prefix|] == prefix
  }

  /** The current locale as the URL shows it: `en` under `/en/`, `ca` under
      `/ca/`, `es` everywhere else, including the bare paths `/en` and `/ca`. */
  function Resolve(path: string): (code: string)
    ensures code in Languages
    ensures code == "en" <==> StartsWith(path, "/en/")
    ensures code == "ca" <==> StartsWith(path, "/ca/")
    ensures code == "es" <==> !StartsWith(path, "/en/") && !StartsWith(path, "/ca/")
  {
    if StartsWith(path, "/en/") then "en"
    else if StartsWith(path, "/ca/") then "ca"
    else "es"
  }

  /** A path that begins with a locale tag NOT followed by `/` (the bare tag,
      or `/english`, `/cat`) resolves to the default locale. */
  lemma BareTagResolvesToDefault(path: string, tag: string)
    requires tag == "/en" || tag == "/ca"
    requires StartsWith(path, tag)
    requires |path| == 3 || path[3] != '/'
    ensures Resolve(path) == "es"
  {
  }

  /** Whether the pattern `^\/(en|ca)` matches: a leading `/en` or `/ca`,
      with no condition on the character after it. */
  predicate StartsWithTag(path: string) {
    StartsWith(path, "/en") || StartsWith(path, "/ca")
  }

  /** `pathname.replace(/^\/(en|ca)/, '') || '/'`: drop one leading tag, and
      collapse an empty remainder to `/`. */
  function CleanPath(path: string): (clean: string)
    ensures clean != ""
    ensures StartsWithTag(path) && |path| > 3 ==> path == path[..3] + clean
    ensures !StartsWithTag(path) && path != "" ==> clean == path
    ensures clean == "/" || |clean| <= |path|
    ensures path == "" || path == "/en" || path == "/ca" ==> clean == "/"
  {
    var stripped := if StartsWithTag(path) then path[3..] else path;
    if stripped == "" then "/" else stripped
  }

  /** `generateFallbackURL`: the same page under another locale, derived by
      prefix rewriting. Unknown locale codes fall to the `default` branch and
      get the cleaned path. The source's `cleanPath === '/' ? '/' : cleanPath`
      is the identity, so every branch is a plain prefix. */
  function GenerateFallbackURL(path: string, lang: string): (url: string)
    ensures lang == "en" ==> url == "/en" + CleanPath(path)
    ensures lang == "ca" ==> url == "/ca" + CleanPath(path)
    ensures lang != "en" && lang != "ca" ==> url == CleanPath(path)
    ensures Truthy(url)
  {
    var cleanPath := CleanPath(path);
    if lang == "es" then (if cleanPath == "/" then "/" else cleanPath)
    else if lang == "en" then "/en" + (if cleanPath == "/" then "/" else cleanPath)
    else if lang == "ca" then "/ca" + (if cleanPath == "/" then "/" else cleanPath)
    else cleanPath
  }

  /** On a root page (`/`, the bare tags, or an empty path) the fallback is the
      locale's home, with a trailing slash for the prefixed locales. */
  lemma FallbackRootPaths(path: string)
    requires path == "" || path == "/" || path == "/en" || path == "/ca"
    ensures GenerateFallbackURL(path, "es") == "/"
    ensures GenerateFallbackURL(path, "en") == "/en/"
    ensures GenerateFallbackURL(path, "ca") == "/ca/"
  {
  }

  /** Cleaning a tagged path gives back what followed the tag. */
  lemma CleanTagged(tag: string, rest: string)
    requires tag == "/en" || tag == "/ca"
    requires rest != ""
    ensures CleanPath(tag + rest) == rest
  {
  }

  /** For the prefixed locales the fallback is a fixed point: rewriting its own
      output for the same locale changes nothing. */
  lemma FallbackIdempotent(path: string, lang: string)
    requires lang == "en" || lang == "ca"
    ensures GenerateFallbackURL(GenerateFallbackURL(path, lang), lang)
         == GenerateFallbackURL(path, lang)
  {
  }

  /** For `es` idempotence fails: a doubly tagged path loses one tag per
      application. */
  lemma DefaultFallbackNotIdempotent()
    ensures GenerateFallbackURL("/en/en/x", "es") == "/en/x"
    ensures GenerateFallbackURL(GenerateFallbackURL("/en/en/x", "es"), "es") == "/x"
  {
  }

  /** Round trip for the prefixed locales: the fallback page resolves back to
      the requested locale exactly when the cleaned path starts with `/`. */
  lemma FallbackRoundTrip(path: string, lang: string)
    requires lang == "en" || lang == "ca"
    ensures Resolve(GenerateFallbackURL(path, lang)) == lang
        <==> StartsWith(CleanPath(path), "/")
  {
    var clean := CleanPath(path);
    var url := GenerateFallbackURL(path, lang);
    if StartsWith(clean, "/") {
      assert url[..4] == url[..3] + "/";
    } else {
      assert url[..4][3] == clean[0];
    }
  }

  /** The pattern has no word boundary: `/english` loses its `/en`, and the
      result leaves the requested locale. */
  lemma TagStrippedInsideWord()
    ensures CleanPath("/english") == "glish"
    ensures GenerateFallbackURL("/english", "ca") == "/caglish"
    ensures Resolve(GenerateFallbackURL("/english", "ca")) == "es"
  {
    CleanTagged("/en", "glish");
    assert "/caglish"[..4][3] == 'g';
  }

  /** Fallback to `es` can land in another locale: a path tagged twice keeps
      its second tag. */
  lemma DefaultFallbackCanLeaveDefault()
    ensures GenerateFallbackURL("/en/ca/x", "es") == "/ca/x"
    ensures Resolve(GenerateFallbackURL("/en/ca/x", "es")) == "ca"
  {
  }
}
