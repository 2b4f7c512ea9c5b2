/**
 * The request middleware of the public site: which paths it leaves alone, the
 * locale it reads from a path, the locale it prefers from an `Accept-Language`
 * header, and the localized URLs it builds. Its locale list differs from the
 * translation core's ("ca" instead of "val").
 */
module I18nMiddleware {
  import opened Wrappers
  import opened Strings
  import opened Numbers
  import opened Sorting
  import opened Sequences
  import I18nCore

  const Locales: seq<string> := ["es", "en", "ca"]
  const DefaultLocale: string := "es"

  /** Path prefixes served without locale handling. */
  const IgnorePaths: seq<string> :=
    ["/api/", "/images/", "/favicon.ico", "/robots.txt", "/sitemap.xml", "/_astro/", "/public/"]

  // ---------------------------------------------------------------------------
  // Ignored paths
  // ---------------------------------------------------------------------------

  /** Whether some prefix in `prefixes` begins `pathname`, tried in order. */
  function SomePrefix(prefixes: seq<string>, pathname: string): (r: bool)
    ensures r <==> exists i :: 0 <= i < |prefixes| && StartsWith(pathname, prefixes[i])
  {
    if prefixes == [] then false
    else StartsWith(pathname, prefixes[0]) || SomePrefix(prefixes[1..], pathname)
  }

  /** A path is ignored exactly when one of the ignore prefixes begins it. */
  function ShouldIgnorePath(pathname: string): (r: bool)
    ensures r <==> exists i :: 0 <= i < |IgnorePaths| && StartsWith(pathname, IgnorePaths[i])
  {
    SomePrefix(IgnorePaths, pathname)
  }

  // ---------------------------------------------------------------------------
  // Locale from the path
  // ---------------------------------------------------------------------------

  /**
   * The locale and the path without its locale segment: only a non-default
   * supported locale is taken off the front; any other path is the default
   * locale's and comes back unchanged (a path without segments comes back as "/").
   */
  function DetectLocaleFromPath(pathname: string): (r: (string, string))
    ensures r.0 in Locales
    ensures r.0 != DefaultLocale ==> I18nCore.Segments(pathname) == [r.0] + I18nCore.Segments(r.1)
    ensures r.0 == DefaultLocale ==> (r.1 == pathname || (r.1 == "/" && I18nCore.Segments(pathname) == []))
    ensures r.0 != DefaultLocale <==>
      (var s := I18nCore.Segments(pathname); s != [] && s[0] in Locales && s[0] != DefaultLocale)
  {
    I18nCore.DetectLocaleIn(Locales, DefaultLocale, pathname)
  }

  // ---------------------------------------------------------------------------
  // Preferred locale
  // ---------------------------------------------------------------------------

  /** One entry of an `Accept-Language` header: its primary language code and its quality (`None` when it does not parse). */
  datatype LanguageRange = LanguageRange(code: string, quality: Option<real>)

  /** The text before the first `;q=` and the quality text after it (up to a further `;q=`), or "1" without one. */
  function CodeAndQuality(lang: string): (r: (string, string))
    ensures !Contains(Trim(lang), ";q=") ==> r == (Trim(lang), "1")
    ensures !Contains(r.0, ";q=")
  {
    var t := Trim(lang);
    match IndexOf(t, ";q=")
    case None => (t, "1")
    case Some(i) =>
      var rest := t[i + 3..];
      var quality := match IndexOf(rest, ";q=") case None => rest case Some(j) => rest[..j];
      BeforeFirstOccurrence(t, ";q=", i);
      (t[..i], quality)
  }

  /** One entry of the header: the lower-cased primary language code and the quality. */
  function ParseRange(lang: string): (r: LanguageRange)
    ensures '-' !in r.code
  {
    var parts := CodeAndQuality(lang);
    LanguageRange(ToLower(Split(parts.0, '-')[0]), ParseFloat(parts.1))
  }

  /** An entry without `;q=` has quality 1, and a plain code is read as itself in lower case. */
  lemma ParseRangeWithoutQuality(lang: string)
    requires !Contains(Trim(lang), ";q=")
    ensures ParseRange(lang).quality == Some(1.0)
    ensures '-' !in Trim(lang) ==> ParseRange(lang).code == ToLower(Trim(lang))
  {
    ParseFloatOne();
  }

  lemma ParseFloatOne()
    ensures ParseFloat("1") == Some(1.0)
  {
    assert UnsignedPrefix("1") == Some((1.0, 1));
  }

  /** The entries of a header, in header order. */
  function Ranges(header: string): seq<LanguageRange> {
    MapSeq(ParseRange, Split(header, ','))
  }

  /** A quality ranks at least as high as another; one that does not parse ranks lowest. */
  predicate AtLeast(a: Option<real>, b: Option<real>) {
    b.None? || (a.Some? && a.value >= b.value)
  }

  predicate ByQuality(a: LanguageRange, b: LanguageRange) {
    AtLeast(a.quality, b.quality)
  }

  lemma ByQualityIsPreorder()
    ensures TotalPreorder(ByQuality)
  {
  }

  /** The first code in `sorted` that is a supported locale, or the default. */
  function FirstSupported(sorted: seq<LanguageRange>): (r: string)
    ensures r in Locales
    ensures (forall k :: 0 <= k < |sorted| ==> sorted[k].code !in Locales) ==> r == DefaultLocale
  {
    if sorted == [] then DefaultLocale
    else if sorted[0].code in Locales then sorted[0].code
    else FirstSupported(sorted[1..])
  }

  /** The locale to redirect the home page to, from the `Accept-Language` header. */
  function DetectPreferredLocale(acceptLanguage: Option<string>): (r: string)
    ensures r in Locales
    ensures acceptLanguage.None? || acceptLanguage.value == "" ==> r == DefaultLocale
  {
    if acceptLanguage.None? || acceptLanguage.value == "" then DefaultLocale
    else PreferredOf(Ranges(acceptLanguage.value))
  }

  /** The entries sorted by quality, highest first and ties in header order, and the first supported code among them. */
  function PreferredOf(ranges: seq<LanguageRange>): string {
    FirstSupported(Sort(ranges, ByQuality))
  }

  /** `x` is an entry of `s` whose quality no supported entry of `s` exceeds. */
  predicate BestSupported(x: LanguageRange, s: seq<LanguageRange>) {
    x in s && forall y :: y in s && y.code in Locales ==> AtLeast(x.quality, y.quality)
  }

  lemma {:induction false} FirstSupportedIsBest(sorted: seq<LanguageRange>)
    requires SortedBy(sorted, ByQuality)
    requires exists x :: x in sorted && x.code in Locales
    ensures exists x :: BestSupported(x, sorted) && x.code == FirstSupported(sorted)
  {
    if sorted[0].code in Locales {
      var x := sorted[0];
      forall y | y in sorted && y.code in Locales ensures AtLeast(x.quality, y.quality) {
        var j :| 0 <= j < |sorted| && sorted[j] == y;
        if j > 0 {
          assert ByQuality(sorted[0], sorted[j]);
        }
      }
      assert BestSupported(x, sorted);
    } else {
      var rest := sorted[1..];
      var z :| z in sorted && z.code in Locales;
      var k :| 0 <= k < |sorted| && sorted[k] == z;
      assert rest[k - 1] == z;
      FirstSupportedIsBest(rest);
      var x :| BestSupported(x, rest) && x.code == FirstSupported(rest);
      forall y | y in sorted && y.code in Locales ensures y in rest {
        var j :| 0 <= j < |sorted| && sorted[j] == y;
        assert j > 0;
        assert rest[j - 1] == y;
      }
      assert BestSupported(x, sorted);
    }
  }

  lemma SortKeepsMembers(s: seq<LanguageRange>)
    ensures forall x :: x in Sort(s, ByQuality) <==> x in s
  {
    var sorted := Sort(s, ByQuality);
    forall x ensures x in sorted <==> x in s {
      assert x in sorted <==> x in multiset(sorted);
      assert x in s <==> x in multiset(s);
    }
  }

  /** Sorting by quality and taking the first supported code picks a best supported entry. */
  lemma SortedChoiceIsBest(ranges: seq<LanguageRange>)
    requires exists x :: x in ranges && x.code in Locales
    ensures exists x :: BestSupported(x, ranges) && x.code == PreferredOf(ranges)
  {
    var sorted := Sort(ranges, ByQuality);
    SortKeepsMembers(ranges);
    ByQualityIsPreorder();
    SortSorted(ranges, ByQuality);
    FirstSupportedIsBest(sorted);
    var best :| BestSupported(best, sorted) && best.code == FirstSupported(sorted);
    assert BestSupported(best, ranges);
  }

  lemma SortedChoiceWithoutSupported(ranges: seq<LanguageRange>)
    requires forall x :: x in ranges ==> x.code !in Locales
    ensures PreferredOf(ranges) == DefaultLocale
  {
    var sorted := Sort(ranges, ByQuality);
    SortKeepsMembers(ranges);
    forall k | 0 <= k < |sorted| ensures sorted[k].code !in Locales {
      assert sorted[k] in ranges;
    }
  }

  /** The preferred locale is the default when no entry of the header names a supported locale. */
  lemma PreferredWithoutSupported(header: string)
    requires header != ""
    requires forall x :: x in Ranges(header) ==> x.code !in Locales
    ensures DetectPreferredLocale(Some(header)) == DefaultLocale
  {
    SortedChoiceWithoutSupported(Ranges(header));
  }

  /**
   * When some entry names a supported locale, the preferred locale is the code of a
   * supported entry whose quality no other supported entry exceeds.
   */
  lemma PreferredIsHighest(header: string)
    requires header != ""
    requires exists x :: x in Ranges(header) && x.code in Locales
    ensures exists x :: BestSupported(x, Ranges(header)) && x.code == DetectPreferredLocale(Some(header))
  {
    SortedChoiceIsBest(Ranges(header));
  }

  // ---------------------------------------------------------------------------
  // Localized URLs
  // ---------------------------------------------------------------------------

  /**
   * The URL of `path` in `locale` under `baseUrl`: the path gets a leading slash if
   * it lacks one; the default locale adds no prefix, another locale adds "/locale",
   * and its root is "/locale" rather than "/locale/".
   */
  function LocalizeUrl(path: string, locale: string, baseUrl: string): (r: string)
    ensures var cleanPath := if StartsWith(path, "/") then path else "/" + path;
      && (locale == DefaultLocale ==> r == baseUrl + cleanPath)
      && (locale != DefaultLocale && cleanPath == "/" ==> r == baseUrl + "/" + locale)
      && (locale != DefaultLocale && cleanPath != "/" ==> r == baseUrl + "/" + locale + cleanPath)
  {
    var cleanPath := if StartsWith(path, "/") then path else "/" + path;
    if locale == DefaultLocale then baseUrl + cleanPath
    else
      var localizedPath := if cleanPath == "/" then "/" + locale else "/" + locale + cleanPath;
      baseUrl + localizedPath
  }

  /** One localized URL per supported locale, and no other key. */
  function GetAlternateUrls(path: string, baseUrl: string): (r: map<string, string>)
    ensures forall l :: l in r <==> l in Locales
    ensures forall l :: l in r ==> r[l] == LocalizeUrl(path, l, baseUrl)
  {
    map l | l in Locales :: LocalizeUrl(path, l, baseUrl)
  }

  /** A locale code is a single path segment. */
  lemma LocaleIsSegment(locale: string)
    requires locale in Locales
    ensures locale != "" && '/' !in locale
  {
    assert locale == Locales[0] || locale == Locales[1] || locale == Locales[2];
  }

  lemma SlashShape(a: string, j: string)
    ensures "" + "/" + a + ("/" + j) == "/" + (a + "/" + j)
  {
  }

  /** The localized root-based path of a non-default locale is the path of the locale followed by the parts. */
  lemma LocalizedAsPath(parts: seq<string>, locale: string)
    requires locale != DefaultLocale
    requires forall k :: 0 <= k < |parts| ==> parts[k] != "" && '/' !in parts[k]
    ensures LocalizeUrl("/" + Join(parts, "/"), locale, "") == "/" + Join([locale] + parts, "/")
  {
    var j := Join(parts, "/");
    var path := "/" + j;
    assert StartsWith(path, "/");
    if parts != [] {
      JoinEnds(parts, "/");
      assert |j| >= |parts[0]| > 0;
      assert path != "/";
      JoinCons(locale, parts, "/");
      SlashShape(locale, j);
    }
  }

  /**
   * Detection undoes localization: a path of non-empty slash-free segments
   * localized to a non-default locale is detected as that locale and that path.
   */
  lemma DetectLocalizedUrl(parts: seq<string>, locale: string)
    requires locale in Locales && locale != DefaultLocale
    requires forall k :: 0 <= k < |parts| ==> parts[k] != "" && '/' !in parts[k]
    ensures DetectLocaleFromPath(LocalizeUrl("/" + Join(parts, "/"), locale, ""))
      == (locale, "/" + Join(parts, "/"))
  {
    var url := LocalizeUrl("/" + Join(parts, "/"), locale, "");
    LocaleIsSegment(locale);
    LocalizedAsPath(parts, locale);
    I18nCore.SegmentsOfPrefixedPath(locale, parts);
    I18nCore.DetectPrefixed(Locales, DefaultLocale, url);
    assert ([locale] + parts)[1..] == parts;
  }
}
