/**
 * The translation core of the public site: locale-prefixed URLs, locale detection
 * from a path, flattening of nested translation files into dotted keys, lookup with
 * fallback to the default locale, parameter substitution, per-namespace views and
 * missing-key statistics.
 */
module I18nCore {
  import opened Wrappers
  import opened Strings
  import opened Sequences
  import opened OrderedMaps

  /** The keys of the language configuration, in declaration order. */
  const Locales: seq<string> := ["es", "en", "val"]

  /** The code of the language flagged as default. */
  const DefaultLocale: string := "es"

  // ---------------------------------------------------------------------------
  // URLs
  // ---------------------------------------------------------------------------

  function DropLeadingSlashes(s: string): (r: string)
    ensures |r| <= |s| && r == s[|s| - |r|..]
    ensures r == [] || r[0] != '/'
    ensures forall i :: 0 <= i < |s| - |r| ==> s[i] == '/'
  {
    if s == [] || s[0] != '/' then s else DropLeadingSlashes(s[1..])
  }

  function DropTrailingSlashes(s: string): (r: string)
    ensures |r| <= |s| && r == s[..|r|]
    ensures r == [] || r[|r| - 1] != '/'
    ensures forall i :: |r| <= i < |s| ==> s[i] == '/'
  {
    if s == [] || s[|s| - 1] != '/' then s else DropTrailingSlashes(s[..|s| - 1])
  }

  /** The path with its leading and trailing slashes removed; a missing path is empty. */
  function CleanPath(path: Option<string>): (r: string)
    ensures r == [] || (r[0] != '/' && r[|r| - 1] != '/')
    ensures path.Some? && (path.value == [] || (path.value[0] != '/' && path.value[|path.value| - 1] != '/'))
      ==> r == path.value
  {
    if path.None? then "" else DropTrailingSlashes(DropLeadingSlashes(path.value))
  }

  /**
   * The site-relative URL of `path` in `locale`: the default locale has no prefix,
   * every other locale is prefixed with its code; the empty path is the root.
   */
  function GetRelativeUrl(path: Option<string>, locale: string): (r: string)
    ensures |r| >= 1 && r[0] == '/'
    ensures locale == DefaultLocale ==> r == "/" + CleanPath(path)
    ensures locale != DefaultLocale && CleanPath(path) == [] ==> r == "/" + locale
    ensures locale != DefaultLocale && CleanPath(path) != [] ==> r == "/" + locale + "/" + CleanPath(path)
  {
    var cleanPath := CleanPath(path);
    if locale == DefaultLocale then
      (if cleanPath == "" then "/" else "/" + cleanPath)
    else
      (if cleanPath == "" then "/" + locale else "/" + locale + "/" + cleanPath)
  }

  /**
   * The legacy absolute form: the base URL without trailing slashes followed by the
   * relative URL, except that the root of the default locale is the bare base URL
   * (or "/" when there is none).
   */
  function LocalizeUrl(path: Option<string>, locale: string, baseUrl: Option<string>): (r: string)
    ensures var base := if baseUrl.None? then "" else DropTrailingSlashes(baseUrl.value);
      && (locale != DefaultLocale || CleanPath(path) != [] ==> r == base + GetRelativeUrl(path, locale))
      && (locale == DefaultLocale && CleanPath(path) == [] ==> r == if base == [] then "/" else base)
  {
    var cleanPath := CleanPath(path);
    var cleanBaseUrl := if baseUrl.None? then "" else DropTrailingSlashes(baseUrl.value);
    if locale == DefaultLocale then
      (if cleanPath == "" then (if cleanBaseUrl == "" then "/" else cleanBaseUrl)
       else cleanBaseUrl + ("/" + cleanPath))
    else
      var localizedPath := if cleanPath == "" then "/" + locale else "/" + locale + "/" + cleanPath;
      cleanBaseUrl + localizedPath
  }

  predicate NonEmpty(s: string) {
    s != ""
  }

  /** The non-empty slash-separated segments of a path. */
  function Segments(pathname: string): (r: seq<string>)
    ensures forall k :: 0 <= k < |r| ==> r[k] != "" && '/' !in r[k]
  {
    var r := Filter(Split(pathname, '/'), NonEmpty);
    assert forall k :: 0 <= k < |r| ==> r[k] in r;
    r
  }

  /** Segments that are non-empty and slash-free come back out of the path they form. */
  lemma SegmentsOfPath(parts: seq<string>)
    requires forall k :: 0 <= k < |parts| ==> parts[k] != "" && '/' !in parts[k]
    ensures Segments("/" + Join(parts, "/")) == parts
  {
    if parts == [] {
      SegmentsOfRoot();
    } else {
      SegmentsOfParts(parts);
    }
  }

  /** The root has no segment. */
  lemma SegmentsOfRoot()
    ensures Segments("/") == []
  {
    assert Split("/", '/') == [""] + Split("", '/');
    assert Split("/", '/') == [""] + [""];
    FilterConcat([""], [""], NonEmpty);
    assert Filter([""], NonEmpty) == Filter([], NonEmpty) + [];
  }

  lemma SegmentsOfParts(parts: seq<string>)
    requires parts != []
    requires forall k :: 0 <= k < |parts| ==> parts[k] != "" && '/' !in parts[k]
    ensures Segments("/" + Join(parts, "/")) == parts
  {
    SplitOfPath(parts);
    SegmentsOfSplit("/" + Join(parts, "/"), parts);
  }

  /** The path of slash-free parts splits into an empty piece and the parts. */
  lemma SplitOfPath(parts: seq<string>)
    requires parts != []
    requires forall k :: 0 <= k < |parts| ==> '/' !in parts[k]
    ensures Split("/" + Join(parts, "/"), '/') == [""] + parts
  {
    var all := [""] + parts;
    PathAsJoin(parts);
    forall k | 0 <= k < |all| ensures '/' !in all[k] {
      if k > 0 {
        assert all[k] == parts[k - 1];
      }
    }
    SplitJoin(all, '/');
  }

  lemma PathAsJoin(parts: seq<string>)
    requires parts != []
    ensures "/" + Join(parts, "/") == Join([""] + parts, "/")
  {
    JoinCons("", parts, "/");
    assert "" + "/" == "/";
  }

  /** A path that splits into an empty piece and then non-empty pieces has those pieces as its segments. */
  lemma SegmentsOfSplit(path: string, parts: seq<string>)
    requires Split(path, '/') == [""] + parts
    requires forall k :: 0 <= k < |parts| ==> parts[k] != ""
    ensures Segments(path) == parts
  {
    FilterConcat([""], parts, NonEmpty);
    FilterAll(parts, NonEmpty);
    assert Filter([""], NonEmpty) == Filter([], NonEmpty) + [];
  }

  /**
   * Detection of the locale of a path: a first segment that is a supported locale
   * other than the default is taken off; any other path belongs to the default
   * locale and is returned unchanged, except that a path with no segment is "/".
   * Shared by the translation core and the request middleware, which differ only
   * in their list of locales.
   */
  function DetectLocaleIn(locales: seq<string>, defaultLocale: string, pathname: string): (r: (string, string))
    ensures r.0 == defaultLocale || r.0 in locales
    ensures r.0 != defaultLocale <==>
      (Segments(pathname) != [] && Segments(pathname)[0] in locales && Segments(pathname)[0] != defaultLocale)
    ensures r.0 != defaultLocale ==> Segments(pathname) == [r.0] + Segments(r.1)
    ensures r.0 == defaultLocale ==> (r.1 == pathname || (r.1 == "/" && Segments(pathname) == []))
  {
    var segments := Segments(pathname);
    if segments == [] then (defaultLocale, "/")
    else if segments[0] in locales && segments[0] != defaultLocale then
      SegmentsOfPath(segments[1..]);
      assert segments == [segments[0]] + segments[1..];
      (segments[0], "/" + Join(segments[1..], "/"))
    else (defaultLocale, pathname)
  }

  function DetectLocaleFromPath(pathname: string): (r: (string, string))
    ensures r == DetectLocaleIn(Locales, DefaultLocale, pathname)
    ensures r.0 in Locales
  {
    DetectLocaleIn(Locales, DefaultLocale, pathname)
  }

  lemma SlashConcat(a: string, b: string)
    ensures "/" + (a + "/" + b) == "/" + a + "/" + b
  {
  }

  /** A locale code is a single path segment. */
  lemma LocaleIsSegment(locale: string)
    requires locale in Locales
    ensures locale != "" && '/' !in locale
  {
    assert locale == Locales[0] || locale == Locales[1] || locale == Locales[2];
  }

  /**
   * Locale detection undoes the relative URL: for a non-default locale and a path
   * made of non-empty slash-free segments, detection gives back the locale and the
   * path under "/".
   */
  lemma DetectRelativeUrl(parts: seq<string>, locale: string)
    requires locale in Locales && locale != DefaultLocale
    requires forall k :: 0 <= k < |parts| ==> parts[k] != "" && '/' !in parts[k]
    ensures DetectLocaleFromPath(GetRelativeUrl(Some(Join(parts, "/")), locale))
      == (locale, "/" + Join(parts, "/"))
  {
    RelativeUrlAsPath(parts, locale);
    LocaleIsSegment(locale);
    SegmentsOfPrefixedPath(locale, parts);
    DetectOfSegments(GetRelativeUrl(Some(Join(parts, "/")), locale), locale, parts);
  }

  /** A path whose segments are a non-default locale and then `parts` is detected as that locale and the parts. */
  lemma DetectOfSegments(url: string, locale: string, parts: seq<string>)
    requires locale in Locales && locale != DefaultLocale
    requires Segments(url) == [locale] + parts
    ensures DetectLocaleFromPath(url) == (locale, "/" + Join(parts, "/"))
  {
    assert Segments(url)[1..] == parts;
    DetectPrefixed(Locales, DefaultLocale, url);
  }

  lemma SegmentsOfPrefixedPath(first: string, parts: seq<string>)
    requires first != "" && '/' !in first
    requires forall k :: 0 <= k < |parts| ==> parts[k] != "" && '/' !in parts[k]
    ensures Segments("/" + Join([first] + parts, "/")) == [first] + parts
  {
    var all := [first] + parts;
    forall k | 0 <= k < |all| ensures all[k] != "" && '/' !in all[k] {
      if k > 0 {
        assert all[k] == parts[k - 1];
      }
    }
    SegmentsOfPath(all);
  }

  /** A path whose first segment is a non-default locale is detected as that locale. */
  lemma DetectPrefixed(locales: seq<string>, defaultLocale: string, pathname: string)
    requires Segments(pathname) != [] && Segments(pathname)[0] in locales && Segments(pathname)[0] != defaultLocale
    ensures DetectLocaleIn(locales, defaultLocale, pathname)
      == (Segments(pathname)[0], "/" + Join(Segments(pathname)[1..], "/"))
  {
  }

  /** Non-empty slash-free parts join into a path that cleaning leaves alone. */
  lemma JoinedIsClean(parts: seq<string>)
    requires parts != []
    requires forall k :: 0 <= k < |parts| ==> parts[k] != "" && '/' !in parts[k]
    ensures CleanPath(Some(Join(parts, "/"))) == Join(parts, "/") != []
  {
    JoinEnds(parts, "/");
    NoEdgeSlash(Join(parts, "/"), parts[0], parts[|parts| - 1]);
  }

  /** A string that starts and ends with non-empty slash-free parts has no slash at either end. */
  lemma NoEdgeSlash(p: string, first: string, last: string)
    requires first != "" && '/' !in first && StartsWith(p, first)
    requires last != "" && '/' !in last && EndsWith(p, last)
    ensures p != [] && p[0] != '/' && p[|p| - 1] != '/'
  {
    assert p[0] == first[0];
    assert p[|p| - 1] == last[|last| - 1];
  }

  /** The relative URL of a non-default locale is the path of the locale followed by the parts. */
  lemma RelativeUrlAsPath(parts: seq<string>, locale: string)
    requires locale != DefaultLocale
    requires forall k :: 0 <= k < |parts| ==> parts[k] != "" && '/' !in parts[k]
    ensures GetRelativeUrl(Some(Join(parts, "/")), locale) == "/" + Join([locale] + parts, "/")
  {
    if parts != [] {
      var p := Join(parts, "/");
      JoinedIsClean(parts);
      JoinCons(locale, parts, "/");
      SlashConcat(locale, p);
    }
  }

  // ---------------------------------------------------------------------------
  // Translation files
  // ---------------------------------------------------------------------------

  /** A parsed JSON value; objects keep the order of their entries. */
  datatype Json =
    | JObject(entries: seq<(string, Json)>)
    | JArray(items: seq<Json>)
    | JString(text: string)
    | JNumber(number: real)
    | JBool(flag: bool)
    | JNull

  /** JavaScript truthiness of a looked-up value; `None` is `undefined`. */
  predicate Truthy(v: Option<Json>) {
    match v
    case None => false
    case Some(JString(s)) => s != ""
    case Some(JNumber(n)) => n != 0.0
    case Some(JBool(b)) => b
    case Some(JNull) => false
    case Some(_) => true
  }

  /** What goes before a child key: nothing at the top, the parent key and a dot below. */
  function KeyPrefix(prefix: string): string {
    if prefix == "" then "" else prefix + "."
  }

  function DottedKey(prefix: string, key: string): string {
    KeyPrefix(prefix) + key
  }

  /** The entries of `source` among its first `n` keys. */
  function PrefixValues<V>(source: OrderedMap<V>, n: nat): map<string, V>
    requires source.Valid() && n <= |source.keys|
  {
    map k | k in source.keys[..n] :: source.values[k]
  }

  lemma PrefixValuesStep<V>(source: OrderedMap<V>, n: nat)
    requires source.Valid() && 0 < n <= |source.keys|
    ensures PrefixValues(source, n) == PrefixValues(source, n - 1)[source.keys[n - 1] := source.values[source.keys[n - 1]]]
  {
    assert source.keys[..n] == source.keys[..n - 1] + [source.keys[n - 1]];
  }

  lemma UnionUpdate<V>(a: map<string, V>, b: map<string, V>, k: string, v: V)
    ensures (a + b)[k := v] == a + b[k := v]
  {
  }

  /** `Object.assign(target, source)` restricted to the first `n` keys of `source`. */
  function AssignPrefix<V>(target: OrderedMap<V>, source: OrderedMap<V>, n: nat): (r: OrderedMap<V>)
    requires source.Valid() && n <= |source.keys|
    ensures target.Valid() ==> r.Valid()
    ensures r.values == target.values + PrefixValues(source, n)
  {
    if n == 0 then target
    else
      var k := source.keys[n - 1];
      PrefixValuesStep(source, n);
      UnionUpdate(target.values, PrefixValues(source, n - 1), k, source.values[k]);
      AssignPrefix(target, source, n - 1).Set(k, source.values[k])
  }

  /** `Object.assign(target, source)`: every key of the source is copied over the target, in order. */
  function Assign<V>(target: OrderedMap<V>, source: OrderedMap<V>): (r: OrderedMap<V>)
    requires source.Valid()
    ensures target.Valid() ==> r.Valid()
    ensures r.values == target.values + source.values
  {
    assert source.keys[..|source.keys|] == source.keys;
    assert PrefixValues(source, |source.keys|) == source.values;
    AssignPrefix(target, source, |source.keys|)
  }

  /** No value of `m` is an object. */
  ghost predicate NoObjects(m: OrderedMap<Json>) {
    forall k :: k in m.values ==> !m.values[k].JObject?
  }

  /** Every key of `m` starts with `p`. */
  ghost predicate KeysUnder(m: OrderedMap<Json>, p: string) {
    forall k :: k in m.values ==> StartsWith(k, p)
  }

  /** Merging a table whose keys start with `q`, which extends `p`, keeps every key under `p`. */
  lemma KeysUnderAssign(acc: OrderedMap<Json>, nested: OrderedMap<Json>, p: string, q: string)
    requires nested.Valid()
    requires KeysUnder(acc, p)
    requires KeysUnder(nested, q)
    requires StartsWith(q, p)
    ensures KeysUnder(Assign(acc, nested), p)
  {
    forall k | k in nested.values ensures StartsWith(k, p) {
      assert k[..|p|] == k[..|q|][..|p|];
    }
  }

  /** Storing under a key that starts with `p` keeps every key under `p`. */
  lemma KeysUnderSet(acc: OrderedMap<Json>, p: string, key: string, v: Json)
    requires KeysUnder(acc, p) && StartsWith(key, p)
    ensures KeysUnder(acc.Set(key, v), p)
  {
  }

  /** The key prefix below `DottedKey(prefix, key)` extends the key prefix of `prefix`. */
  lemma KeyPrefixExtends(prefix: string, key: string)
    ensures StartsWith(KeyPrefix(DottedKey(prefix, key)), KeyPrefix(prefix))
    ensures StartsWith(DottedKey(prefix, key), KeyPrefix(prefix))
  {
    var p := KeyPrefix(prefix);
    assert (p + key)[..|p|] == p;
    if p + key != "" {
      assert (p + key + ".")[..|p|] == p;
    }
  }

  /**
   * The flattening of the first `n` entries of an object: a nested object (not an
   * array) is flattened under its dotted key and merged in; any other value is
   * stored at its dotted key. Later entries overwrite earlier ones.
   */
  function FlattenPrefix(obj: Json, prefix: string, n: nat): (r: OrderedMap<Json>)
    requires obj.JObject? && n <= |obj.entries|
    decreases obj, n
    ensures r.Valid() && NoObjects(r)
  {
    if n == 0 then Empty()
    else
      var acc := FlattenPrefix(obj, prefix, n - 1);
      var entry := obj.entries[n - 1];
      var newKey := DottedKey(prefix, entry.0);
      if entry.1.JObject? then
        assert entry in obj.entries;
        Assign(acc, FlattenPrefix(entry.1, newKey, |entry.1.entries|))
      else
        acc.Set(newKey, entry.1)
  }

  /** Every flat key lies under the key prefix of `prefix`. */
  lemma {:induction false} FlattenPrefixUnder(obj: Json, prefix: string, n: nat)
    requires obj.JObject? && n <= |obj.entries|
    decreases obj, n
    ensures KeysUnder(FlattenPrefix(obj, prefix, n), KeyPrefix(prefix))
  {
    if n > 0 {
      FlattenPrefixUnder(obj, prefix, n - 1);
      var entry := obj.entries[n - 1];
      if entry.1.JObject? {
        assert entry in obj.entries;
        FlattenPrefixUnder(entry.1, DottedKey(prefix, entry.0), |entry.1.entries|);
      }
      FlattenUnderStep(obj, prefix, n);
    }
  }

  /**
   * One more entry keeps the keys under `prefix`: a leaf is stored at its dotted key, and a
   * nested object whose flat keys lie under that dotted key is merged in.
   */
  lemma FlattenUnderStep(obj: Json, prefix: string, n: nat)
    requires obj.JObject? && 0 < n <= |obj.entries|
    requires KeysUnder(FlattenPrefix(obj, prefix, n - 1), KeyPrefix(prefix))
    requires var entry := obj.entries[n - 1];
      entry.1.JObject? ==>
        KeysUnder(FlattenPrefix(entry.1, DottedKey(prefix, entry.0), |entry.1.entries|), KeyPrefix(DottedKey(prefix, entry.0)))
    ensures KeysUnder(FlattenPrefix(obj, prefix, n), KeyPrefix(prefix))
  {
    var acc := FlattenPrefix(obj, prefix, n - 1);
    var entry := obj.entries[n - 1];
    var newKey := DottedKey(prefix, entry.0);
    KeyPrefixExtends(prefix, entry.0);
    if entry.1.JObject? {
      var nested := FlattenPrefix(entry.1, newKey, |entry.1.entries|);
      assert FlattenPrefix(obj, prefix, n) == Assign(acc, nested);
      KeysUnderAssign(acc, nested, KeyPrefix(prefix), KeyPrefix(newKey));
    } else {
      assert FlattenPrefix(obj, prefix, n) == acc.Set(newKey, entry.1);
      KeysUnderSet(acc, KeyPrefix(prefix), newKey, entry.1);
    }
  }

  function FlattenObject(obj: Json, prefix: string): (r: OrderedMap<Json>)
    requires obj.JObject?
    ensures r.Valid()
    ensures forall k :: k in r.values ==> !r.values[k].JObject?
  {
    FlattenPrefix(obj, prefix, |obj.entries|)
  }

  /** Every flat key of an object lies under the key prefix of `prefix`. */
  lemma FlattenObjectUnder(obj: Json, prefix: string)
    requires obj.JObject?
    ensures forall k :: k in FlattenObject(obj, prefix).values ==> StartsWith(k, KeyPrefix(prefix))
  {
    FlattenPrefixUnder(obj, prefix, |obj.entries|);
  }

  /** One entry more: the entry's flattening merged in, or its value stored. */
  lemma FlattenStep(obj: Json, prefix: string, n: nat)
    requires obj.JObject? && 0 < n <= |obj.entries|
    ensures var entry := obj.entries[n - 1];
      var acc := FlattenPrefix(obj, prefix, n - 1);
      FlattenPrefix(obj, prefix, n)
        == if entry.1.JObject? then Assign(acc, FlattenObject(entry.1, DottedKey(prefix, entry.0)))
           else acc.Set(DottedKey(prefix, entry.0), entry.1)
  {
  }

  /** A nested object as the next entry is flattened under its dotted key and merged in. */
  lemma FlattenStepNested(obj: Json, prefix: string, i: nat, entry: (string, Json))
    requires obj.JObject? && i < |obj.entries| && obj.entries[i] == entry && entry.1.JObject?
    ensures FlattenPrefix(obj, prefix, i + 1)
      == Assign(FlattenPrefix(obj, prefix, i), FlattenObject(entry.1, DottedKey(prefix, entry.0)))
  {
  }

  /** Any other value as the next entry is stored at its dotted key. */
  lemma FlattenStepLeaf(obj: Json, prefix: string, i: nat, entry: (string, Json))
    requires obj.JObject? && i < |obj.entries| && obj.entries[i] == entry && !entry.1.JObject?
    ensures FlattenPrefix(obj, prefix, i + 1)
      == FlattenPrefix(obj, prefix, i).Set(DottedKey(prefix, entry.0), entry.1)
  {
  }

  /** The flattening of an object, computed entry by entry into an accumulator. */
  method Flatten(obj: Json, prefix: string) returns (flat: OrderedMap<Json>)
    requires obj.JObject?
    decreases obj
    ensures flat == FlattenObject(obj, prefix)
  {
    flat := Empty();
    var i := 0;
    while i < |obj.entries|
      invariant i <= |obj.entries|
      invariant flat == FlattenPrefix(obj, prefix, i)
    {
      var entry := obj.entries[i];
      var newKey := DottedKey(prefix, entry.0);
      if entry.1.JObject? {
        assert entry in obj.entries;
        var nested := Flatten(entry.1, newKey);
        FlattenStepNested(obj, prefix, i, entry);
        flat := Assign(flat, nested);
      } else {
        FlattenStepLeaf(obj, prefix, i, entry);
        flat := flat.Set(newKey, entry.1);
      }
      i := i + 1;
    }
  }

  /** Keys that can be told apart once joined with dots: non-empty and dot-free. */
  predicate SimpleKeys(obj: Json)
    requires obj.JObject?
  {
    forall j :: 0 <= j < |obj.entries| ==> obj.entries[j].0 != "" && '.' !in obj.entries[j].0
  }

  /** No entry after the `i`-th has the same key. */
  predicate LastOfItsKey(obj: Json, i: nat)
    requires obj.JObject? && i < |obj.entries|
  {
    forall j :: i < j < |obj.entries| ==> obj.entries[j].0 != obj.entries[i].0
  }

  /**
   * Flattening `entry` under `prefix` cannot write the flat key `k`: `k` is not the
   * entry's dotted key or, for an object, does not lie under it.
   */
  predicate NotWritten(prefix: string, entry: (string, Json), k: string) {
    if entry.1.JObject? then !StartsWith(k, KeyPrefix(DottedKey(prefix, entry.0)))
    else k != DottedKey(prefix, entry.0)
  }

  /** `k`, when in `a`, is in `b` with the same value. */
  ghost predicate Keeps(a: map<string, Json>, b: map<string, Json>, k: string) {
    k in a ==> k in b && b[k] == a[k]
  }

  /** `k` is in `m` and bound to `v`. */
  ghost predicate HasValue(m: map<string, Json>, k: string, v: Json) {
    k in m && m[k] == v
  }

  lemma KeepsValue(a: map<string, Json>, b: map<string, Json>, k: string, v: Json)
    requires HasValue(a, k, v) && Keeps(a, b, k)
    ensures HasValue(b, k, v)
  {
  }

  /** Entries after the `i`-th that cannot write `k` leave its value as the `i`-th entry left it. */
  lemma {:induction false} FlattenKeep(obj: Json, prefix: string, i: nat, n: nat, k: string, v: Json)
    requires obj.JObject? && i < n <= |obj.entries|
    requires HasValue(FlattenPrefix(obj, prefix, i + 1).values, k, v)
    requires forall j :: i < j < n ==> NotWritten(prefix, obj.entries[j], k)
    ensures HasValue(FlattenPrefix(obj, prefix, n).values, k, v)
    decreases n
  {
    if n != i + 1 {
      FlattenKeep(obj, prefix, i, n - 1, k, v);
      FlattenKeepValue(obj, prefix, n, k, v);
    }
  }

  /** An entry that leaves `k` alone keeps the value bound to it. */
  lemma FlattenKeepValue(obj: Json, prefix: string, n: nat, k: string, v: Json)
    requires obj.JObject? && 0 < n <= |obj.entries|
    requires HasValue(FlattenPrefix(obj, prefix, n - 1).values, k, v)
    requires NotWritten(prefix, obj.entries[n - 1], k)
    ensures HasValue(FlattenPrefix(obj, prefix, n).values, k, v)
  {
    FlattenKeepStep(obj, prefix, n, k);
    KeepsValue(FlattenPrefix(obj, prefix, n - 1).values, FlattenPrefix(obj, prefix, n).values, k, v);
  }

  /** An entry that leaves `k` alone keeps its value. */
  lemma FlattenKeepStep(obj: Json, prefix: string, n: nat, k: string)
    requires obj.JObject? && 0 < n <= |obj.entries|
    requires NotWritten(prefix, obj.entries[n - 1], k)
    ensures Keeps(FlattenPrefix(obj, prefix, n - 1).values, FlattenPrefix(obj, prefix, n).values, k)
  {
    FlattenStep(obj, prefix, n);
    var entry := obj.entries[n - 1];
    var acc := FlattenPrefix(obj, prefix, n - 1);
    if k in acc.values {
      if entry.1.JObject? {
        FlattenObjectUnder(entry.1, DottedKey(prefix, entry.0));
        AssignKeeps(acc, FlattenObject(entry.1, DottedKey(prefix, entry.0)), k);
      } else {
        SetKeeps(acc, DottedKey(prefix, entry.0), entry.1, k);
      }
    }
  }

  /** A key the source does not have keeps its value through `Assign`. */
  lemma AssignKeeps(acc: OrderedMap<Json>, source: OrderedMap<Json>, k: string)
    requires source.Valid() && k in acc.values && k !in source.values
    ensures k in Assign(acc, source).values && Assign(acc, source).values[k] == acc.values[k]
  {
  }

  /** A key other than the one set keeps its value through `Set`. */
  lemma SetKeeps(acc: OrderedMap<Json>, key: string, v: Json, k: string)
    requires k in acc.values && k != key
    ensures k in acc.Set(key, v).values && acc.Set(key, v).values[k] == acc.values[k]
  {
  }

  /** A dot-free key is not under another key followed by a dot. */
  lemma NotUnderDotted(p: string, key: string, other: string)
    requires '.' !in key
    ensures !StartsWith(p + key, p + other + ".")
  {
    if |other| < |key| {
      var i := |p| + |other|;
      assert (p + key)[i] == key[|other|];
      assert key[|other|] in key;
      assert (p + other + ".")[i] == '.';
    }
  }

  /** Two different dot-free keys followed by a dot cannot both begin the same string. */
  lemma DistinctDotted(p: string, key: string, other: string, s: string)
    requires '.' !in key && '.' !in other && key != other
    requires StartsWith(s, p + key + ".")
    ensures !StartsWith(s, p + other + ".")
  {
    var mine := p + key + ".";
    var theirs := p + other + ".";
    if |key| < |other| {
      var i := |p| + |key|;
      assert s[i] == mine[i] == '.';
      assert theirs[i] == other[|key|];
      assert other[|key|] in other;
    } else if |other| < |key| {
      var i := |p| + |other|;
      assert theirs[i] == '.';
      assert s[i] == mine[i] == key[|other|];
      assert key[|other|] in key;
    } else if |theirs| <= |s| {
      var j :| 0 <= j < |key| && key[j] != other[j];
      assert s[|p| + j] == mine[|p| + j] == key[j];
      assert theirs[|p| + j] == other[j];
    }
  }

  /**
   * A value that is not an object, whose key is simple and not repeated later in
   * its object, ends up at its dotted key.
   */
  lemma FlattenLeaf(obj: Json, prefix: string, i: nat)
    requires obj.JObject? && i < |obj.entries| && !obj.entries[i].1.JObject?
    requires SimpleKeys(obj) && LastOfItsKey(obj, i)
    ensures DottedKey(prefix, obj.entries[i].0) in FlattenObject(obj, prefix).values
    ensures FlattenObject(obj, prefix).values[DottedKey(prefix, obj.entries[i].0)] == obj.entries[i].1
  {
    var k := DottedKey(prefix, obj.entries[i].0);
    forall j | i < j < |obj.entries| ensures NotWritten(prefix, obj.entries[j], k) {
      LeafNotWritten(obj, prefix, i, j);
    }
    FlattenStep(obj, prefix, i + 1);
    FlattenKeep(obj, prefix, i, |obj.entries|, k, obj.entries[i].1);
  }

  lemma LeafNotWritten(obj: Json, prefix: string, i: nat, j: nat)
    requires obj.JObject? && i < j < |obj.entries|
    requires SimpleKeys(obj) && LastOfItsKey(obj, i)
    ensures NotWritten(prefix, obj.entries[j], DottedKey(prefix, obj.entries[i].0))
  {
    var p := KeyPrefix(prefix);
    var key := obj.entries[i].0;
    var k := p + key;
    var other := obj.entries[j].0;
    if obj.entries[j].1.JObject? {
      assert KeyPrefix(p + other) == p + other + ".";
      NotUnderDotted(p, key, other);
    } else {
      assert (p + other)[|p|..] == other;
      assert k[|p|..] == key;
    }
  }

  /**
   * Every flat key of a nested object whose key is simple and not repeated later
   * in its object ends up, with its value, in the flattening of the enclosing
   * object.
   */
  lemma FlattenNested(obj: Json, prefix: string, i: nat, k: string)
    requires obj.JObject? && i < |obj.entries| && obj.entries[i].1.JObject?
    requires SimpleKeys(obj) && LastOfItsKey(obj, i)
    requires k in FlattenObject(obj.entries[i].1, DottedKey(prefix, obj.entries[i].0)).values
    ensures k in FlattenObject(obj, prefix).values
    ensures FlattenObject(obj, prefix).values[k]
      == FlattenObject(obj.entries[i].1, DottedKey(prefix, obj.entries[i].0)).values[k]
  {
    var p := KeyPrefix(prefix);
    var key := obj.entries[i].0;
    assert KeyPrefix(p + key) == p + key + ".";
    FlattenObjectUnder(obj.entries[i].1, DottedKey(prefix, key));
    assert StartsWith(k, p + key + ".");
    forall j | i < j < |obj.entries| ensures NotWritten(prefix, obj.entries[j], k) {
      NestedNotWritten(obj, prefix, i, j, k);
    }
    FlattenStep(obj, prefix, i + 1);
    FlattenKeep(obj, prefix, i, |obj.entries|, k, FlattenObject(obj.entries[i].1, DottedKey(prefix, key)).values[k]);
  }

  lemma NestedNotWritten(obj: Json, prefix: string, i: nat, j: nat, k: string)
    requires obj.JObject? && i < j < |obj.entries|
    requires SimpleKeys(obj) && LastOfItsKey(obj, i)
    requires StartsWith(k, KeyPrefix(prefix) + obj.entries[i].0 + ".")
    ensures NotWritten(prefix, obj.entries[j], k)
  {
    var p := KeyPrefix(prefix);
    var key := obj.entries[i].0;
    var other := obj.entries[j].0;
    if obj.entries[j].1.JObject? {
      assert KeyPrefix(p + other) == p + other + ".";
      DistinctDotted(p, key, other, k);
    } else {
      NotUnderDotted(p, other, key);
    }
  }

  /** The entries `Object.entries` gives for an array: its indices as keys. */
  function IndexEntries(items: seq<Json>): (r: seq<(string, Json)>)
    ensures |r| == |items|
    ensures forall i :: 0 <= i < |r| ==> r[i] == (NatToString(i), items[i])
  {
    seq(|items|, i requires 0 <= i < |items| => (NatToString(i), items[i]))
  }

  /**
   * The flat table loaded for one locale: a missing file or a file that is not an
   * object gives the empty table; an array is flattened by its indices.
   */
  function TableOf(file: Option<Json>): (r: OrderedMap<Json>)
    ensures r.Valid()
    ensures file.None? || !(file.value.JObject? || file.value.JArray?) ==> r == Empty()
  {
    match file
    case None => Empty()
    case Some(JObject(_)) => FlattenObject(file.value, "")
    case Some(JArray(items)) => FlattenObject(JObject(IndexEntries(items)), "")
    case Some(_) => Empty()
  }

  function FileOf(files: map<string, Json>, locale: string): Option<Json> {
    if locale in files then Some(files[locale]) else None
  }

  /** Loads the file of one locale: an object is flattened, an array is flattened by index, anything else is empty. */
  method LoadTable(files: map<string, Json>, locale: string) returns (table: OrderedMap<Json>)
    ensures table == TableOf(FileOf(files, locale))
  {
    if locale in files && files[locale].JObject? {
      table := Flatten(files[locale], "");
    } else if locale in files && files[locale].JArray? {
      table := Flatten(JObject(IndexEntries(files[locale].items)), "");
    } else {
      table := Empty();
    }
  }

  /** The tables of the first `n` locales. */
  function LoadedTables(files: map<string, Json>, n: nat): (r: map<string, OrderedMap<Json>>)
    requires n <= |Locales|
    ensures forall l :: l in r <==> l in Locales[..n]
    ensures forall l :: l in r ==> r[l] == TableOf(FileOf(files, l))
  {
    if n == 0 then map[]
    else
      assert Locales[..n] == Locales[..n - 1] + [Locales[n - 1]];
      LoadedTables(files, n - 1)[Locales[n - 1] := TableOf(FileOf(files, Locales[n - 1]))]
  }

  lemma LoadedTablesStep(before: map<string, OrderedMap<Json>>, files: map<string, Json>, i: nat)
    requires i < |Locales|
    ensures before + LoadedTables(files, i + 1)
      == (before + LoadedTables(files, i))[Locales[i] := TableOf(FileOf(files, Locales[i]))]
  {
  }

  /** Loading keeps every table well formed. */
  lemma LoadedTablesValid(tables: map<string, OrderedMap<Json>>, before: map<string, OrderedMap<Json>>, files: map<string, Json>)
    requires forall l :: l in before ==> before[l].Valid()
    requires tables == before + LoadedTables(files, |Locales|)
    ensures forall l :: l in tables ==> tables[l].Valid()
  {
  }

  // ---------------------------------------------------------------------------
  // Parameters
  // ---------------------------------------------------------------------------

  function Placeholder(key: string): (r: string)
    ensures r != [] && r[0] == '{'
  {
    "{{" + key + "}}"
  }

  /** Every `{{key}}` replaced by its rendered value, one parameter after another. */
  function Substituted(text: string, params: seq<(string, string)>): (r: string)
  {
    if params == [] then text
    else
      var param := params[|params| - 1];
      ReplaceAll(Substituted(text, params[..|params| - 1]), Placeholder(param.0), param.1)
  }

  /** `replaceParams`: the substitution loop. */
  method ReplaceParams(text: string, params: seq<(string, string)>) returns (result: string)
    ensures result == Substituted(text, params)
  {
    result := text;
    for i := 0 to |params|
      invariant result == Substituted(text, params[..i])
    {
      assert params[..i + 1][..i] == params[..i];
      var (key, value) := params[i];
      result := ReplaceAll(result, Placeholder(key), value);
    }
    assert params[..|params|] == params;
  }

  /** A text without braces has no placeholder and is left as it is. */
  lemma {:induction false} SubstitutedWithoutBraces(text: string, params: seq<(string, string)>)
    requires '{' !in text
    ensures Substituted(text, params) == text
  {
    if params != [] {
      SubstitutedWithoutBraces(text, params[..|params| - 1]);
      AbsentFirstChar(text, Placeholder(params[|params| - 1].0));
    }
  }

  /** A single placeholder between brace-free text is replaced by the brace-free value. */
  lemma SubstitutedOne(pre: string, key: string, post: string, value: string)
    requires '{' !in pre && '{' !in post
    ensures Substituted(pre + Placeholder(key) + post, [(key, value)]) == pre + value + post
  {
    var pat := Placeholder(key);
    var text := pre + pat + post;
    assert [(key, value)][..0] == [];
    assert OccursAt(text, pat, |pre|) by {
      assert text[|pre|..|pre| + |pat|] == pat;
    }
    forall j: nat | j < |pre| ensures !OccursAt(text, pat, j) {
      assert text[j] == pre[j];
      assert pre[j] in pre;
    }
    assert IndexOf(text, pat) == Some(|pre|);
    assert text[..|pre|] == pre;
    assert text[|pre| + |pat|..] == post;
    AbsentFirstChar(post, pat);
    assert ReplaceAll(post, pat, value) == post;
    assert ReplaceAll(text, pat, value) == pre + value + post;
    assert Substituted(text, [(key, value)]) == ReplaceAll(Substituted(text, []), pat, value);
  }

  /** The value returned for a found translation: substituted when there are parameters; `None` when a non-string would be substituted (a `TypeError`). */
  function WithParams(v: Json, params: seq<(string, string)>): (r: Option<Json>)
    ensures params == [] ==> r == Some(v)
    ensures params != [] ==> (r.Some? <==> v.JString?)
    ensures params != [] && v.JString? ==> r == Some(JString(Substituted(v.text, params)))
  {
    if params == [] then Some(v)
    else if v.JString? then Some(JString(Substituted(v.text, params)))
    else None
  }

  /** Statistics of one locale: its number of keys and the default-locale keys it lacks. */
  datatype LocaleStats = LocaleStats(total: nat, missing: seq<string>)

  predicate Lacks(localeKeys: seq<string>, key: string) {
    key !in localeKeys
  }

  /** The default keys a locale lacks, in default order. */
  function MissingKeys(defaultKeys: seq<string>, localeKeys: seq<string>): (r: seq<string>)
    ensures forall k :: k in r <==> k in defaultKeys && k !in localeKeys
  {
    Filter(defaultKeys, k => Lacks(localeKeys, k))
  }

  /** The entries of `table` whose key starts with `prefix`, among its first `n` keys, re-keyed without it. */
  function NamespacePrefix(table: OrderedMap<Json>, prefix: string, n: nat): (r: OrderedMap<Json>)
    requires table.Valid() && n <= |table.keys|
    ensures r.Valid()
  {
    if n == 0 then Empty()
    else
      var acc := NamespacePrefix(table, prefix, n - 1);
      var key := table.keys[n - 1];
      if StartsWith(key, prefix) then acc.Set(key[|prefix|..], table.values[key]) else acc
  }

  function NamespaceOf(table: OrderedMap<Json>, prefix: string): (r: OrderedMap<Json>)
    requires table.Valid()
    ensures r.Valid()
  {
    NamespacePrefix(table, prefix, |table.keys|)
  }

  /** `r` holds exactly the entries of `table` under `prefix` among the keys `ks`, with the prefix removed. */
  ghost predicate NamespaceHolds(r: OrderedMap<Json>, table: OrderedMap<Json>, prefix: string, ks: seq<string>) {
    (forall s :: s in r.values <==> prefix + s in ks)
    && (forall s :: s in r.values ==> prefix + s in table.values && r.values[s] == table.values[prefix + s])
  }

  /** One key more: re-keyed and stored when it lies under the prefix, skipped otherwise. */
  lemma NamespaceStep(acc: OrderedMap<Json>, table: OrderedMap<Json>, prefix: string, ks: seq<string>, key: string)
    requires NamespaceHolds(acc, table, prefix, ks) && key in table.values
    ensures NamespaceHolds(if StartsWith(key, prefix) then acc.Set(key[|prefix|..], table.values[key]) else acc,
      table, prefix, ks + [key])
  {
    if StartsWith(key, prefix) {
      assert prefix + key[|prefix|..] == key;
      forall s | prefix + s == key ensures s == key[|prefix|..] {
        assert (prefix + s)[|prefix|..] == s;
      }
    } else {
      forall s ensures prefix + s != key {
        assert (prefix + s)[..|prefix|] == prefix;
      }
    }
  }

  lemma {:induction false} NamespacePrefixExact(table: OrderedMap<Json>, prefix: string, n: nat)
    requires table.Valid() && n <= |table.keys|
    ensures NamespaceHolds(NamespacePrefix(table, prefix, n), table, prefix, table.keys[..n])
  {
    if n > 0 {
      NamespacePrefixExact(table, prefix, n - 1);
      var key := table.keys[n - 1];
      assert table.keys[..n] == table.keys[..n - 1] + [key];
      NamespaceStep(NamespacePrefix(table, prefix, n - 1), table, prefix, table.keys[..n - 1], key);
    }
  }

  /** The namespace view holds exactly the entries under `prefix`, with the prefix removed. */
  lemma NamespaceExact(table: OrderedMap<Json>, prefix: string)
    requires table.Valid()
    ensures forall s :: s in NamespaceOf(table, prefix).values <==> prefix + s in table.values
    ensures forall s :: s in NamespaceOf(table, prefix).values ==>
      NamespaceOf(table, prefix).values[s] == table.values[prefix + s]
  {
    NamespacePrefixExact(table, prefix, |table.keys|);
    assert table.keys[..|table.keys|] == table.keys;
  }

  // ---------------------------------------------------------------------------
  // The translation store
  // ---------------------------------------------------------------------------

  class I18n {
    /** One flat table per loaded locale. */
    var translations: map<string, OrderedMap<Json>>
    var loaded: bool
    var loading: bool

    ghost predicate Valid()
      reads this
    {
      forall l :: l in translations ==> translations[l].Valid()
    }

    constructor()
      ensures translations == map[] && !loaded && !loading
      ensures Valid()
    {
      translations := map[];
      loaded := false;
      loading := false;
    }

    /**
     * Loads every locale's file into its flat table; once loaded, nothing is
     * reloaded. `files` maps a locale to the parsed file configured for it.
     */
    method LoadAllTranslations(files: map<string, Json>)
      requires Valid()
      modifies this
      ensures Valid() && loaded
      ensures old(loaded) ==> translations == old(translations) && loading == old(loading)
      ensures !old(loaded) ==> !loading && translations == old(translations) + LoadedTables(files, |Locales|)
    {
      if loaded {
        return;
      }
      loading := true;
      var tables := translations;
      for i := 0 to |Locales|
        invariant tables == old(translations) + LoadedTables(files, i)
      {
        var table := LoadTable(files, Locales[i]);
        LoadedTablesStep(old(translations), files, i);
        tables := tables[Locales[i] := table];
      }
      LoadedTablesValid(tables, old(translations), files);
      translations := tables;
      loaded := true;
      loading := false;
    }

    /** `translations.get(locale) || {}`. */
    function AllTranslations(locale: string): (r: OrderedMap<Json>)
      reads this
      requires Valid()
      ensures r.Valid()
      ensures locale !in translations ==> r == Empty()
    {
      if locale in translations then translations[locale] else Empty()
    }

    /**
     * The translation before parameters: the locale's own value when truthy, else
     * the default locale's when truthy, else none.
     */
    function Found(key: string, locale: string): (r: Option<Json>)
      reads this
      requires locale in translations
      ensures r.Some? ==> Truthy(r)
      ensures Truthy(translations[locale].Get(key)) ==> r == translations[locale].Get(key)
      ensures !Truthy(translations[locale].Get(key)) ==>
        (r.Some? <==> locale != DefaultLocale && DefaultLocale in translations
                      && Truthy(translations[DefaultLocale].Get(key)))
      ensures !Truthy(translations[locale].Get(key)) && r.Some? ==> r == translations[DefaultLocale].Get(key)
    {
      var own := translations[locale].Get(key);
      if Truthy(own) then own
      else if locale != DefaultLocale && DefaultLocale in translations
              && Truthy(translations[DefaultLocale].Get(key)) then
        translations[DefaultLocale].Get(key)
      else None
    }

    /**
     * The translation of `key`: the key itself before loading, for an unknown
     * locale, or when neither the locale nor the default has a truthy value;
     * otherwise the found value with the parameters substituted. `None` stands for
     * the error raised when parameters are applied to a value that is not a string.
     */
    method GetTranslation(key: string, locale: string, params: seq<(string, string)>) returns (r: Option<Json>)
      ensures !loaded || locale !in translations ==> r == Some(JString(key))
      ensures loaded && locale in translations && Found(key, locale).None? ==> r == Some(JString(key))
      ensures loaded && locale in translations && Found(key, locale).Some? ==>
        r == WithParams(Found(key, locale).value, params)
    {
      if !loaded || locale !in translations {
        return Some(JString(key));
      }
      var translation := Found(key, locale);
      if translation.None? {
        return Some(JString(key));
      }
      if params != [] {
        if !translation.value.JString? {
          return None;
        }
        var text := ReplaceParams(translation.value.text, params);
        return Some(JString(text));
      }
      return translation;
    }

    /** The statistics of every locale. */
    method GetStats() returns (stats: map<string, LocaleStats>)
      requires Valid()
      ensures forall l :: l in stats <==> l in Locales
      ensures forall l :: l in Locales ==> stats[l].total == AllTranslations(l).Size()
      ensures stats[DefaultLocale].missing == []
      ensures forall l :: l in Locales && l != DefaultLocale ==>
        stats[l].missing == MissingKeys(AllTranslations(DefaultLocale).keys, AllTranslations(l).keys)
    {
      stats := Totals();
      stats := AddMissing(stats);
    }

    /** The size of every locale's table, with nothing missing yet. */
    method Totals() returns (stats: map<string, LocaleStats>)
      requires Valid()
      ensures forall l :: l in stats <==> l in Locales
      ensures forall l :: l in stats ==> stats[l] == LocaleStats(AllTranslations(l).Size(), [])
    {
      stats := map[];
      for i := 0 to |Locales|
        invariant forall l :: l in stats <==> l in Locales[..i]
        invariant forall l :: l in stats ==> stats[l] == LocaleStats(AllTranslations(l).Size(), [])
      {
        stats := stats[Locales[i] := LocaleStats(AllTranslations(Locales[i]).Size(), [])];
      }
    }

    /** Every locale but the default gets the default keys it lacks. */
    method AddMissing(totals: map<string, LocaleStats>) returns (stats: map<string, LocaleStats>)
      requires Valid()
      requires forall l :: l in totals <==> l in Locales
      requires forall l :: l in totals ==> totals[l] == LocaleStats(AllTranslations(l).Size(), [])
      ensures forall l :: l in stats <==> l in Locales
      ensures forall l :: l in Locales ==> stats[l].total == AllTranslations(l).Size()
      ensures stats[DefaultLocale].missing == []
      ensures forall l :: l in Locales && l != DefaultLocale ==>
        stats[l].missing == MissingKeys(AllTranslations(DefaultLocale).keys, AllTranslations(l).keys)
    {
      stats := totals;
      var defaultKeys := AllTranslations(DefaultLocale).keys;
      for i := 0 to |Locales|
        invariant forall l :: l in stats <==> l in Locales
        invariant forall l :: l in stats ==> stats[l].total == AllTranslations(l).Size()
        invariant stats[DefaultLocale].missing == []
        invariant forall l :: l in Locales[..i] && l != DefaultLocale ==>
          stats[l].missing == MissingKeys(defaultKeys, AllTranslations(l).keys)
      {
        var locale := Locales[i];
        if locale != DefaultLocale {
          var missing := MissingKeys(defaultKeys, AllTranslations(locale).keys);
          stats := stats[locale := stats[locale].(missing := missing)];
        }
      }
    }

    /** The entries of one namespace, re-keyed without `namespace.`; empty before loading. */
    method GetNamespaceTranslations(namespace: string, locale: string) returns (r: OrderedMap<Json>)
      requires Valid()
      ensures !loaded ==> r == Empty()
      ensures loaded ==> r == NamespaceOf(AllTranslations(locale), namespace + ".")
    {
      if !loaded {
        return Empty();
      }
      var all := AllTranslations(locale);
      var prefix := namespace + ".";
      r := Empty();
      for i := 0 to |all.keys|
        invariant r == NamespacePrefix(all, prefix, i)
      {
        var key := all.keys[i];
        if StartsWith(key, prefix) {
          r := r.Set(key[|prefix|..], all.values[key]);
        }
      }
    }
  }
}
