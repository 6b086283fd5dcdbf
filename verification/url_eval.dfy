/**
 * URLs in the older evaluator (js/main.js): extraction of URLs from an
 * answer, the comparison of two parsed URLs, and `evaluateURL`, which keeps
 * the best comparison over the extracted URLs.
 *
 * Parsing itself (`new URL(...)`) is the WHATWG URL parser; the model takes
 * it as a parameter that yields the protocol, host name, path and query of a
 * string, or nothing when the string does not parse.
 */
module UrlEvaluation {
  import opened Base
  import opened JsText
  import opened Scanning
  import opened TextMatching

  // ---------------------------------------------------------------------------
  // extractURLsFromText
  // ---------------------------------------------------------------------------

  /** The four global expressions, in order: a bare URL, one in square
      brackets, one in parentheses, and a bare URL ended by Japanese
      punctuation. */
  const UrlPatterns := [Url(UrlChar), Enclosed('[', ']'), Enclosed('(', ')'), Url(UrlCharJa)]

  /** `[\[\]()（）]`, removed everywhere from a match. */
  const Brackets := {'[', ']', '(', ')', '（', '）'}

  /** `[、。，．]`, removed from the end of a match. */
  const TrailingPunctuation := {'、', '。', '，', '．'}

  /** `s.replace(/[cs]*$/, '')`. */
  function StripTrailing(s: string, cs: set<char>): (r: string)
    ensures |r| <= |s| && r == s[..|r|]
    ensures r == [] || r[|r| - 1] !in cs
    ensures forall k :: |r| <= k < |s| ==> s[k] in cs
  {
    if |s| > 0 && s[|s| - 1] in cs then StripTrailing(s[..|s| - 1], cs) else s
  }

  /** One match, cleaned: brackets removed, then trailing punctuation. */
  function CleanUrl(m: string): string {
    StripTrailing(RemoveChars(m, Brackets), TrailingPunctuation)
  }

  /** What every extracted URL looks like. */
  predicate WellFormedUrl(u: string) {
    StartsWith(u, "http")
    && (forall k :: 0 <= k < |u| ==> u[k] !in Brackets)
    && !EndsWithOneOf(u, TrailingPunctuation)
  }

  lemma CleanUrlSpec(m: string)
    ensures forall k :: 0 <= k < |CleanUrl(m)| ==> CleanUrl(m)[k] !in Brackets
    ensures !EndsWithOneOf(CleanUrl(m), TrailingPunctuation)
  {
  }

  /** Cleaning a cleaned URL changes nothing. */
  lemma CleanUrlIdempotent(m: string)
    ensures CleanUrl(CleanUrl(m)) == CleanUrl(m)
  {
    var c := CleanUrl(m);
    RemoveNoChars(c, Brackets);
  }

  /** `matches.forEach(...)`: each cleaned match that starts with "http" is
      added to the set. */
  function AddCleaned(urls: seq<string>, ms: seq<string>): seq<string>
    decreases |ms|
  {
    if ms == [] then urls
    else if StartsWith(CleanUrl(ms[|ms| - 1]), "http") then
      SetAdd(AddCleaned(urls, ms[..|ms| - 1]), CleanUrl(ms[|ms| - 1]))
    else AddCleaned(urls, ms[..|ms| - 1])
  }

  /** The set after the loop over the expressions `ps`. */
  function UrlsOf(text: string, ps: seq<Pattern>): seq<string>
    decreases |ps|
  {
    if ps == [] then []
    else AddCleaned(UrlsOf(text, ps[..|ps| - 1]), WholesFrom(text, ps[|ps| - 1], 0))
  }

  /** What `extractURLsFromText(text)` returns. */
  function ExtractedUrls(text: string): seq<string> {
    if text == "" then [] else UrlsOf(text, UrlPatterns)
  }

  /** `extractURLsFromText(text)`. */
  method ExtractURLsFromText(text: string) returns (urls: seq<string>)
    ensures urls == ExtractedUrls(text)
  {
    urls := [];
    if text == "" {
      return;
    }
    for i := 0 to |UrlPatterns|
      invariant urls == UrlsOf(text, UrlPatterns[..i])
    {
      assert UrlPatterns[..i + 1][..i] == UrlPatterns[..i];
      var matches := WholesFrom(text, UrlPatterns[i], 0);
      ghost var before := urls;
      for k := 0 to |matches|
        invariant urls == AddCleaned(before, matches[..k])
      {
        assert matches[..k + 1][..k] == matches[..k];
        var cleanUrl := CleanUrl(matches[k]);
        if StartsWith(cleanUrl, "http") {
          urls := SetAdd(urls, cleanUrl);
        }
      }
      assert matches[..|matches|] == matches;
    }
    assert UrlPatterns[..4] == UrlPatterns;
  }

  lemma {:induction false} AddCleanedSpec(urls: seq<string>, ms: seq<string>)
    requires Distinct(urls) && forall u :: u in urls ==> WellFormedUrl(u)
    ensures Distinct(AddCleaned(urls, ms))
    ensures forall u :: u in AddCleaned(urls, ms) ==> WellFormedUrl(u)
    decreases |ms|
  {
    if ms != [] {
      AddCleanedSpec(urls, ms[..|ms| - 1]);
      CleanUrlSpec(ms[|ms| - 1]);
    }
  }

  lemma {:induction false} UrlsOfSpec(text: string, ps: seq<Pattern>)
    ensures Distinct(UrlsOf(text, ps))
    ensures forall u :: u in UrlsOf(text, ps) ==> WellFormedUrl(u)
    decreases |ps|
  {
    if ps != [] {
      UrlsOfSpec(text, ps[..|ps| - 1]);
      AddCleanedSpec(UrlsOf(text, ps[..|ps| - 1]), WholesFrom(text, ps[|ps| - 1], 0));
    }
  }

  /** The extracted URLs are distinct, each starts with "http", holds no
      bracket and does not end in Japanese punctuation. */
  lemma ExtractedUrlsSpec(text: string)
    ensures Distinct(ExtractedUrls(text))
    ensures forall u :: u in ExtractedUrls(text) ==> WellFormedUrl(u)
  {
    UrlsOfSpec(text, UrlPatterns);
  }

  // ---------------------------------------------------------------------------
  // parseURL and analyzeURLs
  // ---------------------------------------------------------------------------

  /** The parts of a parsed URL that the comparison reads. */
  datatype ParsedUrl = ParsedUrl(protocol: string, hostname: string, pathname: string, search: string)

  /** The two options of the comparison: a protocol difference and a
      `www.` difference can each be ignored. */
  datatype UrlSettings = UrlSettings(protocolFlexible: bool, wwwFlexible: bool)

  /** `/^https?:\/\//`, without the `i` flag. */
  predicate HasScheme(u: string) {
    StartsWith(u, "http://") || StartsWith(u, "https://")
  }

  /** The string `parseURL` hands to the parser: "https://" is put in front
      of a string without a scheme. */
  function WithScheme(u: string): (r: string)
    ensures HasScheme(r)
    ensures HasScheme(u) ==> r == u
    ensures EndsWith(r, u) && |r| <= |u| + 8
  {
    if HasScheme(u) then u
    else
      assert ("https://" + u)[..8] == "https://";
      "https://" + u
  }

  /** `parseURL(urlString)`. */
  function ParseURL(u: string, parse: string -> Option<ParsedUrl>): (r: Option<ParsedUrl>)
    ensures HasScheme(u) ==> r == parse(u)
    ensures !HasScheme(u) ==> r == parse("https://" + u)
  {
    parse(WithScheme(u))
  }

  /** One entry of `differences`; the texts of the source carry these
      values. */
  datatype Difference =
    | ParseFailure
    | ProtocolDiff(protocol1: string, protocol2: string)
    | DomainDiff(domain1: string, domain2: string)
    | WwwDiff
    | PathDiff(path1: string, path2: string, sameSite: bool)
    | QueryDiff

  /** The record `analyzeURLs` returns. */
  datatype UrlAnalysis = UrlAnalysis(sameBaseSite: bool, sameDomain: bool, exactMatch: bool,
                                     minorDifferences: bool, differences: seq<Difference>)

  const ParseFailed := UrlAnalysis(false, false, false, false, [ParseFailure])

  /** `hostname.replace(/^www\./, '')`. */
  function StripWww(h: string): (r: string)
    ensures !StartsWith(h, "www.") ==> r == h
    ensures StartsWith(h, "www.") ==> h == "www." + r
  {
    if StartsWith(h, "www.") then h[4..] else h
  }

  /** The domain compared: no leading `www.`, lower case. */
  function SiteDomain(h: string): string {
    ToLower(StripWww(h))
  }

  /** A host name and the same name with `www.` compare equal. */
  lemma SiteDomainIgnoresWww(h: string)
    requires !StartsWith(h, "www.")
    ensures SiteDomain("www." + h) == SiteDomain(h)
  {
    assert ("www." + h)[..4] == "www.";
    assert ("www." + h)[4..] == h;
  }

  /** The comparison of two parsed URLs, the body of `analyzeURLs` after
      parsing. */
  function CompareParsed(p1: ParsedUrl, p2: ParsedUrl, settings: UrlSettings): (r: UrlAnalysis)
    ensures r.exactMatch <==> p1.protocol == p2.protocol && p1.hostname == p2.hostname
                              && NormalizePath(p1.pathname) == NormalizePath(p2.pathname)
    ensures r.exactMatch ==> r.sameBaseSite
    ensures r.sameBaseSite <==> r.sameDomain && IsSameBaseSite(NormalizePath(p1.pathname), NormalizePath(p2.pathname))
    ensures r.sameDomain <==> SiteDomain(p1.hostname) == SiteDomain(p2.hostname)
    ensures r.sameDomain ==> (QueryDiff in r.differences <==> p1.search != p2.search)
    ensures r.minorDifferences <==> r.sameDomain && |r.differences| <= 2
    ensures !r.sameDomain ==> |r.differences| == 1
    ensures |r.differences| <= 4
  {
    if SiteDomain(p1.hostname) != SiteDomain(p2.hostname) then
      UrlAnalysis(false, false, false, false, [DomainDiff(SiteDomain(p1.hostname), SiteDomain(p2.hostname))])
    else
      SameBaseSiteReflexive(NormalizePath(p1.pathname));
      SameDomainAnalysis(p1, p2, settings, NormalizePath(p1.pathname), NormalizePath(p2.pathname))
  }

  /** The differences found between two URLs of the same domain. */
  function PathDifferences(p1: ParsedUrl, p2: ParsedUrl, settings: UrlSettings, path1: string, path2: string): (r: seq<Difference>)
    ensures |r| <= 4
  {
    (if p1.protocol != p2.protocol && !settings.protocolFlexible then [ProtocolDiff(p1.protocol, p2.protocol)] else [])
    + (if p1.hostname != p2.hostname && !settings.wwwFlexible then [WwwDiff] else [])
    + (if path1 != path2 then [PathDiff(path1, path2, IsSameBaseSite(path1, path2))] else [])
    + (if p1.search != p2.search then [QueryDiff] else [])
  }

  function SameDomainAnalysis(p1: ParsedUrl, p2: ParsedUrl, settings: UrlSettings, path1: string, path2: string): (r: UrlAnalysis)
    ensures r.sameDomain && r.sameBaseSite == IsSameBaseSite(path1, path2)
    ensures r.exactMatch <==> p1.protocol == p2.protocol && p1.hostname == p2.hostname && path1 == path2
    ensures QueryDiff in r.differences <==> p1.search != p2.search
  {
    QueryDiffRecorded(p1, p2, settings, path1, path2);
    UrlAnalysis(IsSameBaseSite(path1, path2), true,
                p1.protocol == p2.protocol && p1.hostname == p2.hostname && path1 == path2,
                |PathDifferences(p1, p2, settings, path1, path2)| <= 2,
                PathDifferences(p1, p2, settings, path1, path2))
  }

  /** A query difference is recorded exactly when the queries differ. */
  lemma QueryDiffRecorded(p1: ParsedUrl, p2: ParsedUrl, settings: UrlSettings, path1: string, path2: string)
    ensures QueryDiff in PathDifferences(p1, p2, settings, path1, path2) <==> p1.search != p2.search
  {
    var front := (if p1.protocol != p2.protocol && !settings.protocolFlexible then [ProtocolDiff(p1.protocol, p2.protocol)] else [])
      + (if p1.hostname != p2.hostname && !settings.wwwFlexible then [WwwDiff] else [])
      + (if path1 != path2 then [PathDiff(path1, path2, IsSameBaseSite(path1, path2))] else []);
    assert QueryDiff !in front;
    assert PathDifferences(p1, p2, settings, path1, path2) == front + (if p1.search != p2.search then [QueryDiff] else []);
  }

  /** `analyzeURLs(url1, url2)`. */
  function AnalyzeURLs(url1: string, url2: string, settings: UrlSettings, parse: string -> Option<ParsedUrl>): (r: UrlAnalysis)
    ensures (ParseURL(url1, parse).None? || ParseURL(url2, parse).None?) ==> r == ParseFailed
    ensures r.sameBaseSite ==> r.sameDomain
    ensures r.minorDifferences ==> r.sameDomain
    ensures ParseURL(url1, parse).Some? && ParseURL(url2, parse).Some? ==>
      (r.sameDomain <==> SiteDomain(ParseURL(url1, parse).value.hostname) == SiteDomain(ParseURL(url2, parse).value.hostname))
    ensures r.exactMatch ==> ParseURL(url1, parse).value.hostname == ParseURL(url2, parse).value.hostname
    ensures ParseURL(url1, parse).Some? && ParseURL(url2, parse).Some? ==>
      var p1, p2 := ParseURL(url1, parse).value, ParseURL(url2, parse).value;
      && (r.exactMatch <==> p1.protocol == p2.protocol && p1.hostname == p2.hostname
                            && NormalizePath(p1.pathname) == NormalizePath(p2.pathname))
      && (r.sameBaseSite <==> r.sameDomain && IsSameBaseSite(NormalizePath(p1.pathname), NormalizePath(p2.pathname)))
  {
    match (ParseURL(url1, parse), ParseURL(url2, parse))
    case (Some(p1), Some(p2)) => CompareParsed(p1, p2, settings)
    case _ => ParseFailed
  }

  /** The query is not part of the exact match: two URLs that differ only in
      their query are an exact match, and the difference is recorded only
      among the minor ones. */
  lemma QueryIgnoredByExactMatch(p: ParsedUrl, q: string, settings: UrlSettings)
    requires q != p.search
    ensures CompareParsed(p, p.(search := q), settings).exactMatch
    ensures CompareParsed(p, p.(search := q), settings).differences == [QueryDiff]
    ensures ProcessUrlAnalysis(CompareParsed(p, p.(search := q), settings)).confidence == 1.0
  {
  }

  /** Swapping the URLs keeps every verdict of the comparison and the number
      of differences. */
  lemma CompareParsedSymmetric(p1: ParsedUrl, p2: ParsedUrl, settings: UrlSettings)
    ensures CompareParsed(p1, p2, settings).sameDomain == CompareParsed(p2, p1, settings).sameDomain
    ensures CompareParsed(p1, p2, settings).sameBaseSite == CompareParsed(p2, p1, settings).sameBaseSite
    ensures CompareParsed(p1, p2, settings).exactMatch == CompareParsed(p2, p1, settings).exactMatch
    ensures CompareParsed(p1, p2, settings).minorDifferences == CompareParsed(p2, p1, settings).minorDifferences
  {
    var path1, path2 := NormalizePath(p1.pathname), NormalizePath(p2.pathname);
    SameBaseSiteSymmetric(path1, path2);
    assert |PathDifferences(p1, p2, settings, path1, path2)| == |PathDifferences(p2, p1, settings, path2, path1)|;
  }

  /** With both options on, only the path and the query can differ, so two
      URLs of one domain always differ in a minor way. */
  lemma FlexibleSettingsMinor(p1: ParsedUrl, p2: ParsedUrl)
    requires SiteDomain(p1.hostname) == SiteDomain(p2.hostname)
    ensures CompareParsed(p1, p2, UrlSettings(true, true)).minorDifferences
  {
    var path1, path2 := NormalizePath(p1.pathname), NormalizePath(p2.pathname);
    assert |PathDifferences(p1, p2, UrlSettings(true, true), path1, path2)| <= 2;
  }

  // ---------------------------------------------------------------------------
  // normalizePath and isSameBaseSite
  // ---------------------------------------------------------------------------

  const DefaultFiles := ["/index.html", "/index.htm", "/index.php", "/default.html"]

  /** The first of `files` that `s` ends with. */
  function FirstSuffix(s: string, files: seq<string>): (r: Option<string>)
    ensures r.Some? ==> r.value in files && EndsWith(s, r.value)
    ensures r.None? <==> forall k :: 0 <= k < |files| ==> !EndsWith(s, files[k])
  {
    if files == [] then None
    else if EndsWith(s, files[0]) then Some(files[0])
    else FirstSuffix(s, files[1..])
  }

  /** `normalizePath(pathname)`: trailing slashes removed, then the first
      occurrence of the default file name the path ends with, with "/" for
      an empty result. */
  function NormalizePath(pathname: string): (r: string)
    ensures r != ""
  {
    if pathname == "" || pathname == "/" then "/"
    else
      var normalized := if StripTrailing(pathname, {'/'}) == "" then "/" else StripTrailing(pathname, {'/'});
      match FirstSuffix(normalized, DefaultFiles)
      case None => normalized
      case Some(f) => if ReplaceFirst(normalized, f, "") == "" then "/" else ReplaceFirst(normalized, f, "")
  }

  /** Trailing slashes do not change the normalised path. */
  lemma NormalizePathTrailingSlash(p: string)
    ensures NormalizePath(p + "/") == NormalizePath(p)
  {
    if p != "" {
      var q := p + "/";
      assert q[..|q| - 1] == p;
      assert StripTrailing(q, {'/'}) == StripTrailing(p, {'/'});
    }
  }

  /** A path without trailing slash and default file name is already
      normal. */
  lemma NormalizePathOfNormal(p: string)
    requires p != "" && p[|p| - 1] != '/'
    requires forall k :: 0 <= k < |DefaultFiles| ==> !EndsWith(p, DefaultFiles[k])
    ensures NormalizePath(p) == p
  {
  }

  const LangPaths := ["/ja", "/en", "/jp", "/us", "/cn", "/kr"]

  /** The non-empty pieces of a list of strings, in order. */
  function NonEmpty(parts: seq<string>): (r: seq<string>)
    ensures forall p :: p in r ==> p != "" && p in parts
    ensures |r| <= |parts|
  {
    if parts == [] then []
    else if parts[0] == "" then NonEmpty(parts[1..])
    else [parts[0]] + NonEmpty(parts[1..])
  }

  /** `path.split('/').filter(s => s)`. */
  function Segments(path: string): seq<string> {
    NonEmpty(SplitOn(path, {'/'}))
  }

  /**
   * `isSameBaseSite(path1, path2)`: two roots; a root and a language path;
   * two language paths; a shallow path (two segments or fewer) beside a
   * root or sharing the first segment; otherwise equal paths.
   */
  function IsSameBaseSite(path1: string, path2: string): (r: bool)
    ensures |Segments(path1)| == 0 || |Segments(path2)| == 0 ==> r
    ensures (&& |Segments(path1)| > 2 && |Segments(path2)| > 2 && path1 != path2
             && path1 != "/" && path2 != "/" && path1 != "" && path2 != ""
             && path1 !in LangPaths && path2 !in LangPaths) ==> !r
  {
    ((path1 == "/" || path1 == "") && (path2 == "/" || path2 == ""))
    || (path1 == "/" && path2 in LangPaths)
    || (path2 == "/" && path1 in LangPaths)
    || (path1 in LangPaths && path2 in LangPaths)
    || ((|Segments(path1)| <= 2 || |Segments(path2)| <= 2)
        && (|Segments(path1)| == 0 || |Segments(path2)| == 0 || Segments(path1)[0] == Segments(path2)[0]))
    || path1 == path2
  }

  lemma SameBaseSiteReflexive(path: string)
    ensures IsSameBaseSite(path, path)
  {
  }

  lemma SameBaseSiteSymmetric(path1: string, path2: string)
    ensures IsSameBaseSite(path1, path2) == IsSameBaseSite(path2, path1)
  {
  }

  /** A top-level section and a page one level under it are the same
      site. */
  lemma SectionAndPage(a: string, b: string)
    requires a != "" && b != ""
    requires forall k :: 0 <= k < |a| ==> a[k] != '/'
    requires forall k :: 0 <= k < |b| ==> b[k] != '/'
    ensures IsSameBaseSite("/" + a, "/" + a + "/" + b)
  {
    SegmentsOfSection(a);
    SegmentsOfPage(a, b);
    assert |Segments("/" + a)| <= 2 && Segments("/" + a)[0] == Segments("/" + a + "/" + b)[0];
  }

  lemma SegmentsOfSection(a: string)
    requires a != ""
    requires forall k :: 0 <= k < |a| ==> a[k] != '/'
    ensures Segments("/" + a) == [a]
  {
    var s := "/" + a;
    SplitAtFirst(s, 0);
    assert s[1..] == a;
    SplitWithoutSlash(a);
    assert SplitOn(s, {'/'}) == ["", a];
    assert NonEmpty(["", a]) == NonEmpty([a]);
    assert NonEmpty([a]) == [a] + NonEmpty([]);
  }

  lemma SegmentsOfPage(a: string, b: string)
    requires a != "" && b != ""
    requires forall k :: 0 <= k < |a| ==> a[k] != '/'
    requires forall k :: 0 <= k < |b| ==> b[k] != '/'
    ensures Segments("/" + a + "/" + b) == [a, b]
  {
    SplitOfPage(a, b);
    assert NonEmpty(["", a, b]) == NonEmpty([a, b]);
    assert NonEmpty([a, b]) == [a] + NonEmpty([b]);
    assert NonEmpty([b]) == [b] + NonEmpty([]);
  }

  lemma SplitOfPage(a: string, b: string)
    requires forall k :: 0 <= k < |a| ==> a[k] != '/'
    requires forall k :: 0 <= k < |b| ==> b[k] != '/'
    ensures SplitOn("/" + a + "/" + b, {'/'}) == ["", a, b]
  {
    var u := a + "/" + b;
    assert "/" + a + "/" + b == "/" + u;
    SplitOfSlashed(u);
    SplitOfPair(a, b);
  }

  /** `split('/')` of a string that starts with a slash. */
  lemma SplitOfSlashed(u: string)
    ensures SplitOn("/" + u, {'/'}) == [""] + SplitOn(u, {'/'})
  {
    var t := "/" + u;
    SplitAtFirst(t, 0);
    assert t[..0] == "" && t[1..] == u;
  }

  lemma SplitOfPair(a: string, b: string)
    requires forall k :: 0 <= k < |a| ==> a[k] != '/'
    requires forall k :: 0 <= k < |b| ==> b[k] != '/'
    ensures SplitOn(a + "/" + b, {'/'}) == [a, b]
  {
    var u := a + "/" + b;
    SplitAtFirst(u, |a|);
    assert u[..|a|] == a && u[|a| + 1..] == b;
    SplitWithoutSlash(b);
  }

  /** `split('/')` at the first slash. */
  lemma SplitAtFirst(s: string, i: nat)
    requires i < |s| && s[i] == '/'
    requires forall k :: 0 <= k < i ==> s[k] != '/'
    ensures SplitOn(s, {'/'}) == [s[..i]] + SplitOn(s[i + 1..], {'/'})
  {
    NextInIs(s, {'/'}, 0, i);
  }

  /** `split('/')` of a string without slash. */
  lemma SplitWithoutSlash(s: string)
    requires forall k :: 0 <= k < |s| ==> s[k] != '/'
    ensures SplitOn(s, {'/'}) == [s]
  {
    NextInIs(s, {'/'}, 0, |s|);
  }

  // ---------------------------------------------------------------------------
  // extractDomain
  // ---------------------------------------------------------------------------

  /** `url.match(/^https?:\/\/([^\/]+)/)`: group 1 without a leading
      `www.`, or nothing. */
  function ExtractDomain(url: string): (r: Option<string>)
    ensures r.Some? ==> forall k :: 0 <= k < |r.value| ==> r.value[k] != '/'
    ensures r.Some? ==> HasScheme(url)
  {
    var q := if StartsWith(url, "https://") then 8 else 7;
    if !HasScheme(url) then None
    else
      HostWithoutSlash(url, q);
      if RunEnd(url, q, Except('/')) == q then None
      else Some(StripWww(url[q..RunEnd(url, q, Except('/'))]))
  }

  /** The host `[^\/]+` holds no slash, with or without `www.`. */
  lemma HostWithoutSlash(url: string, q: nat)
    requires q <= |url|
    ensures forall k :: 0 <= k < |StripWww(url[q..RunEnd(url, q, Except('/'))])| ==>
      StripWww(url[q..RunEnd(url, q, Except('/'))])[k] != '/'
  {
    var e := RunEnd(url, q, Except('/'));
    var h := url[q..e];
    RunEndSpec(url, q, Except('/'));
    forall k | 0 <= k < |h|
      ensures h[k] != '/'
    {
      assert h[k] == url[q + k];
      assert InClass(url[q + k], Except('/'));
    }
    if StartsWith(h, "www.") {
      forall k | 0 <= k < |StripWww(h)|
        ensures StripWww(h)[k] != '/'
      {
        assert StripWww(h)[k] == h[k + 4];
      }
    }
  }

  /** The domain of "https://host/path" is the host without `www.`. */
  lemma ExtractDomainOfHost(h: string, path: string)
    requires h != "" && forall k :: 0 <= k < |h| ==> h[k] != '/'
    requires path == "" || path[0] == '/'
    ensures ExtractDomain("https://" + h + path) == Some(StripWww(h))
  {
    var u := "https://" + h + path;
    assert u[..8] == "https://";
    RunEndIs(u, 8, |h| + 8);
    assert u[8..|h| + 8] == h;
  }

  lemma {:induction false} RunEndIs(u: string, i: nat, e: nat)
    requires i <= e <= |u|
    requires forall k :: i <= k < e ==> u[k] != '/'
    requires e == |u| || u[e] == '/'
    ensures RunEnd(u, i, Except('/')) == e
    decreases e - i
  {
    if i < e {
      RunEndIs(u, i + 1, e);
    }
  }

  // ---------------------------------------------------------------------------
  // processUrlAnalysis and evaluateURL
  // ---------------------------------------------------------------------------

  /** `processUrlAnalysis(analysis)`: 1.0 for an exact match on the same
      site, 0.95 for minor differences, 0.85 for the same site otherwise,
      0.7 for the same domain only, else no match. */
  function ProcessUrlAnalysis(a: UrlAnalysis): (r: Judgement)
    ensures Coherent(r)
    ensures r.matched <==> a.sameBaseSite || a.sameDomain
    ensures r.kind == TypeExact <==> a.sameBaseSite && a.exactMatch
    ensures r.confidence > 0.7 <==> a.sameBaseSite
    ensures a.sameBaseSite && a.exactMatch ==> r.confidence == 1.0
    ensures a.sameBaseSite && !a.exactMatch ==> r.confidence == (if a.minorDifferences then 0.95 else 0.85)
    ensures !a.sameBaseSite && a.sameDomain ==> r.confidence == 0.7
    ensures !a.sameBaseSite && !a.sameDomain ==> r == NoMatch
  {
    if a.sameBaseSite then
      (if a.exactMatch then Exact
       else if a.minorDifferences then Judgement(true, TypePartial, 0.95)
       else Judgement(true, TypePartial, 0.85))
    else if a.sameDomain then Judgement(true, TypePartial, 0.7)
    else NoMatch
  }

  /** The judgement of one candidate URL against the reference. */
  function UrlResult(wiki: string, url: string, settings: UrlSettings, parse: string -> Option<ParsedUrl>): (r: Judgement)
    ensures Coherent(r)
  {
    ProcessUrlAnalysis(AnalyzeURLs(wiki, url, settings, parse))
  }

  /** The judgement of every candidate URL against the reference. */
  function Scorer(wiki: string, settings: UrlSettings, parse: string -> Option<ParsedUrl>): string -> Judgement {
    u => UrlResult(wiki, u, settings, parse)
  }

  /** The best judgement over `urls`: a later URL replaces the best only with
      a strictly higher confidence. */
  function Best(urls: seq<string>, score: string -> Judgement): (r: Judgement)
    ensures r == NoMatch || exists k :: 0 <= k < |urls| && r == score(urls[k])
    decreases |urls|
  {
    if urls == [] then NoMatch
    else if score(urls[|urls| - 1]).confidence > Best(urls[..|urls| - 1], score).confidence
    then score(urls[|urls| - 1])
    else
      var r := Best(urls[..|urls| - 1], score);
      assert forall k :: 0 <= k < |urls| - 1 ==> urls[..|urls| - 1][k] == urls[k];
      r
  }

  /** The best judgement has the highest confidence of all, and it is the
      earliest URL with that confidence, unless it is the initial no-match,
      which no URL beats. */
  lemma {:induction false} BestSpec(urls: seq<string>, score: string -> Judgement)
    ensures forall k :: 0 <= k < |urls| ==> score(urls[k]).confidence <= Best(urls, score).confidence
    ensures Best(urls, score) == NoMatch
      || exists k :: 0 <= k < |urls| && Best(urls, score) == score(urls[k])
           && forall j :: 0 <= j < k ==> score(urls[j]).confidence < Best(urls, score).confidence
    decreases |urls|
  {
    if urls != [] {
      var init := urls[..|urls| - 1];
      BestSpec(init, score);
      var b := Best(init, score);
      var last := score(urls[|urls| - 1]);
      assert forall k :: 0 <= k < |init| ==> init[k] == urls[k];
      if last.confidence > b.confidence {
        assert Best(urls, score) == last;
      } else if b != NoMatch {
        var k :| 0 <= k < |init| && b == score(init[k])
          && forall j :: 0 <= j < k ==> score(init[j]).confidence < b.confidence;
        assert b == score(urls[k]);
      }
    }
  }

  /** The result of `evaluateURL` is coherent whenever the judgements of the
      candidate URLs are. */
  lemma BestCoherent(urls: seq<string>, score: string -> Judgement)
    requires forall k :: 0 <= k < |urls| ==> Coherent(score(urls[k]))
    ensures Coherent(Best(urls, score))
  {
  }

  /**
   * What `evaluateURL(wikidataUrl, llmUrl)` returns: exact for equal
   * strings; the comparison with the whole answer when it holds no URL;
   * exact when one extracted URL is the reference; else the best
   * comparison.
   */
  function UrlVerdict(wiki: string, llm: string, settings: UrlSettings, parse: string -> Option<ParsedUrl>): (r: Judgement)
    ensures wiki == llm || wiki in ExtractedUrls(llm) ==> r == Exact
  {
    if wiki == llm then Exact
    else if ExtractedUrls(llm) == [] then UrlResult(wiki, llm, settings, parse)
    else if wiki in ExtractedUrls(llm) then Exact
    else Best(ExtractedUrls(llm), Scorer(wiki, settings, parse))
  }

  /** Every result of `evaluateURL` is coherent. */
  lemma UrlVerdictCoherent(wiki: string, llm: string, settings: UrlSettings, parse: string -> Option<ParsedUrl>)
    ensures Coherent(UrlVerdict(wiki, llm, settings, parse))
  {
    var urls := ExtractedUrls(llm);
    var score := Scorer(wiki, settings, parse);
    forall k | 0 <= k < |urls|
      ensures Coherent(score(urls[k]))
    {
      assert score(urls[k]) == UrlResult(wiki, urls[k], settings, parse);
    }
    BestCoherent(urls, score);
  }

  /** `evaluateURL(wikidataUrl, llmUrl)`. */
  method EvaluateURL(wiki: string, llm: string, settings: UrlSettings, parse: string -> Option<ParsedUrl>) returns (r: Judgement)
    ensures r == UrlVerdict(wiki, llm, settings, parse)
  {
    if wiki == llm {
      return Exact;
    }
    var extractedUrls := ExtractURLsFromText(llm);
    if |extractedUrls| == 0 {
      return UrlResult(wiki, llm, settings, parse);
    }
    r := BestCandidate(wiki, extractedUrls, Scorer(wiki, settings, parse));
  }

  /** The loop of `evaluateURL` over the extracted URLs, with the
      comparison of one URL as `score`: the first one equal to the reference
      ends it with an exact match. */
  method BestCandidate(wiki: string, extractedUrls: seq<string>, score: string -> Judgement) returns (r: Judgement)
    ensures wiki in extractedUrls ==> r == Exact
    ensures wiki !in extractedUrls ==> r == Best(extractedUrls, score)
  {
    var bestMatch := NoMatch;
    for i := 0 to |extractedUrls|
      invariant wiki !in extractedUrls[..i]
      invariant bestMatch == Best(extractedUrls[..i], score)
    {
      assert extractedUrls[..i + 1][..i] == extractedUrls[..i];
      if wiki == extractedUrls[i] {
        return Exact;
      }
      var result := score(extractedUrls[i]);
      if result.confidence > bestMatch.confidence {
        bestMatch := result;
      }
    }
    assert extractedUrls[..|extractedUrls|] == extractedUrls;
    r := bestMatch;
  }
}
