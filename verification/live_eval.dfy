/**
 * The live evaluation pipeline of the fact checker (js/main.js): the gate on
 * missing values, extraction of a factual value from an LLM answer,
 * normalisation of the Wikidata value, and the attribute-specific comparison
 * that yields a verdict.
 */
module LiveEvaluation {
  import opened Base
  import opened JsText
  import opened LocationHierarchy

  /** The `match` mark of a verdict: '○', '△' or '×'. */
  datatype Mark = Hit | Partial | Miss

  /** A verdict record (its free-text `details` left out). */
  datatype Verdict = Verdict(score: int, status: string, mark: Mark, confidence: int)

  /** Every verdict of this evaluator marks '×' exactly when it scores 0. */
  predicate Consistent(v: Verdict) {
    (v.mark == Miss <==> v.score == 0) && (v.mark == Partial <==> v.score == 70)
  }

  // ---------------------------------------------------------------------------
  // Attribute names, English and Japanese, as the `switch` statements list them
  // ---------------------------------------------------------------------------

  predicate IsInception(a: string) { a == "inception" || a == "設立年" }
  predicate IsWebsite(a: string) { a == "website" || a == "ウェブサイト" }
  predicate IsLocation(a: string) { a == "location" || a == "所在地" || a == "headquarters" || a == "本社所在地" }
  predicate IsCountry(a: string) { a == "country" || a == "国" }
  predicate IsElevation(a: string) { a == "elevation" || a == "標高" }

  /** `String(v)`: an array converts to its items joined with ','. */
  function JsString(v: Value): string {
    match v
    case Text(t) => t
    case List(items) => Join(items, ",")
  }

  // ---------------------------------------------------------------------------
  // Years
  // ---------------------------------------------------------------------------

  /** `str.match(/(\d{4})/)` group 1 when there is one, else `str`. */
  function YearOrText(str: string): (r: string)
    ensures FirstYear(str).Some? ==> |r| == 4 && Includes(str, r)
    ensures FirstYear(str).None? ==> r == str
  {
    match FirstYear(str)
    case Some(y) => y
    case None => str
  }

  /** Reading the year of a year changes nothing. */
  lemma YearOrTextIdempotent(str: string)
    ensures YearOrText(YearOrText(str)) == YearOrText(str)
  {
    match FirstYear(str)
    case Some(y) => FirstYearOfYear(y);
    case None =>
  }

  // ---------------------------------------------------------------------------
  // URLs in an answer
  // ---------------------------------------------------------------------------

  /** End of the maximal run of non-space characters from `i` (`[^\s]+`). */
  function NonSpaceRunEnd(s: string, i: nat): (r: nat)
    requires i <= |s|
    ensures i <= r <= |s|
    decreases |s| - i
  {
    if i < |s| && !IsSpace(s[i]) then NonSpaceRunEnd(s, i + 1) else i
  }

  lemma {:induction false} NonSpaceRunEndSpec(s: string, i: nat)
    requires i <= |s|
    ensures forall k :: i <= k < NonSpaceRunEnd(s, i) ==> !IsSpace(s[k])
    ensures NonSpaceRunEnd(s, i) == |s| || IsSpace(s[NonSpaceRunEnd(s, i)])
    decreases |s| - i
  {
    if i < |s| && !IsSpace(s[i]) {
      NonSpaceRunEndSpec(s, i + 1);
    }
  }

  /** End of the maximal run of ASCII letters from `i` (`[a-z]+` under `/i`). */
  function LetterRunEnd(s: string, i: nat): (r: nat)
    requires i <= |s|
    ensures i <= r <= |s|
    decreases |s| - i
  {
    if i < |s| && IsLetter(s[i]) then LetterRunEnd(s, i + 1) else i
  }

  lemma {:induction false} LetterRunEndSpec(s: string, i: nat)
    requires i <= |s|
    ensures forall k :: i <= k < LetterRunEnd(s, i) ==> IsLetter(s[k])
    decreases |s| - i
  {
    if i < |s| && IsLetter(s[i]) {
      LetterRunEndSpec(s, i + 1);
    }
  }

  /** `\.[a-z]{2,}` at `p`. */
  predicate DomainDotAt(s: string, p: nat) {
    p + 2 < |s| && s[p] == '.' && IsLetter(s[p + 1]) && IsLetter(s[p + 2])
  }

  /** A run of letters after a position of a non-space run stays inside it. */
  lemma LetterRunWithinNonSpace(s: string, i: nat, p: nat)
    requires i <= |s| && i <= p < NonSpaceRunEnd(s, i)
    ensures LetterRunEnd(s, p + 1) <= NonSpaceRunEnd(s, i)
  {
    NonSpaceRunEndSpec(s, i);
    LetterRunEndSpec(s, p + 1);
  }

  /** The last `p` in `[lo, hi)` where `DomainDotAt` holds. */
  function LastDomainDot(s: string, lo: nat, hi: nat): (r: Option<nat>)
    ensures r.Some? ==> lo <= r.value < hi && DomainDotAt(s, r.value)
    decreases hi
  {
    if hi <= lo then None
    else if DomainDotAt(s, hi - 1) then Some(hi - 1)
    else LastDomainDot(s, lo, hi - 1)
  }

  /**
   * The end of the match of
   *   `/(https?:\/\/[^\s]+|www\.[^\s]+|[^\s]+\.[a-z]{2,})/i`
   * that starts at `i`.  The first two alternatives take the whole run of
   * non-space characters.  In the third, the greedy `[^\s]+` gives characters
   * back from the end of the run until a dot followed by two letters comes
   * next: the last such dot of the run, after the first character; the
   * letters after it are then all taken.
   */
  function UrlMatchAt(s: string, i: nat): (r: Option<nat>)
    requires i <= |s|
    ensures r.Some? ==> i < r.value <= NonSpaceRunEnd(s, i)
  {
    if i == |s| || IsSpace(s[i]) then None
    else
      var e := NonSpaceRunEnd(s, i);
      if (CaselessAt(s, i, "https://") && i + 8 < e)
        || (CaselessAt(s, i, "http://") && i + 7 < e)
        || (CaselessAt(s, i, "www.") && i + 4 < e)
      then Some(e)
      else
        match LastDomainDot(s, i + 1, e)
        case None => None
        case Some(p) =>
          LetterRunWithinNonSpace(s, i, p);
          Some(LetterRunEnd(s, p + 1))
  }

  /** The last dot `LastDomainDot` finds is the last one before `hi`. */
  lemma {:induction false} LastDomainDotSpec(s: string, lo: nat, hi: nat)
    ensures LastDomainDot(s, lo, hi).Some? ==> forall p :: LastDomainDot(s, lo, hi).value < p < hi ==> !DomainDotAt(s, p)
    ensures LastDomainDot(s, lo, hi).None? ==> forall p :: lo <= p < hi ==> !DomainDotAt(s, p)
    decreases hi
  {
    if lo < hi && !DomainDotAt(s, hi - 1) {
      LastDomainDotSpec(s, lo, hi - 1);
    }
  }

  /** No match of the URL pattern starts in `[from, to)`. */
  predicate NoUrlMatchIn(s: string, from: nat, to: nat)
    requires to <= |s| + 1
    decreases if from < to then to - from else 0
  {
    from >= to || (UrlMatchAt(s, from).None? && NoUrlMatchIn(s, from + 1, to))
  }

  /** The leftmost start at or after `from` where the URL pattern matches. */
  function FirstUrlMatch(s: string, from: nat): (r: Option<nat>)
    requires from <= |s|
    ensures r.Some? ==> from <= r.value < |s| && UrlMatchAt(s, r.value).Some?
    ensures r.Some? ==> NoUrlMatchIn(s, from, r.value)
    ensures r.None? ==> NoUrlMatchIn(s, from, |s| + 1)
    decreases |s| - from
  {
    if UrlMatchAt(s, from).Some? then Some(from)
    else if from == |s| then None
    else FirstUrlMatch(s, from + 1)
  }

  /** `text.match(urlPattern)?.[0]`. */
  function UrlMatch(text: string): (r: Option<string>)
  {
    match FirstUrlMatch(text, 0)
    case None => None
    case Some(i) => Some(text[i..UrlMatchAt(text, i).value])
  }

  /** A URL found in an answer is a non-empty stretch of it without white
      space. */
  lemma UrlMatchShape(text: string)
    ensures UrlMatch(text).Some? ==> (|UrlMatch(text).value| > 0
      && Includes(text, UrlMatch(text).value)
      && forall k :: 0 <= k < |UrlMatch(text).value| ==> !IsSpace(UrlMatch(text).value[k]))
  {
    if FirstUrlMatch(text, 0).Some? {
      var i := FirstUrlMatch(text, 0).value;
      var e := UrlMatchAt(text, i).value;
      NonSpaceRunEndSpec(text, i);
      assert OccursAt(text, text[i..e], i);
    }
  }

  /** An answer that starts with a web address followed by white space or
      nothing yields that address. */
  lemma UrlMatchLeading(text: string, n: nat)
    requires 8 < n <= |text| && text[..8] == "https://"
    requires forall k :: 0 <= k < n ==> !IsSpace(text[k])
    requires n == |text| || IsSpace(text[n])
    ensures UrlMatch(text) == Some(text[..n])
  {
    NonSpaceRunEndSpec(text, 0);
    assert NonSpaceRunEnd(text, 0) == n;
    CaselessAtItself(text, 0, "https://");
  }

  // ---------------------------------------------------------------------------
  // Elevations in an answer
  // ---------------------------------------------------------------------------

  /** The characters of `[mメートル]`. */
  predicate IsUnitChar(c: char) {
    c == 'm' || c == 'メ' || c == 'ー' || c == 'ト' || c == 'ル'
  }

  /** End of `(?:,\d+)*` from `i`, greedy. */
  function CommaGroupsEnd(s: string, i: nat): (r: nat)
    requires i <= |s|
    ensures i <= r <= |s|
    decreases |s| - i
  {
    if i + 1 < |s| && s[i] == ',' && IsDigit(s[i + 1]) then CommaGroupsEnd(s, DigitRunEnd(s, i + 1))
    else i
  }

  /** End of `(?:\.\d+)?` from `i`, greedy. */
  function DecimalEnd(s: string, i: nat): (r: nat)
    requires i <= |s|
    ensures i <= r <= |s|
  {
    if i + 1 < |s| && s[i] == '.' && IsDigit(s[i + 1]) then DigitRunEnd(s, i + 1) else i
  }

  /**
   * The end of group 1 of `/(\d+(?:,\d+)*(?:\.\d+)?)\s*[mメートル]/` for a
   * match that starts at `i`.  Every quantifier is greedy and giving back
   * never helps: each part would leave a digit, a ',' or a '.' where only
   * white space or a unit character can follow.
   */
  function ElevationAt(s: string, i: nat): (r: Option<nat>)
    requires i <= |s|
    ensures r.Some? ==> i < r.value <= |s|
  {
    if i < |s| && IsDigit(s[i]) then
      var n := DecimalEnd(s, CommaGroupsEnd(s, DigitRunEnd(s, i)));
      var k := SpaceRunEnd(s, n);
      if k < |s| && IsUnitChar(s[k]) then Some(n) else None
    else None
  }

  /** No match of the elevation pattern starts in `[from, to)`. */
  predicate NoElevationIn(s: string, from: nat, to: nat)
    requires to <= |s| + 1
    decreases if from < to then to - from else 0
  {
    from >= to || (ElevationAt(s, from).None? && NoElevationIn(s, from + 1, to))
  }

  /** The leftmost start at or after `from` where the elevation pattern matches. */
  function FirstElevation(s: string, from: nat): (r: Option<nat>)
    requires from <= |s|
    ensures r.Some? ==> from <= r.value < |s| && ElevationAt(s, r.value).Some?
    ensures r.Some? ==> NoElevationIn(s, from, r.value)
    ensures r.None? ==> NoElevationIn(s, from, |s| + 1)
    decreases |s| - from
  {
    if ElevationAt(s, from).Some? then Some(from)
    else if from == |s| then None
    else FirstElevation(s, from + 1)
  }

  /** The first position of an ASCII digit at or after `from`, or |s|. */
  function FirstDigit(s: string, from: nat): (r: nat)
    requires from <= |s|
    ensures from <= r <= |s|
    ensures r < |s| ==> IsDigit(s[r])
    ensures forall k :: from <= k < r ==> !IsDigit(s[k])
    decreases |s| - from
  {
    if from == |s| || IsDigit(s[from]) then from else FirstDigit(s, from + 1)
  }

  /** `text.match(/\d+/)?.[0]`. */
  function FirstDigitRun(text: string): (r: Option<string>)
    ensures r.Some? ==> |r.value| > 0 && forall k :: 0 <= k < |r.value| ==> IsDigit(r.value[k])
    ensures r.None? <==> forall k :: 0 <= k < |text| ==> !IsDigit(text[k])
  {
    var d := FirstDigit(text, 0);
    if d == |text| then None else Some(text[d..DigitRunEnd(text, d)])
  }

  /** The number of an elevation answer: group 1 of the elevation pattern
      without its commas, else the first run of digits, else the text. */
  function ElevationNumber(text: string): (r: string)
  {
    match FirstElevation(text, 0)
    case Some(i) => RemoveChars(text[i..ElevationAt(text, i).value], {','})
    case None =>
      match FirstDigitRun(text)
      case Some(d) => d
      case None => text
  }

  /** Group 1 of the elevation pattern holds digits, commas and dots only. */
  lemma {:induction false} ElevationGroupChars(s: string, i: nat)
    requires i <= |s| && ElevationAt(s, i).Some?
    ensures forall k :: i <= k < ElevationAt(s, i).value ==> IsDigit(s[k]) || s[k] == ',' || s[k] == '.'
  {
    var m := DigitRunEnd(s, i);
    CommaGroupsChars(s, m);
    var c := CommaGroupsEnd(s, m);
    if c + 1 < |s| && s[c] == '.' && IsDigit(s[c + 1]) {
      var d := DigitRunEnd(s, c + 1);
      assert forall k :: c + 1 <= k < d ==> IsDigit(s[k]);
    }
  }

  lemma {:induction false} CommaGroupsChars(s: string, i: nat)
    requires i <= |s|
    ensures forall k :: i <= k < CommaGroupsEnd(s, i) ==> IsDigit(s[k]) || s[k] == ','
    decreases |s| - i
  {
    if i + 1 < |s| && s[i] == ',' && IsDigit(s[i + 1]) {
      CommaGroupsChars(s, DigitRunEnd(s, i + 1));
    }
  }

  /** When the answer has a digit, the number read from it is made of digits
      and dots only, so `parseFloat` reads it as a non-negative number. */
  lemma ElevationNumberDigits(text: string)
    requires exists k :: 0 <= k < |text| && IsDigit(text[k])
    ensures DigitsOrDots(ElevationNumber(text))
  {
    match FirstElevation(text, 0)
    case Some(i) =>
      ElevationGroupDigits(text, i);
    case None =>
      var k :| 0 <= k < |text| && IsDigit(text[k]);
      assert FirstDigitRun(text).Some?;
  }

  /** Group 1 of the elevation pattern without its commas is digits and dots. */
  lemma ElevationGroupDigits(text: string, i: nat)
    requires i <= |text| && ElevationAt(text, i).Some?
    ensures DigitsOrDots(RemoveChars(text[i..ElevationAt(text, i).value], {','}))
  {
    var e := ElevationAt(text, i).value;
    ElevationGroupChars(text, i);
    var g := text[i..e];
    assert forall k :: 0 <= k < |g| ==> IsDigit(g[k]) || g[k] == ',' || g[k] == '.';
    var r := RemoveChars(g, {','});
    forall k | 0 <= k < |r|
      ensures IsDigit(r[k]) || r[k] == '.'
    {
      assert r[k] in g;
    }
  }

  /** An elevation with a metre sign right after its digits is read as those
      digits. */
  lemma ElevationOfMetres(d: string)
    requires |d| > 0 && forall k :: 0 <= k < |d| ==> IsDigit(d[k])
    ensures ElevationNumber(d + "m") == d
  {
    var s := d + "m";
    assert s[|d|] == 'm';
    assert forall k :: 0 <= k < |d| ==> s[k] == d[k];
    DigitRunEndAt(s, 0, |d|);
    assert ElevationAt(s, 0) == Some(|d|);
    assert s[0..|d|] == d;
    RemoveNoChars(d, {','});
  }

  /** The digit run from `i` ends at `m` when digits fill `[i, m)` and none
      follows. */
  lemma {:induction false} DigitRunEndAt(s: string, i: nat, m: nat)
    requires i <= m <= |s|
    requires forall k :: i <= k < m ==> IsDigit(s[k])
    requires m == |s| || !IsDigit(s[m])
    ensures DigitRunEnd(s, i) == m
    decreases m - i
  {
    if i < m {
      DigitRunEndAt(s, i + 1, m);
    }
  }

  // ---------------------------------------------------------------------------
  // Website strings
  // ---------------------------------------------------------------------------

  /** `s.replace(/^https?:\/\//, '')`. */
  function StripProtocol(s: string): (r: string)
    ensures StartsWith(s, "https://") ==> r == s[8..]
    ensures !StartsWith(s, "https://") && StartsWith(s, "http://") ==> r == s[7..]
    ensures !StartsWith(s, "https://") && !StartsWith(s, "http://") ==> r == s
  {
    if StartsWith(s, "https://") then s[8..]
    else if StartsWith(s, "http://") then s[7..]
    else s
  }

  /** `s.replace(/^www\./, '')`. */
  function StripWww(s: string): (r: string)
    ensures StartsWith(s, "www.") ==> r == s[4..]
    ensures !StartsWith(s, "www.") ==> r == s
  {
    if StartsWith(s, "www.") then s[4..] else s
  }

  /** `s.replace(/\/$/, '')`. */
  function StripTrailingSlash(s: string): (r: string)
    ensures EndsWith(s, "/") ==> r == s[..|s| - 1]
    ensures !EndsWith(s, "/") ==> r == s
  {
    if EndsWith(s, "/") then s[..|s| - 1] else s
  }

  /** The host part `compareDomains` compares: the protocol and `www.` removed,
      then everything from the first '/' on. */
  function DomainOf(s: string): (r: string)
    ensures '/' !in r
    ensures StartsWith(StripWww(StripProtocol(s)), r)
    ensures |r| < |StripWww(StripProtocol(s))| ==> StripWww(StripProtocol(s))[|r|] == '/'
  {
    var rest := StripWww(StripProtocol(s));
    var parts := SplitOn(rest, {'/'});
    SplitOnFirst(rest, {'/'});
    parts[0]
  }

  /** The first part of a split is the text up to its first separator. */
  lemma SplitOnFirst(s: string, cs: set<char>)
    ensures SplitOn(s, cs)[0] == s[..NextIn(s, cs, 0)]
    ensures StartsWith(s, SplitOn(s, cs)[0])
  {
    var i := NextIn(s, cs, 0);
    if i < |s| {
      assert SplitOn(s, cs)[0] == s[..i];
    } else {
      assert s[..i] == s;
    }
  }

  /** `compareDomains(wiki, llm)`. */
  function SameDomain(wiki: string, llm: string): (r: bool)
    ensures StripWww(StripProtocol(wiki)) == StripWww(StripProtocol(llm)) ==> r
  {
    DomainOf(wiki) == DomainOf(llm)
  }

  /** The domain of a web address is its host. */
  lemma DomainOfUrl(host: string, path: string)
    requires '/' !in host
    ensures DomainOf("https://www." + host + "/" + path) == host
  {
    var u := "https://www." + host + "/" + path;
    assert StartsWith(u, "https://");
    assert u[8..] == "www." + host + "/" + path;
    assert StartsWith(u[8..], "www.");
    var rest := u[8..][4..];
    assert rest == host + "/" + path;
    assert rest[|host|] == '/';
  }

  /** The protocol, `www.` and the path do not change the domain. */
  lemma DomainIgnoresProtocolAndPath(host: string, path: string)
    requires '/' !in host && !StartsWith(host, "www.")
    requires !StartsWith(host, "http://") && !StartsWith(host, "https://")
    ensures SameDomain("https://www." + host + "/" + path, host)
  {
    DomainOfUrl(host, path);
  }

  /** Two web addresses have the same domain exactly when their hosts are
      equal, whatever their paths. */
  lemma SameDomainOfUrls(host1: string, path1: string, host2: string, path2: string)
    requires '/' !in host1 && '/' !in host2
    ensures SameDomain("https://www." + host1 + "/" + path1, "https://www." + host2 + "/" + path2)
      <==> host1 == host2
  {
    DomainOfUrl(host1, path1);
    DomainOfUrl(host2, path2);
  }

  /** Only one leading `www.` is removed. */
  lemma DomainKeepsSecondWww(host: string)
    requires '/' !in host
    ensures DomainOf("www.www." + host) == "www." + host
  {
    var s := "www.www." + host;
    assert s[0] == 'w';
    assert !StartsWith(s, "https://") by {
      assert s[..8][0] != "https://"[0];
    }
    assert !StartsWith(s, "http://") by {
      assert s[..7][0] != "http://"[0];
    }
    assert StartsWith(s, "www.");
    assert s[4..] == "www." + host;
  }

  // ---------------------------------------------------------------------------
  // extractFactualValue and normalizeValue
  // ---------------------------------------------------------------------------

  /** The first clause of an answer: `text.split(/[、。]/)[0].trim()`. */
  function FirstClause(text: string): (r: string)
    ensures Trimmed(r)
    ensures forall k :: 0 <= k < |r| ==> r[k] != '、' && r[k] != '。'
    ensures r == Trim(text[..NextIn(text, {'、', '。'}, 0)])
  {
    var parts := SplitOn(text, {'、', '。'});
    SplitOnFirst(text, {'、', '。'});
    var first := parts[0];
    assert first in parts;
    assert forall k :: 0 <= k < |first| ==> first[k] != '、' && first[k] != '。';
    TrimKeepsCharacters(first);
    Trim(first)
  }

  /** An attribute none of the `switch` cases names. */
  predicate IsOther(a: string) {
    !IsInception(a) && !IsWebsite(a) && !IsLocation(a) && !IsCountry(a) && !IsElevation(a)
  }

  /**
   * `extractFactualValue(llmResponse, attribute)` on the trimmed answer: the
   * year for an inception, a stretch of the answer for a website, the
   * hierarchy for a location or a country, digits and dots for an elevation
   * with a digit, and the first clause otherwise.
   */
  function ExtractFactualValue(llm: string, attribute: string): (r: Value)
    ensures (IsLocation(attribute) || IsCountry(attribute)) <==> r.List?
  {
    if IsInception(attribute) then Text(YearOrText(Trim(llm)))
    else if IsWebsite(attribute) then Text(UrlOrText(Trim(llm)))
    else if IsLocation(attribute) || IsCountry(attribute) then List(ParseLocationCommaFormat(Trim(llm)))
    else if IsElevation(attribute) then Text(ElevationNumber(Trim(llm)))
    else Text(FirstClause(Trim(llm)))
  }

  /** A website answer extracts a piece of the trimmed answer. */
  lemma ExtractWebsite(s: string, a: string)
    requires IsWebsite(a)
    ensures ExtractFactualValue(s, a).Text?
    ensures Includes(Trim(s), JsString(ExtractFactualValue(s, a)))
  {
    UrlOrTextIncluded(Trim(s));
  }

  /** A country answer is read as a hierarchy, like a location. */
  lemma ExtractCountry(s: string, a: string)
    requires IsCountry(a)
    ensures ExtractFactualValue(s, a) == List(ParseLocationCommaFormat(Trim(s)))
  {
    assert !IsInception(a) && !IsWebsite(a);
  }

  /** An elevation answer with a digit extracts digits and dots; one without
      a digit extracts the trimmed answer itself. */
  lemma ExtractElevation(s: string, a: string)
    requires IsElevation(a)
    ensures ExtractFactualValue(s, a).Text?
    ensures FirstDigitRun(Trim(s)).Some? ==> DigitsOrDots(JsString(ExtractFactualValue(s, a)))
    ensures FirstDigitRun(Trim(s)).None? ==> ExtractFactualValue(s, a) == Text(Trim(s))
  {
    assert !IsInception(a) && !IsWebsite(a) && !IsLocation(a) && !IsCountry(a);
    assert ExtractFactualValue(s, a) == Text(ElevationNumber(Trim(s)));
    ElevationNumberOf(Trim(s));
  }

  /** Any other attribute extracts the trimmed text before the first '、' or
      '。' of the trimmed answer. */
  lemma ExtractOther(s: string, a: string)
    requires IsOther(a)
    ensures ExtractFactualValue(s, a) == Text(Trim(Trim(s)[..NextIn(Trim(s), {'、', '。'}, 0)]))
  {
  }

  /** The web address read from a text, or the text itself, is a piece of it. */
  lemma UrlOrTextIncluded(text: string)
    ensures Includes(text, UrlOrText(text))
  {
    UrlMatchShape(text);
    if UrlMatch(text).None? {
      assert OccursAt(text, text, 0);
    }
  }

  /** The number read for an elevation: digits and dots when the text has a
      digit, and the text itself when it has none. */
  lemma ElevationNumberOf(text: string)
    ensures FirstDigitRun(text).Some? ==> DigitsOrDots(ElevationNumber(text))
    ensures FirstDigitRun(text).None? ==> ElevationNumber(text) == text
  {
    if FirstElevation(text, 0).Some? {
      var i := FirstElevation(text, 0).value;
      assert IsDigit(text[i]);
    }
    if FirstDigitRun(text).Some? {
      var d := FirstDigit(text, 0);
      assert IsDigit(text[d]);
      ElevationNumberDigits(text);
    }
  }

  /** `urlMatch ? urlMatch[0] : text`. */
  function UrlOrText(text: string): (r: string)
    ensures UrlMatch(text).None? ==> r == text
    ensures UrlMatch(text).Some? ==> r == UrlMatch(text).value
  {
    match UrlMatch(text)
    case Some(u) => u
    case None => text
  }

  /** `c` is kept by `str.replace(/[^\d.]/g, '')`. */
  predicate IsDigitOrDot(c: char) { IsDigit(c) || c == '.' }

  /**
   * `normalizeValue(value, attribute)` on the trimmed value: the year for an
   * inception, the address without protocol, `www.` and final '/' for a
   * website, the hierarchy for a location, digits and dots for an elevation
   * with a digit, and the lower-cased value otherwise (a country included).
   */
  function NormalizeValue(value: string, attribute: string): (r: Value)
    ensures IsLocation(attribute) <==> r.List?
  {
    if IsInception(attribute) then Text(YearOrText(Trim(value)))
    else if IsWebsite(attribute) then Text(StripTrailingSlash(StripWww(StripProtocol(Trim(value)))))
    else if IsLocation(attribute) then List(ParseLocationCommaFormat(Trim(value)))
    else if IsElevation(attribute) then Text(DigitsOrText(Trim(value)))
    else Text(LowerTrim(Trim(value)))
  }

  /** A website value normalises to a piece of the trimmed value. */
  lemma NormalizeWebsiteIncluded(s: string, a: string)
    requires IsWebsite(a)
    ensures NormalizeValue(s, a).Text?
    ensures Includes(Trim(s), JsString(NormalizeValue(s, a)))
  {
    WebsiteKeyIncluded(Trim(s));
  }

  /** An elevation value with a digit normalises to digits and dots. */
  lemma NormalizeElevation(s: string, a: string)
    requires IsElevation(a)
    requires exists k :: 0 <= k < |Trim(s)| && IsDigit(Trim(s)[k])
    ensures DigitsOrDots(JsString(NormalizeValue(s, a)))
  {
  }

  /** Any other attribute, a country included, normalises to the lower-cased
      trimmed value. */
  lemma NormalizeOther(s: string, a: string)
    requires IsOther(a) || IsCountry(a)
    ensures NormalizeValue(s, a) == Text(ToLower(Trim(s)))
  {
    OtherKind(a);
    LowerTrimOfTrimmed(s);
  }

  /** Neither another attribute nor a country is named by the earlier cases
      of `normalizeValue`. */
  lemma OtherKind(a: string)
    requires IsOther(a) || IsCountry(a)
    ensures !IsInception(a) && !IsWebsite(a) && !IsLocation(a) && !IsElevation(a)
  {
  }

  lemma LowerTrimOfTrimmed(s: string)
    ensures LowerTrim(Trim(s)) == ToLower(Trim(s))
  {
    TrimToLowerCommute(Trim(s));
    TrimIdempotent(s);
  }

  /** Stripping the protocol, `www.` and a final '/' keeps a piece of the
      address. */
  lemma WebsiteKeyIncluded(s: string)
    ensures Includes(s, StripTrailingSlash(StripWww(StripProtocol(s))))
  {
    var p := StripProtocol(s);
    var w := StripWww(p);
    StripProtocolIncluded(s);
    StripWwwIncluded(p);
    StripTrailingSlashIncluded(w);
    IncludesTransitive(s, p, w);
    IncludesTransitive(s, w, StripTrailingSlash(w));
  }

  lemma StripProtocolIncluded(s: string)
    ensures Includes(s, StripProtocol(s))
  {
    if StartsWith(s, "https://") {
      SuffixIncluded(s, 8);
    } else if StartsWith(s, "http://") {
      SuffixIncluded(s, 7);
    } else {
      IncludesSelf(s);
    }
  }

  lemma StripWwwIncluded(s: string)
    ensures Includes(s, StripWww(s))
  {
    if StartsWith(s, "www.") {
      SuffixIncluded(s, 4);
    } else {
      IncludesSelf(s);
    }
  }

  lemma StripTrailingSlashIncluded(s: string)
    ensures Includes(s, StripTrailingSlash(s))
  {
    if EndsWith(s, "/") {
      PrefixIncluded(s, |s| - 1);
    } else {
      IncludesSelf(s);
    }
  }

  lemma SuffixIncluded(s: string, n: nat)
    requires n <= |s|
    ensures Includes(s, s[n..])
  {
    assert OccursAt(s, s[n..], n);
  }

  lemma PrefixIncluded(s: string, n: nat)
    requires n <= |s|
    ensures Includes(s, s[..n])
  {
    assert OccursAt(s, s[..n], 0);
  }

  /** Normalising a web address keeps its host: protocol, `www.` and the final
      '/' go. */
  lemma NormalizeWebsiteHost(host: string, a: string)
    requires IsWebsite(a)
    ensures NormalizeValue("https://www." + host + "/", a) == Text(host)
  {
    var u := "https://www." + host + "/";
    assert Trimmed(u) by {
      assert u[0] == 'h' && u[|u| - 1] == '/';
    }
    TrimOfTrimmed(u);
    WebsiteKeyOfUrl(host);
  }

  lemma WebsiteKeyOfUrl(host: string)
    ensures StripTrailingSlash(StripWww(StripProtocol("https://www." + host + "/"))) == host
  {
    assert StripProtocol("https://www." + host + "/") == "www." + host + "/";
    assert StripWww("www." + host + "/") == host + "/";
    assert StripTrailingSlash(host + "/") == host;
  }

  /** The default normalisation is stable: normalising its result again
      changes nothing. */
  lemma NormalizeOtherStable(value: string, a: string)
    requires IsOther(a)
    ensures NormalizeValue(JsString(NormalizeValue(value, a)), a) == NormalizeValue(value, a)
  {
    NormalizeOther(value, a);
    NormalizeOther(ToLower(Trim(value)), a);
    TrimToLowerCommute(Trim(value));
    TrimIdempotent(value);
    ToLowerIdempotent(Trim(value));
  }

  /** `str.replace(/[^\d.]/g, '') || str`. */
  function DigitsOrText(str: string): (r: string)
    ensures (exists k :: 0 <= k < |str| && IsDigit(str[k])) ==> DigitsOrDots(r)
  {
    var num := Keep(str, IsDigitOrDot);
    if num != "" then num
    else
      assert forall k :: 0 <= k < |str| ==> !IsDigit(str[k]) by {
        if exists k :: 0 <= k < |str| && IsDigit(str[k]) {
          var k :| 0 <= k < |str| && IsDigit(str[k]);
          KeepKeepsDigit(str, k);
        }
      }
      str
  }

  /** For the year, extraction and normalisation are the same, and doing
      either twice is the same as doing it once. */
  lemma InceptionIdempotent(s: string, a: string)
    requires IsInception(a)
    ensures ExtractFactualValue(s, a) == NormalizeValue(s, a)
    ensures ExtractFactualValue(JsString(ExtractFactualValue(s, a)), a) == ExtractFactualValue(s, a)
    ensures NormalizeValue(JsString(NormalizeValue(s, a)), a) == NormalizeValue(s, a)
  {
    var y := YearOrText(Trim(s));
    ExtractYear(s, a);
    NormalizeYear(s, a);
    ExtractYear(y, a);
    NormalizeYear(y, a);
    YearTextStable(s);
  }

  /** The extracted year (or trimmed text) is a fixed point of the extraction. */
  lemma YearTextStable(s: string)
    ensures YearOrText(Trim(YearOrText(Trim(s)))) == YearOrText(Trim(s))
  {
    YearOfTrimmed(Trim(s));
  }

  /** The year read from a trimmed text, or the text itself, is trimmed. */
  lemma YearOfTrimmed(t: string)
    requires Trimmed(t)
    ensures Trim(YearOrText(t)) == YearOrText(t)
    ensures YearOrText(YearOrText(t)) == YearOrText(t)
  {
    YearOrTextIdempotent(t);
    var y := YearOrText(t);
    if FirstYear(t).Some? {
      assert IsDigit(y[0]) && IsDigit(y[3]);
    }
    assert Trimmed(y);
    TrimOfTrimmed(y);
  }

  lemma ExtractYear(s: string, a: string)
    requires IsInception(a)
    ensures ExtractFactualValue(s, a) == Text(YearOrText(Trim(s)))
  {
  }

  lemma NormalizeYear(s: string, a: string)
    requires IsInception(a)
    ensures NormalizeValue(s, a) == Text(YearOrText(Trim(s)))
  {
  }

  /** A digit of the text survives `Keep(_, IsDigitOrDot)`. */
  lemma {:induction false} KeepKeepsDigit(s: string, k: nat)
    requires k < |s| && IsDigit(s[k])
    ensures Keep(s, IsDigitOrDot) != ""
  {
    if !IsDigitOrDot(s[0]) {
      KeepKeepsDigit(s[1..], k - 1);
    }
  }

  // ---------------------------------------------------------------------------
  // compareByAttribute and evaluateAnswers
  // ---------------------------------------------------------------------------

  const ExactVerdict := Verdict(100, "完全一致", Hit, 100)
  const PartialVerdict := Verdict(70, "部分一致", Partial, 70)
  const MismatchVerdict := Verdict(0, "不一致", Miss, 0)

  /** The elevation test: both keys are numbers and differ by under 5% of the
      reference (`Math.abs(w - l) / w < 0.05` in JavaScript arithmetic). */
  predicate ElevationClose(wikiNorm: string, llmNorm: string) {
    var w := ParseFloat(wikiNorm);
    var l := ParseFloat(llmNorm);
    w.Some? && l.Some? && RatioBelow(Abs(w.value - l.value), w.value, 0.05)
  }

  /** Substring containment either way, the fallback of every attribute. */
  predicate EitherIncludes(a: string, b: string) {
    Includes(a, b) || Includes(b, a)
  }

  /** The verdict for a location: the result of `compareLocations`, marked
      '○' when it matches and '×' otherwise. */
  function LocationVerdict(res: LocationResult): (r: Verdict)
    ensures r.mark == (if res.isMatch then Hit else Miss)
    ensures r.score == (if res.isMatch then res.score else 0)
  {
    if res.isMatch then Verdict(res.score, res.status, Hit, res.confidence)
    else Verdict(0, if res.status != "" then res.status else "位置情報不一致", Miss, 0)
  }

  /** The comparison key of a compared value: `String(v).toLowerCase().trim()`. */
  function Key(v: Value): string {
    LowerTrim(JsString(v))
  }

  /** The numeric test of the elevation and the substring fallback shared by
      every attribute but the location. */
  function FallbackVerdict(wikiNorm: string, llmNorm: string, attribute: string): (r: Verdict)
    ensures Consistent(r) && r.score in {95, 70, 0}
    ensures r.score == 95 <==> IsElevation(attribute) && ElevationClose(wikiNorm, llmNorm)
    ensures r.score == 0 ==> !EitherIncludes(wikiNorm, llmNorm)
  {
    if IsElevation(attribute) && ElevationClose(wikiNorm, llmNorm) then Verdict(95, "数値一致", Hit, 95)
    else if EitherIncludes(wikiNorm, llmNorm) then PartialVerdict
    else MismatchVerdict
  }

  /** The website domain test and then the fallback, for the attributes other
      than the location. */
  function NonLocationVerdict(wikiNorm: string, llmNorm: string, attribute: string): (r: Verdict)
    ensures Consistent(r)
    ensures IsWebsite(attribute) && SameDomain(wikiNorm, llmNorm) ==> r.score == 90
    ensures r.score == 0 ==> !EitherIncludes(wikiNorm, llmNorm)
  {
    if IsWebsite(attribute) && SameDomain(wikiNorm, llmNorm) then Verdict(90, "ドメイン一致", Hit, 90)
    else FallbackVerdict(wikiNorm, llmNorm, attribute)
  }

  /** The location branch: equal keys, or else the location comparison. */
  function LocationAttributeVerdict(wiki: Value, llm: Value): (r: Verdict)
    ensures Key(wiki) == Key(llm) ==> r == ExactVerdict
    ensures Consistent(r)
    ensures Key(wiki) != Key(llm) ==> r.score == CompareLocations(wiki, llm).score
  {
    if Key(wiki) == Key(llm) then ExactVerdict
    else LocationVerdict(CompareLocations(wiki, llm))
  }

  /** Every other attribute: equal keys, or else the attribute's own test and
      the substring fallback. */
  function KeyVerdict(wikiNorm: string, llmNorm: string, attribute: string): (r: Verdict)
    ensures wikiNorm == llmNorm ==> r == ExactVerdict
    ensures Consistent(r)
  {
    if wikiNorm == llmNorm then ExactVerdict
    else NonLocationVerdict(wikiNorm, llmNorm, attribute)
  }

  /**
   * `compareByAttribute(wikidataValue, llmValue, attribute)`: equal keys give
   * 100; then the attribute's own test; then substring containment of the
   * keys (70); else 0.  A location attribute always ends with the location
   * comparison.
   */
  function CompareByAttribute(wiki: Value, llm: Value, attribute: string): (r: Verdict)
    ensures Key(wiki) == Key(llm) ==> r == ExactVerdict
    ensures Consistent(r)
  {
    if IsLocation(attribute) then LocationAttributeVerdict(wiki, llm)
    else KeyVerdict(Key(wiki), Key(llm), attribute)
  }

  /** For a location the verdict scores what `compareLocations` scores. */
  lemma LocationVerdictScore(wiki: Value, llm: Value, attribute: string)
    requires IsLocation(attribute) && Key(wiki) != Key(llm)
    ensures CompareByAttribute(wiki, llm, attribute).score == CompareLocations(wiki, llm).score
  {
  }

  /** Outside the location, keys that contain one another always score. */
  lemma ContainedKeysScore(wiki: Value, llm: Value, attribute: string)
    requires !IsLocation(attribute) && EitherIncludes(Key(wiki), Key(llm))
    ensures CompareByAttribute(wiki, llm, attribute).score >= 70
  {
  }

  /** Website values with the same domain score at least 90. */
  lemma SameDomainScore(wiki: Value, llm: Value, attribute: string)
    requires IsWebsite(attribute) && SameDomain(Key(wiki), Key(llm))
    ensures CompareByAttribute(wiki, llm, attribute).score >= 90
  {
  }

  /** Apart from the elevation, the comparison does not depend on which side
      is the reference. */
  lemma CompareByAttributeSymmetric(wiki: Value, llm: Value, attribute: string)
    requires !IsElevation(attribute)
    ensures CompareByAttribute(wiki, llm, attribute) == CompareByAttribute(llm, wiki, attribute)
  {
    if IsLocation(attribute) {
      CompareLocationsSymmetric(wiki, llm);
    } else {
      KeyVerdictSymmetric(Key(wiki), Key(llm), attribute);
    }
  }

  lemma KeyVerdictSymmetric(wikiNorm: string, llmNorm: string, attribute: string)
    requires !IsElevation(attribute)
    ensures KeyVerdict(wikiNorm, llmNorm, attribute) == KeyVerdict(llmNorm, wikiNorm, attribute)
  {
  }

  /** The elevation test measures the difference against the reference value,
      so swapping the sides can change the verdict. */
  lemma ElevationAsymmetric()
    ensures ElevationClose("100", "95.2")
    ensures !ElevationClose("95.2", "100")
  {
    ParseHundred();
    ParseNinetyFive();
  }

  lemma ParseHundred()
    ensures ParseFloat("100") == Some(100.0)
  {
    ParseFloatDigitStart("100");
    UnsignedHundred();
  }

  lemma UnsignedHundred()
    ensures UnsignedAt("100", 0) == Some(100.0)
  {
    var s := "100";
    DigitRunEndAt(s, 0, 3);
    DigitRunEndAt(s, 3, 3);
    assert s[0..3] == "100" && s[3..3] == "";
    assert Fraction("100", "") == 100.0 by {
      assert DigitsValue("1") == 1;
      assert DigitsValue("10") == 10 by { assert "10"[..1] == "1"; }
      assert DigitsValue("100") == 100 by { assert "100"[..2] == "10"; }
      assert "100" + "" == "100";
    }
  }

  lemma ParseNinetyFive()
    ensures ParseFloat("95.2") == Some(95.2)
  {
    ParseFloatDigitStart("95.2");
    UnsignedNinetyFive();
  }

  /** Text that starts with a digit is read from its first character. */
  lemma ParseFloatDigitStart(s: string)
    requires |s| > 0 && IsDigit(s[0])
    ensures ParseFloat(s) == UnsignedAt(s, 0)
  {
    assert !IsSpace(s[0]);
    assert TrimLeft(s) == s;
    assert s[0] != '-' && s[0] != '+';
    match UnsignedAt(s, 0)
    case None =>
    case Some(v) =>
  }

  lemma UnsignedNinetyFive()
    ensures UnsignedAt("95.2", 0) == Some(95.2)
  {
    var s := "95.2";
    DigitRunEndAt(s, 0, 2);
    DigitRunEndAt(s, 3, 4);
    assert s[0..2] == "95" && s[3..4] == "2";
    assert Fraction("95", "2") == 95.2 by {
      assert DigitsValue("9") == 9;
      assert DigitsValue("95") == 95 by { assert "95"[..1] == "9"; }
      assert DigitsValue("952") == 952 by { assert "952"[..2] == "95"; }
      assert "95" + "2" == "952";
    }
  }

  /** No answer: falsy, or only white space. */
  predicate Blank(v: Option<string>) {
    v.None? || Trim(v.value) == ""
  }

  /**
   * `evaluateAnswers(wikidataValue, llmValue, attribute)`: the missing-value
   * gate, then the comparison of the normalised reference with the value
   * extracted from the answer.
   */
  function EvaluateAnswers(wiki: Option<string>, llm: Option<string>, attribute: string): (r: Verdict)
    ensures Consistent(r)
    ensures Falsy(wiki) && Falsy(llm) ==> r == Verdict(0, "データなし", Miss, 0)
    ensures Falsy(wiki) && !Falsy(llm) ==> r == Verdict(0, "Wikidata不明", Miss, 0)
    ensures !Falsy(wiki) && Blank(llm) ==> r == Verdict(0, "LLM無回答", Miss, 0)
    ensures !Falsy(wiki) && !Blank(llm) ==>
      r == CompareByAttribute(NormalizeValue(wiki.value, attribute), ExtractFactualValue(llm.value, attribute), attribute)
  {
    if Falsy(wiki) && Falsy(llm) then Verdict(0, "データなし", Miss, 0)
    else if Falsy(wiki) then Verdict(0, "Wikidata不明", Miss, 0)
    else if Blank(llm) then Verdict(0, "LLM無回答", Miss, 0)
    else CompareByAttribute(NormalizeValue(wiki.value, attribute), ExtractFactualValue(llm.value, attribute), attribute)
  }

  /** An empty string is blank, so the gate order matters only for the status. */
  lemma FalsyIsBlank(v: Option<string>)
    ensures Falsy(v) ==> Blank(v)
  {
  }

  /** The same year answer as the reference scores 100. */
  lemma EvaluateSameYear(s: string, a: string)
    requires IsInception(a) && Trim(s) != ""
    ensures EvaluateAnswers(Some(s), Some(s), a) == ExactVerdict
  {
    InceptionIdempotent(s, a);
  }

  /** The same location answer as the reference scores 100. */
  lemma EvaluateSameLocation(s: string, a: string)
    requires IsLocation(a) && Trim(s) != ""
    ensures EvaluateAnswers(Some(s), Some(s), a) == ExactVerdict
  {
    ExtractLocation(s, a);
    NormalizeLocation(s, a);
  }

  lemma ExtractLocation(s: string, a: string)
    requires IsLocation(a)
    ensures ExtractFactualValue(s, a) == List(ParseLocationCommaFormat(Trim(s)))
  {
    LocationKind(a);
  }

  lemma NormalizeLocation(s: string, a: string)
    requires IsLocation(a)
    ensures NormalizeValue(s, a) == List(ParseLocationCommaFormat(Trim(s)))
  {
    LocationKind(a);
  }

  /** A location attribute is neither the founding year nor the website. */
  lemma LocationKind(a: string)
    requires IsLocation(a)
    ensures !IsInception(a) && !IsWebsite(a)
  {
  }
}
