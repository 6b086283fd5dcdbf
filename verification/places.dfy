/**
 * Places in the older evaluator (js/main.js): extraction of place names
 * from a text, the place-to-place match, the scored `evaluateLocation`,
 * and the assembly of a "prefecture,city" name from a resolved location
 * hierarchy.
 */
module Places {
  import opened Base
  import opened JsText
  import opened Scanning
  import opened TextMatching

  // ---------------------------------------------------------------------------
  // extractPlaceNames
  // ---------------------------------------------------------------------------

  /** `([一-龯]{2,4}[都道府県])`. */
  const PrefecturePattern := Run(Kanji, 2, 4, OneOf("都道府県"), true)
  /** `([一-龯]{2,6}[市区町村])`. */
  const MunicipalityPattern := Run(Kanji, 2, 6, OneOf("市区町村"), true)
  /** `([一-龯ひらがなカタカナ]{2,8}キャンパス)`. */
  const CampusPattern := Run(NameChar, 2, 8, Word("キャンパス"), true)
  /** `([一-龯ひらがなカタカナ]{3,10}大学)`. */
  const UniversityPattern := Run(NameChar, 3, 10, Word("大学"), true)
  /** `([一-龯]{2,8}[地区エリア])`. */
  const AreaPattern := Run(Kanji, 2, 8, OneOf("地区エリア"), true)

  const PlacePatterns := [PrefecturePattern, MunicipalityPattern, CampusPattern, UniversityPattern, AreaPattern]

  /** The place names looked for literally. */
  const CommonPlaces := ["寝屋川", "四条畷", "枚方", "大阪", "東京", "京都", "神戸", "横浜"]

  /** `places` after the loop over the literal names `ps`: each one the text
      contains is added. */
  function AddCommon(places: seq<string>, text: string, ps: seq<string>): seq<string>
    decreases |ps|
  {
    if ps == [] then places
    else if Includes(text, ps[|ps| - 1]) then SetAdd(AddCommon(places, text, ps[..|ps| - 1]), ps[|ps| - 1])
    else AddCommon(places, text, ps[..|ps| - 1])
  }

  /** What `extractPlaceNames(text)` returns. */
  function PlaceNamesOf(text: string): seq<string> {
    if text == "" then []
    else AddCommon(CapturesOfAll(text, PlacePatterns), text, CommonPlaces)
  }

  /** `extractPlaceNames(text)`: the five patterns, then the literal names,
      into one insertion-ordered set. */
  method ExtractPlaceNames(text: string) returns (places: seq<string>)
    ensures places == PlaceNamesOf(text)
  {
    places := [];
    if text == "" {
      return;
    }
    places := CollectAll(text, PlacePatterns);
    places := AddCommonPlaces(places, text);
  }

  /** The loop over the literal place names. */
  method AddCommonPlaces(found: seq<string>, text: string) returns (places: seq<string>)
    ensures places == AddCommon(found, text, CommonPlaces)
  {
    places := found;
    for i := 0 to |CommonPlaces|
      invariant places == AddCommon(found, text, CommonPlaces[..i])
    {
      assert CommonPlaces[..i + 1][..i] == CommonPlaces[..i];
      if Includes(text, CommonPlaces[i]) {
        places := SetAdd(places, CommonPlaces[i]);
      }
    }
    assert CommonPlaces[..8] == CommonPlaces;
  }

  lemma {:induction false} AddCommonSpec(places: seq<string>, text: string, ps: seq<string>)
    requires Distinct(places)
    requires forall p :: p in places ==> Includes(text, p)
    ensures Distinct(AddCommon(places, text, ps))
    ensures forall p :: p in AddCommon(places, text, ps) ==> Includes(text, p)
    decreases |ps|
  {
    if ps != [] {
      AddCommonSpec(places, text, ps[..|ps| - 1]);
    }
  }

  /** The extracted place names are distinct and each occurs in the text. */
  lemma PlaceNamesSpec(text: string)
    ensures Distinct(PlaceNamesOf(text))
    ensures forall p :: p in PlaceNamesOf(text) ==> Includes(text, p)
  {
    if text != "" {
      CapturesOfAllSpec(text, PlacePatterns);
      AddCommonSpec(CapturesOfAll(text, PlacePatterns), text, CommonPlaces);
    }
  }

  // ---------------------------------------------------------------------------
  // isLocationMatch
  // ---------------------------------------------------------------------------

  /**
   * `isLocationMatch(place1, place2, matchType)` on the lower-cased names:
   * 'exact' is equality; otherwise two campus names compare without their
   * first 'キャンパス', two names with '市' without their first '市', and
   * any other pair matches when one contains the other.
   */
  function IsLocationMatch(place1: string, place2: string, exact: bool): (r: bool)
    ensures !exact && ToLower(place1) == ToLower(place2) ==> r
    ensures !exact && !Includes(ToLower(place1), "キャンパス") && !Includes(ToLower(place1), "市") ==>
      (r <==> Includes(ToLower(place1), ToLower(place2)) || Includes(ToLower(place2), ToLower(place1)))
  {
    IncludesSelf(ToLower(place1));
    if exact then ToLower(place1) == ToLower(place2)
    else if Includes(ToLower(place1), "キャンパス") && Includes(ToLower(place2), "キャンパス") then
      ReplaceFirst(ToLower(place1), "キャンパス", "") == ReplaceFirst(ToLower(place2), "キャンパス", "")
    else if Includes(ToLower(place1), "市") && Includes(ToLower(place2), "市") then
      ReplaceFirst(ToLower(place1), "市", "") == ReplaceFirst(ToLower(place2), "市", "")
    else Includes(ToLower(place1), ToLower(place2)) || Includes(ToLower(place2), ToLower(place1))
  }

  /** An exact match is also a partial one, and the partial match does not
      depend on the order of the names. */
  lemma LocationMatchProperties(place1: string, place2: string)
    ensures IsLocationMatch(place1, place2, true) ==> IsLocationMatch(place1, place2, false)
    ensures IsLocationMatch(place1, place2, false) == IsLocationMatch(place2, place1, false)
    ensures IsLocationMatch(place1, place2, true) == IsLocationMatch(place2, place1, true)
  {
    IncludesSelf(ToLower(place1));
  }

  // ---------------------------------------------------------------------------
  // evaluateLocation
  // ---------------------------------------------------------------------------

  /** Some place of `lps` matches `wp` exactly. */
  predicate ExactIn(wp: string, lps: seq<string>)
    decreases |lps|
  {
    lps != [] && (ExactIn(wp, lps[..|lps| - 1]) || IsLocationMatch(wp, lps[|lps| - 1], true))
  }

  /** Some place of `lps` matches `wp` partially. */
  predicate PartialIn(wp: string, lps: seq<string>)
    decreases |lps|
  {
    lps != [] && (PartialIn(wp, lps[..|lps| - 1]) || IsLocationMatch(wp, lps[|lps| - 1], false))
  }

  /** Some place of `wps` matches the answer place `lp` partially. */
  predicate MatchedBy(lp: string, wps: seq<string>)
    decreases |wps|
  {
    wps != [] && (MatchedBy(lp, wps[..|wps| - 1]) || IsLocationMatch(wps[|wps| - 1], lp, false))
  }

  lemma {:induction false} ExactInIsPartialIn(wp: string, lps: seq<string>)
    ensures ExactIn(wp, lps) ==> PartialIn(wp, lps)
    decreases |lps|
  {
    if lps != [] {
      ExactInIsPartialIn(wp, lps[..|lps| - 1]);
      LocationMatchProperties(wp, lps[|lps| - 1]);
    }
  }

  /** The number of reference places with an exact counterpart. */
  function CorrectCount(wps: seq<string>, lps: seq<string>): (r: nat)
    ensures r <= |wps|
    decreases |wps|
  {
    if wps == [] then 0
    else (CorrectCount(wps[..|wps| - 1], lps) + (if ExactIn(wps[|wps| - 1], lps) then 1 else 0))
  }

  /** The number of reference places with only a partial counterpart. */
  function PartialCount(wps: seq<string>, lps: seq<string>): (r: nat)
    ensures r + CorrectCount(wps, lps) <= |wps|
    decreases |wps|
  {
    if wps == [] then 0
    else (PartialCount(wps[..|wps| - 1], lps)
      + (if !ExactIn(wps[|wps| - 1], lps) && PartialIn(wps[|wps| - 1], lps) then 1 else 0))
  }

  /** The number of answer places that match no reference place even
      partially. */
  function IncorrectCount(lps: seq<string>, wps: seq<string>): (r: nat)
    ensures r <= |lps|
    decreases |lps|
  {
    if lps == [] then 0
    else (IncorrectCount(lps[..|lps| - 1], wps) + (if MatchedBy(lps[|lps| - 1], wps) then 0 else 1))
  }

  /** The two counting loops of `evaluateLocation`. */
  method CountMatches(wps: seq<string>, lps: seq<string>) returns (correct: nat, partial: nat, incorrect: nat)
    ensures correct == CorrectCount(wps, lps)
    ensures partial == PartialCount(wps, lps)
    ensures incorrect == IncorrectCount(lps, wps)
  {
    correct, partial, incorrect := 0, 0, 0;
    for i := 0 to |wps|
      invariant correct == CorrectCount(wps[..i], lps)
      invariant partial == PartialCount(wps[..i], lps)
    {
      assert wps[..i + 1][..i] == wps[..i];
      var foundExact, foundPartial := ScanAnswerPlaces(wps[i], lps);
      if foundExact {
        correct := correct + 1;
      } else if foundPartial {
        partial := partial + 1;
      }
    }
    assert wps[..|wps|] == wps;
    for j := 0 to |lps|
      invariant incorrect == IncorrectCount(lps[..j], wps)
    {
      assert lps[..j + 1][..j] == lps[..j];
      var hasMatch := HasCounterpart(lps[j], wps);
      if !hasMatch {
        incorrect := incorrect + 1;
      }
    }
    assert lps[..|lps|] == lps;
  }

  /** The inner loop of the second count: does some reference place match? */
  method HasCounterpart(lp: string, wps: seq<string>) returns (hasMatch: bool)
    ensures hasMatch == MatchedBy(lp, wps)
  {
    hasMatch := false;
    for i := 0 to |wps|
      invariant hasMatch == MatchedBy(lp, wps[..i])
    {
      assert wps[..i + 1][..i] == wps[..i];
      if IsLocationMatch(wps[i], lp, false) {
        hasMatch := true;
        MatchedByGrows(lp, wps, i + 1);
        break;
      }
    }
    assert wps[..|wps|] == wps;
  }

  /** The inner loop over the answer places for one reference place: it
      stops at the first exact match and notes any partial one before it. */
  method ScanAnswerPlaces(wp: string, lps: seq<string>) returns (foundExact: bool, foundPartial: bool)
    ensures foundExact == ExactIn(wp, lps)
    ensures !foundExact ==> foundPartial == PartialIn(wp, lps)
  {
    foundExact, foundPartial := false, false;
    for j := 0 to |lps|
      invariant !ExactIn(wp, lps[..j])
      invariant foundPartial == PartialIn(wp, lps[..j])
    {
      assert lps[..j + 1][..j] == lps[..j];
      if IsLocationMatch(wp, lps[j], true) {
        foundExact := true;
        ExactInGrows(wp, lps, j + 1);
        return;
      } else if IsLocationMatch(wp, lps[j], false) {
        foundPartial := true;
      }
    }
    assert lps[..|lps|] == lps;
  }

  lemma {:induction false} ExactInGrows(wp: string, lps: seq<string>, n: nat)
    requires n <= |lps| && ExactIn(wp, lps[..n])
    ensures ExactIn(wp, lps)
    decreases |lps| - n
  {
    if n < |lps| {
      assert lps[..n + 1][..n] == lps[..n];
      ExactInGrows(wp, lps, n + 1);
    } else {
      assert lps[..n] == lps;
    }
  }

  lemma {:induction false} MatchedByGrows(lp: string, wps: seq<string>, n: nat)
    requires n <= |wps| && MatchedBy(lp, wps[..n])
    ensures MatchedBy(lp, wps)
    decreases |wps| - n
  {
    if n < |wps| {
      assert wps[..n + 1][..n] == wps[..n];
      MatchedByGrows(lp, wps, n + 1);
    } else {
      assert wps[..n] == wps;
    }
  }

  function MaxZero(x: real): real { if x < 0.0 then 0.0 else x }

  /** The score: the share of exact places, half the share of partial ones,
      less 0.4 times the share of wrong answer places, floored at 0. */
  function FinalScore(correct: nat, partial: nat, incorrect: nat, nw: nat, nl: nat): (r: real)
    requires nw > 0 && nl > 0 && correct + partial <= nw
    ensures 0.0 <= r <= 1.0
  {
    assert (correct as real) / (nw as real) + ((partial as real) / (nw as real)) * 0.5
      <= ((correct + partial) as real) / (nw as real) <= 1.0;
    MaxZero((correct as real) / (nw as real) + ((partial as real) / (nw as real)) * 0.5
      - ((incorrect as real) / (nl as real)) * 0.4)
  }

  /** The classification of the final score. */
  function ScoreJudgement(score: real): (r: Judgement)
    requires 0.0 <= score <= 1.0
    ensures Coherent(r) && r.confidence == score
    ensures r.kind == TypeExact <==> score >= 0.9
  {
    if score >= 0.9 then Judgement(true, TypeExact, score)
    else if score > 0.0 then Judgement(true, TypePartial, score)
    else Judgement(false, TypeNone, score)
  }

  /** The judgement for two non-empty lists of places. */
  function PlacesJudgement(wps: seq<string>, lps: seq<string>): (r: Judgement)
    requires |wps| > 0 && |lps| > 0
    ensures Coherent(r)
  {
    if CorrectCount(wps, lps) == 0 && PartialCount(wps, lps) == 0 then NoMatch
    else ScoreJudgement(FinalScore(CorrectCount(wps, lps), PartialCount(wps, lps),
                                   IncorrectCount(lps, wps), |wps|, |lps|))
  }

  /**
   * What `evaluateLocation(wikidataAnswer, llmAnswer)` returns for the
   * trimmed strings: exact when equal; the text comparison when either
   * side has no place name; otherwise the place score.
   */
  function LocationJudgement(wiki: string, llm: string): (r: Judgement)
    ensures Coherent(r)
    ensures Trim(wiki) == Trim(llm) ==> r == Exact
  {
    if Trim(wiki) == Trim(llm) then Exact
    else if |PlaceNamesOf(Trim(wiki))| == 0 || |PlaceNamesOf(Trim(llm))| == 0 then
      EvaluateTextSimilarity(Trim(wiki), Trim(llm))
    else PlacesJudgement(PlaceNamesOf(Trim(wiki)), PlaceNamesOf(Trim(llm)))
  }

  /** `evaluateLocation(wikidataAnswer, llmAnswer)`. */
  method EvaluateLocation(wiki: string, llm: string) returns (r: Judgement)
    ensures r == LocationJudgement(wiki, llm)
  {
    var wikidataStr := Trim(wiki);
    var llmStr := Trim(llm);
    if wikidataStr == llmStr {
      return Exact;
    }
    var wikidataPlaces := ExtractPlaceNames(wikidataStr);
    var llmPlaces := ExtractPlaceNames(llmStr);
    if |wikidataPlaces| == 0 || |llmPlaces| == 0 {
      return EvaluateTextSimilarity(wikidataStr, llmStr);
    }
    var correct, partial, incorrect := CountMatches(wikidataPlaces, llmPlaces);
    if correct == 0 && partial == 0 {
      return NoMatch;
    }
    r := ScoreJudgement(FinalScore(correct, partial, incorrect, |wikidataPlaces|, |llmPlaces|));
  }

  /** Every reference place found exactly and no wrong place in the answer
      gives an exact judgement with confidence 1. */
  lemma PerfectPlaces(wps: seq<string>, lps: seq<string>)
    requires |wps| > 0 && |lps| > 0
    requires CorrectCount(wps, lps) == |wps| && IncorrectCount(lps, wps) == 0
    ensures PlacesJudgement(wps, lps) == Judgement(true, TypeExact, 1.0)
  {
    assert PartialCount(wps, lps) == 0;
    AllExactScore(|wps|, |lps|);
  }

  lemma AllExactScore(n: nat, m: nat)
    requires n > 0 && m > 0
    ensures FinalScore(n, 0, 0, n, m) == 1.0
  {
    var x := n as real;
    assert x / x == 1.0;
    assert (0 as real) / x == 0.0;
    assert (0 as real) / (m as real) == 0.0;
  }

  /** Reference places without any counterpart give no match, whatever else
      the answer says. */
  lemma NoCounterpart(wps: seq<string>, lps: seq<string>)
    requires |wps| > 0 && |lps| > 0
    requires forall i :: 0 <= i < |wps| ==> !PartialIn(wps[i], lps)
    ensures PlacesJudgement(wps, lps) == NoMatch
  {
    NoPartialCounts(wps, lps);
  }

  lemma {:induction false} NoPartialCounts(wps: seq<string>, lps: seq<string>)
    requires forall i :: 0 <= i < |wps| ==> !PartialIn(wps[i], lps)
    ensures CorrectCount(wps, lps) == 0 && PartialCount(wps, lps) == 0
    decreases |wps|
  {
    if wps != [] {
      ExactInIsPartialIn(wps[|wps| - 1], lps);
      NoPartialCounts(wps[..|wps| - 1], lps);
    }
  }

  // ---------------------------------------------------------------------------
  // resolveLocationHierarchy: assembling the name
  // ---------------------------------------------------------------------------

  /** `isCityLevel(name)`: `/[市区町村]$/`, `/区$/`, `/町$/` or `/村$/`.
      The last three tests add nothing to the first. */
  function IsCityLevel(name: string): (r: bool)
    ensures r <==> EndsWithOneOf(name, {'市', '区', '町', '村'})
  {
    EndsWithOneOf(name, {'市', '区', '町', '村'})
    || EndsWithOneOf(name, {'区'}) || EndsWithOneOf(name, {'町'}) || EndsWithOneOf(name, {'村'})
  }

  /** `items.find(item => /[cs]$/.test(item))`. */
  function FindEnding(items: seq<string>, cs: set<char>): (r: Option<string>)
    ensures r.Some? ==> r.value in items && EndsWithOneOf(r.value, cs)
    ensures r.None? <==> forall k :: 0 <= k < |items| ==> !EndsWithOneOf(items[k], cs)
  {
    if items == [] then None
    else if EndsWithOneOf(items[0], cs) then Some(items[0])
    else FindEnding(items[1..], cs)
  }

  /**
   * The end of `resolveLocationHierarchy` once the labels of the enclosing
   * entities are collected: the current name joins the list when it is
   * city-level; then the first prefecture and the first city give
   * "prefecture,city", either one alone, or the current name.
   */
  function AssembleLocation(collected: seq<string>, currentLabel: string): (r: string)
  {
    var hierarchy := collected + (if IsCityLevel(currentLabel) then [currentLabel] else []);
    match (FindEnding(hierarchy, {'都', '道', '府', '県'}), FindEnding(hierarchy, {'市', '区', '町', '村'}))
    case (Some(prefecture), Some(city)) => prefecture + "," + city
    case (None, Some(city)) => city
    case (Some(prefecture), None) => prefecture
    case (None, None) => currentLabel
  }

  /** The assembled name is the current name, one collected name, or a
      prefecture and a city joined by ','; a city-level current name
      always leads to some city. */
  lemma AssembleLocationShape(collected: seq<string>, currentLabel: string)
    ensures AssembleLocation(collected, currentLabel) == currentLabel
      || AssembleLocation(collected, currentLabel) in collected
      || exists p, c :: p in collected + [currentLabel] && c in collected + [currentLabel]
           && EndsWithOneOf(p, {'都', '道', '府', '県'}) && EndsWithOneOf(c, {'市', '区', '町', '村'})
           && AssembleLocation(collected, currentLabel) == p + "," + c
    ensures IsCityLevel(currentLabel) ==>
      EndsWithOneOf(AssembleLocation(collected, currentLabel), {'市', '区', '町', '村'})
  {
    var hierarchy := collected + (if IsCityLevel(currentLabel) then [currentLabel] else []);
    var prefecture := FindEnding(hierarchy, {'都', '道', '府', '県'});
    var city := FindEnding(hierarchy, {'市', '区', '町', '村'});
    assert forall x :: x in hierarchy ==> x in collected + [currentLabel];
    if prefecture.Some? && city.Some? {
      var p, c := prefecture.value, city.value;
      assert AssembleLocation(collected, currentLabel) == p + "," + c;
      assert p in collected + [currentLabel] && c in collected + [currentLabel];
    } else if city.Some? {
      var c := city.value;
      assert AssembleLocation(collected, currentLabel) == c;
      assert c in collected || c == currentLabel;
    } else if prefecture.Some? {
      var p := prefecture.value;
      assert AssembleLocation(collected, currentLabel) == p;
      assert p in collected || p == currentLabel;
    }
    if IsCityLevel(currentLabel) {
      assert hierarchy[|hierarchy| - 1] == currentLabel;
      assert city.Some?;
    }
  }
}
