/**
 * `evaluateAnswer` of the older evaluator (js/main.js): the gate on
 * incomplete data, the dispatch on the attribute name to the URL, person
 * and place comparisons, the numeric tolerance branch, and the string
 * comparison everything else falls back on.
 */
module LegacyEvaluation {
  import opened Base
  import opened JsText
  import opened TextMatching
  import opened PersonNames
  import opened Places
  import opened UrlEvaluation

  /** The settings the older evaluator reads. */
  datatype EvaluatorSettings = EvaluatorSettings(tolerancePercent: real, url: UrlSettings)

  /** The settings the evaluator starts with: 5 % tolerance, both URL
      options on. */
  const DefaultSettings := EvaluatorSettings(5.0, UrlSettings(true, true))

  predicate IsUrlAttribute(attribute: string) {
    attribute == "official_website" || attribute == "website"
  }

  predicate IsPersonAttribute(attribute: string) {
    attribute == "director" || attribute == "author" || attribute == "composer"
    || attribute == "performer" || attribute == "founded_by"
  }

  predicate IsPlaceAttribute(attribute: string) {
    attribute == "location" || attribute == "location_pref" || attribute == "location_city"
    || attribute == "headquarters" || attribute == "work_location"
  }

  predicate IsNumericAttribute(attribute: string) {
    attribute == "inception" || attribute == "elevation" || attribute == "length"
  }

  /** Which comparison an attribute gets, in the order the tests run. */
  datatype AttributeKind = UrlKind | PersonKind | PlaceKind | NumericKind | TextKind

  function KindOf(attribute: string): AttributeKind {
    if IsUrlAttribute(attribute) then UrlKind
    else if IsPersonAttribute(attribute) then PersonKind
    else if IsPlaceAttribute(attribute) then PlaceKind
    else if IsNumericAttribute(attribute) then NumericKind
    else TextKind
  }

  /** The attribute groups do not overlap, so the order of the tests does
      not matter: each group gets its own comparison. */
  lemma KindOfGroups(attribute: string)
    ensures KindOf(attribute) == UrlKind <==> IsUrlAttribute(attribute)
    ensures KindOf(attribute) == PersonKind <==> IsPersonAttribute(attribute)
    ensures KindOf(attribute) == PlaceKind <==> IsPlaceAttribute(attribute)
    ensures KindOf(attribute) == NumericKind <==> IsNumericAttribute(attribute)
  {
  }

  /**
   * The numeric comparison: equal numbers are exact; a difference within
   * `tolerancePercent` of the reference is partial, with a confidence that
   * falls linearly from 1 to 0.7 at the edge; anything else is no match.
   */
  function NumericVerdict(wikidataNum: real, llmNum: real, tolerancePercent: real): (r: Judgement)
    ensures Coherent(r)
    ensures r.kind == TypeExact <==> wikidataNum == llmNum
    ensures r.kind == TypePartial ==> 0.7 <= r.confidence < 1.0
    ensures r.matched <==>
      (wikidataNum == llmNum || Abs(wikidataNum - llmNum) <= wikidataNum * (tolerancePercent / 100.0))
  {
    var difference := Abs(wikidataNum - llmNum);
    var tolerance := wikidataNum * (tolerancePercent / 100.0);
    if difference == 0.0 then Exact
    else if difference <= tolerance then
      PartialConfidence(difference, tolerance);
      Judgement(true, TypePartial, 1.0 - (difference / tolerance) * 0.3)
    else NoMatch
  }

  lemma PartialConfidence(difference: real, tolerance: real)
    requires 0.0 < difference <= tolerance
    ensures 0.7 <= 1.0 - (difference / tolerance) * 0.3 < 1.0
  {
    assert 0.0 < difference / tolerance <= 1.0;
  }

  /** The numeric branch: a verdict only when both numbers are truthy (not
      null, NaN or 0). */
  function NumericBranch(wikidataNum: Option<Option<real>>, llmNum: Option<Option<real>>, tolerancePercent: real): (r: Option<Judgement>)
    ensures r.Some? <==> NumberTruthy(wikidataNum) && NumberTruthy(llmNum)
    ensures r.Some? ==> Coherent(r.value)
  {
    match (wikidataNum, llmNum)
    case (Some(Some(w)), Some(Some(l))) =>
      if w != 0.0 && l != 0.0 then Some(NumericVerdict(w, l, tolerancePercent)) else None
    case _ => None
  }

  /** The comparison of the lower-cased, trimmed strings every other
      attribute ends in: exact when the answer contains the reference,
      partial when the reference contains the answer or some words match. */
  function StringVerdict(wikidataStr: string, llmStr: string): (r: Judgement)
    ensures Coherent(r)
    ensures r.kind == TypeExact <==> Includes(llmStr, wikidataStr)
    ensures r.matched <==>
      Includes(llmStr, wikidataStr) || Includes(wikidataStr, llmStr) || PartialMatch(wikidataStr, llmStr)
  {
    if wikidataStr == llmStr || Includes(llmStr, wikidataStr) then
      IncludesSelf(llmStr);
      Exact
    else if Includes(wikidataStr, llmStr) || PartialMatch(wikidataStr, llmStr) then PartialSeventy
    else NoMatch
  }

  /** The numeric attributes: the numeric verdict when both numbers are
      truthy, else the string comparison. */
  function NumericOrString(wikidataNum: Option<Option<real>>, llmNum: Option<Option<real>>, tolerancePercent: real,
                           wikidataStr: string, llmStr: string): (r: Judgement)
    ensures Coherent(r)
    ensures !NumberTruthy(wikidataNum) ==> r == StringVerdict(wikidataStr, llmStr)
  {
    match NumericBranch(wikidataNum, llmNum, tolerancePercent)
    case Some(j) => j
    case None => StringVerdict(wikidataStr, llmStr)
  }

  /** The gate on incomplete data: a falsy reference, the reference '不明',
      or a falsy answer. */
  predicate Incomplete(wikidataAnswer: Option<string>, llmAnswer: Option<string>) {
    Falsy(wikidataAnswer) || wikidataAnswer.value == "不明" || Falsy(llmAnswer)
  }

  /** What `evaluateAnswer(wikidataAnswer, llmAnswer, attribute)` returns. */
  function AnswerVerdict(wikidataAnswer: Option<string>, llmAnswer: Option<string>, attribute: string,
                         settings: EvaluatorSettings, parse: string -> Option<ParsedUrl>): (r: Judgement)
    ensures Incomplete(wikidataAnswer, llmAnswer) ==> r == NoMatch
  {
    if Incomplete(wikidataAnswer, llmAnswer) then NoMatch
    else match KindOf(attribute)
      case UrlKind =>
        UrlVerdict(Trim(ToLower(wikidataAnswer.value)), Trim(ToLower(llmAnswer.value)), settings.url, parse)
      case PersonKind => EvaluatePersonName(wikidataAnswer.value, llmAnswer.value)
      case PlaceKind => LocationJudgement(wikidataAnswer.value, llmAnswer.value)
      case NumericKind =>
        NumericOrString(ExtractNumber(Trim(ToLower(wikidataAnswer.value))), ExtractNumber(Trim(ToLower(llmAnswer.value))),
                        settings.tolerancePercent, Trim(ToLower(wikidataAnswer.value)), Trim(ToLower(llmAnswer.value)))
      case TextKind => StringVerdict(Trim(ToLower(wikidataAnswer.value)), Trim(ToLower(llmAnswer.value)))
  }

  /** Every verdict is coherent. */
  lemma AnswerVerdictCoherent(wikidataAnswer: Option<string>, llmAnswer: Option<string>, attribute: string,
                              settings: EvaluatorSettings, parse: string -> Option<ParsedUrl>)
    ensures Coherent(AnswerVerdict(wikidataAnswer, llmAnswer, attribute, settings, parse))
  {
    var r := AnswerVerdict(wikidataAnswer, llmAnswer, attribute, settings, parse);
    if !Incomplete(wikidataAnswer, llmAnswer) {
      var wikidataStr, llmStr := Trim(ToLower(wikidataAnswer.value)), Trim(ToLower(llmAnswer.value));
      match KindOf(attribute)
      case UrlKind =>
        UrlVerdictCoherent(wikidataStr, llmStr, settings.url, parse);
        assert r == UrlVerdict(wikidataStr, llmStr, settings.url, parse);
      case PersonKind =>
        assert r == EvaluatePersonName(wikidataAnswer.value, llmAnswer.value);
      case PlaceKind =>
        assert r == LocationJudgement(wikidataAnswer.value, llmAnswer.value);
      case NumericKind =>
        assert r == NumericOrString(ExtractNumber(wikidataStr), ExtractNumber(llmStr),
                                    settings.tolerancePercent, wikidataStr, llmStr);
      case TextKind =>
        assert r == StringVerdict(wikidataStr, llmStr);
    }
  }

  /** The numeric attributes are compared as strings: `extractNumber` never
      yields a truthy number, so the tolerance branch is never taken. */
  lemma NumericAttributesCompareAsStrings(wikidataAnswer: Option<string>, llmAnswer: Option<string>, attribute: string,
                                          settings: EvaluatorSettings, parse: string -> Option<ParsedUrl>)
    requires IsNumericAttribute(attribute) && !Incomplete(wikidataAnswer, llmAnswer)
    ensures AnswerVerdict(wikidataAnswer, llmAnswer, attribute, settings, parse)
      == StringVerdict(Trim(ToLower(wikidataAnswer.value)), Trim(ToLower(llmAnswer.value)))
  {
    KindOfGroups(attribute);
    ExtractNumberNeverTruthy(Trim(ToLower(wikidataAnswer.value)));
  }

  /** `evaluateAnswer(wikidataAnswer, llmAnswer, attribute)`. */
  method EvaluateAnswer(wikidataAnswer: Option<string>, llmAnswer: Option<string>, attribute: string,
                        settings: EvaluatorSettings, parse: string -> Option<ParsedUrl>) returns (r: Judgement)
    ensures r == AnswerVerdict(wikidataAnswer, llmAnswer, attribute, settings, parse)
  {
    if Incomplete(wikidataAnswer, llmAnswer) {
      return NoMatch;
    }
    var wikidataStr := Trim(ToLower(wikidataAnswer.value));
    var llmStr := Trim(ToLower(llmAnswer.value));
    match KindOf(attribute)
    case UrlKind =>
      r := EvaluateURL(wikidataStr, llmStr, settings.url, parse);
    case PersonKind =>
      r := EvaluatePersonName(wikidataAnswer.value, llmAnswer.value);
    case PlaceKind =>
      r := EvaluateLocation(wikidataAnswer.value, llmAnswer.value);
    case NumericKind =>
      r := NumericOrString(ExtractNumber(wikidataStr), ExtractNumber(llmStr), settings.tolerancePercent,
                           wikidataStr, llmStr);
    case TextKind =>
      r := StringVerdict(wikidataStr, llmStr);
  }
}
