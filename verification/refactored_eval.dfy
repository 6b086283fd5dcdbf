/**
 * The reduced evaluator of js/main-refactored.js: `evaluateAnswers` with
 * scores 100/70/0, its attribute-dependent partial match, the URL and
 * number comparisons, the recommended attributes of an entity, the
 * instance-of ids of an entity and the prompt text.
 *
 * A stray brace closes the class early in that file, so its methods are
 * modelled as free functions.  The tables the methods read (attribute
 * labels, prompt templates, attributes per entity type) are parameters.
 */
module RefactoredEvaluation {
  import opened Base
  import opened JsText

  // ---------------------------------------------------------------------------
  // evaluateAnswers
  // ---------------------------------------------------------------------------

  /** The record `evaluateAnswers` returns (its `details` text left out). */
  datatype Verdict = Verdict(score: nat, status: string)

  const NoData := Verdict(0, "データなし")
  const NoReference := Verdict(0, "Wikidata不明")
  const NoAnswer := Verdict(0, "LLM無回答")
  const Agree := Verdict(100, "一致")
  const PartlyAgree := Verdict(70, "部分一致")
  const Disagree := Verdict(0, "不一致")

  /** `new URL(u).hostname`, or nothing when the constructor throws. */
  type HostParser = string -> Option<string>

  /** `evaluateAnswers(wikidataValue, llmValue, attribute)`: the gates on
      missing values, then equality of the lower-cased trimmed strings, then
      the partial match. */
  function EvaluateAnswers(wikidataValue: Option<string>, llmValue: Option<string>, attribute: string,
                           hostOf: HostParser): (r: Verdict)
    ensures r.score == 0 || r.score == 70 || r.score == 100
    ensures Falsy(wikidataValue) && Falsy(llmValue) ==> r == NoData
    ensures Falsy(wikidataValue) && !Falsy(llmValue) ==> r == NoReference
    ensures !Falsy(wikidataValue) && Falsy(llmValue) ==> r == NoAnswer
    ensures !Falsy(wikidataValue) && !Falsy(llmValue) ==>
      (r.score == 100 <==> Trim(ToLower(wikidataValue.value)) == Trim(ToLower(llmValue.value)))
    ensures !Falsy(wikidataValue) && !Falsy(llmValue) ==>
      (r.score == 70 <==> Trim(ToLower(wikidataValue.value)) != Trim(ToLower(llmValue.value))
                          && IsPartialMatch(Trim(ToLower(wikidataValue.value)), Trim(ToLower(llmValue.value)), attribute, hostOf))
  {
    if Falsy(wikidataValue) && Falsy(llmValue) then NoData
    else if Falsy(wikidataValue) then NoReference
    else if Falsy(llmValue) then NoAnswer
    else
      var wikiStr := Trim(ToLower(wikidataValue.value));
      var llmStr := Trim(ToLower(llmValue.value));
      if wikiStr == llmStr then Agree
      else if IsPartialMatch(wikiStr, llmStr, attribute, hostOf) then PartlyAgree
      else Disagree
  }

  /** Containment either way. */
  predicate EitherIncludes(a: string, b: string) {
    Includes(a, b) || Includes(b, a)
  }

  predicate IsNumberAttribute(attribute: string) {
    attribute == "area" || attribute == "population" || attribute == "elevation"
  }

  /**
   * `isPartialMatch(wikiValue, llmValue, attribute)`: for 'inception' with a
   * four-digit run on both sides, the first runs are equal; URLs compare by
   * host; the number attributes by ratio; everything else, locations and
   * countries included, by containment either way.
   */
  function IsPartialMatch(wikiValue: string, llmValue: string, attribute: string, hostOf: HostParser): (r: bool)
    ensures attribute == "inception" && (FirstYear(wikiValue).None? || FirstYear(llmValue).None?) ==>
      (r <==> Includes(wikiValue, llmValue) || Includes(llmValue, wikiValue))
    ensures attribute != "inception" && attribute != "website" && attribute != "official_website"
            && !IsNumberAttribute(attribute) ==>
      (r <==> Includes(wikiValue, llmValue) || Includes(llmValue, wikiValue))
    ensures IsNumberAttribute(attribute) ==> (r <==> CompareNumbers(wikiValue, llmValue))
  {
    if attribute == "inception" && FirstYear(wikiValue).Some? && FirstYear(llmValue).Some? then
      FirstYear(wikiValue) == FirstYear(llmValue)
    else if attribute == "website" || attribute == "official_website" then CompareUrls(wikiValue, llmValue, hostOf)
    else if attribute == "location" || attribute == "country" then EitherIncludes(wikiValue, llmValue)
    else if IsNumberAttribute(attribute) then CompareNumbers(wikiValue, llmValue)
    else EitherIncludes(wikiValue, llmValue)
  }

  /** For 'inception' with a year on both sides only the years count: no
      containment is tried. */
  lemma InceptionComparesYears(wikiValue: string, llmValue: string, hostOf: HostParser)
    requires FirstYear(wikiValue).Some? && FirstYear(llmValue).Some?
    ensures IsPartialMatch(wikiValue, llmValue, "inception", hostOf) <==> FirstYear(wikiValue) == FirstYear(llmValue)
  {
  }

  /** Except for the number attributes, the partial match does not depend
      on which side is the reference. */
  lemma PartialMatchSymmetric(wikiValue: string, llmValue: string, attribute: string, hostOf: HostParser)
    requires !IsNumberAttribute(attribute)
    ensures IsPartialMatch(wikiValue, llmValue, attribute, hostOf) == IsPartialMatch(llmValue, wikiValue, attribute, hostOf)
  {
    CompareUrlsSymmetric(wikiValue, llmValue, hostOf);
  }

  /** Equal answers with a reference are always scored 100, whatever the
      attribute. */
  lemma SameAnswerAgrees(value: string, attribute: string, hostOf: HostParser)
    requires value != ""
    ensures EvaluateAnswers(Some(value), Some(value), attribute, hostOf) == Agree
  {
  }

  // ---------------------------------------------------------------------------
  // compareUrls
  // ---------------------------------------------------------------------------

  /** `https?:\/\/` at `i`, case-sensitive: where it ends. */
  function SchemeAt(s: string, i: nat): (r: Option<nat>)
    ensures r.Some? ==> i + 7 <= r.value <= |s|
  {
    if OccursAt(s, "https://", i) then Some(i + 8)
    else if OccursAt(s, "http://", i) then Some(i + 7)
    else None
  }

  /** The leftmost position at or after `from` where a scheme starts. */
  function FirstScheme(s: string, from: nat): (r: Option<nat>)
    requires from <= |s|
    ensures r.Some? ==> from <= r.value <= |s| && SchemeAt(s, r.value).Some?
    ensures r.Some? ==> forall j :: from <= j < r.value ==> SchemeAt(s, j).None?
    decreases |s| - from
  {
    if SchemeAt(s, from).Some? then Some(from)
    else if from == |s| then None
    else FirstScheme(s, from + 1)
  }

  /** `url.replace(/https?:\/\/(www\.)?/, '')`: the first scheme, and a
      `www.` right after it, removed. */
  function RemoveScheme(url: string): string {
    match FirstScheme(url, 0)
    case None => url
    case Some(i) =>
      var e := SchemeAt(url, i).value;
      var e' := if OccursAt(url, "www.", e) then e + 4 else e;
      url[..i] + url[e'..]
  }

  /** `.split('/')[0]`. */
  function FirstSegment(s: string): (r: string)
    ensures forall k :: 0 <= k < |r| ==> r[k] != '/'
  {
    s[..NextIn(s, {'/'}, 0)]
  }

  /** The host segment the string fallback of `compareUrls` compares. */
  function UrlHost(url: string): string {
    FirstSegment(RemoveScheme(url))
  }

  /** `compareUrls(url1, url2)`: the host names without their first `www.`
      when both parse, else the host segments of the strings. */
  function CompareUrls(url1: string, url2: string, hostOf: HostParser): (r: bool)
    ensures hostOf(url1).Some? && hostOf(url1) == hostOf(url2) ==> r
    ensures hostOf(url1).None? || hostOf(url2).None? ==> (r <==> UrlHost(url1) == UrlHost(url2))
  {
    match (hostOf(url1), hostOf(url2))
    case (Some(h1), Some(h2)) => ReplaceFirst(h1, "www.", "") == ReplaceFirst(h2, "www.", "")
    case _ => UrlHost(url1) == UrlHost(url2)
  }

  lemma CompareUrlsSymmetric(url1: string, url2: string, hostOf: HostParser)
    ensures CompareUrls(url1, url2, hostOf) == CompareUrls(url2, url1, hostOf)
    ensures CompareUrls(url1, url1, hostOf)
  {
  }

  /** The fallback reads the host out of "http(s)://(www.)host/path". */
  lemma UrlHostOf(secure: bool, www: bool, host: string, path: string)
    requires forall k :: 0 <= k < |host| ==> host[k] != '/'
    requires !www ==> !StartsWith(host + path, "www.")
    requires path == "" || path[0] == '/'
    ensures UrlHost((if secure then "https://" else "http://") + (if www then "www." else "") + host + path) == host
  {
    var scheme := if secure then "https://" else "http://";
    var prefix := if www then "www." else "";
    var rest := host + path;
    assert scheme + prefix + host + path == scheme + (prefix + rest);
    RemoveSchemeOf(secure, www, rest);
    FirstSegmentOf(host, path);
  }

  lemma FirstSegmentOf(host: string, path: string)
    requires forall k :: 0 <= k < |host| ==> host[k] != '/'
    requires path == "" || path[0] == '/'
    ensures FirstSegment(host + path) == host
  {
    var rest := host + path;
    NextInIs(rest, {'/'}, 0, |host|);
    assert rest[..|host|] == host;
  }

  /** Removing the scheme and a `www.` right after it. */
  lemma RemoveSchemeOf(secure: bool, www: bool, rest: string)
    requires !www ==> !StartsWith(rest, "www.")
    ensures RemoveScheme((if secure then "https://" else "http://") + ((if www then "www." else "") + rest)) == rest
  {
    var scheme := if secure then "https://" else "http://";
    var prefix := if www then "www." else "";
    var url := scheme + (prefix + rest);
    SchemeAtStart(secure, prefix + rest);
    assert url[|scheme|..] == prefix + rest;
    if www {
      assert url[|scheme|..|scheme| + 4] == "www.";
      assert url[|scheme| + 4..] == rest;
    } else {
      assert !OccursAt(url, "www.", |scheme|);
    }
  }

  /** A string starting with a scheme has it found at 0. */
  lemma SchemeAtStart(secure: bool, rest: string)
    ensures FirstScheme((if secure then "https://" else "http://") + rest, 0) == Some(0)
    ensures SchemeAt((if secure then "https://" else "http://") + rest, 0)
      == Some(if secure then 8 else 7)
  {
    var url := (if secure then "https://" else "http://") + rest;
    if secure {
      assert url[..8] == "https://";
    } else {
      assert url[..7] == "http://";
      assert url[4] == ':';
    }
  }

  // ---------------------------------------------------------------------------
  // compareNumbers
  // ---------------------------------------------------------------------------

  predicate IsDigitOrDot(c: char) { IsDigit(c) || c == '.' }

  /** `parseFloat(String(v).replace(/[^\d.]/g, ''))`. */
  function NumberIn(v: string): Option<real> {
    ParseFloat(Keep(v, IsDigitOrDot))
  }

  /** `compareNumbers(num1, num2)`: both numbers parse and
      |w − l| / w < 0.1. */
  function CompareNumbers(num1: string, num2: string): (r: bool)
    ensures r ==> NumberIn(num1).Some? && NumberIn(num2).Some? && NumberIn(num1).value != 0.0
    ensures NumberIn(num1).Some? && NumberIn(num1).value > 0.0 && NumberIn(num2).Some? ==>
      (r <==> Abs(NumberIn(num1).value - NumberIn(num2).value) < NumberIn(num1).value * 0.1)
  {
    var n1, n2 := NumberIn(num1), NumberIn(num2);
    if n1.Some? && n1.value > 0.0 && n2.Some? then
      WithinTenPercentOfPositive(n1.value, n2.value);
      WithinTenPercent(n1, n2)
    else
      WithinTenPercent(n1, n2)
  }

  /** The test on the two parsed numbers; a number that does not parse is
      NaN and fails it. */
  predicate WithinTenPercent(n1: Option<real>, n2: Option<real>) {
    n1.Some? && n2.Some? && RatioBelow(Abs(n1.value - n2.value), n1.value, 0.1)
  }

  /** Within 10 % of a positive reference is a match, beyond it is not. */
  lemma WithinTenPercentOfPositive(w: real, l: real)
    requires w > 0.0
    ensures WithinTenPercent(Some(w), Some(l)) <==> Abs(w - l) < w * 0.1
  {
    var d := Abs(w - l);
    assert d == (d / w) * w;
  }

  /** A reference of 0 never matches (0/0 is NaN and d/0 is infinite), nor
      does a side that does not parse. */
  lemma WithinTenPercentFails(n1: Option<real>, n2: Option<real>)
    requires n1 == Some(0.0) || n1.None? || n2.None?
    ensures !WithinTenPercent(n1, n2)
  {
  }

  // ---------------------------------------------------------------------------
  // extractInstanceOf
  // ---------------------------------------------------------------------------

  /** One P31 claim: `mainsnak?.datavalue?.value?.id`, absent when any link
      of the chain is missing. */
  datatype Claim = Claim(valueId: Option<string>)

  /** An entity: its P31 claims, absent when `entity?.claims?.P31` is. */
  datatype Entity = Entity(instanceOf: Option<seq<Claim>>)

  /** `claims.map(...).filter(Boolean)`. */
  function ClaimIds(claims: seq<Claim>): (r: seq<string>)
    ensures forall x :: x in r <==> x != "" && Claim(Some(x)) in claims
    ensures |r| <= |claims|
  {
    if claims == [] then []
    else if claims[0].valueId.Some? && claims[0].valueId.value != "" then
      [claims[0].valueId.value] + ClaimIds(claims[1..])
    else
      assert forall x :: Claim(Some(x)) in claims && Claim(Some(x)) != claims[0] ==> Claim(Some(x)) in claims[1..];
      ClaimIds(claims[1..])
  }

  /** The ids keep the order of their claims: the ids of a run of claims
      followed by another are the ids of the first then those of the second. */
  lemma {:induction false} ClaimIdsAppend(a: seq<Claim>, b: seq<Claim>)
    ensures ClaimIds(a + b) == ClaimIds(a) + ClaimIds(b)
    decreases |a|
  {
    if a != [] {
      assert (a + b)[0] == a[0];
      assert (a + b)[1..] == a[1..] + b;
      ClaimIdsAppend(a[1..], b);
      if a[0].valueId.Some? && a[0].valueId.value != "" {
        assert ClaimIds(a + b) == [a[0].valueId.value] + (ClaimIds(a[1..]) + ClaimIds(b));
      } else {
        assert ClaimIds(a + b) == ClaimIds(a[1..]) + ClaimIds(b);
      }
    } else {
      assert a + b == b;
    }
  }

  /** One claim gives its id when it has a non-empty one, and nothing else. */
  lemma ClaimIdsOne(c: Claim)
    ensures ClaimIds([c]) == if c.valueId.Some? && c.valueId.value != "" then [c.valueId.value] else []
  {
    assert [c][1..] == [];
  }

  /** `extractInstanceOf(entity)`. */
  function ExtractInstanceOf(entity: Entity): (r: seq<string>)
    ensures entity.instanceOf.None? ==> r == []
    ensures entity.instanceOf.Some? ==> forall x :: x in r <==> x != "" && Claim(Some(x)) in entity.instanceOf.value
  {
    match entity.instanceOf
    case None => []
    case Some(claims) => ClaimIds(claims)
  }

  // ---------------------------------------------------------------------------
  // getRecommendedAttributes
  // ---------------------------------------------------------------------------

  /** One option of the attribute list. */
  datatype AttributeOption = AttributeOption(id: string, name: string)

  const DefaultAttributes := ["inception", "location", "official_website"]

  /** `this.entityTypeAttributes[id] || []`. */
  function AttributesOf(table: map<string, seq<string>>, id: string): seq<string> {
    if id in table then table[id] else []
  }

  /** The set after the `forEach` over the first ids. */
  function CollectAttributes(ids: seq<string>, table: map<string, seq<string>>): seq<string>
    decreases |ids|
  {
    if ids == [] then []
    else SetAddAll(CollectAttributes(ids[..|ids| - 1], table), AttributesOf(table, ids[|ids| - 1]))
  }

  /** `this.attributeLabels[attr] || attr`. */
  function LabelOf(labels: map<string, string>, attr: string): (r: string)
    ensures attr in labels && labels[attr] != "" ==> r == labels[attr]
    ensures !(attr in labels && labels[attr] != "") ==> r == attr
  {
    if attr in labels && labels[attr] != "" then labels[attr] else attr
  }

  /** The attribute ids `getRecommendedAttributes` lists. */
  function RecommendedIds(ids: seq<string>, table: map<string, seq<string>>): seq<string> {
    if CollectAttributes(ids, table) == [] then DefaultAttributes else CollectAttributes(ids, table)
  }

  /** What `getRecommendedAttributes(instanceOfIds)` returns. */
  function RecommendedAttributes(ids: seq<string>, table: map<string, seq<string>>, labels: map<string, string>): (r: seq<AttributeOption>)
    ensures |r| == |RecommendedIds(ids, table)|
    ensures forall k :: 0 <= k < |r| ==>
      r[k] == AttributeOption(RecommendedIds(ids, table)[k], LabelOf(labels, RecommendedIds(ids, table)[k]))
  {
    seq(|RecommendedIds(ids, table)|, k requires 0 <= k < |RecommendedIds(ids, table)| =>
      AttributeOption(RecommendedIds(ids, table)[k], LabelOf(labels, RecommendedIds(ids, table)[k])))
  }

  /** `getRecommendedAttributes(instanceOfIds)`. */
  method GetRecommendedAttributes(ids: seq<string>, table: map<string, seq<string>>, labels: map<string, string>)
    returns (options: seq<AttributeOption>)
    ensures options == RecommendedAttributes(ids, table, labels)
  {
    var allAttributes: seq<string> := [];
    for i := 0 to |ids|
      invariant allAttributes == CollectAttributes(ids[..i], table)
    {
      assert ids[..i + 1][..i] == ids[..i];
      allAttributes := AddEach(allAttributes, AttributesOf(table, ids[i]));
    }
    assert ids[..|ids|] == ids;
    if |allAttributes| == 0 {
      allAttributes := AddEach(allAttributes, DefaultAttributes);
      DefaultsDistinct();
    }
    options := [];
    for k := 0 to |allAttributes|
      invariant |options| == k
      invariant forall m :: 0 <= m < k ==> options[m] == AttributeOption(allAttributes[m], LabelOf(labels, allAttributes[m]))
    {
      options := options + [AttributeOption(allAttributes[k], LabelOf(labels, allAttributes[k]))];
    }
  }

  /** `attrs.forEach(attr => allAttributes.add(attr))`. */
  method AddEach(added: seq<string>, attrs: seq<string>) returns (r: seq<string>)
    ensures r == SetAddAll(added, attrs)
  {
    r := added;
    for j := 0 to |attrs|
      invariant SetAddAll(r, attrs[j..]) == SetAddAll(added, attrs)
    {
      assert attrs[j..][1..] == attrs[j + 1..];
      r := SetAdd(r, attrs[j]);
    }
    assert attrs[|attrs|..] == [];
  }

  /** The default attributes are distinct, so adding them to an empty set
      lists them in order. */
  lemma DefaultsDistinct()
    ensures SetAddAll([], DefaultAttributes) == DefaultAttributes
  {
    assert SetAdd([], "inception") == ["inception"];
    assert SetAdd(["inception"], "location") == ["inception", "location"];
    assert SetAdd(["inception", "location"], "official_website") == DefaultAttributes;
    assert DefaultAttributes[1..] == ["location", "official_website"];
    assert DefaultAttributes[2..] == ["official_website"];
  }

  lemma {:induction false} CollectAttributesSpec(ids: seq<string>, table: map<string, seq<string>>)
    ensures Distinct(CollectAttributes(ids, table))
    ensures forall a :: a in CollectAttributes(ids, table) <==>
      exists k :: 0 <= k < |ids| && a in AttributesOf(table, ids[k])
    decreases |ids|
  {
    if ids != [] {
      var init := ids[..|ids| - 1];
      CollectAttributesSpec(init, table);
      SetAddAllSpec(CollectAttributes(init, table), AttributesOf(table, ids[|ids| - 1]));
      forall a | a in CollectAttributes(ids, table)
        ensures exists k :: 0 <= k < |ids| && a in AttributesOf(table, ids[k])
      {
        if a !in AttributesOf(table, ids[|ids| - 1]) {
          var k :| 0 <= k < |init| && a in AttributesOf(table, init[k]);
          assert init[k] == ids[k];
        }
      }
      forall a, k | 0 <= k < |ids| && a in AttributesOf(table, ids[k])
        ensures a in CollectAttributes(ids, table)
      {
        if k < |init| {
          assert init[k] == ids[k];
        }
      }
    }
  }

  /** The recommended ids are distinct; they are the attributes of the known
      types among the ids, or exactly the three defaults when no type gives
      any. */
  lemma RecommendedIdsSpec(ids: seq<string>, table: map<string, seq<string>>)
    ensures Distinct(RecommendedIds(ids, table))
    ensures (forall k :: 0 <= k < |ids| ==> AttributesOf(table, ids[k]) == []) ==>
      RecommendedIds(ids, table) == DefaultAttributes
    ensures (exists k :: 0 <= k < |ids| && AttributesOf(table, ids[k]) != []) ==>
      forall a :: a in RecommendedIds(ids, table) <==> exists k :: 0 <= k < |ids| && a in AttributesOf(table, ids[k])
  {
    CollectAttributesSpec(ids, table);
    if exists k :: 0 <= k < |ids| && AttributesOf(table, ids[k]) != [] {
      var k :| 0 <= k < |ids| && AttributesOf(table, ids[k]) != [];
      assert AttributesOf(table, ids[k])[0] in CollectAttributes(ids, table);
    }
    var c := CollectAttributes(ids, table);
    if c != [] {
      assert c[0] in c;
    }
  }

  // ---------------------------------------------------------------------------
  // buildPrompt
  // ---------------------------------------------------------------------------

  /** `buildPrompt(entityName, attribute, pattern)`: the pattern's template
      (the 'direct' one when the pattern has none) with the first
      '{entity}' and then the first '{attribute}' replaced; nothing when no
      template is found, where the source throws. */
  function BuildPrompt(entityName: string, attribute: string, pattern: string,
                       labels: map<string, string>, templates: map<string, string>): (r: Option<string>)
    ensures r.None? <==> !(pattern in templates && templates[pattern] != "") && "direct" !in templates
  {
    var template :=
      if pattern in templates && templates[pattern] != "" then Some(templates[pattern])
      else if "direct" in templates then Some(templates["direct"])
      else None;
    match template
    case None => None
    case Some(t) => Some(ReplaceFirst(ReplaceFirst(t, "{entity}", entityName), "{attribute}", LabelOf(labels, attribute)))
  }

  /** `IndexOf` finds a word whose first character does not occur before
      it. */
  lemma IndexOfFirst(s: string, t: string, i: nat)
    requires |t| > 0 && OccursAt(s, t, i)
    requires forall j :: 0 <= j < i ==> s[j] != t[0]
    ensures IndexOf(s, t) == i
  {
    forall j | 0 <= j < i
      ensures !OccursAt(s, t, j)
    {
      if j + |t| <= |s| {
        assert s[j..j + |t|][0] == s[j];
      }
    }
  }

  /** A template with '{entity}' before '{attribute}' and no other brace
      before them gives the entity name and the label in their places, as
      long as the entity name holds no brace. */
  lemma FillTemplate(pre: string, mid: string, post: string, entityName: string, name: string)
    requires forall k :: 0 <= k < |pre| ==> pre[k] != '{'
    requires forall k :: 0 <= k < |mid| ==> mid[k] != '{'
    requires forall k :: 0 <= k < |entityName| ==> entityName[k] != '{'
    ensures ReplaceFirst(ReplaceFirst(pre + "{entity}" + mid + "{attribute}" + post, "{entity}", entityName), "{attribute}", name)
      == pre + entityName + mid + name + post
  {
    FillPlaceholders(pre, "{entity}", mid, "{attribute}", post, entityName, name);
  }

  /** `FillTemplate` for any two placeholders that open with a brace. */
  lemma FillPlaceholders(pre: string, e: string, mid: string, a: string, post: string, entityName: string, name: string)
    requires |e| > 0 && e[0] == '{' && |a| > 0 && a[0] == '{'
    requires forall k :: 0 <= k < |pre| ==> pre[k] != '{'
    requires forall k :: 0 <= k < |mid| ==> mid[k] != '{'
    requires forall k :: 0 <= k < |entityName| ==> entityName[k] != '{'
    ensures ReplaceFirst(ReplaceFirst(pre + e + mid + a + post, e, entityName), a, name)
      == pre + entityName + mid + name + post
  {
    ConcatAssoc(pre + e + mid, a, post);
    ConcatAssoc(pre + e, mid, a + post);
    ConcatAssoc(mid, a, post);
    ReplaceFirstAfter(pre, e, mid + a + post, entityName);
    var x := pre + entityName + mid;
    NoBraceConcat(pre, entityName);
    NoBraceConcat(pre + entityName, mid);
    ConcatAssoc(x, a, post);
    ConcatAssoc(pre + entityName, mid, a + post);
    ReplaceFirstAfter(x, a, post, name);
  }

  lemma ConcatAssoc(x: string, y: string, z: string)
    ensures x + y + z == x + (y + z)
  {
  }

  lemma NoBraceConcat(x: string, y: string)
    requires forall k :: 0 <= k < |x| ==> x[k] != '{'
    requires forall k :: 0 <= k < |y| ==> y[k] != '{'
    ensures forall k :: 0 <= k < |x + y| ==> (x + y)[k] != '{'
  {
  }

  /** Replacing a placeholder that starts with a brace, in a text whose
      first brace opens it. */
  lemma ReplaceFirstAfter(x: string, key: string, y: string, rep: string)
    requires |key| > 0 && key[0] == '{'
    requires forall k :: 0 <= k < |x| ==> x[k] != '{'
    ensures ReplaceFirst(x + key + y, key, rep) == x + rep + y
  {
    var t := x + key + y;
    assert t[|x|..|x| + |key|] == key;
    IndexOfFirst(t, key, |x|);
    assert t[..|x|] == x && t[|x| + |key|..] == y;
  }
}
