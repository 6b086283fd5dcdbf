/**
 * The text processing of the Wikidata client (js/wikidata-api.js, with the
 * identical copies in js/main.js): formatting of Wikidata time values,
 * the comma-separated reference string, the SPARQL query text, the records
 * built from SPARQL bindings, and the filter on entity-type search results.
 */
module WikidataApi {
  import opened Base
  import opened JsText

  // ---------------------------------------------------------------------------
  // formatWikidataTime
  // ---------------------------------------------------------------------------

  /** `/^([+-])(\d{4})-(\d{2})-(\d{2})/` matches at the start. */
  predicate IsWikidataTime(s: string) {
    |s| >= 11 && (s[0] == '+' || s[0] == '-')
    && IsDigit(s[1]) && IsDigit(s[2]) && IsDigit(s[3]) && IsDigit(s[4]) && s[5] == '-'
    && IsDigit(s[6]) && IsDigit(s[7]) && s[8] == '-'
    && IsDigit(s[9]) && IsDigit(s[10])
  }

  /** `formatWikidataTime(timeString)`: the year alone when month and day are
      00, year and month when the day is 00, the full date otherwise; any
      other text unchanged. */
  function FormatWikidataTime(timeString: string): (r: string)
    ensures !IsWikidataTime(timeString) ==> r == timeString
    ensures IsWikidataTime(timeString) ==> |r| >= 4 && r[..4] == timeString[1..5] && IsDigit(r[0])
  {
    if IsWikidataTime(timeString) then
      var year, month, day := timeString[1..5], timeString[6..8], timeString[9..11];
      if month == "00" && day == "00" then year
      else if day == "00" then year + "年" + month + "月"
      else year + "年" + month + "月" + day + "日"
    else timeString
  }

  /** The three shapes of a formatted time value. */
  lemma FormatWikidataTimeShapes(sign: char, year: string, month: string, day: string, rest: string)
    requires sign == '+' || sign == '-'
    requires |year| == 4 && forall k :: 0 <= k < 4 ==> IsDigit(year[k])
    requires |month| == 2 && IsDigit(month[0]) && IsDigit(month[1])
    requires |day| == 2 && IsDigit(day[0]) && IsDigit(day[1])
    ensures month == "00" && day == "00" ==>
      FormatWikidataTime([sign] + year + "-" + month + "-" + day + rest) == year
    ensures month != "00" && day == "00" ==>
      FormatWikidataTime([sign] + year + "-" + month + "-" + day + rest) == year + "年" + month + "月"
    ensures day != "00" ==>
      FormatWikidataTime([sign] + year + "-" + month + "-" + day + rest) == year + "年" + month + "月" + day + "日"
  {
    var s := [sign] + year + "-" + month + "-" + day + rest;
    assert s[1..5] == year && s[6..8] == month && s[9..11] == day;
  }

  /** The sign is dropped and the year is the first four-digit run of the
      result, so a formatted value reads back as its year. */
  lemma FormatWikidataTimeYear(timeString: string)
    requires IsWikidataTime(timeString)
    ensures FirstYear(FormatWikidataTime(timeString)) == Some(timeString[1..5])
    ensures FormatWikidataTime(timeString)[0] != '+' && FormatWikidataTime(timeString)[0] != '-'
  {
    var r := FormatWikidataTime(timeString);
    assert FourDigitsAt(r, 0);
    assert FindFourDigits(r, 0) == Some(0);
  }

  /** Formatting twice changes nothing: a formatted value no longer starts
      with a sign. */
  lemma FormatWikidataTimeIdempotent(timeString: string)
    ensures FormatWikidataTime(FormatWikidataTime(timeString)) == FormatWikidataTime(timeString)
  {
  }

  // ---------------------------------------------------------------------------
  // formatCommaString / formatWikidataCommaString
  // ---------------------------------------------------------------------------

  /** One field: the value, or '不明' when it is missing, null or empty. */
  function CommaField(data: map<string, Option<string>>, attr: string): (r: string)
    ensures attr in data && !Falsy(data[attr]) ==> r == data[attr].value
    ensures !(attr in data && !Falsy(data[attr])) ==> r == "不明"
  {
    if attr in data && !Falsy(data[attr]) then data[attr].value else "不明"
  }

  function CommaFields(data: map<string, Option<string>>, attributes: seq<string>): (r: seq<string>)
    ensures |r| == |attributes|
    ensures forall i :: 0 <= i < |r| ==> r[i] == CommaField(data, attributes[i])
  {
    seq(|attributes|, i requires 0 <= i < |attributes| => CommaField(data, attributes[i]))
  }

  /** `formatCommaString(data, attributes)`: the fields of the attributes,
      each its value or '不明', joined by ','. */
  function FormatCommaString(data: map<string, Option<string>>, attributes: seq<string>): (r: string)
    ensures attributes == [] ==> r == ""
    ensures |attributes| == 1 ==> r == CommaField(data, attributes[0])
  {
    Join(CommaFields(data, attributes), ",")
  }

  /** The string is empty without attributes, and holds every field. */
  lemma FormatCommaStringHoldsFields(data: map<string, Option<string>>, attributes: seq<string>)
    ensures attributes == [] ==> FormatCommaString(data, attributes) == ""
    ensures forall i :: 0 <= i < |attributes| ==> Includes(FormatCommaString(data, attributes), CommaField(data, attributes[i]))
  {
    JoinIncludesParts(CommaFields(data, attributes), ",");
  }

  /** Every part occurs in the joined string. */
  lemma {:induction false} JoinIncludesParts(parts: seq<string>, sep: string)
    ensures forall i :: 0 <= i < |parts| ==> Includes(Join(parts, sep), parts[i])
    decreases |parts|
  {
    if |parts| == 1 {
      IncludesSelf(parts[0]);
    } else if |parts| > 1 {
      var rest := Join(parts[1..], sep);
      JoinIncludesParts(parts[1..], sep);
      assert Join(parts, sep) == parts[0] + (sep + rest);
      IncludesAppend(parts[0], sep + rest);
      forall i | 1 <= i < |parts|
        ensures Includes(Join(parts, sep), parts[i])
      {
        assert parts[i] == parts[1..][i - 1];
        IncludesAppend(parts[0] + sep, rest);
        assert Join(parts, sep) == (parts[0] + sep) + rest;
        IncludesTransitive(Join(parts, sep), rest, parts[i]);
      }
    }
  }

  /** No value holds a comma. */
  predicate CommaFree(data: map<string, Option<string>>) {
    forall a :: a in data && data[a].Some? ==> ',' !in data[a].value
  }

  /** Splitting the string at its commas gives one field per attribute, in
      order, when no value holds a comma. */
  lemma FormatCommaStringFields(data: map<string, Option<string>>, attributes: seq<string>)
    requires CommaFree(data) && |attributes| >= 1
    ensures SplitOn(FormatCommaString(data, attributes), {','}) == CommaFields(data, attributes)
  {
    var fields := CommaFields(data, attributes);
    forall p | p in fields
      ensures forall k :: 0 <= k < |p| ==> p[k] !in {','}
    {
      var i :| 0 <= i < |fields| && fields[i] == p;
      assert p == CommaField(data, attributes[i]);
    }
    SplitJoin(fields, ',', {','});
  }

  // ---------------------------------------------------------------------------
  // generateDynamicSPARQLQuery / isKnownEntityType
  // ---------------------------------------------------------------------------

  /** `isKnownEntityType(entityTypeId)`: the types queried through the
      subclass path. */
  function IsKnownEntityType(entityTypeId: string): (r: bool)
    ensures r ==> |entityTypeId| >= 4 && entityTypeId[0] == 'Q'
  {
    entityTypeId in ["Q3918", "Q8502", "Q4830453", "Q515", "Q6256", "Q4022"]
  }

  /** One entry of `propertyMappings`. */
  datatype Mapping = Mapping(prop: string, vars: string)

  function PropertyMapping(attr: string): Option<Mapping> {
    if attr == "location" then Some(Mapping("P131", "?location ?locationLabel"))
    else if attr == "inception" then Some(Mapping("P571", "?inception"))
    else if attr == "website" then Some(Mapping("P856", "?website"))
    else if attr == "elevation" then Some(Mapping("P2044", "?elevation"))
    else if attr == "area" then Some(Mapping("P2046", "?area"))
    else if attr == "population" then Some(Mapping("P1082", "?population"))
    else if attr == "country" then Some(Mapping("P17", "?country ?countryLabel"))
    else None
  }

  const QueryHead := "SELECT DISTINCT ?item ?itemLabel"

  /** The variables the first loop appends for the first attributes. */
  function SelectVars(selected: seq<string>): string
    decreases |selected|
  {
    if selected == [] then ""
    else
      var prev := SelectVars(selected[..|selected| - 1]);
      match PropertyMapping(selected[|selected| - 1])
      case None => prev
      case Some(m) => prev + " " + m.vars
  }

  /** The line that names the entity type. */
  function TypeClause(entityTypeId: string): string {
    if IsKnownEntityType(entityTypeId) then "    ?item wdt:P31/wdt:P279* wd:" + entityTypeId + " .\n"
    else "    ?item wdt:P31 wd:" + entityTypeId + " .\n"
  }

  /** The country filter line, present only for a non-empty filter. */
  function FilterClause(locationFilter: string): string {
    if locationFilter != "" then "    ?item wdt:P17 wd:" + locationFilter + " .\n" else ""
  }

  /** The OPTIONAL line of one mapped attribute, branch by branch. */
  function OptionalClause(attr: string, m: Mapping): string {
    if attr == "location" then "    OPTIONAL { ?item wdt:" + m.prop + " ?location . }\n"
    else if attr == "country" then "    OPTIONAL { ?item wdt:" + m.prop + " ?country . }\n"
    else "    OPTIONAL { ?item wdt:" + m.prop + " ?" + attr + " . }\n"
  }

  /** The OPTIONAL lines the second loop appends for the first attributes. */
  function OptionalClauses(selected: seq<string>): string
    decreases |selected|
  {
    if selected == [] then ""
    else
      var prev := OptionalClauses(selected[..|selected| - 1]);
      var attr := selected[|selected| - 1];
      match PropertyMapping(attr)
      case None => prev
      case Some(m) => prev + OptionalClause(attr, m)
  }

  const LabelService := "    SERVICE wikibase:label { bd:serviceParam wikibase:language \"ja,en\" . }\n"

  function LimitClause(limit: int): string {
    "LIMIT " + IntToString(limit)
  }

  /** The query `generateDynamicSPARQLQuery` returns, piece by piece in the
      order the source appends them. */
  function SparqlQuery(entityTypeId: string, locationFilter: string, limit: int, selected: seq<string>): string {
    QueryHead + SelectVars(selected) + " WHERE {\n" + TypeClause(entityTypeId) + FilterClause(locationFilter)
    + OptionalClauses(selected) + LabelService + "}\n" + "ORDER BY ?itemLabel\n" + LimitClause(limit)
  }

  /** `generateDynamicSPARQLQuery(entityTypeId, locationFilter, limit,
      selectedAttributes)`, appending to the query text as the source does. */
  method GenerateDynamicSparqlQuery(entityTypeId: string, locationFilter: string, limit: int, selected: seq<string>)
    returns (query: string)
    ensures query == SparqlQuery(entityTypeId, locationFilter, limit, selected)
  {
    query := QueryHead;
    var vars := SelectVarsOf(selected);
    query := query + vars;
    query := query + " WHERE {\n";
    if IsKnownEntityType(entityTypeId) {
      query := query + ("    ?item wdt:P31/wdt:P279* wd:" + entityTypeId + " .\n");
    } else {
      query := query + ("    ?item wdt:P31 wd:" + entityTypeId + " .\n");
    }
    if locationFilter != "" {
      query := query + ("    ?item wdt:P17 wd:" + locationFilter + " .\n");
    } else {
      assert query + FilterClause(locationFilter) == query;
    }
    var optionals := OptionalClausesOf(selected);
    query := query + optionals;
    query := query + LabelService;
    query := query + "}\n";
    query := query + "ORDER BY ?itemLabel\n";
    query := query + ("LIMIT " + IntToString(limit));
  }

  /** The first `forEach`: the variables of the mapped attributes. */
  method SelectVarsOf(selected: seq<string>) returns (vars: string)
    ensures vars == SelectVars(selected)
  {
    vars := "";
    for i := 0 to |selected|
      invariant vars == SelectVars(selected[..i])
    {
      assert selected[..i + 1][..i] == selected[..i];
      var mapping := PropertyMapping(selected[i]);
      if mapping.Some? {
        vars := vars + " " + mapping.value.vars;
      }
    }
    assert selected[..|selected|] == selected;
  }

  /** The second `forEach`: one OPTIONAL line per mapped attribute. */
  method OptionalClausesOf(selected: seq<string>) returns (lines: string)
    ensures lines == OptionalClauses(selected)
  {
    lines := "";
    for i := 0 to |selected|
      invariant lines == OptionalClauses(selected[..i])
    {
      assert selected[..i + 1][..i] == selected[..i];
      var attr := selected[i];
      var mapping := PropertyMapping(attr);
      if mapping.Some? {
        lines := lines + OptionalClause(attr, mapping.value);
      }
    }
    assert selected[..|selected|] == selected;
  }

  lemma AppendBounds(a: string, b: string)
    ensures StartsWith(a + b, a) && EndsWith(a + b, b)
  {
    assert (a + b)[..|a|] == a;
    assert (a + b)[|a + b| - |b|..] == b;
  }

  lemma PrefixExtends(a: string, b: string, p: string)
    requires StartsWith(a, p)
    ensures StartsWith(a + b, p)
  {
    assert (a + b)[..|p|] == a[..|p|];
  }

  /** The query opens with the SELECT head and closes with the limit. */
  lemma SparqlQueryBounds(entityTypeId: string, locationFilter: string, limit: int, selected: seq<string>)
    ensures StartsWith(SparqlQuery(entityTypeId, locationFilter, limit, selected), QueryHead)
    ensures EndsWith(SparqlQuery(entityTypeId, locationFilter, limit, selected), LimitClause(limit))
  {
    var q1 := QueryHead + SelectVars(selected);
    AppendBounds(QueryHead, SelectVars(selected));
    var q2 := q1 + " WHERE {\n";
    PrefixExtends(q1, " WHERE {\n", QueryHead);
    var q3 := q2 + TypeClause(entityTypeId);
    PrefixExtends(q2, TypeClause(entityTypeId), QueryHead);
    var q4 := q3 + FilterClause(locationFilter);
    PrefixExtends(q3, FilterClause(locationFilter), QueryHead);
    var q5 := q4 + OptionalClauses(selected);
    PrefixExtends(q4, OptionalClauses(selected), QueryHead);
    var q6 := q5 + LabelService;
    PrefixExtends(q5, LabelService, QueryHead);
    var q7 := q6 + "}\n";
    PrefixExtends(q6, "}\n", QueryHead);
    var q8 := q7 + "ORDER BY ?itemLabel\n";
    PrefixExtends(q7, "ORDER BY ?itemLabel\n", QueryHead);
    PrefixExtends(q8, LimitClause(limit), QueryHead);
    AppendBounds(q8, LimitClause(limit));
  }

  /** The subclass path is used exactly for the known entity types. */
  lemma TypeClauseSubclassPath(entityTypeId: string)
    ensures StartsWith(TypeClause(entityTypeId), "    ?item wdt:P31/wdt:P279* ") <==> IsKnownEntityType(entityTypeId)
  {
    var c := TypeClause(entityTypeId);
    if !IsKnownEntityType(entityTypeId) {
      assert c[17] == ' ';
      assert "    ?item wdt:P31/wdt:P279* "[17] == '/';
    }
  }

  /** The three branches of the source write the same line. */
  lemma OptionalClauseUniform(attr: string, m: Mapping)
    ensures OptionalClause(attr, m) == "    OPTIONAL { ?item wdt:" + m.prop + " ?" + attr + " . }\n"
  {
  }

  /** Each selected attribute with a mapping adds exactly its own OPTIONAL
      line, every other attribute adds nothing. */
  lemma OptionalClausesStep(selected: seq<string>, attr: string)
    ensures PropertyMapping(attr).None? ==> OptionalClauses(selected + [attr]) == OptionalClauses(selected)
    ensures PropertyMapping(attr).Some? ==>
      OptionalClauses(selected + [attr]) == OptionalClauses(selected) + OptionalClause(attr, PropertyMapping(attr).value)
    ensures PropertyMapping(attr).None? ==> SelectVars(selected + [attr]) == SelectVars(selected)
  {
    assert (selected + [attr])[..|selected|] == selected;
  }

  /** An attribute without a mapping leaves the whole query unchanged. */
  lemma UnmappedAttributeIgnored(entityTypeId: string, locationFilter: string, limit: int, selected: seq<string>, attr: string)
    requires PropertyMapping(attr).None?
    ensures SparqlQuery(entityTypeId, locationFilter, limit, selected + [attr])
      == SparqlQuery(entityTypeId, locationFilter, limit, selected)
  {
    OptionalClausesStep(selected, attr);
  }

  // ---------------------------------------------------------------------------
  // processSparqlResults
  // ---------------------------------------------------------------------------

  /** One binding: its variables in `Object.keys` order, each with the
      `value` of its cell, if any. */
  type Binding = seq<(string, Option<string>)>

  /** A result cell: `{ value, label }` and, for entity URIs, `id`. */
  datatype Cell = Cell(value: string, displayLabel: string, id: Option<string>)

  const EntityPrefix := "http://www.wikidata.org/entity/"

  /** `value.split('/').pop()`: the text after the last '/', or all of it
      when it has none. */
  function LastSegment(v: string): (r: string)
    ensures '/' !in r
    ensures |r| <= |v| && v[|v| - |r|..] == r
    ensures |r| == |v| || v[|v| - |r| - 1] == '/'
  {
    if v == [] || v[|v| - 1] == '/' then []
    else
      var r := LastSegment(v[..|v| - 1]) + [v[|v| - 1]];
      assert v[..|v| - 1][|v| - |r|..] == r[..|r| - 1];
      r
  }

  /** After a '/', a segment without one is the last segment. */
  lemma {:induction false} LastSegmentAfterSlash(pre: string, id: string)
    requires pre != [] && pre[|pre| - 1] == '/' && '/' !in id
    ensures LastSegment(pre + id) == id
  {
    if id != [] {
      var init := id[..|id| - 1];
      assert (pre + id)[..|pre + id| - 1] == pre + init;
      LastSegmentAfterSlash(pre, init);
    }
  }

  /** An entity URI yields the id after the prefix. */
  lemma EntityIdOf(id: string)
    requires '/' !in id
    ensures LastSegment(EntityPrefix + id) == id
  {
    LastSegmentAfterSlash(EntityPrefix, id);
  }

  /** The cell of one truthy value. */
  function CellOf(v: string): (r: Cell)
    ensures r.value == v && r.displayLabel == v
    ensures r.id.Some? <==> StartsWith(v, EntityPrefix)
    ensures r.id.Some? ==> r.id.value == LastSegment(v)
  {
    Cell(v, v, if StartsWith(v, EntityPrefix) then Some(LastSegment(v)) else None)
  }

  /** The record built from the first entries of a binding. */
  function BindingRecord(binding: Binding): map<string, Cell>
    decreases |binding|
  {
    if binding == [] then map[]
    else
      var prev := BindingRecord(binding[..|binding| - 1]);
      var (key, value) := binding[|binding| - 1];
      if !Falsy(value) then prev[key := CellOf(value.value)] else prev
  }

  /** Entry `k` is the last entry of `key` with a non-empty value. */
  predicate LastTruthy(binding: Binding, key: string, k: int) {
    0 <= k < |binding| && binding[k].0 == key && !Falsy(binding[k].1)
    && forall j :: k < j < |binding| && binding[j].0 == key ==> Falsy(binding[j].1)
  }

  /** The record has a cell for exactly the variables with a non-empty value;
      each cell is the cell of that variable's last non-empty value: its
      label is that value, and it has an id exactly for entity URIs. */
  lemma {:induction false} BindingRecordSpec(binding: Binding)
    ensures forall key :: key in BindingRecord(binding) <==>
      exists k :: 0 <= k < |binding| && binding[k].0 == key && !Falsy(binding[k].1)
    ensures forall key :: key in BindingRecord(binding) ==>
      exists k :: LastTruthy(binding, key, k) && BindingRecord(binding)[key] == CellOf(binding[k].1.value)
    decreases |binding|
  {
    if binding != [] {
      var init := binding[..|binding| - 1];
      BindingRecordSpec(init);
      assert forall k :: 0 <= k < |init| ==> init[k] == binding[k];
    }
    forall key | key in BindingRecord(binding)
      ensures exists k :: LastTruthy(binding, key, k) && BindingRecord(binding)[key] == CellOf(binding[k].1.value)
    {
      BindingRecordLast(binding, key);
    }
  }

  /** The cell of a variable in the record is that of its last non-empty
      value. */
  lemma {:induction false} BindingRecordLast(binding: Binding, key: string)
    requires key in BindingRecord(binding)
    ensures exists k :: LastTruthy(binding, key, k) && BindingRecord(binding)[key] == CellOf(binding[k].1.value)
    decreases |binding|
  {
    var n := |binding| - 1;
    var init := binding[..n];
    if binding[n].0 == key && !Falsy(binding[n].1) {
      assert LastTruthy(binding, key, n);
    } else {
      assert key in BindingRecord(init) && BindingRecord(binding)[key] == BindingRecord(init)[key];
      BindingRecordLast(init, key);
      var k :| LastTruthy(init, key, k) && BindingRecord(init)[key] == CellOf(init[k].1.value);
      assert init[k] == binding[k];
      assert LastTruthy(binding, key, k);
    }
  }

  /** `processSparqlResults` on one binding: the `Object.keys` loop. */
  method ProcessBinding(binding: Binding) returns (result: map<string, Cell>)
    ensures result == BindingRecord(binding)
  {
    result := map[];
    for i := 0 to |binding|
      invariant result == BindingRecord(binding[..i])
    {
      assert binding[..i + 1][..i] == binding[..i];
      var (key, value) := binding[i];
      if !Falsy(value) {
        result := result[key := CellOf(value.value)];
      }
    }
    assert binding[..|binding|] == binding;
  }

  /** `processSparqlResults(data)`: one record per binding, none when the
      response has no bindings. */
  method ProcessSparqlResults(bindings: Option<seq<Binding>>) returns (records: seq<map<string, Cell>>)
    ensures bindings.None? ==> records == []
    ensures bindings.Some? ==> |records| == |bindings.value|
    ensures bindings.Some? ==> forall i :: 0 <= i < |records| ==> records[i] == BindingRecord(bindings.value[i])
  {
    records := [];
    var all := if bindings.Some? then bindings.value else [];
    for i := 0 to |all|
      invariant |records| == i
      invariant forall j :: 0 <= j < i ==> records[j] == BindingRecord(all[j])
    {
      var record := ProcessBinding(all[i]);
      records := records + [record];
    }
  }

  // ---------------------------------------------------------------------------
  // filterEntityTypeResults
  // ---------------------------------------------------------------------------

  /** One search hit: its label and description, either of which may be
      missing. */
  datatype SearchItem = SearchItem(name: Option<string>, description: Option<string>)

  /** The keys of the known entity type table. */
  const KnownEntityTypeLabels: set<string> :=
    {"山", "大学", "企業", "都市", "国", "河川", "湖", "島", "mountain", "university", "company"}

  /** The words of a description that mark an entity type. */
  const TypeWords := ["種類", "タイプ", "クラス", "type", "class", "category"]
  const GeographyWords := ["地形", "地理", "landform"]
  const OrganizationWords := ["組織", "機関", "organization"]
  const BuildingWords := ["建物", "構造物", "building"]

  function OrEmpty(v: Option<string>): string {
    if v.Some? then v.value else ""
  }

  predicate MentionsOneOf(desc: string, words: seq<string>) {
    exists w :: w in words && Includes(desc, w)
  }

  /** The filter's test on one hit. */
  predicate LooksLikeEntityType(item: SearchItem, query: string) {
    var desc := ToLower(OrEmpty(item.description));
    var name := ToLower(OrEmpty(item.name));
    name in KnownEntityTypeLabels
    || MentionsOneOf(desc, TypeWords)
    || Includes(name, ToLower(query))
    || MentionsOneOf(desc, GeographyWords)
    || MentionsOneOf(desc, OrganizationWords)
    || MentionsOneOf(desc, BuildingWords)
  }

  function FilterTypes(results: seq<SearchItem>, query: string): (r: seq<SearchItem>)
    ensures |r| <= |results|
    ensures forall x :: x in r ==> x in results && LooksLikeEntityType(x, query)
    ensures forall x :: x in results && LooksLikeEntityType(x, query) ==> x in r
  {
    if results == [] then []
    else if LooksLikeEntityType(results[0], query) then [results[0]] + FilterTypes(results[1..], query)
    else FilterTypes(results[1..], query)
  }

  /** `filterEntityTypeResults(results, query)`: the first ten hits that
      pass the test. */
  function FilterEntityTypeResults(results: seq<SearchItem>, query: string): (r: seq<SearchItem>)
    ensures |r| <= 10
    ensures forall x :: x in r ==> LooksLikeEntityType(x, query)
    ensures |r| == (if |FilterTypes(results, query)| <= 10 then |FilterTypes(results, query)| else 10)
    ensures r == FilterTypes(results, query)[..|r|]
    ensures |FilterTypes(results, query)| <= 10 ==>
      forall x :: x in results && LooksLikeEntityType(x, query) ==> x in r
  {
    var kept := FilterTypes(results, query);
    if |kept| <= 10 then kept else kept[..10]
  }

  /** `xs` is `ys` with some elements left out, the rest in their order. */
  predicate IsSubsequence<T(==)>(xs: seq<T>, ys: seq<T>)
    decreases |ys|
  {
    if xs == [] then true
    else if ys == [] then false
    else if xs[0] == ys[0] then IsSubsequence(xs[1..], ys[1..])
    else IsSubsequence(xs, ys[1..])
  }

  lemma {:induction false} FilterTypesSubsequence(results: seq<SearchItem>, query: string)
    ensures IsSubsequence(FilterTypes(results, query), results)
  {
    if results != [] {
      FilterTypesSubsequence(results[1..], query);
      var kept := FilterTypes(results, query);
      if LooksLikeEntityType(results[0], query) {
        assert kept[1..] == FilterTypes(results[1..], query);
      } else if kept != [] {
        SubsequenceSkip(kept, results);
      }
    }
  }

  lemma {:induction false} SubsequenceSkip<T>(xs: seq<T>, ys: seq<T>)
    requires ys != [] && IsSubsequence(xs, ys[1..])
    ensures IsSubsequence(xs, ys)
    decreases |ys|, 0
  {
    if xs != [] && xs[0] == ys[0] {
      SubsequenceDrop(xs, ys[1..]);
    }
  }

  lemma {:induction false} SubsequenceDrop<T>(xs: seq<T>, ys: seq<T>)
    requires xs != [] && IsSubsequence(xs, ys)
    ensures IsSubsequence(xs[1..], ys)
    decreases |ys|, 1
  {
    if xs[0] == ys[0] {
      if xs[1..] != [] {
        SubsequenceSkip(xs[1..], ys);
      }
    } else {
      SubsequenceDrop(xs, ys[1..]);
      if xs[1..] != [] {
        SubsequenceSkip(xs[1..], ys);
      }
    }
  }

  lemma {:induction false} SubsequencePrefix<T>(xs: seq<T>, ys: seq<T>, n: nat)
    requires IsSubsequence(xs, ys) && n <= |xs|
    ensures IsSubsequence(xs[..n], ys)
    decreases |ys|
  {
    if n > 0 && ys != [] {
      if xs[0] == ys[0] {
        SubsequencePrefix(xs[1..], ys[1..], n - 1);
        assert xs[..n][1..] == xs[1..][..n - 1];
      } else {
        SubsequencePrefix(xs, ys[1..], n);
      }
    }
  }

  /** The kept hits are an order-preserving selection of the input, and at
      most ten hits are dropped for the limit only when more than ten
      pass. */
  lemma FilterEntityTypeResultsSpec(results: seq<SearchItem>, query: string)
    ensures IsSubsequence(FilterEntityTypeResults(results, query), results)
    ensures |FilterEntityTypeResults(results, query)| == if |FilterTypes(results, query)| <= 10 then |FilterTypes(results, query)| else 10
  {
    FilterTypesSubsequence(results, query);
    var kept := FilterTypes(results, query);
    if |kept| > 10 {
      SubsequencePrefix(kept, results, 10);
    }
  }

  /** A hit whose label is a known entity type always passes. */
  lemma KnownLabelPasses(item: SearchItem, query: string)
    requires ToLower(OrEmpty(item.name)) in KnownEntityTypeLabels
    ensures LooksLikeEntityType(item, query)
  {
  }
}
