/**
 * The text handling of the OpenAI client (js/openai-api.js; js/main.js has
 * an identical `parseLLMResponse`): the API key format check and the
 * splitting of a comma-separated answer into one value per attribute.
 */
module OpenAiApi {
  import opened Base
  import opened JsText
  import opened WikidataApi

  // ---------------------------------------------------------------------------
  // validateApiKey
  // ---------------------------------------------------------------------------

  const KeyPrefixes := ["sk-", "sk-proj-", "sk-org-"]

  /** `[A-Za-z0-9\-_]`. */
  predicate IsKeyChar(c: char) {
    IsLetter(c) || IsDigit(c) || c == '-' || c == '_'
  }

  /** `validateApiKey(apiKey)`: a non-empty key with one of the prefixes,
      40 to 200 characters, all of them letters, digits, '-' or '_'. */
  function ValidateApiKey(apiKey: Option<string>): (r: bool)
    ensures r ==> apiKey.Some? && 40 <= |apiKey.value| <= 200
    ensures r ==> forall k :: 0 <= k < |apiKey.value| ==> IsKeyChar(apiKey.value[k])
  {
    if Falsy(apiKey) then false
    else
      var key := apiKey.value;
      if !(exists p :: p in KeyPrefixes && StartsWith(key, p)) then false
      else if |key| < 40 || |key| > 200 then false
      else |key| > 0 && forall k :: 0 <= k < |key| ==> IsKeyChar(key[k])
  }

  /** The longer prefixes add nothing: a key is accepted exactly when it
      starts with "sk-", has 40 to 200 characters and only key characters. */
  lemma ValidateApiKeyIff(apiKey: Option<string>)
    ensures ValidateApiKey(apiKey) <==>
      apiKey.Some? && StartsWith(apiKey.value, "sk-") && 40 <= |apiKey.value| <= 200
      && forall k :: 0 <= k < |apiKey.value| ==> IsKeyChar(apiKey.value[k])
  {
    if apiKey.Some? && StartsWith(apiKey.value, "sk-") {
      assert "sk-" in KeyPrefixes;
    }
    if apiKey.Some? && exists p :: p in KeyPrefixes && StartsWith(apiKey.value, p) {
      var key := apiKey.value;
      var p :| p in KeyPrefixes && StartsWith(key, p);
      assert key[..3] == p[..3];
    }
  }

  // ---------------------------------------------------------------------------
  // parseLLMResponse
  // ---------------------------------------------------------------------------

  /** `response.split(',').map(v => v.trim())`. */
  function ResponseValues(response: string): (r: seq<string>)
    ensures |r| == |SplitOn(response, {','})|
    ensures forall i :: 0 <= i < |r| ==> r[i] == Trim(SplitOn(response, {','})[i])
  {
    var parts := SplitOn(response, {','});
    seq(|parts|, i requires 0 <= i < |parts| => Trim(parts[i]))
  }

  /** `values[index] || '不明'`. */
  function ValueAt(values: seq<string>, index: nat): (r: string)
    ensures index < |values| && values[index] != "" ==> r == values[index]
    ensures !(index < |values| && values[index] != "") ==> r == "不明"
  {
    if index < |values| && values[index] != "" then values[index] else "不明"
  }

  /** The value `parseLLMResponse` gives the attribute at `index`; `None`
      stands for a response that is not a string. */
  function FieldValue(response: Option<string>, index: nat): string {
    match response
    case None => "取得エラー"
    case Some(text) => ValueAt(ResponseValues(text), index)
  }

  /** A record filled attribute by attribute, the attribute at position `i`
      getting `value(i)` and a later duplicate overwriting an earlier one. */
  function Record(attributes: seq<string>, value: nat -> string): map<string, string>
    decreases |attributes|
  {
    if attributes == [] then map[]
    else
      var i := |attributes| - 1;
      Record(attributes[..i], value)[attributes[i] := value(i)]
  }

  /** What `parseLLMResponse` returns for the attributes. */
  function ParsedResponse(response: Option<string>, attributes: seq<string>): map<string, string> {
    Record(attributes, (i: nat) => FieldValue(response, i))
  }

  /** `parseLLMResponse(response, attributes)`, filling the record attribute
      by attribute as the source's `forEach` does. */
  method ParseLLMResponse(response: Option<string>, attributes: seq<string>) returns (result: map<string, string>)
    ensures result == ParsedResponse(response, attributes)
  {
    result := map[];
    if response.None? {
      for i := 0 to |attributes|
        invariant result == ParsedResponse(response, attributes[..i])
      {
        assert attributes[..i + 1][..i] == attributes[..i];
        result := result[attributes[i] := "取得エラー"];
      }
    } else {
      var values := ResponseValues(response.value);
      for i := 0 to |attributes|
        invariant result == ParsedResponse(response, attributes[..i])
      {
        assert attributes[..i + 1][..i] == attributes[..i];
        result := result[attributes[i] := ValueAt(values, i)];
      }
    }
    assert attributes[..|attributes|] == attributes;
  }

  /** The record has exactly the attributes as keys; the value of each is
      taken from the position of its last occurrence: the trimmed field
      there, or '不明' when that field is missing or empty, and '取得エラー'
      throughout when the response is not a string. */
  lemma ParsedResponseSpec(response: Option<string>, attributes: seq<string>)
    ensures ParsedResponse(response, attributes).Keys == set a | a in attributes
    ensures forall i :: 0 <= i < |attributes| && attributes[i] !in attributes[i + 1..] ==>
      ParsedResponse(response, attributes)[attributes[i]]
        == (if response.None? then "取得エラー" else ValueAt(ResponseValues(response.value), i))
  {
    var value := (i: nat) => FieldValue(response, i);
    RecordKeys(attributes, value);
    forall i | 0 <= i < |attributes| && attributes[i] !in attributes[i + 1..]
      ensures ParsedResponse(response, attributes)[attributes[i]]
        == (if response.None? then "取得エラー" else ValueAt(ResponseValues(response.value), i))
    {
      RecordAt(attributes, value, i);
    }
  }

  /** The keys of a record are the attributes. */
  lemma {:induction false} RecordKeys(attributes: seq<string>, value: nat -> string)
    ensures Record(attributes, value).Keys == set a | a in attributes
    decreases |attributes|
  {
    if attributes != [] {
      var n := |attributes| - 1;
      RecordKeys(attributes[..n], value);
      assert attributes == attributes[..n] + [attributes[n]];
    }
  }

  /** The value of an attribute not repeated later is the one of its position. */
  lemma {:induction false} RecordAt(attributes: seq<string>, value: nat -> string, i: nat)
    requires i < |attributes| && attributes[i] !in attributes[i + 1..]
    ensures attributes[i] in Record(attributes, value)
    ensures Record(attributes, value)[attributes[i]] == value(i)
    decreases |attributes|
  {
    var n := |attributes| - 1;
    if i < n {
      var init := attributes[..n];
      assert attributes[n] in attributes[i + 1..];
      assert init[i + 1..] == attributes[i + 1..n];
      assert attributes[i + 1..] == attributes[i + 1..n] + [attributes[n]];
      RecordAt(init, value, i);
    }
  }

  /** Parsing a comma string built from reference data gives the reference
      fields back, when the attributes are distinct and no value holds a
      comma or surrounding white space. */
  lemma ParseFormattedFields(data: map<string, Option<string>>, attributes: seq<string>)
    requires CommaFree(data) && Distinct(attributes)
    requires forall a :: a in data && data[a].Some? ==> Trimmed(data[a].value)
    ensures forall i :: 0 <= i < |attributes| ==>
      var parsed := ParsedResponse(Some(FormatCommaString(data, attributes)), attributes);
      attributes[i] in parsed && parsed[attributes[i]] == CommaField(data, attributes[i])
  {
    if attributes != [] {
      FormatCommaStringFields(data, attributes);
      ParsedFields(data, attributes, FormatCommaString(data, attributes));
    }
  }

  /** Parsing any text that splits into the attributes' fields gives those fields. */
  lemma ParsedFields(data: map<string, Option<string>>, attributes: seq<string>, text: string)
    requires forall a :: a in data && data[a].Some? ==> Trimmed(data[a].value)
    requires Distinct(attributes) && attributes != []
    requires SplitOn(text, {','}) == CommaFields(data, attributes)
    ensures forall i :: 0 <= i < |attributes| ==>
      var parsed := ParsedResponse(Some(text), attributes);
      attributes[i] in parsed && parsed[attributes[i]] == CommaField(data, attributes[i])
  {
    ParsedResponseSpec(Some(text), attributes);
    forall i | 0 <= i < |attributes|
      ensures ValueAt(ResponseValues(text), i) == CommaField(data, attributes[i])
      ensures attributes[i] !in attributes[i + 1..]
    {
      FieldRoundTrip(data, attributes, text, i);
    }
  }

  lemma FieldRoundTrip(data: map<string, Option<string>>, attributes: seq<string>, text: string, i: nat)
    requires forall a :: a in data && data[a].Some? ==> Trimmed(data[a].value)
    requires Distinct(attributes) && i < |attributes|
    requires SplitOn(text, {','}) == CommaFields(data, attributes)
    ensures ValueAt(ResponseValues(text), i) == CommaField(data, attributes[i])
    ensures attributes[i] !in attributes[i + 1..]
  {
    var field := CommaField(data, attributes[i]);
    assert SplitOn(text, {','})[i] == field;
    TrimOfTrimmed(field);
    var rest := attributes[i + 1..];
    assert forall k :: 0 <= k < |rest| ==> rest[k] != attributes[i];
  }
}
