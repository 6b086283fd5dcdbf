/**
 * The small helpers of js/main.js around a request and its record: the
 * stricter API key check with its messages, the sanitising of a header
 * value, the quoting of a CSV field, and the bounded history of results.
 */
module MainUtilities {
  import opened Base
  import opened JsText
  import OpenAiApi

  // ---------------------------------------------------------------------------
  // validateApiKey (js/main.js)
  // ---------------------------------------------------------------------------

  /** The `{ valid, message }` record the check returns. */
  datatype KeyCheck = KeyCheck(valid: bool, message: string)

  const EmptyKeyMessage := "APIキーが空または無効です"
  const PrefixMessage := "OpenAI APIキーは \"sk-\", \"sk-proj-\", または \"sk-org-\" で始まる必要があります"
  const CharacterMessage := "APIキーに不正な文字が含まれています（英数字、ハイフン、アンダースコアのみ使用可能）"
  const WhitespaceMessage := "APIキーに空白文字や改行文字が含まれています"
  const StructureMessage := "APIキーの構造が不正です。英数字、ハイフン、アンダースコアのみを使用し、正しい形式で入力してください"
  const ValidMessage := "形式は有効です"

  function LengthMessage(length: nat): string {
    "APIキーの長さが不正です (現在: " + NatToString(length) + "文字、有効範囲: 40-200文字)"
  }

  /** `/[\s\n\r\t]/`. */
  predicate HasWhitespace(key: string) {
    exists k :: 0 <= k < |key| && IsSpace(key[k])
  }

  /** `^[A-Za-z0-9_-]+$`. */
  predicate AllKeyChars(key: string) {
    |key| > 0 && forall k :: 0 <= k < |key| ==> OpenAiApi.IsKeyChar(key[k])
  }

  /** The structure patterns `^sk-proj-[A-Za-z0-9_-]{48,}$`,
      `^sk-org-[A-Za-z0-9_-]{40,}$` and `^sk-[A-Za-z0-9_-]{48,}$`, chosen by
      prefix, on a key whose characters are already known to be key
      characters. */
  predicate HasKeyStructure(key: string) {
    if StartsWith(key, "sk-proj-") then |key| >= 8 + 48
    else if StartsWith(key, "sk-org-") then |key| >= 7 + 40
    else StartsWith(key, "sk-") && |key| >= 3 + 48
  }

  /** `validateApiKey(apiKey)` of js/main.js: the checks in the source's
      order, each with its message. */
  function ValidateApiKeyDetailed(apiKey: Option<string>): (r: KeyCheck)
    ensures Falsy(apiKey) ==> r == KeyCheck(false, EmptyKeyMessage)
    ensures r.valid <==> r.message == ValidMessage
  {
    if Falsy(apiKey) then KeyCheck(false, EmptyKeyMessage)
    else
      var key := apiKey.value;
      if !(exists p :: p in OpenAiApi.KeyPrefixes && StartsWith(key, p)) then KeyCheck(false, PrefixMessage)
      else if |key| < 40 || |key| > 200 then KeyCheck(false, LengthMessage(|key|))
      else if !AllKeyChars(key) then KeyCheck(false, CharacterMessage)
      else if HasWhitespace(key) then KeyCheck(false, WhitespaceMessage)
      else if !HasKeyStructure(key) then KeyCheck(false, StructureMessage)
      else KeyCheck(true, ValidMessage)
  }

  /** The two checks agree up to the structure test: js/main.js accepts a
      key exactly when js/openai-api.js does and the key is long enough for
      its prefix (56 for "sk-proj-", 47 for "sk-org-", 51 otherwise). */
  lemma ValidateApiKeyDetailedIff(apiKey: Option<string>)
    ensures ValidateApiKeyDetailed(apiKey).valid <==>
      OpenAiApi.ValidateApiKey(apiKey) && HasKeyStructure(apiKey.value)
  {
    OpenAiApi.ValidateApiKeyIff(apiKey);
    if apiKey.Some? && StartsWith(apiKey.value, "sk-") {
      assert "sk-" in OpenAiApi.KeyPrefixes;
    }
    if apiKey.Some? && exists p :: p in OpenAiApi.KeyPrefixes && StartsWith(apiKey.value, p) {
      var key := apiKey.value;
      var p :| p in OpenAiApi.KeyPrefixes && StartsWith(key, p);
      assert key[..3] == p[..3];
    }
  }

  /** The white-space test can never fail: the character test before it
      already admits no white space. */
  lemma WhitespaceCheckUnreachable(apiKey: Option<string>)
    ensures ValidateApiKeyDetailed(apiKey).message != WhitespaceMessage
  {
    if !Falsy(apiKey) && AllKeyChars(apiKey.value) {
      var key := apiKey.value;
      forall k | 0 <= k < |key|
        ensures !IsSpace(key[k])
      {
        assert OpenAiApi.IsKeyChar(key[k]);
      }
    }
  }

  /** A 40-character "sk-" key: accepted by js/openai-api.js, rejected by
      the structure test of js/main.js. */
  lemma ShortLegacyKeyRejected()
    ensures var key := "sk-" + seq(37, _ => 'a');
      OpenAiApi.ValidateApiKey(Some(key))
      && ValidateApiKeyDetailed(Some(key)) == KeyCheck(false, StructureMessage)
  {
    var key := "sk-" + seq(37, _ => 'a');
    assert StartsWith(key, "sk-");
    assert key[..8] != "sk-proj-" by { assert key[3] == 'a'; }
    assert key[..7] != "sk-org-" by { assert key[3] == 'a'; }
    forall k | 0 <= k < |key|
      ensures OpenAiApi.IsKeyChar(key[k])
    {
      if k >= 3 {
        assert key[k] == 'a';
      }
    }
    OpenAiApi.ValidateApiKeyIff(Some(key));
    ValidateApiKeyDetailedIff(Some(key));
    WhitespaceCheckUnreachable(Some(key));
  }

  // ---------------------------------------------------------------------------
  // sanitizeHeaderValue
  // ---------------------------------------------------------------------------

  /** `[\x20-\x7E]`. */
  predicate IsPrintableAscii(c: char) {
    ' ' <= c <= '~'
  }

  /** `[\x00-\x1F\x7F]`. */
  predicate IsControl(c: char) {
    c < ' ' || c == '\U{7F}'
  }

  predicate NotControl(c: char) {
    !IsControl(c)
  }

  /** `sanitizeHeaderValue(value)`: empty for a falsy value, else the
      printable ASCII characters with control characters dropped, trimmed. */
  function SanitizeHeaderValue(value: Option<string>): (r: string)
    ensures Falsy(value) ==> r == ""
    ensures Trimmed(r)
    ensures forall k :: 0 <= k < |r| ==> IsPrintableAscii(r[k])
    ensures !Falsy(value) ==> r == Trim(Keep(value.value, IsPrintableAscii))
  {
    if Falsy(value) then ""
    else
      var printable := Keep(value.value, IsPrintableAscii);
      var kept := Keep(printable, NotControl);
      ControlPassIsRedundant(value.value);
      TrimKeepsCharacters(kept);
      assert forall c :: c in kept ==> c in printable && IsPrintableAscii(c);
      Trim(kept)
  }

  /** The control-character pass removes nothing that the first pass left. */
  lemma ControlPassIsRedundant(s: string)
    ensures Keep(Keep(s, IsPrintableAscii), NotControl) == Keep(s, IsPrintableAscii)
  {
    KeepAllKept(Keep(s, IsPrintableAscii), NotControl);
  }

  /** Sanitising a sanitised value changes nothing. */
  lemma SanitizeHeaderValueIdempotent(value: Option<string>)
    ensures SanitizeHeaderValue(Some(SanitizeHeaderValue(value))) == SanitizeHeaderValue(value)
  {
    var r := SanitizeHeaderValue(value);
    if r != "" {
      KeepAllKept(r, IsPrintableAscii);
      KeepAllKept(r, NotControl);
      TrimOfTrimmed(r);
    }
  }

  /** A key that passes the check of js/openai-api.js goes into the
      Authorization header unchanged. */
  lemma ValidKeySanitizesToItself(apiKey: Option<string>)
    requires OpenAiApi.ValidateApiKey(apiKey)
    ensures SanitizeHeaderValue(apiKey) == apiKey.value
  {
    var key := apiKey.value;
    forall k | 0 <= k < |key|
      ensures IsPrintableAscii(key[k]) && NotControl(key[k]) && !IsSpace(key[k])
    {
      assert OpenAiApi.IsKeyChar(key[k]);
    }
    KeepAllKept(key, IsPrintableAscii);
    KeepAllKept(key, NotControl);
    assert !IsSpace(key[0]) && !IsSpace(key[|key| - 1]);
    TrimOfTrimmed(key);
  }

  // ---------------------------------------------------------------------------
  // escapeCSV
  // ---------------------------------------------------------------------------

  /** `value.replace(/"/g, '""')`. */
  function DoubleQuotes(s: string): (r: string)
    ensures |r| >= |s|
  {
    if s == [] then []
    else if s[0] == '"' then "\"\"" + DoubleQuotes(s[1..])
    else [s[0]] + DoubleQuotes(s[1..])
  }

  predicate NeedsQuoting(value: string) {
    ',' in value || '"' in value || '\n' in value
  }

  /** `escapeCSV(value)` on a string: quoted, with inner quotes doubled, when
      it holds a comma, a quote or a line feed; unchanged otherwise. */
  function EscapeCSV(value: string): (r: string)
    ensures !NeedsQuoting(value) ==> r == value
    ensures NeedsQuoting(value) ==> |r| >= |value| + 2 && r[0] == '"' && r[|r| - 1] == '"'
  {
    if NeedsQuoting(value) then "\"" + DoubleQuotes(value) + "\"" else value
  }

  /** Reading a doubled quote back as one quote. */
  function UndoubleQuotes(s: string): (r: string)
    ensures |r| <= |s|
  {
    if |s| >= 2 && s[0] == '"' && s[1] == '"' then "\"" + UndoubleQuotes(s[2..])
    else if s == [] then []
    else [s[0]] + UndoubleQuotes(s[1..])
  }

  /** How a CSV reader takes a field back: a quoted field loses its quotes
      and its doubled quotes; any other field is taken as it is. */
  function UnescapeCSV(field: string): (r: string)
    ensures |r| <= |field|
  {
    if |field| >= 2 && field[0] == '"' && field[|field| - 1] == '"' then UndoubleQuotes(field[1..|field| - 1])
    else field
  }

  lemma {:induction false} UndoubleDoubled(s: string)
    ensures UndoubleQuotes(DoubleQuotes(s)) == s
  {
    if s != [] {
      UndoubleDoubled(s[1..]);
      if s[0] == '"' {
        assert ("\"\"" + DoubleQuotes(s[1..]))[2..] == DoubleQuotes(s[1..]);
      } else {
        var d := [s[0]] + DoubleQuotes(s[1..]);
        assert d[1..] == DoubleQuotes(s[1..]);
      }
    }
  }

  /** Every value survives the quoting: a reader gets it back. */
  lemma EscapeCSVRoundTrip(value: string)
    ensures UnescapeCSV(EscapeCSV(value)) == value
  {
    if NeedsQuoting(value) {
      var e := EscapeCSV(value);
      assert e[1..|e| - 1] == DoubleQuotes(value);
      UndoubleDoubled(value);
    } else if value != [] {
      assert value[0] in value;
    }
  }

  // ---------------------------------------------------------------------------
  // saveToHistory
  // ---------------------------------------------------------------------------

  /** A saved result with the time stamp and id `saveToHistory` adds. */
  datatype HistoryItem<T> = HistoryItem(result: T, timestamp: int, id: string)

  const MaxHistory := 1000
  /** What is kept when writing to storage fails. */
  const FallbackHistory := 500

  /** The list after saving `item`: newest first, cut to `limit` entries. */
  function Saved<T>(history: seq<T>, item: T, limit: nat): (r: seq<T>)
    requires limit >= 1
    ensures |r| == if |history| + 1 <= limit then |history| + 1 else limit
    ensures r[0] == item
    ensures r[1..] == history[..|r| - 1]
  {
    var whole := [item] + history;
    if |whole| > limit then whole[..limit] else whole
  }

  /** The history list of the page. */
  class History<T> {
    var items: seq<HistoryItem<T>>

    constructor()
      ensures items == []
    {
      items := [];
    }

    /** `saveToHistory(result)`: the item goes first, the list is cut to 1000
        entries, and to 500 when writing it to storage fails. The time and
        the random id are parameters. */
    method SaveToHistory(result: T, timestamp: int, id: string, stored: bool)
      modifies this
      ensures var first := Saved(old(items), HistoryItem(result, timestamp, id), MaxHistory);
        items == if stored then first else first[..if |first| > FallbackHistory then FallbackHistory else |first|]
      ensures |items| <= MaxHistory && items[0] == HistoryItem(result, timestamp, id)
    {
      items := [HistoryItem(result, timestamp, id)] + items;
      if |items| > MaxHistory {
        items := items[..MaxHistory];
      }
      if !stored {
        items := items[..if |items| > FallbackHistory then FallbackHistory else |items|];
      }
    }

    /** `clearHistory()` once the user confirms. */
    method ClearHistory(confirmed: bool)
      modifies this
      ensures items == if confirmed then [] else old(items)
    {
      if confirmed {
        items := [];
      }
    }
  }

  /** Saving never loses the order of what was there: the older entries
      follow the new one, as many as fit. */
  lemma SavedKeepsOrder<T>(history: seq<T>, item: T, limit: nat, i: nat)
    requires limit >= 1 && i < |history| && i + 1 < limit
    ensures Saved(history, item, limit)[i + 1] == history[i]
  {
    var r := Saved(history, item, limit);
    assert r[1..][i] == history[..|r| - 1][i];
  }
}
