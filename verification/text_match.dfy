/**
 * The judgement record of the older evaluator (js/main.js) and the text
 * comparisons every part of it falls back on: `partialMatch`,
 * `extractNumber` and `evaluateTextSimilarity`.
 *
 * The expressions of `partialMatch` and `extractNumber` are written with
 * doubled backslashes inside regular-expression literals, so `\\s` and `\\d`
 * stand for a backslash followed by the letter `s` or `d`.  The model keeps
 * that: words are split at a backslash followed by `s`s, not at white space,
 * and the "number" found always starts with a backslash, which `parseFloat`
 * reads as NaN.
 */
module TextMatching {
  import opened Base
  import opened JsText

  /** The `type` of a judgement: 'exact', 'partial' or 'none'. */
  datatype MatchType = TypeExact | TypePartial | TypeNone

  /** A judgement `{ match, type, confidence }` (its free-text `notes` left out). */
  datatype Judgement = Judgement(matched: bool, kind: MatchType, confidence: real)

  /** Every judgement the older evaluator returns is coherent: it matches
      exactly when its type is not 'none' and its confidence is positive,
      and the confidence is at most 1. */
  predicate Coherent(j: Judgement) {
    (j.matched <==> j.kind != TypeNone)
    && (j.matched <==> j.confidence > 0.0)
    && 0.0 <= j.confidence <= 1.0
  }

  const Exact := Judgement(true, TypeExact, 1.0)
  const PartialSeventy := Judgement(true, TypePartial, 0.7)
  const NoMatch := Judgement(false, TypeNone, 0.0)

  // ---------------------------------------------------------------------------
  // partialMatch: split on /\\s+|、|。/
  // ---------------------------------------------------------------------------

  /** End of the run of `c` characters starting at `i` (the `s+` or `d+`
      after a backslash). */
  function CharRunEnd(s: string, i: nat, c: char): (r: nat)
    requires i <= |s|
    ensures i <= r <= |s|
    decreases |s| - i
  {
    if i < |s| && s[i] == c then CharRunEnd(s, i + 1, c) else i
  }

  /** A separator `\\s+|、|。` at `q`: a backslash followed by one or more
      `s`, or one of the two punctuation marks.  The result is its end. */
  function SeparatorAt(s: string, q: nat): (r: Option<nat>)
    requires q <= |s|
    ensures r.Some? ==> q < r.value <= |s|
  {
    if q + 1 < |s| && s[q] == '\\' && s[q + 1] == 's' then Some(CharRunEnd(s, q + 1, 's'))
    else if q < |s| && (s[q] == '、' || s[q] == '。') then Some(q + 1)
    else None
  }

  /** `s.split(/\\s+|、|。/)` from the piece starting at `p`, scanning at `q`. */
  function SplitFrom(s: string, p: nat, q: nat): (r: seq<string>)
    requires p <= q <= |s|
    ensures |r| >= 1
    ensures forall i :: 0 <= i < |r| ==> |r[i]| <= |s|
    decreases |s| - q
  {
    if q == |s| then [s[p..]]
    else match SeparatorAt(s, q)
      case Some(e) => [s[p..q]] + SplitFrom(s, e, e)
      case None => SplitFrom(s, p, q + 1)
  }

  function SplitWords(s: string): (r: seq<string>)
    ensures |r| >= 1
    ensures forall i :: 0 <= i < |r| ==> |r[i]| <= |s|
  {
    SplitFrom(s, 0, 0)
  }

  /** No separator starts anywhere in [q, |s|). */
  predicate NoSeparatorFrom(s: string, q: nat)
    requires q <= |s|
    decreases |s| - q
  {
    q == |s| || (SeparatorAt(s, q).None? && NoSeparatorFrom(s, q + 1))
  }

  /** Text without a backslash, '、' or '。' is one word, whatever white space
      it holds: the split does not separate words at spaces. */
  lemma {:induction false} SplitWithoutSeparator(s: string, p: nat, q: nat)
    requires p <= q <= |s|
    requires forall k :: q <= k < |s| ==> s[k] != '\\' && s[k] != '、' && s[k] != '。'
    ensures SplitFrom(s, p, q) == [s[p..]]
    decreases |s| - q
  {
    if q < |s| {
      SplitWithoutSeparator(s, p, q + 1);
    }
  }

  /** Two words match when both are longer than two characters and one
      contains the other. */
  predicate WordsMatch(w1: string, w2: string) {
    |w1| > 2 && |w2| > 2 && (Includes(w1, w2) || Includes(w2, w1))
  }

  /** `partialMatch(str1, str2)`: some word of one matches some word of the
      other. */
  function PartialMatch(str1: string, str2: string): (r: bool)
    ensures r ==> |str1| > 2 && |str2| > 2
  {
    exists i, j :: 0 <= i < |SplitWords(str1)| && 0 <= j < |SplitWords(str2)|
      && WordsMatch(SplitWords(str1)[i], SplitWords(str2)[j])
  }

  lemma PartialMatchSymmetric(str1: string, str2: string)
    ensures PartialMatch(str1, str2) <==> PartialMatch(str2, str1)
  {
    if PartialMatch(str1, str2) {
      var i, j :| 0 <= i < |SplitWords(str1)| && 0 <= j < |SplitWords(str2)|
        && WordsMatch(SplitWords(str1)[i], SplitWords(str2)[j]);
      assert WordsMatch(SplitWords(str2)[j], SplitWords(str1)[i]);
    }
    if PartialMatch(str2, str1) {
      var i, j :| 0 <= i < |SplitWords(str2)| && 0 <= j < |SplitWords(str1)|
        && WordsMatch(SplitWords(str2)[i], SplitWords(str1)[j]);
      assert WordsMatch(SplitWords(str1)[j], SplitWords(str2)[i]);
    }
  }

  /** Ordinary text (no backslash, '、' or '。') is compared as a whole: a
      partial match is then plain containment of strings longer than two. */
  lemma PartialMatchOfPlainText(str1: string, str2: string)
    requires forall k :: 0 <= k < |str1| ==> str1[k] != '\\' && str1[k] != '、' && str1[k] != '。'
    requires forall k :: 0 <= k < |str2| ==> str2[k] != '\\' && str2[k] != '、' && str2[k] != '。'
    ensures PartialMatch(str1, str2) <==> WordsMatch(str1, str2)
  {
    SplitWithoutSeparator(str1, 0, 0);
    SplitWithoutSeparator(str2, 0, 0);
    assert SplitWords(str1) == [str1];
    assert SplitWords(str2) == [str2];
    if WordsMatch(str1, str2) {
      assert WordsMatch(SplitWords(str1)[0], SplitWords(str2)[0]);
    }
  }

  // ---------------------------------------------------------------------------
  // extractNumber: str.match(/\\d+(\\.\\d+)?/)
  // ---------------------------------------------------------------------------

  /** The characters `.` does not match. */
  predicate IsLineTerminator(c: char) {
    c == '\n' || c == '\r' || c == '\U{2028}' || c == '\U{2029}'
  }

  /** Where the match that starts with the backslash at `i` ends: `\\d+`,
      then the optional `\\.\\d+` (a backslash, any character but a line
      terminator, a backslash and `d`s). */
  function NumberLiteralEnd(s: string, i: nat): (r: nat)
    requires OccursAt(s, "\\d", i)
    ensures i + 2 <= r <= |s|
  {
    assert s[i + 1] == "\\d"[1];
    if CharRunEnd(s, i + 1, 'd') + 3 < |s|
      && s[CharRunEnd(s, i + 1, 'd')] == '\\' && !IsLineTerminator(s[CharRunEnd(s, i + 1, 'd') + 1])
      && s[CharRunEnd(s, i + 1, 'd') + 2] == '\\' && s[CharRunEnd(s, i + 1, 'd') + 3] == 'd'
    then CharRunEnd(s, CharRunEnd(s, i + 1, 'd') + 3, 'd')
    else CharRunEnd(s, i + 1, 'd')
  }

  /**
   * `extractNumber(str)`: `None` for null (no match), `Some(None)` for NaN,
   * `Some(Some(v))` for a number.  The match is the leftmost backslash
   * followed by `d`, and `parseFloat` of text that starts with a backslash
   * is NaN, so the result is never a number.
   */
  function ExtractNumber(str: string): (r: Option<Option<real>>)
    ensures r.Some? <==> Includes(str, "\\d")
    ensures r.Some? ==> r.value.None?
  {
    IncludesIndexOf(str, "\\d");
    if IndexOf(str, "\\d") < 0 then None
    else
      var lit := str[IndexOf(str, "\\d")..NumberLiteralEnd(str, IndexOf(str, "\\d"))];
      assert str[IndexOf(str, "\\d")] == "\\d"[0];
      ParseFloatBackslash(lit);
      Some(ParseFloat(lit))
  }

  /** `parseFloat` reads no number from text that starts with a backslash. */
  lemma ParseFloatBackslash(s: string)
    requires |s| > 0 && s[0] == '\\'
    ensures ParseFloat(s) == None
  {
    assert TrimLeft(s) == s;
  }

  /** JavaScript truthiness of what `extractNumber` returns: null, NaN and
      0 are falsy. */
  predicate NumberTruthy(n: Option<Option<real>>) {
    n.Some? && n.value.Some? && n.value.value != 0.0
  }

  /** No text yields a truthy number. */
  lemma ExtractNumberNeverTruthy(str: string)
    ensures !NumberTruthy(ExtractNumber(str))
  {
  }

  // ---------------------------------------------------------------------------
  // evaluateTextSimilarity
  // ---------------------------------------------------------------------------

  /**
   * `evaluateTextSimilarity(str1, str2)` on the lower-cased strings: exact
   * when equal or the second contains the first, partial (0.7) when the
   * first contains the second or the words partially match, else none.
   */
  function EvaluateTextSimilarity(str1: string, str2: string): (r: Judgement)
    ensures Coherent(r)
    ensures ToLower(str1) == ToLower(str2) ==> r == Exact
    ensures r == Exact || r == PartialSeventy || r == NoMatch
  {
    if ToLower(str1) == ToLower(str2) || Includes(ToLower(str2), ToLower(str1)) then Exact
    else if Includes(ToLower(str1), ToLower(str2)) || PartialMatch(ToLower(str1), ToLower(str2)) then PartialSeventy
    else NoMatch
  }

  /** Containment in either direction always matches; only which side
      contains which decides between exact and partial. */
  lemma TextSimilarityContainment(str1: string, str2: string)
    ensures Includes(ToLower(str2), ToLower(str1)) ==> EvaluateTextSimilarity(str1, str2) == Exact
    ensures Includes(ToLower(str1), ToLower(str2)) ==> EvaluateTextSimilarity(str1, str2).matched
    ensures !EvaluateTextSimilarity(str1, str2).matched ==>
      !Includes(ToLower(str1), ToLower(str2)) && !Includes(ToLower(str2), ToLower(str1))
  {
  }

  /** Swapping the sides keeps whether the texts match. */
  lemma TextSimilaritySymmetricMatch(str1: string, str2: string)
    ensures EvaluateTextSimilarity(str1, str2).matched == EvaluateTextSimilarity(str2, str1).matched
  {
    PartialMatchSymmetric(ToLower(str1), ToLower(str2));
  }
}
