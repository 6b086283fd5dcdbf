/**
 * Person names in the older evaluator (js/main.js): the Levenshtein
 * distance, the similarity test built on it, the extraction of candidate
 * names from an answer, and `evaluatePersonName`.
 */
module PersonNames {
  import opened Base
  import opened JsText
  import opened Scanning
  import opened TextMatching

  // ---------------------------------------------------------------------------
  // Levenshtein distance
  // ---------------------------------------------------------------------------

  function Min3(a: nat, b: nat, c: nat): (r: nat)
    ensures r <= a && r <= b && r <= c
    ensures r == a || r == b || r == c
  {
    if a <= b && a <= c then a else if b <= c then b else c
  }

  function Max(a: nat, b: nat): nat { if a >= b then a else b }

  /**
   * The edit distance of two strings: the number of single-character
   * deletions, insertions and substitutions that turn one into the other,
   * by the recurrence on the last characters.  It is at least the
   * difference of the lengths and at most the longer length.
   */
  function EditDistance(s: string, t: string): (r: nat)
    ensures r <= Max(|s|, |t|)
    ensures |s| <= |t| + r && |t| <= |s| + r
    decreases |s| + |t|
  {
    if |s| == 0 then |t|
    else if |t| == 0 then |s|
    else Min3(EditDistance(s[..|s| - 1], t) + 1,
              EditDistance(s, t[..|t| - 1]) + 1,
              EditDistance(s[..|s| - 1], t[..|t| - 1]) + (if s[|s| - 1] == t[|t| - 1] then 0 else 1))
  }

  lemma {:induction false} EditDistanceSelf(s: string)
    ensures EditDistance(s, s) == 0
    decreases |s|
  {
    if |s| > 0 {
      EditDistanceSelf(s[..|s| - 1]);
    }
  }

  lemma {:induction false} EditDistanceSymmetric(s: string, t: string)
    ensures EditDistance(s, t) == EditDistance(t, s)
    decreases |s| + |t|
  {
    if |s| > 0 && |t| > 0 {
      EditDistanceSymmetric(s[..|s| - 1], t);
      EditDistanceSymmetric(s, t[..|t| - 1]);
      EditDistanceSymmetric(s[..|s| - 1], t[..|t| - 1]);
    }
  }

  /** Against the empty string the distance is the other length. */
  lemma EditDistanceEmpty(s: string)
    ensures EditDistance(s, "") == |s| && EditDistance("", s) == |s|
  {
  }

  /** What entry `[i, j]` of the matrix holds: the distance of the prefixes
      of lengths `i` and `j`. */
  function PrefixDistance(s: string, t: string, i: nat, j: nat): nat
    requires i <= |s| && j <= |t|
  {
    EditDistance(s[..i], t[..j])
  }

  /**
   * `levenshteinDistance(str1, str2)`: fills the `(len1 + 1) x (len2 + 1)`
   * matrix, first column and first row, then row by row, entry `[i, j]`
   * holding the distance of the first `i` characters of `str1` and the
   * first `j` of `str2`.
   */
  method LevenshteinDistance(str1: string, str2: string) returns (d: nat)
    ensures d == EditDistance(str1, str2)
  {
    var len1 := |str1|;
    var len2 := |str2|;
    var matrix := new nat[len1 + 1, len2 + 1];
    for i := 0 to len1 + 1
      invariant forall i' :: 0 <= i' < i ==> matrix[i', 0] == i'
    {
      matrix[i, 0] := i;
    }
    for j := 1 to len2 + 1
      invariant forall i' :: 0 <= i' <= len1 ==> matrix[i', 0] == i'
      invariant forall j' :: 1 <= j' < j ==> matrix[0, j'] == j'
    {
      matrix[0, j] := j;
    }
    forall j' | 0 <= j' <= len2
      ensures matrix[0, j'] == PrefixDistance(str1, str2, 0, j')
    {
    }
    for i := 1 to len1 + 1
      invariant forall i', j' :: 0 <= i' < i && 0 <= j' <= len2 ==> matrix[i', j'] == PrefixDistance(str1, str2, i', j')
      invariant forall i' :: i <= i' <= len1 ==> matrix[i', 0] == i'
    {
      FillRow(matrix, str1, str2, i);
    }
    assert matrix[len1, len2] == PrefixDistance(str1, str2, len1, len2);
    assert str1[..len1] == str1 && str2[..len2] == str2;
    d := matrix[len1, len2];
  }

  /** The inner loop of `levenshteinDistance`: row `i`, from column 1 on,
      from the rows above it.  No other row changes. */
  method FillRow(matrix: array2<nat>, str1: string, str2: string, i: nat)
    requires 1 <= i <= |str1|
    requires matrix.Length0 == |str1| + 1 && matrix.Length1 == |str2| + 1
    requires forall a, b :: 0 <= a < i && 0 <= b <= |str2| ==> matrix[a, b] == PrefixDistance(str1, str2, a, b)
    requires matrix[i, 0] == i
    modifies matrix
    ensures forall j' :: 0 <= j' <= |str2| ==> matrix[i, j'] == PrefixDistance(str1, str2, i, j')
    ensures forall a, b :: 0 <= a <= |str1| && 0 <= b <= |str2| && a != i ==> matrix[a, b] == old(matrix[a, b])
  {
    assert matrix[i, 0] == PrefixDistance(str1, str2, i, 0);
    for j := 1 to |str2| + 1
      invariant forall j' :: 0 <= j' < j ==> matrix[i, j'] == PrefixDistance(str1, str2, i, j')
      invariant forall a, b :: 0 <= a <= |str1| && 0 <= b <= |str2| && a != i ==> matrix[a, b] == old(matrix[a, b])
    {
      var cost := if str1[i - 1] == str2[j - 1] then 0 else 1;
      var up, left, diagonal := matrix[i - 1, j], matrix[i, j - 1], matrix[i - 1, j - 1];
      assert up == PrefixDistance(str1, str2, i - 1, j);
      assert left == PrefixDistance(str1, str2, i, j - 1);
      assert diagonal == PrefixDistance(str1, str2, i - 1, j - 1);
      LastStep(str1, str2, i, j);
      matrix[i, j] := Min3(up + 1, left + 1, diagonal + cost);
    }
  }

  /** The recurrence in terms of the prefixes the matrix indexes. */
  lemma LastStep(s: string, t: string, i: nat, j: nat)
    requires 1 <= i <= |s| && 1 <= j <= |t|
    ensures PrefixDistance(s, t, i, j) ==
      Min3(PrefixDistance(s, t, i - 1, j) + 1,
           PrefixDistance(s, t, i, j - 1) + 1,
           PrefixDistance(s, t, i - 1, j - 1) + (if s[i - 1] == t[j - 1] then 0 else 1))
  {
    assert s[..i][..i - 1] == s[..i - 1];
    assert t[..j][..j - 1] == t[..j - 1];
  }

  // ---------------------------------------------------------------------------
  // isPersonNameSimilar
  // ---------------------------------------------------------------------------

  predicate NotSpace(c: char) { !IsSpace(c) }

  /** `name.toLowerCase().replace(/\s+/g, '')`. */
  function Squeezed(name: string): (r: string)
    ensures forall k :: 0 <= k < |r| ==> !IsSpace(r[k])
  {
    Keep(ToLower(name), NotSpace)
  }

  /**
   * `isPersonNameSimilar(name1, name2)`: the squeezed names contain one
   * another, or their edit distance is at most 30% of the longer one.  The
   * ratio is only formed when neither name is empty, since the empty name
   * is contained in every name.
   */
  function IsPersonNameSimilar(name1: string, name2: string): (r: bool)
    ensures Includes(Squeezed(name1), Squeezed(name2)) || Includes(Squeezed(name2), Squeezed(name1)) ==> r
    ensures Squeezed(name1) == [] || Squeezed(name2) == [] ==> r
  {
    IncludesEmpty(Squeezed(name1));
    IncludesEmpty(Squeezed(name2));
    if Includes(Squeezed(name1), Squeezed(name2)) || Includes(Squeezed(name2), Squeezed(name1)) then true
    else
      IncludesEmpty(Squeezed(name1));
      ((Max(|Squeezed(name1)|, |Squeezed(name2)|) - EditDistance(Squeezed(name1), Squeezed(name2))) as real)
        / (Max(|Squeezed(name1)|, |Squeezed(name2)|) as real) >= 0.7
  }

  /** Containment of the squeezed names is enough, and the test does not
      depend on the order of its arguments. */
  lemma PersonNameSimilarity(name1: string, name2: string)
    ensures Includes(Squeezed(name1), Squeezed(name2)) ==> IsPersonNameSimilar(name1, name2)
    ensures IsPersonNameSimilar(name1, name2) == IsPersonNameSimilar(name2, name1)
    ensures IsPersonNameSimilar(name1, name1)
  {
    EditDistanceSymmetric(Squeezed(name1), Squeezed(name2));
    IncludesSelf(Squeezed(name1));
  }

  /** Without containment, similarity is an edit distance of at most 30% of
      the longer squeezed name. */
  lemma SimilarByDistance(name1: string, name2: string)
    requires !Includes(Squeezed(name1), Squeezed(name2)) && !Includes(Squeezed(name2), Squeezed(name1))
    ensures IsPersonNameSimilar(name1, name2) <==>
      10 * EditDistance(Squeezed(name1), Squeezed(name2)) <= 3 * Max(|Squeezed(name1)|, |Squeezed(name2)|)
  {
    IncludesEmpty(Squeezed(name1));
    var m := Max(|Squeezed(name1)|, |Squeezed(name2)|);
    var d := EditDistance(Squeezed(name1), Squeezed(name2));
    RatioAtLeastSeventy((m - d) as real, m as real);
  }

  lemma RatioAtLeastSeventy(a: real, m: real)
    requires m > 0.0
    ensures a / m >= 0.7 <==> 10.0 * a >= 7.0 * m
  {
    var q := a / m;
    assert q * m == a;
    if q >= 0.7 {
      assert q * m >= 0.7 * m;
    } else {
      assert q * m < 0.7 * m;
    }
  }

  // ---------------------------------------------------------------------------
  // extractPersonNames
  // ---------------------------------------------------------------------------

  /** `([一-龯ひらがなカタカナ]{2,4})\s*[（(]\s*([ひらがなカタカナ\s]+)\s*[）)]`. */
  const NameWithKanaReading := Run(NameChar, 2, 4, Reading(ReadingKana), false)
  /** `([一-龯]{2,4})\s*[（(]\s*([一-龯ひらがなカタカナ\s]+)\s*[）)]`. */
  const KanjiNameWithReading := Run(Kanji, 2, 4, Reading(ReadingAny), false)
  /** `([一-龯ひらがなカタカナ]{2,6})`. */
  const PlainJapaneseName := Run(NameChar, 2, 6, Nothing, false)

  const JapaneseNamePatterns := [NameWithKanaReading, KanjiNameWithReading, PlainJapaneseName]

  /** What `extractPersonNames(text)` returns. */
  function PersonNamesOf(text: string): seq<string> {
    if text == "" then []
    else SetAddAll(CapturesOfAll(text, JapaneseNamePatterns), Captures(text, WesternName, true, 0))
  }

  /** `extractPersonNames(text)`: the three Japanese patterns, then the
      Western one, into one insertion-ordered set. */
  method ExtractPersonNames(text: string) returns (names: seq<string>)
    ensures names == PersonNamesOf(text)
  {
    names := [];
    if text == "" {
      return;
    }
    names := CollectAll(text, JapaneseNamePatterns);
    names := CollectMatches(text, WesternName, true, names);
  }

  /** The extracted names are distinct and each occurs in the text. */
  lemma PersonNamesSpec(text: string)
    ensures Distinct(PersonNamesOf(text))
    ensures forall c :: c in PersonNamesOf(text) ==> Includes(text, c)
  {
    if text != "" {
      CapturesOfAllSpec(text, JapaneseNamePatterns);
      SetAddAllSpec(CapturesOfAll(text, JapaneseNamePatterns), Captures(text, WesternName, true, 0));
      CapturesInText(text, WesternName, true);
    }
  }

  // ---------------------------------------------------------------------------
  // evaluatePersonName
  // ---------------------------------------------------------------------------

  const SimilarName := Judgement(true, TypePartial, 0.9)

  /** The loop over the extracted names: the first name equal to the
      reference gives an exact judgement, the first similar one 0.9. */
  function NameHit(names: seq<string>, reference: string): (r: Option<Judgement>)
    ensures r.Some? ==> r.value == Exact || r.value == SimilarName
    ensures r.None? <==> forall k :: 0 <= k < |names| ==> !IsPersonNameSimilar(reference, names[k])
  {
    if names == [] then None
    else if names[0] == reference then
      PersonNameSimilarity(reference, reference);
      Some(Exact)
    else if IsPersonNameSimilar(reference, names[0]) then Some(SimilarName)
    else NameHit(names[1..], reference)
  }

  /**
   * `evaluatePersonName(wikidataAnswer, llmAnswer)` on the trimmed strings:
   * exact when equal; else the first extracted name that equals or
   * resembles the reference; else the plain text comparison.
   */
  function EvaluatePersonName(wiki: string, llm: string): (r: Judgement)
    ensures Coherent(r)
    ensures Trim(wiki) == Trim(llm) ==> r == Exact
    ensures r.matched <==>
      NameHit(PersonNamesOf(Trim(llm)), Trim(wiki)).Some? || EvaluateTextSimilarity(Trim(wiki), Trim(llm)).matched
    ensures Trim(wiki) != Trim(llm) && NameHit(PersonNamesOf(Trim(llm)), Trim(wiki)).Some? ==>
      r == NameHit(PersonNamesOf(Trim(llm)), Trim(wiki)).value
    ensures Trim(wiki) != Trim(llm) && NameHit(PersonNamesOf(Trim(llm)), Trim(wiki)).None? ==>
      r == EvaluateTextSimilarity(Trim(wiki), Trim(llm))
  {
    JudgeAmong(Trim(wiki), Trim(llm), PersonNamesOf(Trim(llm)))
  }

  /** The judgement of `reference` against `answer` given the names
      extracted from `answer`. */
  function JudgeAmong(reference: string, answer: string, names: seq<string>): (r: Judgement)
    ensures Coherent(r)
    ensures reference == answer ==> r == Exact
    ensures r.matched <==>
      NameHit(names, reference).Some? || EvaluateTextSimilarity(reference, answer).matched
    ensures reference != answer && NameHit(names, reference).Some? ==> r == NameHit(names, reference).value
    ensures reference != answer && NameHit(names, reference).None? ==> r == EvaluateTextSimilarity(reference, answer)
  {
    if reference == answer then Exact
    else match NameHit(names, reference)
      case Some(j) => j
      case None => EvaluateTextSimilarity(reference, answer)
  }

  /** An answer that contains the reference name (ignoring case) matches. */
  lemma ContainedNameMatches(wiki: string, llm: string)
    requires Includes(ToLower(Trim(llm)), ToLower(Trim(wiki)))
    ensures EvaluatePersonName(wiki, llm).matched
  {
    TextSimilarityContainment(Trim(wiki), Trim(llm));
  }

  /** An extracted name equal to the reference makes the judgement exact
      when no earlier extracted name merely resembles it. */
  lemma ExtractedNameExact(wiki: string, llm: string, k: nat)
    requires Trim(wiki) != Trim(llm)
    requires k < |PersonNamesOf(Trim(llm))| && PersonNamesOf(Trim(llm))[k] == Trim(wiki)
    requires forall i :: 0 <= i < k ==> !IsPersonNameSimilar(Trim(wiki), PersonNamesOf(Trim(llm))[i])
    ensures EvaluatePersonName(wiki, llm) == Exact
  {
    FirstHit(PersonNamesOf(Trim(llm)), Trim(wiki), k);
  }

  lemma FirstHit(names: seq<string>, reference: string, k: nat)
    requires k < |names| && names[k] == reference
    requires forall i :: 0 <= i < k ==> !IsPersonNameSimilar(reference, names[i])
    ensures NameHit(names, reference) == Some(Exact)
  {
    PersonNameSimilarity(reference, reference);
    NameHitFirst(names, reference, k);
  }

  /** The first extracted name that resembles the reference decides: exact
      when it is the reference itself, 0.9 otherwise. */
  lemma {:induction false} NameHitFirst(names: seq<string>, reference: string, k: nat)
    requires k < |names| && IsPersonNameSimilar(reference, names[k])
    requires forall i :: 0 <= i < k ==> !IsPersonNameSimilar(reference, names[i])
    ensures NameHit(names, reference) == Some(if names[k] == reference then Exact else SimilarName)
    decreases k
  {
    PersonNameSimilarity(reference, reference);
    if k > 0 {
      assert !IsPersonNameSimilar(reference, names[0]);
      assert names[0] != reference;
      NameHitFirst(names[1..], reference, k - 1);
    }
  }
}
