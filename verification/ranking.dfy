/**
 * The ordering steps of js/main.js: scoring candidate attributes by their
 * relevance to the entity's categories, the stable sort on that score, the
 * per-score caps, and the ordering of an entity's instance types from the
 * most specific to the most general.  JavaScript's `Array.prototype.sort`
 * is stable, so each sort is modelled as a stable sort on a small natural
 * key: all elements of key 0 in their original order, then key 1, and so on.
 */
module Ranking {
  import opened Base

  // ---------------------------------------------------------------------------
  // Stable sorting on a natural key
  // ---------------------------------------------------------------------------

  /** The elements whose key is `k`, in order. */
  function KeyFilter<T>(xs: seq<T>, key: T -> nat, k: nat): (r: seq<T>)
    ensures |r| <= |xs|
    ensures forall i :: 0 <= i < |r| ==> key(r[i]) == k
    ensures forall x :: x in r ==> x in xs
  {
    if xs == [] then []
    else (if key(xs[0]) == k then [xs[0]] else []) + KeyFilter(xs[1..], key, k)
  }

  /** The elements whose key lies in [lo, hi), in order. */
  function RangeFilter<T>(xs: seq<T>, key: T -> nat, lo: nat, hi: nat): seq<T> {
    if xs == [] then []
    else (if lo <= key(xs[0]) < hi then [xs[0]] else []) + RangeFilter(xs[1..], key, lo, hi)
  }

  /** The stable sort: the elements of key `lo`, then those of key `lo + 1`,
      up to `hi - 1`. */
  function BucketSort<T>(xs: seq<T>, key: T -> nat, lo: nat, hi: nat): (r: seq<T>)
    ensures forall i :: 0 <= i < |r| ==> lo <= key(r[i]) < hi
    decreases hi - lo
  {
    if lo >= hi then [] else KeyFilter(xs, key, lo) + BucketSort(xs, key, lo + 1, hi)
  }

  predicate SortedBy<T>(xs: seq<T>, key: T -> nat) {
    forall i, j :: 0 <= i < j < |xs| ==> key(xs[i]) <= key(xs[j])
  }

  lemma {:induction false} BucketSortSorted<T>(xs: seq<T>, key: T -> nat, lo: nat, hi: nat)
    ensures SortedBy(BucketSort(xs, key, lo, hi), key)
    decreases hi - lo
  {
    if lo < hi {
      var a := KeyFilter(xs, key, lo);
      var b := BucketSort(xs, key, lo + 1, hi);
      BucketSortSorted(xs, key, lo + 1, hi);
      var r := a + b;
      forall i, j | 0 <= i < j < |r|
        ensures key(r[i]) <= key(r[j])
      {
        if j >= |a| {
          assert r[j] == b[j - |a|];
          if i >= |a| {
            assert r[i] == b[i - |a|];
          }
        }
      }
    }
  }

  lemma {:induction false} RangeFilterSplit<T>(xs: seq<T>, key: T -> nat, lo: nat, hi: nat)
    requires lo < hi
    ensures multiset(RangeFilter(xs, key, lo, hi))
      == multiset(KeyFilter(xs, key, lo)) + multiset(RangeFilter(xs, key, lo + 1, hi))
  {
    if xs != [] {
      RangeFilterSplit(xs[1..], key, lo, hi);
    }
  }

  lemma {:induction false} BucketSortRange<T>(xs: seq<T>, key: T -> nat, lo: nat, hi: nat)
    ensures multiset(BucketSort(xs, key, lo, hi)) == multiset(RangeFilter(xs, key, lo, hi))
    decreases hi - lo
  {
    if lo < hi {
      BucketSortRange(xs, key, lo + 1, hi);
      RangeFilterSplit(xs, key, lo, hi);
    } else {
      RangeFilterEmpty(xs, key, lo, hi);
    }
  }

  lemma {:induction false} RangeFilterEmpty<T>(xs: seq<T>, key: T -> nat, lo: nat, hi: nat)
    requires hi <= lo
    ensures RangeFilter(xs, key, lo, hi) == []
  {
    if xs != [] {
      RangeFilterEmpty(xs[1..], key, lo, hi);
    }
  }

  lemma {:induction false} RangeFilterAll<T>(xs: seq<T>, key: T -> nat, lo: nat, hi: nat)
    requires forall i :: 0 <= i < |xs| ==> lo <= key(xs[i]) < hi
    ensures RangeFilter(xs, key, lo, hi) == xs
  {
    if xs != [] {
      assert lo <= key(xs[0]) < hi;
      RangeFilterAll(xs[1..], key, lo, hi);
    }
  }

  lemma {:induction false} KeyFilterAppend<T>(a: seq<T>, b: seq<T>, key: T -> nat, k: nat)
    ensures KeyFilter(a + b, key, k) == KeyFilter(a, key, k) + KeyFilter(b, key, k)
  {
    if a != [] {
      assert (a + b)[1..] == a[1..] + b;
      KeyFilterAppend(a[1..], b, key, k);
    } else {
      assert a + b == b;
    }
  }

  lemma {:induction false} KeyFilterNone<T>(xs: seq<T>, key: T -> nat, k: nat)
    requires forall i :: 0 <= i < |xs| ==> key(xs[i]) != k
    ensures KeyFilter(xs, key, k) == []
  {
    if xs != [] {
      assert key(xs[0]) != k;
      KeyFilterNone(xs[1..], key, k);
    }
  }

  lemma {:induction false} KeyFilterAll<T>(xs: seq<T>, key: T -> nat, k: nat)
    requires forall i :: 0 <= i < |xs| ==> key(xs[i]) == k
    ensures KeyFilter(xs, key, k) == xs
  {
    if xs != [] {
      assert key(xs[0]) == k;
      KeyFilterAll(xs[1..], key, k);
    }
  }

  /** Filtering by another key that singles out the same elements. */
  lemma {:induction false} KeyFilterSameClass<T>(xs: seq<T>, key1: T -> nat, k1: nat, key2: T -> nat, k2: nat)
    requires forall i :: 0 <= i < |xs| ==> (key1(xs[i]) == k1 <==> key2(xs[i]) == k2)
    ensures KeyFilter(xs, key1, k1) == KeyFilter(xs, key2, k2)
  {
    if xs != [] {
      assert key1(xs[0]) == k1 <==> key2(xs[0]) == k2;
      KeyFilterSameClass(xs[1..], key1, k1, key2, k2);
    }
  }

  /** Stability: the elements of any one key keep their relative order. */
  lemma {:induction false} BucketSortStable<T>(xs: seq<T>, key: T -> nat, lo: nat, hi: nat, k: nat)
    requires lo <= k < hi
    ensures KeyFilter(BucketSort(xs, key, lo, hi), key, k) == KeyFilter(xs, key, k)
    decreases hi - lo
  {
    var a := KeyFilter(xs, key, lo);
    var b := BucketSort(xs, key, lo + 1, hi);
    KeyFilterAppend(a, b, key, k);
    if k == lo {
      KeyFilterAll(a, key, k);
      KeyFilterNone(b, key, k);
    } else {
      KeyFilterNone(a, key, k);
      BucketSortStable(xs, key, lo + 1, hi, k);
    }
  }

  /** What the stable sort promises when every key lies in [lo, hi): the
      result is ordered by key, holds the same elements, and keeps the
      order of equal keys. */
  lemma BucketSortSpec<T>(xs: seq<T>, key: T -> nat, lo: nat, hi: nat)
    requires forall i :: 0 <= i < |xs| ==> lo <= key(xs[i]) < hi
    ensures SortedBy(BucketSort(xs, key, lo, hi), key)
    ensures multiset(BucketSort(xs, key, lo, hi)) == multiset(xs)
    ensures forall k :: lo <= k < hi ==> KeyFilter(BucketSort(xs, key, lo, hi), key, k) == KeyFilter(xs, key, k)
  {
    BucketSortSorted(xs, key, lo, hi);
    BucketSortRange(xs, key, lo, hi);
    RangeFilterAll(xs, key, lo, hi);
    forall k | lo <= k < hi
      ensures KeyFilter(BucketSort(xs, key, lo, hi), key, k) == KeyFilter(xs, key, k)
    {
      BucketSortStable(xs, key, lo, hi, k);
    }
  }

  /** `slice(0, n)`. */
  function Take<T>(xs: seq<T>, n: nat): (r: seq<T>)
    ensures |r| == if |xs| < n then |xs| else n
    ensures r == xs[..|r|]
  {
    if |xs| < n then xs else xs[..n]
  }

  // ---------------------------------------------------------------------------
  // filterByRelevance
  // ---------------------------------------------------------------------------

  /** The attribute keys a category ranks high, medium and low. */
  datatype Rules = Rules(high: seq<string>, medium: seq<string>, low: seq<string>)

  /** `relevanceRules[entityType] || relevanceRules.general`. */
  function RulesFor(category: string): Rules {
    if category == "education" then
      Rules(["inception", "location", "student_count", "faculty_count", "official_website", "country"],
            ["academic_discipline", "founded_by", "coordinate", "area", "population"],
            ["elevation", "revenue", "industry"])
    else if category == "organization" then
      Rules(["inception", "headquarters", "industry", "official_website", "country"],
            ["founded_by", "employees", "revenue", "location", "area"],
            ["coordinate", "elevation", "student_count", "academic_discipline"])
    else if category == "person" then
      Rules(["birth_date", "death_date", "occupation", "nationality", "country"],
            ["educated_at", "work_location", "notable_work", "location"],
            ["inception", "headquarters", "industry", "elevation"])
    else if category == "place" then
      Rules(["location", "country", "coordinate", "elevation", "area", "population"],
            ["inception", "official_website"],
            ["industry", "occupation", "student_count", "faculty_count"])
    else if category == "mountain" then
      Rules(["elevation", "location", "country", "coordinate"],
            ["area", "inception"],
            ["population", "industry", "official_website"])
    else if category == "building" then
      Rules(["inception", "location", "country", "coordinate", "elevation"],
            ["area", "official_website", "founded_by"],
            ["population", "industry", "student_count"])
    else if category == "creative" then
      Rules(["inception", "publication_date", "author", "director", "genre", "duration"],
            ["language", "country", "composer", "performer"],
            ["location", "elevation", "area", "population"])
    else
      Rules(["inception", "location", "country", "official_website"],
            ["coordinate", "area", "population"],
            [])
  }

  /** 3 for a high, 2 for a medium, 1 for a low attribute, else 0. */
  function TypeScore(category: string, attributeKey: string): (r: nat)
    ensures r <= 3
  {
    var rules := RulesFor(category);
    if attributeKey in rules.high then 3
    else if attributeKey in rules.medium then 2
    else if attributeKey in rules.low then 1
    else 0
  }

  /** The score follows the first list of the category's rules that names
      the attribute. */
  lemma TypeScoreSpec(category: string, attributeKey: string)
    ensures TypeScore(category, attributeKey) == 3 <==> attributeKey in RulesFor(category).high
    ensures TypeScore(category, attributeKey) == 2 <==>
      attributeKey !in RulesFor(category).high && attributeKey in RulesFor(category).medium
    ensures TypeScore(category, attributeKey) == 0 <==>
      attributeKey !in RulesFor(category).high + RulesFor(category).medium + RulesFor(category).low
  {
  }

  /** The scores one attribute gets from each category. */
  function CategoryScore(attributeKey: string): string -> nat {
    category => TypeScore(category, attributeKey)
  }

  /** The running `maxScore` and `bestCategory` after the first categories:
      a category replaces the best only with a strictly higher score. */
  function BestRelevance(scoreOf: string -> nat, categories: seq<string>): (nat, string)
    decreases |categories|
  {
    if categories == [] then (0, "general")
    else
      var n := |categories| - 1;
      var best := BestRelevance(scoreOf, categories[..n]);
      var score := scoreOf(categories[n]);
      if score > best.0 then (score, categories[n]) else best
  }

  /** Category `k` is the first to give `score`, none before it gives as much. */
  predicate FirstReaching(scoreOf: string -> nat, categories: seq<string>, k: nat, score: nat) {
    k < |categories| && scoreOf(categories[k]) == score && forall j :: 0 <= j < k ==> scoreOf(categories[j]) < score
  }

  /** The score is the highest any category gives (0 with none), and the
      best category is the first one reaching it ("general" at 0). */
  lemma {:induction false} BestRelevanceSpec(scoreOf: string -> nat, categories: seq<string>)
    ensures forall i :: 0 <= i < |categories| ==> scoreOf(categories[i]) <= BestRelevance(scoreOf, categories).0
    ensures BestRelevance(scoreOf, categories).0 == 0 ==> BestRelevance(scoreOf, categories).1 == "general"
    ensures var best := BestRelevance(scoreOf, categories);
      best.0 > 0 ==> exists k: nat :: FirstReaching(scoreOf, categories, k, best.0) && best.1 == categories[k]
    decreases |categories|
  {
    if categories != [] {
      var n := |categories| - 1;
      var init := categories[..n];
      BestRelevanceSpec(scoreOf, init);
      var best := BestRelevance(scoreOf, init);
      var score := scoreOf(categories[n]);
      assert forall i :: 0 <= i < n ==> categories[i] == init[i];
      if score > best.0 {
        assert FirstReaching(scoreOf, categories, n, score);
      } else if best.0 > 0 {
        var k: nat :| FirstReaching(scoreOf, init, k, best.0) && best.1 == init[k];
        assert FirstReaching(scoreOf, categories, k, best.0);
      }
    }
  }

  /** Every score of the table is at most 3, so the best one is too. */
  lemma {:induction false} BestRelevanceAtMostThree(attributeKey: string, categories: seq<string>)
    ensures BestRelevance(CategoryScore(attributeKey), categories).0 <= 3
    decreases |categories|
  {
    if categories != [] {
      BestRelevanceAtMostThree(attributeKey, categories[..|categories| - 1]);
    }
  }

  /** A candidate attribute: its key and its display name. */
  datatype Candidate = Candidate(key: string, name: string)

  /** A candidate with the score and category `filterByRelevance` adds. */
  datatype ScoredAttribute = ScoredAttribute(candidate: Candidate, relevanceScore: nat, bestCategory: string)

  function ScoreOf(candidate: Candidate, categories: seq<string>): ScoredAttribute {
    var best := BestRelevance(CategoryScore(candidate.key), categories);
    ScoredAttribute(candidate, best.0, best.1)
  }

  /** The `forEach` over the categories for one attribute. */
  method ScoreAttribute(candidate: Candidate, categories: seq<string>) returns (scored: ScoredAttribute)
    ensures scored == ScoreOf(candidate, categories)
  {
    var maxScore := 0;
    var bestCategory := "general";
    for i := 0 to |categories|
      invariant (maxScore, bestCategory) == BestRelevance(CategoryScore(candidate.key), categories[..i])
    {
      assert categories[..i + 1][..i] == categories[..i];
      var score := TypeScore(categories[i], candidate.key);
      if score > maxScore {
        maxScore := score;
        bestCategory := categories[i];
      }
    }
    assert categories[..|categories|] == categories;
    scored := ScoredAttribute(candidate, maxScore, bestCategory);
  }

  function Score(a: ScoredAttribute): nat {
    a.relevanceScore
  }

  /** The sort key of `(a, b) => b.relevanceScore - a.relevanceScore`:
      higher scores first. */
  function RelevanceKey(a: ScoredAttribute): nat {
    if a.relevanceScore >= 3 then 0 else 3 - a.relevanceScore
  }

  /** The stable sort by descending score. */
  function SortByRelevance(xs: seq<ScoredAttribute>): seq<ScoredAttribute> {
    BucketSort(xs, RelevanceKey, 0, 4)
  }

  predicate ScoresAtMostThree(xs: seq<ScoredAttribute>) {
    forall i :: 0 <= i < |xs| ==> xs[i].relevanceScore <= 3
  }

  lemma ScoreClass(xs: seq<ScoredAttribute>, s: nat)
    requires ScoresAtMostThree(xs) && s <= 3
    ensures KeyFilter(xs, Score, s) == KeyFilter(xs, RelevanceKey, 3 - s)
  {
    forall i | 0 <= i < |xs|
      ensures Score(xs[i]) == s <==> RelevanceKey(xs[i]) == 3 - s
    {
      assert xs[i].relevanceScore <= 3;
    }
    KeyFilterSameClass(xs, Score, s, RelevanceKey, 3 - s);
  }

  lemma PermutationKeepsBound(xs: seq<ScoredAttribute>, ys: seq<ScoredAttribute>)
    requires ScoresAtMostThree(xs) && multiset(ys) == multiset(xs)
    ensures ScoresAtMostThree(ys)
  {
    forall i | 0 <= i < |ys|
      ensures ys[i].relevanceScore <= 3
    {
      assert ys[i] in multiset(ys);
      var j :| 0 <= j < |xs| && xs[j] == ys[i];
    }
  }

  /** The sort orders by descending score, keeps every attribute, and keeps
      the order of attributes of equal score. */
  lemma SortByRelevanceSpec(xs: seq<ScoredAttribute>)
    requires ScoresAtMostThree(xs)
    ensures var r := SortByRelevance(xs);
      forall i, j :: 0 <= i < j < |r| ==> r[i].relevanceScore >= r[j].relevanceScore
    ensures multiset(SortByRelevance(xs)) == multiset(xs)
    ensures forall s: nat :: s <= 3 ==> KeyFilter(SortByRelevance(xs), Score, s) == KeyFilter(xs, Score, s)
  {
    var r := SortByRelevance(xs);
    BucketSortSpec(xs, RelevanceKey, 0, 4);
    PermutationKeepsBound(xs, r);
    forall i, j | 0 <= i < j < |r|
      ensures r[i].relevanceScore >= r[j].relevanceScore
    {
      assert RelevanceKey(r[i]) <= RelevanceKey(r[j]);
      assert r[i].relevanceScore <= 3 && r[j].relevanceScore <= 3;
    }
    forall s: nat | s <= 3
      ensures KeyFilter(r, Score, s) == KeyFilter(xs, Score, s)
    {
      ScoreClass(r, s);
      ScoreClass(xs, s);
    }
  }

  /** The scored attributes, in the input order. */
  function ScoreAll(attributes: seq<Candidate>, categories: seq<string>): (r: seq<ScoredAttribute>)
    ensures |r| == |attributes|
  {
    seq(|attributes|, i requires 0 <= i < |attributes| => ScoreOf(attributes[i], categories))
  }

  /** `filterByRelevance(attributes, entityTypes)`: each attribute scored,
      then the stable sort by descending score. */
  method FilterByRelevance(attributes: seq<Candidate>, categories: seq<string>) returns (r: seq<ScoredAttribute>)
    ensures r == SortByRelevance(ScoreAll(attributes, categories))
  {
    var scored: seq<ScoredAttribute> := [];
    for i := 0 to |attributes|
      invariant |scored| == i
      invariant forall j :: 0 <= j < i ==> scored[j] == ScoreOf(attributes[j], categories)
    {
      var s := ScoreAttribute(attributes[i], categories);
      scored := scored + [s];
    }
    assert scored == ScoreAll(attributes, categories);
    r := SortByRelevance(scored);
  }

  /** Each attribute's score is the best its categories give, at most 3. */
  lemma ScoreAllSpec(attributes: seq<Candidate>, categories: seq<string>)
    ensures ScoresAtMostThree(ScoreAll(attributes, categories))
    ensures forall a :: a in ScoreAll(attributes, categories) ==>
      a.candidate in attributes && forall c :: c in categories ==> CategoryScore(a.candidate.key)(c) <= a.relevanceScore
  {
    var xs := ScoreAll(attributes, categories);
    forall i | 0 <= i < |xs|
      ensures xs[i].relevanceScore <= 3 && xs[i].candidate == attributes[i]
      ensures forall c :: c in categories ==> CategoryScore(xs[i].candidate.key)(c) <= xs[i].relevanceScore
    {
      BestRelevanceAtMostThree(attributes[i].key, categories);
      BestRelevanceSpec(CategoryScore(attributes[i].key), categories);
    }
  }

  /** What `filterByRelevance` returns: every attribute once, ordered by
      descending score, each with the best score any of the categories
      gives it. */
  lemma FilterByRelevanceSpec(attributes: seq<Candidate>, categories: seq<string>)
    ensures var r := SortByRelevance(ScoreAll(attributes, categories));
      forall i, j :: 0 <= i < j < |r| ==> r[i].relevanceScore >= r[j].relevanceScore
    ensures multiset(SortByRelevance(ScoreAll(attributes, categories))) == multiset(ScoreAll(attributes, categories))
    ensures forall a :: a in SortByRelevance(ScoreAll(attributes, categories)) ==>
      a.candidate in attributes && forall c :: c in categories ==> CategoryScore(a.candidate.key)(c) <= a.relevanceScore
  {
    var xs := ScoreAll(attributes, categories);
    ScoreAllSpec(attributes, categories);
    SortByRelevanceSpec(xs);
    var r := SortByRelevance(xs);
    forall a | a in r
      ensures a in xs
    {
      assert a in multiset(xs);
    }
  }

  // ---------------------------------------------------------------------------
  // prioritizeAndLimit
  // ---------------------------------------------------------------------------

  const MaxHigh := 8
  const MaxMedium := 4
  const MaxLow := 2

  /** `prioritizeAndLimit(attributes)`: up to 8 attributes of score 3, then
      up to 4 of score 2, then up to 2 of score 1, each group in input
      order; attributes of score 0 are dropped. */
  function PrioritizeAndLimit(attributes: seq<ScoredAttribute>): (r: seq<ScoredAttribute>)
    ensures |r| <= MaxHigh + MaxMedium + MaxLow
    ensures forall i :: 0 <= i < |r| ==> 1 <= r[i].relevanceScore <= 3 && r[i] in attributes
    ensures forall i, j :: 0 <= i < j < |r| ==> r[i].relevanceScore >= r[j].relevanceScore
  {
    var high := Take(KeyFilter(attributes, Score, 3), MaxHigh);
    var medium := Take(KeyFilter(attributes, Score, 2), MaxMedium);
    var low := Take(KeyFilter(attributes, Score, 1), MaxLow);
    ThreeGroups(attributes, high, medium, low);
    high + medium + low
  }

  lemma ThreeGroups(attributes: seq<ScoredAttribute>, high: seq<ScoredAttribute>, medium: seq<ScoredAttribute>,
                    low: seq<ScoredAttribute>)
    requires high == Take(KeyFilter(attributes, Score, 3), MaxHigh)
    requires medium == Take(KeyFilter(attributes, Score, 2), MaxMedium)
    requires low == Take(KeyFilter(attributes, Score, 1), MaxLow)
    ensures var r := high + medium + low;
      forall i :: 0 <= i < |r| ==> 1 <= r[i].relevanceScore <= 3 && r[i] in attributes
    ensures var r := high + medium + low;
      forall i, j :: 0 <= i < j < |r| ==> r[i].relevanceScore >= r[j].relevanceScore
  {
    var r := high + medium + low;
    var m := |high| + |medium|;
    forall i | 0 <= i < |r|
      ensures r[i].relevanceScore == (if i < |high| then 3 else if i < m then 2 else 1)
      ensures r[i] in attributes
    {
      if i < |high| {
        assert r[i] == high[i] == KeyFilter(attributes, Score, 3)[i];
      } else if i < m {
        assert r[i] == medium[i - |high|] == KeyFilter(attributes, Score, 2)[i - |high|];
      } else {
        assert r[i] == low[i - m] == KeyFilter(attributes, Score, 1)[i - m];
      }
    }
  }

  /** Filtering three groups of scores 3, 2 and 1 by one score gives that
      score's group. */
  lemma {:induction false} GroupOfScore(high: seq<ScoredAttribute>, medium: seq<ScoredAttribute>,
                                        low: seq<ScoredAttribute>, s: nat)
    requires forall i :: 0 <= i < |high| ==> Score(high[i]) == 3
    requires forall i :: 0 <= i < |medium| ==> Score(medium[i]) == 2
    requires forall i :: 0 <= i < |low| ==> Score(low[i]) == 1
    requires 1 <= s <= 3
    ensures KeyFilter(high + medium + low, Score, s) == if s == 3 then high else if s == 2 then medium else low
  {
    KeyFilterAppend(high + medium, low, Score, s);
    KeyFilterAppend(high, medium, Score, s);
    if s == 3 {
      KeyFilterAll(high, Score, s);
      KeyFilterNone(medium, Score, s);
      KeyFilterNone(low, Score, s);
    } else if s == 2 {
      KeyFilterNone(high, Score, s);
      KeyFilterAll(medium, Score, s);
      KeyFilterNone(low, Score, s);
    } else {
      KeyFilterNone(high, Score, s);
      KeyFilterNone(medium, Score, s);
      KeyFilterAll(low, Score, s);
    }
  }

  /** Each group keeps as many attributes of its score as the cap allows,
      the first ones in input order. */
  lemma PrioritizeAndLimitCounts(attributes: seq<ScoredAttribute>)
    ensures KeyFilter(PrioritizeAndLimit(attributes), Score, 3) == Take(KeyFilter(attributes, Score, 3), MaxHigh)
    ensures KeyFilter(PrioritizeAndLimit(attributes), Score, 2) == Take(KeyFilter(attributes, Score, 2), MaxMedium)
    ensures KeyFilter(PrioritizeAndLimit(attributes), Score, 1) == Take(KeyFilter(attributes, Score, 1), MaxLow)
  {
    var high := Take(KeyFilter(attributes, Score, 3), MaxHigh);
    var medium := Take(KeyFilter(attributes, Score, 2), MaxMedium);
    var low := Take(KeyFilter(attributes, Score, 1), MaxLow);
    assert PrioritizeAndLimit(attributes) == high + medium + low;
    GroupOfScore(high, medium, low, 3);
    GroupOfScore(high, medium, low, 2);
    GroupOfScore(high, medium, low, 1);
  }

  /** Sorting first changes nothing: the caps see the same attributes of each
      score in the same order, so `prioritizeAndLimit` after
      `filterByRelevance` picks what it would pick from the unsorted list. */
  lemma PrioritizeAfterSort(xs: seq<ScoredAttribute>)
    requires ScoresAtMostThree(xs)
    ensures PrioritizeAndLimit(SortByRelevance(xs)) == PrioritizeAndLimit(xs)
  {
    SortByRelevanceSpec(xs);
  }

  // ---------------------------------------------------------------------------
  // prioritizeEntityTypes
  // ---------------------------------------------------------------------------

  /** The types from the most specific company kinds to the general ones. */
  const PriorityOrder := ["Q786820", "Q18388277", "Q1137109", "Q319913", "Q891723", "Q161726",
                          "Q4830453", "Q3918", "Q5", "Q515", "Q6256", "Q8502", "Q4022",
                          "Q11424", "Q571", "Q2188189", "Q7397"]

  const UnlistedRank := 1000

  function RankFrom(t: string, i: nat): (r: nat)
    requires i <= |PriorityOrder|
    ensures r == UnlistedRank || (i <= r < |PriorityOrder| && PriorityOrder[r] == t)
    ensures forall j :: i <= j < |PriorityOrder| && j < r ==> PriorityOrder[j] != t
    decreases |PriorityOrder| - i
  {
    if i == |PriorityOrder| then UnlistedRank
    else if PriorityOrder[i] == t then i
    else RankFrom(t, i + 1)
  }

  /** `priorityOrder.indexOf(t)`, with 1000 for a type not listed. */
  function Rank(t: string): (r: nat)
    ensures r == UnlistedRank <==> t !in PriorityOrder
    ensures r != UnlistedRank ==> r < |PriorityOrder| && PriorityOrder[r] == t
    ensures forall j :: 0 <= j < |PriorityOrder| && j < r ==> PriorityOrder[j] != t
  {
    RankFrom(t, 0)
  }

  /** The stable sort by rank. */
  function Prioritized(types: seq<string>): seq<string> {
    BucketSort(types, Rank, 0, UnlistedRank + 1)
  }

  /** The sorted types: every type kept, listed types first in the order of
      the list, types of equal rank (equal ids, or unlisted ones) in their
      original order. */
  lemma PrioritizedSpec(types: seq<string>)
    ensures multiset(Prioritized(types)) == multiset(types)
    ensures var r := Prioritized(types);
      forall i, j :: 0 <= i < j < |r| ==> Rank(r[i]) <= Rank(r[j])
    ensures KeyFilter(Prioritized(types), Rank, UnlistedRank) == KeyFilter(types, Rank, UnlistedRank)
  {
    BucketSortSpec(types, Rank, 0, UnlistedRank + 1);
  }

  /** `prioritizeEntityTypes(instanceTypes)`: the list is sorted in place. */
  method PrioritizeEntityTypes(instanceTypes: array<string>)
    modifies instanceTypes
    ensures instanceTypes[..] == Prioritized(old(instanceTypes[..]))
  {
    var sorted := Prioritized(instanceTypes[..]);
    PrioritizedLength(instanceTypes[..]);
    for i := 0 to instanceTypes.Length
      invariant forall j :: 0 <= j < i ==> instanceTypes[j] == sorted[j]
    {
      instanceTypes[i] := sorted[i];
    }
    assert instanceTypes[..] == sorted;
  }

  /** Sorting keeps the number of types. */
  lemma PrioritizedLength(types: seq<string>)
    ensures |Prioritized(types)| == |types|
  {
    PrioritizedSpec(types);
    assert |multiset(Prioritized(types))| == |multiset(types)|;
  }
}
