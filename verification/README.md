# Answer evaluation of the Wikidata/LLM fact checker

This project models the part of the fact checker that judges an answer. It
takes a reference value from Wikidata and a free-text answer from a language
model, and returns a verdict: a score, a status, a '○'/'△'/'×' match mark and a
confidence. The model also covers the text utilities around that judgement
and the in-memory state kept between requests.

The model covers:

- **The live pipeline of `js/main.js`** (`live_eval.dfy`, `location.dfy`):
  - the missing-value gate;
  - the extraction of a factual value from the answer;
  - normalisation;
  - the comparison by attribute, with the domain comparison for websites;
  - the Japanese address hierarchy: 〒 postcode, then 都道府県, 郡 and 市区町村.
- **The older evaluator `evaluateAnswer` of `js/main.js`** (`legacy_eval.dfy`):
  - person names with the Levenshtein distance (`person_names.dfy`);
  - place names with their real-valued score (`places.dfy`);
  - URLs (`url_eval.dfy`);
  - the string and number helpers (`text_match.dfy`);
  - the regular expressions, written as scanners (`scan.dfy`).
- **The reduced evaluator of `js/main-refactored.js`** (`refactored_eval.dfy`): scores 100/70/0, plus the attribute recommendation and prompt building.
- **The Wikidata helpers of `js/wikidata-api.js`** (`wikidata_api.dfy`): time formatting, comma strings, SPARQL text, result flattening and the entity-type filter.
- **The OpenAI helpers of `js/openai-api.js`** (`openai_api.dfy`): key check and answer parsing.
- **The usage counters** shared by `js/main.js` and `js/openai-api.js` (`usage.dfy`), as a class.
- **The remaining `js/main.js` utilities**:
  - key check, header sanitising, CSV quoting and the bounded history (`main_utils.dfy`);
  - attribute ranking and entity-type ordering (`ranking.dfy`).
- **The JavaScript string primitives** all of the above rely on (`js_text.dfy`).

Several behaviours are kept exactly as written, because the code does not do
what its comments suggest:

- `[ひらがなカタカナ]` is a set of seven characters, not the two kana scripts.
- The doubled backslashes in `extractNumber` and `partialMatch` match a literal backslash. As a result, the numeric tolerance branch of `evaluateAnswer` is never taken for ordinary text (`LegacyEvaluation.NumericAttributesCompareAsStrings`).
- The containment test of `compareLocations` compares an object with 0. It never passes, so 95 is never returned.
- The 85-point hierarchical city match is dead code: it answers only when the municipalities already match exactly, and then the 90-point check has answered first (`LocationHierarchy.CheckHierarchicalCityMatch`).
- The two `validateApiKey` functions differ. A 40-character "sk-" key passes the one in `js/openai-api.js` and fails the one in `js/main.js` (`MainUtilities.ShortLegacyKeyRejected`).
- The white-space test of the `js/main.js` key check is unreachable (`MainUtilities.WhitespaceCheckUnreachable`).
- The second, control-character pass of `sanitizeHeaderValue` removes nothing (`MainUtilities.ControlPassIsRedundant`).

Where the code works by changing things step by step, the model does the same:

- Loops become methods with `while`/`for` loops. Each is proved equal to a specification function, and the properties are lemmas about that function.
- Objects updated in place become classes: the usage record and the history list.

## Model

| member | source | states |
|---|---|---|
| JsText.TrimSpec | js/main.js:4067 | `trim()` keeps the stretch between the leading and the trailing white space: every dropped character is white space, and the result neither starts nor ends with white space |
| JsText.TrimIdempotent | js/main.js:4146-4147 | trimming twice is trimming once |
| JsText.TrimToLowerCommute | js/main.js:4146-4147 | lower-casing and trimming commute |
| JsText.IncludesIndexOf | js/main-refactored.js:326-336 | `includes` holds exactly when `indexOf` finds a position |
| JsText.IncludesTransitive | js/main.js:4211 | containment is transitive |
| JsText.SplitJoin | js/wikidata-api.js:306-312 | splitting a join of separator-free parts gives the parts back |
| JsText.FirstYearOfYear | js/main.js:4074-4075 | the first four-digit run of a four-digit year is the year |
| JsText.SetAddAllSpec | js/main-refactored.js:175-194 | adding to a `Set` keeps the elements distinct, and holds exactly the old and the added elements |
| JsText.SetAddAllOrder | js/main-refactored.js:175-194 | insertion order: the old elements stay first and in order, and each new element follows them in the order of its first occurrence among the added ones |
| Scanning.TryRunGreedy | js/main.js:959-988 | a greedy bounded quantifier takes the longest run after which the rest of the pattern matches |
| Scanning.ExecFrom | js/main.js:959-988 | a match found by `exec` from `lastIndex` lies at or after it, inside the text, with its group inside the match |
| Scanning.CollectMatches | js/main.js:970-986 | the `while (exec)` loop collects the trimmed capture of every successive match, as the specification function lists them |
| Scanning.CapturesOfAllSpec | js/main.js:1142-1179 | the names collected by all patterns are distinct and each occurs in the text |
| TextMatching.SplitWithoutSeparator | js/main.js:2718-2719 | text without a backslash, '、' or '。' is not split at all: the pattern's `\\s` is a literal backslash |
| TextMatching.PartialMatchSymmetric | js/main.js:2716-2727 | `partialMatch` does not depend on the order of its arguments |
| TextMatching.PartialMatchOfPlainText | js/main.js:2716-2727 | on ordinary text a partial match is containment of strings longer than two characters |
| TextMatching.PartialMatch | js/main.js:2716-2727 | a partial match needs both texts longer than two characters |
| TextMatching.ExtractNumber | js/main.js:2711-2714 | `extractNumber` finds a match only at a backslash followed by 'd', and then yields NaN |
| TextMatching.ExtractNumberNeverTruthy | js/main.js:2711-2714 | no text yields a truthy number |
| TextMatching.EvaluateTextSimilarity | js/main.js:1210-1221 | texts equal up to case are exact; every result is exact, partial (0.7) or no match, and coherent |
| TextMatching.TextSimilarityContainment | js/main.js:1210-1221 | containment in either direction always matches |
| TextMatching.TextSimilaritySymmetricMatch | js/main.js:1210-1221 | whether two texts match does not depend on their order |
| PersonNames.EditDistanceSelf | js/main.js:1010-1035 | the distance of a string to itself is 0 |
| PersonNames.EditDistanceSymmetric | js/main.js:1010-1035 | the distance is symmetric |
| PersonNames.EditDistanceEmpty | js/main.js:1010-1035 | against the empty string the distance is the other length |
| PersonNames.EditDistance | js/main.js:1010-1035 | the distance lies between the length difference and the longer length |
| PersonNames.LevenshteinDistance | js/main.js:1010-1035 | the matrix-filling loops return the edit distance of the two strings |
| PersonNames.FillRow | js/main.js:1022-1031 | one row of the matrix is filled from the row above and no other row changes |
| PersonNames.PersonNameSimilarity | js/main.js:991-1007 | containment of the squeezed, lower-cased names makes them similar, in either order, before any division by a length |
| PersonNames.SimilarByDistance | js/main.js:991-1007 | without containment, similarity is a distance of at most 30% of the longer squeezed name |
| PersonNames.IsPersonNameSimilar | js/main.js:991-1007 | lower-cased names without white space that contain one another, or of which one is empty, are similar |
| PersonNames.ExtractPersonNames | js/main.js:959-988 | the loops over the four patterns return the specification's name list |
| PersonNames.PersonNamesSpec | js/main.js:959-988 | the extracted names are distinct and each occurs in the text |
| PersonNames.NameHit | js/main.js:933-950 | no hit exactly when no extracted name resembles the reference; a hit is exact or 0.9 |
| PersonNames.NameHitFirst | js/main.js:933-950 | the first extracted name that resembles the reference decides: exact when it equals the reference, 0.9 otherwise |
| PersonNames.EvaluatePersonName | js/main.js:912-956 | exact for equal trimmed names; otherwise the verdict of the first extracted name that resembles the reference; with none, the plain text comparison; a match exactly when there is a hit or the texts match |
| PersonNames.ContainedNameMatches | js/main.js:912-956 | an answer containing the reference name matches |
| PersonNames.ExtractedNameExact | js/main.js:933-950 | an extracted name equal to the reference gives exact when no earlier name only resembles it |
| Places.ExtractPlaceNames | js/main.js:1142-1179 | the patterns, then the listed literal names, collected into one insertion-ordered set |
| Places.PlaceNamesSpec | js/main.js:1142-1179 | the extracted place names are distinct and each occurs in the text |
| Places.LocationMatchProperties | js/main.js:1182-1207 | an exact place match is also a partial one, and partial matching is symmetric |
| Places.CountMatches | js/main.js:1067-1100 | the counting loops yield the numbers of exact, partial-only and unmatched places |
| Places.FinalScore | js/main.js:1102-1110 | the place score lies between 0 and 1 |
| Places.ScoreJudgement | js/main.js:1112-1139 | the score thresholds map to exact, partial and no match, each judgement coherent |
| Places.LocationJudgement | js/main.js:1038-1139 | exact for equal trimmed strings; every judgement is coherent |
| Places.EvaluateLocation | js/main.js:1038-1139 | the method returns the specified judgement |
| Places.PerfectPlaces | js/main.js:1102-1139 | all reference places found and no wrong one gives exact with confidence 1 |
| Places.NoCounterpart | js/main.js:1102-1139 | reference places with no counterpart give no match |
| Places.IsCityLevel | js/main.js:1321-1326 | a city-level name is exactly one ending in 市, 区, 町 or 村; the three extra tests add nothing |
| Places.IsLocationMatch | js/main.js:1182-1206 | a partial match holds for names equal ignoring case; without キャンパス and 市 it holds exactly when one lower-cased name contains the other |
| Places.AssembleLocationShape | js/main.js:1294-1309 | the assembled name is the current name, a collected name, or a prefecture and a city joined by ',' |
| UrlEvaluation.CleanUrlSpec | js/main.js:2436-2447 | a cleaned URL holds no bracket and does not end in 、。，． |
| UrlEvaluation.CleanUrlIdempotent | js/main.js:2436-2447 | cleaning twice is cleaning once |
| UrlEvaluation.ExtractURLsFromText | js/main.js:2421-2454 | the extraction loops return the specification's URL list |
| UrlEvaluation.ExtractedUrlsSpec | js/main.js:2421-2454 | the extracted URLs are distinct, start with "http", hold no bracket and have no trailing Japanese punctuation |
| UrlEvaluation.SiteDomainIgnoresWww | js/main.js:2551-2639 | a host and the same host with `www.` compare equal when `www` is flexible |
| UrlEvaluation.AnalyzeURLs | js/main.js:2551-2639 | an unparsable URL on either side gives the error analysis; otherwise the same domain exactly when the host names agree without `www.` and ignoring case; the same site and minor differences both need the same domain; an exact match holds exactly when protocol, host name and normalised path are equal, whatever the queries; the same site holds exactly for the same domain and paths `isSameBaseSite` accepts |
| UrlEvaluation.ParseURL | js/main.js:2641-2651 | a URL with an http(s) scheme is parsed as given, any other text with "https://" put in front |
| UrlEvaluation.CompareParsed | js/main.js:2567-2629 | the exact match is equality of protocol, host name and normalised path; same site is same domain plus `isSameBaseSite`; same domain is equality of the site domains; within one domain a query difference is recorded exactly when the queries differ |
| UrlEvaluation.QueryIgnoredByExactMatch | js/main.js:2605-2619 | two URLs differing only in their query are still an exact match, with one recorded difference and confidence 1 |
| UrlEvaluation.IsSameBaseSite | js/main.js:2674-2700 | an empty path (no segments) is the same site as anything; two different deep paths outside the language list are not |
| UrlEvaluation.CompareParsedSymmetric | js/main.js:2551-2639 | swapping the URLs keeps every verdict and the number of differences |
| UrlEvaluation.FlexibleSettingsMinor | js/main.js:2551-2639 | with both options on, two URLs of one domain differ only in a minor way |
| UrlEvaluation.NormalizePath | js/main.js:2653-2672 | the normalised path is never empty (an empty one becomes "/") |
| UrlEvaluation.NormalizePathTrailingSlash | js/main.js:2653-2672 | trailing slashes do not change the normalised path |
| UrlEvaluation.NormalizePathOfNormal | js/main.js:2653-2672 | a path with no trailing slash and no default file name is already normal |
| UrlEvaluation.SameBaseSiteReflexive | js/main.js:2674-2700 | every path is the same site as itself |
| UrlEvaluation.SameBaseSiteSymmetric | js/main.js:2674-2700 | the same-site test is symmetric |
| UrlEvaluation.SectionAndPage | js/main.js:2674-2700 | a section and a page one level under it are the same site |
| UrlEvaluation.ExtractDomain | js/main.js:2702-2709 | a domain is found only in an http(s) URL and holds no '/' |
| UrlEvaluation.ExtractDomainOfHost | js/main.js:2702-2709 | the domain of "https://host/path" is the host without `www.` |
| UrlEvaluation.ProcessUrlAnalysis | js/main.js:2505-2549 | 1.0 for an exact match on the same site, 0.95 for the same site with minor differences, 0.85 for the same site otherwise, 0.7 for the same domain only, else no match; always coherent |
| UrlEvaluation.BestSpec | js/main.js:2480-2499 | the best result has the highest confidence of all candidates, and is the earliest with it |
| UrlEvaluation.UrlVerdict | js/main.js:2456-2502 | an answer equal to the reference, or holding it among its extracted URLs, is exact |
| UrlEvaluation.UrlVerdictCoherent | js/main.js:2456-2502 | every URL verdict is coherent |
| UrlEvaluation.EvaluateURL | js/main.js:2456-2502 | the method returns the specified verdict |
| UrlEvaluation.BestCandidate | js/main.js:2480-2499 | the loop over the candidates returns the first exact hit or the best result |
| LegacyEvaluation.KindOfGroups | js/main.js:2373-2414 | the attribute groups do not overlap, so each gets its own comparison |
| LegacyEvaluation.NumericVerdict | js/main.js:2391-2407 | equal numbers are exact; a difference within the tolerance is partial with confidence in [0.7, 1) |
| LegacyEvaluation.NumericBranch | js/main.js:2391-2407 | the numeric verdict applies exactly when both numbers are truthy |
| LegacyEvaluation.StringVerdict | js/main.js:2409-2417 | exact when the answer contains the reference; a match exactly on containment or a partial word match |
| LegacyEvaluation.AnswerVerdict | js/main.js:2365-2418 | incomplete data gives no match |
| LegacyEvaluation.AnswerVerdictCoherent | js/main.js:2365-2418 | every verdict is coherent |
| LegacyEvaluation.NumericAttributesCompareAsStrings | js/main.js:2391-2407 | numeric attributes are in effect compared as strings |
| LegacyEvaluation.EvaluateAnswer | js/main.js:2365-2418 | the method returns the specified verdict |
| LiveEvaluation.YearOrTextIdempotent | js/main.js:4074-4075 | reading the year of a year changes nothing |
| LiveEvaluation.UrlMatchShape | js/main.js:4082-4083 | a URL found in an answer is a non-empty stretch of it without white space |
| LiveEvaluation.UrlMatchLeading | js/main.js:4082-4083 | an answer starting with an address followed by white space yields that address |
| LiveEvaluation.ElevationNumberDigits | js/main.js:4094-4098 | the number read for an elevation is digits and dots only, so non-negative |
| LiveEvaluation.ElevationOfMetres | js/main.js:4094-4098 | an elevation with a metre sign right after its digits is read as those digits |
| LiveEvaluation.DomainOf | js/main.js:4220-4224 | the compared domain is the text after the protocol and one leading `www.`, up to its first '/' |
| LiveEvaluation.SameDomain | js/main.js:4220-4224 | texts equal once the scheme and one leading `www.` are removed have the same domain |
| LiveEvaluation.DomainOfUrl | js/main.js:4220-4224 | the domain of "https://www." + host + "/" + path is the host |
| LiveEvaluation.SameDomainOfUrls | js/main.js:4220-4224 | two such addresses have the same domain exactly when their hosts are equal, whatever their paths |
| LiveEvaluation.DomainKeepsSecondWww | js/main.js:4221-4222 | only one leading `www.` is removed |
| LiveEvaluation.DomainIgnoresProtocolAndPath | js/main.js:4220-4224 | protocol, `www.` and path do not change the domain |
| LiveEvaluation.ExtractFactualValue | js/main.js:4066-4104 | the extracted value is a list of place levels exactly for location and country attributes, a string otherwise |
| LiveEvaluation.ExtractYear | js/main.js:4071-4077 | an inception answer gives the first four-digit run of the trimmed answer, or the trimmed answer |
| LiveEvaluation.ExtractWebsite | js/main.js:4079-4083 | a website answer gives a stretch of the trimmed answer |
| LiveEvaluation.ExtractLocation | js/main.js:4085-4092 | a location answer gives the parsed hierarchy of the trimmed answer |
| LiveEvaluation.ExtractCountry | js/main.js:4085-4092 | a country answer gives the parsed hierarchy of the trimmed answer |
| LiveEvaluation.ExtractElevation | js/main.js:4094-4098 | an elevation answer with a digit gives digits and dots; one without a digit gives the trimmed answer |
| LiveEvaluation.ExtractOther | js/main.js:4100-4102 | any other attribute gives the trimmed text before the first '、' or '。' of the trimmed answer |
| LiveEvaluation.NormalizeValue | js/main.js:4107-4141 | the normalised reference is a list of place levels exactly for the location attribute |
| LiveEvaluation.NormalizeYear | js/main.js:4112-4118 | an inception value gives the first four-digit run of the trimmed value, or the trimmed value |
| LiveEvaluation.NormalizeWebsiteIncluded | js/main.js:4120-4123 | a website value gives a stretch of the trimmed value |
| LiveEvaluation.NormalizeWebsiteHost | js/main.js:4120-4123 | "https://www." + host + "/" normalises to the host |
| LiveEvaluation.NormalizeLocation | js/main.js:4125-4130 | a location value gives the parsed hierarchy of the trimmed value |
| LiveEvaluation.NormalizeElevation | js/main.js:4132-4136 | an elevation value with a digit gives digits and dots |
| LiveEvaluation.NormalizeOther | js/main.js:4138-4139 | any other attribute, a country included, gives the lower-cased trimmed value |
| LiveEvaluation.NormalizeOtherStable | js/main.js:4138-4139 | normalising a normalised value of another attribute changes nothing |
| LiveEvaluation.InceptionIdempotent | js/main.js:4071-4118 | for the year, extraction and normalisation agree and applying either twice is applying it once |
| LiveEvaluation.CompareByAttribute | js/main.js:4144-4217 | equal keys give the full score; every verdict is consistent, '×' exactly at score 0 |
| LiveEvaluation.LocationVerdictScore | js/main.js:4171-4195 | a location scores what `compareLocations` scores |
| LiveEvaluation.ContainedKeysScore | js/main.js:4210-4213 | outside the location, keys that contain one another always score |
| LiveEvaluation.SameDomainScore | js/main.js:4164-4169 | website values with the same domain score at least 90 |
| LiveEvaluation.CompareByAttributeSymmetric | js/main.js:4144-4217 | apart from the elevation, the comparison is symmetric |
| LiveEvaluation.ElevationAsymmetric | js/main.js:4197-4207 | the elevation test is not symmetric, with a concrete pair |
| LiveEvaluation.EvaluateAnswers | js/main.js:4039-4063 | the gates 'データなし', 'Wikidata不明' and 'LLM無回答' with score 0, then the comparison |
| LiveEvaluation.EvaluateSameYear | js/main.js:4039-4063 | the same year answered as the reference scores 100 |
| LiveEvaluation.EvaluateSameLocation | js/main.js:4039-4063 | the same location answered as the reference scores 100 |
| LocationHierarchy.ParseLocationCommaFormat | js/main.js:4227-4261 | never empty; with a '、' or ',' in the trimmed text, the levels of its trimmed comma-separated parts; otherwise the hierarchy extraction of the trimmed text |
| LocationHierarchy.CommaLevelsSpec | js/main.js:4238-4256 | every item is one of the parts; with no part ending in a level character, all the parts; otherwise at most a prefecture, a 郡 and a municipality in that order, each the first part ending in its level's character, and present exactly when such a part exists |
| LocationHierarchy.CommaItemsTrimmed | js/main.js:4232-4235 | in the comma branch every item is one of the trimmed comma-separated parts of the text, so has no white space at either end |
| LocationHierarchy.FullAddressValid | js/main.js:4270-4280 | a full-address match has well-formed groups |
| LocationHierarchy.FullAddressIncluded | js/main.js:4270-4280 | the groups of a match are contiguous, a stretch of the text |
| LocationHierarchy.NoFullAddressBefore | js/main.js:4270-4280 | every start before the leftmost match fails |
| LocationHierarchy.SeparateMatchSpec | js/main.js:4282-4297 | a separate level match exists exactly when the text holds a character of that level, and is a lazy group |
| LocationHierarchy.ExtractLocationHierarchy | js/main.js:4264-4300 | the hierarchy has one to three items |
| LocationHierarchy.FullAddressLevels | js/main.js:4264-4300 | a full match starts with a prefecture, ends with a municipality and is a stretch of the text |
| LocationHierarchy.SeparateLevels | js/main.js:4282-4300 | without a full match every item ends in a level character, or the result is the text alone |
| LocationHierarchy.ContainmentGateClosed | js/main.js:4324 | the containment gate never opens |
| LocationHierarchy.CheckCityLevelMatch | js/main.js:4433-4468 | a result, always 90 and '市区町村完全一致', exactly when the municipalities are equal |
| LocationHierarchy.CompareLocations | js/main.js:4303-4341 | 100 exactly for equal hierarchies, otherwise 90 exactly for equal municipalities, else 0; a match exactly when the score is positive |
| LocationHierarchy.ArraysEqualReflexive | js/main.js:4344-4347 | `arraysEqual` is reflexive |
| LocationHierarchy.ArraysEqualSymmetric | js/main.js:4344-4347 | `arraysEqual` is symmetric |
| LocationHierarchy.ArraysEqual | js/main.js:4344-4347 | equal exactly when the lower-cased, trimmed items agree position by position |
| LocationHierarchy.IsHierarchyContained | js/main.js:4373-4430 | an empty hierarchy is contained in any, and so is one whose every item occurs in the other |
| LocationHierarchy.CompareLocationsSymmetric | js/main.js:4303-4341 | the comparison does not depend on which side is the reference |
| LocationHierarchy.CompareLocationsSelf | js/main.js:4303-4341 | a location matches itself in full |
| LocationHierarchy.ItemContainedSimplified | js/main.js:4373-4430 | the special town and city tests add nothing to plain containment |
| LocationHierarchy.HierarchyContainedReflexive | js/main.js:4373-4430 | every hierarchy is contained in itself |
| LocationHierarchy.ArraysEqualContained | js/main.js:4344-4430 | equal hierarchies contain each other |
| LocationHierarchy.CheckHierarchicalCityMatch | js/main.js:4471-4496 | an 85-point result only when the municipalities already match exactly, so the 90-point check before it has answered first |
| LocationHierarchy.ParseJoinedLevels | js/main.js:4227-4261 | joining a canonical hierarchy with '、' and parsing it gives the hierarchy back |
| RefactoredEvaluation.EvaluateAnswers | js/main-refactored.js:278-308 | the ordered gates with score 0; score in {100, 70, 0}; 100 exactly for equal normalised strings; 70 exactly for a partial match |
| RefactoredEvaluation.InceptionComparesYears | js/main-refactored.js:312-318 | with years on both sides, a partial match is exactly equal first years |
| RefactoredEvaluation.PartialMatchSymmetric | js/main-refactored.js:310-337 | partial matching is symmetric for all but the number attributes |
| RefactoredEvaluation.IsPartialMatch | js/main-refactored.js:310-337 | for an inception without a year, and for any attribute that is not a website or a number, a partial match is containment either way; for a number it is the ten-percent test |
| RefactoredEvaluation.SameAnswerAgrees | js/main-refactored.js:278-308 | an answer equal to a usable reference scores 100 |
| RefactoredEvaluation.CompareUrlsSymmetric | js/main-refactored.js:339-350 | the URL comparison is symmetric |
| RefactoredEvaluation.CompareUrls | js/main-refactored.js:339-350 | parsed URLs with one host agree; when either does not parse, the result is equality of the stripped hosts |
| RefactoredEvaluation.UrlHostOf | js/main-refactored.js:346-348 | the string fallback compares the host, without scheme, `www.` and path |
| RefactoredEvaluation.WithinTenPercentOfPositive | js/main-refactored.js:352-362 | for a positive reference, a match is exactly a difference under 10% |
| RefactoredEvaluation.WithinTenPercentFails | js/main-refactored.js:352-362 | a zero reference or an unparsable side never matches |
| RefactoredEvaluation.CompareNumbers | js/main-refactored.js:352-362 | a match needs two numbers and a non-zero reference; for a positive reference it is a difference under ten percent of it |
| RefactoredEvaluation.ClaimIds | js/main-refactored.js:166-173 | exactly the non-empty ids of the P31 claims, no more ids than claims |
| RefactoredEvaluation.ClaimIdsAppend | js/main-refactored.js:166-173 | ids keep the order of their claims: the ids of two runs of claims are those of the first then those of the second |
| RefactoredEvaluation.ClaimIdsOne | js/main-refactored.js:166-173 | one claim gives its id when non-empty, and nothing otherwise, so duplicates are kept |
| RefactoredEvaluation.ExtractInstanceOf | js/main-refactored.js:166-173 | no P31 claims give no ids; otherwise exactly the non-empty ids among the claims |
| RefactoredEvaluation.GetRecommendedAttributes | js/main-refactored.js:175-194 | the nested loops return the specified recommendation |
| RefactoredEvaluation.CollectAttributesSpec | js/main-refactored.js:175-194 | the collected ids are distinct, and exactly the attributes listed for some type |
| RefactoredEvaluation.RecommendedIdsSpec | js/main-refactored.js:175-194 | distinct ids; the defaults when no type is known; otherwise exactly the listed attributes |
| RefactoredEvaluation.BuildPrompt | js/main-refactored.js:265-272 | no prompt exactly when neither the pattern nor "direct" has a template |
| RefactoredEvaluation.FillTemplate | js/main-refactored.js:265-272 | the placeholders are replaced by the entity name and the attribute label |
| WikidataApi.FormatWikidataTime | js/wikidata-api.js:277-304 | unmatched input unchanged; otherwise the result starts with the four-digit year |
| WikidataApi.FormatWikidataTimeShapes | js/wikidata-api.js:280-299 | "YYYY" for month 00; "YYYY年MM月" for day 00; else "YYYY年MM月DD日" |
| WikidataApi.FormatWikidataTimeYear | js/wikidata-api.js:280-299 | the sign is dropped and the first four-digit run of the result is the year |
| WikidataApi.FormatWikidataTimeIdempotent | js/wikidata-api.js:277-304 | formatting a formatted time changes nothing |
| WikidataApi.CommaField | js/wikidata-api.js:306-312 | the value of the attribute, or '不明' when missing or falsy |
| WikidataApi.FormatCommaString | js/wikidata-api.js:306-312 | no attributes give the empty string and one attribute gives its field alone; the lemmas `FormatCommaStringHoldsFields` and `FormatCommaStringFields` state the rest |
| WikidataApi.FormatCommaStringHoldsFields | js/wikidata-api.js:306-312 | no attributes give the empty string; every attribute's field (its value, or '不明') occurs in the comma string |
| WikidataApi.IsKnownEntityType | js/wikidata-api.js:375-378 | only ids of the fixed list, each a 'Q' id, are known |
| WikidataApi.FormatCommaStringFields | js/wikidata-api.js:306-312 | splitting the comma string gives one field per attribute, in order |
| WikidataApi.GenerateDynamicSparqlQuery | js/wikidata-api.js:318-373 | the method builds the specified query text |
| WikidataApi.SparqlQueryBounds | js/wikidata-api.js:318-373 | the query starts with "SELECT DISTINCT ?item ?itemLabel" and ends with "LIMIT " and the limit |
| WikidataApi.TypeClauseSubclassPath | js/wikidata-api.js:333-340 | the `wdt:P31/wdt:P279*` path is used exactly for known entity types |
| WikidataApi.OptionalClausesStep | js/wikidata-api.js:352-360 | each mapped attribute adds its OPTIONAL clause |
| WikidataApi.UnmappedAttributeIgnored | js/wikidata-api.js:352-360 | an attribute without a mapping adds nothing |
| WikidataApi.LastSegment | js/wikidata-api.js:246 | the last '/' segment: no '/', a suffix, the whole string or preceded by '/' |
| WikidataApi.EntityIdOf | js/wikidata-api.js:245-246 | an entity URI's id is the text after the entity prefix |
| WikidataApi.CellOf | js/wikidata-api.js:238-247 | the value and the label are the value; an id exactly for entity URIs, and then their last segment |
| WikidataApi.BindingRecordSpec | js/wikidata-api.js:233-252 | a cell for exactly the variables with a non-empty value, each the cell of that variable's last non-empty value |
| WikidataApi.ProcessSparqlResults | js/wikidata-api.js:231-253 | one record per binding, in order; none without bindings |
| WikidataApi.FilterTypes | js/wikidata-api.js:78-96 | an item is kept exactly when it passes the type test |
| WikidataApi.FilterEntityTypeResults | js/wikidata-api.js:78-97 | the first ten of the passing items, in order; every passing item is kept when at most ten pass |
| WikidataApi.FilterEntityTypeResultsSpec | js/wikidata-api.js:78-97 | the result is an order-preserving subsequence of the input |
| WikidataApi.KnownLabelPasses | js/wikidata-api.js:84-86 | an item whose label is a known type passes |
| OpenAiApi.ValidateApiKey | js/openai-api.js:14-29 | a valid key is present, 40 to 200 characters long, made only of key characters |
| OpenAiApi.ValidateApiKeyIff | js/openai-api.js:14-29 | valid exactly for "sk-", 40 to 200 characters, only [A-Za-z0-9_-] |
| OpenAiApi.ParseLLMResponse | js/openai-api.js:247-268 | the `forEach` builds the specified record |
| OpenAiApi.ParsedResponseSpec | js/openai-api.js:247-268 | one entry per attribute: the trimmed field, '不明' when missing or empty, '取得エラー' for a non-string |
| OpenAiApi.ParseFormattedFields | js/main.js:3760-3766 | parsing a comma string built from reference data gives the reference fields back |
| UsageTracking.LimitVerdict | js/openai-api.js:82-90 | within limits exactly when each counter is under its limit or overridden; the daily limit is checked first |
| UsageTracking.MainLimitVerdictAgrees | js/main.js:1928-1943 | the early return for two overrides decides as the plain test does |
| UsageTracking.Usage.constructor | js/main.js:37-51 | every counter zero, no override, the current day and hour |
| UsageTracking.Usage.UpdateUsageTracking | js/main.js:1945-1960 | the daily counter restarts on a new day, the hourly one on a new hour |
| UsageTracking.Usage.CheckUsageLimits | js/openai-api.js:63-91 | the resets, then the limit verdict; nothing else changes |
| UsageTracking.Usage.CheckUsageLimitsTracked | js/main.js:1928-1943 | as `checkUsageLimits`, through `updateUsageTracking` |
| UsageTracking.Usage.UpdateUsageCount | js/openai-api.js:93-104 | all five counters go up by exactly one |
| UsageTracking.Usage.OverrideLimits | js/openai-api.js:274-288 | both overrides on with the time stamp; counters unchanged |
| UsageTracking.Usage.RestoreLimits | js/openai-api.js:290-304 | both overrides off; counters unchanged |
| UsageTracking.Usage.ResetUsage | js/openai-api.js:306-327 | when confirmed, the counters and cost are zeroed and the totals kept; when not, nothing changes |
| UsageTracking.Usage.ResetAllUsage | js/main.js:3051-3067 | when confirmed, the counters and cumulative totals are zeroed; when not, nothing changes |
| UsageTracking.CheckedCall | js/openai-api.js:120-207 | without overrides no counter passes its limit; the total grows only for a successful call |
| MainUtilities.ValidateApiKeyDetailed | js/main.js:841-891 | a missing or empty key gets the empty-key message; valid exactly with the success message |
| MainUtilities.ValidateApiKeyDetailedIff | js/main.js:841-891 | valid exactly when the openai-api check passes and the key is long enough for its prefix |
| MainUtilities.WhitespaceCheckUnreachable | js/main.js:864-867 | the white-space message is never returned |
| MainUtilities.ShortLegacyKeyRejected | js/main.js:869-885 | a 40-character "sk-" key passes one check and fails the other |
| MainUtilities.SanitizeHeaderValue | js/main.js:894-909 | empty for a falsy value; otherwise the trimmed printable ASCII characters of the value, in order |
| MainUtilities.ControlPassIsRedundant | js/main.js:902-903 | the control-character pass removes nothing |
| MainUtilities.SanitizeHeaderValueIdempotent | js/main.js:894-909 | sanitising twice is sanitising once |
| MainUtilities.ValidKeySanitizesToItself | js/main.js:2030-2042 | a valid key is sent unchanged |
| MainUtilities.EscapeCSV | js/main.js:3969-3975 | a value with ',', '"' or a line feed is quoted; any other value is unchanged |
| MainUtilities.EscapeCSVRoundTrip | js/main.js:3969-3975 | a CSV reader gets every value back |
| MainUtilities.Saved | js/main.js:2841-2846 | the new item first, the old items after it in order, at most the limit |
| MainUtilities.SavedKeepsOrder | js/main.js:2841-2846 | older entries keep their order behind the new one |
| MainUtilities.History.constructor | js/main.js:7 | the history starts empty |
| MainUtilities.History.SaveToHistory | js/main.js:2834-2863 | the list after saving, cut to 1000, or to 500 when storing fails |
| MainUtilities.History.ClearHistory | js/main.js:2972-2979 | the list is emptied once confirmed |
| Ranking.BucketSortSpec | js/main.js:1813 | the stable sort is ordered by key, a permutation, and keeps the order of equal keys |
| Ranking.BucketSortStable | js/main.js:1813 | the elements of one key keep their relative order |
| Ranking.BestRelevanceSpec | js/main.js:1789-1803 | the score is the highest any category gives, and the category is the first reaching it ("general" at 0) |
| Ranking.ScoreAttribute | js/main.js:1789-1810 | the loop over the categories computes the specified score and category |
| Ranking.SortByRelevanceSpec | js/main.js:1813 | the sort orders by descending score, keeps every attribute, and keeps ties in input order |
| Ranking.FilterByRelevance | js/main.js:1735-1814 | the method scores each attribute and sorts them stably |
| Ranking.FilterByRelevanceSpec | js/main.js:1735-1814 | each attribute once, by descending score, each at least as high as any category gives it |
| Ranking.PrioritizeAndLimit | js/main.js:1817-1833 | at most 14 attributes, scores 1 to 3 in descending order, each from the input |
| Ranking.PrioritizeAndLimitCounts | js/main.js:1819-1821 | the first 8, 4 and 2 attributes of scores 3, 2 and 1, in input order |
| Ranking.PrioritizeAfterSort | js/main.js:1621-1625 | limiting after the relevance sort picks what limiting the unsorted list picks |
| Ranking.Rank | js/main.js:1914-1920 | `indexOf` in the priority list, 1000 for an unlisted type |
| Ranking.PrioritizedSpec | js/main.js:1892-1925 | the types are a permutation, ordered by rank, unlisted ones in their original order |
| Ranking.PrioritizeEntityTypes | js/main.js:1892-1925 | the array is sorted in place into the specified order |

## Left out

- Network and browser code is not modelled: `fetch` to Wikidata, SPARQL and OpenAI, the caches, DOM rendering, notifications, charts and downloads.
- Persistence and dialogs become parameters: `localStorage` reads and writes, and `confirm()`. The history save takes whether storing succeeded; the resets and the history clear take whether the user confirmed.
- Clock and randomness become parameters. `Date` becomes the current day string and hour; the history time stamp and random id are passed in.
- Cost accounting is not modelled: `calculateCost`, `estimateCost`, the price tables and the `totalCost` accumulation. These are floating-point arithmetic over prices; the model keeps `totalCost` only as a field that the resets zero.
- The WHATWG URL parser is a function parameter of the URL analysis, returning protocol, host name, path and query or nothing.
- Numbers are exact decimals (`real`), not IEEE doubles. `parseFloat` reads a decimal prefix; `Infinity` and hexadecimal forms are not modelled.
- JsText.ToLower: lowers ASCII letters only. `toLowerCase` also lowers other capitals, such as 'É' or the full-width 'Ａ', so the model can find two such texts different where the source finds them equal.
- String lengths count code points, not UTF-16 units, so the length checks of the two key validators differ from the source on characters outside the Basic Multilingual Plane.
- Verdict records keep score, status, match mark and confidence. The free-text `details` and `notes` strings are dropped.
- Property lookups on plain objects (`KNOWN_ENTITY_TYPES[label]`, `relevanceRules[entityType]`, `entityTypeAttributes[id]`) are map lookups. Inherited keys such as "constructor" are not modelled.
- Non-string arguments of `escapeCSV`, `formatWikidataTime` and `parseLLMResponse` are modelled only as absent values. The callers of `escapeCSV` always pass strings.
- In `buildPrompt`, the replacement text is taken literally; the `$&`-style patterns of `String.prototype.replace` are not modelled.
- Class structure of `js/main-refactored.js`: its class is closed early by a stray brace, so its methods are modelled as free functions.
- Configuration tables of `js/config.js` (entity-type attributes, labels, prompt templates, property mapping) are parameters.
- The limits of the usage check are parameters. The relevance rules and the priority order are written out as constants.
- RefactoredEvaluation.CompareUrls: only the string fallback is compared in full; the branch through the URL parser is the parameter `hostOf`.
- WikidataApi.LastSegment: characterised directly (no '/', a suffix, preceded by '/' or the whole string), not through `split('/')`.
- Ranking.FilterByRelevance: the spread `...attr` is modelled as a record holding the attribute's key and name.
- History loading (`loadHistory`) is not modelled: it reads storage and can bring back a list of any length.
- js/fact-check-system.js is not part of this model. It is settings and interface glue; its usage record starts as the one in `js/main.js`.
