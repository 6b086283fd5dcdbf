/**
 * Location hierarchies of the answer evaluator (js/main.js): parsing a
 * location answer into its administrative levels (prefecture 都道府県,
 * district 郡, municipality 市区町村) and comparing two hierarchies.
 *
 * The regular expressions of the source are modelled as deterministic
 * scanners.  For each, the comment says which match JavaScript's backtracking
 * engine returns and why the scanner finds the same one.
 */
module LocationHierarchy {
  import opened Base
  import opened JsText

  /** The administrative levels a location answer is split into. */
  datatype Level = Prefecture | District | Municipality

  /** The characters that end a name of each level: 都道府県, 郡 and 市区町村. */
  predicate EndsLevel(c: char, l: Level) {
    match l
    case Prefecture => c == '都' || c == '道' || c == '府' || c == '県'
    case District => c == '郡'
    case Municipality => c == '市' || c == '区' || c == '町' || c == '村'
  }

  /** `/[...]$/.test(p)` with the characters of level `l`. */
  predicate IsLevel(p: string, l: Level) {
    |p| > 0 && EndsLevel(p[|p| - 1], l)
  }

  /** `p` ends in the character of some level. */
  predicate IsAnyLevel(p: string) {
    IsLevel(p, Prefecture) || IsLevel(p, District) || IsLevel(p, Municipality)
  }

  /** The separators of a comma-separated location. */
  const CommaChars: set<char> := {'、', ','}

  /** What `[^0-9]` excludes, or with `separate` what `[^0-9、。]` excludes. */
  predicate IsStop(c: char, separate: bool) {
    IsDigit(c) || (separate && (c == '、' || c == '。'))
  }

  /** `toLowerCase().trim()`, the comparison key of hierarchy items. */
  function LowerTrim(s: string): string {
    Trim(ToLower(s))
  }

  /** `arr.find(part => /[...]$/.test(part))` for the characters of level `l`. */
  function FindEnding(parts: seq<string>, l: Level): (r: Option<string>)
    ensures r.Some? ==> r.value in parts && IsLevel(r.value, l)
    ensures r.None? <==> forall i :: 0 <= i < |parts| ==> !IsLevel(parts[i], l)
    ensures r.Some? ==> exists i :: (0 <= i < |parts| && parts[i] == r.value
      && forall j :: 0 <= j < i ==> !IsLevel(parts[j], l))
  {
    if |parts| == 0 then None
    else if IsLevel(parts[0], l) then Some(parts[0])
    else
      var r := FindEnding(parts[1..], l);
      assert r.Some? ==> exists i :: (1 <= i < |parts| && parts[i] == r.value
        && forall j :: 0 <= j < i ==> !IsLevel(parts[j], l)) by {
        if r.Some? {
          var i :| 0 <= i < |parts[1..]| && parts[1..][i] == r.value
            && (forall j :: 0 <= j < i ==> !IsLevel(parts[1..][j], l));
          assert parts[i + 1] == r.value;
        }
      }
      r
  }

  /** `if (x) hierarchy.push(x)` for an optional, never empty, match. */
  function Pushed(o: Option<string>): (r: seq<string>)
    ensures o.None? ==> r == []
    ensures o.Some? ==> r == [o.value]
  {
    if o.Some? then [o.value] else []
  }

  function TrimAll(parts: seq<string>): (r: seq<string>)
    ensures |r| == |parts|
    ensures forall i :: 0 <= i < |parts| ==> r[i] == Trim(parts[i])
  {
    if parts == [] then [] else [Trim(parts[0])] + TrimAll(parts[1..])
  }

  // ---------------------------------------------------------------------------
  // parseLocationCommaFormat
  // ---------------------------------------------------------------------------

  /**
   * A location answer as a list of levels.  A text holding `、` or `,` is
   * split there; the first prefecture, district and municipality among the
   * trimmed parts are kept in that order, or every part when there is none of
   * them.  Any other text goes to `ExtractLocationHierarchy`.
   */
  function ParseLocationCommaFormat(text: string): (r: seq<string>)
    ensures |r| >= 1
    ensures ('、' in Trim(text) || ',' in Trim(text)) ==>
      r == CommaLevels(TrimAll(SplitOn(Trim(text), CommaChars)))
    ensures !('、' in Trim(text) || ',' in Trim(text)) ==> r == ExtractLocationHierarchy(Trim(text))
  {
    var str := Trim(text);
    if '、' in str || ',' in str then
      CommaLevels(TrimAll(SplitOn(str, CommaChars)))
    else ExtractLocationHierarchy(str)
  }

  /** The first prefecture, district and municipality among the parts, in
      that order, or all the parts when there is none. */
  function CommaLevels(parts: seq<string>): (r: seq<string>)
    requires |parts| >= 1
    ensures |r| >= 1
  {
    var hierarchy := PushedAll(FindEnding(parts, Prefecture), FindEnding(parts, District), FindEnding(parts, Municipality));
    if |hierarchy| > 0 then hierarchy else parts
  }

  /** Some part ends in the character of a level. */
  predicate HasLevelPart(parts: seq<string>) {
    FindEnding(parts, Prefecture).Some? || FindEnding(parts, District).Some?
    || FindEnding(parts, Municipality).Some?
  }

  /** The rank `Rank` gives to the items of level `l`. */
  function LevelRank(l: Level): nat {
    match l
    case Prefecture => 0
    case District => 1
    case Municipality => 2
  }

  /**
   * What the comma branch keeps: items of the parts only; with no part of any
   * level, the parts themselves; otherwise, for each level, the first part of
   * that level exactly when there is one, and nothing else, in the order
   * prefecture, district, municipality.  These facts fix the result.
   */
  lemma CommaLevelsSpec(parts: seq<string>)
    requires |parts| >= 1
    ensures forall i :: 0 <= i < |CommaLevels(parts)| ==> CommaLevels(parts)[i] in parts
    ensures !HasLevelPart(parts) ==> CommaLevels(parts) == parts
    ensures HasLevelPart(parts) ==> ByRank(CommaLevels(parts))
    ensures forall l: Level :: FindEnding(parts, l).Some? ==> FindEnding(parts, l).value in CommaLevels(parts)
    ensures forall l: Level, i :: 0 <= i < |CommaLevels(parts)| && IsLevel(CommaLevels(parts)[i], l) ==>
      FindEnding(parts, l) == Some(CommaLevels(parts)[i])
  {
    var a := FindEnding(parts, Prefecture);
    var b := FindEnding(parts, District);
    var c := FindEnding(parts, Municipality);
    forall l: Level
      ensures FindEnding(parts, l) == ForLevel(a, b, c, l)
    {
      match l
      case Prefecture =>
      case District =>
      case Municipality =>
    }
    forall l: Level, i | 0 <= i < |parts| && IsLevel(parts[i], l)
      ensures ForLevel(a, b, c, l).Some?
    {
      assert FindEnding(parts, l).Some?;
    }
    LevelsOfParts(parts, a, b, c, CommaLevels(parts));
  }

  /** `CommaLevelsSpec` for any choice `a`, `b`, `c` of the parts' levels. */
  lemma LevelsOfParts(parts: seq<string>, a: Option<string>, b: Option<string>, c: Option<string>, r: seq<string>)
    requires a.Some? ==> a.value in parts && IsLevel(a.value, Prefecture)
    requires b.Some? ==> b.value in parts && IsLevel(b.value, District)
    requires c.Some? ==> c.value in parts && IsLevel(c.value, Municipality)
    requires forall l: Level, i :: 0 <= i < |parts| && IsLevel(parts[i], l) ==> ForLevel(a, b, c, l).Some?
    requires r == if |PushedAll(a, b, c)| > 0 then PushedAll(a, b, c) else parts
    ensures forall i :: 0 <= i < |r| ==> r[i] in parts
    ensures !(a.Some? || b.Some? || c.Some?) ==> r == parts
    ensures (a.Some? || b.Some? || c.Some?) ==> ByRank(r)
    ensures forall l: Level :: ForLevel(a, b, c, l).Some? ==> ForLevel(a, b, c, l).value in r
    ensures forall l: Level, i :: 0 <= i < |r| && IsLevel(r[i], l) ==> ForLevel(a, b, c, l) == Some(r[i])
  {
    PushedRanked(a, b, c);
    PushedFrom(a, b, c);
    PushedFirst(a, b, c);
  }

  /** In the comma branch every item is a trimmed part of the text. */
  lemma CommaItemsTrimmed(text: string)
    requires '、' in Trim(text) || ',' in Trim(text)
    ensures forall i :: 0 <= i < |ParseLocationCommaFormat(text)| ==>
      Trimmed(ParseLocationCommaFormat(text)[i]) && ParseLocationCommaFormat(text)[i] in TrimAll(SplitOn(Trim(text), CommaChars))
  {
    var parts := TrimAll(SplitOn(Trim(text), CommaChars));
    var r := ParseLocationCommaFormat(text);
    assert r == CommaLevels(parts);
    CommaLevelsSpec(parts);
    TrimAllYieldsTrimmed(SplitOn(Trim(text), CommaChars));
    ItemsOfTrimmed(parts, r);
  }

  /** Every item `TrimAll` yields is trimmed. */
  lemma TrimAllYieldsTrimmed(parts: seq<string>)
    ensures forall p :: p in TrimAll(parts) ==> Trimmed(p)
  {
    forall p | p in TrimAll(parts)
      ensures Trimmed(p)
    {
      var k :| 0 <= k < |parts| && TrimAll(parts)[k] == p;
    }
  }

  /** Items drawn from trimmed parts are trimmed. */
  lemma ItemsOfTrimmed(parts: seq<string>, r: seq<string>)
    requires forall p :: p in parts ==> Trimmed(p)
    requires forall i :: 0 <= i < |r| ==> r[i] in parts
    ensures forall i :: 0 <= i < |r| ==> Trimmed(r[i]) && r[i] in parts
  {
  }

  /** At most three items, each of some level, by strictly increasing rank. */
  predicate ByRank(h: seq<string>) {
    |h| <= 3
    && (forall i :: 0 <= i < |h| ==> IsAnyLevel(h[i]))
    && (forall i, j :: 0 <= i < j < |h| ==> Rank(h[i]) < Rank(h[j]))
  }

  /** The one of `a`, `b`, `c` that stands for level `l`. */
  function ForLevel(a: Option<string>, b: Option<string>, c: Option<string>, l: Level): Option<string> {
    match l
    case Prefecture => a
    case District => b
    case Municipality => c
  }

  /** `hierarchy.push` of an optional prefecture, district and municipality. */
  function PushedAll(a: Option<string>, b: Option<string>, c: Option<string>): seq<string> {
    Pushed(a) + Pushed(b) + Pushed(c)
  }

  /** The pushed levels are ordered by rank, and there is one exactly when
      one of them is present. */
  lemma PushedRanked(a: Option<string>, b: Option<string>, c: Option<string>)
    requires a.Some? ==> IsLevel(a.value, Prefecture)
    requires b.Some? ==> IsLevel(b.value, District)
    requires c.Some? ==> IsLevel(c.value, Municipality)
    ensures |PushedAll(a, b, c)| > 0 <==> a.Some? || b.Some? || c.Some?
    ensures ByRank(PushedAll(a, b, c))
  {
    var h := PushedAll(a, b, c);
    forall i, j | 0 <= i < j < |h|
      ensures Rank(h[i]) < Rank(h[j])
    {
      if i < |Pushed(a)| {
        assert h[i] == a.value;
      } else if i < |Pushed(a)| + |Pushed(b)| {
        assert h[i] == b.value && h[j] == c.value;
      }
    }
  }

  /** The pushed levels are the present ones. */
  lemma PushedFrom(a: Option<string>, b: Option<string>, c: Option<string>)
    ensures forall i :: 0 <= i < |PushedAll(a, b, c)| ==>
      PushedAll(a, b, c)[i] in Pushed(a) || PushedAll(a, b, c)[i] in Pushed(b) || PushedAll(a, b, c)[i] in Pushed(c)
    ensures forall l: Level :: ForLevel(a, b, c, l).Some? ==> ForLevel(a, b, c, l).value in PushedAll(a, b, c)
  {
    var h := PushedAll(a, b, c);
    assert a.Some? ==> h[0] == a.value;
    assert b.Some? ==> h[|Pushed(a)|] == b.value;
    assert c.Some? ==> h[|h| - 1] == c.value;
  }

  /** A pushed item of level `l` is the one given for `l`. */
  lemma PushedFirst(a: Option<string>, b: Option<string>, c: Option<string>)
    requires a.Some? ==> IsLevel(a.value, Prefecture)
    requires b.Some? ==> IsLevel(b.value, District)
    requires c.Some? ==> IsLevel(c.value, Municipality)
    ensures forall l: Level, i :: 0 <= i < |PushedAll(a, b, c)| && IsLevel(PushedAll(a, b, c)[i], l) ==>
      ForLevel(a, b, c, l) == Some(PushedAll(a, b, c)[i])
  {
    var h := PushedAll(a, b, c);
    forall l: Level, i | 0 <= i < |h| && IsLevel(h[i], l)
      ensures ForLevel(a, b, c, l) == Some(h[i])
    {
      if i < |Pushed(a)| {
        assert h[i] == a.value;
      } else if i < |Pushed(a)| + |Pushed(b)| {
        assert h[i] == b.value;
      } else {
        assert h[i] == c.value;
      }
    }
  }

  // ---------------------------------------------------------------------------
  // extractLocationHierarchy
  // ---------------------------------------------------------------------------

  /** The groups of one match of the full-address pattern. */
  datatype AddressMatch = AddressMatch(prefecture: string, district: Option<string>, municipality: string)
  {
    function Levels(): (r: seq<string>)
      ensures 2 <= |r| <= 3 && r[0] == prefecture && r[|r| - 1] == municipality
    {
      [prefecture] + Pushed(district) + [municipality]
    }

    function Text(): string {
      prefecture + (if district.Some? then district.value else "") + municipality
    }
  }

  /**
   * The language of a lazy group `[^stops]*?[ends]` as the engine fills it
   * when what follows the group succeeds: its last character is the first
   * character of level `l` in the group, and it holds no stop character.
   */
  predicate LazyGroup(g: string, l: Level, separate: bool) {
    |g| >= 1 && EndsLevel(g[|g| - 1], l)
    && (forall k :: 0 <= k < |g| - 1 ==> !EndsLevel(g[k], l))
    && (forall k :: 0 <= k < |g| ==> !IsStop(g[k], separate))
  }

  /** A well-formed match of the full-address groups. */
  predicate ValidAddress(m: AddressMatch) {
    LazyGroup(m.prefecture, Prefecture, false)
    && (m.district.Some? ==> LazyGroup(m.district.value, District, false))
    && LazyGroup(m.municipality, Municipality, false)
  }

  /** `〒\d{3}-\d{4}` at `i`. */
  predicate PostcodeAt(s: string, i: nat) {
    i + 9 <= |s| && s[i] == '〒'
    && IsDigit(s[i + 1]) && IsDigit(s[i + 2]) && IsDigit(s[i + 3]) && s[i + 4] == '-'
    && IsDigit(s[i + 5]) && IsDigit(s[i + 6]) && IsDigit(s[i + 7]) && IsDigit(s[i + 8])
  }

  /** End of the maximal run of white space starting at `i` (greedy `\s*`). */
  function SpaceRunEnd(s: string, i: nat): (r: nat)
    requires i <= |s|
    ensures i <= r <= |s|
    decreases |s| - i
  {
    if i < |s| && IsSpace(s[i]) then SpaceRunEnd(s, i + 1) else i
  }

  /** Where the first group starts for a match attempt at `i`: after the
      postcode and the white space that follows it, when there is one. */
  function GroupStart(s: string, i: nat): (r: nat)
    requires i <= |s|
    ensures i <= r <= |s|
  {
    if PostcodeAt(s, i) then SpaceRunEnd(s, i + 9) else i
  }

  /**
   * The end of a lazy group `[^0-9]*?[ends]` that starts at `from`: the first
   * character of level `l`, provided no digit comes before it.
   */
  function LazyEnd(s: string, from: nat, l: Level): (r: Option<nat>)
    requires from <= |s|
    ensures r.Some? ==> from <= r.value < |s|
    decreases |s| - from
  {
    if from == |s| || IsDigit(s[from]) then None
    else if EndsLevel(s[from], l) then Some(from)
    else LazyEnd(s, from + 1, l)
  }

  /** The group `LazyEnd` delimits is a lazy group, and when there is none no
      character of level `l` comes before the next digit. */
  lemma {:induction false} LazyEndGroup(s: string, from: nat, l: Level)
    requires from <= |s|
    ensures LazyEnd(s, from, l).Some? ==> LazyGroup(s[from..LazyEnd(s, from, l).value + 1], l, false)
    ensures LazyEnd(s, from, l).None? ==>
      forall k :: from <= k < |s| && EndsLevel(s[k], l) ==> exists j :: from <= j < k && IsDigit(s[j])
    decreases |s| - from
  {
    if from < |s| && !IsDigit(s[from]) && !EndsLevel(s[from], l) {
      LazyEndGroup(s, from + 1, l);
      var r := LazyEnd(s, from + 1, l);
      if r.Some? {
        var g := s[from..r.value + 1];
        assert g == [s[from]] + s[from + 1..r.value + 1];
      }
    }
  }

  /** The ends of the optional district group and of the municipality group
      after it, when both come before the next digit. */
  function DistrictAndMunicipality(s: string, from: nat): (r: Option<(nat, nat)>)
    requires from <= |s|
    ensures r.Some? ==> from <= r.value.0 < r.value.1 < |s|
  {
    match LazyEnd(s, from, District)
    case None => None
    case Some(g) =>
      match LazyEnd(s, g + 1, Municipality)
      case None => None
      case Some(c) => Some((g, c))
  }

  /** The groups when the first one starts at `b`. */
  function GroupsFrom(s: string, b: nat): (r: Option<AddressMatch>)
    requires b <= |s|
  {
    match LazyEnd(s, b, Prefecture)
    case None => None
    case Some(a) =>
      match DistrictAndMunicipality(s, a + 1)
      case Some((g, c)) => Some(AddressMatch(s[b..a + 1], Some(s[a + 1..g + 1]), s[g + 1..c + 1]))
      case None =>
        match LazyEnd(s, a + 1, Municipality)
        case None => None
        case Some(c) => Some(AddressMatch(s[b..a + 1], None, s[a + 1..c + 1]))
  }

  /**
   * The match of
   *   `(?:〒\d{3}-\d{4}\s*)?([^0-9]*?[都道府県])([^0-9]*?[郡])?([^0-9]*?[市区町村])`
   * that starts at `i`.  With `b` the start of the first group (after the
   * postcode when one is there) and `D` the first digit at or after `b`, every
   * group lies inside `[b, D)`.  The first group ends at the first prefecture
   * character `a` there: a later one leaves fewer municipality characters
   * after it, so it cannot succeed where `a` failed.  The optional district
   * group is tried first and ends at the first `郡` after `a`; it is kept when
   * a municipality character follows it before `D`, and the last group ends at
   * the first such character.  Giving up white-space characters after the
   * postcode, or dropping the postcode, cannot help: both only move the start
   * of the first group back over characters that are not prefecture
   * characters, or onto the postcode's digits.
   */
  function FullAddressAt(s: string, i: nat): (r: Option<AddressMatch>)
    requires i <= |s|
  {
    GroupsFrom(s, GroupStart(s, i))
  }

  /** The groups found from any start are well formed. */
  lemma GroupsValid(s: string, b: nat)
    requires b <= |s|
    ensures GroupsFrom(s, b).Some? ==> ValidAddress(GroupsFrom(s, b).value)
  {
    PrefectureGroup(s, b);
    DistrictGroup(s, b);
    MunicipalityGroup(s, b);
  }

  lemma PrefectureGroup(s: string, b: nat)
    requires b <= |s|
    ensures GroupsFrom(s, b).Some? ==> LazyGroup(GroupsFrom(s, b).value.prefecture, Prefecture, false)
  {
    LazyEndGroup(s, b, Prefecture);
  }

  lemma DistrictGroup(s: string, b: nat)
    requires b <= |s|
    ensures GroupsFrom(s, b).Some? && GroupsFrom(s, b).value.district.Some? ==>
      LazyGroup(GroupsFrom(s, b).value.district.value, District, false)
  {
    var a := LazyEnd(s, b, Prefecture);
    if a.Some? {
      LazyEndGroup(s, a.value + 1, District);
    }
  }

  lemma MunicipalityGroup(s: string, b: nat)
    requires b <= |s|
    ensures GroupsFrom(s, b).Some? ==> LazyGroup(GroupsFrom(s, b).value.municipality, Municipality, false)
  {
    match LazyEnd(s, b, Prefecture)
    case None =>
    case Some(a) =>
      match DistrictAndMunicipality(s, a + 1)
      case Some((g, c)) =>
        assert LazyEnd(s, g + 1, Municipality) == Some(c);
        assert GroupsFrom(s, b).value.municipality == s[g + 1..c + 1];
        LazyEndGroup(s, g + 1, Municipality);
      case None =>
        if LazyEnd(s, a + 1, Municipality).Some? {
          var c := LazyEnd(s, a + 1, Municipality).value;
          assert GroupsFrom(s, b).value.municipality == s[a + 1..c + 1];
          LazyEndGroup(s, a + 1, Municipality);
        }
  }

  /** The groups found from any start, joined, are the stretch of the text
      from that start to the end of the last group. */
  lemma GroupsContiguous(s: string, b: nat)
    requires b <= |s|
    ensures GroupsFrom(s, b).Some? ==> Includes(s, GroupsFrom(s, b).value.Text())
  {
    if GroupsFrom(s, b).Some? {
      if GroupsFrom(s, b).value.district.Some? {
        ContiguousWithDistrict(s, b);
      } else {
        ContiguousWithoutDistrict(s, b);
      }
    }
  }

  lemma ContiguousWithDistrict(s: string, b: nat)
    requires b <= |s|
    requires GroupsFrom(s, b).Some? && GroupsFrom(s, b).value.district.Some?
    ensures Includes(s, GroupsFrom(s, b).value.Text())
  {
    var a := LazyEnd(s, b, Prefecture).value;
    assert DistrictAndMunicipality(s, a + 1).Some?;
    var g, c := DistrictAndMunicipality(s, a + 1).value.0, DistrictAndMunicipality(s, a + 1).value.1;
    GroupsWithDistrict(s, b, a, g, c);
    AdjacentSlicesIncluded(s, b, a + 1, g + 1, c + 1);
  }

  lemma GroupsWithDistrict(s: string, b: nat, a: nat, g: nat, c: nat)
    requires b <= |s| && LazyEnd(s, b, Prefecture) == Some(a)
    requires a + 1 <= |s| && DistrictAndMunicipality(s, a + 1) == Some((g, c))
    ensures a + 1 <= g + 1 <= c + 1 <= |s|
    ensures GroupsFrom(s, b).value.Text() == s[b..a + 1] + s[a + 1..g + 1] + s[g + 1..c + 1]
  {
    assert GroupsFrom(s, b) == Some(AddressMatch(s[b..a + 1], Some(s[a + 1..g + 1]), s[g + 1..c + 1]));
  }

  /** Three adjacent stretches of a text, joined, are a stretch of it. */
  lemma AdjacentSlicesIncluded(s: string, i: nat, j: nat, k: nat, l: nat)
    requires i <= j <= k <= l <= |s|
    ensures Includes(s, s[i..j] + s[j..k] + s[k..l])
  {
    SliceConcat(s, i, j, k);
    SliceConcat(s, i, k, l);
    AddressText(s, i, l);
  }

  lemma ContiguousWithoutDistrict(s: string, b: nat)
    requires b <= |s|
    requires GroupsFrom(s, b).Some? && GroupsFrom(s, b).value.district.None?
    ensures Includes(s, GroupsFrom(s, b).value.Text())
  {
    var a := LazyEnd(s, b, Prefecture).value;
    var c := LazyEnd(s, a + 1, Municipality).value;
    assert GroupsFrom(s, b).value.Text() == s[b..a + 1] + s[a + 1..c + 1];
    SliceConcat(s, b, a + 1, c + 1);
    AddressText(s, b, c + 1);
  }

  /** A match of the full-address pattern has well-formed groups. */
  lemma FullAddressValid(s: string, i: nat)
    requires i <= |s|
    ensures FullAddressAt(s, i).Some? ==> ValidAddress(FullAddressAt(s, i).value)
  {
    GroupsValid(s, GroupStart(s, i));
  }

  /** The groups of a match are contiguous: joined, they are a stretch of the
      text. */
  lemma FullAddressIncluded(s: string, i: nat)
    requires i <= |s|
    ensures FullAddressAt(s, i).Some? ==> Includes(s, FullAddressAt(s, i).value.Text())
  {
    GroupsContiguous(s, GroupStart(s, i));
  }

  /** A slice of a text is included in it. */
  lemma AddressText(s: string, i: nat, j: nat)
    requires i <= j <= |s|
    ensures Includes(s, s[i..j])
  {
    assert OccursAt(s, s[i..j], i);
  }

  /** Two adjacent slices make one. */
  lemma SliceConcat(s: string, i: nat, j: nat, k: nat)
    requires i <= j <= k <= |s|
    ensures s[i..j] + s[j..k] == s[i..k]
  {
  }

  /** No match of the full-address pattern starts in `[from, to)`. */
  predicate NoFullAddressIn(s: string, from: nat, to: nat)
    requires to <= |s| + 1
    decreases if from < to then to - from else 0
  {
    from >= to || (FullAddressAt(s, from).None? && NoFullAddressIn(s, from + 1, to))
  }

  /** The leftmost start at or after `from` where the full-address pattern
      matches (`str.match` tries the starts in order). */
  function FirstFullAddress(s: string, from: nat): (r: Option<nat>)
    requires from <= |s|
    ensures r.Some? ==> from <= r.value <= |s| && FullAddressAt(s, r.value).Some?
    ensures r.Some? ==> NoFullAddressIn(s, from, r.value)
    ensures r.None? ==> NoFullAddressIn(s, from, |s| + 1)
    decreases |s| - from
  {
    if FullAddressAt(s, from).Some? then Some(from)
    else if from == |s| then None
    else FirstFullAddress(s, from + 1)
  }

  /** Every start before the leftmost match fails. */
  lemma {:induction false} NoFullAddressBefore(s: string, from: nat, to: nat, i: nat)
    requires to <= |s| + 1 && NoFullAddressIn(s, from, to)
    requires from <= i < to
    ensures FullAddressAt(s, i).None?
    decreases i - from
  {
    if i > from {
      NoFullAddressBefore(s, from + 1, to, i);
    }
  }

  /** The start of the stretch free of `[0-9、。]` that ends just before `x`. */
  function StopFreeStart(s: string, x: nat): (r: nat)
    requires x <= |s|
    ensures r <= x
    decreases x
  {
    if x == 0 || IsStop(s[x - 1], true) then x else StopFreeStart(s, x - 1)
  }

  /** The first character of level `l` at or after `from`, or |s|. */
  function FirstOf(s: string, l: Level, from: nat): (r: nat)
    requires from <= |s|
    ensures from <= r <= |s|
    decreases |s| - from
  {
    if from == |s| || EndsLevel(s[from], l) then from else FirstOf(s, l, from + 1)
  }

  /**
   * `str.match(/([^0-9、。]*?[ends])/)?.[1]`.  A start succeeds when the first
   * character after it that ends level `l` or is a stop comes before any stop,
   * so the leftmost successful start is just after the last stop before the
   * first character of level `l` in the text, and the group runs up to that
   * character.
   */
  function SeparateMatch(s: string, l: Level): (r: Option<string>)
  {
    var x := FirstOf(s, l, 0);
    if x == |s| then None else Some(s[StopFreeStart(s, x)..x + 1])
  }

  lemma {:induction false} FirstOfSpec(s: string, l: Level, from: nat)
    requires from <= |s|
    ensures FirstOf(s, l, from) < |s| ==> EndsLevel(s[FirstOf(s, l, from)], l)
    ensures forall k :: from <= k < FirstOf(s, l, from) ==> !EndsLevel(s[k], l)
    decreases |s| - from
  {
    if from < |s| && !EndsLevel(s[from], l) {
      FirstOfSpec(s, l, from + 1);
    }
  }

  lemma {:induction false} StopFreeStartSpec(s: string, x: nat)
    requires x <= |s|
    ensures forall k :: StopFreeStart(s, x) <= k < x ==> !IsStop(s[k], true)
    ensures StopFreeStart(s, x) == 0 || IsStop(s[StopFreeStart(s, x) - 1], true)
    decreases x
  {
    if x > 0 && !IsStop(s[x - 1], true) {
      StopFreeStartSpec(s, x - 1);
    }
  }

  /**
   * What the separate pattern finds: nothing exactly when the text has no
   * character of level `l`; otherwise a lazy group that starts at the text's
   * start or just after a stop character, and whose last character is the
   * first character of level `l` in the text.
   */
  lemma SeparateMatchSpec(s: string, l: Level)
    ensures SeparateMatch(s, l).None? <==> forall k :: 0 <= k < |s| ==> !EndsLevel(s[k], l)
    ensures SeparateMatch(s, l).Some? ==> LazyGroup(SeparateMatch(s, l).value, l, true)
    ensures SeparateMatch(s, l).Some? ==> exists j :: (0 <= j <= |s| - |SeparateMatch(s, l).value|
      && OccursAt(s, SeparateMatch(s, l).value, j)
      && (j == 0 || IsStop(s[j - 1], true))
      && forall k :: 0 <= k < j + |SeparateMatch(s, l).value| - 1 ==> !EndsLevel(s[k], l))
  {
    FirstOfSpec(s, l, 0);
    var x := FirstOf(s, l, 0);
    if x < |s| {
      StopFreeStartSpec(s, x);
      var j := StopFreeStart(s, x);
      LazySlice(s, j, x, l);
      var g := s[j..x + 1];
      assert OccursAt(s, g, j);
    }
  }

  /** A stop-free slice that runs up to the first character of its level is a
      lazy group. */
  lemma LazySlice(s: string, from: nat, x: nat, l: Level)
    requires from <= x < |s| && EndsLevel(s[x], l)
    requires forall k :: from <= k < x ==> !EndsLevel(s[k], l)
    requires forall k :: from <= k < x ==> !IsStop(s[k], true)
    ensures LazyGroup(s[from..x + 1], l, true)
  {
    var g := s[from..x + 1];
    assert forall k :: 0 <= k < |g| ==> g[k] == s[from + k];
  }

  /**
   * The levels of a free-form address: the groups of the full-address pattern
   * when it matches; otherwise whichever of a prefecture, a district and a
   * municipality match on their own; otherwise the trimmed text itself.
   */
  function ExtractLocationHierarchy(text: string): (r: seq<string>)
    ensures 1 <= |r| <= 3
  {
    var str := Trim(text);
    match FirstFullAddress(str, 0)
    case Some(i) => FullAddressAt(str, i).value.Levels()
    case None => SeparateHierarchy(str)
  }

  /** The levels matched on their own, or the text when none matches. */
  function SeparateHierarchy(str: string): (r: seq<string>)
    ensures 1 <= |r| <= 3
  {
    var hierarchy := Pushed(SeparateMatch(str, Prefecture))
      + Pushed(SeparateMatch(str, District))
      + Pushed(SeparateMatch(str, Municipality));
    if |hierarchy| > 0 then hierarchy else [str]
  }

  /**
   * When the full-address pattern matches, the hierarchy starts with a
   * prefecture, ends with a municipality and, joined, is a stretch of the
   * trimmed text.
   */
  lemma FullAddressLevels(text: string)
    requires FirstFullAddress(Trim(text), 0).Some?
    ensures var r := ExtractLocationHierarchy(text);
      IsLevel(r[0], Prefecture) && IsLevel(r[|r| - 1], Municipality) && Includes(Trim(text), Join(r, ""))
  {
    var str := Trim(text);
    var i := FirstFullAddress(str, 0).value;
    FullAddressValid(str, i);
    FullAddressIncluded(str, i);
    LevelsJoin(FullAddressAt(str, i).value);
  }

  /**
   * Without a full-address match every item of the hierarchy ends in the
   * character of some level, or the hierarchy is the trimmed text alone.
   */
  lemma SeparateLevels(text: string)
    requires FirstFullAddress(Trim(text), 0).None?
    ensures var r := ExtractLocationHierarchy(text);
      r == [Trim(text)] || forall p :: p in r ==> IsAnyLevel(p)
  {
    var str := Trim(text);
    assert ExtractLocationHierarchy(text) == SeparateHierarchy(str);
    SeparateHierarchyLevels(str);
  }

  lemma SeparateHierarchyLevels(str: string)
    ensures var r := SeparateHierarchy(str);
      r == [str] || forall p :: p in r ==> IsAnyLevel(p)
  {
    var a := Pushed(SeparateMatch(str, Prefecture));
    var b := Pushed(SeparateMatch(str, District));
    var c := Pushed(SeparateMatch(str, Municipality));
    SeparateLevel(str, Prefecture);
    SeparateLevel(str, District);
    SeparateLevel(str, Municipality);
    assert forall p :: p in a + b + c ==> p in a || p in b || p in c;
  }

  /** A separate match ends in a character of its level. */
  lemma SeparateLevel(s: string, l: Level)
    ensures SeparateMatch(s, l).Some? ==> IsLevel(SeparateMatch(s, l).value, l)
  {
    SeparateMatchSpec(s, l);
  }

  /** The levels of a match, joined, are the matched text. */
  lemma LevelsJoin(m: AddressMatch)
    ensures Join(m.Levels(), "") == m.Text()
  {
    if m.district.Some? {
      assert m.Levels() == [m.prefecture, m.district.value, m.municipality];
      assert m.Levels()[1..][1..] == [m.municipality];
      assert Join(m.Levels()[1..], "") == m.district.value + "" + m.municipality;
    } else {
      assert m.Levels() == [m.prefecture, m.municipality];
      assert m.Levels()[1..] == [m.municipality];
    }
  }

  // ---------------------------------------------------------------------------
  // ---------------------------------------------------------------------------

  /** The result object of a location comparison (its free-text details left out). */
  datatype LocationResult = LocationResult(isMatch: bool, score: int, status: string, confidence: int)

  /** A compared value: a string, or an array of strings. */
  datatype Value = Text(text: string) | List(items: seq<string>)

  /** `Array.isArray(v) ? v : parseLocationCommaFormat(v)`. */
  function HierarchyOf(v: Value): seq<string> {
    match v
    case List(items) => items
    case Text(t) => ParseLocationCommaFormat(t)
  }

  /** `arraysEqual`: same length, items equal after `toLowerCase().trim()`. */
  function ArraysEqual(a: seq<string>, b: seq<string>): (r: bool)
    ensures r <==> LowerTrimAll(a) == LowerTrimAll(b)
  {
    |a| == |b| && forall i :: 0 <= i < |a| ==> LowerTrim(a[i]) == LowerTrim(b[i])
  }

  /** Every item lower-cased and trimmed. */
  function LowerTrimAll(items: seq<string>): (r: seq<string>)
    ensures |r| == |items|
    ensures forall i :: 0 <= i < |items| ==> r[i] == LowerTrim(items[i])
  {
    if items == [] then [] else [LowerTrim(items[0])] + LowerTrimAll(items[1..])
  }

  /** `/[町村]$/.test(x)`. */
  predicate IsTown(x: string) {
    |x| > 0 && (x[|x| - 1] == '町' || x[|x| - 1] == '村')
  }

  /** `/[市区]$/.test(x)`. */
  predicate IsCity(x: string) {
    |x| > 0 && (x[|x| - 1] == '市' || x[|x| - 1] == '区')
  }

  /** One `shortItem` check of `isHierarchyContained`, its four tests in order. */
  predicate ItemContained(x: string, long: seq<string>) {
    (exists y :: y in long && LowerTrim(y) == LowerTrim(x))
    || (IsTown(x) && exists y :: y in long && Includes(y, x) && y != x)
    || (IsCity(x) && exists y :: y in long && Includes(y, x))
    || (exists y :: y in long && (Includes(ToLower(y), ToLower(x)) || Includes(ToLower(x), ToLower(y))))
  }

  /** `isHierarchyContained(short, long)`: every item of `short` is found in `long`. */
  function IsHierarchyContained(short: seq<string>, long: seq<string>): (r: bool)
    ensures short == [] ==> r
    ensures (forall x :: x in short ==> x in long) ==> r
  {
    MembersContained(short, long);
    forall i :: 0 <= i < |short| ==> ItemContained(short[i], long)
  }

  /** An item of the long hierarchy is contained in it. */
  lemma MembersContained(short: seq<string>, long: seq<string>)
    ensures (forall x :: x in short ==> x in long) ==>
      forall i :: 0 <= i < |short| ==> ItemContained(short[i], long)
  {
    if forall x :: x in short ==> x in long {
      forall i | 0 <= i < |short|
        ensures ItemContained(short[i], long)
      {
        assert short[i] in long && LowerTrim(short[i]) == LowerTrim(short[i]);
      }
    }
  }

  /** `checkLocationContainment`: a 95-point result, or null. */
  function CheckLocationContainment(wiki: seq<string>, llm: seq<string>): (r: Option<LocationResult>)
    ensures r.Some? <==> IsHierarchyContained(wiki, llm) || IsHierarchyContained(llm, wiki)
    ensures r.Some? ==> r.value.isMatch && r.value.score == 95
  {
    if IsHierarchyContained(wiki, llm) || IsHierarchyContained(llm, wiki) then
      Some(LocationResult(true, 95, "包含一致", 90))
    else None
  }

  /** A JavaScript number, for the relational test the source applies to a result object. */
  datatype JsNumber = Finite(v: real) | NaN

  /** `ToNumber` of `null` (0) or of a plain object (NaN). */
  function ToNumber(o: Option<LocationResult>): JsNumber {
    if o.None? then Finite(0.0) else NaN
  }

  /** JavaScript `n > 0`: false for NaN. */
  predicate GreaterThanZero(n: JsNumber) {
    n.Finite? && n.v > 0.0
  }

  /** `containmentScore > 0`: the gate in front of the containment result. */
  function ContainmentGate(o: Option<LocationResult>): Option<LocationResult> {
    if GreaterThanZero(ToNumber(o)) then o else None
  }

  /** The gate never opens: comparing an object or null with 0 is false. */
  lemma ContainmentGateClosed(o: Option<LocationResult>)
    ensures ContainmentGate(o).None?
  {
  }

  /** The items of a hierarchy that end in a municipality character. */
  function Municipalities(h: seq<string>): (r: seq<string>)
    ensures forall p :: p in r ==> p in h && IsLevel(p, Municipality)
    ensures forall p :: p in h && IsLevel(p, Municipality) ==> p in r
  {
    if h == [] then []
    else (if IsLevel(h[0], Municipality) then [h[0]] else []) + Municipalities(h[1..])
  }

  /** Some municipality of one side equals one of the other after `toLowerCase().trim()`. */
  predicate ExactMunicipalityMatch(wiki: seq<string>, llm: seq<string>) {
    exists x, y :: x in Municipalities(wiki) && y in Municipalities(llm) && LowerTrim(x) == LowerTrim(y)
  }

  /** `checkHierarchicalCityMatch`: compares the first municipality of each
      side.  Whenever it answers, the municipalities already match exactly,
      so the 90-point check before it has answered first and its 85 points
      are never given. */
  function CheckHierarchicalCityMatch(wiki: seq<string>, llm: seq<string>): (r: Option<LocationResult>)
    ensures r.Some? ==> ExactMunicipalityMatch(wiki, llm)
    ensures r.Some? ==> r.value == LocationResult(true, 85, "階層的市区町村一致", 85)
  {
    var detailed := if |llm| >= |wiki| then llm else wiki;
    var simple := if |llm| >= |wiki| then wiki else llm;
    var simpleCity := FindEnding(simple, Municipality);
    var detailedCity := FindEnding(detailed, Municipality);
    if simpleCity.Some? && detailedCity.Some? && LowerTrim(simpleCity.value) == LowerTrim(detailedCity.value) then
      assert simpleCity.value in Municipalities(simple) && detailedCity.value in Municipalities(detailed);
      Some(LocationResult(true, 85, "階層的市区町村一致", 85))
    else None
  }

  /** `checkCityLevelMatch`: 90 points for equal municipalities, else the hierarchical check. */
  function CheckCityLevelMatch(wiki: seq<string>, llm: seq<string>): (r: Option<LocationResult>)
    ensures r.Some? <==> ExactMunicipalityMatch(wiki, llm)
    ensures r.Some? ==> r.value == LocationResult(true, 90, "市区町村完全一致", 90)
  {
    if ExactMunicipalityMatch(wiki, llm) then Some(LocationResult(true, 90, "市区町村完全一致", 90))
    else CheckHierarchicalCityMatch(wiki, llm)
  }

  const LocationMismatch := LocationResult(false, 0, "不一致", 0)

  /**
   * `compareLocations`: 100 points for equal hierarchies, 90 for a shared
   * municipality, otherwise no match.  The containment result (95) is behind a
   * gate that never opens, and the hierarchical municipality result (85) is
   * only reached when the shared-municipality test has already answered.
   */
  function CompareLocations(wiki: Value, llm: Value): (r: LocationResult)
    ensures r.isMatch <==> r.score > 0
    ensures r.score in {100, 90, 0}
    ensures r.score == 100 <==> ArraysEqual(HierarchyOf(wiki), HierarchyOf(llm))
    ensures r.score == 90 <==> (!ArraysEqual(HierarchyOf(wiki), HierarchyOf(llm))
      && ExactMunicipalityMatch(HierarchyOf(wiki), HierarchyOf(llm)))
  {
    var wh := HierarchyOf(wiki);
    var lh := HierarchyOf(llm);
    if ArraysEqual(wh, lh) then LocationResult(true, 100, "完全一致", 100)
    else
      var containment := CheckLocationContainment(wh, lh);
      ContainmentGateClosed(containment);
      match ContainmentGate(containment)
      case Some(res) => res
      case None =>
        match CheckCityLevelMatch(wh, lh)
        case Some(res) => res
        case None => LocationMismatch
  }

  // ---------------------------------------------------------------------------
  // Properties
  // ---------------------------------------------------------------------------

  lemma ArraysEqualReflexive(a: seq<string>)
    ensures ArraysEqual(a, a)
  {
  }

  lemma ArraysEqualSymmetric(a: seq<string>, b: seq<string>)
    ensures ArraysEqual(a, b) == ArraysEqual(b, a)
  {
  }

  lemma ExactMunicipalityMatchSymmetric(a: seq<string>, b: seq<string>)
    ensures ExactMunicipalityMatch(a, b) == ExactMunicipalityMatch(b, a)
  {
  }

  /** The comparison does not depend on which side is the reference. */
  lemma CompareLocationsSymmetric(wiki: Value, llm: Value)
    ensures CompareLocations(wiki, llm) == CompareLocations(llm, wiki)
  {
    ArraysEqualSymmetric(HierarchyOf(wiki), HierarchyOf(llm));
    ExactMunicipalityMatchSymmetric(HierarchyOf(wiki), HierarchyOf(llm));
  }

  /** A location always matches itself in full. */
  lemma CompareLocationsSelf(v: Value)
    ensures CompareLocations(v, v) == LocationResult(true, 100, "完全一致", 100)
  {
    ArraysEqualReflexive(HierarchyOf(v));
  }

  /** `includes` survives lower-casing both sides. */
  lemma IncludesToLower(s: string, t: string)
    requires Includes(s, t)
    ensures Includes(ToLower(s), ToLower(t))
  {
    var i :| 0 <= i <= |s| && OccursAt(s, t, i);
    assert ToLower(s)[i..i + |t|] == ToLower(t);
    IncludesAt(ToLower(s), ToLower(t), i);
  }

  /**
   * The special town and city tests of `isHierarchyContained` add nothing: an
   * item is found exactly when some item of the other hierarchy equals it
   * after `toLowerCase().trim()` or contains it, or is contained in it, after
   * `toLowerCase()`.
   */
  lemma ItemContainedSimplified(x: string, long: seq<string>)
    ensures ItemContained(x, long) <==> exists y :: (y in long &&
      (LowerTrim(y) == LowerTrim(x) || Includes(ToLower(y), ToLower(x)) || Includes(ToLower(x), ToLower(y))))
  {
    if ItemContained(x, long) {
      ItemContainedSimilar(x, long);
      var y :| y in long && SimilarItem(x, y);
    }
    if exists y :: (y in long &&
      (LowerTrim(y) == LowerTrim(x) || Includes(ToLower(y), ToLower(x)) || Includes(ToLower(x), ToLower(y))))
    {
      var y :| y in long && SimilarItem(x, y);
      SimilarItemContained(x, long, y);
    }
  }

  lemma ItemContainedSimilar(x: string, long: seq<string>)
    requires ItemContained(x, long)
    ensures exists y :: y in long && SimilarItem(x, y)
  {
    if exists y :: y in long && LowerTrim(y) == LowerTrim(x) {
      var y :| y in long && LowerTrim(y) == LowerTrim(x);
      assert SimilarItem(x, y);
    } else if exists y :: y in long && Includes(y, x) {
      var y :| y in long && Includes(y, x);
      IncludesToLower(y, x);
      assert SimilarItem(x, y);
    } else {
      var y :| y in long && (Includes(ToLower(y), ToLower(x)) || Includes(ToLower(x), ToLower(y)));
      assert SimilarItem(x, y);
    }
  }

  lemma SimilarItemContained(x: string, long: seq<string>, y: string)
    requires y in long && SimilarItem(x, y)
    ensures ItemContained(x, long)
  {
    if LowerTrim(y) == LowerTrim(x) {
      assert exists y :: y in long && LowerTrim(y) == LowerTrim(x);
    } else {
      assert exists y :: y in long && (Includes(ToLower(y), ToLower(x)) || Includes(ToLower(x), ToLower(y)));
    }
  }

  /** The tests of `ItemContained` that remain once the town and city tests
      are seen to add nothing. */
  predicate SimilarItem(x: string, y: string) {
    LowerTrim(y) == LowerTrim(x) || Includes(ToLower(y), ToLower(x)) || Includes(ToLower(x), ToLower(y))
  }

  /** Every hierarchy is contained in itself. */
  lemma HierarchyContainedReflexive(h: seq<string>)
    ensures IsHierarchyContained(h, h)
  {
    forall i | 0 <= i < |h|
      ensures ItemContained(h[i], h)
    {
      assert h[i] in h;
    }
  }

  /** Equal hierarchies contain each other. */
  lemma ArraysEqualContained(a: seq<string>, b: seq<string>)
    requires ArraysEqual(a, b)
    ensures IsHierarchyContained(a, b)
  {
    forall i | 0 <= i < |a|
      ensures ItemContained(a[i], b)
    {
      assert b[i] in b;
    }
  }

  /** A canonical comma-separated location: at least two levels, each at most
      once and in the order prefecture, district, municipality. */
  predicate CanonicalLevels(h: seq<string>) {
    RankedLevels(h)
    && (forall p :: p in h ==> |p| > 0 && Trimmed(p) && forall k :: 0 <= k < |p| ==> p[k] !in CommaChars)
  }

  /** Two or three items, each ending in the character of a level, the levels
      strictly in the order prefecture, district, municipality. */
  predicate RankedLevels(h: seq<string>) {
    (|h| == 2 || |h| == 3)
    && (forall i :: 0 <= i < |h| ==> IsAnyLevel(h[i]))
    && (forall i, j :: 0 <= i < j < |h| ==> Rank(h[i]) < Rank(h[j]))
  }

  /** 0 for a prefecture, 1 for a district, 2 for a municipality. */
  function Rank(p: string): nat {
    if IsLevel(p, Prefecture) then 0 else if IsLevel(p, District) then 1 else 2
  }

  /** The finder of each level picks the one item of that level. */
  lemma FindLevel(h: seq<string>, l: Level, i: nat)
    requires RankedLevels(h)
    requires i < |h| && IsLevel(h[i], l)
    ensures FindEnding(h, l) == Some(h[i])
  {
    var r := FindEnding(h, l);
    var j :| 0 <= j < |h| && h[j] == r.value && forall k :: 0 <= k < j ==> !IsLevel(h[k], l);
    if j < i {
      RankOfLevel(h[j], l);
      RankOfLevel(h[i], l);
      assert false;
    }
  }

  /** The rank of an item is fixed by the level it ends with. */
  lemma RankOfLevel(p: string, l: Level)
    requires IsLevel(p, l)
    ensures Rank(p) == match l case Prefecture => 0 case District => 1 case Municipality => 2
  {
  }

  /** The `、`-join of a canonical hierarchy is already trimmed. */
  lemma JoinedTrimmed(h: seq<string>)
    requires CanonicalLevels(h)
    ensures Trimmed(Join(h, "、"))
  {
    JoinBounds(h, "、");
    assert h[0] in h && h[|h| - 1] in h;
  }

  /** The `、`-join of two or more items holds a `、`. */
  lemma JoinedHasComma(h: seq<string>)
    requires |h| >= 2
    ensures '、' in Join(h, "、")
  {
    var s := Join(h, "、");
    assert s == h[0] + "、" + Join(h[1..], "、");
    assert s[|h[0]|] == '、';
  }

  /** Trimming items that are already trimmed changes nothing. */
  lemma TrimAllTrimmed(h: seq<string>)
    requires forall p :: p in h ==> Trimmed(p)
    ensures TrimAll(h) == h
  {
    forall i | 0 <= i < |h|
      ensures Trim(h[i]) == h[i]
    {
      assert h[i] in h;
      TrimOfTrimmed(h[i]);
    }
  }

  /** Splitting the `、`-join of a canonical hierarchy gives its items back,
      already trimmed. */
  lemma SplitJoinedLevels(h: seq<string>)
    requires CanonicalLevels(h)
    ensures Trim(Join(h, "、")) == Join(h, "、")
    ensures '、' in Join(h, "、")
    ensures TrimAll(SplitOn(Join(h, "、"), CommaChars)) == h
  {
    JoinedTrimmed(h);
    TrimOfTrimmed(Join(h, "、"));
    JoinedHasComma(h);
    SplitJoin(h, '、', CommaChars);
    TrimAllTrimmed(h);
  }

  /** The level of an item that ends in the character of some level. */
  lemma RankLevel(p: string)
    requires IsAnyLevel(p)
    ensures Rank(p) == 0 ==> IsLevel(p, Prefecture) && !IsLevel(p, District) && !IsLevel(p, Municipality)
    ensures Rank(p) == 1 ==> IsLevel(p, District) && !IsLevel(p, Prefecture) && !IsLevel(p, Municipality)
    ensures Rank(p) == 2 ==> IsLevel(p, Municipality) && !IsLevel(p, Prefecture) && !IsLevel(p, District)
  {
  }

  /** The levels of a canonical hierarchy are the hierarchy itself. */
  lemma CommaLevelsCanonical(h: seq<string>)
    requires CanonicalLevels(h)
    ensures CommaLevels(h) == h
  {
    if |h| == 3 {
      CommaLevelsThree(h);
    } else {
      CommaLevelsTwo(h);
    }
  }

  lemma CommaLevelsThree(h: seq<string>)
    requires RankedLevels(h) && |h| == 3
    ensures CommaLevels(h) == h
  {
    RankLevel(h[0]);
    RankLevel(h[1]);
    RankLevel(h[2]);
    FindLevel(h, Prefecture, 0);
    FindLevel(h, District, 1);
    FindLevel(h, Municipality, 2);
    assert CommaLevels(h) == [h[0]] + [h[1]] + [h[2]];
  }

  lemma CommaLevelsTwo(h: seq<string>)
    requires RankedLevels(h) && |h| == 2
    ensures CommaLevels(h) == h
  {
    RankLevel(h[0]);
    RankLevel(h[1]);
    if Rank(h[0]) == 0 && Rank(h[1]) == 1 {
      FindLevel(h, Prefecture, 0);
      FindLevel(h, District, 1);
      MissingLevel(h, Municipality);
      assert CommaLevels(h) == [h[0]] + [h[1]] + [];
    } else if Rank(h[0]) == 0 {
      FindLevel(h, Prefecture, 0);
      MissingLevel(h, District);
      FindLevel(h, Municipality, 1);
      assert CommaLevels(h) == [h[0]] + [] + [h[1]];
    } else {
      MissingLevel(h, Prefecture);
      FindLevel(h, District, 0);
      FindLevel(h, Municipality, 1);
      assert CommaLevels(h) == [] + [h[0]] + [h[1]];
    }
  }

  /** A level no item ends in is not found. */
  lemma MissingLevel(h: seq<string>, l: Level)
    requires |h| == 2 && !IsLevel(h[0], l) && !IsLevel(h[1], l)
    ensures FindEnding(h, l).None?
  {
  }

  /**
   * Round trip: joining a canonical hierarchy with `、` and parsing it again
   * gives the hierarchy back.
   */
  lemma ParseJoinedLevels(h: seq<string>)
    requires CanonicalLevels(h)
    ensures ParseLocationCommaFormat(Join(h, "、")) == h
  {
    SplitJoinedLevels(h);
    CommaLevelsCanonical(h);
  }
}
