/** Option type shared by every module of the model. */
module Base {
  datatype Option<+T> = None | Some(value: T)
}

/**
 * The JavaScript string primitives the evaluation code relies on, written out
 * over `string` (a sequence of Unicode scalar values):
 *  - `trim`, `\s`: the ECMAScript WhiteSpace and LineTerminator characters;
 *  - `toLowerCase`: ASCII letters only (every other character is unchanged);
 *  - `includes`, `startsWith`, `endsWith`, `indexOf`, `replace` with a string
 *    pattern (first occurrence only), `split` on a set of one-character
 *    separators, `join`;
 *  - `parseFloat`, read as an exact decimal (`real`), `None` standing for NaN.
 */
module JsText {
  import opened Base

  // ---------------------------------------------------------------------------
  // Characters
  // ---------------------------------------------------------------------------

  /** The characters matched by `\s` and removed by `trim`. */
  predicate IsSpace(c: char) {
    c == ' ' || c == '\t' || c == '\n' || c == '\r' || c == '\U{000B}' || c == '\U{000C}'
    || c == '\U{00A0}' || c == '\U{1680}' || ('\U{2000}' <= c <= '\U{200A}')
    || c == '\U{2028}' || c == '\U{2029}' || c == '\U{202F}' || c == '\U{205F}'
    || c == '\U{3000}' || c == '\U{FEFF}'
  }

  /** `\d` and `[0-9]`: ASCII digits only. */
  predicate IsDigit(c: char) { '0' <= c <= '9' }

  predicate IsUpper(c: char) { 'A' <= c <= 'Z' }

  predicate IsLower(c: char) { 'a' <= c <= 'z' }

  /** `[a-z]` under the `i` flag. */
  predicate IsLetter(c: char) { IsUpper(c) || IsLower(c) }

  function LowerChar(c: char): (r: char)
    ensures IsUpper(c) ==> IsLower(r)
    ensures !IsUpper(c) ==> r == c
  {
    if IsUpper(c) then (c as int + 32) as char else c
  }

  // ---------------------------------------------------------------------------
  // toLowerCase, trim
  // ---------------------------------------------------------------------------

  function ToLower(s: string): (r: string)
    ensures |r| == |s|
    ensures forall i :: 0 <= i < |s| ==> r[i] == LowerChar(s[i])
  {
    seq(|s|, i requires 0 <= i < |s| => LowerChar(s[i]))
  }

  lemma ToLowerIdempotent(s: string)
    ensures ToLower(ToLower(s)) == ToLower(s)
  {
  }

  lemma ToLowerAppend(a: string, b: string)
    ensures ToLower(a + b) == ToLower(a) + ToLower(b)
  {
    assert forall i :: 0 <= i < |a + b| ==> ToLower(a + b)[i] == (ToLower(a) + ToLower(b))[i];
  }

  /** `trimStart`: drops the leading white space. */
  function TrimLeft(s: string): (r: string)
    ensures |r| <= |s| && r == s[|s| - |r|..]
    ensures r == [] || !IsSpace(r[0])
    ensures forall k :: 0 <= k < |s| - |r| ==> IsSpace(s[k])
  {
    if |s| > 0 && IsSpace(s[0]) then TrimLeft(s[1..]) else s
  }

  /** `trimEnd`: drops the trailing white space. */
  function TrimRight(s: string): (r: string)
    ensures |r| <= |s| && r == s[..|r|]
    ensures r == [] || !IsSpace(r[|r| - 1])
    ensures forall k :: |r| <= k < |s| ==> IsSpace(s[k])
  {
    if |s| > 0 && IsSpace(s[|s| - 1]) then TrimRight(s[..|s| - 1]) else s
  }

  function Trim(s: string): (r: string)
    ensures |r| <= |s|
    ensures r == [] || (!IsSpace(r[0]) && !IsSpace(r[|r| - 1]))
  {
    TrimRight(TrimLeft(s))
  }

  /** How many white-space characters `trim()` drops at the front. */
  function LeadingSpace(s: string): (n: nat)
    ensures n <= |s|
  {
    |s| - |TrimLeft(s)|
  }

  /** `trim()` keeps a stretch of the string: everything before it and
      everything after it is white space, and the stretch neither starts
      nor ends with white space.  These facts fix the result. */
  lemma TrimSpec(s: string)
    ensures LeadingSpace(s) + |Trim(s)| <= |s|
    ensures Trim(s) == s[LeadingSpace(s)..LeadingSpace(s) + |Trim(s)|]
    ensures forall k :: 0 <= k < LeadingSpace(s) ==> IsSpace(s[k])
    ensures forall k :: LeadingSpace(s) + |Trim(s)| <= k < |s| ==> IsSpace(s[k])
    ensures Trim(s) == [] || (!IsSpace(Trim(s)[0]) && !IsSpace(Trim(s)[|Trim(s)| - 1]))
  {
    TrimSlice(s);
    TrimTrailing(s);
  }

  lemma TrimSlice(s: string)
    ensures LeadingSpace(s) + |Trim(s)| <= |s|
    ensures Trim(s) == s[LeadingSpace(s)..LeadingSpace(s) + |Trim(s)|]
  {
    var l := TrimLeft(s);
    var r := TrimRight(l);
    var a := |s| - |l|;
    assert LeadingSpace(s) == a && Trim(s) == r;
    TrimStretch(s, l, r, a);
  }

  lemma TrimTrailing(s: string)
    ensures LeadingSpace(s) + |Trim(s)| <= |s|
    ensures forall k :: LeadingSpace(s) + |Trim(s)| <= k < |s| ==> IsSpace(s[k])
  {
    var l := TrimLeft(s);
    var r := TrimRight(l);
    var a := |s| - |l|;
    assert LeadingSpace(s) == a && Trim(s) == r;
    TrimStretch(s, l, r, a);
  }

  /** A prefix `r` of the suffix `l` of `s` from `a` is the stretch of `s`
      from `a`; what follows it in `s` is what follows it in `l`. */
  lemma TrimStretch(s: string, l: string, r: string, a: nat)
    requires a <= |s| && l == s[a..]
    requires |r| <= |l| && r == l[..|r|]
    requires forall k :: |r| <= k < |l| ==> IsSpace(l[k])
    ensures a + |r| <= |s| && r == s[a..a + |r|]
    ensures forall k :: a + |r| <= k < |s| ==> IsSpace(s[k])
  {
    SliceOfSuffix(s, a, |r|);
    forall k | a + |r| <= k < |s|
      ensures IsSpace(s[k])
    {
      assert s[k] == l[k - a];
    }
  }

  lemma SliceOfSuffix(s: string, a: nat, n: nat)
    requires a + n <= |s|
    ensures s[a..][..n] == s[a..a + n]
  {
  }

  /** Trimming only removes characters. */
  lemma TrimKeepsCharacters(s: string)
    ensures forall c :: c in Trim(s) ==> c in s
  {
    var l := TrimLeft(s);
    var r := TrimRight(l);
    forall c | c in r
      ensures c in s
    {
      var k :| 0 <= k < |r| && r[k] == c;
      assert r == l[..|r|];
      assert l[k] == c;
      assert l == s[|s| - |l|..];
      assert s[|s| - |l| + k] == c;
    }
  }

  /** A string with no white space at either end is its own trim. */
  predicate Trimmed(s: string) {
    s == [] || (!IsSpace(s[0]) && !IsSpace(s[|s| - 1]))
  }

  lemma TrimOfTrimmed(s: string)
    requires Trimmed(s)
    ensures Trim(s) == s
  {
  }

  lemma TrimIdempotent(s: string)
    ensures Trim(Trim(s)) == Trim(s)
  {
    TrimOfTrimmed(Trim(s));
  }

  /** The characters that survive trimming are those strictly between the first
      and the last non-space character. */
  lemma TrimAllSpace(s: string)
    requires forall k :: 0 <= k < |s| ==> IsSpace(s[k])
    ensures Trim(s) == []
  {
  }

  lemma TrimToLowerCommute(s: string)
    ensures Trim(ToLower(s)) == ToLower(Trim(s))
    decreases |s|
  {
    TrimLeftToLower(s);
    TrimRightToLower(TrimLeft(s));
  }

  lemma {:induction false} TrimLeftToLower(s: string)
    ensures TrimLeft(ToLower(s)) == ToLower(TrimLeft(s))
    decreases |s|
  {
    if |s| > 0 {
      var t := ToLower(s);
      LowerCharSpace(s[0]);
      if IsSpace(s[0]) {
        assert t[1..] == ToLower(s[1..]);
        TrimLeftToLower(s[1..]);
        assert TrimLeft(t) == TrimLeft(t[1..]);
      } else {
        assert TrimLeft(t) == t;
      }
    }
  }

  /** Lower-casing neither makes nor unmakes white space. */
  lemma LowerCharSpace(c: char)
    ensures IsSpace(LowerChar(c)) == IsSpace(c)
  {
  }

  lemma {:induction false} TrimRightToLower(s: string)
    ensures TrimRight(ToLower(s)) == ToLower(TrimRight(s))
    decreases |s|
  {
    if |s| > 0 {
      var t := ToLower(s);
      LowerCharSpace(s[|s| - 1]);
      if IsSpace(s[|s| - 1]) {
        assert t[..|s| - 1] == ToLower(s[..|s| - 1]);
        TrimRightToLower(s[..|s| - 1]);
        assert TrimRight(t) == TrimRight(t[..|t| - 1]);
      } else {
        assert TrimRight(t) == t;
      }
    }
  }

  // ---------------------------------------------------------------------------
  // includes, indexOf, startsWith, endsWith
  // ---------------------------------------------------------------------------

  predicate OccursAt(s: string, t: string, i: nat) {
    i + |t| <= |s| && s[i..i + |t|] == t
  }

  /** First index at or after `from` where `t` occurs in `s`, or -1. */
  function IndexFrom(s: string, t: string, from: nat): (r: int)
    ensures r == -1 || (from <= r && OccursAt(s, t, r))
    ensures r == -1 ==> forall i :: from <= i <= |s| ==> !OccursAt(s, t, i)
    ensures r >= 0 ==> forall i :: from <= i < r ==> !OccursAt(s, t, i)
    decreases |s| - from
  {
    if from + |t| > |s| then -1
    else if s[from..from + |t|] == t then from
    else IndexFrom(s, t, from + 1)
  }

  /** `s.indexOf(t)`. */
  function IndexOf(s: string, t: string): (r: int)
    ensures r == -1 || (r >= 0 && OccursAt(s, t, r))
    ensures r == -1 <==> forall i :: 0 <= i <= |s| ==> !OccursAt(s, t, i)
    ensures r >= 0 ==> forall i :: 0 <= i < r ==> !OccursAt(s, t, i)
  {
    IndexFrom(s, t, 0)
  }

  /** `s.includes(t)`. */
  predicate Includes(s: string, t: string) {
    exists i :: 0 <= i <= |s| && OccursAt(s, t, i)
  }

  /** `includes` is `indexOf(...) >= 0`. */
  lemma IncludesIndexOf(s: string, t: string)
    ensures Includes(s, t) <==> IndexOf(s, t) >= 0
  {
    if IndexOf(s, t) >= 0 {
      assert OccursAt(s, t, IndexOf(s, t));
    }
  }

  lemma IncludesAt(s: string, t: string, i: nat)
    requires OccursAt(s, t, i)
    ensures Includes(s, t)
  {
  }

  lemma IncludesSelf(s: string)
    ensures Includes(s, s)
  {
    assert OccursAt(s, s, 0);
  }

  lemma IncludesEmpty(s: string)
    ensures Includes(s, "")
  {
    assert OccursAt(s, "", 0);
  }

  /** A string that includes the other and is no longer than it is equal to it. */
  lemma IncludesSameLength(s: string, t: string)
    requires Includes(s, t) && |s| <= |t|
    ensures s == t
  {
    var i :| 0 <= i <= |s| && OccursAt(s, t, i);
    assert s[0..|t|] == s;
  }

  lemma IncludesTransitive(a: string, b: string, c: string)
    requires Includes(a, b) && Includes(b, c)
    ensures Includes(a, c)
  {
    var i :| 0 <= i <= |a| && OccursAt(a, b, i);
    var j :| 0 <= j <= |b| && OccursAt(b, c, j);
    assert a[i..i + |b|] == b;
    forall k | 0 <= k < |c|
      ensures a[i + j + k] == c[k]
    {
      assert a[i + j + k] == b[j + k];
    }
    assert OccursAt(a, c, i + j);
  }

  lemma IncludesAppend(a: string, b: string)
    ensures Includes(a + b, a) && Includes(a + b, b)
  {
    assert OccursAt(a + b, a, 0);
    assert OccursAt(a + b, b, |a|);
  }

  predicate StartsWith(s: string, p: string) {
    |p| <= |s| && s[..|p|] == p
  }

  predicate EndsWith(s: string, p: string) {
    |p| <= |s| && s[|s| - |p|..] == p
  }

  /** The lower-case word `t` at `i`, ignoring ASCII case (the `/i` flag). */
  predicate CaselessAt(s: string, i: nat, t: string)
    decreases |t|
  {
    |t| == 0 || (i < |s| && LowerChar(s[i]) == t[0] && CaselessAt(s, i + 1, t[1..]))
  }

  /** A word with no capital letters is found at a place that holds it. */
  lemma {:induction false} CaselessAtItself(s: string, i: nat, t: string)
    requires i + |t| <= |s| && s[i..i + |t|] == t
    requires forall k :: 0 <= k < |t| ==> !IsUpper(t[k])
    ensures CaselessAt(s, i, t)
    decreases |t|
  {
    if |t| > 0 {
      assert s[i] == t[0];
      assert s[i + 1..i + 1 + |t[1..]|] == t[1..];
      CaselessAtItself(s, i + 1, t[1..]);
    }
  }

  /** `/[set]$/.test(s)`: the last character belongs to the set. */
  predicate EndsWithOneOf(s: string, cs: set<char>) {
    |s| > 0 && s[|s| - 1] in cs
  }

  /** `s.replace(p, r)` with a string pattern: only the first occurrence. */
  function ReplaceFirst(s: string, p: string, r: string): (res: string)
    ensures IndexOf(s, p) == -1 ==> res == s
    ensures IndexOf(s, p) >= 0 ==>
      res == s[..IndexOf(s, p)] + r + s[IndexOf(s, p) + |p|..]
  {
    var i := IndexOf(s, p);
    if i < 0 then s else s[..i] + r + s[i + |p|..]
  }

  /** Drops every occurrence of the characters of `cs` (`s.replace(/[cs]/g, '')`). */
  function RemoveChars(s: string, cs: set<char>): (r: string)
    ensures |r| <= |s|
    ensures forall k :: 0 <= k < |r| ==> r[k] !in cs
    ensures forall c :: c in r ==> c in s
  {
    if s == [] then []
    else if s[0] in cs then RemoveChars(s[1..], cs)
    else [s[0]] + RemoveChars(s[1..], cs)
  }

  /** Removing characters the text does not hold changes nothing. */
  lemma {:induction false} RemoveNoChars(s: string, cs: set<char>)
    requires forall k :: 0 <= k < |s| ==> s[k] !in cs
    ensures RemoveChars(s, cs) == s
  {
    if s != [] {
      RemoveNoChars(s[1..], cs);
    }
  }

  /** Keeps only the characters satisfying `keep`. */
  function Keep(s: string, keep: char -> bool): (r: string)
    ensures |r| <= |s|
    ensures forall k :: 0 <= k < |r| ==> keep(r[k])
    ensures forall c :: c in r ==> c in s
  {
    if s == [] then []
    else if keep(s[0]) then [s[0]] + Keep(s[1..], keep)
    else Keep(s[1..], keep)
  }

  lemma {:induction false} KeepIdempotent(s: string, keep: char -> bool)
    ensures Keep(Keep(s, keep), keep) == Keep(s, keep)
  {
    if s != [] {
      KeepIdempotent(s[1..], keep);
      if keep(s[0]) {
        assert ([s[0]] + Keep(s[1..], keep))[1..] == Keep(s[1..], keep);
      }
    }
  }

  lemma {:induction false} KeepAllKept(s: string, keep: char -> bool)
    requires forall k :: 0 <= k < |s| ==> keep(s[k])
    ensures Keep(s, keep) == s
  {
    if s != [] {
      KeepAllKept(s[1..], keep);
    }
  }

  // ---------------------------------------------------------------------------
  // split, join
  // ---------------------------------------------------------------------------

  /** Index of the first character of `s` (at or after `from`) in `cs`, or |s|. */
  function NextIn(s: string, cs: set<char>, from: nat): (r: nat)
    requires from <= |s|
    ensures from <= r <= |s|
    ensures r < |s| ==> s[r] in cs
    ensures forall k :: from <= k < r ==> s[k] !in cs
    decreases |s| - from
  {
    if from == |s| || s[from] in cs then from else NextIn(s, cs, from + 1)
  }

  /** `NextIn` is characterised by its three properties. */
  lemma NextInIs(s: string, cs: set<char>, from: nat, m: nat)
    requires from <= m <= |s|
    requires forall k :: from <= k < m ==> s[k] !in cs
    requires m == |s| || s[m] in cs
    ensures NextIn(s, cs, from) == m
  {
  }

  /** `s.split(/[cs]/)` for a set of one-character separators. */
  function SplitOn(s: string, cs: set<char>): (r: seq<string>)
    ensures |r| >= 1
    ensures forall p :: p in r ==> forall k :: 0 <= k < |p| ==> p[k] !in cs
    decreases |s|
  {
    var i := NextIn(s, cs, 0);
    if i == |s| then [s] else [s[..i]] + SplitOn(s[i + 1..], cs)
  }

  /** `parts.join(sep)`. */
  function Join(parts: seq<string>, sep: string): string {
    if |parts| == 0 then ""
    else if |parts| == 1 then parts[0]
    else parts[0] + sep + Join(parts[1..], sep)
  }

  /** Splitting a joined list on separators none of its parts contains gives
      the parts back. */
  lemma {:induction false} SplitJoin(parts: seq<string>, c: char, cs: set<char>)
    requires |parts| >= 1 && c in cs
    requires forall p :: p in parts ==> forall k :: 0 <= k < |p| ==> p[k] !in cs
    ensures SplitOn(Join(parts, [c]), cs) == parts
  {
    var s := Join(parts, [c]);
    if |parts| == 1 {
      assert s == parts[0];
      NextInIs(s, cs, 0, |s|);
    } else {
      var p0 := parts[0];
      var rest := Join(parts[1..], [c]);
      assert s == p0 + [c] + rest;
      assert s[|p0|] == c;
      assert forall k :: 0 <= k < |p0| ==> s[k] == p0[k];
      NextInIs(s, cs, 0, |p0|);
      assert s[..|p0|] == p0;
      assert s[|p0| + 1..] == rest;
      SplitJoin(parts[1..], c, cs);
    }
  }

  /** A join of non-empty parts starts with the first character of its first
      part and ends with the last character of its last part. */
  lemma {:induction false} JoinBounds(parts: seq<string>, sep: string)
    requires |parts| >= 1 && forall p :: p in parts ==> |p| > 0
    ensures |Join(parts, sep)| > 0
    ensures Join(parts, sep)[0] == parts[0][0]
    ensures Join(parts, sep)[|Join(parts, sep)| - 1] == parts[|parts| - 1][|parts[|parts| - 1]| - 1]
  {
    if |parts| > 1 {
      var tail := parts[1..];
      assert forall p :: p in tail ==> p in parts;
      JoinBounds(tail, sep);
      var rest := Join(tail, sep);
      assert Join(parts, sep) == parts[0] + sep + rest;
      assert parts[0] in parts;
      assert tail[|tail| - 1] == parts[|parts| - 1];
    }
  }

  // ---------------------------------------------------------------------------
  // Digit runs and numbers
  // ---------------------------------------------------------------------------

  /** End of the maximal run of ASCII digits starting at `i`. */
  function DigitRunEnd(s: string, i: nat): (r: nat)
    requires i <= |s|
    ensures i <= r <= |s|
    ensures forall k :: i <= k < r ==> IsDigit(s[k])
    ensures r == |s| || !IsDigit(s[r])
    decreases |s| - i
  {
    if i < |s| && IsDigit(s[i]) then DigitRunEnd(s, i + 1) else i
  }

  predicate FourDigitsAt(s: string, i: nat) {
    i + 4 <= |s| && IsDigit(s[i]) && IsDigit(s[i + 1]) && IsDigit(s[i + 2]) && IsDigit(s[i + 3])
  }

  /** Leftmost index where `/\d{4}/` matches at or after `from`. */
  function FindFourDigits(s: string, from: nat): (r: Option<nat>)
    ensures r.Some? ==> from <= r.value && FourDigitsAt(s, r.value)
    ensures r.Some? ==> forall k :: from <= k < r.value ==> !FourDigitsAt(s, k)
    ensures r.None? ==> forall k :: from <= k ==> !FourDigitsAt(s, k)
    decreases |s| - from
  {
    if from + 4 > |s| then None
    else if FourDigitsAt(s, from) then Some(from)
    else FindFourDigits(s, from + 1)
  }

  /** `s.match(/(\d{4})/)?.[1]`: the first run of four digits. */
  function FirstYear(s: string): (r: Option<string>)
    ensures r.Some? ==> |r.value| == 4 && forall k :: 0 <= k < 4 ==> IsDigit(r.value[k])
    ensures r.Some? ==> Includes(s, r.value)
    ensures r.None? <==> forall k :: 0 <= k ==> !FourDigitsAt(s, k)
  {
    match FindFourDigits(s, 0)
    case None => None
    case Some(i) =>
      assert OccursAt(s, s[i..i + 4], i);
      Some(s[i..i + 4])
  }

  /** A four-digit string is its own first four-digit run. */
  lemma FirstYearOfYear(y: string)
    requires |y| == 4 && forall k :: 0 <= k < 4 ==> IsDigit(y[k])
    ensures FirstYear(y) == Some(y)
  {
    assert FourDigitsAt(y, 0);
    assert y[0..4] == y;
  }

  function Pow10(n: nat): (r: nat)
    ensures r >= 1
  {
    if n == 0 then 1 else 10 * Pow10(n - 1)
  }

  /** Value of a string of ASCII digits, read in base ten. */
  function DigitsValue(s: string): (r: nat)
    requires forall k :: 0 <= k < |s| ==> IsDigit(s[k])
    ensures r < Pow10(|s|)
  {
    if s == [] then 0
    else
      var d := s[|s| - 1] as int - '0' as int;
      assert IsDigit(s[|s| - 1]) && 0 <= d <= 9;
      var h := DigitsValue(s[..|s| - 1]);
      assert h + 1 <= Pow10(|s| - 1);
      assert 10 * h + d < 10 * (h + 1) <= 10 * Pow10(|s| - 1);
      10 * h + d
  }

  /**
   * `parseFloat(s)`: leading white space is skipped, then the longest prefix of
   * the form [+-]? digits [. digits] [e[+-]digits] (at least one digit in the
   * mantissa) is read exactly.  `None` stands for NaN.
   */
  function ParseFloat(s: string): (r: Option<real>)
  {
    var p := |s| - |TrimLeft(s)|;
    var neg := p < |s| && s[p] == '-';
    var q := if p < |s| && (s[p] == '-' || s[p] == '+') then p + 1 else p;
    match UnsignedAt(s, q)
    case None => None
    case Some(v) => Some(if neg then -v else v)
  }

  /** The unsigned decimal read from position `q`, if it has a digit. */
  function UnsignedAt(s: string, q: nat): (r: Option<real>)
    requires q <= |s|
    ensures r.Some? ==> r.value >= 0.0
  {
    var e1 := DigitRunEnd(s, q);
    var f := if e1 < |s| && s[e1] == '.' then e1 + 1 else e1;
    var e2 := DigitRunEnd(s, f);
    if e1 == q && e2 == f then None
    else Some(Fraction(s[q..e1], s[f..e2]) * ExponentScale(s, e2))
  }

  /** The value of `whole.frac` for digit strings `whole` and `frac`. */
  function Fraction(whole: string, frac: string): (r: real)
    requires forall k :: 0 <= k < |whole| ==> IsDigit(whole[k])
    requires forall k :: 0 <= k < |frac| ==> IsDigit(frac[k])
    ensures r >= 0.0
  {
    assert forall k :: 0 <= k < |whole + frac| ==> IsDigit((whole + frac)[k]);
    (DigitsValue(whole + frac) as real) / (Pow10(|frac|) as real)
  }

  /** The factor contributed by an exponent part starting at `i`, or 1 when
      there is none. */
  function ExponentScale(s: string, i: nat): (r: real)
    requires i <= |s|
    ensures r > 0.0
  {
    if i < |s| && (s[i] == 'e' || s[i] == 'E') then
      var sgn := i + 1 < |s| && (s[i + 1] == '-' || s[i + 1] == '+');
      var d := if sgn then i + 2 else i + 1;
      var e := DigitRunEnd(s, d);
      if e == d then 1.0
      else if sgn && s[i + 1] == '-' then 1.0 / (Pow10(DigitsValue(s[d..e])) as real)
      else Pow10(DigitsValue(s[d..e])) as real
    else 1.0
  }

  predicate DigitsOrDots(s: string) {
    forall k :: 0 <= k < |s| ==> IsDigit(s[k]) || s[k] == '.'
  }

  /** `parseFloat` of a string of digits and dots is never negative. */
  lemma ParseFloatDigitsNonNegative(s: string)
    requires DigitsOrDots(s)
    ensures ParseFloat(s).Some? ==> ParseFloat(s).value >= 0.0
  {
    if |s| > 0 {
      assert !IsSpace(s[0]);
    }
  }

  /** A missing value for JavaScript truthiness: null, undefined or the empty string. */
  predicate Falsy(v: Option<string>) {
    v.None? || v.value == ""
  }

  /** The JavaScript comparison `num / den < bound` for a finite `bound`:
      division by zero gives NaN (0/0, never less) or an infinity of the sign
      of `num`. */
  predicate RatioBelow(num: real, den: real, bound: real) {
    if den == 0.0 then num < 0.0 else num / den < bound
  }

  function Abs(x: real): (r: real)
    ensures r >= 0.0 && (r == x || r == -x)
  {
    if x < 0.0 then -x else x
  }

  /** Decimal rendering of an integer, as template literals print it. */
  function IntToString(n: int): (r: string)
    ensures |r| >= 1
  {
    if n < 0 then "-" + NatToString(-n) else NatToString(n)
  }

  function NatToString(n: nat): (r: string)
    ensures |r| >= 1
    ensures forall k :: 0 <= k < |r| ==> IsDigit(r[k])
    ensures DigitsValue(r) == n
  {
    if n < 10 then [('0' as int + n) as char]
    else
      var r := NatToString(n / 10) + [('0' as int + n % 10) as char];
      assert r[..|r| - 1] == NatToString(n / 10);
      r
  }

  // ---------------------------------------------------------------------------
  // Set objects, listed in insertion order (`Array.from(set)`)
  // ---------------------------------------------------------------------------

  /** `set.add(x)`: appended unless already present. */
  function SetAdd<T(==,!new)>(xs: seq<T>, x: T): (r: seq<T>)
    ensures x in r
    ensures forall y :: y in r <==> y in xs || y == x
  {
    if x in xs then xs else xs + [x]
  }

  /** Adding each of `ys` in turn. */
  function SetAddAll<T(==,!new)>(xs: seq<T>, ys: seq<T>): (r: seq<T>)
    decreases |ys|
  {
    if ys == [] then xs else SetAddAll(SetAdd(xs, ys[0]), ys[1..])
  }

  predicate Distinct<T(==,!new)>(xs: seq<T>) {
    forall i, j :: 0 <= i < j < |xs| ==> xs[i] != xs[j]
  }

  /** Index of the first occurrence of `y` in `ys`. */
  ghost function FirstIndex<T>(ys: seq<T>, y: T): (r: nat)
    requires y in ys
    ensures r < |ys| && ys[r] == y
    ensures forall k :: 0 <= k < r ==> ys[k] != y
  {
    if ys[0] == y then 0 else 1 + FirstIndex(ys[1..], y)
  }

  /** A set lists the old elements first, unchanged, then the added values
      that were new, in the order of their first occurrence. */
  lemma {:induction false} SetAddAllOrder<T(!new)>(xs: seq<T>, ys: seq<T>)
    requires Distinct(xs)
    ensures |SetAddAll(xs, ys)| >= |xs| && SetAddAll(xs, ys)[..|xs|] == xs
    ensures forall i :: |xs| <= i < |SetAddAll(xs, ys)| ==>
      SetAddAll(xs, ys)[i] in ys && SetAddAll(xs, ys)[i] !in xs
    ensures forall i, j :: |xs| <= i < j < |SetAddAll(xs, ys)| ==>
      FirstIndex(ys, SetAddAll(xs, ys)[i]) < FirstIndex(ys, SetAddAll(xs, ys)[j])
    decreases |ys|
  {
    if ys != [] {
      var y := ys[0];
      var xs' := SetAdd(xs, y);
      var tail := ys[1..];
      var r := SetAddAll(xs', tail);
      assert r == SetAddAll(xs, ys);
      assert Distinct(xs') by {
        if y !in xs {
          assert forall i :: 0 <= i < |xs| ==> xs'[i] == xs[i];
        }
      }
      SetAddAllOrder(xs', tail);
      SetAddAllSpec(xs', tail);
      assert r[..|xs|] == xs by {
        assert r[..|xs'|] == xs';
        assert xs'[..|xs|] == xs;
      }
      forall i | |xs'| <= i < |r|
        ensures r[i] != y && FirstIndex(ys, r[i]) == 1 + FirstIndex(tail, r[i])
      {
        assert r[i] !in xs';
        assert y in xs';
        FirstIndexTail(ys, r[i]);
      }
      forall i | |xs| <= i < |r|
        ensures r[i] in ys && r[i] !in xs
      {
        if i < |xs'| {
          assert xs' == xs + [y] && r[i] == y;
        } else {
          assert r[i] in tail;
        }
      }
      forall i, j | |xs| <= i < j < |r|
        ensures FirstIndex(ys, r[i]) < FirstIndex(ys, r[j])
      {
        if i < |xs'| {
          assert r[i] == y;
        }
      }
    }
  }

  lemma FirstIndexTail<T>(ys: seq<T>, y: T)
    requires y in ys && y != ys[0]
    ensures y in ys[1..] && FirstIndex(ys, y) == 1 + FirstIndex(ys[1..], y)
  {
  }

  /** A set holds every value added to it once, and nothing else. */
  lemma {:induction false} SetAddAllSpec<T(!new)>(xs: seq<T>, ys: seq<T>)
    requires Distinct(xs)
    ensures Distinct(SetAddAll(xs, ys))
    ensures forall y :: y in SetAddAll(xs, ys) <==> y in xs || y in ys
    decreases |ys|
  {
    if ys != [] {
      SetAddAllSpec(SetAdd(xs, ys[0]), ys[1..]);
      assert forall y :: y in ys <==> y == ys[0] || y in ys[1..];
    }
  }
}
