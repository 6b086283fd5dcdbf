/**
 * The regular expressions of the older evaluator (js/main.js), each written
 * as a scanner.  A pattern here is one of the few shapes those expressions
 * take; `MatchAt` tries a pattern at one position exactly as a backtracking
 * engine would, `FirstMatch` finds the leftmost position, and `GroupsFrom` and
 * `WholesFrom` list the successive matches of a global (`/g`) expression,
 * each search starting where the previous match ended.
 */
module Scanning {
  import opened Base
  import opened JsText

  /** The character classes the expressions use. */
  datatype CharClass =
    | Kanji          // [一-龯], U+4E00 to U+9FAF
    | NameChar       // [一-龯ひらがなカタカナ]: the kanji and seven listed kana
    | ReadingKana    // [ひらがなカタカナ\s]
    | ReadingAny     // [一-龯ひらがなカタカナ\s]
    | Lower          // [a-z]
    | Space          // \s
    | UrlChar        // [^\s\]）)。、\n]
    | UrlCharJa      // [^\s、。）\]]
    | Except(c: char) // [^c]

  /** The characters of `[ひらがなカタカナ]`: seven kana, not whole scripts. */
  predicate IsListedKana(c: char) {
    c == 'ひ' || c == 'ら' || c == 'が' || c == 'な' || c == 'カ' || c == 'タ' || c == 'ナ'
  }

  predicate IsKanji(c: char) { '一' <= c <= '龯' }

  predicate InClass(c: char, k: CharClass) {
    match k
    case Kanji => IsKanji(c)
    case NameChar => IsKanji(c) || IsListedKana(c)
    case ReadingKana => IsListedKana(c) || IsSpace(c)
    case ReadingAny => IsKanji(c) || IsListedKana(c) || IsSpace(c)
    case Lower => IsLower(c)
    case Space => IsSpace(c)
    case UrlChar => !(IsSpace(c) || c == ']' || c == '）' || c == ')' || c == '。' || c == '、')
    case UrlCharJa => !(IsSpace(c) || c == '、' || c == '。' || c == '）' || c == ']')
    case Except(x) => c != x
  }

  /** What follows the repeated class of a `Run` pattern. */
  datatype Tail =
    | Nothing              // the pattern ends with the run
    | OneOf(chars: string) // one character of a set, `[都道府県]`
    | Word(w: string)      // a literal word, `キャンパス`
    | Reading(inner: CharClass) // `\s*[（(]\s*([inner]+)\s*[）)]`

  type Positive = n: nat | n >= 1 witness 1

  /** The shapes of the expressions. */
  datatype Pattern =
    /** `([cls]{lo,hi}tail)` when `captured`, else `([cls]{lo,hi})tail`. */
    | Run(cls: CharClass, lo: Positive, hi: nat, tail: Tail, captured: bool)
    /** `[A-Z][a-z]+\s+[A-Z][a-z]+`. */
    | WesternName
    /** `https?:\/\/[cls]+` with the `i` flag. */
    | Url(cls: CharClass)
    /** `open https?:\/\/[^close]+ close` with the `i` flag. */
    | Enclosed(open: char, close: char)

  /** One match: where it starts, where group 1 ends (group 1 always starts
      with the match) and where the match ends. */
  datatype Match = Match(start: nat, groupEnd: nat, end: nat)

  // ---------------------------------------------------------------------------
  // Runs of one class
  // ---------------------------------------------------------------------------

  /** End of the longest run of class `k` starting at `i`. */
  function RunEnd(s: string, i: nat, k: CharClass): (r: nat)
    requires i <= |s|
    ensures i <= r <= |s|
    decreases |s| - i
  {
    if i < |s| && InClass(s[i], k) then RunEnd(s, i + 1, k) else i
  }

  lemma {:induction false} RunEndSpec(s: string, i: nat, k: CharClass)
    requires i <= |s|
    ensures forall j :: i <= j < RunEnd(s, i, k) ==> InClass(s[j], k)
    ensures RunEnd(s, i, k) < |s| ==> !InClass(s[RunEnd(s, i, k)], k)
    decreases |s| - i
  {
    if i < |s| && InClass(s[i], k) {
      RunEndSpec(s, i + 1, k);
    }
  }

  // ---------------------------------------------------------------------------
  // Matching at one position
  // ---------------------------------------------------------------------------

  /** Where `tail` ends when it matches at `j`. */
  function TailAt(s: string, j: nat, tail: Tail): (r: Option<nat>)
    requires j <= |s|
    ensures r.Some? ==> j <= r.value <= |s|
  {
    match tail
    case Nothing => Some(j)
    case OneOf(chars) => if j < |s| && s[j] in chars then Some(j + 1) else None
    case Word(w) => if OccursAt(s, w, j) then Some(j + |w|) else None
    case Reading(inner) => ReadingAt(s, j, inner)
  }

  /**
   * `\s*[（(]\s*([inner]+)\s*[）)]` at `j`, where `inner` holds the white
   * space: the leading spaces cannot stop before a bracket, and the inner
   * run can only end at a character outside it, so the match is the opening
   * bracket, a non-empty run of `inner` and the closing bracket.
   */
  function ReadingAt(s: string, j: nat, inner: CharClass): (r: Option<nat>)
    requires j <= |s|
    ensures r.Some? ==> j < r.value <= |s|
  {
    if RunEnd(s, j, Space) < |s| && (s[RunEnd(s, j, Space)] == '（' || s[RunEnd(s, j, Space)] == '(')
      && RunEnd(s, RunEnd(s, j, Space) + 1, inner) > RunEnd(s, j, Space) + 1
      && RunEnd(s, RunEnd(s, j, Space) + 1, inner) < |s|
      && (s[RunEnd(s, RunEnd(s, j, Space) + 1, inner)] == '）'
          || s[RunEnd(s, RunEnd(s, j, Space) + 1, inner)] == ')')
    then Some(RunEnd(s, RunEnd(s, j, Space) + 1, inner) + 1)
    else None
  }

  /**
   * The greedy quantifier `{lo,hi}` with backtracking: the run takes `len`
   * characters, then one fewer, down to `lo`, until the tail matches after
   * it.  The result is the run length and the end of the tail.
   */
  function TryRun(s: string, i: nat, len: nat, lo: Positive, tail: Tail): (r: Option<(nat, nat)>)
    requires i + len <= |s|
    ensures r.Some? ==> lo <= r.value.0 <= len && i + r.value.0 <= r.value.1 <= |s|
    decreases len
  {
    if len < lo then None
    else match TailAt(s, i + len, tail)
      case Some(e) => Some((len, e))
      case None => TryRun(s, i, len - 1, lo, tail)
  }

  /** The tail matches after a run of `l` characters from `i`. */
  predicate TailFits(s: string, i: nat, l: nat, tail: Tail)
    requires i + l <= |s|
  {
    TailAt(s, i + l, tail).Some?
  }

  /** The run length chosen is one after which the tail matches. */
  lemma {:induction false} TryRunFits(s: string, i: nat, len: nat, lo: Positive, tail: Tail)
    requires i + len <= |s|
    ensures TryRun(s, i, len, lo, tail).Some? ==>
      TailAt(s, i + TryRun(s, i, len, lo, tail).value.0, tail) == Some(TryRun(s, i, len, lo, tail).value.1)
    decreases len
  {
    if lo <= len && TailAt(s, i + len, tail).None? {
      TryRunFits(s, i, len - 1, lo, tail);
    }
  }

  /** No run of `l` characters after which the tail matches is longer than
      the one chosen. */
  lemma {:induction false} TryRunLongest(s: string, i: nat, len: nat, lo: Positive, tail: Tail, l: nat)
    requires i + len <= |s| && lo <= l <= len && TailFits(s, i, l, tail)
    ensures TryRun(s, i, len, lo, tail).Some? && l <= TryRun(s, i, len, lo, tail).value.0
    decreases len
  {
    if TailAt(s, i + len, tail).None? {
      TryRunLongest(s, i, len - 1, lo, tail, l);
    }
  }

  /** The run length chosen is the longest after which the tail matches. */
  lemma TryRunGreedy(s: string, i: nat, len: nat, lo: Positive, tail: Tail)
    requires i + len <= |s|
    ensures TryRun(s, i, len, lo, tail).Some? ==>
      TailAt(s, i + TryRun(s, i, len, lo, tail).value.0, tail) == Some(TryRun(s, i, len, lo, tail).value.1)
    ensures forall l :: lo <= l <= len && TailFits(s, i, l, tail) ==>
      TryRun(s, i, len, lo, tail).Some? && l <= TryRun(s, i, len, lo, tail).value.0
  {
    TryRunFits(s, i, len, lo, tail);
    forall l | lo <= l <= len && TailFits(s, i, l, tail)
      ensures TryRun(s, i, len, lo, tail).Some? && l <= TryRun(s, i, len, lo, tail).value.0
    {
      TryRunLongest(s, i, len, lo, tail, l);
    }
  }

  function Min(a: nat, b: nat): nat { if a <= b then a else b }

  /** A `Run` pattern at `i`. */
  function RunAt(s: string, i: nat, cls: CharClass, lo: Positive, hi: nat, tail: Tail, captured: bool): (r: Option<Match>)
    requires i <= |s|
    ensures r.Some? ==> r.value.start == i && i < r.value.groupEnd <= r.value.end <= |s|
  {
    match TryRun(s, i, Min(RunEnd(s, i, cls) - i, hi), lo, tail)
    case None => None
    case Some((len, e)) => Some(Match(i, if captured then e else i + len, e))
  }

  /** `[A-Z][a-z]+\s+[A-Z][a-z]+` at `i`: each `+` takes its whole run,
      because what follows it is outside its class. */
  function WesternAt(s: string, i: nat): (r: Option<Match>)
    requires i <= |s|
    ensures r.Some? ==> r.value.start == i && i < r.value.groupEnd == r.value.end <= |s|
  {
    if i < |s| && IsUpper(s[i])
      && RunEnd(s, i + 1, Lower) > i + 1
      && RunEnd(s, RunEnd(s, i + 1, Lower), Space) > RunEnd(s, i + 1, Lower)
      && RunEnd(s, RunEnd(s, i + 1, Lower), Space) < |s|
      && IsUpper(s[RunEnd(s, RunEnd(s, i + 1, Lower), Space)])
      && RunEnd(s, RunEnd(s, RunEnd(s, i + 1, Lower), Space) + 1, Lower)
         > RunEnd(s, RunEnd(s, i + 1, Lower), Space) + 1
    then
      Some(Match(i, RunEnd(s, RunEnd(s, RunEnd(s, i + 1, Lower), Space) + 1, Lower),
                    RunEnd(s, RunEnd(s, RunEnd(s, i + 1, Lower), Space) + 1, Lower)))
    else None
  }

  /** `https?:\/\/` with the `i` flag at `i`: where it ends.  When an `s`
      follows `http` the shorter alternative cannot match, since `:` would
      have to be that `s`. */
  function SchemeEnd(s: string, i: nat): (r: Option<nat>)
    requires i <= |s|
    ensures r.Some? ==> i + 7 <= r.value <= |s|
  {
    if !CaselessAt(s, i, "http") then None
    else if i + 4 < |s| && LowerChar(s[i + 4]) == 's' then
      (if OccursAt(s, "://", i + 5) then Some(i + 8) else None)
    else if OccursAt(s, "://", i + 4) then Some(i + 7)
    else None
  }

  /** `https?:\/\/[cls]+` at `i`. */
  function UrlAt(s: string, i: nat, cls: CharClass): (r: Option<Match>)
    requires i <= |s|
    ensures r.Some? ==> r.value.start == i && i < r.value.groupEnd == r.value.end <= |s|
  {
    match SchemeEnd(s, i)
    case None => None
    case Some(q) =>
      if RunEnd(s, q, cls) > q then Some(Match(i, RunEnd(s, q, cls), RunEnd(s, q, cls))) else None
  }

  /** `open https?:\/\/[^close]+ close` at `i`: the run stops at the first
      `close`, which must be there. */
  function EnclosedAt(s: string, i: nat, open: char, close: char): (r: Option<Match>)
    requires i <= |s|
    ensures r.Some? ==> r.value.start == i && i < r.value.groupEnd == r.value.end <= |s|
  {
    if i < |s| && s[i] == open then
      match SchemeEnd(s, i + 1)
      case None => None
      case Some(q) =>
        if q < RunEnd(s, q, Except(close)) < |s| && s[RunEnd(s, q, Except(close))] == close
        then Some(Match(i, RunEnd(s, q, Except(close)) + 1, RunEnd(s, q, Except(close)) + 1))
        else None
    else None
  }

  /** The pattern tried at position `i`. */
  function MatchAt(s: string, i: nat, p: Pattern): (r: Option<Match>)
    requires i <= |s|
    ensures r.Some? ==> r.value.start == i && i < r.value.groupEnd <= r.value.end <= |s|
  {
    match p
    case Run(cls, lo, hi, tail, captured) => RunAt(s, i, cls, lo, hi, tail, captured)
    case WesternName => WesternAt(s, i)
    case Url(cls) => UrlAt(s, i, cls)
    case Enclosed(open, close) => EnclosedAt(s, i, open, close)
  }

  // ---------------------------------------------------------------------------
  // Searching
  // ---------------------------------------------------------------------------

  /** The pattern matches at no position in [from, to). */
  predicate NoMatchIn(s: string, p: Pattern, from: nat, to: nat)
    requires to <= |s| + 1
    decreases if from < to then to - from else 0
  {
    from >= to || (MatchAt(s, from, p).None? && NoMatchIn(s, p, from + 1, to))
  }

  /** The leftmost position at or after `from` where the pattern matches. */
  function FirstMatch(s: string, p: Pattern, from: nat): (r: Option<nat>)
    requires from <= |s|
    ensures r.Some? ==> from <= r.value <= |s| && MatchAt(s, r.value, p).Some?
    ensures r.Some? ==> NoMatchIn(s, p, from, r.value)
    ensures r.None? ==> NoMatchIn(s, p, from, |s| + 1)
    decreases |s| - from
  {
    if MatchAt(s, from, p).Some? then Some(from)
    else if from == |s| then None
    else FirstMatch(s, p, from + 1)
  }

  /** `p.exec(s)` with `p.lastIndex == from`: the match, if any. */
  function ExecFrom(s: string, p: Pattern, from: nat): (r: Option<Match>)
    requires from <= |s|
    ensures r.Some? ==> from <= r.value.start < r.value.groupEnd <= r.value.end <= |s|
  {
    match FirstMatch(s, p, from)
    case None => None
    case Some(i) => MatchAt(s, i, p)
  }

  /** Group 1 of each match of a global expression (`match[1]` in an
      `exec` loop). */
  function Groups(s: string, p: Pattern): seq<string> {
    GroupsFrom(s, p, 0)
  }

  function GroupsFrom(s: string, p: Pattern, from: nat): (r: seq<string>)
    requires from <= |s|
    decreases |s| - from
  {
    match ExecFrom(s, p, from)
    case None => []
    case Some(m) => [s[m.start..m.groupEnd]] + GroupsFrom(s, p, m.end)
  }

  /** The whole text of each match (`s.match(p)` for a global expression). */
  function WholesFrom(s: string, p: Pattern, from: nat): (r: seq<string>)
    requires from <= |s|
    decreases |s| - from
  {
    match ExecFrom(s, p, from)
    case None => []
    case Some(m) => [s[m.start..m.end]] + WholesFrom(s, p, m.end)
  }

  /** One step of the `exec` loop behind `GroupsFrom`. */
  lemma GroupsStep(s: string, p: Pattern, from: nat, m: Match)
    requires from <= |s| && ExecFrom(s, p, from) == Some(m)
    ensures GroupsFrom(s, p, from) == [s[m.start..m.groupEnd]] + GroupsFrom(s, p, m.end)
  {
  }

  /** One step of the `exec` loop behind `WholesFrom`. */
  lemma WholesStep(s: string, p: Pattern, from: nat, m: Match)
    requires from <= |s| && ExecFrom(s, p, from) == Some(m)
    ensures WholesFrom(s, p, from) == [s[m.start..m.end]] + WholesFrom(s, p, m.end)
  {
  }

  /** Every element of `xs` is a non-empty piece of `s`. */
  predicate PiecesOf(s: string, xs: seq<string>) {
    forall k :: 0 <= k < |xs| ==> |xs[k]| > 0 && Includes(s, xs[k])
  }

  lemma PiecesCons(s: string, i: nat, j: nat, rest: seq<string>)
    requires i < j <= |s| && PiecesOf(s, rest)
    ensures PiecesOf(s, [s[i..j]] + rest)
  {
    var xs := [s[i..j]] + rest;
    IncludesAt(s, s[i..j], i);
    forall k | 0 <= k < |xs|
      ensures |xs[k]| > 0 && Includes(s, xs[k])
    {
      if k > 0 {
        assert xs[k] == rest[k - 1];
      }
    }
  }

  /** Every group is a non-empty piece of the text. */
  lemma {:induction false} GroupsInText(s: string, p: Pattern, from: nat)
    requires from <= |s|
    ensures PiecesOf(s, GroupsFrom(s, p, from))
    decreases |s| - from
  {
    var e := ExecFrom(s, p, from);
    if e.Some? {
      var m := e.value;
      GroupsStep(s, p, from, m);
      GroupsInText(s, p, m.end);
      PiecesCons(s, m.start, m.groupEnd, GroupsFrom(s, p, m.end));
    }
  }

  /** Every match is a non-empty piece of the text. */
  lemma {:induction false} WholesInText(s: string, p: Pattern, from: nat)
    requires from <= |s|
    ensures PiecesOf(s, WholesFrom(s, p, from))
    decreases |s| - from
  {
    var e := ExecFrom(s, p, from);
    if e.Some? {
      var m := e.value;
      WholesStep(s, p, from, m);
      WholesInText(s, p, m.end);
      PiecesCons(s, m.start, m.end, WholesFrom(s, p, m.end));
    }
  }

  // ---------------------------------------------------------------------------
  // `exec` loops that collect into a Set
  // ---------------------------------------------------------------------------

  function TrimEach(xs: seq<string>): (r: seq<string>)
    ensures |r| == |xs|
    ensures forall k :: 0 <= k < |xs| ==> r[k] == Trim(xs[k])
  {
    if xs == [] then [] else [Trim(xs[0])] + TrimEach(xs[1..])
  }

  /** The trimmed texts a global expression contributes from `from` on:
      group 1 of each match, or the whole match when `whole`. */
  function Captures(text: string, p: Pattern, whole: bool, from: nat): seq<string>
    requires from <= |text|
  {
    TrimEach(if whole then WholesFrom(text, p, from) else GroupsFrom(text, p, from))
  }

  /** One `while ((match = pattern.exec(text)) !== null)` loop: adds the
      trimmed group 1 (or whole match) of every match to `names`. */
  method CollectMatches(text: string, p: Pattern, whole: bool, names: seq<string>) returns (out: seq<string>)
    ensures out == SetAddAll(names, Captures(text, p, whole, 0))
  {
    out := names;
    var last := 0;
    var m := ExecFrom(text, p, last);
    while m.Some?
      invariant last <= |text|
      invariant m == ExecFrom(text, p, last)
      invariant SetAddAll(out, Captures(text, p, whole, last)) == SetAddAll(names, Captures(text, p, whole, 0))
      decreases |text| - last
    {
      var found := if whole then text[m.value.start..m.value.end] else text[m.value.start..m.value.groupEnd];
      assert Captures(text, p, whole, last) == [Trim(found)] + Captures(text, p, whole, m.value.end);
      out := SetAdd(out, Trim(found));
      last := m.value.end;
      m := ExecFrom(text, p, last);
    }
  }

  /** A trimmed string is a piece of the string. */
  lemma IncludesTrim(s: string)
    ensures Includes(s, Trim(s))
  {
    var l := TrimLeft(s);
    assert Trim(s) == TrimRight(l);
    assert OccursAt(s, Trim(s), |s| - |l|) by {
      assert s[|s| - |l|..][..|Trim(s)|] == Trim(s);
    }
  }

  /** Every capture occurs in the text. */
  lemma CapturesInText(text: string, p: Pattern, whole: bool)
    ensures forall c :: c in Captures(text, p, whole, 0) ==> Includes(text, c)
  {
    GroupsInText(text, p, 0);
    WholesInText(text, p, 0);
    var src := if whole then WholesFrom(text, p, 0) else GroupsFrom(text, p, 0);
    forall c | c in Captures(text, p, whole, 0)
      ensures Includes(text, c)
    {
      var k :| 0 <= k < |src| && c == Trim(src[k]);
      assert src[k] in src;
      IncludesTrim(src[k]);
      IncludesTransitive(text, src[k], c);
    }
  }

  /** The group-1 captures of the patterns `ps`, one after the other, added
      to an empty set. */
  function CapturesOfAll(text: string, ps: seq<Pattern>): seq<string>
    decreases |ps|
  {
    if ps == [] then []
    else SetAddAll(CapturesOfAll(text, ps[..|ps| - 1]), Captures(text, ps[|ps| - 1], false, 0))
  }

  /** The `exec` loops over the patterns `ps`, one after the other, into one
      set that starts empty. */
  method CollectAll(text: string, ps: seq<Pattern>) returns (names: seq<string>)
    ensures names == CapturesOfAll(text, ps)
  {
    names := [];
    for i := 0 to |ps|
      invariant names == CapturesOfAll(text, ps[..i])
    {
      assert ps[..i + 1][..i] == ps[..i];
      names := CollectMatches(text, ps[i], false, names);
    }
    assert ps[..|ps|] == ps;
  }

  /** The captures are distinct and each occurs in the text. */
  lemma {:induction false} CapturesOfAllSpec(text: string, ps: seq<Pattern>)
    ensures Distinct(CapturesOfAll(text, ps))
    ensures forall c :: c in CapturesOfAll(text, ps) ==> Includes(text, c)
    decreases |ps|
  {
    if ps != [] {
      CapturesOfAllSpec(text, ps[..|ps| - 1]);
      SetAddAllSpec(CapturesOfAll(text, ps[..|ps| - 1]), Captures(text, ps[|ps| - 1], false, 0));
      CapturesInText(text, ps[|ps| - 1], false);
    }
  }
}
