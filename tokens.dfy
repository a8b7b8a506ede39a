/**
 * `re.findall` for the short token patterns of the analysis stage. Each
 * pattern starts with `\b`, and none of them can match the empty string, so a
 * scan tries every position from left to right and resumes after each match.
 */
module Tokens {
  import opened Wrappers
  import opened Text
  import opened Scan

  /**
   * - LongWord:  `\b[a-zA-Z]{4,}\b`
   * - Number:    `\b\d+\.?\d*\b`
   * - SlashDate: `\b\d{1,2}[-/]\d{1,2}[-/]\d{2,4}\b`
   * - MonthDate: `\b(?:Jan|Feb|...|Dec)[a-z]* \d{1,2},? \d{4}\b`, case-insensitively
   */
  datatype Pattern = LongWord | Number | SlashDate | MonthDate

  /** The month alternatives of the MonthDate pattern, lower-cased. */
  const Months: seq<string> :=
    ["jan", "feb", "mar", "apr", "may", "jun", "jul", "aug", "sep", "oct", "nov", "dec"]

  /** A month abbreviation in any case starts with a letter. */
  lemma MonthLetters(a: string)
    requires |a| == 3 && LowerStr(a) in Months
    ensures IsLetter(a[0])
  {
  }

  /** The extent of `\d*` at `i`. */
  function DigitEnd(s: string, i: nat): (j: nat)
    requires i <= |s|
    ensures i <= j <= |s|
    ensures forall k :: i <= k < j ==> IsDigit(s[k])
    ensures j == |s| || !IsDigit(s[j])
    decreases |s| - i
  {
    if i == |s| || !IsDigit(s[i]) then i else DigitEnd(s, i + 1)
  }

  /** The extent of `[a-zA-Z]*` at `i`. */
  function LetterEnd(s: string, i: nat): (j: nat)
    requires i <= |s|
    ensures i <= j <= |s|
    ensures forall k :: i <= k < j ==> IsLetter(s[k])
    ensures j == |s| || !IsLetter(s[j])
    decreases |s| - i
  {
    if i == |s| || !IsLetter(s[i]) then i else LetterEnd(s, i + 1)
  }

  lemma {:induction false} DigitEndIs(s: string, i: nat, j: nat)
    requires i <= j <= |s|
    requires forall k :: i <= k < j ==> IsDigit(s[k])
    requires j == |s| || !IsDigit(s[j])
    ensures DigitEnd(s, i) == j
    decreases j - i
  {
    if i < j {
      DigitEndIs(s, i + 1, j);
    }
  }

  lemma {:induction false} LetterEndIs(s: string, i: nat, j: nat)
    requires i <= j <= |s|
    requires forall k :: i <= k < j ==> IsLetter(s[k])
    requires j == |s| || !IsLetter(s[j])
    ensures LetterEnd(s, i) == j
    decreases j - i
  {
    if i < j {
      LetterEndIs(s, i + 1, j);
    }
  }

  predicate IsAlpha(w: string) { forall k :: 0 <= k < |w| ==> IsLetter(w[k]) }

  predicate IsDateSep(c: char) { c == '-' || c == '/' }

  /** What every match of `p` looks like. */
  predicate Shaped(m: string, p: Pattern) {
    match p
    case LongWord => |m| >= 4 && IsAlpha(m)
    case Number =>
      m != [] && IsDigit(m[0]) && forall k :: 0 <= k < |m| ==> IsDigit(m[k]) || m[k] == '.'
    case SlashDate =>
      m != [] && IsDigit(m[0]) && IsDigit(m[|m| - 1])
      && forall k :: 0 <= k < |m| ==> IsDigit(m[k]) || IsDateSep(m[k])
    case MonthDate => m != [] && IsLetter(m[0]) && IsDigit(m[|m| - 1])
  }

  /** `[a-zA-Z]{4,}\b` after `\b` at `i`: the greedy run must end where the word ends. */
  function LongWordAt(s: string, i: nat): (e: Option<nat>)
    requires i <= |s|
    ensures e.Some? ==> i < e.value <= |s| && Shaped(s[i..e.value], LongWord)
  {
    var j := WordEnd(s, i);
    if j - i >= 4 && LetterEnd(s, i) == j then Some(j) else None
  }

  /**
   * `\d+\.?\d*\b` after `\b` at `i`. The digits after the dot are taken as far
   * as they go; failing that none, right after the dot; failing that, the dot
   * is given back and the match ends at `d`, where `\b` always holds.
   */
  function NumberAt(s: string, i: nat): (e: Option<nat>)
    requires i <= |s|
    ensures e.Some? ==> i < e.value <= |s| && Shaped(s[i..e.value], Number)
  {
    if i == |s| || !IsDigit(s[i]) then None
    else
      var d := DigitEnd(s, i);
      if d < |s| && s[d] == '.' then
        var f := DigitEnd(s, d + 1);
        if f > d + 1 && IsBoundary(s, f) then Some(f)
        else if IsBoundary(s, d + 1) then Some(d + 1)
        else Some(d)
      else if IsBoundary(s, d) then Some(d)
      else None
  }

  /**
   * `\d{1,2}[-/]\d{1,2}[-/]\d{2,4}\b` after `\b` at `i`. A counted digit run
   * followed by a non-digit only matches when it is the whole run there.
   */
  function SlashDateAt(s: string, i: nat): (e: Option<nat>)
    requires i <= |s|
    ensures e.Some? ==> i < e.value <= |s| && Shaped(s[i..e.value], SlashDate)
  {
    if i == |s| || !IsDigit(s[i]) then None
    else
      var a := DigitEnd(s, i);
      if a - i <= 2 && a < |s| && IsDateSep(s[a]) then
        var b := DigitEnd(s, a + 1);
        if 1 <= b - (a + 1) <= 2 && b < |s| && IsDateSep(s[b]) then
          var c := DigitEnd(s, b + 1);
          if 2 <= c - (b + 1) <= 4 && IsBoundary(s, c) then Some(c) else None
        else None
      else None
  }

  /**
   * `(?:Jan|...|Dec)[a-z]* \d{1,2},? \d{4}\b` after `\b` at `i`, ignoring case:
   * the letters run to the space, the day is the whole digit run, and the
   * comma is taken when it is there.
   */
  function MonthDateAt(s: string, i: nat): (e: Option<nat>)
    requires i <= |s|
    ensures e.Some? ==> i < e.value <= |s| && Shaped(s[i..e.value], MonthDate)
  {
    if i + 3 <= |s| && LowerStr(s[i..i + 3]) in Months then
      var l := LetterEnd(s, i + 3);
      if l < |s| && s[l] == ' ' then
        var d := DigitEnd(s, l + 1);
        if 1 <= d - (l + 1) <= 2 then
          var c := if d < |s| && s[d] == ',' then d + 1 else d;
          if c < |s| && s[c] == ' ' && DigitEnd(s, c + 1) >= c + 5 && IsBoundary(s, c + 5) then
            MonthLetters(s[i..i + 3]);
            Some(c + 5)
          else None
        else None
      else None
    else None
  }

  /** The end of the match of `p` that starts at `i`, if any. */
  function MatchAt(s: string, i: nat, p: Pattern): (e: Option<nat>)
    requires i <= |s|
    ensures e.Some? ==> i < e.value <= |s| && Shaped(s[i..e.value], p)
  {
    if i == |s| || !IsBoundary(s, i) then None
    else
      match p
      case LongWord => LongWordAt(s, i)
      case Number => NumberAt(s, i)
      case SlashDate => SlashDateAt(s, i)
      case MonthDate => MonthDateAt(s, i)
  }

  /** `re.findall(p, s)` from position `i` on. */
  function FindAllFrom(s: string, i: nat, p: Pattern): (ms: seq<string>)
    requires i <= |s|
    ensures forall m <- ms :: Shaped(m, p)
    decreases |s| - i
  {
    if i == |s| then []
    else
      match MatchAt(s, i, p)
      case Some(e) => [s[i..e]] + FindAllFrom(s, e, p)
      case None => FindAllFrom(s, i + 1, p)
  }

  /** `re.findall(p, s)`: the matches of `p`, left to right, none overlapping. */
  function FindAll(s: string, p: Pattern): (ms: seq<string>)
    ensures forall m <- ms :: Shaped(m, p)
  {
    FindAllFrom(s, 0, p)
  }

  /** Every match is a piece of the text scanned. */
  lemma {:induction false} FoundIn(s: string, i: nat, p: Pattern)
    requires i <= |s|
    ensures forall m <- FindAllFrom(s, i, p) :: Contains(s, m)
    decreases |s| - i
  {
    if i < |s| {
      match MatchAt(s, i, p)
      case Some(e) =>
        ContainsSlice(s, i, e);
        FoundIn(s, e, p);
      case None =>
        FoundIn(s, i + 1, p);
    }
  }

  /** A token a scan for `p` finds in full when it stands between spaces. */
  predicate Token(w: string, p: Pattern) {
    match p
    case LongWord => |w| >= 4 && IsAlpha(w)
    case Number => IsDigits(w)
    case _ => false
  }

  /** Words and whole numbers joined by single spaces are found again, one by one. */
  lemma TokensOfJoin(ws: seq<string>, p: Pattern)
    requires p == LongWord || p == Number
    requires forall k :: 0 <= k < |ws| ==> Token(ws[k], p)
    ensures FindAll(Join(" ", ws), p) == ws
  {
    var s := Join(" ", ws);
    assert s[0..] == s;
    TokensFrom(s, 0, ws, p);
  }

  lemma {:induction false} TokensFrom(s: string, i: nat, ws: seq<string>, p: Pattern)
    requires i <= |s| && s[i..] == Join(" ", ws)
    requires i == 0 || !IsWordChar(s[i - 1])
    requires forall k :: 0 <= k < |ws| ==> Token(ws[k], p)
    requires p == LongWord || p == Number
    ensures FindAllFrom(s, i, p) == ws
    decreases |ws|
  {
    if ws != [] {
      var w, rest := ws[0], ws[1..];
      var j := i + |w|;
      TokenFacts(s, i, ws);
      TokenMatch(s, i, w, p);
      FoundAt(s, i, j, p);
      if rest != [] {
        NoMatchAtSpace(s, j, p);
        TokensFrom(s, j + 1, rest, p);
      }
      assert ws == [w] + rest;
    }
  }

  /** A scan takes the match at `i` and resumes at its end. */
  lemma FoundAt(s: string, i: nat, e: nat, p: Pattern)
    requires i < e <= |s| && MatchAt(s, i, p) == Some(e)
    ensures FindAllFrom(s, i, p) == [s[i..e]] + FindAllFrom(s, e, p)
  {
  }

  /** Where the first token ends, and what follows it. */
  lemma TokenFacts(s: string, i: nat, ws: seq<string>)
    requires i <= |s| && s[i..] == Join(" ", ws) && ws != []
    ensures i + |ws[0]| <= |s| && s[i..i + |ws[0]|] == ws[0]
    ensures |ws| == 1 ==> i + |ws[0]| == |s|
    ensures |ws| > 1 ==> i + |ws[0]| < |s| && s[i + |ws[0]|] == ' '
    ensures |ws| > 1 ==> s[i + |ws[0]| + 1..] == Join(" ", ws[1..])
  {
    var w := ws[0];
    if |ws| > 1 {
      var t := s[i..];
      assert t == w + " " + Join(" ", ws[1..]);
      assert t[..|w|] == w;
      assert t[|w|] == ' ';
      assert t[|w| + 1..] == Join(" ", ws[1..]);
    }
  }

  lemma NoMatchAtSpace(s: string, j: nat, p: Pattern)
    requires j < |s| && s[j] == ' ' && (p == LongWord || p == Number)
    ensures FindAllFrom(s, j, p) == FindAllFrom(s, j + 1, p)
  {
    assert WordEnd(s, j) == j;
    assert MatchAt(s, j, p) == None;
  }

  /** A token followed by a space or the end is matched whole. */
  lemma TokenMatch(s: string, i: nat, w: string, p: Pattern)
    requires Token(w, p)
    requires i + |w| <= |s| && s[i..i + |w|] == w
    requires i == 0 || !IsWordChar(s[i - 1])
    requires i + |w| == |s| || s[i + |w|] == ' '
    ensures MatchAt(s, i, p) == Some(i + |w|)
  {
    var j := i + |w|;
    assert forall k :: i <= k < j ==> s[k] == w[k - i];
    WordEndIs(s, i, j);
    if p == LongWord {
      LetterEndIs(s, i, j);
    } else {
      DigitEndIs(s, i, j);
    }
  }
}
