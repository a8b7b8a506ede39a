/**
 * Hand-written scanners for the regular expressions the notes pipeline shares.
 * Each follows Python's `re` semantics for its pattern: the leftmost match wins,
 * quantifiers are greedy and backtrack, alternatives are tried in the order
 * written, and `findall`/`sub` resume scanning at the end of a match.
 * `\w` and `IGNORECASE` are taken over ASCII.
 */
module Scan {
  import opened Wrappers
  import opened Text

  /** `\b`: a word character on exactly one side of position `k`. */
  predicate IsBoundary(s: string, k: nat)
    requires k <= |s|
  {
    (k > 0 && IsWordChar(s[k - 1])) != (k < |s| && IsWordChar(s[k]))
  }

  /** The extent of `\w+` at `i`: the end of the word there. */
  function WordEnd(s: string, i: nat): (j: nat)
    requires i <= |s|
    ensures i <= j <= |s|
    ensures forall k :: i <= k < j ==> IsWordChar(s[k])
    ensures j == |s| || !IsWordChar(s[j])
    decreases |s| - i
  {
    if i == |s| || !IsWordChar(s[i]) then i else WordEnd(s, i + 1)
  }

  /** A word that provably stops at `j` ends there. */
  lemma {:induction false} WordEndIs(s: string, i: nat, j: nat)
    requires i <= j <= |s|
    requires forall k :: i <= k < j ==> IsWordChar(s[k])
    requires j == |s| || !IsWordChar(s[j])
    ensures WordEnd(s, i) == j
    decreases j - i
  {
    if i < j {
      WordEndIs(s, i + 1, j);
    }
  }

  /** The lower-case literal `p` occurs at `i`, compared case-insensitively. */
  predicate FoldedAt(s: string, i: nat, p: string) {
    i + |p| <= |s| && LowerStr(s[i..i + |p|]) == p
  }

  predicate NotTerminator(c: char) { !IsTerminator(c) }

  /** The first sentence terminator at or after `i`, or `|s|`: the extent of `[^.!?]*`. */
  function NextTerminator(s: string, i: nat): (t: nat)
    requires i <= |s|
    ensures i <= t <= |s|
    ensures t < |s| ==> IsTerminator(s[t])
    ensures forall k :: i <= k < t ==> !IsTerminator(s[k])
  {
    RunEnd(s, i, NotTerminator)
  }

  /**
   * One alternative of a cue-phrase pattern. Every cue begins with a word
   * character and is preceded by `\b`.
   *  - Phrase(p):   `\bp\b`, p lower-case and matched case-insensitively;
   *  - StepNumber:  `\bstep \d+\b`, or `\bstep\s+\d+\b` when loose;
   *  - ListNumber:  `\b\d+\.\s+`.
   */
  datatype Cue =
    | Phrase(text: string)
    | StepNumber(loose: bool)
    | ListNumber

  /** `\b` before a word character: where every cue begins. */
  predicate StartsCue(s: string, c: nat)
    requires c <= |s|
  {
    IsBoundary(s, c) && c < |s| && IsWordChar(s[c])
  }

  /** Where a match of `cue` that starts at `c` ends, if there is one. */
  function CueEnd(s: string, c: nat, cue: Cue): (e: Option<nat>)
    requires c <= |s|
    ensures e.Some? ==> c < e.value <= |s| && IsWordChar(s[c])
  {
    if !StartsCue(s, c) then None
    else
      match cue
      case Phrase(p) => PhraseEnd(s, c, p)
      case StepNumber(loose) => StepEnd(s, c, loose)
      case ListNumber => ListEnd(s, c)
  }

  /** `p\b` at `c`, case-insensitively, the left boundary aside. */
  function PhraseEnd(s: string, c: nat, p: string): (e: Option<nat>)
    requires c <= |s|
    ensures e.Some? ==> c < e.value <= |s|
  {
    if p != [] && FoldedAt(s, c, p) && IsBoundary(s, c + |p|) then Some(c + |p|) else None
  }

  /** `step \d+\b` (or `step\s+\d+\b`) at `c`, the left boundary aside. */
  function StepEnd(s: string, c: nat, loose: bool): (e: Option<nat>)
    requires c <= |s|
    ensures e.Some? ==> c < e.value <= |s|
  {
    if !FoldedAt(s, c, "step") then None
    else
      var d := StepDigits(s, c + 4, loose);
      var e := RunEnd(s, d, IsDigit);
      // a shorter digit run would end between two digits, where `\b` fails
      if d > c + 4 && e > d && IsBoundary(s, e) then Some(e) else None
  }

  /** Where the digits after the word `step` (ending at `i`) begin: `\s+` or the single space is greedy. */
  function StepDigits(s: string, i: nat, loose: bool): (d: nat)
    requires i <= |s|
    ensures i <= d <= |s|
  {
    if loose then RunEnd(s, i, IsSpace)
    else if i < |s| && s[i] == ' ' then i + 1 else i
  }

  /** `\d+\.\s+` at `c`, the left boundary aside. */
  function ListEnd(s: string, c: nat): (e: Option<nat>)
    requires c <= |s|
    ensures e.Some? ==> c < e.value <= |s|
  {
    // `\d+` must stop at the dot, so it takes the whole digit run
    var d := RunEnd(s, c, IsDigit);
    if d > c && d < |s| && s[d] == '.' then
      var e := RunEnd(s, d + 1, IsSpace);
      if e > d + 1 then Some(e) else None
    else None
  }

  /** The first alternative, in the order written, that matches at `c`. */
  function FirstCueEnd(s: string, c: nat, cues: seq<Cue>): (e: Option<nat>)
    requires c <= |s|
    ensures e.Some? ==> c < e.value <= |s|
    ensures e.Some? <==> exists k :: 0 <= k < |cues| && CueEnd(s, c, cues[k]).Some?
  {
    if cues == [] then None
    else
      match CueEnd(s, c, cues[0])
      case Some(e) => Some(e)
      case None =>
        var r := FirstCueEnd(s, c, cues[1..]);
        assert forall k :: 1 <= k < |cues| ==> cues[k] == cues[1..][k - 1];
        r
  }

  /** `re.sub(r'\b(alt|alt|...)\b', '', s)` from position `i` on. */
  function RemoveCuesFrom(s: string, i: nat, cues: seq<Cue>): (r: string)
    requires i <= |s|
    ensures |r| <= |s| - i
    ensures DrawnFrom(r, s)
    decreases |s| - i
  {
    if i == |s| then []
    else
      match FirstCueEnd(s, i, cues)
      case Some(e) => RemoveCuesFrom(s, e, cues)
      case None => [s[i]] + RemoveCuesFrom(s, i + 1, cues)
  }

  /** `re.sub(r'\b(alt|alt|...)\b', '', s, flags=re.IGNORECASE)` */
  function RemoveCues(s: string, cues: seq<Cue>): (r: string)
    ensures |r| <= |s|
    ensures DrawnFrom(r, s)
  {
    RemoveCuesFrom(s, 0, cues)
  }

  lemma {:induction false} RemoveCuesFromDeletes(s: string, i: nat, cues: seq<Cue>)
    requires i <= |s|
    ensures Subsequence(RemoveCuesFrom(s, i, cues), s[i..])
    decreases |s| - i
  {
    if i < |s| {
      assert s[i..][1..] == s[i + 1..];
      match FirstCueEnd(s, i, cues)
      case Some(e) =>
        RemoveCuesFromDeletes(s, e, cues);
        assert s[i..][e - i..] == s[e..];
        SubsequenceDrop(RemoveCuesFrom(s, e, cues), s[i..], e - i);
      case None =>
        RemoveCuesFromDeletes(s, i + 1, cues);
        SubsequenceKeep(RemoveCuesFrom(s, i + 1, cues), s[i..]);
    }
  }

  /** Removing the cue words only deletes characters: the result is a subsequence of the text. */
  lemma RemoveCuesDeletes(s: string, cues: seq<Cue>)
    ensures Subsequence(RemoveCues(s, cues), s)
  {
    RemoveCuesFromDeletes(s, 0, cues);
    assert s[0..] == s;
  }

  /**
   * `[^.!?]*\b(?:alts)\b[^.!?]*[.!?]` once the leading `[^.!?]*` has stopped at `c`:
   * the first alternative at `c` after which a terminator follows; the match ends
   * just past the first such terminator.
   */
  function CueThenTerminator(s: string, c: nat, cues: seq<Cue>): (e: Option<nat>)
    requires c <= |s|
    ensures e.Some? ==> c < e.value <= |s| && IsTerminator(s[e.value - 1])
  {
    if cues == [] then None
    else
      match CueEnd(s, c, cues[0])
      case Some(e) =>
        var t := NextTerminator(s, e);
        if t < |s| then Some(t + 1) else CueThenTerminator(s, c, cues[1..])
      case None => CueThenTerminator(s, c, cues[1..])
  }

  /** The leading greedy `[^.!?]*` backtracks: the cue is tried at `c`, `c - 1`, ..., `i`. */
  function CueSentenceFrom(s: string, i: nat, c: nat, cues: seq<Cue>): (e: Option<nat>)
    requires i <= c <= |s|
    ensures e.Some? ==> i < e.value <= |s| && IsTerminator(s[e.value - 1])
    decreases c - i
  {
    match CueThenTerminator(s, c, cues)
    case Some(e) => Some(e)
    case None => if c == i then None else CueSentenceFrom(s, i, c - 1, cues)
  }

  /** The end of a match of the cue-sentence pattern that starts at `i`. */
  function CueSentenceAt(s: string, i: nat, cues: seq<Cue>): (e: Option<nat>)
    requires i <= |s|
    ensures e.Some? ==> i < e.value <= |s| && IsTerminator(s[e.value - 1])
  {
    CueSentenceFrom(s, i, NextTerminator(s, i), cues)
  }

  /** `re.findall` of the cue-sentence pattern, from position `i` on. */
  function CueSentencesFrom(s: string, i: nat, cues: seq<Cue>): (ms: seq<string>)
    requires i <= |s|
    ensures forall m <- ms :: m != [] && IsTerminator(m[|m| - 1])
    decreases |s| - i
  {
    if i == |s| then []
    else
      match CueSentenceAt(s, i, cues)
      case Some(e) => [s[i..e]] + CueSentencesFrom(s, e, cues)
      case None => CueSentencesFrom(s, i + 1, cues)
  }

  /**
   * `re.findall(r'([^.!?]*\b(?:alts)\b[^.!?]*[.!?])', s, re.IGNORECASE)`:
   * every match is a non-empty piece of `s` ending in a terminator.
   */
  function CueSentences(s: string, cues: seq<Cue>): (ms: seq<string>)
    ensures forall m <- ms :: m != [] && IsTerminator(m[|m| - 1])
  {
    CueSentencesFrom(s, 0, cues)
  }

  // ---- a cue inside a match ----

  /** Some alternative of `cues` matches inside `m` and ends before its last character. */
  predicate HasCue(m: string, cues: seq<Cue>) {
    exists c, k :: 0 <= c < |m| && 0 <= k < |cues| && CueEnd(m, c, cues[k]).Some? && CueEnd(m, c, cues[k]).value < |m|
  }

  /** A run that ends inside the slice `s[a..b]` ends at the same place in the slice. */
  lemma RunEndSlice(s: string, a: nat, b: nat, i: nat, inRun: char -> bool)
    requires a <= i <= |s| && b <= |s| && RunEnd(s, i, inRun) < b
    ensures RunEnd(s[a..b], i - a, inRun) == RunEnd(s, i, inRun) - a
  {
    var m, j := s[a..b], RunEnd(s, i, inRun);
    assert forall k :: i - a <= k < j - a ==> m[k] == s[k + a];
    assert m[j - a] == s[j];
    RunEndIs(m, i - a, j - a, inRun);
  }

  /** Word boundaries strictly inside a slice are those of the whole text. */
  lemma BoundarySlice(s: string, a: nat, b: nat, k: nat)
    requires a < k < b <= |s|
    ensures IsBoundary(s[a..b], k - a) == IsBoundary(s, k)
  {
    assert s[a..b][k - a - 1] == s[k - 1] && s[a..b][k - a] == s[k];
  }

  /** A literal inside a slice is found there as in the whole text. */
  lemma FoldedSlice(s: string, a: nat, b: nat, c: nat, p: string)
    requires a <= c && c + |p| <= b <= |s|
    ensures FoldedAt(s[a..b], c - a, p) == FoldedAt(s, c, p)
  {
    var m := s[a..b];
    assert forall k | c - a <= k < c - a + |p| :: m[k] == s[k + a];
    assert m[c - a..c - a + |p|] == s[c..c + |p|];
  }

  /** A cue's left edge stays a boundary in a slice that starts at or before it. */
  lemma CueStartSlice(s: string, a: nat, b: nat, c: nat)
    requires a <= c < b <= |s| && StartsCue(s, c)
    ensures StartsCue(s[a..b], c - a)
  {
    assert s[a..b][c - a] == s[c];
    if c > a {
      BoundarySlice(s, a, b, c);
    }
  }

  lemma PhraseSlice(s: string, a: nat, b: nat, c: nat, p: string)
    requires a <= c <= |s| && b <= |s|
    requires PhraseEnd(s, c, p).Some? && PhraseEnd(s, c, p).value < b
    ensures PhraseEnd(s[a..b], c - a, p) == Some(PhraseEnd(s, c, p).value - a)
  {
    FoldedSlice(s, a, b, c, p);
    BoundarySlice(s, a, b, c + |p|);
  }

  lemma StepDigitsSlice(s: string, a: nat, b: nat, i: nat, loose: bool)
    requires a <= i <= |s| && b <= |s| && StepDigits(s, i, loose) < b
    ensures StepDigits(s[a..b], i - a, loose) == StepDigits(s, i, loose) - a
  {
    if loose {
      RunEndSlice(s, a, b, i, IsSpace);
    } else if i < |s| && s[i] == ' ' {
      assert s[a..b][i - a] == s[i];
    } else if i < b {
      assert s[a..b][i - a] == s[i];
    }
  }

  lemma StepSlice(s: string, a: nat, b: nat, c: nat, loose: bool)
    requires a <= c <= |s| && b <= |s|
    requires StepEnd(s, c, loose).Some? && StepEnd(s, c, loose).value < b
    ensures StepEnd(s[a..b], c - a, loose) == Some(StepEnd(s, c, loose).value - a)
  {
    var d, e := StepDigits(s, c + 4, loose), StepEnd(s, c, loose).value;
    StepEndIs(s, c, loose);
    StepPartsSlice(s, a, b, c, loose, d, e);
    StepEndOf(s[a..b], c - a, loose, d - a, e - a);
  }

  lemma StepPartsSlice(s: string, a: nat, b: nat, c: nat, loose: bool, d: nat, e: nat)
    requires a <= c && c + 4 <= |s| && b <= |s| && e < b
    requires FoldedAt(s, c, "step") && StepDigits(s, c + 4, loose) == d && d > c + 4
    requires d <= |s| && RunEnd(s, d, IsDigit) == e && e > d && IsBoundary(s, e)
    ensures var m := s[a..b];
      c - a + 4 <= |m| && FoldedAt(m, c - a, "step") && StepDigits(m, c - a + 4, loose) == d - a
      && d - a <= |m| && RunEnd(m, d - a, IsDigit) == e - a && IsBoundary(m, e - a)
  {
    FoldedSlice(s, a, b, c, "step");
    StepDigitsSlice(s, a, b, c + 4, loose);
    RunEndSlice(s, a, b, d, IsDigit);
    BoundarySlice(s, a, b, e);
  }

  /** What a match of `step \d+\b` at `c` is made of. */
  lemma StepEndIs(s: string, c: nat, loose: bool)
    requires c <= |s| && StepEnd(s, c, loose).Some?
    ensures var d, e := StepDigits(s, c + 4, loose), StepEnd(s, c, loose).value;
      FoldedAt(s, c, "step") && d > c + 4 && RunEnd(s, d, IsDigit) == e && e > d && IsBoundary(s, e)
  {
  }

  /** The parts of a match of `step \d+\b` make the match. */
  lemma StepEndOf(s: string, c: nat, loose: bool, d: nat, e: nat)
    requires c + 4 <= |s| && FoldedAt(s, c, "step") && StepDigits(s, c + 4, loose) == d && d > c + 4
    requires d <= |s| && RunEnd(s, d, IsDigit) == e && e > d && IsBoundary(s, e)
    ensures StepEnd(s, c, loose) == Some(e)
  {
  }

  lemma ListSlice(s: string, a: nat, b: nat, c: nat)
    requires a <= c <= |s| && b <= |s|
    requires ListEnd(s, c).Some? && ListEnd(s, c).value < b
    ensures ListEnd(s[a..b], c - a) == Some(ListEnd(s, c).value - a)
  {
    var m, d := s[a..b], RunEnd(s, c, IsDigit);
    RunEndSlice(s, a, b, c, IsDigit);
    assert m[d - a] == s[d];
    RunEndSlice(s, a, b, d + 1, IsSpace);
  }

  /** Once a cue may start at `c`, its match is the match of its own pattern. */
  lemma CueEndStarts(s: string, c: nat, cue: Cue)
    requires c <= |s|
    ensures CueEnd(s, c, cue).Some? ==> StartsCue(s, c)
    ensures StartsCue(s, c) ==> CueEnd(s, c, cue) == match cue
      case Phrase(p) => PhraseEnd(s, c, p)
      case StepNumber(loose) => StepEnd(s, c, loose)
      case ListNumber => ListEnd(s, c)
  {
  }

  lemma PhraseCueSlice(s: string, a: nat, b: nat, c: nat, p: string)
    requires a <= c <= |s| && b <= |s|
    requires CueEnd(s, c, Phrase(p)).Some? && CueEnd(s, c, Phrase(p)).value < b
    ensures CueEnd(s[a..b], c - a, Phrase(p)) == Some(CueEnd(s, c, Phrase(p)).value - a)
  {
    CueEndStarts(s, c, Phrase(p));
    CueStartSlice(s, a, b, c);
    PhraseSlice(s, a, b, c, p);
    CueEndStarts(s[a..b], c - a, Phrase(p));
  }

  lemma StepCueSlice(s: string, a: nat, b: nat, c: nat, loose: bool)
    requires a <= c <= |s| && b <= |s|
    requires CueEnd(s, c, StepNumber(loose)).Some? && CueEnd(s, c, StepNumber(loose)).value < b
    ensures CueEnd(s[a..b], c - a, StepNumber(loose)) == Some(CueEnd(s, c, StepNumber(loose)).value - a)
  {
    CueEndStarts(s, c, StepNumber(loose));
    CueStartSlice(s, a, b, c);
    StepSlice(s, a, b, c, loose);
    CueEndStarts(s[a..b], c - a, StepNumber(loose));
  }

  lemma ListCueSlice(s: string, a: nat, b: nat, c: nat)
    requires a <= c <= |s| && b <= |s|
    requires CueEnd(s, c, ListNumber).Some? && CueEnd(s, c, ListNumber).value < b
    ensures CueEnd(s[a..b], c - a, ListNumber) == Some(CueEnd(s, c, ListNumber).value - a)
  {
    CueStartSlice(s, a, b, c);
    ListSlice(s, a, b, c);
  }

  /**
   * A cue that starts at or after `a` and ends before `b` matches in the slice
   * `s[a..b]` too: at its left edge the slice only adds a boundary.
   */
  lemma CueSlice(s: string, a: nat, b: nat, c: nat, cue: Cue)
    requires a <= c <= |s| && b <= |s|
    requires CueEnd(s, c, cue).Some? && CueEnd(s, c, cue).value < b
    ensures CueEnd(s[a..b], c - a, cue) == Some(CueEnd(s, c, cue).value - a)
  {
    match cue
    case Phrase(p) => PhraseCueSlice(s, a, b, c, p);
    case StepNumber(loose) => StepCueSlice(s, a, b, c, loose);
    case ListNumber => ListCueSlice(s, a, b, c);
  }

  /** A match found past `c` follows an alternative that matches at `c` and ends before the match does. */
  lemma {:induction false} CueThenTerminatorHas(s: string, c: nat, cues: seq<Cue>)
    requires c <= |s| && CueThenTerminator(s, c, cues).Some?
    ensures exists k :: 0 <= k < |cues| && CueEnd(s, c, cues[k]).Some? &&
                        CueEnd(s, c, cues[k]).value < CueThenTerminator(s, c, cues).value
  {
    var r := CueThenTerminator(s, c, cues).value;
    if CueEnd(s, c, cues[0]).Some? && NextTerminator(s, CueEnd(s, c, cues[0]).value) < |s| {
      assert CueEnd(s, c, cues[0]).value < r;
    } else {
      var rest := cues[1..];
      CueThenTerminatorHas(s, c, rest);
      var k :| 0 <= k < |rest| && CueEnd(s, c, rest[k]).Some? && CueEnd(s, c, rest[k]).value < r;
      assert cues[k + 1] == rest[k];
    }
  }

  /** The backtracking settles on some position from `i` up to `c`. */
  lemma {:induction false} CueSentenceFromHas(s: string, i: nat, c: nat, cues: seq<Cue>)
    requires i <= c <= |s| && CueSentenceFrom(s, i, c, cues).Some?
    ensures exists c' :: i <= c' <= c && CueThenTerminator(s, c', cues) == CueSentenceFrom(s, i, c, cues)
    decreases c - i
  {
    if CueThenTerminator(s, c, cues).None? {
      CueSentenceFromHas(s, i, c - 1, cues);
    }
  }

  /** A match of the cue-sentence pattern contains one of its alternatives. */
  lemma CueSentenceHasCue(s: string, i: nat, cues: seq<Cue>)
    requires i <= |s| && CueSentenceAt(s, i, cues).Some?
    ensures HasCue(s[i..CueSentenceAt(s, i, cues).value], cues)
  {
    var e := CueSentenceAt(s, i, cues).value;
    CueSentenceFromHas(s, i, NextTerminator(s, i), cues);
    var c :| i <= c <= NextTerminator(s, i) && CueThenTerminator(s, c, cues) == Some(e);
    CueThenTerminatorHas(s, c, cues);
    var k :| 0 <= k < |cues| && CueEnd(s, c, cues[k]).Some? && CueEnd(s, c, cues[k]).value < e;
    CueSlice(s, i, e, c, cues[k]);
    assert CueEnd(s[i..e], c - i, cues[k]).value < |s[i..e]|;
  }

  /** Every match, from `i` on, contains one of the alternatives. */
  lemma {:induction false} CueSentencesHaveCue(s: string, i: nat, cues: seq<Cue>)
    requires i <= |s|
    ensures forall m <- CueSentencesFrom(s, i, cues) :: HasCue(m, cues)
    decreases |s| - i
  {
    if i < |s| {
      match CueSentenceAt(s, i, cues)
      case Some(e) =>
        CueSentenceHasCue(s, i, cues);
        CueSentencesHaveCue(s, e, cues);
      case None =>
        CueSentencesHaveCue(s, i + 1, cues);
    }
  }

  /** Every cue-sentence match is a piece of the text scanned. */
  lemma {:induction false} CueSentencesIn(s: string, i: nat, cues: seq<Cue>)
    requires i <= |s|
    ensures forall m <- CueSentencesFrom(s, i, cues) :: Contains(s, m)
    decreases |s| - i
  {
    if i < |s| {
      match CueSentenceAt(s, i, cues)
      case Some(e) =>
        ContainsSlice(s, i, e);
        CueSentencesIn(s, e, cues);
      case None =>
        CueSentencesIn(s, i + 1, cues);
    }
  }

  /**
   * Every match of the cue-sentence pattern is a piece of the text that ends
   * in a terminator and contains one of the pattern's alternatives.
   */
  lemma CueSentencesShape(s: string, cues: seq<Cue>)
    ensures forall m <- CueSentences(s, cues) ::
      m != [] && IsTerminator(m[|m| - 1]) && HasCue(m, cues) && Contains(s, m)
  {
    CueSentencesHaveCue(s, 0, cues);
    CueSentencesIn(s, 0, cues);
  }

  predicate NoTerminator(s: string) { forall k :: 0 <= k < |s| ==> !IsTerminator(s[k]) }

  predicate IsTerminatorChar(c: char) { IsTerminator(c) }

  /** `re.split(r'[.!?]+', s)`: the pieces between runs of terminators, empty ones included. */
  function SplitSentences(s: string): (parts: seq<string>)
    ensures |parts| >= 1
    ensures forall p <- parts :: NoTerminator(p)
    decreases |s|
  {
    var i := NextTerminator(s, 0);
    if i == |s| then [s]
    else
      var j := RunEnd(s, i, IsTerminatorChar);
      [s[..i]] + SplitSentences(s[j..])
  }

  /** Text without a terminator is a single piece. */
  lemma SplitSentencesPlain(p: string)
    requires NoTerminator(p)
    ensures SplitSentences(p) == [p]
  {
    assert NextTerminator(p, 0) == |p|;
  }

  /**
   * A terminator-free piece, then a whole run of terminators: the piece is
   * split off and the rest is split on its own.
   */
  lemma SplitSentencesStep(p: string, t: string, q: string)
    requires NoTerminator(p)
    requires t != [] && forall k :: 0 <= k < |t| ==> IsTerminator(t[k])
    requires q == [] || !IsTerminator(q[0])
    ensures SplitSentences(p + t + q) == [p] + SplitSentences(q)
  {
    var s := p + t + q;
    PieceAndRun(p, t, q);
    assert s[..|p|] == p;
    assert s[|p| + |t|..] == q;
  }

  /** In a terminator-free piece, then a whole run of terminators, the run starts and ends where the pieces meet. */
  lemma PieceAndRun(p: string, t: string, q: string)
    requires NoTerminator(p)
    requires t != [] && forall k :: 0 <= k < |t| ==> IsTerminator(t[k])
    requires q == [] || !IsTerminator(q[0])
    ensures NextTerminator(p + t + q, 0) == |p| < |p + t + q|
    ensures RunEnd(p + t + q, |p|, IsTerminatorChar) == |p| + |t|
  {
    var s := p + t + q;
    assert s[|p|] == t[0];
    assert NextTerminator(s, 0) == |p|;
    assert forall k :: |p| <= k < |p| + |t| ==> s[k] == t[k - |p|];
    RunEndIs(s, |p|, |p| + |t|, IsTerminatorChar);
  }
}
