/**
 * `clean_transcript`: normalises a raw transcript. Whitespace runs become single
 * spaces, filler words, promotional sentences, bracketed asides, music notes and a
 * lone number are removed, a word repeated right after itself is kept once, and
 * the spacing around punctuation is tidied.
 */
module Cleaner {
  import opened Wrappers
  import opened Text
  import opened Scan

  /** The only whitespace character left is the plain space. */
  predicate PlainSpaced(s: string) {
    forall k :: 0 <= k < |s| && IsSpace(s[k]) ==> s[k] == ' '
  }

  /** The class `[.,!?;:]`. */
  predicate IsPunct(c: char) { c == '.' || c == ',' || c == '!' || c == '?' || c == ';' || c == ':' }

  /** No whitespace character stands right before a punctuation mark. */
  predicate NoSpaceBeforePunct(s: string) {
    forall k :: 0 <= k < |s| - 1 && IsSpace(s[k]) ==> !IsPunct(s[k + 1])
  }

  /** The mark `m` is never directly followed by an upper-case letter. */
  predicate NoMarkBeforeUpper(s: string, m: char) {
    forall k :: 0 <= k < |s| - 1 && s[k] == m ==> !IsUpper(s[k + 1])
  }

  lemma PlainSpacedDrawn(r: string, s: string)
    requires PlainSpaced(s) && DrawnFrom(r, s)
    ensures PlainSpaced(r)
  {
    forall k | 0 <= k < |r| && IsSpace(r[k]) ensures r[k] == ' ' {
      assert r[k] in s;
    }
  }

  // ---- re.sub(r'\s+', ' ', transcript) ----

  /** Every run of whitespace becomes a single space. */
  function CollapseSpaces(s: string): (r: string)
    ensures |r| <= |s|
    ensures PlainSpaced(r)
    ensures forall k :: 0 <= k < |r| - 1 ==> !(r[k] == ' ' && r[k + 1] == ' ')
    ensures NoSpace(s) ==> r == s
    ensures s != [] && !IsSpace(s[0]) ==> r != [] && r[0] == s[0]
    decreases |s|
  {
    if s == [] then []
    else if IsSpace(s[0]) then
      var k := RunEnd(s, 0, IsSpace);
      [' '] + CollapseSpaces(s[k..])
    else
      [s[0]] + CollapseSpaces(s[1..])
  }

  // ---- the filler patterns ----

  /**
   * One filler pattern, applied with `re.sub(pattern, '', s, flags=re.IGNORECASE)`:
   *  - Words(cues):         `\b(alts)\b`
   *  - WordsToPeriod(cues): `\b(alts)\b.*?\.`
   *  - Between(open, close): `open.*?close`
   *  - NumberOnly:          `^\s*[0-9]+\s*$`
   */
  datatype Filler =
    | Words(cues: seq<Cue>)
    | WordsToPeriod(cues: seq<Cue>)
    | Between(open: char, close: char)
    | NumberOnly

  const FillerWords: seq<Cue> := [
    Phrase("um"), Phrase("uh"), Phrase("like"), Phrase("you know"), Phrase("actually"),
    Phrase("basically"), Phrase("literally"), Phrase("sort of"), Phrase("kind of"), Phrase("i mean"),
    Phrase("okay"), Phrase("so"), Phrase("right"), Phrase("well"), Phrase("hmm"), Phrase("ah"),
    Phrase("er"), Phrase("umm"), Phrase("uhh"), Phrase("guys"), Phrase("yaar"), Phrase("dude"),
    Phrase("bro"), Phrase("hey"), Phrase("hello"), Phrase("hi"), Phrase("welcome back"), Phrase("folks")
  ]

  const PromoPhrases: seq<Cue> := [
    Phrase("subscribe"), Phrase("like the video"), Phrase("hit the bell"), Phrase("notification"),
    Phrase("channel"), Phrase("please share"), Phrase("comment below"), Phrase("don't forget to"),
    Phrase("smash that"), Phrase("ring the bell"), Phrase("hit that like button")
  ]

  /** The filler patterns, in the order they are applied. */
  const Fillers: seq<Filler> := [
    Words(FillerWords),
    WordsToPeriod(PromoPhrases),
    Between('[', ']'),
    Between('(', ')'),
    Between('\U{266A}', '\U{266A}'),
    NumberOnly
  ]

  predicate NotDotOrBreak(c: char) { c != '.' && c != '\n' }

  /**
   * `\b(alts)\b.*?\.` at `c`: the first alternative after which a `.` follows
   * before any line break; the match ends just past that `.`.
   */
  function CueToPeriod(s: string, c: nat, cues: seq<Cue>): (e: Option<nat>)
    requires c <= |s|
    ensures e.Some? ==> c < e.value <= |s| && s[e.value - 1] == '.'
  {
    if cues == [] then None
    else
      match CueEnd(s, c, cues[0])
      case Some(e) =>
        var t := PeriodAfter(s, e);
        if t.Some? then t else CueToPeriod(s, c, cues[1..])
      case None => CueToPeriod(s, c, cues[1..])
  }

  /** `.*?\.` at `e`: just past the first `.`, unless a line break comes first. */
  function PeriodAfter(s: string, e: nat): (t: Option<nat>)
    requires e <= |s|
    ensures t.Some? ==> e < t.value <= |s| && s[t.value - 1] == '.'
  {
    var t := RunEnd(s, e, NotDotOrBreak);
    if t < |s| && s[t] == '.' then Some(t + 1) else None
  }

  function RemoveToPeriodFrom(s: string, i: nat, cues: seq<Cue>): (r: string)
    requires i <= |s|
    ensures |r| <= |s| - i && DrawnFrom(r, s)
    decreases |s| - i
  {
    if i == |s| then []
    else
      match CueToPeriod(s, i, cues)
      case Some(e) => RemoveToPeriodFrom(s, e, cues)
      case None => [s[i]] + RemoveToPeriodFrom(s, i + 1, cues)
  }

  /** The match ends at the first `.` after the cue; with none before a line break (or the end), there is no match. */
  lemma PeriodAfterFirst(s: string, e: nat)
    requires e <= |s|
    ensures PeriodAfter(s, e).Some? ==>
      forall k :: e <= k < PeriodAfter(s, e).value - 1 ==> s[k] != '.' && s[k] != '\n'
    ensures PeriodAfter(s, e).None? ==> forall k :: e <= k < |s| && s[k] == '.' ==> '\n' in s[e..k]
  {
    var t := RunEnd(s, e, NotDotOrBreak);
    if PeriodAfter(s, e).None? {
      forall k | e <= k < |s| && s[k] == '.' ensures '\n' in s[e..k] {
        assert t <= k;
        assert s[t] == '\n' && t != k;
        assert s[e..k][t - e] == s[t];
      }
    }
  }

  /** `cue` does not end a match at `c`: it does not match there, or no `.` follows it before a line break. */
  predicate PeriodPassed(s: string, c: nat, cue: Cue)
    requires c <= |s|
  {
    CueEnd(s, c, cue).None? || PeriodAfter(s, CueEnd(s, c, cue).value).None?
  }

  /** Alternative `k` is the first to match at `c` with a `.` after it, and that `.` ends at `e`. */
  predicate PeriodFound(s: string, c: nat, cues: seq<Cue>, k: nat, e: nat)
    requires c <= |s| && k < |cues|
  {
    CueEnd(s, c, cues[k]).Some? && PeriodAfter(s, CueEnd(s, c, cues[k]).value) == Some(e)
    && forall j :: 0 <= j < k ==> PeriodPassed(s, c, cues[j])
  }

  /** A match ends just past the first `.` after the first alternative, in the order written, that has one. */
  lemma {:induction false} CueToPeriodFirst(s: string, c: nat, cues: seq<Cue>)
    requires c <= |s|
    ensures CueToPeriod(s, c, cues).Some? ==>
      exists k :: 0 <= k < |cues| && PeriodFound(s, c, cues, k, CueToPeriod(s, c, cues).value)
  {
    if CueToPeriod(s, c, cues).None? {
      return;
    }
    var e := CueToPeriod(s, c, cues).value;
    if !PeriodPassed(s, c, cues[0]) {
      assert PeriodFound(s, c, cues, 0, e);
    } else {
      var rest := cues[1..];
      CueToPeriodFirst(s, c, rest);
      var k :| 0 <= k < |rest| && PeriodFound(s, c, rest, k, e);
      forall j | 1 <= j <= k + 1 ensures cues[j] == rest[j - 1] {}
      assert PeriodFound(s, c, cues, k + 1, e);
    }
  }

  /** No match starts at `c` exactly when every alternative is absent there or has no `.` after it. */
  lemma {:induction false} CueToPeriodNone(s: string, c: nat, cues: seq<Cue>)
    requires c <= |s|
    ensures CueToPeriod(s, c, cues).None? <==> forall j :: 0 <= j < |cues| ==> PeriodPassed(s, c, cues[j])
  {
    if cues != [] {
      var rest := cues[1..];
      CueToPeriodNone(s, c, rest);
      forall j | 1 <= j < |cues| ensures cues[j] == rest[j - 1] {}
    }
  }

  lemma {:induction false} RemoveToPeriodDeletes(s: string, i: nat, cues: seq<Cue>)
    requires i <= |s|
    ensures Subsequence(RemoveToPeriodFrom(s, i, cues), s[i..])
    decreases |s| - i
  {
    if i < |s| {
      var m := CueToPeriod(s, i, cues);
      if m.Some? {
        var e := m.value;
        assert RemoveToPeriodFrom(s, i, cues) == RemoveToPeriodFrom(s, e, cues);
        RemoveToPeriodDeletes(s, e, cues);
        assert s[i..][e - i..] == s[e..];
        SubsequenceDrop(RemoveToPeriodFrom(s, e, cues), s[i..], e - i);
      } else {
        var rest := RemoveToPeriodFrom(s, i + 1, cues);
        assert RemoveToPeriodFrom(s, i, cues) == [s[i]] + rest;
        RemoveToPeriodDeletes(s, i + 1, cues);
        assert s[i..][1..] == s[i + 1..];
        SubsequenceKeep(rest, s[i..]);
      }
    }
  }

  predicate NotCloseOrBreak(close: char, c: char) { c != close && c != '\n' }

  /** `open.*?close` at the start of `s`: up to the first `close`, unless a line break comes first. */
  function SpanEnd(s: string, open: char, close: char): (e: Option<nat>)
    ensures e.Some? ==> 2 <= e.value <= |s| && s[0] == open && s[e.value - 1] == close
    ensures e.None? && s != [] && s[0] == open && '\n' !in s ==> close !in s[1..]
  {
    if s != [] && s[0] == open then
      var j := RunEnd(s, 1, c => NotCloseOrBreak(close, c));
      if j < |s| && s[j] == close then Some(j + 1) else None
    else None
  }

  /** Every `open` that is left has no `close` anywhere after it. */
  predicate Unbracketed(s: string, open: char, close: char)
    decreases |s|
  {
    s == [] || ((s[0] == open ==> close !in s[1..]) && Unbracketed(s[1..], open, close))
  }

  /** `re.sub(r'open.*?close', '', s)` */
  function RemoveBetween(s: string, open: char, close: char): (r: string)
    ensures |r| <= |s| && DrawnFrom(r, s)
    ensures '\n' !in s ==> Unbracketed(r, open, close)
    decreases |s|
  {
    if s == [] then []
    else
      match SpanEnd(s, open, close)
      case Some(e) =>
        var r := RemoveBetween(s[e..], open, close);
        assert forall x :: x in s[e..] ==> x in s;
        r
      case None =>
        var rest := RemoveBetween(s[1..], open, close);
        var r := [s[0]] + rest;
        assert forall x :: x in s[1..] ==> x in s;
        assert r[1..] == rest;
        r
  }

  lemma {:induction false} RemoveBetweenDeletes(s: string, open: char, close: char)
    ensures Subsequence(RemoveBetween(s, open, close), s)
    decreases |s|
  {
    if s != [] {
      match SpanEnd(s, open, close)
      case Some(e) =>
        RemoveBetweenDeletes(s[e..], open, close);
        SubsequenceDrop(RemoveBetween(s[e..], open, close), s, e);
      case None =>
        RemoveBetweenDeletes(s[1..], open, close);
        SubsequenceKeep(RemoveBetween(s[1..], open, close), s);
    }
  }

  /** `^\s*[0-9]+\s*$` matches the whole text (without MULTILINE, `^` only matches at the start). */
  predicate IsNumberLine(s: string) { IsDigits(Strip(s)) }

  /** One filler pattern applied to the text. */
  function RemoveFiller(s: string, f: Filler): (r: string)
    ensures |r| <= |s| && DrawnFrom(r, s)
    ensures f.Between? && '\n' !in s ==> Unbracketed(r, f.open, f.close)
    ensures f.NumberOnly? ==> (r == [] <==> s == [] || IsNumberLine(s)) && (r != [] ==> r == s)
  {
    match f
    case Words(cues) => RemoveCues(s, cues)
    case WordsToPeriod(cues) => RemoveToPeriodFrom(s, 0, cues)
    case Between(open, close) => RemoveBetween(s, open, close)
    case NumberOnly => if IsNumberLine(s) then [] else s
  }

  /** The filler patterns `fs` applied one after the other. */
  function ApplyFillers(s: string, fs: seq<Filler>): (r: string)
    ensures |r| <= |s| && DrawnFrom(r, s)
  {
    if fs == [] then s
    else
      var t := ApplyFillers(s, fs[..|fs| - 1]);
      RemoveFiller(t, Last(fs))
  }

  /** Each filler pattern only deletes characters: the result is a subsequence of the text. */
  lemma RemoveFillerDeletes(s: string, f: Filler)
    ensures Subsequence(RemoveFiller(s, f), s)
  {
    match f
    case Words(cues) => RemoveCuesDeletes(s, cues);
    case WordsToPeriod(cues) =>
      RemoveToPeriodDeletes(s, 0, cues);
      assert s[0..] == s;
    case Between(open, close) => RemoveBetweenDeletes(s, open, close);
    case NumberOnly => SubsequenceRefl(s);
  }

  /** The filler patterns together only delete characters. */
  lemma {:induction false} ApplyFillersDeletes(s: string, fs: seq<Filler>)
    ensures Subsequence(ApplyFillers(s, fs), s)
    decreases |fs|
  {
    if fs == [] {
      SubsequenceRefl(s);
    } else {
      var t := ApplyFillers(s, fs[..|fs| - 1]);
      ApplyFillersDeletes(s, fs[..|fs| - 1]);
      RemoveFillerDeletes(t, Last(fs));
      SubsequenceTrans(RemoveFiller(t, Last(fs)), t, s);
    }
  }

  // ---- re.sub(r'\b(\w+)\s+\1\b', r'\1', s, flags=re.IGNORECASE) ----

  /** The extent of `\s*` at `i`: the end of the whitespace there. */
  function SpaceEnd(s: string, i: nat): (j: nat)
    requires i <= |s|
    ensures i <= j <= |s|
    ensures forall k :: i <= k < j ==> IsSpace(s[k])
    ensures j == |s| || !IsSpace(s[j])
    decreases |s| - i
  {
    if i == |s| || !IsSpace(s[i]) then i else SpaceEnd(s, i + 1)
  }

  /** The `n` characters at `i` and at `k` agree when lower-cased: `\1` under `IGNORECASE`. */
  predicate SameFolded(s: string, i: nat, k: nat, n: nat)
    requires i + n <= |s| && k + n <= |s|
    decreases n
  {
    n == 0 || (Lower(s[i]) == Lower(s[k]) && SameFolded(s, i + 1, k + 1, n - 1))
  }

  /** `\1\b` at `k`, the group being `s[i..g]`. */
  predicate EchoAt(s: string, i: nat, g: nat, k: nat)
    requires i <= g <= k <= |s|
  {
    k + (g - i) <= |s| && SameFolded(s, i, k, g - i) && IsBoundary(s, k + (g - i))
  }

  /**
   * A word repeated at `i`: `\b` then the word, whitespace, and the same word again
   * (ignoring case) ending at `\b`. Since `\s+` must follow the group and `\1`
   * must start with a word character, the group is the whole word and the
   * whitespace the whole run. Returns the end of the group and of the match.
   */
  function RepeatAt(s: string, i: nat): (m: Option<(nat, nat)>)
    requires i <= |s|
    ensures m.Some? ==> i < m.value.0 < m.value.1 <= |s|
  {
    if i < |s| && IsBoundary(s, i) && IsWordChar(s[i]) then
      var g := WordEnd(s, i);
      var k := SpaceEnd(s, g);
      if k > g && EchoAt(s, i, g, k) then Some((g, k + (g - i))) else None
    else None
  }

  function CollapseRepeatsFrom(s: string, i: nat): (r: string)
    requires i <= |s|
    ensures |r| <= |s| - i && DrawnFrom(r, s)
    decreases |s| - i
  {
    if i == |s| then []
    else
      match RepeatAt(s, i)
      case Some((g, e)) =>
        var r := s[i..g] + CollapseRepeatsFrom(s, e);
        assert forall x :: x in s[i..g] ==> x in s;
        r
      case None => [s[i]] + CollapseRepeatsFrom(s, i + 1)
  }

  /** One left-to-right pass that keeps a word repeated right after itself once. */
  function CollapseRepeats(s: string): (r: string)
    ensures |r| <= |s| && DrawnFrom(r, s)
  {
    CollapseRepeatsFrom(s, 0)
  }

  lemma {:induction false} CollapseRepeatsFromDeletes(s: string, i: nat)
    requires i <= |s|
    ensures Subsequence(CollapseRepeatsFrom(s, i), s[i..])
    decreases |s| - i
  {
    if i < |s| {
      match RepeatAt(s, i)
      case Some((g, e)) =>
        CollapseRepeatsFromDeletes(s, e);
        SubsequenceKeepSpan(CollapseRepeatsFrom(s, e), s, i, g, e);
      case None =>
        CollapseRepeatsFromDeletes(s, i + 1);
        assert s[i..][1..] == s[i + 1..];
        SubsequenceKeep(CollapseRepeatsFrom(s, i + 1), s[i..]);
    }
  }

  /** Collapsing repeated words only deletes characters: the second copy and the space before it. */
  lemma CollapseRepeatsDeletes(s: string)
    ensures Subsequence(CollapseRepeats(s), s)
  {
    CollapseRepeatsFromDeletes(s, 0);
    assert s[0..] == s;
  }

  predicate IsWord(w: string) { w != [] && forall k :: 0 <= k < |w| ==> IsWordChar(w[k]) }

  /** `s` holds `w[m..]` at `i + m`; the recursive form keeps the solver from unfolding it eagerly. */
  predicate Copies(s: string, i: nat, w: string, m: nat)
    decreases |w| - m
  {
    m >= |w| || (i + m < |s| && s[i + m] == w[m] && Copies(s, i, w, m + 1))
  }

  lemma {:induction false} CopiesOfSlice(s: string, i: nat, w: string, m: nat)
    requires i + |w| <= |s| && s[i..i + |w|] == w
    ensures Copies(s, i, w, m)
    decreases |w| - m
  {
    if m < |w| {
      assert s[i + m] == s[i..i + |w|][m];
      CopiesOfSlice(s, i, w, m + 1);
    }
  }

  lemma {:induction false} CopiesIndex(s: string, i: nat, w: string, m: nat)
    requires Copies(s, i, w, m)
    ensures i + |w| <= |s| || m >= |w|
    ensures forall k :: m <= k < |w| ==> s[i + k] == w[k]
    decreases |w| - m
  {
    if m < |w| {
      CopiesIndex(s, i, w, m + 1);
    }
  }

  /** A word said twice in a row is kept once. */
  lemma DoubledWord(w: string)
    requires IsWord(w)
    ensures CollapseRepeats(w + " " + w) == w
  {
    var n := |w|;
    var s := w + " " + w;
    assert s[0..n] == w && s[n + 1..2 * n + 1] == w && s[n] == ' ';
    CopiesOfSlice(s, 0, w, 0);
    CopiesOfSlice(s, n + 1, w, 0);
    Twice(s, w);
  }

  lemma Twice(s: string, w: string)
    requires IsWord(w) && |s| == 2 * |w| + 1
    requires Copies(s, 0, w, 0) && s[|w|] == ' ' && Copies(s, |w| + 1, w, 0)
    ensures CollapseRepeats(s) == s[0..|w|]
  {
    RepeatOf(s, 0, w);
    CollapseAtRepeat(s, 0, |w|, 2 * |w| + 1);
  }

  /**
   * The pass does not repeat itself: a word said three times comes out twice,
   * because scanning resumes after the first repetition.
   */
  lemma TripledWord(w: string)
    requires IsWord(w)
    ensures CollapseRepeats(w + " " + w + " " + w) == w + " " + w
  {
    var n := |w|;
    var s := w + " " + w + " " + w;
    ThreeTimes(w);
    CopiesOfSlice(s, 0, w, 0);
    CopiesOfSlice(s, n + 1, w, 0);
    CopiesOfSlice(s, 2 * n + 2, w, 0);
    Thrice(s, w);
  }

  lemma Thrice(s: string, w: string)
    requires IsWord(w) && |s| == 3 * |w| + 2
    requires Copies(s, 0, w, 0) && s[|w|] == ' ' && Copies(s, |w| + 1, w, 0)
    requires s[2 * |w| + 1] == ' ' && Copies(s, 2 * |w| + 2, w, 0)
    ensures CollapseRepeats(s) == s[0..|w|] + s[2 * |w| + 1..]
  {
    RepeatOf(s, 0, w);
    CollapseAtRepeat(s, 0, |w|, 2 * |w| + 1);
    LastWordKept(s, 2 * |w| + 1, w);
  }

  lemma ThreeTimes(w: string)
    ensures var n, s := |w|, w + " " + w + " " + w;
      && s[0..n] == w && s[n + 1..2 * n + 1] == w && s[2 * n + 2..] == w
      && s[n] == ' ' && s[2 * n + 1] == ' '
      && s[0..n] + s[2 * n + 1..] == w + " " + w
  {
    var n, s := |w|, w + " " + w + " " + w;
    assert s[2 * n + 1..] == " " + w;
  }

  /** At a repetition the pass keeps the first word and resumes after the second. */
  lemma CollapseAtRepeat(s: string, i: nat, g: nat, e: nat)
    requires i <= |s| && RepeatAt(s, i) == Some((g, e))
    ensures CollapseRepeatsFrom(s, i) == s[i..g] + CollapseRepeatsFrom(s, e)
  {
  }

  /** The word `w` at `i`, a space, and `w` again, standing between boundaries, is a repetition. */
  lemma RepeatOf(s: string, i: nat, w: string)
    requires IsWord(w) && i + 2 * |w| + 1 <= |s|
    requires Copies(s, i, w, 0) && s[i + |w|] == ' ' && Copies(s, i + |w| + 1, w, 0)
    requires i == 0 || !IsWordChar(s[i - 1])
    requires i + 2 * |w| + 1 == |s| || !IsWordChar(s[i + 2 * |w| + 1])
    ensures RepeatAt(s, i) == Some((i + |w|, i + 2 * |w| + 1))
  {
    RepeatFacts(s, i, w);
    RepeatAtIs(s, i, i + |w|, i + |w| + 1);
  }

  /** What such a repetition makes true of the text, piece by piece. */
  lemma RepeatFacts(s: string, i: nat, w: string)
    requires IsWord(w) && i + 2 * |w| + 1 <= |s|
    requires Copies(s, i, w, 0) && s[i + |w|] == ' ' && Copies(s, i + |w| + 1, w, 0)
    requires i == 0 || !IsWordChar(s[i - 1])
    requires i + 2 * |w| + 1 == |s| || !IsWordChar(s[i + 2 * |w| + 1])
    ensures IsBoundary(s, i) && IsWordChar(s[i])
    ensures WordEnd(s, i) == i + |w| && SpaceEnd(s, i + |w|) == i + |w| + 1
    ensures EchoAt(s, i, i + |w|, i + |w| + 1)
  {
    var n, j := |w|, i + |w| + 1;
    CopiesIndex(s, i, w, 0);
    CopiesIndex(s, j, w, 0);
    assert s[i + 0] == w[0] && s[j + 0] == w[0] && s[j + (n - 1)] == w[n - 1];
    assert forall k :: i <= k < i + n ==> IsWordChar(s[k]) by {
      forall k | i <= k < i + n ensures IsWordChar(s[k]) {
        assert s[i + (k - i)] == w[k - i];
      }
    }
    WordEndIs(s, i, i + n);
    SpaceEndIs(s, i + n, j);
    SameFoldedOf(s, i, j, w, 0);
  }

  lemma {:induction false} SpaceEndIs(s: string, i: nat, j: nat)
    requires i <= j <= |s|
    requires forall k :: i <= k < j ==> IsSpace(s[k])
    requires j == |s| || !IsSpace(s[j])
    ensures SpaceEnd(s, i) == j
    decreases j - i
  {
    if i < j {
      SpaceEndIs(s, i + 1, j);
    }
  }

  lemma {:induction false} SameFoldedOf(s: string, i: nat, j: nat, w: string, m: nat)
    requires m <= |w| && i + |w| <= |s| && j + |w| <= |s|
    requires forall k :: 0 <= k < |w| ==> s[i + k] == w[k] && s[j + k] == w[k]
    ensures SameFolded(s, i + m, j + m, |w| - m)
    decreases |w| - m
  {
    if m < |w| {
      assert s[i + m] == w[m] && s[j + m] == w[m];
      SameFoldedOf(s, i, j, w, m + 1);
    }
  }

  lemma RepeatAtIs(s: string, i: nat, g: nat, k: nat)
    requires i < |s| && IsBoundary(s, i) && IsWordChar(s[i])
    requires WordEnd(s, i) == g && SpaceEnd(s, g) == k
    requires k > g && EchoAt(s, i, g, k)
    ensures RepeatAt(s, i) == Some((g, k + (g - i)))
  {
  }

  /** A separator followed by the final word `w` is left as it is. */
  lemma LastWordKept(s: string, j: nat, w: string)
    requires IsWord(w) && j + 1 + |w| == |s| && !IsWordChar(s[j])
    requires Copies(s, j + 1, w, 0)
    ensures CollapseRepeatsFrom(s, j) == s[j..]
  {
    WordToEndKept(s, j, w);
    LastWordStep(s, j);
    TwoThenRest(s, j);
  }

  /** A word running to the end of the text is one word, and the pass keeps all of it after its first character. */
  lemma WordToEndKept(s: string, j: nat, w: string)
    requires IsWord(w) && j + 1 + |w| == |s|
    requires Copies(s, j + 1, w, 0)
    ensures WordEnd(s, j + 1) == |s| && CollapseRepeatsFrom(s, j + 2) == s[j + 2..]
  {
    LastWordFacts(s, j, w);
    RestIsKept(s, j + 2);
  }

  lemma TwoThenRest(s: string, j: nat)
    requires j + 1 < |s|
    ensures s[j..] == [s[j], s[j + 1]] + s[j + 2..]
  {
  }

  lemma LastWordFacts(s: string, j: nat, w: string)
    requires IsWord(w) && j + 1 + |w| == |s|
    requires Copies(s, j + 1, w, 0)
    ensures WordEnd(s, j + 1) == |s|
    ensures forall k :: j + 1 <= k < |s| ==> IsWordChar(s[k])
  {
    CopiesIndex(s, j + 1, w, 0);
    assert forall k :: j + 1 <= k < |s| ==> IsWordChar(s[k]) by {
      forall k | j + 1 <= k < |s| ensures IsWordChar(s[k]) {
        assert s[j + 1 + (k - j - 1)] == w[k - j - 1];
      }
    }
    WordEndIs(s, j + 1, |s|);
  }

  /** Neither the separator nor a word running to the end starts a repetition. */
  lemma LastWordStep(s: string, j: nat)
    requires j + 1 < |s| && !IsWordChar(s[j]) && WordEnd(s, j + 1) == |s|
    ensures CollapseRepeatsFrom(s, j) == [s[j], s[j + 1]] + CollapseRepeatsFrom(s, j + 2)
  {
    assert RepeatAt(s, j).None?;
    assert RepeatAt(s, j + 1).None?;
  }

  /** Inside a word (after its first character) no repetition can start. */
  lemma {:induction false} RestIsKept(s: string, i: nat)
    requires 0 < i <= |s|
    requires forall k :: i - 1 <= k < |s| ==> IsWordChar(s[k])
    ensures CollapseRepeatsFrom(s, i) == s[i..]
    decreases |s| - i
  {
    if i < |s| {
      assert !IsBoundary(s, i);
      RestIsKept(s, i + 1);
      assert s[i..] == [s[i]] + s[i + 1..];
    }
  }

  // ---- re.sub(r'\.\s+\.', '.', s) ----

  /** `\.\s+\.` matches at the start of `s`. */
  predicate DotRunStart(s: string) {
    s != [] && s[0] == '.' && RunEnd(s, 1, IsSpace) > 1 && RunEnd(s, 1, IsSpace) < |s| && s[RunEnd(s, 1, IsSpace)] == '.'
  }

  /** A `.`, whitespace, and another `.` become a single `.`; the scan resumes after the second `.`. */
  function CollapseDotRuns(s: string): (r: string)
    ensures |r| <= |s| && DrawnFrom(r, s)
    ensures '.' !in s ==> r == s
    decreases |s|
  {
    if s == [] then []
    else if DotRunStart(s) then
      var k := RunEnd(s, 1, IsSpace);
      var r := ['.'] + CollapseDotRuns(s[k + 1..]);
      assert forall x :: x in s[k + 1..] ==> x in s;
      r
    else
      var r := [s[0]] + CollapseDotRuns(s[1..]);
      assert forall x :: x in s[1..] ==> x in s;
      r
  }

  /** Each match loses its whitespace and its second `.`; nothing else changes, so the result is a subsequence. */
  lemma {:induction false} CollapseDotRunsDeletes(s: string)
    ensures Subsequence(CollapseDotRuns(s), s)
    decreases |s|
  {
    if s != [] {
      if DotRunStart(s) {
        var k := RunEnd(s, 1, IsSpace);
        CollapseDotRunsDeletes(s[k + 1..]);
        SubsequenceKeepSpan(CollapseDotRuns(s[k + 1..]), s, 0, 1, k + 1);
        assert s[0..1] == ['.'] && s[0..] == s;
      } else {
        CollapseDotRunsDeletes(s[1..]);
        SubsequenceKeep(CollapseDotRuns(s[1..]), s);
      }
    }
  }

  /** Text in which the pattern matches nowhere is left as it is. */
  lemma {:induction false} NoDotRunKept(s: string)
    requires forall i :: 0 <= i < |s| ==> !DotRunStart(s[i..])
    ensures CollapseDotRuns(s) == s
    decreases |s|
  {
    if s != [] {
      assert s[0..] == s;
      forall i | 0 <= i < |s| - 1 ensures !DotRunStart(s[1..][i..]) {
        assert s[1..][i..] == s[i + 1..];
      }
      NoDotRunKept(s[1..]);
    }
  }

  /** Text before the first `.` is passed over unchanged. */
  lemma {:induction false} DotFreePrefixKept(p: string, s: string)
    requires '.' !in p
    ensures CollapseDotRuns(p + s) == p + CollapseDotRuns(s)
    decreases |p|
  {
    if p != [] {
      var t := p + s;
      assert t[0] == p[0] && !DotRunStart(t);
      assert t[1..] == p[1..] + s;
      assert CollapseDotRuns(t) == [p[0]] + CollapseDotRuns(p[1..] + s);
      DotFreePrefixKept(p[1..], s);
      assert [p[0]] + (p[1..] + CollapseDotRuns(s)) == p + CollapseDotRuns(s);
    } else {
      assert p + s == s;
    }
  }

  /**
   * The rewrite itself: the first `.`, its whitespace run and the `.` after it
   * become one `.`, the text before them is kept, and the scan goes on after the second `.`.
   */
  lemma DotRunCollapsed(p: string, w: string, rest: string)
    requires '.' !in p && w != [] && forall k :: 0 <= k < |w| ==> IsSpace(w[k])
    ensures CollapseDotRuns(p + (['.'] + w + ['.'] + rest)) == p + (['.'] + CollapseDotRuns(rest))
  {
    DotRunAtStart(w, rest);
    DotFreePrefixKept(p, ['.'] + w + ['.'] + rest);
  }

  lemma DotRunAtStart(w: string, rest: string)
    requires w != [] && forall k :: 0 <= k < |w| ==> IsSpace(w[k])
    ensures CollapseDotRuns(['.'] + w + ['.'] + rest) == ['.'] + CollapseDotRuns(rest)
  {
    var t := ['.'] + w + ['.'] + rest;
    assert forall k :: 1 <= k < |w| + 1 ==> t[k] == w[k - 1];
    assert t[|w| + 1] == '.';
    RunEndIs(t, 1, |w| + 1, IsSpace);
    assert DotRunStart(t);
    assert t[|w| + 2..] == rest;
  }

  /** One left-to-right pass: in `. . .` the first two dots form the match, and the third is left with its space. */
  lemma DotRunsOnePass()
    ensures CollapseDotRuns(". . .") == ". ."
  {
    var s := ". . .";
    assert RunEnd(s, 1, IsSpace) == 2 by { RunEndIs(s, 1, 2, IsSpace); }
    assert s[3..] == " .";
    var t := " .";
    assert !DotRunStart(t);
    assert t[1..] == ".";
    assert RunEnd(".", 1, IsSpace) == 1;
  }

  // ---- re.sub(r'\s+([.,!?;:])', r'\1', s) ----

  /** Where the punctuation mark after the whitespace run at the start of `s` is, if there is one. */
  function PunctAfterSpaces(s: string): (k: Option<nat>)
    ensures k.Some? ==> 0 < k.value < |s| && IsPunct(s[k.value])
    ensures k.None? && s != [] && IsSpace(s[0]) && |s| > 1 ==> PunctAfterSpaces(s[1..]).None? || !IsSpace(s[1])
  {
    if s != [] && IsSpace(s[0]) then
      var k := RunEnd(s, 0, IsSpace);
      if k < |s| && IsPunct(s[k]) then Some(k) else None
    else None
  }

  /** Whitespace in front of a punctuation mark is dropped. */
  function Tighten(s: string): (r: string)
    ensures |r| <= |s| && DrawnFrom(r, s)
    ensures NoSpaceBeforePunct(r)
    ensures s != [] && PunctAfterSpaces(s).None? ==> r != [] && r[0] == s[0]
    decreases |s|
  {
    if s == [] then []
    else
      match PunctAfterSpaces(s)
      case Some(k) =>
        var r := [s[k]] + Tighten(s[k + 1..]);
        assert forall x :: x in s[k + 1..] ==> x in s;
        r
      case None =>
        var rest := Tighten(s[1..]);
        var r := [s[0]] + rest;
        assert forall x :: x in s[1..] ==> x in s;
        TightenStep(s);
        assert r[1..] == rest;
        r
  }

  /** After a whitespace character that is not followed by punctuation, what comes next is no punctuation mark. */
  lemma TightenStep(s: string)
    requires s != [] && PunctAfterSpaces(s).None?
    ensures IsSpace(s[0]) && |s| > 1 ==> PunctAfterSpaces(s[1..]).None? || !IsSpace(s[1])
    ensures IsSpace(s[0]) && |s| > 1 && !IsSpace(s[1]) ==> !IsPunct(s[1])
  {
    if IsSpace(s[0]) && |s| > 1 && IsSpace(s[1]) {
      assert RunEnd(s, 0, IsSpace) == RunEnd(s, 1, IsSpace);
      assert RunEnd(s[1..], 0, IsSpace) == RunEnd(s, 1, IsSpace) - 1 by {
        RunEndShift(s, 1);
      }
    }
  }

  lemma {:induction false} RunEndShift(s: string, i: nat)
    requires 1 <= i <= |s|
    ensures RunEnd(s[1..], i - 1, IsSpace) == RunEnd(s, i, IsSpace) - 1
    decreases |s| - i
  {
    if i < |s| && IsSpace(s[i]) {
      assert s[1..][i - 1] == s[i];
      RunEndShift(s, i + 1);
    }
  }

  // ---- re.sub(r'\.([A-Z])', r'. \1', s), and the same for `!` and `?` ----

  /** A space is put between the mark `m` and an upper-case letter right after it. */
  function SpaceAfter(s: string, m: char): (r: string)
    requires IsTerminator(m)
    ensures NoMarkBeforeUpper(r, m)
    ensures s != [] ==> r != [] && r[0] == s[0]
    ensures |r| >= |s|
    decreases |s|
  {
    if s == [] then []
    else if |s| >= 2 && s[0] == m && IsUpper(s[1]) then
      var rest := SpaceAfter(s[2..], m);
      var r := [m, ' ', s[1]] + rest;
      assert r[3..] == rest;
      r
    else
      var rest := SpaceAfter(s[1..], m);
      var r := [s[0]] + rest;
      assert r[1..] == rest;
      r
  }

  /** Putting a space after one mark keeps the other marks away from upper-case letters. */
  lemma {:induction false} SpaceAfterKeepsMarks(s: string, m: char, q: char)
    requires IsTerminator(m) && IsTerminator(q) && q != m && NoMarkBeforeUpper(s, q)
    ensures NoMarkBeforeUpper(SpaceAfter(s, m), q)
    decreases |s|
  {
    if s == [] {
    } else if |s| >= 2 && s[0] == m && IsUpper(s[1]) {
      SpaceAfterKeepsMarks(s[2..], m, q);
      var rest := SpaceAfter(s[2..], m);
      var r := [m, ' ', s[1]] + rest;
      assert r[3..] == rest;
    } else {
      SpaceAfterKeepsMarks(s[1..], m, q);
      var rest := SpaceAfter(s[1..], m);
      var r := [s[0]] + rest;
      assert r[1..] == rest;
    }
  }

  /** The spaces it puts in are followed by letters, so no space comes before punctuation. */
  lemma {:induction false} SpaceAfterKeepsSpacing(s: string, m: char)
    requires IsTerminator(m) && NoSpaceBeforePunct(s)
    ensures NoSpaceBeforePunct(SpaceAfter(s, m))
    decreases |s|
  {
    if s == [] {
    } else if |s| >= 2 && s[0] == m && IsUpper(s[1]) {
      SpaceAfterKeepsSpacing(s[2..], m);
      var rest := SpaceAfter(s[2..], m);
      var r := [m, ' ', s[1]] + rest;
      assert forall k :: 3 <= k < |r| ==> r[k] == rest[k - 3];
    } else {
      SpaceAfterKeepsSpacing(s[1..], m);
      var rest := SpaceAfter(s[1..], m);
      var r := [s[0]] + rest;
      assert forall k :: 1 <= k < |r| ==> r[k] == rest[k - 1];
    }
  }

  /** The only whitespace it puts in is the plain space. */
  lemma {:induction false} SpaceAfterKeepsPlain(s: string, m: char)
    requires IsTerminator(m) && PlainSpaced(s)
    ensures PlainSpaced(SpaceAfter(s, m))
    decreases |s|
  {
    if s == [] {
    } else if |s| >= 2 && s[0] == m && IsUpper(s[1]) {
      SpaceAfterKeepsPlain(s[2..], m);
      var rest := SpaceAfter(s[2..], m);
      var r := [m, ' ', s[1]] + rest;
      assert forall k :: 3 <= k < |r| ==> r[k] == rest[k - 3];
    } else {
      SpaceAfterKeepsPlain(s[1..], m);
      var rest := SpaceAfter(s[1..], m);
      var r := [s[0]] + rest;
      assert forall k :: 1 <= k < |r| ==> r[k] == rest[k - 1];
    }
  }

  /** A piece of a text keeps the text's spacing. */
  lemma SliceKeeps(s: string, a: nat, b: nat)
    requires a <= b <= |s|
    ensures PlainSpaced(s) ==> PlainSpaced(s[a..b])
    ensures NoSpaceBeforePunct(s) ==> NoSpaceBeforePunct(s[a..b])
  {
    assert forall k :: 0 <= k < b - a ==> s[a..b][k] == s[a + k];
  }

  /** A piece of a text keeps the text's marks away from upper-case letters. */
  lemma SliceKeepsMark(s: string, a: nat, b: nat, m: char)
    requires a <= b <= |s| && NoMarkBeforeUpper(s, m)
    ensures NoMarkBeforeUpper(s[a..b], m)
  {
    assert forall k :: 0 <= k < b - a ==> s[a..b][k] == s[a + k];
  }

  /** Stripping the ends keeps the spacing. */
  lemma StripKeeps(u: string)
    ensures PlainSpaced(u) ==> PlainSpaced(Strip(u))
    ensures NoSpaceBeforePunct(u) ==> NoSpaceBeforePunct(Strip(u))
  {
    var a, r := LeadingSpace(u), Strip(u);
    assert r == u[a..a + |r|];
    SliceKeeps(u, a, a + |r|);
  }

  /** Stripping the ends keeps the mark `m` away from upper-case letters. */
  lemma StripKeepsMark(u: string, m: char)
    requires NoMarkBeforeUpper(u, m)
    ensures NoMarkBeforeUpper(Strip(u), m)
  {
    var a := LeadingSpace(u);
    SliceKeepsMark(u, a, a + |Strip(u)|, m);
  }

  /** Everything `clean_transcript` does after the filler patterns, up to the final `strip()`. */
  function Tidied(t: string): (r: string)
    ensures PlainSpaced(t) ==> PlainSpaced(r)
    ensures NoSpaceBeforePunct(r)
    ensures NoMarkBeforeUpper(r, '.') && NoMarkBeforeUpper(r, '!') && NoMarkBeforeUpper(r, '?')
  {
    var a := CollapseRepeats(t);
    var b := CollapseDotRuns(a);
    var c := Tighten(b);
    assert PlainSpaced(t) ==> PlainSpaced(c) by {
      if PlainSpaced(t) {
        PlainSpacedDrawn(a, t);
        PlainSpacedDrawn(b, a);
        PlainSpacedDrawn(c, b);
      }
    }
    var d := SpaceAfter(c, '.');
    var e := SpaceAfter(d, '!');
    var f := SpaceAfter(e, '?');
    SpaceAfterKeepsSpacing(c, '.');
    SpaceAfterKeepsSpacing(d, '!');
    SpaceAfterKeepsSpacing(e, '?');
    assert PlainSpaced(t) ==> PlainSpaced(f) by {
      if PlainSpaced(t) {
        SpaceAfterKeepsPlain(c, '.');
        SpaceAfterKeepsPlain(d, '!');
        SpaceAfterKeepsPlain(e, '?');
      }
    }
    SpaceAfterKeepsMarks(d, '!', '.');
    SpaceAfterKeepsMarks(e, '?', '.');
    SpaceAfterKeepsMarks(e, '?', '!');
    f
  }

  /** What `clean_transcript(transcript)` returns. */
  function Cleaned(transcript: string): (r: string)
    ensures transcript == [] ==> r == []
    ensures NoOuterSpace(r) && PlainSpaced(r) && NoSpaceBeforePunct(r)
    ensures NoMarkBeforeUpper(r, '.') && NoMarkBeforeUpper(r, '!') && NoMarkBeforeUpper(r, '?')
  {
    if transcript == [] then []
    else
      var t := ApplyFillers(CollapseSpaces(transcript), Fillers);
      PlainSpacedDrawn(t, CollapseSpaces(transcript));
      var u := Tidied(t);
      StripKeeps(u);
      StripKeepsMark(u, '.');
      StripKeepsMark(u, '!');
      StripKeepsMark(u, '?');
      Strip(u)
  }

  /** `clean_transcript(transcript)` */
  method CleanTranscript(transcript: string) returns (r: string)
    ensures r == Cleaned(transcript)
  {
    if transcript == [] {
      return "";
    }
    var t := CollapseSpaces(transcript);
    ghost var start := t;
    for k := 0 to |Fillers|
      invariant t == ApplyFillers(start, Fillers[..k])
    {
      assert Fillers[..k + 1][..k] == Fillers[..k];
      t := RemoveFiller(t, Fillers[k]);
    }
    assert Fillers[..|Fillers|] == Fillers;
    t := Tidied(t);
    r := Strip(t);
  }
}
