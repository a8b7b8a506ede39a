/**
 * The text pieces the notes are written from: the duration text and its reading
 * back, numbered and bulleted lists, the step lines, and the loops that append
 * them one line at a time.
 */
module Render {
  import opened Wrappers
  import opened Text
  import opened Scan

  // ---------------------------------------------------------------- duration

  /** `{h}h`, `{m}m`, `{s}s` for a positive number of seconds; the hours only when there are some. */
  function ClockParts(d: nat): seq<string>
  {
    var h, m, s := d / 3600, d % 3600 / 60, d % 60;
    (if h > 0 then [NatStr(h) + "h"] else []) + [NatStr(m) + "m", NatStr(s) + "s"]
  }

  /** The `duration_str` of the header. */
  function FormatDuration(duration: int): string
  {
    if duration > 0 then Join(" ", ClockParts(duration)) else "Unknown"
  }

  function UnitSeconds(u: char): Option<nat>
  {
    if u == 'h' then Some(3600) else if u == 'm' then Some(60) else if u == 's' then Some(1) else None
  }

  /** The seconds one `<digits><unit>` piece stands for. */
  function PieceSeconds(piece: string): Option<nat>
  {
    if |piece| < 2 then None
    else
      var digits := piece[..|piece| - 1];
      match UnitSeconds(piece[|piece| - 1])
      case Some(u) => if IsDigits(digits) then Some(DigitsValue(digits) * u) else None
      case None => None
  }

  function PiecesSeconds(pieces: seq<string>): Option<nat>
  {
    if pieces == [] then Some(0)
    else
      match (PieceSeconds(pieces[0]), PiecesSeconds(pieces[1..]))
      case (Some(a), Some(b)) => Some(a + b)
      case _ => None
  }

  /** Reads a duration text back: the total of its space-separated pieces. */
  function DurationSeconds(text: string): Option<nat>
  {
    PiecesSeconds(Split(text, ' '))
  }

  lemma ClockSum(d: nat)
    ensures d / 3600 * 3600 + d % 3600 / 60 * 60 + d % 60 == d
    ensures d % 3600 / 60 < 60
  {
    var r := d % 3600;
    assert d == 3600 * (d / 3600) + r;
    assert r == 60 * (r / 60) + r % 60;
    assert d == 60 * (60 * (d / 3600) + r / 60) + r % 60;
    assert r % 60 == d % 60;
  }

  lemma PieceValue(n: nat, u: char)
    requires UnitSeconds(u).Some?
    ensures PieceSeconds(NatStr(n) + [u]) == Some(n * UnitSeconds(u).value)
  {
    var piece := NatStr(n) + [u];
    assert piece[..|piece| - 1] == NatStr(n);
    NatStrValue(n);
  }

  lemma PiecesStep(p: string, rest: seq<string>, a: nat, b: nat)
    requires PieceSeconds(p) == Some(a) && PiecesSeconds(rest) == Some(b)
    ensures PiecesSeconds([p] + rest) == Some(a + b)
  {
    assert ([p] + rest)[1..] == rest;
  }

  /** The pieces of a positive duration add back up to it. */
  lemma ClockRead(d: nat)
    requires d > 0
    ensures PiecesSeconds(ClockParts(d)) == Some(d)
  {
    var h, m, s := d / 3600, d % 3600 / 60, d % 60;
    var hp, mp, sp := NatStr(h) + "h", NatStr(m) + "m", NatStr(s) + "s";
    PieceValue(h, 'h');
    PieceValue(m, 'm');
    PieceValue(s, 's');
    PiecesStep(sp, [], s, 0);
    assert [sp] + [] == [sp];
    PiecesStep(mp, [sp], m * 60, s);
    assert [mp] + [sp] == [mp, sp];
    ClockSum(d);
    if h > 0 {
      assert ClockParts(d) == [hp] + [mp, sp];
      PiecesStep(hp, [mp, sp], h * 3600, m * 60 + s);
      assert h * 3600 + (m * 60 + s) == d;
    } else {
      assert ClockParts(d) == [mp, sp];
      assert m * 60 + s == d;
    }
  }

  lemma UnknownUnread()
    ensures DurationSeconds("Unknown") == None
  {
    SplitJoin(["Unknown"], ' ');
    assert Join([' '], ["Unknown"]) == "Unknown";
  }

  /**
   * The duration text reads back as the number of seconds it was made from, and it
   * is `Unknown` exactly when the duration is not positive; `Unknown` reads as nothing.
   */
  lemma DurationRoundTrip(duration: int)
    ensures DurationSeconds(FormatDuration(duration)) == if duration > 0 then Some(duration as nat) else None
    ensures FormatDuration(duration) == "Unknown" <==> duration <= 0
  {
    UnknownUnread();
    if duration > 0 {
      var ps := ClockParts(duration);
      forall p <- ps
        ensures ' ' !in p
      {
      }
      SplitJoin(ps, ' ');
      assert Join([' '], ps) == FormatDuration(duration);
      ClockRead(duration);
    }
  }

  // ------------------------------------------------------------------- steps

  /** `\b(step\s+\d+|first|second|third|fourth|fifth|next|then|finally|lastly)\b`, ignoring case. */
  const StepWords: seq<Cue> := [
    StepNumber(true), Phrase("first"), Phrase("second"), Phrase("third"), Phrase("fourth"),
    Phrase("fifth"), Phrase("next"), Phrase("then"), Phrase("finally"), Phrase("lastly")
  ]

  /** A step with its cue words removed, stripped. */
  function CleanStep(step: string): string
  {
    Strip(RemoveCues(step, StepWords))
  }

  /** Each step with its cue words removed and stripped. */
  function Cleans(steps: seq<string>): (cs: seq<string>)
    ensures |cs| == |steps|
  {
    seq(|steps|, k requires 0 <= k < |steps| => CleanStep(steps[k]))
  }

  /** The line of the cleaned step at position `j` (from 0): `**Step {j + 1}:** {clean}`. */
  function StepAt(cs: seq<string>, j: nat): string
    requires j < |cs|
  {
    "**Step " + NatStr(j + 1) + ":** " + cs[j]
  }

  /** The `**Step i:**` lines: each step keeps its own number, and a step that cleans to nothing writes no line. */
  function StepLines(cs: seq<string>): seq<string>
  {
    if cs == [] then []
    else
      var n := |cs|;
      StepLines(cs[..n - 1]) + (if cs[n - 1] != [] then [StepAt(cs, n - 1)] else [])
  }

  lemma StepAtPrefix(cs: seq<string>, n: nat, j: nat)
    requires j < n <= |cs|
    ensures StepAt(cs[..n], j) == StepAt(cs, j)
  {
  }

  lemma StepLinesSnoc(cs: seq<string>, i: nat)
    requires i < |cs|
    ensures StepLines(cs[..i + 1]) == StepLines(cs[..i]) + if cs[i] != [] then [StepAt(cs, i)] else []
  {
    assert cs[..i + 1][..i] == cs[..i];
    StepAtPrefix(cs, i + 1, i);
  }

  /** There is at most one line per step. */
  lemma {:induction false} StepCount(cs: seq<string>)
    ensures |StepLines(cs)| <= |cs|
  {
    if cs != [] {
      StepCount(cs[..|cs| - 1]);
    }
  }

  /** Every step line is the line of a step that did not clean to nothing, under that step's own number. */
  lemma {:induction false} StepLinesSound(cs: seq<string>)
    ensures forall l <- StepLines(cs) :: exists j :: 0 <= j < |cs| && cs[j] != [] && l == StepAt(cs, j)
  {
    if cs != [] {
      var n := |cs|;
      var init := cs[..n - 1];
      StepLinesSound(init);
      forall l <- StepLines(init)
        ensures exists j :: 0 <= j < n && cs[j] != [] && l == StepAt(cs, j)
      {
        var j :| 0 <= j < |init| && init[j] != [] && l == StepAt(init, j);
        StepAtPrefix(cs, n - 1, j);
      }
    }
  }

  /**
   * Every step that does not clean to nothing has its line, so a blank step
   * leaves a gap in the numbering rather than renumbering the steps after it.
   */
  lemma {:induction false} StepLinesComplete(cs: seq<string>)
    ensures forall j :: 0 <= j < |cs| && cs[j] != [] ==> StepAt(cs, j) in StepLines(cs)
  {
    if cs != [] {
      var n := |cs|;
      var init := cs[..n - 1];
      StepLinesComplete(init);
      forall j | 0 <= j < n - 1 && cs[j] != []
        ensures StepAt(cs, j) in StepLines(cs)
      {
        StepAtPrefix(cs, n - 1, j);
        assert init[j] == cs[j];
      }
    }
  }

  // ------------------------------------------------------------------ listing

  /** `- {x}` for each item. */
  function Bulleted(items: seq<string>): (ls: seq<string>)
    ensures |ls| == |items|
  {
    seq(|items|, k requires 0 <= k < |items| => "- " + items[k])
  }

  /** `{i}. {x}{tail}` for each item, counting from 1. */
  function Numbered(items: seq<string>, tail: string): (ls: seq<string>)
    ensures |ls| == |items|
  {
    seq(|items|, k requires 0 <= k < |items| => NatStr(k + 1) + ". " + items[k] + tail)
  }

  /** A heading after a blank line, then the entries, or the placeholder when there is nothing to list. */
  function Block(heading: string, entries: seq<string>, placeholder: string, isEmpty: bool): seq<string>
  {
    ["", heading] + (if isEmpty then [placeholder] else entries)
  }

  /**
   * A section's placeholder is written exactly when it has nothing to list, as
   * long as no entry can be mistaken for it; the section is its blank line, its
   * heading, and its entries or the placeholder.
   */
  lemma BlockShape(heading: string, entries: seq<string>, placeholder: string, isEmpty: bool)
    requires placeholder != [] && placeholder != heading
    requires forall l <- entries :: l != [] && l[0] != placeholder[0]
    ensures placeholder in Block(heading, entries, placeholder, isEmpty) <==> isEmpty
    ensures |Block(heading, entries, placeholder, isEmpty)| == 2 + if isEmpty then 1 else |entries|
  {
  }

  predicate Bullets(ls: seq<string>) { forall l <- ls :: l != [] && l[0] == '-' }

  predicate NumberLed(ls: seq<string>) { forall l <- ls :: l != [] && IsDigit(l[0]) }

  lemma BulletedLed(items: seq<string>)
    ensures Bullets(Bulleted(items))
  {
  }

  lemma NumberedLed(items: seq<string>, tail: string)
    ensures NumberLed(Numbered(items, tail))
  {
    forall l <- Numbered(items, tail)
      ensures l != [] && IsDigit(l[0])
    {
      var k :| 0 <= k < |items| && l == Numbered(items, tail)[k];
      var n := NatStr(k + 1);
      assert l == n + (". " + items[k] + tail);
    }
  }

  lemma StepLinesLed(steps: seq<string>)
    ensures forall l <- StepLines(steps) :: l != [] && l[0] == '*'
  {
    StepLinesSound(steps);
  }

  /** The number of `### ` topic headings among some lines. */
  function HeadingCount(ls: seq<string>): nat
  {
    if ls == [] then 0
    else HeadingCount(ls[..|ls| - 1]) + (if StartsWith(ls[|ls| - 1], "### ") then 1 else 0)
  }

  lemma {:induction false} HeadingCountAppend(a: seq<string>, b: seq<string>)
    ensures HeadingCount(a + b) == HeadingCount(a) + HeadingCount(b)
    decreases |b|
  {
    if b == [] {
      assert a + b == a;
    } else {
      var n := |b|;
      assert (a + b)[..|a + b| - 1] == a + b[..n - 1];
      HeadingCountAppend(a, b[..n - 1]);
    }
  }

  lemma {:induction false} NumberLedNoHeading(ls: seq<string>)
    requires NumberLed(ls)
    ensures HeadingCount(ls) == 0
    decreases |ls|
  {
    if ls != [] {
      var init, l := ls[..|ls| - 1], ls[|ls| - 1];
      forall x <- init
        ensures x != [] && IsDigit(x[0])
      {
        assert x in ls;
      }
      NumberLedNoHeading(init);
      assert l in ls;
      assert IsDigit(l[0]);
    }
  }

  // ----------------------------------------------------------------- writing

  /** Appends one bullet line per item. */
  method AddBullets(notes: string, items: seq<string>) returns (r: string)
    ensures r == notes + Lines(Bulleted(items))
  {
    r := notes;
    for i := 0 to |items|
      invariant r == notes + Lines(Bulleted(items[..i]))
    {
      var line := "- " + items[i];
      assert Bulleted(items[..i + 1]) == Bulleted(items[..i]) + [line];
      LinesSnoc(notes, Bulleted(items[..i]), line);
      r := r + (line + "\n");
    }
    assert items[..|items|] == items;
  }

  /** Appends one numbered line per item, counting from 1. */
  method AddNumbered(notes: string, items: seq<string>, tail: string) returns (r: string)
    ensures r == notes + Lines(Numbered(items, tail))
  {
    r := notes;
    for i := 0 to |items|
      invariant r == notes + Lines(Numbered(items[..i], tail))
    {
      var line := NatStr(i + 1) + ". " + items[i] + tail;
      assert Numbered(items[..i + 1], tail) == Numbered(items[..i], tail) + [line];
      LinesSnoc(notes, Numbered(items[..i], tail), line);
      r := r + (line + "\n");
    }
    assert items[..|items|] == items;
  }

  /** The step loop: each step is cleaned, and written under its own number only when something is left. */
  method AddSteps(notes: string, steps: seq<string>) returns (r: string)
    ensures r == notes + Lines(StepLines(Cleans(steps)))
  {
    ghost var cs := Cleans(steps);
    r := notes;
    for i := 0 to |steps|
      invariant r == notes + Lines(StepLines(cs[..i]))
    {
      var cleanStep := Strip(RemoveCues(steps[i], StepWords));
      assert cleanStep == cs[i];
      StepLinesSnoc(cs, i);
      if cleanStep != [] {
        var line := "**Step " + NatStr(i + 1) + ":** " + cleanStep;
        assert line == StepAt(cs, i);
        LinesSnoc(notes, StepLines(cs[..i]), line);
        r := r + (line + "\n");
      } else {
        assert StepLines(cs[..i + 1]) == StepLines(cs[..i]);
      }
    }
    assert cs[..|steps|] == cs;
  }

  /** A heading written after a blank line, then the lines under it. */
  lemma HeadedLines(notes: string, heading: string, body: seq<string>)
    ensures notes + ("\n" + heading + "\n") + Lines(body) == notes + Lines(["", heading] + body)
  {
    LinesAppend(["", heading], body);
    LinesPair("", heading);
    Assoc(notes, "\n" + heading + "\n", Lines(body));
  }

  /** A section that lists its entries, or writes its placeholder when there is nothing to list. */
  method AddBlock(notes: string, heading: string, entries: seq<string>, placeholder: string, isEmpty: bool,
                  bulleted: bool, items: seq<string>) returns (r: string)
    requires entries == (if bulleted then Bulleted(items) else Numbered(items, ""))
    ensures r == notes + Lines(Block(heading, entries, placeholder, isEmpty))
  {
    r := notes + ("\n" + heading + "\n");
    if !isEmpty {
      if bulleted {
        r := AddBullets(r, items);
      } else {
        r := AddNumbered(r, items, "");
      }
      HeadedLines(notes, heading, entries);
    } else {
      r := r + (placeholder + "\n");
      LinesPair(placeholder, "");
      HeadedLines(notes, heading, [placeholder]);
    }
  }
}
