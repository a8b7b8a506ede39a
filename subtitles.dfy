/**
 * `parse_subtitles`: plain text from a downloaded caption file. A JSON caption
 * payload contributes its `utf8` segments; any other body is read line by line
 * as WebVTT or SRT, keeping only the caption text.
 */
module Subtitles {
  import opened Wrappers
  import opened Text

  /** One segment of a JSON caption event; `utf8` is absent when the key is. */
  datatype Seg = Seg(utf8: Option<string>)

  /** One caption event; `segs` is absent when the key is. */
  datatype Event = Event(segs: Option<seq<Seg>>)

  /**
   * What `json.loads` makes of a body: something it cannot decode (or that
   * raises while being read), an object without `events`, or the events.
   */
  datatype Json = Unparsable | WithoutEvents | WithEvents(events: seq<Event>)

  /** The `utf8` texts of some segments, in order. */
  function SegTexts(segs: seq<Seg>): seq<string>
  {
    if segs == [] then []
    else
      var s := Last(segs);
      SegTexts(segs[..|segs| - 1]) + (if s.utf8.Some? then [s.utf8.value] else [])
  }

  /** The `utf8` texts of all segments of all events, in order. */
  function EventTexts(events: seq<Event>): seq<string>
  {
    if events == [] then []
    else
      var e := Last(events);
      EventTexts(events[..|events| - 1]) + (if e.segs.Some? then SegTexts(e.segs.value) else [])
  }

  /** Where a tag `<[^>]+>` that opens at the start of `s` ends, if one does. */
  function TagEnd(s: string): (e: Option<nat>)
    ensures e.Some? ==> 2 < e.value <= |s| && s[0] == '<' && s[e.value - 1] == '>'
    ensures e.Some? ==> forall k :: 0 < k < e.value - 1 ==> s[k] != '>'
    ensures e.None? <==> s == [] || s[0] != '<' || (|s| > 1 && s[1] == '>') || '>' !in s[1..]
  {
    if s != [] && s[0] == '<' then
      var j := IndexOf(s[1..], '>');
      if 0 < j < |s| - 1 then Some(j + 2) else None
    else None
  }

  /** No tag starts anywhere in `s`: `re.search(r'<[^>]+>', s)` finds nothing. */
  predicate Tagless(s: string)
    decreases |s|
  {
    s == [] || (TagEnd(s).None? && Tagless(s[1..]))
  }

  /** `re.sub(r'<[^>]+>', '', s)` */
  function RemoveTags(s: string): (r: string)
    ensures |r| <= |s| && DrawnFrom(r, s)
    ensures Tagless(r)
    ensures '<' !in s ==> r == s
    ensures s != [] && s[0] != '<' ==> r != [] && r[0] == s[0]
    decreases |s|
  {
    if s == [] then []
    else
      match TagEnd(s)
      case Some(e) =>
        var r := RemoveTags(s[e..]);
        assert forall x :: x in s[e..] ==> x in s;
        r
      case None =>
        var rest := RemoveTags(s[1..]);
        var r := [s[0]] + rest;
        assert forall x :: x in s[1..] ==> x in s;
        assert r[1..] == rest;
        r
  }

  /** Text before the first `<` is kept as it is. */
  lemma {:induction false} RemoveTagsPlainPrefix(a: string, s: string)
    requires '<' !in a
    ensures RemoveTags(a + s) == a + RemoveTags(s)
  {
    if a == [] {
      assert a + s == s;
    } else {
      var c, tail, r := a[0], a[1..], RemoveTags(s);
      assert a == [c] + tail;
      Assoc([c], tail, s);
      RemoveTagsCons(c, tail + s);
      RemoveTagsPlainPrefix(tail, s);
      Assoc([c], tail, r);
    }
  }

  /** A first character other than `<` is kept. */
  lemma RemoveTagsCons(c: char, rest: string)
    requires c != '<'
    ensures RemoveTags([c] + rest) == [c] + RemoveTags(rest)
  {
    assert ([c] + rest)[1..] == rest;
  }

  /** A tag, `<` then one or more characters other than `>` then `>`, is dropped. */
  lemma RemoveTagsTag(t: string, b: string)
    requires t != [] && '>' !in t
    ensures RemoveTags("<" + t + ">" + b) == RemoveTags(b)
  {
    var s := "<" + t + ">" + b;
    assert s[1..] == t + ">" + b;
    assert s[1..][|t|] == '>';
    assert TagEnd(s) == Some(|t| + 2);
    assert s[|t| + 2..] == b;
  }

  /** Cutting text off at the end cannot create a tag. */
  lemma {:induction false} TaglessPrefix(s: string, n: nat)
    requires n <= |s| && Tagless(s)
    ensures Tagless(s[..n])
    decreases n
  {
    if n > 0 {
      var t := s[..n];
      assert TagEnd(s).None?;
      if |t| > 1 {
        assert t[1] == s[1];
        assert t[1..] == s[1..][..n - 1];
      }
      assert TagEnd(t).None?;
      TaglessPrefix(s[1..], n - 1);
      assert t[1..] == s[1..][..n - 1];
    }
  }

  lemma {:induction false} TaglessSuffix(s: string, k: nat)
    requires k <= |s| && Tagless(s)
    ensures Tagless(s[k..])
    decreases k
  {
    if k > 0 {
      TaglessSuffix(s[1..], k - 1);
      assert s[1..][k - 1..] == s[k..];
    }
  }

  /** `strip()` cannot create a tag. */
  lemma TaglessStrip(s: string)
    requires Tagless(s)
    ensures Tagless(Strip(s))
  {
    var i := LeadingSpace(s);
    var r := Strip(s);
    TaglessSuffix(s, i);
    TaglessPrefix(s[i..], |r|);
    assert s[i..][..|r|] == r;
  }

  predicate IsHeader(line: string) {
    StartsWith(line, "WEBVTT") || StartsWith(line, "STYLE") || StartsWith(line, "NOTE")
  }

  /** A timing line, a cue number, a blank line or a header: dropped before any text is taken. */
  predicate Skipped(line: string) {
    Contains(line, "-->") || IsDigits(Strip(line)) || Strip(line) == [] || IsHeader(line)
  }

  /** The caption text one line contributes, if any. */
  function LineText(line: string): (c: Option<string>)
    ensures c.Some? ==> !Skipped(line) && c.value != [] && NoOuterSpace(c.value) && Tagless(c.value)
    ensures c.Some? ==> DrawnFrom(c.value, line)
  {
    if Skipped(line) then None
    else
      var t := RemoveTags(line);
      var c := Strip(t);
      TaglessStrip(t);
      StripDrawn(t);
      if c == [] then None else Some(c)
  }

  /** What one line adds to the kept lines: its text, or nothing. */
  function Kept(line: string): (r: seq<string>)
    ensures |r| <= 1
    ensures forall c <- r :: c != [] && NoOuterSpace(c) && Tagless(c)
  {
    match LineText(line)
    case Some(c) => [c]
    case None => []
  }

  /** A line without a line break contributes text without one. */
  lemma KeptNoBreak(line: string)
    requires '\n' !in line
    ensures forall c <- Kept(line) :: '\n' !in c
  {
    if LineText(line).Some? {
      var c := LineText(line).value;
      assert '\n' in c ==> '\n' in line;
    }
  }

  /** When `f` gives back every line unchanged, so does `Collect`. */
  lemma {:induction false} CollectIdentity(ws: seq<string>, f: string -> seq<string>)
    requires forall w <- ws :: f(w) == [w]
    ensures Collect(ws, f) == ws
  {
    if ws != [] {
      var init := ws[..|ws| - 1];
      assert Last(ws) in ws;
      assert forall x <- init :: x in ws;
      CollectIdentity(init, f);
      assert ws == init + [Last(ws)];
    }
  }

  lemma {:induction false} KeptLinesProps(lines: seq<string>)
    ensures var cs := Collect(lines, Kept);
      && |cs| <= |lines|
      && (forall i :: 0 <= i < |cs| ==> cs[i] != [] && NoOuterSpace(cs[i]) && Tagless(cs[i]))
      && ((forall i :: 0 <= i < |lines| ==> '\n' !in lines[i]) ==> forall i :: 0 <= i < |cs| ==> '\n' !in cs[i])
  {
    if lines != [] {
      var init := lines[..|lines| - 1];
      KeptLinesProps(init);
      var a := Collect(init, Kept);
      var b := Kept(Last(lines));
      if '\n' !in Last(lines) {
        KeptNoBreak(Last(lines));
      }
      assert Collect(lines, Kept) == a + b;
      assert forall i :: 0 <= i < |init| ==> init[i] == lines[i];
      assert forall i :: |a| <= i < |a + b| ==> (a + b)[i] in b;
    }
  }

  /** The texts the kept lines contribute, in their original order. */
  function KeptLines(lines: seq<string>): (cs: seq<string>)
    ensures |cs| <= |lines|
    ensures forall i :: 0 <= i < |cs| ==> cs[i] != [] && NoOuterSpace(cs[i]) && Tagless(cs[i])
    ensures (forall i :: 0 <= i < |lines| ==> '\n' !in lines[i]) ==> forall i :: 0 <= i < |cs| ==> '\n' !in cs[i]
  {
    KeptLinesProps(lines);
    Collect(lines, Kept)
  }

  /** The line-by-line reading of a caption file. */
  function LinesText(text: string): (r: string)
    ensures '\n' !in r && NoOuterSpace(r)
  {
    var cs := KeptLines(Split(text, '\n'));
    JoinSpaced(cs, '\n');
    Join(" ", cs)
  }

  /** `subtitle_text.strip().startswith('{')` */
  predicate LooksLikeJson(text: string) {
    var t := Strip(text);
    t != [] && t[0] == '{'
  }

  /**
   * What `parse_subtitles` returns for a body and its JSON reading. Only a body
   * that looks like JSON and decodes to an object with `events` takes the JSON
   * path; every other body is read line by line.
   */
  function SubtitleText(text: string, json: Json): (r: string)
    ensures text == [] ==> r == []
    ensures !(LooksLikeJson(text) && json.WithEvents?) ==> '\n' !in r && NoOuterSpace(r)
  {
    if text == [] then ""
    else if LooksLikeJson(text) && json.WithEvents? then Join(" ", EventTexts(json.events))
    else LinesText(text)
  }

  /** The loop over the events of a JSON caption payload and their segments. */
  method CollectSegTexts(events: seq<Event>) returns (textParts: seq<string>)
    ensures textParts == EventTexts(events)
  {
    textParts := [];
    for i := 0 to |events|
      invariant textParts == EventTexts(events[..i])
    {
      assert events[..i + 1][..i] == events[..i];
      var event := events[i];
      if event.segs.Some? {
        var segs := event.segs.value;
        var eventParts: seq<string> := [];
        for j := 0 to |segs|
          invariant eventParts == SegTexts(segs[..j])
        {
          assert segs[..j + 1][..j] == segs[..j];
          if segs[j].utf8.Some? {
            eventParts := eventParts + [segs[j].utf8.value];
          }
        }
        assert segs[..|segs|] == segs;
        textParts := textParts + eventParts;
      }
    }
    assert events[..|events|] == events;
  }

  /** `parse_subtitles(subtitle_text)`, with the JSON decoding supplied as `json`. */
  method ParseSubtitles(text: string, json: Json) returns (r: string)
    ensures r == SubtitleText(text, json)
  {
    if text == [] {
      return "";
    }
    if LooksLikeJson(text) && json.WithEvents? {
      var textParts := CollectSegTexts(json.events);
      return Join(" ", textParts);
    }
    var lines := Split(text, '\n');
    var textLines: seq<string> := [];
    for i := 0 to |lines|
      invariant textLines == KeptLines(lines[..i])
    {
      CollectStep(lines, i, Kept);
      var line := lines[i];
      if Contains(line, "-->") || IsDigits(Strip(line)) || Strip(line) == [] {
        continue;
      }
      if IsHeader(line) {
        continue;
      }
      var cleaned := Strip(RemoveTags(line));
      if cleaned != [] {
        textLines := textLines + [cleaned];
      }
    }
    assert lines[..|lines|] == lines;
    r := Join(" ", textLines);
  }

  /** A plain caption line: kept exactly as it is. */
  predicate PlainLine(w: string) {
    w != [] && NoOuterSpace(w) && '\n' !in w && '<' !in w && !Skipped(w)
  }

  lemma PlainLineKept(w: string)
    requires PlainLine(w)
    ensures LineText(w) == Some(w)
  {
    assert RemoveTags(w) == w;
    assert Strip(w) == w;
  }

  /** Caption lines of plain text, one per line, come back joined by single spaces. */
  lemma PlainLinesJoined(ws: seq<string>)
    requires forall w <- ws :: PlainLine(w)
    ensures LinesText(Join("\n", ws)) == Join(" ", ws)
  {
    if ws == [] {
      assert Split("", '\n') == [""];
      assert KeptLines([""]) == [];
    } else {
      assert forall i :: 0 <= i < |ws| ==> ws[i] in ws;
      SplitJoin(ws, '\n');
      forall w <- ws ensures Kept(w) == [w] {
        PlainLineKept(w);
      }
      CollectIdentity(ws, Kept);
    }
  }

  lemma NumberLineDropped(number: string)
    requires IsDigits(number)
    ensures Kept(number) == []
  {
    assert IsDigit(number[0]) && IsDigit(number[|number| - 1]);
    assert Strip(number) == number;
  }

  lemma TimingLineDropped(timing: string)
    requires Contains(timing, "-->")
    ensures Kept(timing) == []
  {
  }

  lemma SplitThree(a: string, b: string, c: string)
    requires '\n' !in a && '\n' !in b && '\n' !in c
    ensures Split(a + "\n" + b + "\n" + c, '\n') == [a, b, c]
  {
    JoinCons("\n", b, [c]);
    JoinCons("\n", a, [b, c]);
    assert [b] + [c] == [b, c];
    assert [a] + [b, c] == [a, b, c];
    assert Join("\n", [a, b, c]) == a + "\n" + (b + "\n" + c);
    assert a + "\n" + (b + "\n" + c) == a + "\n" + b + "\n" + c;
    SplitJoin([a, b, c], '\n');
  }

  lemma CollectThree(a: string, b: string, c: string, f: string -> seq<string>)
    requires f(a) == [] && f(b) == []
    ensures Collect([a, b, c], f) == f(c)
  {
    assert [a, b, c][..2] == [a, b];
    assert [a, b][..1] == [a];
    assert Collect([a], f) == [];
  }

  /** In an SRT block, the cue number and the timing line are dropped and the caption is kept. */
  lemma SrtBlock(number: string, timing: string, caption: string)
    requires IsDigits(number) && Contains(timing, "-->") && '\n' !in timing
    requires PlainLine(caption)
    ensures LinesText(number + "\n" + timing + "\n" + caption) == caption
  {
    assert '\n' !in number by {
      assert forall k :: 0 <= k < |number| ==> IsDigit(number[k]);
    }
    SplitThree(number, timing, caption);
    NumberLineDropped(number);
    TimingLineDropped(timing);
    PlainLineKept(caption);
    CollectThree(number, timing, caption, Kept);
  }
}
