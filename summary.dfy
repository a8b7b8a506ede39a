/**
 * `generate_summary`: a few qualifying sentences of the cleaned transcript,
 * picked at fixed positions, joined into one sentence; and the detail-level
 * table that decides how many sentences may be kept.
 */
module Summary {
  import opened Text
  import opened Scan

  const NoSummary: string := "No summary available."

  /** `{'brief': 2, 'medium': 4, 'detailed': 6}.get(detail_level, 4)` */
  function MaxSentences(detail: string): nat
  {
    if detail == "brief" then 2
    else if detail == "detailed" then 6
    else 4
  }

  /** An unknown detail level reads as `medium`, and the three levels keep 2, 4 and 6 sentences. */
  lemma MaxSentencesTable(detail: string)
    ensures MaxSentences(detail) in {2, 4, 6}
    ensures detail !in {"brief", "medium", "detailed"} ==> MaxSentences(detail) == MaxSentences("medium")
    ensures MaxSentences("brief") < MaxSentences("medium") < MaxSentences("detailed")
  {
  }

  /** No `.`, `!` or `?` anywhere in `s`. */
  predicate Unterminated(s: string) { '.' !in s && '!' !in s && '?' !in s }

  /** One split piece, stripped, kept when it is longer than 30 characters. */
  function QualifyingOne(piece: string): seq<string>
  {
    var p := Strip(piece);
    if |p| > 30 then [p] else []
  }

  /** The pieces longer than 30 characters once stripped, stripped. */
  function Qualifying(pieces: seq<string>): seq<string>
  {
    if pieces == [] then [] else QualifyingOne(pieces[0]) + Qualifying(pieces[1..])
  }

  /** The qualifying sentences of `text`: the stripped pieces of `re.split(r'[.!?]+', text)` longer than 30 characters. */
  function Sentences(text: string): seq<string>
  {
    Qualifying(SplitSentences(text))
  }

  lemma NoTerminatorChars(p: string)
    requires NoTerminator(p)
    ensures Unterminated(p)
  {
    if !Unterminated(p) {
      var k :| 0 <= k < |p| && IsTerminator(p[k]);
    }
  }

  lemma QualifyingOneShape(piece: string)
    requires NoTerminator(piece)
    ensures |QualifyingOne(piece)| <= 1
    ensures forall q <- QualifyingOne(piece) :: |q| > 30 && NoOuterSpace(q) && Unterminated(q)
  {
    NoTerminatorChars(piece);
    StripDrawn(piece);
  }

  /** A qualifying sentence is stripped, longer than 30 characters, and free of terminators. */
  lemma {:induction false} QualifyingShape(pieces: seq<string>)
    requires forall p <- pieces :: NoTerminator(p)
    ensures |Qualifying(pieces)| <= |pieces|
    ensures forall q <- Qualifying(pieces) :: |q| > 30 && NoOuterSpace(q) && Unterminated(q)
  {
    if pieces != [] {
      assert Qualifying(pieces) == QualifyingOne(pieces[0]) + Qualifying(pieces[1..]);
      QualifyingOneShape(pieces[0]);
      QualifyingShape(pieces[1..]);
    }
  }

  lemma SentencesShape(text: string)
    ensures forall q <- Sentences(text) :: |q| > 30 && NoOuterSpace(q) && Unterminated(q)
  {
    QualifyingShape(SplitSentences(text));
  }

  /** `[0, n // 3, 2 * n // 3, -1]`, the middle two only when `n > 3` and the last only when `n > 1`. */
  function Picks(n: nat): seq<nat>
    requires n > 0
  {
    [0] + (if n > 3 then [n / 3, 2 * n / 3] else []) + (if n > 1 then [n - 1] else [])
  }

  /**
   * The picked positions are valid and strictly increasing, open with the first
   * sentence and close with the last: four of them when there are more than three
   * sentences, two for two or three, one for one.
   */
  lemma PicksOrdered(n: nat)
    requires n > 0
    ensures var ps := Picks(n);
      && |ps| == (if n > 3 then 4 else if n > 1 then 2 else 1)
      && ps[0] == 0 && Last(ps) == n - 1
      && (forall k :: 0 <= k < |ps| ==> ps[k] < n)
      && (forall i, j :: 0 <= i < j < |ps| ==> ps[i] < ps[j])
  {
  }

  /** The sentences at the given positions, in the order given. */
  function Select(ss: seq<string>, idx: seq<nat>): (r: seq<string>)
    requires forall k :: 0 <= k < |idx| ==> idx[k] < |ss|
    ensures |r| == |idx|
  {
    seq(|idx|, k requires 0 <= k < |idx| => ss[idx[k]])
  }

  /** The sentences the summary keeps: all of them if there are at most `max`, else the picks. */
  function Chosen(ss: seq<string>, max: int): seq<string>
    requires ss != []
  {
    if |ss| <= max then ss
    else
      PicksOrdered(|ss|);
      Select(ss, Picks(|ss|))
  }

  /**
   * The kept sentences are a subsequence of the qualifying ones, in their order,
   * that begins with the first and ends with the last; there are all of them when
   * they fit, and otherwise four (more than three) or two.
   */
  lemma ChosenOrdered(ss: seq<string>, max: int)
    requires ss != []
    ensures var cs := Chosen(ss, max);
      && |cs| == (if |ss| <= max then |ss| else if |ss| > 3 then 4 else if |ss| > 1 then 2 else 1)
      && cs[0] == ss[0] && Last(cs) == Last(ss)
      && (forall q <- cs :: q in ss)
      && exists idx: seq<nat> ::
        && |idx| == |cs|
        && (forall k :: 0 <= k < |idx| ==> idx[k] < |ss| && cs[k] == ss[idx[k]])
        && (forall i, j :: 0 <= i < j < |idx| ==> idx[i] < idx[j])
  {
    var n := |ss|;
    PicksOrdered(n);
    if n <= max {
      var idx := seq(n, k requires 0 <= k < n => k);
      assert forall k :: 0 <= k < |idx| ==> idx[k] < |ss| && Chosen(ss, max)[k] == ss[idx[k]];
    } else {
      var idx := Picks(n);
      assert forall k :: 0 <= k < |idx| ==> idx[k] < |ss| && Chosen(ss, max)[k] == ss[idx[k]];
    }
  }

  /** `generate_summary(text, max_sentences)` */
  function Summary(text: string, maxSentences: int): (r: string)
  {
    var ss := Sentences(text);
    if ss == [] then NoSummary else Join(" ", Chosen(ss, maxSentences)) + "."
  }

  /** Stripped, terminator-free pieces joined by spaces and closed with `.` make one sentence. */
  lemma OneSentence(cs: seq<string>)
    requires cs != []
    requires forall k :: 0 <= k < |cs| ==> cs[k] != [] && NoOuterSpace(cs[k]) && Unterminated(cs[k])
    ensures var r := Join(" ", cs) + ".";
      && r[|r| - 1] == '.' && Unterminated(r[..|r| - 1])
      && |cs[0]| < |r| && r[..|cs[0]|] == cs[0]
      && |Last(cs)| < |r| && r[|r| - 1 - |Last(cs)|..|r| - 1] == Last(cs)
  {
    var body := Join(" ", cs);
    var r := body + ".";
    JoinSpaced(cs, '.');
    JoinSpaced(cs, '!');
    JoinSpaced(cs, '?');
    JoinEnds(" ", cs);
    DotSlices(body, |cs[0]|, |Last(cs)|);
  }

  /** Appending a full stop leaves the text, its prefixes and its suffixes where they were. */
  lemma DotSlices(body: string, a: nat, z: nat)
    requires a <= |body| && z <= |body|
    ensures var r := body + ".";
      r[..|r| - 1] == body && r[..a] == body[..a] && r[|r| - 1 - z..|r| - 1] == body[|body| - z..]
  {
    var r := body + ".";
    assert r[..|r| - 1] == body;
    assert r[..a] == body[..a];
    assert r[|r| - 1 - z..|r| - 1] == body[|body| - z..];
  }

  /** The fallback text is a single sentence too. */
  lemma FallbackShape()
    ensures NoSummary[|NoSummary| - 1] == '.' && Unterminated(NoSummary[..|NoSummary| - 1])
  {
    var body := NoSummary[..|NoSummary| - 1];
    forall k | 0 <= k < |body|
      ensures !IsTerminator(body[k])
    {
    }
    NoTerminatorChars(body);
  }

  /**
   * The summary is a single sentence: it ends in `.` and has no other
   * terminator. It is the fallback text exactly when no sentence qualifies, and
   * otherwise opens with the first qualifying sentence and closes with the last.
   */
  lemma SummaryShape(text: string, maxSentences: int)
    ensures var r, ss := Summary(text, maxSentences), Sentences(text);
      && r != [] && r[|r| - 1] == '.' && Unterminated(r[..|r| - 1])
      && (r == NoSummary <==> ss == [])
      && (ss != [] ==> |ss[0]| < |r| && r[..|ss[0]|] == ss[0])
      && (ss != [] ==> |Last(ss)| < |r| && r[|r| - 1 - |Last(ss)|..|r| - 1] == Last(ss))
  {
    var ss := Sentences(text);
    if ss == [] {
      FallbackShape();
    } else {
      SentencesShape(text);
      ChosenShape(ss, maxSentences);
      assert Summary(text, maxSentences) == Join(" ", Chosen(ss, maxSentences)) + ".";
      assert |NoSummary| == 21;
    }
  }

  /**
   * Sentences of more than 30 characters, stripped and without a terminator,
   * once chosen, joined and closed make one sentence that opens with the first
   * and closes with the last.
   */
  lemma ChosenShape(ss: seq<string>, max: int)
    requires ss != [] && forall q <- ss :: |q| > 30 && NoOuterSpace(q) && Unterminated(q)
    ensures var r := Join(" ", Chosen(ss, max)) + ".";
      && |r| > 31 && r[|r| - 1] == '.' && Unterminated(r[..|r| - 1])
      && |ss[0]| < |r| && r[..|ss[0]|] == ss[0]
      && |Last(ss)| < |r| && r[|r| - 1 - |Last(ss)|..|r| - 1] == Last(ss)
  {
    var cs := Chosen(ss, max);
    ChosenOrdered(ss, max);
    assert forall k :: 0 <= k < |cs| ==> cs[k] in ss;
    OneSentence(cs);
  }

  /** Past four qualifying sentences, `brief` and `medium` give the same summary. */
  lemma BriefIsMedium(text: string)
    requires |Sentences(text)| > 4
    ensures Summary(text, MaxSentences("brief")) == Summary(text, MaxSentences("medium"))
  {
    assert MaxSentences("brief") == 2 && MaxSentences("medium") == 4;
    var ss := Sentences(text);
    assert Chosen(ss, 2) == Chosen(ss, 4);
  }
}
