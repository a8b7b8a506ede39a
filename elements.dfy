/**
 * `extract_important_elements`: numbers, dates, definitions, examples and steps
 * picked out of a transcript by fixed patterns, each list capped.
 */
module Elements {
  import opened Wrappers
  import opened Text
  import opened Scan
  import opened Tokens

  datatype Elements = Elements(
    numbers: seq<string>,
    dates: seq<string>,
    definitions: seq<string>,
    examples: seq<string>,
    steps: seq<string>)

  /** The two date patterns, in the order tried. */
  const DatePatterns: seq<Pattern> := [SlashDate, MonthDate]

  /** `\b(?:is defined as|means|refers to|is called|is known as)\b`, then `\b(?:definition of|define)\b` */
  const DefinitionCues: seq<seq<Cue>> := [
    [Phrase("is defined as"), Phrase("means"), Phrase("refers to"), Phrase("is called"), Phrase("is known as")],
    [Phrase("definition of"), Phrase("define")]
  ]

  /** `\b(?:for example|for instance|such as|like|including|e\.g\.)\b`, then `\b(?:example|instance)\b` */
  const ExampleCues: seq<seq<Cue>> := [
    [Phrase("for example"), Phrase("for instance"), Phrase("such as"), Phrase("like"),
     Phrase("including"), Phrase("e.g.")],
    [Phrase("example"), Phrase("instance")]
  ]

  /** `\b(?:step \d+|first|second|...|lastly)\b`, then `\b\d+\.\s+` */
  const StepCues: seq<seq<Cue>> := [
    [StepNumber(false), Phrase("first"), Phrase("second"), Phrase("third"), Phrase("fourth"),
     Phrase("fifth"), Phrase("next"), Phrase("then"), Phrase("finally"), Phrase("lastly")],
    [ListNumber]
  ]

  /** The distinct numbers among the first ten found, in order of first occurrence. */
  function Numbers(text: string): (r: seq<string>)
    ensures |r| <= 10 && Distinct(r)
    ensures forall x :: x in r <==> x in Take(FindAll(text, Number), 10)
    ensures forall x <- r :: Shaped(x, Number)
  {
    var first := Take(FindAll(text, Number), 10);
    assert forall x <- first :: x in FindAll(text, Number);
    Dedup(first)
  }

  /** The first `cap` matches of each pattern in turn. */
  function Matches(text: string, patterns: seq<Pattern>, cap: nat): (r: seq<string>)
    ensures forall x <- r :: exists p <- patterns :: x in FindAll(text, p)
  {
    if patterns == [] then []
    else
      var found := Take(FindAll(text, patterns[0]), cap);
      assert forall x <- found :: x in FindAll(text, patterns[0]);
      found + Matches(text, patterns[1..], cap)
  }

  /** At most `cap` matches per pattern. */
  lemma {:induction false} MatchesBound(text: string, patterns: seq<Pattern>, cap: nat)
    ensures |Matches(text, patterns, cap)| <= cap * |patterns|
  {
    if patterns != [] {
      MatchesBound(text, patterns[1..], cap);
      MulStep(cap, |patterns|);
    }
  }

  lemma MulStep(a: nat, n: nat)
    requires n > 0
    ensures a * n == a + a * (n - 1)
  {
  }

  /** A sentence ending in a terminator, as every cue-sentence match does. */
  predicate EndsSentence(m: string) { m != [] && IsTerminator(m[|m| - 1]) }

  /** A kept definition, example or step: stripped, and longer than 20 characters. */
  predicate IsPassage(p: string) { |p| > 20 && NoOuterSpace(p) }

  /** One match, stripped, kept when it is longer than 20 characters. */
  function KeptOne(m: string): seq<string>
  {
    var p := Strip(m);
    if p != [] && |p| > 20 then [p] else []
  }

  /** The matches that are longer than 20 characters once stripped, stripped. */
  function Kept(ms: seq<string>): seq<string>
  {
    if ms == [] then [] else KeptOne(ms[0]) + Kept(ms[1..])
  }

  lemma StripSentence(m: string)
    requires EndsSentence(m)
    ensures EndsSentence(Strip(m))
  {
    assert !IsSpace(m[|m| - 1]);
  }

  /** A kept match is the stripped match, a passage, and still a sentence if the match was one. */
  lemma KeptOnePassage(m: string)
    ensures |KeptOne(m)| <= 1
    ensures forall p <- KeptOne(m) :: p == Strip(m) && IsPassage(p)
    ensures EndsSentence(m) ==> forall p <- KeptOne(m) :: EndsSentence(p)
  {
    if EndsSentence(m) {
      StripSentence(m);
    }
  }

  /** Stripping a sentence keeps the cue inside it: a cue starts at a word character, after the leading space. */
  lemma StripKeepsCue(m: string, cues: seq<Cue>)
    requires EndsSentence(m) && HasCue(m, cues)
    ensures HasCue(Strip(m), cues)
  {
    var c, k :| 0 <= c < |m| && 0 <= k < |cues| && CueEnd(m, c, cues[k]).Some? && CueEnd(m, c, cues[k]).value < |m|;
    var lead := LeadingSpace(m);
    SentenceStrip(m, c);
    CueSlice(m, lead, |m|, c, cues[k]);
    assert CueEnd(Strip(m), c - lead, cues[k]).value < |Strip(m)|;
  }

  /** A sentence loses only its leading space to stripping, and that space ends before any word character. */
  lemma SentenceStrip(m: string, c: nat)
    requires EndsSentence(m) && c < |m| && IsWordChar(m[c])
    ensures LeadingSpace(m) <= c && Strip(m) == m[LeadingSpace(m)..|m|]
  {
    NotSpace(m[|m| - 1]);
    StripKeepsEnd(m);
    NotSpace(m[c]);
    LeadingSpaceBefore(m, c);
  }

  /** Every passage kept from matches that contain a cue contains one too. */
  lemma {:induction false} KeptCued(ms: seq<string>, cues: seq<Cue>)
    requires forall m <- ms :: EndsSentence(m) && HasCue(m, cues)
    ensures forall p <- Kept(ms) :: HasCue(p, cues)
  {
    if ms != [] {
      assert Kept(ms) == KeptOne(ms[0]) + Kept(ms[1..]);
      if KeptOne(ms[0]) != [] {
        StripKeepsCue(ms[0], cues);
      }
      assert forall m <- ms[1..] :: m in ms;
      KeptCued(ms[1..], cues);
    }
  }

  /**
   * At most one passage per match, each stripped and longer than 20
   * characters; stripping keeps the terminator at the end of a sentence.
   */
  lemma {:induction false} KeptPassages(ms: seq<string>)
    ensures |Kept(ms)| <= |ms|
    ensures forall p <- Kept(ms) :: IsPassage(p)
    ensures (forall m <- ms :: EndsSentence(m)) ==> forall p <- Kept(ms) :: EndsSentence(p)
  {
    if ms != [] {
      var one, rest := KeptOne(ms[0]), Kept(ms[1..]);
      assert Kept(ms) == one + rest;
      KeptOnePassage(ms[0]);
      KeptPassages(ms[1..]);
      if forall m <- ms :: EndsSentence(m) {
        assert EndsSentence(ms[0]);
        assert forall m <- ms[1..] :: EndsSentence(m);
      }
    }
  }

  /** The kept sentences of the first `cap` matches of one cue pattern. */
  function PatternPassages(text: string, cues: seq<Cue>, cap: nat): seq<string>
  {
    Kept(Take(CueSentences(text, cues), cap))
  }

  /**
   * At most `cap` passages for one pattern, each a stripped sentence longer
   * than 20 characters that still ends in its terminator and contains one of
   * the pattern's alternatives.
   */
  lemma PatternPassagesShape(text: string, cues: seq<Cue>, cap: nat)
    ensures |PatternPassages(text, cues, cap)| <= cap
    ensures forall p <- PatternPassages(text, cues, cap) :: IsPassage(p) && EndsSentence(p) && HasCue(p, cues)
  {
    var ms := Take(CueSentences(text, cues), cap);
    CueSentencesShape(text, cues);
    assert forall m <- ms :: m in CueSentences(text, cues);
    KeptPassages(ms);
    KeptCued(ms, cues);
  }

  /** The kept sentences of the first `cap` matches of each cue pattern in turn. */
  function Passages(text: string, patterns: seq<seq<Cue>>, cap: nat): seq<string>
  {
    if patterns == [] then []
    else PatternPassages(text, patterns[0], cap) + Passages(text, patterns[1..], cap)
  }

  /** At most `cap` passages per pattern. */
  lemma {:induction false} PassagesBound(text: string, patterns: seq<seq<Cue>>, cap: nat)
    ensures |Passages(text, patterns, cap)| <= cap * |patterns|
  {
    if patterns != [] {
      var first, rest := PatternPassages(text, patterns[0], cap), patterns[1..];
      assert |first| <= cap by {
        PatternPassagesShape(text, patterns[0], cap);
      }
      PassagesBound(text, rest, cap);
      assert Passages(text, patterns, cap) == first + Passages(text, rest, cap);
      MulStep(cap, |patterns|);
    }
  }

  /** Some pattern of the list has an alternative inside `p`. */
  predicate CuedBy(p: string, patterns: seq<seq<Cue>>) {
    exists k :: 0 <= k < |patterns| && HasCue(p, patterns[k])
  }

  /**
   * Every passage is a stripped sentence longer than 20 characters that still
   * ends in its terminator and contains an alternative of one of the patterns.
   */
  lemma {:induction false} PassagesShape(text: string, patterns: seq<seq<Cue>>, cap: nat)
    ensures forall p <- Passages(text, patterns, cap) :: IsPassage(p) && EndsSentence(p) && CuedBy(p, patterns)
  {
    if patterns != [] {
      PatternPassagesShape(text, patterns[0], cap);
      PassagesShape(text, patterns[1..], cap);
      forall p <- Passages(text, patterns[1..], cap) ensures CuedBy(p, patterns) {
        var k :| 0 <= k < |patterns[1..]| && HasCue(p, patterns[1..][k]);
        assert patterns[k + 1] == patterns[1..][k];
      }
    }
  }

  /** Two patterns: the passages of the first, then those of the second. */
  lemma PassagesOfTwo(text: string, patterns: seq<seq<Cue>>, cap: nat)
    requires |patterns| == 2
    ensures Passages(text, patterns, cap) == PatternPassages(text, patterns[0], cap) + PatternPassages(text, patterns[1], cap)
  {
    var rest := patterns[1..];
    assert rest[0] == patterns[1] && rest[1..] == [];
    assert Passages(text, rest, cap) == PatternPassages(text, patterns[1], cap) + [];
  }

  /** Two patterns: the matches of the first, then those of the second. */
  lemma MatchesOfTwo(text: string, patterns: seq<Pattern>, cap: nat)
    requires |patterns| == 2
    ensures Matches(text, patterns, cap) == Take(FindAll(text, patterns[0]), cap) + Take(FindAll(text, patterns[1]), cap)
  {
    var rest := patterns[1..];
    assert rest[0] == patterns[1] && rest[1..] == [];
    assert Matches(text, rest, cap) == Take(FindAll(text, patterns[1]), cap) + [];
  }

  /** `extract_important_elements(text)` */
  function ImportantElements(text: string): Elements
  {
    Elements(
      Numbers(text),
      Matches(text, DatePatterns, 5),
      Passages(text, DefinitionCues, 5),
      Passages(text, ExampleCues, 5),
      Passages(text, StepCues, 10))
  }

  /**
   * At most 10 distinct numbers, taken from the first ten found; the dates are
   * at most five slash dates followed by at most five month dates; definitions
   * and examples are at most five passages of each cue pattern, and steps at
   * most ten of each, the first pattern's before the second's.
   */
  lemma ElementsBounds(text: string)
    ensures var e := ImportantElements(text);
      && |e.numbers| <= 10 && Distinct(e.numbers)
      && e.dates == Take(FindAll(text, SlashDate), 5) + Take(FindAll(text, MonthDate), 5)
      && |Take(FindAll(text, SlashDate), 5)| <= 5 && |Take(FindAll(text, MonthDate), 5)| <= 5
      && e.definitions == PatternPassages(text, DefinitionCues[0], 5) + PatternPassages(text, DefinitionCues[1], 5)
      && |PatternPassages(text, DefinitionCues[0], 5)| <= 5 && |PatternPassages(text, DefinitionCues[1], 5)| <= 5
      && e.examples == PatternPassages(text, ExampleCues[0], 5) + PatternPassages(text, ExampleCues[1], 5)
      && |PatternPassages(text, ExampleCues[0], 5)| <= 5 && |PatternPassages(text, ExampleCues[1], 5)| <= 5
      && e.steps == PatternPassages(text, StepCues[0], 10) + PatternPassages(text, StepCues[1], 10)
      && |PatternPassages(text, StepCues[0], 10)| <= 10 && |PatternPassages(text, StepCues[1], 10)| <= 10
      && |e.dates| <= 10 && |e.definitions| <= 10 && |e.examples| <= 10 && |e.steps| <= 20
  {
    MatchesOfTwo(text, DatePatterns, 5);
    PassagesOfTwo(text, DefinitionCues, 5);
    PassagesOfTwo(text, ExampleCues, 5);
    PassagesOfTwo(text, StepCues, 10);
    PatternPassagesShape(text, DefinitionCues[0], 5);
    PatternPassagesShape(text, DefinitionCues[1], 5);
    PatternPassagesShape(text, ExampleCues[0], 5);
    PatternPassagesShape(text, ExampleCues[1], 5);
    PatternPassagesShape(text, StepCues[0], 10);
    PatternPassagesShape(text, StepCues[1], 10);
  }

  /** Every number kept is a piece of the text. */
  lemma NumbersFound(text: string)
    ensures forall x <- Numbers(text) :: Contains(text, x)
  {
    FoundIn(text, 0, Number);
    assert forall x <- Take(FindAll(text, Number), 10) :: x in FindAll(text, Number);
  }

  /** Every date is a match of one of the two date patterns, and a piece of the text. */
  lemma DatesFound(text: string)
    ensures forall d <- Matches(text, DatePatterns, 5) ::
      (d in FindAll(text, SlashDate) || d in FindAll(text, MonthDate)) && Contains(text, d)
  {
    FoundIn(text, 0, SlashDate);
    FoundIn(text, 0, MonthDate);
  }

  /**
   * Numbers and dates are pieces of the text with the shape of their pattern;
   * definitions, examples and steps are stripped sentences longer than 20
   * characters that still end in their terminator and contain one of their
   * cue phrases.
   */
  lemma ElementsShapes(text: string)
    ensures var e := ImportantElements(text);
      && (forall x <- e.numbers :: Shaped(x, Number) && Contains(text, x))
      && (forall d <- e.dates :: (d in FindAll(text, SlashDate) || d in FindAll(text, MonthDate)) && Contains(text, d))
      && (forall p <- e.definitions :: IsPassage(p) && EndsSentence(p) && CuedBy(p, DefinitionCues))
      && (forall p <- e.examples :: IsPassage(p) && EndsSentence(p) && CuedBy(p, ExampleCues))
      && (forall p <- e.steps :: IsPassage(p) && EndsSentence(p) && CuedBy(p, StepCues))
  {
    NumbersFound(text);
    DatesFound(text);
    PassagesShape(text, DefinitionCues, 5);
    PassagesShape(text, ExampleCues, 5);
    PassagesShape(text, StepCues, 10);
  }

  lemma KeptStep(ms: seq<string>, j: nat, found: seq<string>)
    requires j < |ms| && found + Kept(ms[j..]) == Kept(ms)
    ensures found + KeptOne(ms[j]) + Kept(ms[j + 1..]) == Kept(ms)
  {
    assert ms[j..][1..] == ms[j + 1..];
    assert ms[j..][0] == ms[j];
    Assoc(found, KeptOne(ms[j]), Kept(ms[j + 1..]));
  }

  /** One more match, stripped and appended when long enough, keeps the loop's account of what is left to keep. */
  lemma KeptAppend(ms: seq<string>, j: nat, found: seq<string>, m: string)
    requires j < |ms| && found + Kept(ms[j..]) == Kept(ms) && m == Strip(ms[j])
    ensures (if m != [] && |m| > 20 then found + [m] else found) + Kept(ms[j + 1..]) == Kept(ms)
  {
    KeptStep(ms, j, found);
    if m != [] && |m| > 20 {
      assert KeptOne(ms[j]) == [m];
    } else {
      assert KeptOne(ms[j]) == [];
      assert found + KeptOne(ms[j]) == found;
    }
  }

  /** The loop over the first matches: each one long enough once stripped is appended, stripped. */
  method KeepPassages(matches: seq<string>) returns (found: seq<string>)
    ensures found == Kept(matches)
  {
    found := [];
    for j := 0 to |matches|
      invariant found + Kept(matches[j..]) == Kept(matches)
    {
      var m := Strip(matches[j]);
      KeptAppend(matches, j, found, m);
      if m != [] && |m| > 20 {
        found := found + [m];
      }
    }
  }

  /** The passages of each cue pattern in turn, added to one list. */
  method CollectPassages(text: string, patterns: seq<seq<Cue>>, cap: nat) returns (found: seq<string>)
    ensures found == Passages(text, patterns, cap)
  {
    found := [];
    for k := 0 to |patterns|
      invariant found + Passages(text, patterns[k..], cap) == Passages(text, patterns, cap)
    {
      PassagesStep(text, patterns, cap, k, found);
      var matches := CueSentences(text, patterns[k]);
      var kept := KeepPassages(Take(matches, cap));
      found := found + kept;
    }
  }

  lemma PassagesStep(text: string, patterns: seq<seq<Cue>>, cap: nat, k: nat, found: seq<string>)
    requires k < |patterns| && found + Passages(text, patterns[k..], cap) == Passages(text, patterns, cap)
    ensures found + Kept(Take(CueSentences(text, patterns[k]), cap)) + Passages(text, patterns[k + 1..], cap)
      == Passages(text, patterns, cap)
  {
    assert patterns[k..][1..] == patterns[k + 1..];
    assert patterns[k..][0] == patterns[k];
    Assoc(found, PatternPassages(text, patterns[k], cap), Passages(text, patterns[k + 1..], cap));
  }

  /** The first five matches of each date pattern in turn. */
  method CollectDates(text: string) returns (dates: seq<string>)
    ensures dates == Matches(text, DatePatterns, 5)
  {
    dates := [];
    for k := 0 to |DatePatterns|
      invariant dates + Matches(text, DatePatterns[k..], 5) == Matches(text, DatePatterns, 5)
    {
      assert DatePatterns[k..][1..] == DatePatterns[k + 1..];
      assert DatePatterns[k..][0] == DatePatterns[k];
      var found := Take(FindAll(text, DatePatterns[k]), 5);
      Assoc(dates, found, Matches(text, DatePatterns[k + 1..], 5));
      dates := dates + found;
    }
  }

  /** `extract_important_elements(text)` */
  method ExtractImportantElements(text: string) returns (e: Elements)
    ensures e == ImportantElements(text)
  {
    var numbers := Numbers(text);
    var dates := CollectDates(text);
    var definitions := CollectPassages(text, DefinitionCues, 5);
    var examples := CollectPassages(text, ExampleCues, 5);
    var steps := CollectPassages(text, StepCues, 10);
    e := Elements(numbers, dates, definitions, examples, steps);
  }
}
