/**
 * `generate_notes_from_youtube`: the three error gates, the detail level, the
 * duration text, and the markdown document written one `notes += ...` at a time
 * from the summary, key phrases, important elements and topic sections.
 */
module Notes {
  import opened Wrappers
  import opened Text
  import opened Render
  import VideoId
  import Cleaner
  import KeyPhrases
  import Elements
  import Summary
  import Topics
  import Acquire

  const InvalidUrl: string := "Invalid YouTube URL. Please check the link."
  const NoCaptions: string := "No transcript available. This video might not have English captions enabled."
  const TooShort: string :=
    "Transcript too short to generate meaningful notes. Try a video with more substantial content and enabled captions."

  /** What `get_video_info` reports for a video. */
  datatype VideoInfo = VideoInfo(title: string, duration: int, description: string)

  /** The tuple returned: the markdown, the video title and the video id. */
  datatype Notes = Notes(markdown: string, title: string, videoId: string)

  // ---------------------------------------------------------------- sections

  const PhrasesHeading: string := "## \U{1F511} KEY PHRASES & CONCEPTS"
  const NumbersHeading: string := "## \U{1F4CA} IMPORTANT NUMERICAL DATA"
  const DatesHeading: string := "## \U{1F4C5} DATES MENTIONED"
  const DefinitionsHeading: string := "## \U{1F4D6} KEY DEFINITIONS"
  const ExamplesHeading: string := "## \U{1F4A1} EXAMPLES PROVIDED"
  const StepsHeading: string := "## \U{1F680} STEP-BY-STEP PROCESSES"
  const TopicsHeading: string := "## \U{1F5C2}\U{FE0F} CONTENT ORGANIZED BY TOPIC"
  const AnalysisHeading: string := "## \U{1F4C8} CONTENT ANALYSIS"
  const TakeawaysHeading: string := "## \U{1F48E} KEY TAKEAWAYS"

  const NoNumbers: string := "No specific numerical data found."
  const NoDefinitions: string := "No explicit definitions found in transcript."
  const NoExamples: string := "No specific examples identified."
  const NoSteps: string := "No clear step-by-step process identified."

  const Takeaways: seq<string> := [
    "Focus on the main concepts mentioned in key phrases",
    "Review numerical data and dates for important facts",
    "Understand definitions provided in the video",
    "Follow step-by-step processes for practical application",
    "Note examples for better understanding"
  ]

  const Footer: seq<string> := [
    "",
    "---",
    "*Notes automatically generated from YouTube transcript.*",
    "*For optimal results, use videos with clear English captions and educational content.*"
  ]

  function NumbersSection(numbers: seq<string>): seq<string>
  {
    Block(NumbersHeading, Bulleted(Take(numbers, 8)), NoNumbers, numbers == [])
  }

  function DatesSection(dates: seq<string>): seq<string>
  {
    if dates == [] then [] else ["", DatesHeading] + Bulleted(Take(dates, 5))
  }

  function DefinitionsSection(definitions: seq<string>): seq<string>
  {
    Block(DefinitionsHeading, Numbered(Take(definitions, 5), ""), NoDefinitions, definitions == [])
  }

  function ExamplesSection(examples: seq<string>): seq<string>
  {
    Block(ExamplesHeading, Numbered(Take(examples, 5), ""), NoExamples, examples == [])
  }

  function StepsSection(steps: seq<string>): seq<string>
  {
    Block(StepsHeading, StepLines(Cleans(Take(steps, 10))), NoSteps, steps == [])
  }

  /** One topic: `### TOPIC` after a blank line, then its first five sentences, numbered and closed with `.`. */
  function TopicBlock(section: Topics.Section): seq<string>
  {
    if section.sentences == [] then []
    else ["", "### " + UpperStr(section.topic)] + Numbered(Take(section.sentences, 5), ".")
  }

  function TopicLines(sections: seq<Topics.Section>): seq<string>
  {
    if sections == [] then []
    else TopicLines(sections[..|sections| - 1]) + TopicBlock(sections[|sections| - 1])
  }

  function TopicsSection(sections: seq<Topics.Section>): seq<string>
  {
    ["", TopicsHeading] + TopicLines(sections)
  }

  /** `len(re.findall(r'[.!?]', text))` */
  function Terminators(text: string): nat
  {
    CountChar(text, '.') + CountChar(text, '!') + CountChar(text, '?')
  }

  function AnalysisSection(cleaned: string, topics: nat, phrases: nat, procedural: bool): seq<string>
  {
    [
      "",
      AnalysisHeading,
      "- **Total meaningful content:** " + NatStr(Terminators(cleaned)) + " sentences",
      "- **Key topics identified:** " + NatStr(topics),
      "- **Technical terms:** " + NatStr(phrases),
      "- **Procedural content:** " + (if procedural then "Yes" else "No")
    ]
  }

  function TakeawaysSection(): seq<string>
  {
    ["", TakeawaysHeading] + Numbered(Takeaways, "")
  }

  /** The first line of the notes. */
  function TitleLine(title: string): string { "# \U{1F4DD} VIDEO NOTES: " + title }

  /** The opening template, down to the blank line under the key-phrase heading. */
  function Header(title: string, duration: string, length: nat, generated: string, summary: string): seq<string>
  {
    [
      TitleLine(title),
      "",
      "**\U{23F1}\U{FE0F} Duration:** " + duration + "  ",
      "**\U{1F4C4} Transcript Length:** " + NatStr(length) + " characters  ",
      "**\U{1F4C5} Generated:** " + generated,
      "",
      "---",
      "",
      "## \U{1F4CB} EXECUTIVE SUMMARY",
      "",
      summary,
      "",
      PhrasesHeading,
      ""
    ]
  }

  /** What the notes are made from, once the transcript has been cleaned. */
  datatype Material = Material(
    title: string,
    duration: string,
    cleaned: string,
    generated: string,
    summary: string,
    phrases: seq<string>,
    elements: Elements.Elements,
    organized: seq<Topics.Section>)

  /** The markdown: the text of each section, in the order the sections are written. */
  function Markdown(m: Material): string
  {
    var e := m.elements;
    Lines(Header(m.title, m.duration, |m.cleaned|, m.generated, m.summary))
    + Lines(Numbered(m.phrases, "."))
    + Lines(NumbersSection(e.numbers))
    + Lines(DatesSection(e.dates))
    + Lines(DefinitionsSection(e.definitions))
    + Lines(ExamplesSection(e.examples))
    + Lines(StepsSection(e.steps))
    + Lines(TopicsSection(m.organized))
    + Lines(AnalysisSection(m.cleaned, |m.organized|, |m.phrases|, e.steps != []))
    + Lines(TakeawaysSection())
    + Lines(Footer)
  }

  /** Writing more after a text keeps what it starts with. */
  lemma PrefixKept(s: string, t: string, p: string)
    requires StartsWith(s, p)
    ensures StartsWith(s + t, p)
  {
    assert (s + t)[..|p|] == s[..|p|];
  }

  /** The notes open with the title line and close with the footer, whatever the sections hold. */
  lemma MarkdownFrame(m: Material)
    ensures StartsWith(Markdown(m), TitleLine(m.title) + "\n")
    ensures var md, f := Markdown(m), Lines(Footer); |f| <= |md| && md[|md| - |f|..] == f
  {
    var e := m.elements;
    var hs := Header(m.title, m.duration, |m.cleaned|, m.generated, m.summary);
    var first := TitleLine(m.title) + "\n";
    var s := Lines(hs);
    assert s == first + Lines(hs[1..]);
    assert s[..|first|] == first;
    PrefixKept(s, Lines(Numbered(m.phrases, ".")), first);
    s := s + Lines(Numbered(m.phrases, "."));
    PrefixKept(s, Lines(NumbersSection(e.numbers)), first);
    s := s + Lines(NumbersSection(e.numbers));
    PrefixKept(s, Lines(DatesSection(e.dates)), first);
    s := s + Lines(DatesSection(e.dates));
    PrefixKept(s, Lines(DefinitionsSection(e.definitions)), first);
    s := s + Lines(DefinitionsSection(e.definitions));
    PrefixKept(s, Lines(ExamplesSection(e.examples)), first);
    s := s + Lines(ExamplesSection(e.examples));
    PrefixKept(s, Lines(StepsSection(e.steps)), first);
    s := s + Lines(StepsSection(e.steps));
    PrefixKept(s, Lines(TopicsSection(m.organized)), first);
    s := s + Lines(TopicsSection(m.organized));
    PrefixKept(s, Lines(AnalysisSection(m.cleaned, |m.organized|, |m.phrases|, e.steps != [])), first);
    s := s + Lines(AnalysisSection(m.cleaned, |m.organized|, |m.phrases|, e.steps != []));
    PrefixKept(s, Lines(TakeawaysSection()), first);
    s := s + Lines(TakeawaysSection());
    PrefixKept(s, Lines(Footer), first);
    assert Markdown(m) == s + Lines(Footer);
    assert (s + Lines(Footer))[|s|..] == Lines(Footer);
  }

  /** The notes of the cleaned transcript `cleaned` of a video. */
  function NotesOf(v: VideoInfo, cleaned: string, detail: string, generated: string): Material
  {
    Material(
      v.title,
      FormatDuration(v.duration),
      cleaned,
      generated,
      Summary.Summary(cleaned, Summary.MaxSentences(detail)),
      KeyPhrases.KeyPhrases(cleaned, 8),
      Elements.ImportantElements(cleaned),
      Topics.Organized(cleaned))
  }

  /**
   * What the video service answers for a video id: `get_video_info`, the two
   * sources `get_video_transcript` tries, and the subtitle downloads.
   */
  datatype Service = Service(
    info: string -> VideoInfo,
    direct: string -> Option<Acquire.Info>,
    alternative: string -> Option<Acquire.Info>,
    fetch: Acquire.Fetch)

  /** `get_video_transcript(video_id)` */
  function Transcript(service: Service, id: string): Result<string, string>
  {
    Acquire.VideoTranscript(service.direct(id), service.alternative(id), service.fetch)
  }

  /** What gets past the gates: the video id, what the service reports for it, and the cleaned transcript. */
  datatype Admitted = Admitted(id: string, video: VideoInfo, cleaned: string)

  /**
   * The gates of `generate_notes_from_youtube`, in order: a link `urlparse`
   * raises on, an unrecognised link, a failed transcript search (both messages
   * pass through), an empty transcript, and a cleaned transcript under 100
   * characters.
   */
  function Gate(url: string, service: Service): Result<Admitted, string>
  {
    match VideoId.ExtractVideoId(url)
    case Err(e) => Err(e)
    case Ok(None) => Err(InvalidUrl)
    case Ok(Some(id)) =>
      match Transcript(service, id)
      case Err(e) => Err(e)
      case Ok(raw) =>
        if raw == [] then Err(NoCaptions)
        else
          var cleaned := Cleaner.Cleaned(raw);
          if |cleaned| < 100 then Err(TooShort) else Ok(Admitted(id, service.info(id), cleaned))
  }

  /**
   * `generate_notes_from_youtube(url, detail)`: an error message, or the notes
   * with the video's title and id. `generated` stands for the clock reading.
   */
  function GenerateNotes(url: string, detail: string, service: Service, generated: string): Result<Notes, string>
  {
    match Gate(url, service)
    case Err(e) => Err(e)
    case Ok(a) => Ok(Notes(Markdown(NotesOf(a.video, a.cleaned, detail, generated)), a.video.title, a.id))
  }

  // ------------------------------------------------------------- properties

  /** A transcript that is found is not blank, and a failed search reports that nothing could be fetched. */
  lemma TranscriptShape(service: Service, id: string)
    ensures Transcript(service, id).Ok? ==> Strip(Transcript(service, id).value) != []
    ensures Transcript(service, id).Err? ==> Transcript(service, id).error == Acquire.NoTranscript
  {
    var attempts := [Acquire.Direct(service.direct(id), service.fetch), Acquire.Alternative(service.alternative(id))];
    if Acquire.FirstLongEnough(attempts).Err? {
      Acquire.FirstLongEnoughErr(attempts);
    } else {
      Acquire.FirstLongEnoughOk(attempts);
    }
  }

  /** The messages of the five ways a run can fail are all different. */
  lemma MessagesDistinct()
    ensures VideoId.InvalidIPv6 != InvalidUrl && VideoId.InvalidIPv6 != Acquire.NoTranscript
    ensures VideoId.InvalidIPv6 != NoCaptions && VideoId.InvalidIPv6 != TooShort
    ensures InvalidUrl != Acquire.NoTranscript && InvalidUrl != NoCaptions && InvalidUrl != TooShort
    ensures Acquire.NoTranscript != NoCaptions && Acquire.NoTranscript != TooShort && NoCaptions != TooShort
  {
    assert |VideoId.InvalidIPv6| == 16;
    assert |InvalidUrl| == 43 && |NoCaptions| == 76 && |TooShort| == 114 && |Acquire.NoTranscript| == 91;
  }

  /**
   * An unrecognised link is reported as such, and nothing else is; a link that
   * `urlparse` raises on ends the run with the parser's message, and nothing
   * else does.
   */
  lemma UrlGate(url: string, service: Service)
    ensures Gate(url, service) == Err(InvalidUrl) <==> VideoId.ExtractVideoId(url) == Ok(None)
    ensures Gate(url, service) == Err(VideoId.InvalidIPv6) <==> VideoId.ExtractVideoId(url).Err?
  {
    MessagesDistinct();
    var id := VideoId.ExtractVideoId(url);
    if id.Err? {
      assert Gate(url, service) == Err(VideoId.InvalidIPv6);
    } else if id.value.None? {
      assert Gate(url, service) == Err(InvalidUrl);
    } else {
      var v := id.value.value;
      TranscriptShape(service, v);
      var t := Transcript(service, v);
      if t.Err? {
        assert Gate(url, service) == Err(Acquire.NoTranscript);
      } else {
        assert t.value != [];
        assert Gate(url, service).Ok? || Gate(url, service) == Err(TooShort);
      }
    }
  }

  /** For a recognised link, a failed transcript search ends the run with the search's message. */
  lemma TranscriptGate(url: string, service: Service, id: string)
    requires VideoId.ExtractVideoId(url) == Ok(Some(id))
    ensures Transcript(service, id).Err? ==> Gate(url, service) == Err(Acquire.NoTranscript)
  {
    TranscriptShape(service, id);
  }

  /** Once a transcript is found, the run fails exactly when the cleaned transcript is under 100 characters. */
  lemma LengthGate(url: string, service: Service, id: string, raw: string)
    requires VideoId.ExtractVideoId(url) == Ok(Some(id))
    requires Transcript(service, id) == Ok(raw)
    ensures Gate(url, service) == Err(TooShort) <==> |Cleaner.Cleaned(raw)| < 100
  {
    TranscriptShape(service, id);
    assert raw != [];
  }

  /**
   * What gets past the gates is the recognised link's id, the service's report
   * for that id, and the cleaned transcript, which has at least 100 characters.
   */
  lemma Admits(url: string, service: Service)
    requires Gate(url, service).Ok?
    ensures var a, id := Gate(url, service).value, VideoId.ExtractVideoId(url);
      && id.Ok? && id.value.Some? && a.id == id.value.value && a.video == service.info(id.value.value)
      && Transcript(service, id.value.value).Ok?
      && a.cleaned == Cleaner.Cleaned(Transcript(service, id.value.value).value)
      && |a.cleaned| >= 100
  {
    var id := VideoId.ExtractVideoId(url).value.value;
    var raw := Transcript(service, id).value;
    assert Gate(url, service) == Ok(Admitted(id, service.info(id), Cleaner.Cleaned(raw)));
  }

  /**
   * The empty-transcript message is never produced: a transcript that comes back
   * at all has more than 50 non-blank characters.
   */
  lemma NoCaptionsUnreachable(url: string, service: Service)
    ensures Gate(url, service) != Err(NoCaptions)
  {
    MessagesDistinct();
    var id := VideoId.ExtractVideoId(url);
    if id.Err? {
      assert Gate(url, service) == Err(VideoId.InvalidIPv6);
    } else if id.value.None? {
      assert Gate(url, service) == Err(InvalidUrl);
    } else {
      var v := id.value.value;
      TranscriptShape(service, v);
      var t := Transcript(service, v);
      if t.Err? {
        assert Gate(url, service) == Err(Acquire.NoTranscript);
      } else {
        assert t.value != [];
        assert Gate(url, service).Ok? || Gate(url, service) == Err(TooShort);
      }
    }
  }

  /** A run fails exactly when a gate stops it, and with that gate's message. */
  lemma NotesFail(url: string, detail: string, service: Service, generated: string)
    ensures GenerateNotes(url, detail, service, generated).Err? <==> Gate(url, service).Err?
    ensures Gate(url, service).Err? ==> GenerateNotes(url, detail, service, generated).error == Gate(url, service).error
  {
  }

  /**
   * A run that passes the gates reports the video's title and id, and its notes
   * open with the title line.
   */
  lemma NotesSucceed(url: string, detail: string, service: Service, generated: string)
    requires Gate(url, service).Ok?
    ensures var r, a := GenerateNotes(url, detail, service, generated), Gate(url, service).value;
      && r.Ok? && r.value.videoId == a.id && r.value.title == a.video.title
      && StartsWith(r.value.markdown, TitleLine(a.video.title) + "\n")
  {
    var a := Gate(url, service).value;
    var m := NotesOf(a.video, a.cleaned, detail, generated);
    assert GenerateNotes(url, detail, service, generated) == Ok(Notes(Markdown(m), a.video.title, a.id));
    assert StartsWith(Markdown(m), TitleLine(a.video.title) + "\n") by {
      MarkdownFrame(m);
      assert m.title == a.video.title;
    }
  }

  /**
   * The numbers section: its placeholder line appears exactly when no number was
   * found, and otherwise at most eight numbers are listed.
   */
  lemma NumbersShape(numbers: seq<string>)
    ensures var ls := NumbersSection(numbers);
      && (NoNumbers in ls <==> numbers == [])
      && |ls| == 2 + (if numbers == [] then 1 else Min(8, |numbers|))
  {
    BulletedLed(Take(numbers, 8));
    assert NoNumbers[0] == 'N' && NumbersHeading[0] == '#';
    BlockShape(NumbersHeading, Bulleted(Take(numbers, 8)), NoNumbers, numbers == []);
  }

  /** The dates section is written only when dates were found, and lists at most five. */
  lemma DatesShape(dates: seq<string>)
    ensures var ls := DatesSection(dates);
      && (ls == [] <==> dates == [])
      && (DatesHeading in ls <==> dates != [])
      && |ls| == (if dates == [] then 0 else 2 + Min(5, |dates|))
  {
  }

  /** The definitions section: its placeholder exactly when none were found, else at most five. */
  lemma DefinitionsShape(definitions: seq<string>)
    ensures var ls := DefinitionsSection(definitions);
      && (NoDefinitions in ls <==> definitions == [])
      && |ls| == 2 + (if definitions == [] then 1 else Min(5, |definitions|))
  {
    NumberedLed(Take(definitions, 5), "");
    assert NoDefinitions[0] == 'N' && DefinitionsHeading[0] == '#';
    BlockShape(DefinitionsHeading, Numbered(Take(definitions, 5), ""), NoDefinitions, definitions == []);
  }

  /** The examples section: its placeholder exactly when none were found, else at most five. */
  lemma ExamplesShape(examples: seq<string>)
    ensures var ls := ExamplesSection(examples);
      && (NoExamples in ls <==> examples == [])
      && |ls| == 2 + (if examples == [] then 1 else Min(5, |examples|))
  {
    NumberedLed(Take(examples, 5), "");
    assert NoExamples[0] == 'N' && ExamplesHeading[0] == '#';
    BlockShape(ExamplesHeading, Numbered(Take(examples, 5), ""), NoExamples, examples == []);
  }

  /**
   * The steps section: its placeholder exactly when no step was found; at most
   * ten steps are considered, so a found list whose first ten steps all clean
   * to nothing leaves the section with its heading alone.
   */
  lemma StepsShape(steps: seq<string>)
    ensures var ls := StepsSection(steps);
      && (NoSteps in ls <==> steps == [])
      && (steps != [] ==> 2 <= |ls| <= 2 + Min(10, |steps|))
  {
    var cs := Cleans(Take(steps, 10));
    StepLinesLed(cs);
    StepCount(cs);
    assert NoSteps[0] == 'N' && StepsHeading[0] == '#';
    BlockShape(StepsHeading, StepLines(cs), NoSteps, steps == []);
  }

  lemma TopicBlockHeadings(section: Topics.Section)
    ensures HeadingCount(TopicBlock(section)) == if section.sentences == [] then 0 else 1
  {
    if section.sentences != [] {
      var head := ["", "### " + UpperStr(section.topic)];
      var body := Numbered(Take(section.sentences, 5), ".");
      NumberedLed(Take(section.sentences, 5), ".");
      NumberLedNoHeading(body);
      HeadingCountAppend(head, body);
      assert head[..1] == [""];
      assert [""][..0] == [];
      assert HeadingCount([""]) == 0;
      assert head[1][..4] == "### ";
    }
  }

  /** One `### ` heading per topic that has sentences. */
  lemma {:induction false} TopicHeadings(sections: seq<Topics.Section>)
    requires forall s <- sections :: s.sentences != []
    ensures HeadingCount(TopicLines(sections)) == |sections|
  {
    if sections != [] {
      var n := |sections|;
      TopicHeadings(sections[..n - 1]);
      TopicBlockHeadings(sections[n - 1]);
      HeadingCountAppend(TopicLines(sections[..n - 1]), TopicBlock(sections[n - 1]));
    }
  }

  /**
   * The count of topics in the analysis section is the number of topic headings
   * written: every organised topic has sentences, so each gets its heading.
   */
  lemma TopicCountAgrees(cleaned: string)
    ensures HeadingCount(TopicLines(Topics.Organized(cleaned))) == |Topics.Organized(cleaned)|
  {
    Topics.OrganizedOrder(cleaned);
    TopicHeadings(Topics.Organized(cleaned));
  }

  // ----------------------------------------------------------------- writing

  lemma TopicLinesSnoc(sections: seq<Topics.Section>, i: nat)
    requires i < |sections|
    ensures TopicLines(sections[..i + 1]) == TopicLines(sections[..i]) + TopicBlock(sections[i])
  {
    assert sections[..i + 1][..i] == sections[..i];
  }

  lemma TopicStep(notes: string, r: string, sections: seq<Topics.Section>, i: nat)
    requires i < |sections|
    requires r == notes + Lines(TopicLines(sections[..i]))
    ensures r + Lines(TopicBlock(sections[i])) == notes + Lines(TopicLines(sections[..i + 1]))
  {
    TopicLinesSnoc(sections, i);
    LinesAppend(TopicLines(sections[..i]), TopicBlock(sections[i]));
    Assoc(notes, Lines(TopicLines(sections[..i])), Lines(TopicBlock(sections[i])));
  }

  /** One topic: its heading and up to five numbered sentences, when it has sentences. */
  method AddTopic(notes: string, section: Topics.Section) returns (r: string)
    ensures r == notes + Lines(TopicBlock(section))
  {
    r := notes;
    if section.sentences != [] {
      var heading := "### " + UpperStr(section.topic);
      r := r + ("\n" + heading + "\n");
      r := AddNumbered(r, Take(section.sentences, 5), ".");
      HeadedLines(notes, heading, Numbered(Take(section.sentences, 5), "."));
    }
  }

  /** The topic loop: a `### TOPIC` heading and up to five numbered sentences per topic with sentences. */
  method AddTopics(notes: string, sections: seq<Topics.Section>) returns (r: string)
    ensures r == notes + Lines(TopicLines(sections))
  {
    r := notes;
    for i := 0 to |sections|
      invariant r == notes + Lines(TopicLines(sections[..i]))
    {
      TopicStep(notes, r, sections, i);
      r := AddTopic(r, sections[i]);
    }
    assert sections[..|sections|] == sections;
  }

  /** The dates section, written only when there are dates. */
  method AddDates(notes: string, dates: seq<string>) returns (r: string)
    ensures r == notes + Lines(DatesSection(dates))
  {
    r := notes;
    if dates != [] {
      r := r + ("\n" + DatesHeading + "\n");
      r := AddBullets(r, Take(dates, 5));
      HeadedLines(notes, DatesHeading, Bulleted(Take(dates, 5)));
    }
  }

  /** The steps section: the step lines, or the placeholder when no step was found. */
  method AddStepsSection(notes: string, steps: seq<string>) returns (r: string)
    ensures r == notes + Lines(StepsSection(steps))
  {
    r := notes + ("\n" + StepsHeading + "\n");
    if steps != [] {
      r := AddSteps(r, Take(steps, 10));
      HeadedLines(notes, StepsHeading, StepLines(Cleans(Take(steps, 10))));
    } else {
      r := r + (NoSteps + "\n");
      LinesPair(NoSteps, "");
      HeadedLines(notes, StepsHeading, [NoSteps]);
    }
  }

  /** The topic section: its heading, then each topic's block. */
  method AddTopicsSection(notes: string, sections: seq<Topics.Section>) returns (r: string)
    ensures r == notes + Lines(TopicsSection(sections))
  {
    r := notes + ("\n" + TopicsHeading + "\n");
    r := AddTopics(r, sections);
    HeadedLines(notes, TopicsHeading, TopicLines(sections));
  }

  /** The closing takeaways, numbered. */
  method AddTakeaways(notes: string) returns (r: string)
    ensures r == notes + Lines(TakeawaysSection())
  {
    r := notes + ("\n" + TakeawaysHeading + "\n");
    r := AddNumbered(r, Takeaways, "");
    HeadedLines(notes, TakeawaysHeading, Numbered(Takeaways, ""));
  }

  /** The markdown, written the way the notes are built: one `notes += ...` at a time. */
  method WriteNotes(m: Material) returns (notes: string)
    ensures notes == Markdown(m)
  {
    var e := m.elements;
    notes := Lines(Header(m.title, m.duration, |m.cleaned|, m.generated, m.summary));
    notes := AddNumbered(notes, m.phrases, ".");
    notes := AddBlock(notes, NumbersHeading, Bulleted(Take(e.numbers, 8)), NoNumbers, e.numbers == [], true, Take(e.numbers, 8));
    notes := AddDates(notes, e.dates);
    notes := AddBlock(notes, DefinitionsHeading, Numbered(Take(e.definitions, 5), ""), NoDefinitions,
                      e.definitions == [], false, Take(e.definitions, 5));
    notes := AddBlock(notes, ExamplesHeading, Numbered(Take(e.examples, 5), ""), NoExamples,
                      e.examples == [], false, Take(e.examples, 5));
    notes := AddStepsSection(notes, e.steps);
    notes := AddTopicsSection(notes, m.organized);
    notes := notes + Lines(AnalysisSection(m.cleaned, |m.organized|, |m.phrases|, e.steps != []));
    notes := AddTakeaways(notes);
    notes := notes + Lines(Footer);
  }

  /** The gates, checked one after another as the pipeline reaches them. */
  method CheckGates(url: string, service: Service) returns (r: Result<Admitted, string>)
    ensures r == Gate(url, service)
  {
    var videoId := VideoId.ExtractVideoId(url);
    if videoId.Err? {
      return Err(videoId.error);
    }
    if videoId.value.None? {
      return Err(InvalidUrl);
    }
    var id := videoId.value.value;
    var first := Acquire.GetTranscriptDirect(service.direct(id), service.fetch);
    var second := Acquire.GetTranscriptAlternative(service.alternative(id));
    var transcript := Acquire.GetVideoTranscript([first, second]);
    if transcript.Err? {
      return Err(transcript.error);
    }
    var raw := transcript.value;
    if raw == [] {
      return Err(NoCaptions);
    }
    var cleaned := Cleaner.CleanTranscript(raw);
    if |cleaned| < 100 {
      return Err(TooShort);
    }
    return Ok(Admitted(id, service.info(id), cleaned));
  }

  /** The summary, key phrases, important elements and topics of the cleaned transcript. */
  method GatherMaterial(v: VideoInfo, cleaned: string, detail: string, generated: string) returns (m: Material)
    ensures m == NotesOf(v, cleaned, detail, generated)
  {
    var summary := Summary.Summary(cleaned, Summary.MaxSentences(detail));
    var phrases := KeyPhrases.ExtractKeyPhrases(cleaned, 8);
    var elements := Elements.ExtractImportantElements(cleaned);
    var organized := Topics.OrganizeContentByTopic(cleaned);
    m := Material(v.title, FormatDuration(v.duration), cleaned, generated, summary, phrases, elements, organized);
  }

  /** `generate_notes_from_youtube`: the gates, then the material, then the markdown. */
  method GenerateNotesFromYoutube(url: string, detail: string, service: Service, generated: string)
    returns (r: Result<Notes, string>)
    ensures r == GenerateNotes(url, detail, service, generated)
  {
    var gate := CheckGates(url, service);
    if gate.Err? {
      return Err(gate.error);
    }
    var a := gate.value;
    var m := GatherMaterial(a.video, a.cleaned, detail, generated);
    var markdown := WriteNotes(m);
    return Ok(Notes(markdown, a.video.title, a.id));
  }
}
