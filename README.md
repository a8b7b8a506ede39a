# YouTube notes generator, modelled in Dafny

The backend takes a YouTube link and turns it into markdown study notes. It
finds the video id in the link and looks for an English transcript. The first
place it looks is the subtitle and caption tracks that the metadata extraction
reports, together with the player's caption list. If that fails, it gathers
chapter titles and outline lines from the video description. It then cleans
the transcript (spacing, filler words, bracketed asides, repeated words,
punctuation) and writes the notes. The notes hold a summary, key phrases,
numbers, dates, definitions, examples, steps, topic sections, an analysis
block, takeaways and a footer. An upload guard in the audio processor checks
audio file names by their extension.

The model follows `backend/youtube_service.py` and the upload check of
`backend/audio_processor.py`, one Dafny module per concern:

- `Wrappers`: `Option` and `Result`.
- `Text`: the Python string operations the code relies on (`strip`, `split`,
  `join`, `lower`, `upper`, whitespace words, slicing).
- `Scan` and `Tokens`: the regular expressions, written out as scanners with
  the same leftmost, greedy matching.
- `Percent`: `urllib.parse.unquote` as `parse_qs` applies it, with UTF-8
  decoding and quoting as its reference.
- `VideoId`, `Subtitles`, `Acquire`, `Cleaner`, `KeyPhrases`, `Elements`,
  `Summary`, `Topics`: one per function of the pipeline.
- `Render` and `Notes`: the duration text, the lists, and the markdown
  document.
- `Audio`: `allowed_file` and the guard of `save_audio_file`.

Most of the code computes values, so it is modelled as functions, with lemmas
about them. Some of it works by loops that append to a list or a string: the
subtitle loops, the track searches, the passage collection, the topic filing,
the phrase search, and the `notes +=` sequence. These are modelled as
methods with loop invariants. Each such method is proved equal to the function
that specifies it, and the properties are proved about that function.

The outside world is passed in as parameters:

- `Notes.Service` supplies `get_video_info`, the two metadata extractions and
  the subtitle downloads (`Acquire.Fetch`).
- Downloads that are JSON come with their parsed form (`Subtitles.Json`).
- The clock reading is the `generated` parameter.

## Model

| member | source | states |
|---|---|---|
| VideoId.SearchFrom | backend/youtube_service.py:38-39 | `re.search` of a fixed prefix: the position found is a match and no earlier position matches; no result means no position matches |
| VideoId.PatternId | backend/youtube_service.py:30-41 | one of the five link patterns gives an id exactly when its prefix occurs, and the id is never empty |
| VideoId.PatternIdSpan | backend/youtube_service.py:31-35 | the id is the text right after the first occurrence of the prefix, up to the pattern's stop character (`&` or `?`) or the end, and holds no stop character |
| VideoId.FirstPatternId | backend/youtube_service.py:38-41 | the patterns are tried in order: the result is that of the first pattern that matches, and none when none matches |
| VideoId.QueryId | backend/youtube_service.py:43-47 | parsing raises `Invalid IPv6 URL` exactly when the host part has an unbalanced bracket; otherwise an id from the query string is non-empty and comes only from a link whose host contains `youtube.com` |
| VideoId.FirstVFirst | backend/youtube_service.py:45-47 | `query['v'][0]` is the value of the first field whose unquoted name is `v` and whose value is non-empty, unquoted; there is none exactly when no field is such a `v` field |
| VideoId.QueryIdField | backend/youtube_service.py:43-47 | with a well-formed host, the query lookup finds no id exactly when the host lacks `youtube.com` or no field is a non-empty `v` field; an id found is the unquoted value of the first such field |
| VideoId.PlusFree | backend/youtube_service.py:45 | `parse_qs` reads `+` as a space, so a field without `+` is left as it is before unquoting |
| VideoId.FirstVQuoted | backend/youtube_service.py:45-47 | a field whose name unquotes to `v` and whose value is a percent-quoted id gives back exactly that id, whatever fields follow |
| VideoId.NamesOfV | backend/youtube_service.py:45-46 | the field names `v` and `%76` both read as `v` |
| VideoId.FirstVNames | backend/youtube_service.py:45-47 | `v=` and `%76=` followed by a quoted id both give back the id |
| VideoId.Query | backend/youtube_service.py:43-45 | the query part of a parsed link never reaches into the fragment |
| VideoId.Sanitize | backend/youtube_service.py:43 | `urlparse` drops tabs and line breaks from the link first |
| VideoId.TokenSearch | backend/youtube_service.py:49-51 | the last-resort id is exactly 11 word characters or dashes (where it is taken from is stated by TokenSearchLeftmost) |
| VideoId.TokenAtFirst | backend/youtube_service.py:49-51 | at one position the prefixes are tried in the order written: a token is found exactly when some prefix is followed by 11 id characters, and it is the 11 characters after the first prefix that is |
| VideoId.TokenSearchLeftmost | backend/youtube_service.py:49-51 | `re.search` answers with the token at the leftmost position that has one, and with nothing exactly when no position has one |
| VideoId.ExtractVideoId | backend/youtube_service.py:28-53 | the first matching pattern decides; with no pattern matching, the link is parsed, which raises `Invalid IPv6 URL` on an unbalanced bracket in the host part; otherwise the query's `v` is used, and failing that the 11-character token; an id that is found is non-empty |
| VideoId.BracketRaises | backend/youtube_service.py:43 | a link that no pattern matches and whose host part has an unbalanced bracket makes `extract_video_id` raise `Invalid IPv6 URL` |
| VideoId.BracketRaisesWithoutY | backend/youtube_service.py:30-43 | a link without a `y` matches none of the five patterns, so an unbalanced bracket in its host part makes `extract_video_id` raise `Invalid IPv6 URL` |
| Percent.Unquote | backend/youtube_service.py:45-47 | unquoting never lengthens a name or value, and a non-empty one stays non-empty |
| Percent.UnquoteQuote | backend/youtube_service.py:45-47 | unquoting undoes quoting: any string, UTF-8 encoded and written as `%XX` per byte, reads back as itself |
| Percent.UnquotePlain | backend/youtube_service.py:45-47 | a name or value without `%` is left as it is |
| Percent.DecodeEncodeStr | backend/youtube_service.py:45-47 | UTF-8 decoding undoes UTF-8 encoding |
| Percent.PercentRoundTrip | backend/youtube_service.py:45-47 | reading `%XX` escapes undoes writing every byte as `%XX` |
| Percent.EscapedLetter | backend/youtube_service.py:45-46 | `%76` reads as `v` |
| Percent.EscapedDash | backend/youtube_service.py:45-47 | hex digits count in either case: `a%2db` reads as `a-b` |
| Percent.StrayByte | backend/youtube_service.py:45-47 | a byte that starts no character, such as `%80`, reads as U+FFFD |
| VideoId.WatchUrl | backend/youtube_service.py:31 | `https://www.youtube.com/watch?v=ID&…` yields ID, for any non-empty ID without `&` |
| VideoId.ShortLinkUrl | backend/youtube_service.py:32 | `https://youtu.be/ID` yields ID for any non-empty ID of word characters and dashes |
| VideoId.AbsentCharNoMatch | backend/youtube_service.py:39-41 | a pattern cannot match a link lacking one of its prefix's characters |
| Subtitles.TagEnd | backend/youtube_service.py:230 | a tag `<…>` is found exactly when the text starts with `<`, has a non-`>` character next, and a `>` later on |
| Subtitles.RemoveTags | backend/youtube_service.py:230 | removing tags leaves no tag behind, keeps characters of the line only, and leaves a tag-free line unchanged |
| Subtitles.RemoveTagsPlainPrefix | backend/youtube_service.py:230 | text before the first `<` is copied unchanged: `RemoveTags(a + s) == a + RemoveTags(s)` when `a` holds no `<` |
| Subtitles.RemoveTagsTag | backend/youtube_service.py:230 | a tag, `<` followed by one or more characters other than `>` and then `>`, is deleted and the text after it is processed on its own |
| Subtitles.TaglessStrip | backend/youtube_service.py:230-231 | stripping a tag-free line leaves it tag-free |
| Subtitles.LineText | backend/youtube_service.py:223-233 | a line that is kept is not a skipped line (timing, digits, blank, `WEBVTT`, `STYLE` or `NOTE` header), and its text is non-empty, stripped, tag-free and drawn from the line |
| Subtitles.Kept | backend/youtube_service.py:223-233 | each line contributes at most one text, non-empty, stripped and tag-free |
| Subtitles.KeptNoBreak | backend/youtube_service.py:220-233 | a line without a line break keeps no line break |
| Subtitles.KeptLinesProps | backend/youtube_service.py:220-233 | there are at most as many kept texts as lines, and each one is non-empty, stripped, tag-free and free of line breaks |
| Subtitles.LinesText | backend/youtube_service.py:220-235 | the text of a VTT or SRT body has no line break and no outer space |
| Subtitles.SubtitleText | backend/youtube_service.py:201-235 | an empty body gives "", and any body not handled as caption JSON gives a single stripped line |
| Subtitles.CollectSegTexts | backend/youtube_service.py:209-216 | the loop over events and segments collects the `utf8` texts, in order |
| Subtitles.ParseSubtitles | backend/youtube_service.py:201-235 | the imperative parse equals `SubtitleText` |
| Subtitles.PlainLineKept | backend/youtube_service.py:223-233 | a caption line that is already plain comes through unchanged |
| Subtitles.PlainLinesJoined | backend/youtube_service.py:220-235 | plain caption lines are joined with single spaces |
| Subtitles.NumberLineDropped | backend/youtube_service.py:224 | a cue number line is dropped |
| Subtitles.TimingLineDropped | backend/youtube_service.py:224 | a timing line with `-->` is dropped |
| Subtitles.SrtBlock | backend/youtube_service.py:220-235 | an SRT block (number, timing, caption) gives back just its caption |
| Acquire.FromTracksDownloaded | backend/youtube_service.py:112-123 | a text found among a language's tracks is the accepted 200 download, parsed to more than 100 characters, of a usable track, and every earlier track was unusable or not accepted: the first accepted track wins |
| Acquire.FromTracksNone | backend/youtube_service.py:112-123 | nothing is found among a language's tracks exactly when every track is unusable or its download is not accepted |
| Acquire.FromPlayerDownloaded | backend/youtube_service.py:139-156 | a text found among the player tracks is the accepted download of an English track, and every earlier track was not English or answered without being accepted |
| Acquire.FromPlayerNone | backend/youtube_service.py:139-158 | nothing is found among the player tracks exactly when every track is passed by, or an English track's request raised before any track was accepted |
| Acquire.FromLanguagesDownloaded | backend/youtube_service.py:110-137 | a text found over the languages comes from a usable track under one of them, uploaded or automatic |
| Acquire.FromLanguagesFirst | backend/youtube_service.py:110-137 | the languages are tried in order: a text found is what the first language yielding one gives, and nothing is found exactly when no language yields one |
| Acquire.DirectDownloaded | backend/youtube_service.py:89-161 | a direct transcript is always a 200 download, parsed to more than 100 characters, from an English-variant track or an English player track; it is the first English variant's text, and the player tracks give it only when no variant yields one |
| Acquire.OtherLanguagesIgnored | backend/youtube_service.py:108-111 | tracks under a language outside the English variants never change the outcome |
| Acquire.SubtitlesFirst | backend/youtube_service.py:111-125 | a language's uploaded subtitles win over its automatic captions |
| Acquire.FirstAccepted | backend/youtube_service.py:112-123 | the loop over one language's tracks returns the first accepted download, equal to `FromTracks` |
| Acquire.FirstPlayerTrack | backend/youtube_service.py:139-156 | the loop over player tracks equals `FromPlayer`, where a raising request ends the search |
| Acquire.GetTranscriptDirect | backend/youtube_service.py:89-161 | the imperative search equals `Direct` |
| Acquire.TitlesFrom | backend/youtube_service.py:181-184 | every gathered title is the title of a chapter |
| Acquire.OutlineLinesFrom | backend/youtube_service.py:186-191 | every gathered description line carries an outline mark once lower-cased |
| Acquire.TitledPositions | backend/youtube_service.py:181-184 | the chapter loop yields exactly the titles of the chapters that have one, at increasing chapter positions, and no titled chapter is skipped |
| Acquire.MarkedPositions | backend/youtube_service.py:186-191 | the line loop yields exactly the description lines that carry an outline mark, at increasing line positions, and no marked line is skipped |
| Acquire.AlternativeFrom | backend/youtube_service.py:163-199 | soundness: every gathered part is a chapter title or a marked description line; with no part there is no transcript |
| Acquire.AlternativeExactly | backend/youtube_service.py:178-191 | the gathered parts are all chapter titles in chapter order, followed, when the description is not empty, by all its marked lines in line order, and nothing else |
| Acquire.AlternativeComplete | backend/youtube_service.py:181-191 | completeness: every chapter title is gathered, and every marked line of a non-empty description is gathered |
| Acquire.GetTranscriptAlternative | backend/youtube_service.py:163-199 | the imperative fallback equals `Alternative` |
| Acquire.FirstLongEnoughErr | backend/youtube_service.py:244-249 | the error is raised exactly when no method gives more than 50 stripped characters, and its message is the fixed one |
| Acquire.FirstLongEnoughOk | backend/youtube_service.py:244-247 | a transcript returned is long enough and is the first long-enough attempt |
| Acquire.DirectWins | backend/youtube_service.py:239-247 | a long-enough direct transcript is used, whatever the fallback holds |
| Acquire.GetVideoTranscript | backend/youtube_service.py:237-249 | the loop over the two methods equals `FirstLongEnough` |
| Cleaner.CollapseSpaces | backend/youtube_service.py:256 | whitespace runs become single spaces: no two spaces in a row and no other whitespace, the text never grows, and a text without whitespace is unchanged |
| Cleaner.RemoveFiller | backend/youtube_service.py:259-264 | each filler pattern never lengthens the text and keeps only characters it had; the bracket patterns leave no bracketed span on one line; the number-only pattern removes a text that is only a number and nothing else |
| Cleaner.RemoveFillerDeletes | backend/youtube_service.py:259-264 | each filler pattern only deletes characters: the result is a subsequence of the text |
| Cleaner.ApplyFillers | backend/youtube_service.py:258-268 | the filler patterns, applied in order, never lengthen the text and keep only characters it had |
| Cleaner.ApplyFillersDeletes | backend/youtube_service.py:258-268 | the filler patterns, applied in order, only delete characters: the result is a subsequence of the text |
| Cleaner.RemoveToPeriodDeletes | backend/youtube_service.py:260 | removing promotional sentences only deletes characters |
| Cleaner.RemoveBetweenDeletes | backend/youtube_service.py:261-263 | removing bracketed spans only deletes characters |
| Scan.RemoveCuesDeletes | backend/youtube_service.py:259 | removing filler words only deletes characters |
| Cleaner.RemoveBetween | backend/youtube_service.py:261-263 | removing `[…]`, `(…)` and `♪…♪` spans leaves no such span on a line |
| Cleaner.CueToPeriod | backend/youtube_service.py:260 | a promotional match ends just past a `.` |
| Cleaner.PeriodAfterFirst | backend/youtube_service.py:260 | `.*?\.` stops at the first `.`, with no line break before it, and fails when a line break comes before every `.` |
| Cleaner.CueToPeriodFirst | backend/youtube_service.py:260 | a promotional match ends just past the first `.` after the first phrase, in the order written, that matches and has a `.` after it; every earlier phrase is absent or has none |
| Cleaner.CueToPeriodNone | backend/youtube_service.py:260 | no promotional match starts at a position exactly when every phrase is absent there or has no `.` after it before a line break |
| Cleaner.CollapseRepeats | backend/youtube_service.py:270 | the repeated-word pass never lengthens the text and keeps only characters it had |
| Cleaner.CollapseRepeatsDeletes | backend/youtube_service.py:270 | the repeated-word pass only deletes characters: the result is a subsequence of the text |
| Cleaner.DoubledWord | backend/youtube_service.py:270 | a word said twice is kept once |
| Cleaner.TripledWord | backend/youtube_service.py:270 | a word said three times comes out twice, because matching resumes after a repetition |
| Cleaner.CollapseDotRuns | backend/youtube_service.py:272 | the text never grows and keeps only characters it had, and a text without periods is unchanged |
| Cleaner.CollapseDotRunsDeletes | backend/youtube_service.py:272 | the dot-run pass only deletes characters: the result is a subsequence of the text |
| Cleaner.DotFreePrefixKept | backend/youtube_service.py:272 | text before the first `.` is passed over unchanged |
| Cleaner.DotRunCollapsed | backend/youtube_service.py:272 | the first `.`, whitespace, `.` becomes a single `.`: the text before it is kept and the pass goes on after the second `.` |
| Cleaner.NoDotRunKept | backend/youtube_service.py:272 | a text in which `\.\s+\.` matches nowhere is unchanged |
| Cleaner.DotRunsOnePass | backend/youtube_service.py:272 | `. . .` becomes `. .`: one left-to-right pass, which does not look again at what it has rewritten |
| Cleaner.Tighten | backend/youtube_service.py:273 | no whitespace is left before `.,!?;:` |
| Cleaner.SpaceAfter | backend/youtube_service.py:275-277 | a terminator is never directly followed by a capital letter, and the text only grows |
| Cleaner.SpaceAfterKeepsMarks | backend/youtube_service.py:275-277 | spacing after one terminator keeps the spacing made after the others |
| Cleaner.SpaceAfterKeepsSpacing | backend/youtube_service.py:273-277 | spacing after terminators puts no space back before punctuation |
| Cleaner.SpaceAfterKeepsPlain | backend/youtube_service.py:256-277 | spacing after terminators keeps the plain space as the only whitespace character |
| Cleaner.StripKeeps | backend/youtube_service.py:279 | the final strip keeps the spacing properties |
| Cleaner.Tidied | backend/youtube_service.py:270-279 | after the last passes no space precedes punctuation, and every `.`, `!` and `?` before a capital is followed by a space |
| Cleaner.Cleaned | backend/youtube_service.py:251-281 | `clean_transcript`: "" for "", and otherwise stripped, with the plain space as its only whitespace character (two spaces in a row can remain where a filler was removed), with no space before punctuation and a space after every terminator that precedes a capital |
| Cleaner.CleanTranscript | backend/youtube_service.py:251-281 | the imperative cleaning equals `Cleaned` |
| KeyPhrases.DropStopWords | backend/youtube_service.py:290 | a word is kept exactly when it is a candidate and not a stop word |
| KeyPhrases.CandidateWords | backend/youtube_service.py:288-290 | the candidates are exactly the lower-cased words of four or more letters that are not stop words |
| KeyPhrases.Rank | backend/youtube_service.py:295-297 | the ranking is a permutation, ordered by falling frequency |
| KeyPhrases.MostCommon | backend/youtube_service.py:295-297 | every distinct candidate once, most frequent first |
| KeyPhrases.TopWords | backend/youtube_service.py:297-302 | at most `n` words are tried, each a candidate |
| KeyPhrases.Clipped | backend/youtube_service.py:305 | a phrase has at most 15 words |
| KeyPhrases.PhraseFor | backend/youtube_service.py:303-308 | a phrase found for a word is longer than 20 characters and new; which sentence it comes from is stated by PhraseForNone and PhraseForFirst |
| KeyPhrases.PhraseForNone | backend/youtube_service.py:303-308 | the sentence loop finds nothing exactly when no sentence qualifies: none mentions the word with a clipped form that is non-empty, longer than 20 characters and not yet kept |
| KeyPhrases.PhraseForFirst | backend/youtube_service.py:303-308 | when the loop finds a phrase, it is the clipped form of the first sentence that qualifies; every earlier sentence fails the test |
| KeyPhrases.PhraseForSource | backend/youtube_service.py:303-308 | the phrase is the clipped form of a sentence that contains the word, lower-cased |
| KeyPhrases.PhrasesDistinct | backend/youtube_service.py:302-308 | the phrases gathered are distinct and each longer than 20 characters |
| KeyPhrases.KeyPhrases | backend/youtube_service.py:283-310 | at most `n` distinct phrases, each longer than 20 characters; none for an empty text or one without candidates |
| KeyPhrases.FindPhrase | backend/youtube_service.py:303-308 | the inner loop over sentences equals `PhraseFor` |
| KeyPhrases.ExtractKeyPhrases | backend/youtube_service.py:283-310 | the imperative extraction equals `KeyPhrases` |
| Elements.Numbers | backend/youtube_service.py:322-323 | at most ten distinct numbers, exactly those among the first ten found, each shaped like the number pattern |
| Elements.NumbersFound | backend/youtube_service.py:322-323 | every number listed occurs in the text |
| Elements.Matches | backend/youtube_service.py:329-331 | every date listed was found by one of the date patterns |
| Elements.DatesFound | backend/youtube_service.py:325-331 | every date is a slash date or a month date that occurs in the text |
| Elements.KeptOnePassage | backend/youtube_service.py:339-341 | a match is kept at most once, stripped and longer than 20 characters, still ending a sentence |
| Elements.StripKeepsCue | backend/youtube_service.py:339-341 | stripping a sentence keeps the cue phrase inside it |
| Elements.KeptCued | backend/youtube_service.py:339-341 | every passage kept from cue-sentence matches still contains a cue phrase |
| Elements.PatternPassagesShape | backend/youtube_service.py:337-341 | one pattern gives at most `cap` passages, each stripped, longer than 20 characters, ending with `.`, `!` or `?`, and containing one of that pattern's phrases |
| Elements.PassagesShape | backend/youtube_service.py:333-361 | every definition, example or step is stripped, longer than 20 characters, ends with `.`, `!` or `?`, and contains a phrase of one of its patterns |
| Elements.PassagesBound | backend/youtube_service.py:337-361 | at most `cap` passages per pattern |
| Elements.PassagesOfTwo | backend/youtube_service.py:333-361 | with two patterns, the passages are those of the first pattern followed by those of the second |
| Elements.MatchesOfTwo | backend/youtube_service.py:325-331 | the dates are the first pattern's matches followed by the second's |
| Elements.ElementsBounds | backend/youtube_service.py:312-363 | at most 10 distinct numbers; the dates are at most five slash dates followed by at most five month dates; definitions and examples are at most five passages of the first cue pattern followed by at most five of the second, and steps at most ten of each |
| Elements.ElementsShapes | backend/youtube_service.py:312-363 | what each list holds: numbers and dates occur in the text and fit their patterns, and the passages are full sentences that contain one of their cue phrases |
| Elements.KeepPassages | backend/youtube_service.py:339-341 | the loop over capped matches equals `Kept` |
| Elements.CollectPassages | backend/youtube_service.py:333-361 | the loops over a group of patterns equal `Passages` |
| Elements.CollectDates | backend/youtube_service.py:329-331 | the date loop equals `Matches` |
| Elements.ExtractImportantElements | backend/youtube_service.py:312-363 | the imperative extraction equals `ImportantElements` |
| Summary.MaxSentencesTable | backend/youtube_service.py:454-458 | 2, 4 or 6 sentences; an unknown level counts as medium |
| Summary.SentencesShape | backend/youtube_service.py:367-368 | a summary sentence is stripped, longer than 30 characters, and holds no terminator |
| Summary.PicksOrdered | backend/youtube_service.py:376-383 | the picks are 1, 2 or 4 rising positions, from the first sentence to the last |
| Summary.ChosenOrdered | backend/youtube_service.py:373-383 | all sentences up to the maximum, or else the picked ones, in text order, always starting with the first and ending with the last |
| Summary.OneSentence | backend/youtube_service.py:373-384 | the joined summary ends in its only period, starts with the first chosen sentence and ends with the last |
| Summary.SummaryShape | backend/youtube_service.py:365-384 | the summary ends with its only terminator; it is the fallback text exactly when no sentence qualifies; otherwise it starts with the first sentence and ends with the last |
| Summary.BriefIsMedium | backend/youtube_service.py:373-458 | past four sentences, brief and medium give the same summary |
| Topics.FirstTopic | backend/youtube_service.py:408-409 | the topic chosen is the first whose keywords the lower-cased sentence mentions |
| Topics.PlaceFirstMatch | backend/youtube_service.py:404-416 | a sentence is filed under a topic exactly when it is longer than 20 characters once stripped and mentions a keyword, and that topic is the first one mentioned |
| Topics.Shadowed | backend/youtube_service.py:408-413 | a later topic never receives a sentence that mentions an earlier topic's keyword |
| Topics.ConclusionShadowed | backend/youtube_service.py:393-397 | a sentence saying "conclusion" or "summary" never reaches Conclusion or Other |
| Topics.NamesDistinct | backend/youtube_service.py:389-402 | nine distinct section names, Other last |
| Topics.SectionsOrdered | backend/youtube_service.py:418 | only non-empty sections are kept and every non-empty one is kept; section `k` is bucket `idx[k]` under its name for strictly increasing indices `idx` (table order); names are distinct and the last bucket comes last |
| Topics.OrganizedOrder | backend/youtube_service.py:386-420 | every section has sentences, the names are distinct, and Other comes last |
| Topics.AtMostOnce | backend/youtube_service.py:404-416 | no more sentences are filed than are looked at |
| Topics.OrganizedAtMostOnce | backend/youtube_service.py:400-416 | each sentence is filed at most once |
| Topics.FileSentence | backend/youtube_service.py:405-416 | the inner loop over topics equals `Place` |
| Topics.OrganizeWith | backend/youtube_service.py:400-418 | the loop over sentences fills the buckets of `FileAll` and keeps the non-empty ones |
| Topics.OrganizeContentByTopic | backend/youtube_service.py:386-420 | the imperative grouping equals `Organized` |
| Render.ClockRead | backend/youtube_service.py:467-474 | the hours, minutes and seconds pieces add back up to the duration |
| Render.DurationRoundTrip | backend/youtube_service.py:466-476 | the duration text reads back as the seconds it came from, and it is `Unknown` exactly for a duration that is not positive |
| Render.StepLinesSound | backend/youtube_service.py:526-529 | every step line belongs to a step that did not clean to nothing, under that step's own number |
| Render.StepLinesComplete | backend/youtube_service.py:526-529 | every step that does not clean to nothing gets its line, so numbering keeps gaps |
| Render.StepCount | backend/youtube_service.py:526-529 | at most one line per step |
| Render.BlockShape | backend/youtube_service.py:498-531 | a section writes its placeholder exactly when it has nothing to list, and otherwise its heading and entries |
| Render.AddBullets | backend/youtube_service.py:500-508 | the bullet loop appends one `- x` line per item |
| Render.AddNumbered | backend/youtube_service.py:495-520 | the numbered loop appends `i. x` lines, counting from 1 |
| Render.AddSteps | backend/youtube_service.py:526-529 | the step loop appends exactly the step lines of the cleaned steps |
| Render.AddBlock | backend/youtube_service.py:498-522 | a section is appended as its heading and entries, or its placeholder |
| Notes.NumbersShape | backend/youtube_service.py:498-503 | the numbers placeholder appears exactly when there are no numbers; otherwise at most eight are listed |
| Notes.DatesShape | backend/youtube_service.py:505-508 | the dates section appears exactly when dates were found, with at most five |
| Notes.DefinitionsShape | backend/youtube_service.py:510-515 | the definitions placeholder appears exactly when there are none; otherwise at most five |
| Notes.ExamplesShape | backend/youtube_service.py:517-522 | the examples placeholder appears exactly when there are none; otherwise at most five |
| Notes.StepsShape | backend/youtube_service.py:524-531 | the steps placeholder appears exactly when there are no steps; otherwise at most ten step lines |
| Notes.TopicHeadings | backend/youtube_service.py:533-538 | one `###` heading per topic section |
| Notes.TopicCountAgrees | backend/youtube_service.py:533-542 | the topic headings written match the count reported in the analysis |
| Notes.MarkdownFrame | backend/youtube_service.py:479-560 | the notes open with the title line and close with the footer |
| Notes.AddTopics | backend/youtube_service.py:534-538 | the topic loop appends each section's block in order |
| Notes.AddDates | backend/youtube_service.py:505-508 | the dates are appended only when there are some |
| Notes.AddStepsSection | backend/youtube_service.py:524-531 | the steps section is appended as specified |
| Notes.AddTopicsSection | backend/youtube_service.py:533-538 | the topics section is appended as specified |
| Notes.AddTakeaways | backend/youtube_service.py:546-556 | the five takeaways are appended, numbered |
| Notes.WriteNotes | backend/youtube_service.py:478-560 | the `notes +=` sequence builds exactly `Markdown` |
| Notes.TranscriptShape | backend/youtube_service.py:237-249 | a transcript found is not blank, and a failed search gives the "Could not fetch transcript" message |
| Notes.MessagesDistinct | backend/youtube_service.py:249-451 | the five failure messages (the parser's, the invalid link, no transcript, no captions, too short) are all different |
| Notes.UrlGate | backend/youtube_service.py:435-437 | the invalid-link error comes exactly when no id is found, and the parser's `Invalid IPv6 URL` exactly when `extract_video_id` raises |
| Notes.TranscriptGate | backend/youtube_service.py:443 | a failed transcript search ends the run with its own message |
| Notes.LengthGate | backend/youtube_service.py:448-451 | once a transcript is found, the run fails exactly when the cleaned text is under 100 characters |
| Notes.Admits | backend/youtube_service.py:435-451 | what passes the gates is the link's id, its video info, and the cleaned transcript of at least 100 characters |
| Notes.NoCaptionsUnreachable | backend/youtube_service.py:443-445 | the empty-transcript error is never raised |
| Notes.NotesFail | backend/youtube_service.py:422-451 | the run fails exactly when a gate fails, with that gate's message |
| Notes.NotesSucceed | backend/youtube_service.py:422-562 | a run past the gates returns the video's title and id, and notes that open with the title line |
| Notes.CheckGates | backend/youtube_service.py:435-451 | the imperative gates equal `Gate` |
| Notes.GatherMaterial | backend/youtube_service.py:453-476 | the summary, phrases, elements, topics and duration equal `NotesOf` |
| Notes.GenerateNotesFromYoutube | backend/youtube_service.py:422-562 | the whole run equals `GenerateNotes` |
| Scan.SplitSentences | backend/youtube_service.py:299-400 | `re.split(r'[.!?]+')` gives at least one piece, and no piece holds a terminator |
| Scan.SplitSentencesPlain | backend/youtube_service.py:299 | text without a terminator is a single piece |
| Scan.SplitSentencesStep | backend/youtube_service.py:299 | a terminator-free piece followed by a whole run of terminators is split off, and the rest is split on its own |
| Scan.CueSentences | backend/youtube_service.py:334-361 | every cue-sentence match is non-empty and ends with a terminator |
| Scan.CueSlice | backend/youtube_service.py:334-358 | a cue found in the text is found in the same place in any piece of the text that contains it |
| Scan.CueSentenceHasCue | backend/youtube_service.py:334-358 | a cue-sentence match contains one of the pattern's phrases |
| Scan.CueSentencesShape | backend/youtube_service.py:334-361 | every cue-sentence match is a piece of the text that ends with a terminator and contains one of the pattern's phrases |
| Scan.CueSentencesIn | backend/youtube_service.py:338-358 | every cue-sentence match occurs in the text |
| Tokens.FindAll | backend/youtube_service.py:288-330 | every token found fits its pattern's shape |
| Tokens.FoundIn | backend/youtube_service.py:288-330 | every token found occurs in the text |
| Tokens.TokensOfJoin | backend/youtube_service.py:288-322 | the words or numbers of a space-separated list are found back exactly |
| Text.Strip | backend/youtube_service.py:231-279 | `str.strip()` removes exactly the outer whitespace: the result is a slice of the input with no outer space, and it is empty exactly for a blank input |
| Text.JoinSplit | backend/youtube_service.py:188-220 | joining the pieces of `split` gives back the text |
| Text.SplitJoin | backend/youtube_service.py:188-220 | splitting a join of separator-free pieces gives the pieces back |
| Text.WordsOfJoin | backend/youtube_service.py:305 | `split()` of a space-joined list of words gives the words back |
| Text.LowerStr | backend/youtube_service.py:288-405 | lower-casing keeps the length and lowers each letter |
| Text.Dedup | backend/youtube_service.py:295-323 | the distinct values, each once, exactly those of the input |
| Audio.AfterLastDotTail | backend/audio_processor.py:14 | what follows the last dot is a dot-free tail right after a dot |
| Audio.AfterDotOf | backend/audio_processor.py:14 | `rsplit('.', 1)[1]` of `stem.ext` is `ext` for a dot-free `ext` |
| Audio.AllowedIff | backend/audio_processor.py:6-14 | a name is allowed exactly when it ends in a dot and a dot-free extension that, lower-cased, is one of the five |
| Audio.LastExtensionCounts | backend/audio_processor.py:14 | `clip.tar.mp3` is allowed |
| Audio.EarlierExtensionIgnored | backend/audio_processor.py:14 | `clip.mp3.exe` is refused |
| Audio.ExtensionCaseIgnored | backend/audio_processor.py:14 | `REC.WEBM` is allowed |
| Audio.NoExtensionRefused | backend/audio_processor.py:14 | `voice.` and `recording` are refused |
| Audio.SaveGuardIff | backend/audio_processor.py:28-29 | the guard passes exactly a present file with an allowed name, hands that name on, and otherwise fails with "Invalid audio file format" |

## Left out

- Regular expressions, `lower()`, `upper()`, `str.isdigit()` and `re.IGNORECASE` are modelled over ASCII. Python's Unicode classes for `\w`, `\d`, digits and case are not modelled. `str.isdigit()` decides which subtitle lines are dropped as cue numbers (Subtitles.Skipped), so a line of non-ASCII digits is kept by the model.
- VideoId.QueryId: `urlsplit`'s check that a bracketed host is a valid IPv6 or IPvFuture address, which depends on the Python version, and its NFKC check of the host for characters that normalise to `/?#@:`, are not modelled; only the unbalanced-bracket `ValueError` is.
- VideoId.QueryId: the `max_num_fields`, `strict_parsing` and `separator` options of `parse_qs` are left at their defaults and not modelled; `;` is not a separator.
- Elements.Numbers: `list(set(...))` has no fixed order in Python. The model keeps the numbers in order of first occurrence, and its contracts speak only of the set and its size.
- The network, `yt_dlp`, `requests` and `json.loads` are not modelled. Their results are parameters, and decoded JSON is supplied as data.
- `datetime.now()` is not modelled: the time stamp is the `generated` parameter.
- `get_video_info` is not modelled. Its answer is part of `Notes.Service`, because it only reads metadata and never fails.
- Durations are integers. A float duration from the metadata is not modelled.
- Metadata keys that are present with the value `None` are not modelled. `info.get('chapters', [])` and `info.get('subtitles', {})` then return `None`, and a chapter's `title` can be `None` as well. Iterating over, searching or joining such a `None` raises inside the `try`, and that transcript method returns `(None, False)`. The model types these fields as a sequence, a map and strings, so they always hold a value. (A `None` description is skipped by `if description:` just as an empty one is.)
- `get_video_transcript` calls the fallback only when the direct method fails. The model computes both attempts as values, so that laziness is not visible.
- `format_type` is accepted and ignored by the source, so the model has no such parameter.
- `gemini_service.py`, `app.py`, the storage, the browser extension and the frontend are not part of this model.
- `secure_filename`, the upload directory and `file.save` are not modelled. The guard hands the accepted name on unchanged.
- The printed error messages inside `except` blocks are not modelled. Only their control flow is.
- KeyPhrases.MostCommon: the contract states the ranking by frequency but not that ties keep their order of first appearance, as `Counter.most_common` does; the function itself keeps that order.
- Notes.WriteNotes: the four analysis lines are appended as one block rather than four separate appends.

## Where the code and its description differ

The model follows the code in each case.

- Cleaning twice can change the text: a word said three times loses one copy per pass (Cleaner.TripledWord).
- The extraction caps are 10 numbers, 5 dates per pattern, 5 definitions and 5 examples per pattern, and 10 steps per pattern. So up to 10 dates, definitions and examples, and up to 20 steps, can be found (Elements.ElementsBounds).
- Topic keywords match as substrings. For example, "use" matches "because", and "con" matches "second".
- Past four sentences, "brief" and "medium" produce the same summary (Summary.BriefIsMedium).
- The Conclusion topic cannot receive a sentence saying "conclusion" or "summary", because Results lists those words first (Topics.ConclusionShadowed).
- A player-track request that raises ends the whole player search rather than skipping that track.
- "No transcript available" is never raised. `get_video_transcript` raises "Could not fetch transcript…" instead of returning an empty text (Notes.NoCaptionsUnreachable).
- A step that cleans to nothing leaves a gap in the step numbering (Render.StepLinesComplete). A section of steps can be left with only its heading.
