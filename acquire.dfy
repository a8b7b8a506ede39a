/**
 * Getting a transcript: `get_transcript_direct` walks the caption tracks of
 * the video and keeps the first one whose download parses to a long enough
 * text; `get_transcript_alternative` falls back on the chapter titles and the
 * description lines that look like an outline; `get_video_transcript` takes
 * the first of the two that yields more than 50 characters.
 *
 * The video metadata is given as an `Info` value (`None` when fetching it
 * raised), and every download goes through `fetch`, which answers `None`
 * when the request raised.
 */
module Acquire {
  import opened Wrappers
  import opened Text
  import opened Subtitles

  /** The caption languages tried, in order. */
  const EnglishVariants: seq<string> := ["en", "en-US", "en-GB", "en-AU", "a.en", "v.en"]

  /** The caption formats worth downloading. */
  const Formats: seq<string> := ["vtt", "srt", "json3"]

  /** An entry of `subtitles[lang]` or `automatic_captions[lang]`. */
  datatype Track = Track(ext: Option<string>, url: Option<string>)

  /** An entry of the player's `captionTracks`; a missing `languageCode` reads as "". */
  datatype PlayerTrack = PlayerTrack(languageCode: string, baseUrl: Option<string>)

  /** A download: the status code, the body, and the body read as JSON. */
  datatype Response = Response(status: int, body: string, json: Json)

  datatype Chapter = Chapter(title: Option<string>)

  /**
   * What the metadata extraction reports. `captionTracks` is empty when the
   * player response is not a string, does not decode, or has no captions.
   */
  datatype Info = Info(
    subtitles: map<string, seq<Track>>,
    automaticCaptions: map<string, seq<Track>>,
    captionTracks: seq<PlayerTrack>,
    chapters: seq<Chapter>,
    description: string)

  /** `requests.get(url)`: `None` when it raised. */
  type Fetch = string -> Option<Response>

  // ---- get_transcript_direct ----

  /** `sub_info.get('ext') in [...]` and a non-empty `url`. */
  predicate Usable(t: Track) {
    t.ext.Some? && t.ext.value in Formats && t.url.Some? && t.url.value != []
  }

  /** A download that answered 200 and parses to more than 100 characters gives its text. */
  function Accepted(r: Option<Response>): (text: Option<string>)
  {
    if r.Some? && r.value.status == 200 then
      var text := SubtitleText(r.value.body, r.value.json);
      if text != [] && |text| > 100 then Some(text) else None
    else None
  }

  /** `d.get(lang, [])` as far as the loops are concerned: `lang in d` guards them. */
  function TracksOf(d: map<string, seq<Track>>, lang: string): seq<Track>
  {
    if lang in d then d[lang] else []
  }

  /** The first usable track whose download is accepted. */
  function FromTracks(tracks: seq<Track>, fetch: Fetch): Option<string>
  {
    if tracks == [] then None
    else
      var got := if Usable(tracks[0]) then Accepted(fetch(tracks[0].url.value)) else None;
      if got.Some? then got else FromTracks(tracks[1..], fetch)
  }

  /** One language: its uploaded subtitles first, then its automatic captions. */
  function FromLanguage(info: Info, lang: string, fetch: Fetch): Option<string>
  {
    var got := FromTracks(TracksOf(info.subtitles, lang), fetch);
    if got.Some? then got else FromTracks(TracksOf(info.automaticCaptions, lang), fetch)
  }

  /** The languages in order. */
  function FromLanguages(info: Info, langs: seq<string>, fetch: Fetch): Option<string>
  {
    if langs == [] then None
    else
      var got := FromLanguage(info, langs[0], fetch);
      if got.Some? then got else FromLanguages(info, langs[1..], fetch)
  }

  /** A player track in a language whose code starts with "en", with a non-empty `baseUrl`. */
  predicate English(t: PlayerTrack) {
    StartsWith(t.languageCode, "en") && t.baseUrl.Some? && t.baseUrl.value != []
  }

  /**
   * The player's caption tracks. A request that raises here is caught outside
   * the loop, so it ends the search instead of skipping the track.
   */
  function FromPlayer(tracks: seq<PlayerTrack>, fetch: Fetch): Option<string>
  {
    if tracks == [] then None
    else if !English(tracks[0]) then FromPlayer(tracks[1..], fetch)
    else
      var r := fetch(tracks[0].baseUrl.value);
      if r.None? then None
      else
        var got := Accepted(r);
        if got.Some? then got else FromPlayer(tracks[1..], fetch)
  }

  /** `get_transcript_direct(video_id)`: `Some(text)` for `(text, True)`, `None` for `(None, False)`. */
  function Direct(info: Option<Info>, fetch: Fetch): Option<string>
  {
    if info.None? then None
    else
      var got := FromLanguages(info.value, EnglishVariants, fetch);
      if got.Some? then got else FromPlayer(info.value.captionTracks, fetch)
  }

  // ---- what the direct search promises ----

  /** `url` answered 200 with a body that parses to `text`, which is longer than 100 characters. */
  predicate Downloaded(fetch: Fetch, url: string, text: string) {
    var r := fetch(url);
    r.Some? && r.value.status == 200 && text == SubtitleText(r.value.body, r.value.json) && |text| > 100
  }

  /** A track the loop over one language passes by: not usable, or its download is not accepted. */
  predicate Passed(t: Track, fetch: Fetch) {
    !Usable(t) || Accepted(fetch(t.url.value)).None?
  }

  /**
   * `text` is the accepted download of the usable track `k`, every earlier
   * track having been passed by: the loop returns there.
   */
  predicate TrackFound(tracks: seq<Track>, fetch: Fetch, k: int, text: string)
    requires 0 <= k < |tracks|
  {
    Usable(tracks[k]) && Downloaded(fetch, tracks[k].url.value, text) && forall j :: 0 <= j < k ==> Passed(tracks[j], fetch)
  }

  /** A text found among a language's tracks is where the loop over them returns. */
  lemma {:induction false} FromTracksDownloaded(tracks: seq<Track>, fetch: Fetch)
    ensures FromTracks(tracks, fetch).Some? ==> exists k :: 0 <= k < |tracks| && TrackFound(tracks, fetch, k, FromTracks(tracks, fetch).value)
  {
    if FromTracks(tracks, fetch).None? {
      return;
    }
    var rest := tracks[1..];
    if Passed(tracks[0], fetch) {
      var text := FromTracks(tracks, fetch).value;
      assert FromTracks(rest, fetch) == Some(text);
      FromTracksDownloaded(rest, fetch);
      var k :| 0 <= k < |rest| && TrackFound(rest, fetch, k, text);
      TrackFoundShift(tracks, fetch, k, text);
    } else {
      assert TrackFound(tracks, fetch, 0, FromTracks(tracks, fetch).value);
    }
  }

  /** A track found after the first one, which is passed by, is found one place later in the whole list. */
  lemma TrackFoundShift(tracks: seq<Track>, fetch: Fetch, k: nat, text: string)
    requires 0 < |tracks| && Passed(tracks[0], fetch) && k < |tracks| - 1 && TrackFound(tracks[1..], fetch, k, text)
    ensures TrackFound(tracks, fetch, k + 1, text)
  {
    forall j | 1 <= j <= k + 1
      ensures tracks[j] == tracks[1..][j - 1]
    {
    }
  }

  /** Nothing is found among a language's tracks exactly when every track is passed by. */
  lemma {:induction false} FromTracksNone(tracks: seq<Track>, fetch: Fetch)
    ensures FromTracks(tracks, fetch).None? <==> forall j :: 0 <= j < |tracks| ==> Passed(tracks[j], fetch)
  {
    if tracks != [] {
      var rest := tracks[1..];
      assert forall j :: 1 <= j < |tracks| ==> tracks[j] == rest[j - 1];
      if Passed(tracks[0], fetch) {
        FromTracksNone(rest, fetch);
      }
    }
  }

  /** A player track the loop passes by: not English, or its download answered but is not accepted. */
  predicate PlayerPassed(t: PlayerTrack, fetch: Fetch) {
    !English(t) || (fetch(t.baseUrl.value).Some? && Accepted(fetch(t.baseUrl.value)).None?)
  }

  /** An English player track whose request raised, every earlier track having been passed by. */
  predicate RaisesAt(tracks: seq<PlayerTrack>, fetch: Fetch, k: int)
    requires 0 <= k < |tracks|
  {
    English(tracks[k]) && fetch(tracks[k].baseUrl.value).None? && forall j :: 0 <= j < k ==> PlayerPassed(tracks[j], fetch)
  }

  /**
   * `text` is the accepted download of the English player track `k`, every
   * earlier track having been passed by: the loop returns there.
   */
  predicate PlayerFound(tracks: seq<PlayerTrack>, fetch: Fetch, k: int, text: string)
    requires 0 <= k < |tracks|
  {
    English(tracks[k]) && Downloaded(fetch, tracks[k].baseUrl.value, text) && forall j :: 0 <= j < k ==> PlayerPassed(tracks[j], fetch)
  }

  /** A text found among the player tracks is where the loop over them returns. */
  lemma {:induction false} FromPlayerDownloaded(tracks: seq<PlayerTrack>, fetch: Fetch)
    ensures FromPlayer(tracks, fetch).Some? ==> exists k :: 0 <= k < |tracks| && PlayerFound(tracks, fetch, k, FromPlayer(tracks, fetch).value)
  {
    if FromPlayer(tracks, fetch).None? {
      return;
    }
    var rest := tracks[1..];
    if PlayerPassed(tracks[0], fetch) {
      var text := FromPlayer(tracks, fetch).value;
      assert FromPlayer(rest, fetch) == Some(text);
      FromPlayerDownloaded(rest, fetch);
      var k :| 0 <= k < |rest| && PlayerFound(rest, fetch, k, text);
      PlayerFoundShift(tracks, fetch, k, text);
    } else {
      assert PlayerFound(tracks, fetch, 0, FromPlayer(tracks, fetch).value);
    }
  }

  /** A player track found after the first one, which is passed by, is found one place later in the whole list. */
  lemma PlayerFoundShift(tracks: seq<PlayerTrack>, fetch: Fetch, k: nat, text: string)
    requires 0 < |tracks| && PlayerPassed(tracks[0], fetch) && k < |tracks| - 1 && PlayerFound(tracks[1..], fetch, k, text)
    ensures PlayerFound(tracks, fetch, k + 1, text)
  {
    forall j | 1 <= j <= k + 1
      ensures tracks[j] == tracks[1..][j - 1]
    {
    }
  }

  /**
   * Nothing is found among the player tracks exactly when every track is
   * passed by or the request of an English track raised first.
   */
  lemma {:induction false} FromPlayerNone(tracks: seq<PlayerTrack>, fetch: Fetch)
    ensures FromPlayer(tracks, fetch).None? <==>
      (forall j :: 0 <= j < |tracks| ==> PlayerPassed(tracks[j], fetch)) || exists k :: 0 <= k < |tracks| && RaisesAt(tracks, fetch, k)
  {
    if tracks != [] {
      var rest := tracks[1..];
      assert forall j :: 1 <= j < |tracks| ==> tracks[j] == rest[j - 1];
      if PlayerPassed(tracks[0], fetch) {
        FromPlayerNone(rest, fetch);
        assert !RaisesAt(tracks, fetch, 0);
        if exists k :: 0 <= k < |rest| && RaisesAt(rest, fetch, k) {
          var k :| 0 <= k < |rest| && RaisesAt(rest, fetch, k);
          assert RaisesAt(tracks, fetch, k + 1);
        }
        if exists k :: 0 <= k < |tracks| && RaisesAt(tracks, fetch, k) {
          var k :| 0 <= k < |tracks| && RaisesAt(tracks, fetch, k);
          assert k > 0 && RaisesAt(rest, fetch, k - 1);
        }
      } else if fetch(tracks[0].baseUrl.value).None? {
        assert RaisesAt(tracks, fetch, 0);
      } else {
        assert forall k :: 0 < k < |tracks| ==> !RaisesAt(tracks, fetch, k);
      }
    }
  }

  /**
   * A text found over the languages comes from a usable track under one of
   * them, uploaded or automatic.
   */
  lemma {:induction false} FromLanguagesDownloaded(info: Info, langs: seq<string>, fetch: Fetch)
    ensures FromLanguages(info, langs, fetch).Some? ==>
      exists lang, t :: lang in langs && (t in TracksOf(info.subtitles, lang) || t in TracksOf(info.automaticCaptions, lang))
        && Usable(t) && Downloaded(fetch, t.url.value, FromLanguages(info, langs, fetch).value)
  {
    if langs != [] {
      var lang := langs[0];
      var subs, auto := TracksOf(info.subtitles, lang), TracksOf(info.automaticCaptions, lang);
      FromTracksDownloaded(subs, fetch);
      FromTracksDownloaded(auto, fetch);
      if FromLanguage(info, lang, fetch).None? {
        FromLanguagesDownloaded(info, langs[1..], fetch);
        if FromLanguages(info, langs, fetch).Some? {
          var lang', t :| lang' in langs[1..] && (t in TracksOf(info.subtitles, lang') || t in TracksOf(info.automaticCaptions, lang'))
            && Usable(t) && Downloaded(fetch, t.url.value, FromLanguages(info, langs, fetch).value);
          assert lang' in langs;
        }
      } else if FromTracks(subs, fetch).Some? {
        var k :| 0 <= k < |subs| && TrackFound(subs, fetch, k, FromTracks(subs, fetch).value);
        assert subs[k] in subs;
      } else {
        var k :| 0 <= k < |auto| && TrackFound(auto, fetch, k, FromTracks(auto, fetch).value);
        assert auto[k] in auto;
      }
    }
  }

  /**
   * The languages are tried in order: a text found is what the first language
   * that yields one gives, and nothing is found exactly when no language
   * yields one.
   */
  lemma {:induction false} FromLanguagesFirst(info: Info, langs: seq<string>, fetch: Fetch)
    ensures FromLanguages(info, langs, fetch).Some? ==>
      exists k :: 0 <= k < |langs| && FromLanguages(info, langs, fetch) == FromLanguage(info, langs[k], fetch)
        && forall j :: 0 <= j < k ==> FromLanguage(info, langs[j], fetch).None?
    ensures FromLanguages(info, langs, fetch).None? <==> forall j :: 0 <= j < |langs| ==> FromLanguage(info, langs[j], fetch).None?
  {
    if langs != [] {
      var rest := langs[1..];
      assert forall j :: 1 <= j < |langs| ==> langs[j] == rest[j - 1];
      if FromLanguage(info, langs[0], fetch).None? {
        FromLanguagesFirst(info, rest, fetch);
        if FromLanguages(info, langs, fetch).Some? {
          var k :| 0 <= k < |rest| && FromLanguages(info, rest, fetch) == FromLanguage(info, rest[k], fetch)
            && forall j :: 0 <= j < k ==> FromLanguage(info, rest[j], fetch).None?;
          assert langs[k + 1] == rest[k];
        }
      }
    }
  }

  /**
   * A direct transcript is always the parsed body of a download that answered
   * 200, from a usable subtitle or caption track of an English variant or from
   * an English player track, and it is longer than 100 characters. It is what
   * the first English variant that yields a text gives, and the player tracks
   * are consulted only when no variant yields one.
   */
  lemma DirectDownloaded(info: Option<Info>, fetch: Fetch)
    requires Direct(info, fetch).Some?
    ensures var text := Direct(info, fetch).value;
      || (exists lang, t :: lang in EnglishVariants
            && (t in TracksOf(info.value.subtitles, lang) || t in TracksOf(info.value.automaticCaptions, lang))
            && Usable(t) && Downloaded(fetch, t.url.value, text))
      || (exists t :: t in info.value.captionTracks && English(t) && Downloaded(fetch, t.baseUrl.value, text))
    ensures
      || (exists k :: 0 <= k < |EnglishVariants| && Direct(info, fetch) == FromLanguage(info.value, EnglishVariants[k], fetch)
            && forall j :: 0 <= j < k ==> FromLanguage(info.value, EnglishVariants[j], fetch).None?)
      || ((forall j :: 0 <= j < |EnglishVariants| ==> FromLanguage(info.value, EnglishVariants[j], fetch).None?)
            && Direct(info, fetch) == FromPlayer(info.value.captionTracks, fetch))
  {
    var i := info.value;
    FromLanguagesDownloaded(i, EnglishVariants, fetch);
    FromLanguagesFirst(i, EnglishVariants, fetch);
    FromPlayerDownloaded(i.captionTracks, fetch);
    if FromLanguages(i, EnglishVariants, fetch).None? {
      var k :| 0 <= k < |i.captionTracks| && PlayerFound(i.captionTracks, fetch, k, Direct(info, fetch).value);
      assert i.captionTracks[k] in i.captionTracks;
    }
  }

  /** Tracks under a language that is not one of the English variants are never consulted. */
  lemma {:induction false} OtherLanguagesIgnored(info: Info, langs: seq<string>, lang: string, tracks: seq<Track>, fetch: Fetch)
    requires lang !in langs
    ensures FromLanguages(info.(subtitles := info.subtitles[lang := tracks]), langs, fetch) == FromLanguages(info, langs, fetch)
    ensures FromLanguages(info.(automaticCaptions := info.automaticCaptions[lang := tracks]), langs, fetch) == FromLanguages(info, langs, fetch)
  {
    if langs != [] {
      assert langs[0] != lang;
      OtherLanguagesIgnored(info, langs[1..], lang, tracks, fetch);
    }
  }

  /** Uploaded subtitles of a language win over its automatic captions. */
  lemma SubtitlesFirst(info: Info, lang: string, fetch: Fetch)
    requires FromTracks(TracksOf(info.subtitles, lang), fetch).Some?
    ensures FromLanguage(info, lang, fetch) == FromTracks(TracksOf(info.subtitles, lang), fetch)
  {
  }

  // ---- the loops as written ----

  /** The loop over one language's tracks, returning at the first accepted download. */
  method FirstAccepted(tracks: seq<Track>, fetch: Fetch) returns (text: Option<string>)
    ensures text == FromTracks(tracks, fetch)
  {
    for i := 0 to |tracks|
      invariant FromTracks(tracks[i..], fetch) == FromTracks(tracks, fetch)
    {
      assert tracks[i..][1..] == tracks[i + 1..];
      var track := tracks[i];
      if track.ext.Some? && track.ext.value in Formats {
        if track.url.Some? && track.url.value != [] {
          var response := fetch(track.url.value);
          if response.Some? && response.value.status == 200 {
            var parsed := ParseSubtitles(response.value.body, response.value.json);
            if parsed != [] && |parsed| > 100 {
              return Some(parsed);
            }
          }
        }
      }
    }
    return None;
  }

  /** The loop over the player's caption tracks; a request that raises ends it. */
  method FirstPlayerTrack(tracks: seq<PlayerTrack>, fetch: Fetch) returns (text: Option<string>)
    ensures text == FromPlayer(tracks, fetch)
  {
    for i := 0 to |tracks|
      invariant FromPlayer(tracks[i..], fetch) == FromPlayer(tracks, fetch)
    {
      assert tracks[i..][1..] == tracks[i + 1..];
      var track := tracks[i];
      if StartsWith(track.languageCode, "en") {
        if track.baseUrl.Some? && track.baseUrl.value != [] {
          var response := fetch(track.baseUrl.value);
          if response.None? {
            return None;
          }
          if response.value.status == 200 {
            var parsed := ParseSubtitles(response.value.body, response.value.json);
            if parsed != [] && |parsed| > 100 {
              return Some(parsed);
            }
          }
        }
      }
    }
    return None;
  }

  /** `get_transcript_direct(video_id)` */
  method GetTranscriptDirect(info: Option<Info>, fetch: Fetch) returns (text: Option<string>)
    ensures text == Direct(info, fetch)
  {
    if info.None? {
      return None;
    }
    var i := info.value;
    for v := 0 to |EnglishVariants|
      invariant FromLanguages(i, EnglishVariants[v..], fetch) == FromLanguages(i, EnglishVariants, fetch)
    {
      assert EnglishVariants[v..][1..] == EnglishVariants[v + 1..];
      var lang := EnglishVariants[v];
      if lang in i.subtitles {
        text := FirstAccepted(i.subtitles[lang], fetch);
        if text.Some? {
          return;
        }
      }
      if lang in i.automaticCaptions {
        text := FirstAccepted(i.automaticCaptions[lang], fetch);
        if text.Some? {
          return;
        }
      }
    }
    text := FirstPlayerTrack(i.captionTracks, fetch);
  }

  // ---- get_transcript_alternative ----

  /** The description words that mark an outline line, matched on the lower-cased line. */
  const OutlineMarks: seq<string> :=
    ["chapter", "topic", "section", "part", "00:", "0:", "1:", "2:", "3:", "4:", "5:", "6:", "7:", "8:", "9:"]

  /** A chapter's title, if it has one. */
  function TitleOf(c: Chapter): seq<string> {
    if c.title.Some? then [c.title.value] else []
  }

  /** A description line, kept when it carries an outline mark. */
  function OutlineLine(line: string): seq<string> {
    if Marked(line) then [line] else []
  }

  /** A line carries an outline mark when its lower-cased form contains one of the marks. */
  predicate Marked(line: string) {
    Mentions(LowerStr(line), OutlineMarks)
  }

  function Titles(chapters: seq<Chapter>): seq<string>
  {
    if chapters == [] then [] else Titles(chapters[..|chapters| - 1]) + TitleOf(Last(chapters))
  }

  /** The parts the fallback gathers: chapter titles first, then outline lines of the description. */
  function AlternativeParts(info: Info): seq<string>
  {
    Titles(info.chapters) + (if info.description != [] then Collect(Split(info.description, '\n'), OutlineLine) else [])
  }

  /** `get_transcript_alternative(video_id)` */
  function Alternative(info: Option<Info>): Option<string>
  {
    if info.None? then None
    else
      var parts := AlternativeParts(info.value);
      if parts == [] then None else Some(Join(" ", parts))
  }

  lemma {:induction false} TitlesFrom(chapters: seq<Chapter>)
    ensures forall p <- Titles(chapters) :: Chapter(Some(p)) in chapters
  {
    if chapters != [] {
      var init := chapters[..|chapters| - 1];
      TitlesFrom(init);
      assert forall c <- init :: c in chapters;
      assert Last(chapters) in chapters;
    }
  }

  lemma {:induction false} OutlineLinesFrom(lines: seq<string>)
    ensures forall p <- Collect(lines, OutlineLine) :: p in lines && Mentions(LowerStr(p), OutlineMarks)
  {
    if lines != [] {
      var init := lines[..|lines| - 1];
      OutlineLinesFrom(init);
      assert forall l <- init :: l in lines;
      assert Last(lines) in lines;
    }
  }

  /** The chapter loop gathers the title of every titled chapter, in chapter order, and nothing else. */
  lemma {:induction false} TitledPositions(chapters: seq<Chapter>) returns (idx: seq<nat>)
    ensures Picked(chapters, TitleOf, Titles(chapters), idx)
  {
    if chapters == [] {
      idx := [];
    } else {
      var prev := TitledPositions(chapters[..|chapters| - 1]);
      idx := PickedStep(chapters, TitleOf, Titles(chapters[..|chapters| - 1]), prev);
    }
  }

  /** The line loop gathers every marked line, in line order, and nothing else. */
  lemma {:induction false} MarkedPositions(lines: seq<string>) returns (idx: seq<nat>)
    ensures Picked(lines, OutlineLine, Collect(lines, OutlineLine), idx)
  {
    if lines == [] {
      idx := [];
    } else {
      var prev := MarkedPositions(lines[..|lines| - 1]);
      idx := PickedStep(lines, OutlineLine, Collect(lines[..|lines| - 1], OutlineLine), prev);
    }
  }

  /**
   * What the fallback gathers, in full: the title of every titled chapter, in
   * chapter order, then, when the description is not empty, every line of it
   * that carries an outline mark, in line order; nothing else.
   */
  lemma AlternativeExactly(info: Info)
    ensures exists tidx: seq<nat>, lidx: seq<nat> :: (
      && |tidx| <= |AlternativeParts(info)|
      && Picked(info.chapters, TitleOf, AlternativeParts(info)[..|tidx|], tidx)
      && (if info.description != []
          then Picked(Split(info.description, '\n'), OutlineLine, AlternativeParts(info)[|tidx|..], lidx)
          else |tidx| == |AlternativeParts(info)|))
  {
    var parts, t := AlternativeParts(info), Titles(info.chapters);
    var tidx := TitledPositions(info.chapters);
    assert parts[..|tidx|] == t;
    if info.description != [] {
      var lidx := MarkedPositions(Split(info.description, '\n'));
      assert parts[|tidx|..] == Collect(Split(info.description, '\n'), OutlineLine);
      assert Picked(info.chapters, TitleOf, parts[..|tidx|], tidx);
      assert Picked(Split(info.description, '\n'), OutlineLine, parts[|tidx|..], lidx);
    } else {
      assert parts == t;
      assert Picked(info.chapters, TitleOf, parts[..|tidx|], tidx);
      assert Picked([], OutlineLine, [], []);
    }
  }

  /** Every titled chapter contributes its title, and every marked line of a non-empty description is gathered. */
  lemma AlternativeComplete(info: Info)
    ensures forall c <- info.chapters :: c.title.Some? ==> c.title.value in AlternativeParts(info)
    ensures info.description != [] ==>
      forall l <- Split(info.description, '\n') :: Marked(l) ==> l in AlternativeParts(info)
  {
    var parts, t := AlternativeParts(info), Titles(info.chapters);
    var tidx := TitledPositions(info.chapters);
    forall c <- info.chapters | c.title.Some?
      ensures c.title.value in parts
    {
      var i :| 0 <= i < |info.chapters| && info.chapters[i] == c;
      var k :| 0 <= k < |tidx| && tidx[k] == i;
      assert t[k] == c.title.value;
      assert parts[k] == t[k];
    }
    if info.description != [] {
      var lines := Split(info.description, '\n');
      var lidx := MarkedPositions(lines);
      var r := Collect(lines, OutlineLine);
      forall l <- lines | Marked(l)
        ensures l in parts
      {
        var i :| 0 <= i < |lines| && lines[i] == l;
        var k :| 0 <= k < |lidx| && lidx[k] == i;
        assert r[k] == l;
        assert parts[|t| + k] == r[k];
      }
    }
  }

  /**
   * Every gathered part is a chapter title or a line of the description that
   * carries one of the outline marks; with no such part there is no fallback
   * transcript.
   */
  lemma AlternativeFrom(info: Info)
    ensures forall p <- AlternativeParts(info) ::
      || Chapter(Some(p)) in info.chapters
      || (p in Split(info.description, '\n') && Mentions(LowerStr(p), OutlineMarks))
    ensures Alternative(Some(info)).None? <==> AlternativeParts(info) == []
  {
    TitlesFrom(info.chapters);
    OutlineLinesFrom(Split(info.description, '\n'));
  }

  /** The loops of `get_transcript_alternative` over the chapters and the description lines. */
  method GetTranscriptAlternative(info: Option<Info>) returns (text: Option<string>)
    ensures text == Alternative(info)
  {
    if info.None? {
      return None;
    }
    var chapters := info.value.chapters;
    var parts: seq<string> := [];
    for i := 0 to |chapters|
      invariant parts == Titles(chapters[..i])
    {
      assert chapters[..i + 1][..i] == chapters[..i];
      if chapters[i].title.Some? {
        parts := parts + [chapters[i].title.value];
      }
    }
    assert chapters[..|chapters|] == chapters;
    var description := info.value.description;
    if description != [] {
      var lines := Split(description, '\n');
      ghost var titles := parts;
      for i := 0 to |lines|
        invariant parts == titles + Collect(lines[..i], OutlineLine)
      {
        CollectStep(lines, i, OutlineLine);
        if Mentions(LowerStr(lines[i]), OutlineMarks) {
          parts := parts + [lines[i]];
        }
      }
      assert lines[..|lines|] == lines;
    } else {
      assert parts == parts + [];
    }
    assert parts == AlternativeParts(info.value);
    if parts != [] {
      return Some(Join(" ", parts));
    }
    return None;
  }

  // ---- get_video_transcript ----

  const NoTranscript: string :=
    "Could not fetch transcript. The video might not have English captions enabled or available."

  /** `success and transcript and len(transcript.strip()) > 50` */
  predicate LongEnough(attempt: Option<string>) {
    attempt.Some? && attempt.value != [] && |Strip(attempt.value)| > 50
  }

  /** The first attempt that is long enough, or the error. */
  function FirstLongEnough(attempts: seq<Option<string>>): (r: Result<string, string>)
  {
    if attempts == [] then Err(NoTranscript)
    else if LongEnough(attempts[0]) then Ok(attempts[0].value)
    else FirstLongEnough(attempts[1..])
  }

  /**
   * `get_video_transcript(video_id)`: the direct transcript when it is long
   * enough, else the fallback when it is, else the error. `direct` and
   * `alternative` are the two metadata extractions, one per method.
   */
  function VideoTranscript(direct: Option<Info>, alternative: Option<Info>, fetch: Fetch): Result<string, string>
  {
    FirstLongEnough([Direct(direct, fetch), Alternative(alternative)])
  }

  /** The error comes exactly when no attempt is long enough. */
  lemma {:induction false} FirstLongEnoughErr(attempts: seq<Option<string>>)
    ensures FirstLongEnough(attempts).Err? <==> forall k :: 0 <= k < |attempts| ==> !LongEnough(attempts[k])
    ensures FirstLongEnough(attempts).Err? ==> FirstLongEnough(attempts).error == NoTranscript
  {
    if attempts != [] && !LongEnough(attempts[0]) {
      FirstLongEnoughErr(attempts[1..]);
      assert forall k :: 1 <= k < |attempts| ==> attempts[k] == attempts[1..][k - 1];
    }
  }

  /** A transcript is the first attempt that is long enough: more than 50 characters once stripped. */
  lemma {:induction false} FirstLongEnoughOk(attempts: seq<Option<string>>)
    requires FirstLongEnough(attempts).Ok?
    ensures LongEnough(Some(FirstLongEnough(attempts).value))
    ensures exists k :: 0 <= k < |attempts| && attempts[k] == Some(FirstLongEnough(attempts).value) && FirstLongEnough(attempts[..k]).Err?
  {
    var r := FirstLongEnough(attempts);
    if LongEnough(attempts[0]) {
      assert attempts[..0] == [];
    } else {
      var rest := attempts[1..];
      FirstLongEnoughOk(rest);
      assert r == FirstLongEnough(rest);
      var k :| 0 <= k < |rest| && rest[k] == Some(r.value) && FirstLongEnough(rest[..k]).Err?;
      FirstLongEnoughPassed(attempts, k);
      assert attempts[k + 1] == rest[k];
    }
  }

  /** An attempt that is not long enough, followed by `k` more that give the error, gives the error. */
  lemma FirstLongEnoughPassed(attempts: seq<Option<string>>, k: nat)
    requires k < |attempts| - 1 && !LongEnough(attempts[0]) && FirstLongEnough(attempts[1..][..k]).Err?
    ensures FirstLongEnough(attempts[..k + 1]).Err?
  {
    var pre := attempts[..k + 1];
    assert pre[0] == attempts[0] && pre[1..] == attempts[1..][..k];
  }

  /** A direct transcript of more than 50 stripped characters is used, and the fallback is not consulted. */
  lemma DirectWins(direct: Option<Info>, alternative: Option<Info>, fetch: Fetch)
    requires LongEnough(Direct(direct, fetch))
    ensures VideoTranscript(direct, alternative, fetch) == Ok(Direct(direct, fetch).value)
  {
  }

  /** The loop over the two methods, returning at the first long enough transcript. */
  method GetVideoTranscript(attempts: seq<Option<string>>) returns (r: Result<string, string>)
    ensures r == FirstLongEnough(attempts)
  {
    for i := 0 to |attempts|
      invariant FirstLongEnough(attempts[i..]) == FirstLongEnough(attempts)
    {
      assert attempts[i..][1..] == attempts[i + 1..];
      var transcript := attempts[i];
      if transcript.Some? && transcript.value != [] && |Strip(transcript.value)| > 50 {
        return Ok(transcript.value);
      }
    }
    return Err(NoTranscript);
  }
}
