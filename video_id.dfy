/**
 * `extract_video_id`: the YouTube video id in a URL. Five URL shapes are tried
 * in a fixed order, then the `v` query parameter of a youtube.com URL, then any
 * 11-character id after a known prefix.
 */
module VideoId {
  import opened Wrappers
  import opened Text
  import opened Percent

  /** The URL shapes, in the order they are tried. */
  datatype Shape = Watch | ShortLink | Embed | OldEmbed | Shorts

  const Shapes: seq<Shape> := [Watch, ShortLink, Embed, OldEmbed, Shorts]

  /** The literal part of each shape's pattern. */
  function Marker(p: Shape): string {
    match p
    case Watch => "youtube.com/watch?v="
    case ShortLink => "youtu.be/"
    case Embed => "youtube.com/embed/"
    case OldEmbed => "youtube.com/v/"
    case Shorts => "youtube.com/shorts/"
  }

  /** The id of a `watch?v=` URL runs up to the first `&`, every other id up to the first `?`. */
  function Stop(p: Shape): char { if p == Watch then '&' else '?' }

  /** The pattern `marker([^stop]+)` matches at `i`. */
  predicate MatchesAt(url: string, i: nat, p: Shape) {
    var m := Marker(p);
    i + |m| < |url| && url[i..i + |m|] == m && url[i + |m|] != Stop(p)
  }

  /** `re.search`: the leftmost position at or after `i` where the shape's pattern matches. */
  function SearchFrom(url: string, i: nat, p: Shape): (r: Option<nat>)
    requires i <= |url|
    ensures r.Some? ==> i <= r.value && MatchesAt(url, r.value, p)
    ensures r.Some? ==> forall j :: i <= j < r.value ==> !MatchesAt(url, j, p)
    ensures r.None? ==> forall j :: i <= j ==> !MatchesAt(url, j, p)
    decreases |url| - i
  {
    if i == |url| then None
    else if MatchesAt(url, i, p) then Some(i)
    else SearchFrom(url, i + 1, p)
  }

  /** The extent of `[^stop]*` at `i`. */
  function StopEnd(url: string, i: nat, stop: char): (j: nat)
    requires i <= |url|
    ensures i <= j <= |url|
    ensures forall k :: i <= k < j ==> url[k] != stop
    ensures j == |url| || url[j] == stop
    decreases |url| - i
  {
    if i == |url| || url[i] == stop then i else StopEnd(url, i + 1, stop)
  }

  lemma {:induction false} StopEndIs(url: string, i: nat, j: nat, stop: char)
    requires i <= j <= |url|
    requires forall k :: i <= k < j ==> url[k] != stop
    requires j == |url| || url[j] == stop
    ensures StopEnd(url, i, stop) == j
    decreases j - i
  {
    if i < j {
      StopEndIs(url, i + 1, j, stop);
    }
  }

  /**
   * The group `re.search` captures for the shape: the greedy `[^stop]+` after
   * the leftmost marker, which ends at the first stop character or at the end.
   */
  function PatternId(url: string, p: Shape): (r: Option<string>)
    ensures r.None? <==> forall j :: !MatchesAt(url, j, p)
    ensures r.Some? ==> r.value != []
  {
    match SearchFrom(url, 0, p)
    case None => None
    case Some(at) =>
      var i := at + |Marker(p)|;
      Some(url[i..StopEnd(url, i, Stop(p))])
  }

  /** The captured id is the text right after the leftmost marker, up to the first stop character or the end. */
  lemma PatternIdSpan(url: string, p: Shape)
    requires PatternId(url, p).Some?
    ensures var r := PatternId(url, p).value;
      var i := SearchFrom(url, 0, p).value + |Marker(p)|;
      && Stop(p) !in r
      && i + |r| <= |url| && url[i..i + |r|] == r
      && (i + |r| == |url| || url[i + |r|] == Stop(p))
  {
    var i := SearchFrom(url, 0, p).value + |Marker(p)|;
    var e := StopEnd(url, i, Stop(p));
    var r := url[i..e];
    assert PatternId(url, p).value == r;
    forall k | 0 <= k < |r|
      ensures r[k] != Stop(p)
    {
      assert r[k] == url[i + k];
    }
  }

  /** The first shape in `shapes` whose pattern matches, and its id. */
  function FirstPatternId(url: string, shapes: seq<Shape>): (r: Option<string>)
    ensures r.Some? ==> exists k :: 0 <= k < |shapes| && r == PatternId(url, shapes[k])
    ensures forall k :: (0 <= k < |shapes| && PatternId(url, shapes[k]).Some?
      && (forall j :: 0 <= j < k ==> PatternId(url, shapes[j]).None?)) ==> r == PatternId(url, shapes[k])
    ensures (forall k :: 0 <= k < |shapes| ==> PatternId(url, shapes[k]).None?) ==> r.None?
  {
    if shapes == [] then None
    else
      match PatternId(url, shapes[0])
      case Some(id) => Some(id)
      case None =>
        var r := FirstPatternId(url, shapes[1..]);
        assert forall k :: 1 <= k < |shapes| ==> shapes[k] == shapes[1..][k - 1];
        r
  }

  // ---- urllib.parse: urlparse(url).netloc and parse_qs(urlparse(url).query) ----

  /** What `urlsplit` trims at the front: C0 control characters and space. */
  predicate IsC0OrSpace(c: char) { c <= ' ' }

  /** `urlsplit` first drops leading controls and spaces, then every tab, CR and LF. */
  function Sanitize(url: string): (r: string)
    ensures '\t' !in r && '\r' !in r && '\n' !in r
  {
    var t := url[RunEnd(url, 0, IsC0OrSpace)..];
    RemoveTabsAndBreaks(t)
  }

  function RemoveTabsAndBreaks(s: string): (r: string)
    ensures '\t' !in r && '\r' !in r && '\n' !in r
  {
    if s == [] then []
    else if s[0] == '\t' || s[0] == '\r' || s[0] == '\n' then RemoveTabsAndBreaks(s[1..])
    else [s[0]] + RemoveTabsAndBreaks(s[1..])
  }

  predicate IsSchemeChar(c: char) { IsLetter(c) || IsDigit(c) || c == '+' || c == '-' || c == '.' }

  /** The part of a sanitized URL after `scheme:`, or all of it when it has no scheme. */
  function AfterScheme(u: string): (r: string)
    ensures |r| <= |u|
  {
    var i := IndexOf(u, ':');
    if 0 < i < |u| && IsLetter(u[0]) && RunEnd(u, 0, IsSchemeChar) >= i then u[i + 1..] else u
  }

  predicate IsNetlocEnd(c: char) { c == '/' || c == '?' || c == '#' }

  predicate NotNetlocEnd(c: char) { !IsNetlocEnd(c) }

  /** `(netloc, rest)`: the authority after a leading `//`, up to the first `/`, `?` or `#`. */
  function SplitNetloc(u: string): (string, string)
  {
    if |u| >= 2 && u[..2] == "//" then
      var e := RunEnd(u, 2, NotNetlocEnd);
      (u[2..e], u[e..])
    else ("", u)
  }

  /** `urlparse(url).netloc` */
  function Netloc(url: string): string {
    SplitNetloc(AfterScheme(Sanitize(url))).0
  }

  /** `urlparse(url).query`: after the netloc, drop the fragment, then take what follows the first `?`. */
  function Query(url: string): (q: string)
    ensures '#' !in q
  {
    var rest := SplitNetloc(AfterScheme(Sanitize(url))).1;
    var beforeFragment := rest[..IndexOf(rest, '#')];
    var i := IndexOf(beforeFragment, '?');
    if i < |beforeFragment| then beforeFragment[i + 1..] else ""
  }

  function PlusToSpace(s: string): (r: string)
    ensures |r| == |s|
  {
    if s == [] then [] else [if s[0] == '+' then ' ' else s[0]] + PlusToSpace(s[1..])
  }

  /** `+` reads as a space in a query; a string without `+` is left as it is. */
  lemma {:induction false} PlusFree(s: string)
    requires '+' !in s
    ensures PlusToSpace(s) == s
  {
    if s != [] {
      PlusFree(s[1..]);
    }
  }

  /**
   * `parse_qs(query)['v'][0]`: the first `&`-separated field whose name is `v`
   * and whose value is not empty (fields without `=` or with an empty value are
   * dropped). Name and value have `+` read as a space and are then unquoted,
   * so an escaped name such as `%76` counts as `v`.
   */
  function FirstV(fields: seq<string>): (r: Option<string>)
    ensures r.Some? ==> r.value != []
  {
    if fields == [] then None
    else if IsV(fields[0]) then Some(FieldValue(fields[0]))
    else FirstV(fields[1..])
  }

  /** The field has an `=` with a non-empty raw value after it, and its name reads as `v`. */
  predicate IsV(f: string) {
    var eq := IndexOf(f, '=');
    eq + 1 < |f| && Unquote(PlusToSpace(f[..eq])) == "v"
  }

  /** The value of a field that has an `=` with something after it, `+` read as a space and unquoted. */
  function FieldValue(f: string): (v: string)
    requires IsV(f)
    ensures v != []
  {
    var eq := IndexOf(f, '=');
    Unquote(PlusToSpace(f[eq + 1..]))
  }

  /**
   * `parse_qs(query)['v'][0]` is the value of the first field that reads as `v`:
   * earlier fields are skipped, and there is none exactly when no field reads as `v`.
   */
  lemma {:induction false} FirstVFirst(fields: seq<string>)
    ensures FirstV(fields).None? <==> forall k :: 0 <= k < |fields| ==> !IsV(fields[k])
    ensures FirstV(fields).Some? ==>
      exists k :: (0 <= k < |fields| && IsV(fields[k])
        && (forall j :: 0 <= j < k ==> !IsV(fields[j])) && FirstV(fields).value == FieldValue(fields[k]))
  {
    if fields != [] && !IsV(fields[0]) {
      var rest := fields[1..];
      FirstVFirst(rest);
      forall j | 1 <= j < |fields| ensures fields[j] == rest[j - 1] {}
      if FirstV(rest).Some? {
        var k :| 0 <= k < |rest| && IsV(rest[k]) && (forall j :: 0 <= j < k ==> !IsV(rest[j]))
          && FirstV(rest).value == FieldValue(rest[k]);
        assert IsV(fields[k + 1]) && forall j :: 0 <= j < k + 1 ==> !IsV(fields[j]);
      }
    }
  }

  /**
   * A field whose name unquotes to `v` and whose value is a quoted id gives
   * that id back, whatever fields follow.
   */
  lemma FirstVQuoted(name: string, id: string, rest: seq<string>)
    requires '=' !in name && Unquote(PlusToSpace(name)) == "v" && id != []
    ensures FirstV([name + "=" + Quote(id)] + rest) == Some(id)
  {
    var q := Quote(id);
    var f := name + "=" + q;
    IndexOfAbsent(name, '=', q);
    assert f[..|name|] == name && f[|name| + 1..] == q;
    PlusFree(q);
    UnquoteQuote(id);
  }

  /** The field names `v` and `%76` both read as `v`. */
  lemma NamesOfV()
    ensures Unquote(PlusToSpace("v")) == "v"
    ensures Unquote(PlusToSpace("%76")) == "v"
  {
    UnquotePlain("v");
    PlusFree("v");
    EscapedLetter();
    PlusFree("%76");
  }

  /** A quoted id under the name `v`, plain or escaped, comes back. */
  lemma FirstVNames(id: string, rest: seq<string>)
    requires id != []
    ensures FirstV(["v=" + Quote(id)] + rest) == Some(id)
    ensures FirstV(["%76=" + Quote(id)] + rest) == Some(id)
  {
    NamesOfV();
    assert "v" + "=" == "v=" && "%76" + "=" == "%76=";
    FirstVQuoted("v", id, rest);
    FirstVQuoted("%76", id, rest);
  }

  /** What `urlsplit` raises on a host part with an unbalanced bracket. */
  const InvalidIPv6: string := "Invalid IPv6 URL"

  /** A `[` without a `]`, or a `]` without a `[`. */
  predicate BadBrackets(netloc: string) {
    ('[' in netloc && ']' !in netloc) || (']' in netloc && '[' !in netloc)
  }

  /**
   * The `v` query parameter of a URL whose host part mentions youtube.com;
   * `urlparse` raises first when the host part has an unbalanced bracket.
   */
  function QueryId(url: string): (r: Result<Option<string>, string>)
    ensures r.Err? <==> BadBrackets(Netloc(url))
    ensures r.Err? ==> r.error == InvalidIPv6
    ensures r.Ok? && r.value.Some? ==> r.value.value != [] && Contains(Netloc(url), "youtube.com")
  {
    var netloc := Netloc(url);
    if BadBrackets(netloc) then Err(InvalidIPv6)
    else if Contains(netloc, "youtube.com") then Ok(FirstV(Split(Query(url), '&')))
    else Ok(None)
  }

  /**
   * Without a parse error, the id from the query string is the value of the
   * first `&`-separated field that reads as `v`, and there is none exactly when
   * the host part lacks `youtube.com` or no field reads as `v`.
   */
  lemma QueryIdField(url: string)
    requires !BadBrackets(Netloc(url))
    ensures var fields := Split(Query(url), '&');
      QueryId(url) == Ok(None) <==>
        !Contains(Netloc(url), "youtube.com") || forall k :: 0 <= k < |fields| ==> !IsV(fields[k])
    ensures var fields := Split(Query(url), '&');
      QueryId(url).Ok? && QueryId(url).value.Some? ==>
        exists k :: (0 <= k < |fields| && IsV(fields[k]) && (forall j :: 0 <= j < k ==> !IsV(fields[j]))
          && QueryId(url).value.value == FieldValue(fields[k]))
  {
    FirstVFirst(Split(Query(url), '&'));
  }

  // ---- the last resort: (?:v=|be/|embed/|v/|shorts/)([\w\-_]{11}) ----

  const TokenPrefixes: seq<string> := ["v=", "be/", "embed/", "v/", "shorts/"]

  predicate IsIdChar(c: char) { IsWordChar(c) || c == '-' }

  predicate IdCharsAt(url: string, i: nat) {
    i + 11 <= |url| && forall k :: i <= k < i + 11 ==> IsIdChar(url[k])
  }

  /** The prefix `p` occurs at `i` and is followed by eleven id characters. */
  predicate TokenMatch(url: string, i: nat, p: string) {
    i + |p| <= |url| && url[i..i + |p|] == p && IdCharsAt(url, i + |p|)
  }

  /** The first prefix, in the order written, that matches at `i`, and the eleven characters after it. */
  function TokenAt(url: string, i: nat, prefixes: seq<string>): (r: Option<string>)
    requires i <= |url|
    ensures r.Some? ==> |r.value| == 11 && forall c <- r.value :: IsIdChar(c)
  {
    if prefixes == [] then None
    else
      var p := prefixes[0];
      if TokenMatch(url, i, p) then Some(url[i + |p|..i + |p| + 11])
      else TokenAt(url, i, prefixes[1..])
  }

  /** `re.search`: the token at the leftmost position where one of the prefixes matches. */
  function TokenSearch(url: string, i: nat, prefixes: seq<string>): (r: Option<string>)
    requires i <= |url|
    ensures r.Some? ==> |r.value| == 11 && forall c <- r.value :: IsIdChar(c)
    decreases |url| - i
  {
    if i == |url| then None
    else
      match TokenAt(url, i, prefixes)
      case Some(id) => Some(id)
      case None => TokenSearch(url, i + 1, prefixes)
  }

  /**
   * At one position the prefixes are tried in the order written: some token is
   * found exactly when some prefix matches, and it is the eleven characters
   * after the first prefix that does.
   */
  lemma {:induction false} TokenAtFirst(url: string, i: nat, prefixes: seq<string>)
    requires i <= |url|
    ensures TokenAt(url, i, prefixes).Some? <==> exists k :: 0 <= k < |prefixes| && TokenMatch(url, i, prefixes[k])
    ensures forall k :: (0 <= k < |prefixes| && TokenMatch(url, i, prefixes[k])
      && (forall j :: 0 <= j < k ==> !TokenMatch(url, i, prefixes[j]))) ==>
      TokenAt(url, i, prefixes) == Some(url[i + |prefixes[k]|..i + |prefixes[k]| + 11])
  {
    if prefixes != [] && !TokenMatch(url, i, prefixes[0]) {
      var rest := prefixes[1..];
      TokenAtFirst(url, i, rest);
      assert forall k :: 1 <= k < |prefixes| ==> prefixes[k] == rest[k - 1];
    }
  }

  /** No position from `i` up to `j` has a token. */
  predicate NoTokenBetween(url: string, i: nat, j: nat, prefixes: seq<string>)
    requires j <= |url|
  {
    forall k :: i <= k < j ==> TokenAt(url, k, prefixes).None?
  }

  /**
   * The search answers with the token at the leftmost position where one
   * matches, and with nothing exactly when no position has one.
   */
  lemma {:induction false} TokenSearchLeftmost(url: string, i: nat, prefixes: seq<string>)
    requires i <= |url|
    ensures TokenSearch(url, i, prefixes).Some? ==>
      exists j :: i <= j < |url| && TokenSearch(url, i, prefixes) == TokenAt(url, j, prefixes) && NoTokenBetween(url, i, j, prefixes)
    ensures TokenSearch(url, i, prefixes).None? <==> NoTokenBetween(url, i, |url|, prefixes)
    decreases |url| - i
  {
    if i < |url| {
      if TokenAt(url, i, prefixes).None? {
        TokenSearchLeftmost(url, i + 1, prefixes);
        assert TokenSearch(url, i, prefixes) == TokenSearch(url, i + 1, prefixes);
        if TokenSearch(url, i, prefixes).Some? {
          var j :| i + 1 <= j < |url| && TokenSearch(url, i + 1, prefixes) == TokenAt(url, j, prefixes) && NoTokenBetween(url, i + 1, j, prefixes);
          assert NoTokenBetween(url, i, j, prefixes);
        }
      } else {
        assert TokenSearch(url, i, prefixes) == TokenAt(url, i, prefixes);
        assert NoTokenBetween(url, i, i, prefixes);
      }
    }
  }

  /**
   * `extract_video_id(url)`. The five shapes are tried in order and the first that
   * matches decides; only when none matches is the URL parsed, which raises on an
   * unbalanced bracket in the host part, and then the query parameter and the
   * 11-character token count. An id that comes back is never empty, so `Ok(None)`
   * is the only answer the caller reads as "Invalid YouTube URL".
   */
  function ExtractVideoId(url: string): (id: Result<Option<string>, string>)
    ensures id.Ok? && id.value.Some? ==> id.value.value != []
    ensures forall k :: (0 <= k < |Shapes| && PatternId(url, Shapes[k]).Some?
      && (forall j :: 0 <= j < k ==> PatternId(url, Shapes[j]).None?)) ==> id == Ok(PatternId(url, Shapes[k]))
    ensures (forall k :: 0 <= k < |Shapes| ==> PatternId(url, Shapes[k]).None?) ==>
      id == (if QueryId(url) == Ok(None) then Ok(TokenSearch(url, 0, TokenPrefixes)) else QueryId(url))
    ensures id.Err? ==> id.error == InvalidIPv6 && BadBrackets(Netloc(url))
  {
    match FirstPatternId(url, Shapes)
    case Some(id) => Ok(Some(id))
    case None =>
      match QueryId(url)
      case Err(e) => Err(e)
      case Ok(Some(id)) => Ok(Some(id))
      case Ok(None) => Ok(TokenSearch(url, 0, TokenPrefixes))
  }

  /** A pattern cannot match where its first character is missing. */
  lemma NoMatchBefore(url: string, p: Shape, n: nat)
    requires n <= |url|
    requires Marker(p)[0] !in url[..n]
    ensures forall j: nat :: j < n ==> !MatchesAt(url, j, p)
  {
  }

  /** The search finds the first position where the pattern matches. */
  lemma SearchFinds(url: string, p: Shape, at: nat)
    requires MatchesAt(url, at, p)
    requires forall j: nat :: j < at ==> !MatchesAt(url, j, p)
    ensures SearchFrom(url, 0, p) == Some(at)
  {
  }

  /** The three parts of `a + b + c` are where they were put. */
  lemma Parts<T>(a: seq<T>, b: seq<T>, c: seq<T>)
    ensures var s := a + b + c;
      && s[..|a|] == a && s[|a|..|a| + |b|] == b && s[|a| + |b|..] == c
  {
  }

  /** How a `watch?v=` URL is laid out. */
  lemma WatchLayout(id: string, rest: string)
    ensures var url := "https://www.youtube.com/watch?v=" + id + rest;
      && |url| == 32 + |id| + |rest|
      && url[..12] == "https://www." && url[12..32] == Marker(Watch)
      && url[32..32 + |id|] == id && url[32 + |id|..] == rest
  {
    var head := "https://www.youtube.com/watch?v=";
    var url := head + id + rest;
    Parts(head, id, rest);
    assert head[..12] == "https://www." && head[12..] == Marker(Watch);
    assert url[..12] == url[..32][..12];
    assert url[12..32] == url[..32][12..];
  }

  /** The `watch?v=` pattern captures the text between `v=` and the next `&`. */
  lemma WatchPattern(id: string, rest: string)
    requires id != [] && '&' !in id && (rest == [] || rest[0] == '&')
    ensures PatternId("https://www.youtube.com/watch?v=" + id + rest, Watch) == Some(id)
  {
    var url := "https://www.youtube.com/watch?v=" + id + rest;
    WatchLayout(id, rest);
    assert url[32] == url[32..32 + |id|][0];
    NoMatchBefore(url, Watch, 12);
    SearchFinds(url, Watch, 12);
    forall k | 32 <= k < 32 + |id|
      ensures url[k] != '&'
    {
      assert url[k] == url[32..32 + |id|][k - 32];
    }
    if rest != [] {
      assert url[32 + |id|] == url[32 + |id|..][0];
    }
    StopEndIs(url, 32, 32 + |id|, '&');
  }

  /** A `watch?v=` URL yields the text between `v=` and the next `&`, whatever follows. */
  lemma WatchUrl(id: string, rest: string)
    requires id != [] && '&' !in id && (rest == [] || rest[0] == '&')
    ensures ExtractVideoId("https://www.youtube.com/watch?v=" + id + rest) == Ok(Some(id))
  {
    WatchPattern(id, rest);
    assert Shapes[0] == Watch;
  }

  /** A pattern cannot match a URL that lacks one of its characters. */
  lemma AbsentCharNoMatch(url: string, p: Shape, o: nat)
    requires o < |Marker(p)| && Marker(p)[o] !in url
    ensures PatternId(url, p).None?
  {
  }

  lemma NoQuestionMark(id: string)
    requires forall k :: 0 <= k < |id| ==> IsIdChar(id[k])
    ensures '?' !in "https://youtu.be/" + id
  {
    var url := "https://youtu.be/" + id;
    forall k | 0 <= k < |url| ensures url[k] != '?' {
      if k >= 17 {
        assert url[k] == id[k - 17];
      }
    }
  }

  /** A `youtu.be/` URL with an id of word characters and dashes yields that id. */
  lemma ShortLinkUrl(id: string)
    requires id != [] && forall k :: 0 <= k < |id| ==> IsIdChar(id[k])
    ensures ExtractVideoId("https://youtu.be/" + id) == Ok(Some(id))
  {
    var url := "https://youtu.be/" + id;
    NoQuestionMark(id);
    AbsentCharNoMatch(url, Watch, 17);
    assert url[..8] == "https://";
    assert url[8..17] == Marker(ShortLink);
    NoMatchBefore(url, ShortLink, 8);
    SearchFinds(url, ShortLink, 8);
    PatternIdSpan(url, ShortLink);
    var v := PatternId(url, ShortLink).value;
    assert 17 + |v| == |url|;
    assert v == id;
    assert FirstPatternId(url, Shapes) == Some(id);
  }

  /** None of the five shapes occurs in a URL without a `y`. */
  lemma NoShapeWithoutY(url: string)
    requires 'y' !in url
    ensures forall p: Shape :: PatternId(url, p).None?
    ensures FirstPatternId(url, Shapes).None?
  {
    forall p: Shape
      ensures PatternId(url, p).None?
    {
      AbsentCharNoMatch(url, p, 0);
    }
  }

  /**
   * A URL that none of the shapes matches is parsed, and an unbalanced bracket
   * in its host part makes the parser raise before the query is looked at.
   */
  lemma BracketRaises(url: string)
    requires forall k :: 0 <= k < |Shapes| ==> PatternId(url, Shapes[k]).None?
    requires BadBrackets(Netloc(url))
    ensures ExtractVideoId(url) == Err(InvalidIPv6)
  {
  }

  /** A URL without a `y` matches none of the shapes, so a bad bracket in its host part raises. */
  lemma BracketRaisesWithoutY(url: string)
    requires 'y' !in url && BadBrackets(Netloc(url))
    ensures ExtractVideoId(url) == Err(InvalidIPv6)
  {
    NoShapeWithoutY(url);
    BracketRaises(url);
  }
}
