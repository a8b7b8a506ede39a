/**
 * The upload check of the audio processor: `allowed_file`, which accepts a file
 * name by the extension after its last dot, and the guard at the head of
 * `save_audio_file`, which refuses a missing file or a name that check rejects.
 */
module Audio {
  import opened Wrappers
  import opened Text

  /** `ALLOWED_EXTENSIONS` */
  const AllowedExtensions: set<string> := {"wav", "mp3", "ogg", "webm", "m4a"}

  /** The message of the `ValueError` the guard raises. */
  const InvalidFormat: string := "Invalid audio file format"

  /** `s.rsplit('.', 1)[1]`: what follows the last dot of `s`. */
  function AfterLastDot(s: string): (r: string)
    requires '.' in s
  {
    if s[|s| - 1] == '.' then [] else AfterLastDot(s[..|s| - 1]) + [s[|s| - 1]]
  }

  /**
   * What follows the last dot is a dot-free tail of the name, right after a dot;
   * together with `AfterDotOf` this says it is the one such tail.
   */
  lemma {:induction false} AfterLastDotTail(s: string)
    requires '.' in s
    ensures var r := AfterLastDot(s);
      && |r| < |s| && s[|s| - |r| - 1] == '.' && s[|s| - |r|..] == r && '.' !in r
  {
    if s[|s| - 1] != '.' {
      var t := s[..|s| - 1];
      assert '.' in t by {
        var k :| 0 <= k < |s| && s[k] == '.';
        assert k < |s| - 1 && t[k] == '.';
      }
      AfterLastDotTail(t);
    }
  }

  /** Splitting `stem + "." + ext` at its last dot gives back `ext` when `ext` has no dot. */
  lemma {:induction false} AfterDotOf(stem: string, ext: string)
    requires '.' !in ext
    ensures '.' in stem + "." + ext
    ensures AfterLastDot(stem + "." + ext) == ext
    decreases |ext|
  {
    var s := stem + "." + ext;
    assert s[|stem|] == '.';
    if ext != [] {
      var e := ext[..|ext| - 1];
      assert s[..|s| - 1] == stem + "." + e;
      assert s[|s| - 1] == ext[|ext| - 1];
      AfterDotOf(stem, e);
      assert e + [ext[|ext| - 1]] == ext;
    }
  }

  /** `allowed_file(filename)` */
  predicate Allowed(filename: string)
  {
    '.' in filename && LowerStr(AfterLastDot(filename)) in AllowedExtensions
  }

  /** A name `stem.ext` with a dot-free `ext` is judged by `ext` alone. */
  lemma AllowedByExt(stem: string, ext: string)
    requires '.' !in ext
    ensures Allowed(stem + "." + ext) <==> LowerStr(ext) in AllowedExtensions
  {
    AfterDotOf(stem, ext);
  }

  /** The same, for a name cut at a dot at position `k` with no dot after it. */
  lemma AllowedAt(filename: string, k: nat)
    requires k < |filename| && filename[k] == '.' && '.' !in filename[k + 1..]
    ensures Allowed(filename) <==> LowerStr(filename[k + 1..]) in AllowedExtensions
  {
    assert filename == filename[..k] + "." + filename[k + 1..];
    AllowedByExt(filename[..k], filename[k + 1..]);
  }

  /**
   * A name is accepted exactly when it can be cut as `stem.ext` with a dot-free
   * `ext` that is one of the allowed extensions once lower-cased.
   */
  lemma AllowedIff(filename: string)
    ensures Allowed(filename) <==>
      exists k :: 0 <= k < |filename| && filename[k] == '.' && '.' !in filename[k + 1..]
        && LowerStr(filename[k + 1..]) in AllowedExtensions
  {
    if Allowed(filename) {
      AfterLastDotTail(filename);
      var k := |filename| - |AfterLastDot(filename)| - 1;
      AllowedAt(filename, k);
    } else {
      forall k | 0 <= k < |filename| && filename[k] == '.' && '.' !in filename[k + 1..]
        ensures LowerStr(filename[k + 1..]) !in AllowedExtensions
      {
        AllowedAt(filename, k);
      }
    }
  }

  /** Only the last extension counts: an allowed one after another extension is accepted. */
  lemma LastExtensionCounts()
    ensures Allowed("clip.tar.mp3")
  {
    var mp3 := LowerStr("mp3");
    assert mp3[0] == 'm' && mp3[1] == 'p' && mp3[2] == '3';
    assert mp3 == "mp3";
    AllowedByExt("clip.tar", "mp3");
    assert "clip.tar" + "." + "mp3" == "clip.tar.mp3";
  }

  /** An allowed extension followed by another one is refused. */
  lemma EarlierExtensionIgnored()
    ensures !Allowed("clip.mp3.exe")
  {
    assert LowerStr("exe")[0] == 'e';
    AllowedByExt("clip.mp3", "exe");
    assert "clip.mp3" + "." + "exe" == "clip.mp3.exe";
  }

  /** The extension is compared lower-cased. */
  lemma ExtensionCaseIgnored()
    ensures Allowed("REC.WEBM")
  {
    var upper := "WEBM";
    var webm := LowerStr(upper);
    assert Lower('W') == 'w' && Lower('E') == 'e' && Lower('B') == 'b' && Lower('M') == 'm';
    assert upper[0] == 'W' && upper[1] == 'E' && upper[2] == 'B' && upper[3] == 'M';
    assert |webm| == 4 && webm[0] == 'w' && webm[1] == 'e' && webm[2] == 'b' && webm[3] == 'm';
    assert webm == "webm";
    AllowedByExt("REC", "WEBM");
    assert "REC" + "." + "WEBM" == "REC.WEBM";
  }

  /** A trailing dot or no dot at all is refused. */
  lemma NoExtensionRefused()
    ensures !Allowed("voice.") && !Allowed("recording")
  {
    AllowedByExt("voice", "");
    assert "voice" + "." + "" == "voice.";
    assert '.' !in "recording";
  }

  /**
   * The guard of `save_audio_file`: `file` is the upload's file name, or `None`
   * when no file came with the request (a file with an empty name is falsy as
   * well). The name that passes goes on to be saved.
   */
  function SaveGuard(file: Option<string>): Result<string, string>
  {
    match file
    case None => Err(InvalidFormat)
    case Some(name) => if name == [] || !Allowed(name) then Err(InvalidFormat) else Ok(name)
  }

  /** The guard lets a file through exactly when there is one and its name is allowed, and passes that name on. */
  lemma SaveGuardIff(file: Option<string>)
    ensures SaveGuard(file).Ok? <==> file.Some? && Allowed(file.value)
    ensures SaveGuard(file).Ok? ==> SaveGuard(file).value == file.value
    ensures SaveGuard(file).Err? ==> SaveGuard(file).error == InvalidFormat
  {
  }
}
