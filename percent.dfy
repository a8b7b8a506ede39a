/**
 * `urllib.parse.unquote(s, errors='replace')`, which `parse_qs` applies to the
 * name and the value of every query field. Each maximal run of ASCII
 * characters is percent-decoded to bytes (`%` and two hex digits of either
 * case make one byte, any other `%` stays as it is), and the bytes are read as
 * UTF-8, one U+FFFD standing for each maximal ill-formed part; characters
 * outside ASCII pass through unchanged.
 */
module Percent {
  import opened Text

  type Byte = b: int | 0 <= b < 0x100

  /** What an ill-formed part of the bytes decodes to. */
  const Replacement: char := '\U{FFFD}'

  predicate IsAscii(c: char) { c as int < 0x80 }

  predicate AllAscii(s: string) { forall k :: 0 <= k < |s| ==> IsAscii(s[k]) }

  predicate IsHex(c: char) { '0' <= c <= '9' || 'a' <= c <= 'f' || 'A' <= c <= 'F' }

  function HexValue(c: char): (v: nat)
    requires IsHex(c)
    ensures v < 16
  {
    if c <= '9' then c as int - '0' as int
    else if c <= 'F' then c as int - 'A' as int + 10
    else c as int - 'a' as int + 10
  }

  /** The upper-case hex digit of `n`, as `quote` writes it. */
  function HexDigit(n: nat): (c: char)
    requires n < 16
    ensures IsHex(c) && IsAscii(c) && HexValue(c) == n && c != '%'
  {
    if n < 10 then ('0' as int + n) as char else ('A' as int + n - 10) as char
  }

  // ---- unquote_to_bytes on a run of ASCII characters ----

  /** The bytes of an ASCII run, with every `%` followed by two hex digits read as one byte. */
  function PercentBytes(s: string): (b: seq<Byte>)
    requires AllAscii(s)
    ensures |b| <= |s|
    ensures s != [] ==> b != []
  {
    if s == [] then []
    else if |s| >= 3 && s[0] == '%' && IsHex(s[1]) && IsHex(s[2]) then
      [HexValue(s[1]) * 16 + HexValue(s[2])] + PercentBytes(s[3..])
    else [s[0] as int] + PercentBytes(s[1..])
  }

  // ---- bytes.decode('utf-8', errors='replace') ----

  /** The length of the character a lead byte starts; 0 for a byte that cannot start one. */
  function Width(b: Byte): (w: nat)
    ensures w <= 4
  {
    if b < 0x80 then 1
    else if 0xC2 <= b <= 0xDF then 2
    else if 0xE0 <= b <= 0xEF then 3
    else if 0xF0 <= b <= 0xF4 then 4
    else 0
  }

  /**
   * The range the `k`-th byte after the lead byte may take. The narrower
   * second bytes after E0, ED, F0 and F4 rule out overlong forms, surrogates
   * and values past U+10FFFF.
   */
  predicate Continues(lead: Byte, k: nat, b: Byte) {
    if k == 1 && lead == 0xE0 then 0xA0 <= b <= 0xBF
    else if k == 1 && lead == 0xED then 0x80 <= b <= 0x9F
    else if k == 1 && lead == 0xF0 then 0x90 <= b <= 0xBF
    else if k == 1 && lead == 0xF4 then 0x80 <= b <= 0x8F
    else 0x80 <= b <= 0xBF
  }

  /** How far, from `k`, the bytes after a valid lead byte keep fitting its character. */
  function Fit(b: seq<Byte>, k: nat): (n: nat)
    requires 1 <= k <= |b| && k <= Width(b[0])
    ensures k <= n <= |b| && n <= Width(b[0])
    ensures forall j :: k <= j < n ==> Continues(b[0], j, b[j])
    ensures n < Width(b[0]) ==> n == |b| || !Continues(b[0], n, b[n])
    decreases Width(b[0]) - k
  {
    if k < Width(b[0]) && k < |b| && Continues(b[0], k, b[k]) then Fit(b, k + 1) else k
  }

  /** The character a complete, well-formed sequence at the head of `b` encodes. */
  function CodePoint(b: seq<Byte>): char
    requires b != [] && 1 <= Width(b[0]) <= |b|
    requires forall j :: 1 <= j < Width(b[0]) ==> Continues(b[0], j, b[j])
  {
    var w := Width(b[0]);
    var b0: int := b[0];
    if w == 1 then b[0] as char
    else if w == 2 then
      var b1: int := b[1];
      assert Continues(b[0], 1, b[1]);
      ((b0 - 0xC0) * 64 + (b1 - 0x80)) as char
    else if w == 3 then
      var b1: int, b2: int := b[1], b[2];
      assert Continues(b[0], 1, b[1]) && Continues(b[0], 2, b[2]);
      ((b0 - 0xE0) * 4096 + (b1 - 0x80) * 64 + (b2 - 0x80)) as char
    else
      var b1: int, b2: int, b3: int := b[1], b[2], b[3];
      assert Continues(b[0], 1, b[1]) && Continues(b[0], 2, b[2]) && Continues(b[0], 3, b[3]);
      ((b0 - 0xF0) * 262144 + (b1 - 0x80) * 4096 + (b2 - 0x80) * 64 + (b3 - 0x80)) as char
  }

  /**
   * The bytes read as UTF-8: a well-formed sequence gives its character; a byte
   * that cannot start one, or the longest start of a sequence that breaks off,
   * gives one U+FFFD.
   */
  function Utf8Decode(b: seq<Byte>): (s: string)
    ensures |s| <= |b|
    ensures b != [] ==> s != []
    decreases |b|
  {
    if b == [] then []
    else if Width(b[0]) == 0 then [Replacement] + Utf8Decode(b[1..])
    else
      var n := Fit(b, 1);
      (if n == Width(b[0]) then [CodePoint(b)] else [Replacement]) + Utf8Decode(b[n..])
  }

  // ---- unquote ----

  /** `unquote(s)`: ASCII runs percent-decoded and read as UTF-8, other characters kept. */
  function Unquote(s: string): (r: string)
    ensures |r| <= |s|
    ensures s != [] ==> r != []
    decreases |s|
  {
    if s == [] then []
    else if !IsAscii(s[0]) then [s[0]] + Unquote(s[1..])
    else
      var e := RunEnd(s, 0, IsAscii);
      Utf8Decode(PercentBytes(s[..e])) + Unquote(s[e..])
  }

  // ---- the encoding side, as a reference ----

  /** The UTF-8 encoding of one character. */
  function Utf8Encode(c: char): (b: seq<Byte>)
    ensures 1 <= |b| == Width(b[0])
    ensures forall j :: 1 <= j < |b| ==> Continues(b[0], j, b[j])
  {
    var v := c as int;
    if v < 0x80 then [v]
    else if v < 0x800 then [0xC0 + v / 64, 0x80 + v % 64]
    else if v < 0x10000 then
      assert v / 4096 == 0 ==> v / 64 % 64 >= 32;
      assert v / 4096 == 13 ==> v / 64 % 64 < 32;
      [0xE0 + v / 4096, 0x80 + v / 64 % 64, 0x80 + v % 64]
    else
      assert v / 262144 == 0 ==> v / 4096 % 64 >= 16;
      assert v / 262144 == 4 ==> v / 4096 % 64 < 16;
      [0xF0 + v / 262144, 0x80 + v / 4096 % 64, 0x80 + v / 64 % 64, 0x80 + v % 64]
  }

  function Utf8EncodeStr(s: string): (b: seq<Byte>)
    ensures |s| <= |b|
  {
    if s == [] then [] else Utf8Encode(s[0]) + Utf8EncodeStr(s[1..])
  }

  /** A percent-encoding of every byte of the UTF-8 encoding, as `%XX`; `unquote` accepts it like the output of `quote(s, safe='')`. */
  function PercentEncode(b: seq<Byte>): (s: string)
    ensures AllAscii(s) && |s| == 3 * |b|
    ensures forall k :: 0 <= k < |s| ==> s[k] == '%' || IsHex(s[k])
  {
    if b == [] then [] else ['%', HexDigit(b[0] / 16), HexDigit(b[0] % 16)] + PercentEncode(b[1..])
  }

  function Quote(s: string): string
  {
    PercentEncode(Utf8EncodeStr(s))
  }

  // ---- properties ----

  /** The digits of a value in base 64 put back together. */
  lemma Base64Digits(v: nat)
    ensures v / 64 * 64 + v % 64 == v
    ensures v / 4096 * 64 + v / 64 % 64 == v / 64
    ensures v / 262144 * 64 + v / 4096 % 64 == v / 4096
  {
  }

  /** The character a character's encoding decodes to is the character itself. */
  lemma CodePointEncode(c: char, rest: seq<Byte>)
    ensures var b := Utf8Encode(c) + rest;
      && 1 <= Width(b[0]) <= |b|
      && (forall j :: 1 <= j < Width(b[0]) ==> Continues(b[0], j, b[j]))
      && CodePoint(b) == c
  {
    var e := Utf8Encode(c);
    var b := e + rest;
    assert forall j :: 0 <= j < |e| ==> b[j] == e[j];
    Base64Digits(c as int);
  }

  /** A character's encoding decodes back to it, and decoding goes on right after it. */
  lemma DecodeEncode(c: char, rest: seq<Byte>)
    ensures Utf8Decode(Utf8Encode(c) + rest) == [c] + Utf8Decode(rest)
  {
    var e := Utf8Encode(c);
    var b := e + rest;
    CodePointEncode(c, rest);
    assert b[|e|..] == rest;
    FitAll(b, 1);
  }

  /** Bytes that all fit the lead byte's character carry `Fit` to its full width. */
  lemma {:induction false} FitAll(b: seq<Byte>, k: nat)
    requires b != [] && 1 <= k <= Width(b[0]) <= |b|
    requires forall j :: 1 <= j < Width(b[0]) ==> Continues(b[0], j, b[j])
    ensures Fit(b, k) == Width(b[0])
    decreases Width(b[0]) - k
  {
    if k < Width(b[0]) {
      FitAll(b, k + 1);
    }
  }

  /** UTF-8 decoding undoes UTF-8 encoding. */
  lemma {:induction false} DecodeEncodeStr(s: string)
    ensures Utf8Decode(Utf8EncodeStr(s)) == s
  {
    if s != [] {
      DecodeEncode(s[0], Utf8EncodeStr(s[1..]));
      DecodeEncodeStr(s[1..]);
    }
  }

  /** Percent-decoding undoes percent-encoding. */
  lemma {:induction false} PercentRoundTrip(b: seq<Byte>)
    ensures PercentBytes(PercentEncode(b)) == b
  {
    if b != [] {
      var s := PercentEncode(b);
      assert s[3..] == PercentEncode(b[1..]);
      assert HexValue(s[1]) * 16 + HexValue(s[2]) == b[0];
      PercentRoundTrip(b[1..]);
    }
  }

  /** `unquote(quote(s, safe=''))` gives back `s`, whatever characters it holds. */
  lemma UnquoteQuote(s: string)
    ensures Unquote(Quote(s)) == s
  {
    var q := Quote(s);
    if q != [] {
      RunEndIs(q, 0, |q|, IsAscii);
      assert q[..|q|] == q && q[|q|..] == [];
      PercentRoundTrip(Utf8EncodeStr(s));
      DecodeEncodeStr(s);
    }
  }

  /** The byte values of a string of ASCII characters. */
  function AsciiBytes(s: string): (b: seq<Byte>)
    requires AllAscii(s)
    ensures |b| == |s|
  {
    if s == [] then [] else [s[0] as int] + AsciiBytes(s[1..])
  }

  /** Without a `%`, an ASCII run is its own bytes, and they decode back to it. */
  lemma {:induction false} PlainRun(s: string)
    requires AllAscii(s) && '%' !in s
    ensures PercentBytes(s) == AsciiBytes(s)
    ensures Utf8Decode(AsciiBytes(s)) == s
  {
    if s != [] {
      PlainRun(s[1..]);
      var b := AsciiBytes(s);
      assert b[1..] == AsciiBytes(s[1..]);
      assert Fit(b, 1) == 1;
    }
  }

  /** `unquote` leaves a string without `%` unchanged. */
  lemma {:induction false} UnquotePlain(s: string)
    requires '%' !in s
    ensures Unquote(s) == s
    decreases |s|
  {
    if s != [] {
      if !IsAscii(s[0]) {
        UnquotePlain(s[1..]);
      } else {
        var e := RunEnd(s, 0, IsAscii);
        var run := s[..e];
        assert '%' !in run && '%' !in s[e..];
        PlainRun(run);
        UnquotePlain(s[e..]);
        assert s == run + s[e..];
      }
    }
  }

  /** An escaped letter decodes to the letter. */
  lemma EscapedLetter()
    ensures Unquote("%76") == "v"
  {
    RunEndIs("%76", 0, 3, IsAscii);
    assert "%76"[..3] == "%76";
    assert PercentBytes("%76") == [0x76];
    assert Fit([0x76], 1) == 1;
  }

  /** Hex digits are read in either case, between plain characters. */
  lemma EscapedDash()
    ensures Unquote("a%2db") == "a-b"
  {
    var s := "a%2db";
    RunEndIs(s, 0, 5, IsAscii);
    assert s[..5] == s;
    assert PercentBytes(s[4..]) == [0x62];
    assert PercentBytes(s[1..]) == [0x2D, 0x62];
    var b: seq<Byte> := [0x61, 0x2D, 0x62];
    assert PercentBytes(s) == b;
    assert Fit(b, 1) == 1 && Fit(b[1..], 1) == 1 && Fit(b[2..], 1) == 1;
  }

  /** A byte that cannot start a character, such as a lone `%80`, decodes to U+FFFD. */
  lemma StrayByte()
    ensures Unquote("%80") == [Replacement]
  {
    RunEndIs("%80", 0, 3, IsAscii);
    assert "%80"[..3] == "%80";
    assert PercentBytes("%80") == [0x80];
  }
}
