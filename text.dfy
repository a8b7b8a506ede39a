/**
 * The Python `str` operations the notes pipeline relies on, over `seq<char>`:
 * character classes, `strip`, `split`, `' '.join`, `lower` and substring tests.
 */
module Text {

  /** Python's `str.isspace()`; the `re` module's `\s` accepts the same characters. */
  predicate IsSpace(c: char) {
    c == ' ' || '\t' <= c <= '\r' || '\U{1C}' <= c <= '\U{1F}' || c == '\U{85}' || c == '\U{A0}'
    || c == '\U{1680}' || '\U{2000}' <= c <= '\U{200A}' || c == '\U{2028}' || c == '\U{2029}'
    || c == '\U{202F}' || c == '\U{205F}' || c == '\U{3000}'
  }

  predicate IsDigit(c: char) { '0' <= c <= '9' }

  /** A non-empty run of ASCII digits: `str.isdigit()` restricted to ASCII, or `[0-9]+` matched in full. */
  predicate IsDigits(s: string) { s != [] && forall k :: 0 <= k < |s| ==> IsDigit(s[k]) }

  predicate IsUpper(c: char) { 'A' <= c <= 'Z' }

  predicate IsLetter(c: char) { 'a' <= c <= 'z' || IsUpper(c) }

  /** The regular-expression class `\w`, restricted to ASCII. */
  predicate IsWordChar(c: char) { IsLetter(c) || IsDigit(c) || c == '_' }

  /** A sentence terminator, the class `[.!?]`. */
  predicate IsTerminator(c: char) { c == '.' || c == '!' || c == '?' }

  predicate NoSpace(s: string) { forall k :: 0 <= k < |s| ==> !IsSpace(s[k]) }

  /** No whitespace at either end: what `strip()` leaves behind. */
  predicate NoOuterSpace(s: string) {
    s == [] || (!IsSpace(s[0]) && !IsSpace(s[|s| - 1]))
  }

  /** Every character of `r` occurs somewhere in `s`. */
  predicate DrawnFrom(r: string, s: string) { forall x :: x in r ==> x in s }

  function Lower(c: char): (d: char)
    ensures IsUpper(c) ==> 'a' <= d <= 'z'
    ensures !IsUpper(c) ==> d == c
  {
    if IsUpper(c) then (c as int - 'A' as int + 'a' as int) as char else c
  }

  /** `str.lower()` on ASCII letters. */
  function LowerStr(s: string): (r: string)
    ensures |r| == |s|
    ensures forall k :: 0 <= k < |s| ==> r[k] == Lower(s[k])
  {
    if s == [] then [] else [Lower(s[0])] + LowerStr(s[1..])
  }

  /** The end of the run of characters satisfying `inRun` that starts at `i`. */
  function RunEnd(s: string, i: nat, inRun: char -> bool): (j: nat)
    requires i <= |s|
    ensures i <= j <= |s|
    ensures forall k :: i <= k < j ==> inRun(s[k])
    ensures j == |s| || !inRun(s[j])
    decreases |s| - i
  {
    if i == |s| || !inRun(s[i]) then i else RunEnd(s, i + 1, inRun)
  }

  /** A run that provably stops at `j` ends there. */
  lemma {:induction false} RunEndIs(s: string, i: nat, j: nat, inRun: char -> bool)
    requires i <= j <= |s|
    requires forall k :: i <= k < j ==> inRun(s[k])
    requires j == |s| || !inRun(s[j])
    ensures RunEnd(s, i, inRun) == j
    decreases j - i
  {
    if i < j {
      RunEndIs(s, i + 1, j, inRun);
    }
  }

  function StripLeft(s: string): (r: string)
    ensures |r| <= |s| && r == s[|s| - |r|..]
    ensures r == [] || !IsSpace(r[0])
    ensures forall k :: 0 <= k < |s| - |r| ==> IsSpace(s[k])
  {
    if s != [] && IsSpace(s[0]) then StripLeft(s[1..]) else s
  }

  function StripRight(s: string): (r: string)
    ensures |r| <= |s| && r == s[..|r|]
    ensures r == [] || !IsSpace(r[|r| - 1])
    ensures forall k :: |r| <= k < |s| ==> IsSpace(s[k])
  {
    if s != [] && IsSpace(s[|s| - 1]) then StripRight(s[..|s| - 1]) else s
  }

  /** The number of whitespace characters `strip()` removes at the front of `s`. */
  function LeadingSpace(s: string): (n: nat)
    ensures n == |s| - |StripLeft(s)|
  {
    |s| - |StripLeft(s)|
  }

  /** Python's `str.strip()`: the slice of `s` between its outer whitespace. */
  function Strip(s: string): (r: string)
    ensures LeadingSpace(s) + |r| <= |s| && r == s[LeadingSpace(s)..LeadingSpace(s) + |r|]
    ensures NoOuterSpace(r)
    ensures r == [] <==> forall k :: 0 <= k < |s| ==> IsSpace(s[k])
    ensures s != [] && !IsSpace(s[|s| - 1]) ==> r != [] && r[|r| - 1] == s[|s| - 1]
    ensures NoOuterSpace(s) ==> r == s
  {
    var t := StripLeft(s);
    var r := StripRight(t);
    assert t == s[|s| - |t|..] && r == t[..|r|];
    assert r == s[|s| - |t|..|s| - |t| + |r|];
    assert r == [] ==> t == [];
    r
  }

  /** `r` is `s` with some characters deleted: what a substitution by the empty string leaves. */
  predicate Subsequence<T(==)>(r: seq<T>, s: seq<T>)
    decreases |s|
  {
    r == [] || (s != [] && ((r[0] == s[0] && Subsequence(r[1..], s[1..])) || Subsequence(r, s[1..])))
  }

  lemma {:induction false} SubsequenceRefl<T>(s: seq<T>)
    ensures Subsequence(s, s)
    decreases |s|
  {
    if s != [] {
      SubsequenceRefl(s[1..]);
    }
  }

  /** Deleting a prefix of `s` keeps any subsequence of what is left a subsequence of `s`. */
  lemma {:induction false} SubsequenceDrop<T>(r: seq<T>, s: seq<T>, n: nat)
    requires n <= |s| && Subsequence(r, s[n..])
    ensures Subsequence(r, s)
    decreases n
  {
    if n > 0 {
      assert s[1..][n - 1..] == s[n..];
      SubsequenceDrop(r, s[1..], n - 1);
    }
  }

  /** Keeping the first character of `s`. */
  lemma SubsequenceKeep<T>(r: seq<T>, s: seq<T>)
    requires s != [] && Subsequence(r, s[1..])
    ensures Subsequence([s[0]] + r, s)
  {
    assert ([s[0]] + r)[1..] == r;
  }

  /** Keeping the characters of `s[i..g]` and then a subsequence of a later suffix. */
  lemma {:induction false} SubsequenceKeepSpan<T>(r: seq<T>, s: seq<T>, i: nat, g: nat, e: nat)
    requires i <= g <= e <= |s| && Subsequence(r, s[e..])
    ensures Subsequence(s[i..g] + r, s[i..])
    decreases g - i
  {
    if i == g {
      assert s[i..g] + r == r;
      assert s[i..][e - i..] == s[e..];
      SubsequenceDrop(r, s[i..], e - i);
    } else {
      SubsequenceKeepSpan(r, s, i + 1, g, e);
      assert s[i..g] + r == [s[i]] + (s[i + 1..g] + r);
      assert s[i..][1..] == s[i + 1..];
      SubsequenceKeep(s[i + 1..g] + r, s[i..]);
    }
  }

  lemma {:induction false} SubsequenceTrans<T>(a: seq<T>, b: seq<T>, c: seq<T>)
    requires Subsequence(a, b) && Subsequence(b, c)
    ensures Subsequence(a, c)
    decreases |c|
  {
    if a != [] {
      if Subsequence(b, c[1..]) {
        SubsequenceTrans(a, b, c[1..]);
      } else if a[0] == b[0] && Subsequence(a[1..], b[1..]) {
        SubsequenceTrans(a[1..], b[1..], c[1..]);
      } else {
        SubsequenceTrans(a, b[1..], c[1..]);
      }
    }
  }

  /** Stripping a string that ends in a non-space character only removes a prefix. */
  /** Word characters and sentence terminators are not whitespace. */
  lemma NotSpace(c: char)
    requires IsWordChar(c) || IsTerminator(c)
    ensures !IsSpace(c)
  {
  }

  /** The leading whitespace ends at or before the first non-space character. */
  lemma LeadingSpaceBefore(s: string, c: nat)
    requires c < |s| && !IsSpace(s[c])
    ensures LeadingSpace(s) <= c
  {
  }

  lemma StripKeepsEnd(s: string)
    requires s != [] && !IsSpace(s[|s| - 1])
    ensures LeadingSpace(s) + |Strip(s)| == |s|
    ensures Strip(s) == s[LeadingSpace(s)..|s|]
  {
    var t := StripLeft(s);
    assert t != [] && t[|t| - 1] == s[|s| - 1];
    assert StripRight(t) == t;
  }

  lemma StripDrawn(s: string)
    ensures DrawnFrom(Strip(s), s)
  {
    var r := Strip(s);
    var i := LeadingSpace(s);
    forall x | x in r ensures x in s {
      var k :| 0 <= k < |r| && r[k] == x;
      assert s[i + k] == x;
    }
  }

  /** The index of the first `c` in `s`, or `|s|` when there is none. */
  function IndexOf(s: string, c: char): (i: nat)
    ensures i <= |s|
    ensures i < |s| ==> s[i] == c
    ensures forall k :: 0 <= k < i ==> s[k] != c
  {
    if s == [] || s[0] == c then 0 else 1 + IndexOf(s[1..], c)
  }

  /** `sep.join(parts)` */
  function Join(sep: string, parts: seq<string>): string
  {
    if parts == [] then "" else if |parts| == 1 then parts[0] else parts[0] + sep + Join(sep, parts[1..])
  }

  /**
   * Joining non-empty pieces that have no outer whitespace and no `c` with single
   * spaces gives a text with neither.
   */
  lemma {:induction false} JoinSpaced(parts: seq<string>, c: char)
    requires c != ' '
    requires forall i :: 0 <= i < |parts| ==> parts[i] != [] && NoOuterSpace(parts[i]) && c !in parts[i]
    ensures NoOuterSpace(Join(" ", parts)) && c !in Join(" ", parts)
    ensures parts != [] ==> Join(" ", parts) != [] && Join(" ", parts)[0] == parts[0][0]
    ensures parts != [] ==> Join(" ", parts)[|Join(" ", parts)| - 1] == Last(parts)[|Last(parts)| - 1]
    decreases |parts|
  {
    if |parts| > 1 {
      var tail := Join(" ", parts[1..]);
      JoinSpaced(parts[1..], c);
      assert Join(" ", parts) == parts[0] + " " + tail;
      assert Last(parts[1..]) == Last(parts);
    }
  }

  /** A join opens with its first piece and closes with its last. */
  lemma {:induction false} JoinEnds(sep: string, parts: seq<string>)
    requires parts != []
    ensures var s := Join(sep, parts);
      && |parts[0]| <= |s| && s[..|parts[0]|] == parts[0]
      && |Last(parts)| <= |s| && s[|s| - |Last(parts)|..] == Last(parts)
    decreases |parts|
  {
    if |parts| > 1 {
      var tail := Join(sep, parts[1..]);
      JoinEnds(sep, parts[1..]);
      assert Join(sep, parts) == parts[0] + sep + tail;
      assert Last(parts[1..]) == Last(parts);
    }
  }

  lemma JoinCons(sep: string, p: string, rest: seq<string>)
    requires rest != []
    ensures Join(sep, [p] + rest) == p + sep + Join(sep, rest)
  {
    assert ([p] + rest)[1..] == rest;
  }

  /** `s.split(sep)` for a one-character separator: the pieces between separators, empty ones included. */
  function Split(s: string, sep: char): (parts: seq<string>)
    ensures |parts| >= 1
    ensures forall p <- parts :: sep !in p
    decreases |s|
  {
    var i := IndexOf(s, sep);
    if i == |s| then [s] else [s[..i]] + Split(s[i + 1..], sep)
  }

  /** A text is what comes before position `i`, the character there, and what follows. */
  lemma CutAt(s: string, i: nat)
    requires i < |s|
    ensures s == s[..i] + [s[i]] + s[i + 1..]
  {
    assert s[..i] + [s[i]] == s[..i + 1];
  }

  /** Splitting on a separator and joining with it again gives back the text. */
  lemma {:induction false} JoinSplit(s: string, sep: char)
    ensures Join([sep], Split(s, sep)) == s
    decreases |s|
  {
    var i := IndexOf(s, sep);
    if i < |s| {
      var head, tail := s[..i], s[i + 1..];
      assert Split(s, sep) == [head] + Split(tail, sep);
      CutAt(s, i);
      JoinSplit(tail, sep);
      JoinCons([sep], head, Split(tail, sep));
    } else {
      assert Split(s, sep) == [s];
    }
  }

  lemma IndexOfAbsent(a: string, c: char, b: string)
    requires c !in a
    ensures IndexOf(a + [c] + b, c) == |a|
    decreases |a|
  {
    if a != [] {
      assert (a + [c] + b)[1..] == a[1..] + [c] + b;
      IndexOfAbsent(a[1..], c, b);
    }
  }

  /** Joining pieces free of the separator and splitting again gives back the pieces. */
  lemma {:induction false} SplitJoin(parts: seq<string>, sep: char)
    requires |parts| >= 1
    requires forall i :: 0 <= i < |parts| ==> sep !in parts[i]
    ensures Split(Join([sep], parts), sep) == parts
    decreases |parts|
  {
    var s := Join([sep], parts);
    if |parts| == 1 {
      assert IndexOf(s, sep) == |s|;
    } else {
      var tail := Join([sep], parts[1..]);
      assert s == parts[0] + [sep] + tail;
      IndexOfAbsent(parts[0], sep, tail);
      assert s[..|parts[0]|] == parts[0];
      assert s[|parts[0]| + 1..] == tail;
      SplitJoin(parts[1..], sep);
      assert parts == [parts[0]] + parts[1..];
    }
  }

  /** The index of the first whitespace character of `s`, or `|s|`. */
  function FirstSpace(s: string): (i: nat)
    ensures i <= |s|
    ensures i < |s| ==> IsSpace(s[i])
    ensures forall k :: 0 <= k < i ==> !IsSpace(s[k])
  {
    if s == [] || IsSpace(s[0]) then 0 else 1 + FirstSpace(s[1..])
  }

  /** `s.split()`: the maximal runs of non-whitespace characters, in order. */
  function Words(s: string): (ws: seq<string>)
    ensures forall w <- ws :: w != [] && NoSpace(w)
    decreases |s|
  {
    var t := StripLeft(s);
    if t == [] then []
    else
      var i := FirstSpace(t);
      [t[..i]] + Words(t[i..])
  }

  /** Words of a single whitespace-free word */
  lemma WordsOfWord(w: string)
    requires w != [] && NoSpace(w)
    ensures Words(w) == [w]
  {
    assert StripLeft(w) == w;
    assert FirstSpace(w) == |w|;
    assert w[..|w|] == w;
    assert Words(w[|w|..]) == [];
  }

  lemma WordsStep(s: string)
    requires s != [] && !IsSpace(s[0])
    ensures Words(s) == [s[..FirstSpace(s)]] + Words(s[FirstSpace(s)..])
  {
    assert StripLeft(s) == s;
  }

  lemma WordsSkipsSpace(s: string)
    requires s != [] && IsSpace(s[0])
    ensures Words(s) == Words(s[1..])
  {
    assert StripLeft(s) == StripLeft(s[1..]);
  }

  lemma FirstSpaceOfCons(w: string, tail: string)
    requires NoSpace(w)
    ensures FirstSpace(w + " " + tail) == |w|
    decreases |w|
  {
    if w != [] {
      assert (w + " " + tail)[1..] == w[1..] + " " + tail;
      FirstSpaceOfCons(w[1..], tail);
    }
  }

  /** A whitespace-free word followed by a space is split off first. */
  lemma WordsOfCons(w: string, tail: string)
    requires w != [] && NoSpace(w)
    ensures Words(w + " " + tail) == [w] + Words(tail)
  {
    var s := w + " " + tail;
    FirstSpaceOfCons(w, tail);
    WordsStep(s);
    assert s[..|w|] == w;
    assert s[|w|..] == " " + tail;
    WordsSkipsSpace(" " + tail);
    assert (" " + tail)[1..] == tail;
  }

  /** Joining whitespace-free words with single spaces and splitting on whitespace again gives back the words. */
  lemma {:induction false} WordsOfJoin(ws: seq<string>)
    requires forall i :: 0 <= i < |ws| ==> ws[i] != [] && NoSpace(ws[i])
    ensures Words(Join(" ", ws)) == ws
  {
    if ws == [] {
    } else if |ws| == 1 {
      WordsOfWord(ws[0]);
    } else {
      var rest := ws[1..];
      var tail := Join(" ", rest);
      assert forall i :: 0 <= i < |rest| ==> rest[i] == ws[i + 1];
      WordsOfJoin(rest);
      WordsOfCons(ws[0], tail);
      assert Join(" ", ws) == ws[0] + " " + tail;
      assert ws == [ws[0]] + rest;
    }
  }

  predicate StartsWith(s: string, p: string) { |p| <= |s| && s[..|p|] == p }

  /** Python's `p in s` for strings. */
  predicate Contains(s: string, p: string)
    decreases |s|
  {
    StartsWith(s, p) || (s != [] && Contains(s[1..], p))
  }

  /** Every slice of `s` is contained in `s`. */
  lemma {:induction false} ContainsSlice(s: string, i: nat, j: nat)
    requires i <= j <= |s|
    ensures Contains(s, s[i..j])
    decreases i
  {
    if i == 0 {
      assert StartsWith(s, s[..j]);
    } else {
      var t := s[1..];
      ContainsSlice(t, i - 1, j - 1);
      assert forall k :: 0 <= k < j - i ==> t[i - 1..j - 1][k] == s[i..j][k];
      assert t[i - 1..j - 1] == s[i..j];
    }
  }

  function Last<T>(xs: seq<T>): T
    requires xs != []
  {
    xs[|xs| - 1]
  }

  function Min(a: int, b: int): int { if a <= b then a else b }

  /** `xs[:n]` */
  function Take<T>(xs: seq<T>, n: nat): (r: seq<T>)
    ensures |r| == Min(n, |xs|) && r == xs[..|r|]
  {
    if n <= |xs| then xs[..n] else xs
  }

  predicate Distinct<T(==)>(xs: seq<T>) {
    forall i, j :: 0 <= i < j < |xs| ==> xs[i] != xs[j]
  }

  /** What `f` makes of each item, concatenated in order. */
  function Collect(lines: seq<string>, f: string -> seq<string>): seq<string>
  {
    if lines == [] then [] else Collect(lines[..|lines| - 1], f) + f(Last(lines))
  }

  lemma CollectStep(lines: seq<string>, i: nat, f: string -> seq<string>)
    requires i < |lines|
    ensures Collect(lines[..i + 1], f) == Collect(lines[..i], f) + f(lines[i])
  {
    assert lines[..i + 1][..i] == lines[..i];
  }

  /**
   * `f` yields at most one value per item. `idx` lists, in increasing order,
   * exactly the positions of the items for which `f` yields a value, and `r`
   * holds those values.
   */
  predicate Picked<T, U(==)>(xs: seq<T>, f: T -> seq<U>, r: seq<U>, idx: seq<nat>) {
    && |idx| == |r|
    && (forall k :: 0 <= k < |idx| ==> idx[k] < |xs| && f(xs[idx[k]]) == [r[k]])
    && (forall i, j :: 0 <= i < j < |idx| ==> idx[i] < idx[j])
    && (forall i :: 0 <= i < |xs| && f(xs[i]) != [] ==> i in idx)
  }

  /** One more item extends the picked values and their positions. */
  lemma PickedStep<T, U>(xs: seq<T>, f: T -> seq<U>, r: seq<U>, prev: seq<nat>) returns (idx: seq<nat>)
    requires xs != [] && |f(Last(xs))| <= 1 && Picked(xs[..|xs| - 1], f, r, prev)
    ensures Picked(xs, f, r + f(Last(xs)), idx)
  {
    idx := if f(Last(xs)) != [] then prev + [|xs| - 1] else prev;
    PickedEntries(xs, f, r, prev, idx);
    PickedAll(xs, f, prev, idx);
  }

  /** The entries half of PickedStep: positions and values, in increasing order. */
  lemma PickedEntries<T, U>(xs: seq<T>, f: T -> seq<U>, r: seq<U>, prev: seq<nat>, idx: seq<nat>)
    requires xs != [] && |f(Last(xs))| <= 1 && idx == if f(Last(xs)) != [] then prev + [|xs| - 1] else prev
    requires |prev| == |r| && forall k :: 0 <= k < |prev| ==> prev[k] < |xs| - 1 && f(xs[..|xs| - 1][prev[k]]) == [r[k]]
    requires forall i, j :: 0 <= i < j < |prev| ==> prev[i] < prev[j]
    ensures |idx| == |r + f(Last(xs))|
    ensures forall k :: 0 <= k < |idx| ==> idx[k] < |xs| && f(xs[idx[k]]) == [(r + f(Last(xs)))[k]]
    ensures forall i, j :: 0 <= i < j < |idx| ==> idx[i] < idx[j]
  {
    var n := |xs| - 1;
    var r' := r + f(xs[n]);
    forall k | 0 <= k < |prev|
      ensures idx[k] == prev[k] < n && r'[k] == r[k] && f(xs[idx[k]]) == [r'[k]]
    {
      assert xs[..n][prev[k]] == xs[prev[k]];
    }
    if f(xs[n]) != [] {
      assert idx[|prev|] == n && r'[|prev|] == f(xs[n])[0];
    }
  }

  /** The completeness half of PickedStep. */
  lemma PickedAll<T, U>(xs: seq<T>, f: T -> seq<U>, prev: seq<nat>, idx: seq<nat>)
    requires xs != [] && idx == if f(Last(xs)) != [] then prev + [|xs| - 1] else prev
    requires forall i :: 0 <= i < |xs| - 1 && f(xs[..|xs| - 1][i]) != [] ==> i in prev
    ensures forall i :: 0 <= i < |xs| && f(xs[i]) != [] ==> i in idx
  {
    var n := |xs| - 1;
    forall i | 0 <= i < |xs| && f(xs[i]) != []
      ensures i in idx
    {
      if i < n {
        assert xs[..n][i] == xs[i];
        assert i in prev;
      } else {
        assert idx[|prev|] == n;
      }
    }
  }

  /** `any(keyword in s for keyword in keywords)`: a substring test, not a word test. */
  predicate Mentions(s: string, keywords: seq<string>)
  {
    keywords != [] && (Contains(s, keywords[0]) || Mentions(s, keywords[1..]))
  }

  /** A keyword anywhere in the list is enough. */
  lemma {:induction false} MentionsAny(s: string, keywords: seq<string>, k: nat)
    requires k < |keywords| && Contains(s, keywords[k])
    ensures Mentions(s, keywords)
    decreases k
  {
    if k > 0 {
      MentionsAny(s, keywords[1..], k - 1);
    }
  }

  function Upper(c: char): (d: char)
    ensures 'a' <= c <= 'z' ==> IsUpper(d)
    ensures !('a' <= c <= 'z') ==> d == c
  {
    if 'a' <= c <= 'z' then (c as int - 'a' as int + 'A' as int) as char else c
  }

  /** `s.upper()` over ASCII. */
  function UpperStr(s: string): (r: string)
    ensures |r| == |s|
    ensures forall k :: 0 <= k < |s| ==> r[k] == Upper(s[k])
  {
    if s == [] then [] else [Upper(s[0])] + UpperStr(s[1..])
  }

  /** Each line followed by a newline: text written one `...\n` at a time. */
  function Lines(ls: seq<string>): string
  {
    if ls == [] then "" else ls[0] + "\n" + Lines(ls[1..])
  }

  lemma {:induction false} LinesAppend(a: seq<string>, b: seq<string>)
    ensures Lines(a + b) == Lines(a) + Lines(b)
  {
    if a != [] {
      assert (a + b)[1..] == a[1..] + b;
      LinesAppend(a[1..], b);
    } else {
      assert a + b == b;
    }
  }

  lemma LinesPair(a: string, b: string)
    ensures Lines([a]) == a + "\n"
    ensures Lines([a, b]) == a + "\n" + b + "\n"
  {
    assert [a][1..] == [];
    assert [a, b][1..] == [b];
    assert Lines([a, b]) == a + "\n" + Lines([b]);
    Assoc(a + "\n", b, "\n");
  }

  /** Writing one more line onto text written line by line. */
  lemma LinesSnoc(prefix: string, ls: seq<string>, line: string)
    ensures prefix + Lines(ls) + (line + "\n") == prefix + Lines(ls + [line])
  {
    LinesAppend(ls, [line]);
    LinesPair(line, "");
    Assoc(prefix, Lines(ls), line + "\n");
  }

  lemma {:induction false} LinesJoin(ls: seq<string>)
    ensures Lines(ls) == Join("\n", ls + [""])
  {
    if ls != [] {
      LinesJoin(ls[1..]);
      assert ls + [""] == [ls[0]] + (ls[1..] + [""]);
      JoinCons("\n", ls[0], ls[1..] + [""]);
    }
  }

  /** Text written line by line splits back into its lines, and an empty last piece. */
  lemma LinesSplit(ls: seq<string>)
    requires forall l <- ls :: '\n' !in l
    ensures Split(Lines(ls), '\n') == ls + [""]
  {
    LinesJoin(ls);
    SplitJoin(ls + [""], '\n');
  }

  function DigitChar(d: nat): (c: char)
    requires d < 10
    ensures IsDigit(c)
  {
    ('0' as int + d) as char
  }

  /** `str(n)` for a natural number. */
  function NatStr(n: nat): (s: string)
    ensures IsDigits(s)
  {
    if n < 10 then [DigitChar(n)] else NatStr(n / 10) + [DigitChar(n % 10)]
  }

  /** `int(s)` for a string of digits. */
  function DigitsValue(s: string): nat
    requires forall k :: 0 <= k < |s| ==> IsDigit(s[k])
  {
    if s == [] then 0
    else
      var c := s[|s| - 1];
      assert IsDigit(c);
      var d: nat := c as int - '0' as int;
      10 * DigitsValue(s[..|s| - 1]) + d
  }

  /** Reading a numeral back gives the number. */
  lemma {:induction false} NatStrValue(n: nat)
    ensures DigitsValue(NatStr(n)) == n
  {
    if n >= 10 {
      NatStrValue(n / 10);
      var s := NatStr(n);
      assert s[..|s| - 1] == NatStr(n / 10);
    }
  }

  /** A prefix grows by the next element. */
  lemma PrefixStep<T>(xs: seq<T>, i: nat)
    requires i < |xs|
    ensures xs[..i + 1] == xs[..i] + [xs[i]]
  {
  }

  /** Concatenation regroups; stated once so loops over sequences of strings need not rediscover it. */
  lemma Assoc<T>(a: seq<T>, b: seq<T>, c: seq<T>)
    ensures a + b + c == a + (b + c)
  {
  }

  lemma AppendFresh<T>(xs: seq<T>, x: T)
    requires Distinct(xs) && x !in xs
    ensures Distinct(xs + [x])
  {
    var ys := xs + [x];
    forall i, j | 0 <= i < j < |ys| ensures ys[i] != ys[j] {
      assert ys[i] == xs[i];
      if j == |xs| {
        assert xs[i] in xs;
      } else {
        assert ys[j] == xs[j];
      }
    }
  }

  /** Each element once, in order of first occurrence. */
  function Dedup<T(==,!new)>(xs: seq<T>): (us: seq<T>)
    ensures |us| <= |xs|
    ensures Distinct(us)
    ensures forall x :: x in us <==> x in xs
  {
    if xs == [] then []
    else
      var init := xs[..|xs| - 1];
      var us := Dedup(init);
      assert xs == init + [Last(xs)];
      if Last(xs) in us then us else us + [Last(xs)]
  }

  /** The number of `c` characters in `s`: `len(re.findall('[c]', s))`. */
  function CountChar(s: string, c: char): nat
  {
    if s == [] then 0 else (if s[0] == c then 1 else 0) + CountChar(s[1..], c)
  }

  lemma CountCharAppend(a: string, b: string, c: char)
    ensures CountChar(a + b, c) == CountChar(a, c) + CountChar(b, c)
  {
    if a != [] {
      assert (a + b)[1..] == a[1..] + b;
      CountCharAppend(a[1..], b, c);
    } else {
      assert a + b == b;
    }
  }
}
