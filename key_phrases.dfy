/**
 * `extract_key_phrases`: the most frequent long words of a transcript, each
 * illustrated by the first sentence that mentions it.
 */
module KeyPhrases {
  import opened Wrappers
  import opened Text
  import opened Scan
  import opened Tokens

  /** The words never counted as key words. */
  const StopWords: set<string> := {
    "the", "a", "an", "and", "or", "but", "in", "on", "at", "to", "for", "of", "with", "by",
    "is", "are", "was", "were", "be", "been", "being", "have", "has", "had", "do", "does",
    "did", "will", "would", "shall", "should", "may", "might", "must", "can", "could",
    "i", "you", "he", "she", "it", "we", "they", "me", "him", "her", "us", "them",
    "my", "your", "his", "its", "our", "their", "this", "that", "these", "those",
    "am", "so", "then", "than", "just", "also", "very",
    "what", "which", "who", "whom", "whose", "where", "when", "why", "how",
    "all", "any", "both", "each", "few", "more", "most", "other", "some", "such",
    "no", "nor", "not", "only", "own", "same", "too", "s", "t",
    "don", "don't", "now", "d", "ll", "m", "o", "re", "ve", "y", "ain",
    "aren", "aren't", "couldn", "couldn't", "didn", "didn't", "doesn", "doesn't",
    "hadn", "hadn't", "hasn", "hasn't", "haven", "haven't", "isn", "isn't",
    "ma", "mightn", "mightn't", "mustn", "mustn't", "needn", "needn't", "shan",
    "shan't", "shouldn", "shouldn't", "wasn", "wasn't", "weren", "weren't",
    "won", "won't", "wouldn", "wouldn't"
  }

  /** The words that are not stop words, in order. */
  function DropStopWords(ws: seq<string>, stop: set<string>): (r: seq<string>)
    ensures |r| <= |ws|
    ensures forall w :: w in r <==> w in ws && w !in stop
  {
    if ws == [] then []
    else if ws[0] in stop then DropStopWords(ws[1..], stop)
    else [ws[0]] + DropStopWords(ws[1..], stop)
  }

  /** The words counted: the long words of the lower-cased text that are not stop words. */
  function Candidates(text: string): (ws: seq<string>)
    ensures forall w <- ws :: |w| >= 4 && IsAlpha(w)
  {
    DropStopWords(FindAll(LowerStr(text), LongWord), StopWords)
  }

  /** The candidates are exactly the long words of the lower-cased text that are not stop words. */
  lemma CandidateWords(text: string)
    ensures forall w :: w in Candidates(text) <==> w in FindAll(LowerStr(text), LongWord) && w !in StopWords
  {
  }

  /** How often `w` occurs in `ws`: `Counter(ws)[w]`. */
  function Freq(ws: seq<string>, w: string): nat { multiset(ws)[w] }

  /** Most frequent first. */
  predicate Ranked(ws: seq<string>, rs: seq<string>) {
    forall i, j :: 0 <= i < j < |rs| ==> Freq(ws, rs[i]) >= Freq(ws, rs[j])
  }

  /** Puts `w` after every word of `rs` counted at least as often, so that ties keep their order. */
  function Insert(ws: seq<string>, w: string, rs: seq<string>): (r: seq<string>)
    ensures multiset(r) == multiset(rs) + multiset{w}
  {
    if rs == [] then [w]
    else if Freq(ws, rs[0]) >= Freq(ws, w) then
      assert rs == [rs[0]] + rs[1..];
      [rs[0]] + Insert(ws, w, rs[1..])
    else
      [w] + rs
  }

  lemma {:induction false} InsertRanked(ws: seq<string>, w: string, rs: seq<string>)
    requires Ranked(ws, rs)
    ensures Ranked(ws, Insert(ws, w, rs))
    decreases |rs|
  {
    if rs != [] && Freq(ws, rs[0]) >= Freq(ws, w) {
      var tail := Insert(ws, w, rs[1..]);
      InsertRanked(ws, w, rs[1..]);
      forall x <- tail ensures Freq(ws, rs[0]) >= Freq(ws, x) {
        assert x in multiset(tail);
        assert x in rs[1..] || x == w;
      }
      ConsRanked(ws, rs[0], tail);
    } else if rs != [] {
      forall x <- rs ensures Freq(ws, w) >= Freq(ws, x) {
        assert x == rs[0] || Freq(ws, rs[0]) >= Freq(ws, x);
      }
      ConsRanked(ws, w, rs);
    }
  }

  /** A word counted at least as often as every word of a ranked list can go in front of it. */
  lemma ConsRanked(ws: seq<string>, h: string, tail: seq<string>)
    requires Ranked(ws, tail)
    requires forall x <- tail :: Freq(ws, h) >= Freq(ws, x)
    ensures Ranked(ws, [h] + tail)
  {
    var r := [h] + tail;
    forall i, j | 0 <= i < j < |r| ensures Freq(ws, r[i]) >= Freq(ws, r[j]) {
      assert r[j] == tail[j - 1];
      if i > 0 {
        assert r[i] == tail[i - 1];
      }
    }
  }

  /** The stable sort of `us` by falling frequency in `ws`. */
  function Rank(ws: seq<string>, us: seq<string>): (rs: seq<string>)
    ensures multiset(rs) == multiset(us)
    ensures Ranked(ws, rs)
  {
    if us == [] then []
    else
      var init := us[..|us| - 1];
      assert us == init + [Last(us)];
      InsertRanked(ws, Last(us), Rank(ws, init));
      Insert(ws, Last(us), Rank(ws, init))
  }

  /**
   * `[w for w, _ in Counter(ws).most_common()]`: every distinct word once, most
   * frequent first; the counter's keys are in order of first occurrence, and
   * the sort is stable.
   */
  function MostCommon(ws: seq<string>): (rs: seq<string>)
    ensures Ranked(ws, rs)
    ensures multiset(rs) == multiset(Dedup(ws))
  {
    Rank(ws, Dedup(ws))
  }

  /** `common_words[:n]`, where `common_words` holds the `2 * n` most common words. */
  function TopWords(candidates: seq<string>, n: nat): (top: seq<string>)
    ensures |top| <= n
    ensures forall w <- top :: w in candidates
  {
    var ranked := MostCommon(candidates);
    var top := Take(Take(ranked, 2 * n), n);
    assert forall w <- top :: w in multiset(ranked);
    top
  }

  /** `' '.join(sentence.split()[:15])` */
  function Clipped(sentence: string): (c: string)
    ensures |Words(c)| <= 15
  {
    var ws := Take(Words(sentence), 15);
    assert forall k :: 0 <= k < |ws| ==> ws[k] in Words(sentence);
    WordsOfJoin(ws);
    Join(" ", ws)
  }

  /** What a kept phrase looks like. */
  predicate IsPhrase(p: string) { |p| > 20 && |Words(p)| <= 15 }

  /**
   * The phrase the sentence loop settles on for `word`: the clipped form of the
   * first sentence mentioning it whose clipped form is long enough and not
   * kept already.
   */
  function PhraseFor(word: string, sentences: seq<string>, kept: seq<string>): (r: Option<string>)
    ensures r.Some? ==> IsPhrase(r.value) && r.value !in kept
  {
    if sentences == [] then None
    else if Qualifies(word, sentences[0], kept) then Some(Clipped(sentences[0]))
    else PhraseFor(word, sentences[1..], kept)
  }

  /** The sentence mentions `word`, and its clipped form is non-empty, longer than 20 characters and not kept yet. */
  predicate Qualifies(word: string, sentence: string, kept: seq<string>) {
    Contains(LowerStr(sentence), word) && Clipped(sentence) != [] && |Clipped(sentence)| > 20 && Clipped(sentence) !in kept
  }

  /** The loop finds nothing exactly when no sentence qualifies. */
  lemma {:induction false} PhraseForNone(word: string, sentences: seq<string>, kept: seq<string>)
    ensures PhraseFor(word, sentences, kept).None? <==> forall k :: 0 <= k < |sentences| ==> !Qualifies(word, sentences[k], kept)
  {
    if sentences != [] && !Qualifies(word, sentences[0], kept) {
      var rest := sentences[1..];
      PhraseForNone(word, rest, kept);
      assert forall j :: 1 <= j < |sentences| ==> sentences[j] == rest[j - 1];
    }
  }

  /** The loop breaks at the first qualifying sentence, and the phrase is that sentence's clipped form. */
  lemma PhraseForFirst(word: string, sentences: seq<string>, kept: seq<string>)
    requires PhraseFor(word, sentences, kept).Some?
    ensures exists k :: FirstQualifying(word, sentences, kept, k, PhraseFor(word, sentences, kept).value)
  {
    var k := FirstAt(word, sentences, kept);
  }

  /** The index of the sentence PhraseFor settles on. */
  lemma {:induction false} FirstAt(word: string, sentences: seq<string>, kept: seq<string>) returns (k: nat)
    requires PhraseFor(word, sentences, kept).Some?
    ensures FirstQualifying(word, sentences, kept, k, PhraseFor(word, sentences, kept).value)
  {
    if Qualifies(word, sentences[0], kept) {
      k := 0;
    } else {
      var i := FirstAt(word, sentences[1..], kept);
      NoneQualifyBefore(word, sentences, kept, i);
      k := i + 1;
    }
  }

  /** A non-qualifying head followed by `i` non-qualifying sentences gives `i + 1` of them. */
  lemma NoneQualifyBefore(word: string, sentences: seq<string>, kept: seq<string>, i: nat)
    requires i < |sentences| - 1 && !Qualifies(word, sentences[0], kept)
    requires forall j :: 0 <= j < i ==> !Qualifies(word, sentences[1..][j], kept)
    ensures forall j :: 0 <= j < i + 1 ==> !Qualifies(word, sentences[j], kept)
  {
    forall j | 0 < j < i + 1 ensures !Qualifies(word, sentences[j], kept) {
      assert sentences[j] == sentences[1..][j - 1];
    }
  }

  /** Sentence `k` is the first that qualifies, and `r` is its clipped form. */
  predicate FirstQualifying(word: string, sentences: seq<string>, kept: seq<string>, k: int, r: string) {
    0 <= k < |sentences| && Qualifies(word, sentences[k], kept)
    && (forall j {:trigger Qualifies(word, sentences[j], kept)} :: 0 <= j < k ==> !Qualifies(word, sentences[j], kept))
    && r == Clipped(sentences[k])
  }

  /** The phrase found for `word` is the clipped form of a sentence that mentions it. */
  lemma {:induction false} PhraseForSource(word: string, sentences: seq<string>, kept: seq<string>)
    requires PhraseFor(word, sentences, kept).Some?
    ensures exists k :: 0 <= k < |sentences| && PhraseFor(word, sentences, kept).value == Clipped(sentences[k])
                        && Contains(LowerStr(sentences[k]), word)
  {
    if !Qualifies(word, sentences[0], kept) {
      PhraseForSource(word, sentences[1..], kept);
      var k :| 0 <= k < |sentences| - 1 && PhraseFor(word, sentences[1..], kept).value == Clipped(sentences[1..][k])
               && Contains(LowerStr(sentences[1..][k]), word);
      assert sentences[1..][k] == sentences[k + 1];
    }
  }

  /** The word loop: one phrase at most for each word, in the order of `words`. */
  function PhrasesFrom(words: seq<string>, sentences: seq<string>, kept: seq<string>): (r: seq<string>)
    ensures |kept| <= |r| <= |kept| + |words|
    decreases |words|
  {
    if words == [] then kept
    else
      match PhraseFor(words[0], sentences, kept)
      case Some(p) => PhrasesFrom(words[1..], sentences, kept + [p])
      case None => PhrasesFrom(words[1..], sentences, kept)
  }

  /** Each word adds a phrase not kept yet, so the phrases stay distinct. */
  lemma {:induction false} PhrasesDistinct(words: seq<string>, sentences: seq<string>, kept: seq<string>)
    requires Distinct(kept) && forall p <- kept :: IsPhrase(p)
    ensures Distinct(PhrasesFrom(words, sentences, kept))
    ensures forall p <- PhrasesFrom(words, sentences, kept) :: IsPhrase(p)
    decreases |words|
  {
    if words != [] {
      match PhraseFor(words[0], sentences, kept)
      case Some(p) =>
        AppendFresh(kept, p);
        PhrasesDistinct(words[1..], sentences, kept + [p]);
      case None =>
        PhrasesDistinct(words[1..], sentences, kept);
    }
  }

  /**
   * `extract_key_phrases(text, n)`: at most `n` distinct phrases, each longer than
   * 20 characters and at most 15 words long; none at all for an empty text or one
   * without a long word that is not a stop word.
   */
  function KeyPhrases(text: string, n: nat): (r: seq<string>)
    ensures |r| <= n
    ensures Distinct(r)
    ensures forall p <- r :: IsPhrase(p)
    ensures text == [] || Candidates(text) == [] ==> r == []
  {
    if text == [] then []
    else
      var candidates := Candidates(text);
      if candidates == [] then []
      else
        var top := TopWords(candidates, n);
        var phrases := PhrasesFrom(top, SplitSentences(text), []);
        PhrasesDistinct(top, SplitSentences(text), []);
        TakePhrases(phrases, n);
        Take(phrases, n)
  }

  lemma TakePhrases(xs: seq<string>, n: nat)
    requires Distinct(xs) && forall p <- xs :: IsPhrase(p)
    ensures Distinct(Take(xs, n)) && forall p <- Take(xs, n) :: IsPhrase(p)
  {
    var r := Take(xs, n);
    assert forall k :: 0 <= k < |r| ==> r[k] == xs[k];
  }

  lemma PhraseForStep(word: string, sentences: seq<string>, j: nat, kept: seq<string>)
    requires j < |sentences|
    ensures PhraseFor(word, sentences[j..], kept) ==
      if Qualifies(word, sentences[j], kept) then Some(Clipped(sentences[j]))
      else PhraseFor(word, sentences[j + 1..], kept)
  {
    assert sentences[j..][1..] == sentences[j + 1..];
  }

  lemma PhrasesFromStep(words: seq<string>, i: nat, sentences: seq<string>, kept: seq<string>)
    requires i < |words|
    ensures PhrasesFrom(words[i..], sentences, kept) ==
      match PhraseFor(words[i], sentences, kept)
      case Some(p) => PhrasesFrom(words[i + 1..], sentences, kept + [p])
      case None => PhrasesFrom(words[i + 1..], sentences, kept)
  {
    assert words[i..][1..] == words[i + 1..];
  }

  /** The sentence loop for one word: the first fitting sentence, clipped, ends the search. */
  method FindPhrase(word: string, sentences: seq<string>, kept: seq<string>) returns (r: Option<string>)
    ensures r == PhraseFor(word, sentences, kept)
  {
    for j := 0 to |sentences|
      invariant PhraseFor(word, sentences[j..], kept) == PhraseFor(word, sentences, kept)
    {
      PhraseForStep(word, sentences, j, kept);
      var sentence := sentences[j];
      if Contains(LowerStr(sentence), word) {
        var clean := Clipped(sentence);
        if clean != [] && |clean| > 20 && clean !in kept {
          return Some(clean);
        }
      }
    }
    return None;
  }

  /** `extract_key_phrases(text, num_phrases)` */
  method ExtractKeyPhrases(text: string, n: nat) returns (keyPhrases: seq<string>)
    ensures keyPhrases == KeyPhrases(text, n)
  {
    if text == [] {
      return [];
    }
    var filtered := Candidates(text);
    if filtered == [] {
      return [];
    }
    var sentences := SplitSentences(text);
    var top := TopWords(filtered, n);
    keyPhrases := [];
    for i := 0 to |top|
      invariant PhrasesFrom(top[i..], sentences, keyPhrases) == PhrasesFrom(top, sentences, [])
    {
      PhrasesFromStep(top, i, sentences, keyPhrases);
      var found := FindPhrase(top[i], sentences, keyPhrases);
      if found.Some? {
        keyPhrases := keyPhrases + [found.value];
      }
    }
    keyPhrases := Take(keyPhrases, n);
  }
}
