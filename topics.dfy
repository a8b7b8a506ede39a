/**
 * `organize_content_by_topic`: every sentence of the cleaned transcript is
 * filed under the first topic one of whose keywords it mentions, or under
 * "Other", or nowhere; empty topics are then dropped.
 *
 * The filing is defined over any keyword table; `Indicators` and `Names` are
 * the table the program uses, with "Other" as the extra last bucket.
 */
module Topics {
  import opened Wrappers
  import opened Text
  import opened Scan

  /** The keywords of each named topic, in declaration order. */
  const Indicators: seq<seq<string>> := [
    ["introduction", "overview", "welcome", "start", "beginning"],
    ["background", "history", "context", "previous", "before"],
    ["method", "approach", "technique", "process", "procedure"],
    ResultsWords,
    ["application", "use", "practice", "implementation", "example"],
    ["advantage", "benefit", "pro", "strength", "positive"],
    ["disadvantage", "limitation", "drawback", "con", "negative"],
    ["conclusion", "summary", "wrap up", "final", "ending"]
  ]

  const ResultsWords: seq<string> := ["result", "finding", "outcome", "conclusion", "summary"]

  /** The bucket names: one per named topic, then "Other". */
  const Names: seq<string> := [
    "Introduction", "Background", "Method", "Results", "Application",
    "Advantages", "Disadvantages", "Conclusion", "Other"
  ]

  /** The first topic at or after `t` whose keywords the sentence mentions. */
  function FirstTopic(lower: string, table: seq<seq<string>>, t: nat): (r: Option<nat>)
    requires t <= |table|
    ensures r.Some? ==> t <= r.value < |table| && Mentions(lower, table[r.value])
    ensures r.Some? ==> forall u :: t <= u < r.value ==> !Mentions(lower, table[u])
    ensures r.None? ==> forall u :: t <= u < |table| ==> !Mentions(lower, table[u])
    decreases |table| - t
  {
    if t == |table| then None
    else if Mentions(lower, table[t]) then Some(t)
    else FirstTopic(lower, table, t + 1)
  }

  /** A mention of topic `v` stops the search at `v` or earlier. */
  lemma {:induction false} FirstTopicAtMost(lower: string, table: seq<seq<string>>, t: nat, v: nat)
    requires t <= v < |table| && Mentions(lower, table[v])
    ensures FirstTopic(lower, table, t).Some? && FirstTopic(lower, table, t).value <= v
    decreases v - t
  {
    if t < v && !Mentions(lower, table[t]) {
      FirstTopicAtMost(lower, table, t + 1, v);
    }
  }

  /**
   * Where a sentence is filed: the first topic it mentions when it is longer
   * than 20 characters once stripped, else the extra bucket `|table|` when it
   * is longer than 30, else nowhere.
   */
  function Place(sentence: string, table: seq<seq<string>>): (r: Option<nat>)
    ensures r.Some? ==> r.value <= |table|
  {
    var n := |Strip(sentence)|;
    if n <= 20 then None
    else
      match FirstTopic(LowerStr(sentence), table, 0)
      case Some(t) => Some(t)
      case None => if n > 30 then Some(|table|) else None
  }

  /**
   * A sentence goes to the first topic it mentions provided it is longer than
   * 20 characters stripped; to the extra bucket exactly when it mentions none
   * and is longer than 30; and nowhere otherwise.
   */
  lemma PlaceFirstMatch(sentence: string, table: seq<seq<string>>)
    ensures var r, lower, n := Place(sentence, table), LowerStr(sentence), |Strip(sentence)|;
      && (r.Some? && r.value < |table| <==>
            n > 20 && exists t :: 0 <= t < |table| && Mentions(lower, table[t]))
      && (r.Some? && r.value < |table| ==>
            Mentions(lower, table[r.value]) && forall u :: 0 <= u < r.value ==> !Mentions(lower, table[u]))
      && (r == Some(|table|) <==> n > 30 && forall u :: 0 <= u < |table| ==> !Mentions(lower, table[u]))
  {
    PlaceTopic(sentence, table);
    PlaceOther(sentence, table);
  }

  /** A sentence goes to a topic exactly when it is longer than 20 stripped and mentions one, and then to the first it mentions. */
  lemma PlaceTopic(sentence: string, table: seq<seq<string>>)
    ensures var r, lower, n := Place(sentence, table), LowerStr(sentence), |Strip(sentence)|;
      && (r.Some? && r.value < |table| <==>
            n > 20 && exists t :: 0 <= t < |table| && Mentions(lower, table[t]))
      && (r.Some? && r.value < |table| ==>
            Mentions(lower, table[r.value]) && forall u :: 0 <= u < r.value ==> !Mentions(lower, table[u]))
  {
    var lower, n := LowerStr(sentence), |Strip(sentence)|;
    var f := FirstTopic(lower, table, 0);
    if n <= 20 {
      assert Place(sentence, table) == None;
    } else if f.Some? {
      assert Place(sentence, table) == Some(f.value);
    } else {
      assert Place(sentence, table) == if n > 30 then Some(|table|) else None;
    }
  }

  /** A sentence goes to the extra bucket exactly when it is longer than 30 stripped and mentions no topic. */
  lemma PlaceOther(sentence: string, table: seq<seq<string>>)
    ensures var r, lower, n := Place(sentence, table), LowerStr(sentence), |Strip(sentence)|;
      r == Some(|table|) <==> n > 30 && forall u :: 0 <= u < |table| ==> !Mentions(lower, table[u])
  {
    var lower, n := LowerStr(sentence), |Strip(sentence)|;
    var f := FirstTopic(lower, table, 0);
    if n <= 20 {
      assert Place(sentence, table) == None;
    } else if f.Some? {
      assert Place(sentence, table) == Some(f.value);
    } else {
      assert Place(sentence, table) == if n > 30 then Some(|table|) else None;
    }
  }

  /** Where one sentence goes, and the stripped text that goes there. */
  datatype Filing = Filing(bucket: Option<nat>, text: string)

  /** The filing of every sentence, in order. */
  function FileAll(ss: seq<string>, table: seq<seq<string>>): (fs: seq<Filing>)
    ensures |fs| == |ss|
  {
    seq(|ss|, i requires 0 <= i < |ss| => Filing(Place(ss[i], table), Strip(ss[i])))
  }

  /** The texts filed under bucket `t`, in order. */
  function Filed(fs: seq<Filing>, t: nat): seq<string>
  {
    if fs == [] then []
    else
      var f := Last(fs);
      Filed(fs[..|fs| - 1], t) + (if f.bucket == Some(t) then [f.text] else [])
  }

  /** `n` buckets, each with the texts filed under it. */
  function Buckets(fs: seq<Filing>, n: nat): (bs: seq<seq<string>>)
    ensures |bs| == n
  {
    seq(n, t requires 0 <= t < n => Filed(fs, t))
  }

  datatype Section = Section(topic: string, sentences: seq<string>)

  /** The indices of the non-empty buckets from `t` on. */
  function Occupied(bs: seq<seq<string>>, t: nat): (idx: seq<nat>)
    requires t <= |bs|
    ensures forall k :: 0 <= k < |idx| ==> t <= idx[k] < |bs|
    decreases |bs| - t
  {
    if t == |bs| then []
    else (if bs[t] != [] then [t] else []) + Occupied(bs, t + 1)
  }

  /** `{k: v for k, v in organized.items() if v}`: the non-empty buckets under their names, in order. */
  function Sections(bs: seq<seq<string>>, names: seq<string>): seq<Section>
    requires |bs| == |names|
  {
    var idx := Occupied(bs, 0);
    seq(|idx|, k requires 0 <= k < |idx| => Section(names[idx[k]], bs[idx[k]]))
  }

  /** `organize_content_by_topic(text)` */
  function Organized(text: string): seq<Section>
  {
    Sections(Buckets(FileAll(SplitSentences(text), Indicators), |Names|), Names)
  }

  // ---- properties ----

  /** The bucket names are pairwise different, and "Other" is the last. */
  lemma NamesDistinct()
    ensures |Names| == |Indicators| + 1 && Last(Names) == "Other"
    ensures forall i, j :: 0 <= i < j < |Names| ==> Names[i] != Names[j]
  {
  }

  /** A sentence that carries a keyword of topic `i` is never filed under a later topic `j`. */
  lemma Shadowed(sentence: string, table: seq<seq<string>>, i: nat, j: nat, k: nat)
    requires i < j <= |table| && k < |table[i]| && Contains(LowerStr(sentence), table[i][k])
    ensures Place(sentence, table) != Some(j)
  {
    var lower := LowerStr(sentence);
    MentionsAny(lower, table[i], k);
    FirstTopicAtMost(lower, table, 0, i);
  }

  /**
   * "conclusion" and "summary" are keywords of Results as well as of
   * Conclusion, and Results comes first: a sentence carrying either word is
   * never filed under Conclusion, nor under "Other".
   */
  lemma ConclusionShadowed(sentence: string)
    requires var lower := LowerStr(sentence); Contains(lower, "conclusion") || Contains(lower, "summary")
    ensures Place(sentence, Indicators) != Some(7) && Place(sentence, Indicators) != Some(8)
  {
    assert Indicators[3] == ResultsWords;
    assert ResultsWords[3] == "conclusion" && ResultsWords[4] == "summary";
    var k := if Contains(LowerStr(sentence), "conclusion") then 3 else 4;
    Shadowed(sentence, Indicators, 3, 7, k);
    Shadowed(sentence, Indicators, 3, 8, k);
  }

  /** Every occupied index names a non-empty bucket. */
  lemma {:induction false} OccupiedNonEmpty(bs: seq<seq<string>>, t: nat)
    requires t <= |bs|
    ensures forall k :: 0 <= k < |Occupied(bs, t)| ==> bs[Occupied(bs, t)[k]] != []
    decreases |bs| - t
  {
    if t < |bs| {
      OccupiedNonEmpty(bs, t + 1);
    }
  }

  /** The occupied indices increase strictly. */
  lemma {:induction false} OccupiedIncreasing(bs: seq<seq<string>>, t: nat)
    requires t <= |bs|
    ensures forall i, j :: 0 <= i < j < |Occupied(bs, t)| ==> Occupied(bs, t)[i] < Occupied(bs, t)[j]
    decreases |bs| - t
  {
    if t < |bs| {
      OccupiedIncreasing(bs, t + 1);
    }
  }

  /** Every non-empty bucket from `t` on is occupied. */
  lemma {:induction false} OccupiedComplete(bs: seq<seq<string>>, t: nat)
    requires t <= |bs|
    ensures forall u :: t <= u < |bs| && bs[u] != [] ==> u in Occupied(bs, t)
    decreases |bs| - t
  {
    if t < |bs| {
      OccupiedComplete(bs, t + 1);
    }
  }

  /** Every non-empty bucket has its section. */
  lemma SectionsComplete(bs: seq<seq<string>>, names: seq<string>)
    requires |bs| == |names|
    ensures var r := Sections(bs, names);
      forall u :: 0 <= u < |bs| && bs[u] != [] ==> exists k :: 0 <= k < |r| && r[k] == Section(names[u], bs[u])
  {
    var r, idx := Sections(bs, names), Occupied(bs, 0);
    OccupiedComplete(bs, 0);
    forall u | 0 <= u < |bs| && bs[u] != []
      ensures exists k :: 0 <= k < |r| && r[k] == Section(names[u], bs[u])
    {
      var k :| 0 <= k < |idx| && idx[k] == u;
      assert r[k] == Section(names[u], bs[u]);
    }
  }

  /** Sections follow the order of the buckets, so with distinct names no two share a topic and the last name comes last. */
  lemma SectionsDistinct(bs: seq<seq<string>>, names: seq<string>)
    requires |bs| == |names| > 0
    requires forall i, j :: 0 <= i < j < |names| ==> names[i] != names[j]
    ensures var r := Sections(bs, names);
      && (forall i, j :: 0 <= i < j < |r| ==> r[i].topic != r[j].topic)
      && (forall k :: 0 <= k < |r| && r[k].topic == Last(names) ==> k == |r| - 1)
  {
    var r, idx := Sections(bs, names), Occupied(bs, 0);
    OccupiedIncreasing(bs, 0);
    forall i, j | 0 <= i < j < |r|
      ensures r[i].topic != r[j].topic
    {
      assert idx[i] < idx[j];
    }
    forall k | 0 <= k < |r| - 1
      ensures r[k].topic != Last(names)
    {
      assert idx[k] < idx[k + 1];
    }
  }

  /**
   * Every section holds at least one sentence and every non-empty bucket has
   * a section; sections follow the order of the buckets (in the order of the
   * table), so with distinct names no topic appears twice and the last
   * bucket, when present, is last.
   */
  lemma SectionsOrdered(bs: seq<seq<string>>, names: seq<string>)
    requires |bs| == |names| > 0
    requires forall i, j :: 0 <= i < j < |names| ==> names[i] != names[j]
    ensures var r := Sections(bs, names);
      && (forall k :: 0 <= k < |r| ==> r[k].sentences != [])
      && (forall u :: 0 <= u < |bs| && bs[u] != [] ==> exists k :: 0 <= k < |r| && r[k] == Section(names[u], bs[u]))
      && (forall i, j :: 0 <= i < j < |r| ==> r[i].topic != r[j].topic)
      && (forall k :: 0 <= k < |r| && r[k].topic == Last(names) ==> k == |r| - 1)
      && (exists idx: seq<nat> :: TableOrder(bs, names, r, idx))
  {
    OccupiedNonEmpty(bs, 0);
    SectionsComplete(bs, names);
    SectionsDistinct(bs, names);
    OccupiedIncreasing(bs, 0);
    assert TableOrder(bs, names, Sections(bs, names), Occupied(bs, 0));
  }

  /** Section `k` is the bucket `idx[k]` under its name, and the indices increase strictly. */
  predicate TableOrder(bs: seq<seq<string>>, names: seq<string>, r: seq<Section>, idx: seq<nat>)
    requires |bs| == |names|
  {
    && |idx| == |r|
    && (forall i, j :: 0 <= i < j < |idx| ==> idx[i] < idx[j])
    && (forall k :: 0 <= k < |idx| ==> idx[k] < |bs| && r[k] == Section(names[idx[k]], bs[idx[k]]))
  }

  /**
   * The organized notes: only non-empty topics, each at most once, in the
   * declaration order of the topics, with "Other" last when present.
   */
  lemma OrganizedOrder(text: string)
    ensures var r := Organized(text);
      && (forall k :: 0 <= k < |r| ==> r[k].sentences != [])
      && (forall i, j :: 0 <= i < j < |r| ==> r[i].topic != r[j].topic)
      && (forall k :: 0 <= k < |r| && r[k].topic == "Other" ==> k == |r| - 1)
  {
    NamesDistinct();
    SectionsOrdered(Buckets(FileAll(SplitSentences(text), Indicators), |Names|), Names);
  }

  /** The number of sentences across all buckets. */
  function Total(bs: seq<seq<string>>): nat
  {
    if bs == [] then 0 else |bs[0]| + Total(bs[1..])
  }

  /** Adding one sentence to bucket `t` adds one to the total. */
  lemma {:induction false} TotalGrows(bs: seq<seq<string>>, t: nat, x: string)
    requires t < |bs|
    ensures Total(bs[t := bs[t] + [x]]) == Total(bs) + 1
    decreases |bs|
  {
    var cs := bs[t := bs[t] + [x]];
    if t > 0 {
      assert cs[1..] == bs[1..][t - 1 := bs[1..][t - 1] + [x]];
      TotalGrows(bs[1..], t - 1, x);
    } else {
      assert cs[1..] == bs[1..];
    }
  }

  /** Filing one more sentence extends its own bucket, if it has one among the `n`, and no other. */
  lemma BucketsSnoc(fs: seq<Filing>, f: Filing, n: nat)
    ensures f.bucket.None? || f.bucket.value >= n ==> Buckets(fs + [f], n) == Buckets(fs, n)
    ensures f.bucket.Some? && f.bucket.value < n ==>
      var bs, t := Buckets(fs, n), f.bucket.value;
      Buckets(fs + [f], n) == bs[t := bs[t] + [f.text]]
  {
    var gs := fs + [f];
    assert gs[..|gs| - 1] == fs;
    var bs, cs := Buckets(fs, n), Buckets(gs, n);
    assert forall u :: 0 <= u < n ==> cs[u] == bs[u] + (if f.bucket == Some(u) then [f.text] else []);
    if f.bucket.Some? && f.bucket.value < n {
      var t := f.bucket.value;
      assert forall u :: 0 <= u < n ==> cs[u] == bs[t := bs[t] + [f.text]][u];
    } else {
      assert forall u :: 0 <= u < n ==> cs[u] == bs[u];
    }
  }

  /** Empty buckets hold nothing. */
  lemma {:induction false} TotalEmpty(bs: seq<seq<string>>)
    requires forall u :: 0 <= u < |bs| ==> bs[u] == []
    ensures Total(bs) == 0
  {
    if bs != [] {
      TotalEmpty(bs[1..]);
    }
  }

  /** Each sentence lands in at most one bucket, so the buckets hold at most as many sentences as there are. */
  lemma {:induction false} AtMostOnce(fs: seq<Filing>, n: nat)
    ensures Total(Buckets(fs, n)) <= |fs|
    decreases |fs|
  {
    if fs == [] {
      TotalEmpty(Buckets(fs, n));
    } else {
      var init, f := fs[..|fs| - 1], Last(fs);
      assert fs == init + [f];
      AtMostOnce(init, n);
      BucketsSnoc(init, f, n);
      var bs := Buckets(init, n);
      if f.bucket.Some? && f.bucket.value < n {
        TotalGrows(bs, f.bucket.value, f.text);
        assert Buckets(fs, n) == bs[f.bucket.value := bs[f.bucket.value] + [f.text]];
      } else {
        assert Buckets(fs, n) == bs;
      }
    }
  }

  /** The organized notes hold at most one entry per sentence of the text. */
  lemma OrganizedAtMostOnce(text: string)
    ensures Total(Buckets(FileAll(SplitSentences(text), Indicators), |Names|)) <= |SplitSentences(text)|
  {
    AtMostOnce(FileAll(SplitSentences(text), Indicators), |Names|);
  }

  // ---- the loops as written ----

  /** The inner loop over the topics, with its `break`: where one sentence is filed, if anywhere. */
  method FileSentence(sentence: string, table: seq<seq<string>>) returns (placed: Option<nat>)
    ensures placed == Place(sentence, table)
  {
    var lower := LowerStr(sentence);
    var n := |Strip(sentence)|;
    var matched := false;
    placed := None;
    for t := 0 to |table|
      invariant !matched && placed.None?
      invariant n > 20 ==> FirstTopic(lower, table, 0) == FirstTopic(lower, table, t)
    {
      if Mentions(lower, table[t]) {
        if n > 20 {
          placed := Some(t);
          matched := true;
          break;
        }
      }
    }
    if !matched && n > 30 {
      placed := Some(|table|);
    }
  }

  /** The outer loop over the sentences, for any keyword table and bucket names. */
  method OrganizeWith(text: string, table: seq<seq<string>>, names: seq<string>) returns (organized: seq<Section>)
    requires |names| == |table| + 1
    ensures organized == Sections(Buckets(FileAll(SplitSentences(text), table), |names|), names)
  {
    var sentences := SplitSentences(text);
    ghost var fs := FileAll(sentences, table);
    var buckets: seq<seq<string>> := seq(|names|, _ => []);
    assert fs[..0] == [];
    for i := 0 to |sentences|
      invariant buckets == Buckets(fs[..i], |names|)
    {
      var sentence := sentences[i];
      var placed := FileSentence(sentence, table);
      var stripped := Strip(sentence);
      assert fs[i] == Filing(placed, stripped);
      PrefixStep(fs, i);
      BucketsSnoc(fs[..i], fs[i], |names|);
      if placed.Some? {
        buckets := buckets[placed.value := buckets[placed.value] + [stripped]];
      }
    }
    assert fs[..|sentences|] == fs;
    organized := Sections(buckets, names);
  }

  /** `organize_content_by_topic(text)` */
  method OrganizeContentByTopic(text: string) returns (organized: seq<Section>)
    ensures organized == Organized(text)
  {
    organized := OrganizeWith(text, Indicators, Names);
  }
}
