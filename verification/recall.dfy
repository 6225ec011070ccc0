/** Memory recall before an LLM call (`Main.on_llm_request` in main.py):
    every memory of the session is scored against the user's message, the
    scored list is sorted by score, an optional LLM reranker picks among the
    best candidates, a two-level fallback applies when it picks nothing, and
    the chosen memories are appended to the system prompt as a fixed-layout
    block. The clock and the reranker's reply are inputs. */
module Recall {
  import opened Wrappers
  import opened Text
  import opened StableSort
  import opened MemoryStore
  import opened Session

  /** The plugin settings `on_llm_request` reads. */
  datatype RecallConfig = RecallConfig(
    enableAutoInjection: bool,
    enableGlobalMemory: bool,
    rerankProviderId: string,
    recallTopK: int,
    injectTopK: int,
    injectionTitle: string,
    injectionInstruction: string)

  // ---------------------------------------------------------------------
  // Scoring

  /** The query as it is matched: lower-cased, only alphanumerics kept. */
  function CleanQuery(query: string): (c: string)
    ensures |c| <= |query|
    ensures forall i :: 0 <= i < |c| ==> IsAlnum(c[i]) && !IsUpper(c[i])
  {
    var lowered := Lower(query);
    var c := KeepAlnum(lowered);
    assert forall i :: 0 <= i < |c| ==> c[i] in lowered;
    c
  }

  /** Cleaning works character by character: the query's pieces are
      cleaned independently and the results stay in order. */
  lemma CleanQueryConcat(a: string, b: string)
    ensures CleanQuery(a + b) == CleanQuery(a) + CleanQuery(b)
  {
    assert Lower(a + b) == Lower(a) + Lower(b);
    KeepAlnumConcat(Lower(a), Lower(b));
  }

  /** Every alphanumeric character of the query is kept, lower-cased. */
  lemma CleanQueryKeepsAlnum(query: string)
    requires forall i :: 0 <= i < |query| ==> IsAlnum(query[i])
    ensures CleanQuery(query) == Lower(query)
  {
    KeepAlnumAll(Lower(query));
  }

  /** Punctuation and whitespace disappear entirely. */
  lemma CleanQueryDropsOthers(query: string)
    requires forall i :: 0 <= i < |query| ==> !IsAlnum(query[i])
    ensures CleanQuery(query) == []
  {
    KeepAlnumNone(Lower(query));
  }

  /** The two-character slices `c[i:i+2]` the bigram loop visits, in order. */
  function Bigrams(c: string): (bs: seq<string>)
  {
    if |c| < 2 then [] else seq(|c| - 1, i requires 0 <= i < |c| - 1 => c[i..i + 2])
  }

  /** The set `matched_bigrams` ends with. */
  function MatchedBigrams(c: string, content: string): set<string>
  {
    set b | b in Bigrams(c) && Contains(content, b)
  }

  /** The bigrams of `c` are its two-character pieces. */
  lemma InBigrams(c: string, b: string)
    ensures b in Bigrams(c) <==> |b| == 2 && exists i :: OccursAt(c, b, i)
  {
    if b in Bigrams(c) {
      var i :| 0 <= i < |Bigrams(c)| && Bigrams(c)[i] == b;
      assert OccursAt(c, b, i);
    }
    if |b| == 2 && exists i :: OccursAt(c, b, i) {
      var i :| OccursAt(c, b, i);
      assert Bigrams(c)[i] == b;
    }
  }

  /** A matched bigram is exactly a two-character piece of the query that
      also occurs in the content. */
  lemma MatchedBigramsIff(c: string, content: string, b: string)
    ensures b in MatchedBigrams(c, content) <==> |b| == 2 && Contains(c, b) && Contains(content, b)
  {
    InBigrams(c, b);
    ContainsIff(c, b);
  }

  /** The bigram loop of `on_llm_request`, run only for queries of two
      characters or more. */
  method CollectBigrams(c: string, content: string) returns (matched: set<string>)
    requires |c| >= 2
    ensures matched == MatchedBigrams(c, content)
  {
    matched := {};
    var bs := Bigrams(c);
    for i := 0 to |c| - 1
      invariant forall b :: b in matched <==> b in bs[..i] && Contains(content, b)
    {
      var bigram := c[i..i + 2];
      assert bs[..i + 1] == bs[..i] + [bigram];
      if Contains(content, bigram) {
        matched := matched + {bigram};
      }
    }
    assert bs[..|c| - 1] == bs;
  }

  /** The lexical part of the score: 40 when either text contains the
      other, else 15 per distinct matched bigram; 25 for a one-character
      query found in the content. */
  function MatchScore(c: string, content: string): (r: nat)
    ensures c == [] ==> r == 0
    ensures |c| == 1 ==> r == 0 || r == 25
    ensures |c| >= 2 ==> r == 40 || r % 15 == 0
    ensures r == 25 <==> |c| == 1 && Contains(content, c)
  {
    if |c| >= 2 then
      if Contains(content, c) || Contains(c, content) then 40
      else 15 * |MatchedBigrams(c, content)|
    else if |c| == 1 && Contains(content, c) then 25
    else 0
  }

  /** The 40-point bonus is recognisable from the score alone: no count of
      bigrams and no one-character hit gives exactly 40. */
  lemma FortyMeansContainment(c: string, content: string)
    ensures MatchScore(c, content) == 40 <==>
      |c| >= 2 && (Contains(content, c) || Contains(c, content))
  {
    if |c| >= 2 && !(Contains(content, c) || Contains(c, content)) {
      var k := |MatchedBigrams(c, content)|;
      assert 15 * k != 40 by {
        if k <= 2 {} else {}
      }
    }
  }

  /** A one-character query scores 25 exactly when the content holds that
      character, and 0 otherwise. */
  lemma OneCharacterQuery(c: string, content: string)
    requires |c| == 1
    ensures MatchScore(c, content) == (if c[0] in content then 25 else 0)
  {
    ContainsIff(content, c);
    if c[0] in content {
      var i :| 0 <= i < |content| && content[i] == c[0];
      assert content[i..i + 1] == c;
      assert OccursAt(content, c, i);
    }
    if Contains(content, c) {
      var i :| OccursAt(content, c, i);
      assert content[i] == c[0];
    }
  }

  /** A memory whose content is empty counts as contained in every query of
      two characters or more, so it takes the full 40 points. */
  lemma EmptyContentScoresForty(c: string)
    requires |c| >= 2
    ensures MatchScore(c, "") == 40
  {
    assert StartsWith(c, "");
  }

  /** "AB!" against a memory reading "xaby" of importance 3 written an hour
      ago: the cleaned query "ab" occurs in the content, so the score is
      40 + 3 + 10. */
  lemma ScoreExample(query: string, m: Memory, age: string -> Option<int>)
    requires query == "AB!" && m.content == "xaby" && m.importance == 3
    requires age(m.timestamp) == Some(3600)
    ensures Score(CleanQuery(query), m, age) == 53
  {
    var c := CleanQuery(query);
    var l := Lower(query);
    assert l == "ab!";
    assert KeepAlnum(l[2..]) == [] by {
      assert l[2..][1..] == [];
    }
    assert KeepAlnum(l[1..]) == "b" by {
      assert l[1..][1..] == l[2..];
    }
    assert c == "ab";
    var content := Lower(m.content);
    assert content == "xaby";
    assert content[1..][..2] == "ab";
    assert Contains(content, c);
  }

  /** The freshness bonus: 10 when the memory's age in seconds is known and
      below one day; a timestamp that does not parse gives nothing. */
  function TimeBoost(age: Option<int>): (boost: nat)
    ensures boost == 10 <==> age.Some? && age.value < 86400
    ensures boost == 0 || boost == 10
  {
    if age.Some? && age.value < 86400 then 10 else 0
  }

  /** The score of one memory. `age` reads a stored timestamp as seconds
      before now, `None` when it does not parse. */
  function Score(c: string, m: Memory, age: string -> Option<int>): (r: int)
    ensures r >= m.importance
    ensures |c| >= 2 && Contains(Lower(m.content), c) ==> r >= m.importance + 40
    ensures age(m.timestamp).Some? && age(m.timestamp).value < 86400 ==> r >= m.importance + 10
    ensures (age(m.timestamp).None? || age(m.timestamp).value >= 86400) && MatchScore(c, Lower(m.content)) == 0 ==>
      r == m.importance
  {
    MatchScore(c, Lower(m.content)) + m.importance + TimeBoost(age(m.timestamp))
  }

  /** A scored memory, `(score, m)` in the source. */
  datatype Scored = Scored(score: int, memory: Memory)

  function ScoreOf(x: Scored): int { x.score }

  /** Key of `sort(key=lambda x: x[0], reverse=True)`. */
  function NegScore(x: Scored): int { -x.score }

  /** The list the scoring loop builds, in bucket order. */
  function ScoreEach(c: string, bucket: seq<Memory>, age: string -> Option<int>): seq<Scored>
  {
    seq(|bucket|, i requires 0 <= i < |bucket| => Scored(Score(c, bucket[i], age), bucket[i]))
  }

  /** The score of one memory, computed as the loop body does. */
  method ScoreMemory(c: string, m: Memory, age: string -> Option<int>) returns (score: int)
    ensures score == Score(c, m, age)
  {
    var content := Lower(m.content);
    var matchScore := 0;
    if |c| >= 2 {
      if Contains(content, c) || Contains(c, content) {
        matchScore := matchScore + 40;
      } else {
        var matched := CollectBigrams(c, content);
        matchScore := matchScore + |matched| * 15;
      }
    } else if |c| == 1 && Contains(content, c) {
      matchScore := matchScore + 25;
    }
    var timeBoost := 0;
    var a := age(m.timestamp);
    if a.Some? && a.value < 86400 {
      timeBoost := 10;
    }
    score := matchScore + m.importance + timeBoost;
  }

  /** The scoring loop: one entry per memory, in bucket order. */
  method ScoreAll(c: string, bucket: seq<Memory>, age: string -> Option<int>) returns (scored: seq<Scored>)
    ensures scored == ScoreEach(c, bucket, age)
  {
    scored := [];
    for i := 0 to |bucket|
      invariant scored == ScoreEach(c, bucket[..i], age)
    {
      var s := ScoreMemory(c, bucket[i], age);
      scored := scored + [Scored(s, bucket[i])];
    }
    assert bucket[..|bucket|] == bucket;
  }

  /** With importances in 1..5 every score is positive. */
  lemma ScoresPositive(c: string, bucket: seq<Memory>, age: string -> Option<int>)
    requires Clamped(bucket)
    ensures forall x :: x in ScoreEach(c, bucket, age) ==> x.score >= 1
  {
  }

  /** The score list sorted, highest score first, ties in bucket order. */
  function Ranked(scored: seq<Scored>): (r: seq<Scored>)
    ensures multiset(r) == multiset(scored)
    ensures forall i, j :: 0 <= i < j < |r| ==> r[i].score >= r[j].score
  {
    SortBy(scored, NegScore)
  }

  /** Entries of equal score keep their bucket order in the ranking. */
  lemma {:induction false} FilterNegScore(s: seq<Scored>, k: int)
    ensures FilterKey(s, NegScore, -k) == FilterKey(s, ScoreOf, k)
    decreases |s|
  {
    if s != [] {
      FilterNegScore(s[1..], k);
    }
  }

  lemma RankedStable(scored: seq<Scored>, k: int)
    ensures FilterKey(Ranked(scored), ScoreOf, k) == FilterKey(scored, ScoreOf, k)
  {
    SortByStable(scored, NegScore, -k);
    FilterNegScore(scored, k);
    FilterNegScore(Ranked(scored), k);
  }

  // ---------------------------------------------------------------------
  // Candidates, reranking and fallback

  /** Python's `s[:k]`; a negative `k` counts from the end. */
  function PySliceTo<T>(s: seq<T>, k: int): (r: seq<T>)
    ensures |r| <= |s| && r == s[..|r|]
    ensures k >= 0 ==> |r| == if k < |s| then k else |s|
    ensures k < 0 ==> |r| == if |s| + k > 0 then |s| + k else 0
  {
    if k >= 0 then (if k < |s| then s[..k] else s)
    else if |s| + k > 0 then s[..|s| + k] else []
  }

  /** The memories of a scored list, `[x[1] for x in ...]`. */
  function MemoriesOf(xs: seq<Scored>): (ms: seq<Memory>)
    ensures |ms| == |xs|
    ensures forall i :: 0 <= i < |xs| ==> ms[i] == xs[i].memory
  {
    seq(|xs|, i requires 0 <= i < |xs| => xs[i].memory)
  }

  /** The rerank candidates: the first `recall_top_k` of the ranking. */
  function Candidates(ranked: seq<Scored>, recallTopK: int): (candidates: seq<Memory>)
    ensures |candidates| <= |ranked|
    ensures forall i :: 0 <= i < |candidates| ==> candidates[i] == ranked[i].memory
    ensures recallTopK >= 0 ==> |candidates| == if recallTopK < |ranked| then recallTopK else |ranked|
  {
    MemoriesOf(PySliceTo(ranked, recallTopK))
  }

  /** The indices read from the reranker's reply: none for a missing or
      empty reply or one that mentions "None", else every digit run. */
  function RerankIds(reply: Option<string>): (ids: seq<nat>)
    ensures reply.None? || reply.value == [] || Contains(reply.value, "None") ==> ids == []
    ensures reply.Some? && !Contains(reply.value, "None") ==> ids == DigitRuns(reply.value)
  {
    if reply.Some? && reply.value != [] && !Contains(reply.value, "None") then DigitRuns(reply.value)
    else []
  }

  /** `candidates[i]` for each index in order, out-of-range indices
      skipped, repeats kept. */
  function PickCandidates(ids: seq<nat>, candidates: seq<Memory>): (picked: seq<Memory>)
    ensures |picked| <= |ids|
    ensures forall m :: m in picked ==> m in candidates
  {
    if ids == [] then []
    else
      var head := if ids[0] < |candidates| then [candidates[ids[0]]] else [];
      head + PickCandidates(ids[1..], candidates)
  }

  lemma {:induction false} PickCandidatesAppend(ids: seq<nat>, i: nat, candidates: seq<Memory>)
    ensures PickCandidates(ids + [i], candidates) ==
      PickCandidates(ids, candidates) + (if i < |candidates| then [candidates[i]] else [])
    decreases |ids|
  {
    if ids == [] {
      assert ids + [i] == [i];
    } else {
      assert (ids + [i])[1..] == ids[1..] + [i];
      PickCandidatesAppend(ids[1..], i, candidates);
    }
  }

  /** When every index is in range, each one selects its candidate and
      nothing is dropped or merged. */
  lemma {:induction false} PickInRange(ids: seq<nat>, candidates: seq<Memory>)
    requires forall j :: 0 <= j < |ids| ==> ids[j] < |candidates|
    ensures |PickCandidates(ids, candidates)| == |ids|
    ensures forall j :: 0 <= j < |ids| ==> PickCandidates(ids, candidates)[j] == candidates[ids[j]]
    decreases |ids|
  {
    if ids != [] {
      PickInRange(ids[1..], candidates);
    }
  }

  /** Out-of-range indices select nothing at all. */
  lemma {:induction false} PickOutOfRange(ids: seq<nat>, candidates: seq<Memory>)
    requires forall j :: 0 <= j < |ids| ==> ids[j] >= |candidates|
    ensures PickCandidates(ids, candidates) == []
    decreases |ids|
  {
    if ids != [] {
      PickOutOfRange(ids[1..], candidates);
    }
  }

  /** The reply parsing loop of the rerank step. */
  method ParseRerank(reply: Option<string>, candidates: seq<Memory>) returns (top: seq<Memory>)
    ensures top == PickCandidates(RerankIds(reply), candidates)
  {
    top := [];
    if reply.Some? && reply.value != [] && !Contains(reply.value, "None") {
      var ids := DigitRuns(reply.value);
      for j := 0 to |ids|
        invariant top == PickCandidates(ids[..j], candidates)
      {
        assert ids[..j + 1] == ids[..j] + [ids[j]];
        PickCandidatesAppend(ids[..j], ids[j], candidates);
        if ids[j] < |candidates| {
          top := top + [candidates[ids[j]]];
        }
      }
      assert ids[..|ids|] == ids;
    }
  }

  /** A reply in the requested format ("0,2") selects exactly the listed
      candidates, in the listed order. */
  lemma RerankRoundTrip(ids: seq<nat>, candidates: seq<Memory>)
    requires ids != []
    requires forall j :: 0 <= j < |ids| ==> ids[j] < |candidates|
    ensures PickCandidates(RerankIds(Some(IdList(ids))), candidates) ==
      seq(|ids|, j requires 0 <= j < |ids| => candidates[ids[j]])
  {
    var text := IdList(ids);
    MissingFirstChar(text, "None");
    DigitRunsOfIdList(ids);
    PickInRange(ids, candidates);
  }

  /** A reply mentioning "None" anywhere selects nothing, whatever digits
      it also holds. */
  lemma NoneVetoes(text: string, candidates: seq<Memory>)
    requires Contains(text, "None")
    ensures PickCandidates(RerankIds(Some(text)), candidates) == []
  {
  }

  lemma DuplicateReplyIds(text: string)
    requires text == "0,0,0,1"
    ensures RerankIds(Some(text)) == [0, 0, 0, 1]
  {
    MissingFirstChar(text, "None");
    DigitRunsDigitThen(text);
    DigitRunsDigitThen(text[2..]);
    assert text[2..][2..] == text[4..];
    DigitRunsDigitThen(text[4..]);
    assert text[4..][2..] == text[6..];
    DigitRunsLast(text[6..]);
    assert DigitRuns(text[4..]) == [0, 1];
    assert DigitRuns(text[2..]) == [0, 0, 1];
    assert DigitRuns(text) == [0, 0, 0, 1];
  }

  /** Repeated indices are all kept: "0,0,0,1" picks the first candidate
      three times. */
  lemma RerankKeepsDuplicates(reply: string, a: Memory, b: Memory)
    requires reply == "0,0,0,1"
    ensures PickCandidates(RerankIds(Some(reply)), [a, b]) == [a, a, a, b]
  {
    DuplicateReplyIds(reply);
    var ids := RerankIds(Some(reply));
    PickInRange(ids, [a, b]);
  }

  lemma FreeFormReplyTail(t: string)
    requires t == "and 7"
    ensures DigitRuns(t) == [7]
  {
    DigitRunsSkip(t);
    assert t[1..][1..] == t[2..];
    DigitRunsSkip(t[1..]);
    DigitRunsSkip(t[2..]);
    assert t[2..][1..] == t[3..];
    DigitRunsSkip(t[3..]);
    assert t[3..][1..] == t[4..];
    DigitRunsLast(t[4..]);
  }

  lemma FreeFormReplyIds(text: string)
    requires text == "2, 0 and 7"
    ensures RerankIds(Some(text)) == [2, 0, 7]
  {
    MissingFirstChar(text, "None");
    DigitRunsDigitThen(text);
    DigitRunsSkip(text[2..]);
    assert text[2..][1..] == text[3..];
    DigitRunsDigitThen(text[3..]);
    assert text[3..][2..] == text[5..];
    FreeFormReplyTail(text[5..]);
  }

  /** Any non-digit separates indices, and an index past the candidates is
      dropped: "2, 0 and 7" over three candidates picks the third and the
      first. */
  lemma RerankFreeFormReply(reply: string, a: Memory, b: Memory, c: Memory)
    requires reply == "2, 0 and 7"
    ensures PickCandidates(RerankIds(Some(reply)), [a, b, c]) == [c, a]
  {
    FreeFormReplyIds(reply);
    PickInRange([2, 0], [a, b, c]);
    PickCandidatesAppend([2, 0], 7, [a, b, c]);
    assert [2, 0] + [7] == [2, 0, 7];
  }

  /** Reranking runs only with a reranker configured and more than one
      candidate; otherwise it selects nothing. */
  function RerankSelection(cfg: RecallConfig, candidates: seq<Memory>, reply: Option<string>): (top: seq<Memory>)
    ensures cfg.rerankProviderId == [] || |candidates| <= 1 ==> top == []
    ensures cfg.rerankProviderId != [] && |candidates| > 1 ==> top == PickCandidates(RerankIds(reply), candidates)
    ensures forall m :: m in top ==> m in candidates
  {
    if cfg.rerankProviderId != [] && |candidates| > 1 then PickCandidates(RerankIds(reply), candidates)
    else []
  }

  /** The entries scoring at least `t`, in order. */
  function Above(xs: seq<Scored>, t: int): (r: seq<Scored>)
    ensures |r| <= |xs|
    ensures IsSubsequence(r, xs)
    ensures forall x :: x in r <==> x in xs && x.score >= t
  {
    if xs == [] then []
    else if xs[0].score >= t then [xs[0]] + Above(xs[1..], t)
    else Above(xs[1..], t)
  }

  /** Each entry scoring at least `t` is kept as often as it occurs; every
      other entry is dropped. */
  lemma {:induction false} AboveCounts(xs: seq<Scored>, t: int)
    ensures forall x :: multiset(Above(xs, t))[x] == if x.score >= t then multiset(xs)[x] else 0
    decreases |xs|
  {
    if xs != [] {
      AboveCounts(xs[1..], t);
      assert xs == [xs[0]] + xs[1..];
    }
  }

  /** In a ranking the entries scoring at least `t` are its first ones: the
      fallback takes the top of the ranking. */
  lemma {:induction false} AboveIsPrefix(xs: seq<Scored>, t: int)
    requires forall i, j :: 0 <= i < j < |xs| ==> xs[i].score >= xs[j].score
    ensures Above(xs, t) == xs[..|Above(xs, t)|]
    ensures forall i :: |Above(xs, t)| <= i < |xs| ==> xs[i].score < t
    decreases |xs|
  {
    if xs != [] {
      AboveIsPrefix(xs[1..], t);
      if xs[0].score < t {
        assert forall x :: x in xs[1..] ==> x.score < t;
      }
    }
  }

  /** `m` is the memory of an entry of `ranked` with a positive score. */
  ghost predicate ScoredIn(ranked: seq<Scored>, m: Memory) {
    exists j :: 0 <= j < |ranked| && ranked[j].memory == m && ranked[j].score >= 1
  }

  /** The fallback when reranking selected nothing: the first
      `inject_top_k` memories scoring at least 15 in the whole ranking, or,
      when none does, the first one scoring above 0. */
  function Fallback(ranked: seq<Scored>, injectTopK: int): (f: seq<Memory>)
    ensures |f| <= |ranked|
    ensures forall i :: 0 <= i < |f| ==> ScoredIn(ranked, f[i])
  {
    var strong := Above(ranked, 15);
    var pool := if strong != [] then strong else Above(ranked, 1);
    var f := PySliceTo(MemoriesOf(pool), if strong != [] then injectTopK else 1);
    DrawnFrom(ranked, pool, f);
    f
  }

  /** A prefix of the memories of positively scored entries of `ranked`
      consists of memories of positively scored entries of `ranked`. */
  lemma DrawnFrom(ranked: seq<Scored>, pool: seq<Scored>, f: seq<Memory>)
    requires forall x :: x in pool ==> x in ranked && x.score >= 1
    requires |f| <= |pool| && f == MemoriesOf(pool)[..|f|]
    ensures forall i :: 0 <= i < |f| ==> ScoredIn(ranked, f[i])
  {
    forall i | 0 <= i < |f|
      ensures ScoredIn(ranked, f[i])
    {
      assert f[i] == pool[i].memory;
      assert pool[i] in pool;
      var j :| 0 <= j < |ranked| && ranked[j] == pool[i];
      assert ranked[j].memory == f[i] && ranked[j].score >= 1;
    }
  }

  /** With a strong memory the fallback is the top `inject_top_k` (or
      fewer) of the ranking, all scoring at least 15; without one it is at
      most the single best entry, and only if that scores above 0. */
  lemma FallbackShape(ranked: seq<Scored>, injectTopK: int)
    requires forall i, j :: 0 <= i < j < |ranked| ==> ranked[i].score >= ranked[j].score
    ensures var f := Fallback(ranked, injectTopK);
      && |f| <= |ranked|
      && (forall i :: 0 <= i < |f| ==> f[i] == ranked[i].memory)
      && (Above(ranked, 15) != [] ==> forall i :: 0 <= i < |f| ==> ranked[i].score >= 15)
      && (Above(ranked, 15) != [] && injectTopK >= 0 ==>
            |f| == if injectTopK < |Above(ranked, 15)| then injectTopK else |Above(ranked, 15)|)
      && (Above(ranked, 15) != [] && injectTopK < 0 ==>
            |f| == if |Above(ranked, 15)| + injectTopK > 0 then |Above(ranked, 15)| + injectTopK else 0)
      && (Above(ranked, 15) == [] ==> |f| <= 1 && (|f| == 1 <==> ranked != [] && ranked[0].score > 0))
  {
    if Above(ranked, 15) != [] {
      StrongFallback(ranked, injectTopK);
    } else {
      WeakFallback(ranked, injectTopK);
    }
  }

  lemma StrongFallback(ranked: seq<Scored>, injectTopK: int)
    requires forall i, j :: 0 <= i < j < |ranked| ==> ranked[i].score >= ranked[j].score
    requires Above(ranked, 15) != []
    ensures var f := Fallback(ranked, injectTopK);
      && |f| <= |Above(ranked, 15)|
      && (forall i :: 0 <= i < |f| ==> f[i] == ranked[i].memory && ranked[i].score >= 15)
      && |f| == |PySliceTo(Above(ranked, 15), injectTopK)|
  {
    var strong := Above(ranked, 15);
    AboveIsPrefix(ranked, 15);
    var f := Fallback(ranked, injectTopK);
    assert f == PySliceTo(MemoriesOf(strong), injectTopK);
    forall i | 0 <= i < |f|
      ensures f[i] == ranked[i].memory && ranked[i].score >= 15
    {
      assert f[i] == strong[i].memory;
      assert strong[i] in strong;
      assert strong[i] == ranked[i];
    }
  }

  lemma WeakFallback(ranked: seq<Scored>, injectTopK: int)
    requires forall i, j :: 0 <= i < j < |ranked| ==> ranked[i].score >= ranked[j].score
    requires Above(ranked, 15) == []
    ensures var f := Fallback(ranked, injectTopK);
      && |f| <= 1
      && (forall i :: 0 <= i < |f| ==> f[i] == ranked[i].memory)
      && (|f| == 1 <==> ranked != [] && ranked[0].score > 0)
  {
    var weak := Above(ranked, 1);
    AboveIsPrefix(ranked, 1);
    var f := Fallback(ranked, injectTopK);
    assert f == PySliceTo(MemoriesOf(weak), 1);
    if weak != [] {
      assert weak[0] == ranked[0];
      assert weak[0] in weak;
    } else if ranked != [] {
      assert ranked[0].score < 1;
    }
  }

  /** A non-empty bucket with importances in 1..5 always yields a fallback
      when `inject_top_k` is at least 1. */
  lemma FallbackNonEmpty(ranked: seq<Scored>, injectTopK: int)
    requires ranked != [] && injectTopK >= 1
    requires forall x :: x in ranked ==> x.score >= 1
    ensures Fallback(ranked, injectTopK) != []
  {
    assert ranked[0] in Above(ranked, 1);
  }

  /** The memories to inject: the reranker's picks, else the fallback. */
  function Selection(cfg: RecallConfig, ranked: seq<Scored>, reply: Option<string>): (top: seq<Memory>)
    ensures forall m :: m in top ==> exists j :: 0 <= j < |ranked| && ranked[j].memory == m
  {
    var candidates := Candidates(ranked, cfg.recallTopK);
    var picked := RerankSelection(cfg, candidates, reply);
    var top := if picked != [] then picked else Fallback(ranked, cfg.injectTopK);
    assert forall m :: m in top ==> exists j :: 0 <= j < |ranked| && ranked[j].memory == m by {
      forall m | m in top
        ensures exists j :: 0 <= j < |ranked| && ranked[j].memory == m
      {
        var i :| 0 <= i < |top| && top[i] == m;
        if picked != [] {
          var k :| 0 <= k < |candidates| && candidates[k] == m;
          assert ranked[k].memory == m;
        } else {
          assert ScoredIn(ranked, top[i]);
          var j :| 0 <= j < |ranked| && ranked[j].memory == top[i] && ranked[j].score >= 1;
        }
      }
    }
    top
  }

  /** The whole selection for one request: score, rank, rerank, fall back. */
  function Recalled(cfg: RecallConfig, query: string, bucket: seq<Memory>,
                    age: string -> Option<int>, reply: Option<string>): (top: seq<Memory>)
    ensures forall m :: m in top ==> m in bucket
  {
    var scored := ScoreEach(CleanQuery(query), bucket, age);
    var ranked := Ranked(scored);
    var top := Selection(cfg, ranked, reply);
    assert forall m :: m in top ==> m in bucket by {
      forall m | m in top
        ensures m in bucket
      {
        var j :| 0 <= j < |ranked| && ranked[j].memory == m;
        assert ranked[j] in multiset(scored);
        var i :| 0 <= i < |scored| && scored[i] == ranked[j];
        assert bucket[i] == m;
      }
    }
    top
  }

  /** Something is always injected for a non-empty bucket whose
      importances are in 1..5, as long as `inject_top_k` is at least 1. */
  lemma RecalledNonEmpty(cfg: RecallConfig, query: string, bucket: seq<Memory>,
                         age: string -> Option<int>, reply: Option<string>)
    requires bucket != [] && Clamped(bucket) && cfg.injectTopK >= 1
    ensures Recalled(cfg, query, bucket, age, reply) != []
  {
    var scored := ScoreEach(CleanQuery(query), bucket, age);
    ScoresPositive(CleanQuery(query), bucket, age);
    var ranked := Ranked(scored);
    assert |ranked| == |scored|;
    forall x | x in ranked
      ensures x.score >= 1
    {
      assert x in multiset(scored);
    }
    SelectionNonEmpty(cfg, ranked, reply);
    assert Recalled(cfg, query, bucket, age, reply) == Selection(cfg, ranked, reply);
  }

  /** When the reranker picks nothing the fallback still does. */
  lemma SelectionNonEmpty(cfg: RecallConfig, ranked: seq<Scored>, reply: Option<string>)
    requires ranked != [] && cfg.injectTopK >= 1
    requires forall x :: x in ranked ==> x.score >= 1
    ensures Selection(cfg, ranked, reply) != []
  {
    if RerankSelection(cfg, Candidates(ranked, cfg.recallTopK), reply) == [] {
      FallbackNonEmpty(ranked, cfg.injectTopK);
    }
  }

  // ---------------------------------------------------------------------
  // Injection

  function Repeat(c: char, n: nat): (r: string)
    ensures |r| == n
    ensures forall i :: 0 <= i < n ==> r[i] == c
  {
    seq(n, _ => c)
  }

  /** One injected line: `- [时间:<timestamp>] <content>`. */
  function MemoryLine(m: Memory): (line: string)
    ensures |line| >= 6 + |m.content| && line[..6] == "- [时间:"
    ensures line[|line| - |m.content|..] == m.content
    ensures '\n' in line <==> '\n' in m.timestamp || '\n' in m.content
  {
    var head := "- [时间:" + m.timestamp + "] ";
    assert head[..6] == "- [时间:";
    assert (head + m.content)[|head|..] == m.content;
    assert forall c :: c in head + m.content <==> c in head || c in m.content;
    assert forall c :: c in head <==> c in "- [时间:" || c in m.timestamp || c in "] ";
    head + m.content
  }

  function Lines(top: seq<Memory>): (lines: seq<string>)
    ensures |lines| == |top|
  {
    seq(|top|, i requires 0 <= i < |top| => MemoryLine(top[i]))
  }

  /** The block appended to the system prompt: a titled rule, the
      instruction, one line per memory, a closing rule. */
  function InjectionBlock(title: string, instruction: string, top: seq<Memory>): (block: string)
    ensures |block| >= 50 && block[..2] == "\n\n"
    ensures block[|block| - 48..] == Repeat('=', 46) + "\n\n"
  {
    var body := "\n\n" + Repeat('=', 15) + " " + title + " " + Repeat('=', 15) + "\n"
      + instruction + "\n"
      + Join(Lines(top), '\n') + "\n";
    var tail := Repeat('=', 46) + "\n\n";
    assert body[..2] == "\n\n";
    assert (body + tail)[..2] == body[..2];
    assert (body + tail)[|body|..] == tail;
    body + tail
  }

  /** `if req.system_prompt: += else: =`; either way the result is the old
      prompt followed by the block. */
  function AppendInjection(prompt: string, injection: string): (r: string)
    ensures r == prompt + injection
  {
    if prompt != [] then prompt + injection else injection
  }

  /** Memory lines written without line breaks can be read back one by one
      from the joined memory context. */
  lemma LinesReadBack(top: seq<Memory>)
    requires top != []
    requires forall m :: m in top ==> '\n' !in m.timestamp && '\n' !in m.content
    ensures Split(Join(Lines(top), '\n'), '\n') == Lines(top)
  {
    var lines := Lines(top);
    forall i, j | 0 <= i < |lines| && 0 <= j < |lines[i]|
      ensures lines[i][j] != '\n'
    {
      var m := top[i];
      assert m in top;
      assert lines[i][j] in MemoryLine(m);
    }
    SplitJoin(lines, '\n');
  }

  /** The request object; only the system prompt is touched. */
  class Request {
    var systemPrompt: string

    constructor (systemPrompt: string)
      ensures this.systemPrompt == systemPrompt
    {
      this.systemPrompt := systemPrompt;
    }
  }

  /** `on_llm_request`. Nothing happens when auto-injection is off, the
      message is empty, the session has no memories, or nothing is
      selected; otherwise the block is appended to the system prompt. */
  method OnLlmRequest(req: Request, cfg: RecallConfig, store: MemoryManager, e: Event,
                      age: string -> Option<int>, reply: Option<string>)
    modifies req
    ensures var bucket := store.GetMemories(SessionId(e, cfg.enableGlobalMemory));
      var top := Recalled(cfg, e.messageStr, bucket, age, reply);
      if !cfg.enableAutoInjection || e.messageStr == [] || bucket == [] || top == [] then
        req.systemPrompt == old(req.systemPrompt)
      else
        req.systemPrompt == old(req.systemPrompt)
          + InjectionBlock(cfg.injectionTitle, cfg.injectionInstruction, top)
  {
    if !cfg.enableAutoInjection {
      return;
    }
    var sid := SessionId(e, cfg.enableGlobalMemory);
    var query := e.messageStr;
    if query == [] {
      return;
    }
    var all := store.GetMemories(sid);
    if all == [] {
      return;
    }
    var clean := CleanQuery(query);
    var scored := ScoreAll(clean, all, age);
    var ranked := Ranked(scored);
    var candidates := Candidates(ranked, cfg.recallTopK);
    var top: seq<Memory> := [];
    if cfg.rerankProviderId != [] && |candidates| > 1 {
      top := ParseRerank(reply, candidates);
    }
    if top == [] {
      top := Fallback(ranked, cfg.injectTopK);
    }
    assert top == Selection(cfg, ranked, reply);
    assert top == Recalled(cfg, query, all, age, reply);
    if top != [] {
      var injection := InjectionBlock(cfg.injectionTitle, cfg.injectionInstruction, top);
      req.systemPrompt := AppendInjection(req.systemPrompt, injection);
    }
  }
}
