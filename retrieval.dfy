/**
 * Retrieval post-processing shared by `retrieve_from_kb` / `merge_chunks_by_file`
 * (rag_app.py) and the inlined copy in `search_knowledge_base` (app.py): results under
 * a score threshold are dropped, the rest are grouped by source file in first-seen order,
 * each group gets a composite score, and the groups are stable-sorted by that score,
 * highest first.
 */
module Retrieval {
  import opened Wrappers
  import opened Strings
  import opened Sorting

  /**
   * One entry of `retrievalResults` as far as the loop reads it: the optional `score`,
   * `content.text`, and the optional `location.s3Location.uri`.
   */
  datatype RetrievalResult = RetrievalResult(score: Option<real>, text: string, uri: Option<string>)

  /** A surviving fragment: `{"text", "source", "score"}`. */
  datatype Chunk = Chunk(text: string, source: string, score: real)

  /** The fragments of one source file, in retrieval order (`grouped[file]`). */
  datatype Group = Group(source: string, texts: seq<string>, scores: seq<real>)

  /** One merged document: `{"source", "score", "text"}`. */
  datatype Merged = Merged(source: string, score: real, text: string)

  /** `score_threshold` of `retrieve_from_kb`, and the file name it gives a result without a uri. */
  const RagThreshold: real := 0.50
  const RagUnknown: string := "Unknown document"

  /** The threshold and missing-uri name of `search_knowledge_base`. */
  const AppThreshold: real := 0.60
  const AppUnknown: string := "Unknown"

  /** `r.get("score", 0)`. */
  function ScoreOf(r: RetrievalResult): real {
    r.score.GetOr(0.0)
  }

  /**
   * `uri.split("/")[-1] if uri else unknown`: the part of the uri after its last slash,
   * or the fallback name when the uri is missing or empty.
   */
  function FileName(uri: string, unknown: string): (r: string)
    ensures uri == [] ==> r == unknown
    ensures uri != [] ==> '/' !in r && |r| <= |uri| && r == uri[|uri| - |r|..]
    ensures uri != [] && |r| < |uri| ==> uri[|uri| - |r| - 1] == '/'
    ensures uri != [] && '/' !in uri ==> r == uri
  {
    if uri == [] then unknown else LastSegment(uri, '/')
  }

  function ToChunk(r: RetrievalResult, unknown: string): Chunk {
    Chunk(r.text, FileName(r.uri.GetOr(""), unknown), ScoreOf(r))
  }

  /** The fragments the filter loop keeps, in input order (a reference definition over prefixes). */
  function Survivors(rs: seq<RetrievalResult>, threshold: real, unknown: string): seq<Chunk>
    decreases |rs|
  {
    if rs == [] then []
    else
      var last := rs[|rs| - 1];
      Survivors(rs[..|rs| - 1], threshold, unknown)
        + (if ScoreOf(last) < threshold then [] else [ToChunk(last, unknown)])
  }

  /**
   * The loop of `retrieve_from_kb` (with `threshold = RagThreshold`, `unknown = RagUnknown`)
   * and of `search_knowledge_base` (with `AppThreshold`, `AppUnknown`) over the results the
   * knowledge base returned.
   */
  method RetrieveFromResults(results: seq<RetrievalResult>, threshold: real, unknown: string)
    returns (chunks: seq<Chunk>)
    ensures chunks == Survivors(results, threshold, unknown)
  {
    chunks := [];
    var i := 0;
    while i < |results|
      invariant 0 <= i <= |results|
      invariant chunks == Survivors(results[..i], threshold, unknown)
    {
      var r := results[i];
      var score := r.score.GetOr(0.0);
      assert results[..i + 1][..i] == results[..i];
      if !(score < threshold) {
        var uri := r.uri.GetOr("");
        var fileName := if uri != [] then LastSegment(uri, '/') else unknown;
        chunks := chunks + [Chunk(r.text, fileName, score)];
      }
      i := i + 1;
    }
    assert results[..|results|] == results;
  }

  /** Filtering distributes over concatenation: survivors keep their input order. */
  lemma {:induction false} SurvivorsAppend(a: seq<RetrievalResult>, b: seq<RetrievalResult>, threshold: real, unknown: string)
    ensures Survivors(a + b, threshold, unknown) == Survivors(a, threshold, unknown) + Survivors(b, threshold, unknown)
    decreases |b|
  {
    if b != [] {
      var b' := b[..|b| - 1];
      assert (a + b)[..|a + b| - 1] == a + b';
      SurvivorsAppend(a, b', threshold, unknown);
    } else {
      assert a + b == a;
    }
  }

  /** A fragment survives exactly when some result at or above the threshold produced it. */
  lemma {:induction false} SurvivorsMembers(rs: seq<RetrievalResult>, threshold: real, unknown: string, c: Chunk)
    ensures c in Survivors(rs, threshold, unknown)
            <==> exists i :: 0 <= i < |rs| && ScoreOf(rs[i]) >= threshold && c == ToChunk(rs[i], unknown)
    decreases |rs|
  {
    if rs != [] {
      var p := rs[..|rs| - 1];
      SurvivorsMembers(p, threshold, unknown, c);
      if exists i :: 0 <= i < |rs| && ScoreOf(rs[i]) >= threshold && c == ToChunk(rs[i], unknown) {
        var i :| 0 <= i < |rs| && ScoreOf(rs[i]) >= threshold && c == ToChunk(rs[i], unknown);
        if i < |rs| - 1 {
          assert p[i] == rs[i];
        }
      }
      if c in Survivors(p, threshold, unknown) {
        var i :| 0 <= i < |p| && ScoreOf(p[i]) >= threshold && c == ToChunk(p[i], unknown);
        assert rs[i] == p[i];
      }
    }
  }

  /** Every survivor scores at least the threshold. */
  lemma {:induction false} SurvivorsAboveThreshold(rs: seq<RetrievalResult>, threshold: real, unknown: string)
    ensures forall c :: c in Survivors(rs, threshold, unknown) ==> c.score >= threshold
    decreases |rs|
  {
    if rs != [] {
      SurvivorsAboveThreshold(rs[..|rs| - 1], threshold, unknown);
    }
  }

  function ChunkSources(cs: seq<Chunk>): seq<string> {
    seq(|cs|, i requires 0 <= i < |cs| => cs[i].source)
  }

  function GroupSources(gs: seq<Group>): seq<string> {
    seq(|gs|, i requires 0 <= i < |gs| => gs[i].source)
  }

  /** The texts of the fragments from `source`, in input order. */
  function TextsFrom(cs: seq<Chunk>, source: string): seq<string>
    decreases |cs|
  {
    if cs == [] then []
    else
      var last := cs[|cs| - 1];
      TextsFrom(cs[..|cs| - 1], source) + (if last.source == source then [last.text] else [])
  }

  /** The scores of the fragments from `source`, in input order. */
  function ScoresFrom(cs: seq<Chunk>, source: string): seq<real>
    decreases |cs|
  {
    if cs == [] then []
    else
      var last := cs[|cs| - 1];
      ScoresFrom(cs[..|cs| - 1], source) + (if last.source == source then [last.score] else [])
  }

  /** The position of the group for `source`, if there is one (the `file not in grouped` test). */
  function GroupIndex(gs: seq<Group>, source: string): (r: Option<nat>)
    ensures r.Some? ==> r.value < |gs| && gs[r.value].source == source
    ensures r.None? ==> source !in GroupSources(gs)
    decreases |gs|
  {
    if gs == [] then None
    else if gs[|gs| - 1].source == source then Some(|gs| - 1)
    else
      var r := GroupIndex(gs[..|gs| - 1], source);
      assert r.None? ==> GroupSources(gs) == GroupSources(gs[..|gs| - 1]) + [gs[|gs| - 1].source];
      r
  }

  /** One step of the grouping loop: append to the fragment's group, or open a new group at the end. */
  function AddChunk(gs: seq<Group>, c: Chunk): seq<Group> {
    match GroupIndex(gs, c.source)
    case Some(j) => gs[j := Group(c.source, gs[j].texts + [c.text], gs[j].scores + [c.score])]
    case None => gs + [Group(c.source, [c.text], [c.score])]
  }

  /** The `grouped` dictionary after the loop, as its items in insertion order. */
  function Groups(cs: seq<Chunk>): seq<Group>
    decreases |cs|
  {
    if cs == [] then [] else AddChunk(Groups(cs[..|cs| - 1]), cs[|cs| - 1])
  }

  /** At most one group per fragment, and at least one group once there is a fragment. */
  lemma {:induction false} GroupsCount(cs: seq<Chunk>)
    ensures |Groups(cs)| <= |cs|
    ensures cs != [] ==> Groups(cs) != []
    decreases |cs|
  {
    if cs != [] {
      var p := cs[..|cs| - 1];
      GroupsCount(p);
      AddChunkCount(Groups(p), cs[|cs| - 1]);
    }
  }

  lemma AddChunkCount(gs: seq<Group>, c: Chunk)
    ensures |gs| <= |AddChunk(gs, c)| <= |gs| + 1 && AddChunk(gs, c) != []
  {
  }

  /** What grouping promises: one group per source, each holding exactly that source's fragments. */
  predicate GroupsOf(cs: seq<Chunk>, gs: seq<Group>) {
    (forall i, j :: 0 <= i < j < |gs| ==> gs[i].source != gs[j].source)
    && (forall i :: 0 <= i < |gs| ==>
          gs[i].texts == TextsFrom(cs, gs[i].source) && gs[i].scores == ScoresFrom(cs, gs[i].source)
          && |gs[i].scores| > 0)
    && GroupSources(gs) == Dedup(ChunkSources(cs))
  }

  lemma {:induction false} NoFragmentsFrom(cs: seq<Chunk>, source: string)
    requires source !in ChunkSources(cs)
    ensures TextsFrom(cs, source) == [] && ScoresFrom(cs, source) == []
    decreases |cs|
  {
    if cs != [] {
      assert ChunkSources(cs[..|cs| - 1]) == ChunkSources(cs)[..|cs| - 1];
      assert cs[|cs| - 1].source == ChunkSources(cs)[|cs| - 1];
      NoFragmentsFrom(cs[..|cs| - 1], source);
    }
  }

  lemma {:induction false} AddChunkGroupsOf(cs: seq<Chunk>, gs: seq<Group>, c: Chunk)
    requires GroupsOf(cs, gs)
    ensures GroupsOf(cs + [c], AddChunk(gs, c))
  {
    var cs' := cs + [c];
    assert cs'[..|cs'| - 1] == cs;
    assert ChunkSources(cs') == ChunkSources(cs) + [c.source];
    DedupMembers(ChunkSources(cs));
    var gs' := AddChunk(gs, c);
    match GroupIndex(gs, c.source)
    case Some(j) =>
      assert GroupSources(gs)[j] == c.source;
      assert GroupSources(gs') == GroupSources(gs);
      forall i | 0 <= i < |gs'|
        ensures gs'[i].texts == TextsFrom(cs', gs'[i].source) && gs'[i].scores == ScoresFrom(cs', gs'[i].source)
      {
        if i != j {
          assert gs[i].source != gs[j].source;
        }
      }
    case None =>
      assert c.source !in ChunkSources(cs);
      NoFragmentsFrom(cs, c.source);
      assert GroupSources(gs') == GroupSources(gs) + [c.source];
      forall i, k | 0 <= i < k < |gs'| ensures gs'[i].source != gs'[k].source {
        if k == |gs| {
          assert gs[i].source == GroupSources(gs)[i];
        }
      }
  }

  lemma {:induction false} GroupsCorrect(cs: seq<Chunk>)
    ensures GroupsOf(cs, Groups(cs))
    decreases |cs|
  {
    if cs == [] {
      assert GroupSources([]) == [];
      assert ChunkSources([]) == [];
    } else {
      var p := cs[..|cs| - 1];
      GroupsCorrect(p);
      AddChunkGroupsOf(p, Groups(p), cs[|cs| - 1]);
      assert p + [cs[|cs| - 1]] == cs;
    }
  }

  function Sum(xs: seq<real>): real {
    if xs == [] then 0.0 else xs[0] + Sum(xs[1..])
  }

  /** `avg * (1 + (n - 1) * 0.25)`: the mean score boosted by a quarter for every extra fragment. */
  function Weighted(mean: real, n: nat): real {
    mean * (1.0 + (n as real - 1.0) * 0.25)
  }

  /** The composite score of a group's fragment scores. */
  function CompositeScore(scores: seq<real>): real
    requires |scores| > 0
  {
    Weighted(Sum(scores) / |scores| as real, |scores|)
  }

  /** A single-fragment group keeps that fragment's score. */
  lemma CompositeSingle(s: real)
    ensures CompositeScore([s]) == s
  {
    assert Sum([s]) == s + Sum([]);
  }

  /** For a fixed positive mean, more fragments give a strictly larger composite score. */
  lemma CompositeGrowsWithCount(mean: real, m: nat, n: nat)
    requires mean > 0.0 && m < n
    ensures Weighted(mean, m) < Weighted(mean, n)
  {
    assert Weighted(mean, n) - Weighted(mean, m) == mean * ((n - m) as real * 0.25);
  }

  /** Five fragments at 0.8 (composite 1.6) outrank one fragment at 0.95. */
  lemma RepeatedSourceOutranks()
    ensures CompositeScore([0.8, 0.8, 0.8, 0.8, 0.8]) == 1.6
    ensures CompositeScore([0.95]) < CompositeScore([0.8, 0.8, 0.8, 0.8, 0.8])
  {
    assert Sum([0.8, 0.8, 0.8, 0.8, 0.8]) == 4.0 by {
      assert [0.8, 0.8, 0.8, 0.8, 0.8][1..] == [0.8, 0.8, 0.8, 0.8];
      assert [0.8, 0.8, 0.8, 0.8][1..] == [0.8, 0.8, 0.8];
      assert [0.8, 0.8, 0.8][1..] == [0.8, 0.8];
      assert [0.8, 0.8][1..] == [0.8];
      assert Sum([0.8]) == 0.8 + Sum([]);
    }
    CompositeSingle(0.95);
  }

  /** The merged document of one group. */
  function Summarize(g: Group): Merged
    requires |g.scores| > 0
  {
    Merged(g.source, CompositeScore(g.scores), Join(g.texts, "\n"))
  }

  function Summaries(gs: seq<Group>): seq<Merged>
    requires forall i :: 0 <= i < |gs| ==> |gs[i].scores| > 0
  {
    seq(|gs|, i requires 0 <= i < |gs| => Summarize(gs[i]))
  }

  function MergeSources(ms: seq<Merged>): seq<string> {
    seq(|ms|, i requires 0 <= i < |ms| => ms[i].source)
  }

  function MergedScore(m: Merged): real {
    m.score
  }

  /**
   * The result of `merge_chunks_by_file`: the groups' summaries, sorted by composite score,
   * highest first. There are no more documents than fragments, and none only when there
   * is no fragment.
   */
  function Merge(cs: seq<Chunk>): (r: seq<Merged>)
    ensures |r| <= |cs|
    ensures r == [] <==> cs == []
  {
    GroupsCorrect(cs);
    GroupsCount(cs);
    SortByOrderedPermutation(Summaries(Groups(cs)), MergedScore, true);
    SortBy(Summaries(Groups(cs)), MergedScore, true)
  }

  /**
   * `merge_chunks_by_file` (and the same steps of `search_knowledge_base`): the grouping
   * loop over a dictionary kept with its keys in insertion order, the loop over its items,
   * then the stable sort.
   */
  method MergeChunksByFile(chunks: seq<Chunk>) returns (merged: seq<Merged>)
    ensures merged == Merge(chunks)
  {
    var keys, grouped := GroupChunks(chunks);
    merged := SummarizeGroups(keys, grouped, Groups(chunks));
    merged := SortBy(merged, MergedScore, true);
  }

  /** The first loop: `grouped` and its insertion order `keys` end up holding `Groups(chunks)`. */
  method GroupChunks(chunks: seq<Chunk>) returns (keys: seq<string>, grouped: map<string, Group>)
    ensures Mirrors(keys, grouped, Groups(chunks)) && GroupsOf(chunks, Groups(chunks))
  {
    keys := [];
    grouped := map[];
    ghost var gs: seq<Group> := [];
    var i := 0;
    assert GroupSources([]) == [] && ChunkSources([]) == [];
    while i < |chunks|
      invariant 0 <= i <= |chunks|
      invariant gs == Groups(chunks[..i]) && GroupsOf(chunks[..i], gs)
      invariant Mirrors(keys, grouped, gs)
    {
      var c := chunks[i];
      assert chunks[..i + 1] == chunks[..i] + [c];
      assert chunks[..i + 1][..i] == chunks[..i];
      AddChunkGroupsOf(chunks[..i], gs, c);
      if c.source !in grouped {
        MirrorsAddNew(keys, grouped, gs, c);
        keys := keys + [c.source];
        grouped := grouped[c.source := Group(c.source, [], [])];
      } else {
        MirrorsAddExisting(keys, grouped, gs, c);
      }
      var g := grouped[c.source];
      grouped := grouped[c.source := Group(c.source, g.texts + [c.text], g.scores + [c.score])];
      gs := AddChunk(gs, c);
      i := i + 1;
    }
    assert chunks[..|chunks|] == chunks;
  }

  /** The second loop, over `grouped.items()` in insertion order: one merged document per group. */
  method SummarizeGroups(keys: seq<string>, grouped: map<string, Group>, ghost gs: seq<Group>)
    returns (merged: seq<Merged>)
    requires Mirrors(keys, grouped, gs)
    requires forall i :: 0 <= i < |gs| ==> |gs[i].scores| > 0
    ensures merged == Summaries(gs)
  {
    merged := [];
    var k := 0;
    while k < |keys|
      invariant 0 <= k <= |keys|
      invariant merged == Summaries(gs)[..k]
    {
      var data := grouped[keys[k]];
      var avg := Sum(data.scores) / |data.scores| as real;
      var w := avg * (1.0 + (|data.scores| as real - 1.0) * 0.25);
      assert data == gs[k] && keys[k] == gs[k].source;
      assert w == CompositeScore(gs[k].scores);
      assert Summaries(gs)[..k + 1] == Summaries(gs)[..k] + [Summarize(gs[k])];
      merged := merged + [Merged(keys[k], w, Join(data.texts, "\n"))];
      k := k + 1;
    }
  }

  /** The `grouped` dictionary with its key order `keys` holds the groups `gs`, in order. */
  predicate Mirrors(keys: seq<string>, grouped: map<string, Group>, gs: seq<Group>) {
    |keys| == |gs|
    && (forall j :: 0 <= j < |keys| ==> keys[j] in grouped && grouped[keys[j]] == gs[j] && gs[j].source == keys[j])
    && (forall k :: k in grouped ==> k in keys)
  }

  lemma MirrorsAddNew(keys: seq<string>, grouped: map<string, Group>, gs: seq<Group>, c: Chunk)
    requires Mirrors(keys, grouped, gs) && c.source !in grouped
    ensures Mirrors(keys + [c.source], grouped[c.source := Group(c.source, [] + [c.text], [] + [c.score])], AddChunk(gs, c))
  {
  }

  lemma MirrorsAddExisting(keys: seq<string>, grouped: map<string, Group>, gs: seq<Group>, c: Chunk)
    requires Mirrors(keys, grouped, gs) && c.source in grouped
    requires forall i, j :: 0 <= i < j < |gs| ==> gs[i].source != gs[j].source
    ensures var g := grouped[c.source];
            Mirrors(keys, grouped[c.source := Group(c.source, g.texts + [c.text], g.scores + [c.score])], AddChunk(gs, c))
  {
    var j :| 0 <= j < |keys| && keys[j] == c.source;
    assert GroupSources(gs)[j] == c.source;
    var k := GroupIndex(gs, c.source).value;
    assert gs[k].source == c.source;
    assert k == j by {
      if k < j {
      } else if j < k {
      }
    }
  }

  /**
   * One merged document per distinct source: the sources of `Merge(cs)` are pairwise
   * different and are exactly the sources of the fragments.
   */
  lemma MergeOnePerSource(cs: seq<Chunk>)
    ensures forall i, j :: 0 <= i < j < |Merge(cs)| ==> Merge(cs)[i].source != Merge(cs)[j].source
    ensures forall s :: s in MergeSources(Merge(cs)) <==> s in ChunkSources(cs)
  {
    GroupsCorrect(cs);
    var gs := Groups(cs);
    var sums := Summaries(gs);
    SummariesOneEach(gs);
    SortByMembersDistinct(sums, MergedScore, true);
    var r := Merge(cs);
    assert r == SortBy(sums, MergedScore, true);
    DistinctSourcesKept(sums, r);
    SameMembersSameSources(sums, r);
    DedupMembers(ChunkSources(cs));
  }

  /** One summary per group, each under its group's source. */
  lemma SummariesOneEach(gs: seq<Group>)
    requires forall i :: 0 <= i < |gs| ==> |gs[i].scores| > 0
    requires forall i, j :: 0 <= i < j < |gs| ==> gs[i].source != gs[j].source
    ensures forall a, b :: 0 <= a < b < |Summaries(gs)| ==> Summaries(gs)[a].source != Summaries(gs)[b].source
    ensures Distinct(Summaries(gs))
    ensures MergeSources(Summaries(gs)) == GroupSources(gs)
  {
    var sums := Summaries(gs);
    forall a, b | 0 <= a < b < |sums| ensures sums[a].source != sums[b].source {
      assert sums[a].source == gs[a].source && sums[b].source == gs[b].source;
    }
  }

  /** A duplicate-free rearrangement of documents with distinct sources keeps the sources distinct. */
  lemma DistinctSourcesKept(ms: seq<Merged>, r: seq<Merged>)
    requires forall a, b :: 0 <= a < b < |ms| ==> ms[a].source != ms[b].source
    requires Distinct(r) && forall m :: m in r ==> m in ms
    ensures forall i, j :: 0 <= i < j < |r| ==> r[i].source != r[j].source
  {
    forall i, j | 0 <= i < j < |r| ensures r[i].source != r[j].source {
      assert r[i] in r && r[j] in r;
      var a :| 0 <= a < |ms| && ms[a] == r[i];
      var b :| 0 <= b < |ms| && ms[b] == r[j];
      if a < b {
      } else if b < a {
      }
    }
  }

  /** Two lists of the same documents cover the same sources. */
  lemma SameMembersSameSources(ms: seq<Merged>, r: seq<Merged>)
    requires forall m :: m in r <==> m in ms
    ensures forall s :: s in MergeSources(r) <==> s in MergeSources(ms)
  {
    forall s | s in MergeSources(r) ensures s in MergeSources(ms) {
      var i :| 0 <= i < |r| && MergeSources(r)[i] == s;
      assert r[i] in r;
      var a :| 0 <= a < |ms| && ms[a] == r[i];
      assert MergeSources(ms)[a] == s;
    }
    forall s | s in MergeSources(ms) ensures s in MergeSources(r) {
      var a :| 0 <= a < |ms| && MergeSources(ms)[a] == s;
      assert ms[a] in ms;
      var i :| 0 <= i < |r| && r[i] == ms[a];
      assert MergeSources(r)[i] == s;
    }
  }

  /** The merged documents come in non-increasing score order. */
  lemma MergeOrdered(cs: seq<Chunk>)
    ensures forall i, j :: 0 <= i < j < |Merge(cs)| ==> Merge(cs)[i].score >= Merge(cs)[j].score
  {
    GroupsCorrect(cs);
    SortByOrderedPermutation(Summaries(Groups(cs)), MergedScore, true);
  }

  /** Documents with equal scores keep the first-seen order of their sources (the sort is stable). */
  lemma MergeTiesFirstSeen(cs: seq<Chunk>, score: real)
    ensures GroupsOf(cs, Groups(cs))
    ensures WithKey(Merge(cs), MergedScore, score) == WithKey(Summaries(Groups(cs)), MergedScore, score)
  {
    GroupsCorrect(cs);
    SortByStable(Summaries(Groups(cs)), MergedScore, true, score);
  }

  /**
   * Each merged document holds exactly its source's fragments: its text is their texts
   * joined with newlines in retrieval order, its score the composite of their scores.
   */
  lemma MergeContents(cs: seq<Chunk>)
    ensures forall i :: 0 <= i < |Merge(cs)| ==>
              |ScoresFrom(cs, Merge(cs)[i].source)| > 0
              && Merge(cs)[i].text == Join(TextsFrom(cs, Merge(cs)[i].source), "\n")
              && Merge(cs)[i].score == CompositeScore(ScoresFrom(cs, Merge(cs)[i].source))
  {
    GroupsCorrect(cs);
    var gs := Groups(cs);
    var sums := Summaries(gs);
    SortByMembersDistinct(sums, MergedScore, true);
    var r := Merge(cs);
    assert r == SortBy(sums, MergedScore, true);
    forall i | 0 <= i < |r|
      ensures |ScoresFrom(cs, r[i].source)| > 0
      ensures r[i].text == Join(TextsFrom(cs, r[i].source), "\n")
      ensures r[i].score == CompositeScore(ScoresFrom(cs, r[i].source))
    {
      assert r[i] in r;
      var a :| 0 <= a < |sums| && sums[a] == r[i];
      assert r[i] == Summarize(gs[a]);
    }
  }

  /** Every fragment's text reaches the group of its own source. */
  lemma {:induction false} FragmentInItsGroup(cs: seq<Chunk>, i: nat)
    requires i < |cs|
    ensures cs[i].text in TextsFrom(cs, cs[i].source)
    ensures cs[i].score in ScoresFrom(cs, cs[i].source)
    decreases |cs|
  {
    if i < |cs| - 1 {
      var p := cs[..|cs| - 1];
      assert p[i] == cs[i];
      FragmentInItsGroup(p, i);
    }
  }

  /** No fragments, no documents. */
  lemma MergeEmpty()
    ensures Merge([]) == []
  {
  }

  // ---------------------------------------------------------------------------------
  // Rendering the merged documents

  /** `"[" + str(n) + "]"`, the citation label of block `n`. */
  function Label(n: nat): string {
    "[" + NatToString(n) + "]"
  }

  const NoDocumentsMessage: string := "No relevant documents found."

  /** One context block of `rag_answer`: `f"[{i+1}] FILE: {source}\n{text}"`. */
  function ContextBlock(n: nat, m: Merged): string {
    Label(n) + " FILE: " + m.source + "\n" + m.text
  }

  function ContextBlocks(docs: seq<Merged>): seq<string> {
    seq(|docs|, i requires 0 <= i < |docs| => ContextBlock(i + 1, docs[i]))
  }

  /**
   * The context text given to the model in `rag_answer`: the no-documents message exactly
   * when there is no document; otherwise it opens with the first block's label `[1]`.
   */
  function ContextText(docs: seq<Merged>): (r: string)
    ensures r == NoDocumentsMessage <==> docs == []
    ensures docs != [] ==> Label(1) <= r
  {
    if docs == [] then NoDocumentsMessage
    else
      var blocks := ContextBlocks(docs);
      JoinStartsWithFirst(blocks, "\n\n");
      assert Label(1) <= blocks[0];
      assert Label(1)[0] == '[' != NoDocumentsMessage[0];
      Join(blocks, "\n\n")
  }

  /** A sidebar footnote: `{"index", "text", "source", "score"}`. */
  datatype Footnote = Footnote(index: nat, text: string, source: string, score: real)

  /**
   * `[{"index": i, ...} for i, ctx in enumerate(contexts, 1)]`: one footnote per document,
   * with indices rising from 1 to the number of documents.
   */
  function Footnotes(docs: seq<Merged>): (r: seq<Footnote>)
    ensures |r| == |docs|
    ensures forall i :: 0 <= i < |r| ==> 1 <= r[i].index <= |docs|
    ensures forall i, j :: 0 <= i < j < |r| ==> r[i].index < r[j].index
  {
    seq(|docs|, i requires 0 <= i < |docs| => Footnote(i + 1, docs[i].text, docs[i].source, docs[i].score))
  }

  /** In a text that opens with a label, the label's closing bracket is the first one. */
  lemma LabelClose(a: string, s: string)
    requires AllDigits(a) && "[" + a + "]" <= s
    ensures IndexOf(s[1..], ']') == Some(|a|)
  {
    assert s[1..][|a|] == ']';
    assert s[1..][..|a|] == a;
  }

  lemma LabelPrefixUnique(a: string, b: string, s: string)
    requires AllDigits(a) && AllDigits(b)
    requires "[" + a + "]" <= s && "[" + b + "]" <= s
    ensures a == b
  {
    LabelClose(a, s);
    LabelClose(b, s);
    assert a == s[1..|a| + 1] == b;
  }

  /**
   * Dense numbering: block `i` (0-based) opens with the label of `i + 1`, whose digits
   * read back as `i + 1`, and with no other block's label.
   */
  lemma ContextBlocksNumbered(docs: seq<Merged>)
    ensures |ContextBlocks(docs)| == |docs|
    ensures forall i :: 0 <= i < |docs| ==>
              Label(i + 1) <= ContextBlocks(docs)[i] && DigitsValue(NatToString(i + 1)) == i + 1
    ensures forall n, j :: 1 <= n <= |docs| && 0 <= j < |docs| && n != j + 1 ==> !(Label(n) <= ContextBlocks(docs)[j])
  {
    var blocks := ContextBlocks(docs);
    forall i | 0 <= i < |docs|
      ensures Label(i + 1) <= blocks[i] && DigitsValue(NatToString(i + 1)) == i + 1
    {
      NatToStringRoundTrip(i + 1);
      assert blocks[i] == Label(i + 1) + (" FILE: " + docs[i].source + "\n" + docs[i].text);
    }
    forall n, j | 1 <= n <= |docs| && 0 <= j < |docs| && n != j + 1
      ensures !(Label(n) <= blocks[j])
    {
      assert blocks[j] == Label(j + 1) + (" FILE: " + docs[j].source + "\n" + docs[j].text);
      if Label(n) <= blocks[j] {
        LabelPrefixUnique(NatToString(n), NatToString(j + 1), blocks[j]);
        NatToStringInjective(n, j + 1);
        assert false;
      }
    }
  }

  /** Footnote `k` carries index `k + 1` and the same document as context block `k`. */
  lemma FootnotesMatchBlocks(docs: seq<Merged>)
    ensures |Footnotes(docs)| == |ContextBlocks(docs)| == |docs|
    ensures forall k :: 0 <= k < |docs| ==>
              var f := Footnotes(docs)[k];
              f.index == k + 1 && ContextBlocks(docs)[k] == ContextBlock(f.index, Merged(f.source, f.score, f.text))
  {
  }

  /** When every result reaches the threshold, the filter drops nothing and keeps the order. */
  lemma {:induction false} SurvivorsAllKept(rs: seq<RetrievalResult>, threshold: real, unknown: string)
    requires forall i :: 0 <= i < |rs| ==> ScoreOf(rs[i]) >= threshold
    ensures |Survivors(rs, threshold, unknown)| == |rs|
    ensures forall i :: 0 <= i < |rs| ==> Survivors(rs, threshold, unknown)[i] == ToChunk(rs[i], unknown)
    decreases |rs|
  {
    if rs != [] {
      var p := rs[..|rs| - 1];
      assert forall i :: 0 <= i < |p| ==> p[i] == rs[i];
      SurvivorsAllKept(p, threshold, unknown);
      var s, sp := Survivors(rs, threshold, unknown), Survivors(p, threshold, unknown);
      assert ScoreOf(rs[|rs| - 1]) >= threshold;
      assert s == sp + [ToChunk(rs[|rs| - 1], unknown)];
      forall i | 0 <= i < |rs| ensures s[i] == ToChunk(rs[i], unknown) {
        if i < |p| {
          assert s[i] == sp[i];
        }
      }
    }
  }

  /** With no document above the threshold, the model is told that none was found. */
  lemma NoSurvivorsNoContext(rs: seq<RetrievalResult>)
    requires forall i :: 0 <= i < |rs| ==> ScoreOf(rs[i]) < RagThreshold
    ensures Survivors(rs, RagThreshold, RagUnknown) == []
    ensures ContextText(Merge(Survivors(rs, RagThreshold, RagUnknown))) == NoDocumentsMessage
  {
    if Survivors(rs, RagThreshold, RagUnknown) != [] {
      var c := Survivors(rs, RagThreshold, RagUnknown)[0];
      SurvivorsMembers(rs, RagThreshold, RagUnknown, c);
    }
  }

  /**
   * The retrieval half of `rag_answer`: the filtered, merged documents, the context text
   * built from them, and the footnotes stored for the sidebar.
   */
  method RagContext(results: seq<RetrievalResult>)
    returns (contexts: seq<Merged>, contextText: string, footnotes: seq<Footnote>)
    ensures contexts == Merge(Survivors(results, RagThreshold, RagUnknown))
    ensures contextText == ContextText(contexts) && footnotes == Footnotes(contexts)
  {
    var chunks := RetrieveFromResults(results, RagThreshold, RagUnknown);
    contexts := MergeChunksByFile(chunks);
    contextText := ContextText(contexts);
    footnotes := Footnotes(contexts);
  }

  const NoResultsMessage: string := "검색 결과 없음."

  /** One block of the `search_knowledge_base` tool output: `f"[ID: {i+1}] 파일: {source}\n내용:\n{text}"`. */
  function ToolBlock(n: nat, m: Merged): string {
    "[ID: " + NatToString(n) + "] 파일: " + m.source + "\n내용:\n" + m.text
  }

  function ToolBlocks(docs: seq<Merged>): seq<string> {
    seq(|docs|, i requires 0 <= i < |docs| => ToolBlock(i + 1, docs[i]))
  }

  /** The citation id `[ID: n]` that opens tool block `n`. */
  function ToolId(n: nat): string {
    "[ID: " + NatToString(n) + "]"
  }

  /** A text opens with at most one citation id. */
  lemma ToolIdPrefixUnique(a: string, b: string, s: string)
    requires AllDigits(a) && AllDigits(b)
    requires "[ID: " + a + "]" <= s && "[ID: " + b + "]" <= s
    ensures a == b
  {
    var t := s[5..];
    assert forall k :: 0 <= k < |a| ==> t[k] == a[k];
    assert forall k :: 0 <= k < |b| ==> t[k] == b[k];
    assert t[|a|] == ']' && t[|b|] == ']';
    assert |a| == |b|;
  }

  /**
   * The tool output numbers its blocks densely: block `i` (0-based) opens with `[ID: i+1]`
   * and with no other block's id, and carries document `i`'s source and text.
   */
  lemma ToolBlocksNumbered(docs: seq<Merged>)
    ensures |ToolBlocks(docs)| == |docs|
    ensures forall i :: 0 <= i < |docs| ==> ToolId(i + 1) <= ToolBlocks(docs)[i]
    ensures forall i :: 0 <= i < |docs| ==>
              ToolBlocks(docs)[i] == ToolId(i + 1) + " 파일: " + docs[i].source + "\n내용:\n" + docs[i].text
    ensures forall n, j :: 1 <= n <= |docs| && 0 <= j < |docs| && n != j + 1 ==> !(ToolId(n) <= ToolBlocks(docs)[j])
  {
    var blocks := ToolBlocks(docs);
    forall i | 0 <= i < |docs|
      ensures blocks[i] == ToolId(i + 1) + " 파일: " + docs[i].source + "\n내용:\n" + docs[i].text
      ensures ToolId(i + 1) <= blocks[i]
    {
      assert blocks[i] == ToolId(i + 1) + (" 파일: " + docs[i].source + "\n내용:\n" + docs[i].text);
    }
    forall n, j | 1 <= n <= |docs| && 0 <= j < |docs| && n != j + 1
      ensures !(ToolId(n) <= blocks[j])
    {
      if ToolId(n) <= blocks[j] {
        ToolIdPrefixUnique(NatToString(n), NatToString(j + 1), blocks[j]);
        NatToStringInjective(n, j + 1);
        assert false;
      }
    }
  }

  /**
   * `search_knowledge_base` after the knowledge-base call: the same filter (threshold 0.60,
   * missing uri named "Unknown"), grouping and sort, the sorted documents kept as the shared
   * context's `docs`, and the tool output built block by block.
   */
  method SearchKnowledgeBase(results: seq<RetrievalResult>) returns (output: string, docs: seq<Merged>)
    ensures docs == Merge(Survivors(results, AppThreshold, AppUnknown))
    ensures docs == [] ==> output == NoResultsMessage
    ensures docs != [] ==> output == Join(ToolBlocks(docs), "\n\n")
  {
    var chunks := RetrieveFromResults(results, AppThreshold, AppUnknown);
    docs := MergeChunksByFile(chunks);
    if docs == [] {
      return NoResultsMessage, docs;
    }
    var out: seq<string> := [];
    var i := 0;
    while i < |docs|
      invariant 0 <= i <= |docs|
      invariant out == ToolBlocks(docs)[..i]
    {
      out := out + ["[ID: " + NatToString(i + 1) + "] 파일: " + docs[i].source + "\n내용:\n" + docs[i].text];
      i := i + 1;
    }
    assert out == ToolBlocks(docs);
    output := Join(out, "\n\n");
  }
}
