/**
 * The study session's bookkeeping (app.py:385-507): the bookmarked questions, the answer
 * history with one record per question, and the statistics, weak topics and wrong-answer
 * list derived from that history. Streamlit's `st.session_state` is the object
 * `StudySession`, whose four fields are the four entries the functions keep there; an
 * entry that does not exist yet behaves as the empty list or dict the functions create.
 */
module Session {
  import opened Wrappers
  import opened Strings
  import opened Sorting
  import opened Questions

  /** The difficulty levels `get_statistics` tallies, in the order of its dict. */
  const Levels: seq<string> := ["쉬움", "보통", "어려움"]

  /** `question_data.get("difficulty", "보통")` */
  const DefaultDifficulty: string := "보통"

  /** `f"bookmark_{qid}"` */
  function BookmarkKey(qid: string): string {
    "bookmark_" + qid
  }

  /**
   * `hash(question_data["question"])`: the hash of a question text, modelled as the text
   * itself, or the hash of `None` for a `null` question. `hash("")` is `0`, the one falsy key.
   */
  datatype QuestionHash = TextHash(text: string) | NoneHash

  const EmptyHash: QuestionHash := TextHash("")

  function HashOf(f: Json<string>): QuestionHash
    requires f.Val? || f.Null?
  {
    if f.Val? then TextHash(f.value) else NoneHash
  }

  /** `question_data.get(k, default)` on a string-valued key. */
  function TextOr(f: Json<string>, default: string): string
    requires f.Absent? || f.Val?
  {
    if f.Val? then f.value else default
  }

  /**
   * A record `record_answer` can take: its question text is a string or `null` (a missing
   * key raises `KeyError`), and its topic and difficulty are strings when present.
   */
  predicate Answerable(q: Question) {
    (q.question.Val? || q.question.Null?) && (q.topic.Absent? || q.topic.Val?) && (q.difficulty.Absent? || q.difficulty.Val?)
  }

  /** Every record of a stamped batch with a string or `null` question text can be answered. */
  lemma StampedAnswerable(q: Question, uniqueId: nat, idx: nat, topic: string, difficulty: string, qtype: string)
    requires q.question.Val? || q.question.Null?
    ensures var r := NormalizeRecord(q, uniqueId, idx, topic, difficulty, qtype);
            r.Some? ==> Answerable(r.value) && TextOr(r.value.topic, "") == topic && TextOr(r.value.difficulty, DefaultDifficulty) == difficulty
  {
  }

  /** One entry of `answer_history`; `key` is its `question_hash`. */
  datatype HistoryRecord = HistoryRecord(
    qid: string,
    key: QuestionHash,
    topic: string,
    difficulty: string,
    correct: bool,
    question: Question)

  // ---------------------------------------------------------------------------
  // Bookmarks
  // ---------------------------------------------------------------------------

  /** `list.remove(k)` when `k` is present: drops the first `k` and keeps the rest in order. */
  function RemoveFirst(bs: seq<string>, k: string): (r: seq<string>)
    ensures k in bs ==> |r| == |bs| - 1
    ensures k !in bs ==> r == bs
    ensures multiset(r) == multiset(bs) - multiset{k}
  {
    if bs == [] then []
    else if bs[0] == k then
      assert bs == [k] + bs[1..];
      bs[1..]
    else
      assert bs == [bs[0]] + bs[1..];
      [bs[0]] + RemoveFirst(bs[1..], k)
  }

  /** The bookmark list after toggling key `k`. */
  function ToggledBookmarks(bs: seq<string>, k: string): seq<string> {
    if k in bs then RemoveFirst(bs, k) else bs + [k]
  }

  lemma {:induction false} RemoveFirstDistinct(bs: seq<string>, k: string)
    requires Distinct(bs)
    ensures Distinct(RemoveFirst(bs, k))
    ensures forall x :: x in RemoveFirst(bs, k) <==> x in bs && x != k
  {
    if bs != [] {
      DistinctTail(bs[0], bs[1..]);
      assert bs == [bs[0]] + bs[1..];
      if bs[0] != k {
        RemoveFirstDistinct(bs[1..], k);
        DistinctCons(bs[0], RemoveFirst(bs[1..], k));
      }
    }
  }

  /** Toggling flips the membership of the toggled key only, and never creates a duplicate. */
  lemma ToggleFlips(bs: seq<string>, k: string)
    requires Distinct(bs)
    ensures Distinct(ToggledBookmarks(bs, k))
    ensures k in ToggledBookmarks(bs, k) <==> k !in bs
    ensures forall x :: x != k ==> (x in ToggledBookmarks(bs, k) <==> x in bs)
  {
    if k in bs {
      RemoveFirstDistinct(bs, k);
    } else {
      forall i, j | 0 <= i < j < |bs + [k]| ensures (bs + [k])[i] != (bs + [k])[j] {
        if j == |bs| {
          assert (bs + [k])[i] == bs[i];
        }
      }
    }
  }

  /** Bookmarking a question and then toggling it again restores the list exactly. */
  lemma {:induction false} ToggleTwice(bs: seq<string>, k: string)
    requires k !in bs
    ensures ToggledBookmarks(ToggledBookmarks(bs, k), k) == bs
  {
    assert ToggledBookmarks(bs, k) == bs + [k];
    RemoveFirstAppended(bs, k);
  }

  lemma {:induction false} RemoveFirstAppended(bs: seq<string>, k: string)
    requires k !in bs
    ensures RemoveFirst(bs + [k], k) == bs
  {
    if bs == [] {
      assert [k][1..] == [];
    } else {
      assert (bs + [k])[0] == bs[0];
      assert (bs + [k])[1..] == bs[1..] + [k];
      RemoveFirstAppended(bs[1..], k);
      assert bs == [bs[0]] + bs[1..];
    }
  }

  // ---------------------------------------------------------------------------
  // Answer history
  // ---------------------------------------------------------------------------

  /** The question keys of the history. */
  function KeySet(h: seq<HistoryRecord>): set<QuestionHash>
    decreases |h|
  {
    if h == [] then {} else KeySet(h[..|h| - 1]) + {h[|h| - 1].key}
  }

  lemma {:induction false} KeySetIndex(h: seq<HistoryRecord>, k: QuestionHash)
    ensures k in KeySet(h) <==> exists i :: 0 <= i < |h| && h[i].key == k
    decreases |h|
  {
    if h != [] {
      var p := h[..|h| - 1];
      KeySetIndex(p, k);
      if k in KeySet(p) {
        var i :| 0 <= i < |p| && p[i].key == k;
        assert h[i].key == k;
      }
      if i :| 0 <= i < |h| - 1 && h[i].key == k {
        assert p[i].key == k;
      }
    }
  }

  /** No two records share a question key. */
  predicate UniqueKeys(h: seq<HistoryRecord>) {
    forall i, j :: 0 <= i < j < |h| ==> h[i].key != h[j].key
  }

  /**
   * `answered_questions` agrees with `answer_history`: it holds exactly the recorded keys,
   * each mapped to its record's `correct` flag, and every key is recorded once.
   */
  ghost predicate HistoryAgrees(h: seq<HistoryRecord>, answered: map<QuestionHash, bool>) {
    UniqueKeys(h)
    && answered.Keys == KeySet(h)
    && (forall i :: 0 <= i < |h| ==> h[i].key in answered && answered[h[i].key] == h[i].correct)
  }

  /** The loop of `record_answer` on a repeated question: the first record with key `k` takes flag `c`. */
  function SetCorrect(h: seq<HistoryRecord>, k: QuestionHash, c: bool): (r: seq<HistoryRecord>)
    ensures |r| == |h|
    ensures forall i :: 0 <= i < |h| ==> r[i].(correct := h[i].correct) == h[i]
    ensures forall i :: 0 <= i < |h| && r[i] != h[i] ==> h[i].key == k && r[i].correct == c
  {
    if h == [] then []
    else if h[0].key == k then [h[0].(correct := c)] + h[1..]
    else [h[0]] + SetCorrect(h[1..], k, c)
  }

  /** The record `record_answer` appends for a question answered for the first time. */
  function NewRecord(qid: string, q: Question, c: bool): HistoryRecord
    requires Answerable(q)
  {
    HistoryRecord(qid, HashOf(q.question), TextOr(q.topic, ""), TextOr(q.difficulty, DefaultDifficulty), c, q)
  }

  /**
   * The history after answering `q` with outcome `c`: the question's key is recorded
   * afterwards, no other key is added, and the history grows only for a new question.
   */
  function Answered(h: seq<HistoryRecord>, qid: string, q: Question, c: bool): (r: seq<HistoryRecord>)
    requires Answerable(q)
    ensures KeySet(r) == KeySet(h) + {HashOf(q.question)}
    ensures |r| == if HashOf(q.question) in KeySet(h) then |h| else |h| + 1
  {
    var k := HashOf(q.question);
    if k in KeySet(h) then
      var r := SetCorrect(h, k, c);
      assert forall i :: 0 <= i < |h| ==> r[i].key == r[i].(correct := h[i].correct).key;
      SameKeysKeySet(h, r);
      r
    else
      var r := h + [NewRecord(qid, q, c)];
      assert r[..|r| - 1] == h;
      r
  }

  /** When the first record with key `k` sits at `i`, updating the flag changes exactly that record. */
  lemma {:induction false} SetCorrectAt(h: seq<HistoryRecord>, k: QuestionHash, c: bool, i: nat)
    requires i < |h| && h[i].key == k
    requires forall j :: 0 <= j < i ==> h[j].key != k
    ensures SetCorrect(h, k, c) == h[i := h[i].(correct := c)]
  {
    if i > 0 {
      SetCorrectAt(h[1..], k, c, i - 1);
      assert h[1..][i - 1 := h[i].(correct := c)] == h[i := h[i].(correct := c)][1..];
    }
  }

  /**
   * `record_answer` keeps `answered_questions` in agreement with the history: at most one
   * record per question, and the map holds each record's latest flag.
   */
  lemma AnsweredAgrees(h: seq<HistoryRecord>, answered: map<QuestionHash, bool>, qid: string, q: Question, c: bool)
    requires HistoryAgrees(h, answered) && Answerable(q)
    ensures HistoryAgrees(Answered(h, qid, q, c), answered[HashOf(q.question) := c])
  {
    if HashOf(q.question) in KeySet(h) {
      ReanswerAgrees(h, answered, HashOf(q.question), c);
    } else {
      FirstAnswerAgrees(h, answered, NewRecord(qid, q, c));
    }
  }

  lemma ReanswerAgrees(h: seq<HistoryRecord>, answered: map<QuestionHash, bool>, k: QuestionHash, c: bool)
    requires HistoryAgrees(h, answered) && k in KeySet(h)
    ensures HistoryAgrees(SetCorrect(h, k, c), answered[k := c])
  {
    KeySetIndex(h, k);
    var i0 :| 0 <= i0 < |h| && h[i0].key == k;
    SetCorrectAt(h, k, c, i0);
    var h' := h[i0 := h[i0].(correct := c)];
    var a' := answered[k := c];
    SameKeysKeySet(h, h');
    assert UniqueKeys(h') by {
      forall i, j | 0 <= i < j < |h'| ensures h'[i].key != h'[j].key {
        assert h'[i].key == h[i].key && h'[j].key == h[j].key;
      }
    }
    forall i | 0 <= i < |h'| ensures h'[i].key in a' && a'[h'[i].key] == h'[i].correct {
      if i != i0 {
        assert h'[i] == h[i];
        assert h[i].key != h[i0].key;
      }
    }
  }

  /** Histories with the same key at every position have the same key set. */
  lemma {:induction false} SameKeysKeySet(h: seq<HistoryRecord>, h': seq<HistoryRecord>)
    requires |h| == |h'| && forall i :: 0 <= i < |h| ==> h'[i].key == h[i].key
    ensures KeySet(h') == KeySet(h)
    decreases |h|
  {
    if h != [] {
      SameKeysKeySet(h[..|h| - 1], h'[..|h| - 1]);
    }
  }

  lemma FirstAnswerAgrees(h: seq<HistoryRecord>, answered: map<QuestionHash, bool>, r: HistoryRecord)
    requires HistoryAgrees(h, answered) && r.key !in KeySet(h)
    ensures HistoryAgrees(h + [r], answered[r.key := r.correct])
  {
    var h' := h + [r];
    var a' := answered[r.key := r.correct];
    assert h'[..|h|] == h;
    assert KeySet(h') == KeySet(h) + {r.key};
    KeySetIndex(h, r.key);
    assert forall i :: 0 <= i < |h| ==> h'[i] == h[i] && h[i].key != r.key;
    forall i, j | 0 <= i < j < |h'| ensures h'[i].key != h'[j].key {
      if j == |h| {
        assert h'[j] == r;
      }
    }
    forall i | 0 <= i < |h'| ensures h'[i].key in a' && a'[h'[i].key] == h'[i].correct {
      if i < |h| {
        assert h[i].key in answered && answered[h[i].key] == h[i].correct;
      }
    }
  }

  /**
   * Answering a question that is already in the history changes only that record's
   * `correct` flag: the history keeps its length, order and every other field.
   */
  lemma ReanswerOnlyUpdatesFlag(h: seq<HistoryRecord>, qid: string, q: Question, c: bool, i: nat)
    requires UniqueKeys(h) && Answerable(q)
    requires i < |h| && h[i].key == HashOf(q.question)
    ensures Answered(h, qid, q, c) == h[i := h[i].(correct := c)]
  {
    KeySetIndex(h, h[i].key);
    SetCorrectAt(h, HashOf(q.question), c, i);
  }

  /** A first answer appends one record, with the topic and difficulty defaults of `record_answer`. */
  lemma FirstAnswerAppends(h: seq<HistoryRecord>, qid: string, q: Question, c: bool)
    requires Answerable(q)
    requires forall i :: 0 <= i < |h| ==> h[i].key != HashOf(q.question)
    ensures |Answered(h, qid, q, c)| == |h| + 1
    ensures Answered(h, qid, q, c)[..|h|] == h
    ensures var r := Answered(h, qid, q, c)[|h|];
      r.key == HashOf(q.question) && r.qid == qid && r.correct == c && r.question == q
      && (q.topic.Absent? ==> r.topic == "") && (q.topic.Val? ==> r.topic == q.topic.value)
      && (q.difficulty.Absent? ==> r.difficulty == DefaultDifficulty)
      && (q.difficulty.Val? ==> r.difficulty == q.difficulty.value)
  {
    KeySetIndex(h, HashOf(q.question));
  }

  // ---------------------------------------------------------------------------
  // Statistics
  // ---------------------------------------------------------------------------

  /** Which field of a record a tally groups by. */
  datatype Facet = Topic | Difficulty

  function FacetOf(r: HistoryRecord, f: Facet): string {
    match f
    case Topic => r.topic
    case Difficulty => r.difficulty
  }

  /** The facet values of the history, in order. */
  function FacetsOf(h: seq<HistoryRecord>, f: Facet): (vs: seq<string>)
    ensures |vs| == |h|
    decreases |h|
  {
    if h == [] then [] else FacetsOf(h[..|h| - 1], f) + [FacetOf(h[|h| - 1], f)]
  }

  lemma {:induction false} FacetsOfIndex(h: seq<HistoryRecord>, f: Facet)
    ensures forall i :: 0 <= i < |h| ==> FacetsOf(h, f)[i] == FacetOf(h[i], f)
    decreases |h|
  {
    if h != [] {
      FacetsOfIndex(h[..|h| - 1], f);
    }
  }

  /** `{"total": ..., "correct": ...}` */
  datatype Tally = Tally(total: nat, correct: nat)

  /** How many records have facet value `v`, and how many of those were answered correctly. */
  function TallyOf(h: seq<HistoryRecord>, f: Facet, v: string): (t: Tally)
    ensures t.correct <= t.total <= |h|
    decreases |h|
  {
    if h == [] then Tally(0, 0)
    else
      var p := h[..|h| - 1];
      var r := h[|h| - 1];
      var t := TallyOf(p, f, v);
      if FacetOf(r, f) == v then Tally(t.total + 1, t.correct + (if r.correct then 1 else 0)) else t
  }

  /** A value has answers exactly when some record carries it. */
  lemma {:induction false} TallyOfPositive(h: seq<HistoryRecord>, f: Facet, v: string)
    ensures TallyOf(h, f, v).total > 0 <==> v in FacetsOf(h, f)
    decreases |h|
  {
    if h != [] {
      var p := h[..|h| - 1];
      TallyOfPositive(p, f, v);
      assert FacetsOf(h, f) == FacetsOf(p, f) + [FacetOf(h[|h| - 1], f)];
    }
  }

  /** `sum(1 for h in history if h["correct"])` */
  function CorrectCount(h: seq<HistoryRecord>): (n: nat)
    ensures n <= |h|
    decreases |h|
  {
    if h == [] then 0
    else CorrectCount(h[..|h| - 1]) + (if h[|h| - 1].correct then 1 else 0)
  }

  /** `correct / total * 100`, or 0 for no answers. */
  function Percent(correct: nat, total: nat): real {
    if total > 0 then (correct as real / total as real) * 100.0 else 0.0
  }

  lemma PercentBounds(correct: nat, total: nat)
    requires correct <= total
    ensures 0.0 <= Percent(correct, total) <= 100.0
  {
    if total > 0 {
      var q := correct as real / total as real;
      assert q * total as real == correct as real;
      assert q <= 1.0;
    }
  }

  /** The tallies of the values `vs` by facet `f`, as a dict. */
  function TallyMap(h: seq<HistoryRecord>, f: Facet, vs: seq<string>): map<string, Tally> {
    map v | v in vs :: TallyOf(h, f, v)
  }

  /** The dict `get_statistics` returns. `topicOrder` is the key order of `topic_stats`. */
  datatype Stats = Stats(
    total: nat,
    correct: nat,
    accuracy: real,
    topicOrder: seq<string>,
    topicStats: map<string, Tally>,
    diffStats: map<string, Tally>)

  /**
   * What `get_statistics` computes from the history: `None` exactly for an empty history;
   * otherwise the total is the history length, at least the correct count, and the
   * accuracy is a percentage.
   */
  function Statistics(h: seq<HistoryRecord>): (r: Option<Stats>)
    ensures r.None? <==> h == []
    ensures r.Some? ==> r.value.total == |h| && r.value.correct <= r.value.total
                        && 0.0 <= r.value.accuracy <= 100.0
  {
    if h == [] then None
    else
      PercentBounds(CorrectCount(h), |h|);
      Some(Stats(
        |h|,
        CorrectCount(h),
        Percent(CorrectCount(h), |h|),
        Dedup(FacetsOf(h, Topic)),
        TallyMap(h, Topic, FacetsOf(h, Topic)),
        TallyMap(h, Difficulty, Levels)))
  }

  /** Every difficulty is one of the three levels (otherwise `get_statistics` raises `KeyError`). */
  predicate KnownLevels(h: seq<HistoryRecord>) {
    forall i :: 0 <= i < |h| ==> h[i].difficulty in Levels
  }

  /** The tallies of the values `vs`, added up. */
  function TallySum(h: seq<HistoryRecord>, vs: seq<string>, f: Facet): Tally {
    if vs == [] then Tally(0, 0)
    else
      var t := TallyOf(h, f, vs[0]);
      var rest := TallySum(h, vs[1..], f);
      Tally(t.total + rest.total, t.correct + rest.correct)
  }

  /** How often `v` occurs in `vs`. */
  function Occurrences(vs: seq<string>, v: string): nat {
    if vs == [] then 0 else (if vs[0] == v then 1 else 0) + Occurrences(vs[1..], v)
  }

  lemma {:induction false} OccurrencesDistinct(vs: seq<string>, v: string)
    requires Distinct(vs)
    ensures Occurrences(vs, v) == (if v in vs then 1 else 0)
  {
    if vs != [] {
      DistinctTail(vs[0], vs[1..]);
      assert vs == [vs[0]] + vs[1..];
      OccurrencesDistinct(vs[1..], v);
    }
  }

  /** Appending record `r` adds it to the sum once for every occurrence of its facet value. */
  lemma {:induction false} TallySumSnoc(p: seq<HistoryRecord>, r: HistoryRecord, vs: seq<string>, f: Facet)
    ensures var n := Occurrences(vs, FacetOf(r, f));
      TallySum(p + [r], vs, f)
      == Tally(TallySum(p, vs, f).total + n, TallySum(p, vs, f).correct + (if r.correct then n else 0))
  {
    if vs != [] {
      TallySumSnoc(p, r, vs[1..], f);
      assert (p + [r])[..|p + [r]| - 1] == p;
    }
  }

  /**
   * When every record's facet value is listed exactly once in `vs`, the tallies of `vs`
   * add up to the whole history: each answer is counted in exactly one group.
   */
  lemma {:induction false} TallySumCovers(h: seq<HistoryRecord>, vs: seq<string>, f: Facet)
    requires Distinct(vs)
    requires forall i :: 0 <= i < |h| ==> FacetOf(h[i], f) in vs
    ensures TallySum(h, vs, f) == Tally(|h|, CorrectCount(h))
    decreases |h|
  {
    if h == [] {
      TallySumEmpty(vs, f);
    } else {
      var p := h[..|h| - 1];
      var r := h[|h| - 1];
      TallySumCovers(p, vs, f);
      assert h == p + [r];
      TallySumSnoc(p, r, vs, f);
      OccurrencesDistinct(vs, FacetOf(r, f));
    }
  }

  lemma {:induction false} TallySumEmpty(vs: seq<string>, f: Facet)
    ensures TallySum([], vs, f) == Tally(0, 0)
  {
    if vs != [] {
      TallySumEmpty(vs[1..], f);
    }
  }

  /** The topics in `topic_stats` order are exactly the topics answered, each once. */
  lemma StatisticsTopics(h: seq<HistoryRecord>)
    requires h != []
    ensures var s := Statistics(h).value;
      Distinct(s.topicOrder)
      && (forall t :: t in s.topicOrder <==> t in s.topicStats)
      && (forall t :: t in s.topicStats <==> exists i :: 0 <= i < |h| && h[i].topic == t)
  {
    DedupMembers(FacetsOf(h, Topic));
    FacetsOfIndex(h, Topic);
    var s := Statistics(h).value;
    forall t | t in s.topicStats ensures exists i :: 0 <= i < |h| && h[i].topic == t {
      var i :| 0 <= i < |h| && FacetsOf(h, Topic)[i] == t;
    }
    forall t, i | 0 <= i < |h| && h[i].topic == t ensures t in s.topicStats {
      assert FacetsOf(h, Topic)[i] == t;
    }
  }

  /**
   * The statistics are consistent: the accuracy is a percentage, every group has at least
   * one answer and no more correct answers than answers, and the topic tallies add up to
   * the whole history.
   */
  lemma StatisticsConsistent(h: seq<HistoryRecord>)
    requires h != []
    ensures var s := Statistics(h).value;
      s.correct <= s.total == |h|
      && 0.0 <= s.accuracy <= 100.0
      && (forall t :: t in s.topicStats ==> 0 < s.topicStats[t].total && s.topicStats[t].correct <= s.topicStats[t].total)
      && TallySum(h, s.topicOrder, Topic) == Tally(s.total, s.correct)
  {
    var s := Statistics(h).value;
    PercentBounds(s.correct, s.total);
    DedupMembers(FacetsOf(h, Topic));
    FacetsOfIndex(h, Topic);
    forall t | t in s.topicStats ensures 0 < s.topicStats[t].total {
      TallyOfPositive(h, Topic, t);
    }
    forall i | 0 <= i < |h| ensures FacetOf(h[i], Topic) in s.topicOrder {
      assert FacetsOf(h, Topic)[i] == FacetOf(h[i], Topic);
    }
    TallySumCovers(h, s.topicOrder, Topic);
  }

  /**
   * With every difficulty one of the three levels, `diff_stats` has exactly those three
   * keys and their tallies add up to the whole history.
   */
  lemma LevelTalliesCover(h: seq<HistoryRecord>)
    requires h != [] && KnownLevels(h)
    ensures var s := Statistics(h).value;
      (forall l :: l in s.diffStats <==> l in Levels)
      && TallySum(h, Levels, Difficulty) == Tally(s.total, s.correct)
  {
    assert Distinct(Levels);
    forall i | 0 <= i < |h| ensures FacetOf(h[i], Difficulty) in Levels { }
    TallySumCovers(h, Levels, Difficulty);
  }

  // ---------------------------------------------------------------------------
  // Weak topics
  // ---------------------------------------------------------------------------

  /** One entry of `get_weak_topics`. */
  datatype WeakTopic = WeakTopic(topic: string, accuracy: real, total: nat)

  /** The sort key of `get_weak_topics`. */
  function AccuracyOf(w: WeakTopic): real {
    w.accuracy
  }

  /** The 60% cut of `get_weak_topics` in whole numbers: under 60% exactly when five times the correct answers fall short of three times the total. */
  lemma PercentThreshold(correct: nat, total: nat)
    requires total > 0
    ensures Percent(correct, total) < 60.0 <==> 5 * correct < 3 * total
  {
    var t := total as real;
    var c := correct as real;
    var q := c / t;
    assert q * t == c;
    assert Percent(correct, total) == q * 100.0;
    assert q * 100.0 < 60.0 <==> q < 0.6;
    MulPositiveMonotone(q, 0.6, t);
    assert q < 0.6 <==> c < 0.6 * t;
    assert c < 0.6 * t <==> 5.0 * c < 3.0 * t;
  }

  /** Multiplying by a positive number keeps a strict order, and only then. */
  lemma MulPositiveMonotone(x: real, y: real, t: real)
    requires t > 0.0
    ensures x < y <==> x * t < y * t
  {
    assert y * t - x * t == (y - x) * t;
  }

  /** A topic is weak when it has at least two answers and under 60% of them are correct. */
  predicate IsWeak(d: Tally) {
    d.total >= 2 && Percent(d.correct, d.total) < 60.0
  }

  function EntryFor(t: string, d: Tally): WeakTopic {
    WeakTopic(t, Percent(d.correct, d.total), d.total)
  }

  /** The weak topics of `order`, in `order` (the filtering loop of `get_weak_topics`). */
  function WeakIn(order: seq<string>, ts: map<string, Tally>): (r: seq<WeakTopic>)
    requires forall t :: t in order ==> t in ts
    ensures |r| <= |order|
    decreases |order|
  {
    if order == [] then []
    else
      var p := order[..|order| - 1];
      var t := order[|order| - 1];
      if IsWeak(ts[t]) then WeakIn(p, ts) + [EntryFor(t, ts[t])] else WeakIn(p, ts)
  }

  /** The filtering loop keeps exactly the weak topics of `order`, each with its own entry. */
  lemma {:induction false} WeakInMembers(order: seq<string>, ts: map<string, Tally>)
    requires forall t :: t in order ==> t in ts
    ensures forall w :: w in WeakIn(order, ts) <==> w.topic in order && IsWeak(ts[w.topic]) && w == EntryFor(w.topic, ts[w.topic])
    ensures Distinct(order) ==> Distinct(WeakIn(order, ts))
    decreases |order|
  {
    if order != [] {
      var p := order[..|order| - 1];
      var t := order[|order| - 1];
      assert order == p + [t];
      WeakInMembers(p, ts);
      var ws := WeakIn(p, ts);
      if IsWeak(ts[t]) && Distinct(order) {
        assert t !in p;
        assert forall w :: w in ws ==> w.topic != t;
        forall i, j | 0 <= i < j < |ws + [EntryFor(t, ts[t])]|
          ensures (ws + [EntryFor(t, ts[t])])[i] != (ws + [EntryFor(t, ts[t])])[j]
        {
          if j == |ws| {
            assert (ws + [EntryFor(t, ts[t])])[i] == ws[i];
          }
        }
      }
    }
  }

  /**
   * What `get_weak_topics` returns: the weak topics, by ascending accuracy, ties in topic
   * order; never more entries than answers.
   */
  function WeakTopics(h: seq<HistoryRecord>): (r: seq<WeakTopic>)
    ensures |r| <= |h|
  {
    match Statistics(h)
    case None => []
    case Some(s) =>
      if |s.topicStats| == 0 then []
      else
        DedupMembers(FacetsOf(h, Topic));
        DedupShorter(FacetsOf(h, Topic));
        SortByOrderedPermutation(WeakIn(s.topicOrder, s.topicStats), AccuracyOf, false);
        SortBy(WeakIn(s.topicOrder, s.topicStats), AccuracyOf, false)
  }

  /** For a non-empty history, the weak topics are the filtered topics of the statistics, sorted. */
  lemma WeakTopicsUnfold(h: seq<HistoryRecord>)
    requires h != []
    ensures forall t :: t in Dedup(FacetsOf(h, Topic)) <==> t in FacetsOf(h, Topic)
    ensures Distinct(Dedup(FacetsOf(h, Topic)))
    ensures WeakTopics(h)
      == SortBy(WeakIn(Dedup(FacetsOf(h, Topic)), TallyMap(h, Topic, FacetsOf(h, Topic))), AccuracyOf, false)
  {
    var facets := FacetsOf(h, Topic);
    DedupMembers(facets);
    var s := Statistics(h).value;
    assert facets[|facets| - 1] in s.topicStats;
    assert |s.topicStats| != 0;
  }

  /**
   * `get_weak_topics` lists exactly the weak topics of the history, each with its own
   * accuracy and answer count.
   */
  lemma WeakTopicsMembers(h: seq<HistoryRecord>)
    ensures forall w :: w in WeakTopics(h) <==>
      IsWeak(TallyOf(h, Topic, w.topic)) && w == EntryFor(w.topic, TallyOf(h, Topic, w.topic))
  {
    if h == [] {
      assert WeakTopics(h) == [];
    } else {
      WeakTopicsUnfold(h);
      var order := Dedup(FacetsOf(h, Topic));
      var ts := TallyMap(h, Topic, FacetsOf(h, Topic));
      var ws := WeakIn(order, ts);
      WeakInMembers(order, ts);
      SortByMembersDistinct(ws, AccuracyOf, false);
      forall w ensures w in WeakTopics(h) <==>
        IsWeak(TallyOf(h, Topic, w.topic)) && w == EntryFor(w.topic, TallyOf(h, Topic, w.topic))
      {
        TallyOfPositive(h, Topic, w.topic);
      }
    }
  }

  /** `get_weak_topics` lists no topic twice, weakest first. */
  lemma WeakTopicsOrdered(h: seq<HistoryRecord>)
    ensures Distinct(WeakTopics(h))
    ensures Ordered(WeakTopics(h), AccuracyOf, false)
  {
    if h != [] {
      WeakTopicsUnfold(h);
      var order := Dedup(FacetsOf(h, Topic));
      var ts := TallyMap(h, Topic, FacetsOf(h, Topic));
      var ws := WeakIn(order, ts);
      WeakInMembers(order, ts);
      SortByOrderedPermutation(ws, AccuracyOf, false);
      SortByMembersDistinct(ws, AccuracyOf, false);
    }
  }

  // ---------------------------------------------------------------------------
  // Wrong answers
  // ---------------------------------------------------------------------------

  /** The newest record with key `k`, if any. */
  function Latest(h: seq<HistoryRecord>, k: QuestionHash): (r: Option<HistoryRecord>)
    ensures r.Some? ==> r.value in h && r.value.key == k
    ensures r.None? <==> forall i :: 0 <= i < |h| ==> h[i].key != k
    decreases |h|
  {
    if h == [] then None
    else if h[|h| - 1].key == k then Some(h[|h| - 1])
    else
      var p := h[..|h| - 1];
      assert forall i :: 0 <= i < |p| ==> p[i] == h[i];
      Latest(p, k)
  }

  /**
   * The loop of `get_wrong_questions` over `reversed(history)`, with the keys in `seen`
   * already handled: a record with a non-empty key not seen before marks its key seen and
   * is kept when it was answered wrongly. An empty key stands for `hash("") == 0`, which
   * is falsy.
   */
  function WrongScan(h: seq<HistoryRecord>, seen: set<QuestionHash>): seq<HistoryRecord>
    decreases |h|
  {
    if h == [] then []
    else
      var r := h[|h| - 1];
      var p := h[..|h| - 1];
      if r.key != EmptyHash && r.key !in seen then
        (if !r.correct then [r] else []) + WrongScan(p, seen + {r.key})
      else WrongScan(p, seen)
  }

  /** What `get_wrong_questions` returns: wrongly answered records of the history, no question twice. */
  function WrongQuestions(h: seq<HistoryRecord>): (r: seq<HistoryRecord>)
    ensures forall x :: x in r ==> x in h && !x.correct
    ensures forall i, j :: 0 <= i < j < |r| ==> r[i].key != r[j].key
  {
    WrongScanCharacterized(h, {});
    WrongScan(h, {})
  }

  lemma {:induction false} WrongScanCharacterized(h: seq<HistoryRecord>, seen: set<QuestionHash>)
    ensures var ws := WrongScan(h, seen);
      (forall r :: r in ws ==> r.key != EmptyHash && r.key !in seen && !r.correct && Latest(h, r.key) == Some(r))
      && (forall i, j :: 0 <= i < j < |ws| ==> ws[i].key != ws[j].key)
      && (forall k :: k != EmptyHash && k !in seen && Latest(h, k).Some? && !Latest(h, k).value.correct
            ==> Latest(h, k).value in ws)
    decreases |h|
  {
    if h != [] {
      var r := h[|h| - 1];
      var p := h[..|h| - 1];
      if r.key != EmptyHash && r.key !in seen {
        var seen' := seen + {r.key};
        WrongScanCharacterized(p, seen');
        var rest := WrongScan(p, seen');
        var ws := (if !r.correct then [r] else []) + rest;
        assert WrongScan(h, seen) == ws;
        forall i, j | 0 <= i < j < |ws| ensures ws[i].key != ws[j].key {
          if i == 0 && !r.correct {
            assert ws[j] == rest[j - 1];
            assert ws[j] in rest;
          }
        }
      } else {
        WrongScanCharacterized(p, seen);
      }
    }
  }

  /**
   * `get_wrong_questions` returns, for every question, its newest record exactly when that
   * record is wrong, and no question twice.
   */
  lemma WrongQuestionsCharacterized(h: seq<HistoryRecord>)
    ensures var ws := WrongQuestions(h);
      (forall r :: r in ws <==> r.key != EmptyHash && Latest(h, r.key) == Some(r) && !r.correct)
      && (forall i, j :: 0 <= i < j < |ws| ==> ws[i].key != ws[j].key)
  {
    WrongScanCharacterized(h, {});
  }

  /** With one record per question (what `record_answer` keeps), the wrong list is every wrong record. */
  lemma WrongQuestionsOfUniqueHistory(h: seq<HistoryRecord>)
    requires UniqueKeys(h)
    ensures forall r :: r in WrongQuestions(h) <==> r in h && r.key != EmptyHash && !r.correct
  {
    WrongQuestionsCharacterized(h);
    forall r | r in h && r.key != EmptyHash && !r.correct ensures r in WrongQuestions(h) {
      var i :| 0 <= i < |h| && h[i] == r;
      LatestUnique(h, i);
    }
  }

  lemma {:induction false} LatestUnique(h: seq<HistoryRecord>, i: nat)
    requires UniqueKeys(h) && i < |h|
    ensures Latest(h, h[i].key) == Some(h[i])
    decreases |h|
  {
    if i < |h| - 1 {
      assert h[|h| - 1].key != h[i].key;
      LatestUnique(h[..|h| - 1], i);
    }
  }

  /** One more answer in a group, counted as correct or not. */
  function Bump(t: Tally, correct: bool): Tally {
    Tally(t.total + 1, t.correct + (if correct then 1 else 0))
  }

  /** The state of the topic loop of `get_statistics` after the records `h`: key order and dict. */
  function TopicPass(h: seq<HistoryRecord>): (seq<string>, map<string, Tally>)
    decreases |h|
  {
    if h == [] then ([], map[])
    else
      var (order, m) := TopicPass(h[..|h| - 1]);
      var t := h[|h| - 1].topic;
      if t in m then (order, m[t := Bump(m[t], h[|h| - 1].correct)])
      else (order + [t], m[t := Bump(Tally(0, 0), h[|h| - 1].correct)])
  }

  /** The dict of the topic loop holds each topic's tally. */
  lemma {:induction false} TopicPassTallies(h: seq<HistoryRecord>)
    ensures TopicPass(h).1 == TallyMap(h, Topic, FacetsOf(h, Topic))
    decreases |h|
  {
    if h != [] {
      var p := h[..|h| - 1];
      var r := h[|h| - 1];
      TopicPassTallies(p);
      var m := TallyMap(p, Topic, FacetsOf(p, Topic));
      var n := TallyMap(h, Topic, FacetsOf(h, Topic));
      assert FacetsOf(h, Topic) == FacetsOf(p, Topic) + [r.topic];
      var prev := if r.topic in m then m[r.topic] else Tally(0, 0);
      TallyOfPositive(p, Topic, r.topic);
      assert prev == TallyOf(p, Topic, r.topic);
      var counted := m[r.topic := Bump(prev, r.correct)];
      assert TopicPass(h).1 == counted;
      forall x ensures x in n <==> x in counted {
      }
      forall x | x in n ensures n[x] == counted[x] {
        if x != r.topic {
          assert n[x] == TallyOf(h, Topic, x) == TallyOf(p, Topic, x);
        }
      }
      assert n == counted;
    }
  }

  /** The topic loop records the topics in first-seen order. */
  lemma {:induction false} TopicPassOrder(h: seq<HistoryRecord>)
    ensures TopicPass(h).0 == Dedup(FacetsOf(h, Topic))
    decreases |h|
  {
    if h != [] {
      var p := h[..|h| - 1];
      var r := h[|h| - 1];
      TopicPassOrder(p);
      TopicPassTallies(p);
      var fs := FacetsOf(p, Topic);
      assert FacetsOf(h, Topic) == fs + [r.topic];
      assert (fs + [r.topic])[..|fs|] == fs;
      assert r.topic in TopicPass(p).1 <==> r.topic in fs;
    }
  }

  /**
   * The state of the difficulty loop of `get_statistics` after the records `h`, starting
   * from a zero tally for each of `levels`. A record with another difficulty would raise
   * `KeyError` there; it is passed over here, and the loop itself requires every
   * difficulty to be one of `levels`.
   */
  function LevelPass(h: seq<HistoryRecord>, levels: seq<string>): (m: map<string, Tally>)
    ensures forall l :: l in m <==> l in levels
    decreases |h|
  {
    if h == [] then map l | l in levels :: Tally(0, 0)
    else
      var m := LevelPass(h[..|h| - 1], levels);
      var d := h[|h| - 1].difficulty;
      if d in m then m[d := Bump(m[d], h[|h| - 1].correct)] else m
  }

  /** One record of the difficulty loop bumps its level's tally. */
  lemma LevelPassStep(h: seq<HistoryRecord>, levels: seq<string>, i: nat)
    requires i < |h| && h[i].difficulty in levels
    ensures var m := LevelPass(h[..i], levels);
      LevelPass(h[..i + 1], levels) == m[h[i].difficulty := Bump(m[h[i].difficulty], h[i].correct)]
  {
    assert h[..i + 1][..i] == h[..i];
  }

  /** The difficulty loop yields each level's tally. */
  lemma {:induction false} LevelPassTallies(h: seq<HistoryRecord>, levels: seq<string>)
    requires forall i :: 0 <= i < |h| ==> h[i].difficulty in levels
    ensures LevelPass(h, levels) == TallyMap(h, Difficulty, levels)
    decreases |h|
  {
    if h == [] {
      assert LevelPass(h, levels) == TallyMap(h, Difficulty, levels);
    } else {
      var p := h[..|h| - 1];
      var r := h[|h| - 1];
      LevelPassTallies(p, levels);
      var n := TallyMap(h, Difficulty, levels);
      var counted := LevelPass(h, levels);
      assert counted == LevelPass(p, levels)[r.difficulty := Bump(LevelPass(p, levels)[r.difficulty], r.correct)];
      forall x | x in n ensures n[x] == counted[x] {
        if x != r.difficulty {
          assert n[x] == TallyOf(h, Difficulty, x) == TallyOf(p, Difficulty, x);
        }
      }
      assert n == counted;
    }
  }

  /** The topic loop of `get_statistics`: `topic_stats`, and the order its keys were inserted in. */
  method TallyTopics(h: seq<HistoryRecord>) returns (order: seq<string>, topicStats: map<string, Tally>)
    ensures order == Dedup(FacetsOf(h, Topic))
    ensures topicStats == TallyMap(h, Topic, FacetsOf(h, Topic))
  {
    order := [];
    topicStats := map[];
    var i := 0;
    while i < |h|
      invariant 0 <= i <= |h|
      invariant (order, topicStats) == TopicPass(h[..i])
    {
      assert h[..i + 1][..i] == h[..i];
      var topic := h[i].topic;
      var tally: Tally;
      if topic !in topicStats {
        order := order + [topic];
        tally := Tally(0, 0);
      } else {
        tally := topicStats[topic];
      }
      tally := Tally(tally.total + 1, tally.correct);
      if h[i].correct {
        tally := Tally(tally.total, tally.correct + 1);
      }
      topicStats := topicStats[topic := tally];
      i := i + 1;
    }
    assert h[..|h|] == h;
    TopicPassTallies(h);
    TopicPassOrder(h);
  }

  /** The difficulty loop of `get_statistics`: `diff_stats`, starting from zero for each of `levels`. */
  method TallyLevels(h: seq<HistoryRecord>, levels: seq<string>) returns (diffStats: map<string, Tally>)
    requires forall i :: 0 <= i < |h| ==> h[i].difficulty in levels
    ensures diffStats == TallyMap(h, Difficulty, levels)
  {
    diffStats := map l | l in levels :: Tally(0, 0);
    var i := 0;
    assert h[..0] == [];
    while i < |h|
      invariant 0 <= i <= |h|
      invariant diffStats == LevelPass(h[..i], levels)
    {
      var diff := h[i].difficulty;
      assert diff in levels && diff in diffStats;
      var tally := diffStats[diff];
      tally := Tally(tally.total + 1, tally.correct);
      if h[i].correct {
        tally := Tally(tally.total, tally.correct + 1);
      }
      assert tally == Bump(diffStats[diff], h[i].correct);
      LevelPassStep(h, levels, i);
      diffStats := diffStats[diff := tally];
      i := i + 1;
    }
    assert h[..|h|] == h;
    LevelPassTallies(h, levels);
  }

  /** The loop of `get_weak_topics` over `topic_stats.items()`, in key order. */
  method FilterWeak(order: seq<string>, topicStats: map<string, Tally>) returns (candidates: seq<WeakTopic>)
    requires forall t :: t in order ==> t in topicStats
    ensures candidates == WeakIn(order, topicStats)
  {
    candidates := [];
    var i := 0;
    while i < |order|
      invariant 0 <= i <= |order|
      invariant candidates == WeakIn(order[..i], topicStats)
    {
      var topic := order[i];
      var data := topicStats[topic];
      assert order[..i + 1][..i] == order[..i];
      if data.total >= 2 {
        var accuracy := if data.total > 0 then (data.correct as real / data.total as real) * 100.0 else 0.0;
        if accuracy < 60.0 {
          candidates := candidates + [WeakTopic(topic, accuracy, data.total)];
        }
      }
      i := i + 1;
    }
    assert order[..|order|] == order;
  }

  // ---------------------------------------------------------------------------
  // The session object
  // ---------------------------------------------------------------------------

  class StudySession {
    /** `st.session_state.bookmarks` */
    var bookmarks: seq<string>
    /** `st.session_state.bookmark_data` */
    var bookmarkData: map<string, Question>
    /** `st.session_state.answer_history` */
    var answerHistory: seq<HistoryRecord>
    /** `st.session_state.answered_questions` */
    var answeredQuestions: map<QuestionHash, bool>

    /** No bookmark twice, the stored data are those of the bookmarks, and the history agrees with its index. */
    ghost predicate Valid()
      reads this
    {
      Distinct(bookmarks)
      && (forall b :: b in bookmarkData <==> b in bookmarks)
      && HistoryAgrees(answerHistory, answeredQuestions)
    }

    /** The empty session of `init_session_state`. */
    constructor()
      ensures Valid()
      ensures bookmarks == [] && bookmarkData == map[] && answerHistory == [] && answeredQuestions == map[]
    {
      bookmarks := [];
      bookmarkData := map[];
      answerHistory := [];
      answeredQuestions := map[];
    }

    /** `toggle_bookmark(qid, question_data)` */
    method ToggleBookmark(qid: string, q: Question)
      requires Valid()
      modifies this
      ensures Valid()
      ensures bookmarks == ToggledBookmarks(old(bookmarks), BookmarkKey(qid))
      ensures BookmarkKey(qid) in old(bookmarks) ==> bookmarkData == old(bookmarkData) - {BookmarkKey(qid)}
      ensures BookmarkKey(qid) !in old(bookmarks) ==> bookmarkData == old(bookmarkData)[BookmarkKey(qid) := q]
      ensures answerHistory == old(answerHistory) && answeredQuestions == old(answeredQuestions)
    {
      var k := BookmarkKey(qid);
      ToggleFlips(bookmarks, k);
      if k in bookmarks {
        bookmarks := RemoveFirst(bookmarks, k);
        bookmarkData := bookmarkData - {k};
      } else {
        bookmarks := bookmarks + [k];
        bookmarkData := bookmarkData[k := q];
      }
    }

    /** `record_answer(qid, question_data, is_correct)` */
    method RecordAnswer(qid: string, q: Question, isCorrect: bool)
      requires Valid() && Answerable(q)
      modifies this
      ensures Valid()
      ensures answerHistory == Answered(old(answerHistory), qid, q, isCorrect)
      ensures answeredQuestions == old(answeredQuestions)[HashOf(q.question) := isCorrect]
      ensures bookmarks == old(bookmarks) && bookmarkData == old(bookmarkData)
    {
      var k := HashOf(q.question);
      AnsweredAgrees(answerHistory, answeredQuestions, qid, q, isCorrect);
      if k in answeredQuestions {
        SetFirstCorrect(k, isCorrect);
      } else {
        answerHistory := answerHistory + [NewRecord(qid, q, isCorrect)];
      }
      answeredQuestions := answeredQuestions[k := isCorrect];
    }

    /** The loop of `record_answer` on a repeated question: the first record with key `k` takes flag `c`. */
    method SetFirstCorrect(k: QuestionHash, c: bool)
      requires k in KeySet(answerHistory)
      modifies this
      ensures answerHistory == SetCorrect(old(answerHistory), k, c)
      ensures bookmarks == old(bookmarks) && bookmarkData == old(bookmarkData)
      ensures answeredQuestions == old(answeredQuestions)
    {
      var h := answerHistory;
      KeySetIndex(h, k);
      var i := 0;
      while i < |h| && h[i].key != k
        invariant 0 <= i <= |h|
        invariant forall j :: 0 <= j < i ==> h[j].key != k
      {
        i := i + 1;
      }
      if i < |h| {
        SetCorrectAt(h, k, c, i);
        h := h[i := h[i].(correct := c)];
      }
      answerHistory := h;
    }

    /** `get_statistics()` */
    method GetStatistics() returns (r: Option<Stats>)
      requires KnownLevels(answerHistory)
      ensures r == Statistics(answerHistory)
    {
      var h := answerHistory;
      if h == [] {
        return None;
      }
      var total := |h|;
      var correct := CorrectCount(h);

      var order, topicStats := TallyTopics(h);
      var diffStats := TallyLevels(h, Levels);

      var accuracy := if total > 0 then (correct as real / total as real) * 100.0 else 0.0;
      assert accuracy == Percent(correct, total);
      assert Statistics(h) == Some(Stats(total, correct, accuracy, order, topicStats, diffStats));
      r := Some(Stats(total, correct, accuracy, order, topicStats, diffStats));
    }

    /** `get_weak_topics()` */
    method GetWeakTopics() returns (weak: seq<WeakTopic>)
      requires KnownLevels(answerHistory)
      ensures weak == WeakTopics(answerHistory)
    {
      var stats := GetStatistics();
      if stats.None? || |stats.value.topicStats| == 0 {
        return [];
      }
      var s := stats.value;
      WeakTopicsUnfold(answerHistory);
      var candidates := FilterWeak(s.topicOrder, s.topicStats);
      weak := SortBy(candidates, AccuracyOf, false);
    }

    /** `get_wrong_questions()` */
    method GetWrongQuestions() returns (wrong: seq<HistoryRecord>)
      ensures wrong == WrongQuestions(answerHistory)
    {
      var h := answerHistory;
      wrong := [];
      var seen: set<QuestionHash> := {};
      var i := |h|;
      assert h[..i] == h;
      while i > 0
        invariant 0 <= i <= |h|
        invariant wrong + WrongScan(h[..i], seen) == WrongQuestions(h)
      {
        var r := h[i - 1];
        assert h[..i][..i - 1] == h[..i - 1];
        if r.key != EmptyHash && r.key !in seen {
          if !r.correct {
            assert WrongScan(h[..i], seen) == [r] + WrongScan(h[..i - 1], seen + {r.key});
            assert wrong + [r] + WrongScan(h[..i - 1], seen + {r.key}) == wrong + WrongScan(h[..i], seen);
            wrong := wrong + [r];
          } else {
            assert WrongScan(h[..i], seen) == WrongScan(h[..i - 1], seen + {r.key});
          }
          seen := seen + {r.key};
        } else {
          assert WrongScan(h[..i], seen) == WrongScan(h[..i - 1], seen);
        }
        i := i - 1;
      }
    }
  }
}
