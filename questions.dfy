/**
 * The question batch of `rag_answer_chain` after the reply has been cleaned: every parsed
 * record is stamped with its metadata and forced into the shape its question type needs,
 * and a reply that yields no JSON is replaced by `create_error_question`'s placeholder batch.
 */
module Questions {
  import opened Wrappers
  import opened Strings
  import opened Cleanup

  /**
   * The value a JSON object holds under one key: the key is missing, it holds `null`, it
   * holds a value of another type than the expected one (with its Python truthiness), or it
   * holds a value of the expected type. The code tests key presence (`"k" not in q`), so a
   * `null` value and a missing key take different branches.
   */
  datatype Json<+T> = Absent | Null | Other(truthy: bool) | Val(value: T)

  /** `explanation`: its `correct` text and its `wrong` map. */
  datatype Explanation = Explanation(correct: Json<string>, wrong: Json<map<string, string>>)

  /** A question record (a JSON object). */
  datatype Question = Question(
    number: Json<string>,
    displayNumber: Json<nat>,
    question: Json<string>,
    options: Json<map<string, string>>,
    answer: Json<string>,
    difficulty: Json<string>,
    topic: Json<string>,
    qtype: Json<string>,
    explanation: Json<Explanation>,
    relatedConcepts: Json<seq<string>>)

  /** The parsed reply: the value under its `questions` key. */
  datatype Payload = Payload(questions: Json<seq<Question>>)

  const ShortAnswerType: string := "단답형"
  const AnswerError: string := "정답 생성 오류"

  /** The four option letters, which a short answer must not be. */
  predicate IsOptionLetter(s: string) {
    s == "A" || s == "B" || s == "C" || s == "D"
  }

  /** Python's truth value of a present `options` value: `null` is false, a dict is true when it is not empty. */
  predicate OptionsTruthy(o: Json<map<string, string>>) {
    match o
    case Absent => false
    case Null => false
    case Other(t) => t
    case Val(m) => m != map[]
  }

  /** `{"A": "-", "B": "-", "C": "-", "D": "-"}`. */
  const PlaceholderOptions: map<string, string> := map["A" := "-", "B" := "-", "C" := "-", "D" := "-"]

  /** `{"correct": "", "wrong": {}}`. */
  const EmptyExplanation: Explanation := Explanation(Val(""), Val(map[]))

  /** `f"{unique_id}_{idx}"`. */
  function CompositeId(uniqueId: nat, idx: nat): string {
    NatToString(uniqueId) + "_" + NatToString(idx)
  }

  lemma CompositeIdSplit(u: nat, i: nat)
    ensures IndexOf(CompositeId(u, i), '_') == Some(|NatToString(u)|)
  {
    var a := NatToString(u);
    var s := CompositeId(u, i);
    assert s[|a|] == '_';
    assert s[..|a|] == a;
    assert '_' !in a by {
      assert forall k :: 0 <= k < |a| ==> IsDigit(a[k]);
    }
  }

  /** Two records get the same id only for the same batch stamp and the same position. */
  lemma CompositeIdInjective(u: nat, i: nat, u': nat, i': nat)
    requires CompositeId(u, i) == CompositeId(u', i')
    ensures u == u' && i == i'
  {
    var s := CompositeId(u, i);
    CompositeIdSplit(u, i);
    CompositeIdSplit(u', i');
    var n := |NatToString(u)|;
    assert NatToString(u) == s[..n] == NatToString(u');
    assert NatToString(i) == s[n + 1..] == NatToString(i');
    NatToStringInjective(u, u');
    NatToStringInjective(i, i');
  }

  /**
   * The short-answer checks raise on this record: `.upper()` on an answer that is not a
   * string, or `["wrong"] = {}` on an explanation that is not an object.
   */
  predicate Raises(q: Question, qtype: string) {
    qtype == ShortAnswerType
    && (q.answer.Null? || q.answer.Other? || q.explanation.Null? || q.explanation.Other?)
  }

  /**
   * The body of the `for idx, q in enumerate(...)` loop, applied to record `q` at 1-based
   * `idx`; `None` when the body raises.
   */
  function NormalizeRecord(q: Question, uniqueId: nat, idx: nat, topic: string, difficulty: string, qtype: string): (r: Option<Question>)
    ensures r.None? <==> Raises(q, qtype)
  {
    var stamped := q.(difficulty := Val(difficulty), topic := Val(topic), qtype := Val(qtype),
                      number := Val(CompositeId(uniqueId, idx)), displayNumber := Val(idx),
                      relatedConcepts := if q.relatedConcepts.Absent? then Val([]) else q.relatedConcepts);
    if qtype == ShortAnswerType then
      var options := if q.options.Absent? || OptionsTruthy(q.options) then Val(map[]) else q.options;
      var answer := if q.answer.Val? && IsOptionLetter(Upper(q.answer.value)) then Val(AnswerError) else q.answer;
      match (q.answer, q.explanation)
      case (Null, _) => None
      case (Other(_), _) => None
      case (_, Null) => None
      case (_, Other(_)) => None
      case (_, Absent) => Some(stamped.(options := options, answer := answer, explanation := Val(EmptyExplanation)))
      case (_, Val(e)) => Some(stamped.(options := options, answer := answer, explanation := Val(e.(wrong := Val(map[])))))
    else
      var options := if q.options.Absent? || !OptionsTruthy(q.options) then Val(PlaceholderOptions) else q.options;
      Some(stamped.(options := options, explanation := if q.explanation.Absent? then Val(EmptyExplanation) else q.explanation))
  }

  /**
   * The shape a record of type `qtype` has after the loop: the keys it fills in are present;
   * a short answer has falsy options, an explanation object whose `wrong` is `{}`, and no
   * option letter as its answer; any other type has truthy options.
   */
  predicate Shaped(q: Question, qtype: string) {
    q.qtype == Val(qtype) && !q.options.Absent? && !q.explanation.Absent? && !q.relatedConcepts.Absent?
    && (qtype == ShortAnswerType ==>
          !OptionsTruthy(q.options)
          && q.explanation.Val? && q.explanation.value.wrong == Val(map[])
          && (q.answer.Absent? || (q.answer.Val? && !IsOptionLetter(Upper(q.answer.value)))))
    && (qtype != ShortAnswerType ==> OptionsTruthy(q.options))
  }

  /** Record `i` (0-based) of a batch stamped `uniqueId` is numbered `i + 1` and shaped. */
  predicate WellFormedAt(q: Question, i: nat, uniqueId: nat, qtype: string) {
    q.number == Val(CompositeId(uniqueId, i + 1)) && q.displayNumber == Val(i + 1) && Shaped(q, qtype)
  }

  predicate WellFormedBatch(qs: seq<Question>, uniqueId: nat, qtype: string) {
    forall i :: 0 <= i < |qs| ==> WellFormedAt(qs[i], i, uniqueId, qtype)
  }

  /** A record whose filled-in fields hold values of their expected types, or are missing. */
  predicate Typed(q: Question) {
    (q.options.Absent? || q.options.Val?) && (q.answer.Absent? || q.answer.Val?)
    && (q.explanation.Absent? || q.explanation.Val?) && (q.relatedConcepts.Absent? || q.relatedConcepts.Val?)
  }

  lemma AnswerErrorIsNoLetter()
    ensures !IsOptionLetter(Upper(AnswerError))
  {
    assert |Upper(AnswerError)| == |AnswerError| == 8;
  }

  /** Whenever the body does not raise, the stamped record has the right number and shape. */
  lemma NormalizeRecordShaped(q: Question, uniqueId: nat, idx: nat, topic: string, difficulty: string, qtype: string)
    requires idx >= 1
    ensures var r := NormalizeRecord(q, uniqueId, idx, topic, difficulty, qtype);
            r.Some? ==> WellFormedAt(r.value, idx - 1, uniqueId, qtype)
                        && r.value.topic == Val(topic) && r.value.difficulty == Val(difficulty)
                        && r.value.question == q.question
  {
    AnswerErrorIsNoLetter();
    assert "A" in PlaceholderOptions;
  }

  /**
   * A value that is present is kept whenever the loop body does not replace it: `null`
   * related concepts, a falsy short-answer `options` (`null` included), and any present
   * explanation of another type pass through.
   */
  lemma NormalizeRecordKeepsPresent(q: Question, uniqueId: nat, idx: nat, topic: string, difficulty: string, qtype: string)
    ensures var r := NormalizeRecord(q, uniqueId, idx, topic, difficulty, qtype);
            r.Some? ==>
              (!q.relatedConcepts.Absent? ==> r.value.relatedConcepts == q.relatedConcepts)
              && (qtype == ShortAnswerType && !q.options.Absent? && !OptionsTruthy(q.options) ==> r.value.options == q.options)
              && (qtype != ShortAnswerType && OptionsTruthy(q.options) ==> r.value.options == q.options)
              && (qtype != ShortAnswerType && !q.explanation.Absent? ==> r.value.explanation == q.explanation)
  {
  }

  /** A record with fields of the expected types never raises and comes out with typed values. */
  lemma NormalizeRecordTyped(q: Question, uniqueId: nat, idx: nat, topic: string, difficulty: string, qtype: string)
    requires Typed(q)
    ensures var r := NormalizeRecord(q, uniqueId, idx, topic, difficulty, qtype);
            r.Some? && r.value.options.Val? && r.value.explanation.Val? && r.value.relatedConcepts.Val?
            && (qtype == ShortAnswerType ==> r.value.options == Val(map[]))
  {
  }

  /** An object-type record with `"explanation": null` keeps the `null`. */
  lemma NullExplanationKept(q: Question, uniqueId: nat, idx: nat, topic: string, difficulty: string)
    requires q.explanation == Null
    ensures var r := NormalizeRecord(q, uniqueId, idx, topic, difficulty, "객관식");
            r.Some? && r.value.explanation == Null
  {
    assert "객관식" != ShortAnswerType;
  }

  /** Stamping a stamped record again with the same values changes nothing. */
  lemma NormalizeRecordIdempotent(q: Question, uniqueId: nat, idx: nat, topic: string, difficulty: string, qtype: string)
    ensures var r := NormalizeRecord(q, uniqueId, idx, topic, difficulty, qtype);
            r.Some? ==> NormalizeRecord(r.value, uniqueId, idx, topic, difficulty, qtype) == r
  {
    AnswerErrorIsNoLetter();
  }

  /** Only the short-answer shape touches the answer, and only an option letter is replaced. */
  lemma NormalizeRecordAnswer(q: Question, uniqueId: nat, idx: nat, topic: string, difficulty: string, qtype: string)
    ensures var r := NormalizeRecord(q, uniqueId, idx, topic, difficulty, qtype);
            r.Some? ==>
              r.value.answer == (if qtype == ShortAnswerType && q.answer.Val? && IsOptionLetter(Upper(q.answer.value))
                                 then Val(AnswerError) else q.answer)
  {
  }

  /** A lower-case option letter is caught too: `"b".upper()` is `"B"`. */
  lemma LowerCaseLetterReplaced(q: Question, uniqueId: nat, idx: nat, topic: string, difficulty: string)
    requires q.answer == Val("b") && (q.explanation.Absent? || q.explanation.Val?)
    ensures var r := NormalizeRecord(q, uniqueId, idx, topic, difficulty, ShortAnswerType);
            r.Some? && r.value.answer == Val(AnswerError)
  {
    assert Upper("b") == "B";
  }

  /**
   * The whole loop: `None` when the body raises on some record (the exception leaves
   * `rag_answer_chain`), otherwise every record stamped with its 1-based position.
   */
  function NormalizeAll(qs: seq<Question>, uniqueId: nat, topic: string, difficulty: string, qtype: string): (r: Option<seq<Question>>)
    ensures r.None? <==> exists i :: 0 <= i < |qs| && Raises(qs[i], qtype)
    ensures r.Some? ==> |r.value| == |qs|
  {
    if exists i :: 0 <= i < |qs| && Raises(qs[i], qtype) then None
    else Some(seq(|qs|, i requires 0 <= i < |qs| => NormalizeRecord(qs[i], uniqueId, i + 1, topic, difficulty, qtype).value))
  }

  /**
   * A batch that goes through is numbered 1..n without gaps, every record is shaped and is
   * its own record stamped; only a short-answer batch can raise.
   */
  lemma NormalizeAllWellFormed(qs: seq<Question>, uniqueId: nat, topic: string, difficulty: string, qtype: string)
    ensures qtype != ShortAnswerType ==> NormalizeAll(qs, uniqueId, topic, difficulty, qtype).Some?
    ensures var r := NormalizeAll(qs, uniqueId, topic, difficulty, qtype);
            r.Some? ==> WellFormedBatch(r.value, uniqueId, qtype)
                        && forall i :: 0 <= i < |qs| ==> NormalizeRecord(qs[i], uniqueId, i + 1, topic, difficulty, qtype) == Some(r.value[i])
  {
    var r := NormalizeAll(qs, uniqueId, topic, difficulty, qtype);
    if r.Some? {
      forall i | 0 <= i < |qs|
        ensures WellFormedAt(r.value[i], i, uniqueId, qtype)
        ensures NormalizeRecord(qs[i], uniqueId, i + 1, topic, difficulty, qtype) == Some(r.value[i])
      {
        NormalizeRecordShaped(qs[i], uniqueId, i + 1, topic, difficulty, qtype);
      }
    }
  }

  /**
   * The in-place loop of `rag_answer_chain` over `js["questions"]`; `ok` is false when the
   * body raised, and then the caller does not use the array.
   */
  method NormalizeBatch(qs: array<Question>, uniqueId: nat, topic: string, difficulty: string, qtype: string)
    returns (ok: bool)
    modifies qs
    ensures ok <==> NormalizeAll(old(qs[..]), uniqueId, topic, difficulty, qtype).Some?
    ensures ok ==> qs[..] == NormalizeAll(old(qs[..]), uniqueId, topic, difficulty, qtype).value
  {
    var idx := 1;
    while idx <= qs.Length
      invariant 1 <= idx <= qs.Length + 1
      invariant forall k :: 0 <= k < idx - 1 ==> NormalizeRecord(old(qs[k]), uniqueId, k + 1, topic, difficulty, qtype) == Some(qs[k])
      invariant forall k :: idx - 1 <= k < qs.Length ==> qs[k] == old(qs[k])
    {
      var fine, q := NormalizeOne(qs[idx - 1], uniqueId, idx, topic, difficulty, qtype);
      if !fine {
        assert Raises(old(qs[..])[idx - 1], qtype);
        return false;
      }
      qs[idx - 1] := q;
      idx := idx + 1;
    }
    NormalizeAllWellFormed(old(qs[..]), uniqueId, topic, difficulty, qtype);
    return true;
  }

  /** The body of that loop on the record at 1-based position `idx`; `ok` is false where it raises. */
  method NormalizeOne(q0: Question, uniqueId: nat, idx: nat, topic: string, difficulty: string, qtype: string)
    returns (ok: bool, q: Question)
    ensures ok <==> NormalizeRecord(q0, uniqueId, idx, topic, difficulty, qtype).Some?
    ensures ok ==> NormalizeRecord(q0, uniqueId, idx, topic, difficulty, qtype) == Some(q)
  {
    q := q0;
    q := q.(difficulty := Val(difficulty), topic := Val(topic), qtype := Val(qtype));
    q := q.(number := Val(NatToString(uniqueId) + "_" + NatToString(idx)), displayNumber := Val(idx));
    if q.relatedConcepts.Absent? {
      q := q.(relatedConcepts := Val([]));
    }
    if qtype == ShortAnswerType {
      if q.options.Absent? || OptionsTruthy(q.options) {
        q := q.(options := Val(map[]));
      }
      if q.answer.Null? || q.answer.Other? {
        return false, q;
      }
      if q.answer.Val? && IsOptionLetter(Upper(q.answer.value)) {
        q := q.(answer := Val(AnswerError));
      }
      if q.explanation.Absent? {
        q := q.(explanation := Val(EmptyExplanation));
      } else if q.explanation.Val? {
        q := q.(explanation := Val(q.explanation.value.(wrong := Val(map[]))));
      } else {
        return false, q;
      }
    } else {
      if q.options.Absent? || !OptionsTruthy(q.options) {
        q := q.(options := Val(PlaceholderOptions));
      }
      if q.explanation.Absent? {
        q := q.(explanation := Val(EmptyExplanation));
      }
    }
    return true, q;
  }

  /** One record of `create_error_question`, at 1-based position `i` of `n`. */
  function ErrorQuestion(topic: string, difficulty: string, qtype: string, n: nat, uniqueId: nat, i: nat): Question {
    var short := qtype == ShortAnswerType;
    Question(
      Val(CompositeId(uniqueId, i)),
      Val(i),
      Val("문제 생성 오류 (" + NatToString(i) + "/" + NatToString(n) + ")"),
      Val(if short then map[] else PlaceholderOptions),
      Val(if short then "오류" else "A"),
      Val(difficulty),
      Val(topic),
      Val(qtype),
      Val(Explanation(Val("JSON 파싱 오류"), Val(if short then map[] else PlaceholderOptions))),
      Val([]))
  }

  /**
   * `create_error_question`: one placeholder per requested question (none for a count below
   * one), no two of them with the same id.
   */
  function CreateErrorQuestion(topic: string, difficulty: string, qtype: string, numQuestions: int, uniqueId: nat): (r: seq<Question>)
    ensures |r| == (if numQuestions > 0 then numQuestions else 0)
    ensures forall i, j :: 0 <= i < j < |r| ==> r[i].number != r[j].number
  {
    if numQuestions <= 0 then []
    else
      var r := seq(numQuestions, i requires 0 <= i < numQuestions => ErrorQuestion(topic, difficulty, qtype, numQuestions, uniqueId, i + 1));
      assert forall i, j :: 0 <= i < j < |r| ==> r[i].number != r[j].number by {
        forall i, j | 0 <= i < j < |r| ensures r[i].number != r[j].number {
          if r[i].number == r[j].number {
            CompositeIdInjective(uniqueId, i + 1, uniqueId, j + 1);
          }
        }
      }
      r
  }

  lemma ShortErrorAnswerIsNoLetter()
    ensures !IsOptionLetter(Upper("오류"))
  {
    assert |Upper("오류")| == 2;
  }

  /**
   * The placeholder batch holds exactly the requested number of records, numbered 1..n and
   * shaped with typed values, answered "오류" for short answers and "A" otherwise; stamping it
   * again changes nothing.
   */
  lemma CreateErrorQuestionWellFormed(topic: string, difficulty: string, qtype: string, numQuestions: int, uniqueId: nat)
    ensures var qs := CreateErrorQuestion(topic, difficulty, qtype, numQuestions, uniqueId);
            |qs| == (if numQuestions > 0 then numQuestions else 0)
            && WellFormedBatch(qs, uniqueId, qtype)
            && (forall i :: 0 <= i < |qs| ==> Typed(qs[i]) && qs[i].answer == Val(if qtype == ShortAnswerType then "오류" else "A"))
            && NormalizeAll(qs, uniqueId, topic, difficulty, qtype) == Some(qs)
  {
    ShortErrorAnswerIsNoLetter();
    var qs := CreateErrorQuestion(topic, difficulty, qtype, numQuestions, uniqueId);
    assert "A" in PlaceholderOptions;
    forall i | 0 <= i < |qs|
      ensures NormalizeRecord(qs[i], uniqueId, i + 1, topic, difficulty, qtype) == Some(qs[i])
      ensures WellFormedAt(qs[i], i, uniqueId, qtype)
      ensures !Raises(qs[i], qtype)
    {
    }
    assert NormalizeAll(qs, uniqueId, topic, difficulty, qtype).value == qs;
  }

  /**
   * The end of `rag_answer_chain`: the reply cleaned and parsed; no JSON gives the error
   * batch; a payload without a `questions` key is returned as it is; one whose `questions`
   * is `null` or not a list raises (`None`), and so does a list on which the loop raises;
   * otherwise the list is normalised in place.
   */
  method FinishBatch(raw: string, parse: string -> Option<Payload>, topic: string, difficulty: string,
                     qtype: string, numQuestions: int, uniqueId: nat)
    returns (r: Option<Payload>)
    ensures CleanReply(raw, parse).None? ==> r == Some(Payload(Val(CreateErrorQuestion(topic, difficulty, qtype, numQuestions, uniqueId))))
    ensures CleanReply(raw, parse).Some? && CleanReply(raw, parse).value.questions.Absent? ==> r == CleanReply(raw, parse)
    ensures CleanReply(raw, parse).Some? && (CleanReply(raw, parse).value.questions.Null? || CleanReply(raw, parse).value.questions.Other?) ==> r.None?
    ensures CleanReply(raw, parse).Some? && CleanReply(raw, parse).value.questions.Val? ==>
              var n := NormalizeAll(CleanReply(raw, parse).value.questions.value, uniqueId, topic, difficulty, qtype);
              r == (if n.Some? then Some(Payload(Val(n.value))) else None)
    ensures r.Some? && r.value.questions.Val? ==> WellFormedBatch(r.value.questions.value, uniqueId, qtype)
  {
    var txt := NormalizeReferences(RemoveMarkdownHeaders(raw));
    var parsed := ExtractJson(txt, parse);
    if parsed.None? {
      CreateErrorQuestionWellFormed(topic, difficulty, qtype, numQuestions, uniqueId);
      return Some(Payload(Val(CreateErrorQuestion(topic, difficulty, qtype, numQuestions, uniqueId))));
    }
    var js := parsed.value;
    match js.questions {
      case Absent =>
        return Some(js);
      case Null =>
        return None;
      case Other(_) =>
        return None;
      case Val(list) =>
        var qs := new Question[|list|](i requires 0 <= i < |list| => list[i]);
        assert qs[..] == list;
        var ok := NormalizeBatch(qs, uniqueId, topic, difficulty, qtype);
        if !ok {
          return None;
        }
        NormalizeAllWellFormed(list, uniqueId, topic, difficulty, qtype);
        return Some(Payload(Val(qs[..])));
    }
  }
}
