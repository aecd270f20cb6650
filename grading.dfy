/**
 * Short-answer grading (`normalize_answer`, `get_synonyms`, `check_short_answer`):
 * a learner's free-text answer is compared with the canonical answer and put in one of
 * four tiers, tried strictly in the order exact, synonym, partial, wrong.
 */
module Grading {
  import opened Wrappers
  import opened Strings

  /**
   * `normalize_answer`: strip, lowercase, then delete every whitespace character
   * (whitespace inside the answer is deleted, not collapsed).
   */
  function NormalizeAnswer(text: string): (r: string)
    ensures r == Lower(DeleteSpace(text))
    ensures NoSpace(r) && Lower(r) == r
  {
    DeleteSpaceIgnoresStrip(Lower(text));
    DeleteSpaceLower(text);
    DeleteSpaceNoSpace(Lower(DeleteSpace(text)));
    DeleteSpaceNoSpace(text);
    LowerIdempotent(DeleteSpace(text));
    assert Strip(Lower(text)) == Lower(Strip(text)) by { LowerStrip(text); }
    DeleteSpace(Lower(Strip(text)))
  }

  lemma {:induction false} LowerStrip(s: string)
    ensures Strip(Lower(s)) == Lower(Strip(s))
  {
    LowerStripLeft(s);
    LowerStripRight(StripLeft(s));
  }

  lemma {:induction false} LowerStripLeft(s: string)
    ensures StripLeft(Lower(s)) == Lower(StripLeft(s))
  {
    if |s| > 0 && IsSpace(s[0]) {
      assert Lower(s)[1..] == Lower(s[1..]);
      LowerStripLeft(s[1..]);
    }
  }

  lemma {:induction false} LowerStripRight(s: string)
    ensures StripRight(Lower(s)) == Lower(StripRight(s))
  {
    if |s| > 0 && IsSpace(s[|s| - 1]) {
      assert Lower(s)[..|s| - 1] == Lower(s[..|s| - 1]);
      LowerStripRight(s[..|s| - 1]);
    }
  }

  /** Normalising twice is the same as normalising once. */
  lemma NormalizeAnswerIdempotent(text: string)
    ensures NormalizeAnswer(NormalizeAnswer(text)) == NormalizeAnswer(text)
  {
    var n := NormalizeAnswer(text);
    DeleteSpaceNoSpace(n);
  }

  type SynonymTableType = seq<(string, seq<string>)>

  /**
   * The closed synonym table of `get_synonyms`, in the dictionary's insertion order:
   * each entry is a key and its group of accepted spellings.
   */
  const SynonymTable: SynonymTableType := [
    ("iam정책", ["아이엠정책", "iam정책", "아이엠 정책", "iam 정책"]),
    ("ec2", ["이씨투", "ec2", "이씨2", "일라스틱컴퓨트클라우드"]),
    ("s3", ["에스쓰리", "s3", "에스3", "심플스토리지서비스"]),
    ("vpc", ["브이피씨", "vpc", "가상프라이빗클라우드", "버츄얼프라이빗클라우드"]),
    ("rds", ["알디에스", "rds", "관계형데이터베이스서비스", "릴레이셔널데이터베이스서비스"]),
    ("elb", ["이엘비", "elb", "일래스틱로드밸런서", "엘라스틱로드밸런서"]),
    ("lambda", ["람다", "lambda", "람다함수", "람다 함수"]),
    ("cloudfront", ["클라우드프론트", "cloudfront"]),
    ("route53", ["라우트53", "route53", "라우트 53", "라우트피프티쓰리"]),
    ("dynamodb", ["다이나모db", "dynamodb", "다이나모디비", "다이나모 db"]),
    ("sns", ["에스엔에스", "sns", "심플노티피케이션서비스"]),
    ("sqs", ["에스큐에스", "sqs", "심플큐서비스"]),
    ("efs", ["이에프에스", "efs", "일래스틱파일시스템"]),
    ("ebs", ["이비에스", "ebs", "일래스틱블록스토어"]),
    ("cloudwatch", ["클라우드워치", "cloudwatch"]),
    ("iam", ["아이엠", "iam", "아이디엔티티액세스매니지먼트"]),
    ("로드밸런서", ["로드밸런싱", "로드 밸런서", "로드 밸런싱", "부하분산"]),
    ("오토스케일링", ["자동확장", "자동 확장", "오토 스케일링", "autoscaling"]),
    ("가용영역", ["availability zone", "az", "에이지", "가용 영역"]),
    ("리전", ["region", "지역", "리전"]),
    ("스토리지", ["저장소", "storage", "스토리지"]),
    ("인스턴스", ["instance", "인스턴스"]),
    ("버킷", ["bucket", "버킷"]),
    ("스냅샷", ["snapshot", "스냅샷", "스냅 샷"]),
    ("엔드포인트", ["endpoint", "종단점", "엔드 포인트"]),
    ("보안그룹", ["security group", "시큐리티그룹", "보안 그룹"])
  ]

  /** A group of spellings, each normalised (`[normalize_answer(s) for s in synonyms]`). */
  function NormalizedGroup(group: seq<string>): (r: seq<string>)
    ensures |r| == |group|
  {
    seq(|group|, i requires 0 <= i < |group| => NormalizeAnswer(group[i]))
  }

  /** The position of the first table entry whose normalised group holds `n`. */
  function FirstGroupWith(table: SynonymTableType, n: string): (r: Option<nat>)
    ensures r.Some? ==> r.value < |table| && n in NormalizedGroup(table[r.value].1)
    ensures r.Some? ==> forall j :: 0 <= j < r.value ==> n !in NormalizedGroup(table[j].1)
    ensures r.None? <==> forall j :: 0 <= j < |table| ==> n !in NormalizedGroup(table[j].1)
  {
    if table == [] then None
    else if n in NormalizedGroup(table[0].1) then Some(0)
    else match FirstGroupWith(table[1..], n)
      case None => None
      case Some(k) => Some(k + 1)
  }

  /**
   * The lookup of `get_synonyms` over a given table: the normalised members of the first
   * group that holds the normalised input, in table order; otherwise the normalised input alone.
   */
  function SynonymsIn(table: SynonymTableType, text: string): (r: seq<string>)
    ensures NormalizeAnswer(text) in r
    ensures r == [NormalizeAnswer(text)]
            || exists k :: 0 <= k < |table| && r == NormalizedGroup(table[k].1)
  {
    var n := NormalizeAnswer(text);
    match FirstGroupWith(table, n)
    case Some(k) => NormalizedGroup(table[k].1)
    case None => [n]
  }

  /**
   * `get_synonyms`: the lookup over the source's own table. The list holds the normalised
   * input, and is either that alone or one whole group of the table, normalised.
   */
  function GetSynonyms(text: string): (r: seq<string>)
    ensures NormalizeAnswer(text) in r
    ensures r == [NormalizeAnswer(text)]
            || exists k :: 0 <= k < |SynonymTable| && r == NormalizedGroup(SynonymTable[k].1)
  {
    SynonymsIn(SynonymTable, text)
  }

  datatype Tier = Exact | Synonym | Partial | Wrong

  /** The tuple `(is_correct, match_type, message)` returned by `check_short_answer`. */
  datatype MatchResult = MatchResult(isCorrect: bool, tier: Tier, message: string)

  const CorrectMessage: string := "정답입니다!"

  function PartialMessage(correctAnswer: string): string {
    "아쉽습니다! 정답은 '" + correctAnswer + "'입니다."
  }

  function WrongMessage(correctAnswer: string): string {
    "오답입니다. 정답은 '" + correctAnswer + "'입니다."
  }

  /** Some spelling in the learner's synonym list is also in the canonical answer's. */
  predicate SharesSynonym(userSynonyms: seq<string>, correctSynonyms: seq<string>) {
    exists s :: s in userSynonyms && s in correctSynonyms
  }

  /** The partial-credit condition: one normalised answer inside the other, both at least two long, unequal. */
  predicate PartialMatch(u: string, c: string) {
    (IsSubstring(u, c) || IsSubstring(c, u)) && |u| >= 2 && |c| >= 2 && u != c
  }

  /**
   * The grading of `check_short_answer` with the synonym lookup done in `table`; the
   * lemmas below hold for every table, the source's included.
   */
  function GradeWith(table: SynonymTableType, userAnswer: string, correctAnswer: string): (r: MatchResult)
    ensures r.isCorrect <==> r.tier in {Exact, Synonym}
    ensures r.isCorrect ==> r.message == CorrectMessage
    ensures !r.isCorrect ==> IsSubstring(correctAnswer, r.message)
  {
    var u := NormalizeAnswer(userAnswer);
    var c := NormalizeAnswer(correctAnswer);
    if u == c then MatchResult(true, Exact, CorrectMessage)
    else if SharesSynonym(SynonymsIn(table, userAnswer), SynonymsIn(table, correctAnswer)) then
      MatchResult(true, Synonym, CorrectMessage)
    else if PartialMatch(u, c) then
      RevealsAnswer("아쉽습니다! 정답은 '", correctAnswer, "'입니다.");
      MatchResult(false, Partial, PartialMessage(correctAnswer))
    else
      RevealsAnswer("오답입니다. 정답은 '", correctAnswer, "'입니다.");
      MatchResult(false, Wrong, WrongMessage(correctAnswer))
  }

  /**
   * `check_short_answer`: answers equal after normalisation are an exact match; only the
   * exact and synonym tiers accept, with "정답입니다!"; a rejection quotes the canonical answer.
   */
  function CheckShortAnswer(userAnswer: string, correctAnswer: string): (r: MatchResult)
    ensures NormalizeAnswer(userAnswer) == NormalizeAnswer(correctAnswer) ==> r == MatchResult(true, Exact, CorrectMessage)
    ensures r.isCorrect <==> r.tier in {Exact, Synonym}
    ensures r.isCorrect ==> r.message == CorrectMessage
    ensures !r.isCorrect ==> IsSubstring(correctAnswer, r.message)
  {
    GradeWith(SynonymTable, userAnswer, correctAnswer)
  }

  lemma {:induction false} RevealsAnswer(before: string, answer: string, after: string)
    ensures IsSubstring(answer, before + answer + after)
  {
    if before == [] {
      assert before + answer + after == answer + after;
    } else {
      assert (before + answer + after)[1..] == before[1..] + answer + after;
      RevealsAnswer(before[1..], answer, after);
    }
  }

  /**
   * The tiers are tried in order: exact exactly when the normalised strings are equal;
   * synonym exactly when they differ and the two synonym lists share a spelling; wrong
   * exactly when neither of those holds and the partial-credit condition fails either.
   */
  lemma TierOrder(table: SynonymTableType, userAnswer: string, correctAnswer: string)
    ensures var u, c := NormalizeAnswer(userAnswer), NormalizeAnswer(correctAnswer);
            var shares := SharesSynonym(SynonymsIn(table, userAnswer), SynonymsIn(table, correctAnswer));
            var t := GradeWith(table, userAnswer, correctAnswer).tier;
            (t == Exact <==> u == c)
            && (t == Synonym <==> u != c && shares)
            && (t == Wrong <==> u != c && !shares && !PartialMatch(u, c))
  {
  }

  /**
   * Tier 3: partial credit exactly when neither higher tier applies, one normalised string
   * occurs inside the other, and both are at least two characters long.
   */
  lemma PartialTierIff(table: SynonymTableType, userAnswer: string, correctAnswer: string)
    ensures var u, c := NormalizeAnswer(userAnswer), NormalizeAnswer(correctAnswer);
            GradeWith(table, userAnswer, correctAnswer).tier == Partial
            <==> u != c && !SharesSynonym(SynonymsIn(table, userAnswer), SynonymsIn(table, correctAnswer))
                 && |u| >= 2 && |c| >= 2
                 && ((exists i: nat :: OccursAt(u, c, i)) || (exists i: nat :: OccursAt(c, u, i)))
  {
    var u, c := NormalizeAnswer(userAnswer), NormalizeAnswer(correctAnswer);
    IsSubstringIff(u, c);
    IsSubstringIff(c, u);
  }

  /** The grade does not depend on which side is the learner's (only the message does). */
  lemma {:induction false} TierSymmetric(table: SynonymTableType, a: string, b: string)
    ensures GradeWith(table, a, b).tier == GradeWith(table, b, a).tier
    ensures GradeWith(table, a, b).isCorrect == GradeWith(table, b, a).isCorrect
  {
    assert SharesSynonym(SynonymsIn(table, a), SynonymsIn(table, b))
       <==> SharesSynonym(SynonymsIn(table, b), SynonymsIn(table, a));
  }

  /**
   * When the canonical answer's normalised form is in the learner's synonym group (the two
   * answers are spellings from one table group), the answer is accepted.
   */
  lemma SameGroupAccepted(table: SynonymTableType, userAnswer: string, correctAnswer: string)
    requires NormalizeAnswer(correctAnswer) in SynonymsIn(table, userAnswer)
    ensures GradeWith(table, userAnswer, correctAnswer).isCorrect
  {
    assert NormalizeAnswer(correctAnswer) in SynonymsIn(table, correctAnswer);
  }

  /** The length floor: an answer that normalises to fewer than two characters never earns partial credit. */
  lemma ShortAnswerNeverPartial(table: SynonymTableType, userAnswer: string, correctAnswer: string)
    requires |NormalizeAnswer(userAnswer)| < 2 || |NormalizeAnswer(correctAnswer)| < 2
    ensures GradeWith(table, userAnswer, correctAnswer).tier != Partial
  {
  }

  /** When the partial-credit condition holds, the grade is partial unless the synonym lookup relates the two answers. */
  lemma PartialUnlessSynonym(table: SynonymTableType, userAnswer: string, correctAnswer: string)
    requires PartialMatch(NormalizeAnswer(userAnswer), NormalizeAnswer(correctAnswer))
    ensures GradeWith(table, userAnswer, correctAnswer).tier
            == if SharesSynonym(SynonymsIn(table, userAnswer), SynonymsIn(table, correctAnswer)) then Synonym else Partial
  {
  }
}
