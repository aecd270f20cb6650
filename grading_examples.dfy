/**
 * Worked grading examples: the exact and length-floor cases hold over any synonym table;
 * the synonym, partial and wrong grades are worked out over the source's own table.
 */
module GradingExamples {
  import opened Wrappers
  import opened Strings
  import opened Grading

  /** ("EC2", "ec2") and ("VPC", "VPC") are exact matches, whatever the synonym table holds. */
  lemma ExactExamples(table: SynonymTableType)
    ensures GradeWith(table, "EC2", "ec2") == MatchResult(true, Exact, CorrectMessage)
    ensures GradeWith(table, "VPC", "VPC") == MatchResult(true, Exact, CorrectMessage)
  {
    EC2SpaceFree();
    EC2Lowered();
  }

  lemma EC2SpaceFree()
    ensures DeleteSpace("EC2") == "EC2" && DeleteSpace("ec2") == "ec2"
  {
  }

  lemma EC2Lowered()
    ensures Lower("EC2") == "ec2" && Lower("ec2") == "ec2"
  {
  }

  lemma AmazonSpaceFree()
    ensures DeleteSpace("Amazon") == "Amazon"
  {
  }

  lemma SpaceS3Deleted()
    ensures DeleteSpace(" S3") == "S3"
  {
  }

  lemma AmazonS3SpaceDeleted()
    ensures DeleteSpace("Amazon S3") == "AmazonS3"
  {
    AmazonSpaceFree();
    SpaceS3Deleted();
    AmazonS3Split();
    DeleteSpaceConcat("Amazon", " S3");
  }

  lemma AmazonS3Split()
    ensures "Amazon S3" == "Amazon" + " S3" && "AmazonS3" == "Amazon" + "S3"
  {
  }

  lemma AmazonLowered()
    ensures Lower("Amazon") == "amazon"
  {
  }

  lemma S3Lowered()
    ensures Lower("S3") == "s3"
  {
  }

  lemma AmazonS3Lowered()
    ensures Lower("AmazonS3") == "amazons3"
  {
    AmazonLowered();
    S3Lowered();
    LowerConcat("Amazon", "S3");
    assert "AmazonS3" == "Amazon" + "S3";
    assert "amazons3" == "amazon" + "s3";
  }

  lemma AmazonS3Normalized()
    ensures NormalizeAnswer("Amazon S3") == "amazons3"
  {
    AmazonS3SpaceDeleted();
    AmazonS3Lowered();
  }

  /** ("Amazon S3", "S3"): "s3" lies inside "amazons3", and no table group holds "amazons3", so the grade is partial. */
  lemma AmazonS3Example()
    ensures PartialMatch(NormalizeAnswer("Amazon S3"), NormalizeAnswer("S3"))
    ensures CheckShortAnswer("Amazon S3", "S3") == MatchResult(false, Partial, PartialMessage("S3"))
  {
    AmazonS3Match();
    AmazonS3OffTable();
    OffTableGrade(SynonymTable, "Amazon S3", "S3");
  }

  lemma AmazonS3Match()
    ensures PartialMatch(NormalizeAnswer("Amazon S3"), NormalizeAnswer("S3"))
    ensures NormalizeAnswer("Amazon S3") != NormalizeAnswer("S3")
  {
    AmazonS3Normalized();
    assert NormalizeAnswer("S3") == "s3";
    assert IsSubstring("s3", "amazons3");
  }

  lemma AmazonS3OffTable()
    ensures forall k :: 0 <= k < |SynonymTable| ==> NormalizeAnswer("Amazon S3") !in NormalizedGroup(SynonymTable[k].1)
  {
    AmazonS3Normalized();
    AmazonS3Start();
    NotInTable("amazons3");
  }

  lemma AmazonS3Start()
    ensures |"amazons3"| >= 2 && "amazons3"[..2] == "am"
  {
  }

  /**
   * ("a", "ab"): the single character is inside "ab" but the length floor denies partial
   * credit over any table; over the source's table no group holds "a", so the grade is wrong.
   */
  lemma LengthFloorExample(table: SynonymTableType)
    ensures GradeWith(table, "a", "ab").tier != Partial
    ensures CheckShortAnswer("a", "ab") == MatchResult(false, Wrong, WrongMessage("ab"))
  {
    assert NormalizeAnswer("a") == "a";
    assert NormalizeAnswer("ab") == "ab";
    NotInTable("a");
    OffTableGrade(SynonymTable, "a", "ab");
  }

  /**
   * An answer whose normalised form is in no group of the table earns no synonym credit:
   * its grade is exact, partial or wrong by the normalised strings alone.
   */
  lemma OffTableGrade(table: SynonymTableType, userAnswer: string, correctAnswer: string)
    requires forall k :: 0 <= k < |table| ==> NormalizeAnswer(userAnswer) !in NormalizedGroup(table[k].1)
    ensures var u, c := NormalizeAnswer(userAnswer), NormalizeAnswer(correctAnswer);
            GradeWith(table, userAnswer, correctAnswer)
            == if u == c then MatchResult(true, Exact, CorrectMessage)
               else if PartialMatch(u, c) then MatchResult(false, Partial, PartialMessage(correctAnswer))
               else MatchResult(false, Wrong, WrongMessage(correctAnswer))
  {
    var u := NormalizeAnswer(userAnswer);
    assert SynonymsIn(table, userAnswer) == [u];
    if u != NormalizeAnswer(correctAnswer) {
      assert u !in SynonymsIn(table, correctAnswer);
    }
  }

  /** ("이씨투", "EC2"): the Korean spelling and "ec2" share the table's "ec2" group, so the grade is synonym. */
  lemma EC2SynonymExample()
    ensures CheckShortAnswer("이씨투", "EC2") == MatchResult(true, Synonym, CorrectMessage)
  {
    EC2SynonymGroup();
    KoreanEC2Normalized();
    EC2SpaceFree();
    EC2Lowered();
    GroupGrade(SynonymTable, "이씨투", "EC2", 1);
  }

  /**
   * When the learner's answer is first found in group `k` and the canonical answer's
   * normalised form is in that group too, unequal answers are graded synonym.
   */
  lemma GroupGrade(table: SynonymTableType, userAnswer: string, correctAnswer: string, k: nat)
    requires FirstGroupWith(table, NormalizeAnswer(userAnswer)) == Some(k)
    requires NormalizeAnswer(correctAnswer) in NormalizedGroup(table[k].1)
    requires NormalizeAnswer(userAnswer) != NormalizeAnswer(correctAnswer)
    ensures GradeWith(table, userAnswer, correctAnswer) == MatchResult(true, Synonym, CorrectMessage)
  {
    assert NormalizeAnswer(correctAnswer) in SynonymsIn(table, correctAnswer);
  }

  /** "이씨투" is first found in the table's second group, the one keyed "ec2", which also holds "ec2". */
  lemma EC2SynonymGroup()
    ensures FirstGroupWith(SynonymTable, "이씨투") == Some(1)
    ensures "ec2" in NormalizedGroup(SynonymTable[1].1)
  {
    KoreanEC2Normalized();
    FirstGroupStarts();
    NotInGroup(SynonymTable[0].1, "이씨투");
    EC2GroupMembers();
    SecondGroup(SynonymTable, "이씨투");
  }

  lemma EC2GroupMembers()
    ensures |SynonymTable| >= 2
    ensures "이씨투" in NormalizedGroup(SynonymTable[1].1) && "ec2" in NormalizedGroup(SynonymTable[1].1)
  {
    var g := SynonymTable[1].1;
    assert g == ["이씨투", "ec2", "이씨2", "일라스틱컴퓨트클라우드"];
    KoreanEC2Normalized();
    EC2SpaceFree();
    EC2Lowered();
    assert NormalizedGroup(g)[0] == "이씨투";
    assert NormalizedGroup(g)[1] == "ec2";
  }

  /** A spelling missing from the first group and present in the second is found in the second. */
  lemma SecondGroup(table: SynonymTableType, n: string)
    requires |table| >= 2
    requires n !in NormalizedGroup(table[0].1) && n in NormalizedGroup(table[1].1)
    ensures FirstGroupWith(table, n) == Some(1)
  {
    assert table[1..][0] == table[1];
  }

  lemma KoreanEC2Normalized()
    ensures NormalizeAnswer("이씨투") == "이씨투"
  {
    assert DeleteSpace("이씨투") == "이씨투";
    assert Lower("이씨투") == "이씨투";
  }

  /** The first group's spellings start "아이" or "ia", never "이씨". */
  lemma FirstGroupStarts()
    ensures forall j :: 0 <= j < |SynonymTable[0].1| ==>
              SpacelessStart(SynonymTable[0].1[j]) && Head(SynonymTable[0].1[j]) != "이씨"
  {
  }

  /** A spelling whose first two characters are not whitespace. */
  predicate SpacelessStart(s: string) {
    |s| >= 2 && !IsSpace(s[0]) && !IsSpace(s[1])
  }

  /** The first two characters of such a spelling, lower-cased: the start of its normalised form. */
  function Head(s: string): string
    requires |s| >= 2
  {
    [LowerChar(s[0]), LowerChar(s[1])]
  }

  /** Every spelling of the group starts with two non-space characters, and none with "am" in any case. */
  predicate GroupStarts(g: seq<string>) {
    forall j :: 0 <= j < |g| ==> SpacelessStart(g[j]) && Head(g[j]) != "am"
  }

  lemma {:induction false} NormalizedStart(s: string)
    requires SpacelessStart(s)
    ensures |NormalizeAnswer(s)| >= 2 && NormalizeAnswer(s)[..2] == Head(s)
  {
    assert DeleteSpace(s) == [s[0]] + DeleteSpace(s[1..]);
    assert s[1..][0] == s[1] && s[1..][1..] == s[2..];
    assert DeleteSpace(s[1..]) == [s[1]] + DeleteSpace(s[2..]);
  }

  /**
   * `n` is in no normalised group whose spellings all start with two non-space characters
   * other than `n`'s first two (a one-character `n` is too short for any of them).
   */
  lemma NotInGroup(g: seq<string>, n: string)
    requires forall j :: 0 <= j < |g| ==> SpacelessStart(g[j]) && (|n| < 2 || Head(g[j]) != n[..2])
    ensures n !in NormalizedGroup(g)
  {
    forall j | 0 <= j < |g| ensures NormalizedGroup(g)[j] != n {
      NormalizedStart(g[j]);
    }
  }

  /** A one-character answer, or one starting "am", is in no group of the source's table. */
  lemma NotInTable(n: string)
    requires |n| < 2 || n[..2] == "am"
    ensures forall k :: 0 <= k < |SynonymTable| ==> n !in NormalizedGroup(SynonymTable[k].1)
  {
    TableStarts();
    NotInStartedTable(SynonymTable, n);
  }

  lemma NotInStartedTable(table: SynonymTableType, n: string)
    requires forall k :: 0 <= k < |table| ==> GroupStarts(table[k].1)
    requires |n| < 2 || n[..2] == "am"
    ensures forall k :: 0 <= k < |table| ==> n !in NormalizedGroup(table[k].1)
  {
    forall k | 0 <= k < |table| ensures n !in NormalizedGroup(table[k].1) {
      NotInGroup(table[k].1, n);
    }
  }

  lemma TableStarts()
    ensures forall k :: 0 <= k < |SynonymTable| ==> GroupStarts(SynonymTable[k].1)
  {
    assert |SynonymTable| == 26;
    forall k | 0 <= k < |SynonymTable| ensures GroupStarts(SynonymTable[k].1) {
      if k <= 3 {
        GroupStarts0To3(k);
      } else if k <= 7 {
        GroupStarts4To7(k);
      } else if k <= 11 {
        GroupStarts8To11(k);
      } else if k <= 15 {
        GroupStarts12To15(k);
      } else if k <= 19 {
        GroupStarts16To19(k);
      } else if k <= 22 {
        GroupStarts20To22(k);
      } else {
        GroupStarts23To25(k);
      }
    }
  }

  lemma GroupStarts0To3(k: nat)
    requires 0 <= k <= 3
    ensures GroupStarts(SynonymTable[k].1)
  {
    assert |SynonymTable| == 26;
    if k == 0 {
    } else if k == 1 {
    } else if k == 2 {
    } else {
    }
  }

  lemma GroupStarts4To7(k: nat)
    requires 4 <= k <= 7
    ensures GroupStarts(SynonymTable[k].1)
  {
    assert |SynonymTable| == 26;
    if k == 4 {
    } else if k == 5 {
    } else if k == 6 {
    } else {
    }
  }

  lemma GroupStarts8To11(k: nat)
    requires 8 <= k <= 11
    ensures GroupStarts(SynonymTable[k].1)
  {
    assert |SynonymTable| == 26;
    if k == 8 {
    } else if k == 9 {
    } else if k == 10 {
    } else {
    }
  }

  lemma GroupStarts12To15(k: nat)
    requires 12 <= k <= 15
    ensures GroupStarts(SynonymTable[k].1)
  {
    assert |SynonymTable| == 26;
    if k == 12 {
    } else if k == 13 {
    } else if k == 14 {
    } else {
    }
  }

  lemma GroupStarts16To19(k: nat)
    requires 16 <= k <= 19
    ensures GroupStarts(SynonymTable[k].1)
  {
    assert |SynonymTable| == 26;
    if k == 16 {
    } else if k == 17 {
    } else if k == 18 {
    } else {
    }
  }

  lemma GroupStarts20To22(k: nat)
    requires 20 <= k <= 22
    ensures GroupStarts(SynonymTable[k].1)
  {
    assert |SynonymTable| == 26;
    if k == 20 {
    } else if k == 21 {
    } else {
    }
  }

  lemma GroupStarts23To25(k: nat)
    requires 23 <= k <= 25
    ensures GroupStarts(SynonymTable[k].1)
  {
    assert |SynonymTable| == 26;
    if k == 23 {
    } else if k == 24 {
    } else {
    }
  }
}
