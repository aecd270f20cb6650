# AWS cloud study assistant: verified model of its core routines

The repository holds two Streamlit apps for AWS cloud-computing study.

- `rag_app.py` answers questions from a Bedrock knowledge base.
- `app.py` also generates quiz questions, grades short answers and keeps a per-session study log.

This project models, in Dafny, the routines that lie between the user interface and the AWS/LLM calls, and proves what they promise:

- **Short-answer grading** (`normalize_answer`, `get_synonyms`, `check_short_answer`) — module `Grading`, with worked examples in `GradingExamples`.
  - Answers are normalised by strip, lower-case and deleting every whitespace character.
  - Synonyms are looked up in the closed synonym table.
  - A grade is the first of four tiers that applies: exact, synonym, partial, wrong.
- **Retrieval post-processing** (`retrieve_from_kb`, `merge_chunks_by_file` and the rendering in `rag_answer`; the inlined copy in `search_knowledge_base`) — module `Retrieval`.
  - Results below a score threshold are dropped, and each survivor is named by the last segment of its URI.
  - Survivors are grouped by source in first-seen order.
  - Each group scores `avg * (1 + (n - 1) * 0.25)`.
  - Groups are stable-sorted by that score, highest first, then rendered as densely numbered blocks and footnotes.
- **Reply cleanup** (`remove_markdown_headers`, `normalize_references`, `extract_json`) — module `Cleanup`. These are modelled as the left-to-right scans that `re.sub` performs, plus the brace span handed to `json.loads`.
- **Question batch** (the loop at the end of `rag_answer_chain`, and `create_error_question`) — module `Questions`. Each record is stamped with its id and position and forced into the shape its question type needs.
- **Study session** (`toggle_bookmark`, `record_answer`, `get_statistics`, `get_weak_topics`, `get_wrong_questions`) — module `Session`.
  - The class `StudySession` stands for `st.session_state`.
  - Its invariant `Valid` says:
    - no bookmark appears twice;
    - `bookmark_data` holds exactly the bookmarked keys;
    - the answer history holds one record per question, and `answered_questions` mirrors it.

Supporting modules:

- `Strings` covers the parts of Python's `str` the core relies on: whitespace classes, ASCII case mapping, `strip`, `find`/`rfind`, `split`, `join`, `str(n)`, and the `in` substring test.
- `Sorting` is a stable sort-by-key, standing in for `sorted`/`list.sort`.
- `Wrappers` is `Option`.

Where the code loops and mutates, the model is a method with a loop, proved against a specification function. Pure code is modelled as functions and lemmas.

Behaviour of the code worth stating explicitly:

- `normalize_references` rewrites every `[ID: n]` marker to `[n]`. It neither deletes out-of-range citation numbers nor inserts a "(none)" placeholder; `Cleanup.NormalizeReferencesKeepsAnyNumber` states this.
- `normalize_answer` deletes whitespace; it does not collapse it.
- `search_knowledge_base` uses threshold 0.60 and names a result without a URI "Unknown". `retrieve_from_kb` uses 0.50 and "Unknown document". Both are instances of one routine with these two values as parameters.

## Model

| member | source | states |
|---|---|---|

| Grading.NormalizeAnswer | app.py:191-193 | the result is the text with every whitespace character deleted and ASCII letters lower-cased (stripping first changes nothing), so it has no whitespace and is its own lower case |
| Grading.NormalizeAnswerIdempotent | app.py:191-193 | normalising a normalised answer changes nothing |
| Grading.FirstGroupWith | app.py:229-235 | finds the first table group whose normalised spellings contain the input; no earlier group contains it; `None` exactly when no group does |
| Grading.SynonymsIn | app.py:196-237 | the synonym list always contains the normalised input, and is either that input alone or the normalised spellings of one table group |
| Grading.GetSynonyms | app.py:196-237 | over the source's own table, the list holds the normalised input and is either that alone or one whole table group, normalised; `Grading.SynonymsIn` and `Grading.FirstGroupWith` state which group |
| Grading.GradeWith | app.py:240-270 | the answer is accepted exactly in the exact and synonym tiers; an accepted answer gets "정답입니다!"; a rejected one gets a message that quotes the canonical answer |
| Grading.CheckShortAnswer | app.py:240-270 | over the source's own table: answers equal after normalisation are an exact match; only the exact and synonym tiers accept, with "정답입니다!"; a rejection quotes the canonical answer. `Grading.TierOrder` and `Grading.PartialTierIff` give each tier's condition |
| Grading.RevealsAnswer | app.py:267-270 | the partial and wrong messages contain the canonical answer verbatim |
| Grading.TierOrder | app.py:247-270 | the tiers are tried in order: exact if and only if the normalised strings are equal; synonym if and only if they differ and the two synonym lists share a spelling; wrong if and only if neither holds and the partial-credit condition fails too |
| Grading.PartialTierIff | app.py:263-267 | the tier is partial if and only if neither higher tier applies, both normalised strings have at least two characters, and one occurs inside the other at some position |
| Grading.TierSymmetric | app.py:240-270 | swapping the learner's and the canonical answer changes neither the tier nor the verdict |
| Grading.SameGroupAccepted | app.py:253-259 | when the canonical answer's normalised form is in the learner's synonym group, the answer is accepted |
| Grading.ShortAnswerNeverPartial | app.py:265-267 | an answer that normalises to fewer than two characters, on either side, never earns partial credit |
| Grading.PartialUnlessSynonym | app.py:253-267 | under the partial-credit condition, the tier is synonym when the lists share a spelling and partial otherwise |
| Grading.LowerStrip | app.py:193 | stripping and lower-casing commute |
| Grading.SynonymTable | app.py:198-228 | the 26 entries of `synonym_map`, each a key and its accepted spellings, in insertion order; `GradingExamples.NotInTable`, `GradingExamples.EC2SynonymGroup` and the `GradingExamples.GroupStarts…` lemmas state what it holds |
| GradingExamples.ExactExamples | app.py:247-251 | ("EC2", "ec2") and ("VPC", "VPC") are exact matches for every synonym table |
| GradingExamples.AmazonS3Example | app.py:253-267 | over the source's own table, "Amazon S3" against "S3" is graded partial with "아쉽습니다! 정답은 'S3'입니다.": the normalised forms "amazons3" and "s3" meet the partial-credit condition, and "amazons3" is in no synonym group |
| GradingExamples.AmazonS3Match | app.py:263-266 | "amazons3" and "s3" differ and meet the partial-credit condition |
| GradingExamples.AmazonS3OffTable | app.py:198-235 | the normalised "Amazon S3" is in no group of the source's table |
| GradingExamples.AmazonS3Normalized | app.py:191-193 | "Amazon S3" normalises to "amazons3" |
| GradingExamples.LengthFloorExample | app.py:263-270 | for every synonym table ("a", "ab") is not partial; over the source's own table it is graded wrong with "오답입니다. 정답은 'ab'입니다." |
| GradingExamples.EC2SynonymExample | app.py:253-259 | over the source's own table, "이씨투" against "EC2" is accepted as a synonym with "정답입니다!" |
| GradingExamples.EC2SynonymGroup | app.py:229-235 | "이씨투" is first found in the second group of the table, the "ec2" entry, which also holds "ec2" |
| GradingExamples.OffTableGrade | app.py:240-270 | when the learner's normalised answer is in no group of the table, the grade is exact, partial or wrong by the normalised strings alone |
| GradingExamples.GroupGrade | app.py:253-259 | when the learner's answer is first found in a group that also holds the canonical answer's normalised form, and the two differ, the grade is synonym |
| GradingExamples.NotInTable | app.py:198-235 | no group of the source's table holds a normalised text shorter than two characters or starting with "am" |
| Retrieval.FileName | rag_app.py:35-41 | the file name is the URI text after its last "/" (all of it when there is no "/"), contains no "/", is a suffix of the URI, and is the fallback name when the URI is empty |
| Retrieval.RetrieveFromResults | rag_app.py:28-49 | the filter loop returns exactly `Survivors`: the results at or above the threshold, in input order, each with its text, file name and score |
| Retrieval.Survivors | rag_app.py:29-47 | the filter loop's reference definition over prefixes, with no contract of its own; `Retrieval.SurvivorsMembers`, `Retrieval.SurvivorsAppend`, `Retrieval.SurvivorsAboveThreshold` and `Retrieval.SurvivorsAllKept` specify it |
| Retrieval.SurvivorsAppend | rag_app.py:29-47 | filtering distributes over concatenation, so survivors keep their input order |
| Retrieval.SurvivorsMembers | rag_app.py:29-47 | a fragment survives if and only if some result with score at least the threshold produced it |
| Retrieval.SurvivorsAboveThreshold | rag_app.py:31-32 | every survivor scores at least the threshold |
| Retrieval.SurvivorsAllKept | rag_app.py:29-47 | when every result reaches the threshold, every result survives, in input order |
| Retrieval.GroupIndex | rag_app.py:56-57 | finds the group of a source if one exists, and `None` only when no group has that source |
| Retrieval.Groups | rag_app.py:52-61 | the grouping loop's reference definition, with no contract of its own; `Retrieval.GroupsCorrect` and `Retrieval.GroupsCount` specify it |
| Retrieval.GroupsCount | rag_app.py:55-61 | there is at most one group per fragment, and at least one group once there is a fragment |
| Retrieval.AddChunkGroupsOf | rag_app.py:55-61 | one grouping step keeps the invariant: one group per source, in first-seen order, each holding exactly its source's texts and scores in input order |
| Retrieval.GroupsCorrect | rag_app.py:52-61 | after the grouping loop, the groups are one per distinct source in first-seen order, each with exactly that source's texts and scores in input order, none empty |
| Retrieval.GroupChunks | rag_app.py:52-61 | the grouping loop's dict and its key insertion order hold exactly the groups of `Groups`, which satisfy the grouping invariant |
| Retrieval.MirrorsAddNew | rag_app.py:56-61 | opening a new group for an unseen source appends one key and one group |
| Retrieval.MirrorsAddExisting | rag_app.py:59-61 | appending to an existing group updates that group alone |
| Retrieval.Summarize | rag_app.py:68-72 | one group's merged document: its source, its composite score and its texts joined by "\n"; `Retrieval.MergeContents` states it per source |
| Retrieval.Summaries | rag_app.py:63-72 | one merged document per group, in group order; `Retrieval.SummariesOneEach` and `Retrieval.SummarizeGroups` specify it |
| Retrieval.SummarizeGroups | rag_app.py:63-72 | the loop over `grouped.items()` yields one merged document per group, in key order, with the composite score and the texts joined by "\n" |
| Retrieval.MergeChunksByFile | rag_app.py:52-75 | `merge_chunks_by_file` returns the groups' merged documents, stable-sorted by composite score, highest first |
| Retrieval.Merge | rag_app.py:52-75 | there are no more merged documents than fragments, and none exactly when there is no fragment; `Retrieval.MergeOnePerSource`, `Retrieval.MergeOrdered`, `Retrieval.MergeTiesFirstSeen` and `Retrieval.MergeContents` give the rest |
| Retrieval.Weighted | rag_app.py:66 | `avg * (1 + (n - 1) * 0.25)`, the same formula as app.py:84; `Retrieval.CompositeGrowsWithCount` states that it grows strictly with the count for a positive mean |
| Retrieval.CompositeScore | rag_app.py:65-66 | the mean of a group's scores, weighted by its size; `Retrieval.CompositeSingle` and `Retrieval.RepeatedSourceOutranks` state its values |
| Retrieval.CompositeSingle | rag_app.py:65-66 | a single-fragment group keeps its own score |
| Retrieval.CompositeGrowsWithCount | rag_app.py:66 | for a fixed positive mean, more fragments give a strictly larger composite score |
| Retrieval.RepeatedSourceOutranks | rag_app.py:65-66 | five fragments at 0.8 score 1.6, more than one fragment at 0.95 |
| Retrieval.MergeOnePerSource | rag_app.py:52-75 | the merged documents have pairwise different sources, and their sources are exactly the fragments' sources |
| Retrieval.SummariesOneEach | rag_app.py:63-72 | one summary per group, no two equal, each under its group's source |
| Retrieval.DistinctSourcesKept | rag_app.py:74 | reordering documents whose sources are distinct keeps those sources distinct |
| Retrieval.SameMembersSameSources | rag_app.py:74 | two lists of the same documents cover the same sources |
| Retrieval.MergeOrdered | rag_app.py:74 | the merged documents come in non-increasing score order |
| Retrieval.MergeTiesFirstSeen | rag_app.py:74 | documents with equal scores keep the first-seen order of their groups |
| Retrieval.MergeContents | rag_app.py:63-72 | each merged document's text is its source's fragment texts joined by "\n" in input order, and its score is the composite of that source's scores |
| Retrieval.FragmentInItsGroup | rag_app.py:55-61 | every fragment's text and score reach the group of its own source |
| Retrieval.MergeEmpty | rag_app.py:52-75 | merging no fragments gives no documents |
| Retrieval.LabelClose | rag_app.py:84 | in a block opened by a label, the label's closing bracket is the first "]" |
| Retrieval.LabelPrefixUnique | rag_app.py:84 | a block opens with at most one label |
| Retrieval.ContextBlock | rag_app.py:84 | the block `[n] FILE: source` + "\n" + text; `Retrieval.ContextBlocksNumbered` and `Retrieval.LabelPrefixUnique` state its label |
| Retrieval.ContextBlocks | rag_app.py:83-85 | one block per document, numbered from 1; `Retrieval.ContextBlocksNumbered` and `Retrieval.FootnotesMatchBlocks` specify it |
| Retrieval.ContextText | rag_app.py:82-88 | the context is "No relevant documents found." exactly when there is no document, and otherwise opens with the label "[1]" |
| Retrieval.ContextBlocksNumbered | rag_app.py:82-86 | there is one block per document; block i opens with label `[i+1]`, whose digits read back as i+1, and with no other document's label |
| Retrieval.Footnotes | rag_app.py:163-171 | one footnote per document, with indices strictly rising from 1 to the number of documents |
| Retrieval.FootnotesMatchBlocks | rag_app.py:163-171 | footnote k carries index k+1 and the source, score and text of context block k |
| Retrieval.NoSurvivorsNoContext | rag_app.py:82-88 | when every result is below 0.50, nothing survives and the context text is "No relevant documents found." |
| Retrieval.RagContext | rag_app.py:79-88 | `rag_answer`'s contexts are the merged survivors at threshold 0.50, the context text is built from them, and the footnotes match them |
| Retrieval.ToolBlock | app.py:100 | the tool block `[ID: n] 파일: source` + "\n내용:\n" + text; `Retrieval.ToolBlocksNumbered` specifies it |
| Retrieval.ToolBlocks | app.py:98-101 | one tool block per document, numbered from 1; `Retrieval.ToolBlocksNumbered` specifies it |
| Retrieval.ToolIdPrefixUnique | app.py:100 | a text opens with at most one `[ID: n]` id |
| Retrieval.ToolBlocksNumbered | app.py:98-101 | there is one tool block per document; block i opens with `[ID: i+1]` and no other block's id, and carries document i's source and text |
| Retrieval.SearchKnowledgeBase | app.py:61-101 | `search_knowledge_base` keeps the merged survivors at threshold 0.60 as the shared docs; with none it outputs "검색 결과 없음."; otherwise the `[ID: i]` blocks joined by blank lines |
| Cleanup.SpaceRun | app.py:181 | the greedy `\s*` run: all whitespace, and not followed by whitespace |
| Cleanup.DigitRun | app.py:181 | the greedy `\d+` run: all digits, and not followed by a digit |
| Cleanup.MarkerAt | app.py:181 | the match at the start of a text is a citation marker, and `None` means no marker starts there |
| Cleanup.MarkerCounts | app.py:181 | a marker has only one whitespace count and one digit count |
| Cleanup.MarkerAtOf | app.py:181 | a marker at the start of a text is the match the scan finds |
| Cleanup.NormalizeReferences | app.py:180-181 | the left-to-right rewrite scan, with no contract of its own; the `Cleanup.NormalizeReferences…` lemmas below specify it |
| Cleanup.NormalizeReferencesRewrites | app.py:180-181 | `[ID:` + any whitespace + digits + `]`, with I and D in either case, becomes `[digits]`, and the rest is rewritten independently |
| Cleanup.NormalizeReferencesUnchanged | app.py:180-181 | a text without markers passes through unchanged |
| Cleanup.OutputPrefixCopied | app.py:180-181 | up to its first "[", the output is a copy of the input |
| Cleanup.MarkerAfterCopiedChar | app.py:180-181 | a marker can start the output only where one started the input |
| Cleanup.NormalizeReferencesNoMarker | app.py:180-181 | after normalisation no marker remains anywhere in the text |
| Cleanup.NoMarkerInRewritten | app.py:180-181 | a rewritten `[digits]` contains no marker |
| Cleanup.NormalizeReferencesIdempotent | app.py:180-181 | normalising twice gives the same text as normalising once |
| Cleanup.NormalizeReferencesKeepsAnyNumber | app.py:180-181 | every cited number is rewritten and kept, whatever its value; none is validated or deleted |
| Cleanup.NormalizeReferencesChars | app.py:180-181 | every character of the normalised text occurs in the input |
| Cleanup.HashRun | app.py:185 | the greedy `#+` run: all "#", and not followed by "#" |
| Cleanup.RemoveHeadersFrom | app.py:185 | the multiline scan never lengthens the text and adds no character |
| Cleanup.RemoveMarkdownHeaders | app.py:184-185 | header removal never lengthens the text and adds no character; `Cleanup.HeaderMatchRemoved`, `Cleanup.RemoveHeadersDeletesOnly` and `Cleanup.RemoveHeadersUnchanged` give the rest |
| Cleanup.HeaderMatchRemoved | app.py:185 | at a line start, a run of "#" and all the whitespace after it are deleted, and the scan goes on after them, at a line start exactly when the deleted run ended with a newline |
| Cleanup.RemoveHeadersDeletesOnly | app.py:184-185 | header removal deletes only "#" and whitespace characters and keeps every other character in order |
| Cleanup.RemoveHeadersUnchanged | app.py:184-185 | a text in which no line opens with "#" passes through unchanged; a "#" elsewhere is kept |
| Cleanup.HeaderLineExample | app.py:184-185 | "## 제목\n본문" becomes "제목\n본문" |
| Cleanup.SwallowsNewlineExample | app.py:184-185 | `\s*` runs over newlines: a bare "#" line disappears together with its line break |
| Cleanup.SecondRunKeptExample | app.py:185 | "# #x" becomes "#x": a second "#" run after the blank is kept, and removing headers again gives "x", so the function is not idempotent |
| Cleanup.JsonSpan | app.py:19-27 | the span runs from the first "{" to the last "}"; it is `None` exactly when either brace is missing or the last "}" comes before the first "{" |
| Cleanup.JsonSpanEmbedded | app.py:19-24 | an object embedded in prose without braces is cut out exactly |
| Cleanup.JsonSpanBraces | app.py:19-24 | an extracted span opens with a "{" that has no "{" before it and closes with a "}" that has no "}" after it |
| Cleanup.ExtractJson | app.py:19-27 | a text without "{" or without "}" yields `None`; any result is the parse of the brace span |
| Cleanup.CleanReply | app.py:311-313 | a reply without "{" or without "}" yields no payload, because neither rewrite adds a character |
| Questions.CompositeIdSplit | app.py:327 | the first "_" of the id `"{unique_id}_{idx}"` comes right after the digits of `unique_id` |
| Questions.CompositeIdInjective | app.py:327 | two records share an id only when they have the same batch stamp and the same position |
| Questions.NormalizeRecord | app.py:323-354 | the loop body raises (`None`) exactly on a 단답형 record whose answer is `null` or not a string, or whose explanation is `null` or not an object |
| Questions.NormalizeRecordShaped | app.py:323-354 | a record the body does not raise on gets number `"{unique_id}_{idx}"`, display number idx, the batch's topic and difficulty, keeps its question text, and has the shape its type needs. For 단답형: falsy options, `explanation.wrong` `{}`, and an answer missing or whose upper case is not A/B/C/D. Other types: truthy options. Options, explanation and related concepts are all present |
| Questions.NormalizeRecordKeepsPresent | app.py:330-354 | present values the body does not replace pass through: `null` related concepts, falsy 단답형 options (`null` included), and truthy options and any present explanation (`null` included) of the other types |
| Questions.NormalizeRecordTyped | app.py:323-354 | a record whose present fields have the expected JSON types never raises, and comes out with typed options, explanation and related concepts; 단답형 options become `{}` |
| Questions.NullExplanationKept | app.py:353-354 | a 객관식 record with `"explanation": null` keeps the `null` |
| Questions.NormalizeRecordIdempotent | app.py:323-354 | stamping a stamped record again with the same values changes nothing |
| Questions.NormalizeRecordAnswer | app.py:334-351 | only a 단답형 answer that upper-cases to A/B/C/D is replaced by "정답 생성 오류"; non-empty options of other types are kept |
| Questions.LowerCaseLetterReplaced | app.py:339-340 | a lower-case "b" is caught too |
| Questions.AnswerErrorIsNoLetter | app.py:339-340 | the replacement answer is not itself an option letter |
| Questions.NormalizeAll | app.py:323-354 | the loop raises exactly when its body raises on some record; otherwise the batch keeps its length |
| Questions.NormalizeAllWellFormed | app.py:323-354 | the loop never raises for types other than 단답형; when it does not raise, the batch is numbered 1..n without gaps, every record is well shaped, and record i is input record i stamped with position i+1 |
| Questions.NormalizeBatch | app.py:323-354 | the in-place loop fails exactly when the body raises on some record; otherwise the array holds each record stamped with its 1-based position |
| Questions.NormalizeOne | app.py:324-354 | the loop body fails exactly when `NormalizeRecord` raises, and otherwise turns one record into its stamped, shaped form |
| Questions.ShortErrorAnswerIsNoLetter | app.py:368 | the error batch's short answer "오류" is not an option letter |
| Questions.ErrorQuestion | app.py:363-377 | one record of the error batch at position i of n; `Questions.CreateErrorQuestionWellFormed` and `Questions.ShortErrorAnswerIsNoLetter` specify it |
| Questions.CreateErrorQuestion | app.py:359-380 | exactly `num_questions` records (none for a count below one), no two with the same id |
| Questions.CreateErrorQuestionWellFormed | app.py:359-380 | the error batch has exactly `num_questions` records (none for a count below one), numbered 1..n and well shaped, answered "오류" for 단답형 and "A" otherwise; stamping it again changes nothing |
| Questions.FinishBatch | app.py:311-356 | with no JSON in the cleaned reply, the result is the error batch; a payload without a `questions` key is returned unchanged; a `questions` value that is `null` or not a list raises; a list is normalised, and raises when the body raises on some record; any questions returned are well formed |
| Session.RemoveFirst | app.py:391 | `list.remove`: removes exactly one occurrence of a present key (the multiset loses one copy) and leaves a list without it unchanged |
| Session.RemoveFirstDistinct | app.py:391 | removing a key from a duplicate-free list keeps it duplicate-free and drops just that key |
| Session.ToggledBookmarks | app.py:390-395 | the bookmark list after a toggle; `Session.ToggleFlips`, `Session.ToggleTwice` and `Session.StudySession.ToggleBookmark` specify it |
| Session.ToggleFlips | app.py:385-398 | toggling flips the membership of the toggled key only and never creates a duplicate |
| Session.ToggleTwice | app.py:385-398 | bookmarking an unbookmarked question and toggling it again restores the list exactly |
| Session.RemoveFirstAppended | app.py:390-395 | removing a freshly appended key restores the list |
| Session.StampedAnswerable | app.py:323-427 | every record of a stamped batch whose question text is a string or `null` can be recorded, and is recorded with the batch's topic and difficulty |
| Session.KeySetIndex | app.py:413-419 | a key is recorded if and only if some history record carries it |
| Session.SetCorrect | app.py:415-418 | the re-answer loop keeps the history's length and every field except `correct`, and changes only records with that key to the new flag |
| Session.SetCorrectAt | app.py:415-418 | with the first record of the key at position i, the loop changes exactly record i's flag |
| Session.Answered | app.py:401-432 | the question's key is recorded afterwards and no other key is added; the history grows by one record for a new question and keeps its length otherwise |
| Session.AnsweredAgrees | app.py:401-432 | `record_answer` keeps one record per question, and `answered_questions` holds exactly the recorded keys with each record's flag |
| Session.ReanswerAgrees | app.py:413-420 | a re-answer keeps the history and its index in agreement |
| Session.SameKeysKeySet | app.py:413-420 | updating flags leaves the set of recorded keys unchanged |
| Session.FirstAnswerAgrees | app.py:422-432 | a first answer keeps the history and its index in agreement |
| Session.ReanswerOnlyUpdatesFlag | app.py:413-420 | re-answering changes only that record's `correct` flag; length, order and every other field are kept |
| Session.NewRecord | app.py:423-430 | the record appended for a first answer; `Session.FirstAnswerAppends` states its fields |
| Session.FirstAnswerAppends | app.py:422-431 | a first answer appends one record with the qid, key, flag and question data, and with the record's topic and difficulty when present, "" and "보통" when absent |
| Session.FacetsOfIndex | app.py:445-457 | the facet list lists each record's topic or difficulty, in order |
| Session.TallyOf | app.py:444-458 | a group's tally counts at most the history, with no more correct answers than answers |
| Session.TallyOfPositive | app.py:444-451 | a topic has answers if and only if some record carries it |
| Session.CorrectCount | app.py:441 | the correct count is at most the history length |
| Session.Percent | app.py:466 | `correct / total * 100`, or 0 without answers, as also at app.py:480; `Session.PercentBounds` and `Session.PercentThreshold` specify it |
| Session.PercentBounds | app.py:466 | the accuracy is between 0 and 100 |
| Session.PercentThreshold | app.py:480-481 | with at least one answer, the accuracy is under 60% exactly when five times the correct answers fall short of three times the total |
| Session.Statistics | app.py:435-469 | `None` exactly for an empty history; otherwise the total is the history length, the correct count is at most the total, and the accuracy is within 0..100; `Session.StatisticsConsistent` and `Session.LevelTalliesCover` give the rest |
| Session.TallySumCovers | app.py:444-458 | when every record's group is listed once, the group tallies add up to the whole history |
| Session.StatisticsTopics | app.py:444-451 | the topics in `topic_stats` order are distinct and are exactly the answered topics |
| Session.StatisticsConsistent | app.py:435-469 | total is the history length and correct is at most that; the accuracy is a percentage; every topic has at least one answer and no more correct than answers; the topic tallies add up to (total, correct) |
| Session.LevelTalliesCover | app.py:454-458 | with every difficulty one of the three levels, `diff_stats` has exactly the keys 쉬움/보통/어려움 and its tallies add up to (total, correct) |
| Session.WeakIn | app.py:477-486 | the weak topics in the topic dict's order, never more than the topics; `Session.WeakInMembers` and `Session.FilterWeak` specify it |
| Session.WeakInMembers | app.py:477-486 | the filter loop keeps exactly the topics with at least two answers and accuracy under 60, each with its own accuracy and total, none twice |
| Session.WeakTopicsUnfold | app.py:472-488 | for a non-empty history, the weak topics are the filtered `topic_stats` entries sorted by accuracy |
| Session.WeakTopics | app.py:472-488 | never more weak topics than answers; `Session.WeakTopicsMembers` and `Session.WeakTopicsOrdered` give the rest |
| Session.WeakTopicsMembers | app.py:472-488 | `get_weak_topics` lists exactly the weak topics of the history, each with its own accuracy and answer count |
| Session.WeakTopicsOrdered | app.py:488 | `get_weak_topics` lists no entry twice, in ascending accuracy |
| Session.Latest | app.py:500-505 | finds the newest record of a key; `None` exactly when no record has that key |
| Session.WrongScan | app.py:500-505 | the loop over the reversed history with a seen set; `Session.WrongScanCharacterized` specifies it |
| Session.WrongScanCharacterized | app.py:497-507 | the reversed scan with a `seen` set keeps, for each unseen non-empty key, the newest record exactly when it is wrong, and no key twice |
| Session.WrongQuestions | app.py:491-507 | every listed record is a wrongly answered record of the history, and no question is listed twice; `Session.WrongQuestionsCharacterized` states which records |
| Session.WrongQuestionsCharacterized | app.py:491-507 | `get_wrong_questions` returns a record if and only if it is the newest of its non-empty key and is wrong, and no question twice |
| Session.WrongQuestionsOfUniqueHistory | app.py:491-507 | with one record per question (what `record_answer` keeps), the wrong list is exactly the wrong records |
| Session.LatestUnique | app.py:500-505 | with one record per question, each record is the newest of its key |
| Session.TopicPassTallies | app.py:444-451 | the topic loop's dict holds each topic's tally |
| Session.TopicPassOrder | app.py:444-448 | the topic loop inserts topics in first-seen order |
| Session.LevelPass | app.py:454-458 | the difficulty loop's dict always has exactly the level keys it started with |
| Session.LevelPassStep | app.py:455-458 | one record bumps its level's tally |
| Session.LevelPassTallies | app.py:454-458 | the difficulty loop yields each level's tally |
| Session.TallyTopics | app.py:444-451 | the topic loop returns `topic_stats` with each topic's tally, keys in first-seen order |
| Session.TallyLevels | app.py:454-458 | the difficulty loop returns each level's tally |
| Session.FilterWeak | app.py:477-486 | the loop over `topic_stats.items()` builds the weak-topic candidates in key order |
| Session.StudySession.constructor | app.py:706-719 | the session starts with no bookmarks, no bookmark data, no history and no answers, and is valid |
| Session.StudySession.ToggleBookmark | app.py:385-398 | the bookmark key is removed with its data when present, and appended with the question data otherwise; the invariant is kept and the history is untouched |
| Session.StudySession.RecordAnswer | app.py:401-432 | for a record whose question text is a string or `null`: the history becomes `Answered` (a first answer is appended; a re-answer updates the flag of the first record with that key); `answered_questions[hash]` becomes the flag; the invariant is kept and the bookmarks are untouched |
| Session.StudySession.SetFirstCorrect | app.py:415-418 | the loop over the history sets the flag of the first record with the key, as `SetCorrect` says; nothing else in the session changes |
| Session.StudySession.GetStatistics | app.py:435-469 | returns `None` for an empty history; otherwise total, correct, accuracy, `topic_stats` in first-seen order and `diff_stats` over the three levels |
| Session.StudySession.GetWeakTopics | app.py:472-488 | returns the weak topics sorted by ascending accuracy, ties in topic order |
| Session.StudySession.GetWrongQuestions | app.py:491-507 | returns exactly what the newest-first scan with a `seen` set yields |
| Sorting.Insert | rag_app.py:74 | insertion ahead of the first element the new one may precede; `Sorting.InsertOrdered` states that it keeps a list ordered |
| Sorting.InsertOrdered | rag_app.py:74 | inserting into an ordered list keeps it ordered |
| Sorting.InsertPermutes | rag_app.py:74 | insertion adds exactly the new element |
| Sorting.SortBy | rag_app.py:74 | the stable sort used for `merged.sort` here and `sorted` at app.py:91 and app.py:488; `Sorting.SortByOrderedPermutation`, `Sorting.SortByStable`, `Sorting.SortByMembersDistinct` and `Sorting.SortByOrderedUnchanged` specify it |
| Sorting.SortByOrderedPermutation | app.py:91 | `sorted` gives an ordered permutation of its input |
| Sorting.SortByStable | rag_app.py:74 | elements with equal keys keep their input order |
| Sorting.SortByMembersDistinct | rag_app.py:74 | sorting keeps exactly the input's elements and keeps a duplicate-free list duplicate-free |
| Sorting.SortByOrderedUnchanged | app.py:488 | sorting an already-ordered list changes nothing |
| Strings.Strip | app.py:193 | `str.strip`; `Strings.StripTrims` and `Strings.DeleteSpaceIgnoresStrip` specify it |
| Strings.StripTrims | app.py:193 | strip keeps one contiguous slice of the text, cuts only whitespace from either end, and keeps a text that neither opens nor closes with whitespace |
| Strings.Lower | app.py:193 | `str.lower` on ASCII letters: same length, each character lower-cased |
| Strings.Upper | app.py:339 | `str.upper` on ASCII letters: same length, each character upper-cased |
| Strings.DeleteSpace | app.py:193 | `re.sub(r'\s+', '', …)`; `Strings.DeleteSpaceNoSpace` and `Strings.DeleteSpaceConcat` specify it |
| Strings.DeleteSpaceNoSpace | app.py:193 | the result has no whitespace, and a text without whitespace is unchanged |
| Strings.DeleteSpaceConcat | app.py:193 | deletion distributes over concatenation |
| Strings.Join | rag_app.py:82-86 | `sep.join(parts)`; `Strings.JoinStartsWithFirst` and `Strings.JoinAppend` specify it |
| Strings.JoinStartsWithFirst | rag_app.py:82-86 | a joined text opens with its first part |
| Strings.JoinAppend | rag_app.py:82-86 | joining one more part appends the separator and that part |
| Strings.LastSegment | rag_app.py:41 | `split("/")[-1]` is the suffix after the last "/", and contains no "/" |
| Strings.IndexOf | app.py:21 | `find` returns the first position of the character, or `None` (Python's -1) exactly when it is absent |
| Strings.LastIndexOf | app.py:22 | `rfind` returns the last position of the character, or `None` exactly when it is absent |
| Strings.NatToString | app.py:100 | `str(n)` is non-empty decimal digits without a leading zero |
| Strings.NatToStringRoundTrip | app.py:100 | reading `str(n)` back gives n |
| Strings.NatToStringInjective | app.py:327 | different numbers have different decimal strings |
| Strings.DeleteSpaceIgnoresStrip | app.py:193 | deleting whitespace after `strip` gives the same result as deleting it without |
| Strings.LowerIdempotent | app.py:193 | lower-casing twice is lower-casing once |
| Strings.IsSubstringIff | app.py:263 | Python's `a in b` holds exactly when a occurs in b at some position |
| Strings.DedupMembers | rag_app.py:53-61 | the key order of a dict filled from a list holds each element once, and only elements of the list |

## Left out

- The boto3 calls (`client.retrieve`, `bedrock_rt.converse`), the strands agents and the prompt texts are remote, fallible calls. `retrieve_from_kb` and `search_knowledge_base` are modelled from the returned result list onwards. Their `except` branch, which returns an error string, is not modelled.
- The Streamlit interface (rendering, pages, `st.rerun`, the chat flow) is left out. `st.session_state` is the `StudySession` object.
- The shared context cache (`SharedContext`) is a process-wide singleton. `SearchKnowledgeBase` returns the docs it would store there instead.
- `json.loads` is a parameter `parse` returning an `Option`. `None` stands for every exception that `extract_json` catches.
- `time.time()` is a parameter: the batch stamp `uniqueId`.
- Session.HistoryRecord: `hash(question_data["question"])` is modelled as the question text itself (`TextHash`), or `NoneHash` for a `null` question. Hash collisions between different values are not modelled. `hash("") == 0` is falsy, so `get_wrong_questions` skips such records; the model skips records whose key is `TextHash("")`.
- Strings.Lower and Strings.Upper: `str.lower`/`str.upper` are modelled on ASCII letters only, and `\d` matches ASCII digits only. Non-ASCII case mappings and digits are not modelled.
- Cleanup.MarkerAt: `re.IGNORECASE` is modelled for the ASCII letters I, i, D and d only. Under Python's Unicode case folding the pattern's I also matches "ı" (U+0131) and "İ" (U+0130); these are not modelled, so for example `normalize_references("[ıD: 3]") == "[3]"` in the code, while the model keeps that text.
- Scores and accuracies are exact `real`s. IEEE rounding is not modelled, nor is the `:.4f` display formatting.
- Sorting.SortBy: `sorted`/`list.sort` are library calls. They are modelled as a stable sort function, not as a loop.
- Session.StudySession.RecordAnswer: requires `Answerable`: the record's `"question"` holds a string or `null`, and its `"topic"` and `"difficulty"`, when present, hold strings. A missing `"question"` raises `KeyError`; other JSON values (numbers, lists, objects) are hashed or raise `TypeError` in the code and are not modelled.
- Session.StudySession.GetStatistics: requires every recorded difficulty to be 쉬움, 보통 or 어려움; `diff_stats[diff]` raises `KeyError` otherwise. `Statistics` is defined for every history.
- Session.StudySession.GetWeakTopics: inherits the same difficulty requirement through `get_statistics`.
- Questions.FinishBatch: a `questions` value that is neither a list nor `null` is modelled as raising. That holds for numbers, booleans, non-empty strings and non-empty objects, but the code iterates an empty string or an empty object without error and returns the payload unchanged. A parsed JSON value that is not an object (`js.get` raises) is not modelled.
- Questions.NormalizeRecord: the elements of a `questions` list are records; an element that is not an object (which raises on `q["difficulty"] = …`) is not modelled.
- The `render_question` interface, which passes the question number as `qid` to `toggle_bookmark` and `record_answer`, is not modelled. `qid` is any string.
