# Exam attempt engine, modelled in Dafny

This project models the core of a browser exam trainer (one paper of sections of
questions, taken against a countdown), covering six parts:

- **The attempt store** (`src/store/examStore.ts`). It flattens the paper into one
  question list and keeps one attempt state per question (answer, time spent,
  visited, marked for review). It moves between questions, commits the time spent
  on the question being viewed, and submits.
- **The evaluation engine** (`src/utils/evaluation.ts`). It grades each question by
  its answer variant and totals the exam with guarded ratios. It fans each
  question out to its topics, summarises every topic with a strength rating and a
  stable sort by question count, and formats answers and answer keys for display.
- **The time helpers** (`src/utils/timeUtils.ts`): the clock display, the timer
  colour and the average time per question.
- **The score history** (`src/components/History/TrendChart.tsx`): the summary
  statistics and the three-point moving average over the attempts in date order.
- **The result charts** (`src/components/Results/Charts.tsx`): the counts per time
  bucket and the ten topics of highest accuracy with their bar labels.
- **The option toggle** of the multiple-choice input
  (`src/components/ExamPlayer/MCQMultiInput.tsx`).

## Modules

- `JsNumber`: JavaScript `Math.round` on reals, decimal text of integers, and
  two facts about quotients.
- `StableSort`: a stable insertion sort by a real key, standing for
  `Array.prototype.sort`. It is proved to return a sorted permutation that keeps
  the input order of equal keys.
- `ExamTypes`: the records and tagged unions of `src/types/exam.ts` as
  datatypes.
- `ExamStore`:
  - `Flatten` and `FlattenQuestions`;
  - the pure map updates the store's actions perform;
  - the status decoding;
  - the class `Store`, with the seven store fields and one method per action.
- `Grading`: `evaluateQuestion`, written as `EvaluateQuestion`.
- `TopicReport`: `calculateTopicStats`. The imperative steps are the methods
  `CalculateTopicStats`, `AddQuestion` and `DeriveStats`. Each is proved equal to
  a recursive reference definition, and the counting identities are proved about
  that definition.
- `Evaluation`: `evaluateExam`. Its loop is the method `GradeQuestions`, proved
  against `Results`, `TotalScore`, `Count` and related functions, and the whole
  is proved equal to `Summary`.
- `AnswerFormat`: `formatUserAnswer` and `formatCorrectAnswer`, including
  `String.fromCharCode`, the code-unit sort and `join`.
- `TimeUtils`, `TrendChart`, `Charts` and `MultiChoiceInput`: the pure helpers
  described above.

`Date.now()` is an explicit millisecond parameter `now`; `goToQuestion` reads the
clock twice, once inside the time commit and once for the new anchor, and its
model takes both readings as the parameters `commitNow` and `viewNow`. An anchor of `0`
means that no question view is being timed. Marks, scores and numeric answers
are `real`. JavaScript's conversion of a number to text is a function parameter
`render`. Dates are integer timestamps.

## The code as written

The model follows the code as written, including these behaviours a reader might not expect:

- `startExam` has no status guard. It restarts a running or submitted attempt,
  and it keeps `currentQuestionIndex` while marking question 0 visited
  (`src/store/examStore.ts:118-135`).
- `setAnswer`, `clearAnswer` and `toggleMarkForReview` do not look at the status.
  They still change answers after submission (`src/store/examStore.ts:175-205`):
  nothing stops an attempt's answers from changing once it is submitted.
- `recordTimeSpent` does not reset `lastViewStart`, so two calls add the same span
  twice (`ExamStore.CommitTwiceCountsTwice`).
- `goToQuestion` ends the old view at one clock reading and starts the new one at a
  later reading, so the time between the two is credited to no question
  (`ExamStore.SplitViewsUndercount`).
- `loadExam` leaves `lastViewStart` as it was (`src/store/examStore.ts:99-115`).
- An empty multiple selection (what deselecting the last option leaves) behaves
  three ways (`MultiChoiceInput.EmptySelection`):
  - it counts as answered;
  - it is displayed as "Not Attempted";
  - it is graded as an attempt, earning the incorrect marks unless the key is
    empty as well.
- A topic listed twice by one question is counted twice for that topic
  (`TopicReport.FoldRepeatStep`).
- When two questions share an id, the evaluation map keeps the last one
  (`Evaluation.EvaluationMapLastWins`), so every copy enters the topic report with
  the last copy's result (`Evaluation.SummaryTopicLastCopy`).
- An empty multiple-choice key, and an empty list of accepted ranges, are
  displayed as the empty text (`AnswerFormat.EmptyKeyText`).

## Model

| member | source | states |
|---|---|---|
| ExamTypes.CorrectAnswerPerType | src/types/exam.ts:6-12 | every question type has a correct-answer variant, and two keys of the same type are the same variant |
| ExamTypes.UserAnswerKinds | src/types/exam.ts:57-61 | an answer's type tag is absent exactly for `none`, and otherwise names its own variant |
| ExamTypes.BlankForms | src/types/exam.ts:58-60 | a null single-choice selection and a null numeric value are typed answers distinct from `none` |
| ExamTypes.StatusEnumerations | src/types/exam.ts:73-78 | a question status is one of five values, an exam status one of three, a strength one of three |
| ExamStore.SectionEntries | src/store/examStore.ts:18-26 | one entry per question of a section, in order, carrying the section's id and title and consecutive global indices |
| ExamStore.Flatten | src/store/examStore.ts:13-30 | one entry per question of the paper, the entry at position i having global index i |
| ExamStore.FlattenAt | src/store/examStore.ts:17-27 | question j of section k sits at the position counting all questions of the earlier sections plus j |
| ExamStore.FlattenQuestions | src/store/examStore.ts:13-30 | the nested loop with its running global index produces exactly `Flatten` |
| ExamStore.QuestionIdsMembers | src/store/examStore.ts:101-104 | an id is a key of the state map exactly when some listed question has it |
| ExamStore.InitialQuestionState | src/store/examStore.ts:78-84 | defined as the state with answer none, time 0, unmarked and unvisited; properties in `ExamStore.InitialStates` and `ExamStore.Store.LoadExam` |
| ExamStore.InitialStates | src/store/examStore.ts:101-104 | the state map has exactly the question ids as keys, each with the initial state: answer none, time 0, unvisited, unmarked |
| ExamStore.MarkVisitedEffect | src/store/examStore.ts:123-128 | only the named state changes, to visited; keys, keying by id and other states are kept; an unknown id changes nothing |
| ExamStore.AddTimeEffect | src/store/examStore.ts:224-227 | only the named state changes, its time growing by the delta; keys, keying by id and other states are kept |
| ExamStore.UpdateAnswerEffect | src/store/examStore.ts:175-194 | only the named state changes, to the given answer; keys, keying by id and other states are kept; an unknown id changes nothing |
| ExamStore.FlipMarkEffect | src/store/examStore.ts:197-205 | only the named state changes, its review flag negated; keys, keying by id and other states are kept |
| ExamStore.FlipMarkTwice | src/store/examStore.ts:197-205 | toggling the review flag twice restores the state map |
| ExamStore.ElapsedSeconds | src/store/examStore.ts:225 | the whole seconds elapsed, rounded down: `1000*r <= now - anchor < 1000*(r+1)` |
| ExamStore.CommitTime | src/store/examStore.ts:218-230 | defined as the state map after `recordTimeSpent`; properties in `ExamStore.CommitTimeEffect`, `ExamStore.CommitTwiceCountsTwice` and `ExamStore.CommitTimeMonotone` |
| ExamStore.CommitTimeEffect | src/store/examStore.ts:218-230 | nothing changes without questions or with an anchor of at most 0; otherwise only the current question's time grows by the elapsed seconds; keys and keying by id are kept |
| ExamStore.CommitTwiceCountsTwice | src/store/examStore.ts:218-230 | since the anchor is not reset, committing twice adds the elapsed seconds twice |
| ExamStore.SplitViewsUndercount | src/store/examStore.ts:138-158 | a view ended at one clock reading and the next started at a later one are credited no more whole seconds than the whole span |
| ExamStore.CommitTimeMonotone | src/store/examStore.ts:218-230 | with `now` at or after the anchor, no recorded time decreases |
| ExamStore.AnsweredAdd | src/store/examStore.ts:268-275 | looking at one more state adds one to the answered count exactly when that state is answered |
| ExamStore.MarkedAdd | src/store/examStore.ts:277-284 | looking at one more state adds one to the marked count exactly when that state is marked |
| ExamStore.StatusOf | src/store/examStore.ts:244-257 | defined as the five-way status table of `getQuestionStatus`; properties in `ExamStore.StatusDecodes` |
| ExamStore.StatusDecodes | src/store/examStore.ts:244-257 | the status is answered or answered-and-marked iff answered, marked or answered-and-marked iff marked, not-visited or not-answered by the visited flag otherwise |
| ExamStore.Store.constructor | src/store/examStore.ts:89-96 | the initial store: no paper, no questions, not started, index 0, empty states, no time, no anchor |
| ExamStore.Store.LoadExam | src/store/examStore.ts:99-115 | the paper and its flattened questions, initial states for exactly their ids, remaining time = duration in minutes × 60, not started, index 0, anchor untouched |
| ExamStore.Store.StartExam | src/store/examStore.ts:118-135 | no change without questions; otherwise question 0 is marked visited, the status becomes in progress and the anchor `now`, whatever the old status, with the index kept |
| ExamStore.Store.RecordTimeSpent | src/store/examStore.ts:218-230 | the states become `CommitTime` of the old state; every other field, the anchor included, is unchanged |
| ExamStore.Store.GoToQuestion | src/store/examStore.ts:138-158 | no change unless the index is in range and the exam is in progress; otherwise it commits the time up to the first clock reading `commitNow` to the old question, marks the new one visited, moves the index there and sets the anchor to the second reading `viewNow` |
| ExamStore.Store.NextQuestion | src/store/examStore.ts:160-165 | moves to the following question as `GoToQuestion` does, and is a no-op at the last question or when not in progress |
| ExamStore.Store.PreviousQuestion | src/store/examStore.ts:167-172 | moves to the preceding question as `GoToQuestion` does, and is a no-op at the first question or when not in progress |
| ExamStore.Store.SetAnswer | src/store/examStore.ts:175-183 | only the named question's answer changes, in any status |
| ExamStore.Store.ClearAnswer | src/store/examStore.ts:186-194 | only the named question's answer changes, to none, in any status |
| ExamStore.Store.ToggleMarkForReview | src/store/examStore.ts:197-205 | only the named question's review flag flips, in any status |
| ExamStore.Store.SubmitExam | src/store/examStore.ts:233-241 | no change unless in progress; otherwise the time is committed and the status becomes submitted |
| ExamStore.Store.UpdateRemainingTime | src/store/examStore.ts:208-215 | stores `max(0, s)`; at `s <= 0` from in progress the exam ends submitted with the time committed; otherwise nothing else changes |
| ExamStore.Store.ResetExam | src/store/examStore.ts:287-297 | every field returns to its initial value |
| ExamStore.Store.GetQuestionState | src/store/examStore.ts:259-261 | a state exactly for known ids, and it is the stored one |
| ExamStore.Store.GetQuestionStatus | src/store/examStore.ts:244-257 | an unknown id is not visited; a known one is decoded by the status table |
| ExamStore.Store.GetCurrentQuestion | src/store/examStore.ts:263-266 | a question exactly when there are questions, namely the one at the current index, whose global index is that index |
| ExamStore.Store.GetTotalAnswered | src/store/examStore.ts:268-275 | the number of states whose answer is not none, at most the number of states |
| ExamStore.Store.GetTotalMarkedForReview | src/store/examStore.ts:277-284 | the number of states marked for review, at most the number of states |
| Grading.EvaluateQuestion | src/utils/evaluation.ts:16-79 | none earns the unattempted marks; a variant other than the key's earns the incorrect marks; any other answer earns the correct marks if it matches and the incorrect ones if not; only a matching variant can be correct |
| Grading.SingleChoiceRule | src/utils/evaluation.ts:41-45 | a single choice is correct iff the selection equals the key's index; a null selection is an attempted wrong answer |
| Grading.SameSelectionIff | src/utils/evaluation.ts:47-56 | equal sizes of the deduplicated sets plus every key element selected is the same as equal sets |
| Grading.MultiChoiceRule | src/utils/evaluation.ts:47-56 | a multiple choice is correct iff the set of selected indices equals the set of key indices |
| Grading.MultiNoPartialCredit | src/utils/evaluation.ts:47-56 | a proper subset or a proper superset of the key earns the incorrect marks |
| Grading.MultiIgnoresDuplicates | src/utils/evaluation.ts:50-51 | two selections with the same set of indices grade the same |
| Grading.NatRule | src/utils/evaluation.ts:59-70 | a numeric answer is correct iff it is present and within some accepted range; a null value earns the incorrect marks |
| Grading.NatBoundsInclusive | src/utils/evaluation.ts:64-67 | both ends of an accepted range are correct answers |
| Grading.NatOutsideRanges | src/utils/evaluation.ts:64-67 | a value outside every accepted range earns the incorrect marks |
| Grading.MismatchIsWrong | src/utils/evaluation.ts:31-36 | an answer whose variant is not the key's is wrong and earns the incorrect marks |
| Grading.NatExample | src/utils/evaluation.ts:59-70 | with accepted range 4.98 to 5.02, both ends are right and 4.979 and 5.021 are wrong |
| Evaluation.ResultFor | src/utils/evaluation.ts:187-204 | the result carries the question's id, key and topics; a missing state gives answer none and time 0; the grade is `EvaluateQuestion` of the answer |
| Evaluation.Results | src/utils/evaluation.ts:186-205 | one result per question, in question order |
| Evaluation.CountsAddUp | src/utils/evaluation.ts:211-217 | correct + incorrect + unattempted = number of results |
| Evaluation.EvaluationMap | src/utils/evaluation.ts:205 | the map's keys are exactly the question ids |
| Evaluation.EvaluationMapLastWins | src/utils/evaluation.ts:205 | an id maps to the result of the last question bearing it |
| Evaluation.EvaluationMapDistinct | src/utils/evaluation.ts:205 | with distinct ids, every question's id maps to its own result |
| Evaluation.Summary | src/utils/evaluation.ts:170-248 | defined as the `ExamResult` of `evaluateExam`; properties in `Evaluation.SummaryTotals`, `Evaluation.SummaryResults`, `Evaluation.SummaryTopicMembership`, `Evaluation.SummaryTopicLastCopy`, `Evaluation.SummaryTopicInput` and `Evaluation.ThreeQuestionScenario` |
| Evaluation.SummaryTotals | src/utils/evaluation.ts:207-247 | total score is the sum of marks obtained, max score the sum of correct marks, the counts add up to the question count, attempted = correct + incorrect, the percentage is 0 unless max score > 0, accuracy 0 without attempts and within [0, 100] otherwise, the average time is the rounded mean or 0 |
| Evaluation.SummaryResults | src/utils/evaluation.ts:228-247 | the summary carries the paper's id and label, the allowed time = duration × 60, the results in order, and the topic report of the evaluation map |
| Evaluation.SummaryTopicMembership | src/utils/evaluation.ts:92-94 | for every paper, a question enters the topic report iff it has a state |
| Evaluation.SummaryTopicLastCopy | src/utils/evaluation.ts:92-94 | for every paper, a question with a state enters the topic report with the result of the last question bearing its id |
| Evaluation.SummaryTopicInput | src/utils/evaluation.ts:92-94 | when ids are distinct, a question enters the topic report iff it has a state, and then with its own result |
| Evaluation.ThreeQuestionScenario | src/utils/evaluation.ts:170-248 | one right (+2), one wrong (−1) and one blank question on a paper worth 5 give score 1, percentage 20, one of each count, 2 attempted and accuracy 50 |
| Evaluation.GradeQuestions | src/utils/evaluation.ts:186-218 | the grading loop's results, map, sums and counters equal their reference definitions |
| Evaluation.EvaluateExam | src/utils/evaluation.ts:170-248 | the returned record is `Summary` of the inputs, whose properties are the lemmas above |
| Evaluation.AssembleIs | src/utils/evaluation.ts:228-247 | the record built from the loop's totals is `Assemble` of the results |
| TopicReport.FoldCounts | src/utils/evaluation.ts:113-130 | after a run of contributions each topic counter has grown by its count or sum over the run, the derived fields untouched |
| TopicReport.FoldAppend | src/utils/evaluation.ts:91-132 | tallying two runs in turn is tallying their concatenation |
| TopicReport.CountsPartition | src/utils/evaluation.ts:119-129 | every contribution is exactly one of blank, right or wrong |
| TopicReport.FoldConsistent | src/utils/evaluation.ts:113-130 | total = attempted + unattempted and attempted = correct + incorrect hold after any run |
| TopicReport.FoldRepeatStep | src/utils/evaluation.ts:96 | each further listing of a topic by one question tallies that question once more |
| TopicReport.AppendNewShape | src/utils/evaluation.ts:97-112 | a topic is recorded iff it was or is listed, each once, the old order kept as a prefix |
| TopicReport.AppendNewAppend | src/utils/evaluation.ts:97-112 | recording topics in two runs is recording them in one |
| TopicReport.TallyTopicsWellFormed | src/utils/evaluation.ts:96-112 | the table stays well formed and its order gains the new topics in first-seen order |
| TopicReport.TallyTopicsAt | src/utils/evaluation.ts:96-131 | a topic has a record iff it had one or is listed, and its record grows by the question once per listing |
| TopicReport.TallyQuestions | src/utils/evaluation.ts:91-132 | the table is well formed and lists the topics of the counted questions in first-seen order |
| TopicReport.TallyQuestionsAt | src/utils/evaluation.ts:91-132 | a topic has a record iff it has contributions, and the record is the fresh record tallied over exactly those |
| TopicReport.ListedTopicsSeen | src/utils/evaluation.ts:94-97 | every topic of a counted question is in the table |
| TopicReport.RatioBounds | src/utils/evaluation.ts:141 | a ratio of counts times 100 lies in [0, 100]; it is ≥ 80 iff 5·correct ≥ 4·attempted and < 50 iff 2·correct < attempted |
| TopicReport.Finalize | src/utils/evaluation.ts:138-161 | defined as the derivation of accuracy, average time and strength for one topic; properties in `TopicReport.FinalizeKeeps`, `TopicReport.FinalizeAccuracy`, `TopicReport.FinalizeAverage` and `TopicReport.FinalizeStrength` |
| TopicReport.FinalizeKeeps | src/utils/evaluation.ts:138-161 | deriving the fields keeps every counter |
| TopicReport.FinalizeAccuracy | src/utils/evaluation.ts:140-142 | accuracy stays 0 without attempts and lies in [0, 100] |
| TopicReport.FinalizeAverage | src/utils/evaluation.ts:145-147 | the average time is the rounded mean, or stays 0 without questions |
| TopicReport.FinalizeStrength | src/utils/evaluation.ts:150-158 | fewer than 2 attempts is moderate; otherwise strong iff accuracy ≥ 80 and weak iff accuracy < 50 |
| TopicReport.Finalized | src/utils/evaluation.ts:138-161 | one derived record per table entry, in table order |
| TopicReport.FinalizedOrder | src/utils/evaluation.ts:136-161 | the derived list holds the topics in first-seen order |
| TopicReport.TableEntry | src/utils/evaluation.ts:91-161 | the i-th derived record is its topic's fresh record tallied over its contributions and derived |
| TopicReport.Report | src/utils/evaluation.ts:84-165 | defined as the derived topic records sorted by question count; properties in `TopicReport.ReportSorted`, `TopicReport.ReportTiesFirstSeen`, `TopicReport.ReportEntry` and `TopicReport.ReportCovers` |
| TopicReport.ReportSorted | src/utils/evaluation.ts:164 | the report is non-increasing by question count |
| TopicReport.ReportTiesFirstSeen | src/utils/evaluation.ts:164 | topics with equal question counts keep their first-seen order |
| TopicReport.ReportEntry | src/utils/evaluation.ts:84-165 | every reported topic has contributions and is its fresh record tallied over exactly those and derived |
| TopicReport.EntryOf | src/utils/evaluation.ts:113-161 | such a record keeps its topic, satisfies the counting identities with accuracy in [0, 100], counts its contributions and sums the marks of attempted ones |
| TopicReport.ReportCovers | src/utils/evaluation.ts:91-132 | every topic of a counted question is reported |
| TopicReport.CalculateTopicStats | src/utils/evaluation.ts:84-165 | the loop over questions and topics, the derivation and the sort return `Report` |
| TopicReport.AddQuestion | src/utils/evaluation.ts:96-131 | adding one question to the table is `TallyTopics` over its topics |
| TopicReport.DeriveStats | src/utils/evaluation.ts:136-161 | the derivation loop returns `Finalized` of the table |
| AnswerFormat.CodeUnit | src/utils/evaluation.ts:264 | `65 + idx` is taken modulo 2^16, as `String.fromCharCode` does |
| AnswerFormat.LettersAToZ | src/utils/evaluation.ts:264 | indices 0 to 25 are the letters A to Z |
| AnswerFormat.SortedUnits | src/utils/evaluation.ts:268-272 | the letters' code units, as a permutation in ascending order |
| AnswerFormat.JoinSingles | src/utils/evaluation.ts:271 | joining one-letter texts with ", " gives 3k − 2 characters, letter i at position 3i, ", " between them |
| AnswerFormat.LetterListShape | src/utils/evaluation.ts:268-272 | the letter list is the sorted letters separated by ", " |
| AnswerFormat.SortedUnique | src/utils/evaluation.ts:270 | two ascending permutations of each other are equal |
| AnswerFormat.UnitsPermutation | src/utils/evaluation.ts:269 | permuting indices permutes their code units |
| AnswerFormat.LetterListOrderFree | src/utils/evaluation.ts:268-272 | the letter list does not depend on the order of selection |
| AnswerFormat.LetterListSorts | src/utils/evaluation.ts:268-272 | for letters a < c of the alphabet, the selection c, a, c displays as a, c, c, joined by ", " |
| AnswerFormat.LetterListExample | src/utils/evaluation.ts:268-272 | the selection [2, 0, 2] displays as "A, C, C" |
| AnswerFormat.FormatUserAnswer | src/utils/evaluation.ts:253-280 | defined as the display text of an answer; properties in `AnswerFormat.NotAttemptedIff`, `AnswerFormat.LetterListShape` and `AnswerFormat.RightAnswerShownAsKey` |
| AnswerFormat.FormatCorrectAnswer | src/utils/evaluation.ts:285-308 | defined as the display text of an answer key; properties in `AnswerFormat.EmptyKeyText`, `AnswerFormat.RangesText` and `AnswerFormat.RightAnswerShownAsKey` |
| AnswerFormat.NotAttemptedIff | src/utils/evaluation.ts:253-280 | "Not Attempted" is shown iff the answer is none, a null single choice, an empty multiple choice, a null value, or a value rendered as that text |
| AnswerFormat.RightAnswerShownAsKey | src/utils/evaluation.ts:253-308 | a right single or non-empty multiple choice answer is displayed as its key is |
| AnswerFormat.EmptyKeyText | src/utils/evaluation.ts:293-303 | an empty multiple-choice key and an empty range list display as "" |
| AnswerFormat.RangesText | src/utils/evaluation.ts:298-302 | one range displays as its own text; a point range as its one value, joined by " or " |
| TimeUtils.JsRem | src/utils/timeUtils.ts:6-7 | JavaScript `%`: Euclidean on non-negative operands, magnitude below the divisor |
| TimeUtils.ClockRecomposes | src/utils/timeUtils.ts:5-7 | for s ≥ 0, hours·3600 + minutes·60 + seconds = s with minutes and seconds in [0, 60) |
| TimeUtils.WithinHour | src/utils/timeUtils.ts:6-14 | the minutes and seconds fields hold the time within the hour, which is all of it under an hour |
| TimeUtils.PadShape | src/utils/timeUtils.ts:9 | left-padded with zeros to at least two characters, the text itself kept whole at the end |
| TimeUtils.PadTwoDigits | src/utils/timeUtils.ts:9 | a field below 100 pads to exactly two digits that read back as the field |
| TimeUtils.PadNumberValue | src/utils/timeUtils.ts:9 | a padded field is a numeral whose value is the number |
| TimeUtils.FormatTime | src/utils/timeUtils.ts:4-15 | defined as `formatTime`; properties in `TimeUtils.FormatTimeRoundTrip` and `TimeUtils.ClockTextReads` |
| TimeUtils.FormatTimeRoundTrip | src/utils/timeUtils.ts:4-15 | for s ≥ 0 the displayed fields read back as s when hours may be shown, and as s without its whole hours otherwise |
| TimeUtils.ClockTextReads | src/utils/timeUtils.ts:11-14 | fields in range read back as h·3600 + m·60 + s when hours are shown and positive, as m·60 + s otherwise |
| TimeUtils.ShortFormReads | src/utils/timeUtils.ts:14 | MM:SS with m, s < 60 reads back as m·60 + s |
| TimeUtils.LongFormReads | src/utils/timeUtils.ts:12 | HH:MM:SS with m, s < 60 reads back as h·3600 + m·60 + s |
| TimeUtils.GetTimerClass | src/utils/timeUtils.ts:20-26 | defined as `getTimerClass`, with the zero total made explicit; properties in `TimeUtils.TimerThresholds`, `TimeUtils.TimerZeroTotal` and `TimeUtils.TimerSeverityMonotone` |
| TimeUtils.TimerZeroTotal | src/utils/timeUtils.ts:20-26 | with a total of 0 the level is danger iff the remaining time is negative, and never warning |
| TimeUtils.TimerThresholds | src/utils/timeUtils.ts:20-26 | danger iff remaining/total ≤ 0.05, warning iff in (0.05, 0.15], normal iff above 0.15 |
| TimeUtils.TimerSeverityMonotone | src/utils/timeUtils.ts:20-26 | less remaining time never lowers the severity |
| TimeUtils.CalculateAvgTimePerQuestion | src/utils/timeUtils.ts:31-37 | 0 for a count of 0, otherwise within half a second of total/count |
| TimeUtils.AvgExact | src/utils/timeUtils.ts:35-36 | an exact multiple averages to its factor |
| TimeUtils.AvgNonNegative | src/utils/timeUtils.ts:35-36 | a non-negative total averages to a non-negative value |
| JsNumber.Round | src/utils/timeUtils.ts:36 | `Math.round`: the integer within (x − 0.5, x + 0.5] |
| JsNumber.NatToStringShape | src/components/History/TrendChart.tsx:43 | the decimal text of n is a non-empty digit string without a leading zero |
| JsNumber.NatToStringRoundTrip | src/components/History/TrendChart.tsx:43 | the decimal text of n reads back as n |
| StableSort.SortBy | src/utils/evaluation.ts:164 | the sort returns a permutation of its input sorted by the key |
| StableSort.SortByStable | src/utils/evaluation.ts:164 | elements with equal keys keep their input order |
| StableSort.SortedMember | src/utils/evaluation.ts:164 | an element is in the sorted list iff it is in the input |
| StableSort.FirstIsLeast | src/components/History/TrendChart.tsx:152-154 | the first sorted element has the least key |
| StableSort.LastIsGreatest | src/components/History/TrendChart.tsx:152-154 | the last sorted element has the greatest key |
| TrendChart.Chronological | src/components/History/TrendChart.tsx:38-40 | the attempts as a permutation in ascending date order |
| TrendChart.Scores | src/components/History/TrendChart.tsx:44 | one score per attempt, in order |
| TrendChart.MaxOf | src/components/History/TrendChart.tsx:165 | `Math.max`: a member bounding every element from above |
| TrendChart.MinOf | src/components/History/TrendChart.tsx:166 | `Math.min`: a member bounding every element from below |
| TrendChart.MeanBounds | src/components/History/TrendChart.tsx:49-50 | a mean of values in [lo, hi] lies in [lo, hi] |
| TrendChart.Window | src/components/History/TrendChart.tsx:48-49 | the slice holds one to three scores |
| TrendChart.MovingAverage | src/components/History/TrendChart.tsx:47-51 | defined as the mean of each window; properties in `TrendChart.MovingAverageShape` and `TrendChart.MovingAverageBounds` |
| TrendChart.MovingAverageShape | src/components/History/TrendChart.tsx:47-51 | one average per score: the first score, the mean of the first two, and from the third on the mean of the last three |
| TrendChart.MovingAverageBounds | src/components/History/TrendChart.tsx:47-51 | each average lies between the least and the greatest score of its window |
| TrendChart.Improvement | src/components/History/TrendChart.tsx:156-168 | defined as the rounded relative change, 0 for a first score of 0; properties in `TrendChart.ImprovementSign` and `TrendChart.ImprovementExamples` |
| TrendChart.ImprovementSign | src/components/History/TrendChart.tsx:156-158 | 0 when the first score is 0; otherwise non-negative for a rise and non-positive for a fall |
| TrendChart.ImprovementExamples | src/components/History/TrendChart.tsx:156-168 | doubling a score is +100 and halving it −50 |
| TrendChart.CalculateStats | src/components/History/TrendChart.tsx:139-169 | defined as `calculateStats`; properties in `TrendChart.StatsEmpty`, `TrendChart.StatsBounds`, `TrendChart.StatsImprovement` and `TrendChart.StatsImprovementSign` |
| TrendChart.StatsEmpty | src/components/History/TrendChart.tsx:140-149 | no attempts give all zeros |
| TrendChart.StatsBounds | src/components/History/TrendChart.tsx:151-169 | both counts are the number of attempts; best and worst are scores of attempts bounding all scores; worst ≤ average ≤ best |
| TrendChart.StatsImprovement | src/components/History/TrendChart.tsx:152-168 | the improvement compares an earliest-dated attempt with a latest-dated one |
| TrendChart.StatsImprovementSign | src/components/History/TrendChart.tsx:152-168 | a rise from the earliest to the latest score never reports a negative improvement |
| TrendChart.Labels | src/components/History/TrendChart.tsx:43 | one label per attempt |
| TrendChart.LabelsDistinct | src/components/History/TrendChart.tsx:43 | label i is "#" and the digits of i + 1, and the labels are distinct |
| Charts.BucketUnique | src/components/Results/Charts.tsx:149-156 | the six ranges are half-open and contiguous: a non-negative time is in exactly one, a negative time in none |
| Charts.CountIn | src/components/Results/Charts.tsx:158-163 | defined as the filter count of one range and colour; properties in `Charts.BarTotalCountsTimed`, `Charts.BucketsAddUp` and `Charts.BucketsOfOne` |
| Charts.BucketCounts | src/components/Results/Charts.tsx:158-163 | one count per range |
| Charts.BarTotalCountsTimed | src/components/Results/Charts.tsx:158-163 | the twelve counts together count each question with time ≥ 0 once |
| Charts.BucketsAddUp | src/components/Results/Charts.tsx:158-163 | Σ correct counts + Σ incorrect counts = the number of questions with time ≥ 0 |
| Charts.BucketsOfOne | src/components/Results/Charts.tsx:158-163 | one question is counted only in the bars of its own colour whose range holds its time |
| Charts.BucketExample | src/components/Results/Charts.tsx:149-163 | a correct 45-second answer is counted in "30-60s" of the correct bars only |
| Charts.WithQuestions | src/components/Results/Charts.tsx:82 | exactly the topics with questions, drawn from the input |
| Charts.TopTopics | src/components/Results/Charts.tsx:80-84 | defined as filter, sort by accuracy and `slice(0, 10)`; properties in `Charts.TopTopicsRule` |
| Charts.TopTopicsPrefix | src/components/Results/Charts.tsx:80-84 | the shown topics are at most ten, a prefix of the sorted topics with questions, all of them when there are at most ten |
| Charts.TopTopicsMembers | src/components/Results/Charts.tsx:80-84 | each shown topic has questions and comes from the input |
| Charts.ByAccuracyOrdered | src/components/Results/Charts.tsx:81-83 | the sorted topics go by non-increasing accuracy |
| Charts.TopTopicsRule | src/components/Results/Charts.tsx:80-84 | at most ten topics with questions from the input, non-increasing in accuracy, a prefix of the sorted list, none left out more accurate than one shown, all shown when at most ten |
| Charts.BarLabel | src/components/Results/Charts.tsx:87-89 | defined as the shortened bar label; properties in `Charts.BarLabelRule` |
| Charts.BarLabelRule | src/components/Results/Charts.tsx:87-89 | a name of at most 20 characters is kept; a longer one becomes its first 18 plus "..." |
| Charts.TopicLabels | src/components/Results/Charts.tsx:87-89 | one label per shown topic, at most ten |
| MultiChoiceInput.Without | src/components/ExamPlayer/MCQMultiInput.tsx:10 | the index is gone, every other element keeps its membership |
| MultiChoiceInput.WithoutCounts | src/components/ExamPlayer/MCQMultiInput.tsx:10 | every copy of the index is dropped and the other elements keep their multiplicities |
| MultiChoiceInput.WithoutAppend | src/components/ExamPlayer/MCQMultiInput.tsx:10 | the filter goes element by element, keeping the order of the rest |
| MultiChoiceInput.WithoutAbsent | src/components/ExamPlayer/MCQMultiInput.tsx:10 | filtering out an absent index changes nothing |
| MultiChoiceInput.Toggle | src/components/ExamPlayer/MCQMultiInput.tsx:8-14 | defined as `handleToggle`'s new selection; properties in `MultiChoiceInput.ToggleRule`, `MultiChoiceInput.ToggleMembership`, `MultiChoiceInput.ToggleTwice` and `MultiChoiceInput.ToggleSelectedTwice` |
| MultiChoiceInput.ToggleRule | src/components/ExamPlayer/MCQMultiInput.tsx:8-14 | a present index is removed with every copy, others keep their counts; an absent one is appended at the end |
| MultiChoiceInput.ToggleMembership | src/components/ExamPlayer/MCQMultiInput.tsx:8-14 | only the toggled index changes membership |
| MultiChoiceInput.ToggleTwice | src/components/ExamPlayer/MCQMultiInput.tsx:8-14 | toggling an absent index twice restores the list |
| MultiChoiceInput.ToggleSelectedTwice | src/components/ExamPlayer/MCQMultiInput.tsx:8-14 | toggling a present index twice moves it, once, to the end |
| MultiChoiceInput.DeselectLast | src/components/ExamPlayer/MCQMultiInput.tsx:9-10 | deselecting the only selected option leaves the empty list |
| MultiChoiceInput.EmptySelection | src/store/examStore.ts:268-275 | the empty selection counts as answered, is shown as "Not Attempted", and is graded as an attempt: right only for an empty key, else the incorrect marks |

## Left out

- The `persist` block (`src/store/examStore.ts:299-328`) is left out: it is storage I/O and JSON serialisation.
- React rendering, the pages, the Chart.js configuration objects and the chart height `Math.max(200, n * 35)` are left out: they are presentation only.
- Browser timers, autosave and the fullscreen and visibility listeners are left out: they are events. A tick is a plain call to `UpdateRemainingTime`.
- The server, the API client and the authentication store are not part of this model.
- The `parseFloat` of the numeric input is left out: a numeric answer is a `real`.
- JavaScript's conversion of a number to text (`String(value)`, `${r.min}`) is the parameter `render`, so the digits it prints are not modelled.
- `Date` parsing is left out: dates are integer timestamps.
- Floating point is not modelled: marks, scores, ratios and means are exact reals, so the rounding of sums such as `totalScore` is not captured.
- The `'Unknown'` default branches of both formatters are left out: typed answers and keys cannot reach them.
- AnswerFormat.CodeUnit: a code unit in the surrogate range (an option index from 55231 to 57278) is displayed as U+FFFD, because a Dafny `char` cannot hold a lone surrogate. The sort still orders by code unit.
- Charts.BarLabelRule: name lengths count Unicode scalar values, not UTF-16 code units.
- `NaN` is not modelled. That covers the `|| 0` fallbacks and `Math.max`/`Math.min` of an empty list, which the source guards against. (`getTimerClass` with a total of 0 is modelled: the infinite or `NaN` quotient gives danger exactly for a negative remaining time, `TimeUtils.TimerZeroTotal`.)
- The in-place Map updates of the store and of the topic table are modelled as map values the methods reassign, so aliasing between the store's Map and a caller's copy is not captured.
- Charts.TopTopics and TrendChart.Chronological sort copies in the source; as values, the input is trivially unchanged, and no separate property is stated.
- The sort comparators are modelled as a stable sort by a real key: by negated accuracy, by negated question count and by date. This is the same order as the comparators `b - a` and `a - b` for the values compared.
