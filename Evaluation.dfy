/** `evaluateExam`: one result per question, the exam-wide totals and the topic report. */
module Evaluation {
  import opened ExamTypes
  import ExamStore
  import Grading
  import TopicReport
  import TimeUtils
  import JsNumber

  /** `state?.answer || { type: 'none' }`: a question without a state counts as unanswered. */
  function AnswerOf(states: ExamStore.States, id: string): UserAnswer {
    if id in states then states[id].answer else AnswerNone
  }

  /** `state?.timeSpentSeconds || 0`. */
  function TimeSpentOf(states: ExamStore.States, id: string): int {
    if id in states then states[id].timeSpentSeconds else 0
  }

  /** The result record of one question. */
  function ResultFor(q: FlattenedQuestion, states: ExamStore.States): (r: QuestionEvaluationResult)
    ensures r.questionId == q.question.questionId
    ensures r.correctAnswer == q.question.correctAnswer && r.topics == q.question.topics
    ensures q.question.questionId !in states ==>
              && r.userAnswer == AnswerNone && r.timeSpentSeconds == 0
              && !r.isCorrect && r.marksObtained == q.question.marksScheme.marksUnattempted
    ensures Grading.Grade(r.isCorrect, r.marksObtained) == Grading.EvaluateQuestion(q.question, r.userAnswer)
  {
    var id := q.question.questionId;
    var answer := AnswerOf(states, id);
    var grade := Grading.EvaluateQuestion(q.question, answer);
    QuestionEvaluationResult(id, grade.isCorrect, grade.marksObtained, answer, q.question.correctAnswer,
                             TimeSpentOf(states, id), q.question.topics)
  }

  function Results(qs: seq<FlattenedQuestion>, states: ExamStore.States): (r: seq<QuestionEvaluationResult>)
    ensures |r| == |qs|
    ensures forall i :: 0 <= i < |qs| ==> r[i] == ResultFor(qs[i], states)
  {
    seq(|qs|, i requires 0 <= i < |qs| => ResultFor(qs[i], states))
  }

  lemma ResultsStep(qs: seq<FlattenedQuestion>, states: ExamStore.States, i: int)
    requires 0 <= i < |qs|
    ensures Results(qs[..i + 1], states) == Results(qs[..i], states) + [ResultFor(qs[i], states)]
  {
    var a, b := Results(qs[..i + 1], states), Results(qs[..i], states) + [ResultFor(qs[i], states)];
    assert |a| == |b|;
    forall k | 0 <= k < |a| ensures a[k] == b[k] {
      if k < i {
        assert qs[..i + 1][k] == qs[..i][k];
      }
    }
  }

  /** One more question: every accumulated quantity grows by that question's share. */
  lemma GradeStep(qs: seq<FlattenedQuestion>, states: ExamStore.States, i: int)
    requires 0 <= i < |qs|
    ensures var rs, r := Results(qs[..i], states), ResultFor(qs[i], states);
            && Results(qs[..i + 1], states) == rs + [r]
            && EvaluationMap(qs[..i + 1], states) == EvaluationMap(qs[..i], states)[qs[i].question.questionId := r]
            && MaxScore(qs[..i + 1]) == MaxScore(qs[..i]) + qs[i].question.marksScheme.marksCorrect
            && TotalScore(rs + [r]) == TotalScore(rs) + r.marksObtained
            && TotalTime(rs + [r]) == TotalTime(rs) + r.timeSpentSeconds
            && Count(rs + [r], IsCorrectResult) == Count(rs, IsCorrectResult) + (if IsCorrectResult(r) then 1 else 0)
            && Count(rs + [r], IsIncorrectResult) == Count(rs, IsIncorrectResult) + (if IsIncorrectResult(r) then 1 else 0)
            && Count(rs + [r], IsUnattempted) == Count(rs, IsUnattempted) + (if IsUnattempted(r) then 1 else 0)
  {
    var rs, r := Results(qs[..i], states), ResultFor(qs[i], states);
    ResultsStep(qs, states, i);
    assert qs[..i + 1][..i] == qs[..i];
    assert (rs + [r])[..|rs|] == rs;
  }

  /** The three classes the loop counts: unattempted, correct and incorrect. */
  predicate IsUnattempted(r: QuestionEvaluationResult) {
    r.userAnswer == AnswerNone
  }

  predicate IsCorrectResult(r: QuestionEvaluationResult) {
    !IsUnattempted(r) && r.isCorrect
  }

  predicate IsIncorrectResult(r: QuestionEvaluationResult) {
    !IsUnattempted(r) && !r.isCorrect
  }

  function Count(rs: seq<QuestionEvaluationResult>, p: QuestionEvaluationResult -> bool): nat {
    if |rs| == 0 then 0 else Count(rs[..|rs| - 1], p) + (if p(rs[|rs| - 1]) then 1 else 0)
  }

  function TotalScore(rs: seq<QuestionEvaluationResult>): real {
    if |rs| == 0 then 0.0 else TotalScore(rs[..|rs| - 1]) + rs[|rs| - 1].marksObtained
  }

  function TotalTime(rs: seq<QuestionEvaluationResult>): int {
    if |rs| == 0 then 0 else TotalTime(rs[..|rs| - 1]) + rs[|rs| - 1].timeSpentSeconds
  }

  function MaxScore(qs: seq<FlattenedQuestion>): real {
    if |qs| == 0 then 0.0 else MaxScore(qs[..|qs| - 1]) + qs[|qs| - 1].question.marksScheme.marksCorrect
  }

  /** Every result is exactly one of unattempted, correct or incorrect. */
  lemma {:induction false} CountsAddUp(rs: seq<QuestionEvaluationResult>)
    ensures Count(rs, IsUnattempted) + Count(rs, IsCorrectResult) + Count(rs, IsIncorrectResult) == |rs|
  {
    if |rs| > 0 {
      CountsAddUp(rs[..|rs| - 1]);
    }
  }

  /** `evaluationMap`: results by question id, one key per id. */
  function EvaluationMap(qs: seq<FlattenedQuestion>, states: ExamStore.States): (m: TopicReport.Results)
    ensures m.Keys == ExamStore.QuestionIds(qs)
  {
    if |qs| == 0 then map[]
    else
      var q := qs[|qs| - 1];
      assert qs == qs[..|qs| - 1] + [q];
      EvaluationMap(qs[..|qs| - 1], states)[q.question.questionId := ResultFor(q, states)]
  }

  /** A later question overwrites an earlier one with the same id: the last question with an id supplies its result. */
  lemma {:induction false} EvaluationMapLastWins(qs: seq<FlattenedQuestion>, states: ExamStore.States, i: int)
    requires 0 <= i < |qs|
    requires forall j :: i < j < |qs| ==> qs[j].question.questionId != qs[i].question.questionId
    ensures qs[i].question.questionId in EvaluationMap(qs, states)
    ensures EvaluationMap(qs, states)[qs[i].question.questionId] == ResultFor(qs[i], states)
  {
    if i < |qs| - 1 {
      EvaluationMapLastWins(qs[..|qs| - 1], states, i);
    }
  }

  /** With distinct question ids every question's id maps to its own result. */
  lemma EvaluationMapDistinct(qs: seq<FlattenedQuestion>, states: ExamStore.States)
    requires forall i, j :: 0 <= i < j < |qs| ==> qs[i].question.questionId != qs[j].question.questionId
    ensures forall i :: 0 <= i < |qs| ==>
              qs[i].question.questionId in EvaluationMap(qs, states)
              && EvaluationMap(qs, states)[qs[i].question.questionId] == ResultFor(qs[i], states)
  {
    forall i | 0 <= i < |qs|
      ensures qs[i].question.questionId in EvaluationMap(qs, states)
              && EvaluationMap(qs, states)[qs[i].question.questionId] == ResultFor(qs[i], states)
    {
      EvaluationMapLastWins(qs, states, i);
    }
  }

  /** The rounded mean time: `round(totalTimeUsed / questions.length)`, 0 without questions. */
  function AverageTime(totalTime: int, count: int): int {
    if count > 0 then JsNumber.Round(totalTime as real / count as real) else 0
  }

  /** `percentage`: the score as a percentage of the maximum, 0 unless the maximum is positive. */
  function Percentage(score: real, maxScore: real): real {
    if maxScore > 0.0 then score / maxScore * 100.0 else 0.0
  }

  /** `accuracy`: the correct answers as a percentage of the attempted ones, 0 without attempts. */
  function Accuracy(correct: int, attempted: int): real {
    if attempted > 0 then correct as real / attempted as real * 100.0 else 0.0
  }

  /** The returned `ExamResult`. */
  function Summary(paper: ExamPaper, qs: seq<FlattenedQuestion>, states: ExamStore.States): ExamResult {
    Assemble(paper, qs, Results(qs, states), TopicReport.Report(qs, states, EvaluationMap(qs, states)))
  }

  /** The record built from the results and the topic list. */
  function Assemble(paper: ExamPaper, qs: seq<FlattenedQuestion>, rs: seq<QuestionEvaluationResult>,
                    topics: seq<TopicStats>): ExamResult {
    var correct := Count(rs, IsCorrectResult);
    var incorrect := Count(rs, IsIncorrectResult);
    var attempted := correct + incorrect;
    var score := TotalScore(rs);
    var maxScore := MaxScore(qs);
    var time := TotalTime(rs);
    ExamResult(
      paper.paperId, paper.paperLabel, score, maxScore, Percentage(score, maxScore),
      |qs|, attempted, correct, incorrect, Count(rs, IsUnattempted), Accuracy(correct, attempted),
      time, paper.durationMinutes * 60, AverageTime(time, |qs|),
      topics, rs)
  }

  /**
    The totals of the summary: the three classes add up to the number of questions,
    the ratios are 0 behind their zero guards, accuracy lies in [0, 100], and the
    average agrees with `calculateAvgTimePerQuestion`.
   */
  lemma SummaryTotals(paper: ExamPaper, qs: seq<FlattenedQuestion>, states: ExamStore.States)
    ensures var s := Summary(paper, qs, states);
            && s.correctCount + s.incorrectCount + s.unattemptedCount == s.totalQuestions == |qs|
            && s.attemptedQuestions == s.correctCount + s.incorrectCount
            && (s.maxScore <= 0.0 ==> s.percentage == 0.0)
            && (s.maxScore > 0.0 ==> s.percentage == s.totalScore / s.maxScore * 100.0)
            && (s.attemptedQuestions == 0 ==> s.accuracy == 0.0)
            && (s.attemptedQuestions > 0 ==>
                  s.accuracy == s.correctCount as real / s.attemptedQuestions as real * 100.0)
            && 0.0 <= s.accuracy <= 100.0
            && s.avgTimePerQuestion == TimeUtils.CalculateAvgTimePerQuestion(s.totalTimeUsedSeconds, |qs|)
            && s.totalTimeAllowedSeconds == paper.durationMinutes * 60
  {
    var rs := Results(qs, states);
    CountsAddUp(rs);
    var correct := Count(rs, IsCorrectResult);
    var attempted := correct + Count(rs, IsIncorrectResult);
    if attempted > 0 {
      TopicReport.RatioBounds(correct, attempted);
    }
  }

  /** The score and the time are sums over the results, which are the questions' results in order. */
  lemma SummaryResults(paper: ExamPaper, qs: seq<FlattenedQuestion>, states: ExamStore.States)
    ensures var s := Summary(paper, qs, states);
            && |s.questionResults| == |qs|
            && (forall i :: 0 <= i < |qs| ==> s.questionResults[i] == ResultFor(qs[i], states))
            && s.totalScore == TotalScore(s.questionResults)
            && s.maxScore == MaxScore(qs)
            && s.totalTimeUsedSeconds == TotalTime(s.questionResults)
  {
  }

  /** Whatever the ids, a question enters the topic report exactly when it has a state. */
  lemma SummaryTopicMembership(qs: seq<FlattenedQuestion>, states: ExamStore.States, i: int)
    requires 0 <= i < |qs|
    ensures TopicReport.IsCounted(qs[i], states, EvaluationMap(qs, states)) <==> qs[i].question.questionId in states
  {
    ExamStore.QuestionIdsMembers(qs, qs[i].question.questionId);
  }

  /**
    Whatever the ids, a question with a state enters the topic report with the result
    of the last question bearing its id, which is its own result only when no later
    question shares the id.
   */
  lemma SummaryTopicLastCopy(qs: seq<FlattenedQuestion>, states: ExamStore.States, i: int, j: int)
    requires 0 <= i <= j < |qs| && qs[j].question.questionId == qs[i].question.questionId
    requires forall k :: j < k < |qs| ==> qs[k].question.questionId != qs[i].question.questionId
    requires qs[i].question.questionId in states
    ensures TopicReport.IsCounted(qs[i], states, EvaluationMap(qs, states))
    ensures TopicReport.ContributionOf(qs[i], states, EvaluationMap(qs, states))
            == TopicReport.Contribution(qs[i].question, states[qs[i].question.questionId], ResultFor(qs[j], states))
  {
    SummaryTopicMembership(qs, states, i);
    EvaluationMapLastWins(qs, states, j);
  }

  /** With distinct ids every question with a state enters the topic report with its own result. */
  lemma SummaryTopicInput(qs: seq<FlattenedQuestion>, states: ExamStore.States, i: int)
    requires 0 <= i < |qs|
    requires forall a, b :: 0 <= a < b < |qs| ==> qs[a].question.questionId != qs[b].question.questionId
    ensures TopicReport.IsCounted(qs[i], states, EvaluationMap(qs, states)) <==> qs[i].question.questionId in states
    ensures qs[i].question.questionId in states ==>
              TopicReport.ContributionOf(qs[i], states, EvaluationMap(qs, states))
              == TopicReport.Contribution(qs[i].question, states[qs[i].question.questionId], ResultFor(qs[i], states))
  {
    SummaryTopicMembership(qs, states, i);
    if qs[i].question.questionId in states {
      SummaryTopicLastCopy(qs, states, i, i);
    }
  }

  /** A question with the given id, key, marks and topics and no text, image or options. */
  function SampleQuestion(id: string, key: CorrectAnswer, scheme: MarksScheme, topics: seq<string>, index: int): FlattenedQuestion {
    FlattenedQuestion(Question(id, index, key.Kind(), "", None, [], key, scheme, topics, None, []), "s1", "Section 1", index)
  }

  function SampleState(id: string, answer: UserAnswer): QuestionAttemptState {
    QuestionAttemptState(id, answer, 0, false, true)
  }

  /**
    Three questions: single choice answered right (+2), multiple choice with one of
    its two correct options (-1), numerical left blank (0). The score is 1 of 5, one
    answer each is correct, incorrect and unattempted, and accuracy is 50%. These
    fields of the summary do not depend on its topic list, which is left open here.
   */
  function ScenarioQuestions(): seq<FlattenedQuestion> {
    [SampleQuestion("q1", CorrectSingle(1), MarksScheme(2.0, -0.67, 0.0), ["algebra"], 0),
     SampleQuestion("q2", CorrectMulti([0, 1]), MarksScheme(2.0, -1.0, 0.0), ["algebra"], 1),
     SampleQuestion("q3", CorrectNat([NumRange(10.0, 10.0)]), MarksScheme(1.0, 0.0, 0.0), ["graphs"], 2)]
  }

  function ScenarioStates(): ExamStore.States {
    map["q1" := SampleState("q1", AnswerSingle(Some(1))),
        "q2" := SampleState("q2", AnswerMulti([0])),
        "q3" := SampleState("q3", AnswerNone)]
  }

  lemma ThreeQuestionScenario(paper: ExamPaper, topics: seq<TopicStats>)
    ensures var s := Assemble(paper, ScenarioQuestions(), Results(ScenarioQuestions(), ScenarioStates()), topics);
            s.totalScore == 1.0 && s.maxScore == 5.0 && s.percentage == 20.0
    ensures var s := Assemble(paper, ScenarioQuestions(), Results(ScenarioQuestions(), ScenarioStates()), topics);
            s.correctCount == 1 && s.incorrectCount == 1 && s.unattemptedCount == 1
    ensures var s := Assemble(paper, ScenarioQuestions(), Results(ScenarioQuestions(), ScenarioStates()), topics);
            s.attemptedQuestions == 2 && s.accuracy == 50.0
  {
    var qs, states := ScenarioQuestions(), ScenarioStates();
    var q1, q2, q3 := qs[0], qs[1], qs[2];
    assert qs == [q1, q2, q3];
    assert Grading.AsSet([0]) == {0};
    assert Grading.AsSet([0, 1]) == {0, 1};
    Grading.MultiNoPartialCredit(q2.question, [0]);
    var r1, r2, r3 := ResultFor(q1, states), ResultFor(q2, states), ResultFor(q3, states);
    assert Results(qs, states) == [r1, r2, r3];
    assert r1.isCorrect && r1.marksObtained == 2.0;
    assert !r2.isCorrect && r2.marksObtained == -1.0;
    assert r3.userAnswer == AnswerNone && r3.marksObtained == 0.0;
    ThreeSums(r1, r2, r3, IsCorrectResult);
    ThreeSums(r1, r2, r3, IsIncorrectResult);
    ThreeSums(r1, r2, r3, IsUnattempted);
    assert qs[..2] == [q1, q2] && [q1, q2][..1] == [q1] && [q1][..0] == [];
    assert MaxScore([q1]) == 2.0;
    assert MaxScore([q1, q2]) == 4.0;
    assert MaxScore(qs) == 5.0;
    assert Accuracy(1, 2) == 50.0;
    assert Percentage(1.0, 5.0) == 20.0;
  }

  /** The sums and counts over three results, unfolded. */
  lemma ThreeSums(r1: QuestionEvaluationResult, r2: QuestionEvaluationResult, r3: QuestionEvaluationResult,
                  p: QuestionEvaluationResult -> bool)
    ensures TotalScore([r1, r2, r3]) == r1.marksObtained + r2.marksObtained + r3.marksObtained
    ensures Count([r1, r2, r3], p) == (if p(r1) then 1 else 0) + (if p(r2) then 1 else 0) + (if p(r3) then 1 else 0)
  {
    var s1, s2, s3 := [r1], [r1, r2], [r1, r2, r3];
    assert s3[..2] == s2 && s2[..1] == s1 && s1[..0] == [];
    assert TotalScore(s1) == r1.marksObtained;
    assert TotalScore(s2) == r1.marksObtained + r2.marksObtained;
    assert Count(s1, p) == (if p(r1) then 1 else 0);
    assert Count(s2, p) == (if p(r1) then 1 else 0) + (if p(r2) then 1 else 0);
  }

  /** `evaluateExam` as the code runs it: the grading loop, then the topic statistics and the ratios. */
  method EvaluateExam(paper: ExamPaper, questions: seq<FlattenedQuestion>, questionStates: ExamStore.States)
    returns (result: ExamResult)
    ensures result == Summary(paper, questions, questionStates)
  {
    var questionResults, evaluationMap, totalScore, maxScore, correctCount, incorrectCount, unattemptedCount, totalTimeUsed
      := GradeQuestions(questions, questionStates);
    var topicStats := TopicReport.CalculateTopicStats(questions, questionStates, evaluationMap);
    var attemptedQuestions := correctCount + incorrectCount;
    var accuracy := if attemptedQuestions > 0 then correctCount as real / attemptedQuestions as real * 100.0 else 0.0;
    var percentage := if maxScore > 0.0 then totalScore / maxScore * 100.0 else 0.0;
    assert accuracy == Accuracy(correctCount, attemptedQuestions);
    assert percentage == Percentage(totalScore, maxScore);
    result := ExamResult(
      paper.paperId, paper.paperLabel, totalScore, maxScore, percentage,
      |questions|, attemptedQuestions, correctCount, incorrectCount, unattemptedCount, accuracy,
      totalTimeUsed, paper.durationMinutes * 60,
      if |questions| > 0 then JsNumber.Round(totalTimeUsed as real / |questions| as real) else 0,
      topicStats, questionResults);
    AssembleIs(paper, questions, questionResults, topicStats, result);
  }

  /** The loop of `evaluateExam`: grades every question and accumulates the totals. */
  method GradeQuestions(questions: seq<FlattenedQuestion>, questionStates: ExamStore.States)
    returns (questionResults: seq<QuestionEvaluationResult>, evaluationMap: TopicReport.Results,
             totalScore: real, maxScore: real,
             correctCount: nat, incorrectCount: nat, unattemptedCount: nat, totalTimeUsed: int)
    ensures questionResults == Results(questions, questionStates)
    ensures evaluationMap == EvaluationMap(questions, questionStates)
    ensures totalScore == TotalScore(questionResults) && maxScore == MaxScore(questions)
    ensures totalTimeUsed == TotalTime(questionResults)
    ensures correctCount == Count(questionResults, IsCorrectResult)
    ensures incorrectCount == Count(questionResults, IsIncorrectResult)
    ensures unattemptedCount == Count(questionResults, IsUnattempted)
  {
    questionResults, evaluationMap := [], map[];
    totalScore, maxScore := 0.0, 0.0;
    correctCount, incorrectCount, unattemptedCount := 0, 0, 0;
    totalTimeUsed := 0;
    for i := 0 to |questions|
      invariant TallyAt(Tally(questionResults, evaluationMap, totalScore, maxScore, correctCount, incorrectCount,
                              unattemptedCount, totalTimeUsed), questions, questionStates, i)
    {
      var question := questions[i];
      var id := question.question.questionId;
      var userAnswer := if id in questionStates then questionStates[id].answer else AnswerNone;
      var timeSpent := if id in questionStates then questionStates[id].timeSpentSeconds else 0;
      var grade := Grading.EvaluateQuestion(question.question, userAnswer);
      var r := QuestionEvaluationResult(id, grade.isCorrect, grade.marksObtained, userAnswer,
                                        question.question.correctAnswer, timeSpent, question.question.topics);
      assert r == ResultFor(question, questionStates);
      ghost var before := Tally(questionResults, evaluationMap, totalScore, maxScore, correctCount, incorrectCount,
                                unattemptedCount, totalTimeUsed);
      questionResults := questionResults + [r];
      evaluationMap := evaluationMap[id := r];
      totalScore := totalScore + grade.marksObtained;
      maxScore := maxScore + question.question.marksScheme.marksCorrect;
      totalTimeUsed := totalTimeUsed + timeSpent;
      if userAnswer == AnswerNone {
        unattemptedCount := unattemptedCount + 1;
      } else if grade.isCorrect {
        correctCount := correctCount + 1;
      } else {
        incorrectCount := incorrectCount + 1;
      }
      TallyStep(questions, questionStates, i, before,
                Tally(questionResults, evaluationMap, totalScore, maxScore, correctCount, incorrectCount,
                      unattemptedCount, totalTimeUsed));
    }
    assert questions[..|questions|] == questions;
  }

  /** The accumulators of the grading loop. */
  datatype Tally = Tally(results: seq<QuestionEvaluationResult>, byId: TopicReport.Results, score: real, maxScore: real,
                         correct: nat, incorrect: nat, unattempted: nat, time: int)

  /** The accumulators after the first `i` questions. */
  ghost predicate TallyAt(t: Tally, qs: seq<FlattenedQuestion>, states: ExamStore.States, i: int)
    requires 0 <= i <= |qs|
  {
    && t.results == Results(qs[..i], states)
    && t.byId == EvaluationMap(qs[..i], states)
    && t.score == TotalScore(t.results)
    && t.maxScore == MaxScore(qs[..i])
    && t.time == TotalTime(t.results)
    && t.correct == Count(t.results, IsCorrectResult)
    && t.incorrect == Count(t.results, IsIncorrectResult)
    && t.unattempted == Count(t.results, IsUnattempted)
  }

  /** One iteration of the grading loop: adding question `i`'s share to the accumulators of the first `i` questions. */
  lemma TallyStep(qs: seq<FlattenedQuestion>, states: ExamStore.States, i: int, t: Tally, t': Tally)
    requires 0 <= i < |qs| && TallyAt(t, qs, states, i)
    requires var r := ResultFor(qs[i], states);
             && t'.results == t.results + [r]
             && t'.byId == t.byId[qs[i].question.questionId := r]
             && t'.score == t.score + r.marksObtained
             && t'.maxScore == t.maxScore + qs[i].question.marksScheme.marksCorrect
             && t'.time == t.time + r.timeSpentSeconds
             && t'.correct == t.correct + (if IsCorrectResult(r) then 1 else 0)
             && t'.incorrect == t.incorrect + (if IsIncorrectResult(r) then 1 else 0)
             && t'.unattempted == t.unattempted + (if IsUnattempted(r) then 1 else 0)
    ensures TallyAt(t', qs, states, i + 1)
  {
    GradeStep(qs, states, i);
  }

  /** The fields of the record, each given by its specification function. */
  lemma AssembleIs(paper: ExamPaper, qs: seq<FlattenedQuestion>, rs: seq<QuestionEvaluationResult>,
                   topics: seq<TopicStats>, r: ExamResult)
    requires r.paperId == paper.paperId && r.paperLabel == paper.paperLabel
    requires r.questionResults == rs && r.topicStats == topics
    requires r.totalScore == TotalScore(rs) && r.maxScore == MaxScore(qs)
    requires r.percentage == Percentage(r.totalScore, r.maxScore)
    requires r.totalQuestions == |qs|
    requires r.correctCount == Count(rs, IsCorrectResult)
    requires r.incorrectCount == Count(rs, IsIncorrectResult)
    requires r.unattemptedCount == Count(rs, IsUnattempted)
    requires r.attemptedQuestions == r.correctCount + r.incorrectCount
    requires r.accuracy == Accuracy(r.correctCount, r.attemptedQuestions)
    requires r.totalTimeUsedSeconds == TotalTime(rs)
    requires r.totalTimeAllowedSeconds == paper.durationMinutes * 60
    requires r.avgTimePerQuestion == AverageTime(r.totalTimeUsedSeconds, |qs|)
    ensures r == Assemble(paper, qs, rs, topics)
  {
  }
}
