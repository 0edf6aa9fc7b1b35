/**
  The exam document, the attempt state and the result records of the test-taking
  application. JavaScript numbers are `int` where the application only ever stores
  whole numbers (indices, counts, seconds, timestamps) and `real` for marks,
  numerical answers and percentages.
 */
module ExamTypes {

  datatype Option<T> = None | Some(value: T)

  datatype QuestionType = McqSingle | McqMulti | Nat

  /** An inclusive accepted range `[min, max]` for a numerical answer. */
  datatype NumRange = NumRange(min: real, max: real)

  /** The key of a question: one variant per question type, and no "none" variant. */
  datatype CorrectAnswer =
    | CorrectSingle(correctOptionIndex: int)
    | CorrectMulti(correctOptionIndices: seq<int>)
    | CorrectNat(acceptedRanges: seq<NumRange>)
  {
    /** The `type` tag of the variant. */
    function Kind(): QuestionType {
      match this
      case CorrectSingle(_) => McqSingle
      case CorrectMulti(_) => McqMulti
      case CorrectNat(_) => Nat
    }
  }

  datatype MarksScheme = MarksScheme(marksCorrect: real, marksIncorrect: real, marksUnattempted: real)

  datatype Difficulty = Easy | Medium | Hard

  datatype Question = Question(
    questionId: string,
    index: int,
    qtype: QuestionType,
    questionText: string,
    image: Option<Option<string>>,
    options: seq<string>,
    correctAnswer: CorrectAnswer,
    marksScheme: MarksScheme,
    topics: seq<string>,
    difficulty: Option<Difficulty>,
    tags: seq<string>)

  datatype Section = Section(sectionId: string, title: string, order: int, questions: seq<Question>)

  datatype PaperType = Pyq | Mock

  datatype ExamPaper = ExamPaper(
    examId: string,
    paperId: string,
    year: int,
    paperLabel: string,
    paperType: PaperType,
    durationMinutes: int,
    totalMarks: real,
    sections: seq<Section>)

  /**
    What the candidate has entered: one typed variant per question type, or the
    payload-free `AnswerNone`. The single-choice and numerical payloads are nullable.
   */
  datatype UserAnswer =
    | AnswerSingle(selectedIndex: Option<int>)
    | AnswerMulti(selectedIndices: seq<int>)
    | AnswerNat(value: Option<real>)
    | AnswerNone
  {
    /** The `type` tag of the variant, `None` for the `'none'` tag. */
    function Kind(): Option<QuestionType> {
      match this
      case AnswerSingle(_) => Some(McqSingle)
      case AnswerMulti(_) => Some(McqMulti)
      case AnswerNat(_) => Some(Nat)
      case AnswerNone => None
    }
  }

  datatype QuestionAttemptState = QuestionAttemptState(
    questionId: string,
    answer: UserAnswer,
    timeSpentSeconds: int,
    markedForReview: bool,
    visited: bool)

  /** The five navigation-panel classes of a question. */
  datatype QuestionStatus = NotVisited | Answered | NotAnswered | MarkedForReview | AnsweredAndMarked

  datatype QuestionEvaluationResult = QuestionEvaluationResult(
    questionId: string,
    isCorrect: bool,
    marksObtained: real,
    userAnswer: UserAnswer,
    correctAnswer: CorrectAnswer,
    timeSpentSeconds: int,
    topics: seq<string>)

  datatype Strength = Weak | Moderate | Strong

  datatype TopicStats = TopicStats(
    topic: string,
    totalQuestions: int,
    attemptedQuestions: int,
    correctCount: int,
    incorrectCount: int,
    unattemptedCount: int,
    marksObtained: real,
    maxMarks: real,
    accuracy: real,
    totalTimeSeconds: int,
    avgTimePerQuestion: int,
    strength: Strength)

  datatype ExamResult = ExamResult(
    paperId: string,
    paperLabel: string,
    totalScore: real,
    maxScore: real,
    percentage: real,
    totalQuestions: int,
    attemptedQuestions: int,
    correctCount: int,
    incorrectCount: int,
    unattemptedCount: int,
    accuracy: real,
    totalTimeUsedSeconds: int,
    totalTimeAllowedSeconds: int,
    avgTimePerQuestion: int,
    topicStats: seq<TopicStats>,
    questionResults: seq<QuestionEvaluationResult>)

  /** The lifecycle of an attempt. */
  datatype ExamStatus = NotStarted | InProgress | Submitted

  /** A question together with its owning section and its 0-based position in the whole exam. */
  datatype FlattenedQuestion = FlattenedQuestion(
    question: Question,
    sectionId: string,
    sectionTitle: string,
    globalIndex: int)

  /** Every question type is the tag of exactly one correct-answer variant. */
  lemma CorrectAnswerPerType(t: QuestionType)
    ensures exists c: CorrectAnswer :: c.Kind() == t
    ensures forall c: CorrectAnswer, d: CorrectAnswer :: c.Kind() == t && d.Kind() == t ==> c.CorrectSingle? == d.CorrectSingle? && c.CorrectMulti? == d.CorrectMulti? && c.CorrectNat? == d.CorrectNat?
  {
    match t
    case McqSingle => assert CorrectSingle(0).Kind() == t;
    case McqMulti => assert CorrectMulti([]).Kind() == t;
    case Nat => assert CorrectNat([]).Kind() == t;
  }

  /** A user answer carries a question type exactly when it is not the `none` variant. */
  lemma UserAnswerKinds(a: UserAnswer)
    ensures a.Kind() == None <==> a == AnswerNone
    ensures a.Kind() == Some(McqSingle) <==> a.AnswerSingle?
    ensures a.Kind() == Some(McqMulti) <==> a.AnswerMulti?
    ensures a.Kind() == Some(Nat) <==> a.AnswerNat?
  {
  }

  /** A blank can be written three ways: `none`, or a typed variant with a null payload. */
  lemma BlankForms()
    ensures AnswerSingle(None).Kind() == Some(McqSingle) && AnswerSingle(None) != AnswerNone
    ensures AnswerNat(None).Kind() == Some(Nat) && AnswerNat(None) != AnswerNone
  {
  }

  /** Every navigation status is one of the five listed, as is every exam status of the three. */
  lemma StatusEnumerations(q: QuestionStatus, e: ExamStatus, s: Strength)
    ensures q in [NotVisited, Answered, NotAnswered, MarkedForReview, AnsweredAndMarked]
    ensures e in [NotStarted, InProgress, Submitted]
    ensures s in [Weak, Moderate, Strong]
  {
  }
}
