/** `evaluateQuestion`: grading one answer against the key of its question. */
module Grading {
  import opened ExamTypes

  /** The pair `{ isCorrect, marksObtained }`. */
  datatype Grade = Grade(isCorrect: bool, marksObtained: real)

  /** `new Set(xs)`: the distinct elements of a selection. */
  function AsSet(xs: seq<int>): set<int> {
    set x | x in xs
  }

  /**
    The multiple-choice test as the code performs it: the two sets have the same
    size and every correct index is among the selected ones.
   */
  predicate SameSelection(user: seq<int>, correct: seq<int>) {
    |AsSet(correct)| == |AsSet(user)| && AsSet(correct) <= AsSet(user)
  }

  /** `accepted_ranges.some(range => value >= range.min && value <= range.max)`. */
  predicate InAnyRange(value: real, ranges: seq<NumRange>) {
    exists r :: r in ranges && r.min <= value <= r.max
  }

  /** Whether an answer of the key's own variant is right. */
  predicate Matches(key: CorrectAnswer, answer: UserAnswer) {
    match key
    case CorrectSingle(k) => answer.AnswerSingle? && answer.selectedIndex == Some(k)
    case CorrectMulti(ks) => answer.AnswerMulti? && SameSelection(answer.selectedIndices, ks)
    case CorrectNat(rs) => answer.AnswerNat? && answer.value.Some? && InAnyRange(answer.value.value, rs)
  }

  /**
    `evaluateQuestion`: a `none` answer earns the unattempted marks, an answer of
    another variant than the key the incorrect marks, and otherwise the answer earns
    the correct or the incorrect marks as it matches the key.
   */
  function EvaluateQuestion(q: Question, answer: UserAnswer): (g: Grade)
    ensures answer == AnswerNone ==> g == Grade(false, q.marksScheme.marksUnattempted)
    ensures answer != AnswerNone && answer.Kind() != Some(q.correctAnswer.Kind()) ==>
              g == Grade(false, q.marksScheme.marksIncorrect)
    ensures answer != AnswerNone ==>
              g.marksObtained == if g.isCorrect then q.marksScheme.marksCorrect else q.marksScheme.marksIncorrect
    ensures g.isCorrect ==> answer.Kind() == Some(q.correctAnswer.Kind())
  {
    if answer == AnswerNone then Grade(false, q.marksScheme.marksUnattempted)
    else if answer.Kind() != Some(q.correctAnswer.Kind()) then Grade(false, q.marksScheme.marksIncorrect)
    else
      var ok := Matches(q.correctAnswer, answer);
      Grade(ok, if ok then q.marksScheme.marksCorrect else q.marksScheme.marksIncorrect)
  }

  /**
    Single choice: right exactly when the selected index is the key's index; a null
    selection is an attempt, and a wrong one.
   */
  lemma SingleChoiceRule(q: Question, selected: Option<int>)
    requires q.correctAnswer.CorrectSingle?
    ensures EvaluateQuestion(q, AnswerSingle(selected)).isCorrect
            <==> selected == Some(q.correctAnswer.correctOptionIndex)
    ensures EvaluateQuestion(q, AnswerSingle(None)) == Grade(false, q.marksScheme.marksIncorrect)
  {
  }

  /** A subset of a set with the same number of elements is the set itself. */
  lemma {:induction false} SubsetSameSize(a: set<int>, b: set<int>)
    requires a <= b && |a| == |b|
    ensures a == b
  {
    var extra := b - a;
    assert b == a + extra;
    assert a * extra == {};
    assert |a + extra| == |a| + |extra|;
  }

  /** The size-and-subset test is exactly set equality. */
  lemma SameSelectionIff(user: seq<int>, correct: seq<int>)
    ensures SameSelection(user, correct) <==> AsSet(user) == AsSet(correct)
  {
    if SameSelection(user, correct) {
      SubsetSameSize(AsSet(correct), AsSet(user));
    }
  }

  /** Multiple choice: right exactly when the distinct selected indices are the distinct correct ones. */
  lemma MultiChoiceRule(q: Question, selected: seq<int>)
    requires q.correctAnswer.CorrectMulti?
    ensures EvaluateQuestion(q, AnswerMulti(selected)).isCorrect
            <==> AsSet(selected) == AsSet(q.correctAnswer.correctOptionIndices)
  {
    SameSelectionIff(selected, q.correctAnswer.correctOptionIndices);
  }

  /** No partial credit: a strict subset or a strict superset of the key is wrong and earns the incorrect marks. */
  lemma MultiNoPartialCredit(q: Question, selected: seq<int>)
    requires q.correctAnswer.CorrectMulti?
    requires AsSet(selected) < AsSet(q.correctAnswer.correctOptionIndices)
          || AsSet(q.correctAnswer.correctOptionIndices) < AsSet(selected)
    ensures EvaluateQuestion(q, AnswerMulti(selected)) == Grade(false, q.marksScheme.marksIncorrect)
  {
    MultiChoiceRule(q, selected);
  }

  /** Repeated and reordered selections are graded alike: only the set of indices matters. */
  lemma MultiIgnoresDuplicates(q: Question, s1: seq<int>, s2: seq<int>)
    requires AsSet(s1) == AsSet(s2)
    ensures EvaluateQuestion(q, AnswerMulti(s1)) == EvaluateQuestion(q, AnswerMulti(s2))
  {
    if q.correctAnswer.CorrectMulti? {
      MultiChoiceRule(q, s1);
      MultiChoiceRule(q, s2);
    }
  }

  /** Numerical answer: right exactly when it is present and some range holds it, bounds included. */
  lemma NatRule(q: Question, value: Option<real>)
    requires q.correctAnswer.CorrectNat?
    ensures EvaluateQuestion(q, AnswerNat(value)).isCorrect
            <==> value.Some? && exists r :: r in q.correctAnswer.acceptedRanges && r.min <= value.value <= r.max
    ensures EvaluateQuestion(q, AnswerNat(None)) == Grade(false, q.marksScheme.marksIncorrect)
  {
  }

  /** Both ends of every non-empty accepted range are accepted. */
  lemma NatBoundsInclusive(q: Question, r: NumRange)
    requires q.correctAnswer.CorrectNat? && r in q.correctAnswer.acceptedRanges && r.min <= r.max
    ensures EvaluateQuestion(q, AnswerNat(Some(r.min))).isCorrect
    ensures EvaluateQuestion(q, AnswerNat(Some(r.max))).isCorrect
  {
  }

  /** A value outside every accepted range is wrong. */
  lemma NatOutsideRanges(q: Question, v: real)
    requires q.correctAnswer.CorrectNat?
    requires forall r :: r in q.correctAnswer.acceptedRanges ==> v < r.min || r.max < v
    ensures EvaluateQuestion(q, AnswerNat(Some(v))) == Grade(false, q.marksScheme.marksIncorrect)
  {
  }

  /** An answer of another variant than the key is wrong whatever its payload. */
  lemma MismatchIsWrong(q: Question, answer: UserAnswer)
    requires answer != AnswerNone && answer.Kind() != Some(q.correctAnswer.Kind())
    ensures !EvaluateQuestion(q, answer).isCorrect
    ensures EvaluateQuestion(q, answer).marksObtained == q.marksScheme.marksIncorrect
  {
  }

  /** The range `[4.98, 5.02]` accepts both its bounds and rejects values just outside. */
  lemma NatExample(q: Question)
    requires q.correctAnswer == CorrectNat([NumRange(4.98, 5.02)])
    ensures EvaluateQuestion(q, AnswerNat(Some(4.98))).isCorrect
    ensures EvaluateQuestion(q, AnswerNat(Some(5.02))).isCorrect
    ensures !EvaluateQuestion(q, AnswerNat(Some(4.979))).isCorrect
    ensures !EvaluateQuestion(q, AnswerNat(Some(5.021))).isCorrect
  {
    var r := NumRange(4.98, 5.02);
    assert r in q.correctAnswer.acceptedRanges;
  }
}
