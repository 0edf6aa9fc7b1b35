/**
  The selection rule of the multiple-choice input (`handleToggle`): clicking an
  option that is selected removes it, clicking one that is not appends it.
 */
module MultiChoiceInput {
  import opened ExamTypes
  import ExamStore
  import Grading
  import AnswerFormat

  /** `selected.filter(i => i !== index)`. */
  function Without(selected: seq<int>, index: int): (r: seq<int>)
    ensures index !in r
    ensures forall x :: x != index ==> (x in r <==> x in selected)
    ensures |r| <= |selected|
  {
    if |selected| == 0 then []
    else
      var init := Without(selected[..|selected| - 1], index);
      var last := selected[|selected| - 1];
      assert selected == selected[..|selected| - 1] + [last];
      if last == index then init else init + [last]
  }

  /** `handleToggle(index)`. */
  function Toggle(selected: seq<int>, index: int): seq<int> {
    if index in selected then Without(selected, index) else selected + [index]
  }

  /** Filtering keeps the other elements with their multiplicities and drops every copy of the index. */
  lemma {:induction false} WithoutCounts(selected: seq<int>, index: int)
    ensures multiset(Without(selected, index))[index] == 0
    ensures forall x :: x != index ==> multiset(Without(selected, index))[x] == multiset(selected)[x]
  {
    if |selected| > 0 {
      var init := selected[..|selected| - 1];
      WithoutCounts(init, index);
      assert selected == init + [selected[|selected| - 1]];
    }
  }

  /** Filtering goes element by element, so the kept elements stay in their order. */
  lemma {:induction false} WithoutAppend(a: seq<int>, b: seq<int>, index: int)
    ensures Without(a + b, index) == Without(a, index) + Without(b, index)
  {
    if |b| > 0 {
      var init := b[..|b| - 1];
      WithoutAppend(a, init, index);
      assert (a + b)[..|a + b| - 1] == a + init;
    } else {
      assert a + b == a;
    }
  }

  /** Filtering out an index that is absent changes nothing. */
  lemma {:induction false} WithoutAbsent(selected: seq<int>, index: int)
    requires index !in selected
    ensures Without(selected, index) == selected
  {
    if |selected| > 0 {
      WithoutAbsent(selected[..|selected| - 1], index);
      assert selected == selected[..|selected| - 1] + [selected[|selected| - 1]];
    }
  }

  /**
    A selected index is removed with every copy of it, the other elements keeping
    their multiplicities; an unselected one is appended at the end.
   */
  lemma ToggleRule(selected: seq<int>, index: int)
    ensures index in selected ==> index !in Toggle(selected, index)
    ensures index in selected ==>
              forall x :: x != index ==> multiset(Toggle(selected, index))[x] == multiset(selected)[x]
    ensures index !in selected ==> Toggle(selected, index) == selected + [index]
  {
    WithoutCounts(selected, index);
  }

  /** Only the toggled index changes membership. */
  lemma ToggleMembership(selected: seq<int>, index: int)
    ensures index in Toggle(selected, index) <==> index !in selected
    ensures forall x :: x != index ==> (x in Toggle(selected, index) <==> x in selected)
  {
  }

  /** Toggling an unselected option twice restores the selection. */
  lemma ToggleTwice(selected: seq<int>, index: int)
    requires index !in selected
    ensures Toggle(Toggle(selected, index), index) == selected
  {
    WithoutAppend(selected, [index], index);
    WithoutAbsent(selected, index);
    assert Without([index], index) == [] by {
      assert [index][..0] == [];
    }
  }

  /** Toggling a selected option twice moves it to the end, once. */
  lemma ToggleSelectedTwice(selected: seq<int>, index: int)
    requires index in selected
    ensures Toggle(Toggle(selected, index), index) == Without(selected, index) + [index]
  {
  }

  /** Deselecting the only selected option leaves the empty selection. */
  lemma DeselectLast(index: int)
    ensures Toggle([index], index) == []
  {
    assert [index][..0] == [];
  }

  /**
    The empty multiple selection left by deselecting the last option is treated
    three ways: it counts as answered, it is shown as "Not Attempted", and it is
    graded as an attempt — right only for an empty key, and otherwise earning
    the incorrect marks, never the unattempted ones.
   */
  lemma EmptySelection(q: Question, states: ExamStore.States, id: string, index: int,
                       render: real -> string)
    requires id in states && states[id].answer == AnswerMulti(Toggle([index], index))
    requires q.correctAnswer.CorrectMulti?
    ensures ExamStore.IsAnswered(states[id].answer)
    ensures id in ExamStore.AnsweredIn(states, states.Keys)
    ensures AnswerFormat.FormatUserAnswer(q, states[id].answer, render) == AnswerFormat.NotAttempted
    ensures Grading.EvaluateQuestion(q, states[id].answer).isCorrect
            <==> Grading.AsSet(q.correctAnswer.correctOptionIndices) == {}
    ensures Grading.AsSet(q.correctAnswer.correctOptionIndices) != {} ==>
              Grading.EvaluateQuestion(q, states[id].answer) == Grading.Grade(false, q.marksScheme.marksIncorrect)
  {
    DeselectLast(index);
    Grading.MultiChoiceRule(q, []);
    assert Grading.AsSet([]) == {};
  }
}
