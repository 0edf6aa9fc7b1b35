/**
  The exam-attempt store: the loaded paper, its flattened question list, the
  lifecycle status, the current position, the per-question attempt states, the
  countdown and the view-start anchor used for time accounting. The wall clock
  is the parameter `now` (milliseconds); an anchor of 0 or less means "no anchor".
 */
module ExamStore {
  import opened ExamTypes
  import JsNumber

  type States = map<string, QuestionAttemptState>

  // ---------------------------------------------------------------------------
  // flattenQuestions

  function Entry(q: Question, section: Section, globalIndex: int): FlattenedQuestion {
    FlattenedQuestion(q, section.sectionId, section.title, globalIndex)
  }

  /** The number of questions in a list of sections. */
  function QuestionCount(sections: seq<Section>): nat {
    if |sections| == 0 then 0
    else QuestionCount(sections[..|sections| - 1]) + |sections[|sections| - 1].questions|
  }

  /** The entries of one section, numbered from `start`. */
  function SectionEntries(section: Section, start: int): (r: seq<FlattenedQuestion>)
    ensures |r| == |section.questions|
    ensures forall j :: 0 <= j < |r| ==> r[j] == Entry(section.questions[j], section, start + j)
  {
    seq(|section.questions|, j requires 0 <= j < |section.questions| => Entry(section.questions[j], section, start + j))
  }

  /** All questions in section order, then in-section order; each numbered by its position. */
  function Flatten(sections: seq<Section>): (r: seq<FlattenedQuestion>)
    ensures |r| == QuestionCount(sections)
    ensures forall i :: 0 <= i < |r| ==> r[i].globalIndex == i
  {
    if |sections| == 0 then []
    else
      var init := sections[..|sections| - 1];
      Flatten(init) + SectionEntries(sections[|sections| - 1], QuestionCount(init))
  }

  /**
    Question `j` of section `k` sits in the flattened list right after the questions
    of the sections before `k`, carries its section's id and title, and is numbered
    by that position.
   */
  lemma {:induction false} FlattenAt(sections: seq<Section>, k: int, j: int)
    requires 0 <= k < |sections| && 0 <= j < |sections[k].questions|
    ensures QuestionCount(sections[..k]) + j < |Flatten(sections)|
    ensures Flatten(sections)[QuestionCount(sections[..k]) + j]
         == FlattenedQuestion(sections[k].questions[j], sections[k].sectionId, sections[k].title,
                              QuestionCount(sections[..k]) + j)
  {
    var init := sections[..|sections| - 1];
    var tail := SectionEntries(sections[|sections| - 1], QuestionCount(init));
    assert Flatten(sections) == Flatten(init) + tail;
    if k < |sections| - 1 {
      FlattenAt(init, k, j);
      assert init[..k] == sections[..k];
      assert Flatten(sections)[QuestionCount(sections[..k]) + j] == Flatten(init)[QuestionCount(sections[..k]) + j];
    } else {
      assert sections[..k] == init;
      assert Flatten(sections)[QuestionCount(init) + j] == tail[j];
    }
  }

  /** `flattenQuestions`: the nested loop that pushes one entry per question. */
  method FlattenQuestions(paper: ExamPaper) returns (flattened: seq<FlattenedQuestion>)
    ensures flattened == Flatten(paper.sections)
  {
    flattened := [];
    var globalIndex := 0;
    for k := 0 to |paper.sections|
      invariant flattened == Flatten(paper.sections[..k])
      invariant globalIndex == |flattened|
    {
      var section := paper.sections[k];
      ghost var before := flattened;
      for j := 0 to |section.questions|
        invariant flattened == before + SectionEntries(section, |before|)[..j]
        invariant globalIndex == |flattened|
      {
        flattened := flattened + [Entry(section.questions[j], section, globalIndex)];
        globalIndex := globalIndex + 1;
      }
      assert paper.sections[..k + 1][..k] == paper.sections[..k];
    }
    assert paper.sections[..|paper.sections|] == paper.sections;
  }

  // ---------------------------------------------------------------------------
  // Per-question state

  function InitialQuestionState(questionId: string): QuestionAttemptState {
    QuestionAttemptState(questionId, AnswerNone, 0, false, false)
  }

  /** The ids of a list of flattened questions. */
  function QuestionIds(questions: seq<FlattenedQuestion>): set<string> {
    if |questions| == 0 then {}
    else QuestionIds(questions[..|questions| - 1]) + {questions[|questions| - 1].question.questionId}
  }

  /** The ids are exactly those of the listed questions. */
  lemma {:induction false} QuestionIdsMembers(questions: seq<FlattenedQuestion>, id: string)
    ensures id in QuestionIds(questions) <==> exists i :: 0 <= i < |questions| && questions[i].question.questionId == id
  {
    if |questions| > 0 {
      var init := questions[..|questions| - 1];
      QuestionIdsMembers(init, id);
      if id in QuestionIds(init) {
        var i :| 0 <= i < |init| && init[i].question.questionId == id;
        assert questions[i] == init[i];
      }
      if exists i :: 0 <= i < |questions| && questions[i].question.questionId == id {
        var i :| 0 <= i < |questions| && questions[i].question.questionId == id;
        if i < |init| {
          assert init[i] == questions[i];
        }
      }
    }
  }

  /** The map `loadExam` builds: one initial state per question id. */
  method InitialStates(questions: seq<FlattenedQuestion>) returns (states: States)
    ensures states.Keys == QuestionIds(questions)
    ensures forall id :: id in states ==> states[id] == InitialQuestionState(id)
  {
    states := map[];
    for i := 0 to |questions|
      invariant states.Keys == QuestionIds(questions[..i])
      invariant forall id :: id in states ==> states[id] == InitialQuestionState(id)
    {
      var id := questions[i].question.questionId;
      states := states[id := InitialQuestionState(id)];
      assert questions[..i + 1][..i] == questions[..i];
    }
    assert questions[..|questions|] == questions;
  }

  /** Every state is filed under its own question id. */
  ghost predicate KeyedById(states: States) {
    forall id :: id in states ==> states[id].questionId == id
  }

  /** `answer.type !== 'none'`. */
  predicate IsAnswered(a: UserAnswer) {
    a.Kind() != None
  }

  /** Sets the visited flag of `id`; an unknown id changes nothing. */
  function MarkVisited(states: States, id: string): States {
    if id in states then states[id := states[id].(visited := true)] else states
  }

  /** Only the named state changes, to visited; the keys, the keying by id and the other states are kept. */
  lemma MarkVisitedEffect(states: States, id: string)
    ensures var r := MarkVisited(states, id);
            && r.Keys == states.Keys
            && (forall k :: k in r && k != id ==> r[k] == states[k])
            && (id in states ==> r[id] == states[id].(visited := true))
            && (KeyedById(states) ==> KeyedById(r))
  {
  }

  /** Adds `delta` seconds to the time of `id`; an unknown id changes nothing. */
  function AddTime(states: States, id: string, delta: int): States {
    if id in states then states[id := states[id].(timeSpentSeconds := states[id].timeSpentSeconds + delta)] else states
  }

  /** Only the named state changes, its time growing by `delta`; the keys, the keying by id and the other states are kept. */
  lemma AddTimeEffect(states: States, id: string, delta: int)
    ensures var r := AddTime(states, id, delta);
            && r.Keys == states.Keys
            && (forall k :: k in r && k != id ==> r[k] == states[k])
            && (id in states ==> r[id] == states[id].(timeSpentSeconds := states[id].timeSpentSeconds + delta))
            && (KeyedById(states) ==> KeyedById(r))
  {
  }

  /** Replaces the answer of `id`; an unknown id changes nothing. */
  function UpdateAnswer(states: States, id: string, answer: UserAnswer): States {
    if id in states then states[id := states[id].(answer := answer)] else states
  }

  /** Only the named state changes, to the given answer; the keys, the keying by id and the other states are kept. */
  lemma UpdateAnswerEffect(states: States, id: string, answer: UserAnswer)
    ensures var r := UpdateAnswer(states, id, answer);
            && r.Keys == states.Keys
            && (forall k :: k in r && k != id ==> r[k] == states[k])
            && (id in states ==> r[id] == states[id].(answer := answer))
            && (KeyedById(states) ==> KeyedById(r))
  {
  }

  /** Negates the review flag of `id`; an unknown id changes nothing. */
  function FlipMark(states: States, id: string): States {
    if id in states then states[id := states[id].(markedForReview := !states[id].markedForReview)] else states
  }

  /** Only the named state changes, its review flag negated; the keys, the keying by id and the other states are kept. */
  lemma FlipMarkEffect(states: States, id: string)
    ensures var r := FlipMark(states, id);
            && r.Keys == states.Keys
            && (forall k :: k in r && k != id ==> r[k] == states[k])
            && (id in states ==> r[id] == states[id].(markedForReview := !states[id].markedForReview))
            && (KeyedById(states) ==> KeyedById(r))
  {
  }

  /** Toggling the review flag twice restores every state. */
  lemma FlipMarkTwice(states: States, id: string)
    ensures FlipMark(FlipMark(states, id), id) == states
  {
    if id in states {
      assert FlipMark(FlipMark(states, id), id)[id] == states[id];
    }
  }

  /** `Math.floor((now - anchor) / 1000)`: the whole seconds elapsed since the anchor. */
  function ElapsedSeconds(now: int, anchor: int): (r: int)
    ensures 1000 * r <= now - anchor < 1000 * (r + 1)
  {
    (now - anchor) / 1000
  }

  /**
    The state map after `recordTimeSpent`: the seconds elapsed since the anchor are
    added to the current question, unless there are no questions or no anchor.
   */
  function CommitTime(questions: seq<FlattenedQuestion>, states: States, index: int, anchor: int, now: int): States
    requires |questions| == 0 || 0 <= index < |questions|
  {
    if |questions| == 0 || anchor <= 0 then states
    else AddTime(states, questions[index].question.questionId, ElapsedSeconds(now, anchor))
  }

  /**
    Nothing changes without questions or with an anchor of at most 0; otherwise only
    the current question's time grows, by the elapsed seconds. The keys and the keying
    by id are kept.
   */
  lemma CommitTimeEffect(questions: seq<FlattenedQuestion>, states: States, index: int, anchor: int, now: int)
    requires |questions| == 0 || 0 <= index < |questions|
    ensures var r := CommitTime(questions, states, index, anchor, now);
            && r.Keys == states.Keys
            && (KeyedById(states) ==> KeyedById(r))
            && (|questions| == 0 || anchor <= 0 ==> r == states)
            && (|questions| > 0 && anchor > 0 ==>
                  var id := questions[index].question.questionId;
                  (forall k :: k in r && k != id ==> r[k] == states[k]) &&
                  (id in states ==> r[id].timeSpentSeconds == states[id].timeSpentSeconds + ElapsedSeconds(now, anchor)
                                    && r[id] == states[id].(timeSpentSeconds := r[id].timeSpentSeconds)))
  {
    if |questions| > 0 && anchor > 0 {
      AddTimeEffect(states, questions[index].question.questionId, ElapsedSeconds(now, anchor));
    }
  }

  /**
    Committing twice without moving the anchor counts the elapsed time twice:
    `recordTimeSpent` never resets `lastViewStart`.
   */
  lemma {:induction false} CommitTwiceCountsTwice(questions: seq<FlattenedQuestion>, states: States, index: int, anchor: int, now: int)
    requires 0 <= index < |questions| && anchor > 0
    requires questions[index].question.questionId in states
    ensures var id := questions[index].question.questionId;
            var twice := CommitTime(questions, CommitTime(questions, states, index, anchor, now), index, anchor, now);
            twice == AddTime(states, id, 2 * ElapsedSeconds(now, anchor)) &&
            twice[id].timeSpentSeconds == states[id].timeSpentSeconds + 2 * ElapsedSeconds(now, anchor)
  {
    var id := questions[index].question.questionId;
    var d := ElapsedSeconds(now, anchor);
    var once := AddTime(states, id, d);
    assert AddTime(once, id, d) == AddTime(states, id, 2 * d) by {
      assert AddTime(once, id, d)[id] == AddTime(states, id, 2 * d)[id];
    }
  }

  /**
    Navigation ends a view at one clock read and starts the next at a later one: the
    whole seconds credited to the two views never exceed those of the whole span.
   */
  lemma SplitViewsUndercount(anchor: int, commitNow: int, viewNow: int, now: int)
    requires anchor <= commitNow <= viewNow <= now
    ensures ElapsedSeconds(commitNow, anchor) + ElapsedSeconds(now, viewNow) <= ElapsedSeconds(now, anchor)
  {
    var x, y := ElapsedSeconds(commitNow, anchor), ElapsedSeconds(now, viewNow);
    assert 1000 * (x + y) <= now - anchor;
    var z := ElapsedSeconds(now, anchor);
    assert now - anchor < 1000 * (z + 1);
  }

  /** With a clock that has not gone backwards, committing never lowers a recorded time. */
  lemma CommitTimeMonotone(questions: seq<FlattenedQuestion>, states: States, index: int, anchor: int, now: int)
    requires |questions| == 0 || 0 <= index < |questions|
    requires now >= anchor
    ensures forall k :: k in states ==>
              CommitTime(questions, states, index, anchor, now)[k].timeSpentSeconds >= states[k].timeSpentSeconds
  {
  }

  /** The navigation-panel status of a question, from its state (absent: not visited). */
  function StatusOf(state: Option<QuestionAttemptState>): QuestionStatus {
    match state
    case None => NotVisited
    case Some(s) =>
      var hasAnswer := IsAnswered(s.answer);
      var isMarked := s.markedForReview;
      if hasAnswer && isMarked then AnsweredAndMarked
      else if isMarked then MarkedForReview
      else if hasAnswer then Answered
      else if s.visited then NotAnswered
      else NotVisited
  }

  /**
    The status table read backwards: the status tells whether the question is
    answered and whether it is marked, and it is "not visited" exactly for an
    unanswered, unmarked, unvisited question.
   */
  lemma StatusDecodes(s: QuestionAttemptState)
    ensures IsAnswered(s.answer) <==> StatusOf(Some(s)) in {Answered, AnsweredAndMarked}
    ensures s.markedForReview <==> StatusOf(Some(s)) in {MarkedForReview, AnsweredAndMarked}
    ensures StatusOf(Some(s)) == NotVisited <==> !IsAnswered(s.answer) && !s.markedForReview && !s.visited
    ensures StatusOf(Some(s)) == NotAnswered <==> !IsAnswered(s.answer) && !s.markedForReview && s.visited
  {
  }

  /** The ids among `keys` whose state holds an answer. */
  function AnsweredIn(states: States, keys: set<string>): set<string> {
    set id | id in keys && id in states && IsAnswered(states[id].answer)
  }

  /** The ids among `keys` whose state is marked for review. */
  function MarkedIn(states: States, keys: set<string>): set<string> {
    set id | id in keys && id in states && states[id].markedForReview
  }

  /** Adding one more id to the keys looked at adds it to the answered ids exactly when its state is answered. */
  lemma AnsweredAdd(states: States, done: set<string>, id: string)
    requires id !in done && id in states
    ensures |AnsweredIn(states, done + {id})| == |AnsweredIn(states, done)| + (if IsAnswered(states[id].answer) then 1 else 0)
  {
    assert AnsweredIn(states, done + {id})
        == AnsweredIn(states, done) + (if IsAnswered(states[id].answer) then {id} else {});
  }

  /** Adding one more id to the keys looked at adds it to the marked ids exactly when its state is marked. */
  lemma MarkedAdd(states: States, done: set<string>, id: string)
    requires id !in done && id in states
    ensures |MarkedIn(states, done + {id})| == |MarkedIn(states, done)| + (if states[id].markedForReview then 1 else 0)
  {
    assert MarkedIn(states, done + {id})
        == MarkedIn(states, done) + (if states[id].markedForReview then {id} else {});
  }

  /** Moving one element from the ids still to visit to the visited ones keeps their union and disjointness. */
  lemma MoveOne(remaining: set<string>, done: set<string>, id: string)
    requires id in remaining && remaining !! done
    ensures (remaining - {id}) + (done + {id}) == remaining + done
    ensures (remaining - {id}) !! (done + {id})
    ensures |done + {id}| == |done| + 1 && |remaining - {id}| < |remaining|
  {
  }

  // ---------------------------------------------------------------------------
  // The store

  class Store {
    var paper: Option<ExamPaper>
    var questions: seq<FlattenedQuestion>
    var status: ExamStatus
    var currentQuestionIndex: int
    var questionStates: States
    var remainingTimeSeconds: int
    var lastViewStart: int

    /**
      What every action preserves: the position is on a question (or 0 when there is
      none), the list is numbered by position, there is exactly one state per question
      id, filed under that id, and only an exam with questions has left `NotStarted`.
     */
    ghost predicate Valid()
      reads this
    {
      && 0 <= currentQuestionIndex
      && (currentQuestionIndex == 0 || currentQuestionIndex < |questions|)
      && (forall i :: 0 <= i < |questions| ==> questions[i].globalIndex == i)
      && questionStates.Keys == QuestionIds(questions)
      && KeyedById(questionStates)
      && (status != NotStarted ==> |questions| > 0)
    }

    /** The id of the question at the current position. */
    function CurrentId(): string
      reads this
      requires Valid() && |questions| > 0
    {
      questions[currentQuestionIndex].question.questionId
    }

    /** The store's initial state. */
    constructor ()
      ensures Valid()
      ensures paper == None && questions == [] && status == NotStarted && currentQuestionIndex == 0
      ensures questionStates == map[] && remainingTimeSeconds == 0 && lastViewStart == 0
    {
      paper := None;
      questions := [];
      status := NotStarted;
      currentQuestionIndex := 0;
      questionStates := map[];
      remainingTimeSeconds := 0;
      lastViewStart := 0;
    }

    /** `loadExam`: replaces the session by a fresh one for `p`; the anchor is left as it was. */
    method LoadExam(p: ExamPaper)
      requires Valid()
      modifies this
      ensures Valid()
      ensures paper == Some(p) && questions == Flatten(p.sections)
      ensures questionStates.Keys == QuestionIds(questions)
      ensures forall id :: id in questionStates ==> questionStates[id] == InitialQuestionState(id)
      ensures remainingTimeSeconds == p.durationMinutes * 60
      ensures status == NotStarted && currentQuestionIndex == 0
      ensures lastViewStart == old(lastViewStart)
    {
      var qs := FlattenQuestions(p);
      var states := InitialStates(qs);
      paper := Some(p);
      questions := qs;
      questionStates := states;
      remainingTimeSeconds := p.durationMinutes * 60;
      status := NotStarted;
      currentQuestionIndex := 0;
    }

    /**
      `startExam`: with no questions nothing happens; otherwise question 0 is marked
      visited, the status becomes `InProgress` whatever it was, and the anchor is set
      to `now`. The position is not reset.
     */
    method StartExam(now: int)
      requires Valid()
      modifies this
      ensures Valid()
      ensures |questions| == 0 ==> unchanged(this)
      ensures |questions| > 0 ==>
                && status == InProgress
                && lastViewStart == now
                && questionStates == MarkVisited(old(questionStates), questions[0].question.questionId)
      ensures paper == old(paper) && questions == old(questions)
      ensures currentQuestionIndex == old(currentQuestionIndex)
      ensures remainingTimeSeconds == old(remainingTimeSeconds)
    {
      if |questions| == 0 {
        return;
      }
      questionStates := MarkVisited(questionStates, questions[0].question.questionId);
      status := InProgress;
      lastViewStart := now;
    }

    /**
      `recordTimeSpent`: adds the whole seconds since the anchor to the current
      question. Nothing else changes; in particular the anchor stays where it was.
     */
    method RecordTimeSpent(now: int)
      requires Valid()
      modifies this
      ensures Valid()
      ensures questionStates == old(CommitTime(questions, questionStates, currentQuestionIndex, lastViewStart, now))
      ensures paper == old(paper) && questions == old(questions) && status == old(status)
      ensures currentQuestionIndex == old(currentQuestionIndex)
      ensures remainingTimeSeconds == old(remainingTimeSeconds)
      ensures lastViewStart == old(lastViewStart)
    {
      if |questions| == 0 {
        return;
      }
      var id := questions[currentQuestionIndex].question.questionId;
      if id in questionStates && lastViewStart > 0 {
        var state := questionStates[id];
        var delta := ElapsedSeconds(now, lastViewStart);
        questionStates := questionStates[id := state.(timeSpentSeconds := state.timeSpentSeconds + delta)];
      }
    }

    /**
      `goToQuestion`: a no-op unless `index` is a position and the exam is in progress;
      otherwise commits the time of the current question, marks `index` visited, and
      moves the position and the anchor. The clock is read twice: `commitNow` inside
      the time commit and `viewNow` for the new anchor, so the time between the two
      reads is counted for no question.
     */
    method GoToQuestion(index: int, commitNow: int, viewNow: int)
      requires Valid()
      modifies this
      ensures Valid()
      ensures paper == old(paper) && questions == old(questions) && status == old(status)
      ensures !(0 <= index < |old(questions)| && old(status) == InProgress) ==> unchanged(this)
      ensures 0 <= index < |old(questions)| && old(status) == InProgress ==>
                && questionStates == MarkVisited(
                     old(CommitTime(questions, questionStates, currentQuestionIndex, lastViewStart, commitNow)),
                     questions[index].question.questionId)
                && currentQuestionIndex == index
                && lastViewStart == viewNow
      ensures remainingTimeSeconds == old(remainingTimeSeconds)
    {
      if index < 0 || index >= |questions| || status != InProgress {
        return;
      }
      RecordTimeSpent(commitNow);
      questionStates := MarkVisited(questionStates, questions[index].question.questionId);
      currentQuestionIndex := index;
      lastViewStart := viewNow;
    }

    /** `nextQuestion`: moves one position forward, except from the last question. */
    method NextQuestion(commitNow: int, viewNow: int)
      requires Valid()
      modifies this
      ensures Valid()
      ensures paper == old(paper) && questions == old(questions) && status == old(status)
      ensures var moves := old(currentQuestionIndex) < |old(questions)| - 1 && old(status) == InProgress;
              && (moves ==> currentQuestionIndex == old(currentQuestionIndex) + 1 && lastViewStart == viewNow
                            && questionStates == MarkVisited(
                                 old(CommitTime(questions, questionStates, currentQuestionIndex, lastViewStart, commitNow)),
                                 questions[currentQuestionIndex].question.questionId))
              && (!moves ==> unchanged(this))
      ensures remainingTimeSeconds == old(remainingTimeSeconds)
    {
      if currentQuestionIndex < |questions| - 1 {
        GoToQuestion(currentQuestionIndex + 1, commitNow, viewNow);
      }
    }

    /** `previousQuestion`: moves one position back, except from the first question. */
    method PreviousQuestion(commitNow: int, viewNow: int)
      requires Valid()
      modifies this
      ensures Valid()
      ensures paper == old(paper) && questions == old(questions) && status == old(status)
      ensures var moves := old(currentQuestionIndex) > 0 && old(status) == InProgress;
              && (moves ==> currentQuestionIndex == old(currentQuestionIndex) - 1 && lastViewStart == viewNow
                            && questionStates == MarkVisited(
                                 old(CommitTime(questions, questionStates, currentQuestionIndex, lastViewStart, commitNow)),
                                 questions[currentQuestionIndex].question.questionId))
              && (!moves ==> unchanged(this))
      ensures remainingTimeSeconds == old(remainingTimeSeconds)
    {
      if currentQuestionIndex > 0 {
        GoToQuestion(currentQuestionIndex - 1, commitNow, viewNow);
      }
    }

    /** `setAnswer`: stores `answer` for `questionId` in every status, including after submission. */
    method SetAnswer(questionId: string, answer: UserAnswer)
      requires Valid()
      modifies this
      ensures Valid()
      ensures questionStates == UpdateAnswer(old(questionStates), questionId, answer)
      ensures paper == old(paper) && questions == old(questions) && status == old(status)
      ensures currentQuestionIndex == old(currentQuestionIndex)
      ensures remainingTimeSeconds == old(remainingTimeSeconds) && lastViewStart == old(lastViewStart)
    {
      if questionId in questionStates {
        var state := questionStates[questionId];
        questionStates := questionStates[questionId := state.(answer := answer)];
      }
    }

    /** `clearAnswer`: sets the answer of `questionId` back to none, in every status. */
    method ClearAnswer(questionId: string)
      requires Valid()
      modifies this
      ensures Valid()
      ensures questionStates == UpdateAnswer(old(questionStates), questionId, AnswerNone)
      ensures paper == old(paper) && questions == old(questions) && status == old(status)
      ensures currentQuestionIndex == old(currentQuestionIndex)
      ensures remainingTimeSeconds == old(remainingTimeSeconds) && lastViewStart == old(lastViewStart)
    {
      if questionId in questionStates {
        var state := questionStates[questionId];
        questionStates := questionStates[questionId := state.(answer := AnswerNone)];
      }
    }

    /** `toggleMarkForReview`: flips the review flag of `questionId`, in every status. */
    method ToggleMarkForReview(questionId: string)
      requires Valid()
      modifies this
      ensures Valid()
      ensures questionStates == FlipMark(old(questionStates), questionId)
      ensures paper == old(paper) && questions == old(questions) && status == old(status)
      ensures currentQuestionIndex == old(currentQuestionIndex)
      ensures remainingTimeSeconds == old(remainingTimeSeconds) && lastViewStart == old(lastViewStart)
    {
      if questionId in questionStates {
        var state := questionStates[questionId];
        questionStates := questionStates[questionId := state.(markedForReview := !state.markedForReview)];
      }
    }

    /** `submitExam`: a no-op unless in progress; otherwise the final time commit, then `Submitted`. */
    method SubmitExam(now: int)
      requires Valid()
      modifies this
      ensures Valid()
      ensures old(status) != InProgress ==> unchanged(this)
      ensures old(status) == InProgress ==>
                && status == Submitted
                && questionStates == old(CommitTime(questions, questionStates, currentQuestionIndex, lastViewStart, now))
      ensures paper == old(paper) && questions == old(questions)
      ensures currentQuestionIndex == old(currentQuestionIndex)
      ensures remainingTimeSeconds == old(remainingTimeSeconds) && lastViewStart == old(lastViewStart)
    {
      if status != InProgress {
        return;
      }
      RecordTimeSpent(now);
      status := Submitted;
    }

    /**
      `updateRemainingTime`: stores `max(0, seconds)`; at zero or below it submits,
      so a timeout during an attempt always ends in `Submitted`.
     */
    method UpdateRemainingTime(seconds: int, now: int)
      requires Valid()
      modifies this
      ensures Valid()
      ensures remainingTimeSeconds == JsNumber.Max(0, seconds)
      ensures seconds <= 0 && old(status) == InProgress ==>
                && status == Submitted
                && questionStates == old(CommitTime(questions, questionStates, currentQuestionIndex, lastViewStart, now))
      ensures !(seconds <= 0 && old(status) == InProgress) ==>
                status == old(status) && questionStates == old(questionStates)
      ensures paper == old(paper) && questions == old(questions)
      ensures currentQuestionIndex == old(currentQuestionIndex) && lastViewStart == old(lastViewStart)
    {
      remainingTimeSeconds := JsNumber.Max(0, seconds);
      if seconds <= 0 {
        SubmitExam(now);
      }
    }

    /** `resetExam`: back to the initial state. */
    method ResetExam()
      requires Valid()
      modifies this
      ensures Valid()
      ensures paper == None && questions == [] && status == NotStarted && currentQuestionIndex == 0
      ensures questionStates == map[] && remainingTimeSeconds == 0 && lastViewStart == 0
    {
      paper := None;
      questions := [];
      status := NotStarted;
      currentQuestionIndex := 0;
      questionStates := map[];
      remainingTimeSeconds := 0;
      lastViewStart := 0;
    }

    /** `getQuestionState`: the state of `questionId`, if the exam has that question. */
    function GetQuestionState(questionId: string): (r: Option<QuestionAttemptState>)
      reads this
      ensures r.Some? <==> questionId in questionStates
      ensures r.Some? ==> r.value == questionStates[questionId]
    {
      if questionId in questionStates then Some(questionStates[questionId]) else None
    }

    /** `getQuestionStatus`: the navigation-panel status of `questionId`. */
    function GetQuestionStatus(questionId: string): (r: QuestionStatus)
      reads this
      ensures questionId !in questionStates ==> r == NotVisited
      ensures questionId in questionStates ==> r == StatusOf(Some(questionStates[questionId]))
    {
      StatusOf(GetQuestionState(questionId))
    }

    /** `getCurrentQuestion`: the question at the current position, none when the list is empty. */
    function GetCurrentQuestion(): (r: Option<FlattenedQuestion>)
      reads this
      requires Valid()
      ensures r.Some? <==> |questions| > 0
      ensures r.Some? ==> r.value == questions[currentQuestionIndex] && r.value.globalIndex == currentQuestionIndex
    {
      if |questions| > 0 then Some(questions[currentQuestionIndex]) else None
    }

    /** `getTotalAnswered`: the number of states whose answer is not none. */
    method GetTotalAnswered() returns (count: nat)
      ensures count == |AnsweredIn(questionStates, questionStates.Keys)|
      ensures count <= |questionStates|
    {
      var states := questionStates;
      count := 0;
      var remaining := states.Keys;
      ghost var done: set<string> := {};
      while remaining != {}
        invariant remaining + done == states.Keys && remaining !! done
        invariant count == |AnsweredIn(states, done)|
        invariant count <= |done|
        decreases |remaining|
      {
        var id :| id in remaining;
        AnsweredAdd(states, done, id);
        MoveOne(remaining, done, id);
        if IsAnswered(states[id].answer) {
          count := count + 1;
        }
        remaining := remaining - {id};
        done := done + {id};
      }
      assert done == states.Keys;
    }

    /** `getTotalMarkedForReview`: the number of states marked for review. */
    method GetTotalMarkedForReview() returns (count: nat)
      ensures count == |MarkedIn(questionStates, questionStates.Keys)|
      ensures count <= |questionStates|
    {
      var states := questionStates;
      count := 0;
      var remaining := states.Keys;
      ghost var done: set<string> := {};
      while remaining != {}
        invariant remaining + done == states.Keys && remaining !! done
        invariant count == |MarkedIn(states, done)|
        invariant count <= |done|
        decreases |remaining|
      {
        var id :| id in remaining;
        MarkedAdd(states, done, id);
        MoveOne(remaining, done, id);
        if states[id].markedForReview {
          count := count + 1;
        }
        remaining := remaining - {id};
        done := done + {id};
      }
      assert done == states.Keys;
    }
  }
}
