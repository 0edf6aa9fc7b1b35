/**
  `calculateTopicStats`: every counted question adds itself to each topic it lists,
  the per-topic records then get their accuracy, average time and strength, and the
  records are sorted by the number of questions, most first.
 */
module TopicReport {
  import opened ExamTypes
  import JsNumber
  import StableSort
  import ExamStore

  type Results = map<string, QuestionEvaluationResult>

  /** What one listing of a topic by one question adds to that topic's record. */
  datatype Contribution = Contribution(question: Question, state: QuestionAttemptState, result: QuestionEvaluationResult)

  predicate IsBlank(c: Contribution) {
    c.state.answer == AnswerNone
  }

  predicate IsRight(c: Contribution) {
    !IsBlank(c) && c.result.isCorrect
  }

  predicate IsWrong(c: Contribution) {
    !IsBlank(c) && !c.result.isCorrect
  }

  /** The marks a contribution adds to `marksObtained`: its result's marks, but only when attempted. */
  function AttemptMarks(c: Contribution): real {
    if IsBlank(c) then 0.0 else c.result.marksObtained
  }

  function MaxMarksOf(c: Contribution): real {
    c.question.marksScheme.marksCorrect
  }

  function TimeOf(c: Contribution): int {
    c.state.timeSpentSeconds
  }

  function Count(cs: seq<Contribution>, p: Contribution -> bool): nat {
    if |cs| == 0 then 0 else Count(cs[..|cs| - 1], p) + (if p(cs[|cs| - 1]) then 1 else 0)
  }

  function SumReal(cs: seq<Contribution>, f: Contribution -> real): real {
    if |cs| == 0 then 0.0 else SumReal(cs[..|cs| - 1], f) + f(cs[|cs| - 1])
  }

  function SumInt(cs: seq<Contribution>, f: Contribution -> int): int {
    if |cs| == 0 then 0 else SumInt(cs[..|cs| - 1], f) + f(cs[|cs| - 1])
  }

  /** The record a topic starts from when it is first seen. */
  function FreshStats(topic: string): TopicStats {
    TopicStats(topic, 0, 0, 0, 0, 0, 0.0, 0.0, 0.0, 0, 0, Moderate)
  }

  /**
    The increments of one contribution: one more question, its full marks and its
    time; then either one more unattempted, or one more attempted with its marks and
    one more correct or incorrect.
   */
  function Tally(s: TopicStats, c: Contribution): (r: TopicStats)
    ensures r.topic == s.topic
  {
    var counted := s.(totalQuestions := s.totalQuestions + 1,
                      maxMarks := s.maxMarks + c.question.marksScheme.marksCorrect,
                      totalTimeSeconds := s.totalTimeSeconds + c.state.timeSpentSeconds);
    if c.state.answer == AnswerNone then counted.(unattemptedCount := counted.unattemptedCount + 1)
    else
      var attempted := counted.(attemptedQuestions := counted.attemptedQuestions + 1,
                                marksObtained := counted.marksObtained + c.result.marksObtained);
      if c.result.isCorrect then attempted.(correctCount := attempted.correctCount + 1)
      else attempted.(incorrectCount := attempted.incorrectCount + 1)
  }

  /** The record after a run of contributions, tallied in order. */
  function Fold(s: TopicStats, cs: seq<Contribution>): TopicStats {
    if |cs| == 0 then s else Tally(Fold(s, cs[..|cs| - 1]), cs[|cs| - 1])
  }

  /** A record after a run of contributions: each counter has grown by its count or sum over the run. */
  lemma {:induction false} FoldCounts(s: TopicStats, cs: seq<Contribution>)
    ensures var r := Fold(s, cs);
            && r.topic == s.topic
            && r.totalQuestions == s.totalQuestions + |cs|
            && r.unattemptedCount == s.unattemptedCount + Count(cs, IsBlank)
            && r.attemptedQuestions == s.attemptedQuestions + (|cs| - Count(cs, IsBlank))
            && r.correctCount == s.correctCount + Count(cs, IsRight)
            && r.incorrectCount == s.incorrectCount + Count(cs, IsWrong)
            && r.marksObtained == s.marksObtained + SumReal(cs, AttemptMarks)
            && r.maxMarks == s.maxMarks + SumReal(cs, MaxMarksOf)
            && r.totalTimeSeconds == s.totalTimeSeconds + SumInt(cs, TimeOf)
            && r.accuracy == s.accuracy && r.avgTimePerQuestion == s.avgTimePerQuestion && r.strength == s.strength
  {
    if |cs| > 0 {
      FoldCounts(s, cs[..|cs| - 1]);
    }
  }

  lemma {:induction false} FoldAppend(s: TopicStats, a: seq<Contribution>, b: seq<Contribution>)
    ensures Fold(Fold(s, a), b) == Fold(s, a + b)
  {
    if |b| == 0 {
      assert a + b == a;
    } else {
      FoldAppend(s, a, b[..|b| - 1]);
      assert (a + b)[..|a + b| - 1] == a + b[..|b| - 1];
    }
  }

  /** Every contribution is exactly one of blank, right or wrong. */
  lemma {:induction false} CountsPartition(cs: seq<Contribution>)
    ensures Count(cs, IsBlank) + Count(cs, IsRight) + Count(cs, IsWrong) == |cs|
  {
    if |cs| > 0 {
      CountsPartition(cs[..|cs| - 1]);
    }
  }

  /** The two counting identities of a topic record, with non-negative counters. */
  predicate Consistent(s: TopicStats) {
    && s.totalQuestions == s.attemptedQuestions + s.unattemptedCount
    && s.attemptedQuestions == s.correctCount + s.incorrectCount
    && s.correctCount >= 0 && s.incorrectCount >= 0 && s.unattemptedCount >= 0
  }

  lemma FoldConsistent(s: TopicStats, cs: seq<Contribution>)
    requires Consistent(s)
    ensures Consistent(Fold(s, cs))
  {
    FoldCounts(s, cs);
    CountsPartition(cs);
  }

  /** The same contribution `n` times. */
  function Repeat(c: Contribution, n: nat): (r: seq<Contribution>)
    ensures |r| == n
  {
    seq(n, _ => c)
  }

  lemma FoldRepeatStep(s: TopicStats, c: Contribution, n: nat)
    ensures Fold(s, Repeat(c, n + 1)) == Tally(Fold(s, Repeat(c, n)), c)
  {
    assert Repeat(c, n + 1)[..n] == Repeat(c, n);
  }

  /** How often `t` is listed in `ts`. */
  function Occurrences(ts: seq<string>, t: string): (r: nat)
    ensures r > 0 <==> t in ts
  {
    if |ts| == 0 then 0
    else
      assert ts == ts[..|ts| - 1] + [ts[|ts| - 1]];
      Occurrences(ts[..|ts| - 1], t) + (if ts[|ts| - 1] == t then 1 else 0)
  }

  predicate Distinct(s: seq<string>) {
    forall i, j :: 0 <= i < j < |s| ==> s[i] != s[j]
  }

  /** `order` extended by the elements of `ts` it does not hold yet, in first-seen order. */
  function AppendNew(order: seq<string>, ts: seq<string>): seq<string> {
    if |ts| == 0 then order
    else
      var p := AppendNew(order, ts[..|ts| - 1]);
      var x := ts[|ts| - 1];
      if x in p then p else p + [x]
  }

  /** The extended order holds the old order and the new elements, each once, the old order first. */
  lemma {:induction false} AppendNewShape(order: seq<string>, ts: seq<string>)
    ensures var r := AppendNew(order, ts);
            && (forall u :: u in r <==> u in order || u in ts)
            && (Distinct(order) ==> Distinct(r))
            && |order| <= |r| && r[..|order|] == order
  {
    if |ts| > 0 {
      AppendNewShape(order, ts[..|ts| - 1]);
      assert ts == ts[..|ts| - 1] + [ts[|ts| - 1]];
    }
  }

  lemma {:induction false} AppendNewAppend(order: seq<string>, a: seq<string>, b: seq<string>)
    ensures AppendNew(AppendNew(order, a), b) == AppendNew(order, a + b)
  {
    if |b| == 0 {
      assert a + b == a;
    } else {
      AppendNewAppend(order, a, b[..|b| - 1]);
      assert (a + b)[..|a + b| - 1] == a + b[..|b| - 1];
    }
  }

  /** `topicMap`: the records by topic, and the order in which the topics were first inserted. */
  datatype TopicTable = TopicTable(order: seq<string>, stats: map<string, TopicStats>)

  ghost predicate WellFormed(tab: TopicTable) {
    && Distinct(tab.order)
    && (forall t :: t in tab.order <==> t in tab.stats)
    && (forall t :: t in tab.stats ==> tab.stats[t].topic == t)
  }

  /** One topic listed by one question: a fresh record first if the topic is new, then the increments. */
  function Add(tab: TopicTable, t: string, c: Contribution): TopicTable {
    if t in tab.stats then TopicTable(tab.order, tab.stats[t := Tally(tab.stats[t], c)])
    else TopicTable(tab.order + [t], tab.stats[t := Tally(FreshStats(t), c)])
  }

  /** The inner loop: every topic a question lists, in order; new topics join the order as first seen. */
  function TallyTopics(tab: TopicTable, ts: seq<string>, c: Contribution): TopicTable {
    if |ts| == 0 then tab else Add(TallyTopics(tab, ts[..|ts| - 1], c), ts[|ts| - 1], c)
  }

  /** The inner loop keeps the table well formed, and its order gains the new topics in first-seen order. */
  lemma {:induction false} TallyTopicsWellFormed(tab: TopicTable, ts: seq<string>, c: Contribution)
    requires WellFormed(tab)
    ensures WellFormed(TallyTopics(tab, ts, c)) && TallyTopics(tab, ts, c).order == AppendNew(tab.order, ts)
  {
    if |ts| > 0 {
      TallyTopicsWellFormed(tab, ts[..|ts| - 1], c);
      AppendNewShape(tab.order, ts[..|ts| - 1]);
    }
  }

  /** A question is counted only when it has both a state and an evaluation result. */
  predicate IsCounted(q: FlattenedQuestion, states: ExamStore.States, results: Results) {
    q.question.questionId in states && q.question.questionId in results
  }

  function ContributionOf(q: FlattenedQuestion, states: ExamStore.States, results: Results): Contribution
    requires IsCounted(q, states, results)
  {
    Contribution(q.question, states[q.question.questionId], results[q.question.questionId])
  }

  /** The outer loop: the table after all questions, well formed, its topics in the order first met. */
  function TallyQuestions(qs: seq<FlattenedQuestion>, states: ExamStore.States, results: Results): (tab: TopicTable)
    ensures WellFormed(tab)
    ensures tab.order == AppendNew([], TopicsSeen(qs, states, results))
  {
    if |qs| == 0 then TopicTable([], map[])
    else
      var init, q := qs[..|qs| - 1], qs[|qs| - 1];
      var tab := TallyQuestions(init, states, results);
      if IsCounted(q, states, results) then
        AppendNewAppend([], TopicsSeen(init, states, results), q.question.topics);
        TallyTopicsWellFormed(tab, q.question.topics, ContributionOf(q, states, results));
        TallyTopics(tab, q.question.topics, ContributionOf(q, states, results))
      else
        assert TopicsSeen(qs, states, results) == TopicsSeen(init, states, results) + [];
        assert TopicsSeen(init, states, results) + [] == TopicsSeen(init, states, results);
        tab
  }

  /** Reference for one topic: the contributions it receives, one per listing by a counted question. */
  function Contributions(qs: seq<FlattenedQuestion>, states: ExamStore.States, results: Results, t: string): seq<Contribution> {
    if |qs| == 0 then []
    else
      var q := qs[|qs| - 1];
      Contributions(qs[..|qs| - 1], states, results, t)
        + (if IsCounted(q, states, results)
           then Repeat(ContributionOf(q, states, results), Occurrences(q.question.topics, t))
           else [])
  }

  /** Reference for the order: the topics of the counted questions, in question order. */
  function TopicsSeen(qs: seq<FlattenedQuestion>, states: ExamStore.States, results: Results): seq<string> {
    if |qs| == 0 then []
    else
      var q := qs[|qs| - 1];
      TopicsSeen(qs[..|qs| - 1], states, results) + (if IsCounted(q, states, results) then q.question.topics else [])
  }

  function Base(tab: TopicTable, t: string): TopicStats {
    if t in tab.stats then tab.stats[t] else FreshStats(t)
  }

  /** The inner loop, seen from one topic: it receives one contribution per listing. */
  lemma {:induction false} TallyTopicsAt(tab: TopicTable, ts: seq<string>, c: Contribution, t: string)
    ensures var r := TallyTopics(tab, ts, c);
            && (t in r.stats <==> t in tab.stats || t in ts)
            && (t in r.stats ==> r.stats[t] == Fold(Base(tab, t), Repeat(c, Occurrences(ts, t))))
  {
    if |ts| > 0 {
      var init, x := ts[..|ts| - 1], ts[|ts| - 1];
      assert ts == init + [x];
      TallyTopicsAt(tab, init, c, t);
      var prev := TallyTopics(tab, init, c);
      var n := Occurrences(init, t);
      if x == t {
        FoldRepeatStep(Base(tab, t), c, n);
        if t !in prev.stats {
          assert Repeat(c, n) == [];
        }
      }
    }
  }

  /**
    Fan-out: a topic has a record exactly when some counted question lists it, and
    that record is the fresh record after all the topic's contributions.
   */
  lemma {:induction false} TallyQuestionsAt(qs: seq<FlattenedQuestion>, states: ExamStore.States, results: Results, t: string)
    ensures var tab := TallyQuestions(qs, states, results);
            && (t in tab.stats <==> |Contributions(qs, states, results, t)| > 0)
            && (t in tab.stats ==> tab.stats[t] == Fold(FreshStats(t), Contributions(qs, states, results, t)))
  {
    if |qs| > 0 {
      var init, q := qs[..|qs| - 1], qs[|qs| - 1];
      TallyQuestionsAt(init, states, results, t);
      var prev := TallyQuestions(init, states, results);
      var before := Contributions(init, states, results, t);
      if IsCounted(q, states, results) {
        var c := ContributionOf(q, states, results);
        assert Contributions(qs, states, results, t) == before + Repeat(c, Occurrences(q.question.topics, t));
        assert TallyQuestions(qs, states, results) == TallyTopics(prev, q.question.topics, c);
        QuestionStepAt(prev, before, q.question.topics, c, t);
      } else {
        assert Contributions(qs, states, results, t) == before + [];
        assert before + [] == before;
      }
    }
  }

  /** One counted question, seen from one topic: its listings extend the topic's contributions. */
  lemma QuestionStepAt(prev: TopicTable, before: seq<Contribution>, ts: seq<string>, c: Contribution, t: string)
    requires t in prev.stats <==> |before| > 0
    requires t in prev.stats ==> prev.stats[t] == Fold(FreshStats(t), before)
    ensures var r := TallyTopics(prev, ts, c);
            var after := before + Repeat(c, Occurrences(ts, t));
            && (t in r.stats <==> |after| > 0)
            && (t in r.stats ==> r.stats[t] == Fold(FreshStats(t), after))
  {
    var added := Repeat(c, Occurrences(ts, t));
    TallyTopicsAt(prev, ts, c, t);
    FoldAppend(FreshStats(t), before, added);
    if t !in prev.stats {
      assert before == [];
      assert before + added == added;
    }
  }

  /** A counted question that lists a topic gives that topic a record. */
  lemma {:induction false} ListedTopicsSeen(qs: seq<FlattenedQuestion>, states: ExamStore.States, results: Results, i: int, t: string)
    requires 0 <= i < |qs| && IsCounted(qs[i], states, results) && t in qs[i].question.topics
    ensures t in TopicsSeen(qs, states, results)
  {
    if i < |qs| - 1 {
      ListedTopicsSeen(qs[..|qs| - 1], states, results, i, t);
    }
  }

  /** `MIN_QUESTIONS_THRESHOLD`: fewer attempts than this leave the strength at moderate. */
  const MinQuestionsThreshold: int := 2

  /** The derived fields of the `forEach`: accuracy, average time and strength. */
  function Finalize(s: TopicStats): TopicStats {
    var accuracy := if s.attemptedQuestions > 0
      then s.correctCount as real / s.attemptedQuestions as real * 100.0
      else s.accuracy;
    var avg := if s.totalQuestions > 0
      then JsNumber.Round(s.totalTimeSeconds as real / s.totalQuestions as real)
      else s.avgTimePerQuestion;
    var strength := if s.attemptedQuestions >= MinQuestionsThreshold
      then (if accuracy >= 80.0 then Strong else if accuracy < 50.0 then Weak else Moderate)
      else s.strength;
    s.(accuracy := accuracy, avgTimePerQuestion := avg, strength := strength)
  }

  /** The accuracy percentage of `part` out of `whole`, and its two thresholds in integer form. */
  lemma RatioBounds(part: int, whole: int)
    requires 0 <= part <= whole && whole > 0
    ensures 0.0 <= part as real / whole as real * 100.0 <= 100.0
    ensures part as real / whole as real * 100.0 >= 80.0 <==> 5 * part >= 4 * whole
    ensures part as real / whole as real * 100.0 < 50.0 <==> 2 * part < whole
  {
    var p, w := part as real, whole as real;
    var q := p / w;
    JsNumber.QuotientAtMost(p, w, 1.0);
    JsNumber.QuotientAtLeast(p, w, 0.0);
    JsNumber.QuotientAtLeast(p, w, 0.8);
    JsNumber.QuotientAtLeast(p, w, 0.5);
    assert 0.0 <= q <= 1.0;
    assert q * 100.0 >= 80.0 <==> p >= 0.8 * w;
    assert q * 100.0 < 50.0 <==> p < 0.5 * w;
  }

  /** Finalizing keeps every counter and the sums. */
  lemma FinalizeKeeps(s: TopicStats)
    ensures var r := Finalize(s);
            && r.topic == s.topic && r.totalQuestions == s.totalQuestions
            && r.attemptedQuestions == s.attemptedQuestions && r.unattemptedCount == s.unattemptedCount
            && r.correctCount == s.correctCount && r.incorrectCount == s.incorrectCount
            && r.marksObtained == s.marksObtained && r.maxMarks == s.maxMarks
            && r.totalTimeSeconds == s.totalTimeSeconds
  {
  }

  /** Accuracy is 0 without attempts and otherwise the percentage correct, within [0, 100]. */
  lemma FinalizeAccuracy(s: TopicStats)
    requires Consistent(s) && s.accuracy == 0.0
    ensures s.attemptedQuestions == 0 ==> Finalize(s).accuracy == 0.0
    ensures 0.0 <= Finalize(s).accuracy <= 100.0
  {
    if s.attemptedQuestions > 0 {
      RatioBounds(s.correctCount, s.attemptedQuestions);
    }
  }

  /** The average time is the rounded mean over the topic's questions, 0 for none. */
  lemma FinalizeAverage(s: TopicStats)
    requires s.avgTimePerQuestion == 0
    ensures s.totalQuestions <= 0 ==> Finalize(s).avgTimePerQuestion == 0
    ensures s.totalQuestions > 0 ==>
              var mean := s.totalTimeSeconds as real / s.totalQuestions as real;
              mean - 0.5 < Finalize(s).avgTimePerQuestion as real <= mean + 0.5
  {
  }

  /**
    Strength stays moderate below two attempts; from two attempts on it is strong
    from 80% (four correct in five) and weak below 50%.
   */
  lemma FinalizeStrength(s: TopicStats)
    requires Consistent(s) && s.strength == Moderate
    ensures s.attemptedQuestions < 2 ==> Finalize(s).strength == Moderate
    ensures s.attemptedQuestions >= 2 ==>
              && (Finalize(s).strength == Strong <==> 5 * s.correctCount >= 4 * s.attemptedQuestions)
              && (Finalize(s).strength == Weak <==> 2 * s.correctCount < s.attemptedQuestions)
  {
    if s.attemptedQuestions >= 2 {
      RatioBounds(s.correctCount, s.attemptedQuestions);
    }
  }

  /** The records in table order, each finalized. */
  function Finalized(tab: TopicTable): (r: seq<TopicStats>)
    requires forall i :: 0 <= i < |tab.order| ==> tab.order[i] in tab.stats
    ensures |r| == |tab.order|
    ensures forall i :: 0 <= i < |r| ==> r[i] == Finalize(tab.stats[tab.order[i]])
  {
    seq(|tab.order|, i requires 0 <= i < |tab.order| => Finalize(tab.stats[tab.order[i]]))
  }

  /** `b.totalQuestions - a.totalQuestions` is an ascending sort on the negated count. */
  function TotalKey(s: TopicStats): real {
    -(s.totalQuestions as real)
  }

  /** The returned array. */
  function Report(qs: seq<FlattenedQuestion>, states: ExamStore.States, results: Results): seq<TopicStats> {
    StableSort.SortBy(Finalized(TallyQuestions(qs, states, results)), TotalKey)
  }

  /** The report runs from the topic with the most questions to the one with the fewest. */
  lemma ReportSorted(qs: seq<FlattenedQuestion>, states: ExamStore.States, results: Results)
    ensures var r := Report(qs, states, results);
            forall i, j :: 0 <= i < j < |r| ==> r[i].totalQuestions >= r[j].totalQuestions
  {
    var r := Report(qs, states, results);
    forall i, j | 0 <= i < j < |r| ensures r[i].totalQuestions >= r[j].totalQuestions {
      assert TotalKey(r[i]) <= TotalKey(r[j]);
    }
  }

  /** Ties keep table order: for every value of the sort key (a negated question count), the records carrying it appear in the report as in the table. */
  lemma ReportTiesFirstSeen(qs: seq<FlattenedQuestion>, states: ExamStore.States, results: Results, key: real)
    ensures StableSort.WithKey(Report(qs, states, results), TotalKey, key)
         == StableSort.WithKey(Finalized(TallyQuestions(qs, states, results)), TotalKey, key)
  {
    StableSort.SortByStable(Finalized(TallyQuestions(qs, states, results)), TotalKey, key);
  }

  /** Before sorting, the records follow the table order, which is the order topics were first met. */
  lemma FinalizedOrder(qs: seq<FlattenedQuestion>, states: ExamStore.States, results: Results)
    ensures var tab := TallyQuestions(qs, states, results);
            var f := Finalized(tab);
            && tab.order == AppendNew([], TopicsSeen(qs, states, results))
            && forall i :: 0 <= i < |f| ==> f[i].topic == tab.order[i]
  {
    var tab := TallyQuestions(qs, states, results);
    var f := Finalized(tab);
    forall i | 0 <= i < |f| ensures f[i].topic == tab.order[i] {
      FinalizeKeeps(tab.stats[tab.order[i]]);
    }
  }

  /** The record of a topic that has one: the finalized sum of the topic's contributions. */
  lemma TableEntry(qs: seq<FlattenedQuestion>, states: ExamStore.States, results: Results, i: int)
    requires 0 <= i < |TallyQuestions(qs, states, results).order|
    ensures var tab := TallyQuestions(qs, states, results);
            var t := tab.order[i];
            && |Contributions(qs, states, results, t)| > 0
            && Finalized(tab)[i] == Finalize(Fold(FreshStats(t), Contributions(qs, states, results, t)))
            && Finalized(tab)[i].topic == t
  {
    var tab := TallyQuestions(qs, states, results);
    TallyQuestionsAt(qs, states, results, tab.order[i]);
  }

  /**
    Every record of the report belongs to a topic some counted question lists and is
    the finalized sum of that topic's contributions (whose properties `EntryOf` states).
   */
  lemma ReportEntry(qs: seq<FlattenedQuestion>, states: ExamStore.States, results: Results, e: TopicStats)
    requires e in Report(qs, states, results)
    ensures var cs := Contributions(qs, states, results, e.topic);
            |cs| > 0 && e == Finalize(Fold(FreshStats(e.topic), cs))
  {
    var i := StableSort.SortedIndex(Finalized(TallyQuestions(qs, states, results)), TotalKey, e);
    TableEntry(qs, states, results, i);
  }

  /** The finalized record of a topic's contributions keeps the counting identities, the count and the marks. */
  lemma EntryOf(cs: seq<Contribution>, t: string)
    ensures var e := Finalize(Fold(FreshStats(t), cs));
            && e.topic == t && Consistent(e) && 0.0 <= e.accuracy <= 100.0
            && e.totalQuestions == |cs| && e.marksObtained == SumReal(cs, AttemptMarks)
  {
    var s := Fold(FreshStats(t), cs);
    FoldCounts(FreshStats(t), cs);
    FoldConsistent(FreshStats(t), cs);
    FinalizeKeeps(s);
    FinalizeAccuracy(s);
  }

  /** Coverage: every topic a counted question lists has a record in the report. */
  lemma ReportCovers(qs: seq<FlattenedQuestion>, states: ExamStore.States, results: Results, i: int, t: string)
    requires 0 <= i < |qs| && IsCounted(qs[i], states, results) && t in qs[i].question.topics
    ensures exists e :: e in Report(qs, states, results) && e.topic == t
  {
    ListedTopicsSeen(qs, states, results, i, t);
    AppendNewShape([], TopicsSeen(qs, states, results));
    var tab := TallyQuestions(qs, states, results);
    var j :| 0 <= j < |tab.order| && tab.order[j] == t;
    TableEntry(qs, states, results, j);
    var f := Finalized(tab);
    StableSort.SortedMember(f, TotalKey, f[j]);
  }

  /**
    `calculateTopicStats` as the code runs it: the outer loop over the questions fills
    the map, the `forEach` derives the ratios, and the result is sorted.
   */
  method CalculateTopicStats(questions: seq<FlattenedQuestion>, questionStates: ExamStore.States,
                             evaluationResults: Results)
    returns (result: seq<TopicStats>)
    ensures result == Report(questions, questionStates, evaluationResults)
  {
    var tab := TopicTable([], map[]);
    for i := 0 to |questions|
      invariant tab == TallyQuestions(questions[..i], questionStates, evaluationResults)
    {
      var question := questions[i];
      assert questions[..i + 1][..i] == questions[..i];
      var id := question.question.questionId;
      if id in questionStates && id in evaluationResults {
        tab := AddQuestion(tab, question, questionStates[id], evaluationResults[id]);
      }
    }
    assert questions[..|questions|] == questions;
    var derived := DeriveStats(tab);
    result := StableSort.SortBy(derived, TotalKey);
  }

  /** The inner loop over one question's topics, creating each record on first sight. */
  method AddQuestion(tab: TopicTable, question: FlattenedQuestion, state: QuestionAttemptState,
                     evaluation: QuestionEvaluationResult)
    returns (r: TopicTable)
    ensures r == TallyTopics(tab, question.question.topics, Contribution(question.question, state, evaluation))
  {
    var c := Contribution(question.question, state, evaluation);
    var order, topicMap := tab.order, tab.stats;
    var topics := question.question.topics;
    for j := 0 to |topics|
      invariant TopicTable(order, topicMap) == TallyTopics(tab, topics[..j], c)
    {
      var topic := topics[j];
      ghost var before := TopicTable(order, topicMap);
      if topic !in topicMap {
        order := order + [topic];
        topicMap := topicMap[topic := FreshStats(topic)];
      }
      var stats := topicMap[topic];
      ghost var start := stats;
      stats := stats.(totalQuestions := stats.totalQuestions + 1,
                      maxMarks := stats.maxMarks + question.question.marksScheme.marksCorrect,
                      totalTimeSeconds := stats.totalTimeSeconds + state.timeSpentSeconds);
      if state.answer == AnswerNone {
        stats := stats.(unattemptedCount := stats.unattemptedCount + 1);
      } else {
        stats := stats.(attemptedQuestions := stats.attemptedQuestions + 1,
                        marksObtained := stats.marksObtained + evaluation.marksObtained);
        if evaluation.isCorrect {
          stats := stats.(correctCount := stats.correctCount + 1);
        } else {
          stats := stats.(incorrectCount := stats.incorrectCount + 1);
        }
      }
      assert stats == Tally(start, c);
      assert start == Base(before, topic);
      topicMap := topicMap[topic := stats];
      AddStep(tab, topics, j, c, before, stats, TopicTable(order, topicMap));
    }
    assert topics[..|topics|] == topics;
    r := TopicTable(order, topicMap);
  }

  /** One pass of the inner loop: `Add` on the table so far is the table after one more topic. */
  lemma AddStep(tab: TopicTable, ts: seq<string>, j: int, c: Contribution, before: TopicTable, stats: TopicStats,
                after: TopicTable)
    requires 0 <= j < |ts| && before == TallyTopics(tab, ts[..j], c)
    requires stats == Tally(Base(before, ts[j]), c)
    requires after.order == (if ts[j] in before.stats then before.order else before.order + [ts[j]])
    requires after.stats == before.stats[ts[j] := stats]
    ensures after == TallyTopics(tab, ts[..j + 1], c)
  {
    assert ts[..j + 1][..j] == ts[..j];
  }

  /** The `forEach`: accuracy, average time and strength set on every record, in table order. */
  method DeriveStats(tab: TopicTable) returns (derived: seq<TopicStats>)
    requires forall i :: 0 <= i < |tab.order| ==> tab.order[i] in tab.stats
    ensures derived == Finalized(tab)
  {
    derived := [];
    for k := 0 to |tab.order|
      invariant |derived| == k
      invariant forall m :: 0 <= m < k ==> derived[m] == Finalize(tab.stats[tab.order[m]])
    {
      var stats := tab.stats[tab.order[k]];
      ghost var start := stats;
      if stats.attemptedQuestions > 0 {
        stats := stats.(accuracy := stats.correctCount as real / stats.attemptedQuestions as real * 100.0);
      }
      if stats.totalQuestions > 0 {
        stats := stats.(avgTimePerQuestion := JsNumber.Round(stats.totalTimeSeconds as real / stats.totalQuestions as real));
      }
      if stats.attemptedQuestions >= MinQuestionsThreshold {
        if stats.accuracy >= 80.0 {
          stats := stats.(strength := Strong);
        } else if stats.accuracy < 50.0 {
          stats := stats.(strength := Weak);
        } else {
          stats := stats.(strength := Moderate);
        }
      }
      assert stats == Finalize(start);
      derived := derived + [stats];
    }
  }
}
