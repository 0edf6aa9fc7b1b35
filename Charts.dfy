/**
  The data behind two result charts: the questions counted by time bucket
  (`TimeDistributionChart`) and the ten topics of highest accuracy with their
  bar labels (`TopicBarChart`).
 */
module Charts {
  import opened ExamTypes
  import StableSort

  // ---------------------------------------------------------------------------
  // Time buckets

  /** One bar of the time chart: a half-open range `[min, max)`, `max` `None` for `Infinity`. */
  datatype TimeRange = TimeRange(name: string, min: int, max: Option<int>)

  /** `{ qId, time, correct }`: time in seconds. */
  datatype TimedAnswer = TimedAnswer(qId: string, time: int, correct: bool)

  function Ranges(): seq<TimeRange> {
    [TimeRange("0-30s", 0, Some(30)), TimeRange("30-60s", 30, Some(60)),
     TimeRange("1-2min", 60, Some(120)), TimeRange("2-3min", 120, Some(180)),
     TimeRange("3-5min", 180, Some(300)), TimeRange("5min+", 300, None)]
  }

  /** `time >= r.min && time < r.max`. */
  predicate InRange(time: int, r: TimeRange) {
    time >= r.min && (r.max.None? || time < r.max.value)
  }

  /** The ranges are contiguous and cover `[0, ∞)`: a non-negative time is in exactly one, a negative time in none. */
  lemma BucketUnique(time: int)
    ensures time >= 0 ==> exists i :: 0 <= i < |Ranges()| && InRange(time, Ranges()[i])
    ensures forall i, j :: 0 <= i < j < |Ranges()| ==> !(InRange(time, Ranges()[i]) && InRange(time, Ranges()[j]))
    ensures time < 0 ==> forall i :: 0 <= i < |Ranges()| ==> !InRange(time, Ranges()[i])
  {
    if time >= 0 {
      var i := if time < 30 then 0 else if time < 60 then 1 else if time < 120 then 2
               else if time < 180 then 3 else if time < 300 then 4 else 5;
      assert InRange(time, Ranges()[i]);
    }
  }

  /** `questions.filter(q => inRange(q.time, r) && q.correct === correct).length`. */
  function CountIn(questions: seq<TimedAnswer>, r: TimeRange, correct: bool): nat {
    if |questions| == 0 then 0
    else
      var q := questions[|questions| - 1];
      CountIn(questions[..|questions| - 1], r, correct) + (if InRange(q.time, r) && q.correct == correct then 1 else 0)
  }

  /** `correctCounts` (for `true`) and `incorrectCounts` (for `false`): one count per range. */
  function BucketCounts(questions: seq<TimedAnswer>, correct: bool): (r: seq<nat>)
    ensures |r| == |Ranges()|
  {
    seq(|Ranges()|, i requires 0 <= i < |Ranges()| => CountIn(questions, Ranges()[i], correct))
  }

  /** The number of questions with a time of at least 0. */
  function CountTimed(questions: seq<TimedAnswer>): nat {
    if |questions| == 0 then 0
    else CountTimed(questions[..|questions| - 1]) + (if questions[|questions| - 1].time >= 0 then 1 else 0)
  }

  function SumNat(xs: seq<nat>): nat {
    if |xs| == 0 then 0 else SumNat(xs[..|xs| - 1]) + xs[|xs| - 1]
  }

  lemma SumSix(xs: seq<nat>)
    requires |xs| == 6
    ensures SumNat(xs) == xs[0] + xs[1] + xs[2] + xs[3] + xs[4] + xs[5]
  {
    assert xs[..6] == xs && xs[..6][..5] == xs[..5];
    assert xs[..5][..4] == xs[..4] && xs[..4][..3] == xs[..3];
    assert xs[..3][..2] == xs[..2] && xs[..2][..1] == xs[..1] && xs[..1][..0] == [];
    assert SumNat(xs[..1]) == xs[0];
    assert SumNat(xs[..2]) == xs[0] + xs[1];
    assert SumNat(xs[..3]) == xs[0] + xs[1] + xs[2];
    assert SumNat(xs[..4]) == xs[0] + xs[1] + xs[2] + xs[3];
    assert SumNat(xs[..5]) == xs[0] + xs[1] + xs[2] + xs[3] + xs[4];
  }

  /** The bars of one colour per question: the twelve counts of a question list, unfolded. */
  function BarTotal(questions: seq<TimedAnswer>): nat {
    var rs := Ranges();
    CountIn(questions, rs[0], true) + CountIn(questions, rs[1], true) + CountIn(questions, rs[2], true)
    + CountIn(questions, rs[3], true) + CountIn(questions, rs[4], true) + CountIn(questions, rs[5], true)
    + CountIn(questions, rs[0], false) + CountIn(questions, rs[1], false) + CountIn(questions, rs[2], false)
    + CountIn(questions, rs[3], false) + CountIn(questions, rs[4], false) + CountIn(questions, rs[5], false)
  }

  lemma {:induction false} BarTotalCountsTimed(questions: seq<TimedAnswer>)
    ensures BarTotal(questions) == CountTimed(questions)
  {
    if |questions| > 0 {
      BarTotalCountsTimed(questions[..|questions| - 1]);
    }
  }

  /**
    Every question with a non-negative time is counted in exactly one bar, green
    for correct and red for incorrect; a question with a negative time in none.
   */
  lemma BucketsAddUp(questions: seq<TimedAnswer>)
    ensures SumNat(BucketCounts(questions, true)) + SumNat(BucketCounts(questions, false)) == CountTimed(questions)
  {
    SumSix(BucketCounts(questions, true));
    SumSix(BucketCounts(questions, false));
    BarTotalCountsTimed(questions);
  }

  /** One question is counted in the bars of its own colour whose range holds its time. */
  lemma BucketsOfOne(q: TimedAnswer, correct: bool)
    ensures forall i :: 0 <= i < |Ranges()| ==>
              BucketCounts([q], correct)[i] == if InRange(q.time, Ranges()[i]) && q.correct == correct then 1 else 0
  {
    forall i | 0 <= i < |Ranges()|
      ensures BucketCounts([q], correct)[i] == if InRange(q.time, Ranges()[i]) && q.correct == correct then 1 else 0
    {
      var r := Ranges()[i];
      assert [q][..0] == [];
      assert CountIn([q], r, correct) == CountIn([], r, correct) + (if InRange(q.time, r) && q.correct == correct then 1 else 0);
    }
  }

  /** A correct answer of 45 seconds is counted in the "30-60s" bar of correct answers and nowhere else. */
  lemma BucketExample(q: TimedAnswer)
    requires q.time == 45 && q.correct
    ensures BucketCounts([q], true) == [0, 1, 0, 0, 0, 0]
    ensures BucketCounts([q], false) == [0, 0, 0, 0, 0, 0]
  {
    BucketsOfOne(q, true);
    BucketsOfOne(q, false);
    var rs := Ranges();
    assert !InRange(45, rs[0]) && InRange(45, rs[1]) && !InRange(45, rs[2]);
    assert !InRange(45, rs[3]) && !InRange(45, rs[4]) && !InRange(45, rs[5]);
  }

  // ---------------------------------------------------------------------------
  // Topic bars

  /** `.filter(t => t.totalQuestions > 0)`. */
  function WithQuestions(ts: seq<TopicStats>): (r: seq<TopicStats>)
    ensures forall t :: t in r ==> t in ts && t.totalQuestions > 0
    ensures forall t :: t in ts && t.totalQuestions > 0 ==> t in r
    ensures multiset(r) <= multiset(ts)
  {
    if |ts| == 0 then []
    else
      var init := WithQuestions(ts[..|ts| - 1]);
      var t := ts[|ts| - 1];
      assert ts == ts[..|ts| - 1] + [t];
      if t.totalQuestions > 0 then init + [t] else init
  }

  /** The key of `(a, b) => b.accuracy - a.accuracy`: descending accuracy. */
  function NegAccuracy(t: TopicStats): real {
    -t.accuracy
  }

  function ByAccuracy(ts: seq<TopicStats>): seq<TopicStats> {
    StableSort.SortBy(WithQuestions(ts), NegAccuracy)
  }

  /** `.slice(0, 10)`. */
  function TopTopics(ts: seq<TopicStats>): seq<TopicStats> {
    var sorted := ByAccuracy(ts);
    if |sorted| <= 10 then sorted else sorted[..10]
  }

  /** `.slice(0, 10)` is the prefix of length `min(10, |s|)`. */
  lemma FirstTen<T>(s: seq<T>)
    ensures var r := if |s| <= 10 then s else s[..10];
            |r| <= 10 && r == s[..|r|] && (|s| <= 10 ==> r == s)
  {
    if |s| <= 10 {
      assert s[..|s|] == s;
    }
  }

  /** The shown topics are the first ones of the sorted topics with questions, all of them when there are at most ten. */
  lemma TopTopicsPrefix(ts: seq<TopicStats>)
    ensures var r, sorted := TopTopics(ts), ByAccuracy(ts);
            && |r| <= 10
            && multiset(sorted) == multiset(WithQuestions(ts))
            && r == sorted[..|r|]
            && (|WithQuestions(ts)| <= 10 ==> r == sorted)
  {
    FirstTen(ByAccuracy(ts));
  }

  /** Each shown topic has questions and is taken from the input. */
  lemma TopTopicsMembers(ts: seq<TopicStats>)
    ensures forall t :: t in TopTopics(ts) ==> t in ts && t.totalQuestions > 0
  {
    var sorted := ByAccuracy(ts);
    var r := TopTopics(ts);
    TopTopicsPrefix(ts);
    forall t | t in r ensures t in ts && t.totalQuestions > 0 {
      assert t in sorted;
      assert t in multiset(WithQuestions(ts));
    }
  }

  /** The sorted topics go by non-increasing accuracy. */
  lemma ByAccuracyOrdered(ts: seq<TopicStats>)
    ensures forall i, j :: 0 <= i < j < |ByAccuracy(ts)| ==> ByAccuracy(ts)[i].accuracy >= ByAccuracy(ts)[j].accuracy
  {
    var sorted := ByAccuracy(ts);
    assert forall i, j :: 0 <= i < j < |sorted| ==> NegAccuracy(sorted[i]) <= NegAccuracy(sorted[j]);
  }

  /**
    At most ten topics, each with questions and taken from the input, in order of
    non-increasing accuracy; every topic with questions that is left out has an
    accuracy no higher than any topic shown, and with ten or fewer such topics
    none is left out.
   */
  lemma TopTopicsRule(ts: seq<TopicStats>)
    ensures var r := TopTopics(ts);
            && |r| <= 10
            && (forall t :: t in r ==> t in ts && t.totalQuestions > 0)
            && (forall i, j :: 0 <= i < j < |r| ==> r[i].accuracy >= r[j].accuracy)
    ensures var r, sorted := TopTopics(ts), ByAccuracy(ts);
            && multiset(sorted) == multiset(WithQuestions(ts))
            && r == sorted[..|r|]
            && (forall i, j :: 0 <= i < |r| <= j < |sorted| ==> sorted[j].accuracy <= r[i].accuracy)
    ensures |WithQuestions(ts)| <= 10 ==> multiset(TopTopics(ts)) == multiset(WithQuestions(ts))
  {
    TopTopicsPrefix(ts);
    TopTopicsMembers(ts);
    ByAccuracyOrdered(ts);
  }

  /** `t.topic.length > 20 ? t.topic.substring(0, 18) + '...' : t.topic`. */
  function BarLabel(topic: string): string {
    if |topic| > 20 then topic[..18] + "..." else topic
  }

  /** A name of at most 20 characters is kept; a longer one keeps its first 18 and gains "...", 21 in all. */
  lemma BarLabelRule(topic: string)
    ensures |topic| <= 20 ==> BarLabel(topic) == topic
    ensures |topic| > 20 ==> |BarLabel(topic)| == 21 && BarLabel(topic)[..18] == topic[..18]
                             && BarLabel(topic)[18..] == "..."
    ensures |BarLabel(topic)| <= 21
  {
  }

  /** The labels of the bars, one per shown topic. */
  function TopicLabels(ts: seq<TopicStats>): (r: seq<string>)
    ensures |r| == |TopTopics(ts)| <= 10
  {
    var top := TopTopics(ts);
    TopTopicsRule(ts);
    seq(|top|, i requires 0 <= i < |top| => BarLabel(top[i].topic))
  }
}
