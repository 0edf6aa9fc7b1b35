/**
  The score history: the three-point moving average drawn over the scores in date
  order, and `calculateStats`, the summary of all attempts. Dates are timestamps.
 */
module TrendChart {
  import JsNumber
  import StableSort

  datatype AttemptData = AttemptData(id: int, date: int, score: real, paperId: string)

  datatype PerformanceStats = PerformanceStats(
    totalAttempts: int, avgScore: real, bestScore: real, worstScore: real,
    completedExams: int, improvement: int)

  function DateKey(a: AttemptData): real {
    a.date as real
  }

  /** `[...attempts].sort((a, b) => date(a) - date(b))`: a stable sort by ascending date. */
  function Chronological(attempts: seq<AttemptData>): (r: seq<AttemptData>)
    ensures |r| == |attempts| && multiset(r) == multiset(attempts)
    ensures forall i, j :: 0 <= i < j < |r| ==> r[i].date <= r[j].date
  {
    var r := StableSort.SortBy(attempts, DateKey);
    assert forall i, j :: 0 <= i < j < |r| ==> DateKey(r[i]) <= DateKey(r[j]);
    r
  }

  /** `attempts.map(a => a.score)`. */
  function Scores(attempts: seq<AttemptData>): (r: seq<real>)
    ensures |r| == |attempts|
    ensures forall i :: 0 <= i < |attempts| ==> r[i] == attempts[i].score
  {
    seq(|attempts|, i requires 0 <= i < |attempts| => attempts[i].score)
  }

  /** `xs.reduce((sum, s) => sum + s, 0)`. */
  function Sum(xs: seq<real>): real {
    if |xs| == 0 then 0.0 else Sum(xs[..|xs| - 1]) + xs[|xs| - 1]
  }

  /** The arithmetic mean of a non-empty list. */
  function Mean(xs: seq<real>): real
    requires |xs| > 0
  {
    Sum(xs) / |xs| as real
  }

  /** `Math.max(...xs)` on a non-empty list. */
  function MaxOf(xs: seq<real>): (r: real)
    requires |xs| > 0
    ensures r in xs
    ensures forall i :: 0 <= i < |xs| ==> xs[i] <= r
  {
    if |xs| == 1 then xs[0]
    else
      var m := MaxOf(xs[..|xs| - 1]);
      assert forall i :: 0 <= i < |xs| - 1 ==> xs[..|xs| - 1][i] == xs[i];
      if xs[|xs| - 1] > m then xs[|xs| - 1] else m
  }

  /** `Math.min(...xs)` on a non-empty list. */
  function MinOf(xs: seq<real>): (r: real)
    requires |xs| > 0
    ensures r in xs
    ensures forall i :: 0 <= i < |xs| ==> r <= xs[i]
  {
    if |xs| == 1 then xs[0]
    else
      var m := MinOf(xs[..|xs| - 1]);
      assert forall i :: 0 <= i < |xs| - 1 ==> xs[..|xs| - 1][i] == xs[i];
      if xs[|xs| - 1] < m then xs[|xs| - 1] else m
  }

  /** A sum of values in `[lo, hi]` lies between `n * lo` and `n * hi`. */
  lemma {:induction false} SumBounds(xs: seq<real>, lo: real, hi: real)
    requires forall i :: 0 <= i < |xs| ==> lo <= xs[i] <= hi
    ensures |xs| as real * lo <= Sum(xs) <= |xs| as real * hi
  {
    if |xs| > 0 {
      var init := xs[..|xs| - 1];
      assert forall i :: 0 <= i < |init| ==> init[i] == xs[i];
      SumBounds(init, lo, hi);
    }
  }

  lemma QuotientBetween(total: real, n: real, lo: real, hi: real)
    requires n > 0.0 && n * lo <= total <= n * hi
    ensures lo <= total / n <= hi
  {
    JsNumber.QuotientAtMost(total, n, hi);
    JsNumber.QuotientAtLeast(total, n, lo);
  }

  /** A mean of values in `[lo, hi]` lies in `[lo, hi]`. */
  lemma MeanBounds(xs: seq<real>, lo: real, hi: real)
    requires |xs| > 0
    requires forall i :: 0 <= i < |xs| ==> lo <= xs[i] <= hi
    ensures lo <= Mean(xs) <= hi
  {
    SumBounds(xs, lo, hi);
    QuotientBetween(Sum(xs), |xs| as real, lo, hi);
  }

  /** `scores.slice(Math.max(0, i - 2), i + 1)`: the score at `i` and up to two before it. */
  function Window(scores: seq<real>, i: int): (w: seq<real>)
    requires 0 <= i < |scores|
    ensures 1 <= |w| <= 3
  {
    scores[JsNumber.Max(0, i - 2) .. i + 1]
  }

  /** `movingAvg`: the mean of each window. */
  function MovingAverage(scores: seq<real>): seq<real> {
    seq(|scores|, i requires 0 <= i < |scores| => Mean(Window(scores, i)))
  }

  /**
    One average per score: the first is the score itself, the second the mean of
    two, and from the third on the mean of the last three scores.
   */
  lemma MovingAverageShape(scores: seq<real>)
    ensures |MovingAverage(scores)| == |scores|
    ensures |scores| > 0 ==> MovingAverage(scores)[0] == scores[0]
    ensures |scores| > 1 ==> MovingAverage(scores)[1] == (scores[0] + scores[1]) / 2.0
    ensures forall i :: 2 <= i < |scores| ==>
              MovingAverage(scores)[i] == (scores[i - 2] + scores[i - 1] + scores[i]) / 3.0
  {
    if |scores| > 0 {
      var w := Window(scores, 0);
      assert w == [scores[0]] && w[..0] == [];
      assert Sum(w) == scores[0];
    }
    if |scores| > 1 {
      var w := Window(scores, 1);
      assert w == [scores[0], scores[1]] && w[..1] == [scores[0]] && w[..1][..0] == [];
      assert Sum(w) == scores[0] + scores[1];
    }
    forall i | 2 <= i < |scores|
      ensures MovingAverage(scores)[i] == (scores[i - 2] + scores[i - 1] + scores[i]) / 3.0
    {
      var w := Window(scores, i);
      assert w == [scores[i - 2], scores[i - 1], scores[i]];
      assert w[..2] == [scores[i - 2], scores[i - 1]] && w[..2][..1] == [scores[i - 2]];
      assert w[..2][..1][..0] == [];
      assert Sum(w[..2][..1]) == scores[i - 2];
      assert Sum(w[..2]) == scores[i - 2] + scores[i - 1];
      assert Sum(w) == scores[i - 2] + scores[i - 1] + scores[i];
      assert |w| == 3;
    }
  }

  /** Every moving-average entry lies between the least and the greatest score of its window. */
  lemma MovingAverageBounds(scores: seq<real>, i: int)
    requires 0 <= i < |scores|
    ensures MinOf(Window(scores, i)) <= MovingAverage(scores)[i] <= MaxOf(Window(scores, i))
  {
    var w := Window(scores, i);
    MeanBounds(w, MinOf(w), MaxOf(w));
  }

  /** `Math.round(((last - first) / Math.abs(first)) * 100)`, 0 when the first score is 0. */
  function Improvement(first: real, last: real): int {
    JsNumber.Round(if first != 0.0 then (last - first) / (if first < 0.0 then -first else first) * 100.0 else 0.0)
  }

  /** No change when the first score is 0; otherwise the sign follows the change of score. */
  lemma ImprovementSign(first: real, last: real)
    ensures first == 0.0 ==> Improvement(first, last) == 0
    ensures last >= first ==> Improvement(first, last) >= 0
    ensures last <= first ==> Improvement(first, last) <= 0
  {
    var abs := if first < 0.0 then -first else first;
    if first != 0.0 {
      var change := (last - first) / abs * 100.0;
      if last >= first {
        assert (last - first) / abs >= 0.0;
        JsNumber.RoundNonNegative(change);
      }
      if last <= first {
        assert (last - first) / abs <= 0.0;
      }
    }
  }

  /** Doubling a score is an improvement of 100, halving it one of -50. */
  lemma ImprovementExamples(first: real)
    requires first > 0.0
    ensures Improvement(first, 2.0 * first) == 100
    ensures Improvement(first, first / 2.0) == -50
  {
    assert (2.0 * first - first) / first == 1.0;
    assert (first / 2.0 - first) / first == -0.5;
  }

  /** `calculateStats`. */
  function CalculateStats(attempts: seq<AttemptData>): PerformanceStats {
    if |attempts| == 0 then PerformanceStats(0, 0.0, 0.0, 0.0, 0, 0)
    else
      var scores := Scores(attempts);
      var sorted := Chronological(attempts);
      PerformanceStats(
        |attempts|, Mean(scores), MaxOf(scores), MinOf(scores), |attempts|,
        Improvement(sorted[0].score, sorted[|sorted| - 1].score))
  }

  /** No attempts: every figure is 0. */
  lemma StatsEmpty()
    ensures CalculateStats([]) == PerformanceStats(0, 0.0, 0.0, 0.0, 0, 0)
  {
  }

  /**
    The counts are the number of attempts, the best and the worst score are scores
    of attempts bounding every score, and the average lies between them.
   */
  lemma StatsBounds(attempts: seq<AttemptData>)
    requires |attempts| > 0
    ensures var s := CalculateStats(attempts);
            && s.totalAttempts == s.completedExams == |attempts|
            && (exists i :: 0 <= i < |attempts| && attempts[i].score == s.bestScore)
            && (exists i :: 0 <= i < |attempts| && attempts[i].score == s.worstScore)
            && (forall i :: 0 <= i < |attempts| ==> s.worstScore <= attempts[i].score <= s.bestScore)
            && s.worstScore <= s.avgScore <= s.bestScore
  {
    var scores := Scores(attempts);
    MeanBounds(scores, MinOf(scores), MaxOf(scores));
    var b :| 0 <= b < |scores| && scores[b] == MaxOf(scores);
    var w :| 0 <= w < |scores| && scores[w] == MinOf(scores);
  }

  /**
    The improvement compares an earliest attempt with a latest one: the first and
    the last attempt in date order, whatever the input order.
   */
  lemma StatsImprovement(attempts: seq<AttemptData>)
    requires |attempts| > 0
    ensures var sorted := Chronological(attempts);
            var e, l := sorted[0], sorted[|sorted| - 1];
            && e in attempts && l in attempts
            && (forall a :: a in attempts ==> e.date <= a.date <= l.date)
            && CalculateStats(attempts).improvement == Improvement(e.score, l.score)
  {
    var sorted := Chronological(attempts);
    var e, l := sorted[0], sorted[|sorted| - 1];
    assert e in multiset(attempts) && l in multiset(attempts);
    StableSort.FirstIsLeast(attempts, DateKey);
    StableSort.LastIsGreatest(attempts, DateKey);
  }

  /** A rise from the earliest to the latest score never reports a negative improvement. */
  lemma StatsImprovementSign(attempts: seq<AttemptData>)
    requires |attempts| > 0
    ensures var sorted := Chronological(attempts);
            sorted[|sorted| - 1].score >= sorted[0].score ==> CalculateStats(attempts).improvement >= 0
  {
    var sorted := Chronological(attempts);
    ImprovementSign(sorted[0].score, sorted[|sorted| - 1].score);
  }

  /** `sorted.map((_, i) => `#${i + 1}`)`. */
  function Labels(n: nat): (r: seq<string>)
    ensures |r| == n
  {
    seq(n, i requires 0 <= i < n => "#" + JsNumber.NatToString(i + 1))
  }

  /** The labels are distinct, each `#` and its 1-based position in digits. */
  lemma LabelsDistinct(n: nat)
    ensures forall i :: 0 <= i < n ==> Labels(n)[i][0] == '#' && JsNumber.DigitsValue(Labels(n)[i][1..]) == i + 1
    ensures forall i, j :: 0 <= i < j < n ==> Labels(n)[i] != Labels(n)[j]
  {
    forall i | 0 <= i < n
      ensures Labels(n)[i][0] == '#' && JsNumber.DigitsValue(Labels(n)[i][1..]) == i + 1
    {
      JsNumber.NatToStringRoundTrip(i + 1);
      assert Labels(n)[i][1..] == JsNumber.NatToString(i + 1);
    }
  }
}
