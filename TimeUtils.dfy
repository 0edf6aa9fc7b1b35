/** Clock formatting, the countdown warning levels and the per-question average. */
module TimeUtils {
  import JsNumber
  import opened ExamTypes

  /** JavaScript's `%` for a positive divisor: the remainder takes the dividend's sign. */
  function JsRem(a: int, b: int): (r: int)
    requires b > 0
    ensures a >= 0 ==> r == a % b
    ensures -b < r < b
  {
    if a >= 0 then a % b else -((-a) % b)
  }

  /** The three fields `formatTime` computes. */
  datatype Clock = Clock(hours: int, minutes: int, seconds: int)

  /**
    `hours = Math.floor(s / 3600)`, `minutes = Math.floor((s % 3600) / 60)`,
    `seconds = s % 60`, with JavaScript's `%`.
   */
  function ClockOf(totalSeconds: int): Clock {
    Clock(totalSeconds / 3600, JsRem(totalSeconds, 3600) / 60, JsRem(totalSeconds, 60))
  }

  /** For a non-negative duration the fields recompose it, minutes and seconds below 60. */
  lemma ClockRecomposes(totalSeconds: int)
    requires totalSeconds >= 0
    ensures var c := ClockOf(totalSeconds);
            && c.hours >= 0 && 0 <= c.minutes < 60 && 0 <= c.seconds < 60
            && c.hours * 3600 + c.minutes * 60 + c.seconds == totalSeconds
  {
  }

  /** `padStart(2, '0')`. */
  function Pad(s: string): string {
    if |s| >= 2 then s else seq(2 - |s|, _ => '0') + s
  }

  /** Padding adds zeros in front up to two characters, never truncates, and keeps the text whole at the end. */
  lemma PadShape(s: string)
    ensures var r := Pad(s);
            && |r| == (if |s| < 2 then 2 else |s|)
            && r[|r| - |s|..] == s
            && forall i :: 0 <= i < |r| - |s| ==> r[i] == '0'
  {
  }

  /** `pad(n)`: the decimal form of `n`, padded. */
  function PadNumber(n: int): string {
    Pad(JsNumber.IntToString(n))
  }

  /** `formatTime`: HH:MM:SS only when hours are wanted and there is at least one; MM:SS otherwise. */
  function FormatTime(totalSeconds: int, showHours: bool): string {
    ClockText(ClockOf(totalSeconds), showHours)
  }

  /** The template strings of `formatTime`, on the three computed fields. */
  function ClockText(c: Clock, showHours: bool): string {
    if showHours && c.hours > 0 then PadNumber(c.hours) + ":" + PadNumber(c.minutes) + ":" + PadNumber(c.seconds)
    else PadNumber(c.minutes) + ":" + PadNumber(c.seconds)
  }

  predicate Numeral(s: string) {
    |s| > 0 && JsNumber.AllDigits(s)
  }

  /** The value of the two characters at `i` and `i + 1` read as decimal digits. */
  function TwoDigitValue(s: string, i: nat): nat
    requires i + 1 < |s|
  {
    JsNumber.DigitValue(s[i]) * 10 + JsNumber.DigitValue(s[i + 1])
  }

  predicate TwoDigitsAt(s: string, i: nat)
    requires i + 1 < |s|
  {
    JsNumber.IsDigit(s[i]) && JsNumber.IsDigit(s[i + 1])
  }

  /**
    Reads a clock text back into seconds: "MM:SS", or "H:MM:SS" with an hours field
    of one or more digits, minutes and seconds two digits each. Other text is `None`.
   */
  function ParseClock(s: string): Option<int> {
    var n := |s|;
    if n < 5 || s[n - 3] != ':' || !TwoDigitsAt(s, n - 5) || !TwoDigitsAt(s, n - 2) then None
    else
      var withinHour := TwoDigitValue(s, n - 5) * 60 + TwoDigitValue(s, n - 2);
      if n == 5 then Some(withinHour)
      else if n >= 7 && s[n - 6] == ':' && Numeral(s[..n - 6]) then
        Some(JsNumber.DigitsValue(s[..n - 6]) * 3600 + withinHour)
      else None
  }

  lemma PadNumberValue(n: nat)
    ensures Numeral(PadNumber(n)) && JsNumber.DigitsValue(PadNumber(n)) == n
  {
    var s := JsNumber.NatToString(n);
    JsNumber.NatToStringRoundTrip(n);
    JsNumber.NatToStringShape(n);
    var r := Pad(s);
    PadShape(s);
    assert r == r[..|r| - |s|] + s;
    JsNumber.LeadingZeros(r[..|r| - |s|], s);
  }

  /** A field below 100 is padded to exactly two digits, which read back as the field. */
  lemma PadTwoDigits(n: nat)
    requires n < 100
    ensures |PadNumber(n)| == 2 && TwoDigitsAt(PadNumber(n), 0) && TwoDigitValue(PadNumber(n), 0) == n
  {
    var t, u := JsNumber.DigitChar(n / 10), JsNumber.DigitChar(n % 10);
    if n >= 10 {
      assert JsNumber.NatToString(n / 10) == [t];
    }
    assert PadNumber(n) == [t, u];
  }

  /**
    Round trip: for a non-negative duration the clock text reads back as the duration,
    and as the duration without its whole hours when hours are not shown.
   */
  lemma FormatTimeRoundTrip(totalSeconds: int, showHours: bool)
    requires totalSeconds >= 0
    ensures ParseClock(FormatTime(totalSeconds, showHours))
         == Some(if showHours then totalSeconds else totalSeconds % 3600)
  {
    var c := ClockOf(totalSeconds);
    ClockRecomposes(totalSeconds);
    ClockTextReads(c, showHours);
    WithinHour(totalSeconds);
  }

  /** Fields in range shown as text read back as the seconds they denote, without the hours when those are not shown. */
  lemma ClockTextReads(c: Clock, showHours: bool)
    requires c.hours >= 0 && 0 <= c.minutes < 60 && 0 <= c.seconds < 60
    ensures ParseClock(ClockText(c, showHours))
         == Some(if showHours && c.hours > 0 then c.hours * 3600 + c.minutes * 60 + c.seconds
                 else c.minutes * 60 + c.seconds)
  {
    if showHours && c.hours > 0 {
      assert ClockText(c, showHours) == PadNumber(c.hours) + ":" + PadNumber(c.minutes) + ":" + PadNumber(c.seconds);
      LongFormReads(c.hours, c.minutes, c.seconds);
    } else {
      assert ClockText(c, showHours) == PadNumber(c.minutes) + ":" + PadNumber(c.seconds);
      ShortFormReads(c.minutes, c.seconds);
    }
  }

  /** Below the hour mark the minutes and seconds fields make up the whole remainder. */
  lemma WithinHour(totalSeconds: int)
    requires totalSeconds >= 0
    ensures totalSeconds % 3600 == ClockOf(totalSeconds).minutes * 60 + ClockOf(totalSeconds).seconds
    ensures ClockOf(totalSeconds).hours == 0 ==> totalSeconds % 3600 == totalSeconds
  {
    SecondsWithinHour(totalSeconds);
  }

  lemma SecondsWithinHour(t: nat)
    ensures t % 3600 == t % 3600 / 60 * 60 + t % 60
  {
    var q, r := t / 3600, t % 3600;
    assert t == 60 * (60 * q + r / 60) + r % 60;
  }

  /** Two fields below 60 shown as MM:SS read back as `m * 60 + s`. */
  lemma ShortFormReads(m: nat, s: nat)
    requires m < 60 && s < 60
    ensures ParseClock(PadNumber(m) + ":" + PadNumber(s)) == Some(m * 60 + s)
  {
    PadTwoDigits(m);
    PadTwoDigits(s);
    ShortText(PadNumber(m), PadNumber(s));
  }

  /** Hours, and minutes and seconds below 60, shown as HH:MM:SS read back as `h * 3600 + m * 60 + s`. */
  lemma LongFormReads(h: nat, m: nat, s: nat)
    requires m < 60 && s < 60
    ensures ParseClock(PadNumber(h) + ":" + PadNumber(m) + ":" + PadNumber(s)) == Some(h * 3600 + m * 60 + s)
  {
    PadNumberValue(h);
    PadTwoDigits(m);
    PadTwoDigits(s);
    LongText(PadNumber(h), PadNumber(m), PadNumber(s));
  }

  lemma ShortText(a: string, b: string)
    requires |a| == 2 && |b| == 2 && TwoDigitsAt(a, 0) && TwoDigitsAt(b, 0)
    ensures ParseClock(a + ":" + b) == Some(TwoDigitValue(a, 0) * 60 + TwoDigitValue(b, 0))
  {
    var x := a + ":" + b;
    assert x[0] == a[0] && x[1] == a[1] && x[2] == ':' && x[3] == b[0] && x[4] == b[1];
  }

  lemma LongText(p: string, a: string, b: string)
    requires Numeral(p) && |a| == 2 && |b| == 2 && TwoDigitsAt(a, 0) && TwoDigitsAt(b, 0)
    ensures ParseClock(p + ":" + a + ":" + b)
         == Some(JsNumber.DigitsValue(p) * 3600 + TwoDigitValue(a, 0) * 60 + TwoDigitValue(b, 0))
  {
    var x := p + ":" + a + ":" + b;
    var n := |x|;
    assert n == |p| + 6 && x[..n - 6] == p && x[n - 6] == ':' && x[n - 3] == ':';
    assert x[n - 5] == a[0] && x[n - 4] == a[1] && x[n - 2] == b[0] && x[n - 1] == b[1];
  }

  /** The three levels the countdown is drawn in. */
  datatype TimerLevel = Normal | Warning | Danger {
    /** The CSS class `getTimerClass` returns. */
    function ClassName(): string {
      match this
      case Normal => ""
      case Warning => "warning"
      case Danger => "danger"
    }

    function Severity(): nat {
      match this
      case Normal => 0
      case Warning => 1
      case Danger => 2
    }
  }

  /**
    `getTimerClass`: danger when `remaining / total <= 0.05`, warning when `<= 0.15`.
    A zero total makes the JavaScript quotient infinite or NaN, which only a negative
    remaining time turns into danger.
   */
  function GetTimerClass(remainingSeconds: int, totalSeconds: int): TimerLevel {
    if totalSeconds == 0 then (if remainingSeconds < 0 then Danger else Normal)
    else
      var percentage := remainingSeconds as real / totalSeconds as real;
      if percentage <= 0.05 then Danger
      else if percentage <= 0.15 then Warning
      else Normal
  }

  /** The thresholds in integer form: the last 5% is danger, the next 10% warning. */
  lemma TimerThresholds(remainingSeconds: int, totalSeconds: int)
    requires totalSeconds > 0
    ensures GetTimerClass(remainingSeconds, totalSeconds) == Danger <==> 20 * remainingSeconds <= totalSeconds
    ensures GetTimerClass(remainingSeconds, totalSeconds) == Warning
            <==> totalSeconds < 20 * remainingSeconds <= 3 * totalSeconds
    ensures GetTimerClass(remainingSeconds, totalSeconds) == Normal <==> 20 * remainingSeconds > 3 * totalSeconds
  {
    var r, t := remainingSeconds as real, totalSeconds as real;
    var p := r / t;
    assert p * t == r;
    JsNumber.QuotientAtMost(r, t, 0.05);
    JsNumber.QuotientAtMost(r, t, 0.15);
  }

  /** With a total of 0 the level is danger exactly for a negative remaining time, and normal otherwise. */
  lemma TimerZeroTotal(remainingSeconds: int)
    ensures GetTimerClass(remainingSeconds, 0) == Danger <==> remainingSeconds < 0
    ensures GetTimerClass(remainingSeconds, 0) != Warning
  {
  }

  /** With a fixed positive total, less remaining time is never a milder level. */
  lemma TimerSeverityMonotone(r1: int, r2: int, totalSeconds: int)
    requires totalSeconds > 0 && r1 <= r2
    ensures GetTimerClass(r1, totalSeconds).Severity() >= GetTimerClass(r2, totalSeconds).Severity()
  {
    TimerThresholds(r1, totalSeconds);
    TimerThresholds(r2, totalSeconds);
  }

  /** `calculateAvgTimePerQuestion`: 0 for no questions, otherwise the rounded mean. */
  function CalculateAvgTimePerQuestion(totalTimeSeconds: int, questionCount: int): (r: int)
    ensures questionCount == 0 ==> r == 0
    ensures questionCount != 0 ==>
              var mean := totalTimeSeconds as real / questionCount as real;
              mean - 0.5 < r as real <= mean + 0.5
  {
    if questionCount == 0 then 0
    else JsNumber.Round(totalTimeSeconds as real / questionCount as real)
  }

  /** A total that is a whole multiple of the count averages to exactly that multiple. */
  lemma AvgExact(perQuestion: int, questionCount: int)
    requires questionCount > 0
    ensures CalculateAvgTimePerQuestion(perQuestion * questionCount, questionCount) == perQuestion
  {
    var n := questionCount as real;
    assert (perQuestion * questionCount) as real == perQuestion as real * n;
    assert (perQuestion as real * n) / n == perQuestion as real;
  }

  /** A non-negative total over a positive count never averages below zero. */
  lemma AvgNonNegative(totalTimeSeconds: int, questionCount: int)
    requires totalTimeSeconds >= 0 && questionCount > 0
    ensures CalculateAvgTimePerQuestion(totalTimeSeconds, questionCount) >= 0
  {
    var mean := totalTimeSeconds as real / questionCount as real;
    JsNumber.RoundNonNegative(mean);
  }
}
