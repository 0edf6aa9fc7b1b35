/**
  `formatUserAnswer` and `formatCorrectAnswer`: the display text of an answer and
  of a key. How a number is printed (`String(value)`, `${min}`) is the parameter
  `render`.
 */
module AnswerFormat {
  import opened ExamTypes
  import StableSort

  const NotAttempted := "Not Attempted"

  /** `String.fromCharCode(65 + idx)` first takes the UTF-16 code unit `ToUint16(65 + idx)`. */
  function CodeUnit(idx: int): (u: int)
    ensures 0 <= u < 0x1_0000
    ensures 0 <= idx < 0x1_0000 - 65 ==> u == 65 + idx
  {
    (65 + idx) % 0x1_0000
  }

  /** The character of a code unit; a lone surrogate, which is no Unicode scalar value, becomes U+FFFD. */
  function UnitChar(u: int): char
    requires 0 <= u < 0x1_0000
  {
    if 0xD800 <= u < 0xE000 then '�' else u as char
  }

  /** The letter of option `idx`. */
  function OptionLetter(idx: int): char {
    UnitChar(CodeUnit(idx))
  }

  /** Options 0 to 25 are the letters A to Z. */
  lemma LettersAToZ(idx: int)
    requires 0 <= idx < 26
    ensures OptionLetter(idx) == ('A' as int + idx) as char
    ensures 'A' <= OptionLetter(idx) <= 'Z'
  {
  }

  /** `"Option " + letter`. */
  function OptionText(idx: int): string {
    "Option " + [OptionLetter(idx)]
  }

  /** `parts.join(sep)`. */
  function Join(parts: seq<string>, sep: string): string {
    if |parts| == 0 then ""
    else if |parts| == 1 then parts[0]
    else Join(parts[..|parts| - 1], sep) + sep + parts[|parts| - 1]
  }

  /** The code units of the selected indices, in selection order. */
  function Units(idxs: seq<int>): (r: seq<int>)
    ensures |r| == |idxs|
    ensures forall i :: 0 <= i < |idxs| ==> r[i] == CodeUnit(idxs[i])
  {
    seq(|idxs|, i requires 0 <= i < |idxs| => CodeUnit(idxs[i]))
  }

  /** The key by which `.sort()` orders one-character strings: their code unit. */
  function UnitKey(u: int): real {
    u as real
  }

  /** One single-character string per code unit. */
  function Singles(units: seq<int>): (r: seq<string>)
    requires forall i :: 0 <= i < |units| ==> 0 <= units[i] < 0x1_0000
    ensures |r| == |units|
    ensures forall i :: 0 <= i < |units| ==> r[i] == [UnitChar(units[i])]
  {
    seq(|units|, i requires 0 <= i < |units| => [UnitChar(units[i])])
  }

  /** The code units of a selection in the order `.sort()` leaves them. */
  function SortedUnits(idxs: seq<int>): (r: seq<int>)
    ensures |r| == |idxs|
    ensures multiset(r) == multiset(Units(idxs))
    ensures Ascending(r)
    ensures forall i :: 0 <= i < |r| ==> 0 <= r[i] < 0x1_0000
  {
    var r := StableSort.SortBy(Units(idxs), UnitKey);
    forall i | 0 <= i < |r| ensures 0 <= r[i] < 0x1_0000 {
      assert r[i] in multiset(Units(idxs));
    }
    r
  }

  /** `idxs.map(idx => String.fromCharCode(65 + idx)).sort().join(', ')`. */
  function LetterList(idxs: seq<int>): string {
    Join(Singles(SortedUnits(idxs)), ", ")
  }

  /** The text of a user's answer. */
  function FormatUserAnswer(q: Question, answer: UserAnswer, render: real -> string): string {
    match answer
    case AnswerNone => NotAttempted
    case AnswerSingle(selected) => if selected.None? then NotAttempted else OptionText(selected.value)
    case AnswerMulti(selected) => if |selected| == 0 then NotAttempted else LetterList(selected)
    case AnswerNat(value) => if value.None? then NotAttempted else render(value.value)
  }

  /** `r.min === r.max ? `${r.min}` : `${r.min} to ${r.max}``. */
  function RangeText(r: NumRange, render: real -> string): string {
    if r.min == r.max then render(r.min) else render(r.min) + " to " + render(r.max)
  }

  /** The text of every accepted range, in order. */
  function RangeTexts(ranges: seq<NumRange>, render: real -> string): (r: seq<string>)
    ensures |r| == |ranges|
    ensures forall i :: 0 <= i < |ranges| ==> r[i] == RangeText(ranges[i], render)
  {
    seq(|ranges|, i requires 0 <= i < |ranges| => RangeText(ranges[i], render))
  }

  /** The text of a key. */
  function FormatCorrectAnswer(q: Question, key: CorrectAnswer, render: real -> string): string {
    match key
    case CorrectSingle(k) => OptionText(k)
    case CorrectMulti(ks) => LetterList(ks)
    case CorrectNat(ranges) => Join(RangeTexts(ranges, render), " or ")
  }

  /**
    Joining one-character strings with ", ": the i-th character sits at 3i, each
    followed by the separator except the last.
   */
  lemma {:induction false} JoinSingles(parts: seq<string>)
    requires |parts| > 0
    requires forall i :: 0 <= i < |parts| ==> |parts[i]| == 1
    ensures |Join(parts, ", ")| == 3 * |parts| - 2
    ensures forall i :: 0 <= i < |parts| ==> Join(parts, ", ")[3 * i] == parts[i][0]
    ensures forall i :: 0 <= i < |parts| - 1 ==> Join(parts, ", ")[3 * i + 1 .. 3 * i + 3] == ", "
  {
    if |parts| > 1 {
      var init := parts[..|parts| - 1];
      JoinSingles(init);
      var j := Join(init, ", ");
      assert Join(parts, ", ") == j + ", " + parts[|parts| - 1];
      forall i | 0 <= i < |parts| ensures Join(parts, ", ")[3 * i] == parts[i][0] {
        if i < |parts| - 1 {
          assert init[i] == parts[i];
        }
      }
      forall i | 0 <= i < |parts| - 1 ensures Join(parts, ", ")[3 * i + 1 .. 3 * i + 3] == ", " {
        if i < |parts| - 2 {
          assert Join(parts, ", ")[3 * i + 1 .. 3 * i + 3] == j[3 * i + 1 .. 3 * i + 3];
        }
      }
    }
  }

  /**
    The letter list of a non-empty selection: one letter per selected index, the
    letters in code-unit order and a permutation of the selection's letters,
    separated by ", ".
   */
  lemma LetterListShape(idxs: seq<int>)
    requires |idxs| > 0
    ensures var r, u := LetterList(idxs), SortedUnits(idxs);
            && |r| == 3 * |idxs| - 2
            && (forall i :: 0 <= i < |idxs| ==> r[3 * i] == UnitChar(u[i]))
            && (forall i :: 0 <= i < |idxs| - 1 ==> r[3 * i + 1 .. 3 * i + 3] == ", ")
  {
    JoinSingles(Singles(SortedUnits(idxs)));
  }

  /** The integers of `s` never decrease. */
  ghost predicate Ascending(s: seq<int>) {
    forall i, j :: 0 <= i < j < |s| ==> s[i] <= s[j]
  }

  /** Two ascending integer sequences with the same elements are the same sequence. */
  lemma {:induction false} SortedUnique(a: seq<int>, b: seq<int>)
    requires multiset(a) == multiset(b)
    requires Ascending(a) && Ascending(b)
    ensures a == b
  {
    assert |a| == |multiset(a)| == |multiset(b)| == |b|;
    if |a| > 0 {
      assert a[0] in multiset(b);
      var j :| 0 <= j < |b| && b[j] == a[0];
      assert b[0] <= b[j];
      assert b[0] in multiset(a);
      var k :| 0 <= k < |a| && a[k] == b[0];
      assert a[0] <= a[k];
      assert a[0] == b[0];
      assert a == [a[0]] + a[1..] && b == [b[0]] + b[1..];
      assert multiset(a) == multiset([a[0]]) + multiset(a[1..]);
      assert multiset(b) == multiset([a[0]]) + multiset(b[1..]);
      MultisetCancel(multiset([a[0]]), multiset(a[1..]), multiset(b[1..]));
      assert Ascending(a[1..]) by {
        forall i, i' | 0 <= i < i' < |a| - 1 ensures a[1..][i] <= a[1..][i'] {
          assert a[1..][i] == a[i + 1] && a[1..][i'] == a[i' + 1];
        }
      }
      assert Ascending(b[1..]) by {
        forall i, i' | 0 <= i < i' < |b| - 1 ensures b[1..][i] <= b[1..][i'] {
          assert b[1..][i] == b[i + 1] && b[1..][i'] == b[i' + 1];
        }
      }
      SortedUnique(a[1..], b[1..]);
    }
  }

  lemma MultisetCancel(m: multiset<int>, x: multiset<int>, y: multiset<int>)
    requires m + x == m + y
    ensures x == y
  {
    forall e ensures x[e] == y[e] {
      assert (m + x)[e] == m[e] + x[e] && (m + y)[e] == m[e] + y[e];
    }
  }

  lemma UnitsAppend(a: seq<int>, b: seq<int>)
    ensures Units(a + b) == Units(a) + Units(b)
  {
  }

  /** Selections with the same elements have code units with the same elements. */
  lemma {:induction false} UnitsPermutation(a: seq<int>, b: seq<int>)
    requires multiset(a) == multiset(b)
    ensures multiset(Units(a)) == multiset(Units(b))
  {
    if |a| > 0 {
      var x := a[|a| - 1];
      assert x in multiset(b);
      var j :| 0 <= j < |b| && b[j] == x;
      var rest := b[..j] + b[j + 1..];
      assert b == b[..j] + [x] + b[j + 1..];
      assert a == a[..|a| - 1] + [x];
      assert multiset(b) == multiset(b[..j]) + multiset([x]) + multiset(b[j + 1..]);
      assert multiset(rest) == multiset(b[..j]) + multiset(b[j + 1..]);
      assert multiset(a) == multiset(a[..|a| - 1]) + multiset([x]);
      assert multiset([x]) + multiset(a[..|a| - 1]) == multiset(a);
      assert multiset([x]) + multiset(rest) == multiset(b);
      MultisetCancel(multiset([x]), multiset(a[..|a| - 1]), multiset(rest));
      UnitsPermutation(a[..|a| - 1], rest);
      UnitsAppend(a[..|a| - 1], [x]);
      UnitsAppend(b[..j], [x]);
      UnitsAppend(b[..j] + [x], b[j + 1..]);
      UnitsAppend(b[..j], b[j + 1..]);
    }
  }

  /** `.sort()` makes the text independent of the order and of the position of repeats in the selection. */
  lemma LetterListOrderFree(a: seq<int>, b: seq<int>)
    requires multiset(a) == multiset(b)
    ensures LetterList(a) == LetterList(b)
  {
    UnitsPermutation(a, b);
    SortedUnique(SortedUnits(a), SortedUnits(b));
  }

  /**
    "Not Attempted" is shown exactly for `none`, a null single selection, an empty
    multiple selection and a null numerical value — unless the rendering of a number
    happens to be that text.
   */
  lemma NotAttemptedIff(q: Question, answer: UserAnswer, render: real -> string)
    ensures FormatUserAnswer(q, answer, render) == NotAttempted
            <==> answer == AnswerNone || answer == AnswerSingle(None) || answer == AnswerMulti([])
                 || answer == AnswerNat(None)
                 || (answer.AnswerNat? && answer.value.Some? && render(answer.value.value) == NotAttempted)
  {
    match answer
    case AnswerSingle(selected) =>
      if selected.Some? {
        assert |OptionText(selected.value)| == 8;
      }
    case AnswerMulti(selected) =>
      if |selected| > 0 {
        LetterListShape(selected);
        var r := LetterList(selected);
        if |selected| > 1 {
          assert r[3 * 0 + 1 .. 3 * 0 + 3] == ", ";
          assert r[1] == ',';
        } else {
          assert |r| == 1;
        }
      }
    case _ =>
  }

  /** A right single or multiple choice answer is shown with the same text as its key. */
  lemma RightAnswerShownAsKey(q: Question, render: real -> string)
    ensures q.correctAnswer.CorrectSingle? ==>
              FormatUserAnswer(q, AnswerSingle(Some(q.correctAnswer.correctOptionIndex)), render)
              == FormatCorrectAnswer(q, q.correctAnswer, render)
    ensures q.correctAnswer.CorrectMulti? && |q.correctAnswer.correctOptionIndices| > 0 ==>
              FormatUserAnswer(q, AnswerMulti(q.correctAnswer.correctOptionIndices), render)
              == FormatCorrectAnswer(q, q.correctAnswer, render)
  {
  }

  /** An empty multiple-choice key is shown as the empty string, not as "Not Attempted". */
  lemma EmptyKeyText(q: Question, render: real -> string)
    ensures FormatCorrectAnswer(q, CorrectMulti([]), render) == ""
    ensures FormatCorrectAnswer(q, CorrectNat([]), render) == ""
  {
  }

  /** Ranges are shown in order, a point range as its single value, and joined by " or ". */
  lemma RangesText(q: Question, a: NumRange, b: real, render: real -> string)
    ensures FormatCorrectAnswer(q, CorrectNat([a]), render) == RangeText(a, render)
    ensures FormatCorrectAnswer(q, CorrectNat([a, NumRange(b, b)]), render)
            == RangeText(a, render) + " or " + render(b)
  {
    assert RangeTexts([a], render) == [RangeText(a, render)];
    var texts := RangeTexts([a, NumRange(b, b)], render);
    assert texts == [RangeText(a, render), render(b)];
    assert texts[..1] == [RangeText(a, render)];
  }

  lemma ThreeUnits(a: int, c: int)
    requires 0 <= a < c < 26
    ensures multiset(Units([c, a, c])) == multiset([65 + a, 65 + c, 65 + c])
  {
    var w := Units([c, a, c]);
    assert w == [65 + c, 65 + a, 65 + c] by {
      assert w[0] == 65 + c && w[1] == 65 + a && w[2] == 65 + c;
    }
  }

  /** Sorting the code units of a selection `c, a, c` with `a < c`. */
  lemma SortedUnitsExample(a: int, c: int)
    requires 0 <= a < c < 26
    ensures SortedUnits([c, a, c]) == [65 + a, 65 + c, 65 + c]
  {
    var u, v := SortedUnits([c, a, c]), [65 + a, 65 + c, 65 + c];
    ThreeUnits(a, c);
    assert multiset(u) == multiset(v);
    assert Ascending(v);
    SortedUnique(u, v);
  }

  /** Selecting `c, a, c` with `a < c` shows the two letters sorted, the repeat kept. */
  lemma LetterListSorts(a: int, c: int)
    requires 0 <= a < c < 26
    ensures LetterList([c, a, c]) == [OptionLetter(a)] + ", " + [OptionLetter(c)] + ", " + [OptionLetter(c)]
  {
    SortedUnitsExample(a, c);
    var s := Singles([65 + a, 65 + c, 65 + c]);
    var la, lc := [OptionLetter(a)], [OptionLetter(c)];
    assert s == [la, lc, lc];
    assert s[..2] == [la, lc] && s[..2][..1] == [la];
    assert Join([la], ", ") == la;
    assert Join([la, lc], ", ") == la + ", " + lc;
  }

  /** Selecting C, A, C shows "A, C, C". */
  lemma LetterListExample()
    ensures LetterList([2, 0, 2]) == "A, C, C"
  {
    LetterListSorts(0, 2);
  }
}
