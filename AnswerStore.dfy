/** The learner's answer store: a map from question index to the list of
    option indices selected for it, and the update applied when an option is
    clicked (radio semantics for single-answer questions, checkbox semantics
    for multi-answer ones). */
module AnswerStore {
  import opened Grading

  /** Every recorded selection is free of duplicates. */
  predicate WellFormed(answers: map<int, seq<int>>) {
    forall k :: k in answers ==> NoDup(answers[k])
  }

  /** `s` without any occurrence of `x`, other elements kept in order
      (`filter(y => y !== x)`). */
  function Remove(s: seq<int>, x: int): (r: seq<int>)
    ensures multiset(r) == multiset(s)[x := 0]
    ensures NoDup(s) ==> NoDup(r)
  {
    if s == [] then []
    else
      assert s == [s[0]] + s[1..];
      var t := Remove(s[1..], x);
      if s[0] == x then t
      else
        assert NoDup(s) ==> NoDup([s[0]] + t) by {
          if NoDup(s) {
            assert s[0] !in s[1..];
            assert s[0] !in multiset(s[1..]);
            assert s[0] !in multiset(t);
            ConsNoDup(s[0], t);
          }
        }
        [s[0]] + t
  }

  lemma ConsNoDup(y: int, t: seq<int>)
    requires NoDup(t) && y !in t
    ensures NoDup([y] + t)
  {
  }

  /** The answer map after option `optIdx` of question `qIdx` is clicked. */
  function Toggle(answers: map<int, seq<int>>, qIdx: int, optIdx: int, multiple: bool): (r: map<int, seq<int>>)
    ensures r.Keys == answers.Keys + {qIdx}
    ensures forall k :: k in answers && k != qIdx ==> r[k] == answers[k]
    // radio: the clicked option becomes the only selection, whatever was there
    ensures !multiple ==> r[qIdx] == [optIdx]
    // checkbox: the clicked option flips, every other option keeps its count
    ensures multiple ==> (optIdx in r[qIdx] <==> optIdx !in SelectionOf(answers, qIdx))
    ensures multiple ==> forall y :: y != optIdx ==> multiset(r[qIdx])[y] == multiset(SelectionOf(answers, qIdx))[y]
    // a newly checked option goes to the end of the list
    ensures multiple && optIdx !in SelectionOf(answers, qIdx) ==> r[qIdx] == SelectionOf(answers, qIdx) + [optIdx]
  {
    var cur := SelectionOf(answers, qIdx);
    if !multiple then answers[qIdx := [optIdx]]
    else if optIdx in cur then
      assert optIdx !in multiset(Remove(cur, optIdx));
      answers[qIdx := Remove(cur, optIdx)]
    else answers[qIdx := cur + [optIdx]]
  }

  /** Clicking keeps every recorded selection duplicate-free. */
  lemma ToggleKeepsWellFormed(answers: map<int, seq<int>>, qIdx: int, optIdx: int, multiple: bool)
    requires WellFormed(answers)
    ensures WellFormed(Toggle(answers, qIdx, optIdx, multiple))
  {
    var r := Toggle(answers, qIdx, optIdx, multiple);
    var cur := SelectionOf(answers, qIdx);
    if multiple && optIdx !in cur {
      forall i, j | 0 <= i < j < |r[qIdx]| ensures r[qIdx][i] != r[qIdx][j] {
        if j == |cur| {
          assert r[qIdx][i] == cur[i];
        }
      }
    }
  }

  /** Clicking the same checkbox twice restores the original selection, up to order,
      and leaves every other question's selection as it was. */
  lemma ToggleTwiceRestores(answers: map<int, seq<int>>, qIdx: int, optIdx: int)
    requires NoDup(SelectionOf(answers, qIdx))
    ensures forall k :: multiset(SelectionOf(Toggle(Toggle(answers, qIdx, optIdx, true), qIdx, optIdx, true), k))
                        == multiset(SelectionOf(answers, k))
  {
    forall k
      ensures multiset(SelectionOf(Toggle(Toggle(answers, qIdx, optIdx, true), qIdx, optIdx, true), k))
           == multiset(SelectionOf(answers, k))
    {
      if k == qIdx {
        ToggleTwiceSame(answers, qIdx, optIdx);
      }
    }
  }

  /** The clicked question's selection after two clicks on the same checkbox. */
  lemma ToggleTwiceSame(answers: map<int, seq<int>>, qIdx: int, optIdx: int)
    requires NoDup(SelectionOf(answers, qIdx))
    ensures multiset(Toggle(Toggle(answers, qIdx, optIdx, true), qIdx, optIdx, true)[qIdx])
         == multiset(SelectionOf(answers, qIdx))
  {
    var twice := Toggle(Toggle(answers, qIdx, optIdx, true), qIdx, optIdx, true);
    var cur := SelectionOf(answers, qIdx);
    if optIdx in cur {
      NoDupMultiplicity(cur, optIdx);
      assert multiset(twice[qIdx]) == multiset(cur);
    } else {
      assert twice[qIdx] == Remove(cur + [optIdx], optIdx);
    }
  }

  /** Because grading ignores order, clicking a checkbox twice never changes
      whether any question is graded correct. */
  lemma ToggleTwiceKeepsGrade(answers: map<int, seq<int>>, qIdx: int, optIdx: int, k: int, correct: seq<int>)
    requires NoDup(SelectionOf(answers, qIdx))
    ensures IsCorrect(SelectionOf(Toggle(Toggle(answers, qIdx, optIdx, true), qIdx, optIdx, true), k), correct)
        <==> IsCorrect(SelectionOf(answers, k), correct)
  {
    var twice := Toggle(Toggle(answers, qIdx, optIdx, true), qIdx, optIdx, true);
    ToggleTwiceRestores(answers, qIdx, optIdx);
    CorrectIffSameElements(SelectionOf(twice, k), correct);
    CorrectIffSameElements(SelectionOf(answers, k), correct);
  }
}
