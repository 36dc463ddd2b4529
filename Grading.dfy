// Grading of one question: the learner's selection, sorted numerically, must
// equal the question's correct answers, sorted the same way.
module Grading {

  /** One entry of the question bank; position in the bank is its identity. */
  datatype Question = Question(text: string, options: seq<string>, correctAnswers: seq<int>, topic: string)

  /** A question is multi-answer (checkbox) when it has more than one correct option. */
  predicate IsMultiple(q: Question) {
    |q.correctAnswers| > 1
  }

  /** The selection recorded for question `idx`; an absent entry reads as no selection. */
  function SelectionOf(answers: map<int, seq<int>>, idx: int): seq<int>
  {
    if idx in answers then answers[idx] else []
  }

  predicate Sorted(s: seq<int>) {
    forall i, j :: 0 <= i < j < |s| ==> s[i] <= s[j]
  }

  /** No element occurs twice. */
  predicate NoDup<T(==)>(s: seq<T>) {
    forall i, j :: 0 <= i < j < |s| ==> s[i] != s[j]
  }

  /** Inserts `x` before the first element not below it. */
  function Insert(x: int, s: seq<int>): seq<int> {
    if s == [] then [x]
    else if x <= s[0] then [x] + s
    else [s[0]] + Insert(x, s[1..])
  }

  /** Numeric ascending sort, as `slice().sort((a, b) => a - b)` does (insertion sort;
      on integers every ascending sort gives the same result). */
  function Sort(s: seq<int>): seq<int> {
    if s == [] then [] else Insert(s[0], Sort(s[1..]))
  }

  /** Every element of `s` is at least `x`. */
  predicate LowerBound(x: int, s: seq<int>) {
    forall k :: 0 <= k < |s| ==> x <= s[k]
  }

  lemma SortedCons(x: int, t: seq<int>)
    requires Sorted(t) && LowerBound(x, t)
    ensures Sorted([x] + t)
  {
  }

  /** A lower bound of `s` that is also below `x` stays a lower bound after inserting `x`. */
  lemma {:induction false} InsertLowerBound(y: int, x: int, s: seq<int>)
    requires y <= x && LowerBound(y, s)
    ensures LowerBound(y, Insert(x, s))
  {
    if s != [] && x > s[0] {
      InsertLowerBound(y, x, s[1..]);
      var t := Insert(x, s[1..]);
      assert Insert(x, s) == [s[0]] + t;
    }
  }

  /** Inserting into a sorted sequence keeps it sorted and adds exactly `x`. */
  lemma {:induction false} InsertSorted(x: int, s: seq<int>)
    requires Sorted(s)
    ensures Sorted(Insert(x, s))
    ensures multiset(Insert(x, s)) == multiset(s) + multiset{x}
  {
    if s == [] {
    } else if x <= s[0] {
      assert LowerBound(x, s);
      SortedCons(x, s);
    } else {
      assert s == [s[0]] + s[1..];
      InsertSorted(x, s[1..]);
      InsertLowerBound(s[0], x, s[1..]);
      SortedCons(s[0], Insert(x, s[1..]));
    }
  }

  /** The sort returns an ascending permutation of its input. */
  lemma {:induction false} SortSorted(s: seq<int>)
    ensures Sorted(Sort(s))
    ensures multiset(Sort(s)) == multiset(s)
  {
    if s != [] {
      assert s == [s[0]] + s[1..];
      SortSorted(s[1..]);
      InsertSorted(s[0], Sort(s[1..]));
    }
  }

  /** Exact-match grading: the sorted selection equals the sorted correct answers. */
  predicate IsCorrect(selection: seq<int>, correct: seq<int>) {
    Sort(selection) == Sort(correct)
  }

  /** Two sorted sequences with the same elements (counted with multiplicity) are equal. */
  lemma {:induction false} SortedUnique(a: seq<int>, b: seq<int>)
    requires Sorted(a) && Sorted(b)
    requires multiset(a) == multiset(b)
    ensures a == b
  {
    if a == [] {
      assert |multiset(b)| == 0;
    } else {
      assert b != [] by { assert a[0] in multiset(b); }
      assert a[0] == b[0] by {
        assert b[0] in multiset(a);
        SortedHeadIsMin(a, b[0]);
        SortedHeadIsMin(b, a[0]);
      }
      assert multiset(a[1..]) == multiset(b[1..]) by {
        TailMultiset(a);
        TailMultiset(b);
      }
      SortedTail(a);
      SortedTail(b);
      SortedUnique(a[1..], b[1..]);
      assert a == [a[0]] + a[1..];
      assert b == [b[0]] + b[1..];
    }
  }

  lemma SortedTail(a: seq<int>)
    requires Sorted(a) && a != []
    ensures Sorted(a[1..])
  {
  }

  /** The head of a non-empty sorted sequence is its least element. */
  lemma SortedHeadIsMin(a: seq<int>, x: int)
    requires Sorted(a) && x in a
    ensures a[0] <= x
  {
  }

  /** Dropping the head removes one occurrence of it. */
  lemma TailMultiset(a: seq<int>)
    requires a != []
    ensures multiset(a[1..]) == multiset(a) - multiset{a[0]}
  {
    assert a == [a[0]] + a[1..];
  }

  /** Grading depends only on which options were chosen and how often, never on
      the order in which they were chosen. */
  lemma CorrectIffSameElements(selection: seq<int>, correct: seq<int>)
    ensures IsCorrect(selection, correct) <==> multiset(selection) == multiset(correct)
  {
    SortSorted(selection);
    SortSorted(correct);
    if multiset(selection) == multiset(correct) {
      SortedUnique(Sort(selection), Sort(correct));
    }
  }

  /** In a duplicate-free sequence every element occurs exactly once. */
  lemma {:induction false} NoDupMultiplicity(s: seq<int>, x: int)
    requires NoDup(s)
    ensures multiset(s)[x] == if x in s then 1 else 0
  {
    if s != [] {
      assert s == [s[0]] + s[1..];
      assert NoDup(s[1..]);
      NoDupMultiplicity(s[1..], x);
      assert s[0] !in s[1..];
    }
  }

  /** For duplicate-free selections and answer keys, grading is set equality. */
  lemma CorrectIffSameSet(selection: seq<int>, correct: seq<int>)
    requires NoDup(selection) && NoDup(correct)
    ensures IsCorrect(selection, correct) <==> (forall x :: x in selection <==> x in correct)
  {
    CorrectIffSameElements(selection, correct);
    if forall x :: x in selection <==> x in correct {
      forall x ensures multiset(selection)[x] == multiset(correct)[x] {
        NoDupMultiplicity(selection, x);
        NoDupMultiplicity(correct, x);
      }
      assert multiset(selection) == multiset(correct);
    } else {
      var x :| !(x in selection <==> x in correct);
      NoPartialCredit(selection, correct, x);
    }
  }

  /** There is no partial credit: a selection missing a correct option, or holding an
      option that is not correct, is graded wrong. */
  lemma NoPartialCredit(selection: seq<int>, correct: seq<int>, x: int)
    requires (x in correct && x !in selection) || (x in selection && x !in correct)
    ensures !IsCorrect(selection, correct)
  {
    CorrectIffSameElements(selection, correct);
    assert multiset(selection)[x] != multiset(correct)[x];
  }

  /** An answer key that repeats an option can never be matched by a duplicate-free
      selection, which is every selection clicking produces. */
  lemma DupKeyNeverMatched(selection: seq<int>, correct: seq<int>)
    requires NoDup(selection) && !NoDup(correct)
    ensures !IsCorrect(selection, correct)
  {
    var i, j :| 0 <= i < j < |correct| && correct[i] == correct[j];
    var v := correct[i];
    assert correct == correct[..j] + correct[j..];
    assert v in correct[..j];
    assert correct[j..][0] == v;
    assert multiset(correct)[v] >= 2;
    NoDupMultiplicity(selection, v);
    CorrectIffSameElements(selection, correct);
  }

  /** The multi-select example: with correct answers [0, 2], only the selection
      {0, 2} (in either order) is correct; [0], [2], [0, 1, 2] and [] are not. */
  lemma TwoOfThreeExample()
    ensures IsCorrect([0, 2], [0, 2]) && IsCorrect([2, 0], [0, 2])
    ensures !IsCorrect([0], [0, 2]) && !IsCorrect([2], [0, 2])
    ensures !IsCorrect([0, 1, 2], [0, 2]) && !IsCorrect([], [0, 2])
  {
    CorrectIffSameElements([2, 0], [0, 2]);
    NoPartialCredit([0], [0, 2], 2);
    NoPartialCredit([2], [0, 2], 0);
    NoPartialCredit([0, 1, 2], [0, 2], 1);
    NoPartialCredit([], [0, 2], 0);
  }
}
