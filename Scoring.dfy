/** Scoring of a finished quiz: every question is worth 1000 / N points, a
    question earns them only on an exact match, and points, question counts and
    correct counts are accumulated per topic in bank order. */
module Scoring {
  import opened Grading

  /** What one topic accumulates: points earned, questions seen, questions correct. */
  datatype TopicResult = TopicResult(points: real, totalQuestions: nat, correct: nat)

  const NoResult := TopicResult(0.0, 0, 0)

  function Plus(a: TopicResult, b: TopicResult): TopicResult {
    TopicResult(a.points + b.points, a.totalQuestions + b.totalQuestions, a.correct + b.correct)
  }

  /** `c` questions worth `v` each, added up one at a time as the scoring pass does. */
  function Times(c: nat, v: real): real {
    if c == 0 then 0.0 else Times(c - 1, v) + v
  }

  /** Adding up `c` values `v` gives `c * v`. */
  lemma {:induction false} TimesIsProduct(c: nat, v: real)
    ensures Times(c, v) == c as real * v
  {
    if c > 0 {
      TimesIsProduct(c - 1, v);
    }
  }

  /** The points one question is worth in a bank of `n` questions. With an empty
      bank the value is never used; it is taken as 0 here. */
  function QuestionValue(n: nat): (v: real)
    ensures v >= 0.0
    ensures n > 0 ==> v * n as real == 1000.0
  {
    if n == 0 then 0.0 else 1000.0 / n as real
  }

  /** The grades of the first `k` questions, in bank order: exact match of the
      learner's selection (none when absent) against the correct answers. */
  function Grades(qs: seq<Question>, answers: map<int, seq<int>>, k: nat): (g: seq<bool>)
    requires k <= |qs|
    ensures |g| == k
  {
    if k == 0 then []
    else Grades(qs, answers, k - 1) + [IsCorrect(SelectionOf(answers, k - 1), qs[k - 1].correctAnswers)]
  }

  lemma {:induction false} GradeAt(qs: seq<Question>, answers: map<int, seq<int>>, k: nat, i: nat)
    requires i < k <= |qs|
    ensures Grades(qs, answers, k)[i] == IsCorrect(SelectionOf(answers, i), qs[i].correctAnswers)
  {
    if i < k - 1 {
      GradeAt(qs, answers, k - 1, i);
    }
  }

  /** Grades depend only on the selections looked up for the graded questions. */
  lemma {:induction false} GradesExt(qs: seq<Question>, a: map<int, seq<int>>, b: map<int, seq<int>>, k: nat)
    requires k <= |qs|
    requires forall j :: 0 <= j < k ==> SelectionOf(a, j) == SelectionOf(b, j)
    ensures Grades(qs, a, k) == Grades(qs, b, k)
  {
    if k > 0 {
      GradesExt(qs, a, b, k - 1);
    }
  }

  /** A question with no answer entry is scored exactly like one whose entry is
      empty: the grades, the grand total, the correct count and the topics agree. */
  lemma AbsentIsEmpty(qs: seq<Question>, answers: map<int, seq<int>>, i: int)
    ensures Grades(qs, answers - {i}, |qs|) == Grades(qs, answers[i := []], |qs|)
    ensures TotalPoints(qs, answers - {i}) == TotalPoints(qs, answers[i := []])
    ensures CorrectCount(qs, answers - {i}) == CorrectCount(qs, answers[i := []])
    ensures Topics(qs, answers - {i}) == Topics(qs, answers[i := []])
  {
    GradesExt(qs, answers - {i}, answers[i := []], |qs|);
  }

  /** The entry of `topic`, created empty on first sight. */
  function Entry(topics: map<string, TopicResult>, topic: string): TopicResult {
    if topic in topics then topics[topic] else NoResult
  }

  /** An entry after one more question of its topic was graded. */
  function Bump(e: TopicResult, correct: bool, value: real): TopicResult {
    TopicResult(e.points + (if correct then value else 0.0), e.totalQuestions + 1, e.correct + (if correct then 1 else 0))
  }

  /** The topics dictionary after recording one question of `topic`. */
  function Record(topics: map<string, TopicResult>, topic: string, correct: bool, value: real): map<string, TopicResult> {
    topics[topic := Bump(Entry(topics, topic), correct, value)]
  }

  // ---- Specification of the scoring pass over the first k questions, given their grades ----

  function TopicsUpTo(qs: seq<Question>, grades: seq<bool>, value: real, k: nat): map<string, TopicResult>
    requires k <= |qs| == |grades|
  {
    if k == 0 then map[]
    else Record(TopicsUpTo(qs, grades, value, k - 1), qs[k - 1].topic, grades[k - 1], value)
  }

  function TotalUpTo(grades: seq<bool>, value: real, k: nat): real
    requires k <= |grades|
  {
    if k == 0 then 0.0
    else TotalUpTo(grades, value, k - 1) + (if grades[k - 1] then value else 0.0)
  }

  /** Number of correctly answered questions among the first `k`. */
  function CorrectUpTo(grades: seq<bool>, k: nat): nat
    requires k <= |grades|
  {
    if k == 0 then 0
    else CorrectUpTo(grades, k - 1) + (if grades[k - 1] then 1 else 0)
  }

  /** Number of questions of topic `t` among the first `k`. */
  function CountTopic(qs: seq<Question>, k: nat, t: string): nat
    requires k <= |qs|
  {
    if k == 0 then 0
    else CountTopic(qs, k - 1, t) + (if qs[k - 1].topic == t then 1 else 0)
  }

  /** Number of correctly answered questions of topic `t` among the first `k`. */
  function CorrectInTopic(qs: seq<Question>, grades: seq<bool>, k: nat, t: string): nat
    requires k <= |qs| == |grades|
  {
    if k == 0 then 0
    else CorrectInTopic(qs, grades, k - 1, t) + (if qs[k - 1].topic == t && grades[k - 1] then 1 else 0)
  }

  /** The distinct topics of the first `k` questions, in order of first appearance
      (the order in which the topics dictionary receives its keys). */
  function TopicOrder(qs: seq<Question>, k: nat): seq<string>
    requires k <= |qs|
  {
    if k == 0 then []
    else
      var order := TopicOrder(qs, k - 1);
      if qs[k - 1].topic in order then order else order + [qs[k - 1].topic]
  }

  /** Component-wise sum of the results of the topics in `keys`. */
  function SumResults(keys: seq<string>, topics: map<string, TopicResult>): TopicResult {
    if keys == [] then NoResult
    else Plus(SumResults(keys[..|keys| - 1], topics), Entry(topics, keys[|keys| - 1]))
  }

  /** The unrounded grand total, the topics dictionary and the number of correct
      questions of a whole bank. */
  function TotalPoints(qs: seq<Question>, answers: map<int, seq<int>>): real {
    TotalUpTo(Grades(qs, answers, |qs|), QuestionValue(|qs|), |qs|)
  }

  function Topics(qs: seq<Question>, answers: map<int, seq<int>>): map<string, TopicResult> {
    TopicsUpTo(qs, Grades(qs, answers, |qs|), QuestionValue(|qs|), |qs|)
  }

  function CorrectCount(qs: seq<Question>, answers: map<int, seq<int>>): nat {
    CorrectUpTo(Grades(qs, answers, |qs|), |qs|)
  }

  /** Rounding to two decimals, half up (`Math.round(x * 100) / 100`) on exact reals. */
  function Round2(x: real): (r: real)
    ensures (r * 100.0).Floor as real == r * 100.0
    ensures x - 0.005 < r <= x + 0.005
    ensures 0.0 <= x <= 1000.0 ==> 0.0 <= r <= 1000.0
  {
    ((x * 100.0 + 0.5).Floor as real) / 100.0
  }

  /** A value that already has two decimals is left as it is. */
  lemma Round2Exact(c: int)
    ensures Round2(c as real / 100.0) == c as real / 100.0
  {
    assert (c as real / 100.0) * 100.0 + 0.5 == c as real + 0.5;
    assert (c as real + 0.5).Floor == c;
  }

  // ---- The scoring pass as the source runs it ----

  /** One pass over the bank in order, accumulating the running total and the
      topics dictionary; the total is rounded once, at the end. */
  method CalculateResults(qs: seq<Question>, answers: map<int, seq<int>>) returns (total: real, topics: map<string, TopicResult>)
    ensures total == Round2(TotalPoints(qs, answers))
    ensures topics == Topics(qs, answers)
    ensures 0.0 <= total <= 1000.0
  {
    var value := QuestionValue(|qs|);
    ghost var grades := Grades(qs, answers, |qs|);
    var sum := 0.0;
    topics := map[];
    var i := 0;
    while i < |qs|
      invariant 0 <= i <= |qs|
      invariant sum == TotalUpTo(grades, value, i)
      invariant topics == TopicsUpTo(qs, grades, value, i)
    {
      var q := qs[i];
      var sel := Sort(SelectionOf(answers, i));
      var correct := Sort(q.correctAnswers);
      var isCorrect := sel == correct;
      GradeAt(qs, answers, |qs|, i);
      if q.topic !in topics {
        topics := topics[q.topic := NoResult];
      }
      var entry := topics[q.topic];
      entry := entry.(totalQuestions := entry.totalQuestions + 1);
      if isCorrect {
        entry := entry.(points := entry.points + value, correct := entry.correct + 1);
        sum := sum + value;
      }
      topics := topics[q.topic := entry];
      i := i + 1;
    }
    ScoreBounds(qs, answers);
    total := Round2(sum);
  }

  // ---- Properties of the score ----

  /** The running total is the number of correct questions times the question value. */
  lemma {:induction false} TotalIsCorrectTimesValue(grades: seq<bool>, value: real, k: nat)
    requires k <= |grades|
    ensures TotalUpTo(grades, value, k) == CorrectUpTo(grades, k) as real * value
    ensures CorrectUpTo(grades, k) <= k
  {
    if k > 0 {
      TotalIsCorrectTimesValue(grades, value, k - 1);
    }
  }

  /** The grand total is the number of correct questions times 1000 / N. */
  lemma TotalIsCountTimesValue(qs: seq<Question>, answers: map<int, seq<int>>)
    ensures TotalPoints(qs, answers) == CorrectCount(qs, answers) as real * QuestionValue(|qs|)
    ensures CorrectCount(qs, answers) <= |qs|
  {
    TotalIsCorrectTimesValue(Grades(qs, answers, |qs|), QuestionValue(|qs|), |qs|);
  }

  /** The grand total lies in [0, 1000]; it is 1000 exactly when every question is
      correct and 0 exactly when none is. */
  lemma ScoreBounds(qs: seq<Question>, answers: map<int, seq<int>>)
    ensures 0.0 <= TotalPoints(qs, answers) <= 1000.0
    ensures |qs| > 0 ==> (TotalPoints(qs, answers) == 1000.0 <==> CorrectCount(qs, answers) == |qs|)
    ensures TotalPoints(qs, answers) == 0.0 <==> CorrectCount(qs, answers) == 0
  {
    TotalIsCountTimesValue(qs, answers);
    CountTimesValue(CorrectCount(qs, answers), |qs|, QuestionValue(|qs|));
  }

  /** `c` of `n` questions worth `v` each, where the `n` together are worth 1000. */
  lemma CountTimesValue(c: nat, n: nat, v: real)
    requires c <= n
    requires v >= 0.0 && (n > 0 ==> v * n as real == 1000.0)
    ensures 0.0 <= c as real * v <= 1000.0
    ensures n > 0 ==> (c as real * v == 1000.0 <==> c == n)
    ensures c as real * v == 0.0 <==> (c == 0 || n == 0)
  {
    if n == 0 {
      assert c == 0;
    } else {
      assert v > 0.0;
      assert c as real * v <= n as real * v;
      if c as real * v == n as real * v {
        assert (n as real - c as real) * v == 0.0;
      }
    }
  }

  /** A topic has an entry exactly when some question carries it. */
  lemma {:induction false} TopicKeys(qs: seq<Question>, grades: seq<bool>, value: real, k: nat)
    requires k <= |qs| == |grades|
    ensures forall t :: t in TopicsUpTo(qs, grades, value, k) <==> CountTopic(qs, k, t) > 0
  {
    if k > 0 {
      TopicKeys(qs, grades, value, k - 1);
    }
  }

  /** A topic never has more correct questions than questions. */
  lemma {:induction false} CorrectInTopicBound(qs: seq<Question>, grades: seq<bool>, k: nat, t: string)
    requires k <= |qs| == |grades|
    ensures CorrectInTopic(qs, grades, k, t) <= CountTopic(qs, k, t)
  {
    if k > 0 {
      CorrectInTopicBound(qs, grades, k - 1, t);
    }
  }

  /** Per topic: its question count is the number of its questions and its correct
      count the number of those answered correctly. */
  lemma {:induction false} TopicCounts(qs: seq<Question>, grades: seq<bool>, value: real, k: nat, t: string)
    requires k <= |qs| == |grades|
    requires t in TopicsUpTo(qs, grades, value, k)
    ensures TopicsUpTo(qs, grades, value, k)[t].totalQuestions == CountTopic(qs, k, t)
    ensures TopicsUpTo(qs, grades, value, k)[t].correct == CorrectInTopic(qs, grades, k, t)
  {
    var m := TopicsUpTo(qs, grades, value, k - 1);
    if t in m {
      TopicCounts(qs, grades, value, k - 1, t);
    } else {
      TopicKeys(qs, grades, value, k - 1);
      CorrectInTopicBound(qs, grades, k - 1, t);
    }
  }

  /** Per topic: its points are its correct count times the question value. */
  lemma {:induction false} TopicPoints(qs: seq<Question>, grades: seq<bool>, value: real, k: nat, t: string)
    requires k <= |qs| == |grades|
    requires t in TopicsUpTo(qs, grades, value, k)
    ensures TopicsUpTo(qs, grades, value, k)[t].points == Times(TopicsUpTo(qs, grades, value, k)[t].correct, value)
  {
    if t in TopicsUpTo(qs, grades, value, k - 1) {
      TopicPoints(qs, grades, value, k - 1, t);
    }
  }

  /** The topic order lists exactly the topics of the dictionary, each once. */
  lemma {:induction false} TopicOrderMatches(qs: seq<Question>, grades: seq<bool>, value: real, k: nat)
    requires k <= |qs| == |grades|
    ensures NoDup(TopicOrder(qs, k))
    ensures forall t :: t in TopicOrder(qs, k) <==> t in TopicsUpTo(qs, grades, value, k)
  {
    if k > 0 {
      TopicOrderMatches(qs, grades, value, k - 1);
    }
  }

  lemma {:induction false} SumFrame(keys: seq<string>, m: map<string, TopicResult>, m': map<string, TopicResult>)
    requires forall t :: t in keys ==> t in m && t in m' && m[t] == m'[t]
    ensures SumResults(keys, m) == SumResults(keys, m')
  {
    if keys != [] {
      SumFrame(keys[..|keys| - 1], m, m');
    }
  }

  lemma PlusBump(a: TopicResult, b: TopicResult, correct: bool, value: real)
    ensures Plus(a, Bump(b, correct, value)) == Bump(Plus(a, b), correct, value)
    ensures Plus(Bump(a, correct, value), b) == Bump(Plus(a, b), correct, value)
    ensures Plus(a, NoResult) == a
  {
  }

  /** Bumping one topic's entry bumps the sum over the topics. */
  lemma {:induction false} SumBump(keys: seq<string>, m: map<string, TopicResult>, t: string, correct: bool, value: real)
    requires NoDup(keys) && t in keys
    requires forall u :: u in keys ==> u in m
    ensures SumResults(keys, m[t := Bump(m[t], correct, value)]) == Bump(SumResults(keys, m), correct, value)
  {
    var m' := m[t := Bump(m[t], correct, value)];
    var init := keys[..|keys| - 1];
    var last := keys[|keys| - 1];
    if last == t {
      assert t !in init;
      SumFrame(init, m, m');
      PlusBump(SumResults(init, m), m[t], correct, value);
    } else {
      assert t in init;
      SumBump(init, m, t, correct, value);
      PlusBump(SumResults(init, m), m[last], correct, value);
    }
  }

  /** Recording a question of a topic not seen before appends that topic, with the
      question's contribution alone, to the sum. */
  lemma SumRecordNew(order: seq<string>, m: map<string, TopicResult>, t: string, correct: bool, value: real)
    requires forall u :: u in order ==> u in m
    requires t !in m
    ensures SumResults(order + [t], Record(m, t, correct, value)) == Bump(SumResults(order, m), correct, value)
  {
    var m' := Record(m, t, correct, value);
    assert (order + [t])[..|order|] == order;
    assert m'[t] == Bump(NoResult, correct, value);
    SumFrame(order, m, m');
    PlusBump(SumResults(order, m), NoResult, correct, value);
  }

  /** Recording one question adds its contribution to the sum over the topics. */
  lemma SumRecord(order: seq<string>, m: map<string, TopicResult>, t: string, correct: bool, value: real)
    requires NoDup(order)
    requires forall u :: u in order ==> u in m
    requires t in m ==> t in order
    ensures SumResults(if t in order then order else order + [t], Record(m, t, correct, value))
         == Bump(SumResults(order, m), correct, value)
  {
    if t in order {
      SumBump(order, m, t, correct, value);
    } else {
      SumRecordNew(order, m, t, correct, value);
    }
  }

  /** Summed over all topics, the question counts give the number of questions, the
      correct counts the number of correct questions, and the points the running total. */
  lemma {:induction false} TopicSums(qs: seq<Question>, grades: seq<bool>, value: real, k: nat)
    requires k <= |qs| == |grades|
    ensures SumResults(TopicOrder(qs, k), TopicsUpTo(qs, grades, value, k))
         == TopicResult(TotalUpTo(grades, value, k), k, CorrectUpTo(grades, k))
  {
    if k > 0 {
      TopicSums(qs, grades, value, k - 1);
      TopicOrderMatches(qs, grades, value, k - 1);
      SumStep(TopicOrder(qs, k - 1), TopicsUpTo(qs, grades, value, k - 1), qs[k - 1].topic, grades[k - 1], value,
              TotalUpTo(grades, value, k - 1), k - 1, CorrectUpTo(grades, k - 1));
    }
  }

  /** One step of the scoring pass, seen from the sum over the topics. */
  lemma SumStep(order: seq<string>, m: map<string, TopicResult>, t: string, correct: bool, value: real,
                total: real, n: nat, c: nat)
    requires NoDup(order)
    requires forall u :: u in order <==> u in m
    requires SumResults(order, m) == TopicResult(total, n, c)
    ensures SumResults(if t in order then order else order + [t], Record(m, t, correct, value))
         == TopicResult(total + (if correct then value else 0.0), n + 1, c + (if correct then 1 else 0))
  {
    SumRecord(order, m, t, correct, value);
  }

  /** The whole-bank summary: every topic of the bank has an entry and only those;
      the topic question counts add up to N, the topic correct counts to the number
      of correct questions, and the topic points to the grand total. */
  lemma ScoreSummary(qs: seq<Question>, answers: map<int, seq<int>>)
    ensures forall t :: t in Topics(qs, answers) <==> CountTopic(qs, |qs|, t) > 0
    ensures forall t :: t in TopicOrder(qs, |qs|) <==> t in Topics(qs, answers)
    ensures SumResults(TopicOrder(qs, |qs|), Topics(qs, answers)).totalQuestions == |qs|
    ensures SumResults(TopicOrder(qs, |qs|), Topics(qs, answers)).points == TotalPoints(qs, answers)
    ensures SumResults(TopicOrder(qs, |qs|), Topics(qs, answers)).correct == CorrectCount(qs, answers)
  {
    var g, v := Grades(qs, answers, |qs|), QuestionValue(|qs|);
    TopicKeys(qs, g, v, |qs|);
    TopicOrderMatches(qs, g, v, |qs|);
    TopicSums(qs, g, v, |qs|);
  }

  /** Per topic of a whole bank: the question count is the number of the topic's
      questions, the correct count is at most that, and the points are the correct
      count times 1000 / N. */
  lemma TopicsSound(qs: seq<Question>, answers: map<int, seq<int>>)
    ensures forall t :: t in Topics(qs, answers) ==>
      && Topics(qs, answers)[t].totalQuestions == CountTopic(qs, |qs|, t)
      && Topics(qs, answers)[t].correct <= Topics(qs, answers)[t].totalQuestions
      && Topics(qs, answers)[t].points == Times(Topics(qs, answers)[t].correct, QuestionValue(|qs|))
  {
    var g, v := Grades(qs, answers, |qs|), QuestionValue(|qs|);
    forall t | t in Topics(qs, answers)
      ensures Topics(qs, answers)[t].totalQuestions == CountTopic(qs, |qs|, t)
      ensures Topics(qs, answers)[t].correct <= Topics(qs, answers)[t].totalQuestions
      ensures Topics(qs, answers)[t].points == Times(Topics(qs, answers)[t].correct, v)
    {
      TopicCounts(qs, g, v, |qs|, t);
      CorrectInTopicBound(qs, g, |qs|, t);
      TopicPoints(qs, g, v, |qs|, t);
    }
  }
}
