/** Worked scenarios of the quiz, stated as lemmas over the model. */
module Examples {
  import opened Grading
  import opened Scoring
  import opened Session

  /** Two questions: the first single-answer with key [0] (topic A), the second
      multi-answer with key [1, 2] (topic B). */
  const TwoTopicBank := [Question("Q1", ["a", "b", "c"], [0], "A"), Question("Q2", ["a", "b", "c"], [1, 2], "B")]

  /** Both answered exactly: 1000 points, each topic one of one. */
  lemma AllCorrectExample()
    ensures CorrectCount(TwoTopicBank, map[0 := [0], 1 := [2, 1]]) == 2
    ensures Round2(TotalPoints(TwoTopicBank, map[0 := [0], 1 := [2, 1]])) == 1000.0
    ensures "A" in Topics(TwoTopicBank, map[0 := [0], 1 := [2, 1]])
    ensures Topics(TwoTopicBank, map[0 := [0], 1 := [2, 1]])["A"] == TopicResult(500.0, 1, 1)
    ensures Topics(TwoTopicBank, map[0 := [0], 1 := [2, 1]])["B"] == TopicResult(500.0, 1, 1)
  {
    var answers := map[0 := [0], 1 := [2, 1]];
    var g := Grades(TwoTopicBank, answers, 2);
    CorrectIffSameElements([2, 1], [1, 2]);
    GradeAt(TwoTopicBank, answers, 2, 0);
    GradeAt(TwoTopicBank, answers, 2, 1);
    assert g == [true, true];
    assert QuestionValue(2) == 500.0;
    assert CorrectUpTo(g, 1) == 1;
    assert TopicsUpTo(TwoTopicBank, g, 500.0, 0) == map[];
    var m1 := TopicsUpTo(TwoTopicBank, g, 500.0, 1);
    assert m1 == Record(map[], "A", true, 500.0);
    assert "B" !in m1 && "A" in m1 && m1["A"] == TopicResult(500.0, 1, 1);
    TotalIsCountTimesValue(TwoTopicBank, answers);
    Round2Exact(100000);
  }

  /** The first answered wrong, the second exactly: 500 points, topic A none of one. */
  lemma OneWrongExample()
    ensures CorrectCount(TwoTopicBank, map[0 := [1], 1 := [1, 2]]) == 1
    ensures Round2(TotalPoints(TwoTopicBank, map[0 := [1], 1 := [1, 2]])) == 500.0
    ensures "A" in Topics(TwoTopicBank, map[0 := [1], 1 := [1, 2]])
    ensures Topics(TwoTopicBank, map[0 := [1], 1 := [1, 2]])["A"] == TopicResult(0.0, 1, 0)
    ensures Topics(TwoTopicBank, map[0 := [1], 1 := [1, 2]])["B"] == TopicResult(500.0, 1, 1)
  {
    var answers := map[0 := [1], 1 := [1, 2]];
    var g := Grades(TwoTopicBank, answers, 2);
    NoPartialCredit([1], [0], 0);
    GradeAt(TwoTopicBank, answers, 2, 0);
    GradeAt(TwoTopicBank, answers, 2, 1);
    assert g == [false, true];
    assert QuestionValue(2) == 500.0;
    assert CorrectUpTo(g, 1) == 0;
    assert TopicsUpTo(TwoTopicBank, g, 500.0, 0) == map[];
    var m1 := TopicsUpTo(TwoTopicBank, g, 500.0, 1);
    assert m1 == Record(map[], "A", false, 500.0);
    assert "B" !in m1 && "A" in m1 && m1["A"] == TopicResult(0.0, 1, 0);
    TotalIsCountTimesValue(TwoTopicBank, answers);
    Round2Exact(50000);
  }

  /** Answering on the two-topic bank: radio clicks on the first question (the
      second click replaces the first), navigation past both ends, and two checkbox
      clicks on the second question in reverse order; then submission. */
  method AnsweringScenario()
  {
    var s := new QuizSession(TwoTopicBank);
    s.Start();
    assert s.started && !s.finished && s.timeLeft == 1800;
    s.SelectCurrent(1);
    s.SelectCurrent(0);
    assert s.answers == map[0 := [0]];
    s.Prev();
    assert s.current == 0;
    s.Next();
    s.Next();
    assert s.current == 1;
    CheckboxScenario(s);
  }

  /** The two checkbox clicks on the second question and one second of the clock. */
  method CheckboxScenario(s: QuizSession)
    requires s.Valid() && s.questions == TwoTopicBank && s.current == 1
    requires s.started && !s.finished && s.timeLeft == 1800 && s.answers == map[0 := [0]]
    modifies s
  {
    s.SelectCurrent(2);
    s.SelectCurrent(1);
    assert s.answers[1] == [2, 1];
    assert s.answers == map[0 := [0], 1 := [2, 1]];
    s.Tick();
    assert s.timeLeft == 1799 && !s.finished;
    SubmitScenario(s);
  }

  /** Submitting the answers above twice scores them once, at 1000 points; later
      ticks do nothing, and restart returns to the start screen. */
  method SubmitScenario(s: QuizSession)
    requires s.Valid() && s.questions == TwoTopicBank
    requires s.started && !s.finished && s.answers == map[0 := [0], 1 := [2, 1]]
    modifies s
  {
    s.Finish();
    AllCorrectExample();
    assert s.finished && s.timeLeft == 0 && s.scorePoints == 1000.0;
    s.Finish();
    assert s.scorePoints == 1000.0 && s.topicResults["B"] == TopicResult(500.0, 1, 1);
    s.Tick();
    assert s.finished && s.timeLeft == 0;
    s.Restart();
    assert !s.started && !s.finished && s.answers == map[];
  }
}
