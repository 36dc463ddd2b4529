/** The quiz session: the component state of the quiz screen and the handlers
    that change it (start, option clicks, navigation, the countdown, submission
    and restart). */
module Session {
  import opened Grading
  import opened AnswerStore
  import opened Scoring

  /** Minutes preselected on the start screen. */
  const DefaultMinutes := 30

  class QuizSession {
    /** The question bank, loaded before the session exists and never changed. */
    const questions: seq<Question>

    var timeMinutes: int
    var started: bool
    var timeLeft: int
    var current: int
    var answers: map<int, seq<int>>
    var finished: bool
    var scorePoints: real
    var topicResults: map<string, TopicResult>

    /** The invariant every handler needs, and keeps, before the countdown check. */
    ghost predicate Sound()
      reads this
    {
      && 0 <= current
      && (current == 0 || current < |questions|)
      && WellFormed(answers)
      // a single-answer question never holds more than one selected option
      && (forall k :: k in answers && 0 <= k < |questions| && !IsMultiple(questions[k]) ==> |answers[k]| <= 1)
      && (finished ==> timeLeft == 0)
      && 0.0 <= scorePoints <= 1000.0
      && (forall t :: t in topicResults ==> topicResults[t].correct <= topicResults[t].totalQuestions)
    }

    /** The session invariant: in addition, a running quiz always has time left,
        because the countdown submits the quiz as soon as it reaches zero. */
    ghost predicate Valid()
      reads this
    {
      Sound() && timeLeft >= 0 && (started && !finished ==> timeLeft > 0)
    }

    /** The initial component state, before the start screen is left. */
    constructor (bank: seq<Question>)
      ensures Valid()
      ensures questions == bank && timeMinutes == DefaultMinutes
      ensures !started && !finished && timeLeft == 0 && current == 0
      ensures answers == map[] && scorePoints == 0.0 && topicResults == map[]
    {
      questions := bank;
      timeMinutes := DefaultMinutes;
      started := false;
      timeLeft := 0;
      current := 0;
      answers := map[];
      finished := false;
      scorePoints := 0.0;
      topicResults := map[];
    }

    /** The time-limit buttons of the start screen. */
    method SetTimeMinutes(minutes: int)
      requires Valid()
      modifies this`timeMinutes
      ensures Valid() && timeMinutes == minutes
    {
      timeMinutes := minutes;
    }

    /** Starts (or starts again) the quiz at the first question with no answers and
        a full clock; a time limit that is not positive submits at once. */
    method Start()
      requires Valid()
      modifies this
      ensures Valid()
      ensures started && current == 0 && answers == map[] && timeMinutes == old(timeMinutes)
      ensures timeMinutes > 0 ==>
        !finished && timeLeft == timeMinutes * 60 && scorePoints == 0.0 && topicResults == map[]
      ensures timeMinutes <= 0 ==>
        finished && timeLeft == 0
        && scorePoints == Round2(TotalPoints(questions, map[])) && topicResults == Topics(questions, map[])
    {
      started := true;
      timeLeft := timeMinutes * 60;
      current := 0;
      answers := map[];
      finished := false;
      scorePoints := 0.0;
      topicResults := map[];
      // the countdown effect runs after the state change
      if timeLeft <= 0 {
        Finish();
      }
    }

    /** A click on option `optIdx` of question `qIdx`: radio semantics when
        `multiple` is false, checkbox semantics when it is true. The screen passes
        the question's own kind for every question of the bank. */
    method Select(qIdx: int, optIdx: int, multiple: bool)
      requires Valid()
      requires 0 <= qIdx < |questions| ==> multiple == IsMultiple(questions[qIdx])
      modifies this`answers
      ensures Valid()
      ensures answers == Toggle(old(answers), qIdx, optIdx, multiple)
    {
      ToggleKeepsWellFormed(answers, qIdx, optIdx, multiple);
      answers := Toggle(answers, qIdx, optIdx, multiple);
    }

    /** A click on option `optIdx` of the question on screen, which is multi-answer
        when it has more than one correct option. */
    method SelectCurrent(optIdx: int)
      requires Valid() && |questions| > 0
      modifies this`answers
      ensures Valid()
      ensures answers == Toggle(old(answers), current, optIdx, IsMultiple(questions[current]))
    {
      var multiple := IsMultiple(questions[current]);
      Select(current, optIdx, multiple);
    }

    /** Moves to the next question, unless the last one is on screen. */
    method Next()
      requires Valid()
      modifies this`current
      ensures Valid()
      ensures current == if old(current) < |questions| - 1 then old(current) + 1 else old(current)
      ensures |questions| > 0 ==> 0 <= current < |questions|
    {
      if current < |questions| - 1 {
        current := current + 1;
      }
    }

    /** Moves to the previous question, unless the first one is on screen. */
    method Prev()
      requires Valid()
      modifies this`current
      ensures Valid()
      ensures current == if old(current) > 0 then old(current) - 1 else old(current)
      ensures |questions| > 0 ==> 0 <= current < |questions|
    {
      if current > 0 {
        current := current - 1;
      }
    }

    /** One second of the countdown: the interval decrements the clock while the
        quiz runs, and the effect submits the quiz when the clock reaches zero. */
    method Tick()
      requires Valid()
      modifies this
      ensures Valid()
      ensures !old(started) || old(finished) ==> unchanged(this)
      ensures old(started) && !old(finished) ==>
        started && answers == old(answers) && current == old(current) && timeMinutes == old(timeMinutes)
      ensures old(started) && !old(finished) && old(timeLeft) > 1 ==>
        !finished && timeLeft == old(timeLeft) - 1
        && scorePoints == old(scorePoints) && topicResults == old(topicResults)
      ensures old(started) && !old(finished) && old(timeLeft) == 1 ==>
        finished && timeLeft == 0
        && scorePoints == Round2(TotalPoints(questions, answers)) && topicResults == Topics(questions, answers)
    {
      if started && !finished {
        timeLeft := timeLeft - 1;
        if timeLeft <= 0 {
          Finish();
        }
      }
    }

    /** Submission, by the learner or by the countdown: scores the answers once and
        stops the clock. A second call changes nothing. */
    method Finish()
      requires Sound()
      modifies this
      ensures Valid()
      ensures old(finished) ==> unchanged(this)
      ensures !old(finished) ==>
        finished && timeLeft == 0
        && scorePoints == Round2(TotalPoints(questions, old(answers)))
        && topicResults == Topics(questions, old(answers))
        && answers == old(answers) && started == old(started)
        && current == old(current) && timeMinutes == old(timeMinutes)
    {
      if finished {
        return;
      }
      var total, topics := CalculateResults(questions, answers);
      TopicsSound(questions, answers);
      scorePoints := total;
      topicResults := topics;
      finished := true;
      timeLeft := 0;
    }

    /** The restart button of the results screen: back to the start screen with
        answers and results cleared. */
    method Restart()
      requires Valid()
      modifies this
      ensures Valid()
      ensures !started && !finished && answers == map[] && scorePoints == 0.0 && topicResults == map[]
      ensures current == old(current) && timeLeft == old(timeLeft) && timeMinutes == old(timeMinutes)
    {
      started := false;
      finished := false;
      answers := map[];
      scorePoints := 0.0;
      topicResults := map[];
    }
  }
}
