# Quiz session and scoring: a Dafny model

This project models the core of a timed multiple-choice quiz, a single React
component (`src/App.jsx`). The core is the quiz session and the scoring pass.
The quiz presents a fixed, ordered question bank. It collects radio (single-answer)
or checkbox (multi-answer) selections and counts down a time limit. On submission,
by the learner or by the clock, it computes a score out of 1000 points with a
per-topic breakdown.

Modules:

- `Grading`:
  - the `Question` record;
  - the selection lookup (an absent entry reads as no selection);
  - the numeric sort that the component applies before comparing;
  - the exact-match rule `IsCorrect`: the sorted selection equals the sorted answer key.
- `AnswerStore`: the answer dictionary (question index ↦ list of option indices) and the
  update applied on a click. A radio click replaces the selection. A checkbox click
  removes the option (a filter) or appends it.
- `Scoring`:
  - the scoring pass `CalculateResults`, a loop over the bank as in the source;
  - its specification, written as functions over the first `k` questions;
  - the rounding of the total to two decimals;
  - lemmas for the properties of the score and the topic dictionary.
- `Session`: the component state as a class `QuizSession`. Each field of the class is one
  state variable of the component. Each handler is a method: start, option click,
  next/previous, one second of the countdown, submission, restart, time-limit choice.
- `Examples`: worked scenarios. One is the two-of-three multi-select case. There are two
  small banks, one with all answers correct and one with one answer wrong. A client
  method drives a whole session through the class.

Behaviour as written, which the model follows:

- Grading compares the *sorted lists* (`JSON.stringify` of the sorted arrays), so it
  is multiset equality, not set equality. `Grading.CorrectIffSameElements` proves this.
  `Grading.CorrectIffSameSet` proves it coincides with set equality when neither list
  holds duplicates. Clicking never creates duplicates (`AnswerStore.ToggleKeepsWellFormed`).
  A bank whose key repeats an index can therefore never be matched by clicking
  (`Grading.DupKeyNeverMatched`).
- Starting has no error cases. A time limit that is not positive sets the clock to
  that value, and the countdown effect then submits at once (`Session.QuizSession.Start`).
  The start screen only offers 30, 60 and 90 minutes (lines 101-102 and 108), so that
  branch cannot be reached from the screen; `SetTimeMinutes` accepts any value so
  that `Start` is specified for every time limit.
- An option click has no range checks and no guard against a finished quiz. The
  results screen only hides the controls.
- Restart clears `started`, `finished`, the answers and the results. It keeps
  `current` and `timeLeft`; the next start resets both.
- Per-topic points are not rounded in the result. Only the grand total is rounded.

## Model

| member | source | states |
|---|---|---|
| Grading.InsertSorted | src/App.jsx:66-67 | inserting into an ascending list keeps it ascending and adds exactly the inserted element |
| Grading.SortSorted | src/App.jsx:66-67 | the numeric sort returns an ascending permutation of its input |
| Grading.SortedUnique | src/App.jsx:66-68 | two ascending lists with the same elements, counted with multiplicity, are equal, so comparing sorted lists is well defined |
| Grading.CorrectIffSameElements | src/App.jsx:66-68 | a question is correct exactly when selection and key hold the same elements with the same multiplicities; selection order never matters |
| Grading.NoDupMultiplicity | src/App.jsx:46-52 | in a duplicate-free selection every option occurs exactly once or not at all |
| Grading.CorrectIffSameSet | src/App.jsx:66-68 | for duplicate-free selection and key, correct exactly when both contain the same options |
| Grading.DupKeyNeverMatched | src/App.jsx:66-68 | a key that repeats an option is never matched by a duplicate-free selection, the only kind clicking produces |
| Grading.NoPartialCredit | src/App.jsx:68-75 | a selection missing a correct option, or holding an extra option, is graded wrong (no partial credit) |
| Grading.TwoOfThreeExample | src/App.jsx:66-68 | with key [0, 2]: [0, 2] and [2, 0] are correct; [0], [2], [0, 1, 2] and [] are wrong |
| AnswerStore.Remove | src/App.jsx:48 | the filtered list holds every element of the input except the clicked option, with the same counts, and stays duplicate-free |
| AnswerStore.Toggle | src/App.jsx:40-55 | only the clicked question's entry changes (and it is created if absent); radio leaves exactly [option]; checkbox flips the option's membership and keeps every other option's count; a newly checked option is appended |
| AnswerStore.ToggleKeepsWellFormed | src/App.jsx:40-55 | a click keeps every recorded selection duplicate-free |
| AnswerStore.ToggleTwiceSame | src/App.jsx:46-53 | clicking the same checkbox twice restores the clicked question's selection up to order |
| AnswerStore.ToggleTwiceRestores | src/App.jsx:40-55 | clicking the same checkbox twice restores every question's selection up to order |
| AnswerStore.ToggleTwiceKeepsGrade | src/App.jsx:40-55 | clicking the same checkbox twice never changes whether any question grades correct |
| Scoring.TimesIsProduct | src/App.jsx:72-74 | adding the question value once per correct question gives correct count × value |
| Scoring.QuestionValue | src/App.jsx:62 | the question value is non-negative and N questions are worth exactly 1000 together |
| Scoring.Grades | src/App.jsx:65-68 | the grades list has one entry per question |
| Scoring.GradeAt | src/App.jsx:65-68 | the grade of question i is the exact-match result of its own selection against its own key |
| Scoring.GradesExt | src/App.jsx:65-68 | grades depend only on the selections looked up for the graded questions |
| Scoring.AbsentIsEmpty | src/App.jsx:66 | a question with no answer entry is scored exactly like one whose entry is empty: same grades, grand total, correct count and topics |
| Scoring.Round2 | src/App.jsx:77 | the result has at most two decimals and lies in (x - 0.005, x + 0.005], which makes it the round-half-up value; a value in [0, 1000] stays in [0, 1000] |
| Scoring.Round2Exact | src/App.jsx:77 | a value that already has two decimals is left unchanged by the rounding |
| Scoring.CalculateResults | src/App.jsx:60-79 | the loop returns the rounded total of the specification and its topic dictionary, and the total lies in [0, 1000] |
| Scoring.TotalIsCorrectTimesValue | src/App.jsx:71-74 | after k questions the running total is the number correct so far times the question value, and that number is at most k |
| Scoring.TotalIsCountTimesValue | src/App.jsx:60-76 | the unrounded grand total is the number of correct questions times 1000 / N |
| Scoring.ScoreBounds | src/App.jsx:60-77 | the grand total lies in [0, 1000]; it is 1000 exactly when every question is correct and 0 exactly when none is |
| Scoring.CountTimesValue | src/App.jsx:62 | c of n questions worth 1000 / n each are worth between 0 and 1000, 1000 iff c = n, 0 iff c = 0 |
| Scoring.TopicKeys | src/App.jsx:69 | a topic has an entry exactly when some question of the bank carries it |
| Scoring.CorrectInTopicBound | src/App.jsx:70-73 | a topic never counts more correct questions than questions |
| Scoring.TopicCounts | src/App.jsx:69-73 | a topic's question count is the number of its questions and its correct count the number of those answered correctly |
| Scoring.TopicPoints | src/App.jsx:69-73 | a topic's points are its correct count times the question value |
| Scoring.TopicOrderMatches | src/App.jsx:69 | the topics in order of first appearance are exactly the keys of the dictionary, each once |
| Scoring.SumFrame | src/App.jsx:64-76 | the sum over some topics depends only on those topics' entries |
| Scoring.SumBump | src/App.jsx:70-73 | counting one question of a listed topic adds its contribution to the sum over the topics |
| Scoring.SumRecordNew | src/App.jsx:69-73 | the first question of a new topic appends that topic, with that question's contribution alone, to the sum |
| Scoring.SumRecord | src/App.jsx:69-73 | recording one question adds exactly its contribution to the sum over the topics |
| Scoring.SumStep | src/App.jsx:65-76 | one iteration of the pass adds one question, its points and its correctness to the sum over the topics |
| Scoring.TopicSums | src/App.jsx:64-76 | after k questions the topics together hold k questions, the number correct so far and the running total |
| Scoring.ScoreSummary | src/App.jsx:60-79 | every topic of the bank has an entry and only those; topic question counts add up to N, correct counts to the number correct, points to the unrounded grand total |
| Scoring.TopicsSound | src/App.jsx:60-79 | per topic of a bank: question count = its questions, correct ≤ question count, points = correct × 1000 / N |
| Session.QuizSession.constructor | src/App.jsx:4-13 | the initial state: not started, not finished, 30 minutes, no answers, score 0, no topics |
| Session.QuizSession.SetTimeMinutes | src/App.jsx:101-102 | choosing a time limit changes only the time limit |
| Session.QuizSession.Start | src/App.jsx:22-38 | start shows the first question with no answers and a full clock of minutes × 60 seconds and clears the results; a limit that is not positive submits at once |
| Session.QuizSession.Select | src/App.jsx:40-55 | a click replaces the answers by the toggled answers and nothing else changes; when the click's kind is the question's own kind, a single-answer question keeps at most one selected option |
| Session.QuizSession.SelectCurrent | src/App.jsx:188-216 | a click on the question on screen uses checkbox semantics exactly when that question has more than one correct option |
| Session.QuizSession.Next | src/App.jsx:57 | next moves one question forward except on the last one; it never leaves the bank and never wraps around |
| Session.QuizSession.Prev | src/App.jsx:58 | previous moves one question back except on the first one; it never goes below 0 and never wraps around |
| Session.QuizSession.Tick | src/App.jsx:22-28 | one second of a running quiz decrements the clock; reaching 0 submits it with the results of the current answers; a quiz not running is unchanged |
| Session.QuizSession.Finish | src/App.jsx:81-88 | the first submission stores the rounded total and topic dictionary of the current answers, sets finished and the clock to 0; a second submission changes nothing |
| Session.QuizSession.Restart | src/App.jsx:177-180 | restart returns to the start screen with answers and results cleared, keeping question index, clock and time limit |
| Examples.AllCorrectExample | src/App.jsx:60-79 | two questions in two topics, both answered exactly (the checkbox in reverse order): 1000 points, each topic 500 points, 1 of 1 |
| Examples.OneWrongExample | src/App.jsx:60-79 | the radio question answered wrong: 500 points; its topic 0 points, 0 of 1; the other 500 points, 1 of 1 |

The session invariant `QuizSession.Valid` is kept by every handler. It states:

- the question index is 0 or within the bank;
- recorded selections are duplicate-free;
- a single-answer question of the bank holds at most one selected option;
- the clock is never negative, and a finished quiz has a stopped clock;
- the score lies in [0, 1000];
- every topic has at most as many correct questions as questions;
- a running quiz has time left.

## Left out

- Loading the question bank (`fetch`, the loading screen, the load-failure alert): the bank is a constructor argument, read-only.
- Real time: `setInterval` and its cleanup are not modelled. `Tick` is one firing of the interval followed by the effect's check. That matches the effect re-arming after every change of `timeLeft`.
- Binary floating point: points are exact reals. `Number.EPSILON` in the rounding is dropped. `Round2` is `Math.round(x * 100) / 100` on exact reals (round half up).
- Scoring.QuestionValue: with an empty bank the source divides by zero (`Infinity`), but never uses the value. The model takes 0, so the total is 0 either way.
- Scoring.TopicsSound: states the points as `Times(correct, value)`, correct added up once per correct question. `Scoring.TimesIsProduct` equates it with `correct × value`. The two facts are not merged into one contract.
- Rendering: percentages, the per-topic display rounding, the PASS/FAIL line, the review screen and the progress bar.
- The in-quiz view reads `questions[current]`, so starting with an empty bank fails while rendering. `SelectCurrent` therefore requires a non-empty bank.
- Question bank validation and error kinds: the code validates nothing and has no error values. A question without `correctAnswers` (read as `[]` by the code) is not representable; the field is always present in `Question`.
- JavaScript object keys: topic names that collide with `Object.prototype` properties (such as `constructor`) are not modelled. Such a topic is never added and its counts are lost. The enumeration order of `Object.keys` for integer-like topic names is also not modelled. The model uses first-appearance order (`TopicOrder`).
- React batching and stale closures: two clicks on Next within one render (both reading the same `current`) are not modelled. Every handler runs on the latest state.
