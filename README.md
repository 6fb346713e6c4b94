# Interactive quiz session

This project models the quiz player of the lesson application: the
`InteractiveQuiz` component, which walks a learner through a fixed,
non-empty list of multiple-choice questions. The session has five pieces of
state: the cursor `currentQuestion`, the pending `selectedAnswer` (absent or a
number), the `showResult` flag, the `score`, and `answeredQuestions`, the list
of question indices already credited. Four handlers change that state:
select an answer, submit it, go to the next question, and restart. Two flags
(`isCorrect`, `isComplete`) and the completion message are derived from it.

Everything lives in module `InteractiveQuiz` (`interactive_quiz.dfy`):

- `QuizQuestion` is the question record and `Snapshot` holds the five state
  values. `InitialSnapshot` is the state of a freshly mounted quiz.
- `AnswerSelect`, `Submit` and `Next` are the handlers as functions from one
  snapshot to the next. Restart goes straight to `InitialSnapshot`. `Step`
  applies one learner action (`Event`) and `Run` applies a sequence of them.
  Each handler is one atomic update of the snapshot, which is how the
  component's setters take effect for one event.
- `Consistent` is the session invariant. The cursor is a valid index. The
  score equals the number of credited indices. The credited indices are
  strictly increasing and never beyond the cursor. Every transition keeps it.
  `ConsistentScoreBound` shows what follows: no index is credited twice, and
  the score is at most the number of questions.
- `IsCorrect` and `IsComplete` are the two derived flags: the pending
  selection is the accepted answer, and the last question's result is shown.
  They are plain definitions of the component's expressions. What they mean
  for the session is stated where they are used: `Submit` credits a question
  exactly when `IsCorrect` holds and it is not yet credited, and becomes
  `IsComplete` on the last question; `ShownVerdict` ties the verdict on screen
  to that credit; `Next` never leaves the quiz complete; and
  `StepReachesComplete` shows completion is reached only by a submit on the
  last question.
- `CompletionLabel` picks the message by the component's ordered thresholds.
- `Enabled` says which handlers the rendered component can fire in a state:
  disabled option buttons, Submit only with a selection, Next only while a
  result is shown, Restart only on the completion screen.
- class `Quiz` holds the question list and the five fields. Its methods are
  the four handlers, updating the fields in place. Each method's
  postcondition equates the new `State()` with the matching function applied
  to the old one, and keeps `Valid()`.

The handlers are modelled as written. `handleSubmit` and `handleNext` do not
test `showResult` themselves; only the rendered buttons keep a learner from
calling them out of turn, so `Enabled` models that gating separately. As
`UiNextAdvances` shows, when a result is shown on the last question the
completion screen replaces the Next button. So the "See Results" caption of
that button is never shown, and a Next that a learner can press always moves
the cursor forward.

The component is mounted only with a non-empty list, and it reads
`questions[currentQuestion]` unconditionally. So the `Quiz` constructor
requires at least one question. `correctAnswer` is not checked against the
options by the component, and it is not checked here either; `handleAnswerSelect`
takes any number.

## Model

| member | source | states |
|---|---|---|
| `InteractiveQuiz.Quiz.constructor` | components/InteractiveQuiz.tsx:19-24 | a new session for a non-empty question list starts at cursor 0, no selection, no result shown, score 0, nothing credited, and is consistent |
| `InteractiveQuiz.StepReachesComplete` | components/InteractiveQuiz.tsx:31-58 | a handler makes the quiz complete only as a submit with a selection on the last question; a select or submit on a complete quiz leaves it complete |
| `InteractiveQuiz.ShownVerdict` | components/InteractiveQuiz.tsx:34-39 | after a submit with a selection the result is shown and the verdict on screen is the one the submit judged: a scoring answer shows as correct, and a correct answer that did not score was already credited |
| `InteractiveQuiz.AnswerSelect` | components/InteractiveQuiz.tsx:26-29 | while a result is shown nothing changes; otherwise the selection becomes the given index and every other field is unchanged; the invariant is kept |
| `InteractiveQuiz.Submit` | components/InteractiveQuiz.tsx:31-40 | with no selection nothing changes; otherwise the result is shown, and the score rises by exactly one and the current index is appended exactly when the selection is the accepted answer and the index is not yet credited; an already credited question never scores again; on the last question the quiz becomes complete; the invariant is kept |
| `InteractiveQuiz.Next` | components/InteractiveQuiz.tsx:42-48 | selection and result are cleared, score and credited list untouched, the cursor moves forward only below the last index and stays in range; the quiz is then not complete; the invariant is kept |
| `InteractiveQuiz.Step` | components/InteractiveQuiz.tsx:26-56 | any one handler keeps the cursor in range and the invariant, restart yields exactly the initial state, and every other handler raises the score by zero or one |
| `InteractiveQuiz.Run` | components/InteractiveQuiz.tsx:26-56 | after any sequence of handler calls the cursor is in range and a consistent session stays consistent |
| `InteractiveQuiz.StrictlyIncreasingBound` | components/InteractiveQuiz.tsx:35-37 | a strictly increasing list of indices drawn from a range is no longer than the range, which bounds the credited list |
| `InteractiveQuiz.ConsistentScoreBound` | components/InteractiveQuiz.tsx:24-37 | in a consistent session no index is credited twice and the score is at most the cursor plus one, hence at most the number of questions |
| `InteractiveQuiz.RunScoreBounded` | components/InteractiveQuiz.tsx:20-56 | from a fresh quiz, any sequence of handler calls leaves a consistent session whose score lies between 0 and the number of questions |
| `InteractiveQuiz.RunScoreMonotone` | components/InteractiveQuiz.tsx:26-48 | along any sequence of handler calls without a restart the score never decreases and grows by at most one per call |
| `InteractiveQuiz.RunRestartForgets` | components/InteractiveQuiz.tsx:50-56 | whatever happened before a restart, the calls after it lead to the same state as from a fresh quiz |
| `InteractiveQuiz.CompletionLabel` | components/InteractiveQuiz.tsx:181-187 | for a score between 0 and n: "perfect" exactly at n, "great" from 0.7n (inclusive) below n, "good effort" from 0.5n (inclusive) below 0.7n, "keep learning" below 0.5n |
| `InteractiveQuiz.TextIdentifiesLabel` | components/InteractiveQuiz.tsx:181-187 | `Label.Text` gives the four message strings of the completion screen; they are non-empty and pairwise different, so the message shown identifies the score band |
| `InteractiveQuiz.LabelMonotone` | components/InteractiveQuiz.tsx:181-187 | a higher score never earns a lower message |
| `InteractiveQuiz.Enabled` | components/InteractiveQuiz.tsx:81-196 | which handlers the rendered component can fire, per button: an option button (lines 89-113) only while no result is shown and only with an index among the options, Submit (155-158) only with a selection and no result shown, Next (163-170) only while a result is shown, and on the completion screen (191-196) only Restart, which appears nowhere else |
| `InteractiveQuiz.UiNextAdvances` | components/InteractiveQuiz.tsx:81-172 | when the Next button is on screen the cursor is below the last index, so pressing it moves to the following question |
| `InteractiveQuiz.Quiz.HandleAnswerSelect` | components/InteractiveQuiz.tsx:26-29 | the fields become exactly what `AnswerSelect` gives for the old state, and the invariant is kept |
| `InteractiveQuiz.Quiz.HandleSubmit` | components/InteractiveQuiz.tsx:31-40 | the fields become exactly what `Submit` gives for the old state, and the invariant is kept |
| `InteractiveQuiz.Quiz.HandleNext` | components/InteractiveQuiz.tsx:42-48 | the fields become exactly what `Next` gives for the old state, and the invariant is kept |
| `InteractiveQuiz.Quiz.HandleRestart` | components/InteractiveQuiz.tsx:50-56 | from any state all five fields return to their initial values, and the invariant holds |
| `InteractiveQuiz.ThreeQuestionSession` | components/InteractiveQuiz.tsx:26-59 | three questions answered right, wrong, right: the quiz is complete right after the third result, with score 2 and the "good effort" message |

## Left out

- The extraction of quiz questions from lesson markdown (`extractQuizQuestions` in the lesson page) is not part of this model; only the player that consumes its output is.
- The JSX rendering, the per-option CSS classes, the explanation panel and the "Question k of n" header are presentation only.
- `CompletionLabel`: the thresholds compare `score` with the floating-point products `n * 0.7` and `n * 0.5`; the model compares the integers `10 * score` with `7 * n` and `2 * score` with `n`, an idealisation of the float product.
- The question list is fixed for the life of a `Quiz`; the model does not capture the lesson page handing the mounted component a new list (after a realtime refetch), in which case the component keeps its old cursor, score and credited indices against the new list.
- React's asynchronous state batching and closure capture are not modelled; each handler is one atomic update of the current snapshot.
- The lesson list page, the lesson-generation edge function and the database client are I/O and UI around the quiz (database calls, realtime subscription, polling, the HTTP call to the text-generation service) and are not part of this model.
- The question text, options and explanation strings are carried but never interpreted; no Unicode or rendering behaviour is modelled.
