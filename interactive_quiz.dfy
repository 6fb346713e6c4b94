/** A model of the interactive quiz session: a learner walks through a fixed,
    non-empty list of multiple-choice questions, selects and submits answers,
    and is credited at most once per question. */
module InteractiveQuiz {

  datatype Option<T> = None | Some(value: T)

  /** One multiple-choice question. `correctAnswer` is a plain number that the
      component never checks against `options`. */
  datatype QuizQuestion = QuizQuestion(
    question: string,
    options: seq<string>,
    correctAnswer: int,
    explanation: Option<string>)

  /** The five pieces of session state, taken together as one snapshot. */
  datatype Snapshot = Snapshot(
    currentQuestion: int,
    selectedAnswer: Option<int>,
    showResult: bool,
    score: int,
    answeredQuestions: seq<int>)

  /** The state a freshly mounted quiz starts in. */
  const InitialSnapshot: Snapshot := Snapshot(0, None, false, 0, [])

  predicate StrictlyIncreasing(a: seq<int>) {
    forall i, j :: 0 <= i < j < |a| ==> a[i] < a[j]
  }

  predicate AllWithin(a: seq<int>, lo: int, hi: int) {
    forall i :: 0 <= i < |a| ==> lo <= a[i] < hi
  }

  predicate NoDuplicates(a: seq<int>) {
    forall i, j :: 0 <= i < |a| && 0 <= j < |a| && i != j ==> a[i] != a[j]
  }

  /** The session invariant for a quiz of `n` questions: the cursor is a valid
      index, the score is the number of credited questions, and the credited
      indices are distinct, in increasing order and never beyond the cursor. */
  predicate Consistent(n: int, s: Snapshot) {
    0 <= s.currentQuestion < n &&
    s.score == |s.answeredQuestions| &&
    StrictlyIncreasing(s.answeredQuestions) &&
    AllWithin(s.answeredQuestions, 0, s.currentQuestion + 1)
  }

  /** A strictly increasing sequence of integers drawn from [lo, hi) has at
      most hi - lo elements. */
  lemma {:induction false} StrictlyIncreasingBound(a: seq<int>, lo: int, hi: int)
    requires StrictlyIncreasing(a) && AllWithin(a, lo, hi)
    ensures |a| <= if hi < lo then 0 else hi - lo
  {
    if a != [] {
      var tail := a[1..];
      assert StrictlyIncreasing(tail) by {
        forall i, j | 0 <= i < j < |tail| ensures tail[i] < tail[j] {
          assert tail[i] == a[i + 1] && tail[j] == a[j + 1];
        }
      }
      assert AllWithin(tail, a[0] + 1, hi) by {
        forall i | 0 <= i < |tail| ensures a[0] + 1 <= tail[i] < hi {
          assert tail[i] == a[i + 1];
        }
      }
      StrictlyIncreasingBound(tail, a[0] + 1, hi);
    }
  }

  /** What the invariant buys: no question is credited twice, and the score
      never exceeds the number of questions reached so far, hence never the
      number of questions. */
  lemma ConsistentScoreBound(n: int, s: Snapshot)
    requires Consistent(n, s)
    ensures NoDuplicates(s.answeredQuestions)
    ensures 0 <= s.score <= s.currentQuestion + 1 <= n
  {
    StrictlyIncreasingBound(s.answeredQuestions, 0, s.currentQuestion + 1);
  }

  /** `isCorrect`: the pending selection is the question's accepted answer
      (no selection is never correct). */
  function IsCorrect(questions: seq<QuizQuestion>, s: Snapshot): bool
    requires 0 <= s.currentQuestion < |questions|
  {
    s.selectedAnswer == Some(questions[s.currentQuestion].correctAnswer)
  }

  /** `isComplete`: the last question's result is on show. */
  function IsComplete(n: int, s: Snapshot): bool {
    s.currentQuestion == n - 1 && s.showResult
  }

  /** `handleAnswerSelect`: ignored while a result is shown; otherwise records
      the selection and touches nothing else. */
  function AnswerSelect(n: int, s: Snapshot, index: int): (r: Snapshot)
    ensures s.showResult ==> r == s
    ensures !s.showResult ==>
      r.selectedAnswer == Some(index) &&
      r.currentQuestion == s.currentQuestion && !r.showResult &&
      r.score == s.score && r.answeredQuestions == s.answeredQuestions
    ensures Consistent(n, s) ==> Consistent(n, r)
  {
    if s.showResult then s else s.(selectedAnswer := Some(index))
  }

  /** `handleSubmit`: without a selection nothing happens. Otherwise the result
      is shown, and the score goes up by one, with the current question
      credited, exactly when the answer is correct and the question has not
      been credited before. */
  function Submit(questions: seq<QuizQuestion>, s: Snapshot): (r: Snapshot)
    requires 0 <= s.currentQuestion < |questions|
    ensures s.selectedAnswer.None? ==> r == s
    ensures s.selectedAnswer.Some? ==> r.showResult
    ensures r.currentQuestion == s.currentQuestion && r.selectedAnswer == s.selectedAnswer
    ensures s.score <= r.score <= s.score + 1
    ensures r.score == s.score + 1 <==>
      IsCorrect(questions, s) && s.currentQuestion !in s.answeredQuestions
    ensures r.answeredQuestions ==
      if r.score == s.score then s.answeredQuestions
      else s.answeredQuestions + [s.currentQuestion]
    ensures s.currentQuestion in s.answeredQuestions ==> r.score == s.score
    ensures s.selectedAnswer.Some? && s.currentQuestion == |questions| - 1 ==>
      IsComplete(|questions|, r)
    ensures Consistent(|questions|, s) ==> Consistent(|questions|, r)
  {
    if s.selectedAnswer.None? then s
    else
      var credit := IsCorrect(questions, s) && s.currentQuestion !in s.answeredQuestions;
      var r := if credit
        then s.(score := s.score + 1, answeredQuestions := s.answeredQuestions + [s.currentQuestion])
        else s;
      assert Consistent(|questions|, s) && credit ==> StrictlyIncreasing(r.answeredQuestions) by {
        if Consistent(|questions|, s) && credit {
          var a := s.answeredQuestions;
          forall i | 0 <= i < |a| ensures a[i] < s.currentQuestion {
            assert a[i] in a;
          }
        }
      }
      r.(showResult := true)
  }

  /** `handleNext`: clears the selection and the result, keeps the score, and
      moves the cursor forward unless it is already on the last question. */
  function Next(n: int, s: Snapshot): (r: Snapshot)
    requires 0 <= s.currentQuestion < n
    ensures r.selectedAnswer.None? && !r.showResult
    ensures r.score == s.score && r.answeredQuestions == s.answeredQuestions
    ensures r.currentQuestion == if s.currentQuestion < n - 1 then s.currentQuestion + 1 else s.currentQuestion
    ensures 0 <= r.currentQuestion < n
    ensures !IsComplete(n, r)
    ensures Consistent(n, s) ==> Consistent(n, r)
  {
    var r := s.(selectedAnswer := None, showResult := false);
    if s.currentQuestion < n - 1 then r.(currentQuestion := s.currentQuestion + 1) else r
  }

  /** A learner's action on the quiz: one of the four handlers. */
  datatype Event = Select(index: int) | SubmitAnswer | NextQuestion | Restart

  /** One handler applied atomically to the snapshot. */
  function Step(questions: seq<QuizQuestion>, s: Snapshot, e: Event): (r: Snapshot)
    requires 0 <= s.currentQuestion < |questions|
    ensures 0 <= r.currentQuestion < |questions|
    ensures e.Restart? ==> r == InitialSnapshot
    ensures !e.Restart? ==> s.score <= r.score <= s.score + 1
    ensures Consistent(|questions|, s) ==> Consistent(|questions|, r)
  {
    match e
    case Select(i) => AnswerSelect(|questions|, s, i)
    case SubmitAnswer => Submit(questions, s)
    case NextQuestion => Next(|questions|, s)
    case Restart => InitialSnapshot
  }

  /** The snapshot after a whole sequence of learner actions. */
  function Run(questions: seq<QuizQuestion>, s: Snapshot, events: seq<Event>): (r: Snapshot)
    requires 0 <= s.currentQuestion < |questions|
    ensures 0 <= r.currentQuestion < |questions|
    ensures Consistent(|questions|, s) ==> Consistent(|questions|, r)
    decreases |events|
  {
    if events == [] then s
    else Run(questions, Step(questions, s, events[0]), events[1..])
  }

  /** From the initial state, any sequence of actions leaves the session
      consistent, so the score never exceeds the number of questions. */
  lemma RunScoreBounded(questions: seq<QuizQuestion>, events: seq<Event>)
    requires |questions| >= 1
    ensures Consistent(|questions|, Run(questions, InitialSnapshot, events))
    ensures 0 <= Run(questions, InitialSnapshot, events).score <= |questions|
  {
    ConsistentScoreBound(|questions|, Run(questions, InitialSnapshot, events));
  }

  /** The score never decreases along a sequence of actions without a restart,
      and it grows by at most one per action. */
  lemma {:induction false} RunScoreMonotone(questions: seq<QuizQuestion>, s: Snapshot, events: seq<Event>)
    requires 0 <= s.currentQuestion < |questions|
    requires forall k :: 0 <= k < |events| ==> !events[k].Restart?
    ensures s.score <= Run(questions, s, events).score <= s.score + |events|
    decreases |events|
  {
    if events != [] {
      var t := Step(questions, s, events[0]);
      assert !events[0].Restart?;
      assert forall k :: 0 <= k < |events[1..]| ==> !events[1..][k].Restart? by {
        forall k | 0 <= k < |events[1..]| ensures !events[1..][k].Restart? {
          assert events[1..][k] == events[k + 1];
        }
      }
      RunScoreMonotone(questions, t, events[1..]);
    }
  }

  /** A restart forgets the whole history: whatever happened before it, the
      actions after it lead to the same state as from a fresh quiz. */
  lemma {:induction false} RunRestartForgets(questions: seq<QuizQuestion>, s: Snapshot, before: seq<Event>, after: seq<Event>)
    requires 0 <= s.currentQuestion < |questions|
    ensures Run(questions, s, before + [Restart] + after) == Run(questions, InitialSnapshot, after)
    decreases |before|
  {
    if before == [] {
      assert [Restart] + after == before + [Restart] + after;
      assert ([Restart] + after)[1..] == after;
    } else {
      assert (before + [Restart] + after)[0] == before[0];
      assert (before + [Restart] + after)[1..] == before[1..] + [Restart] + after;
      RunRestartForgets(questions, Step(questions, s, before[0]), before[1..], after);
    }
  }

  /** The quiz becomes complete only by a submit, with a selection, on the
      last question; once complete it stays so until Next or restart. */
  lemma StepReachesComplete(questions: seq<QuizQuestion>, s: Snapshot, e: Event)
    requires 0 <= s.currentQuestion < |questions|
    ensures !IsComplete(|questions|, s) && IsComplete(|questions|, Step(questions, s, e)) ==>
      e.SubmitAnswer? && s.selectedAnswer.Some? && s.currentQuestion == |questions| - 1
    ensures IsComplete(|questions|, s) && (e.Select? || e.SubmitAnswer?) ==>
      IsComplete(|questions|, Step(questions, s, e))
  {
  }

  /** The verdict shown after a submit ("Correct!" or "Incorrect") is the one
      the submit judged: an answer that scored is shown as correct, and an
      answer shown as correct that did not score was for a question already
      credited. */
  lemma ShownVerdict(questions: seq<QuizQuestion>, s: Snapshot)
    requires 0 <= s.currentQuestion < |questions|
    requires s.selectedAnswer.Some?
    ensures Submit(questions, s).showResult
    ensures IsCorrect(questions, Submit(questions, s)) == IsCorrect(questions, s)
    ensures Submit(questions, s).score > s.score ==> IsCorrect(questions, Submit(questions, s))
    ensures IsCorrect(questions, Submit(questions, s)) && Submit(questions, s).score == s.score ==>
      s.currentQuestion in s.answeredQuestions
  {
  }

  /** The completion message, in the order the thresholds are tested. */
  datatype Label = Perfect | Great | GoodEffort | KeepLearning {
    function Rank(): nat {
      match this
      case KeepLearning => 0
      case GoodEffort => 1
      case Great => 2
      case Perfect => 3
    }

    function Text(): string {
      match this
      case Perfect => "Perfect score! Outstanding!"
      case Great => "Great job! Well done!"
      case GoodEffort => "Good effort! Keep practicing!"
      case KeepLearning => "Keep learning and try again!"
    }
  }

  /** The label for `score` correct answers out of `n`. The thresholds 0.7 and
      0.5 are compared by cross-multiplication; for a score in [0, n] the
      labels cover disjoint bands, each inclusive at its lower bound. */
  function CompletionLabel(score: int, n: int): (l: Label)
    ensures 0 <= score <= n ==>
      (l == Perfect <==> score == n) &&
      (l == Great <==> score < n && 7 * n <= 10 * score) &&
      (l == GoodEffort <==> n <= 2 * score && 10 * score < 7 * n) &&
      (l == KeepLearning <==> 2 * score < n)
  {
    if score == n then Perfect
    else if 10 * score >= 7 * n then Great
    else if 2 * score >= n then GoodEffort
    else KeepLearning
  }

  /** Each label has its own message, so the message shown tells the band. */
  lemma TextIdentifiesLabel(l1: Label, l2: Label)
    ensures l1.Text() == l2.Text() <==> l1 == l2
    ensures |l1.Text()| > 0
  {
  }

  /** A higher score never earns a lower label. */
  lemma LabelMonotone(s1: int, s2: int, n: int)
    requires 0 <= s1 <= s2 <= n
    ensures CompletionLabel(s1, n).Rank() <= CompletionLabel(s2, n).Rank()
  {
  }

  /** Which handlers the rendered quiz can fire in a given state: the option
      buttons and Submit only while no result is shown, Submit only with a
      selection, Next only once the result is shown, Restart only when the
      quiz is complete. */
  function Enabled(questions: seq<QuizQuestion>, s: Snapshot, e: Event): (r: bool)
    requires 0 <= s.currentQuestion < |questions|
    ensures r && (e.Select? || e.SubmitAnswer?) ==> !s.showResult
    ensures r && e.Select? ==> 0 <= e.index < |questions[s.currentQuestion].options|
    ensures r && e.SubmitAnswer? ==> s.selectedAnswer.Some?
    ensures r && e.NextQuestion? ==> s.showResult
    ensures IsComplete(|questions|, s) ==> (r <==> e.Restart?)
    ensures !IsComplete(|questions|, s) ==> !(r && e.Restart?)
  {
    var complete := IsComplete(|questions|, s);
    match e
    case Select(i) => !complete && !s.showResult && 0 <= i < |questions[s.currentQuestion].options|
    case SubmitAnswer => !complete && !s.showResult && s.selectedAnswer.Some?
    case NextQuestion => !complete && s.showResult
    case Restart => complete
  }

  /** A Next the learner can actually press always moves to the following
      question: on the last question the completion screen replaces the
      Next button, so the cursor is never held in place from the UI. */
  lemma UiNextAdvances(questions: seq<QuizQuestion>, s: Snapshot)
    requires 0 <= s.currentQuestion < |questions|
    requires Enabled(questions, s, NextQuestion)
    ensures s.currentQuestion < |questions| - 1
    ensures Step(questions, s, NextQuestion).currentQuestion == s.currentQuestion + 1
  {
  }

  /** The quiz component: a fixed question list and the session state that
      its handlers update in place. */
  class Quiz {
    const questions: seq<QuizQuestion>
    var currentQuestion: int
    var selectedAnswer: Option<int>
    var showResult: bool
    var score: int
    var answeredQuestions: seq<int>

    function State(): Snapshot
      reads this
    {
      Snapshot(currentQuestion, selectedAnswer, showResult, score, answeredQuestions)
    }

    ghost predicate Valid()
      reads this
    {
      |questions| >= 1 && Consistent(|questions|, State())
    }

    constructor (questions: seq<QuizQuestion>)
      requires |questions| >= 1
      ensures Valid() && this.questions == questions
      ensures State() == InitialSnapshot
    {
      this.questions := questions;
      currentQuestion := 0;
      selectedAnswer := None;
      showResult := false;
      score := 0;
      answeredQuestions := [];
    }

    method HandleAnswerSelect(index: int)
      requires Valid()
      modifies this
      ensures Valid()
      ensures State() == AnswerSelect(|questions|, old(State()), index)
    {
      if showResult {
        return;
      }
      selectedAnswer := Some(index);
    }

    method HandleSubmit()
      requires Valid()
      modifies this
      ensures Valid()
      ensures State() == Submit(questions, old(State()))
    {
      if selectedAnswer.None? {
        return;
      }
      var isCorrect := IsCorrect(questions, State());
      if isCorrect && currentQuestion !in answeredQuestions {
        score := score + 1;
        answeredQuestions := answeredQuestions + [currentQuestion];
      }
      showResult := true;
    }

    method HandleNext()
      requires Valid()
      modifies this
      ensures Valid()
      ensures State() == Next(|questions|, old(State()))
    {
      selectedAnswer := None;
      showResult := false;
      if currentQuestion < |questions| - 1 {
        currentQuestion := currentQuestion + 1;
      }
    }

    method HandleRestart()
      requires Valid()
      modifies this
      ensures Valid()
      ensures State() == InitialSnapshot
    {
      currentQuestion := 0;
      selectedAnswer := None;
      showResult := false;
      score := 0;
      answeredQuestions := [];
    }
  }

  /** Three questions: the first and third answered correctly, the second
      not. The completion screen appears as soon as the third result is
      shown, with two points and the "good effort" label (2/3 is below 0.7
      and at least 0.5). */
  method ThreeQuestionSession() returns (score: int, complete: bool, message: Label)
    ensures score == 2 && complete && message == GoodEffort
  {
    var questions := [
      QuizQuestion("What is 2+2?", ["4", "3"], 0, None),
      QuizQuestion("What is 3+3?", ["6", "5"], 0, None),
      QuizQuestion("What is 4+4?", ["8", "7"], 0, None)];
    var quiz := new Quiz(questions);
    quiz.HandleAnswerSelect(0);
    quiz.HandleSubmit();
    quiz.HandleNext();
    quiz.HandleAnswerSelect(1);
    quiz.HandleSubmit();
    quiz.HandleNext();
    quiz.HandleAnswerSelect(0);
    quiz.HandleSubmit();
    score := quiz.score;
    complete := IsComplete(|quiz.questions|, quiz.State());
    message := CompletionLabel(score, |quiz.questions|);
  }
}
