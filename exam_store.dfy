/** The exam session store of the React application: the current question, the answers
    given so far (question id to chosen option id), the remaining seconds and the
    started/completed flags, changed by the store's actions. */
module ExamStore {
  import JsMath

  /** `Math.max(t - 1, 0)`: one second less, saturating at zero. */
  function TickTime(t: int): (r: int)
    ensures r >= 0
    ensures t > 0 ==> r == t - 1
    ensures t <= 0 ==> r == 0
  {
    if t - 1 > 0 then t - 1 else 0
  }

  /** The store's progress figure: 0 without questions, otherwise the rounded percentage
      of the questions up to and including the current one. */
  function Progress(current: int, total: int): (p: int)
    ensures total <= 0 ==> p == 0
    ensures total > 0 && current >= -1 ==> p >= 0
    ensures total > 0 ==> 2 * total * p <= 200 * (current + 1) + total < 2 * total * (p + 1)
  {
    if total > 0 then JsMath.RoundHalfUp(100 * (current + 1), total) else 0
  }

  /** While the position is a valid question index the progress lies in 0..100, it is 100
      on the last question (and, below 200 questions, only there), and it never decreases as
      the position moves forward. */
  lemma ProgressInRange(current: int, total: int)
    requires 0 <= current < total
    ensures 0 <= Progress(current, total) <= 100
    ensures current == total - 1 ==> Progress(current, total) == 100
    ensures total < 200 ==> (Progress(current, total) == 100 <==> current == total - 1)
    ensures forall later :: current <= later < total ==> Progress(current, total) <= Progress(later, total)
  {
    JsMath.RoundMonotone(100 * (current + 1), 100 * total, total);
    JsMath.RoundExact(100, total);
    forall later | current <= later < total
      ensures Progress(current, total) <= Progress(later, total)
    {
      JsMath.RoundMonotone(100 * (current + 1), 100 * (later + 1), total);
    }
  }

  /** From 200 questions on, rounding shows 100 before the last question: question 199 of
      200 is 99.5 percent of the way. */
  lemma ProgressFullBeforeEnd()
    ensures Progress(198, 200) == 100
  {
    assert 2 * 200 * 100 <= 200 * 199 + 200 < 2 * 200 * 101;
  }

  /** Setting an answer adds one to the answered count exactly when the question had no answer. */
  lemma {:induction false} AnsweredCountAfterSet(answers: map<string, string>, questionId: string, answer: string)
    ensures |answers[questionId := answer].Keys| == |answers.Keys| + (if questionId in answers then 0 else 1)
  {
    var m := answers[questionId := answer];
    if questionId in answers {
      assert m.Keys == answers.Keys;
    } else {
      assert m.Keys == answers.Keys + {questionId};
    }
  }

  /** Setting the same answer twice is the same as setting it once, and an answer for one
      question leaves every other question's answer as it was. */
  lemma SetAnswerIdempotent(answers: map<string, string>, questionId: string, answer: string)
    ensures answers[questionId := answer][questionId := answer] == answers[questionId := answer]
    ensures forall q :: q in answers && q != questionId ==> answers[questionId := answer][q] == answers[q]
  {
  }

  /** `k` ticks from `t` seconds leave `t - k` seconds, or 0 once `t` is used up. */
  function TicksFrom(t: int, k: nat): int
    decreases k
  {
    if k == 0 then t else TicksFrom(TickTime(t), k - 1)
  }

  lemma {:induction false} TicksFromValue(t: int, k: nat)
    requires t >= 0
    ensures TicksFrom(t, k) == if k <= t then t - k else 0
  {
    if k > 0 {
      TicksFromValue(TickTime(t), k - 1);
    }
  }

  /** Ticks never add time: the remaining time only goes down, and never below 0. */
  lemma {:induction false} TicksNeverIncrease(t: int, k: nat)
    requires t >= 0
    ensures 0 <= TicksFrom(t, k) <= t
  {
    TicksFromValue(t, k);
  }

  class ExamState {
    var currentQuestion: int
    var answers: map<string, string>
    var timeRemaining: int
    var examStarted: bool
    var examCompleted: bool
    var totalQuestions: int

    /** The store's initial state, which `resetExam` restores. */
    predicate IsInitial()
      reads this
    {
      currentQuestion == 0 && answers == map[] && timeRemaining == 0
      && !examStarted && !examCompleted && totalQuestions == 0
    }

    constructor ()
      ensures IsInitial()
    {
      currentQuestion, answers, timeRemaining := 0, map[], 0;
      examStarted, examCompleted, totalQuestions := false, false, 0;
    }

    /** Replaces the answer of one question; other answers and every other field stay. */
    method SetAnswer(questionId: string, answer: string)
      modifies this`answers
      ensures answers == old(answers)[questionId := answer]
    {
      answers := answers[questionId := answer];
    }

    /** Moves forward, but never past `totalQuestions - 1` (which is -1 while there are no questions). */
    method NextQuestion()
      modifies this`currentQuestion
      ensures currentQuestion <= totalQuestions - 1
      ensures currentQuestion == if old(currentQuestion) + 1 < totalQuestions - 1
                                 then old(currentQuestion) + 1 else totalQuestions - 1
    {
      currentQuestion := if currentQuestion + 1 < totalQuestions - 1 then currentQuestion + 1 else totalQuestions - 1;
    }

    /** Moves back, but never below 0. */
    method PreviousQuestion()
      modifies this`currentQuestion
      ensures currentQuestion >= 0
      ensures currentQuestion == if old(currentQuestion) - 1 > 0 then old(currentQuestion) - 1 else 0
    {
      currentQuestion := if currentQuestion - 1 > 0 then currentQuestion - 1 else 0;
    }

    /** Jumps to the given index as it is: no clamping to the question range. */
    method GoToQuestion(index: int)
      modifies this`currentQuestion
      ensures currentQuestion == index
    {
      currentQuestion := index;
    }

    /** Starts an attempt of `duration` minutes over `total` questions with no answers. */
    method StartExam(total: int, duration: int)
      modifies this
      ensures examStarted && !examCompleted
      ensures totalQuestions == total && timeRemaining == duration * 60
      ensures currentQuestion == 0 && answers == map[]
    {
      examStarted, examCompleted := true, false;
      totalQuestions, timeRemaining := total, duration * 60;
      currentQuestion, answers := 0, map[];
    }

    /** Marks the attempt completed; answers, position and time are kept. */
    method SubmitExam()
      modifies this`examStarted, this`examCompleted
      ensures examCompleted && !examStarted
    {
      examCompleted, examStarted := true, false;
    }

    /** Back to the initial state. */
    method ResetExam()
      modifies this
      ensures IsInitial()
    {
      currentQuestion, answers, timeRemaining := 0, map[], 0;
      examStarted, examCompleted, totalQuestions := false, false, 0;
    }

    /** One timer tick: a second less (not below 0); reaching 0 while started submits. */
    method DecrementTime()
      modifies this`timeRemaining, this`examStarted, this`examCompleted
      ensures timeRemaining == TickTime(old(timeRemaining))
      ensures old(examStarted) && timeRemaining == 0 ==> examCompleted && !examStarted
      ensures !(old(examStarted) && timeRemaining == 0) ==>
                examStarted == old(examStarted) && examCompleted == old(examCompleted)
    {
      var newTime := if timeRemaining - 1 > 0 then timeRemaining - 1 else 0;
      if newTime == 0 && examStarted {
        timeRemaining, examCompleted, examStarted := 0, true, false;
      } else {
        timeRemaining := newTime;
      }
    }

    function GetProgress(): int
      reads this
    {
      Progress(currentQuestion, totalQuestions)
    }

    /** The number of questions that have an answer. */
    function GetAnsweredCount(): nat
      reads this
    {
      |answers.Keys|
    }
  }
}
