/** The result computation of the React results page: a question counts when the stored
    answer is exactly its `correct_answer`; the score is the rounded percentage of such
    questions, and 65 or more passes. The per-question review gives each question one badge
    and each option one highlight. */
module ResultsPage {
  import JsMath

  datatype Question = Question(id: string, optionIds: seq<string>, correctAnswer: string)

  /** `answers[q.id] === q.correct_answer`: a missing answer is never correct. */
  predicate IsCorrect(answers: map<string, string>, q: Question) {
    q.id in answers && answers[q.id] == q.correctAnswer
  }

  /** `!userAnswer`: no stored answer, or the empty string. */
  predicate IsSkipped(answers: map<string, string>, q: Question) {
    q.id !in answers || answers[q.id] == ""
  }

  /** The number of correctly answered questions. */
  function CountCorrect(questions: seq<Question>, answers: map<string, string>): (c: nat)
    ensures c <= |questions|
    ensures c == 0 <==> forall k :: 0 <= k < |questions| ==> !IsCorrect(answers, questions[k])
    ensures c == |questions| <==> forall k :: 0 <= k < |questions| ==> IsCorrect(answers, questions[k])
  {
    if questions == [] then 0
    else
      var init := questions[..|questions| - 1];
      var last := questions[|questions| - 1];
      var c := CountCorrect(init, answers) + (if IsCorrect(answers, last) then 1 else 0);
      assert forall k :: 0 <= k < |init| ==> init[k] == questions[k];
      c
  }

  /** The page's `forEach` loop that counts the correct answers. */
  method CorrectCount(questions: seq<Question>, answers: map<string, string>) returns (correctCount: nat)
    ensures correctCount == CountCorrect(questions, answers)
  {
    correctCount := 0;
    var i := 0;
    while i < |questions|
      invariant 0 <= i <= |questions|
      invariant correctCount == CountCorrect(questions[..i], answers)
    {
      assert questions[..i + 1][..i] == questions[..i];
      if questions[i].id in answers && answers[questions[i].id] == questions[i].correctAnswer {
        correctCount := correctCount + 1;
      }
      i := i + 1;
    }
    assert questions[..i] == questions;
  }

  datatype Summary = Summary(correctCount: nat, score: JsMath.Number, isPassed: bool)

  /** `score >= 65`; a `NaN` score (no questions at all) does not pass. */
  predicate Passes(score: JsMath.Number) {
    score.Int? && score.value >= 65
  }

  function Evaluate(questions: seq<Question>, answers: map<string, string>): (s: Summary)
    ensures s.correctCount <= |questions|
    ensures |questions| == 0 ==> s.score == JsMath.NaN && !s.isPassed
    ensures |questions| > 0 ==> s.score.Int? && 0 <= s.score.value <= 100
    ensures s.isPassed ==> |questions| > 0 && 200 * s.correctCount >= 129 * |questions|
  {
    var c, n := CountCorrect(questions, answers), |questions|;
    var score := JsMath.Percent(c, n);
    assert n > 0 ==> 0 <= score.value <= 100 by {
      if n > 0 { JsMath.PercentBounds(c, n); }
    }
    assert Passes(score) ==> 200 * c >= 129 * n by {
      if Passes(score) { JsMath.MulMono(2 * n, 65, score.value); }
    }
    Summary(c, score, Passes(score))
  }

  /** For a non-empty exam the score lies in 0..100 and the exam is passed exactly when at
      least 64.5% of the questions are correct (65 after rounding half up). */
  lemma {:induction false} PassThreshold(questions: seq<Question>, answers: map<string, string>)
    requires |questions| > 0
    ensures Evaluate(questions, answers).score.Int?
    ensures 0 <= Evaluate(questions, answers).score.value <= 100
    ensures Evaluate(questions, answers).isPassed <==> 200 * CountCorrect(questions, answers) >= 129 * |questions|
  {
    var c, n := CountCorrect(questions, answers), |questions|;
    JsMath.PercentBounds(c, n);
    var p := JsMath.Percent(c, n).value;
    assert 2 * n * p <= 200 * c + n < 2 * n * (p + 1);
    if p >= 65 {
      JsMath.MulMono(2 * n, 65, p);
    } else {
      JsMath.MulMono(2 * n, p + 1, 65);
    }
  }

  /** With no answers stored nothing is correct: the score is 0 (or `NaN` without questions)
      and the exam is not passed. */
  lemma NoAnswersFail(questions: seq<Question>)
    ensures Evaluate(questions, map[]).correctCount == 0
    ensures |questions| > 0 ==> Evaluate(questions, map[]).score == JsMath.Int(0)
    ensures |questions| == 0 ==> Evaluate(questions, map[]).score == JsMath.NaN
    ensures !Evaluate(questions, map[]).isPassed
  {
    if |questions| > 0 {
      JsMath.RoundExact(0, |questions|);
    }
  }

  /** Answering every question correctly scores 100 and passes. */
  lemma AllCorrectPasses(questions: seq<Question>, answers: map<string, string>)
    requires |questions| > 0
    requires forall k :: 0 <= k < |questions| ==> IsCorrect(answers, questions[k])
    ensures Evaluate(questions, answers).score == JsMath.Int(100)
    ensures Evaluate(questions, answers).isPassed
  {
    JsMath.RoundExact(100, |questions|);
  }

  /** Scenario: four questions, three answered correctly, scores 75 and passes. */
  lemma ThreeOfFour(questions: seq<Question>, answers: map<string, string>)
    requires |questions| == 4 && CountCorrect(questions, answers) == 3
    ensures Evaluate(questions, answers).score == JsMath.Int(75)
    ensures Evaluate(questions, answers).isPassed
  {
    JsMath.RoundExact(75, 4);
  }

  datatype Badge = Correcta | Omitida | Incorrecta

  /** The review badge: correct first, then skipped, otherwise incorrect. */
  function BadgeOf(answers: map<string, string>, q: Question): Badge {
    if IsCorrect(answers, q) then Correcta
    else if IsSkipped(answers, q) then Omitida
    else Incorrecta
  }

  /** Each badge has its own condition, and the three conditions cover every case. */
  lemma BadgeCases(answers: map<string, string>, q: Question)
    ensures BadgeOf(answers, q) == Correcta <==> IsCorrect(answers, q)
    ensures BadgeOf(answers, q) == Omitida <==> !IsCorrect(answers, q) && IsSkipped(answers, q)
    ensures BadgeOf(answers, q) == Incorrecta <==>
              q.id in answers && answers[q.id] != "" && answers[q.id] != q.correctAnswer
  {
  }

  datatype Highlight = Green | Red | Plain

  /** The colour of one option in the review. */
  function OptionHighlight(answers: map<string, string>, q: Question, optionId: string): Highlight {
    var isSelected := q.id in answers && answers[q.id] == optionId;
    if q.correctAnswer == optionId then Green
    else if isSelected && !IsCorrect(answers, q) then Red
    else Plain
  }

  /** The correct option is always green; an option is red only when it is the selected, wrong
      answer of a question answered incorrectly; a correctly answered question shows no red. */
  lemma HighlightRules(answers: map<string, string>, q: Question, optionId: string)
    ensures optionId == q.correctAnswer ==> OptionHighlight(answers, q, optionId) == Green
    ensures OptionHighlight(answers, q, optionId) == Red <==>
              q.id in answers && answers[q.id] == optionId && optionId != q.correctAnswer
    ensures IsCorrect(answers, q) ==> OptionHighlight(answers, q, optionId) != Red
  {
  }
}
