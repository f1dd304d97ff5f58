/** The results page of the certifyme exam pages, in its current copy and its older public
    copy: each question is marked correct when the stored selection matches the correct
    options exactly, partial when it contains some correct option, and wrong otherwise; the
    score counts the correct marks, and the feedback message depends on the percentage. The
    copies differ only in when the stored answers are cleared. */
module ExactGrading {
  import opened Wrappers
  import opened Selections
  import Feedback

  datatype Mark = Correct | Partial | Wrong

  /** `isCorrect`, then `isPartial`, on the normalised selection and key. */
  function MarkOf(entry: Entry, key: Key): Mark {
    var u := Selected(entry);
    var c := Normalise(key);
    if ExactMatch(u, c) then Correct
    else if SomeCorrect(u, c) then Partial
    else Wrong
  }

  /** The marks of all questions, question `k` read from `answers[k]`. */
  function MarksOf(keys: seq<Key>, answers: seq<Entry>): (marks: seq<Mark>)
    ensures |marks| == |keys|
    ensures forall k :: 0 <= k < |keys| ==> marks[k] == MarkOf(EntryAt(answers, k), keys[k])
  {
    seq(|keys|, k requires 0 <= k < |keys| => MarkOf(EntryAt(answers, k), keys[k]))
  }

  /** The number of correct marks. */
  function CountCorrect(marks: seq<Mark>): (n: nat)
    ensures n <= |marks|
    ensures n == |marks| <==> forall k :: 0 <= k < |marks| ==> marks[k] == Correct
    ensures n == 0 <==> forall k :: 0 <= k < |marks| ==> marks[k] != Correct
  {
    if marks == [] then 0
    else
      var init := marks[..|marks| - 1];
      assert forall k :: 0 <= k < |init| ==> init[k] == marks[k];
      CountCorrect(init) + (if marks[|marks| - 1] == Correct then 1 else 0)
  }

  /** One more mark adds one to the count exactly when it is correct. */
  lemma CountSnoc(marks: seq<Mark>, m: Mark)
    ensures CountCorrect(marks + [m]) == CountCorrect(marks) + (if m == Correct then 1 else 0)
  {
    assert (marks + [m])[..|marks|] == marks;
  }

  /** `correctCount`: the number of questions marked correct. */
  function CorrectCount(keys: seq<Key>, answers: seq<Entry>): nat {
    CountCorrect(MarksOf(keys, answers))
  }

  /** The body of the page's loop for one question. */
  method MarkQuestion(entry: Entry, key: Key) returns (mark: Mark)
    ensures mark == MarkOf(entry, key)
  {
    var userAns := if entry.List? then entry.items else [];
    var correctAns := if key.Many? then key.indices else [key.index];
    var isCorrect := |userAns| == |correctAns| && forall k :: 0 <= k < |userAns| ==> userAns[k] in correctAns;
    var isPartial := !isCorrect && exists k :: 0 <= k < |userAns| && userAns[k] in correctAns;
    mark := if isCorrect then Correct else if isPartial then Partial else Wrong;
  }

  /** Marking one more question appends its mark. */
  lemma MarksOfSnoc(keys: seq<Key>, answers: seq<Entry>, idx: nat)
    requires idx < |keys|
    ensures MarksOf(keys[..idx + 1], answers) == MarksOf(keys[..idx], answers) + [MarkOf(EntryAt(answers, idx), keys[idx])]
  {
  }

  /** The page's `forEach`: one mark per question, and `correctCount++` on each correct one. */
  method MarkAll(keys: seq<Key>, answers: seq<Entry>) returns (marks: seq<Mark>, correctCount: nat)
    ensures marks == MarksOf(keys, answers)
    ensures correctCount == CorrectCount(keys, answers)
  {
    marks, correctCount := [], 0;
    var idx := 0;
    while idx < |keys|
      invariant 0 <= idx <= |keys|
      invariant marks == MarksOf(keys[..idx], answers)
      invariant correctCount == CountCorrect(marks)
    {
      var mark := MarkQuestion(EntryAt(answers, idx), keys[idx]);
      MarksOfSnoc(keys, answers, idx);
      CountSnoc(marks, mark);
      marks := marks + [mark];
      if mark == Correct {
        correctCount := correctCount + 1;
      }
      idx := idx + 1;
    }
    assert keys[..idx] == keys;
  }

  /** `(correctCount / questions.length) * 100`, `None` standing for the `NaN` of an exam
      without questions. */
  function Percent(correctCount: nat, total: nat): (r: Option<real>)
    ensures r.Some? <==> total > 0
    ensures r.Some? ==> r.value * total as real == correctCount as real * 100.0
  {
    if total == 0 then None else Some(correctCount as real * 100.0 / total as real)
  }

  /** The exam file as the results page reads it. */
  datatype Exam = Exam(keys: seq<Key>, retroalimentacion: seq<Feedback.Item>)

  /** What the page shows: the marks, `correctCount/questions.length` and the message. */
  datatype View = View(marks: seq<Mark>, correctCount: nat, total: nat, feedback: string)

  function ViewOf(exam: Exam, answers: seq<Entry>): View {
    var n := CorrectCount(exam.keys, answers);
    View(MarksOf(exam.keys, answers), n, |exam.keys|, Feedback.Message(exam.retroalimentacion, Percent(n, |exam.keys|)))
  }

  /** `localStorage.getItem(...) || '[]'`: no saved array reads as the empty array. */
  function Loaded(saved: map<string, seq<Entry>>, slug: string): (answers: seq<Entry>)
    ensures slug !in saved ==> answers == []
    ensures slug in saved ==> answers == saved[slug]
  {
    if slug in saved then saved[slug] else []
  }

  /** Exactly one mark applies, each under its own condition. */
  lemma MarkCases(entry: Entry, key: Key)
    ensures MarkOf(entry, key) == Correct <==> ExactMatch(Selected(entry), Normalise(key))
    ensures MarkOf(entry, key) == Partial <==>
              !ExactMatch(Selected(entry), Normalise(key)) && SomeCorrect(Selected(entry), Normalise(key))
    ensures MarkOf(entry, key) == Wrong <==>
              !ExactMatch(Selected(entry), Normalise(key)) && !SomeCorrect(Selected(entry), Normalise(key))
  {
  }

  /** A stored entry that is not an array is graded as the empty selection: wrong, unless the
      question's correct answer is itself the empty array. */
  lemma NotListIsEmptySelection(key: Key)
    ensures MarkOf(NotList, key) == MarkOf(List([]), key)
    ensures MarkOf(NotList, key) == (if key == Many([]) then Correct else Wrong)
  {
    EmptySelection(Normalise(key));
  }

  /** A scalar correct answer is graded as the one-element array holding it. */
  lemma ScalarKeyIsSingleton(entry: Entry, i: int)
    ensures MarkOf(entry, One(i)) == MarkOf(entry, Many([i]))
  {
  }

  /** Without any saved answers nothing is correct (on an exam whose keys are not empty
      arrays), so the count is 0. */
  lemma {:induction false} NothingSavedScoresZero(keys: seq<Key>)
    requires forall k :: 0 <= k < |keys| ==> keys[k] != Many([])
    ensures CorrectCount(keys, []) == 0
  {
    var marks := MarksOf(keys, []);
    forall k | 0 <= k < |keys| ensures marks[k] != Correct {
      NotListIsEmptySelection(keys[k]);
    }
  }

  /** For a non-empty exam the percentage lies in 0..100 and is 100 exactly when every
      question is correct. */
  lemma PercentRange(keys: seq<Key>, answers: seq<Entry>)
    requires |keys| > 0
    ensures var p := Percent(CorrectCount(keys, answers), |keys|).value;
            0.0 <= p <= 100.0
            && (p == 100.0 <==> forall k :: 0 <= k < |keys| ==> MarksOf(keys, answers)[k] == Correct)
  {
    PercentOfCount(CorrectCount(keys, answers), |keys|);
  }

  lemma PercentOfCount(c: nat, n: nat)
    requires c <= n && n > 0
    ensures 0.0 <= Percent(c, n).value <= 100.0
    ensures Percent(c, n).value == 100.0 <==> c == n
  {
    var p := Percent(c, n).value;
    assert p * n as real == c as real * 100.0;
    if p == 100.0 {
      assert 100.0 * n as real == c as real * 100.0;
    }
  }

  /** Where the page goes after a button. */
  datatype Target = QuestionsPage(slug: string) | ExamList

  /** The current copy: the stored answers are removed as soon as the results are shown, and
      both buttons remove them again. */
  class ResultadoPage {
    const store: AnswerStore

    constructor (store: AnswerStore)
      ensures this.store == store
    {
      this.store := store;
    }

    /** Loading the page. Without a slug, or when the exam file cannot be loaded, the page
        leaves for the exam list with nothing shown and nothing removed. */
    method Display(slug: string, exam: Option<Exam>) returns (view: Option<View>)
      modifies store
      ensures slug == "" || exam.None? ==> view.None? && store.saved == old(store.saved)
      ensures slug != "" && exam.Some? ==>
                view == Some(ViewOf(exam.value, Loaded(old(store.saved), slug)))
                && store.saved == old(store.saved) - {slug}
    {
      if slug == "" || exam.None? {
        return None;
      }
      var stored := store.Lookup(slug);
      var answers := if stored.Some? then stored.value else [];
      var marks, correctCount := MarkAll(exam.value.keys, answers);
      var total := |exam.value.keys|;
      var feedbackMsg := Feedback.Message(exam.value.retroalimentacion, Percent(correctCount, total));
      view := Some(View(marks, correctCount, total, feedbackMsg));
      store.Remove(slug);
    }

    method Retry(slug: string) returns (target: Target)
      modifies store
      ensures target == QuestionsPage(slug) && store.saved == old(store.saved) - {slug}
    {
      store.Remove(slug);
      target := QuestionsPage(slug);
    }

    method Back(slug: string) returns (target: Target)
      modifies store
      ensures target == ExamList && store.saved == old(store.saved) - {slug}
    {
      store.Remove(slug);
      target := ExamList;
    }
  }

  /** The older public copy: showing the results keeps the stored answers, retry removes
      them, and back leaves them in place. */
  class LegacyResultadoPage {
    const store: AnswerStore

    constructor (store: AnswerStore)
      ensures this.store == store
    {
      this.store := store;
    }

    method Display(slug: string, exam: Option<Exam>) returns (view: Option<View>)
      ensures slug == "" || exam.None? ==> view.None?
      ensures slug != "" && exam.Some? ==> view == Some(ViewOf(exam.value, Loaded(store.saved, slug)))
    {
      if slug == "" || exam.None? {
        return None;
      }
      var stored := store.Lookup(slug);
      var answers := if stored.Some? then stored.value else [];
      var marks, correctCount := MarkAll(exam.value.keys, answers);
      var total := |exam.value.keys|;
      view := Some(View(marks, correctCount, total, Feedback.Message(exam.value.retroalimentacion, Percent(correctCount, total))));
    }

    method Retry(slug: string) returns (target: Target)
      modifies store
      ensures target == QuestionsPage(slug) && store.saved == old(store.saved) - {slug}
    {
      store.Remove(slug);
      target := QuestionsPage(slug);
    }

    /** Back changes nothing in storage: the method modifies nothing. */
    method Back() returns (target: Target)
      ensures target == ExamList
    {
      target := ExamList;
    }
  }
}
