/** The certifyme question page, in its current copy and its older public copy: two
    questions per page, the checked options of the visible questions written into the
    answers array and saved under the exam's slug, previous/next navigation, a two-hour
    countdown, and (current copy only) a restart button and the final exact-match score. */
module Pager {
  import opened Wrappers
  import opened Selections
  import ExamStore
  import ExactGrading

  const PerPage: nat := 2
  const ExamSeconds: nat := 120 * 60

  /** `start = currentPage * perPage`. */
  function PageStart(page: nat): nat { page * PerPage }

  /** `end = Math.min(start + perPage, total)`. */
  function PageEnd(page: nat, total: nat): (end: nat)
    ensures end <= total && end <= PageStart(page) + PerPage
    ensures PageStart(page) < total ==> PageStart(page) < end
    ensures end == total || end == PageStart(page) + PerPage
  {
    if PageStart(page) + PerPage < total then PageStart(page) + PerPage else total
  }

  /** `Array(total).fill([])`: one empty selection per question. */
  function EmptyAnswers(total: nat): (a: seq<Entry>)
    ensures |a| == total && forall k :: 0 <= k < total ==> a[k] == List([])
  {
    seq(total, _ => List([]))
  }

  /** The answers array a visit starts from: the saved one if any, else all empty. */
  function InitialAnswers(saved: Option<seq<Entry>>, total: nat): (a: seq<Entry>)
    ensures saved.Some? ==> a == saved.value
    ensures saved.None? ==> a == EmptyAnswers(total)
  {
    if saved.Some? then saved.value else EmptyAnswers(total)
  }

  /** `answers` after `answers[i] = selected` for every `i` in `[start, end)`: those entries
      hold exactly the checked options, every other entry is as it was, and the array only
      grows as far as `end`. */
  predicate WindowSaved(before: seq<Entry>, after: seq<Entry>, start: nat, end: nat, checked: map<int, seq<int>>) {
    |after| == (if start < end && end > |before| then end else |before|)
    && (forall i :: start <= i < end && i < |after| ==> after[i] == List(CheckedAt(checked, i)))
    && (forall i :: 0 <= i < |after| && !(start <= i < end) ==> after[i] == EntryAt(before, i))
  }

  /** `answers[idx]?.includes(j)`: whether option `j` of question `idx` is rendered checked. */
  predicate RenderedChecked(answers: seq<Entry>, idx: int, j: int) {
    EntryAt(answers, idx).List? && j in EntryAt(answers, idx).items
  }

  /** Saving a page and rendering it again shows every visible question with exactly the
      options that were checked. */
  lemma SavedWindowRendersChecked(before: seq<Entry>, after: seq<Entry>, start: nat, end: nat,
                                  checked: map<int, seq<int>>, idx: int, j: int)
    requires WindowSaved(before, after, start, end, checked)
    requires start <= idx < end
    ensures RenderedChecked(after, idx, j) <==> j in CheckedAt(checked, idx)
  {
  }

  /** The final score of the current copy: only an array answer of the same length as the
      correct options, with every entry correct, counts. */
  predicate ScoresPoint(entry: Entry, key: Key) {
    entry.List? && ExactMatch(entry.items, Normalise(key))
  }

  /** Which questions score a point, question `k` read from `answers[k]`. */
  function Points(keys: seq<Key>, answers: seq<Entry>): (points: seq<bool>)
    ensures |points| == |keys|
    ensures forall k :: 0 <= k < |keys| ==> points[k] == ScoresPoint(EntryAt(answers, k), keys[k])
  {
    seq(|keys|, k requires 0 <= k < |keys| => ScoresPoint(EntryAt(answers, k), keys[k]))
  }

  function CountPoints(points: seq<bool>): (n: nat)
    ensures n <= |points|
  {
    if points == [] then 0
    else CountPoints(points[..|points| - 1]) + (if points[|points| - 1] then 1 else 0)
  }

  /** `score`: the number of questions that score a point. */
  function ScoreOf(keys: seq<Key>, answers: seq<Entry>): (score: nat)
    ensures score <= |keys|
  {
    CountPoints(Points(keys, answers))
  }

  /** Two lists that agree, position by position, on what counts give the same count. */
  lemma {:induction false} CountsAgree(points: seq<bool>, marks: seq<ExactGrading.Mark>)
    requires |points| == |marks|
    requires forall k :: 0 <= k < |points| ==> (points[k] <==> marks[k] == ExactGrading.Correct)
    ensures CountPoints(points) == ExactGrading.CountCorrect(marks)
  {
    if points != [] {
      var n := |points|;
      CountsAgree(points[..n - 1], marks[..n - 1]);
    }
  }

  /** The finish computes the same count as the results page shows, except on a question whose
      correct answer is the empty array (a missing answer scores there only on the results page). */
  lemma ScoreMatchesResultsPage(keys: seq<Key>, answers: seq<Entry>)
    requires forall k :: 0 <= k < |keys| ==> keys[k] != Many([])
    ensures ScoreOf(keys, answers) == ExactGrading.CorrectCount(keys, answers)
  {
    var points, marks := Points(keys, answers), ExactGrading.MarksOf(keys, answers);
    forall k | 0 <= k < |keys| ensures points[k] <==> marks[k] == ExactGrading.Correct {
      PointIffCorrect(EntryAt(answers, k), keys[k]);
    }
    CountsAgree(points, marks);
  }

  lemma PointIffCorrect(e: Entry, key: Key)
    requires key != Many([])
    ensures ScoresPoint(e, key) <==> ExactGrading.MarkOf(e, key) == ExactGrading.Correct
  {
    if e.NotList? {
      ExactGrading.NotListIsEmptySelection(key);
    }
  }

  /** What the next button of the current copy did. */
  datatype Outcome =
    | NextPage
    | SavedToProfile(score: nat, total: nat)  // logged in: `saveExamResult(uid, slug, score, total)`, then results
    | GuestResults(score: nat, total: nat)    // not logged in: straight to the results

  class QuestionsPage {
    const slug: string
    const keys: seq<Key>
    const store: AnswerStore
    var currentPage: nat
    var answers: seq<Entry>
    var timeLeft: int

    /** The page is on a page that has questions (or on page 0), and the countdown is within
        the two hours. */
    predicate Valid()
      reads this
    {
      (currentPage == 0 || PageStart(currentPage) < |keys|) && 0 <= timeLeft <= ExamSeconds
    }

    /** Opening the page for an exam. */
    constructor (slug: string, keys: seq<Key>, store: AnswerStore)
      ensures this.slug == slug && this.keys == keys && this.store == store
      ensures currentPage == 0 && timeLeft == ExamSeconds
      ensures answers == InitialAnswers(store.Lookup(slug), |keys|)
      ensures Valid()
    {
      this.slug, this.keys, this.store := slug, keys, store;
      currentPage, timeLeft := 0, ExamSeconds;
      var stored := store.Lookup(slug);
      answers := if stored.Some? then stored.value else seq(|keys|, _ => List([]));
    }

    function Start(): nat
      reads this
    {
      PageStart(currentPage)
    }

    function End(): nat
      reads this
    {
      PageEnd(currentPage, |keys|)
    }

    /** At most two questions are visible, never past the last one. */
    lemma WindowBounds()
      requires Valid()
      ensures Start() <= End() <= |keys| && End() - Start() <= PerPage
      ensures |keys| > 0 ==> Start() < End()
    {
    }

    /** The prev button is disabled on page 0. */
    function PrevDisabled(): bool
      reads this
    {
      currentPage == 0
    }

    /** The next button reads `Terminar` on the last page. */
    function NextLabel(): string
      reads this
    {
      if End() < |keys| then "Siguiente" else "Terminar"
    }

    /** `saveAnswers`: write the visible questions' checked options into the answers array,
        then save the whole array under the slug. */
    method SaveAnswers(checked: map<int, seq<int>>)
      modifies this`answers, store
      ensures WindowSaved(old(answers), answers, Start(), End(), checked)
      ensures store.saved == old(store.saved)[slug := answers]
    {
      var start, end := Start(), End();
      ghost var before := answers;
      var i := start;
      while i < end
        invariant start <= i && (start < end ==> i <= end)
        invariant WindowSaved(before, answers, start, i, checked)
        invariant start >= end ==> answers == before
        invariant store.saved == old(store.saved)
      {
        var selected := CheckedAt(checked, i);
        answers := SetAt(answers, i, List(selected));
        i := i + 1;
      }
      store.Save(slug, answers);
    }

    /** The prev button: save, then one page back unless on page 0. */
    method Prev(checked: map<int, seq<int>>)
      requires Valid()
      modifies this`answers, this`currentPage, store
      ensures WindowSaved(old(answers), answers, old(Start()), old(End()), checked)
      ensures store.saved == old(store.saved)[slug := answers]
      ensures currentPage == if old(currentPage) > 0 then old(currentPage) - 1 else 0
      ensures Valid()
    {
      SaveAnswers(checked);
      if currentPage > 0 {
        currentPage := currentPage - 1;
      }
    }

    /** The next button of the older public copy: save, then the results when this was the
        last page, otherwise one page forward. */
    method NextPublic(checked: map<int, seq<int>>) returns (toResults: bool)
      requires Valid()
      modifies this`answers, this`currentPage, store
      ensures WindowSaved(old(answers), answers, old(Start()), old(End()), checked)
      ensures store.saved == old(store.saved)[slug := answers]
      ensures toResults <==> old(End()) >= |keys|
      ensures currentPage == if toResults then old(currentPage) else old(currentPage) + 1
      ensures Valid()
    {
      SaveAnswers(checked);
      var end := End();
      if end >= |keys| {
        toResults := true;
      } else {
        currentPage := currentPage + 1;
        toResults := false;
      }
    }

    /** The score loop of the finish: one point per exactly matching array answer. */
    method Score() returns (score: nat)
      ensures score == ScoreOf(keys, answers)
    {
      score := 0;
      ghost var points: seq<bool> := [];
      var idx := 0;
      while idx < |keys|
        invariant 0 <= idx <= |keys|
        invariant |points| == idx
        invariant forall k :: 0 <= k < idx ==> points[k] == ScoresPoint(EntryAt(answers, k), keys[k])
        invariant score == CountPoints(points)
      {
        var userAns := if idx < |answers| then answers[idx] else NotList;
        var correctAns := if keys[idx].Many? then keys[idx].indices else [keys[idx].index];
        var isCorrect := userAns.List? && |userAns.items| == |correctAns|
                         && forall k :: 0 <= k < |userAns.items| ==> userAns.items[k] in correctAns;
        assert (points + [isCorrect])[..idx] == points;
        points := points + [isCorrect];
        if isCorrect {
          score := score + 1;
        }
        idx := idx + 1;
      }
      assert points == Points(keys, answers);
    }

    /** The finish of a guest as written: the saved answers are removed before the results
        page is opened, so the results page finds nothing to grade. */
    method GuestFinishAsWritten()
      modifies store
      ensures store.saved == old(store.saved) - {slug}
    {
      store.Remove(slug);
    }

    /** The finish of a guest as the logged-in branch does it: the saved answers stay for the
        results page, which removes them itself once it has shown them. */
    method GuestFinish()
      ensures store.saved == old(store.saved)
    {
    }

    /** The next button of the current copy, as written. On the last page the answers are
        scored; a logged-in user's result goes to the profile with the saved answers left for
        the results page, while a guest's saved answers are removed before the results page
        opens. */
    method Next(checked: map<int, seq<int>>, loggedIn: bool) returns (outcome: Outcome)
      requires Valid()
      modifies this`answers, this`currentPage, store
      ensures WindowSaved(old(answers), answers, old(Start()), old(End()), checked)
      ensures loggedIn || old(End()) < |keys| ==> store.saved == old(store.saved)[slug := answers]
      ensures !loggedIn && old(End()) >= |keys| ==> store.saved == old(store.saved)[slug := answers] - {slug}
      ensures old(End()) < |keys| ==> outcome == NextPage && currentPage == old(currentPage) + 1
      ensures old(End()) >= |keys| ==>
                (currentPage == old(currentPage)
                 && outcome == (if loggedIn then SavedToProfile(ScoreOf(keys, answers), |keys|)
                                else GuestResults(ScoreOf(keys, answers), |keys|)))
      ensures Valid()
    {
      SaveAnswers(checked);
      var end := End();
      if end >= |keys| {
        var score := Score();
        if loggedIn {
          outcome := SavedToProfile(score, |keys|);
        } else {
          GuestFinishAsWritten();
          outcome := GuestResults(score, |keys|);
        }
      } else {
        currentPage := currentPage + 1;
        outcome := NextPage;
      }
    }

    /** The next button with the guest finish corrected: either way the results page opens
        with the saved answers still in place. */
    method NextIntended(checked: map<int, seq<int>>, loggedIn: bool) returns (outcome: Outcome)
      requires Valid()
      modifies this`answers, this`currentPage, store
      ensures WindowSaved(old(answers), answers, old(Start()), old(End()), checked)
      ensures store.saved == old(store.saved)[slug := answers]
      ensures old(End()) < |keys| ==> outcome == NextPage && currentPage == old(currentPage) + 1
      ensures old(End()) >= |keys| ==>
                (currentPage == old(currentPage)
                 && outcome == (if loggedIn then SavedToProfile(ScoreOf(keys, answers), |keys|)
                                else GuestResults(ScoreOf(keys, answers), |keys|)))
      ensures Valid()
    {
      SaveAnswers(checked);
      var end := End();
      if end >= |keys| {
        var score := Score();
        if loggedIn {
          outcome := SavedToProfile(score, |keys|);
        } else {
          GuestFinish();
          outcome := GuestResults(score, |keys|);
        }
      } else {
        currentPage := currentPage + 1;
        outcome := NextPage;
      }
    }

    /** One second of the countdown: down by one, never below 0. */
    method Tick()
      requires Valid()
      modifies this`timeLeft
      ensures timeLeft == ExamStore.TickTime(old(timeLeft))
      ensures Valid()
    {
      if timeLeft > 0 {
        timeLeft := timeLeft - 1;
      }
    }

    /** The restart button, once confirmed: the saved answers are removed and the page is
        loaded again, so it starts over from empty answers, page 0 and two hours. */
    method Restart(confirmed: bool)
      modifies this`answers, this`currentPage, this`timeLeft, store
      ensures !confirmed ==> answers == old(answers) && currentPage == old(currentPage)
                             && timeLeft == old(timeLeft) && store.saved == old(store.saved)
      ensures confirmed ==> store.saved == old(store.saved) - {slug}
                            && answers == EmptyAnswers(|keys|) && currentPage == 0 && timeLeft == ExamSeconds
      ensures old(Valid()) ==> Valid()
    {
      if confirmed {
        store.Remove(slug);
        // reloading finds no saved array, so the answers start empty
        answers := seq(|keys|, _ => List([]));
        currentPage, timeLeft := 0, ExamSeconds;
      }
    }
  }

  /** Which answers the results page grades after a finish: it reads the array saved under
      the slug. */
  function ResultsPageCount(saved: map<string, seq<Entry>>, slug: string, keys: seq<Key>): nat {
    ExactGrading.CorrectCount(keys, ExactGrading.Loaded(saved, slug))
  }

  /** As written, a guest who answered the one question of an exam correctly scores 1 at the
      finish, but the results page then grades an empty answers array and shows 0. */
  lemma GuestFinishLosesAnswers(saved: map<string, seq<Entry>>, slug: string)
    ensures var answers := [List([0])];
            var keys := [One(0)];
            var kept := saved[slug := answers];
            ScoreOf(keys, answers) == 1 && ResultsPageCount(kept - {slug}, slug, keys) == 0
  {
    var keys := [One(0)];
    var kept := saved[slug := [List([0])]];
    assert ExactGrading.Loaded(kept - {slug}, slug) == [];
    ExactGrading.NothingSavedScoresZero(keys);
    assert [One(0)][..0] == [];
  }

  /** Kept in place, the saved answers give the results page the same count as the finish
      (on exams whose correct answers are not empty arrays). */
  lemma GuestFinishKeepsScore(saved: map<string, seq<Entry>>, slug: string, keys: seq<Key>, answers: seq<Entry>)
    requires forall k :: 0 <= k < |keys| ==> keys[k] != Many([])
    ensures ResultsPageCount(saved[slug := answers], slug, keys) == ScoreOf(keys, answers)
  {
    ScoreMatchesResultsPage(keys, answers);
  }
}
