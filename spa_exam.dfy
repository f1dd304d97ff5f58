/** The single-page certifyme application: the hash router and the exam detail view, which
    shows two questions per page, writes the answers of the page into the saved answers
    array on every next, counts elapsed seconds, and on the last page stops the counter and
    moves to the exam's results route. */
module SpaExam {
  import opened Wrappers
  import opened JsText
  import opened Selections
  import Pager
  import Timer

  /** What the router renders. `NotRendered` is the fallback as written: it calls
      `renderHome`, whose only definition is commented out, so the call throws a
      `ReferenceError` and the page stays as it was. */
  datatype View = ExamList | ExamDetail(slug: string) | Results(slug: string) | Home | NotRendered

  /** `window.location.hash.slice(1) || '/'`: the hash without its `#`, or `/` when empty. */
  function HashPath(hash: string): (path: string)
    ensures |hash| <= 1 ==> path == "/"
    ensures |hash| > 1 ==> path == hash[1..]
  {
    var p := if |hash| > 0 then hash[1..] else "";
    if p == "" then "/" else p
  }

  /** The hash an exam card sets: `/exam/<slug>`. */
  function DetailHash(slug: string): string { "#/exam/" + slug }

  /** The hash the finish sets: `/exam/<slug>/results`. */
  function ResultsHash(slug: string): string { "#/exam/" + slug + "/results" }

  /** `router` as written: `/exams` is the list, anything starting with `/exam/` is the detail
      view of the third `/`-separated field, and anything else reaches the undefined
      `renderHome` and renders nothing. */
  function RouteAsWritten(hash: string): (view: View)
    ensures view.ExamDetail? ==> '/' !in view.slug
    ensures view == ExamList <==> HashPath(hash) == "/exams"
    ensures !view.Results? && view != Home
  {
    var path := HashPath(hash);
    if path == "/exams" then ExamList
    else if "/exam/" <= path then
      assert path == "/exam/" + path[6..];
      ExamPathFields(path[6..]);
      ExamDetail(Split(path, '/')[2])
    else NotRendered
  }

  /** A path under `/exam/` splits into the empty field, `exam`, and the fields of the rest. */
  lemma ExamPathFields(rest: string)
    ensures Split("/exam/" + rest, '/') == ["", "exam"] + Split(rest, '/')
  {
    assert "/exam/" + rest == "" + ['/'] + ("exam" + ['/'] + rest);
    SplitAfterField("", "exam" + ['/'] + rest, '/');
    SplitAfterField("exam", rest, '/');
  }

  /** A hash under `#/exam/` routes to the detail view of the first field after it. */
  lemma ExamHashRoute(rest: string)
    ensures RouteAsWritten("#/exam/" + rest) == ExamDetail(Split(rest, '/')[0])
  {
    var path := "/exam/" + rest;
    assert ("#/exam/" + rest)[1..] == path;
    assert HashPath("#/exam/" + rest) == path;
    assert path[5] == '/' != "/exams"[5];
    assert path[..6] == "/exam/" && path[6..] == rest;
    ExamPathFields(rest);
    assert Split(path, '/')[2] == Split(rest, '/')[0];
  }

  /** The detail view's slug is the text after `/exam/` up to the next `/`: it never contains
      a `/`, and it is empty for the path `/exam/` itself. */
  lemma DetailSlug(rest: string)
    ensures RouteAsWritten("#/exam/" + rest) == ExamDetail(Split(rest, '/')[0])
    ensures '/' !in Split(rest, '/')[0]
    ensures RouteAsWritten("#/exam/") == ExamDetail("")
  {
    ExamHashRoute(rest);
    ExamHashRoute("");
    assert "#/exam/" + "" == "#/exam/";
    SplitNoSeparator("", '/');
  }

  /** An exam card's hash opens that exam, for any slug without a `/`. */
  lemma DetailRoundTrip(slug: string)
    requires '/' !in slug
    ensures RouteAsWritten(DetailHash(slug)) == ExamDetail(slug)
  {
    DetailSlug(slug);
    SplitNoSeparator(slug, '/');
  }

  /** `#/exams` is the list; as written, the empty hash, `#` and `#/` (the landing page)
      render nothing, because the fallback's `renderHome` does not exist. */
  lemma FixedRoutes()
    ensures RouteAsWritten("") == NotRendered && RouteAsWritten("#") == NotRendered
    ensures RouteAsWritten("#/") == NotRendered
    ensures RouteAsWritten("#/exams") == ExamList
  {
    assert !("/exam/" <= "/");
    assert "#/"[1..] == "/";
  }

  /** Every hash that is neither the list nor under `/exam/` reaches the missing
      `renderHome`. */
  lemma FallbackNotRendered(hash: string)
    requires HashPath(hash) != "/exams" && !("/exam/" <= HashPath(hash))
    ensures RouteAsWritten(hash) == NotRendered
  {
  }

  /** As written, the hash set on finishing an exam routes back to the same exam's detail
      view, which starts the exam over, instead of to a results view. */
  lemma FinishReopensExam(slug: string)
    requires '/' !in slug
    ensures RouteAsWritten(ResultsHash(slug)) == ExamDetail(slug)
    ensures RouteAsWritten(ResultsHash(slug)) == RouteAsWritten(DetailHash(slug))
  {
    assert ResultsHash(slug) == "#/exam/" + (slug + "/results");
    ExamHashRoute(slug + "/results");
    assert slug + "/results" == slug + ['/'] + "results";
    SplitAfterField(slug, "results", '/');
    DetailRoundTrip(slug);
  }

  /** The finish's hash is the path `/exam/<slug>/results`, of four fields. */
  lemma ResultsHashFields(slug: string)
    requires '/' !in slug
    ensures "/exam/" <= HashPath(ResultsHash(slug))
    ensures Split(HashPath(ResultsHash(slug)), '/') == ["", "exam", slug, "results"]
  {
    var rest := slug + ['/'] + "results";
    var path := HashPath(ResultsHash(slug));
    assert path == "/exam/" + rest by {
      assert ResultsHash(slug) == "#" + ("/exam/" + rest);
    }
    assert path[..6] == "/exam/";
    calc {
      Split(path, '/');
    == { ExamPathFields(rest); }
      ["", "exam"] + Split(rest, '/');
    == { SplitAfterField(slug, "results", '/'); SplitNoSeparator("results", '/'); }
      ["", "exam"] + ([slug] + ["results"]);
    }
  }

  /** An exam card's hash is the path `/exam/<slug>`, of three fields. */
  lemma DetailHashFields(slug: string)
    requires '/' !in slug
    ensures |Split(HashPath(DetailHash(slug)), '/')| == 3
  {
    assert HashPath(DetailHash(slug)) == "/exam/" + slug;
    ExamPathFields(slug);
    SplitNoSeparator(slug, '/');
  }

  /** The router the page evidently intends: a path of exactly four fields
      `/exam/<slug>/results` is the results view, the fallback renders the home page, and
      every other path routes as before. */
  function Route(hash: string): (view: View)
    ensures view != NotRendered
    ensures view.ExamDetail? || view.Results? ==> '/' !in view.slug
  {
    var path := HashPath(hash);
    var fields := Split(path, '/');
    if "/exam/" <= path && |fields| == 4 && fields[3] == "results" then Results(fields[2])
    else if RouteAsWritten(hash) == NotRendered then Home
    else RouteAsWritten(hash)
  }

  /** The finish now reaches the results of the exam it finished, the exam cards still open
      their exam, the landing page renders, and no other hash changes its route. */
  lemma RouteReachesResults(slug: string, hash: string)
    requires '/' !in slug
    ensures Route(ResultsHash(slug)) == Results(slug)
    ensures Route(DetailHash(slug)) == ExamDetail(slug)
    ensures Route("") == Home && Route("#/") == Home
    ensures Route(hash) != NotRendered
    ensures Route(hash) != RouteAsWritten(hash) ==>
              Route(hash).Results? || (Route(hash) == Home && RouteAsWritten(hash) == NotRendered)
  {
    ResultsHashFields(slug);
    DetailHashFields(slug);
    DetailRoundTrip(slug);
    FixedRoutes();
    assert Split("/", '/') == ["", ""] by {
      assert "/" == "" + ['/'] + "";
      SplitAfterField("", "", '/');
      SplitNoSeparator("", '/');
    }
  }

  /** The exam detail view of one exam. */
  class ExamDetailView {
    const slug: string
    const totalQuestions: nat
    const store: AnswerStore
    var currentPage: nat
    var answers: seq<Entry>
    var seconds: nat
    var counting: bool

    /** `JSON.parse(localStorage.getItem(...)) || []`, page 0, the counter at 0 and running. */
    constructor (slug: string, totalQuestions: nat, store: AnswerStore)
      ensures this.slug == slug && this.totalQuestions == totalQuestions && this.store == store
      ensures answers == (if store.Lookup(slug).Some? then store.Lookup(slug).value else [])
      ensures currentPage == 0 && seconds == 0 && counting
    {
      this.slug, this.totalQuestions, this.store := slug, totalQuestions, store;
      var stored := store.Lookup(slug);
      answers := if stored.Some? then stored.value else [];
      currentPage, seconds, counting := 0, 0, true;
    }

    /** `start = currentPage * 2`. */
    function Start(): nat
      reads this
    {
      Pager.PageStart(currentPage)
    }

    /** `end = start + 2`, not clamped to the number of questions. */
    function End(): nat
      reads this
    {
      Start() + Pager.PerPage
    }

    /** The next button reads `Terminar` on the last page. */
    function NextLabel(): string
      reads this
    {
      if End() < totalQuestions then "Siguiente" else "Terminar"
    }

    /** One second of the interval while it runs; the display shows `MM:SS` of the count. */
    method Tick() returns (display: string)
      modifies this`seconds
      ensures seconds == if counting then old(seconds) + 1 else old(seconds)
      ensures display == Timer.FormatTime(seconds)
    {
      if counting {
        seconds := seconds + 1;
      }
      display := Timer.FormatTime(seconds);
    }

    /** The next button: both slots of the page are written, even past the last question,
        and the array is saved; on the last page the counter stops and the results hash is
        set, otherwise the page advances. */
    method Next(checked: map<int, seq<int>>) returns (toResults: bool)
      modifies this`answers, this`currentPage, this`counting, store
      ensures Pager.WindowSaved(old(answers), answers, old(Start()), old(End()), checked)
      ensures |answers| >= old(End())
      ensures store.saved == old(store.saved)[slug := answers]
      ensures toResults <==> old(End()) >= totalQuestions
      ensures toResults ==> !counting && currentPage == old(currentPage)
      ensures !toResults ==> counting == old(counting) && currentPage == old(currentPage) + 1
    {
      var start, end := Start(), End();
      ghost var before := answers;
      var i := start;
      while i < end
        invariant start <= i <= end
        invariant Pager.WindowSaved(before, answers, start, i, checked)
        invariant store.saved == old(store.saved)
        invariant currentPage == old(currentPage) && counting == old(counting)
      {
        answers := SetAt(answers, i, List(CheckedAt(checked, i)));
        i := i + 1;
      }
      store.Save(slug, answers);
      if end >= totalQuestions {
        counting := false;
        toResults := true;
      } else {
        currentPage := currentPage + 1;
        toResults := false;
      }
    }
  }

  /** On an exam with an odd number of questions the last page also writes the slot after the
      last question: three questions leave an answers array of four entries. */
  lemma LastPageWritesPastEnd(before: seq<Entry>, after: seq<Entry>, checked: map<int, seq<int>>)
    requires |before| <= 3
    requires Pager.WindowSaved(before, after, 2, 4, checked)
    ensures |after| == 4 && after[3] == List(CheckedAt(checked, 3))
  {
  }
}
