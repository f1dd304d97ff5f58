/** The QA practice lab of certifyme (`qa-lab/lab.js`): a login form, a registration form, a
    table of test suites that can be searched, filtered by status and sorted by a column, and
    a small to-do list. The values the user types, picks or clicks are inputs; the script's
    mutable state (the current sort and the to-do items) lives in two classes. */
module QaLab {
  import opened JsText

  // ---------------------------------------------------------------- login form

  const PracticeEmail: string := "qa@practice.dev"
  const PracticePassword: string := "automation"
  const LoginSuccess: string := "Login success!"
  const LoginFailure: string := "Invalid credentials, try qa@practice.dev / automation"

  /** `toggleLoginButton`: the submit button is enabled when neither field is blank once
      trimmed. */
  predicate LoginEnabled(email: string, password: string) {
    |Trim(email)| > 0 && |Trim(password)| > 0
  }

  /** The message shown after the login form is submitted; both fields are trimmed first. */
  function LoginMessage(email: string, password: string): (m: string)
    ensures m == LoginSuccess <==> Trim(email) == PracticeEmail && Trim(password) == PracticePassword
    ensures m == LoginSuccess || m == LoginFailure
  {
    if Trim(email) == PracticeEmail && Trim(password) == PracticePassword then LoginSuccess
    else LoginFailure
  }

  /** White space typed around the practice credentials does not matter. */
  lemma LoginIgnoresPadding(pre1: string, post1: string, pre2: string, post2: string)
    requires AllSpace(pre1) && AllSpace(post1) && AllSpace(pre2) && AllSpace(post2)
    ensures LoginMessage(pre1 + PracticeEmail + post1, pre2 + PracticePassword + post2) == LoginSuccess
  {
    TrimPadded(pre1, PracticeEmail, post1);
    TrimPadded(pre2, PracticePassword, post2);
  }

  lemma LoginSuccessNeedsEnabledButton(email: string, password: string)
    requires LoginMessage(email, password) == LoginSuccess
    ensures LoginEnabled(email, password)
  {
  }

  // ---------------------------------------------------------------- registration form

  /** The four checks of the registration form. */
  datatype RegisterError = ShortName | NoAt | NoRole | TermsUnchecked

  function ErrorText(e: RegisterError): string {
    match e
    case ShortName => "Name must have at least 3 characters."
    case NoAt => "Use a valid email."
    case NoRole => "Select a role."
    case TermsUnchecked => "Accept the terms to continue."
  }

  /** `errors.push(e)` when `failed`. */
  function PushIf(errs: seq<RegisterError>, failed: bool, e: RegisterError): (r: seq<RegisterError>)
    ensures forall x :: x in r <==> x in errs || (failed && x == e)
    ensures r == [] <==> errs == [] && !failed
  {
    if failed then errs + [e] else errs
  }

  /** The errors of the registration form, in the order they are pushed. */
  function RegisterErrors(name: string, email: string, role: string, terms: bool): (errs: seq<RegisterError>)
    ensures ShortName in errs <==> Utf16Length(Trim(name)) < 3
    ensures NoAt in errs <==> '@' !in email
    ensures NoRole in errs <==> role == ""
    ensures TermsUnchecked in errs <==> !terms
    ensures errs == [] <==> Utf16Length(Trim(name)) >= 3 && '@' in email && role != "" && terms
  {
    var e1 := PushIf([], Utf16Length(Trim(name)) < 3, ShortName);
    var e2 := PushIf(e1, '@' !in email, NoAt);
    var e3 := PushIf(e2, role == "", NoRole);
    PushIf(e3, !terms, TermsUnchecked)
  }

  /** The error messages joined by a space. */
  function ErrorsText(errs: seq<RegisterError>): string {
    if errs == [] then "" else Join(seq(|errs|, k requires 0 <= k < |errs| => ErrorText(errs[k])), ' ')
  }

  /** What the registration form shows after a submit. */
  datatype RegisterOutcome = Rejected(message: string) | Saved

  const SavedText: string := "Registration saved! (no real backend)"

  /** The registration form's submit: rejected with the joined errors when there are any. */
  function Register(name: string, email: string, role: string, terms: bool): (r: RegisterOutcome)
    ensures r.Saved? <==> Utf16Length(Trim(name)) >= 3 && '@' in email && role != "" && terms
    ensures r.Rejected? ==> r.message == ErrorsText(RegisterErrors(name, email, role, terms))
  {
    var errs := RegisterErrors(name, email, role, terms);
    if errs != [] then Rejected(ErrorsText(errs)) else Saved
  }

  /** A form with every field wrong shows all four errors, in form order. */
  lemma EmptyRegistration()
    ensures RegisterErrors("", "", "", false) == [ShortName, NoAt, NoRole, TermsUnchecked]
  {
    assert Utf16Length(Trim("")) == 0;
    assert PushIf([], true, ShortName) == [ShortName];
    assert PushIf([ShortName], true, NoAt) == [ShortName, NoAt];
    assert PushIf([ShortName, NoAt], true, NoRole) == [ShortName, NoAt, NoRole];
  }

  // ---------------------------------------------------------------- results table

  datatype Row = Row(suite: string, status: string, duration: int)

  const QaRows: seq<Row> := [
    Row("Checkout", "passed", 892),
    Row("Profile update", "failed", 1210),
    Row("Billing", "blocked", 2000),
    Row("Notifications", "passed", 640),
    Row("Settings", "failed", 1300)
  ]

  /** The filter's test: the lower-cased suite contains the lower-cased search term, and the
      status filter is `all` or the row's status. */
  predicate Keep(row: Row, search: string, statusFilter: string) {
    Includes(Lower(row.suite), Lower(search)) && (statusFilter == "all" || row.status == statusFilter)
  }

  /** `qaRows.filter(...)`: each row as often as it occurs, if it passes the test. */
  function Filtered(rows: seq<Row>, search: string, statusFilter: string): (out: seq<Row>)
    ensures forall r :: multiset(out)[r] == if Keep(r, search, statusFilter) then multiset(rows)[r] else 0
    ensures forall r :: r in out <==> r in rows && Keep(r, search, statusFilter)
    ensures |out| <= |rows|
  {
    if rows == [] then []
    else
      var init, last := rows[..|rows| - 1], rows[|rows| - 1];
      assert rows == init + [last];
      Filtered(init, search, statusFilter) + (if Keep(last, search, statusFilter) then [last] else [])
  }

  /** JavaScript's `<` on strings: the first differing character decides, and a proper prefix
      comes first. */
  predicate LexLess(a: string, b: string)
    decreases |a|
  {
    if a == [] then b != []
    else if b == [] then false
    else if a[0] != b[0] then a[0] < b[0]
    else LexLess(a[1..], b[1..])
  }

  lemma {:induction false} LexIrreflexive(a: string)
    ensures !LexLess(a, a)
    decreases |a|
  {
    if a != [] {
      LexIrreflexive(a[1..]);
    }
  }

  lemma {:induction false} LexTransitive(a: string, b: string, c: string)
    requires LexLess(a, b) && LexLess(b, c)
    ensures LexLess(a, c)
    decreases |a|
  {
    if a != [] && b != [] && c != [] && a[0] == b[0] && b[0] == c[0] {
      LexTransitive(a[1..], b[1..], c[1..]);
    }
  }

  lemma {:induction false} LexTotal(a: string, b: string)
    requires a != b
    ensures LexLess(a, b) || LexLess(b, a)
    decreases |a|
  {
    if a != [] && b != [] && a[0] == b[0] {
      assert a == [a[0]] + a[1..] && b == [b[0]] + b[1..];
      LexTotal(a[1..], b[1..]);
    }
  }

  /** `a[key] < b[key]` for the three columns; any other key reads `undefined` on both sides,
      which compares as neither smaller nor larger. */
  predicate RowLess(a: Row, b: Row, key: string) {
    if key == "suite" then LexLess(a.suite, b.suite)
    else if key == "status" then LexLess(a.status, b.status)
    else if key == "duration" then a.duration < b.duration
    else false
  }

  /** Whether the comparator puts `a` strictly before `b`. */
  predicate Before(a: Row, b: Row, key: string, ascending: bool) {
    if ascending then RowLess(a, b, key) else RowLess(b, a, key)
  }

  /** No later row goes strictly before an earlier one. */
  predicate Sorted(rows: seq<Row>, key: string, ascending: bool) {
    forall p, q :: 0 <= p < q < |rows| ==> !Before(rows[q], rows[p], key, ascending)
  }

  lemma StringAsymmetric(a: string, b: string)
    requires LexLess(a, b)
    ensures !LexLess(b, a)
  {
    if LexLess(b, a) {
      LexTransitive(a, b, a);
      LexIrreflexive(a);
    }
  }

  lemma StringNegTransitive(x: string, y: string, z: string)
    requires !LexLess(z, y) && !LexLess(y, x)
    ensures !LexLess(z, x)
  {
    if LexLess(z, x) {
      if y == z {
      } else if y == x {
      } else {
        LexTotal(z, y);
        LexTotal(y, x);
        LexTransitive(y, z, x);
        LexTransitive(y, x, y);
        LexIrreflexive(y);
      }
    }
  }

  /** The comparator is a strict order: never both ways round. */
  lemma BeforeAsymmetric(a: Row, b: Row, key: string, ascending: bool)
    requires Before(a, b, key, ascending)
    ensures !Before(b, a, key, ascending)
  {
    if key == "suite" {
      if ascending { StringAsymmetric(a.suite, b.suite); } else { StringAsymmetric(b.suite, a.suite); }
    } else if key == "status" {
      if ascending { StringAsymmetric(a.status, b.status); } else { StringAsymmetric(b.status, a.status); }
    }
  }

  /** Rows that do not go before one another form a chain: with ties allowed, the order is
      transitive. */
  lemma BeforeNegTransitive(x: Row, y: Row, z: Row, key: string, ascending: bool)
    requires !Before(z, y, key, ascending) && !Before(y, x, key, ascending)
    ensures !Before(z, x, key, ascending)
  {
    if key == "suite" {
      if ascending { StringNegTransitive(x.suite, y.suite, z.suite); }
      else { StringNegTransitive(z.suite, y.suite, x.suite); }
    } else if key == "status" {
      if ascending { StringNegTransitive(x.status, y.status, z.status); }
      else { StringNegTransitive(z.status, y.status, x.status); }
    }
  }

  /** `filtered.sort(comparator)` in place: an insertion sort by adjacent swaps. */
  method SortRows(a: array<Row>, key: string, ascending: bool)
    modifies a
    ensures Sorted(a[..], key, ascending)
    ensures multiset(a[..]) == multiset(old(a[..]))
  {
    if a.Length == 0 {
      return;
    }
    var i := 1;
    while i < a.Length
      invariant 1 <= i <= a.Length
      invariant forall p, q :: 0 <= p < q < i ==> !Before(a[q], a[p], key, ascending)
      invariant multiset(a[..]) == multiset(old(a[..]))
    {
      var j := i;
      while j > 0 && Before(a[j], a[j - 1], key, ascending)
        invariant 0 <= j <= i
        invariant forall p, q :: 0 <= p < q <= i && p != j && q != j ==> !Before(a[q], a[p], key, ascending)
        invariant forall q :: j < q <= i ==> !Before(a[q], a[j], key, ascending)
        invariant multiset(a[..]) == multiset(old(a[..]))
      {
        BeforeAsymmetric(a[j], a[j - 1], key, ascending);
        a[j - 1], a[j] := a[j], a[j - 1];
        j := j - 1;
      }
      forall p | 0 <= p < j
        ensures !Before(a[j], a[p], key, ascending)
      {
        if p < j - 1 {
          BeforeNegTransitive(a[p], a[j - 1], a[j], key, ascending);
        }
      }
      i := i + 1;
    }
  }

  /** The sort state of the table and the header clicks that change it. */
  class Table {
    /** `qaRows`. */
    const rows: seq<Row>
    var sortKey: string
    var ascending: bool

    /** The table starts sorted by suite, ascending. */
    constructor ()
      ensures rows == QaRows && sortKey == "suite" && ascending
    {
      rows := QaRows;
      sortKey := "suite";
      ascending := true;
    }

    /** `renderRows`: the rows that pass the search and the status filter, each as often as it
        occurs in the data, ordered by the current sort, and their number. */
    method RenderRows(search: string, statusFilter: string) returns (shown: seq<Row>, count: nat)
      ensures multiset(shown) == multiset(Filtered(rows, search, statusFilter))
      ensures Sorted(shown, sortKey, ascending)
      ensures count == |shown|
    {
      var filtered := Filtered(rows, search, statusFilter);
      var a := new Row[|filtered|](k requires 0 <= k < |filtered| => filtered[k]);
      assert a[..] == filtered;
      SortRows(a, sortKey, ascending);
      shown := a[..];
      count := a.Length;
    }

    /** A click on a header: the same column flips the direction, another column becomes the
        sort key in ascending order; then the table is drawn again. */
    method ClickHeader(key: string, search: string, statusFilter: string) returns (shown: seq<Row>, count: nat)
      modifies this
      ensures old(sortKey) == key ==> sortKey == key && ascending == !old(ascending)
      ensures old(sortKey) != key ==> sortKey == key && ascending
      ensures multiset(shown) == multiset(Filtered(rows, search, statusFilter))
      ensures Sorted(shown, sortKey, ascending) && count == |shown|
    {
      if sortKey == key {
        ascending := !ascending;
      } else {
        sortKey := key;
        ascending := true;
      }
      shown, count := RenderRows(search, statusFilter);
    }
  }

  /** The table shows exactly the rows that pass the search and the status filter. */
  lemma ShownRowsAreTheMatches(rows: seq<Row>, shown: seq<Row>, search: string, statusFilter: string)
    requires multiset(shown) == multiset(Filtered(rows, search, statusFilter))
    ensures forall r :: r in shown <==> r in rows && Keep(r, search, statusFilter)
  {
    forall r
      ensures r in shown <==> r in rows && Keep(r, search, statusFilter)
    {
      assert r in shown <==> r in multiset(shown);
      assert r in rows <==> r in multiset(rows);
    }
  }

  function Reversed(rows: seq<Row>): (r: seq<Row>)
    ensures |r| == |rows| && forall k :: 0 <= k < |rows| ==> r[k] == rows[|rows| - 1 - k]
  {
    seq(|rows|, k requires 0 <= k < |rows| => rows[|rows| - 1 - k])
  }

  /** Flipping the direction of a column reverses the order of rows that differ in it: the
      ascending order read backwards is a descending order. */
  lemma FlipReverses(rows: seq<Row>, key: string)
    requires Sorted(rows, key, true)
    ensures Sorted(Reversed(rows), key, false)
  {
    var r := Reversed(rows);
    forall p, q | 0 <= p < q < |r|
      ensures !Before(r[q], r[p], key, false)
    {
      assert r[q] == rows[|rows| - 1 - q] && r[p] == rows[|rows| - 1 - p];
    }
  }

  // ---------------------------------------------------------------- to-do list

  datatype Todo = Todo(id: string, text: string, done: bool)

  /** The items not yet done, in order. */
  function NotDone(todos: seq<Todo>): (out: seq<Todo>)
    ensures forall t :: t in out <==> t in todos && !t.done
    ensures |out| <= |todos|
  {
    if todos == [] then []
    else
      var init, last := todos[..|todos| - 1], todos[|todos| - 1];
      assert todos == init + [last];
      NotDone(init) + (if last.done then [] else [last])
  }

  lemma {:induction false} NotDoneAppend(todos: seq<Todo>, more: seq<Todo>)
    ensures NotDone(todos + more) == NotDone(todos) + NotDone(more)
    decreases |more|
  {
    if more == [] {
      assert todos + more == todos;
    } else {
      var init := more[..|more| - 1];
      assert (todos + more)[..|todos + more| - 1] == todos + init;
      NotDoneAppend(todos, init);
    }
  }

  /** `todos.map(...)` after a checkbox click: the items with that id take the checkbox's state. */
  function Toggled(todos: seq<Todo>, id: string, checked: bool): (out: seq<Todo>)
    ensures |out| == |todos|
    ensures forall k :: 0 <= k < |todos| ==>
              out[k].id == todos[k].id && out[k].text == todos[k].text
              && (todos[k].id != id ==> out[k] == todos[k])
              && (todos[k].id == id ==> out[k].done == checked)
  {
    seq(|todos|, k requires 0 <= k < |todos| => if todos[k].id == id then todos[k].(done := checked) else todos[k])
  }

  /** `todos.filter(...)` after a delete click: each todo with another id as often as it was
      there, and none with the id. */
  function Without(todos: seq<Todo>, id: string): (out: seq<Todo>)
    ensures forall t :: t in out <==> t in todos && t.id != id
  {
    if todos == [] then []
    else
      var init, last := todos[..|todos| - 1], todos[|todos| - 1];
      assert todos == init + [last];
      Without(init, id) + (if last.id != id then [last] else [])
  }

  /** The filter keeps the order of the remaining todos: deleting from a joined list is
      deleting from each part, joined in the same order. */
  lemma {:induction false} WithoutAppend(todos: seq<Todo>, more: seq<Todo>, id: string)
    ensures Without(todos + more, id) == Without(todos, id) + Without(more, id)
    decreases |more|
  {
    if more == [] {
      assert todos + more == todos;
    } else {
      var init, last := more[..|more| - 1], more[|more| - 1];
      assert more == init + [last];
      var p := todos + init;
      assert todos + more == p + [last];
      WithoutSnoc(p, last, id);
      WithoutSnoc(init, last, id);
      WithoutAppend(todos, init, id);
    }
  }

  /** Each todo with another id stays as often as it was there; none with the id stays. */
  lemma {:induction false} WithoutCounts(todos: seq<Todo>, id: string, t: Todo)
    ensures multiset(Without(todos, id))[t] == if t.id != id then multiset(todos)[t] else 0
    decreases |todos|
  {
    if todos != [] {
      var init, last := todos[..|todos| - 1], todos[|todos| - 1];
      assert todos == init + [last];
      WithoutSnoc(init, last, id);
      WithoutCounts(init, id, t);
    }
  }

  lemma WithoutSnoc(todos: seq<Todo>, last: Todo, id: string)
    ensures Without(todos + [last], id) == Without(todos, id) + (if last.id != id then [last] else [])
  {
    var all := todos + [last];
    assert all[..|all| - 1] == todos && all[|all| - 1] == last;
  }

  predicate UniqueIds(todos: seq<Todo>) {
    forall p, q :: 0 <= p < q < |todos| ==> todos[p].id != todos[q].id
  }

  /** With unique ids, checking an item that is not done lowers the pending count by one. */
  lemma {:induction false} CheckingLowersPending(todos: seq<Todo>, k: nat)
    requires UniqueIds(todos) && k < |todos| && !todos[k].done
    ensures |NotDone(Toggled(todos, todos[k].id, true))| == |NotDone(todos)| - 1
  {
    var id := todos[k].id;
    var out := Toggled(todos, id, true);
    assert todos == todos[..k] + [todos[k]] + todos[k + 1..];
    assert out == todos[..k] + [out[k]] + todos[k + 1..];
    NotDoneAppend(todos[..k] + [todos[k]], todos[k + 1..]);
    NotDoneAppend(todos[..k], [todos[k]]);
    NotDoneAppend(todos[..k] + [out[k]], todos[k + 1..]);
    NotDoneAppend(todos[..k], [out[k]]);
    assert NotDone([todos[k]]) == [todos[k]] by {
      assert [todos[k]][..0] == [];
    }
    assert NotDone([out[k]]) == [] by {
      assert [out[k]][..0] == [];
    }
  }

  /** The list of items and the clicks that change it. */
  class TodoList {
    var todos: seq<Todo>

    /** The script adds two items when it loads; each id is a fresh UUID. */
    constructor (id1: string, id2: string)
      ensures todos == [Todo(id1, "Verify login validation", false), Todo(id2, "Check modal visibility", false)]
    {
      todos := [];
      todos := todos + [Todo(id1, "Verify login validation", false)];
      todos := todos + [Todo(id2, "Check modal visibility", false)];
    }

    /** The pending count shown under the list: the items not done. */
    function PendingCount(): (n: nat)
      reads this
      ensures n <= |todos|
    {
      |NotDone(todos)|
    }

    /** `addTodo`: empty text is ignored; otherwise one new item, not done, goes at the end. */
    method AddTodo(text: string, id: string)
      modifies this
      ensures text == "" ==> todos == old(todos)
      ensures text != "" ==> todos == old(todos) + [Todo(id, text, false)]
      ensures PendingCount() == old(PendingCount()) + (if text == "" then 0 else 1)
    {
      if text == "" {
        return;
      }
      NotDoneAppend(todos, [Todo(id, text, false)]);
      assert NotDone([Todo(id, text, false)]) == [Todo(id, text, false)] by {
        assert [Todo(id, text, false)][..0] == [];
      }
      todos := todos + [Todo(id, text, false)];
    }

    /** The form's submit: the input is trimmed, so a blank input adds nothing. */
    method Submit(input: string, id: string)
      modifies this
      ensures AllSpace(input) ==> todos == old(todos)
      ensures !AllSpace(input) ==> todos == old(todos) + [Todo(id, Trim(input), false)]
    {
      TrimEmptyIffAllSpace(input);
      AddTodo(Trim(input), id);
    }

    /** A click on an item's checkbox. */
    method Toggle(id: string, checked: bool)
      modifies this
      ensures todos == Toggled(old(todos), id, checked)
    {
      todos := Toggled(todos, id, checked);
    }

    /** A click on an item's delete button: every item with that id goes, every other stays. */
    method Delete(id: string)
      modifies this
      ensures todos == Without(old(todos), id)
      ensures forall t :: t in todos <==> t in old(todos) && t.id != id
    {
      todos := Without(todos, id);
    }
  }
}
