/** Selections of option indices as the certifyme pages store them: each question's entry in
    the stored answers array is a JSON array of checked option indices (or, after a hole, a
    `null` or tampering, something that is not an array), and a question's
    `respuesta_correcta` is either one index or an array of indices. */
module Selections {
  import Wrappers

  /** `respuesta_correcta`: one option index, or an array of them. */
  datatype Key = One(index: int) | Many(indices: seq<int>)

  /** One slot of the stored answers array. */
  datatype Entry = NotList | List(items: seq<int>)

  /** `Array.isArray(c) ? c : [c]`. */
  function Normalise(k: Key): (c: seq<int>)
    ensures k.One? ==> c == [k.index]
    ensures k.Many? ==> c == k.indices
  {
    match k
    case One(i) => [i]
    case Many(s) => s
  }

  /** `Array.isArray(a) ? a : []`. */
  function Selected(e: Entry): (u: seq<int>)
    ensures e.NotList? ==> u == []
    ensures e.List? ==> u == e.items
  {
    match e
    case NotList => []
    case List(s) => s
  }

  /** `answers[idx]`: reading past the end of the array gives `undefined`, not an array. */
  function EntryAt(answers: seq<Entry>, idx: int): (e: Entry)
    ensures 0 <= idx < |answers| ==> e == answers[idx]
    ensures !(0 <= idx < |answers|) ==> e == NotList
  {
    if 0 <= idx < |answers| then answers[idx] else NotList
  }

  /** `u.length === c.length && u.every(a => c.includes(a))`. */
  predicate ExactMatch(u: seq<int>, c: seq<int>) {
    |u| == |c| && forall k :: 0 <= k < |u| ==> u[k] in c
  }

  /** `u.some(a => c.includes(a))`. */
  predicate SomeCorrect(u: seq<int>, c: seq<int>) {
    exists k :: 0 <= k < |u| && u[k] in c
  }

  predicate Distinct(s: seq<int>) {
    forall i, j :: 0 <= i < j < |s| ==> s[i] != s[j]
  }

  function Elements(s: seq<int>): set<int> {
    set x | x in s
  }

  /** The elements of a non-empty sequence are those of its front and its last element. */
  lemma ElementsSnoc(s: seq<int>)
    requires s != []
    ensures Elements(s) == Elements(s[..|s| - 1]) + {s[|s| - 1]}
  {
    var init, last := s[..|s| - 1], s[|s| - 1];
    forall x | x in s ensures x in init || x == last {
      var k :| 0 <= k < |s| && s[k] == x;
      if k < |s| - 1 { assert init[k] == x; }
    }
  }

  /** Without repetitions, the front has none either and misses the last element. */
  lemma DistinctSnoc(s: seq<int>)
    requires Distinct(s) && s != []
    ensures Distinct(s[..|s| - 1]) && s[|s| - 1] !in Elements(s[..|s| - 1])
  {
    var init := s[..|s| - 1];
    forall k | 0 <= k < |init| ensures init[k] != s[|s| - 1] {
      assert s[k] != s[|s| - 1];
    }
  }

  /** A sequence without repetitions has as many elements as its length. */
  lemma {:induction false} DistinctCard(s: seq<int>)
    requires Distinct(s)
    ensures |Elements(s)| == |s|
  {
    if s != [] {
      DistinctSnoc(s);
      DistinctCard(s[..|s| - 1]);
      ElementsSnoc(s);
    }
  }

  /** A sequence has at most as many elements as its length. */
  lemma {:induction false} CardAtMostLength(s: seq<int>)
    ensures |Elements(s)| <= |s|
  {
    if s != [] {
      CardAtMostLength(s[..|s| - 1]);
      ElementsSnoc(s);
    }
  }

  /** A subset has at most as many elements as the set. */
  lemma SubsetCard(a: set<int>, b: set<int>)
    requires a <= b
    ensures |a| <= |b|
  {
    assert b == a + (b - a);
  }

  /** A subset with as many elements as the whole set is the whole set. */
  lemma SubsetSameCard(a: set<int>, b: set<int>)
    requires a <= b && |a| == |b|
    ensures a == b
  {
    assert |b - a| == |b| - |a|;
  }

  /** For selections without repetitions, against a key without repetitions, the exact match
      is set equality: every correct option is selected and nothing else is. */
  lemma ExactMatchIsSetEquality(u: seq<int>, c: seq<int>)
    requires Distinct(u) && Distinct(c)
    ensures ExactMatch(u, c) <==> Elements(u) == Elements(c)
  {
    DistinctCard(u);
    DistinctCard(c);
    if ExactMatch(u, c) {
      assert Elements(u) <= Elements(c) by {
        forall x | x in Elements(u) ensures x in Elements(c) {
          var k :| 0 <= k < |u| && u[k] == x;
        }
      }
      SubsetSameCard(Elements(u), Elements(c));
    }
    if Elements(u) == Elements(c) {
      forall k | 0 <= k < |u| ensures u[k] in c {
        assert u[k] in Elements(u);
      }
    }
  }

  /** Without the distinctness of the selection the exact match is weaker than set equality:
      selecting option 0 twice matches the key `[0, 1]` although option 1 is not selected. */
  lemma RepeatedSelectionMatches()
    ensures ExactMatch([0, 0], [0, 1])
    ensures 1 !in [0, 0]
  {
  }

  /** An empty selection is never partly correct, and it is an exact match only for an empty key. */
  lemma EmptySelection(c: seq<int>)
    ensures !SomeCorrect([], c)
    ensures ExactMatch([], c) <==> c == []
  {
  }

  /** An exact match against a non-empty key selects at least one correct option. */
  lemma ExactMatchSomeCorrect(u: seq<int>, c: seq<int>)
    requires ExactMatch(u, c) && c != []
    ensures SomeCorrect(u, c)
  {
    assert u[0] in c;
  }

  /** `answers[i] = selected`: writing past the end of a JavaScript array first fills the gap
      with holes, which read back as entries that are not arrays. */
  function SetAt(answers: seq<Entry>, i: nat, e: Entry): (r: seq<Entry>)
    ensures |r| == if i < |answers| then |answers| else i + 1
    ensures r[i] == e
    ensures forall k :: 0 <= k < |r| && k != i ==> r[k] == EntryAt(answers, k)
  {
    if i < |answers| then answers[i := e]
    else answers + seq(i - |answers|, _ => NotList) + [e]
  }

  /** The checked boxes of the page: the option indices checked in the inputs named after each
      question, in document order. A question without inputs on the page checks nothing. */
  function CheckedAt(checked: map<int, seq<int>>, i: int): seq<int> {
    if i in checked then checked[i] else []
  }

  /** The browser's `localStorage` entries `answers_<slug>`: the answers array saved for each
      exam slug (as `JSON.stringify` wrote it). */
  class AnswerStore {
    var saved: map<string, seq<Entry>>

    constructor (saved: map<string, seq<Entry>>)
      ensures this.saved == saved
    {
      this.saved := saved;
    }

    /** `getItem`: the saved array, if there is one. */
    function Lookup(slug: string): (r: Wrappers.Option<seq<Entry>>)
      reads this
      ensures r.Some? <==> slug in saved
      ensures r.Some? ==> r.value == saved[slug]
    {
      if slug in saved then Wrappers.Some(saved[slug]) else Wrappers.None
    }

    /** `setItem`: the array saved for one slug; other slugs keep theirs. */
    method Save(slug: string, answers: seq<Entry>)
      modifies this
      ensures saved == old(saved)[slug := answers]
      ensures Lookup(slug) == Wrappers.Some(answers)
      ensures forall other :: other != slug ==> Lookup(other) == old(Lookup(other))
    {
      saved := saved[slug := answers];
    }

    /** `removeItem`: the slug has no saved array any more; other slugs keep theirs. */
    method Remove(slug: string)
      modifies this
      ensures saved == old(saved) - {slug}
      ensures Lookup(slug) == Wrappers.None
      ensures forall other :: other != slug ==> Lookup(other) == old(Lookup(other))
    {
      saved := saved - {slug};
    }
  }
}
