/** The first exam page of the project: two questions per page, a radio group for a
    single-answer question and checkboxes for a multiple-answer one, the answers kept in an
    object keyed by question number, and a finish button that stores the answers with the
    original exam for the results page. */
module LegacyExam {
  import opened Selections
  import opened Wrappers

  /** One question of the exam file: its number, its correct answer(s) and how many options it has. */
  datatype Question = Question(numero: int, correcta: Key, optionCount: nat)

  /** A stored answer: the checked radio's index, or the checked boxes' indices. */
  datatype Answer = Index(value: int) | Indices(items: seq<int>)

  /** What the finish button stores under `resultadoExamen`. */
  datatype Payload = Payload(respuestasUsuario: map<int, Answer>, examenOriginal: seq<Question>, timestamp: string)

  const PerPage: nat := 2

  /** `start = currentPage * 2`. */
  function PageStart(page: int): int { page * PerPage }

  /** `end = start + 2`, not clamped to the number of questions. */
  function PageEnd(page: int): int { PageStart(page) + PerPage }

  /** `examen.slice(start, end)` for a page that is not negative. */
  function Visible(examen: seq<Question>, page: nat): (v: seq<Question>)
    ensures |v| <= PerPage
    ensures PageStart(page) < |examen| ==> |v| == (if PageEnd(page) <= |examen| then PerPage else |examen| - PageStart(page))
    ensures forall k :: 0 <= k < |v| ==> PageStart(page) + k < |examen| && v[k] == examen[PageStart(page) + k]
  {
    if PageStart(page) >= |examen| then []
    else if PageEnd(page) <= |examen| then examen[PageStart(page)..PageEnd(page)]
    else examen[PageStart(page)..]
  }

  /** Checkboxes exactly for a question whose correct answer is an array. */
  predicate IsCheckbox(q: Question) { q.correcta.Many? }

  /** `isChecked`: no answer checks nothing; an array answer checks its members; a number
      checks the option it equals. */
  predicate IsChecked(respuestas: map<int, Answer>, numero: int, option: int) {
    numero in respuestas &&
    match respuestas[numero]
    case Indices(s) => option in s
    case Index(v) => v == option
  }

  /** The state of the three buttons after a page is loaded. */
  datatype Buttons = Buttons(backDisabled: bool, nextShown: bool, finishShown: bool)

  function ButtonsFor(page: int, total: nat): (b: Buttons)
    ensures b.backDisabled <==> page == 0
    ensures b.nextShown != b.finishShown
    ensures b.finishShown <==> PageEnd(page) >= total
  {
    Buttons(page == 0, PageEnd(page) < total, PageEnd(page) >= total)
  }

  /** How `saveRespuestas` treats one question block: a block without inputs is skipped, a
      radio group stores the first checked index and keeps the old answer when nothing is
      checked, a checkbox group stores exactly the checked indices. */
  function SaveOne(respuestas: map<int, Answer>, q: Question, checked: map<int, seq<int>>): (r: map<int, Answer>)
    ensures respuestas.Keys <= r.Keys <= respuestas.Keys + {q.numero}
    ensures forall n :: n in respuestas && n != q.numero ==> r[n] == respuestas[n]
  {
    var on := CheckedAt(checked, q.numero);
    if q.optionCount == 0 then respuestas
    else if IsCheckbox(q) then respuestas[q.numero := Indices(on)]
    else if on != [] then respuestas[q.numero := Index(on[0])]
    else respuestas
  }

  /** The blocks of the page, saved in document order. Saving never loses an answer, and only
      questions of the page gain one. */
  function SavePage(respuestas: map<int, Answer>, blocks: seq<Question>, checked: map<int, seq<int>>): (r: map<int, Answer>)
    ensures respuestas.Keys <= r.Keys
    ensures forall n :: n in r && n !in respuestas ==> exists k :: 0 <= k < |blocks| && blocks[k].numero == n
  {
    if blocks == [] then respuestas
    else SaveOne(SavePage(respuestas, blocks[..|blocks| - 1], checked), blocks[|blocks| - 1], checked)
  }

  /** A question that is not on the page keeps its answer, or its absence of one. */
  lemma {:induction false} SavePageKeepsOthers(respuestas: map<int, Answer>, blocks: seq<Question>,
                                               checked: map<int, seq<int>>, numero: int)
    requires forall k :: 0 <= k < |blocks| ==> blocks[k].numero != numero
    ensures numero in SavePage(respuestas, blocks, checked) <==> numero in respuestas
    ensures numero in respuestas ==> SavePage(respuestas, blocks, checked)[numero] == respuestas[numero]
  {
    if blocks != [] {
      SavePageKeepsOthers(respuestas, blocks[..|blocks| - 1], checked, numero);
    }
  }

  /** On a page whose question numbers are distinct, each block's answer is what `SaveOne`
      makes of the answer it had before the page was saved. */
  lemma {:induction false} SavePageBlock(respuestas: map<int, Answer>, blocks: seq<Question>,
                                         checked: map<int, seq<int>>, k: nat)
    requires k < |blocks|
    requires forall i, j :: 0 <= i < j < |blocks| ==> blocks[i].numero != blocks[j].numero
    ensures var q := blocks[k];
            var after := SavePage(respuestas, blocks, checked);
            var alone := SaveOne(respuestas, q, checked);
            (q.numero in after <==> q.numero in alone)
            && (q.numero in alone ==> after[q.numero] == alone[q.numero])
  {
    var init, last := blocks[..|blocks| - 1], blocks[|blocks| - 1];
    var q := blocks[k];
    var before := SavePage(respuestas, init, checked);
    assert SavePage(respuestas, blocks, checked) == SaveOne(before, last, checked);
    if k == |blocks| - 1 {
      DistinctPrefix(blocks);
      SavePageKeepsOthers(respuestas, init, checked, q.numero);
      SaveOneSameAnswer(before, respuestas, q, checked);
    } else {
      DistinctPrefix(blocks);
      assert init[k] == q;
      SavePageBlock(respuestas, init, checked, k);
      SaveOneOther(before, last, checked, q.numero);
    }
  }

  /** Saving one block leaves every other question's answer, or its absence, as it was. */
  lemma SaveOneOther(respuestas: map<int, Answer>, q: Question, checked: map<int, seq<int>>, n: int)
    requires n != q.numero
    ensures n in SaveOne(respuestas, q, checked) <==> n in respuestas
    ensures n in respuestas ==> SaveOne(respuestas, q, checked)[n] == respuestas[n]
  {
  }

  /** Saving a block depends only on that block's previous answer. */
  lemma SaveOneSameAnswer(m1: map<int, Answer>, m2: map<int, Answer>, q: Question, checked: map<int, seq<int>>)
    requires q.numero in m1 <==> q.numero in m2
    requires q.numero in m1 ==> m1[q.numero] == m2[q.numero]
    ensures q.numero in SaveOne(m1, q, checked) <==> q.numero in SaveOne(m2, q, checked)
    ensures q.numero in SaveOne(m1, q, checked) ==> SaveOne(m1, q, checked)[q.numero] == SaveOne(m2, q, checked)[q.numero]
  {
  }

  lemma DistinctPrefix(blocks: seq<Question>)
    requires blocks != []
    requires forall i, j :: 0 <= i < j < |blocks| ==> blocks[i].numero != blocks[j].numero
    ensures var init := blocks[..|blocks| - 1];
            (forall i, j :: 0 <= i < j < |init| ==> init[i].numero != init[j].numero)
            && forall i :: 0 <= i < |init| ==> init[i].numero != blocks[|blocks| - 1].numero
  {
    var init := blocks[..|blocks| - 1];
    assert forall i :: 0 <= i < |init| ==> init[i] == blocks[i];
  }

  /** The answer rules of one block: a radio group with nothing checked keeps the previous
      answer, a radio group with a checked option stores that index, a checkbox group always
      stores exactly the checked indices (the empty list when nothing is checked). */
  lemma SaveOneRules(respuestas: map<int, Answer>, q: Question, checked: map<int, seq<int>>)
    requires q.optionCount > 0
    ensures var after := SaveOne(respuestas, q, checked);
            var on := CheckedAt(checked, q.numero);
            (IsCheckbox(q) ==> after == respuestas[q.numero := Indices(on)])
            && (!IsCheckbox(q) && on == [] ==> after == respuestas)
            && (!IsCheckbox(q) && on != [] ==> after == respuestas[q.numero := Index(on[0])])
  {
  }

  /** A saved checkbox answer re-checks exactly the boxes that were checked, and a saved
      radio answer re-checks the option that was checked. */
  lemma SavedAnswerIsChecked(respuestas: map<int, Answer>, q: Question, checked: map<int, seq<int>>, option: int)
    requires q.optionCount > 0
    ensures IsCheckbox(q) ==>
              (IsChecked(SaveOne(respuestas, q, checked), q.numero, option) <==> option in CheckedAt(checked, q.numero))
    ensures !IsCheckbox(q) && CheckedAt(checked, q.numero) != [] ==>
              (IsChecked(SaveOne(respuestas, q, checked), q.numero, option) <==> option == CheckedAt(checked, q.numero)[0])
  {
  }

  class ExamPage {
    const examen: seq<Question>
    var currentPage: int
    var respuestasUsuario: map<int, Answer>
    var resultadoExamen: Option<Payload>

    constructor (examen: seq<Question>)
      ensures this.examen == examen
      ensures currentPage == 0 && respuestasUsuario == map[] && resultadoExamen == None
    {
      this.examen := examen;
      currentPage, respuestasUsuario, resultadoExamen := 0, map[], None;
    }

    function Buttons(): Buttons
      reads this
    {
      ButtonsFor(currentPage, |examen|)
    }

    /** The blocks on the current page. The back button is disabled on the first page, so the
        page is never negative; a negative page shows no blocks here. */
    function Blocks(): seq<Question>
      reads this
    {
      if currentPage >= 0 then Visible(examen, currentPage) else []
    }

    /** Stores the answers of the blocks on the current page, one block at a time. */
    method SaveRespuestas(checked: map<int, seq<int>>)
      modifies this`respuestasUsuario
      ensures respuestasUsuario == SavePage(old(respuestasUsuario), Blocks(), checked)
    {
      var blocks := Blocks();
      ghost var before := respuestasUsuario;
      var i := 0;
      while i < |blocks|
        invariant 0 <= i <= |blocks|
        invariant respuestasUsuario == SavePage(before, blocks[..i], checked)
      {
        assert blocks[..i + 1][..i] == blocks[..i];
        var q := blocks[i];
        var on := CheckedAt(checked, q.numero);
        if q.optionCount > 0 {
          if q.correcta.Many? {
            respuestasUsuario := respuestasUsuario[q.numero := Indices(on)];
          } else if on != [] {
            respuestasUsuario := respuestasUsuario[q.numero := Index(on[0])];
          }
        }
        i := i + 1;
      }
      assert blocks[..i] == blocks;
    }

    /** The next button: save the page, then one page forward. */
    method Next(checked: map<int, seq<int>>)
      modifies this`respuestasUsuario, this`currentPage
      ensures respuestasUsuario == SavePage(old(respuestasUsuario), old(Blocks()), checked)
      ensures currentPage == old(currentPage) + 1
    {
      SaveRespuestas(checked);
      currentPage := currentPage + 1;
    }

    /** The back button: save the page, then one page back. The button is disabled on the
        first page, so a page that was not negative stays not negative. */
    method Back(checked: map<int, seq<int>>)
      modifies this`respuestasUsuario, this`currentPage
      ensures respuestasUsuario == SavePage(old(respuestasUsuario), old(Blocks()), checked)
      ensures currentPage == old(currentPage) - 1
      ensures old(!Buttons().backDisabled && currentPage >= 0) ==> currentPage >= 0
    {
      SaveRespuestas(checked);
      currentPage := currentPage - 1;
    }

    /** The finish button: save the page, then store the answers, the original exam and the
        finishing time for the results page. */
    method Finish(checked: map<int, seq<int>>, timestamp: string)
      modifies this`respuestasUsuario, this`resultadoExamen
      ensures respuestasUsuario == SavePage(old(respuestasUsuario), Blocks(), checked)
      ensures resultadoExamen == Some(Payload(respuestasUsuario, examen, timestamp))
    {
      SaveRespuestas(checked);
      resultadoExamen := Some(Payload(respuestasUsuario, examen, timestamp));
    }
  }
}
