/** The results page of the first exam page: every question earns a credit between 0 and 1
    (a fraction of the correct options for a multiple-answer question, with no penalty for
    wrong picks), the credits add up to the total, the percentage is the rounded share of the
    total, and the exam is passed when the raw total reaches `minimo_aprobacion`. */
module PartialCredit {
  import opened Wrappers
  import opened Selections
  import opened LegacyExam
  import Feedback

  /** A JavaScript number in the credit arithmetic: a real, or `NaN` (0/0). */
  datatype Credit = Val(v: real) | NaN

  /** `usuario.filter(val => correcta.includes(val)).length`. */
  function CountIn(u: seq<int>, c: seq<int>): (n: nat)
    ensures n <= |u|
  {
    if u == [] then 0
    else CountIn(u[..|u| - 1], c) + (if u[|u| - 1] in c then 1 else 0)
  }

  /** `respuestasUsuario[numero]`: the stored answer of a question, if any. */
  function AnswerOf(respuestas: map<int, Answer>, p: Question): Option<Answer> {
    if p.numero in respuestas then Some(respuestas[p.numero]) else None
  }

  datatype Grade = Grade(credit: Credit, esCorrecta: bool)

  /** One question's `puntajePregunta` and `esCorrecta`: correct exactly on full credit, never
      a negative credit, and `NaN` only for an empty key answered with an array. */
  function GradeOf(p: Question, usuario: Option<Answer>): (g: Grade)
    ensures g.esCorrecta <==> g.credit == Val(1.0)
    ensures g.credit.Val? ==> 0.0 <= g.credit.v
    ensures g.credit.NaN? <==> p.correcta == Many([]) && usuario.Some? && usuario.value.Indices?
  {
    match p.correcta
    case Many(c) =>
      if usuario.Some? && usuario.value.Indices? then
        var credit := if |c| == 0 then NaN else Val(CountIn(usuario.value.items, c) as real / |c| as real);
        Grade(credit, credit == Val(1.0))
      else Grade(Val(0.0), false)
    case One(c) =>
      var ok := usuario == Some(Index(c));
      Grade(Val(if ok then 1.0 else 0.0), ok)
  }

  datatype Clase = Correct | Partial | Incorrect

  /** `claseResultado`: correct first, then partial when some credit was earned. */
  function ClaseOf(g: Grade): Clase {
    if g.esCorrecta then Correct
    else if g.credit.Val? && g.credit.v > 0.0 then Partial
    else Incorrect
  }

  /** `puntajeTotal += puntajePregunta`: `NaN` absorbs everything added to it. */
  function Add(a: Credit, b: Credit): (r: Credit)
    ensures r.NaN? <==> a.NaN? || b.NaN?
    ensures a.Val? && b.Val? ==> r == Val(a.v + b.v)
  {
    if a.Val? && b.Val? then Val(a.v + b.v) else NaN
  }

  /** The total over the questions in the order of the exam file: `NaN` exactly when some
      question's credit is, and otherwise never negative. */
  function Total(examen: seq<Question>, respuestas: map<int, Answer>): (r: Credit)
    ensures r.NaN? <==> exists k :: 0 <= k < |examen| && GradeOf(examen[k], AnswerOf(respuestas, examen[k])).credit.NaN?
    ensures r.Val? ==> 0.0 <= r.v
  {
    if examen == [] then Val(0.0)
    else
      var last := examen[|examen| - 1];
      Add(Total(examen[..|examen| - 1], respuestas), GradeOf(last, AnswerOf(respuestas, last)).credit)
  }

  /** `correctasMarcadas`: the picks that are correct options, counted one pick at a time. */
  method CountCorrectPicks(u: seq<int>, c: seq<int>) returns (correctasMarcadas: nat)
    ensures correctasMarcadas == CountIn(u, c)
  {
    correctasMarcadas := 0;
    var j := 0;
    while j < |u|
      invariant 0 <= j <= |u|
      invariant correctasMarcadas == CountIn(u[..j], c)
    {
      assert u[..j + 1][..j] == u[..j];
      if u[j] in c {
        correctasMarcadas := correctasMarcadas + 1;
      }
      j := j + 1;
    }
    assert u[..j] == u;
  }

  /** The body of the page's loop for one question: its credit and whether it is correct. */
  method GradeQuestion(pregunta: Question, respuestas: map<int, Answer>) returns (puntajePregunta: Credit, esCorrecta: bool)
    ensures Grade(puntajePregunta, esCorrecta) == GradeOf(pregunta, AnswerOf(respuestas, pregunta))
  {
    var usuario := if pregunta.numero in respuestas then Some(respuestas[pregunta.numero]) else None;
    puntajePregunta, esCorrecta := Val(0.0), false;
    if pregunta.correcta.Many? {
      var correcta := pregunta.correcta.indices;
      if usuario.Some? && usuario.value.Indices? {
        var correctasMarcadas := CountCorrectPicks(usuario.value.items, correcta);
        puntajePregunta := if |correcta| == 0 then NaN else Val(correctasMarcadas as real / |correcta| as real);
        esCorrecta := puntajePregunta == Val(1.0);
      }
    } else {
      esCorrecta := usuario == Some(Index(pregunta.correcta.index));
      puntajePregunta := Val(if esCorrecta then 1.0 else 0.0);
    }
  }

  /** The class a question's credit and correctness give it. */
  method Classify(puntajePregunta: Credit, esCorrecta: bool) returns (claseResultado: Clase)
    ensures claseResultado == Correct <==> esCorrecta
    ensures claseResultado == Partial <==> !esCorrecta && puntajePregunta.Val? && puntajePregunta.v > 0.0
    ensures claseResultado == ClaseOf(Grade(puntajePregunta, esCorrecta))
  {
    claseResultado := Incorrect;
    if esCorrecta {
      claseResultado := Correct;
    } else if puntajePregunta.Val? && puntajePregunta.v > 0.0 {
      claseResultado := Partial;
    }
  }

  /** The class the page shows for question `p`. */
  function ClaseAt(p: Question, respuestas: map<int, Answer>): Clase {
    ClaseOf(GradeOf(p, AnswerOf(respuestas, p)))
  }

  /** The classes of the blocks, in the order of the exam file. */
  function Clases(examen: seq<Question>, respuestas: map<int, Answer>): seq<Clase> {
    if examen == [] then []
    else Clases(examen[..|examen| - 1], respuestas) + [ClaseAt(examen[|examen| - 1], respuestas)]
  }

  /** Block `k` has the class of question `k`. */
  lemma {:induction false} ClasesAt(examen: seq<Question>, respuestas: map<int, Answer>, k: nat)
    requires k < |examen|
    ensures |Clases(examen, respuestas)| == |examen|
    ensures Clases(examen, respuestas)[k] == ClaseAt(examen[k], respuestas)
  {
    var init := examen[..|examen| - 1];
    if k < |init| {
      ClasesAt(init, respuestas, k);
    } else if init != [] {
      ClasesAt(init, respuestas, 0);
    }
  }

  /** One more question adds its credit to the running total and its block to the classes. */
  lemma TotalStep(examen: seq<Question>, respuestas: map<int, Answer>, i: nat)
    requires i < |examen|
    ensures Total(examen[..i + 1], respuestas) ==
              Add(Total(examen[..i], respuestas), GradeOf(examen[i], AnswerOf(respuestas, examen[i])).credit)
    ensures Clases(examen[..i + 1], respuestas) == Clases(examen[..i], respuestas) + [ClaseAt(examen[i], respuestas)]
  {
    assert examen[..i + 1][..i] == examen[..i];
  }

  /** The page's `forEach`: the total and each question's class, one question at a time. */
  method Score(examen: seq<Question>, respuestas: map<int, Answer>) returns (puntajeTotal: Credit, clases: seq<Clase>)
    ensures puntajeTotal == Total(examen, respuestas)
    ensures |clases| == |examen|
    ensures forall k :: 0 <= k < |examen| ==> clases[k] == ClaseAt(examen[k], respuestas)
  {
    puntajeTotal, clases := Val(0.0), [];
    var i := 0;
    while i < |examen|
      invariant 0 <= i <= |examen|
      invariant puntajeTotal == Total(examen[..i], respuestas)
      invariant clases == Clases(examen[..i], respuestas)
    {
      TotalStep(examen, respuestas, i);
      var puntajePregunta, esCorrecta := GradeQuestion(examen[i], respuestas);
      puntajeTotal := Add(puntajeTotal, puntajePregunta);
      var claseResultado := Classify(puntajePregunta, esCorrecta);
      clases := clases + [claseResultado];
      i := i + 1;
    }
    assert examen[..i] == examen;
    forall k | 0 <= k < |examen| ensures |clases| == |examen| && clases[k] == ClaseAt(examen[k], respuestas) {
      ClasesAt(examen, respuestas, k);
    }
    if examen == [] {
      assert clases == [];
    }
  }

  /** `Math.round(puntajeTotal / totalPreguntas * 100)`, `None` standing for `NaN`. Without
      questions the total is 0 and 0/0 is `NaN`. */
  function Porcentaje(total: Credit, n: nat): (r: Option<int>)
    ensures r.Some? <==> total.Val? && n > 0
    ensures r.Some? ==> r.value as real <= total.v * 100.0 / n as real + 0.5 < r.value as real + 1.0
  {
    if total.NaN? || n == 0 then None
    else Some((total.v * 100.0 / n as real + 0.5).Floor)
  }

  /** `puntajeTotal >= minimo_aprobacion`, on the raw total: `NaN` or a missing minimum fails. */
  predicate Aprobado(total: Credit, minimo: Option<int>) {
    total.Val? && minimo.Some? && total.v >= minimo.value as real
  }

  datatype Resumen = Resumen(total: Credit, porcentaje: Option<int>, aprobado: bool, feedback: string)

  function Summarise(examen: seq<Question>, respuestas: map<int, Answer>, minimo: Option<int>,
                     retroalimentacion: seq<Feedback.Item>): (r: Resumen)
    ensures r.porcentaje.None? <==> r.total.NaN? || |examen| == 0
    ensures r.porcentaje.None? ==> r.feedback == ""
    ensures r.aprobado ==> r.total.Val? && minimo.Some? && r.total.v >= minimo.value as real
    ensures |examen| == 0 ==> r.total == Val(0.0) && r.porcentaje.None? && r.feedback == ""
  {
    var total := Total(examen, respuestas);
    var pct := Porcentaje(total, |examen|);
    var asReal := if pct.Some? then Some(pct.value as real) else None;
    Resumen(total, pct, Aprobado(total, minimo), Feedback.Message(retroalimentacion, asReal))
  }

  /** A single-answer question earns 1 exactly when the stored answer is its index, 0
      otherwise, and is never partial. */
  lemma SingleAnswerCredit(p: Question, usuario: Option<Answer>)
    requires p.correcta.One?
    ensures GradeOf(p, usuario).esCorrecta <==> usuario == Some(Index(p.correcta.index))
    ensures GradeOf(p, usuario).credit == Val(if usuario == Some(Index(p.correcta.index)) then 1.0 else 0.0)
    ensures ClaseOf(GradeOf(p, usuario)) != Partial
  {
  }

  /** A multiple-answer question with no array stored (nothing, or a radio index) earns 0 and
      is incorrect. */
  lemma MultiWithoutArray(p: Question, usuario: Option<Answer>)
    requires p.correcta.Many?
    requires !(usuario.Some? && usuario.value.Indices?)
    ensures GradeOf(p, usuario) == Grade(Val(0.0), false)
    ensures ClaseOf(GradeOf(p, usuario)) == Incorrect
  {
  }

  /** Picks that are not correct options do not change the count of correct picks. */
  lemma {:induction false} WrongPicksIgnored(u: seq<int>, w: seq<int>, c: seq<int>)
    requires forall k :: 0 <= k < |w| ==> w[k] !in c
    ensures CountIn(u + w, c) == CountIn(u, c)
  {
    if w != [] {
      var init := w[..|w| - 1];
      assert (u + w)[..|u + w| - 1] == u + init;
      assert (u + w)[|u + w| - 1] == w[|w| - 1];
      assert forall k :: 0 <= k < |init| ==> init[k] == w[k];
      WrongPicksIgnored(u, init, c);
      assert CountIn(u + w, c) == CountIn(u + init, c) + (if w[|w| - 1] in c then 1 else 0);
    } else {
      assert u + w == u;
    }
  }

  /** So adding wrong picks to a multiple-answer selection does not lower its credit. */
  lemma ExtraWrongPicksSameGrade(p: Question, u: seq<int>, w: seq<int>)
    requires p.correcta.Many?
    requires forall k :: 0 <= k < |w| ==> w[k] !in p.correcta.indices
    ensures GradeOf(p, Some(Indices(u + w))) == GradeOf(p, Some(Indices(u)))
  {
    WrongPicksIgnored(u, w, p.correcta.indices);
  }

  /** For a selection without repetitions the count of correct picks is the number of
      correct options picked. */
  lemma {:induction false} CountInIsIntersection(u: seq<int>, c: seq<int>)
    requires Distinct(u)
    ensures CountIn(u, c) == |Elements(u) * Elements(c)|
  {
    if u != [] {
      var init, last := u[..|u| - 1], u[|u| - 1];
      DistinctSnoc(u);
      CountInIsIntersection(init, c);
      ElementsSnoc(u);
      if last in c {
        assert Elements(u) * Elements(c) == (Elements(init) * Elements(c)) + {last};
      } else {
        assert Elements(u) * Elements(c) == Elements(init) * Elements(c);
      }
    }
  }

  /** A selection without repetitions picks at most all of the correct options. */
  lemma CountInBound(u: seq<int>, c: seq<int>)
    requires Distinct(u)
    ensures CountIn(u, c) <= |c|
  {
    CountInIsIntersection(u, c);
    CardAtMostLength(c);
    SubsetCard(Elements(u) * Elements(c), Elements(c));
  }

  /** Full credit on a multiple-answer question (distinct picks, distinct correct options)
      means every correct option was picked; wrong picks do not prevent it. */
  lemma FullCreditIffAllPicked(p: Question, u: seq<int>)
    requires p.correcta.Many? && |p.correcta.indices| > 0
    requires Distinct(u) && Distinct(p.correcta.indices)
    ensures GradeOf(p, Some(Indices(u))).esCorrecta <==> forall k :: 0 <= k < |p.correcta.indices| ==> p.correcta.indices[k] in u
  {
    var c := p.correcta.indices;
    var n := CountIn(u, c);
    CountInIsIntersection(u, c);
    DistinctCard(c);
    var both := Elements(u) * Elements(c);
    RatioOne(n, |c|);
    if n == |c| {
      SubsetSameCard(both, Elements(c));
      forall k | 0 <= k < |c| ensures c[k] in u {
        assert c[k] in Elements(c);
      }
    }
    if forall k :: 0 <= k < |c| ==> c[k] in u {
      assert both == Elements(c) by {
        forall x | x in Elements(c) ensures x in both {
          var k :| 0 <= k < |c| && c[k] == x;
        }
      }
    }
  }

  lemma RatioOne(n: nat, d: nat)
    requires d > 0
    ensures n as real / d as real == 1.0 <==> n == d
  {
    assert (n as real / d as real) * d as real == n as real;
  }

  lemma RatioInUnit(n: nat, d: nat)
    requires 0 < d && n <= d
    ensures 0.0 <= n as real / d as real <= 1.0
  {
    assert (n as real / d as real) * d as real == n as real;
  }

  lemma RatioPositive(n: nat, d: nat)
    requires d > 0
    ensures n as real / d as real > 0.0 <==> n > 0
  {
    assert (n as real / d as real) * d as real == n as real;
  }

  /** With distinct picks, a multiple-answer question is partial exactly when some but not all
      of its correct options' worth was earned. */
  lemma PartialMeansSomeNotAll(p: Question, u: seq<int>)
    requires p.correcta.Many? && |p.correcta.indices| > 0
    requires Distinct(u)
    ensures ClaseOf(GradeOf(p, Some(Indices(u)))) == Partial <==>
              0 < CountIn(u, p.correcta.indices) < |p.correcta.indices|
  {
    var c := p.correcta.indices;
    var n := CountIn(u, c);
    CountInBound(u, c);
    RatioOne(n, |c|);
    RatioPositive(n, |c|);
  }

  /** Without distinct picks the credit can exceed 1: picking the one correct option twice
      earns 2 and is classed partial, not correct. */
  lemma RepeatedPickOverCredits()
    ensures GradeOf(Question(1, Many([0]), 2), Some(Indices([0, 0]))) == Grade(Val(2.0), false)
    ensures ClaseOf(GradeOf(Question(1, Many([0]), 2), Some(Indices([0, 0])))) == Partial
  {
    assert [0, 0][..1] == [0];
    assert [0][..0] == [];
  }

  /** The answers every question's credit bound needs: array answers without repetitions,
      and no multiple-answer question with an empty key. */
  predicate WellFormed(examen: seq<Question>, respuestas: map<int, Answer>) {
    forall k :: 0 <= k < |examen| ==>
      (examen[k].correcta.Many? ==> |examen[k].correcta.indices| > 0)
      && (examen[k].numero in respuestas && respuestas[examen[k].numero].Indices? ==>
            Distinct(respuestas[examen[k].numero].items))
  }

  /** Each question earns between 0 and 1. */
  lemma CreditInUnit(p: Question, usuario: Option<Answer>)
    requires p.correcta.Many? ==> |p.correcta.indices| > 0
    requires usuario.Some? && usuario.value.Indices? ==> Distinct(usuario.value.items)
    ensures GradeOf(p, usuario).credit.Val?
    ensures 0.0 <= GradeOf(p, usuario).credit.v <= 1.0
  {
    if p.correcta.Many? && usuario.Some? && usuario.value.Indices? {
      var n, d := CountIn(usuario.value.items, p.correcta.indices), |p.correcta.indices|;
      CountInBound(usuario.value.items, p.correcta.indices);
      RatioInUnit(n, d);
      assert GradeOf(p, usuario).credit == Val(n as real / d as real);
    }
  }

  /** So the total lies between 0 and the number of questions. */
  lemma {:induction false} TotalBounds(examen: seq<Question>, respuestas: map<int, Answer>)
    requires WellFormed(examen, respuestas)
    ensures Total(examen, respuestas).Val?
    ensures 0.0 <= Total(examen, respuestas).v <= |examen| as real
  {
    if examen != [] {
      var init, last := examen[..|examen| - 1], examen[|examen| - 1];
      assert WellFormed(init, respuestas) by {
        forall k | 0 <= k < |init| ensures init[k] == examen[k] { }
      }
      TotalBounds(init, respuestas);
      CreditInUnit(last, AnswerOf(respuestas, last));
    }
  }

  /** And the percentage of a non-empty exam lies between 0 and 100. */
  lemma PercentageBounds(examen: seq<Question>, respuestas: map<int, Answer>)
    requires WellFormed(examen, respuestas) && |examen| > 0
    ensures Porcentaje(Total(examen, respuestas), |examen|).Some?
    ensures 0 <= Porcentaje(Total(examen, respuestas), |examen|).value <= 100
  {
    TotalBounds(examen, respuestas);
    PorcentajeBounds(Total(examen, respuestas), |examen|);
  }

  lemma PorcentajeBounds(t: Credit, n: nat)
    requires t.Val? && 0.0 <= t.v <= n as real && n > 0
    ensures Porcentaje(t, n).Some? && 0 <= Porcentaje(t, n).value <= 100
  {
    ShareBounds(t.v, n as real);
  }

  lemma ShareBounds(t: real, n: real)
    requires 0.0 <= t <= n && n > 0.0
    ensures 0.0 <= t * 100.0 / n <= 100.0
    ensures 0 <= (t * 100.0 / n + 0.5).Floor <= 100
  {
    var x := t * 100.0 / n;
    assert x * n == t * 100.0;
  }

  /** Without questions the total is 0, the percentage `NaN`, and there is no feedback. */
  lemma EmptyExam(respuestas: map<int, Answer>, minimo: Option<int>, items: seq<Feedback.Item>)
    ensures Summarise([], respuestas, minimo, items).total == Val(0.0)
    ensures Summarise([], respuestas, minimo, items).porcentaje == None
    ensures Summarise([], respuestas, minimo, items).feedback == ""
    ensures Summarise([], respuestas, minimo, items).aprobado <==> minimo.Some? && minimo.value <= 0
  {
  }

  /** Passing looks at the raw total, not the rounded percentage: out of 200 questions, 129.5
      and 130 points both show 65%, but only 130 reaches a minimum of 130. */
  lemma PassIsOnRawTotal()
    ensures Porcentaje(Val(129.5), 200) == Some(65) && Porcentaje(Val(130.0), 200) == Some(65)
    ensures !Aprobado(Val(129.5), Some(130)) && Aprobado(Val(130.0), Some(130))
  {
  }
}
