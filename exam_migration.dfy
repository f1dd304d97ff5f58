/** The migration of the bundled exam JSON files into the testifyhq database: each exam file
    becomes one `exams` row (title, description, difficulty, duration and pass mark derived
    from the file) and one `questions` row per question (the correct option as a letter, the
    options as lettered entries with their `a) ` prefixes stripped, numbered from 1). The
    database tables are the fields of a class; the id the database assigns to a new exam is
    its row position, and whether each insert fails is an input. */
module ExamMigration {
  import opened Wrappers
  import opened JsText
  import opened JsMath
  import opened Selections

  /** `pregunta`: one string, or an array of parts. */
  datatype Prompt = Text(text: string) | Parts(parts: seq<string>)

  datatype RawQuestion = RawQuestion(pregunta: Prompt, opciones: seq<string>, respuestaCorrecta: Key,
                                     imageUrl: Option<string>, explicacion: Option<string>,
                                     videoExplicacion: Option<string>)

  datatype RawExam = RawExam(titulo: Option<string>, title: Option<string>,
                             descripcion: Option<string>, description: Option<string>,
                             examen: Option<seq<RawQuestion>>, minimoAprobacion: Option<nat>)

  /** An exam file holds the exam object, or an array whose first element is the exam. */
  datatype ExamFile = Single(exam: RawExam) | Wrapped(exams: seq<RawExam>)

  /** An option of a question row; its id is one UTF-16 code unit, the letter of its position. */
  datatype MappedOption = MappedOption(id: int, content: string)

  datatype ExamRow = ExamRow(title: string, description: string, category: string, difficulty: string,
                             durationMinutes: int, passingScore: Number, totalQuestions: nat, isActive: bool)

  datatype QuestionRow = QuestionRow(examId: nat, questionType: string, questionText: string,
                                     imageUrl: Option<string>, options: seq<MappedOption>, correctAnswer: int,
                                     explanation: Option<string>, videoUrl: Option<string>, orderIndex: int)

  predicate Falsy(o: Option<string>) { o.None? || o.value == "" }

  /** `Array.isArray(examData) ? examData[0] : examData`; the first element of an empty array
      is `undefined`. */
  function Unwrap(file: ExamFile): (data: Option<RawExam>)
    ensures file.Single? ==> data == Some(file.exam)
    ensures file.Wrapped? ==> (data.Some? <==> file.exams != []) && (data.Some? ==> data.value == file.exams[0])
  {
    match file
    case Single(e) => Some(e)
    case Wrapped(es) => if es == [] then None else Some(es[0])
  }

  /** `data.titulo || data.title`; `None` when neither is there, which makes `toLowerCase` throw. */
  function TitleOf(data: RawExam): (t: Option<string>)
    ensures !Falsy(data.titulo) ==> t == data.titulo
    ensures Falsy(data.titulo) ==> t == data.title
  {
    if !Falsy(data.titulo) then data.titulo else data.title
  }

  /** `data.descripcion || data.description || 'Sin descripción'`. */
  function DescriptionOf(data: RawExam): (d: string)
    ensures d != ""
    ensures !Falsy(data.descripcion) ==> d == data.descripcion.value
    ensures Falsy(data.descripcion) && !Falsy(data.description) ==> d == data.description.value
    ensures Falsy(data.descripcion) && Falsy(data.description) ==> d == "Sin descripción"
  {
    if !Falsy(data.descripcion) then data.descripcion.value
    else if !Falsy(data.description) then data.description.value
    else "Sin descripción"
  }

  /** `title.toLowerCase().includes('advanced')`. */
  predicate IsAdvanced(title: string) {
    Includes(Lower(title), "advanced")
  }

  /** The difficulty label (capitalised or not, by file) and the standard duration. */
  function DifficultyOf(title: string, capitalised: bool): (d: string)
    ensures IsAdvanced(title) ==> d == (if capitalised then "Advanced" else "advanced")
    ensures !IsAdvanced(title) ==> d == (if capitalised then "Foundation" else "foundation")
  {
    if IsAdvanced(title) then (if capitalised then "Advanced" else "advanced")
    else (if capitalised then "Foundation" else "foundation")
  }

  function DurationOf(title: string): (minutes: int)
    ensures minutes == 120 <==> IsAdvanced(title)
    ensures minutes == 60 <==> !IsAdvanced(title)
  {
    if IsAdvanced(title) then 120 else 60
  }

  /** `data.examen ? data.examen.length : 0`. */
  function TotalOf(data: RawExam): (n: nat)
    ensures data.examen.Some? ==> n == |data.examen.value|
    ensures data.examen.None? ==> n == 0
  {
    if data.examen.Some? then |data.examen.value| else 0
  }

  /** `data.minimo_aprobacion || Math.ceil(totalQuestions * 0.65)`. */
  function PassingRaw(data: RawExam): (raw: nat)
    ensures data.minimoAprobacion.Some? && data.minimoAprobacion.value != 0 ==> raw == data.minimoAprobacion.value
    ensures data.minimoAprobacion.None? || data.minimoAprobacion.value == 0 ==>
              100 * (raw - 1) < 65 * TotalOf(data) <= 100 * raw
  {
    if data.minimoAprobacion.Some? && data.minimoAprobacion.value != 0 then data.minimoAprobacion.value
    else
      var c := Ceil65Percent(TotalOf(data));
      assert c >= 0;
      c
  }

  /** `Math.round((passingScoreRaw / totalQuestions) * 100)`. */
  function PassingPercent(data: RawExam): (pct: Number)
    ensures TotalOf(data) > 0 ==> pct.Int?
    ensures TotalOf(data) > 0 && PassingRaw(data) <= TotalOf(data) ==> 0 <= pct.value <= 100
    ensures TotalOf(data) == 0 ==> !pct.Int?
  {
    var raw, n := PassingRaw(data), TotalOf(data);
    assert n > 0 && raw <= n ==> 0 <= Percent(raw, n).value <= 100 by {
      if n > 0 && raw <= n { PercentBounds(raw, n); }
    }
    Percent(raw, n)
  }

  /** Without a stated minimum, the pass mark of a non-empty exam is at least 65 percent. */
  lemma DefaultPassMarkAtLeast65(data: RawExam)
    requires data.minimoAprobacion.None? || data.minimoAprobacion.value == 0
    requires TotalOf(data) > 0
    ensures PassingPercent(data).Int? && 65 <= PassingPercent(data).value <= 100
  {
    var n, raw := TotalOf(data), PassingRaw(data);
    RoundMonotone(65 * n, 100 * raw, n);
    RoundExact(65, n);
    PercentBounds(raw, n);
  }

  /** A stated minimum within the exam gives a pass mark between 0 and 100 percent. */
  lemma StatedPassMarkInRange(data: RawExam)
    requires data.minimoAprobacion.Some? && 0 < data.minimoAprobacion.value <= TotalOf(data)
    ensures PassingPercent(data).Int? && 0 <= PassingPercent(data).value <= 100
  {
    PercentBounds(PassingRaw(data), TotalOf(data));
  }

  /** An exam without questions gets a pass mark that is not a number: `NaN` without a stated
      minimum, `Infinity` with one. */
  lemma EmptyExamPassMark(data: RawExam)
    requires TotalOf(data) == 0
    ensures data.minimoAprobacion.None? || data.minimoAprobacion.value == 0 ==> PassingPercent(data) == NaN
    ensures data.minimoAprobacion.Some? && data.minimoAprobacion.value != 0 ==> PassingPercent(data) == Infinity
  {
  }

  /** An exam of 40 questions without a stated minimum needs 26 correct answers, 65 percent. */
  lemma FortyQuestionExam(data: RawExam)
    requires TotalOf(data) == 40 && data.minimoAprobacion.None?
    ensures PassingRaw(data) == 26 && PassingPercent(data) == Int(65)
  {
    RoundExact(65, 40);
  }

  /** The exam row of a file. */
  function ExamRowOf(data: RawExam, title: string, capitalised: bool): (row: ExamRow)
    ensures row.title == title && row.description == DescriptionOf(data) && row.category == "ISTQB"
    ensures row.difficulty == DifficultyOf(title, capitalised) && row.durationMinutes == DurationOf(title)
    ensures row.passingScore == PassingPercent(data) && row.totalQuestions == TotalOf(data) && row.isActive
  {
    ExamRow(title, DescriptionOf(data), "ISTQB", DifficultyOf(title, capitalised), DurationOf(title),
            PassingPercent(data), TotalOf(data), true)
  }

  /** `String.fromCharCode(97 + i)`: the code unit `97 + i`, taken modulo 2^16. */
  function LetterCode(i: int): (c: int)
    ensures 0 <= c < 0x1_0000
    ensures 0 <= i < 26 ==> c == 'a' as int + i
  {
    (97 + i) % 0x1_0000
  }

  /** Distinct positions below 2^16 get distinct letters. */
  lemma LetterCodeInjective(i: int, k: int)
    requires 0 <= i < 0x1_0000 && 0 <= k < 0x1_0000
    ensures LetterCode(i) == LetterCode(k) <==> i == k
  {
    var m := 0x1_0000;
    assert 97 + i < m ==> LetterCode(i) == 97 + i;
    assert 97 + i >= m ==> LetterCode(i) == 97 + i - m;
    assert 97 + k < m ==> LetterCode(k) == 97 + k;
    assert 97 + k >= m ==> LetterCode(k) == 97 + k - m;
  }

  /** The correct answer's letter: of the index, or of the first index of an array; an empty
      array gives `fromCharCode(NaN)`, the code unit 0. */
  function CorrectAnswerCode(key: Key): (c: int)
    ensures key.One? ==> c == LetterCode(key.index)
    ensures key.Many? && key.indices != [] ==> c == LetterCode(key.indices[0])
    ensures key == Many([]) ==> c == 0
  {
    match key
    case One(i) => LetterCode(i)
    case Many(s) => if s == [] then 0 else LetterCode(s[0])
  }

  /** Only the first correct option of an array survives the migration. */
  lemma OnlyFirstCorrectOption(i: int, rest: seq<int>)
    ensures CorrectAnswerCode(Many([i] + rest)) == CorrectAnswerCode(One(i))
  {
  }

  /** `opt.replace(/^[a-z]\)\s*\/i, '')`: a leading letter of either case, a `)` and any white
      space after it are removed. */
  function StripPrefix(opt: string): (r: string)
    ensures |r| <= |opt| && r == opt[|opt| - |r|..]
    ensures !(|opt| >= 2 && IsLetter(opt[0]) && opt[1] == ')') ==> r == opt
  {
    if |opt| >= 2 && IsLetter(opt[0]) && opt[1] == ')' then TrimStart(opt[2..]) else opt
  }

  /** A lettered option loses exactly its label: `b)  Text` and `B) Text` become `Text`. */
  lemma StripLabel(letter: char, gap: string, content: string)
    requires IsLetter(letter) && AllSpace(gap)
    requires content == [] || !IsSpace(content[0])
    ensures StripPrefix([letter, ')'] + gap + content) == content
  {
    var s := [letter, ')'] + gap + content;
    assert s[0] == letter && s[1] == ')';
    assert s[2..] == gap + content;
    TrimSpaces(gap, content);
  }

  lemma {:induction false} TrimSpaces(gap: string, content: string)
    requires AllSpace(gap)
    requires content == [] || !IsSpace(content[0])
    ensures TrimStart(gap + content) == content
  {
    if gap != [] {
      assert (gap + content)[1..] == gap[1..] + content;
      TrimSpaces(gap[1..], content);
    } else {
      assert gap + content == content;
    }
  }

  /** The options of a question: ids `a`, `b`, … in order, contents without their labels. */
  function OptionsOf(opciones: seq<string>): (options: seq<MappedOption>)
    ensures |options| == |opciones|
    ensures forall k :: 0 <= k < |opciones| ==>
              options[k] == MappedOption(LetterCode(k), StripPrefix(opciones[k]))
    ensures forall k :: 0 <= k < |opciones| ==>
              |options[k].content| <= |opciones[k]| && options[k].content == opciones[k][|opciones[k]| - |options[k].content|..]
    ensures |opciones| <= 0x1_0000 ==> forall j, k :: 0 <= j < k < |opciones| ==> options[j].id != options[k].id
  {
    var options := seq(|opciones|, k requires 0 <= k < |opciones| => MappedOption(LetterCode(k), StripPrefix(opciones[k])));
    assert |opciones| <= 0x1_0000 ==> forall j, k :: 0 <= j < k < |opciones| ==> options[j].id != options[k].id by {
      if |opciones| <= 0x1_0000 {
        forall j, k | 0 <= j < k < |opciones| ensures options[j].id != options[k].id {
          LetterCodeInjective(j, k);
        }
      }
    }
    options
  }

  /** The correct answer names exactly the option at the correct index (for questions of at
      most 2^16 options). */
  lemma CorrectLetterNamesOption(q: RawQuestion, i: int)
    requires q.respuestaCorrecta == One(i) || (q.respuestaCorrecta.Many? && q.respuestaCorrecta.indices != [] && q.respuestaCorrecta.indices[0] == i)
    requires 0 <= i < |q.opciones| <= 0x1_0000
    ensures forall k :: 0 <= k < |q.opciones| ==>
              (OptionsOf(q.opciones)[k].id == CorrectAnswerCode(q.respuestaCorrecta) <==> k == i)
  {
    forall k | 0 <= k < |q.opciones|
      ensures OptionsOf(q.opciones)[k].id == CorrectAnswerCode(q.respuestaCorrecta) <==> k == i
    {
      LetterCodeInjective(k, i);
    }
  }

  /** `Array.isArray(q.pregunta) ? q.pregunta.join(' ') : q.pregunta`. */
  function QuestionTextOf(p: Prompt): string {
    match p
    case Text(t) => t
    case Parts(ps) => Join(ps, ' ')
  }

  /** Parts without spaces are recovered by splitting the text on spaces. */
  lemma QuestionTextParts(ps: seq<string>)
    requires |ps| >= 1 && forall k :: 0 <= k < |ps| ==> ' ' !in ps[k]
    ensures Split(QuestionTextOf(Parts(ps)), ' ') == ps
  {
    SplitJoin(ps, ' ');
  }

  /** The question row of the question at `index`; `withVideo` says whether the file writes the
      `explanation_video_url` column. */
  function QuestionRowOf(q: RawQuestion, examId: nat, index: nat, withVideo: bool): (row: QuestionRow)
    ensures row.examId == examId && row.orderIndex == index + 1 && row.questionType == "text"
    ensures row.questionText == QuestionTextOf(q.pregunta)
    ensures row.imageUrl == (if Falsy(q.imageUrl) then None else q.imageUrl)
    ensures row.options == OptionsOf(q.opciones) && row.correctAnswer == CorrectAnswerCode(q.respuestaCorrecta)
    ensures row.explanation == q.explicacion
    ensures row.videoUrl == (if withVideo && !Falsy(q.videoExplicacion) then q.videoExplicacion else None)
  {
    QuestionRow(examId, "text", QuestionTextOf(q.pregunta), if Falsy(q.imageUrl) then None else q.imageUrl,
                OptionsOf(q.opciones), CorrectAnswerCode(q.respuestaCorrecta), q.explicacion,
                if withVideo && !Falsy(q.videoExplicacion) then q.videoExplicacion else None, index + 1)
  }

  /** `data.examen.map(...)`: one row per question, in order, numbered from 1. */
  function QuestionRowsOf(examen: seq<RawQuestion>, examId: nat, withVideo: bool): (rows: seq<QuestionRow>)
    ensures |rows| == |examen|
    ensures forall k :: 0 <= k < |examen| ==> rows[k] == QuestionRowOf(examen[k], examId, k, withVideo)
  {
    seq(|examen|, k requires 0 <= k < |examen| => QuestionRowOf(examen[k], examId, k, withVideo))
  }

  /** The rows of one exam carry that exam's id and the order numbers 1 to n, once each. */
  lemma QuestionOrder(examen: seq<RawQuestion>, examId: nat, withVideo: bool)
    ensures var rows := QuestionRowsOf(examen, examId, withVideo);
            (forall k :: 0 <= k < |rows| ==> rows[k].examId == examId && rows[k].orderIndex == k + 1)
            && (forall j, k :: 0 <= j < k < |rows| ==> rows[j].orderIndex < rows[k].orderIndex)
  {
  }

  /** The two tables, as values. */
  datatype Tables = Tables(exams: seq<ExamRow>, questions: seq<QuestionRow>)

  /** One file of the migration, with whether its two inserts fail. */
  datatype Attempt = Attempt(file: ExamFile, examInsertFails: bool, questionsInsertFails: bool)

  /** The loop body for one exam: the tables after it, and whether it counts as a success. A
      file without an exam object or a title throws before any insert; a file without an
      `examen` array throws after its exam row is inserted. */
  function MigrateOne(t: Tables, a: Attempt): (r: (Tables, bool))
    ensures t.exams <= r.0.exams && |r.0.exams| <= |t.exams| + 1
    ensures t.questions <= r.0.questions
    ensures !r.1 ==> r.0.questions == t.questions
    ensures r.1 ==> Unwrap(a.file).Some? && |r.0.exams| == |t.exams| + 1
                    && |r.0.questions| == |t.questions| + TotalOf(Unwrap(a.file).value)
  {
    var data := Unwrap(a.file);
    if data.None? then (t, false)
    else
      var title := TitleOf(data.value);
      if title.None? || a.examInsertFails then (t, false)
      else
        var examId := |t.exams|;
        var t1 := t.(exams := t.exams + [ExamRowOf(data.value, title.value, true)]);
        if data.value.examen.None? || a.questionsInsertFails then (t1, false)
        else (t1.(questions := t1.questions + QuestionRowsOf(data.value.examen.value, examId, false)), true)
  }

  /** The whole loop: the tables and the success and error counts after the attempts. */
  function MigrateAll(t: Tables, attempts: seq<Attempt>): (r: (Tables, nat, nat))
    ensures r.1 + r.2 == |attempts|
  {
    if attempts == [] then (t, 0, 0)
    else
      var prev := MigrateAll(t, attempts[..|attempts| - 1]);
      var step := MigrateOne(prev.0, attempts[|attempts| - 1]);
      (step.0, prev.1 + (if step.1 then 1 else 0), prev.2 + (if step.1 then 0 else 1))
  }

  /** A successful exam adds exactly one exam row and, after everything already there, its
      question rows; a failed one adds at most the exam row, and never any questions. */
  lemma MigrateOneEffect(t: Tables, a: Attempt)
    ensures var (t2, ok) := MigrateOne(t, a);
            (ok ==> |t2.exams| == |t.exams| + 1
                    && t2.exams[..|t.exams|] == t.exams
                    && t2.questions == t.questions + QuestionRowsOf(Unwrap(a.file).value.examen.value, |t.exams|, false))
            && (!ok ==> t2.questions == t.questions && |t.exams| <= |t2.exams| <= |t.exams| + 1
                        && t2.exams[..|t.exams|] == t.exams)
  {
  }

  /** The migration only adds rows: every row already in the tables stays in place. */
  lemma {:induction false} MigrateAllKeepsRows(t: Tables, attempts: seq<Attempt>)
    ensures var t2 := MigrateAll(t, attempts).0;
            |t.exams| <= |t2.exams| && t2.exams[..|t.exams|] == t.exams
            && |t.questions| <= |t2.questions| && t2.questions[..|t.questions|] == t.questions
  {
    if attempts != [] {
      var init := attempts[..|attempts| - 1];
      MigrateAllKeepsRows(t, init);
      var prev := MigrateAll(t, init).0;
      MigrateOneEffect(prev, attempts[|attempts| - 1]);
      var t2 := MigrateAll(t, attempts).0;
      assert t2.exams[..|prev.exams|] == prev.exams;
      assert t2.exams[..|t.exams|] == t2.exams[..|prev.exams|][..|t.exams|];
      assert t2.questions[..|prev.questions|] == prev.questions;
      assert t2.questions[..|t.questions|] == t2.questions[..|prev.questions|][..|t.questions|];
    }
  }

  /** The `exams` and `questions` tables of the database. */
  class Database {
    var exams: seq<ExamRow>
    var questions: seq<QuestionRow>

    constructor (exams: seq<ExamRow>, questions: seq<QuestionRow>)
      ensures this.exams == exams && this.questions == questions
    {
      this.exams, this.questions := exams, questions;
    }

    function Snapshot(): Tables
      reads this
    {
      Tables(exams, questions)
    }

    /** `migrateExams`: the loop over the exam files, counting successes and errors. */
    method MigrateExams(attempts: seq<Attempt>) returns (successCount: nat, errorCount: nat)
      modifies this
      ensures (Snapshot(), successCount, errorCount) == MigrateAll(old(Snapshot()), attempts)
      ensures successCount + errorCount == |attempts|
    {
      successCount, errorCount := 0, 0;
      var i := 0;
      while i < |attempts|
        invariant 0 <= i <= |attempts|
        invariant (Snapshot(), successCount, errorCount) == MigrateAll(old(Snapshot()), attempts[..i])
      {
        assert attempts[..i + 1][..i] == attempts[..i];
        ghost var before := Snapshot();
        var a := attempts[i];
        var data := Unwrap(a.file);
        var title := if data.Some? then TitleOf(data.value) else None;
        if data.None? || title.None? {
          errorCount := errorCount + 1;
        } else if a.examInsertFails {
          errorCount := errorCount + 1;
        } else {
          var examId := |exams|;
          exams := exams + [ExamRowOf(data.value, title.value, true)];
          if data.value.examen.None? || a.questionsInsertFails {
            errorCount := errorCount + 1;
          } else {
            questions := questions + QuestionRowsOf(data.value.examen.value, examId, false);
            successCount := successCount + 1;
          }
        }
        assert MigrateOne(before, a).0 == Snapshot();
        i := i + 1;
      }
      assert attempts[..i] == attempts;
    }
  }
}
