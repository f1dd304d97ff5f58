/** The migration of uploaded exam files into the testifyhq database: like the bundled
    migration, but an exam whose title is already in the database is updated in place and its
    questions replaced, and the run reports how many files succeeded, failed and were updates,
    with one line of detail per event. */
module FileMigration {
  import opened Wrappers
  import opened ExamMigration

  /** One uploaded file: its name, its parsed content (`None` when it cannot be read or is not
      JSON), and whether each database call fails. */
  datatype FileAttempt = FileAttempt(name: string, content: Option<ExamFile>,
                                     checkFails: bool, updateFails: bool, deleteFails: bool,
                                     insertFails: bool, questionsInsertFails: bool)

  /** One pushed line of `details`, by kind. */
  datatype Detail =
    | CheckFailed(file: string)
    | UpdateFailed(file: string)
    | Updated(file: string, title: string)
    | CreateFailed(file: string)
    | QuestionsFailed(file: string)
    | Migrated(file: string, title: string, count: nat)
    | Unexpected(file: string)

  datatype MigrationResult = MigrationResult(success: nat, errors: nat, duplicates: nat, details: seq<Detail>)

  /** The positions of the exams with this title, in order. */
  function Matches(exams: seq<ExamRow>, title: string): (ids: seq<nat>)
    ensures forall j: nat :: j in ids <==> j < |exams| && exams[j].title == title
    ensures forall k :: 0 <= k < |ids| ==> ids[k] < |exams|
  {
    if exams == [] then []
    else
      var init := exams[..|exams| - 1];
      assert forall j: nat :: j < |init| ==> init[j] == exams[j];
      Matches(init, title) + (if exams[|exams| - 1].title == title then [|exams| - 1] else [])
  }

  /** `delete().eq('exam_id', id)`: every question of the exam is removed, and no other. */
  function RemoveQuestions(qs: seq<QuestionRow>, examId: nat): (r: seq<QuestionRow>)
    ensures forall q :: q in r <==> q in qs && q.examId != examId
  {
    if qs == [] then []
    else
      var init, last := qs[..|qs| - 1], qs[|qs| - 1];
      assert qs == init + [last];
      RemoveQuestions(init, examId) + (if last.examId != examId then [last] else [])
  }

  function Fail(r: MigrationResult, d: Detail): (r2: MigrationResult)
    ensures r2.errors == r.errors + 1 && r2.details == r.details + [d]
    ensures r2.success == r.success && r2.duplicates == r.duplicates
  {
    r.(errors := r.errors + 1, details := r.details + [d])
  }

  /** The end of the loop body, once the exam row is written and its id known: mapping the
      questions throws without an `examen` array, and the questions insert may fail. */
  function Finish(t: Tables, r: MigrationResult, f: FileAttempt, data: RawExam, title: string,
                  examId: nat): (out: (Tables, MigrationResult))
    ensures out.1.success + out.1.errors == r.success + r.errors + 1
    ensures out.1.duplicates == r.duplicates && |out.1.details| == |r.details| + 1
  {
    if data.examen.None? then (t, Fail(r, Unexpected(f.name)))
    else if f.questionsInsertFails then (t, Fail(r, QuestionsFailed(f.name)))
    else
      var rows := QuestionRowsOf(data.examen.value, examId, true);
      (t.(questions := t.questions + rows),
       r.(success := r.success + 1, details := r.details + [Migrated(f.name, title, |rows|)]))
  }

  /** Whether the file updates an existing exam: its title is that of exactly one exam and the
      check and the update both succeed. */
  predicate UpdatesExisting(t: Tables, f: FileAttempt) {
    var data := if f.content.Some? then Unwrap(f.content.value) else None;
    var title := if data.Some? then TitleOf(data.value) else None;
    title.Some? && !f.checkFails && |Matches(t.exams, title.value)| == 1 && !f.updateFails
  }

  /** The loop body for one file. `maybeSingle` fails when more than one exam has the title. */
  function MigrateFile(t: Tables, r: MigrationResult, f: FileAttempt): (out: (Tables, MigrationResult))
    ensures out.1.success + out.1.errors == r.success + r.errors + 1
    ensures out.1.duplicates == r.duplicates + (if UpdatesExisting(t, f) then 1 else 0)
    ensures |out.1.details| == |r.details| + 1 + (if UpdatesExisting(t, f) then 1 else 0)
  {
    var data := if f.content.Some? then Unwrap(f.content.value) else None;
    var title := if data.Some? then TitleOf(data.value) else None;
    if title.None? then (t, Fail(r, Unexpected(f.name)))
    else
      var m := Matches(t.exams, title.value);
      var row := ExamRowOf(data.value, title.value, false);
      if f.checkFails || |m| > 1 then (t, Fail(r, CheckFailed(f.name)))
      else if |m| == 1 then
        if f.updateFails then (t, Fail(r, UpdateFailed(f.name)))
        else
          var id := m[0];
          var t1 := Tables(t.exams[id := row], if f.deleteFails then t.questions else RemoveQuestions(t.questions, id));
          Finish(t1, r.(duplicates := r.duplicates + 1, details := r.details + [Updated(f.name, title.value)]),
                 f, data.value, title.value, id)
      else if f.insertFails then (t, Fail(r, CreateFailed(f.name)))
      else Finish(Tables(t.exams + [row], t.questions), r, f, data.value, title.value, |t.exams|)
  }

  function Initial(): MigrationResult { MigrationResult(0, 0, 0, []) }

  /** `migrateExamsFromFiles`: the tables and the result after the files, in order. */
  function MigrateFiles(t: Tables, files: seq<FileAttempt>): (r: (Tables, MigrationResult))
    ensures r.1.success + r.1.errors == |files|
  {
    if files == [] then (t, Initial())
    else
      var prev := MigrateFiles(t, files[..|files| - 1]);
      MigrateFile(prev.0, prev.1, files[|files| - 1])
  }

  /** Over a whole run, the successes and errors add up to the number of files, and there is
      one line of detail per file and one more per update. */
  lemma {:induction false} RunCounts(t: Tables, files: seq<FileAttempt>)
    ensures var r := MigrateFiles(t, files).1;
            r.success + r.errors == |files| && r.duplicates <= |files|
            && |r.details| == r.success + r.errors + r.duplicates
  {
    if files != [] {
      var init := files[..|files| - 1];
      RunCounts(t, init);
    }
  }

  /** A successful update keeps the exam in its place and replaces its questions: afterwards
      the exam's questions are exactly the new ones, and every other exam keeps its own. */
  lemma UpdateReplacesQuestions(t: Tables, r: MigrationResult, f: FileAttempt)
    requires UpdatesExisting(t, f) && !f.deleteFails && !f.questionsInsertFails
    requires Unwrap(f.content.value).value.examen.Some?
    ensures var data := Unwrap(f.content.value).value;
            var id := Matches(t.exams, TitleOf(data).value)[0];
            var rows := QuestionRowsOf(data.examen.value, id, true);
            var t2 := MigrateFile(t, r, f).0;
            |t2.exams| == |t.exams| && t2.exams[id] == ExamRowOf(data, TitleOf(data).value, false)
            && (forall q :: q in t2.questions && q.examId == id <==> q in rows)
            && (forall q :: q in t.questions && q.examId != id ==> q in t2.questions)
  {
    var data := Unwrap(f.content.value).value;
    var id := Matches(t.exams, TitleOf(data).value)[0];
    var rows := QuestionRowsOf(data.examen.value, id, true);
    assert forall q :: q in rows ==> q.examId == id;
  }

  /** When the delete fails the update goes on, and the old questions stay beside the new. */
  lemma FailedDeleteKeepsOldQuestions(t: Tables, r: MigrationResult, f: FileAttempt)
    requires UpdatesExisting(t, f) && f.deleteFails && !f.questionsInsertFails
    requires Unwrap(f.content.value).value.examen.Some?
    ensures var data := Unwrap(f.content.value).value;
            var id := Matches(t.exams, TitleOf(data).value)[0];
            var t2 := MigrateFile(t, r, f).0;
            (forall q :: q in t.questions ==> q in t2.questions)
            && (forall q :: q in QuestionRowsOf(data.examen.value, id, true) ==> q in t2.questions)
            && MigrateFile(t, r, f).1.success == r.success + 1
  {
  }

  /** A new title adds one exam at the end, and its questions refer to it. */
  lemma NewTitleAppends(t: Tables, r: MigrationResult, f: FileAttempt)
    requires f.content.Some? && Unwrap(f.content.value).Some? && TitleOf(Unwrap(f.content.value).value).Some?
    requires Matches(t.exams, TitleOf(Unwrap(f.content.value).value).value) == []
    requires !f.checkFails && !f.insertFails
    ensures var t2 := MigrateFile(t, r, f).0;
            |t2.exams| == |t.exams| + 1 && t2.exams[..|t.exams|] == t.exams
            && (forall q :: q in t2.questions && q !in t.questions ==> q.examId == |t.exams|)
            && MigrateFile(t, r, f).1.duplicates == r.duplicates
  {
    var data := Unwrap(f.content.value).value;
    if data.examen.Some? {
      var rows := QuestionRowsOf(data.examen.value, |t.exams|, true);
      assert forall q :: q in rows ==> q.examId == |t.exams|;
    }
  }

  /** The loop over the files. */
  method MigrateExamsFromFiles(db: Database, files: seq<FileAttempt>) returns (result: MigrationResult)
    modifies db
    ensures (db.Snapshot(), result) == MigrateFiles(old(db.Snapshot()), files)
    ensures result.success + result.errors == |files|
  {
    result := Initial();
    var i := 0;
    while i < |files|
      invariant 0 <= i <= |files|
      invariant (db.Snapshot(), result) == MigrateFiles(old(db.Snapshot()), files[..i])
    {
      assert files[..i + 1][..i] == files[..i];
      result := MigrateOneFile(db, result, files[i]);
      i := i + 1;
    }
    assert files[..i] == files;
    RunCounts(old(db.Snapshot()), files);
  }

  /** The body of the loop: the duplicate check, then the update (with the replacement of the
      questions) or the insert, then the questions. */
  method MigrateOneFile(db: Database, r: MigrationResult, f: FileAttempt) returns (result: MigrationResult)
    modifies db
    ensures (db.Snapshot(), result) == MigrateFile(old(db.Snapshot()), r, f)
  {
    result := r;
    var data := if f.content.Some? then Unwrap(f.content.value) else None;
    var title := if data.Some? then TitleOf(data.value) else None;
    if title.None? {
      return Fail(result, Unexpected(f.name));
    }
    var existing := Matches(db.exams, title.value);
    if f.checkFails || |existing| > 1 {
      return Fail(result, CheckFailed(f.name));
    }
    var row := ExamRowOf(data.value, title.value, false);
    if |existing| == 1 {
      if f.updateFails {
        return Fail(result, UpdateFailed(f.name));
      }
      var examId := existing[0];
      db.exams := db.exams[examId := row];
      if !f.deleteFails {
        db.questions := RemoveQuestions(db.questions, examId);
      }
      result := result.(duplicates := result.duplicates + 1,
                        details := result.details + [Updated(f.name, title.value)]);
      result := FinishOneFile(db, result, f, data.value, title.value, examId);
    } else {
      if f.insertFails {
        return Fail(result, CreateFailed(f.name));
      }
      var examId := |db.exams|;
      db.exams := db.exams + [row];
      result := FinishOneFile(db, result, f, data.value, title.value, examId);
    }
  }

  /** The end of the loop body: the questions are mapped and inserted under the exam's id. */
  method FinishOneFile(db: Database, r: MigrationResult, f: FileAttempt, data: RawExam, title: string,
                       examId: nat) returns (result: MigrationResult)
    modifies db
    ensures (db.Snapshot(), result) == Finish(old(db.Snapshot()), r, f, data, title, examId)
  {
    if data.examen.None? {
      return Fail(r, Unexpected(f.name));
    }
    if f.questionsInsertFails {
      return Fail(r, QuestionsFailed(f.name));
    }
    var rows := QuestionRowsOf(data.examen.value, examId, true);
    db.questions := db.questions + rows;
    result := r.(success := r.success + 1, details := r.details + [Migrated(f.name, title, |rows|)]);
  }
}
