/**
 * routes/videoExams.js: POST /api/video-exams saves an uploaded video,
 * its exam and the exam's questions in one transaction. Every failure,
 * a missing field included, is thrown inside the transaction, rolled
 * back, and answered 500 by the application's error handler.
 */
module VideoExams {
  import opened Wrappers
  import opened Text
  import opened JsValue
  import opened Http
  import opened Store
  import opened Videos
  import opened Exams

  /** The form fields of the combined upload. */
  datatype ComboForm = ComboForm(
    title: Field, desc: Field, uploader: Field, tags: FormTags,
    examTitle: Field, author: Field, tag: Field, department: Field, questions: QuestionsInput)

  /** What a successful upload answers. */
  datatype Created = Created(videoId: int, examId: int, url: string)

  /** The original file name, or "upload.bin" when it is empty. */
  function ComboFileName(f: UploadedFile): (r: string)
    ensures r != [] && (f.originalName != [] ==> r == f.originalName)
  {
    if f.originalName != [] then f.originalName else "upload.bin"
  }

  /** The video row as first inserted, before its url is set. */
  function ComboVideo(f: UploadedFile, form: ComboForm): (v: Video)
    requires Truthy(form.title) && Truthy(form.uploader)
    ensures v.sizeBytes == |f.buffer| && v.content == Some(f.buffer) && v.url.None?
    ensures v.title == form.title.text && v.uploader == form.uploader.text && v.tags == TagsArray(form.tags)
  {
    Video(form.title.text, if Truthy(form.desc) then Some(form.desc.text) else None, form.uploader.text,
          TagsArray(form.tags), ComboFileName(f), FileType(f), |f.buffer|, Some(f.buffer), None)
  }

  predicate ComboExamGiven(form: ComboForm) {
    Truthy(form.examTitle) && Truthy(form.author) && Truthy(form.tag) && Truthy(form.department)
  }

  function ComboExam(videoId: int, form: ComboForm): (e: Exam)
    requires ComboExamGiven(form)
    ensures e.videoId == videoId
    ensures Trim(e.title) == e.title && Trim(e.author) == e.author && Trim(e.tag) == e.tag && Trim(e.department) == e.department
  {
    TrimIdempotent(form.examTitle.text);
    TrimIdempotent(form.author.text);
    TrimIdempotent(form.tag.text);
    TrimIdempotent(form.department.text);
    Exam(videoId, Trim(form.examTitle.text), Trim(form.author.text), Trim(form.tag.text), Trim(form.department.text))
  }

  /** What a character of a string is when read as a question: a value with none of the keys. */
  const NoKeys := QuestionInput(Undefined, Undefined, Undefined, Undefined, Undefined, Undefined)

  /** One `NoKeys` per character, as iterating a string yields its characters. */
  function CharItems(text: string): (r: seq<QuestionInput>)
    ensures |r| == |text| && forall k :: 0 <= k < |r| ==> r[k] == NoKeys
  {
    if text == [] then [] else [NoKeys] + CharItems(text[1..])
  }

  /**
   * The questions the loop walks over: a string is parsed, a falsy value
   * is no questions. A parsed array is walked as it is, a parsed string
   * character by character. A parse that throws, or a value that cannot
   * be iterated, is None (an error).
   */
  function ComboItems(qs: QuestionsInput): (r: Option<seq<QuestionInput>>)
    ensures qs.QuestionArray? ==> r == Some(qs.items)
    ensures qs.QuestionString? && qs.parsed.Some? && qs.parsed.value.ParsedArray? ==> r == Some(qs.parsed.value.items)
    ensures qs.QuestionString? && qs.parsed.Some? && qs.parsed.value.ParsedString? ==>
      r.Some? && |r.value| == |qs.parsed.value.text| && forall k :: 0 <= k < |r.value| ==> r.value[k] == NoKeys
    ensures qs.QuestionsAbsent? ==> r == Some([])
    ensures qs.QuestionsOther? || qs == QuestionString(None) || qs == QuestionString(Some(ParsedOther)) ==> r.None?
  {
    match qs
    case QuestionArray(items) => Some(items)
    case QuestionString(Some(ParsedArray(items))) => Some(items)
    case QuestionString(Some(ParsedString(text))) => Some(CharItems(text))
    case QuestionString(_) => None
    case QuestionsAbsent => Some([])
    case QuestionsOther => None
  }

  /** A string that parses to a non-empty string gives a first question with no text, which NOT NULL refuses. */
  lemma ParsedStringFails(text: string)
    requires text != []
    ensures var items := ComboItems(QuestionString(Some(ParsedString(text))));
            items.Some? && |items.value| > 0 && ComboText(items.value[0]).None?
  {
  }

  /** The question text as bound, from either spelling: None is NULL, which the NOT NULL column refuses. */
  function ComboText(x: QuestionInput): (r: Option<string>)
    ensures r.Some? <==> x.q.Str? || x.questionText.Str?
  {
    Nullable(Coalesce(x.q, x.questionText))
  }

  /** The row of one question, for a question that has its text. */
  function ComboQuestion(examId: int, x: QuestionInput): (r: Question)
    ensures r.examId == examId && (ComboText(x).Some? ==> r.text == ComboText(x).value)
  {
    Question(examId, ComboText(x).GetOr(""), Nullable(Coalesce(x.a, x.answerText)), Nullable(Coalesce(x.image, x.imageUrl)))
  }

  function ComboRows(first: int, examId: int, items: seq<QuestionInput>): (r: seq<QuestionRow>)
    ensures |r| == |items|
    ensures forall k :: 0 <= k < |r| ==> r[k].id == first + k && r[k].question == ComboQuestion(examId, items[k])
  {
    seq(|items|, k requires 0 <= k < |items| => QuestionRow(first + k, ComboQuestion(examId, items[k])))
  }

  lemma ComboRowsAfter(before: seq<QuestionRow>, first: int, examId: int, items: seq<QuestionInput>, k: nat)
    requires k < |items|
    ensures before + ComboRows(first, examId, items[..k + 1])
      == (before + ComboRows(first, examId, items[..k])) + [QuestionRow(first + k, ComboQuestion(examId, items[k]))]
  {
    assert ComboRows(first, examId, items[..k + 1])
      == ComboRows(first, examId, items[..k]) + [QuestionRow(first + k, ComboQuestion(examId, items[k]))];
  }

  /** The insert of question `k` fails: the database rejects it, or the question has no text. */
  predicate QuestionFails(fault: Option<Stmt>, items: seq<QuestionInput>, k: nat)
    requires k < |items|
  {
    fault == Some(InsertQuestionRow(k)) || ComboText(items[k]).None?
  }

  /** The video row and its url are saved. */
  predicate VideoSaved(file: Option<UploadedFile>, form: ComboForm, fault: Option<Stmt>) {
    file.Some? && Truthy(form.title) && Truthy(form.uploader)
    && fault != Some(InsertVideoRow(0)) && fault != Some(SetVideoUrl(0))
  }

  /** The exam row is saved too. */
  predicate ExamSaved(file: Option<UploadedFile>, form: ComboForm, fault: Option<Stmt>) {
    VideoSaved(file, form, fault) && ComboExamGiven(form) && fault != Some(InsertExamRow)
  }

  /** Everything is saved and the transaction commits. */
  predicate Saved(file: Option<UploadedFile>, form: ComboForm, fault: Option<Stmt>) {
    && ExamSaved(file, form, fault) && ComboItems(form.questions).Some?
    && forall k :: 0 <= k < |ComboItems(form.questions).value| ==> !QuestionFails(fault, ComboItems(form.questions).value, k)
  }

  /**
   * POST /api/video-exams. The transaction is opened first; the file and
   * the title and uploader are checked, the video is inserted and its url
   * set, and only then are the exam fields checked, so a missing exam
   * field rolls back a video row that was already inserted (its id is
   * used up). Then the exam and the questions, in order, are inserted.
   */
  method PostVideoExam(db: Database, file: Option<UploadedFile>, form: ComboForm, base: string, fault: Option<Stmt>)
    returns (reply: Reply<Created>)
    requires db.Valid()
    modifies db`t, db`serial, db`openTx
    ensures db.Valid() && db.openTx == old(db.openTx)
    ensures db.serial == old(db.serial).(video := db.serial.video, exam := db.serial.exam, question := db.serial.question)
    ensures NoLater(old(db.serial), db.serial)
    ensures reply.Failed? ==> reply == Failed(500, Internal) && db.t == old(db.t)
    ensures reply.Done? <==> Saved(file, form, fault)
    ensures VideoSaved(file, form, fault) && !ComboExamGiven(form) ==>
      reply.Failed? && db.serial.video == old(db.serial.video) + 1
    ensures reply.Done? ==>
      && var videoId := old(db.serial.video);
      && var examId := old(db.serial.exam);
      && var url := VideoUrl(base, videoId);
      && reply == Done(201, Created(videoId, examId, url))
      && db.t == old(db.t).(
           videos := old(db.t.videos)[videoId := ComboVideo(file.value, form).(url := Some(url))],
           exams := old(db.t.exams) + [ExamRow(examId, ComboExam(videoId, form))],
           questions := old(db.t.questions) + ComboRows(old(db.serial.question), examId, ComboItems(form.questions).value))
  {
    db.Begin();
    var snapshot := db.t;
    var saved, videoId, url := SaveComboVideo(db, snapshot, file, form, base, fault);
    if !saved {
      return Failed(500, Internal);
    }
    var ok, examId := SaveComboExam(db, snapshot, videoId, form, fault);
    if !ok {
      return Failed(500, Internal);
    }
    reply := Done(201, Created(videoId, examId, url));
  }

  /**
   * The first half of the combined upload, inside the open transaction:
   * the file, the title and the uploader are checked, the video is
   * inserted and its url set. A failure rolls back to `snapshot`.
   */
  method SaveComboVideo(db: Database, snapshot: Tables, file: Option<UploadedFile>, form: ComboForm, base: string, fault: Option<Stmt>)
    returns (ok: bool, videoId: int, url: string)
    requires db.Valid() && db.openTx > 0 && db.t == snapshot
    modifies db`t, db`serial, db`openTx
    ensures db.Valid() && Fits(snapshot, db.serial)
    ensures db.serial == old(db.serial).(video := db.serial.video) && NoLater(old(db.serial), db.serial)
    ensures ok <==> VideoSaved(file, form, fault)
    ensures !ok ==> db.t == snapshot && db.openTx == old(db.openTx) - 1
    ensures ok ==>
      && db.openTx == old(db.openTx)
      && videoId == old(db.serial.video) && db.serial.video == videoId + 1
      && url == VideoUrl(base, videoId)
      && db.t == snapshot.(videos := snapshot.videos[videoId := ComboVideo(file.value, form).(url := Some(url))])
      && videoId !in ExamVideos(db.t.exams)
  {
    ghost var s0 := db.serial;
    if file.None? || !Truthy(form.title) || !Truthy(form.uploader) || fault == Some(InsertVideoRow(0)) {
      db.Rollback(snapshot);
      return false, 0, "";
    }
    videoId := db.InsertVideo(ComboVideo(file.value, form));
    FitsLater(snapshot, s0, db.serial);
    url := VideoUrl(base, videoId);
    if fault == Some(SetVideoUrl(0)) {
      db.Rollback(snapshot);
      return false, videoId, url;
    }
    db.SetVideoUrl(videoId, url);
    assert videoId !in ExamVideos(db.t.exams) by {
      assert ExamVideos(snapshot.exams) <= snapshot.videos.Keys;
    }
    ok := true;
  }

  /**
   * The second half of the combined upload, once the video row is in:
   * the exam fields are checked, the exam is inserted, the question list
   * is read and the questions are saved. Any failure rolls back to
   * `snapshot`; success commits.
   */
  method SaveComboExam(db: Database, snapshot: Tables, videoId: int, form: ComboForm, fault: Option<Stmt>)
    returns (ok: bool, examId: int)
    requires db.Valid() && db.openTx > 0 && Consistent(snapshot) && Fits(snapshot, db.serial)
    requires videoId in db.t.videos && videoId !in ExamVideos(db.t.exams)
    modifies db`t, db`serial, db`openTx
    ensures db.Valid() && db.openTx == old(db.openTx) - 1
    ensures db.serial == old(db.serial).(exam := db.serial.exam, question := db.serial.question)
    ensures NoLater(old(db.serial), db.serial)
    ensures ok <==> && ComboExamGiven(form) && fault != Some(InsertExamRow) && ComboItems(form.questions).Some?
                    && forall k :: 0 <= k < |ComboItems(form.questions).value| ==>
                         !QuestionFails(fault, ComboItems(form.questions).value, k)
    ensures !ok ==> db.t == snapshot
    ensures ok ==>
      && examId == old(db.serial.exam)
      && db.t == old(db.t).(
           exams := old(db.t.exams) + [ExamRow(examId, ComboExam(videoId, form))],
           questions := old(db.t.questions) + ComboRows(old(db.serial.question), examId, ComboItems(form.questions).value))
  {
    if !ComboExamGiven(form) || fault == Some(InsertExamRow) {
      db.Rollback(snapshot);
      return false, 0;
    }
    ghost var s := db.serial;
    examId := db.InsertExam(ComboExam(videoId, form));
    assert db.t.exams[|db.t.exams| - 1] == ExamRow(examId, ComboExam(videoId, form));
    FitsLater(snapshot, s, db.serial);
    var items := ComboItems(form.questions);
    if items.None? {
      db.Rollback(snapshot);
      return false, examId;
    }
    ok := SaveComboQuestions(db, snapshot, examId, items.value, fault);
  }

  /**
   * The question loop and the commit: on success the questions are
   * appended in order and the transaction commits; a failing insert rolls
   * back to `snapshot`, the tables before the transaction.
   */
  method SaveComboQuestions(db: Database, snapshot: Tables, examId: int, items: seq<QuestionInput>, fault: Option<Stmt>)
    returns (ok: bool)
    requires db.Valid() && db.openTx > 0 && Consistent(snapshot) && Fits(snapshot, db.serial)
    requires examId in ExamIds(db.t.exams)
    modifies db`t, db`serial, db`openTx
    ensures db.Valid() && db.openTx == old(db.openTx) - 1
    ensures db.serial == old(db.serial).(question := db.serial.question) && NoLater(old(db.serial), db.serial)
    ensures ok <==> forall k :: 0 <= k < |items| ==> !QuestionFails(fault, items, k)
    ensures !ok ==> db.t == snapshot
    ensures ok ==> db.t == old(db.t).(questions := old(db.t.questions) + ComboRows(old(db.serial.question), examId, items))
  {
    ghost var mid := db.t;
    ghost var tx := db.openTx;
    var k := 0;
    while k < |items|
      invariant 0 <= k <= |items|
      invariant Inserting(db, snapshot, mid, old(db.serial), tx, examId, items, k, fault)
    {
      ok := InsertComboQuestion(db, snapshot, mid, old(db.serial), tx, examId, items, k, fault);
      if !ok {
        return;
      }
      k := k + 1;
    }
    assert items[..k] == items;
    db.Commit();
    ok := true;
  }

  /** The state after `k` question inserts: `mid` with the first `k` rows appended. */
  ghost predicate Inserting(db: Database, snapshot: Tables, mid: Tables, s0: Serials, tx: nat,
                            examId: int, items: seq<QuestionInput>, k: nat, fault: Option<Stmt>)
    reads db
  {
    && k <= |items| && db.Valid() && db.openTx == tx && tx > 0
    && Consistent(snapshot) && Fits(snapshot, db.serial) && examId in ExamIds(mid.exams)
    && db.serial == s0.(question := s0.question + k)
    && db.t == mid.(questions := db.t.questions)
    && db.t.questions == mid.questions + ComboRows(s0.question, examId, items[..k])
    && forall i :: 0 <= i < k ==> !QuestionFails(fault, items, i)
  }

  /** One turn of the question loop: the next question is inserted, or the transaction is rolled back. */
  method InsertComboQuestion(db: Database, snapshot: Tables, ghost mid: Tables, ghost s0: Serials, ghost tx: nat,
                             examId: int, items: seq<QuestionInput>, k: nat, fault: Option<Stmt>)
    returns (ok: bool)
    requires k < |items| && Inserting(db, snapshot, mid, s0, tx, examId, items, k, fault)
    modifies db`t, db`serial, db`openTx
    ensures ok <==> !QuestionFails(fault, items, k)
    ensures ok ==> Inserting(db, snapshot, mid, s0, tx, examId, items, k + 1, fault)
    ensures !ok ==> db.Valid() && db.t == snapshot && db.openTx == tx - 1 && db.serial == old(db.serial)
  {
    if QuestionFails(fault, items, k) {
      db.Rollback(snapshot);
      return false;
    }
    ghost var s := db.serial;
    var id := db.InsertQuestion(ComboQuestion(examId, items[k]));
    FitsLater(snapshot, s, db.serial);
    ComboRowsAfter(mid.questions, s0.question, examId, items, k);
    ok := true;
  }
}
