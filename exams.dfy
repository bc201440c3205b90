/**
 * routes/exams.js: POST /api/exams creates the exam of a video with its
 * questions and marks the video with the tag "SINAVLI"; GET
 * /api/exams/:videoId reads a video's exam back with its questions.
 */
module Exams {
  import opened Wrappers
  import opened Text
  import opened JsValue
  import opened Http
  import opened Store

  /* ----------------------------------------------------------- request */

  /** One element of `questions`; each key may come in either of its two spellings. */
  datatype QuestionInput = QuestionInput(
    q: Field, questionText: Field, a: Field, answerText: Field, image: Field, imageUrl: Field)

  /** What `JSON.parse` makes of a `questions` string: an array, a string, or some other value. */
  datatype Parsed = ParsedArray(items: seq<QuestionInput>) | ParsedString(text: string) | ParsedOther

  /**
   * The `questions` body field: an array, a string together with what
   * parsing it gives (None when the parse throws), missing or another
   * falsy value (null, false, 0), or any other value.
   */
  datatype QuestionsInput =
    | QuestionArray(items: seq<QuestionInput>)
    | QuestionString(parsed: Option<Parsed>)
    | QuestionsAbsent
    | QuestionsOther

  datatype ExamBody = ExamBody(
    videoId: Field, examTitle: Field, author: Field, tag: Field, department: Field, questions: QuestionsInput)

  /** The questions once a string has been parsed, when they are an array. */
  function QuestionItems(qs: QuestionsInput): Option<seq<QuestionInput>> {
    match qs
    case QuestionArray(items) => Some(items)
    case QuestionString(Some(ParsedArray(items))) => Some(items)
    case _ => None
  }

  /** The outcome of the checks the handler makes before it opens a transaction. */
  datatype Checked = Rejected(problem: Problem) | Accepted(exam: Exam, items: seq<QuestionInput>)

  predicate FieldsGiven(b: ExamBody) {
    Truthy(b.examTitle) && Truthy(b.author) && Truthy(b.tag) && Truthy(b.department)
  }

  /**
   * The checks, in the handler's order: the video id, then the JSON of a
   * questions string, then a non-empty questions array, then the four
   * exam fields. The first failing check is the one reported, always
   * with 400. The stored texts are trimmed.
   */
  function Check(b: ExamBody): (r: Checked)
    ensures r == Rejected(InvalidVideoId) <==> ParseInt(ToText(b.videoId)).None?
    ensures r == Rejected(QuestionsNotJson) <==>
      ParseInt(ToText(b.videoId)).Some? && b.questions == QuestionString(None)
    ensures r == Rejected(NoQuestions) <==>
      ParseInt(ToText(b.videoId)).Some? && b.questions != QuestionString(None)
      && (QuestionItems(b.questions).None? || QuestionItems(b.questions) == Some([]))
    ensures r == Rejected(MissingExamFields) <==>
      ParseInt(ToText(b.videoId)).Some? && QuestionItems(b.questions).Some?
      && QuestionItems(b.questions) != Some([]) && !FieldsGiven(b)
    ensures r.Rejected? ==> r.problem in {InvalidVideoId, QuestionsNotJson, NoQuestions, MissingExamFields}
    ensures r.Accepted? ==>
      && Some(r.exam.videoId) == ParseInt(ToText(b.videoId))
      && Some(r.items) == QuestionItems(b.questions) && r.items != []
      && FieldsGiven(b)
      && r.exam.title == Trim(b.examTitle.text) && r.exam.author == Trim(b.author.text)
      && r.exam.tag == Trim(b.tag.text) && r.exam.department == Trim(b.department.text)
  {
    var vId := ParseInt(ToText(b.videoId));
    if vId.None? then Rejected(InvalidVideoId)
    else if b.questions == QuestionString(None) then Rejected(QuestionsNotJson)
    else if QuestionItems(b.questions).None? || QuestionItems(b.questions) == Some([]) then Rejected(NoQuestions)
    else if !FieldsGiven(b) then Rejected(MissingExamFields)
    else
      Accepted(
        Exam(vId.value, Trim(b.examTitle.text), Trim(b.author.text), Trim(b.tag.text), Trim(b.department.text)),
        QuestionItems(b.questions).value)
  }

  /** The exam texts are stored trimmed: trimming them again changes nothing. */
  lemma CheckTrimmed(b: ExamBody)
    requires Check(b).Accepted?
    ensures var e := Check(b).exam;
      Trim(e.title) == e.title && Trim(e.author) == e.author && Trim(e.tag) == e.tag && Trim(e.department) == e.department
  {
    TrimIdempotent(b.examTitle.text);
    TrimIdempotent(b.author.text);
    TrimIdempotent(b.tag.text);
    TrimIdempotent(b.department.text);
  }

  /** Sending the questions as the JSON text of an array is the same as sending the array. */
  lemma CheckJsonArray(b: ExamBody, items: seq<QuestionInput>)
    ensures Check(b.(questions := QuestionString(Some(ParsedArray(items)))))
      == Check(b.(questions := QuestionArray(items)))
  {
  }

  /** A video id sent as the decimal text of an integer is read as that integer. */
  lemma CheckVideoId(b: ExamBody, i: int)
    requires b.videoId == Str(IntToDecimal(i))
    ensures Check(b) != Rejected(InvalidVideoId)
    ensures Check(b).Accepted? ==> Check(b).exam.videoId == i
  {
    ParseIntOfDecimal(i);
  }

  /* --------------------------------------------------------- questions */

  /** The first of `x` and `y` that is neither missing nor null, as text, else "": an empty string is kept, not passed over. */
  function Pick(x: Field, y: Field): (r: string)
    ensures x.Str? ==> r == x.text
    ensures !x.Str? && y.Str? ==> r == y.text
    ensures !x.Str? && !y.Str? ==> r == ""
  {
    Coalesce(Coalesce(x, y), Str("")).text
  }

  /** The row stored for one question of exam `examId`. */
  function QuestionOf(examId: int, x: QuestionInput): (r: Question)
    ensures r.examId == examId && r.answer.Some?
  {
    Question(examId, Pick(x.q, x.questionText), Some(Pick(x.a, x.answerText)), Nullable(Coalesce(x.image, x.imageUrl)))
  }

  /** The rows the question loop inserts: consecutive ids from `first`, in input order. */
  function QuestionRows(first: int, examId: int, items: seq<QuestionInput>): (r: seq<QuestionRow>)
    ensures |r| == |items|
    ensures forall k :: 0 <= k < |r| ==> r[k].id == first + k && r[k].question == QuestionOf(examId, items[k])
  {
    seq(|items|, k requires 0 <= k < |items| => QuestionRow(first + k, QuestionOf(examId, items[k])))
  }

  lemma QuestionRowsAfter(before: seq<QuestionRow>, first: int, examId: int, items: seq<QuestionInput>, k: nat)
    requires k < |items|
    ensures before + QuestionRows(first, examId, items[..k + 1])
      == (before + QuestionRows(first, examId, items[..k])) + [QuestionRow(first + k, QuestionOf(examId, items[k]))]
  {
    assert QuestionRows(first, examId, items[..k + 1])
      == QuestionRows(first, examId, items[..k]) + [QuestionRow(first + k, QuestionOf(examId, items[k]))];
  }

  /* ----------------------------------------------------------- tagging */

  const ExamTag := "SINAVLI"

  /** The distinct elements of `s`, each where it first occurs. */
  function Distinct(s: seq<string>): (r: seq<string>)
    ensures NoRepeats(r)
    ensures forall x :: x in r <==> x in s
  {
    if s == [] then []
    else
      var d := Distinct(s[..|s| - 1]);
      if s[|s| - 1] in d then d else d + [s[|s| - 1]]
  }

  lemma {:induction false} DistinctOfNoRepeats(s: seq<string>)
    requires NoRepeats(s)
    ensures Distinct(s) == s
  {
    if s != [] {
      var init := s[..|s| - 1];
      assert NoRepeats(init) by {
        forall i, j | 0 <= i < j < |init| ensures init[i] != init[j] {
          assert init[i] == s[i] && init[j] == s[j];
        }
      }
      DistinctOfNoRepeats(init);
      assert s[|s| - 1] !in init by {
        forall i | 0 <= i < |init| ensures init[i] != s[|s| - 1] {
          assert init[i] == s[i];
        }
      }
      assert init + [s[|s| - 1]] == s;
    }
  }

  /**
   * The tags after the exam is saved: the distinct elements of the old
   * tags followed by "SINAVLI".
   */
  function WithExamTag(tags: seq<string>): (r: seq<string>)
    ensures ExamTag in r && NoRepeats(r)
    ensures forall x :: x in r <==> x in tags || x == ExamTag
  {
    Distinct(tags + [ExamTag])
  }

  /** Tagging twice is tagging once. */
  lemma WithExamTagIdempotent(tags: seq<string>)
    ensures WithExamTag(WithExamTag(tags)) == WithExamTag(tags)
  {
    var r := WithExamTag(tags);
    assert (r + [ExamTag])[..|r|] == r;
    DistinctOfNoRepeats(r);
  }

  /** On tags without repeats the old order is kept, with "SINAVLI" appended when it was missing. */
  lemma WithExamTagKeepsOrder(tags: seq<string>)
    requires NoRepeats(tags)
    ensures WithExamTag(tags) == if ExamTag in tags then tags else tags + [ExamTag]
  {
    assert (tags + [ExamTag])[..|tags|] == tags;
    DistinctOfNoRepeats(tags);
  }

  /* -------------------------------------------------------- POST / */

  /** A failure after the exam row is in: a question insert among the first `n`, or the tag update. */
  predicate LaterFault(fault: Option<Stmt>, n: nat) {
    (fault.Some? && fault.value.InsertQuestionRow? && fault.value.k < n) || fault == Some(TagVideo)
  }

  /** The checks pass, the lookup succeeds and the video has no exam yet. */
  predicate Proceeds(t: Tables, b: ExamBody, fault: Option<Stmt>) {
    Check(b).Accepted? && fault != Some(FindExam) && Check(b).exam.videoId !in ExamVideos(t.exams)
  }

  /** The exam row goes in: its insert succeeds and the video exists (the foreign key holds). */
  predicate ExamInserted(t: Tables, b: ExamBody, fault: Option<Stmt>) {
    Proceeds(t, b, fault) && fault != Some(InsertExamRow) && Check(b).exam.videoId in t.videos
  }

  /**
   * POST /api/exams, with the lookup of an existing exam read as the
   * optional row the handler intends. After the checks a transaction is
   * opened. An exam already saved for the video is a 409 that leaves the
   * transaction open. The exam row is inserted outside the transaction,
   * so once it is in, a later failure (a question insert or the tag
   * update) rolls back the questions and the tags but keeps the exam, and
   * a retry gets the 409. Every failure inside the handler's try block is
   * a 500. As written, the lookup yields a row object with no length, so
   * the 409 is never reached and the unique index on video_id refuses the
   * duplicate insert, which is a 500.
   */
  method PostExam(db: Database, b: ExamBody, fault: Option<Stmt>) returns (reply: Reply<int>)
    requires db.Valid()
    modifies db`t, db`serial, db`openTx
    ensures db.Valid()
    ensures db.serial == old(db.serial).(exam := db.serial.exam, question := db.serial.question)
    ensures NoLater(old(db.serial), db.serial)
    ensures Check(b).Rejected? ==>
      reply == Failed(400, Check(b).problem) && db.t == old(db.t) && db.openTx == old(db.openTx)
    ensures Check(b).Accepted? && fault == Some(FindExam) ==>
      reply == Failed(500, Internal) && db.t == old(db.t) && db.openTx == old(db.openTx)
    ensures Check(b).Accepted? && fault != Some(FindExam) && Check(b).exam.videoId in ExamVideos(old(db.t.exams)) ==>
      reply == Failed(409, ExamExists) && db.t == old(db.t) && db.openTx == old(db.openTx) + 1
    ensures Proceeds(old(db.t), b, fault) && !ExamInserted(old(db.t), b, fault) ==>
      reply == Failed(500, Internal) && db.t == old(db.t) && db.openTx == old(db.openTx)
    ensures ExamInserted(old(db.t), b, fault) && LaterFault(fault, |Check(b).items|) ==>
      && reply == Failed(500, Internal) && db.openTx == old(db.openTx)
      && db.t == old(db.t).(exams := old(db.t.exams) + [ExamRow(old(db.serial.exam), Check(b).exam)])
    ensures reply.Done? <==> ExamInserted(old(db.t), b, fault) && !LaterFault(fault, |Check(b).items|)
    ensures reply.Done? ==>
      && var id := old(db.serial.exam);
      && var vId := Check(b).exam.videoId;
      && reply == Done(201, id) && db.openTx == old(db.openTx)
      && db.t == old(db.t).(
           exams := old(db.t.exams) + [ExamRow(id, Check(b).exam)],
           questions := old(db.t.questions) + QuestionRows(old(db.serial.question), id, Check(b).items),
           videos := old(db.t.videos)[vId := old(db.t.videos)[vId].(tags := WithExamTag(old(db.t.videos)[vId].tags))])
  {
    var checked := Check(b);
    if checked.Rejected? {
      return Failed(400, checked.problem);
    }
    var exam := checked.exam;
    var items := checked.items;
    db.Begin();
    var snapshot := db.t;
    if fault == Some(FindExam) {
      db.Rollback(snapshot);
      return Failed(500, Internal);
    }
    if exam.videoId in ExamVideos(db.t.exams) {
      return Failed(409, ExamExists);
    }
    if fault == Some(InsertExamRow) || exam.videoId !in db.t.videos {
      db.Rollback(snapshot);
      return Failed(500, Internal);
    }
    var examId := db.InsertExam(exam);
    assert db.t.exams[|db.t.exams| - 1] == ExamRow(examId, exam);
    reply := SaveQuestions(db, exam.videoId, examId, items, fault);
  }

  /**
   * The part of the POST after the exam row is in: the questions are
   * inserted in order and the video tagged, then the transaction commits;
   * a failure rolls back to the tables as they were after the exam insert.
   */
  method SaveQuestions(db: Database, videoId: int, examId: int, items: seq<QuestionInput>, fault: Option<Stmt>)
    returns (reply: Reply<int>)
    requires db.Valid() && db.openTx > 0 && videoId in db.t.videos && examId in ExamIds(db.t.exams)
    modifies db`t, db`serial, db`openTx
    ensures db.Valid() && db.openTx == old(db.openTx) - 1
    ensures db.serial == old(db.serial).(question := db.serial.question) && NoLater(old(db.serial), db.serial)
    ensures reply.Done? <==> !LaterFault(fault, |items|)
    ensures reply.Failed? ==> reply == Failed(500, Internal) && db.t == old(db.t)
    ensures reply.Done? ==>
      && reply == Done(201, examId)
      && db.t == old(db.t).(
           questions := old(db.t.questions) + QuestionRows(old(db.serial.question), examId, items),
           videos := old(db.t.videos)[videoId := old(db.t.videos)[videoId].(tags := WithExamTag(old(db.t.videos)[videoId].tags))])
  {
    var snapshot := db.t;
    ghost var tx := db.openTx;
    var k := 0;
    while k < |items|
      invariant 0 <= k <= |items|
      invariant Asking(db, snapshot, old(db.serial), tx, examId, items, k, fault)
    {
      var ok := AskNext(db, snapshot, old(db.serial), tx, examId, items, k, fault);
      if !ok {
        return Failed(500, Internal);
      }
      k := k + 1;
    }
    assert items[..k] == items;
    if fault == Some(TagVideo) {
      db.Rollback(snapshot);
      return Failed(500, Internal);
    }
    db.SetVideoTags(videoId, WithExamTag(db.t.videos[videoId].tags));
    db.Commit();
    reply := Done(201, examId);
  }

  /**
   * The state inside the transaction after `k` question inserts: the
   * tables are the snapshot taken after the exam insert with the first `k`
   * questions appended under consecutive ids.
   */
  ghost predicate Asking(db: Database, snapshot: Tables, s0: Serials, tx: nat,
                         examId: int, items: seq<QuestionInput>, k: nat, fault: Option<Stmt>)
    reads db
  {
    && k <= |items| && db.Valid() && db.openTx == tx && tx > 0
    && Consistent(snapshot) && Fits(snapshot, db.serial) && examId in ExamIds(snapshot.exams)
    && db.serial == s0.(question := s0.question + k)
    && db.t == snapshot.(questions := db.t.questions)
    && db.t.questions == snapshot.questions + QuestionRows(s0.question, examId, items[..k])
    && !(fault.Some? && fault.value.InsertQuestionRow? && fault.value.k < k)
  }

  /** One turn of the question loop: the next question is inserted, or the transaction is rolled back. */
  method AskNext(db: Database, snapshot: Tables, ghost s0: Serials, ghost tx: nat,
                 examId: int, items: seq<QuestionInput>, k: nat, fault: Option<Stmt>)
    returns (ok: bool)
    requires k < |items| && Asking(db, snapshot, s0, tx, examId, items, k, fault)
    modifies db`t, db`serial, db`openTx
    ensures ok <==> fault != Some(InsertQuestionRow(k))
    ensures ok ==> Asking(db, snapshot, s0, tx, examId, items, k + 1, fault)
    ensures !ok ==> db.Valid() && db.t == snapshot && db.openTx == tx - 1 && db.serial == old(db.serial)
  {
    if fault == Some(InsertQuestionRow(k)) {
      db.Rollback(snapshot);
      return false;
    }
    ghost var s := db.serial;
    var id := db.InsertQuestion(QuestionOf(examId, items[k]));
    FitsLater(snapshot, s, db.serial);
    QuestionRowsAfter(snapshot.questions, s0.question, examId, items, k);
    ok := true;
  }

  /* ------------------------------------------------- GET /:videoId */

  /** A question as the GET answer lists it (`q`, `a`, `image`). */
  datatype QuestionView = QuestionView(q: string, a: Option<string>, image: Option<string>)

  datatype ExamView = ExamView(
    examTitle: string, author: string, tag: string, department: string, questions: seq<QuestionView>)

  /** The exam row of the video with the highest id, if the video has any. */
  function LatestExam(es: seq<ExamRow>, videoId: int): (r: Option<ExamRow>)
    ensures r.None? <==> videoId !in ExamVideos(es)
    ensures r.Some? ==> r.value in es && r.value.exam.videoId == videoId
    ensures r.Some? ==> forall i :: 0 <= i < |es| && es[i].exam.videoId == videoId ==> es[i].id <= r.value.id
  {
    if es == [] then None
    else
      var rest := LatestExam(es[1..], videoId);
      assert ExamVideos(es) == {es[0].exam.videoId} + ExamVideos(es[1..]) by {
        forall x | x in ExamVideos(es) ensures x in {es[0].exam.videoId} + ExamVideos(es[1..]) {
          var i :| 0 <= i < |es| && es[i].exam.videoId == x;
          if i > 0 { assert es[1..][i - 1] == es[i]; }
        }
        forall x | x in ExamVideos(es[1..]) ensures x in ExamVideos(es) {
          var i :| 0 <= i < |es[1..]| && es[1..][i].exam.videoId == x;
          assert es[i + 1] == es[1..][i];
        }
      }
      if es[0].exam.videoId != videoId then rest
      else if rest.Some? && rest.value.id > es[0].id then rest
      else Some(es[0])
  }

  /** The question rows of exam `examId`, in table order. */
  function QuestionsOf(qs: seq<QuestionRow>, examId: int): (r: seq<QuestionRow>)
    ensures forall i :: 0 <= i < |r| ==> r[i] in qs && r[i].question.examId == examId
    ensures forall i :: 0 <= i < |qs| && qs[i].question.examId == examId ==> qs[i] in r
  {
    if qs == [] then []
    else if qs[0].question.examId == examId then [qs[0]] + QuestionsOf(qs[1..], examId)
    else QuestionsOf(qs[1..], examId)
  }

  function ViewOf(row: QuestionRow): QuestionView {
    QuestionView(row.question.text, row.question.answer, row.question.image)
  }

  function Views(rows: seq<QuestionRow>): (r: seq<QuestionView>)
    ensures |r| == |rows|
  {
    seq(|rows|, k requires 0 <= k < |rows| => ViewOf(rows[k]))
  }

  /**
   * GET /api/exams/:videoId: 400 for an id that is not a number, 404 when
   * the video has no exam, otherwise the newest exam of the video and its
   * questions; a failing query is a 500.
   */
  function GetExam(t: Tables, videoId: string, fault: Option<Stmt>): (r: Reply<ExamView>)
    ensures ParseInt(videoId).None? ==> r == Failed(400, InvalidVideoId)
    ensures r == Failed(404, ExamNotFound) <==>
      ParseInt(videoId).Some? && fault != Some(LatestExamRow) && ParseInt(videoId).value !in ExamVideos(t.exams)
    ensures r == Failed(500, Internal) <==>
      ParseInt(videoId).Some?
      && (fault == Some(LatestExamRow) || (ParseInt(videoId).value in ExamVideos(t.exams) && fault == Some(ReadQuestions)))
    ensures r.Done? ==> r.status == 200
    ensures r.Done? ==>
      && ParseInt(videoId).Some? && LatestExam(t.exams, ParseInt(videoId).value).Some?
      && var row := LatestExam(t.exams, ParseInt(videoId).value).value;
         r.body == ExamView(row.exam.title, row.exam.author, row.exam.tag, row.exam.department,
                            Views(QuestionsOf(t.questions, row.id)))
  {
    match ParseInt(videoId)
    case None => Failed(400, InvalidVideoId)
    case Some(vId) =>
      if fault == Some(LatestExamRow) then Failed(500, Internal)
      else
        match LatestExam(t.exams, vId)
        case None => Failed(404, ExamNotFound)
        case Some(row) =>
          if fault == Some(ReadQuestions) then Failed(500, Internal)
          else
            Done(200, ExamView(row.exam.title, row.exam.author, row.exam.tag, row.exam.department,
                               Views(QuestionsOf(t.questions, row.id))))
  }

  /**
   * A 200 answer lists exactly the questions of the video's exam with the
   * highest id, in ascending id order.
   */
  lemma GetExamAnswer(t: Tables, videoId: string, fault: Option<Stmt>)
    requires QuestionsOrdered(t.questions)
    ensures var r := GetExam(t, videoId, fault);
      r.Done? ==>
        var row := LatestExam(t.exams, ParseInt(videoId).value).value;
        var rows := QuestionsOf(t.questions, row.id);
        && QuestionsOrdered(rows)
        && (forall q :: q in rows <==> q in t.questions && q.question.examId == row.id)
        && r.body.questions == Views(rows)
  {
    var r := GetExam(t, videoId, fault);
    if r.Done? {
      var row := LatestExam(t.exams, ParseInt(videoId).value).value;
      QuestionsOfOrdered(t.questions, row.id);
    }
  }

  /** The questions of an exam come back in ascending id order. */
  lemma {:induction false} QuestionsOfOrdered(qs: seq<QuestionRow>, examId: int)
    requires QuestionsOrdered(qs)
    ensures QuestionsOrdered(QuestionsOf(qs, examId))
  {
    if qs != [] {
      var tail := qs[1..];
      assert QuestionsOrdered(tail) by {
        forall i, j | 0 <= i < j < |tail| ensures tail[i].id < tail[j].id {
          assert tail[i] == qs[i + 1] && tail[j] == qs[j + 1];
        }
      }
      QuestionsOfOrdered(tail, examId);
      var rest := QuestionsOf(tail, examId);
      if qs[0].question.examId == examId {
        forall k | 0 <= k < |rest| ensures qs[0].id < rest[k].id {
          var m :| 0 <= m < |tail| && tail[m] == rest[k];
          assert qs[m + 1] == rest[k];
        }
        QuestionsCons(qs[0], rest);
      }
    }
  }

  lemma QuestionsCons(x: QuestionRow, rest: seq<QuestionRow>)
    requires QuestionsOrdered(rest) && forall k :: 0 <= k < |rest| ==> x.id < rest[k].id
    ensures QuestionsOrdered([x] + rest)
  {
    var r := [x] + rest;
    forall i, j | 0 <= i < j < |r| ensures r[i].id < r[j].id {
      assert r[j] == rest[j - 1];
      if i > 0 { assert r[i] == rest[i - 1]; }
    }
  }

  lemma {:induction false} QuestionsOfNone(qs: seq<QuestionRow>, examId: int)
    requires forall i :: 0 <= i < |qs| ==> qs[i].question.examId != examId
    ensures QuestionsOf(qs, examId) == []
  {
    if qs != [] {
      QuestionsOfNone(qs[1..], examId);
    }
  }

  lemma {:induction false} QuestionsOfAll(qs: seq<QuestionRow>, examId: int)
    requires forall i :: 0 <= i < |qs| ==> qs[i].question.examId == examId
    ensures QuestionsOf(qs, examId) == qs
  {
    if qs != [] {
      QuestionsOfAll(qs[1..], examId);
    }
  }

  lemma {:induction false} QuestionsOfAppend(a: seq<QuestionRow>, b: seq<QuestionRow>, examId: int)
    ensures QuestionsOf(a + b, examId) == QuestionsOf(a, examId) + QuestionsOf(b, examId)
  {
    if a == [] {
      assert a + b == b;
    } else {
      assert (a + b)[0] == a[0];
      assert (a + b)[1..] == a[1..] + b;
      QuestionsOfAppend(a[1..], b, examId);
    }
  }

  /** What GET answers for the questions as they were posted. */
  function PostedViews(items: seq<QuestionInput>): (r: seq<QuestionView>)
    ensures |r| == |items|
  {
    seq(|items|, k requires 0 <= k < |items| =>
      QuestionView(Pick(items[k].q, items[k].questionText), Some(Pick(items[k].a, items[k].answerText)),
                   Nullable(Coalesce(items[k].image, items[k].imageUrl))))
  }

  /**
   * Reading back a posted exam: after a successful POST, GET with the
   * video's id answers the stored (trimmed) exam texts and the questions
   * in the order they were posted.
   */
  lemma ReadBack(t: Tables, s: Serials, exam: Exam, items: seq<QuestionInput>, videos: map<int, Video>)
    requires Consistent(t) && Fits(t, s) && exam.videoId !in ExamVideos(t.exams)
    ensures
      var t2 := t.(exams := t.exams + [ExamRow(s.exam, exam)],
                   questions := t.questions + QuestionRows(s.question, s.exam, items),
                   videos := videos);
      GetExam(t2, IntToDecimal(exam.videoId), None)
        == Done(200, ExamView(exam.title, exam.author, exam.tag, exam.department, PostedViews(items)))
  {
    ParseIntOfDecimal(exam.videoId);
    LatestAppended(t.exams, ExamRow(s.exam, exam));
    forall i | 0 <= i < |t.questions| ensures t.questions[i].question.examId != s.exam {
      assert t.questions[i].question.examId in QuestionExams(t.questions);
    }
    QuestionsOfFresh(t.questions, s.question, s.exam, items);
    assert Views(QuestionRows(s.question, s.exam, items)) == PostedViews(items);
  }

  /** The exam of a video without one, once appended, is the video's newest exam. */
  lemma LatestAppended(es: seq<ExamRow>, row: ExamRow)
    requires row.exam.videoId !in ExamVideos(es)
    ensures LatestExam(es + [row], row.exam.videoId) == Some(row)
  {
    var r := es + [row];
    ExamVideosAppend(es, row);
    var latest := LatestExam(r, row.exam.videoId);
    forall i | 0 <= i < |es| ensures es[i].exam.videoId != row.exam.videoId {
      assert es[i].exam.videoId in ExamVideos(es);
    }
    var m :| 0 <= m < |r| && r[m] == latest.value;
    if m < |es| {
      assert r[m] == es[m];
    }
  }

  /** The questions of a new exam are exactly the rows inserted for it. */
  lemma QuestionsOfFresh(qs: seq<QuestionRow>, first: int, examId: int, items: seq<QuestionInput>)
    requires forall i :: 0 <= i < |qs| ==> qs[i].question.examId != examId
    ensures QuestionsOf(qs + QuestionRows(first, examId, items), examId) == QuestionRows(first, examId, items)
  {
    QuestionsOfNone(qs, examId);
    QuestionsOfAll(QuestionRows(first, examId, items), examId);
    QuestionsOfAppend(qs, QuestionRows(first, examId, items), examId);
  }

  lemma ExamVideosAppend(es: seq<ExamRow>, row: ExamRow)
    ensures ExamVideos(es + [row]) == ExamVideos(es) + {row.exam.videoId}
  {
    var r := es + [row];
    forall x | x in ExamVideos(r) ensures x in ExamVideos(es) + {row.exam.videoId} {
      var k :| 0 <= k < |r| && r[k].exam.videoId == x;
      if k < |es| { assert es[k].exam.videoId == x; }
    }
    forall x | x in ExamVideos(es) ensures x in ExamVideos(r) {
      var k :| 0 <= k < |es| && es[k].exam.videoId == x;
      assert r[k].exam.videoId == x;
    }
    assert r[|es|] == row;
  }
}
