/**
 * The PostgreSQL tables the route handlers share, held as values, and the
 * database handle the handlers write through. Each SERIAL id sequence is a
 * counter; a transaction is a snapshot of the tables that a rollback puts
 * back. As in PostgreSQL, a rollback never gives sequence values back.
 */
module Store {
  import opened Wrappers

  type Byte = bv8
  type Bytes = seq<Byte>

  /** A row of `videos`; `mimeType` is "" where the column is NULL or empty (both are falsy to the handlers). */
  datatype Video = Video(
    title: string, description: Option<string>, uploader: string, tags: seq<string>,
    filename: string, mimeType: string, sizeBytes: nat, content: Option<Bytes>, url: Option<string>)

  /** A row of `exams` (without its id). */
  datatype Exam = Exam(videoId: int, title: string, author: string, tag: string, department: string)
  datatype ExamRow = ExamRow(id: int, exam: Exam)

  /** A row of `questions`; `question_text` is NOT NULL, the other two columns are nullable. */
  datatype Question = Question(examId: int, text: string, answer: Option<string>, image: Option<string>)
  datatype QuestionRow = QuestionRow(id: int, question: Question)

  /** A row of `users`; full_name, role, username and email are NOT NULL. */
  datatype User = User(
    fullName: string, role: string, workArea: Option<string>, authority: Option<string>,
    username: string, email: string, password: Option<string>, tags: seq<string>,
    school: Option<string>, department: Option<string>, watched: seq<int>)

  /** A row of `user_video_views`; the table is UNIQUE on (user_id, video_id), hence a set. */
  datatype View = View(userId: int, videoId: int)

  /** A row of `user_education` (without its id). */
  datatype Education = Education(userId: int, school: string, department: string)
  datatype EducationRow = EducationRow(id: int, entry: Education)

  /** The tables. Rows of the tables read back "ORDER BY id" are kept in id order. */
  datatype Tables = Tables(
    videos: map<int, Video>, exams: seq<ExamRow>, questions: seq<QuestionRow>,
    users: map<int, User>, views: set<View>, education: seq<EducationRow>)

  /** The next value of each SERIAL sequence. */
  datatype Serials = Serials(video: nat, exam: nat, question: nat, user: nat, education: nat)

  /** The statements a handler issues, named so that a caller can say which one the database rejects. */
  datatype Stmt =
    | InsertVideoRow(k: nat) | SetVideoUrl(k: nat)
    | FindExam | InsertExamRow | InsertQuestionRow(k: nat) | TagVideo | LatestExamRow | ReadQuestions
    | FindDuplicateUser | InsertUserRow | UpdateUserRow
    | LockUser | ReadWatched | UpdateWatched | InsertView
    | DeleteEducation | InsertEducationRow(k: nat)

  /** An array column holding no value twice. */
  predicate NoRepeats<T(==)>(s: seq<T>) {
    forall i, j :: 0 <= i < j < |s| ==> s[i] != s[j]
  }

  function ExamIds(es: seq<ExamRow>): set<int> {
    set i | 0 <= i < |es| :: es[i].id
  }

  function ExamVideos(es: seq<ExamRow>): set<int> {
    set i | 0 <= i < |es| :: es[i].exam.videoId
  }

  function QuestionIds(qs: seq<QuestionRow>): set<int> {
    set i | 0 <= i < |qs| :: qs[i].id
  }

  function QuestionExams(qs: seq<QuestionRow>): set<int> {
    set i | 0 <= i < |qs| :: qs[i].question.examId
  }

  function EducationIds(es: seq<EducationRow>): set<int> {
    set i | 0 <= i < |es| :: es[i].id
  }

  function EducationUsers(es: seq<EducationRow>): set<int> {
    set i | 0 <= i < |es| :: es[i].entry.userId
  }

  function ViewUsers(vs: set<View>): set<int> {
    set v | v in vs :: v.userId
  }

  function ViewVideos(vs: set<View>): set<int> {
    set v | v in vs :: v.videoId
  }

  /** Exams in id order, at most one per video (the UNIQUE index on video_id). */
  predicate ExamsOk(es: seq<ExamRow>) {
    forall i, j :: 0 <= i < j < |es| ==> es[i].id < es[j].id && es[i].exam.videoId != es[j].exam.videoId
  }

  predicate QuestionsOrdered(qs: seq<QuestionRow>) {
    forall i, j :: 0 <= i < j < |qs| ==> qs[i].id < qs[j].id
  }

  predicate EducationOrdered(es: seq<EducationRow>) {
    forall i, j :: 0 <= i < j < |es| ==> es[i].id < es[j].id
  }

  /** Every logged view is in the viewer's watched_videos array. */
  ghost predicate ViewsWatched(vs: set<View>, users: map<int, User>) {
    forall v :: v in vs && v.userId in users ==> v.videoId in users[v.userId].watched
  }

  /** Neither the username nor the email of `u` belongs to a user other than `self`. */
  ghost predicate Distinct(users: map<int, User>, self: int, u: User) {
    forall other :: other in users && other != self ==>
      users[other].username != u.username && users[other].email != u.email
  }

  /** username UNIQUE, email UNIQUE. */
  ghost predicate UsersDistinct(users: map<int, User>) {
    forall id :: id in users ==> Distinct(users, id, users[id])
  }

  /** size_bytes is the length of the stored content. */
  ghost predicate SizesOk(videos: map<int, Video>) {
    forall id :: id in videos && videos[id].content.Some? ==> videos[id].sizeBytes == |videos[id].content.value|
  }

  /**
   * The constraints the schema declares (foreign keys, unique indexes),
   * the id order of the tables read back by id, and the view log the
   * watch handler keeps in step with the users' arrays.
   */
  ghost predicate Consistent(t: Tables) {
    && ExamsOk(t.exams) && ExamVideos(t.exams) <= t.videos.Keys
    && QuestionsOrdered(t.questions) && QuestionExams(t.questions) <= ExamIds(t.exams)
    && ViewUsers(t.views) <= t.users.Keys && ViewVideos(t.views) <= t.videos.Keys && ViewsWatched(t.views, t.users)
    && EducationOrdered(t.education) && EducationUsers(t.education) <= t.users.Keys
    && UsersDistinct(t.users) && SizesOk(t.videos)
  }

  /** Every id is positive and below the next value of its sequence. */
  predicate Below(ids: set<int>, next: int) {
    forall id :: id in ids ==> 0 < id < next
  }

  /** Every id in the tables was drawn from its sequence, which starts at 1. */
  ghost predicate Fits(t: Tables, s: Serials) {
    && s.video >= 1 && s.exam >= 1 && s.question >= 1 && s.user >= 1 && s.education >= 1
    && Below(t.videos.Keys, s.video) && Below(ExamIds(t.exams), s.exam) && Below(QuestionIds(t.questions), s.question)
    && Below(t.users.Keys, s.user) && Below(EducationIds(t.education), s.education)
  }

  /** Sequences only move forward. */
  predicate NoLater(a: Serials, b: Serials) {
    a.video <= b.video && a.exam <= b.exam && a.question <= b.question
    && a.user <= b.user && a.education <= b.education
  }

  lemma FitsLater(t: Tables, a: Serials, b: Serials)
    requires Fits(t, a) && NoLater(a, b)
    ensures Fits(t, b)
  {
  }

  /** The education rows of users other than `userId`, in order. */
  function OtherEducation(es: seq<EducationRow>, userId: int): (r: seq<EducationRow>)
    ensures forall i :: 0 <= i < |r| ==> r[i] in es && r[i].entry.userId != userId
    ensures forall i :: 0 <= i < |es| && es[i].entry.userId != userId ==> es[i] in r
  {
    if es == [] then []
    else if es[0].entry.userId == userId then OtherEducation(es[1..], userId)
    else [es[0]] + OtherEducation(es[1..], userId)
  }

  /** Dropping one user's rows introduces no new id or user. */
  lemma OtherEducationSubset(es: seq<EducationRow>, userId: int)
    ensures EducationIds(OtherEducation(es, userId)) <= EducationIds(es)
    ensures EducationUsers(OtherEducation(es, userId)) <= EducationUsers(es)
  {
    var r := OtherEducation(es, userId);
    forall x | x in EducationIds(r) ensures x in EducationIds(es) {
      var k :| 0 <= k < |r| && r[k].id == x;
      assert r[k] in es;
      var m :| 0 <= m < |es| && es[m] == r[k];
    }
    forall x | x in EducationUsers(r) ensures x in EducationUsers(es) {
      var k :| 0 <= k < |r| && r[k].entry.userId == x;
      assert r[k] in es;
      var m :| 0 <= m < |es| && es[m] == r[k];
    }
  }

  lemma EducationCons(x: EducationRow, rest: seq<EducationRow>)
    requires EducationOrdered(rest) && forall k :: 0 <= k < |rest| ==> x.id < rest[k].id
    ensures EducationOrdered([x] + rest)
  {
    var r := [x] + rest;
    forall i, j | 0 <= i < j < |r| ensures r[i].id < r[j].id {
      assert r[j] == rest[j - 1];
      if i > 0 { assert r[i] == rest[i - 1]; }
    }
  }

  /** Dropping one user's rows keeps the remaining ids ascending. */
  lemma {:induction false} OtherEducationOrdered(es: seq<EducationRow>, userId: int)
    requires EducationOrdered(es)
    ensures EducationOrdered(OtherEducation(es, userId))
  {
    if es != [] {
      var tail := es[1..];
      var rest := OtherEducation(tail, userId);
      assert EducationOrdered(tail) by {
        forall i, j | 0 <= i < j < |tail| ensures tail[i].id < tail[j].id {
          assert tail[i] == es[i + 1] && tail[j] == es[j + 1];
        }
      }
      OtherEducationOrdered(tail, userId);
      if es[0].entry.userId != userId {
        var r := [es[0]] + rest;
        assert OtherEducation(es, userId) == r;
        forall k | 0 <= k < |rest| ensures es[0].id < rest[k].id {
          assert rest[k] in tail;
          var m :| 0 <= m < |tail| && tail[m] == rest[k];
          assert es[m + 1] == rest[k];
        }
        EducationCons(es[0], rest);
      } else {
        assert OtherEducation(es, userId) == rest;
      }
    }
  }

  lemma ExamsAppend(es: seq<ExamRow>, row: ExamRow)
    requires ExamsOk(es) && Below(ExamIds(es), row.id) && row.exam.videoId !in ExamVideos(es)
    ensures ExamsOk(es + [row])
    ensures ExamIds(es + [row]) == ExamIds(es) + {row.id}
    ensures ExamVideos(es + [row]) == ExamVideos(es) + {row.exam.videoId}
  {
    var r := es + [row];
    forall i | 0 <= i < |es| ensures es[i].id < row.id && es[i].exam.videoId != row.exam.videoId {
      assert es[i].id in ExamIds(es);
      assert es[i].exam.videoId in ExamVideos(es);
    }
    forall x | x in ExamIds(r) ensures x in ExamIds(es) + {row.id} {
      var k :| 0 <= k < |r| && r[k].id == x;
      if k < |es| { assert es[k].id == x; }
    }
    forall x | x in ExamVideos(r) ensures x in ExamVideos(es) + {row.exam.videoId} {
      var k :| 0 <= k < |r| && r[k].exam.videoId == x;
      if k < |es| { assert es[k].exam.videoId == x; }
    }
    forall x | x in ExamIds(es) ensures x in ExamIds(r) {
      var k :| 0 <= k < |es| && es[k].id == x;
      assert r[k].id == x;
    }
    forall x | x in ExamVideos(es) ensures x in ExamVideos(r) {
      var k :| 0 <= k < |es| && es[k].exam.videoId == x;
      assert r[k].exam.videoId == x;
    }
    assert r[|es|] == row;
  }

  lemma QuestionsAppend(qs: seq<QuestionRow>, row: QuestionRow)
    requires QuestionsOrdered(qs) && Below(QuestionIds(qs), row.id)
    ensures QuestionsOrdered(qs + [row])
    ensures QuestionIds(qs + [row]) == QuestionIds(qs) + {row.id}
    ensures QuestionExams(qs + [row]) == QuestionExams(qs) + {row.question.examId}
  {
    var r := qs + [row];
    forall i | 0 <= i < |qs| ensures qs[i].id < row.id {
      assert qs[i].id in QuestionIds(qs);
    }
    forall x | x in QuestionIds(r) ensures x in QuestionIds(qs) + {row.id} {
      var k :| 0 <= k < |r| && r[k].id == x;
      if k < |qs| { assert qs[k].id == x; }
    }
    forall x | x in QuestionExams(r) ensures x in QuestionExams(qs) + {row.question.examId} {
      var k :| 0 <= k < |r| && r[k].question.examId == x;
      if k < |qs| { assert qs[k].question.examId == x; }
    }
    forall x | x in QuestionIds(qs) ensures x in QuestionIds(r) {
      var k :| 0 <= k < |qs| && qs[k].id == x;
      assert r[k].id == x;
    }
    forall x | x in QuestionExams(qs) ensures x in QuestionExams(r) {
      var k :| 0 <= k < |qs| && qs[k].question.examId == x;
      assert r[k].question.examId == x;
    }
    assert r[|qs|] == row;
  }

  lemma EducationAppend(es: seq<EducationRow>, row: EducationRow)
    requires EducationOrdered(es) && Below(EducationIds(es), row.id)
    ensures EducationOrdered(es + [row])
    ensures EducationIds(es + [row]) == EducationIds(es) + {row.id}
    ensures EducationUsers(es + [row]) == EducationUsers(es) + {row.entry.userId}
  {
    var r := es + [row];
    forall i | 0 <= i < |es| ensures es[i].id < row.id {
      assert es[i].id in EducationIds(es);
    }
    forall x | x in EducationIds(r) ensures x in EducationIds(es) + {row.id} {
      var k :| 0 <= k < |r| && r[k].id == x;
      if k < |es| { assert es[k].id == x; }
    }
    forall x | x in EducationUsers(r) ensures x in EducationUsers(es) + {row.entry.userId} {
      var k :| 0 <= k < |r| && r[k].entry.userId == x;
      if k < |es| { assert es[k].entry.userId == x; }
    }
    forall x | x in EducationIds(es) ensures x in EducationIds(r) {
      var k :| 0 <= k < |es| && es[k].id == x;
      assert r[k].id == x;
    }
    forall x | x in EducationUsers(es) ensures x in EducationUsers(r) {
      var k :| 0 <= k < |es| && es[k].entry.userId == x;
      assert r[k].entry.userId == x;
    }
    assert r[|es|] == row;
  }

  class Database {
    var t: Tables
    var serial: Serials
    /** Transactions begun and neither committed nor rolled back; each holds a pooled connection. */
    var openTx: nat

    ghost predicate Valid()
      reads this`t, this`serial
    {
      Consistent(t) && Fits(t, serial)
    }

    constructor (t0: Tables, s0: Serials)
      requires Consistent(t0) && Fits(t0, s0)
      ensures Valid() && t == t0 && serial == s0 && openTx == 0
    {
      t, serial, openTx := t0, s0, 0;
    }

    method Begin()
      modifies this`openTx
      ensures openTx == old(openTx) + 1
    {
      openTx := openTx + 1;
    }

    method Commit()
      requires openTx > 0
      modifies this`openTx
      ensures openTx == old(openTx) - 1
    {
      openTx := openTx - 1;
    }

    /** Puts the tables back as they were when the snapshot was taken; sequences keep their values. */
    method Rollback(snapshot: Tables)
      requires Consistent(snapshot) && Fits(snapshot, serial) && openTx > 0
      modifies this`t, this`openTx
      ensures Valid() && t == snapshot && openTx == old(openTx) - 1
    {
      t, openTx := snapshot, openTx - 1;
    }

    method InsertVideo(v: Video) returns (id: int)
      requires Valid() && (v.content.Some? ==> v.sizeBytes == |v.content.value|)
      modifies this`t, this`serial
      ensures Valid() && id == old(serial.video) && id > 0
      ensures serial == old(serial).(video := id + 1)
      ensures t == old(t).(videos := old(t.videos)[id := v])
    {
      id := serial.video;
      t := t.(videos := t.videos[id := v]);
      serial := serial.(video := id + 1);
    }

    method SetVideoUrl(id: int, url: string)
      requires Valid() && id in t.videos
      modifies this`t
      ensures Valid()
      ensures t == old(t).(videos := old(t.videos)[id := old(t.videos)[id].(url := Some(url))])
    {
      t := t.(videos := t.videos[id := t.videos[id].(url := Some(url))]);
    }

    method SetVideoTags(id: int, tags: seq<string>)
      requires Valid() && id in t.videos
      modifies this`t
      ensures Valid()
      ensures t == old(t).(videos := old(t.videos)[id := old(t.videos)[id].(tags := tags)])
    {
      t := t.(videos := t.videos[id := t.videos[id].(tags := tags)]);
    }

    method InsertExam(e: Exam) returns (id: int)
      requires Valid() && e.videoId in t.videos && e.videoId !in ExamVideos(t.exams)
      modifies this`t, this`serial
      ensures Valid() && id == old(serial.exam) && id > 0
      ensures serial == old(serial).(exam := id + 1)
      ensures t == old(t).(exams := old(t.exams) + [ExamRow(id, e)])
    {
      id := serial.exam;
      ExamsAppend(t.exams, ExamRow(id, e));
      t := t.(exams := t.exams + [ExamRow(id, e)]);
      serial := serial.(exam := id + 1);
    }

    method InsertQuestion(q: Question) returns (id: int)
      requires Valid() && q.examId in ExamIds(t.exams)
      modifies this`t, this`serial
      ensures Valid() && id == old(serial.question)
      ensures serial == old(serial).(question := id + 1)
      ensures t == old(t).(questions := old(t.questions) + [QuestionRow(id, q)])
    {
      id := serial.question;
      QuestionsAppend(t.questions, QuestionRow(id, q));
      t := t.(questions := t.questions + [QuestionRow(id, q)]);
      serial := serial.(question := id + 1);
    }

    method InsertUser(u: User) returns (id: int)
      requires Valid() && Distinct(t.users, -1, u)
      modifies this`t, this`serial
      ensures Valid() && id == old(serial.user) && id > 0
      ensures serial == old(serial).(user := id + 1)
      ensures t == old(t).(users := old(t.users)[id := u])
    {
      id := serial.user;
      assert id !in t.users;
      assert forall v :: v in t.views ==> v.userId in t.users && v.userId != id;
      t := t.(users := t.users[id := u]);
      serial := serial.(user := id + 1);
    }

    /** Replaces a user row; the new row must keep the uniqueness constraints and every logged view. */
    method UpdateUser(id: int, u: User)
      requires Valid() && id in t.users && Distinct(t.users, id, u)
      requires forall v :: v in t.views && v.userId == id ==> v.videoId in u.watched
      modifies this`t
      ensures Valid()
      ensures t == old(t).(users := old(t.users)[id := u])
    {
      t := t.(users := t.users[id := u]);
    }

    method InsertView(v: View)
      requires Valid() && v.userId in t.users && v.videoId in t.videos
      requires v.videoId in t.users[v.userId].watched
      modifies this`t
      ensures Valid()
      ensures t == old(t).(views := old(t.views) + {v})
    {
      t := t.(views := t.views + {v});
    }

    method DeleteEducationOf(userId: int)
      requires Valid()
      modifies this`t
      ensures Valid()
      ensures t == old(t).(education := OtherEducation(old(t.education), userId))
    {
      OtherEducationSubset(t.education, userId);
      OtherEducationOrdered(t.education, userId);
      t := t.(education := OtherEducation(t.education, userId));
    }

    method InsertEducation(e: Education) returns (id: int)
      requires Valid() && e.userId in t.users
      modifies this`t, this`serial
      ensures Valid() && id == old(serial.education)
      ensures serial == old(serial).(education := id + 1)
      ensures t == old(t).(education := old(t.education) + [EducationRow(id, e)])
    {
      id := serial.education;
      EducationAppend(t.education, EducationRow(id, e));
      t := t.(education := t.education + [EducationRow(id, e)]);
      serial := serial.(education := id + 1);
    }
  }
}
