/**
 * The video routes: byte-range streaming over the stored content, the
 * multi-file upload that writes one row per file inside a transaction,
 * upload tag normalisation, and the department tag and search needles
 * behind the recommendation list.
 */
module Videos {
  import opened Wrappers
  import opened Text
  import opened JsValue
  import opened Http
  import opened Store
  import opened ByteRanges

  /* ------------------------------------------------------------ streaming */

  /** The reads the stream handler issues, in order. */
  datatype Read = WholeRow(id: int) | MetaRow(id: int) | Chunk(id: int, from: int, count: int)

  datatype Headers = Headers(contentType: string, contentLength: int, acceptRanges: string, contentRange: string)

  datatype StreamReply =
    | Sent(status: nat, headers: Headers, body: Bytes)  // 200 whole content, 206 a window
    | VideoMissing                                      // 404 with a JSON error
    | ChunkMissing                                      // 404, empty body
    | NotSatisfiable                                    // 416, empty body
    | ServerError                                       // 500, from the global error handler

  /** The stored MIME type, or "application/octet-stream" when it is empty. */
  function ContentType(v: Video): (r: string)
    ensures r != []
    ensures v.mimeType != [] ==> r == v.mimeType
    ensures v.mimeType == [] ==> r == "application/octet-stream"
  {
    if v.mimeType != [] then v.mimeType else "application/octet-stream"
  }

  /** The stored bytes; a NULL content has octet_length NULL, which `Number` reads as 0. */
  function Stored(v: Video): Bytes {
    if v.content.Some? then v.content.value else []
  }

  /** A `Range` header that `!range` does not reject. */
  predicate Ranged(range: Option<string>) {
    range.Some? && range.value != ""
  }

  /**
   * GET /:id/stream. Without a Range header the whole content is sent;
   * with one, the window it asks for, clamped to the content.
   */
  method Stream(db: Database, id: int, range: Option<string>) returns (reply: StreamReply, log: seq<Read>)
    // the whole content: 200, Content-Length = total, Content-Range bytes 0-(total-1)/total
    ensures !Ranged(range) && id in db.t.videos ==>
      log == [WholeRow(id)] &&
      reply == Sent(200, Headers(ContentType(db.t.videos[id]), |Stored(db.t.videos[id])|, "bytes",
                                 ContentRange(0, |Stored(db.t.videos[id])| - 1, |Stored(db.t.videos[id])|)),
                    Stored(db.t.videos[id]))
    // a header the pattern does not match: 416 before any lookup
    ensures Ranged(range) && ParseRange(range.value).None? ==> reply == NotSatisfiable && log == []
    // an unknown id: 404 after one lookup
    ensures id !in db.t.videos && !(Ranged(range) && ParseRange(range.value).None?) ==>
      reply == VideoMissing && |log| == 1
    // a window: read at 1-based offset start + 1 for chunkSize bytes
    ensures Ranged(range) && ParseRange(range.value).Some? && id in db.t.videos ==>
      var v := db.t.videos[id];
      var w := ResolveWindow(ParseRange(range.value).value, |Stored(v)|);
      && log == [MetaRow(id), Chunk(id, w.start + 1, w.chunkSize)]
      && (v.content.None? ==> reply == ChunkMissing)
      && (v.content.Some? && w.chunkSize < 0 ==> reply == ServerError)
      && (v.content.Some? && w.chunkSize >= 0 ==>
            reply == Sent(206, Headers(ContentType(v), w.chunkSize, "bytes", ContentRange(w.start, w.realEnd, |Stored(v)|)),
                          Stored(v)[w.start..w.realEnd + 1]))
    // whatever is sent is what Content-Length announces
    ensures reply.Sent? ==> reply.headers.contentLength == |reply.body|
  {
    if !Ranged(range) {
      log := [WholeRow(id)];
      if id !in db.t.videos {
        return VideoMissing, log;
      }
      var v := db.t.videos[id];
      var total := |Stored(v)|;
      reply := Sent(200, Headers(ContentType(v), total, "bytes", ContentRange(0, total - 1, total)), Stored(v));
      return;
    }
    var m := ParseRange(range.value);
    if m.None? {
      return NotSatisfiable, [];
    }
    log := [MetaRow(id)];
    if id !in db.t.videos {
      return VideoMissing, log;
    }
    var v := db.t.videos[id];
    var total := |Stored(v)|;
    var w := ResolveWindow(m.value, total);
    log := log + [Chunk(id, w.start + 1, w.chunkSize)];
    if v.content.None? {
      // substring of a NULL value is NULL, and `!chunk` holds
      return ChunkMissing, log;
    }
    var chunk := Substring(v.content.value, w.start + 1, w.chunkSize);
    if chunk.None? {
      return ServerError, log;
    }
    WindowRead(v.content.value, m.value);
    reply := Sent(206, Headers(ContentType(v), w.chunkSize, "bytes", ContentRange(w.start, w.realEnd, total)), chunk.value);
  }

  /* ---------------------------------------------------------------- tags */

  /** The `tags` form field: repeated (an array), given once (a string), or absent. */
  datatype FormTags = TagList(items: seq<string>) | TagText(text: string) | NoTags

  /** `tagsArray`: an array as it is, a string as a comma list, anything else as no tags. */
  function TagsArray(tags: FormTags): seq<string> {
    match tags
    case TagList(items) => items
    case TagText(text) => CommaList(text)
    case NoTags => []
  }

  /**
   * One tag trimmed and, when a group is given and the tag has no '>' of
   * its own, filed under the group. The stored tag always ends with the
   * trimmed tag, is blank exactly when the tag is, and under a group
   * every non-blank tag holds a '>'.
   */
  function GroupTag(group: Field, t: string): (r: string)
    ensures Truthy(group) && Trim(t) != [] && '>' !in Trim(t) ==> r == group.text + " > " + Trim(t)
    ensures !(Truthy(group) && Trim(t) != [] && '>' !in Trim(t)) ==> r == Trim(t)
    ensures EndsWith(r, Trim(t))
    ensures r == [] <==> Trim(t) == []
    ensures Truthy(group) && Trim(t) != [] ==> '>' in r
    ensures !Truthy(group) ==> r == Trim(t)
  {
    var s := Trim(t);
    if Truthy(group) && s != [] && '>' !in s then group.text + " > " + s else s
  }

  function GroupEach(group: Field, ts: seq<string>): (r: seq<string>)
    ensures |r| == |ts| && forall i :: 0 <= i < |r| ==> r[i] == GroupTag(group, ts[i])
  {
    if ts == [] then [] else [GroupTag(group, ts[0])] + GroupEach(group, ts[1..])
  }

  /** `normalizedTags` of the upload handler. */
  function UploadTags(tags: FormTags, group: Field): (r: seq<string>)
    ensures forall i :: 0 <= i < |r| ==> r[i] != []
  {
    DropEmpty(GroupEach(group, TagsArray(tags)))
  }

  /**
   * With a group, every stored tag either came with its own '>' (and is
   * the trimmed input tag) or is the trimmed input tag filed under the
   * group; either way it holds a '>'.
   */
  lemma UploadTagsGrouped(group: Field, a: seq<string>, r: seq<string>)
    requires Truthy(group) && r == DropEmpty(GroupEach(group, a))
    ensures forall i :: 0 <= i < |r| ==> '>' in r[i] && exists j :: 0 <= j < |a| && FiledFrom(group.text, a[j], r[i])
  {
    var g := GroupEach(group, a);
    forall i | 0 <= i < |r|
      ensures '>' in r[i] && exists j :: 0 <= j < |a| && FiledFrom(group.text, a[j], r[i])
    {
      var j :| 0 <= j < |g| && g[j] == r[i];
      GroupTagGrouped(group, a[j], r[i]);
      assert FiledFrom(group.text, a[j], r[i]);
    }
  }

  /** `x` is the tag `t` as stored under `group`: kept trimmed when it has its own '>', else filed under the group. */
  predicate FiledFrom(group: string, t: string, x: string) {
    (x == Trim(t) && '>' in Trim(t)) || x == group + " > " + Trim(t)
  }

  lemma GroupTagGrouped(group: Field, t: string, x: string)
    requires Truthy(group) && x == GroupTag(group, t) && x != []
    ensures '>' in x && FiledFrom(group.text, t, x)
  {
    if '>' !in Trim(t) {
      assert x[|group.text| + 1] == '>';
    }
  }

  /** Tags sent as one comma list are stored as the list, when each already stands as it would be stored. */
  lemma UploadTagsOfCommaList(items: seq<string>, group: Field)
    requires forall i :: 0 <= i < |items| ==> items[i] != [] && Trim(items[i]) == items[i] && ',' !in items[i]
    requires Truthy(group) ==> forall i :: 0 <= i < |items| ==> '>' in items[i]
    ensures UploadTags(TagText(Join(items, ",")), group) == items
  {
    CommaListJoin(items);
    GroupEachFixed(group, items);
    DropEmptyOfNonEmpty(items);
  }

  lemma GroupEachFixed(group: Field, items: seq<string>)
    requires forall i :: 0 <= i < |items| ==> items[i] != [] && Trim(items[i]) == items[i]
    requires Truthy(group) ==> forall i :: 0 <= i < |items| ==> '>' in items[i]
    ensures GroupEach(group, items) == items
  {
    var g := GroupEach(group, items);
    forall i | 0 <= i < |items|
      ensures g[i] == items[i]
    {
      assert g[i] == GroupTag(group, items[i]);
    }
  }

  /** Without a group, tags given as a list are trimmed and the empty ones dropped, order kept. */
  lemma UploadTagsUngrouped(items: seq<string>, group: Field)
    requires !Truthy(group)
    ensures UploadTags(TagList(items), group) == DropEmpty(TrimEach(items))
  {
    GroupEachUngrouped(group, items);
  }

  lemma {:induction false} GroupEachUngrouped(group: Field, items: seq<string>)
    requires !Truthy(group)
    ensures GroupEach(group, items) == TrimEach(items)
  {
    if items != [] {
      GroupEachUngrouped(group, items[1..]);
    }
  }

  /* ---------------------------------------------------------------- upload */

  /** One file of the multipart body; `uuid` and `guessedType` are what `uuidv4()` and `mime.getType(filename)` give for it ("" for null). */
  datatype UploadedFile = UploadedFile(originalName: string, mimeType: string, buffer: Bytes, uuid: string, guessedType: string)

  datatype UploadForm = UploadForm(title: Field, desc: Field, uploader: Field, tags: FormTags, group: Field)

  /** What the upload answers for each saved file (the row without its content, and the url). */
  datatype Listed = Listed(
    id: int, title: string, description: Option<string>, uploader: string, tags: seq<string>,
    filename: string, mimeType: string, sizeBytes: nat, url: string)

  /** The stored file name: the original one, or a fresh "upload-<uuid>" when it is empty. */
  function FileName(f: UploadedFile): (r: string)
    ensures r != []
    ensures f.originalName != [] ==> r == f.originalName
    ensures f.originalName == [] ==> StartsWith(r, "upload-") && r[7..] == f.uuid
  {
    if f.originalName != [] then f.originalName else "upload-" + f.uuid
  }

  /** The stored MIME type: the upload's, else the guess from the name, else application/octet-stream. */
  function FileType(f: UploadedFile): (r: string)
    ensures r != []
    ensures f.mimeType != [] ==> r == f.mimeType
    ensures f.mimeType == [] && f.guessedType != [] ==> r == f.guessedType
    ensures f.mimeType == [] && f.guessedType == [] ==> r == "application/octet-stream"
  {
    if f.mimeType != [] then f.mimeType
    else if f.guessedType != [] then f.guessedType
    else "application/octet-stream"
  }

  /** The public base URL when it is configured, else the request's protocol and host. */
  function BaseUrl(publicBase: Field, protocol: string, host: Field): string {
    if Truthy(publicBase) then publicBase.text else protocol + "://" + ToText(host)
  }

  /** The address a stored video is streamed from. */
  function VideoUrl(base: string, id: nat): (r: string)
    ensures StartsWith(r, base) && EndsWith(r, "/stream")
  {
    base + "/api/videos/" + NatToDecimal(id) + "/stream"
  }

  /** Distinct videos are streamed from distinct addresses. */
  lemma VideoUrlInjective(base: string, a: nat, b: nat)
    requires VideoUrl(base, a) == VideoUrl(base, b)
    ensures a == b
  {
    var x := VideoUrl(base, a);
    var y := VideoUrl(base, b);
    var p := |base| + 12;
    assert x[p..|x| - 7] == NatToDecimal(a);
    assert y[p..|y| - 7] == NatToDecimal(b);
    NatToDecimalInjective(a, b);
  }

  predicate FormComplete(form: UploadForm) {
    Truthy(form.title) && Truthy(form.uploader)
  }

  /** The row stored for one file, url included. */
  function Row(f: UploadedFile, form: UploadForm, tags: seq<string>, base: string, id: nat): (v: Video)
    requires FormComplete(form)
  {
    Video(form.title.text, if Truthy(form.desc) then Some(form.desc.text) else None, form.uploader.text,
          tags, FileName(f), FileType(f), |f.buffer|, Some(f.buffer),
          Some(VideoUrl(base, id)))
  }

  function Listing(id: int, v: Video, url: string): Listed {
    Listed(id, v.title, v.description, v.uploader, v.tags, v.filename, v.mimeType, v.sizeBytes, url)
  }

  /**
   * `after` is `before` with the rows of the first `n` files added under
   * the ids drawn from `first` on, in file order.
   */
  ghost predicate Added(before: map<int, Video>, after: map<int, Video>, files: seq<UploadedFile>, n: nat,
                        form: UploadForm, tags: seq<string>, base: string, first: nat)
    requires n <= |files| && FormComplete(form)
  {
    && (forall id :: id in after <==> id in before || first <= id < first + n)
    && (forall id :: id in before ==> after[id] == before[id])
    && (forall k :: 0 <= k < n ==> first + k in after && after[first + k] == Row(files[k], form, tags, base, first + k))
  }

  lemma AddedStep(before: map<int, Video>, mid: map<int, Video>, after: map<int, Video>, files: seq<UploadedFile>, i: nat,
                  form: UploadForm, tags: seq<string>, base: string, first: nat)
    requires i < |files| && FormComplete(form)
    requires forall id :: id in before ==> id < first
    requires Added(before, mid, files, i, form, tags, base, first)
    requires after == mid[first + i := Row(files[i], form, tags, base, first + i)]
    ensures Added(before, after, files, i + 1, form, tags, base, first)
  {
  }

  /** The records the upload answers with: one per file, in file order, with consecutive ids. */
  function SavedList(files: seq<UploadedFile>, n: nat, form: UploadForm, tags: seq<string>, base: string, first: nat): (r: seq<Listed>)
    requires n <= |files| && FormComplete(form)
  {
    if n == 0 then []
    else SavedList(files, n - 1, form, tags, base, first)
         + [Listing(first + n - 1, Row(files[n - 1], form, tags, base, first + n - 1), VideoUrl(base, first + n - 1))]
  }

  /** The k-th record lists the k-th file under id `first + k`. */
  lemma {:induction false} SavedListShape(files: seq<UploadedFile>, n: nat, form: UploadForm, tags: seq<string>, base: string, first: nat)
    requires n <= |files| && FormComplete(form)
    ensures |SavedList(files, n, form, tags, base, first)| == n
    ensures forall k :: 0 <= k < n ==> SavedList(files, n, form, tags, base, first)[k]
                                       == Listing(first + k, Row(files[k], form, tags, base, first + k), VideoUrl(base, first + k))
  {
    if n > 0 {
      var prev := SavedList(files, n - 1, form, tags, base, first);
      SavedListShape(files, n - 1, form, tags, base, first);
      var last := Listing(first + n - 1, Row(files[n - 1], form, tags, base, first + n - 1), VideoUrl(base, first + n - 1));
      assert SavedList(files, n, form, tags, base, first) == prev + [last];
    }
  }

  /** The upload fails at statement `fault` of one of its `n` files. */
  predicate UploadFault(fault: Option<Stmt>, n: nat) {
    fault.Some? && (fault.value.InsertVideoRow? || fault.value.SetVideoUrl?) && fault.value.k < n
  }

  /**
   * Inserts one file's row and sets its url. When one of the two
   * statements fails, the transaction is rolled back to `snapshot` and
   * `ok` is false.
   */
  method StoreFile(db: Database, f: UploadedFile, form: UploadForm, tags: seq<string>, base: string,
                   k: nat, fault: Option<Stmt>, snapshot: Tables)
    returns (ok: bool, id: nat)
    requires db.Valid() && FormComplete(form) && db.openTx > 0
    requires Consistent(snapshot) && Fits(snapshot, db.serial)
    modifies db
    ensures db.Valid() && Fits(snapshot, db.serial)
    ensures db.serial == old(db.serial).(video := db.serial.video) && db.serial.video >= old(db.serial.video)
    ensures ok <==> fault != Some(InsertVideoRow(k)) && fault != Some(SetVideoUrl(k))
    ensures !ok ==> db.t == snapshot && db.openTx == old(db.openTx) - 1
    ensures ok ==> db.openTx == old(db.openTx) && id == old(db.serial.video) && db.serial.video == id + 1
    ensures ok ==> db.t == old(db.t).(videos := old(db.t.videos)[id := Row(f, form, tags, base, id)])
  {
    if fault == Some(InsertVideoRow(k)) {
      db.Rollback(snapshot);
      return false, 0;
    }
    var v := Row(f, form, tags, base, db.serial.video);
    ghost var before := db.t;
    ghost var s := db.serial;
    id := db.InsertVideo(v.(url := None));
    FitsLater(snapshot, s, db.serial);
    if fault == Some(SetVideoUrl(k)) {
      db.Rollback(snapshot);
      return false, id;
    }
    db.SetVideoUrl(id, VideoUrl(base, id));
    assert db.t.videos == before.videos[id := v];
    ok := true;
  }

  /**
   * POST /. A transaction is opened first; the two 400 answers return
   * without closing it. A failing statement rolls the rows back (the
   * sequence keeps the ids it gave out) and becomes a 500.
   */
  method Upload(db: Database, files: seq<UploadedFile>, form: UploadForm, base: string, fault: Option<Stmt>)
    returns (reply: Reply<seq<Listed>>)
    requires db.Valid()
    modifies db
    ensures db.Valid()
    ensures db.serial == old(db.serial).(video := db.serial.video) && db.serial.video >= old(db.serial.video)
    ensures files == [] ==>
      reply == Failed(400, NoFile) && db.t == old(db.t) && db.openTx == old(db.openTx) + 1
    ensures files != [] && !FormComplete(form) ==>
      reply == Failed(400, MissingTitleOrUploader) && db.t == old(db.t) && db.openTx == old(db.openTx) + 1
    ensures files != [] && FormComplete(form) && UploadFault(fault, |files|) ==>
      reply == Failed(500, Internal) && db.t == old(db.t) && db.openTx == old(db.openTx)
    ensures files != [] && FormComplete(form) && !UploadFault(fault, |files|) ==>
      && reply.Done? && reply.status == 201 && db.openTx == old(db.openTx)
      && Uploaded(old(db.t), old(db.serial), db.t, db.serial, files, |files|, form, UploadTags(form.tags, form.group), base, reply.body)
  {
    db.Begin();
    if files == [] {
      return Failed(400, NoFile);
    }
    if !FormComplete(form) {
      return Failed(400, MissingTitleOrUploader);
    }
    reply := SaveAll(db, files, form, UploadTags(form.tags, form.group), base, fault);
  }

  /**
   * The rows of the first `n` files were added under consecutive ids from
   * the video sequence, nothing else changed, and `listed` answers for
   * them in file order.
   */
  ghost predicate Uploaded(before: Tables, s0: Serials, after: Tables, s1: Serials, files: seq<UploadedFile>, n: nat,
                           form: UploadForm, tags: seq<string>, base: string, listed: seq<Listed>)
  {
    && n <= |files| && FormComplete(form)
    && after == before.(videos := after.videos)
    && Added(before.videos, after.videos, files, n, form, tags, base, s0.video)
    && s1 == s0.(video := s0.video + n)
    && listed == SavedList(files, n, form, tags, base, s0.video)
  }

  /** The loop over the files, inside the open transaction, ending in a commit or a rollback. */
  method SaveAll(db: Database, files: seq<UploadedFile>, form: UploadForm, tags: seq<string>, base: string, fault: Option<Stmt>)
    returns (reply: Reply<seq<Listed>>)
    requires db.Valid() && db.openTx > 0 && FormComplete(form)
    modifies db
    ensures db.Valid() && db.openTx == old(db.openTx) - 1
    ensures db.serial == old(db.serial).(video := db.serial.video) && db.serial.video >= old(db.serial.video)
    ensures UploadFault(fault, |files|) ==> reply == Failed(500, Internal) && db.t == old(db.t)
    ensures !UploadFault(fault, |files|) ==>
      && reply.Done? && reply.status == 201
      && Uploaded(old(db.t), old(db.serial), db.t, db.serial, files, |files|, form, tags, base, reply.body)
  {
    var t0 := db.t;
    var s0 := db.serial;
    var tx := db.openTx;
    var saved: seq<Listed> := [];
    var i := 0;
    var ok := true;
    assert Consistent(t0) && Below(t0.videos.Keys, s0.video);
    while ok && i < |files|
      invariant 0 <= i <= |files|
      invariant ok ==> Saving(db, t0, s0, tx, files, i, form, tags, base, fault, saved)
      invariant !ok ==> RolledBack(db, t0, s0, tx) && UploadFault(fault, |files|)
    {
      ok, saved := SaveNext(db, t0, s0, tx, files, i, form, tags, base, fault, saved);
      if ok {
        i := i + 1;
      }
    }
    if ok {
      db.Commit();
      reply := Done(201, saved);
    } else {
      reply := Failed(500, Internal);
    }
  }

  /** The transaction was rolled back to `t0`; the sequences keep what they gave out. */
  ghost predicate RolledBack(db: Database, t0: Tables, s0: Serials, tx: nat)
    reads db
  {
    db.Valid() && db.openTx == tx - 1 && db.t == t0
    && db.serial == s0.(video := db.serial.video) && db.serial.video >= s0.video
  }

  /** The state of the upload loop after the first `i` files. */
  ghost predicate Saving(db: Database, t0: Tables, s0: Serials, tx: nat, files: seq<UploadedFile>, i: nat,
                         form: UploadForm, tags: seq<string>, base: string, fault: Option<Stmt>, saved: seq<Listed>)
    reads db
  {
    && db.Valid() && db.openTx == tx && tx > 0 && Fits(t0, db.serial)
    && Uploaded(t0, s0, db.t, db.serial, files, i, form, tags, base, saved)
    && !UploadFault(fault, i)
  }

  /** One turn of the upload loop. */
  method SaveNext(db: Database, t0: Tables, s0: Serials, tx: nat, files: seq<UploadedFile>, i: nat,
                  form: UploadForm, tags: seq<string>, base: string, fault: Option<Stmt>, saved: seq<Listed>)
    returns (ok: bool, next: seq<Listed>)
    requires Consistent(t0) && Below(t0.videos.Keys, s0.video)
    requires i < |files| && Saving(db, t0, s0, tx, files, i, form, tags, base, fault, saved)
    modifies db
    ensures ok ==> Saving(db, t0, s0, tx, files, i + 1, form, tags, base, fault, next)
    ensures !ok ==> RolledBack(db, t0, s0, tx) && UploadFault(fault, |files|)
  {
    ghost var before := db.t.videos;
    var id;
    ok, id := StoreFile(db, files[i], form, tags, base, i, fault, t0);
    if !ok {
      return false, saved;
    }
    AddedStep(t0.videos, before, db.t.videos, files, i, form, tags, base, s0.video);
    next := saved + [Listing(id, Row(files[i], form, tags, base, id), VideoUrl(base, id))];
  }

  /* ------------------------------------------------------- recommendation */

  /** `titleCase`: lower-cased, split on single spaces, empty words dropped, each word's first character upper-cased. */
  function Capitalize(w: string): (r: string)
    requires w != []
    ensures r != [] && (' ' !in w ==> ' ' !in r)
  {
    UpperChar(w[0]) + w[1..]
  }

  function CapitalizeEach(ws: seq<string>): (r: seq<string>)
    requires forall i :: 0 <= i < |ws| ==> ws[i] != []
    ensures |r| == |ws|
    ensures forall i :: 0 <= i < |r| ==> r[i] == Capitalize(ws[i])
  {
    if ws == [] then [] else [Capitalize(ws[0])] + CapitalizeEach(ws[1..])
  }

  function TitleWords(s: string): (r: seq<string>)
    ensures forall i :: 0 <= i < |r| ==> r[i] != [] && ' ' !in r[i]
  {
    CapitalizeEach(DropEmpty(Split(Lower(s), ' ')))
  }

  function TitleCase(s: string): string {
    Join(TitleWords(s), " ")
  }

  /** titleCase's words are exactly what splitting its result on spaces gives back: none empty, one space between two. */
  lemma TitleCaseWords(s: string)
    ensures TitleCase(s) == [] <==> TitleWords(s) == []
    ensures TitleCase(s) != [] ==> Split(TitleCase(s), ' ') == TitleWords(s)
  {
    var ws := TitleWords(s);
    if ws != [] {
      SplitJoin(ws, ' ');
      assert Join(ws, " ") != [];
    }
  }

  lemma {:induction false} SplitOnlySeparators(x: string, sep: char)
    requires forall i :: 0 <= i < |Split(x, sep)| ==> Split(x, sep)[i] == []
    ensures forall i :: 0 <= i < |x| ==> x[i] == sep
  {
    if x != [] {
      var rest := Split(x[1..], sep);
      if x[0] == sep {
        assert Split(x, sep) == [[]] + rest;
        assert forall i :: 0 <= i < |rest| ==> rest[i] == Split(x, sep)[i + 1];
        SplitOnlySeparators(x[1..], sep);
        assert forall i :: 1 <= i < |x| ==> x[i] == x[1..][i - 1];
      } else {
        SplitFirstPart(x, sep);
      }
    }
  }

  lemma SplitFirstPart(x: string, sep: char)
    ensures x != [] && x[0] != sep ==> Split(x, sep)[0] != []
  {
    if x != [] && x[0] != sep {
      assert Split(x, sep)[0] == [x[0]] + Split(x[1..], sep)[0];
    }
  }

  lemma {:induction false} LowerKeepsNonSpace(s: string, i: nat)
    requires i < |s| && s[i] != ' '
    ensures exists j :: 0 <= j < |Lower(s)| && Lower(s)[j] != ' '
  {
    var l := LowerChar(s[0]);
    assert Lower(s) == l + Lower(s[1..]);
    if i == 0 {
      assert Lower(s)[0] == l[0];
    } else {
      LowerKeepsNonSpace(s[1..], i - 1);
      var j :| 0 <= j < |Lower(s[1..])| && Lower(s[1..])[j] != ' ';
      assert Lower(s)[|l| + j] == Lower(s[1..])[j];
    }
  }

  /** A string with something other than spaces has a title-cased word. */
  lemma TitleCaseNonEmpty(s: string, i: nat)
    requires i < |s| && s[i] != ' '
    ensures TitleWords(s) != []
  {
    LowerKeepsNonSpace(s, i);
    var parts := Split(Lower(s), ' ');
    if DropEmpty(parts) == [] {
      SplitOnlySeparators(Lower(s), ' ');
    }
  }

  /** Trimming and title-casing leaves nothing exactly when there was only whitespace. */
  lemma TitleCaseBlank(w: string)
    ensures TitleCase(Trim(w)) == [] <==> AllWhitespace(w)
  {
    TitleCaseWords(Trim(w));
    if Trim(w) != [] {
      TitleCaseNonEmpty(Trim(w), 0);
    }
  }

  /** `deptTag`: the work area, trimmed and title-cased, under "DEPARTMAN > "; null when nothing is left. */
  function DeptTag(workArea: Option<string>): (r: Option<string>)
    ensures r.None? <==> (workArea.None? || AllWhitespace(workArea.value))
    ensures r.Some? ==> StartsWith(r.value, "DEPARTMAN > ") && r.value[12..] == TitleCase(Trim(workArea.value))
  {
    var w := if workArea.Some? then workArea.value else "";
    var t := TitleCase(Trim(w));
    TitleCaseBlank(w);
    if t != [] then Some("DEPARTMAN > " + t) else None
  }

  /** The distinct elements, each where it first occurs. */
  function Dedupe(xs: seq<string>): (r: seq<string>)
    ensures forall x :: x in r <==> x in xs
    ensures forall i, j :: 0 <= i < j < |r| ==> r[i] != r[j]
  {
    if xs == [] then []
    else
      var r := Dedupe(xs[..|xs| - 1]);
      assert xs == xs[..|xs| - 1] + [xs[|xs| - 1]];
      if xs[|xs| - 1] in r then r else r + [xs[|xs| - 1]]
  }

  /** The lower-cased search needles: the user's tags and department tag, empty ones dropped, duplicates removed. */
  function Needles(userTags: seq<string>, workArea: Option<string>): (r: seq<string>)
  {
    LowerEach(Dedupe(DropEmpty(NeedleSources(userTags, workArea))))
  }

  function LowerEach(xs: seq<string>): (r: seq<string>)
    ensures |r| == |xs| && forall i :: 0 <= i < |r| ==> r[i] == Lower(xs[i])
  {
    if xs == [] then [] else [Lower(xs[0])] + LowerEach(xs[1..])
  }

  /** The tags the needles are drawn from: the user's own, then the department tag when there is one. */
  function NeedleSources(userTags: seq<string>, workArea: Option<string>): (r: seq<string>)
    ensures r == userTags || (DeptTag(workArea).Some? && r == userTags + [DeptTag(workArea).value])
    ensures DeptTag(workArea).Some? ==> |DeptTag(workArea).value| > 12 && DeptTag(workArea).value in r
  {
    var dept := DeptTag(workArea);
    if dept.Some? then userTags + [dept.value] else userTags
  }

  /** Every non-empty user tag, and the department tag, is searched for in lower case. */
  lemma NeedlesContain(userTags: seq<string>, workArea: Option<string>)
    ensures forall t :: t in NeedleSources(userTags, workArea) && t != [] ==> Lower(t) in Needles(userTags, workArea)
  {
    LowerKeptContains(NeedleSources(userTags, workArea));
  }

  lemma LowerKeptContains(xs: seq<string>)
    ensures forall t :: t in xs && t != [] ==> Lower(t) in LowerEach(Dedupe(DropEmpty(xs)))
  {
    var d := Dedupe(DropEmpty(xs));
    forall t | t in xs && t != []
      ensures Lower(t) in LowerEach(d)
    {
      DropEmptyKeeps(xs, t);
      var k :| 0 <= k < |d| && d[k] == t;
      assert LowerEach(d)[k] == Lower(t);
    }
  }

  /** There is nothing to search for exactly when every user tag is empty and the work area is blank. */
  lemma NeedlesEmpty(userTags: seq<string>, workArea: Option<string>)
    ensures Needles(userTags, workArea) == [] <==>
      (forall i :: 0 <= i < |userTags| ==> userTags[i] == []) && (workArea.None? || AllWhitespace(workArea.value))
  {
    var all := NeedleSources(userTags, workArea);
    var kept := DropEmpty(all);
    assert |Needles(userTags, workArea)| == |Dedupe(kept)|;
    assert Dedupe(kept) == [] <==> kept == [] by {
      if kept != [] {
        assert kept[0] in Dedupe(kept);
      }
    }
    assert forall i :: 0 <= i < |userTags| ==> userTags[i] == all[i];
  }

  lemma {:induction false} DropEmptyKeeps(ps: seq<string>, x: string)
    requires x in ps && x != []
    ensures x in DropEmpty(ps)
  {
    if ps[0] != x {
      DropEmptyKeeps(ps[1..], x);
    }
  }

  /** Some tag of the video holds a needle, ignoring case (LIKE '%needle%' on lower(tag)). */
  predicate Matches(v: Video, needles: seq<string>) {
    exists i, j :: 0 <= i < |v.tags| && 0 <= j < |needles| && Contains(Lower(v.tags[i]), needles[j])
  }

  /** The ids of the videos a recommendation may list. */
  function MatchingIds(videos: map<int, Video>, needles: seq<string>): (r: set<int>)
    ensures forall id :: id in r <==> id in videos && Matches(videos[id], needles)
  {
    set id | id in videos && Matches(videos[id], needles)
  }

  /** A video with a tag that, lower-cased, equals a needle is selected (the `lower(t) = ANY($1)` test). */
  lemma MatchingExactTag(videos: map<int, Video>, needles: seq<string>, id: int, i: nat, j: nat)
    requires id in videos && i < |videos[id].tags| && j < |needles|
    requires Lower(videos[id].tags[i]) == needles[j]
    ensures id in MatchingIds(videos, needles)
  {
    assert OccursAt(Lower(videos[id].tags[i]), needles[j], 0);
  }

  /** A video with a tag that, lower-cased, holds a needle is selected (the `LIKE ANY('%needle%')` test). */
  lemma MatchingInnerTag(videos: map<int, Video>, needles: seq<string>, id: int, i: nat, j: nat, at: nat)
    requires id in videos && i < |videos[id].tags| && j < |needles|
    requires OccursAt(Lower(videos[id].tags[i]), needles[j], at)
    ensures id in MatchingIds(videos, needles)
  {
    assert Contains(Lower(videos[id].tags[i]), needles[j]);
  }

  /** More needles select at least the same videos. */
  lemma MatchingMonotone(videos: map<int, Video>, fewer: seq<string>, more: seq<string>)
    requires forall n :: n in fewer ==> n in more
    ensures MatchingIds(videos, fewer) <= MatchingIds(videos, more)
  {
    forall id | id in MatchingIds(videos, fewer)
      ensures id in MatchingIds(videos, more)
    {
      var i, j :| 0 <= i < |videos[id].tags| && 0 <= j < |fewer| && Contains(Lower(videos[id].tags[i]), fewer[j]);
      assert fewer[j] in more;
      var k :| 0 <= k < |more| && more[k] == fewer[j];
      assert Contains(Lower(videos[id].tags[i]), more[k]);
    }
  }

  /** The members of `keep` in 1..hi, highest first (ORDER BY id DESC). */
  function Descending(keep: set<int>, hi: int): (r: seq<int>)
    ensures forall i :: 0 <= i < |r| ==> 0 < r[i] <= hi && r[i] in keep
    ensures forall i, j :: 0 <= i < j < |r| ==> r[i] > r[j]
    ensures forall id :: 0 < id <= hi && id in keep ==> id in r
    decreases hi
  {
    if hi <= 0 then []
    else if hi in keep then [hi] + Descending(keep, hi - 1)
    else Descending(keep, hi - 1)
  }

  /** How a listed video answers: a stored url, or the stream address; tags trimmed. */
  function Present(id: int, v: Video, base: string): Listed
    requires id > 0
  {
    var url := if v.url.Some? && v.url.value != [] then v.url.value else VideoUrl(base, id);
    Listing(id, v.(tags := TrimEach(v.tags)), url)
  }

  function PresentAll(ids: seq<int>, videos: map<int, Video>, base: string): (r: seq<Listed>)
    requires forall i :: 0 <= i < |ids| ==> ids[i] > 0 && ids[i] in videos
    ensures |r| == |ids| && forall i :: 0 <= i < |r| ==> r[i].id == ids[i]
    ensures forall i :: 0 <= i < |r| ==> r[i] == Present(ids[i], videos[ids[i]], base)
  {
    if ids == [] then [] else [Present(ids[0], videos[ids[0]], base)] + PresentAll(ids[1..], videos, base)
  }

  /** The videos whose tags hold a needle, presented as stored, highest id first. */
  function Recommended(videos: map<int, Video>, needles: seq<string>, hi: int, base: string): (r: seq<Listed>)
    requires forall id :: id in videos ==> 0 < id <= hi
    ensures forall i :: 0 <= i < |r| ==> r[i].id in videos && Matches(videos[r[i].id], needles)
    ensures forall i :: 0 <= i < |r| && r[i].id in videos ==> r[i] == Present(r[i].id, videos[r[i].id], base)
    ensures forall i, j :: 0 <= i < j < |r| ==> r[i].id > r[j].id
  {
    PresentAll(Descending(MatchingIds(videos, needles), hi), videos, base)
  }

  /** No matching video is left out. */
  lemma RecommendedComplete(videos: map<int, Video>, needles: seq<string>, hi: int, base: string)
    requires forall id :: id in videos ==> 0 < id <= hi
    ensures var r := Recommended(videos, needles, hi, base);
            forall id :: id in videos && Matches(videos[id], needles) ==> exists i :: 0 <= i < |r| && r[i].id == id
  {
    var keep := MatchingIds(videos, needles);
    var ids := Descending(keep, hi);
    var r := Recommended(videos, needles, hi, base);
    forall id | id in videos && Matches(videos[id], needles)
      ensures exists i :: 0 <= i < |r| && r[i].id == id
    {
      assert id in keep;
      var i :| 0 <= i < |ids| && ids[i] == id;
      assert r[i].id == id;
    }
  }

  /**
   * GET /recommended/:userId, `userId` being what `Number` makes of the
   * path segment (None when it is not an integer). An empty needle list
   * matches nothing, which is the handler's early empty answer.
   */
  function Recommend(db: Tables, s: Serials, userId: Option<int>, base: string): (r: Reply<seq<Listed>>)
    requires Fits(db, s)
    ensures userId.None? <==> r == Failed(400, InvalidUserId)
    ensures userId.Some? && userId.value !in db.users <==> r == Failed(404, UserNotFound)
    ensures r.Done? ==> r.status == 200 && userId.Some? && userId.value in db.users
    ensures r.Done? ==> r.body == Recommended(db.videos, Needles(db.users[userId.value].tags, db.users[userId.value].workArea), s.video, base)
  {
    if userId.None? then Failed(400, InvalidUserId)
    else if userId.value !in db.users then Failed(404, UserNotFound)
    else
      var u := db.users[userId.value];
      Done(200, Recommended(db.videos, Needles(u.tags, u.workArea), s.video, base))
  }
}
