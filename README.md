# Urtim e-learning backend and browser API helpers, in Dafny

This project models the core of the Urtim e-learning site: an Express
server over PostgreSQL and the two browser-side helpers the front end
uses to call it.

## What is modelled

- **Video routes** (`routes/videos.js`):
  - byte-range streaming of the stored content (byte ranges as in RFC 7233);
  - the multi-file upload, which writes one row per file inside one
    transaction and gives each row its stream URL;
  - normalisation of the upload tags;
  - the department tag and the search needles behind the
    recommendation list, and the recommendation list itself.
- **User routes** (`routes/users.js`):
  - tag and authority normalisation;
  - creation of a user;
  - the PUT handler, which builds its SET list dynamically, and what
    executing that UPDATE does to the row;
  - replacement of a user's education list inside a transaction;
  - the two watched-video routes (the transactional POST with its view
    log, and the PATCH).
- **Exam routes** (`routes/exams.js`):
  - creation of a video's exam with its questions, and tagging the video
    "SINAVLI";
  - reading a video's latest exam back.
- **Combined upload** (`routes/videoExams.js`): a video, its exam and the
  exam's questions saved in one transaction.
- **Browser helpers** (`axios.js` and `api.js`):
  - choice of the base URL;
  - token storage across local and session storage;
  - the request interceptors that add the token headers;
  - the response interceptors that reject non-JSON answers and
    normalise errors;
  - the path helper;
  - reading the signed-in user from the token's payload segment.

### The database

The database is the class `Store.Database`:
- `t` holds the tables (videos, exams, questions, users, education rows,
  the view log).
- `serial` holds the SERIAL counters.
- `openTx` counts the transactions a handler has opened and not yet
  closed.

A transaction takes a snapshot of `t`. A rollback restores the snapshot.
The counters are not restored, as in PostgreSQL, so an id drawn inside a
rolled-back transaction stays used.

Each route takes a `fault: Option<Stmt>` naming the one statement the
database rejects, if any. This lets every error path be stated and
proved, except a failing BEGIN or COMMIT (see "Left out"). Authorisation by the auth middleware (the token's user is the
user of the path) is a boolean input `authorised`.

JavaScript values a handler reads from a request body are `JsValue.Field`:
- `Undefined`;
- `Null`;
- `Str(text)`.

Truthiness, `String(...)`, `||` and `??` are written out over this type.

`Text` holds the string built-ins the handlers use, with their
JavaScript meaning:
- `trim`;
- `split` and `join`;
- lower and upper case;
- `parseInt`;
- decimal rendering.

### Where the code departs from its own description

The model follows the code in each of these places. Some of the routes
involved cannot run as written: their row lookups and the combined
upload's parameter binding are broken (see "Left out"). For those, the
items below describe the code under the reading the model takes, where
each lookup gives an optional row and each value is bound to its `$n`.
- `routes/exams.js:63`: an exam that already exists is answered 409 and
  the transaction is left open. Nothing is rolled back. As written this
  409 is never reached: the unique index refuses the duplicate INSERT,
  and the answer is 500.
- `routes/exams.js:65-72`: the exam INSERT is not given the transaction.
  A later failure rolls back the questions and the tags but keeps the
  exam row. Under the intended lookup a retry then gets 409; as written
  it gets the unique-index 500. `Exams.PostExam` states the intended
  reading.
- `routes/videos.js:59,62`: the 400 answers of the upload leave the
  transaction open (`openTx` grows by one).
- `routes/videoExams.js:76-77,107-109`: missing fields are thrown inside
  the transaction. The application's error handler answers them 500, not
  400. A missing exam field is found only after the video row was
  inserted, so that row is rolled back and its id stays used.
- `routes/videoExams.js:127`: a question with neither `q` nor
  `question_text` binds NULL into a NOT NULL column. The insert fails and
  everything is rolled back. Its answer and image are stored as NULL
  when missing. `routes/exams.js:81-82` instead stores "" for a missing
  text or answer.
- `routes/videos.js:186-194`: a range whose start lies past its clamped
  end gives a negative substring length, which PostgreSQL rejects (a
  500). A start one past the end gives a 206 with an empty body.

## Model

| member | source | states |
|---|---|---|
| ByteRanges.MatchAt | routes/videos.js:169 | a match of the byte-range pattern at a position starts with "bytes=" there |
| ByteRanges.FindRangeNone | routes/videos.js:169 | with no match at or after a position, the unanchored search finds none |
| ByteRanges.ParseRangeHeader | routes/videos.js:169-173 | every header `bytes=<first>-<last?>` parses back to exactly its first and last positions |
| ByteRanges.SuffixRangeRejected | routes/videos.js:169-170 | a suffix range `bytes=-N` is not understood, so the handler answers 416 |
| ByteRanges.NoUnitNoRange | routes/videos.js:169-170 | a header with no "bytes=" in it never parses |
| ByteRanges.ResolveWindow | routes/videos.js:184-186 | the window starts at the asked start; realEnd is the last byte or the asked end, whichever is smaller; chunkSize = realEnd - start + 1; a non-empty window never passes the last byte |
| ByteRanges.Substring | routes/videos.js:188-194 | PostgreSQL substring with 1-based offset: an error for a negative length, otherwise the bytes from the offset, clipped to the content |
| ByteRanges.WindowRead | routes/videos.js:188-194 | reading at offset start + 1 for chunkSize bytes yields exactly the window's bytes, chunkSize of them |
| ByteRanges.InvertedWindowFails | routes/videos.js:185-194 | a start more than one past the clamped end makes the substring length negative, and the read fails |
| Videos.ContentType | routes/videos.js:161 | the Content-Type is the stored MIME type, or application/octet-stream when there is none; never empty |
| Videos.Stream | routes/videos.js:145-207 | without Range: 200, the whole content, Content-Length = total and Content-Range bytes 0-(total-1)/total, or 404 for an unknown id. With a Range the pattern rejects: 416 before any read. Otherwise 404 for an unknown id; a read at start+1 for chunkSize bytes; 206 with Content-Range bytes start-realEnd/total and exactly chunkSize bytes, 404 for NULL content, 500 for a negative length. Content-Length always equals the body length |
| Videos.GroupTag | routes/videos.js:71-74 | the stored tag ends with the trimmed tag and is blank exactly when the tag is; without a group it is the trimmed tag; under a group every non-blank tag holds a '>' |
| Videos.GroupEach | routes/videos.js:70-74 | every tag is grouped, position by position |
| Videos.UploadTags | routes/videos.js:64-75 | the stored upload tags are all non-empty |
| Videos.UploadTagsGrouped | routes/videos.js:70-75 | with a group, every stored tag contains '>' and comes from one input tag, kept or filed under the group |
| Videos.UploadTagsOfCommaList | routes/videos.js:64-75 | a comma list of clean tags, already grouped where a group is given, is stored as exactly those tags in order |
| Videos.UploadTagsUngrouped | routes/videos.js:64-75 | without a group, the stored tags are the input tags trimmed, empty ones dropped, in order |
| Videos.FileName | routes/videos.js:79 | the file name is the original name, or "upload-" plus a uuid; never empty |
| Videos.FileType | routes/videos.js:80 | the MIME type is the upload's, else the guess from the file name, else application/octet-stream; never empty |
| Videos.VideoUrl | routes/videos.js:93 | the stream URL starts with the base and ends in "/stream" |
| Videos.VideoUrlInjective | routes/videos.js:93 | two videos with different ids never get the same stream URL |
| Videos.Upload | routes/videos.js:56-110 | no files: 400; title or uploader missing: 400. A failing statement: 500 with the tables unchanged. Otherwise 201, one new row per file under consecutive ids in file order, each with its stream URL, and nothing else changed |
| Videos.SaveAll | routes/videos.js:77-104 | the upload loop and commit: either everything is saved and listed in file order, or the tables are rolled back |
| Videos.StoreFile | routes/videos.js:84-94 | one file: a new row under the next id, with its URL set, or a rollback to the snapshot |
| Videos.SaveNext | routes/videos.js:78-101 | one turn of the upload loop keeps the loop invariant, or the transaction is rolled back |
| Videos.SavedListShape | routes/videos.js:96-100 | the answer lists the k-th file under id first + k |
| Videos.TitleWords | routes/videos.js:35-37 | the title-cased words are never empty and contain no space |
| Videos.TitleCaseWords | routes/videos.js:35-37 | a title-cased string is empty exactly when it has no words, and otherwise splits on single spaces back into its words |
| Videos.TitleCaseBlank | routes/videos.js:35-41 | the trimmed work area title-cases to "" exactly when it is all whitespace |
| Videos.DeptTag | routes/videos.js:38-41 | null exactly for a missing or blank work area; otherwise "DEPARTMAN > " followed by the title-cased trimmed work area |
| Videos.Dedupe | routes/videos.js:232 | deduplication keeps the same elements, with no element twice |
| Videos.NeedleSources | routes/videos.js:230-232 | the needles come from the user's tags, plus the department tag when there is one |
| Videos.NeedlesContain | routes/videos.js:230-235 | every non-empty tag of the user, and the department tag, is a needle once lower-cased |
| Videos.NeedlesEmpty | routes/videos.js:230-233 | there are no needles exactly when the user has no non-empty tag and no department tag |
| Videos.MatchingExactTag | routes/videos.js:242-245 | a video one of whose tags, lower-cased, equals a needle is selected (the `lower(t) = ANY($1)` test) |
| Videos.MatchingInnerTag | routes/videos.js:236-245 | a video one of whose tags, lower-cased, holds a needle anywhere is selected (the `LIKE ANY` test on `%needle%`), for needles without `\` (see "Left out") |
| Videos.MatchingMonotone | routes/videos.js:236-245 | searching for more needles never selects fewer videos |
| Videos.Descending | routes/videos.js:246 | the selected ids come in strictly descending order, every selected id included |
| Videos.PresentAll | routes/videos.js:251-259 | each listed video is presented in place, in the given id order |
| Videos.Recommended | routes/videos.js:238-259 | the list holds only matching videos, each presented, in strictly descending id order |
| Videos.RecommendedComplete | routes/videos.js:238-248 | every matching video is in the list |
| Videos.Recommend | routes/videos.js:221-262 | a user id that is not a number: 400; no such user: 404; otherwise 200 with the recommended list for the user's needles (the lookup read as intended; see "Left out") |
| Users.TextEach | routes/users.js:53 | array items are read by their text form, position by position |
| Users.TrimmedItems | routes/users.js:53-54 | the kept items are trimmed and non-empty |
| Users.NormalizeTags | routes/users.js:52-56 | normalised tags are always trimmed and non-empty |
| Users.NormalizeTagsIdempotent | routes/users.js:52-56 | normalising normalised tags changes nothing |
| Users.NormalizeTagsString | routes/users.js:54 | a comma list of clean tags normalises to exactly those tags in order |
| Users.NormalizeTagsArray | routes/users.js:53 | an array of clean tags is kept as it is |
| Users.NormalizeTagsAppend | routes/users.js:53 | arrays are normalised item by item: the tags of a concatenation are the concatenation of the tags |
| Users.NormalizeTagsOne | routes/users.js:53 | a one-item array gives its trimmed text, or nothing when that is empty |
| Users.NormAuth | routes/users.js:57 | the authority is always "admin" or "user" |
| Users.NormAuthAdmin | routes/users.js:57 | it is "admin" exactly when the input is the word admin in any mix of ASCII upper and lower case |
| Users.NormAuthIdempotent | routes/users.js:57 | normalising a normalised authority keeps it |
| Users.CreateUser | routes/users.js:74-106 | a missing required field: 400. A failing lookup: 500. A taken username or email: 409, exactly then. Otherwise 201 with the new user under the next id, unless the insert fails (500); a failure changes nothing |
| Users.NewUserNormalised | routes/users.js:93-98 | a new user is stored with a normalised authority and clean tags, and has watched nothing |
| Users.Test | routes/users.js:149-160 | a column's test only ever assigns that column |
| Users.AssignmentsOrdered | routes/users.js:149-160 | the SET items come in the handler's fixed column order |
| Users.ColumnAssigned | routes/users.js:149-160 | a column is in the SET list exactly when its test passes, and with that test's value |
| Users.AuthorityAssigned | routes/users.js:152 | the authority is set exactly when given, and always normalised |
| Users.TagsAssigned | routes/users.js:155-157 | the tags are set exactly when given as an array or a string |
| Users.PasswordAssigned | routes/users.js:160 | the password is set exactly when it is truthy |
| Users.AssignmentsEmpty | routes/users.js:149-164 | the SET list is empty exactly when nothing settable was given |
| Users.PushIf | routes/users.js:149-160 | one test: the SET item with the next placeholder number and its value are appended exactly when the test passes |
| Users.BuildUpdate | routes/users.js:145-171 | the SET list is the passing assignments rendered with placeholders $1..$n in order, the values are theirs in the same order with the id last, and WHERE uses $n+1 |
| Users.SetItemAccepts | routes/users.js:166-173 | the database accepts a SET item exactly when it puts no NULL into a NOT NULL column, and never touches the watched list |
| Users.SetItemEffect | routes/users.js:166-173 | an accepted SET item writes its column and leaves every other column as it was |
| Users.ApplySetAccepts | routes/users.js:166-173 | the UPDATE succeeds exactly when every SET item is accepted |
| Users.ApplySetHolds | routes/users.js:166-173 | after the UPDATE, every SET item holds in the row |
| Users.UpdatedRow | routes/users.js:145-173 | executing the UPDATE the handler builds gives exactly the row the body asks for |
| Users.UpdatedRequired | routes/users.js:149-154 | a successful update never nulls a required column, and sets each given one |
| Users.UpdatedNullable | routes/users.js:151-159 | work area, school and department are set, possibly to NULL, exactly when given |
| Users.UpdatedNormalised | routes/users.js:152-160 | the authority and tags are stored normalised, and the password only when truthy |
| Users.DupFoundClashes | routes/users.js:135-143 | a duplicate the handler finds would break the unique constraints |
| Users.DupCheckSuffices | routes/users.js:135-143 | when the handler finds no duplicate, the updated row breaks no unique constraint |
| Users.UpdateUserRoute | routes/users.js:125-181 | a bad id: 400; a duplicate: 409, only then; nothing to set: 400; no such row: 404; a rejected row: 500; otherwise the updated user. A failure changes nothing |
| Users.CleanEach | routes/users.js:274-275 | every entry is cleaned, position by position |
| Users.FilledOnly | routes/users.js:276 | only entries with both texts are kept |
| Users.CleanEntries | routes/users.js:274-276 | the saved entries all have a school and a department |
| Users.CleanEntriesTrimmed | routes/users.js:274-276 | every saved entry is trimmed and has both texts |
| Users.CleanEntriesAppend | routes/users.js:274-276 | entries are cleaned one by one: the list of a concatenation is the concatenation of the lists |
| Users.CleanEntriesOfClean | routes/users.js:274-276 | sending the saved list back saves the same list |
| Users.RowsOf | routes/users.js:294-299 | the rows read back belong to the user |
| Users.Replaced | routes/users.js:280-290 | after the replacement the user's rows are exactly the inserted ones, and every other user's rows are as before |
| Users.NumberedEntries | routes/users.js:285-290 | the inserted rows read back as the cleaned entries, in order |
| Users.ReplaceEducation | routes/users.js:267-307 | not the user of the path: 403; entries not an array: 400. Otherwise success exactly when no statement fails (and, for a non-empty list, the user exists): the user's rows are replaced by the cleaned entries under consecutive ids, answered newest first. A failure rolls back |
| Users.SaveEducation | routes/users.js:278-306 | the transaction: delete, insert in order, commit; any failure rolls everything back and answers 500 |
| Users.InsertEntry | routes/users.js:285-290 | one insert of the loop keeps the loop invariant, or rolls back |
| Users.Watch | routes/users.js:322-324 | the watched list gains the video only when it is missing, keeps its old elements in order, and then contains it |
| Users.WatchIdempotent | routes/users.js:354-358 | recording the same video twice records it once |
| Users.WatchNoRepeats | routes/users.js:354-358 | a watched list without repeats stays without repeats |
| Users.RecordWatch | routes/users.js:337-384 | a bad video id: 400, checked before ownership (403); a failing lock: 500; no such user: 404 with a rollback. Success exactly when no statement fails and the video exists: 201, the video appended once and the view logged once. A failure changes nothing |
| Users.PatchWatched | routes/users.js:310-334 | 400, then 403; the list is returned as it is when the video is in it, else with the video appended, and stored when the user exists |
| Exams.Check | routes/exams.js:40-57 | the checks in the handler's order, each with 400: bad video id, then questions that are not JSON, then no questions, then a missing exam field. Each is reported exactly when it is the first to fail; accepted texts are stored trimmed |
| Exams.CheckTrimmed | routes/exams.js:70 | the stored exam texts are trimmed |
| Exams.CheckJsonArray | routes/exams.js:47-50 | questions sent as the JSON text of an array are treated as the array itself |
| Exams.CheckVideoId | routes/exams.js:42-45 | a video id sent as the decimal text of an integer is read as that integer |
| Exams.Pick | routes/exams.js:81-82 | the first field that is neither missing nor null gives the text, else "" |
| Exams.QuestionOf | routes/exams.js:79-84 | each question row belongs to the new exam and always has an answer text |
| Exams.QuestionRows | routes/exams.js:75-87 | the questions are inserted in input order under consecutive ids |
| Exams.Distinct | routes/exams.js:93-94 | the distinct tags: the same elements, none twice |
| Exams.WithExamTag | routes/exams.js:90-98 | after tagging, "SINAVLI" is among the tags exactly once, and every earlier tag is kept |
| Exams.WithExamTagIdempotent | routes/exams.js:90-98 | tagging twice is tagging once |
| Exams.WithExamTagKeepsOrder | routes/exams.js:90-98 | a property of the order the model chooses for the DISTINCT result (SQL promises none): tags without repeats keep it, with "SINAVLI" appended when it was missing |
| Exams.PostExam | routes/exams.js:39-107 | 400 for the first failed check, nothing opened. 409 for a video that has an exam, with the transaction left open. 500 for a failing lookup or exam insert, nothing changed. A later failure keeps only the exam row. Success exactly when nothing fails: 201 with the new exam id, the questions appended in order and the video tagged |
| Exams.SaveQuestions | routes/exams.js:75-106 | the question loop, the tagging and the commit: all of it happens, or it is rolled back to the state after the exam insert |
| Exams.AskNext | routes/exams.js:76-86 | one question insert keeps the loop invariant, or rolls back |
| Exams.LatestExam | routes/exams.js:115-123 | none exactly when the video has no exam; otherwise the video's exam with the highest id |
| Exams.QuestionsOf | routes/exams.js:126-132 | the questions of the exam, and all of them |
| Exams.QuestionsOfOrdered | routes/exams.js:130 | the questions come back in ascending id order |
| Exams.GetExam | routes/exams.js:110-145 | a bad id: 400. 404 exactly when the video has no exam. 500 for a failing query. Otherwise 200 with the texts of the video's exam with the highest id and the views of that exam's question rows |
| Exams.GetExamAnswer | routes/exams.js:116-130 | a 200 answer lists exactly the questions of that exam, in ascending id order |
| Exams.ReadBack | routes/exams.js:39-145 | after a successful POST, GET for the same video answers the stored exam texts and the questions as posted, in order |
| Exams.LatestAppended | routes/exams.js:115-125 | a new exam of a video without one is the video's latest |
| VideoExams.ComboFileName | routes/videoExams.js:85 | the original name, or "upload.bin"; never empty |
| VideoExams.ComboVideo | routes/videoExams.js:79-99 | the video row carries the title, the uploader, the tags, the content and its size, and no url yet |
| VideoExams.ComboExam | routes/videoExams.js:110-118 | the exam references the new video and its texts are stored trimmed |
| VideoExams.ComboItems | routes/videoExams.js:122-123 | an array, given or parsed, is iterated as it is; a parsed string character by character (so `""` gives no questions); a falsy value gives no questions; a failed parse or a value that cannot be iterated is an error |
| VideoExams.ParsedStringFails | routes/videoExams.js:122-128 | a parsed non-empty string yields a first question with no text, which the NOT NULL column refuses |
| VideoExams.ComboText | routes/videoExams.js:127 | a question has a text exactly when one of its two spellings is neither missing nor null |
| VideoExams.ComboRows | routes/videoExams.js:123-129 | the questions are inserted in input order, each referencing the exam, under consecutive ids |
| VideoExams.PostVideoExam | routes/videoExams.js:60-141 | every failure answers 500 and leaves the tables as they were. Success exactly when the file, title, uploader and exam fields are given, the questions can be read and no insert fails. Then 201 with the video id, exam id and stream URL; the video row with its URL, the exam and the questions are in the tables. A missing exam field still uses up a video id |
| VideoExams.SaveComboVideo | routes/videoExams.js:76-104 | the file, title and uploader checks, the video insert and its URL update, or a rollback |
| VideoExams.SaveComboExam | routes/videoExams.js:106-131 | the exam field check, the exam insert, the questions and the commit, or a rollback to before the video |
| VideoExams.SaveComboQuestions | routes/videoExams.js:121-131 | all questions in order and the commit, or a rollback |
| VideoExams.InsertComboQuestion | routes/videoExams.js:123-129 | one question insert keeps the loop invariant, or rolls back |
| Client.Clean | axios.js:11 | the cleaned string is a prefix of the input, does not end in '/', and only '/' was removed |
| Client.CleanIdempotent | axios.js:11 | cleaning twice is cleaning once |
| Client.CleanSlashes | axios.js:11 | slashes added to the end are all cleaned away |
| Client.BaseUrl | axios.js:18-21 | the cleaned API URL if set, else the cleaned API base + "/api", else the production default, else the origin + "/api"; never empty, never ending in '/' |
| Client.BaseUrlIgnoresTrailingSlashes | api.js:24-33 | trailing slashes on the environment's URLs do not change the base URL (both helpers choose it this way) |
| Client.Snippet | axios.js:69 | at most the first n characters of a text body, and nothing for another body |
| Client.CheckJson | axios.js:70-83 | an answer passes unchanged exactly when its lower-cased content type mentions application/json. Otherwise it is rejected with its status, its body and a message naming the content type ("bilinmiyor" when missing) and a snippet |
| Client.UntypedRejected | axios.js:72-76 | an answer without a content type is rejected as of unknown type |
| AxiosClient.TokenAmong | axios.js:25-31 | none exactly when no key yields a value; otherwise the value of the first key that does, local before session |
| AxiosClient.TokenStore.GetToken | axios.js:25-31 | the loop returns the token the keys give in order |
| AxiosClient.TokenStore.ClearAuth | axios.js:41-46 | all three token keys are removed from both storages; other keys are untouched |
| AxiosClient.TokenAfterClear | axios.js:41-46 | after clearing, no token is found |
| AxiosClient.TokenStore.SetAuthToken | axios.js:33-39 | all token keys are cleared, then the token is stored under "token" in the chosen storage |
| AxiosClient.TokenAfterSet | axios.js:33-39 | after storing a non-empty token it is the token found, whichever storage was chosen; an empty one leaves none |
| AxiosClient.WithBearer | axios.js:57-66 | with a token, a missing header object becomes one and Authorization is set to "Bearer <token>" unless it holds a value already; other headers are unchanged; without a token nothing changes |
| AxiosClient.WithBearerIdempotent | axios.js:57-66 | running the interceptor twice is running it once |
| AxiosClient.Authorize | axios.js:57-66 | the request's headers become what WithBearer gives for the stored token |
| AxiosClient.Lead | axios.js:108 | the path always starts with '/', and is unchanged when it did already |
| AxiosClient.LeadIdempotent | axios.js:108 | leading twice is leading once |
| AxiosClient.JsonHeadersSent | axios.js:112-117 | after the request interceptor, a JSON helper's request carries "application/json" when the caller gave no headers, otherwise the caller's own Content-Type (or none) and the caller's other headers except Authorization; the bearer token whenever one is stored |
| AxiosClient.Normalize | axios.js:84-103 | with an answer: its status and body, and the message is the body's error, else its message, else "İstek <status> ile başarısız". Without an answer: status 0, no data, and the fixed messages. The message is never empty |
| AxiosClient.StatusZeroWithoutAnswer | axios.js:86-103 | status 0 means exactly that no answer came |
| AxiosClient.OnError | axios.js:84-99 | the error is normalised; a 401 or 403 clears every stored token, and sends to /login unless the page is already on a login path; other errors change nothing |
| ApiClient.PayloadSegment | api.js:9 | the payload segment contains no dot, and is "" for a token without one |
| ApiClient.PayloadOfThreeParts | api.js:9 | the payload segment of header.payload.signature is the payload |
| ApiClient.Pad | api.js:11 | padding keeps the segment in front, adds at most three '=' and reaches a multiple of 4 |
| ApiClient.PadAligned | api.js:11 | an aligned segment is left as it is |
| ApiClient.PadMinimal | api.js:11 | padding reaches the smallest multiple of 4, and padding twice adds nothing |
| ApiClient.AuthUser | api.js:5-17 | a user exactly when a token is stored and its padded payload decodes to a truthy value, which is the user |
| ApiClient.NoUserNoId | api.js:5-21 | no token, or a payload that does not decode: no user and the id "" |
| ApiClient.AuthUserId | api.js:18-21 | "" without a user; else the first of userId, id and sub that is neither missing nor null, else "" |
| ApiClient.WithTokens | api.js:44-57 | with a token, Authorization and x-access-token are set when each holds no value, existing values are kept, and other headers are unchanged |
| ApiClient.AgreesWithBearer | api.js:44-57 | on a request that already carries x-access-token, this interceptor does what the main helper's does |
| ApiClient.Authorize | api.js:44-57 | the request's headers become what WithTokens gives for the token under "token" |
| ApiClient.SameVerdict | api.js:60-72 | both helpers accept and reject the same answers, and this helper's message is a prefix of the other's (180 vs 200 characters of snippet) |

## Left out

- The `[x] = query(SELECT)` destructuring at routes/videos.js:151,175,189,227 and routes/exams.js:62,115 takes the first row of the row array, not the array itself. Each lookup is modelled as what the handler evidently means: an optional row.
- Videos.Recommend: as written, routes/videos.js:227-231 then reads `u[0].tags` of that row object. `u[0]` is undefined, so every existing user gets a TypeError and a 500. The model answers with the recommendation list the handler evidently intends.
- Videos.Stream: as written, routes/videos.js:157 and :181 read `rows[0]` and `meta[0]` of what is already the row object. For an existing video that is undefined, so the answer is 404; for an unknown id it is a TypeError and a 500. The 200 and 206 answers are never sent. The model answers what the handler evidently intends. The 416 for a Range the pattern rejects is the same either way.
- Exams.GetExam: as written, routes/exams.js:125 reads `examRes[0]` of the row object, which is undefined, and `exam.id` at :131 throws. Every video that has an exam gets a 500, and the 404 is kept. The model answers the intended 200 with the exam and its questions.
- Exams.PostExam: as written, `existingExam.length` at routes/exams.js:63 is undefined on a row object, so the 409 is never sent. A duplicate reaches the exam INSERT at :65, which the unique index on video_id (:32) refuses: a rollback and a 500. The model answers the intended 409.
- routes/videoExams.js passes its INSERT values as `replacements` to statements written with `$n` placeholders. They are modelled as bound in order.
- VideoExams.PostVideoExam: as written, `replacements` fills only `?` marks, so the `$n` parameters of the video INSERT (routes/videoExams.js:91-99) are never bound. PostgreSQL refuses the statement, and every request that passes the file and title checks is rolled back and answered 500. The model answers the intended 201 when every statement succeeds.
- Concurrency is not modelled: the `FOR UPDATE` lock (routes/users.js:346) and the connection pool. Requests run one at a time.
- A failure of the BEGIN or the COMMIT statement is not modelled; no `Stmt` names either. In the handlers a failing COMMIT is caught, rolled back and answered 500.
- The selects run after a commit (education list, watched list) are assumed to succeed.
- `created_at` is not stored. Users.ReplaceEducation answers by id, descending, which is the order `created_at DESC, id DESC` gives for rows inserted in one transaction.
- The SQL DISTINCT in routes/exams.js:94 has no guaranteed order. Exams.WithExamTag keeps first occurrences in order, and its contract states membership and uniqueness, which hold for any order.
- Videos.Dedupe: a JavaScript Set keeps first occurrences; its contract states membership and uniqueness only.
- Videos.MatchingIds: the SQL `LIKE ANY` patterns are modelled as substring containment of the lower-cased needle. `%` and `_` inside a needle (a user tag or the department tag put into the `%needle%` pattern) are not interpreted as wildcards.
- Videos.MatchingInnerTag: `\` is LIKE's default escape character, and the model treats it as an ordinary one. For a needle `c\d` the pattern `%c\d%` matches tags holding "cd", so a tag holding `c\d` itself is not selected, although the lemma says it is. A needle ending in `\` escapes the closing `%`. The lemma therefore describes the handler only for needles without `\`. (A `%` or `_` in a needle only widens the pattern, so a tag that holds the needle is still selected.)
- Elements of a `questions` array are records of optional text fields, so a null or undefined element is not represented. In routes/exams.js:81-83 the `?.` reads make such an element store "", "" and NULL, as an element with no keys does. In routes/videoExams.js:127 it throws a TypeError, which is rolled back and answered 500. A string or number element reads every key as undefined, which is the element with no keys.
- JsValue.Field carries strings only. Numbers and other JSON values sent where text is expected are read by their text form.
- Ids are unbounded integers. The id columns are INTEGER, so PostgreSQL rejects an id beyond 2147483647 with an error the handlers answer 500. The model instead answers as for an id that is not there: 404, or 201/409 for POST watched. This affects PUT /api/users/:id, GET /recommended/:userId, GET /api/exams/:videoId and POST /:id/watched.
- Videos.Stream takes the id as an integer. A path `/:id/stream` that is not a number is a PostgreSQL "invalid input syntax" error, a 500, which the model does not represent.
- Users.ReplaceEducation: a null element of `entries` (routes/users.js:273-275) throws a TypeError before the transaction. Entries are modelled as records of two fields, so this case is not represented.
- A `videoId` is modelled as an optional integer. A finite non-integer video id (routes/users.js:312,339) is not modelled.
- Videos.FileName: `uuidv4()` is a parameter of the uploaded file, not a random draw.
- Videos.FileType: `mime.getType` is a parameter of the uploaded file, not a lookup table.
- Schema creation (`ensure*Table`) is not modelled. `Store.Consistent` keeps, as invariants of the tables:
  - the constraints the schema declares: one exam per video, unique usernames and emails, and the foreign keys of exams, questions, views and education rows;
  - the id order of the question and education tables, which are read back by id;
  - size_bytes equal to the stored content's length;
  - every logged view being in the viewer's watched list, which no schema declares and the watch handler maintains.
  Unique ids and the view log as a set come from the table types (maps and a set).
- The global error handler (server.js) is modelled as a 500 answer.
- These routes are not modelled; they are list reads and deletes with no logic beyond one SQL statement:
  - routes/users.js: GET /, DELETE /:idOrUsername, GET/PATCH /:id/education, GET /:id/education-list, GET /:id/watched, GET /:id/watched-videos, GET /:id/work-area, GET /:id/trainings;
  - routes/videos.js: GET / and DELETE /:id.
- The `camelize` answer shape (routes/users.js:59-71) is kept as a plain function, Users.Camelize, with no contract.
- Case mapping covers ASCII, Latin-1 and the Turkish letters; other scripts are left unchanged.
- Strings are sequences of Unicode scalar values. Client.Snippet counts characters where JavaScript counts UTF-16 code units.
- AxiosClient.OnError models the `location.href` assignment as a returned redirect path.
- axios itself is not modelled: how it resolves a path against the base URL, its timeout, `withCredentials` and the default Accept header.
- The upload helper's progress percentage (axios.js:119-129) is not modelled; it is floating-point rounding.
- The `console.log`/`console.warn` lines are not modelled.
- api.js's error interceptor (api.js:74-79) only logs and rethrows the error unchanged.
- Header names are compared exactly. The case-insensitive header object of axios is not modelled, and header values are strings.
- ApiClient.AuthUser: `atob` and `JSON.parse` are a `decode` parameter. The model does not define base64 or JSON.
- Authentication (jwt signing and verification, routes/auth.js, middleware/auth.js) is a boolean `authorised` input to the routes that check ownership. The admin check on the user routes is assumed passed.
- routes/examResults.js is not modelled: its only logic is a floating-point MAX aggregate.
