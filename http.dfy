/** What a route handler answers: a status with a body, or a status with the kind of error it reports. */
module Http {

  /** The error kinds the handlers report, one per distinct error message of theirs. */
  datatype Problem =
    | NoFile                  // no uploaded file
    | MissingTitleOrUploader
    | InvalidVideoId
    | QuestionsNotJson
    | NoQuestions
    | MissingExamFields
    | ExamExists
    | ExamNotFound
    | MissingUserFields
    | UserTaken
    | InvalidUserId
    | NothingToUpdate
    | UserNotFound
    | Forbidden
    | EntriesNotArray
    | Internal                // 500, from a handler's catch or the global error handler

  datatype Reply<T> = Done(status: nat, body: T) | Failed(status: nat, problem: Problem)
}
