/** The boundary types shared by the use cases (internal/contracts): their inputs,
    outputs and every error they can return. */
module Contracts {
  import opened Wrappers
  import opened GameModel

  /** Each constructor stands for one error value or message of the source. */
  datatype Error =
    | GameNotFound            // contracts.ErrGameNotFound, "game not found"
    | QuestionNotFound        // "question not found"
    | GameTypeNotSupported    // "game type is not supported"
    | MultipleAnswers         // "simple choice can't have multiple answers"
    | InvalidQuestionId       // "invalid question id in session answers"
    | AnswerOptionNotFound    // "answer option not found for question"
    | NoResultFound           // "no result found for total score"
    | InvalidScoreRange(key: string)  // "invalid score range: <key>"
    | MalformedPayload        // json.Unmarshal rejected a stored game payload
    | UserNotFound            // contracts.ErrUserNotFound
    | UserChatNotFound        // contracts.ErrUserChatNotFound
    | Repository(message: string)     // any other failure of the storage collaborator

  /** A submitted answer: one option id for one question of one game. */
  datatype AcceptAnswersIn = AcceptAnswersIn(gameId: Uuid, playerId: Uuid, questionId: int, answer: int)

  /** The verdict on a submitted answer and the question's explanation. */
  datatype AcceptAnswersOut = AcceptAnswersOut(isCorrect: bool, explanation: Option<string>)

  /** Who is asking: an external user id within a source, and optionally the chat they are in. */
  datatype UserData = UserData(userIdExt: string, source: string, chatId: Option<int>, chatType: Option<string>)
}
