/** The game use case (internal/usecase/game/usecase.go) over its storage: Get (get.go),
    GetCurrentState (get_current_state.go), AcceptAnswer (accept_answer.go) and Reset
    (reset.go). Each method is one transaction of the source, run as a single atomic step. */
module GameUsecase {
  import opened Wrappers
  import opened Contracts
  import opened GameModel
  import opened Converter
  import opened CurrentState
  import opened AcceptAnswer

  /** A session is identified by its game and its player. */
  type SessionKey = (Uuid, Uuid)

  /** The stored row for a recorded answer of a session. */
  function RowOf(key: SessionKey, rec: GameSessionAnswer): SessionRow {
    SessionRow(key.0, key.1, rec.questionId, rec.answerId, rec.isCorrect)
  }

  /** A game row that converts: its payload decodes and every score-range key parses. */
  predicate Convertible(row: GameRow) {
    row.payload.Some? && forall k :: k in row.payload.value.result ==> ParseRange(k).Some?
  }

  /** The rows of one session: filed under its key, at most one answer per question, and only
      answers to questions its game has. */
  ghost predicate SessionRowsValid(games: map<Uuid, GameRow>, key: SessionKey, rows: seq<SessionRow>) {
    (forall k :: 0 <= k < |rows| ==> rows[k].gameId == key.0 && rows[k].playerId == key.1) &&
    DistinctQuestions(AnswersOf(rows)) &&
    (key.0 in games && games[key.0].payload.Some? ==>
      forall k :: 0 <= k < |rows| ==> 0 <= rows[k].questionId < |games[key.0].payload.value.questions|)
  }

  /** Appending what a submission records keeps a session's rows valid. */
  lemma RecordKeepsRowsValid(games: map<Uuid, GameRow>, key: SessionKey, rows: seq<SessionRow>, order: seq<string>,
                             questionId: int, answerId: int)
    requires SessionRowsValid(games, key, rows)
    requires key.0 in games && Convertible(games[key.0]) && ValidKeys(games[key.0].payload.value.result, order)
    requires Submit(GameFrom(games[key.0], order), AnswersOf(rows), questionId, answerId).record.Some?
    ensures SessionRowsValid(games, key, rows +
      [RowOf(key, Submit(GameFrom(games[key.0], order), AnswersOf(rows), questionId, answerId).record.value)])
  {
    var game := GameFrom(games[key.0], order);
    var rec := Submit(game, AnswersOf(rows), questionId, answerId).record.value;
    SubmitKeepsDistinct(game, AnswersOf(rows), questionId, answerId);
    SubmitRecordIsNew(game, AnswersOf(rows), questionId, answerId);
    QuestionsOfMeaning(games[key.0].payload.value.questions);
    var after := rows + [RowOf(key, rec)];
    assert after[..|rows|] == rows;
    assert AnswersOf(after) == AnswersOf(rows) + [rec];
  }

  /** The rows filed under a session key; none when the player has not answered yet. */
  function RowsIn(sessions: map<SessionKey, seq<SessionRow>>, key: SessionKey): seq<SessionRow> {
    if key in sessions then sessions[key] else []
  }

  /** Every session of the table is valid. */
  ghost predicate SessionsValid(games: map<Uuid, GameRow>, sessions: map<SessionKey, seq<SessionRow>>) {
    forall key :: key in sessions ==> SessionRowsValid(games, key, sessions[key])
  }

  /** The error a game row that does not convert yields: "malformed payload" when it does not
      decode, otherwise an invalid score-range key of its payload. */
  predicate IsConversionError(row: GameRow, e: Error) {
    (row.payload.None? ==> e == MalformedPayload) &&
    (row.payload.Some? ==> e.InvalidScoreRange? && e.key in row.payload.value.result && ParseRange(e.key).None?)
  }

  /** Appending what a submission records to one session keeps the whole table valid. */
  lemma RecordKeepsSessionsValid(games: map<Uuid, GameRow>, sessions: map<SessionKey, seq<SessionRow>>,
                                 key: SessionKey, order: seq<string>, questionId: int, answerId: int)
    requires SessionsValid(games, sessions)
    requires key.0 in games && Convertible(games[key.0]) && ValidKeys(games[key.0].payload.value.result, order)
    requires Submit(GameFrom(games[key.0], order), AnswersOf(RowsIn(sessions, key)), questionId, answerId).record.Some?
    ensures SessionsValid(games, sessions[key := RowsIn(sessions, key) +
      [RowOf(key, Submit(GameFrom(games[key.0], order), AnswersOf(RowsIn(sessions, key)), questionId, answerId).record.value)]])
  {
    var rows := RowsIn(sessions, key);
    assert SessionRowsValid(games, key, rows) by {
      if key !in sessions {
        assert AnswersOf(rows) == [];
      }
    }
    RecordKeepsRowsValid(games, key, rows, order, questionId, answerId);
  }

  class Usecase {
    /** The game table, by id. */
    var games: map<Uuid, GameRow>
    /** The session-answer table, grouped by (game, player); each group in insertion order. */
    var sessions: map<SessionKey, seq<SessionRow>>

    /** Rows are filed under their own id and key; a session holds at most one answer per
        question, and only answers to questions its game has. */
    ghost predicate Valid()
      reads this
    {
      (forall id :: id in games ==> games[id].id == id) && SessionsValid(games, sessions)
    }

    /** The rows of a session; none when the player has not answered yet. */
    function Rows(key: SessionKey): seq<SessionRow>
      reads this
    {
      RowsIn(sessions, key)
    }

    constructor(games: map<Uuid, GameRow>)
      requires forall id :: id in games ==> games[id].id == id
      ensures this.games == games && sessions == map[]
      ensures Valid()
    {
      this.games := games;
      sessions := map[];
    }

    /** Usecase.Get: no row is "game not found"; a row that does not convert passes its
        error on; otherwise the converted game, whose id is the requested one. */
    method Get(id: Uuid) returns (r: Result<Game, Error>, ghost order: seq<string>)
      requires Valid()
      ensures id !in games ==> r == Err(GameNotFound)
      ensures id in games && games[id].payload.None? ==> r == Err(MalformedPayload)
      ensures id in games && !Convertible(games[id]) ==> r.Err? && IsConversionError(games[id], r.error)
      ensures r.Ok? <==> id in games && Convertible(games[id])
      ensures r.Ok? ==>
        Enumerates(order, games[id].payload.value.result) && ValidKeys(games[id].payload.value.result, order) &&
        r.value == GameFrom(games[id], order) && r.value.id == id && WellIndexed(r.value.questions)
    {
      order := [];
      if id !in games {
        return Err(GameNotFound), order;
      }
      r, order := ConvertToGame(games[id]);
      if r.Ok? {
        QuestionsOfMeaning(games[id].payload.value.questions);
      }
    }

    /** The session of a player in a game, read back from its rows. */
    method GetGameSession(gameId: Uuid, playerId: Uuid) returns (session: GameSession)
      ensures session == SessionOf(Rows((gameId, playerId)))
      ensures session.answers == AnswersOf(Rows((gameId, playerId)))
    {
      session := ConvertToSession(Rows((gameId, playerId)));
    }

    /** Appends one answer row to a session. */
    method InsertGameSessionAnswer(gameId: Uuid, playerId: Uuid, data: GameSessionAnswer)
      modifies this`sessions
      ensures sessions == old(sessions)[(gameId, playerId) := old(Rows((gameId, playerId))) + [RowOf((gameId, playerId), data)]]
    {
      var key := (gameId, playerId);
      sessions := sessions[key := Rows(key) + [RowOf(key, data)]];
    }

    /** GetCurrentState: the resolver applied to the stored game and session. On a valid
        store, a session whose answered count has reached the number of questions always
        resolves to a result, never to a question. */
    method GetCurrentState(gameId: Uuid, playerId: Uuid) returns (r: Result<State, Error>, ghost order: seq<string>)
      requires Valid()
      ensures gameId !in games ==> r == Err(GameNotFound)
      ensures gameId in games && !Convertible(games[gameId]) ==> r.Err? && IsConversionError(games[gameId], r.error)
      ensures gameId in games && Convertible(games[gameId]) ==>
        Enumerates(order, games[gameId].payload.value.result) && ValidKeys(games[gameId].payload.value.result, order) &&
        r == Resolve(GameFrom(games[gameId], order), SessionOf(Rows((gameId, playerId))))
      ensures r.Ok? && r.value.progress.answered == r.value.progress.total ==>
        r.value.question.None? && r.value.result.Some?
    {
      var game;
      game, order := Get(gameId);
      if game.Err? {
        return Err(game.error), order;
      }
      var session := GetGameSession(gameId, playerId);
      r := ResolveState(game.value, session);
      if r.Ok? && r.value.progress.answered == r.value.progress.total {
        var key := (gameId, playerId);
        var rows := Rows(key);
        QuestionsOfMeaning(games[gameId].payload.value.questions);
        assert key in sessions ==> SessionRowsValid(games, key, sessions[key]);
        AnsweredOncePerQuestionCompletes(game.value, session);
      }
    }

    /** AcceptAnswer: the submission decided on the stored game and session; when it yields a
        record, that record is appended to the session and nothing else changes. The store
        stays valid, so no session ever holds two answers to one question. */
    method AcceptAnswer(input: AcceptAnswersIn) returns (r: Result<AcceptAnswersOut, Error>, ghost order: seq<string>)
      requires Valid()
      modifies this`sessions
      ensures Valid()
      ensures old(|Rows((input.gameId, input.playerId))|) <= |Rows((input.gameId, input.playerId))|
                                                          <= old(|Rows((input.gameId, input.playerId))|) + 1
      ensures !(input.gameId in games && Convertible(games[input.gameId])) ==>
        r.Err? && sessions == old(sessions)
      ensures input.gameId !in games ==> r == Err(GameNotFound)
      ensures input.gameId in games && !Convertible(games[input.gameId]) ==> r.Err? && IsConversionError(games[input.gameId], r.error)
      ensures input.gameId in games && Convertible(games[input.gameId]) ==>
        Enumerates(order, games[input.gameId].payload.value.result) && ValidKeys(games[input.gameId].payload.value.result, order)
      ensures input.gameId in games && Convertible(games[input.gameId]) ==>
        var key := (input.gameId, input.playerId);
        var s := Submit(GameFrom(games[input.gameId], order), AnswersOf(old(Rows(key))), input.questionId, input.answer);
        r == s.out &&
        sessions == if s.record.Some? then old(sessions)[key := old(Rows(key)) + [RowOf(key, s.record.value)]]
                    else old(sessions)
    {
      var game;
      game, order := Get(input.gameId);
      if game.Err? {
        return Err(game.error), order;
      }
      var key := (input.gameId, input.playerId);
      var session := GetGameSession(input.gameId, input.playerId);
      var s := Decide(game.value, session.answers, input.questionId, input.answer);
      r := s.out;
      if s.record.Some? {
        RecordKeepsSessionsValid(games, sessions, key, order, input.questionId, input.answer);
        InsertGameSessionAnswer(input.gameId, input.playerId, s.record.value);
      }
    }

    /** Reset: a daily game cannot be restarted and is left alone; any other game's session
        for the player is deleted, which is not an error when there is none. */
    method Reset(gameId: Uuid, playerId: Uuid) returns (err: Option<Error>)
      requires Valid()
      modifies this`sessions
      ensures Valid()
      ensures gameId !in games ==> err == Some(GameNotFound)
      ensures gameId in games && !Convertible(games[gameId]) ==> err.Some? && IsConversionError(games[gameId], err.value)
      ensures !(gameId in games && Convertible(games[gameId])) ==> err.Some? && sessions == old(sessions)
      ensures gameId in games && Convertible(games[gameId]) && games[gameId].gameType == GameTypeDaily ==>
        err == None && sessions == old(sessions)
      ensures gameId in games && Convertible(games[gameId]) && games[gameId].gameType != GameTypeDaily ==>
        err == None && sessions == old(sessions) - {(gameId, playerId)}
    {
      var game, _ := Get(gameId);
      if game.Err? {
        return Some(game.error);
      }
      if game.value.gameType == GameTypeDaily {
        return None;
      }
      DeleteGameSessionAnswers(gameId, playerId);
      return None;
    }

    /** Deletes every answer row of a session. */
    method DeleteGameSessionAnswers(gameId: Uuid, playerId: Uuid)
      modifies this`sessions
      ensures sessions == old(sessions) - {(gameId, playerId)}
    {
      sessions := sessions - {(gameId, playerId)};
    }
  }

  /** After a reset the session has no rows, so a game with questions starts over at its first
      question with nothing answered. */
  lemma ResetRestartsGame(game: Game)
    requires |game.questions| > 0
    ensures Resolve(game, SessionOf([])) ==
      Ok(State(Some(game.questions[0]), None, Progress(0, |game.questions|), ZeroGameInfo))
  {
    assert AnsweredIds(SessionOf([]).answers) == {};
    ResolveNextQuestion(game, SessionOf([]), 0);
  }

  // ---------------------------------------------------------------------------------------
  // The verdict column on read-back

  /** The session rows as the source's session query reads them: it selects game, player,
      question and option but not the verdict column, so each scanned verdict keeps its zero
      value, false. The store above reads rows back whole. */
  function ScanAsWritten(rows: seq<SessionRow>): (scanned: seq<SessionRow>)
    ensures |scanned| == |rows|
    ensures forall k :: 0 <= k < |rows| ==> scanned[k] == rows[k].(isCorrect := false)
    decreases |rows|
  {
    if rows == [] then []
    else ScanAsWritten(rows[..|rows| - 1]) + [rows[|rows| - 1].(isCorrect := false)]
  }

  /** A one-question classic game whose only option is correct. */
  const OneQuestionGame: Game :=
    Game(NilUuid, GameTypeClassic, "quiz", None, [Question(0, "q", None, None, [AnswerOption(0, "a", true, None)])], [])

  /** With the verdict column left out of the read, repeating a correct answer is reported
      as incorrect: the first submission is judged correct and recorded, the repeat reads
      that record back with its verdict zeroed. */
  lemma RepeatedCorrectAnswerReadsIncorrect(key: SessionKey)
    ensures var first := Submit(OneQuestionGame, [], 0, 0);
      first.out == Ok(AcceptAnswersOut(true, None)) && first.record.Some? &&
      Submit(OneQuestionGame, AnswersOf(ScanAsWritten([RowOf(key, first.record.value)])), 0, 0) ==
        Submission(Ok(AcceptAnswersOut(false, None)), None)
  {
    var game := OneQuestionGame;
    assert WellIndexed(game.questions);
    SubmitRecordsVerdict(game, [], 0, 0);
    assert game.questions[0].answerOptions[0].id == 0 && game.questions[0].answerOptions[0].isCorrect;
    var first := Submit(game, [], 0, 0);
    var reread := AnswersOf(ScanAsWritten([RowOf(key, first.record.value)]));
    SubmitAlreadyAnswered(game, reread, 0, 0, 0);
  }
}
