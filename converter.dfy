/** The storage-row converter (internal/repositories/game/converter.go): the decoded JSON
    payload of a game row becomes a Game, and the answer rows of a session a GameSession. */
module Converter {
  import opened Wrappers
  import opened Sequences
  import opened Strings
  import opened Int64
  import opened Contracts
  import opened GameModel

  datatype RawAnswerOption = RawAnswerOption(text: string, score: Option<int>, isCorrect: bool)

  datatype RawQuestion = RawQuestion(
    question: string,
    image: Option<string>,
    explanation: Option<string>,
    options: seq<RawAnswerOption>)

  /** The decoded payload. Its `gameType` is decoded but never used: the row's type column
      decides the game type. `result` maps "from-to" keys to result texts. */
  datatype RawGame = RawGame(
    name: string,
    description: Option<string>,
    gameType: string,
    questions: seq<RawQuestion>,
    result: map<string, string>)

  /** A row of the game table; `payload` is None when its bytes do not decode as a payload. */
  datatype GameRow = GameRow(id: Uuid, gameType: string, payload: Option<RawGame>)

  /** A row of the session-answer table. */
  datatype SessionRow = SessionRow(gameId: Uuid, playerId: Uuid, questionId: int, answerId: int, isCorrect: bool)

  // ---------------------------------------------------------------------------------------
  // Score-range keys

  /** `strconv.ParseInt(s, 10, 64)`: an optional '+' or '-', then one or more decimal digits
      (no base prefix, no underscores), whose value must fit in an int64. */
  function ParseInt64(s: string): (r: Option<int>)
    ensures r.Some? ==> MinInt64 <= r.value <= MaxInt64
  {
    var signed := |s| > 0 && (s[0] == '+' || s[0] == '-');
    var digits := if signed then s[1..] else s;
    if digits == [] || !AllDigits(digits) then None
    else
      var v: int := if signed && s[0] == '-' then -(DecimalValue(digits) as int) else DecimalValue(digits);
      if MinInt64 <= v <= MaxInt64 then Some(v) else None
  }

  /** Parsing gives back every int64 in its decimal spelling. */
  lemma ParseInt64FormatInt(v: int)
    requires MinInt64 <= v <= MaxInt64
    ensures ParseInt64(FormatInt(v)) == Some(v)
  {
    if v < 0 {
      DigitsValue(-v);
      assert FormatInt(v)[1..] == Digits(-v);
    } else {
      DigitsValue(v);
      assert FormatInt(v)[0] != '+' && FormatInt(v)[0] != '-';
    }
  }

  /** A key of the result map read as a band: split on '-' into exactly two pieces, each an
      int64 in decimal. */
  function ParseRange(key: string): Option<(int, int)> {
    var parts := SplitOn(key, '-');
    if |parts| != 2 then None
    else
      var from, to := ParseInt64(parts[0]), ParseInt64(parts[1]);
      if from.None? || to.None? then None else Some((from.value, to.value))
  }

  lemma DigitsHaveNoDash(s: string)
    requires AllDigits(s)
    ensures '-' !in s
  {
  }

  /** Every band with non-negative int64 bounds can be written as a key "from-to". */
  lemma ParseRangeFormat(from: int, to: int)
    requires 0 <= from <= MaxInt64 && 0 <= to <= MaxInt64
    ensures ParseRange(FormatInt(from) + "-" + FormatInt(to)) == Some((from, to))
  {
    DigitsHaveNoDash(FormatInt(from));
    DigitsHaveNoDash(FormatInt(to));
    SplitOnPrefix(FormatInt(from), '-', FormatInt(to));
    SplitOnNoSep(FormatInt(to), '-');
    ParseInt64FormatInt(from);
    ParseInt64FormatInt(to);
  }

  /** A string with two separators between separator-free parts splits into three or more
      pieces. */
  lemma {:induction false} TwoDashesSplitApart(x: string, y: string, z: string)
    requires '-' !in x && '-' !in y
    ensures |SplitOn(x + ['-'] + y + ['-'] + z, '-')| >= 3
  {
    assert x + ['-'] + y + ['-'] + z == x + ['-'] + (y + ['-'] + z);
    SplitOnPrefix(x, '-', y + ['-'] + z);
    SplitOnPrefix(y, '-', z);
  }

  /** A negative bound cannot be written: its sign is itself the separator, so the key splits
      into more than two pieces and is rejected. */
  lemma NegativeBoundRejected(from: int, to: int)
    requires from < 0 || to < 0
    ensures ParseRange(FormatInt(from) + "-" + FormatInt(to)) == None
  {
    var key := FormatInt(from) + "-" + FormatInt(to);
    if from < 0 {
      var d := Digits(-from);
      DigitsHaveNoDash(d);
      assert FormatInt(from) == ['-'] + d;
      assert key == [] + ['-'] + d + ['-'] + FormatInt(to);
      TwoDashesSplitApart([], d, FormatInt(to));
    } else {
      var d := Digits(-to);
      DigitsHaveNoDash(Digits(from));
      assert FormatInt(from) == Digits(from);
      assert FormatInt(to) == ['-'] + d;
      assert key == FormatInt(from) + ['-'] + [] + ['-'] + d;
      TwoDashesSplitApart(FormatInt(from), [], d);
    }
    ManyPiecesRejected(key);
  }

  /** A key that does not split into exactly two pieces is rejected. */
  lemma ManyPiecesRejected(key: string)
    requires |SplitOn(key, '-')| != 2
    ensures ParseRange(key) == None
  {
  }

  /** The band a valid key stands for. */
  function BandOf(key: string, text: string): ScoreResult
    requires ParseRange(key).Some?
  {
    ScoreResult(ParseRange(key).value.0, ParseRange(key).value.1, text)
  }

  /** Every key listed is a valid key of `m`. */
  predicate ValidKeys(m: map<string, string>, order: seq<string>) {
    forall i :: 0 <= i < |order| ==> order[i] in m && ParseRange(order[i]).Some?
  }

  /** `order` lists each key of `m` exactly once: one iteration order of the map. */
  ghost predicate Enumerates(order: seq<string>, m: map<string, string>) {
    NoDuplicates(order) && forall k :: k in m <==> k in order
  }

  /** The bands of the listed keys, in the listed order. */
  function BandsInOrder(m: map<string, string>, order: seq<string>): (bands: seq<ScoreResult>)
    requires ValidKeys(m, order)
    ensures |bands| == |order|
    decreases |order|
  {
    if order == [] then []
    else
      var last := order[|order| - 1];
      BandsInOrder(m, order[..|order| - 1]) + [BandOf(last, m[last])]
  }

  /** The keys before the last one are valid keys too. */
  lemma ValidKeysPrefix(m: map<string, string>, order: seq<string>)
    requires ValidKeys(m, order) && order != []
    ensures ValidKeys(m, order[..|order| - 1])
  {
    var init := order[..|order| - 1];
    forall i | 0 <= i < |init|
      ensures init[i] in m && ParseRange(init[i]).Some?
    {
      assert init[i] == order[i];
    }
  }

  /** The band at position i is the parse of the i-th key, with that key's text. */
  lemma {:induction false} BandAt(m: map<string, string>, order: seq<string>, i: nat)
    requires ValidKeys(m, order) && i < |order|
    ensures order[i] in m && ParseRange(order[i]).Some?
    ensures BandsInOrder(m, order)[i] == BandOf(order[i], m[order[i]])
    decreases |order|
  {
    var init := order[..|order| - 1];
    ValidKeysPrefix(m, order);
    if i < |init| {
      BandAt(m, init, i);
      assert init[i] == order[i];
    }
  }

  /** The i-th band is the parse of the i-th key, with that key's text. */
  lemma BandsInOrderMeaning(m: map<string, string>, order: seq<string>)
    requires ValidKeys(m, order)
    ensures forall i :: 0 <= i < |order| ==> BandsInOrder(m, order)[i] == BandOf(order[i], m[order[i]])
  {
    forall i | 0 <= i < |order|
      ensures order[i] in m && ParseRange(order[i]).Some?
      ensures BandsInOrder(m, order)[i] == BandOf(order[i], m[order[i]])
    {
      BandAt(m, order, i);
    }
  }

  /** parseScoreResults. Go visits the map's keys in an unspecified order, modelled by the
      nondeterministic choice of the next key; `order` records the order taken. The parse
      fails exactly when some key is invalid, and then names an invalid key; otherwise there
      is one band per key, in the order visited. */
  method ParseScoreResults(m: map<string, string>) returns (r: Result<seq<ScoreResult>, Error>, ghost order: seq<string>)
    ensures r.Ok? <==> forall k :: k in m ==> ParseRange(k).Some?
    ensures r.Err? ==> r.error.InvalidScoreRange? && r.error.key in m && ParseRange(r.error.key).None?
    ensures r.Ok? ==> Enumerates(order, m) && ValidKeys(m, order) && r.value == BandsInOrder(m, order)
  {
    var results: seq<ScoreResult> := [];
    var remaining := m.Keys;
    order := [];
    while remaining != {}
      invariant remaining <= m.Keys
      invariant forall k :: k in m ==> (k in remaining <==> k !in order)
      invariant NoDuplicates(order) && ValidKeys(m, order)
      invariant results == BandsInOrder(m, order)
      decreases remaining
    {
      var k :| k in remaining;
      var v := m[k];
      var parts := SplitOn(k, '-');
      if |parts| != 2 {
        return Err(InvalidScoreRange(k)), order;
      }
      var from, to := ParseInt64(parts[0]), ParseInt64(parts[1]);
      if from.None? || to.None? {
        return Err(InvalidScoreRange(k)), order;
      }
      order := order + [k];
      results := results + [ScoreResult(from.value, to.value, v)];
      remaining := remaining - {k};
    }
    return Ok(results), order;
  }

  // ---------------------------------------------------------------------------------------
  // Games

  /** The options of a raw question, each with its position as its id. */
  function OptionsOf(ros: seq<RawAnswerOption>): (opts: seq<AnswerOption>)
    decreases |ros|
  {
    if ros == [] then []
    else
      var ro := ros[|ros| - 1];
      OptionsOf(ros[..|ros| - 1]) + [AnswerOption(|ros| - 1, ro.text, ro.isCorrect, ro.score)]
  }

  /** The questions of a raw game, each with its position as its id. */
  function QuestionsOf(rqs: seq<RawQuestion>): (qs: seq<Question>)
    decreases |rqs|
  {
    if rqs == [] then []
    else
      var rq := rqs[|rqs| - 1];
      QuestionsOf(rqs[..|rqs| - 1]) + [Question(|rqs| - 1, rq.question, rq.image, rq.explanation, OptionsOf(rq.options))]
  }

  /** One option per raw option, in order: its id is its position, and text, flag and score
      are copied. */
  lemma {:induction false} OptionsOfMeaning(ros: seq<RawAnswerOption>)
    ensures |OptionsOf(ros)| == |ros|
    ensures forall j :: 0 <= j < |ros| ==>
      OptionsOf(ros)[j] == AnswerOption(j, ros[j].text, ros[j].isCorrect, ros[j].score)
    decreases |ros|
  {
    if ros != [] {
      var init := ros[..|ros| - 1];
      assert forall j :: 0 <= j < |init| ==> init[j] == ros[j];
      OptionsOfMeaning(init);
    }
  }

  /** One question per raw question, in order: its id is its position (so the questions are
      well indexed), text, image and explanation are copied, and its options are converted. */
  lemma {:induction false} QuestionsOfMeaning(rqs: seq<RawQuestion>)
    ensures |QuestionsOf(rqs)| == |rqs|
    ensures WellIndexed(QuestionsOf(rqs))
    ensures forall i :: 0 <= i < |rqs| ==>
      QuestionsOf(rqs)[i] == Question(i, rqs[i].question, rqs[i].image, rqs[i].explanation, OptionsOf(rqs[i].options))
    decreases |rqs|
  {
    if rqs != [] {
      var init := rqs[..|rqs| - 1];
      assert forall i :: 0 <= i < |init| ==> init[i] == rqs[i];
      QuestionsOfMeaning(init);
    }
  }

  /** The game a row converts to when its keys are visited in `order`. */
  function GameFrom(row: GameRow, order: seq<string>): Game
    requires row.payload.Some? && ValidKeys(row.payload.value.result, order)
  {
    var rg := row.payload.value;
    Game(row.id, row.gameType, rg.name, rg.description, QuestionsOf(rg.questions), BandsInOrder(rg.result, order))
  }

  /** The conversion of one raw question: its options numbered by position. */
  method ConvertOptions(ros: seq<RawAnswerOption>) returns (options: seq<AnswerOption>)
    ensures options == OptionsOf(ros)
  {
    options := [];
    for idxao := 0 to |ros|
      invariant options == OptionsOf(ros[..idxao])
    {
      var ro := ros[idxao];
      assert ros[..idxao + 1][..idxao] == ros[..idxao];
      options := options + [AnswerOption(idxao, ro.text, ro.isCorrect, ro.score)];
    }
    assert ros[..|ros|] == ros;
  }

  /** rawToGame: the bands first (their error aborts), then the questions and options numbered
      by position; id and type are left at their zero values for the caller to set. */
  method RawToGame(rg: RawGame) returns (r: Result<Game, Error>, ghost order: seq<string>)
    ensures r.Ok? <==> forall k :: k in rg.result ==> ParseRange(k).Some?
    ensures r.Err? ==> r.error.InvalidScoreRange? && r.error.key in rg.result && ParseRange(r.error.key).None?
    ensures r.Ok? ==>
      Enumerates(order, rg.result) && ValidKeys(rg.result, order) &&
      r.value == Game(NilUuid, "", rg.name, rg.description, QuestionsOf(rg.questions), BandsInOrder(rg.result, order))
  {
    var scoreResults;
    scoreResults, order := ParseScoreResults(rg.result);
    if scoreResults.Err? {
      return Err(scoreResults.error), order;
    }
    var questions: seq<Question> := [];
    for idxq := 0 to |rg.questions|
      invariant questions == QuestionsOf(rg.questions[..idxq])
    {
      var rq := rg.questions[idxq];
      assert rg.questions[..idxq + 1][..idxq] == rg.questions[..idxq];
      var options := ConvertOptions(rq.options);
      questions := questions + [Question(idxq, rq.question, rq.image, rq.explanation, options)];
    }
    assert rg.questions[..|rg.questions|] == rg.questions;
    return Ok(Game(NilUuid, "", rg.name, rg.description, questions, scoreResults.value)), order;
  }

  /** convertToGame: an undecodable payload or an invalid score-range key is an error;
      otherwise the payload's game with the row's id and type column. */
  method ConvertToGame(row: GameRow) returns (r: Result<Game, Error>, ghost order: seq<string>)
    ensures row.payload.None? ==> r == Err(MalformedPayload)
    ensures row.payload.Some? ==> (r.Ok? <==> forall k :: k in row.payload.value.result ==> ParseRange(k).Some?)
    ensures r.Err? && row.payload.Some? ==>
      r.error.InvalidScoreRange? && r.error.key in row.payload.value.result && ParseRange(r.error.key).None?
    ensures r.Ok? ==>
      row.payload.Some? && Enumerates(order, row.payload.value.result) &&
      ValidKeys(row.payload.value.result, order) && r.value == GameFrom(row, order)
  {
    order := [];
    if row.payload.None? {
      return Err(MalformedPayload), order;
    }
    var game;
    game, order := RawToGame(row.payload.value);
    if game.Err? {
      return Err(game.error), order;
    }
    r := Ok(game.value.(id := row.id, gameType := row.gameType));
  }

  // ---------------------------------------------------------------------------------------
  // Sessions

  /** The answers the rows record, in row order. */
  function AnswersOf(rows: seq<SessionRow>): (answers: seq<GameSessionAnswer>)
    ensures |answers| == |rows|
    ensures forall k :: 0 <= k < |rows| ==>
      answers[k] == GameSessionAnswer(rows[k].questionId, rows[k].answerId, rows[k].isCorrect)
    decreases |rows|
  {
    if rows == [] then []
    else
      var row := rows[|rows| - 1];
      AnswersOf(rows[..|rows| - 1]) + [GameSessionAnswer(row.questionId, row.answerId, row.isCorrect)]
  }

  /** The session the rows make up: no rows is the zero session; otherwise the first row's
      game and player with every row's answer. */
  function SessionOf(rows: seq<SessionRow>): GameSession {
    if rows == [] then GameSession(NilUuid, NilUuid, [])
    else GameSession(rows[0].gameId, rows[0].playerId, AnswersOf(rows))
  }

  /** convertToSession. */
  method ConvertToSession(rows: seq<SessionRow>) returns (session: GameSession)
    ensures session == SessionOf(rows)
  {
    if |rows| == 0 {
      return GameSession(NilUuid, NilUuid, []);
    }
    session := GameSession(rows[0].gameId, rows[0].playerId, []);
    for k := 0 to |rows|
      invariant session == GameSession(rows[0].gameId, rows[0].playerId, AnswersOf(rows[..k]))
    {
      var item := rows[k];
      assert rows[..k + 1][..k] == rows[..k];
      session := session.(answers := session.answers + [GameSessionAnswer(item.questionId, item.answerId, item.isCorrect)]);
    }
    assert rows[..|rows|] == rows;
  }
}
