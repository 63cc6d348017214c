/** Worked examples: the demo quiz the web client ships (web/src/lib/data/quiz.ts) converted
    from its payload and played through the submission and resolution model. */
module Scenarios {
  import opened Wrappers
  import opened Contracts
  import opened GameModel
  import opened CurrentState
  import opened AcceptAnswer
  import opened Converter
  import opened QuizUtils
  import opened Strings
  import opened ClassicAcceptor

  const DemoId: Uuid := 0x801b737c_0197_4999_b6f1_41d281ed808a

  /** The picture shown with the first question. */
  const DemoImage: Option<string> :=
    Some("https://i.pinimg.com/736x/7b/de/e5/7bdee5a30249a67d9c65187a8417937a.jpg")

  const France := RawQuestion(
    "What is the capital of France?",
    DemoImage, Some("Paris is the capital of France"),
    [RawAnswerOption("Paris", Some(2), true), RawAnswerOption("London", Some(1), false),
     RawAnswerOption("Berlin", Some(0), false)])

  const Germany := RawQuestion(
    "What is the capital of Germany?", None, Some("Berlin is the capital of Germany"),
    [RawAnswerOption("Paris", Some(0), false), RawAnswerOption("London", Some(1), false),
     RawAnswerOption("Berlin", Some(2), true)])

  const DemoResults: map<string, string> :=
    map["0-1" := "you know nothing", "2-3" := "you know a little", "4-5" := "you know a lot"]

  const DemoRow := GameRow(DemoId, GameTypeClassic,
    Some(RawGame("Classic", Some("Classic quiz"), "classic", [France, Germany], DemoResults)))

  /** One order in which the band keys may be visited. */
  const DemoOrder: seq<string> := ["0-1", "2-3", "4-5"]

  /** The game the row converts to, written out. */
  const DemoGame := Game(DemoId, GameTypeClassic, "Classic", Some("Classic quiz"),
    [Question(0, "What is the capital of France?", DemoImage, Some("Paris is the capital of France"),
       [AnswerOption(0, "Paris", true, Some(2)), AnswerOption(1, "London", false, Some(1)),
        AnswerOption(2, "Berlin", false, Some(0))]),
     Question(1, "What is the capital of Germany?", None, Some("Berlin is the capital of Germany"),
       [AnswerOption(0, "Paris", false, Some(0)), AnswerOption(1, "London", false, Some(1)),
        AnswerOption(2, "Berlin", true, Some(2))])],
    [ScoreResult(0, 1, "you know nothing"), ScoreResult(2, 3, "you know a little"),
     ScoreResult(4, 5, "you know a lot")])

  /** A key made of two single digits reads as that band, on the server and on the page. */
  lemma OneDigitKey(a: int, b: int)
    requires 0 <= a < 10 && 0 <= b < 10
    ensures var key := [('0' as int + a) as char, '-', ('0' as int + b) as char];
      ParseRange(key) == Some((a, b)) && RangeOf(key) == Some((a, b))
  {
    AgreesWithServerParse(a, b);
    assert FormatInt(a) + "-" + FormatInt(b) == [('0' as int + a) as char, '-', ('0' as int + b) as char];
  }

  /** The demo's keys read as bands. */
  lemma DemoKeys()
    ensures ParseRange("0-1") == Some((0, 1))
    ensures ParseRange("2-3") == Some((2, 3))
    ensures ParseRange("4-5") == Some((4, 5))
  {
    OneDigitKey(0, 1);
    OneDigitKey(2, 3);
    OneDigitKey(4, 5);
  }

  /** The demo's keys are valid. */
  lemma DemoKeysValid()
    ensures ValidKeys(DemoResults, DemoOrder)
  {
    DemoKeys();
  }

  /** The demo's keys give one band each, in the order visited. */
  lemma DemoBands()
    ensures ValidKeys(DemoResults, DemoOrder)
    ensures BandsInOrder(DemoResults, DemoOrder) == DemoGame.scoreResults
  {
    DemoKeysValid();
    BandsInOrderMeaning(DemoResults, DemoOrder);
    DemoKeys();
  }

  /** The demo's questions and options are numbered by position, their fields copied. */
  lemma DemoQuestions()
    ensures QuestionsOf([France, Germany]) == DemoGame.questions
  {
    QuestionsOfMeaning([France, Germany]);
    OptionsOfMeaning(France.options);
    OptionsOfMeaning(Germany.options);
    assert OptionsOf(France.options) == DemoGame.questions[0].answerOptions;
    assert OptionsOf(Germany.options) == DemoGame.questions[1].answerOptions;
  }

  /** The demo payload converts to the game above. */
  lemma DemoConverts()
    ensures ValidKeys(DemoResults, DemoOrder)
    ensures GameFrom(DemoRow, DemoOrder) == DemoGame
  {
    DemoBands();
    DemoQuestions();
  }

  /** Paris, then Berlin: 2 + 2 points, the top band. */
  lemma BothCorrect()
    ensures Resolve(DemoGame, GameSession(DemoId, 1, [GameSessionAnswer(0, 0, true), GameSessionAnswer(1, 2, true)]))
      == Ok(State(None, Some(FinalResult(4, "you know a lot")), Progress(2, 2), ZeroGameInfo))
  {
    var session := GameSession(DemoId, 1, [GameSessionAnswer(0, 0, true), GameSessionAnswer(1, 2, true)]);
    Finished(session);
    ResolveBand(DemoGame, session, 2);
  }

  /** London twice: both answers are wrong, yet each is worth its option's 1 point. */
  lemma WrongAnswersStillScore()
    ensures Resolve(DemoGame, GameSession(DemoId, 1, [GameSessionAnswer(0, 1, false), GameSessionAnswer(1, 1, false)]))
      == Ok(State(None, Some(FinalResult(2, "you know a little")), Progress(2, 2), ZeroGameInfo))
  {
    var session := GameSession(DemoId, 1, [GameSessionAnswer(0, 1, false), GameSessionAnswer(1, 1, false)]);
    Finished(session);
    ResolveBand(DemoGame, session, 1);
  }

  /** With only the first question answered, the second is next and progress is 1 of 2. */
  lemma SecondQuestionNext()
    ensures Resolve(DemoGame, GameSession(DemoId, 1, [GameSessionAnswer(0, 0, true)]))
      == Ok(State(Some(DemoGame.questions[1]), None, Progress(1, 2), ZeroGameInfo))
  {
    var answers := [GameSessionAnswer(0, 0, true)];
    assert answers[0] in answers;
    assert AnsweredIds(answers) == {0};
    ResolveNextQuestion(DemoGame, GameSession(DemoId, 1, answers), 1);
  }

  /** An option id the question does not have is judged incorrect and recorded; the failure
      only shows once every question is answered and the score is computed. */
  lemma UnknownOptionFailsAtResolution()
    ensures Submit(DemoGame, [], 0, 9)
      == Submission(Ok(AcceptAnswersOut(false, Some("Paris is the capital of France"))), Some(GameSessionAnswer(0, 9, false)))
    ensures Resolve(DemoGame, GameSession(DemoId, 1, [GameSessionAnswer(0, 9, false), GameSessionAnswer(1, 2, true)]))
      == Err(AnswerOptionNotFound)
  {
    UnknownOptionIsIncorrect(DemoGame.questions[0], 9);
    var session := GameSession(DemoId, 1, [GameSessionAnswer(0, 9, false), GameSessionAnswer(1, 2, true)]);
    Finished(session);
    AnswerScoreCases(DemoGame.questions, session.answers[0]);
    ResolveFirstBadAnswer(DemoGame, session, 0);
  }

  /** Both demo questions are answered once the session holds answers to ids 0 and 1. */
  lemma Finished(session: GameSession)
    requires |session.answers| == 2 && session.answers[0].questionId == 0 && session.answers[1].questionId == 1
    ensures forall j :: 0 <= j < |DemoGame.questions| ==> DemoGame.questions[j].id in AnsweredIds(session.answers)
  {
    assert session.answers[0] in session.answers && session.answers[1] in session.answers;
  }

  /** The page reads the demo's keys as the same bands. */
  lemma DemoPageRanges()
    ensures RangeOf("0-1") == Some((0, 1))
    ensures RangeOf("2-3") == Some((2, 3))
    ensures RangeOf("4-5") == Some((4, 5))
  {
    OneDigitKey(0, 1);
    OneDigitKey(2, 3);
    OneDigitKey(4, 5);
  }

  /** The page's lookup over the same mapping names the same band for a total of 4. */
  lemma PageAgrees()
    ensures GetResultText(4, [("0-1", "you know nothing"), ("2-3", "you know a little"), ("4-5", "you know a lot")])
      == "you know a lot"
  {
    var entries := [("0-1", "you know nothing"), ("2-3", "you know a little"), ("4-5", "you know a lot")];
    DemoPageRanges();
    assert !Matches(4, entries[0].0) && !Matches(4, entries[1].0) && Matches(4, entries[2].0);
    GetResultTextFirstMatch(4, entries, 2);
  }
}
