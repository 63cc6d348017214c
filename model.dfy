/** The quiz domain types (internal/model/game.go) and the one behaviour they carry:
    selecting a question's correct answer options. */
module GameModel {
  import opened Wrappers
  import opened Sequences

  /** A UUID is 16 bytes; 0 is Go's zero value `uuid.UUID{}`. */
  type Uuid = bv128
  const NilUuid: Uuid := 0

  /** A game type is a free-form string taken from the storage row. */
  type GameType = string
  const GameTypeClassic: GameType := "classic"
  const GameTypeDaily: GameType := "daily"

  /** One selectable answer; `score` absent means the source's nil pointer. */
  datatype AnswerOption = AnswerOption(id: int, answer: string, isCorrect: bool, score: Option<int>)

  datatype Question = Question(
    id: int,
    text: string,
    imageId: Option<string>,
    explanation: Option<string>,
    answerOptions: seq<AnswerOption>)

  /** A result band: totals in [from, to] (both inclusive) get `text`. */
  datatype ScoreResult = ScoreResult(from: int, to: int, text: string)

  datatype Game = Game(
    id: Uuid,
    gameType: GameType,
    title: string,
    description: Option<string>,
    questions: seq<Question>,
    scoreResults: seq<ScoreResult>)

  datatype GameInfo = GameInfo(id: Uuid, title: string)
  const ZeroGameInfo := GameInfo(NilUuid, "")

  /** One recorded answer of a session, with the verdict stored when it was accepted. */
  datatype GameSessionAnswer = GameSessionAnswer(questionId: int, answerId: int, isCorrect: bool)

  datatype GameSession = GameSession(gameId: Uuid, playerId: Uuid, answers: seq<GameSessionAnswer>)

  /** The final outcome of a finished game (model.Result). */
  datatype FinalResult = FinalResult(totalScore: int, resultText: string)

  datatype Progress = Progress(answered: int, total: int)

  /** What a player sees: the next question or the final result, and the progress. */
  datatype State = State(
    question: Option<Question>,
    result: Option<FinalResult>,
    progress: Progress,
    gameInfo: GameInfo)

  /** Every question's id is its position in the game: what the payload converter assigns and
      what the state resolver relies on when it indexes questions by id. */
  predicate WellIndexed(questions: seq<Question>) {
    forall i :: 0 <= i < |questions| ==> questions[i].id == i
  }

  /** At most one recorded answer per question: what the already-answered guard of answer
      submission maintains for every session. */
  predicate DistinctQuestions(answers: seq<GameSessionAnswer>) {
    forall k, l :: 0 <= k < l < |answers| ==> answers[k].questionId != answers[l].questionId
  }

  /** The correct options, in their original order (specification of GetCorrectAnswers). */
  function CorrectOptions(opts: seq<AnswerOption>): seq<AnswerOption>
    decreases |opts|
  {
    if opts == [] then []
    else
      var last := opts[|opts| - 1];
      CorrectOptions(opts[..|opts| - 1]) + (if last.isCorrect then [last] else [])
  }

  /** Question.GetCorrectAnswers: keeps the options flagged correct, in order. */
  method GetCorrectAnswers(q: Question) returns (result: seq<AnswerOption>)
    ensures result == CorrectOptions(q.answerOptions)
  {
    var opts := q.answerOptions;
    result := [];
    for i := 0 to |opts|
      invariant result == CorrectOptions(opts[..i])
    {
      var answer := opts[i];
      assert opts[..i + 1][..i] == opts[..i];
      if !answer.isCorrect {
        continue;
      }
      result := result + [answer];
    }
    assert opts[..|opts|] == opts;
  }

  /** Only options flagged correct are selected, and each one is an option of the question. */
  lemma {:induction false} CorrectOptionsSound(opts: seq<AnswerOption>)
    ensures forall k :: 0 <= k < |CorrectOptions(opts)| ==>
      CorrectOptions(opts)[k].isCorrect && CorrectOptions(opts)[k] in opts
    decreases |opts|
  {
    if opts != [] {
      CorrectOptionsSound(opts[..|opts| - 1]);
    }
  }

  /** Every option flagged correct is selected. */
  lemma {:induction false} CorrectOptionsComplete(opts: seq<AnswerOption>)
    ensures forall j :: 0 <= j < |opts| && opts[j].isCorrect ==> opts[j] in CorrectOptions(opts)
    decreases |opts|
  {
    if opts != [] {
      CorrectOptionsComplete(opts[..|opts| - 1]);
      forall j | 0 <= j < |opts| - 1 && opts[j].isCorrect
        ensures opts[j] in CorrectOptions(opts)
      {
        assert opts[..|opts| - 1][j] == opts[j];
      }
    }
  }

  /** The selection keeps the options' relative order: it is a subsequence of the options. */
  lemma {:induction false} CorrectOptionsOrdered(opts: seq<AnswerOption>)
    ensures IsSubsequence(CorrectOptions(opts), opts)
    decreases |opts|
  {
    if opts == [] {
      assert Embedding([], CorrectOptions(opts), opts);
    } else {
      var init, last := opts[..|opts| - 1], opts[|opts| - 1];
      CorrectOptionsOrdered(init);
      var idx: seq<nat> :| Embedding(idx, CorrectOptions(init), init);
      assert init + [last] == opts;
      assert opts[..|opts| - 1] == init;
      if last.isCorrect {
        EmbeddingExtend(idx, CorrectOptions(init), init, last);
        assert Embedding(idx + [|init|], CorrectOptions(opts), opts);
      } else {
        EmbeddingWiden(idx, CorrectOptions(init), init, last);
        assert Embedding(idx, CorrectOptions(opts), opts);
      }
    }
  }

  /** At most as many selected as offered, and none exactly when no option is correct. */
  lemma {:induction false} CorrectOptionsSize(opts: seq<AnswerOption>)
    ensures |CorrectOptions(opts)| <= |opts|
    ensures CorrectOptions(opts) == [] <==> forall j :: 0 <= j < |opts| ==> !opts[j].isCorrect
    decreases |opts|
  {
    if opts != [] {
      CorrectOptionsSize(opts[..|opts| - 1]);
      assert forall j :: 0 <= j < |opts| - 1 ==> opts[..|opts| - 1][j] == opts[j];
    }
  }
}
