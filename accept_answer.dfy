/** Answer submission (internal/usecase/game/accept_answer.go) and the acceptor registry
    (internal/usecase/game/usecase.go): the question is looked up by id, a question the player
    already answered gets its stored verdict back, and otherwise the acceptor registered for
    the game's type judges the answer, which is then recorded. */
module AcceptAnswer {
  import opened Wrappers
  import opened Contracts
  import opened GameModel
  import opened ClassicAcceptor

  /** The acceptors there are. */
  datatype AcceptorKind = Classic

  /** The registry built by NewUsecase: only classic games have an acceptor. */
  const Acceptors: map<GameType, AcceptorKind> := map[GameTypeClassic := Classic]

  /** The verdict of an acceptor. */
  function Verdict(kind: AcceptorKind, q: Question, answers: seq<int>): Result<AcceptAnswersOut, Error>
    requires |answers| >= 1
  {
    match kind
    case Classic => ClassicVerdict(q, answers)
  }

  /** What a submission produces: the reply, and the answer to record, if any. */
  datatype Submission = Submission(out: Result<AcceptAnswersOut, Error>, record: Option<GameSessionAnswer>)

  /** The first question from position `i` on with the given id. */
  function FindQuestionFrom(qs: seq<Question>, questionId: int, i: nat): Option<Question>
    requires i <= |qs|
    decreases |qs| - i
  {
    if i == |qs| then None
    else if qs[i].id == questionId then Some(qs[i])
    else FindQuestionFrom(qs, questionId, i + 1)
  }

  /** The first recorded answer from position `k` on for the given question. */
  function FindRecordedFrom(answers: seq<GameSessionAnswer>, questionId: int, k: nat): Option<GameSessionAnswer>
    requires k <= |answers|
    decreases |answers| - k
  {
    if k == |answers| then None
    else if answers[k].questionId == questionId then Some(answers[k])
    else FindRecordedFrom(answers, questionId, k + 1)
  }

  /** The outcome of submitting option `answerId` for question `questionId` of `game`, given
      the player's recorded answers, with the checks in the source's order. */
  function Submit(game: Game, answers: seq<GameSessionAnswer>, questionId: int, answerId: int): Submission {
    if |game.questions| == 0 then Submission(Err(QuestionNotFound), None)
    else
      match FindQuestionFrom(game.questions, questionId, 0)
      case None => Submission(Err(QuestionNotFound), None)
      case Some(q) =>
        match FindRecordedFrom(answers, questionId, 0)
        case Some(ans) => Submission(Ok(AcceptAnswersOut(ans.isCorrect, q.explanation)), None)
        case None =>
          if game.gameType !in Acceptors then Submission(Err(GameTypeNotSupported), None)
          else
            match Verdict(Acceptors[game.gameType], q, [answerId])
            case Err(e) => Submission(Err(e), None)
            case Ok(out) =>
              Submission(Ok(out.(explanation := q.explanation)),
                         Some(GameSessionAnswer(questionId, answerId, out.isCorrect)))
  }

  /** The question lookup: the first question with the id, or none. */
  method FindQuestion(qs: seq<Question>, questionId: int) returns (question: Option<Question>)
    ensures question == FindQuestionFrom(qs, questionId, 0)
  {
    var i := 0;
    while i < |qs|
      invariant 0 <= i <= |qs|
      invariant FindQuestionFrom(qs, questionId, 0) == FindQuestionFrom(qs, questionId, i)
    {
      if qs[i].id == questionId {
        return Some(qs[i]);
      }
      i := i + 1;
    }
    return None;
  }

  /** The scan of the session for an earlier answer to the question. */
  method FindRecorded(answers: seq<GameSessionAnswer>, questionId: int) returns (found: Option<GameSessionAnswer>)
    ensures found == FindRecordedFrom(answers, questionId, 0)
  {
    for k := 0 to |answers|
      invariant FindRecordedFrom(answers, questionId, 0) == FindRecordedFrom(answers, questionId, k)
    {
      var ans := answers[k];
      if ans.questionId != questionId {
        continue;
      }
      return Some(ans);
    }
    return None;
  }

  /** The decision AcceptAnswer takes once it holds the game and the player's session. */
  method Decide(game: Game, answers: seq<GameSessionAnswer>, questionId: int, answerId: int) returns (s: Submission)
    ensures s == Submit(game, answers, questionId, answerId)
  {
    if |game.questions| == 0 {
      return Submission(Err(QuestionNotFound), None);
    }
    var question := FindQuestion(game.questions, questionId);
    if question.None? {
      return Submission(Err(QuestionNotFound), None);
    }
    var q := question.value;
    var earlier := FindRecorded(answers, questionId);
    if earlier.Some? {
      return Submission(Ok(AcceptAnswersOut(earlier.value.isCorrect, q.explanation)), None);
    }
    if game.gameType !in Acceptors {
      return Submission(Err(GameTypeNotSupported), None);
    }
    var acceptor := Acceptors[game.gameType];
    var result;
    match acceptor {
      case Classic => result := Accept(q, [answerId]);
    }
    if result.Err? {
      // The classic acceptor rejects only several answers, and one is passed.
      assert false;
    }
    var out := result.value.(explanation := q.explanation);
    return Submission(Ok(out), Some(GameSessionAnswer(questionId, answerId, out.isCorrect)));
  }

  // ---------------------------------------------------------------------------------------
  // Properties

  /** `n` is the first position from `i` on holding a question with the id. */
  predicate FirstQuestionAt(qs: seq<Question>, questionId: int, i: nat, n: int) {
    i <= n < |qs| && qs[n].id == questionId && forall j :: i <= j < n ==> qs[j].id != questionId
  }

  /** FindQuestionFrom finds the first question from `i` on with the id, and none only when
      there is no such question. */
  lemma {:induction false} FindQuestionIsFirst(qs: seq<Question>, questionId: int, i: nat)
    requires i <= |qs|
    ensures FindQuestionFrom(qs, questionId, i).None? <==> forall j :: i <= j < |qs| ==> qs[j].id != questionId
    ensures forall n :: FirstQuestionAt(qs, questionId, i, n) ==> FindQuestionFrom(qs, questionId, i) == Some(qs[n])
    decreases |qs| - i
  {
    if i < |qs| && qs[i].id != questionId {
      FindQuestionIsFirst(qs, questionId, i + 1);
    }
  }

  /** FindRecordedFrom finds the first recorded answer from `k` on for the question, and none
      only when the question has no recorded answer from `k` on. */
  lemma {:induction false} FindRecordedIsFirst(answers: seq<GameSessionAnswer>, questionId: int, k: nat)
    requires k <= |answers|
    ensures FindRecordedFrom(answers, questionId, k).None? <==>
      forall m :: k <= m < |answers| ==> answers[m].questionId != questionId
    ensures FindRecordedFrom(answers, questionId, k).Some? ==>
      FindRecordedFrom(answers, questionId, k).value.questionId == questionId &&
      FindRecordedFrom(answers, questionId, k).value in answers[k..]
    decreases |answers| - k
  {
    if k < |answers| && answers[k].questionId != questionId {
      FindRecordedIsFirst(answers, questionId, k + 1);
    }
  }

  /** In a well-indexed game the question with id `questionId` is the one at that position. */
  lemma FindQuestionWellIndexed(qs: seq<Question>, questionId: int)
    requires WellIndexed(qs)
    ensures 0 <= questionId < |qs| ==> FindQuestionFrom(qs, questionId, 0) == Some(qs[questionId])
    ensures !(0 <= questionId < |qs|) ==> FindQuestionFrom(qs, questionId, 0) == None
  {
    FindQuestionIsFirst(qs, questionId, 0);
  }

  /** A question id the game does not have is "question not found", and nothing is recorded,
      whatever the session holds. */
  lemma SubmitUnknownQuestion(game: Game, answers: seq<GameSessionAnswer>, questionId: int, answerId: int)
    requires forall j :: 0 <= j < |game.questions| ==> game.questions[j].id != questionId
    ensures Submit(game, answers, questionId, answerId) == Submission(Err(QuestionNotFound), None)
  {
    FindQuestionIsFirst(game.questions, questionId, 0);
  }

  /** A question the player already answered returns the verdict recorded first for it, with
      the question's explanation, and records nothing: the submitted option plays no part. */
  lemma SubmitAlreadyAnswered(game: Game, answers: seq<GameSessionAnswer>, questionId: int, answerId: int, k: nat)
    requires WellIndexed(game.questions) && 0 <= questionId < |game.questions|
    requires k < |answers| && answers[k].questionId == questionId
    requires forall m :: 0 <= m < k ==> answers[m].questionId != questionId
    ensures Submit(game, answers, questionId, answerId) ==
      Submission(Ok(AcceptAnswersOut(answers[k].isCorrect, game.questions[questionId].explanation)), None)
  {
    FindQuestionWellIndexed(game.questions, questionId);
    FindRecordedIsFirst(answers, questionId, 0);
    FindRecordedFirstAt(answers, questionId, k);
  }

  lemma {:induction false} FindRecordedFirstAt(answers: seq<GameSessionAnswer>, questionId: int, k: nat)
    requires k < |answers| && answers[k].questionId == questionId
    requires forall m :: 0 <= m < k ==> answers[m].questionId != questionId
    ensures FindRecordedFrom(answers, questionId, 0) == Some(answers[k])
  {
    var i := k;
    while i > 0
      invariant 0 <= i <= k
      invariant FindRecordedFrom(answers, questionId, i) == Some(answers[k])
    {
      i := i - 1;
    }
  }

  /** A new answer to a game type without an acceptor (a daily game, say) is rejected and
      nothing is recorded. */
  lemma SubmitUnsupportedType(game: Game, answers: seq<GameSessionAnswer>, questionId: int, answerId: int)
    requires WellIndexed(game.questions) && 0 <= questionId < |game.questions|
    requires questionId !in set a | a in answers :: a.questionId
    requires game.gameType != GameTypeClassic
    ensures Submit(game, answers, questionId, answerId) == Submission(Err(GameTypeNotSupported), None)
  {
    FindQuestionWellIndexed(game.questions, questionId);
    FindRecordedIsFirst(answers, questionId, 0);
  }

  /** A first answer to a question of a classic game is judged and recorded: the verdict is
      "correct" exactly when an option with the submitted id is flagged correct, the reply
      carries the question's explanation, and the record holds the question, the option and
      the verdict. */
  lemma SubmitRecordsVerdict(game: Game, answers: seq<GameSessionAnswer>, questionId: int, answerId: int)
    requires WellIndexed(game.questions) && 0 <= questionId < |game.questions|
    requires questionId !in set a | a in answers :: a.questionId
    requires game.gameType == GameTypeClassic
    ensures var s := Submit(game, answers, questionId, answerId);
      var q := game.questions[questionId];
      s.out.Ok? && s.out.value.explanation == q.explanation &&
      (s.out.value.isCorrect <==>
        exists j :: 0 <= j < |q.answerOptions| && q.answerOptions[j].id == answerId && q.answerOptions[j].isCorrect) &&
      s.record == Some(GameSessionAnswer(questionId, answerId, s.out.value.isCorrect))
  {
    FindQuestionWellIndexed(game.questions, questionId);
    FindRecordedIsFirst(answers, questionId, 0);
    ClassicVerdictMeaning(game.questions[questionId], answerId);
  }

  /** Whatever is recorded is an answer to the submitted question with the submitted option,
      the question was not answered before, and in a well-indexed game its id is a position. */
  lemma SubmitRecordIsNew(game: Game, answers: seq<GameSessionAnswer>, questionId: int, answerId: int)
    requires Submit(game, answers, questionId, answerId).record.Some?
    ensures var rec := Submit(game, answers, questionId, answerId).record.value;
      rec.questionId == questionId && rec.answerId == answerId &&
      Submit(game, answers, questionId, answerId).out == Ok(AcceptAnswersOut(rec.isCorrect, Submit(game, answers, questionId, answerId).out.value.explanation)) &&
      (forall m :: 0 <= m < |answers| ==> answers[m].questionId != questionId) &&
      (WellIndexed(game.questions) ==> 0 <= questionId < |game.questions|)
  {
    FindRecordedIsFirst(answers, questionId, 0);
    FindQuestionIsFirst(game.questions, questionId, 0);
  }

  /** Recording keeps "at most one answer per question" true of a session. */
  lemma SubmitKeepsDistinct(game: Game, answers: seq<GameSessionAnswer>, questionId: int, answerId: int)
    requires DistinctQuestions(answers)
    requires Submit(game, answers, questionId, answerId).record.Some?
    ensures DistinctQuestions(answers + [Submit(game, answers, questionId, answerId).record.value])
  {
    SubmitRecordIsNew(game, answers, questionId, answerId);
  }

  /** Submitting again after an answer was recorded, with any option, returns the first
      reply and records nothing more. */
  lemma SubmitIdempotent(game: Game, answers: seq<GameSessionAnswer>, questionId: int, answerId: int, again: int)
    requires Submit(game, answers, questionId, answerId).record.Some?
    ensures var s := Submit(game, answers, questionId, answerId);
      Submit(game, answers + [s.record.value], questionId, again) == Submission(s.out, None)
  {
    var s := Submit(game, answers, questionId, answerId);
    SubmitRecordIsNew(game, answers, questionId, answerId);
    var after := answers + [s.record.value];
    FindRecordedFirstAt(after, questionId, |answers|);
  }
}
