/** The state resolver (internal/usecase/game/get_current_state.go): from a game and a
    player's recorded answers, either the first unanswered question in game order, or,
    once every question is answered, the total score and the result band containing it. */
module CurrentState {
  import opened Wrappers
  import opened Contracts
  import opened GameModel
  import opened Sequences
  import opened Int64

  /** The question ids the session holds an answer for (the keys of `answeredMap`). */
  function AnsweredIds(answers: seq<GameSessionAnswer>): set<int> {
    set a | a in answers :: a.questionId
  }

  /** Position of the first question from `i` on whose id has no recorded answer. */
  function FirstUnansweredFrom(qs: seq<Question>, answered: set<int>, i: nat): (r: Option<nat>)
    requires i <= |qs|
    ensures r.Some? ==> i <= r.value < |qs|
    decreases |qs| - i
  {
    if i == |qs| then None
    else if qs[i].id !in answered then Some(i)
    else FirstUnansweredFrom(qs, answered, i + 1)
  }

  /** The first option from position `j` on with the given id. */
  function FindOptionFrom(opts: seq<AnswerOption>, answerId: int, j: nat): Option<AnswerOption>
    requires j <= |opts|
    decreases |opts| - j
  {
    if j == |opts| then None
    else if opts[j].id == answerId then Some(opts[j])
    else FindOptionFrom(opts, answerId, j + 1)
  }

  /** Points an option is worth when chosen: its score, 1 when it has none. The correctness
      flag plays no part. */
  function OptionScore(o: AnswerOption): int {
    o.score.GetOr(1)
  }

  /** Points of one recorded answer; its question is looked up by position. */
  function AnswerScore(qs: seq<Question>, ans: GameSessionAnswer): Result<int, Error> {
    if ans.questionId < 0 || ans.questionId >= |qs| then Err(InvalidQuestionId)
    else
      match FindOptionFrom(qs[ans.questionId].answerOptions, ans.answerId, 0)
      case None => Err(AnswerOptionNotFound)
      case Some(o) => Ok(OptionScore(o))
  }

  /** The int64 running total over the answers in order, or the first answer's error. */
  function TotalScore(qs: seq<Question>, answers: seq<GameSessionAnswer>): Result<int, Error>
    decreases |answers|
  {
    if answers == [] then Ok(0)
    else
      match TotalScore(qs, answers[..|answers| - 1])
      case Err(e) => Err(e)
      case Ok(t) =>
        match AnswerScore(qs, answers[|answers| - 1])
        case Err(e) => Err(e)
        case Ok(s) => Ok(Wrap64(t + s))
  }

  /** Text of the first band from position `i` on that contains `total`; "" when none does. */
  function BandTextFrom(bands: seq<ScoreResult>, total: int, i: nat): string
    requires i <= |bands|
    decreases |bands| - i
  {
    if i == |bands| then ""
    else if bands[i].from <= total <= bands[i].to then bands[i].text
    else BandTextFrom(bands, total, i + 1)
  }

  /** The state the resolver computes, as a function of the game and the session. */
  function Resolve(game: Game, session: GameSession): Result<State, Error> {
    var qs := game.questions;
    var progress := Progress(|session.answers|, |qs|);
    match FirstUnansweredFrom(qs, AnsweredIds(session.answers), 0)
    case Some(i) => Ok(State(Some(qs[i]), None, progress, ZeroGameInfo))
    case None =>
      match TotalScore(qs, session.answers)
      case Err(e) => Err(e)
      case Ok(total) =>
        var text := BandTextFrom(game.scoreResults, total, 0);
        if text == "" then Err(NoResultFound)
        else Ok(State(None, Some(FinalResult(total, text)), progress, ZeroGameInfo))
  }

  /** Once a prefix of the answers fails, the whole list fails with the same error. */
  lemma {:induction false} TotalScoreErrPersists(qs: seq<Question>, answers: seq<GameSessionAnswer>, n: nat)
    requires n <= |answers|
    requires TotalScore(qs, answers[..n]).Err?
    ensures TotalScore(qs, answers) == TotalScore(qs, answers[..n])
    decreases |answers|
  {
    if n < |answers| {
      var init := answers[..|answers| - 1];
      assert init[..n] == answers[..n];
      TotalScoreErrPersists(qs, init, n);
    } else {
      assert answers[..n] == answers;
    }
  }

  /** Builds `answeredMap`: each answered question id mapped to the last chosen option id. */
  method BuildAnsweredMap(answers: seq<GameSessionAnswer>) returns (answeredMap: map<int, int>)
    ensures answeredMap.Keys == AnsweredIds(answers)
  {
    answeredMap := map[];
    for k := 0 to |answers|
      invariant answeredMap.Keys == AnsweredIds(answers[..k])
    {
      assert answers[..k + 1] == answers[..k] + [answers[k]];
      answeredMap := answeredMap[answers[k].questionId := answers[k].answerId];
    }
    assert answers[..|answers|] == answers;
  }

  /** The scan for the next question: the first question in game order whose id is not a key
      of `answeredMap`, fetched as `Questions[item.ID]`. That index is the scanned question
      itself only because question ids are positions, hence the precondition. */
  method FindNextQuestion(qs: seq<Question>, answeredMap: map<int, int>) returns (next: Option<Question>)
    requires WellIndexed(qs)
    ensures next.None? <==> FirstUnansweredFrom(qs, answeredMap.Keys, 0).None?
    ensures next.Some? ==> next.value == qs[FirstUnansweredFrom(qs, answeredMap.Keys, 0).value]
  {
    var i := 0;
    while i < |qs|
      invariant 0 <= i <= |qs|
      invariant FirstUnansweredFrom(qs, answeredMap.Keys, 0) == FirstUnansweredFrom(qs, answeredMap.Keys, i)
    {
      var item := qs[i];
      if item.id in answeredMap {
        i := i + 1;
        continue;
      }
      return Some(qs[item.id]);
    }
    return None;
  }

  /** The scoring loop: for each recorded answer, its question by position and the first
      option with the chosen id, adding that option's points with int64 wrap-around. */
  method SumScores(qs: seq<Question>, answers: seq<GameSessionAnswer>) returns (r: Result<int, Error>)
    ensures r == TotalScore(qs, answers)
  {
    var totalScore := 0;
    for k := 0 to |answers|
      invariant TotalScore(qs, answers[..k]) == Ok(totalScore)
    {
      var ans := answers[k];
      assert answers[..k + 1][..k] == answers[..k];
      if ans.questionId < 0 || ans.questionId >= |qs| {
        TotalScoreErrPersists(qs, answers, k + 1);
        return Err(InvalidQuestionId);
      }
      var opts := qs[ans.questionId].answerOptions;
      var found := false;
      var j := 0;
      while j < |opts|
        invariant 0 <= j <= |opts|
        invariant FindOptionFrom(opts, ans.answerId, 0) == FindOptionFrom(opts, ans.answerId, j)
        invariant !found
      {
        var opt := opts[j];
        if opt.id == ans.answerId {
          var score := 1;
          if opt.score.Some? {
            score := opt.score.value;
          }
          totalScore := Wrap64(totalScore + score);
          found := true;
          break;
        }
        j := j + 1;
      }
      if !found {
        TotalScoreErrPersists(qs, answers, k + 1);
        return Err(AnswerOptionNotFound);
      }
    }
    assert answers[..|answers|] == answers;
    return Ok(totalScore);
  }

  /** The band lookup: the text of the first band containing the total, "" when none does. */
  method FindResultText(bands: seq<ScoreResult>, totalScore: int) returns (resultText: string)
    ensures resultText == BandTextFrom(bands, totalScore, 0)
  {
    resultText := "";
    var b := 0;
    while b < |bands|
      invariant 0 <= b <= |bands|
      invariant BandTextFrom(bands, totalScore, 0) == BandTextFrom(bands, totalScore, b)
    {
      var res := bands[b];
      if totalScore >= res.from && totalScore <= res.to {
        return res.text;
      }
      b := b + 1;
    }
  }

  /** The body of Usecase.GetCurrentState once the game and the session are loaded. */
  method ResolveState(game: Game, session: GameSession) returns (r: Result<State, Error>)
    requires WellIndexed(game.questions)
    ensures r == Resolve(game, session)
  {
    var answeredMap := BuildAnsweredMap(session.answers);
    var state := State(None, None, Progress(|session.answers|, |game.questions|), ZeroGameInfo);

    var next := FindNextQuestion(game.questions, answeredMap);
    if next.Some? {
      state := state.(question := next);
      return Ok(state);
    }

    var totalScore := SumScores(game.questions, session.answers);
    if totalScore.Err? {
      return Err(totalScore.error);
    }

    var resultText := FindResultText(game.scoreResults, totalScore.value);
    if resultText == "" {
      return Err(NoResultFound);
    }
    state := state.(result := Some(FinalResult(totalScore.value, resultText)));
    return Ok(state);
  }

  // ---------------------------------------------------------------------------------------
  // Properties of the resolver

  /** FirstUnansweredFrom finds the first question from `i` on without an answer, and finds
      none only when every question from `i` on is answered. */
  lemma {:induction false} FirstUnansweredIsFirst(qs: seq<Question>, answered: set<int>, i: nat)
    requires i <= |qs|
    ensures FirstUnansweredFrom(qs, answered, i).Some? ==>
      var n := FirstUnansweredFrom(qs, answered, i).value;
      qs[n].id !in answered && forall j :: i <= j < n ==> qs[j].id in answered
    ensures FirstUnansweredFrom(qs, answered, i).None? ==>
      forall j :: i <= j < |qs| ==> qs[j].id in answered
    decreases |qs| - i
  {
    if i < |qs| && qs[i].id in answered {
      FirstUnansweredIsFirst(qs, answered, i + 1);
    }
  }

  /** FindOptionFrom returns the first option from `j` on with the id, and none only when no
      option from `j` on has it. */
  lemma {:induction false} FindOptionIsFirst(opts: seq<AnswerOption>, answerId: int, j: nat)
    requires j <= |opts|
    ensures FindOptionFrom(opts, answerId, j).Some? ==>
      exists n :: j <= n < |opts| && FindOptionFrom(opts, answerId, j).value == opts[n] && opts[n].id == answerId &&
        forall m :: j <= m < n ==> opts[m].id != answerId
    ensures FindOptionFrom(opts, answerId, j).None? ==> forall m :: j <= m < |opts| ==> opts[m].id != answerId
    decreases |opts| - j
  {
    if j < |opts| && opts[j].id != answerId {
      FindOptionIsFirst(opts, answerId, j + 1);
    }
  }

  /** BandTextFrom is the text of the first band from `i` on that contains the total, and ""
      when no band from `i` on does. */
  lemma {:induction false} BandTextIsFirstMatch(bands: seq<ScoreResult>, total: int, i: nat, n: nat)
    requires i <= n <= |bands|
    requires forall m :: i <= m < n ==> !(bands[m].from <= total <= bands[m].to)
    ensures n < |bands| && bands[n].from <= total <= bands[n].to ==> BandTextFrom(bands, total, i) == bands[n].text
    ensures n == |bands| ==> BandTextFrom(bands, total, i) == ""
    decreases n - i
  {
    if i < n {
      BandTextIsFirstMatch(bands, total, i + 1, n);
    }
  }

  /** One recorded answer: out-of-range question ids and unknown option ids are errors;
      otherwise its points are those of the first option with the chosen id. */
  lemma AnswerScoreCases(qs: seq<Question>, ans: GameSessionAnswer)
    ensures (ans.questionId < 0 || ans.questionId >= |qs|) ==> AnswerScore(qs, ans) == Err(InvalidQuestionId)
    ensures 0 <= ans.questionId < |qs| ==>
      var opts := qs[ans.questionId].answerOptions;
      ((forall m :: 0 <= m < |opts| ==> opts[m].id != ans.answerId) ==> AnswerScore(qs, ans) == Err(AnswerOptionNotFound)) &&
      (forall n :: FirstWithId(opts, ans.answerId, n) ==> AnswerScore(qs, ans) == Ok(OptionScore(opts[n])))
  {
    if 0 <= ans.questionId < |qs| {
      FindOptionIsFirst(qs[ans.questionId].answerOptions, ans.answerId, 0);
    }
  }

  /** `n` is the position of the first option with id `answerId`. */
  predicate FirstWithId(opts: seq<AnswerOption>, answerId: int, n: int) {
    0 <= n < |opts| && opts[n].id == answerId && forall m :: 0 <= m < n ==> opts[m].id != answerId
  }

  /** Points of a recorded answer that can be scored (0 for one that cannot). */
  function Points(qs: seq<Question>, a: GameSessionAnswer): int {
    match AnswerScore(qs, a)
    case Ok(s) => s
    case Err(_) => 0
  }

  /** The exact sum of the points of the answers, without int64 limits. */
  function ScoreSum(qs: seq<Question>, answers: seq<GameSessionAnswer>): int
    decreases |answers|
  {
    if answers == [] then 0 else Points(qs, answers[0]) + ScoreSum(qs, answers[1..])
  }

  lemma {:induction false} ScoreSumSnoc(qs: seq<Question>, answers: seq<GameSessionAnswer>)
    requires answers != []
    ensures ScoreSum(qs, answers) == ScoreSum(qs, answers[..|answers| - 1]) + Points(qs, answers[|answers| - 1])
    decreases |answers|
  {
    if |answers| > 1 {
      ScoreSumSnoc(qs, answers[1..]);
      assert answers[1..][..|answers| - 2] == answers[..|answers| - 1][1..];
    }
  }

  /** When every answer can be scored, the resolver's total is the exact sum of points
      reduced to int64, and equals it whenever the sum fits in an int64. */
  lemma {:induction false} TotalScoreIsWrappedSum(qs: seq<Question>, answers: seq<GameSessionAnswer>)
    requires forall k :: 0 <= k < |answers| ==> AnswerScore(qs, answers[k]).Ok?
    ensures TotalScore(qs, answers) == Ok(Wrap64(ScoreSum(qs, answers)))
    decreases |answers|
  {
    if answers != [] {
      var init := answers[..|answers| - 1];
      assert forall k :: 0 <= k < |init| ==> init[k] == answers[k];
      TotalScoreIsWrappedSum(qs, init);
      ScoreSumSnoc(qs, answers);
      Wrap64Add(ScoreSum(qs, init), Points(qs, answers[|answers| - 1]));
    }
  }

  /** The recorded verdicts never matter to the resolver: two sessions with the same
      (question, option) choices in the same order resolve to the same state. */
  lemma ResolveIgnoresVerdicts(game: Game, s1: GameSession, s2: GameSession)
    requires |s1.answers| == |s2.answers|
    requires forall k :: 0 <= k < |s1.answers| ==>
      s1.answers[k].questionId == s2.answers[k].questionId && s1.answers[k].answerId == s2.answers[k].answerId
    ensures Resolve(game, s1) == Resolve(game, s2)
  {
    assert AnsweredIds(s1.answers) == AnsweredIds(s2.answers) by {
      forall x | x in AnsweredIds(s1.answers) ensures x in AnsweredIds(s2.answers) {
        var a :| a in s1.answers && a.questionId == x;
        var k :| 0 <= k < |s1.answers| && s1.answers[k] == a;
        assert s2.answers[k].questionId == x;
      }
      forall x | x in AnsweredIds(s2.answers) ensures x in AnsweredIds(s1.answers) {
        var a :| a in s2.answers && a.questionId == x;
        var k :| 0 <= k < |s2.answers| && s2.answers[k] == a;
        assert s1.answers[k].questionId == x;
      }
    }
    TotalScoreIgnoresVerdicts(game.questions, s1.answers, s2.answers);
  }

  lemma {:induction false} TotalScoreIgnoresVerdicts(qs: seq<Question>, a1: seq<GameSessionAnswer>, a2: seq<GameSessionAnswer>)
    requires |a1| == |a2|
    requires forall k :: 0 <= k < |a1| ==> a1[k].questionId == a2[k].questionId && a1[k].answerId == a2[k].answerId
    ensures TotalScore(qs, a1) == TotalScore(qs, a2)
    decreases |a1|
  {
    if a1 != [] {
      var n := |a1| - 1;
      assert forall k :: 0 <= k < n ==> a1[..n][k] == a1[k] && a2[..n][k] == a2[k];
      TotalScoreIgnoresVerdicts(qs, a1[..n], a2[..n]);
      assert AnswerScore(qs, a1[n]) == AnswerScore(qs, a2[n]);
    }
  }

  /** On success exactly one of the next question and the final result is set, and the
      progress counts every recorded answer against the number of questions. */
  lemma ResolveShape(game: Game, session: GameSession)
    ensures Resolve(game, session).Ok? ==>
      (Resolve(game, session).value.question.Some? <==> Resolve(game, session).value.result.None?) &&
      Resolve(game, session).value.progress == Progress(|session.answers|, |game.questions|) &&
      Resolve(game, session).value.gameInfo == ZeroGameInfo
  {
  }

  /** While some question is unanswered, the state is the first unanswered question in game
      order, no result, and the progress counts every recorded answer (duplicates included)
      against the number of questions. */
  lemma ResolveNextQuestion(game: Game, session: GameSession, i: nat)
    requires i < |game.questions|
    requires game.questions[i].id !in AnsweredIds(session.answers)
    requires forall j :: 0 <= j < i ==> game.questions[j].id in AnsweredIds(session.answers)
    ensures Resolve(game, session) ==
      Ok(State(Some(game.questions[i]), None, Progress(|session.answers|, |game.questions|), ZeroGameInfo))
  {
    FirstUnansweredIsFirst(game.questions, AnsweredIds(session.answers), 0);
  }

  /** Once every question is answered, the resolver never returns a question: it returns a
      result or one of the three data errors. */
  lemma ResolveAllAnswered(game: Game, session: GameSession)
    requires forall j :: 0 <= j < |game.questions| ==> game.questions[j].id in AnsweredIds(session.answers)
    ensures Resolve(game, session).Ok? ==>
      Resolve(game, session).value.question.None? && Resolve(game, session).value.result.Some? &&
      Resolve(game, session).value.progress == Progress(|session.answers|, |game.questions|)
    ensures Resolve(game, session).Err? ==>
      Resolve(game, session).error in {InvalidQuestionId, AnswerOptionNotFound, NoResultFound}
  {
    FirstUnansweredIsFirst(game.questions, AnsweredIds(session.answers), 0);
    TotalScoreErrors(game.questions, session.answers);
  }

  lemma {:induction false} TotalScoreErrors(qs: seq<Question>, answers: seq<GameSessionAnswer>)
    ensures TotalScore(qs, answers).Err? ==> TotalScore(qs, answers).error in {InvalidQuestionId, AnswerOptionNotFound}
    decreases |answers|
  {
    if answers != [] {
      TotalScoreErrors(qs, answers[..|answers| - 1]);
    }
  }

  /** With every question answered and every answer scorable, the total is the exact sum of
      the chosen options' points (a missing score counting 1), reduced to int64. */
  lemma ResolveTotal(game: Game, session: GameSession)
    requires forall j :: 0 <= j < |game.questions| ==> game.questions[j].id in AnsweredIds(session.answers)
    requires forall k :: 0 <= k < |session.answers| ==> AnswerScore(game.questions, session.answers[k]).Ok?
    ensures Resolve(game, session).Ok? ==>
      Resolve(game, session).value.result.Some? &&
      Resolve(game, session).value.result.value.totalScore == Wrap64(ScoreSum(game.questions, session.answers))
    ensures MinInt64 <= ScoreSum(game.questions, session.answers) <= MaxInt64 && Resolve(game, session).Ok? ==>
      Resolve(game, session).value.result.Some? &&
      Resolve(game, session).value.result.value.totalScore == ScoreSum(game.questions, session.answers)
  {
    FirstUnansweredIsFirst(game.questions, AnsweredIds(session.answers), 0);
    TotalScoreIsWrappedSum(game.questions, session.answers);
  }

  /** With every question answered, the first recorded answer that cannot be scored decides
      the error: an out-of-range question id or an option id its question does not have. */
  lemma ResolveFirstBadAnswer(game: Game, session: GameSession, k: nat)
    requires forall j :: 0 <= j < |game.questions| ==> game.questions[j].id in AnsweredIds(session.answers)
    requires k < |session.answers|
    requires forall m :: 0 <= m < k ==> AnswerScore(game.questions, session.answers[m]).Ok?
    requires AnswerScore(game.questions, session.answers[k]).Err?
    ensures Resolve(game, session) == Err(AnswerScore(game.questions, session.answers[k]).error)
  {
    var qs, answers := game.questions, session.answers;
    FirstUnansweredIsFirst(qs, AnsweredIds(answers), 0);
    var prefix := answers[..k];
    assert forall m :: 0 <= m < k ==> prefix[m] == answers[m];
    TotalScoreIsWrappedSum(qs, prefix);
    assert answers[..k + 1][..k] == prefix;
    TotalScoreErrPersists(qs, answers, k + 1);
  }

  /** With every question answered and the total computed, the result text is that of the
      first band (in band order) whose inclusive range contains the total; an empty text there,
      or no such band, is the "no result" error. */
  lemma ResolveBand(game: Game, session: GameSession, n: nat)
    requires forall j :: 0 <= j < |game.questions| ==> game.questions[j].id in AnsweredIds(session.answers)
    requires TotalScore(game.questions, session.answers).Ok?
    requires n <= |game.scoreResults|
    requires forall m :: 0 <= m < n ==>
      !(game.scoreResults[m].from <= TotalScore(game.questions, session.answers).value <= game.scoreResults[m].to)
    requires n < |game.scoreResults| ==>
      game.scoreResults[n].from <= TotalScore(game.questions, session.answers).value <= game.scoreResults[n].to
    ensures var total := TotalScore(game.questions, session.answers).value;
      var progress := Progress(|session.answers|, |game.questions|);
      Resolve(game, session) ==
        if n == |game.scoreResults| || game.scoreResults[n].text == "" then Err(NoResultFound)
        else Ok(State(None, Some(FinalResult(total, game.scoreResults[n].text)), progress, ZeroGameInfo))
  {
    FirstUnansweredIsFirst(game.questions, AnsweredIds(session.answers), 0);
    BandTextIsFirstMatch(game.scoreResults, TotalScore(game.questions, session.answers).value, 0, n);
  }

  /** Distinct recorded questions are as many as the recorded answers. */
  lemma {:induction false} AnsweredIdsCount(answers: seq<GameSessionAnswer>)
    requires DistinctQuestions(answers)
    ensures |AnsweredIds(answers)| == |answers|
    decreases |answers|
  {
    if answers != [] {
      var init, last := answers[..|answers| - 1], answers[|answers| - 1];
      assert answers == init + [last];
      assert DistinctQuestions(init);
      AnsweredIdsCount(init);
      assert AnsweredIds(answers) == AnsweredIds(init) + {last.questionId};
      assert last.questionId !in AnsweredIds(init) by {
        forall a | a in init ensures a.questionId != last.questionId {
          var k :| 0 <= k < |init| && init[k] == a;
          assert answers[k] == a;
        }
      }
    }
  }

  /** The positions 0 .. n-1 of a sequence of length n. */
  function Positions(n: nat): (r: set<int>)
    ensures forall i :: i in r <==> 0 <= i < n
    ensures |r| == n
  {
    if n == 0 then {} else Positions(n - 1) + {n - 1}
  }

  /** A game is complete once each of its questions has exactly one recorded answer: with
      questions indexed by position, answers naming distinct valid questions and as many
      answers as questions, no question is left and the resolver returns a result (or a
      data error), never a question. */
  lemma AnsweredOncePerQuestionCompletes(game: Game, session: GameSession)
    requires WellIndexed(game.questions)
    requires DistinctQuestions(session.answers)
    requires forall k :: 0 <= k < |session.answers| ==> 0 <= session.answers[k].questionId < |game.questions|
    requires |session.answers| == |game.questions|
    ensures forall j :: 0 <= j < |game.questions| ==> game.questions[j].id in AnsweredIds(session.answers)
    ensures Resolve(game, session).Ok? ==>
      Resolve(game, session).value.question.None? && Resolve(game, session).value.result.Some?
  {
    var ids := AnsweredIds(session.answers);
    var positions := Positions(|game.questions|);
    assert ids <= positions by {
      forall x | x in ids ensures x in positions {
        var a :| a in session.answers && a.questionId == x;
        var k :| 0 <= k < |session.answers| && session.answers[k] == a;
      }
    }
    AnsweredIdsCount(session.answers);
    if ids != positions {
      var x :| x in positions && x !in ids;
      SubsetCard(ids, positions - {x});
      assert false;
    }
    assert forall j :: 0 <= j < |game.questions| ==> j in positions;
    ResolveAllAnswered(game, session);
  }
}
