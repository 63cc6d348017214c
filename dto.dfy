/** The wire projection of a state (api/v1/game/dto.go, toStateResponse): what a client is
    shown of the next question or the result. Options travel with their id and text only. */
module StateDto {
  import opened Wrappers
  import opened GameModel

  datatype AnswerOptionDto = AnswerOptionDto(id: int, answer: string)

  datatype QuestionDto = QuestionDto(id: int, text: string, imageId: Option<string>, answerOptions: seq<AnswerOptionDto>)

  datatype ResultDto = ResultDto(totalScore: int, resultText: string)

  datatype ProgressDto = ProgressDto(answered: int, total: int)

  datatype GameInfoDto = GameInfoDto(id: Uuid, title: string)

  datatype StateResponse = StateResponse(
    question: Option<QuestionDto>,
    result: Option<ResultDto>,
    progress: ProgressDto,
    gameInfo: GameInfoDto)

  /** What a state shows of one option. */
  function OptionView(o: AnswerOption): AnswerOptionDto {
    AnswerOptionDto(o.id, o.answer)
  }

  /** What a state shows of its options, in order. */
  function OptionViews(opts: seq<AnswerOption>): (views: seq<AnswerOptionDto>)
    ensures |views| == |opts|
    decreases |opts|
  {
    if opts == [] then [] else OptionViews(opts[..|opts| - 1]) + [OptionView(opts[|opts| - 1])]
  }

  /** The response for a state: the fields the client sees, copied. */
  function Project(state: State): (resp: StateResponse) {
    StateResponse(
      if state.question.None? then None
      else
        var q := state.question.value;
        Some(QuestionDto(q.id, q.text, q.imageId, OptionViews(q.answerOptions))),
      if state.result.None? then None
      else Some(ResultDto(state.result.value.totalScore, state.result.value.resultText)),
      ProgressDto(state.progress.answered, state.progress.total),
      GameInfoDto(state.gameInfo.id, state.gameInfo.title))
  }

  /** toStateResponse: progress and game info are copied; a question is present exactly when
      the state has one, with its id, text and image and, index by index, each option's id
      and text; a result is present exactly when the state has one, copied. */
  method ToStateResponse(state: State) returns (resp: StateResponse)
    ensures resp.progress == ProgressDto(state.progress.answered, state.progress.total)
    ensures resp.gameInfo == GameInfoDto(state.gameInfo.id, state.gameInfo.title)
    ensures resp.question.Some? <==> state.question.Some?
    ensures state.question.Some? ==>
      var q := state.question.value;
      var dto := resp.question.value;
      dto.id == q.id && dto.text == q.text && dto.imageId == q.imageId &&
      |dto.answerOptions| == |q.answerOptions| &&
      forall i :: 0 <= i < |q.answerOptions| ==>
        dto.answerOptions[i].id == q.answerOptions[i].id && dto.answerOptions[i].answer == q.answerOptions[i].answer
    ensures resp.result.Some? <==> state.result.Some?
    ensures state.result.Some? ==>
      resp.result.value == ResultDto(state.result.value.totalScore, state.result.value.resultText)
    ensures resp == Project(state)
  {
    resp := StateResponse(
      None,
      None,
      ProgressDto(state.progress.answered, state.progress.total),
      GameInfoDto(state.gameInfo.id, state.gameInfo.title));

    if state.question.Some? {
      var q := state.question.value;
      var options := new AnswerOptionDto[|q.answerOptions|];
      for i := 0 to |q.answerOptions|
        invariant options[..i] == OptionViews(q.answerOptions[..i])
      {
        var opt := q.answerOptions[i];
        assert q.answerOptions[..i + 1][..i] == q.answerOptions[..i];
        options[i] := AnswerOptionDto(opt.id, opt.answer);
        assert options[..i + 1] == options[..i] + [options[i]];
      }
      assert q.answerOptions[..|q.answerOptions|] == q.answerOptions;
      assert options[..] == options[..|q.answerOptions|];
      OptionViewsMeaning(q.answerOptions);
      resp := resp.(question := Some(QuestionDto(q.id, q.text, q.imageId, options[..])));
    }

    if state.result.Some? {
      resp := resp.(result := Some(ResultDto(state.result.value.totalScore, state.result.value.resultText)));
    }
  }

  /** Two states that differ only in what is not shown (the options' correctness flags and
      scores, the question's explanation) project to the same response. */
  lemma ProjectionHidesAnswers(s1: State, s2: State)
    requires s1.result == s2.result && s1.progress == s2.progress && s1.gameInfo == s2.gameInfo
    requires s1.question.Some? <==> s2.question.Some?
    requires s1.question.Some? ==>
      var q1, q2 := s1.question.value, s2.question.value;
      q1.id == q2.id && q1.text == q2.text && q1.imageId == q2.imageId &&
      |q1.answerOptions| == |q2.answerOptions| &&
      forall i :: 0 <= i < |q1.answerOptions| ==>
        q1.answerOptions[i].id == q2.answerOptions[i].id && q1.answerOptions[i].answer == q2.answerOptions[i].answer
    ensures Project(s1) == Project(s2)
  {
    if s1.question.Some? {
      var o1, o2 := s1.question.value.answerOptions, s2.question.value.answerOptions;
      OptionViewsMeaning(o1);
      OptionViewsMeaning(o2);
      assert OptionViews(o1) == OptionViews(o2) by {
        forall i | 0 <= i < |o1| ensures OptionViews(o1)[i] == OptionViews(o2)[i] {
        }
      }
    }
  }

  /** The i-th view shows the i-th option's id and text. */
  lemma {:induction false} OptionViewsMeaning(opts: seq<AnswerOption>)
    ensures forall i :: 0 <= i < |opts| ==> OptionViews(opts)[i] == AnswerOptionDto(opts[i].id, opts[i].answer)
    decreases |opts|
  {
    if opts != [] {
      var init := opts[..|opts| - 1];
      OptionViewsMeaning(init);
      assert forall i :: 0 <= i < |init| ==> init[i] == opts[i];
    }
  }
}
