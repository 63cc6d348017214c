/** The acceptor for `classic` games (internal/usecase/game/acceptor/classic.go): a single
    submitted option id is correct when it is the id of an option flagged correct. */
module ClassicAcceptor {
  import opened Wrappers
  import opened Contracts
  import opened GameModel

  /** Ids of the question's correct options. */
  function CorrectIds(q: Question): set<int> {
    set o | o in CorrectOptions(q.answerOptions) :: o.id
  }

  /** The verdict the classic acceptor gives; the explanation is the question's own. */
  function ClassicVerdict(q: Question, answers: seq<int>): Result<AcceptAnswersOut, Error>
    requires |answers| >= 1
  {
    if |answers| > 1 then Err(MultipleAnswers)
    else Ok(AcceptAnswersOut(answers[0] in CorrectIds(q), q.explanation))
  }

  /** ClassicAcceptor.Accept. The source indexes `answers[0]` after rejecting more than one
      answer, so an empty list would panic: callers always pass exactly one id. */
  method Accept(q: Question, answers: seq<int>) returns (r: Result<AcceptAnswersOut, Error>)
    requires |answers| >= 1
    ensures r.Err? <==> |answers| > 1
    ensures r.Err? ==> r.error == MultipleAnswers
    ensures r == ClassicVerdict(q, answers)
  {
    if |answers| > 1 {
      return Err(MultipleAnswers);
    }
    var correctAnswers := GetCorrectAnswers(q);
    var correctAnswersMap: set<int> := {};
    for i := 0 to |correctAnswers|
      invariant correctAnswersMap == set k | 0 <= k < i :: correctAnswers[k].id
    {
      correctAnswersMap := correctAnswersMap + {correctAnswers[i].id};
    }
    assert forall o :: o in correctAnswers <==> exists k :: 0 <= k < |correctAnswers| && correctAnswers[k] == o;
    var ok := answers[0] in correctAnswersMap;
    return Ok(AcceptAnswersOut(ok, q.explanation));
  }

  /** A single answer is judged correct exactly when some option with that id is flagged
      correct; the explanation is always the question's. */
  lemma ClassicVerdictMeaning(q: Question, answer: int)
    ensures ClassicVerdict(q, [answer]).Ok?
    ensures ClassicVerdict(q, [answer]).value.explanation == q.explanation
    ensures ClassicVerdict(q, [answer]).value.isCorrect <==>
      exists j :: 0 <= j < |q.answerOptions| && q.answerOptions[j].id == answer && q.answerOptions[j].isCorrect
  {
    var opts := q.answerOptions;
    CorrectOptionsSound(opts);
    CorrectOptionsComplete(opts);
    if answer in CorrectIds(q) {
      var o :| o in CorrectOptions(opts) && o.id == answer;
      var k :| 0 <= k < |CorrectOptions(opts)| && CorrectOptions(opts)[k] == o;
      var j :| 0 <= j < |opts| && opts[j] == o;
      assert opts[j].id == answer && opts[j].isCorrect;
    }
    if exists j :: 0 <= j < |opts| && opts[j].id == answer && opts[j].isCorrect {
      var j :| 0 <= j < |opts| && opts[j].id == answer && opts[j].isCorrect;
      assert opts[j] in CorrectOptions(opts);
    }
  }

  /** An id that names no option of the question is judged incorrect, not rejected. */
  lemma UnknownOptionIsIncorrect(q: Question, answer: int)
    requires forall j :: 0 <= j < |q.answerOptions| ==> q.answerOptions[j].id != answer
    ensures ClassicVerdict(q, [answer]) == Ok(AcceptAnswersOut(false, q.explanation))
  {
    ClassicVerdictMeaning(q, answer);
  }
}
