# easy-quizy game engine in Dafny

This project models the core of easy-quizy, a quiz service. Players answer the questions of a stored game one at a time. Each answer is judged and recorded in the player's session. Once every question is answered, the total score selects a result band. Around that engine the model also covers:

- the conversion of stored game payloads and session rows into the domain types;
- the projection of a state onto the wire response;
- the get-or-create of users and chat links;
- the web client's result lookup and its toast notification store.

Modules, one per source file, plus a few shared helpers:

| module | file | models |
|---|---|---|
| `GameModel` | model.dfy | `internal/model/game.go`: the domain types and `Question.GetCorrectAnswers` |
| `Contracts` | contracts.dfy | the use-case inputs and outputs, and every error value the core returns |
| `ClassicAcceptor` | classic_acceptor.dfy | `internal/usecase/game/acceptor/classic.go` |
| `CurrentState` | current_state.dfy | the state resolver of `internal/usecase/game/get_current_state.go` |
| `AcceptAnswer` | accept_answer.dfy | the submission decision of `internal/usecase/game/accept_answer.go` and the acceptor registry of `usecase.go` |
| `Converter` | converter.dfy | `internal/repositories/game/converter.go` |
| `GameUsecase` | game_usecase.dfy | the game use case over its storage: `Get`, `GetCurrentState`, `AcceptAnswer`, `Reset` |
| `StateDto` | dto.dfy | `toStateResponse` of `api/v1/game/dto.go` |
| `UserUsecase` | user_usecase.dfy | `RetrieveUser` of `internal/usecase/user/usecase.go` |
| `QuizUtils` | quiz_utils.dfy | `getResultText` and `getDefaultScore` of `web/src/lib/utils/quiz.ts` |
| `ToastStore` | toast_store.dfy | `web/src/lib/toast/toastStore.ts` |
| `Scenarios` | scenarios.dfy | the demo quiz of `web/src/lib/data/quiz.ts`, converted and played through |
| `Wrappers`, `Sequences`, `Strings`, `Int64` | helpers | Option/Result, subsequences, `strings.Split` and decimal digits, int64 wrap-around |

How the source maps to Dafny:

- Loops of the source are `method`s with loop invariants. Each is proved equal to a specification function, for example `ResolveState` to `Resolve` and `Decide` to `Submit`. Lemmas state the source's promises about those functions.
- The storage behind the game use case is the class `GameUsecase.Usecase`. It holds the game rows by id and the session rows by (game, player).
  - Each transaction body is one method that runs as a single atomic step.
  - The class invariant `Valid` says that a session holds at most one answer per question, and only answers to questions of its game.
- `UserUsecase.Usecase` holds the user-source and user-chat tables.
- `ToastStore.Store` holds the toast list and the set of ids with a pending timer.
- Values the source draws from outside are parameters: `uuid.New()`, `crypto.randomUUID()` and `Date.now()`.
- Go's map iteration order is unspecified. Where the source ranges over a map, the model picks the next key nondeterministically (`:|`), and a ghost out-parameter `order` records the order taken.

In two places the code does less than its own naming and messages suggest, and in two it does not compile as written. The model follows what the code does:

- **Scoring.** A quiz that records whether each answer is correct would be expected to score only correct answers. The resolver adds the chosen option's score, or 1 when the option has none, whatever the correctness flag says (`CurrentState.ResolveIgnoresVerdicts`, `Scenarios.WrongAnswersStillScore`).
- **Unknown options.** An option id the question does not have would be expected to be rejected on submission; the repository even has an "answer option not found" error. The classic acceptor judges it incorrect, and the answer is recorded. The "answer option not found" error appears only when the finished game is scored (`Scenarios.UnknownOptionFailsAtResolution`).
- **Game info.** `GetCurrentState` never fills in the state's game info. It assigns a `GameID` field that the `State` type does not have, so the model returns the zero game info.
- **Score type.** `Result.TotalScore` is assigned a pointer in the resolver but is an `int64` in the type. The model follows the type.

## Model

| member | source | states |
|---|---|---|
| `Int64.Wrap64` | internal/usecase/game/get_current_state.go:58-71 | int64 addition: the result is in the int64 range, congruent to the exact value modulo 2^64, and equal to it when it fits |
| `GameModel.GetCorrectAnswers` | internal/model/game.go:78-90 | the loop returns exactly the options flagged correct, in their original order (`CorrectOptions`) |
| `GameModel.CorrectOptionsSound` | internal/model/game.go:80-86 | every selected option is flagged correct and is one of the question's options |
| `GameModel.CorrectOptionsComplete` | internal/model/game.go:80-87 | every option flagged correct is selected |
| `GameModel.CorrectOptionsOrdered` | internal/model/game.go:78-90 | the selection is a subsequence of the options: relative order is kept |
| `GameModel.CorrectOptionsSize` | internal/model/game.go:79-89 | at most as many selected as offered; none selected exactly when no option is correct |
| `ClassicAcceptor.Accept` | internal/usecase/game/acceptor/classic.go:15-31 | fails exactly when more than one answer is given, with the multiple-answers error; otherwise the verdict is membership of the one id in the correct-id set built in the loop, with the question's explanation |
| `ClassicAcceptor.ClassicVerdictMeaning` | internal/usecase/game/acceptor/classic.go:20-30 | for one answer: success, the question's explanation, and "correct" if and only if some option with that id is flagged correct |
| `ClassicAcceptor.UnknownOptionIsIncorrect` | internal/usecase/game/acceptor/classic.go:26-30 | an id no option has is judged incorrect, not rejected |
| `CurrentState.BuildAnsweredMap` | internal/usecase/game/get_current_state.go:27-30 | the map's keys are exactly the question ids the session has answers for |
| `CurrentState.FindNextQuestion` | internal/usecase/game/get_current_state.go:41-55 | for well-indexed questions, the scan returns the first question in game order whose id is not answered, or none when all are |
| `CurrentState.SumScores` | internal/usecase/game/get_current_state.go:58-79 | the scoring loop computes `TotalScore`: the int64 running total, or the first bad answer's error |
| `CurrentState.FindResultText` | internal/usecase/game/get_current_state.go:82-88 | the text of the first band containing the total, "" when none does |
| `CurrentState.ResolveState` | internal/usecase/game/get_current_state.go:26-97 | the resolver's body computes `Resolve(game, session)`: a deterministic function of the game and the session |
| `CurrentState.TotalScoreErrPersists` | internal/usecase/game/get_current_state.go:59-79 | the first answer that cannot be scored ends the scoring loop with its error |
| `CurrentState.FirstUnansweredIsFirst` | internal/usecase/game/get_current_state.go:41-51 | the question found is unanswered and every earlier one is answered; none is found only when every question is answered |
| `CurrentState.FindOptionIsFirst` | internal/usecase/game/get_current_state.go:65-75 | the option found is the first with the chosen id; none only when no option has it |
| `CurrentState.BandTextIsFirstMatch` | internal/usecase/game/get_current_state.go:83-88 | the text is that of the first band (in band order) whose inclusive range contains the total |
| `CurrentState.AnswerScoreCases` | internal/usecase/game/get_current_state.go:60-78 | a question id outside the questions is "invalid question id"; an option id its question lacks is "answer option not found"; otherwise the first matching option's score, 1 when unset |
| `CurrentState.TotalScoreIsWrappedSum` | internal/usecase/game/get_current_state.go:58-79 | when every answer can be scored, the total is the exact sum of the points reduced to int64 |
| `CurrentState.ResolveIgnoresVerdicts` | internal/usecase/game/get_current_state.go:64-72 | the recorded correctness flags never affect the outcome |
| `CurrentState.ResolveShape` | internal/usecase/game/get_current_state.go:32-55 | on success exactly one of next question and result is set; progress is (number of recorded answers, number of questions), duplicates counted |
| `CurrentState.ResolveNextQuestion` | internal/usecase/game/get_current_state.go:41-55 | with an unanswered question, the state is the first unanswered question in game order, no result, and the progress |
| `CurrentState.ResolveAllAnswered` | internal/usecase/game/get_current_state.go:57-97 | with every question answered, success means a result and no question; failure is one of the three data errors |
| `CurrentState.ResolveTotal` | internal/usecase/game/get_current_state.go:58-95 | the total reported is the int64-reduced sum of the chosen options' points, and the exact sum whenever it fits in an int64 |
| `CurrentState.ResolveFirstBadAnswer` | internal/usecase/game/get_current_state.go:59-78 | with every question answered, the first answer that cannot be scored decides the error |
| `CurrentState.ResolveBand` | internal/usecase/game/get_current_state.go:81-95 | the result text is that of the first band containing the total; no such band, or an empty text, is "no result found" |
| `CurrentState.AnsweredIdsCount` | internal/usecase/game/get_current_state.go:27-30 | with at most one answer per question, the answered map has one key per recorded answer |
| `CurrentState.AnsweredOncePerQuestionCompletes` | internal/usecase/game/get_current_state.go:32-55 | once each question of a well-indexed game has exactly one answer, every question counts as answered and the resolver returns a result, never a question |
| `Converter.ParseInt64` | internal/repositories/game/converter.go:40-41 | a parsed bound lies in the int64 range |
| `Converter.ParseInt64FormatInt` | internal/repositories/game/converter.go:40-41 | every int64 is parsed back from its decimal spelling |
| `Converter.ParseRangeFormat` | internal/repositories/game/converter.go:36-49 | every key "from-to" with non-negative int64 bounds parses to that band; `from <= to` is not required |
| `Converter.NegativeBoundRejected` | internal/repositories/game/converter.go:36-39 | a key written with a negative bound splits into more than two pieces and is rejected |
| `Converter.ManyPiecesRejected` | internal/repositories/game/converter.go:36-39 | a key that does not split into exactly two pieces is rejected |
| `Converter.BandAt` | internal/repositories/game/converter.go:45-49 | the band at position i is the i-th key visited, parsed, with that key's text |
| `Converter.BandsInOrderMeaning` | internal/repositories/game/converter.go:45-49 | the i-th band is the i-th key visited, parsed, with that key's text |
| `Converter.ParseScoreResults` | internal/repositories/game/converter.go:33-52 | fails exactly when some key is invalid, naming an invalid key; otherwise visits each key once and returns one band per key, in the order visited |
| `Converter.OptionsOfMeaning` | internal/repositories/game/converter.go:62-69 | one option per raw option: id = position, text, flag and score copied |
| `Converter.QuestionsOfMeaning` | internal/repositories/game/converter.go:60-77 | one question per raw question: id = position (so the game is well indexed), fields copied, options converted |
| `Converter.ConvertOptions` | internal/repositories/game/converter.go:61-69 | the inner loop builds `OptionsOf` of the raw options |
| `Converter.RawToGame` | internal/repositories/game/converter.go:54-84 | a score-range error aborts before any question is built; otherwise the bands, and the questions numbered by position |
| `Converter.ConvertToGame` | internal/repositories/game/converter.go:86-99 | an undecodable payload or a bad key fails; otherwise the payload's game with the row's id and type column (the payload's own type is unused) |
| `Converter.AnswersOf` | internal/repositories/game/converter.go:112-118 | one answer per row, same length and order, with question, option and verdict copied |
| `Converter.ConvertToSession` | internal/repositories/game/converter.go:101-121 | no rows gives the zero session; otherwise game and player of row 0 and every row's answer |
| `AcceptAnswer.FindQuestion` | internal/usecase/game/accept_answer.go:24-33 | the loop finds the first question with the id (`FindQuestionFrom`) |
| `AcceptAnswer.FindRecorded` | internal/usecase/game/accept_answer.go:42-52 | the loop finds the first recorded answer for the question (`FindRecordedFrom`) |
| `AcceptAnswer.Decide` | internal/usecase/game/accept_answer.go:19-75 | the decision once game and session are loaded computes `Submit`, with the checks in the source's order |
| `AcceptAnswer.FindQuestionIsFirst` | internal/usecase/game/accept_answer.go:24-33 | none only when no question has the id; otherwise the first question that has it |
| `AcceptAnswer.FindRecordedIsFirst` | internal/usecase/game/accept_answer.go:42-52 | none only when no recorded answer is for the question; a found answer is for it |
| `AcceptAnswer.FindQuestionWellIndexed` | internal/usecase/game/accept_answer.go:24-33 | in a well-indexed game the question with id i is the one at position i, and ids outside the positions are not found |
| `AcceptAnswer.SubmitUnknownQuestion` | internal/usecase/game/accept_answer.go:19-33 | a game without questions, or a question id the game lacks, is "question not found" and nothing is recorded |
| `AcceptAnswer.SubmitAlreadyAnswered` | internal/usecase/game/accept_answer.go:42-52 | an answered question returns the stored verdict with the question's explanation and records nothing, whatever option is submitted |
| `AcceptAnswer.SubmitUnsupportedType` | internal/usecase/game/usecase.go:31-33 | only classic games have an acceptor: a new answer in any other game type (daily included) is "game type is not supported", nothing recorded |
| `AcceptAnswer.SubmitRecordsVerdict` | internal/usecase/game/accept_answer.go:54-75 | a first answer in a classic game succeeds with the question's explanation, is correct iff a correct option has the id, and records (question, option, verdict) |
| `AcceptAnswer.SubmitRecordIsNew` | internal/usecase/game/accept_answer.go:66-75 | what is recorded is the submitted question and option with the returned verdict, for a question not answered before |
| `AcceptAnswer.SubmitKeepsDistinct` | internal/usecase/game/accept_answer.go:42-75 | recording keeps at most one answer per question in a session |
| `AcceptAnswer.SubmitIdempotent` | internal/usecase/game/accept_answer.go:42-75 | after a recorded submission, submitting for the same question again returns the same reply and records nothing |
| `GameUsecase.RecordKeepsRowsValid` | internal/usecase/game/accept_answer.go:66-75 | appending the recorded row keeps the session's rows valid |
| `GameUsecase.RecordKeepsSessionsValid` | internal/usecase/game/accept_answer.go:66-75 | appending the recorded row to one session keeps every session of the table valid |
| `GameUsecase.Usecase.Get` | internal/usecase/game/get.go:11-22 | no row is "game not found"; a row that does not convert returns its conversion error ("malformed payload", or "invalid score range" naming an invalid key of the payload); otherwise the converted game for the requested id, with bands for every key of the payload in one iteration order |
| `GameUsecase.Usecase.GetGameSession` | internal/repositories/game/game.go:121-144 | the session converted from the stored rows of (game, player) |
| `GameUsecase.Usecase.InsertGameSessionAnswer` | internal/repositories/game/game.go:85-103 | one row appended to the (game, player) session, nothing else changed |
| `GameUsecase.Usecase.GetCurrentState` | internal/usecase/game/get_current_state.go:11-99 | "game not found" and the conversion errors pass through; otherwise `Resolve` of the stored game (bands for every payload key, in one iteration order) and the stored session; once answered equals total the state is a result, never a question |
| `GameUsecase.Usecase.AcceptAnswer` | internal/usecase/game/accept_answer.go:10-77 | "game not found" and the conversion errors pass through and change nothing; otherwise the reply is `Submit`'s on the stored game (bands for every payload key), its record (if any) is appended to exactly that session, the session grows by at most one row, and the store stays valid |
| `GameUsecase.Usecase.Reset` | internal/usecase/game/reset.go:10-22 | a `Get` error ("game not found" or a conversion error) is returned and nothing changes; a daily game is left alone; otherwise exactly the (game, player) session is removed, other sessions untouched |
| `GameUsecase.Usecase.DeleteGameSessionAnswers` | internal/repositories/game/game.go:105-119 | removes exactly the (game, player) session |
| `GameUsecase.ResetRestartsGame` | internal/usecase/game/reset.go:21 | after a reset, a game with questions resolves to its first question with nothing answered |
| `GameUsecase.ScanAsWritten` | internal/repositories/game/game.go:122-130 | rows read back by the session query as written: same rows, verdict zeroed |
| `GameUsecase.RepeatedCorrectAnswerReadsIncorrect` | internal/repositories/game/game.go:122-130 | with the query as written, repeating a correct answer is reported incorrect (see Findings) |
| `StateDto.ToStateResponse` | api/v1/game/dto.go:57-92 | progress and game info copied; question present iff the state has one, with id, text, image and per-index option id and text; result present iff the state has one, copied |
| `StateDto.OptionViewsMeaning` | api/v1/game/dto.go:76-81 | the i-th wire option carries the i-th option's id and text |
| `StateDto.ProjectionHidesAnswers` | api/v1/game/dto.go:9-12 | states differing only in correctness flags, scores and explanation give the same response: none of them is exposed |
| `UserUsecase.Usecase.GetOrCreateUser` | internal/usecase/user/usecase.go:30-49 | the first transaction's closure computes `FirstTransaction`: the stored user, or the fresh one once its mapping is inserted, or the failing call's error with the table unchanged |
| `UserUsecase.Usecase.GetOrCreateChat` | internal/usecase/user/usecase.go:55-72 | the second transaction's closure computes `SecondTransaction`: the link is kept, or inserted when missing, or the failing call's error with the table unchanged |
| `UserUsecase.Usecase.RetrieveUser` | internal/usecase/user/usecase.go:28-83 | the two transactions compute `Retrieve`: tables and reply |
| `UserUsecase.RetrieveKnownUser` | internal/usecase/user/usecase.go:32-49 | a known (external id, source) adds no source row and, on success, returns the stored id |
| `UserUsecase.RetrieveNewUser` | internal/usecase/user/usecase.go:37-47 | an unknown one stores the mapping to the fresh id and, on success, returns that id |
| `UserUsecase.RetrieveErrorIsZeroUser` | internal/usecase/user/usecase.go:33-53 | every error comes with the zero user; a failing lookup changes nothing |
| `UserUsecase.RetrieveChatLink` | internal/usecase/user/usecase.go:55-72 | chat links change only when both chat id and type are given, and then only by adding the missing (user, chat) link |
| `UserUsecase.RetrieveChats` | internal/usecase/user/usecase.go:54-79 | the chat table after a call: the old one, unless both transactions succeed with a named chat whose link is missing, and then exactly that link is added for the returned user |
| `UserUsecase.RetrieveWithoutFailures` | internal/usecase/user/usecase.go:28-83 | with no failing call: no error, the stored or fresh id, its source mapping stored, and a named chat linked to it |
| `UserUsecase.RetrieveLinkedUser` | internal/usecase/user/usecase.go:28-83 | a known user whose named chat is already linked gets the stored id and nothing is stored |
| `UserUsecase.RetrieveIdempotent` | internal/usecase/user/usecase.go:28-83 | a second identical call after a successful one returns the same user and stores nothing new |
| `UserUsecase.ChatErrorKeepsNewUser` | internal/usecase/user/usecase.go:55-79 | a chat-step error returns the zero user while the new source mapping stays stored |
| `QuizUtils.GetResultText` | web/src/lib/utils/quiz.ts:3-16 | the text is "Unknown result" or the text of one of the entries |
| `QuizUtils.GetResultTextFirstMatch` | web/src/lib/utils/quiz.ts:4-13 | the text of the first entry, in iteration order, whose usable range contains the score |
| `QuizUtils.GetResultTextNoMatch` | web/src/lib/utils/quiz.ts:7-15 | with no usable range containing the score (unusable ones skipped), "Unknown result" |
| `QuizUtils.GetDefaultScore` | web/src/lib/utils/quiz.ts:41-43 | always 7 |
| `QuizUtils.JsNumberFormatInt` | web/src/lib/utils/quiz.ts:5 | `Number` reads back every integer from its decimal spelling |
| `QuizUtils.ExtraPiecesIgnored` | web/src/lib/utils/quiz.ts:5 | only the first two pieces count: "a-b-c" reads as "a-b" |
| `QuizUtils.LeadingDashReadsAsZero` | web/src/lib/utils/quiz.ts:5 | a key with a leading '-' reads "-f-t" as the range 0..f |
| `QuizUtils.AgreesWithServerParse` | web/src/lib/utils/quiz.ts:5-9 | for non-negative int64 bounds, the page and the server read the same range |
| `ToastStore.Store.constructor` | web/src/lib/toast/toastStore.ts:10-20 | no toasts and no timers |
| `ToastStore.Store.AddToast` | web/src/lib/toast/toastStore.ts:26-53 | the new toast (duration 5000 and dismissible true by default) goes in front of the others; a timer is registered iff duration > 0; returns the id |
| `ToastStore.Store.RemoveToast` | web/src/lib/toast/toastStore.ts:55-67 | every toast with the id removed, the others kept in order; the id's timer dropped |
| `ToastStore.Store.ClearAll` | web/src/lib/toast/toastStore.ts:69-78 | no toasts and no timers |
| `ToastStore.Store.ShowSuccess` | web/src/lib/toast/toastStore.ts:81-87 | a success toast, 3000 ms unless given |
| `ToastStore.Store.ShowError` | web/src/lib/toast/toastStore.ts:89-95 | an error toast, 7000 ms unless given |
| `ToastStore.Store.ShowWarning` | web/src/lib/toast/toastStore.ts:97-103 | a warning toast, 5000 ms unless given |
| `ToastStore.Store.ShowInfo` | web/src/lib/toast/toastStore.ts:105-111 | an info toast, 4000 ms unless given |
| `ToastStore.WithoutIdMeaning` | web/src/lib/toast/toastStore.ts:65 | no toast with the id is left, and a toast stays iff it was there with another id |
| `ToastStore.WithoutIdIds` | web/src/lib/toast/toastStore.ts:55-66 | the remaining ids are the old ones minus the removed id, so pending timers still belong to listed toasts |
| `ToastStore.WithoutIdOrdered` | web/src/lib/toast/toastStore.ts:65 | the kept toasts are a subsequence of the old list |
| `ToastStore.WithoutUnknownId` | web/src/lib/toast/toastStore.ts:55-66 | removing an id no toast has changes nothing |
| `ToastStore.AddThenRemoveRestores` | web/src/lib/toast/toastStore.ts:39-42 | adding a toast under a fresh id and removing that id gives the list back |
| `Scenarios.OneDigitKey` | internal/repositories/game/converter.go:36-49 | a key of two single digits reads as that band, both on the server and on the page |
| `Scenarios.DemoKeys` | web/src/lib/data/quiz.ts:52-56 | the demo's keys "0-1", "2-3", "4-5" parse on the server as those bands |
| `Scenarios.DemoPageRanges` | web/src/lib/utils/quiz.ts:3-16 | the page reads the demo's keys as the same bands |
| `Scenarios.DemoConverts` | web/src/lib/data/quiz.ts:3-57 | the demo payload converts to the game written out, with positional ids and one band per key |
| `Scenarios.BothCorrect` | internal/usecase/game/get_current_state.go:58-95 | demo: Paris then Berlin totals 4, "you know a lot" |
| `Scenarios.WrongAnswersStillScore` | internal/usecase/game/get_current_state.go:65-72 | demo: London twice, both wrong, totals 2, "you know a little" |
| `Scenarios.SecondQuestionNext` | internal/usecase/game/get_current_state.go:41-55 | demo: after one answer the second question is next, progress 1 of 2 |
| `Scenarios.UnknownOptionFailsAtResolution` | internal/usecase/game/get_current_state.go:76-78 | demo: option 9 is judged incorrect and recorded; resolving the finished game fails with "answer option not found" |
| `Scenarios.PageAgrees` | web/src/lib/utils/quiz.ts:3-16 | demo: the page names the same band for a total of 4 |

## Left out

- JSON decoding of stored payloads is not modelled. A row's payload is either a decoded payload or none, and none stands for "the bytes do not decode". The decoded payload's `type` field is kept but unused, as in the source.
- Storage failures in the game use case are not modelled: SQL errors, dropped connections and failing inserts. The storage is maps that always answer. For the user use case, which calls fail is a parameter.
- `GameUsecase.Usecase.Get`: does not model the repository's own error being passed on unchanged (`get.go` lines 12-15), because the storage maps cannot fail.
- The transaction manager is not modelled: each transaction body is one atomic method. Isolation between concurrent requests is therefore not modelled either.
- Error-path return values are not modelled. `GetCurrentState` and `AcceptAnswer` write `return result, trm.Do(...)`, and on an error the pointer returned beside it may hold a partly built value. The model returns only the error.
- `GameUsecase.Usecase.GetCurrentState` and `GameUsecase.Usecase.AcceptAnswer`: on success the model returns the value the transaction's closure filled in. Go evaluates the operands of that `return` left to right, but leaves unspecified whether reading the variable `result` happens before or after the call `trm.Do(...)`. If it happens before, the caller receives the zero value. Every `Ok` reply of these two methods assumes the read happens after the call.
- Session row order is fixed to insertion order. The session query has no `ORDER BY`, so the database may return rows in another order. This affects only which bad answer's error is reported first. The int64 total is the same in any order.
- int64 is modelled only for the score sum. Ids, scores and progress counts are unbounded integers; a single option score outside the int64 range cannot come from a decoded payload.
- `getResultText` parses bounds with JavaScript `Number`. The model reads "" as 0 and an optionally signed run of decimal digits as its value; anything else (floats, hex, whitespace, exponents) is NaN. Numbers beyond 2^53 lose no precision in the model.
- The iteration order of `Object.entries` is taken as given: the entries are passed in order. JavaScript lists integer-like keys first, but such keys have no '-', so their range has no maximum and they are skipped anyway.
- Toast timers firing is not modelled: firing is `removeToast(id)` after a delay, and the timing is not modelled. Only the set of ids with a pending timer is. `maxVisible` is declared in the initial state but read nowhere.
- The daily-game lookup (`GetDaily`), the HTTP handlers and the other repository queries are not part of this model.
- The classic acceptor's error branch in `AcceptAnswer` is unreachable here: the orchestrator always passes exactly one answer. `Decide` marks the branch as dead.
- Reset idempotence is not a separate lemma. It follows from `Reset`'s postcondition: deleting a session already absent leaves the map unchanged.

## Findings

| source | as written | input that shows it | evidently intended | confidence | as-written member | corrected member |
|---|---|---|---|---|---|---|
| internal/repositories/game/game.go:122-130 | the session query selects game, player, question and option ids but not `is_correct`, so every answer read back has `IsCorrect = false` | a one-question classic game whose only option (id 0) is correct; submit option 0 twice: the first reply is correct, the repeat, read from the stored row, is incorrect | the already-answered path returns the verdict stored at the first submission | not executed | `GameUsecase.RepeatedCorrectAnswerReadsIncorrect` | `AcceptAnswer.SubmitIdempotent` |

The rest of the model reads rows back whole, verdict included. This is what `GameUsecase.Usecase.GetGameSession` does, and on it `SubmitIdempotent` proves that a repeat returns the first reply.
