# Quiz game client logic in Dafny

This project models the client-side logic of a Kahoot-style classroom quiz
game. An admin edits a quiz, opens a game session and hosts it. Players join
with a game PIN and a nickname and answer timed questions for points.

What is modelled, one Dafny module per source file:

- `QuizContext`: the in-memory quiz provider (`src/context/QuizContext.tsx`).
  It holds three pieces of state: the quiz being edited, the game session and
  the current player. The class `QuizProvider` holds them and replaces them
  the way the provider's setters do. Each new state is a pure transition
  function:
  - `Join` appends a player;
  - `Submit` gives a verdict, a time-bonus award and a streak update;
  - `Next` advances the question or ends the game;
  - `UpdatedQuestions` and `DeletedQuestions` edit the question list by id.
- `QuestionEditor`: the answer-list handlers of the question editor. Each
  handler returns the list it passes to `onUpdate`, or `None` when it returns
  early. The dragged index is the editor's own state.
- `OrderingQuestion`: the ordering-puzzle widget.
  - The Fisher–Yates shuffle keeps the source's in-place loop over an array.
    Its random draws are an input sequence.
  - Move up/down, drag and the once-only submit are methods on the widget's
    state.
- `QuizCreator`: the quiz editor page. It covers the default question, the
  validity check before a game may start, and the selected-question index.
- `HostGame`: the host page. It covers the one-second countdown, which
  screen is shown, the Start and Next buttons, and the final top-5 board.
- `PlayGame`: the player page. It covers the answer-once guard, the reset on
  each new question, the 0.1-second time accumulator, the local verdict, the
  points shown, the streak banner and the final placing.
- `JoinGame`: the join form. It covers the PIN and nickname checks, the
  input caps, and the step from PIN to nickname. The game-table lookup is an
  input value.
- `Leaderboard`: the ranking panel. It covers the sort by score, the top
  rows, the medal rule and the separate "(You)" row with its rank.
- `GameAudio`: the round-robin choice of countdown recording for each time
  limit.
- `JsArray`, `JsString` and `QuizTypes` hold what the modules share:
  - the JavaScript array built-ins, including a stable sort;
  - `String.prototype.trim` with ECMAScript's whitespace set;
  - the data types of `src/types/quiz.ts`.

Modelling choices:

- Randomness is a parameter: the game code, ids and `Math.random` draws.
- Each event handler or timer firing is one atomic step.
- `Math.round` is `floor(x + 0.5)` over `real`.
- Seconds spent are a `real`, and each timer firing adds exactly 0.1.

Some behaviour of the code is easy to miss, and the model keeps it:

- the provider's `joinGame` accepts players after the game has started;
- `submitAnswer` has no guard against a second submission, so a second
  correct answer scores again (`QuizContext.SubmitTwiceScoresTwice`);
- ordering questions are always scored as incorrect, with no partial credit
  (`QuizContext.OrderingNeverScores`);
- the time spent is not clamped to `[0, timeLimit]`, so the bonus is at
  most 1 only for a non-negative time.

The player page judges an answer by its `isCorrect` flag alone. The
provider scores every ordering question as incorrect. The two therefore
disagree on an ordering question whose answer carries a set flag
(`PlayGame.VerdictDisagreesOnOrdering`).

A quiz with no questions ends at the first "next" without leaving index −1.
The host page then keeps showing the lobby of an inactive session
(`HostGame.StartFromLobby`). The quiz editor's start check rules this case
out (`QuizCreator.StartDecision`).

`isCorrectPosition` is the predicate `OrderingQuestion.IsCorrectPosition`:
the answer's `order_index` equals its position. The player page's final
placing is `Leaderboard.Rank`, the same `findIndex(...) + 1` over the same
score order.

## Model

| member | source | states |
|---|---|---|
| `QuizContext.MergeIdempotent` | src/context/QuizContext.tsx:54 | Merging the same partial update twice equals merging it once, and an empty update leaves the question unchanged |
| `QuizContext.UpdatedQuestions` | src/context/QuizContext.tsx:49-58 | Same length; questions with the id get the update merged in, every other question is unchanged |
| `QuizContext.DeletedQuestions` | src/context/QuizContext.tsx:60-67 | No question with the id is left; every other question is kept; with no match the list is unchanged |
| `QuizContext.DeletedQuestionsExactly` | src/context/QuizContext.tsx:64 | Deleting shortens the list by exactly the number of questions carrying the id and keeps the rest in order |
| `QuizContext.Round` | src/context/QuizContext.tsx:114 | `Math.round` gives the integer within half a unit, with halves going up |
| `QuizContext.TimeBonus` | src/context/QuizContext.tsx:113 | The bonus is never negative, at most 1 for a non-negative time, 0 at or after the limit, and falls linearly before it |
| `QuizContext.TimeBonusNonIncreasing` | src/context/QuizContext.tsx:113 | Spending more time never gives a larger bonus |
| `QuizContext.IsCorrect` | src/context/QuizContext.tsx:105-111 | Correct exactly when the question is multiple-choice and the first answer with the submitted id is flagged correct; an unknown id or an ordering question is incorrect |
| `QuizContext.PointsEarned` | src/context/QuizContext.tsx:114 | An incorrect answer earns 0 |
| `QuizContext.AwardBounds` | src/context/QuizContext.tsx:113-114 | A correct answer at a non-negative time earns between round(points/2) and points |
| `QuizContext.AwardNonIncreasing` | src/context/QuizContext.tsx:113-114 | A later correct answer never earns more than an earlier one |
| `QuizContext.PointsPositiveIffCorrect` | src/context/QuizContext.tsx:113-114 | For a question worth at least 1 point, points are earned exactly when the answer is correct |
| `QuizContext.AwardExample` | src/context/QuizContext.tsx:113-114 | 1000 points, a 20 s limit and an answer after 5 s give a bonus of 0.75 and 875 points |
| `QuizContext.ScoredPlayers` | src/context/QuizContext.tsx:118-126 | Players with the id get the award added and their streak extended or reset; all other players are unchanged |
| `QuizContext.ReplayStreakAndScore` | src/context/QuizContext.tsx:121-123 | After any series of answers the score has grown by their total. The streak continues the old one if every answer was correct, and otherwise counts the trailing correct answers |
| `QuizContext.Join` | src/context/QuizContext.tsx:82-96 | Succeeds iff a session exists, has the code and is active. Success appends exactly one player with score 0 and streak 0 and changes nothing else. Failure returns None |
| `QuizContext.Submit` | src/context/QuizContext.tsx:99-127 | No-op without a session, a quiz or a current question; otherwise only players with the id change, and the roster keeps its length |
| `QuizContext.SubmitScoresNamedPlayer` | src/context/QuizContext.tsx:116-127 | The named player's score grows by the award and their streak becomes +1 if correct, 0 if not |
| `QuizContext.OrderingNeverScores` | src/context/QuizContext.tsx:105-111 | On an ordering question the player's streak resets and the score stays |
| `QuizContext.SubmitTwiceScoresTwice` | src/context/QuizContext.tsx:99-127 | Submitting the same correct answer twice awards it twice and extends the streak by 2 |
| `QuizContext.Next` | src/context/QuizContext.tsx:130-146 | Before the last question: index +1 and that question's time limit loaded. Otherwise: game inactive, index kept. Players, quiz and code never change |
| `QuizContext.ProgressionFromLobby` | src/context/QuizContext.tsx:130-146 | From the lobby, k presses of "next" reach question min(k, n) − 1, one index at a time. The game is over exactly when k > n. Players are untouched |
| `QuizContext.FinishedIsFinal` | src/context/QuizContext.tsx:139-144 | Once the game has ended after the last question, "next" changes nothing |
| `QuizContext.QuizProvider.constructor` | src/context/QuizContext.tsx:36-38 | The provider starts with no quiz, no session and no player |
| `QuizContext.QuizProvider.SetCurrentQuiz` | src/context/QuizContext.tsx:36 | Replaces the current quiz |
| `QuizContext.QuizProvider.SetCurrentPlayer` | src/context/QuizContext.tsx:38 | Replaces the current player |
| `QuizContext.QuizProvider.AddQuestion` | src/context/QuizContext.tsx:40-47 | Appends the question to the current quiz; no-op without one |
| `QuizContext.QuizProvider.UpdateQuestion` | src/context/QuizContext.tsx:49-58 | The current quiz's questions become `UpdatedQuestions`; no-op without a quiz |
| `QuizContext.QuizProvider.DeleteQuestion` | src/context/QuizContext.tsx:60-67 | The current quiz's questions become `DeletedQuestions`; no-op without a quiz |
| `QuizContext.QuizProvider.StartGame` | src/context/QuizContext.tsx:69-80 | The session is in the lobby (index −1) with no players, active, 0 time remaining and the generated code; that code is returned |
| `QuizContext.QuizProvider.JoinGame` | src/context/QuizContext.tsx:82-97 | Returns the new player exactly when `Join` succeeds, and stores its session; otherwise returns None and leaves the session unchanged |
| `QuizContext.QuizProvider.SubmitAnswer` | src/context/QuizContext.tsx:99-128 | The session becomes `Submit` of the old one |
| `QuizContext.QuizProvider.NextQuestion` | src/context/QuizContext.tsx:130-146 | The session becomes `Next` of the old one |
| `QuestionEditor.TextChanged` | src/components/QuestionEditor.tsx:22-28 | Only the text of answers with the id changes |
| `QuestionEditor.ToggledCorrect` | src/components/QuestionEditor.tsx:30-38 | No update for an ordering question. For multiple-choice, only the matching answers' flags flip |
| `QuestionEditor.ToggleTwiceRestores` | src/components/QuestionEditor.tsx:30-38 | Toggling the same answer twice gives back the original list |
| `QuestionEditor.AddedAnswer` | src/components/QuestionEditor.tsx:63-73 | No update at 4 or more answers. Otherwise the old answers are kept and a blank, not-correct answer numbered old length + 1 is appended |
| `QuestionEditor.RemovedAnswer` | src/components/QuestionEditor.tsx:75-80 | No update at 2 or fewer answers. Otherwise answers with the id are dropped, every other answer is kept exactly as often as it occurs, and with no match the list is unchanged |
| `QuestionEditor.RemovedAnswerIsSplice` | src/components/QuestionEditor.tsx:75-80 | With distinct ids, removing the answer at position k gives the list with exactly that position spliced out, so the other answers keep their order |
| `QuestionEditor.RemoveLosesAtMostOne` | src/components/QuestionEditor.tsx:78 | With distinct answer ids, removing by id drops at most one answer, and none when the id is absent |
| `QuestionEditor.EditsKeepCountInRange` | src/components/QuestionEditor.tsx:63-80 | Starting from 2–4 answers with distinct ids, the lists that add and remove produce have 2–4 answers, so each of them fits the 4 colours |
| `QuestionEditor.Renumbered` | src/components/QuestionEditor.tsx:53 | The `order` fields become 1..n and nothing else changes |
| `QuestionEditor.Reordered` | src/components/QuestionEditor.tsx:48-53 | The dragged answer lands at the target index. The list is the moved list with `order` fields 1..n |
| `QuestionEditor.ReorderedIdsArePermutation` | src/components/QuestionEditor.tsx:48-53 | The answer ids after a reorder are a permutation of those before |
| `QuestionEditor.Editor.constructor` | src/components/QuestionEditor.tsx:20 | Nothing is being dragged |
| `QuestionEditor.Editor.DragStart` | src/components/QuestionEditor.tsx:40-42 | The dragged index becomes the given index |
| `QuestionEditor.Editor.DragOver` | src/components/QuestionEditor.tsx:44-57 | No update when nothing is dragged or it is over itself. Otherwise the reordered list is sent and the target becomes the dragged index |
| `QuestionEditor.Editor.DragEnd` | src/components/QuestionEditor.tsx:59-61 | Nothing is being dragged |
| `JsArray.Move` | src/components/OrderingQuestion.tsx:60-63 | The moved element lands at the target. Elements outside the span keep their place; those inside shift by one |
| `JsArray.MovePermutes` | src/components/OrderingQuestion.tsx:60-63 | A move is a permutation of its input |
| `JsArray.FilterMultiset` | src/components/QuestionEditor.tsx:78 | `filter` keeps each element that passes the test as many times as it occurs, and no other element |
| `JsArray.FilterAppend` | src/components/QuestionEditor.tsx:78 | Filtering a concatenation is the concatenation of the filtered parts, so kept elements stay in their original order |
| `JsArray.FilterDropsOne` | src/components/QuestionEditor.tsx:78 | When only position k fails the test, `filter` returns the list with that position spliced out |
| `JsArray.FilterAtLeastTwo` | src/pages/QuizCreator.tsx:73 | At least two elements survive a filter iff two different positions satisfy its test |
| `JsArray.SortBy` | src/components/OrderingQuestion.tsx:43 | The sort returns a permutation of its input, in non-decreasing key order |
| `JsArray.InsertKeyOrder` | src/components/OrderingQuestion.tsx:43 | Inserting an element puts it in front of the elements with its key and keeps the order of the elements of every key |
| `JsArray.SortByStable` | src/components/OrderingQuestion.tsx:43 | The sort is stable, as ECMAScript requires: for every key, the elements with that key come out in their input order |
| `OrderingQuestion.ShufflePermutes` | src/components/OrderingQuestion.tsx:20-27 | For any draws 0 ≤ j ≤ i, the shuffle is a permutation of its input |
| `OrderingQuestion.ShuffleFixesDrawn` | src/components/OrderingQuestion.tsx:22-25 | Positions above the current one are never touched again, and each position keeps the element drawn for it |
| `OrderingQuestion.ShuffleIdentity` | src/components/OrderingQuestion.tsx:22-25 | Drawing j = i at every step leaves the order unchanged |
| `OrderingQuestion.ShuffleArray` | src/components/OrderingQuestion.tsx:20-27 | The in-place loop on a copy returns exactly the specified shuffle, which is a permutation of the unmodified input |
| `OrderingQuestion.ResultsOrder` | src/components/OrderingQuestion.tsx:41-43 | Results mode shows a permutation of the answers in ascending `order_index` |
| `OrderingQuestion.ResultsOrderKeepsTies` | src/components/OrderingQuestion.tsx:43 | Answers with equal `order_index` keep their displayed order in the results |
| `OrderingQuestion.ResultsAllCorrect` | src/components/OrderingQuestion.tsx:41-43 | When the `order_index` values are exactly 0..n−1, every answer in results mode is in its correct position |
| `OrderingQuestion.OrderingWidget.constructor` | src/components/OrderingQuestion.tsx:35-47 | Mounting shows the answers sorted in results mode and shuffled otherwise. Nothing is dragged or submitted |
| `OrderingQuestion.OrderingWidget.DragStart` | src/components/OrderingQuestion.tsx:49-54 | Ignored when disabled or submitted; otherwise records the dragged index |
| `OrderingQuestion.OrderingWidget.DragOver` | src/components/OrderingQuestion.tsx:56-66 | Moves the dragged answer to the hovered index. The list stays an arrangement of the answers. No-op when nothing is dragged, when over itself, or when disabled or submitted |
| `OrderingQuestion.OrderingWidget.DragEnd` | src/components/OrderingQuestion.tsx:68-70 | Nothing is being dragged |
| `OrderingQuestion.OrderingWidget.MoveUp` | src/components/OrderingQuestion.tsx:77-82 | Swaps positions i−1 and i; no-op at 0 or when disabled or submitted |
| `OrderingQuestion.OrderingWidget.MoveDown` | src/components/OrderingQuestion.tsx:84-89 | Swaps positions i and i+1; no-op at the last index or when disabled or submitted |
| `OrderingQuestion.OrderingWidget.Submit` | src/components/OrderingQuestion.tsx:91-95 | Reports the ids in the displayed order at most once; later calls, or calls while disabled, report nothing |
| `QuizCreator.NewQuestionInvalid` | src/pages/QuizCreator.tsx:23-37 | The default question is multiple-choice with 2 answers, a 20 s limit and 1000 points. Being blank and unmarked, it fails validation |
| `QuizCreator.HasAnswersIff` | src/pages/QuizCreator.tsx:73 | At least two answers pass the trimmed-text filter iff two different answers have non-blank text |
| `QuizCreator.QuestionValidIff` | src/pages/QuizCreator.tsx:71-76 | Valid iff three things hold: the text is not blank, two answers have non-blank text, and a multiple-choice question has an answer marked correct |
| `QuizCreator.StartDecision` | src/pages/QuizCreator.tsx:60-87 | An empty quiz is refused first, then a quiz with any invalid question; the game starts iff the quiz has a question and every question is valid |
| `QuizCreator.SelectionAfterDelete` | src/pages/QuizCreator.tsx:56 | The new selection is sel − 1, and never below 0 |
| `QuizCreator.DeleteKeepsSelectionInRange` | src/pages/QuizCreator.tsx:52-58 | With distinct ids, deleting the selected question removes exactly one. The new selection points into the shorter quiz unless it is empty |
| `QuizCreator.CreatorPage.constructor` | src/pages/QuizCreator.tsx:16 | The first question is selected |
| `QuizCreator.CreatorPage.Select` | src/pages/QuizCreator.tsx:109 | Clicking a thumbnail selects it |
| `QuizCreator.CreatorPage.AddQuestion` | src/pages/QuizCreator.tsx:39-43 | The new quiz is the old one with the default question appended, its id and title unchanged; the selection is the old question count, which is the new last question |
| `QuizCreator.CreatorPage.UpdateQuestion` | src/pages/QuizCreator.tsx:45-50 | Merges the update into the selected question's id; no-op for an out-of-range selection |
| `QuizCreator.CreatorPage.DeleteQuestion` | src/pages/QuizCreator.tsx:52-58 | No-op for an out-of-range selection. Otherwise the selected question's id is deleted and the selection becomes max(0, sel − 1) |
| `QuizCreator.CreatorPage.StartGame` | src/pages/QuizCreator.tsx:60-89 | The session is opened only when `StartDecision` says Start; otherwise the session is unchanged |
| `HostGame.Tick` | src/pages/HostGame.tsx:24-30 | The clock loses a second, never goes below 0, and results are revealed exactly on the tick that reaches 0 |
| `HostGame.TickTimesCountsDown` | src/pages/HostGame.tsx:21-34 | From t ≥ 0 seconds, k ticks leave max(0, t − k), so the clock reaches 0 after exactly t ticks |
| `HostGame.ScreenOf` | src/pages/HostGame.tsx:36-42 | Nothing is shown without a session or quiz. Then the lobby (index −1) is checked first, then game over (inactive), and otherwise the question with or without results |
| `HostGame.FinalBoard` | src/pages/HostGame.tsx:61-135 | At most 5 players, all from the session, in non-increasing score order |
| `HostGame.FinalBoardLeavesOutOnlyLower` | src/pages/HostGame.tsx:135 | A player left off the final board scored no more than anyone on it |
| `HostGame.FinalBoardIsDefaultTop` | src/pages/HostGame.tsx:135 | The host's final board equals the leaderboard panel's default top rows |
| `HostGame.StartFromLobby` | src/pages/HostGame.tsx:44-50 | From the lobby, start reaches question 0 when the quiz has questions. An empty quiz ends the game at index −1, so the lobby screen stays |
| `HostGame.HostPage.constructor` | src/pages/HostGame.tsx:12-13 | The clock shows 0 and the results are hidden |
| `HostGame.HostPage.TimerTick` | src/pages/HostGame.tsx:21-34 | Ticks only while a question is on and time is left; the clock never goes negative |
| `HostGame.HostPage.StartQuiz` | src/pages/HostGame.tsx:44-50 | Advances the session and hides results. The clock gets question 0's time limit, which equals the session's time remaining |
| `HostGame.HostPage.NextQuestion` | src/pages/HostGame.tsx:52-59 | Hides results and advances the session. The clock gets the next question's time when there is one; otherwise the game-over screen shows |
| `PlayGame.LocalVerdict` | src/pages/PlayGame.tsx:54-56 | 'correct' iff the first answer with the chosen id is flagged correct, whatever the question's kind |
| `PlayGame.VerdictMatchesScoringOnMultipleChoice` | src/pages/PlayGame.tsx:54-56 | On multiple-choice questions the page's verdict is the provider's |
| `PlayGame.VerdictDisagreesOnOrdering` | src/pages/PlayGame.tsx:54-56 | On an ordering question with a flagged answer the page says correct but the provider scores incorrect |
| `PlayGame.DisplayedPointsAreAwarded` | src/pages/PlayGame.tsx:125 | The "+N points" figure is the award the provider gives for a correct answer at the same time |
| `PlayGame.ScreenOf` | src/pages/PlayGame.tsx:40-136 | Screens are checked in order: nothing, waiting (index −1), game over with the rank (0 when absent), verdict once answered, then the answer grid. Points show only for a correct verdict; the streak banner only for a streak above 1 |
| `PlayGame.PlayerPage.constructor` | src/pages/PlayGame.tsx:11-14 | No answer chosen, not answered, no result, no time spent |
| `PlayGame.PlayerPage.QuestionChanged` | src/pages/PlayGame.tsx:23-28 | The selection, answered flag, result and time spent are reset |
| `PlayGame.PlayerPage.TimerTick` | src/pages/PlayGame.tsx:31-38 | Time grows by 0.1 s only on a question that is not yet answered |
| `PlayGame.PlayerPage.AnswerSelect` | src/pages/PlayGame.tsx:48-59 | Ignored once answered. The first choice is recorded and judged locally, then submitted with the time spent. The provider's current player is left unchanged |
| `PlayGame.StaleSnapshotShown` | src/pages/PlayGame.tsx:95-130 | The final score and streak banner read the current player, which answering never updates: after two correct answers the session holds 1750 points and a streak of 2, while the page shows no banner and a final score of 0. As the app is wired, nothing sets the provider's current player, so the page redirects to the join form instead |
| `JoinGame.CodeDecision` | src/pages/JoinGame.tsx:19-54 | Checks in order: a trimmed PIN under 4 characters is refused, then a failed lookup, then a game past the lobby. Otherwise the form proceeds with the game's id |
| `JoinGame.ShortCodeIgnoresLookup` | src/pages/JoinGame.tsx:21-28 | A short PIN is refused before, and regardless of, the lookup |
| `JoinGame.NicknameDecision` | src/pages/JoinGame.tsx:56-71 | A trimmed nickname under 2 characters is refused. Nothing happens without a game id or with the empty id, which `!gameId` treats as missing. Otherwise the trimmed nickname is submitted with the non-empty id |
| `JoinGame.CodeInput` | src/pages/JoinGame.tsx:120-122 | The PIN box holds at most 8 characters and is upper-case |
| `JoinGame.NicknameInput` | src/pages/JoinGame.tsx:145-147 | The nickname box holds at most 15 characters |
| `JoinGame.JoinedNicknameLength` | src/pages/JoinGame.tsx:58-71 | A nickname typed into the form and accepted has 2–15 characters |
| `JoinGame.AcceptedCodeLength` | src/pages/JoinGame.tsx:21-53 | A PIN typed into the form and accepted has 4–8 characters once trimmed |
| `JoinGame.JoinForm.constructor` | src/pages/JoinGame.tsx:13-16 | Empty boxes, the PIN step and no game id |
| `JoinGame.JoinForm.TypeCode` | src/pages/JoinGame.tsx:120 | The PIN box becomes the capped, upper-cased input |
| `JoinGame.JoinForm.TypeNickname` | src/pages/JoinGame.tsx:145 | The nickname box becomes the capped input |
| `JoinGame.JoinForm.SubmitCode` | src/pages/JoinGame.tsx:19-54 | The game id is recorded and the nickname step shown only when every check passes; otherwise nothing changes |
| `JoinGame.JoinForm.SubmitNickname` | src/pages/JoinGame.tsx:56-71 | Returns the nickname decision for the current box and game id |
| `JoinGame.JoinForm.Back` | src/pages/JoinGame.tsx:98 | The back arrow on the nickname step returns to the PIN step |
| `Leaderboard.SortedPlayers` | src/components/Leaderboard.tsx:22 | A permutation of the players in non-increasing score order; the input is a value and is not changed |
| `Leaderboard.SortedPlayersKeepTies` | src/components/Leaderboard.tsx:22 | Players with equal scores appear in the ranking in their input order |
| `Leaderboard.TopPlayers` | src/components/Leaderboard.tsx:23 | A prefix of the ranking of length min(count, n) for a non-negative count |
| `Leaderboard.DefaultTopFive` | src/components/Leaderboard.tsx:20-23 | Without a count the panel shows min(5, n) rows in score order |
| `Leaderboard.BadgeFor` | src/components/Leaderboard.tsx:25-30 | A trophy exactly at index 0, the silver medal exactly at 1, the bronze medal exactly at 2; every other row shows index + 1 |
| `Leaderboard.Rank` | src/components/Leaderboard.tsx:91-92 | 0 iff no player has the id. Otherwise it is 1 + the first index of the id in the ranking: everyone before scores at least as much, everyone after at most as much |
| `Leaderboard.UniqueLeaderRanksFirst` | src/components/Leaderboard.tsx:22 | A player who outscores every other player is ranked first |
| `Leaderboard.OwnRow` | src/components/Leaderboard.tsx:88-112 | The "(You)" row needs three things: a non-empty id, no top row with it, and a player who has it. The row carries the player at that rank in the score order, who has the id, and a rank below every top row |
| `Leaderboard.OwnRowShownIff` | src/components/Leaderboard.tsx:88-93 | The "(You)" row appears iff some player has the id and no top row does |
| `GameAudio.InitialCountersValid` | src/hooks/useGameAudio.tsx:30-35 | The starting counters are valid for the hook's table: one counter per listed time limit, all at 0. The default recording is the first 30-second one |
| `GameAudio.Pick` | src/hooks/useGameAudio.tsx:57-72 | For any table of recordings: an unknown limit gets the default recording and changes no counter. A known limit gets files[counter], and only its counter moves to (counter + 1) mod len, staying in [0, len) |
| `GameAudio.PickRunRotates` | src/hooks/useGameAudio.tsx:65-69 | k calls with a known limit return the recordings round the list from the counter's position, and move that counter k steps on |
| `GameAudio.FullCycle` | src/hooks/useGameAudio.tsx:65-69 | A full round of len calls with one limit returns every recording of its list once and leaves every counter where it started |
| `GameAudio.CountdownChooser.constructor` | src/hooks/useGameAudio.tsx:30-35 | The counter map starts with every counter at 0 |
| `GameAudio.CountdownChooser.GetNextCountdownAudio` | src/hooks/useGameAudio.tsx:57-72 | The in-place update of the counter map returns and leaves what `Pick` specifies for the hook's own table, keeping every counter in range |

## Left out

- `src/lib/gameUtils.ts` is not part of this model. It holds the hosted-database queries, inserts and storage upload, and the code and id generators. The PIN lookup is an input to `JoinGame.CodeDecision`. The source looks up the box's text as typed (src/pages/JoinGame.tsx:31): untrimmed, upper-cased and among active games only (src/lib/gameUtils.ts:105-106). So a PIN such as "ABC123 " passes the trimmed-length check and is then looked up with its trailing space. The join call made with the accepted nickname is left out.
- `src/hooks/useGameRealtime.tsx` is not part of this model. It is a subscription to the backend's change feed.
- `src/pages/Auth.tsx` is not part of this model. It calls the authentication service and a validation library.
- Audio playback is left out: creating, playing, pausing and looping the `Audio` objects, and the lobby music.
- Rendering, styling, routing and toasts are left out. So are `AnswerCard`, `GameLogo`, `Index`, `App` and `AdminDashboard`. Each toast is an outcome value instead (`StartOutcome`, `CodeOutcome`, `NicknameOutcome`).
- Randomness is a parameter: `Math.random`, `crypto.randomUUID` and the game-code generator. Lemmas with a distinct-id premise (`QuestionEditor.RemoveLosesAtMostOne`, `QuestionEditor.EditsKeepCountInRange`, `QuestionEditor.RemovedAnswerIsSplice`, `QuizCreator.DeleteKeepsSelectionInRange`) rely on `crypto.randomUUID` never returning the same id twice. The model does not prove that.
- React scheduling is left out: `setInterval` timing, effect ordering and re-render batching. Each handler or timer firing is one atomic step that reads the state current at the call.
- `Quiz.createdAt` is not modelled, because no modelled operation reads it.
- Scores and times are unbounded integers and exact reals, not IEEE doubles. The 0.1-second accumulator has no rounding drift.
- `QuizContext.Submit`: requires every question's time limit to be positive. With a limit of 0 the bonus is a division by zero. A correct answer after a positive time then gets a bonus of 0 and earns round(points/2). A correct answer at time exactly 0 gets a NaN score. An incorrect answer earns 0 either way. The editor offers only the limits 10, 20, 30, 60 and 120 seconds.
- `HostGame.HostPage.StartQuiz`, `HostGame.HostPage.NextQuestion`, `PlayGame.ScreenOf` and `PlayGame.PlayerPage.AnswerSelect`: carry the same positive-time-limit requirement as `QuizContext.Submit`, for the same reason. The two host methods load a question's limit into the countdown, and the page's invariant that the clock is never negative needs it. `PlayGame.ScreenOf` computes the points shown with the same division. `AnswerSelect` calls `Submit`.
- `QuizContext.QuizProvider.SubmitAnswer`: carries the same positive-time-limit requirement as `Submit`.
- `JoinGame.CodeInput`: upper-cases the ASCII letters only, while `toUpperCase` also maps other Unicode letters. Some of those mappings lengthen the text ("ß" becomes "SS"), and the upper-casing runs after the 8-character cap. So the source's code box can hold more than 8 characters. The bound `|r| <= 8` and `JoinGame.AcceptedCodeLength` hold only for the ASCII-only mapping.
- `JoinGame.CodeDecision`, `JoinGame.NicknameDecision`, `JoinGame.CodeInput` and `JoinGame.NicknameInput`: strings are sequences of Unicode characters, not UTF-16 code units. The source measures `length` and `maxLength` in code units, where a character outside the Basic Multilingual Plane counts as 2. For such text the model's length checks differ from the source's: the nickname "😀" is refused here and accepted by the source, and the 8- and 15-character caps cut at different places.
- `OrderingQuestion.OrderingWidget.constructor`: the props are fixed. Re-arranging when the `answers` or `showResults` props change is not modelled.
- `HostGame.HostPage.StartQuiz`: requires the lobby screen and at least one player, because the button exists only there and is disabled without players.
- `HostGame.HostPage.NextQuestion`: requires the results view, because the button exists only there.
- `QuizCreator.CreatorPage.AddQuestion`, `UpdateQuestion`, `DeleteQuestion` and `StartGame` require a current quiz, because without one the page renders nothing and redirects.
- `PlayGame.PlayerPage.AnswerSelect`: requires a session and a current player, because without them the page renders nothing.
- `PlayGame.StaleSnapshotShown`: the lemma starts from a player snapshot taken at joining. In this version of the app nothing calls the provider's `setCurrentPlayer` or `joinGame`: the join form joins through `gameUtils.joinGame` (src/pages/JoinGame.tsx:6, 71). So the page's `currentPlayer` is always null, and the page redirects to /join (src/pages/PlayGame.tsx:16-20). The lemma describes what the page would show once a player is set.
