/**
 * The player's screen: waiting for the host, answering the current
 * question once, seeing the local verdict with the points it is worth,
 * and the final placing. The page's own state is the chosen answer, the
 * answered flag, the last verdict and the seconds spent on the question;
 * answers are submitted to the provider.
 */
module PlayGame {
  import opened JsArray
  import opened QuizTypes
  import QuizContext
  import Leaderboard

  /** The seconds the 100-millisecond interval adds per firing. */
  const TickSeconds: real := 0.1

  datatype Verdict = Correct | Incorrect

  /**
   * `currentQuestion?.answers.find(a => a.id === answerId)?.isCorrect || false`:
   * the page judges the answer by its flag alone, whatever the question's kind.
   */
  function LocalVerdict(q: Option<Question>, answerId: string): (v: Verdict)
    ensures v == Correct <==>
              q.Some? && exists i :: 0 <= i < |q.value.answers| && q.value.answers[i].id == answerId &&
                                     q.value.answers[i].isCorrect &&
                                     forall k :: 0 <= k < i ==> q.value.answers[k].id != answerId
  {
    if q.None? then Incorrect
    else
      var a := Find(q.value.answers, (a: Answer) => a.id == answerId);
      if a.Some? && a.value.isCorrect then Correct else Incorrect
  }

  /** On a multiple-choice question the page's verdict is the provider's. */
  lemma VerdictMatchesScoringOnMultipleChoice(q: Question, answerId: string)
    requires q.kind == MultipleChoice
    ensures LocalVerdict(Some(q), answerId) == Correct <==> QuizContext.IsCorrect(q, answerId)
  {
  }

  /**
   * On an ordering question the two disagree: an answer carrying a set flag
   * is shown as correct while the provider scores it as incorrect.
   */
  lemma VerdictDisagreesOnOrdering(q: Question, i: nat)
    requires q.kind == Ordering && i < |q.answers| && q.answers[i].isCorrect
    requires forall k :: 0 <= k < i ==> q.answers[k].id != q.answers[i].id
    ensures LocalVerdict(Some(q), q.answers[i].id) == Correct
    ensures !QuizContext.IsCorrect(q, q.answers[i].id)
  {
  }

  /**
   * The "+N points!" figure, written out in the page as
   * `Math.round(points * (0.5 + 0.5 * Math.max(0, (timeLimit - timeSpent) / timeLimit)))`.
   */
  function DisplayedPoints(q: Question, timeSpent: real): (pts: int)
    requires q.timeLimit > 0
  {
    var raw := (q.timeLimit as real - timeSpent) / q.timeLimit as real;
    QuizContext.Round(q.points as real * (0.5 + 0.5 * (if 0.0 > raw then 0.0 else raw)))
  }

  /** The figure the page shows is the award the provider gives for a correct answer at the same time. */
  lemma DisplayedPointsAreAwarded(q: Question, timeSpent: real)
    requires q.timeLimit > 0
    ensures DisplayedPoints(q, timeSpent) == QuizContext.PointsEarned(q, true, timeSpent)
  {
  }

  /** The streak banner shows only from a streak of two. */
  predicate StreakBanner(streak: int)
  {
    streak > 1
  }

  /** What the player page renders. */
  datatype PlayerScreen =
    | Nothing
    | Waiting
    | GameOver(rank: int, score: int)
    | AnsweredView(verdict: Verdict, shownPoints: Option<int>, streakBanner: bool)
    | AnswerGrid

  /**
   * Nothing without a session or a player; then the waiting room in the
   * lobby, the final placing once the session is over, the verdict once
   * the current question is answered, and otherwise the answer grid. The
   * placing is the player's rank in the score order of the session.
   */
  function ScreenOf(g: Option<GameState>, player: Option<Player>, answered: bool,
                    lastResult: Option<Verdict>, timeSpent: real): (s: PlayerScreen)
    requires SessionTimeLimitsPositive(g)
    ensures s == Nothing <==> g.None? || player.None?
    ensures s == Waiting <==> g.Some? && player.Some? && g.value.currentQuestionIndex == -1
    ensures s.GameOver? <==> g.Some? && player.Some? && g.value.currentQuestionIndex != -1 && !g.value.isActive
    ensures s.GameOver? ==> s.rank == Leaderboard.Rank(g.value.players, player.value.id) && s.score == player.value.score
    ensures s.GameOver? ==> (s.rank == 0 <==> forall i :: 0 <= i < |g.value.players| ==> g.value.players[i].id != player.value.id)
    ensures s.AnsweredView? <==> g.Some? && player.Some? && g.value.currentQuestionIndex != -1 && g.value.isActive &&
                                 answered && CurrentQuestion(g.value).Some?
    ensures s.AnsweredView? ==> s.verdict == (if lastResult == Some(Correct) then Correct else Incorrect)
    ensures s.AnsweredView? ==> (s.shownPoints.Some? <==> s.verdict == Correct)
    ensures s.AnsweredView? && s.verdict == Correct ==>
              s.shownPoints == Some(QuizContext.PointsEarned(CurrentQuestion(g.value).value, true, timeSpent))
    ensures s.AnsweredView? ==> (s.streakBanner <==> player.value.currentStreak > 1)
  {
    if g.None? || player.None? then Nothing
    else if g.value.currentQuestionIndex == -1 then Waiting
    else if !g.value.isActive then GameOver(Leaderboard.Rank(g.value.players, player.value.id), player.value.score)
    else
      var q := CurrentQuestion(g.value);
      if answered && q.Some? then
        assert q.value in g.value.quiz.value.questions;
        var v := if lastResult == Some(Correct) then Correct else Incorrect;
        DisplayedPointsAreAwarded(q.value, timeSpent);
        AnsweredView(v, if v == Correct then Some(DisplayedPoints(q.value, timeSpent)) else None,
                     StreakBanner(player.value.currentStreak))
      else AnswerGrid
  }

  /** The one-answer, 1000-point, 20-second question both rounds of StaleSnapshotShown play. */
  const DemoQuestion := Question("q", MultipleChoice, "", None, [Answer("a", "", true, 1)], 20, 1000)

  /** The player as the provider records them on joining. */
  const DemoJoined := Player("p", "nick", 0, 0)

  /** Answering one round correctly after 5 of 20 seconds adds 875 points and one to the streak. */
  lemma DemoRound(g: Option<GameState>, before: Player)
    requires g.Some? && g.value.quiz == Some(Quiz("z", "", [DemoQuestion, DemoQuestion]))
    requires 0 <= g.value.currentQuestionIndex < 2 && g.value.players == [before] && before.id == "p"
    ensures QuizContext.Submit(g, "p", "a", 5.0) ==
              Some(g.value.(players := [before.(score := before.score + 875, currentStreak := before.currentStreak + 1)]))
  {
    assert CurrentQuestion(g.value) == Some(DemoQuestion);
    QuizContext.AwardExample();
    assert QuizContext.IsCorrect(DemoQuestion, "a");
    assert QuizContext.PointsEarned(DemoQuestion, true, 5.0) == 875;
    QuizContext.SubmitScoresNamedPlayer(g.value, "p", "a", 5.0, 0);
    var r := QuizContext.Submit(g, "p", "a", 5.0).value;
    assert r.players[0] == before.(score := before.score + 875, currentStreak := before.currentStreak + 1);
    assert r.players == [r.players[0]];
  }

  /**
   * The final score and the streak banner read the provider's current
   * player, which answering never updates (AnswerSelect changes only the
   * session). A player who joined and then answered both questions of a
   * quiz correctly after 5 of 20 seconds holds a streak of 2 and 1750
   * points in the session, yet the page shows no streak banner after the
   * second answer and a final score of 0.
   */
  lemma StaleSnapshotShown()
    ensures var g0 := Some(GameState(Some(Quiz("z", "", [DemoQuestion, DemoQuestion])), 0, [DemoJoined], true, "CODE", 20));
            var g2 := QuizContext.Submit(QuizContext.Next(QuizContext.Submit(g0, "p", "a", 5.0)), "p", "a", 5.0);
            var over := QuizContext.Next(g2);
            && g2.value.players == [Player("p", "nick", 1750, 2)]
            && ScreenOf(g2, Some(DemoJoined), true, Some(Correct), 5.0) == AnsweredView(Correct, Some(875), false)
            && ScreenOf(over, Some(DemoJoined), true, Some(Correct), 5.0) == GameOver(1, 0)
  {
    var g0 := Some(GameState(Some(Quiz("z", "", [DemoQuestion, DemoQuestion])), 0, [DemoJoined], true, "CODE", 20));
    DemoRound(g0, DemoJoined);
    var g1 := QuizContext.Submit(g0, "p", "a", 5.0);
    var n1 := QuizContext.Next(g1);
    assert n1.value.currentQuestionIndex == 1 && n1.value.isActive;
    DemoRound(n1, Player("p", "nick", 875, 1));
    var g2 := QuizContext.Submit(n1, "p", "a", 5.0);
    assert CurrentQuestion(g2.value) == Some(DemoQuestion);
    QuizContext.AwardExample();
    assert QuizContext.PointsEarned(DemoQuestion, true, 5.0) == 875;
    var over := QuizContext.Next(g2);
    assert !over.value.isActive && over.value.players == [Player("p", "nick", 1750, 2)];
    assert Leaderboard.Rank(over.value.players, "p") == 1;
  }

  /** The player page's own state. */
  class PlayerPage {
    var selectedAnswer: Option<string>
    var answered: bool
    var lastResult: Option<Verdict>
    var timeSpent: real

    /** The seconds spent are never negative. */
    ghost predicate Valid()
      reads this
    {
      timeSpent >= 0.0
    }

    /** The state the page mounts with, which is also what every new question resets it to. */
    ghost predicate Fresh()
      reads this
    {
      selectedAnswer == None && !answered && lastResult == None && timeSpent == 0.0
    }

    constructor ()
      ensures Valid() && Fresh()
    {
      selectedAnswer, answered, lastResult, timeSpent := None, false, None, 0.0;
    }

    /** The effect that runs whenever the question index changes. */
    method QuestionChanged()
      modifies this
      ensures Valid() && Fresh()
    {
      selectedAnswer, answered, lastResult, timeSpent := None, false, None, 0.0;
    }

    /** One firing of the interval: a tenth of a second more, but only on a question not yet answered. */
    method TimerTick(g: Option<GameState>)
      requires Valid()
      modifies this`timeSpent
      ensures Valid()
      ensures g.Some? && g.value.currentQuestionIndex >= 0 && !answered ==> timeSpent == old(timeSpent) + TickSeconds
      ensures !(g.Some? && g.value.currentQuestionIndex >= 0 && !answered) ==> timeSpent == old(timeSpent)
    {
      if g.Some? && g.value.currentQuestionIndex >= 0 && !answered {
        timeSpent := timeSpent + TickSeconds;
      }
    }

    /**
     * `handleAnswerSelect`: ignored once answered; the first choice is
     * recorded, judged locally, and submitted with the seconds spent. Only
     * the session's players change in the provider; the provider's current
     * player is left as it was.
     */
    method AnswerSelect(provider: QuizContext.QuizProvider, answerId: string)
      requires Valid() && provider.Valid()
      requires provider.gameState.Some? && provider.currentPlayer.Some?
      requires SessionTimeLimitsPositive(provider.gameState)
      modifies this, provider`gameState
      ensures Valid() && provider.Valid() && SessionTimeLimitsPositive(provider.gameState)
      ensures provider.currentPlayer == old(provider.currentPlayer)
      ensures timeSpent == old(timeSpent)
      ensures old(answered) ==>
                provider.gameState == old(provider.gameState) &&
                selectedAnswer == old(selectedAnswer) && answered && lastResult == old(lastResult)
      ensures !old(answered) ==>
                && selectedAnswer == Some(answerId) && answered
                && lastResult == Some(LocalVerdict(CurrentQuestion(old(provider.gameState.value)), answerId))
                && provider.gameState == QuizContext.Submit(old(provider.gameState), provider.currentPlayer.value.id, answerId, timeSpent)
    {
      if answered {
        return;
      }
      selectedAnswer := Some(answerId);
      answered := true;
      lastResult := Some(LocalVerdict(CurrentQuestion(provider.gameState.value), answerId));
      provider.SubmitAnswer(provider.currentPlayer.value.id, answerId, timeSpent);
    }
  }
}
