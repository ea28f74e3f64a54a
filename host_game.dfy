/**
 * The host's screen: the lobby with the join code, the question being
 * played with its countdown and, once the clock runs out, its results, and
 * the final board. The countdown and the results flag are the page's own
 * state; the session itself lives in the provider.
 */
module HostGame {
  import opened JsArray
  import opened QuizTypes
  import QuizContext
  import Leaderboard

  /** The number of rows on the final board. */
  const FinalBoardSize := 5

  /**
   * One tick of the one-second countdown: the clock loses a second and
   * never goes below zero, and the results are revealed exactly on the
   * tick that leaves zero on the clock.
   */
  function Tick(prev: int): (r: (int, bool))
    ensures r.0 >= 0
    ensures r.0 == if prev - 1 > 0 then prev - 1 else 0
    ensures r.1 <==> r.0 == 0
  {
    if prev <= 1 then (0, true) else (prev - 1, false)
  }

  /** `k` ticks in a row, each applied only while the clock is still running. */
  function TickTimes(t: int, k: nat): int
    decreases k
  {
    if k == 0 || t <= 0 then t else TickTimes(Tick(t).0, k - 1)
  }

  /**
   * From `t` seconds on the clock, `k` ticks leave `max(0, t - k)`; the
   * clock reaches zero after exactly `t` ticks.
   */
  lemma {:induction false} TickTimesCountsDown(t: int, k: nat)
    requires t >= 0
    ensures TickTimes(t, k) == if t - k > 0 then t - k else 0
    decreases k
  {
    if k > 0 && t > 0 {
      TickTimesCountsDown(Tick(t).0, k - 1);
    }
  }

  /** The countdown runs while a question is on and time is left. */
  predicate TimerRunning(g: Option<GameState>, timeLeft: int)
  {
    g.Some? && g.value.currentQuestionIndex >= 0 && timeLeft > 0
  }

  /** What the host page renders. */
  datatype HostScreen = Nothing | Lobby | GameOver | QuestionView(showResults: bool)

  /**
   * The page renders nothing without a session or quiz, then checks the
   * lobby first, then game over, and otherwise shows the current question
   * with or without its results.
   */
  function ScreenOf(g: Option<GameState>, showResults: bool): (s: HostScreen)
    ensures s == Nothing <==> g.None? || g.value.quiz.None?
    ensures s == Lobby <==> g.Some? && g.value.quiz.Some? && g.value.currentQuestionIndex == -1
    ensures s == GameOver <==> g.Some? && g.value.quiz.Some? && g.value.currentQuestionIndex != -1 && !g.value.isActive
    ensures s.QuestionView? <==> g.Some? && g.value.quiz.Some? && g.value.currentQuestionIndex != -1 && g.value.isActive
    ensures s.QuestionView? ==> s.showResults == showResults
  {
    if g.None? || g.value.quiz.None? then Nothing
    else if g.value.currentQuestionIndex == -1 then Lobby
    else if !g.value.isActive then GameOver
    else QuestionView(showResults)
  }

  /** "Start Quiz" is enabled only once a player has joined. */
  predicate StartEnabled(g: GameState)
  {
    |g.players| > 0
  }

  /** `[...players].sort((a, b) => b.score - a.score).slice(0, 5)`. */
  function FinalBoard(players: seq<Player>): (r: seq<Player>)
    ensures |r| == if |players| < FinalBoardSize then |players| else FinalBoardSize
    ensures forall i :: 0 <= i < |r| ==> r[i] in players
    ensures forall i, j :: 0 <= i < j < |r| ==> r[i].score >= r[j].score
  {
    var sorted := Leaderboard.SortedPlayers(players);
    var r := Take(sorted, FinalBoardSize);
    assert forall i :: 0 <= i < |r| ==> r[i] == sorted[i] && r[i] in multiset(players);
    r
  }

  /** A player left off the final board scored no more than anyone on it. */
  lemma FinalBoardLeavesOutOnlyLower(players: seq<Player>, k: nat, i: nat)
    requires k < |players| && players[k] !in FinalBoard(players)
    requires i < |FinalBoard(players)|
    ensures players[k].score <= FinalBoard(players)[i].score
  {
    var sorted := Leaderboard.SortedPlayers(players);
    var r := FinalBoard(players);
    assert players[k] in multiset(sorted);
    var p :| 0 <= p < |sorted| && sorted[p] == players[k];
    assert r[i] == sorted[i];
    assert p >= |r|;
  }

  /** The host's final board is the leaderboard panel's default top rows. */
  lemma FinalBoardIsDefaultTop(players: seq<Player>)
    ensures FinalBoard(players) == Leaderboard.TopPlayers(players, None)
  {
  }

  /**
   * Starting from the lobby moves to question 0 when the quiz has one; a
   * quiz without questions ends the session but leaves the index at -1,
   * so the host stays on the lobby screen of an inactive session.
   */
  lemma StartFromLobby(g: GameState)
    requires g.quiz.Some? && g.currentQuestionIndex == -1 && g.isActive
    ensures var n := QuizContext.Next(Some(g)).value;
            if |g.quiz.value.questions| > 0 then
              n.currentQuestionIndex == 0 && n.isActive && ScreenOf(Some(n), false) == QuestionView(false)
            else
              n.currentQuestionIndex == -1 && !n.isActive && ScreenOf(Some(n), false) == Lobby
  {
  }

  /** The host page's own state. */
  class HostPage {
    var timeLeft: int
    var showResults: bool

    /** The clock never shows a negative time. */
    ghost predicate Valid()
      reads this
    {
      timeLeft >= 0
    }

    constructor ()
      ensures Valid() && timeLeft == 0 && !showResults
    {
      timeLeft, showResults := 0, false;
    }

    /**
     * One firing of the interval: nothing unless the timer runs; otherwise
     * the clock ticks and the results are revealed when it hits zero.
     */
    method TimerTick(g: Option<GameState>)
      requires Valid()
      modifies this
      ensures Valid()
      ensures !TimerRunning(g, old(timeLeft)) ==> timeLeft == old(timeLeft) && showResults == old(showResults)
      ensures TimerRunning(g, old(timeLeft)) ==>
                timeLeft == Tick(old(timeLeft)).0 &&
                showResults == (old(showResults) || Tick(old(timeLeft)).1)
    {
      if TimerRunning(g, timeLeft) {
        var step := Tick(timeLeft);
        timeLeft := step.0;
        if step.1 {
          showResults := true;
        }
      }
    }

    /**
     * `handleStartQuiz`, on the lobby screen with a player in it: advance the
     * session, hide the results and load question 0's time, which is the
     * session's own time remaining.
     */
    method StartQuiz(provider: QuizContext.QuizProvider)
      requires Valid() && provider.Valid()
      requires provider.gameState.Some? && SessionTimeLimitsPositive(provider.gameState)
      requires ScreenOf(provider.gameState, showResults) == Lobby && StartEnabled(provider.gameState.value)
      modifies this, provider`gameState
      ensures Valid() && provider.Valid()
      ensures provider.gameState == QuizContext.Next(old(provider.gameState))
      ensures !showResults
      ensures var qs := old(provider.gameState.value.quiz.value.questions);
              timeLeft == if |qs| > 0 then qs[0].timeLimit else old(timeLeft)
      ensures |provider.gameState.value.quiz.value.questions| > 0 ==>
                provider.gameState.value.currentQuestionIndex == 0 &&
                timeLeft == provider.gameState.value.timeRemaining
    {
      var quiz := provider.gameState.value.quiz.value;
      provider.NextQuestion();
      showResults := false;
      if |quiz.questions| > 0 {
        timeLeft := quiz.questions[0].timeLimit;
      }
    }

    /**
     * `handleNextQuestion`, on the results of a question: hide the results,
     * advance the session, and load the next question's time when there is
     * one; after the last question the session ends and the clock is kept.
     */
    method NextQuestion(provider: QuizContext.QuizProvider)
      requires Valid() && provider.Valid()
      requires provider.gameState.Some? && SessionTimeLimitsPositive(provider.gameState)
      requires ScreenOf(provider.gameState, showResults) == QuestionView(true)
      modifies this, provider`gameState
      ensures Valid() && provider.Valid()
      ensures provider.gameState == QuizContext.Next(old(provider.gameState))
      ensures !showResults
      ensures var qs := old(provider.gameState.value.quiz.value.questions);
              var i := old(provider.gameState.value.currentQuestionIndex);
              timeLeft == if i + 1 < |qs| then qs[i + 1].timeLimit else old(timeLeft)
      ensures provider.gameState.value.isActive ==> timeLeft == provider.gameState.value.timeRemaining
      ensures !provider.gameState.value.isActive ==> ScreenOf(provider.gameState, showResults) == GameOver
    {
      var quiz := provider.gameState.value.quiz.value;
      var i := provider.gameState.value.currentQuestionIndex;
      showResults := false;
      provider.NextQuestion();
      if i + 1 < |quiz.questions| {
        timeLeft := quiz.questions[i + 1].timeLimit;
      }
    }
  }
}
