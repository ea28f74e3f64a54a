/**
 * The in-memory quiz provider: the quiz being edited, the running game
 * session and the current player, together with the rules that turn an
 * answer into a verdict, a time-bonus award and a streak update, and that
 * move the session from the lobby through the questions to game over.
 *
 * Each session operation is a pure transition (Join, Submit, Next); the
 * QuizProvider class holds the three pieces of state and replaces them
 * with the transition's result, as the provider's `setState` calls do.
 */
module QuizContext {
  import opened JsArray
  import opened QuizTypes

  // ---------------------------------------------------------------------
  // Quiz editing

  /** `Partial<Question>`: every present field overrides the question's. */
  datatype QuestionUpdate = QuestionUpdate(
    id: Option<string>,
    kind: Option<QuestionType>,
    text: Option<string>,
    mediaUrl: Option<string>,
    answers: Option<seq<Answer>>,
    timeLimit: Option<int>,
    points: Option<int>)

  /** The update that changes nothing. */
  const NoChange := QuestionUpdate(None, None, None, None, None, None, None)

  /** The update `{ answers }` that the question editor sends. */
  function AnswersUpdate(answers: seq<Answer>): QuestionUpdate
  {
    NoChange.(answers := Some(answers))
  }

  function OrElse<T>(o: Option<T>, default: T): T
  {
    if o.Some? then o.value else default
  }

  /** `{ ...q, ...u }`. */
  function Merge(q: Question, u: QuestionUpdate): Question
  {
    Question(
      OrElse(u.id, q.id),
      OrElse(u.kind, q.kind),
      OrElse(u.text, q.text),
      if u.mediaUrl.Some? then u.mediaUrl else q.mediaUrl,
      OrElse(u.answers, q.answers),
      OrElse(u.timeLimit, q.timeLimit),
      OrElse(u.points, q.points))
  }

  /** Merging an update twice is merging it once, and an empty update is the identity. */
  lemma MergeIdempotent(q: Question, u: QuestionUpdate)
    ensures Merge(Merge(q, u), u) == Merge(q, u)
    ensures Merge(q, NoChange) == q
  {
  }

  /** `questions.map(q => q.id === questionId ? { ...q, ...updates } : q)`. */
  function UpdatedQuestions(qs: seq<Question>, questionId: string, u: QuestionUpdate): (r: seq<Question>)
    ensures |r| == |qs|
    ensures forall i :: 0 <= i < |qs| && qs[i].id == questionId ==> r[i] == Merge(qs[i], u)
    ensures forall i :: 0 <= i < |qs| && qs[i].id != questionId ==> r[i] == qs[i]
  {
    Map(qs, (q: Question) => if q.id == questionId then Merge(q, u) else q)
  }

  /** `questions.filter(q => q.id !== questionId)`. */
  function DeletedQuestions(qs: seq<Question>, questionId: string): (r: seq<Question>)
    ensures forall i :: 0 <= i < |r| ==> r[i].id != questionId && r[i] in qs
    ensures forall i :: 0 <= i < |qs| && qs[i].id != questionId ==> qs[i] in r
    ensures (forall i :: 0 <= i < |qs| ==> qs[i].id != questionId) ==> r == qs
  {
    Filter(qs, (q: Question) => q.id != questionId)
  }

  /** How many questions carry the id. */
  function CountWithId(qs: seq<Question>, questionId: string): nat
  {
    if |qs| == 0 then 0
    else (if qs[0].id == questionId then 1 else 0) + CountWithId(qs[1..], questionId)
  }

  /** Deleting removes exactly the questions with that id and keeps the rest in order. */
  lemma {:induction false} DeletedQuestionsExactly(qs: seq<Question>, questionId: string)
    ensures |DeletedQuestions(qs, questionId)| == |qs| - CountWithId(qs, questionId)
    ensures DeletedQuestions(qs, questionId) ==
            if |qs| == 0 then []
            else if qs[0].id == questionId then DeletedQuestions(qs[1..], questionId)
            else [qs[0]] + DeletedQuestions(qs[1..], questionId)
  {
    if |qs| > 0 {
      DeletedQuestionsExactly(qs[1..], questionId);
    }
  }

  // ---------------------------------------------------------------------
  // Scoring

  /** `Math.round`: the nearest integer, with halves rounded up. */
  function Round(x: real): (r: int)
    ensures x - 0.5 < r as real <= x + 0.5
  {
    (x + 0.5).Floor
  }

  lemma RoundMonotone(x: real, y: real)
    requires x <= y
    ensures Round(x) <= Round(y)
  {
  }

  lemma RoundOfInteger(n: int)
    ensures Round(n as real) == n
  {
  }

  /**
   * `Math.max(0, (timeLimit - timeSpent) / timeLimit)`: 1 for an instant
   * answer, falling linearly to 0 at the time limit.
   */
  function TimeBonus(timeLimit: int, timeSpent: real): (b: real)
    requires timeLimit > 0
    ensures b >= 0.0
    ensures timeSpent >= 0.0 ==> b <= 1.0
    ensures timeSpent >= timeLimit as real ==> b == 0.0
    ensures timeSpent <= timeLimit as real ==> b * timeLimit as real == timeLimit as real - timeSpent
  {
    var raw := (timeLimit as real - timeSpent) / timeLimit as real;
    if raw > 0.0 then raw else 0.0
  }

  /** The bonus never grows as more time is spent. */
  lemma TimeBonusNonIncreasing(timeLimit: int, t1: real, t2: real)
    requires timeLimit > 0 && t1 <= t2
    ensures TimeBonus(timeLimit, t2) <= TimeBonus(timeLimit, t1)
  {
    var l := timeLimit as real;
    assert (l - t2) / l <= (l - t1) / l by {
      assert (l - t1) / l - (l - t2) / l == (t2 - t1) / l;
    }
  }

  /**
   * The verdict for a submission: only a multiple-choice question can be
   * answered correctly, by naming an answer whose flag is set (the first
   * answer with that id is the one consulted). An unknown id, and any
   * ordering question, is incorrect.
   */
  function IsCorrect(q: Question, answerId: string): (r: bool)
    ensures r <==> q.kind == MultipleChoice &&
                   exists i :: 0 <= i < |q.answers| && q.answers[i].id == answerId && q.answers[i].isCorrect &&
                               forall k :: 0 <= k < i ==> q.answers[k].id != answerId
  {
    if q.kind == MultipleChoice then
      var a := Find(q.answers, (a: Answer) => a.id == answerId);
      a.Some? && a.value.isCorrect
    else false
  }

  /** `isCorrect ? Math.round(points * (0.5 + 0.5 * timeBonus)) : 0`. */
  function PointsEarned(q: Question, isCorrect: bool, timeSpent: real): (pts: int)
    requires q.timeLimit > 0
    ensures !isCorrect ==> pts == 0
  {
    if isCorrect then Round(q.points as real * (0.5 + 0.5 * TimeBonus(q.timeLimit, timeSpent))) else 0
  }

  /** A share `b` in [0, 1] of a non-negative amount `h` lies between 0 and `h`. */
  lemma ShareOf(h: real, b: real)
    requires h >= 0.0 && 0.0 <= b <= 1.0
    ensures 0.0 <= h * b <= h
  {
    assert h * b + h * (1.0 - b) == h;
    assert h * (1.0 - b) >= 0.0;
  }

  /**
   * Half the points plus a share `b` in [0, 1] of the other half, rounded,
   * lies between half the points, rounded, and all of them.
   */
  lemma RoundedShareBounds(points: int, b: real)
    requires points >= 0 && 0.0 <= b <= 1.0
    ensures Round(points as real / 2.0) <= Round(points as real * (0.5 + 0.5 * b)) <= points
  {
    var p := points as real;
    var h := p / 2.0;
    var x := p * (0.5 + 0.5 * b);
    assert x == h + h * b;
    ShareOf(h, b);
    RoundMonotone(h, x);
    RoundMonotone(x, p);
    RoundOfInteger(points);
  }

  /** A correct answer given at or after the start earns between half and all of the points. */
  lemma AwardBounds(q: Question, timeSpent: real)
    requires q.timeLimit > 0 && q.points >= 0 && timeSpent >= 0.0
    ensures Round(q.points as real / 2.0) <= PointsEarned(q, true, timeSpent) <= q.points
  {
    RoundedShareBounds(q.points, TimeBonus(q.timeLimit, timeSpent));
  }

  /** Answering later never earns more. */
  lemma AwardNonIncreasing(q: Question, t1: real, t2: real)
    requires q.timeLimit > 0 && q.points >= 0 && t1 <= t2
    ensures PointsEarned(q, true, t2) <= PointsEarned(q, true, t1)
  {
    var p := q.points as real;
    var b1 := TimeBonus(q.timeLimit, t1);
    var b2 := TimeBonus(q.timeLimit, t2);
    TimeBonusNonIncreasing(q.timeLimit, t1, t2);
    assert p * (0.5 + 0.5 * b2) <= p * (0.5 + 0.5 * b1) by {
      assert p * (0.5 + 0.5 * b1) - p * (0.5 + 0.5 * b2) == (p / 2.0) * (b1 - b2);
    }
    RoundMonotone(p * (0.5 + 0.5 * b2), p * (0.5 + 0.5 * b1));
  }

  /** For a question worth at least one point, points are earned exactly when the answer is correct. */
  lemma PointsPositiveIffCorrect(q: Question, isCorrect: bool, timeSpent: real)
    requires q.timeLimit > 0 && q.points > 0 && timeSpent >= 0.0
    ensures PointsEarned(q, isCorrect, timeSpent) > 0 <==> isCorrect
  {
    if isCorrect {
      AwardBounds(q, timeSpent);
    }
  }

  /** 1000 points, 20 seconds, answered after 5: a bonus of 0.75 and an award of 875. */
  lemma AwardExample()
    ensures TimeBonus(20, 5.0) == 0.75
    ensures PointsEarned(Question("q", MultipleChoice, "", None, [], 20, 1000), true, 5.0) == 875
  {
  }

  /** The streak rule: a correct answer extends the streak, anything else resets it. */
  function Scored(p: Player, isCorrect: bool, pts: int): Player
  {
    p.(score := p.score + pts, currentStreak := if isCorrect then p.currentStreak + 1 else 0)
  }

  /** `players.map(p => p.id === playerId ? scored(p) : p)`. */
  function ScoredPlayers(players: seq<Player>, playerId: string, isCorrect: bool, pts: int): (r: seq<Player>)
    ensures |r| == |players|
    ensures forall i :: 0 <= i < |players| && players[i].id == playerId ==> r[i] == Scored(players[i], isCorrect, pts)
    ensures forall i :: 0 <= i < |players| && players[i].id != playerId ==> r[i] == players[i]
  {
    Map(players, (p: Player) => if p.id == playerId then Scored(p, isCorrect, pts) else p)
  }

  /** Replaying a series of (verdict, points) outcomes on one player, oldest first. */
  function Replay(p: Player, outcomes: seq<(bool, int)>): Player
    decreases |outcomes|
  {
    if |outcomes| == 0 then p
    else
      var last := outcomes[|outcomes| - 1];
      Scored(Replay(p, outcomes[..|outcomes| - 1]), last.0, last.1)
  }

  /** The number of correct outcomes at the end of the series. */
  function TrailingCorrect(outcomes: seq<(bool, int)>): nat
    decreases |outcomes|
  {
    if |outcomes| == 0 || !outcomes[|outcomes| - 1].0 then 0
    else TrailingCorrect(outcomes[..|outcomes| - 1]) + 1
  }

  function TotalPoints(outcomes: seq<(bool, int)>): int
    decreases |outcomes|
  {
    if |outcomes| == 0 then 0 else TotalPoints(outcomes[..|outcomes| - 1]) + outcomes[|outcomes| - 1].1
  }

  predicate AllCorrect(outcomes: seq<(bool, int)>)
  {
    forall i :: 0 <= i < |outcomes| ==> outcomes[i].0
  }

  /**
   * After any series of outcomes the score has grown by their points, and
   * the streak counts the trailing correct answers, continuing the old
   * streak only if every answer in the series was correct.
   */
  lemma {:induction false} ReplayStreakAndScore(p: Player, outcomes: seq<(bool, int)>)
    ensures Replay(p, outcomes).score == p.score + TotalPoints(outcomes)
    ensures Replay(p, outcomes).currentStreak ==
            if AllCorrect(outcomes) then p.currentStreak + |outcomes| else TrailingCorrect(outcomes)
    ensures Replay(p, outcomes).id == p.id && Replay(p, outcomes).nickname == p.nickname
    decreases |outcomes|
  {
    if |outcomes| > 0 {
      var init := outcomes[..|outcomes| - 1];
      ReplayStreakAndScore(p, init);
      if AllCorrect(init) && outcomes[|outcomes| - 1].0 {
        assert AllCorrect(outcomes);
      } else if !AllCorrect(init) {
        var i :| 0 <= i < |init| && !init[i].0;
        assert !outcomes[i].0;
      }
    }
  }

  // ---------------------------------------------------------------------
  // Session transitions

  /**
   * `joinGame`: succeeds exactly when there is a session, its code is the
   * one given and it is active (a session past the lobby still accepts
   * players); the new player is appended with a score and streak of 0.
   */
  function Join(g: Option<GameState>, code: string, nickname: string, newId: string): (r: Option<GameState>)
    ensures r.Some? <==> g.Some? && g.value.gameCode == code && g.value.isActive
    ensures r.Some? ==> r.value.(players := g.value.players) == g.value
    ensures r.Some? ==> |r.value.players| == |g.value.players| + 1
    ensures r.Some? ==> r.value.players[..|g.value.players|] == g.value.players
    ensures r.Some? ==> r.value.players[|g.value.players|] == Player(newId, nickname, 0, 0)
  {
    if g.Some? && g.value.gameCode == code && g.value.isActive then
      Some(g.value.(players := g.value.players + [Player(newId, nickname, 0, 0)]))
    else None
  }

  /**
   * `submitAnswer`: scores the current question for every player with the
   * id. Nothing happens without a session, a quiz or a question at the
   * current index; otherwise only the players change. There is no guard
   * against a second submission (see SubmitTwiceScoresTwice).
   */
  function Submit(g: Option<GameState>, playerId: string, answerId: string, timeSpent: real): (r: Option<GameState>)
    requires SessionTimeLimitsPositive(g)
    ensures g.None? || CurrentQuestion(g.value).None? ==> r == g
    ensures r.Some? <==> g.Some?
    ensures r.Some? ==> r.value.(players := g.value.players) == g.value
    ensures r.Some? ==> |r.value.players| == |g.value.players|
    ensures r.Some? ==> forall i :: 0 <= i < |g.value.players| && g.value.players[i].id != playerId ==>
                                    r.value.players[i] == g.value.players[i]
  {
    if g.None? then g
    else
      var cq := CurrentQuestion(g.value);
      if cq.None? then g
      else
        var q := cq.value;
        assert q in g.value.quiz.value.questions;
        var ok := IsCorrect(q, answerId);
        Some(g.value.(players := ScoredPlayers(g.value.players, playerId, ok, PointsEarned(q, ok, timeSpent))))
  }

  /** What Submit does to the named player: its score grows by the award and its streak follows the verdict. */
  lemma SubmitScoresNamedPlayer(g: GameState, playerId: string, answerId: string, timeSpent: real, i: int)
    requires SessionTimeLimitsPositive(Some(g)) && CurrentQuestion(g).Some?
    requires 0 <= i < |g.players| && g.players[i].id == playerId
    ensures CurrentQuestion(g).value.timeLimit > 0
    ensures var q := CurrentQuestion(g).value;
            var ok := IsCorrect(q, answerId);
            var p := Submit(Some(g), playerId, answerId, timeSpent).value.players[i];
            p.score == g.players[i].score + PointsEarned(q, ok, timeSpent) &&
            p.currentStreak == (if ok then g.players[i].currentStreak + 1 else 0) &&
            p.id == playerId && p.nickname == g.players[i].nickname
  {
    assert CurrentQuestion(g).value in g.quiz.value.questions;
  }

  /** An ordering question is always incorrect: the player's streak resets and the score stays. */
  lemma OrderingNeverScores(g: GameState, playerId: string, answerId: string, timeSpent: real, i: int)
    requires SessionTimeLimitsPositive(Some(g)) && CurrentQuestion(g).Some?
    requires CurrentQuestion(g).value.kind == Ordering
    requires 0 <= i < |g.players| && g.players[i].id == playerId
    ensures Submit(Some(g), playerId, answerId, timeSpent).value.players[i] == g.players[i].(currentStreak := 0)
  {
    SubmitScoresNamedPlayer(g, playerId, answerId, timeSpent, i);
  }

  /** Submitting the same correct answer twice awards it twice: the provider keeps no record of submissions. */
  lemma SubmitTwiceScoresTwice(g: GameState, playerId: string, answerId: string, timeSpent: real, i: int)
    requires SessionTimeLimitsPositive(Some(g)) && CurrentQuestion(g).Some?
    requires IsCorrect(CurrentQuestion(g).value, answerId)
    requires 0 <= i < |g.players| && g.players[i].id == playerId
    ensures CurrentQuestion(g).value.timeLimit > 0
    ensures var once := Submit(Some(g), playerId, answerId, timeSpent);
            var twice := Submit(once, playerId, answerId, timeSpent);
            twice.value.players[i].score == g.players[i].score + 2 * PointsEarned(CurrentQuestion(g).value, true, timeSpent) &&
            twice.value.players[i].currentStreak == g.players[i].currentStreak + 2
  {
    var once := Submit(Some(g), playerId, answerId, timeSpent);
    SubmitScoresNamedPlayer(g, playerId, answerId, timeSpent, i);
    assert CurrentQuestion(once.value) == CurrentQuestion(g);
    SubmitScoresNamedPlayer(once.value, playerId, answerId, timeSpent, i);
  }

  /**
   * `nextQuestion`: with a quiz, move to the next question and load its
   * time limit, or, after the last question, end the game and keep the
   * index. Players, quiz and code never change.
   */
  function Next(g: Option<GameState>): (r: Option<GameState>)
    requires g.Some? ==> g.value.currentQuestionIndex >= -1
    ensures r.Some? <==> g.Some?
    ensures g.Some? && g.value.quiz.None? ==> r == g
    ensures g.Some? ==> r.value.players == g.value.players && r.value.quiz == g.value.quiz &&
                        r.value.gameCode == g.value.gameCode
    ensures g.Some? && g.value.quiz.Some? ==>
              var i := g.value.currentQuestionIndex;
              var qs := g.value.quiz.value.questions;
              var advance := i + 1 < |qs|;
              && r.value.currentQuestionIndex == (if advance then i + 1 else i)
              && r.value.isActive == (advance && g.value.isActive)
              && r.value.timeRemaining == (if advance then qs[i + 1].timeLimit else g.value.timeRemaining)
  {
    if g.None? || g.value.quiz.None? then g
    else
      var nextIndex := g.value.currentQuestionIndex + 1;
      var qs := g.value.quiz.value.questions;
      if nextIndex < |qs| then
        Some(g.value.(currentQuestionIndex := nextIndex, timeRemaining := qs[nextIndex].timeLimit))
      else
        Some(g.value.(isActive := false))
  }

  /** `nextQuestion` applied k times. */
  function NextTimes(g: Option<GameState>, k: nat): (r: Option<GameState>)
    requires g.Some? ==> g.value.currentQuestionIndex >= -1
    ensures r.Some? <==> g.Some?
    ensures r.Some? ==> r.value.currentQuestionIndex >= -1
    decreases k
  {
    if k == 0 then g else Next(NextTimes(g, k - 1))
  }

  /**
   * From the lobby of an active session with n questions, k presses of
   * "next" reach question min(k, n) - 1, one index at a time without
   * skipping or going back, and the game is over exactly when k > n.
   */
  lemma {:induction false} ProgressionFromLobby(g: GameState, k: nat)
    requires g.quiz.Some? && g.currentQuestionIndex == -1 && g.isActive
    ensures var r := NextTimes(Some(g), k).value;
            var n := |g.quiz.value.questions|;
            && r.currentQuestionIndex == (if k < n then k else n) - 1
            && r.isActive == (k <= n)
            && r.players == g.players && r.quiz == g.quiz
    decreases k
  {
    if k > 0 {
      ProgressionFromLobby(g, k - 1);
    }
  }

  /** Once the game is over at the last question, "next" changes nothing. */
  lemma FinishedIsFinal(g: GameState)
    requires g.quiz.Some? && !g.isActive && g.currentQuestionIndex >= -1
    requires g.currentQuestionIndex + 1 >= |g.quiz.value.questions|
    ensures Next(Some(g)) == Some(g)
  {
  }

  // ---------------------------------------------------------------------
  // The provider

  class QuizProvider {
    var currentQuiz: Option<Quiz>
    var gameState: Option<GameState>
    var currentPlayer: Option<Player>

    /** A session's index is never below the lobby's -1. */
    ghost predicate Valid()
      reads this
    {
      gameState.Some? ==> gameState.value.currentQuestionIndex >= -1
    }

    constructor ()
      ensures Valid()
      ensures currentQuiz == None && gameState == None && currentPlayer == None
    {
      currentQuiz, gameState, currentPlayer := None, None, None;
    }

    /** `setCurrentQuiz`. */
    method SetCurrentQuiz(quiz: Option<Quiz>)
      modifies this`currentQuiz
      ensures currentQuiz == quiz
    {
      currentQuiz := quiz;
    }

    /** `setCurrentPlayer`. */
    method SetCurrentPlayer(player: Option<Player>)
      modifies this`currentPlayer
      ensures currentPlayer == player
    {
      currentPlayer := player;
    }

    /** `addQuestion`: append to the current quiz, if there is one. */
    method AddQuestion(question: Question)
      modifies this`currentQuiz
      ensures old(currentQuiz).None? ==> currentQuiz == None
      ensures old(currentQuiz).Some? ==>
                currentQuiz == Some(old(currentQuiz).value.(questions := old(currentQuiz).value.questions + [question]))
    {
      if currentQuiz.Some? {
        currentQuiz := Some(currentQuiz.value.(questions := currentQuiz.value.questions + [question]));
      }
    }

    /** `updateQuestion`: merge the update into every question with the id. */
    method UpdateQuestion(questionId: string, updates: QuestionUpdate)
      modifies this`currentQuiz
      ensures old(currentQuiz).None? ==> currentQuiz == None
      ensures old(currentQuiz).Some? ==>
                currentQuiz == Some(old(currentQuiz).value.(questions := UpdatedQuestions(old(currentQuiz).value.questions, questionId, updates)))
    {
      if currentQuiz.Some? {
        currentQuiz := Some(currentQuiz.value.(questions := UpdatedQuestions(currentQuiz.value.questions, questionId, updates)));
      }
    }

    /** `deleteQuestion`: drop every question with the id. */
    method DeleteQuestion(questionId: string)
      modifies this`currentQuiz
      ensures old(currentQuiz).None? ==> currentQuiz == None
      ensures old(currentQuiz).Some? ==>
                currentQuiz == Some(old(currentQuiz).value.(questions := DeletedQuestions(old(currentQuiz).value.questions, questionId)))
    {
      if currentQuiz.Some? {
        currentQuiz := Some(currentQuiz.value.(questions := DeletedQuestions(currentQuiz.value.questions, questionId)));
      }
    }

    /**
     * `startGame`: open a session for the quiz in the lobby, with no players,
     * active, no time on the clock, under the freshly generated code, and
     * return that code.
     */
    method StartGame(quiz: Quiz, generatedCode: string) returns (code: string)
      modifies this`gameState
      ensures Valid()
      ensures gameState == Some(GameState(Some(quiz), -1, [], true, generatedCode, 0))
      ensures code == gameState.value.gameCode
    {
      gameState := Some(GameState(Some(quiz), -1, [], true, generatedCode, 0));
      code := generatedCode;
    }

    /** `joinGame`: the new player on success, and no change to the session on failure. */
    method JoinGame(code: string, nickname: string, generatedId: string) returns (player: Option<Player>)
      requires Valid()
      modifies this`gameState
      ensures Valid()
      ensures player.Some? <==> Join(old(gameState), code, nickname, generatedId).Some?
      ensures player.Some? ==> player.value == Player(generatedId, nickname, 0, 0) &&
                               gameState == Join(old(gameState), code, nickname, generatedId)
      ensures player.None? ==> gameState == old(gameState)
    {
      var joined := Join(gameState, code, nickname, generatedId);
      if joined.Some? {
        gameState := joined;
        player := Some(Player(generatedId, nickname, 0, 0));
      } else {
        player := None;
      }
    }

    /** `submitAnswer`. */
    method SubmitAnswer(playerId: string, answerId: string, timeSpent: real)
      requires Valid() && SessionTimeLimitsPositive(gameState)
      modifies this`gameState
      ensures Valid() && SessionTimeLimitsPositive(gameState)
      ensures gameState == Submit(old(gameState), playerId, answerId, timeSpent)
    {
      gameState := Submit(gameState, playerId, answerId, timeSpent);
    }

    /** `nextQuestion`. */
    method NextQuestion()
      requires Valid()
      modifies this`gameState
      ensures Valid()
      ensures gameState == Next(old(gameState))
    {
      gameState := Next(gameState);
    }
  }
}
