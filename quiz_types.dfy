/**
 * The quiz data model: answers, questions, quizzes, players and the state
 * of one running game session.
 */
module QuizTypes {
  import opened JsArray

  datatype QuestionType = MultipleChoice | Ordering

  /**
   * One answer of a question. The optional `isCorrect` flag is a plain
   * boolean here (an absent flag reads as false everywhere it is used), and
   * `order` is the 1-based position the editor assigns.
   */
  datatype Answer = Answer(id: string, text: string, isCorrect: bool, order: int)

  /** One question; `kind` is the question's `type` field. */
  datatype Question = Question(
    id: string,
    kind: QuestionType,
    text: string,
    mediaUrl: Option<string>,
    answers: seq<Answer>,
    timeLimit: int,   // seconds
    points: int)

  datatype Quiz = Quiz(id: string, title: string, questions: seq<Question>)

  datatype Player = Player(id: string, nickname: string, score: int, currentStreak: int)

  /**
   * A live session. `currentQuestionIndex` is -1 in the lobby and otherwise
   * the index of the question being played.
   */
  datatype GameState = GameState(
    quiz: Option<Quiz>,
    currentQuestionIndex: int,
    players: seq<Player>,
    isActive: bool,
    gameCode: string,
    timeRemaining: int)

  /** `quiz.questions[index]`, which is `undefined` (None) off either end. */
  function QuestionAt(quiz: Quiz, index: int): (r: Option<Question>)
    ensures r.Some? <==> 0 <= index < |quiz.questions|
    ensures r.Some? ==> r.value == quiz.questions[index]
  {
    if 0 <= index < |quiz.questions| then Some(quiz.questions[index]) else None
  }

  /** The question a session is on, if it has a quiz and the index is in range. */
  function CurrentQuestion(g: GameState): (r: Option<Question>)
    ensures r.Some? <==> g.quiz.Some? && 0 <= g.currentQuestionIndex < |g.quiz.value.questions|
  {
    if g.quiz.None? then None else QuestionAt(g.quiz.value, g.currentQuestionIndex)
  }

  /** Every question of the quiz has a positive time limit. */
  predicate PositiveTimeLimits(quiz: Quiz)
  {
    forall i :: 0 <= i < |quiz.questions| ==> quiz.questions[i].timeLimit > 0
  }

  /** A session whose quiz, if any, has only positive time limits. */
  predicate SessionTimeLimitsPositive(g: Option<GameState>)
  {
    g.Some? && g.value.quiz.Some? ==> PositiveTimeLimits(g.value.quiz.value)
  }
}
