/**
 * The join form: the player types a game PIN, which is checked and looked
 * up, and then a nickname, which is checked and submitted. The lookup of
 * the PIN in the game table is an input: the game row found for the PIN,
 * if any. The table is searched with the box's text as typed, untrimmed and
 * upper-cased, among active games only; so a PIN with a trailing space
 * passes the length check and is then looked up with the space.
 */
module JoinGame {
  import opened JsArray
  import opened JsString

  /** The input boxes' `maxLength`s and the shortest code and nickname accepted. */
  const CodeMaxLength: nat := 8
  const NicknameMaxLength: nat := 15
  const CodeMinLength := 4
  const NicknameMinLength := 2

  /** The part of a game row the form reads. */
  datatype GameRow = GameRow(id: string, currentQuestionIndex: int)

  datatype Step = CodeStep | NicknameStep

  /** At least `n` characters are left once `s` is trimmed. */
  predicate TrimmedAtLeast(s: string, n: int)
  {
    |Trim(s)| >= n
  }

  /** The outcome of submitting the PIN. */
  datatype CodeOutcome = InvalidCode | NotFound | AlreadyStarted | Proceed(gameId: string)

  /**
   * `handleCodeSubmit`: a PIN shorter than four characters once trimmed is
   * refused before any lookup; then a missing game, then a game whose
   * index has left the lobby; otherwise the form moves on with the game's id.
   */
  function CodeDecision(gameCode: string, lookup: Option<GameRow>): (r: CodeOutcome)
    ensures r == InvalidCode <==> !TrimmedAtLeast(gameCode, CodeMinLength)
    ensures r == NotFound <==> TrimmedAtLeast(gameCode, CodeMinLength) && lookup.None?
    ensures r == AlreadyStarted <==> TrimmedAtLeast(gameCode, CodeMinLength) && lookup.Some? && lookup.value.currentQuestionIndex != -1
    ensures r.Proceed? <==> TrimmedAtLeast(gameCode, CodeMinLength) && lookup.Some? && lookup.value.currentQuestionIndex == -1
    ensures r.Proceed? ==> r.gameId == lookup.value.id
  {
    if !TrimmedAtLeast(gameCode, CodeMinLength) then InvalidCode
    else if lookup.None? then NotFound
    else if lookup.value.currentQuestionIndex != -1 then AlreadyStarted
    else Proceed(lookup.value.id)
  }

  /** A short PIN is refused whatever the game table holds. */
  lemma ShortCodeIgnoresLookup(gameCode: string, a: Option<GameRow>, b: Option<GameRow>)
    requires |Trim(gameCode)| < CodeMinLength
    ensures CodeDecision(gameCode, a) == CodeDecision(gameCode, b) == InvalidCode
  {
  }

  /** The outcome of submitting the nickname. */
  datatype NicknameOutcome = InvalidNickname | NoGame | JoinAs(gameId: string, nickname: string)

  /**
   * `handleNicknameSubmit`: a nickname shorter than two characters once
   * trimmed is refused; without a game id, or with the empty id (falsy in
   * `if (!gameId) return`), nothing happens; otherwise the trimmed nickname
   * is sent to join that game.
   */
  function NicknameDecision(nickname: string, gameId: Option<string>): (r: NicknameOutcome)
    ensures r == InvalidNickname <==> !TrimmedAtLeast(nickname, NicknameMinLength)
    ensures r == NoGame <==> TrimmedAtLeast(nickname, NicknameMinLength) && (gameId.None? || gameId.value == "")
    ensures r.JoinAs? ==> r.gameId == gameId.value && r.gameId != "" && r.nickname == Trim(nickname) && |r.nickname| >= NicknameMinLength
  {
    if !TrimmedAtLeast(nickname, NicknameMinLength) then InvalidNickname
    else if gameId.None? || gameId.value == "" then NoGame
    else JoinAs(gameId.value, Trim(nickname))
  }

  /** What the PIN box holds after the user types `typed`: at most eight characters, upper-cased. */
  function CodeInput(typed: string): (r: string)
    ensures |r| <= CodeMaxLength
    ensures ToUpper(r) == r
  {
    var r := ToUpper(CapLength(typed, CodeMaxLength));
    ToUpperIdempotent(CapLength(typed, CodeMaxLength));
    r
  }

  /** What the nickname box holds after the user types `typed`. */
  function NicknameInput(typed: string): (r: string)
    ensures |r| <= NicknameMaxLength
    ensures |typed| <= NicknameMaxLength ==> r == typed
  {
    CapLength(typed, NicknameMaxLength)
  }

  /** A nickname typed into the form and accepted is between 2 and 15 characters long. */
  lemma JoinedNicknameLength(typed: string, gameId: Option<string>)
    requires NicknameDecision(NicknameInput(typed), gameId).JoinAs?
    ensures NicknameMinLength <= |NicknameDecision(NicknameInput(typed), gameId).nickname| <= NicknameMaxLength
  {
  }

  /** A PIN typed into the form and accepted has between 4 and 8 characters once trimmed. */
  lemma AcceptedCodeLength(typed: string, lookup: Option<GameRow>)
    requires CodeDecision(CodeInput(typed), lookup).Proceed?
    ensures CodeMinLength <= |Trim(CodeInput(typed))| <= CodeMaxLength
  {
  }

  /** The form's state. */
  class JoinForm {
    var gameCode: string
    var nickname: string
    var step: Step
    var gameId: Option<string>

    /** The nickname step is only reached with a game id in hand. */
    ghost predicate Valid()
      reads this
    {
      step == NicknameStep ==> gameId.Some?
    }

    constructor ()
      ensures Valid()
      ensures gameCode == "" && nickname == "" && step == CodeStep && gameId == None
    {
      gameCode, nickname, step, gameId := "", "", CodeStep, None;
    }

    /** Typing in the PIN box. */
    method TypeCode(typed: string)
      modifies this`gameCode
      ensures gameCode == CodeInput(typed)
    {
      gameCode := CodeInput(typed);
    }

    /** Typing in the nickname box. */
    method TypeNickname(typed: string)
      modifies this`nickname
      ensures nickname == NicknameInput(typed)
    {
      nickname := NicknameInput(typed);
    }

    /**
     * Submitting the PIN, with the game table's answer for it: only when
     * every check passes are the game id recorded and the nickname step shown.
     */
    method SubmitCode(lookup: Option<GameRow>) returns (outcome: CodeOutcome)
      requires Valid()
      modifies this`gameId, this`step
      ensures Valid()
      ensures outcome == CodeDecision(gameCode, lookup)
      ensures outcome.Proceed? ==> gameId == Some(outcome.gameId) && step == NicknameStep
      ensures !outcome.Proceed? ==> gameId == old(gameId) && step == old(step)
    {
      outcome := CodeDecision(gameCode, lookup);
      if outcome.Proceed? {
        gameId := Some(outcome.gameId);
        step := NicknameStep;
      }
    }

    /** Submitting the nickname: what is sent to the join call, if anything; the form itself does not change. */
    method SubmitNickname() returns (outcome: NicknameOutcome)
      ensures outcome == NicknameDecision(nickname, gameId)
    {
      outcome := NicknameDecision(nickname, gameId);
    }

    /** The back arrow on the nickname step returns to the PIN step. */
    method Back()
      requires Valid() && step == NicknameStep
      modifies this`step
      ensures Valid() && step == CodeStep
    {
      step := CodeStep;
    }
  }
}
