/**
 The message and state types shared by the game-session program and the
 Wordle program: identities, the session record, the actions a user may send,
 the requests sent to Wordle and the events sent back to the user.

 Identities (`ActorId`, `MessageId`) are opaque: the program only ever
 compares them for equality, so they are modelled as naturals.
 */
module GameSessionIo {

  /** Rust's `u8`. */
  type u8 = x: int | 0 <= x < 256

  type ActorId = nat
  type MessageId = nat

  /** `MessageId::default()`, the zero id a fresh session record starts with. */
  const ZeroId: MessageId := 0

  datatype GameStatus = Win | Lose

  /**
   The state of one user's session. `E` is the Wordle program's reply type
   (`WordleEvent`), whose structure lies outside this model.
   */
  datatype SessionStatus<E> =
    | Init
    | WaitUserInput
    | WaitWordleStartReply
    | WaitWordleCheckWordReply
    | ReplyReceived(event: E)
    | GameOver(outcome: GameStatus)
  {
    /**
     `SessionInfo::is_wait_reply_status`. Its definition lives in a crate that
     is not part of this model; it is taken to hold exactly in the two states
     that wait for a Wordle reply.
     */
    predicate IsWaitReply() {
      WaitWordleStartReply? || WaitWordleCheckWordReply?
    }
  }

  /**
   The per-user session record: the id of the StartGame message that opened
   the current game (`sessionId`, the key the timeout carries), the id of the
   user message currently suspended (`originalMsgId`), the id of the request
   sent to Wordle (`sendToWordleMsgId`) and the number of checked words.
   */
  datatype SessionInfo<E> = SessionInfo(
    sessionId: MessageId,
    originalMsgId: MessageId,
    sendToWordleMsgId: MessageId,
    tries: u8,
    status: SessionStatus<E>)

  /** The record `entry(user).or_default()` inserts for a user seen for the first time. */
  function DefaultSession<E>(): SessionInfo<E> {
    SessionInfo(ZeroId, ZeroId, ZeroId, 0, Init)
  }

  /** What a user (or the program itself, for the timeout) sends to the game-session program. */
  datatype GameSessionAction =
    | StartGame
    | CheckWord(word: string)
    | CheckGameStatus(user: ActorId, sessionId: MessageId)

  /** The requests the game-session program sends to the Wordle program. */
  datatype WordleAction =
    | StartGame(user: ActorId)
    | CheckWord(user: ActorId, word: string)

  /**
   What the user is told. `FromWordle(e)` stands for the event obtained by
   converting the Wordle reply `e` (`GameSessionEvent::from(&e)`); the
   conversion itself is not modelled.
   */
  datatype GameSessionEvent<E> =
    | FromWordle(event: E)
    | GameOver(status: GameStatus)

  /**
   Functions the program calls whose definitions are not part of this model:
   `WordleEvent::get_user`, `WordleEvent::has_guessed` and Rust's
   `char::is_lowercase` (a Unicode property table).
   */
  datatype Externals<!E> = Externals(
    getUser: E -> ActorId,
    hasGuessed: E -> bool,
    isLowercase: char -> bool)

  /** The program's whole state: the Wordle program's address and the session table. */
  datatype GameSession<E> = GameSession(
    wordleProgramId: ActorId,
    sessions: map<ActorId, SessionInfo<E>>)
}
