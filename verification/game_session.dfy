/**
 The game-session program: a per-user state machine that plays Wordle on a
 user's behalf by exchanging messages with a separate Wordle program.

 Each incoming message is one atomic step over the program state. The
 runtime's answers for the message being handled (its id, its sender, the
 program's own id, the id `msg::send` returns) are inputs, and everything the
 program asks the runtime to do is returned as a list of effects. A `panic!`
 or failed `assert!` becomes `Panicked`: Gear then reverts every change the
 message made, which `Commit` models.

 Suspension is not a continuation: a message that called `exec::wait()` and
 is later woken runs `handle` again from the top with the same message id,
 so resuming is simply a second call of `Handle`.
 */
module Program {
  import opened GameSessionIo
  import Utf8

  /** `TRIES_LIMIT`: the number of words a user may check in one game. */
  const TriesLimit: u8 := 5

  /** The runtime's answers for the message being handled. */
  datatype Context = Context(
    id: MessageId,         // msg::id()
    source: ActorId,       // msg::source()
    programId: ActorId,    // exec::program_id()
    sentId: MessageId)     // the id msg::send returns, when the handler sends to Wordle

  /** What the program asks the runtime to do, in order. */
  datatype Effect<E> =
    | SendToWordle(dest: ActorId, request: WordleAction)
    | SendDelayed(dest: ActorId, action: GameSessionAction)
    | SendToUser(dest: ActorId, event: GameSessionEvent<E>)
    | Reply(event: GameSessionEvent<E>)
    | Wait
    | Wake(msgId: MessageId)

  /** The reasons the program panics. */
  datatype Panic = AlreadyInGame | NotInGame | InvalidWord

  /** The outcome of handling one message. */
  datatype Handled<E> =
    | Done(next: GameSession<E>, effects: seq<Effect<E>>)
    | Panicked(reason: Panic)

  /** The state after a handled message: a panic reverts everything the message did. */
  function Commit<E>(gs: GameSession<E>, h: Handled<E>): (g: GameSession<E>)
    ensures h.Panicked? ==> g == gs
  {
    if h.Panicked? then gs else h.next
  }

  /** The record `sessions.entry(user).or_default()` yields. */
  function Entry<E>(sessions: map<ActorId, SessionInfo<E>>, user: ActorId): SessionInfo<E> {
    if user in sessions then sessions[user] else DefaultSession()
  }

  /** `tries += 1` on a `u8`, wrapping as a release build does. */
  function IncTries(t: u8): (r: u8)
    ensures t < 255 ==> r == t + 1
    ensures t == 255 ==> r == 0
  {
    (t + 1) % 256
  }

  /**
   The bound the `tries` counter keeps: it never passes the limit, and it is
   below the limit in every state from which the game can still go on.
   */
  predicate TriesBound<E>(info: SessionInfo<E>) {
    info.tries <= TriesLimit && (!info.status.GameOver? ==> info.tries < TriesLimit)
  }

  predicate Valid<E>(gs: GameSession<E>) {
    forall u :: u in gs.sessions ==> TriesBound(gs.sessions[u])
  }

  /**
   `g` differs from `gs` at most in the entry of `user`, which may have been
   created; no entry is ever removed.
   */
  ghost predicate OnlyTouches<E>(gs: GameSession<E>, g: GameSession<E>, user: ActorId) {
    && g.wordleProgramId == gs.wordleProgramId
    && gs.sessions.Keys <= g.sessions.Keys <= gs.sessions.Keys + {user}
    && forall u :: u in gs.sessions && u != user ==> g.sessions[u] == gs.sessions[u]
  }

  /**
   The word check of `CheckWord`: five bytes of UTF-8, every character lower
   case. Since a character takes one to four bytes, an accepted word has two
   to five characters, and exactly five when it is ASCII.
   */
  predicate ValidWord<E>(ext: Externals<E>, word: string): (ok: bool)
    ensures ok ==> 2 <= |word| <= 5
    ensures ok && Utf8.AllAscii(word) ==> |word| == 5
  {
    Utf8.ByteLen(word) == 5 && forall i :: 0 <= i < |word| ==> ext.isLowercase(word[i])
  }

  /** `handle`: dispatch on the decoded action. */
  function Handle<E>(ext: Externals<E>, gs: GameSession<E>, ctx: Context, action: GameSessionAction): (h: Handled<E>)
    ensures action.CheckGameStatus? ==> h.Done?
    ensures h.Done? ==> OnlyTouches(gs, h.next, if action.CheckGameStatus? then action.user else ctx.source)
    ensures h.Done? && Valid(gs) ==> Valid(h.next)
  {
    match action
    case StartGame => OnStartGame(gs, ctx)
    case CheckWord(word) => OnCheckWord(ext, gs, ctx, word)
    case CheckGameStatus(user, sessionId) => OnCheckGameStatus(gs, ctx, user, sessionId)
  }

  /**
   `StartGame` from the sender. Rejected while a game is in progress; delivers
   a stored Wordle reply when re-run after a wake; otherwise opens a new game,
   asks Wordle to start it, arms the timeout and suspends.
   */
  function OnStartGame<E>(gs: GameSession<E>, ctx: Context): (h: Handled<E>)
    ensures h.Panicked? <==> Entry(gs.sessions, ctx.source).status in {WaitUserInput, WaitWordleCheckWordReply}
    ensures h.Panicked? ==> h.reason == AlreadyInGame
    ensures h.Done? ==> ctx.source in h.next.sessions && OnlyTouches(gs, h.next, ctx.source)
    ensures h.Done? && TriesBound(Entry(gs.sessions, ctx.source)) ==> TriesBound(h.next.sessions[ctx.source])
    ensures h.Done? && Valid(gs) ==> Valid(h.next)
  {
    var user := ctx.source;
    var info := Entry(gs.sessions, user);
    match info.status
    case ReplyReceived(e) =>
      var info' := info.(status := WaitUserInput);
      Done(gs.(sessions := gs.sessions[user := info']), [Reply(GameSessionEvent.FromWordle(e))])
    case Init | GameOver(_) | WaitWordleStartReply =>
      var info' := SessionInfo(ctx.id, ctx.id, ctx.sentId, 0, WaitWordleStartReply);
      Done(gs.(sessions := gs.sessions[user := info']),
           [ SendToWordle(gs.wordleProgramId, WordleAction.StartGame(user)),
             SendDelayed(ctx.programId, GameSessionAction.CheckGameStatus(user, ctx.id)),
             Wait ])
    case WaitUserInput | WaitWordleCheckWordReply =>
      Panicked(AlreadyInGame)
  }

  /**
   `CheckWord { word }` from the sender. When re-run after a wake it settles
   the round from the stored Wordle reply; while the game waits for input it
   validates the word, forwards it to Wordle and suspends; otherwise the user
   is not in a game.
   */
  function OnCheckWord<E>(ext: Externals<E>, gs: GameSession<E>, ctx: Context, word: string): (h: Handled<E>)
    ensures h.Panicked? <==>
      match Entry(gs.sessions, ctx.source).status
      case ReplyReceived(_) => false
      case WaitUserInput | WaitWordleCheckWordReply => !ValidWord(ext, word)
      case _ => true
    ensures h.Panicked? ==>
      match Entry(gs.sessions, ctx.source).status
      case ReplyReceived(_) => false
      case WaitUserInput | WaitWordleCheckWordReply => h.reason == InvalidWord
      case _ => h.reason == NotInGame
    ensures h.Done? ==> ctx.source in gs.sessions && OnlyTouches(gs, h.next, ctx.source)
    ensures h.Done? ==> h.next.sessions.Keys == gs.sessions.Keys
    ensures h.Done? ==> h.next.sessions[ctx.source].sessionId == gs.sessions[ctx.source].sessionId
    ensures h.Done? && TriesBound(gs.sessions[ctx.source]) ==> TriesBound(h.next.sessions[ctx.source])
    ensures h.Done? && Valid(gs) ==> Valid(h.next)
  {
    var user := ctx.source;
    var info := Entry(gs.sessions, user);
    match info.status
    case ReplyReceived(e) =>
      var tries := IncTries(info.tries);
      if ext.hasGuessed(e) then
        Done(gs.(sessions := gs.sessions[user := info.(tries := tries, status := SessionStatus.GameOver(Win))]),
             [Reply(GameSessionEvent.GameOver(Win))])
      else if tries == TriesLimit then
        Done(gs.(sessions := gs.sessions[user := info.(tries := tries, status := SessionStatus.GameOver(Lose))]),
             [Reply(GameSessionEvent.GameOver(Lose))])
      else
        Done(gs.(sessions := gs.sessions[user := info.(tries := tries, status := WaitUserInput)]),
             [Reply(GameSessionEvent.FromWordle(e))])
    case WaitUserInput | WaitWordleCheckWordReply =>
      if !ValidWord(ext, word) then
        Panicked(InvalidWord)
      else
        var info' := info.(originalMsgId := ctx.id, sendToWordleMsgId := ctx.sentId,
                           status := WaitWordleCheckWordReply);
        Done(gs.(sessions := gs.sessions[user := info']),
             [SendToWordle(gs.wordleProgramId, WordleAction.CheckWord(user, word)), Wait])
    case Init | WaitWordleStartReply | GameOver(_) =>
      Panicked(NotInGame)
  }

  /** The conditions under which the timeout message `CheckGameStatus` ends a game. */
  predicate TimeoutApplies<E>(gs: GameSession<E>, ctx: Context, user: ActorId, sessionId: MessageId) {
    && ctx.source == ctx.programId
    && user in gs.sessions
    && gs.sessions[user].sessionId == sessionId
    && !gs.sessions[user].status.GameOver?
  }

  /**
   `CheckGameStatus { user, session_id }`: the delayed message the program
   sends itself at `StartGame`. Only a message from the program itself, for
   an existing session of the same game that has not ended, has any effect:
   the game is lost and the user is told so.
   */
  function OnCheckGameStatus<E>(gs: GameSession<E>, ctx: Context, user: ActorId, sessionId: MessageId): (h: Handled<E>)
    ensures h.Done? && h.next.sessions.Keys == gs.sessions.Keys
    ensures !TimeoutApplies(gs, ctx, user, sessionId) ==> h.next == gs && h.effects == []
    ensures TimeoutApplies(gs, ctx, user, sessionId) ==>
      && h.next.sessions == gs.sessions[user := gs.sessions[user].(status := SessionStatus.GameOver(Lose))]
      && h.effects == [SendToUser(user, GameSessionEvent.GameOver(Lose))]
    ensures OnlyTouches(gs, h.next, user)
    ensures Valid(gs) ==> Valid(h.next)
  {
    if TimeoutApplies(gs, ctx, user, sessionId) then
      var info := gs.sessions[user];
      Done(gs.(sessions := gs.sessions[user := info.(status := SessionStatus.GameOver(Lose))]),
           [SendToUser(user, GameSessionEvent.GameOver(Lose))])
    else
      Done(gs, [])
  }

  /**
   The conditions under which a Wordle reply is accepted: it concerns a known
   user, answers the request last sent to Wordle for that user, and the
   session is waiting for a reply.
   */
  predicate Correlated<E>(gs: GameSession<E>, user: ActorId, replyTo: MessageId) {
    && user in gs.sessions
    && replyTo == gs.sessions[user].sendToWordleMsgId
    && gs.sessions[user].status.IsWaitReply()
  }

  /**
   `handle_reply`: a reply from Wordle to the request `replyTo`. An accepted
   reply is stored in the session and the suspended user message is woken;
   any other reply is dropped silently.
   */
  function HandleReply<E>(ext: Externals<E>, gs: GameSession<E>, replyTo: MessageId, event: E): (h: Handled<E>)
    ensures h.Done? && h.next.sessions.Keys == gs.sessions.Keys
    ensures !Correlated(gs, ext.getUser(event), replyTo) ==> h.next == gs && h.effects == []
    ensures Correlated(gs, ext.getUser(event), replyTo) ==>
      var info := gs.sessions[ext.getUser(event)];
      && h.next.sessions == gs.sessions[ext.getUser(event) := info.(status := ReplyReceived(event))]
      && h.effects == [Wake(info.originalMsgId)]
    ensures OnlyTouches(gs, h.next, ext.getUser(event))
    ensures Valid(gs) ==> Valid(h.next)
  {
    var user := ext.getUser(event);
    if Correlated(gs, user, replyTo) then
      var info := gs.sessions[user];
      Done(gs.(sessions := gs.sessions[user := info.(status := ReplyReceived(event))]),
           [Wake(info.originalMsgId)])
    else
      Done(gs, [])
  }
}
