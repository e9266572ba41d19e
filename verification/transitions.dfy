/**
 The transition table of the session state machine, one lemma per row group:
 for each status a session can be in, what each kind of message does to it.
 */
module Transitions {
  import opened GameSessionIo
  import opened Program

  /** A game is in progress: a second `StartGame` panics and nothing changes. */
  lemma StartGameRejectedInGame<E>(gs: GameSession<E>, ctx: Context)
    requires ctx.source in gs.sessions
    requires gs.sessions[ctx.source].status in {WaitUserInput, WaitWordleCheckWordReply}
    ensures OnStartGame(gs, ctx) == Panicked(AlreadyInGame)
    ensures Commit(gs, OnStartGame(gs, ctx)) == gs
  {
  }

  /**
   No game to play: `CheckWord` panics and nothing changes, not even the
   default entry for a user never seen before.
   */
  lemma CheckWordRejectedOutsideGame<E>(ext: Externals<E>, gs: GameSession<E>, ctx: Context, word: string)
    requires var s := Entry(gs.sessions, ctx.source).status; s.Init? || s.WaitWordleStartReply? || s.GameOver?
    ensures OnCheckWord(ext, gs, ctx, word) == Panicked(NotInGame)
    ensures Commit(gs, OnCheckWord(ext, gs, ctx, word)) == gs
  {
  }

  /**
   `StartGame` from a fresh, finished or still-starting session opens a new
   game keyed by this message's id, asks Wordle to start it, arms the timeout
   for this game and suspends the message.
   */
  lemma StartGameOpensGame<E>(gs: GameSession<E>, ctx: Context)
    requires var s := Entry(gs.sessions, ctx.source).status; s.Init? || s.GameOver? || s.WaitWordleStartReply?
    ensures var h := OnStartGame(gs, ctx);
            && h.Done?
            && h.next.sessions == gs.sessions[ctx.source := SessionInfo(ctx.id, ctx.id, ctx.sentId, 0, WaitWordleStartReply)]
            && h.effects == [ SendToWordle(gs.wordleProgramId, WordleAction.StartGame(ctx.source)),
                              SendDelayed(ctx.programId, GameSessionAction.CheckGameStatus(ctx.source, ctx.id)),
                              Wait ]
  {
  }

  /**
   The re-run of a woken `StartGame`: the stored Wordle reply is passed on to
   the user and the game waits for a word. The counter and every id stay as
   they were, and nothing is sent to Wordle.
   */
  lemma StartGameDeliversReply<E>(gs: GameSession<E>, ctx: Context, e: E)
    requires ctx.source in gs.sessions && gs.sessions[ctx.source].status == ReplyReceived(e)
    ensures var h := OnStartGame(gs, ctx);
            var info := gs.sessions[ctx.source];
            && h.Done?
            && h.next.sessions == gs.sessions[ctx.source := info.(status := WaitUserInput)]
            && h.effects == [Reply(GameSessionEvent.FromWordle(e))]
  {
  }

  /**
   The re-run of a woken `CheckWord` settles the round: the counter goes up
   by exactly one; a guessed word wins, the last allowed miss loses, and any
   other miss passes Wordle's reply on and waits for the next word.
   */
  lemma CheckWordSettlesRound<E>(ext: Externals<E>, gs: GameSession<E>, ctx: Context, word: string, e: E)
    requires ctx.source in gs.sessions
    requires gs.sessions[ctx.source].status == ReplyReceived(e)
    requires TriesBound(gs.sessions[ctx.source])
    ensures var h := OnCheckWord(ext, gs, ctx, word);
            var info := gs.sessions[ctx.source];
            var tries := info.tries + 1;
            && h.Done?
            && h.next.sessions.Keys == gs.sessions.Keys
            && h.next.sessions[ctx.source].tries == tries
            && h.next.sessions[ctx.source] == info.(tries := tries, status := h.next.sessions[ctx.source].status)
            && (ext.hasGuessed(e) ==>
                  && h.next.sessions[ctx.source].status == SessionStatus.GameOver(Win)
                  && h.effects == [Reply(GameSessionEvent.GameOver(Win))])
            && (!ext.hasGuessed(e) && tries == TriesLimit ==>
                  && h.next.sessions[ctx.source].status == SessionStatus.GameOver(Lose)
                  && h.effects == [Reply(GameSessionEvent.GameOver(Lose))])
            && (!ext.hasGuessed(e) && tries < TriesLimit ==>
                  && h.next.sessions[ctx.source].status == WaitUserInput
                  && h.effects == [Reply(GameSessionEvent.FromWordle(e))])
  {
  }

  /**
   A miss ends the game exactly when it is the last allowed try: the fifth
   miss of a game is answered with Lose and never with a progress reply.
   */
  lemma MissLosesIffLastTry<E>(ext: Externals<E>, gs: GameSession<E>, ctx: Context, word: string, e: E)
    requires ctx.source in gs.sessions
    requires gs.sessions[ctx.source].status == ReplyReceived(e)
    requires TriesBound(gs.sessions[ctx.source])
    requires !ext.hasGuessed(e)
    ensures var h := OnCheckWord(ext, gs, ctx, word);
            && h.Done?
            && (h.next.sessions[ctx.source].status == SessionStatus.GameOver(Lose) <==> gs.sessions[ctx.source].tries == TriesLimit - 1)
            && (h.effects == [Reply(GameSessionEvent.GameOver(Lose))] <==> gs.sessions[ctx.source].tries == TriesLimit - 1)
  {
  }

  /**
   While the game waits for a word (or for Wordle's verdict on the previous
   one), `CheckWord` checks the word first: an invalid one panics before
   anything is sent; a valid one is sent to Wordle and the message suspends,
   with the game id and the counter untouched.
   */
  lemma CheckWordForwardsWord<E>(ext: Externals<E>, gs: GameSession<E>, ctx: Context, word: string)
    requires ctx.source in gs.sessions
    requires gs.sessions[ctx.source].status in {WaitUserInput, WaitWordleCheckWordReply}
    ensures var h := OnCheckWord(ext, gs, ctx, word);
            var info := gs.sessions[ctx.source];
            && (!ValidWord(ext, word) ==> h == Panicked(InvalidWord) && Commit(gs, h) == gs)
            && (ValidWord(ext, word) ==>
                  && h.Done?
                  && h.next.sessions == gs.sessions[ctx.source :=
                       SessionInfo(info.sessionId, ctx.id, ctx.sentId, info.tries, WaitWordleCheckWordReply)]
                  && h.effects == [SendToWordle(gs.wordleProgramId, WordleAction.CheckWord(ctx.source, word)), Wait])
  {
  }

  /** The timeout never creates a session, and delivering it twice is the same as once. */
  lemma TimeoutIdempotent<E>(gs: GameSession<E>, ctx: Context, user: ActorId, sessionId: MessageId)
    ensures var h1 := OnCheckGameStatus(gs, ctx, user, sessionId);
            var h2 := OnCheckGameStatus(h1.next, ctx, user, sessionId);
            && h1.next.sessions.Keys == gs.sessions.Keys
            && h2.next == h1.next
            && h2.effects == []
  {
  }

  /** A timeout that is not from the program itself, or belongs to another game, changes nothing. */
  lemma StaleTimeoutIgnored<E>(gs: GameSession<E>, ctx: Context, user: ActorId, sessionId: MessageId)
    requires ctx.source != ctx.programId || user !in gs.sessions || gs.sessions[user].sessionId != sessionId
    ensures OnCheckGameStatus(gs, ctx, user, sessionId) == Done(gs, [])
  {
  }

  /**
   A Wordle reply changes the state exactly when it is correlated with the
   session it names; it never touches another user's session.
   */
  lemma ReplyAcceptedIffCorrelated<E>(ext: Externals<E>, gs: GameSession<E>, replyTo: MessageId, e: E)
    ensures var h := HandleReply(ext, gs, replyTo, e);
            && (h.next != gs <==> Correlated(gs, ext.getUser(e), replyTo))
            && (h.effects != [] <==> Correlated(gs, ext.getUser(e), replyTo))
            && forall u :: u in gs.sessions && u != ext.getUser(e) ==> h.next.sessions[u] == gs.sessions[u]
  {
  }

  /**
   At-least-once delivery is harmless: once a reply has been accepted the
   session no longer waits, so the same reply delivered again is dropped.
   */
  lemma DuplicateReplyDropped<E>(ext: Externals<E>, gs: GameSession<E>, replyTo: MessageId, e: E)
    ensures var h1 := HandleReply(ext, gs, replyTo, e);
            HandleReply(ext, h1.next, replyTo, e) == Done(h1.next, [])
  {
  }
}
