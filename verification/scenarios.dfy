/**
 Whole conversations between a user, the program and Wordle, written as
 sequences of delivered messages. A suspended message that is woken is
 delivered again with the same context, as Gear re-runs it from the top.
 */
module Scenarios {
  import opened GameSessionIo
  import opened Program
  import opened Execution
  import Transitions
  import Replay

  /** `StartGame`, Wordle's reply to the start request, and the re-run of the woken `StartGame`. */
  function StartInputs<E>(ctx: Context, e: E): seq<Input<E>> {
    [Message(ctx, GameSessionAction.StartGame), WordleReply(ctx.sentId, e), Message(ctx, GameSessionAction.StartGame)]
  }

  /** `CheckWord`, Wordle's reply to the check request, and the re-run of the woken `CheckWord`. */
  function RoundInputs<E>(ctx: Context, word: string, e: E): seq<Input<E>> {
    [Message(ctx, GameSessionAction.CheckWord(word)), WordleReply(ctx.sentId, e), Message(ctx, GameSessionAction.CheckWord(word))]
  }

  /** One check round as played by the user: the message, the word and Wordle's verdict. */
  datatype Round<E> = Round(ctx: Context, word: string, verdict: E)

  function RoundsInputs<E>(rounds: seq<Round<E>>): (inputs: seq<Input<E>>)
    ensures |inputs| == 3 * |rounds|
  {
    if |rounds| == 0 then []
    else RoundInputs(rounds[0].ctx, rounds[0].word, rounds[0].verdict) + RoundsInputs(rounds[1..])
  }

  /**
   The start handshake: a user with no game in progress starts one, Wordle
   answers, and the woken `StartGame` passes the answer on. The message that
   was suspended is the one woken, and the game then waits for a word.
   */
  lemma StartHandshake<E>(ext: Externals<E>, gs: GameSession<E>, ctx: Context, e: E)
    requires var s := Entry(gs.sessions, ctx.source).status; s.Init? || s.GameOver?
    requires ext.getUser(e) == ctx.source
    ensures var t := Run(ext, gs, StartInputs(ctx, e));
            && t.final.sessions == gs.sessions[ctx.source := SessionInfo(ctx.id, ctx.id, ctx.sentId, 0, WaitUserInput)]
            && t.effects == [ SendToWordle(gs.wordleProgramId, WordleAction.StartGame(ctx.source)),
                              SendDelayed(ctx.programId, GameSessionAction.CheckGameStatus(ctx.source, ctx.id)),
                              Wait,
                              Wake(ctx.id),
                              Reply(GameSessionEvent.FromWordle(e)) ]
  {
    var user := ctx.source;
    var g1 := gs.(sessions := gs.sessions[user := SessionInfo(ctx.id, ctx.id, ctx.sentId, 0, WaitWordleStartReply)]);
    var g2 := gs.(sessions := gs.sessions[user := SessionInfo(ctx.id, ctx.id, ctx.sentId, 0, ReplyReceived(e))]);
    var g3 := gs.(sessions := gs.sessions[user := SessionInfo(ctx.id, ctx.id, ctx.sentId, 0, WaitUserInput)]);
    var inputs := StartInputs(ctx, e);
    assert g1.sessions[user := g2.sessions[user]] == g2.sessions;
    assert g2.sessions[user := g3.sessions[user]] == g3.sessions;
    assert Deliver(ext, g2, inputs[2]) == Done(g3, [Reply(GameSessionEvent.FromWordle(e))]);
    RunFirst(ext, g2, inputs[2..]);
    assert inputs[2..][1..] == [];
    assert Deliver(ext, g1, inputs[1]) == Done(g2, [Wake(ctx.id)]);
    RunFirst(ext, g1, inputs[1..]);
    assert inputs[1..][1..] == inputs[2..];
    RunFirst(ext, gs, inputs);
  }

  /**
   Wordle never answers: the timeout armed by `StartGame` fires, the game is
   lost and the user is told so exactly once. Wordle's late answer is then
   dropped, the suspended `StartGame` is never woken, and a repeated timeout
   does nothing.
   */
  lemma TimeoutWithoutReply<E>(ext: Externals<E>, gs: GameSession<E>, ctx: Context, self: Context, e: E)
    requires var s := Entry(gs.sessions, ctx.source).status; s.Init? || s.GameOver?
    requires self.source == self.programId && self.source == ctx.programId
    requires ext.getUser(e) == ctx.source
    ensures var timeout := Message(self, GameSessionAction.CheckGameStatus(ctx.source, ctx.id));
            var t := Run(ext, gs, [Message(ctx, GameSessionAction.StartGame), timeout, WordleReply(ctx.sentId, e), timeout]);
            && t.final.sessions == gs.sessions[ctx.source := SessionInfo(ctx.id, ctx.id, ctx.sentId, 0, SessionStatus.GameOver(Lose))]
            && t.effects == [ SendToWordle(gs.wordleProgramId, WordleAction.StartGame(ctx.source)),
                              SendDelayed(ctx.programId, GameSessionAction.CheckGameStatus(ctx.source, ctx.id)),
                              Wait,
                              SendToUser(ctx.source, GameSessionEvent.GameOver(Lose)) ]
  {
    var user := ctx.source;
    var timeout := Message(self, GameSessionAction.CheckGameStatus(user, ctx.id));
    var inputs := [Message(ctx, GameSessionAction.StartGame), timeout, WordleReply(ctx.sentId, e), timeout];
    var g1 := gs.(sessions := gs.sessions[user := SessionInfo(ctx.id, ctx.id, ctx.sentId, 0, WaitWordleStartReply)]);
    var g2 := gs.(sessions := gs.sessions[user := SessionInfo(ctx.id, ctx.id, ctx.sentId, 0, SessionStatus.GameOver(Lose))]);
    assert g1.sessions[user := g2.sessions[user]] == g2.sessions;
    assert Deliver(ext, g2, inputs[3]) == Done(g2, []);
    RunFirst(ext, g2, inputs[3..]);
    assert inputs[3..][1..] == [];
    assert Deliver(ext, g2, inputs[2]) == Done(g2, []);
    RunFirst(ext, g2, inputs[2..]);
    assert inputs[2..][1..] == inputs[3..];
    assert Deliver(ext, g1, inputs[1]) == Done(g2, [SendToUser(user, GameSessionEvent.GameOver(Lose))]);
    RunFirst(ext, g1, inputs[1..]);
    assert inputs[1..][1..] == inputs[2..];
    RunFirst(ext, gs, inputs);
  }

  /**
   A second `StartGame` while the first still waits for Wordle starts the
   game afresh: the first game's timeout and Wordle's answer to the first
   start request are both ignored from then on.
   */
  lemma RestartSupersedesGame<E>(ext: Externals<E>, gs: GameSession<E>, ctx1: Context, ctx2: Context, self: Context, e: E)
    requires var s := Entry(gs.sessions, ctx1.source).status; s.Init? || s.GameOver?
    requires ctx2.source == ctx1.source && ctx2.id != ctx1.id && ctx2.sentId != ctx1.sentId
    requires self.source == self.programId && self.source == ctx1.programId && ctx2.programId == ctx1.programId
    requires ext.getUser(e) == ctx1.source
    ensures var start := Message(ctx1, GameSessionAction.StartGame);
            var restart := Message(ctx2, GameSessionAction.StartGame);
            var staleTimeout := Message(self, GameSessionAction.CheckGameStatus(ctx1.source, ctx1.id));
            var staleReply := WordleReply(ctx1.sentId, e);
            var t := Run(ext, gs, [start, restart, staleTimeout, staleReply]);
            && t.final.sessions == gs.sessions[ctx1.source := SessionInfo(ctx2.id, ctx2.id, ctx2.sentId, 0, WaitWordleStartReply)]
            && t.effects == [ SendToWordle(gs.wordleProgramId, WordleAction.StartGame(ctx1.source)),
                              SendDelayed(ctx1.programId, GameSessionAction.CheckGameStatus(ctx1.source, ctx1.id)),
                              Wait,
                              SendToWordle(gs.wordleProgramId, WordleAction.StartGame(ctx1.source)),
                              SendDelayed(ctx2.programId, GameSessionAction.CheckGameStatus(ctx1.source, ctx2.id)),
                              Wait ]
  {
    var user := ctx1.source;
    var inputs := [Message(ctx1, GameSessionAction.StartGame), Message(ctx2, GameSessionAction.StartGame),
                   Message(self, GameSessionAction.CheckGameStatus(user, ctx1.id)), WordleReply(ctx1.sentId, e)];
    var g1 := gs.(sessions := gs.sessions[user := SessionInfo(ctx1.id, ctx1.id, ctx1.sentId, 0, WaitWordleStartReply)]);
    var g2 := gs.(sessions := gs.sessions[user := SessionInfo(ctx2.id, ctx2.id, ctx2.sentId, 0, WaitWordleStartReply)]);
    assert g1.sessions[user := g2.sessions[user]] == g2.sessions;
    assert inputs[2..] == [inputs[2], inputs[3]];
    StaleMessagesIgnored(ext, g2, user, ctx1, self, e);
    var restartEffects := [ SendToWordle(gs.wordleProgramId, WordleAction.StartGame(user)),
                            SendDelayed(ctx2.programId, GameSessionAction.CheckGameStatus(user, ctx2.id)),
                            Wait ];
    assert Deliver(ext, g1, inputs[1]) == Done(g2, restartEffects);
    RunFirst(ext, g1, inputs[1..]);
    assert inputs[1..][1..] == inputs[2..];
    var startEffects := [ SendToWordle(gs.wordleProgramId, WordleAction.StartGame(user)),
                          SendDelayed(ctx1.programId, GameSessionAction.CheckGameStatus(user, ctx1.id)),
                          Wait ];
    assert Deliver(ext, gs, inputs[0]) == Done(g1, startEffects);
    RunFirst(ext, gs, inputs);
  }

  /**
   Once a restarted game waits for Wordle's start reply, the first game's
   timeout and Wordle's reply to the first start request find nothing to act on.
   */
  lemma StaleMessagesIgnored<E>(ext: Externals<E>, g: GameSession<E>, user: ActorId, ctx1: Context, self: Context, e: E)
    requires user in g.sessions
    requires var info := g.sessions[user];
             info.sessionId != ctx1.id && info.sendToWordleMsgId != ctx1.sentId && info.status == WaitWordleStartReply
    requires ext.getUser(e) == user
    ensures var staleTimeout := Message(self, GameSessionAction.CheckGameStatus(user, ctx1.id));
            Run(ext, g, [staleTimeout, WordleReply(ctx1.sentId, e)]) == Replay.Trace(g, [])
  {
    var inputs := [Message(self, GameSessionAction.CheckGameStatus(user, ctx1.id)), WordleReply(ctx1.sentId, e)];
    assert Deliver(ext, g, inputs[1]) == Done(g, []);
    RunFirst(ext, g, inputs[1..]);
    assert inputs[1..][1..] == [];
    assert Deliver(ext, g, inputs[0]) == Done(g, []);
    RunFirst(ext, g, inputs);
  }

  /** What a round can be: a valid word from the session's own user, answered about that user. */
  predicate PlayableRound<E>(ext: Externals<E>, user: ActorId, r: Round<E>) {
    r.ctx.source == user && ValidWord(ext, r.word) && ext.getUser(r.verdict) == user
  }

  /**
   One check round from a game waiting for a word: the word goes to Wordle,
   the woken `CheckWord` counts the try and answers with Win, Lose or
   Wordle's progress report. The game id never changes.
   */
  lemma PlayRound<E>(ext: Externals<E>, gs: GameSession<E>, r: Round<E>)
    requires r.ctx.source in gs.sessions
    requires gs.sessions[r.ctx.source].status == WaitUserInput
    requires TriesBound(gs.sessions[r.ctx.source])
    requires PlayableRound(ext, r.ctx.source, r)
    ensures var t := Run(ext, gs, RoundInputs(r.ctx, r.word, r.verdict));
            var user := r.ctx.source;
            var info := gs.sessions[user];
            var tries := info.tries + 1;
            var status := t.final.sessions[user].status;
            && t.final == gs.(sessions := gs.sessions[user :=
                 SessionInfo(info.sessionId, r.ctx.id, r.ctx.sentId, tries, status)])
            && |t.effects| == 4
            && t.effects[..3] == [SendToWordle(gs.wordleProgramId, WordleAction.CheckWord(user, r.word)), Wait, Wake(r.ctx.id)]
            && (ext.hasGuessed(r.verdict) ==>
                  status == SessionStatus.GameOver(Win) && t.effects[3] == Reply(GameSessionEvent.GameOver(Win)))
            && (!ext.hasGuessed(r.verdict) && tries == TriesLimit ==>
                  status == SessionStatus.GameOver(Lose) && t.effects[3] == Reply(GameSessionEvent.GameOver(Lose)))
            && (!ext.hasGuessed(r.verdict) && tries < TriesLimit ==>
                  status == WaitUserInput && t.effects[3] == Reply(GameSessionEvent.FromWordle(r.verdict)))
  {
    var user := r.ctx.source;
    var info := gs.sessions[user];
    var g2 := gs.(sessions := gs.sessions[user := SessionInfo(info.sessionId, r.ctx.id, r.ctx.sentId, info.tries, ReplyReceived(r.verdict))]);
    RoundUnfolds(ext, gs, r);
    Transitions.CheckWordSettlesRound(ext, g2, r.ctx, r.word, r.verdict);
    assert g2.sessions[user := g2.sessions[user].(tries := info.tries + 1, status := OnCheckWord(ext, g2, r.ctx, r.word).next.sessions[user].status)]
        == gs.sessions[user := SessionInfo(info.sessionId, r.ctx.id, r.ctx.sentId, info.tries + 1, OnCheckWord(ext, g2, r.ctx, r.word).next.sessions[user].status)];
  }

  /**
   The three deliveries of a round: the word goes to Wordle and the message
   suspends, the matching reply is stored and wakes it, and the re-run
   settles the round from the stored reply.
   */
  lemma RoundUnfolds<E>(ext: Externals<E>, gs: GameSession<E>, r: Round<E>)
    requires r.ctx.source in gs.sessions
    requires gs.sessions[r.ctx.source].status == WaitUserInput
    requires PlayableRound(ext, r.ctx.source, r)
    ensures var user := r.ctx.source;
            var info := gs.sessions[user];
            var g2 := gs.(sessions := gs.sessions[user := SessionInfo(info.sessionId, r.ctx.id, r.ctx.sentId, info.tries, ReplyReceived(r.verdict))]);
            var h := OnCheckWord(ext, g2, r.ctx, r.word);
            && h.Done?
            && Run(ext, gs, RoundInputs(r.ctx, r.word, r.verdict))
               == Replay.Trace(h.next, [SendToWordle(gs.wordleProgramId, WordleAction.CheckWord(user, r.word)), Wait, Wake(r.ctx.id)] + h.effects)
  {
    var user := r.ctx.source;
    var ctx := r.ctx;
    var info := gs.sessions[user];
    var inputs := RoundInputs(ctx, r.word, r.verdict);
    var g1 := gs.(sessions := gs.sessions[user := SessionInfo(info.sessionId, ctx.id, ctx.sentId, info.tries, WaitWordleCheckWordReply)]);
    var g2 := gs.(sessions := gs.sessions[user := SessionInfo(info.sessionId, ctx.id, ctx.sentId, info.tries, ReplyReceived(r.verdict))]);
    assert g1.sessions[user := g2.sessions[user]] == g2.sessions;
    assert Deliver(ext, g2, inputs[2]) == OnCheckWord(ext, g2, ctx, r.word);
    RunFirst(ext, g2, inputs[2..]);
    assert inputs[2..][1..] == [];
    assert Deliver(ext, g1, inputs[1]) == Done(g2, [Wake(ctx.id)]);
    RunFirst(ext, g1, inputs[1..]);
    assert inputs[1..][1..] == inputs[2..];
    assert Deliver(ext, gs, inputs[0]) == Done(g1, [SendToWordle(gs.wordleProgramId, WordleAction.CheckWord(user, r.word)), Wait]);
    RunFirst(ext, gs, inputs);
  }

  /**
   The state `n` missed rounds leave behind, starting from `gs`: every other
   session and the game id are untouched, the user has used `n` more tries,
   and the game is over exactly when no try is left, the Lose reply being the
   last effect.
   */
  ghost predicate MissesOutcome<E>(gs: GameSession<E>, t: SessionTrace<E>, user: ActorId, n: nat)
    requires user in gs.sessions
  {
    var tries := gs.sessions[user].tries + n;
    && t.final.wordleProgramId == gs.wordleProgramId
    && t.final.sessions.Keys == gs.sessions.Keys
    && (forall u :: u in gs.sessions && u != user ==> t.final.sessions[u] == gs.sessions[u])
    && t.final.sessions[user].sessionId == gs.sessions[user].sessionId
    && t.final.sessions[user].tries == tries
    && |t.effects| == 4 * n
    && (tries < TriesLimit ==> t.final.sessions[user].status == WaitUserInput)
    && (tries == TriesLimit && n > 0 ==>
          && t.final.sessions[user].status == SessionStatus.GameOver(Lose)
          && t.effects[|t.effects| - 1] == Reply(GameSessionEvent.GameOver(Lose)))
  }

  /**
   Misses only: starting from a game waiting for a word after `t` tries,
   each missed round adds one try; the game goes on while tries remain, and
   the round that uses up the last try ends it with Lose, announced as the
   final reply.
   */
  lemma {:induction false} MissesExhaustTries<E>(ext: Externals<E>, gs: GameSession<E>, user: ActorId, rounds: seq<Round<E>>)
    requires user in gs.sessions
    requires gs.sessions[user].status == WaitUserInput
    requires TriesBound(gs.sessions[user])
    requires gs.sessions[user].tries + |rounds| <= TriesLimit
    requires forall i :: 0 <= i < |rounds| ==> PlayableRound(ext, user, rounds[i]) && !ext.hasGuessed(rounds[i].verdict)
    ensures MissesOutcome(gs, Run(ext, gs, RoundsInputs(rounds)), user, |rounds|)
    decreases |rounds|
  {
    if |rounds| == 0 {
      assert Run(ext, gs, []) == Replay.Trace(gs, []);
    } else {
      var r := rounds[0];
      var first := RoundInputs(r.ctx, r.word, r.verdict);
      var rest := RoundsInputs(rounds[1..]);
      assert RoundsInputs(rounds) == first + rest;
      assert PlayableRound(ext, user, r) && !ext.hasGuessed(r.verdict);
      MissOne(ext, gs, r);
      var t1 := Run(ext, gs, first);
      var t2 := Run(ext, t1.final, rest);
      RunAppend(ext, gs, first, rest);
      if |rounds| == 1 {
        assert rest == [];
        assert t2 == Replay.Trace(t1.final, []);
        assert t1.effects + t2.effects == t1.effects;
      } else {
        assert forall i :: 0 <= i < |rounds[1..]| ==> rounds[1..][i] == rounds[i + 1];
        MissesExhaustTries(ext, t1.final, user, rounds[1..]);
        MissesCompose(gs, t1, t2, user, |rounds| - 1);
      }
    }
  }

  /** One missed round is `MissesOutcome` for one round. */
  lemma MissOne<E>(ext: Externals<E>, gs: GameSession<E>, r: Round<E>)
    requires r.ctx.source in gs.sessions
    requires gs.sessions[r.ctx.source].status == WaitUserInput
    requires TriesBound(gs.sessions[r.ctx.source])
    requires PlayableRound(ext, r.ctx.source, r) && !ext.hasGuessed(r.verdict)
    ensures MissesOutcome(gs, Run(ext, gs, RoundInputs(r.ctx, r.word, r.verdict)), r.ctx.source, 1)
  {
    PlayRound(ext, gs, r);
  }

  /** A missed round followed by `m` more is `MissesOutcome` for `m + 1` rounds. */
  lemma MissesCompose<E>(gs: GameSession<E>, t1: SessionTrace<E>, t2: SessionTrace<E>, user: ActorId, m: nat)
    requires m > 0
    requires user in gs.sessions
    requires MissesOutcome(gs, t1, user, 1)
    requires user in t1.final.sessions
    requires MissesOutcome(t1.final, t2, user, m)
    ensures MissesOutcome(gs, Replay.Trace(t2.final, t1.effects + t2.effects), user, m + 1)
  {
  }

  /** A correct guess wins at whichever try it comes, and the user is told Win. */
  lemma GuessWins<E>(ext: Externals<E>, gs: GameSession<E>, r: Round<E>)
    requires r.ctx.source in gs.sessions
    requires gs.sessions[r.ctx.source].status == WaitUserInput
    requires TriesBound(gs.sessions[r.ctx.source])
    requires PlayableRound(ext, r.ctx.source, r)
    requires ext.hasGuessed(r.verdict)
    ensures var t := Run(ext, gs, RoundInputs(r.ctx, r.word, r.verdict));
            && t.final.sessions[r.ctx.source].status == SessionStatus.GameOver(Win)
            && t.final.sessions[r.ctx.source].tries <= TriesLimit
            && t.effects[|t.effects| - 1] == Reply(GameSessionEvent.GameOver(Win))
  {
    PlayRound(ext, gs, r);
  }

  /**
   A whole lost game for a new user: the start handshake, then five missed
   words. The fifth miss ends the game with Lose, and the Lose reply is the
   last thing the user receives.
   */
  lemma FullGameLost<E>(ext: Externals<E>, gs: GameSession<E>, ctx: Context, started: E, rounds: seq<Round<E>>)
    requires ctx.source !in gs.sessions
    requires ext.getUser(started) == ctx.source
    requires |rounds| == TriesLimit
    requires forall i :: 0 <= i < |rounds| ==> PlayableRound(ext, ctx.source, rounds[i]) && !ext.hasGuessed(rounds[i].verdict)
    ensures var t := Run(ext, gs, StartInputs(ctx, started) + RoundsInputs(rounds));
            && ctx.source in t.final.sessions
            && t.final.sessions[ctx.source].status == SessionStatus.GameOver(Lose)
            && t.final.sessions[ctx.source].tries == TriesLimit
            && t.final.sessions[ctx.source].sessionId == ctx.id
            && |t.effects| == 5 + 4 * TriesLimit
            && t.effects[|t.effects| - 1] == Reply(GameSessionEvent.GameOver(Lose))
  {
    StartHandshake(ext, gs, ctx, started);
    var t0 := Run(ext, gs, StartInputs(ctx, started));
    RunAppend(ext, gs, StartInputs(ctx, started), RoundsInputs(rounds));
    MissesExhaustTries(ext, t0.final, ctx.source, rounds);
  }
}
