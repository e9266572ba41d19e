/**
 Sequences of messages delivered to the program one at a time, each handled
 to completion before the next (Gear's model for one program), and the
 invariant that every such run keeps.
 */
module Execution {
  import opened GameSessionIo
  import opened Program
  import Replay

  /** One message delivered to the program: to `handle` or to `handle_reply`. */
  datatype Input<E> =
    | Message(ctx: Context, action: GameSessionAction)
    | WordleReply(replyTo: MessageId, event: E)

  /** The committed state and every effect emitted, in order. */
  type SessionTrace<E> = Replay.Trace<GameSession<E>, Effect<E>>

  /** The state right after `init`: no sessions yet. */
  function Initial<E>(wordleProgramId: ActorId): (gs: GameSession<E>)
    ensures Valid(gs)
  {
    GameSession(wordleProgramId, map[])
  }

  function Deliver<E>(ext: Externals<E>, gs: GameSession<E>, input: Input<E>): Handled<E> {
    match input
    case Message(ctx, action) => Handle(ext, gs, ctx, action)
    case WordleReply(replyTo, event) => HandleReply(ext, gs, replyTo, event)
  }

  /** The effects a handled message leaves behind: none when it panicked. */
  function EffectsOf<E>(h: Handled<E>): seq<Effect<E>> {
    if h.Panicked? then [] else h.effects
  }

  /** One message delivered: a rejected message leaves no trace, any other commits its state and effects. */
  function Step<E>(ext: Externals<E>, gs: GameSession<E>, input: Input<E>): SessionTrace<E> {
    var h := Deliver(ext, gs, input);
    Replay.Trace(Commit(gs, h), EffectsOf(h))
  }

  function StepFn<E>(ext: Externals<E>): (GameSession<E>, Input<E>) -> SessionTrace<E> {
    (g, i) => Step(ext, g, i)
  }

  /**
   Every step keeps every existing session and the Wordle address, so a
   whole run does too.
   */
  lemma {:induction false} RunKeepsSessions<E>(ext: Externals<E>, gs: GameSession<E>, inputs: seq<Input<E>>)
    ensures var g := Replay.Run(StepFn(ext), gs, inputs).final;
            gs.sessions.Keys <= g.sessions.Keys && g.wordleProgramId == gs.wordleProgramId
  {
    var keeps := (g: GameSession<E>) => gs.sessions.Keys <= g.sessions.Keys && g.wordleProgramId == gs.wordleProgramId;
    forall g, i | keeps(g)
      ensures keeps(StepFn(ext)(g, i).final)
    {
      var h := Deliver(ext, g, i);
      assert h.Done? ==> g.sessions.Keys <= h.next.sessions.Keys && h.next.wordleProgramId == g.wordleProgramId;
    }
    Replay.RunPreserves(StepFn(ext), keeps, gs, inputs);
  }

  /** Delivers `inputs` in order. No session is ever removed. */
  function Run<E>(ext: Externals<E>, gs: GameSession<E>, inputs: seq<Input<E>>): (t: SessionTrace<E>)
    ensures gs.sessions.Keys <= t.final.sessions.Keys
    ensures t.final.wordleProgramId == gs.wordleProgramId
  {
    RunKeepsSessions(ext, gs, inputs);
    Replay.Run(StepFn(ext), gs, inputs)
  }

  /** Delivering the first message, then running the rest. */
  lemma RunFirst<E>(ext: Externals<E>, gs: GameSession<E>, inputs: seq<Input<E>>)
    requires |inputs| > 0
    ensures var h := Deliver(ext, gs, inputs[0]);
            var rest := Run(ext, Commit(gs, h), inputs[1..]);
            Run(ext, gs, inputs) == Replay.Trace(rest.final, EffectsOf(h) + rest.effects)
  {
  }

  /** Running two batches one after the other is running their concatenation. */
  lemma RunAppend<E>(ext: Externals<E>, gs: GameSession<E>, a: seq<Input<E>>, b: seq<Input<E>>)
    ensures var ta := Run(ext, gs, a);
            var tb := Run(ext, ta.final, b);
            Run(ext, gs, a + b) == Replay.Trace(tb.final, ta.effects + tb.effects)
  {
    Replay.RunAppend(StepFn(ext), gs, a, b);
  }

  /** Every message, accepted or rejected, keeps the `tries` bound of every session. */
  lemma DeliverPreservesValid<E>(ext: Externals<E>, gs: GameSession<E>, input: Input<E>)
    requires Valid(gs)
    ensures Valid(Commit(gs, Deliver(ext, gs, input)))
  {
  }

  /**
   The `tries` bound holds after any run from a valid state: `tries` never
   exceeds `TriesLimit`, and only a finished game can have reached it.
   */
  lemma RunPreservesValid<E>(ext: Externals<E>, gs: GameSession<E>, inputs: seq<Input<E>>)
    requires Valid(gs)
    ensures Valid(Run(ext, gs, inputs).final)
  {
    forall g, i | Valid(g)
      ensures Valid(StepFn(ext)(g, i).final)
    {
      DeliverPreservesValid(ext, g, i);
    }
    Replay.RunPreserves(StepFn(ext), g => Valid(g), gs, inputs);
  }

  /** In every reachable state, every session respects the `tries` bound. */
  lemma ReachableIsValid<E>(ext: Externals<E>, wordleProgramId: ActorId, inputs: seq<Input<E>>, user: ActorId)
    requires user in Run(ext, Initial(wordleProgramId), inputs).final.sessions
    ensures var info := Run(ext, Initial(wordleProgramId), inputs).final.sessions[user];
            && info.tries <= TriesLimit
            && (!info.status.GameOver? ==> info.tries < TriesLimit)
  {
    RunPreservesValid(ext, Initial<E>(wordleProgramId), inputs);
  }
}
