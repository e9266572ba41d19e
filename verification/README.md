# game-session: a Dafny model of the Wordle session state machine

The game-session program is a Gear program. It plays Wordle on behalf of each user by
exchanging messages with a separate Wordle program. For every user it keeps a session
record: a status, the number of words checked so far (`tries`, at most `TRIES_LIMIT = 5`)
and three message ids:

- `session_id`: the game, and the key of that game's timeout;
- `original_msg_id`: the user message that is currently suspended;
- `send_to_wordle_msg_id`: the request that went to Wordle.

The model covers the program's three behaviours:

- `handle` on `StartGame`, `CheckWord { word }` and the self-addressed timeout
  `CheckGameStatus { user, session_id }`;
- `handle_reply`, which matches a Wordle reply to the session waiting for it and wakes the
  suspended message;
- the rules for the `tries` counter.

Each message is one atomic step over the program state `GameSession` (the Wordle program's
address plus a `map` from user to `SessionInfo`). The runtime's answers become inputs in
`Program.Context`: `msg::id()`, `msg::source()`, `exec::program_id()`, and the id `msg::send`
returns. What the program asks of the runtime is returned as a list of `Effect`s:
`SendToWordle`, `SendDelayed`, `SendToUser`, `Reply`, `Wait` and `Wake`.

A `panic!` or a failed `assert!` gives `Panicked(reason)`. Gear reverts every change made by
that message, which `Program.Commit` models. That includes the default entry
`entry(user).or_default()` may have inserted. `exec::wait()` keeps the changes and the sends
made before it.

Gear has no continuations. A woken message runs `handle` again from the top with the same
message id. So resuming is a second delivery of the same message, and `Execution.Run` replays
any sequence of messages.

Modules:

- `GameSessionIo` (`io.dfy`): the shared types.
- `Program` (`game_session.dfy`): the handlers.
- `Utf8` (`utf8.dfy`): Rust's `str::len`.
- `Replay` (`replay.dfy`): replaying messages one at a time through any step function.
- `Execution` (`execution.dfy`): runs of this program and the `tries` invariant.
- `Transitions` (`transitions.dfy`): the transition table, one row group per lemma.
- `Scenarios` (`scenarios.dfy`): whole conversations.
- `WordCheck` (`words.dfy`): the word check.

### Modelling choices

- `WordleEvent` is a type parameter `E`. The program only asks three things of code not
  shown here: `get_user`, `has_guessed` and `char::is_lowercase`. These are the fields of
  `Externals<E>` and are left uninterpreted.
- Converting a Wordle event to a `GameSessionEvent` (`wordle_event.into()`) is kept symbolic
  as `GameSessionEvent.FromWordle(e)`.
- `is_wait_reply_status` is defined outside this model. It is assumed to hold exactly in
  `WaitWordleStartReply` and `WaitWordleCheckWordReply` (`SessionStatus.IsWaitReply`). Its
  name and its use in `handle_reply` suggest this.
- `word.len()` is the UTF-8 byte length. `Utf8.ByteLen` computes it exactly from the Unicode
  scalar values of the word.
- `exec::program_id()` is read per message from `Context.programId`. The same program answers
  every message, so the scenarios that deliver the timeout require its sender to be the
  `programId` of the `StartGame` that armed it.
- `tries += 1` on a `u8` is modelled as wrap-around, as in a release build.
  `Execution.RunPreservesValid` shows that `tries` is below 5 whenever this increment runs, so
  the wrap never happens in a reachable state.

### Behaviour worth noting in the code

- **Second `StartGame` while waiting for Wordle's start reply.** The code
  (`game-session/src/lib.rs:36-38`) accepts `StartGame` in `WaitWordleStartReply` and starts
  the game again, with a new game id and a new request to Wordle.
  `Scenarios.RestartSupersedesGame` shows that the first game's timeout and Wordle's reply to
  the first request are then both ignored: they change nothing and emit nothing.
- **Word length.** The comment at `game-session/src/lib.rs:93` asks for a word "5 letters
  long", but the code compares `word.len()`, the UTF-8 byte length, with 5.
  `WordCheck.LengthCountsBytes` exhibits the difference: a 4-character word with one 2-byte
  letter passes the length comparison, and a 5-character one fails it. Whether such a word
  also passes the lower-case test depends on `char::is_lowercase`, which is not modelled.
- **Timeout scope.** The timeout is armed only at `StartGame` and is keyed by the game's
  `session_id`. It therefore ends the whole game, not just the start handshake, unless the
  game is already over (`game-session/src/lib.rs:119-120`).

## Model

| member | source | states |
|---|---|---|
| Program.Handle | game-session/src/lib.rs:21-130 | A timeout message never panics. An accepted message changes only the entry of the user it concerns (the sender, or the user the timeout carries), never removes an entry and never changes the Wordle address. It keeps the `tries` bound of every session. |
| Program.OnStartGame | game-session/src/lib.rs:27-68 | Panics exactly while a game is in progress (`WaitUserInput`, `WaitWordleCheckWordReply`), with "already in game". Otherwise it leaves the sender with an entry, touches no other entry and keeps the `tries` bound. |
| Program.OnCheckWord | game-session/src/lib.rs:69-115 | Never panics on a stored reply. While waiting for a word it panics only for an invalid word. In every other state it panics with "not in game". When accepted, the entry already existed, no entry is created, the game id is unchanged and the `tries` bound is kept. |
| Program.OnCheckGameStatus | game-session/src/lib.rs:116-128 | Never panics and never creates an entry. If the sender is not the program itself, the user is unknown, the game id differs or the game is over, nothing changes and nothing is sent. Otherwise only that user's status becomes `GameOver(Lose)`, and one `SendToUser(user, GameOver(Lose))` is emitted. |
| Program.HandleReply | game-session/src/lib.rs:132-144 | A reply is accepted only if the user it names has a session, it answers that session's last Wordle request, and the session is waiting for a reply. Then the session stores the event and the suspended `original_msg_id` is woken. Otherwise the state is unchanged and nothing is emitted. Other users are never touched. |
| Program.IncTries | game-session/src/lib.rs:74 | `tries += 1` on a `u8`: one more below 255, and 0 after 255. |
| Program.ValidWord | game-session/src/lib.rs:93-97 | A word that passes the check has between two and five characters, since each character takes one to four UTF-8 bytes, and exactly five when it is ASCII. |
| Utf8.ByteLen | game-session/src/lib.rs:95 | The byte length `word.len()` lies between the number of characters and four times that, and equals the number of characters exactly when the word is ASCII. |
| Execution.RunPreservesValid | game-session/src/lib.rs:74-88 | After any sequence of messages and Wordle replies from a valid state, every session has `tries <= 5`, and `tries < 5` unless its game is over. |
| Execution.ReachableIsValid | game-session/src/lib.rs:7 | In every state reachable from the empty table, every session has `tries <= TRIES_LIMIT`, and `tries < TRIES_LIMIT` unless its game is over. |
| Transitions.StartGameRejectedInGame | game-session/src/lib.rs:64-66 | `StartGame` during `WaitUserInput` or `WaitWordleCheckWordReply` panics with "already in game" and leaves the whole table unchanged. |
| Transitions.CheckWordRejectedOutsideGame | game-session/src/lib.rs:109-113 | `CheckWord` for a user in `Init`, `WaitWordleStartReply` or `GameOver`, or with no entry, panics with "not in game". The table is unchanged, with no default entry left behind. |
| Transitions.StartGameOpensGame | game-session/src/lib.rs:36-62 | `StartGame` from `Init`, `GameOver`, `WaitWordleStartReply` or an absent entry sets `session_id = original_msg_id =` the message id, `send_to_wordle_msg_id =` the send's id, `tries = 0` and `WaitWordleStartReply`. It emits exactly, in order: the start request to Wordle, the delayed self-addressed `CheckGameStatus{user, msg id}`, and `Wait`. |
| Transitions.StartGameDeliversReply | game-session/src/lib.rs:31-35 | A re-run `StartGame` on `ReplyReceived(e)` replies with `e` converted, moves to `WaitUserInput`, keeps `tries` and all ids, and sends nothing to Wordle. |
| Transitions.CheckWordSettlesRound | game-session/src/lib.rs:73-90 | A re-run `CheckWord` on `ReplyReceived(e)` raises `tries` by exactly one and changes nothing else but the status. A guessed word gives `GameOver(Win)` with a Win reply. Otherwise reaching `TRIES_LIMIT` gives `GameOver(Lose)` with a Lose reply. Otherwise it replies `e` and moves to `WaitUserInput`. |
| Transitions.MissLosesIffLastTry | game-session/src/lib.rs:80-88 | A missed word ends the game with Lose, and is answered with Lose, exactly when it is the fifth try. |
| Transitions.CheckWordForwardsWord | game-session/src/lib.rs:92-107 | While waiting for a word (or a check reply), an invalid word panics before any send and leaves the table unchanged. A valid word is sent to Wordle, then `Wait`. `original_msg_id` and `send_to_wordle_msg_id` are updated, the status becomes `WaitWordleCheckWordReply`, and `session_id` and `tries` are kept. |
| Transitions.TimeoutIdempotent | game-session/src/lib.rs:116-127 | The timeout never creates an entry, and delivering it twice leaves the same state as once, the second time with no effect. |
| Transitions.StaleTimeoutIgnored | game-session/src/lib.rs:117-119 | A timeout from anyone but the program itself, for an unknown user or for another game id, changes nothing and emits nothing. |
| Transitions.ReplyAcceptedIffCorrelated | game-session/src/lib.rs:138-142 | A Wordle reply changes the state, and emits an effect, if and only if it is correlated with the session it names. Other users' sessions are never touched. |
| Transitions.DuplicateReplyDropped | game-session/src/lib.rs:139 | The same Wordle reply delivered a second time is dropped. |
| Scenarios.StartHandshake | game-session/src/lib.rs:27-62 | StartGame, then Wordle's matching reply, then the woken StartGame's re-run. The game ends in `WaitUserInput` with `tries = 0`. The effects are the start request, the timeout, `Wait`, `Wake` of the same message, and the reply carrying Wordle's event. |
| Scenarios.TimeoutWithoutReply | game-session/src/lib.rs:116-127 | StartGame, then the matching timeout, Wordle's late reply and the timeout again. The game ends `GameOver(Lose)`, the user is sent Lose exactly once, the late reply is dropped, and the suspended message is never woken. |
| Scenarios.RestartSupersedesGame | game-session/src/lib.rs:36-50 | A second StartGame while waiting for the start reply opens a new game. The first game's timeout and Wordle's reply to the first request then change nothing and emit nothing: the only effects are the two start requests, the two timeouts (each keyed by its own game id) and two `Wait`s. |
| Scenarios.StaleMessagesIgnored | game-session/src/lib.rs:117-139 | While a restarted game waits for its start reply, a timeout carrying an older game id and a Wordle reply to an older request change nothing and emit nothing. |
| Scenarios.PlayRound | game-session/src/lib.rs:69-107 | One round from `WaitUserInput`: CheckWord, Wordle's reply, then the re-run. `tries` goes up by one and `session_id` is kept. The effects are the check request, `Wait`, `Wake` of the same message, then Win, Lose or Wordle's progress report, by the rules above. |
| Scenarios.MissesExhaustTries | game-session/src/lib.rs:74-88 | Each missed round adds one try. The game keeps waiting for a word while tries remain. The round that uses the last try ends it with Lose, and the Lose reply is the last effect. Other sessions are untouched. |
| Scenarios.GuessWins | game-session/src/lib.rs:75-79 | A guessed word at any try ends the game with Win, and Win is the last reply. |
| Scenarios.FullGameLost | game-session/src/lib.rs:80-84 | For a new user: the start handshake, then five missed words. The game ends `GameOver(Lose)` with `tries = 5` and the game id of the StartGame, and the last reply is Lose. |
| WordCheck.AsciiWordCheck | game-session/src/lib.rs:94-97 | For an ASCII word, and with `is_lowercase` agreeing with 'a'..'z' on ASCII, the check accepts exactly the words of five characters from 'a' to 'z'. |
| WordCheck.MalformedWordRejected | game-session/src/lib.rs:94-97 | An ASCII word of the wrong length, or with a character outside 'a'..'z', panics with "invalid word" before anything is sent, and the table is unchanged. |
| WordCheck.LengthCountsBytes | game-session/src/lib.rs:95 | The length check counts bytes: "café" has byte length 5 and "cafés" has byte length 6. |

## Left out

- `init` and `GameSessionInit::assert_valid` (`lib.rs:11-19`): start-up only. The state they
  produce is any `GameSession` with an empty table (`Execution.Initial`).
- The `state` query and the `GameSessionState` conversion (`lib.rs:146-150`): read-only
  projection.
- The `static mut` global and its accessors (`lib.rs:9, 152-165`): the state is passed
  explicitly.
- `msg::load` decoding and the `.expect(...)` failures of `send`, `send_delayed`, `reply`,
  `wake` and `reply_to`: transport errors. The runtime calls always succeed here.
- The id `send_delayed` returns and the id of the user notification in `CheckGameStatus`:
  the program ignores both.
- The delay of 200 blocks and all timing: the timeout is just another delivered message.
- The error reply Gear sends to the sender of a panicking message: it is runtime behaviour,
  not an effect the program asks for, so a rejected message contributes no effects to a
  `Trace`.
- The Wordle program's matching logic and the definitions of `get_user`, `has_guessed`,
  `is_wait_reply_status`, `char::is_lowercase` and the event conversion: they live outside
  this program (see the modelling choices above).
- Gear's wait/wake scheduler, the expiry of waiting messages, and interleavings inside one
  message: each message is one atomic step.
- WordCheck.AsciiWordCheck: states the word check for ASCII words only; for other characters
  it relies on the uninterpreted `is_lowercase`.
