/**
 The word check of `CheckWord`, seen from the user's side: what it accepts
 for plain ASCII words, and that a rejected word never reaches Wordle.
 */
module WordCheck {
  import opened GameSessionIo
  import opened Program
  import Utf8

  /**
   The assumption the lemmas below make about `char::is_lowercase`: on ASCII
   characters it holds exactly for 'a' to 'z'.
   */
  predicate LowercaseAgreesOnAscii<E>(ext: Externals<E>) {
    forall c: char :: Utf8.IsAscii(c) ==> (ext.isLowercase(c) <==> 'a' <= c <= 'z')
  }

  /** For an ASCII word, the check is: five characters, each from 'a' to 'z'. */
  lemma AsciiWordCheck<E>(ext: Externals<E>, word: string)
    requires LowercaseAgreesOnAscii(ext)
    requires Utf8.AllAscii(word)
    ensures ValidWord(ext, word) <==> |word| == 5 && forall i :: 0 <= i < |word| ==> 'a' <= word[i] <= 'z'
  {
  }

  /**
   While the game waits for a word, an ASCII word of the wrong length or with
   a character outside 'a' to 'z' makes `CheckWord` panic: no request goes
   to Wordle and the session is left as it was.
   */
  lemma MalformedWordRejected<E>(ext: Externals<E>, gs: GameSession<E>, ctx: Context, word: string)
    requires LowercaseAgreesOnAscii(ext)
    requires Utf8.AllAscii(word)
    requires |word| != 5 || exists i :: 0 <= i < |word| && !('a' <= word[i] <= 'z')
    requires ctx.source in gs.sessions
    requires gs.sessions[ctx.source].status in {WaitUserInput, WaitWordleCheckWordReply}
    ensures OnCheckWord(ext, gs, ctx, word) == Panicked(InvalidWord)
    ensures Commit(gs, OnCheckWord(ext, gs, ctx, word)) == gs
  {
  }

  /**
   The length check counts UTF-8 bytes, not characters: a four-character
   word with one two-byte letter ("café") passes it, and the five-character
   "cafés" does not.
   */
  lemma LengthCountsBytes()
    ensures Utf8.ByteLen("caf\U{e9}") == 5
    ensures Utf8.ByteLen("caf\U{e9}s") == 6
  {
  }
}
