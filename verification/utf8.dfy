/**
 Rust's `str::len`: the length of a string in bytes of its UTF-8 encoding,
 not its number of characters. A Dafny `string` is a sequence of Unicode
 scalar values, so the encoded length is determined character by character.
 */
module Utf8 {

  /** Number of bytes UTF-8 uses to encode one Unicode scalar value. */
  function Width(c: char): (n: nat)
    ensures 1 <= n <= 4
    ensures n == 1 <==> IsAscii(c)
  {
    if c as int < 0x80 then 1
    else if c as int < 0x800 then 2
    else if c as int < 0x1_0000 then 3
    else 4
  }

  predicate IsAscii(c: char) {
    c as int < 0x80
  }

  predicate AllAscii(s: string) {
    forall i :: 0 <= i < |s| ==> IsAscii(s[i])
  }

  /** `s.len()` for a Rust `&str`. */
  function ByteLen(s: string): (n: nat)
    ensures |s| <= n <= 4 * |s|
    ensures n == |s| <==> AllAscii(s)
  {
    if |s| == 0 then 0 else Width(s[0]) + ByteLen(s[1..])
  }
}
