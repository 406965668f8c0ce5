/** Bytes as the editor stores them, and the byte classes its motions use. */
module Bytes {

  /** An unsigned 8-bit byte (`u8`). */
  newtype u8 = b: int | 0 <= b < 256

  const NUL: u8 := 0
  const BS: u8 := 8
  const TAB: u8 := 9
  const NL: u8 := 10
  const CR: u8 := 13
  const SPACE: u8 := 32
  const DASH: u8 := 45
  const SLASH: u8 := 47
  const BACKSLASH: u8 := 92

  /** `is_whitespace`: space, tab, line feed and carriage return, and nothing else. */
  predicate IsWhitespace(ch: u8) {
    ch == SPACE || ch == TAB || ch == NL || ch == CR
  }

  /** `isprint` of the C library in the "C" locale: 0x20 through 0x7E. */
  predicate IsPrint(ch: int) {
    0x20 <= ch <= 0x7E
  }

  /** The byte at `i`, or the 0 sentinel past the end (`char_from_pos`'s convention). */
  function CharAt(t: seq<u8>, i: int): u8
    requires 0 <= i
  {
    if i < |t| then t[i] else NUL
  }

  /** `n` copies of the space byte. */
  function Spaces(n: nat): (s: seq<u8>)
    ensures |s| == n && forall k :: 0 <= k < n ==> s[k] == SPACE
  {
    if n == 0 then [] else Spaces(n - 1) + [SPACE]
  }
}
