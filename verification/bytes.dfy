/** Bytes and the line terminators. */
module Bytes {

  /** An unsigned 8-bit value (`u8`). */
  type byte = b: int | 0 <= b < 0x100

  const CR: byte := 13
  const LF: byte := 10

  /** True for the two line-terminator bytes. */
  predicate IsTerminator(b: byte) {
    b == CR || b == LF
  }

  /** True when no byte of `s` is a terminator. */
  predicate NoTerminators(s: seq<byte>) {
    forall i :: 0 <= i < |s| ==> !IsTerminator(s[i])
  }
}
