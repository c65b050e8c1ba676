/**
  The machine integers the buffer module works with: Go's `byte` and the
  `int64` that the script runtime's integer conversion produces, and Go's
  conversion from the one to the other.
 */
module Bytes {

  /** Go's `byte` (`uint8`). */
  newtype byte = x: int | 0 <= x < 0x100

  /** Go's `int64`, the type of a converted script integer. */
  newtype int64 = x: int | -0x8000_0000_0000_0000 <= x < 0x8000_0000_0000_0000

  const TwoTo64: int := 0x1_0000_0000_0000_0000

  /** The 64-bit two's-complement pattern of `v`, read as an unsigned number. */
  function Bits64(v: int64): (u: nat)
    ensures u < TwoTo64
    ensures u == v as int || u == v as int + TwoTo64
  {
    if v < 0 then v as int + TwoTo64 else v as int
  }

  /**
    Go's conversion `byte(v)` of an `int64`: it keeps the lowest 8 bits of
    the two's-complement pattern. The result is the Euclidean remainder of
    `v` modulo 256, which for negative `v` differs from Go's `%`.
   */
  function ToByte(v: int64): (b: byte)
    ensures b as int == v as int % 0x100
    ensures 0 <= v < 0x100 ==> b as int == v as int
  {
    (Bits64(v) % 0x100) as byte
  }

  /** A byte widened back to an `int64`, as a script array element holds it. */
  function Widen(b: byte): (v: int64)
    ensures ToByte(v) == b
  {
    b as int as int64
  }

  /**
    Go's `[]byte(s)` for a string of ASCII characters: UTF-8 encodes each
    such character as the one byte of the same code.
   */
  function AsciiBytes(s: string): (r: seq<byte>)
    requires forall i :: 0 <= i < |s| ==> s[i] as int < 0x80
    ensures |r| == |s|
    ensures forall i :: 0 <= i < |s| ==> r[i] as int == s[i] as int
  {
    seq(|s|, i requires 0 <= i < |s| => s[i] as int as byte)
  }
}
