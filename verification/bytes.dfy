/**
  Byte-level arithmetic of the LIN stack: the Arduino `byte` and
  `unsigned int` types, C's truncating conversions into them, and the
  wrapping byte accumulator that both checksum loops use.
 */
module Bytes {

  /** An Arduino `byte` (C `unsigned char`). */
  type byte = x: int | 0 <= x < 0x100

  /** Number of values of the target's `unsigned int`: 16 bits on the AVR
      boards (Arduino Nano) the stack is written for. */
  const UIntModulus: nat := 0x1_0000

  /** An Arduino `unsigned int`. */
  type uint = x: int | 0 <= x < 0x1_0000

  /** C's conversion of an integer to `byte`: the unique byte congruent to
      `x` modulo 256 (Dafny's `%` is Euclidean, so negative values wrap as
      they do in C). */
  function ToByte(x: int): (b: byte)
    ensures (x - b) % 0x100 == 0
  {
    x % 0x100
  }

  /** C's conversion of an integer to `unsigned int`. */
  function ToUInt(x: int): (u: uint)
    ensures (x - u) % UIntModulus == 0
  {
    x % UIntModulus
  }

  /** The mathematical (unbounded) sum of a byte sequence. */
  function Sum(s: seq<byte>): nat
  {
    if s == [] then 0 else Sum(s[..|s| - 1]) + s[|s| - 1]
  }

  /** Reducing the first operand modulo 256 before an addition does not
      change the sum modulo 256. */
  lemma ModAddByte(x: nat, y: int)
    ensures (x % 0x100 + y) % 0x100 == (x + y) % 0x100
  {
    var q := x / 0x100;
    assert x == 0x100 * q + x % 0x100;
    ModShift(x % 0x100 + y, q);
  }

  /** Adding a multiple of 256 does not change a value modulo 256. */
  lemma {:induction false} ModShift(z: int, q: nat)
    ensures (z + 0x100 * q) % 0x100 == z % 0x100
    decreases q
  {
    if q > 0 {
      ModShift(z, q - 1);
      assert z + 0x100 * q == (z + 0x100 * (q - 1)) + 0x100;
    }
  }

  /** The `byte suma` accumulator of the checksum loops: each byte is added
      in order and the running total is stored back into a byte. Whatever
      the length, it ends at the true sum reduced modulo 256. */
  function WrapSum(s: seq<byte>): (suma: byte)
    ensures suma == Sum(s) % 0x100
  {
    if s == [] then 0
    else
      var suma := WrapSum(s[..|s| - 1]);
      ModAddByte(Sum(s[..|s| - 1]), s[|s| - 1]);
      ToByte(suma + s[|s| - 1])
  }
}
