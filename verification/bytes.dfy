/** Bytes, and 32-bit numbers in either byte order. */
module Bytes {
  type Byte = b: nat | b < 256

  const WORD32: nat := 0x1_0000_0000

  /** A number modulo 2^32. */
  function U32(x: int): (y: nat)
    ensures y < WORD32 && (0 <= x < WORD32 ==> y == x)
  {
    x % WORD32
  }

  /** Four bytes, most significant first or last. */
  function Put32(bigEndian: bool, x: nat): (s: seq<Byte>)
    requires x < WORD32
    ensures |s| == 4
  {
    var a: Byte := x % 256;
    var b: Byte := x / 256 % 256;
    var c: Byte := x / 256 / 256 % 256;
    var d: Byte := x / 256 / 256 / 256;
    if bigEndian then [d, c, b, a] else [a, b, c, d]
  }

  function Get32(bigEndian: bool, s: seq<Byte>): (x: nat)
    requires |s| == 4
    ensures x < WORD32
  {
    var a: nat, b: nat, c: nat, d: nat := s[0], s[1], s[2], s[3];
    if bigEndian then 16777216 * a + 65536 * b + 256 * c + d else 16777216 * d + 65536 * c + 256 * b + a
  }

  lemma GetPut32(bigEndian: bool, x: nat)
    requires x < WORD32
    ensures Get32(bigEndian, Put32(bigEndian, x)) == x
  {
    var p, q, r := x / 256, x / 256 / 256, x / 256 / 256 / 256;
    assert x == 256 * p + x % 256 && p == 256 * q + p % 256 && q == 256 * r + q % 256;
  }
}
