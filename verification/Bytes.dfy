/** Byte strings and the big-endian 16-bit integers of network protocols. */
module Bytes {

  type Byte = x: int | 0 <= x < 256

  type Bytes = seq<Byte>

  const U16_LIMIT: int := 0x1_0000

  /** The two bytes of a 16-bit integer, most significant first; of a larger one the lower 16 bits. */
  function U16Bytes(n: nat): (r: Bytes)
    ensures |r| == 2
    ensures n < U16_LIMIT ==> 256 * (r[0] as int) + (r[1] as int) == n
  {
    [n / 256 % 256, n % 256]
  }

  /** The 16-bit integer stored at index i. */
  function U16At(b: Bytes, i: nat): (n: nat)
    requires i + 2 <= |b|
    ensures n < U16_LIMIT && U16Bytes(n) == [b[i], b[i + 1]]
  {
    256 * (b[i] as int) + (b[i + 1] as int)
  }

  /** n zero bytes. */
  function Zeros(n: nat): (r: Bytes)
    ensures |r| == n
  {
    seq(n, _ => 0)
  }
}
