/** Byte strings, and 16-bit numbers in them with the low byte first. */
module Octets {

  type Bytes = seq<bv8>

  function Zeros(n: nat): (z: Bytes)
    ensures |z| == n
  {
    seq(n, _ => 0)
  }

  function Le16(b: Bytes, i: nat): (n: nat)
    requires i + 2 <= |b|
    ensures n < 0x1_0000
  {
    b[i] as nat + 256 * (b[i + 1] as nat)
  }

  function Next(b: bv8): (r: bv8)
    requires b as nat < 255
    ensures r as nat == b as nat + 1
  {
    b + 1
  }

  /** The byte with a given value. */
  function Byte(n: nat): (b: bv8)
    requires n < 256
    ensures b as nat == n
  {
    if n == 0 then 0 else Next(Byte(n - 1))
  }

  function Put16(n: nat): (b: Bytes)
    requires n < 0x1_0000
    ensures |b| == 2 && Le16(b, 0) == n
  {
    [Byte(n % 256), Byte(n / 256)]
  }
}
