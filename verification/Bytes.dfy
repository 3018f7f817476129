/** Bytes, and the little-endian integers every stored format of the device uses. */
module Bytes {

  type Byte = x: int | 0 <= x < 256

  function Le16(n: nat): (b: seq<Byte>)
    requires n < 0x1_0000
    ensures |b| == 2
  {
    [n % 256, n / 256]
  }

  function FromLe16(lo: Byte, hi: Byte): (n: nat)
    ensures n < 0x1_0000
  {
    lo + 256 * hi
  }

  function Le32(n: nat): (b: seq<Byte>)
    requires n < 0x1_0000_0000
    ensures |b| == 4
  {
    Le16(n % 0x1_0000) + Le16(n / 0x1_0000)
  }

  function FromLe32(b: seq<Byte>): (n: nat)
    requires |b| == 4
    ensures n < 0x1_0000_0000
  {
    FromLe16(b[0], b[1]) + 0x1_0000 * FromLe16(b[2], b[3])
  }

  lemma Le16RoundTrip(n: nat)
    requires n < 0x1_0000
    ensures FromLe16(Le16(n)[0], Le16(n)[1]) == n
  {
  }

  lemma FromLe16RoundTrip(lo: Byte, hi: Byte)
    ensures Le16(FromLe16(lo, hi)) == [lo, hi]
  {
  }

  lemma Le32RoundTrip(n: nat)
    requires n < 0x1_0000_0000
    ensures FromLe32(Le32(n)) == n
  {
    Le16RoundTrip(n % 0x1_0000);
    Le16RoundTrip(n / 0x1_0000);
  }

  function Repeat(b: Byte, n: nat): (s: seq<Byte>)
    ensures |s| == n && forall i :: 0 <= i < n ==> s[i] == b
  {
    seq(n, _ => b)
  }
}
