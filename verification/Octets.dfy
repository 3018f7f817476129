/** Exclusive or of bytes: numbers to machine bytes, bit by bit, and back. */
module Octets {
  import opened Bytes

  function Bits(a: Byte): bv8 { a as bv8 }

  function Number(x: bv8): Byte { x as int }

  function BitXor(x: bv8, y: bv8): bv8 { x ^ y }

  function Xor(a: Byte, b: Byte): Byte {
    Number(BitXor(Bits(a), Bits(b)))
  }

  lemma HalvesThereAndBack(n: int, high: int, low: int)
    requires 0 <= high < 16 && 0 <= low < 16 && n == 16 * high + low
    ensures (n as bv8) as int == n
  {
  }

  lemma NumberOfBits(a: Byte)
    ensures Number(Bits(a)) == a
  {
    HalvesThereAndBack(a, a / 16, a % 16);
  }

  lemma BitsOfNumber(x: bv8)
    ensures Bits(Number(x)) == x
  {
  }

  lemma BitXorCancels(x: bv8, y: bv8)
    ensures BitXor(BitXor(x, y), y) == x
  {
  }

  lemma XorTwice(a: Byte, b: Byte)
    ensures Xor(Xor(a, b), b) == a
  {
    hide Bits, Number, BitXor;
    BitsOfNumber(BitXor(Bits(a), Bits(b)));
    BitXorCancels(Bits(a), Bits(b));
    NumberOfBits(a);
  }

  /** Exclusive or of bytes, said of machine bytes. */
  lemma XorIsBitwise(a: Byte, b: Byte)
    ensures Xor(a, b) as bv8 == (a as bv8) ^ (b as bv8)
  {
    BitsOfNumber((a as bv8) ^ (b as bv8));
  }
}
