/** CRC-32 as zlib computes it (section 8 of RFC 1952), on bits: the register is 32 bits,
    least significant first, and a message byte is folded into its low end and then
    shifted through in eight steps.

    `FoldWord` says that four bytes folded into a zero register are the same as 32 steps
    of those 32 bits, and a step can be undone. So, started at zero, the CRC is a
    bijection on four-byte messages. */
module Crc32 {
  import opened Bytes

  type Bits = seq<bool>
  type Register = r: Bits | |r| == 32 witness seq(32, _ => false)

  /** 0xEDB88320, least significant bit first. */
  const POLY: Register :=
    [false, false, false, false, false, true, false, false]
    + [true, true, false, false, false, false, false, true]
    + [false, false, false, true, true, true, false, true]
    + [true, false, true, true, false, true, true, true]

  function Zeros(n: nat): (z: Bits)
    ensures |z| == n && forall i :: 0 <= i < n ==> !z[i]
  {
    seq(n, _ => false)
  }

  function Xor(a: Bits, b: Bits): (r: Bits)
    requires |a| == |b|
    ensures |r| == |a| && forall i :: 0 <= i < |a| ==> r[i] == (a[i] != b[i])
  {
    seq(|a|, i requires 0 <= i < |a| => a[i] != b[i])
  }

  function Not(a: Bits): (r: Bits)
    ensures |r| == |a| && forall i :: 0 <= i < |a| ==> r[i] == !a[i]
  {
    seq(|a|, i requires 0 <= i < |a| => !a[i])
  }

  /** The bits of a byte, least significant first, and back. */
  function BitsOf(n: nat, width: nat): (b: Bits)
    ensures |b| == width
  {
    if width == 0 then [] else [n % 2 == 1] + BitsOf(n / 2, width - 1)
  }

  function NatOf(b: Bits): nat {
    if b == [] then 0 else (if b[0] then 1 else 0) + 2 * NatOf(b[1..])
  }

  function Step(r: Register): Register {
    if r[0] then Xor(r[1..] + [false], POLY) else r[1..] + [false]
  }

  function Steps(r: Register, n: nat): Register
    decreases n
  {
    if n == 0 then r else Steps(Step(r), n - 1)
  }

  function FoldByte(r: Register, b: Byte): Register {
    Steps(Xor(r, BitsOf(b, 8) + Zeros(24)), 8)
  }

  function Fold(r: Register, data: seq<Byte>): Register
    decreases |data|
  {
    if data == [] then r else Fold(FoldByte(r, data[0]), data[1..])
  }

  /** zlib.crc32(data, value): the value is complemented on the way in and out. */
  function Crc(data: seq<Byte>, value: Register): Register {
    Not(Fold(Not(value), data))
  }

  /** A register as the four bytes of its little-endian encoding. */
  function BytesOf(r: Register): (b: seq<Byte>)
    ensures |b| == 4
  {
    ByteBound(r[..8]); ByteBound(r[8..16]); ByteBound(r[16..24]); ByteBound(r[24..]);
    [NatOf(r[..8]), NatOf(r[8..16]), NatOf(r[16..24]), NatOf(r[24..])]
  }

  lemma ByteBound(b: Bits)
    requires |b| == 8
    ensures NatOf(b) < 256
  {
    NatBelow(b, 8, 256);
  }

  lemma {:induction false} NatBelow(b: Bits, n: nat, limit: nat)
    requires |b| == n && limit == Pow2(n)
    ensures NatOf(b) < limit
  {
    if n > 0 {
      NatBelow(b[1..], n - 1, Pow2(n - 1));
    }
  }

  function Pow2(n: nat): (p: nat)
    ensures p > 0
  {
    if n == 0 then 1 else 2 * Pow2(n - 1)
  }

  lemma {:induction false} BitsOfNat(b: Bits)
    ensures BitsOf(NatOf(b), |b|) == b
  {
    if b != [] {
      BitsOfNat(b[1..]);
      assert NatOf(b) / 2 == NatOf(b[1..]);
    }
  }

  lemma {:induction false} NatOfBits(n: nat, width: nat)
    requires n < Pow2(width)
    ensures NatOf(BitsOf(n, width)) == n
  {
    if width > 0 {
      NatOfBits(n / 2, width - 1);
      assert BitsOf(n, width)[1..] == BitsOf(n / 2, width - 1);
    }
  }

  // --- A step can be undone -----------------------------------------------------------

  /** The polynomial's top bit is set and a shifted register's is not, which tells which
      branch a step took. */
  function Unstep(x: Register): Register {
    if x[31] then [true] + Xor(x, POLY)[..31] else [false] + x[..31]
  }

  function Unsteps(x: Register, n: nat): Register {
    if n == 0 then x else Unstep(Unsteps(x, n - 1))
  }

  lemma UnstepOfStep(r: Register)
    ensures Unstep(Step(r)) == r
  {
  }

  lemma StepOfUnstep(x: Register)
    ensures Step(Unstep(x)) == x
  {
  }

  lemma {:induction false} UnstepsOfSteps(r: Register, n: nat)
    ensures Unsteps(Steps(r, n), n) == r
    decreases n
  {
    if n > 0 {
      UnstepsOfSteps(Step(r), n - 1);
      UnstepOfStep(r);
    }
  }

  lemma {:induction false} StepsOfUnsteps(x: Register, n: nat)
    ensures Steps(Unsteps(x, n), n) == x
    decreases n
  {
    if n > 0 {
      var u := Unsteps(x, n - 1);
      StepOfUnstep(u);
      StepsOfUnsteps(x, n - 1);
      assert Steps(Unstep(u), n) == Steps(Step(Unstep(u)), n - 1);
    }
  }

  // --- Bytes folded in late are bytes put higher up at the start -------------------------

  lemma {:induction false} StepsAdd(r: Register, m: nat, n: nat)
    ensures Steps(Steps(r, m), n) == Steps(r, m + n)
    decreases m
  {
    if m > 0 {
      StepsAdd(Step(r), m - 1, n);
    }
  }

  /** Bits above the lowest do not choose the branch of a step: they only move down. */
  lemma StepShiftsHighBits(x: Register, d: Bits)
    requires |d| == 31
    ensures Step(Xor(x, [false] + d)) == Xor(Step(x), d + [false])
  {
    assert Xor(x, [false] + d)[1..] + [false] == Xor(x[1..] + [false], d + [false]);
  }

  lemma {:induction false} StepsShiftHighBits(x: Register, c: Bits, n: nat)
    requires |c| + n == 32
    ensures Steps(Xor(x, Zeros(n) + c), n) == Xor(Steps(x, n), c + Zeros(n))
    decreases n
  {
    if n == 0 {
      assert Zeros(0) + c == c == c + Zeros(0);
    } else {
      var d := Zeros(n - 1) + c;
      assert Zeros(n) + c == [false] + d;
      StepShiftsHighBits(x, d);
      assert d + [false] == Zeros(n - 1) + (c + [false]);
      StepsShiftHighBits(Step(x), c + [false], n - 1);
      assert c + Zeros(n) == (c + [false]) + Zeros(n - 1);
    }
  }

  /** Byte number n / 8 of a word, in its place in the register. */
  function Placed(b: Byte, n: nat): Register
    requires n + 8 <= 32
  {
    Zeros(n) + BitsOf(b, 8) + Zeros(24 - n)
  }

  lemma FoldByteAt(x: Register, b: Byte, n: nat)
    requires n + 8 <= 32
    ensures FoldByte(Steps(x, n), b) == Steps(Xor(x, Placed(b, n)), n + 8)
  {
    var c := BitsOf(b, 8) + Zeros(24 - n);
    StepsShiftHighBits(x, c, n);
    assert Zeros(n) + c == Placed(b, n);
    assert c + Zeros(n) == BitsOf(b, 8) + Zeros(24);
    StepsAdd(Xor(x, Placed(b, n)), n, 8);
  }

  lemma FoldFour(b: seq<Byte>, r: Register)
    requires |b| == 4
    ensures var r1 := FoldByte(r, b[0]);
            Fold(r, b) == FoldByte(FoldByte(FoldByte(r1, b[1]), b[2]), b[3])
  {
    var r1 := FoldByte(r, b[0]);
    var r2 := FoldByte(r1, b[1]);
    var r3 := FoldByte(r2, b[2]);
    assert b[1..][1..] == b[2..] && b[2..][1..] == b[3..] && b[3..][1..] == [];
    assert Fold(r3, b[3..]) == FoldByte(r3, b[3]);
    assert Fold(r2, b[2..]) == Fold(r3, b[3..]);
    assert Fold(r1, b[1..]) == Fold(r2, b[2..]);
  }

  lemma FoldTwoAt(x: Register, b: Byte, c: Byte, n: nat)
    requires n + 16 <= 32
    ensures FoldByte(FoldByte(Steps(x, n), b), c)
         == Steps(Xor(Xor(x, Placed(b, n)), Placed(c, n + 8)), n + 16)
  {
    FoldByteAt(x, b, n);
    FoldByteAt(Xor(x, Placed(b, n)), c, n + 8);
  }

  lemma FoldFourAt(x: Register, b: seq<Byte>, n: nat)
    requires |b| == 4 && n == 0
    ensures FoldByte(FoldByte(FoldByte(FoldByte(Steps(x, n), b[0]), b[1]), b[2]), b[3])
         == Steps(Xor(x, WordBits(b)), n + 32)
  {
    var y := Xor(Xor(x, Placed(b[0], n)), Placed(b[1], n + 8));
    FoldTwoAt(x, b[0], b[1], n);
    FoldTwoAt(y, b[2], b[3], n + 16);
    XorPlaced(x, b);
  }

  /** Four bytes folded into a register: 32 steps of the register xored with their bits. */
  lemma FoldWord(r: Register, b: seq<Byte>)
    requires |b| == 4
    ensures Fold(r, b) == Steps(Xor(r, WordBits(b)), 32)
  {
    FoldFour(b, r);
    FoldFourAt(r, b, 0);
  }

  lemma XorPlaced(r: Register, b: seq<Byte>)
    requires |b| == 4
    ensures Xor(Xor(Xor(Xor(r, Placed(b[0], 0)), Placed(b[1], 8)), Placed(b[2], 16)), Placed(b[3], 24))
         == Xor(r, WordBits(b))
  {
  }

  function WordBits(b: seq<Byte>): (r: Register)
    requires |b| == 4
  {
    BitsOf(b[0], 8) + BitsOf(b[1], 8) + BitsOf(b[2], 8) + BitsOf(b[3], 8)
  }

  lemma WordBitsOfBytes(r: Register)
    ensures WordBits(BytesOf(r)) == r
  {
    BitsOfNat(r[..8]);
    BitsOfNat(r[8..16]);
    BitsOfNat(r[16..24]);
    BitsOfNat(r[24..]);
  }

  lemma BytesOfWordBits(b: seq<Byte>)
    requires |b| == 4
    ensures BytesOf(WordBits(b)) == b
  {
    assert Pow2(8) == 256;
    NatOfBits(b[0], 8);
    NatOfBits(b[1], 8);
    NatOfBits(b[2], 8);
    NatOfBits(b[3], 8);
    var r := WordBits(b);
    assert r[..8] == BitsOf(b[0], 8) && r[8..16] == BitsOf(b[1], 8);
    assert r[16..24] == BitsOf(b[2], 8) && r[24..] == BitsOf(b[3], 8);
  }

  // --- Injectivity ------------------------------------------------------------------------

  lemma XorTwice(r: Register, x: Register)
    ensures Xor(r, Xor(r, x)) == x
  {
  }

  lemma FoldWordInjective(r: Register, b: seq<Byte>, c: seq<Byte>)
    requires |b| == 4 && |c| == 4
    requires Fold(r, b) == Fold(r, c)
    ensures b == c
  {
    FoldWord(r, b);
    FoldWord(r, c);
    var x, y := WordBits(b), WordBits(c);
    UnstepsOfSteps(Xor(r, x), 32);
    UnstepsOfSteps(Xor(r, y), 32);
    XorTwice(r, x);
    XorTwice(r, y);
    BytesOfWordBits(b);
    BytesOfWordBits(c);
  }

  /** Whatever bytes follow, two different registers stay different. */
  lemma {:induction false} FoldInjective(r: Register, s: Register, data: seq<Byte>)
    requires Fold(r, data) == Fold(s, data)
    ensures r == s
    decreases |data|
  {
    if data != [] {
      var x := BitsOf(data[0], 8) + Zeros(24);
      FoldInjective(FoldByte(r, data[0]), FoldByte(s, data[0]), data[1..]);
      UnstepsOfSteps(Xor(r, x), 8);
      UnstepsOfSteps(Xor(s, x), 8);
      assert Xor(Xor(r, x), x) == r && Xor(Xor(s, x), x) == s;
    }
  }

  lemma {:induction false} FoldConcat(r: Register, a: seq<Byte>, b: seq<Byte>)
    ensures Fold(r, a + b) == Fold(Fold(r, a), b)
    decreases |a|
  {
    if a == [] {
      assert a + b == b;
    } else {
      assert (a + b)[1..] == a[1..] + b;
      FoldConcat(FoldByte(r, a[0]), a[1..], b);
    }
  }

  lemma CrcBytesInjective(r: Register, s: Register)
    requires BytesOf(Not(r)) == BytesOf(Not(s))
    ensures r == s
  {
    WordBitsOfBytes(Not(r));
    WordBitsOfBytes(Not(s));
    assert Not(Not(r)) == r && Not(Not(s)) == s;
  }

  /** Messages that differ in one aligned word and nowhere else have different CRCs. */
  lemma OneWordChanged(pre: seq<Byte>, b: seq<Byte>, c: seq<Byte>, post: seq<Byte>, value: Register)
    requires |b| == 4 && |c| == 4 && b != c
    ensures BytesOf(Crc(pre + b + post, value)) != BytesOf(Crc(pre + c + post, value))
  {
    var r := Fold(Not(value), pre);
    FoldConcat(Not(value), pre + b, post);
    FoldConcat(Not(value), pre, b);
    FoldConcat(Not(value), pre + c, post);
    FoldConcat(Not(value), pre, c);
    if BytesOf(Crc(pre + b + post, value)) == BytesOf(Crc(pre + c + post, value)) {
      CrcBytesInjective(Fold(Fold(r, b), post), Fold(Fold(r, c), post));
      FoldInjective(Fold(r, b), Fold(r, c), post);
      FoldWordInjective(r, b, c);
    }
  }

  const ONES: Register := Not(Zeros(32))

  /** The CRC of a four-byte message, with the initial value 0xFFFFFFFF the tool passes,
      as the four bytes that are stored. */
  function WordCrc(b: seq<Byte>): (c: seq<Byte>)
    requires |b| == 4
    ensures |c| == 4
  {
    BytesOf(Crc(b, ONES))
  }

  lemma WordCrcIsSteps(b: seq<Byte>)
    requires |b| == 4
    ensures Crc(b, ONES) == Not(Steps(WordBits(b), 32))
  {
    assert Not(ONES) == Zeros(32);
    FoldWord(Zeros(32), b);
    assert Xor(Zeros(32), WordBits(b)) == WordBits(b);
  }

  lemma WordCrcInjective(b: seq<Byte>, c: seq<Byte>)
    requires |b| == 4 && |c| == 4
    requires WordCrc(b) == WordCrc(c)
    ensures b == c
  {
    CrcBytesInjective(Fold(Not(ONES), b), Fold(Not(ONES), c));
    FoldWordInjective(Not(ONES), b, c);
  }

  /** Every 32-bit value is the CRC of some four-byte message. */
  lemma WordCrcSurjective(c: seq<Byte>)
    requires |c| == 4
    ensures exists b: seq<Byte> :: |b| == 4 && WordCrc(b) == c
  {
    var r := Unsteps(Not(WordBits(c)), 32);
    var b := BytesOf(r);
    WordBitsOfBytes(r);
    WordCrcIsSteps(b);
    StepsOfUnsteps(Not(WordBits(c)), 32);
    assert Not(Not(WordBits(c))) == WordBits(c);
    BytesOfWordBits(c);
    assert |b| == 4 && WordCrc(b) == c;
  }

  lemma ErasedRegister()
    ensures BytesOf(ONES) == Repeat(0xFF, 4)
  {
    AllOnes(8);
    var eight := Not(Zeros(8));
    assert ONES[..8] == eight && ONES[8..16] == eight;
    assert ONES[16..24] == eight && ONES[24..] == eight;
  }

  lemma ZeroWord()
    ensures WordBits(Repeat(0, 4)) == Zeros(32)
  {
    BitsOfZero(8);
  }

  lemma ZeroWordCrc(z: seq<Byte>)
    requires z == Repeat(0, 4)
    ensures WordCrc(z) == Repeat(0xFF, 4)
  {
    WordCrcIsSteps(z);
    ZeroWord();
    ZeroStays(32);
    ErasedRegister();
  }

  /** The one four-byte message whose CRC looks like erased flash is the zero word. */
  lemma OnlyZeroLooksErased(b: seq<Byte>)
    requires |b| == 4
    ensures WordCrc(b) == Repeat(0xFF, 4) <==> b == Repeat(0, 4)
  {
    ZeroWordCrc(Repeat(0, 4));
    if WordCrc(b) == Repeat(0xFF, 4) {
      WordCrcInjective(b, Repeat(0, 4));
    }
  }

  lemma {:induction false} BitsOfZero(n: nat)
    ensures BitsOf(0, n) == Zeros(n)
  {
    if n > 0 {
      BitsOfZero(n - 1);
    }
  }

  lemma {:induction false} AllOnes(n: nat)
    ensures NatOf(Not(Zeros(n))) == Pow2(n) - 1
    ensures Pow2(8) == 256
  {
    if n > 0 {
      assert Not(Zeros(n))[1..] == Not(Zeros(n - 1));
      AllOnes(n - 1);
    }
  }

  lemma {:induction false} ZeroStays(n: nat)
    ensures Steps(Zeros(32), n) == Zeros(32)
    decreases n
  {
    if n > 0 {
      assert Step(Zeros(32)) == Zeros(32);
      ZeroStays(n - 1);
    }
  }

  /** The literal above is the RFC's constant, least significant byte first. */
  lemma PolynomialValue()
    ensures BytesOf(POLY) == [0x20, 0x83, 0xB8, 0xED]
  {
    PolynomialLow();
    PolynomialHigh();
  }

  lemma PolynomialLow()
    ensures NatOf(POLY[..8]) == 0x20 && NatOf(POLY[8..16]) == 0x83
  {
    assert POLY[..8] == [false, false, false, false, false, true, false, false];
    assert POLY[8..16] == [true, true, false, false, false, false, false, true];
    OctetValue(POLY[..8]);
    OctetValue(POLY[8..16]);
  }

  lemma PolynomialHigh()
    ensures NatOf(POLY[16..24]) == 0xB8 && NatOf(POLY[24..]) == 0xED
  {
    OctetValue(POLY[16..24]);
    OctetValue(POLY[24..]);
  }

  function Bit(b: bool): nat {
    if b then 1 else 0
  }

  lemma OctetValue(b: Bits)
    requires |b| == 8
    ensures NatOf(b) == Bit(b[0]) + 2 * Bit(b[1]) + 4 * Bit(b[2]) + 8 * Bit(b[3])
                        + 16 * Bit(b[4]) + 32 * Bit(b[5]) + 64 * Bit(b[6]) + 128 * Bit(b[7])
  {
    NibbleValue(b[4..]);
    assert NatOf(b) == Bit(b[0]) + 2 * NatOf(b[1..]);
    assert NatOf(b[1..]) == Bit(b[1]) + 2 * NatOf(b[2..]) by { assert b[1..][1..] == b[2..]; }
    assert NatOf(b[2..]) == Bit(b[2]) + 2 * NatOf(b[3..]) by { assert b[2..][1..] == b[3..]; }
    assert NatOf(b[3..]) == Bit(b[3]) + 2 * NatOf(b[4..]) by { assert b[3..][1..] == b[4..]; }
  }

  lemma NibbleValue(b: Bits)
    requires |b| == 4
    ensures NatOf(b) == Bit(b[0]) + 2 * Bit(b[1]) + 4 * Bit(b[2]) + 8 * Bit(b[3])
  {
    assert NatOf(b[1..]) == Bit(b[1]) + 2 * NatOf(b[2..]) by { assert b[1..][1..] == b[2..]; }
    assert NatOf(b[2..]) == Bit(b[2]) + 2 * NatOf(b[3..]) by { assert b[2..][1..] == b[3..]; }
    assert NatOf(b[3..]) == Bit(b[3]) by { assert b[3..][1..] == []; }
  }

  // --- The RFC's own program ------------------------------------------------------------

  /** Exclusive or of the k low bits of two numbers. */
  function XorNat(a: nat, b: nat, k: nat): nat {
    if k == 0 then 0 else (if a % 2 == b % 2 then 0 else 1) + 2 * XorNat(a / 2, b / 2, k - 1)
  }

  /** make_crc_table: one entry, after k of its eight turns. */
  function TableEntry(c: nat, k: nat): nat
    decreases k
  {
    if k == 0 then c
    else TableEntry(if c % 2 == 1 then XorNat(0xEDB8_8320, c / 2, 32) else c / 2, k - 1)
  }

  /** The loop of update_crc. */
  function UpdateLoop(c: nat, buf: seq<Byte>): nat
    decreases |buf|
  {
    if buf == [] then c
    else UpdateLoop(XorNat(TableEntry(XorNat(c, buf[0], 8), 8), c / 256, 32), buf[1..])
  }

  /** update_crc(crc, buf). */
  function UpdateCrc(crc: nat, buf: seq<Byte>): nat {
    XorNat(UpdateLoop(XorNat(crc, 0xFFFF_FFFF, 32), buf), 0xFFFF_FFFF, 32)
  }

  lemma {:induction false} XorIsXorNat(a: Bits, b: Bits)
    requires |a| == |b|
    ensures NatOf(Xor(a, b)) == XorNat(NatOf(a), NatOf(b), |a|)
  {
    if a != [] {
      assert Xor(a, b)[1..] == Xor(a[1..], b[1..]);
      XorIsXorNat(a[1..], b[1..]);
      assert NatOf(a) / 2 == NatOf(a[1..]) && NatOf(b) / 2 == NatOf(b[1..]);
    }
  }

  lemma {:induction false} NatOfZeros(n: nat)
    ensures NatOf(Zeros(n)) == 0
  {
    if n > 0 {
      assert Zeros(n)[1..] == Zeros(n - 1);
      NatOfZeros(n - 1);
    }
  }

  lemma {:induction false} NatOfPadded(b: Bits, n: nat)
    ensures NatOf(b + Zeros(n)) == NatOf(b)
  {
    if b == [] {
      assert b + Zeros(n) == Zeros(n);
      NatOfZeros(n);
    } else {
      assert (b + Zeros(n))[1..] == b[1..] + Zeros(n);
      NatOfPadded(b[1..], n);
    }
  }

  lemma PolynomialNumber()
    ensures NatOf(POLY) == 0xEDB8_8320
  {
    PolynomialLow();
    PolynomialHigh();
    WordNumber(POLY);
  }

  lemma {:induction false} NatOfSplit(b: Bits, n: nat)
    requires n <= |b|
    ensures NatOf(b) == NatOf(b[..n]) + Pow2(n) * NatOf(b[n..])
    decreases n
  {
    hide Xor;
    if n == 0 {
      assert b[0..] == b;
    } else {
      NatOfSplit(b[1..], n - 1);
      assert b[1..][..n - 1] == b[..n][1..] && b[1..][n - 1..] == b[n..];
      Twice(Pow2(n - 1), NatOf(b[n..]));
    }
  }

  lemma Twice(p: nat, x: nat)
    ensures 2 * (p * x) == (2 * p) * x
  {
  }

  lemma Pow2Byte()
    ensures Pow2(8) == 256
  {
    assert Pow2(4) == 16;
  }

  /** The stored bytes of a register are those of its number, the lowest first. */
  lemma WordNumber(r: Register)
    ensures var b := BytesOf(r);
            NatOf(r) == b[0] as int + 0x100 * (b[1] as int) + 0x1_0000 * (b[2] as int) + 0x100_0000 * (b[3] as int)
    ensures NatOf(r) == NatOf(r[..8]) + 0x100 * NatOf(r[8..16]) + 0x1_0000 * NatOf(r[16..24]) + 0x100_0000 * NatOf(r[24..])
  {
    Pow2Byte();
    NatOfSplit(r, 8);
    NatOfSplit(r[8..], 8);
    NatOfSplit(r[16..], 8);
    assert r[8..][..8] == r[8..16] && r[8..][8..] == r[16..];
    assert r[16..][..8] == r[16..24] && r[16..][8..] == r[24..];
  }

  lemma StepIsTurn(r: Register)
    ensures NatOf(Step(r)) == if NatOf(r) % 2 == 1 then XorNat(0xEDB8_8320, NatOf(r) / 2, 32) else NatOf(r) / 2
  {
    var half := r[1..] + [false];
    assert half == r[1..] + Zeros(1);
    NatOfPadded(r[1..], 1);
    assert NatOf(r) / 2 == NatOf(half);
    PolynomialNumber();
    XorIsXorNat(POLY, half);
    assert Xor(half, POLY) == Xor(POLY, half);
  }

  lemma {:induction false} StepsAreTurns(r: Register, k: nat)
    ensures NatOf(Steps(r, k)) == TableEntry(NatOf(r), k)
    decreases k
  {
    hide Step, XorNat;
    if k > 0 {
      StepIsTurn(r);
      StepsAreTurns(Step(r), k - 1);
    }
  }

  lemma FoldByteIsLookup(r: Register, b: Byte)
    ensures NatOf(FoldByte(r, b)) == XorNat(TableEntry(XorNat(NatOf(r), b, 8), 8), NatOf(r) / 256, 32)
  {
    hide XorNat, TableEntry, Step, Steps, BitsOf, NatOf;
    var low, high := Xor(r[..8], BitsOf(b, 8)), r[8..];
    var index := low + Zeros(24);
    assert Xor(r, BitsOf(b, 8) + Zeros(24)) == Xor(index, Zeros(8) + high);
    StepsShiftHighBits(index, high, 8);
    XorIsXorNat(Steps(index, 8), high + Zeros(8));
    StepsAreTurns(index, 8);
    NatOfPadded(low, 24);
    NatOfPadded(high, 8);
    XorIsXorNat(r[..8], BitsOf(b, 8));
    Pow2Byte();
    NatOfBits(b, 8);
    NatOfSplit(r, 8);
    ByteBound(r[..8]);
    XorNatLow(NatOf(r[..8]), NatOf(high), b);
  }

  lemma {:induction false} XorNatLow(low: nat, high: nat, b: nat)
    requires low < 256
    ensures (low + 256 * high) / 256 == high
    ensures XorNat(low + 256 * high, b, 8) == XorNat(low, b, 8)
  {
    XorNatIgnores(low, high, b, 8, 256);
  }

  lemma {:induction false} XorNatIgnores(low: nat, high: nat, b: nat, k: nat, p: nat)
    requires p == Pow2(k)
    ensures XorNat(low + p * high, b, k) == XorNat(low, b, k)
  {
    if k > 0 {
      var q := Pow2(k - 1);
      assert low + p * high == low + 2 * (q * high);
      assert (low + 2 * (q * high)) / 2 == low / 2 + q * high;
      XorNatIgnores(low / 2, high, b / 2, k - 1, q);
    }
  }

  lemma {:induction false} FoldIsUpdateLoop(r: Register, data: seq<Byte>)
    ensures NatOf(Fold(r, data)) == UpdateLoop(NatOf(r), data)
    decreases |data|
  {
    hide FoldByte, XorNat, TableEntry;
    if data != [] {
      FoldByteIsLookup(r, data[0]);
      FoldIsUpdateLoop(FoldByte(r, data[0]), data[1..]);
    }
  }

  lemma OnesNumber()
    ensures NatOf(ONES) == 0xFFFF_FFFF
  {
    ErasedRegister();
    WordNumber(ONES);
  }

  lemma NotIsXor(r: Register)
    ensures NatOf(Not(r)) == XorNat(NatOf(r), 0xFFFF_FFFF, 32)
  {
    OnesNumber();
    XorIsXorNat(r, ONES);
    assert Not(r) == Xor(r, ONES);
  }

  /** The CRC of any bytes, from any value, is what the sample program in section 8 of RFC 1952
      computes with its table. */
  lemma CrcIsTheRfcs(data: seq<Byte>, value: Register)
    ensures NatOf(Crc(data, value)) == UpdateCrc(NatOf(value), data)
  {
    hide XorNat, UpdateLoop, Fold, Not;
    NotIsXor(value);
    FoldIsUpdateLoop(Not(value), data);
    NotIsXor(Fold(Not(value), data));
  }
}
