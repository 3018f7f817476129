/** The self-test's artifact generator (src/workload/selftest.rs): xorshift32 bytes produced in
    chunks, once into a hash and once into flash. */
module Pattern {
  const HASH_CHUNK: nat := 4096
  const WRITE_CHUNK: nat := 16 * 1024

  // --- The stream --------------------------------------------------------------------------

  function Xor(a: bv32, b: bv32): bv32 { a ^ b }

  function Left5(x: bv32): bv32 { x << 5 }

  function Left10(x: bv32): bv32 { x << 10 }

  function Left20(x: bv32): bv32 { x << 20 }

  function Left13(x: bv32): bv32 { x << 13 }

  function Right17(x: bv32): bv32 { x >> 17 }

  function Shift13(x: bv32): bv32 { Xor(x, Left13(x)) }

  function Shift17(x: bv32): bv32 { Xor(x, Right17(x)) }

  function Shift5(x: bv32): bv32 { Xor(x, Left5(x)) }

  function Next(x: bv32): bv32 {
    Shift5(Shift17(Shift13(x)))
  }

  /** (state >> 11) as u8: the low eight bits of the shifted state. */
  function Output(x: bv32): bv8 {
    ((x >> 11) & 0xFF) as bv8
  }

  function StateAfter(x: bv32, n: nat): bv32 {
    if n == 0 then x else Next(StateAfter(x, n - 1))
  }

  function Stream(x: bv32, n: nat): (s: seq<bv8>)
    ensures |s| == n
  {
    if n == 0 then [] else Stream(x, n - 1) + [Output(StateAfter(x, n))]
  }

  // Each of the three steps can be undone. The lemmas on single operations are the only ones
  // that look at bits.

  function Unshift13(y: bv32): bv32 { y ^ (y << 13) ^ (y << 26) }

  function Unshift5(y: bv32): bv32 {
    var z := Shift5(y);
    var w := Xor(z, Left10(z));
    Xor(w, Left20(w))
  }

  /** The state before `y`. */
  function Previous(y: bv32): bv32 {
    Unshift13(Shift17(Unshift5(y)))
  }

  lemma XorLaws(a: bv32, b: bv32, c: bv32)
    ensures Xor(Xor(a, b), Xor(b, c)) == Xor(a, c)
    ensures Xor(a, 0) == a
  {
  }

  lemma Left5OfXor(a: bv32, b: bv32)
    ensures Left5(Xor(a, b)) == Xor(Left5(a), Left5(b))
  {
  }

  lemma Left10OfXor(a: bv32, b: bv32)
    ensures Left10(Xor(a, b)) == Xor(Left10(a), Left10(b))
  {
  }

  lemma Left20OfXor(a: bv32, b: bv32)
    ensures Left20(Xor(a, b)) == Xor(Left20(a), Left20(b))
  {
  }

  lemma LeftTwice(x: bv32)
    ensures Left5(Left5(x)) == Left10(x) && Left10(Left10(x)) == Left20(x) && Left20(Left20(x)) == 0
  {
  }

  lemma RightOfXor(a: bv32, b: bv32)
    ensures Right17(Xor(a, b)) == Xor(Right17(a), Right17(b))
  {
  }

  lemma RightTwice(x: bv32)
    ensures Right17(Right17(x)) == 0
  {
  }

  lemma Undo13(x: bv32)
    ensures Unshift13(Shift13(x)) == x
  {
  }

  lemma Undo17(x: bv32)
    ensures Shift17(Shift17(x)) == x
  {
    hide Xor, Right17;
    RightOfXor(x, Right17(x));
    RightTwice(x);
    XorLaws(x, Right17(x), 0);
  }

  lemma Undo5(x: bv32)
    ensures Unshift5(Shift5(x)) == x
  {
    hide Xor, Left5, Left10, Left20;
    var a, b := Left10(x), Left20(x);
    LeftTwice(x);
    Left5OfXor(x, Left5(x));
    XorLaws(x, Left5(x), a);
    Left10OfXor(x, a);
    XorLaws(x, a, b);
    Left20OfXor(x, b);
    XorLaws(x, b, 0);
  }

  lemma NextCanBeUndone(x: bv32)
    ensures Previous(Next(x)) == x
  {
    hide Shift13, Shift17, Shift5, Unshift13, Unshift5;
    Undo13(x);
    Undo17(Shift13(x));
    Undo5(Shift17(Shift13(x)));
  }

  lemma ZeroIsFixed()
    ensures Next(0) == 0 && Previous(0) == 0
  {
  }

  /** From a non-zero seed the state never becomes zero, where it would stay. */
  lemma {:induction false} NeverZero(seed: bv32, n: nat)
    ensures StateAfter(seed, n) == 0 <==> seed == 0
  {
    hide Next, Previous;
    if n > 0 {
      NeverZero(seed, n - 1);
      ZeroIsFixed();
      NextCanBeUndone(StateAfter(seed, n - 1));
    }
  }

  lemma XorExactly(a: bv32, b: bv32)
    ensures Xor(a, b) == a ^ b
  {
  }

  lemma MovesExactly(x: bv32)
    ensures Left13(x) == x << 13 && Right17(x) == x >> 17 && Left5(x) == x << 5
  {
  }

  /** One turn of the generator: the state is exclusive-ored with itself moved 13 bits left, then
      17 right, then 5 left. */
  lemma TurnExactly(x: bv32, n: nat)
    ensures var s0 := StateAfter(x, n);
            var s1 := Xor(s0, Left13(s0));
            var s2 := Xor(s1, Right17(s1));
            StateAfter(x, 0) == x && StateAfter(x, n + 1) == Xor(s2, Left5(s2))
  {
    hide Xor, Left13, Right17, Left5;
  }

  /** Byte i is bits 11 to 18 of the state after i + 1 turns. */
  lemma {:induction false} ByteExactly(x: bv32, n: nat, i: nat)
    requires i < n
    ensures Stream(x, n)[i] == ((StateAfter(x, i + 1) >> 11) & 0xFF) as bv8
  {
    hide Next, Output;
    if i < n - 1 {
      ByteExactly(x, n - 1, i);
    } else {
      OutputExactly(StateAfter(x, n));
    }
  }

  lemma OutputExactly(x: bv32)
    ensures Output(x) == ((x >> 11) & 0xFF) as bv8
  {
  }

  lemma {:induction false} StateSplits(x: bv32, m: nat, n: nat)
    ensures StateAfter(x, m + n) == StateAfter(StateAfter(x, m), n)
  {
    hide Next;
    if n > 0 {
      StateSplits(x, m, n - 1);
    }
  }

  lemma {:induction false} StreamSplits(x: bv32, m: nat, n: nat)
    ensures Stream(x, m + n) == Stream(x, m) + Stream(StateAfter(x, m), n)
  {
    hide Next, Output;
    if n > 0 {
      StreamSplits(x, m, n - 1);
      StateSplits(x, m, n);
    } else {
      assert Stream(x, m) + [] == Stream(x, m);
    }
  }

  lemma {:induction false} StreamIsPrefix(x: bv32, m: nat, n: nat)
    requires m <= n
    ensures Stream(x, m) <= Stream(x, n)
  {
    StreamSplits(x, m, n - m);
  }

  // --- Chunking ----------------------------------------------------------------------------

  function Sum(sizes: seq<nat>): nat {
    if sizes == [] then 0 else sizes[0] + Sum(sizes[1..])
  }

  /** The bytes of consecutive `fill` calls, one per size, put end to end. */
  function Filled(x: bv32, sizes: seq<nat>): seq<bv8>
    decreases |sizes|
  {
    if sizes == [] then [] else Stream(x, sizes[0]) + Filled(StateAfter(x, sizes[0]), sizes[1..])
  }

  /** However `size` bytes are split into calls, the bytes are the same. */
  lemma {:induction false} AnySplitIsTheStream(x: bv32, sizes: seq<nat>)
    ensures Filled(x, sizes) == Stream(x, Sum(sizes))
    decreases |sizes|
  {
    hide Next, Output;
    if sizes != [] {
      AnySplitIsTheStream(StateAfter(x, sizes[0]), sizes[1..]);
      StreamSplits(x, sizes[0], Sum(sizes[1..]));
    }
  }

  // --- The generator and its two users -----------------------------------------------------

  class Generator {
    var state: bv32

    constructor (seed: bv32)
      ensures state == seed
    {
      state := seed;
    }

    /** `fill` on the first n bytes of a buffer. */
    method Fill(out: array<bv8>, n: nat)
      requires n <= out.Length
      modifies this, out
      ensures state == StateAfter(old(state), n)
      ensures out[..n] == Stream(old(state), n)
      ensures out[n..] == old(out[n..])
    {
      hide StateAfter, Stream;
      FillsNothing(state);
      for i := 0 to n
        invariant state == StateAfter(old(state), i)
        invariant out[..i] == Stream(old(state), i)
        invariant out[n..] == old(out[n..])
      {
        FillsOneMore(old(state), i);
        state := Shift13(state);
        state := Shift17(state);
        state := Shift5(state);
        out[i] := Output(state);
        assert out[..i + 1] == out[..i] + [out[i]];
      }
    }
  }

  lemma FillsNothing(x: bv32)
    ensures StateAfter(x, 0) == x && Stream(x, 0) == []
  {
  }

  lemma FillsOneMore(x: bv32, i: nat)
    ensures StateAfter(x, i + 1) == Shift5(Shift17(Shift13(StateAfter(x, i))))
    ensures Stream(x, i + 1) == Stream(x, i) + [Output(StateAfter(x, i + 1))]
  {
    hide Shift5, Shift13, Shift17, Output;
  }

  /** An incremental hash: what it has been fed so far. */
  class Hasher {
    var fed: seq<bv8>

    constructor ()
      ensures fed == []
    {
      fed := [];
    }

    method Update(data: seq<bv8>)
      modifies this
      ensures fed == old(fed) + data
    {
      fed := fed + data;
    }
  }

  /** expected_digest: what the hash makes of the first `size` bytes of the stream. */
  method ExpectedDigest<D>(digest: seq<bv8> -> D, seed: bv32, size: nat) returns (d: D)
    ensures d == digest(Stream(seed, size))
  {
    hide StateAfter, Stream;
    var pattern := new Generator(seed);
    var hasher := new Hasher();
    var buf := new bv8[HASH_CHUNK];
    var left := size;
    FillsNothing(seed);
    while left > 0
      invariant 0 <= left <= size
      invariant pattern.state == StateAfter(seed, size - left)
      invariant hasher.fed == Stream(seed, size - left)
    {
      var take := if left <= buf.Length then left else buf.Length;
      StreamSplits(seed, size - left, take);
      StateSplits(seed, size - left, take);
      pattern.Fill(buf, take);
      hasher.Update(buf[..take]);
      left := left - take;
    }
    d := digest(hasher.fed);
  }

  /** The slot being written. `room` is how much of it still takes bytes before an append fails
      (a failed append keeps nothing), and `sound` whether the final read-back succeeds. */
  class Writer {
    var written: seq<bv8>
    const room: nat
    const sound: bool

    constructor (room: nat, sound: bool)
      ensures written == [] && this.room == room && this.sound == sound
    {
      written := [];
      this.room, this.sound := room, sound;
    }

    method Append(data: seq<bv8>) returns (ok: bool)
      modifies this
      ensures ok <==> |old(written)| + |data| <= room
      ensures written == if ok then old(written) + data else old(written)
    {
      ok := |written| + |data| <= room;
      if ok {
        written := written + data;
      }
    }
  }

  /** write_pattern: it succeeds exactly when nothing fails, and then the slot holds the bytes
      `ExpectedDigest` hashed. In a slot that is too small it leaves the whole 16 KiB chunks that
      fit. */
  method WritePattern(writer: Writer, seed: bv32, size: nat) returns (ok: bool)
    requires writer.written == []
    modifies writer
    ensures ok <==> size <= writer.room && writer.sound
    ensures size <= writer.room ==> writer.written == Stream(seed, size)
    ensures size > writer.room ==> writer.written == Stream(seed, writer.room / 16384 * 16384)
    ensures writer.written <= Stream(seed, size)
  {
    hide StateAfter, Stream;
    var pattern := new Generator(seed);
    var buf := new bv8[WRITE_CHUNK];
    var left := size;
    FillsNothing(seed);
    while left > 0
      invariant 0 <= left <= size
      invariant size - left <= writer.room
      invariant left > 0 ==> (size - left) % WRITE_CHUNK == 0
      invariant pattern.state == StateAfter(seed, size - left)
      invariant writer.written == Stream(seed, size - left)
    {
      var take := if left <= WRITE_CHUNK then left else WRITE_CHUNK;
      StreamSplits(seed, size - left, take);
      StateSplits(seed, size - left, take);
      pattern.Fill(buf, take);
      var appended := writer.Append(buf[..take]);
      if !appended {
        StreamIsPrefix(seed, size - left, size);
        return false;
      }
      left := left - take;
    }
    return writer.sound;
  }
}
