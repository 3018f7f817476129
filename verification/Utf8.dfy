/** UTF-8 as `core::str::from_utf8` checks it (section 4 of RFC 3629), and Rust strings:
    byte sequences that pass the check. */
module Utf8 {
  import opened Bytes

  predicate Tail(b: Byte) {
    0x80 <= b <= 0xBF
  }

  /** The number of bytes of the character at the front, 0 if there is none. */
  function CharLength(s: seq<Byte>): (n: nat)
    requires s != []
    ensures n <= |s|
  {
    if s[0] < 0x80 then 1
    else if 0xC2 <= s[0] <= 0xDF && |s| >= 2 && Tail(s[1]) then 2
    else if |s| >= 3 && Tail(s[2]) && Second3(s[0], s[1]) then 3
    else if |s| >= 4 && Tail(s[2]) && Tail(s[3]) && Second4(s[0], s[1]) then 4
    else 0
  }

  predicate Second3(b0: Byte, b1: Byte) {
    || (b0 == 0xE0 && 0xA0 <= b1 <= 0xBF)
    || (b0 == 0xED && 0x80 <= b1 <= 0x9F)
    || (0xE1 <= b0 <= 0xEF && b0 != 0xED && Tail(b1))
  }

  predicate Second4(b0: Byte, b1: Byte) {
    || (b0 == 0xF0 && 0x90 <= b1 <= 0xBF)
    || (0xF1 <= b0 <= 0xF3 && Tail(b1))
    || (b0 == 0xF4 && 0x80 <= b1 <= 0x8F)
  }

  predicate Valid(s: seq<Byte>)
    decreases |s|
  {
    s == [] || (CharLength(s) > 0 && Valid(s[CharLength(s)..]))
  }

  type Text = s: seq<Byte> | Valid(s)

  lemma {:induction false} AsciiIsValid(s: seq<Byte>)
    requires forall i :: 0 <= i < |s| ==> s[i] < 0x80
    ensures Valid(s)
  {
    if s != [] {
      AsciiIsValid(s[1..]);
    }
  }

  // --- The code points ---------------------------------------------------------------------

  /** A Unicode scalar value, and its bytes by the table in section 3 of RFC 3629. */
  predicate Scalar(c: nat) {
    c < 0xD800 || 0xE000 <= c <= 0x10_FFFF
  }

  function BytesOf(c: nat): seq<Byte>
    requires Scalar(c)
  {
    if c < 0x80 then [c]
    else if c < 0x800 then [0xC0 + c / 64, 0x80 + c % 64]
    else if c < 0x1_0000 then [0xE0 + c / 4096, 0x80 + c / 64 % 64, 0x80 + c % 64]
    else [0xF0 + c / 0x4_0000, 0x80 + c / 4096 % 64, 0x80 + c / 64 % 64, 0x80 + c % 64]
  }

  function Written(cs: seq<nat>): seq<Byte>
    requires forall c :: c in cs ==> Scalar(c)
    decreases |cs|
  {
    if cs == [] then [] else BytesOf(cs[0]) + Written(cs[1..])
  }

  lemma CharIsRead(c: nat, rest: seq<Byte>)
    requires Scalar(c)
    ensures CharLength(BytesOf(c) + rest) == |BytesOf(c)|
  {
  }

  lemma TwoBytes(a: nat, b: nat, c: nat)
    requires 2 <= a < 32 && b < 64 && c == 64 * a + b
    ensures Scalar(c) && BytesOf(c) == [0xC0 + a, 0x80 + b]
  {
  }

  lemma ThreeBytes(a: nat, b: nat, d: nat, c: nat)
    requires a < 16 && b < 64 && d < 64 && c == 4096 * a + 64 * b + d
    requires c >= 0x800 && Scalar(c)
    ensures BytesOf(c) == [0xE0 + a, 0x80 + b, 0x80 + d]
  {
    assert c / 64 == 64 * a + b;
  }

  lemma FourBytes(a: nat, b: nat, d: nat, e: nat, c: nat)
    requires a < 5 && b < 64 && d < 64 && e < 64 && c == 0x4_0000 * a + 4096 * b + 64 * d + e
    requires 0x1_0000 <= c <= 0x10_FFFF
    ensures BytesOf(c) == [0xF0 + a, 0x80 + b, 0x80 + d, 0x80 + e]
  {
    assert c / 64 == 4096 * a + 64 * b + d && c / 4096 == 64 * a + b;
  }

  lemma CharIsWritten(s: seq<Byte>) returns (c: nat)
    requires s != [] && CharLength(s) > 0
    ensures Scalar(c) && BytesOf(c) == s[..CharLength(s)]
  {
    hide BytesOf;
    if CharLength(s) == 1 {
      c := s[0];
      OneByte(c);
    } else if CharLength(s) == 2 {
      c := (s[0] as int - 0xC0) * 64 + (s[1] as int - 0x80);
      TwoBytes(s[0] as int - 0xC0, s[1] as int - 0x80, c);
    } else if CharLength(s) == 3 {
      c := (s[0] as int - 0xE0) * 4096 + (s[1] as int - 0x80) * 64 + (s[2] as int - 0x80);
      ThreeBytes(s[0] as int - 0xE0, s[1] as int - 0x80, s[2] as int - 0x80, c);
    } else {
      c := (s[0] as int - 0xF0) * 0x4_0000 + (s[1] as int - 0x80) * 4096 + (s[2] as int - 0x80) * 64
           + (s[3] as int - 0x80);
      FourBytes(s[0] as int - 0xF0, s[1] as int - 0x80, s[2] as int - 0x80, s[3] as int - 0x80, c);
    }
  }

  lemma OneByte(c: nat)
    requires c < 0x80
    ensures BytesOf(c) == [c]
  {
  }

  lemma {:induction false} WrittenIsValid(cs: seq<nat>)
    requires forall c :: c in cs ==> Scalar(c)
    ensures Valid(Written(cs))
    decreases |cs|
  {
    if cs != [] {
      CharIsRead(cs[0], Written(cs[1..]));
      WrittenIsValid(cs[1..]);
    }
  }

  lemma {:induction false} ValidIsWritten(s: seq<Byte>) returns (cs: seq<nat>)
    requires Valid(s)
    ensures (forall c :: c in cs ==> Scalar(c)) && Written(cs) == s
    decreases |s|
  {
    hide CharLength, BytesOf;
    if s == [] {
      cs := [];
    } else {
      var n := CharLength(s);
      var c := CharIsWritten(s);
      var rest := ValidIsWritten(s[n..]);
      cs := [c] + rest;
      assert cs[1..] == rest && s == s[..n] + s[n..];
    }
  }

  /** Text is exactly what some sequence of scalar values is written as. */
  lemma ValidExactly(s: seq<Byte>)
    ensures Valid(s) <==> exists cs: seq<nat> :: (forall c :: c in cs ==> Scalar(c)) && Written(cs) == s
  {
    if Valid(s) {
      var cs := ValidIsWritten(s);
    }
    forall cs: seq<nat> | (forall c :: c in cs ==> Scalar(c)) && Written(cs) == s ensures Valid(s) {
      WrittenIsValid(cs);
    }
  }
}
