/** parse_u32_ascii (src/bin/init.rs): the size of the preloaded agent, from a build-time text. */
module Decimal {
  import opened Bytes
  import opened Wrappers

  const U32: nat := 0x1_0000_0000

  predicate IsDigit(b: Byte) {
    0x30 <= b <= 0x39
  }

  predicate IsNumeral(s: seq<Byte>) {
    s != [] && forall i :: 0 <= i < |s| ==> IsDigit(s[i])
  }

  /** The number a string of digits stands for. */
  function Value(s: seq<Byte>): int {
    if s == [] then 0 else 10 * Value(s[..|s| - 1]) + (s[|s| - 1] as int - 0x30)
  }

  lemma {:induction false} PrefixIsNoLarger(s: seq<Byte>, n: nat)
    requires n <= |s| && forall i :: 0 <= i < |s| ==> IsDigit(s[i])
    ensures 0 <= Value(s[..n]) <= Value(s)
    decreases |s|
  {
    if s != [] {
      var shorter := s[..|s| - 1];
      if n == |s| {
        PrefixIsNoLarger(shorter, |s| - 1);
        assert s[..n] == s && shorter[..|s| - 1] == shorter;
      } else {
        PrefixIsNoLarger(shorter, n);
        assert shorter[..n] == s[..n];
      }
    }
  }

  /** A number exactly when the text is one and fits 32 bits: neither checked step can fail
      earlier than the whole number overflows. */
  method ParseU32(value: seq<Byte>) returns (r: Option<nat>)
    ensures r.Some? <==> IsNumeral(value) && Value(value) < 0x1_0000_0000
    ensures r.Some? ==> r.value == Value(value)
  {
    if value == [] {
      return None;
    }
    var out: nat := 0;
    for i := 0 to |value|
      invariant forall j :: 0 <= j < i ==> IsDigit(value[j])
      invariant out == Value(value[..i]) < U32
    {
      if !IsDigit(value[i]) {
        return None;
      }
      assert value[..i + 1][..i] == value[..i];
      var tenfold := out * 10;
      if tenfold >= U32 || tenfold + (value[i] - 0x30) >= U32 {
        if IsNumeral(value) {
          PrefixIsNoLarger(value, i + 1);
        }
        return None;
      }
      out := tenfold + (value[i] - 0x30);
    }
    assert value[..|value|] == value;
    r := Some(out);
  }

  /** A number as it is written: "0" to "9", the highest digit first. */
  function Printed(n: nat): seq<Byte> {
    if n < 10 then [0x30 + n] else Printed(n / 10) + [0x30 + n % 10]
  }

  /** What is written as a number is a number, and that one. */
  lemma {:induction false} PrintedReadsBack(n: nat)
    ensures IsNumeral(Printed(n)) && Value(Printed(n)) == n
  {
    if n >= 10 {
      PrintedReadsBack(n / 10);
      assert Printed(n)[..|Printed(n)| - 1] == Printed(n / 10);
    } else {
      assert Printed(n)[..0] == [];
    }
  }

  /** And nothing else is a number: only the ten digits are. */
  lemma OnlyDigits(s: seq<Byte>)
    ensures IsNumeral(s) <==> |s| > 0 && forall i :: 0 <= i < |s| ==> s[i] as char in "0123456789"
  {
    forall i | 0 <= i < |s| ensures IsDigit(s[i]) <==> s[i] as char in "0123456789" {
      DigitIs(s[i]);
    }
  }

  lemma DigitIs(b: Byte)
    ensures IsDigit(b) <==> b as char in "0123456789"
  {
    var digits := "0123456789";
    assert forall i :: 0 <= i < 10 ==> digits[i] as int == 0x30 + i;
    if IsDigit(b) {
      assert digits[b - 0x30] == b as char;
    }
  }
}
