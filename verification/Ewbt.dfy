/** The 32-byte `otadata` entry of the EWBT boot records, as the debug tool
    scripts/ewbt-otadata.py builds and reads it.

    An entry counts as committed only when every one of its bytes is what `Make` would have
    written. The lemmas say what that buys: which entries a read can report, what a write
    cut short at any byte can look like, and what a changed field looks like. */
module Ewbt {
  import opened Bytes
  import opened Crc32
  import opened Wrappers

  const MAGIC: seq<Byte> := [0x45, 0x57, 0x42, 0x54]
  const VERSION: nat := 1
  const COMMIT: nat := 0x5AC3_A53C
  const SECTOR: nat := 0x1000
  const ENTRY: nat := 32
  const LIMIT: nat := 0x1_0000_0000

  /** States 0 to 4 have names: new, pending, valid, invalid, aborted. */
  predicate Named(state: nat) {
    state < 5
  }

  predicate LegalSeq(sequence: nat) {
    sequence != 0 && sequence != 0xFFFF_FFFF
  }

  function Erased(n: nat): seq<Byte> {
    Repeat(0xFF, n)
  }

  /** ext_crc: the CRC over sequence, state, magic and version. */
  function ExtCrc(sequence: nat, state: nat): (c: seq<Byte>)
    requires sequence < LIMIT && state < LIMIT
    ensures |c| == 4
  {
    BytesOf(Crc([] + Le32(sequence) + (Le32(state) + (MAGIC + Le32(VERSION))), ONES))
  }

  function CommitWord(commit: bool): (w: seq<Byte>)
    ensures |w| == 4
  {
    if commit then Le32(COMMIT) else Erased(4)
  }

  /** An entry with any four bytes where the commit word goes. */
  function EntryWith(sequence: nat, state: nat, word: seq<Byte>): (e: seq<Byte>)
    requires sequence < LIMIT && state < LIMIT && |word| == 4
    ensures |e| == ENTRY
  {
    Le32(sequence) + MAGIC + Le32(VERSION) + ExtCrc(sequence, state)
      + Erased(4) + word + Le32(state) + WordCrc(Le32(sequence))
  }

  function Entry(sequence: nat, state: nat, commit: bool): (e: seq<Byte>)
    requires sequence < LIMIT && state < LIMIT
    ensures |e| == ENTRY
  {
    EntryWith(sequence, state, CommitWord(commit))
  }

  /** raw[at..at + |bytes|] = bytes, in a buffer that holds pre, as many other bytes, and post. */
  method WriteAt(raw: array<Byte>, bytes: seq<Byte>, at: nat, ghost pre: seq<Byte>, ghost was: seq<Byte>, ghost post: seq<Byte>)
    requires at == |pre| && |was| == |bytes| && raw[..] == pre + was + post
    modifies raw
    ensures raw[..] == pre + bytes + post
  {
    assert raw[..at] == pre && raw[at + |bytes|..] == post;
    for i := 0 to |bytes|
      invariant raw[..at] == pre && raw[at + |bytes|..] == post
      invariant raw[at..at + i] == bytes[..i]
    {
      raw[at + i] := bytes[i];
      assert raw[at..at + i + 1] == raw[at..at + i] + [bytes[i]];
    }
    assert raw[..] == raw[..at] + raw[at..at + |bytes|] + raw[at + |bytes|..];
  }

  lemma Regroup(a: seq<Byte>, b: seq<Byte>, c: seq<Byte>, d: seq<Byte>)
    ensures a + b + (c + d) == (a + b) + c + d
  {
  }

  /** The buffer of `make`: 32 erased bytes, overwritten range by range. */
  method Assemble(sequence: seq<Byte>, ext: seq<Byte>, state: seq<Byte>, check: seq<Byte>, commit: bool)
    returns (entry: seq<Byte>)
    requires |sequence| == |ext| == |state| == |check| == 4
    ensures entry == sequence + MAGIC + Le32(VERSION) + ext + Erased(4) + CommitWord(commit) + state + check
  {
    hide Le32, Erased;
    var raw := new Byte[ENTRY](_ => 0xFF);
    ghost var ff := Erased(4);
    ghost var p8 := sequence + MAGIC;
    ghost var p12 := p8 + Le32(VERSION);
    ghost var p16 := p12 + ext;
    ghost var p24 := p16 + ff + CommitWord(commit);
    AllErasedIs(raw[..]);
    ErasedSplits();
    assert [] + ff + Erased(28) == ff + Erased(28);
    WriteAt(raw, sequence, 0, [], ff, Erased(28));
    assert [] + sequence == sequence;
    Regroup([], sequence, ff, Erased(24));
    WriteAt(raw, MAGIC, 4, sequence, ff, Erased(24));
    Regroup(sequence, MAGIC, ff, Erased(20));
    WriteAt(raw, Le32(VERSION), 8, p8, ff, Erased(20));
    Regroup(p8, Le32(VERSION), ff, Erased(16));
    WriteAt(raw, ext, 12, p12, ff, Erased(16));
    Regroup(p12, ext, ff, ff + Erased(8));
    Regroup(p16, ff, ff, Erased(8));
    if commit {
      WriteAt(raw, Le32(COMMIT), 20, p16 + ff, ff, Erased(8));
    }
    Regroup(p16 + ff, CommitWord(commit), ff, ff);
    WriteAt(raw, state, 24, p24, ff, ff);
    assert p24 + state + ff + [] == p24 + state + ff;
    WriteAt(raw, check, 28, p24 + state, ff, []);
    assert p24 + state + check + [] == p24 + state + check;
    entry := raw[..];
  }

  lemma AllErasedIs(s: seq<Byte>)
    requires |s| == 32 && forall i :: 0 <= i < 32 ==> s[i] == 0xFF
    ensures s == Erased(4) + Erased(28)
  {
  }

  lemma ErasedSplits()
    ensures Erased(28) == Erased(4) + Erased(24) && Erased(24) == Erased(4) + Erased(20)
    ensures Erased(20) == Erased(4) + Erased(16) && Erased(16) == Erased(4) + (Erased(4) + Erased(8))
    ensures Erased(8) == Erased(4) + Erased(4)
  {
  }

  /** The number four bytes stand for, lowest byte first. */
  function Number(b: seq<Byte>): nat
    requires |b| == 4
  {
    b[0] as int + 0x100 * (b[1] as int) + 0x1_0000 * (b[2] as int) + 0x100_0000 * (b[3] as int)
  }

  /** The 32 bytes, field by field. */
  predicate LaidOut(e: seq<Byte>, sequence: int, state: int, commit: bool) {
    && |e| == 32
    && Number(e[0..4]) == sequence
    && e[4..8] == [0x45, 0x57, 0x42, 0x54]
    && e[8..12] == [1, 0, 0, 0]
    && e[12..16] == BytesOf(Crc(e[0..4] + e[24..28] + e[4..8] + e[8..12], ONES))
    && e[16..20] == [0xFF, 0xFF, 0xFF, 0xFF]
    && e[20..24] == (if commit then [0x3C, 0xA5, 0xC3, 0x5A] else [0xFF, 0xFF, 0xFF, 0xFF])
    && Number(e[24..28]) == state
    && e[28..32] == BytesOf(Crc(e[0..4], ONES))
  }

  /** `make`: None is the struct.error that packing an out-of-range integer raises. */
  method Make(sequence: int, state: int, commit: bool) returns (entry: Option<seq<Byte>>)
    ensures entry == if 0 <= sequence < LIMIT && 0 <= state < LIMIT
                     then Some(Entry(sequence, state, commit)) else None
    ensures entry.Some? <==> 0 <= sequence < 0x1_0000_0000 && 0 <= state < 0x1_0000_0000
    ensures entry.Some? ==> LaidOut(entry.value, sequence, state, commit)
  {
    if !(0 <= sequence < LIMIT && 0 <= state < LIMIT) {
      return None;
    }
    EntryIsLaidOut(sequence, state, commit);
    var raw := Assemble(Le32(sequence), ExtCrc(sequence, state), Le32(state), WordCrc(Le32(sequence)), commit);
    entry := Some(raw);
  }

  datatype Verdict =
    | Blank
    | Committed(sequence: nat, state: nat)
    | BodyOnly(sequence: nat, state: nat)
    | Corrupt
    | TooShort

  /** `decode`. A slice shorter than 28 bytes makes unpack_from raise: `TooShort`. */
  function Decode(raw: seq<Byte>): Verdict {
    if raw == Erased(ENTRY) then Blank
    else if |raw| < 28 then TooShort
    else
      var sequence, state := FromLe32(raw[..4]), FromLe32(raw[24..28]);
      if Named(state) && LegalSeq(sequence) && raw == Entry(sequence, state, true) then
        Committed(sequence, state)
      else if Named(state) && raw == Entry(sequence, state, false) then
        BodyOnly(sequence, state)
      else Corrupt
  }

  // --- What decode can report ------------------------------------------------------------

  lemma Eighths(a: seq<Byte>, b: seq<Byte>, c: seq<Byte>, d: seq<Byte>,
                e: seq<Byte>, f: seq<Byte>, g: seq<Byte>, h: seq<Byte>)
    requires |a| == |b| == |c| == |d| == |e| == |f| == |g| == |h| == 4
    ensures var x := a + b + c + d + e + f + g + h;
            x[..4] == a && x[4..8] == b && x[8..12] == c && x[12..16] == d
            && x[16..20] == e && x[20..24] == f && x[24..28] == g && x[28..] == h
  {
  }

  lemma Fields(sequence: nat, state: nat, word: seq<Byte>)
    requires sequence < LIMIT && state < LIMIT && |word| == 4
    ensures var x := EntryWith(sequence, state, word);
            x[..4] == Le32(sequence) && x[4..8] == MAGIC && x[12..16] == ExtCrc(sequence, state)
            && x[20..24] == word && x[24..28] == Le32(state) && x[28..] == WordCrc(Le32(sequence))
            && FromLe32(x[..4]) == sequence && FromLe32(x[24..28]) == state && x != Erased(ENTRY)
  {
    Eighths(Le32(sequence), MAGIC, Le32(VERSION), ExtCrc(sequence, state),
            Erased(4), word, Le32(state), WordCrc(Le32(sequence)));
    Le32RoundTrip(sequence);
    Le32RoundTrip(state);
    var x := EntryWith(sequence, state, word);
    assert x[4..8][0] != Erased(ENTRY)[4..8][0];
  }

  lemma NumberOfLe32(n: nat)
    requires n < LIMIT
    ensures Number(Le32(n)) == n
  {
    Le32RoundTrip(n);
  }

  lemma LiteralFields()
    ensures Le32(VERSION) == [1, 0, 0, 0] && Erased(4) == [0xFF, 0xFF, 0xFF, 0xFF]
    ensures Le32(COMMIT) == [0x3C, 0xA5, 0xC3, 0x5A]
  {
  }

  /** Every entry is laid out like that ... */
  lemma EntryIsLaidOut(sequence: nat, state: nat, commit: bool)
    requires sequence < 0x1_0000_0000 && state < 0x1_0000_0000
    ensures LaidOut(Entry(sequence, state, commit), sequence, state, commit)
  {
    hide Crc, BytesOf, Le32;
    var e, word := Entry(sequence, state, commit), CommitWord(commit);
    Eighths(Le32(sequence), MAGIC, Le32(VERSION), ExtCrc(sequence, state),
            Erased(4), word, Le32(state), WordCrc(Le32(sequence)));
    LiteralFields();
    NumberOfLe32(sequence);
    NumberOfLe32(state);
    assert e[0..4] == Le32(sequence) && e[28..32] == e[28..];
    assert [] + Le32(sequence) + (Le32(state) + (MAGIC + Le32(VERSION)))
      == e[0..4] + e[24..28] + e[4..8] + e[8..12];
  }

  lemma Le32OfNumber(b: seq<Byte>)
    requires |b| == 4
    ensures Number(b) < LIMIT && Le32(Number(b)) == b
  {
    var low, high := b[0] as int + 0x100 * (b[1] as int), b[2] as int + 0x100 * (b[3] as int);
    assert Number(b) == low + 0x1_0000 * high;
    assert Number(b) % 0x1_0000 == low && Number(b) / 0x1_0000 == high;
    assert Le16(low) == [b[0], b[1]] && Le16(high) == [b[2], b[3]];
  }

  lemma EightFields(e: seq<Byte>)
    requires |e| == 32
    ensures e == e[0..4] + e[4..8] + e[8..12] + e[12..16] + e[16..20] + e[20..24] + e[24..28] + e[28..32]
  {
  }

  /** ... and nothing else is: the fields fix all 32 bytes. */
  lemma LaidOutIsEntry(e: seq<Byte>, sequence: nat, state: nat, commit: bool)
    requires LaidOut(e, sequence, state, commit)
    ensures sequence < LIMIT && state < LIMIT && e == Entry(sequence, state, commit)
  {
    hide Crc, BytesOf, Le32, Number;
    Le32OfNumber(e[0..4]);
    Le32OfNumber(e[24..28]);
    LiteralFields();
    EightFields(e);
    assert [] + Le32(sequence) + (Le32(state) + (MAGIC + Le32(VERSION)))
      == e[0..4] + e[24..28] + e[4..8] + e[8..12];
  }

  lemma CommitWordsDiffer()
    ensures CommitWord(true) != CommitWord(false)
  {
    assert CommitWord(true)[0] == 0x3C;
  }

  /** An entry reads back as what was written, committed or not ... */
  lemma DecodeOfEntry(sequence: nat, state: nat, commit: bool)
    requires sequence < LIMIT && Named(state)
    ensures Decode(Entry(sequence, state, commit)) ==
            if !commit then BodyOnly(sequence, state)
            else if LegalSeq(sequence) then Committed(sequence, state)
            else Corrupt
  {
    Fields(sequence, state, CommitWord(true));
    Fields(sequence, state, CommitWord(false));
    CommitWordsDiffer();
    assert Entry(sequence, state, true) != Entry(sequence, state, false);
  }

  /** ... and nothing but that entry reads that way. */
  lemma DecodeIsExact(raw: seq<Byte>, sequence: nat, state: nat)
    ensures Decode(raw) == Committed(sequence, state) <==>
            0 < sequence < 0xFFFF_FFFF && state <= 4 && LaidOut(raw, sequence, state, true)
    ensures Decode(raw) == BodyOnly(sequence, state) <==>
            state <= 4 && LaidOut(raw, sequence, state, false)
    ensures Decode(raw) == Blank <==> |raw| == 32 && forall i :: 0 <= i < 32 ==> raw[i] == 0xFF
    ensures Decode(raw) == TooShort <==> |raw| < 28
  {
    hide Crc, BytesOf, Le32, Number, LaidOut;
    if sequence < LIMIT && Named(state) {
      DecodeOfEntry(sequence, state, true);
      DecodeOfEntry(sequence, state, false);
      EntryIsLaidOut(sequence, state, true);
      EntryIsLaidOut(sequence, state, false);
    }
    if LaidOut(raw, sequence, state, true) {
      LaidOutIsEntry(raw, sequence, state, true);
    }
    if LaidOut(raw, sequence, state, false) {
      LaidOutIsEntry(raw, sequence, state, false);
    }
  }

  // --- Torn writes -----------------------------------------------------------------------

  /** Flash after a write of `entry` that stopped before byte n. */
  function Torn(entry: seq<Byte>, n: nat): (t: seq<Byte>)
    requires |entry| == ENTRY && n <= ENTRY
    ensures |t| == ENTRY
  {
    entry[..n] + Erased(ENTRY - n)
  }

  predicate Entered(verdict: Verdict) {
    verdict.Committed? || verdict.BodyOnly?
  }

  lemma TopByte(b: seq<Byte>)
    requires |b| == 4 && b[3] == 0xFF
    ensures FromLe32(b) >= 0xFF00_0000
  {
  }

  /** Before its last byte is written the state field is no state at all. */
  lemma TornBeforeState(e: seq<Byte>, n: nat)
    requires |e| == ENTRY && n < 28
    ensures !Entered(Decode(Torn(e, n)))
  {
    var t := Torn(e, n);
    assert t[27] == 0xFF;
    TopByte(t[24..28]);
  }

  lemma TornIsWhole(e: seq<Byte>, n: nat)
    requires |e| == ENTRY && 28 <= n <= ENTRY
    ensures Torn(e, n) == e <==> forall i :: n - 28 <= i < 4 ==> e[28..][i] == 0xFF
  {
    var t := Torn(e, n);
    if forall i :: n - 28 <= i < 4 ==> e[28..][i] == 0xFF {
      forall j | 0 <= j < ENTRY ensures t[j] == e[j] {
        assert j >= n ==> e[28..][j - 28] == e[j];
      }
    }
    if t == e {
      forall i | n - 28 <= i < 4 ensures e[28..][i] == 0xFF {
        assert e[28..][i] == e[28 + i] == t[28 + i];
      }
    }
  }

  lemma TornAfterState(sequence: nat, state: nat, commit: bool, n: nat)
    requires sequence < LIMIT && Named(state) && 28 <= n <= ENTRY
    ensures var t := Torn(Entry(sequence, state, commit), n);
            Decode(t) == if t == Entry(sequence, state, commit)
                         then Decode(Entry(sequence, state, commit)) else Corrupt
  {
    var e := Entry(sequence, state, commit);
    var t := Torn(e, n);
    Fields(sequence, state, CommitWord(commit));
    SameHead(e, t);
    Fields(sequence, state, CommitWord(!commit));
    CommitWordsDiffer();
  }

  lemma SameHead(e: seq<Byte>, t: seq<Byte>)
    requires |e| == |t| == ENTRY && t[..28] == e[..28] && e[4..8] == MAGIC
    ensures t[..4] == e[..4] && t[12..16] == e[12..16] && t[20..24] == e[20..24] && t[24..28] == e[24..28]
    ensures t != Erased(ENTRY)
  {
    assert forall i :: 0 <= i < 28 ==> t[..28][i] == t[i] && e[..28][i] == e[i];
    assert t[4] == e[4..8][0];
  }

  /** A write cut short anywhere never reads as an entry other than the one being written,
      and it reads as that one only when every byte that is missing happens to be 0xFF. */
  lemma TornIsNeverAnotherEntry(sequence: nat, state: nat, commit: bool, n: nat)
    requires sequence < LIMIT && Named(state) && n <= ENTRY
    ensures var e := Entry(sequence, state, commit);
            var verdict := Decode(Torn(e, n));
            Entered(verdict) ==>
              verdict == (if commit then Committed(sequence, state) else BodyOnly(sequence, state))
              && Torn(e, n) == e
  {
    if n < 28 {
      TornBeforeState(Entry(sequence, state, commit), n);
    } else {
      TornAfterState(sequence, state, commit, n);
      DecodeOfEntry(sequence, state, commit);
    }
  }

  /** When exactly a cut write reads as committed: only inside the last four bytes, and only
      if the CRC bytes still to come are all 0xFF. With 28 bytes or fewer it never does,
      because no legal sequence number has the CRC 0xFFFFFFFF. */
  lemma TornCommittedExactly(sequence: nat, state: nat, n: nat)
    requires sequence < LIMIT && LegalSeq(sequence) && Named(state) && n <= ENTRY
    ensures Decode(Torn(Entry(sequence, state, true), n)).Committed? <==>
            n > 28 && forall i :: n - 28 <= i < 4 ==> WordCrc(Le32(sequence))[i] == 0xFF
  {
    var e := Entry(sequence, state, true);
    Fields(sequence, state, CommitWord(true));
    if n < 28 {
      TornBeforeState(e, n);
    } else {
      TornAfterState(sequence, state, true, n);
      DecodeOfEntry(sequence, state, true);
      TornIsWhole(e, n);
      if n == 28 {
        LegalSeqCrc(sequence);
      }
    }
  }

  lemma LegalSeqCrc(sequence: nat)
    requires sequence < LIMIT && LegalSeq(sequence)
    ensures exists i :: 0 <= i < 4 && WordCrc(Le32(sequence))[i] != 0xFF
  {
    var crc := WordCrc(Le32(sequence));
    if forall i :: 0 <= i < 4 ==> crc[i] == 0xFF {
      assert crc == Repeat(0xFF, 4);
      OnlyZeroLooksErased(Le32(sequence));
      Le32RoundTrip(sequence);
      assert false;
    }
  }

  // --- Changed fields --------------------------------------------------------------------

  /** A body whose commit word is anything but COMMIT is never committed. */
  lemma OtherCommitWord(sequence: nat, state: nat, word: seq<Byte>)
    requires sequence < LIMIT && state < LIMIT && |word| == 4 && word != Le32(COMMIT)
    ensures !Decode(EntryWith(sequence, state, word)).Committed?
  {
    Fields(sequence, state, word);
    Fields(sequence, state, Le32(COMMIT));
    assert EntryWith(sequence, state, word) != Entry(sequence, state, true);
  }

  lemma WrongCrc(raw: seq<Byte>, sequence: nat, state: nat)
    requires |raw| == ENTRY && sequence < LIMIT && state < LIMIT
    requires raw[..4] == Le32(sequence) && raw[24..28] == Le32(state)
    requires raw[12..16] != ExtCrc(sequence, state) || raw[28..] != WordCrc(Le32(sequence))
    ensures !Entered(Decode(raw))
  {
    Le32RoundTrip(sequence);
    Le32RoundTrip(state);
    Fields(sequence, state, CommitWord(true));
    Fields(sequence, state, CommitWord(false));
  }

  /** An entry with its sequence field replaced: the trailing CRC always shows it. */
  lemma ChangedSequence(sequence: nat, other: nat, state: nat, commit: bool)
    requires sequence < LIMIT && other < LIMIT && state < LIMIT && other != sequence
    ensures !Entered(Decode(Le32(other) + Entry(sequence, state, commit)[4..]))
  {
    var e := Entry(sequence, state, commit);
    Fields(sequence, state, CommitWord(commit));
    Le32RoundTrip(other);
    Le32RoundTrip(sequence);
    if WordCrc(Le32(other)) == WordCrc(Le32(sequence)) {
      WordCrcInjective(Le32(other), Le32(sequence));
      assert false;
    }
    ReplacedHead(e, Le32(other));
    WrongCrc(Le32(other) + e[4..], other, state);
  }

  lemma ReplacedHead(e: seq<Byte>, head: seq<Byte>)
    requires |e| == ENTRY && |head| == 4
    ensures var raw := head + e[4..];
            raw[..4] == head && raw[24..28] == e[24..28] && raw[28..] == e[28..]
  {
  }

  /** An entry with its state field replaced: ext_crc always shows it. */
  lemma ChangedState(sequence: nat, state: nat, other: nat, commit: bool)
    requires sequence < LIMIT && state < LIMIT && other < LIMIT && other != state
    ensures var e := Entry(sequence, state, commit);
            !Entered(Decode(e[..24] + Le32(other) + e[28..]))
  {
    var e := Entry(sequence, state, commit);
    Fields(sequence, state, CommitWord(commit));
    ExtCrcTellsStates(sequence, state, other);
    ReplacedState(e, Le32(other));
    WrongCrc(e[..24] + Le32(other) + e[28..], sequence, other);
  }

  lemma ReplacedState(e: seq<Byte>, field: seq<Byte>)
    requires |e| == ENTRY && |field| == 4
    ensures var raw := e[..24] + field + e[28..];
            raw[..4] == e[..4] && raw[12..16] == e[12..16] && raw[24..28] == field
  {
  }

  lemma ExtCrcTellsStates(sequence: nat, state: nat, other: nat)
    requires sequence < LIMIT && state < LIMIT && other < LIMIT && other != state
    ensures ExtCrc(sequence, state) != ExtCrc(sequence, other)
  {
    hide Crc, BytesOf;
    Le32RoundTrip(other);
    Le32RoundTrip(state);
    var pre, post := [] + Le32(sequence), MAGIC + Le32(VERSION);
    OneWordChanged(pre, Le32(state), Le32(other), post, ONES);
    assert pre + Le32(state) + post == pre + (Le32(state) + post);
    assert pre + Le32(other) + post == pre + (Le32(other) + post);
  }

  // --- The `image` command ---------------------------------------------------------------

  /** One sector as `image` writes it: `-` leaves it blank. */
  datatype Spec = Blanked | Set(sequence: int, state: int)

  predicate Packable(spec: Spec) {
    spec.Set? ==> 0 <= spec.sequence < LIMIT && 0 <= spec.state < LIMIT
  }

  function Sector(spec: Spec): (s: seq<Byte>)
    requires Packable(spec)
    ensures |s| == SECTOR
  {
    if spec.Blanked? then Erased(SECTOR)
    else Entry(spec.sequence, spec.state, true) + Erased(SECTOR - ENTRY)
  }

  function Clip(n: nat, length: nat): nat {
    if n < length then n else length
  }

  /** data[from..to] = part on a Python bytearray: bounds are clipped, the length may change. */
  function Assign(data: seq<Byte>, from: nat, to: nat, part: seq<Byte>): seq<Byte>
    requires from <= to
  {
    data[..Clip(from, |data|)] + part + data[Clip(to, |data|)..]
  }

  /** The file that results: in a file too short to reach the offset the sectors land at
      its end instead. */
  function Imaged(file: seq<Byte>, off: nat, s0: Spec, s1: Spec): seq<Byte>
    requires Packable(s0) && Packable(s1)
  {
    file[..Clip(off, |file|)] + Sector(s0) + Sector(s1) + file[Clip(off + 2 * SECTOR, |file|)..]
  }

  /** The loop of `image`; None when packing raises, before the file is written back. */
  method Image(file: seq<Byte>, off: nat, specs: seq<Spec>) returns (written: Option<seq<Byte>>)
    requires |specs| == 2
    ensures written.Some? <==>
              forall s :: s in specs && s.Set? ==> 0 <= s.sequence < 0x1_0000_0000 && 0 <= s.state < 0x1_0000_0000
    ensures written.Some? ==> Packable(specs[0]) && Packable(specs[1])
    ensures written.Some? ==> written.value == Imaged(file, off, specs[0], specs[1])
  {
    hide LaidOut, Entry, Erased, Number;
    var data := file;
    for i := 0 to 2
      invariant forall j :: 0 <= j < i ==> Packable(specs[j])
      invariant i == 0 ==> data == file
      invariant i == 1 ==> data == Assign(file, off, off + SECTOR, Sector(specs[0]))
      invariant i == 2 ==> data == Assign(Assign(file, off, off + SECTOR, Sector(specs[0])),
                                          off + SECTOR, off + 2 * SECTOR, Sector(specs[1]))
    {
      var sector := Erased(SECTOR);
      if specs[i].Set? {
        var entry := Make(specs[i].sequence, specs[i].state, true);
        if entry.None? {
          return None;
        }
        sector := entry.value + Erased(SECTOR - ENTRY);
      }
      data := Assign(data, off + i * SECTOR, off + (i + 1) * SECTOR, sector);
    }
    AssignTwice(file, off, Sector(specs[0]), Sector(specs[1]));
    written := Some(data);
  }

  lemma AssignTwice(file: seq<Byte>, off: nat, s0: seq<Byte>, s1: seq<Byte>)
    requires |s0| == |s1| == SECTOR
    ensures Assign(Assign(file, off, off + SECTOR, s0), off + SECTOR, off + 2 * SECTOR, s1)
         == file[..Clip(off, |file|)] + s0 + s1 + file[Clip(off + 2 * SECTOR, |file|)..]
  {
  }

  /** What reading a sector written from a spec reports. */
  function Reads(spec: Spec): Verdict {
    if spec.Blanked? then Blank
    else if 0 <= spec.state && Named(spec.state) && 0 <= spec.sequence && LegalSeq(spec.sequence) then
      Committed(spec.sequence, spec.state)
    else Corrupt
  }

  predicate AllErased(s: seq<Byte>) {
    forall i :: 0 <= i < |s| ==> s[i] == 0xFF
  }

  /** The two sectors read back as what was asked for where they were put - at the offset, or at
      the end of a file too short to reach it - and what lies before them is as it was; so is
      what lies behind them, in a file that goes on there. */
  lemma ImageReadsBack(file: seq<Byte>, off: nat, s0: Spec, s1: Spec)
    requires Packable(s0) && Packable(s1)
    ensures var data, at := Imaged(file, off, s0, s1), Clip(off, |file|);
            && Decode(data[at..at + 32]) == Reads(s0)
            && Decode(data[at + 0x1000..at + 0x1020]) == Reads(s1)
            && AllErased(data[at + 32..at + 0x1000]) && AllErased(data[at + 0x1020..at + 0x2000])
            && data[..at] == file[..at]
            && data[at + 0x2000..] == file[Clip(off + 0x2000, |file|)..]
  {
    hide Sector, Reads, Decode;
    var data, at := Imaged(file, off, s0, s1), Clip(off, |file|);
    assert data[at..at + ENTRY] == Sector(s0)[..ENTRY];
    assert data[at + SECTOR..at + SECTOR + ENTRY] == Sector(s1)[..ENTRY];
    SectorReadsAs(s0);
    SectorReadsAs(s1);
    assert data[at + 32..at + 0x1000] == Sector(s0)[32..];
    assert data[at + 0x1020..at + 0x2000] == Sector(s1)[32..];
    SectorEndsErased(s0);
    SectorEndsErased(s1);
  }

  lemma SectorEndsErased(spec: Spec)
    requires Packable(spec)
    ensures AllErased(Sector(spec)[32..])
  {
  }

  /** What the `decode` command, given the same offset, makes of the image. */
  function Slice(data: seq<Byte>, from: nat, to: nat): seq<Byte>
    requires from <= to
  {
    data[Clip(from, |data|)..Clip(to, |data|)]
  }

  predicate ReadsAt(data: seq<Byte>, off: nat, s0: Spec, s1: Spec) {
    && Decode(Slice(data, off, off + ENTRY)) == Reads(s0)
    && Decode(Slice(data, off + SECTOR, off + SECTOR + ENTRY)) == Reads(s1)
  }

  /** An entry followed by erased bytes is not found again k bytes further on: a byte that equals
      the one k places behind it leads, step by step, to an erased one. */
  lemma {:induction false} NotShifted(t: seq<Byte>, k: nat, i: nat)
    requires k > 0 && i < ENTRY && k + ENTRY <= |t|
    requires forall j :: ENTRY <= j < |t| ==> t[j] == 0xFF
    requires t[i] != 0xFF
    ensures t[k..k + ENTRY] != t[..ENTRY]
    decreases ENTRY - i
  {
    assert t[k..k + ENTRY][i] == t[i + k] && t[..ENTRY][i] == t[i];
    if i + k < ENTRY && t[i + k] != 0xFF {
      NotShifted(t, k, i + k);
    }
  }

  /** In a file that does not reach the offset, the first entry is not found there. */
  lemma ShortFileMisreads(file: seq<Byte>, off: nat)
    requires off > |file|
    ensures !ReadsAt(Imaged(file, off, Set(1, 0), Blanked), off, Set(1, 0), Blanked)
  {
    hide Decode, Entry, LaidOut;
    var sectors := Sector(Set(1, 0)) + Sector(Blanked);
    var data, k := Imaged(file, off, Set(1, 0), Blanked), off - |file|;
    assert data == file + sectors;
    var raw := Slice(data, off, off + ENTRY);
    DecodeIsExact(raw, 1, 0);
    if LaidOut(raw, 1, 0, true) {
      LaidOutIsEntry(raw, 1, 0, true);
      assert raw == sectors[k..k + ENTRY] && sectors[..ENTRY] == raw;
      FirstByte();
      assert sectors[0] == raw[0];
      NotShifted(sectors, k, 0);
    }
  }

  lemma FirstByte()
    ensures Entry(1, 0, true)[0] == 1
  {
    Fields(1, 0, CommitWord(true));
    assert Entry(1, 0, true)[0] == Entry(1, 0, true)[..4][0];
  }

  /** So an image written at an offset decodes at that offset as what was asked for, whatever
      was asked for, exactly when the file reached the offset. */
  lemma ImageReadsBackExactly(file: seq<Byte>, off: nat)
    ensures (forall s0, s1 :: Packable(s0) && Packable(s1) ==> ReadsAt(Imaged(file, off, s0, s1), off, s0, s1))
            <==> off <= |file|
  {
    hide ReadsAt, Imaged;
    if off <= |file| {
      forall s0, s1 | Packable(s0) && Packable(s1) ensures ReadsAt(Imaged(file, off, s0, s1), off, s0, s1) {
        ReachedOffsetReads(file, off, s0, s1);
      }
    } else {
      ShortFileMisreads(file, off);
    }
  }

  lemma ReachedOffsetReads(file: seq<Byte>, off: nat, s0: Spec, s1: Spec)
    requires Packable(s0) && Packable(s1) && off <= |file|
    ensures ReadsAt(Imaged(file, off, s0, s1), off, s0, s1)
  {
    hide Sector, Reads, Decode;
    ImageReadsBack(file, off, s0, s1);
  }

  lemma SectorReadsAs(spec: Spec)
    requires Packable(spec)
    ensures Decode(Sector(spec)[..ENTRY]) == Reads(spec)
  {
    if spec.Blanked? {
      assert Sector(spec)[..ENTRY] == Erased(ENTRY);
    } else {
      assert Sector(spec)[..ENTRY] == Entry(spec.sequence, spec.state, true);
      Fields(spec.sequence, spec.state, CommitWord(true));
      Fields(spec.sequence, spec.state, CommitWord(false));
      CommitWordsDiffer();
    }
  }
}
