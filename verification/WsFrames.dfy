/** The mock core's WebSocket reader (tooling/mock-core/mock_core.py): `read_ws_frame` and the
    loop that collects log lines, over the framing of sections 5.2 and 5.3 of RFC 6455. */
module WsFrames {
  import opened Bytes
  import opened Octets

  const OP_TEXT: nat := 0x1
  const OP_CLOSE: nat := 0x8

  /** The largest count Python's `read` takes on a 64-bit host. */
  const MAX_READ: nat := 0x7FFF_FFFF_FFFF_FFFF

  datatype Frame = Frame(opcode: nat, payload: seq<Byte>)

  /** `End` is the reader's None; `Raised` is struct.error or OverflowError. */
  datatype Read = End | Got(frame: Frame) | Raised

  // --- Big-endian lengths ------------------------------------------------------------------

  function Power256(k: nat): (p: nat)
    ensures p > 0
  {
    if k == 0 then 1 else 256 * Power256(k - 1)
  }

  function Be(n: nat, k: nat): (s: seq<Byte>)
    ensures |s| == k
  {
    if k == 0 then [] else Be(n / 256, k - 1) + [n % 256]
  }

  function FromBe(s: seq<Byte>): nat {
    if s == [] then 0 else 256 * FromBe(s[..|s| - 1]) + s[|s| - 1]
  }

  lemma {:induction false} BeRoundTrip(n: nat, k: nat)
    requires n < Power256(k)
    ensures FromBe(Be(n, k)) == n
  {
    if k > 0 {
      BeRoundTrip(n / 256, k - 1);
      assert Be(n, k)[..k - 1] == Be(n / 256, k - 1);
    }
  }

  lemma {:induction false} FromBeRoundTrip(s: seq<Byte>)
    ensures FromBe(s) < Power256(|s|)
    ensures Be(FromBe(s), |s|) == s
    decreases |s|
  {
    if s != [] {
      FromBeRoundTrip(s[..|s| - 1]);
      assert s == s[..|s| - 1] + [s[|s| - 1]];
    }
  }

  lemma Powers()
    ensures Power256(2) == 0x1_0000 && Power256(8) == 0x1_0000_0000_0000_0000
  {
    assert Power256(2) == 0x1_0000;
    assert Power256(4) == 0x1_0000_0000;
    assert Power256(6) == 0x1_0000_0000_0000;
  }

  // --- Masking -----------------------------------------------------------------------------

  type Mask = m: seq<Byte> | |m| == 4 witness [0, 0, 0, 0]

  function Masked(s: seq<Byte>, mask: Mask): (r: seq<Byte>)
    ensures |r| == |s|
  {
    seq(|s|, i requires 0 <= i < |s| => Xor(s[i], mask[i % 4]))
  }

  lemma MaskedTwice(s: seq<Byte>, mask: Mask)
    ensures Masked(Masked(s, mask), mask) == s
  {
    hide Xor;
    forall i | 0 <= i < |s| ensures Masked(Masked(s, mask), mask)[i] == s[i] {
      XorTwice(s[i], mask[i % 4]);
    }
  }

  // --- What a sender writes ----------------------------------------------------------------

  datatype Form = Short | Medium | Long

  predicate Fits(n: nat, form: Form) {
    match form
    case Short => n < 126
    case Medium => n < 0x1_0000
    case Long => n <= MAX_READ
  }

  datatype Masking = Plain | With(mask: Mask)

  /** A frame on the wire: the flag bits of its first byte, and how it was encoded. */
  datatype Message = Message(flags: nat, frame: Frame, form: Form, masking: Masking) {
    predicate Valid() {
      flags < 16 && frame.opcode < 16 && Fits(|frame.payload|, form)
    }
  }

  function MaskBit(m: Masking): nat {
    if m.Plain? then 0 else 128
  }

  function Head(m: Message): seq<Byte>
    requires m.Valid()
  {
    var n := |m.frame.payload|;
    var first := 16 * m.flags + m.frame.opcode;
    match m.form
    case Short => [first, MaskBit(m.masking) + n]
    case Medium => [first, MaskBit(m.masking) + 126] + Be(n, 2)
    case Long => [first, MaskBit(m.masking) + 127] + Be(n, 8)
  }

  function Key(m: Masking): seq<Byte> {
    if m.Plain? then [] else m.mask
  }

  function Sent(m: Masking, payload: seq<Byte>): seq<Byte> {
    match m
    case Plain => payload
    case With(mask) => Masked(payload, mask)
  }

  function Body(m: Message): seq<Byte> {
    Sent(m.masking, m.frame.payload)
  }

  function Encoded(m: Message): seq<Byte>
    requires m.Valid()
  {
    Head(m) + Key(m.masking) + Body(m)
  }

  // --- What the reader makes of a stream ---------------------------------------------------

  function Extension(low: nat): nat {
    if low == 126 then 2 else if low == 127 then 8 else 0
  }

  /** What was read, and what is left of the stream. */
  function Parse(s: seq<Byte>): (Read, seq<Byte>) {
    if |s| < 2 then (End, [])
    else
      var low := s[1] % 128;
      var start := 2 + Extension(low);
      if |s| < start then (Raised, [])
      else
        ParseBody(s[0] % 16, s[1] >= 128, if start == 2 then low else FromBe(s[2..start]), s[start..])
  }

  /** The part after the length. A mask cut short by the end of the stream is not noticed here:
      what stops the reader is that there is no payload behind it. */
  function ParseBody(opcode: nat, masked: bool, length: nat, s: seq<Byte>): (Read, seq<Byte>) {
    var k := if !masked then 0 else if |s| < 4 then |s| else 4;
    if length > MAX_READ then (Raised, s[k..])
    else if |s| - k < length then (End, [])
    else
      var data := s[k..k + length];
      (Got(Frame(opcode, if k == 4 then Masked(data, s[..4]) else data)), s[k + length..])
  }

  class Stream {
    var rest: seq<Byte>

    constructor (s: seq<Byte>)
      ensures rest == s
    {
      rest := s;
    }

    /** rfile.read: n bytes, or fewer at the end of the stream. */
    method Take(n: nat) returns (s: seq<Byte>)
      modifies this
      ensures s == old(rest)[..if n <= |old(rest)| then n else |old(rest)|]
      ensures rest == old(rest)[|s|..]
    {
      var k := if n <= |rest| then n else |rest|;
      s := rest[..k];
      rest := rest[k..];
    }

    /** read_ws_frame */
    method ReadFrame() returns (r: Read)
      modifies this
      ensures (r, rest) == Parse(old(rest))
    {
      ghost var s := rest;
      var head := Take(2);
      if |head| < 2 {
        return End;
      }
      var opcode, masked, length := head[0] % 16, head[1] >= 128, head[1] % 128;
      assert rest == s[2..];
      if length == 126 {
        var ext := Take(2);
        if |ext| < 2 { return Raised; }
        assert ext == s[2..4] && rest == s[4..];
        length := FromBe(ext);
      } else if length == 127 {
        var ext := Take(8);
        if |ext| < 8 { return Raised; }
        assert ext == s[2..10] && rest == s[10..];
        length := FromBe(ext);
      }
      r := ReadBody(opcode, masked, length);
    }

    method ReadBody(opcode: nat, masked: bool, length: nat) returns (r: Read)
      modifies this
      ensures (r, rest) == ParseBody(opcode, masked, length, old(rest))
    {
      ghost var s := rest;
      var mask := [];
      if masked {
        mask := Take(4);
      }
      assert mask == s[..|mask|] && rest == s[|mask|..];
      if length > MAX_READ {
        return Raised;
      }
      var payload := Take(length);
      if |payload| < length {
        return End;
      }
      assert payload == s[|mask|..|mask| + length] && rest == s[|mask| + length..];
      // A mask can only be short at the end of the stream, where there is no payload to unmask.
      if mask != [] && payload != [] {
        assert |mask| == 4;
        payload := Masked(payload, mask);
      }
      return Got(Frame(opcode, payload));
    }

    /** The frame loop of do_GET: the payloads of the text frames, until the stream ends, a close
        frame comes or the reader raises. */
    method Serve() returns (lines: seq<seq<Byte>>, raised: bool)
      modifies this
      ensures (lines, raised) == Session(old(rest))
    {
      lines := [];
      ghost var all := rest;
      hide Parse;
      assert [] + Session(all).0 == Session(all).0;
      while true
        invariant Session(all) == (lines + Session(rest).0, Session(rest).1)
        decreases |rest|
      {
        ParseConsumes(rest);
        ghost var before := rest;
        var r := ReadFrame();
        match r {
          case End =>
            assert lines + [] == lines;
            return lines, false;
          case Raised =>
            assert lines + [] == lines;
            return lines, true;
          case Got(frame) =>
            if frame.opcode == OP_CLOSE {
              assert lines + [] == lines;
              return lines, false;
            }
            if frame.opcode != OP_TEXT {
              continue;
            }
            assert lines + ([frame.payload] + Session(rest).0) == (lines + [frame.payload]) + Session(rest).0;
            lines := lines + [frame.payload];
        }
      }
    }
  }

  lemma ParseConsumes(s: seq<Byte>)
    ensures |Parse(s).1| <= |s|
    ensures Parse(s).0.Got? ==> |Parse(s).1| + 2 <= |s|
  {
    hide Masked, FromBe;
  }

  function Session(s: seq<Byte>): (seq<seq<Byte>>, bool)
    decreases |s|
  {
    ParseConsumes(s);
    var (r, rest) := Parse(s);
    match r
    case End => ([], false)
    case Raised => ([], true)
    case Got(frame) =>
      if frame.opcode == OP_CLOSE then ([], false)
      else
        var (lines, raised) := Session(rest);
        (if frame.opcode == OP_TEXT then [frame.payload] + lines else lines, raised)
  }

  // --- Round trip --------------------------------------------------------------------------

  lemma BodyRoundTrip(m: Message, rest: seq<Byte>)
    requires m.Valid()
    ensures ParseBody(m.frame.opcode, m.masking.With?, |m.frame.payload|, Key(m.masking) + Body(m) + rest)
            == (Got(m.frame), rest)
  {
    hide Masked;
    var s, n := Key(m.masking) + Body(m) + rest, |m.frame.payload|;
    var k := |Key(m.masking)|;
    assert s[k..k + n] == Body(m) && s[k + n..] == rest;
    if m.masking.With? {
      assert s[..4] == m.masking.mask;
      MaskedTwice(m.frame.payload, m.masking.mask);
    }
  }

  lemma HeadRoundTrip(m: Message, tail: seq<Byte>)
    requires m.Valid()
    ensures Parse(Head(m) + tail) == ParseBody(m.frame.opcode, m.masking.With?, |m.frame.payload|, tail)
  {
    hide Be, FromBe, ParseBody;
    var s, h, n := Head(m) + tail, Head(m), |m.frame.payload|;
    Powers();
    if m.form.Medium? {
      BeRoundTrip(n, 2);
      assert s[2..4] == Be(n, 2);
    }
    if m.form.Long? {
      BeRoundTrip(n, 8);
      assert s[2..10] == Be(n, 8);
    }
    assert s[0] == h[0] && s[1] == h[1] && s[|h|..] == tail;
  }

  /** One message, in any length form and under any mask, is read back as its opcode and its
      unmasked payload, and exactly its bytes are consumed. */
  lemma MessageRoundTrip(m: Message, rest: seq<Byte>)
    requires m.Valid()
    ensures Parse(Encoded(m) + rest) == (Got(m.frame), rest)
  {
    hide Parse, Head, ParseBody;
    assert Encoded(m) + rest == Head(m) + (Key(m.masking) + Body(m) + rest);
    HeadRoundTrip(m, Key(m.masking) + Body(m) + rest);
    BodyRoundTrip(m, rest);
  }

  function EncodedAll(ms: seq<Message>): seq<Byte>
    requires forall m :: m in ms ==> m.Valid()
  {
    if ms == [] then [] else Encoded(ms[0]) + EncodedAll(ms[1..])
  }

  function ReadAll(s: seq<Byte>): (seq<Frame>, Read)
    decreases |s|
  {
    ParseConsumes(s);
    var (r, rest) := Parse(s);
    if r.Got? then
      var (frames, end) := ReadAll(rest);
      ([r.frame] + frames, end)
    else ([], r)
  }

  function Frames(ms: seq<Message>): seq<Frame> {
    if ms == [] then [] else [ms[0].frame] + Frames(ms[1..])
  }

  /** Every list of messages comes out as its frames, in order, and then the end. */
  lemma {:induction false} StreamRoundTrip(ms: seq<Message>)
    requires forall m :: m in ms ==> m.Valid()
    ensures ReadAll(EncodedAll(ms)) == (Frames(ms), End)
    decreases |ms|
  {
    hide Parse, Encoded;
    if ms == [] {
      EmptyEnds();
    } else {
      MessageRoundTrip(ms[0], EncodedAll(ms[1..]));
      StreamRoundTrip(ms[1..]);
    }
  }

  lemma EmptyEnds()
    ensures Parse([]) == (End, [])
  {
  }

  /** The text payloads before the first close frame. */
  function Lines(ms: seq<Message>): seq<seq<Byte>> {
    if ms == [] || ms[0].frame.opcode == 8 then []
    else (if ms[0].frame.opcode == 1 then [ms[0].frame.payload] else []) + Lines(ms[1..])
  }

  /** The frame loop logs exactly the text payloads sent before the first close frame; what
      follows a close frame does not matter. */
  lemma {:induction false} SessionLogsTheLines(ms: seq<Message>, tail: seq<Byte>)
    requires forall m :: m in ms ==> m.Valid()
    requires tail == [] || exists m :: m in ms && m.frame.opcode == OP_CLOSE
    ensures Session(EncodedAll(ms) + tail) == (Lines(ms), false)
    decreases |ms|
  {
    hide Parse, Encoded;
    if ms == [] {
      EmptyEnds();
    } else {
      var rest := EncodedAll(ms[1..]) + tail;
      assert EncodedAll(ms) + tail == Encoded(ms[0]) + rest;
      MessageRoundTrip(ms[0], rest);
      if ms[0].frame.opcode != OP_CLOSE {
        assert forall m :: m in ms && m.frame.opcode == OP_CLOSE ==> m in ms[1..];
        SessionLogsTheLines(ms[1..], tail);
        assert [] + Lines(ms[1..]) == Lines(ms[1..]);
      }
    }
  }

  // --- Truncation --------------------------------------------------------------------------

  lemma CutHead(m: Message, n: nat)
    requires m.Valid() && n < |Head(m)|
    ensures Parse(Encoded(m)[..n]) == (if n < 2 then End else Raised, [])
  {
    hide Be, FromBe, Masked, ParseBody;
    assert n >= 2 ==> Encoded(m)[..n][1] == Head(m)[1];
  }

  /** A message cut short anywhere. It raises exactly when the cut is inside the extended length,
      and it yields a frame exactly when only mask bytes of an empty frame are missing; that
      frame is the one sent. So a truncated payload never yields a frame. */
  lemma CutMessage(m: Message, n: nat)
    requires m.Valid() && n < |Encoded(m)|
    ensures var (r, rest) := Parse(Encoded(m)[..n]);
            && rest == []
            && (r.Got? <==> m.frame.payload == [] && |Head(m)| <= n)
            && (r.Got? ==> m.masking.With? && r.frame == m.frame)
            && (r.Raised? <==> 2 <= n < |Head(m)|)
  {
    hide Parse, Masked, Be, FromBe;
    if n < |Head(m)| {
      CutHead(m, n);
    } else {
      var tail := Encoded(m)[|Head(m)|..n];
      assert Encoded(m)[..n] == Head(m) + tail;
      HeadRoundTrip(m, tail);
    }
  }

  /** However a stream of messages is cut, what was read of it is a beginning of the frames. */
  lemma {:induction false} CutStreamIsPrefix(ms: seq<Message>, n: nat)
    requires forall m :: m in ms ==> m.Valid()
    requires n <= |EncodedAll(ms)|
    ensures ReadAll(EncodedAll(ms)[..n]).0 <= Frames(ms)
    decreases |ms|
  {
    hide Parse, Encoded, Head;
    EmptyEnds();
    if ms != [] {
      var s, k := EncodedAll(ms)[..n], |Encoded(ms[0])|;
      if n < k {
        assert s == Encoded(ms[0])[..n];
        CutMessage(ms[0], n);
      } else {
        var rest := EncodedAll(ms[1..])[..n - k];
        assert s == Encoded(ms[0]) + rest;
        MessageRoundTrip(ms[0], rest);
        CutStreamIsPrefix(ms[1..], n - k);
      }
    }
  }

  lemma CutSessionBase(last: Message, n: nat)
    requires last.Valid() && n < |Encoded(last)|
    ensures Session(Encoded(last)[..n]).0 == if last.frame == Frame(OP_TEXT, []) && |Head(last)| <= n then [[]] else []
    ensures Session(Encoded(last)[..n]).1 == (2 <= n < |Head(last)|)
  {
    hide Parse, Encoded, Head;
    CutMessage(last, n);
    EmptyEnds();
    var cut := Encoded(last)[..n];
    ParseConsumes(cut);
    var (r, rest) := Parse(cut);
    if r.Got? {
      assert rest == [] && r.frame == last.frame;
      assert Session(rest) == ([], false);
      if r.frame.opcode == OP_TEXT {
        assert r.frame == Frame(OP_TEXT, []);
        assert [r.frame.payload] + [] == [[]];
      } else {
        assert Session(cut).0 == [];
      }
    } else {
      assert Session(cut) == ([], r.Raised?);
    }
  }

  /** A session that a cut message ends: the lines before it are logged, and the loop raises
      exactly when the cut is inside the extended length. An empty text frame that lacks only
      mask bytes is still logged. */
  lemma {:induction false} CutSession(ms: seq<Message>, last: Message, n: nat)
    requires last.Valid() && n < |Encoded(last)|
    requires forall m :: m in ms ==> m.Valid() && m.frame.opcode != OP_CLOSE
    ensures var empty := last.frame == Frame(OP_TEXT, []) && |Head(last)| <= n;
            Session(EncodedAll(ms) + Encoded(last)[..n])
            == (Lines(ms) + (if empty then [[]] else []), 2 <= n < |Head(last)|)
    decreases |ms|
  {
    hide Parse, Encoded, Head;
    var cut := Encoded(last)[..n];
    var logged: seq<seq<Byte>> := if last.frame == Frame(OP_TEXT, []) && |Head(last)| <= n then [[]] else [];
    if ms == [] {
      assert EncodedAll(ms) + cut == cut;
      CutSessionBase(last, n);
      assert Lines(ms) + logged == logged;
    } else {
      var rest := EncodedAll(ms[1..]) + cut;
      assert EncodedAll(ms) + cut == Encoded(ms[0]) + rest;
      MessageRoundTrip(ms[0], rest);
      CutSession(ms[1..], last, n);
      var first := if ms[0].frame.opcode == OP_TEXT then [ms[0].frame.payload] else [];
      assert first + (Lines(ms[1..]) + logged) == Lines(ms) + logged;
      assert [] + Lines(ms[1..]) == Lines(ms[1..]);
    }
  }

  // --- Nothing else is a frame -------------------------------------------------------------

  lemma WholeBody(opcode: nat, masked: bool, length: nat, s: seq<Byte>) returns (key: Masking)
    requires ParseBody(opcode, masked, length, s).0.Got?
    requires masked ==> |s| >= 4
    ensures var (r, rest) := ParseBody(opcode, masked, length, s);
            && key.With? == masked && r.frame.opcode == opcode && |r.frame.payload| == length <= MAX_READ
            && s == Key(key) + Sent(key, r.frame.payload) + rest
  {
    hide Masked;
    var k := if masked then 4 else 0;
    var data := s[k..k + length];
    assert s == s[..k] + data + s[k + length..];
    if masked {
      key := With(s[..4]);
      MaskedTwice(data, s[..4]);
    } else {
      key := Plain;
    }
  }

  /** The bytes end inside the mask: `missing` would complete it. */
  lemma CutBody(opcode: nat, length: nat, s: seq<Byte>) returns (key: Masking, missing: seq<Byte>)
    requires ParseBody(opcode, true, length, s).0.Got? && |s| < 4
    ensures ParseBody(opcode, true, length, s) == (Got(Frame(opcode, [])), [])
    ensures key.With? && 0 < |missing| <= 4 && length == 0
    ensures s + missing == Key(key) + Sent(key, [])
  {
    var k := |s|;
    assert s[k..k] == [] && s[k..] == [];
    missing := seq(4 - |s|, _ => 0);
    key := With(s + missing);
    assert Sent(key, []) == [];
  }

  /** What follows the head is a key and a payload, or the beginning of a key. */
  lemma AnyBody(opcode: nat, masked: bool, length: nat, s: seq<Byte>) returns (key: Masking, missing: seq<Byte>)
    requires ParseBody(opcode, masked, length, s).0.Got?
    ensures var (r, rest) := ParseBody(opcode, masked, length, s);
            && key.With? == masked && r.frame.opcode == opcode && |r.frame.payload| == length <= MAX_READ
            && s + missing == Key(key) + Sent(key, r.frame.payload) + rest
            && (missing != [] ==> |missing| <= 4 && masked && r.frame.payload == [] && rest == [])
  {
    hide Masked, ParseBody, Sent;
    if masked && |s| < 4 {
      key, missing := CutBody(opcode, length, s);
      assert Key(key) + Sent(key, []) + [] == Key(key) + Sent(key, []);
    } else {
      key := WholeBody(opcode, masked, length, s);
      missing := [];
      assert s + [] == s;
    }
  }

  function FormOf(low: nat): Form {
    if low < 126 then Short else if low == 126 then Medium else Long
  }

  /** The reader's answer always comes from a message: whenever it yields a frame, the stream
      starts with an encoding of exactly that frame, and what is left starts right behind it -
      or, if the frame is empty, the stream ended within the mask of such an encoding. */
  lemma OnlyEncodingsAreFrames(s: seq<Byte>) returns (m: Message, missing: seq<Byte>)
    requires Parse(s).0.Got?
    ensures m.Valid() && m.frame == Parse(s).0.frame
    ensures s + missing == Encoded(m) + Parse(s).1
    ensures missing != [] ==> |missing| <= 4 && m.frame.payload == [] && m.masking.With? && Parse(s).1 == []
  {
    hide Be, FromBe, Masked, Head, ParseBody, Parse, Sent;
    var length := HeadIsRead(s);
    var start := 2 + Extension(s[1] % 128);
    var (r, rest) := Parse(s);
    var key, missing' := AnyBody(s[0] % 16, s[1] >= 128, length, s[start..]);
    missing := missing';
    m := Message(s[0] / 16, r.frame, FormOf(s[1] % 128), key);
    HeadIs(s, m, length);
    Assemble(s, start, missing, Head(m), Key(key), Body(m), rest);
  }

  lemma Assemble(s: seq<Byte>, start: nat, missing: seq<Byte>, head: seq<Byte>, key: seq<Byte>, body: seq<Byte>,
                 rest: seq<Byte>)
    requires start <= |s| && s[..start] == head && s[start..] + missing == key + body + rest
    ensures s + missing == (head + key + body) + rest
  {
    assert s + missing == s[..start] + (s[start..] + missing);
    assert head + (key + body + rest) == (head + key + body) + rest;
  }

  lemma HeadIsRead(s: seq<Byte>) returns (length: nat)
    requires Parse(s).0.Got?
    ensures |s| >= 2 && |s| >= 2 + Extension(s[1] % 128)
    ensures s[1] % 128 < 126 ==> length == s[1] % 128
    ensures s[1] % 128 == 126 ==> length == FromBe(s[2..4])
    ensures s[1] % 128 == 127 ==> length == FromBe(s[2..10])
    ensures Parse(s) == ParseBody(s[0] % 16, s[1] >= 128, length, s[2 + Extension(s[1] % 128)..])
  {
    hide FromBe, ParseBody;
    var low, start := s[1] % 128, 2 + Extension(s[1] % 128);
    length := if start == 2 then low else FromBe(s[2..start]);
  }

  lemma HeadIs(s: seq<Byte>, m: Message, length: nat)
    requires |s| >= 2 && |s| >= 2 + Extension(s[1] % 128)
    requires m.flags == s[0] / 16 && m.frame.opcode == s[0] % 16 && m.masking.With? == (s[1] >= 128)
    requires |m.frame.payload| == length <= MAX_READ
    requires var low := s[1] % 128;
             && (low < 126 ==> m.form.Short? && length == low)
             && (low == 126 ==> m.form.Medium? && length == FromBe(s[2..4]))
             && (low == 127 ==> m.form.Long? && length == FromBe(s[2..10]))
    ensures m.Valid() && Head(m) == s[..2 + Extension(s[1] % 128)]
  {
    hide Be, FromBe;
    Powers();
    assert s[..2] == [s[0], s[1]];
    if m.form.Medium? {
      FromBeRoundTrip(s[2..4]);
      assert s[..4] == s[..2] + s[2..4];
    }
    if m.form.Long? {
      FromBeRoundTrip(s[2..10]);
      assert s[..10] == s[..2] + s[2..10];
    }
  }

  // --- Byte by byte ------------------------------------------------------------------------

  /** Byte i of one is byte i of the other, exclusive or byte i modulo 4 of the mask. */
  predicate Under(a: seq<Byte>, mask: seq<Byte>, b: seq<Byte>)
    requires |mask| == 4
  {
    && |a| == |b|
    && forall i :: 0 <= i < |a| ==> a[i] as bv8 == (b[i] as bv8) ^ (mask[i % 4] as bv8)
  }

  lemma MaskedIsUnder(s: seq<Byte>, mask: Mask)
    ensures Under(Masked(s, mask), mask, s)
  {
    forall i | 0 <= i < |s| ensures Masked(s, mask)[i] as bv8 == (s[i] as bv8) ^ (mask[i % 4] as bv8) {
      XorIsBitwise(s[i], mask[i % 4]);
    }
  }

  /** Two or eight bytes of length, the highest first. */
  function BigEndian(b: seq<Byte>): nat
    requires |b| == 2 || |b| == 8
  {
    var low := b[|b| - 2] as int * 0x100 + b[|b| - 1] as int;
    if |b| == 2 then low
    else
      low + b[5] as int * 0x1_0000 + b[4] as int * 0x100_0000 + b[3] as int * 0x1_0000_0000
      + b[2] as int * 0x100_0000_0000 + b[1] as int * 0x1_0000_0000_0000 + b[0] as int * 0x100_0000_0000_0000
  }

  lemma FromBeStep(b: seq<Byte>, n: nat)
    requires 0 < n <= |b|
    ensures FromBe(b[..n]) == 256 * FromBe(b[..n - 1]) + b[n - 1]
  {
    assert b[..n][..n - 1] == b[..n - 1];
  }

  lemma FromBeIsBigEndian(b: seq<Byte>)
    requires |b| == 2 || |b| == 8
    ensures FromBe(b) == BigEndian(b)
  {
    hide FromBe;
    EmptyNumber();
    assert b[..0] == [] && b[..|b|] == b;
    FromBeStep(b, 1);
    FromBeStep(b, 2);
    if |b| == 8 {
      FromBeStep(b, 3);
      FromBeStep(b, 4);
      FromBeStep(b, 5);
      FromBeStep(b, 6);
      FromBeStep(b, 7);
      FromBeStep(b, 8);
    }
  }

  lemma EmptyNumber()
    ensures FromBe([]) == 0
  {
  }

  /** Where the length ends, and what it is. */
  function Start(s: seq<Byte>): nat
    requires |s| >= 2
  {
    match s[1] % 128 {
      case 126 => 4
      case 127 => 10
      case _ => 2
    }
  }

  function Announced(s: seq<Byte>): nat
    requires |s| >= 2 && |s| >= Start(s)
  {
    match s[1] % 128 {
      case 126 => BigEndian(s[2..4])
      case 127 => BigEndian(s[2..10])
      case low => low
    }
  }

  lemma ParseIs(s: seq<Byte>)
    requires |s| >= 2 && |s| >= Start(s)
    ensures Parse(s) == ParseBody(s[0] % 16, s[1] >= 128, Announced(s), s[Start(s)..])
  {
    hide FromBe, ParseBody, BigEndian;
    if s[1] % 128 == 126 {
      FromBeIsBigEndian(s[2..4]);
    }
    if s[1] % 128 == 127 {
      FromBeIsBigEndian(s[2..10]);
    }
  }

  /** Which streams yield a frame, which end and which raise. */
  lemma OutcomesExactly(s: seq<Byte>)
    ensures Parse(s).0 == Raised <==> |s| >= 2 && (|s| < Start(s) || Announced(s) >= 0x8000_0000_0000_0000)
    ensures Parse(s).0 == End <==>
            |s| < 2
            || (|s| >= Start(s) && 0 < Announced(s) < 0x8000_0000_0000_0000
                && |s| - Start(s) - (if s[1] >= 128 then 4 else 0) < Announced(s))
  {
    hide FromBe, BigEndian, Masked;
    if |s| >= 2 && |s| >= Start(s) {
      ParseIs(s);
      hide Parse, Announced;
    }
  }

  lemma BodyExactly(opcode: nat, masked: bool, n: nat, s: seq<Byte>)
    requires ParseBody(opcode, masked, n, s).0.Got?
    ensures var (r, rest) := ParseBody(opcode, masked, n, s);
            && r.frame.opcode == opcode && |r.frame.payload| == n
            && (!masked ==> |s| >= n && r.frame.payload == s[..n] && rest == s[n..])
            && (masked && |s| < 4 ==> n == 0 && rest == [])
            && (masked && |s| >= 4 ==>
                  |s| >= 4 + n && rest == s[4 + n..] && Under(r.frame.payload, s[..4], s[4..4 + n]))
  {
    hide Masked, Under;
    if masked && 4 + n <= |s| {
      MaskedIsUnder(s[4..4 + n], s[..4]);
    }
  }

  /** And the frame a stream yields: its opcode, its length, and every byte of its payload, under
      the mask in front of it - with what is left right behind it. */
  lemma FrameExactly(s: seq<Byte>)
    requires Parse(s).0.Got?
    ensures |s| >= 2 && |s| >= Start(s)
    ensures var (frame, rest, n, at) := (Parse(s).0.frame, Parse(s).1, Announced(s), Start(s));
            && frame.opcode == s[0] % 16 && |frame.payload| == n
            && (s[1] < 128 ==> |s| >= at + n && frame.payload == s[at..at + n] && rest == s[at + n..])
            && (s[1] >= 128 && |s| < at + 4 ==> n == 0 && rest == [])
            && (s[1] >= 128 && |s| >= at + 4 ==>
                  |s| >= at + 4 + n && rest == s[at + 4 + n..]
                  && Under(frame.payload, s[at..at + 4], s[at + 4..at + 4 + n]))
  {
    hide FromBe, BigEndian, Masked, Under, ParseBody;
    OutcomesExactly(s);
    ParseIs(s);
    hide Parse, Announced;
    var at, n := Start(s), Announced(s);
    BodyExactly(s[0] % 16, s[1] >= 128, n, s[at..]);
    if s[1] >= 128 && |s| >= at + 4 {
      assert s[at..][..4] == s[at..at + 4] && s[at..][4..4 + n] == s[at + 4..at + 4 + n];
    }
  }

  /** What a sender writes, byte by byte: flags and opcode, mask bit and length, the length in
      full, the mask, and the payload under it. */
  lemma MessageLayout(m: Message)
    requires m.Valid()
    ensures var (e, n) := (Encoded(m), |m.frame.payload|);
            var at := match m.form case Short => 2 case Medium => 4 case Long => 10;
            && |e| == at + (if m.masking.With? then 4 else 0) + n
            && e[0] == 16 * m.flags + m.frame.opcode
            && e[1] == (if m.masking.With? then 128 else 0)
                       + (match m.form case Short => n case Medium => 126 case Long => 127)
            && (m.form.Medium? ==> BigEndian(e[2..4]) == n)
            && (m.form.Long? ==> BigEndian(e[2..10]) == n)
            && (m.masking.Plain? ==> e[at..] == m.frame.payload)
            && (m.masking.With? ==> e[at..at + 4] == m.masking.mask && Under(e[at + 4..], m.masking.mask, m.frame.payload))
  {
    hide Be, FromBe, BigEndian, Masked, Under;
    var (e, n) := (Encoded(m), |m.frame.payload|);
    Powers();
    if m.form.Medium? {
      BeRoundTrip(n, 2);
      assert e[2..4] == Be(n, 2);
      FromBeIsBigEndian(e[2..4]);
    }
    if m.form.Long? {
      BeRoundTrip(n, 8);
      assert e[2..10] == Be(n, 8);
      FromBeIsBigEndian(e[2..10]);
    }
    var at := |Head(m)|;
    if m.masking.With? {
      assert e[at..at + 4] == m.masking.mask && e[at + 4..] == Masked(m.frame.payload, m.masking.mask);
      MaskedIsUnder(m.frame.payload, m.masking.mask);
    }
  }
}
