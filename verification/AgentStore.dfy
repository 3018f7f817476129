/** The agent's identity store (src/agent.rs): saving an identity, rotating the Bearer token
    and checking a presented one, over a store that may fail at any call. */
module AgentStore {
  import opened Bytes
  import opened Utf8
  import opened Wrappers
  import opened ConfigSpace
  import opened AgentCodec

  datatype Error = Persistence | InvalidValue
  datatype RotateError = InvalidLength | WriteFailed

  /** `load_config`: nothing stored is the default configuration. */
  function Loaded(stored: Option<Snapshot>, readable: bool): Result<AgentConfig, Error> {
    if !readable then Err(Persistence)
    else if stored.None? then Ok(DEFAULT)
    else
      var c := Decoded(stored.value.data);
      if c.None? then Err(InvalidValue) else Ok(c.value)
  }

  /** `token`: empty when nothing can be read. */
  function TokenOf(stored: Option<Snapshot>, readable: bool): Text {
    match Loaded(stored, readable)
    case Ok(c) => c.token
    case Err(_) => []
  }

  /** `is_provisioned`. */
  predicate IsProvisioned(stored: Option<Snapshot>, readable: bool) {
    var c := Loaded(stored, readable);
    c.Ok? && c.value.token != []
  }

  /** `is_authorized`; the constant-time comparison is equality. */
  predicate IsAuthorized(stored: Option<Snapshot>, readable: bool, presented: Text) {
    var token := TokenOf(stored, readable);
    token != [] && token == presented
  }

  // --- generate_token --------------------------------------------------------------------

  function HexDigit(n: nat): (d: Byte)
    requires n < 16
    ensures d < 0x80
  {
    if n < 10 then 0x30 + n else 0x61 + (n - 10)
  }

  function Hex(bytes: seq<Byte>): (h: seq<Byte>)
    ensures |h| == 2 * |bytes|
    ensures forall i :: 0 <= i < |h| ==> h[i] < 0x80
  {
    if bytes == [] then []
    else Hex(bytes[..|bytes| - 1]) + [HexDigit(bytes[|bytes| - 1] / 16), HexDigit(bytes[|bytes| - 1] % 16)]
  }

  type Entropy = e: seq<Byte> | |e| == 16 witness seq(16, _ => 0)

  function FreshToken(entropy: Entropy): (t: Text)
    ensures |t| == 32
  {
    AsciiIsValid(Hex(entropy));
    Hex(entropy)
  }

  method GenerateToken(entropy: Entropy) returns (token: Text)
    ensures token == FreshToken(entropy)
  {
    var hex: seq<Byte> := [];
    for i := 0 to 16
      invariant hex == Hex(entropy[..i])
    {
      assert entropy[..i + 1][..i] == entropy[..i];
      hex := hex + [HexDigit(entropy[i] / 16), HexDigit(entropy[i] % 16)];
    }
    assert entropy[..16] == entropy;
    AsciiIsValid(hex);
    token := hex;
  }

  /** The two digits of a byte give it back. */
  lemma DigitsDetermine(a: Byte, b: Byte)
    requires HexDigit(a / 16) == HexDigit(b / 16) && HexDigit(a % 16) == HexDigit(b % 16)
    ensures a == b
  {
  }

  lemma HexSplit(a: seq<Byte>, n: nat)
    requires |a| == n + 1
    ensures Hex(a) == Hex(a[..n]) + [HexDigit(a[n] / 16), HexDigit(a[n] % 16)]
  {
  }

  lemma TailsMatch<T>(x: seq<T>, y: seq<T>, c: T, d: T, e: T, f: T)
    requires |x| == |y| && x + [c, d] == y + [e, f]
    ensures x == y && c == e && d == f
  {
    var l := x + [c, d];
    assert x == l[..|x|] == y;
    assert c == l[|x|] && d == l[|x| + 1];
  }

  /** Different entropy, different token: two device tokens coincide only if the sixteen
      random bytes did. */
  lemma {:induction false} TokensAreDistinct(a: seq<Byte>, b: seq<Byte>)
    requires |a| == |b| && Hex(a) == Hex(b)
    ensures a == b
    decreases |a|
  {
    if a != [] {
      var n := |a| - 1;
      HexSplit(a, n);
      HexSplit(b, n);
      TailsMatch(Hex(a[..n]), Hex(b[..n]), HexDigit(a[n] / 16), HexDigit(a[n] % 16),
                 HexDigit(b[n] / 16), HexDigit(b[n] % 16));
      TokensAreDistinct(a[..n], b[..n]);
      DigitsDetermine(a[n], b[n]);
      assert a == a[..n] + [a[n]] && b == b[..n] + [b[n]];
    }
  }

  const DIGITS: string := "0123456789abcdef"

  /** The token spells the entropy, two lower-case hexadecimal digits a byte. */
  lemma TokenSpells(entropy: Entropy, i: nat)
    requires i < 16
    ensures var token := FreshToken(entropy);
            |token| == 32
            && token[2 * i] == DIGITS[entropy[i] / 16] as int && token[2 * i + 1] == DIGITS[entropy[i] % 16] as int
  {
    HexSpells(entropy, i);
  }

  lemma {:induction false} HexSpells(bytes: seq<Byte>, i: nat)
    requires i < |bytes|
    ensures Hex(bytes)[2 * i] == DIGITS[bytes[i] / 16] as int && Hex(bytes)[2 * i + 1] == DIGITS[bytes[i] % 16] as int
    decreases |bytes|
  {
    var n := |bytes| - 1;
    HexSplit(bytes, n);
    if i < n {
      HexSpells(bytes[..n], i);
    } else {
      HexDigitSpells(bytes[n] / 16);
      HexDigitSpells(bytes[n] % 16);
    }
  }

  lemma HexDigitSpells(n: nat)
    requires n < 16
    ensures HexDigit(n) == DIGITS[n] as int
  {
  }

  // --- save_identity and rotate_token ----------------------------------------------------

  datatype Save = Save(nodeId: Text, ctrlUrl: Text, presented: Text, entropy: Entropy)

  /** The token a save leaves: the presented one, else the existing one, else a fresh one. */
  function KeptToken(existing: Text, save: Save): Text {
    if save.presented != [] then save.presented
    else if existing == [] then FreshToken(save.entropy)
    else existing
  }

  function Saved(stored: Option<Snapshot>, save: Save, readable: bool, outcome: Commit)
    : (Result<(), Error>, Option<Snapshot>)
  {
    match Loaded(stored, readable)
    case Err(e) => (Err(e), stored)
    case Ok(c) =>
      var encoded := Encoded(AgentConfig(save.nodeId, save.ctrlUrl, KeptToken(c.token, save)));
      if encoded.None? then (Err(InvalidValue), stored)
      else if outcome.Fails? then (Err(Persistence), stored)
      else (Ok(()), Some(Snapshot(outcome.generation, encoded.value)))
  }

  function Rotated(stored: Option<Snapshot>, token: Text, readable: bool, outcome: Commit, readBack: bool)
    : (Result<(), RotateError>, Option<Snapshot>)
  {
    if !(8 <= |token| <= 64) then (Err(InvalidLength), stored)
    else match Loaded(stored, readable)
    case Err(_) => (Err(WriteFailed), stored)
    case Ok(c) =>
      var encoded := Encoded(c.(token := token));
      if encoded.None? || outcome.Fails? then (Err(WriteFailed), stored)
      else
        var after := Some(Snapshot(outcome.generation, encoded.value));
        (if TokenOf(after, readBack) == token then Ok(()) else Err(WriteFailed), after)
  }

  class Agent {
    const space: Space

    constructor (space: Space)
      ensures this.space == space
    {
      this.space := space;
    }

    method Load(readable: bool) returns (r: Result<AgentConfig, Error>)
      ensures r == Loaded(space.stored, readable)
    {
      var loaded := space.Load(readable);
      if loaded.Err? {
        return Err(Persistence);
      }
      if loaded.value.None? {
        return Ok(DEFAULT);
      }
      var c := Decoded(loaded.value.value.data);
      r := if c.None? then Err(InvalidValue) else Ok(c.value);
    }

    method SaveIdentity(save: Save, readable: bool, outcome: Commit) returns (r: Result<(), Error>)
      modifies space
      ensures (r, space.stored) == Saved(old(space.stored), save, readable, outcome)
    {
      var loaded := Load(readable);
      if loaded.Err? {
        return Err(loaded.error);
      }
      var config := loaded.value;
      config := config.(nodeId := save.nodeId);
      config := config.(ctrlUrl := save.ctrlUrl);
      if save.presented != [] {
        config := config.(token := save.presented);
      } else if config.token == [] {
        var token := GenerateToken(save.entropy);
        config := config.(token := token);
      }
      var encoded := Encode(config);
      if encoded.None? {
        return Err(InvalidValue);
      }
      var committed := space.Commit(encoded.value, outcome);
      r := if committed.Ok? then Ok(()) else Err(Persistence);
    }

    /** Commits, then reads the token straight back. */
    method RotateToken(token: Text, readable: bool, outcome: Commit, readBack: bool)
      returns (r: Result<(), RotateError>)
      modifies space
      ensures (r, space.stored) == Rotated(old(space.stored), token, readable, outcome, readBack)
    {
      if !(8 <= |token| <= 64) {
        return Err(InvalidLength);
      }
      var loaded := Load(readable);
      if loaded.Err? {
        return Err(WriteFailed);
      }
      var encoded := Encode(loaded.value.(token := token));
      if encoded.None? {
        return Err(WriteFailed);
      }
      var committed := space.Commit(encoded.value, outcome);
      if committed.Err? {
        return Err(WriteFailed);
      }
      var back := Load(readBack);
      var stored := if back.Ok? then back.value.token else [];
      r := if stored == token then Ok(()) else Err(WriteFailed);
    }
  }

  // --- What one call does ----------------------------------------------------------------

  lemma LoadedAfterCommit(c: AgentConfig, generation: nat)
    requires Encoded(c).Some?
    ensures Loaded(Some(Snapshot(generation, Encoded(c).value)), true) == Ok(c)
  {
    DecodeOfRecord(c);
  }

  /** What a read makes of the store. */
  lemma LoadsExactly(stored: Option<Snapshot>, readable: bool)
    ensures Loaded(stored, readable) ==
            if !readable then Err(Persistence)
            else if stored == None then Ok(AgentConfig([], [], []))
            else if Decoded(stored.value.data).Some? then Ok(Decoded(stored.value.data).value)
            else Err(InvalidValue)
  {
    hide Decoded;
  }

  /** Without a token nothing is authorized; with one, exactly that. */
  lemma AuthorizedExactly(stored: Option<Snapshot>, readable: bool, presented: Text)
    ensures IsAuthorized(stored, readable, presented) <==>
            Loaded(stored, readable).Ok? && Loaded(stored, readable).value.token != []
            && presented == Loaded(stored, readable).value.token
  {
    hide Loaded;
  }

  /** A save in full: when it succeeds, and what is stored then. */
  lemma SaveExactly(stored: Option<Snapshot>, save: Save, readable: bool, outcome: Commit)
    ensures var (r, after) := Saved(stored, save, readable, outcome);
            var before := Loaded(stored, readable);
            var kept := if save.presented != [] then save.presented
                        else if before.Ok? && before.value.token != [] then before.value.token
                        else FreshToken(save.entropy);
            (r.Ok? <==> before.Ok? && outcome.Lands? && |save.nodeId| <= 64 && |save.ctrlUrl| <= 192
                        && |kept| <= 64)
            && (r.Err? ==> after == stored)
            && (r.Ok? ==> Loaded(after, true)
                          == Ok(AgentConfig(save.nodeId, save.ctrlUrl, kept)))
  {
    hide Decoded, Record;
    var before := Loaded(stored, readable);
    if before.Ok? {
      var c := AgentConfig(save.nodeId, save.ctrlUrl, KeptToken(before.value.token, save));
      EncodeFailsExactly(c);
      if Encoded(c).Some? && outcome.Lands? {
        LoadedAfterCommit(c, outcome.generation);
      }
    }
  }

  /** A rotation in full. It reports success exactly when the new token is stored and was read
      back; a failure report means nothing was stored or the read-back was lost. */
  lemma RotateExactly(stored: Option<Snapshot>, token: Text, readable: bool, outcome: Commit, readBack: bool)
    ensures var (r, after) := Rotated(stored, token, readable, outcome, readBack);
            var before := Loaded(stored, readable);
            var lands := 8 <= |token| <= 64 && before.Ok? && outcome.Lands?;
            (r.Ok? <==> lands && readBack)
            && (!lands ==> after == stored)
            && (lands ==> Loaded(after, true) == Ok(before.value.(token := token)))
            && (r == Err(InvalidLength) <==> !(8 <= |token| <= 64))
  {
    hide Decoded, Record;
    var before := Loaded(stored, readable);
    if before.Ok? {
      var c := before.value.(token := token);
      EncodeFailsExactly(c);
      if stored.Some? {
        RecordOfDecoded(stored.value.data);
      }
      if Encoded(c).Some? && outcome.Lands? {
        LoadedAfterCommit(c, outcome.generation);
      }
    }
  }

  /** After a rotation that reported success, exactly the new token is accepted. */
  lemma RotationAuthorizesTheNewToken(stored: Option<Snapshot>, token: Text, readable: bool,
                                      outcome: Commit, readBack: bool, presented: Text)
    ensures var (r, after) := Rotated(stored, token, readable, outcome, readBack);
            r.Ok? ==> (IsAuthorized(after, true, presented) <==> presented == token)
  {
    RotateExactly(stored, token, readable, outcome, readBack);
    hide Loaded, Rotated;
  }

  // --- Runs ------------------------------------------------------------------------------

  datatype Call =
    | SaveCall(save: Save, readable: bool, outcome: Commit)
    | RotateCall(token: Text, readable: bool, outcome: Commit, readBack: bool)

  function Next(stored: Option<Snapshot>, call: Call): Option<Snapshot> {
    match call
    case SaveCall(save, readable, outcome) => Saved(stored, save, readable, outcome).1
    case RotateCall(token, readable, outcome, readBack) => Rotated(stored, token, readable, outcome, readBack).1
  }

  function Run(stored: Option<Snapshot>, calls: seq<Call>): Option<Snapshot>
    decreases |calls|
  {
    if calls == [] then stored else Run(Next(stored, calls[0]), calls[1..])
  }

  lemma StepKeepsCredentials(stored: Option<Snapshot>, call: Call)
    ensures var after := Next(stored, call);
            (TokenOf(stored, true) != [] ==> TokenOf(after, true) != [])
            && (Loaded(stored, true).Err? ==> after == stored)
            && (Loaded(stored, true).Ok? ==> Loaded(after, true).Ok?)
            && (call.RotateCall? && Loaded(stored, true).Ok? ==>
                  Loaded(after, true).value.nodeId == Loaded(stored, true).value.nodeId
                  && Loaded(after, true).value.ctrlUrl == Loaded(stored, true).value.ctrlUrl)
            && (call.SaveCall? && call.save.presented == [] && TokenOf(stored, true) != [] ==>
                  TokenOf(after, true) == TokenOf(stored, true))
  {
    match call
    case SaveCall(save, readable, outcome) => SaveExactly(stored, save, readable, outcome);
    case RotateCall(token, readable, outcome, readBack) => RotateExactly(stored, token, readable, outcome, readBack);
  }

  /** Over every run of saves and rotations, with reads and commits failing at will: once there
      is a token there is one for good, and a record that does not decode is never overwritten. */
  lemma {:induction false} RunKeepsCredentials(stored: Option<Snapshot>, calls: seq<Call>)
    ensures TokenOf(stored, true) != [] ==> TokenOf(Run(stored, calls), true) != []
    ensures Loaded(stored, true).Err? ==> Run(stored, calls) == stored
    ensures Loaded(stored, true).Ok? ==> Loaded(Run(stored, calls), true).Ok?
    decreases |calls|
  {
    if calls != [] {
      StepKeepsCredentials(stored, calls[0]);
      RunKeepsCredentials(Next(stored, calls[0]), calls[1..]);
    }
  }

  /** Rotations never touch the identity, and saves without a presented token never touch an
      existing token - however many there are. */
  lemma {:induction false} RunKeepsTheOtherHalf(stored: Option<Snapshot>, calls: seq<Call>)
    requires Loaded(stored, true).Ok?
    ensures var before, after := Loaded(stored, true).value, Loaded(Run(stored, calls), true);
            after.Ok?
            && ((forall i :: 0 <= i < |calls| ==> calls[i].RotateCall?) ==>
                  after.value.nodeId == before.nodeId && after.value.ctrlUrl == before.ctrlUrl)
            && (before.token != []
                && (forall i :: 0 <= i < |calls| ==> calls[i].SaveCall? && calls[i].save.presented == [])
                ==> after.value.token == before.token)
    decreases |calls|
  {
    if calls != [] {
      StepKeepsCredentials(stored, calls[0]);
      RunKeepsTheOtherHalf(Next(stored, calls[0]), calls[1..]);
    }
  }
}
