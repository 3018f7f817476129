/** What survives a power cut, and the bootloader's choice at power-on.

    The bootloader, the OTA metadata and the lifecycle record live in IOBEWI and are not part
    of this model; the contract assumed of them is in this module and nowhere else:
    every write is atomic, a slot keeps what was written to it, and the bootloader leaves a
    candidate image for the confirmed one only while the candidate is unconfirmed. */
module DurableState {
  import opened Bytes
  import opened Wrappers
  import opened ConfigSpace

  datatype Lifecycle = Factory | Provisioning | ReadyForAgent | Production

  function Rank(l: Lifecycle): nat {
    match l
    case Factory => 0
    case Provisioning => 1
    case ReadyForAgent => 2
    case Production => 3
  }

  datatype Slot = A | B

  function Other(s: Slot): Slot {
    if s.A? then B else A
  }

  datatype Kind = InitImage | AgentImage | Unbootable

  /** A slot's content: which program it is and what hashing it yields. */
  datatype Content = Content(kind: Kind, digest: seq<Byte>)

  datatype Phase = Written | Activating

  /** The OTA metadata's staged transaction. */
  datatype Staged = Staged(slot: Slot, digest: seq<Byte>, deployment: seq<Byte>, phase: Phase)

  /** The slot of the last confirmed image and, if one is armed, the image to try next. */
  datatype Candidate = Candidate(slot: Slot, tried: bool)
  datatype Boot = Boot(confirmed: Slot, candidate: Option<Candidate>)

  datatype Flash = Flash(
    lifecycle: Lifecycle,
    agent: Option<Snapshot>,
    hardware: Option<seq<Byte>>,
    wifi: bool,
    tls: bool,
    staged: Option<Staged>,
    slotA: Content,
    slotB: Content,
    boot: Boot)

  function ContentOf(f: Flash, s: Slot): Content {
    if s.A? then f.slotA else f.slotB
  }

  function WithContent(f: Flash, s: Slot, c: Content): Flash {
    if s.A? then f.(slotA := c) else f.(slotB := c)
  }

  /** The preloaded first agent, as the init image was built to expect it; the digest text may
      fail to parse. */
  datatype Preloaded = Preloaded(digest: Option<seq<Byte>>, deployment: seq<Byte>)

  // --- The hardware record (src/hardware.rs) ---------------------------------------------

  const HW_MAGIC: seq<Byte> := [0x48, 0x57, 0x43, 0x31]
  const NO_LED: Byte := 0xFF

  predicate HardwareValid(raw: Option<seq<Byte>>) {
    raw.Some? && |raw.value| == 5 && raw.value[..4] == HW_MAGIC
  }

  function HardwareRecord(gpio: Option<Byte>): (raw: seq<Byte>)
    ensures HardwareValid(Some(raw))
  {
    HW_MAGIC + [if gpio.Some? then gpio.value else NO_LED]
  }

  // --- The bootloader --------------------------------------------------------------------

  /** The slot that runs and the boot record afterwards. An untried candidate gets one boot,
      unless its image is refused; a tried one that was never confirmed is given up. */
  function PowerOn(b: Boot, refused: bool): (Slot, Boot) {
    if b.candidate.None? then (b.confirmed, b)
    else if b.candidate.value.tried || refused then (b.confirmed, b.(candidate := None))
    else (b.candidate.value.slot, b.(candidate := Some(b.candidate.value.(tried := true))))
  }

  /** The running image is unconfirmed. */
  predicate Pending(f: Flash, running: Slot) {
    f.boot.candidate == Some(Candidate(running, true))
  }

  function Confirm(f: Flash, running: Slot): Flash {
    f.(boot := Boot(running, None))
  }

  function GiveUp(f: Flash): Flash {
    f.(boot := f.boot.(candidate := None))
  }

  /** The durable state a list of writes ends in. */
  function Last(f: Flash, writes: seq<Flash>): Flash {
    if writes == [] then f else writes[|writes| - 1]
  }

  /** ... and the one a power cut after n of them leaves. */
  function Cut(f: Flash, writes: seq<Flash>, n: nat): Flash {
    if n >= |writes| then Last(f, writes) else Last(f, writes[..n])
  }
}
