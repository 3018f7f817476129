/** The agent image's boot gate: `main` of src/bin/main.rs from `on_boot` to the start of the
    services, with `on_boot`, `confirm_pending` and `reject_pending` of src/ota.rs. */
module AgentBoot {
  import opened Bytes
  import opened Utf8
  import opened Wrappers
  import opened ConfigSpace
  import opened DurableState
  import opened AgentStore

  /** The agent's state cell (State in src/agent.rs). */
  datatype State = Booting | PendingVerify | Running | Degraded | Rollback | Failed

  /** What a heartbeat reports (src/heartbeat.rs:259). */
  predicate OtaValidated(s: State) {
    s != PendingVerify
  }

  datatype CheckAction = ConfirmIt | RejectIt | ResetNow

  /** Everything the boot asks its platform: the assumed OTA service (does an unconfirmed image
      match its staged record, does bookkeeping get through, how does the self-check end), which
      records can be read and are valid, whether the active Workload can run, and which durable
      writes get through. */
  datatype BootEnv = BootEnv(
    accounted: bool,
    promotes: bool,
    lifecycleReadable: bool,
    wifiReadable: bool,
    tlsReadable: bool,
    hardwareReadable: bool,
    agentReadable: bool,
    runnable: bool,
    check: CheckAction,
    confirms: bool,
    records: bool,
    rejects: bool,
    produces: bool)

  /** How the boot ends: by a reset, by a panic, or with the services started. */
  datatype End = Reset | Panic | Started

  datatype Disposition = Stable | PendingImage

  datatype Outcome = Outcome(end: End, state: State, writes: seq<Flash>)

  // --- The steps as functions ------------------------------------------------------------

  predicate Prerequisites(f: Flash, e: BootEnv) {
    && f.wifi && e.wifiReadable
    && f.tls && e.tlsReadable
    && HardwareValid(f.hardware) && e.hardwareReadable
    && IsProvisioned(f.agent, e.agentReadable)
  }

  /** A confirmed image whose staged record still says it is being activated. */
  predicate Unpromoted(f: Flash, running: Slot) {
    f.staged.Some? && f.staged.value.phase.Activating? && f.staged.value.slot == running
  }

  function Promoted(f: Flash): Flash {
    f.(staged := None)
  }

  function Rejection(f: Flash, e: BootEnv): seq<Flash> {
    if e.rejects then [GiveUp(f)] else []
  }

  /** confirm_pending: the self-check decides, then the bootloader entry is confirmed before the
      staged record is promoted. */
  function Confirmation(f: Flash, running: Slot, e: BootEnv): Outcome {
    match e.check
    case ResetNow => Outcome(Reset, PendingVerify, [])
    case RejectIt => Outcome(Reset, PendingVerify, Rejection(f, e))
    case ConfirmIt =>
      if !e.confirms then Outcome(Reset, PendingVerify, [])
      else
        var f1 := Confirm(f, running);
        if e.records then Outcome(Started, Running, [f1, Promoted(f1)])
        else Outcome(Started, Degraded, [f1])
  }

  /** The lifecycle match, given that the boot got this far in state s. */
  function Admission(f: Flash, running: Slot, e: BootEnv, s: State): Outcome {
    match f.lifecycle
    case ReadyForAgent =>
      var c := if Pending(f, running) then Confirmation(f, running, e) else Outcome(Started, s, []);
      if !c.end.Started? then c
      else if !e.produces then Outcome(Panic, c.state, c.writes)
      else Outcome(Started, c.state, c.writes + [Last(f, c.writes).(lifecycle := Production)])
    case Production =>
      if Pending(f, running) then Confirmation(f, running, e) else Outcome(Started, s, [])
    case _ =>
      if Pending(f, running) then Outcome(Reset, Failed, Rejection(f, e)) else Outcome(Panic, Failed, [])
  }

  /** Prerequisites and the dual-OTA guard, then the lifecycle match. */
  function Gate(f: Flash, running: Slot, e: BootEnv, s: State): Outcome {
    if !e.lifecycleReadable then Outcome(Panic, s, [])
    else if !Prerequisites(f, e) then
      if Pending(f, running) then Outcome(Reset, Failed, Rejection(f, e)) else Outcome(Panic, Failed, [])
    else if Pending(f, running) && !e.runnable then Outcome(Reset, Failed, Rejection(f, e))
    else Admission(f, running, e, s)
  }

  /** The whole boot. */
  function BootRun(f: Flash, running: Slot, e: BootEnv): Outcome {
    if Pending(f, running) then
      if e.accounted then Gate(f, running, e, PendingVerify) else Outcome(Reset, Rollback, [])
    else if !Unpromoted(f, running) then Gate(f, running, e, Running)
    else if !e.promotes then Gate(f, running, e, Degraded)
    else
      var f1 := Promoted(f);
      var g := Gate(f1, running, e, Running);
      g.(writes := [f1] + g.writes)
  }

  // --- The same as the code does it ------------------------------------------------------

  class AgentDevice {
    const running: Slot
    var flash: Flash
    var state: State
    ghost var history: seq<Flash>

    constructor (flash: Flash, running: Slot)
      ensures this.flash == flash && this.running == running && state == Booting && history == []
    {
      this.flash := flash;
      this.running := running;
      state := Booting;
      history := [];
    }

    method Write(next: Flash)
      modifies this
      ensures flash == next && history == old(history) + [next] && state == old(state)
    {
      flash := next;
      history := history + [next];
    }

    /** on_boot; None is the reset for a rollback. */
    method OnBoot(e: BootEnv) returns (disposition: Option<Disposition>)
      requires history == []
      modifies this
      ensures disposition.None? <==> Pending(old(flash), running) && !e.accounted
      ensures disposition == Some(PendingImage) <==> Pending(old(flash), running) && e.accounted
      ensures state == (if disposition.None? then Rollback
                        else if disposition.value.PendingImage? then PendingVerify
                        else if Unpromoted(old(flash), running) && !e.promotes then Degraded
                        else Running)
      ensures var promotion := disposition == Some(Stable) && Unpromoted(old(flash), running) && e.promotes;
              flash == (if promotion then Promoted(old(flash)) else old(flash))
              && history == (if promotion then [flash] else [])
    {
      if flash.boot.candidate == Some(Candidate(running, true)) {
        if e.accounted {
          state := PendingVerify;
          return Some(PendingImage);
        }
        state := Rollback;
        return None;
      }
      if Unpromoted(flash, running) {
        if !e.promotes {
          state := Degraded;
          return Some(Stable);
        }
        Write(Promoted(flash));
      }
      state := Running;
      disposition := Some(Stable);
    }

    method RejectPending(e: BootEnv) returns (end: End)
      modifies this
      ensures end == Reset && state == old(state)
      ensures history == old(history) + Rejection(old(flash), e)
      ensures flash == Last(old(flash), Rejection(old(flash), e))
    {
      if e.rejects {
        Write(GiveUp(flash));
      }
      end := Reset;
    }

    method ConfirmPending(e: BootEnv) returns (end: End)
      requires state == PendingVerify
      modifies this
      ensures var c := Confirmation(old(flash), running, e);
              end == c.end && state == c.state && history == old(history) + c.writes
              && flash == Last(old(flash), c.writes)
    {
      match e.check {
        case ConfirmIt =>
          if !e.confirms {
            return Reset;
          }
          Write(Confirm(flash, running));
          if e.records {
            Write(Promoted(flash));
            state := Running;
          } else {
            state := Degraded;
          }
          end := Started;
        case RejectIt =>
          end := RejectPending(e);
        case ResetNow =>
          end := Reset;
      }
    }

    /** The lifecycle match of `main`. */
    method Admit(e: BootEnv, boot: Disposition) returns (end: End)
      requires boot.PendingImage? <==> Pending(flash, running)
      requires boot.PendingImage? ==> state == PendingVerify
      modifies this
      ensures var a := Admission(old(flash), running, e, old(state));
              end == a.end && state == a.state && history == old(history) + a.writes
              && flash == Last(old(flash), a.writes)
    {
      match flash.lifecycle {
        case ReadyForAgent =>
          if boot.PendingImage? {
            end := ConfirmPending(e);
            if !end.Started? {
              return;
            }
          }
          if !e.produces {
            return Panic;
          }
          Write(flash.(lifecycle := Production));
          end := Started;
        case Production =>
          end := Started;
          if boot.PendingImage? {
            end := ConfirmPending(e);
          }
        case Factory | Provisioning =>
          state := Failed;
          end := Panic;
          if boot.PendingImage? {
            end := RejectPending(e);
          }
      }
    }

    /** `main`, from on_boot to the services. */
    method BootUp(e: BootEnv) returns (end: End)
      requires history == []
      modifies this
      ensures Outcome(end, state, history) == BootRun(old(flash), running, e)
      ensures flash == Last(old(flash), history)
    {
      var boot := OnBoot(e);
      if boot.None? {
        return Reset;
      }
      if !e.lifecycleReadable {
        return Panic;
      }
      var ok := Prerequisites(flash, e);
      if !ok {
        state := Failed;
        if boot.value.PendingImage? {
          end := RejectPending(e);
          return;
        }
        return Panic;
      }
      if boot.value.PendingImage? && !e.runnable {
        state := Failed;
        end := RejectPending(e);
        return;
      }
      end := Admit(e, boot.value);
    }
  }

  // --- What the gate guarantees ----------------------------------------------------------

  predicate Provisioned(l: Lifecycle) {
    l.ReadyForAgent? || l.Production?
  }

  /** An unconfirmed image is confirmed by its boot exactly when: it matches its staged record,
      the lifecycle can be read and is ReadyForAgent or Production, all four prerequisites hold,
      the active Workload can run on it, the self-check says so and the confirmation lands. */
  lemma ConfirmedExactly(f: Flash, running: Slot, e: BootEnv)
    requires Pending(f, running) && f.boot.confirmed != running
    ensures Last(f, BootRun(f, running, e).writes).boot.confirmed == running <==>
            e.accounted && e.lifecycleReadable && Provisioned(f.lifecycle) && Prerequisites(f, e)
            && e.runnable && e.check.ConfirmIt? && e.confirms
  {
  }

  /** The bootloader only ever runs an armed candidate or the confirmed image. */
  predicate FromBootloader(f: Flash, running: Slot) {
    Pending(f, running) || (f.boot.confirmed == running && f.boot.candidate.None?)
  }

  /** The services start exactly when the lifecycle is ReadyForAgent (and Production can be
      written) or Production, the prerequisites hold, and an unconfirmed image passed every
      condition above; and then ... */
  lemma StartedExactly(f: Flash, running: Slot, e: BootEnv)
    requires FromBootloader(f, running)
    ensures BootRun(f, running, e).end.Started? <==>
            e.lifecycleReadable && Provisioned(f.lifecycle) && Prerequisites(f, e)
            && (f.lifecycle.ReadyForAgent? ==> e.produces)
            && (Pending(f, running) ==> e.accounted && e.runnable && e.check.ConfirmIt? && e.confirms)
  {
  }

  /** The four prerequisites, read off the durable records. */
  lemma PrerequisitesExactly(f: Flash, e: BootEnv)
    ensures Prerequisites(f, e) <==>
            && f.wifi && e.wifiReadable && f.tls && e.tlsReadable
            && e.hardwareReadable && f.hardware.Some?
            && |f.hardware.value| == 5 && f.hardware.value[..4] == [0x48, 0x57, 0x43, 0x31]
            && Loaded(f.agent, e.agentReadable).Ok? && Loaded(f.agent, e.agentReadable).value.token != []
  {
    hide Loaded;
  }

  predicate Unconfirmed(f: Flash, running: Slot) {
    f.boot.candidate.Some? && f.boot.candidate.value.slot == running && f.boot.candidate.value.tried
  }

  predicate LeftActivating(f: Flash, running: Slot) {
    f.staged.Some? && f.staged.value.slot == running && f.staged.value.phase != Written
  }

  /** The gate is reached and refuses the device: a prerequisite is missing, or the lifecycle says
      it was never provisioned. */
  predicate Refused(f: Flash, e: BootEnv) {
    e.lifecycleReadable && (!Prerequisites(f, e) || f.lifecycle in {Factory, Provisioning})
  }

  /** An unconfirmed image gets as far as its self-check. */
  predicate Examined(f: Flash, running: Slot, e: BootEnv) {
    && Unconfirmed(f, running) && e.accounted && e.lifecycleReadable
    && Prerequisites(f, e) && e.runnable && f.lifecycle in {ReadyForAgent, Production}
  }

  predicate Passes(e: BootEnv) {
    e.check == ConfirmIt && e.confirms
  }

  /** Which boots end in a reset, and which in a panic; all others start the services. */
  lemma EndsExactly(f: Flash, running: Slot, e: BootEnv)
    ensures BootRun(f, running, e).end == Reset <==>
            Unconfirmed(f, running)
            && (!e.accounted || Refused(f, e)
                || (e.lifecycleReadable && !e.runnable)
                || (Examined(f, running, e) && !Passes(e)))
    ensures BootRun(f, running, e).end == Panic <==>
            if Unconfirmed(f, running) then
              e.accounted
              && (!e.lifecycleReadable
                  || (Examined(f, running, e) && Passes(e) && f.lifecycle == ReadyForAgent && !e.produces))
            else !e.lifecycleReadable || Refused(f, e) || (f.lifecycle == ReadyForAgent && !e.produces)
  {
    PrerequisitesIgnoreStaged(f, e);
    hide Loaded, Prerequisites;
  }

  lemma PrerequisitesIgnoreStaged(f: Flash, e: BootEnv)
    ensures Prerequisites(Promoted(f), e) == Prerequisites(f, e)
  {
  }

  /** The state the agent is left in: Rollback for an image nobody accounts for, Failed when it is
      refused, PendingVerify when a self-check did not get it confirmed, Degraded when only the
      bookkeeping failed. */
  lemma StateExactly(f: Flash, running: Slot, e: BootEnv)
    ensures var state := BootRun(f, running, e).state;
            var pending := Unconfirmed(f, running);
            var failed := if pending then e.accounted && (Refused(f, e) || (e.lifecycleReadable && !e.runnable))
                          else Refused(f, e);
            && (state == Rollback <==> pending && !e.accounted)
            && (state == Failed <==> failed)
            && (state == PendingVerify <==>
                  pending && e.accounted && (!e.lifecycleReadable || (Examined(f, running, e) && !Passes(e))))
            && (state == Degraded <==>
                  if pending then Examined(f, running, e) && Passes(e) && !e.records
                  else LeftActivating(f, running) && !e.promotes && !failed)
            && state != Booting
  {
    PrerequisitesIgnoreStaged(f, e);
    hide Loaded, Prerequisites;
  }

  /** What the boot leaves behind: the image confirmed, given up, or neither; the staged record
      promoted only when its write got through; Production only where the services start; and
      everything else as it was. */
  lemma LeavesExactly(f: Flash, running: Slot, e: BootEnv)
    ensures var o := BootRun(f, running, e);
            var end := Last(f, o.writes);
            var confirmed := Examined(f, running, e) && Passes(e);
            var givenUp := Unconfirmed(f, running) && e.accounted && e.rejects
                           && (Refused(f, e) || (e.lifecycleReadable && !e.runnable)
                               || (Examined(f, running, e) && e.check == RejectIt));
            var promoted := if Unconfirmed(f, running) then confirmed && e.records
                            else LeftActivating(f, running) && e.promotes;
            end == f.(boot := if confirmed then Boot(running, None)
                              else if givenUp then Boot(f.boot.confirmed, None)
                              else f.boot,
                      staged := if promoted then None else f.staged,
                      lifecycle := if o.end == Started then Production else f.lifecycle)
  {
    PrerequisitesIgnoreStaged(f, e);
    hide Loaded, Prerequisites;
  }

  /** And in which order: an unconfirmed image is confirmed before its staged record is promoted,
      and both before the lifecycle moves. */
  lemma WritesInOrder(f: Flash, running: Slot, e: BootEnv, i: nat)
    requires Unconfirmed(f, running) && i < |BootRun(f, running, e).writes|
    ensures var w := BootRun(f, running, e).writes;
            && |w| <= 3
            && (w[i].staged != f.staged ==> w[i].boot == Boot(running, None))
            && (w[i].lifecycle != f.lifecycle ==> i == |w| - 1 && w[i].boot == Boot(running, None)
                                                  && (e.records ==> w[i].staged == None))
  {
    hide Loaded, Prerequisites;
  }

  lemma AdmissionValidated(f: Flash, running: Slot, e: BootEnv, s: State)
    requires FromBootloader(f, running) && (s.Running? || s.Degraded? || Pending(f, running))
    ensures var o := Admission(f, running, e, s);
            o.end.Started? ==>
              Last(f, o.writes).boot == Boot(running, None) && Last(f, o.writes).lifecycle.Production?
              && (o.state.Running? || o.state.Degraded?)
  {
  }

  /** ... the image is confirmed and nothing is pending, Production is durable, and the state is
      Running or Degraded - so every heartbeat sent from here on says `ota_validated`. */
  lemma ServicesRunValidated(f: Flash, running: Slot, e: BootEnv)
    requires FromBootloader(f, running) && BootRun(f, running, e).end.Started?
    ensures var o := BootRun(f, running, e);
            Last(f, o.writes).boot == Boot(running, None)
            && Last(f, o.writes).lifecycle.Production?
            && (o.state.Running? || o.state.Degraded?)
            && OtaValidated(o.state) && !OtaValidated(PendingVerify)
  {
    if Pending(f, running) {
      AdmissionValidated(f, running, e, PendingVerify);
    }
    AdmissionValidated(f, running, e, Degraded);
    AdmissionValidated(f, running, e, Running);
    var f1 := Promoted(f);
    AdmissionValidated(f1, running, e, Running);
    if !Pending(f, running) && Unpromoted(f, running) && e.promotes {
      var g := Gate(f1, running, e, Running);
      assert Last(f, [f1] + g.writes) == Last(f1, g.writes);
    }
  }

  lemma AdmissionProduces(f: Flash, running: Slot, e: BootEnv, s: State, w: Flash)
    requires FromBootloader(f, running) && !f.lifecycle.Production?
    requires w in Admission(f, running, e, s).writes && w.lifecycle.Production?
    ensures w.boot == Boot(running, None) && f.lifecycle.ReadyForAgent?
  {
  }

  /** Production is never written over an image that is not confirmed by then: along the writes
      of any boot, from any lifecycle before it. */
  lemma ProductionAfterConfirmation(f: Flash, running: Slot, e: BootEnv, w: Flash)
    requires FromBootloader(f, running) && !f.lifecycle.Production?
    requires w in BootRun(f, running, e).writes && w.lifecycle.Production?
    ensures w.boot == Boot(running, None) && f.lifecycle.ReadyForAgent?
  {
    var s := if Pending(f, running) then PendingVerify else if e.promotes || !Unpromoted(f, running) then Running else Degraded;
    if w in Admission(f, running, e, s).writes {
      AdmissionProduces(f, running, e, s, w);
    }
    if w in Admission(Promoted(f), running, e, s).writes {
      AdmissionProduces(Promoted(f), running, e, s, w);
    }
  }

  /** An environment in which every call gets through. */
  predicate AllGood(e: BootEnv) {
    e.accounted && e.promotes && e.lifecycleReadable && e.wifiReadable && e.tlsReadable && e.hardwareReadable
    && e.agentReadable && e.runnable && e.check.ConfirmIt? && e.confirms && e.records && e.produces
  }

  /** Power lost between the confirmation and the `production` write: the next boot is a
      confirmed one and ends in the same durable state and agent state as the boot that was cut
      would have. */
  lemma CutAfterConfirmationConverges(f: Flash, running: Slot, e: BootEnv, again: BootEnv, n: nat, refused: bool)
    requires Pending(f, running) && f.lifecycle.ReadyForAgent? && Prerequisites(f, e)
    requires f.staged.Some? && f.staged.value.slot == running && f.staged.value.phase.Activating?
    requires AllGood(e) && AllGood(again) && n > 0
    ensures var whole := BootRun(f, running, e);
            var g := DurableState.Cut(f, whole.writes, n);
            var (slot, boot) := PowerOn(g.boot, refused);
            var next := BootRun(g.(boot := boot), slot, again);
            slot == running && next.end.Started? && next.state == whole.state
            && Last(g.(boot := boot), next.writes) == Last(f, whole.writes)
  {
  }
}
