/** The device over time: power-ons, the init image, form submissions, agent boots, token
    rotations and updates, with power lost after any durable write.

    Safety of the first installation is an invariant of every such run. */
module DeviceRuns {
  import opened Bytes
  import opened Utf8
  import opened Wrappers
  import opened ConfigSpace
  import opened AgentStore
  import opened DurableState
  import opened Provisioning
  import opened AgentBoot

  datatype Ram =
    | Off
    | InitUp(running: Slot, online: bool)
    | AgentUp(running: Slot, state: State)

  /** `initInProduction` is raised if embewi-init ever starts on a device in Production. */
  datatype Device = Device(flash: Flash, ram: Ram, initInProduction: bool)

  /** A cut larger than the number of writes is no cut. */
  datatype Event =
    | PowerUp(refused: bool, init: InitEnv, agent: BootEnv, cut: nat)
    | JoinedWifi
    | Submit(form: Form, env: FormEnv, cut: nat)
    | Rotate(token: Text, readable: bool, outcome: Commit, readBack: bool)
    | Upload(content: Content, deployment: seq<Byte>, cut: nat)
    | Activate(deployment: seq<Byte>, cut: nat)
    | PowerLoss

  /** An accepted upload: the staged record goes first, then the inactive slot is overwritten,
      and only a digest-checked image is published. */
  function UploadWrites(f: Flash, running: Slot, content: Content, deployment: seq<Byte>): seq<Flash> {
    var f1 := f.(staged := None);
    var f2 := WithContent(f1, Other(running), Content(Unbootable, []));
    var f3 := WithContent(f2, Other(running), content);
    [f1, f2, f3, f3.(staged := Some(Staged(Other(running), content.digest, deployment, Written)))]
  }

  function ActivateWrites(f: Flash, deployment: seq<Byte>): seq<Flash> {
    if f.staged.None? || !f.staged.value.phase.Written? || f.staged.value.deployment != deployment then []
    else
      var f1 := f.(staged := Some(f.staged.value.(phase := Activating)));
      [f1, f1.(boot := f1.boot.(candidate := Some(Candidate(f1.staged.value.slot, false))))]
  }

  function PowerUpInit(d: Device, f: Flash, running: Slot, e: InitEnv, cut: nat): Device {
    var (end, w) := StartUp(f, e);
    Device(Cut(f, w, cut),
           if cut < |w| || end.Panicked? then Off else InitUp(running, false),
           d.initInProduction || f.lifecycle.Production?)
  }

  function PowerUpAgent(d: Device, f: Flash, running: Slot, e: BootEnv, cut: nat): Device {
    var o := BootRun(f, running, e);
    Device(Cut(f, o.writes, cut),
           if cut < |o.writes| || !o.end.Started? then Off else AgentUp(running, o.state),
           d.initInProduction)
  }

  function Next(d: Device, ev: Event, pins: set<Byte>, factory: Preloaded): Device {
    match ev
    case PowerUp(refused, init, agent, cut) =>
      var (slot, boot) := PowerOn(d.flash.boot, refused);
      var f := d.flash.(boot := boot);
      match ContentOf(f, slot).kind {
        case InitImage => PowerUpInit(d, f, slot, init, cut)
        case AgentImage => PowerUpAgent(d, f, slot, agent, cut)
        case Unbootable => Device(f, Off, d.initInProduction)
      }
    case JoinedWifi =>
      if !d.ram.InitUp? then d else d.(flash := d.flash.(wifi := true), ram := d.ram.(online := true))
    case Submit(form, env, cut) =>
      if !d.ram.InitUp? || !d.ram.online then d
      else
        var w := Submission(d.flash, form, env, Site(d.ram.running, pins, factory)).1;
        d.(flash := Cut(d.flash, w, cut), ram := if cut < |w| then Off else d.ram)
    case Rotate(token, readable, outcome, readBack) =>
      if !d.ram.AgentUp? then d
      else d.(flash := d.flash.(agent := Rotated(d.flash.agent, token, readable, outcome, readBack).1))
    case Upload(content, deployment, cut) =>
      if !d.ram.AgentUp? then d
      else
        var w := UploadWrites(d.flash, d.ram.running, content, deployment);
        d.(flash := Cut(d.flash, w, cut), ram := if cut < |w| then Off else d.ram)
    case Activate(deployment, cut) =>
      if !d.ram.AgentUp? then d
      else
        var w := ActivateWrites(d.flash, deployment);
        d.(flash := Cut(d.flash, w, cut), ram := if cut < |w| then Off else d.ram)
    case PowerLoss => d.(ram := Off)
  }

  function Run(d: Device, events: seq<Event>, pins: set<Byte>, factory: Preloaded): Device
    decreases |events|
  {
    if events == [] then d else Run(Next(d, events[0], pins, factory), events[1..], pins, factory)
  }

  /** A device as it leaves the flashing station: init confirmed in slot A, whatever bytes in
      slot B - only, if they hash to the expected digest they are the agent. */
  predicate FactoryFresh(d: Device, factory: Preloaded) {
    && d.flash.lifecycle.Factory?
    && d.flash.staged.None?
    && d.flash.boot == Boot(A, None)
    && d.flash.slotA.kind.InitImage?
    && DigestMeansAgent(d.flash.slotB, factory)
    && d.ram.Off? && !d.initInProduction
  }

  predicate DigestMeansAgent(c: Content, factory: Preloaded) {
    factory.digest.Some? && c.digest == factory.digest.value ==> c.kind.AgentImage?
  }

  // --- The invariant ---------------------------------------------------------------------

  /** From ReadyForAgent on, the prerequisites the agent will check are all durable. */
  predicate Ready(f: Flash) {
    TokenOf(f.agent, true) != [] && HardwareValid(f.hardware) && f.wifi && f.tls
  }

  /** A staged record names an image that hashes to its digest. */
  predicate StagedChecked(f: Flash) {
    f.staged.Some? ==> ContentOf(f, f.staged.value.slot).digest == f.staged.value.digest
  }

  predicate BeforeProduction(f: Flash, factory: Preloaded) {
    && f.slotA.kind.InitImage?
    && DigestMeansAgent(f.slotB, factory)
    && (f.staged.Some? ==> f.staged.value.slot.B? && factory.digest == Some(f.staged.value.digest))
    && (f.boot.candidate.Some? ==> f.boot.candidate.value.slot.B?)
    && (f.lifecycle.ReadyForAgent? ==> factory.digest == Some(f.slotB.digest))
    && (!f.lifecycle.ReadyForAgent? ==> f.boot == Boot(A, None))
  }

  /** Nothing that could still be started is the init image. */
  predicate InitGone(f: Flash) {
    && ContentOf(f, f.boot.confirmed).kind.AgentImage?
    && (f.boot.candidate.Some? ==> !ContentOf(f, f.boot.candidate.value.slot).kind.InitImage?)
    && (f.staged.Some? ==> !ContentOf(f, f.staged.value.slot).kind.InitImage?)
  }

  /** Sound flash of a device that is only sent updates of the given kinds. */
  predicate Sound(f: Flash, factory: Preloaded, kinds: set<Kind>) {
    && (Rank(f.lifecycle) >= 2 ==> Ready(f))
    && StagedChecked(f)
    && (if !f.lifecycle.Production? then BeforeProduction(f, factory) else InitImage !in kinds ==> InitGone(f))
  }

  /** Nothing armed has been tried: true of every device that is up. */
  predicate Untried(f: Flash) {
    f.boot.candidate.Some? ==> !f.boot.candidate.value.tried
  }

  predicate Inv(d: Device, factory: Preloaded, kinds: set<Kind>) {
    && Sound(d.flash, factory, kinds)
    && (InitImage !in kinds ==> !d.initInProduction)
    && (d.ram.InitUp? ==> Editable(d.flash.lifecycle) && d.flash.tls && d.flash.boot.confirmed == d.ram.running == A
                          && (d.ram.online ==> d.flash.wifi))
    && (d.ram.AgentUp? ==> d.flash.lifecycle.Production? && d.flash.boot.confirmed == d.ram.running
                           && (d.ram.state.Running? || d.ram.state.Degraded?))
    && (!d.ram.Off? ==> Untried(d.flash))
  }

  predicate Forward(f: Flash, g: Flash) {
    Rank(f.lifecycle) <= Rank(g.lifecycle)
  }

  /** One durable write that keeps the flash sound and the lifecycle moving forward. */
  predicate Keeps(f: Flash, g: Flash, factory: Preloaded, kinds: set<Kind>) {
    Sound(g, factory, kinds) && Forward(f, g)
  }

  // --- Every program keeps it, write by write ----------------------------------------------

  lemma PowerOnSound(f: Flash, refused: bool, factory: Preloaded, kinds: set<Kind>)
    requires Sound(f, factory, kinds)
    ensures var (slot, boot) := PowerOn(f.boot, refused);
            var g := f.(boot := boot);
            Keeps(f, g, factory, kinds) && FromBootloader(g, slot)
            && (ContentOf(g, slot).kind.InitImage? ==>
                  if g.lifecycle.Production? then InitImage in kinds
                  else slot == g.boot.confirmed == A && g.boot.candidate.None?)
  {
  }

  lemma StartUpSound(f: Flash, e: InitEnv, factory: Preloaded, kinds: set<Kind>)
    requires Sound(f, factory, kinds) && f.boot == Boot(A, None) && !f.lifecycle.Production?
    ensures var (end, w) := StartUp(f, e);
            (forall x :: x in w ==> Keeps(f, x, factory, kinds))
            && (end.Serving? ==> Editable(Last(f, w).lifecycle) && Last(f, w).tls && Last(f, w).boot == f.boot)
  {
  }

  lemma SettingsSound(f: Flash, form: Form, e: FormEnv, factory: Preloaded, kinds: set<Kind>)
    requires Sound(f, factory, kinds) && Editable(f.lifecycle)
    ensures var (ok, w) := Settings(f, form, e);
            (forall x :: x in w ==> Keeps(f, x, factory, kinds) && x == f.(hardware := x.hardware, agent := x.agent))
            && (ok ==> |w| == 2 && TokenOf(Last(f, w).agent, true) != [] && HardwareValid(Last(f, w).hardware))
  {
    hide Loaded, Saved, FreshToken, HardwareRecord;
    if e.hardwareCommits {
      var save := Save(form.nodeId, form.ctrlUrl, [], e.entropy);
      SaveExactly(f.agent, save, e.agentReadable, e.agentCommit);
      StepKeepsCredentials(f.agent, SaveCall(save, e.agentReadable, e.agentCommit));
    }
  }

  lemma LaunchSound(f: Flash, e: FormEnv, pins: set<Byte>, factory: Preloaded, kinds: set<Kind>)
    requires Sound(f, factory, kinds) && Editable(f.lifecycle) && Ready(f) && f.boot.confirmed.A? && Untried(f)
    ensures forall x :: x in Launch(f, e, Site(A, pins, factory)).1 ==>
              Keeps(f, x, factory, kinds) && Untried(x) && x.boot.confirmed.A? && x.tls && x.wifi && Editable(x.lifecycle)
  {
    hide Loaded, TokenOf;
  }

  lemma SubmissionSound(f: Flash, form: Form, e: FormEnv, pins: set<Byte>, factory: Preloaded, kinds: set<Kind>)
    requires Sound(f, factory, kinds) && f.tls && f.wifi && f.boot.confirmed.A? && Untried(f)
    ensures var w := Submission(f, form, e, Site(A, pins, factory)).1;
            forall x :: x in w ==>
              Keeps(f, x, factory, kinds) && Untried(x) && x.boot.confirmed.A? && x.tls && x.wifi && Editable(x.lifecycle)
  {
    hide Loaded, TokenOf, Settings, Launch;
    if Editable(f.lifecycle) {
      SettingsSound(f, form, e, factory, kinds);
      var (ok, w) := Settings(f, form, e);
      if ok {
        var mid := Last(f, w);
        assert mid in w;
        LaunchSound(mid, e, pins, factory, kinds);
      }
    }
  }

  lemma ConfirmationSound(f: Flash, running: Slot, e: BootEnv, factory: Preloaded, kinds: set<Kind>)
    requires Sound(f, factory, kinds) && Pending(f, running) && ContentOf(f, running).kind.AgentImage?
    ensures var c := Confirmation(f, running, e);
            (forall x :: x in c.writes ==> Keeps(f, x, factory, kinds))
            && (c.end.Started? ==> Sound(Last(f, c.writes), factory, kinds)
                                   && Last(f, c.writes).boot == Boot(running, None)
                                   && Last(f, c.writes).lifecycle == f.lifecycle
                                   && ContentOf(Last(f, c.writes), running) == ContentOf(f, running))
  {
    hide Loaded, TokenOf;
  }

  lemma ProductionSound(f: Flash, running: Slot, factory: Preloaded, kinds: set<Kind>)
    requires Sound(f, factory, kinds) && f.lifecycle.ReadyForAgent? && f.boot == Boot(running, None)
    requires ContentOf(f, running).kind.AgentImage?
    ensures Keeps(f, f.(lifecycle := Production), factory, kinds)
  {
  }

  lemma AdmissionSound(f: Flash, running: Slot, e: BootEnv, s: State, factory: Preloaded, kinds: set<Kind>)
    requires Sound(f, factory, kinds) && FromBootloader(f, running) && ContentOf(f, running).kind.AgentImage?
    ensures forall x :: x in Admission(f, running, e, s).writes ==> Keeps(f, x, factory, kinds)
  {
    if Pending(f, running) {
      ConfirmationSound(f, running, e, factory, kinds);
    }
    var c := if Pending(f, running) then Confirmation(f, running, e) else Outcome(Started, s, []);
    if f.lifecycle.ReadyForAgent? && c.end.Started? {
      ProductionSound(Last(f, c.writes), running, factory, kinds);
    }
  }

  lemma BootRunSound(f: Flash, running: Slot, e: BootEnv, factory: Preloaded, kinds: set<Kind>)
    requires Sound(f, factory, kinds) && FromBootloader(f, running) && ContentOf(f, running).kind.AgentImage?
    ensures forall x :: x in BootRun(f, running, e).writes ==> Keeps(f, x, factory, kinds)
  {
    hide Admission, Loaded, TokenOf;
    var f1 := Promoted(f);
    AdmissionSound(f, running, e, PendingVerify, factory, kinds);
    AdmissionSound(f, running, e, Running, factory, kinds);
    AdmissionSound(f, running, e, Degraded, factory, kinds);
    AdmissionSound(f1, running, e, Running, factory, kinds);
  }

  lemma UploadSound(f: Flash, running: Slot, content: Content, deployment: seq<Byte>, factory: Preloaded, kinds: set<Kind>)
    requires Sound(f, factory, kinds) && f.lifecycle.Production? && f.boot.confirmed == running
    requires content.kind in kinds
    ensures forall x :: x in UploadWrites(f, running, content, deployment) ==>
              Keeps(f, x, factory, kinds) && x.lifecycle.Production? && x.boot == f.boot
  {
    hide Loaded, TokenOf;
  }

  lemma ActivateSound(f: Flash, deployment: seq<Byte>, factory: Preloaded, kinds: set<Kind>)
    requires Sound(f, factory, kinds) && f.lifecycle.Production? && Untried(f)
    ensures forall x :: x in ActivateWrites(f, deployment) ==>
              Keeps(f, x, factory, kinds) && x.lifecycle.Production? && x.boot.confirmed == f.boot.confirmed && Untried(x)
  {
  }

  lemma CutIsOneOf(f: Flash, w: seq<Flash>, n: nat)
    ensures DurableState.Cut(f, w, n) == f || DurableState.Cut(f, w, n) in w
    ensures n >= |w| ==> DurableState.Cut(f, w, n) == Last(f, w)
    ensures Last(f, w) == f || Last(f, w) in w
  {
  }

  // --- Runs ------------------------------------------------------------------------------

  predicate Among(ev: Event, kinds: set<Kind>) {
    ev.Upload? ==> ev.content.kind in kinds
  }

  /** Every update uploaded in the run is of one of these kinds. */
  predicate UploadsAmong(events: seq<Event>, kinds: set<Kind>) {
    forall i :: 0 <= i < |events| ==> Among(events[i], kinds)
  }

  /** No restriction at all. */
  const ANY: set<Kind> := {InitImage, AgentImage, Unbootable}

  lemma InitPanicsInProduction(f: Flash, e: InitEnv)
    requires f.lifecycle.Production?
    ensures StartUp(f, e) == (Panicked, [])
  {
  }

  lemma PowerUpKeeps(d: Device, ev: Event, pins: set<Byte>, factory: Preloaded, kinds: set<Kind>)
    requires Inv(d, factory, kinds) && ev.PowerUp?
    ensures Inv(Next(d, ev, pins, factory), factory, kinds)
    ensures Forward(d.flash, Next(d, ev, pins, factory).flash)
  {
    hide Loaded, TokenOf, BootRun, StartUp;
    PowerOnSound(d.flash, ev.refused, factory, kinds);
    var (slot, boot) := PowerOn(d.flash.boot, ev.refused);
    var f := d.flash.(boot := boot);
    match ContentOf(f, slot).kind
    case InitImage =>
      if f.lifecycle.Production? {
        InitPanicsInProduction(f, ev.init);
      } else {
        StartUpSound(f, ev.init, factory, kinds);
        CutIsOneOf(f, StartUp(f, ev.init).1, ev.cut);
      }
    case AgentImage =>
      BootRunSound(f, slot, ev.agent, factory, kinds);
      var o := BootRun(f, slot, ev.agent);
      CutIsOneOf(f, o.writes, ev.cut);
      if o.end.Started? {
        ServicesRunValidated(f, slot, ev.agent);
      }
    case Unbootable =>
  }

  lemma StepKeeps(d: Device, ev: Event, pins: set<Byte>, factory: Preloaded, kinds: set<Kind>)
    requires Inv(d, factory, kinds) && Among(ev, kinds)
    ensures Inv(Next(d, ev, pins, factory), factory, kinds)
    ensures Forward(d.flash, Next(d, ev, pins, factory).flash)
  {
    hide Loaded, TokenOf, Submission, Rotated, Saved;
    match ev
    case PowerUp(_, _, _, _) => PowerUpKeeps(d, ev, pins, factory, kinds);
    case JoinedWifi =>
    case Submit(form, env, cut) =>
      if d.ram.InitUp? && d.ram.online {
        SubmissionSound(d.flash, form, env, pins, factory, kinds);
        CutIsOneOf(d.flash, Submission(d.flash, form, env, Site(A, pins, factory)).1, cut);
      }
    case Rotate(token, readable, outcome, readBack) =>
      StepKeepsCredentials(d.flash.agent, RotateCall(token, readable, outcome, readBack));
    case Upload(content, deployment, cut) =>
      if d.ram.AgentUp? {
        UploadSound(d.flash, d.ram.running, content, deployment, factory, kinds);
        CutIsOneOf(d.flash, UploadWrites(d.flash, d.ram.running, content, deployment), cut);
      }
    case Activate(deployment, cut) =>
      if d.ram.AgentUp? {
        ActivateSound(d.flash, deployment, factory, kinds);
        CutIsOneOf(d.flash, ActivateWrites(d.flash, deployment), cut);
      }
    case PowerLoss =>
  }

  lemma {:induction false} RunKeeps(d: Device, events: seq<Event>, pins: set<Byte>, factory: Preloaded, kinds: set<Kind>)
    requires Inv(d, factory, kinds) && UploadsAmong(events, kinds)
    ensures Inv(Run(d, events, pins, factory), factory, kinds)
    ensures Forward(d.flash, Run(d, events, pins, factory).flash)
    decreases |events|
  {
    if events != [] {
      StepKeeps(d, events[0], pins, factory, kinds);
      RunKeeps(Next(d, events[0], pins, factory), events[1..], pins, factory, kinds);
    }
  }

  lemma FreshIsSound(d: Device, factory: Preloaded, kinds: set<Kind>)
    requires FactoryFresh(d, factory)
    ensures Inv(d, factory, kinds)
  {
  }

  lemma EverythingIsAny(events: seq<Event>)
    ensures UploadsAmong(events, ANY)
  {
    forall i | 0 <= i < |events| ensures Among(events[i], ANY) {
      if events[i].Upload? {
        AnyKind(events[i].content.kind);
      }
    }
  }

  lemma AnyKind(k: Kind)
    ensures k in ANY
  {
    match k
    case InitImage =>
    case AgentImage =>
    case Unbootable =>
  }

  /** Safety of the first installation, and of everything after it, at every instant of every
      run: from ReadyForAgent on there is a token, a valid hardware record, Wi-Fi credentials and
      a TLS identity; what is staged was digest-checked, and the first agent against the digest
      the init image was built with; services run only on a confirmed image of a device in
      Production. */
  lemma InstallationIsSafe(d: Device, events: seq<Event>, pins: set<Byte>, factory: Preloaded)
    requires FactoryFresh(d, factory)
    ensures var now := Run(d, events, pins, factory);
            && (now.flash.lifecycle.ReadyForAgent? || now.flash.lifecycle.Production? ==>
                  TokenOf(now.flash.agent, true) != [] && HardwareValid(now.flash.hardware)
                  && now.flash.wifi && now.flash.tls)
            && (now.flash.lifecycle.ReadyForAgent? ==> factory.digest == Some(now.flash.slotB.digest))
            && (now.flash.staged.Some? ==>
                  ContentOf(now.flash, now.flash.staged.value.slot).digest == now.flash.staged.value.digest)
            && (now.flash.staged.Some? && !now.flash.lifecycle.Production? ==>
                  factory.digest == Some(now.flash.staged.value.digest))
            && (now.ram.AgentUp? ==>
                  now.flash.lifecycle.Production? && now.flash.boot.confirmed == now.ram.running
                  && !Pending(now.flash, now.ram.running) && OtaValidated(now.ram.state))
  {
    hide TokenOf;
    EverythingIsAny(events);
    FreshIsSound(d, factory, ANY);
    RunKeeps(d, events, pins, factory, ANY);
  }

  lemma {:induction false} RunSplits(d: Device, a: seq<Event>, b: seq<Event>, pins: set<Byte>, factory: Preloaded)
    ensures Run(d, a + b, pins, factory) == Run(Run(d, a, pins, factory), b, pins, factory)
    decreases |a|
  {
    if a == [] {
      assert a + b == b;
    } else {
      assert (a + b)[1..] == a[1..] + b;
      RunSplits(Next(d, a[0], pins, factory), a[1..], b, pins, factory);
    }
  }

  // --- The lifecycle only moves forward ----------------------------------------------------

  lemma ConfirmationForward(f: Flash, running: Slot, e: BootEnv)
    ensures forall x :: x in Confirmation(f, running, e).writes ==> x.lifecycle == f.lifecycle
    ensures Last(f, Confirmation(f, running, e).writes).lifecycle == f.lifecycle
  {
  }

  lemma AdmissionForward(f: Flash, running: Slot, e: BootEnv, s: State)
    ensures forall x :: x in Admission(f, running, e, s).writes ==> Forward(f, x)
  {
    hide Confirmation;
    ConfirmationForward(f, running, e);
  }

  lemma BootRunForward(f: Flash, running: Slot, e: BootEnv)
    ensures forall x :: x in BootRun(f, running, e).writes ==> Forward(f, x)
  {
    hide Prerequisites, Admission;
    AdmissionForward(f, running, e, PendingVerify);
    AdmissionForward(f, running, e, Running);
    AdmissionForward(f, running, e, Degraded);
    AdmissionForward(Promoted(f), running, e, Running);
  }

  lemma SubmissionForward(f: Flash, form: Form, e: FormEnv, site: Site)
    ensures forall x :: x in Submission(f, form, e, site).1 ==> Forward(f, x)
  {
    SubmissionOnTheWay(f, form, e, site);
    if Editable(f.lifecycle) {
      hide Submission, Loaded, TokenOf;
    }
  }

  lemma StepForward(d: Device, ev: Event, pins: set<Byte>, factory: Preloaded)
    ensures Forward(d.flash, Next(d, ev, pins, factory).flash)
  {
    hide BootRun, Submission, Rotated;
    match ev
    case PowerUp(refused, init, agent, cut) =>
      var (slot, boot) := PowerOn(d.flash.boot, refused);
      var f := d.flash.(boot := boot);
      BootRunForward(f, slot, agent);
      CutIsOneOf(f, BootRun(f, slot, agent).writes, cut);
      CutIsOneOf(f, StartUp(f, init).1, cut);
    case Submit(form, env, cut) =>
      if d.ram.InitUp? {
        var site := Site(d.ram.running, pins, factory);
        SubmissionForward(d.flash, form, env, site);
        CutIsOneOf(d.flash, Submission(d.flash, form, env, site).1, cut);
      }
    case Upload(content, deployment, cut) =>
      if d.ram.AgentUp? {
        CutIsOneOf(d.flash, UploadWrites(d.flash, d.ram.running, content, deployment), cut);
      }
    case Activate(deployment, cut) =>
      CutIsOneOf(d.flash, ActivateWrites(d.flash, deployment), cut);
    case _ =>
  }

  lemma {:induction false} RunForward(d: Device, events: seq<Event>, pins: set<Byte>, factory: Preloaded)
    ensures Forward(d.flash, Run(d, events, pins, factory).flash)
    decreases |events|
  {
    hide Next;
    if events != [] {
      StepForward(d, events[0], pins, factory);
      RunForward(Next(d, events[0], pins, factory), events[1..], pins, factory);
    }
  }

  /** The lifecycle never moves back between any two instants of any run of any device. */
  lemma LifecycleIsMonotone(d: Device, events: seq<Event>, i: nat, j: nat, pins: set<Byte>, factory: Preloaded)
    requires i <= j <= |events|
    ensures Forward(Run(d, events[..i], pins, factory).flash, Run(d, events[..j], pins, factory).flash)
  {
    hide Next;
    assert events[..j] == events[..i] + events[i..j];
    RunSplits(d, events[..i], events[i..j], pins, factory);
    RunForward(Run(d, events[..i], pins, factory), events[i..j], pins, factory);
  }

  /** From ReadyForAgent on, only an unreadable store can make the agent's prerequisites fail. */
  lemma PrerequisitesAreDurable(f: Flash, e: BootEnv, factory: Preloaded, kinds: set<Kind>)
    requires Sound(f, factory, kinds) && Provisioned(f.lifecycle)
    ensures Prerequisites(f, e) <==> e.wifiReadable && e.tlsReadable && e.hardwareReadable && e.agentReadable
  {
  }

  // --- Recovery --------------------------------------------------------------------------

  lemma ConfirmationFrame(f: Flash, running: Slot, e: BootEnv)
    ensures var w := Confirmation(f, running, e).writes;
            |w| <= 2 && (forall x :: x in w ==> x.agent == f.agent && x.slotB == f.slotB)
            && Last(f, w).agent == f.agent && Last(f, w).slotB == f.slotB
  {
  }

  lemma AdmissionFrame(f: Flash, running: Slot, e: BootEnv, s: State)
    ensures forall x :: x in Admission(f, running, e, s).writes ==> x.agent == f.agent && x.slotB == f.slotB
    ensures |Admission(f, running, e, s).writes| <= 3
  {
    ConfirmationFrame(f, running, e);
    var c := if Pending(f, running) then Confirmation(f, running, e) else Outcome(Started, s, []);
    var produced := c.writes + [Last(f, c.writes).(lifecycle := Production)];
    forall x | x in Admission(f, running, e, s).writes ensures x.agent == f.agent && x.slotB == f.slotB {
      assert x in produced || x in c.writes || x in Rejection(f, e);
    }
  }

  lemma BootRunFrame(f: Flash, running: Slot, e: BootEnv)
    ensures forall x :: x in BootRun(f, running, e).writes ==> x.agent == f.agent && x.slotB == f.slotB
    ensures |BootRun(f, running, e).writes| <= 4
  {
    hide Admission;
    AdmissionFrame(f, running, e, PendingVerify);
    AdmissionFrame(f, running, e, Running);
    AdmissionFrame(f, running, e, Degraded);
    AdmissionFrame(Promoted(f), running, e, Running);
  }

  lemma SubmissionFrame(f: Flash, form: Form, e: FormEnv, site: Site)
    ensures var w := Submission(f, form, e, site).1;
            |w| <= 6 && forall x :: x in w ==>
              x.slotB == f.slotB && (Loaded(f.agent, true).Ok? ==> Loaded(x.agent, true).Ok?)
  {
    SubmissionOnTheWay(f, form, e, site);
  }

  lemma PowerUpLeavesFactoryAgent(d: Device, ev: Event, pins: set<Byte>, factory: Preloaded)
    requires ev.PowerUp?
    ensures var next := Next(d, ev, pins, factory);
            next.flash.slotB == d.flash.slotB && next.flash.agent == d.flash.agent
  {
    hide BootRun;
    var (slot, boot) := PowerOn(d.flash.boot, ev.refused);
    var f := d.flash.(boot := boot);
    BootRunFrame(f, slot, ev.agent);
    CutIsOneOf(f, BootRun(f, slot, ev.agent).writes, ev.cut);
    CutIsOneOf(f, StartUp(f, ev.init).1, ev.cut);
  }

  /** Until Production slot B keeps what the factory put there, and the identity record never
      stops decoding. */
  lemma StepLeavesFactoryAgent(d: Device, ev: Event, pins: set<Byte>, factory: Preloaded, kinds: set<Kind>)
    requires Inv(d, factory, kinds) && Among(ev, kinds)
    ensures var next := Next(d, ev, pins, factory);
            (!next.flash.lifecycle.Production? ==> next.flash.slotB == d.flash.slotB)
            && (Loaded(d.flash.agent, true).Ok? ==> Loaded(next.flash.agent, true).Ok?)
  {
    hide Loaded, Submission, BootRun, Rotated;
    StepKeeps(d, ev, pins, factory, kinds);
    match ev
    case PowerUp(_, _, _, _) =>
      hide Next;
      PowerUpLeavesFactoryAgent(d, ev, pins, factory);
    case Submit(form, env, cut) =>
      if d.ram.InitUp? {
        var site := Site(d.ram.running, pins, factory);
        SubmissionFrame(d.flash, form, env, site);
        CutIsOneOf(d.flash, Submission(d.flash, form, env, site).1, cut);
      }
    case Rotate(token, readable, outcome, readBack) =>
      StepKeepsCredentials(d.flash.agent, RotateCall(token, readable, outcome, readBack));
    case Upload(content, deployment, cut) =>
      if d.ram.AgentUp? {
        CutIsOneOf(d.flash, UploadWrites(d.flash, d.ram.running, content, deployment), cut);
      }
    case Activate(deployment, cut) =>
      if d.ram.AgentUp? {
        CutIsOneOf(d.flash, ActivateWrites(d.flash, deployment), cut);
      }
    case _ =>
  }

  lemma {:induction false} RunLeavesFactoryAgent(d: Device, events: seq<Event>, pins: set<Byte>, factory: Preloaded, kinds: set<Kind>)
    requires Inv(d, factory, kinds) && UploadsAmong(events, kinds)
    ensures var now := Run(d, events, pins, factory);
            (!now.flash.lifecycle.Production? ==> now.flash.slotB == d.flash.slotB)
            && (Loaded(d.flash.agent, true).Ok? ==> Loaded(now.flash.agent, true).Ok?)
    decreases |events|
  {
    if events != [] {
      StepKeeps(d, events[0], pins, factory, kinds);
      StepLeavesFactoryAgent(d, events[0], pins, factory, kinds);
      var next := Next(d, events[0], pins, factory);
      RunKeeps(next, events[1..], pins, factory, kinds);
      RunLeavesFactoryAgent(next, events[1..], pins, factory, kinds);
    }
  }

  predicate Works(e: InitEnv) {
    e.lifecycleReadable && e.begins && e.tlsReady
  }

  predicate Arrived(d: Device) {
    d.ram == AgentUp(B, AgentBoot.Running) && d.flash.lifecycle.Production? && TokenOf(d.flash.agent, true) != []
  }

  /** With the first agent armed or already confirmed, one good boot reaches Production. */
  lemma ArmedBootArrives(d: Device, init: InitEnv, agent: BootEnv, pins: set<Byte>, factory: Preloaded, kinds: set<Kind>)
    requires Inv(d, factory, kinds) && d.flash.lifecycle.ReadyForAgent? && AgentBoot.AllGood(agent)
    requires d.flash.boot.confirmed.B? || d.flash.boot.candidate == Some(Candidate(B, false))
    ensures Arrived(Next(d, PowerUp(false, init, agent, 9), pins, factory))
  {
    PowerOnSound(d.flash, false, factory, kinds);
    var (slot, boot) := PowerOn(d.flash.boot, false);
    var f := d.flash.(boot := boot);
    assert slot == B && f.slotB.kind.AgentImage?;
    PrerequisitesAreDurable(f, agent, factory, kinds);
    StartedExactly(f, slot, agent);
    ServicesRunValidated(f, slot, agent);
    BootRunFrame(f, slot, agent);
    CutIsOneOf(f, BootRun(f, slot, agent).writes, 9);
  }

  /** Back in the init image, one good submission arms the first agent. */
  lemma InitPathArms(d: Device, form: Form, init: InitEnv, env: FormEnv, agent: BootEnv,
                     pins: set<Byte>, factory: Preloaded, kinds: set<Kind>)
    requires Inv(d, factory, kinds) && !d.flash.lifecycle.Production?
    requires d.flash.boot.confirmed.A? && d.flash.boot.candidate != Some(Candidate(B, false))
    requires factory.digest == Some(d.flash.slotB.digest) && Loaded(d.flash.agent, true).Ok?
    requires PinAllowed(form, pins) && |form.nodeId| <= 64 && |form.ctrlUrl| <= 192
    requires Works(init) && Provisioning.AllGood(env)
    ensures var d1 := Next(d, PowerUp(false, init, agent, 9), pins, factory);
            var d2 := Next(d1, JoinedWifi, pins, factory);
            var d3 := Next(d2, Submit(form, env, 9), pins, factory);
            Inv(d3, factory, kinds) && d3.flash.lifecycle.ReadyForAgent?
            && d3.flash.boot == Boot(A, Some(Candidate(B, false)))
  {
    hide Loaded, TokenOf, Submission, StartUp, BootRun;
    var d1 := Next(d, PowerUp(false, init, agent, 9), pins, factory);
    StepKeeps(d, PowerUp(false, init, agent, 9), pins, factory, kinds);
    StepLeavesFactoryAgent(d, PowerUp(false, init, agent, 9), pins, factory, kinds);
    InitComesUp(d, init, agent, pins, factory, kinds);
    var d2 := Next(d1, JoinedWifi, pins, factory);
    StepKeeps(d1, JoinedWifi, pins, factory, kinds);
    StepKeeps(d2, Submit(form, env, 9), pins, factory, kinds);
    var site := Site(A, pins, factory);
    GoodSubmission(d2.flash, form, env, site);
    SubmissionFrame(d2.flash, form, env, site);
    CutIsOneOf(d2.flash, Submission(d2.flash, form, env, site).1, 9);
  }

  lemma InitComesUp(d: Device, init: InitEnv, agent: BootEnv, pins: set<Byte>, factory: Preloaded, kinds: set<Kind>)
    requires Inv(d, factory, kinds) && !d.flash.lifecycle.Production? && Works(init)
    requires d.flash.boot.confirmed.A? && d.flash.boot.candidate != Some(Candidate(B, false))
    ensures var d1 := Next(d, PowerUp(false, init, agent, 9), pins, factory);
            d1.ram == InitUp(A, false) && d1.flash.boot == Boot(A, None) && Editable(d1.flash.lifecycle)
  {
    var f := d.flash.(boot := PowerOn(d.flash.boot, false).1);
    PowerOnSound(d.flash, false, factory, kinds);
    StartUpSound(f, init, factory, kinds);
    CutIsOneOf(f, StartUp(f, init).1, 9);
  }

  /** The events that finish an installation from where it stands. */
  function Remaining(d: Device, form: Form, init: InitEnv, env: FormEnv, agent: BootEnv): (rest: seq<Event>)
    ensures |rest| <= 4
  {
    var power := PowerUp(false, init, agent, 9);
    if d.flash.boot.confirmed.B? || d.flash.boot.candidate == Some(Candidate(B, false)) then [power]
    else [power, JoinedWifi, Submit(form, env, 9), power]
  }

  lemma RemainingArrives(d: Device, form: Form, init: InitEnv, env: FormEnv, agent: BootEnv,
                         pins: set<Byte>, factory: Preloaded, kinds: set<Kind>)
    requires Inv(d, factory, kinds) && !d.flash.lifecycle.Production?
    requires factory.digest == Some(d.flash.slotB.digest) && Loaded(d.flash.agent, true).Ok?
    requires PinAllowed(form, pins) && |form.nodeId| <= 64 && |form.ctrlUrl| <= 192
    requires Works(init) && Provisioning.AllGood(env) && AgentBoot.AllGood(agent)
    ensures Arrived(Run(d, Remaining(d, form, init, env, agent), pins, factory))
  {
    var power := PowerUp(false, init, agent, 9);
    var rest := Remaining(d, form, init, env, agent);
    if d.flash.boot.confirmed.B? || d.flash.boot.candidate == Some(Candidate(B, false)) {
      ArmedBootArrives(d, init, agent, pins, factory, kinds);
      assert rest[1..] == [];
      assert Run(d, rest, pins, factory) == Next(d, power, pins, factory);
    } else {
      InitPathArms(d, form, init, env, agent, pins, factory, kinds);
      var d3 := Next(Next(Next(d, power, pins, factory), JoinedWifi, pins, factory), Submit(form, env, 9), pins, factory);
      ArmedBootArrives(d3, init, agent, pins, factory, kinds);
      RunFour(d, rest, pins, factory);
    }
  }

  /** No power cut strands the installation. Wherever a run from the factory has got to short of
      Production - whatever failed and whenever power was lost - at most four good events
      (boot, Wi-Fi, the form, boot) finish it. */
  lemma InstallationRecovers(d: Device, events: seq<Event>, form: Form, init: InitEnv, env: FormEnv, agent: BootEnv,
                             pins: set<Byte>, factory: Preloaded)
    requires FactoryFresh(d, factory)
    requires factory.digest == Some(d.flash.slotB.digest) && Loaded(d.flash.agent, true).Ok?
    requires PinAllowed(form, pins) && |form.nodeId| <= 64 && |form.ctrlUrl| <= 192
    requires Works(init) && Provisioning.AllGood(env) && AgentBoot.AllGood(agent)
    ensures var now := Run(d, events, pins, factory);
            !now.flash.lifecycle.Production? ==>
              Arrived(Run(d, events + Remaining(now, form, init, env, agent), pins, factory))
  {
    var now := Run(d, events, pins, factory);
    EverythingIsAny(events);
    FreshIsSound(d, factory, ANY);
    RunKeeps(d, events, pins, factory, ANY);
    RunLeavesFactoryAgent(d, events, pins, factory, ANY);
    if !now.flash.lifecycle.Production? {
      RemainingArrives(now, form, init, env, agent, pins, factory, ANY);
      RunSplits(d, events, Remaining(now, form, init, env, agent), pins, factory);
    }
  }

  lemma RunFour(d: Device, ev: seq<Event>, pins: set<Byte>, factory: Preloaded)
    requires |ev| == 4
    ensures Run(d, ev, pins, factory) ==
      Next(Next(Next(Next(d, ev[0], pins, factory), ev[1], pins, factory), ev[2], pins, factory), ev[3], pins, factory)
  {
    assert ev[1..][1..] == ev[2..] && ev[2..][1..] == ev[3..] && ev[3..][1..] == [];
    var d1 := Next(d, ev[0], pins, factory);
    var d2 := Next(d1, ev[1], pins, factory);
    var d3 := Next(d2, ev[2], pins, factory);
    assert Run(d3, ev[3..], pins, factory) == Next(d3, ev[3], pins, factory);
    assert Run(d2, ev[2..], pins, factory) == Run(d3, ev[3..], pins, factory);
    assert Run(d1, ev[1..], pins, factory) == Run(d2, ev[2..], pins, factory);
  }

  // --- Init in Production ------------------------------------------------------------------

  lemma RunThree(d: Device, a: Event, b: Event, c: Event, pins: set<Byte>, factory: Preloaded)
    ensures Run(d, [a, b, c], pins, factory)
            == Next(Next(Next(d, a, pins, factory), b, pins, factory), c, pins, factory)
  {
    hide Next;
    var d1 := Next(d, a, pins, factory);
    var d2 := Next(d1, b, pins, factory);
    assert [a, b, c][1..] == [b, c] && [b, c][1..] == [c] && [c][1..] == [];
    assert Run(d2, [c], pins, factory) == Next(d2, c, pins, factory);
    assert Run(d1, [b, c], pins, factory) == Run(d2, [c], pins, factory);
  }

  /** An init image that is uploaded and activated on a device in Production starts there ... */
  lemma InitUploadReachesTheArm(d: Device, content: Content, deployment: seq<Byte>, init: InitEnv, agent: BootEnv,
                                pins: set<Byte>, factory: Preloaded)
    requires d.ram.AgentUp? && d.flash.lifecycle.Production? && content.kind.InitImage?
    ensures Run(d, [Upload(content, deployment, 4), Activate(deployment, 2), PowerUp(false, init, agent, 9)],
                pins, factory).initInProduction
  {
    RunThree(d, Upload(content, deployment, 4), Activate(deployment, 2), PowerUp(false, init, agent, 9), pins, factory);
    var d1 := Next(d, Upload(content, deployment, 4), pins, factory);
    var d2 := Next(d1, Activate(deployment, 2), pins, factory);
    assert d1.flash == UploadWrites(d.flash, d.ram.running, content, deployment)[3];
    assert d2.flash == ActivateWrites(d1.flash, deployment)[1];
    assert ContentOf(d2.flash, Other(d.ram.running)) == content;
  }

  /** ... and so does one whose upload was never finished, if it overwrote a slot that had been
      armed before: it need not have been published, nor activated. */
  lemma OverwrittenSlotReachesTheArm(d: Device, content: Content, deployment: seq<Byte>, init: InitEnv, agent: BootEnv,
                                     pins: set<Byte>, factory: Preloaded)
    requires d.ram.AgentUp? && d.flash.lifecycle.Production? && content.kind.InitImage?
    requires d.flash.boot.candidate == Some(Candidate(Other(d.ram.running), false))
    ensures var end := Run(d, [Upload(content, deployment, 3), PowerLoss, PowerUp(false, init, agent, 9)], pins, factory);
            end.initInProduction && end.flash.staged.None?
  {
    RunThree(d, Upload(content, deployment, 3), PowerLoss, PowerUp(false, init, agent, 9), pins, factory);
    var d1 := Next(d, Upload(content, deployment, 3), pins, factory);
    assert d1.flash == UploadWrites(d.flash, d.ram.running, content, deployment)[2];
    assert ContentOf(d1.flash, Other(d.ram.running)) == content;
    InitPanicsInProduction(d1.flash.(boot := PowerOn(d1.flash.boot, false).1), init);
  }

  /** A fresh device on which the first agent can be installed at all: the image is the expected
      one and the identity record, if there is any, can be read. */
  predicate Installable(d: Device, factory: Preloaded) {
    factory.digest == Some(d.flash.slotB.digest) && Loaded(d.flash.agent, true).Ok?
  }

  const GOOD_FORM := Form(LED_DISABLED, [], [])
  const GOOD_INIT := InitEnv(true, true, true)
  const GOOD_BOOT := BootEnv(true, true, true, true, true, true, true, true, ConfirmIt, true, true, true, true)

  function GoodSubmit(): FormEnv {
    FormEnv(true, true, true, Lands(1), seq(16, _ => 0), true, true, true, true, true, true)
  }

  /** Some run whose updates are all of these kinds brings the device to its services and then,
      if the init image is among the kinds, to init in Production. */
  lemma InitCanComeBack(d: Device, kinds: set<Kind>, pins: set<Byte>, factory: Preloaded) returns (events: seq<Event>)
    requires FactoryFresh(d, factory) && Installable(d, factory) && InitImage in kinds
    ensures UploadsAmong(events, kinds) && Run(d, events, pins, factory).initInProduction
  {
    hide Next, Loaded;
    var install := Remaining(d, GOOD_FORM, GOOD_INIT, GoodSubmit(), GOOD_BOOT);
    FreshIsSound(d, factory, ANY);
    RemainingArrives(d, GOOD_FORM, GOOD_INIT, GoodSubmit(), GOOD_BOOT, pins, factory, ANY);
    var content := Content(InitImage, []);
    var update := [Upload(content, [], 4), Activate([], 2), PowerUp(false, GOOD_INIT, GOOD_BOOT, 9)];
    InitUploadReachesTheArm(Run(d, install, pins, factory), content, [], GOOD_INIT, GOOD_BOOT, pins, factory);
    RunSplits(d, install, update, pins, factory);
    events := install + update;
    assert forall i :: 0 <= i < |install| ==> !install[i].Upload?;
  }

  lemma BootToProduction(f: Flash, running: Slot, e: BootEnv, cut: nat)
    requires FromBootloader(f, running) && !f.lifecycle.Production?
    requires DurableState.Cut(f, BootRun(f, running, e).writes, cut).lifecycle.Production?
    ensures f.lifecycle.ReadyForAgent?
  {
    var w := BootRun(f, running, e).writes;
    CutIsOneOf(f, w, cut);
    ProductionAfterConfirmation(f, running, e, DurableState.Cut(f, w, cut));
  }

  lemma SettingsLeaveCorrupt(f: Flash, form: Form, e: FormEnv)
    requires Loaded(f.agent, true).Err?
    ensures var (ok, w) := Settings(f, form, e);
            !ok && forall x :: x in w ==> x.agent == f.agent
  {
    SaveExactly(f.agent, Save(form.nodeId, form.ctrlUrl, [], e.entropy), e.agentReadable, e.agentCommit);
    hide Saved;
  }

  lemma SubmissionStaysShort(f: Flash, form: Form, e: FormEnv, site: Site)
    requires !f.lifecycle.Production?
    ensures forall x :: x in Submission(f, form, e, site).1 ==> !x.lifecycle.Production?
    ensures Loaded(f.agent, true).Err? ==> forall x :: x in Submission(f, form, e, site).1 ==> x.agent == f.agent
  {
    SubmissionOnTheWay(f, form, e, site);
    hide Settings, Launch, Loaded, TokenOf;
    if Loaded(f.agent, true).Err? {
      SettingsLeaveCorrupt(f, form, e);
    }
  }

  /** Production is only ever entered from ReadyForAgent, and until then the record of an identity
      that cannot be read is left alone. */
  lemma StepToProduction(d: Device, ev: Event, pins: set<Byte>, factory: Preloaded, kinds: set<Kind>)
    requires Inv(d, factory, kinds) && !d.flash.lifecycle.Production?
    ensures var next := Next(d, ev, pins, factory);
            (next.flash.lifecycle.Production? ==> d.flash.lifecycle.ReadyForAgent?)
            && next.initInProduction == d.initInProduction
            && (Loaded(d.flash.agent, true).Err? ==> next.flash.agent == d.flash.agent)
  {
    hide BootRun, Submission, Rotated, Loaded, TokenOf;
    match ev
    case PowerUp(refused, init, agent, cut) =>
      PowerOnSound(d.flash, refused, factory, kinds);
      PowerUpLeavesFactoryAgent(d, ev, pins, factory);
      var (slot, boot) := PowerOn(d.flash.boot, refused);
      var f := d.flash.(boot := boot);
      CutIsOneOf(f, StartUp(f, init).1, cut);
      if DurableState.Cut(f, BootRun(f, slot, agent).writes, cut).lifecycle.Production? {
        BootToProduction(f, slot, agent, cut);
      }
    case Submit(form, env, cut) =>
      if d.ram.InitUp? {
        var site := Site(d.ram.running, pins, factory);
        SubmissionStaysShort(d.flash, form, env, site);
        CutIsOneOf(d.flash, Submission(d.flash, form, env, site).1, cut);
      }
    case _ =>
  }

  /** A device on which the first agent cannot be installed never gets to Production. */
  lemma {:induction false} NeverInstalled(d: Device, events: seq<Event>, pins: set<Byte>, factory: Preloaded)
    requires Inv(d, factory, ANY) && !d.flash.lifecycle.Production? && !Installable(d, factory)
    ensures var now := Run(d, events, pins, factory);
            !now.flash.lifecycle.Production? && now.initInProduction == d.initInProduction
    decreases |events|
  {
    hide Next, Loaded;
    if events != [] {
      EverythingIsAny([events[0]]);
      assert Among([events[0]][0], ANY);
      StepKeeps(d, events[0], pins, factory, ANY);
      StepToProduction(d, events[0], pins, factory, ANY);
      StepLeavesFactoryAgent(d, events[0], pins, factory, ANY);
      if d.flash.lifecycle.ReadyForAgent? {
        ReadyIsInstallable(d, factory);
      }
      NeverInstalled(Next(d, events[0], pins, factory), events[1..], pins, factory);
    }
  }

  lemma ReadyIsInstallable(d: Device, factory: Preloaded)
    requires Sound(d.flash, factory, ANY) && d.flash.lifecycle.ReadyForAgent?
    ensures Installable(d, factory)
  {
  }

  /** Whether init can ever find itself in Production, on a device fresh from the factory: it
      can, in some run whose updates are all of the given kinds, exactly when the device can be
      installed at all and the init image is one of the kinds. */
  lemma InitStaysOutExactly(d: Device, kinds: set<Kind>, pins: set<Byte>, factory: Preloaded)
    requires FactoryFresh(d, factory)
    ensures (exists events: seq<Event> :: UploadsAmong(events, kinds) && Run(d, events, pins, factory).initInProduction)
            <==> Installable(d, factory) && InitImage in kinds
  {
    hide Next, Run, Loaded;
    if Installable(d, factory) && InitImage in kinds {
      var events := InitCanComeBack(d, kinds, pins, factory);
    }
    forall events: seq<Event> | UploadsAmong(events, kinds) && Run(d, events, pins, factory).initInProduction
      ensures Installable(d, factory) && InitImage in kinds
    {
      FreshIsSound(d, factory, kinds);
      RunKeeps(d, events, pins, factory, kinds);
      if !Installable(d, factory) {
        FreshIsSound(d, factory, ANY);
        NeverInstalled(d, events, pins, factory);
      }
    }
  }

  /** In particular a run that leads there has uploaded an init image. */
  lemma InitArmNeedsInitUpload(d: Device, events: seq<Event>, pins: set<Byte>, factory: Preloaded)
    requires FactoryFresh(d, factory) && Run(d, events, pins, factory).initInProduction
    ensures exists i :: 0 <= i < |events| && events[i].Upload? && events[i].content.kind.InitImage?
  {
    hide Next, Run;
    var kinds := ANY - {InitImage};
    InitStaysOutExactly(d, kinds, pins, factory);
    assert !UploadsAmong(events, kinds);
    var i :| 0 <= i < |events| && !Among(events[i], kinds);
    AnyKind(events[i].content.kind);
  }
}
