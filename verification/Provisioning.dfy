/** The init image: its start-up (src/bin/init.rs) and the one-shot provisioning form
    (src/http/config.rs), both as the sequence of durable states they go through. */
module Provisioning {
  import opened Bytes
  import opened Utf8
  import opened Wrappers
  import opened ConfigSpace
  import opened DurableState
  import opened AgentCodec
  import opened AgentStore

  const LED_DISABLED: Byte := 255

  datatype Form = Form(ledGpio: Byte, nodeId: Text, ctrlUrl: Text)

  datatype Reply =
    | Locked
    | BadPin
    | SaveFailed
    | ImageInvalid
    | ReadyFailed
    | ActivateFailed
    | Confirmed(token: Text)

  /** Which of the calls a submission makes get through, and the random bytes it would draw. */
  datatype FormEnv = FormEnv(
    lifecycleReadable: bool,
    hardwareCommits: bool,
    agentReadable: bool,
    agentCommit: Commit,
    entropy: Entropy,
    tokenReadable: bool,
    slotReadable: bool,
    publishes: bool,
    becomesReady: bool,
    marks: bool,
    arms: bool)

  predicate AllGood(e: FormEnv) {
    e.lifecycleReadable && e.hardwareCommits && e.agentReadable && e.agentCommit.Lands? && e.tokenReadable
    && e.slotReadable && e.publishes && e.becomesReady && e.marks && e.arms
  }

  /** What the running init image knows: its own slot, the pins an LED may use, and the
      preloaded agent it expects in the other slot. */
  datatype Site = Site(running: Slot, pins: set<Byte>, factory: Preloaded)

  predicate Editable(l: Lifecycle) {
    l.Provisioning? || l.ReadyForAgent?
  }

  function Gpio(form: Form): Option<Byte> {
    if form.ledGpio != LED_DISABLED then Some(form.ledGpio) else None
  }

  predicate PinAllowed(form: Form, pins: set<Byte>) {
    Gpio(form).Some? ==> Gpio(form).value in pins
  }

  /** hash_preloaded found the expected digest in the slot that is not running. */
  predicate Verified(f: Flash, site: Site) {
    site.factory.digest.Some? && ContentOf(f, Other(site.running)).digest == site.factory.digest.value
  }

  function Published(site: Site, phase: Phase): Staged
    requires site.factory.digest.Some?
  {
    Staged(Other(site.running), site.factory.digest.value, site.factory.deployment, phase)
  }

  /** The settings part of a submission: hardware record, then identity. */
  function Settings(f: Flash, form: Form, e: FormEnv): (bool, seq<Flash>) {
    if !e.hardwareCommits then (false, [])
    else
      var f1 := f.(hardware := Some(HardwareRecord(Gpio(form))));
      var (saved, record) := Saved(f1.agent, Save(form.nodeId, form.ctrlUrl, [], e.entropy), e.agentReadable, e.agentCommit);
      if saved.Err? then (false, [f1]) else (true, [f1, f1.(agent := record)])
  }

  /** The launch part: stage the verified image, become ReadyForAgent, mark and arm it. */
  function Launch(f: Flash, e: FormEnv, site: Site): (Reply, seq<Flash>) {
    if !e.slotReadable || !Verified(f, site) || !e.publishes then (ImageInvalid, [])
    else
      var f1 := f.(staged := Some(Published(site, Written)));
      var f2 := f1.(lifecycle := ReadyForAgent);
      var f3 := f2.(staged := Some(Published(site, Activating)));
      var f4 := f3.(boot := f3.boot.(candidate := Some(Candidate(Other(site.running), false))));
      if !e.becomesReady then (ReadyFailed, [f1])
      else if !e.marks then (ActivateFailed, [f1, f2])
      else if !e.arms then (ActivateFailed, [f1, f2, f3])
      else (Confirmed(TokenOf(f.agent, e.tokenReadable)), [f1, f2, f3, f4])
  }

  /** A submission: the answer, and the durable state after each write it made, in order. */
  function Submission(f: Flash, form: Form, e: FormEnv, site: Site): (Reply, seq<Flash>) {
    if !e.lifecycleReadable || !Editable(f.lifecycle) then (Locked, [])
    else if !PinAllowed(form, site.pins) then (BadPin, [])
    else
      var (saved, w) := Settings(f, form, e);
      if !saved then (SaveFailed, w)
      else
        var (reply, v) := Launch(Last(f, w), e, site);
        (reply, w + v)
  }

  /** How a start-up ends: serving, or stopped by a panic. */
  datatype InitEnd = Serving | Panicked

  datatype InitEnv = InitEnv(lifecycleReadable: bool, begins: bool, tlsReady: bool)

  /** The durable part of embewi-init's `main`: enter Provisioning, then make sure there is a
      TLS identity; only then is any network capability brought up. */
  function StartUp(f: Flash, e: InitEnv): (InitEnd, seq<Flash>) {
    if !e.lifecycleReadable || f.lifecycle.Production? then (Panicked, [])
    else if f.lifecycle.Factory? && !e.begins then (Panicked, [])
    else
      var w1 := if f.lifecycle.Factory? then [f.(lifecycle := Provisioning)] else [];
      var f1 := Last(f, w1);
      if !e.tlsReady then (Panicked, w1)
      else if f1.tls then (Serving, w1)
      else (Serving, w1 + [f1.(tls := true)])
  }

  /** The device while the init image runs; `history` has every durable state, newest last. */
  class InitDevice {
    const site: Site
    var flash: Flash
    ghost var history: seq<Flash>

    constructor (flash: Flash, site: Site)
      ensures this.flash == flash && this.site == site && history == []
    {
      this.flash := flash;
      this.site := site;
      history := [];
    }

    method Write(next: Flash)
      modifies this
      ensures flash == next && history == old(history) + [next]
    {
      flash := next;
      history := history + [next];
    }

    method StartDevice(e: InitEnv) returns (end: InitEnd)
      requires history == []
      modifies this
      ensures (end, history) == StartUp(old(flash), e)
      ensures flash == Last(old(flash), history)
    {
      if !e.lifecycleReadable {
        return Panicked;
      }
      match flash.lifecycle {
        case Factory =>
          if !e.begins {
            return Panicked;
          }
          Write(flash.(lifecycle := Provisioning));
          assert history == [flash];
        case Provisioning =>
        case ReadyForAgent =>
        case Production =>
          return Panicked;
      }
      if !e.tlsReady {
        return Panicked;
      }
      if !flash.tls {
        Write(flash.(tls := true));
      }
      end := Serving;
    }

    /** FactoryOta::stage_preloaded. */
    method StagePreloaded(e: FormEnv) returns (ok: bool)
      modifies this
      ensures ok <==> e.slotReadable && Verified(old(flash), site) && e.publishes
      ensures !ok ==> flash == old(flash) && history == old(history)
      ensures ok ==> flash == old(flash).(staged := Some(Published(site, Written)))
      ensures ok ==> history == old(history) + [flash]
    {
      if site.factory.digest.None? || !e.slotReadable {
        return false;
      }
      var slot := Other(site.running);
      var computed := ContentOf(flash, slot).digest;
      if computed != site.factory.digest.value || !e.publishes {
        return false;
      }
      Write(flash.(staged := Some(Published(site, Written))));
      ok := true;
    }

    /** FactoryOta::activate: marks the staged record, then arms its slot. */
    method Activate(deployment: seq<Byte>, e: FormEnv) returns (ok: bool)
      requires flash.staged.Some? && flash.staged.value.phase.Written?
      requires flash.staged.value.deployment == deployment
      modifies this
      ensures ok <==> e.marks && e.arms
      ensures var marked := old(flash).(staged := Some(old(flash).staged.value.(phase := Activating)));
              var armed := marked.(boot := marked.boot.(candidate := Some(Candidate(marked.staged.value.slot, false))));
              history == old(history) + (if !e.marks then [] else if !e.arms then [marked] else [marked, armed])
              && flash == (if !e.marks then old(flash) else if !e.arms then marked else armed)
    {
      if !e.marks {
        return false;
      }
      Write(flash.(staged := Some(flash.staged.value.(phase := Activating))));
      if !e.arms {
        return false;
      }
      Write(flash.(boot := flash.boot.(candidate := Some(Candidate(flash.staged.value.slot, false)))));
      ok := true;
    }

    method SaveSettings(form: Form, gpio: Option<Byte>, e: FormEnv) returns (ok: bool)
      requires gpio == Gpio(form)
      modifies this
      ensures ok == Settings(old(flash), form, e).0
      ensures history == old(history) + Settings(old(flash), form, e).1
      ensures flash == Last(old(flash), Settings(old(flash), form, e).1)
      ensures ok ==> flash.hardware == Some([0x48, 0x57, 0x43, 0x31, form.ledGpio])
    {
      StoredPin(form);
      if !e.hardwareCommits {
        return false;
      }
      Write(flash.(hardware := Some(HardwareRecord(gpio))));
      var space := new Space(flash.agent);
      var agent := new Agent(space);
      var saved := agent.SaveIdentity(Save(form.nodeId, form.ctrlUrl, [], e.entropy), e.agentReadable, e.agentCommit);
      if saved.Err? {
        return false;
      }
      Write(flash.(agent := space.stored));
      ok := true;
    }

    method StageAndActivate(e: FormEnv) returns (reply: Reply)
      modifies this
      ensures reply == Launch(old(flash), e, site).0
      ensures history == old(history) + Launch(old(flash), e, site).1
      ensures flash == Last(old(flash), Launch(old(flash), e, site).1)
    {
      var token := TokenOf(flash.agent, e.tokenReadable);
      var staged := StagePreloaded(e);
      if !staged {
        return ImageInvalid;
      }
      if !e.becomesReady {
        return ReadyFailed;
      }
      Write(flash.(lifecycle := ReadyForAgent));
      var armed := Activate(site.factory.deployment, e);
      if !armed {
        return ActivateFailed;
      }
      reply := Confirmed(token);
    }

    /** The POST handler. */
    method Post(form: Form, e: FormEnv) returns (reply: Reply)
      requires history == []
      modifies this
      ensures (reply, history) == Submission(old(flash), form, e, site)
      ensures flash == Last(old(flash), history)
      ensures reply.Confirmed? ==> flash.hardware == Some([0x48, 0x57, 0x43, 0x31, form.ledGpio])
    {
      ConfirmedLeaves(flash, form, e, site);
      if !e.lifecycleReadable || !(flash.lifecycle.Provisioning? || flash.lifecycle.ReadyForAgent?) {
        return Locked;
      }
      var gpio := if form.ledGpio != LED_DISABLED then Some(form.ledGpio) else None;
      if gpio.Some? && gpio.value !in site.pins {
        return BadPin;
      }
      var saved := SaveSettings(form, gpio, e);
      assert history == Settings(old(flash), form, e).1;
      if !saved {
        return SaveFailed;
      }
      reply := StageAndActivate(e);
    }
  }

  // --- What a submission does, said of the records -----------------------------------------

  /** The record holds the form's pin; 255 means no LED in both. */
  lemma StoredPin(form: Form)
    ensures HardwareRecord(Gpio(form)) == [0x48, 0x57, 0x43, 0x31, form.ledGpio]
  {
  }

  function Spare(f: Flash, site: Site): Content {
    if site.running == A then f.slotB else f.slotA
  }

  predicate Accepted(f: Flash, form: Form, e: FormEnv, site: Site) {
    && e.lifecycleReadable && f.lifecycle in {Lifecycle.Provisioning, ReadyForAgent}
    && (form.ledGpio == 255 || form.ledGpio in site.pins)
  }

  predicate Saves(f: Flash, form: Form, e: FormEnv) {
    && e.hardwareCommits && e.agentReadable && Loaded(f.agent, true).Ok? && e.agentCommit.Lands?
    && |form.nodeId| <= 64 && |form.ctrlUrl| <= 192
  }

  predicate Stages(f: Flash, e: FormEnv, site: Site) {
    e.slotReadable && site.factory.digest == Some(Spare(f, site).digest) && e.publishes
  }

  lemma SavesExactly(f: Flash, form: Form, e: FormEnv)
    ensures var (ok, w) := Settings(f, form, e);
            && (ok <==> Saves(f, form, e))
            && |w| == (if !e.hardwareCommits then 0 else if ok then 2 else 1)
            && (|w| > 0 ==> w[0] == f.(hardware := Some([0x48, 0x57, 0x43, 0x31, form.ledGpio])))
            && (ok ==>
                  w[1] == w[0].(agent := w[1].agent)
                  && Loaded(w[1].agent, true)
                     == Ok(AgentConfig(form.nodeId, form.ctrlUrl,
                                       if Loaded(f.agent, true).value.token != [] then Loaded(f.agent, true).value.token
                                       else FreshToken(e.entropy))))
  {
    StoredPin(form);
    TokenFits(f, e.entropy);
    SaveExactly(f.agent, Save(form.nodeId, form.ctrlUrl, [], e.entropy), e.agentReadable, e.agentCommit);
    hide Decoded, Encoded, FreshToken, HardwareRecord, Saved;
  }

  lemma LaunchesExactly(f: Flash, e: FormEnv, site: Site)
    ensures var (reply, w) := Launch(f, e, site);
            && (reply == ImageInvalid <==> !Stages(f, e, site))
            && (reply == ReadyFailed <==> Stages(f, e, site) && !e.becomesReady)
            && (reply == ActivateFailed <==> Stages(f, e, site) && e.becomesReady && !(e.marks && e.arms))
            && reply !in {Locked, BadPin, SaveFailed}
            && |w| == (if !Stages(f, e, site) then 0 else if !e.becomesReady then 1
                       else if !e.marks then 2 else if !e.arms then 3 else 4)
  {
    hide TokenOf;
  }

  /** Each answer, exactly when it is given: the guards in their order. */
  lemma RepliesExactly(f: Flash, form: Form, e: FormEnv, site: Site)
    ensures var reply := Submission(f, form, e, site).0;
            var accepted, saves, stages := Accepted(f, form, e, site), Saves(f, form, e), Stages(f, e, site);
            && (reply == Locked <==>
                  !e.lifecycleReadable || f.lifecycle == Factory || f.lifecycle == Production)
            && (reply == BadPin <==> reply != Locked && form.ledGpio != 255 && form.ledGpio !in site.pins)
            && (reply == SaveFailed <==> accepted && !saves)
            && (reply == ImageInvalid <==> accepted && saves && !stages)
            && (reply == ReadyFailed <==> accepted && saves && stages && !e.becomesReady)
            && (reply == ActivateFailed <==> accepted && saves && stages && e.becomesReady && !(e.marks && e.arms))
  {
    hide Settings, Launch, Loaded;
    SavesExactly(f, form, e);
    LaunchesExactly(Last(f, Settings(f, form, e).1), e, site);
  }

  /** The step from one durable state of a submission to the next, by its place in the list:
      hardware, identity, staged record, lifecycle, mark, boot entry. */
  predicate IsWrite(i: nat, f: Flash, g: Flash, form: Form, site: Site) {
    var other := if site.running == A then B else A;
    match i
    case 0 => g == f.(hardware := Some([0x48, 0x57, 0x43, 0x31, form.ledGpio]))
    case 1 =>
      && g == f.(agent := g.agent) && Loaded(g.agent, true).Ok?
      && Loaded(g.agent, true).value.nodeId == form.nodeId && Loaded(g.agent, true).value.ctrlUrl == form.ctrlUrl
      && Loaded(g.agent, true).value.token != []
    case 2 => g == f.(staged := Some(Staged(other, Spare(f, site).digest, site.factory.deployment, Written)))
    case 3 => g == f.(lifecycle := ReadyForAgent)
    case 4 => g == f.(staged := Some(Staged(other, Spare(f, site).digest, site.factory.deployment, Activating)))
    case 5 => g == f.(boot := Boot(f.boot.confirmed, Some(Candidate(other, false))))
    case _ => false
  }

  function Before(f: Flash, w: seq<Flash>, i: nat): Flash
    requires i <= |w|
  {
    if i == 0 then f else w[i - 1]
  }

  lemma LaunchInOrder(f: Flash, e: FormEnv, site: Site, form: Form, i: nat)
    requires i < |Launch(f, e, site).1|
    ensures IsWrite(i + 2, Before(f, Launch(f, e, site).1, i), Launch(f, e, site).1[i], form, site)
  {
    hide Loaded;
  }

  lemma SettingsInOrder(f: Flash, form: Form, e: FormEnv, site: Site, i: nat)
    requires i < |Settings(f, form, e).1|
    ensures i < 2 && IsWrite(i, Before(f, Settings(f, form, e).1, i), Settings(f, form, e).1[i], form, site)
  {
    SavesExactly(f, form, e);
    FreshTokenIsThere(e.entropy);
    hide Settings, Loaded, FreshToken;
  }

  /** A submission makes its writes in this order ... */
  lemma SubmissionInOrder(f: Flash, form: Form, e: FormEnv, site: Site, i: nat)
    requires i < |Submission(f, form, e, site).1|
    ensures IsWrite(i, Before(f, Submission(f, form, e, site).1, i), Submission(f, form, e, site).1[i], form, site)
  {
    hide Settings, Launch, Loaded, IsWrite, Accepted;
    var (ok, v) := Settings(f, form, e);
    SavesExactly(f, form, e);
    if i < |v| {
      SettingsInOrder(f, form, e, site, i);
    } else {
      var w := Launch(Last(f, v), e, site).1;
      LaunchInOrder(Last(f, v), e, site, form, i - 2);
      assert Submission(f, form, e, site).1 == v + w && |v| == 2;
      assert Before(f, v + w, i) == Before(Last(f, v), w, i - 2);
    }
  }

  /** ... and stops at the first that does not get through: none for a form it does not accept,
      and so on up to six for a confirmed one. */
  lemma SubmissionStops(f: Flash, form: Form, e: FormEnv, site: Site)
    ensures var (reply, w) := Submission(f, form, e, site);
            |w| == match reply
                   case Locked => 0
                   case BadPin => 0
                   case SaveFailed => if e.hardwareCommits then 1 else 0
                   case ImageInvalid => 2
                   case ReadyFailed => 3
                   case ActivateFailed => if e.marks then 5 else 4
                   case Confirmed(_) => 6
  {
    hide Settings, Launch, Loaded;
    SavesExactly(f, form, e);
    LaunchesExactly(Last(f, Settings(f, form, e).1), e, site);
  }

  lemma FreshTokenIsThere(entropy: Entropy)
    ensures FreshToken(entropy) != []
  {
  }

  /** A confirmed form is stored, pin and texts; the spare image is staged, marked and armed. */
  lemma ConfirmedLeaves(f: Flash, form: Form, e: FormEnv, site: Site)
    ensures var (reply, w) := Submission(f, form, e, site);
            var end := Last(f, w);
            var other := if site.running == A then B else A;
            reply.Confirmed? ==>
              && end.hardware == Some([0x48, 0x57, 0x43, 0x31, form.ledGpio])
              && Loaded(end.agent, true)
                 == Ok(AgentConfig(form.nodeId, form.ctrlUrl,
                                   if Loaded(f.agent, true).value.token != [] then Loaded(f.agent, true).value.token
                                   else FreshToken(e.entropy)))
              && end == f.(hardware := end.hardware, agent := end.agent, lifecycle := ReadyForAgent,
                           staged := Some(Staged(other, Spare(f, site).digest, site.factory.deployment, Activating)),
                           boot := Boot(f.boot.confirmed, Some(Candidate(other, false))))
  {
    var (ok, v) := Settings(f, form, e);
    SavesExactly(f, form, e);
    hide Settings, Loaded, TokenOf;
    if ok {
      LastOfBoth(f, v, Launch(Last(f, v), e, site).1);
    }
  }

  /** How init starts up: what it needs to serve, and that it makes the lifecycle durable before
      the TLS identity. */
  lemma StartsExactly(f: Flash, e: InitEnv)
    ensures var (end, w) := StartUp(f, e);
            var entered := e.lifecycleReadable && f.lifecycle == Factory && e.begins;
            && (end == Serving <==>
                  e.lifecycleReadable && f.lifecycle != Production && (f.lifecycle == Factory ==> e.begins) && e.tlsReady)
            && Last(f, w) == f.(lifecycle := if entered then Lifecycle.Provisioning else f.lifecycle,
                                tls := f.tls || end == Serving)
            && (forall x :: x in w && x.tls && !f.tls ==> x.lifecycle != Factory)
            && |w| == (if entered then 1 else 0) + (if end == Serving && !f.tls then 1 else 0)
  {
  }

  // --- Retrying a form -------------------------------------------------------------------

  /** Where an uninterrupted submission leaves the device, for a given token. */
  function Goal(f: Flash, form: Form, generation: nat, token: Text, site: Site): Flash
    requires site.factory.digest.Some? && Submittable(form, token)
  {
    f.(lifecycle := ReadyForAgent,
       hardware := Some(HardwareRecord(Gpio(form))),
       agent := Some(Snapshot(generation, Record(AgentConfig(form.nodeId, form.ctrlUrl, token)))),
       staged := Some(Published(site, Activating)),
       boot := f.boot.(candidate := Some(Candidate(Other(site.running), false))))
  }

  predicate Submittable(form: Form, token: Text) {
    WithinLimits(AgentConfig(form.nodeId, form.ctrlUrl, token))
  }

  /** A device and a form for which a submission with every call getting through succeeds. */
  predicate CanSucceed(f: Flash, form: Form, site: Site) {
    && Editable(f.lifecycle)
    && PinAllowed(form, site.pins)
    && Verified(f, site)
    && Loaded(f.agent, true).Ok?
    && |form.nodeId| <= 64
    && |form.ctrlUrl| <= 192
  }

  function TokenAfter(f: Flash, entropy: Entropy): Text {
    var existing := TokenOf(f.agent, true);
    if existing == [] then FreshToken(entropy) else existing
  }

  lemma TokenFits(f: Flash, entropy: Entropy)
    ensures |TokenAfter(f, entropy)| <= 64 && TokenAfter(f, entropy) != []
  {
    if f.agent.Some? && Decoded(f.agent.value.data).Some? {
      RecordOfDecoded(f.agent.value.data);
    }
  }

  /** The identity record a submission leaves when every call gets through. */
  lemma GoodSettings(f: Flash, form: Form, e: FormEnv)
    requires AllGood(e)
    ensures var (ok, w) := Settings(f, form, e);
            var token := TokenAfter(f, e.entropy);
            (ok <==> Loaded(f.agent, true).Ok? && |form.nodeId| <= 64 && |form.ctrlUrl| <= 192)
            && (ok ==> Submittable(form, token)
                       && TokenOf(Last(f, w).agent, true) == token
                       && Last(f, w) == f.(hardware := Some(HardwareRecord(Gpio(form))),
                                           agent := Some(Snapshot(e.agentCommit.generation,
                                                                  Record(AgentConfig(form.nodeId, form.ctrlUrl, token))))))
  {
    TokenFits(f, e.entropy);
    SaveExactly(f.agent, Save(form.nodeId, form.ctrlUrl, [], e.entropy), true, e.agentCommit);
    hide Decoded, Record, FreshToken, HardwareRecord;
  }

  lemma GoodLaunch(f: Flash, e: FormEnv, site: Site)
    requires AllGood(e)
    ensures var (reply, w) := Launch(f, e, site);
            (reply.Confirmed? <==> Verified(f, site))
            && (reply.Confirmed? ==>
                  reply == Confirmed(TokenOf(f.agent, true))
                  && Last(f, w) == f.(lifecycle := ReadyForAgent, staged := Some(Published(site, Activating)),
                                      boot := f.boot.(candidate := Some(Candidate(Other(site.running), false)))))
  {
    hide TokenOf;
  }

  /** With every call getting through, a submission succeeds exactly on such devices. */
  lemma GoodSubmission(f: Flash, form: Form, e: FormEnv, site: Site)
    requires AllGood(e)
    ensures Submission(f, form, e, site).0.Confirmed? <==> CanSucceed(f, form, site)
    ensures CanSucceed(f, form, site) ==>
              var token := TokenAfter(f, e.entropy);
              Submittable(form, token)
              && Submission(f, form, e, site).0 == Confirmed(token)
              && Last(f, Submission(f, form, e, site).1) == Goal(f, form, e.agentCommit.generation, token, site)
  {
    hide Settings, Launch, Loaded, TokenOf, TokenAfter, Record, HardwareRecord;
    if Editable(f.lifecycle) && PinAllowed(form, site.pins) {
      GoodSettings(f, form, e);
      var (ok, w) := Settings(f, form, e);
      if ok {
        var mid := Last(f, w);
        GoodLaunch(mid, e, site);
        LastOfBoth(f, w, Launch(mid, e, site).1);
      }
    }
  }

  lemma LastOfBoth(f: Flash, w: seq<Flash>, v: seq<Flash>)
    ensures Last(f, w + v) == Last(Last(f, w), v)
  {
  }

  /** What can happen before the submission that gets through: any forms sent, with calls failing
      and power cut after any number of their writes, and boots in which the bootloader gave the
      candidate up. */
  datatype Incident = Tried(form: Form, env: FormEnv, cut: nat) | GivenUp

  function After(f: Flash, site: Site, incident: Incident): Flash {
    match incident
    case Tried(form, env, cut) => DurableState.Cut(f, Submission(f, form, env, site).1, cut)
    case GivenUp => GiveUp(f)
  }

  function AfterAll(f: Flash, site: Site, incidents: seq<Incident>): Flash
    decreases |incidents|
  {
    if incidents == [] then f
    else AfterAll(After(f, site, incidents[0]), site, incidents[1..])
  }

  /** f may have become g on the way to the goal: nothing moved but what the form writes, and
      a token is never lost or replaced once there is one. */
  predicate OnTheWay(f: Flash, g: Flash) {
    && g == f.(lifecycle := g.lifecycle, hardware := g.hardware, agent := g.agent,
               staged := g.staged, boot := f.boot.(candidate := g.boot.candidate))
    && (g.lifecycle == f.lifecycle || g.lifecycle.ReadyForAgent?)
    && (Loaded(f.agent, true).Ok? ==> Loaded(g.agent, true).Ok?)
    && (TokenOf(f.agent, true) != [] ==> TokenOf(g.agent, true) == TokenOf(f.agent, true))
  }

  lemma SettingsOnTheWay(f: Flash, form: Form, e: FormEnv)
    ensures var (ok, w) := Settings(f, form, e);
            (forall i :: 0 <= i < |w| ==> OnTheWay(f, w[i]))
            && (ok ==> OnTheWay(f, Last(f, w)) && Last(f, w).lifecycle == f.lifecycle)
            && (ok && e.agentReadable ==> TokenOf(Last(f, w).agent, true) == TokenAfter(f, e.entropy))
  {
    SavesExactly(f, form, e);
    FreshTokenIsThere(e.entropy);
    hide Settings, Loaded, FreshToken;
  }

  lemma LaunchOnTheWay(f: Flash, e: FormEnv, site: Site)
    ensures var w := Launch(f, e, site).1;
            forall i :: 0 <= i < |w| ==> OnTheWay(f, w[i]) && w[i].agent == f.agent
  {
  }

  lemma OnTheWayTransitive(f: Flash, g: Flash, h: Flash)
    requires OnTheWay(f, g) && OnTheWay(g, h)
    ensures OnTheWay(f, h)
  {
  }

  /** Every durable state of a submission belongs to its settings part or, if that succeeded,
      to its launch part. */
  lemma SubmissionWrites(f: Flash, form: Form, e: FormEnv, site: Site, i: nat)
    requires i < |Submission(f, form, e, site).1|
    ensures var x := Submission(f, form, e, site).1[i];
            var (ok, w) := Settings(f, form, e);
            x in w || (ok && x in Launch(Last(f, w), e, site).1)
  {
  }

  lemma SubmissionOnTheWay(f: Flash, form: Form, e: FormEnv, site: Site)
    ensures var w := Submission(f, form, e, site).1;
            forall i :: 0 <= i < |w| ==> OnTheWay(f, w[i])
  {
    var w := Submission(f, form, e, site).1;
    forall i | 0 <= i < |w| ensures OnTheWay(f, w[i]) {
      SubmissionWrites(f, form, e, site, i);
      SettingsOnTheWay(f, form, e);
      var (ok, v) := Settings(f, form, e);
      var mid := Last(f, v);
      LaunchOnTheWay(mid, e, site);
      if w[i] !in v {
        OnTheWayTransitive(f, mid, w[i]);
      }
    }
  }

  lemma AfterOnTheWay(f: Flash, site: Site, incident: Incident)
    ensures OnTheWay(f, After(f, site, incident))
  {
    if incident.Tried? {
      SubmissionOnTheWay(f, incident.form, incident.env, site);
    }
  }

  lemma {:induction false} AfterAllOnTheWay(f: Flash, site: Site, incidents: seq<Incident>)
    ensures OnTheWay(f, AfterAll(f, site, incidents))
    decreases |incidents|
  {
    if incidents != [] {
      AfterOnTheWay(f, site, incidents[0]);
      AfterAllOnTheWay(After(f, site, incidents[0]), site, incidents[1..]);
    }
  }

  /** A token that appears on the way is one that some submission drew. */
  lemma {:induction false} TokenWasDrawn(f: Flash, site: Site, incidents: seq<Incident>)
    requires TokenOf(f.agent, true) == []
    ensures var token := TokenOf(AfterAll(f, site, incidents).agent, true);
            token != [] ==> exists entropy: Entropy :: token == FreshToken(entropy)
    decreases |incidents|
  {
    if incidents != [] {
      var g := After(f, site, incidents[0]);
      if TokenOf(g.agent, true) == [] {
        TokenWasDrawn(g, site, incidents[1..]);
      } else {
        AfterAllOnTheWay(g, site, incidents[1..]);
        var e := incidents[0].env;
        DrawnByOne(f, incidents[0].form, e, site, incidents[0].cut);
        assert TokenOf(g.agent, true) == FreshToken(e.entropy);
      }
    }
  }

  lemma SettingsDraw(f: Flash, form: Form, e: FormEnv)
    requires TokenOf(f.agent, true) == []
    ensures var (ok, w) := Settings(f, form, e);
            forall x :: x in w || x == Last(f, w) ==>
              TokenOf(x.agent, true) == [] || TokenOf(x.agent, true) == FreshToken(e.entropy)
  {
    if e.hardwareCommits {
      SaveExactly(f.agent, Save(form.nodeId, form.ctrlUrl, [], e.entropy), e.agentReadable, e.agentCommit);
    }
  }

  lemma DrawnByOne(f: Flash, form: Form, e: FormEnv, site: Site, cut: nat)
    requires TokenOf(f.agent, true) == []
    ensures var token := TokenOf(DurableState.Cut(f, Submission(f, form, e, site).1, cut).agent, true);
            token == [] || token == FreshToken(e.entropy)
  {
    var writes := Submission(f, form, e, site).1;
    var n := if cut < |writes| then cut else |writes|;
    if n > 0 {
      assert writes[..n][n - 1] == writes[n - 1];
      SubmissionWrites(f, form, e, site, n - 1);
      SettingsDraw(f, form, e);
      LaunchOnTheWay(Last(f, Settings(f, form, e).1), e, site);
    }
  }

  /** However often whatever forms were sent before, failing anywhere and losing power after any
      write: one submission that gets through ends in the same durable state, and shows the
      same token, as a single uninterrupted one from the start would have. */
  lemma RetryConverges(f: Flash, form: Form, site: Site, incidents: seq<Incident>, e: FormEnv)
    requires CanSucceed(f, form, site) && AllGood(e)
    ensures var g := AfterAll(f, site, incidents);
            exists entropy: Entropy ::
              var (reply, writes) := Submission(g, form, e, site);
              var (reply0, writes0) := Submission(f, form, e.(entropy := entropy), site);
              reply.Confirmed? && reply == reply0 && Last(g, writes) == Last(f, writes0)
  {
    var g := AfterAll(f, site, incidents);
    AfterAllOnTheWay(f, site, incidents);
    GoodSubmission(g, form, e, site);
    var entropy := e.entropy;
    if TokenOf(f.agent, true) == [] && TokenOf(g.agent, true) != [] {
      TokenWasDrawn(f, site, incidents);
      entropy :| TokenOf(g.agent, true) == FreshToken(entropy);
    }
    assert TokenAfter(g, e.entropy) == TokenAfter(f, entropy);
    GoodSubmission(f, form, e.(entropy := entropy), site);
  }

  /** A committed token survives every later submission, whatever fails; and the token a
      successful answer shows is the stored one, unless that one read failed - then it is
      blank. */
  lemma TokenIsKeptAndShown(f: Flash, form: Form, e: FormEnv, site: Site, cut: nat)
    ensures var (reply, writes) := Submission(f, form, e, site);
            var final := Last(f, writes);
            (TokenOf(f.agent, true) != [] ==>
               TokenOf(DurableState.Cut(f, writes, cut).agent, true) == TokenOf(f.agent, true))
            && (reply.Confirmed? ==> TokenOf(final.agent, true) != [])
            && (reply.Confirmed? ==> reply.token == if e.tokenReadable then TokenOf(final.agent, true) else [])
  {
    AfterOnTheWay(f, site, Tried(form, e, cut));
    var (reply, writes) := Submission(f, form, e, site);
    if reply.Confirmed? {
      SettingsOnTheWay(f, form, e);
      TokenFits(f, e.entropy);
      SaveExactly(f.agent, Save(form.nodeId, form.ctrlUrl, [], e.entropy), e.agentReadable, e.agentCommit);
    }
  }
}
