/** The probe runtime (src/workload/probe_runtime.rs): one task, shared flags, and start/stop
    calls that poll them.

    The executor is cooperative: a task or a call runs from one await to the next without
    interruption, and `Next` is one such segment. Timers are ideal: time does not pass over a
    segment that is due, but segments due in the same millisecond run in any order. Start and
    stop calls come one at a time. */
module ProbeRuntime {
  import opened Wrappers

  const U32: nat := 0x1_0000_0000
  const STOP_POLLS: nat := 100
  const STOP_SLEEP: nat := 20
  const START_POLLS: nat := 100
  const START_SLEEP: nat := 10

  datatype Fault = NoFault | FailStart | FreezeAfterStart | HealthFail | ResetOnStart | ResetOnStop

  /** Artifacts are told apart by a number; the period is a 16-bit header field. */
  type Period = p: nat | p < 0x1_0000
  datatype Run = Run(id: nat, fault: Fault)

  /** The task's own variables. Fresh: spawned, not yet run. */
  datatype Task = Task(run: Run, period: Period, ticks: nat, wake: Option<nat>)

  /** Where the current start or stop call is suspended. `polls` counts the sleeps begun. */
  datatype Call =
    | NoCall
    | Stopping(polls: nat, wake: nat, taken: Option<Run>, next: Option<nat>)
    | Reading(id: nat)
    | Starting(polls: nat, wake: nat)
    | Resetting

  /** `late` and `busy` record a stop that gave up on a live task, and a start that found the
      task slot taken; `timedOut` a start that never saw its task run. */
  datatype State = State(
    now: nat,
    current: Option<Run>,
    alive: bool,
    stop: bool,
    last: nat,
    period: Period,
    task: Option<Task>,
    call: Call,
    late: bool,
    busy: bool,
    timedOut: bool)

  const INITIAL := State(0, None, false, false, 0, 500, None, NoCall, false, false, false)

  datatype Header = ReadFailed | NotAProbe | Probe(period: Period, fault: Fault)

  datatype Label =
    | Tick
    | RunTask
    | RunCall
    | CallStop
    | CallStart(id: nat)
    | ReadDone(header: Header)

  // --- The task --------------------------------------------------------------------------

  predicate Frozen(t: Task) {
    t.run.fault.FreezeAfterStart? && t.ticks > 4
  }

  /** The loop test: leave, or sleep for another period. */
  function LoopTest(s: State, t: Task): State {
    if s.stop then s.(alive := false, task := None)
    else s.(task := Some(t.(wake := Some(s.now + t.period))))
  }

  function TaskSegment(s: State, t: Task): State {
    if t.wake.None? then LoopTest(s.(alive := true, last := s.now), t)
    else
      var ticked := t.(ticks := t.ticks + 1);
      LoopTest(if Frozen(ticked) then s else s.(last := s.now), ticked)
  }

  predicate TaskDue(s: State) {
    s.task.Some? && (s.task.value.wake.None? || s.task.value.wake.value <= s.now)
  }

  /** Time does not pass over a due task, except that one with period 0 is due again as soon as
      it has run: it may take until the next millisecond to get its turn. */
  predicate HoldsTime(s: State) {
    TaskDue(s) && (s.task.value.wake == Some(s.now) ==> s.task.value.period > 0)
  }

  // --- The calls -------------------------------------------------------------------------

  /** stop_inner is over: a ResetOnStop artifact resets the device, stop returns, start reads
      its artifact. */
  function Stopped(s: State, taken: Option<Run>, next: Option<nat>, waited: bool): State {
    var t := s.(late := s.late || s.task.Some?);
    if waited && taken.Some? && taken.value.fault.ResetOnStop? then t.(call := Resetting)
    else t.(call := if next.Some? then Reading(next.value) else NoCall)
  }

  /** stop_inner up to its first await. */
  function BeginStop(s: State, next: Option<nat>): State {
    var t := s.(current := None);
    if s.alive then t.(stop := true, call := Stopping(1, s.now + STOP_SLEEP, s.current, next))
    else Stopped(t, s.current, next, false)
  }

  function Launch(s: State, id: nat, header: Header): State {
    if !header.Probe? || header.fault.FailStart? then s.(call := NoCall)
    else if header.fault.ResetOnStart? then s.(call := Resetting)
    else
      var run := Run(id, header.fault);
      var t := s.(stop := false, period := header.period, current := Some(run));
      if t.task.Some? then t.(call := NoCall, busy := true)
      else
        var spawned := t.(task := Some(Task(run, header.period, 0, None)));
        if t.alive then spawned.(call := NoCall) else spawned.(call := Starting(1, s.now + START_SLEEP))
  }

  function CallSegment(s: State): State
    requires s.call.Stopping? || s.call.Starting?
  {
    match s.call
    case Stopping(polls, wake, taken, next) =>
      if s.alive && polls < STOP_POLLS then s.(call := Stopping(polls + 1, s.now + STOP_SLEEP, taken, next))
      else Stopped(s, taken, next, true)
    case Starting(polls, wake) =>
      if polls == START_POLLS then s.(call := NoCall, current := None, timedOut := true)
      else if s.alive then s.(call := NoCall)
      else s.(call := Starting(polls + 1, s.now + START_SLEEP))
  }

  predicate CallDue(s: State) {
    (s.call.Stopping? || s.call.Starting?) && s.call.wake <= s.now
  }

  /** One segment, or one millisecond; a label that is not enabled changes nothing. */
  function Next(s: State, l: Label): State {
    match l
    case Tick => if HoldsTime(s) || CallDue(s) then s else s.(now := s.now + 1)
    case RunTask => if TaskDue(s) then TaskSegment(s, s.task.value) else s
    case RunCall => if CallDue(s) then CallSegment(s) else s
    case CallStop => if s.call.NoCall? then BeginStop(s, None) else s
    case CallStart(id) => if s.call.NoCall? then BeginStop(s, Some(id)) else s
    case ReadDone(header) => if s.call.Reading? then Launch(s, s.call.id, header) else s
  }

  function After(s: State, labels: seq<Label>): State
    decreases |labels|
  {
    if labels == [] then s else After(Next(s, labels[0]), labels[1..])
  }

  /** `running`. */
  function Running(s: State): Option<nat> {
    if !s.alive || s.current.None? then None else Some(s.current.value.id)
  }

  datatype Health = Unknown | Healthy | Unhealthy

  function Window(period: Period): (w: nat)
    ensures w < U32
  {
    if period * 3 < 2000 then 2000 else period * 3
  }

  /** now_ms().wrapping_sub(LAST_PROGRESS_MS): both clocks are cut to 32 bits first. */
  function WrappedElapsed(s: State): nat {
    (s.now % U32 - s.last % U32) % U32
  }

  /** `health`. */
  function HealthOf(s: State): Health {
    if s.current.None? || !s.alive then Unknown
    else if s.current.value.fault.HealthFail? then Unhealthy
    else if WrappedElapsed(s) <= Window(s.period) then Healthy
    else Unhealthy
  }

  // --- The shared statics, updated as the code does ----------------------------------------

  class Statics {
    var now: nat
    var current: Option<Run>
    var alive: bool
    var stop: bool
    var last: nat
    var period: Period
    var task: Option<Task>
    var call: Call
    ghost var late: bool
    ghost var busy: bool
    ghost var timedOut: bool

    constructor ()
      ensures View() == INITIAL
    {
      now, current, alive, stop, last, period := 0, None, false, false, 0, 500;
      task, call, late, busy, timedOut := None, NoCall, false, false, false;
    }

    ghost function View(): State
      reads this
    {
      State(now, current, alive, stop, last, period, task, call, late, busy, timedOut)
    }

    /** probe_task from one await to the next. */
    method ProbeTask()
      requires TaskDue(View())
      modifies this
      ensures View() == Next(old(View()), RunTask)
    {
      var t := task.value;
      if t.wake.None? {
        alive := true;
        last := now;
      } else {
        t := t.(ticks := t.ticks + 1);
        var frozen := t.run.fault.FreezeAfterStart? && t.ticks > 4;
        if !frozen {
          last := now;
        }
      }
      if !stop {
        task := Some(t.(wake := Some(now + t.period)));
        return;
      }
      alive := false;
      task := None;
    }

    /** stop_inner, the end of it. */
    method FinishStop(taken: Option<Run>, next: Option<nat>, waited: bool)
      modifies this
      ensures View() == Stopped(old(View()), taken, next, waited)
    {
      late := late || task.Some?;
      if waited && taken.Some? && taken.value.fault.ResetOnStop? {
        call := Resetting;
      } else if next.Some? {
        call := Reading(next.value);
      } else {
        call := NoCall;
      }
    }

    /** stop_inner up to its first await, for `stop` (no artifact) or `start`. */
    method StopInner(next: Option<nat>)
      requires call.NoCall?
      modifies this
      ensures View() == Next(old(View()), if next.None? then CallStop else CallStart(next.value))
    {
      var taken := current;
      current := None;
      if alive {
        stop := true;
        call := Stopping(1, now + STOP_SLEEP, taken, next);
      } else {
        FinishStop(taken, next, false);
      }
    }

    /** The polling loops of stop_inner and start, one turn. */
    method Poll()
      requires CallDue(View())
      modifies this
      ensures View() == Next(old(View()), RunCall)
    {
      match call {
        case Stopping(polls, _, taken, next) =>
          if polls < STOP_POLLS && alive {
            call := Stopping(polls + 1, now + STOP_SLEEP, taken, next);
            return;
          }
          FinishStop(taken, next, true);
        case Starting(polls, _) =>
          if polls == START_POLLS {
            current := None;
            call := NoCall;
            timedOut := true;
          } else if alive {
            call := NoCall;
          } else {
            call := Starting(polls + 1, now + START_SLEEP);
          }
        case _ =>
          assert false;
      }
    }

    /** `start` once the artifact header has been read. */
    method StartWith(header: Header)
      requires call.Reading?
      modifies this
      ensures View() == Next(old(View()), ReadDone(header))
    {
      var id := call.id;
      call := NoCall;
      if !header.Probe? || header.fault.FailStart? {
        return;
      }
      if header.fault.ResetOnStart? {
        call := Resetting;
        return;
      }
      stop := false;
      period := header.period;
      current := Some(Run(id, header.fault));
      if task.Some? {
        busy := true;
        return;
      }
      task := Some(Task(Run(id, header.fault), header.period, 0, None));
      if !alive {
        call := Starting(1, now + START_SLEEP);
      }
    }
  }

  // --- Every interleaving ------------------------------------------------------------------

  /** How things stand whatever the periods are: the flags say whether a task sleeps, its timer
      is on time, and it dates its progress by its last turn. */
  predicate TaskInv(s: State) {
    && (s.alive <==> s.task.Some? && s.task.value.wake.Some?)
    && (s.alive ==> s.now <= s.task.value.wake.value + (if s.task.value.period == 0 then 1 else 0)
                    && s.task.value.wake.value <= s.now + s.task.value.period)
    && s.last <= s.now
    && (s.alive && !Frozen(s.task.value) ==> s.task.value.wake.value == s.last + s.task.value.period)
  }

  /** The task is the one CURRENT names, unless a start once found the slot taken. */
  predicate Named(s: State) {
    s.current.Some? && s.task.Some?
    && (!s.busy ==> s.current == Some(s.task.value.run) && s.period == s.task.value.period)
  }

  /** Between stop and the next start: no task, unless a stop gave up on one, which then still
      sleeps and has been told to stop. */
  predicate Vacant(s: State) {
    s.current.None? && (s.task.Some? ==> s.alive && s.stop && s.late)
  }

  predicate CallInv(s: State) {
    match s.call
    case NoCall => if s.current.None? then Vacant(s) else Named(s) && s.alive && !s.stop
    case Reading(_) => Vacant(s)
    case Resetting => Vacant(s)
    case Stopping(polls, wake, _, _) =>
      && s.stop && s.current.None? && (s.task.Some? ==> s.task.value.wake.Some?)
      && 1 <= polls <= STOP_POLLS && s.now <= wake <= s.now + STOP_SLEEP
      && (s.task.Some? ==> s.task.value.wake.value + polls * STOP_SLEEP <= wake + s.task.value.period)
    case Starting(polls, wake) =>
      && polls == 1 && s.now <= wake && Named(s) && !s.stop
      && (!s.alive ==> wake == s.now + START_SLEEP)
  }

  predicate Inv(s: State) {
    TaskInv(s) && CallInv(s) && !s.timedOut && (s.busy ==> s.late)
  }

  lemma TickKeepsInv(s: State)
    requires Inv(s)
    ensures Inv(Next(s, Tick))
  {
    hide TaskSegment, BeginStop, CallSegment, Launch, Frozen;
  }

  lemma TaskKeepsInv(s: State)
    requires Inv(s)
    ensures Inv(Next(s, RunTask))
  {
    hide BeginStop, CallSegment, Launch;
  }

  lemma CallKeepsInv(s: State)
    requires Inv(s)
    ensures Inv(Next(s, RunCall))
  {
    hide TaskSegment, BeginStop, Launch, Frozen;
  }

  lemma BeginKeepsInv(s: State, next: Option<nat>)
    requires Inv(s) && s.call.NoCall?
    ensures Inv(BeginStop(s, next))
  {
    hide Frozen;
  }

  lemma LaunchKeepsInv(s: State, header: Header)
    requires Inv(s) && s.call.Reading?
    ensures Inv(Launch(s, s.call.id, header))
  {
    hide Frozen;
  }

  lemma StepKeepsInv(s: State, l: Label)
    requires Inv(s)
    ensures Inv(Next(s, l))
  {
    match l
    case Tick => TickKeepsInv(s);
    case RunTask => TaskKeepsInv(s);
    case RunCall => CallKeepsInv(s);
    case CallStop =>
      hide Inv, BeginStop;
      if s.call.NoCall? {
        BeginKeepsInv(s, None);
      }
    case CallStart(id) =>
      hide Inv, BeginStop;
      if s.call.NoCall? {
        BeginKeepsInv(s, Some(id));
      }
    case ReadDone(header) =>
      hide Inv, Launch;
      if s.call.Reading? {
        LaunchKeepsInv(s, header);
      }
  }

  lemma {:induction false} RunKeepsInv(s: State, labels: seq<Label>)
    requires Inv(s)
    ensures Inv(After(s, labels))
    decreases |labels|
  {
    if labels != [] {
      StepKeepsInv(s, labels[0]);
      RunKeepsInv(Next(s, labels[0]), labels[1..]);
    }
  }

  /** Every interleaving of the task, the calls and the clock, whatever the periods. A start
      never misses its task, and it finds the slot taken only after a stop that gave up.
      Whatever `running` reports, a task is alive and has not been told to stop; it is the one
      started for that artifact unless a start found the slot taken. And after a stop there is
      no task left unless it gave up on one. */
  lemma EveryInterleavingIsSafe(labels: seq<Label>)
    ensures var s := After(INITIAL, labels);
            && !s.timedOut
            && (s.busy ==> s.late)
            && (Running(s).Some? ==>
                  s.task.Some? && s.task.value.wake.Some? && !s.stop
                  && (!s.busy ==> s.task.value.run.id == Running(s).value))
            && (s.call.NoCall? && s.current.None? && !s.late ==> s.task.None?)
  {
    RunKeepsInv(INITIAL, labels);
  }

  // --- Periods below the polling window ------------------------------------------------------

  /** The artifact's period is below the stop-poll window of 100 * 20 ms. */
  predicate Short(l: Label) {
    l.ReadDone? && l.header.Probe? ==> l.header.period < 2000
  }

  predicate Prompt(s: State) {
    !s.late && (s.task.Some? ==> s.task.value.period < 2000)
  }

  lemma StepKeepsPrompt(s: State, l: Label)
    requires Inv(s) && Prompt(s) && Short(l)
    ensures Prompt(Next(s, l))
  {
    hide Frozen;
    match l
    case RunTask => hide BeginStop, CallSegment, Launch;
    case CallStop => hide TaskSegment, CallSegment, Launch;
    case CallStart(_) => hide TaskSegment, CallSegment, Launch;
    case RunCall => hide TaskSegment, BeginStop, Launch;
    case ReadDone(_) => hide TaskSegment, CallSegment, BeginStop;
    case Tick => hide TaskSegment, CallSegment, BeginStop, Launch;
  }

  /** With such periods no stop ever gives up, so by `EveryInterleavingIsSafe` no start ever
      finds the slot taken, either. */
  lemma {:induction false} ShortPeriodsStop(s: State, labels: seq<Label>)
    requires Inv(s) && Prompt(s) && forall i :: 0 <= i < |labels| ==> Short(labels[i])
    ensures !After(s, labels).late && !After(s, labels).busy
    decreases |labels|
  {
    if labels != [] {
      StepKeepsInv(s, labels[0]);
      StepKeepsPrompt(s, labels[0]);
      ShortPeriodsStop(Next(s, labels[0]), labels[1..]);
    }
  }

  // --- What stop and start take --------------------------------------------------------------

  /** The stop_inner of a call goes on all along. */
  predicate Waiting(s: State, labels: seq<Label>)
    decreases |labels|
  {
    s.call.Stopping? && (labels == [] || Waiting(Next(s, labels[0]), labels[1..]))
  }

  lemma WaitingStep(s: State, l: Label, began: nat)
    requires Inv(s) && s.call.Stopping? && Next(s, l).call.Stopping?
    requires s.call.wake == began + 20 * s.call.polls
    ensures Next(s, l).call.wake == began + 20 * Next(s, l).call.polls
    ensures s.task.None? ==> Next(s, l).call == s.call && Next(s, l).task.None?
  {
    hide Frozen, Launch, BeginStop;
  }

  lemma {:induction false} WaitingTakes(s: State, labels: seq<Label>, began: nat)
    requires Inv(s) && Waiting(s, labels) && s.call.wake == began + 20 * s.call.polls
    ensures var u := After(s, labels);
            Inv(u) && u.call.Stopping? && u.call.wake == began + 20 * u.call.polls
            && (s.task.None? ==> u.call == s.call && u.task.None?)
    decreases |labels|
  {
    hide Next, Inv;
    if labels != [] {
      StepKeepsInv(s, labels[0]);
      WaitingStep(s, labels[0], began);
      WaitingTakes(Next(s, labels[0]), labels[1..], began);
    }
  }

  lemma PollReturns(u: State, began: nat)
    requires Inv(u) && u.call.Stopping? && u.call.wake == began + 20 * u.call.polls
    ensures var v := Next(u, RunCall);
            && (!v.call.Stopping? ==> began + 20 <= v.now <= began + 2000 && (v.task.Some? ==> v.now == began + 2000))
            && (u.task.None? && u.call.wake <= u.now ==> !v.call.Stopping?)
            && u.now <= began + 2000
            && (v.call.Resetting? <==>
                  !v.call.Stopping? && u.call.taken.Some? && u.call.taken.value.fault == ResetOnStop)
  {
    hide Frozen;
  }

  lemma StopBegins(s: State, begin: Label)
    requires Inv(s) && s.call.NoCall? && (begin.CallStop? || begin.CallStart?)
    ensures var t := Next(s, begin);
            Inv(t) && t.current == None && t.now == s.now
            && (s.alive ==> t.stop && t.call.Stopping? && t.call.wake == s.now + 20 * t.call.polls
                            && t.call.taken == s.current)
            && (!s.alive ==> t.call == if begin.CallStop? then NoCall else Reading(begin.id))
  {
    StepKeepsInv(s, begin);
    hide Frozen;
  }

  /** How long stop takes, in every interleaving: if there is a task it raises STOP and returns
      between 20 and 2000 ms later; it returns with the task alive exactly when it gives up, which
      is 2000 ms after it began, to the millisecond. */
  lemma StopTakes(s: State, begin: Label, labels: seq<Label>)
    requires Inv(s) && s.call.NoCall? && (begin.CallStop? || begin.CallStart?) && s.alive
    requires Waiting(Next(s, begin), labels)
    ensures var u := After(Next(s, begin), labels);
            var v := Next(u, RunCall);
            && u.now <= s.now + 2000
            && (!v.call.Stopping? ==> s.now + 20 <= v.now <= s.now + 2000 && (v.task.Some? ==> v.now == s.now + 2000))
  {
    hide Next, Inv;
    StopBegins(s, begin);
    WaitingTakes(Next(s, begin), labels, s.now);
    PollReturns(After(Next(s, begin), labels), s.now);
  }

  /** And once the task has exited, it returns at most 20 ms later. */
  lemma {:induction false} StopReturnsSoon(s: State, labels: seq<Label>)
    requires Inv(s) && s.task.None? && Waiting(s, labels)
    ensures var u := After(s, labels);
            u.call == s.call && u.task.None? && u.now <= s.call.wake <= s.now + 20
            && (s.call.wake <= u.now ==> !Next(u, RunCall).call.Stopping?)
    decreases |labels|
  {
    hide Frozen, Launch, BeginStop;
    if labels != [] {
      StepKeepsInv(s, labels[0]);
      StopReturnsSoon(Next(s, labels[0]), labels[1..]);
    }
  }

  /** What a start does once it has read the header, whichever it is. */
  lemma LaunchesExactly(s: State, header: Header)
    requires Inv(s) && s.call.Reading?
    ensures var t := Next(s, ReadDone(header));
            if !header.Probe? || header.fault == FailStart then t == s.(call := NoCall)
            else if header.fault == ResetOnStart then t == s.(call := Resetting)
            else
              var run := Run(s.call.id, header.fault);
              t.stop == false && t.period == header.period && t.current == Some(run) && t.now == s.now
              && (s.task.None? ==>
                    t.task == Some(Task(run, header.period, 0, None)) && t.call == Starting(1, s.now + 10))
              && (s.task.Some? ==> t.task == s.task && t.busy && t.call == NoCall)
  {
    hide Frozen;
  }

  predicate Launching(s: State, labels: seq<Label>)
    decreases |labels|
  {
    s.call.Starting? && (labels == [] || Launching(Next(s, labels[0]), labels[1..]))
  }

  /** A start returns successfully 10 ms after it spawned the task, at its second look. */
  lemma {:induction false} StartTakes(s: State, labels: seq<Label>)
    requires Inv(s) && Launching(s, labels)
    ensures var u := After(s, labels);
            var v := Next(u, RunCall);
            u.call == s.call
            && (!v.call.Starting? ==> v.now == s.call.wake && v.call == NoCall && v.alive && v.current == s.current)
    decreases |labels|
  {
    hide Frozen, Launch, BeginStop;
    if labels != [] {
      StepKeepsInv(s, labels[0]);
      StartTakes(Next(s, labels[0]), labels[1..]);
    }
  }

  /** k turns of start's polling loop with no task in sight. */
  function StartTurns(k: nat): seq<Label> {
    if k == 0 then [] else Ticks(START_SLEEP) + [RunCall] + StartTurns(k - 1)
  }

  lemma {:induction false} StartTurnsPass(s: State, k: nat)
    requires s.call.Starting? && !s.alive && s.task.None?
    requires s.call.wake == s.now + 10 && s.call.polls + k <= 100
    ensures After(s, StartTurns(k)) ==
            s.(now := s.now + k * 10, call := Starting(s.call.polls + k, s.now + (k + 1) * 10))
    decreases k
  {
    hide Launch, BeginStop, TaskSegment;
    if k > 0 {
      var t := s.(now := s.now + 10);
      var u := Next(t, RunCall);
      TicksPass(s, 10);
      AfterConcat(s, Ticks(10) + [RunCall], StartTurns(k - 1));
      AfterConcat(s, Ticks(10), [RunCall]);
      assert After(t, [RunCall]) == u;
      StartTurnsPass(u, k - 1);
    }
  }

  lemma LastStartTurn(s: State)
    requires s.call == Starting(100, s.now + 10) && !s.alive && s.task.None?
    ensures After(s, Ticks(10) + [RunCall])
            == s.(now := s.now + 10, call := NoCall, current := None, timedOut := true)
  {
    hide Launch, BeginStop, TaskSegment;
    AfterConcat(s, Ticks(10), [RunCall]);
    TicksPass(s, 10);
    AfterThree(s.(now := s.now + 10), RunCall, RunCall, RunCall);
  }

  /** If the task never ran, start would give up after 1000 ms and forget its artifact. */
  lemma StartGivesUp(s: State, last: nat)
    requires s.call == Starting(1, s.now + 10) && !s.alive && s.task.None? && last == 99
    ensures After(s, StartTurns(last) + (Ticks(10) + [RunCall]))
            == s.(now := s.now + 1000, call := NoCall, current := None, timedOut := true)
  {
    hide Next, StartTurns, After;
    AfterConcat(s, StartTurns(last), Ticks(10) + [RunCall]);
    StartTurnsPass(s, last);
    LastStartTurn(s.(now := s.now + 990, call := Starting(100, s.now + 1000)));
  }

  // --- The bound is exact --------------------------------------------------------------------

  predicate AllPeriods(labels: seq<Label>, period: Period) {
    forall i :: 0 <= i < |labels| ==>
      labels[i].ReadDone? && labels[i].header.Probe? ==> labels[i].header.period == period
  }

  lemma {:induction false} AfterConcat(s: State, a: seq<Label>, b: seq<Label>)
    ensures After(s, a + b) == After(After(s, a), b)
    decreases |a|
  {
    if a == [] {
      assert a + b == b;
    } else {
      assert (a + b)[1..] == a[1..] + b;
      AfterConcat(Next(s, a[0]), a[1..], b);
    }
  }

  function Ticks(n: nat): (l: seq<Label>)
    ensures |l| == n && forall i :: 0 <= i < n ==> l[i] == Tick
  {
    seq(n, _ => Tick)
  }

  /** Time passes freely until something is due. */
  lemma {:induction false} TicksPass(s: State, n: nat)
    requires s.task.Some? ==> s.task.value.wake.Some? && s.now + n <= s.task.value.wake.value
    requires s.call.Stopping? || s.call.Starting? ==> s.now + n <= s.call.wake
    ensures After(s, Ticks(n)) == s.(now := s.now + n)
    decreases n
  {
    if n > 0 {
      assert Ticks(n)[1..] == Ticks(n - 1);
      TicksPass(s.(now := s.now + 1), n - 1);
    }
  }

  /** k more turns of stop's polling loop, with the task asleep throughout. */
  function Turns(k: nat): seq<Label> {
    if k == 0 then [] else Ticks(STOP_SLEEP) + [RunCall] + Turns(k - 1)
  }

  lemma {:induction false} TurnsAreTicks(k: nat, period: Period)
    ensures AllPeriods(Turns(k), period)
  {
    if k > 0 {
      TurnsAreTicks(k - 1, period);
      var head := Ticks(STOP_SLEEP) + [RunCall];
      assert Turns(k) == head + Turns(k - 1);
    }
  }

  lemma {:induction false} TurnsPass(s: State, k: nat)
    requires s.call.Stopping? && s.alive && s.task.Some? && s.task.value.wake.Some?
    requires s.call.wake == s.now + STOP_SLEEP && s.call.polls + k <= STOP_POLLS
    requires s.now + k * STOP_SLEEP <= s.task.value.wake.value
    ensures After(s, Turns(k)) ==
            s.(now := s.now + k * STOP_SLEEP,
               call := s.call.(polls := s.call.polls + k, wake := s.now + (k + 1) * STOP_SLEEP))
    decreases k
  {
    if k > 0 {
      var t := s.(now := s.now + STOP_SLEEP);
      var u := Next(t, RunCall);
      TicksPass(s, STOP_SLEEP);
      AfterConcat(s, Ticks(STOP_SLEEP) + [RunCall], Turns(k - 1));
      AfterConcat(s, Ticks(STOP_SLEEP), [RunCall]);
      assert After(t, [RunCall]) == u;
      TurnsPass(u, k - 1);
    }
  }

  /** `stop`, or the `start` of another artifact. */
  function Begin(next: Option<nat>): Label {
    if next.None? then CallStop else CallStart(next.value)
  }

  /** A run in which stop gives up on a task of the given period: start it, stop it (or start
      another) in the very millisecond it goes back to sleep, and let the caller go first when
      both are due. */
  function LateRun(period: Period, next: Option<nat>): seq<Label>
    requires period >= 2000
  {
    [CallStart(1), ReadDone(Probe(period, NoFault)), RunTask]
    + (Ticks(START_SLEEP) + ([RunCall] + (Ticks(period - START_SLEEP) + [RunTask, Begin(next)]))
    + (Turns(STOP_POLLS - 1) + (Ticks(STOP_SLEEP) + [RunCall])))
  }

  function Asleep(now: nat, last: nat, ticks: nat, period: Period, call: Call): State {
    State(now, Some(Run(1, NoFault)), true, false, last, period,
          Some(Task(Run(1, NoFault), period, ticks, Some(last + period))), call, false, false, false)
  }

  lemma LateStart(period: Period)
    requires period >= 2000
    ensures After(INITIAL, [CallStart(1), ReadDone(Probe(period, NoFault)), RunTask])
            == Asleep(0, 0, 0, period, Starting(1, START_SLEEP))
  {
    var s1 := Next(INITIAL, CallStart(1));
    var s2 := Next(s1, ReadDone(Probe(period, NoFault)));
    var s3 := Next(s2, RunTask);
    AfterThree(INITIAL, CallStart(1), ReadDone(Probe(period, NoFault)), RunTask);
  }

  lemma AfterThree(s: State, a: Label, b: Label, c: Label)
    ensures After(s, [a, b, c]) == Next(Next(Next(s, a), b), c)
    ensures After(s, [a, b]) == Next(Next(s, a), b)
    ensures After(s, [a]) == Next(s, a)
  {
    hide Next;
    assert [a, b, c][1..] == [b, c] && [b, c][1..] == [c] && [a, b][1..] == [b];
    assert After(Next(Next(s, a), b), [c]) == Next(Next(Next(s, a), b), c);
    assert After(Next(s, a), [b, c]) == After(Next(Next(s, a), b), [c]);
    assert After(Next(s, a), [b]) == Next(Next(s, a), b);
  }

  /** One task asleep for a whole period, and a stop that has just begun. */
  function Begun(period: Period, next: Option<nat>): State {
    Asleep(period, period, 1, period, NoCall).(
      current := None, stop := true, call := Stopping(1, period + STOP_SLEEP, Some(Run(1, NoFault)), next))
  }

  lemma LateStop(period: Period, next: Option<nat>)
    requires period >= 2000
    ensures var s := Asleep(0, 0, 0, period, Starting(1, START_SLEEP));
            After(s, Ticks(START_SLEEP) + ([RunCall] + (Ticks(period - START_SLEEP) + [RunTask, Begin(next)])))
            == Begun(period, next)
  {
    var s := Asleep(0, 0, 0, period, Starting(1, START_SLEEP));
    var rest2 := Ticks(period - START_SLEEP) + [RunTask, Begin(next)];
    AfterConcat(s, Ticks(START_SLEEP), [RunCall] + rest2);
    TicksPass(s, START_SLEEP);
    var s1 := s.(now := START_SLEEP);
    AfterConcat(s1, [RunCall], rest2);
    AfterThree(s1, RunCall, RunCall, RunCall);
    var s2 := s1.(call := NoCall);
    assert Next(s1, RunCall) == s2;
    AfterConcat(s2, Ticks(period - START_SLEEP), [RunTask, Begin(next)]);
    TicksPass(s2, period - START_SLEEP);
    AfterThree(s2.(now := period), RunTask, Begin(next), CallStop);
  }

  lemma LateReturn(s: State)
    requires s.call.Stopping? && s.call.polls == 1 && s.call.wake == s.now + STOP_SLEEP
    requires s.call.taken == Some(Run(1, NoFault))
    requires s.alive && s.task.Some? && s.task.value.wake.Some?
    requires s.now + 2000 <= s.task.value.wake.value
    ensures After(s, Turns(STOP_POLLS - 1) + (Ticks(STOP_SLEEP) + [RunCall]))
            == s.(now := s.now + 2000, late := true,
                  call := if s.call.next.Some? then Reading(s.call.next.value) else NoCall)
  {
    AfterConcat(s, Turns(STOP_POLLS - 1), Ticks(STOP_SLEEP) + [RunCall]);
    TurnsPass(s, STOP_POLLS - 1);
    var t := After(s, Turns(STOP_POLLS - 1));
    AfterConcat(t, Ticks(STOP_SLEEP), [RunCall]);
    TicksPass(t, STOP_SLEEP);
    AfterThree(t.(now := t.now + STOP_SLEEP), RunCall, RunCall, RunCall);
  }

  /** At 2000 ms and above some interleaving makes stop return while its task still lives. */
  lemma LongPeriodStopsLate(period: Period, next: Option<nat>)
    requires period >= 2000
    ensures AllPeriods(LateRun(period, next), period)
    ensures After(INITIAL, LateRun(period, next))
            == Begun(period, next).(now := period + 2000, late := true,
                                    call := if next.Some? then Reading(next.value) else NoCall)
  {
    hide Next;
    var head := [CallStart(1), ReadDone(Probe(period, NoFault)), RunTask];
    var mid := Ticks(START_SLEEP) + ([RunCall] + (Ticks(period - START_SLEEP) + [RunTask, Begin(next)]));
    var tail := Turns(STOP_POLLS - 1) + (Ticks(STOP_SLEEP) + [RunCall]);
    assert LateRun(period, next) == head + (mid + tail);
    LateStart(period);
    LateStop(period, next);
    AfterConcat(INITIAL, head, mid + tail);
    AfterConcat(Asleep(0, 0, 0, period, Starting(1, START_SLEEP)), mid, tail);
    LateReturn(Begun(period, next));
    TurnsAreTicks(STOP_POLLS - 1, period);
  }

  /** ... and when it was the start of another artifact that stopped it, that start clears STOP
      and records its artifact before it finds the slot taken: `running` then names an artifact
      that never started, while the old task runs on. */
  lemma LongPeriodMisnames(period: Period)
    requires period >= 2000
    ensures var labels := LateRun(period, Some(2)) + [ReadDone(Probe(period, NoFault))];
            var s := After(INITIAL, labels);
            AllPeriods(labels, period) && s.busy && !s.stop && s.call.NoCall?
            && Running(s) == Some(2) && s.task.Some? && s.task.value.run.id == 1
  {
    var run, read := LateRun(period, Some(2)), ReadDone(Probe(period, NoFault));
    LongPeriodStopsLate(period, Some(2));
    AfterConcat(INITIAL, run, [read]);
    AfterThree(After(INITIAL, run), read, read, read);
  }

  /** `running` names the artifact of the live task. */
  predicate NamesTheTask(s: State) {
    Running(s).Some? ==> s.task.Some? && s.task.value.run.id == Running(s).value
  }

  /** So, for artifacts of one period, the bound below which stop waits for the exit in every
      interleaving is exactly 2000 ms - and so is the one below which no start finds the slot
      taken, and the one below which `running` always names the live task. */
  lemma StopWaitsExactly(period: Period)
    ensures (forall labels: seq<Label> :: AllPeriods(labels, period) ==> !After(INITIAL, labels).late)
            <==> period < 2000
    ensures (forall labels: seq<Label> :: AllPeriods(labels, period) ==> !After(INITIAL, labels).busy)
            <==> period < 2000
    ensures (forall labels: seq<Label> :: AllPeriods(labels, period) ==> NamesTheTask(After(INITIAL, labels)))
            <==> period < 2000
  {
    hide After, Next;
    if period < 2000 {
      forall labels: seq<Label> | AllPeriods(labels, period)
        ensures var s := After(INITIAL, labels); !s.late && !s.busy && NamesTheTask(s)
      {
        ShortPeriodsStop(INITIAL, labels);
        EveryInterleavingIsSafe(labels);
      }
    } else {
      LongPeriodStopsLate(period, None);
      LongPeriodMisnames(period);
    }
  }

  // --- Health --------------------------------------------------------------------------------

  /** What `health` and `running` answer, case by case. */
  lemma AnswersExactly(s: State)
    requires s.last <= s.now
    ensures Running(s) == if s.alive && s.current.Some? then Some(s.current.value.id) else None
    ensures HealthOf(s) ==
            if s.current == None || !s.alive then Unknown
            else if s.current.value.fault == HealthFail then Unhealthy
            else if (s.now - s.last) % 0x1_0000_0000 <= 2000 || (s.now - s.last) % 0x1_0000_0000 <= 3 * s.period then Healthy
            else Unhealthy
  {
    WrappedIsTrueModulo(s);
    hide WrappedElapsed;
  }

  /** n periods of a task that nobody disturbs. */
  function Periods(period: Period, n: nat): seq<Label> {
    if n == 0 then [] else Periods(period, n - 1) + (Ticks(period) + [RunTask])
  }

  /** It counts each of them, and reports progress at the end of each - except that a task with
      the freeze fault stops doing so after its fourth. */
  lemma {:induction false} ProgressExactly(s: State, run: Run, period: Period, n: nat)
    requires s.task == Some(Task(run, period, 0, None)) && !s.stop && s.call.NoCall?
    ensures var made := if run.fault == FreezeAfterStart && n > 4 then 4 else n;
            After(Next(s, RunTask), Periods(period, n))
            == s.(now := s.now + n * period, alive := true, last := s.now + made * period,
                  task := Some(Task(run, period, n, Some(s.now + (n + 1) * period))))
  {
    if n > 0 {
      ProgressExactly(s, run, period, n - 1);
      var t := After(Next(s, RunTask), Periods(period, n - 1));
      AfterConcat(Next(s, RunTask), Periods(period, n - 1), Ticks(period) + [RunTask]);
      AfterConcat(t, Ticks(period), [RunTask]);
      TicksPass(t, period);
      AfterThree(t.(now := t.now + period), RunTask, RunTask, RunTask);
    }
  }

  /** The wrapped difference is the true one modulo 2^32. */
  lemma WrappedIsTrueModulo(s: State)
    requires s.last <= s.now
    ensures WrappedElapsed(s) == (s.now - s.last) % U32
  {
    var a, b := s.now / U32, s.last / U32;
    var x, y := s.now % U32, s.last % U32;
    assert s.now == a * U32 + x && s.last == b * U32 + y;
    var d := s.now - s.last;
    assert d == (a - b) * U32 + (x - y);
    if x >= y {
      ModUnique(d, a - b, x - y);
      ModUnique(x - y, 0, x - y);
    } else {
      ModUnique(d, a - b - 1, x - y + U32);
      ModUnique(x - y, -1, x - y + U32);
    }
  }

  lemma ModUnique(n: int, q: int, r: int)
    requires n == q * U32 + r && 0 <= r < U32
    ensures n % U32 == r
  {
  }

  /** A live probe that has not frozen is Healthy at every instant of every run - whatever its
      period and whatever the 32-bit clock shows - unless its fault is to report otherwise, or a
      start has found the task slot taken. */
  lemma LiveProbeIsHealthy(labels: seq<Label>)
    ensures var s := After(INITIAL, labels);
            Running(s).Some? && !s.busy ==>
              s.task.Some? && (!s.current.value.fault.HealthFail? && !Frozen(s.task.value) ==> HealthOf(s) == Healthy)
  {
    RunKeepsInv(INITIAL, labels);
    var s := After(INITIAL, labels);
    if s.alive {
      WrappedIsTrueModulo(s);
    }
  }

  /** A frozen probe reads Unhealthy exactly while the time since its last progress, modulo 2^32,
      is past the window: from then on until the clock has gone all the way round. */
  lemma FrozenProbeHealth(labels: seq<Label>)
    ensures var s := After(INITIAL, labels);
            Running(s).Some? && !s.busy && s.task.Some? && Frozen(s.task.value) ==>
              (HealthOf(s) == Unhealthy <==> (s.now - s.last) % U32 > Window(s.task.value.period))
              && (Window(s.task.value.period) < s.now - s.last < U32 ==> HealthOf(s) == Unhealthy)
  {
    RunKeepsInv(INITIAL, labels);
    var s := After(INITIAL, labels);
    WrappedIsTrueModulo(s);
  }

  /** The two above for periods below the polling window, where no start finds the slot taken. */
  lemma ShortProbeHealth(labels: seq<Label>)
    requires forall i :: 0 <= i < |labels| ==> Short(labels[i])
    ensures var s := After(INITIAL, labels);
            Running(s).Some? && !s.current.value.fault.HealthFail? ==>
              s.task.Some?
              && (HealthOf(s) == Unhealthy <==>
                    Frozen(s.task.value) && (s.now - s.last) % U32 > Window(s.task.value.period))
  {
    hide After, Next;
    ShortPeriodsStop(INITIAL, labels);
    EveryInterleavingIsSafe(labels);
    LiveProbeIsHealthy(labels);
    FrozenProbeHealth(labels);
  }

  /** Only a task's own segment moves it. */
  lemma OthersLeaveTheTask(s: State, l: Label)
    requires s.task.Some? && !l.RunTask?
    ensures Next(s, l).task == s.task && Next(s, l).last == s.last
  {
    hide TaskSegment;
    match l
    case CallStop => hide Launch, CallSegment;
    case CallStart(_) => hide Launch, CallSegment;
    case RunCall => hide Launch, BeginStop;
    case ReadDone(_) => hide BeginStop, CallSegment;
    case _ =>
  }

  lemma FrozenStep(s: State, l: Label)
    requires s.task.Some? && Frozen(s.task.value) && s.task.value.wake.Some?
    ensures var t := Next(s, l);
            t.task.Some? ==> t.last == s.last && t.task.value.wake.Some?
                             && t.task.value.run == s.task.value.run && Frozen(t.task.value)
  {
    if l.RunTask? {
      hide BeginStop, CallSegment, Launch;
      assert Next(s, l) == if TaskDue(s) then TaskSegment(s, s.task.value) else s;
    } else {
      hide Next;
      OthersLeaveTheTask(s, l);
    }
  }

  /** The task of s is there all along: a new one is only spawned once the slot was empty. */
  predicate Lasts(s: State, labels: seq<Label>)
    decreases |labels|
  {
    s.task.Some? && (labels == [] || Lasts(Next(s, labels[0]), labels[1..]))
  }

  /** Once frozen, a task never reports progress again for as long as it lives. */
  lemma {:induction false} FrozenStaysFrozen(s: State, labels: seq<Label>)
    requires s.task.Some? && Frozen(s.task.value) && s.task.value.wake.Some?
    requires Lasts(s, labels)
    ensures var t := After(s, labels);
            t.task.Some? && t.task.value.run == s.task.value.run && Frozen(t.task.value) && t.last == s.last
    decreases |labels|
  {
    hide Next;
    if labels != [] {
      FrozenStep(s, labels[0]);
      FrozenStaysFrozen(Next(s, labels[0]), labels[1..]);
    }
  }

  /** So it stays Unhealthy: in any run, from the end of its window after the last progress it
      made before it froze, until 2^32 ms after it. */
  lemma FrozenStaysUnhealthy(labels: seq<Label>, more: seq<Label>)
    requires var s := After(INITIAL, labels);
             s.task.Some? && Frozen(s.task.value) && s.task.value.wake.Some? && Lasts(s, more)
    ensures var s, t := After(INITIAL, labels), After(INITIAL, labels + more);
            (Running(t).Some? && !t.busy && t.task.Some?
             && Window(t.task.value.period) < t.now - s.last < U32) ==> HealthOf(t) == Unhealthy
  {
    hide After, Next;
    AfterConcat(INITIAL, labels, more);
    FrozenStaysFrozen(After(INITIAL, labels), more);
    FrozenProbeHealth(labels + more);
  }
}
