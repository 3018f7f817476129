# The Embewi ESP32 agent, verified

A Dafny model of the parts of the Embewi agent whose correctness is not visible in one function:
how a device is installed for the first time and updated afterwards while power may fail after any
durable write, what its stored records can and cannot say, and the protocols that run on top of
them. Each source file has its own module; loops and updates in place are methods proved against a
specification function, and the laws are lemmas about those functions.

| module | models |
|---|---|
| `DurableState`, `Provisioning`, `AgentBoot`, `DeviceRuns` | what survives a power cut; the init image and its form; the agent's boot; the device over time |
| `AgentCodec`, `AgentStore` | the identity record and its credentials |
| `SortedMap`, `RuntimeCodec`, `RuntimeConfig` | the runtime configuration: byte-ordered map, codec, merge, boot-time snapshot |
| `ProbeRuntime` | the probe Workload: a task and start/stop calls over shared flags |
| `Crc32`, `Ewbt` | the boot records and the CRC they rest on |
| `Heartbeat` | the reconnecting heartbeat client |
| `Partitions` | the partition table checker |
| `Pattern` | the streaming test artifact |
| `WsFrames` | the mock core's WebSocket reader |
| `Decimal`, `ConfigSpace`, `Bytes`, `Octets`, `Utf8`, `Wrappers` | build-time numbers, the store's interface, shared types |

`dafny verify dfyconfig.toml` checks all of it.

## What is assumed

- The configuration store (another repository) is atomic: a read returns the last committed bytes
  or fails, a commit lands whole or leaves the old bytes, and the store picks the generation. Which
  reads and commits fail is arbitrary everywhere.
- The bootloader, the OTA metadata service, the upload service and the lifecycle record (also
  another repository) enter only through `DurableState` and the upload/activate steps of
  `DeviceRuns`: an untried candidate gets one boot, a tried one that was never confirmed is given
  up, confirmation writes the boot entry before the metadata, an upload withdraws the staged record
  before it overwrites the inactive slot and publishes only a digest-checked image, activation
  marks the staged record before it arms the slot, and `ready_for_agent` may be repeated. The step
  that makes `ready_for_agent` or `production` durable is one atomic write.
- Two images with the same digest are the same image.
- Requests that change the configuration come one at a time, as do start/stop calls of the probe.
- Timers are ideal in `ProbeRuntime` (nothing due is skipped, but what is due in the same
  millisecond runs in any order); in `Heartbeat` they are only never early.

A power cut is modelled as cutting the list of durable writes of an operation after any of them.
A watchdog reset is a power cut.

## Findings

- `stop` is sure to have waited for the task exactly when the period is below 2000 ms. At exactly
  2000 ms, the length of the polling window, an order of events exists in which it gives up. For
  every period from there on, a `start` that follows clears STOP and records its artifact before it
  finds the task slot taken: `running` then names an artifact that never started, while the old
  task runs on. Below 2000 ms neither can happen.
- The confirmation page shows a blank token if the one read of it fails, although a token was
  stored; the stored one is kept.
- `rotate_token` reports a failed write when only the read-back failed; the new token is then in
  force.
- `embewi-init` can find itself in Production. Whether it can is exactly a matter of which images a
  device that can be installed is sent as updates: it cannot, in any run, if no init image is among
  them, and otherwise some run leads there. Nothing in this repository refuses one. Under the
  assumptions above the upload need not even be finished: overwriting a slot that is already armed
  is enough.
- The partition checker looks at the last row of a name only. It accepts a table with a second,
  different `nvs` row in front of the right one; among accepted tables the strict reading of
  "exactly the five Agent partitions" holds exactly when no Agent name repeats.
- A boot record write cut after 28 bytes can read as committed, exactly when the checksum bytes
  still missing are 0xFF; it is then the record that was meant.
- `split_host_port` takes a whole authority that starts with a colon (":443") for a host name.
- The mock core yields an empty frame whose mask was cut off by the end of the stream. It is the
  only truncated frame it yields.
- `image` on a file shorter than the offset writes the sectors at the end of the file. The image
  decodes at the offset as what was asked for, for everything that can be asked for, exactly when
  the file reaches the offset.

## Model

| member | source | states |
|---|---|---|
| DeviceRuns.InstallationIsSafe | src/http/config.rs:137-236 | at every instant of every run from the factory, with power cut after any write and whatever is uploaded: ReadyForAgent and Production imply a token, a valid hardware record, Wi-Fi and TLS; what is staged was digest-checked; services run only on a confirmed image in Production |
| DeviceRuns.LifecycleIsMonotone | src/bin/init.rs:123-141 | between any two instants of any run of any device the lifecycle never moves back |
| DeviceRuns.InstallationRecovers | src/bin/init.rs:132-137 | wherever failures and power cuts left an installation, at most four good events (boot, Wi-Fi, form, boot) bring it to Production |
| DeviceRuns.RemainingArrives | src/bin/init.rs:132-137 | the same from any state that satisfies the invariant |
| DeviceRuns.InitStaysOutExactly | src/bin/init.rs:138-140 | from the factory, some run whose updates are all of the given kinds reaches init's panic arm if and only if the init image is one of the kinds and the first agent can be installed (its digest is the expected one, the identity record can be read) |
| DeviceRuns.InitArmNeedsInitUpload | src/bin/init.rs:138-140 | in particular a run that reaches it has uploaded an init image |
| DeviceRuns.InitUploadReachesTheArm | src/bin/init.rs:138-140 | on any device in Production, an init image that is uploaded and activated starts at the next power-on |
| DeviceRuns.OverwrittenSlotReachesTheArm | src/composition/ota.rs:119-133 | so does one whose upload was cut before it was published, if it overwrote an armed slot |
| DeviceRuns.NeverInstalled | src/http/config.rs:184-199 | a device with another image in slot B, or a corrupt identity record, never gets to Production, whatever happens |
| DeviceRuns.StepForward | src/bin/init.rs:123-141 | no event moves the lifecycle of any device back |
| DeviceRuns.PrerequisitesAreDurable | src/bin/main.rs:308-312 | from ReadyForAgent on, the four prerequisites fail only if one of the four stores cannot be read |
| DeviceRuns.StepKeeps | src/bin/main.rs:294-370 | every event keeps the invariant of a device that is only sent updates of the given kinds - all kinds, if one likes |
| DeviceRuns.RunKeeps | src/bin/main.rs:294-370 | so does every run |
| DeviceRuns.PowerUpKeeps | src/bin/init.rs:123-158 | a power-on into either image keeps it, cut after any of its writes |
| DeviceRuns.SubmissionSound | src/http/config.rs:137-236 | each durable state along a form submission is sound |
| DeviceRuns.SettingsSound | src/http/config.rs:160-181 | when the settings part succeeds there is a non-empty token and a valid hardware record; along it nothing else moves |
| DeviceRuns.LaunchSound | src/http/config.rs:184-230 | ReadyForAgent is reached only over a staged image that was checked |
| DeviceRuns.BootRunSound | src/bin/main.rs:294-370 | each durable state along an agent boot is sound |
| DeviceRuns.ConfirmationSound | src/ota.rs:151-193 | each durable state along a confirmation is sound; when it goes on, nothing is pending |
| DeviceRuns.UploadSound | src/composition/ota.rs:119-159 | an update upload of any image only touches the inactive slot and never leaves a staged record unchecked |
| DeviceRuns.ActivateSound | src/composition/ota.rs:85-95 | activation keeps the confirmed image and Production |
| DeviceRuns.RunLeavesFactoryAgent | src/bin/init.rs:132-137 | until Production slot B keeps the factory's bytes, and an identity record that decodes never stops decoding |
| DeviceRuns.ArmedBootArrives | src/bin/main.rs:335-351 | with the first agent armed, or already confirmed, one good boot reaches Production |
| DeviceRuns.InitPathArms | src/http/config.rs:182-230 | back in init, one good submission arms the first agent |
| Provisioning.InitDevice.StartDevice | src/bin/init.rs:123-158 | start-up writes exactly: Provisioning if it was Factory, then a TLS identity if there was none; it serves the network only after both |
| Provisioning.StartsExactly | src/bin/init.rs:123-158 | what init needs to serve, what it leaves in the records, and that the lifecycle is durable before the TLS identity |
| Provisioning.InitDevice.Post | src/http/config.rs:129-241 | the form handler answers, writes and stops exactly as `Submission` says, write by write; after a success the hardware record is the magic and the form's pin |
| Provisioning.InitDevice.SaveSettings | src/http/config.rs:160-181 | hardware record first, holding the form's pin, identity second, and nothing else |
| Provisioning.InitDevice.StageAndActivate | src/http/config.rs:182-238 | stage, ReadyForAgent, mark, arm, in this order, each only after the one before |
| Provisioning.InitDevice.StagePreloaded | src/composition/ota.rs:177-191 | publishes exactly when the other slot hashes to the expected digest |
| Provisioning.InitDevice.Activate | src/composition/ota.rs:193-197 | marks the staged record, then arms its slot |
| Provisioning.RepliesExactly | src/http/config.rs:137-230 | each of the six refusals exactly when it is given, said of the form, the records and the calls: the guards in their order |
| Provisioning.SubmissionInOrder | src/http/config.rs:160-230 | write number i of a submission, for each i: hardware with the pin, identity with the texts, staged record of the spare image, lifecycle, mark, boot entry |
| Provisioning.SubmissionStops | src/http/config.rs:160-230 | how many of the six writes each answer stands for |
| Provisioning.ConfirmedLeaves | src/http/config.rs:162-239 | the whole durable state after a success: the pin's bytes, the two texts and the kept or fresh token, ReadyForAgent, the spare image staged, marked and armed |
| Provisioning.SavesExactly | src/http/config.rs:162-181 | when the settings are saved, and what each of the two records holds then |
| Provisioning.GoodSubmission | src/http/config.rs:129-241 | with every call getting through, a submission succeeds exactly for an editable lifecycle, an allowed pin, a verified image, a readable identity record and texts within limits; and what it leaves |
| Provisioning.RetryConverges | src/http/config.rs:160-239 | however often whatever forms were sent before, failing anywhere and cut after any write, one good submission ends in the same durable state and shows the same token as a single uninterrupted one |
| Provisioning.TokenIsKeptAndShown | src/http/config.rs:182-239 | a stored token survives every submission and every cut; a success shows the stored token, or a blank if that one read failed |
| Provisioning.TokenWasDrawn | src/agent.rs:176-178 | a token that appears on the way is one some submission drew |
| Provisioning.SubmissionOnTheWay | src/http/config.rs:137-236 | no write of a submission touches anything but what the form is for, nor an existing token |
| AgentBoot.AgentDevice.OnBoot | src/ota.rs:198-230 | disposition, agent state and the promotion of the staged record, for the four boot statuses |
| AgentBoot.AgentDevice.ConfirmPending | src/ota.rs:151-193 | the self-check's three outcomes and the two confirmation writes, in order, with the resulting state |
| AgentBoot.AgentDevice.RejectPending | src/ota.rs:232-235 | gives the candidate up, or leaves that to the bootloader, and resets |
| AgentBoot.AgentDevice.Admit | src/bin/main.rs:335-370 | the lifecycle match: what is confirmed, rejected or written, and how it ends |
| AgentBoot.AgentDevice.BootUp | src/bin/main.rs:294-370 | the whole boot writes, ends and sets the agent state exactly as `BootRun` says |
| AgentBoot.PrerequisitesExactly | src/bin/main.rs:308-312 | the four prerequisites, read off the durable records |
| AgentBoot.EndsExactly | src/bin/main.rs:294-370 | which boots end in a reset, which in a panic |
| AgentBoot.StateExactly | src/ota.rs:151-230 | the agent state each boot ends in: Rollback, Failed, PendingVerify, Degraded when only the bookkeeping failed, else Running |
| AgentBoot.LeavesExactly | src/ota.rs:151-235 | the whole durable state each boot leaves: image confirmed, given up or neither, staged record promoted or kept, Production exactly where the services start |
| AgentBoot.WritesInOrder | src/bin/main.rs:335-351 | confirmation before promotion before Production |
| AgentBoot.ConfirmedExactly | src/bin/main.rs:308-370 | a pending image is confirmed if and only if it is accounted for, the lifecycle is readable and ReadyForAgent or Production, all prerequisites hold, the Workload can run, the self-check confirms and the confirmation lands |
| AgentBoot.StartedExactly | src/bin/main.rs:308-379 | the services start if and only if those conditions hold where they apply and Production can be written |
| AgentBoot.ServicesRunValidated | src/heartbeat.rs:256-259 | once services run, nothing is pending, Production is durable, the state is Running or Degraded, and so `ota_validated` is true |
| AgentBoot.ProductionAfterConfirmation | src/bin/main.rs:336-351 | Production is never written over an image that is not confirmed by then |
| AgentBoot.CutAfterConfirmationConverges | src/bin/main.rs:345-351 | power lost between confirmation and the Production write: the next boot ends in the same durable state and agent state |
| AgentStore.SaveExactly | src/agent.rs:164-182 | when a save succeeds, and that it stores the two texts with the presented, else the existing, else a fresh token; a failure stores nothing |
| AgentStore.LoadsExactly | src/agent.rs:105-111 | what a read makes of each content of the store |
| AgentStore.AuthorizedExactly | src/agent.rs:191-197 | exactly the stored token is accepted, and nothing when there is none |
| AgentStore.RotateExactly | src/agent.rs:217-230 | a rotation reports success exactly when the new token is stored and was read back; it changes nothing but the token |
| AgentStore.RotationAuthorizesTheNewToken | src/agent.rs:191-197 | after a reported rotation exactly the new token is accepted |
| AgentStore.RunKeepsCredentials | src/agent.rs:154-182 | over every run of saves and rotations a token, once there, is there for good, and a corrupt record is never overwritten |
| AgentStore.RunKeepsTheOtherHalf | src/agent.rs:217-230 | rotations never touch the identity; saves without a presented token never touch an existing token |
| AgentStore.StepKeepsCredentials | src/agent.rs:164-182 | the same for one call |
| AgentStore.TokensAreDistinct | src/agent.rs:144-152 | two generated tokens are equal only if the sixteen random bytes were |
| AgentStore.GenerateToken | src/agent.rs:144-152 | the loop builds the 32 hex digits of the entropy |
| AgentStore.TokenSpells | src/agent.rs:148-150 | digit by digit, the token spells the entropy in lower-case hexadecimal |
| AgentStore.Agent.Load | src/agent.rs:105-111 | no record reads as the default, a record that does not decode as an error |
| AgentStore.Agent.SaveIdentity | src/agent.rs:164-182 | result and stored bytes are those of `Saved` |
| AgentStore.Agent.RotateToken | src/agent.rs:217-230 | result and stored bytes are those of `Rotated`, read-back included |
| AgentCodec.Encode | src/agent.rs:46-73 | the pushes build exactly the record |
| AgentCodec.RecordLayout | src/agent.rs:64-72 | the record's bytes, field by field |
| AgentCodec.Bijection | src/agent.rs:45-97 | bytes decode to a configuration if and only if it encodes to them |
| AgentCodec.EncodeFailsExactly | src/agent.rs:47-62 | encoding fails if and only if a length limit is exceeded; a record has at most 330 bytes, so the budget check never fires |
| RuntimeConfig.Config.New | src/runtime_config.rs:121-138 | the active snapshot is what the store holds, or the error it gives |
| RuntimeConfig.Config.Current | src/runtime_config.rs:148-157 | the stored generation and map, generation 0 and the empty map when there is none |
| RuntimeConfig.Config.Generation | src/runtime_config.rs:159-167 | the stored generation, the active one when the store cannot be read |
| RuntimeConfig.Config.Apply | src/runtime_config.rs:182-207 | result and stored bytes are those of `Applied` |
| RuntimeConfig.Merge | src/runtime_config.rs:184-196 | the loop yields the merged map, and the change flag holds exactly when it differs from the old one |
| RuntimeConfig.MergedIsOverride | src/runtime_config.rs:179-196 | as maps, merging is pointwise override: valid values replace, valid empty values delete, everything else is ignored |
| RuntimeConfig.MergeOutcome | src/runtime_config.rs:198-207 | nothing changes iff the override is the old map; encoding fails iff it is over budget |
| RuntimeConfig.ApplyIsOverride | src/runtime_config.rs:182-207 | `apply`, result and stored record, said on maps alone |
| RuntimeConfig.PushDecides | src/runtime_config.rs:186-196 | a push one key at a time, with the limits in figures: who is replaced, who removed, who left alone |
| RuntimeConfig.CurrentExactly | src/runtime_config.rs:148-157 | what a read makes of each content of the store |
| RuntimeConfig.ApplyErrors | src/runtime_config.rs:182-207 | for each of the three errors exactly when it is returned, and that the record is untouched after it |
| RuntimeConfig.ReapplyCommitsNothing | src/runtime_config.rs:198-200 | pushing the same data again commits nothing and returns the same generation |
| RuntimeConfig.RunStaysHealthy | src/runtime_config.rs:56-70 | over every run of pushes and reboots the record stays readable and in budget, with valid keys, non-empty values and at most 510 entries |
| RuntimeConfig.EmptyStoreIsHealthy | src/runtime_config.rs:131-135 | which holds of the empty store |
| RuntimeConfig.ActiveIsTheBootRecord | src/runtime_config.rs:119-146 | the active map and generation are those stored at the last boot, whatever is pushed since |
| RuntimeCodec.Encode | src/runtime_config.rs:56-82 | both loops of `encode`: the exact bytes, or None |
| RuntimeCodec.Measure | src/runtime_config.rs:57-67 | the checking loop finds an entry that does not fit, or the exact length |
| RuntimeCodec.Emit | src/runtime_config.rs:72-81 | the writing loop emits the header and every entry |
| RuntimeCodec.Decode | src/runtime_config.rs:84-116 | the offset loop accepts and builds exactly what the recursive parse does |
| RuntimeCodec.DecodeItems | src/runtime_config.rs:89-115 | the same for the loop on its own |
| RuntimeCodec.ReadItemAt | src/runtime_config.rs:93-111 | one entry read by offsets is one entry read from the rest |
| RuntimeCodec.RoundTrip | src/runtime_config.rs:56-116 | whatever encodes decodes to itself |
| RuntimeCodec.EncodesExactly | src/runtime_config.rs:52-81 | which maps encode, with the limits in figures, and the record's bytes entry by entry |
| RuntimeCodec.DecodesExactly | src/runtime_config.rs:84-116 | exactly the records of storable entries with distinct keys decode, in any order, each key to its value |
| RuntimeCodec.Reencode | src/runtime_config.rs:56-116 | whatever decodes within the budget, in any key order, re-encodes at the same length and decodes to the same map |
| RuntimeCodec.DecodedAccounts | src/runtime_config.rs:84-116 | a decoded record is sorted, every entry fits, and its length and count account for every byte |
| RuntimeCodec.CountBound | src/runtime_config.rs:57-70 | how many entries a record within the budget can have |
| SortedMap.Canonical | src/runtime_config.rs:56-75 | two key-sorted lists that stand for one map are one list |
| SortedMap.LessIsLexicographic | src/runtime_config.rs:56-75 | the key order is the byte-wise lexicographic one |
| SortedMap.SortedIsAscending | src/runtime_config.rs:75-75 | entries are kept, and written, in that order |
| SortedMap.InsertIsUpdate | src/runtime_config.rs:193-193 | inserting into the sorted list is updating the map |
| SortedMap.RemoveIsDelete | src/runtime_config.rs:191-191 | removing from it is deleting from the map |
| ProbeRuntime.Statics.ProbeTask | src/workload/probe_runtime.rs:37-54 | the task from one await to the next |
| ProbeRuntime.Statics.StopInner | src/workload/probe_runtime.rs:66-85 | stop up to its first await |
| ProbeRuntime.Statics.FinishStop | src/workload/probe_runtime.rs:76-84 | the end of stop, resetting device included |
| ProbeRuntime.Statics.Poll | src/workload/probe_runtime.rs:70-75 | one turn of the polling loops of stop and start |
| ProbeRuntime.Statics.StartWith | src/workload/probe_runtime.rs:93-121 | start once the header has been read, every early return included |
| ProbeRuntime.EveryInterleavingIsSafe | src/workload/probe_runtime.rs:36-148 | in every interleaving, whatever the periods: start never misses its task, it finds the slot busy only after a stop that gave up, and until then what `running` names is the live task, not told to stop; a stop that did not give up leaves no task |
| ProbeRuntime.ShortPeriodsStop | src/workload/probe_runtime.rs:65-78 | with periods below the polling window no stop gives up and no start finds the slot busy, in any interleaving |
| ProbeRuntime.StepKeepsInv | src/workload/probe_runtime.rs:36-121 | the timing invariant behind it is kept by every segment and every tick, whatever the periods |
| ProbeRuntime.LongPeriodStopsLate | src/workload/probe_runtime.rs:70-78 | for every period of 2000 ms or more, an interleaving in which stop returns while its task lives, and the state it ends in |
| ProbeRuntime.LongPeriodMisnames | src/workload/probe_runtime.rs:107-111 | for the same periods, one in which a start finds the slot busy and `running` names its artifact while the old task runs on with STOP cleared |
| ProbeRuntime.StopWaitsExactly | src/workload/probe_runtime.rs:65-148 | three properties hold in every interleaving if and only if the period is below 2000 ms: stop waits for the exit, no start finds the slot busy, `running` names the live task |
| ProbeRuntime.StopTakes | src/workload/probe_runtime.rs:68-78 | in every interleaving stop returns 20 to 2000 ms after it began, and with the task alive only at 2000 ms to the millisecond |
| ProbeRuntime.StopReturnsSoon | src/workload/probe_runtime.rs:70-75 | once the task has exited stop returns within 20 ms |
| ProbeRuntime.LaunchesExactly | src/workload/probe_runtime.rs:93-112 | what start does with each header it may read |
| ProbeRuntime.StartTakes | src/workload/probe_runtime.rs:113-118 | a start that spawned its task returns successfully 10 ms later |
| ProbeRuntime.StartGivesUp | src/workload/probe_runtime.rs:113-120 | without a task it would give up after 1000 ms and forget the artifact |
| ProbeRuntime.LiveProbeIsHealthy | src/workload/probe_runtime.rs:127-141 | a live probe of any period that has not frozen is Healthy at every instant of every run, across any number of clock wraps, as long as no start found the slot busy |
| ProbeRuntime.FrozenProbeHealth | src/workload/probe_runtime.rs:127-141 | a frozen one, of any period, is Unhealthy exactly while the elapsed time modulo 2^32 is past the window |
| ProbeRuntime.ShortProbeHealth | src/workload/probe_runtime.rs:127-141 | with periods below the polling window, and no injected health fault, a running probe is Unhealthy exactly if it is frozen and past its window |
| ProbeRuntime.FrozenStaysFrozen | src/workload/probe_runtime.rs:44-48 | once frozen a task never reports progress again, over any run it lives through |
| ProbeRuntime.FrozenStaysUnhealthy | src/workload/probe_runtime.rs:127-141 | so it stays Unhealthy over any run, from the end of its window until 2^32 ms after its last progress |
| ProbeRuntime.WrappedIsTrueModulo | src/workload/probe_runtime.rs:136-136 | the wrapping subtraction of the two cut clocks is the true difference modulo 2^32 |
| ProbeRuntime.AnswersExactly | src/workload/probe_runtime.rs:127-148 | `health` and `running` case by case, with the window in figures |
| ProbeRuntime.ProgressExactly | src/workload/probe_runtime.rs:40-48 | a task left alone reports progress at the end of each period, one with the freeze fault at the end of its first four |
| ProbeRuntime.Window | src/workload/probe_runtime.rs:135-135 | the window arithmetic does not overflow 32 bits |
| Ewbt.Make | scripts/ewbt-otadata.py:39-50 | the buffer it returns, byte range by byte range: numbers, magic, version, both checks and the bytes they are taken over; packing fails exactly on integers outside 32 bits |
| Ewbt.Assemble | scripts/ewbt-otadata.py:41-50 | the range assignments lay out every field, and leave the rest erased |
| Ewbt.EntryIsLaidOut | scripts/ewbt-otadata.py:40-50 | every entry has that layout |
| Ewbt.LaidOutIsEntry | scripts/ewbt-otadata.py:40-50 | and no other 32 bytes have it |
| Ewbt.DecodeOfEntry | scripts/ewbt-otadata.py:53-61 | an entry reads back as what was written, committed or not |
| Ewbt.DecodeIsExact | scripts/ewbt-otadata.py:53-61 | committed or body-only is reported if and only if the 32 bytes have that layout, with a legal state and sequence; blank, and the exception, exactly when |
| Ewbt.TornIsNeverAnotherEntry | scripts/ewbt-otadata.py:39-61 | a write cut at any byte never reads as another entry |
| Ewbt.TornCommittedExactly | scripts/ewbt-otadata.py:39-61 | it reads as committed exactly past byte 28 with only 0xFF bytes missing; never at 28 bytes or fewer |
| Ewbt.OtherCommitWord | scripts/ewbt-otadata.py:46-47 | with any other commit word nothing is committed |
| Ewbt.ChangedSequence | scripts/ewbt-otadata.py:49-49 | a changed sequence field is always noticed |
| Ewbt.ChangedState | scripts/ewbt-otadata.py:40-40 | so is a changed state field |
| Ewbt.Image | scripts/ewbt-otadata.py:80-88 | the two slice assignments produce `Imaged`; nothing is written back if packing fails |
| Ewbt.ImageReadsBack | scripts/ewbt-otadata.py:80-88 | both sectors decode to what was asked for where they were put, at the offset or at the end of a shorter file, the rest of both is erased, and the rest of the file is as it was |
| Ewbt.ImageReadsBackExactly | scripts/ewbt-otadata.py:71-88 | the image decodes at the offset as what was asked for, for all sectors that can be asked for, if and only if the file reaches the offset |
| Ewbt.ShortFileMisreads | scripts/ewbt-otadata.py:82-87 | in any shorter file an entry with sequence 1 is not found at the offset |
| Crc32.WordCrcInjective | scripts/ewbt-otadata.py:35-36 | the CRC as called here tells any two 4-byte messages apart |
| Crc32.WordCrcSurjective | scripts/ewbt-otadata.py:35-36 | and every value is the CRC of one |
| Crc32.OnlyZeroLooksErased | scripts/ewbt-otadata.py:35-36 | only the word 0 has the CRC 0xFFFFFFFF |
| Crc32.OneWordChanged | scripts/ewbt-otadata.py:40-40 | two messages that differ in one aligned word have different CRCs |
| Crc32.PolynomialValue | scripts/ewbt-otadata.py:35-36 | the polynomial is 0xEDB88320, that of section 8 of RFC 1952 |
| Crc32.CrcIsTheRfcs | scripts/ewbt-otadata.py:35-36 | for any bytes and initial value the CRC is what the table-driven sample program in section 8 of RFC 1952 computes |
| Heartbeat.Client.Run | src/heartbeat.rs:95-150 | for any script of answers, what the two loops do with it is a legal trace |
| Heartbeat.Client.RunSession | src/heartbeat.rs:159-221 | one connection, from connect to the sleep that follows its end |
| Heartbeat.Client.Beat | src/heartbeat.rs:188-220 | one turn: both checks, send, drain, and the way out after each |
| Heartbeat.AnswersFixTheTrace | src/heartbeat.rs:95-221 | legal traces answered alike are equal up to any length: nothing is left open about what is asked and when, and a longer script only continues the trace |
| Heartbeat.NextRequest | src/heartbeat.rs:113-220 | what follows each request and answer, and how long each takes |
| Heartbeat.NextInSession | src/heartbeat.rs:188-201 | while a connection is open it is kept: each of the two reads goes on with it or closes it, and nothing else is dialled |
| Heartbeat.NextOutside | src/heartbeat.rs:115-148 | without one the client sleeps, or dials exactly the host its ctrl_url names |
| Heartbeat.SendsAndDrainsAlternate | src/heartbeat.rs:203-218 | every drain follows a good send, every good send is followed by a drain |
| Heartbeat.EverySendIsChecked | src/heartbeat.rs:188-203 | every send uses a connection that is still good, to the host its ctrl_url names, right after ctrl_url and token were re-read and equal those it was opened with |
| Heartbeat.NoSendAfterTheEnd | src/heartbeat.rs:207-216 | after a failed drain or one that ended keep-alive, nothing is sent before a new connection |
| Heartbeat.SendsArePaced | src/heartbeat.rs:130-150 | any two sends are at least PERIOD apart, even across reconnects |
| Heartbeat.WindowIsBounded | src/heartbeat.rs:149-149 | any window of length T holds at most T / 5 s + 1 sends |
| Heartbeat.HostIsFound | src/heartbeat.rs:81-89 | a host is found exactly for a non-empty authority; it is not empty and has no slash; the port fits 16 bits |
| Heartbeat.UrlWithPort | src/heartbeat.rs:81-88 | scheme://host:text with or without a path gives that host, and the port of the text whatever the text is |
| Heartbeat.PortExactly | src/heartbeat.rs:85-85 | the port of a text: its number if it is one below 2^16, with or without a plus sign, and 443 otherwise |
| Heartbeat.UrlWithoutPort | src/heartbeat.rs:81-88 | scheme://host with or without a path gives that host and 443 |
| Heartbeat.UrlWithoutScheme | src/heartbeat.rs:82-88 | both without a scheme |
| Heartbeat.FindExactly | src/heartbeat.rs:82-84 | a split is made at the first place where the whole separator stands |
| Heartbeat.HostOf | src/heartbeat.rs:84-88 | host and port are what stands before and behind the first colon, a port that is no number below 2^16 being 443; an authority that starts with a colon, or has none, is the host whole |
| Heartbeat.PortIsNumber | src/heartbeat.rs:85-85 | a port is read exactly from a decimal number below 2^16, a plus sign allowed, and as that number |
| Partitions.Check | scripts/check-partitions.py:57-121 | crashes exactly on the listed inputs, otherwise reports every fault and nothing else, and accepts when there is none |
| Partitions.RowErrors | scripts/check-partitions.py:68-78 | the nested loops find exactly the row faults |
| Partitions.Table | scripts/check-partitions.py:80-80 | the dictionary keeps the last row of each name |
| Partitions.AgentErrors | scripts/check-partitions.py:81-84 | exactly the Agent partitions that differ from the reference |
| Partitions.WorkloadErrors | scripts/check-partitions.py:86-98 | exactly the Workload faults |
| Partitions.ImageErrors | scripts/check-partitions.py:100-111 | exactly the image faults, and the missing slot or empty image that crash it |
| Partitions.AcceptedIsLayout | scripts/check-partitions.py:68-121 | a table is accepted if and only if it follows the layout rules, which are written out in figures |
| Partitions.RowReports | scripts/check-partitions.py:68-78 | each row report exactly when it is made, in figures |
| Partitions.WorkloadReports | scripts/check-partitions.py:86-98 | each Workload report, exactly when it is made: which partitions there must be, of which kind, and how large |
| Partitions.ImageReports | scripts/check-partitions.py:100-111 | each image report exactly when it is made: the slots as they are, the margin of the smaller |
| Partitions.CrashesExactly | scripts/check-partitions.py:100-113 | the inputs that end in an exception |
| Partitions.OnePartitionPerAddress | scripts/check-partitions.py:76-78 | no address lies in two partitions of an accepted table, whatever the sizes |
| Partitions.PartitionsFitTheFlash | scripts/check-partitions.py:72-78 | the sizes add up to at most the flash size minus 0x9000 |
| Partitions.ExactUnlessRepeated | scripts/check-partitions.py:80-84 | every row with an Agent name is the reference row if and only if no Agent name repeats |
| Partitions.RepeatedNameIsAccepted | scripts/check-partitions.py:80-84 | a concrete accepted table with a repeated name |
| Pattern.Generator.Fill | src/workload/selftest.rs:54-61 | fills exactly the next bytes of the stream in place and advances the state |
| Pattern.TurnExactly | src/workload/selftest.rs:56-58 | one turn of the generator, shift by shift |
| Pattern.MovesExactly | src/workload/selftest.rs:56-58 | the shifts are by 13 left, 17 right and 5 left |
| Pattern.ByteExactly | src/workload/selftest.rs:59-59 | byte i of the stream is bits 11 to 18 of the state after i + 1 turns |
| Pattern.ExpectedDigest | src/workload/selftest.rs:64-76 | the 4096-byte loop hashes exactly the first `size` bytes of the stream |
| Pattern.WritePattern | src/workload/selftest.rs:91-119 | the 16 KiB loop writes those same bytes; in a slot that is too small it leaves exactly the whole 16 KiB chunks that fit |
| Pattern.AnySplitIsTheStream | src/workload/selftest.rs:54-61 | any split into `fill` calls gives the same bytes |
| Pattern.NeverZero | src/workload/selftest.rs:54-58 | the state is zero if and only if the seed is |
| Pattern.NextCanBeUndone | src/workload/selftest.rs:56-58 | one step of the generator is invertible |
| WsFrames.Stream.ReadFrame | tooling/mock-core/mock_core.py:51-76 | consumes and answers exactly as `Parse` says, errors and short reads included |
| WsFrames.Stream.ReadBody | tooling/mock-core/mock_core.py:70-76 | the part after the length, a short mask included |
| WsFrames.Stream.Serve | tooling/mock-core/mock_core.py:118-134 | the frame loop collects exactly the payloads of `Session` |
| WsFrames.OutcomesExactly | tooling/mock-core/mock_core.py:60-74 | which streams yield a frame, which end and which raise, by announced and available bytes |
| WsFrames.FrameExactly | tooling/mock-core/mock_core.py:63-76 | the frame a stream yields: opcode, length, and every payload byte as the exclusive or of its wire byte and its mask byte; and what is left |
| Octets.XorIsBitwise | tooling/mock-core/mock_core.py:75-75 | the exclusive or used for masking is that of machine bytes |
| WsFrames.MessageRoundTrip | tooling/mock-core/mock_core.py:51-76 | a message in any length form of section 5.2 of RFC 6455, under any mask of section 5.3, is read back and exactly its bytes are consumed |
| WsFrames.MessageLayout | tooling/mock-core/mock_core.py:51-58 | what the sender is taken to write, byte by byte, masking included |
| WsFrames.StreamRoundTrip | tooling/mock-core/mock_core.py:118-121 | any list of messages is read back in order, and then the end |
| WsFrames.SessionLogsTheLines | tooling/mock-core/mock_core.py:118-134 | the loop logs exactly the text payloads before the first close frame |
| WsFrames.CutSession | tooling/mock-core/mock_core.py:118-134 | a session that a cut message ends has logged the lines before it, and raises exactly when the cut is inside the extended length; an empty text frame that lacks only mask bytes is still logged |
| WsFrames.CutMessage | tooling/mock-core/mock_core.py:60-73 | a cut message raises exactly inside the extended length, and yields a frame exactly when only mask bytes of an empty frame are missing |
| WsFrames.CutStreamIsPrefix | tooling/mock-core/mock_core.py:51-76 | a stream cut anywhere yields a beginning of its frames |
| WsFrames.OnlyEncodingsAreFrames | tooling/mock-core/mock_core.py:51-76 | whenever a frame is read, the stream starts with an encoding of exactly that frame, or, if it is empty, ends within the mask of one |
| Decimal.ParseU32 | src/bin/init.rs:33-45 | a number exactly for a decimal text below 2^32, and that number |
| Decimal.PrintedReadsBack | src/bin/init.rs:42-42 | every number, written out, reads back as itself |
| Decimal.OnlyDigits | src/bin/init.rs:39-41 | nothing but the ten digits makes a number |
| Utf8.ValidExactly | src/runtime_config.rs:107-108 | text is exactly what some sequence of Unicode scalar values is written as, by the table in section 3 of RFC 3629 |

## Left out

- The IOBEWI crates (bootloader, OTA metadata, upload sessions, flash, Wi-Fi manager, Workload supervisor): not part of this repository; what is assumed of them is listed above.
- TLS, DNS, sockets, HTTP routing, JSON and HTML text, logging, LED and GPIO selection: calls into other code or presentation.
- Wi-Fi credentials and the TLS identity are durable flags: their formats live elsewhere.
- Form submissions that overlap in time: one request runs at a time in the model.
- The fault-injection features and the watchdog: a reset may happen after any durable write instead.
- The `view` of the runtime configuration: it pairs `current` with the active snapshot and adds nothing to them.
- The checked additions of both codecs: at the lengths they see they cannot overflow, so their failure has no branch of its own.
- Constant-time comparison and the quality of random bytes: the comparison is equality, the entropy arbitrary.
- The probe's counter, its log line and the 300 ms before a deliberate reset: no effect on the protocol.
- The phases of the self-test around the artifact, and the flash service behind its writer.
- src/wifi.rs, src/provisioning.rs, src/app_config.rs, src/supervisor.rs, src/http/api.rs and the shell scripts: wiring and small claims.
- ProbeRuntime.Statics.ProbeTask: the tick count is unbounded, where the Rust task's 32 bits would overflow after 2^32 periods.
- Ewbt.Image: no negative offset, which Python would count from the end, and no command line or state names.
- Heartbeat.Client.Run: the Rust loop is endless; the model follows it for as long as the script of answers lasts, which may be any length. Of a heartbeat's body only the token and `ota_validated` are modelled.
- Partitions.Check: not the reading of the CSV and its numbers, nor the texts of the messages; the growth margin is a real number, without rounding.
- WsFrames.Stream.Serve: not the JSON decoding of a line, nor memory exhaustion on a huge announced length.
