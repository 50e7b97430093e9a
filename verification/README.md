# Verified core of the industrial platform

A Dafny model of the five pieces of the platform whose correctness spans several operations, with
proofs that hold for every input, every run or every reachable state.

| file | what it covers |
|---|---|
| `Options.dfy`, `Reals.dfy` | optional values; shared arithmetic |
| `Gateway.dfy` | device registry and protocol gateway: registering, loading, replacing a runtime, confirming readiness |
| `ConfigStore.dfy` | configuration version rows and the transactions that change them |
| `ConfigProtocol.dfy` | publish, apply, crash and managed restart as one state machine over database and gateway |
| `ConfigOutcomes.dfy` | the whole effect of a request run to its end, and of the environment |
| `ConfigStartup.dfy` | when a restart comes up, with and without the database, and what it leaves behind |
| `ConfigDrift.dfy` | when `in_sync` tells the truth, over every run and every interleaving |
| `ConfigRuns.dfy` | runs worked out in full, on which the exceptions are real |
| `ConfigService.dfy` | the configuration service and start-up as objects, each request tied to the protocol steps it performs |
| `Backoff.dfy`, `DeviceRuntime.dfy` | the retry schedule, and the connect/poll/retreat task of one device |
| `Readiness.dfy` | the gateway's readiness verdict, run on that task |
| `ModbusDevice.dfy` | the latching Modbus adapter with its client, composed with that task |
| `Wilson.dfy`, `Threshold.dfy` | the Wilson score interval, and the choice of the anomaly threshold under it |
| `Correlation.dfy` | online alarm-to-incident correlation, against batch session windowing |
| `Consolidation.dfy` | the migration that folds duplicate open alarms |
| `AssetTree.dfy` | the site/line hierarchy and the rendered tree |
| `FaultEnvelope.dfy` | the intensity envelope of one simulated fault |

How the model is built:

- Objects the program updates in place are classes. Each method is proved equal to a transition
  function on the old state, and the theorems are about runs of those transition functions.
- The environment is a parameter: connection and read outcomes, sink verdicts, validation verdicts,
  readiness within the timeout, timestamps and generated ids. Theorems quantify over all of it.
- Any number of configuration requests, of one device or of many, may be in flight, and their steps
  interleave freely. A step is one commit, one gateway call, an abandoned request, a device added to
  or removed from the devices table, a crash, or a start of the gateway that ran to its final commit,
  with the database readable or not. A start that fails earlier has changed nothing durable.
- A device task is suspended in one of three places, awaiting a connection, a poll or the end of a
  backoff interval, and takes one answer of the environment at each.
- Real arithmetic replaces floating point. A square root is a value `s >= 0` with `s * s` equal to
  the number under the root; the threshold scan reads the Wilson bound of each count from a table.

Where code and text disagree the model follows the code:

- The text at `backend/app/gateway/runtime.py:3-6` says read failures and rejected samples end in
  ERROR. A successful connect resets the reconnect counter (lines 298-299).
  `DeviceRuntime.FailuresAloneEndIff` gives the exact condition: with every connection accepted they
  end a task if and only if no reconnect is allowed at all and a poll loop has returned.
  `DeviceRuntime.UnreadableNeverEnds` is the input under the default policy, and
  `DeviceRuntime.UnreadableEndsWithoutReconnects` one where the text is right.
- `backend/app/assetconfig/models.py:22` says only DRAFT rows are mutable. The service also edits
  VALIDATED rows (`backend/app/assetconfig/service.py:70-72`): `ConfigStore.ValidatedIsMutable` is the
  input, `ConfigStore.UpdateStoresIff` the exact condition.
- `backend/app/gateway/config.py:5` says duplicate device ids are rejected while the file is read.
  Only the registry rejects them, and by then the entries of published devices are gone:
  `ConfigStartup.LoadableIff` proves that it takes the resolved devices if and only if every id the
  file repeats is published. `ConfigStartup.RepeatStops` is an input that stops a start,
  `ConfigRuns.RepeatedPublishedDevice` one that does not.
- `backend/app/main.py:103-105` says a restart never falls back to the file for a managed device.
  With the database readable that holds (`ConfigStartup.RestartReconciles`). When the read raises
  (`backend/app/assetconfig/source.py:95-110`) and the status rows can be written all the same, a
  device runs the file's definition if and only if the file names it (`ConfigStartup.BlindRuns`; the
  input is `ConfigRuns.BlindRestartFallsBack`), and a device the file does not name keeps a status
  row that may now be wrong (`ConfigStartup.BlindRestartHonestIff`; the input is
  `ConfigRuns.BlindRestartLies`). If they cannot be written either, a start whose file names any
  device does not come up (`ConfigStartup.BlindUpIff`, `ConfigStartup.UnreachableStops`).
- Nothing serialises the apply steps of two requests of one device
  (`backend/app/assetconfig/service.py:536-548`), and then `in_sync` can be wrong:
  `ConfigRuns.OvertakenLies` is the run, `ConfigDrift.InSyncTrueIff` the exact condition, and
  `ConfigDrift.HonestDrift` shows that one request per device at a time is enough.
- The consolidation statement is not idempotent in general: `Consolidation.IdempotentIff` gives the
  exact condition, `Consolidation.SecondRunForgets` the input.
- An adapter reconnected on its own leaks its old client: `ModbusDevice.ReconnectLeaks` is the
  input, `ModbusDevice.ReconnectLeaksIff` the exact condition, and `ModbusDevice.ClientsConserved`
  shows that the runtime's calling order never meets it.

## Model

| member | source | states |
|---|---|---|
| `ConfigDrift.InSyncTrueIff` | backend/app/assetconfig/service.py:450-655 | over every run, with any number of requests of one device in flight, crashes, and restarts with and without the database: a device reported in sync runs its one published version from that version's stored configuration, and the gateway names it, if and only if the last accepted gateway call or start-up confirmation of the device carried the version its row records |
| `ConfigDrift.GatewayNamesLast` | backend/app/gateway/gateway.py:180-302 | however requests interleave, the version the live gateway names is the one its last accepted call or confirmation since the process came up carried |
| `ConfigDrift.HonestDrift` | backend/app/assetconfig/service.py:450-655 | with one request per device at a time, a device reported in sync, and not stale from a restart that could not read the database, runs its one published version from that version's stored configuration |
| `ConfigDrift.SerialNamesUnlessStale` | backend/app/assetconfig/service.py:523-549 | with one request per device at a time nothing overtakes: for a device reported in sync the last accepted call or confirmation carried the recorded version if and only if the row is not stale, that is, since the last start without the database that did not find it in the file it has had a marked apply or a start with the database |
| `ConfigRuns.OvertakenLies` | backend/app/assetconfig/service.py:523-549 | a concrete run of two requests: version 2 is called first and recorded last, version 1 called in between; it ends with version 2 in sync while the gateway names and runs version 1 |
| `ConfigDrift.NeverStale` | backend/app/assetconfig/source.py:94-101 | in runs whose restarts all read the database no device is ever stale |
| `ConfigRuns.BlindRestartLies` | backend/app/main.py:112-156 | a concrete run (start, create, publish, mark, call, record, crash, restart without the database) ends in sync while the gateway names no version and runs nothing |
| `ConfigRuns.BlindRestartFallsBack` | backend/app/main.py:101-110 | the same run with a file naming the device, and a database that fails the read but takes the status rows of the same start, ends with the file's definition running instead of the published one |
| `ConfigRuns.BlindRestartNeedsTheWrite` | backend/app/main.py:146-155 | if the database does not take the status rows either, that start does not come up |
| `ConfigRuns.RepeatedPublishedDevice` | backend/app/gateway/config.py:1-8 | the same run comes up again under a file that names the published device twice |
| `ConfigProtocol.SnapshotFidelity` | backend/app/gateway/gateway.py:190-302 | in every reachable state, a version the gateway names is a PUBLISHED or ARCHIVED row whose stored configuration is the definition the installed runtime was built from |
| `ConfigProtocol.HistoryIsImmutable` | backend/app/assetconfig/service.py:337-377 | between any two moments of any run, crashes included, promoted rows keep content and publication time, archived rows stay archived, and a published device stays published |
| `ConfigStartup.RestartReconciles` | backend/app/main.py:112-156 | after any run, a managed restart comes up exactly when every id the file repeats is published, every device it names is registered, and the status rows, if any, can be written; then no device is left in APPLYING, every published device runs its own stored configuration, in sync exactly when it is disabled, only listens or was found connected, and every other device of the file runs the file's definition under a PENDING row |
| `ConfigStartup.RestartUpIff` | backend/app/main.py:120-155 | that come-up condition, both ways, for any state whose foreign keys hold |
| `ConfigStartup.BlindUpIff` | backend/app/main.py:120-155 | a restart that could not read the database comes up if and only if the file repeats no id, every device it names is registered, and the file is empty or the status rows can be written |
| `ConfigStartup.LoadableIff` | backend/app/assetconfig/source.py:102-110 | the registry takes the resolved devices if and only if every id the file repeats is among the published devices |
| `ConfigStartup.StartOrder` | backend/app/main.py:120-132 | a started gateway lists its devices in the order they were resolved |
| `ConfigStartup.RepeatStops` | backend/app/gateway/registry.py:30-44 | a file that names one registered device twice stops a start over an empty database |
| `ConfigStartup.UnregisteredStops` | backend/app/assetconfig/models.py:195-202 | a file naming one device that is not in the devices table stops a start |
| `ConfigStartup.UnreachableStops` | backend/app/assetconfig/repository.py:212-234 | a database that stays unreachable stops a start whose file names a device; one that fails the read and takes the status rows does not |
| `ConfigStartup.ListingExists` | backend/app/assetconfig/repository.py:157-163 | every table with at most one published row per device has a listing of its published rows |
| `ConfigStartup.RecoveryIsPossible` | backend/app/main.py:112-156 | after any run that left the process down, a restart whose file fits, over a writable database, comes up |
| `ConfigStartup.BlindRuns` | backend/app/assetconfig/source.py:94-110 | after a restart whose database read failed a device runs the file's definition exactly when the file names it, nothing else runs, and no device has a version |
| `ConfigStartup.BlindRestartHonestIff` | backend/app/assetconfig/source.py:94-110 | such a restart leaves a truthful status exactly when the device was not reported in sync before or the file names it |
| `ConfigProtocol.Reachable` | backend/app/assetconfig/service.py:450-655 | after every run: the row invariants and the foreign keys hold, registry and runtimes agree, every request in flight is about a promoted version, every APPLIED or APPLYING row belongs to a published device, and every version the gateway names is a promoted row the installed runtime was built from |
| `ConfigOutcomes.PublishOutcome` | backend/app/assetconfig/service.py:491-549 | a publish request run to its end undisturbed is in sync exactly when the candidate started and was disabled, listening only or found connected; otherwise the version is published all the same, the row says FAILED with the version still running, and the gateway is unchanged |
| `ConfigOutcomes.PassivePublishes` | backend/app/gateway/runtime.py:213-214 | publishing a disabled or MQTT device over any wait ends in sync, with the new definition installed |
| `ConfigOutcomes.ApplyCurrentOutcome` | backend/app/assetconfig/service.py:616-631 | retrying the published version changes no row and no other request, and is in sync exactly when the candidate passes |
| `ConfigOutcomes.RetireHolds` | backend/app/assetconfig/models.py:151-202 | removing a device takes its status row with it and is refused exactly while it has configuration rows |
| `ConfigOutcomes.EnvironmentHolds` | backend/app/main.py:92-169 | a crash leaves exactly the database, an abandoned request takes only itself away, and adding a device adds only that |
| `ConfigProtocol.ComesUp` | backend/app/main.py:120-155 | after a start every resolved device runs its resolved definition with the verdict its readiness earned, and every other device keeps its status row, runs nothing and has no version |
| `ConfigProtocol.RestartItems` | backend/app/assetconfig/source.py:41-110 | the resolved items are the published ones in their order and then file devices; the database items are published versions with their stored configuration, every published device is among them, and each item names its own device |
| `ConfigService.ConfigurationService.Publish` | backend/app/assetconfig/service.py:450-521 | the error of each refusal; an accepted request promotes the row with its content and both times, archives exactly the device's other published versions, and is the run publish, mark, call, record, in sync exactly when the candidate passes; without a gateway the version is published and never reported in sync |
| `ConfigService.ConfigurationService.CommitPublication` | backend/app/assetconfig/service.py:491-517 | the publication transaction, with at most one published version of the device at each statement |
| `ConfigService.ConfigurationService.ApplyPublished` | backend/app/assetconfig/service.py:523-549 | the request's remaining steps are exactly mark, call, record of the protocol, or a PENDING row when there is no gateway |
| `ConfigService.ConfigurationService.ApplyCurrent` | backend/app/assetconfig/service.py:616-631 | retries exactly the published version; for an unregistered device, without a published version or without a gateway it changes nothing and says which |
| `ConfigService.ConfigurationService.ReportsInSync` | backend/app/assetconfig/service.py:633-655 | the computed flag is the predicate the drift theorem is about: the last attempt succeeded and the recorded applied version is the published one |
| `ConfigService.ConfigurationService.CreateDraft` | backend/app/assetconfig/service.py:306-335 | one new draft with that content, no validation and no times, under a number above all existing ones; refused for an unregistered device and on a device mismatch |
| `ConfigService.ConfigurationService.UpdateDraft` | backend/app/assetconfig/service.py:337-362 | edits exactly DRAFT and VALIDATED rows, which become unvalidated drafts with the new content; the error of each refusal; no other row changes |
| `ConfigService.ConfigurationService.DeleteDraft` | backend/app/assetconfig/service.py:364-377 | removes exactly a draft and no other row, with the error of each refusal |
| `ConfigService.ConfigurationService.CloneVersion` | backend/app/assetconfig/service.py:379-414 | any version's content becomes a new draft under a fresh number |
| `ConfigService.ConfigurationService.ValidateVersion` | backend/app/assetconfig/service.py:416-448 | stores the verdict on a DRAFT or VALIDATED row; only a passed validation makes it VALIDATED with its time, a failed one leaves status and time in place; promoted rows and all others are untouched |
| `ConfigService.ConfigurationService.ArchivePublishedExcept` | backend/app/assetconfig/repository.py:165-188 | afterwards no other version of the device is published, and a changed row is one of those, now archived with its time |
| `ConfigService.ConfigurationService.NextVersionFor` | backend/app/assetconfig/repository.py:114-120 | the maximum version plus one |
| `ConfigService.ConfigurationService.CurrentPublished` | backend/app/assetconfig/repository.py:146-155 | finds the published version if and only if there is one, and it is the only one |
| `ConfigService.PublishedDefinitions` | backend/app/assetconfig/source.py:41-57 | reads the rows: the result lists every published row once, with its stored configuration, and nothing else |
| `ConfigService.ResolveDefinitions` | backend/app/assetconfig/source.py:77-110 | a listing of the published rows if the database can be read, none otherwise, then the devices of the file that are not in it |
| `ConfigService.ReconcileDevices` | backend/app/main.py:135-155 | the loop confirms devices in order and writes the rows of the specification; it raises exactly when there is a row to write and the database does not take it or its device is not registered, and then no row has changed |
| `ConfigService.StartGateway` | backend/app/main.py:120-155 | raises on a repeated id or an unwritable status row and leaves nothing behind; otherwise registers, confirms and writes the rows of the specification |
| `ConfigService.BuildManagedGateway` | backend/app/main.py:92-169 | start-up raises exactly when the file repeats an id that is not published (any id, if the database cannot be read), names an unregistered device, or status rows cannot be written; otherwise it is the protocol's managed or blind restart step |
| `ConfigStore.LifecycleHolds` | backend/app/assetconfig/service.py:306-517 | over every run of transactions: at most one published version per device, publication and archival times exactly on promoted and archived rows, promoted rows validated, drafts unvalidated, and promoted snapshots unchanged at every later moment |
| `ConfigStore.NeverReissued` | backend/app/assetconfig/repository.py:114-120 | a version number that was ever promoted is never handed out again |
| `ConfigStore.CommitOk` | backend/app/assetconfig/service.py:306-517 | every transaction keeps the row invariants and only appends to promoted history |
| `ConfigStore.UpdateStoresIff` | backend/app/assetconfig/service.py:337-362 | an edit stores its content exactly on a DRAFT or VALIDATED row of the device the content names, which becomes an unvalidated draft; otherwise nothing changes |
| `ConfigStore.CreateHolds` | backend/app/assetconfig/service.py:306-335 | a new draft and no other row touched |
| `ConfigStore.CloneHolds` | backend/app/assetconfig/service.py:379-414 | a clone is a new draft with the source's content, whatever the source's status |
| `ConfigStore.DeleteHolds` | backend/app/assetconfig/service.py:364-377 | a deletion removes exactly a draft |
| `ConfigStore.ValidateHolds` | backend/app/assetconfig/service.py:426-433 | the verdict is stored on a DRAFT or VALIDATED row, and only a passed one makes it VALIDATED |
| `ConfigStore.PublishHolds` | backend/app/assetconfig/service.py:459-502 | exactly a DRAFT or VALIDATED row that passes validation is promoted, with its content and both times, and exactly the other published versions of the device are archived |
| `ConfigStore.ValidatedIsMutable` | backend/app/assetconfig/service.py:70-72 | a VALIDATED row whose content an edit changes |
| `ConfigStore.EveryStatementSinglePublished` | backend/app/assetconfig/service.py:491-502 | the single-published index holds after the demotion and again after the promotion |
| `ConfigStore.PromoteFirstBreaksIndex` | backend/app/assetconfig/service.py:492-498 | promoting first keeps the index if and only if no other version of the device is published |
| `ConfigStore.NextVersion` | backend/app/assetconfig/repository.py:114-120 | fresh, above every version of the device, and directly above the highest |
| `Gateway.RunsAgree` | backend/app/gateway/gateway.py:128-302 | after every run of register, batch register, apply and confirm, registry and runtimes name the same devices in the same order with equal definitions, and every named version belongs to an installed runtime |
| `Gateway.RunsKeepOrder` | backend/app/gateway/registry.py:46-53 | the device order at any moment is a prefix of the order at any later moment |
| `Gateway.RunsStaySeparate` | backend/app/gateway/gateway.py:252-292 | over all runs no two devices ever share a runtime object |
| `Gateway.RunsAreIsolated` | backend/app/gateway/gateway.py:226-302 | any run without an accepted apply or a confirmation of a device leaves that device the same runtime object, definition and version |
| `Gateway.RegisterAllIsSequential` | backend/app/gateway/gateway.py:134-139 | loading a batch and building its runtimes afterwards equals registering one device at a time, or changes nothing |
| `Gateway.NoRepeats` | backend/app/gateway/registry.py:18-53 | no device is listed twice in a valid dictionary |
| `Gateway.DeviceRegistry.Register` | backend/app/gateway/registry.py:21-28 | raises exactly on a known id, and then changes nothing |
| `Gateway.DeviceRegistry.Load` | backend/app/gateway/registry.py:30-44 | all or nothing: raises exactly when the batch repeats an id or names a known one |
| `Gateway.DeviceRegistry.Replace` | backend/app/gateway/registry.py:46-53 | a known device keeps its position and a new one comes last; its definition is the given one and no other device's changes |
| `Gateway.IndustrialProtocolGateway.RegisterDevice` | backend/app/gateway/gateway.py:128-132 | raises exactly on a known id, and then changes nothing; otherwise the device is registered last and runs a runtime object of its own built from this definition |
| `Gateway.IndustrialProtocolGateway.RegisterBatch` | backend/app/gateway/gateway.py:134-139 | the batch transition, raising exactly when the batch is not loadable |
| `Gateway.IndustrialProtocolGateway.RuntimeForDefinition` | backend/app/gateway/gateway.py:350-363 | reuses an installed runtime, otherwise installs a new one |
| `Gateway.IndustrialProtocolGateway.ApplyDefinition` | backend/app/gateway/gateway.py:226-302 | succeeds exactly when enabled, the candidate started, and it is disabled, listening only or found connected; then a new runtime object, the definition and the version are installed for this device alone; a failure changes no registry entry, runtime or version |
| `Gateway.IndustrialProtocolGateway.Confirm` | backend/app/gateway/gateway.py:190-224 | records the version exactly when the installed runtime is disabled, listening only or found connected, and never touches a runtime |
| `DeviceRuntime.StateIsHistory` | backend/app/gateway/runtime.py:279-408 | phase, lifecycle state and both counters after any environment are read off the observed events alone |
| `DeviceRuntime.StateShowsPhase` | backend/app/gateway/runtime.py:394-408 | the reported state is RECONNECTING exactly while a backoff interval is slept, CONNECTING exactly while a connection is awaited, ERROR exactly when the task has ended |
| `DeviceRuntime.PollingState` | backend/app/gateway/runtime.py:324-392 | under every policy, while polling the failure counter is the trailing run of failed polls, that run is below the reconnect threshold, and the device is DEGRADED exactly when it has reached the failure threshold |
| `DeviceRuntime.PollsConserved` | backend/app/gateway/runtime.py:333-381 | every poll is counted once, under the outcome it had: ingested, rejected, read error or sink exception |
| `DeviceRuntime.ExactBudget` | backend/app/gateway/runtime.py:279-312 | from counter `a` under limit `M` a task ends in ERROR at exactly its `max(0, M-a)+1`-st uninterrupted refusal and not sooner |
| `DeviceRuntime.ExactWaits` | backend/app/gateway/runtime.py:394-408 | on the way it sleeps exactly the delays from `a` up to its counter, so exactly `a..M-1` by the time it ends |
| `DeviceRuntime.LossWait` | backend/app/gateway/runtime.py:309-312 | after a telemetry loss the task sleeps the first delay with one attempt spent, or ends at once with no reconnect allowed |
| `DeviceRuntime.BudgetsInUse` | backend/app/gateway/runtime.py:265-312 | `M+1` refusals from cold, `M` after a telemetry loss, one when a device whose connect loop had ended is started again, and the unspent budget when its task had failed before the first connection |
| `DeviceRuntime.EndsIff` | backend/app/gateway/runtime.py:279-312 | for every policy and environment a task has ended if and only if the last event is a refusal that used up the whole budget, or a telemetry loss with no reconnect allowed |
| `DeviceRuntime.FailuresAloneEndIff` | backend/app/gateway/runtime.py:1-8 | with every connection accepted, failed polls end a task if and only if no reconnect is allowed and a poll loop has returned |
| `DeviceRuntime.UnreadableNeverEnds` | backend/app/gateway/runtime.py:298-312 | under the default policy a device that accepts every connection and fails every read is retried for ever |
| `DeviceRuntime.UnreadableEndsWithoutReconnects` | backend/app/gateway/runtime.py:394-402 | with no reconnect allowed the sixth failed read ends its task |
| `DeviceRuntime.ExhaustionWait` | backend/app/gateway/runtime.py:394-408 | the time slept before exhaustion is the backoff total from the counter to the limit |
| `Backoff.DelayMonotone` | backend/app/gateway/runtime.py:75-82 | delays are nonnegative, never shrink with the attempt and never exceed the cap |
| `Backoff.DelayRecurrence` | backend/app/gateway/runtime.py:75-82 | the first delay is the initial one and each further one the previous times the factor, both under the cap |
| `Backoff.DelayBelowZero` | backend/app/gateway/runtime.py:78 | an attempt number below zero counts as the first |
| `Backoff.WaitBounded` | backend/app/gateway/runtime.py:394-408 | the whole wait is at most the remaining attempts times the cap |
| `Backoff.WaitIsGeometric` | backend/app/gateway/runtime.py:75-82 | the wait is the geometric sum up to saturation plus the cap for every attempt after it |
| `Backoff.PowSumClosed` | backend/app/gateway/runtime.py:75-82 | the geometric sum in closed form |
| `Backoff.Saturates` | backend/app/gateway/runtime.py:75-82 | every schedule has a saturation point: below the cap before it, at the cap from it on |
| `ModbusDevice.Latches` | backend/adapters/modbus_adapter.py:142-190 | once a read fails with `c` failures before it, every later poll of that loop fails whatever the environment does, nothing is ingested, and the loop is left after exactly `max(1, reconnect_threshold - c)` polls |
| `ModbusDevice.ClientsConserved` | backend/adapters/modbus_adapter.py:111-140 | over every environment, clients created minus closed is 1 while polling and 0 otherwise, so 0 once the task ends |
| `ModbusDevice.SamplesCounted` | backend/app/gateway/runtime.py:333-381 | over every run a sample is ingested exactly in the polled rounds that deliver one the sink persists or recognises as a duplicate, rejected exactly where the sink rejects it, a sink exception exactly where it raises, and a read error exactly where none is delivered |
| `ModbusDevice.RefusedSamplesLeave` | backend/app/gateway/runtime.py:355-392 | a sink that refuses every delivered sample makes the device DEGRADED at the failure threshold and leaves the loop after exactly `max(1, reconnect_threshold - c)` polls, with nothing ingested |
| `ModbusDevice.ReconnectLeaks` | backend/adapters/modbus_adapter.py:111-190 | the concrete sequence connect, failed read, connect loses one client |
| `ModbusDevice.ModbusTcpAdapter.Connect` | backend/adapters/modbus_adapter.py:111-133 | a no-op when connected; otherwise one client is created, kept on success and closed on failure |
| `ModbusDevice.ModbusTcpAdapter.Disconnect` | backend/adapters/modbus_adapter.py:135-140 | closes the held client, if any, and always ends disconnected |
| `ModbusDevice.ModbusTcpAdapter.Read` | backend/adapters/modbus_adapter.py:142-190 | succeeds exactly when connected and every register answers and the sample is well formed, and then returns the scaled signals; any failure latches |
| `ModbusDevice.ScaledValue` | backend/adapters/modbus_adapter.py:146-155 | each signal has the scaled value of the last register that names it |
| `ModbusDevice.ScaledSignals` | backend/adapters/modbus_adapter.py:146-155 | the signals are exactly those some register names |
| `ModbusDevice.RuntimeTask.RecordFailure` | backend/app/gateway/runtime.py:383-392 | adds one failure, asks for a reconnect exactly from the reconnect threshold on, and is RECONNECTING or DEGRADED by the thresholds |
| `ModbusDevice.RuntimeTask.WaitOrFail` | backend/app/gateway/runtime.py:394-408 | waits and counts an attempt, or fails for good exactly at the limit |
| `ModbusDevice.RuntimeTask.PollOnce` | backend/app/gateway/runtime.py:333-392 | from the adapter's state, the responses and the sink's verdict: which one counter grows, that a kept sample resets the failures and makes the device CONNECTED, and that any other poll adds one failure, with the state and the return its thresholds call for |
| `ModbusDevice.RuntimeTask.PollLoop` | backend/app/gateway/runtime.py:324-357 | the loop is a run of the composed machine and returns exactly when that machine leaves polling |
| `ModbusDevice.RuntimeTask.Turn` | backend/app/gateway/runtime.py:279-312 | one turn of the outer loop, connect and poll and retreat, is a run of the composed machine |
| `ModbusDevice.RuntimeTask.LeaveLoop` | backend/app/gateway/runtime.py:309-312 | after a telemetry loss the client is closed before the next attempt, and an exhausted task ends disconnected |
| `ModbusDevice.RuntimeTask.RunTask` | backend/app/gateway/runtime.py:265-322 | the nested loops run exactly the composed machine, so the task's state is read off what happened and it holds a client exactly while polling; an unregistered device or a failed adapter build ends in ERROR at once |
| `ModbusDevice.RuntimeTask.Loop` | backend/app/gateway/runtime.py:279-312 | the outer loop, backoff sleeps included, ends in exactly the state of the composed machine |
| `Readiness.WaitUntilReady` | backend/app/gateway/runtime.py:203-224 | the bounded wait answers true exactly when the device is disabled, only listens, or some look found its task, which may have failed before its first connection, CONNECTED; giving up at the first ERROR loses nothing |
| `Readiness.ConfirmReady` | backend/app/gateway/gateway.py:190-224 | at start-up the version is recorded exactly when the installed runtime is disabled, only listens, or had its task seen CONNECTED within the wait |
| `Readiness.RestartByWatches` | backend/app/main.py:137-154 | after a managed restart a published device is in sync exactly when it is disabled, only listens, or some look of its wait found its task CONNECTED |
| `Readiness.ErrorIsFinal` | backend/app/gateway/runtime.py:203-224 | after a look that found ERROR no later look finds anything else |
| `Readiness.AcceptedCandidate` | backend/app/gateway/gateway.py:272-302 | an accepted polled candidate was polling at some look, below the failure threshold, and the gateway then names its version |
| `Readiness.RefusedCandidate` | backend/app/gateway/gateway.py:272-287 | a polled candidate that never reaches its first connection, or whose every connection is refused, is never accepted and the gateway keeps what it runs |
| `Wilson.IntervalContains` | ml/industrial_ml/metrics.py:47-61 | for `0 <= k <= n`, `n > 0` the interval contains `k/n` and lies in [0,1], so clamping never changes it |
| `Wilson.NoWindows` | ml/industrial_ml/metrics.py:51-52 | without any window the interval is (0, 0) |
| `Wilson.DiscriminantIs` | ml/industrial_ml/metrics.py:56-60 | the number under the root in closed form; it is positive |
| `Wilson.UpperStrict` | ml/industrial_ml/metrics.py:47-61 | the upper end strictly grows with the count |
| `Wilson.UpperIff` | ml/industrial_ml/metrics.py:47-61 | the upper end is at most `x` exactly when `k <= n*x` and `(n*x-k)^2 >= n*z^2*x*(1-x)`: decided on the counts, without root or quotient |
| `Wilson.LowerIff` | ml/industrial_ml/metrics.py:47-61 | the lower end is at least `x` exactly when `n*x <= k` and the same inequality holds |
| `Wilson.LowerMirrorsUpper` | ml/industrial_ml/metrics.py:47-61 | the lower end is one minus the upper end of the complementary count |
| `Wilson.CleanMeetsLimitIff` | ml/industrial_ml/training.py:81 | with no false positive and the code's `z`, the 5% limit is met exactly from 73 windows on |
| `Threshold.OneEntry` | ml/industrial_ml/training.py:81 | with one false positive the 5% limit is met exactly from 110 windows on |
| `Threshold.FlaggedIsCount` | ml/industrial_ml/metrics.py:23-30 | the counts are the numbers of anomalous and of normal windows whose score reaches the threshold |
| `Threshold.RecallIs` | ml/industrial_ml/metrics.py:25-27 | recall is the flagged share of the anomalous windows, 0 where there are none |
| `Threshold.FprIs` | ml/industrial_ml/metrics.py:28-31 | the false-positive rate is the flagged share of the normal windows, 0 where there are none |
| `Threshold.F1IsHarmonic` | ml/industrial_ml/metrics.py:25-27 | F1 is the harmonic mean of precision and recall, 0 when nothing anomalous is flagged |
| `Threshold.ChooseAnomalyThreshold` | ml/industrial_ml/training.py:66-92 | the scan returns a candidate that is maximal among the eligible ones, or maximal under the fallback key when none is eligible |
| `Threshold.OptimalOverReals` | ml/industrial_ml/training.py:66-92 | if any real threshold is eligible the chosen one is, and no eligible real threshold has higher recall, nor equal recall and higher F1, nor equal recall and F1 and a lower false-positive rate |
| `Threshold.CandidateFor` | ml/industrial_ml/training.py:68 | every real threshold flags exactly what some candidate flags |
| `Threshold.EligibleUpward` | ml/industrial_ml/training.py:81 | eligible thresholds are upward closed |
| `Threshold.EligibleExistsIff` | ml/industrial_ml/training.py:81-92 | some threshold is eligible exactly when there are no normal windows or at least 73 |
| `Threshold.FallbackIsSilent` | ml/industrial_ml/training.py:73-92 | with 1 to 72 normal windows the chosen threshold flags none of them and has the best recall of all that flag none |
| `Threshold.CandidatesNeverTie` | ml/industrial_ml/training.py:82-91 | different candidates differ in recall or false-positive rate, so the last tie-break never decides |
| `Threshold.MaxKey` | ml/industrial_ml/training.py:90-92 | the lexicographic maximum is one of the keys and no key exceeds it |
| `Threshold.LexIsTotal` | ml/industrial_ml/training.py:90-92 | keys are compared component by component, and only equal keys come both ways |
| `Correlation.OnlineIsBatch` | backend/app/incidents/incident_service.py:269-293 | for any interleaving of devices, each in activity order, a device's incidents hold exactly the sessions of its alarms |
| `Correlation.SessionsAreMaximalRuns` | backend/app/incidents/incident_service.py:340-346 | sessions split the alarms, in order, into runs with gaps within the window and boundaries beyond it |
| `Correlation.MaximalRunsAreUnique` | backend/app/incidents/incident_service.py:340-346 | there is only one such split |
| `Correlation.OtherDevice` | backend/app/incidents/incident_service.py:286-293 | alarms of other devices change nothing a device sees |
| `Correlation.FindOpen` | backend/app/repositories/incident.py:40-57 | the live incident of the device that is most recent, ties broken by id, or none exactly when there is none |
| `Correlation.IncidentsStayOk` | backend/app/incidents/incident_service.py:71-395 | over every run, whatever the lookup picks and operators do: each engine-opened incident holds only its device's alarms, each linked once; activities never go back nor jump beyond the window; the anchor is the latest; the severity is the worst of the absorbed ones in the order INFO, MINOR, WARNING, MAJOR, CRITICAL, or unknown if all are; the priority is URGENT for CRITICAL, HIGH for MAJOR, LOW for MINOR and INFO, MEDIUM otherwise |
| `Correlation.RankIsAbove` | backend/app/incidents/states.py:63-69 | the ranks order the severities exactly so, with unknown and missing ones below all |
| `Correlation.AttachedOk` | backend/app/incidents/incident_service.py:295-354 | attaching a window-respecting alarm keeps all of that |
| `Correlation.IncidentCorrelationService.AttachAlarm` | backend/app/incidents/incident_service.py:295-354 | refused exactly for another device's incident; otherwise links once, moves the anchor forward only, raises severity and priority exactly when the alarm's severity is worse, and reports whether the link is new |
| `Correlation.IncidentCorrelationService.CorrelateAlarm` | backend/app/incidents/incident_service.py:269-395 | the alarm joins the device's most recent live incident exactly when it falls into the window after that incident's last alarm, or after its creation if it has none; otherwise a new live incident is opened with the alarm's severity, its priority and its activity; no other incident changes |
| `Consolidation.ConsolidateDuplicates` | backend/alembic/versions/20260923_07_phase6_9_a_alarm_lifecycle.py:117-137 | the in-place update equals the set-based statement computed from the old table |
| `Consolidation.ConsolidationHolds` | backend/alembic/versions/20260923_07_phase6_9_a_alarm_lifecycle.py:117-137 | afterwards at most one open row per device and rule; a row stays open exactly when it was its group's survivor and then carries group size and latest start; a superseded row is CLEARED at its own start with the migration's reason and one occurrence; identities and cleared rows are untouched |
| `Consolidation.SurvivorIsEarliest` | backend/alembic/versions/20260923_07_phase6_9_a_alarm_lifecycle.py:126-129 | the survivor is the open row that precedes every other of its group by start and id |
| `Consolidation.IndexIs` | backend/alembic/versions/20260923_07_phase6_9_a_alarm_lifecycle.py:205-211 | the index in plain words: no two rows that are not CLEARED share device and rule |
| `Consolidation.GroupSizeIsCount` | backend/alembic/versions/20260923_07_phase6_9_a_alarm_lifecycle.py:130 | the recorded size is the number of open rows of the device and rule |
| `Consolidation.GroupLastIsMax` | backend/alembic/versions/20260923_07_phase6_9_a_alarm_lifecycle.py:131 | the recorded last trigger is attained and is the maximum start of the group |
| `Consolidation.OccurrencesConserved` | backend/alembic/versions/20260923_07_phase6_9_a_alarm_lifecycle.py:120-133 | the survivors' occurrence counts add up to the number of rows open before |
| `Consolidation.IdempotentIff` | backend/alembic/versions/20260923_07_phase6_9_a_alarm_lifecycle.py:117-137 | running the statement twice equals once exactly when no group had two open rows |
| `Consolidation.SecondRun` | backend/alembic/versions/20260923_07_phase6_9_a_alarm_lifecycle.py:117-137 | a second run resets every open row to one occurrence at its own start |
| `Consolidation.SecondRunForgets` | backend/alembic/versions/20260923_07_phase6_9_a_alarm_lifecycle.py:117-137 | two open rows of one group: the survivor counts 2 after one run and 1 after two |
| `AssetTree.TreeListsNodes` | backend/app/assetconfig/service.py:251-271 | the tree lists every node exactly once |
| `AssetTree.TreeListsDevices` | backend/app/assetconfig/service.py:243-273 | every device appears exactly once, in the tree or as unassigned |
| `AssetTree.BranchHoldsItsOwn` | backend/app/assetconfig/service.py:259-268 | a branch lists exactly the devices attached to its node |
| `AssetTree.BranchHoldsItsLines` | backend/app/assetconfig/service.py:251-271 | under a node hang exactly the nodes whose parent it is, and on top stand exactly the parentless ones |
| `AssetTree.AssetService.Render` | backend/app/assetconfig/service.py:238-273 | rendering terminates with that tree, after any sequence of the operations below, which all keep the hierarchy sound |
| `AssetTree.AssetService.GroupDevices` | backend/app/assetconfig/service.py:243-250 | the one-pass grouping equals the selection by node for every id |
| `AssetTree.AssetService.GroupNodes` | backend/app/assetconfig/service.py:251-257 | the one-pass grouping equals the selection by parent for every id |
| `AssetTree.AssetService.BuildList` | backend/app/assetconfig/service.py:259-271 | the recursive build over the groupings equals the specified tree |
| `AssetTree.AssetService.Create` | backend/app/assetconfig/service.py:118-152 | accepts exactly parentless sites and lines under an existing site, with the error of each refusal |
| `AssetTree.AssetService.Delete` | backend/app/assetconfig/service.py:163-172 | removes exactly the named node and keeps the order of the others, only when nothing hangs under it and no device is on it |
| `AssetTree.AssetService.Attach` | backend/app/assetconfig/service.py:174-180 | the named device ends up on the named node and every other device stays where it was |
| `AssetTree.AssetService.Detach` | backend/app/assetconfig/service.py:182-187 | the named device ends up on no node and every other device stays where it was |
| `AssetTree.AssetService.DetachFrom` | backend/app/assetconfig/service.py:189-201 | detaches only from the node the request names |
| `FaultEnvelope.Fault.At` | simulator/simulator/faults.py:46-66 | the envelope value, and the recorded stage: right exactly when the tick has reached the start or the stage was still NORMAL |
| `FaultEnvelope.StageLags` | simulator/simulator/faults.py:54-55 | asking past the start and then before it leaves INJECTING recorded at a tick that is NORMAL |
| `FaultEnvelope.Fault.Sweep` | simulator/simulator/faults.py:46-66 | stepping upward logs NORMAL, INJECTING, ACTIVE, RECOVERING, NORMAL, each for exactly its configured length |
| `FaultEnvelope.EnvelopeBounded` | simulator/simulator/faults.py:46-66 | the envelope stays between 0 and the clamped severity |
| `FaultEnvelope.EnvelopeValues` | simulator/simulator/faults.py:52-66 | the envelope tick by tick: zero, a straight rise to the clamped severity, that level, a straight fall, zero |
| `FaultEnvelope.EpisodeSum` | simulator/simulator/faults.py:46-66 | over a window covering the episode the envelope adds up to severity times `(ramp-1)/2 + duration + (recovery+1)/2`, a missing ramp or recovery contributing nothing |

## Left out

- HTTP routes, React frontend, WebSocket, MQTT, Redis, metrics, logging and file writing: plumbing.
- Workflow engine, language-model provider, knowledge retrieval, policy engine, alarm lifecycle service and incident status transitions: separate subsystems; the correlation theorem over all lookups lets operators move incidents between live and not live at will.
- Interleavings inside one database transaction: each commit is one step. Which runtime a swap stops is not recorded either, only which one it installs.
- Restarts with the managed gateway switched off.
- Status row timestamps, error texts and audit rows.
- The validation pipeline: its verdict is a parameter. The check time and the publication time of one request are one value.
- A stored configuration that no longer parses: it makes the whole database read raise, which is the restart without the database.
- The order in which published rows are read: the theorems hold for every order.
- The STARTING and DISABLED states before a task runs, and a wait that a stop interrupts.
- Concurrent creation of one version number, which the database refuses with a conflict.
- The batch form of apply, which is a loop over the single one.
- The normalizer's state rules, the checks inside one device definition and the aggregation over several faults: each is a check or a sum over one value and meets none of the state modelled here.
- Task cancellation, stop deadlines and cross-loop stops; a client whose `close` raises.
- The OPC UA and simulator adapters: the runtime theorems hold for any adapter, the latching and client theorems are about Modbus.
- Floating-point rounding, ROC and PR areas, estimators and calibration. The value just above the largest score is any real above every score, and an empty score list, on which the scan raises, is excluded.
- `last_triggered_at` falling back to `started_at`: an alarm's activity is one field.
- Unlinking alarms, and the link table's own conflict handling; links are a sequence per incident.
