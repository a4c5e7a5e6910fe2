# OpenEVCharger: a verification model

OpenEVCharger is firmware for a charger of electric vehicles. This project models the
parts of it whose properties span whole runs, power losses and interleavings, and proves them.

* **Safety supervisor** (`Evse`, `EvseTask`, with `J1772`, `Fault`, `GfciPolicy`,
  `OverTemp`, `SoftOverCurrent`). A tick of 20 ms drains up to four requests, services the
  replug window, debounces the pilot, runs the fault detectors, moves the phase, drives
  contactor and pilot, and every twentieth time runs the detectors that ride on the power
  meter. `Evse` gives each step as a function of the state and of arbitrary inputs;
  `EvseTask` has the firmware's variables, updated in place, and shows each method to do
  what its function says. `EvseInvariant` proves what every step keeps, `EvseRuns` safety
  over whole runs, `EvseHeat`, `EvseSensors`, `EvseMeter` and `EvseDerate` what the history
  of a run must look like for a fault to be up or a current to be derated, `EvseClosing`,
  `EvseCards` and `EvsePilot` exactly when the contactor closes, a card counts and a pilot
  sample is forgotten, and `EvseWindow` exactly when the replug window holds. `EvseGaps` shows what does *not* hold, by runs from
  boot that `EvseCalm` puts together.
* **Crash-safe persistence** (`W25q`, `PingPong`, `CrashState`, `BootConfig`, `EventRing`,
  `EventRecovery`, `EventLog`).
  Every flash operation has a fate: it works, reports an error, is cut by power loss, or
  (programs) claims success without having worked; without success the bytes concerned (the
  sector of an erase, the bytes given to a program) are untouched, finished or torn. That a
  torn slot fails its checksum is an explicit hypothesis on the fates
  (`PingPong.Layout.TornFailsCrc`, `EventRecovery.TornFailsCrc`), not an assumption about a CRC.
* **Firmware transfer** (`OtaStage`, `OtaSession`): the staging region and the session over
  the same flash.
* **Link layer** (`UartRing`, `Tlv`, `GreedyParse`, `RxAccumulator`): a lock-free ring
  between an interrupt handler and a reader, then a resynchronising frame parser. Between
  any two of the reader's reads and writes an arbitrary batch of interrupts runs.
* **MQTT codec** (`MqttCodec`): the variable-length integer and the publish packet of
  MQTT 3.1.1.
* **Checksums** (`Bytes`, `Fold`, `Crc`, `BlankCrc`, `BlankRecord`): both CRCs as folds over
  an abstract register, so that splitting, burst detection and residues are proved once.

The build flags are the defaults: the cable-rating and protective-earth detectors and the
relay feedback are off. The configuration bytes do not change within a tick.

## Where comments and code part

The model follows the code.

* The comment at src/tasks/safety_task.c:973-976 announces a return to the self-test when
  the last fault is cleared; the code goes to ready.
* src/tasks/safety_task.c:482-486 takes the contactor to stay open during a replug window;
  a resume in the same drain keeps it closed (`EvseGaps.ReplugCanStayClosed`). Exactly when
  it stays open is `EvseWindow.OpenThroughoutExactly`.
* src/tasks/safety_task.c:1737-1740 takes a new session to start underated; a ramp after the
  end of a session, on the streak of that session, is not taken away
  (`EvseGaps.StartsDerated`). Exactly when one starts underated is
  `EvseDerate.SessionStartsUnderated`.
* src/persist/event_log.h:42-45 has an append return 0 once the record is written; after an
  error of the device that had programmed it, or an erase that left part of a sector, 0 can
  mean a spoilt record (`EventLog.RetryLosesRecord`, `EventLog.BlankProbeMisleads`).
* src/persist/pingpong.h:7-9 has exactly one valid slot at rest; after a final erase that
  failed or was cut both are valid, and the higher counter decides.
* src/persist/event_log.h:32-34 has the boot-time scan find the head; it does not if events of
  one tick were appended across the wrap (`EventRecovery.RecoversExactly`).
* src/persist/event_log.h:47-48 calls slot n the n-th record from the start of the log; it is
  the n-th physical slot.
* Half a minute over the soft threshold is 76 polls, not 75: the poll that ramps comes after
  75 that count.

## Model

| member | source | states |
|---|---|---|
| `W25q.Flash.EraseSector` | src/drivers/w25q.h:21-23 | an erase sets the whole 4 KB sector to 0xFF, or reports an error, or is cut by power loss; without success the sector is untouched, finished or torn, and nothing outside it changes |
| `W25q.Flash.Program` | src/drivers/w25q.h:25-27 | a program ANDs at most 256 bytes inside one page; it may fail, be cut, or report success without having worked, and then leaves the bytes it was given untouched, finished or torn |
| `W25q.ProgramOnBlank` | src/drivers/w25q.h:21-27 | programming erased bytes stores exactly the data |
| `Crc.ComputeCrc32` | src/persist/crc.c:3-14 | the nested loops compute the fold of the reflected polynomial 0xEDB88320 with complemented seed and result |
| `Crc.StreamCrc.Update` | src/persist/ota_stage.c:22-33 | feeding more bytes continues the fold from the register held |
| `Crc.StreamAll` | src/persist/ota_stage.c:17-38 | feeding any split of a message to the streaming checksum gives the one-shot checksum of the message |
| `Crc.Crc32DetectsBursts` | src/persist/crc.c:3-14 | two messages of equal length that agree outside four consecutive bytes and share a CRC-32 are equal; so every single-byte corruption is detected |
| `Crc.ResidueDecides32` | src/persist/pingpong.c:24-31 | a record carries its right CRC-32 exactly if running over record and checksum leaves the fixed residue |
| `Crc.ComputeCrc16` | src/persist/crc16.c:3-15 | the nested loops compute the fold of the polynomial 0x1021 from seed 0xFFFF |
| `Crc.Crc16DetectsBursts` | src/persist/crc16.c:3-15 | two messages of equal length that agree outside two consecutive bytes and share a CRC-16 are equal |
| `Crc.ResidueDecides16` | src/proto/tlv.c:54-57 | a frame carries its right CRC-16, high byte first, exactly if running over body and checksum leaves the fixed residue |
| `BlankCrc.BlankChecksum` | src/persist/pingpong.c:41 | among the sizes a record body can have, and four bytes, the CRC-32 of all-0xFF bytes is 0xFFFFFFFF exactly for four bytes |
| `BlankRecord.Crc16NeverBlank` | src/persist/event_log.c:20-29 | no event record that carries its right CRC-16 is all 0xFF, so a stamped record is never taken for a blank slot |
| `PingPong.Crc32RejectsBlank` | src/persist/pingpong.c:41 | an erased slot of any legal record size fails its CRC-32 |
| `PingPong.ErasedEightBytesCheckOut` | src/persist/pingpong.c:41 | eight erased bytes would carry their own right CRC-32: the lower bound on the size does real work |
| `PingPong.CorruptionRejected` | src/persist/pingpong.c:24-35 | a valid record with up to four consecutive bytes changed is not valid |
| `PingPong.ReadAndValidate` | src/persist/pingpong.c:24-35 | reads a slot; valid exactly if the stored checksum is right, and then reports its counter |
| `PingPong.Load` | src/persist/pingpong.c:37-63 | yields the valid slot with the higher counter (A on a tie), zeros and 1 if none is valid, -1 for a size outside 12..256 |
| `PingPong.NextMeans` | src/persist/pingpong.c:79-88 | a store writes slot A with counter 1 first, and after that the other slot with the next counter, which wraps at 2^32 |
| `PingPong.Stamp` | src/persist/pingpong.c:87-91 | fills counter and checksum into the caller's record and nothing else |
| `PingPong.WriteTarget` | src/persist/pingpong.c:93-98 | after erase, program and read-back the target slot holds the new record or is invalid or is as before; success means it holds the record; the other slot is untouched |
| `PingPong.RetirePrior` | src/persist/pingpong.c:100-103 | after the final erase the prior slot is as before or invalid; the new one is untouched |
| `PingPong.StoreOutcome` | src/persist/pingpong.c:93-103 | whatever mishap the flash operations of a store suffer, what a load finds afterwards is the old record or the new one |
| `PingPong.Commit` | src/persist/pingpong.c:93-103 | one store is atomic under errors and power loss at any operation, and leaves the slots fit for the next one |
| `PingPong.Store` | src/persist/pingpong.c:65-108 | atomic: a load finds the old record or the new one, which carries the bytes given; 0 means the new one, with the prior slot retired; a store that meets no fault succeeds; nothing outside the two sectors changes |
| `PingPong.NeverOlder` | src/persist/pingpong.c:65-108 | over a whole life of stores, failures, power cuts and reboots, a load finds the record of an attempt after which none was committed |
| `PingPong.Life` | src/persist/pingpong.c:37-108 | any sequence of stores of given records with a reboot after each yields a chronicle of atomic steps, and what a load finds is its last entry |
| `CrashState.CrashLatch.BootIncrement` | src/persist/crash_state.c:35-83 | counts a crash boot (saturating at 255), resets on any other boot, sets the flag from five on, and stores the count |
| `CrashState.CrashLatch.ResetAlive` | src/persist/crash_state.c:85-104 | the alive marker clears count and flag once stored, writes nothing if there is nothing to clear, and keeps the flag if the store fails |
| `CrashState.StreakCountsBack` | src/persist/crash_state.c:59-64 | a streak of n is reached exactly if the last n events are all crash boots |
| `CrashState.LiveThrough` | src/persist/crash_state.c:35-104 | with every store succeeding, safe-fail is set after an event exactly if it and at least the four before were crash boots, with no deliberate boot or alive marker among them |
| `CrashLockout.CrashLoopLocksOut` | src/tasks/safety_task.c:595-608 | after such a history the charger boots into a fault and is locked out at every tick end until the flag has dropped and a clear that covers the fault is taken after that; the fault is up exactly until then; after any other history the latch neither raises it nor keeps the charger from becoming ready |
| `CrashLockout.UpExactlyUntilCleared` | src/tasks/io_task.c:165-180 | in a power cycle in which the alive marker drops the flag at some tick, the fault is up exactly if the flag was set at boot and no covering clear was taken since it dropped |
| `BootConfig.Config.LoadConfig` | src/persist/boot_config.c:8-43 | the cache becomes the stored record, or all-zero defaults of version 1 that are stored at once: a return of 0 means the cache is what is on the flash |
| `BootConfig.Config.StoreConfig` | src/persist/boot_config.c:50-68 | 0 means the cache, with version 1, is what is on the flash; otherwise the flash holds the old payload or the cached one |
| `BootConfig.Config.SetPendingOta` | src/persist/boot_config.c:121-139 | a return of 0 puts the value on the flash exactly unless the cache already held it while the flash did not; whatever the return, every other setting stays as it was, in the cache and on the flash |
| `BootConfig.FailedThenRetried` | src/persist/boot_config.c:130-138 | the gap is real: after one failed erase the retry of the same setting returns 0 and writes nothing |
| `BootConfig.OtaWritten` | src/persist/boot_config.c:135-137 | the staged-image fields read back as written |
| `EventLog.Log.Classify` | src/persist/event_log.c:17-29 | 0 for all 0xFF, 1 for a right checksum, -1 otherwise |
| `EventRing.Format.StampedIsValid` | src/persist/event_log.c:92-93 | a stamped record is valid, carries the boot count, and keeps the timestamp and every byte from the fault id to the last measurement |
| `EventRing.Sure` | src/persist/event_log.c:88-115 | after n appends none of them can have been touched again while n is below 63 sectors, and never fewer than the newest 63*128 after that |
| `EventRing.NewestSurvive` | src/persist/event_log.c:88-115 | those records are in their slots, whatever became of the slots ahead of the head |
| `EventRing.EraseTouchesAhead` | src/persist/event_log.c:98-109 | an erase at the head, worked, failed or torn, changes only the slots from the head to the end of its sector, the oldest ones |
| `EventRing.ProgramTouchesHead` | src/persist/event_log.c:111 | a program at the head, however it ends, changes only that slot; if it works the slot holds what was there ANDed with the record |
| `EventRing.OnlyBlankKeepsAll` | src/persist/event_log.c:111 | a slot keeps every record programmed onto it if and only if it is blank |
| `EventRing.RingGrows` | src/persist/event_log.c:111-113 | whatever an append has put into the head slot is the newest entry of the ring |
| `EventRing.BlankRegionIsTidy` | src/persist/event_log.c:31-81 | erased flash is the tidy ring of the empty history |
| `EventRing.TidyGrows` | src/persist/event_log.c:88-115 | a record programmed onto the blank head of a tidy ring leaves a tidy ring with the record, inside a sector, at its end and across the wrap |
| `EventRecovery.LaterBootIsNewer` | src/persist/event_log.c:59-61 | a record stamped at a later boot is the newer one for the scan, whatever the two timestamps, which start over at every boot |
| `EventRecovery.BootsKeepOrder` | src/persist/event_log.c:59-61 | so the keys of a log of many boots never fall, if within each boot the timestamps do not |
| `EventRecovery.AppendKeepsOrder` | src/persist/event_log.c:88-93 | an append of a later boot, or of a later timestamp of the same boot, keeps what recovery needs |
| `EventRecovery.ScanRecoversHead` | src/persist/event_log.c:47-73 | the slot after the newest key is the head, across wrap-around and whatever invalid or older is left ahead of the head |
| `EventRecovery.RecoversExactly` | src/persist/event_log.c:47-73 | on a ring of valid records whose keys do not fall a boot finds the head if and only if no record of the very boot and timestamp of the newest stands in a higher slot, that is, unless events of one tick were appended across the wrap |
| `EventRecovery.TidyIsRecoverable` | src/persist/event_log.c:31-81 | a tidy ring with ordered keys is one whose place a boot finds |
| `EventRecovery.EraseKeepsRecoverable` | src/persist/event_log.c:98-109 | an erase at the head, however it ends, leaves a boot able to find the place, if what is torn fails its checksums |
| `EventLog.Log.Init` | src/persist/event_log.c:31-81 | the scan always resumes after the newest valid record (highest boot count, then timestamp, then slot), and resumes exactly a history whose place can be found |
| `EventLog.Log.Append` | src/persist/event_log.c:88-115 | under every fate of erase and program: only boot count and checksum of the record change; only slots ahead of the head change; 0 adds to the history what the head slot then holds, which on an honest device is what was there (blank at the start of a sector) ANDed with the stamped record; any other answer adds nothing; from a tidy ring 0 means the record is kept as given; if torn bytes fail their checksums, a boot finds the old history or the new one |
| `EventLog.RetryLosesRecord` | src/persist/event_log.c:111-114 | the case in which 0 does not mean kept: the device programs the record and then answers with an error, the head stays, and the next append, which answers 0, leaves the two records ANDed |
| `EventLog.BlankProbeMisleads` | src/persist/event_log.c:97-109 | and after an erase that cleared only the first record of a sector: the probe finds it blank, and of two appends that answer 0 the second is spoilt |
| `EventLog.TornEraseHides` | src/persist/event_log.c:97-109 | a torn erase reaches that state |
| `EventLog.Log.ReadNth` | src/persist/event_log.c:117-122 | reads physical slot n and classifies it |
| `EventLog.AppendThenReboot` | src/persist/event_log.c:31-115 | append under any fates, cut the power anywhere or not, boot: the log resumes with the old history or with the record appended, if boot counts and timestamps are in order |
| `EventLog.Log.GetFaultLog` | src/tasks/persist_task.c:350-374 | emits the valid records met walking back from the head, up to the clamped request; if the history is valid they begin with its newest records, newest first, and on a tidy ring they are exactly those |
| `OtaStage.Begin` | src/persist/ota_stage.c:42-59 | 0 leaves the image's bytes blank; -3 for size 0, -2 above 1 MB, -1 on a device error; nothing outside the sectors of the image changes |
| `OtaStage.PieceLength` | src/persist/ota_stage.c:72-75 | a piece ends at the end of the data or of the page, and touches exactly one page more |
| `OtaStage.Write` | src/persist/ota_stage.c:61-82 | terminates; every program stays in one page; success issues exactly one program for each page touched; with errors reported the bytes read back as the data ANDed in; and whatever happens nothing outside the addressed bytes changes |
| `OtaStage.ComputeStagedCrc` | src/persist/ota_stage.c:84-100 | the checksum of exactly the first size bytes of the region |
| `OtaSession.Session.Reset` | src/tasks/persist_task.c:117-124 | no session, nothing accepted, checksum at its seed |
| `OtaSession.Session.HandleBegin` | src/tasks/persist_task.c:391-443 | InvalidPayload, TooLarge, EraseFail and Ok exactly in the order of the checks; Ok starts a session over a blank region; a failed erase ends any session; a refusal changes nothing |
| `OtaSession.Session.HandleChunk` | src/tasks/persist_task.c:445-495 | each refusal exactly in its case, and then the flash is untouched; accepted only in the session, at the next offset, within the announced size and once written; the acknowledgement carries the accepted length and the checksum of exactly the accepted bytes |
| `OtaSession.Session.HandleCommit` | src/tasks/persist_task.c:497-556 | each refusal exactly in its case: another token, too few bytes, a wrong checksum, and then flash and cache are untouched; Ok only if the announced size was accepted and the bytes read back have the announced checksum; the other settings of the boot configuration stay |
| `OtaSession.Session.HandleAbort` | src/tasks/persist_task.c:558-574 | ends the session only if the token matches |
| `OtaSession.Session.Serve` | src/tasks/persist_task.c:391-574 | under any sequence of requests and flash faults the session is the one that the answers tell of; chunks and commits are answered Ok only with the token of the open session; a sequence that ends with a COMMIT answered Ok leaves an image of the announced size and checksum; the other settings of the boot configuration stay, and all of it stays if no COMMIT names the open session |
| `OtaSession.AcceptedIsPrefix` | src/tasks/persist_task.c:460-489 | if a client only ever sends pieces of one image under its token, duplicated, reordered, dropped or stale, what is accepted is a prefix of that image |
| `OtaSession.OpenExactly` | src/tasks/persist_task.c:391-574 | the session that the answers tell of is that of the last BEGIN answered Ok and not ended since by a BEGIN or an ABORT with its token |
| `OtaSession.OkNamesOpenSession` | src/tasks/persist_task.c:445-511 | a CHUNK and a COMMIT are answered Ok only with the token of that session |
| `OtaSession.WithinAnnounced` | src/tasks/persist_task.c:408-411 | what is accepted never outgrows the announcement, nor that the region |
| `OtaSession.RepeatedChunkRefused` | src/tasks/persist_task.c:465-470 | an accepted chunk is refused with OFFSET_MISMATCH when it comes again |
| `OtaSession.ConfigUndisturbed` | src/persist/ota_stage.h:7-22 | staging never disturbs the boot configuration |
| `UartRing.Ring.Interrupt` | src/hal/gd32f205/uart5.c:73-105 | a clean byte is accepted exactly if fewer than 255 are queued; anything else is drained and changes nothing |
| `UartRing.Ring.Preempt` | src/hal/gd32f205/uart5.c:93-102 | a batch of interrupts accepts exactly the first clean bytes for which there is room, in order, and leaves the oldest byte alone |
| `UartRing.Ring.Pop` | src/hal/gd32f205/uart5.c:15-26 | interrupted anywhere between its reads and writes, it takes bytes in the order accepted, none lost, doubled or overwritten; fewer than asked for only if everything accepted before was taken |
| `UartRing.Ring.PopByte` | src/hal/gd32f205/uart5.c:18-24 | one round of the loop takes the oldest byte or finds the ring empty |
| `UartRing.Enqueued` | src/hal/gd32f205/uart5.c:95-100 | writing at the head appends to the queue, across the wrap |
| `UartRing.FullExactly` | src/hal/gd32f205/uart5.c:96-97 | the fullness test holds exactly with 255 bytes queued |
| `Tlv.Build` | src/proto/tlv.c:4-39 | writes exactly the frame and returns its length, or -1 and changes nothing if payload or buffer do not fit |
| `Tlv.Parse` | src/proto/tlv.c:41-65 | reads the verdict on the first len bytes without reading beyond them |
| `Tlv.Codec.ParseOfBuilt` | src/proto/tlv.c:4-65 | parsing a built frame, whatever follows, gives the frame and its length |
| `Tlv.Codec.FrameLayout` | src/proto/tlv.c:4-39 | where start bytes, length, command, sequence number, payload and checksum stand in a frame |
| `Tlv.Codec.BuiltOfParsed` | src/proto/tlv.c:41-65 | whatever the parser accepts is a built frame, byte for byte |
| `Tlv.Codec.VerdictIsFinal` | src/proto/tlv.c:41-65 | a frame found or an error reported does not change when more bytes arrive |
| `Tlv.Codec.PrefixNeedsMore` | src/proto/tlv.c:45-53 | every proper prefix of a frame asks for more bytes |
| `Tlv.BurstRejected` | src/proto/tlv.c:46-57 | a frame with up to two consecutive bytes changed outside its length field is never accepted |
| `GreedyParse.ParseInInstalments` | src/tasks/comms_task.c:549-576 | parsing what was kept together with what came next equals parsing the whole stream at once |
| `GreedyParse.SentFramesArrive` | src/tasks/comms_task.c:555-566 | frames sent back to back are found exactly, whatever follows |
| `GreedyParse.NoiseIsSkipped` | src/tasks/comms_task.c:567-574 | bytes that start no frame cost nothing but themselves |
| `GreedyParse.EveryByteAccounted` | src/tasks/comms_task.c:551-576 | every byte is in one frame, skipped or left over, in order |
| `GreedyParse.FramesAreTaken` | src/tasks/comms_task.c:551-576 | the frames dispatched are those of the stretches taken |
| `RxAccumulator.ParserIsOrderly` | src/proto/tlv.c:41-65 | the frame parser makes progress and asks for more only below 64 bytes |
| `RxAccumulator.ParserIsSteadfast` | src/proto/tlv.c:41-65 | its verdicts do not change when more bytes arrive |
| `RxAccumulator.TakenIsBuilt` | src/tasks/comms_task.c:555-566 | every dispatched frame stood in the stream in its built form |
| `RxAccumulator.Receiver.Poll` | src/tasks/comms_task.c:534-584 | whatever the cuts and interrupts, frames dispatched and bytes kept are one greedy parse of all bytes taken from the ring |
| `RxAccumulator.Receiver.DispatchAll` | src/tasks/comms_task.c:549-576 | the inner loop terminates, in the state of the greedy parse, with room for another byte |
| `RxAccumulator.Receiver.DropFront` | src/tasks/comms_task.c:559-571 | moves the rest of the accumulator to its front |
| `RxAccumulator.WireIsDispatched` | src/tasks/comms_task.c:534-584 | any concatenation of built frames, even after noise without a start byte, is dispatched exactly and nothing is left over |
| `RxAccumulator.FramesDelivered` | src/hal/gd32f205/uart5.c:15-26 | end to end: if the accepted bytes are such frames and the ring is empty, exactly those frames were dispatched |
| `J1772.Classifier.Step` | src/core/j1772.c:20-33 | one debounce step on the class of the sample |
| `J1772.StreakIsTrailingRun` | src/core/j1772.c:23-28 | candidate and streak are the trailing run of the history, saturating at 255 |
| `J1772.CommittedIsMostRecentRun` | src/core/j1772.c:20-33 | for a depth of 1..255 the committed state is the class of the most recent run of that many equal samples |
| `J1772.NothingCommittedWithoutRun` | src/core/j1772.c:13-33 | without such a run nothing is committed |
| `J1772.ZeroIsOne` | src/core/j1772.c:29-31 | a depth of 0 behaves as 1 |
| `J1772.Classifier.StepAll` | src/core/j1772.c:3-33 | after any samples the classifier is where their history puts it |
| `Fault.Register.Raise` | src/core/fault.c:37-45 | sets the bit, remembers the first fault, and reports edge, repetition or a bad index |
| `Fault.Register.Clear` | src/core/fault.c:47-64 | clears the bit unless it is the ground fault, and names the lowest remaining fault |
| `Fault.Register.AnyLatchedActive` | src/core/fault.c:28-35 | true exactly if a latched bit is set |
| `Fault.Register.ClearAllClearable` | src/core/fault.c:66-84 | clears every latched bit but the ground fault and counts them |
| `Fault.ClearRemovesExactly` | src/core/fault.c:47-84 | a fault goes away by request exactly if it is covered and is not the ground fault |
| `Fault.FirstIsKept` | src/core/fault.c:37-84 | the fault named first stays so while it is active, and gives way to the lowest that is left |
| `Fault.LatchedAfter` | src/core/fault.c:28-84 | what raising and clearing do to the set of latched faults |
| `Fault.OperationsKeepWellFormed` | src/core/fault.c:37-84 | all set bits stay in the catalogue and the first fault named is always set |
| `GfciPolicy.Detector.Step` | src/core/gfci_policy.h:68-94 | one tick of the policy |
| `GfciPolicy.ContextIsHistory` | src/core/gfci_policy.h:68-94 | streak, warning latch and fault latch are exactly what the history of readings says |
| `GfciPolicy.ActionsAreEdges` | src/core/gfci_policy.h:68-94 | the fault is raised in exactly the first tick that trips under a policy other than WARN; a warning in exactly the first such tick of a low episode under WARN |
| `OverTemp.Detector.Step` | src/core/over_temp.h:68-104 | one tick on the hottest populated sensor |
| `OverTemp.StreakWithinRun` | src/core/over_temp.h:68-104 | a trip needs five hot samples in a row, a clear a sample in which every populated sensor is cool |
| `SoftOverCurrent.Amps` | src/tasks/safety_task.c:455-467 | the advertised current is always 6..48 A |
| `SoftOverCurrent.OfferIsLeast` | src/tasks/safety_task.c:455-467 | before a derate the offer is the least of 48 A, what the DIP switch allows and the persisted request, if any |
| `SoftOverCurrent.OfferIsDerated` | src/tasks/safety_task.c:463-466 | a derate is taken off it, down to 6 A |
| `SoftOverCurrent.PolledIsSound` | src/tasks/safety_task.c:1682-1735 | the derate never exceeds 42 A |
| `SoftOverCurrent.RampLowers` | src/tasks/safety_task.c:1714-1725 | each ramp strictly lowers the advertisement, by its step, and not below 6 A |
| `SoftOverCurrent.AtMost23Ramps` | src/tasks/safety_task.c:1714-1725 | at most 23 ramps lead to the floor, and from 48 A it takes exactly 23 |
| `SoftOverCurrent.FaultExactlyInTime` | src/tasks/safety_task.c:1682-1735 | while the current stays over, the fault comes after exactly the number of polls left, no earlier and no later |
| `SoftOverCurrent.FaultWithin24Windows` | src/tasks/safety_task.c:1682-1735 | that is at most 24 times 76 polls |
| `EvseTask.Supervisor.EvseTransition` | src/tasks/safety_task.c:511-550 | the session starts and ends with charging; a fault opens the contactor, asserts the latch and drives the pilot at once; leaving a fault releases the latch |
| `EvseTask.Supervisor.TickOnce` | src/tasks/safety_task.c:1943-2160 | a tick is the composition of its steps in this order |
| `EvseTask.Supervisor.BootUp` | src/tasks/safety_task.c:1871-1927 | self-test and crash latch decide between ready and fault |
| `EvseTask.Supervisor.Live` | src/tasks/safety_task.c:1823-2160 | boot and any number of ticks follow the specification and end well |
| `EvseInvariant.TrippedIsCore` | src/tasks/safety_task.c:511-550 | a latched fault keeps the invariant and ends in the fault phase |
| `EvseInvariant.ProcessedIsCore` | src/tasks/safety_task.c:934-1096 | every request keeps the invariant and starts nothing |
| `EvseInvariant.CheckedIsCore` | src/tasks/safety_task.c:1978-2009 | the detectors keep the invariant; a fault or the crash latch ends in the fault phase |
| `EvseInvariant.DrivenEndsWell` | src/tasks/safety_task.c:2014-2018 | after phase and relay the contactor is closed exactly while charging at C |
| `EvseInvariant.MeteredIsCore` | src/tasks/safety_task.c:2029-2042 | the detectors that run after the relay keep the invariant |
| `EvseInvariant.TickEndsWell` | src/tasks/safety_task.c:1943-2160 | at the end of every tick: closed iff charging iff session; closed implies pilot at C; fault phase iff a latched fault iff force-open latch, and then contactor open and pilot at state F; in a window the pilot is at F |
| `EvseRuns.BootEndsWell` | src/tasks/safety_task.c:1871-1927 | the boot path ends so, in ready exactly if the four analog inputs are off the rails, the last pilot sample is at 1500 mV or more and the crash flag is down; the pilot is debounced from the boot samples, and every streak, latch and history the run theorems start from is at zero |
| `EvseRuns.RunEndsWell` | src/tasks/safety_task.c:1943-2160 | and so does every tick of every run |
| `EvseRuns.DrainedFaults` | src/tasks/safety_task.c:934-1109 | the requests of a tick take away exactly the faults they cover |
| `EvseRuns.TickLatches` | src/tasks/safety_task.c:934-2042 | a tick takes no latched fault away but by a request that covers it; the fault of the crash latch is raised exactly by its flag |
| `EvseRuns.LatchedStays` | src/tasks/safety_task.c:511-550 | any latched fault locks out every run in which no clear that covers it is taken: fault phase, contactor open, force-open latch, pilot at state F |
| `EvseRuns.GroundFaultIsAbsorbing` | src/tasks/safety_task.c:1428-1464 | once the ground fault is raised every continuation stays locked out: no clear covers it |
| `EvseRuns.SafeFailLocksOut` | src/tasks/safety_task.c:595-608 | while the crash latch is set every tick ends locked out, even if the fault is cleared by request |
| `EvseRuns.HistoryExplains` | src/tasks/safety_task.c:806-828 | the dwell counter is at most the trailing ticks at C; a session is authorised exactly if a known card came with no unplugging since |
| `EvseRuns.ClosingEdge` | src/tasks/safety_task.c:793-861 | the contactor closes only after fifty ticks at C and, where required, a known card with no later unplugging; and a session starts with it |
| `EvseClosing.ClosesExactly` | src/tasks/safety_task.c:793-861 | over every run the contactor closes in a tick exactly if no latched fault is up at its end, the pilot is at C, the charger is ready and has been ready or charging at C for the forty-nine ticks before, and, where required, a known card stands |
| `EvseClosing.DwellExactly` | src/tasks/safety_task.c:806-828 | the dwell counter is exactly the run of ticks at C while ready or charging, up to fifty |
| `EvseClosing.PauseOpens` | src/tasks/safety_task.c:1000-1009 | in every run from boot a tick whose last request is a pause ends with the contactor open |
| `EvseClosing.PauseHolds` | src/tasks/safety_task.c:793-837 | outside a replug window, and without requests, a pause goes on exactly unless a latched fault comes up, the sensors trip or the vehicle is unplugged |
| `EvseClosing.PilotOutput` | src/tasks/safety_task.c:481-509 | the pilot is at state F exactly in a window or a fault, carries the current on offer exactly while ready or charging at B, C or D, and is idle exactly otherwise |
| `EvseClosing.PilotKept` | src/tasks/safety_task.c:511-550 | to the end of the tick that only changes to state F, for a fault |
| `EvseCards.LearnsExactly` | src/tasks/safety_task.c:2093-2158 | over every run a presented card is learnt exactly if the learn window was armed by request in this tick or one of the 1499 before, and no card has been presented since |
| `EvseCards.GrantsExactly` | src/tasks/safety_task.c:2093-2158 | and a tick grants an authorisation exactly if it presents a known card outside that window |
| `EvsePilot.FaultEndsAfresh` | src/tasks/safety_task.c:938-979 | a clear ends a fault exactly if it takes the last latched one; then the charger is ready with an unknown pilot |
| `EvsePilot.PilotExactly` | src/tasks/safety_task.c:1943-1976 | in every run from boot the debounced pilot is what the samples since the last such clear or the last end of a replug window make of it |
| `EvsePilot.ReplugExactly` | src/tasks/safety_task.c:1030-1067 | what a simulated replug does, exactly when |
| `EvsePilot.FourAtMost` | src/tasks/safety_task.c:1098-1109 | a tick takes the first four requests and no more |
| `EvseHeat.UncouplingRequests` | src/tasks/safety_task.c:934-1063 | exactly which requests break the coupling of over-temperature and cooling down |
| `EvseHeat.HotMeansOpen` | src/tasks/safety_task.c:1775-1821 | in every run in which none of these is met, over-temperature means cooling down or fault with the contactor open, and cooling down means over-temperature |
| `EvseHeat.HeatEdges` | src/tasks/safety_task.c:1775-1821 | raised only by the fifth hot tick in a row; when up before the checks, taken away by a tick exactly if every populated sensor is cool |
| `EvseHeat.HotTicksRaise` | src/tasks/safety_task.c:1775-1821 | five hot ticks in a row do raise it, unless it is cleared by request meanwhile |
| `EvseSensors.GroundFaultExactly` | src/tasks/safety_task.c:1428-1464 | from a start without it, the ground fault is up exactly if at some tick the line had been low for three ticks under a policy other than WARN |
| `EvseSensors.RailReported` | src/tasks/safety_task.c:1345-1399 | after a tick an analog input is reported stuck exactly if it was on a rail in the last five ticks outside faults, or was reported and has not been cleared by request |
| `EvseSensors.PilotLossReported` | src/tasks/safety_task.c:1111-1146 | a missing pilot is reported only after three ticks in a row at E outside faults and windows; where nothing is cleared it is up exactly if there have just been three, or it was up |
| `EvseMeter.WeldReported` | src/tasks/safety_task.c:1520-1568 | a measurement reports a weld exactly if the last three measurements saw 500 mA or more through an open contactor, at least eleven measurements after it was last seen closed; nothing else does |
| `EvseMeter.WeldLocksOut` | src/tasks/safety_task.c:1559-1567 | and then the charger is locked out |
| `EvseMeter.StuckReported` | src/tasks/safety_task.c:1578-1609 | stuck open is reported by a poll whose last 75 observations were all bad, and by nothing else |
| `EvseMeter.HardReported` | src/tasks/safety_task.c:1627-1660 | a hard over-current is reported by a poll whose last 13 observations were above 120 % of the advertisement or 60 A, and by nothing else |
| `EvseDerate.TickDerate` | src/tasks/safety_task.c:1682-1747 | one tick: the end of a session takes the derate away, a ramp adds its step, and the streak counts the polls that were over without ramping |
| `EvseDerate.DerateExplained` | src/tasks/safety_task.c:1682-1747 | there is a derate exactly if some tick has ramped and no session has ended in a later one |
| `EvseDerate.SessionStartsUnderated` | src/tasks/safety_task.c:1737-1747 | a session starts without a derate exactly if no ramp since boot is left without a later end of a session, or one ends in that very tick |
| `EvseDerate.SoftReported` | src/tasks/safety_task.c:1682-1735 | the advertisement is lowered exactly by a poll that is over after 75 polls that were over; the fault comes up exactly there if nothing is left to lower, and goes exactly with a poll that is not over or by request |
| `EvseDerate.AbsentReported` | src/tasks/safety_task.c:1481-1509 | a missing supply is reported after a poll exactly if the last three polls found none, or it was up, was not cleared by request and is still not found |
| `EvseWindow.WindowBreakers` | src/tasks/safety_task.c:934-1063 | exactly which requests make the charger ready during a replug window, and which pause it again |
| `EvseWindow.TickKeepsWindow` | src/tasks/safety_task.c:934-2018 | a tick keeps the charger out of ready and charging in a window exactly unless it was released by request, unplugged while paused or has cooled down, with no fault up and no trip for heat in the tick |
| `EvseWindow.WindowHeldExactly` | src/tasks/safety_task.c:482-486 | over whole runs: that holds at every tick end exactly if no tick was such; and then the contactor is open at every tick end in a window |
| `EvseWindow.ContactorOpenInWindow` | src/tasks/safety_task.c:482-486 | so in every run from boot in which no tick was such |
| `EvseWindow.ClosedExactly` | src/tasks/safety_task.c:793-861 | a tick ends with the contactor closed exactly if no latched fault is up, the pilot is at C, and the charger was charging after the checks or ready with the dwell complete and authorised |
| `EvseWindow.OpenThroughoutExactly` | src/tasks/safety_task.c:482-486 | over whole runs the contactor is open at all tick ends in windows exactly if no tick closes it by that rule |
| `Evse.LimitReached` | src/tasks/safety_task.c:1383-1393 | a detector reaches its limit exactly if that many observations in a row saw the condition |
| `EvseGaps.ClosesWhileHot` | src/tasks/safety_task.c:1030-1067 | a run from boot ends with the contactor closed and over-temperature active: five hot ticks, a replug alone, its window with the pilot read at E, then 52 ticks at C |
| `EvseGaps.ReplugCanStayClosed` | src/tasks/safety_task.c:1010-1013 | a run from boot: a replug and a resume in one drain leave the contactor closed at three tick ends of the window |
| `EvseGaps.StartsDerated` | src/tasks/safety_task.c:1682-1747 | a run from boot: a session starts at 44 of 48 A because the ramp fired after the previous session had ended |
| `EvseGaps.ClearStrands` | src/tasks/safety_task.c:938-979 | clearing the over-temperature fault while cooling down leaves the charger cooling down without it |
| `EvseGaps.StaysStranded` | src/tasks/safety_task.c:1775-1821 | and there it stays, short of a fault, until it gets hot again, a replug or a clear |
| `MqttCodec.EncodeRemLen` | boards/eluminocity-ch21130/companion/src/mqtt_codec.c:4-17 | writes the 1..4 bytes of section 2.2.3 of MQTT 3.1.1, or -1 above 268435455 |
| `MqttCodec.DecodeRemLen` | boards/eluminocity-ch21130/companion/src/mqtt_codec.c:19-34 | decodes from at most four bytes and never reads beyond the input |
| `MqttCodec.RemLenReadBack` | boards/eluminocity-ch21130/companion/src/mqtt_codec.c:4-34 | decoding an encoding followed by anything gives the value and consumes exactly the bytes written |
| `MqttCodec.UnpaddedIsRemLen` | boards/eluminocity-ch21130/companion/src/mqtt_codec.c:19-34 | the decoder undoes the encoder exactly on encodings that are not padded; padded ones it accepts too |
| `MqttCodec.RemLenBytes` | boards/eluminocity-ch21130/companion/src/mqtt_codec.c:4-17 | the bytes of an encoding of one to four, digit by digit |
| `MqttCodec.PutStr` | boards/eluminocity-ch21130/companion/src/mqtt_codec.c:37-46 | a two-byte length and the string, or -1 if it does not fit |
| `MqttCodec.Finalize` | boards/eluminocity-ch21130/companion/src/mqtt_codec.c:50-65 | moves the body against the header it needs and writes that header |
| `MqttCodec.EncodePublish` | boards/eluminocity-ch21130/companion/src/mqtt_codec.c:108-125 | exactly the packet of section 3.3 of MQTT 3.1.1, or -1 exactly if it does not fit |
| `MqttCodec.DecodePublish` | boards/eluminocity-ch21130/companion/src/mqtt_codec.c:166-205 | rejects other packets, other qualities of service and inconsistent lengths, all reads in bounds |
| `MqttCodec.AcceptedExactly` | boards/eluminocity-ch21130/companion/src/mqtt_codec.c:166-205 | a packet is accepted with a topic and a payload exactly if it is a PUBLISH of quality of service 0 whose length encoding is complete and whose body is those two |
| `MqttCodec.PublishReadBack` | boards/eluminocity-ch21130/companion/src/mqtt_codec.c:108-205 | decoding a built packet, whatever follows, gives topic and payload back |
| `MqttCodec.ParsedRebuilt` | boards/eluminocity-ch21130/companion/src/mqtt_codec.c:166-205 | building from what was decoded gives the packet back, if it has no duplicate flag and an unpadded length |

## Left out

- EventLog.Log.Append: a record appended onto a slot that was not blank is in the history as what the slot then holds; whether that passes its checksum by chance is not said.
- EventLog.Log.Init: a boot count that falls back, or a tick count that wraps within one boot, is covered only by the first statement (the head follows the newest record by key).
- EventLog.Log.SetBootCount: only sets the field; that a record carries it is in the contract of `EventLog.Log.Append`.
- EvseTask.Supervisor.TickOnce: the methods for the single steps have contracts of their own and no row; each does in place what the function of its name in `Evse` says.
- Fault.Register.Raise: the active bitmap is a set of bit indices, not a 32-bit word; all indices are below 21, so no shift overflows.
- PingPong.Store: checksums are a parameter of the proof (any checksum that rejects an erased slot); `PingPong.Crc32RejectsBlank` shows CRC-32 to be one.
- Tlv.Build: likewise the frame checksum; `Crc.ComputeCrc16` is the one used.
- UartRing.Ring.Pop: the interrupt handler is not itself interrupted, and reads and writes of a 16-bit index are single steps, as on the one core of this chip.
- OtaStage.Write: a fault in the middle leaves the region as the device left it; only its confinement to the region is stated.
- EvseTask.Supervisor.HandleSwipe: a swipe posts its pause or resume to the inbox, where it is one of the arbitrary requests of a later tick.
- EvseTask.Supervisor.CheckGfci: whether the line reads low outside the handshake window is one arbitrary input per tick.
- EvseTask.Supervisor.ApplyCp: the duty cycle for an advertised current is not computed.
- Session records, energy integration, fault-event records and telemetry, which read the state and do not change what is modelled.
- The protective-earth and cable-rating detectors and the legacy relay-feedback detectors, switched off by the default build flags; the pilot-regression check, which only logs.
- The ground-fault self-test handshake: hardware timing.
- The session log (the event-log ring with fewer sectors), the boot counter and the RFID reader and its list.
- The flash regions of the event log and of the RFID list overlap in the source; each component is verified on its own region.
- Connect, subscribe, ping and disconnect packets, and the rest of the companion daemon.
- Applying a staged image at boot: hardware.
- Chip registers, clocks, the scheduler, LED, buzzer, buttons and formatting.
