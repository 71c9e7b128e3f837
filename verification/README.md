# GD32 bridge firmware: verified model

The firmware keeps a supervisor MCU reachable through field updates, power cuts and two
interrupt-driven transports. This project models the parts of it where that is hard, and
proves what they promise:

* **OTA updates.** Two metadata pages chosen by rank, two image slots, the TRIAL/confirm
  protocol with its watchdog fallback, and a background erase that transport interrupts may
  overtake at any point (`OtaLayout`, `Ota`, `OtaSafety`, `OtaFaults`, `OtaRollback`,
  `OtaFloor`, `OtaSession`, `OtaStream`, `OtaVerdicts`, `OtaDevice`), on top of the flash funnel
  (`Fmc`).
* **Boot flags.** The second two-page store, with its queue and RAM cache (`BootConfig`).
* **ADC DSP.** Chunked blob upload under a coverage bitmap (`DspStage`), the chain pool
  (`DspPool`), the pump that shares two hardware blocks with interrupt handlers (`DspPump`,
  `DspRecovery`), what it does with every sample (`DspLedger`), and the ring it fills
  (`ProcRing`).
* **Framing.** Both CRCs against their bit-serial definitions (`Crc32`, `Crc16`) and both
  transports' seams (`TransportI2c`, `TransportSpi`).
* **Timers and bus timing.** The auto-reload mirror (`PwmMirror`) and two fixed-point
  derivations (`BusTiming`).

Code that computes a value is a function. Code that works on state step by step is a class
whose methods are proved to perform the steps of a specification (`OtaDevice.Device`,
`BootConfig.Config`, `DspStage.Stage`, `DspPool.Device`, `ProcRing.Ring`, both
`Slave` classes, `Fmc.Flash`, `PwmMirror.PwmTimer`). How flash behaves, and what a dispatched
command answers, are arguments of these methods: none of them may choose to fail. Concurrency
is a state machine: one step per lock section, with an interrupt handler allowed between any
two.

## What the proofs found

* **With every flash fault allowed, the one step that can end in a part with nothing to boot is
  a ROLLBACK** accepted while the newest record names a slot that is not running and the
  running image carries the trial marker (src/ota.c:1085-1150). It puts the running slot itself
  on trial over its own confirmed record; a confirm that is lost once then takes that record for
  its own and erases it (src/ota.c:548-569, 644-672). `OtaRollback.HazardExact` gives the exact
  condition in each state and `OtaRollback.RollbackExact` for each run. Metadata can name a slot
  that is not running after a self-heal erase that failed without effect, or after a COMMIT or
  ROLLBACK record that landed although its program was reported as failed: without these two
  misreports no run is unsafe (`OtaFaults.SafetyExact`).
* **The anti-rollback floor falls exactly when a confirmed newest record with the higher version
  is lost or replaced on the way out**: by a repeated confirm or a BEGIN whose write fails, or by
  a COMMIT, even one without a fault, made while metadata names the slot that is not running
  (`OtaFloor.StepFloor`, `OtaFloor.FloorExactOverRuns`). It takes one of three misreports to get
  there (`OtaFaults.FloorExact`).
* **A converter-overflow recovery can make the pump publish cells the session never wrote.** The
  raw ring is never cleared between sessions. stream_read restarts it at cell 0 and moves
  `pump_raw_read` to the new position without regard to samples the pump has already measured
  (hal/gd32/adc_stream.c:450-470, 489-516). It is harmful exactly when the pump, holding its
  lease, then counts on a cell its session has not written: never once the session has filled
  the ring, and before that when the measured samples, read from the new position, reach beyond
  the cells written so far (`DspRecovery.RecoveryExact` in each state,
  `DspRecovery.IsolationExact` for each run, `DspRecovery.HarmfulInFirstLap`).
* **A recovery that strikes inside a filter batch is undone by that batch's commit**, which writes
  back the position it had read up to (hal/gd32/adc_stream.c:1328). If the ring was rewound below
  that position, the pump takes nothing until the DMA has passed it, and the samples in between
  are never filtered (`DspLedger.TornBatchUndone`, `DspLedger.AheadWaits`). Apart from recoveries
  the pump skips nothing without marking a gap (`DspLedger.NothingSkippedSilently`). A recovery
  also leaves the processed ring alone, so samples filtered before it are served after its BUSY
  reply (`DspLedger.RecoveryKeepsQueue`), and one that strikes while an FFT window is gathered
  leaves that frame without a seam only if it rewinds to the pump's own position
  (`DspLedger.RecoveryBreaksFrame`).
* **The processed ring can skip 2^32 samples without a BUSY reply** although fewer than 2^31 are
  produced between reads: the signed backlog first reads as empty and then aliases. A bound on
  samples between reads of at least m rules that out exactly up to 2^31 - 1024 + m
  (`ProcRing.PollingExact`, `ProcRing.SkipsUnnoticed`).
* **A repeated rising edge of chip select dispatches the same SPI frame again**; at most one
  dispatch per falling edge holds only if edges are paired (`TransportSpi.RepeatedEdges`,
  `TransportSpi.AlwaysEnveloped`).
* **A write longer than the receive buffer is dispatched if its first 69 bytes are a good frame**,
  on both transports, although the comments at src/transport_i2c.c:144-145 and
  src/transport_spi.c:236-237 expect its CRC check to fail (`TransportI2c.RequestsTaken`,
  `TransportSpi.RequestsTaken`; `Transaction` in both says exactly what is dispatched).
* **The two I2C derivations succeed together on exactly 4 MHz to 335,544,320 Hz**, where 4096
  counter units last 25 ms (`BusTiming.BothSucceed`); the timing derivation alone reaches
  639,795,265 Hz, beyond the 500 MHz its comment has in mind (hal/transport_hw_gd32.c:668,
  `BusTiming.DeriveSucceeds`).
* **A DSP chain may start with empty stages**, although the comment at
  hal/gd32/adc_dsp_chain.c:370-378 allows empty stages only at the tail. An accepted chain keeps
  that rule exactly when its first stage is populated (`DspPool.TailOnlyExact`,
  `DspPool.LeadingGapReached`). The model follows the code.

## Assumptions

* Metadata and configuration pages either hold a record whose CRC matches or do not; torn
  content never validates. Undisturbed flash keeps its content.
* A step's fault argument says how its flash operation ended. A power cut inside an operation
  is that fault followed by a reset. Slot operations that fail leave any bytes in the
  addressed range.
* The image in a slot was linked for that slot, so the running slot is the one the bootloader
  chose. Commands are atomic with respect to each other: the dispatch flag refuses a nested
  one (src/protocol.c:1219-1222).
* Fewer than 2^32 session-epoch bumps fall within one erase tick (`OtaSession.Timely`, and
  `OtaDevice.Withheld` for the driver); `OtaSession.OvertakenTick` says what happens otherwise.
* The sample total the pump reads never exceeds the write position, laps included.

## Model

| member | source | states |
|---|---|---|
| OtaSafety.AlwaysBootable | src/ota.c:426-508 | from every provisioned part, over every run of commands, erase and confirm ticks, resets, failed and cut page operations within the fault model, some page holds a confirmed record of an intact image and the boot decision succeeds without its last resort |
| OtaFaults.SafetyExact | src/ota.c:548-619 | that guarantee holds for all runs if and only if the flash misreports neither a self-heal erase nor a COMMIT/ROLLBACK program |
| OtaFaults.Bricked | src/ota.c:644-672 | otherwise a concrete run from a provisioned part ends with nothing to boot |
| OtaRollback.AnyFaultBootable | src/ota.c:426-508 | with every fault allowed at every operation, a provisioned part stays bootable over every run in which no hazardous ROLLBACK is accepted |
| OtaRollback.HazardExact | src/ota.c:1055-1158 | from every state the part can be in, a step has a continuation without ROLLBACK after which nothing boots if and only if it is a ROLLBACK landing a trial record of the running slot over a newest record that names the other |
| OtaRollback.RollbackExact | src/ota.c:1055-1158 | run by run, every cut and rollback-free continuation is safe if and only if no ROLLBACK of the run is such a hazard where it strikes |
| OtaRollback.RollbackExactFromFactory | src/ota.c:1055-1158 | the same from every provisioned part |
| OtaRollback.DivergentWrite | src/ota.c:426-508 | every outcome of a rank-ruled write while metadata names the other slot: all kept, the newest record lost with the running slot's left newest, or replaced |
| OtaRollback.BootHolds | src/ota.c:571-619 | a reset with any cause and any outcome of the self-heal comes up and keeps the invariant |
| OtaSafety.FloorNeverFalls | src/ota_layout.h:196-204 | between any two points of a run the newest record's anti-rollback floor does not decrease |
| OtaFaults.FloorExact | src/ota.c:1027-1041 | floor monotonicity holds for all runs if and only if none of the three misreports is possible |
| OtaFloor.StepFloor | src/ota_layout.h:196-204 | from every state, with every fault allowed and short of a hazardous ROLLBACK, a step lowers the floor if and only if it is a confirm or BEGIN that loses, or a COMMIT that replaces, a confirmed newest record of the higher version |
| OtaFloor.FloorExactOverRuns | src/ota_layout.h:196-204 | run by run, the floor never falls if and only if no step of the run is one of those where it strikes |
| OtaFloor.FloorExactFromFactory | src/ota_layout.h:196-204 | the same from every provisioned part |
| OtaFaults.FallsAfterRollback | src/ota.c:1115-1150 | a rollback over a stale trial record raises the floor to the rejected image's version and the confirm lowers it again |
| OtaFaults.FallsAfterConfirm | src/ota.c:660 | a confirm that landed unnoticed and is repeated and lost lowers the floor |
| OtaFaults.ReachVerified | src/ota.c:675-962 | a whole update, erase walk included, reaches VERIFIED from a provisioned part without any fault |
| OtaFaults.ConfirmErasesFallback | src/ota.c:644-672 | a confirm that finds only the running slot's confirmed record erases it |
| OtaSafety.RankKeepsNewest | src/ota.c:331-337 | on a part running its newest confirmed record, the rank rule always targets the other page |
| OtaSafety.SettledWrite | src/ota.c:426-508 | every outcome of a rank-ruled metadata write on such a part: newest record kept, or the new one newest on the other page with counter room left |
| OtaSafety.BeginKeeps | src/ota.c:675-840 | BEGIN in every outcome keeps the part bootable and the floor unchanged; what it does to the erase target is OtaVerdicts.BeginDemotes |
| OtaSafety.CommitKeeps | src/ota.c:964-1053 | COMMIT keeps the part bootable and does not lower the floor |
| OtaSafety.RollbackKeeps | src/ota.c:1055-1158 | ROLLBACK keeps the part bootable and does not lower the floor |
| OtaSafety.ConfirmKeeps | src/ota.c:644-672 | a confirm in every outcome leaves the fallback intact and does not lower the floor unless it lands unnoticed |
| OtaSafety.HealKeeps | src/ota.c:571-619 | after a rejected trial, self-heal leaves the running image's record newest or alone, with the same floor |
| OtaSafety.DecideOk | src/boot/boot_decide.c:101-139 | from such a flash the decision takes the newest record's slot, or its fallback's if the newest is a rejected trial, never the last resort |
| OtaSafety.BootKeeps | src/ota.c:571-619 | a reset with any cause comes up, keeps the invariant and the floor, and reports a trial exactly for a trial record |
| OtaSafety.WriteKeeps | src/ota.c:842-924 | no chunk, clean or torn, touches the running slot or the metadata |
| OtaSafety.EraseKeeps | src/ota.c:1217-1258 | no erase step touches the running slot or the metadata |
| OtaSafety.TrialInert | src/protocol.c:1066-1070 | while a trial is unconfirmed, no sequence of commands and erase ticks changes flash, session or anything but the note that a frame was seen |
| OtaSafety.TrialWaits | src/ota.c:644-648 | and without a frame not even confirm ticks change anything |
| OtaSession.RunKeeps | src/ota.c:1217-1258 | over every interleaving of commands with the three parts of the erase tick, READY and VERIFIED imply no armed erase, no pending tick and a length in range |
| OtaSession.ConsistentSincePowerUp | src/ota.c:1217-1258 | the same from any power-up |
| OtaSession.ReadyMeansErased | src/ota.c:1217-1258 | READY is entered only by a tick's publication, and then every page was erased since the last accepted BEGIN, nothing programmed since, and the slot reads blank |
| OtaSession.OvertakenTick | src/ota.c:1237-1242 | a publication changes no session field if and only if the erase was disarmed or the epoch moved by no multiple of 2^32 |
| OtaSession.Overtakes | src/ota.c:234-241 | ABORT, a refused and an accepted BEGIN all move a pending tick's epoch; a malformed or busy BEGIN changes nothing |
| OtaSession.OvertakenForGood | src/ota.c:1286-1297 | once overtaken, a tick changes no session field however many steps later it publishes |
| OtaSession.CommitHonest | src/ota.c:964-1045 | whatever led to it, a successful COMMIT makes newest a trial record whose entry is the last accepted BEGIN's declaration and the CRC of the bytes in flash, leaving the other entry and both slots alone |
| OtaSession.VerifyKeeps | src/ota.c:926-962 | VERIFY reaches VERIFIED only with the declared CRC over the bytes in flash |
| OtaSession.ChunkEffect | src/ota.c:842-924 | a chunk changes nothing unless READY, touches the slot only by programming, and otherwise only moves the mark or fails the session; which of these is OtaVerdicts.ReplayExact and ProgramExact |
| OtaSession.PublishKeeps | src/ota.c:1234-1258 | a publication preserves what every state promises about fields, log and slot |
| OtaVerdicts.BeginRoundTrip | src/ota.c:675-701 | the 8-byte and 11-byte BEGIN requests of a length, CRC and version read back as exactly those |
| OtaVerdicts.BeginVerdict | src/ota.c:675-840 | which answer BEGIN gives, each if and only if: malformed, out of range, busy, no counter room or a failed demotion, accepted; malformed and busy change nothing, a refusal fails the session |
| OtaVerdicts.BeginOpens | src/ota.c:810-829 | an accepted BEGIN leaves the session busy with the declared length, CRC and version, nothing received, and the erase armed at the first page |
| OtaVerdicts.BeginDemotes | src/ota.c:759-808 | over existing metadata it takes the erase target out of the newest record: not valid, length and CRC zero, version kept, the rest as it was but for the counter |
| OtaVerdicts.AlwaysDemoted | src/ota.c:759-808 | over every run: while a session is open over existing metadata, the newest record does not describe the slot being updated, and the counter leaves room for COMMIT and confirm |
| OtaVerdicts.HeadroomSuffices | src/ota.c:780-785 | so an open session's COMMIT is not refused for the counter, nor is the confirm after it |
| OtaVerdicts.CutNeverWalks | src/ota.c:759-808 | over every run without a hazardous ROLLBACK, with every fault allowed: while a session is open, no record of either page sends the bootloader into the half-written slot |
| OtaVerdicts.CutNeverWalksFromFactory | src/ota.c:759-808 | the same from every provisioned part |
| OtaVerdicts.ChunkRefused | src/ota.c:842-889 | which WRITE is refused before any byte is looked at, each if and only if: out of session, misshapen or misaligned, beyond the slot; none touches the slot and only the last fails the session |
| OtaVerdicts.ReplayExact | src/ota.c:890-903 | a chunk below the mark is acknowledged if and only if its bytes are those in flash; otherwise IO, session failed with PROGRAM_FAILED; nothing is programmed either way |
| OtaVerdicts.ProgramExact | src/ota.c:904-923 | a chunk above the mark is stored if and only if the flash is blank there and does not fail: data, padding, mark; a failure fails the session, and bytes outside the addressed doublewords are untouched |
| OtaVerdicts.VerifyExact | src/ota.c:926-962 | VERIFY computes the CRC over the declared length in flash, verifies exactly on a match and fails the session otherwise |
| OtaVerdicts.CommitVerdict | src/ota.c:964-1053 | COMMIT is accepted if and only if the image boots, carries the marker, is at or above the floor, and the record is written; which error and session state each refusal leaves |
| OtaVerdicts.RollbackVerdict | src/ota.c:1055-1158 | ROLLBACK is accepted if and only if no session is open, the other slot is described, at or above the floor and intact, and the record is written; which answer and state each refusal leaves |
| OtaVerdicts.RollbackHonest | src/ota.c:1127-1150 | then the newest record names that slot with both entries as they were, on trial if and only if its image carries the marker |
| OtaVerdicts.ConfirmHonest | src/ota.c:644-672 | a confirm that succeeds clears the trial flag, moves the counter, changes nothing else and resets |
| OtaVerdicts.HealBars | src/ota.c:590-617 | a self-heal that succeeds points the newest record at the running slot, confirmed, and takes the rejected image out of it, so that no ROLLBACK can turn to it |
| OtaVerdicts.BootVerdict | src/boot/boot_decide.c:101-139 | nothing is started if and only if no record's image is intact; otherwise the newest intact one that is not a trial the watchdog ended, or as a last resort the newest of those |
| OtaVerdicts.BootableExact | src/ota_layout.h:280-313 | an image boots if and only if it holds its two vectors, the stack pointer is a word address in the 96 KiB of RAM, and the entry is a Thumb address inside the image at its slot |
| OtaVerdicts.NewestFirst | src/boot/boot_decide.c:101-139 | the records tried are exactly the valid ones, by falling counter, the first being the newest of the metadata rule |
| OtaVerdicts.RestartVerdict | src/ota.c:571-619 | a reset starts the chosen slot with cleared state, or nothing; images are left alone, and metadata unless a self-heal is due |
| OtaVerdicts.AbortQuiets | src/ota.c:1286-1297 | after ABORT the session reads idle without error whatever erase ticks follow |
| OtaVerdicts.PublicationExact | src/ota.c:1234-1258 | a current tick's publication: a failed page fails the session and disarms, the last opens it or keeps an error, any other moves on one page |
| OtaVerdicts.EraseCompletes | src/ota.c:1217-1258 | an armed erase is over after as many undisturbed ticks as pages are left, whatever the session's state, and an update that waited for it is READY |
| OtaStream.Idempotent | src/ota.c:864-923 | any schedule of duplicate deliveries of a paced stream, whole or cut anew below the mark, leaves slot, mark and session as the duplicate-free stream does, is never refused, and asks for no doubleword twice |
| OtaStream.RecutLands | src/ota.c:890-903 | an aligned request cut anew from a delivered chunk is such a duplicate |
| OtaStream.InOrderLands | src/ota.c:904-923 | after n paced chunks the mark is the last end, every chunk's bytes are in the slot, and nothing above the mark is programmed |
| OtaStream.Repeated | src/ota.c:890-903 | an identical replay below the mark is acknowledged, programs nothing and changes nothing |
| OtaStream.ErasedSlotIsOpen | src/ota.c:1250-1256 | the slot READY is published over can take such a stream |
| OtaDevice.Device.constructor | src/ota.c:571-578 | a part before its first boot; from bootable flash it starts sound |
| OtaDevice.Device.Exercise | src/ota.c:1260-1303 | any stream of commands, ticks and resets, with any flash outcome and only a hazardous ROLLBACK withheld: each event takes the object through exactly its step, throughout it is bootable and READY and VERIFIED are trustworthy, and every COMMIT that succeeds writes the last accepted BEGIN's declaration over bytes that match it |
| OtaDevice.Device.Handle | src/ota.c:1260-1303 | the same for one event |
| OtaDevice.Device.Reboot | src/boot/boot_decide.c:101-139 | performs the reset step: decision, then start |
| OtaDevice.Device.BootInit | src/ota.c:571-619 | performs the start in the chosen slot, under any outcome of the self-heal |
| OtaDevice.Device.WriteMeta | src/ota.c:426-508 | flash and result after a metadata commit are the specified ones, under any fault |
| OtaDevice.Device.BuildRecord | src/ota.c:484-506 | the field updates in the source's order make the specified record |
| OtaDevice.Device.CommitTarget | src/ota.c:450-469 | the page choice is the rank rule or the override |
| OtaDevice.Device.HandleBegin | src/ota.c:675-840 | performs the BEGIN step, status included |
| OtaDevice.Device.HandleWrite | src/ota.c:842-924 | performs the WRITE step, status included |
| OtaDevice.Device.HandleVerify | src/ota.c:926-962 | performs the VERIFY step with the table-driven CRC |
| OtaDevice.Device.HandleCommit | src/ota.c:964-1053 | performs the COMMIT step, refusals in the source's order |
| OtaDevice.Device.HandleRollback | src/ota.c:1055-1158 | performs the ROLLBACK step, refusals in the source's order |
| OtaDevice.Device.HandleAbort | src/ota.c:1286-1297 | performs the ABORT step |
| OtaDevice.Device.TakeSnapshot | src/ota.c:1217-1230 | performs the first part of the erase tick |
| OtaDevice.Device.EraseOnePage | src/ota.c:1232 | performs the flash call of the erase tick, under any outcome |
| OtaDevice.Device.PublishErase | src/ota.c:1234-1258 | performs the last part of the erase tick |
| OtaDevice.Device.TickConfirmation | src/ota.c:644-672 | performs the confirm step |
| OtaDevice.Device.SessionReject | src/ota.c:234-241 | performs the rejection: epoch, state and error together |
| OtaLayout.BootDecideSlot | src/boot/boot_decide.c:101-139 | the validated newest-first selection equals the specified decision |
| OtaLayout.BootSelect | src/ota_layout.h:243-262 | first valid acceptable candidate, else first valid one flagged as last resort, else none |
| OtaLayout.ImageTrialCapable | src/ota_layout.h:400-420 | the scan loop computes the specified marker test |
| OtaLayout.CapableMeansFirstMarker | src/ota_layout.h:400-420 | an image is trial-capable if and only if the first marker at a scanned offset carries the confirm capability |
| Ota.EraseTargetClear | src/ota.c:741-744 | the range check before arming can never fire |
| BootConfig.StoreAtomic | src/boot_config.c:69-97 | wherever a store stops, the record in force is the old or the new one, the old one's page is untouched, and the counter rose below its limit |
| BootConfig.StoreExact | src/boot_config.c:69-97 | on working flash a store succeeds if and only if the flags already hold, or there is no record, or its counter has room; then flash is untouched, or the record in force is the flags under counter 1 or the next one |
| BootConfig.NewestExact | src/boot_config.c:47-67 | the record in force has the highest counter of the valid ones, there is one if and only if a page is valid, and the next record does not go to its page |
| BootConfig.ReadExact | src/boot_config.c:27-45 | a page reads as a record if and only if it holds exactly that record sealed, with its CRC and magic, under a counter in range |
| BootConfig.SetVerdict | src/protocol.c:395-404 | which answer SET gives, each if and only if; a refused one leaves no trace and an accepted one's flags are cached or queued |
| BootConfig.BlockedInert | src/boot_config.c:120-140 | over every run in which changes are blocked, none is queued or stored |
| BootConfig.CacheIsFlash | src/boot_config.c:120-140 | over every run without late commits, the cache equals the record in force between ticks, and an accepted SET has reached flash unless still queued, or since then a flash operation failed, the counter was spent or the part reset |
| BootConfig.CacheIsFlashSinceBoot | src/boot_config.c:99-140 | the same from any boot |
| BootConfig.LateExact | src/boot_config.c:129-140 | after a whole tick of a change the cache is right if and only if no record landed behind a reported failure |
| BootConfig.LateExactOverRuns | src/boot_config.c:99-140 | over every run since a boot, between ticks the cache is the record in force if and only if no late commit is outstanding |
| BootConfig.Config.Store | src/boot_config.c:69-97 | erase, payload, commit and read-back perform the specified store, under any outcome |
| BootConfig.Config.QueueSet | src/boot_config.c:120-127 | accepts, coalesces or refuses a SET as specified |
| BootConfig.Config.Tick | src/boot_config.c:129-140 | an undisturbed tick is the composition of its three steps |
| BootConfig.Config.constructor | src/boot_config.c:99-106 | loads the known flags of the record in force with nothing queued |
| DspPump.SessionsIsolated | hal/gd32/adc_stream.c:1161-1339 | for every interleaving of the pump with BEGIN, BIND, END, reads, the DMA over an uncleared ring and harmless overflow recoveries: published samples are of the stream's own session, the bins on offer are one whole frame of it and an OK spectrum read serves them under its number, and outside a claim-to-commit window each block is free or owned by a live bound stream |
| DspPump.IsolatedFromReset | hal/gd32/adc_stream.c:1161-1339 | the same from reset |
| DspRecovery.RecoveryExact | hal/gd32/adc_stream.c:450-516 | from every state the pump can be in, a recovery has a quiet continuation that publishes a cell its session never wrote if and only if, read modulo the ring from the new position on, the samples the pump still counts on under its lease include a cell the session has not written |
| DspRecovery.IsolationExact | hal/gd32/adc_stream.c:450-516 | run by run, every cut and quiet continuation keeps sessions isolated if and only if no recovery of the run is harmful where it strikes |
| DspRecovery.FullRingHarmless | hal/gd32/adc_stream.c:450-516 | once the session has written the whole ring no recovery is harmful |
| DspRecovery.HarmfulInFirstLap | hal/gd32/adc_stream.c:450-516 | before that it is harmful if and only if the outstanding samples, counted from the new position, reach beyond the cells written so far |
| DspRecovery.RecoveryPublishesForeign | hal/gd32/adc_stream.c:450-516 | a harmful recovery is reachable from reset, with the continuation that publishes the foreign cell |
| DspPump.RecoverKeeps | hal/gd32/adc_stream.c:450-516 | every other recovery, rewinding write and read position to any lap known so far, keeps the invariants in whatever pump state |
| DspPump.MeasuredCovered | hal/gd32/adc_stream.c:1209-1212 | every cell from the pump's position up to a measured total is the session's, modulo the ring |
| DspPump.CodesDistinct | hal/gd32/adc_stream.c:728-755 | owner values fit a signed byte and stay distinct for stream ids up to 126 |
| DspPump.FacStepKeeps | hal/gd32/adc_stream.c:1161-1339 | every section of the filter pump keeps the ownership and purity invariants; what it does to gap and position is DspLedger.NothingSkippedSilently |
| DspPump.FftStepKeeps | hal/gd32/adc_stream.c:1532-1653 | every section of the FFT pump keeps them, with the window index inside the buffer |
| DspPump.EndKeeps | hal/gd32/adc_stream.c:624-697 | END in any pump state revokes tokens and keeps them |
| DspPump.InvIsolates | hal/gd32/adc_stream.c:1667-1698 | the invariants imply what a reader relies on |
| DspPump.BeginIsNew | hal/gd32/adc_stream.c:338-409 | a session is new: its number is above every earlier one, nothing in the uncleared ring counts as written in it, and it starts unattached without a gap |
| DspLedger.NothingSkippedSilently | hal/gd32/adc_stream.c:1161-1339 | over every run, recoveries included: between the places where the pump's position is set, the raw indices filtered and published are consecutive, each once, up to the position; a place other than BIND, the first jump, a recovery or the batch it tore leaves the gap mark until the host reads; and before the first jump nothing was published |
| DspLedger.NothingSkippedFromReset | hal/gd32/adc_stream.c:1161-1339 | the same from reset |
| DspLedger.OverrunMeansLapped | hal/gd32/adc_stream.c:1211-1225 | an overrun is declared only when the DMA is a full ring ahead |
| DspLedger.RefinesQueue | hal/gd32/adc_stream.c:1212-1335 | pump runs refine runs of the processed queue: each published batch is its commit, each overrun its resynchronisation, each host read its read, and nothing else touches output or gap |
| DspLedger.HostSeesContiguous | hal/gd32/adc_stream.c:525-559 | so from BIND on, over every run of pump and reads, the host receives contiguous output with no overrun inside between BUSY replies, if and only if no read serves samples over 2^32 unread ones |
| DspLedger.PassFeedsAll | hal/gd32/adc_stream.c:1207-1339 | an undisturbed pass over a backlog below a ring filters all of it, publishes an output for each sample and declares no gap |
| DspLedger.FirstPassJumps | hal/gd32/adc_stream.c:1188-1201 | after a configuration a backlog of a ring or more, or a position ahead, is skipped to the live total without a gap; otherwise nothing is |
| DspLedger.FramesGapless | hal/gd32/adc_stream.c:1566-1653 | over every run: the samples of an FFT window, and so of the frame made from it, are consecutive raw indices up to the position unless a recovery struck while they were gathered |
| DspLedger.FramesGaplessFromReset | hal/gd32/adc_stream.c:1566-1653 | the same from reset |
| DspLedger.RecoveryBreaksFrame | hal/gd32/adc_stream.c:489-516 | a recovery inside a window leaves the next sample in line with it if and only if it rewinds to the pump's own position |
| DspLedger.TornBatchUndone | hal/gd32/adc_stream.c:1322-1335 | a recovery inside a batch is undone by its commit: the position is again where the batch had read to, ahead of the DMA if and only if the ring was rewound below it |
| DspLedger.AheadWaits | hal/gd32/adc_stream.c:1211-1213 | while the position is ahead a pass takes nothing |
| DspLedger.RecoveryKeepsQueue | hal/gd32/adc_stream.c:489-516 | a recovery leaves output and gap of the processed queue alone |
| DspPool.AlwaysConsistent | hal/gd32/adc_dsp_chain.c:361-490 | in every reachable state a chain is bound exactly when one and only one running stream points to it, at most one stream has each kind of terminal, and bound chains are well-shaped and realisable |
| DspPool.ConsistentFromReset | hal/gd32/adc_dsp_chain.c:361-490 | the same from reset |
| DspPool.PumpReadsInRange | hal/gd32/adc_dsp_chain.c:66-101 | in a bound chain every stage is complete and its tap, section and point counts are inside the received bytes and the buffers |
| DspPool.CheckShape | hal/gd32/adc_dsp_chain.c:370-424 | the scan with its indices accepts exactly the well-shaped chains and finds the terminal stage |
| DspPool.CheckCapable | hal/gd32/adc_dsp_chain.c:282-359 | the counting loops accept exactly the realisable chains |
| DspPool.LeadingGapAllowed | hal/gd32/adc_dsp_chain.c:370-398 | a lone filter stage behind empty stages is well-shaped and realisable |
| DspPool.TailOnlyExact | hal/gd32/adc_dsp_chain.c:370-424 | a well-shaped chain has its empty stages only at the tail if and only if its first stage is populated |
| DspPool.CapableExact | hal/gd32/adc_dsp_chain.c:282-359 | a well-shaped chain is realisable if and only if its populated stages are one FIR, one IIR of one section, an FFT, or a WINDOW before an FFT |
| DspPool.BindVerdict | hal/gd32/adc_dsp_chain.c:361-490 | which answer BIND gives, each if and only if; a success attaches exactly that chain and stream with the last stage's data plane, an unrealisable chain gives its slot back, any other refusal changes nothing |
| DspPool.OpenVerdict | hal/gd32/adc_dsp_chain.c:103-130 | OPEN succeeds if and only if a slot is free, and hands it out with every stage untouched |
| DspPool.PushVerdict | hal/gd32/adc_dsp_chain.c:146-240 | a stage is pushed to if and only if indices and arguments are good, the slot is in use and unbound, and the stage accepts the chunk; then that stage alone changes |
| DspPool.BeginVerdict | hal/gd32/adc_stream.c:179-411 | a stream starts if and only if it is not running and its hardware does; a failure changes nothing |
| DspPool.EndVerdict | hal/gd32/adc_stream.c:624-697 | END frees the stream and its chain's slot if and only if the DMA channel confirms |
| DspPool.LeadingGapBinds | hal/gd32/adc_dsp_chain.c:361-490 | a chain that breaks the rule binds |
| DspPool.LeadingGapReached | hal/gd32/adc_dsp_chain.c:361-490 | such a bind is reachable from reset |
| DspPool.Device.OpenChain | hal/gd32/adc_dsp_chain.c:103-130 | first-fit allocation of a cleared chain, or refusal when all are in use |
| DspPool.Device.BindChain | hal/gd32/adc_dsp_chain.c:361-490 | performs the bind step: every refusal, the release on an unrealisable chain, and both halves of the attachment |
| DspPool.Device.Busy | hal/gd32/adc_dsp_chain.c:244-272 | another attached stream uses the block |
| DspPool.Device.End | hal/gd32/adc_stream.c:624-697 | performs the end step's bookkeeping and reply: unchanged if the DMA does not stop, over with an IO reply if the converter does not come back |
| DspStage.AnyOrder | hal/gd32/adc_dsp_chain.c:146-240 | for any order, overlap and repetition of cuts of one blob, exactly the covered bytes are held with the blob's values, and the stage is complete if and only if the cuts cover it |
| DspStage.PushKeeps | hal/gd32/adc_dsp_chain.c:146-240 | a push keeps offsets below the declared size, and a rejected one leaves the stage unchanged |
| DspStage.PushExact | hal/gd32/adc_dsp_chain.c:146-240 | a chunk is accepted if and only if its arguments are in range and it is a whole blob, or agrees with the same upload, or starts a new one; exactly which bytes are then held, and a whole blob completes the stage |
| DspStage.Stage.PushChunk | hal/gd32/adc_dsp_chain.c:146-240 | bitmap, buffer, count and completion flag perform the specified push; the count is the number of covered bytes |
| DspStage.Stage.StoreByte | hal/gd32/adc_dsp_chain.c:132-144 | sets exactly one coverage bit and one byte, and counts it once |
| DspStage.Stage.FindConflict | hal/gd32/adc_dsp_chain.c:212-220 | finds a received byte that disagrees exactly when there is one |
| DspStage.Stage.constructor | hal/gd32/adc_dsp_chain.c:116-117 | a cleared stage holds nothing |
| ProcRing.AlwaysContiguous | hal/gd32/adc_stream.c:525-559 | over every run: what was read since the last BUSY is one contiguous block of pump output with no resynchronisation inside, at every point, if and only if no read serves samples over 2^32 or more unread ones; and exactly then every such read serves the next ones |
| ProcRing.ContiguousSinceBind | hal/gd32/adc_stream.c:525-559 | the same from BIND |
| ProcRing.PollingExact | hal/gd32/adc_stream.c:541-556 | at most k samples committed between reads of at least m rules out unnoticed skips over all runs, and over all runs of pump-sized batches, if and only if k <= 2^31 - 1024 + m |
| ProcRing.SkipsUnnoticed | hal/gd32/adc_stream.c:541-556 | a run one sample beyond that bound, committing sample by sample, answers OK and skips 2^32 samples |
| ProcRing.SinglesCompose | hal/gd32/adc_stream.c:1322-1335 | commits sample by sample compose to one commit of them all, for the run and for what its reads find |
| ProcRing.NextExactly | hal/gd32/adc_stream.c:541-556 | a read that serves samples serves the next ones if and only if fewer than 2^32 are unread |
| ProcRing.AnswerExact | hal/gd32/adc_stream.c:537-559 | over fewer than 2^31 unread samples a read answers BUSY and resynchronises if and only if the pump resynchronised or lapped it; otherwise it serves as many of the next samples as there are and as it asked for |
| ProcRing.ReadLeavesLittle | hal/gd32/adc_stream.c:541-556 | a read over fewer than 2^31 unread samples leaves less than a ring minus what it asked for |
| ProcRing.Ring.StreamRead | hal/gd32/adc_stream.c:525-559 | counters, cells and gap flag perform the queue's read, in clamped millivolts |
| ProcRing.Ring.Publish | hal/gd32/adc_stream.c:1322-1335 | the commit loop appends the batch to the queue |
| ProcRing.Ring.MarkGap | hal/gd32/adc_stream.c:1212-1225 | a pump resynchronisation is recorded before the next read |
| TransportI2c.DispatchOnce | src/transport_i2c.c:114-230 | over every sequence of seam calls at most one frame is dispatched per write_start, its CRC matched, and the staged reply is a CRC-valid envelope or nothing |
| TransportI2c.DispatchOnceFromReset | src/transport_i2c.c:114-230 | the same from reset |
| TransportI2c.DispatchesReceived | src/transport_i2c.c:152-230 | a dispatch happens only in the first write_end and on exactly the received bytes |
| TransportI2c.ReadAfterWriteEnd | src/transport_i2c.c:152-244 | a read begun by write_end serves the whole NO_PENDING envelope after a drained or rejected reply or a bad frame, the whole fresh reply after a good one, else the rest of the reply being read, then idle bytes |
| TransportI2c.ReadAfterAbort | src/transport_i2c.c:132-136 | after a bus-error abort a read begun by write_end serves the whole NO_PENDING envelope, however much of the reply had been read, then idle bytes; without write_end, idle bytes or the envelope |
| TransportI2c.AbortedForGood | src/transport_i2c.c:122-136 | over every run after an abort, until a write_end dispatches again, only bytes of the NO_PENDING envelope and idle ones are read |
| TransportI2c.Transaction | src/transport_i2c.c:114-244 | a whole write and read from any state: dispatched once if and only if what the buffer kept is a good frame, on exactly those bytes; the read serves the answer, or the NO_PENDING envelope, whole, then idle bytes |
| TransportI2c.FrameExact | src/transport_i2c.c:188-206 | good frames are exactly those a host builds for the command register |
| TransportI2c.FirstEndDecides | src/transport_i2c.c:152-186 | the first write_end decides: whatever follows before the next write_start, further bytes included, dispatches nothing |
| TransportI2c.RequestsTaken | src/transport_i2c.c:139-146 | every request up to the payload size is dispatched as sent, and a longer write if its first 69 bytes are a frame |
| TransportI2c.AnswerDecodes | src/transport_i2c.c:95-107 | what is served decodes to the status and payload answered, under a matching CRC |
| TransportI2c.Slave.OnWriteEnd | src/transport_i2c.c:152-230 | buffers, lengths and flags perform the write_end step, whatever the dispatched command answers |
| TransportI2c.Slave.OnTxNextByte | src/transport_i2c.c:234-244 | performs the read step and returns its byte |
| TransportI2c.Slave.OnRxByte | src/transport_i2c.c:139-146 | stores up to the buffer's length |
| TransportI2c.Slave.OnWriteStart | src/transport_i2c.c:114-120 | drops the previous request and decision |
| TransportI2c.Slave.OnTxAbort | src/transport_i2c.c:132-136 | drops the staged reply |
| TransportI2c.Slave.StageReply | src/transport_i2c.c:95-107 | stages status, payload and their CRC |
| TransportSpi.AlwaysEnveloped | src/transport_spi.c:109-236 | over every sequence of seam calls the staged reply is nothing or a whole CRC-valid frame; if each rising edge has a falling edge of its own, at most one request is dispatched per falling edge |
| TransportSpi.EnvelopedFromReset | src/transport_spi.c:109-236 | the same from reset |
| TransportSpi.RepeatedEdges | src/transport_spi.c:109-236 | n rising edges without a falling edge dispatch n times if the capture is a good frame, and never otherwise |
| TransportSpi.StepKeeps | src/transport_spi.c:187-215 | a request is dispatched only at CS high, once, and only if its span CRC matches |
| TransportSpi.DrainLadder | src/transport_spi.c:134-184 | over runs of seam calls: after a fresh reply, up to twelve reply-read transactions with any number of zero bytes and any number of bytes read leave reply, stamp and counts as they were; the thirteenth gets the STATUS_IO frame |
| TransportSpi.ReadingServes | src/transport_spi.c:134-184 | each of them arms the reply again from its first byte and reads on from there |
| TransportSpi.ReadingGivesUp | src/transport_spi.c:134-184 | past the bound a reading stages the STATUS_IO frame once and dispatches nothing |
| TransportSpi.StampMeansFresh | src/transport_spi.c:83-104 | with STATUS_SEQ on, the stamp advances by exactly the number of freshly staged replies |
| TransportSpi.StageCarries | src/transport_spi.c:83-104 | a staged reply carries the payload, the status in the low half of its byte, the stamp in the high half once negotiated, under a matching CRC, and restarts the drain ladder |
| TransportSpi.Transaction | src/transport_spi.c:109-236 | a whole transaction from any state: dispatched and answered if and only if what the buffer kept is a good frame; zeros arm the old reply again below the bound; anything else gets STATUS_IO |
| TransportSpi.FrameExact | src/transport_spi.c:187-205 | good frames are exactly those a host builds |
| TransportSpi.RequestsTaken | src/transport_spi.c:231-238 | every request up to the payload size is taken as sent, and a longer one if its first 69 bytes are a frame |
| TransportSpi.ReadsStaged | src/transport_spi.c:263-269 | reads serve what is left of the staged reply, then idle bytes |
| TransportSpi.FaultIsLoud | src/transport_spi.c:253-257 | a hardware fault drops the capture and replaces whatever was staged by an empty STATUS_IO frame |
| TransportSpi.ZeroExtendedCapture | src/transport_spi.c:192-201 | a chunk frame captured with two or more trailing zeros is dispatched if and only if its two CRC bytes are equal |
| TransportSpi.ZeroExtendedChunk | src/ota.c:864-871 | dispatched or not, it changes neither session nor slot and programs nothing |
| TransportSpi.ZeroExtendedInert | src/ota.c:864-871 | the same for the whole system: flash, session and log are untouched |
| TransportSpi.Slave.OnCsHigh | src/transport_spi.c:109-222 | buffers, streak and counter perform the decode step, whatever the dispatched command answers |
| TransportSpi.Slave.OnRxByte | src/transport_spi.c:231-238 | stores up to the buffer's length |
| TransportSpi.Slave.OnTxNextByte | src/transport_spi.c:263-269 | performs the read step and returns its byte |
| TransportSpi.Slave.OnTransportError | src/transport_spi.c:253-257 | performs the fault step |
| TransportSpi.Slave.StageReply | src/transport_spi.c:83-104 | performs the staging, stamp and CRC included |
| TransportSpi.Slave.Rewind | src/transport_spi.c:134-141 | performs the bounded rewind |
| Crc32.OtaCrc32 | src/crc32.c:90-97 | the table-driven loop equals the bit-serial reflected CRC-32 for every seed and string |
| Crc32.CheckValue | tests/unit/crc32/src/test_crc32.c:46-47 | the check value 0xCBF43926 of "123456789", which fixes initial register and inversion |
| Crc32.TableCorrect | tools/gen_crc32_table.py:57-65 | every entry of the checked-in table is the bit-serial CRC of its index |
| Crc32.TableStep | src/crc32.c:90-97 | one table recurrence is eight bit steps with the byte entered at the bottom |
| Crc32.Chaining | src/crc32.c:90-97 | a chained seed continues the CRC of the prefix |
| Crc32.AnyChunking | src/crc32.c:90-97 | any division into chunks with chained seeds gives the CRC of the whole |
| Crc32.ByteLinear | tools/gen_crc32_table.py:57-65 | eight bit steps are linear over exclusive or |
| Crc16.CcittFalse | src/protocol.c:131-138 | the table-driven loop equals the bit-serial CRC-16/CCITT-FALSE for every string |
| Crc16.CheckValue | tests/unit/transport_i2c/src/test_transport_i2c.c:220-234 | the check value 0x29B1 of "123456789", which fixes the initial register |
| Crc16.TableCorrect | tools/gen_crc16_table.py:63-73 | every entry of the checked-in table is eight bit steps of its index |
| Crc16.TableStep | src/protocol.c:131-138 | one table recurrence is eight bit steps with the byte entered at the top |
| Crc16.ZeroExtension | src/transport_spi.c:192-201 | a good frame followed by two or more zero bytes passes the span check if and only if its two CRC bytes are equal |
| Crc16.EnvelopeOk | src/transport_spi.c:94-102 | a staged envelope passes the span check |
| Crc16.SpanExact | src/transport_spi.c:187-201 | and only envelopes do |
| Fmc.GuardExact | hal/fmc_ota_guard.h:50-70 | a non-empty range is allowed if and only if it does not wrap and holds no byte of the bootloader or the running slot |
| Fmc.PaddingIsSafe | hal/fmc_ota.c:457-493 | the doubleword padding of an allowed range is clear of every protected byte too |
| Fmc.SelectionCorrect | hal/fmc_ota.c:165-196 | in both bank modes the selected page starts at the address, ends inside flash, and its index fits eight bits |
| Fmc.WalkExact | hal/fmc_ota.c:389-428 | a walk succeeds if and only if each of its page or doubleword operations does |
| Fmc.Flash.EraseRange | hal/fmc_ota.c:389-428 | with handlers calling in between any two pages: a held funnel, a misaligned or forbidden range is refused and changes nothing, any other call returns what its page operations do; in main flash, success erases exactly the range and no outcome changes a byte outside it or a protected byte; the funnel ends as it began |
| Fmc.Flash.Program | hal/fmc_ota.c:457-493 | with handlers calling in between any two doublewords: the same refusals, else what its doubleword operations return; in main flash, success stores exactly data and padding and no outcome changes a byte outside them or a protected byte |
| Fmc.Flash.EraseOnePage | hal/fmc_ota.c:165-262 | in main flash erases the page at the address and nothing else, and only while the funnel is held |
| Fmc.Flash.Claim | hal/fmc_ota.c:288-298 | succeeds exactly when the funnel is free, and is the claim step of the funnel machine |
| Fmc.Flash.Release | hal/fmc_ota.c:300-303 | is the release step of the funnel machine |
| Fmc.Flash.Preempt | hal/fmc_ota.c:389-493 | whatever a handler asks of the funnel while an operation is open is refused and changes neither flash nor funnel |
| Fmc.CallerRanges | src/ota_layout.h:44-54 | every range the firmware passes lies in main flash, padding included |
| Fmc.OneOperationOpen | hal/fmc_ota.c:285-303 | whatever preempts whatever, at most one flash operation is open and the flag says whether one is; the device keeps this as its invariant |
| PwmMirror.PwmTimer.Exercise | hal/gd32/pwm_capture.c:119-195 | over any stream of writes, one-shots and polls with update events anywhere, mirror and active reload differ only while the flag and the pending write account for it |
| PwmMirror.PwmTimer.Consume | hal/gd32/pwm_capture.c:160-170 | once the update flag is consumed the mirror is the active reload, and if they still differ a new event with its pending write is on record |
| PwmMirror.PwmTimer.Defer | hal/gd32/pwm_capture.c:171-181 | a second preload write handed over before the first is seen promoted loses neither |
| PwmMirror.PwmTimer.PreloadTransaction | hal/gd32/pwm_preload_transaction.c:13-33 | the preload is written with promotion disabled and the previous update-disable state restored |
| PwmMirror.PwmTimer.ApplyCounterValues | hal/gd32/pwm.c:248-347 | running or halted, the preload holds the new value and the mirror stays consistent |
| PwmMirror.PwmTimer.ForcedLoad | hal/gd32/pwm.c:234-240 | a forced update makes preload, active register and mirror equal |
| PwmMirror.PwmTimer.SinglePulseStart | hal/gd32/pwm.c:590-602 | a one-shot starts with mirror and active register at the pulse |
| PwmMirror.EdgeDeltaIsSpan | hal/gd32/pwm_capture.c:213-239 | the modular delta of two edges less than a period apart is the ticks between them |
| PwmMirror.EdgeDeltaAliases | hal/gd32/pwm_capture.c:213-239 | a longer span aliases to its remainder |
| BusTiming.DeriveSucceeds | hal/transport_hw_gd32.c:653-700 | the derivation succeeds if and only if the clock is 4 MHz to 639,795,265 Hz, with every field in its register |
| BusTiming.InequalitiesHold | hal/transport_hw_gd32.c:653-700 | the real-valued setup and hold inequalities hold despite picosecond truncation |
| BusTiming.DelaysLeast | hal/transport_hw_gd32.c:653-700 | in whole picoseconds of the chosen tick no smaller delay would meet them |
| BusTiming.PrescalerLargest | hal/transport_hw_gd32.c:660-672 | the prescaler is the largest its field holds that keeps the tick at or above 8 MHz |
| BusTiming.StretchReloadIsLeast | hal/gd32/i2c_timeout.c:12-33 | the reload is the smallest timeout inside 25 to 35 ms, and the derivation fails only when none is representable |
| BusTiming.BothSucceed | hal/gd32/i2c_timeout.c:12-33 | both derivations succeed if and only if the clock is 4 MHz to 335,544,320 Hz |
| BusTiming.StretchSucceeds | hal/gd32/i2c_timeout.c:12-33 | from 4 MHz on, the stretch timeout is representable exactly up to 335,544,320 Hz |

## Left out

- Vendor register programming (GPIO, RCU, DMA, FAC, FFT, SPI and I2C bring-up, fault trampolines): foreign calls; their outcomes are arguments or nondeterministic choices.
- OTA_GET_STATE and the reply payloads of the OTA handlers: they only report fields the model already has.
- Retained fault-loop counter, watchdog arming and reset-cause stash: hardware sequencing around the modelled decisions; the reset cause is an argument of the reset step.
- Flash decay, ECC traps and CRC collisions: excluded by the first assumption.
- The raw branch of stream_read and the accounting behind the sample total, its lap correction included: documented to undercount; the model takes any total up to the write position.
- OtaFloor.FloorExactOverRuns: says nothing beyond a hazardous ROLLBACK, after which the part itself is at risk (OtaRollback.HazardExact).
- The pump's sticky flags (a read they refuse is no step of the model), coefficient scaling, window generation and magnitudes: floating-point and device behaviour; data is modelled by the session it came from.
- DspPump: the pump is a state machine over values rather than a class, so its in-place buffers appear only as what they hold.
- DspPool.Device.End: the DMA shutdown and the converter restore are a boolean outcome each.
- The nested-dispatch flag of src/protocol.c is used as an assumption, not modelled; per-opcode handlers outside OTA and boot flags are length checks around the HAL.
- OtaDevice.Device.HandleBegin: omits the range check proved idle by Ota.EraseTargetClear.
- Fmc.Flash.EraseRange and Fmc.Flash.Program: promise nothing about flash content for ranges outside main flash, where the page number overflows its field; no caller passes one (Fmc.CallerRanges).
