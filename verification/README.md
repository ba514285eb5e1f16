# Verified model of the BACnet/IP I/O firmware

This project models the hand-written logic of an ESP32-S3 BACnet/IP I/O controller (eight digital
inputs, eight relays) and proves what that logic promises: its state machines, its stores, and its
parsers and codecs. `dafny verify dfyconfig.toml` checks everything.

## What is modelled

* **Device-instance claim.** Controllers discover, claim and lock an instance number in
  599000..599999 with Who-Is and I-Am (clause 16.10 of ANSI/ASHRAE 135). `Instance` is one
  controller, with its 125-byte occupancy bitmap; `ClaimProtocol` is any number of them over
  a network with bounded delay; `ClaimRun` is one controller over a whole history.
* **Relay driver.** Commands published under a spinlock, a mutex-protected pass of fallible I2C
  transactions against an expander that may reset itself, boot, and the delayed save.
  `RelayDriver` takes every critical section, mutex operation and transaction as a step of its
  own; `RelaySafety` and `RelayHealth` have the results over every interleaving, `RelaySaves` what
  a delayed save achieves, `RelayFaults` what failed transactions, boots and calls end in;
  `RelayCalls` is the driver's code on its statics, step for step tied to that state machine.
* **Restart notification.** The recipient list with its codec and flash blob
  (`RestartRecipients`), the retry scheduler with live edits (`RestartScheduler`,
  `RestartSafety`, `RestartCampaign`), and the choice of the restart timestamp by the main loop (`RestartClock`;
  clause 19.3 of ANSI/ASHRAE 135). The recipient codec of the BACnet stack is an interface with
  the contract that decoding the encoding of a recipient it can carry gives that recipient back,
  whatever follows.
* **Configuration.** Validation, unique object names, automatic assignment with its rename
  (`ConfigModel`), and the compare-and-set store under any interleaving of writers
  (`ConfigStore`).
* **Parsers and codecs.** The POSIX time zone validator (`TimeZone`; section 8.3 of the IEEE Std
  1003.1 Base Definitions), the SLIP reader (`Slip`; RFC 1055), the USB line protocol with its
  button windows (`UsbSetup`), and the two bitwise CRC-32 implementations (`Crc32`; section 8 of
  RFC 1952).
* **Tables.** The COV recovery table (`CovRecovery`) and the input debouncer (`Debounce`).

Code that updates variables in place is a class or a method with a loop, proved equal to a
function on values; the properties are lemmas about those functions. Times and statistics are
mathematical integers; bit masks, the pseudo-random state and the CRC registers are bit vectors;
the configuration revision and the relay save revision wrap at 2^32. Clocks, bus answers, flash
commits, network delays, callbacks and the arrival of chunks are inputs that the results
quantify over. `now` never decreases.

### Assumptions of the claim protocol

Controllers have distinct address keys and have completed startup; no message is lost; every
message arrives within a delay D with 2D < 3000 ms; a controller that is locked or manually
configured at the start stays so, and one that boots during the run is up for automatic
assignment. Saving and its result are one step, as in the main loop.

### What the results found

* The configuration store compares 32-bit revisions. A writer whose copy is a multiple of 2^32
  commits old is let through: `ConfigStore.PutCommitsIff` has the exact condition and
  `ConfigStore.WrappedRevisionOverwrites` the failing case, which `ConfigStore.WrapIsReachable` reaches.
* With relay restore enabled, "a save is pending or the stored mask is the applied one" holds
  after boot if and only if the stored mask was read well: a failed read is taken as all-off and
  not written back (`RelaySafety.BootKeepsMaskIffReadWell`; `RelayCalls.MisreadMaskIsForgotten`
  has such a boot).
* "Healthy" relates the applied mask to the commands, and callers ask without the relay mutex. In
  the middle of a pass it can be true while the pins drive something else: the pass has written
  the mask it read, and later commands have taken that mask back. `RelayHealth.HealthyExactly` has
  the exact condition for every moment, and `RelayHealth.HealthyCanMislead` such a run.
* A boot that fails to read the recipient list makes the empty list live and leaves flash alone,
  so the next boot may load another list. `RestartSafety.RebootAnyTime` says exactly when the
  live list is the one a later boot restores.

## Model

| member | source | states |
|---|---|---|
| `Instance.InstanceRecord.MarkOccupied` | main/bacnet_instance.c:21-27 | setting the number's bit adds exactly that number to the set the bitmap stands for; numbers out of range change nothing |
| `Instance.InstanceRecord.IsOccupied` | main/bacnet_instance.c:29-36 | the bit test is membership in that set, and everything out of range counts as occupied |
| `Instance.InstanceRecord.DiscoverAgain` | main/bacnet_instance.c:38-45 | discovery restarts with an empty bitmap, 0 to 500 ms of jitter and a deadline 3000 ms after the first query |
| `Instance.InstanceRecord.Begin` | main/bacnet_instance.c:47-65 | the start state: seed never zero, automatic mode discovers with an empty bitmap, manual mode is ready at once |
| `Instance.InstanceRecord.ObserveIAm` | main/bacnet_instance.c:67-87 | an I-Am as a step on the set of taken numbers: own address ignored, a conflict with an unlocked candidate restarts discovery with only that number marked |
| `Instance.InstanceRecord.TickNow` | main/bacnet_instance.c:89-129 | a tick as a step on the set of taken numbers, with the actions it asks for |
| `Instance.InstanceRecord.ChooseCandidate` | main/bacnet_instance.c:95-106 | the choice in place: the preferred number if free, else the probe from a random start |
| `Instance.InstanceRecord.SavedNow` | main/bacnet_instance.c:131-143 | a save result locks the candidate or enters SAVE_FAILED, and only while saving |
| `Instance.InstanceRecord.ProbeFrom` | main/bacnet_instance.c:99-105 | the wrap-around loop returns what the circular probe from that start does |
| `Instance.ProbeFinds` | main/bacnet_instance.c:97-106 | the probe returns the first free number circularly from its start, or none only if every number is taken |
| `Instance.SlotsCoverRange` | main/bacnet_instance.c:99-100 | 1000 wrap-around steps from any start reach every number of the range |
| `Instance.ChoiceIsFree` | main/bacnet_instance.c:94-111 | a free in-range number is chosen whenever one exists; none exactly when all 1000 are taken |
| `Instance.ChoiceIsFirstFree` | main/bacnet_instance.c:94-106 | a preferred number that is free is kept; else the choice is the first free number circularly from a slot drawn anew |
| `Instance.EndOfDiscovery` | main/bacnet_instance.c:94-118 | discovery ends in a claim of the chosen free number, asked about and announced at once and held for 3000 ms, or in RANGE_FULL for 30000 ms exactly when all 1000 are taken |
| `Instance.DiscoveryTick` | main/bacnet_instance.c:123-129 | before it is over discovery asks once a second and does nothing else |
| `Instance.ClaimTick` | main/bacnet_instance.c:119-129 | a claim asks and announces once a second until its deadline, and then asks to be saved |
| `Instance.ReadyTick` | main/bacnet_instance.c:123-129 | a ready controller asks about its own number every minute and does nothing else |
| `Instance.RangeFullTick` | main/bacnet_instance.c:91-93 | RANGE_FULL waits for its deadline, changing nothing, and then discovers afresh with an empty bitmap |
| `Instance.ManualStart` | main/bacnet_instance.c:47-65 | a manual start is ready at once, and asks about its number at the first tick |
| `Instance.ForeignClaim` | main/bacnet_instance.c:73-86 | a foreign claim on its number is a counted conflict; only an unlocked controller gives way, and forgets what it preferred |
| `Instance.SaveOutcome` | main/bacnet_instance.c:131-143 | a save result counts while saving only; success locks the candidate, failure ends in SAVE_FAILED |
| `Instance.RandomStaysNonzero` | main/bacnet_instance.c:11-19 | the xorshift state never becomes zero |
| `Instance.HasPrevious` | main/bacnet_instance.c:11-19 | every generator state is the successor of another, so the step permutes the states |
| `Instance.JitterIsAny` | main/bacnet_instance.c:38-45 | the jitter can be any of 0 to 500 ms and nothing else |
| `Instance.SeedIsNonzero` | main/bacnet_instance.c:55-58 | no controller starts from the state the generator never leaves |
| `ClaimProtocol.StepKeepsInv` | main/bacnet_app.c:930-982 | every step of the network keeps: for any two holders of one number, the later claimer will hear of the earlier before its deadline |
| `ClaimProtocol.RunKeepsInv` | main/bacnet_app.c:930-982 | the same over every run |
| `ClaimProtocol.SendsExactly` | main/bacnet_app.c:949-964 | which packets an iteration sends: the whole range or its own number to every other controller, and its claim when announced |
| `ClaimProtocol.AnswersExactly` | main/bacnet_app.c:717-729 | a query is answered exactly by those that claim or hold a number it covers |
| `ClaimProtocol.SaveIterations` | main/bacnet_app.c:965-982 | a due claimer ends locked, failed or overtaken by another configuration, as the store answers |
| `ClaimProtocol.BootDiscovers` | main/bacnet_app.c:911-922 | a controller that boots while its assignment is pending discovers before it claims, with the kept number preferred |
| `ClaimProtocol.OutsideClaim` | main/bacnet_app.c:744-760 | a claim from a device outside the model counts like any other |
| `ClaimProtocol.OutsideQuery` | main/bacnet_app.c:717-729 | and so does a query |
| `ClaimProtocol.ClaimKeeps` | main/bacnet_instance.c:112-117 | a new claim announces and asks at once, so every earlier holder is warned or will answer in time |
| `ClaimProtocol.LockKeeps` | main/bacnet_app.c:965-982 | a lock leaves every remaining rival bound to hear of it before its own deadline |
| `ClaimProtocol.DueClaimerWins` | main/bacnet_instance.c:119-122 | a claimer whose deadline has come has no warning outstanding, so all its rivals have one |
| `ClaimProtocol.QueryKeeps` | main/bacnet_app.c:717-729 | a delivered Who-Is is answered in time by every holder it concerns |
| `ClaimProtocol.ClaimHeardKeeps` | main/bacnet_app.c:744-760 | a delivered I-Am makes an unlocked holder give the number up, and a locked one keep it |
| `ClaimProtocol.LockedNumbersAreUnique` | main/bacnet_instance.c:67-143 | over whole runs of any number of controllers two are ready on one number only if both were preset to it |
| `ClaimProtocol.LockingIsExclusive` | main/bacnet_app.c:949-982 | when a controller locks a number nobody is ready on it, and no other claimer of it can lock it then |
| `ClaimRun.BitmapIsClaimsSinceDiscovery` | main/bacnet_instance.c:38-87 | after any history the bitmap is exactly the set of in-range numbers claimed by foreign addresses since discovery last began, with the claim that restarted it |
| `ClaimRun.AppliedBitmap` | main/bacnet_instance.c:67-87 | what one event adds to or clears from the bitmap, as an if-and-only-if |
| `ClaimRun.BeginJustStarts` | main/bacnet_instance.c:38-60 | an automatic start begins a discovery with an empty bitmap and 0 to 500 ms of jitter, whatever its seed and address |
| `ClaimRun.RunOnSchedule` | main/bacnet_instance.c:89-129 | every undisturbed run stays on the schedule of discovery, claim and save |
| `ClaimRun.ClaimIsTimely` | main/bacnet_instance.c:38-129 | undisturbed, with ticks at most T apart: one save exactly, at least 3000 ms after the claim, at most 6500 + 2T ms after the start, and three range queries if T <= 333 |
| `ClaimRun.FullRangeRecovers` | main/bacnet_instance.c:89-129 | entered at t, RANGE_FULL is left for a new discovery by t + 30000 + T, and if a number is free then, its claim is made and saved in the time of a first one |
| `ClaimRun.LockedStaysFixed` | main/bacnet_instance.c:78-82 | over every history a locked controller stays ready on its number, whatever conflicts it sees |
| `ClaimRun.ManualIsFixed` | main/bacnet_instance.c:47-82 | so a manual controller never leaves the number it was given |
| `RelayCalls.Relays.WriteLatchRegister` | main/board_io.c:76-81 | the latch write on the registers is the state machine's step for every bus answer |
| `RelayCalls.Relays.WriteConfigRegister` | main/board_io.c:146-149 | the enabling write on the registers is the state machine's step for every bus answer |
| `RelayCalls.Relays.ReadRegisters` | main/board_io.c:89-105 | the two reads are the state machine's steps, in order, and their errors end the pass unhealthy |
| `RelayCalls.Relays.Recover` | main/board_io.c:140-153 | the recovery branch is the state machine's steps from a failed configuration to the second readback |
| `RelayCalls.Relays.Accept` | main/board_io.c:160-176 | the successful end publishes the mask and notes the change to save |
| `RelayCalls.Relays.Fail` | main/board_io.c:64-74 | an I/O error or a failed verification marks the controller unhealthy and ends the pass |
| `RelayCalls.Relays.MaskWriteLocked` | main/board_io.c:119-177 | the whole function, for every sequence of bus answers, ends in the state the pass settles in, with its result |
| `RelayCalls.Relays.CheckLatch` | main/board_io.c:124-136 | the first readback ends the pass unless the latch holds the mask, and tells whether to recover |
| `RelayCalls.Relays.PublishCommand` | main/board_io.c:352-356 | the critical section sets or clears the command's bit of the desired mask |
| `RelayCalls.Relays.TimeOut` | main/board_io.c:357-365 | a wait that times out marks the controller unhealthy and leaves the command published |
| `RelayCalls.Relays.RelaySet` | main/board_io.c:347-370 | an uninterrupted call is publish, wait, pass and return of the state machine, with the same result |
| `RelayCalls.Relays.constructor` | main/board_io.c:37-53 | the statics and registers of any state of the state machine |
| `RelayCalls.Relays.BoardInit` | main/board_io.c:302-325 | the relay part of boot: all off, polarity, restored mask, ended by the first failure |
| `RelayCalls.SettleIsRun` | main/board_io.c:119-177 | an uninterrupted pass terminates and is a run of the state machine |
| `RelayCalls.OkDrivesTheRelay` | main/board_io.c:347-370 | from every reachable state an uninterrupted call that returns ESP_OK leaves its relay driven as asked, pins enabled, controller healthy |
| `RelayCalls.GoodPassSucceeds` | main/board_io.c:119-177 | on a bus that answers everything a pass applies and drives the latest command and ends healthy, from any register contents |
| `RelayCalls.HealthPassRepairs` | main/board_io.c:215-224 | so the next health pass on a working bus repairs whatever failed before |
| `RelayCalls.BootIsRun` | main/board_io.c:305-325 | on a working bus a restoring boot succeeds, and is a run of the state machine |
| `RelayCalls.MisreadMaskIsForgotten` | main/board_io.c:318-323 | a boot that misreads a stored mask of relay 0 succeeds and ends with the stored mask stale and no save pending |
| `RelaySafety.RunKeepsInv` | main/board_io.c:119-396 | the invariants of the driver hold in every interleaving of callers, passes, time-outs, bus faults and resets |
| `RelaySafety.DesiredIsFold` | main/board_io.c:352-356 | the desired mask is the fold of all published commands in order |
| `RelaySafety.HealthyMeansDriven` | main/board_io.c:390-396 | healthy, no pass running, no reset since the last readback: the output register is that fold and the configuration register 0 |
| `RelayHealth.HealthyExactly` | main/board_io.c:390-396 | at any moment, in a pass or not, with no reset since the last verified success: healthy implies the pins are enabled, and the output register equals the fold if and only if it is not the case that a pass has written a mask that later commands took back |
| `RelayHealth.HealthyCanMislead` | main/board_io.c:390-396 | a run from power-up to a healthy controller that drives a relay which every command says is off |
| `RelayHealth.RunKeepsTold` | main/board_io.c:119-177 | what each stage of a pass has done to the registers of a trusted expander, over every interleaving |
| `RelaySafety.PinsDrivePublishedMasks` | main/board_io.c:119-158 | enabled pins drive only all-off or a published mask, unless a reset hits between a readback and its enabling write, or power-up found the pins enabled and no latch write has taken effect since |
| `RelaySafety.EnablingIsVerified` | main/board_io.c:132-149 | a write that enables the pins exposes the mask its own pass read back, unless the expander reset after that |
| `RelaySafety.BitOfFold` | main/board_io.c:353-355 | a relay's bit in the fold is the setting of the last command on that relay |
| `RelaySafety.OkMeansApplied` | main/board_io.c:366-370 | over every interleaving, a call that returned ESP_OK did so at a moment of the run when the mask of its pass was applied and, unless the expander reset since the last readback, in the output register with the pins enabled; on its relay that mask shows its own command or a later one |
| `RelaySafety.OkIsDriven` | main/board_io.c:160-177 | the same of a call that is just about to return, whatever other callers, time-outs and faults do meanwhile |
| `RelaySafety.OutcomeWasReturned` | main/board_io.c:366-370 | an ESP_OK outcome appears only when its own pass gives the mutex |
| `RelaySafety.AppliedMaskIsKept` | main/board_io.c:226-249 | restore on and the stored mask read well: whenever the mutex is free a save is pending or the stored mask is the applied one |
| `RelaySafety.BootKeepsMaskIffReadWell` | main/board_io.c:318-323 | at the end of boot that holds if and only if the stored mask was read well |
| `RelaySaves.SaveCompletes` | main/board_io.c:226-249 | a due save that nobody disturbs is enabled step by step and ends with the applied mask stored and nothing to save, or, if the write fails, with the old mask stored and the save still pending |
| `RelaySaves.NothingToSave` | main/board_io.c:229-238 | a save that is not due, or that nothing asks for, leaves the board as it was |
| `RelaySaves.SaveTells` | main/board_io.c:229-249 | whatever goes on meanwhile, a save stores the mask applied at its capture, and clears the mark exactly if it was written and no other mask has been applied since |
| `RelaySaves.TimeOutKeepsDirty` | main/board_io.c:241-249 | a clearing that times out leaves the save pending |
| `RelayFaults.FailedTransaction` | main/board_io.c:63-158 | a transaction that is not acknowledged, whichever it is, ends the pass with an error, unhealthy, with the applied mask and the save as they were |
| `RelayFaults.FailedBoot` | main/board_io.c:308-323 | a failed pass or polarity write fails the boot |
| `RelayFaults.FailedBootStays` | main/board_io.c:308-323 | after a failed boot no event but a reset of the expander changes anything |
| `RelayFaults.InitIsRun` | main/board_io.c:302-325 | whatever the bus answers, the relay part of boot is a run of the state machine |
| `RelayFaults.VainCallIsRun` | main/board_io.c:347-365 | so is a call whose wait times out |
| `RelayFaults.HealthIsEarned` | main/board_io.c:160-164 | over every interleaving only the end of a verified pass makes an unhealthy controller healthy |
| `RelayFaults.TimeOutTells` | main/board_io.c:357-365 | a timed-out call says so, makes the controller unhealthy and leaves its command published |
| `RelayFaults.RunMending` | main/board_io.c:135-158 | from the moment a pass finds the pins disabled until it has verified the repair, the controller is not healthy, in every interleaving |
| `RelayFaults.RevisionCounts` | main/board_io.c:171-175 | with restore enabled the save revision counts the changes of the applied mask, modulo 2^32 |
| `RelayFaults.RepairClearsPolarity` | main/board_io.c:135-150 | on a working bus a pass clears the polarity register exactly when it found the pins disabled |
| `RelayFaults.BootClearsPolarity` | main/board_io.c:309-311 | the polarity write of a boot touches that register alone |
| `RelayFaults.PlainBoot` | main/board_io.c:302-325 | without restore a boot on a working bus ends healthy, with every relay verified off |
| `Debounce.Debouncer.Sample` | main/board_io.c:182-212 | one pass over the packed masks and counters is one step of each channel on its own |
| `Debounce.Debouncer.Settle` | main/board_io.c:190-208 | one channel's part of the pass changes that channel as described and no other |
| `Debounce.Run` | main/board_io.c:182-212 | after any samples bit i is the value of channel i's latest run of three equal samples, 0 if none |
| `Debounce.CountIsFinalRun` | main/board_io.c:195-204 | the saturating counter is the length of the final run of equal samples, at most three |
| `Debounce.OutputIsSettled` | main/board_io.c:195-208 | candidate and counter together compute that declarative value |
| `RestartRecipients.DecodeListLoop` | main/bacnet_restart.c:56-88 | the loop decodes a list or fails, as the function on the remaining bytes does |
| `RestartRecipients.DecodesExactly` | main/bacnet_restart.c:36-88 | bytes are accepted if and only if they are, cut after cut, the encodings of at most eight recipients reachable without a router, within 256 bytes before and after re-encoding; the list is those in order |
| `RestartRecipients.CanonicalDecodesToItself` | main/bacnet_restart.c:56-88 | decoding is idempotent: canonical output decodes to the same list and itself |
| `RestartRecipients.StoredReadsBack` | main/config_store.c:225-313 | accepted bytes read back through the versioned header; a failed store leaves the key as it was |
| `RestartRecipients.FoundExactly` | main/config_store.c:225-251 | a key reads back as bytes if and only if flash answers and it holds them behind version 1 and their length |
| `RestartRecipients.StoresExactly` | main/config_store.c:275-313 | a write succeeds if and only if the bytes fit, flash answers, and they are there already or are committed; bytes already there are not written again |
| `RestartRecipients.RebootRestores` | main/bacnet_restart.c:142-150 | a list accepted and stored is the list the next boot that can read it makes live, without an error; unstored, the key is unchanged |
| `RestartRecipients.BootListHasACause` | main/bacnet_restart.c:137-150 | only an absent key broadens the recipients; otherwise the list is empty and an error counted, or decoded from the stored bytes |
| `RestartRecipients.BootExactly` | main/bacnet_restart.c:137-150 | which list a boot makes live for any content of flash |
| `RestartRecipients.PlainIsLawful` | tests/test_bacnet_restart.c:155-168 | the contract asked of the recipient codec is met by one that, like the wire, has a single octet string for an address |
| `RestartScheduler.Notifier.constructor` | main/bacnet_restart.c:113-151 | initialization is the boot state of the stored key and timestamp |
| `RestartScheduler.Notifier.SetStampBeforeReady` | main/bacnet_restart.c:100-111 | a valid timestamp is taken before the first ready tick only; otherwise nothing changes |
| `RestartScheduler.Notifier.WriteProperty` | main/bacnet_restart.c:217-264 | the whole effect of a write, its error cases and the cancellations, on the destination array |
| `RestartScheduler.Notifier.Listed` | main/bacnet_restart.c:90-98 | the scan finds a recipient exactly if the live list holds one the stack calls the same |
| `RestartScheduler.Notifier.CancelUnlisted` | main/bacnet_restart.c:255-262 | the loop cancels exactly the pending destinations that left the list |
| `RestartScheduler.Notifier.TickNow` | main/bacnet_restart.c:327-395 | the whole effect of a tick: guard, snapshot, and one attempt on every due destination |
| `RestartScheduler.Notifier.TakeSnapshot` | main/bacnet_restart.c:334-343 | the first ready tick makes every live recipient a pending destination due at once |
| `RestartScheduler.Notifier.Attempts` | main/bacnet_restart.c:350-394 | the loop makes one attempt on every due destination, in order, and leaves the others alone |
| `RestartScheduler.Notifier.Attempt` | main/bacnet_restart.c:355-393 | one attempt in the order of the code has the effect on destination and statistics that its outcome describes |
| `RestartSafety.Conservation` | main/bacnet_restart.c:327-395 | in every reachable state sent + exhausted + canceled + pending is the destination count; each failure counter is the number of such tries in the histories; all attempts are resolution failures + send failures + sent |
| `RestartSafety.TriesAreBounded` | main/bacnet_restart.c:308-393 | each destination: at most five tries, 1000 ms apart, none after an accepted one, all with the frozen timestamp; nothing sent for a device to a broadcast network, a MAC of other than six bytes, or a remote network without an address, nor for an address to another one; pending only while still listed; and its reported times, address, result and counts are those of its tries |
| `RestartSafety.ValidIsDirected` | main/bacnet_restart.c:308-325 | and the addresses accepted for a recipient are exactly those that may stand for it |
| `RestartSafety.RejectedEditChangesNothing` | main/bacnet_restart.c:231-247 | a write that is not accepted changes nothing but the count of failed commits; and exactly which writes are accepted |
| `RestartSafety.RebootAnyTime` | main/bacnet_restart.c:142-254 | at any moment of any run: if this boot read flash or a write was accepted since, the next boot that reads flash loads the very list that is live; otherwise the live list is still empty and flash is as it was |
| `RestartSafety.RunStores` | main/bacnet_restart.c:241-254 | an accepted write stores the live list for good; without one neither the list nor the key changes |
| `RestartSafety.SnapshotIsFinal` | main/bacnet_restart.c:334-343 | after the first ready tick the recipients and the timestamp never change again |
| `RestartSafety.CampaignEnds` | main/bacnet_restart.c:350-393 | with ready ticks at most T apart nothing is pending 4000 + 3T ms after the first, whatever the network does |
| `RestartCampaign.BlockedTick` | main/bacnet_restart.c:330-333 | a tick without network, timestamp or device instance changes nothing |
| `RestartCampaign.FirstTickTriesAll` | main/bacnet_restart.c:334-394 | the first ready tick has exactly the live recipients as destinations, in order, and tries each of them once at that moment |
| `RestartCampaign.LaterTickTriesTheDue` | main/bacnet_restart.c:351-394 | a later tick makes one try of every pending destination whose second is over, with what its outcome makes of it, and leaves every other as it was |
| `RestartCampaign.BootCountsFaults` | main/bacnet_restart.c:131-150 | the counter of configuration errors tells a bad list and a bad timestamp apart from none |
| `RestartCampaign.LatestBeforeReady` | main/bacnet_restart.c:100-111 | until the first ready tick the timestamp is the latest well-formed one offered |
| `RestartCampaign.WriteAnswers` | main/bacnet_restart.c:223-247 | which error a write gets: the first that applies |
| `RestartCampaign.AcceptedEdit` | main/bacnet_restart.c:248-263 | an accepted write makes its list live and cancels exactly the pending destinations that list leaves out |
| `RestartCampaign.EveryRecipientEnds` | main/bacnet_restart.c:334-394 | with ready ticks at most T apart, every recipient live at the first one is tried at once and, 4000 + 3T ms later, has an accepted try, or five tries, or was left out by an accepted write |
| `RestartClock.ClockState.SelectNow` | main/bacnet_announcement.c:6-23 | the selection in place is the selection function |
| `RestartClock.FirstReading` | main/bacnet_app.c:438-446 | the clock is read once at startup |
| `RestartClock.ReadingsTaken` | main/bacnet_app.c:117-159 | an iteration reads the clock unless it was read within the second before, and again whenever the wait is over; a busy clock leaves the last answer |
| `RestartClock.SelectedOnce` | main/bacnet_app.c:151-180 | the timestamp is chosen once, by the first ready iteration with a valid clock or at least 5000 ms after the first ready one, and it is recorded which; no destination exists before |
| `RestartClock.NeverSelected` | main/bacnet_announcement.c:9-18 | without such an iteration there is no timestamp and no notification |
| `RestartClock.NeverTooLate` | main/bacnet_app.c:1012-1014 | the choice is never rejected by the scheduler |
| `RestartClock.FallbackMeansNoClock` | main/bacnet_app.c:153-165 | the fallback is chosen only when, at that very moment, the clock service has no valid time, or is busy with no valid time known from before |
| `RestartClock.EveryTryCarriesTheChoice` | main/bacnet_restart.c:327-343 | every try of every retry carries the chosen timestamp despite late synchronization, link cycles and edits |
| `ConfigModel.NamesAreUnique` | main/config_model.c:122-158 | the nested loops decide case-insensitive uniqueness of all 28 object names |
| `ConfigModel.SameNameIgnoresCase` | main/config_model.c:152-152 | two names clash if and only if they differ in nothing but the case of letters |
| `ConfigModel.ValidExactly` | main/config_model.c:200-261 | which configurations are accepted, by the limits of every field and the names of the 28 objects |
| `ConfigModel.HostnameIsLabel` | main/config_model.c:35-48 | hostnames are 1 to 31 letters, digits and internal hyphens |
| `ConfigModel.StaticExactly` | main/config_model.c:88-120 | a static address is accepted if and only if the mask is one of the 32 netmasks, the address is that of a unicast host and neither the network nor the broadcast address, and the gateway is unset or in that network |
| `ConfigModel.DecimalReads` | main/config_model.c:332-336 | the digits of a default name read back as the instance, without leading zeros |
| `ConfigModel.FactoryNameIsDefault` | main/config_model.c:167-184 | the factory device name is the default name of the factory instance |
| `ConfigModel.Record.AssignInstance` | main/config_model.c:323-346 | the assignment in place, with rename and rollback, is the function on values |
| `ConfigModel.Record.MigrateMode` | main/config_model.c:303-321 | the migration in place is the function on values, and reports whether it changed anything |
| `ConfigModel.Record.ApplyOptions` | main/config_model.c:348-368 | the web edit's instance part in place is the function on values |
| `ConfigModel.AssignKeepsValid` | main/config_model.c:323-346 | a valid configuration stays valid; the default name moves along exactly when no other object carries the new one |
| `ConfigModel.AssignsExactly` | main/config_model.c:326-343 | an assignment is taken exactly from an open selection at the revision it was made for and within 599000..599999; it locks the instance and raises the revision |
| `ConfigModel.RenameUnique` | main/config_model.c:334-340 | a rename keeps the names unique if and only if no other object has that name |
| `ConfigModel.MigrationKeepsDeliberateIds` | main/config_model.c:303-321 | after migration automatic assignment is open exactly if it was, or for the shared factory instance of a legacy configuration |
| `ConfigModel.MigratesExactly` | main/config_model.c:303-321 | which configurations migrate, and to which mode |
| `ConfigModel.OptionsMeaning` | main/config_model.c:348-368 | an automatic-mode form never overwrites the instance; when an edit leaves automatic assignment open |
| `ConfigModel.OptionsExactly` | main/config_model.c:348-368 | an edit is refused exactly if it asks for a new selection without automatic mode; otherwise what becomes of mode and instance, case by case |
| `ConfigModel.RewritesSettle` | main/config_model.c:303-368 | migration, edits and assignment keep a locked instance in 599000..599999 and no legacy mode |
| `ConfigModel.DefaultsAreValid` | main/config_model.c:167-198 | the defaults validate, so a boot never installs a configuration it would reject |
| `ConfigStore.Storage.Init` | main/config_store.c:66-105 | boot loads, migrates or replaces by defaults, and what it writes back |
| `ConfigStore.Storage.UpdateConfig` | main/config_store.c:117-141 | compare-and-set: memory and flash change together or not at all |
| `ConfigStore.Storage.AssignInstance` | main/config_store.c:143-161 | automatic assignment: memory and flash change together or not at all |
| `ConfigStore.BootIsSound` | main/config_store.c:73-97 | whatever flash holds, a boot ends with a valid, non-legacy configuration, keeping all of a valid stored one but its mode |
| `ConfigStore.BootExactly` | main/config_store.c:73-97 | a boot keeps exactly what is stored intact and valid, takes the defaults otherwise, and writes exactly what flash does not hold |
| `ConfigStore.RunKeepsInv` | main/config_store.c:117-161 | over any interleaving of writers: memory is flash is the newest commit, every commit validates and settles, each raises the revision by one |
| `ConfigStore.BootedHistory` | main/config_store.c:66-161 | so from every boot |
| `ConfigStore.RebootAnyTime` | main/config_store.c:73-97 | a boot at any moment reloads the newest commit exactly and writes nothing |
| `ConfigStore.RevisionsCount` | main/config_store.c:133-133 | the revision of a commit is that of an earlier one plus the commits between, modulo 2^32 |
| `ConfigStore.PutCommitsIff` | main/config_store.c:117-141 | a web edit commits exactly when valid, stored, and a multiple of 2^32 commits after its copy; else nothing changes |
| `ConfigStore.UpdateAnswers` | main/config_store.c:117-141 | which answer an update gets, and that only a committed one changes memory and flash, together |
| `ConfigStore.EditCommits` | main/config_store.c:107-141 | a web edit that nobody disturbs commits exactly what it asks for under the next revision, or nothing |
| `ConfigStore.LockCommitsIff` | main/config_store.c:143-161 | the same for automatic assignment, which also needs a pending mode and an in-range instance |
| `ConfigStore.AssignAnswers` | main/config_store.c:143-161 | which answer an assignment gets, and that only a committed one changes memory and flash, together |
| `ConfigStore.LockCommits` | main/config_store.c:152-157 | a committed assignment locks the instance and hands the new configuration to its caller |
| `ConfigStore.NoLostUpdate` | main/config_store.c:129-132 | short of 2^32 commits in between, a writer only replaces the configuration it started from |
| `ConfigStore.WrappedRevisionOverwrites` | main/config_store.c:129-133 | a copy exactly 2^32 commits old is accepted over all of them |
| `ConfigStore.WrapIsReachable` | main/config_store.c:117-141 | a run from the defaults that gets there: one writer reads, another commits 2^32 times, and the first one's write goes in over all of them |
| `TimeZone.TimezoneValid` | main/time_config.c:147-160 | accepts exactly the strings of the grammar, and never reads past the terminator |
| `TimeZone.ParseNumber` | main/time_config.c:76-87 | greedy digits: any number of the grammar not followed by a digit is found, at its only end |
| `TimeZone.ParseName` | main/time_config.c:89-105 | the same for quoted and plain names of 3 to 10 characters |
| `TimeZone.ParseHms` | main/time_config.c:107-123 | the same for times and offsets with their limits |
| `TimeZone.ParseTransition` | main/time_config.c:125-145 | the same for the three forms of a change date with its optional time |
| `TimeZone.ParseDate` | main/time_config.c:127-140 | the same for the date alone: Mm.w.d, Jn or n |
| `TimeZone.ParseRules` | main/time_config.c:155-159 | two comma-separated transitions to the end of the string, exactly |
| `Slip.ReadSlipPacket` | installer/src/slip-reader.js:5-43 | over any chunking the call answers as the scan of all pending bytes, and leaves exactly what that scan leaves |
| `Slip.Transport.AwaitBytes` | installer/src/slip-reader.js:10-13 | waiting moves nothing but the chunk boundary: what is pending stays the same |
| `Slip.Transport.Arrive` | installer/src/slip-reader.js:2-4 | chunks that come in while nobody waits go behind what is unread, and what is pending stays the same |
| `Slip.ReadChunk` | installer/src/slip-reader.js:17-41 | the loop over one chunk ends the scan or carries it on, escapes across the chunk's end included |
| `Slip.Store` | installer/src/slip-reader.js:30-38 | the growing buffer keeps its content and refuses only beyond 65536 bytes |
| `Slip.DecodesEncoded` | installer/src/slip-reader.js:5-43 | an encoded packet decodes to itself and what follows is left, refused only above the limit |
| `Slip.OnlyEncodingsDecode` | installer/src/slip-reader.js:5-43 | a stream yields a packet if and only if it begins with that packet's encoding |
| `Slip.FaultsExactly` | installer/src/slip-reader.js:17-41 | each fault has its cause, as an if-and-only-if on the stream: a first byte that begins no packet, a bad escape, or more than 65536 bytes |
| `Slip.ReadPackets` | installer/src/slip-reader.js:5-43 | successive calls return the packets of a stream in order, however it is cut and however much of it comes in on a non-empty buffer between calls, and leave the rest |
| `UsbSetup.Model.ReceiveByte` | main/usb_setup_model.c:68-94 | a byte on the fixed line buffer is a step of the receiver on values |
| `UsbSetup.Model.PollButton` | main/usb_setup_model.c:12-24 | a button poll in place is a step on values |
| `UsbSetup.Model.LockKey` | main/usb_setup_model.c:31-36 | locking in place is a step on values |
| `UsbSetup.AnswerIsGrammar` | main/usb_setup_model.c:38-66 | a line is answered with a request if and only if the grammar makes it that request |
| `UsbSetup.StreamIsAnswered` | main/usb_setup_model.c:68-94 | for every byte stream the requests are those of its lines, in order, whatever garbage precedes them |
| `UsbSetup.ClientIsAnswered` | installer/src/usb-setup.js:61-78 | a line printed by the browser client is answered with its own id and command, after any garbage |
| `UsbSetup.WindowExactly` | main/usb_setup_model.c:6-36 | over every history the window is the one opened by the latest completed hold, once for each press however long it lasts; closed if a lock came since; and that of the first boot before any of these |
| `UsbSetup.FreshHoldUnlocks` | main/usb_setup_model.c:12-24 | conversely, the poll that completes a fresh three-second hold opens the window for a minute |
| `UsbSetup.HoldUnlocksOnce` | main/usb_setup_model.c:18-22 | holding on leaves the window where the completing poll put it, however long the button is held |
| `UsbSetup.LockHolds` | main/usb_setup_model.c:31-36 | locking closes the window, and a button held through it never opens it again |
| `UsbSetup.KeyNeedsPresence` | main/usb_setup_model.c:6-36 | the key is readable if and only if it is the first-boot window before any hold or lock, or the minute after the first poll that ends the latest fresh three-second hold, with no lock since |
| `CovRecovery.Recovery.Find` | main/bacnet_cov_recovery.c:29-38 | the scan finds an object exactly if the table holds it |
| `CovRecovery.Recovery.ConfirmedTimeout` | main/bacnet_cov_recovery.c:68-85 | the table part of a timeout is an insertion into the map unless present or full |
| `CovRecovery.Recovery.TimerMilliseconds` | main/bacnet_cov_recovery.c:94-103 | the timer takes the elapsed time off every remaining time, down to 0 |
| `CovRecovery.Recovery.IsDue` | main/bacnet_cov_recovery.c:105-109 | the query is true exactly for an object of the map whose time has run out |
| `CovRecovery.Recovery.Clear` | main/bacnet_cov_recovery.c:111-121 | clearing removes the object and counts a served refresh |
| `CovRecovery.NoCapacityErrors` | main/bacnet_cov_recovery.c:76-84 | timeouts of at most 32 distinct objects never hit the capacity, and the pending count is the map's size |
| `CovRecovery.CountersTell` | main/bacnet_cov_recovery.c:68-121 | over every history the counters are the timeouts, the refreshes served after their pause, the timeouts that found no room, and the objects held |
| `CovRecovery.TableTells` | main/bacnet_cov_recovery.c:68-121 | over every history, of however many objects: an object is held exactly while a timeout of it that found room is unserved, with 1000 ms less the time since the first of these |
| `CovRecovery.DueAfterAdmission` | main/bacnet_cov_recovery.c:68-109 | over every history an object is due exactly when 1000 ms passed since its first unserved timeout that found room |
| `CovRecovery.UnservedIsAdmitted` | main/bacnet_cov_recovery.c:76-84 | with at most 32 distinct objects the first unserved timeout is one that found room |
| `CovRecovery.DueAfterPause` | main/bacnet_cov_recovery.c:105-109 | while at most 32 distinct objects time out: due exactly when 1000 ms passed since the object's first unserved timeout |
| `Crc32.HostCrc32Le` | main/config_model.c:13-23 | the loop computes the reflected CRC-32 of the bytes |
| `Crc32.RetainedChecksum` | main/clock_model.c:55-66 | the second implementation is the same CRC of the eight little-endian bytes |
| `Crc32.CheckValue` | main/config_model.c:13-23 | the checksum of the digits 1 to 9 is CBF43926, the check value of CRC-32 |
| `Crc32.LowestByteFirst` | main/clock_model.c:60-61 | the timestamp is taken lowest byte first |
| `Crc32.ConditionalShift` | main/clock_model.c:58-63 | the conditional reduction of one implementation and the masked one of the other are the same shift |
| `Crc32.RegisterOfBurst` | main/config_model.c:16-21 | up to four bytes act on the register as one word |
| `Crc32.RegisterInjective` | main/config_model.c:16-21 | equal data never brings different registers together |
| `Crc32.BurstChangesChecksum` | main/config_model.c:13-23 | messages of any length that differ only within four consecutive bytes have different checksums |
| `Crc32.BitBurstChangesChecksum` | main/config_model.c:13-23 | messages of any length that differ only within 32 consecutive bits, in the order the register takes them, have different checksums |
| `Crc32.BitsOfBurst` | main/config_model.c:16-21 | up to 32 bits act on the register as one word |
| `Crc32.RegisterIsBits` | main/config_model.c:16-21 | the bytewise loops are a shift register fed one bit at a time, lowest bit first |

## Left out

- Relay driver concurrency is a state machine on values: `RelayCalls` has the code on its statics only for a boot or a caller that nobody interrupts, and the save task has no method of its own.
- The claim network and the main loop around the restart clock are state machines on values; the controller record and the clock record are classes.
- Relay diagnostics counters, GPIO and RTC probing, and the health task's one-second pacing.
- A manual controller joining mid-run, message loss, link loss of a locked controller, and colliding address keys in the claim protocol.
- The codecs, comparisons and constants of the BACnet stack, which is not part of this model: used through stated contracts or as parameters. The notification is taken to fit its 96 bytes.
- Null pointers and missing mutexes in the argument checks of the C interfaces.
- Flash below "a successful commit replaces one key, a failed one leaves it unchanged".
- The configuration blob's magic, schema, size and checksum are one flag, and the dotted-quad text parsing of static addresses is a parsed value or none.
- JSON parsing and the length checks of the web edit; an edit may carry any settings and the store's own validation decides.
- The server list, blob decoding and update of the time configuration.
- The announcement campaign of `bacnet_announcement_tick`: the same bounded retry as the restart scheduler, with one destination.
- The browser client's response side, time-outs and port handling; authentication; SNTP and clock service; HTTP; OTA; the command trace ring; release, soak and hardware test tools.
- What a SLIP call leaves unread after a fault: the rest of the chunk at hand is dropped, so it depends on the chunking.
- 32-bit wrap-around of statistics and of millisecond clocks.
