# A verified model of the write-and-poll kernel

The runtime polls field devices over Modbus and other transports, keeps staged images
of the registers it writes, and bridges a register server to a PLC. This project models
the kernel that decides what is read and written when, and proves what it promises for
every input and every interleaving:

- the request scheduler: four priority lanes, a starvation guard, round-robin within a
  lane, a circuit breaker, an inter-request gap, and a pump that is re-entered from
  completions and timers (`Scheduler*.dfy`, `SerialScheduler.dfy`);
- the sink window, a staged register image with a generation counter (`SinkWindow.dfy`);
- the bridge: mirroring with versions (`BridgeMirror.dfy`) and forwarding at a shifted
  address (`Forwarding.dfy`);
- the integer, Bool and enum codecs, and the lens they form with the window's masks
  (`Codec.dfy`, `WordOrders.dfy`, `ScalarCodec.dfy`, `EnumCodec.dfy`, `FieldLens.dfy`, `EnumLens.dfy`,
  `FieldFamily.dfy`), and what a flush takes of a field of several registers
  (`TornFields.dfy`);
- configuration validation and what acceptance says about the modules built
  (`Config*.dfy`, `Requests.dfy`, `BridgeConfig.dfy`);
- the bounded persistence queue, the log dispatcher and the event bus
  (`Persistence.dfy`, `Logger.dfy`, `EventBus.dfy`).

`dafny verify dfyconfig.toml` checks the whole project.

## How it is built

Each object of the source is a class whose methods are its locked sections, proved equal
to functions on a value of its fields. Concurrency is a step system: a state, an `Action`
for each locked section or move between two of them, `Enabled` and `Next`, and theorems
about `Exec` of any list of enabled actions. Time is a natural number of nanoseconds that
only grows; a locked section that reads the clock several times takes a list of readings.
History (what was selected, written, stored, delivered) is kept beside the state and never
decides a step.

Integers carried by a codec are 64-bit patterns, so two's complement and truncation are
exact. Acceptance of a configuration is stated on the part of the schema that the
properties need; the source checks more, so every schema it accepts is accepted here.

Where the code does less than one might expect, the project states exactly when:

- a failed half-open probe reopens the circuit only if the failures since the last success
  reach the threshold (`FailedProbeReopens`, `FailedProbeNeedNotReopen`);
- a negative value skips the mask check and may come back changed (`IntegerRoundTrip`,
  `NarrowMaskLosesSign`);
- a Bool sink without a bit takes its whole register (`GetPut`, `BoolWithoutBitWipes`);
- two enum values under one name cannot both be restored (`EnumGetPut`,
  `SharedNameChanges`);
- a flush between two registers of one datapoint carries a torn value (`DecidedWhole`,
  `TornValue`);
- a refused mirror submission that gives the slot back past a newer image leaves that
  image unsent until the next poll (`MirrorReachesLatest`, `RefusalLeavesStale`);
- validation alone lets an empty heartbeat through, only the loader refuses it
  (`ValidRequestsLegal`, `EmptyHeartbeatPasses`);
- a failed final flush loses the rows still queued beside the batch that it reports
  (`FinalFlushExact`, `FailedFinalFlushLeavesRows`);
- a flush or removal called on the log dispatch thread returns at once, so records may be
  undelivered and the removed sink may be written again (`FlushExact`,
  `RemovedStaysSilent`, `SelfRemovalWrittenAgain`).

A comment in `src/Logger.cpp:41-42` calls records of level Warn and above protected; the
code protects Info and above, and the model follows the code.

## Model

The theorems come first. The last rows tie the locked sections of the objects to the
functions that the theorems are about.

| member | source | states |
|---|---|---|
| `SchedulerTheorems.NoStrandedRequest` | src/SerialScheduler.cpp:234-346 | In every run, a queued request that could be served is never left alone: a pump is about to select or told to go again, a submitter or completer owes a pump call, or exactly one gap timer is pending; in blocking mode nothing serviceable waits at all |
| `SchedulerTheorems.RankDrops` | src/SerialScheduler.cpp:302-346 | Every move of the pump and every first completion lowers a natural-number rank |
| `SchedulerTheorems.PumpDrains` | src/SerialScheduler.cpp:302-346 | Between submissions and timers pump moves and first completions together are bounded by that rank, so completions that re-enter the pump inline cannot make it spin |
| `SchedulerTheorems.RestIsServed` | src/SerialScheduler.cpp:302-346 | At rest every slot is taken, every lane is empty, or the gap timer is armed |
| `SchedulerTheorems.ReachedConfig` | src/SerialScheduler.cpp:65-75 | In every run the limits in force are the caller's, with queue and slots at least one and times at least zero |
| `SchedulerTheorems.Conservation` | src/SerialScheduler.cpp:359-537 | In every run submitted = queued + in flight + completed + failed + cancelled, in flight and queued + in flight within the caller's limits, each at least one |
| `SchedulerTheorems.NothingForgotten` | src/SerialScheduler.cpp:169-222 | The lanes hold exactly the waiting requests, each once |
| `SchedulerTheorems.CompletedAtMostOnce` | src/SerialScheduler.cpp:330-346 | No request is selected or completed twice, and a completed one is finished for good, also under duplicate completions and throwing works |
| `SchedulerTheorems.EndsAreFinal` | src/SerialScheduler.cpp:330-537 | Between any two states of a run finished and cancelled requests stay so, in-flight ones only finish, event-driven ones are never cancelled |
| `SchedulerTheorems.HalfDuplexGap` | src/SerialScheduler.cpp:234-249 | With the delay hook, every event-driven selection comes at least the configured gap after every completion before it |
| `SchedulerTheorems.SerialIntervals` | src/SerialScheduler.cpp:302-346 | Configured with one slot, the selection-to-completion intervals of a run are disjoint, and separated by the configured gap |
| `SchedulerTheorems.BreakerSafety` | src/SerialScheduler.cpp:117-143 | Closed with a positive threshold means a streak below it; after a half-open admission at most one request is outstanding |
| `SchedulerCircuit.CircuitExact` | src/SerialScheduler.cpp:117-143 | In every run the circuit opens exactly on a failing end that brings the failures in a row to a positive threshold, closes exactly on a successful end while half-open, becomes half-open exactly when a submission or the statistics look at it at least the configured open time after it opened, and is otherwise unchanged; the opening time is that of the failure |
| `SchedulerCircuit.AdmissionExact` | src/SerialScheduler.cpp:462-504 | In every run a submission gets exactly the answer that priority, stop flag, mode, circuit, outstanding count and configured depth call for, and is taken in exactly when accepted |
| `SchedulerCircuit.ModeExact` | src/SerialScheduler.cpp:369-392 | A submission that passes its first checks fixes the mode, even if it is then refused; nothing else moves it |
| `SchedulerTheorems.BreakerStep` | src/SerialScheduler.cpp:377-392 | One step of any kind: nothing is admitted while Open, Open is left only after the configured open time, HalfOpen admits only when idle |
| `SchedulerTheorems.SubmitAsyncAdmits` | src/SerialScheduler.cpp:462-504 | An event-driven submission is admitted only by a circuit that is not open, and by a half-open one only when nothing is outstanding; other refusals change nothing |
| `SchedulerTheorems.SubmitSyncAdmits` | src/SerialScheduler.cpp:359-397 | The same for the blocking submission |
| `SchedulerTheorems.OpenLasts` | src/SerialScheduler.cpp:117-135 | Over any run Open lasts at least the configured openMs from the failure that opened it |
| `SchedulerTheorems.StreakCounts` | src/SerialScheduler.cpp:127-143 | Over any run the error streak is the number of failures since the last success |
| `SchedulerTheorems.FailedProbeReopens` | src/SerialScheduler.cpp:127-143 | In any half-open state of any run, a failing request, event-driven or blocking, reopens the circuit if and only if the failures since the last success of the run, with this one, reach the threshold; otherwise it stays half-open |
| `SchedulerExample.FailedProbeNeedNotReopen` | src/SerialScheduler.cpp:137-143 | A run of the scheduler, action by action, in which two failures open the circuit, a late success resets the streak, and the only half-open probe fails without reopening it |
| `SchedulerTheorems.SerialKindIntervals` | src/SerialScheduler.cpp:575-593 | A scheduler of the serial kind has disjoint selection-to-completion intervals whatever is configured |
| `SchedulerTheorems.KindLimits` | src/SerialScheduler.cpp:575-593 | The serial kind has one slot and the others the configured ones; only the priority kind guards against starvation, for the configured time or else 5000 ms; everything else is as configured |
| `SchedulerTheorems.NothingAfterStop` | src/SerialScheduler.cpp:511-514 | After a stop nothing event-driven is admitted or selected in any continuation; what is in flight may still complete |
| `SchedulerSelection.LaneExact` | src/SerialScheduler.cpp:153-180 | The lane served is the lowest in which the oldest request has waited the guard time, and without one the highest that is not empty |
| `SchedulerSelection.RequestExact` | src/SerialScheduler.cpp:182-194 | The request served in a lane is its oldest, or with round-robin its oldest of another module than the last served from it, if there is one |
| `SchedulerSelection.NotesAreHistory` | src/SerialScheduler.cpp:169-198 | In every run the module noted for a lane is that of the latest selection from it, and the noted completion time is the latest |
| `SchedulerSelection.SelectExact` | src/SerialScheduler.cpp:234-280 | In every run a selection step does nothing after a stop; within the configured gap it selects nothing and asks for one timer, for the first whole millisecond past the gap, if something is queued and none is pending; otherwise it selects until the slots are full or the lanes empty |
| `SchedulerEffects.CancelExact` | src/SerialScheduler.cpp:516-537 | Cancelling a module discards exactly its queued blocking requests, keeps every lane's others in order, counts them, and changes nothing else |
| `SchedulerEffects.SubmitAsyncExact` | src/SerialScheduler.cpp:204-222 | An accepted event-driven request joins the end of its lane, and exactly the queued blocking interruptable requests of lower priority are discarded |
| `SchedulerEffects.SubmitSyncExact` | src/SerialScheduler.cpp:204-222 | For an accepted blocking request an older one becomes cancelled if and only if it was queued, blocking, interruptable and of lower priority; any other stays or is selected |
| `SchedulerFairness.BoundedBypass` | src/SerialScheduler.cpp:169-198 | In every run a request with k ahead of it in its lane is selected within k+1 selections from that lane if the caller asked for FIFO, 2(k+1) otherwise, for any module ids, arrivals and cancellations |
| `SchedulerFairness.PickCredit` | src/SerialScheduler.cpp:182-194 | Every pick of another request lowers the waiting request's remaining credit, in either mode |
| `SchedulerFairness.OverdueServed` | src/SerialScheduler.cpp:153-167 | While an overdue request waits in a lane, the lane picked is that one or a lower one |
| `SchedulerFairness.NoneAboveOverdue` | src/SerialScheduler.cpp:250-278 | Over any run, while an overdue event-driven request waits in a lane, nothing is selected from a lane above it |
| `SchedulerFairness.StarvationGuard` | src/SerialScheduler.cpp:250-278 | In every run an event-driven lowest-lane request that has waited the configured guard time is selected within k+1 (2(k+1)) selections overall, however many higher requests arrive |
| `SchedulerFairness.GuardFavoursLowest` | src/SerialScheduler.cpp:153-180 | The lowest of the starved lanes is served, and without one the highest lane that is not empty |
| `SchedulerPreservation.DelayCoversGap` | src/SerialScheduler.cpp:234-249 | The delay handed to the hook covers what is left of the gap |
| `SchedulerSystem.StepInv` | src/SerialScheduler.cpp:234-346 | Every step of every interleaving keeps the system invariant behind the run theorems |
| `SinkWindowSystem.NoLostUpdate` | src/SinkWindow.cpp:157-196 | In every interleaving at most one write is decided or outstanding; a clean window shows the last acknowledged image; a cleared force flag means a write decided after the force was acknowledged |
| `SinkWindowSystem.AckCleansIff` | src/SinkWindow.cpp:105-114 | An acknowledged write leaves the window clean if and only if no register was changed and no flush forced in the run between its decision and its acknowledgement |
| `SinkWindowSystem.DueUntilAcknowledged` | src/SinkWindow.cpp:78-103 | A due flush stays due over any run, however often the window is staged again and whatever writes fail, until a write is acknowledged |
| `SinkWindowSystem.DecideExact` | src/SinkWindow.cpp:78-103 | In every run a tick decides a write if and only if a forced flush is unacknowledged, a change has been pending for the debounce time since the first one, or keep-alive is on and its period has passed since the last clean acknowledgement or start; it takes the present image |
| `SinkWindowSystem.FlagIsHeld` | src/SinkWindow.cpp:157-196 | In every run the in-flight flag is set exactly while a tick or its write is under way |
| `BridgeMirror.MirrorSlice` | src/Core.cpp:819-826 | The mirrored part of a poll exists exactly when the poll covers the mirror window, and is that part register by register |
| `BridgeMirrorSystem.PollsCounted` | src/Core.cpp:815-832 | The stored version counts the polls of the run, and the stored image is that of the latest |
| `BridgeMirrorSystem.MirrorReachesLatest` | src/Core.cpp:815-1019 | In every run of a running core at rest, the last mirror write issued carried the image of the latest poll if and only if no refused submission gave the slot back past a newer image since the last accepted one; versions never decrease; one write at most is in flight |
| `BridgeMirrorSystem.AcceptedReachesLatest` | src/Core.cpp:815-1019 | While submissions are accepted the mirror at rest is always up to date |
| `BridgeMirrorSystem.RefusalLeavesStale` | src/Core.cpp:1012-1018 | A concrete run in which a refused submission leaves the newest image unsent |
| `Codec.PermutationInvolutive` | src/Stubs.cpp:67-85 | Every byte order undoes itself |
| `Codec.ShiftByBytes` | src/BuiltinCodecs.cpp:52-54 | The byte-wise shift of the model is the machine shift by eight bits a byte |
| `Codec.UnpackIntLoop` | src/BuiltinCodecs.cpp:23-42 | The unpacking loops compute the value of the reordered bytes |
| `Codec.PackIntLoop` | src/BuiltinCodecs.cpp:44-69 | The packing loops compute the registers of the reordered bytes |
| `WordOrders.UnpackMeans` | src/BuiltinCodecs.cpp:23-42 | The value of two or four registers is the registers joined in order for ABCD, in reverse order for CDAB, and with the bytes of each swapped for BADC and DCBA |
| `WordOrders.PackMeans` | src/Stubs.cpp:67-85 | Packing puts the parts of a value into the registers in the same arrangement |
| `WordOrders.DecodeMeans` | src/BuiltinCodecs.cpp:120-154 | A datapoint of two or four registers reads the arranged registers, shifted down, masked and taken as its type |
| `WordOrders.DecodeOne` | src/BuiltinCodecs.cpp:120-154 | The same for one register, which no word order rearranges |
| `WordOrders.BoolMeans` | src/BuiltinCodecs.cpp:93-97 | A Bool reads its bit by number, bit 0 the least significant |
| `Codec.UnpackPack` | src/BuiltinCodecs.cpp:23-69 | Unpacking undoes packing for every value that fits 1, 2 or 4 registers, in every word order |
| `Codec.PackUnpack` | src/BuiltinCodecs.cpp:23-69 | Packing undoes unpacking |
| `Codec.UnpackFits` | src/BuiltinCodecs.cpp:23-42 | An unpacked value fits its registers |
| `ScalarCodec.UpIsShift` | src/BuiltinCodecs.cpp:258-261 | The bit-by-bit shift up of the model is the machine shift for every amount below 64 |
| `ScalarCodec.DownIsShift` | src/BuiltinCodecs.cpp:122-124 | The bit-by-bit shift down of the model is the machine shift for every amount below 64 |
| `ScalarCodec.IntegerRoundTrip` | src/BuiltinCodecs.cpp:85-263 | For every integer type, word order, shift and mask, an accepted value is decoded back to itself if and only if the mask loses no bit of the type's width |
| `ScalarCodec.NonNegativeRoundTrip` | src/BuiltinCodecs.cpp:195-262 | Unsigned types and non-negative values always come back |
| `ScalarCodec.FullMaskRoundTrip` | src/BuiltinCodecs.cpp:195-262 | With a mask that covers the type's width every accepted value comes back |
| `ScalarCodec.NarrowMaskLosesSign` | src/BuiltinCodecs.cpp:255-262 | A concrete negative value that is accepted under a narrow mask and comes back changed |
| `ScalarCodec.EncodeDecode` | src/BuiltinCodecs.cpp:120-262 | Encoding what was decoded is accepted exactly when decoding was, and gives the registers projected onto mask << shift |
| `ScalarCodec.BoolRoundTrip` | src/BuiltinCodecs.cpp:85-169 | A Bool is accepted exactly for bits 0 to 15, and comes back |
| `ScalarCodec.VariantLaws` | src/BuiltinCodecs.cpp:160-262 | A truth value is encoded as 1 or 0, a number as true unless it is zero, and nothing is refused as a number and false as a truth value |
| `ScalarCodec.ExtraRegisters` | src/BuiltinCodecs.cpp:85-130 | Only the registers of the type are read |
| `EnumCodec.BuildReverse` | src/BuiltinCodecs.cpp:269-277 | The reverse table leads every name back to a value that carries it, whatever the table's order |
| `EnumCodec.EnumAccepts` | src/BuiltinCodecs.cpp:292-309 | The encoder accepts exactly a name of the table or a 16-bit number, within the mask, that fits the register when shifted |
| `EnumCodec.EnumRoundTrip` | src/BuiltinCodecs.cpp:281-309 | Every accepted name decodes to itself, every accepted number to its name or to unknown |
| `EnumCodec.EnumEncodeDecode` | src/BuiltinCodecs.cpp:281-309 | Encoding a decoded name restores the register's field if and only if the name leads back to the value read |
| `EnumCodec.EnumEncodeDecodeInjective` | src/BuiltinCodecs.cpp:281-309 | Without two values under one name the field is always restored |
| `EnumCodec.FirstRegisterOnly` | src/BuiltinCodecs.cpp:281-290 | Only the first register is read, and without one nothing is |
| `FieldLens.WriteField` | src/Core.cpp:1388-1426 | The datapoint writer leaves the window image merged with the encoded registers under the stage masks; a refused value stages nothing; the window is marked dirty exactly for a change |
| `FieldLens.PutGet` | src/Core.cpp:96-100 | After a write the field reads what the codec makes of the written registers, whatever was in the image |
| `FieldLens.WriteReadsBack` | src/Core.cpp:96-100 | An accepted write reads back as itself if and only if the mask loses none of its bits |
| `FieldLens.GetPut` | src/SinkWindow.cpp:55-70 | Writing back what a field reads leaves the image unchanged if and only if nothing is beside the field in registers that it takes whole |
| `FieldLens.BoolWithoutBitWipes` | src/Core.cpp:96-100 | A concrete Bool sink without a bit whose write wipes the rest of its register |
| `FieldLens.PutElsewhere` | src/SinkWindow.cpp:55-70 | A write never disturbs a field with a disjoint mask |
| `FieldFamily.StagedElsewhere` | src/Core.cpp:1388-1426 | A write of an integer, Bool or enum datapoint never disturbs one with a disjoint mask |
| `FieldFamily.LastWriteWins` | src/Core.cpp:1388-1426 | Over any sequence of accepted and refused writes to integer, Bool and enum datapoints with disjoint masks, each shows what it showed first or what its codec makes of its last accepted write, which is the written value if and only if the mask loses none of its bits, and for an enum always |
| `TornFields.DecidedWhole` | src/Core.cpp:1409-1422 | A flush decided while a datapoint of several registers is being staged takes the staged registers new and the others old; it carries the datapoint whole if and only if the registers staged so far, or those still to come, do not change it |
| `TornFields.DecidedValue` | src/Core.cpp:1409-1422 | For an untransformed number that image shows the old or the new value under exactly that condition |
| `TornFields.CleanIsWhole` | src/SinkWindow.cpp:105-114 | Once the datapoint is staged in full, a clean window's last acknowledged image carries it whole |
| `TornFields.TornValue` | src/Core.cpp:1409-1422 | A concrete torn value of two registers |
| `EnumLens.EnumPutGet` | src/Core.cpp:96-100 | A staged enum name or number is read back whatever else is in the register |
| `EnumLens.EnumGetPut` | src/Core.cpp:96-100 | Staging back a name that was read leaves the register unchanged if and only if the name leads back to the value read, or the encoder refuses it |
| `EnumLens.SharedNameChanges` | src/BuiltinCodecs.cpp:269-277 | With two values under one name, reading the one that the name does not lead back to and staging it back changes the register |
| `EnumLens.EnumElsewhere` | src/SinkWindow.cpp:55-70 | A write under a disjoint mask does not change what an enum reads |
| `ConfigSchema.OverlapIsSharing` | src/ConfigLoader.cpp:1029-1034 | Two ranges overlap exactly when some register is in both |
| `ConfigExact.RangeExact` | src/ConfigLoader.cpp:1036-1052 | A range is valid exactly when it is not empty, within its limit, and all its registers are addresses |
| `ConfigExact.TablesExact` | src/ConfigLoader.cpp:975-1010 | The known table names are two for each table, the writable ones those of holding registers and coils |
| `ConfigExact.WordsExact` | src/Stubs.cpp:33-35 | A sink takes as many registers as its type has bits, a Bool one |
| `ConfigExact.FoundExact` | src/ConfigLoader.cpp:1503-1535 | A transport reference is found exactly when some transport has that id, and the first is meant |
| `ConfigExact.RefersExact` | src/ConfigLoader.cpp:1526-1535 | A transport reference passes exactly when it is empty or names a transport |
| `ConfigExact.ListenedExact` | src/ConfigLoader.cpp:1929-1942 | A range is listened to exactly when one holding-register range of the server has all its registers |
| `ConfigExact.ModuleIdsExact` | src/ConfigLoader.cpp:2118-2134 | The id check passes exactly when no two modules that are built have the same id |
| `ConfigSections.WindowExact` | src/ConfigLoader.cpp:1300-1316 | A window's values pass exactly with a written id, a writable table, real addresses, no negative time and no initial value cut off |
| `ConfigSections.ReadersAndWritersExact` | src/ConfigLoader.cpp:1285-1359 | The same for polls, heartbeats and command writes |
| `ConfigSections.BridgeExact` | src/ConfigLoader.cpp:1467-1495 | A bridge's values pass exactly when what it writes and mirrors are addresses on both sides and its forwarded write is legal in the protocol |
| `ConfigSections.SinkExact` | src/ConfigLoader.cpp:1382-1450 | An integer or Bool sink passes exactly when it is a legal field on real addresses, table and word order, its field lies in the type's width, and it takes its registers whole if there are several |
| `ConfigSections.ShiftExact` | src/ConfigLoader.cpp:1802-1826 | The shift check passes exactly when the shifted mask stays within the type's width and loses no bit |
| `ConfigSections.MaskExact` | src/ConfigLoader.cpp:1802-1826 | The mask check passes exactly for a full mask or one without a bit beyond the type's width |
| `ConfigSections.OrderNames` | src/Core.cpp:83-88 | Each word order has its own name, and no name means the plain one |
| `ConfigAccepted.ClientExact` | src/ConfigLoader.cpp:1024-1027 | A transport counts as a Modbus client exactly when the id means a TCP client or a serial line |
| `ConfigAccepted.ElsewhereUnlimited` | src/ConfigLoader.cpp:1544-1583 | On other transports polls, windows and heartbeats of any size pass with a good reference |
| `ConfigAccepted.TransportExact` | src/ConfigLoader.cpp:1279-1282 | A transport's values pass exactly with a written id and listen ranges of real addresses |
| `ConfigAccepted.TransportsReached` | src/ConfigLoader.cpp:2109-2117 | In an accepted configuration every transport is the one that its id means |
| `ConfigAccepted.NothingDangles` | src/ConfigLoader.cpp:1526-1588 | In an accepted configuration every module's, sink's and bridge's transport is known, and every datapoint takes registers |
| `ConfigAccepted.BlankExact` | src/ConfigLoader.cpp:1055-1061 | An id is refused as blank exactly when trimming leaves nothing of it |
| `ConfigAccepted.DecimalExact` | src/Core.cpp:758-759 | The printed index of a forward window reads back |
| `ConfigAccepted.ForwardIdsDiffer` | src/ConfigLoader.cpp:2118-2134 | No two forward windows have the same id, also when one server's id continues another's |
| `ConfigValidation.ValidateRange` | src/ConfigLoader.cpp:1036-1052 | An error is added exactly when the range is not in the address space or not within the limit |
| `ConfigValidation.CheckUnique` | src/ConfigLoader.cpp:930-939 | An error is added exactly when an id occurs twice |
| `ConfigValidation.ValidateValues` | src/ConfigLoader.cpp:1054-1500 | The modelled value checks pass exactly under their conditions on every section |
| `ConfigValidation.IndexTransports` | src/ConfigLoader.cpp:1503-1508 | The index finds the first transport of an id |
| `ConfigValidation.CheckLimits` | src/ConfigLoader.cpp:1544-1588 | The reference and request-size checks pass exactly when every reference is known and every request on a Modbus client is within its limit |
| `ConfigValidation.CheckApart` | src/ConfigLoader.cpp:1590-1661 | The nested overlap loops pass exactly when windows, heartbeats and command writes are pairwise apart |
| `ConfigValidation.CheckSink` | src/ConfigLoader.cpp:1707-1766 | The window checks pass exactly when the named window holds the sink on its transport and table, or some window covers it |
| `ConfigValidation.CheckMask` | src/ConfigLoader.cpp:1802-1826 | The mask checks pass exactly when mask and shifted mask fit the type's width |
| `ConfigValidation.CheckBridge` | src/ConfigLoader.cpp:1905-2015 | The bridge checks pass exactly when its ends, ranges and mappings are in order |
| `ConfigValidation.CheckBridgePairs` | src/ConfigLoader.cpp:2017-2049 | The pair checks pass exactly when no two bridges collide on the server or on the PLC |
| `ConfigValidation.Validate` | src/ConfigLoader.cpp:2109-2146 | The modelled checks find no error if and only if the schema is valid |
| `ConfigValidation.Load` | src/ConfigLoader.cpp:2056-2107 | The loader accepts if and only if the schema is valid and every heartbeat has a payload |
| `ConfigTheorems.TableNames` | src/Core.cpp:69-81 | On known tables validation's names and the builders' tables agree on what is the same table |
| `ConfigTheorems.OwnershipExact` | src/ConfigLoader.cpp:1590-1661 | The range checks pass if and only if every register has at most one owner among windows, heartbeats and bridge ranges, and no command writes an owned one |
| `ConfigTheorems.SingleOwner` | src/ConfigLoader.cpp:1956-2050 | In an accepted configuration every register has at most one owner and commands write only unowned registers |
| `BridgeConfig.ServerSideExact` | src/ConfigLoader.cpp:2017-2049 | The server-side checks pass exactly when no register of a server lies in two write or mirror areas |
| `BridgeConfig.ServerSide` | src/ConfigLoader.cpp:2017-2049 | In an accepted configuration no server register is written or mirrored by two areas |
| `BridgeConfig.AreasListened` | src/ConfigLoader.cpp:1929-1950 | Every register of an area lies in a holding-register range that its server listens to |
| `BridgeConfig.MirrorPolled` | src/ConfigLoader.cpp:1994-2014 | Every mirror of a known PLC has a poll whose full result covers it |
| `BridgeConfig.ForwardsLegal` | src/ConfigLoader.cpp:1905-1923 | The PLC of a bridge, if known, is a Modbus client, and every write forwarded to it is legal in the protocol |
| `ConfigTheorems.ResolveWindow` | src/Core.cpp:1318-1340 | The builder's search returns the first window by name or by match |
| `ConfigTheorems.ResolutionUnique` | src/Core.cpp:1318-1345 | In an accepted configuration every sink is resolved to a window that holds it, in any order of the windows, and without a name to the only one that matches |
| `ConfigTheorems.ResolvedAgrees` | src/Core.cpp:1318-1345 | The window that a sink is resolved to is the named one, and on the transport and table that the sink names |
| `ConfigTheorems.SinkIsLens` | src/ConfigLoader.cpp:1382-1450 | Every integer or Bool sink of an accepted configuration, under its builtin codec and unscaled, is a legal field inside its window, and writing back what it reads changes nothing unless it is a Bool without a bit on a register with other bits set |
| `ConfigTheorems.SinkAccepts` | src/ConfigLoader.cpp:1802-1826 | A sink of an accepted configuration, under its builtin codec and unscaled, accepts exactly the numbers of its type that are negative or within the mask; the codec's check of the shifted value never refuses there |
| `Requests.BuildAll` | src/Core.cpp:1227-1294 | The builders produce exactly the requests of the configured modules whose transport exists |
| `Requests.ValidRequestsLegal` | src/ConfigLoader.cpp:1012-1052 | In a valid schema every request on a Modbus client is within the protocol's quantities and addresses if and only if no heartbeat there is empty |
| `Requests.EmptyHeartbeatPasses` | src/ConfigLoader.cpp:1320-1325 | A concrete valid schema whose empty heartbeat issues an illegal write |
| `Requests.RequestsLegal` | src/ConfigLoader.cpp:1544-1588 | In an accepted configuration every read and write of polls, windows, heartbeats, commands and bridges on a Modbus client is legal in the protocol |
| `Requests.LimitExact` | src/ConfigLoader.cpp:1012-1017 | A poll on a client passes the size check if and only if its request is legal |
| `Requests.WriteLimitExact` | src/ConfigLoader.cpp:1019-1022 | The same for windows, and for heartbeats with a payload |
| `Forwarding.BuildBridges` | src/Core.cpp:742-773 | Each bridge that writes to a known PLC gets its own zeroed window over its mapped range |
| `Forwarding.ForwardBridges` | src/Core.cpp:777-793 | A server write leaves in each forward window the event's value at the shifted address where the event covers it, and the old value elsewhere; every stage is in range |
| `Forwarding.ZeroBridgeForward` | src/Core.cpp:797-812 | Turning forwarding off zeroes the server's forward windows and makes a flush due even without a change; other windows are untouched |
| `Forwarding.ExactOverlay` | src/Core.cpp:777-793 | In an accepted configuration a PLC register becomes the event's value at its shifted address if a bridge reaches it and keeps its value otherwise, in any order of the bridges |
| `Forwarding.OrderIrrelevant` | src/Core.cpp:777-793 | The order of the bridges does not matter |
| `Forwarding.WindowShowsPlc` | src/ConfigLoader.cpp:1479-1485 | Each forward window shows exactly what all bridges together do to its registers, all within 0..65535 |
| `Persistence.PushBounded` | persistence/src/Persistence.cpp:193-213 | A push never takes the queue over its capacity |
| `Persistence.OperationsLast` | persistence/src/Persistence.cpp:304-310 | An operation row is evicted only by a newer one, when every queued row is an operation; it is never refused |
| `Persistence.SystemBeforeOperations` | persistence/src/Persistence.cpp:292-302 | A system row is evicted or refused only when no telemetry is queued |
| `Persistence.DropExact` | persistence/src/Persistence.cpp:280-310 | Exactly one row is counted as dropped when a full running queue gets a push, none otherwise |
| `PersistenceSystem.RowsConserved` | persistence/src/Persistence.cpp:499-573 | In every run the depth stays within the capacity and accepted = queued + in batch + stored + dropped; after an end without a failed final flush accepted = stored + dropped |
| `PersistenceSystem.StoredInOrder` | persistence/src/Persistence.cpp:551-573 | Every table holds its rows in push order, each once across retries, and none that was dropped |
| `PersistenceSystem.NoRowForgotten` | persistence/src/Persistence.cpp:499-549 | Every accepted row is queued, in the batch, stored or dropped, and in one of them only |
| `PersistenceSystem.CycleStores` | persistence/src/Persistence.cpp:499-549 | One cycle of the idle worker with a working database stores everything queued, in order, logs the drops, and leaves it idle |
| `PersistenceSystem.PushShifts` | persistence/src/Persistence.cpp:280-310 | A push takes at most the oldest row of one queue, appends the row to its own unless it is refused, and counts the drop |
| `PersistenceSystem.TablesOnlyGrow` | persistence/src/Persistence.cpp:551-563 | Later steps only append to a table |
| `PersistenceSystem.FinalFlushExact` | persistence/src/Persistence.cpp:534-546 | Once the worker has ended, the rows lost are the retained batch and the queue; some are lost if and only if the final flush failed, and more than logged if and only if rows were still queued then |
| `PersistenceSystem.DropsLogged` | persistence/src/Persistence.cpp:524-532 | Every drop that the worker takes over is logged, and at a clean end that is every drop |
| `PersistenceSystem.FailedFinalFlushLeavesRows` | persistence/src/Persistence.cpp:534-546 | A concrete run in which a failed final flush loses a queued row beside the batch that is logged as lost |
| `Logger.WithoutExact` | src/Logger.cpp:247-252 | Removing a sink takes exactly its occurrences and keeps the others in order |
| `Logger.ProductAt` | src/Logger.cpp:144-148 | Each record of a batch is written once for each place of the sink list, in queue order |
| `LoggerSystem.OfferExact` | src/Logger.cpp:97-122 | An offered record is ignored after stopping, joins the queue with room, is dropped without room if it is a system record below Info, and otherwise makes its producer wait |
| `LoggerSystem.ProtectedNeverDropped` | src/Logger.cpp:43-120 | In every run the queue keeps its capacity, and an operation record or one from Info upwards, offered by a producer thread before stopping, is queued or its producer still waits, never dropped |
| `LoggerSystem.FifoDelivery` | src/Logger.cpp:124-176 | In every run the writes are those of the finished batches and of the begun one, in queue order, each record once; at the end everything queued is delivered |
| `LoggerSystem.CycleDelivers` | src/Logger.cpp:124-157 | One cycle of the waiting dispatch thread delivers everything queued to all registered sinks, and it waits again |
| `LoggerSystem.FlushExact` | src/Logger.cpp:178-188 | A flush or removal that returns has seen everything delivered if and only if it came from another thread before stopping, or nothing is queued or left of the batch |
| `LoggerSystem.FlushDelivers` | src/Logger.cpp:178-188 | A flush of another thread that returns before stopping has delivered everything queued |
| `LoggerSystem.FlushedForGood` | src/Logger.cpp:178-188 | What a flush of another thread that returned before stopping waited for stays delivered |
| `LoggerSystem.RemovedStaysSilent` | src/Logger.cpp:247-257 | After a removal has returned, the sink is not written in any continuation that does not add it again, if and only if the removal came from another thread before stopping, or no write of the running delivery that is still to come names it |
| `LoggerSystem.SelfRemovalWrittenAgain` | src/Logger.cpp:178-188 | A concrete run in which a sink removes itself in its write and is written again, and a flush called there returns with a record undelivered |
| `EventBus.Snapshot` | src/EventBus.cpp:117-131 | A publisher's snapshot is the live entries in subscription order, and the channel is compacted to them |
| `EventBus.Subscribe` | src/EventBus.cpp:97-110 | Subscribing compacts the channel and appends the new entry |
| `EventBus.AliveInOrder` | src/EventBus.cpp:117-131 | The snapshot keeps the order of subscription |
| `EventBus.SnapshotComplete` | src/EventBus.cpp:117-131 | A live entry is in the snapshot as often as in the channel, a dead one never |
| `EventBusSystem.ActiveIsTotal` | src/EventBus.cpp:27-43 | In every run the active count is the sum of the per-thread counts, which are the handler frames on the stacks |
| `EventBusSystem.CancelDrains` | src/EventBus.cpp:57-66 | Once a cancellation has returned no other thread is inside the handler, and none enters it in any continuation, whatever snapshots publishers hold |
| `EventBusSystem.CancelReturnsExactly` | src/EventBus.cpp:57-66 | A cancellation can return if and only if no other thread is inside, also from inside the handler |
| `EventBusSystem.EntersUntilCancelled` | src/EventBus.cpp:27-33 | In every run a publisher enters the handler exactly as long as no cancellation has begun |
| `SerialScheduler.SchedulerImpl.UpdateCircuitLocked` | src/SerialScheduler.cpp:117-125 | The object's update is the model's circuit update |
| `SerialScheduler.SchedulerImpl.RecordFailureLocked` | src/SerialScheduler.cpp:127-135 | The object's failure accounting is the model's |
| `SerialScheduler.SchedulerImpl.RecordSuccessLocked` | src/SerialScheduler.cpp:137-143 | The object's success accounting is the model's |
| `SerialScheduler.SchedulerImpl.TotalQueueDepthLocked` | src/SerialScheduler.cpp:145-149 | The loop returns the number of queued requests over all lanes |
| `SerialScheduler.SchedulerImpl.StarvedLaneLocked` | src/SerialScheduler.cpp:153-167 | The sweep returns the lowest lane whose front has waited the guard time, or -1 |
| `SerialScheduler.SchedulerImpl.PickIndexLocked` | src/SerialScheduler.cpp:182-194 | The scan returns the first request of another module than the last one served, or the front |
| `SerialScheduler.SchedulerImpl.SelectLocked` | src/SerialScheduler.cpp:169-198 | The selection loop is the model's loop: same requests, lanes, last-served modules and history |
| `SerialScheduler.SchedulerImpl.SelectAsyncLocked` | src/SerialScheduler.cpp:234-280 | Event-driven selection is the model's: gap check, delay request, selection |
| `SerialScheduler.SchedulerImpl.SweepLocked` | src/SerialScheduler.cpp:204-222 | Preemption cancels exactly the interruptable blocking requests of the lower lanes and keeps the others in order |
| `SerialScheduler.SchedulerImpl.CancelModuleLocked` | src/SerialScheduler.cpp:516-537 | Cancelling a module removes exactly its queued blocking requests and returns their number |
| `SerialScheduler.SchedulerImpl.SubmitAsyncLocked` | src/SerialScheduler.cpp:462-504 | The locked part of submitAsync is the model's, verdict and state |
| `SerialScheduler.SchedulerImpl.SubmitSyncLocked` | src/SerialScheduler.cpp:359-397 | The locked part of submit is the model's, verdict and state |
| `SerialScheduler.SchedulerImpl.CompleteAsyncLocked` | src/SerialScheduler.cpp:330-346 | Completion is idempotent and is the model's |
| `SerialScheduler.SchedulerImpl.ReleaseSyncLocked` | src/SerialScheduler.cpp:440-454 | The end of a blocking request is the model's, with the completion time read before the lock, including the selection it makes |
| `SerialScheduler.SchedulerImpl.PumpEnterLocked` | src/SerialScheduler.cpp:302-312 | Entering the pump: one runs, others leave a repump mark |
| `SerialScheduler.SchedulerImpl.PumpFinishLocked` | src/SerialScheduler.cpp:312-328 | Leaving the pump: go round again exactly when a repump mark was left |
| `SerialScheduler.SchedulerImpl.StopAsync` | src/SerialScheduler.cpp:511-514 | Stopping sets the stopped flag and nothing else |
| `SerialScheduler.EraseCancelled` | src/SerialScheduler.cpp:530-532 | Erasing the marked entries keeps exactly the others, in order |
| `SinkWindow.Window.constructor` | src/SinkWindow.cpp:16-27 | The image starts with the configured values, padded with zeros or cut to size |
| `SinkWindow.Window.StageRegisterLocked` | src/SinkWindow.cpp:55-70 | Staging merges a value under its mask at its address, and counts a generation only if the image changes; outside the window nothing happens |
| `SinkWindow.Window.DecideFlush` | src/SinkWindow.cpp:78-103 | A flush is due exactly when forced, dirty for the debounce time or past the keep-alive period; it takes image and generation |
| `SinkWindow.Window.MarkFlushedLocked` | src/SinkWindow.cpp:105-114 | An acknowledged write cleans the window only if the generation has not moved |
| `BridgeMirror.MirrorState.OnPollRangeCompleted` | src/Core.cpp:815-832 | A covering poll replaces the image and counts a version; others change nothing |
| `BridgeMirror.MirrorState.TryClaim` | src/Core.cpp:961-985 | The one write slot is claimed together with the image and version to write |
| `BridgeMirror.MirrorState.Release` | src/Core.cpp:990-1008 | A completion frees the slot and repeats exactly when a newer version is stored |
| `Persistence.BoundedQueue.PushTelemetry` | persistence/src/Persistence.cpp:193-199 | The object's push is the model's |
| `Persistence.BoundedQueue.PushOperation` | persistence/src/Persistence.cpp:200-206 | The object's push is the model's |
| `Persistence.BoundedQueue.PushSystem` | persistence/src/Persistence.cpp:207-213 | The object's push is the model's |
| `Persistence.BoundedQueue.Take` | persistence/src/Persistence.cpp:521-525 | The worker takes the three queues and the drop count in one step |
| `PersistenceSystem.BatchWriter.InsertAll` | persistence/src/Persistence.cpp:552-564 | An insert stores all rows of one batch or none |
| `PersistenceSystem.BatchWriter.FlushBatch` | persistence/src/Persistence.cpp:566-573 | All three inserts are tried; it succeeds if and only if nothing is left, and no row is lost, doubled or reordered |
| `Logger.Dispatch.EnqueueLocked` | src/Logger.cpp:97-120 | One pass of an enqueue: refused after stopping, queued with room, dropped or blocked by level without |
| `Logger.Dispatch.TakeLocked` | src/Logger.cpp:128-137 | The dispatch thread takes the whole queue and marks itself busy |
| `Logger.Dispatch.Deliver` | src/Logger.cpp:144-148 | The delivery loops write record by record, each to all sinks in order |
| `Logger.EraseSink` | src/Logger.cpp:247-252 | Removing a sink erases every occurrence and keeps the others |
| `EventBus.HandlerEntry.BeginInvokeLocked` | src/EventBus.cpp:27-33 | Entering counts the invocation in all and by thread, unless cancelled |
| `EventBus.HandlerEntry.EndInvokeLocked` | src/EventBus.cpp:35-43 | Leaving takes the invocation off both counts |
| `EventBus.HandlerEntry.CancelLocked` | src/EventBus.cpp:57-64 | Cancelling refuses new invocations and notes the caller's own |

## Left out

- Transport implementations (Modbus, OPC UA, MQTT, S7): a transport is a completion that
  may come at any time, with either outcome. The scheduler's completions may come more than
  once; the window's and the mirror's write callbacks come once, since these two do not
  guard against a second call.
- ValidateValues: leaves out the checks of transport settings other than ids and listen
  ranges, scheduler settings, codecs, ack watches, datapoint sources and kinds, scale and
  offset, mirror periods and plugins, which the properties do not need.
- CheckSink: leaves out the codec reference of the sink.
- Validate: checks the modelled sections only; routes, codec and datapoint ids and source
  coverage are left out, so it accepts every schema that the source accepts.
- Load: starts from a parsed schema; TOML parsing, unknown-key and wrong-type checks are
  left out except for the refusal of heartbeats without a payload.
- Floating-point codecs and scale/offset: IEEE doubles are not modelled; a float's bit
  pattern goes through the same `PackInt` and `UnpackInt`.
- Conversion of variants: a value is what the conversion yields, a number, a truth value
  or nothing; the text of an unknown enum value is not formatted.
- Lua codecs, plugins, QML, SQL and file sinks: foreign calls, UI and I/O.
- Latency statistics and `recordFailureForTesting` of the scheduler.
- The blocking submitter's own sleep for the gap (`src/SerialScheduler.cpp:410-426`): its
  wait is outside the lock, and the gap theorems are about event-driven selection.
- Pending entries of the scheduler are rows of a table, not shared heap objects; a row's
  stage stands for the entry's state and its completed flag together.
- The delay hook is installed before the first submission, async work is non-empty, and
  neither the hook nor a transport call throws; a work that throws is a failed completion.
- Wrap-around of the 64-bit generation, version and statistics counters.
- The blocking flush path of the sink window (`src/SinkWindow.cpp:116-155`) and the
  periodic mirror policy: only the event-driven paths are modelled.
- Atomicity of the forward-enable gate against concurrent server writes.
- Restarting persistence after a stop, and inserts that store part of a batch: an insert
  stores all rows of its list or none.
- Log filters and thresholds: a record is one that the gate has passed; records logged by
  a sink on the dispatch thread are dropped by the code and not offered in the model.
- Deadlock of two threads that cancel one subscription from inside its handler.
- ForwardIdsDiffer: leaves out server ids that themselves contain a place marker such as
  `%1`, which the formatting would substitute as well.
- Heartbeats, commands, ack watches, registries and status events beyond the requests that
  they issue.
