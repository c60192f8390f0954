# Verified models of the house-bus node firmware

This project models the stateful algorithms of the HouseBusNode firmware and proves what
they guarantee over whole runs. `dafny verify dfyconfig.toml` checks everything.

Code that updates statics in place is modelled as a class whose methods follow the C
statements; each method is proved against a step function or step relation on values, and
the theorems about runs are proved about that step.

| file | what it models |
|---|---|
| `Bytes.dfy`, `Clock.dfy` | bytes, words and byte strings; the 32-bit system time at 10000 ticks a second |
| `Flash.dfy` | the on-chip flash and its driver, `sw/drivers/flash.c` |
| `Firmware.dfy` | the update protocol: file server, request on the bus, updater, flash |
| `FirmwareThreads.dfy` | the same protocol with the node thread preempted between any two statements |
| `FirmwareUpdater.dfy` | the updater in place: `firmware_update.c` and the thread branch that calls it |
| `Eeprom.dfy`, `Config.dfy`, `ConfigInit.dfy` | the paged EEPROM, its driver, the parameter store on it and its start-up |
| `ParamServer.dfy` | the `param.GetSet` service of UAVCAN v0 (section 7, `uavcan.protocol.param.GetSet`) |
| `EventCount.dfy`, `PumpReceiver.dfy`, `Heater.dfy`, `Bathroom.dfy` | the timed controllers |
| `PumpWrap.dfy` | runs in which the wrap of the 32-bit counter breaks the pump's limits |
| `SmlParser.dfy` | the meter reader, a byte-at-a-time parser of SML (BSI TR-03109-1 annex IV, section 6) |
| `AnalogFilter.dfy` | the two integer low passes behind the analog inputs |

## Main results

* **Firmware update.** If a run ends in success, flash holds the file byte for byte, no page
  outside the image changed (even on a flash whose erase and program leave anything in their
  page), and the file was read by exactly floor(len/256)+1 requests at 0, 256, 512, ... The
  same holds, with the same list of requests, when callbacks preempt the node thread between any
  two statements: every preempted run refines an atomic one. An update takes at most
  4*(floor(len/256)+1)+1 effective steps, one is always possible, and on a flash that is not worn
  it ends in success.
* **Parameter store.** On a device that wraps inside its 32-byte pages, a successful write is a
  flat splice, a failed one is prefix, one mixed chunk, suffix; the store refines a map from
  parameter to bytes through any sequence of failing and succeeding sets; a start-up cut at any
  byte any number of times is completed by the next one.
* **Controllers.** Pump, burner, event counter and bathroom node keep their time limits in real
  time although they compute with a 32-bit counter, with one exception: the pump compares `a + T`
  with `now`, which errs across the wrap. For each of its four limits (3 s, 180 s, 600 s, 20 s) it
  is proved of every run and tick that the limit holds if and only if the one deadline concerned does
  not straddle the wrap in a stated way; which branch conditions must hold as well for a tick to break
  it; and that a run with a tick every second does break it, the pump running for up to 119 hours
  instead of 180 s. That the pump never runs on an empty source holds without any condition.
  When each of them switches is characterised exactly on the events of a run: every transition of the
  pump, the error state included; when burner and circulation go on and off; every mode of the occupancy
  indicator, with the button presses that wait; and which stretches of the input the event counter counts.
* **SML.** Any stream of entries and noise is broadcast as exactly its integer entries in order,
  however it is split over the ticks, each value as the 64-bit two's complement form of its number.
  Which bytes hide the entry behind them is characterised exactly.
* **Filters.** No overflow in any reachable state, outputs stay between the extremes of their
  inputs, and under a constant input `b` the first stage rests, after 193 conversions at most, at
  a value in 16b-105..16b+120 that is given exactly; the second stage settles likewise.

## Assumptions

* A file server answers a read of offset `o` with the bytes `o` to `min(o+256, len)` of the file;
  the error field of the answer is arbitrary, since the code never looks at it.
* The application area starts on a page boundary and the image fits behind it. The erase scan
  counts words where it means bytes, so it may read four pages; `Flash.ErasePage` requires that it does
  not leave the flash, which is the case exactly if four pages fit or a word that is not erased stops it.
* A half-word of flash can be programmed only when it is erased; erase and program of a device
  marked `worn` leave anything in the page.
* An EEPROM transfer that is not acknowledged may have stored any subset of its bytes; a failed
  read may leave anything in the caller's memory.
* Slot sizes are below 255 and the slots fit the device, as the parameter table's do.
* Converted samples have 12 bits. Sensor evaluations that use floating point (temperatures, humidity
  trigger, flow deviation, fill level) are arbitrary inputs of the controllers.

## Where code and documentation differ

* `sw/drivers/analog.c:60` says the filter weighs the old value by 1/16 and the new one by 15/16; the code
  does the opposite, and the model follows the code.
* `sw/drivers/flash.c:45` and `:65` ask for an even length; the callers pass odd ones, and the proofs cover them.
* `sw/nodes/sml.c:62` speaks of two OBIS codes; the code broadcasts every entry whose value is an integer.
* `sw/nodes/bathroom.c:146` keeps a "last" button level that is never written, so only the low level is
  debounced; the model has just the counter.

## Model

| member | source | states |
|---|---|---|
| FlashMemory.ScanInBoundsIff | sw/drivers/flash.c:18-26 | the erase scan stays in the flash if and only if four pages fit or a word that is not erased stops it |
| FlashMemory.Flash.ErasePage | sw/drivers/flash.c:16-40 | wherever the scan stays in the flash and whichever exit is taken, the addressed page is 0xFF and no other page changed; a worn device changes its own page at most |
| FlashMemory.Flash.VerifyBlock | sw/drivers/flash.c:47-61 | true exactly if all ceil(len/2) half-words equal the buffer |
| FlashMemory.Flash.WriteBlock | sw/drivers/flash.c:67-86 | each erased half-word takes the buffer's, every other cell keeps its value, other pages are never touched |
| FlashMemory.ErasedThenProgrammedMatches | sw/bootloader/firmware_update.c:97-101 | after erase and write the verify succeeds, odd lengths included, and the rest of the page is 0xFF |
| FlashMemory.UpdatedMatches | sw/bootloader/firmware_update.c:94-101 | on a flash that is not worn every page update ends with a matching page |
| FlashMemory.ProgrammedMatchesIff | sw/drivers/flash.c:67-86 | without an erase the write succeeds if and only if each half-word was blank or already right |
| Firmware.RoomForChunk | sw/bootloader/firmware_update.c:44-48 | while an answer is awaited the buffer has room for the largest chunk |
| Firmware.Receive | sw/bootloader/firmware_update.c:29-54 | whatever the payload, the buffer pointer stays in bounds and in multiples of 256 until end of file |
| Firmware.BeginActivates | sw/bootloader/node.c:191-200 | an accepted request starts an update from a reset updater |
| Firmware.ChunkExtendsBuffer | sw/bootloader/firmware_update.c:43-53 | a chunk extends the buffered part of the file, a short one marks its end |
| Firmware.ReplyKeepsActive | sw/bootloader/firmware_update.c:29-54 | an answer keeps the protocol invariant |
| Firmware.RequestKeepsActive | sw/bootloader/firmware_update.c:121-129 | a request keeps it: one outstanding request, at the next multiple of 256 |
| Firmware.WriteKeepsActive | sw/bootloader/firmware_update.c:89-120 | a page write keeps it, or ends the update with the whole file in flash or with a reset updater |
| Firmware.Origin | sw/bootloader/node.c:187-200 | at every point of every run the updater is reset, or works on the job of the last accepted request |
| Firmware.SuccessMeansFileInFlash | sw/bootloader/firmware_update.c:84-133 | success implies flash equals file, other pages untouched, reads exactly at 0, 256, ..., 256*floor(len/256) |
| Firmware.PagesOutsideImageUntouched | sw/bootloader/firmware_update.c:89-120 | failed or not, an update changes no byte outside the image's pages |
| Firmware.EveryEffectiveStepCounts | sw/bootloader/firmware_update.c:84-133 | each answer and each pass that is not waiting lowers an explicit measure, every other step keeps it |
| Firmware.SomethingIsEnabled | sw/bootloader/firmware_update.c:84-133 | in every state of an update an effective step is possible |
| Firmware.UpdateTerminates | sw/bootloader/firmware_update.c:84-133 | at most 4*(floor(len/256)+1)+1 effective steps, for lengths that are multiples of 256 or 2048 too |
| Firmware.GoesOnOrSucceeds | sw/bootloader/node.c:380-395 | on a flash that is not worn an update ends in no other way than by success |
| Firmware.UpdateSucceeds | sw/bootloader/firmware_update.c:84-133 | on such a flash every update that gets its answers and passes ends in success with the file in flash |
| FirmwareThreads.CallbacksInsideAPassDoNothing | sw/bootloader/firmware_update.c:33-37 | a callback between two statements of a working pass changes nothing |
| FirmwareThreads.FineStepRefines | sw/bootloader/node.c:378-409 | each statement, and each callback between statements, is one atomic step or none |
| FirmwareThreads.FineRunRefines | sw/bootloader/node.c:378-409 | every preempted run is a run of the atomic protocol |
| FirmwareThreads.PreemptedSuccessMeansFileInFlash | sw/bootloader/node.c:390-394 | the update theorem under preemption, with the exact list of reads; server and path cannot change while the update flag is set |
| FirmwareThreads.PreemptedUpdateTerminates | sw/bootloader/node.c:378-409 | preempted in any way, an update takes at most 4*(floor(len/256)+1) answers and working passes |
| FirmwareUpdater.FileUpdater.OnFileRead | sw/bootloader/firmware_update.c:29-54 | the callback does the protocol's receive step on the real buffer |
| FirmwareUpdater.FileUpdater.RequestFileRead | sw/bootloader/firmware_update.c:56-74 | one request for the offset, to the stored server and path, is queued |
| FirmwareUpdater.FileUpdater.InitGlobals | sw/bootloader/firmware_update.c:76-82 | pointers and end-of-file mark are reset, the pending mark and the buffer are kept |
| FirmwareUpdater.FileUpdater.WritePage | sw/bootloader/firmware_update.c:91-111 | true exactly if the page matches in the end; a matching page is not touched, no other page changes, and without wear it always matches |
| FirmwareUpdater.FileUpdater.ProcessFirmwareUpdate | sw/bootloader/firmware_update.c:84-133 | one process step of the protocol; a flash that is not worn never makes it fail |
| FirmwareUpdater.FileUpdater.UpdateBranch | sw/bootloader/node.c:380-395 | one pass of the node thread is a protocol step, with the flag and the server id cleared at the end |
| FirmwareUpdater.FileUpdater.OnBeginFirmwareUpdate | sw/bootloader/node.c:177-206 | for payloads of any length: a busy node answers 2, a restarting one 1, neither changes the job; otherwise server and path are taken, unless the eight-bit path length is above 200, exactly when the copy would leave its array; a payload of a node id and a path of up to 200 bytes makes these the server and the path |
| Eeprom.BurstInsidePageIsFlat | sw/drivers/eeprom24c.c:122-125 | a burst inside a page of the wrapping device is a flat write |
| Eeprom.BurstAcrossPageWraps | sw/drivers/eeprom24c.c:122-125 | one that crosses a page end overwrites the page's beginning |
| Eeprom.FirstChunk | sw/drivers/eeprom24c.c:123-125 | the 16- and 8-bit computation gives the space left in the page, on the last page too |
| Eeprom.NextChunk | sw/drivers/eeprom24c.c:154-158 | after a chunk the next one begins on a page and stays in it |
| Eeprom.RetryStaysMixed | sw/drivers/eeprom24c.c:134-149 | a failed retry leaves the chunk a mixture of old and new bytes |
| Eeprom.AcknowledgedAdvances | sw/drivers/eeprom24c.c:144-148 | an acknowledged transfer makes the chunk new, whatever earlier tries left |
| Eeprom.NextTransfer | sw/drivers/eeprom24c.c:128-159 | chunk by chunk the transfers become those of the whole write |
| Eeprom.TwoWritesStayInRange | sw/config.c:169-170 | two adjacent writes, however they end, change nothing outside their range |
| Eeprom.Driver.Read | sw/drivers/eeprom24c.c:60-86 | 0 only with the bytes read, -1 beyond the device or after two failures |
| Eeprom.Driver.WriteAckPoll | sw/drivers/eeprom24c.c:89-105 | a device that answers is found ready |
| Eeprom.Driver.WriteChunk | sw/drivers/eeprom24c.c:130-153 | success advances the written prefix, failure leaves one mixed chunk in one page |
| Eeprom.Driver.WriteChunks | sw/drivers/eeprom24c.c:128-161 | the loop: success is a flat splice, failure leaves new prefix, one mixed chunk, old suffix |
| Eeprom.Driver.Write | sw/drivers/eeprom24c.c:110-162 | the same for every address and length, -1 beyond the device; no transfer crosses a page, and without faults the transfers are exactly the write cut at page ends |
| Config.OffsetGrows | sw/config.c:39-46 | slots do not overlap |
| Config.ValueOfBytes | sw/config.c:95-107 | a value is as long as its length byte says, and the whole slot if that says more |
| Config.OtherParametersKeepTheirValue | sw/config.c:156-178 | a change inside one slot leaves every other parameter's value |
| Config.StoredRefinesMapUpdate | sw/config.c:163-170 | a stored value is a map update from parameter to bytes |
| Config.LastSetWins | sw/config.c:85-178 | through any sequence of sets, a parameter reads as its own last set left it, or as at first |
| Config.Store.GetParamOffset | sw/config.c:39-46 | the loop computes the prefix sum of the slot sizes |
| Config.Store.GetIdByName | sw/config.c:62-74 | the first parameter of exactly that name, or none if there is none |
| Config.Store.Get | sw/config.c:85-114 | on success the parameter's valid bytes and their number; unknown parameters are refused |
| Config.Store.GetUint | sw/config.c:119-127 | the value as little-endian number, 0 for parameters wider than four bytes |
| Config.Store.GetInt | sw/config.c:132-140 | the same in two's complement |
| Config.Store.WriteBehind | sw/config.c:170 | the data's write, also behind a last slot where the 16-bit address is 0 |
| Config.Store.WriteSlot | sw/config.c:169-170 | success writes length and data; failure changes nothing outside them |
| Config.Store.Set | sw/config.c:156-178 | success stores the first min(n, size) bytes; failure stays inside the slot; unknown parameters change nothing |
| ConfigInit.MagicIsFourBytes | sw/config.c:194-198 | the magic number is recognised exactly from its four bytes with a length of four or more |
| ConfigInit.InitStateIsWriteByWrite | sw/config.c:214-226 | the model's initialisation is the sequence of the code's device writes |
| ConfigInit.CutRunKeepsTrust | sw/config.c:210-226 | a cut at any byte of any write never leaves a valid magic number without the defaults |
| ConfigInit.InitCompletes | sw/config.c:185-229 | a complete start-up leaves magic number, default id and name, and the version if it wrote any |
| ConfigInit.InterruptedInitRecovers | sw/config.c:185-229 | after any number of cut start-ups the next complete one does so; only the version can be missing |
| ConfigInit.InitTwiceIsInitOnce | sw/config.c:198-208 | a second start-up changes nothing |
| ConfigInit.DefaultNumbers | sw/config.c:223-226 | the defaults are node 127 and version 1 |
| ConfigInit.SetIsTwoDefaultWrites | sw/config.c:223-226 | setting a default is its length write and its data write of the sequence |
| ConfigInit.SetSendsTwoDefaultWrites | sw/config.c:223-226 | and its transfers are those of the two writes |
| ConfigInit.FourStored | sw/config.c:223-226 | the four sets in order give the state behind the last write of the sequence |
| ConfigInit.FourSent | sw/config.c:223-226 | and their transfers complete those of the sequence |
| ConfigInit.SetDefault | sw/config.c:223-226 | one default with its transfers; a failing bus touches only the first 96 bytes |
| ConfigInit.SetDefaults | sw/config.c:223-226 | id, name, magic number and version, in this order; a failing bus touches only the first 96 bytes |
| ConfigInit.PageClearedInPart | sw/config.c:214-219 | a failing clearing write leaves each byte as before or zero |
| ConfigInit.ClearAll | sw/config.c:214-219 | all 16384 bytes are zero, by one transfer a page; on a failing bus each is as before or zero |
| ConfigInit.Init | sw/config.c:185-229 | the state of a complete start-up, its status, and its transfers, which are those of the writes in order; on any bus, a valid magic number that was read makes it write nothing, and nothing from byte 16384 on is touched |
| ParamServer.Server.PayloadExtractArray | sw/node.c:105-113 | the bytes of the payload range |
| ParamServer.Server.OnParamGetSet | sw/node.c:201-325 | for every payload: malformed requests get no answer; index or name finds the parameter; set, then answer with the stored value; absent parameters get four empty values; and exactly which requests copy a name or string beyond its array |
| ParamServer.Server.FindByName | sw/node.c:249-262 | the first parameter of that name, or none |
| ParamServer.WellTypedStaysInside | sw/node.c:245-287 | strings up to 128 and names up to 92 bytes, the data type's limits, are copied in bounds and in full |
| ParamServer.Server.SetValue | sw/node.c:267-287 | the union's bytes are stored, nothing for empty and boolean ones, and only inside the slot |
| ParamServer.Server.ReadBack | sw/node.c:291-314 | the answer carries type, stored value and name |
| ParamServer.LowWordOfInt64 | sw/node.c:273-275 | the first four bytes of an int64 are its value modulo 2^32 |
| ParamServer.SetIntRoundTrip | sw/node.c:201-325 | int64 v to a four-byte parameter: the answer has v mod 2^32, readers get v in int32 range, all others keep their value |
| ParamServer.StringAnswer | sw/node.c:293-297 | the bytes of a string answer |
| ParamServer.IntAnswerBytes | sw/node.c:298-302 | the bytes of an integer answer |
| ParamServer.FloatAnswer | sw/node.c:303-307 | the bytes of a float answer |
| ParamServer.SetString | sw/node.c:276-282 | setting a string, by index or name: the first min(n, size) bytes are stored, all else keeps its value, and the answer byte for byte |
| ParamServer.SetInteger | sw/node.c:270-275 | the same for an int64 |
| ParamServer.SetFloat | sw/node.c:282-287 | the same for a float |
| ParamServer.Ask | sw/node.c:290-314 | an empty or boolean value changes nothing and is answered with the value, byte for byte |
| Clock.ElapsedNeverExceedsReal | sw/eventcount.c:58 | modular elapsed time is at most real elapsed time, and equal below one turn |
| Clock.ComparisonErrsIff | sw/pump_receiver.c:50 | exactly when comparing a 32-bit deadline with the clock errs, in either direction |
| EventCount.EventCounter.Acquire | sw/eventcount.c:52-72 | every configured port makes its debounce step, the others keep their state |
| EventCount.CountIsRisingEdges | sw/eventcount.c:61-65 | the count is the number of rising edges of the debounced state modulo 2^32 |
| EventCount.ZeroStableTimeDoesNotDebounce | sw/eventcount.c:58 | without a stable time the raw edges count |
| EventCount.ChangeIsBacked | sw/eventcount.c:58-70 | the debounced state changes only to a level held for more than the stable time |
| EventCount.CountIsBacked | sw/eventcount.c:58-70 | each count is backed by more than the stable time at the high level |
| EventCount.CountsAreFarApart | sw/eventcount.c:52-72 | successive counts are more than twice the stable time apart in real time, across clock wrap |
| EventCount.StretchIsFollowedIff | sw/eventcount.c:58-70 | at the end of a stretch of one level the debounced state is that level if and only if it was before or the counter has shown more than the stable time since its beginning, and only then does a high stretch count |
| EventCount.SeenStableInRealTime | sw/eventcount.c:58 | below one turn of the counter that is real time |
| EventCount.LongHighStretchCountsOnce | sw/eventcount.c:58-65 | a high stretch after a debounced low is counted, once, if and only if it lasts longer than the stable time |
| PumpReceiver.PumpController.SetOutputs | sw/pump_receiver.c:58-88 | the outputs, with start times taken at switching on only |
| PumpReceiver.PumpController.Sense | sw/pump_receiver.c:120-145 | both filters and the hysteresis, in eight bits |
| PumpReceiver.PumpController.Decide | sw/pump_receiver.c:147-206 | the next state after transitions and overrides, and the time of an empty stop |
| PumpReceiver.PumpController.Enter | sw/pump_receiver.c:208-243 | the outputs of the state entered |
| PumpReceiver.PumpController.Tick | sw/pump_receiver.c:111-252 | a whole tick is the controller step |
| PumpReceiver.PumpController.OnConductionSensorData | sw/pump_receiver.c:254-271 | a report of the target node, and only that, is taken over with its time |
| PumpReceiver.TickHasEffect | sw/pump_receiver.c:147-243 | what any tick guarantees about outputs and timers, in terms of the code's own comparisons |
| PumpReceiver.StaleOutputIff | sw/pump_receiver.c:204-206 | a tick leaves an output on with a report 3 s old or older if and only if its expiry looks ahead and the stated branch conditions hold |
| PumpReceiver.PumpOverrunIff | sw/pump_receiver.c:162-174 | the same for the pump past its 180 s |
| PumpReceiver.RefillOverrunIff | sw/pump_receiver.c:176-195 | the same for the valve past its 600 s |
| PumpReceiver.CooldownBreachIff | sw/pump_receiver.c:151-160 | the same for a pump start within the 20 s |
| PumpReceiver.PumpRunsAreShort | sw/pump_receiver.c:171-173 | in every run, after a tick in state PUMP the pump started at most 180 s ago if and only if that deadline does not look ahead behind the wrap |
| PumpReceiver.RefillRunsAreShort | sw/pump_receiver.c:178-190 | in every run an open valve was opened at most 600 s ago, under the same exact condition on that deadline |
| PumpReceiver.PumpRunsWithinRefill | sw/pump_receiver.c:186-195 | while refilling the pump runs no longer than the valve is open |
| PumpReceiver.OutputsNeedFreshGoodData | sw/pump_receiver.c:204-206 | in every run an output is on only after a last report without error and not full, under 3 s old if and only if its expiry does not look ahead behind the wrap |
| PumpReceiver.PumpNeverRunsDry | sw/pump_receiver.c:164-191 | in every run, after a tick the pump is off if the source is empty |
| PumpReceiver.CooldownAfterEmptySource | sw/pump_receiver.c:53-56 | in every run a pump start comes 20 s or more after the last stop for an empty source if and only if that deadline, behind the wrap, does not look over |
| PumpReceiver.LimitsHoldBeforeWrap | sw/pump_receiver.c:111-252 | until 20 s before the counter's first wrap all four limits hold |
| PumpReceiver.FitIff | sw/pump_receiver.c:204-206 | the overrides do not apply exactly if the last accepted report is good and its 3 s look as if they were not over |
| PumpReceiver.FitInRealTime | sw/pump_receiver.c:48-51 | before the counter's first wrap that is a report under 3 s old |
| PumpReceiver.EveryTickIsTransition | sw/pump_receiver.c:147-243 | in every run and from every state, exactly when a tick enters each state, in terms of reports, source and timers, and the outputs of the state |
| PumpReceiver.ErrorIsLeftIff | sw/pump_receiver.c:197-206 | a tick leaves the error state if and only if no good report is current, and then for WAIT; both outputs are off |
| PumpReceiver.ErrorUntilUnfit | sw/pump_receiver.c:197-206 | between an overrun and the next start lies a tick without a current good report, and all is off until then |
| PumpReceiver.SourceIsEmptyIff | sw/pump_receiver.c:140-145 | the source counts as empty exactly from a filtered level below 205 until one above 210 |
| PumpReceiver.FiltersFollow | sw/pump_receiver.c:122-134 | level and variances make up a quarter, the long variance a sixteenth, of their distance, without overshoot |
| PumpWrap.WrapLetsPumpRunOn | sw/pump_receiver.c:171-173 | a run with a tick every second and fresh reports in which the pump runs 119 hours |
| PumpWrap.WrapLetsValveStayOpen | sw/pump_receiver.c:178-190 | the same for the refill valve |
| PumpWrap.WrapMakesStaleReportLookFresh | sw/pump_receiver.c:48-51 | a run with a tick every second in which the pump runs 119 hours on one report |
| PumpWrap.WrapSkipsCooldown | sw/pump_receiver.c:53-56 | a run with a tick every second in which the pump starts one second after a stop for an empty source |
| Heater.HeaterController.Regulate | sw/nodes/viessmann_trimatik.c:534-604 | burner and circulation wish and deviation integral in each mode |
| Heater.HeaterController.AppTick | sw/nodes/viessmann_trimatik.c:502-633 | a whole tick is the controller step, with 16- and 32-bit truncation |
| Heater.BurnerStaysOffLongEnough | sw/nodes/viessmann_trimatik.c:605-632 | in every mode and run, from stop to next start at least the minimum off time in real seconds, rounded up |
| Heater.DeviationIsBounded | sw/nodes/viessmann_trimatik.c:545-551 | the integral stays within eight times the hysteresis |
| Heater.DeviationFallsSlowly | sw/nodes/viessmann_trimatik.c:545-599 | how far the integral can have fallen after a number of ticks, resets included |
| Heater.StartsAfterDeviationStopAreFarApart | sw/nodes/viessmann_trimatik.c:545-599 | after a stop for the deviation more than h/D ticks pass before the next start |
| Heater.ExtensionFits | sw/nodes/viessmann_trimatik.c:616-619 | the extension is what is missing to the target at the start, twice the hysteresis at most, and its 16-bit form otherwise |
| Heater.BurnerStopsIff | sw/nodes/viessmann_trimatik.c:575-592 | in every run, while heating, a burning burner goes off if and only if it or the flow is too hot, for hysteresis and this burn's extension, or the integral is above its threshold, or the temperature-rise rule holds |
| Heater.BurnerWithoutHeating | sw/nodes/viessmann_trimatik.c:534-604 | otherwise it goes on burning only by the first bit of the slope switch in Debug |
| Heater.BurnerStartsIff | sw/nodes/viessmann_trimatik.c:563-574 | a burner starts if and only if the off time since its last stop is over and the mode's condition holds |
| Heater.CirculatesIff | sw/nodes/viessmann_trimatik.c:553-559 | exactly when the circulation pump runs, in every mode |
| Heater.IntegralIs | sw/nodes/viessmann_trimatik.c:545-551 | what a tick makes of the integral in every mode |
| Heater.SecondsAreReal | sw/nodes/viessmann_trimatik.c:524-525 | running times are real seconds, rounded up, below one turn of the counter |
| Bathroom.FanControl.Tick | sw/nodes/bathroom.c:373-389 | a tick is the fan step, the output pin follows the state |
| Bathroom.FanRunsOut | sw/nodes/bathroom.c:373-389 | a running fan goes off exactly at an untriggered tick when more than the run-out time has passed since the first untriggered one, by the counter; so only after that real time, and below one turn of the counter exactly then |
| Bathroom.TriggeredJustBefore | sw/nodes/bathroom.c:373-382 | the fan counts as triggered exactly after a triggered tick |
| Bathroom.OccupancyIndicator.ReadButton | sw/nodes/bathroom.c:143-157 | a reading is the debounce step |
| Bathroom.OccupancyIndicator.ReadKey | sw/nodes/bathroom.c:208-214 | a press is reported once |
| Bathroom.OccupancyIndicator.Observe | sw/nodes/bathroom.c:248-267 | motion since the door closed, and the press still waiting |
| Bathroom.OccupancyIndicator.Decide | sw/nodes/bathroom.c:269-317 | the next mode and whether the press is used up |
| Bathroom.OccupancyIndicator.Tick | sw/nodes/bathroom.c:237-347 | a whole tick is the indicator step, with the two status bits |
| Bathroom.CountIsLengthOfLowRun | sw/nodes/bathroom.c:147-156 | the counter is the length of the current low run, up to eleven |
| Bathroom.PressIsEleventhLowSample | sw/nodes/bathroom.c:147-156 | a press fires exactly at the eleventh low sample of a run |
| Bathroom.CountIsOfSamples | sw/nodes/bathroom.c:143-157 | in every run the counter is that of the samples read |
| Bathroom.ButtonChangesNeedPresses | sw/nodes/bathroom.c:257-317 | entries to private mode plus button exits from it never exceed debounced presses |
| Bathroom.MotionIsRemembered | sw/nodes/bathroom.c:248-255 | in every run the motion flag is set exactly if, since the door was last open, a tick saw motion later than two minutes after the closing |
| Bathroom.PressFlagIff | sw/nodes/bathroom.c:147-151 | the flag is set exactly if the button was pressed since the last tick |
| Bathroom.PressFoundIff | sw/nodes/bathroom.c:257-267 | at a tick a press waits exactly if one was read then or earlier, none later, was never found older than 30 s, and only ticks in an empty room came between |
| Bathroom.SamplesKeepMode | sw/nodes/bathroom.c:143-157 | reading the button does not change the mode |
| Bathroom.EmptyIsLeftIff | sw/nodes/bathroom.c:271-277 | an empty room is left exactly at motion less than 2 s ago, for open use |
| Bathroom.OpenInUseBecomes | sw/nodes/bathroom.c:278-290 | from open use, exactly which events lead to each mode |
| Bathroom.InUseBecomes | sw/nodes/bathroom.c:291-303 | the same from use behind a closed door |
| Bathroom.PrivateBecomes | sw/nodes/bathroom.c:304-313 | private mode ends by a waiting press, without one exactly if there was no motion for 900 s or the door has been closed for 120 s with no motion since, and otherwise goes on |
| Bathroom.PersonInsideInRealTime | sw/nodes/bathroom.c:344-346 | when somebody is reported inside, in real time |
| Bathroom.EmptyRoomInRealTime | sw/nodes/bathroom.c:242-246 | those times have then passed in real time |
| Bathroom.BrightnessSensor.Put | sw/nodes/bathroom.c:199-201 | the ring holds the last 128 readings and the 16-bit sum is their exact sum |
| Bathroom.BrightnessSensor.Read | sw/nodes/bathroom.c:181-206 | every ten seconds one reading, and brightness is the window average divided by 32, below 8 |
| Bathroom.SumOfRing | sw/nodes/bathroom.c:199-203 | the sum does not depend on where the ring starts |
| SmlParser.Reader.BroadcastMeter | sw/nodes/sml.c:44-58 | the twelve-byte message |
| SmlParser.Reader.StartValue | sw/nodes/sml.c:135-147 | type, sign and length of the value, the discard path as coded |
| SmlParser.Reader.Extend | sw/nodes/sml.c:162-170 | sign or zero extension above the bytes received |
| SmlParser.Reader.TakeValueByte | sw/nodes/sml.c:149-174 | a byte goes to its place, the last one sends |
| SmlParser.Reader.Skip | sw/nodes/sml.c:107-133 | an element is skipped by its length, the unit's last byte kept |
| SmlParser.Reader.Take | sw/nodes/sml.c:83-179 | one byte is one parser step, all indices in bounds |
| SmlParser.Reader.FastTick | sw/nodes/sml.c:64-181 | a tick feeds all bytes received to the parser |
| SmlParser.TicksDoNotMatter | sw/nodes/sml.c:81 | splitting the stream over ticks in any way gives the same state |
| SmlParser.FaultsOnlyAtShortValue | sw/nodes/sml.c:160-168 | the code leaves its buffer if and only if a value begins with a length nibble below two |
| SmlParser.PrefixFoundIffFresh | sw/nodes/sml.c:85-98 | the four start bytes are found if and only if nothing was half matched |
| SmlParser.FeedHead | sw/nodes/sml.c:85-133 | start bytes, OBIS code and four elements lead to the value with code and unit kept |
| SmlParser.FeedValue | sw/nodes/sml.c:134-175 | a value of one to eight bytes sends its number in 64-bit two's complement |
| SmlParser.FilledIsTwosComplement | sw/nodes/sml.c:157-170 | reversed bytes with the extension are the two's complement form |
| SmlParser.StreamIsBroadcast | sw/nodes/sml.c:64-181 | a stream of noise, integer entries and other entries sends exactly the integer entries in order |
| SmlParser.TicksBroadcastStream | sw/nodes/sml.c:64-181 | the same from the start, over any split into ticks |
| SmlParser.BroadcastDenotesNumber | sw/nodes/sml.c:162-171 | read as little-endian, the eight bytes are the number modulo 2^64 |
| SmlParser.RecordMessage | sw/nodes/sml.c:44-58 | a record's message by index: code bytes 0 to 2, the unit's last byte, the number |
| SmlParser.NumberOfBytes | sw/nodes/sml.c:149-162 | the number of a value, byte by byte from the most significant one |
| SmlParser.NoStartByteIsQuiet | sw/nodes/sml.c:86-92 | bytes without 0x77 are noise |
| SmlParser.QuietIff | sw/nodes/sml.c:86-98 | the bytes allowed as noise are exactly those that find no entry and leave nothing half matched |
| SmlParser.EntryFoundIffQuiet | sw/nodes/sml.c:86-98 | an entry behind bytes that hold none is found if and only if they are such noise |
| SmlParser.EntryAfterDiscardFoundIff | sw/nodes/sml.c:139-159 | the same behind a discarded value, counting a 0x77 before the bytes |
| SmlParser.RepeatedStartByteHidesEntry | sw/nodes/sml.c:86-92 | a second 0x77 before an entry hides it |
| SmlParser.DiscardHidesNextEntry | sw/nodes/sml.c:143-159 | right behind a discarded value's first byte an entry is missed, and one without its 0x77 accepted |
| AnalogFilter.AnalogInputs.ResetOne | sw/drivers/analog.c:41-44 | the channel restarts at sixteen times its sample |
| AnalogFilter.AnalogInputs.ResetFilter | sw/drivers/analog.c:46-57 | exactly the external channels in the mask restart |
| AnalogFilter.AnalogInputs.FilterCallback | sw/drivers/analog.c:61-78 | the first callback restarts all channels, later ones smooth all |
| AnalogFilter.RunStaysBetween | sw/drivers/analog.c:41-78 | in every run a filtered value stays between the extremes of its samples, scaled by 16 |
| AnalogFilter.FilteredNeverExceedsTop | sw/drivers/analog.c:16 | from the start, 65520 is never exceeded and 16 bits never overflow |
| AnalogFilter.StepGains | sw/drivers/analog.c:74-75 | a constant input fixes the place of rest, and each step comes nearer by a sixteenth, rounded up |
| AnalogFilter.HalvesInNSteps | sw/drivers/analog.c:74-75 | n steps at least halve the distance |
| AnalogFilter.Settles | sw/drivers/analog.c:74-75 | after n steps per bit of distance the state is its resting value, for good |
| AnalogFilter.SteadyChannelSettles | sw/drivers/analog.c:61-78 | a channel reading b rests within 193 conversions, at an exact value in 16b-105..16b+120 |
| AnalogFilter.BitIsBinaryDigit | sw/drivers/analog.c:51 | a channel is in the mask if its binary digit is one |
| AnalogFilter.ResetRestartsMasked | sw/drivers/analog.c:46-57 | a reset sets exactly the external channels of the mask to sixteen times their sample |
| AnalogFilter.FirstCallbackRestartsAll | sw/drivers/analog.c:63-69 | the first callback after power-up starts every channel so |
| AnalogFilter.SlowFilter.FilterTick | sw/nodes/viessmann_trimatik.c:350-362 | the three 32-bit filters, started by the first nonzero outside reading |
| AnalogFilter.SlowFiltersDoNotOverflow | sw/nodes/viessmann_trimatik.c:352-361 | with first-stage inputs no sum or product wraps |
| AnalogFilter.SlowRunStaysBetween | sw/nodes/viessmann_trimatik.c:348-362 | from the first tick on each reading stays between the extremes of its inputs |
| AnalogFilter.ReadingFits | sw/nodes/viessmann_trimatik.c:366-370 | the upper half fits 16 bits and lies between the same extremes |
| AnalogFilter.OutsideSettles | sw/nodes/viessmann_trimatik.c:358 | the outside filter rests after 11777 equal inputs, at an exact value within two units below and one above them |
| AnalogFilter.BoilerSettles | sw/nodes/viessmann_trimatik.c:360-361 | the other two after 233, at an exact value, at their input or one unit below |
| AnalogFilter.SlowRunSettles | sw/nodes/viessmann_trimatik.c:348-362 | in every run, behind that many equal inputs the readings show them, whatever came before |
| AnalogFilter.ZeroRestartsAll | sw/nodes/viessmann_trimatik.c:350-354 | while the outside filter is zero every tick restarts all three |

## Left out

- libcanard, ChibiOS, HAL and register work: decoding of scalars (requests arrive decoded, and an empty payload's first byte is arbitrary), I2C and CAN transfers,
  GPIO, thread creation, the wait times of the drivers, and releasing of payload buffers.
- Log and debug output, broadcasts of status messages, the 1 Hz tasks and restart of the bootloader.
- Lost answers and retries of the update: the code has no timeout, so termination is stated in effective steps.
- Responses of acceptable size that do not answer the pending request: they would be taken for the answer.
- The statement order of the failure path (`sw/bootloader/node.c:388-389`): one atomic step in `FirmwareThreads`.
- The transmit queue is emptied frame by frame; the model sends the request when its last frame leaves.
- `eeprom_init`'s search over bus addresses: its outcome is the parameter `found` of `ConfigInit.Init`.
- `config_get` with a null destination, and `config_get_float`, which returns an uninitialised value for other widths.
- ConfigInit.Init: if a read fails, a valid magic number may not be seen and the store is cleared; the contract says what such
  a start-up cannot touch, not what it leaves; a power cut on a working bus is `InterruptedInitRecovers`.
- ParamServer.Server.OnParamGetSet: what happens after a copy beyond an array is undefined, so the model stops there; the
  answer shows a negative four-byte integer as v mod 2^32, as the code does. The same holds of the path in
  FirmwareUpdater.FileUpdater.OnBeginFirmwareUpdate.
- The pump reads the clock several times in a tick and a report may arrive in between; the model's tick is atomic
  with one reading. Pin and node configuration, and the presence test, are not modelled.
- Heater: `inTimeRange`, `getTargetTemperature`, `getTargetFlowTemperature`, `getWeightedFlowDeviation`, curve and
  pt500 functions are floating point or simple; key scanning and `read_config` only copy values.
- Bathroom: the brightness switch and door sensor debounce, LEDs and blinking, and the humidity and dew-point tests behind the
  fan's trigger.
- SmlParser.Reader.Take: what happens after an access outside the value buffer is undefined, so the model stops there;
  the source's three-byte code array, whose fourth cell is written, has four cells here. The reset message of the serial
  driver is not a byte of the stream. Nested lists in the time element are not part of the grammar.
- AnalogFilter.SlowRunSettles: for outside inputs above zero; at zero the filters restart, as `ZeroRestartsAll` says.
- AnalogFilter.SlowFilter.FilterTick: the first assignment multiplies a promoted 16-bit value as a signed int; the model
  takes the product modulo 2^32.
- The other applications and drivers (boiler, hallway light, melodies, dimmer, bme280, PID, dew point) and the generated
  `sw/dsdl` codecs.
