# ValgAce host module: a verified model

This project models `extras/ace.py`, the Klipper module that drives an Anycubic ACE filament
changer over a serial link. The model covers the `ValgAce` object's core:

- the wire frame and its 16-bit checksum;
- the byte-stream assembler that cuts the read buffer into frames;
- the request dispatcher (bounded queue, wrapping request ids, callback map, writer tick);
- the response handler and its telemetry merge;
- the parking supervisor that watches feed assist while a slot is parked to the toolhead;
- the tool-change command with its two polling waits;
- the infinity-spool order and selection commands.

Modules, one per component:

- `opt.dfy` (module `Opt`): `Option` and `Result`
- `frame.dfy` (module `Frame`): checksum, packet layout, classification of one cut candidate
- `assembler.dfy` (module `Assembler`): the `_process_messages` scan, as a function and as the in-place method on the read buffer
- `telemetry.dfy` (module `Telemetry`): `_info` as a map of JSON values, `dict.update`, the `dryer` alias, slot lookups with Python indexing
- `parking.dfy` (module `Parking`): the parking session fields and the supervisor's per-status-result step
- `dispatcher.dfy` (module `Dispatcher`): request ids, requests, responses, callbacks and their effects, queue shedding
- `ace.dfy` (module `Ace`): the `ValgAce` class: queue, callback map, id counter, telemetry and session updated in place
- `toolchange.dfy` (module `ToolChange`): `cmd_ACE_CHANGE_TOOL` over a sequence of observations
- `pytext.dfy` (module `PyText`): `split`, `join`, `strip`, `lower`, `int()` on ASCII text
- `infinity.dfy` (module `InfinitySpool`): order validation, serialisation, parsing, circular selection, completion monitor

Time is integer milliseconds supplied by the caller. The reactor clock, the timers and `dwell`
become parameters, flags or events. The serial port becomes a `sendOk` flag and the bytes handed
to `Receive`. G-code macros, saves and requests issued by the tool change become trace events.

## Model

| member | source | states |
|---|---|---|
| `Frame.CalcCrc` | extras/ace.py:303-314 | the loop computes the checksum fold started at 0xFFFF; the result is below 65536; the empty buffer gives 0xFFFF |
| `Frame.CrcFromAppend` | extras/ace.py:303-314 | the checksum of `a + b` is the loop over `b` continued from the state after `a` |
| `Frame.Le16` | extras/ace.py:342-349 | `struct.pack('<H', n)` gives two bytes that decode back to `n` |
| `Frame.BuildPacket` | extras/ace.py:342-349 | packet length is payload + 7; header FF AA, terminator FE; the length and checksum fields decode to the payload length and its checksum; the payload sits at bytes 4.. |
| `Frame.DeclaredLength` | extras/ace.py:386 | the announced payload length is below 65536 |
| `Frame.Classify` | extras/ace.py:384-400 | a candidate is complete exactly when it has at least 7 bytes, the FF AA header, its announced length and a matching checksum; it is dropped exactly when short or with a bad header; it is incomplete exactly when it has a good header but is shorter than its announced length plus 7 |
| `Frame.ClassifyBuildPacket` | extras/ace.py:384-400 | a packet built by `_send_request`, taken as one candidate, is complete and yields its payload |
| `Assembler.IndexOfSpec` | extras/ace.py:379 | `find` returns the first index of the byte, -1 exactly when it is absent |
| `Assembler.AssembleRestIsSuffix` | extras/ace.py:378-383 | what a call leaves in the buffer is a suffix of what it started with: only prefixes are consumed |
| `Assembler.AssembleConsumesTerminators` | extras/ace.py:378-383 | unless the scan stopped on a checksum mismatch, no terminator byte is left in the buffer |
| `Assembler.AssembleDeliverBound` | extras/ace.py:397 | every payload handed on is at least 7 bytes shorter than the buffer it came from |
| `Assembler.AssembleCut` | extras/ace.py:379-383 | a buffer starting with a candidate is processed as that candidate followed by the rest |
| `Assembler.IncompleteCounted` | extras/ace.py:384-395 | any run of dropped and incomplete candidates hands nothing on and adds the number of incomplete ones to the call-local counter, while it stays at most 10 |
| `Assembler.EleventhIncompleteResets` | extras/ace.py:384-395 | the eleventh incomplete candidate in one call, with any dropped candidates between, emits a connection reset and zeroes the counter |
| `Assembler.MismatchStops` | extras/ace.py:398-400 | a candidate with a checksum mismatch ends the call: it is consumed, nothing is handed on, and the bytes after it stay in the buffer |
| `Assembler.CompleteClearsCounter` | extras/ace.py:396-407 | a complete frame hands on its payload and the scan goes on with the counter at 0 |
| `Assembler.SinglePacketRoundTrip` | extras/ace.py:375-407 | one encoded packet alone hands on exactly its payload if and only if no 0xFE occurs in its length or checksum fields |
| `Assembler.MessageAssembler.constructor` | extras/ace.py:42 | the read buffer starts empty |
| `Assembler.MessageAssembler.ProcessMessages` | extras/ace.py:375-407 | the in-place loop leaves the buffer and emits the events that the `Assemble` specification gives |
| `Assembler.MessageAssembler.Receive` | extras/ace.py:362-373 | bytes read are appended and processed only when some arrived |
| `Telemetry.Update` | extras/ace.py:462 | keys of the result overwrite, all other keys keep their values, the key set is the union |
| `Telemetry.Normalise` | extras/ace.py:460-461 | every reported key other than `dryer` keeps its value; when `dryer_status` holds an object, the key set gains `dryer`, which holds that object; otherwise the result is the reported one |
| `Telemetry.MergeNormalised` | extras/ace.py:460-462 | after the merge `dryer` holds the reported `dryer_status` object and every other reported key its value |
| `Telemetry.MergeSubsumed` | extras/ace.py:427-429 | the raw merge by the status callback is overwritten entirely by the handler's later normalised merge |
| `Telemetry.UpdateIdempotent` | extras/ace.py:462 | merging the same result twice equals merging it once |
| `Telemetry.DefaultInfo` | extras/ace.py:116-140 | the default telemetry is disconnected, counts 0 and has four slots |
| `Telemetry.PyIndex` | extras/ace.py:893 | an index in `-len..len-1` gives the element at that index modulo the length, so negative indices count from the end; any other index fails |
| `Telemetry.SlotStatus` | extras/ace.py:893 | a slot status is found exactly when `slots` is a list, the index is in Python range (negative counts from the end) and the slot there is an object with a `status` key; the status is that slot's `status` value |
| `Telemetry.DefaultSlotsEmpty` | extras/ace.py:116-140 | before the device reports, every slot reads `empty`, never `ready` |
| `Parking.InitialSession` | extras/ace.py:81-88 | the session starts idle, without error, index -1 |
| `Parking.Start` | extras/ace.py:771-778 | starting a park sets in-progress, clears the error, hits and increase flag, records index and start time, keeps the baseline |
| `Parking.Finish` | extras/ace.py:507-529 | completion does nothing unless a park runs; otherwise it ends the run without error and index -1 |
| `Parking.Monitor` | extras/ace.py:463-505 | acts only while parking and ready; a changed count resets hits and becomes the baseline; an unchanged one adds a hit and then: more than 3 s without an increase fails the park and clears the slot index; otherwise reaching the hit threshold completes the slot after an increase and fails the park (index kept) without one; below the threshold the session goes on with one re-check dwell outstanding, scheduled only if none was |
| `Parking.StalledParkTimesOut` | extras/ace.py:483-489 | an unchanged ready result more than 3 s into a park whose count never rose ends it in error with index -1; later results change nothing |
| `Parking.RunIdle` | extras/ace.py:463 | without a running park, status results change nothing |
| `Parking.RunConsistent` | extras/ace.py:463-505 | the error flag never holds while a park runs, after any sequence of status results |
| `Parking.StagnantParkFails` | extras/ace.py:480-500 | a feed-assist count that never moves ends the park in error and never completes it |
| `Parking.ProgressingParkCompletes` | extras/ace.py:490-494 | after an increase, `park_hit_count` unchanged ready results complete the parked slot and end the session cleanly |
| `Dispatcher.NextId` | extras/ace.py:329-333 | the next id is in 0..299999 and is the old id plus one modulo 300000 |
| `Dispatcher.SuccessorModular` | extras/ace.py:329-333 | after k requests the counter is the start plus k modulo 300000 |
| `Dispatcher.IdsDistinctWithinCycle` | extras/ace.py:329-333 | ids drawn fewer than 300000 requests apart differ |
| `Dispatcher.CycleCloses` | extras/ace.py:329-333 | after exactly 300000 requests the counter is back at its start |
| `Dispatcher.ApplyCallback` | extras/ace.py:782-794 | a refused `start_feed_assist` ends the run unless logging its message raises first (a result that is neither text, list nor object, text containing `msg`, or a list holding `"msg"`), in which case the session is unchanged; an accepted one sets the baseline count from an object result or to 0 without a result, and changes nothing for other results; the status callback merges an object result and ignores any other; other (`Opaque`) callbacks change nothing; the error flag and index are never changed |
| `Dispatcher.MsgTextKeepsPark` | extras/ace.py:783-789 | a refused start whose result is the text `bad msg` leaves the park running; the text `busy` or an object result, with or without a `msg` key, ends it |
| `Dispatcher.RefusedStartIsNotAnError` | extras/ace.py:783-789 | a refused start clears in-progress but leaves the error flag false |
| `Dispatcher.ShedInvocations` | extras/ace.py:317-324 | every shed callback is called exactly once, in queue order, with the overflow error |
| `Dispatcher.ShedEffect` | extras/ace.py:317-324 | shedding leaves the telemetry and flags unchanged except the baseline count a shed park acknowledgement resets to 0 |
| `Ace.ValgAce.Enqueue` | extras/ace.py:316-327 | the new task is last; the queue is emptied first exactly when it was full; the capacity is never exceeded |
| `Ace.ValgAce.constructor` | extras/ace.py:26-115 | empty queue and callback map, id 0, default telemetry, idle session, feed-assist index -1 |
| `Ace.ValgAce.MarkConnected` | extras/ace.py:207-210 | a successful connect marks the link up and the device status `ready` |
| `Ace.ValgAce.MarkDisconnected` | extras/ace.py:232-235 | disconnecting marks the link down |
| `Ace.ValgAce.NextRequestId` | extras/ace.py:329-333 | the counter advances by `NextId` and the new value is returned |
| `Ace.ValgAce.InvokeCallback` | extras/ace.py:443-448 | running a callback applies its effect and logs the invocation |
| `Ace.ValgAce.ShedQueue` | extras/ace.py:317-324 | the queue ends empty; every waiting callback is called once, in queue order, with the overflow error; the telemetry is unchanged and the baseline count becomes 0 exactly when a park acknowledgement was waiting |
| `Ace.ValgAce.SendRequest` | extras/ace.py:316-327 | a full queue is shed with every callback called once, and nothing is called otherwise; the request gets a fresh id whatever id it carried and joins the queue |
| `Ace.ValgAce.RequestStatus` | extras/ace.py:426-438 | once the poll interval passed, a `get_status` request with the merging callback is queued, draws two ids and sheds a full queue; otherwise nothing changes |
| `Ace.ValgAce.DispatchOne` | extras/ace.py:416-423 | at most one task leaves the queue; its callback is registered under its id before sending; a failed send puts the same task back at the tail |
| `Ace.ValgAce.WriterTick` | extras/ace.py:409-424 | a disconnected tick does nothing; otherwise a due status poll is queued (shedding a full queue, whose callbacks are logged), then one task is dispatched; without a poll no callback runs and the session is unchanged |
| `Ace.ValgAce.DispatchCallback` | extras/ace.py:441-448 | the id's callback is removed from the map before it runs, so it runs at most once |
| `Ace.ValgAce.CompleteParking` | extras/ace.py:507-529 | a running park queues `stop_feed_assist` for its slot (shedding a full queue), ends without error and index -1, and clears the feed-assist index if configured; otherwise nothing changes |
| `Ace.ValgAce.SuperviseParking` | extras/ace.py:463-505 | the session takes the supervisor's step and nothing else changes; completion calls `_complete_parking`, with its id, queue, callback log and feed-assist effects; a scheduled re-check is recorded |
| `Ace.ValgAce.HandleResponse` | extras/ace.py:440-505 | the callback is popped and run, and is the only one logged unless supervision completes the park and sheds a full queue; an object result is merged with the `dryer` alias whether or not the id matched; a running park is supervised; without completion the id counter, queue and feed-assist index are unchanged |
| `Ace.ValgAce.ParkToToolhead` | extras/ace.py:771-795 | the session is started (in progress, no error, the slot, zero hits, the start time, no increase) before `start_feed_assist` is queued under the next request id with the acknowledgement callback; when the queue is full the shed callbacks are logged and a shed acknowledgement resets the baseline count to 0; the telemetry is unchanged |
| `Ace.ValgAce.ParkCommand` | extras/ace.py:797-805 | busy exactly when a park runs; a failed slot lookup raises; a slot not ready runs the empty-error macro; in those cases queue, request id, session and callback log are unchanged; otherwise parking starts exactly as `ParkToToolhead` states (started session after any shedding, next request id, shed callbacks logged, `start_feed_assist` queued) |
| `Ace.ValgAce.RecheckFired` | extras/ace.py:505 | the re-check dwell only clears `_dwell_scheduled` |
| `Ace.ValgAce.AbortParking` | extras/ace.py:1207-1212 | the infinity-spool timeout clears in-progress and sets the error |
| `ToolChange.Change` | extras/ace.py:885-996 | same tool: no-op; target not ready: only the empty-error macro; otherwise the pre-hook then the index save precede any retract or park; a ready-wait timeout or raising lookup stops after the unwind; an unload whose old slot reports ready is a change; a load that reaches the park is decided by the park wait: done gives the change with the post-hook last, timeout and failure end after the park; the post-hook runs exactly when the change is reported |
| `ToolChange.ChangeTool` | extras/ace.py:885-996 | the command with its two polling loops produces what `Change` specifies |
| `ToolChange.AwaitReady` | extras/ace.py:928-934 | the ready-wait loop ends as `ReadyWait` specifies and reports how many observations it consumed |
| `ToolChange.AwaitPark` | extras/ace.py:944-953 | the parking-wait loop, running while `_park_in_progress` holds, ends as `ParkWait` specifies for the code as written |
| `ToolChange.ReadyWaitSeesReady` | extras/ace.py:928-934 | the ready wait ends at the first ready observation; every earlier one was not ready and within 10 s |
| `ToolChange.ParkWaitEndsOnFlag` | extras/ace.py:945-953 | the parking wait ends as soon as `_park_in_progress` is false; before that the park was running without error |
| `ToolChange.ParkWaitNeverFails` | extras/ace.py:945-949 | with the supervisor's flag discipline the wait's error branch is never taken |
| `ToolChange.ParkingFailedUnreachable` | extras/ace.py:977-982 | so the tool change as written never reports a parking failure |
| `ToolChange.FailedParkStillChanges` | extras/ace.py:977-996 | a park the supervisor aborted is reported as a successful change and runs the post-hook |
| `ToolChange.IntendedReportsFailedPark` | extras/ace.py:977-982 | with the error flag checked after the wait, success is reported only for a park that ended without error |
| `PyText.Split` | extras/ace.py:1010 | splitting gives at least one piece and no piece holds the separator |
| `PyText.SplitJoin` | extras/ace.py:1034 | joining items free of the separator and splitting again gives the items back |
| `PyText.Lower` | extras/ace.py:1010 | capitals become lower case and all other characters are kept |
| `PyText.ParseInt` | extras/ace.py:1024 | `int()` accepts exactly an optional sign followed by digits; the value is the decimal value of the digits, negated after a minus sign |
| `PyText.SmallNumerals` | extras/ace.py:1024-1025 | the texts `int()` reads as 0 to 3 are exactly an optional sign, any leading zeros and one digit 0-3 (only 0 after a minus sign), and that digit is the value |
| `PyText.DigitStringRoundTrip` | extras/ace.py:1034 | `int(str(n))` is `n` for a digit, and its text survives strip and lower |
| `InfinitySpool.ValidateItems` | extras/ace.py:1017-1031 | an accepted list has one valid place per item and each item reads as its place |
| `InfinitySpool.ValidateItemsRejects` | extras/ace.py:1017-1031 | the items are accepted exactly when each reads as a place; a rejection names the first item that does not, at its 1-based position, as out of range when `int()` reads it and as invalid otherwise |
| `InfinitySpool.SetOrder` | extras/ace.py:998-1043 | an empty order or a count other than 4 is rejected; any rejection saves nothing; acceptance saves a valid order and resets the position to 0 |
| `InfinitySpool.SetOrderReads` | extras/ace.py:1008-1031 | four pieces are accepted exactly when each normalised piece reads as a place, each then as the place saved for it; otherwise the first piece that does not is reported at its position |
| `InfinitySpool.ParseItems` | extras/ace.py:1066-1072 | a parsed order has one place per comma-separated item |
| `InfinitySpool.SerialiseRoundTrip` | extras/ace.py:1034 | every order of valid places re-parses to itself |
| `InfinitySpool.SavedOrderReparses` | extras/ace.py:1066-1072 | what the set command saves, the spool command parses back to the accepted order |
| `InfinitySpool.ValidOrderAccepted` | extras/ace.py:1009-1036 | setting the saved text of a valid order again is accepted with the same order |
| `InfinitySpool.FindFrom` | extras/ace.py:1098-1101 | the search returns the first place holding the current tool, or -1 when none does |
| `InfinitySpool.StartIndex` | extras/ace.py:1079-1106 | the start is the saved position when it holds the current tool, else the first place holding it, else -1 |
| `InfinitySpool.Scan` | extras/ace.py:1113-1124 | a found slot is at its place and ready; a raised lookup names a slot of the order |
| `InfinitySpool.ScanStopsAtFirst` | extras/ace.py:1113-1124 | the scan picks the first probe from start+1 onwards that is not empty and not unready |
| `InfinitySpool.NoneReadyMeansNoneReady` | extras/ace.py:1113-1129 | no slot is found only when every place of the order is empty or not ready |
| `InfinitySpool.Select` | extras/ace.py:1045-1135 | disabled and no-tool cases come first; parking starts only on a ready slot of the saved order; the re-check of the chosen slot never aborts |
| `InfinitySpool.WatchSucceeds` | extras/ace.py:1193-1216 | success is resolved exactly at the first tick with the park ended without error, after ticks showing it running within 30 s |
| `InfinitySpool.SaveOnResolution` | extras/ace.py:1147-1169 | the current index and position are saved only on success, the order never |
| `InfinitySpool.RefusedStartSaves` | extras/ace.py:1199-1204 | a refused start, which ends the run without error, counts as success and saves the new tool |

## Findings

| source | as written | input that shows it | evidently intended | confidence | as-written member | corrected member |
|---|---|---|---|---|---|---|
| extras/ace.py:977-982 | the parking wait loops `while _park_in_progress` and tests `_park_error` only inside the loop; every supervisor path that sets the error clears in-progress at the same moment, so the loop exits and the post-toolchange macro runs | `was = -1`, target slot ready; the parking wait sees the park running, then, one second later, in-progress false and error true; the command reports "Tool changed" and runs `_ACE_POST_TOOLCHANGE` | a park that ended in error is reported as "Parking failed" without the post-hook | not executed | `ToolChange.FailedParkStillChanges` | `ToolChange.IntendedReportsFailedPark` |

The same loop shape is at extras/ace.py:945-949. `ToolChange.ParkingFailedUnreachable` shows that its error branch cannot be reached either. The corrected wait is `ParkWait` with `checkError` set. It still cannot tell a start the device refused from a success: that path clears in-progress without setting the error (`Dispatcher.RefusedStartIsNotAnError`).

## Left out

- Serial I/O and the connection lifecycle (`_find_ace_device`, `_connect` retries, `_disconnect`, `_reconnect`, `_reset_connection`): a failed write is the `sendOk` flag, a reset is the `Reset` event, and connecting is `MarkConnected`/`MarkDisconnected`. The `get_info` request inside `_connect`'s callback is not modelled.
- The Klipper reactor, timers and `dwell`. The 0.7 s re-check dwell is the `pendingRechecks` ghost counter and `RecheckFired`. The 0.3 s and 0.5 s dwells do nothing and are omitted. The writer tick's 50 ms cadence and the infinity monitor's 500 ms cadence are left to the caller.
- JSON encoding and decoding. Payloads are opaque bytes; responses are records of optional id, code and result. A payload that fails to decode is handed on by the assembler, and what `_handle_response` would do with it is not modelled.
- Floating-point parts: `get_status` normalisation, `_output_status`, `retract_time`, and the float comparisons against `reactor.monotonic()`. Time is integer milliseconds.
- `Frame.CrcStep`: its equivalence with a bitwise CRC-16 reference and the standard check value are not stated; the step is the source's arithmetic, copied literally.
- `_park_is_toolchange` and `_park_previous_tool`: they are only written, and the code that read them is commented out.
- `Dispatcher.ApplyCallback`: an `Opaque` callback stands only for callbacks with no effect on the modelled state; the callbacks of the feed-assist enable and disable commands, which set `_feed_assist_index` to the slot or to -1 (extras/ace.py:755, 766) also when their request is shed, since the overflow reply has no `code` and so reads as success, are not modelled as such.
- `Dispatcher.ApplyCallback`: a status result that is a list of key/value pairs (which `dict.update` also accepts) is treated like any other non-object result, leaving `_info` unchanged.
- `Dispatcher.ApplyCallback`: a `code` of `False` or `0.0` compares equal to 0 in Python; the model folds booleans and floats into one opaque value, which counts as non-zero.
- `PyText.ParseInt`: `int()` also accepts underscores between digits and non-ASCII digits. `PyText.Lower` and `PyText.Strip` act on ASCII only.
- The saved variables are a record with one typed field per variable, each defaulting as `.get` does. A saved value of another type (which would make the commands raise) is not modelled. `ace_current_index` is an integer parameter of the tool change.
- `Parking.Monitor`: comparisons of a non-integer `feed_assist_count` use structural equality, and only integers above 0 count as an increase.
- The tool change's `gcmd.respond_*` messages and `toolhead.wait_moves`: the outcome stands for the message. `gcmd.get_int` range checks on `TOOL` and `INDEX` are preconditions.
- `ToolChange`: the first check of the parking wait, which in the source sees the flags just set by `_park_to_toolhead`, is taken from the observations like every later check.
- The infinity-spool command's own session-flag setup before `_park_to_toolhead`: it sets the same flags, which `Parking.Start` models. The pre/post `INFINITYSPOOL` macros are not traced.
- The thin pass-through commands (drying, feed, retract, speed updates, `ACE_DEBUG`, `ACE_FILAMENT_INFO`), the G-code registration, and the web interface.
