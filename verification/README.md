# EtherNet/IP scanner: a verified model

This project models, in Dafny, the hard core of an EtherNet/IP scanner library (the `enip` crate) and of the adapter built on it:

- **Class-1 I/O.** One connection as a state machine with an explicit clock: a signed-window consumer, a cyclic producer whose
  catch-up is arithmetic, an inactivity watchdog, and the two socket-error policies. Around it, the drop-oldest event queue,
  the routing table, the manager task as atomic steps (one command, one datagram, one receive error, one tick), and the
  `Forward_Open` procedure with its unwinding.
- **Publishing.** The on-change gate with its committed/pending baselines, the batch windows, the poll step that drives them,
  and runs of the whole engine.
- **Logix tags.** Fragmented reads and writes against an arbitrary or a storing device, tag-list paging, and the browse walk.
- **Assembly layouts.** Bounds checked at construction; typed byte and bit fields written into and read out of one buffer.
- **Wire formats.** The checked cursor, the Common Packet Format (Volume 2 of the ODVA CIP Networks Library, section 2-6),
  sequenced addresses, sockaddr items, real-time frames, network connection parameters and the open/close records
  (Volume 1, section 3-5.5).

Where the source updates an object, the model has a class (`WireReader`, `WireWriter`, `IoConnection`, `EventQueueState`,
`RecvErrorPolicy`, `RoutingTable`, `Task`, `Engine`) or writes an array in place, and each method is proved equal to a
function on values. The theorems about whole runs are proved about those functions.

Conventions: time is a number of nanoseconds; bytes and words are bounded integers, and every wrap-around, saturation and
checked addition is written out; counters are unbounded. A device is a function from a request to an answer, so "any device" is
a quantifier. Runs are finite sequences of operations, and every theorem about runs holds for all of them.

## Layout

| files | about |
|---|---|
| `Prelude`, `Errors`, `Wire`, `Cip`, `Cpf`, `Frame`, `ConnectionManager` | values and codecs |
| `ConnectionState`, `Connection`, `Cadence`, `Channel`, `Watchdog`, `SocketErrors` | one class-1 connection |
| `EndToEnd` | a producer, the network and the routed consumer together |
| `EventQueue` | one connection's event stream |
| `Manager`, `ManagerStreams`, `ManagerCounts`, `ManagerStaging`, `ManagerLives`, `Registry`, `ManagerTask`, `ForwardOpen` | the manager task and opening |
| `Assembly` | assembly layouts |
| `Utf8`, `Logix`, `TagList` | tag transfers and browsing |
| `Publish`, `PublishEngine`, `EngineRuns` | the gate, the windows, the engine, and whole runs of it |

## What turned out not to hold

For each of these the exact condition is proved, and a lemma gives a failing input wherever the condition does not already spell one out.

- Writing an assembly field and reading it back returns the value if and only if the value is canonical
  (`Assembly.InsertThenExtract`, `Assembly.WrittenFieldsRead`): a one-element array, or an array whose elements are of another type,
  does not come back. (The model also has values out of their type's range, which the source's types cannot express.)
- A successful insertion keeps every bit outside its field, whatever the buffer holds, if and only if the value's bytes are no more
  than the field spans (`Assembly.InsertionConfinedIff`). An array nested in an array passes every check of `insert_field` and is
  longer (`Assembly.NestedArraySpills`).
- An `Unknown` item id survives the wire unless it spells a registered code (`Cpf.CanonicalIffNotAliased`); a received frame
  prints back to itself unless reserved header bits are set (`Frame.DecodedFramePrints`); a received 16-bit parameter word is
  kept unless its reserved bit is set or its type bits are 3 (`ConnectionManager.NcpWordRoundTrip`).
- A handle's own check protects the connection its id names if and only if it is as strict as that connection's
  (`ManagerStaging.HandleProtectsIff`), and while handles are, every accepted buffer is valid (`ManagerStaging.AcceptedIsValid`).
  Connection ids are drawn at random, and when one is drawn twice the old handle stages a buffer of the wrong size
  (`ManagerStaging.ReusedIdStagesWrongSize`).
- The arithmetic catch-up re-arms where the tick loop would stop if and only if the loop takes fewer than 2^32 steps and stays on
  the clock, or `now` itself is a tick and the next one is on the clock (`Cadence.CatchUpRefinesLoop`); a lapse of five days at the shortest legal interval clamps
  (`Cadence.ClampedCatchUpLeavesTheGrid`).
- The watchdog is exact except within one timeout of the end of the clock (`Watchdog.WatchdogExact`), where it fires at the
  instant of creation (`Watchdog.EndOfClockFiresAtOnce`).
- A forward-open or forward-close request is understood whole if and only if its path is a whole number of words
  (`ConnectionManager.OpenRoundTrip`, `ConnectionManager.CloseRoundTrip`); the paths the crate encodes always are.
- A negative percent deadband, which the loader accepts, publishes an unchanged value unless it is zero
  (`Publish.NegativePercentNeverSuppresses`).
- An absolute deadband of zero never suppresses a number, not even an unchanged one (`Publish.ZeroAbsoluteNeverSuppresses`).
- One frame past either limit of the sequence window, a jump of 32767 is refused if and only if the numbering skipped zero on the
  way, and a replay from 32768 back is accepted if and only if it did (`Channel.LimitsAreTight`).

## Model

| member | source | states |
|---|---|---|
| `Wire.WireReader.Take` | crates/enip/src/wire.rs:81-92 | a take returns exactly the next bytes and moves past them; a short buffer is a typed error with what was needed and what is left, and consumes nothing |
| `Wire.WireReader.Skip` | crates/enip/src/wire.rs:95-97 | moves by exactly the count or fails as a take does, consuming nothing |
| `Wire.WireReader.TakeRest` | crates/enip/src/wire.rs:100-104 | returns everything from the cursor on and leaves nothing |
| `Wire.LeRoundTrip` | crates/enip/src/wire.rs:131-153 | a number below 256^n printed in n little-endian bytes reads back as itself |
| `Wire.FromLeRoundTrip` | crates/enip/src/wire.rs:268-290 | any bytes read as a little-endian number print back to the same bytes |
| `Wire.BeRoundTrip` | crates/enip/src/wire.rs:176-183 | the big-endian exception reads back what it printed |
| `Wire.LeDigits` | crates/enip/src/wire.rs:131-153 | byte i of a printed number is its digit i to base 256, least significant first |
| `Wire.HasAtSplit` | crates/enip/src/wire.rs:253-255 | two pieces appended one after the other stand in a buffer exactly when each stands at its own place |
| `Cip.DecodeValue` | crates/enip/src/cip/types.rs:245-290 | decoding succeeds exactly on a non-empty whole number of elements of an elementary type, and gives a canonical value of that type with that many elements |
| `Cip.ValueRoundTrip` | crates/enip/src/cip/types.rs:328-358 | a value that encodes comes back from its bytes if and only if it is canonical |
| `Cip.CanonicalRoundTrip` | crates/enip/src/cip/types.rs:214-290 | every canonical value encodes, in exactly its element count times the element size, and decodes back to itself |
| `Cip.TypeCodes` | crates/enip/src/cip/types.rs:62-121 | the type codes and element sizes of the elementary types; every code keeps its number |
| `Cip.Ranges` | crates/enip/src/cip/types.rs:134-164 | what each elementary type can hold, in numbers |
| `Cip.ScalarsOnWire` | crates/enip/src/cip/types.rs:326-358 | the bytes of BOOL, signed and unsigned samples: 0xFF or 0x00, and little-endian two's complement |
| `Cpf.Find` | crates/enip/src/cpf.rs:178-180 | returns the first item with the id, wherever it stands, and none exactly when there is none |
| `Cpf.DecodeFrom` | crates/enip/src/cpf.rs:192-205 | the item loop over the cursor reads the items one after the other, stops at the first error, and leaves the cursor after the last item |
| `Cpf.DecodeBuffer` | crates/enip/src/cpf.rs:184-189 | as above over a whole buffer, refusing trailing bytes |
| `Cpf.EncodeItems` | crates/enip/src/cpf.rs:208-217 | the writer loop prints the count and the items, and fails exactly when a count or a length exceeds 16 bits |
| `Cpf.DecodeThenEncode` | crates/enip/src/cpf.rs:184-217 | every byte string that decodes encodes back to the same byte string |
| `Cpf.EncodeThenDecode` | crates/enip/src/cpf.rs:184-217 | an encodable list decodes back to itself if and only if every item id is canonical |
| `Cpf.CanonicalIffNotAliased` | crates/enip/src/cpf.rs:44-82 | an item id is lost exactly when it is `Unknown` over a registered code |
| `Cpf.ItemCodes` | crates/enip/src/cpf.rs:44-82 | the registered item ids |
| `Cpf.ItemsOnWire` | crates/enip/src/cpf.rs:208-217 | the bytes of a two-item list: count, then id, length and data of each |
| `Cpf.ExpectExplicitData` | crates/enip/src/cpf.rs:229-254 | accepts exactly the two legal address/data pairs and returns the second item's bytes |
| `Cpf.SeqAddrRoundTrip` | crates/enip/src/cpf.rs:327-348 | a sequenced address decodes back to itself |
| `Cpf.SockRoundTrip` | crates/enip/src/cpf.rs:276-315 | sixteen-byte strings and sockaddr values correspond one to one |
| `Cpf.SeqAddrOnWire` | crates/enip/src/cpf.rs:327-348 | the eight bytes of a sequenced address |
| `Cpf.SockOnWire` | crates/enip/src/cpf.rs:276-315 | the sixteen bytes of a sockaddr, big-endian |
| `Frame.FrameRoundTrip` | crates/enip/src/io.rs:269-312 | a frame shaped for its format decodes back to the same sequence, run bit and data |
| `Frame.DecodedFramePrints` | crates/enip/src/io.rs:269-312 | a received frame prints back to its own bytes if and only if its reserved header bits are zero |
| `Frame.Formats` | crates/enip/src/io.rs:229-254 | which of the four formats carry a sequence, a header and data, and how many bytes come before the data |
| `Frame.FrameOnWire` | crates/enip/src/io.rs:269-284 | the bytes of a frame in each format: sequence, then run bit, then data |
| `ConnectionManager.NcpRoundTrip` | crates/enip/src/cm.rs:243-290 | the 16-bit form exists exactly up to 511 bytes; both forms give back size, framing, priority, type and owner flag |
| `ConnectionManager.NcpWordRoundTrip` | crates/enip/src/cm.rs:243-277 | a 16-bit word decodes and encodes to itself if and only if bit 12 is clear and its type is not 3 |
| `ConnectionManager.NcpBits` | crates/enip/src/cm.rs:243-290 | every field of a printed parameter word stands at its bits, in the codes of the standard, and the reserved bits are clear |
| `ConnectionManager.FieldsRoundTrip` | crates/enip/src/wire.rs:131-143 | any list of fixed-width integers is read back in order wherever it stands in a buffer |
| `ConnectionManager.OpenRoundTrip` | crates/enip/src/cm.rs:488-524 | a target that knows the service and takes the path by its printed size reads back the whole request, every id, both intervals, both parameter sets, trigger and path, if and only if the path is a whole number of words |
| `ConnectionManager.OpenOnWire` | crates/enip/src/cm.rs:488-524 | which byte of an open request each field stands at, in both forms |
| `ConnectionManager.SuccessRoundTrip` | crates/enip/src/cm.rs:551-576 | every success reply of whole words is decoded whole, whatever its reserved byte and whatever follows |
| `ConnectionManager.SuccessOnWire` | crates/enip/src/cm.rs:551-576 | which byte of a success reply each field is read from |
| `ConnectionManager.VerifyEcho` | crates/enip/src/cm.rs:587-612 | the echo is accepted exactly when the T-to-O id, serial, vendor and originator serial are the request's |
| `ConnectionManager.CloseRoundTrip` | crates/enip/src/cm.rs:669-700 | whatever could be opened can be closed, and the close is read, path by its printed size, as naming the same serial, vendor, originator serial and path if and only if the path is a whole number of words |
| `ConnectionManager.CloseOnWire` | crates/enip/src/cm.rs:684-699 | which byte of a close request each field stands at |
| `ConnectionManager.Multiplier` | crates/enip/src/cm.rs:315-350 | the multiplier of a code is 4 shifted left by the code, from 4 to 512 |
| `Connection.IoConnection.constructor` | crates/enip/src/io.rs:850-868 | a new connection is in the initial state: first tick one interval out, watchdog one timeout out, both checked |
| `Connection.IoConnection.ConsumePayload` | crates/enip/src/io.rs:921-995 | in place, does what `Consume` says: runt, size, signed window, gap count, acceptance |
| `Connection.IoConnection.BuildFrame` | crates/enip/src/io.rs:1093-1129 | in place, advances both sequences and prints the datagram `ProduceFrame` gives |
| `Connection.IoConnection.CatchUp` | crates/enip/src/io.rs:1021-1048 | in place, the division, the clamped count and the checked re-arm give what `Rearm` says |
| `Connection.IoConnection.Poll` | crates/enip/src/io.rs:1015-1050 | nothing before the tick is due; else catch up and build one frame |
| `Connection.IoConnection.AccountSend` | crates/enip/src/io.rs:1058-1083 | in place, counts the outcome and keeps the streak as `RecordSend` says |
| `ConnectionState.ConsumeVerdicts` | crates/enip/src/io.rs:921-995 | a frame is dropped for its size exactly when it is shorter than its format, or not the fixed size, or above the variable one; as stale exactly when it passes that and its sequence is not ahead; each verdict moves its own counter by one and no other |
| `ConnectionState.SurvivableKinds` | crates/enip/src/io.rs:147-156 | which error kinds a datagram socket survives, and that every other kind counts |
| `Cadence.LoopClosedForm` | crates/enip/src/io.rs:1003-1006 | the tick-by-tick loop steps over (now - next) / period + 1 ticks and stops at the first one past `now` |
| `Cadence.CatchUpRefinesLoop` | crates/enip/src/io.rs:1015-1050 | the catch-up counts what the loop counts; it re-arms where the loop stops if and only if the loop's step count fits 32 bits and its tick the clock, or `now` is itself a tick and the next one fits |
| `Cadence.RearmableIffLoopFits` | crates/enip/src/io.rs:1039-1048 | the guard of the arithmetic re-arm holds exactly when the loop's own step count, span and tick fit |
| `Cadence.ClampedCatchUpLeavesTheGrid` | crates/enip/src/io.rs:1039-1048 | at an interval of 100 microseconds and a lapse of 2^32 intervals the step count clamps and the schedule leaves the loop's tick |
| `Cadence.RearmAdvances` | crates/enip/src/io.rs:1007-1014 | for any interval, zero included, the schedule ends past `now` unless the clock runs out; a zero interval counts one overrun per late call |
| `Cadence.NewConnStarts` | crates/enip/src/io.rs:850-852 | a new connection starts its schedule one interval after creation exactly when the clock reaches that far |
| `Cadence.ScheduleStaysOnGrid` | crates/enip/src/io.rs:1015-1050 | in every run whose firings the tick loop could reach on the clock, whatever else happens in between, the next tick is creation plus a whole number of intervals: one more than the ticks fired and skipped |
| `Cadence.FiringAccountsForEveryTick` | crates/enip/src/io.rs:1015-1050 | at every firing, polls fired plus overruns equals floor((now - creation) / interval), and the next tick is the first grid point after `now` |
| `Channel.ProducedSequences` | crates/enip/src/io.rs:1093-1098 | after any history with k frames built, the class-1 sequence is ((k-1) mod 65535) + 1 and the encapsulation sequence k mod 2^32 |
| `Channel.DatagramCarriesFrame` | crates/enip/src/io.rs:1093-1129 | a produced datagram decodes to the connection id, encapsulation sequence, class-1 sequence, run bit and data it was built from |
| `Channel.DatagramFitsIff` | crates/enip/src/io.rs:1119-1128 | building fails exactly when overhead and data exceed one item's 16-bit length |
| `Channel.StaleExact` | crates/enip/src/io.rs:953-971 | exactly which frame numbers are refused after frame i was accepted, counting the zeros skipped between them |
| `Channel.FreshAccepted` | crates/enip/src/io.rs:953-971 | a frame at most 32766 ahead of the last accepted is accepted, and the counted difference is the true distance |
| `Channel.ReplayRefused` | crates/enip/src/io.rs:953-971 | a copy of the newest frame or of any of the 32767 before it is stale |
| `Channel.LimitsAreTight` | crates/enip/src/io.rs:953-971 | a jump of 32767 is stale, and a replay from 32768 back accepted, if and only if the numbering skipped zero in between |
| `Channel.ChannelRun` | crates/enip/src/io.rs:921-995 | over any lossy, duplicating, reordering run: accepted = fresh frames, stale = the rest, and sequence_gaps = frames lost between first and last plus zeros skipped |
| `Channel.SequencelessDelivers` | crates/enip/src/io.rs:921-995 | a format without a sequence has no window: every frame of the right size is accepted and delivered whole |
| `EndToEnd.DatagramIsFrame` | crates/enip/src/io.rs:1015-1129 | the datagram a firing poll puts out parses to the connection's id, the encapsulation sequence, and the payload of exactly the frame with that number |
| `EndToEnd.FeedAllConsumes` | crates/enip/src/io.rs:921-2122 | feeding a running task any arrivals of a producer's datagrams, in any order and number, is consuming their frames and announcing what is accepted, one by one, and touches no other connection, stream or counter of the task |
| `EndToEnd.ProducerToConsumer` | crates/enip/src/io.rs:921-2122 | for any producer history and any loss, copying and reordering within the window, the task delivers one `Up` and then every fresh frame in order, with exactly the data, number, run bit and arrival time it came with; every copy is refused, and the gap count is the frames lost plus the zeros skipped |
| `Watchdog.TimeoutNeverSaturates` | crates/enip/src/io.rs:1152-1154 | with validated intervals and any multiplier the product is exact and bounded |
| `Watchdog.DropChangesNoLiveness` | crates/enip/src/io.rs:928-960 | no dropped frame moves the deadline, the up flag or the last sequence |
| `Watchdog.DeadlineFollowsLastAlive` | crates/enip/src/io.rs:973-981 | in every run the deadline is one timeout after creation or the last acceptance |
| `Watchdog.WatchdogExact` | crates/enip/src/io.rs:1134-1136 | in every run the watchdog has expired exactly when now minus the last sign of life is at least multiplier times the T-to-O interval, or the clock is within one timeout of its end; the last sign of life is never before creation when no receive time is |
| `Watchdog.EndOfClockFiresAtOnce` | crates/enip/src/io.rs:851-854 | a connection created within one timeout of the end of the clock has expired at once |
| `SocketErrors.SendAccounting` | crates/enip/src/io.rs:1058-1083 | over any history frames_produced counts the successes, send_errors the failures, and the streak the fatal ones since the last success |
| `SocketErrors.ConnectionDeadExact` | crates/enip/src/io.rs:1070-1081 | a send kills the connection exactly when it fails for good and at least three such failures have occurred since the last success |
| `SocketErrors.FatalSocketExact` | crates/enip/src/io.rs:178-194 | the socket is declared dead exactly when the last three receive outcomes were all non-survivable |
| `SocketErrors.RecvErrorPolicy.OnRecvError` | crates/enip/src/io.rs:178-189 | in place, resets on a survivable error and counts to the limit on the others |
| `EventQueue.EventQueueState.SendEvent` | crates/enip/src/io.rs:526-550 | in place, does what `Push` says, and counts each eviction once |
| `EventQueue.EventQueueState.Take` | crates/enip/src/io.rs:567-577 | in place, pops the head; the end is reported only when drained and the sender is gone |
| `EventQueue.EvictionFindsData` | crates/enip/src/io.rs:538-547 | at capacity there is always a sample to evict: the fall-through is unreachable |
| `EventQueue.SendExact` | crates/enip/src/io.rs:526-550 | in every run a send does nothing once the receiver is gone; otherwise the event joins at the end, and the oldest sample is evicted exactly when the event is a sample and the capacity is reached |
| `EventQueue.QueueRefinesDropOldest` | crates/enip/src/io.rs:473-550 | over any run of sends, receives and closes the queue is a drop-oldest log: the count is the samples held and never exceeds capacity, order is kept, only the oldest sample is ever evicted, and sent = popped + queued + evicted |
| `EventQueue.NewestSamplesWait` | crates/enip/src/io.rs:526-550 | the samples waiting are the most recent ones sent, and control events leave only by being received |
| `ManagerTask.Task.OnDatagram` | crates/enip/src/io.rs:2025-2040 | in place over the routing table and sender map, does what the datagram step says |
| `ManagerTask.Task.OnTick` | crates/enip/src/io.rs:2060-2097 | in place, produces, accounts and checks every connection in the given order, then loses what expired, as the tick step says |
| `ManagerTask.Task.OnRecvFailure` | crates/enip/src/io.rs:2041-2057 | in place, counts and classifies the error, and on a dead socket loses every listed connection and stops |
| `ManagerTask.Task.OnAdd` | crates/enip/src/io.rs:1968-1992 | in place, refuses on a failed join, arms otherwise, and takes the connection back when the opener is gone |
| `ManagerTask.Task.OnSetOutput` | crates/enip/src/io.rs:1993-2012 | in place, stages a buffer only for a held connection within its deadline |
| `ManagerTask.Task.OnSetRun` | crates/enip/src/io.rs:2013-2017 | in place, switches the run bit of a held connection and does nothing for any other id |
| `ManagerTask.Task.OnRemove` | crates/enip/src/io.rs:2018-2020 | in place, does what the remove step says, which `ManagerLives.RemoveExact` states in full |
| `ManagerTask.Task.Unregister` | crates/enip/src/io.rs:2145-2157 | in place, drops both entries of an id |
| `ManagerTask.Task.LoseEvery` | crates/enip/src/io.rs:2129-2142 | in place, sends each listed connection its loss and removes it |
| `ManagerStreams.EveryRunIsGood` | crates/enip/src/io.rs:1951-2157 | over every interleaving the registry and the sender map hold the same ids, and each live stream is one `Up` with the negotiated intervals and one `Data` per accepted frame; what each carries is `ManagerLives.EveryConnectionLivesItsRun` |
| `ManagerStreams.EveryStreamIsShaped` | crates/enip/src/io.rs:1951-2157 | every stream, live or ended, is nothing, one `Lost`, or one `Up`, one or more `Data` and at most one final `Lost` |
| `ManagerLives.EveryConnectionLivesItsRun` | crates/enip/src/io.rs:1951-2157 | over every interleaving with any other connections, a connection the task holds is the one armed after exactly the operations the task did to it, and its stream is exactly what those announce; so the run theorems about one connection hold of every one held |
| `ManagerLives.RemoveExact` | crates/enip/src/io.rs:2018-2157 | a remove leaves the id in neither map, ends its stream as it stood, and leaves every other id as it was |
| `ManagerLives.RemovedStaysGone` | crates/enip/src/io.rs:1951-2157 | in every run a removed id stands in neither map until it is armed again |
| `ManagerLives.AddExact` | crates/enip/src/io.rs:1968-1992 | an arming refuses on a failed join and changes nothing, else leaves a new connection with an empty stream, or nothing at all when its opener is gone; whatever stood under the id ends, and no other id changes |
| `ManagerLives.NewConnStartsFromNothing` | crates/enip/src/io.rs:850-868 | a new connection has no output, both sequences and every counter at 0, the run bit on, and has accepted nothing |
| `ManagerLives.StoppedStays` | crates/enip/src/io.rs:1951-2057 | a stopped task does nothing more, and only a shutdown or a dead socket stops it |
| `ManagerLives.TickLosesExactly` | crates/enip/src/io.rs:2062-2088 | in every run a tick loses a connection to a dead transmit path exactly on the third fatal send since the last good one, and else to the watchdog exactly when nothing was accepted for the whole timeout |
| `ManagerLives.TickEndsStreams` | crates/enip/src/io.rs:2089-2096 | what a tick loses has its stream ended by that reason, after everything sent before |
| `ManagerLives.SocketDeadExact` | crates/enip/src/io.rs:2041-2057 | in every run the task declares its socket dead exactly when the last three receives, this one included, all failed for good |
| `ManagerStreams.TickAllExact` | crates/enip/src/io.rs:2062-2088 | the first pass of a tick steps every listed connection once and collects exactly those that died, with their reasons |
| `ManagerStreams.TickFramesExact` | crates/enip/src/io.rs:2062-2088 | a tick sends one frame for each listed connection whose time has come, the one that connection built, and no other |
| `ManagerStreams.TickIsOrderIndependent` | crates/enip/src/io.rs:2060-2097 | whatever order the map is walked in, a tick leaves the same connections in the same states |
| `ManagerStreams.StreamQueueBounded` | crates/enip/src/io.rs:473-550 | a queue that took in any part of a well-formed stream never holds more than its capacity plus two |
| `ManagerStreams.EveryQueueBounded` | crates/enip/src/io.rs:473-627 | in every run of the manager, a queue that was sent one of its streams, however its receiver reads, lags or leaves, never holds more than its capacity plus two |
| `ManagerStreams.DeadSocketEndsEverything` | crates/enip/src/io.rs:2041-2057 | when the socket is declared dead and the walk covers the table, no connection is left and every stream that was live ends in the loss |
| `ManagerCounts.RouteCountsOnce` | crates/enip/src/io.rs:1210-1284 | routing one datagram raises the sum of the six verdict counters by exactly one |
| `ManagerCounts.RouteTouchesOnlyAddressed` | crates/enip/src/io.rs:1210-1284 | routing changes no connection but the addressed one, and unless it is accepted no last sequence, up flag or deadline |
| `ManagerCounts.ForeignSourceChangesNothing` | crates/enip/src/io.rs:1249-1276 | a datagram from anyone but the addressed connection's own target, another connection's target included, changes no connection and is not routed |
| `ManagerCounts.EveryDatagramCounted` | crates/enip/src/io.rs:1951-2100 | over every run the six counters, over live and removed connections, sum to the datagrams received |
| `ManagerCounts.StatsExact` | crates/enip/src/io.rs:1210-1284 | in every run each counter of the task counts exactly its own: datagrams without an address, datagrams for an id not held, datagrams from another source than the target, and failed receives |
| `ManagerCounts.AddressedExact` | crates/enip/src/io.rs:1211-1240 | a datagram has an address exactly when its items decode and hold a sequenced address that reads and a connected-data item |
| `Registry.RoutingTable.ConsumeDatagram` | crates/enip/src/io.rs:1210-1284 | in place over connection objects, gives the table, counters and verdict of the routing function, and leaves every other object alone |
| `Registry.RoutingTable.TickOn` | crates/enip/src/io.rs:2065-2088 | in place, one connection's share of a tick, leaving every other object alone |
| `ManagerStaging.StagingVerdict` | crates/enip/src/io.rs:1993-2012 | a command is staged exactly for a held connection before its deadline; every other verdict changes nothing |
| `ManagerStaging.OutputVerdicts` | crates/enip/src/io.rs:1651-1665 | a handle lets through anything where no data is carried, exactly the negotiated size when it is fixed and at most that when it is not, with the error of each refusal |
| `ManagerStaging.OutputIsLastStaged` | crates/enip/src/io.rs:1951-2100 | over every interleaving a live connection's buffer is the last one accepted for it since it was armed, and empty when none was |
| `ManagerStaging.RunIsLastSet` | crates/enip/src/io.rs:2013-2017 | over every interleaving a live connection's run bit is what it was last switched to since it was armed, and run before the first |
| `ManagerStaging.EveryFrameCarriesLastStaged` | crates/enip/src/io.rs:2065-2078 | every frame a tick builds in any run decodes to the last accepted buffer, or to no data for a format that carries none, and to the run bit last set, or to none for a format without a header |
| `ManagerStaging.HandleProtectsIff` | crates/enip/src/io.rs:1651-1665 | a handle's check lets through only what another connection would accept, if and only if the two negotiated sizes and kinds agree as stated |
| `ManagerStaging.UniqueIdsFit` | crates/enip/src/io.rs:1627-1665 | as long as no connection id is drawn twice, every handle's check fits the connection it reaches |
| `ManagerStaging.AcceptedIsValid` | crates/enip/src/io.rs:1651-1740 | while handles fit, every command the task answers with staged carries a buffer that the addressed connection's own validation passes |
| `ManagerStaging.OutputsAreValid` | crates/enip/src/io.rs:1651-1740 | while handles fit, the last buffer accepted for a live connection, an empty one included, passes that connection's own validation |
| `ManagerStaging.FixedOutputExactSize` | crates/enip/src/io.rs:1651-1740 | on a fixed connection an accepted buffer has exactly the negotiated size, the empty buffer included; on a variable one at most that |
| `ManagerStaging.ReusedIdStagesWrongSize` | crates/enip/src/io.rs:1651-1684 | an id drawn twice lets the old handle stage a buffer the new connection forbids |
| `ForwardOpen.BuiltParamsFit` | crates/enip/src/io.rs:1807-1857 | for every pair of directions that builds, both parameter words encode in the chosen form; the large form is chosen exactly above 505 bytes |
| `ForwardOpen.BuiltOpenIsUnderstood` | crates/enip/src/io.rs:1807-1857 | a built request encodes unless its path is too long, and the target reads back everything specified: both directions and intervals, the ids, vendor, multiplier, trigger and path |
| `ForwardOpen.BuildsIff` | crates/enip/src/io.rs:1807-1864 | a request builds exactly when both frames fit 16 bits and both intervals 32 bits of microseconds |
| `ForwardOpen.FrameSizeIsPrinted` | crates/enip/src/io.rs:1807-1857 | the size announced for a direction is that of the frames printed for it |
| `ForwardOpen.ReplyIsReadAs` | crates/enip/src/io.rs:1440-1455 | how every reply of at least four bytes is read: another service code than the request's with bit 7 set is a violation, a non-zero status a rejection with that status and its routing hint, and status 0 the success record after any extended status words |
| `ForwardOpen.NoReplyToRead` | crates/enip/src/io.rs:1438-1446 | a failed session, a reply without its data item and an item too short for a reply are errors of their own |
| `ForwardOpen.AcceptedIsDecoded` | crates/enip/src/io.rs:1440-1455 | whatever reply accepts the open, with any extended status, reserved bytes and trailing bytes, is decoded to exactly its success record |
| `ForwardOpen.SockIsFound` | crates/enip/src/io.rs:1476-1483 | a sockaddr item is found by its id and read whole; a missing or garbled one is none |
| `ForwardOpen.MulticastRange` | crates/enip/src/io.rs:1926-1941 | multicast is 224.0.0.0 to 239.255.255.255 |
| `ForwardOpen.ResolveTx` | crates/enip/src/io.rs:1888-1915 | the transmit address is always the target's; the port is the reply's when non-zero and 2222 otherwise; and the four dispositions say exactly what the reply named |
| `ForwardOpen.ResolveGroup` | crates/enip/src/io.rs:1926-1941 | a multicast address gives exactly that group on a connection that asked for multicast and an error on any other; everything else gives no group |
| `ForwardOpen.BestEffortClose` | crates/enip/src/io.rs:1794-1804 | the close cannot fail to encode, so exactly one goes out, with no extra items, and it names the open's connection |
| `ForwardOpen.Open` | crates/enip/src/io.rs:1409-1588 | the request is understood as built and asks for this end's port in both directions; after a decoded success every failure has the first fault as its error, sends exactly one close and changes nothing, success sends none; a reply that accepts the open succeeds exactly when echo, intervals, address, group, task and join are all acceptable, and then the task holds a new connection with the target's id and intervals, the requested formats, sizes, framing and multiplier, the target's address with the resolved port, and the resolved group; a refused redirect is reported exactly when a foreign address was named |
| `Assembly.NewLayout` | crates/enip/src/assembly.rs:162-193 | accepts exactly the layouts whose fields all lie inside the assembly, and names the first offending field's error otherwise |
| `Assembly.FieldFaults` | crates/enip/src/assembly.rs:162-193 | which fault a field is refused for, each exactly when it is the first that applies, and none exactly when the field lies inside |
| `Assembly.DecodeFields` | crates/enip/src/assembly.rs:211-223 | on a buffer of the layout's size decoding never fails and returns every field in order; any other size is refused |
| `Assembly.EncodeInto` | crates/enip/src/assembly.rs:261-281 | in place, writes the values in order up to the first error, which it returns with the buffer as it then stands |
| `Assembly.EncodeStopsAt` | crates/enip/src/assembly.rs:261-281 | values before one that fails stay written, an unknown key or a refused value stops the walk with its own error, and nothing after it is written |
| `Assembly.InsertField` | crates/enip/src/assembly.rs:284-330 | in place, overwrites exactly the field's bytes or sets its one bit; an error leaves the buffer alone |
| `Assembly.InsertAccepts` | crates/enip/src/assembly.rs:284-330 | a canonical value is accepted exactly when it has the field's type and count, and refused as a mismatch otherwise |
| `Assembly.InsertRefuses` | crates/enip/src/assembly.rs:284-330 | any value past those checks is refused only when it does not encode or runs past the buffer, and a bit field refuses no BOOL |
| `Assembly.WithBitBits` | crates/enip/src/assembly.rs:296-305 | setting or clearing one bit of a byte gives that bit and keeps the others |
| `Assembly.BitIsDigit` | crates/enip/src/assembly.rs:226-254 | bit k of a byte is its binary digit k |
| `Assembly.ExtractReadsOwnBits` | crates/enip/src/assembly.rs:226-254 | what a field reads depends on no bit outside it |
| `Assembly.InsertKeepsOtherBits` | crates/enip/src/assembly.rs:284-330 | an insertion of a value no longer than its field changes no bit outside it |
| `Assembly.InsertionConfinedIff` | crates/enip/src/assembly.rs:284-330 | a successful insertion keeps every bit outside the field for every buffer of that size if and only if the value is no longer than the field |
| `Assembly.InsertThenExtract` | crates/enip/src/assembly.rs:226-330 | a field reads back what was written if and only if the value is canonical |
| `Assembly.UnwrittenBitsKept` | crates/enip/src/assembly.rs:261-330 | after a successful write of values no longer than their fields, every bit no written field covers is unchanged |
| `Assembly.UnwrittenFieldKept` | crates/enip/src/assembly.rs:226-330 | a field disjoint from everything so written decodes as before |
| `Assembly.WrittenFieldsRead` | crates/enip/src/assembly.rs:226-330 | of values written inside pairwise disjoint fields, a value is read back from its field if and only if it is canonical, whatever the others are |
| `Assembly.EncodeThenDecode` | crates/enip/src/assembly.rs:211-330 | with distinct keys, decoding after such a write returns a written value at its key if and only if it is canonical |
| `Assembly.CanonicalValuesDecode` | crates/enip/src/assembly.rs:211-330 | canonical values written to pairwise disjoint fields all decode at their keys |
| `Assembly.NonCanonicalLost` | crates/enip/src/assembly.rs:226-254 | no buffer reads as a value that is not canonical |
| `Assembly.NestedArraySpills` | crates/enip/src/assembly.rs:310-330 | a nested array passes every check and is written past its field |
| `Logix.ReadTagFragmented` | crates/enip/src/logix.rs:222-331 | against any peer the loop ends, asks for strictly increasing offsets equal to the bytes held, never exceeds the cap, and returns what the recursive transfer gives |
| `Logix.ReadSucceedsOnlyThus` | crates/enip/src/logix.rs:222-331 | against any peer a read succeeds only when every answer it asked for had service 0xD2, the same type code and handle and status 6 with some bytes, and the last one status 0; it returns exactly their values joined in order |
| `Logix.ReadEndsAs` | crates/enip/src/logix.rs:238-319 | after any good partial answers a fault, a wrong service or an error status ends the read with exactly that error, a final fragment with everything read, and an empty or oversized one with its own error |
| `Logix.ReadRefusesChange` | crates/enip/src/logix.rs:255-293 | a fragment with another type code or template handle than the first ends the read |
| `Logix.ReadIsLossless` | crates/enip/src/logix.rs:222-331 | from a device that serves its value in any non-empty pieces, the read returns all of it if and only if it fits the cap |
| `Logix.BuildVerdicts` | crates/enip/src/logix.rs:510-522 | what a finished transfer becomes by its type code: a structure by its handle, a decoded elementary value, or an unsupported one |
| `Logix.WriteTag` | crates/enip/src/logix.rs:341-420 | one request when the value fits, else non-empty labelled chunks, each as full as the limit allows, on element boundaries that tile a prefix of the encoded value; success means all of it was accepted, and the first refusal stops the transfer with its error |
| `Logix.WriteChunks` | crates/enip/src/logix.rs:381-419 | the chunk loop: each offset is the bytes already sent, every chunk is within the limit, and an error is a refusal or an offset past 32 bits |
| `Logix.ChunkedVerdicts` | crates/enip/src/logix.rs:381-419 | only an answer of service 0xD3 and status 0 lets a transfer go on, and every other one ends it with its own error |
| `Logix.ChunksFit` | crates/enip/src/logix.rs:373-380 | with room for the header and one element a chunk is the most whole elements its request can carry; with less it is one element |
| `Logix.StoredTiles` | crates/enip/src/logix.rs:383-418 | tiles stored by offset lay down exactly the bytes they carry over whatever was there |
| `Logix.WriteThenRead` | crates/enip/src/logix.rs:222-420 | a canonical value written in chunks and read back in any other pieces is the same value |
| `Utf8.ValidIffText` | crates/enip/src/logix.rs:134-136 | a name passes the UTF-8 check exactly when it is the encoding of some sequence of Unicode scalar values |
| `TagList.ParseTagList` | crates/enip/src/logix.rs:127-160 | the record loop parses the page record by record, checks each name's UTF-8, and stops at the first malformed record |
| `TagList.PrintedPageParses` | crates/enip/src/logix.rs:127-160 | a printed page of any records with encodable names parses back to them |
| `TagList.ListTagsOnce` | crates/enip/src/logix.rs:443-506 | in one pass, refuses a page out of order or a resume point that does not advance |
| `TagList.ListVerdicts` | crates/enip/src/logix.rs:443-506 | every page of encodable names is refused out of order, resumed after its last record while there is more, refused when that does not advance, and ended at an empty page or the last instance id |
| `TagList.ListRefusals` | crates/enip/src/logix.rs:443-506 | anything but a list reply of status 0 or 6 is refused with what it says |
| `TagList.PageIsSound` | crates/enip/src/logix.rs:443-506 | against any peer an accepted page is strictly ascending and its resume point is past the start and every record |
| `TagList.EveryListerAdvances` | crates/enip/src/logix.rs:443-506 | against any peer every resume point lies past its start, so a caller that follows them all ends before the instance ids run out |
| `TagList.FollowIsComplete` | crates/enip/src/logix.rs:443-506 | following every resume point from instance 0 over a conforming device visits every symbol once and in order |
| `TagList.CutListing` | crates/ethernet-ip-adapter/src/eip/session.rs:400-413 | a page cut to size resumes after the last record returned, not after the last one served |
| `TagList.BrowseVerdicts` | crates/ethernet-ip-adapter/src/eip/session.rs:375-527 | against any peer a cursor past 32 bits fails; status 8 means there is no tag list exactly on a first request and fails a resume, as every other refusal does; an accepted page is ascending and no longer than asked for |
| `TagList.OneBrowse` | crates/ethernet-ip-adapter/src/eip/session.rs:474-527 | over a conforming device one browse returns the next symbols and resumes right after them |
| `TagList.BrowseHierarchical` | crates/ethernet-ip-adapter/src/commands.rs:929-1046 | against any backend the walk ends within the page cap, follows strictly increasing cursors and returns the concatenation of its pages |
| `TagList.BrowseTagList` | crates/ethernet-ip-adapter/src/commands.rs:929-1046 | with the command's cap of 1024 pages the walk is the capped walk, and it follows at most that many strictly increasing cursors |
| `TagList.WalkEndsAs` | crates/ethernet-ip-adapter/src/commands.rs:929-1046 | over any backend, after any good pages, a refusal ends the walk with exactly its error, a cursor that is no number or does not advance with its own, the cap with its own, and the last page with every page before it |
| `TagList.WalkIsComplete` | crates/ethernet-ip-adapter/src/commands.rs:929-1046 | over a conforming device, however it cuts its pages and whatever the page size, the walk returns every symbol once and in order if and only if it needs no more than the cap |
| `TagList.LayoutWalkIsComplete` | crates/ethernet-ip-adapter/src/commands.rs:1499-1524 | following the cursors of the configured layout serves the rest of the list once and in order, for any page size |
| `Publish.UnchangedIffClose` | crates/ethernet-ip-adapter/src/publish.rs:195-236 | for every deadband, a value counts as unchanged exactly when it is within it, element by element for arrays of equal length |
| `Publish.ZeroAbsoluteNeverSuppresses` | crates/ethernet-ip-adapter/src/publish.rs:226-226 | an unchanged number passes an absolute deadband exactly when the deadband is zero |
| `Publish.NegativePercentNeverSuppresses` | crates/ethernet-ip-adapter/src/publish.rs:227-234 | under a percent deadband an unchanged number is published exactly when the percentage is negative and the number not zero |
| `Publish.FailuresAlwaysPass` | crates/ethernet-ip-adapter/src/publish.rs:152-169 | a non-GOOD reading is never withheld and touches no baseline |
| `Publish.GoodReadings` | crates/ethernet-ip-adapter/src/publish.rs:152-169 | under `always`, or with no baseline, a GOOD reading is never withheld, and it is remembered as the last good one whatever becomes of it |
| `Publish.EveryLifeIsSettled` | crates/ethernet-ip-adapter/src/publish.rs:245-422 | over every run of cycles, flushes, pauses and rebases: matched = suppressed + handed out + discarded + waiting, in order; a window is open exactly while something waits, and since the oldest waiting sample was gated in; pending is the last GOOD value waiting; committed is the last confirmed GOOD value or rebase |
| `Publish.FlushExact` | crates/ethernet-ip-adapter/src/publish.rs:271-363 | in every run a flush at or after the oldest waiting sample's time plus the batch window hands the whole buffer out, and any other does nothing |
| `Publish.PauseExact` | crates/ethernet-ip-adapter/src/publish.rs:389-422 | in every run a pause throws away what waits and keeps the confirmed value; until the resume nothing is taken in or handed out, and only a rebase moves the baseline |
| `Publish.LastGoodExact` | crates/ethernet-ip-adapter/src/publish.rs:245-422 | in every run the time of the last GOOD reading, matched or rebased, is the one remembered |
| `Publish.WithheldIffClose` | crates/ethernet-ip-adapter/src/publish.rs:181-207 | after any history of publish modes, a GOOD reading under onChange is withheld exactly when it is within the deadband of the last confirmed value or of the last GOOD one waiting |
| `Publish.SubscriberNeverDrifts` | crates/ethernet-ip-adapter/src/publish.rs:152-384 | without batching and after any history of modes, after every GOOD reading under onChange the subscriber's value is that reading or within the deadband of it, unless its publish failed; a failed one leaves the baseline and passes again |
| `PublishEngine.Engine.ProcessGroup` | crates/ethernet-ip-adapter/src/poll.rs:33-103 | in place over the signal map and the counters, the group loop does what the pure cycle says |
| `PublishEngine.LatestReadingWins` | crates/ethernet-ip-adapter/src/poll.rs:33-60 | of several readings of one id in a cycle the last one is used |
| `PublishEngine.GroupIsPointwise` | crates/ethernet-ip-adapter/src/poll.rs:49-101 | a group cycle leaves every signal exactly as that signal's own cycle does, and leaves every other signal alone |
| `PublishEngine.GroupHandsOutFates` | crates/ethernet-ip-adapter/src/poll.rs:49-101 | a group cycle hands out exactly the signals whose sample got through, each once, with exactly the samples that signal's own cycle emits |
| `PublishEngine.GroupConserves` | crates/ethernet-ip-adapter/src/poll.rs:33-103 | each quality counter grows by the matched readings of that quality, and every matched reading is suppressed, handed out alone or put in a window; read errors equal BAD readings |
| `PublishEngine.GroupBooks` | crates/ethernet-ip-adapter/src/poll.rs:33-103 | what a cycle suppresses, hands out, buffers and counts as changed is what its notes say, and the windows grow by exactly what it buffered |
| `PublishEngine.Engine.TakeDue` | crates/ethernet-ip-adapter/src/publish.rs:352-363 | in place, drains exactly the closed windows, one publish per signal with that signal's whole buffer |
| `PublishEngine.Engine.Settle` | crates/ethernet-ip-adapter/src/publish.rs:376-384 | in place, promotes or drops one signal's pending value |
| `PublishEngine.Engine.DiscardOpenBatches` | crates/ethernet-ip-adapter/src/publish.rs:389-399 | in place, empties every window and the pending values it carried, and returns how many samples were waiting |
| `PublishEngine.Engine.RebaseFrom` | crates/ethernet-ip-adapter/src/publish.rs:415-422 | in place, rebases every listed signal, a later reading of one id winning |
| `PublishEngine.RebaseIsPointwise` | crates/ethernet-ip-adapter/src/publish.rs:415-422 | a rebase changes exactly the listed signals, each to its last listed value |
| `PublishEngine.SettleIsPointwise` | crates/ethernet-ip-adapter/src/poll_driver.rs:309-331 | settling a batch of publishes settles exactly the signals in it, each by its own result |
| `PublishEngine.Engine.NextBatchDeadline` | crates/ethernet-ip-adapter/src/publish.rs:426-431 | returns the earliest close of an open window, and none exactly when no window is open |
| `PublishEngine.DueExactlyAtDeadline` | crates/ethernet-ip-adapter/src/publish.rs:271-290 | for a positive window a flush is due exactly when the next deadline is at or before now |
| `PublishEngine.DrainConserves` | crates/ethernet-ip-adapter/src/publish.rs:352-399 | emptying some windows takes exactly their samples out of what waits |
| `EngineRuns.EngineIsLives` | crates/ethernet-ip-adapter/src/poll_driver.rs:300-410 | over any run, each poll group with its own publish mode, the engine with any number of signals is each signal living its own life: the same state, and the same samples suppressed, gated, handed out, discarded and confirmed |
| `EngineRuns.EverySignalIsSettled` | crates/ethernet-ip-adapter/src/poll_driver.rs:300-410 | in every run and for every signal: gated samples have left the window in order or still wait there, matched = suppressed + gated, a window is open exactly while something waits and since the oldest of it was gated in, and both baselines mean what they say |
| `EngineRuns.FlushListsExactly` | crates/ethernet-ip-adapter/src/publish.rs:352-363 | in every run a flush lists exactly the signals whose oldest waiting sample was gated in at least the batch window ago |
| `EngineRuns.EngineConserves` | crates/ethernet-ip-adapter/src/poll_driver.rs:216-410 | over every run, matched readings = suppressed + handed out + discarded + waiting, summed over all signals, and the suppressed counter is the number of readings withheld |
| `EngineRuns.FlushWindows` | crates/ethernet-ip-adapter/src/poll_driver.rs:309-331 | on the engine object, drains every closed window and settles each publish by its own result |
| `EngineRuns.PollGroup` | crates/ethernet-ip-adapter/src/poll_driver.rs:380-410 | on the engine object and the counters, one poll cycle with its settling is the pure step |
| `EngineRuns.FlushesWakeOnTime` | crates/ethernet-ip-adapter/src/publish.rs:352-431 | in every run the computed wake-up is exactly when a flush is due |

## Left out

- Cpf.EncodeThenDecode: lengths and positions are unbounded, so the source's checks for overflow of a machine word have no counterpart.
- ConnectionManager.NcpRoundTrip: the source ORs the fields together; the model adds them up, which is the same because their bits are disjoint.
- ConnectionManager.OpenRoundTrip: the connection path is an opaque byte string; the EPATH codec is not part of this model.
- Cip.ValueRoundTrip: REAL and LREAL are their raw bits, so NaN and rounding do not appear; strings and structures are opaque, as in the source's element codec.
- Channel.ChannelRun: is about formats that carry a sequence; `Channel.SequencelessDelivers` is about the one that carries none.
- Manager.ManagerStep: cannot see sockets, the command channel, wake-ups and acknowledgements; the outcome of a join or a send, the clock and the order the map is walked in are arguments of the step, and leaving a multicast group has no effect in it.
- ManagerTask.Task.OnTick: a live sender is the list of events sent on it; the queue behind it is `EventQueue`, and `ManagerStreams.EveryQueueBounded` says what the queue holds when it is sent such a stream. Locks and notification are library code.
- ForwardOpen.Open: the session is one reply, and the command to the manager is one step of it; cancellation of the caller appears only as an opener that is gone. IPv6 addresses are opaque.
- Logix.ReadTagFragmented: the peer answers by request number and offset; the session's own errors are one kind of answer.
- TagList.ParseTagList: a name is kept as its UTF-8 bytes.
- TagList.BrowseHierarchical: the backend answers a page or a refusal; the mapping of refusals to reply codes and the rendering of entries are presentation.
- Publish.UnchangedIffClose: numbers are exact reals; NaN, infinities and float rounding are left out, and a value that is neither a number nor a list is only compared.
- Publish.EveryLifeIsSettled: the batch window is fixed for a run; every publish is resolved before the next step, as both drivers do. The push engine's `sampleMs` floor, the staleness count and its re-basing on resume are left out.
- EngineRuns.EngineIsLives: tag paths are distinct within a device, which the configuration loader enforces.
- Class-3 messaging, the TCP session and encapsulation, identity and discovery: separate subsystems with no property spanning the ones here.
- Configuration parsing, JSON bodies, metrics, panels, events, connectivity rendering and task shutdown: presentation and plumbing that would add only easy members.
- Counters do not wrap at 64 bits, except that one catch-up adds at most the largest 64-bit count, as in the source.
- Two places where a comment and the code differ; the model follows the code: `encode_into` is described as never writing outside a field, which nested arrays break, and the catch-up as producing exactly the loop's values, which a clamped re-arm does not.
