# FlightDeck X: a verified model

FlightDeck X flies a simulated booster in C++, sends telemetry over UDP to a
TypeScript server, relays it to a browser dashboard, and carries fault commands
back over TCP. This project models the mechanisms between those parts and proves
what they promise each other. `dafny verify dfyconfig.toml` checks everything.

## What is modelled

**Control channel.** `ControlText` is the tab-separated text format on both
sides (`std::getline` there, `String.split` here). `ControlServer` and
`ControlClient` are the two objects with their line loops. `ControlChannel` is
the whole channel as a machine over bytes: a command is issued, a connection is
made, any part of what is in flight is received, one line is processed, any part
of the responses is delivered, a connection is cut anywhere, and the simulator
finishes (or abandons) one connection before it takes the next, so bytes of an
old connection are still processed before those of a new one. Command ids are
assumed distinct, as the dashboard's random UUIDs are, and one simulator run is
considered, because its flags start at zero. The channel delivers at least once;
the theorems of `ControlProtocol` say why that is enough.

**Flight.** `Flight` is the simulation: six phases, semi-implicit Euler steps,
thrust saturation, guidance, and the attitude quaternion, as one function `Next`
and as the class whose methods update the state in place. Doubles are reals.
Square roots and hypotenuses come from a `Library` parameter that is required to
be exact. `Attitude` has the quaternion, `FlightThrust` the thrust vectors.
`FlightRun` defines whole flights under an arbitrary schedule of thruster
losses. `FlightForces` says what each moving phase does in one step by the
equations of `FlightEquations`, between accelerations, thrust and state and
without the functions the step is built from. `FlightBallistics` and
`FlightGuidance` hold for every sensible configuration (guidance at the fixed
step). `FlightLanding`, `FlightAltitude`, `FlightDrift`, `FlightTouchdown` and
`FlightDuration` are about whole flights of the default configuration at the
fixed 0.01 s step, which is what the generator flies; the single steps they are
made of are in `FlightProgress`, `FlightClimb` and `FlightBraking`.
`FlightTelemetry` makes the telemetry record of a state, with the conversions to
single and double precision as parameters, and `NominalFlight` follows a flight
without faults through the packets and both ends' decoders to the dashboard's
log.

**Queue and transmitter.** `Spsc` has the ring buffer as an object and as two
threads interleaving single atomic loads, stores and slot accesses with stale
local copies of each other's index. `TransmitterSteps` puts it between the
simulation thread and the sending thread, with the counters, the running flag and
the drain; `Transmitter` has the theorems. Interleavings are sequentially
consistent. `Packets` and `Delivery` join it to the step loop and the tracker: one
flight's packets from `try_send` to the losses that are reported.

**Packets.** `Crc` has the bit-at-a-time CRC and the table-driven one.
`CrcGenerator` shows that the checksum is the remainder by the IEEE 802.3
generator polynomial, given by its exponents, and `CrcCheckValue` computes the
published check value. `Wire` is the C++ serializer and parser with their running
offset, `ServerDecoder` the TypeScript decoder with its absolute offsets. Floats
are bit patterns, whose values, order and finiteness are in `Doubles`, as is the
rounding of a timestamp to a double; words are bounded integers and exclusive or
is a recursive function on naturals (`Binary`).

**Loss accounting and history.** `Sequence` is the tracker over 32-bit serial
numbers, `Receiver` the command-line receiver that repeats it, `CircularBuffer`
the bounded history, `TelemetryServer` the packet handler with its restart
detection, and `Generator` the simulator's main loop with step numbers,
intentional drops and what becomes of each packet. `FlightStream` brings a
flight's packets to the server in any order that a network gives them.

**Dashboard.** `TelemetryUtils` selects samples, `MissionEvents` derives the
log, `UseTelemetry` is the message handler and the frame flush, and
`StreamAgreement` compares the server's restart detection with the dashboard's.

## Results that are refutations

Each names the input, and says exactly when the code does what one might expect.

- The altitude is not bounded below by zero: every default flight starts its
  ascent after 200 steps, and the step that follows ends below ground if thrust
  is lost in it, and only then (`FlightAltitude.LiftOffRises`). A flight is never
  below ground exactly when the heights its loss schedule alone gives the burn
  are not negative (`FlightAltitude.AboveGroundExactlyWhen`). Full thrust for
  1.2 s is enough (`EarlyThrustSuffices`), and so is no loss in ascent until 60%
  of the thrust exceeds the weight (`LateLossStaysUp`).
- The tracker alone can report fewer losses than there are: of the numbers 0 and
  2^31 it reports none (`Generator.LongGapGoesUnreported`). It reports all of
  them exactly when no gap reaches 2^31 (`Generator.LostIsMissing`). A flight is
  too short for that, so its losses are always right (`Generator.LostInFlight`,
  `Delivery.LostEndToEnd`).
- The dashboard's own restart test can fire without a server reset: the stream
  of 0, 2^31 and 0 makes it (`StreamAgreement.ClientCanFireAlone`). It never
  fires exactly when no packet is a zero that follows another number without the
  server seeing a restart (`NeverFiresExactlyWhen`), which is while the tracker's
  latest is still zero (`TakenForNewExactlyWhen`), so never below 2^31
  (`ServerResetComesFirst`).
- Decimation can change the grade of a touchdown
  (`MissionEvents.TouchdownGradeCanDiffer`). The whole log is kept exactly when
  each touchdown is graded alike by the sample just before it and by the last
  sample before it that stands out from its own predecessor
  (`MissionEvents.WholeLogKept`).
- A timestamp above 2^53 can change in the TypeScript decoder
  (`Doubles.NumberLosesOddTimestamps`); the exact condition is
  `ServerDecoder.TimestampUnchanged`.

## Model

| member | source | states |
|---|---|---|
| ControlText.ChunksDoNotMatter | server/src/control-client.ts:56-61 | Any split of a byte stream into chunks yields the same complete lines and the same leftover, on either side |
| ControlText.CommandSurvives | generator/src/control_server.cpp:81-95 | The simulator parses the line written for a validated command back into exactly that command |
| ControlText.AcceptedLineIsCommand | generator/src/control_server.cpp:81-92 | The simulator accepts nothing else: an accepted line is the text of the command it is taken for |
| ControlText.ErrorsAcknowledgeNothing | server/src/control-client.ts:61-62 | No error response is taken for an acknowledgement |
| ControlText.AckSurvives | server/src/control-client.ts:61-64 | The server parses the acknowledgement of a validated command back into exactly that command |
| ControlServer.SwitchedEffect | generator/src/control_server.cpp:89-94 | Setting or clearing one fault changes that fault's bit as asked and no other bit |
| ControlServer.ControlServer.HandleCommand | generator/src/control_server.cpp:81-96 | The flags and the response after one line, error lines included |
| ControlServer.ControlServer.HandleClient | generator/src/control_server.cpp:59-79 | Whatever recv returns, a connection has the effect and the responses of the lines of its whole text |
| ControlServer.ControlServer.Run | generator/src/control_server.cpp:48-79 | The accept loop serves each client to its end before the next and answers each line of each; wherever running is found cleared it has served what it had received by then |
| ControlServer.ServedToTheEnd | generator/src/control_server.cpp:48-79 | While running stays set every client is served to its end |
| ControlClient.SimulatorControlClient.Send | server/src/control-client.ts:21-24 | The command joins pending (Map.set keeps the place of a known id), and is written only when connected |
| ControlClient.SimulatorControlClient.OnConnect | server/src/control-client.ts:37-40 | On connect all of pending is written, in order |
| ControlClient.SimulatorControlClient.OnClose | server/src/control-client.ts:43-48 | Closing forgets the partial line and no pending command |
| ControlClient.SimulatorControlClient.Stop | server/src/control-client.ts:25-30 | Stopping ends the session and keeps what is pending |
| ControlClient.SimulatorControlClient.AcceptData | server/src/control-client.ts:56-66 | Each complete acknowledgement line settles its command and is reported, others are skipped, the rest of the text waits |
| ControlProtocol.NextKeepsInv | server/src/control-client.ts:21-66 | Every event keeps: pending is a suffix of the issue order, acknowledgements come in issue order, and flags are right for every answered newest command |
| ControlProtocol.AcknowledgedInIssueOrder | server/src/control-client.ts:56-66 | In every run the acknowledgements reported are the issued commands in order, each once, and pending is exactly the rest |
| ControlProtocol.AcknowledgedMeansApplied | generator/src/control_server.cpp:48-96 | In every run, once the newest command for a fault is acknowledged the simulator's flag has its value |
| ControlProtocol.AppliedUntilNextCommand | generator/src/control_server.cpp:48-96 | And it keeps that value, through cuts, resends and leftovers, until another command for that fault is issued |
| ControlProtocol.QuietMeansSettled | server/src/control-client.ts:32-66 | When the connection is up and nothing is in flight, no command is pending |
| ControlProtocol.CanAlwaysSettle | generator/src/control_server.cpp:48-79 | From every reachable state the channel can go on, without a new command, until every command issued is acknowledged |
| ControlProtocol.UncommandedFaultsStayOff | generator/src/control_server.cpp:89-94 | A fault never commanded is off, and the other bits stay zero |
| Flight.FlightSimulation.constructor | generator/src/flight_simulation.cpp:26-28 | For every configuration the initial state: on the ground, full mass, identity attitude |
| Flight.FlightSimulation.TransitionTo | generator/src/flight_simulation.cpp:30-39 | Entering a phase restarts its clock and centres the actuators it does not use |
| Flight.FlightSimulation.NormalizeOrientation | generator/src/flight_simulation.cpp:52-63 | In place, the orientation becomes a unit quaternion, and the one all theorems are about |
| Flight.FlightSimulation.UpdateOrientation | generator/src/flight_simulation.cpp:65-83 | In place, for a thrust that is not downward, the orientation becomes a unit quaternion with body +z on the thrust; a negligible thrust changes nothing |
| Flight.FlightSimulation.Step | generator/src/flight_simulation.cpp:85-238 | One step in place equals the step function all theorems are about, and keeps mass at or above dry mass |
| Attitude.NormalizedIsUnit | generator/src/flight_simulation.cpp:52-63 | Normalizing any quaternion gives a unit quaternion |
| Attitude.EpsilonIsNextToOne | generator/src/flight_simulation.cpp:57-57 | The threshold is the distance from one to the next double |
| Attitude.OrientedAlongThrust | generator/src/flight_simulation.cpp:65-83 | The quaternion built from a thrust that is not downward is a unit and turns body +z exactly onto the thrust |
| FlightThrust.AscentThrustIsWhole | generator/src/flight_simulation.cpp:112-120 | The ascent's thrust components have exactly the engine's thrust as length |
| FlightThrust.LandingThrustSaturates | generator/src/flight_simulation.cpp:176-212 | The landing thrust is the request, shortened without turning it to the smaller of request and maximum |
| FlightForces.AscentByForces | generator/src/flight_simulation.cpp:106-134 | In every ascent step the mass falls by the flow to no less than dry mass, each horizontal axis gets its configured acceleration or, if that is more, a quarter or a tenth of the thrust, and all the rest of the thrust is upward |
| FlightForces.CutoffExactlyWhen | generator/src/flight_simulation.cpp:135-141 | The engine cuts off exactly when 2gh + v^2 reaches that of the target apogee, the burn time is over or the mass is dry |
| FlightForces.DescentByForces | generator/src/flight_simulation.cpp:151-173 | In every descent step gravity is the whole vertical acceleration and the fins give each horizontal axis the spring-and-damper command within their limit, deflected by 20 degrees at it |
| FlightForces.DefaultFins | generator/include/flightdeck/flight_simulation.hpp:32-36 | With the default configuration the targets are 1000 m downrange and 200 m crossrange and the limit is 0.35 m/s^2 |
| FlightForces.IgnitionExactlyWhen | generator/src/flight_simulation.cpp:41-50 | The landing burn starts exactly when the vehicle falls and full thrust could not hold its weight, or needs more than the altitude over the margin to stop it |
| FlightForces.BurnByForces | generator/src/flight_simulation.cpp:176-230 | In every landing-burn step the acceleration asked for, 1.05 v^2 / (2 max(h, 1)) upward and at most 4 m/s^2 to each side, is given when its thrust is available; otherwise the thrust has exactly the available length in the direction of the one asked for |
| FlightRun.RunExists | generator/src/flight_simulation.cpp:85-238 | Every configuration, exact library, step and loss schedule has a run, so theorems about runs are about something |
| FlightRun.AlignedAfterPoweredStep | generator/src/flight_simulation.cpp:106-142 | After a powered step the axis is on the thrust, thrust_n is its length, and it is within what is available |
| FlightRun.HeldWithoutThrust | generator/src/flight_simulation.cpp:143-175 | Steps without thrust hold the attitude |
| FlightRun.EveryStateIsSound | generator/src/flight_simulation.cpp:85-238 | Every reachable state has a unit attitude, mass between dry and initial, bounded thrust only in or just after powered phases, limited fins only in descent, and rest after landing |
| FlightRun.MassFallsAndPhasesAdvance | generator/src/flight_simulation.cpp:99-235 | Mass never rises and the phase never goes back or skips one |
| FlightRun.ClockCountsSteps | generator/src/flight_simulation.cpp:91-92 | Until it has landed a flight's clock is the number of steps taken times the step |
| FlightBallistics.CoastStepLosesEnergy | generator/src/flight_simulation.cpp:143-150 | A coast step lowers h + v^2/2g by exactly g dt^2/2, for every gravity and step |
| FlightBallistics.CoastReachesApogee | generator/src/flight_simulation.cpp:143-150 | A rising coast ends after finitely many steps, never above the predicted apogee E and, at its end, above E - v0 dt/2 - g dt^2 |
| FlightBallistics.AscentIsBelowTarget | generator/src/flight_simulation.cpp:135-141 | While the engine burns the predicted apogee is below the target |
| FlightBallistics.CutoffOvershoot | generator/src/flight_simulation.cpp:127-141 | A cutoff by the apogee test has target <= E < target + the gain of one ascent step |
| FlightLanding.DefaultApogee | generator/src/flight_simulation.cpp:127-150 | A default flight cut off by the apogee test peaks between 2398.7 m and 2405.3 m |
| FlightProgress.LandingStep | generator/src/flight_simulation.cpp:176-232 | A landing-burn step decelerates by no more than guidance asks for and no more than the engine allows |
| FlightLanding.NeverHovers | generator/src/flight_simulation.cpp:176-232 | In every reachable landing burn, under any loss schedule, the vehicle is falling and each step lowers it or lands it |
| FlightProgress.FloorIsKept | generator/src/flight_simulation.cpp:176-218 | The descent speed stays above a positive bound that depends on altitude only |
| FlightProgress.FastFallStartsBurn | generator/src/flight_simulation.cpp:41-50 | Falling fast enough always starts the landing burn, so descent cannot go on forever |
| FlightGuidance.EnergyLost | generator/src/flight_simulation.cpp:153-172 | The exact loss of spring-and-damper energy in one guided semi-implicit step, for all gains |
| FlightGuidance.DescentConverges | generator/src/flight_simulation.cpp:151-172 | While no fin is at its limit each descent step brings both horizontal axes closer to rest at the target |
| FlightGuidance.BurnConverges | generator/src/flight_simulation.cpp:183-222 | While neither commands nor thrust saturate each landing-burn step does the same |
| FlightLanding.EveryFlightLands | generator/src/flight_simulation.cpp:85-235 | For every loss schedule a default flight lands within 206484 steps and then rests, unchanged |
| FlightDrift.BurnDrift | generator/src/flight_simulation.cpp:112-134 | k steps into the burn of every default flight, up to its end and under any loss schedule, the velocity is 0.0105 k downrange and 0.0021 k crossrange, and the distances are their sums |
| FlightTouchdown.AvailableThrustSlows | generator/src/flight_simulation.cpp:176-218 | Every step of every default landing burn whose thrust is available takes exactly 0.0105 v^2 / (2 max(h, 1)) from the descent speed |
| FlightTouchdown.SoftTouchdown | generator/src/flight_simulation.cpp:85-235 | A default flight whose ascent was cut off by the apogee test and that loses no thrust from then on falls slower than 3 m/s when it touches down |
| FlightTouchdown.NominalTouchdown | generator/tests/flight_simulation_test.cpp:82-83 | So does every default flight without loss after it has left the ground |
| FlightDuration.NominalDuration | generator/tests/flight_simulation_test.cpp:39-95 | And it has landed within 30000 steps |
| FlightAltitude.Waits | generator/src/flight_simulation.cpp:99-105 | Every default flight waits 200 steps on the ground and then starts its ascent at rest with full mass |
| FlightAltitude.LossAtLiftOffSinks | generator/src/flight_simulation.cpp:106-134 | From there the first ascent step ends at or above ground exactly when it has its thrust |
| FlightAltitude.LiftOffRises | generator/src/flight_simulation.cpp:85-134 | So state 201 of every default run is at or above ground exactly when no thrust is lost in step 200 |
| FlightAltitude.Burn | generator/src/flight_simulation.cpp:106-142 | The burn ends after 1500 to 2500 steps, rising, and until then mass, speed and altitude are sums over the loss schedule |
| FlightAltitude.AboveGroundExactlyWhen | generator/src/flight_simulation.cpp:85-235 | A default flight is at or above ground in every state exactly when those sums are never negative |
| FlightAltitude.EarlyThrustSuffices | generator/src/flight_simulation.cpp:85-235 | Full thrust for the first 1.2 s of the burn keeps the whole flight at or above ground, whatever is lost later |
| FlightAltitude.LateLossStaysUp | generator/src/flight_simulation.cpp:85-235 | No loss in ascent until 60% of the thrust exceeds the weight does too |
| Spsc.SpscRingBuffer.TryPush | generator/include/flightdeck/spsc_ring_buffer.hpp:18-25 | Appends exactly when fewer than capacity elements are held |
| Spsc.SpscRingBuffer.TryPop | generator/include/flightdeck/spsc_ring_buffer.hpp:27-33 | Removes the oldest element exactly when there is one |
| Spsc.SpscRingBuffer.Empty | generator/include/flightdeck/spsc_ring_buffer.hpp:35-38 | Equal indices mean no elements |
| Spsc.RingRefinesQueue | generator/include/flightdeck/spsc_ring_buffer.hpp:18-44 | Every atomic step of either thread is a step of a bounded FIFO or no step of it; a failed push or pop was truly full or empty at its load |
| Spsc.NoSharedSlot | generator/include/flightdeck/spsc_ring_buffer.hpp:18-33 | The producer's and the consumer's slot accesses never concern the same slot |
| Spsc.FirstInFirstOut | generator/include/flightdeck/spsc_ring_buffer.hpp:18-44 | Under every interleaving the values popped are a prefix of those pushed, at most capacity behind |
| Transmitter.PacketsAreConserved | generator/src/udp_transmitter.cpp:39-70 | At every moment queued, plus one if a push is not yet counted, is queue length plus packet in hand plus sent plus errors |
| Transmitter.CountersTellOutcomes | generator/src/udp_transmitter.cpp:41-68 | queued counts the accepted pushes, queue_dropped the refused, sent the complete sends and send_errors the others |
| Transmitter.DrainIsBounded | generator/src/udp_transmitter.cpp:49-79 | After stop only the worker moves, and it makes a bounded number of steps whatever its sends return |
| Transmitter.NeverStuck | generator/src/udp_transmitter.cpp:39-79 | Neither thread ever waits for the other, so the join in stop returns |
| Transmitter.NothingIsStranded | generator/src/udp_transmitter.cpp:49-79 | When the worker is gone the queue is empty, everything pushed was popped, and queued = sent + send_errors |
| Transmitter.StopDrains | generator/src/udp_transmitter.cpp:49-79 | From every reachable state after stop no run is longer than 20 steps a slot and 13, and one that cannot go on has the worker gone, the queue empty and queued = sent + send_errors |
| Transmitter.PacketsLeaveInOrder | generator/src/udp_transmitter.cpp:39-70 | What is popped is the beginning of what try_push accepted of the packets tried, in order, and what has been sent in the end is what sendto completed of that |
| Delivery.LostEndToEnd | generator/src/main.cpp:157-191 | For every interleaving, send result and order-keeping network, once stop has returned lost is the number of steps dropped, refused, failed, lost or rejected between the first and last accepted, and queue_dropped and send_errors are the steps refused and failed |
| Delivery.CanFinish | generator/src/main.cpp:157-178 | For every schedule and number of steps some interleaving gives the transmitter exactly the loop's packets and ends with its worker gone |
| Crc.Bitwise | protocol/src/telemetry.cpp:47-57 | The bit-at-a-time loop computes the shift-register checksum |
| Crc.BuildTable | server/src/crc32.ts:1-6 | The table holds eight shift steps of each index |
| Crc.TableDriven | server/src/crc32.ts:8-12 | The table-driven loop computes the same checksum on every byte sequence |
| Crc.TableStep | server/src/crc32.ts:8-12 | One table lookup is eight shift steps |
| Crc.BurstChangesChecksum | protocol/src/telemetry.cpp:47-57 | Two equal-length inputs whose differences lie within 32 consecutive bits have different checksums |
| Crc.FourBytesChangeChecksum | protocol/src/telemetry.cpp:47-57 | Rewriting up to four adjacent bytes changes the checksum |
| CrcGenerator.Division | protocol/src/telemetry.cpp:49-56 | For every register and bit sequence, the dividend is a multiple of the generator, whose exponents are 32, 26, 23, 22, 16, 12, 11, 10, 8, 7, 5, 4, 2, 1 and 0, plus what the register then holds |
| CrcGenerator.ChecksumIsRemainder | protocol/src/telemetry.cpp:47-57 | For every byte sequence, a number is its checksum exactly when its complement is the remainder by the generator of the message with its first 32 bits complemented and times the 32nd power |
| CrcCheckValue.CheckValue | protocol/tests/telemetry_test.cpp:62-67 | The checksum of "123456789" is 0xCBF43926 |
| Wire.WriteUnsigned | protocol/src/telemetry.cpp:9-16 | Writes the big-endian bytes at the running offset and nothing else |
| Wire.ReadUnsigned | protocol/src/telemetry.cpp:18-27 | Reads the big-endian value at the running offset |
| Wire.SerializeInto | protocol/src/telemetry.cpp:59-82 | The field-by-field writer produces the specified packet |
| Wire.DeserializeFrom | protocol/src/telemetry.cpp:84-118 | The field-by-field reader and its checks decide and decode as specified |
| Wire.DeserializeSerialize | protocol/src/telemetry.cpp:59-118 | Every telemetry record survives the wire |
| Wire.SerializeDeserialize | protocol/src/telemetry.cpp:59-118 | Every packet accepted is the serialization of the record it yields |
| Wire.AlteredPacketIsRejected | protocol/src/telemetry.cpp:95-99 | Altering an accepted packet within four adjacent bytes of 0 to 158 makes it rejected |
| ServerDecoder.DecodersAgree | server/src/telemetry.ts:12-35 | The TypeScript decoder accepts exactly what C++ accepts with a phase of 0 to 5 and finite floats, with the same fields |
| ServerDecoder.TimestampUnchanged | server/src/telemetry.ts:22-22 | The timestamp is unchanged exactly when it is a multiple of the spacing of doubles there, so always up to 2^53 |
| Doubles.NumberIsExact | server/src/telemetry.ts:22-22 | Rounding a 64-bit integer to a double keeps it exactly when it is a multiple of the spacing there |
| Doubles.NumberLosesOddTimestamps | server/src/telemetry.ts:22-22 | The first timestamp that is not kept, 2^53 + 1 |
| Doubles.NumberIsNearest | server/src/telemetry.ts:22-22 | Rounding gives the nearest double, and between two the one with the even significand |
| Doubles.NumberIsDouble | server/src/telemetry.ts:22-22 | What it gives has at most 53 significant bits |
| Doubles.FiniteExactlyWhen | server/src/telemetry.ts:33-34 | The bits taken for finite are those of the doubles below 2^1024 in magnitude |
| Doubles.FiniteSingle | server/src/telemetry.ts:33-34 | For singles, those below infinity without their sign |
| Doubles.BitsOrderMagnitudes | dashboard/src/mission-events.ts:31-34 | Without their sign, the bits of doubles are ordered like their absolute values |
| ServerDecoder.BothRejectAlteredPackets | server/src/telemetry.ts:12-17 | Both decoders reject a packet altered within four adjacent bytes |
| Sequence.SequenceTracker.Observe | server/src/sequence-tracker.ts:11-17 | The three tests of observe have the effect of one serial-number comparison |
| Sequence.LossAccounting | server/src/sequence-tracker.ts:11-17 | For every input, lost + observed = (unwrapped latest - first) + 1 + reordered |
| Sequence.LiftIsNearest | server/src/sequence-tracker.ts:13-16 | The unwrapping used is the only number in the half-range window with those low bits |
| Sequence.LatestIsHighest | server/src/sequence-tracker.ts:11-17 | For numbers of a 2^31 window in any order latest is the highest |
| Sequence.LostMinusReordered | server/src/sequence-tracker.ts:11-17 | If they are distinct and the lowest came first, lost - reordered is how many never arrived |
| Receiver.Receive | generator/src/receiver_main.cpp:98-128 | The receiver counts every datagram as valid or rejected and reports the tracker's losses |
| Receiver.Account | generator/src/receiver_main.cpp:116-128 | The else-if form of the accounting agrees with the tracker |
| CircularBuffer.CircularBuffer.Create | server/src/circular-buffer.ts:5-8 | Exactly the positive capacities give a buffer |
| CircularBuffer.CircularBuffer.Push | server/src/circular-buffer.ts:15-20 | The contents become the last capacity elements of contents plus the value |
| CircularBuffer.CircularBuffer.Clear | server/src/circular-buffer.ts:10-14 | The contents become empty |
| CircularBuffer.CircularBuffer.ToArray | server/src/circular-buffer.ts:21-23 | The array is the contents, oldest first |
| CircularBuffer.LastOfLast | server/src/circular-buffer.ts:15-20 | Cutting off early and cutting off at the end keep the same elements |
| TelemetryServer.TelemetryServer.AcceptPacket | server/src/server.ts:43-69 | For every packet: received = valid + rejected, history is the last capacity samples since the restart, metrics are the tracker's, and reset precedes a restarting sample |
| TelemetryServer.SegmentSinceRestart | server/src/server.ts:43-69 | After every packet stream the segment is what decoded, and how many did not, since the last restart |
| TelemetryServer.RestartExactlyWhen | server/src/server.ts:50-53 | A sample restarts exactly when it follows one more than a second later, or is a zero after samples other than a first zero, zeroes and numbers of 2^31 and above |
| TelemetryServer.FlightIsOneSegment | server/src/server.ts:43-69 | Samples that arrive in any order, at most the first of them a zero and none more than a second older than the one before it, never restart: the segment is all of them and the metrics are the tracker's over all of them |
| FlightStream.ArrivalIsOneFlight | server/src/server.ts:50-53 | The packets of every default flight, if only the first to arrive can be that of step 0 and none is overtaken by one more than 100 steps later, are such samples |
| FlightStream.FlightMetrics | server/src/server.ts:43-69 | Whatever else is rejected between them, the server never restarts and its metrics are the tracker's over the steps in their order of arrival |
| Generator.Run | generator/src/main.cpp:147-174 | The main loop follows the flight of the loss flags, shows the tracker exactly the arriving packets, so that lost is what was missed by cause between the first and last of them, and lands |
| Generator.ArrivedExactly | generator/src/main.cpp:157-167 | The arriving steps are exactly those not dropped on a tenth step under packet loss whose packet gets through, each once, in order |
| Generator.LostIsMissing | server/src/sequence-tracker.ts:11-17 | With in-order arrival lost is never more than what is missing, and exactly that if and only if every gap is below 2^31 |
| Generator.LostByCause | generator/src/main.cpp:157-167 | For any number of steps lost is at most the sum of dropped, refused, failed, lost and rejected steps between first and last accepted, and equal exactly when every gap is below 2^31 |
| Generator.LostInFlight | generator/src/main.cpp:147-167 | In a flight, which is never longer than 206484 steps, it is equal without condition |
| Generator.LongGapGoesUnreported | server/src/sequence-tracker.ts:11-17 | The tracker reports nothing lost between 0 and 2^31 |
| Generator.PacketLossThroughout | generator/src/main.cpp:164-167 | With packet loss on throughout and nothing else lost, lost is the number of multiples of ten below the last accepted step |
| Generator.PacketCarriesRecord | generator/src/main.cpp:161-162 | An unaltered packet shows the server the record that was serialized |
| FlightTelemetry.PhaseShown | generator/src/main.cpp:20-31 | Every accepted packet whose phase byte is that of a flight phase shows the phase of the same name |
| FlightTelemetry.StateShown | generator/src/main.cpp:33-61 | The sample made of a state has its phase, the true position and velocity in double precision, the step's number and the flags |
| FlightTelemetry.ActuatorsShown | generator/src/main.cpp:44-60 | And its attitude, fin deflections and the gimbal angles of its thrust, in single precision |
| FlightTelemetry.ThrustShown | generator/src/main.cpp:36-51 | Thrust is shown in percent of 300 kN and as a chamber pressure of 12 MPa at full thrust |
| FlightTelemetry.MeasuredShown | generator/src/main.cpp:42-71 | The measured position and velocity are the true ones, or under sensor noise off by up to 3 m, 0.6 m/s, 8 m and 1.5 m/s, and by exactly that where the sine is one |
| FlightTelemetry.StampShown | generator/src/main.cpp:40-40 | The sample of state n is stamped with 10000 n microseconds while a double holds them |
| FlightTelemetry.ShownPhasesAdvance | server/src/telemetry.ts:18-19 | Along every flight the phases the server shows never go back and advance by at most one a step |
| Generator.CorruptOnceIsRejected | generator/src/main.cpp:163-163 | The packet altered by --corrupt-once is rejected by both decoders |
| TelemetryUtils.DisplaySamples | dashboard/src/telemetry-utils.ts:27-35 | For every stride the loop retains what the retention test keeps, and the newest sample |
| TelemetryUtils.RetainedIsCurrent | dashboard/src/telemetry-utils.ts:21-25 | After any number of samples the last retained one has the phase and faults of the last one seen |
| TelemetryUtils.EveryFifthIsKept | dashboard/src/telemetry-utils.ts:21-27 | With the default stride, of samples in one phase with unchanged flags every fifth number is kept |
| TelemetryUtils.RetainedAreOutstanding | dashboard/src/telemetry-utils.ts:21-32 | The test, which looks at the last sample retained, keeps exactly the samples that stand out from the one just before: the first, the multiples of the stride, the landed ones and every change of phase or faults |
| TelemetryUtils.ShownExactly | dashboard/src/telemetry-utils.ts:21-35 | Display is exactly those samples in order, and the newest if it is not one of them |
| TelemetryUtils.ShownEndsWithNewest | dashboard/src/telemetry-utils.ts:27-35 | Display ends with the newest sample |
| TelemetryUtils.ChartSamples | dashboard/src/telemetry-utils.ts:37-44 | For every maximum a chart is the whole of a short list, and of a long one every stride-th sample and the newest, at most one above a positive maximum |
| MissionEvents.DeriveMissionEvents | dashboard/src/mission-events.ts:26-63 | The loop derives the phase and fault events of each sample against its predecessor, in order |
| MissionEvents.ChangedFlag | dashboard/src/mission-events.ts:46-48 | The exclusive or of two flag words shows exactly the flags that differ |
| MissionEvents.TouchdownBySpeed | dashboard/src/mission-events.ts:31-34 | With the bits decoded to a number, a touchdown is soft up to 3 m/s, hard up to 8 m/s and an impact above |
| MissionEvents.LoggedExactly | dashboard/src/mission-events.ts:11-60 | The log holds exactly the phase entries but for prelaunch, and the changes of the flags 1, 2 and 4, each with its label and severity: info but for a hard landing (warning), an impact (critical), an active thruster loss (critical) and other active faults (warning) |
| MissionEvents.StepInOrder | dashboard/src/mission-events.ts:30-60 | Of one sample the phase entry comes first and then the faults in the order of their flags |
| MissionEvents.DecimationKeepsLog | dashboard/src/mission-events.ts:26-63 | For every sample list the displayed samples yield the same events in order, id, time, sequence and category, and equal but for touchdown grades |
| MissionEvents.WholeLogKept | dashboard/src/mission-events.ts:31-34 | The logs are entirely equal exactly when each touchdown is graded alike by the sample just before it and by the last one before it that stands out |
| MissionEvents.TouchdownGradeCanDiffer | dashboard/src/mission-events.ts:31-34 | A touchdown whose grade decimation changes |
| NominalFlight.NominalLog | dashboard/src/mission-events.ts:11-44 | The log of a default flight without faults, decoded from its packets up to the landing, is lift-off, engine cutoff, apogee, landing-burn ignition and soft touchdown, in this order and with nothing else |
| UseTelemetry.TelemetryHook.OnMessage | dashboard/src/useTelemetry.ts:80-103 | What each stream message does to the batch; and a hook that stands for an unbatched view stands for the view after the message |
| UseTelemetry.TelemetryHook.Flush | dashboard/src/useTelemetry.ts:30-50 | What a frame shows of the batch: the last 2000 samples and the metrics of the unbatched view the hook stands for |
| UseTelemetry.BatchingIsInvisible | dashboard/src/useTelemetry.ts:30-103 | For any interleaving of messages and frames a flush shows the last 2000 samples and the metrics of the unbatched reducer |
| UseTelemetry.SchedulesAgree | dashboard/src/useTelemetry.ts:30-103 | Two frame schedules of the same messages agree after a final flush |
| UseTelemetry.StreamKeepsLog | dashboard/src/useTelemetry.ts:80-100 | The log of the decimated stream is that of the whole stream but for touchdown grades |
| StreamAgreement.NeverFiresExactlyWhen | dashboard/src/telemetry-utils.ts:14-19 | For every stream and whenever a client joins, it holds the end of the server's segment, and its restart test never fires exactly when no packet is a zero that follows another number without the server seeing a restart |
| StreamAgreement.TakenForNewExactlyWhen | server/src/server.ts:50-68 | Such a packet comes exactly while the tracker's latest is zero and the clock is not a second back |
| StreamAgreement.SameTestAfterOne | dashboard/src/telemetry-utils.ts:14-19 | After a single sample the dashboard's restart test is the server's |
| StreamAgreement.ServerResetComesFirst | server/src/server.ts:50-68 | For sequences below 2^31 the client's restart test never fires |
| StreamAgreement.ClientCanFireAlone | dashboard/src/telemetry-utils.ts:14-19 | The stream of the numbers 0, 2^31, 0 makes it fire |

## Left out

- Sockets, `select`, `accept`, `recv` error codes, timers and signals: only their effects are modelled, as receive, deliver, cut, finish, abandon and connect events; one `send` of a response is delivered in pieces but is not refused.
- ControlServer.ControlServer.Run: takes what the clients send as lists; running is cleared after a given number of accepts and receives instead of by another thread, and waiting without data is left out.
- Reusing a command id while it is pending, and a restart of the simulator process: the control theorems assume distinct ids and one simulator lifetime.
- Floating-point rounding, NaN and infinity in the flight model: reals and exact roots. The gimbal angles are kept as the thrust vector whose `atan2` they are.
- Stepping a configuration with a non-positive gravity, dry mass or fin limit, a negative thrust, mass flow or ascent acceleration, or an initial mass below the dry mass: the step would divide by zero, gain mass or ask for more thrust sideways than there is.
- FlightTelemetry.StateShown: the roundings to single and double precision, `std::sin` and the angles of `std::atan2` are parameters, and a timestamp beyond 64 bits wraps.
- Printing, pacing and command-line parsing of the generator: no part of the properties proved.
- The accuracy of the landing point and the horizontal touchdown speed of the one nominal flight: numbers of a single deterministic run.
- Weak memory: the queue's acquire and release pairs are modelled as sequentially consistent single accesses.
- `Generator` takes the outcome of each packet as an arbitrary function of its step; `Delivery` takes it from an interleaving of `Transmitter`, but that the packets tried are those of the loop is a premise there (one `Delivery.CanFinish` meets), and the network keeps their order.
- Generator.Run: observes the sequence number of an arriving packet directly; that the packet carries it is `PacketCarriesRecord`.
- Receiver.Receive: takes the datagrams as a list, without the socket and the stop signal.
- Counters wider than their machine words: lost, reordered, received and the transmitter's counters do not wrap.
- ServerDecoder.TimestampUnchanged: timestamps are integers after rounding to a double; the addition of one second in the restart tests is exact, which holds below 2^53.
- React's deferral of the `setSamples` updater, and the latency and last-packet states: the updater is treated as running at the call.
- JSON and the WebSocket, status and acknowledgement messages to browsers: messages are an ordered list of decoded stream messages.
- TelemetryUtils.DisplaySamples: strides are integers; sample objects are told apart by their place in the list.
- TelemetryUtils.ChartSamples: maxima are integers.
- `speedMps`, `dynamicPressureKpa`, rendering, the 3D view and styles: display only.
