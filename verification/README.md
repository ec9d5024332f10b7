# Verified model of the av3-fc flight computer

A Dafny model of the PSAS flight computer's datagram handling, and proofs of what it does over whole runs. Bytes are
integers 0..255; 16-, 32-, 48- and 64-bit wrap-around is written out where the C code has it; doubles are reals.

| module | models |
|---|---|
| `Bytes`, `PsasTime` | big-endian numbers, the XOR of the GPS checksum, the 48-bit nanosecond time |
| `VenusFrames`, `VenusGuarantees` | the GPS byte stream: which frames are taken, and what that guarantees |
| `VenusFramer` | the 512-byte buffer that is scanned and compacted in place |
| `LogFormat`, `LogBatching` | log records, their grouping into numbered batches, optimality of the grouping |
| `Logger` | the disk and network buffers filled in lockstep |
| `SequenceTracking`, `Ethmux` | per-source sequence numbers, reports and deliveries |
| `Commands`, `Arm`, `RollControl`, `FinLaw`, `RollServo` | command datagrams, sensor lock, servo enable, control loop, fin law, servo commands |
| `FlightSafety`, `FlightControl` | arming, enable and flight timeout over all message histories, and the objects that run them, down to the servo datagrams |
| `StateEstimator` | launch detection and IMU integration |
| `Routing`, `FlightComputer` | all of it connected as in `main.miml`, from datagrams to log calls and servo commands |
| `ControlHistory` | arming, enable, integrator and every servo command as functions of the messages received |
| `FlightLog`, `FlightRecords` | what the log file and log datagrams hold after a flight |
| `FlightSystem` | one object that runs demultiplexer, framer, estimator, flight control and logger together |

Code that updates variables in place is a class (or a method over an array) whose `Valid()` ties its fields to a pure
specification applied to the ghost history of calls; the theorems are lemmas about that specification. Outputs (log file,
datagrams, signals, servo commands) are sequences that only grow. Clock readings are parameters. `sqrt` and `exp` are
parameters of which only `FinLaw.Lawful` is assumed: a square root is non-negative and squares back, an exponential is positive.
`FlightSafety`, `ControlHistory` and `FlightComputer` take the canard law as a parameter, so that safety holds whatever it is;
`FlightControl` and `FlightSystem` run with `FinLaw.LawOf`.

`dafny verify dfyconfig.toml` checks the project.

## What the model shows about the code

- The GPS framer copies a payload into a 512-byte buffer without checking that it fits (`src/devices/gps.c:122-128`), and
  datagrams of up to 1500 bytes are let through (`src/ethmux.c:25-29`). Every payload handed on fits if and only if each GPS
  datagram has at most 516 bytes or an old number (`FlightComputer.WithinBuffersExactly`); one datagram of 517 bytes does
  not (`FlightComputer.OversizeGpsHandedOn`). Theorems about runs suppose that condition (`FlightComputer.WithinBuffers`).
- An empty Venus packet (`A0 A1 00 00 00 0D 0A`) passes every test of `src/devices/gps.c:67-102` and is sent with length
  65535 (`VenusGuarantees.EmptyPacketAccepted`). The length sent is the number of data bytes if and only if the packet is
  not empty (`VenusGuarantees.LengthArgument`). Every log call of a run meets the logger's size precondition if and only if
  no such frame is read (`FlightComputer.LoggerPreconditionsExactly`); a run of one datagram breaks it
  (`FlightComputer.EmptyPacketLogged`). Theorems about runs suppose that too (`FlightComputer.Defined`).
- The sensor lock reads the byte after the ID of a V8A8 message as its fix mode whatever the length (`src/arm.c:52-55`). It
  is a data byte if and only if the packet has at least two bytes (`Routing.FixByteIsNextByte`); a bare A8 frame, without
  any fix field, turns the lock on (`Routing.BareA8Locks`).
- A valid frame is sent within 259 bytes of its start unless an earlier accepted frame overlaps it, and 259 is the best
  bound (`VenusGuarantees.BoundedResync`, `ResyncWindowIsTight`).
- `"#"` and the empty command select ARM, because commands are compared over the shorter of command and datagram
  (`Arm.AmbiguousCommands`); a datagram that is the whole command followed by anything but NUL selects nothing
  (`Commands.SelectsIsPrefix`). The comment at `src/arm.c:71-76` lists only the full words; the model follows the code.
- `src/arm.c:31-33` reads the accelerations in host order (little-endian here), `src/state.c:35` in network order; no packet
  is upright in both readings (`Routing.ReadingsDisagree`).
- An old packet moves the expected number backwards (`src/ethmux.c:51-62`), after which a number can be delivered twice
  (`SequenceTracking.RedeliveryAfterOld`). That happens if and only if two well-sized packets carry one number and neither
  is below the number it is held against, one more than that of the well-sized packet before it
  (`SequenceTracking.RedeliversExactly`).

## Model

The rows marked **Theorem** come first: they speak of every input, run or reachable state. The lemmas after them are their
parts, exact conditions and concrete counterexamples; the methods at the end refine the specifications these are about.

| member | source | states |
|---|---|---|
| `VenusFrames.ParseIsTheReading` | src/devices/gps.c:49-114 | **Theorem.** every stream has exactly one reading (disjoint valid frames, every other earlier position decided and no frame start, stop at the end or an undecided position), and parsing yields its messages and its unfinished bytes |
| `VenusFrames.ChunkingIndependence` | src/devices/gps.c:47-133 | **Theorem.** two ways of cutting one stream without overruns send the same messages and leave the same bytes |
| `VenusFrames.OverrunStartsAfresh` | src/devices/gps.c:122-126 | **Theorem.** with datagrams of at most 512 bytes, the messages before the first overrun are those of the bytes before it, and from it on everything is as from an empty buffer |
| `VenusGuarantees.RoundTrip` | src/devices/gps.c:31-133 | **Theorem.** framed messages in any datagrams of at most 249 bytes come out unchanged and in order, leaving an empty buffer |
| `VenusGuarantees.BoundedResync` | src/devices/gps.c:67-109 | **Theorem.** a complete valid frame has been sent once the stream extends 259 bytes past its start, or an earlier accepted frame overlaps it |
| `VenusGuarantees.EmptyMessageExactly` | src/devices/gps.c:77-133 | **Theorem.** over any datagrams, an empty packet's message is sent iff the reading of some scanned buffer holds a frame of packet length 0 |
| `LogBatching.EndToEnd` | src/logger.c:123-201 | **Theorem.** after the final flush of any calls and timer flushes the file decodes; its k-th SEQN record stands after batches 0 to k-1, carries the batch's stamp and k mod 2^32, and is followed by the messages of batch k; datagram k carries the same number and decodes to the networked messages of batch k, within the MTU; and the batches concatenate to the messages logged |
| `LogBatching.GreedyIsOptimal` | src/logger.c:165-201 | **Theorem.** the batches are a cut into consecutive groups fitting both buffers with a boundary wherever a timer flush writes a batch; no such cut with all these boundaries has fewer groups than numbers are used, and one that lacks some has at most that many fewer |
| `LogBatching.GreedyIsMinimal` | src/logger.c:165-201 | **Theorem.** without timer flushes the numbers used are the minimum |
| `SequenceTracking.TraceRecoveryInterleaved` | src/ethmux.c:65-133 | **Theorem.** number and fate of every packet of every source are recovered from its first expected number and the combined outputs of all |
| `SequenceTracking.RedeliversExactly` | src/ethmux.c:51-62 | **Theorem.** a number is delivered twice iff two well-sized packets carry it and each is at least the number it is held against |
| `SequenceTracking.Accounting` | src/ethmux.c:47-62 | **Theorem.** final expected number = initial + well-sized packets + sum of (received - expected) over reports, modulo 2^32 |
| `SequenceTracking.SilenceMeansLossless` | src/ethmux.c:51-62 | **Theorem.** nothing is reported iff the packets are well sized and consecutively numbered, and then all are delivered |
| `SequenceTracking.NonInterference` | src/ethmux.c:65-133 | **Theorem.** one source's outputs and expected number do not depend on other traffic |
| `FinLaw.EstimateMonotone` | src/rollcontrol.c:128-169 | **Theorem.** for a fixed flight state the angle is non-decreasing in the demand over all reals |
| `FinLaw.EstimateMeetsDemand` | src/rollcontrol.c:128-169 | **Theorem.** outside the dead zone the angle is not zero and has the demand's sign; outside the transonic range too it yields exactly the demanded torque, with barometric density, velocity squared and the inertia of the burn written out |
| `FinLaw.EstimateTransonic` | src/rollcontrol.c:157-161 | **Theorem.** for 265 < v < 330 the angle is as far from the subsonic angle towards the supersonic one as v is from 265 towards 330, hence between them; both angles are given by the torque they yield |
| `FlightSafety.SensorHistory` | src/arm.c:27-61 | **Theorem.** in every run the upright count is min(100, trailing upright run), the GPS lock is the verdict on the byte after the ID of the latest V8A8, the lock follows the latest lock command |
| `FlightSafety.TimeoutSafety` | src/rollcontrol.c:172-203 | **Theorem.** every command that leaves the servo powered answers an enabled VSTE message, in flight at most 120 s after the latest disconnection |
| `FlightSafety.TimeoutDisables` | src/rollcontrol.c:184-196 | **Theorem.** conversely, once a state message comes later than that, the servo is disabled and the last command sent, if any, says so |
| `FlightSafety.DisableLatch` | src/rollcontrol.c:63-102 | **Theorem.** whenever the servo is not enabled the last command sent disabled it |
| `FlightSafety.QuietUntilSignal` | src/rollcontrol.c:184-203 | **Theorem.** once disabled while armed nothing is sent and nothing changes until an ARM or SAFE signal, test commands included |
| `FlightSafety.ArmedDisabledMeansTimeout` | src/rollcontrol.c:184-196 | **Theorem.** armed but disabled happens only through the timeout, with no signal since |
| `FlightSafety.SafeLasts` | src/arm.c:102-106 | **Theorem.** after a datagram whose bytes select SAFE, through any messages that make no ARM signal and hold no test ENABLE, the servo stays disarmed and disabled and every command sent disables it |
| `FlightSafety.EnabledMeansArmed` | src/rollcontrol.c:274-292 | **Theorem.** unless a test datagram selected ENABLE, the servo is enabled only while armed |
| `FlightSafety.RunAntiWindup` | src/rollcontrol.c:234-243 | **Theorem.** from any reachable state, n controlled messages with error at least e lift the integrator to min(10000, n*e - 10000) |
| `ControlHistory.CommandsExactly` | src/rollcontrol.c:184-292 | **Theorem.** in every run one more message adds exactly the servo commands its history calls for: none, a disable (SAFE, test DISABLE while not armed, timeout), or the clamped canard angle for -5 times the roll rate plus a hundredth of the integral |
| `ControlHistory.ControlOfRun` | src/rollcontrol.c:184-292 | **Theorem.** in every run armed, enabled and the integrator are functions of the history: enabled is the latest among ARM, SAFE, the test commands received while not armed, and the timeout |
| `ControlHistory.ControlledCommands` | src/rollcontrol.c:216-250 | **Theorem.** consecutive controlled state messages get exactly one command each, none disabling, the k-th with the angle clamp(estimate(-5 r_k + 0.01 I_k)), I_k being the integrator before it |
| `ControlHistory.RollMonotone` | src/rollcontrol.c:216-250 | **Theorem.** of two histories that differ only in the last roll rate, the one with the higher rate gets no more servo ticks, within 18481..31923 |
| `FlightControl.FlightControl.ServoDatagrams` | src/devices/rollservo.c:39-61 | **Theorem.** after any messages the k-th servo datagram decodes to k mod 2^32 and the ticks and flag of the k-th command of the run; while the servo is not enabled the last datagram written disables it |
| `StateEstimator.IntegratorHistory` | src/state.c:30-60 | **Theorem.** launch latches at the first reading above 40, before which nothing changes; velocity, altitude and roll angle are the sums over the readings since; flight time counts from it |
| `StateEstimator.LaunchTelescopes` | src/state.c:43-46 | **Theorem.** the time integrated since launch is the time since the last reading before it |
| `StateEstimator.ConstantAcceleration` | src/state.c:45-51 | **Theorem.** n equal steps dt at acceleration a, counted from any reading after launch or from the last one before it, add n*a*dt to velocity and n*v*dt + a*dt*dt*n*(n+1)/2 to height |
| `FlightComputer.WithinBuffersExactly` | src/devices/gps.c:122-128 | **Theorem.** over a run of received datagrams, every GPS payload handed on fits the 512-byte buffer iff each GPS datagram has at most 516 bytes or is old when its turn comes |
| `FlightComputer.LoggerPreconditionsExactly` | main.miml:15-77 | **Theorem.** in every run within the buffers, every message routed from a datagram meets the logger's size precondition iff no reading of a scanned GPS buffer holds a frame of packet length 0; without overruns, iff the reading of the GPS byte stream holds none; servo, arming and version records always fit |
| `FlightComputer.GpsLockIndependentOfChunking` | main.miml:49-60 | **Theorem.** without overruns the GPS lock depends only on the bytes the GPS sent, not on datagram boundaries or other traffic: it is on iff the latest A8 frame of their reading has a byte of at least 2 after its ID |
| `FlightComputer.ArmedExactly` | src/arm.c:89-101 | **Theorem.** in every run, a datagram makes an ARM signal iff it comes on the ARM port, is a prefix of "#YOLO" and NUL or begins with them, and the latest lock command switched the lock off, or the last 100 IMU packets delivered were upright (raw bytes 8 to 13) and the latest A8 frame of the GPS stream has a byte of at least 2 after its ID |
| `FlightComputer.PoweredOnlyInTime` | main.miml:15-77 | **Theorem.** in every run, a servo command that leaves the servo powered answers a delivered IMU datagram, in flight one stamped at most 120 s after the umbilical datagram that last reported a disconnection |
| `FlightComputer.PoweredFor` | main.miml:15-77 | **Theorem.** over a whole run, the k-th servo command, if it leaves the servo powered, was made for such a datagram |
| `FlightComputer.DisabledInTime` | src/rollcontrol.c:184-196 | **Theorem.** and once an IMU datagram stamped later than that is delivered, the servo is disabled and the last command sent, if any, says so |
| `FlightComputer.ImuCommands` | main.miml:16-19 | **Theorem.** a delivered IMU datagram makes no servo command while the servo is not enabled, a disable if it is late, and otherwise exactly one, for the canard angle at the new estimate |
| `FlightComputer.SafeHolds` | src/arm.c:102-106 | **Theorem.** in every run, after an ARM-port datagram that is a prefix of "#SAFE" and NUL of at least two bytes or begins with them, and through any later ones that select neither ARM nor a test ENABLE, the servo stays disarmed and disabled and every command sent disables it |
| `FlightLog.FlightIsLogged` | main.miml:15-77 | **Theorem.** whatever servo, arming and version records and timer flushes come between, after the final flush the file decodes to exactly the records of the datagrams received, with payload, in order, and the log datagrams to those that go to the ground |
| `FlightLog.SourceIsLogged` | src/ethmux.c:41-63 | **Theorem.** for every source but the GPS, the file's records with its ID are the packets delivered from its own datagrams in order, and all of them if these are well sized and numbered consecutively from 0 |
| `FlightLog.GpsIsLogged` | src/devices/gps.c:104-109 | **Theorem.** the file's records under a Venus ID hold the data of the GPS byte stream's messages with that ID byte, in order |
| `FlightRecords.SourceOnGround` | main.miml:15-48 | **Theorem.** for every source but the GPS, the ground's records with its ID are the packets delivered from its own datagrams in order, except JGPS, which has none |
| `FlightRecords.GpsOnGround` | src/filter.c:4-16 | **Theorem.** the ground's records under a Venus ID hold the data of the stream's A8 messages in order for V8A8, and there are none for the others |
| `FlightRecords.ReportsAreLogged` | src/ethmux.c:31-39 | **Theorem.** the SEQE records of the file and of the ground are the reports made in the run in order, each reading as port, expected and received number |
| `FlightSystem.FlightSystem.ServoBytes` | main.miml:15-77 | **Theorem.** after any calls on the whole system, the k-th servo datagram decodes to k mod 2^32 and the ticks and flag of the k-th command of the run of datagrams received, and if it leaves the servo powered it was sent for a delivered IMU datagram, in flight one stamped in time |
| `FlightSystem.FlightSystem.Finish` | main.miml:15-77 | **Theorem.** after any calls on the whole system and the final flush, the log file decodes, and its records in order and with payload are those of the datagrams received, of the arming signals sent and of the servo commands; the datagrams to the ground decode to the networked records of the datagrams received |
| `PsasTime.WrapKeepsStamp` | src/utilities/utils_time.c:14-21 | the 64-bit unsigned wrap-arounds do not show in the six bytes kept |
| `PsasTime.DecodeStamp` | src/utilities/utils_time.c:11-34 | decoding an encoded time gives it back modulo 2^48, for every time |
| `PsasTime.StampsAgree` | src/utilities/utils_time.c:11-34 | two stamps are equal exactly when the times differ by a multiple of 2^48 ns |
| `PsasTime.ComparableWithinWindow` | src/utilities/utils_time.c:24-34 | decoded stamps subtract like the times exactly while the later one has not wrapped |
| `VenusFrames.ParseConcatFrom` | src/devices/gps.c:47-115 | parsing a + b is parsing a, then what a left unfinished followed by b |
| `VenusFrames.FeedAllIsParse` | src/devices/gps.c:120-133 | without overruns, any list of datagrams has the effect of its concatenation |
| `VenusFrames.RestSettled` | src/devices/gps.c:67-114 | what stays in the buffer is empty or an undecided A0 start of at most 262 bytes |
| `VenusFrames.SmallChunksFit` | src/devices/gps.c:122-129 | datagrams of at most 249 bytes never trigger the overrun drop |
| `VenusGuarantees.ParseFrames` | src/devices/gps.c:77-109 | a concatenation of encoded frames parses to exactly the encoded messages with nothing left |
| `VenusGuarantees.AcceptedFrameIsEncoding` | src/devices/gps.c:77-107 | an accepted non-empty frame is byte for byte the encoding of the message sent for it |
| `VenusFrames.FrameExactly` | src/devices/gps.c:71-102 | the tests for a frame byte by byte, the checksum byte having at each bit the parity of the packet's bits |
| `VenusFrames.CheckXorIs` | src/devices/gps.c:31-37 | the checksum is the one byte whose k-th bit is set iff an odd number of the bytes have it |
| `VenusGuarantees.CorruptByteRejected` | src/devices/gps.c:97-102 | changing any one byte of a frame's packet or checksum makes it invalid |
| `VenusGuarantees.ResyncWindowIsTight` | src/devices/gps.c:67-88 | a stream one byte short of the window in which a valid frame is still held back |
| `VenusGuarantees.LengthArgument` | src/devices/gps.c:77-107 | the length argument equals the number of data bytes iff the packet is not empty; for an empty one it is 65535 and the ID byte is 0 |
| `VenusGuarantees.EmptyPacketAccepted` | src/devices/gps.c:77-107 | the seven-byte empty frame is accepted |
| `VenusGuarantees.ParsedMessages` | src/devices/gps.c:77-107 | every message parsed carries the length of its data or is that of an empty packet, and one of these is sent iff the stream's reading holds a frame of packet length 0 |
| `VenusGuarantees.EmptyMessageInStream` | src/devices/gps.c:77-133 | without overruns, an empty packet's message is sent iff the reading of the whole stream holds a frame of packet length 0 |
| `VenusFramer.WalkOverHeader` | src/devices/gps.c:71-102 | skipping one or two bytes of a rejected header jumps over no frame start |
| `VenusFramer.WalkOverJunk` | src/devices/gps.c:53-65 | searching for the next A0 jumps over no frame start |
| `LogFormat.DecodeEncodeAll` | src/logger.c:178-188 | a stream of formatted messages decodes by its headers to exactly those messages |
| `LogBatching.EncodedSizes` | src/logger.c:123-126 | buffer sizes are the batch's sizes, network bytes never exceed disk bytes, and only the empty batch has no disk bytes |
| `LogBatching.Conservation` | src/logger.c:123-201 | through any calls and timer flushes, closed batches then open batch are the logged messages in order; every batch fits both buffers and none written is empty |
| `LogBatching.WriteKeeps` | src/logger.c:165-201 | a log call adds its message at the end and uses at most one number |
| `LogBatching.DiskDecodes` | src/logger.c:128-143 | the log file decodes to SEQN 0, batch 0, SEQN 1, batch 1, ... |
| `LogBatching.FileIsNumbered` | src/logger.c:128-149 | the k-th number of the file stands after batches 0 to k-1, reads k mod 2^32 as the k-th datagram's does, and precedes the messages of batch k |
| `LogBatching.PacketReads` | src/logger.c:145-149 | datagram k carries number k mod 2^32 and decodes to exactly the networked messages of batch k, within the MTU |
| `LogBatching.GreedyStaysAhead` | src/logger.c:165-201 | at every point no cut into fitting groups, not counting the flushes it misses, has fewer groups than numbers are used, nor as many with an emptier last group |
| `LogBatching.NoneMissed` | src/logger.c:203-209 | the batches have a boundary wherever a timer flush writes one |
| `SequenceTracking.TraceRecovery` | src/ethmux.c:41-63 | number and fate of every packet are recovered from the first expected number and the ordered outputs |
| `SequenceTracking.ZeroReport` | src/ethmux.c:42-45 | a report with both numbers zero is made exactly for wrong-length packets |
| `SequenceTracking.MpuNeverDelivered` | src/ethmux.c:25-29 | no MPU packet fits its expected length in the receive buffer |
| `SequenceTracking.ForwardDeliveriesIncrease` | src/ethmux.c:51-62 | if no well-sized packet is numbered below what it is held against and none is 2^32-1, numbers strictly increase and none is delivered twice |
| `SequenceTracking.RedeliveryAfterOld` | src/ethmux.c:51-62 | packets 5, 4, 5 with 5 expected deliver number 5 twice |
| `SequenceTracking.DeliveredExactly` | src/ethmux.c:51-62 | packet i is delivered iff it is well sized and its number is at least that of the latest well-sized packet before it plus one (or the initial expected number), and then under its own number |
| `Commands.SelectsIsPrefix` | src/arm.c:12-13 | a datagram selects a command iff one of datagram and NUL-terminated command is a prefix of the other |
| `Arm.UprightCounts` | src/arm.c:23-34 | the upright test in raw counts: -330..-271, -30..30, -30..30 |
| `Arm.AmbiguousCommands` | src/arm.c:89-120 | only the empty datagram and "#" select two commands, and they arm; the lock commands never collide |
| `Arm.CommandBytes` | src/arm.c:89-120 | the datagrams that select each of the four commands, by their bytes |
| `FinLaw.InertiaDecreases` | src/rollcontrol.c:140-145 | inertia falls from 0.086 to 0.077 during the burn, without a jump at its end |
| `FinLaw.SubsonicInverts` | src/rollcontrol.c:108-113 | the subsonic angle is the one non-negative angle at which the quadratic fit yields the demanded torque |
| `FinLaw.SupersonicInverts` | src/rollcontrol.c:118-122 | the supersonic angle is the one at which the linear model yields the demanded torque |
| `FinLaw.BlendBetween` | src/rollcontrol.c:157-161 | the blend lies between the two models and equals them at 265 and 330 |
| `FinLaw.FinAngleMonotone` | src/rollcontrol.c:154-163 | in each regime the angle is non-negative and non-decreasing in the demand |
| `FinLaw.EstimateOdd` | src/rollcontrol.c:128-169 | opposite demands get opposite angles |
| `FinLaw.EstimateDeadZone` | src/rollcontrol.c:134-136 | for a demand below 1 or a velocity below 1 m/s the angle is zero |
| `RollControl.AntiWindup` | src/rollcontrol.c:234-243 | the integrator stays within limits and after n errors of at least e is at least min(limit, start + n*e) |
| `RollControl.TestCommandBytes` | src/rollcontrol.c:274-292 | what a test datagram does while not armed, by its bytes |
| `RollControl.Unsaturated` | src/rollcontrol.c:234-243 | while no limit is reached the integrator is the exact sum of the errors |
| `RollControl.AntiWindupBelow` | src/rollcontrol.c:234-243 | and after n errors of at most -e at most max(-10000, start - n*e) |
| `RollControl.PipelineMonotone` | src/rollcontrol.c:216-250 | for a fixed flight and controller state servo ticks are non-increasing in roll rate and within the pulse limits |
| `RollServo.TickScale` | src/devices/rollservo.c:27-44 | the pulse limits are 18481 and 31923 ticks, centre 25202 |
| `RollServo.ClampedAngleConverts` | src/devices/rollservo.c:42-47 | for a clamped angle the 16-bit conversion does not wrap, the tick clamp changes nothing over the reals, and both limits are met |
| `RollServo.TicksMonotone` | src/devices/rollservo.c:46-47 | ticks are non-decreasing in the angle |
| `RollServo.TicksAre` | src/devices/rollservo.c:41-47 | for an angle within 15 degrees the ticks are 25202 + 6721*angle/15 rounded down |
| `RollServo.CommandRoundTrip` | src/devices/rollservo.c:49-56 | the seven bytes decode to number, ticks and disable flag |
| `FlightSafety.TrailingMeans` | src/arm.c:34-39 | the trailing run of upright samples reaches n iff the last n samples exist and are upright |
| `FlightSafety.ArmingRule` | src/arm.c:89-101 | a message makes an ARM signal iff its bytes select ARM and the lock is off, or the last 100 samples were upright and the byte after the ID of the latest V8A8 message was at least 2 |
| `FlightSafety.ArmedReflectsLastSignal` | src/rollcontrol.c:253-260 | armed iff the last signal forwarded was ARM |
| `FlightSafety.SafeAlwaysWorks` | src/arm.c:102-106 | a datagram whose bytes select SAFE disarms, disables and tells the servo so |
| `FlightSafety.LaunchHistory` | src/rollcontrol.c:172-182 | launched follows the umbilical, and the timeout is 120 s after the latest disconnection |
| `FlightSafety.StatesIntegrate` | src/rollcontrol.c:234-243 | consecutive controlled state messages integrate exactly their errors |
| `ControlHistory.IntegralUnsaturated` | src/rollcontrol.c:234-243 | while no limit is reached the integrator is its initial value less the sum of the roll rates controlled since |
| `FlightSafety.RunAntiWindupBelow` | src/rollcontrol.c:234-243 | n controlled messages with error at most -e bring the integrator down to max(-10000, 10000 - n*e) |
| `FlightSafety.ControlBounds` | src/rollcontrol.c:88-102 | in every run the integrator is within its limits and every angle sent is within 15 degrees and convertible |
| `StateEstimator.StepsTelescope` | src/state.c:43-46 | with non-decreasing times the integration steps add up to the time since their origin |
| `StateEstimator.SecondsBackward` | src/state.c:46-48 | a time that goes back counts as almost 2^64 ns |
| `Routing.VenusIdInjective` | src/devices/gps.c:104-106 | different ID bytes give different four-character IDs |
| `Routing.VenusIdReads` | src/devices/gps.c:104-106 | the ID reads "V8" and the ID byte as two upper-case hexadecimal digits |
| `Routing.ReadingsDisagree` | src/arm.c:31-34 | no IMU packet is upright both in host and in network byte order |
| `Routing.ReadingBytes` | src/state.c:31-36 | time, acceleration and roll rate read from the bytes of a packet |
| `Routing.UprightBytes` | src/arm.c:31-34 | the upright test on the bytes of a packet |
| `Routing.FixByteIsNextByte` | src/arm.c:52-55 | the byte read as fix mode is the one after the ID; it is a data byte iff the packet has at least two bytes, and for one byte it is the checksum, equal to the ID |
| `Routing.VenusToGround` | src/filter.c:4-16 | Venus messages go to disk only except V8A8 |
| `Routing.BareA8Locks` | src/arm.c:47-61 | the frame A0 A1 00 01 A8 A8 0D 0A, which has no fix field, turns the GPS lock on after any history |
| `Routing.FixInStream` | src/arm.c:47-61 | the fix verdict on a stream's messages is that on the byte after the ID of the latest A8 frame of its reading |
| `Routing.ReactAllLogsFit` | src/filter.c:4-16 | from any state, the log calls for any outputs fit iff no empty packet's message is among the GPS messages they complete |
| `FlightComputer.EstimateOfRun` | main.miml:16-19 | the state estimate of a run is StateEstimator's on the IMU packets delivered |
| `FlightComputer.ImuEstimate` | src/state.c:31-55 | after a delivered IMU datagram, in its bytes: launched if it was or if acc_x, high byte first, is beyond 40 m/s^2; then acc_x less gravity is the acceleration and minus gyro_x the roll rate |
| `FlightComputer.LateInDatagrams` | src/rollcontrol.c:184-191 | a datagram is late iff the umbilical is off and it is stamped more than 120 s after the datagram that last disconnected it |
| `FlightComputer.DatagramEvents` | main.miml:16-19 | a delivered IMU datagram leads to one IMU message and then one state message, with its time and the new estimate; a command datagram to itself; a delivered umbilical datagram to its message; all others to GPS messages only |
| `FlightComputer.GpsOfRun` | main.miml:49-60 | the GPS messages arming sees in a run are exactly those of the GPS byte stream, and the lock is the verdict on the latest A8 among them |
| `FlightComputer.GpsFitsExactly` | src/devices/gps.c:122-128 | for a GPS datagram within the receive buffer, every payload handed to the framer has at most 512 bytes iff the datagram has at most 516 or its number is below the expected one |
| `FlightComputer.SmallGpsFits` | src/devices/gps.c:122-128 | a run of received datagrams whose GPS ones have at most 516 bytes is within the buffers |
| `FlightComputer.GpsExpected` | src/ethmux.c:47-62 | the number a GPS datagram is held against is one more than that of the latest well-sized GPS datagram, or 0 |
| `FlightComputer.OversizeGpsHandedOn` | src/devices/gps.c:122-128 | one received datagram of 517 bytes hands 513 bytes to the 512-byte buffer |
| `FlightComputer.EmptyPacketLogged` | src/filter.c:4-16 | a run of one datagram whose log call, disk-only V800 with length 65535, does not fit |
| `FlightComputer.LockOfRun` | src/arm.c:107-116 | the sensor lock a run ends with is the setting of the latest lock command on the ARM port |
| `FlightComputer.DropsOfRun` | src/rollcontrol.c:172-182 | the umbilical state of a run is that of its latest delivered umbilical datagram, and its latest disconnection is stamped as the datagram that last disconnected it |
| `FlightLog.DiskForDatagrams` | src/logger.c:128-143 | apart from batch numbers the file's records are those of the batches in order |
| `FlightLog.DiskWithId` | src/logger.c:128-143 | and so are its records with any one ID but that of the batch numbers |
| `FlightLog.GroundReads` | src/logger.c:145-149 | the log datagrams decode, after their numbers, to the networked messages of the batches in order |
| `PsasTime.PsasClock.ToPsasTime` | src/utilities/utils_time.c:11-22 | makes the time relative to the start time and writes the low 48 bits of the elapsed nanoseconds, negative or not |
| `PsasTime.PsasClock.FromPsasTime` | src/utilities/utils_time.c:25-34 | the big-endian value of six bytes, below 2^48 |
| `VenusFramer.VenusFramer.constructor` | src/devices/gps.c:28-29 | starts with an empty buffer |
| `VenusFramer.VenusFramer.CheXxor` | src/devices/gps.c:31-37 | the XOR of a stretch of the buffer: at each bit the parity of the bytes' bits |
| `VenusFramer.VenusFramer.MemChr` | src/devices/gps.c:53 | the first position of a byte in a range, or the end |
| `VenusFramer.VenusFramer.MoveToFront` | src/devices/gps.c:113 | overlapping move of a stretch to the front of the buffer |
| `VenusFramer.VenusFramer.Append` | src/devices/gps.c:127-128 | the datagram is added after the unfinished bytes |
| `VenusFramer.VenusFramer.Examine` | src/devices/gps.c:67-102 | waits iff the position is undecided, accepts iff a valid frame starts there, else skips no A0 |
| `VenusFramer.VenusFramer.Message` | src/devices/gps.c:104-107 | the ID, 16-bit length argument and data of the frame found |
| `VenusFramer.VenusFramer.SendFrames` | src/devices/gps.c:49-110 | sends exactly the messages of the buffer's bytes, stamped with the datagram's time, and stops at the unfinished ones |
| `VenusFramer.VenusFramer.SendVenusMessages` | src/devices/gps.c:47-115 | as SendFrames, and the unfinished bytes are moved to the front |
| `VenusFramer.VenusFramer.CotsRawIn` | src/devices/gps.c:120-133 | over any sequence of datagrams of at most 512 bytes, messages sent and bytes kept are those of FeedAll |
| `Logger.MemCpy` | src/logger.c:182-186 | copies bytes behind a prefix that stays as it is |
| `Logger.Logger.constructor` | src/logger.c:106-109 | starts with empty buffers and number 0 |
| `Logger.Logger.FlushLog` | src/logger.c:123-157 | writes both buffers under the current number unless the disk buffer is empty |
| `Logger.Logger.WriteOut` | src/logger.c:128-156 | log file and datagram of one batch, buffers emptied, number incremented modulo 2^32 |
| `Logger.Logger.EnsureDiskLogSpace` | src/logger.c:165-168 | flushes exactly when the message does not fit the disk buffer |
| `Logger.Logger.EnsureNetLogSpace` | src/logger.c:170-174 | flushes once, exactly when the message does not fit one of the buffers |
| `Logger.Logger.AppendDisk` | src/logger.c:181-188 | the formatted message is appended to the disk buffer |
| `Logger.Logger.DiskOnly` | src/logger.c:176-189 | log_write_disk_only on the open batch |
| `Logger.Logger.CopyToNet` | src/logger.c:199-200 | the message just formatted on disk is appended to the network buffer |
| `Logger.Logger.DiskAndNet` | src/logger.c:191-201 | log_write on the open batch; the second space check never flushes |
| `Logger.Logger.LogWriteDiskOnly` | src/logger.c:176-189 | over any calls, buffers, file, datagrams and number are those of LogBatching.Run on the calls made |
| `Logger.Logger.LogWrite` | src/logger.c:191-201 | as above, for messages that also go to the network |
| `Logger.Logger.LogTimeout` | src/logger.c:203-209 | as above, for the flush timer |
| `Logger.Logger.LoggerFinal` | src/logger.c:159-163 | the file decodes to the numbered batches of all messages logged, datagram k to the networked messages of batch k, and the k-th number of both is k mod 2^32 |
| `Ethmux.Ethmux.constructor` | src/ethmux.c:66-76 | every source starts expecting number 0 |
| `Ethmux.Ethmux.SequencedReceive` | src/ethmux.c:41-63 | reports, delivery and next number for one packet |
| `Ethmux.Ethmux.OnDatagram` | src/ethmux.c:65-133 | over any datagrams, outputs and expected numbers are those of SequenceTracking.DemuxAll |
| `Arm.ArmManager.constructor` | src/arm.c:123-124 | the sensor lock starts enabled |
| `Arm.ArmManager.ArmReceiveImu` | src/arm.c:27-40 | resets or raises the upright count |
| `Arm.ArmManager.ArmReceiveGps` | src/arm.c:47-61 | follows the fix mode of V8A8 messages only |
| `Arm.ArmManager.ArmRawIn` | src/arm.c:70-121 | lock setting and signals sent for a command datagram |
| `RollControl.RollControl.constructor` | src/rollcontrol.c:74-75 | starts disarmed and disabled |
| `RollControl.RollControl.SetServoEnable` | src/rollcontrol.c:63-66 | sets the enable only |
| `RollControl.RollControl.SetArmedState` | src/rollcontrol.c:68-72 | arming enables, disarming disables |
| `RollControl.RollControl.SetCanardAngle` | src/rollcontrol.c:88-102 | sends the clamped angle with the negated enable |
| `RollControl.RollControl.RcRawUmb` | src/rollcontrol.c:172-182 | starts the timeout at a disconnection and follows the umbilical |
| `RollControl.RollControl.CheckTimeoutNow` | src/rollcontrol.c:184-196 | disables once past the timeout in flight, and says so to the servo |
| `RollControl.RollControl.RcReceiveState` | src/rollcontrol.c:198-251 | timeout check, then one control step for VSTE messages while enabled |
| `RollControl.RollControl.RcReceiveArm` | src/rollcontrol.c:253-260 | ARM arms; SAFE disarms and sends a disable |
| `RollControl.RollControl.RcRawTestrc` | src/rollcontrol.c:274-292 | test commands act only while not armed |
| `RollServo.RollServo.ToTicks` | src/devices/rollservo.c:46-47 | truncation to 16 bits and clamp |
| `RollServo.RollServo.ToBytes` | src/devices/rollservo.c:49-56 | the bytes of a command, most significant first |
| `RollServo.RollServo.RsReceiveAdj` | src/devices/rollservo.c:39-61 | over any adjustments, the k-th datagram decodes to k mod 2^32 and the ticks and flag of the k-th adjustment |
| `FlightControl.FlightControl.constructor` | src/arm.c:123-124 | all three modules start in their initial states |
| `FlightControl.FlightControl.OnEvent` | main.miml:68-75 | over any messages, the objects' state, signals and servo commands are those of FlightSafety.Run, and every command has been written to the servo board |
| `FlightControl.FlightControl.SendServo` | main.miml:72-73 | the command a message added, if any, goes to the servo board |
| `StateEstimator.StateEstimator.constructor` | src/state.c:16-24 | starts on the ground at launch altitude |
| `StateEstimator.StateEstimator.StateReceiveImu` | src/state.c:30-60 | over any messages the variables are those of StateEstimator.Run, and each state is sent |
| `FlightSystem.FlightSystem.constructor` | main.miml:1-13 | all parts start in step with the empty run |
| `FlightSystem.FlightSystem.OnDatagram` | main.miml:15-77 | through all five objects in the receivers' order, everything sent, logged and remembered stays that of FlightComputer.FlightRun on the datagrams received |
| `FlightSystem.FlightSystem.OnOutputs` | src/ethmux.c:65-133 | the outputs one datagram adds have exactly the effect of Routing.ReactAll |
| `FlightSystem.FlightSystem.OnOutput` | main.miml:15-77 | one output of the demultiplexer has exactly the effect of Routing.React |
| `FlightSystem.FlightSystem.OnDelivery` | main.miml:16-50 | a packet handed on: as OnOutput |
| `FlightSystem.FlightSystem.SendGps` | main.miml:58-66 | each GPS message completed goes to arming and then to the log, in order |
| `FlightSystem.FlightSystem.SendState` | src/state.c:30-63 | the new estimate goes to roll control as one state message |
| `FlightSystem.FlightSystem.Handle` | main.miml:68-74 | a message for arming or roll control; the servo command and signal it makes are logged once each, after the servo and roll control have them |
| `FlightSystem.FlightSystem.OnTimer` | src/logger.c:203-209 | the flush timer changes none of this |
| `FlightSystem.FlightSystem.OnVersion` | main.miml:76-77 | the hub's version, at most 50 bytes, is logged and changes none of this |

## Left out

- VenusFramer.VenusFramer.CotsRawIn: requires datagrams of at most 512 bytes; beyond that the C code writes past its buffer, and what then happens is not modelled. `FlightComputer.WithinBuffersExactly` says when a run meets this.
- VenusFrames.OverrunStartsAfresh: requires datagrams of at most 512 bytes, for the same reason.
- Logger.Logger.DiskOnly: requires at most 65524 data bytes, in an array that holds them; the call made for an empty Venus packet has length 65535 and writes past the disk buffer, and what then happens is not modelled. `FlightComputer.LoggerPreconditionsExactly` says when a run meets this.
- Logger.Logger.LogWriteDiskOnly: requires the same, for the same reason.
- FlightComputer.PoweredOnlyInTime: like the other theorems about `FlightComputer.FlightRun`, supposes that the C code stays within its buffers (`FlightComputer.Defined`): no GPS datagram overfills the framer's buffer and no empty Venus packet is read.
- RollServo.ClampedAngleConverts: is stated over the reals; with floating-point rounding the tick clamp may act.
- FinLaw.EstimateMonotone: takes `sqrt` and `exp` as parameters satisfying `FinLaw.Lawful`; their numeric values, rounding, NaN and infinities (the build uses `-Ofast`) are not modelled.
- FlightSafety.LaunchHistory: compares decoded 48-bit times; a wrap between two messages (78 hours) is not corrected for by the code either, see `PsasTime.ComparableWithinWindow`.
- StateEstimator.StepsTelescope: assumes non-decreasing times, as the code's unsigned subtraction does; `StateEstimator.SecondsBackward` says what happens otherwise.
- Sockets, files, timers and `writev`: outputs are sequences and writes are taken to succeed.
- The event loop and generated `fcfmain.c` are not part of this model; `FlightSystem.FlightSystem` follows the receiver order of `main.miml`.
- `RS.rs_receive_adj` runs before `LOG.log_receive_rc`, which byte-swaps the shared angle in place (`src/logger.c:217-227`): servo commands are taken with the angle as sent.
- FlightLog.FlightIsLogged: leaves open what the records of servo commands and arming signals hold; `FlightSystem.FlightSystem.Finish` says it.
- FlightSystem.FlightSystem.OnDatagram: requires that the run stays within the C code's buffers (`FlightComputer.Defined`), for the reasons above.
- FlightSystem.FlightSystem.Finish: the bytes of a servo command's angle in the log are a parameter, eight for each angle.
- FlightLog.GpsIsLogged: does not say with which datagram's time each GPS record is stamped; `Routing.React` does.
- Aliasing of the per-source records: each is a distinct static variable, so `Ethmux` keeps their numbers in one map.
- `send_arm_response`, `send_servo_response`, `perror` and other messages to people.
- How the RocketNet hub's version is asked for (`src/devices/rnh.c`), the health monitor, command-line tools, addresses and `#ifdef TESTING` code.
