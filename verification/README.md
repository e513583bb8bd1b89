# Verification of the Prism scanner

A Dafny model of the scanner's Pi-side daemon, its browser client and its Go control API, with proofs about
the parts where something subtle has to hold over many steps. `dafny verify dfyconfig.toml` checks everything.

**The motion compiler** (`StepProfile`, `ProfileLaws`, `StepperAxis`, `MoveLimits`, `Timeline`, `Waveform`, `Signal`,
`PigpioBackend`, `Pipeline`). A target angle becomes a microstep target inside the envelope, a trapezoidal list of
step times that keeps the speed and the acceleration in force, a merged two-axis pulse list, a list of pin edges, DMA
records with relative delays, and chained waves of at most 11500 records. The meaning of the result is the level of
every pin at every microsecond (`LevelsAt`), and the main theorem is that the replay of the records is the planned
signal, exactly when the pulses on a pin do not collide. A launch fails exactly when a library call was refused or the
list is longer than eight waves hold.

**Position tracking** (`MotionControl`, `MotionController`, `PulseCount`, `AbortedMoves`, `SweepTracking`,
`SweepReport`). A motor takes a step at every rise of its step pin, and the rises are counted in the replay of the
records really sent. Every axis that reports a known position is where its motor's steps put it, over all
interleavings of moves, sweeps, aborts and homes in which every committed waveform was delivered: no abort before its
last step edge, steps more than a pulse width apart, pins idle beforehand. That condition is exact. The live sweep
read-out counts the pulses the hardware has begun.

**Grid replication** (`ScanGrid`, `Replication`). A server grid with a generation and per-cell versions, any number of
clients, several polls per client in flight, arbitrary losses, in-order processing and delivery: applying a
response gives the client exactly the grid the response was computed from, and a measurement is on the screen after
the next undisturbed poll.

**Scanning** (`Raster`, `ScanGeometry`, `ScanMachine`, `ScanContents`, `ScanCommands`, `EarlyClear`, `ScanCrew`,
`SimScan`, `SimTime`, `Density`). The boustrophedon order is a bijection and a path, and every cell has an angle; the
scan worker is a state machine over its lock regions, interleaved with every command; every cell shows the last answer
the sensor gave there; what each command promises is stated from the command on; what clearing a fault under a live
worker breaks is said exactly, for one worker and for as many as the thread handle lets in; the Go simulator fills the
same raster by elapsed time, pauses not counted; the density clamp is bounded, keeps the proportions, and its own limit
is met under an exact condition.

**Lease and supervisor** (`Lease`, `Watchdog`). The 120 s operator lease of both Go services against one eager
specification, exactly who is let in over traces, exclusivity, and the host watchdog's detection bound and freedom from
false trips.

`Arithmetic` and `Options` hold shared helpers.

## Conventions

Degrees, speeds and seconds are reals; microsteps and microseconds are integers. A bit mask is the set of its
one bits. `std::sqrt` is a parameter known by `IsSqrt`; `std::sort` is known by `SortOf` (any sorted
permutation). Clock readings, sensor readings, backend outcomes and the synthetic surface are parameters.
Where the documentation and the code disagree (full grid on every poll, normalised cell values, heartbeat only
on commands), the model follows the code.

Nine claims that look natural are not true of the code. For each there is a run or an input that shows it, and the
exact condition under which the claim does hold.

- *A move reported as successful leaves the tracked position right.* The pigpio backend reports success for every
  waveform it has launched (`RunMotionWaveform`): aborted, as in `AbortedMoveClaimsSuccess`, or with two steps run
  together into one pulse without any abort, as in `HastyMoveClaimsSuccess`. It holds exactly when no abort stops the
  transmitter before the record with the last step edge, the steps of each axis are more than a pulse width apart and
  the pins of the moving axes are idle beforehand: `SuccessIsRightIff`, and for sweeps `CommittedSweepIsRightIff`. A
  pin is left asserted exactly by a cut in mid-pulse: `PinLeftAssertedIff`.
- *A sweep reported as having reached its target was sent in full.* An ordinary stop, an e-stop or a fault that aborts
  while the worker polls is taken for the end of the sweep: `MisreportedSweep`, `AbortAtPollIsMisreported`. It holds
  exactly when the sweep was not cut without the worker seeing a stop: `ReportTruthfulIff`, and for the controller's
  position `ReportKeepsTrustIff`.
- *The replayed signal is the planned one.* Motion limits are validated without regard to the pulse width:
  `HastyMoveIsGarbled`. It holds exactly when consecutive step times are the spacing apart: `CompiledMoveSignalIff`;
  the number of pulses is right exactly when they are more than a pulse width apart: `CompiledMovePulsesIff`.
- *The clamped grid is within 300000 cells.* `ExtremeAspectExceedsLimit`; exactly when the request was within it or is
  not too slender: `ApplyResolution`, `ClampMeetsLimitIff`.
- *Scan worker and manual moves exclude each other.* Clearing a fault under a live worker breaks it: `HomeBesideScan`.
  As long as no scan is started, exactly when the worker is in a motion call or about to enter the sweep
  (`ClearingBreaksExclusionIff`, `ClearingEverBreaksExclusionIff`). But a start finds no handle to wait for after a
  stop, and puts a second scan worker beside the first: `TwoScanWorkers`. Over any commands whatever, the old worker
  can meet somebody in a motion call exactly when it has not failed a call and is not past the motion of its last
  cell or row: `ClearingLetsMotionsMeetIff`.
- *A stopped worker writes no more.* Clearing a fault before it has left takes the stop back: `WriteAfterStop`. As long
  as no scan is started, exactly when it is on its way to a cell (`ClearingLetsWorkerWriteIff`); over any commands
  whatever, exactly when it has not failed a call and is not done with the last row
  (`ClearingLetsStoppedWorkerWriteIff`).
- *In step mode the version of the grid counts the captured cells.* A change of resolution or mode let in under a live
  worker, after a fault was cleared, breaks it: `ResetReachesWorker`. It goes wrong exactly when the worker is on its
  way to a cell other than the first: `ResetBreaksRasterIff`.
- *A stop is never recorded as a fault.* The refusal of a sweep start is reported without a look at the stop:
  `StopRecordedAsFault`. Short of a fault from elsewhere it happens exactly when the stop comes while a sweep is being
  started: `StopBecomesFaultIff`.
- *A fault of the simulator lasts until it is cleared.* A jog is let through it and takes it away, and a scan can start:
  `JogLiftsFault`. It lasts exactly until somebody clears it or jogs: `FaultLiftedIff`.

## Model

| member | source | states |
|---|---|---|
| StepProfile.GenerateStepTimes | apps/edge-daemon/src/stepper_axis.cpp:28-66 | the push loop and the in-place patch loop compute the fix-up of the rounded trapezoid; empty for no steps or a non-positive envelope |
| ProfileLaws.SpeedCap | apps/edge-daemon/src/stepper_axis.cpp:37-57 | consecutive real step times are at least 1/vmax apart in acceleration, cruise, braking, at both joins and in the triangular case |
| ProfileLaws.AccelerationCap | apps/edge-daemon/src/stepper_axis.cpp:37-57 | step i + 1 starts no earlier than constant acceleration from rest at the limit makes i steps, in every phase, over both joins and in the triangular case |
| ProfileLaws.ProfileShape | apps/edge-daemon/src/stepper_axis.cpp:37-57 | until full speed or half the move is reached, step i comes exactly when the acceleration limit makes i steps; every step that belongs neither to that nor to its mirror image takes exactly 1/vmax |
| ProfileLaws.RoundedStepGap | apps/edge-daemon/src/stepper_axis.cpp:57-58 | after rounding to microseconds the gaps are at least floor(1e6/vmax) |
| ProfileLaws.StepTimesAreRoundedProfile | apps/edge-daemon/src/stepper_axis.cpp:28-66 | up to a million steps a second the fix-up changes nothing: exactly N times, first at 0, strictly increasing, gaps at least floor(1e6/vmax) |
| ProfileLaws.FixUpFormula | apps/edge-daemon/src/stepper_axis.cpp:61-64 | for any list, out[i] is the maximum over j <= i of r[j] + (i - j) |
| ProfileLaws.FixUpIsLeast | apps/edge-daemon/src/stepper_axis.cpp:61-64 | the fix-up is the pointwise least strictly increasing list above its input |
| ProfileLaws.ProfileSymmetry | apps/edge-daemon/src/stepper_axis.cpp:37-57 | with t(N) = T, t(i) + t(N - i) = T for all i |
| StepperAxis.StepperAxis.PlanMove | apps/edge-daemon/src/stepper_axis.cpp:79-99 | clamp, nearest microstep, direction, count, times and duration of a plan, which StaysInEnvelope and MoveLimits say in degrees and microseconds; overrides count only when positive; the axis is untouched |
| StepperAxis.StepperAxis.Commit | apps/edge-daemon/src/stepper_axis.cpp:101-109 | the signed step count is added, and the position becomes known, only for a plan with steps |
| StepperAxis.NoDrift | apps/edge-daemon/src/stepper_axis.cpp:79-109 | after any sequence of successful moves under any envelopes the count is the nearest microstep of the last clamped target |
| StepperAxis.EndsWithinHalfMicrostep | apps/edge-daemon/src/stepper_axis.cpp:75-86 | the axis ends within half a microstep of the clamped target |
| StepperAxis.StaysInEnvelope | apps/edge-daemon/src/stepper_axis.cpp:79-99 | a move ends inside the envelope and as near to the requested angle as any position in it, both to half a microstep |
| MoveLimits.PlanFollowsProfile | apps/edge-daemon/src/stepper_axis.cpp:79-99 | the step list is the profile of the limits in force, overrides included, each step within half a microsecond; it starts at 0 and its last entry is the duration |
| MoveLimits.SpeedInForce | apps/edge-daemon/src/stepper_axis.cpp:91-97 | consecutive steps are at least floor(1e6 / (speed * microsteps per degree)) apart, speed being the override when positive and the envelope's otherwise; away from both ends they are that period apart to a microsecond |
| MoveLimits.AccelerationInForce | apps/edge-daemon/src/stepper_axis.cpp:91-97 | likewise no step comes more than one ahead of the acceleration in force, and the ramp follows it, to half a microsecond |
| StepperAxis.StaysBetween | apps/edge-daemon/src/stepper_axis.cpp:79-109 | every intermediate position of a move lies between its start and its target |
| Timeline.CoalesceAnySort | apps/edge-daemon/src/motion_controller.cpp:25-39 | the merged list does not depend on how the sort orders equal times |
| Waveform.MergeAxisPlans | apps/edge-daemon/src/motion_controller.cpp:13-41 | push, sort and merge give one entry per time carrying every axis that steps then, with directions and signed counts |
| Waveform.LosslessMerge | apps/edge-daemon/src/motion_controller.cpp:13-41 | the merged list is strictly increasing, its projection on each axis is that axis's list, and it is unique |
| Waveform.BuildEvents | apps/edge-daemon/src/pigpio_gpio_backend.cpp:240-283 | every pulse's two edges, for either polarity, merged per microsecond; pulses without an axis are skipped |
| Waveform.EventsToPigpioPulses | apps/edge-daemon/src/pigpio_gpio_backend.cpp:285-299 | one record per event, its delay reaching to the next event, 5 us after the last |
| Signal.SignalPreservedIff | apps/edge-daemon/src/pigpio_gpio_backend.cpp:240-299 | replay equals plan at every microsecond if and only if the pulses on the pin do not collide; both polarities |
| Signal.AxisSignal | apps/edge-daemon/src/pigpio_gpio_backend.cpp:240-299 | with distinct pins and gaps above the pulse width, a pin is asserted exactly while a step of its axis is under way and rises exactly at the step times |
| Signal.LevelsOnTheWire | apps/edge-daemon/src/pigpio_gpio_backend.cpp:240-299 | in terms of the configuration: a step pin is high exactly while a step of its axis began less than the configured pulse width ago, at least a microsecond, or exactly while none did when active low |
| Signal.RecordsSpan | apps/edge-daemon/src/pigpio_gpio_backend.cpp:285-299 | the delays add up to the time from first to last edge plus 5 us |
| Pipeline.CompiledMoveSignal | apps/edge-daemon/src/motion_controller.cpp:88-110 | from target angles to the pins: asserted at t exactly when some trapezoid step k has time_k <= t < time_k + width |
| Pipeline.CompiledMoveSignalIff | apps/edge-daemon/src/motion_controller.cpp:88-110 | for any targets and positive envelopes the pin follows the planned step times at every microsecond if and only if they are the spacing apart: more than the pulse width active high, the pulse width active low |
| Pipeline.HastyMoveIsGarbled | apps/edge-daemon/src/hardware_config.cpp:207-223 | a validated envelope and the standard 4 us pulse whose two-step move is replayed wrongly |
| Pipeline.HastyMoveCompiles | apps/edge-daemon/src/motion_controller.cpp:88-110 | that move really compiles, to the pulse and edge lists given |
| Pipeline.CompiledMovePulses | apps/edge-daemon/src/motion_controller.cpp:88-110 | each axis is pulsed exactly as often as there are microsteps between position and target |
| Pipeline.CompiledMovePulsesIff | apps/edge-daemon/src/motion_controller.cpp:88-110 | for any targets and positive envelopes, once every step has begun, the motor has been pulsed once per microstep of the way if and only if consecutive step times are more than a pulse width apart |
| Pipeline.PlannedSweepIsTracked | apps/edge-daemon/src/motion_controller.cpp:160-202 | for a planned sweep the reported step count is the number of pulses its waveform has begun |
| PigpioBackend.PigpioGpioBackend.LoadChunks | apps/edge-daemon/src/pigpio_gpio_backend.cpp:140-179 | success: at most 8 waves of at most 11500 records whose concatenation is the whole list; failure: no wave left; and failure exactly when a library call was refused, which the error names, or the list is longer than 92000 records |
| PigpioBackend.PigpioGpioBackend.StartMotionWaveform | apps/edge-daemon/src/pigpio_gpio_backend.cpp:115-196 | created waves are all active or all deleted on every path, what is transmitted is the record list of the plan, and an initialised launch fails exactly when a library call was refused or the list is too long |
| PigpioBackend.PigpioGpioBackend.FinishMotionWaveform | apps/edge-daemon/src/pigpio_gpio_backend.cpp:200-212 | drained or aborted, every wave is freed, and the records out are those sent before the first abort |
| PigpioBackend.PigpioGpioBackend.RunMotionWaveform | apps/edge-daemon/src/pigpio_gpio_backend.cpp:107-111 | success for every waveform the transmitter accepted, however early an abort cut it, and failure exactly for a refused call or a list too long; how many records are out; no wave survives |
| PigpioBackend.SentAtLeastIff | apps/edge-daemon/src/pigpio_gpio_backend.cpp:200-222 | the first n records get out if and only if no abort comes before they have |
| MotionController.MotionController.MoveTo | apps/edge-daemon/src/motion_controller.cpp:64-127 | refuse while busy or unknown, do nothing at target, else launch and land as the step machine does, with the pulses really sent |
| MotionController.MotionController.HomeGantry | apps/edge-daemon/src/motion_controller.cpp:129-150 | unknown: both axes are declared zero without motion; known: a move to (0, 0) |
| MotionController.MotionController.StartYawSweep | apps/edge-daemon/src/motion_controller.cpp:152-188 | the sweep launch of the step machine, with a yaw-only waveform |
| MotionController.MotionController.FinishYawSweep | apps/edge-daemon/src/motion_controller.cpp:204-216 | commit when reached, distrust otherwise |
| MotionController.MotionController.SweepMicrostepsTravelled | apps/edge-daemon/src/motion_controller.cpp:192-202 | the count of steps begun by the elapsed time |
| MotionController.MotionController.LiveYaw | apps/edge-daemon/src/motion_controller.cpp:222-241 | row start plus the directed distance travelled |
| AbortedMoves.SuccessfulMoveArrives | apps/edge-daemon/src/motion_controller.cpp:88-126 | a launched move that is delivered leaves both motors, by the rises of their pins, and both reports on the nearest microsteps of their clamped targets |
| MotionController.HomeIsZero | apps/edge-daemon/src/motion_controller.cpp:129-150 | homing restores trust at zero, and zero is microstep 0 |
| MotionControl.TrustOverRuns | apps/edge-daemon/src/motion_controller.cpp:64-216 | from start-up, over every interleaved run under the backend contract, known implies tracked count equals net pulses since the datum |
| AbortedMoves.TrustOnBackend | apps/edge-daemon/src/motion_controller.cpp:64-216 | the same on the pigpio backend, motor steps being the pin rises in the records sent and pin levels carried from waveform to waveform: trust holds in every run in which what is committed was delivered |
| AbortedMoves.TrustWithoutAborts | apps/edge-daemon/src/motion_controller.cpp:64-216 | from idle pins it is enough that no waveform is cut and the steps of each are more than a pulse width apart |
| MotionControl.UnknownMeansStill | apps/edge-daemon/src/motion_controller.cpp:76-86 | until a home, an unknown position stays unknown and no pulse is emitted |
| MotionControl.FlightUndisturbed | apps/edge-daemon/src/motion_controller.cpp:64-216 | while a waveform is in the air nothing but its landing replaces it, moves a tracked position or adds a pulse |
| MotionControl.NewFlight | apps/edge-daemon/src/motion_controller.cpp:64-188 | a waveform goes out only from the ground, with the motors on, along the plan to what was asked for; a move only from a known position |
| MotionControl.MoveGoesOutIff | apps/edge-daemon/src/motion_controller.cpp:64-110 | exactly when: nothing under way, position known, somewhere to go |
| MotionControl.LandingFrees | apps/edge-daemon/src/motion_controller.cpp:107-126 | a landing, and nothing else of a waveform, frees the controller |
| MotionControl.DatumIff | apps/edge-daemon/src/motion_controller.cpp:129-150 | homing declares a new datum if and only if a position is unknown |
| MotionControl.EnvelopeInForce | apps/edge-daemon/src/motion_controller.cpp:50-54 | a new envelope bounds the targets of its own axis from the next plan on and moves nothing |
| MotionControl.MotorsStayOff | apps/edge-daemon/src/motion_controller.cpp:99-102 | motors switched off stay off until switched on or a waveform is launched |
| PulseCount.EveryStepRisesIff | apps/edge-daemon/src/pigpio_gpio_backend.cpp:240-299 | for any plan and either polarity the pin rises at every planned step time if and only if it starts idle and the steps are more than a pulse width apart |
| PulseCount.AxisStepsOutIff | apps/edge-daemon/src/pigpio_gpio_backend.cpp:200-299 | the first n records never make more rises than there are planned steps, and make all of them if and only if they hold every step edge and every step rises |
| AbortedMoves.EveryStepTakenIff | apps/edge-daemon/src/pigpio_gpio_backend.cpp:200-299 | both motors take every planned step if and only if no abort comes before the last step edge, steps are more than a pulse width apart and the pins of moving axes start idle |
| AbortedMoves.PinLeftAssertedIff | apps/edge-daemon/src/pigpio_gpio_backend.cpp:200-222 | a cut leaves a step pin asserted if and only if it comes while a pulse of that axis is under way |
| AbortedMoves.SuccessIsRightIff | apps/edge-daemon/src/motion_controller.cpp:107-126 | a landing reported as successful leaves the position right, and honours the contract, if and only if its waveform was delivered: no early abort, steps more than a pulse width apart, pins idle |
| AbortedMoves.CommittedSweepIsRightIff | apps/edge-daemon/src/motion_controller.cpp:204-216 | likewise for a sweep committed as reached |
| SweepReport.ReportKeepsTrustIff | apps/edge-daemon/src/edge_daemon.cpp:671-701 | for a sweep from a trusted position, what the worker reports keeps the tracked position right if and only if the sweep was not cut without the worker seeing a stop |
| AbortedMoves.AbortedMoveClaimsSuccess | apps/edge-daemon/src/pigpio_gpio_backend.cpp:107-111 | from start-up: a one-step move aborted at the first poll lands as successful with the axis a microstep off |
| AbortedMoves.HastyMoveClaimsSuccess | apps/edge-daemon/src/motion_controller.cpp:88-126 | from start-up, without any abort: a two-step move whose pulses run together lands as successful with the axis ahead of its motor |
| SweepTracking.UpperBound | apps/edge-daemon/src/motion_controller.cpp:199-200 | the binary search returns the number of entries not beyond the key |
| SweepTracking.TrackingMatchesWaveform | apps/edge-daemon/src/motion_controller.cpp:192-202 | at positive elapsed time the reported count is the number of pulses the replayed waveform has begun |
| SweepTracking.TrackingLags | apps/edge-daemon/src/motion_controller.cpp:184-202 | with the clock started later than the waveform the report is the count of that much earlier: never too many, and behind by at most lag / g + 1 steps |
| SweepTracking.TravelledMonotone | apps/edge-daemon/src/motion_controller.cpp:192-202 | the report never goes back |
| SweepTracking.LiveYawEndsAtCommit | apps/edge-daemon/src/motion_controller.cpp:222-241 | after the last step the live yaw equals the committed position |
| SweepTracking.LiveYawFollowsMotor | apps/edge-daemon/src/motion_controller.cpp:222-241 | during a sweep the live yaw is the row start plus the pulses begun, in the direction of the sweep; otherwise the tracked angle |
| SweepTracking.WindowBound | apps/edge-daemon/src/motion_controller.cpp:192-202 | in any window of D us the report advances at most D/g + 1 steps |
| ScanGrid.GridStore.RebuildGrid | apps/edge-daemon/src/edge_daemon.cpp:808-816 | an empty grid of the size asked for in the next generation |
| ScanGrid.GridStore.ClearGrid | apps/edge-daemon/src/edge_daemon.cpp:818-823 | the same size wiped, in the next generation |
| ScanGrid.GridStore.MarkCell | apps/edge-daemon/src/edge_daemon.cpp:825-830 | the value is stored at its cell with the next version and no other cell changes; out of range ignored |
| ScanGrid.MarkedCell | apps/edge-daemon/src/edge_daemon.cpp:825-830 | in the grid the value and the next version at that cell and no change at any other; outside, nothing |
| ScanGrid.GridStore.GetGridUpdate | apps/edge-daemon/src/edge_daemon.cpp:832-856 | exactly the filled cells that are new to the cursor, or all of them for a stale generation, in row-major order |
| ScanGrid.DeltaIsWhatWasMarked | apps/edge-daemon/src/edge_daemon.cpp:825-856 | a delta from the version a client has ships exactly the cells marked since |
| ScanGrid.DeltaIsShort | apps/edge-daemon/src/edge_daemon.cpp:825-856 | a delta has at most version - since cells |
| Replication.GridClient.ApplyGridUpdate | apps/web-ui/app.js:199-228 | rebuild, full and delta branches over the typed array and cursor |
| Replication.ApplyCopiesSnapshot | apps/web-ui/app.js:199-228 | a response to an older cursor still turns the client's newer copy into the server state it was computed from |
| Replication.ExactReplication | apps/edge-daemon/src/edge_daemon.cpp:832-856 | after every run with any clients, pipelined polls and losses, a delivery leaves grid, size, generation and version equal to the server's when the response was computed |
| Replication.CatchesUp | apps/web-ui/app.js:340-353 | after any run one undisturbed poll brings a client with nothing under way to the server's very state |
| Replication.MarkReachesClient | apps/edge-daemon/src/edge_daemon.cpp:825-856 | a measurement marked in the grid is in the client's array after that poll, at its cell and with its value |
| Replication.WipeReachesClient | apps/edge-daemon/src/edge_daemon.cpp:808-823 | a wipe or a resize is in the client's array after that poll: an empty grid of the server's size |
| Replication.NewcomerCatchesUp | apps/web-ui/app.js:199-228 | a client may join at any time and holds the server's state after one poll |
| Replication.InvOverRuns | apps/web-ui/app.js:340-353 | everything in flight on a link stays between the client's copy and the server, in order |
| Replication.ApplyCopiesIff | apps/web-ui/app.js:199-228 | applying an update copies the state it was computed from if and only if every cell in which the client differs is shipped |
| Replication.ReorderingBreaksCopy | apps/web-ui/app.js:223-227 | responses applied out of order leave a client claiming a version it does not hold |
| Raster.IndexRoundTrip | apps/edge-daemon/src/edge_daemon.cpp:718-723 | every raster index lands in the grid and is recovered by the explicit inverse |
| Raster.CoordRoundTrip | apps/control-api/internal/scanner/service.go:597-607 | every cell is the image of its inverse index |
| Raster.RowByRow | apps/edge-daemon/src/edge_daemon.cpp:718-723 | the path starts at (0, 0) and goes row by row, even rows forward and odd rows backward |
| Raster.ConsecutiveCellsTouch | apps/edge-daemon/src/edge_daemon.cpp:718-723 | consecutive indices differ by one cell in exactly one coordinate |
| Raster.TravelIsOneCellPerMove | apps/edge-daemon/src/edge_daemon.cpp:718-723 | total travel is one cell per move |
| ScanGeometry.CellsSpanRange | apps/edge-daemon/src/edge_daemon.cpp:725-735 | cell angles are spread evenly over the range, from its one end to the other |
| ScanGeometry.SampleGoesToNearestCell | apps/edge-daemon/src/edge_daemon.cpp:687-691 | a sweep sample goes to the cell whose angle is nearest to where the head was, beyond the ends of the row too |
| ScanGeometry.CellRoundTrip | apps/edge-daemon/src/edge_daemon.cpp:689-735 | a sample taken at the angle of a cell goes to that cell |
| ScanMachine.StepModeRaster | apps/edge-daemon/src/edge_daemon.cpp:500-597 | under every interleaving the filled cells are the raster prefix, each captured once and each holding the reading it was captured with, to the centimetre; a pause lets at most one capture through; complete means full; faults may be cleared at any time |
| ScanContents.CellsShowReadings | apps/edge-daemon/src/edge_daemon.cpp:500-716 | under every interleaving and in either mode, every cell shows the last reading taken at it since the reset, to the centimetre, or -1 |
| ScanContents.ReadingsWereHeard | apps/edge-daemon/src/edge_daemon.cpp:552-697 | every such reading is the answer of some successful sensor call of the run |
| ScanContents.NearestColumn | apps/edge-daemon/src/edge_daemon.cpp:690-692 | a column outside the grid counts for the nearest one inside, and for no other |
| ScanCommands.ResetGivesFreshScan | apps/edge-daemon/src/edge_daemon.cpp:256-425 | an accepted reset gives an empty grid of a new generation in the size and mode asked for, all counters zero; a start puts a new worker at the beginning of the loop of the mode |
| ScanCommands.StartsIff | apps/edge-daemon/src/edge_daemon.cpp:329-425 | exactly when a scan, a home or a jog is let in; homing alone needs no known position |
| EarlyClear.ResetBreaksRasterIff | apps/edge-daemon/src/edge_daemon.cpp:231-285 | after a reset let in under a worker, further events can take the count of captured cells off the version if and only if the worker is on its way to a cell other than the first |
| EarlyClear.ResetReachesWorker | apps/edge-daemon/src/edge_daemon.cpp:231-285 | from start-up: a run after which such a reset is let in |
| ScanMachine.GridFixedDuringScan | apps/edge-daemon/src/edge_daemon.cpp:256-285 | an event leaves size and generation alone if and only if it is no accepted reset; none is accepted while the scan is not idle |
| ScanMachine.OneMotionUser | apps/edge-daemon/src/edge_daemon.cpp:329-425 | faults being cleared only after the worker has left, scan worker and manual worker are never both in a motion call; a new worker starts only after the old one left |
| ScanMachine.StoppedWorkerWritesNoMore | apps/edge-daemon/src/edge_daemon.cpp:457-474 | once Stopping is set that worker writes no further cell, in either mode, no fault being cleared before it has left |
| EarlyClear.ClearingLetsWorkerWriteIff | apps/edge-daemon/src/edge_daemon.cpp:231-241 | after an early clear and as long as no scan is started, the worker can write again if and only if it is on its way to a cell |
| EarlyClear.WriteAfterStop | apps/edge-daemon/src/edge_daemon.cpp:231-241 | from start-up: a stopped worker writes a cell after a fault is cleared |
| ScanCrew.ClearingLetsStoppedWorkerWriteIff | apps/edge-daemon/src/edge_daemon.cpp:231-425 | after an early clear and over any events, started scans and other workers included, a worker can write again if and only if it has not failed a call and is not done with the last row |
| ScanMachine.StopIsPrompt | apps/edge-daemon/src/edge_daemon.cpp:538-716 | a stopped worker has left after at most five of its own steps |
| ScanCommands.StopSilencesWorker | apps/edge-daemon/src/edge_daemon.cpp:205-229 | from the command: after an e-stop of any scan, or a stop of one without a fault, paused scans included, the worker writes no further cell and has left after at most five of its own steps |
| ScanCommands.PauseThenResumeCompletes | apps/edge-daemon/src/edge_daemon.cpp:426-455 | a paused worker is parked within four of its steps, and a resume completes the scan with every cell captured |
| ScanCommands.WorkerLeavesForAReason | apps/edge-daemon/src/edge_daemon.cpp:500-716 | a worker that leaves was stopped, or the scan is complete with nothing left, or a fault is latched |
| ScanCommands.ReadingIsRetried | apps/edge-daemon/src/edge_daemon.cpp:552-582 | up to two bad answers are made good by the next one; the third latches a fault |
| ScanCommands.FaultStartsNothing | apps/edge-daemon/src/edge_daemon.cpp:205-260 | from the moment a fault is triggered and until it is cleared no scan, no manual move and no reset starts, and nothing is paused or resumed |
| ScanCommands.StopBecomesFaultIff | apps/edge-daemon/src/edge_daemon.cpp:457-474 | a stop can come to be recorded as a fault, short of one from elsewhere, if and only if it comes while a sweep is being started |
| ScanCommands.StopRecordedAsFault | apps/edge-daemon/src/edge_daemon.cpp:660-668 | from start-up: a stop and a refused sweep start latch a fault |
| ScanCommands.ManualMoveEnds | apps/edge-daemon/src/edge_daemon.cpp:329-498 | a manual move keeps the head for itself from its command until its worker has noted the outcome, and then frees it |
| ScanCommands.SweepGoesOnIff | apps/edge-daemon/src/edge_daemon.cpp:665-700 | the sampling loop ends if and only if the transmitter is found idle or a stop is seen; a bad answer costs its sample only |
| ScanCommands.ReportedSweepIsOver | apps/edge-daemon/src/edge_daemon.cpp:665-701 | when the worker reports a sweep the motors are at rest |
| ScanCommands.DrainedSweepIsTruthful | apps/edge-daemon/src/edge_daemon.cpp:665-701 | once the last step of a sweep is out, its report is truthful whatever comes |
| ScanMachine.ReportTruthfulIff | apps/edge-daemon/src/edge_daemon.cpp:671-701 | what the worker reports of a sweep is truthful if and only if it was not cut without the worker seeing a stop |
| ScanMachine.AbortAtPollIsMisreported | apps/edge-daemon/src/edge_daemon.cpp:673-678 | an abort landing while the worker is about to poll is always reported as target reached, stop or not |
| ScanMachine.MisreportedSweep | apps/edge-daemon/src/edge_daemon.cpp:457-474 | from start-up: a sweep stopped, or faulted, at the poll is about to be committed as reached |
| ScanMachine.UndisturbedScanCompletes | apps/edge-daemon/src/edge_daemon.cpp:505-596 | whatever distances are read, five worker steps per remaining cell later the scan is complete and the raster exhausted |
| EarlyClear.ClearingBreaksExclusionIff | apps/edge-daemon/src/edge_daemon.cpp:231-241 | clearing a fault lets the next event put both workers in a motion call if and only if the scan worker is in one |
| EarlyClear.ClearingEverBreaksExclusionIff | apps/edge-daemon/src/edge_daemon.cpp:231-241 | and over any further events without a new scan if and only if it is in one or about to enter the sweep |
| EarlyClear.HomeBesideScan | apps/edge-daemon/src/edge_daemon.cpp:231-241 | from start-up: a fault cleared during a scan, and a home runs beside the scan worker's move |
| ScanCrew.CarefulCrewIsOneWorker | apps/edge-daemon/src/edge_daemon.cpp:205-475 | with any number of workers and the handle that start, stop and e-stop pass on: if faults are cleared only when all have left, the run is one of the one-worker machine |
| ScanCrew.StartWaitsForHandle | apps/edge-daemon/src/edge_daemon.cpp:394-425 | a start that finds the handle of a live worker brings no new worker before that one has left |
| ScanCrew.TwoScanWorkers | apps/edge-daemon/src/edge_daemon.cpp:205-475 | from start-up: stop or e-stop, clear and start put two scan workers in a motion call together |
| ScanCrew.ClearingLetsMotionsMeetIff | apps/edge-daemon/src/edge_daemon.cpp:205-475 | after an early clear and over any events, a worker can come to move beside somebody else if and only if it has not failed a call and is not past the motion of its last cell or row |
| SimScan.Simulator.FillToLocked | apps/control-api/internal/scanner/service.go:543-556 | the loop writes the missing raster cells up to the clamped target |
| SimScan.SegmentLaw | apps/control-api/internal/scanner/service.go:434-457 | along every run on a nondecreasing clock the version counts the filled cells, the k-th cell shows the surface at its place and has version k + 1, and a delta carries exactly the cells since the cursor |
| SimScan.TargetMonotone | apps/control-api/internal/scanner/service.go:441-445 | the fill target never falls as time passes and never exceeds the grid |
| SimTime.TargetIsShare | apps/control-api/internal/scanner/service.go:437-444 | the target is the whole part of the share of cells that the time scanned is of the duration, 0.11 s per cell to the nearest hundredth; all of them exactly from the end on |
| SimTime.UpdateCatchesUp | apps/control-api/internal/scanner/service.go:440-457 | an update fills exactly the target and ends the scan exactly when the duration is over |
| SimTime.PausesDoNotCount | apps/control-api/internal/scanner/service.go:329-370 | after a start, any pauses and an update, the cells filled are the target for the time since the start less the time spent pausing |
| SimTime.HaltedFillsNothing | apps/control-api/internal/scanner/service.go:340-385 | after a stop, an e-stop or a pause time fills no cell until a start, a change of resolution or, after a pause, a resume |
| SimTime.FaultLiftedIff | apps/control-api/internal/scanner/service.go:256-390 | a fault lasts exactly until it is cleared or somebody jogs |
| SimTime.JogLiftsFault | apps/control-api/internal/scanner/service.go:270-293 | e-stop, jog and start: a scan runs although nobody cleared the fault |
| Density.ApplyResolution | apps/edge-daemon/src/edge_daemon.cpp:737-776 | sides from preset, range and mechanics, clamped; at least 2, at most what was asked, at most max(300000, 2 * longer side) cells; within the limit if and only if the request was or is not too slender |
| Density.ClampBound | apps/control-api/internal/scanner/service.go:133-142 | for any budget, the clamped sides and their product are bounded, by the budget itself when neither side bottoms out |
| Density.ClampKeepsProportions | apps/edge-daemon/src/edge_daemon.cpp:768-772 | both sides shrink by one and the same factor, each to the whole cell below but never below two |
| Density.PresetsInSteps | apps/edge-daemon/src/edge_daemon.cpp:752-758 | the presets are an eighth, a fourth, a half, one and four full motor steps, and one microstep |
| Density.SideCoversSpan | apps/edge-daemon/src/edge_daemon.cpp:760-766 | a side is the number of samples that fit the span: the last lies within it, one more would not; never below two |
| Density.ClampMeetsLimitIff | apps/edge-daemon/src/edge_daemon.cpp:768-776 | the clamp meets its limit if and only if 300000 times the longer side asked for is below 150001 squared times the shorter |
| Density.ExtremeAspectExceedsLimit | apps/edge-daemon/src/edge_daemon.cpp:757-772 | a preset, mechanics and range that ask for 10 by 3000000 and get 2 by 300000 |
| Lease.LeaseHolder.ClearExpiredLease | apps/control-api/internal/scanner/service.go:489-501 | an expired lease is dropped, any other kept |
| Lease.LeaseHolder.RequireControl | apps/control-api/internal/scanner/service.go:503-515 | the decision, and renewal on acceptance |
| Lease.LeaseHolder.AcquireControl | apps/control-api/internal/scanner/edge_service.go:82-99 | granted when free or already held by the caller |
| Lease.ServicesFollowEager | apps/control-api/internal/scanner/edge_service.go:200-226 | after any operation either service names the same holder as the eager lease at every later instant |
| Lease.ServicesAgree | apps/control-api/internal/scanner/service.go:203-281 | on every trace both services decide like the eager lease, hence alike |
| Lease.Exclusivity | apps/control-api/internal/scanner/service.go:203-238 | between accepted actions of two users the first released, or 120 s passed with no accepted action of theirs |
| Lease.AcceptedIff | apps/control-api/internal/scanner/service.go:203-281 | an operation that asks for the lease is accepted if and only if its user is named and made the last accepted operation, no release and less than 120 s ago, or acquires while nobody holds it |
| Watchdog.SafetySupervisor.OnTick | apps/edge-daemon/src/safety_supervisor.cpp:84-111 | one turn of the loop: no action while faulted or idle, trip beyond the period |
| Watchdog.SafetySupervisor.OnTrigger | apps/edge-daemon/src/safety_supervisor.cpp:47-56 | the first fault wins, and alone aborts the motion and disables the motors |
| Watchdog.FirstCauseKept | apps/edge-daemon/src/safety_supervisor.cpp:47-53 | until cleared, the first cause is kept through any events |
| Watchdog.FirstCauseWins | apps/edge-daemon/src/safety_supervisor.cpp:47-56 | whatever is triggered first is the cause on record until it is cleared |
| Watchdog.ClearRearms | apps/edge-daemon/src/safety_supervisor.cpp:62-68 | after a clear, silent motion latches a watchdog fault if and only if a tick comes later than the period |
| Watchdog.SilenceIsCaught | apps/edge-daemon/src/safety_supervisor.cpp:80-112 | continuous motion without a heartbeat latches a fault within the period plus one tick |
| Watchdog.NoFalseTrip | apps/edge-daemon/src/safety_supervisor.cpp:80-112 | the watchdog never trips while heartbeat gaps stay within the period |

## Left out

- HTTP parsing and serving, JSON, the Go HTTP client, systemd notification, I2C access, signal handling, canvas painting, forms and activity logs.
- Floating-point error, uint32 and uint64 wrap-around, and Float32 rounding in the browser: durations are taken as bounded and cells as exact.
- Daemon restarts, after which generation numbers repeat, and out-of-order delivery beyond ReorderingBreaksCopy.
- The wave ids pigpio is given as single bytes. What goes on while a waveform is sent is a parameter: how many records go out before each poll, and when an abort comes.
- Concurrent calls into one GPIO backend: its methods hold one mutex, so they are modelled as atomic, with AbortMotion allowed at any poll of the finishing loop.
- The scan worker and the command guards are a state machine on values, one step per lock region, not an object: update in place of the daemon's fields is not shown there. Grid, client, axis, controller, backend, lease and supervisor are objects.
- SimScan.SegmentLaw: the simulator's clock is read once per event, and its commands and the update after them are separate events.
- ScanMachine.OneMotionUser: clearing a fault is allowed only after the scan worker has left its loop; EarlyClear.ClearingEverBreaksExclusionIff and ScanCrew.ClearingLetsMotionsMeetIff say exactly what happens otherwise.
- ScanMachine.StoppedWorkerWritesNoMore: likewise; EarlyClear.ClearingLetsWorkerWriteIff and ScanCrew.ClearingLetsStoppedWorkerWriteIff say exactly what happens otherwise.
- ScanMachine.StopIsPrompt: likewise.
- ScanMachine.StepModeRaster: after a fault has been cleared under a live worker, no command resets the grid before that worker has left; EarlyClear.ResetBreaksRasterIff says exactly when such a reset does harm.
- EarlyClear.ResetBreaksRasterIff: the resets are changes of resolution and of mode; a scan started under a live worker is in ScanCrew, where the raster is not stated.
- EarlyClear.ClearingEverBreaksExclusionIff: stated as long as no scan is started, as is EarlyClear.ClearingLetsWorkerWriteIff; ScanCrew has the started scans.
- ScanCrew.CommandStep: a start that returns from its wait replaces whatever handle is then held, where the source would terminate on one that is still joinable.
- ScanMachine.ReportTruthfulIff: an abort of the motion may come at any time, whoever asks for it; the worker's own abort is part of the lock region in which it sees the stop.
- SweepTracking.TrackingMatchesWaveform: elapsed time is counted from the start of the waveform; the source reads its start time after the launch returns, and SweepTracking.TrackingLags bounds what that delay costs. The sweep is marked active, and the lock released, before that start time is written: until then the live yaw measures from the start of the previous row and can report the whole row as travelled.
- AbortedMoves.TrustOnBackend: only launched waveforms touch the step pins, and they are replayed without jitter.
- ScanCrew.WorkStep: what the cells hold is stated for one worker at a time; the record of the sensor's last answer is one for all.
- The sweep's choice of speed, a cell per sensor period, and where the head is sent for a cell are not tied to the machine of the scan worker, whose events carry the column a sample falls into.
- MotionControl.TrustOverRuns: trust is about landings; while a waveform is running the tracked position is the one at launch.
- Watchdog.SilenceIsCaught: a tick reads the heartbeat and acts on it in one step.
- Sweep mode fills no promised set of cells: rows are counted whole even when samples were skipped, so which cells a sweep fills is not stated, only what the filled ones hold, stopping, exclusion and the row count.
- The synthetic distance formulas, trimming of user names, the estimated scan duration of the daemon, config loading and saving.
