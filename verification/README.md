# GeekBot closed-loop drive controller, in Dafny

This project models the drive controller of the GeekBot V2 robot (`geekbotV2Encoders/drive_control.h`). The robot has two
continuous-rotation servos mounted as mirror images. Each wheel has an optical slice encoder, read through an ADC, and the
robot has an infrared range sensor. The controller does the following:

- counts encoder edges with a two-state detector per wheel;
- every window of more than 100 ms, nudges the servo commands, intending to balance the wheels (differential compensation; as written it cannot, see Findings);
- integrates distance and degrees from the average tick count;
- offers blocking motion primitives built on that tick: forward, reverse, rotate left/right, drive until near an obstacle, and wall following.

The model is purely functional:

- `Controller.DriveState` is the controller's global state as one immutable record.
- `Controller.Step` is one call of `processEncoders`. The two ADC readings and the clock are inputs. The commands it would write are the `servo` field of its result. Its compensation is the one the code applies (`Compensator.CompensateAsWritten`); the evidently intended correction, `Compensator.Compensate`, is modelled and proved beside it (see Findings).
- `Controller.Stop` is `driveStop`.
- Every primitive is `Primitives.Run` over a finite trace of inputs. `Run` tests the exit condition, runs one iteration, and repeats. It returns either the exit (state at exit, state after the stop, distance returned) or that the trace ran out first.
- The range reading (`irsensorValue`, a global of the range-sensor file) travels with the controller state in `Primitives.Robot`. It is read as a distance: it grows as the wall recedes, which is why the `…Until` loops end when it reaches `stopRange`.
- The odometry scale and the wall-following gain are fields of `Params.Config`.

Modules: `Params` (constants, servo pair, scale), `Encoder` (edge detector), `Compensator`, `Controller`, `Steering`,
`Primitives`.

Three facts about the code that are easy to misread:

- An edge increments only the window count. The cumulative count grows by the window count when the window closes.
- The window closes when `last + 100 < now`, so strictly more than 100 ms must have passed.
- Degrees per tick is `(2πr / (2π·s/2)) · 360 / 64 = 720·r / (64·s)`. With r = 0.05 m and s = 0.195 m that is about 2.885°. `ScaleFromGeometry` states this relation; π cancels out of it.

## Model

| member | source | states |
|---|---|---|
| Params.ScaleFromGeometry | geekbotV2Encoders/drive_control.h:23-29 | metres per tick times 64 is the wheel circumference 2πr; degrees per tick times 64 times the wheel spacing is 720·r, so degrees per tick does not depend on π; both scales are positive |
| Encoder.Detect | geekbotV2Encoders/drive_control.h:58-84 | one sample adds at most one tick; from an armed state it adds one exactly when the arm flags flip; exactly one flag stays set; a reading equal to 512 changes nothing; after a reading off 512 the detector waits for the opposite level; the cumulative count is untouched |
| Encoder.DetectAllCountsCrossings | geekbotV2Encoders/drive_control.h:58-84 | over any sequence of readings the window count grows by exactly the number of level changes, using a reference definition that skips readings on the threshold; the detector ends armed against the latest strict level |
| Compensator.CompensateAsWritten | geekbotV2Encoders/drive_control.h:106-119 | the compensation as coded: nothing when the direction is 0 or the counts are within one tick; otherwise left gains dir·3 when it leads and right loses dir·3; `servoLeft + servoRight` is always preserved, and so is the wheels' forward-speed difference; a correction moves both wheels' forward speeds the same way |
| Compensator.AsWrittenSpeedsUpLeader | geekbotV2Encoders/drive_control.h:109-113 | as coded, when the left wheel leads both wheels are made faster along the direction of travel, the leading one included, for every non-zero direction |
| Compensator.AsWrittenSlowsLaggard | geekbotV2Encoders/drive_control.h:114-118 | as coded, when the right wheel leads both wheels are made slower along the direction of travel, the lagging left one included, for every non-zero direction |
| Compensator.Compensate | geekbotV2Encoders/drive_control.h:106-119 | corrected compensation (not the code's behaviour): nothing when rotating or within one tick; otherwise the leading wheel loses 3·dir of forward speed and the lagging one gains it; the common forward speed is preserved |
| Compensator.CompensateSlowsLeader | geekbotV2Encoders/drive_control.h:106-119 | corrected, the leading wheel always slows and the lagging wheel speeds up along the direction of travel, for either sign of direction |
| Compensator.CompensateNarrowsGap | geekbotV2Encoders/drive_control.h:106-119 | corrected, for direction ±1 the signed speed difference falls by 6 when left leads, rises by 6 when right leads, and is unchanged otherwise |
| Controller.Init | geekbotV2Encoders/drive_control.h:31-51 | power-up state: servos at 1500, direction +1, both detectors waiting for a rising edge (rising set, falling clear), window and cumulative counts 0, odometry 0, window starting at the given clock; it satisfies the invariant for every scale |
| Controller.CloseWindow | geekbotV2Encoders/drive_control.h:106-138 | window close: the code's compensation (`CompensateAsWritten`) on the window counts; cumulative ticks grow by exactly the window counts; distance and degrees grow by (L+R)/2 times their scale; both window counts end at 0; the timestamp becomes `now`; arm flags are kept; the invariant is preserved |
| Controller.SampleWheels | geekbotV2Encoders/drive_control.h:53-84 | the detector half of a tick: each wheel's detector runs once on its own reading; servos, direction, odometry and window start are untouched |
| Controller.Step | geekbotV2Encoders/drive_control.h:53-143 | before the window is due, only window counts and arm flags change (servos, cumulative ticks, distance, degrees and timestamp untouched); once `last + 100 < now`, the window is closed on the counts that include this sample, using the code's compensation (`CompensateAsWritten`); the direction never changes; with direction 0 the commands never change; `servoLeft + servoRight` is the same after every tick |
| Controller.StepKeepsValid | geekbotV2Encoders/drive_control.h:131-138 | a tick preserves the invariant: both detectors armed one way, distance = (ticksL+ticksR)/2·metersPerTick and degrees = (ticksL+ticksR)/2·degreesPerTick |
| Controller.StepOdometry | geekbotV2Encoders/drive_control.h:131-138 | a closing tick adds (L+R)/2·metersPerTick to distance and (L+R)/2·degreesPerTick to degrees; with a positive scale both are non-decreasing on every tick |
| Controller.StepWheel | geekbotV2Encoders/drive_control.h:58-84 | each wheel's arm flags after a tick are its detector's result on its own reading alone; a tick adds at most one edge per wheel; closing the window loses no tick |
| Controller.Stop | geekbotV2Encoders/drive_control.h:145-175 | returns the pre-stop distance; sets both servos to 1500; zeroes distance, degrees and both cumulative counts; leaves window counts, arm flags, direction and timestamp unchanged; preserves the invariant |
| Controller.StopTwice | geekbotV2Encoders/drive_control.h:145-175 | a second consecutive stop returns 0 and changes nothing |
| Controller.DistanceFromTicks | geekbotV2Encoders/drive_control.h:131-135 | in a valid state with a positive scale, distance and degrees are non-negative, and the distance is 0 exactly when no cumulative tick has been counted |
| Steering.Steer | geekbotV2Encoders/drive_control.h:252-261 | one wheel stays at its base speed and the other loses exactly the gain; with a positive gain the robot turns toward the wall exactly when the reading is above the target; the bias from the forward pair is ±gain |
| Steering.SteerSlowsOneWheel | geekbotV2Encoders/drive_control.h:252-261 | with a positive gain exactly one wheel is slowed toward SERVO_STOP; it is the left wheel exactly when the robot must turn left |
| Steering.SteerMirrored | geekbotV2Encoders/drive_control.h:312-321 | following a right-hand wall steers by the same amount, in the opposite direction, as following a left-hand wall on the same reading |
| Primitives.Begin | geekbotV2Encoders/drive_control.h:179-181 | every primitive's setup: the given commands and direction are set, the range reading is kept, and the invariant still holds for every scale |
| Primitives.Steered | geekbotV2Encoders/drive_control.h:249-261 | the steering assignment applied to the state: while following a wall the commands become the steering for the fresh reading, and encoder channels, direction, odometry and window start are untouched; other modes leave the state unchanged |
| Primitives.Body | geekbotV2Encoders/drive_control.h:249-265 | one loop iteration: the range is updated only by modes that read the sensor; the direction is kept; rotation commands are kept; while wall-following, unless the tick closes a window, the commands written are the steering for this iteration's fresh reading |
| Primitives.BodyWheel | geekbotV2Encoders/drive_control.h:58-84 | whatever the steering, an iteration runs each wheel's detector once on that wheel's reading and loses no tick |
| Primitives.BodyOdometry | geekbotV2Encoders/drive_control.h:131-138 | an iteration preserves the invariant and never decreases distance or degrees |
| Primitives.Run | geekbotV2Encoders/drive_control.h:182-186 | the loop exits at the first prefix of the trace whose replay satisfies the exit condition; the result carries the state after a full stop and the distance it returned; the loop runs out only when no prefix satisfies the condition |
| Primitives.ReplayKeeps | geekbotV2Encoders/drive_control.h:179-186 | replaying any trace keeps the direction and the invariant; with a positive scale, distance and degrees never decrease; in-place rotation keeps its commands throughout; without steering (the plain and range-reading loops), the sum of the two commands never changes |
| Primitives.RunKeeps | geekbotV2Encoders/drive_control.h:179-186 | the same holds wherever a primitive's loop leaves off, including the fixed command sum |
| Primitives.RunStopsOnceGoalReached | geekbotV2Encoders/drive_control.h:182-186 | if some prefix of the trace meets the exit condition, the loop exits, no later than that prefix |
| Primitives.ReplayCountsCrossings | geekbotV2Encoders/drive_control.h:58-84 | over any trace with no stop in between, each wheel's total ticks (cumulative plus window) grow by exactly the number of level changes in that wheel's readings |
| Primitives.DriveForward | geekbotV2Encoders/drive_control.h:177-187 | starts from commands (1600, 1380) and direction +1; exits at the first point where distance ≥ meters; after the stop the servos are at 1500 and distance is 0; the direction stays +1 and the invariant holds; the command sum stays 2980 throughout |
| Primitives.DriveReverse | geekbotV2Encoders/drive_control.h:189-199 | starts from commands (1380, 1600) and direction −1; exits at the first point where distance ≥ meters, then stops; the command sum stays 2980 throughout |
| Primitives.DriveLeft | geekbotV2Encoders/drive_control.h:201-211 | starts from commands (1380, 1380) and direction 0; exits at the first point where degrees ≥ the requested degrees; the commands stay (1380, 1380) throughout because rotation is never compensated |
| Primitives.DriveRight | geekbotV2Encoders/drive_control.h:213-223 | starts from commands (1600, 1600) and direction 0; exits at the first point where degrees ≥ the requested degrees; the commands stay (1600, 1600) throughout |
| Primitives.DriveForwardToDistance | geekbotV2Encoders/drive_control.h:225-239 | forward setup with the range read before the loop; exits at the first point where distance ≥ limit or range ≤ stopRange; returns the stop's distance; the range at exit is the latest reading; the command sum stays 2980 throughout |
| Primitives.WallFollow | geekbotV2Encoders/drive_control.h:241-268 | forward setup; every iteration steers on a fresh reading before the tick; exits at the first point where distance ≥ meters, then stops |
| Primitives.WallFollowUntil | geekbotV2Encoders/drive_control.h:270-299 | forward setup with the range read before the loop; steers on each fresh reading; exits at the first point where range ≥ stopRange; returns the stop's distance; a trace that runs out leaves the range below stopRange |
| Primitives.TicksForDistance | geekbotV2Encoders/drive_control.h:134 | in a valid state, distance ≥ meters requires at least meters / metersPerTick average ticks |
| Primitives.DriveForwardTicks | geekbotV2Encoders/drive_control.h:177-187 | driving forward from a valid state exits only after at least meters / metersPerTick average ticks |
| Primitives.DriveForwardStops | geekbotV2Encoders/drive_control.h:182-186 | if replaying the whole trace from the forward setup covers the requested distance, driving forward exits |

## Left out

- Hardware I/O. `analogRead`, `millis()` and `servo.writeMicroseconds` are not modelled. ADC values and the clock are inputs of `Step`, and the written commands are the `servo` field of its result. `processEncoders` calls `millis()` twice when a window closes; both calls are modelled as the same `now`.
- Serial debug output (`USB_DEBUG`) and the LED calls (`flashLEDs`, `setBlinksLeft`/`Right`, `processLEDs`). These are logging and UI only.
- Range-sensor acquisition and head aiming (`lookForward`, `lookLeft`, `lookRight`, `processDistanceSensor`). `panning_range_sensor.h` is not part of this model. Each loop input carries the range reading, and the reading taken before a loop is a parameter. `DISTANCE_TURN_GAIN` is the `turnGain` field of `Config`.
- The wheel-speed estimate `_wheelSpeedLeft`/`_wheelSpeedRight` (lines 90–93). It is a floating-point output that nothing else reads.
- Floating-point rounding. Distance and degrees are exact reals. The per-tick scales are positive parameters; `ScaleFromGeometry` relates them to the geometry with π as an input.
- Integer widths. `unsigned long` wrap-around of the clock and `int` overflow of counters and servo commands are not modelled; they are unbounded.
- Blocking forever. A primitive on the robot may never return. Here it consumes a finite trace and reports `Exhausted` when the trace ends first.
- The return value of the final `driveStop` is discarded by `driveForward`, `driveReverse`, `driveLeft`, `driveRight` and `wallFollowLeft`/`Right`. The model's outcome still carries it.

## Findings

| source | as written | input that shows it | evidently intended | confidence | as-written member | corrected member |
|---|---|---|---|---|---|---|
| geekbotV2Encoders/drive_control.h:109-118 | when the left wheel leads, `_servoSpeedLeft += dir*3` and `_servoSpeedRight -= dir*3` (mirrored when the right leads). The servos are mounted as mirror images, so as written it speeds up both wheels by 3 when the left leads and slows both by 3 when the right leads; either way the difference between their speeds does not change. | forward (dir = +1), commands (1600, 1380), window counts L = 5, R = 2: the result is (1603, 1377). Both wheels are now further from 1500, so both are faster, the leading left wheel included. | slow the leading wheel and speed up the lagging one: left leads gives `left -= dir*3`, `right -= dir*3`; right leads gives the opposite | medium; not executed | Compensator.CompensateAsWritten (with Compensator.AsWrittenSpeedsUpLeader, Compensator.AsWrittenSlowsLaggard and Compensator.AsWrittenForwardScenario), applied by Controller.Step, whose command sum stays fixed | Compensator.Compensate (with Compensator.CompensateSlowsLeader and Compensator.CompensateNarrowsGap) |
