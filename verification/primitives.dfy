/** The motion primitives. Each one sets the servo commands and the drive
    direction, then repeats the control tick until its exit condition holds,
    then stops. On the robot the repetition blocks until the condition holds;
    here it consumes a finite trace of inputs (encoder readings, clock and
    range reading per iteration) and reports either the exit or that the
    trace ran out first.
 */
module Primitives {
  import opened Params
  import opened Encoder
  import opened Controller
  import opened Steering

  /** What one loop iteration reads: the encoder sample and, for the
      primitives that read it, the range sensor. */
  datatype Input = Input(encoders: Sample, range: int)

  /** The controller together with the latest range reading, which persists
      between primitives like the controller state does. */
  datatype Robot = Robot(drive: DriveState, range: int)

  /** What an iteration does besides the control tick: nothing, read the range
      sensor, or read it and steer along a wall on `wall`. */
  datatype Mode = Plain | Ranged | Follow(wall: Side, target: int)

  /** The exit conditions: the loop runs while the condition is false. */
  datatype Goal =
    | DistanceAtLeast(meters: real)
    | DegreesAtLeast(degrees: real)
    | DistanceOrNear(limit: real, stopRange: int)
    | RangeAtLeast(stopRange: int)

  predicate Reached(goal: Goal, r: Robot)
  {
    match goal
    case DistanceAtLeast(m) => r.drive.distance >= m
    case DegreesAtLeast(d) => r.drive.degrees >= d
    case DistanceOrNear(limit, near) => r.drive.distance >= limit || r.range <= near
    case RangeAtLeast(far) => r.range >= far
  }

  /** The robot with a primitive's initial commands and direction. */
  function Begin(r: Robot, servo: Servos, direction: int): (b: Robot)
    ensures b.drive.servo == servo && b.drive.direction == direction
    ensures b.range == r.range
    ensures forall c: Config :: Valid(c, r.drive) ==> Valid(c, b.drive)
  {
    Robot(r.drive.(servo := servo, direction := direction), r.range)
  }

  /** One loop iteration: the range reading (if the mode reads it), the
      steering (if it steers) and then the control tick. */
  function Body(c: Config, mode: Mode, r: Robot, input: Input): (n: Robot)
    ensures n.drive.direction == r.drive.direction
    ensures n.range == (if mode.Plain? then r.range else input.range)
    ensures mode.Plain? && r.drive.direction == 0 ==> n.drive.servo == r.drive.servo
    ensures !mode.Follow? ==> n.drive.servo.left + n.drive.servo.right == r.drive.servo.left + r.drive.servo.right
    // while following a wall, the commands written are the steering for this
    // iteration's reading unless the tick closes a window and compensates them
    ensures mode.Follow? && !WindowDue(r.drive, input.encoders.now) ==>
              n.drive.servo == Steer(mode.wall, mode.target, input.range, c.turnGain)
  {
    Robot(Step(c, Steered(c, mode, r.drive, input.range), input.encoders),
          if mode.Plain? then r.range else input.range)
  }

  /** The controller state an iteration hands to the control tick: with the
      steering commands when the mode follows a wall, unchanged otherwise. */
  function Steered(c: Config, mode: Mode, s: DriveState, range: int): (t: DriveState)
    ensures t.left == s.left && t.right == s.right
    ensures t.direction == s.direction && t.distance == s.distance && t.degrees == s.degrees
    ensures !mode.Follow? ==> t == s
    ensures mode.Follow? ==>
              t.servo == Steer(mode.wall, mode.target, range, c.turnGain) && t.lastTimestamp == s.lastTimestamp
  {
    match mode
    case Follow(wall, target) => s.(servo := Steer(wall, target, range, c.turnGain))
    case _ => s
  }

  /** Whatever the mode, an iteration runs each wheel's detector once on that
      wheel's reading and loses no tick. */
  lemma BodyWheel(c: Config, mode: Mode, r: Robot, input: Input, side: Side)
    ensures WheelOf(Body(c, mode, r, input).drive, side).rising
              == Detect(WheelOf(r.drive, side), Adc(input.encoders, side)).rising
    ensures WheelOf(Body(c, mode, r, input).drive, side).falling
              == Detect(WheelOf(r.drive, side), Adc(input.encoders, side)).falling
    ensures Total(WheelOf(Body(c, mode, r, input).drive, side))
              == Total(Detect(WheelOf(r.drive, side), Adc(input.encoders, side)))
  {
  }

  /** An iteration keeps the state invariant and never decreases odometry. */
  lemma BodyOdometry(c: Config, mode: Mode, r: Robot, input: Input)
    ensures Valid(c, r.drive) ==> Valid(c, Body(c, mode, r, input).drive)
    ensures ValidConfig(c) ==>
              && Body(c, mode, r, input).drive.distance >= r.drive.distance
              && Body(c, mode, r, input).drive.degrees >= r.drive.degrees
  {
    var t := Steered(c, mode, r.drive, input.range);
    StepOdometry(c, t, input.encoders);
    if Valid(c, r.drive) {
      StepKeepsValid(c, t, input.encoders);
    }
  }

  /** Reference semantics: the robot after running the iteration over every
      input of `trace`, oldest first, with no exit test. */
  function Replay(c: Config, mode: Mode, start: Robot, trace: seq<Input>): Robot
  {
    if |trace| == 0 then start
    else Body(c, mode, Replay(c, mode, start, trace[..|trace| - 1]), trace[|trace| - 1])
  }

  /** Replaying from the robot after one iteration is replaying the longer trace. */
  lemma {:induction false} ReplayCons(c: Config, mode: Mode, start: Robot, x: Input, rest: seq<Input>)
    ensures Replay(c, mode, Body(c, mode, start, x), rest) == Replay(c, mode, start, [x] + rest)
  {
    if |rest| > 0 {
      ReplayCons(c, mode, start, x, rest[..|rest| - 1]);
      assert ([x] + rest)[..|[x] + rest| - 1] == [x] + rest[..|rest| - 1];
    }
  }

  /** How a primitive's loop ends: its exit condition held after `used`
      inputs (`atExit` is the robot then, `stopped` after the full stop and
      `traveled` the distance the stop returned), or the trace ran out. */
  datatype Outcome =
    | Done(atExit: Robot, stopped: Robot, traveled: real, used: nat)
    | Exhausted(last: Robot)

  /** The robot when the loop left off. */
  function Exit(o: Outcome): Robot
  {
    match o
    case Done(atExit, _, _, _) => atExit
    case Exhausted(last) => last
  }

  /** `o` is the result of testing the exit condition before every
      iteration: the loop stops at the first prefix of `trace` whose replay
      meets `goal`, and runs out only when no prefix does. */
  predicate FirstHit(c: Config, mode: Mode, goal: Goal, start: Robot, trace: seq<Input>, o: Outcome)
  {
    match o
    case Done(atExit, stopped, traveled, used) =>
      && used <= |trace|
      && atExit == Replay(c, mode, start, trace[..used])
      && Reached(goal, atExit)
      && (forall k :: 0 <= k < used ==> !Reached(goal, Replay(c, mode, start, trace[..k])))
      && stopped == Robot(Stop(atExit.drive).state, atExit.range)
      && traveled == atExit.drive.distance
    case Exhausted(last) =>
      && last == Replay(c, mode, start, trace)
      && (forall k :: 0 <= k <= |trace| ==> !Reached(goal, Replay(c, mode, start, trace[..k])))
  }

  /** The loop shared by every primitive: test the exit condition, run one
      iteration, repeat; stop once the condition holds. */
  function Run(c: Config, mode: Mode, goal: Goal, start: Robot, trace: seq<Input>): (o: Outcome)
    ensures FirstHit(c, mode, goal, start, trace, o)
    decreases |trace|
  {
    if Reached(goal, start) then
      assert trace[..0] == [];
      Done(start, Robot(Stop(start.drive).state, start.range), start.drive.distance, 0)
    else if |trace| == 0 then
      assert trace[..0] == trace;
      Exhausted(start)
    else
      var next := Body(c, mode, start, trace[0]);
      var o := Run(c, mode, goal, next, trace[1..]);
      match o
      case Done(atExit, stopped, traveled, used) =>
        RunShiftDone(c, mode, goal, start, trace, atExit, stopped, traveled, used);
        Done(atExit, stopped, traveled, used + 1)
      case Exhausted(last) =>
        RunShiftExhausted(c, mode, goal, start, trace, last);
        Exhausted(last)
  }

  /** Replaying a prefix of the trace after its first input from the robot
      after one iteration is replaying one more input from the start. */
  lemma ReplayShifted(c: Config, mode: Mode, start: Robot, trace: seq<Input>, k: nat)
    requires 0 < k <= |trace|
    ensures Replay(c, mode, Body(c, mode, start, trace[0]), trace[1..][..k - 1]) == Replay(c, mode, start, trace[..k])
  {
    ReplayCons(c, mode, start, trace[0], trace[1..][..k - 1]);
    assert [trace[0]] + trace[1..][..k - 1] == trace[..k];
  }

  /** One more input in front of a trace whose loop exits: the exit test
      fails at the start, so the exit comes one input later. */
  lemma RunShiftDone(c: Config, mode: Mode, goal: Goal, start: Robot, trace: seq<Input>,
                     atExit: Robot, stopped: Robot, traveled: real, used: nat)
    requires |trace| > 0 && !Reached(goal, start)
    requires FirstHit(c, mode, goal, Body(c, mode, start, trace[0]), trace[1..], Done(atExit, stopped, traveled, used))
    ensures FirstHit(c, mode, goal, start, trace, Done(atExit, stopped, traveled, used + 1))
  {
    assert Replay(c, mode, start, trace[..0]) == start;
    forall k | 0 < k < used + 1
      ensures !Reached(goal, Replay(c, mode, start, trace[..k]))
    {
      ReplayShifted(c, mode, start, trace, k);
    }
    ReplayShifted(c, mode, start, trace, used + 1);
  }

  /** One more input in front of a trace that runs out: the exit test fails at
      the start too, so the longer trace runs out as well. */
  lemma RunShiftExhausted(c: Config, mode: Mode, goal: Goal, start: Robot, trace: seq<Input>, last: Robot)
    requires |trace| > 0 && !Reached(goal, start)
    requires FirstHit(c, mode, goal, Body(c, mode, start, trace[0]), trace[1..], Exhausted(last))
    ensures FirstHit(c, mode, goal, start, trace, Exhausted(last))
  {
    assert Replay(c, mode, start, trace[..0]) == start;
    forall k | 0 < k <= |trace|
      ensures !Reached(goal, Replay(c, mode, start, trace[..k]))
    {
      ReplayShifted(c, mode, start, trace, k);
    }
    ReplayShifted(c, mode, start, trace, |trace|);
    assert trace[1..][..|trace| - 1] == trace[1..];
    assert trace[..|trace|] == trace;
  }

  /** What replaying any trace keeps: the drive direction, the state
      invariant, odometry that never decreases, and for in-place rotation
      the commands themselves. */
  lemma {:induction false} ReplayKeeps(c: Config, mode: Mode, start: Robot, trace: seq<Input>)
    ensures Replay(c, mode, start, trace).drive.direction == start.drive.direction
    ensures Valid(c, start.drive) ==> Valid(c, Replay(c, mode, start, trace).drive)
    ensures ValidConfig(c) ==>
              && Replay(c, mode, start, trace).drive.distance >= start.drive.distance
              && Replay(c, mode, start, trace).drive.degrees >= start.drive.degrees
    ensures mode.Plain? && start.drive.direction == 0 ==>
              Replay(c, mode, start, trace).drive.servo == start.drive.servo
    ensures !mode.Follow? ==>
              Replay(c, mode, start, trace).drive.servo.left + Replay(c, mode, start, trace).drive.servo.right
                == start.drive.servo.left + start.drive.servo.right
  {
    if |trace| > 0 {
      ReplayKeeps(c, mode, start, trace[..|trace| - 1]);
      BodyOdometry(c, mode, Replay(c, mode, start, trace[..|trace| - 1]), trace[|trace| - 1]);
    }
  }

  /** The same facts hold of the robot wherever a primitive's loop leaves off. */
  lemma RunKeeps(c: Config, mode: Mode, goal: Goal, start: Robot, trace: seq<Input>)
    ensures Exit(Run(c, mode, goal, start, trace)).drive.direction == start.drive.direction
    ensures Valid(c, start.drive) ==> Valid(c, Exit(Run(c, mode, goal, start, trace)).drive)
    ensures ValidConfig(c) ==>
              && Exit(Run(c, mode, goal, start, trace)).drive.distance >= start.drive.distance
              && Exit(Run(c, mode, goal, start, trace)).drive.degrees >= start.drive.degrees
    ensures mode.Plain? && start.drive.direction == 0 ==>
              Exit(Run(c, mode, goal, start, trace)).drive.servo == start.drive.servo
    ensures !mode.Follow? ==>
              Exit(Run(c, mode, goal, start, trace)).drive.servo.left + Exit(Run(c, mode, goal, start, trace)).drive.servo.right
                == start.drive.servo.left + start.drive.servo.right
  {
    var o := Run(c, mode, goal, start, trace);
    if o.Done? {
      ReplayKeeps(c, mode, start, trace[..o.used]);
    } else {
      ReplayKeeps(c, mode, start, trace);
    }
  }

  /** A primitive's loop ends no later than the first prefix of the trace
      after which its exit condition holds. */
  lemma RunStopsOnceGoalReached(c: Config, mode: Mode, goal: Goal, start: Robot, trace: seq<Input>, k: nat)
    requires k <= |trace| && Reached(goal, Replay(c, mode, start, trace[..k]))
    ensures Run(c, mode, goal, start, trace).Done?
    ensures Run(c, mode, goal, start, trace).used <= k
  {
  }

  /** One wheel's readings along a trace. */
  function Adcs(trace: seq<Input>, side: Side): (a: seq<int>)
    ensures |a| == |trace|
    ensures forall i :: 0 <= i < |trace| ==> a[i] == Adc(trace[i].encoders, side)
  {
    if |trace| == 0 then []
    else Adcs(trace[..|trace| - 1], side) + [Adc(trace[|trace| - 1].encoders, side)]
  }

  /** Over any trace, with no stop in between, each wheel's count of ticks
      grows by exactly the number of level changes in that wheel's readings,
      and its detector ends armed against the latest strict level. */
  lemma {:induction false} ReplayCountsCrossings(c: Config, mode: Mode, start: Robot, trace: seq<Input>, side: Side)
    requires Armed(WheelOf(start.drive, side))
    ensures Armed(WheelOf(Replay(c, mode, start, trace).drive, side))
    ensures WheelOf(Replay(c, mode, start, trace).drive, side).falling
              == LastLevel(WheelOf(start.drive, side).falling, Adcs(trace, side))
    ensures Total(WheelOf(Replay(c, mode, start, trace).drive, side))
              == Total(WheelOf(start.drive, side)) + Crossings(WheelOf(start.drive, side).falling, Adcs(trace, side))
  {
    if |trace| > 0 {
      var before := trace[..|trace| - 1];
      var x := trace[|trace| - 1];
      ReplayCountsCrossings(c, mode, start, before, side);
      BodyWheel(c, mode, Replay(c, mode, start, before), x, side);
      assert Adcs(trace, side)[..|trace| - 1] == Adcs(before, side);
    }
  }

  /** Drive forward: commands (CCW_MIN_SPEED, CW_MIN_SPEED), direction +1,
      until the distance reaches `meters`, then a full stop. */
  function DriveForward(c: Config, robot: Robot, meters: real, trace: seq<Input>): (o: Outcome)
    ensures FirstHit(c, Plain, DistanceAtLeast(meters), Begin(robot, Servos(CCW_MIN_SPEED, CW_MIN_SPEED), 1), trace, o)
    ensures o.Done? ==> o.atExit.drive.distance >= meters && o.traveled >= meters
    ensures o.Done? ==> o.stopped.drive.servo == StopServos() && o.stopped.drive.distance == 0.0
    ensures Exit(o).drive.direction == 1
    // compensation never moves the sum of the commands, so the wheels keep
    // the speed difference they started with
    ensures Exit(o).drive.servo.left + Exit(o).drive.servo.right == CCW_MIN_SPEED + CW_MIN_SPEED
    ensures Valid(c, robot.drive) ==> Valid(c, Exit(o).drive)
  {
    var start := Begin(robot, Servos(CCW_MIN_SPEED, CW_MIN_SPEED), 1);
    RunKeeps(c, Plain, DistanceAtLeast(meters), start, trace);
    Run(c, Plain, DistanceAtLeast(meters), start, trace)
  }

  /** Drive in reverse: commands (CW_MIN_SPEED, CCW_MIN_SPEED), direction -1,
      until the distance reaches `meters`, then a full stop. */
  function DriveReverse(c: Config, robot: Robot, meters: real, trace: seq<Input>): (o: Outcome)
    ensures FirstHit(c, Plain, DistanceAtLeast(meters), Begin(robot, Servos(CW_MIN_SPEED, CCW_MIN_SPEED), -1), trace, o)
    ensures o.Done? ==> o.atExit.drive.distance >= meters && o.traveled >= meters
    ensures o.Done? ==> o.stopped.drive.servo == StopServos() && o.stopped.drive.distance == 0.0
    ensures Exit(o).drive.direction == -1
    // compensation never moves the sum of the commands, so the wheels keep
    // the speed difference they started with
    ensures Exit(o).drive.servo.left + Exit(o).drive.servo.right == CCW_MIN_SPEED + CW_MIN_SPEED
    ensures Valid(c, robot.drive) ==> Valid(c, Exit(o).drive)
  {
    var start := Begin(robot, Servos(CW_MIN_SPEED, CCW_MIN_SPEED), -1);
    RunKeeps(c, Plain, DistanceAtLeast(meters), start, trace);
    Run(c, Plain, DistanceAtLeast(meters), start, trace)
  }

  /** Rotate left in place: both servos clockwise, direction 0, until the
      degrees turned reach `degrees`, then a full stop. The commands are never
      compensated on the way. */
  function DriveLeft(c: Config, robot: Robot, degrees: real, trace: seq<Input>): (o: Outcome)
    ensures FirstHit(c, Plain, DegreesAtLeast(degrees), Begin(robot, Servos(CW_MIN_SPEED, CW_MIN_SPEED), 0), trace, o)
    ensures o.Done? ==> o.atExit.drive.degrees >= degrees
    ensures o.Done? ==> o.stopped.drive.servo == StopServos() && o.stopped.drive.degrees == 0.0
    ensures Exit(o).drive.direction == 0
    ensures Exit(o).drive.servo == Servos(CW_MIN_SPEED, CW_MIN_SPEED)
    ensures Valid(c, robot.drive) ==> Valid(c, Exit(o).drive)
  {
    var start := Begin(robot, Servos(CW_MIN_SPEED, CW_MIN_SPEED), 0);
    RunKeeps(c, Plain, DegreesAtLeast(degrees), start, trace);
    Run(c, Plain, DegreesAtLeast(degrees), start, trace)
  }

  /** Rotate right in place: both servos counter-clockwise, direction 0, until
      the degrees turned reach `degrees`, then a full stop. */
  function DriveRight(c: Config, robot: Robot, degrees: real, trace: seq<Input>): (o: Outcome)
    ensures FirstHit(c, Plain, DegreesAtLeast(degrees), Begin(robot, Servos(CCW_MIN_SPEED, CCW_MIN_SPEED), 0), trace, o)
    ensures o.Done? ==> o.atExit.drive.degrees >= degrees
    ensures o.Done? ==> o.stopped.drive.servo == StopServos() && o.stopped.drive.degrees == 0.0
    ensures Exit(o).drive.direction == 0
    ensures Exit(o).drive.servo == Servos(CCW_MIN_SPEED, CCW_MIN_SPEED)
    ensures Valid(c, robot.drive) ==> Valid(c, Exit(o).drive)
  {
    var start := Begin(robot, Servos(CCW_MIN_SPEED, CCW_MIN_SPEED), 0);
    RunKeeps(c, Plain, DegreesAtLeast(degrees), start, trace);
    Run(c, Plain, DegreesAtLeast(degrees), start, trace)
  }

  /** Drive forward until the distance reaches `limit` or the forward range
      reading drops to `stopRange`; `firstRange` is the reading taken before
      the loop. The stop's distance is the result. */
  function DriveForwardToDistance(c: Config, robot: Robot, limit: real, stopRange: int, firstRange: int,
                                  trace: seq<Input>): (o: Outcome)
    ensures FirstHit(c, Ranged, DistanceOrNear(limit, stopRange),
                     Robot(Begin(robot, Servos(CCW_MIN_SPEED, CW_MIN_SPEED), 1).drive, firstRange), trace, o)
    ensures o.Done? ==> o.atExit.drive.distance >= limit || o.atExit.range <= stopRange
    ensures o.Done? ==> o.traveled == o.atExit.drive.distance && o.stopped.drive.distance == 0.0
    ensures o.Done? && o.used > 0 ==> o.atExit.range == trace[o.used - 1].range
    ensures Exit(o).drive.direction == 1
    ensures Valid(c, robot.drive) ==> Valid(c, Exit(o).drive)
    ensures Exit(o).drive.servo.left + Exit(o).drive.servo.right == CCW_MIN_SPEED + CW_MIN_SPEED
  {
    var start := Robot(Begin(robot, Servos(CCW_MIN_SPEED, CW_MIN_SPEED), 1).drive, firstRange);
    RunKeeps(c, Ranged, DistanceOrNear(limit, stopRange), start, trace);
    var o := Run(c, Ranged, DistanceOrNear(limit, stopRange), start, trace);
    assert o.Done? && o.used > 0 ==> trace[..o.used][..o.used - 1] == trace[..o.used - 1];
    o
  }

  /** Follow a wall on `wall` at range `target` until the distance reaches
      `meters`, steering on every iteration's fresh reading. */
  function WallFollow(c: Config, robot: Robot, wall: Side, target: int, meters: real, trace: seq<Input>): (o: Outcome)
    ensures FirstHit(c, Follow(wall, target), DistanceAtLeast(meters), Begin(robot, Forward(), 1), trace, o)
    ensures o.Done? ==> o.atExit.drive.distance >= meters
    ensures o.Done? ==> o.stopped.drive.servo == StopServos() && o.stopped.drive.distance == 0.0
    ensures Exit(o).drive.direction == 1
    ensures Valid(c, robot.drive) ==> Valid(c, Exit(o).drive)
  {
    var start := Begin(robot, Forward(), 1);
    RunKeeps(c, Follow(wall, target), DistanceAtLeast(meters), start, trace);
    Run(c, Follow(wall, target), DistanceAtLeast(meters), start, trace)
  }

  /** Follow a wall on `wall` at range `target` until the range reading
      reaches `stopRange` (the wall has ended); `firstRange` is the reading
      taken before the loop. The stop's distance is the result. */
  function WallFollowUntil(c: Config, robot: Robot, wall: Side, target: int, stopRange: int, firstRange: int,
                           trace: seq<Input>): (o: Outcome)
    ensures FirstHit(c, Follow(wall, target), RangeAtLeast(stopRange),
                     Robot(Begin(robot, Forward(), 1).drive, firstRange), trace, o)
    ensures o.Done? ==> o.atExit.range >= stopRange
    ensures o.Done? ==> o.traveled == o.atExit.drive.distance && o.stopped.drive.distance == 0.0
    ensures o.Exhausted? ==> Exit(o).range < stopRange
    ensures Exit(o).drive.direction == 1
    ensures Valid(c, robot.drive) ==> Valid(c, Exit(o).drive)
  {
    var start := Robot(Begin(robot, Forward(), 1).drive, firstRange);
    RunKeeps(c, Follow(wall, target), RangeAtLeast(stopRange), start, trace);
    var o := Run(c, Follow(wall, target), RangeAtLeast(stopRange), start, trace);
    assert o.Exhausted? ==> trace[..|trace|] == trace;
    o
  }

  /** Driving forward from a valid state takes at least `meters /
      metersPerTick` average ticks before the loop exits. */
  lemma DriveForwardTicks(c: Config, robot: Robot, meters: real, trace: seq<Input>)
    requires ValidConfig(c) && Valid(c, robot.drive)
    ensures var o := DriveForward(c, robot, meters, trace);
            o.Done? ==> HalfTicks(o.atExit.drive) >= meters / c.metersPerTick
  {
    var o := DriveForward(c, robot, meters, trace);
    if o.Done? {
      TicksForDistance(c, Exit(o).drive, meters);
    }
  }

  /** In a valid state, a distance of at least `meters` needs at least
      `meters / metersPerTick` average ticks. */
  lemma TicksForDistance(c: Config, s: DriveState, meters: real)
    requires ValidConfig(c) && Valid(c, s) && s.distance >= meters
    ensures HalfTicks(s) >= meters / c.metersPerTick
  {
  }

  /** Driving forward over a trace whose replay covers `meters` always stops. */
  lemma DriveForwardStops(c: Config, robot: Robot, meters: real, trace: seq<Input>)
    requires Replay(c, Plain, Begin(robot, Servos(CCW_MIN_SPEED, CW_MIN_SPEED), 1), trace).drive.distance >= meters
    ensures DriveForward(c, robot, meters, trace).Done?
  {
    assert trace[..|trace|] == trace;
    RunStopsOnceGoalReached(c, Plain, DistanceAtLeast(meters),
                            Begin(robot, Servos(CCW_MIN_SPEED, CW_MIN_SPEED), 1), trace, |trace|);
  }
}
