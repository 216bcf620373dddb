/** The drive controller's state and its control tick.

    `Step` is one call of the controller's encoder routine with the sensor and
    clock reads turned into inputs: it runs both edge detectors and, once more
    than a window has passed, closes the window (compensation, odometry,
    window reset), the compensation being the one the code applies,
    `CompensateAsWritten`. The routine ends by writing the servo commands; the pair
    written is the `servo` field of the state `Step` returns.
 */
module Controller {
  import opened Params
  import opened Encoder
  import opened Compensator

  /** The controller's whole state: the commands last set, the drive direction
      (+1 forward, -1 reverse, 0 rotating in place), both encoder channels,
      the odometry since the last stop and the start of the current window. */
  datatype DriveState = DriveState(
    servo: Servos,
    direction: int,
    left: Wheel,
    right: Wheel,
    distance: real,
    degrees: real,
    lastTimestamp: nat)

  /** The readings one tick takes: the two encoder ADC values and the clock,
      in milliseconds. */
  datatype Sample = Sample(adcLeft: int, adcRight: int, now: nat)

  function WheelOf(s: DriveState, side: Side): Wheel
  {
    match side
    case Left => s.left
    case Right => s.right
  }

  function Adc(smp: Sample, side: Side): int
  {
    match side
    case Left => smp.adcLeft
    case Right => smp.adcRight
  }

  /** Average of the two wheels' cumulative ticks. */
  function HalfTicks(s: DriveState): real
  {
    (s.left.traveled + s.right.traveled) as real / 2.0
  }

  /** The state invariant: both detectors armed one way, and distance and
      degrees equal to the average cumulative tick count times their scale. */
  predicate Valid(c: Config, s: DriveState)
  {
    && Armed(s.left)
    && Armed(s.right)
    && s.distance == HalfTicks(s) * c.metersPerTick
    && s.degrees == HalfTicks(s) * c.degreesPerTick
  }

  /** The state at power-up, `now` being the clock then. */
  function Init(now: nat): (s: DriveState)
    ensures forall c: Config :: Valid(c, s)
    // both detectors wait for a rising edge, with nothing counted yet
    ensures s.left.rising && !s.left.falling && s.left.window == 0 && s.left.traveled == 0
    ensures s.right.rising && !s.right.falling && s.right.window == 0 && s.right.traveled == 0
    ensures s.servo == StopServos() && s.direction == 1
    ensures s.distance == 0.0 && s.degrees == 0.0 && s.lastTimestamp == now
  {
    DriveState(StopServos(), 1, StartWheel(), StartWheel(), 0.0, 0.0, now)
  }

  /** The window closes only once strictly more than a window has passed. */
  predicate WindowDue(s: DriveState, now: nat)
  {
    s.lastTimestamp + WINDOW_MS < now
  }

  /** Closing a window: compensation on the window counts, the window counts
      folded into the cumulative counts and the odometry, then a new window
      opened at `now`. */
  function CloseWindow(c: Config, s: DriveState, now: nat): (r: DriveState)
    ensures r.servo == CompensateAsWritten(s.servo, s.direction, s.left.window, s.right.window)
    ensures r.direction == s.direction && r.lastTimestamp == now
    ensures r.left.window == 0 && r.right.window == 0
    ensures r.left.traveled == s.left.traveled + s.left.window
    ensures r.right.traveled == s.right.traveled + s.right.window
    ensures r.left.rising == s.left.rising && r.left.falling == s.left.falling
    ensures r.right.rising == s.right.rising && r.right.falling == s.right.falling
    ensures Valid(c, s) ==> Valid(c, r)
    ensures r.distance - s.distance == (s.left.window + s.right.window) as real / 2.0 * c.metersPerTick
    ensures r.degrees - s.degrees == (s.left.window + s.right.window) as real / 2.0 * c.degreesPerTick
  {
    var avg := (s.left.window + s.right.window) as real / 2.0;
    var r := DriveState(
      CompensateAsWritten(s.servo, s.direction, s.left.window, s.right.window),
      s.direction,
      s.left.(traveled := s.left.traveled + s.left.window, window := 0),
      s.right.(traveled := s.right.traveled + s.right.window, window := 0),
      s.distance + avg * c.metersPerTick,
      s.degrees + avg * c.degreesPerTick,
      now);
    assert HalfTicks(r) == HalfTicks(s) + avg;
    r
  }

  /** Both edge detectors run on their own wheel's reading. */
  function SampleWheels(s: DriveState, smp: Sample): (t: DriveState)
    ensures t.left == Detect(s.left, smp.adcLeft) && t.right == Detect(s.right, smp.adcRight)
    ensures t.servo == s.servo && t.direction == s.direction && t.lastTimestamp == s.lastTimestamp
    ensures t.distance == s.distance && t.degrees == s.degrees
  {
    s.(left := Detect(s.left, smp.adcLeft), right := Detect(s.right, smp.adcRight))
  }

  /** One control tick. */
  function Step(c: Config, s: DriveState, smp: Sample): (r: DriveState)
    ensures r.direction == s.direction
    // before the window is due, only window counts and arm flags can change
    ensures !WindowDue(s, smp.now) ==>
              && r.servo == s.servo
              && r.distance == s.distance && r.degrees == s.degrees
              && r.left.traveled == s.left.traveled && r.right.traveled == s.right.traveled
              && r.lastTimestamp == s.lastTimestamp
    // once it is due, the window is closed on the counts including this sample
    ensures WindowDue(s, smp.now) ==>
              && r.lastTimestamp == smp.now
              && r.left.window == 0 && r.right.window == 0
              && r.left.traveled == s.left.traveled + Detect(s.left, smp.adcLeft).window
              && r.right.traveled == s.right.traveled + Detect(s.right, smp.adcRight).window
              && r.servo == CompensateAsWritten(s.servo, s.direction,
                                                Detect(s.left, smp.adcLeft).window,
                                                Detect(s.right, smp.adcRight).window)
    // in-place rotation is never compensated
    ensures s.direction == 0 ==> r.servo == s.servo
    // the sum of the two commands never moves, so neither does the wheels'
    // speed difference (see the compensator)
    ensures r.servo.left + r.servo.right == s.servo.left + s.servo.right
  {
    var sampled := SampleWheels(s, smp);
    if WindowDue(s, smp.now) then CloseWindow(c, sampled, smp.now) else sampled
  }

  /** A tick keeps the state invariant. */
  lemma StepKeepsValid(c: Config, s: DriveState, smp: Sample)
    requires Valid(c, s)
    ensures Valid(c, Step(c, s, smp))
  {
    assert HalfTicks(SampleWheels(s, smp)) == HalfTicks(s);
  }

  /** A tick's odometry never runs backwards: a window close adds the average
      of the two window counts, scaled, to distance and to degrees. */
  lemma StepOdometry(c: Config, s: DriveState, smp: Sample)
    ensures WindowDue(s, smp.now) ==>
              var avg := (Detect(s.left, smp.adcLeft).window + Detect(s.right, smp.adcRight).window) as real / 2.0;
              && Step(c, s, smp).distance == s.distance + avg * c.metersPerTick
              && Step(c, s, smp).degrees == s.degrees + avg * c.degreesPerTick
    ensures ValidConfig(c) ==> Step(c, s, smp).distance >= s.distance && Step(c, s, smp).degrees >= s.degrees
  {
  }

  /** Each wheel's detector sees only its own reading, every tick counts at
      most one edge per wheel, and closing a window loses no tick. */
  lemma StepWheel(c: Config, s: DriveState, smp: Sample, side: Side)
    ensures WheelOf(Step(c, s, smp), side).rising == Detect(WheelOf(s, side), Adc(smp, side)).rising
    ensures WheelOf(Step(c, s, smp), side).falling == Detect(WheelOf(s, side), Adc(smp, side)).falling
    ensures Total(WheelOf(Step(c, s, smp), side)) == Total(Detect(WheelOf(s, side), Adc(smp, side)))
    ensures Total(WheelOf(Step(c, s, smp), side)) == Total(WheelOf(s, side))
         || Total(WheelOf(Step(c, s, smp), side)) == Total(WheelOf(s, side)) + 1
  {
  }

  /** What a full stop returns: the state after it and the distance it read. */
  datatype Stopped = Stopped(state: DriveState, traveled: real)

  /** The full stop: both servos to SERVO_STOP, the distance so far returned,
      and distance, degrees and cumulative ticks reset. Window counts, arm
      flags, direction and window start are left as they are. */
  function Stop(s: DriveState): (r: Stopped)
    ensures r.traveled == s.distance
    ensures r.state.servo == StopServos()
    ensures r.state.distance == 0.0 && r.state.degrees == 0.0
    ensures r.state.left.traveled == 0 && r.state.right.traveled == 0
    ensures r.state.left.window == s.left.window && r.state.right.window == s.right.window
    ensures r.state.left.rising == s.left.rising && r.state.left.falling == s.left.falling
    ensures r.state.right.rising == s.right.rising && r.state.right.falling == s.right.falling
    ensures r.state.direction == s.direction && r.state.lastTimestamp == s.lastTimestamp
    ensures forall c: Config :: Valid(c, s) ==> Valid(c, r.state)
  {
    Stopped(
      s.(servo := StopServos(),
         left := s.left.(traveled := 0),
         right := s.right.(traveled := 0),
         distance := 0.0,
         degrees := 0.0),
      s.distance)
  }

  /** A stop right after a stop returns nothing and changes nothing. */
  lemma StopTwice(s: DriveState)
    ensures Stop(Stop(s).state).traveled == 0.0
    ensures Stop(Stop(s).state).state == Stop(s).state
  {
  }

  /** Ticks counted while driving add up to the distance: the odometry of a
      valid state is a function of the cumulative counts alone. */
  lemma DistanceFromTicks(c: Config, s: DriveState)
    requires Valid(c, s) && ValidConfig(c)
    ensures s.distance >= 0.0 && s.degrees >= 0.0
    ensures s.distance == 0.0 <==> s.left.traveled + s.right.traveled == 0
  {
  }
}
