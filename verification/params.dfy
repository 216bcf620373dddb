/** Build-time constants of the GeekBot drive controller, the pair of servo
    commands it writes, and the tick-to-odometry scale it integrates with.

    The controller drives two continuous-rotation servos mounted mirror-wise:
    a pulse above SERVO_STOP turns a servo counter-clockwise, a pulse below
    turns it clockwise, and the further from SERVO_STOP the faster. Driving
    forward therefore means a counter-clockwise left wheel and a clockwise
    right wheel.
 */
module Params {

  /** Servo pulse, in microseconds, for the slowest clockwise speed. */
  const CW_MIN_SPEED: int := 1380
  /** Servo pulse, in microseconds, for the slowest counter-clockwise speed. */
  const CCW_MIN_SPEED: int := 1600
  /** Servo pulse, in microseconds, that holds a servo still. */
  const SERVO_STOP: int := 1500
  /** ADC reading that separates a dark encoder slice from a light one. */
  const ENCODER_VALUE_THRESHOLD: int := 512
  /** Number of slices on a wheel encoder: ticks per wheel revolution. */
  const ENCODER_COUNTS_PER_REVOLUTION: int := 64
  /** Length of a sampling window, in milliseconds. */
  const WINDOW_MS: nat := 100
  /** Pulse change applied by one differential-compensation nudge. */
  const COMPENSATION_STEP: int := 3

  /** A wheel (or the side of the robot a wall is on). */
  datatype Side = Left | Right

  /** The pulse widths written to the left and right servos. */
  datatype Servos = Servos(left: int, right: int)

  /** Both servos held still. */
  function StopServos(): (r: Servos)
    ensures r.left == r.right == SERVO_STOP
  {
    Servos(SERVO_STOP, SERVO_STOP)
  }

  /** Speed of the left wheel in the forward sense, in pulse units: positive
      when the left servo turns counter-clockwise. */
  function LeftForward(s: Servos): int
  {
    s.left - SERVO_STOP
  }

  /** Speed of the right wheel in the forward sense, in pulse units: positive
      when the right servo turns clockwise (the mirrored mounting). */
  function RightForward(s: Servos): int
  {
    SERVO_STOP - s.right
  }

  /** The quantities the controller keeps fixed while it runs: the odometry
      scale (metres and degrees per encoder tick) and the wall-following
      steering gain, which is defined next to the range sensor. */
  datatype Config = Config(metersPerTick: real, degreesPerTick: real, turnGain: int)

  /** A physically meaningful scale: every tick moves the robot forward and
      turns it by a positive amount. */
  predicate ValidConfig(c: Config)
  {
    c.metersPerTick > 0.0 && c.degreesPerTick > 0.0
  }

  /** The scale derived from the wheel geometry: `radius` and `spacing` in
      metres, `pi` the value of the circle constant the build uses. The
      circumference of the in-place rotation circle is that of a circle whose
      radius is half the wheel spacing. */
  function ScaleFromGeometry(pi: real, radius: real, spacing: real, turnGain: int): (c: Config)
    requires pi > 0.0 && radius > 0.0 && spacing > 0.0
    ensures ValidConfig(c) && c.turnGain == turnGain
    ensures c.metersPerTick * (ENCODER_COUNTS_PER_REVOLUTION as real) == 2.0 * pi * radius
    ensures c.degreesPerTick * (ENCODER_COUNTS_PER_REVOLUTION as real) * spacing == 720.0 * radius
  {
    var metersPerRevolution := 2.0 * pi * radius;
    var rotationCircumference := 2.0 * pi * (spacing / 2.0);
    var degreesPerRevolution := metersPerRevolution / rotationCircumference * 360.0;
    assert degreesPerRevolution * spacing == 720.0 * radius by {
      assert rotationCircumference == pi * spacing;
      assert metersPerRevolution / rotationCircumference == 2.0 * radius / spacing;
    }
    Config(metersPerRevolution / ENCODER_COUNTS_PER_REVOLUTION as real,
           degreesPerRevolution / ENCODER_COUNTS_PER_REVOLUTION as real,
           turnGain)
  }
}
