/** Wall-following steering: a two-level relay around a target range. The
    steering sets one wheel to its slowest forward speed and slows the other
    further by the steering gain, so that the robot turns toward the wall when
    the reading is above the target (too far) and away from it otherwise.
 */
module Steering {
  import opened Params

  /** The forward command pair every straight primitive starts from. */
  function Forward(): (s: Servos)
    ensures LeftForward(s) > 0 && RightForward(s) > 0
  {
    Servos(CCW_MIN_SPEED, CW_MIN_SPEED)
  }

  /** How much faster the left wheel runs than under `Forward()`, relative to
      the right wheel: negative turns the robot left, positive turns it right. */
  function Bias(s: Servos): int
  {
    (LeftForward(s) - RightForward(s)) - (LeftForward(Forward()) - RightForward(Forward()))
  }

  /** The commands for one tick of wall following with the wall on `wall`,
      given the range reading and the target. */
  function Steer(wall: Side, target: int, range: int, gain: int): (r: Servos)
    // one wheel stays at its base speed, the other loses exactly `gain`
    ensures (LeftForward(r) == LeftForward(Forward()) && RightForward(r) == RightForward(Forward()) - gain)
         || (RightForward(r) == RightForward(Forward()) && LeftForward(r) == LeftForward(Forward()) - gain)
    // the robot turns toward the wall exactly when the reading is above the target
    ensures gain > 0 ==> (Bias(r) < 0 <==> (wall == Left <==> range > target))
    ensures Bias(r) == gain || Bias(r) == -gain
  {
    match wall
    case Left =>
      if range > target then Servos(CCW_MIN_SPEED - gain, CW_MIN_SPEED)
      else Servos(CCW_MIN_SPEED, CW_MIN_SPEED + gain)
    case Right =>
      if range > target then Servos(CCW_MIN_SPEED, CW_MIN_SPEED + gain)
      else Servos(CCW_MIN_SPEED - gain, CW_MIN_SPEED)
  }

  /** With a positive gain exactly one wheel is moved toward SERVO_STOP, and the
      slowed wheel is the left one exactly when the robot must turn left. */
  lemma SteerSlowsOneWheel(wall: Side, target: int, range: int, gain: int)
    requires gain > 0
    ensures var r := Steer(wall, target, range, gain);
            (LeftForward(r) < LeftForward(Forward())) != (RightForward(r) < RightForward(Forward()))
    ensures var r := Steer(wall, target, range, gain);
            LeftForward(r) < LeftForward(Forward()) <==> (wall == Left <==> range > target)
  {
  }

  /** Following a wall on the right mirrors following one on the left: for the
      same reading the two turn the opposite way by the same amount. */
  lemma SteerMirrored(target: int, range: int, gain: int)
    ensures Bias(Steer(Right, target, range, gain)) == -Bias(Steer(Left, target, range, gain))
  {
  }
}
