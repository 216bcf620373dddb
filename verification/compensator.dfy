/** Differential wheel-speed compensation, run once per sampling window while
    driving straight. It compares the two wheels' window tick counts and, when
    they differ by more than one tick, nudges the servo commands.

    Speeds are read through `LeftForward` and `RightForward`: with the
    mirrored servo mounting a larger left pulse and a smaller right pulse both
    mean a faster forward wheel. In those terms the code as written speeds up
    both wheels by the same amount when the left wheel leads and slows both
    when the right wheel leads; either way their difference, the quantity the
    compensation exists to correct, does not change.
    `CompensateAsWritten` keeps that behaviour, and is what the controller
    applies; `Compensate` is the evidently intended correction, which slows the
    leading wheel and speeds up the lagging one.
 */
module Compensator {
  import opened Params

  /** The compensation exactly as the source writes it. */
  function CompensateAsWritten(servo: Servos, direction: int, left: int, right: int): (r: Servos)
    // the pulse sum, and with it the speed difference of the wheels, never moves
    ensures r.left + r.right == servo.left + servo.right
    ensures LeftForward(r) - RightForward(r) == LeftForward(servo) - RightForward(servo)
    // nothing happens while rotating or when the wheels are within one tick
    ensures direction == 0 || -1 <= left - right <= 1 ==> r == servo
    // a correction moves both wheels the same way along the direction of travel
    ensures direction != 0 && (left - right > 1 || right - left > 1) ==>
              LeftForward(r) - LeftForward(servo) == RightForward(r) - RightForward(servo) != 0
    ensures direction != 0 && left - right > 1 ==>
              LeftForward(r) == LeftForward(servo) + COMPENSATION_STEP * direction
    ensures direction != 0 && right - left > 1 ==>
              LeftForward(r) == LeftForward(servo) - COMPENSATION_STEP * direction
  {
    if direction != 0 then
      if left - right > 1 then
        Servos(servo.left + direction * COMPENSATION_STEP, servo.right - direction * COMPENSATION_STEP)
      else if right - left > 1 then
        Servos(servo.left - direction * COMPENSATION_STEP, servo.right + direction * COMPENSATION_STEP)
      else servo
    else servo
  }

  /** As written, when the left wheel leads it is made faster along the
      direction of travel, not slower, and so is the lagging right wheel. */
  lemma AsWrittenSpeedsUpLeader(servo: Servos, direction: int, left: int, right: int)
    requires direction != 0 && left - right > 1
    ensures direction * (LeftForward(CompensateAsWritten(servo, direction, left, right)) - LeftForward(servo)) > 0
    ensures direction * (RightForward(CompensateAsWritten(servo, direction, left, right)) - RightForward(servo)) > 0
  {
  }

  /** As written, when the right wheel leads both wheels are made slower along
      the direction of travel, the lagging left wheel included. */
  lemma AsWrittenSlowsLaggard(servo: Servos, direction: int, left: int, right: int)
    requires direction != 0 && right - left > 1
    ensures direction * (LeftForward(CompensateAsWritten(servo, direction, left, right)) - LeftForward(servo)) < 0
    ensures direction * (RightForward(CompensateAsWritten(servo, direction, left, right)) - RightForward(servo)) < 0
  {
  }

  /** The forward scenario: left 5 ticks, right 2. Both wheels end further
      from SERVO_STOP than they started, so both are faster. */
  lemma AsWrittenForwardScenario()
    ensures CompensateAsWritten(Servos(CCW_MIN_SPEED, CW_MIN_SPEED), 1, 5, 2) == Servos(1603, 1377)
    ensures LeftForward(Servos(1603, 1377)) > LeftForward(Servos(CCW_MIN_SPEED, CW_MIN_SPEED))
    ensures RightForward(Servos(1603, 1377)) > RightForward(Servos(CCW_MIN_SPEED, CW_MIN_SPEED))
  {
  }

  /** The compensation the code evidently intends: the leading wheel is slowed and
      the lagging wheel sped up, each by one step along the direction of travel. */
  function Compensate(servo: Servos, direction: int, left: int, right: int): (r: Servos)
    // the common forward speed of the two wheels is kept
    ensures LeftForward(r) + RightForward(r) == LeftForward(servo) + RightForward(servo)
    // nothing happens while rotating or when the wheels are within one tick
    ensures direction == 0 || -1 <= left - right <= 1 ==> r == servo
    // otherwise the leading wheel loses one step of speed along the direction
    // of travel and the lagging wheel gains one
    ensures direction != 0 && left - right > 1 ==>
              && LeftForward(r) == LeftForward(servo) - COMPENSATION_STEP * direction
              && RightForward(r) == RightForward(servo) + COMPENSATION_STEP * direction
    ensures direction != 0 && right - left > 1 ==>
              && LeftForward(r) == LeftForward(servo) + COMPENSATION_STEP * direction
              && RightForward(r) == RightForward(servo) - COMPENSATION_STEP * direction
  {
    if direction != 0 && left - right > 1 then
      Servos(servo.left - direction * COMPENSATION_STEP, servo.right - direction * COMPENSATION_STEP)
    else if direction != 0 && right - left > 1 then
      Servos(servo.left + direction * COMPENSATION_STEP, servo.right + direction * COMPENSATION_STEP)
    else servo
  }

  /** Whatever the sign of the direction, the corrected compensation slows the
      leading wheel and speeds up the lagging one along the direction of travel. */
  lemma CompensateSlowsLeader(servo: Servos, direction: int, left: int, right: int)
    requires direction != 0 && (left - right > 1 || right - left > 1)
    ensures var r := Compensate(servo, direction, left, right);
            left - right > 1 ==>
              direction * (LeftForward(r) - LeftForward(servo)) < 0 &&
              direction * (RightForward(r) - RightForward(servo)) > 0
    ensures var r := Compensate(servo, direction, left, right);
            right - left > 1 ==>
              direction * (LeftForward(r) - LeftForward(servo)) > 0 &&
              direction * (RightForward(r) - RightForward(servo)) < 0
  {
  }

  /** Corrected, the compensation closes the gap: the signed speed difference
      (left minus right, along the direction of travel) falls by two steps when
      the left wheel leads and rises by two steps when the right wheel leads. */
  lemma CompensateNarrowsGap(servo: Servos, direction: int, left: int, right: int)
    requires direction == 1 || direction == -1
    ensures var r := Compensate(servo, direction, left, right);
            var before := direction * (LeftForward(servo) - RightForward(servo));
            var after := direction * (LeftForward(r) - RightForward(r));
            (left - right > 1 ==> after == before - 2 * COMPENSATION_STEP) &&
            (right - left > 1 ==> after == before + 2 * COMPENSATION_STEP) &&
            (-1 <= left - right <= 1 ==> after == before)
  {
  }
}
