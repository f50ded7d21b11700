/**
 * The two ways FixedUpdate turns its inputs into a pair of wheel torques:
 * tank-style mixing of the human axes, and the layered obstacle-avoidance
 * policy of the autonomous mode (drive straight, steer away from the closer
 * side, pivot in place when boxed in).
 *
 * Negative torque drives a wheel forward: driving straight is `-speed` on
 * both wheels.
 */
module DriveController {
  import opened Distances

  datatype DriveCommand = DriveCommand(leftTorque: real, rightTorque: real)

  /** Below this distance on both sides the robot stops and turns. */
  const STOP_DIST: real := 0.9

  function Abs(x: real): real {
    if x < 0.0 then -x else x
  }

  // ---------------------------------------------------------------------
  // Human mode
  // ---------------------------------------------------------------------

  /**
   * The mixing: both wheels get the throttle `-vert * speed`; a positive
   * `horiz` drives the left wheel harder, a negative one the right wheel.
   */
  function Mix(vert: real, horiz: real, wheelSpeedUser: real): DriveCommand {
    DriveCommand(
      -vert * wheelSpeedUser - (if horiz > 0.0 then horiz * wheelSpeedUser else 0.0),
      -vert * wheelSpeedUser + (if horiz < 0.0 then horiz * wheelSpeedUser else 0.0))
  }

  /**
   * The mixing as throttle plus turn: the difference of the two torques is
   * `-horiz * speed` and their sum `-(2 * vert + |horiz|) * speed`.  These two
   * equations determine the pair.
   */
  lemma MixIsThrottlePlusTurn(vert: real, horiz: real, w: real, c: DriveCommand)
    ensures c == Mix(vert, horiz, w) <==>
              && c.leftTorque - c.rightTorque == -horiz * w
              && c.leftTorque + c.rightTorque == -(2.0 * vert + Abs(horiz)) * w
  {
  }

  /** At most the wheel named by the sign of `horiz` leaves the throttle value. */
  lemma MixAdjustsOneWheel(vert: real, horiz: real, w: real)
    ensures horiz == 0.0 ==> Mix(vert, horiz, w) == DriveCommand(-vert * w, -vert * w)
    ensures horiz > 0.0 ==> Mix(vert, horiz, w) == DriveCommand(-vert * w - horiz * w, -vert * w)
    ensures horiz < 0.0 ==> Mix(vert, horiz, w) == DriveCommand(-vert * w, -vert * w + horiz * w)
  {
  }

  /** Human-mode mixing as FixedUpdate writes it, reassigning both torques. */
  method HumanMix(inputVert: real, inputHoriz: real, wheelSpeedUser: real)
    returns (forceLeftWheel: real, forceRightWheel: real)
    ensures DriveCommand(forceLeftWheel, forceRightWheel) == Mix(inputVert, inputHoriz, wheelSpeedUser)
    ensures forceLeftWheel - forceRightWheel == -inputHoriz * wheelSpeedUser
    ensures forceLeftWheel + forceRightWheel == -(2.0 * inputVert + Abs(inputHoriz)) * wheelSpeedUser
  {
    forceLeftWheel := -inputVert * wheelSpeedUser;
    forceRightWheel := -inputVert * wheelSpeedUser;
    if inputHoriz > 0.0 {
      forceLeftWheel := forceLeftWheel - inputHoriz * wheelSpeedUser;
    }
    if inputHoriz < 0.0 {
      forceRightWheel := forceRightWheel + inputHoriz * wheelSpeedUser;
    }
    MixIsThrottlePlusTurn(inputVert, inputHoriz, wheelSpeedUser, DriveCommand(forceLeftWheel, forceRightWheel));
  }

  // ---------------------------------------------------------------------
  // Autonomous mode
  // ---------------------------------------------------------------------

  /** Both sides report an obstacle closer than the stop distance. */
  predicate BoxedIn(minDistLeft: Dist, minDistRight: Dist) {
    Below(minDistLeft, STOP_DIST) && Below(minDistRight, STOP_DIST)
  }

  /** Some side reports an obstacle within the ray length. */
  predicate ObstacleInRange(minDistLeft: Dist, minDistRight: Dist, rayLength: real) {
    AtMost(minDistLeft, rayLength) || AtMost(minDistRight, rayLength)
  }

  /** The steering correction: three times the proximity times the speed. */
  function Correction(rayLength: real, minDist: real, wheelSpeedAuto: real): real {
    (rayLength - minDist) * wheelSpeedAuto * 3.0
  }

  /**
   * The decision policy by precedence: the boxed-in pivot wins over
   * everything, steering away wins over driving straight.  In the steering
   * case the side read is always finite.
   */
  function Policy(minDistLeft: Dist, minDistRight: Dist, rayLength: real, wheelSpeedAuto: real): DriveCommand {
    if BoxedIn(minDistLeft, minDistRight) then
      DriveCommand(wheelSpeedAuto, -wheelSpeedAuto)
    else if ObstacleInRange(minDistLeft, minDistRight, rayLength) then
      if Less(minDistLeft, minDistRight) then
        DriveCommand(-wheelSpeedAuto - Correction(rayLength, minDistLeft.v, wheelSpeedAuto), 0.0)
      else
        DriveCommand(0.0, -wheelSpeedAuto - Correction(rayLength, minDistRight.v, wheelSpeedAuto))
    else
      DriveCommand(-wheelSpeedAuto, -wheelSpeedAuto)
  }

  /** +infinity on either side never triggers the boxed-in pivot. */
  lemma InfNeverBoxedIn(minDistLeft: Dist, minDistRight: Dist)
    ensures minDistLeft.Inf? || minDistRight.Inf? ==> !BoxedIn(minDistLeft, minDistRight)
  {
  }

  /** Boxed in, the robot pivots in place, whichever side is nearer. */
  lemma BoxedInDominates(minDistLeft: Dist, minDistRight: Dist, rayLength: real, w: real)
    requires BoxedIn(minDistLeft, minDistRight)
    ensures Policy(minDistLeft, minDistRight, rayLength, w) == DriveCommand(w, -w)
  {
  }

  /**
   * With no obstacle within the ray length and not boxed in, the robot
   * drives straight.  (Not boxed in is not implied: with a ray length below
   * the stop distance, two finite minima between the two are boxed in.)
   */
  lemma NoObstacleDrivesStraight(minDistLeft: Dist, minDistRight: Dist, rayLength: real, w: real)
    requires !BoxedIn(minDistLeft, minDistRight)
    requires !ObstacleInRange(minDistLeft, minDistRight, rayLength)
    ensures Policy(minDistLeft, minDistRight, rayLength, w) == DriveCommand(-w, -w)
  {
  }

  /**
   * Steering away: the closer side's wheel gets the straight torque plus
   * three times the proximity times the speed, the other wheel is stopped.
   * An exact tie takes the right-side branch.
   */
  lemma SteerAway(minDistLeft: Dist, minDistRight: Dist, rayLength: real, w: real)
    requires !BoxedIn(minDistLeft, minDistRight) && ObstacleInRange(minDistLeft, minDistRight, rayLength)
    ensures Less(minDistLeft, minDistRight) ==>
              Policy(minDistLeft, minDistRight, rayLength, w) ==
              DriveCommand(-w - (rayLength - minDistLeft.v) * w * 3.0, 0.0)
    ensures !Less(minDistLeft, minDistRight) ==>
              minDistRight.Finite? &&
              Policy(minDistLeft, minDistRight, rayLength, w) ==
              DriveCommand(0.0, -w - (rayLength - minDistRight.v) * w * 3.0)
    ensures minDistLeft == minDistRight ==>
              Policy(minDistLeft, minDistRight, rayLength, w).leftTorque == 0.0
  {
  }

  /**
   * With a positive speed the steering branch turns away from the closer
   * obstacle: the wheel on that side is driven forward (more negative
   * torque) harder than the stopped wheel on the other side.
   */
  lemma SteersAwayFromCloserSide(minDistLeft: Dist, minDistRight: Dist, rayLength: real, w: real)
    requires w > 0.0
    requires !BoxedIn(minDistLeft, minDistRight) && ObstacleInRange(minDistLeft, minDistRight, rayLength)
    ensures Less(minDistLeft, minDistRight) ==>
              && Policy(minDistLeft, minDistRight, rayLength, w).leftTorque <= -w
              && Policy(minDistLeft, minDistRight, rayLength, w).rightTorque == 0.0
    ensures !Less(minDistLeft, minDistRight) ==>
              && Policy(minDistLeft, minDistRight, rayLength, w).rightTorque <= -w
              && Policy(minDistLeft, minDistRight, rayLength, w).leftTorque == 0.0
  {
    if Less(minDistLeft, minDistRight) {
      CorrectionNonNeg(rayLength, minDistLeft.v, w);
    } else {
      CorrectionNonNeg(rayLength, minDistRight.v, w);
    }
  }

  /** Within the ray length and at a non-negative speed, the correction never brakes. */
  lemma CorrectionNonNeg(rayLength: real, minDist: real, w: real)
    requires minDist <= rayLength && 0.0 <= w
    ensures 0.0 <= Correction(rayLength, minDist, w)
  {
    assert 0.0 <= (rayLength - minDist) * w;
  }

  /**
   * The autonomous decision as FixedUpdate writes it: a straight baseline,
   * then the steering adjustment, then the boxed-in override, each
   * reassigning the torques computed before it.
   */
  method DriveAutonomous(minDistLeft: Dist, minDistRight: Dist, rayLength: real, wheelSpeedAuto: real)
    returns (forceLeftWheel: real, forceRightWheel: real)
    ensures DriveCommand(forceLeftWheel, forceRightWheel) ==
            Policy(minDistLeft, minDistRight, rayLength, wheelSpeedAuto)
  {
    // baseline: both wheels forward at the autonomous speed
    forceLeftWheel := -wheelSpeedAuto;
    forceRightWheel := -wheelSpeedAuto;

    // steering adjustment: push the wheel on the closer side, stop the other
    if AtMost(minDistLeft, rayLength) || AtMost(minDistRight, rayLength) {
      if Less(minDistLeft, minDistRight) {
        forceLeftWheel := forceLeftWheel - Correction(rayLength, minDistLeft.v, wheelSpeedAuto);
        forceRightWheel := 0.0;
      } else {
        forceRightWheel := forceRightWheel - Correction(rayLength, minDistRight.v, wheelSpeedAuto);
        forceLeftWheel := 0.0;
      }
    }

    // boxed-in override: pivot in place, replacing both torques
    if Below(minDistLeft, STOP_DIST) && Below(minDistRight, STOP_DIST) {
      forceLeftWheel := wheelSpeedAuto;
      forceRightWheel := -wheelSpeedAuto;
    }
  }
}
