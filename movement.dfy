/**
 * One fixed control tick of the robot (Movement.FixedUpdate): in human mode
 * the two axes are mixed into wheel torques; otherwise the probe fan is
 * reduced to the nearest obstacle on each side and the decision policy turns
 * those two distances into wheel torques.
 *
 * The engine is outside the model: the axes and the fan's ray-cast results
 * are parameters, and the torque pair the tick would write to the two wheel
 * colliders is returned.
 */
module Movement {
  import opened Distances
  import opened ProbeField
  import opened DriveController

  /**
   * The configuration fields the model keeps.  The sweep's `rayReach` and
   * `rayCount` are not among them: the fan's offsets are an input.
   */
  datatype Config = Config(
    userControls: bool,
    wheelSpeedUser: real,
    wheelSpeedAuto: real,
    rayLength: real)

  /** What the autonomous mode commands for a given fan of probes. */
  function Autonomous(probes: seq<Probe>, rayLength: real, wheelSpeedAuto: real): DriveCommand {
    var r := Scan(probes, rayLength);
    Policy(r.minDistLeft, r.minDistRight, rayLength, wheelSpeedAuto)
  }

  /** The command of one tick: exactly one of the two modes decides it. */
  function Tick(cfg: Config, inputVert: real, inputHoriz: real, probes: seq<Probe>): DriveCommand {
    if cfg.userControls then Mix(inputVert, inputHoriz, cfg.wheelSpeedUser)
    else Autonomous(probes, cfg.rayLength, cfg.wheelSpeedAuto)
  }

  /** Some probe of the fan is a qualifying hit with a non-zero offset. */
  predicate ObstacleSeen(probes: seq<Probe>, rayLength: real) {
    exists i :: 0 <= i < |probes| && (CountsFor(probes[i], rayLength, Left) || CountsFor(probes[i], rayLength, Right))
  }

  /**
   * The human mode ignores the fan, the autonomous mode ignores the axes:
   * the two paths never mix.
   */
  lemma ModesExclusive(cfg: Config, v1: real, h1: real, p1: seq<Probe>, v2: real, h2: real, p2: seq<Probe>)
    ensures cfg.userControls ==> Tick(cfg, v1, h1, p1) == Tick(cfg, v1, h1, p2)
    ensures !cfg.userControls ==> Tick(cfg, v1, h1, p1) == Tick(cfg, v2, h2, p1)
  {
  }

  /**
   * The steering branch is entered exactly when some off-centre probe of
   * the fan reports a qualifying hit.
   */
  lemma {:induction false} SteeringIffObstacleSeen(probes: seq<Probe>, rayLength: real)
    ensures ObstacleInRange(Scan(probes, rayLength).minDistLeft, Scan(probes, rayLength).minDistRight, rayLength)
            <==> ObstacleSeen(probes, rayLength)
  {
    ScanIsNearest(probes, rayLength, Left);
    ScanIsNearest(probes, rayLength, Right);
    ScanBounds(probes, rayLength, Left);
    ScanBounds(probes, rayLength, Right);
  }

  /**
   * A fan in which no off-centre probe qualifies (an empty scene, an
   * all-miss or all-floor fan) makes the robot drive straight.
   */
  lemma ClearFanDrivesStraight(probes: seq<Probe>, rayLength: real, w: real)
    requires !ObstacleSeen(probes, rayLength)
    ensures Autonomous(probes, rayLength, w) == DriveCommand(-w, -w)
  {
    ScanIsNearest(probes, rayLength, Left);
    ScanIsNearest(probes, rayLength, Right);
  }

  /**
   * A single qualifying hit, on the left half of the fan, and nothing
   * qualifying on the right half: the left minimum is exactly that hit's
   * distance and the right one stays +infinity (the sides are never swapped).
   */
  lemma SingleLeftObstacle(probes: seq<Probe>, rayLength: real, i: nat)
    requires i < |probes| && CountsFor(probes[i], rayLength, Left)
    requires forall j :: 0 <= j < |probes| && CountsFor(probes[j], rayLength, Left) ==> j == i
    requires forall j :: 0 <= j < |probes| ==> !CountsFor(probes[j], rayLength, Right)
    ensures Scan(probes, rayLength) == ProbeResult(Finite(probes[i].ray.distance), Inf)
  {
    ScanIsNearest(probes, rayLength, Left);
    ScanIsNearest(probes, rayLength, Right);
  }

  /**
   * A qualifying hit closer than the stop distance on each half of the fan
   * makes the robot pivot in place, whatever else the fan reports.
   */
  lemma BoxedInFan(probes: seq<Probe>, rayLength: real, w: real, i: nat, j: nat)
    requires i < |probes| && CountsFor(probes[i], rayLength, Left) && probes[i].ray.distance < STOP_DIST
    requires j < |probes| && CountsFor(probes[j], rayLength, Right) && probes[j].ray.distance < STOP_DIST
    ensures Autonomous(probes, rayLength, w) == DriveCommand(w, -w)
  {
    ScanIsNearest(probes, rayLength, Left);
    ScanIsNearest(probes, rayLength, Right);
  }

  /**
   * Movement.FixedUpdate: both torques start at 0 and are then set by
   * exactly one of the two modes.
   */
  method FixedUpdate(cfg: Config, inputVert: real, inputHoriz: real, probes: seq<Probe>)
    returns (forceLeftWheel: real, forceRightWheel: real)
    ensures DriveCommand(forceLeftWheel, forceRightWheel) == Tick(cfg, inputVert, inputHoriz, probes)
  {
    forceLeftWheel, forceRightWheel := 0.0, 0.0;
    if cfg.userControls {
      forceLeftWheel, forceRightWheel := HumanMix(inputVert, inputHoriz, cfg.wheelSpeedUser);
    } else {
      var minDistLeft, minDistRight := ScanProbes(probes, cfg.rayLength);
      forceLeftWheel, forceRightWheel := DriveAutonomous(minDistLeft, minDistRight, cfg.rayLength, cfg.wheelSpeedAuto);
    }
  }
}
