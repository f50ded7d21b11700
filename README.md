# AutonomousRobot drive step, modelled in Dafny

This project models the one fixed-rate control tick of the AutonomousRobot
Unity project: `Movement.FixedUpdate`. It proves properties of the model.

The tick runs in one of two modes, chosen by the `userControls` flag.

- **Human mode.** The vertical and horizontal input axes are mixed,
  tank-style, into a pair of wheel torques.
- **Autonomous mode.** A fan of ray probes is cast in front of the robot.
  The loop keeps two running minima:
  - the nearest qualifying obstacle on the left half of the fan (lateral
    offset `d > 0`);
  - the nearest qualifying obstacle on the right half (`d < 0`).

  A hit qualifies when something was struck, the surface is not tagged as
  floor, and its distance is below `rayLength`. A layered policy then turns
  the two distances into torques, each layer reassigning what the one before
  it computed:
  - start from driving straight, `(-w, -w)`;
  - when some minimum is `<= rayLength`, steer away from the closer side:
    that side's wheel gets `-w - (rayLength - min)*w*3` and the other wheel 0
    (an exact tie takes the right-side branch);
  - last, when both minima are below the stop distance 0.9, the pivot
    `(w, -w)` overrides both earlier layers.

Negative torque drives a wheel forward.

The files:

- `distances.dfy` (module `Distances`): `Dist = Finite(v) | Inf`. These are
  distances that may be `+∞`, with the float comparisons the tick uses, read
  the IEEE way.
- `probe_field.dfy` (module `ProbeField`):
  - probes, as an offset plus an abstract ray-cast result `Miss | Hit(distance, isFloor)`;
  - the loop body `Step` and the fold `Scan`;
  - the imperative loop `ScanProbes`, proved equal to `Scan`;
  - the lemmas that each side of `Scan` is the nearest qualifying distance on
    that side.
- `drive_controller.dfy` (module `DriveController`):
  - the specification functions `Mix` and `Policy`;
  - the imperative methods `HumanMix` and `DriveAutonomous`, which reassign
    the torques step by step as the source does;
  - lemmas about the policy's branches.
- `movement.dfy` (module `Movement`):
  - the tick `Tick`;
  - the method `FixedUpdate`;
  - end-to-end lemmas from a probe fan to the command.

Scalars are `real`. The modelled arithmetic is only `+`, `-`, `*` and
comparisons; float rounding is not modelled (see Left out).

## Model

| member | source | states |
|---|---|---|
| `Distances.Lower` | Assets/Movement.cs:78-81 | The running-minimum update gives the smaller of the current minimum and the new distance. The result is one of the two, and a finite value is never raised. |
| `ProbeField.StepSide` | Assets/Movement.cs:76-82 | One probe changes only its own side's minimum, to the smaller of its distance and the current minimum. It does so only when it qualifies (hit, not floor, distance < rayLength). Offset 0 changes neither side. |
| `ProbeField.StepUnchanged` | Assets/Movement.cs:76-81 | A non-qualifying probe, or one with offset 0, leaves both minima as they were. |
| `ProbeField.StepCommutes` | Assets/Movement.cs:67-83 | Processing two probes in either order gives the same minima. |
| `ProbeField.ScanInsert` | Assets/Movement.cs:67-83 | Wherever a probe sits in the fan, the result equals the result of the fan without it, updated by that probe alone. |
| `ProbeField.IgnoredProbe` | Assets/Movement.cs:76-81 | Inserting a miss, a floor hit, a hit at or beyond rayLength, or an offset-0 probe anywhere in the fan leaves the result unchanged. |
| `ProbeField.SidedProbe` | Assets/Movement.cs:78-81 | Inserting a qualifying probe anywhere sets its own side's minimum to the smaller of its distance and the current minimum. It leaves the other side's minimum unchanged. |
| `ProbeField.ScanIsNearest` | Assets/Movement.cs:66-83 | Each side of the reduction is `Inf` exactly when no probe qualifies on that side. Otherwise it is the distance of some qualifying probe on that side, and no qualifying probe on that side is closer. |
| `ProbeField.ScanBounds` | Assets/Movement.cs:66-83 | Every finite minimum satisfies `0 <= v < rayLength`. |
| `ProbeField.NothingQualifies` | Assets/Movement.cs:66-83 | A fan where nothing qualifies, such as an all-miss fan, gives `(Inf, Inf)`. |
| `ProbeField.ScanProbes` | Assets/Movement.cs:65-83 | The in-place running-minimum loop returns the fold's result. Each of its two minima is the nearest qualifying distance on its side (loop invariant: the minima equal the fold over the probes processed so far). |
| `DriveController.MixIsThrottlePlusTurn` | Assets/Movement.cs:53-59 | A pair is the human-mode mix exactly when `left - right == -horiz*w` and `left + right == -(2*vert + abs(horiz))*w`. |
| `DriveController.MixAdjustsOneWheel` | Assets/Movement.cs:53-59 | Both wheels start at `-vert*w`. `horiz > 0` subtracts `horiz*w` from the left wheel only. `horiz < 0` adds `horiz*w` to the right wheel only. `horiz == 0` leaves `(-vert*w, -vert*w)`. |
| `DriveController.HumanMix` | Assets/Movement.cs:53-59 | The step-by-step reassignment of the two torques gives the mix. Its difference and sum are the turn and throttle terms above. |
| `DriveController.InfNeverBoxedIn` | Assets/Movement.cs:107-108 | `+∞` on either side never triggers the boxed-in pivot. |
| `DriveController.BoxedInDominates` | Assets/Movement.cs:107-114 | Both minima below 0.9 gives exactly `(w, -w)`, whatever the earlier branches computed. |
| `DriveController.NoObstacleDrivesStraight` | Assets/Movement.cs:85-90 | When not boxed in and neither minimum is `<= rayLength` (for example both `Inf`), the command is exactly `(-w, -w)`. |
| `DriveController.SteerAway` | Assets/Movement.cs:89-104 | When not boxed in and some minimum is `<= rayLength`: a strictly closer left side gives `(-w - (L - left)*w*3, 0)`. Otherwise, including an exact tie, it gives `(0, -w - (L - right)*w*3)`, and the right minimum read there is finite. |
| `DriveController.CorrectionNonNeg` | Assets/Movement.cs:94-100 | For a minimum within the ray length and a non-negative speed, the steering term `(rayLength - min)*w*3` is non-negative. So steering only ever adds forward torque to the closer side's wheel. |
| `DriveController.SteersAwayFromCloserSide` | Assets/Movement.cs:89-104 | With `w > 0`, the wheel on the closer side gets torque `<= -w`, and the other wheel is stopped at 0. So the robot turns away from the closer obstacle. |
| `DriveController.DriveAutonomous` | Assets/Movement.cs:85-114 | The baseline, then the steering adjustment, then the override, each reassigning the torques, give exactly the policy. In the policy the pivot takes precedence over steering, and steering over driving straight. |
| `Movement.ModesExclusive` | Assets/Movement.cs:47-63 | In human mode the command does not depend on the probe fan. In autonomous mode it does not depend on the axes. |
| `Movement.SteeringIffObstacleSeen` | Assets/Movement.cs:76-90 | After the reduction, the steering condition holds exactly when some probe with a non-zero offset reports a qualifying hit. |
| `Movement.ClearFanDrivesStraight` | Assets/Movement.cs:66-90 | A fan with no qualifying off-centre hit (empty scene, all misses, only floor) makes the robot drive straight `(-w, -w)`. |
| `Movement.SingleLeftObstacle` | Assets/Movement.cs:76-81 | With one qualifying hit, on the left half, and none on the right, the result is `(Finite(distance), Inf)`. The sides are never swapped. |
| `Movement.BoxedInFan` | Assets/Movement.cs:76-114 | A qualifying hit closer than 0.9 on each half of the fan makes the robot pivot `(w, -w)`. |
| `Movement.FixedUpdate` | Assets/Movement.cs:44-122 | The tick returns the torque pair of exactly one mode: the mix of the axes in human mode, or the policy applied to the fan's reduction in autonomous mode. |

## Left out

- The ray geometry of each probe (origin, skewed direction, lifted start point) and the engine's `Physics.Raycast`. A probe is modelled only by its lateral offset and an abstract result `Miss | Hit(distance, isFloor)`, with a non-negative distance.
- The floor test compares the hit object's tag with `"floor"`. The model represents it by the `isFloor` flag.
- The float accumulation of the sweep offsets (`d += raySpread` from `-rayReach/2` to `rayReach/2`). The number of probes it yields depends on rounding, so `rayReach` and `rayCount` are not parameters: the fan's offsets are given as an input sequence, in casting order. For some settings the source's sweep never terminates, so the tick never returns: `rayReach == 0` (the step is 0 and `d` stays at 0), a negative `rayCount` (the step is negative and `d` never passes `rayReach/2`), or a step below half the float spacing of `d` (`d += raySpread` leaves `d` unchanged). The model takes a finite fan and does not represent this non-termination.
- IEEE float behaviour (rounding, NaN) is not modelled. Every scalar is a `real`. The stop distance `0.9f` is the real 0.9, not the nearest float. The steering branch never reads an infinite minimum, so no infinite arithmetic arises.
- Input polling (`Input.GetAxis`). The two axes are parameters.
- The writes of the torques to the two `WheelCollider.motorTorque` properties. `FixedUpdate` returns the pair instead.
- `Debug.DrawRay` and `Debug.Log`: debug output only.
- `Start` (cursor setup), `ApplyPositionToWheel` (wheel pose copy) and `Update` (camera follow). These are engine transform and rendering calls with float rotation maths, outside the control tick.
- Configuration validity (positive ray length, speeds, probe count). The source does not check it. The tick itself assumes none of it; the probe settings it would concern are not part of the model (see the sweep above). Only two lemmas assume a valid speed: `SteersAwayFromCloserSide` assumes a positive speed to state the turning direction, and `CorrectionNonNeg` assumes a non-negative speed (and a minimum within the ray length) to state that the steering term is non-negative.
