# Quadruped locomotion core: a Dafny model

This project models three small, deterministic pieces of a quadruped robot's
locomotion stack and proves properties of them:

- **The locomotion controller's tick** (`LocomotionController.dfy`): the gait
  clock `timeSinceReset`, which freezes while the robot is stopped; the
  stop/resume handshake driven by the signed `swingSemaphore`, which latches
  `stopTick` and raises the robot's `stop` flag when a swing starts with no
  unit left; the resume step `ForwardOne`, which shifts `resetTime` by the time
  spent stopped; and the merge of the swing and stance controllers' joint
  commands.
- **Math helpers** (`Algebra.dfy`): `clip_min`, `clip_max`, `clip`, `square`,
  the scalar and matrix `almostEqual`, and the 1 x 1 branch of
  `pseudoInverse`.
- **The robot pose estimator** (`RobotPoseEstimator.dfy`): the first-call /
  later-call timestamp logic of `ComputeDeltaTime`, the grounded-leg height
  estimate, planar odometry in `ComputePose`, and the write order and
  simulator override of `Update`.

`LegStates.dfy` holds the shared vocabulary: leg states, locomotion modes and
motor commands.

The state is held in immutable records and most operations are pure
functions. The `GetAction` variants are methods. The joint loops
(`MergeActions`, `ZeroActions`) and the matrix `almostEqual` are methods
with loops. Floating-point values
are reals. The collaborators are inputs: the gait generator's leg-state
vectors, the robot clock's readings, the 3 x 3 orientation and ground-aligned matrices,
foot positions, the velocity estimates and the leg controllers' command maps.
`cos` and `sin` are passed to the odometry as function parameters. The times
handed to the collaborators during a controller tick are outputs
(`TickTimes`).

## Behaviour worth noting

- With no grounded leg, `EstimateRobotHeight` returns the robot's nominal
  `bodyHeight` and leaves `heightInControlFrame` untouched.
- `ForwardOne` from the stopped semaphore value -1 increments twice, skipping
  0, and ends at 1.
- The controller's `Reset` re-anchors the clock only; the semaphore,
  `stopTick` and both stop flags keep their values.
- The controller's `Update` reads the robot clock up to three times: for the
  gait time, when latching `stopTick`, and for the stance controller's time.
  The model keeps the three readings apart (`ClockReads`). On the tick that
  stops the robot, the frozen gait time is taken at the first reading but the
  stop tick at the second, so after the resume the gait time is ahead of the
  frozen value by the clock time that passed between those two readings
  (`GaitTimeAcrossStop`).

## Model

| member | source | states |
|---|---|---|
| `Algebra.ClipMin` | quadruped/include/quadruped/utils/algebra.h:15-22 | the result is at least `minVal`; it is `command` when `command >= minVal`, `minVal` otherwise |
| `Algebra.ClipMinIdempotent` | quadruped/include/quadruped/utils/algebra.h:15-22 | clipping below twice equals clipping once |
| `Algebra.ClipMax` | quadruped/include/quadruped/utils/algebra.h:25-32 | the result is at most `maxVal`; it is `command` when `command <= maxVal`, `maxVal` otherwise |
| `Algebra.ClipMaxIdempotent` | quadruped/include/quadruped/utils/algebra.h:25-32 | clipping above twice equals clipping once |
| `Algebra.Clip` | quadruped/include/quadruped/utils/algebra.h:35-44 | with `minVal <= maxVal` the result lies in the interval; in-range input is unchanged; below-range input gives `minVal` |
| `Algebra.ClipIsClipMinThenClipMax` | quadruped/include/quadruped/utils/algebra.h:35-44 | for a well-formed interval, `clip` equals `clip_max` of `clip_min` and also the reverse composition, and it is idempotent |
| `Algebra.ClipInvertedBounds` | quadruped/include/quadruped/utils/algebra.h:35-44 | with `minVal > maxVal` the lower test fires first: input below `minVal` gives `minVal`, all else gives `maxVal`; this differs from `clip_max(clip_min(...))` |
| `Algebra.Square` | quadruped/include/quadruped/utils/algebra.h:47-51 | a square is never negative and equals the square of the absolute value |
| `Algebra.SquareEven` | quadruped/include/quadruped/utils/algebra.h:47-51 | `square(-a) == square(a)` |
| `Algebra.AlmostEqual` | quadruped/include/quadruped/utils/algebra.h:79-86 | scalar `almostEqual` holds iff `a` lies strictly within `tol` of `b`; it can only hold for a positive tolerance |
| `Algebra.AlmostEqualProperties` | quadruped/include/quadruped/utils/algebra.h:79-86 | scalar `almostEqual` holds iff `-tol < a - b < tol`; it is symmetric; an error equal to `tol` gives false; a non-positive `tol` rejects everything |
| `Algebra.AlmostEqualMatrix` | quadruped/include/quadruped/utils/algebra.h:54-75 | true iff every entry pair is within the strict tolerance (vacuously true for an empty matrix); on false, reports the first failing entry in row-major order, with all earlier entries passing |
| `Algebra.PseudoInverse1x1` | quadruped/include/quadruped/utils/algebra.h:98-106 | a 1 x 1 result; an entry above the threshold gets its reciprocal, any other entry gives 0 |
| `Algebra.PseudoInverse1x1IsPseudoInverse` | quadruped/include/quadruped/utils/algebra.h:98-106 | an entry whose signed value is above the threshold gets a Moore-Penrose pseudo-inverse (`m*inv*m == m` and `inv*m*inv == inv`); with a non-negative threshold every non-positive entry maps to 0, so a negative entry never gets one (see Findings) |
| `Algebra.PseudoInverse1x1NegativeEntry` | quadruped/include/quadruped/utils/algebra.h:100-104 | for `[[-2]]` and threshold 0.001 the 1 x 1 branch returns 0, and `-2 * 0 * -2 != -2`, although the singular value 2 passes the threshold |
| `Algebra.PseudoInverse1x1ByMagnitude` | quadruped/include/quadruped/utils/algebra.h:98-122 | corrected 1 x 1 branch: 1 x 1 result, and an entry whose magnitude (its singular value) is at most the threshold gives 0, as the singular-value loop does |
| `Algebra.PseudoInverse1x1ByMagnitudeIsPseudoInverse` | quadruped/include/quadruped/utils/algebra.h:98-122 | every non-zero entry whose magnitude passes the threshold, negative ones included, gets a result that satisfies both Moore-Penrose identities; on non-negative entries the corrected branch equals the branch as written |
| `LocomotionController.Reset` | src/quadruped/src/controller/qr_locomotion_controller.cpp:44-53 | `resetTime` becomes the robot time and `timeSinceReset` becomes 0; semaphore, stop tick and both stop flags are kept |
| `LocomotionController.ResetThenUpdate` | src/quadruped/src/controller/qr_locomotion_controller.cpp:44-107 | after a reset at `t0`, a tick of a running robot gives gait time `t - t0` for its gait-time clock reading `t`, and the stance controller gets `t' - t0` for its own reading `t'` |
| `LocomotionController.SwitchToSwingFrom` | src/quadruped/src/controller/qr_locomotion_controller.cpp:64-75 | the leg scan finds a switch iff some leg goes from stance to swing or is in user-defined swing |
| `LocomotionController.Update` | src/quadruped/src/controller/qr_locomotion_controller.cpp:55-108 | the gait time is the first clock reading minus `resetTime` when running, and frozen when stopped; the stance controller always gets its own (third) clock reading minus `resetTime`; the CoM planner runs only in position mode; outside walk mode, or with no swing start, the handshake is untouched; in walk mode a swing start decrements a positive semaphore, turns 0 into -1 with `stopTick` set to the second clock reading and the robot stopped, and changes nothing below 0 |
| `LocomotionController.ForwardOne` | src/quadruped/src/controller/qr_locomotion_controller.cpp:141-150 | both stop flags are cleared; semaphore -1 becomes 1 and `resetTime` moves forward by `now - stopTick`; any other semaphore value increments with `resetTime` kept; the result is never 0 |
| `LocomotionController.UpdatePreservesInvariant` | src/quadruped/src/controller/qr_locomotion_controller.cpp:76-89 | a tick keeps the semaphore at or above -1 and keeps "robot stopped iff semaphore is -1"; the tick that stops the robot freezes a gait time that lags `stopTick - resetTime` by the time between its first and second clock readings, and a stopped robot keeps that lag |
| `LocomotionController.ForwardOnePreservesInvariant` | src/quadruped/src/controller/qr_locomotion_controller.cpp:141-150 | resuming keeps the handshake invariant and leaves the semaphore at least 1 |
| `LocomotionController.StoppedUpdateIsIdle` | src/quadruped/src/controller/qr_locomotion_controller.cpp:57-88 | a stopped controller is a fixed point of a tick |
| `LocomotionController.StoppedTicksAreIdle` | src/quadruped/src/controller/qr_locomotion_controller.cpp:57-88 | any number of ticks while stopped leave the controller unchanged |
| `LocomotionController.RunPreservesInvariant` | src/quadruped/src/controller/qr_locomotion_controller.cpp:77-88 | from a state where the semaphore is at least -1 and the robot is stopped exactly when it is -1, both facts hold after any sequence of ticks, resumes and resets |
| `LocomotionController.RunKeepsSemaphoreBound` | src/quadruped/src/controller/qr_locomotion_controller.cpp:77-88 | over any sequence of ticks, resumes and resets, a semaphore that starts at -1 or above never drops below -1 |
| `LocomotionController.GaitTimeAcrossStop` | src/quadruped/src/controller/qr_locomotion_controller.cpp:55-150 | stop on a tick with clock readings `ts`, any ticks while stopped, resume at `tResume`, next tick reading `tNext`: the stop tick latches the second reading, the gait time freezes at the first minus `resetTime`, and the next gait time is the frozen one plus `tNext - tResume` plus the gap between the stopping tick's first and second readings; when both are 0 it equals the frozen gait time |
| `LocomotionController.MergeActions` | src/quadruped/src/controller/qr_locomotion_controller.cpp:118-125 | one command per motor in joint order: the swing command if the swing map has the joint, else the stance command, else a value-initialised (zero) command |
| `LocomotionController.GetActionAsWritten` | src/quadruped/src/controller/qr_locomotion_controller.cpp:110-127 | the merged commands are stored in the member vector; the returned vector is empty; the force solution is passed through |
| `LocomotionController.GetAction` | src/quadruped/src/controller/qr_locomotion_controller.cpp:110-127 | corrected: the caller receives one command per motor in joint order: the swing command, else the stance command, else the zero command; and the force solution |
| `LocomotionController.ZeroActions` | src/quadruped/src/controller/qr_locomotion_controller.cpp:135-137 | one all-zero command per motor |
| `LocomotionController.GetFakeActionAsWritten` | src/quadruped/src/controller/qr_locomotion_controller.cpp:129-139 | zero commands are stored, the returned vector is empty, and the force matrix is the zero 3 x 4 matrix |
| `LocomotionController.GetFakeAction` | src/quadruped/src/controller/qr_locomotion_controller.cpp:129-139 | corrected: the caller receives one zero command per motor and the zero 3 x 4 force matrix |
| `RobotPoseEstimator.Reset` | quadruped/src/estimators/robot_pose_estimator.cpp:25-30 | the last timestamp is cleared; the pose is loaded from the base position and roll/pitch/yaw; the control-frame height becomes the nominal body height |
| `RobotPoseEstimator.ResetThenDeltaTime` | quadruped/src/estimators/robot_pose_estimator.cpp:25-43 | the first delta time after a reset is the nominal time step |
| `RobotPoseEstimator.ComputeDeltaTime` | quadruped/src/estimators/robot_pose_estimator.cpp:32-43 | an unset last timestamp (magnitude below 1e-5) gives the nominal step; otherwise `last + 1000 * dt == tick`; the tick always becomes the last timestamp and nothing else changes |
| `RobotPoseEstimator.DeltaTimesTelescope` | quadruped/src/estimators/robot_pose_estimator.cpp:32-43 | once a timestamp is recorded, the deltas over any run of non-zero ticks add up to the elapsed ticks in seconds |
| `RobotPoseEstimator.ResetDeltaTimesSum` | quadruped/src/estimators/robot_pose_estimator.cpp:25-43 | after a reset, the deltas add up to the nominal step plus the ticks elapsed since the first observation, in seconds |
| `RobotPoseEstimator.GroundedLeg` | quadruped/src/estimators/robot_pose_estimator.cpp:75-92 | in walk mode a leg counts iff it is not scheduled for true swing or it made early contact; in other modes it counts iff scheduled for stance |
| `RobotPoseEstimator.EstimateRobotHeight` | quadruped/src/estimators/robot_pose_estimator.cpp:66-108 | with no grounded leg: the nominal body height, with the state untouched; otherwise: the count of grounded legs times the height equals the sum of their world-frame heights `-(R p)_z`, and the same holds for the control-frame height and `-(G^T R p)_z`, and nothing else changes |
| `RobotPoseEstimator.EstimateIsMeanOfGroundedLegs` | quadruped/src/estimators/robot_pose_estimator.cpp:98-107 | when at least one leg is grounded and each grounded foot's height lies in `[lo, hi]`, the estimate lies in `[lo, hi]`; so the division is never by zero and equal foot heights give that height |
| `RobotPoseEstimator.NoGroundedLegKeepsHeight` | quadruped/src/estimators/robot_pose_estimator.cpp:94-96 | with no grounded leg the estimate is the nominal body height and the control-frame height is kept |
| `RobotPoseEstimator.FlatGroundHeightsAgree` | quadruped/src/estimators/robot_pose_estimator.cpp:101-105 | with an identity ground frame the control-frame height equals the returned height |
| `RobotPoseEstimator.EstimateIsIdempotent` | quadruped/src/estimators/robot_pose_estimator.cpp:66-108 | estimating again on the same inputs gives the same height and the same state |
| `RobotPoseEstimator.ComputePose` | quadruped/src/estimators/robot_pose_estimator.cpp:111-141 | roll, pitch and estimated height are kept; the base position's x and y mirror the new pose; vertical position and yaw integrate `vz*dt` and `yawRate*dt` unscaled |
| `RobotPoseEstimator.ComputePoseDisplacement` | quadruped/src/estimators/robot_pose_estimator.cpp:126-131 | the planar step is `1.1 * dt` times the body velocity rotated by the current yaw; at zero yaw it is `(1.1*vx*dt, 1.1*vy*dt)` |
| `RobotPoseEstimator.ComputePoseSplits` | quadruped/src/estimators/robot_pose_estimator.cpp:126-133 | with zero yaw rate, steps `dt1` then `dt2` give the same state as one step `dt1 + dt2` |
| `RobotPoseEstimator.IntegrateIsOneStep` | quadruped/src/estimators/robot_pose_estimator.cpp:126-133 | with constant velocity and zero yaw rate, any split of the total time into one or more steps ends where one step of the total does |
| `RobotPoseEstimator.Update` | quadruped/src/estimators/robot_pose_estimator.cpp:45-64 | the tick becomes the last timestamp; the pose height is the height estimate; the base position equals the pose position; with a simulator x and y are the ground truth; roll and pitch are kept |
| `RobotPoseEstimator.SimOverridesOnlyPlanarPosition` | quadruped/src/estimators/robot_pose_estimator.cpp:56-63 | a simulated update equals the estimated update with x and y replaced by ground truth in both pose and base position; height, yaw and the integrated vertical position stay estimated |
| `RobotPoseEstimator.UpdateIntegratesOdometry` | quadruped/src/estimators/robot_pose_estimator.cpp:45-53 | without a simulator, x, y, yaw and the vertical position advance by the odometry step over the measured delta time |

## Findings

| source | as written | input that shows it | evidently intended | confidence | as-written member | corrected member |
|---|---|---|---|---|---|---|
| src/quadruped/src/controller/qr_locomotion_controller.cpp:116-126 | `GetAction` fills the member `this->action` but returns the local `action` declared at line 116, which is never filled | `numMotors = 12`, any command maps: the returned command vector is empty while the member holds 12 commands | return the merged commands | high; not executed | `LocomotionController.GetActionAsWritten` | `LocomotionController.GetAction` |
| src/quadruped/src/controller/qr_locomotion_controller.cpp:133-138 | `GetFakeAction` pushes zero commands into `this->action` but returns the unfilled local `action` | `numMotors = 12`: the returned command vector is empty | return one zero command per motor | high; not executed | `LocomotionController.GetFakeActionAsWritten` | `LocomotionController.GetFakeAction` |
| quadruped/include/quadruped/utils/algebra.h:100 | the 1 x 1 branch of `pseudoInverse` compares the signed entry with the singular-value threshold, so, with a non-negative threshold, a negative entry always gives 0 | `[[-2]]` with threshold 0.001: the result is `[[0]]`, not the pseudo-inverse `[[-0.5]]` that the SVD branch (lines 108-122) computes from singular value 2 | compare the magnitude `abs(m(0,0))`, the 1 x 1 singular value, with the threshold | medium; not executed | `Algebra.PseudoInverse1x1NegativeEntry` | `Algebra.PseudoInverse1x1ByMagnitude` |

## Left out

- Collaborators: the gait generator, ground-surface estimator, CoM planner, swing and stance leg controllers, velocity estimator and robot accessors. Their outputs are inputs here, and the times passed to them are outputs.
- The walk-mode pose-planner branch of the controller's `Update` (lines 98-103) only prints a message, and every `printf` is left out.
- The two constructors only repeat what the modelled `Reset`s do, and the initial values of `swingSemaphore`, `stop` and `stopTick` come from a header that is not part of this model.
- The general SVD branch of `pseudoInverse`, and `CholeskyDenseSolver` / `CholeskySparseSolver`, are floating-point numerics with no bodies to check against.
- The QP force optimizer (`qp_torque_optimizer.h`), the stand-up/sit-down action pacing loops, and the ROS odometry and simulator transport are declarations or I/O outside the core.
- The integer codes of `LegState` / `SubLegState` are not visible. The model assumes `TRUE_SWING` differs from every `LegState` value.
- Floating-point rounding is not modelled: floats are reals, and the factor `1.1f` is the real 1.1. So exact identities such as `ComputePoseSplits` hold only approximately in the program.
- `LocomotionController.ForwardOne`: the 32-bit `int` semaphore is unbounded here, because wrap-around would need more than 2^31 resumes.
- `RobotPoseEstimator.ComputeDeltaTime`: the tick is a natural number. The `uint32` wrap and the float conversion of large ticks are not modelled.
- `Algebra.PseudoInverse1x1`: a zero entry with a negative threshold makes `pseudoInverse` divide by zero (an IEEE infinity). The model returns 0 there, and its reciprocal promise excludes that case.
- `LocomotionController.MergeActions`: a joint missing from both maps gets the command that `std::map::operator[]` inserts. The model assumes that command is all zeros (value initialisation).
- `Algebra.AlmostEqualMatrix`: the matrices are given the same shape, which `almostEqual` only asserts for dynamic sizes and gets from the type for fixed sizes.
