/** The robot pose estimator: a timestamp state machine, a body-height
    estimate averaged over the grounded feet, and planar odometry. The gait
    generator's leg states, the robot's orientation and foot positions, the
    ground estimator's aligned frame and the velocity estimator's outputs are
    inputs; cos and sin are passed in as functions. */
module RobotPoseEstimator {
  import opened LegStates
  import opened Algebra

  /** The estimated pose vector: position followed by roll, pitch, yaw. */
  datatype Pose = Pose(x: real, y: real, z: real, roll: real, pitch: real, yaw: real)

  /** Estimator state, together with the robot fields it writes:
      `basePosition`, `heightInControlFrame` and `absoluteHeight`. */
  datatype Estimator = Estimator(
    lastTimestamp: real,
    pose: Pose,
    basePosition: Vec3,
    heightInControlFrame: real,
    absoluteHeight: real)

  /** Below this magnitude the last timestamp counts as unset. */
  const UnsetTimestampTolerance: real := 0.00001

  /** Ticks are milliseconds. */
  const TicksPerSecond: real := 1000.0

  /** Empirical correction applied to the planar displacement. */
  const OdometryScale: real := 1.1

  /** Reset from the robot's raw base position and roll/pitch/yaw; the
      control-frame height is reset to the nominal body height. */
  function Reset(e: Estimator, basePosition: Vec3, rollPitchYaw: Vec3, bodyHeight: real): (r: Estimator)
    ensures r.lastTimestamp == 0.0
    ensures r.pose == Pose(basePosition.x, basePosition.y, basePosition.z,
                           rollPitchYaw.x, rollPitchYaw.y, rollPitchYaw.z)
    ensures r.heightInControlFrame == bodyHeight
    ensures r.basePosition == e.basePosition && r.absoluteHeight == e.absoluteHeight
  {
    Estimator(0.0, Pose(basePosition.x, basePosition.y, basePosition.z,
                        rollPitchYaw.x, rollPitchYaw.y, rollPitchYaw.z),
              e.basePosition, bodyHeight, e.absoluteHeight)
  }

  datatype DeltaTime = DeltaTime(dt: real, next: Estimator)

  /** The time since the previous observation, in seconds: the nominal time
      step when no timestamp has been recorded yet, the tick difference
      otherwise. The tick becomes the new last timestamp. */
  function ComputeDeltaTime(e: Estimator, tick: nat, timeStep: real): (r: DeltaTime)
    ensures r.next == e.(lastTimestamp := tick as real)
    ensures Abs(e.lastTimestamp) < UnsetTimestampTolerance ==> r.dt == timeStep
    ensures Abs(e.lastTimestamp) >= UnsetTimestampTolerance ==>
              e.lastTimestamp + r.dt * TicksPerSecond == tick as real
  {
    var dt := if Abs(e.lastTimestamp) < UnsetTimestampTolerance then timeStep
              else (tick as real - e.lastTimestamp) / TicksPerSecond;
    DeltaTime(dt, e.(lastTimestamp := tick as real))
  }

  /** The first delta after a reset is the nominal time step. */
  lemma ResetThenDeltaTime(e: Estimator, basePosition: Vec3, rollPitchYaw: Vec3, bodyHeight: real,
                           tick: nat, timeStep: real)
    ensures ComputeDeltaTime(Reset(e, basePosition, rollPitchYaw, bodyHeight), tick, timeStep).dt == timeStep
  {
  }

  /** The deltas of successive observations. */
  function DeltaTimes(e: Estimator, ticks: seq<nat>, timeStep: real): seq<real>
    decreases |ticks|
  {
    if |ticks| == 0 then []
    else var step := ComputeDeltaTime(e, ticks[0], timeStep);
         [step.dt] + DeltaTimes(step.next, ticks[1..], timeStep)
  }

  function Sum(s: seq<real>): real
  {
    if |s| == 0 then 0.0 else s[0] + Sum(s[1..])
  }

  /** Once a timestamp is recorded, and as long as the ticks are non-zero,
      the deltas add up to the elapsed ticks in seconds. */
  lemma {:induction false} DeltaTimesTelescope(e: Estimator, ticks: seq<nat>, timeStep: real)
    requires |ticks| > 0
    requires Abs(e.lastTimestamp) >= UnsetTimestampTolerance
    requires forall i :: 0 <= i < |ticks| ==> ticks[i] >= 1
    ensures Sum(DeltaTimes(e, ticks, timeStep)) == (ticks[|ticks| - 1] as real - e.lastTimestamp) / TicksPerSecond
    decreases |ticks|
  {
    var step := ComputeDeltaTime(e, ticks[0], timeStep);
    if |ticks| > 1 {
      DeltaTimesTelescope(step.next, ticks[1..], timeStep);
      assert ticks[1..][|ticks[1..]| - 1] == ticks[|ticks| - 1];
    }
  }

  /** After a reset the first delta is the nominal step and the rest add up
      to the ticks elapsed since the first observation. */
  lemma ResetDeltaTimesSum(e: Estimator, basePosition: Vec3, rollPitchYaw: Vec3, bodyHeight: real,
                           ticks: seq<nat>, timeStep: real)
    requires |ticks| > 0
    requires forall i :: 0 <= i < |ticks| ==> ticks[i] >= 1
    ensures Sum(DeltaTimes(Reset(e, basePosition, rollPitchYaw, bodyHeight), ticks, timeStep))
            == timeStep + (ticks[|ticks| - 1] as real - ticks[0] as real) / TicksPerSecond
  {
    var first := ComputeDeltaTime(Reset(e, basePosition, rollPitchYaw, bodyHeight), ticks[0], timeStep);
    if |ticks| > 1 {
      DeltaTimesTelescope(first.next, ticks[1..], timeStep);
      assert ticks[1..][|ticks[1..]| - 1] == ticks[|ticks| - 1];
    }
  }

  /** Whether a leg counts as grounded for the height estimate. In walk mode
      `EstimateRobotHeight` tests three disjuncts, which reduce to: the leg is not
      scheduled for true swing, or it touched down early. */
  function GroundedLeg(mode: LocomotionMode, desired: LegState, detected: LegState): (g: bool)
    ensures mode == WalkLocomotion ==> (g <==> desired != TrueSwing || detected == EarlyContact)
    ensures mode != WalkLocomotion ==> (g <==> desired == Stance)
  {
    if mode == WalkLocomotion then
      desired != TrueSwing || desired == Stance || (desired == TrueSwing && detected == EarlyContact)
    else
      desired == Stance
  }

  /** The per-leg contact mask. */
  function Contacts(mode: LocomotionMode, desired: seq<LegState>, detected: seq<LegState>): (mask: seq<bool>)
    requires IsLegVector(desired) && IsLegVector(detected)
  {
    seq(NumLegs, i requires 0 <= i < NumLegs => GroundedLeg(mode, desired[i], detected[i]))
  }

  function CountTrue(mask: seq<bool>): nat
  {
    if |mask| == 0 then 0 else (if mask[0] then 1 else 0) + CountTrue(mask[1..])
  }

  /** The sum of the heights of the legs the mask selects. */
  function MaskedSum(mask: seq<bool>, heights: seq<real>): real
    requires |mask| == |heights|
  {
    if |mask| == 0 then 0.0
    else (if mask[0] then heights[0] else 0.0) + MaskedSum(mask[1..], heights[1..])
  }

  /** Each foot's height below the body in the world frame: the negated
      vertical component of R * p. */
  function WorldHeights(rotation: Matrix, feet: seq<Vec3>): (h: seq<real>)
    requires IsMatrix(rotation, 3, 3)
    ensures |h| == |feet|
  {
    seq(|feet|, i requires 0 <= i < |feet| => -MatVec3(rotation, feet[i]).z)
  }

  /** The same heights re-expressed in the ground-aligned frame: the negated
      vertical component of G^T * R * p. */
  function ControlHeights(ground: Matrix, rotation: Matrix, feet: seq<Vec3>): (h: seq<real>)
    requires IsMatrix(ground, 3, 3) && IsMatrix(rotation, 3, 3)
    ensures |h| == |feet|
  {
    seq(|feet|, i requires 0 <= i < |feet| => -TransposeMatVec3(ground, MatVec3(rotation, feet[i])).z)
  }

  datatype HeightEstimate = HeightEstimate(height: real, next: Estimator)

  /** The height estimate. With no grounded leg the nominal body height is
      returned and the state is untouched; otherwise the mean world-frame
      height of the grounded feet is returned and the mean control-frame
      height is recorded. */
  function EstimateRobotHeight(e: Estimator, mode: LocomotionMode,
                               desired: seq<LegState>, detected: seq<LegState>, bodyHeight: real,
                               rotation: Matrix, feet: seq<Vec3>, ground: Matrix): (r: HeightEstimate)
    requires IsLegVector(desired) && IsLegVector(detected) && |feet| == NumLegs
    requires IsMatrix(rotation, 3, 3) && IsMatrix(ground, 3, 3)
    ensures var mask := Contacts(mode, desired, detected);
            CountTrue(mask) == 0 ==> r.height == bodyHeight && r.next == e
    ensures var mask := Contacts(mode, desired, detected);
            var k := CountTrue(mask) as real;
            CountTrue(mask) > 0 ==>
              && r.height * k == MaskedSum(mask, WorldHeights(rotation, feet))
              && r.next == e.(heightInControlFrame := r.next.heightInControlFrame)
              && r.next.heightInControlFrame * k == MaskedSum(mask, ControlHeights(ground, rotation, feet))
  {
    var mask := Contacts(mode, desired, detected);
    var k := CountTrue(mask);
    if k == 0 then HeightEstimate(bodyHeight, e)
    else
      var controlHeight := MaskedSum(mask, ControlHeights(ground, rotation, feet)) / k as real;
      HeightEstimate(MaskedSum(mask, WorldHeights(rotation, feet)) / k as real,
                     e.(heightInControlFrame := controlHeight))
  }

  /** Bounds on every selected height bound their sum. */
  lemma {:induction false} MaskedSumBounds(mask: seq<bool>, heights: seq<real>, lo: real, hi: real)
    requires |mask| == |heights|
    requires forall i :: 0 <= i < |mask| && mask[i] ==> lo <= heights[i] <= hi
    ensures (CountTrue(mask) as real) * lo <= MaskedSum(mask, heights) <= (CountTrue(mask) as real) * hi
    decreases |mask|
  {
    if |mask| > 0 {
      MaskedSumBounds(mask[1..], heights[1..], lo, hi);
      var k' := CountTrue(mask[1..]) as real;
      if mask[0] {
        assert (k' + 1.0) * lo == k' * lo + lo;
        assert (k' + 1.0) * hi == k' * hi + hi;
      }
    }
  }

  /** A mean of the selected heights lies between bounds on each of them. */
  lemma MeanOfSelected(mask: seq<bool>, heights: seq<real>, mean: real, lo: real, hi: real)
    requires |mask| == |heights| && CountTrue(mask) > 0
    requires mean * (CountTrue(mask) as real) == MaskedSum(mask, heights)
    requires forall i :: 0 <= i < |mask| && mask[i] ==> lo <= heights[i] <= hi
    ensures lo <= mean <= hi
  {
    MaskedSumBounds(mask, heights, lo, hi);
    MeanBounds(mean, MaskedSum(mask, heights), CountTrue(mask), lo, hi);
  }

  /** A value whose n-fold multiple lies between n copies of `lo` and `hi`
      lies between `lo` and `hi`. */
  lemma MeanBounds(mean: real, sum: real, n: nat, lo: real, hi: real)
    requires n > 0 && mean * (n as real) == sum
    requires (n as real) * lo <= sum <= (n as real) * hi
    ensures lo <= mean <= hi
  {
  }

  /** The estimate is a mean: when every grounded foot lies between `lo`
      and `hi` below the body, so does the estimate. In particular, feet at
      one common height give exactly that height. */
  lemma EstimateIsMeanOfGroundedLegs(
    e: Estimator, mode: LocomotionMode, desired: seq<LegState>, detected: seq<LegState>,
    bodyHeight: real, rotation: Matrix, feet: seq<Vec3>, ground: Matrix, lo: real, hi: real)
    requires IsLegVector(desired) && IsLegVector(detected) && |feet| == NumLegs
    requires IsMatrix(rotation, 3, 3) && IsMatrix(ground, 3, 3)
    requires exists i :: 0 <= i < NumLegs && GroundedLeg(mode, desired[i], detected[i])
    requires forall i :: 0 <= i < NumLegs && GroundedLeg(mode, desired[i], detected[i]) ==>
               lo <= -MatVec3(rotation, feet[i]).z <= hi
    ensures lo <= EstimateRobotHeight(e, mode, desired, detected, bodyHeight, rotation, feet, ground).height <= hi
  {
    GroundedHeightsWithin(mode, desired, detected, rotation, feet, lo, hi);
    var r := EstimateRobotHeight(e, mode, desired, detected, bodyHeight, rotation, feet, ground);
    MeanOfSelected(Contacts(mode, desired, detected), WorldHeights(rotation, feet), r.height, lo, hi);
  }

  /** Bounds on every grounded foot's height carry over to the mask view. */
  lemma GroundedHeightsWithin(mode: LocomotionMode, desired: seq<LegState>, detected: seq<LegState>,
                              rotation: Matrix, feet: seq<Vec3>, lo: real, hi: real)
    requires IsLegVector(desired) && IsLegVector(detected) && |feet| == NumLegs
    requires IsMatrix(rotation, 3, 3)
    requires exists i :: 0 <= i < NumLegs && GroundedLeg(mode, desired[i], detected[i])
    requires forall i :: 0 <= i < NumLegs && GroundedLeg(mode, desired[i], detected[i]) ==>
               lo <= -MatVec3(rotation, feet[i]).z <= hi
    ensures CountTrue(Contacts(mode, desired, detected)) > 0
    ensures forall j :: 0 <= j < NumLegs && Contacts(mode, desired, detected)[j] ==>
              lo <= WorldHeights(rotation, feet)[j] <= hi
  {
    var mask := Contacts(mode, desired, detected);
    var i :| 0 <= i < NumLegs && GroundedLeg(mode, desired[i], detected[i]);
    CountTrueOfSelected(mask, i);
  }

  lemma {:induction false} CountTrueOfSelected(mask: seq<bool>, i: nat)
    requires i < |mask| && mask[i]
    ensures CountTrue(mask) > 0
    decreases |mask|
  {
    if i > 0 && !mask[0] {
      CountTrueOfSelected(mask[1..], i - 1);
    }
  }

  lemma {:induction false} CountTrueOfNone(mask: seq<bool>)
    requires forall i :: 0 <= i < |mask| ==> !mask[i]
    ensures CountTrue(mask) == 0
    decreases |mask|
  {
    if |mask| > 0 {
      CountTrueOfNone(mask[1..]);
    }
  }

  /** With no grounded leg the nominal body height is returned, whatever
      the feet and frames are, and the control-frame height is kept. */
  lemma NoGroundedLegKeepsHeight(
    e: Estimator, mode: LocomotionMode, desired: seq<LegState>, detected: seq<LegState>,
    bodyHeight: real, rotation: Matrix, feet: seq<Vec3>, ground: Matrix)
    requires IsLegVector(desired) && IsLegVector(detected) && |feet| == NumLegs
    requires IsMatrix(rotation, 3, 3) && IsMatrix(ground, 3, 3)
    requires forall i :: 0 <= i < NumLegs ==> !GroundedLeg(mode, desired[i], detected[i])
    ensures EstimateRobotHeight(e, mode, desired, detected, bodyHeight, rotation, feet, ground).height == bodyHeight
    ensures EstimateRobotHeight(e, mode, desired, detected, bodyHeight, rotation, feet, ground).next.heightInControlFrame
            == e.heightInControlFrame
  {
    CountTrueOfNone(Contacts(mode, desired, detected));
  }

  /** On flat ground (an identity ground frame) the control-frame height is
      the returned world-frame height. */
  lemma FlatGroundHeightsAgree(
    e: Estimator, mode: LocomotionMode, desired: seq<LegState>, detected: seq<LegState>,
    bodyHeight: real, rotation: Matrix, feet: seq<Vec3>)
    requires IsLegVector(desired) && IsLegVector(detected) && |feet| == NumLegs
    requires IsMatrix(rotation, 3, 3)
    requires exists i :: 0 <= i < NumLegs && GroundedLeg(mode, desired[i], detected[i])
    ensures IsMatrix(Identity3, 3, 3)
    ensures var r := EstimateRobotHeight(e, mode, desired, detected, bodyHeight, rotation, feet, Identity3);
            r.next.heightInControlFrame == r.height
  {
    var mask := Contacts(mode, desired, detected);
    var i :| 0 <= i < NumLegs && GroundedLeg(mode, desired[i], detected[i]);
    CountTrueOfSelected(mask, i);
    forall j | 0 <= j < NumLegs
      ensures ControlHeights(Identity3, rotation, feet)[j] == WorldHeights(rotation, feet)[j]
    {
      TransposeIdentity(MatVec3(rotation, feet[j]));
    }
    assert ControlHeights(Identity3, rotation, feet) == WorldHeights(rotation, feet);
  }

  /** Estimating twice with the same inputs gives the same height and the
      same state as estimating once: the result does not depend on the
      previously recorded control-frame height. */
  lemma EstimateIsIdempotent(
    e: Estimator, mode: LocomotionMode, desired: seq<LegState>, detected: seq<LegState>,
    bodyHeight: real, rotation: Matrix, feet: seq<Vec3>, ground: Matrix)
    requires IsLegVector(desired) && IsLegVector(detected) && |feet| == NumLegs
    requires IsMatrix(rotation, 3, 3) && IsMatrix(ground, 3, 3)
    ensures var once := EstimateRobotHeight(e, mode, desired, detected, bodyHeight, rotation, feet, ground);
            var twice := EstimateRobotHeight(once.next, mode, desired, detected, bodyHeight, rotation, feet, ground);
            twice == once
  {
  }

  /** One odometry step of length `dt` from body-frame velocity `v` and yaw
      rate `yawRate`, rotating by the current estimated yaw. */
  function ComputePose(e: Estimator, dt: real, v: Vec3, yawRate: real,
                       cos: real -> real, sin: real -> real): (r: Estimator)
    // roll, pitch and the estimated height are left alone, and so is the
    // vertical base position; the planar base position mirrors the pose
    ensures r.pose.z == e.pose.z && r.pose.roll == e.pose.roll && r.pose.pitch == e.pose.pitch
    ensures r.basePosition == Vec3(r.pose.x, r.pose.y, e.basePosition.z)
    ensures r.lastTimestamp == e.lastTimestamp && r.heightInControlFrame == e.heightInControlFrame
    // the vertical and yaw integrations are unscaled
    ensures r.absoluteHeight - e.absoluteHeight == v.z * dt
    ensures r.pose.yaw - e.pose.yaw == yawRate * dt
  {
    var theta := e.pose.yaw;
    var deltaX := (v.x * cos(theta) - v.y * sin(theta)) * dt;
    var deltaY := (v.x * sin(theta) + v.y * cos(theta)) * dt;
    var x := e.pose.x + deltaX * OdometryScale;
    var y := e.pose.y + deltaY * OdometryScale;
    e.(pose := e.pose.(x := x, y := y, yaw := theta + yawRate * dt),
       basePosition := e.basePosition.(x := x, y := y),
       absoluteHeight := e.absoluteHeight + v.z * dt)
  }

  /** The planar displacement of one step is the body velocity rotated by
      the yaw and scaled by the odometry factor; at zero yaw it is the body
      velocity itself, scaled. */
  lemma ComputePoseDisplacement(e: Estimator, dt: real, v: Vec3, yawRate: real,
                                cos: real -> real, sin: real -> real)
    ensures var r := ComputePose(e, dt, v, yawRate, cos, sin);
            var c := cos(e.pose.yaw);
            var s := sin(e.pose.yaw);
            && r.pose.x - e.pose.x == OdometryScale * dt * (v.x * c - v.y * s)
            && r.pose.y - e.pose.y == OdometryScale * dt * (v.x * s + v.y * c)
    ensures e.pose.yaw == 0.0 && cos(0.0) == 1.0 && sin(0.0) == 0.0 ==>
            var r := ComputePose(e, dt, v, yawRate, cos, sin);
            r.pose.x - e.pose.x == OdometryScale * v.x * dt && r.pose.y - e.pose.y == OdometryScale * v.y * dt
  {
  }

  /** Without yaw rate, two steps of `dt1` and `dt2` land where one step of
      `dt1 + dt2` does. */
  lemma ComputePoseSplits(e: Estimator, dt1: real, dt2: real, v: Vec3,
                          cos: real -> real, sin: real -> real)
    ensures var two := ComputePose(ComputePose(e, dt1, v, 0.0, cos, sin), dt2, v, 0.0, cos, sin);
            var one := ComputePose(e, dt1 + dt2, v, 0.0, cos, sin);
            two == one
  {
    var c := cos(e.pose.yaw);
    var s := sin(e.pose.yaw);
    var first := ComputePose(e, dt1, v, 0.0, cos, sin);
    assert first.pose.yaw == e.pose.yaw;
    assert (v.x * c - v.y * s) * dt1 * OdometryScale + (v.x * c - v.y * s) * dt2 * OdometryScale
        == (v.x * c - v.y * s) * (dt1 + dt2) * OdometryScale;
    assert (v.x * s + v.y * c) * dt1 * OdometryScale + (v.x * s + v.y * c) * dt2 * OdometryScale
        == (v.x * s + v.y * c) * (dt1 + dt2) * OdometryScale;
    assert v.z * dt1 + v.z * dt2 == v.z * (dt1 + dt2);
  }

  /** Odometry over a sequence of steps without yaw rate. */
  function Integrate(e: Estimator, dts: seq<real>, v: Vec3, cos: real -> real, sin: real -> real): Estimator
    decreases |dts|
  {
    if |dts| == 0 then e else Integrate(ComputePose(e, dts[0], v, 0.0, cos, sin), dts[1..], v, cos, sin)
  }

  /** Constant velocity without yaw rate: any split of the total time into
      one or more steps ends where one step of the total time does. */
  lemma {:induction false} IntegrateIsOneStep(e: Estimator, dts: seq<real>, v: Vec3,
                                              cos: real -> real, sin: real -> real)
    requires |dts| > 0
    ensures Integrate(e, dts, v, cos, sin) == ComputePose(e, Sum(dts), v, 0.0, cos, sin)
    decreases |dts|
  {
    if |dts| == 1 {
      assert Sum(dts) == dts[0];
    } else {
      var first := ComputePose(e, dts[0], v, 0.0, cos, sin);
      IntegrateIsOneStep(first, dts[1..], v, cos, sin);
      ComputePoseSplits(e, dts[0], Sum(dts[1..]), v, cos, sin);
    }
  }

  /** One estimator update at robot tick `tick`: delta time, height, then
      odometry; with a simulator the planar position is replaced by the
      simulator's ground truth. */
  function Update(e: Estimator, tick: nat, timeStep: real, mode: LocomotionMode,
                  desired: seq<LegState>, detected: seq<LegState>, bodyHeight: real,
                  rotation: Matrix, feet: seq<Vec3>, ground: Matrix,
                  v: Vec3, yawRate: real, cos: real -> real, sin: real -> real,
                  isSim: bool, gazeboPosition: Vec3): (r: Estimator)
    requires IsLegVector(desired) && IsLegVector(detected) && |feet| == NumLegs
    requires IsMatrix(rotation, 3, 3) && IsMatrix(ground, 3, 3)
    ensures r.lastTimestamp == tick as real
    // the pose and the base position agree after every update
    ensures r.basePosition == Vec3(r.pose.x, r.pose.y, r.pose.z)
    ensures r.pose.z == EstimateRobotHeight(e, mode, desired, detected, bodyHeight, rotation, feet, ground).height
    ensures isSim ==> r.pose.x == gazeboPosition.x && r.pose.y == gazeboPosition.y
    ensures r.pose.roll == e.pose.roll && r.pose.pitch == e.pose.pitch
  {
    var delta := ComputeDeltaTime(e, tick, timeStep);
    var estimate := EstimateRobotHeight(delta.next, mode, desired, detected, bodyHeight, rotation, feet, ground);
    var withHeight := estimate.next.(pose := estimate.next.pose.(z := estimate.height),
                                     basePosition := estimate.next.basePosition.(z := estimate.height));
    var moved := ComputePose(withHeight, delta.dt, v, yawRate, cos, sin);
    if isSim then
      moved.(pose := moved.pose.(x := gazeboPosition.x, y := gazeboPosition.y),
             basePosition := moved.basePosition.(x := gazeboPosition.x, y := gazeboPosition.y))
    else moved
  }

  /** The simulator override replaces only the planar position: a simulated
      update equals the estimated one with x and y taken from ground truth,
      so height, yaw and the integrated vertical position stay estimated. */
  lemma SimOverridesOnlyPlanarPosition(
    e: Estimator, tick: nat, timeStep: real, mode: LocomotionMode,
    desired: seq<LegState>, detected: seq<LegState>, bodyHeight: real,
    rotation: Matrix, feet: seq<Vec3>, ground: Matrix,
    v: Vec3, yawRate: real, cos: real -> real, sin: real -> real, gazeboPosition: Vec3)
    requires IsLegVector(desired) && IsLegVector(detected) && |feet| == NumLegs
    requires IsMatrix(rotation, 3, 3) && IsMatrix(ground, 3, 3)
    ensures var sim := Update(e, tick, timeStep, mode, desired, detected, bodyHeight, rotation, feet, ground,
                              v, yawRate, cos, sin, true, gazeboPosition);
            var est := Update(e, tick, timeStep, mode, desired, detected, bodyHeight, rotation, feet, ground,
                              v, yawRate, cos, sin, false, gazeboPosition);
            && sim.pose == est.pose.(x := gazeboPosition.x, y := gazeboPosition.y)
            && sim.basePosition == est.basePosition.(x := gazeboPosition.x, y := gazeboPosition.y)
            && sim.absoluteHeight == est.absoluteHeight
            && sim.heightInControlFrame == est.heightInControlFrame
  {
  }

  /** Without a simulator the planar position advances by the odometry step
      over the measured delta time, and the yaw by the yaw rate over it. */
  lemma UpdateIntegratesOdometry(
    e: Estimator, tick: nat, timeStep: real, mode: LocomotionMode,
    desired: seq<LegState>, detected: seq<LegState>, bodyHeight: real,
    rotation: Matrix, feet: seq<Vec3>, ground: Matrix,
    v: Vec3, yawRate: real, cos: real -> real, sin: real -> real, gazeboPosition: Vec3)
    requires IsLegVector(desired) && IsLegVector(detected) && |feet| == NumLegs
    requires IsMatrix(rotation, 3, 3) && IsMatrix(ground, 3, 3)
    ensures var r := Update(e, tick, timeStep, mode, desired, detected, bodyHeight, rotation, feet, ground,
                            v, yawRate, cos, sin, false, gazeboPosition);
            var dt := ComputeDeltaTime(e, tick, timeStep).dt;
            var c := cos(e.pose.yaw);
            var s := sin(e.pose.yaw);
            && r.pose.x - e.pose.x == OdometryScale * dt * (v.x * c - v.y * s)
            && r.pose.y - e.pose.y == OdometryScale * dt * (v.x * s + v.y * c)
            && r.pose.yaw - e.pose.yaw == yawRate * dt
            && r.absoluteHeight - e.absoluteHeight == v.z * dt
  {
    var delta := ComputeDeltaTime(e, tick, timeStep);
    var estimate := EstimateRobotHeight(delta.next, mode, desired, detected, bodyHeight, rotation, feet, ground);
    var withHeight := estimate.next.(pose := estimate.next.pose.(z := estimate.height),
                                     basePosition := estimate.next.basePosition.(z := estimate.height));
    ComputePoseDisplacement(withHeight, delta.dt, v, yawRate, cos, sin);
  }
}
