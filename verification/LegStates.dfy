/** Shared vocabulary of the locomotion core: leg states, locomotion modes
    and motor commands. */
module LegStates {

  /** The scheduled (desired) or sensed (detected) state of one leg.
      `TrueSwing` is the swing sub-state that the pose estimator compares the
      desired state against; the integer codes of the C++ `LegState` enum are
      not part of this model, only that the values are distinct. */
  datatype LegState = Stance | Swing | EarlyContact | LoseContact | UserDefinedSwing | TrueSwing

  /** The robot's `controlParams["mode"]`; only the position and walk modes
      are singled out by the core, every other mode behaves alike. */
  datatype LocomotionMode = PositionLocomotion | WalkLocomotion | OtherLocomotion

  /** The number of legs of the quadruped. */
  const NumLegs: nat := 4

  /** A per-leg state vector (the C++ `Vec4<int>` leg-state vectors). */
  predicate IsLegVector(legs: seq<LegState>)
  {
    |legs| == NumLegs
  }

  /** One joint command: desired position, position gain, desired velocity,
      velocity gain and feed-forward torque. */
  datatype MotorCommand = MotorCommand(p: real, kp: real, d: real, kd: real, torque: real)

  /** The command value-initialisation produces, and the one the fake action sends. */
  const ZeroCommand := MotorCommand(0.0, 0.0, 0.0, 0.0, 0.0)
}
