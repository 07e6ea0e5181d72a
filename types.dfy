/** Values shared by the real-time bridge and the hardware adapter. */
module FrankaTypes {

  /** The arm has seven joints; the adapter accepts no other configuration. */
  const NUMBER_OF_JOINTS: nat := 7

  /**
   * A C++ `double`, kept abstract: the adapter only asks whether a value is
   * finite (`std::isfinite`), so no floating-point arithmetic is modelled.
   */
  datatype Double = Finite(value: real) | NaN | PositiveInfinity | NegativeInfinity {
    predicate IsFinite() {
      Finite?
    }
  }

  const ZERO: Double := Finite(0.0)

  /** A value-initialised `std::array<double, 7>`. */
  function Zeros(): (z: seq<Double>)
    ensures |z| == NUMBER_OF_JOINTS
    ensures forall i :: 0 <= i < |z| ==> z[i] == ZERO
  {
    seq(NUMBER_OF_JOINTS, _ => ZERO)
  }

  /** A `std::array<double, 7>`: one entry per joint, in declaration order. */
  type Joints = s: seq<Double> | |s| == NUMBER_OF_JOINTS witness Zeros()

  /** The part of `franka::RobotState` the adapter uses: q, dq and tau_J. */
  datatype RobotState = RobotState(q: Joints, dq: Joints, tauJ: Joints)

  /** A default-constructed `franka::RobotState`: every entry is zero. */
  function DefaultState(): RobotState {
    RobotState(Zeros(), Zeros(), Zeros())
  }

  datatype Option<T> = None | Some(value: T)
}
