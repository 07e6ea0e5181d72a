/**
 * `franka_hardware::Robot`: the bridge between the adapter's thread and the
 * background loop that the manufacturer library drives.
 *
 * The fields are the ones the C++ methods assign. The control thread is the
 * ghost field `loop` (which loop it runs); the two mutexes and the atomic
 * flag become plain sequential state. Every method is proved against the
 * function of the same name in `BridgeSpec`.
 */
module FrankaRobot {
  import opened FrankaTypes
  import BridgeSpec

  class Robot {
    var stopped: bool
    var finish: bool
    var useVelocityControl: bool
    var currentState: RobotState
    var tauCommand: Joints
    var velCommand: Joints
    /** The loop the control thread runs; `Stopped` when there is no thread. */
    ghost var loop: BridgeSpec.LoopMode

    ghost function Model(): BridgeSpec.Bridge
      reads this
    {
      BridgeSpec.Bridge(loop, finish, useVelocityControl, currentState, tauCommand, velCommand)
    }

    /** `stopped_` is true exactly when no loop runs, and the bridge is consistent. */
    ghost predicate Valid()
      reads this
    {
      && (stopped <==> loop == BridgeSpec.Stopped)
      && BridgeSpec.Consistent(Model())
    }

    /**
     * Connects to the arm at `robotIp` and zeroes both command slots. The
     * real-time-kernel check and the connection itself are the library's.
     */
    constructor (robotIp: string)
      ensures Valid()
      ensures Model() == BridgeSpec.Initial()
      ensures stopped
    {
      tauCommand := Zeros();
      velCommand := Zeros();
      stopped := true;
      finish := false;
      useVelocityControl := false;
      currentState := DefaultState();
      loop := BridgeSpec.Stopped;
    }

    /** Replaces the pending command of the slot the velocity flag selects. */
    method Write(command: Joints)
      requires Valid()
      modifies this
      ensures Valid() && stopped == old(stopped)
      ensures Model() == BridgeSpec.Write(old(Model()), command)
    {
      if useVelocityControl {
        velCommand := command;
      } else {
        tauCommand := command;
      }
    }

    /** A copy of the latest published state; nothing changes. */
    method Read() returns (state: RobotState)
      requires Valid()
      ensures state == BridgeSpec.Read(Model())
    {
      state := currentState;
    }

    /** Stops the running loop, if any; joining the thread is one instantaneous step. */
    method StopRobot()
      requires Valid()
      modifies this
      ensures Valid() && stopped
      ensures Model() == BridgeSpec.Stop(old(Model()))
    {
      if !stopped {
        finish := true;
        loop := BridgeSpec.Stopped;  // control_thread_->join()
        finish := false;
        stopped := true;
      }
    }

    /** Starts the torque loop; no other loop may be running. */
    method InitializeTorqueControl()
      requires Valid() && loop == BridgeSpec.Stopped
      modifies this
      ensures Valid() && !stopped
      ensures Model() == BridgeSpec.InitializeTorqueControl(old(Model()))
    {
      stopped := false;
      loop := BridgeSpec.TorqueControl;
    }

    /**
     * Starts the velocity loop; no other loop may be running. The joint
     * impedance and the 200 Hz limit are passed to the library.
     */
    method InitializeVelocityControl()
      requires Valid() && loop == BridgeSpec.Stopped
      modifies this
      ensures Valid() && !stopped
      ensures Model() == BridgeSpec.InitializeVelocityControl(old(Model()))
    {
      stopped := false;
      useVelocityControl := true;
      loop := BridgeSpec.VelocityControl;
    }

    /** Starts the state-only reading loop; no other loop may be running. */
    method InitializeContinuousReading()
      requires Valid() && loop == BridgeSpec.Stopped
      modifies this
      ensures Valid() && !stopped
      ensures Model() == BridgeSpec.InitializeContinuousReading(old(Model()))
    {
      stopped := false;
      loop := BridgeSpec.ContinuousReading;
    }

    /** One invocation of the torque loop's callback with the measured `state`. */
    method TorqueControlCallback(state: RobotState) returns (out: BridgeSpec.Command)
      requires Valid() && loop == BridgeSpec.TorqueControl
      modifies this
      ensures Valid() && stopped == old(stopped)
      ensures (Model(), out) == BridgeSpec.ControlStep(old(Model()), state)
    {
      currentState := state;
      out := BridgeSpec.Command(tauCommand, finish);
    }

    /** One invocation of the velocity loop's callback with the measured `state`. */
    method VelocityControlCallback(state: RobotState) returns (out: BridgeSpec.Command)
      requires Valid() && loop == BridgeSpec.VelocityControl
      modifies this
      ensures Valid() && stopped == old(stopped)
      ensures (Model(), out) == BridgeSpec.ControlStep(old(Model()), state)
    {
      currentState := state;
      out := BridgeSpec.Command(velCommand, finish);
    }

    /** One invocation of the reading loop's callback; true asks the library to go on. */
    method ReadingCallback(state: RobotState) returns (keepReading: bool)
      requires Valid() && loop == BridgeSpec.ContinuousReading
      modifies this
      ensures Valid() && stopped == old(stopped)
      ensures (Model(), keepReading) == BridgeSpec.ReadingStep(old(Model()), state)
    {
      currentState := state;
      keepReading := !finish;
    }

    /** True exactly when no control or reading loop runs. */
    method IsStopped() returns (r: bool)
      requires Valid()
      ensures r <==> BridgeSpec.IsStopped(Model())
    {
      r := stopped;
    }

    /** The destructor: stop whatever loop runs before the connection closes. */
    method Destroy()
      requires Valid()
      modifies this
      ensures Valid() && stopped && !finish
      ensures BridgeSpec.IsStopped(Model())
      ensures Model() == BridgeSpec.Stop(old(Model()))
    {
      StopRobot();
    }
  }
}
