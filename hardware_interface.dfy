/**
 * `franka_hardware::FrankaHardwareInterface`: the ros2_control system
 * component that exposes seven joints' position, velocity and effort states
 * and velocity commands, and drives the real-time bridge.
 */
module FrankaHardwareInterface {
  import opened FrankaTypes
  import opened HardwareConfig
  import BridgeSpec
  import opened FrankaRobot

  /** `hardware_interface::return_type`. */
  datatype ReturnType = Ok | Error

  /** The lifecycle callback result: SUCCESS or ERROR. */
  datatype CallbackReturn = CallbackSuccess | CallbackError

  /**
   * An exported state or command interface: the joint it belongs to, the
   * interface name, and the element of the adapter's array it points at.
   */
  datatype Handle = Handle(jointName: string, interfaceName: string, index: nat)

  /** The three state interfaces of a joint, in export order. */
  function StateKind(k: nat): string
    requires k < 3
  {
    if k == 0 then HW_IF_POSITION else if k == 1 then HW_IF_VELOCITY else HW_IF_EFFORT
  }

  predicate AllFinite(commands: seq<Double>) {
    forall i :: 0 <= i < |commands| ==> commands[i].IsFinite()
  }

  /**
   * `write`: a command vector with a non-finite entry is refused and the
   * bridge keeps its pending command; otherwise the whole vector goes to it.
   */
  function WriteCycle(b: BridgeSpec.Bridge, commands: Joints): (r: (BridgeSpec.Bridge, ReturnType))
    ensures r.1 == Ok <==> AllFinite(commands)
    ensures r.1 == Error ==> r.0 == b
    ensures r.1 == Ok ==> r.0 == BridgeSpec.Write(b, commands)
  {
    if exists i :: 0 <= i < |commands| && !commands[i].IsFinite() then (b, Error)
    else (BridgeSpec.Write(b, commands), Ok)
  }

  /**
   * `perform_command_mode_switch`: bring the running loop in line with the
   * claim. The new running flag is the claim; a new claim restarts the
   * bridge in velocity control, a released one in continuous reading.
   */
  function PerformSwitch(b: BridgeSpec.Bridge, running: bool, claimed: bool): (r: (BridgeSpec.Bridge, bool))
    ensures r.1 == claimed
    ensures running == claimed ==> r.0 == b
    ensures claimed && !running ==> r.0.loop == BridgeSpec.VelocityControl && r.0.useVelocityControl
    ensures !claimed && running ==> r.0.loop == BridgeSpec.ContinuousReading
    ensures r.0.currentState == b.currentState
    ensures r.0.tauCommand == b.tauCommand && r.0.velCommand == b.velCommand
    ensures BridgeSpec.Consistent(b) ==> BridgeSpec.Consistent(r.0)
  {
    if !running && claimed then
      (BridgeSpec.InitializeVelocityControl(BridgeSpec.Stop(b)), true)
    else if running && !claimed then
      (BridgeSpec.InitializeContinuousReading(BridgeSpec.Stop(b)), false)
    else
      (b, running)
  }

  /**
   * Claiming the velocity interfaces while the reading loop runs starts
   * velocity control; releasing them again returns to continuous reading.
   */
  lemma ClaimThenRelease(b: BridgeSpec.Bridge)
    requires BridgeSpec.Consistent(b) && b.loop == BridgeSpec.ContinuousReading
    ensures var (b1, running1) := PerformSwitch(b, false, true);
            && b1.loop == BridgeSpec.VelocityControl && running1
            && var (b2, running2) := PerformSwitch(b1, running1, false);
               b2.loop == BridgeSpec.ContinuousReading && !running2
  {
  }

  /**
   * In velocity control, a finite command vector accepted by `write` is what
   * the next velocity-loop step sends.
   */
  lemma AcceptedCommandReachesVelocityLoop(b: BridgeSpec.Bridge, commands: Joints, state: RobotState)
    requires BridgeSpec.Consistent(b) && b.loop == BridgeSpec.VelocityControl
    requires AllFinite(commands)
    ensures BridgeSpec.ControlStep(WriteCycle(b, commands).0, state).1.values == commands
  {
  }

  class HardwareInterface {
    var info: HardwareInfo
    var robot: Robot?
    const hwCommands: array<Double>
    var hwPositions: Joints
    var hwVelocities: Joints
    var hwEfforts: Joints
    var velocityInterfaceClaimed: bool
    var velocityInterfaceRunning: bool

    /** Seven command slots; once connected, the description passed every check. */
    ghost predicate Valid()
      reads this, robot
    {
      && hwCommands.Length == NUMBER_OF_JOINTS
      && (robot != null ==>
            && robot.Valid()
            && |info.joints| == NUMBER_OF_JOINTS
            && CheckJoints(info.joints).None?)
    }

    /** The adapter before `on_init`: zeroed slots, no robot, nothing claimed or running. */
    constructor ()
      ensures Valid() && robot == null && fresh(hwCommands)
      ensures hwCommands[..] == Zeros()
      ensures hwPositions == Zeros() && hwVelocities == Zeros() && hwEfforts == Zeros()
      ensures !velocityInterfaceClaimed && !velocityInterfaceRunning
    {
      info := HardwareInfo([], map[]);
      robot := null;
      hwCommands := new Double[NUMBER_OF_JOINTS](_ => ZERO);
      hwPositions := Zeros();
      hwVelocities := Zeros();
      hwEfforts := Zeros();
      velocityInterfaceClaimed := false;
      velocityInterfaceRunning := false;
    }

    /**
     * `on_init`: validate the description, read `robot_ip` and connect.
     * `failure` is what the fatal log line reports.
     */
    method OnInit(newInfo: HardwareInfo, baseInitOk: bool, connects: bool)
      returns (r: CallbackReturn, failure: Option<InitError>)
      requires Valid() && robot == null
      modifies this`info, this`robot
      ensures Valid()
      ensures r == CallbackSuccess <==> HardwareConfig.OnInit(newInfo, baseInitOk, connects).Success?
      ensures failure == match HardwareConfig.OnInit(newInfo, baseInitOk, connects)
                         case Success(_) => None
                         case Failure(e) => Some(e)
      ensures r == CallbackSuccess ==> robot != null && fresh(robot) && robot.stopped
                                       && robot.Model() == BridgeSpec.Initial()
      ensures r == CallbackError ==> robot == null
      ensures baseInitOk ==> info == newInfo
      ensures !baseInitOk ==> info == old(info)
    {
      if !baseInitOk {
        return CallbackError, Some(BaseInitFailed);
      }
      info := newInfo;
      if |info.joints| != NUMBER_OF_JOINTS {
        return CallbackError, Some(JointCount(|info.joints|));
      }
      var i := 0;
      while i < |info.joints|
        invariant 0 <= i <= |info.joints|
        invariant forall k :: 0 <= k < i ==> JointConforms(info.joints[k])
      {
        var jointError := CheckJoint(info.joints[i]);
        if jointError.Some? {
          FirstFailingJoint(info.joints, i);
          return CallbackError, jointError;
        }
        i := i + 1;
      }
      if ROBOT_IP !in info.hardwareParameters {
        return CallbackError, Some(RobotIpNotSet);
      }
      var robotIp := info.hardwareParameters[ROBOT_IP];
      if !connects {
        return CallbackError, Some(ConnectionFailed);
      }
      robot := new Robot(robotIp);
      return CallbackSuccess, None;
    }

    /** One position, velocity and effort interface per joint, in joint order. */
    method ExportStateInterfaces() returns (handles: seq<Handle>)
      requires Valid() && robot != null
      ensures |handles| == 3 * |info.joints|
      ensures forall k :: 0 <= k < |handles| ==>
                handles[k] == Handle(info.joints[k / 3].name, StateKind(k % 3), k / 3)
      ensures forall k :: 0 <= k < |handles| ==> handles[k].index < NUMBER_OF_JOINTS
    {
      handles := [];
      var i := 0;
      while i < |info.joints|
        invariant 0 <= i <= |info.joints|
        invariant |handles| == 3 * i
        invariant forall k :: 0 <= k < |handles| ==>
                    handles[k] == Handle(info.joints[k / 3].name, StateKind(k % 3), k / 3)
      {
        var name := info.joints[i].name;
        handles := handles + [Handle(name, HW_IF_POSITION, i), Handle(name, HW_IF_VELOCITY, i),
                              Handle(name, HW_IF_EFFORT, i)];
        i := i + 1;
      }
    }

    /** One velocity command interface per joint, pointing at that joint's command slot. */
    method ExportCommandInterfaces() returns (handles: seq<Handle>)
      requires Valid() && robot != null
      ensures |handles| == |info.joints|
      ensures forall k :: 0 <= k < |handles| ==>
                handles[k] == Handle(info.joints[k].name, HW_IF_VELOCITY, k)
      ensures forall k :: 0 <= k < |handles| ==> handles[k].index < NUMBER_OF_JOINTS
    {
      handles := [];
      var i := 0;
      while i < |info.joints|
        invariant 0 <= i <= |info.joints|
        invariant |handles| == i
        invariant forall k :: 0 <= k < i ==> handles[k] == Handle(info.joints[k].name, HW_IF_VELOCITY, k)
      {
        handles := handles + [Handle(info.joints[i].name, HW_IF_VELOCITY, i)];
        i := i + 1;
      }
    }

    /** The framework writing one joint's velocity command through its exported handle. */
    method SetCommand(joint: nat, value: Double)
      requires Valid() && joint < NUMBER_OF_JOINTS
      modifies hwCommands
      ensures Valid()
      ensures hwCommands[..] == old(hwCommands[..])[joint := value]
    {
      hwCommands[joint] := value;
    }

    /**
     * `on_activate`: start continuous reading, zero every command slot and
     * read once, so the state slots hold the bridge's latest state.
     */
    method OnActivate() returns (r: CallbackReturn)
      requires Valid() && robot != null && robot.stopped
      modifies this`hwPositions, this`hwVelocities, this`hwEfforts, hwCommands, robot
      ensures Valid() && r == CallbackSuccess
      ensures robot.Model() == BridgeSpec.InitializeContinuousReading(old(robot.Model()))
      ensures hwCommands[..] == Zeros()
      ensures hwPositions == robot.currentState.q
      ensures hwVelocities == robot.currentState.dq
      ensures hwEfforts == robot.currentState.tauJ
    {
      robot.InitializeContinuousReading();
      var i := 0;
      while i < hwCommands.Length
        modifies hwCommands
        invariant 0 <= i <= hwCommands.Length
        invariant forall k :: 0 <= k < i ==> hwCommands[k] == ZERO
      {
        hwCommands[i] := ZERO;
        i := i + 1;
      }
      var _ := Read();
      return CallbackSuccess;
    }

    /** `on_deactivate`: stop whatever loop runs. */
    method OnDeactivate() returns (r: CallbackReturn)
      requires Valid() && robot != null
      modifies robot
      ensures Valid() && r == CallbackSuccess && robot.stopped
      ensures robot.Model() == BridgeSpec.Stop(old(robot.Model()))
    {
      robot.StopRobot();
      return CallbackSuccess;
    }

    /** `read`: copy the bridge's latest q, dq and tau_J into the state slots. */
    method Read() returns (r: ReturnType)
      requires Valid() && robot != null
      modifies this`hwPositions, this`hwVelocities, this`hwEfforts
      ensures Valid()
      ensures r == Ok
      ensures hwPositions == robot.currentState.q
      ensures hwVelocities == robot.currentState.dq
      ensures hwEfforts == robot.currentState.tauJ
    {
      var state := robot.Read();
      hwPositions := state.q;
      hwVelocities := state.dq;
      hwEfforts := state.tauJ;
      return Ok;
    }

    /** `write`: forward the command slots to the bridge unless one is non-finite. */
    method Write() returns (r: ReturnType)
      requires Valid() && robot != null
      modifies robot
      ensures Valid()
      ensures (robot.Model(), r) == WriteCycle(old(robot.Model()), hwCommands[..])
      ensures robot.stopped == old(robot.stopped)
    {
      if exists i :: 0 <= i < hwCommands.Length && !hwCommands[i].IsFinite() {
        return Error;
      }
      robot.Write(hwCommands[..]);
      return Ok;
    }

    /**
     * `prepare_command_mode_switch`: update the claim from the stop list,
     * then the start list; `InvalidArgument` is the thrown exception.
     */
    method PrepareCommandModeSwitch(start: seq<string>, stop: seq<string>) returns (outcome: SwitchOutcome)
      requires Valid()
      modifies this`velocityInterfaceClaimed
      ensures Valid()
      ensures Switch(velocityInterfaceClaimed, outcome)
              == PrepareSwitch(old(velocityInterfaceClaimed), start, stop)
    {
      var numStop := CountVelocityInterfaces(stop);
      if numStop == NUMBER_OF_JOINTS {
        velocityInterfaceClaimed := false;
      } else if numStop != 0 {
        return InvalidArgument(STOP_COUNT_MESSAGE);
      }
      var numStart := CountVelocityInterfaces(start);
      if numStart == NUMBER_OF_JOINTS {
        velocityInterfaceClaimed := true;
      } else if numStart != 0 {
        return InvalidArgument(START_COUNT_MESSAGE);
      }
      return Accepted;
    }

    /** `perform_command_mode_switch`: restart the bridge when the claim changed. */
    method PerformCommandModeSwitch() returns (r: ReturnType)
      requires Valid() && robot != null
      modifies this`velocityInterfaceRunning, robot
      ensures Valid() && r == Ok
      ensures (robot.Model(), velocityInterfaceRunning)
              == PerformSwitch(old(robot.Model()), old(velocityInterfaceRunning), velocityInterfaceClaimed)
    {
      if !velocityInterfaceRunning && velocityInterfaceClaimed {
        robot.StopRobot();
        robot.InitializeVelocityControl();
        velocityInterfaceRunning := true;
      } else if velocityInterfaceRunning && !velocityInterfaceClaimed {
        robot.StopRobot();
        robot.InitializeContinuousReading();
        velocityInterfaceRunning := false;
      }
      return Ok;
    }
  }

  /** The joint loop stops at the first failing joint, and that joint's error is the result. */
  lemma FirstFailingJoint(joints: seq<ComponentInfo>, i: nat)
    requires i < |joints|
    requires forall k :: 0 <= k < i ==> JointConforms(joints[k])
    requires !JointConforms(joints[i])
    ensures CheckJoints(joints) == CheckJoint(joints[i])
  {
    assert CheckJoints(joints).Some? by {
      assert !(forall j :: 0 <= j < |joints| ==> JointConforms(joints[j]));
    }
    var k :| 0 <= k < |joints| && CheckJoint(joints[k]) == CheckJoints(joints)
             && forall j :: 0 <= j < k ==> JointConforms(joints[j]);
    assert !JointConforms(joints[k]);
    assert k == i;
  }
}
