/**
 * The value-level rules of `FrankaHardwareInterface`: what `on_init` accepts
 * as a hardware description, and how `prepare_command_mode_switch` counts
 * the velocity interfaces it is asked to start or stop.
 */
module HardwareConfig {
  import opened FrankaTypes

  /** The standard interface names of ros2_control. */
  const HW_IF_POSITION: string := "position"
  const HW_IF_VELOCITY: string := "velocity"
  const HW_IF_EFFORT: string := "effort"

  /** The hardware parameter naming the arm's network address. */
  const ROBOT_IP: string := "robot_ip"

  datatype InterfaceInfo = InterfaceInfo(name: string)

  /** One joint of the description: its name and the interfaces declared on it. */
  datatype ComponentInfo = ComponentInfo(
    name: string,
    commandInterfaces: seq<InterfaceInfo>,
    stateInterfaces: seq<InterfaceInfo>)

  datatype HardwareInfo = HardwareInfo(
    joints: seq<ComponentInfo>,
    hardwareParameters: map<string, string>)

  /** Why `on_init` returned ERROR. */
  datatype InitError =
    | BaseInitFailed
    | JointCount(got: nat)
    | CommandInterfaceCount(joint: string, got: nat)
    | UnexpectedCommandInterface(joint: string, name: string)
    | StateInterfaceCount(joint: string, got: nat)
    | RobotIpNotSet
    | ConnectionFailed

  // ---------------------------------------------------------------------
  // on_init
  // ---------------------------------------------------------------------

  /** A joint `on_init` accepts: one `velocity` command interface and three state interfaces. */
  predicate JointConforms(joint: ComponentInfo) {
    && |joint.commandInterfaces| == 1
    && joint.commandInterfaces[0].name == HW_IF_VELOCITY
    && |joint.stateInterfaces| == 3
  }

  /** The checks `on_init` makes of one joint, in the order it makes them. */
  function CheckJoint(joint: ComponentInfo): (r: Option<InitError>)
    ensures r.None? <==> JointConforms(joint)
    ensures |joint.commandInterfaces| != 1
            ==> r == Some(CommandInterfaceCount(joint.name, |joint.commandInterfaces|))
    ensures |joint.commandInterfaces| == 1 && joint.commandInterfaces[0].name != HW_IF_VELOCITY
            ==> r == Some(UnexpectedCommandInterface(joint.name, joint.commandInterfaces[0].name))
    ensures |joint.commandInterfaces| == 1 && joint.commandInterfaces[0].name == HW_IF_VELOCITY
            && |joint.stateInterfaces| != 3
            ==> r == Some(StateInterfaceCount(joint.name, |joint.stateInterfaces|))
  {
    if |joint.commandInterfaces| != 1 then
      Some(CommandInterfaceCount(joint.name, |joint.commandInterfaces|))
    else if joint.commandInterfaces[0].name != HW_IF_VELOCITY then
      Some(UnexpectedCommandInterface(joint.name, joint.commandInterfaces[0].name))
    else if |joint.stateInterfaces| != 3 then
      Some(StateInterfaceCount(joint.name, |joint.stateInterfaces|))
    else
      None
  }

  /**
   * The joint loop of `on_init`: the error of the first joint that fails a
   * check, or none when every joint conforms.
   */
  function CheckJoints(joints: seq<ComponentInfo>): (r: Option<InitError>)
    ensures r.None? <==> forall i :: 0 <= i < |joints| ==> JointConforms(joints[i])
    ensures r.Some? ==> exists k :: 0 <= k < |joints| && CheckJoint(joints[k]) == r
                                    && forall i :: 0 <= i < k ==> JointConforms(joints[i])
    decreases |joints|
  {
    if |joints| == 0 then None
    else if CheckJoint(joints[0]).Some? then CheckJoint(joints[0])
    else
      var rest := CheckJoints(joints[1..]);
      assert forall i :: 1 <= i < |joints| ==> joints[i] == joints[1..][i - 1];
      rest
  }

  /** `on_init` reaches the connection attempt: every check before it passed. */
  predicate ConnectionAttempted(info: HardwareInfo, baseInitOk: bool) {
    && baseInitOk
    && |info.joints| == NUMBER_OF_JOINTS
    && CheckJoints(info.joints).None?
    && ROBOT_IP in info.hardwareParameters
  }

  /**
   * `on_init`: the address the `Robot` is constructed with, or why
   * initialisation failed. `baseInitOk` is the base class's verdict and
   * `connects` whether the library's connection succeeds.
   */
  function OnInit(info: HardwareInfo, baseInitOk: bool, connects: bool): (r: Result)
    ensures !baseInitOk ==> r == Failure(BaseInitFailed)
    ensures baseInitOk && |info.joints| != NUMBER_OF_JOINTS ==> r == Failure(JointCount(|info.joints|))
    ensures baseInitOk && |info.joints| == NUMBER_OF_JOINTS && CheckJoints(info.joints).Some?
            ==> r == Failure(CheckJoints(info.joints).value)
    ensures baseInitOk && |info.joints| == NUMBER_OF_JOINTS && CheckJoints(info.joints).None?
            && ROBOT_IP !in info.hardwareParameters
            ==> r == Failure(RobotIpNotSet)
    ensures r == Failure(ConnectionFailed) <==> ConnectionAttempted(info, baseInitOk) && !connects
    ensures r.Success? <==> ConnectionAttempted(info, baseInitOk) && connects
    ensures r.Success? ==> r.robotIp == info.hardwareParameters[ROBOT_IP]
  {
    if !baseInitOk then Failure(BaseInitFailed)
    else if |info.joints| != NUMBER_OF_JOINTS then Failure(JointCount(|info.joints|))
    else if CheckJoints(info.joints).Some? then Failure(CheckJoints(info.joints).value)
    else if ROBOT_IP !in info.hardwareParameters then Failure(RobotIpNotSet)
    else if !connects then Failure(ConnectionFailed)
    else Success(info.hardwareParameters[ROBOT_IP])
  }

  datatype Result = Success(robotIp: string) | Failure(error: InitError)

  /**
   * Configuration errors are decided before any connection: when `on_init`
   * does not attempt one, its result does not depend on whether one would
   * succeed, and it never reports a connection failure.
   */
  lemma NoConnectionBeforeValidation(info: HardwareInfo, baseInitOk: bool)
    requires !ConnectionAttempted(info, baseInitOk)
    ensures OnInit(info, baseInitOk, true) == OnInit(info, baseInitOk, false)
    ensures OnInit(info, baseInitOk, true).Failure?
    ensures OnInit(info, baseInitOk, true).error != ConnectionFailed
  {
  }

  /** Two descriptions that differ at most in the names of the state interfaces. */
  predicate SameButStateNames(a: seq<ComponentInfo>, b: seq<ComponentInfo>) {
    && |a| == |b|
    && forall i :: 0 <= i < |a| ==>
         && a[i].name == b[i].name
         && a[i].commandInterfaces == b[i].commandInterfaces
         && |a[i].stateInterfaces| == |b[i].stateInterfaces|
  }

  /** A wrongly named state interface is only logged: the joint checks ignore the names. */
  lemma {:induction false} StateNamesOnlyLogged(a: seq<ComponentInfo>, b: seq<ComponentInfo>)
    requires SameButStateNames(a, b)
    ensures CheckJoints(a) == CheckJoints(b)
    decreases |a|
  {
    if |a| > 0 {
      assert CheckJoint(a[0]) == CheckJoint(b[0]);
      assert SameButStateNames(a[1..], b[1..]) by {
        forall i | 0 <= i < |a[1..]|
          ensures a[1..][i].name == b[1..][i].name
          ensures a[1..][i].commandInterfaces == b[1..][i].commandInterfaces
          ensures |a[1..][i].stateInterfaces| == |b[1..][i].stateInterfaces|
        {
          assert a[1..][i] == a[i + 1] && b[1..][i] == b[i + 1];
        }
      }
      StateNamesOnlyLogged(a[1..], b[1..]);
    }
  }

  /** Hence `on_init` as a whole does not depend on the state interface names. */
  lemma OnInitIgnoresStateNames(info: HardwareInfo, joints: seq<ComponentInfo>, baseInitOk: bool, connects: bool)
    requires SameButStateNames(info.joints, joints)
    ensures OnInit(info, baseInitOk, connects) == OnInit(info.(joints := joints), baseInitOk, connects)
  {
    StateNamesOnlyLogged(info.joints, joints);
  }

  // ---------------------------------------------------------------------
  // prepare_command_mode_switch
  // ---------------------------------------------------------------------

  /** `sub` occurs in `s` starting at index `i`. */
  predicate OccursAt(s: string, sub: string, i: nat) {
    i + |sub| <= |s| && s[i..i + |sub|] == sub
  }

  /** `s.find(sub) != std::string::npos`. */
  function Contains(s: string, sub: string): (r: bool)
    ensures r <==> exists i: nat :: OccursAt(s, sub, i)
    decreases |s|
  {
    if |sub| > |s| then false
    else if s[..|sub|] == sub then
      assert OccursAt(s, sub, 0);
      true
    else
      var rest := Contains(s[1..], sub);
      assert rest ==> exists i: nat :: OccursAt(s, sub, i) by {
        if rest {
          var j: nat :| OccursAt(s[1..], sub, j);
          assert s[1..][j..j + |sub|] == s[j + 1..j + 1 + |sub|];
          assert OccursAt(s, sub, j + 1);
        }
      }
      assert (exists i: nat :: OccursAt(s, sub, i)) ==> rest by {
        if exists i: nat :: OccursAt(s, sub, i) {
          var i: nat :| OccursAt(s, sub, i);
          assert i != 0;
          assert s[1..][i - 1..i - 1 + |sub|] == s[i..i + |sub|];
          assert OccursAt(s[1..], sub, i - 1);
        }
      }
      rest
  }

  /** An interface name counts as velocity when it contains `velocity` anywhere. */
  predicate IsVelocityInterface(name: string): (r: bool)
    ensures r <==> exists i: nat :: OccursAt(name, HW_IF_VELOCITY, i)
  {
    Contains(name, HW_IF_VELOCITY)
  }

  /** `std::count_if(names, is_velocity_interface)`. */
  function CountVelocityInterfaces(names: seq<string>): (n: nat)
    ensures n <= |names|
    ensures n == |names| <==> forall i :: 0 <= i < |names| ==> IsVelocityInterface(names[i])
    ensures n == 0 <==> forall i :: 0 <= i < |names| ==> !IsVelocityInterface(names[i])
    decreases |names|
  {
    if |names| == 0 then 0
    else
      var rest := CountVelocityInterfaces(names[1..]);
      assert forall i :: 1 <= i < |names| ==> names[i] == names[1..][i - 1];
      (if IsVelocityInterface(names[0]) then 1 else 0) + rest
  }

  /** `std::invalid_argument`, or a switch that was accepted. */
  datatype SwitchOutcome = Accepted | InvalidArgument(message: string)

  const STOP_COUNT_MESSAGE: string := "Invalid number of velocity interfaces to stop. Expected 7"
  const START_COUNT_MESSAGE: string := "Invalid number of velocity interfaces to start. Expected 7"

  /** The claimed flag after the call, and whether the call threw. */
  datatype Switch = Switch(claimed: bool, outcome: SwitchOutcome)

  /**
   * `prepare_command_mode_switch`: first the stop list, then the start list;
   * a velocity count of 7 releases or claims the interfaces, 0 leaves the
   * claim alone, anything else throws. A throw on the start list comes after
   * the stop list has already been applied.
   */
  function PrepareSwitch(claimed: bool, start: seq<string>, stop: seq<string>): (r: Switch)
    ensures var nStop := CountVelocityInterfaces(stop);
            nStop != 0 && nStop != NUMBER_OF_JOINTS
            ==> r == Switch(claimed, InvalidArgument(STOP_COUNT_MESSAGE))
    ensures var nStop, nStart := CountVelocityInterfaces(stop), CountVelocityInterfaces(start);
            (nStop == 0 || nStop == NUMBER_OF_JOINTS) && nStart != 0 && nStart != NUMBER_OF_JOINTS
            ==> r == Switch(if nStop == NUMBER_OF_JOINTS then false else claimed,
                            InvalidArgument(START_COUNT_MESSAGE))
    ensures r.outcome == Accepted
            <==> CountVelocityInterfaces(stop) in {0, NUMBER_OF_JOINTS}
                 && CountVelocityInterfaces(start) in {0, NUMBER_OF_JOINTS}
    ensures r.outcome == Accepted ==>
              r.claimed == if CountVelocityInterfaces(start) == NUMBER_OF_JOINTS then true
                           else if CountVelocityInterfaces(stop) == NUMBER_OF_JOINTS then false
                           else claimed
  {
    var nStop := CountVelocityInterfaces(stop);
    if nStop != NUMBER_OF_JOINTS && nStop != 0 then
      Switch(claimed, InvalidArgument(STOP_COUNT_MESSAGE))
    else
      var afterStop := if nStop == NUMBER_OF_JOINTS then false else claimed;
      var nStart := CountVelocityInterfaces(start);
      if nStart != NUMBER_OF_JOINTS && nStart != 0 then
        Switch(afterStop, InvalidArgument(START_COUNT_MESSAGE))
      else
        Switch(if nStart == NUMBER_OF_JOINTS then true else afterStop, Accepted)
  }

  /** Starting every joint's velocity interface claims them, whatever the claim was. */
  lemma ClaimAllVelocity(claimed: bool, start: seq<string>, stop: seq<string>)
    requires |start| == NUMBER_OF_JOINTS
    requires forall i :: 0 <= i < |start| ==> IsVelocityInterface(start[i])
    requires forall i :: 0 <= i < |stop| ==> !IsVelocityInterface(stop[i])
    ensures PrepareSwitch(claimed, start, stop) == Switch(true, Accepted)
  {
  }

  /** A velocity interface name: `<joint>/velocity`. */
  function VelocityName(joint: string): (r: string)
    ensures IsVelocityInterface(r)
  {
    assert OccursAt(joint + "/" + HW_IF_VELOCITY, HW_IF_VELOCITY, |joint| + 1);
    joint + "/" + HW_IF_VELOCITY
  }

  /** Starting the velocity interfaces of only three joints throws. */
  lemma PartialClaimRejected(claimed: bool, a: string, b: string, c: string)
    ensures PrepareSwitch(claimed, [VelocityName(a), VelocityName(b), VelocityName(c)], []).outcome
            == InvalidArgument(START_COUNT_MESSAGE)
  {
    var start := [VelocityName(a), VelocityName(b), VelocityName(c)];
    assert start[1..] == [VelocityName(b), VelocityName(c)];
    assert start[1..][1..] == [VelocityName(c)];
    assert start[1..][1..][1..] == [];
    assert CountVelocityInterfaces(start) == 3;
  }
}
