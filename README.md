# franka_hardware: the real-time bridge and the ros2_control adapter

This project models the two parts of `franka_hardware` that connect a
ros2_control controller manager to a Franka 7-axis arm, and proves
properties of them in Dafny.

- **`Robot`, the real-time bridge** (`robot.dfy`, specified by `bridge_spec.dfy`).
  It owns the connection and one background loop. That loop is a torque
  control loop, a velocity control loop or a state-only reading loop. The
  class keeps the C++ fields `stopped_`, `finish_`, `use_velocity_control_`,
  `current_state_`, `tau_command_` and `vel_command_`. A ghost field `loop`
  records which loop the control thread runs. Each method is proved against
  a pure function of module `BridgeSpec` over the same state, so each
  method's `ensures` gives its whole new state. Each invocation of a loop's
  callback is a method of its own: it publishes the measured state and
  returns the pending command, tagged with the finish flag. `BridgeSpec`
  also defines runs of calls with their preconditions (`Enabled`) and proves
  properties that hold over any run:
  - the bridge stays consistent;
  - the velocity flag is never cleared;
  - only `write` changes a command slot;
  - each control loop sends the last command written, and the lemmas say
    exactly when.
- **`FrankaHardwareInterface`, the adapter** (`hardware_config.dfy` for the
  pure rules, `hardware_interface.dfy` for the class). It covers:
  - `on_init`'s validation of the hardware description, in the order of
    its checks;
  - the export of the state and command interfaces;
  - the finiteness guard of `write`;
  - `on_activate`, `on_deactivate` and `read`;
  - the two-phase mode switch. `prepare_command_mode_switch` counts
    velocity interfaces with `count_if` and a substring test, and updates
    the claim. `perform_command_mode_switch` restarts the bridge to match
    the claim.

`double` is the tagged type `FrankaTypes.Double` (finite value, NaN or
±infinity). Only finiteness is ever asked of it. The manufacturer's library
is represented by parameters: whether the connection succeeds (`connects`),
and the measured states handed to the callbacks.

Three behaviours of the code are easy to miss, and the model keeps them:
- A state interface with the wrong name is only logged. It does not make
  `on_init` fail (`HardwareConfig.StateNamesOnlyLogged`).
- The read that ends `on_activate` copies whatever state the bridge last
  published. Nothing makes it wait for an iteration of the new reading loop.
  Before the first iteration this is the zero state of a default-constructed
  `franka::RobotState`.
- When `prepare_command_mode_switch` throws on the start list, the stop list
  has already been applied. A valid "stop all 7" followed by an invalid
  start count leaves the claim released.

## Model

| member | source | states |
|---|---|---|
| BridgeSpec.Initial | franka_hardware/include/franka_hardware/robot.hpp:90-95 | a new bridge is stopped, consistent, not in velocity mode, with zero commands and the default state |
| FrankaRobot.Robot.constructor | franka_hardware/src/robot.cpp:26-37 | the constructed robot is valid, stopped, and its state is `BridgeSpec.Initial()` with both command slots zeroed |
| BridgeSpec.Write | franka_hardware/src/robot.cpp:39-47 | the command replaces the velocity slot when the velocity flag is set, else the torque slot; the other slot and all other fields are unchanged |
| FrankaRobot.Robot.Write | franka_hardware/src/robot.cpp:39-47 | the new state is `BridgeSpec.Write` of the old one; `stopped_` is unchanged |
| BridgeSpec.Read | franka_hardware/src/robot.cpp:49-52 | `read` returns the bridge's `current_state_`, the state the loop last published |
| FrankaRobot.Robot.Read | franka_hardware/src/robot.cpp:49-52 | returns the current state and changes nothing |
| BridgeSpec.ReadSeesLastPublished | franka_hardware/src/robot.cpp:39-61 | over any run of writes, reads, stops and starts without a loop callback, `read` returns the same state |
| BridgeSpec.ReadAfterCallback | franka_hardware/src/robot.cpp:68-116 | after a control or reading callback that measured a state, `read` returns that state until the next callback |
| BridgeSpec.Stop | franka_hardware/src/robot.cpp:54-61 | afterwards the bridge is stopped; a running loop also leaves the finish flag lowered; a stopped bridge is returned unchanged; commands, state and velocity flag are kept |
| FrankaRobot.Robot.StopRobot | franka_hardware/src/robot.cpp:54-61 | the new state is `BridgeSpec.Stop` of the old one and `stopped_` is true |
| BridgeSpec.StopTwiceIsStopOnce | franka_hardware/src/robot.cpp:54-61 | after any run, a second stop changes nothing, and a stop leaves the bridge stopped with the finish flag lowered |
| BridgeSpec.InitializeTorqueControl | franka_hardware/src/robot.cpp:63-81 | requires the bridge stopped; starts the torque loop and keeps the velocity flag, commands and state |
| FrankaRobot.Robot.InitializeTorqueControl | franka_hardware/src/robot.cpp:63-81 | requires no loop running; the new state is `BridgeSpec.InitializeTorqueControl` of the old one and `stopped_` is false |
| BridgeSpec.InitializeVelocityControl | franka_hardware/src/robot.cpp:83-104 | requires the bridge stopped; starts the velocity loop and sets the velocity flag; commands and state are kept |
| FrankaRobot.Robot.InitializeVelocityControl | franka_hardware/src/robot.cpp:83-104 | requires no loop running; the new state is `BridgeSpec.InitializeVelocityControl` of the old one and `stopped_` is false |
| BridgeSpec.InitializeContinuousReading | franka_hardware/src/robot.cpp:106-119 | requires the bridge stopped; starts the reading loop and keeps everything else |
| FrankaRobot.Robot.InitializeContinuousReading | franka_hardware/src/robot.cpp:106-119 | requires no loop running; the new state is `BridgeSpec.InitializeContinuousReading` of the old one and `stopped_` is false |
| BridgeSpec.ControlStep | franka_hardware/src/robot.cpp:68-98 | the torque callback (lines 68-77) or the velocity callback (lines 90-98) publishes the measured state, then returns the running loop's slot (torque loop: torque slot; velocity loop: velocity slot) with `motion_finished` equal to the finish flag |
| FrankaRobot.Robot.TorqueControlCallback | franka_hardware/src/robot.cpp:68-77 | while the torque loop runs, the new state and the returned command are `BridgeSpec.ControlStep` of the old state |
| FrankaRobot.Robot.VelocityControlCallback | franka_hardware/src/robot.cpp:90-98 | while the velocity loop runs, the new state and the returned command are `BridgeSpec.ControlStep` of the old state |
| BridgeSpec.ReadingStep | franka_hardware/src/robot.cpp:110-116 | the reading callback publishes the measured state and asks to continue exactly when the finish flag is down |
| FrankaRobot.Robot.ReadingCallback | franka_hardware/src/robot.cpp:110-116 | while the reading loop runs, the new state and the continue flag are `BridgeSpec.ReadingStep` of the old state |
| FrankaRobot.Robot.IsStopped | franka_hardware/src/robot.cpp:125-127 | true exactly when no control or reading loop runs |
| FrankaRobot.Robot.Destroy | franka_hardware/src/robot.cpp:121-123 | the destructor leaves the bridge stopped, with the finish flag lowered; the new state is `BridgeSpec.Stop` of the old one |
| BridgeSpec.Next | franka_hardware/include/franka_hardware/robot.hpp:48-83 | every allowed call keeps the bridge consistent and never clears the velocity flag; only `write` changes a command slot; only the velocity starter changes the flag |
| BridgeSpec.RunConsistent | franka_hardware/include/franka_hardware/robot.hpp:48-64 | over any run of allowed calls the finish flag stays down between calls, and the velocity loop only runs with the velocity flag set |
| BridgeSpec.VelocityFlagSticky | franka_hardware/src/robot.cpp:86 | once the velocity flag is set, no run of calls clears it |
| BridgeSpec.VelocityFlagOnlySetByVelocityStart | franka_hardware/src/robot.cpp:83-86 | a run without a velocity-loop start leaves the velocity flag as it was |
| BridgeSpec.CommandsPersist | franka_hardware/include/franka_hardware/robot.hpp:75-80 | a run without writes leaves both command slots unchanged |
| BridgeSpec.VelocityLoopSendsLastWrite | franka_hardware/include/franka_hardware/robot.hpp:75-80 | after a write and any run without writes that ends in the velocity loop, its steps send the written command if the velocity flag was set at the write, and otherwise the velocity slot's earlier contents |
| BridgeSpec.TorqueLoopSendsLastWrite | franka_hardware/include/franka_hardware/robot.hpp:75-80 | after a write and any run without writes that ends in the torque loop, its steps send the written command if the velocity flag was clear at the write, and otherwise the torque slot's earlier contents |
| BridgeSpec.TorqueAfterVelocityIgnoresWrite | franka_hardware/src/robot.cpp:63-66 | as written: velocity start, stop, torque start, write of ones; the torque loop then sends zeros, not the ones just written |
| BridgeSpec.InitializeTorqueControlCorrected | franka_hardware/src/robot.cpp:63-65 | corrected starter: requires the bridge stopped, starts the torque loop and clears the velocity flag |
| BridgeSpec.CorrectedTorqueLoopSendsWrite | franka_hardware/include/franka_hardware/robot.hpp:75-80 | with the corrected starter, whatever ran before it, a command written once the torque loop runs (after any run of calls without a velocity start) is what its steps send until the next write |
| HardwareConfig.CheckJoint | franka_hardware/src/franka_hardware_interface.cpp:104-119 | no error exactly when the joint has one command interface named `velocity` and three state interfaces; otherwise the error of the first failing check, with the joint name and the count or name found |
| HardwareConfig.CheckJoints | franka_hardware/src/franka_hardware_interface.cpp:103-135 | no error exactly when every joint conforms; otherwise the error of a joint that fails, where every joint before it conforms |
| FrankaHardwareInterface.FirstFailingJoint | franka_hardware/src/franka_hardware_interface.cpp:103-108 | when every joint before index i conforms and joint i does not, the joint loop reports joint i's error |
| HardwareConfig.OnInit | franka_hardware/src/franka_hardware_interface.cpp:93-153 | ERROR for a failing base init, for a joint count other than 7 (reporting the count), for the first non-conforming joint, for a missing `robot_ip`, or for a failed connection; success, with the `robot_ip` value, exactly when all checks pass and the connection succeeds |
| HardwareConfig.NoConnectionBeforeValidation | franka_hardware/src/franka_hardware_interface.cpp:97-150 | when a check before the connection fails, the result is a failure other than a connection failure, and it does not depend on whether the connection would succeed |
| HardwareConfig.StateNamesOnlyLogged | franka_hardware/src/franka_hardware_interface.cpp:120-134 | two joint lists that differ only in the names of state interfaces get the same joint-check result |
| HardwareConfig.OnInitIgnoresStateNames | franka_hardware/src/franka_hardware_interface.cpp:115-134 | renaming state interfaces never changes the result of `on_init` |
| HardwareConfig.Contains | franka_hardware/src/franka_hardware_interface.cpp:177-179 | true exactly when the substring occurs in the string at some index |
| HardwareConfig.IsVelocityInterface | franka_hardware/src/franka_hardware_interface.cpp:177-179 | an interface name is a velocity interface exactly when `velocity` occurs in it at some index |
| HardwareConfig.CountVelocityInterfaces | franka_hardware/src/franka_hardware_interface.cpp:181-182 | the count is at most the list length; it equals the length exactly when every name is a velocity interface and is 0 exactly when none is |
| HardwareConfig.PrepareSwitch | franka_hardware/src/franka_hardware_interface.cpp:174-205 | a stop count other than 0 or 7 throws with the claim unchanged; then a start count other than 0 or 7 throws with the stop list already applied; it is accepted exactly when both counts are 0 or 7, and then start-7 claims, else stop-7 releases, else the claim is kept |
| HardwareConfig.ClaimAllVelocity | franka_hardware/src/franka_hardware_interface.cpp:193-196 | starting seven velocity interfaces, with no velocity interface stopped, claims them whatever the previous claim |
| HardwareConfig.PartialClaimRejected | franka_hardware/src/franka_hardware_interface.cpp:197-203 | starting the velocity interfaces of three joints throws `invalid_argument` with the start message |
| FrankaHardwareInterface.WriteCycle | franka_hardware/src/franka_hardware_interface.cpp:83-91 | OK exactly when every command is finite; on ERROR the bridge is unchanged; on OK the whole vector is written to the bridge |
| FrankaHardwareInterface.AcceptedCommandReachesVelocityLoop | franka_hardware/src/franka_hardware_interface.cpp:89-90 | in velocity control, an accepted finite vector is what the next velocity-loop step sends |
| FrankaHardwareInterface.PerformSwitch | franka_hardware/src/franka_hardware_interface.cpp:159-172 | the running flag becomes the claim; a new claim ends in the velocity loop with the velocity flag set, a released claim ends in the reading loop, and no change leaves the bridge as it was; commands and state are kept and consistency is preserved |
| FrankaHardwareInterface.ClaimThenRelease | franka_hardware/src/franka_hardware_interface.cpp:162-170 | from continuous reading, a claim switches to velocity control and a later release switches back to continuous reading |
| FrankaHardwareInterface.HardwareInterface.constructor | franka_hardware/src/franka_hardware_interface.cpp:159-172 | the assumed initial state (the header is not part of this model; the cited lines are `perform_command_mode_switch`, whose tests at lines 162 and 166 read the two flags this initial state sets): seven zeroed command slots, zeroed state arrays, no robot, and velocity interfaces neither claimed nor running |
| FrankaHardwareInterface.HardwareInterface.OnInit | franka_hardware/src/franka_hardware_interface.cpp:93-153 | succeeds exactly when `HardwareConfig.OnInit` does, and then holds a fresh stopped robot in its initial state; on error, no robot exists; the reported error is the one `HardwareConfig.OnInit` gives; the description is stored once the base init succeeds and left as it was when the base init fails |
| FrankaHardwareInterface.HardwareInterface.ExportStateInterfaces | franka_hardware/src/franka_hardware_interface.cpp:35-46 | three handles per joint, in order position, velocity, effort; handle k belongs to joint k/3 and points at slot k/3 < 7 |
| FrankaHardwareInterface.HardwareInterface.ExportCommandInterfaces | franka_hardware/src/franka_hardware_interface.cpp:48-56 | one `velocity` handle per joint; handle k belongs to joint k and points at command slot k < 7 |
| FrankaHardwareInterface.HardwareInterface.SetCommand | franka_hardware/src/franka_hardware_interface.cpp:52-53 | a write through a command handle changes exactly that joint's entry of `hw_commands_` |
| FrankaHardwareInterface.HardwareInterface.OnActivate | franka_hardware/src/franka_hardware_interface.cpp:58-65 | requires the robot stopped; starts continuous reading, sets all seven commands to zero, and leaves the position, velocity and effort slots equal to the state's q, dq and tau_J |
| FrankaHardwareInterface.HardwareInterface.OnDeactivate | franka_hardware/src/franka_hardware_interface.cpp:67-73 | the robot is stopped; its new state is `BridgeSpec.Stop` of the old one |
| FrankaHardwareInterface.HardwareInterface.Read | franka_hardware/src/franka_hardware_interface.cpp:75-81 | returns OK and the state slots equal the bridge's q, dq and tau_J |
| FrankaHardwareInterface.HardwareInterface.Write | franka_hardware/src/franka_hardware_interface.cpp:83-91 | the robot's new state and the return value are `WriteCycle` of the robot's old state and the command slots |
| FrankaHardwareInterface.HardwareInterface.PrepareCommandModeSwitch | franka_hardware/src/franka_hardware_interface.cpp:174-205 | the new claim and the outcome, OK or thrown `invalid_argument`, are `PrepareSwitch` of the old claim and the two lists |
| FrankaHardwareInterface.HardwareInterface.PerformCommandModeSwitch | franka_hardware/src/franka_hardware_interface.cpp:159-172 | always OK; the robot's new state and the running flag are `PerformSwitch` of the old ones and the claim |

## Findings

| source | as written | input that shows it | evidently intended | confidence | as-written member | corrected member |
|---|---|---|---|---|---|---|
| franka_hardware/src/robot.cpp:63-65 | `initializeTorqueControl` does not clear `use_velocity_control_`, so after a velocity session `write` keeps filling `vel_command_` while the torque loop reads `tau_command_` | `initializeVelocityControl(); stopRobot(); initializeTorqueControl(); write(ones)`: the torque loop sends the zero torques from the constructor | starting the torque loop clears the flag, so written commands reach the torque loop (robot.hpp:75-80) | medium, not executed | BridgeSpec.TorqueAfterVelocityIgnoresWrite | BridgeSpec.InitializeTorqueControlCorrected |

The corrected starter and its lemma `BridgeSpec.CorrectedTorqueLoopSendsWrite`
live in `BridgeSpec`. The `Robot` class keeps `initializeTorqueControl` as
written, because the class models the code. The adapter never starts the
torque loop, so no other part of the model depends on either version.

## Left out

- Threads, the two mutexes and the atomic `finish_`: calls are sequential. Joining the control thread is one instantaneous step to the stopped state. Loop iterations that run while `stopRobot` waits for the join, and the states they would publish, are not modelled. Race-freedom of the locking is not modelled.
- The manufacturer library `franka::Robot`: the network connection (a boolean `connects` for success), `control`/`read` as blocking loops (each callback invocation is a separate method the library may call), `setJointImpedance`, the cutoff frequency and 200 Hz rate arguments, `hasRealtimeKernel` and the real-time configuration. These are foreign calls whose behaviour is not visible here. The model assumes that each of them returns normally; only the connection failure in `on_init` is modelled as an error.
- Exceptions that escape `robot_->control` or `robot_->read` (robot.cpp:67, 89 and 110). These run as the control thread's function with no handler, so such an exception ends the process through `std::terminate`. The model has no process termination.
- FrankaRobot.Robot.InitializeVelocityControl: assumes that the library call `setJointImpedance` (robot.cpp:87) returns normally. In the source, if it throws, `stopped_` is already false and `use_velocity_control_` already true (lines 85-86), but no thread is started (line 103 is not reached). `isStopped()` then reports false while no loop runs, so the `Valid()` tie between `stopped` and the loop does not hold on that path. The exception also leaves `perform_command_mode_switch` with `velocity_interface_running_` false and the claim still true, so the next switch calls `stopRobot` again. That call raises `finish_` and joins a thread that has already been joined, which throws `std::system_error` (lines 56-57) and leaves `finish_` raised. The model has no exception paths for library calls, so none of this is covered.
- Floating-point semantics: `double` is a tagged value checked only for finiteness.
- Logging (`RCLCPP_*`), `getLogger` and the pluginlib export. This includes the three state-interface name checks at lines 120-134 of franka_hardware_interface.cpp; the velocity and effort messages (lines 127 and 132) print the name of `state_interfaces[0]`, not of the interface checked.
- `SystemInterface::on_init`: its verdict is the boolean `baseInitOk`, and its storing of the description is an assignment to `info`.
- `franka::RobotState` beyond `q`, `dq` and `tau_J`.
- franka_hardware_interface.hpp is not part of this model. The model assumes what the code implies: `kNumberOfJoints` is 7; the command and state arrays start at zero; `velocity_interface_claimed_` and `velocity_interface_running_` start false. `FrankaHardwareInterface.HardwareInterface.constructor` states these assumptions.
- Exported handles are raw pointers into the adapter's arrays. They are modelled as (joint name, interface name, array index). Writes through a command handle are `SetCommand`.
- FrankaRobot.Robot.Destroy: models only the destructor's call to `stopRobot`, not the closing of the connection, because the connection belongs to the library.
- `on_deactivate` does not reset `velocity_interface_running_`. The model keeps this, and states no invariant tying that flag to the running loop across a deactivation.
