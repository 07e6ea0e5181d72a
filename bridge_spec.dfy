/**
 * The real-time bridge (`franka_hardware::Robot`) as a pure state machine.
 *
 * The background thread is represented by the loop it runs (`LoopMode`);
 * joining it is an instantaneous move to `Stopped`, and each invocation of a
 * loop's callback is one step that the library may take while that loop runs.
 * The `Robot` class is proved against these functions, and the lemmas below
 * state what holds over any sequence of calls.
 */
module BridgeSpec {
  import opened FrankaTypes

  /** Which loop, if any, the control thread is running. */
  datatype LoopMode = Stopped | ContinuousReading | TorqueControl | VelocityControl

  /** What a control callback hands back: `franka::Torques` or `franka::JointVelocities`. */
  datatype Command = Command(values: Joints, motionFinished: bool)

  /** The fields of `Robot` that its methods change, plus the running loop. */
  datatype Bridge = Bridge(
    loop: LoopMode,
    finish: bool,
    useVelocityControl: bool,
    currentState: RobotState,
    tauCommand: Joints,
    velCommand: Joints)

  /** `isStopped()`: no control or reading loop is running. */
  predicate IsStopped(b: Bridge) {
    b.loop == Stopped
  }

  /**
   * What holds between any two calls: the finish flag is only raised inside
   * `stopRobot`, and a velocity loop only runs once the velocity flag is set.
   */
  predicate Consistent(b: Bridge) {
    && !b.finish
    && (b.loop == VelocityControl ==> b.useVelocityControl)
  }

  /** True when `b` and `r` agree on everything but the loop and the finish flag. */
  predicate SameData(b: Bridge, r: Bridge) {
    && r.useVelocityControl == b.useVelocityControl
    && r.currentState == b.currentState
    && r.tauCommand == b.tauCommand
    && r.velCommand == b.velCommand
  }

  /** The freshly constructed bridge: both command slots zeroed, nothing running. */
  function Initial(): (b: Bridge)
    ensures IsStopped(b) && Consistent(b)
    ensures !b.useVelocityControl
    ensures b.tauCommand == Zeros() && b.velCommand == Zeros()
    ensures b.currentState == DefaultState()
  {
    Bridge(Stopped, false, false, DefaultState(), Zeros(), Zeros())
  }

  /** `write`: the whole command replaces the slot the velocity flag selects. */
  function Write(b: Bridge, command: Joints): (r: Bridge)
    ensures r.loop == b.loop && r.finish == b.finish
    ensures r.useVelocityControl == b.useVelocityControl && r.currentState == b.currentState
    ensures b.useVelocityControl ==> r.velCommand == command && r.tauCommand == b.tauCommand
    ensures !b.useVelocityControl ==> r.tauCommand == command && r.velCommand == b.velCommand
  {
    if b.useVelocityControl then b.(velCommand := command) else b.(tauCommand := command)
  }

  /** `read`: a copy of the latest published state. */
  function Read(b: Bridge): (r: RobotState)
    ensures r == b.currentState
  {
    b.currentState
  }

  /**
   * `stopRobot`: when a loop runs, raise the finish flag, join the thread,
   * lower the flag and mark the bridge stopped; when none runs, do nothing.
   */
  function Stop(b: Bridge): (r: Bridge)
    ensures IsStopped(r)
    ensures !IsStopped(b) ==> !r.finish
    ensures IsStopped(b) ==> r == b
    ensures SameData(b, r)
  {
    if b.loop != Stopped then b.(loop := Stopped, finish := false) else b
  }

  /** `initializeTorqueControl`: start the torque loop; the velocity flag is left as it is. */
  function InitializeTorqueControl(b: Bridge): (r: Bridge)
    requires IsStopped(b)
    ensures r.loop == TorqueControl && !IsStopped(r)
    ensures r.finish == b.finish && SameData(b, r)
  {
    b.(loop := TorqueControl)
  }

  /** `initializeVelocityControl`: set the velocity flag and start the velocity loop. */
  function InitializeVelocityControl(b: Bridge): (r: Bridge)
    requires IsStopped(b)
    ensures r.loop == VelocityControl && !IsStopped(r) && r.useVelocityControl
    ensures r.finish == b.finish && r.currentState == b.currentState
    ensures r.tauCommand == b.tauCommand && r.velCommand == b.velCommand
  {
    b.(loop := VelocityControl, useVelocityControl := true)
  }

  /** `initializeContinuousReading`: start the state-only reading loop. */
  function InitializeContinuousReading(b: Bridge): (r: Bridge)
    requires IsStopped(b)
    ensures r.loop == ContinuousReading && !IsStopped(r)
    ensures r.finish == b.finish && SameData(b, r)
  {
    b.(loop := ContinuousReading)
  }

  /** True while one of the two control loops runs. */
  predicate IsControlling(b: Bridge) {
    b.loop == TorqueControl || b.loop == VelocityControl
  }

  /** The slot the running control loop reads: torque loop, torque slot; velocity loop, velocity slot. */
  function LoopCommand(b: Bridge): Joints
    requires IsControlling(b)
  {
    if b.loop == TorqueControl then b.tauCommand else b.velCommand
  }

  /**
   * One invocation of a control loop's callback with the measured `state`:
   * publish the state, then return the loop's pending command tagged with
   * the finish flag.
   */
  function ControlStep(b: Bridge, state: RobotState): (r: (Bridge, Command))
    requires IsControlling(b)
    ensures r.0 == b.(currentState := state)
    ensures r.1.values == (if b.loop == TorqueControl then b.tauCommand else b.velCommand)
    ensures r.1.motionFinished == b.finish
  {
    (b.(currentState := state), Command(LoopCommand(b), b.finish))
  }

  /**
   * One invocation of the reading loop's callback with the measured `state`:
   * publish the state and ask to go on unless the finish flag is raised.
   */
  function ReadingStep(b: Bridge, state: RobotState): (r: (Bridge, bool))
    requires b.loop == ContinuousReading
    ensures r.0 == b.(currentState := state)
    ensures r.1 == !b.finish
  {
    (b.(currentState := state), !b.finish)
  }

  // ---------------------------------------------------------------------
  // Sequences of calls
  // ---------------------------------------------------------------------

  /** One call on the bridge, from the adapter's thread or the loop's callback. */
  datatype Call =
    | WriteCall(command: Joints)
    | ReadCall
    | StopCall
    | TorqueStartCall
    | VelocityStartCall
    | ReadingStartCall
    | ControlCallback(state: RobotState)
    | ReadingCallback(state: RobotState)

  /** The `assert(isStopped())` of each loop starter, and which loop a callback belongs to. */
  predicate Enabled(b: Bridge, c: Call) {
    match c
    case TorqueStartCall => IsStopped(b)
    case VelocityStartCall => IsStopped(b)
    case ReadingStartCall => IsStopped(b)
    case ControlCallback(_) => IsControlling(b)
    case ReadingCallback(_) => b.loop == ContinuousReading
    case _ => true
  }

  function Next(b: Bridge, c: Call): (r: Bridge)
    requires Enabled(b, c)
    ensures Consistent(b) ==> Consistent(r)
    ensures b.useVelocityControl ==> r.useVelocityControl
    ensures !c.WriteCall? ==> r.tauCommand == b.tauCommand && r.velCommand == b.velCommand
    ensures !c.VelocityStartCall? ==> r.useVelocityControl == b.useVelocityControl
  {
    match c
    case WriteCall(command) => Write(b, command)
    case ReadCall => b
    case StopCall => Stop(b)
    case TorqueStartCall => InitializeTorqueControl(b)
    case VelocityStartCall => InitializeVelocityControl(b)
    case ReadingStartCall => InitializeContinuousReading(b)
    case ControlCallback(state) => ControlStep(b, state).0
    case ReadingCallback(state) => ReadingStep(b, state).0
  }

  /** Every call of `calls` is allowed in the state the previous ones leave. */
  predicate Runs(b: Bridge, calls: seq<Call>)
    decreases |calls|
  {
    |calls| == 0 || (Enabled(b, calls[0]) && Runs(Next(b, calls[0]), calls[1..]))
  }

  function Run(b: Bridge, calls: seq<Call>): Bridge
    requires Runs(b, calls)
    decreases |calls|
  {
    if |calls| == 0 then b else Run(Next(b, calls[0]), calls[1..])
  }

  predicate NoWrites(calls: seq<Call>) {
    forall i :: 0 <= i < |calls| ==> !calls[i].WriteCall?
  }

  predicate NoVelocityStarts(calls: seq<Call>) {
    forall i :: 0 <= i < |calls| ==> !calls[i].VelocityStartCall?
  }

  predicate NoCallbacks(calls: seq<Call>) {
    forall i :: 0 <= i < |calls| ==> !calls[i].ControlCallback? && !calls[i].ReadingCallback?
  }

  /**
   * `read` returns the state the last loop callback published: the calls of
   * the adapter's thread (writes, reads, stops and starts) never change it.
   */
  lemma {:induction false} ReadSeesLastPublished(b: Bridge, calls: seq<Call>)
    requires Runs(b, calls) && NoCallbacks(calls)
    ensures Read(Run(b, calls)) == Read(b)
    decreases |calls|
  {
    if |calls| > 0 {
      assert !calls[0].ControlCallback? && !calls[0].ReadingCallback?;
      assert NoCallbacks(calls[1..]) by {
        forall i | 0 <= i < |calls[1..]|
          ensures !calls[1..][i].ControlCallback? && !calls[1..][i].ReadingCallback?
        {
          assert calls[1..][i] == calls[i + 1];
        }
      }
      ReadSeesLastPublished(Next(b, calls[0]), calls[1..]);
    }
  }

  /** After a loop callback that measured `state`, `read` returns `state` until the next callback. */
  lemma ReadAfterCallback(b: Bridge, c: Call, calls: seq<Call>)
    requires c.ControlCallback? || c.ReadingCallback?
    requires Enabled(b, c) && Runs(Next(b, c), calls) && NoCallbacks(calls)
    ensures Read(Run(Next(b, c), calls)) == c.state
  {
    ReadSeesLastPublished(Next(b, c), calls);
  }

  /** Every sequence of allowed calls keeps the bridge consistent. */
  lemma {:induction false} RunConsistent(b: Bridge, calls: seq<Call>)
    requires Consistent(b) && Runs(b, calls)
    ensures Consistent(Run(b, calls))
    decreases |calls|
  {
    if |calls| > 0 {
      RunConsistent(Next(b, calls[0]), calls[1..]);
    }
  }

  /** No call ever clears the velocity flag once `initializeVelocityControl` has set it. */
  lemma {:induction false} VelocityFlagSticky(b: Bridge, calls: seq<Call>)
    requires b.useVelocityControl && Runs(b, calls)
    ensures Run(b, calls).useVelocityControl
    decreases |calls|
  {
    if |calls| > 0 {
      VelocityFlagSticky(Next(b, calls[0]), calls[1..]);
    }
  }

  /** Without a velocity-loop start the velocity flag keeps its value. */
  lemma {:induction false} VelocityFlagOnlySetByVelocityStart(b: Bridge, calls: seq<Call>)
    requires Runs(b, calls) && NoVelocityStarts(calls)
    ensures Run(b, calls).useVelocityControl == b.useVelocityControl
    decreases |calls|
  {
    if |calls| > 0 {
      assert !calls[0].VelocityStartCall?;
      assert NoVelocityStarts(calls[1..]) by {
        forall i | 0 <= i < |calls[1..]| ensures !calls[1..][i].VelocityStartCall? {
          assert calls[1..][i] == calls[i + 1];
        }
      }
      VelocityFlagOnlySetByVelocityStart(Next(b, calls[0]), calls[1..]);
    }
  }

  /** Only `write` changes a command slot: a written command stays until the next one. */
  lemma {:induction false} CommandsPersist(b: Bridge, calls: seq<Call>)
    requires Runs(b, calls) && NoWrites(calls)
    ensures Run(b, calls).tauCommand == b.tauCommand
    ensures Run(b, calls).velCommand == b.velCommand
    decreases |calls|
  {
    if |calls| > 0 {
      assert !calls[0].WriteCall?;
      assert NoWrites(calls[1..]) by {
        forall i | 0 <= i < |calls[1..]| ensures !calls[1..][i].WriteCall? {
          assert calls[1..][i] == calls[i + 1];
        }
      }
      CommandsPersist(Next(b, calls[0]), calls[1..]);
    }
  }

  /**
   * A command written while the velocity flag is set is what every later
   * velocity-loop step sends, until the next write; a command written before
   * the flag was ever set does not reach the velocity loop, which sends the
   * velocity slot's earlier contents instead.
   */
  lemma VelocityLoopSendsLastWrite(b: Bridge, command: Joints, calls: seq<Call>, state: RobotState)
    requires Runs(Write(b, command), calls) && NoWrites(calls)
    requires Run(Write(b, command), calls).loop == VelocityControl
    ensures ControlStep(Run(Write(b, command), calls), state).1.values
            == if b.useVelocityControl then command else b.velCommand
  {
    CommandsPersist(Write(b, command), calls);
  }

  /**
   * A command written is what every later torque-loop step sends, until the
   * next write, provided the velocity flag was not set when it was written;
   * once the flag is set, writes never reach the torque slot.
   */
  lemma TorqueLoopSendsLastWrite(b: Bridge, command: Joints, calls: seq<Call>, state: RobotState)
    requires Runs(Write(b, command), calls) && NoWrites(calls)
    requires Run(Write(b, command), calls).loop == TorqueControl
    ensures ControlStep(Run(Write(b, command), calls), state).1.values
            == if b.useVelocityControl then b.tauCommand else command
  {
    CommandsPersist(Write(b, command), calls);
  }

  /** Stopping twice is stopping once, and each leaves the bridge stopped with the flag lowered. */
  lemma {:induction false} StopTwiceIsStopOnce(b: Bridge, calls: seq<Call>)
    requires Consistent(b) && Runs(b, calls)
    ensures Runs(Run(b, calls), [StopCall, StopCall])
    ensures Run(Run(b, calls), [StopCall, StopCall]) == Run(Run(b, calls), [StopCall])
    ensures IsStopped(Run(Run(b, calls), [StopCall])) && !Run(Run(b, calls), [StopCall]).finish
  {
    RunConsistent(b, calls);
    assert [StopCall, StopCall][1..] == [StopCall];
    assert [StopCall][1..] == [];
  }

  // ---------------------------------------------------------------------
  // The torque loop after a velocity session (see README, Findings)
  // ---------------------------------------------------------------------

  function Ones(): Joints {
    seq(NUMBER_OF_JOINTS, _ => Finite(1.0))
  }

  /**
   * As written: start velocity control, stop it, start torque control, write
   * a command of ones. The torque loop then sends the zero command from the
   * constructor, not the command just written.
   */
  lemma TorqueAfterVelocityIgnoresWrite(state: RobotState)
    ensures Runs(Initial(), [VelocityStartCall, StopCall, TorqueStartCall, WriteCall(Ones())])
    ensures var b := Run(Initial(), [VelocityStartCall, StopCall, TorqueStartCall, WriteCall(Ones())]);
            b.loop == TorqueControl && ControlStep(b, state).1.values == Zeros() && Zeros() != Ones()
  {
    var calls := [VelocityStartCall, StopCall, TorqueStartCall, WriteCall(Ones())];
    var b0 := Initial();
    var b1 := InitializeVelocityControl(b0);
    var b2 := Stop(b1);
    var b3 := InitializeTorqueControl(b2);
    var b4 := Write(b3, Ones());
    assert calls[1..] == [StopCall, TorqueStartCall, WriteCall(Ones())];
    assert calls[1..][1..] == [TorqueStartCall, WriteCall(Ones())];
    assert calls[1..][1..][1..] == [WriteCall(Ones())];
    assert calls[1..][1..][1..][1..] == [];
    assert Run(b0, calls) == b4;
    assert Zeros()[0] == ZERO && Ones()[0] == Finite(1.0);
  }

  /** Corrected starter: the torque loop clears the velocity flag. */
  function InitializeTorqueControlCorrected(b: Bridge): (r: Bridge)
    requires IsStopped(b)
    ensures r.loop == TorqueControl && !r.useVelocityControl
    ensures r.finish == b.finish && r.currentState == b.currentState
    ensures r.tauCommand == b.tauCommand && r.velCommand == b.velCommand
  {
    b.(loop := TorqueControl, useVelocityControl := false)
  }

  /**
   * With the corrected starter, whatever ran before, a command written while
   * the torque loop runs (after any run without a velocity start) is what its
   * steps send until the next write.
   */
  lemma CorrectedTorqueLoopSendsWrite(b: Bridge, pre: seq<Call>, command: Joints, calls: seq<Call>, state: RobotState)
    requires IsStopped(b)
    requires Runs(InitializeTorqueControlCorrected(b), pre) && NoVelocityStarts(pre)
    requires var t := Write(Run(InitializeTorqueControlCorrected(b), pre), command);
             Runs(t, calls) && NoWrites(calls) && Run(t, calls).loop == TorqueControl
    ensures ControlStep(Run(Write(Run(InitializeTorqueControlCorrected(b), pre), command), calls), state).1.values == command
  {
    VelocityFlagOnlySetByVelocityStart(InitializeTorqueControlCorrected(b), pre);
    CommandsPersist(Write(Run(InitializeTorqueControlCorrected(b), pre), command), calls);
  }
}
