/**
  The bounded input journal and the movement packets (world_movement.rs). Coordinates and angles are
  the numbers their floating-point values stand for; look deltas are not part of this model.
 */
module Movement {
  import opened Wrappers
  import opened Bytes

  const POSITION_EPSILON_SQUARED: real := 0.00000004
  const FORCED_POSITION_INTERVAL := 20
  const MAX_INPUT_TRANSITIONS := 64
  const U64_MAX := 0xffff_ffff_ffff_ffff

  datatype Input = Input(forward: bool, backward: bool, left: bool, right: bool, jump: bool, sneak: bool, sprint: bool)

  const IDLE := Input(false, false, false, false, false, false, false)

  // ---- The journal ----

  datatype Transition = Transition(sequence: u64, input: Input, reset: bool)

  /** An inventory action of the user interface. */
  type Command = int

  const MAX_INVENTORY_COMMANDS := 64

  datatype Buttons = Buttons(attack: bool, attackChanged: bool, usePresses: nat, commands: seq<Command>)

  datatype Controls = Controls(input: Input, inputSequence: u64, transitions: seq<Transition>, coalesced: nat,
      buttons: Buttons)

  const RELEASED := Controls(IDLE, 0, [], 0, Buttons(false, false, 0, []))

  /** The snapshot is news: not stale, and different from the held input. */
  predicate Accepts(c: Controls, sequence: u64, input: Input) {
    sequence > c.inputSequence && input != c.input
  }

  /** A full journal loses its oldest transition. */
  function Record(c: Controls, sequence: u64, input: Input, reset: bool): Controls {
    if sequence <= c.inputSequence then c
    else if c.input == input then c.(inputSequence := sequence)
    else
      var full := |c.transitions| == MAX_INPUT_TRANSITIONS;
      c.(input := input, inputSequence := sequence,
         transitions := (if full then c.transitions[1..] else c.transitions) + [Transition(sequence, input, reset)],
         coalesced := if full then SaturatingIncrement(c.coalesced) else c.coalesced)
  }

  /** Attack and use released; queued inventory actions stay. */
  function LetGo(c: Controls): Controls {
    c.(buttons := c.buttons.(attack := false, attackChanged := true, usePresses := 0))
  }

  function Attacking(c: Controls, pressed: bool): Controls {
    if c.buttons.attack == pressed then c else c.(buttons := c.buttons.(attack := pressed, attackChanged := true))
  }

  const MAX_USE_PRESSES := 8

  function UsePressed(c: Controls): Controls {
    var presses := c.buttons.usePresses;
    c.(buttons := c.buttons.(usePresses := if presses < MAX_USE_PRESSES then presses + 1 else MAX_USE_PRESSES))
  }

  /** A full queue refuses the action and loses nothing. */
  function Clicked(c: Controls, command: Command): (Controls, bool) {
    if |c.buttons.commands| == MAX_INVENTORY_COMMANDS then (c, false)
    else (c.(buttons := c.buttons.(commands := c.buttons.commands + [command])), true)
  }

  function SaturatingIncrement(n: nat): nat {
    if n < U64_MAX then n + 1 else n
  }

  datatype Sample = Sample(input: Input, transitions: seq<Transition>, coalesced: nat, buttons: Buttons)

  /** The held input and attack button stay; everything that happened since the last sample is handed over. */
  function Sampled(c: Controls): (Controls, Sample) {
    (c.(transitions := [], coalesced := 0, buttons := Buttons(c.buttons.attack, false, 0, [])),
     Sample(c.input, c.transitions, c.coalesced, c.buttons))
  }

  class WorldControls {
    var input: Input
    var inputSequence: u64
    var transitions: seq<Transition>
    var coalesced: nat
    var attack: bool
    var attackChanged: bool
    var usePresses: nat
    var commands: seq<Command>

    function Value(): Controls
      reads this
    {
      Controls(input, inputSequence, transitions, coalesced, Buttons(attack, attackChanged, usePresses, commands))
    }

    constructor ()
      ensures Value() == RELEASED
    {
      input, inputSequence, transitions, coalesced := IDLE, 0, [], 0;
      attack, attackChanged, usePresses, commands := false, false, 0, [];
    }

    method RecordInputTransition(sequence: u64, next: Input, reset: bool)
      modifies this
      ensures Value() == Record(old(Value()), sequence, next, reset)
    {
      if sequence <= inputSequence {
        return;
      }
      inputSequence := sequence;
      if input == next {
        return;
      }
      input := next;
      if |transitions| == MAX_INPUT_TRANSITIONS {
        transitions := transitions[1..];
        coalesced := SaturatingIncrement(coalesced);
      }
      transitions := transitions + [Transition(sequence, next, reset)];
    }

    method SetInput(sequence: u64, next: Input)
      modifies this
      ensures Value() == Record(old(Value()), sequence, next, false)
    {
      RecordInputTransition(sequence, next, false);
    }

    method Release()
      modifies this
      ensures Value() == LetGo(old(Value()))
    {
      attack, attackChanged, usePresses := false, true, 0;
    }

    /** Releases everything; a stale number still releases attack and use. */
    method ResetInput(sequence: u64)
      modifies this
      ensures Value() == LetGo(Record(old(Value()), sequence, IDLE, true))
    {
      RecordInputTransition(sequence, IDLE, true);
      Release();
    }

    /** Releases everything under the next number; at the largest number the input is stale and stays. */
    method Clear()
      modifies this
      ensures var sequence := if old(inputSequence) < U64_MAX then old(inputSequence) + 1 else U64_MAX;
        Value() == LetGo(Record(old(Value()), sequence, IDLE, true))
    {
      var sequence: u64 := if inputSequence < U64_MAX then inputSequence + 1 else U64_MAX;
      RecordInputTransition(sequence, IDLE, true);
      Release();
    }

    method SetAttack(pressed: bool)
      modifies this
      ensures Value() == Attacking(old(Value()), pressed)
    {
      if attack != pressed {
        attack, attackChanged := pressed, true;
      }
    }

    method PressUse()
      modifies this
      ensures Value() == UsePressed(old(Value()))
    {
      usePresses := if usePresses < MAX_USE_PRESSES then usePresses + 1 else MAX_USE_PRESSES;
    }

    method InventoryCommand(command: Command) returns (accepted: bool)
      modifies this
      ensures (Value(), accepted) == Clicked(old(Value()), command)
    {
      if |commands| == MAX_INVENTORY_COMMANDS {
        return false;
      }
      commands := commands + [command];
      return true;
    }

    method Take() returns (sample: Sample)
      modifies this
      ensures (Value(), sample) == Sampled(old(Value()))
    {
      sample := Sample(input, transitions, coalesced, Buttons(attack, attackChanged, usePresses, commands));
      transitions, coalesced := [], 0;
      attackChanged, usePresses, commands := false, 0, [];
    }
  }

  // ---- Packets ----

  datatype Pose = Pose(x: real, y: real, z: real, yaw: real, pitch: real) {
    function At(): Place {
      Place(x, y, z)
    }
  }

  datatype Place = Place(x: real, y: real, z: real)

  /** The squared distance as it is computed, whatever its rounding. */
  type Metric = (Place, Place) -> real

  function Exact(a: Place, b: Place): real {
    (a.x - b.x) * (a.x - b.x) + (a.y - b.y) * (a.y - b.y) + (a.z - b.z) * (a.z - b.z)
  }

  datatype Simulation = Simulation(pose: Pose, onGround: bool, horizontalCollision: bool, sprinting: bool)

  datatype Packet =
    | PlayerInput(input: Input)
    | Abilities(flying: bool)
    | SprintCommand(start: bool)
    | MovePositionRotation(pose: Pose, onGround: bool, horizontalCollision: bool)
    | MovePosition(x: real, y: real, z: real, onGround: bool, horizontalCollision: bool)
    | MoveRotation(yaw: real, pitch: real, onGround: bool, horizontalCollision: bool)
    | MoveStatus(onGround: bool, horizontalCollision: bool)

  datatype Tracker = Tracker(
    squared: Metric, lastPose: Option<Pose>, lastOnGround: bool, lastHorizontalCollision: bool,
    lastInput: Input, sprinting: bool, positionReminder: nat)

  function Fresh(squared: Metric): Tracker {
    Tracker(squared, None, false, false, IDLE, false, 0)
  }

  function Rebased(t: Tracker, pose: Pose): Tracker {
    t.(lastPose := Some(pose), positionReminder := 0)
  }

  /** Input packets for inputs held one after another: one for each change from the last sent. */
  function Changes(last: Input, inputs: seq<Input>): seq<Input>
    decreases |inputs|
  {
    if inputs == [] then []
    else (if inputs[0] != last then [inputs[0]] else []) + Changes(inputs[0], inputs[1..])
  }

  function LastOr<T>(last: T, values: seq<T>): T {
    if values == [] then last else values[|values| - 1]
  }

  function InputsOf(transitions: seq<Transition>): (inputs: seq<Input>)
    ensures |inputs| == |transitions|
  {
    seq(|transitions|, i requires 0 <= i < |transitions| => transitions[i].input)
  }

  function InputPackets(inputs: seq<Input>): (packets: seq<Packet>)
    ensures |packets| == |inputs|
  {
    seq(|inputs|, i requires 0 <= i < |inputs| => PlayerInput(inputs[i]))
  }

  function FlightPackets(changes: seq<bool>): (packets: seq<Packet>)
    ensures |packets| == |changes|
  {
    seq(|changes|, i requires 0 <= i < |changes| => Abilities(changes[i]))
  }

  function SaturatingByte(n: nat): nat {
    if n < 255 then n + 1 else n
  }

  predicate PositionDue(t: Tracker, pose: Pose)
    requires t.lastPose.Some?
  {
    || t.squared(pose.At(), t.lastPose.value.At()) > POSITION_EPSILON_SQUARED
    || SaturatingByte(t.positionReminder) >= FORCED_POSITION_INTERVAL
  }

  predicate RotationDue(t: Tracker, pose: Pose)
    requires t.lastPose.Some?
  {
    pose.yaw != t.lastPose.value.yaw || pose.pitch != t.lastPose.value.pitch
  }

  predicate FlagsDue(t: Tracker, s: Simulation) {
    s.onGround != t.lastOnGround || s.horizontalCollision != t.lastHorizontalCollision
  }

  /** The movement packet of a tick with a baseline: only what changed, never more than one. */
  function MovePackets(t: Tracker, s: Simulation): seq<Packet>
    requires t.lastPose.Some?
  {
    var position, rotation := PositionDue(t, s.pose), RotationDue(t, s.pose);
    if position && rotation then [MovePositionRotation(s.pose, s.onGround, s.horizontalCollision)]
    else if position then [MovePosition(s.pose.x, s.pose.y, s.pose.z, s.onGround, s.horizontalCollision)]
    else if rotation then [MoveRotation(s.pose.yaw, s.pose.pitch, s.onGround, s.horizontalCollision)]
    else if FlagsDue(t, s) then [MoveStatus(s.onGround, s.horizontalCollision)]
    else []
  }

  function Moved(t: Tracker, s: Simulation): Tracker
    requires t.lastPose.Some?
  {
    var last := t.lastPose.value;
    var position, rotation := PositionDue(t, s.pose), RotationDue(t, s.pose);
    var placed := if position then last.(x := s.pose.x, y := s.pose.y, z := s.pose.z) else last;
    t.(lastPose := Some(if rotation then placed.(yaw := s.pose.yaw, pitch := s.pose.pitch) else placed),
       positionReminder := if position then 0 else SaturatingByte(t.positionReminder),
       lastOnGround := s.onGround, lastHorizontalCollision := s.horizontalCollision)
  }

  /** Input changes, flight changes, the sprint command, then movement; without a baseline no movement. */
  function TickPackets(t: Tracker, s: Simulation, transitions: seq<Transition>, input: Input,
      flight: seq<bool>): (Tracker, seq<Packet>) {
    var inputs := InputsOf(transitions) + [input];
    var steady := t.(lastInput := input, sprinting := s.sprinting);
    var head := InputPackets(Changes(t.lastInput, inputs)) + FlightPackets(flight)
      + if s.sprinting != t.sprinting then [SprintCommand(s.sprinting)] else [];
    if t.lastPose.None? then (Rebased(steady, s.pose), head)
    else (Moved(steady, s), head + MovePackets(steady, s))
  }

  lemma {:induction false} ChangesAppend(last: Input, inputs: seq<Input>, next: Input)
    ensures Changes(last, inputs + [next])
         == Changes(last, inputs) + if next != LastOr(last, inputs) then [next] else []
    decreases |inputs|
  {
    if inputs == [] {
      assert [] + [next] == [next] && [next][1..] == [];
      assert Changes(next, []) == [];
    } else {
      var all := inputs + [next];
      assert all[0] == inputs[0] && all[1..] == inputs[1..] + [next];
      ChangesAppend(inputs[0], inputs[1..], next);
      assert LastOr(last, inputs) == LastOr(inputs[0], inputs[1..]);
      Associate(
        if inputs[0] != last then [inputs[0]] else [],
        Changes(inputs[0], inputs[1..]),
        if next != LastOr(last, inputs) then [next] else []);
    }
  }

  class MovementPacketTracker {
    const squared: Metric
    var lastPose: Option<Pose>
    var lastOnGround: bool
    var lastHorizontalCollision: bool
    var lastInput: Input
    var sprinting: bool
    var positionReminder: nat

    function Value(): Tracker
      reads this
    {
      Tracker(squared, lastPose, lastOnGround, lastHorizontalCollision, lastInput, sprinting, positionReminder)
    }

    constructor (squared: Metric)
      ensures Value() == Fresh(squared)
    {
      this.squared := squared;
      lastPose, lastOnGround, lastHorizontalCollision := None, false, false;
      lastInput, sprinting, positionReminder := IDLE, false, 0;
    }

    method Reset(pose: Pose)
      modifies this
      ensures Value() == Rebased(old(Value()), pose)
    {
      lastPose := Some(pose);
      positionReminder := 0;
    }

    method PushInputTransition(result: seq<Packet>, input: Input) returns (packets: seq<Packet>)
      modifies this
      ensures packets == result + if input != old(lastInput) then [PlayerInput(input)] else []
      ensures Value() == old(Value()).(lastInput := input)
    {
      packets := result;
      if input != lastInput {
        packets := packets + [PlayerInput(input)];
        lastInput := input;
      }
    }

    /** The input part of a tick: every recorded input, then the held one. */
    method PushInputs(transitions: seq<Transition>, input: Input) returns (result: seq<Packet>)
      modifies this
      ensures result == InputPackets(Changes(old(lastInput), InputsOf(transitions) + [input]))
      ensures Value() == old(Value()).(lastInput := input)
    {
      result := [];
      ghost var inputs := InputsOf(transitions);
      for i := 0 to |transitions|
        invariant result == InputPackets(Changes(old(lastInput), inputs[..i]))
        invariant Value() == old(Value()).(lastInput := LastOr(old(lastInput), inputs[..i]))
      {
        assert inputs[..i + 1] == inputs[..i] + [transitions[i].input];
        ChangesAppend(old(lastInput), inputs[..i], transitions[i].input);
        result := PushInputTransition(result, transitions[i].input);
      }
      assert inputs[..|transitions|] == inputs;
      ChangesAppend(old(lastInput), inputs, input);
      result := PushInputTransition(result, input);
    }

    /** The movement part of a tick with a baseline. */
    method PushMovement(packets: seq<Packet>, s: Simulation, last: Pose) returns (result: seq<Packet>)
      requires lastPose == Some(last)
      modifies this
      ensures result == packets + MovePackets(old(Value()), s)
      ensures Value() == Moved(old(Value()), s)
    {
      result := packets;
      positionReminder := SaturatingByte(positionReminder);
      var positionChanged := squared(s.pose.At(), last.At()) > POSITION_EPSILON_SQUARED
        || positionReminder >= FORCED_POSITION_INTERVAL;
      var rotationChanged := s.pose.yaw != last.yaw || s.pose.pitch != last.pitch;
      var flagsChanged := s.onGround != lastOnGround || s.horizontalCollision != lastHorizontalCollision;
      if positionChanged && rotationChanged {
        result := result + [MovePositionRotation(s.pose, s.onGround, s.horizontalCollision)];
      } else if positionChanged {
        result := result + [MovePosition(s.pose.x, s.pose.y, s.pose.z, s.onGround, s.horizontalCollision)];
      } else if rotationChanged {
        result := result + [MoveRotation(s.pose.yaw, s.pose.pitch, s.onGround, s.horizontalCollision)];
      } else if flagsChanged {
        result := result + [MoveStatus(s.onGround, s.horizontalCollision)];
      }
      if positionChanged {
        lastPose := Some(last.(x := s.pose.x, y := s.pose.y, z := s.pose.z));
        positionReminder := 0;
      }
      if rotationChanged {
        lastPose := Some(lastPose.value.(yaw := s.pose.yaw, pitch := s.pose.pitch));
      }
      lastOnGround := s.onGround;
      lastHorizontalCollision := s.horizontalCollision;
    }

    method FramesWithFlight(s: Simulation, transitions: seq<Transition>, input: Input, flight: seq<bool>)
        returns (result: seq<Packet>)
      modifies this
      ensures (Value(), result) == TickPackets(old(Value()), s, transitions, input, flight)
    {
      result := PushInputs(transitions, input);
      ghost var sent := result;
      for i := 0 to |flight|
        invariant Value() == old(Value()).(lastInput := input)
        invariant result == sent + FlightPackets(flight)[..i]
      {
        result := result + [Abilities(flight[i])];
      }
      assert result == sent + FlightPackets(flight);
      if s.sprinting != sprinting {
        result := result + [SprintCommand(s.sprinting)];
        sprinting := s.sprinting;
      }
      assert result
        == sent + FlightPackets(flight) + if s.sprinting != old(sprinting) then [SprintCommand(s.sprinting)] else [];
      if lastPose.None? {
        Reset(s.pose);
      } else {
        result := PushMovement(result, s, lastPose.value);
      }
    }
  }
}
