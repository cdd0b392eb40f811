/**
  Replaying movement: what a server that applies the packets of one tick holds after it
  (world_movement.rs).
 */
module MovementReplay {
  import opened Wrappers
  import opened Bytes
  import opened Movement

  /** What the server has been told, every input and flight change included, and how long ago it heard a position. */
  datatype Receiver = Receiver(
    input: Input, flying: bool, sprinting: bool, pose: Pose, onGround: bool, horizontalCollision: bool,
    inputs: seq<Input>, flights: seq<bool>, quietTicks: nat)

  function Hear(r: Receiver, p: Packet): Receiver {
    match p
    case PlayerInput(input) => r.(input := input, inputs := r.inputs + [input])
    case Abilities(flying) => r.(flying := flying, flights := r.flights + [flying])
    case SprintCommand(start) => r.(sprinting := start)
    case MovePositionRotation(pose, g, h) => r.(pose := pose, onGround := g, horizontalCollision := h, quietTicks := 0)
    case MovePosition(x, y, z, g, h) => r.(pose := r.pose.(x := x, y := y, z := z), onGround := g,
      horizontalCollision := h, quietTicks := 0)
    case MoveRotation(yaw, pitch, g, h) => r.(pose := r.pose.(yaw := yaw, pitch := pitch), onGround := g,
      horizontalCollision := h)
    case MoveStatus(g, h) => r.(onGround := g, horizontalCollision := h)
  }

  function HearAll(r: Receiver, packets: seq<Packet>): Receiver
    decreases |packets|
  {
    if packets == [] then r else HearAll(Hear(r, packets[0]), packets[1..])
  }

  lemma {:induction false} HearMore(r: Receiver, a: seq<Packet>, b: seq<Packet>)
    ensures HearAll(r, a + b) == HearAll(HearAll(r, a), b)
    decreases |a|
  {
    if a == [] {
      assert a + b == b;
    } else {
      assert (a + b)[1..] == a[1..] + b;
      HearMore(Hear(r, a[0]), a[1..], b);
    }
  }

  // ---- One tick ----

  lemma {:induction false} HearInputs(r: Receiver, inputs: seq<Input>)
    ensures HearAll(r, InputPackets(inputs)) == r.(input := LastOr(r.input, inputs), inputs := r.inputs + inputs)
    decreases |inputs|
  {
    if inputs == [] {
      assert r.inputs + inputs == r.inputs;
    } else {
      assert InputPackets(inputs)[1..] == InputPackets(inputs[1..]);
      HearInputs(Hear(r, PlayerInput(inputs[0])), inputs[1..]);
      assert r.inputs + [inputs[0]] + inputs[1..] == r.inputs + inputs;
    }
  }

  lemma {:induction false} HearFlight(r: Receiver, changes: seq<bool>)
    ensures HearAll(r, FlightPackets(changes))
         == r.(flying := LastOr(r.flying, changes), flights := r.flights + changes)
    decreases |changes|
  {
    if changes == [] {
      assert r.flights + changes == r.flights;
    } else {
      assert FlightPackets(changes)[1..] == FlightPackets(changes[1..]);
      HearFlight(Hear(r, Abilities(changes[0])), changes[1..]);
      assert r.flights + [changes[0]] + changes[1..] == r.flights + changes;
    }
  }

  lemma {:induction false} ChangesEnd(last: Input, inputs: seq<Input>)
    ensures LastOr(last, Changes(last, inputs)) == LastOr(last, inputs)
    ensures Steps(last, Changes(last, inputs))
    decreases |inputs|
  {
    if inputs != [] {
      ChangesEnd(inputs[0], inputs[1..]);
      var later := Changes(inputs[0], inputs[1..]);
      if inputs[0] != last {
        assert ([inputs[0]] + later)[1..] == later;
      } else {
        assert Changes(last, inputs) == [] + later == later;
      }
    }
  }

  /** Each input differs from the one before it. */
  predicate Steps(last: Input, inputs: seq<Input>)
    decreases |inputs|
  {
    inputs == [] || (inputs[0] != last && Steps(inputs[0], inputs[1..]))
  }

  lemma {:induction false} ChangesConcat(last: Input, a: seq<Input>, b: seq<Input>)
    ensures Changes(last, a + b) == Changes(last, a) + Changes(LastOr(last, a), b)
    decreases |a|
  {
    if a == [] {
      assert a + b == b && [] + Changes(last, b) == Changes(last, b);
    } else {
      assert (a + b)[0] == a[0] && (a + b)[1..] == a[1..] + b;
      ChangesConcat(a[0], a[1..], b);
      assert LastOr(last, a) == LastOr(a[0], a[1..]);
      Associate(if a[0] != last then [a[0]] else [], Changes(a[0], a[1..]), Changes(LastOr(last, a), b));
    }
  }

  /** No two neighbours are equal. */
  predicate Chain(inputs: seq<Input>) {
    forall i :: 0 < i < |inputs| ==> inputs[i] != inputs[i - 1]
  }

  /** In a chain only the first input can be no change. */
  lemma {:induction false} ChangesOfChain(last: Input, inputs: seq<Input>)
    requires Chain(inputs)
    ensures Changes(last, inputs) == if inputs != [] && inputs[0] == last then inputs[1..] else inputs
    decreases |inputs|
  {
    if inputs != [] {
      assert Chain(inputs[1..]) && (|inputs| > 1 ==> inputs[1..][0] == inputs[1]);
      ChangesOfChain(inputs[0], inputs[1..]);
      assert [] + inputs[1..] == inputs[1..] && [inputs[0]] + inputs[1..] == inputs;
    }
  }

  lemma {:induction false} StepsAppend(last: Input, a: seq<Input>, b: seq<Input>)
    ensures Steps(last, a + b) <==> Steps(last, a) && Steps(LastOr(last, a), b)
    decreases |a|
  {
    if a == [] {
      assert a + b == b;
    } else {
      assert (a + b)[1..] == a[1..] + b;
      StepsAppend(a[0], a[1..], b);
      assert LastOr(last, a) == LastOr(a[0], a[1..]);
    }
  }

  /**
    The server holds what the tracker believes it holds, place and time aside: a rotation by the
    server makes the tracker believe it knows the place.
   */
  predicate InStep(t: Tracker, r: Receiver) {
    && r.input == t.lastInput
    && r.sprinting == t.sprinting
    && t.lastPose.Some? && t.lastPose.value.yaw == r.pose.yaw && t.lastPose.value.pitch == r.pose.pitch
    && r.onGround == t.lastOnGround
    && r.horizontalCollision == t.lastHorizontalCollision
    && t.positionReminder < FORCED_POSITION_INTERVAL
  }

  /** The place from which the tracker measures is the place the server last heard. */
  predicate Aligned(t: Tracker, r: Receiver) {
    t.lastPose.Some? && t.lastPose.value.At() == r.pose.At()
  }

  function AfterTick(t: Tracker, r: Receiver, s: Simulation, sample: Sample, flight: seq<bool>): (Tracker, Receiver) {
    var (tracker, packets) := TickPackets(t, s, sample.transitions, sample.input, flight);
    (tracker, HearAll(r.(quietTicks := r.quietTicks + 1), packets))
  }

  /** The same place, or one the program finds within the epsilon. */
  predicate Near(squared: Metric, a: Place, b: Place) {
    a == b || squared(a, b) <= POSITION_EPSILON_SQUARED
  }

  /** A pose after the movement packet of a tick: the rotation and, when due, the place. */
  function Renewed(t: Tracker, was: Pose, s: Simulation): Pose
    requires t.lastPose.Some?
  {
    if PositionDue(t, s.pose) then s.pose else was.(yaw := s.pose.yaw, pitch := s.pose.pitch)
  }

  /** The one movement packet of a tick, of whichever family, renews the server's pose as it renews the tracker's. */
  lemma HearPacket(t: Tracker, r: Receiver, s: Simulation)
    requires t.lastPose.Some? && t.lastPose.value.yaw == r.pose.yaw && t.lastPose.value.pitch == r.pose.pitch
    requires r.onGround == t.lastOnGround && r.horizontalCollision == t.lastHorizontalCollision
    requires t.positionReminder < FORCED_POSITION_INTERVAL
    ensures Moved(t, s).lastPose == Some(Renewed(t, t.lastPose.value, s))
    ensures Moved(t, s).positionReminder == if PositionDue(t, s.pose) then 0 else t.positionReminder + 1
    ensures Moved(t, s).positionReminder < FORCED_POSITION_INTERVAL
    ensures HearAll(r, MovePackets(t, s))
         == r.(pose := Renewed(t, r.pose, s), onGround := s.onGround, horizontalCollision := s.horizontalCollision,
               quietTicks := if PositionDue(t, s.pose) then 0 else r.quietTicks)
  {
    var packets := MovePackets(t, s);
    if packets != [] {
      assert packets[1..] == [];
      assert HearAll(r, packets) == HearAll(Hear(r, packets[0]), []) == Hear(r, packets[0]);
    }
  }

  /** The packets of a tick before its movement packet. */
  function Head(changes: seq<Input>, flight: seq<bool>, was: bool, sprinting: bool): seq<Packet> {
    InputPackets(changes) + FlightPackets(flight) + if sprinting != was then [SprintCommand(sprinting)] else []
  }

  lemma HearHead(r: Receiver, changes: seq<Input>, flight: seq<bool>, sprinting: bool)
    ensures HearAll(r, Head(changes, flight, r.sprinting, sprinting))
         == r.(input := LastOr(r.input, changes), inputs := r.inputs + changes,
               flying := LastOr(r.flying, flight), flights := r.flights + flight, sprinting := sprinting)
  {
    var sprint := if sprinting != r.sprinting then [SprintCommand(sprinting)] else [];
    HearInputs(r, changes);
    HearMore(r, InputPackets(changes), FlightPackets(flight));
    HearFlight(HearAll(r, InputPackets(changes)), flight);
    HearMore(r, InputPackets(changes) + FlightPackets(flight), sprint);
    if sprint != [] { assert sprint[1..] == []; }
  }

  /** The server between the head of a tick and its movement packet. */
  function AfterHead(r: Receiver, s: Simulation, sample: Sample, changes: seq<Input>, flight: seq<bool>): Receiver {
    r.(input := sample.input, inputs := r.inputs + changes, flying := LastOr(r.flying, flight),
       flights := r.flights + flight, sprinting := s.sprinting, quietTicks := r.quietTicks + 1)
  }

  lemma TickHeard(t: Tracker, r: Receiver, s: Simulation, sample: Sample, flight: seq<bool>)
    requires InStep(t, r)
    ensures var changes := Changes(t.lastInput, InputsOf(sample.transitions) + [sample.input]);
      var steady := t.(lastInput := sample.input, sprinting := s.sprinting);
      AfterTick(t, r, s, sample, flight)
        == (Moved(steady, s), HearAll(AfterHead(r, s, sample, changes, flight), MovePackets(steady, s)))
  {
    var inputs := InputsOf(sample.transitions) + [sample.input];
    var changes := Changes(t.lastInput, inputs);
    var steady := t.(lastInput := sample.input, sprinting := s.sprinting);
    var before := r.(quietTicks := r.quietTicks + 1);
    ChangesEnd(t.lastInput, inputs);
    HearHead(before, changes, flight, s.sprinting);
    HearMore(before, Head(changes, flight, t.sprinting, s.sprinting), MovePackets(steady, s));
  }

  /**
    After a tick with a baseline the receiver has the exact rotation, collision flags, sprint state
    and held input, has heard the flight changes in order and holds the last; its pose and the
    tracker's are renewed alike, and either a position was sent or the program found the place within
    the epsilon of its own baseline.
   */
  lemma TickReplays(t: Tracker, r: Receiver, s: Simulation, sample: Sample, flight: seq<bool>)
    requires InStep(t, r)
    ensures var (tracker, after) := AfterTick(t, r, s, sample, flight);
      && InStep(tracker, after)
      && after.input == sample.input && after.sprinting == s.sprinting
      && after.pose.yaw == s.pose.yaw && after.pose.pitch == s.pose.pitch
      && after.onGround == s.onGround && after.horizontalCollision == s.horizontalCollision
      && after.inputs == r.inputs + Changes(r.input, InputsOf(sample.transitions) + [sample.input])
      && after.flights == r.flights + flight && after.flying == LastOr(r.flying, flight)
      && tracker.squared == t.squared
      && tracker.lastPose == Some(Renewed(t, t.lastPose.value, s)) && after.pose == Renewed(t, r.pose, s)
      && tracker.positionReminder == (if PositionDue(t, s.pose) then 0 else t.positionReminder + 1)
      && after.quietTicks == (if PositionDue(t, s.pose) then 0 else r.quietTicks + 1)
  {
    var changes := Changes(t.lastInput, InputsOf(sample.transitions) + [sample.input]);
    TickHeard(t, r, s, sample, flight);
    HearPacket(t.(lastInput := sample.input, sprinting := s.sprinting), AfterHead(r, s, sample, changes, flight), s);
  }

  /** A first tick announces input, flight and sprint, no movement; the simulated pose becomes the baseline. */
  lemma FirstTickReplays(t: Tracker, r: Receiver, s: Simulation, sample: Sample, flight: seq<bool>)
    requires t.lastPose.None? && r.input == t.lastInput && r.sprinting == t.sprinting
    ensures var changes := Changes(t.lastInput, InputsOf(sample.transitions) + [sample.input]);
      AfterTick(t, r, s, sample, flight)
        == (t.(lastInput := sample.input, sprinting := s.sprinting, lastPose := Some(s.pose), positionReminder := 0),
            AfterHead(r, s, sample, changes, flight))
  {
    var inputs := InputsOf(sample.transitions) + [sample.input];
    ChangesEnd(t.lastInput, inputs);
    HearHead(r.(quietTicks := r.quietTicks + 1), Changes(t.lastInput, inputs), flight, s.sprinting);
  }

  /** Where a packet stands in its tick. */
  function Rank(p: Packet): nat {
    match p
    case PlayerInput(_) => 0
    case Abilities(_) => 1
    case SprintCommand(_) => 2
    case _ => 3
  }

  /** Inputs, then flight changes, then at most one sprint command, then at most one movement packet. */
  predicate InOrder(packets: seq<Packet>) {
    forall i, j :: 0 <= i < j < |packets| ==>
      Rank(packets[i]) <= Rank(packets[j]) && (Rank(packets[j]) >= 2 ==> Rank(packets[i]) < Rank(packets[j]))
  }

  predicate TellsPlace(p: Packet) {
    p.MovePosition? || p.MovePositionRotation?
  }

  predicate TellsRotation(p: Packet) {
    p.MoveRotation? || p.MovePositionRotation?
  }

  /** A place far from the baseline, or due; a changed rotation; and, of neither, changed flags. */
  predicate TellsMovement(t: Tracker, s: Simulation, move: seq<Packet>)
    requires t.lastPose.Some?
  {
    var base := t.lastPose.value;
    var far := t.squared(s.pose.At(), base.At()) > 0.00000004 || t.positionReminder >= 19;
    var turned := s.pose.yaw != base.yaw || s.pose.pitch != base.pitch;
    var flags := s.onGround != t.lastOnGround || s.horizontalCollision != t.lastHorizontalCollision;
    && |move| == (if far || turned || flags then 1 else 0)
    && (move != [] ==>
          && Rank(move[0]) == 3
          && (TellsPlace(move[0]) <==> far)
          && (TellsRotation(move[0]) <==> turned))
  }

  lemma MoveTells(t: Tracker, s: Simulation)
    requires t.lastPose.Some?
    ensures TellsMovement(t, s, MovePackets(t, s))
  {
  }

  lemma InOrderAppend(a: seq<Packet>, b: seq<Packet>, rank: nat)
    requires InOrder(a) && forall i :: 0 <= i < |a| ==> Rank(a[i]) < rank
    requires (forall i :: 0 <= i < |b| ==> Rank(b[i]) == rank) && (rank >= 2 ==> |b| <= 1)
    ensures InOrder(a + b) && forall i :: 0 <= i < |a + b| ==> Rank((a + b)[i]) < rank + 1
  {
  }

  lemma HeadTells(changes: seq<Input>, flight: seq<bool>, was: bool, sprinting: bool)
    ensures var head := Head(changes, flight, was, sprinting);
      && InOrder(head) && (forall i :: 0 <= i < |head| ==> Rank(head[i]) < 3)
      && (SprintCommand(sprinting) in head <==> sprinting != was) && SprintCommand(!sprinting) !in head
  {
    var inputs, flights := InputPackets(changes), FlightPackets(flight);
    var sprint := if sprinting != was then [SprintCommand(sprinting)] else [];
    InOrderAppend([], inputs, 0);
    assert [] + inputs == inputs;
    InOrderAppend(inputs, flights, 1);
    InOrderAppend(inputs + flights, sprint, 2);
    SprintTold(inputs + flights, sprint, sprinting);
  }

  lemma SprintTold(before: seq<Packet>, sprint: seq<Packet>, start: bool)
    requires forall i :: 0 <= i < |before| ==> Rank(before[i]) < 2
    requires sprint == [] || sprint == [SprintCommand(start)]
    ensures SprintCommand(start) in before + sprint <==> sprint != []
    ensures SprintCommand(!start) !in before + sprint
  {
  }

  /**
    The packets of a tick, in their order, and nothing that need not be told: a sprint command exactly
    on a change; a place exactly when it is farther from the baseline than the epsilon or the
    twentieth tick has come; a rotation exactly when it changed; the flags alone exactly when only
    those changed; and no movement before there is a baseline.
   */
  predicate TellsTick(t: Tracker, s: Simulation, packets: seq<Packet>) {
    var moves := if packets != [] && Rank(packets[|packets| - 1]) == 3 then 1 else 0;
    && InOrder(packets)
    && (forall k :: 0 <= k < |packets| - moves ==> Rank(packets[k]) < 3)
    && (if t.lastPose.None? then moves == 0 else TellsMovement(t, s, packets[|packets| - moves..]))
    && (SprintCommand(s.sprinting) in packets <==> s.sprinting != t.sprinting)
    && SprintCommand(!s.sprinting) !in packets
  }

  /** The packets before the movement packet, in order and with the sprint command exactly on a change. */
  predicate TellsHead(t: Tracker, s: Simulation, head: seq<Packet>) {
    && InOrder(head) && (forall i :: 0 <= i < |head| ==> Rank(head[i]) < 3)
    && (SprintCommand(s.sprinting) in head <==> s.sprinting != t.sprinting)
    && SprintCommand(!s.sprinting) !in head
  }

  lemma HeadAlone(t: Tracker, s: Simulation, head: seq<Packet>)
    requires TellsHead(t, s, head) && (t.lastPose.Some? ==> TellsMovement(t, s, []))
    ensures TellsTick(t, s, head)
  {
    assert head[|head|..] == [];
  }

  lemma HeadAndMove(t: Tracker, s: Simulation, head: seq<Packet>, move: Packet)
    requires TellsHead(t, s, head) && t.lastPose.Some? && TellsMovement(t, s, [move])
    ensures TellsTick(t, s, head + [move])
  {
    var packets := head + [move];
    InOrderAppend(head, [move], 3);
    assert packets[|packets| - 1] == move && packets[|packets| - 1..] == [move];
    forall start | SprintCommand(start) in packets ensures SprintCommand(start) in head {
      assert move != SprintCommand(start);
    }
    forall p | p in head ensures p in packets { }
  }

  lemma TickTells(t: Tracker, s: Simulation, transitions: seq<Transition>, input: Input, flight: seq<bool>)
    ensures TellsTick(t, s, TickPackets(t, s, transitions, input, flight).1)
  {
    var changes := Changes(t.lastInput, InputsOf(transitions) + [input]);
    var steady := t.(lastInput := input, sprinting := s.sprinting);
    var head := Head(changes, flight, t.sprinting, s.sprinting);
    HeadTells(changes, flight, t.sprinting, s.sprinting);
    if t.lastPose.None? {
      HeadAlone(t, s, head);
    } else {
      var move := MovePackets(steady, s);
      MoveTells(steady, s);
      assert TellsMovement(t, s, move);
      if move == [] {
        assert head + move == head;
        HeadAlone(t, s, head);
      } else {
        assert move == [move[0]];
        HeadAndMove(t, s, head, move[0]);
      }
    }
  }

  /** From an aligned place a tick leads to an aligned place that the program itself finds near. */
  lemma AlignedTick(t: Tracker, r: Receiver, s: Simulation, sample: Sample, flight: seq<bool>)
    requires InStep(t, r) && Aligned(t, r)
    ensures var (tracker, after) := AfterTick(t, r, s, sample, flight);
      Aligned(tracker, after) && Near(t.squared, s.pose.At(), after.pose.At())
  {
    TickReplays(t, r, s, sample, flight);
  }

  /** The far side of the baseline, seen from the place `heard`, at exactly the epsilon. */
  function Beyond(base: Pose, heard: Place): Pose {
    if base.x > heard.x then base.(x := base.x + 0.0002)
    else if base.x < heard.x then base.(x := base.x - 0.0002)
    else if base.y > heard.y then base.(y := base.y + 0.0002)
    else if base.y < heard.y then base.(y := base.y - 0.0002)
    else if base.z > heard.z then base.(z := base.z + 0.0002)
    else base.(z := base.z - 0.0002)
  }

  lemma BeyondIsFar(base: Pose, heard: Place)
    requires base.At() != heard
    ensures Exact(Beyond(base, heard).At(), base.At()) <= POSITION_EPSILON_SQUARED
    ensures Exact(Beyond(base, heard).At(), heard) > POSITION_EPSILON_SQUARED
  {
    var far := Beyond(base, heard).At();
    var dx, dy, dz := far.x - heard.x, far.y - heard.y, far.z - heard.z;
    var xx, yy, zz := dx * dx, dy * dy, dz * dz;
    assert Exact(far, heard) == xx + yy + zz;
    NotNegative(dx);
    NotNegative(dy);
    NotNegative(dz);
    if base.x != heard.x {
      Larger(dx);
    } else if base.y != heard.y {
      Larger(dy);
    } else {
      Larger(dz);
    }
  }

  lemma NotNegative(d: real)
    ensures d * d >= 0.0
  {
  }

  lemma Larger(d: real)
    requires d > 0.0002 || d < -0.0002
    ensures d * d > POSITION_EPSILON_SQUARED
  {
    var m := if d > 0.0 then d else -d;
    assert m * m > 0.0002 * m;
    assert d * d == m * m;
  }

  /**
    With exact arithmetic every tick that can follow is near if and only if the places are aligned
    or the reminder is about to send the position anyway.
   */
  lemma NearExactlyWhenAligned(t: Tracker, r: Receiver, sample: Sample, flight: seq<bool>)
    requires InStep(t, r) && t.squared == Exact
    ensures (forall s: Simulation :: Near(Exact, s.pose.At(), AfterTick(t, r, s, sample, flight).1.pose.At()))
       <==> Aligned(t, r) || t.positionReminder == FORCED_POSITION_INTERVAL - 1
  {
    if Aligned(t, r) || t.positionReminder == FORCED_POSITION_INTERVAL - 1 {
      forall s: Simulation ensures Near(Exact, s.pose.At(), AfterTick(t, r, s, sample, flight).1.pose.At()) {
        TickReplays(t, r, s, sample, flight);
      }
    } else {
      var s := Simulation(Beyond(t.lastPose.value, r.pose.At()), false, false, false);
      BeyondIsFar(t.lastPose.value, r.pose.At());
      TickReplays(t, r, s, sample, flight);
      assert AfterTick(t, r, s, sample, flight).1.pose.At() == r.pose.At();
      assert !Near(Exact, s.pose.At(), AfterTick(t, r, s, sample, flight).1.pose.At());
    }
  }
}
