/**
  Runs of the movement controller against a server that applies its packets: inputs, clicks, ticks,
  teleports, rotations, rollbacks and resets (world_movement.rs).
 */
module MovementRuns {
  import opened Wrappers
  import opened Bytes
  import opened Movement
  import opened MovementReplay

  // ---- Events ----

  /** A component of a teleport: absolute, or relative to where each side believes the player is. */
  datatype Change = To(value: real) | By(delta: real) {
    function From(base: real): real {
      match this case To(value) => value case By(delta) => base + delta
    }
  }

  datatype Jump = Jump(x: Change, y: Change, z: Change, yaw: Change, pitch: Change) {
    function From(p: Pose): Pose {
      Pose(x.From(p.x), y.From(p.y), z.From(p.z), yaw.From(p.yaw), pitch.From(p.pitch))
    }

    predicate Absolute() {
      x.To? && y.To? && z.To?
    }
  }

  /** A turn carries the rotation it results in; a tick carries what the simulation came to. */
  datatype Event =
    | SetInput(sequence: u64, input: Input, reset: bool)
    | Click(command: Command)
    | DoTick(s: Simulation, flight: seq<bool>)
    | Teleport(jump: Jump)
    | Turn(yaw: real, pitch: real)
    | Rollback(place: Place)
    | Renew(pose: Pose)

  /**
    The controls, the simulated pose while there is a simulation, the tracker and the server, with a
    record of the inputs since the last reset: the one held then, those accepted since, and those the
    ticks owe the server. The record is complete unless a transition was coalesced away. Inventory
    actions are recorded as they are accepted, as a tick hands them on, and as a tick drops them; flight
    changes since the reset as the ticks that send are given them.
   */
  datatype System = System(
    controls: Controls, local: Option<Pose>, tracker: Tracker, server: Receiver,
    held: Input, accepted: seq<Input>, owed: seq<Input>, complete: bool,
    clicked: seq<Command>, serviced: seq<Command>, dropped: seq<Command>, flown: seq<bool>)

  /** A tick without a simulation drops its sample: afterwards the ticks owe at most what is held. */
  function TickUnsent(y: System): System {
    var (controls, sample) := Sampled(y.controls);
    y.(controls := controls, owed := [], complete := true, dropped := y.dropped + sample.buttons.commands)
  }

  function TickSent(y: System, s: Simulation, flight: seq<bool>): System {
    var (controls, sample) := Sampled(y.controls);
    var (tracker, server) := AfterTick(y.tracker, y.server, s, sample, flight);
    y.(controls := controls, local := Some(s.pose), tracker := tracker, server := server,
       owed := if y.owed == [] then [sample.input] else y.owed,
       serviced := y.serviced + sample.buttons.commands, flown := y.flown + flight)
  }

  function Accept(y: System, sequence: u64, input: Input, reset: bool): System {
    var accepts := Accepts(y.controls, sequence, input);
    var recorded := Record(y.controls, sequence, input, reset);
    y.(controls := if reset then LetGo(recorded) else recorded,
       accepted := if accepts then y.accepted + [input] else y.accepted,
       owed := if accepts then y.owed + [input] else y.owed,
       complete := y.complete && !(accepts && |y.controls.transitions| == MAX_INPUT_TRANSITIONS))
  }

  /**
    A teleport moves both sides, the client from its simulated pose; without a simulation it creates
    one, and a relative place then ends the session. A turn rotates both sides and makes the
    simulated place the baseline. A reset forgets simulation and tracker and leaves the controls.
   */
  function Step(y: System, e: Event): System {
    match e
    case SetInput(sequence, input, reset) => Accept(y, sequence, input, reset)
    case Click(command) =>
      var (controls, accepts) := Clicked(y.controls, command);
      y.(controls := controls, clicked := if accepts then y.clicked + [command] else y.clicked)
    case DoTick(s, flight) => if y.local.None? then TickUnsent(y) else TickSent(y, s, flight)
    case Teleport(jump) =>
      if y.local.None? && !jump.Absolute() then y
      else
        var pose := jump.From(if y.local.Some? then y.local.value else y.server.pose);
        y.(local := Some(pose), tracker := Rebased(y.tracker, pose),
           server := y.server.(pose := jump.From(y.server.pose), quietTicks := 0))
    case Turn(yaw, pitch) =>
      var turned := y.(server := y.server.(pose := y.server.pose.(yaw := yaw, pitch := pitch)));
      if y.local.None? then turned
      else
        var pose := y.local.value.(yaw := yaw, pitch := pitch);
        turned.(local := Some(pose), tracker := Rebased(y.tracker, pose))
    case Rollback(place) =>
      if y.local.None? then y else y.(local := Some(y.local.value.(x := place.x, y := place.y, z := place.z)))
    case Renew(pose) =>
      y.(local := None, tracker := Fresh(y.tracker.squared), server := Unheard(pose),
         held := y.controls.input, accepted := [], owed := InputsOf(y.controls.transitions), complete := true,
         flown := [])
  }

  function Unheard(pose: Pose): Receiver {
    Receiver(IDLE, false, false, pose, false, false, [], [], 0)
  }

  function Run(y: System, events: seq<Event>): System
    decreases |events|
  {
    if events == [] then y else Run(Step(y, events[0]), events[1..])
  }

  function Start(squared: Metric, pose: Pose): System {
    System(RELEASED, None, Fresh(squared), Unheard(pose), IDLE, [], [], true, [], [], [], [])
  }

  lemma {:induction false} RunMore(y: System, a: seq<Event>, b: seq<Event>)
    ensures Run(y, a + b) == Run(Run(y, a), b)
    decreases |a|
  {
    if a == [] {
      assert a + b == b;
    } else {
      assert (a + b)[0] == a[0] && (a + b)[1..] == a[1..] + b;
      RunMore(Step(y, a[0]), a[1..], b);
    }
  }

  lemma RunPrefixes(y: System, events: seq<Event>)
    requires events != []
    ensures Run(y, events[..0]) == y
    ensures forall k :: 0 < k <= |events| ==>
      Run(y, events[..k]) == Run(Step(y, events[0]), events[1..][..k - 1])
  {
    forall k | 0 < k <= |events| ensures Run(y, events[..k]) == Run(Step(y, events[0]), events[1..][..k - 1]) {
      assert events[..k][1..] == events[1..][..k - 1];
    }
  }

  // ---- What always holds ----

  /** Input, sprint state, flags and rotation: known to both sides, place and time aside. */
  ghost predicate Known(y: System) {
    match y.local
    case None => y.tracker == Fresh(y.tracker.squared) && y.server == Unheard(y.server.pose)
    case Some(pose) => InStep(y.tracker, y.server) && pose.yaw == y.server.pose.yaw && pose.pitch == y.server.pose.pitch
  }

  /** The journal holds changes, the last of them the held input. */
  predicate JournalOk(c: Controls) {
    && |c.transitions| <= MAX_INPUT_TRANSITIONS
    && Chain(InputsOf(c.transitions))
    && LastOr(c.input, InputsOf(c.transitions)) == c.input
  }

  /** What is owed is what was sent, as changes, and then the journal. */
  predicate Accounted(y: System) {
    var waiting := |y.controls.transitions|;
    && waiting <= |y.owed|
    && y.owed[|y.owed| - waiting..] == InputsOf(y.controls.transitions)
    && y.server.inputs == Changes(IDLE, y.owed[..|y.owed| - waiting])
    && Chain(y.owed)
    && LastOr(y.controls.input, y.owed) == y.controls.input
  }

  ghost predicate Faithful(y: System) {
    && Known(y)
    && JournalOk(y.controls)
    && y.controls.input == LastOr(y.held, y.accepted)
    && Steps(IDLE, y.server.inputs) && y.server.input == LastOr(IDLE, y.server.inputs)
    && (y.complete ==> Accounted(y))
  }

  lemma ChainAppend(inputs: seq<Input>, held: Input, next: Input)
    requires Chain(inputs) && LastOr(held, inputs) == held && next != held
    ensures Chain(inputs + [next])
  {
  }

  lemma RecordKeeps(c: Controls, sequence: u64, input: Input, reset: bool)
    requires JournalOk(c) && Accepts(c, sequence, input)
    ensures var next, journal := Record(c, sequence, input, reset), InputsOf(c.transitions);
      && InputsOf(next.transitions) == (if |journal| == MAX_INPUT_TRANSITIONS then journal[1..] else journal) + [input]
      && JournalOk(next) && next.input == input
  {
    var journal := InputsOf(c.transitions);
    var kept := if |journal| == MAX_INPUT_TRANSITIONS then journal[1..] else journal;
    ChainAppend(kept, c.input, input);
    assert InputsOf(Record(c, sequence, input, reset).transitions) == kept + [input];
  }

  lemma AccountMore(y: System, next: System, input: Input)
    requires Accounted(y) && next.server == y.server && next.owed == y.owed + [input]
    requires next.controls.input == input != y.controls.input
    requires InputsOf(next.controls.transitions) == InputsOf(y.controls.transitions) + [input]
    ensures Accounted(next)
  {
    var done := |y.owed| - |y.controls.transitions|;
    ChainAppend(y.owed, y.controls.input, input);
    assert next.owed[done..] == y.owed[done..] + [input] && next.owed[..done] == y.owed[..done];
  }

  lemma AcceptKeeps(y: System, sequence: u64, input: Input, reset: bool)
    requires Faithful(y)
    ensures Faithful(Accept(y, sequence, input, reset))
  {
    var next := Accept(y, sequence, input, reset);
    assert Known(next);
    if Accepts(y.controls, sequence, input) {
      RecordKeeps(y.controls, sequence, input, reset);
      NewestAccepted(y, input);
      if next.complete { AccountMore(y, next, input); }
    } else {
      SameRecordKeeps(y, next);
    }
  }

  lemma NewestAccepted(y: System, input: Input)
    ensures LastOr(y.held, y.accepted + [input]) == input
  {
  }

  lemma UnsentKeeps(y: System)
    requires Faithful(y) && y.local.None?
    ensures Faithful(TickUnsent(y))
  {
    assert InputsOf([]) == [];
  }

  /** Sending the journal and the held input after the changes of `done` sends the changes of everything owed. */
  lemma PaysOwed(owed: seq<Input>, done: seq<Input>, journal: seq<Input>, input: Input)
    requires owed == done + journal && LastOr(input, owed) == input
    ensures Changes(IDLE, done) + Changes(LastOr(IDLE, Changes(IDLE, done)), journal + [input])
         == Changes(IDLE, if owed == [] then [input] else owed)
  {
    ChangesEnd(IDLE, done);
    ChangesConcat(IDLE, done, journal + [input]);
    assert done + (journal + [input]) == owed + [input];
    if owed == [] {
      assert owed + [input] == [input];
    } else {
      ChangesAppend(IDLE, owed, input);
      assert Changes(IDLE, owed) + [] == Changes(IDLE, owed);
    }
  }

  /** A complete record: with this tick the server has been sent exactly the changes owed. */
  lemma TickPays(y: System, s: Simulation, flight: seq<bool>)
    requires Faithful(y) && y.local.Some? && y.complete
    ensures var end := TickSent(y, s, flight); end.server.inputs == Changes(IDLE, end.owed)
  {
    var journal := InputsOf(y.controls.transitions);
    TickReplays(y.tracker, y.server, s, Sampled(y.controls).1, flight);
    PaysOwed(y.owed, y.owed[..|y.owed| - |journal|], journal, y.controls.input);
  }

  lemma SentTells(y: System, s: Simulation, flight: seq<bool>)
    requires Faithful(y) && y.local.Some?
    ensures var end := TickSent(y, s, flight);
      && Known(end) && end.tracker.squared == y.tracker.squared
      && Steps(IDLE, end.server.inputs)
      && end.server.input == LastOr(IDLE, end.server.inputs) == y.controls.input
  {
    var inputs := InputsOf(y.controls.transitions) + [y.controls.input];
    var changes := Changes(y.server.input, inputs);
    TickReplays(y.tracker, y.server, s, Sampled(y.controls).1, flight);
    ChangesEnd(y.server.input, inputs);
    StepsAppend(IDLE, y.server.inputs, changes);
  }

  lemma AllPaid(end: System)
    requires end.controls.transitions == [] && end.server.inputs == Changes(IDLE, end.owed)
    requires Chain(end.owed) && LastOr(end.controls.input, end.owed) == end.controls.input
    ensures Accounted(end)
  {
    assert InputsOf([]) == [];
    assert end.owed[..|end.owed|] == end.owed && end.owed[|end.owed|..] == [];
  }

  lemma SentKeeps(y: System, s: Simulation, flight: seq<bool>)
    requires Faithful(y) && y.local.Some?
    ensures Faithful(TickSent(y, s, flight)) && TickSent(y, s, flight).tracker.squared == y.tracker.squared
    ensures TickSent(y, s, flight).server.input == y.controls.input
  {
    SentTells(y, s, flight);
    assert InputsOf([]) == [];
    if y.complete {
      TickPays(y, s, flight);
      AllPaid(TickSent(y, s, flight));
    }
  }

  lemma RenewKeeps(y: System, pose: Pose)
    requires Faithful(y)
    ensures Faithful(Step(y, Renew(pose)))
  {
    var next := Step(y, Renew(pose));
    assert next.owed[..0] == [] && next.owed[0..] == next.owed;
  }

  /** Neither the journal nor the record nor what was sent has changed. */
  predicate SameRecord(y: System, next: System) {
    && next.controls.input == y.controls.input && next.controls.transitions == y.controls.transitions
    && next.held == y.held && next.accepted == y.accepted && next.owed == y.owed && next.complete == y.complete
    && next.server.inputs == y.server.inputs && next.server.input == y.server.input
  }

  lemma SameRecordKeeps(y: System, next: System)
    requires Faithful(y) && SameRecord(y, next) && Known(next)
    ensures Faithful(next)
  {
    assert y.complete ==> Accounted(next);
  }

  lemma MoveKnown(y: System, e: Event)
    requires Known(y) && (e.Click? || e.Teleport? || e.Turn? || e.Rollback?)
    ensures Known(Step(y, e)) && SameRecord(y, Step(y, e)) && Step(y, e).tracker.squared == y.tracker.squared
  {
  }

  lemma MoveKeeps(y: System, e: Event)
    requires Faithful(y) && (e.Click? || e.Teleport? || e.Turn? || e.Rollback?)
    ensures Faithful(Step(y, e)) && Step(y, e).tracker.squared == y.tracker.squared
  {
    MoveKnown(y, e);
    SameRecordKeeps(y, Step(y, e));
  }

  lemma StepKeeps(y: System, e: Event)
    requires Faithful(y)
    ensures Faithful(Step(y, e)) && Step(y, e).tracker.squared == y.tracker.squared
  {
    match e
    case SetInput(sequence, input, reset) => AcceptKeeps(y, sequence, input, reset);
    case DoTick(s, flight) =>
      if y.local.None? { UnsentKeeps(y); } else { SentKeeps(y, s, flight); }
    case Renew(pose) => RenewKeeps(y, pose);
    case _ => MoveKeeps(y, e);
  }

  lemma {:induction false} RunKeeps(y: System, events: seq<Event>)
    requires Faithful(y)
    ensures Faithful(Run(y, events)) && Run(y, events).tracker.squared == y.tracker.squared
    decreases |events|
  {
    if events != [] {
      StepKeeps(y, events[0]);
      RunKeeps(Step(y, events[0]), events[1..]);
    }
  }

  lemma StartFaithful(squared: Metric, pose: Pose)
    ensures Faithful(Start(squared, pose))
  {
  }

  // ---- Inputs ----

  /**
    After every run, resets included, a tick that sends leaves the server with exactly the newest
    input, counted from the one held at the last reset; no two consecutive input packets are equal;
    and if nothing was coalesced, the packets since the reset are exactly what is owed, without its
    first input if that is the released one. Owed are the journal carried over the reset, or the
    held input where the first tick finds nothing else, and then every accepted change.
   */
  lemma InputsReplay(squared: Metric, pose: Pose, events: seq<Event>, s: Simulation, flight: seq<bool>)
    requires Run(Start(squared, pose), events).local.Some?
    ensures var y := Run(Start(squared, pose), events);
      var end := Step(y, DoTick(s, flight));
      && end.server.input == LastOr(y.held, y.accepted)
      && Steps(IDLE, end.server.inputs)
      && (y.complete ==>
            && end.owed == (if y.owed == [] then [y.controls.input] else y.owed)
            && end.server.inputs == if end.owed[0] == IDLE then end.owed[1..] else end.owed)
  {
    var y := Run(Start(squared, pose), events);
    StartFaithful(squared, pose);
    RunKeeps(Start(squared, pose), events);
    SentKeeps(y, s, flight);
    if y.complete {
      TickPays(y, s, flight);
      ChangesOfChain(IDLE, TickSent(y, s, flight).owed);
    }
  }

  // ---- Flight ----

  /** The server has heard exactly the flight changes of the ticks since the reset, and holds the last of them. */
  predicate FlightKnown(y: System) {
    y.server.flights == y.flown && y.server.flying == LastOr(false, y.flown)
  }

  lemma LastOfBoth<T>(last: T, a: seq<T>, b: seq<T>)
    ensures LastOr(last, a + b) == LastOr(LastOr(last, a), b)
  {
    if b == [] { assert a + b == a; }
  }

  lemma SentFlies(y: System, s: Simulation, flight: seq<bool>)
    requires Faithful(y) && FlightKnown(y) && y.local.Some?
    ensures var end := TickSent(y, s, flight);
      && end.server.flights == y.server.flights + flight == end.flown
      && end.server.flying == LastOr(false, end.flown)
      && (flight != [] ==> end.server.flying == flight[|flight| - 1])
  {
    TickReplays(y.tracker, y.server, s, Sampled(y.controls).1, flight);
    LastOfBoth(false, y.flown, flight);
  }

  lemma StepFlies(y: System, e: Event)
    requires Faithful(y) && FlightKnown(y)
    ensures FlightKnown(Step(y, e))
  {
    if e.DoTick? && y.local.Some? { SentFlies(y, e.s, e.flight); }
  }

  lemma {:induction false} RunFlies(y: System, events: seq<Event>)
    requires Faithful(y) && FlightKnown(y)
    ensures FlightKnown(Run(y, events))
    decreases |events|
  {
    if events != [] {
      StepKeeps(y, events[0]);
      StepFlies(y, events[0]);
      RunFlies(Step(y, events[0]), events[1..]);
    }
  }

  /**
    After every run a tick that sends tells the server exactly its own flight changes, in order; the
    server has heard all those since the last reset and holds the last of them.
   */
  lemma FlightReplays(squared: Metric, pose: Pose, events: seq<Event>, s: Simulation, flight: seq<bool>)
    requires Run(Start(squared, pose), events).local.Some?
    ensures var y := Run(Start(squared, pose), events);
      var end := Step(y, DoTick(s, flight));
      && end.server.flights == y.server.flights + flight == end.flown
      && end.server.flying == LastOr(false, end.flown)
      && (flight != [] ==> end.server.flying == flight[|flight| - 1])
  {
    StartFaithful(squared, pose);
    RunKeeps(Start(squared, pose), events);
    RunFlies(Start(squared, pose), events);
    SentFlies(Run(Start(squared, pose), events), s, flight);
  }

  // ---- Places ----

  /**
    After every run, a tick that sends leaves the server with the exact rotation, all flags and the
    sprint state; and with a place the program itself finds near, if the places were aligned.
   */
  lemma MovementReplays(squared: Metric, pose: Pose, events: seq<Event>, s: Simulation, flight: seq<bool>)
    requires Run(Start(squared, pose), events).local.Some?
    ensures var y := Run(Start(squared, pose), events);
      var end := Step(y, DoTick(s, flight)).server;
      && end.pose.yaw == s.pose.yaw && end.pose.pitch == s.pose.pitch
      && end.onGround == s.onGround && end.horizontalCollision == s.horizontalCollision
      && end.sprinting == s.sprinting
      && (Aligned(y.tracker, y.server) ==> Near(squared, s.pose.At(), end.pose.At()))
  {
    var y := Run(Start(squared, pose), events);
    StartFaithful(squared, pose);
    RunKeeps(Start(squared, pose), events);
    TickReplays(y.tracker, y.server, s, Sampled(y.controls).1, flight);
    if Aligned(y.tracker, y.server) { AlignedTick(y.tracker, y.server, s, Sampled(y.controls).1, flight); }
  }

  predicate Placed(y: System) {
    y.local.Some? ==> Aligned(y.tracker, y.server)
  }

  /**
    The event rebases the tracker on a simulated place that is not where it leaves the server: a turn
    that finds the simulation elsewhere, or a teleport relative in a component that differs.
   */
  predicate Displaces(y: System, e: Event) {
    match e
    case Turn(_, _) => y.local.Some? && y.local.value.At() != y.server.pose.At()
    case Teleport(jump) => y.local.Some? && jump.From(y.local.value).At() != jump.From(y.server.pose).At()
    case _ => false
  }

  lemma StepPlaces(y: System, e: Event)
    requires Faithful(y) && Placed(y)
    ensures Placed(Step(y, e)) <==> !Displaces(y, e)
  {
    if e.DoTick? && y.local.Some? { AlignedTick(y.tracker, y.server, e.s, Sampled(y.controls).1, e.flight); }
  }

  predicate NeverDisplaced(y: System, events: seq<Event>)
    decreases |events|
  {
    events == [] || (!Displaces(y, events[0]) && NeverDisplaced(Step(y, events[0]), events[1..]))
  }

  /** The places are aligned at every moment of a run if and only if no event displaces them. */
  lemma {:induction false} PlacedExactly(y: System, events: seq<Event>)
    requires Faithful(y) && Placed(y)
    ensures NeverDisplaced(y, events) <==> forall k :: 0 <= k <= |events| ==> Placed(Run(y, events[..k]))
    decreases |events|
  {
    if events == [] {
      assert forall k :: 0 <= k <= |events| ==> events[..k] == [];
    } else {
      var next, rest := Step(y, events[0]), events[1..];
      StepKeeps(y, events[0]);
      StepPlaces(y, events[0]);
      RunPrefixes(y, events);
      if Placed(next) {
        PlacedExactly(next, rest);
        assert (forall k :: 0 <= k <= |events| ==> Placed(Run(y, events[..k])))
          ==> forall j :: 0 <= j <= |rest| ==> Placed(Run(next, rest[..j])) by {
          forall j | 0 <= j <= |rest| && Placed(Run(y, events[..j + 1])) ensures Placed(Run(next, rest[..j])) { }
        }
      } else {
        assert Run(y, events[..1]) == Run(next, rest[..0]) == next;
      }
    }
  }

  /** From joining on, the same; so in runs without displacement every tick that sends is near. */
  lemma PlacesReplay(squared: Metric, pose: Pose, events: seq<Event>)
    ensures NeverDisplaced(Start(squared, pose), events)
       <==> forall k :: 0 <= k <= |events| ==> Placed(Run(Start(squared, pose), events[..k]))
  {
    StartFaithful(squared, pose);
    PlacedExactly(Start(squared, pose), events);
  }

  /** After every run, with exact arithmetic: whatever the next tick simulates is near, exactly if the places are
      aligned or the position is sent anyway. */
  lemma NextTickNear(pose: Pose, events: seq<Event>, flight: seq<bool>)
    requires Run(Start(Exact, pose), events).local.Some?
    ensures var y := Run(Start(Exact, pose), events);
      (forall s: Simulation :: Near(Exact, s.pose.At(), TickSent(y, s, flight).server.pose.At()))
      <==> Aligned(y.tracker, y.server) || y.tracker.positionReminder == FORCED_POSITION_INTERVAL - 1
  {
    var y := Run(Start(Exact, pose), events);
    StartFaithful(Exact, pose);
    RunKeeps(Start(Exact, pose), events);
    var sample := Sampled(y.controls).1;
    NearExactlyWhenAligned(y.tracker, y.server, sample, flight);
    assert forall s: Simulation :: TickSent(y, s, flight).server == AfterTick(y.tracker, y.server, s, sample, flight).1;
  }

  // ---- How long ago a position was heard ----

  /** The reminder counts the ticks since the server heard a position or moved the player. */
  predicate Timed(y: System) {
    y.local.Some? ==> y.server.quietTicks == y.tracker.positionReminder
  }

  /** A turn clears the reminder while the server has been waiting. */
  predicate Delays(y: System, e: Event) {
    e.Turn? && y.local.Some? && y.server.quietTicks > 0
  }

  predicate NeverDelayed(y: System, events: seq<Event>)
    decreases |events|
  {
    events == [] || (!Delays(y, events[0]) && NeverDelayed(Step(y, events[0]), events[1..]))
  }

  lemma StepTimes(y: System, e: Event)
    requires Known(y) && Timed(y)
    ensures Timed(Step(y, e)) <==> !Delays(y, e)
  {
    if e.DoTick? && y.local.Some? { TickReplays(y.tracker, y.server, e.s, Sampled(y.controls).1, e.flight); }
  }

  lemma {:induction false} TimedWhileNotDelayed(y: System, events: seq<Event>)
    requires Faithful(y) && Timed(y) && NeverDelayed(y, events)
    ensures Timed(Run(y, events))
    decreases |events|
  {
    if events != [] {
      StepKeeps(y, events[0]);
      StepTimes(y, events[0]);
      TimedWhileNotDelayed(Step(y, events[0]), events[1..]);
    }
  }

  /** Unless a turn delays it, the server has heard a position, or moved the player, fewer than 20 ticks ago. */
  lemma PositionsHeard(squared: Metric, pose: Pose, events: seq<Event>)
    requires NeverDelayed(Start(squared, pose), events)
    ensures var end := Run(Start(squared, pose), events);
      end.local.Some? ==> end.server.quietTicks < FORCED_POSITION_INTERVAL
  {
    StartFaithful(squared, pose);
    RunKeeps(Start(squared, pose), events);
    TimedWhileNotDelayed(Start(squared, pose), events);
  }

  // ---- Runs in which a turn displaces ----

  const ORIGIN := Pose(0.0, 0.0, 0.0, 0.0, 0.0)

  function Crept(n: nat): Pose {
    ORIGIN.(x := n as real * 0.00015)
  }

  /** A tick that moves a little, then a turn to the same rotation, `n` times. */
  function Creep(n: nat): seq<Event> {
    if n == 0 then [Teleport(Jump(To(0.0), To(0.0), To(0.0), To(0.0), To(0.0)))]
    else Creep(n - 1) + [DoTick(Simulation(Crept(n), false, false, false), []), Turn(0.0, 0.0)]
  }

  /**
    However far the player creeps, no position is sent: the server holds the place it last heard,
    any number of ticks ago. Already the second tick leaves it beyond the epsilon.
   */
  lemma {:induction false} TurnsHideCreeping(n: nat)
    ensures var end := Run(Start(Exact, ORIGIN), Creep(n));
      && end.local == Some(Crept(n)) && end.server.pose == ORIGIN && end.server.quietTicks == n
      && (n >= 2 ==> !Near(Exact, Crept(n).At(), end.server.pose.At()))
  {
    var begin := Start(Exact, ORIGIN);
    StartFaithful(Exact, ORIGIN);
    if n == 0 {
      assert Creep(0)[1..] == [];
    } else {
      var round := [DoTick(Simulation(Crept(n), false, false, false), []), Turn(0.0, 0.0)];
      var y := Run(begin, Creep(n - 1));
      TurnsHideCreeping(n - 1);
      CreepRebases(n - 1);
      RunKeeps(begin, Creep(n - 1));
      RunMore(begin, Creep(n - 1), round);
      CreepRound(y, n);
      if n >= 2 { CreptFar(n); }
    }
  }

  lemma CreepRebases(n: nat)
    requires Run(Start(Exact, ORIGIN), Creep(n)).local.Some?
    ensures var end := Run(Start(Exact, ORIGIN), Creep(n));
      end.tracker.lastPose == end.local && end.tracker.positionReminder == 0
  {
    var begin := Start(Exact, ORIGIN);
    if n == 0 {
      assert Creep(0)[1..] == [];
    } else {
      var round := [DoTick(Simulation(Crept(n), false, false, false), []), Turn(0.0, 0.0)];
      RunMore(begin, Creep(n - 1), round);
      RunTwo(Run(begin, Creep(n - 1)), round);
    }
  }

  lemma RunTwo(y: System, events: seq<Event>)
    requires |events| == 2
    ensures Run(y, events) == Step(Step(y, events[0]), events[1])
  {
    assert events[1..][1..] == [];
    assert Run(Step(y, events[0]), events[1..]) == Run(Step(Step(y, events[0]), events[1]), []);
  }

  lemma CreepRound(y: System, n: nat)
    requires n > 0 && Faithful(y) && y.tracker.squared == Exact
    requires y.local == Some(Crept(n - 1)) && y.tracker.lastPose == y.local && y.tracker.positionReminder == 0
    requires y.server.pose == ORIGIN && y.server.quietTicks == n - 1
    ensures var end := Run(y, [DoTick(Simulation(Crept(n), false, false, false), []), Turn(0.0, 0.0)]);
      end.local == Some(Crept(n)) && end.server.pose == ORIGIN && end.server.quietTicks == n
  {
    var s := Simulation(Crept(n), false, false, false);
    RunTwo(y, [DoTick(s, []), Turn(0.0, 0.0)]);
    assert Crept(n).x - Crept(n - 1).x == 0.00015;
    assert Exact(Crept(n).At(), Crept(n - 1).At()) == 0.00015 * 0.00015;
    assert !PositionDue(y.tracker, s.pose);
    TickReplays(y.tracker, y.server, s, Sampled(y.controls).1, []);
  }

  lemma CreptFar(n: nat)
    requires n >= 2
    ensures !Near(Exact, Crept(n).At(), ORIGIN.At())
  {
    assert Crept(n).x >= 0.0003;
    Larger(Crept(n).x);
    assert Exact(Crept(n).At(), ORIGIN.At()) == Crept(n).x * Crept(n).x;
  }

  // ---- Inventory actions ----

  /** Some actions were dropped, or the ticks have handed on all but the waiting ones, in order. */
  predicate ClicksKept(y: System) {
    && |y.controls.buttons.commands| <= MAX_INVENTORY_COMMANDS
    && |y.clicked| == |y.serviced| + |y.controls.buttons.commands| + |y.dropped|
    && (y.dropped == [] ==> y.clicked == y.serviced + y.controls.buttons.commands)
  }

  /** A tick without a simulation finds actions waiting. */
  predicate Drops(y: System, e: Event) {
    e.DoTick? && y.local.None? && y.controls.buttons.commands != []
  }

  predicate NeverDrops(y: System, events: seq<Event>)
    decreases |events|
  {
    events == [] || (!Drops(y, events[0]) && NeverDrops(Step(y, events[0]), events[1..]))
  }

  lemma StepClicks(y: System, e: Event)
    requires ClicksKept(y)
    ensures ClicksKept(Step(y, e))
    ensures |Step(y, e).dropped| >= |y.dropped|
    ensures Step(y, e).dropped == y.dropped <==> !Drops(y, e)
  {
    var waiting := y.controls.buttons.commands;
    match e
    case Click(command) => Associate(y.serviced, waiting, [command]);
    case DoTick(_, _) => assert y.serviced + waiting + [] == y.serviced + waiting && y.dropped + [] == y.dropped;
    case _ =>
  }

  lemma {:induction false} RunClicks(y: System, events: seq<Event>)
    requires ClicksKept(y)
    ensures ClicksKept(Run(y, events))
    ensures |Run(y, events).dropped| >= |y.dropped|
    ensures |Run(y, events).dropped| == |y.dropped| <==> NeverDrops(y, events)
    decreases |events|
  {
    if events != [] {
      StepClicks(y, events[0]);
      RunClicks(Step(y, events[0]), events[1..]);
    }
  }

  /**
    Over every run at most 64 accepted actions wait, and the actions handed on followed by those
    waiting are exactly the accepted ones if and only if no tick without a simulation found any waiting.
   */
  lemma ClicksServiced(squared: Metric, pose: Pose, events: seq<Event>)
    ensures var end := Run(Start(squared, pose), events);
      && |end.controls.buttons.commands| <= MAX_INVENTORY_COMMANDS
      && (end.clicked == end.serviced + end.controls.buttons.commands <==> NeverDrops(Start(squared, pose), events))
  {
    RunClicks(Start(squared, pose), events);
  }

  /** A click before the first teleport is accepted, and the next tick drops it. */
  lemma ClickDropped(squared: Metric, pose: Pose, command: Command, s: Simulation, flight: seq<bool>)
    ensures var end := Run(Start(squared, pose), [Click(command), DoTick(s, flight)]);
      end.clicked == [command] && end.serviced == [] && end.controls.buttons.commands == []
  {
    RunTwo(Start(squared, pose), [Click(command), DoTick(s, flight)]);
  }
}
