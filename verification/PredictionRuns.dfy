/**
  The block prediction protocol (world_movement.rs wired by chat_session.rs): the client's world
  against the server's, over every run of ticks, server updates, acknowledgements, chunk
  loads and unloads, and resets.
 */
module PredictionRuns {
  import opened Wrappers
  import opened Bytes
  import opened BlockInteraction
  import opened InteractionTicks
  import opened PredictionQueue

  // ---- The system ----

  /** Both worlds, as far as they are loaded, and the tracker. */
  datatype System = System(local: World, server: World, tracker: Tracker)

  /** Chunks are loaded and unloaded in the world alone; the tracker is not told. */
  datatype Event =
    | DoTick(input: Input)
    | ServerUpdate(updates: seq<BlockUpdate>)
    | Ack(sequence: i32)
    | LoadChunk(chunk: World)
    | UnloadChunk(gone: set<Position>)
    | Reset(world: World)

  function Step(s: System, profile: Profile, e: Event): System {
    match e
    case DoTick(input) =>
      (match Tick(s.tracker, input, profile, s.local)
       case Failure(_) => s
       case Success(w) =>
         System(if w.predicted.Some? then Put(s.local, w.predicted.value) else s.local, s.server, w.tracker))
    case ServerUpdate(updates) =>
      var (predictions, immediate) := Reconciled(s.tracker.predictions, updates);
      System(PutAll(s.local, immediate), PutAll(s.server, updates), s.tracker.(predictions := predictions))
    case Ack(sequence) =>
      var (tracker, resolution) := Acknowledged(s.tracker, sequence);
      System(PutAll(s.local, resolution.updates), s.server, tracker)
    case LoadChunk(chunk) => s.(local := s.local + chunk, server := s.server + chunk)
    case UnloadChunk(gone) => s.(local := s.local - gone, server := s.server - gone)
    case Reset(world) => Joined(world)
  }

  function Joined(world: World): System {
    System(world, world, FRESH)
  }

  function Run(s: System, profile: Profile, events: seq<Event>): System
    decreases |events|
  {
    if events == [] then s else Run(Step(s, profile, events[0]), profile, events[1..])
  }

  /** Numbers do not wrap, and rays hit loaded blocks as shown. */
  predicate Admissible(s: System, profile: Profile, e: Event) {
    match e
    case DoTick(input) =>
      var r := Tick(s.tracker, input, profile, s.local);
      && (input.target.Some? ==>
            && input.target.value.position in s.local
            && s.local[input.target.value.position] == input.target.value.state)
      && (r.Success? ==> s.tracker.nextSequence + |r.value.frames| <= I32_MAX)
    case _ => true
  }

  predicate AdmissibleRun(s: System, profile: Profile, events: seq<Event>)
    decreases |events|
  {
    events == [] ||
    (Admissible(s, profile, events[0]) && AdmissibleRun(Step(s, profile, events[0]), profile, events[1..]))
  }

  // ---- The queue over runs ----

  lemma TickKeepsQueue(s: System, profile: Profile, input: Input)
    requires QueueOk(s.tracker) && Admissible(s, profile, DoTick(input))
    requires Tick(s.tracker, input, profile, s.local).Success?
    ensures var after := Tick(s.tracker, input, profile, s.local).value.tracker;
      QueueOk(after) && (AckOk(s.tracker) ==> AckOk(after))
  {
    var t, w := s.tracker, Tick(s.tracker, input, profile, s.local).value;
    TickNumbered(t, input, profile, s.local);
    AfterWithoutWrap(t.nextSequence, |w.frames|);
    TickPredictsOnce(t, input, profile, s.local);
    TickLeavesAck(t, input, profile, s.local);
    if w.predicted.Some? {
      var p: Prediction, i: nat :| Adds(t.predictions, w.tracker.predictions, p, w.predicted.value)
        && i < |w.frames| && p.sequence == After(t.nextSequence, i) && Observed(t, input, profile, s.local, p);
      AfterWithoutWrap(t.nextSequence, i);
      RegisterKeepsQueue(t.predictions, p);
    }
  }

  lemma {:induction false} PressesLeaveAck(w: Work, input: Input, profile: Profile, world: World, presses: nat)
    requires UsePresses(w, input, profile, world, presses).Success?
    ensures UsePresses(w, input, profile, world, presses).value.tracker.latestAcknowledged
      == w.tracker.latestAcknowledged
    decreases presses
  {
    if presses > 0 { PressesLeaveAck(UsePress(w, input, profile, world).value, input, profile, world, presses - 1); }
  }

  lemma TickLeavesAck(t: Tracker, input: Input, profile: Profile, world: World)
    requires Tick(t, input, profile, world).Success?
    ensures Tick(t, input, profile, world).value.tracker.latestAcknowledged == t.latestAcknowledged
  {
    var begin := Work(t, [], None);
    var mined := if input.creative then CreativePhase(begin, input) else SurvivalPhase(begin, input, profile);
    assert mined.value.tracker.latestAcknowledged == t.latestAcknowledged;
    PressesLeaveAck(mined.value, input, profile, world, input.usePresses);
  }

  /** Any acknowledgement keeps the queue; it stays ahead of the acknowledgements exactly if the number was issued. */
  lemma AckKeepsQueue(t: Tracker, sequence: i32)
    requires QueueOk(t)
    ensures QueueOk(Acknowledged(t, sequence).0)
    ensures AckOk(t) ==> (AckOk(Acknowledged(t, sequence).0) <==> sequence < t.nextSequence)
  {
    if NewAcknowledgement(t, sequence) { ResolvedIsPrefix(t.predictions, sequence); }
  }

  lemma UpdatesKeepQueue(t: Tracker, updates: seq<BlockUpdate>)
    requires QueueOk(t)
    ensures var after := t.(predictions := Reconciled(t.predictions, updates).0);
      QueueOk(after) && (AckOk(t) ==> AckOk(after))
  {
    ReconciledKeepsShape(t.predictions, updates);
    SameShapeQueue(t.predictions, Reconciled(t.predictions, updates).0);
  }

  /** An acknowledgement of a number not issued since the last reset. */
  predicate Unissued(s: System, e: Event) {
    e.Ack? && e.sequence >= s.tracker.nextSequence
  }

  /**
    Every admissible step keeps the queue, whatever is acknowledged and whether or not the worlds
    agree; and it keeps the queue ahead of the acknowledgements if and only if it does not
    acknowledge a number that was not issued.
   */
  lemma QueueStep(s: System, profile: Profile, e: Event)
    requires QueueOk(s.tracker) && Admissible(s, profile, e)
    ensures QueueOk(Step(s, profile, e).tracker)
    ensures AckOk(s.tracker) ==> (AckOk(Step(s, profile, e).tracker) <==> !Unissued(s, e))
  {
    match e
    case DoTick(input) =>
      if Tick(s.tracker, input, profile, s.local).Success? { TickKeepsQueue(s, profile, input); }
    case ServerUpdate(updates) => UpdatesKeepQueue(s.tracker, updates);
    case Ack(sequence) => AckKeepsQueue(s.tracker, sequence);
    case _ =>
  }

  predicate Issued(s: System, profile: Profile, events: seq<Event>)
    decreases |events|
  {
    events == [] || (!Unissued(s, events[0]) && Issued(Step(s, profile, events[0]), profile, events[1..]))
  }

  /** Nothing is left pending by acknowledging the last issued number. */
  predicate LastAckClears(t: Tracker) {
    t.nextSequence > 0 ==> Acknowledged(t, t.nextSequence - 1).0.predictions == []
  }

  /** Acknowledging the last issued number empties the queue exactly if it is empty or that is news. */
  lemma LastAckEmpties(t: Tracker)
    requires QueueOk(t) && t.nextSequence > 0
    ensures Acknowledged(t, t.nextSequence - 1).0.predictions == []
       <==> t.predictions == [] || NewAcknowledgement(t, t.nextSequence - 1)
    ensures AckOk(t) ==> LastAckClears(t)
  {
    ResolvedIsPrefix(t.predictions, t.nextSequence - 1);
    if t.predictions != [] {
      var back := |t.predictions| - 1;
      assert t.predictions[back].sequence <= t.nextSequence - 1;
      assert back < Resolved(t.predictions, t.nextSequence - 1);
    }
  }

  lemma {:induction false} QueueKept(s: System, profile: Profile, events: seq<Event>)
    requires QueueOk(s.tracker) && AdmissibleRun(s, profile, events)
    ensures QueueOk(Run(s, profile, events).tracker)
    ensures AckOk(s.tracker) && Issued(s, profile, events) ==> AckOk(Run(s, profile, events).tracker)
    decreases |events|
  {
    if events != [] {
      QueueStep(s, profile, events[0]);
      QueueKept(Step(s, profile, events[0]), profile, events[1..]);
    }
  }

  /**
    Over every admissible run the queue stays bounded, free of duplicate positions and numbered
    upward below the next number. If only issued numbers are acknowledged it also stays above the
    latest of them, and acknowledging the last issued number leaves nothing pending.
   */
  lemma QueueRun(s: System, profile: Profile, events: seq<Event>)
    requires QueueOk(s.tracker) && AdmissibleRun(s, profile, events)
    ensures var end := Run(s, profile, events).tracker;
      && QueueOk(end)
      && (AckOk(s.tracker) && Issued(s, profile, events) ==>
            AckOk(end) && LastAckClears(end))
  {
    QueueKept(s, profile, events);
    var end := Run(s, profile, events).tracker;
    if end.nextSequence > 0 { LastAckEmpties(end); }
  }

  /**
    An acknowledgement still in flight when the numbering starts again: it puts the tracker ahead of
    itself, and no later acknowledgement up to its number does anything.
   */
  lemma LateAckDeafens(world: World, profile: Profile, late: i32, later: i32)
    requires 0 <= late && later <= late
    ensures var deaf := Step(Joined(world), profile, Ack(late));
      !AckOk(deaf.tracker) && (forall s: System :: s.tracker.latestAcknowledged == deaf.tracker.latestAcknowledged ==>
                                 Step(s, profile, Ack(later)) == s)
  {
  }

  // ---- Agreement over runs ----

  predicate SystemOk(s: System) {
    QueueOk(s.tracker) && Agreement(s.local, s.server, s.tracker.predictions)
  }

  /**
    The tick ends a break and newly predicts a block whose state, as shown now, is no longer the one
    the break began with.
   */
  predicate StaleBreak(s: System, profile: Profile, e: Event) {
    && e.DoTick?
    && Tick(s.tracker, e.input, profile, s.local).Success?
    && FinishesBreak(s.tracker, e.input, profile)
    && profile.air.Some?
    && var target := s.tracker.activeBreak.value.target;
    && !Pending(s.tracker.predictions, target.position)
    && |s.tracker.predictions| < MAX_BLOCK_PREDICTIONS
    && (target.position in s.local && s.local[target.position] != target.state)
  }

  /** The step makes the two worlds disagree: a stale break, or a chunk loaded over a prediction. */
  predicate Stale(s: System, profile: Profile, e: Event) {
    StaleBreak(s, profile, e) || (e.LoadChunk? && Overwrites(e.chunk, s.tracker.predictions))
  }

  predicate Clean(s: System, profile: Profile, events: seq<Event>)
    decreases |events|
  {
    events == [] || (!Stale(s, profile, events[0]) && Clean(Step(s, profile, events[0]), profile, events[1..]))
  }

  /** A tick keeps the worlds in agreement if and only if it does not end a break on a stale state. */
  lemma TickKeepsAgreement(s: System, profile: Profile, input: Input)
    requires SystemOk(s) && Admissible(s, profile, DoTick(input))
    ensures Agreement(Step(s, profile, DoTick(input)).local, s.server,
      Step(s, profile, DoTick(input)).tracker.predictions)
       <==> !StaleBreak(s, profile, DoTick(input))
  {
    var t := s.tracker;
    var r := Tick(t, input, profile, s.local);
    if r.Success? {
      var w := r.value;
      TickPredictsOnce(t, input, profile, s.local);
      if StaleBreak(s, profile, DoTick(input)) {
        var target := t.activeBreak.value.target;
        var sequence: i32, player :| w.tracker.predictions ==
          Register(t.predictions, Prediction(sequence, target.position, target.state, profile.air.value, player)).0;
        RegisterAgreement(s.local, s.server, t.predictions,
          Prediction(sequence, target.position, target.state, profile.air.value, player));
      } else if w.predicted.Some? {
        var p: Prediction, i: nat :| Adds(t.predictions, w.tracker.predictions, p, w.predicted.value)
          && i < |w.frames| && p.sequence == After(t.nextSequence, i) && Observed(t, input, profile, s.local, p);
        RegisterAgreement(s.local, s.server, t.predictions, p);
      }
    }
  }

  lemma AckKeepsAgreement(s: System, profile: Profile, sequence: i32)
    requires SystemOk(s)
    ensures var after := Step(s, profile, Ack(sequence)); Agreement(after.local, s.server, after.tracker.predictions)
  {
    if NewAcknowledgement(s.tracker, sequence) {
      ResolveMany(s.local, s.server, s.tracker.predictions, Resolved(s.tracker.predictions, sequence));
    }
  }

  /** While the worlds agree, what an acknowledgement changes in sight is exactly what it rolls back. */
  lemma RollbacksShow(s: System, profile: Profile, sequence: i32)
    requires SystemOk(s)
    ensures var after, rollbacks := Step(s, profile, Ack(sequence)), Acknowledged(s.tracker, sequence).1.rollbacks;
      && after.local.Keys == s.local.Keys
      && forall q :: q in s.local ==>
           (after.local[q] != s.local[q] <==> exists p :: p in rollbacks && p.position == q)
  {
    var after := Step(s, profile, Ack(sequence));
    AcknowledgedExactly(s.tracker, sequence);
    AckKeepsAgreement(s, profile, sequence);
    forall q | q in s.local
      ensures after.local[q] != s.local[q]
         <==> exists p :: p in Acknowledged(s.tracker, sequence).1.rollbacks && p.position == q
    {
      RollbackShows(s.local, after.local, s.server, s.tracker.predictions, after.tracker.predictions,
        Acknowledged(s.tracker, sequence).1.rollbacks, q);
    }
  }

  lemma RollbackShows(local: World, restored: World, server: World, before: seq<Prediction>, rest: seq<Prediction>,
      rollbacks: seq<Prediction>, q: Position)
    requires Agreement(local, server, before) && Agreement(restored, server, rest) && DistinctPositions(before)
    requires q in local && forall p :: p in rest ==> p in before
    requires forall p :: p in rollbacks <==> p in before && p !in rest && p.serverState != p.expected
    ensures restored[q] != local[q] <==> exists p :: p in rollbacks && p.position == q
  {
    PendingMeans(before, q);
    PendingMeans(rest, q);
    if Pending(before, q) {
      var i := Find(before, q);
      assert before[i] in before;
      forall p | p in before && p.position == q ensures p == before[i] { }
      if Pending(rest, q) {
        assert rest[Find(rest, q)] in rest;
      } else {
        assert before[i] !in rest;
      }
    }
  }

  /** An admissible step keeps the worlds in agreement if and only if it is not stale. */
  lemma StepKeeps(s: System, profile: Profile, e: Event)
    requires SystemOk(s) && Admissible(s, profile, e)
    ensures SystemOk(Step(s, profile, e)) <==> !Stale(s, profile, e)
  {
    QueueStep(s, profile, e);
    match e
    case DoTick(input) => TickKeepsAgreement(s, profile, input);
    case ServerUpdate(updates) => UpdatesKeepAgreement(s.local, s.server, s.tracker.predictions, updates);
    case Ack(sequence) => AckKeepsAgreement(s, profile, sequence);
    case LoadChunk(chunk) => LoadAgreement(s.local, s.server, s.tracker.predictions, chunk);
    case UnloadChunk(gone) => UnloadAgreement(s.local, s.server, s.tracker.predictions, gone);
    case Reset(_) =>
  }

  /** Over an admissible run the worlds agree at every moment if and only if no step is stale. */
  lemma {:induction false} AgreesExactly(s: System, profile: Profile, events: seq<Event>)
    requires SystemOk(s) && AdmissibleRun(s, profile, events)
    ensures Clean(s, profile, events) <==> forall k :: 0 <= k <= |events| ==> SystemOk(Run(s, profile, events[..k]))
    decreases |events|
  {
    if events == [] {
      assert forall k :: 0 <= k <= |events| ==> events[..k] == [];
    } else {
      var next, rest := Step(s, profile, events[0]), events[1..];
      StepKeeps(s, profile, events[0]);
      RunPrefixes(s, profile, events);
      if SystemOk(next) {
        AgreesExactly(next, profile, rest);
        if Clean(s, profile, events) {
          forall k | 0 <= k <= |events| ensures SystemOk(Run(s, profile, events[..k])) {
            if k > 0 { assert SystemOk(Run(next, profile, rest[..k - 1])); }
          }
        }
        if forall k :: 0 <= k <= |events| ==> SystemOk(Run(s, profile, events[..k])) {
          forall j | 0 <= j <= |rest| ensures SystemOk(Run(next, profile, rest[..j])) {
            assert SystemOk(Run(s, profile, events[..j + 1]));
          }
        }
      } else {
        assert Run(s, profile, events[..1]) == Run(next, profile, rest[..0]) == next;
      }
    }
  }

  lemma RunPrefixes(s: System, profile: Profile, events: seq<Event>)
    requires events != []
    ensures Run(s, profile, events[..0]) == s
    ensures forall k :: 0 < k <= |events| ==>
      Run(s, profile, events[..k]) == Run(Step(s, profile, events[0]), profile, events[1..][..k - 1])
  {
    forall k | 0 < k <= |events|
      ensures Run(s, profile, events[..k]) == Run(Step(s, profile, events[0]), profile, events[1..][..k - 1])
    {
      assert events[..k][1..] == events[1..][..k - 1];
    }
  }

  lemma NothingPendingAgrees(local: World, server: World)
    requires Agreement(local, server, [])
    ensures local == server
  {
    assert forall q :: q in local ==> !Pending([], q);
  }

  /** `acked` is what acknowledging the number leaves, with the worlds in agreement. */
  predicate AcksTo(s: System, sequence: i32, acked: System) {
    && acked.server == s.server && acked.tracker == Acknowledged(s.tracker, sequence).0
    && Agreement(acked.local, acked.server, acked.tracker.predictions)
  }

  lemma AckStep(s: System, profile: Profile, sequence: i32)
    requires SystemOk(s)
    ensures AcksTo(s, sequence, Step(s, profile, Ack(sequence)))
  {
    AckKeepsAgreement(s, profile, sequence);
  }

  predicate Settled(s: System, server: World) {
    s.tracker.predictions == [] && s.local == s.server == server
  }

  lemma EmptySettles(s: System, acked: System)
    requires s.tracker.nextSequence > 0 && AcksTo(s, s.tracker.nextSequence - 1, acked) && LastAckClears(s.tracker)
    ensures Settled(acked, s.server)
  {
    NothingPendingAgrees(acked.local, acked.server);
  }

  /** Where acknowledging the last issued number clears the queue, it leaves the worlds equal. */
  lemma LastAckResolvesAll(s: System, profile: Profile)
    requires SystemOk(s) && s.tracker.nextSequence > 0 && LastAckClears(s.tracker)
    ensures Settled(Step(s, profile, Ack(s.tracker.nextSequence - 1)), s.server)
  {
    AckStep(s, profile, s.tracker.nextSequence - 1);
    EmptySettles(s, Step(s, profile, Ack(s.tracker.nextSequence - 1)));
  }

  lemma JoinedOk(world: World)
    ensures SystemOk(Joined(world))
  {
  }

  /**
    From joining a world on, over every admissible run: the worlds agree throughout if and only if no
    step is stale; and then, if only issued numbers were acknowledged, acknowledging the last of them
    makes the worlds equal with nothing pending.
   */
  lemma WorldsConverge(world: World, profile: Profile, events: seq<Event>)
    requires AdmissibleRun(Joined(world), profile, events)
    ensures Clean(Joined(world), profile, events)
       <==> forall k :: 0 <= k <= |events| ==> SystemOk(Run(Joined(world), profile, events[..k]))
    ensures var end := Run(Joined(world), profile, events);
      Clean(Joined(world), profile, events) && Issued(Joined(world), profile, events)
        && end.tracker.nextSequence > 0 ==>
        var acked := Step(end, profile, Ack(end.tracker.nextSequence - 1));
        acked.tracker.predictions == [] && acked.local == acked.server == end.server
  {
    JoinedOk(world);
    AgreesExactly(Joined(world), profile, events);
    var end := Run(Joined(world), profile, events);
    if Clean(Joined(world), profile, events) {
      assert events[..|events|] == events;
      QueueRun(Joined(world), profile, events);
      if Issued(Joined(world), profile, events) && end.tracker.nextSequence > 0 {
        LastAckResolvesAll(end, profile);
      }
    }
  }

  // ---- When steps are stale ----

  /** The block being broken still shows the state the break began with. */
  predicate BreakCurrent(s: System) {
    s.tracker.activeBreak.Some? ==>
      var target := s.tracker.activeBreak.value.target;
      target.position in s.local && s.local[target.position] == target.state
  }

  /**
    The step leaves the shown state of the block under the break, if one is active after it, alone,
    and loads no chunk over a prediction.
   */
  predicate Considerate(s: System, profile: Profile, e: Event) {
    var next := Step(s, profile, e);
    && (next.tracker.activeBreak.Some? ==>
          var q := next.tracker.activeBreak.value.target.position;
          q in s.local ==> q in next.local && next.local[q] == s.local[q])
    && (e.LoadChunk? ==> !Overwrites(e.chunk, s.tracker.predictions))
  }

  predicate Undisturbed(s: System, profile: Profile, events: seq<Event>)
    decreases |events|
  {
    events == [] ||
    (&& Admissible(s, profile, events[0]) && Considerate(s, profile, events[0])
     && Undisturbed(Step(s, profile, events[0]), profile, events[1..]))
  }

  lemma StepKeepsCurrent(s: System, profile: Profile, e: Event)
    requires BreakCurrent(s) && Admissible(s, profile, e) && Considerate(s, profile, e)
    ensures BreakCurrent(Step(s, profile, e)) && !Stale(s, profile, e)
  {
    match e
    case DoTick(input) =>
      if Tick(s.tracker, input, profile, s.local).Success? { TickBreakTarget(s.tracker, input, profile, s.local); }
    case _ =>
  }

  /** If nothing changes a block while it is being broken, no break ends on a stale state. */
  lemma {:induction false} UndisturbedIsClean(s: System, profile: Profile, events: seq<Event>)
    requires BreakCurrent(s) && Undisturbed(s, profile, events)
    ensures Clean(s, profile, events) && AdmissibleRun(s, profile, events)
    decreases |events|
  {
    if events != [] {
      StepKeepsCurrent(s, profile, events[0]);
      UndisturbedIsClean(Step(s, profile, events[0]), profile, events[1..]);
    }
  }

  const HERE := Position(0, 0, 0)
  const ONE_TICK := Profile(Some(0), (_, _) => 1.0, _ => None, (a, b) => a + b, a => a * 10.0, a => a)

  function Seen(state: Block): Target {
    Target(HERE, Up, state, Point(0.5, 1.0, 0.5), 2.6)
  }

  /** The button held on block `HERE`, which shows `state`. */
  function Attack(state: Block): Input {
    Input(false, Some(Seen(state)), true, false, 0, None, None, Point(0.5, 2.0, 0.5), 0.0, 90.0)
  }

  function Breaking(world: World): System {
    System(world, world, Tracker(Some(ActiveBreak(Seen(5), 0.0)), 0, 1, None, []))
  }

  lemma StartBreaking()
    ensures Step(Joined(map[HERE := 5]), ONE_TICK, DoTick(Attack(5))) == Breaking(map[HERE := 5])
    ensures Admissible(Joined(map[HERE := 5]), ONE_TICK, DoTick(Attack(5)))
  {
    var start := PlayerAction(StartDestroy, HERE, Up, 0);
    assert [] + [start] == [start];
  }

  /** The break ends whatever the block shows, and retains the state it began with. */
  lemma EndBreaking(state: Block)
    ensures var p := Prediction(1, HERE, 5, 0, Attack(state).player);
      Step(Breaking(map[HERE := state]), ONE_TICK, DoTick(Attack(state)))
        == System(map[HERE := 0], map[HERE := state], Tracker(None, 5, 2, None, [p]))
    ensures Admissible(Breaking(map[HERE := state]), ONE_TICK, DoTick(Attack(state)))
  {
    var p := Prediction(1, HERE, 5, 0, Attack(state).player);
    var stop := PlayerAction(StopDestroy, HERE, Up, 1);
    assert [] + [p] == [p] && [] + [stop] == [stop];
  }

  /** A break starts, the server changes the block, the break ends, the server acknowledges: the worlds differ. */
  lemma StaleBreakDiverges()
    ensures var events := [DoTick(Attack(5)), ServerUpdate([BlockUpdate(HERE, 7)]), DoTick(Attack(7)), Ack(1)];
      && AdmissibleRun(Joined(map[HERE := 5]), ONE_TICK, events)
      && Run(Joined(map[HERE := 5]), ONE_TICK, events)
        == System(map[HERE := 5], map[HERE := 7], Tracker(None, 5, 2, Some(1), []))
  {
    var events := [DoTick(Attack(5)), ServerUpdate([BlockUpdate(HERE, 7)]), DoTick(Attack(7)), Ack(1)];
    var p := Prediction(1, HERE, 5, 0, Attack(7).player);
    var broken := System(map[HERE := 0], map[HERE := 7], Tracker(None, 5, 2, None, [p]));
    StartBreaking();
    UpdateOne(Breaking(map[HERE := 5]), ONE_TICK, BlockUpdate(HERE, 7));
    assert Step(Breaking(map[HERE := 5]), ONE_TICK, events[1]) == Breaking(map[HERE := 7]);
    EndBreaking(7);
    AckHere(map[HERE := 0], map[HERE := 7], p);
    RunFour(Joined(map[HERE := 5]), Breaking(map[HERE := 5]), Breaking(map[HERE := 7]), broken, ONE_TICK, events);
  }

  /** A break is predicted, the chunk is loaded again with another block, the server acknowledges: the worlds differ. */
  lemma StaleLoadDiverges()
    ensures var events := [DoTick(Attack(5)), DoTick(Attack(5)), LoadChunk(map[HERE := 9]), Ack(1)];
      && AdmissibleRun(Joined(map[HERE := 5]), ONE_TICK, events)
      && Run(Joined(map[HERE := 5]), ONE_TICK, events)
        == System(map[HERE := 5], map[HERE := 9], Tracker(None, 5, 2, Some(1), []))
  {
    var events := [DoTick(Attack(5)), DoTick(Attack(5)), LoadChunk(map[HERE := 9]), Ack(1)];
    var p := Prediction(1, HERE, 5, 0, Attack(5).player);
    var broken := System(map[HERE := 0], map[HERE := 5], Tracker(None, 5, 2, None, [p]));
    var loaded := System(map[HERE := 9], map[HERE := 9], broken.tracker);
    StartBreaking();
    EndBreaking(5);
    assert Step(broken, ONE_TICK, events[2]) == loaded by { Replaces(0, 9); Replaces(5, 9); }
    AckHere(map[HERE := 9], map[HERE := 9], p);
    RunFour(Joined(map[HERE := 5]), Breaking(map[HERE := 5]), broken, loaded, ONE_TICK, events);
  }

  lemma RunFour(s: System, s1: System, s2: System, s3: System, profile: Profile, events: seq<Event>)
    requires |events| == 4
    requires Step(s, profile, events[0]) == s1 && Step(s1, profile, events[1]) == s2
      && Step(s2, profile, events[2]) == s3
    ensures Run(s, profile, events) == Step(s3, profile, events[3])
    ensures AdmissibleRun(s, profile, events)
       <==> (&& Admissible(s, profile, events[0]) && Admissible(s1, profile, events[1])
             && Admissible(s2, profile, events[2]) && Admissible(s3, profile, events[3]))
  {
    var later := [events[1..], events[2..], events[3..]];
    assert later[0][1..] == later[1] && later[1][1..] == later[2] && later[2][1..] == [];
    assert Run(s3, profile, later[2]) == Step(s3, profile, events[3]);
    assert Run(s2, profile, later[1]) == Run(s3, profile, later[2]);
    assert Run(s1, profile, later[0]) == Run(s2, profile, later[1]);
    assert AdmissibleRun(s3, profile, later[2]) <==> Admissible(s3, profile, events[3]);
    assert AdmissibleRun(s2, profile, later[1])
      == (Admissible(s2, profile, events[2]) && AdmissibleRun(s3, profile, later[2]));
    assert AdmissibleRun(s1, profile, later[0])
      == (Admissible(s1, profile, events[1]) && AdmissibleRun(s2, profile, later[1]));
  }

  lemma Replaces(before: Block, after: Block)
    ensures map[HERE := before] + map[HERE := after] == map[HERE := after]
  {
  }

  /** The acknowledgement puts the retained state back, whatever is shown and whatever the server has. */
  lemma AckHere(shown: World, server: World, p: Prediction)
    requires p.sequence == 1 && p.position == HERE && p.serverState == 5 && shown.Keys == {HERE}
    ensures Step(System(shown, server, Tracker(None, 5, 2, None, [p])), ONE_TICK, Ack(1))
         == System(map[HERE := 5], server, Tracker(None, 5, 2, Some(1), []))
  {
    AckOne(System(shown, server, Tracker(None, 5, 2, None, [p])), ONE_TICK, p);
    assert shown[HERE := 5] == map[HERE := 5];
  }

  lemma PutOne(world: World, u: BlockUpdate)
    ensures PutAll(world, [u]) == Put(world, u)
  {
    assert [u][1..] == [];
  }

  lemma UpdateOne(s: System, profile: Profile, u: BlockUpdate)
    requires s.tracker.predictions == []
    ensures Step(s, profile, ServerUpdate([u])) == s.(local := Put(s.local, u), server := Put(s.server, u))
  {
    assert [u][1..] == [] && [u] + [] == [u];
    assert Reconciled([], [u]) == ([], [u]);
    PutOne(s.local, u);
    PutOne(s.server, u);
  }

  lemma AckOne(s: System, profile: Profile, p: Prediction)
    requires s.tracker.predictions == [p] && s.tracker.latestAcknowledged == None && p.sequence >= 0
    ensures var acked := Step(s, profile, Ack(p.sequence));
      acked.tracker.predictions == [] && acked.local == Put(s.local, BlockUpdate(p.position, p.serverState))
        && acked.server == s.server
  {
    var u := BlockUpdate(p.position, p.serverState);
    assert [p][1..] == [] && Resolved([p], p.sequence) == 1;
    assert Restored([p][..1]) == [u];
    PutOne(s.local, u);
  }

  // ---- Frames over a run ----

  /** The sequenced frames of one event. */
  function Sent(s: System, profile: Profile, e: Event): seq<Frame> {
    if e.DoTick? && Tick(s.tracker, e.input, profile, s.local).Success? then
      Tick(s.tracker, e.input, profile, s.local).value.frames
    else []
  }

  function Emitted(s: System, profile: Profile, events: seq<Event>): seq<Frame>
    decreases |events|
  {
    if events == [] then []
    else Sent(s, profile, events[0]) + Emitted(Step(s, profile, events[0]), profile, events[1..])
  }

  lemma {:induction false} AfterAdds(start: i32, m: nat, n: nat)
    ensures After(After(start, m), n) == After(start, m + n)
  {
    if n > 0 { AfterAdds(start, m, n - 1); }
  }

  lemma NumberedAppend(start: i32, t: Tracker, sent: seq<Frame>, w: Work)
    requires Numbered(start, Work(t, sent, None)) && Numbered(t.nextSequence, w)
    ensures Numbered(start, Work(w.tracker, sent + w.frames, None))
  {
    var all := sent + w.frames;
    forall i | 0 <= i < |all| ensures all[i].sequence == After(start, i) {
      if i < |sent| {
        assert Work(t, sent, None).frames[i].sequence == After(start, i);
      } else {
        var k := i - |sent|;
        assert w.frames[k].sequence == After(t.nextSequence, k);
        assert After(After(start, |sent|), k) == After(start, |sent| + k) by { AfterAdds(start, |sent|, k); }
      }
    }
    assert After(After(start, |sent|), |w.frames|) == After(start, |all|) by { AfterAdds(start, |sent|, |w.frames|); }
  }

  lemma StepNumbered(s: System, profile: Profile, e: Event)
    requires !e.Reset?
    ensures Numbered(s.tracker.nextSequence, Work(Step(s, profile, e).tracker, Sent(s, profile, e), None))
  {
    if e.DoTick? && Tick(s.tracker, e.input, profile, s.local).Success? {
      TickNumbered(s.tracker, e.input, profile, s.local);
    }
  }

  /** From any state, until the next reset, all destroy and use frames carry consecutive numbers. */
  lemma {:induction false} RunNumbered(s: System, profile: Profile, events: seq<Event>)
    requires forall i :: 0 <= i < |events| ==> !events[i].Reset?
    ensures Numbered(s.tracker.nextSequence, Work(Run(s, profile, events).tracker, Emitted(s, profile, events), None))
    decreases |events|
  {
    if events != [] {
      var next := Step(s, profile, events[0]);
      StepNumbered(s, profile, events[0]);
      RunNumbered(next, profile, events[1..]);
      NumberedAppend(s.tracker.nextSequence, next.tracker, Sent(s, profile, events[0]),
        Work(Run(next, profile, events[1..]).tracker, Emitted(next, profile, events[1..]), None));
    }
  }

  predicate SurvivalStretch(events: seq<Event>) {
    forall i :: 0 <= i < |events| ==> !events[i].Reset? && (events[i].DoTick? ==> !events[i].input.creative)
  }

  /**
    Over any stretch outside Creative mode and without a reset, from any state, the destroy actions
    lead from the break found to the break left: each start is closed by exactly one abort or stop
    at its position before the next start.
   */
  lemma {:induction false} StretchBracketed(s: System, profile: Profile, events: seq<Event>)
    requires SurvivalStretch(events)
    ensures FollowAll(BracketOf(s.tracker), Emitted(s, profile, events)) == BracketOf(Run(s, profile, events).tracker)
    decreases |events|
  {
    if events != [] {
      var e, next := events[0], Step(s, profile, events[0]);
      StretchBracketed(next, profile, events[1..]);
      if e.DoTick? && Tick(s.tracker, e.input, profile, s.local).Success? {
        TickBracketed(s.tracker, e.input, profile, s.local);
      }
      FollowMore(BracketOf(s.tracker), Sent(s, profile, e), Emitted(next, profile, events[1..]));
    }
  }

  /** In no run, in any mode, is a break active during the pause after a break. */
  lemma {:induction false} RunPauses(s: System, profile: Profile, events: seq<Event>)
    requires Paused(s.tracker)
    ensures Paused(Run(s, profile, events).tracker)
    decreases |events|
  {
    if events != [] {
      var e := events[0];
      if e.DoTick? && Tick(s.tracker, e.input, profile, s.local).Success? {
        TickPauses(s.tracker, e.input, profile, s.local);
      }
      RunPauses(Step(s, profile, e), profile, events[1..]);
    }
  }
}
