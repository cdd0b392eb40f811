/**
  Block breaking, placing and prediction on the client (world_movement.rs). Rays, item properties,
  break speeds and the rounding of 32-bit arithmetic are inputs.
 */
module BlockInteraction {
  import opened Wrappers
  import opened Bytes

  const MAX_BLOCK_PREDICTIONS := 32
  const CREATIVE_DESTROY_DELAY_TICKS := 5

  datatype Position = Position(x: int, y: int, z: int)
  type Block = int
  type Item = int
  datatype Point = Point(x: real, y: real, z: real)
  datatype BlockFace = Down | Up | North | South | West | East
  datatype Hand = MainHand | OffHand

  datatype BlockUpdate = BlockUpdate(position: Position, state: Block)

  datatype Prediction = Prediction(
    sequence: i32, position: Position, serverState: Block, expected: Block, player: Point)

  /** A block in sight: where the ray met it, in world coordinates, and how far away. */
  datatype Target = Target(position: Position, face: BlockFace, state: Block, hit: Point, distance: real)
  datatype ActiveBreak = ActiveBreak(target: Target, progress: real)

  datatype Tracker = Tracker(
    activeBreak: Option<ActiveBreak>, destroyDelay: nat, nextSequence: i32,
    latestAcknowledged: Option<i32>, predictions: seq<Prediction>)

  const FRESH := Tracker(None, 0, 0, None, [])

  // ---- The prediction queue ----

  /** Index of the first prediction at the position, or the length. */
  function Find(predictions: seq<Prediction>, position: Position): (i: nat)
    ensures i <= |predictions|
    ensures i < |predictions| ==> predictions[i].position == position
    ensures forall k :: 0 <= k < i ==> predictions[k].position != position
  {
    if predictions == [] || predictions[0].position == position then 0 else 1 + Find(predictions[1..], position)
  }

  predicate Pending(predictions: seq<Prediction>, position: Position) {
    Find(predictions, position) < |predictions|
  }

  function Without(predictions: seq<Prediction>, i: nat): (r: seq<Prediction>)
    requires i < |predictions|
    ensures |r| == |predictions| - 1
    ensures forall k :: 0 <= k < |r| ==> r[k] == predictions[if k < i then k else k + 1]
  {
    predictions[..i] + predictions[i + 1..]
  }

  /** A known position keeps its server state and moves to the back; a full queue refuses a new one. */
  function Register(predictions: seq<Prediction>, p: Prediction): (seq<Prediction>, bool) {
    var i := Find(predictions, p.position);
    if i < |predictions| then
      (Without(predictions, i) + [predictions[i].(sequence := p.sequence, expected := p.expected)], true)
    else if |predictions| == MAX_BLOCK_PREDICTIONS then (predictions, false)
    else (predictions + [p], true)
  }

  /** How many predictions at the front have a sequence at most `sequence`. */
  function Resolved(predictions: seq<Prediction>, sequence: i32): (n: nat)
    ensures n <= |predictions|
  {
    if predictions == [] || predictions[0].sequence > sequence then 0 else 1 + Resolved(predictions[1..], sequence)
  }

  function Restored(predictions: seq<Prediction>): (updates: seq<BlockUpdate>)
    ensures |updates| == |predictions|
  {
    seq(|predictions|,
      i requires 0 <= i < |predictions| => BlockUpdate(predictions[i].position, predictions[i].serverState))
  }

  function RolledBack(predictions: seq<Prediction>): seq<Prediction> {
    if predictions == [] then []
    else
      var last := predictions[|predictions| - 1];
      RolledBack(predictions[..|predictions| - 1]) + if last.serverState != last.expected then [last] else []
  }

  datatype Resolution = Resolution(updates: seq<BlockUpdate>, rollbacks: seq<Prediction>)

  predicate NewAcknowledgement(t: Tracker, sequence: i32) {
    sequence >= 0 && (t.latestAcknowledged.None? || sequence > t.latestAcknowledged.value)
  }

  function Acknowledged(t: Tracker, sequence: i32): (Tracker, Resolution) {
    if !NewAcknowledgement(t, sequence) then (t, Resolution([], []))
    else
      var n := Resolved(t.predictions, sequence);
      (t.(latestAcknowledged := Some(sequence), predictions := t.predictions[n..]),
       Resolution(Restored(t.predictions[..n]), RolledBack(t.predictions[..n])))
  }

  /** A server update of a pending position is retained there; any other is to be applied at once. */
  function Retain(predictions: seq<Prediction>, update: BlockUpdate): seq<Prediction> {
    var i := Find(predictions, update.position);
    if i < |predictions| then predictions[i := predictions[i].(serverState := update.state)] else predictions
  }

  function Reconciled(predictions: seq<Prediction>, updates: seq<BlockUpdate>): (seq<Prediction>, seq<BlockUpdate>)
    decreases |updates|
  {
    if updates == [] then (predictions, [])
    else
      var (later, immediate) := Reconciled(Retain(predictions, updates[0]), updates[1..]);
      (later, if Pending(predictions, updates[0].position) then immediate else [updates[0]] + immediate)
  }

  function NextSequence(sequence: i32): i32 {
    if sequence == I32_MAX then 0 else sequence + 1
  }

  // ---- One tick ----

  datatype ActionKind = StartDestroy | AbortDestroy | StopDestroy

  datatype Frame =
    | PlayerAction(kind: ActionKind, position: Position, face: BlockFace, sequence: i32)
    | UseItemOn(hand: Hand, position: Position, face: BlockFace, location: Point, inside: bool, sequence: i32)
    | UseItem(hand: Hand, sequence: i32, yaw: real, pitch: real)

  /**
    Tables of the game version, and the arithmetic of 32-bit floating point: addition and scaling of
    progress and narrowing of coordinates, whatever their rounding.
   */
  datatype Profile = Profile(
    air: Option<Block>, progress: (Block, Option<Item>) -> real, placement: Item -> Option<Block>,
    sum: (real, real) -> real, scaled: real -> real, narrow: real -> real)

  datatype Input = Input(
    creative: bool, target: Option<Target>, attack: bool, attackChanged: bool, usePresses: nat,
    held: Option<Item>, offhand: Option<Item>, player: Point, yaw: real, pitch: real)

  datatype InteractionError = PositionOutOfRange

  /** What a tick has done so far. */
  datatype Work = Work(tracker: Tracker, frames: seq<Frame>, predicted: Option<BlockUpdate>)
  type Outcome = Result<Work, InteractionError>

  /** Positions that fit the 26/12/26-bit wire form. */
  predicate Encodable(p: Position) {
    -0x200_0000 <= p.x < 0x200_0000 && -0x800 <= p.y < 0x800 && -0x200_0000 <= p.z < 0x200_0000
  }

  function Emit(w: Work, frame: Frame): Work {
    w.(tracker := w.tracker.(nextSequence := NextSequence(w.tracker.nextSequence)), frames := w.frames + [frame])
  }

  function EmitAction(w: Work, kind: ActionKind, target: Target): Outcome {
    if !Encodable(target.position) then Failure(PositionOutOfRange)
    else Success(Emit(w, PlayerAction(kind, target.position, target.face, w.tracker.nextSequence)))
  }

  function CreativeReady(delay: nat, attack: bool, changed: bool, hasTarget: bool): (nat, bool) {
    if attack && changed then (CREATIVE_DESTROY_DELAY_TICKS, hasTarget)
    else if !attack then (delay, false)
    else if delay > 0 then (delay - 1, false)
    else if hasTarget then (CREATIVE_DESTROY_DELAY_TICKS, true)
    else (delay, false)
  }

  function CreativePhase(w: Work, input: Input): Outcome {
    var (delay, ready) := CreativeReady(w.tracker.destroyDelay, input.attack, input.attackChanged, input.target.Some?);
    var idle := w.(tracker := w.tracker.(activeBreak := None, destroyDelay := delay));
    if ready && input.target.Some? then EmitAction(idle, StartDestroy, input.target.value) else Success(idle)
  }

  predicate ShouldAbort(active: Option<ActiveBreak>, input: Input) {
    active.Some? && (!input.attack || input.target.None? || input.target.value.position != active.value.target.position)
  }

  function AbortPhase(w: Work, input: Input): Outcome {
    if ShouldAbort(w.tracker.activeBreak, input) then
      EmitAction(w.(tracker := w.tracker.(activeBreak := None)), AbortDestroy, w.tracker.activeBreak.value.target)
    else Success(w)
  }

  function Advanced(active: ActiveBreak, profile: Profile, held: Option<Item>): ActiveBreak {
    active.(progress := profile.sum(active.progress, profile.progress(active.target.state, held)))
  }

  function RegisterPrediction(w: Work, p: Prediction): Work {
    var (predictions, accepted) := Register(w.tracker.predictions, p);
    w.(tracker := w.tracker.(predictions := predictions),
       predicted := if accepted then Some(BlockUpdate(p.position, p.expected)) else w.predicted)
  }

  /** A finished break is announced, predicted as air with the state it began with, and followed by a pause. */
  function FinishBreak(w: Work, target: Target, profile: Profile, player: Point): Outcome {
    var sequence := w.tracker.nextSequence;
    var stopped :- EmitAction(w.(tracker := w.tracker.(activeBreak := None)), StopDestroy, target);
    var registered :=
      if profile.air.None? then stopped
      else RegisterPrediction(stopped, Prediction(sequence, target.position, target.state, profile.air.value, player));
    Success(registered.(tracker := registered.tracker.(destroyDelay := CREATIVE_DESTROY_DELAY_TICKS)))
  }

  function MinePhase(w: Work, input: Input, profile: Profile): Outcome {
    var active := w.tracker.activeBreak;
    if input.attack && active.None? && input.target.Some?
      && profile.progress(input.target.value.state, input.held) > 0.0 then
      var started :- EmitAction(w, StartDestroy, input.target.value);
      Success(started.(tracker := started.tracker.(activeBreak := Some(ActiveBreak(input.target.value, 0.0)))))
    else if input.attack && active.Some? then
      var next := Advanced(active.value, profile, input.held);
      if next.progress >= 1.0 then FinishBreak(w, active.value.target, profile, input.player)
      else Success(w.(tracker := w.tracker.(activeBreak := Some(next))))
    else Success(w)
  }

  function SurvivalPhase(w: Work, input: Input, profile: Profile): Outcome {
    if w.tracker.destroyDelay > 0 then Success(w.(tracker := w.tracker.(destroyDelay := w.tracker.destroyDelay - 1)))
    else
      var aborted :- AbortPhase(w, input);
      MinePhase(aborted, input, profile)
  }

  function SelectHand(input: Input, profile: Profile): Hand {
    var consumes := input.held.Some? && profile.placement(input.held.value).Some?;
    if input.offhand.Some? && (input.held.None? || !consumes) then OffHand else MainHand
  }

  function Adjacent(p: Position, face: BlockFace): Position {
    match face
    case Down => p.(y := p.y - 1)
    case Up => p.(y := p.y + 1)
    case North => p.(z := p.z - 1)
    case South => p.(z := p.z + 1)
    case West => p.(x := p.x - 1)
    case East => p.(x := p.x + 1)
  }

  /** Where on its block the target was met. */
  function Within(target: Target, narrow: real -> real): Point {
    Point(
      narrow(target.hit.x - target.position.x as real),
      narrow(target.hit.y - target.position.y as real),
      narrow(target.hit.z - target.position.z as real))
  }

  /** The block a press would place, when the place is known to be air. */
  function Placement(input: Input, profile: Profile, world: map<Position, Block>): Option<BlockUpdate> {
    var item := if SelectHand(input, profile) == MainHand then input.held else input.offhand;
    if input.target.None? || item.None? || profile.placement(item.value).None? || profile.air.None? then None
    else
      var position := Adjacent(input.target.value.position, input.target.value.face);
      if position in world && world[position] == profile.air.value
      then Some(BlockUpdate(position, profile.placement(item.value).value))
      else None
  }

  /** One press: a use frame, and at most one prediction in the whole tick. */
  function UsePress(w: Work, input: Input, profile: Profile, world: map<Position, Block>): Outcome {
    var hand, sequence := SelectHand(input, profile), w.tracker.nextSequence;
    match input.target
    case None => Success(Emit(w, UseItem(hand, sequence, input.yaw, input.pitch)))
    case Some(target) =>
      if !Encodable(target.position) then Failure(PositionOutOfRange)
      else
        var location, inside := Within(target, profile.narrow), target.distance == 0.0;
        var used := Emit(w, UseItemOn(hand, target.position, target.face, location, inside, sequence));
        var placed := Placement(input, profile, world);
        if used.predicted.Some? || placed.None? then Success(used)
        else
          Success(RegisterPrediction(used,
            Prediction(sequence, placed.value.position, profile.air.value, placed.value.state, input.player)))
  }

  function UsePresses(w: Work, input: Input, profile: Profile, world: map<Position, Block>, presses: nat): Outcome
    decreases presses
  {
    if presses == 0 then Success(w)
    else
      var pressed :- UsePress(w, input, profile, world);
      UsePresses(pressed, input, profile, world, presses - 1)
  }

  /** A tick while a session exists. */
  function Tick(t: Tracker, input: Input, profile: Profile, world: map<Position, Block>): Outcome {
    var begin := Work(t, [], None);
    var mined :- if input.creative then CreativePhase(begin, input) else SurvivalPhase(begin, input, profile);
    UsePresses(mined, input, profile, world, input.usePresses)
  }

  const DESTROY_STAGE_COUNT := 10

  datatype Overlay = Overlay(position: Position, state: Block, stage: nat)

  /** The cracks drawn on the block under the active break. */
  function OverlayOf(active: Option<ActiveBreak>, profile: Profile): Option<Overlay> {
    if active.None? || active.value.progress <= 0.0 || active.value.progress >= 1.0 then None
    else
      var floor := profile.scaled(active.value.progress).Floor;
      var stage := if floor < 0 then 0 else if floor > 255 then 255 else floor;
      if stage < DESTROY_STAGE_COUNT then
        Some(Overlay(active.value.target.position, active.value.target.state, stage))
      else None
  }

  /** What a tick hands on: its frames, the block in sight unless one was predicted, the cracks, the prediction. */
  datatype InteractionTick = InteractionTick(
    frames: seq<Frame>, target: Option<Target>, breaking: Option<Overlay>, prediction: Option<BlockUpdate>)

  // ---- The tracker object ----

  /** What resolving one more prediction adds. */
  lemma ResolvedNext(all: seq<Prediction>, done: nat)
    requires done < |all|
    ensures all[done..][0] == all[done] && all[done..][1..] == all[done + 1..]
    ensures Restored(all[..done + 1])
      == Restored(all[..done]) + [BlockUpdate(all[done].position, all[done].serverState)]
    ensures RolledBack(all[..done + 1])
         == RolledBack(all[..done]) + if all[done].serverState != all[done].expected then [all[done]] else []
  {
    assert all[..done + 1][..done] == all[..done];
  }

  class BlockInteractionTracker {
    const profile: Profile
    var activeBreak: Option<ActiveBreak>
    var destroyDelay: nat
    var nextSequence: i32
    var latestAcknowledged: Option<i32>
    var predictions: seq<Prediction>

    function Value(): Tracker
      reads this
    {
      Tracker(activeBreak, destroyDelay, nextSequence, latestAcknowledged, predictions)
    }

    constructor (profile: Profile)
      ensures Value() == FRESH && this.profile == profile
    {
      this.profile := profile;
      activeBreak, destroyDelay, nextSequence, latestAcknowledged, predictions := None, 0, 0, None, [];
    }

    method Reset()
      modifies this
      ensures Value() == FRESH
    {
      activeBreak, destroyDelay, nextSequence, latestAcknowledged, predictions := None, 0, 0, None, [];
    }

    method Acknowledge(sequence: i32) returns (resolution: Resolution)
      modifies this
      ensures (Value(), resolution) == Acknowledged(old(Value()), sequence)
    {
      var updates: seq<BlockUpdate>, rollbacks: seq<Prediction> := [], [];
      if sequence >= 0 && (latestAcknowledged.None? || sequence > latestAcknowledged.value) {
        latestAcknowledged := Some(sequence);
        ghost var all := predictions;
        ghost var done := 0;
        while predictions != [] && predictions[0].sequence <= sequence
          invariant done <= |all| && predictions == all[done..]
          invariant Resolved(all, sequence) == done + Resolved(all[done..], sequence)
          invariant updates == Restored(all[..done]) && rollbacks == RolledBack(all[..done])
          invariant Value() == old(Value()).(latestAcknowledged := Some(sequence), predictions := predictions)
          decreases |predictions|
        {
          var prediction := predictions[0];
          ResolvedNext(all, done);
          predictions := predictions[1..];
          updates := updates + [BlockUpdate(prediction.position, prediction.serverState)];
          if prediction.serverState != prediction.expected {
            rollbacks := rollbacks + [prediction];
          }
          done := done + 1;
        }
      }
      return Resolution(updates, rollbacks);
    }

    method ReconcileBlockUpdates(updates: seq<BlockUpdate>) returns (immediate: seq<BlockUpdate>)
      modifies this
      ensures (predictions, immediate) == Reconciled(old(predictions), updates)
      ensures Value() == old(Value()).(predictions := predictions)
    {
      immediate := [];
      assert updates[0..] == updates && [] + Reconciled(predictions, updates).1 == Reconciled(predictions, updates).1;
      for i := 0 to |updates|
        invariant Value() == old(Value()).(predictions := predictions)
        invariant var (later, rest) := Reconciled(predictions, updates[i..]);
          Reconciled(old(predictions), updates) == (later, immediate + rest)
      {
        var update := updates[i];
        assert updates[i..][1..] == updates[i + 1..];
        var k := Find(predictions, update.position);
        if k < |predictions| {
          predictions := predictions[k := predictions[k].(serverState := update.state)];
        } else {
          Associate(immediate, [update], Reconciled(predictions, updates[i + 1..]).1);
          immediate := immediate + [update];
        }
      }
      assert immediate + [] == immediate;
    }

    method AddPrediction(sequence: i32, position: Position, observed: Block, expected: Block, player: Point)
        returns (accepted: bool)
      modifies this
      ensures (predictions, accepted)
        == Register(old(predictions), Prediction(sequence, position, observed, expected, player))
      ensures Value() == old(Value()).(predictions := predictions)
    {
      var i := Find(predictions, position);
      if i < |predictions| {
        var prediction := predictions[i];
        predictions := predictions[..i] + predictions[i + 1..];
        predictions := predictions + [prediction.(sequence := sequence, expected := expected)];
        return true;
      }
      if |predictions| == MAX_BLOCK_PREDICTIONS {
        return false;
      }
      predictions := predictions + [Prediction(sequence, position, observed, expected, player)];
      return true;
    }

    method Sequence() returns (result: i32)
      modifies this
      ensures result == old(nextSequence)
      ensures Value() == old(Value()).(nextSequence := NextSequence(old(nextSequence)))
    {
      result := nextSequence;
      nextSequence := if nextSequence == I32_MAX then 0 else nextSequence + 1;
    }

    method CreativeAttackReady(attack: bool, changed: bool, hasTarget: bool) returns (ready: bool)
      modifies this
      ensures (destroyDelay, ready) == CreativeReady(old(destroyDelay), attack, changed, hasTarget)
      ensures Value() == old(Value()).(destroyDelay := destroyDelay)
    {
      if attack && changed {
        destroyDelay := CREATIVE_DESTROY_DELAY_TICKS;
        return hasTarget;
      }
      if !attack {
        return false;
      }
      if destroyDelay > 0 {
        destroyDelay := destroyDelay - 1;
        return false;
      }
      if attack && hasTarget {
        destroyDelay := CREATIVE_DESTROY_DELAY_TICKS;
        return true;
      }
      return false;
    }

    /** Takes a sequence number and encodes the action; an unencodable position ends the session. */
    method PushAction(kind: ActionKind, target: Target, frames: seq<Frame>)
        returns (r: Result<seq<Frame>, InteractionError>)
      modifies this
      ensures var spec := EmitAction(Work(old(Value()), frames, None), kind, target);
        && (r.Success? ==> spec == Success(Work(Value(), r.value, None)))
        && (r.Failure? ==> spec == Failure(r.error))
    {
      var sequence := Sequence();
      if !Encodable(target.position) {
        return Failure(PositionOutOfRange);
      }
      return Success(frames + [PlayerAction(kind, target.position, target.face, sequence)]);
    }

    /** One tick; without a session it only forgets the break. */
    method RunTick(session: bool, input: Input, world: map<Position, Block>)
        returns (r: Result<InteractionTick, InteractionError>)
      modifies this
      ensures !session ==>
        && r == Success(InteractionTick([], None, None, None))
        && Value() == old(Value()).(activeBreak := None, destroyDelay := 0)
      ensures session ==>
        match Tick(old(Value()), input, profile, world)
        case Success(w) =>
          && Value() == w.tracker
          && r == Success(InteractionTick(w.frames, if w.predicted.Some? then None else input.target,
                                          OverlayOf(w.tracker.activeBreak, profile), w.predicted))
        case Failure(e) => r == Failure(e)
    {
      if !session {
        activeBreak, destroyDelay := None, 0;
        return Success(InteractionTick([], None, None, None));
      }
      var frames: seq<Frame> := [];
      var predicted: Option<BlockUpdate> := None;
      if input.creative {
        activeBreak := None;
        var ready := CreativeAttackReady(input.attack, input.attackChanged, input.target.Some?);
        if ready && input.target.Some? {
          frames :- PushAction(StartDestroy, input.target.value, frames);
        }
      } else {
        var mined;
        mined, frames, predicted := Survive(input);
        if mined.Failure? {
          return Failure(mined.error);
        }
      }
      ghost var spec := Tick(old(Value()), input, profile, world);
      for press := 0 to input.usePresses
        invariant spec == UsePresses(Work(Value(), frames, predicted), input, profile, world, input.usePresses - press)
      {
        var used;
        used, frames, predicted := Use(input, world, frames, predicted);
        if used.Failure? {
          return Failure(used.error);
        }
      }
      var visible := if predicted.Some? then None else input.target;
      return Success(InteractionTick(frames, visible, OverlayOf(activeBreak, profile), predicted));
    }

    /** The survival part of a tick: the pause, or an abort when the aim has moved, then mining. */
    method Survive(input: Input)
        returns (r: Result<(), InteractionError>, frames: seq<Frame>, predicted: Option<BlockUpdate>)
      modifies this
      ensures match SurvivalPhase(Work(old(Value()), [], None), input, profile)
              case Success(w) => r == Success(()) && (Value(), frames, predicted) == (w.tracker, w.frames, w.predicted)
              case Failure(e) => r == Failure(e)
    {
      frames, predicted := [], None;
      if destroyDelay > 0 {
        destroyDelay := destroyDelay - 1;
        return Success(()), frames, predicted;
      }
      var shouldAbort := activeBreak.Some?
        && (!input.attack || input.target.None? || input.target.value.position != activeBreak.value.target.position);
      if shouldAbort {
        var active := activeBreak.value;
        activeBreak := None;
        var pushed := PushAction(AbortDestroy, active.target, frames);
        if pushed.Failure? {
          return Failure(pushed.error), frames, predicted;
        }
        frames := pushed.value;
      }
      r, frames, predicted := Mine(input, frames);
    }

    /** Starts a break, or advances the active one and finishes it at full progress. */
    method Mine(input: Input, soFar: seq<Frame>)
        returns (r: Result<(), InteractionError>, frames: seq<Frame>, predicted: Option<BlockUpdate>)
      modifies this
      ensures match MinePhase(Work(old(Value()), soFar, None), input, profile)
              case Success(w) => r == Success(()) && (Value(), frames, predicted) == (w.tracker, w.frames, w.predicted)
              case Failure(e) => r == Failure(e)
    {
      frames, predicted := soFar, None;
      if input.attack && activeBreak.None? && input.target.Some?
        && profile.progress(input.target.value.state, input.held) > 0.0 {
        var pushed := PushAction(StartDestroy, input.target.value, frames);
        if pushed.Failure? {
          return Failure(pushed.error), frames, predicted;
        }
        frames := pushed.value;
        activeBreak := Some(ActiveBreak(input.target.value, 0.0));
      } else if input.attack && activeBreak.Some? {
        var active := activeBreak.value;
        active := active.(progress := profile.sum(active.progress, profile.progress(active.target.state, input.held)));
        activeBreak := Some(active);
        if active.progress >= 1.0 {
          activeBreak := None;
          var sequence := nextSequence;
          var pushed := PushAction(StopDestroy, active.target, frames);
          if pushed.Failure? {
            return Failure(pushed.error), frames, predicted;
          }
          frames := pushed.value;
          if profile.air.Some? {
            var accepted :=
              AddPrediction(sequence, active.target.position, active.target.state, profile.air.value, input.player);
            if accepted {
              predicted := Some(BlockUpdate(active.target.position, profile.air.value));
            }
          }
          destroyDelay := CREATIVE_DESTROY_DELAY_TICKS;
        }
      }
      return Success(()), frames, predicted;
    }

    /** One press of the use button. */
    method Use(input: Input, world: map<Position, Block>, soFar: seq<Frame>, before: Option<BlockUpdate>)
        returns (r: Result<(), InteractionError>, frames: seq<Frame>, predicted: Option<BlockUpdate>)
      modifies this
      ensures match UsePress(Work(old(Value()), soFar, before), input, profile, world)
              case Success(w) => r == Success(()) && (Value(), frames, predicted) == (w.tracker, w.frames, w.predicted)
              case Failure(e) => r == Failure(e)
    {
      frames, predicted := soFar, before;
      var hand := SelectHand(input, profile);
      var sequence := Sequence();
      if input.target.None? {
        return Success(()), frames + [UseItem(hand, sequence, input.yaw, input.pitch)], predicted;
      }
      var target := input.target.value;
      if !Encodable(target.position) {
        return Failure(PositionOutOfRange), frames, predicted;
      }
      var location, inside := Within(target, profile.narrow), target.distance == 0.0;
      frames := frames + [UseItemOn(hand, target.position, target.face, location, inside, sequence)];
      var placed := Placement(input, profile, world);
      if predicted.None? && placed.Some? {
        var accepted :=
          AddPrediction(sequence, placed.value.position, profile.air.value, placed.value.state, input.player);
        if accepted {
          predicted := placed;
        }
      }
      return Success(()), frames, predicted;
    }
  }
}
