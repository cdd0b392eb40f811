/**
  What one interaction tick does, whatever its input (world_movement.rs): its frames are numbered
  consecutively, breaks are bracketed, and at most one prediction is registered.
 */
module InteractionTicks {
  import opened Wrappers
  import opened Bytes
  import opened BlockInteraction

  // ---- Sequence numbers ----

  /** The sequence number `n` frames after `start`. */
  function After(start: i32, n: nat): i32 {
    if n == 0 then start else NextSequence(After(start, n - 1))
  }

  /** The frames carry consecutive numbers from `start`, and the next number follows them. */
  predicate Numbered(start: i32, w: Work) {
    && (forall i {:trigger w.frames[i]} :: 0 <= i < |w.frames| ==> w.frames[i].sequence == After(start, i))
    && w.tracker.nextSequence == After(start, |w.frames|)
  }

  lemma {:induction false} AfterWithoutWrap(start: i32, n: nat)
    requires start + n <= I32_MAX
    ensures After(start, n) == start + n
  {
    if n > 0 { AfterWithoutWrap(start, n - 1); }
  }

  /** Numbers count up modulo 2^31. */
  lemma {:induction false} AfterCounts(start: i32, n: nat)
    requires 0 <= start
    ensures After(start, n) == (start + n) % 0x8000_0000
  {
    if n > 0 {
      AfterCounts(start, n - 1);
      NextCounts(start + n - 1);
    }
  }

  lemma NextCounts(x: nat)
    ensures NextSequence(x % 0x8000_0000) == (x + 1) % 0x8000_0000
  {
    var m: nat, q, s := 0x8000_0000, x / 0x8000_0000, x % 0x8000_0000;
    if s == I32_MAX {
      QuotientIs(x + 1, m, q + 1, 0);
    } else {
      QuotientIs(x + 1, m, q, s + 1);
    }
  }

  lemma SurvivalNumbered(w: Work, input: Input, profile: Profile, start: i32)
    requires Numbered(start, w) && SurvivalPhase(w, input, profile).Success?
    ensures Numbered(start, SurvivalPhase(w, input, profile).value)
  {
    if w.tracker.destroyDelay == 0 {
      var aborted := AbortPhase(w, input).value;
      assert Numbered(start, aborted);
    }
  }

  lemma {:induction false} PressesNumbered(w: Work, input: Input, profile: Profile, world: map<Position, Block>,
      presses: nat, start: i32)
    requires Numbered(start, w) && UsePresses(w, input, profile, world, presses).Success?
    ensures Numbered(start, UsePresses(w, input, profile, world, presses).value)
    decreases presses
  {
    if presses > 0 {
      var pressed := UsePress(w, input, profile, world).value;
      assert Numbered(start, pressed);
      PressesNumbered(pressed, input, profile, world, presses - 1, start);
    }
  }

  /** All sequenced frames of a tick, destroy and use alike, carry consecutive numbers. */
  lemma TickNumbered(t: Tracker, input: Input, profile: Profile, world: map<Position, Block>)
    requires Tick(t, input, profile, world).Success?
    ensures Numbered(t.nextSequence, Tick(t, input, profile, world).value)
  {
    var begin := Work(t, [], None);
    if !input.creative { SurvivalNumbered(begin, input, profile, t.nextSequence); }
    var mined := if input.creative then CreativePhase(begin, input) else SurvivalPhase(begin, input, profile);
    assert Numbered(t.nextSequence, mined.value);
    PressesNumbered(mined.value, input, profile, world, input.usePresses, t.nextSequence);
  }

  // ---- Brackets ----

  /** Where a reader of destroy actions stands: between breaks, inside one, or confused. */
  datatype Bracket = Closed | Open(position: Position) | Confused

  function Follow(b: Bracket, frame: Frame): Bracket {
    match frame
    case PlayerAction(StartDestroy, p, _, _) => if b.Closed? then Open(p) else Confused
    case PlayerAction(_, p, _, _) => if b == Open(p) then Closed else Confused
    case _ => b
  }

  function FollowAll(b: Bracket, frames: seq<Frame>): Bracket {
    if frames == [] then b else Follow(FollowAll(b, frames[..|frames| - 1]), frames[|frames| - 1])
  }

  function BracketOf(t: Tracker): Bracket {
    if t.activeBreak.None? then Closed else Open(t.activeBreak.value.target.position)
  }

  lemma FollowOneMore(b: Bracket, frames: seq<Frame>, frame: Frame)
    ensures FollowAll(b, frames + [frame]) == Follow(FollowAll(b, frames), frame)
  {
    assert (frames + [frame])[..|frames|] == frames;
  }

  lemma {:induction false} FollowMore(b: Bracket, frames: seq<Frame>, more: seq<Frame>)
    ensures FollowAll(b, frames + more) == FollowAll(FollowAll(b, frames), more)
    decreases |more|
  {
    if more == [] {
      assert frames + more == frames;
    } else {
      var init, last := more[..|more| - 1], more[|more| - 1];
      assert frames + more == (frames + init) + [last];
      FollowOneMore(b, frames + init, last);
      FollowMore(b, frames, init);
    }
  }

  lemma SurvivalBracketed(w: Work, input: Input, profile: Profile, b: Bracket)
    requires FollowAll(b, w.frames) == BracketOf(w.tracker) && SurvivalPhase(w, input, profile).Success?
    ensures var r := SurvivalPhase(w, input, profile).value; FollowAll(b, r.frames) == BracketOf(r.tracker)
  {
    if w.tracker.destroyDelay == 0 {
      var aborted := AbortPhase(w, input).value;
      if ShouldAbort(w.tracker.activeBreak, input) { FollowOneMore(b, w.frames, aborted.frames[|w.frames|]); }
      MineBracketed(aborted, input, profile, b);
    }
  }

  lemma MineBracketed(w: Work, input: Input, profile: Profile, b: Bracket)
    requires FollowAll(b, w.frames) == BracketOf(w.tracker) && MinePhase(w, input, profile).Success?
    requires !ShouldAbort(w.tracker.activeBreak, input)
    ensures var r := MinePhase(w, input, profile).value; FollowAll(b, r.frames) == BracketOf(r.tracker)
  {
    var r, active := MinePhase(w, input, profile).value, w.tracker.activeBreak;
    if active.None? && r.frames != w.frames {
      StartFollows(b, w, input.target.value, r);
    } else if active.Some? && r.frames != w.frames {
      StopFollows(b, w, active.value.target, r);
    }
  }

  lemma StartFollows(b: Bracket, w: Work, target: Target, r: Work)
    requires FollowAll(b, w.frames) == Closed
    requires r.frames == w.frames + [PlayerAction(StartDestroy, target.position, target.face, w.tracker.nextSequence)]
    ensures FollowAll(b, r.frames) == Open(target.position)
  {
    FollowOneMore(b, w.frames, r.frames[|w.frames|]);
  }

  lemma StopFollows(b: Bracket, w: Work, target: Target, r: Work)
    requires FollowAll(b, w.frames) == Open(target.position)
    requires r.frames == w.frames + [PlayerAction(StopDestroy, target.position, target.face, w.tracker.nextSequence)]
    ensures FollowAll(b, r.frames) == Closed
  {
    FollowOneMore(b, w.frames, r.frames[|w.frames|]);
  }

  lemma {:induction false} PressesBracketed(w: Work, input: Input, profile: Profile, world: map<Position, Block>,
      presses: nat, b: Bracket)
    requires UsePresses(w, input, profile, world, presses).Success?
    ensures var r := UsePresses(w, input, profile, world, presses).value;
      && FollowAll(b, r.frames) == FollowAll(b, w.frames)
      && r.tracker.activeBreak == w.tracker.activeBreak && r.tracker.destroyDelay == w.tracker.destroyDelay
    decreases presses
  {
    if presses > 0 {
      var pressed := UsePress(w, input, profile, world).value;
      FollowOneMore(b, w.frames, pressed.frames[|w.frames|]);
      PressesBracketed(pressed, input, profile, world, presses - 1, b);
    }
  }

  /** Outside Creative mode a tick's destroy actions lead from the break it found to the break it leaves. */
  lemma TickBracketed(t: Tracker, input: Input, profile: Profile, world: map<Position, Block>)
    requires !input.creative && Tick(t, input, profile, world).Success?
    ensures var w := Tick(t, input, profile, world).value; FollowAll(BracketOf(t), w.frames) == BracketOf(w.tracker)
  {
    var begin := Work(t, [], None);
    SurvivalBracketed(begin, input, profile, BracketOf(t));
    PressesBracketed(SurvivalPhase(begin, input, profile).value, input, profile, world, input.usePresses, BracketOf(t));
  }

  /** A break still active after a tick is the one found, or one started on the block in sight. */
  lemma TickBreakTarget(t: Tracker, input: Input, profile: Profile, world: map<Position, Block>)
    requires Tick(t, input, profile, world).Success?
    ensures var after := Tick(t, input, profile, world).value.tracker.activeBreak;
      after.Some? ==>
        || (t.activeBreak.Some? && after.value.target == t.activeBreak.value.target)
        || (input.target.Some? && after.value.target == input.target.value)
  {
    var begin := Work(t, [], None);
    var mined := if input.creative then CreativePhase(begin, input) else SurvivalPhase(begin, input, profile);
    PressesBracketed(mined.value, input, profile, world, input.usePresses, Closed);
  }

  predicate Paused(t: Tracker) {
    t.destroyDelay > 0 ==> t.activeBreak.None?
  }

  /** No break is ever active during the pause after a break, in any mode. */
  lemma TickPauses(t: Tracker, input: Input, profile: Profile, world: map<Position, Block>)
    requires Paused(t) && Tick(t, input, profile, world).Success?
    ensures Paused(Tick(t, input, profile, world).value.tracker)
  {
    var begin := Work(t, [], None);
    var mined := if input.creative then CreativePhase(begin, input) else SurvivalPhase(begin, input, profile);
    PressesBracketed(mined.value, input, profile, world, input.usePresses, Closed);
  }

  // ---- Predictions ----

  /** The tick ends the break: survival, no pause, still attacking the same block, at full progress. */
  predicate FinishesBreak(t: Tracker, input: Input, profile: Profile) {
    && !input.creative && t.destroyDelay == 0 && t.activeBreak.Some? && input.attack
    && input.target.Some? && input.target.value.position == t.activeBreak.value.target.position
    && Advanced(t.activeBreak.value, profile, input.held).progress >= 1.0
  }

  /**
    The player where it stands, and the server state noted with a prediction: the block the break
    began with, or the air placed into.
   */
  predicate Observed(t: Tracker, input: Input, profile: Profile, world: map<Position, Block>, p: Prediction) {
    && p.player == input.player
    && (|| (FinishesBreak(t, input, profile) && profile.air.Some? && p.position == t.activeBreak.value.target.position
            && p.serverState == t.activeBreak.value.target.state)
        || (p.position in world && world[p.position] == p.serverState))
  }

  /** `predictions` is `before` with the prediction `p` registered, and `p` predicts `u`. */
  predicate Adds(before: seq<Prediction>, predictions: seq<Prediction>, p: Prediction, u: BlockUpdate) {
    Register(before, p) == (predictions, true) && u == BlockUpdate(p.position, p.expected)
  }

  /** Nothing was registered, or one prediction was, numbered within the tick, from an observed state. */
  ghost predicate OnePrediction(t: Tracker, input: Input, profile: Profile, world: map<Position, Block>, w: Work) {
    match w.predicted
    case None => w.tracker.predictions == t.predictions
    case Some(u) => exists p: Prediction, i: nat ::
      && Adds(t.predictions, w.tracker.predictions, p, u)
      && i < |w.frames| && p.sequence == After(t.nextSequence, i)
      && Observed(t, input, profile, world, p)
  }

  /** Once a break has ended, the tick predicts it unless the queue refuses it or air is unknown. */
  ghost predicate BreakPredicted(t: Tracker, profile: Profile, w: Work)
    requires t.activeBreak.Some?
  {
    var target := t.activeBreak.value.target;
    var refused := |t.predictions| == MAX_BLOCK_PREDICTIONS && !Pending(t.predictions, target.position);
    if profile.air.None? || refused then w.predicted.None?
    else w.predicted == Some(BlockUpdate(target.position, profile.air.value))
         && exists sequence: i32, player :: w.tracker.predictions ==
              Register(t.predictions, Prediction(sequence, target.position, target.state, profile.air.value, player)).0
  }

  lemma SurvivalPredictsOnce(t: Tracker, input: Input, profile: Profile, world: map<Position, Block>)
    requires !input.creative && SurvivalPhase(Work(t, [], None), input, profile).Success?
    ensures var w := SurvivalPhase(Work(t, [], None), input, profile).value;
      && OnePrediction(t, input, profile, world, w)
      && (FinishesBreak(t, input, profile) ==> BreakPredicted(t, profile, w))
  {
    var w := SurvivalPhase(Work(t, [], None), input, profile).value;
    if t.destroyDelay == 0 {
      var aborted := AbortPhase(Work(t, [], None), input).value;
      if FinishesBreak(t, input, profile) || (aborted.tracker.activeBreak.Some? && w.predicted.Some?) {
        assert aborted == Work(t, [], None);
        var target := t.activeBreak.value.target;
        if profile.air.Some? {
          var p := Prediction(t.nextSequence, target.position, target.state, profile.air.value, input.player);
          assert w.tracker.predictions == Register(t.predictions, p).0;
          if w.predicted.Some? {
            var i: nat := 0;
            assert Observed(t, input, profile, world, p);
            assert i < |w.frames| && p.sequence == After(t.nextSequence, i);
            assert Adds(t.predictions, w.tracker.predictions, p, w.predicted.value);
          }
        }
      }
    }
  }

  lemma PressPredictsOnce(t: Tracker, input: Input, profile: Profile, world: map<Position, Block>, w: Work)
    requires OnePrediction(t, input, profile, world, w) && Numbered(t.nextSequence, w)
      && UsePress(w, input, profile, world).Success?
    ensures var r := UsePress(w, input, profile, world).value;
      OnePrediction(t, input, profile, world, r) && Numbered(t.nextSequence, r)
  {
    var r := UsePress(w, input, profile, world).value;
    if w.predicted.Some? {
      var p: Prediction, i: nat :| Adds(t.predictions, w.tracker.predictions, p, w.predicted.value) && i < |w.frames|
        && p.sequence == After(t.nextSequence, i) && Observed(t, input, profile, world, p);
      assert Adds(t.predictions, r.tracker.predictions, p, r.predicted.value) && i < |r.frames|;
    } else if r.predicted.Some? {
      var placed := Placement(input, profile, world).value;
      var p := Prediction(w.tracker.nextSequence, placed.position, profile.air.value, placed.state, input.player);
      assert Adds(t.predictions, r.tracker.predictions, p, r.predicted.value);
      assert |w.frames| < |r.frames| && p.sequence == After(t.nextSequence, |w.frames|);
      assert Observed(t, input, profile, world, p);
    }
  }

  lemma {:induction false} PressesPredictOnce(t: Tracker, input: Input, profile: Profile, world: map<Position, Block>,
      w: Work, presses: nat)
    requires OnePrediction(t, input, profile, world, w) && Numbered(t.nextSequence, w)
    requires UsePresses(w, input, profile, world, presses).Success?
    ensures var r := UsePresses(w, input, profile, world, presses).value;
      && OnePrediction(t, input, profile, world, r)
      && (w.predicted.Some? ==> r.predicted == w.predicted && r.tracker.predictions == w.tracker.predictions)
    decreases presses
  {
    if presses > 0 {
      PressPredictsOnce(t, input, profile, world, w);
      PressesPredictOnce(t, input, profile, world, UsePress(w, input, profile, world).value, presses - 1);
    }
  }

  /** A tick registers at most one prediction; a finished break takes precedence over placing. */
  lemma TickPredictsOnce(t: Tracker, input: Input, profile: Profile, world: map<Position, Block>)
    requires Tick(t, input, profile, world).Success?
    ensures var w := Tick(t, input, profile, world).value;
      && OnePrediction(t, input, profile, world, w)
      && (FinishesBreak(t, input, profile) && profile.air.Some?
          && (|t.predictions| < MAX_BLOCK_PREDICTIONS || Pending(t.predictions, t.activeBreak.value.target.position))
          ==> BreakPredicted(t, profile, w))
  {
    var begin := Work(t, [], None);
    var mined := (if input.creative then CreativePhase(begin, input) else SurvivalPhase(begin, input, profile)).value;
    if input.creative {
      assert Numbered(t.nextSequence, mined);
    } else {
      SurvivalNumbered(begin, input, profile, t.nextSequence);
      SurvivalPredictsOnce(t, input, profile, world);
    }
    PressesPredictOnce(t, input, profile, world, mined, input.usePresses);
  }

  // ---- Creative cadence ----

  /** The delay and the number of strikes after `n` ticks with the button held on a block. */
  function Held(delay: nat, n: nat): (nat, nat) {
    if n == 0 then (delay, 0)
    else
      var (before, strikes) := Held(delay, n - 1);
      var (after, ready) := CreativeReady(before, true, false, true);
      (after, strikes + if ready then 1 else 0)
  }

  /** A fresh press strikes at once, whatever delay was left; held, it strikes again every sixth tick. */
  lemma {:induction false} CreativeCadence(delay: nat, n: nat)
    ensures CreativeReady(delay, true, true, true) == (5, true)
    ensures Held(5, n) == (5 - n % 6, n / 6)
  {
    if n > 0 { CreativeCadence(delay, n - 1); }
  }

  // ---- Survival cadence ----

  datatype Turn = Turn(input: Input, world: map<Position, Block>)

  /** Ticks one after another, with all their frames. */
  function Turns(t: Tracker, profile: Profile, turns: seq<Turn>): Result<(Tracker, seq<Frame>), InteractionError> {
    if turns == [] then Success((t, []))
    else
      var last := turns[|turns| - 1];
      var (before, frames) :- Turns(t, profile, turns[..|turns| - 1]);
      var w :- Tick(before, last.input, profile, last.world);
      Success((w.tracker, frames + w.frames))
  }

  function Destroys(frames: seq<Frame>): seq<Frame> {
    if frames == [] then []
    else Destroys(frames[..|frames| - 1]) + if frames[|frames| - 1].PlayerAction? then [frames[|frames| - 1]] else []
  }

  lemma {:induction false} DestroysMore(a: seq<Frame>, b: seq<Frame>)
    ensures Destroys(a + b) == Destroys(a) + Destroys(b)
    decreases |b|
  {
    if b == [] {
      assert a + b == a;
    } else {
      var init := b[..|b| - 1];
      assert (a + b)[..|a + b| - 1] == a + init;
      DestroysMore(a, init);
    }
  }

  /** Use presses send no destroy action and leave the break and the pause alone. */
  lemma {:induction false} PressesDestroyNothing(w: Work, input: Input, profile: Profile, world: map<Position, Block>,
      presses: nat)
    requires UsePresses(w, input, profile, world, presses).Success?
    ensures Destroys(UsePresses(w, input, profile, world, presses).value.frames) == Destroys(w.frames)
    decreases presses
  {
    if presses > 0 {
      var pressed := UsePress(w, input, profile, world).value;
      assert pressed.frames[..|w.frames|] == w.frames && |pressed.frames| == |w.frames| + 1;
      PressesDestroyNothing(pressed, input, profile, world, presses - 1);
    }
  }

  lemma SurvivalTickDestroys(t: Tracker, input: Input, profile: Profile, world: map<Position, Block>)
    requires !input.creative && Tick(t, input, profile, world).Success?
    ensures var w, mined := Tick(t, input, profile, world).value,
      SurvivalPhase(Work(t, [], None), input, profile).value;
      && Destroys(w.frames) == Destroys(mined.frames)
      && w.tracker.activeBreak == mined.tracker.activeBreak && w.tracker.destroyDelay == mined.tracker.destroyDelay
  {
    var mined := SurvivalPhase(Work(t, [], None), input, profile).value;
    PressesDestroyNothing(mined, input, profile, world, input.usePresses);
    PressesBracketed(mined, input, profile, world, input.usePresses, Closed);
  }

  /** Outside Creative mode, with the button held on the block at the target's position. */
  predicate HeldOn(target: Target, turn: Turn) {
    && !turn.input.creative && turn.input.attack
    && turn.input.target.Some? && turn.input.target.value.position == target.position
  }

  /** Progress of a break after the turns, each adding the rate of the tool then held. */
  function Progress(profile: Profile, target: Target, turns: seq<Turn>): real {
    if turns == [] then 0.0
    else
      var last := turns[|turns| - 1].input;
      profile.sum(Progress(profile, target, turns[..|turns| - 1]), profile.progress(target.state, last.held))
  }

  predicate Begun(t: Tracker, target: Target) {
    t.destroyDelay == 0 && t.activeBreak == Some(ActiveBreak(target, 0.0))
  }

  /** While progress stays below 1 it only adds up, and no destroy action is sent. */
  lemma {:induction false} BreakAdvances(t: Tracker, profile: Profile, target: Target, turns: seq<Turn>)
    requires Begun(t, target) && Turns(t, profile, turns).Success?
    requires forall i :: 0 <= i < |turns| ==> HeldOn(target, turns[i])
    requires forall k :: 0 <= k <= |turns| ==> Progress(profile, target, turns[..k]) < 1.0
    ensures var (after, frames) := Turns(t, profile, turns).value;
      && after.activeBreak == Some(ActiveBreak(target, Progress(profile, target, turns)))
      && after.destroyDelay == 0 && Destroys(frames) == []
    decreases |turns|
  {
    if turns != [] {
      var init, last := turns[..|turns| - 1], turns[|turns| - 1];
      assert forall k :: 0 <= k <= |init| ==> init[..k] == turns[..k];
      assert turns[..|turns|] == turns;
      BreakAdvances(t, profile, target, init);
      var (before, frames) := Turns(t, profile, init).value;
      SurvivalTickDestroys(before, last.input, profile, last.world);
      DestroysMore(frames, Tick(before, last.input, profile, last.world).value.frames);
    }
  }

  /** The pause counts down without a destroy action, whatever the input. */
  lemma {:induction false} PauseIsSilent(t: Tracker, profile: Profile, turns: seq<Turn>)
    requires |turns| <= t.destroyDelay && Turns(t, profile, turns).Success?
    requires forall i :: 0 <= i < |turns| ==> !turns[i].input.creative
    ensures var (after, frames) := Turns(t, profile, turns).value;
      after.activeBreak == t.activeBreak && after.destroyDelay == t.destroyDelay - |turns| && Destroys(frames) == []
    decreases |turns|
  {
    if turns != [] {
      var init, last := turns[..|turns| - 1], turns[|turns| - 1];
      PauseIsSilent(t, profile, init);
      var (before, frames) := Turns(t, profile, init).value;
      SurvivalTickDestroys(before, last.input, profile, last.world);
      DestroysMore(frames, Tick(before, last.input, profile, last.world).value.frames);
    }
  }

  /** A break held on sends no destroy action until the first tick whose progress reaches 1, then one stop. */
  lemma BreakStops(t: Tracker, profile: Profile, target: Target, init: seq<Turn>, last: Turn)
    requires Begun(t, target) && Turns(t, profile, init).Success?
    requires forall i :: 0 <= i < |init| ==> HeldOn(target, init[i])
    requires forall k :: 0 <= k <= |init| ==> Progress(profile, target, init[..k]) < 1.0
    requires var before := Turns(t, profile, init).value.0; Tick(before, last.input, profile, last.world).Success?
    requires HeldOn(target, last)
    requires profile.sum(Progress(profile, target, init), profile.progress(target.state, last.input.held)) >= 1.0
    ensures var (before, frames) := Turns(t, profile, init).value;
      var w := Tick(before, last.input, profile, last.world).value;
      && Destroys(frames) == []
      && Destroys(frames + w.frames) == [PlayerAction(StopDestroy, target.position, target.face, before.nextSequence)]
      && w.tracker.activeBreak.None? && w.tracker.destroyDelay == 5
  {
    BreakAdvances(t, profile, target, init);
    var (before, frames) := Turns(t, profile, init).value;
    StopTick(before, last, profile, target);
    DestroysMore(frames, Tick(before, last.input, profile, last.world).value.frames);
  }

  /** The turns send no destroy action and leave this much of the pause. */
  predicate Silent(t: Tracker, profile: Profile, turns: seq<Turn>, pause: int) {
    Turns(t, profile, turns).Success? ==>
      Destroys(Turns(t, profile, turns).value.1) == [] && Turns(t, profile, turns).value.0.destroyDelay == pause
  }

  /** The last of the turns is the first on which progress reaches 1. */
  predicate Completes(profile: Profile, target: Target, turns: seq<Turn>) {
    && turns != []
    && (forall i :: 0 <= i < |turns| ==> HeldOn(target, turns[i]))
    && (forall k :: 0 <= k < |turns| ==> Progress(profile, target, turns[..k]) < 1.0)
    && Progress(profile, target, turns) >= 1.0
  }

  lemma CompletesWithStop(t: Tracker, profile: Profile, target: Target, turns: seq<Turn>)
    requires Begun(t, target) && Completes(profile, target, turns) && Turns(t, profile, turns).Success?
    ensures var before, after := Turns(t, profile, turns[..|turns| - 1]), Turns(t, profile, turns).value;
      && before.Success?
      && Destroys(before.value.1) == []
      && Destroys(after.1) == [PlayerAction(StopDestroy, target.position, target.face, before.value.0.nextSequence)]
      && after.0.activeBreak.None? && after.0.destroyDelay == 5
  {
    var init := turns[..|turns| - 1];
    assert forall k :: 0 <= k <= |init| ==> init[..k] == turns[..k];
    BreakStops(t, profile, target, init, turns[|turns| - 1]);
  }

  /**
    A break held on sends no destroy action until the first tick whose summed progress reaches 1,
    then exactly one stop for the block it began on; and in the five ticks after that, none.
   */
  lemma SurvivalCadence(t: Tracker, profile: Profile, target: Target, turns: seq<Turn>, pause: seq<Turn>)
    requires Begun(t, target) && Completes(profile, target, turns) && Turns(t, profile, turns).Success?
    requires |pause| <= 5 && forall i :: 0 <= i < |pause| ==> !pause[i].input.creative
    ensures var before, after := Turns(t, profile, turns[..|turns| - 1]), Turns(t, profile, turns).value;
      && before.Success?
      && Destroys(before.value.1) == []
      && Destroys(after.1) == [PlayerAction(StopDestroy, target.position, target.face, before.value.0.nextSequence)]
      && after.0.activeBreak.None?
      && Silent(after.0, profile, pause, 5 - |pause|)
  {
    CompletesWithStop(t, profile, target, turns);
    var after := Turns(t, profile, turns).value.0;
    if Turns(after, profile, pause).Success? { PauseIsSilent(after, profile, pause); }
  }

  lemma StopTick(t: Tracker, turn: Turn, profile: Profile, target: Target)
    requires t.destroyDelay == 0 && t.activeBreak.Some? && t.activeBreak.value.target == target && HeldOn(target, turn)
    requires profile.sum(t.activeBreak.value.progress, profile.progress(target.state, turn.input.held)) >= 1.0
    requires Tick(t, turn.input, profile, turn.world).Success?
    ensures var w := Tick(t, turn.input, profile, turn.world).value;
      && Destroys(w.frames) == [PlayerAction(StopDestroy, target.position, target.face, t.nextSequence)]
      && w.tracker.activeBreak.None? && w.tracker.destroyDelay == 5
  {
    var stop := PlayerAction(StopDestroy, target.position, target.face, t.nextSequence);
    SurvivalTickDestroys(t, turn.input, profile, turn.world);
    assert SurvivalPhase(Work(t, [], None), turn.input, profile).value.frames == [] + [stop] == [stop];
    assert [stop][..0] == [];
  }
}
