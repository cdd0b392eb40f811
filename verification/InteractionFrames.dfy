/**
  What one interaction tick sends and predicts, action by action (world_movement.rs): which destroy
  actions, with which hand and at which block an item is used, and where a placed block appears.
 */
module InteractionFrames {
  import opened Wrappers
  import opened Bytes
  import opened BlockInteraction
  import opened InteractionTicks

  // ---- Faces ----

  /** The closed unit cube of a block. */
  predicate InBlock(hit: Point, p: Position) {
    && p.x as real <= hit.x <= p.x as real + 1.0
    && p.y as real <= hit.y <= p.y as real + 1.0
    && p.z as real <= hit.z <= p.z as real + 1.0
  }

  /** North is toward smaller z, west toward smaller x. */
  predicate OnFace(hit: Point, p: Position, face: BlockFace) {
    InBlock(hit, p) &&
    match face
    case Down => hit.y == p.y as real
    case Up => hit.y == p.y as real + 1.0
    case North => hit.z == p.z as real
    case South => hit.z == p.z as real + 1.0
    case West => hit.x == p.x as real
    case East => hit.x == p.x as real + 1.0
  }

  /** The other block that has all of this face. */
  ghost predicate AcrossFace(q: Position, p: Position, face: BlockFace) {
    q != p && forall hit :: OnFace(hit, p, face) ==> InBlock(hit, q)
  }

  function Centre(p: Position, face: BlockFace): (hit: Point)
    ensures OnFace(hit, p, face)
  {
    var x, y, z := p.x as real, p.y as real, p.z as real;
    match face
    case Down => Point(x + 0.5, y, z + 0.5)
    case Up => Point(x + 0.5, y + 1.0, z + 0.5)
    case North => Point(x + 0.5, y + 0.5, z)
    case South => Point(x + 0.5, y + 0.5, z + 1.0)
    case West => Point(x, y + 0.5, z + 0.5)
    case East => Point(x + 1.0, y + 0.5, z + 0.5)
  }

  lemma AdjacentIsAcross(q: Position, p: Position, face: BlockFace)
    ensures AcrossFace(q, p, face) <==> q == Adjacent(p, face)
  {
    if AcrossFace(q, p, face) { assert InBlock(Centre(p, face), q); }
  }

  // ---- Use presses ----

  predicate Placeable(item: Option<Item>, profile: Profile) {
    item.Some? && profile.placement(item.value).Some?
  }

  /** The offhand acts exactly if it holds an item and the main hand has nothing to place. */
  predicate RightHand(hand: Hand, input: Input, profile: Profile) {
    hand.OffHand? <==> input.offhand.Some? && !Placeable(input.held, profile)
  }

  /** The offset from the corner of the block to the place where the ray met it, cut to 32 bits. */
  predicate IsCursor(location: Point, corner: Position, hit: Point, narrow: real -> real) {
    && location.x == narrow(hit.x - corner.x as real)
    && location.y == narrow(hit.y - corner.y as real)
    && location.z == narrow(hit.z - corner.z as real)
  }

  /** A use of the block in sight where the ray met it, or of nothing along the line of sight. */
  predicate IsUse(frame: Frame, input: Input, profile: Profile) {
    match input.target
    case None =>
      frame.UseItem? && RightHand(frame.hand, input, profile) && frame.yaw == input.yaw && frame.pitch == input.pitch
    case Some(target) =>
      && frame.UseItemOn? && RightHand(frame.hand, input, profile)
      && frame.position == target.position && frame.face == target.face
      && IsCursor(frame.location, target.position, target.hit, profile.narrow)
      && (frame.inside <==> target.distance == 0.0)
  }

  /** The item in the hand that acts. */
  function Used(input: Input, profile: Profile): Option<Item> {
    if input.offhand.Some? && !Placeable(input.held, profile) then input.offhand else input.held
  }

  /** `q` is loaded, is air, lies across the face in sight, and the item used can be placed. */
  ghost predicate Places(q: Position, input: Input, profile: Profile, world: map<Position, Block>) {
    && input.target.Some? && AcrossFace(q, input.target.value.position, input.target.value.face)
    && Placeable(Used(input, profile), profile)
    && profile.air.Some? && q in world && world[q] == profile.air.value
  }

  lemma PlacementPlaces(q: Position, input: Input, profile: Profile, world: map<Position, Block>)
    ensures Places(q, input, profile, world)
       <==> Placement(input, profile, world).Some? && Placement(input, profile, world).value.position == q
    ensures Placement(input, profile, world).Some? ==>
      Placement(input, profile, world).value.state == profile.placement(Used(input, profile).value).value
  {
    if input.target.Some? { AdjacentIsAcross(q, input.target.value.position, input.target.value.face); }
  }

  /**
    One press: fails exactly on a block outside the wire range; otherwise adds one use frame with the
    next number, and predicts the item used across the face in sight, noting air, exactly if it can
    be placed there, nothing was predicted in this tick and the queue accepts it.
   */
  lemma PressExactly(w: Work, input: Input, profile: Profile, world: map<Position, Block>)
    ensures UsePress(w, input, profile, world).Failure?
       <==> input.target.Some? && !Encodable(input.target.value.position)
    ensures UsePress(w, input, profile, world).Success? ==>
      var r := UsePress(w, input, profile, world).value;
      && |r.frames| == |w.frames| + 1 && r.frames[..|w.frames|] == w.frames
      && r.frames[|w.frames|].sequence == w.tracker.nextSequence && IsUse(r.frames[|w.frames|], input, profile)
      && r.tracker == w.tracker.(nextSequence := r.tracker.nextSequence, predictions := r.tracker.predictions)
    ensures UsePress(w, input, profile, world).Success? ==>
      var r := UsePress(w, input, profile, world).value;
      && (forall q :: Places(q, input, profile, world) && w.predicted.None? ==>
            var placed := profile.placement(Used(input, profile).value).value;
            var p := Prediction(w.tracker.nextSequence, q, world[q], placed, input.player);
            var (predictions, accepted) := Register(w.tracker.predictions, p);
            && r.tracker.predictions == predictions
            && r.predicted == if accepted then Some(BlockUpdate(q, p.expected)) else None)
      && ((w.predicted.Some? || forall q :: !Places(q, input, profile, world)) ==>
            r.predicted == w.predicted && r.tracker.predictions == w.tracker.predictions)
  {
    var placed := Placement(input, profile, world);
    forall q ensures Places(q, input, profile, world) <==> placed.Some? && placed.value.position == q {
      PlacementPlaces(q, input, profile, world);
    }
    if placed.Some? { assert Places(placed.value.position, input, profile, world); }
  }

  lemma {:induction false} PressesExactly(w: Work, input: Input, profile: Profile, world: map<Position, Block>,
      presses: nat)
    ensures UsePresses(w, input, profile, world, presses).Failure?
       <==> presses > 0 && input.target.Some? && !Encodable(input.target.value.position)
    ensures UsePresses(w, input, profile, world, presses).Success? ==>
      var r := UsePresses(w, input, profile, world, presses).value;
      && |r.frames| == |w.frames| + presses && r.frames[..|w.frames|] == w.frames
      && forall i :: |w.frames| <= i < |r.frames| ==> IsUse(r.frames[i], input, profile)
    decreases presses
  {
    if presses > 0 {
      PressExactly(w, input, profile, world);
      var pressed := UsePress(w, input, profile, world);
      if pressed.Success? {
        PressesExactly(pressed.value, input, profile, world, presses - 1);
        var r := UsePresses(w, input, profile, world, presses);
        if r.Success? { SharedPrefix(w.frames, pressed.value.frames, r.value.frames); }
      }
    }
  }

  lemma SharedPrefix(a: seq<Frame>, b: seq<Frame>, c: seq<Frame>)
    requires |a| <= |b| <= |c| && b[..|a|] == a && c[..|b|] == b
    ensures c[..|a|] == a && forall i :: |a| <= i < |b| ==> c[i] == b[i]
  {
    forall i | 0 <= i < |b| ensures c[i] == b[i] { assert c[..|b|][i] == c[i]; }
    assert c[..|a|] == b[..|a|];
  }

  // ---- Destroy actions ----

  /** The break goes on: the button is held on the block it began on. */
  predicate GoesOn(t: Tracker, input: Input) {
    && t.activeBreak.Some? && input.attack
    && input.target.Some? && input.target.value.position == t.activeBreak.value.target.position
  }

  predicate Breakable(input: Input, profile: Profile) {
    input.target.Some? && profile.progress(input.target.value.state, input.held) > 0.0
  }

  function Action(kind: ActionKind, target: Target, sequence: i32): Frame {
    PlayerAction(kind, target.position, target.face, sequence)
  }


  /** In Creative mode the block in sight is struck by a fresh press, or by a held button when no delay is left. */
  lemma CreativeTick(t: Tracker, input: Input, profile: Profile, world: map<Position, Block>)
    requires input.creative && Tick(t, input, profile, world).Success?
    ensures var w := Tick(t, input, profile, world).value;
      var due := input.attack && (input.attackChanged || t.destroyDelay == 0);
      && Destroys(w.frames)
         == (if due && input.target.Some? then [Action(StartDestroy, input.target.value, t.nextSequence)] else [])
      && w.tracker.activeBreak.None?
      && w.tracker.destroyDelay
         == if due && (input.attackChanged || input.target.Some?) then 5
            else if input.attack && t.destroyDelay > 0 then t.destroyDelay - 1
            else t.destroyDelay
  {
    var begin := Work(t, [], None);
    var struck := CreativePhase(begin, input).value;
    PressesDestroyNothing(struck, input, profile, world, input.usePresses);
    PressesBracketed(struck, input, profile, world, input.usePresses, Closed);
    if struck.frames != [] {
      assert struck.frames == [] + [struck.frames[0]] && struck.frames[..0] == [];
    }
  }

  lemma OneDestroy(frame: Frame)
    requires frame.PlayerAction?
    ensures Destroys([frame]) == [frame]
  {
    assert [frame][..0] == [] && [frame][..|[frame]| - 1] == [];
  }

  lemma TwoDestroys(first: Frame, second: Frame)
    requires first.PlayerAction? && second.PlayerAction?
    ensures Destroys([first, second]) == [first, second]
  {
    DestroysMore([first], [second]);
    OneDestroy(first);
    OneDestroy(second);
    assert [first] + [second] == [first, second];
  }

  /**
    Outside Creative mode nothing is sent during the pause. After it a break that goes on sends its
    stop when its summed progress reaches 1; one that does not is aborted, before a new one starts on
    a breakable block in sight. `active` and `delay` are what is left.
   */
  predicate SurvivalActions(t: Tracker, input: Input, profile: Profile, sent: seq<Frame>, active: Option<ActiveBreak>,
      delay: nat)
  {
    if t.destroyDelay > 0 then sent == [] && active == t.activeBreak && delay == t.destroyDelay - 1
    else if GoesOn(t, input) then
      var target := t.activeBreak.value.target;
      var progress := profile.sum(t.activeBreak.value.progress, profile.progress(target.state, input.held));
      if progress >= 1.0 then
        sent == [Action(StopDestroy, target, t.nextSequence)] && active == None && delay == 5
      else sent == [] && active == Some(ActiveBreak(target, progress)) && delay == 0
    else
      var aborts := if t.activeBreak.None? then []
        else [Action(AbortDestroy, t.activeBreak.value.target, t.nextSequence)];
      var next := After(t.nextSequence, |aborts|);
      var starts := input.attack && Breakable(input, profile);
      && sent == aborts + (if starts then [Action(StartDestroy, input.target.value, next)] else [])
      && active == (if starts then Some(ActiveBreak(input.target.value, 0.0)) else None)
      && delay == 0
  }

  lemma SurvivalActs(t: Tracker, input: Input, profile: Profile)
    requires SurvivalPhase(Work(t, [], None), input, profile).Success?
    ensures var mined := SurvivalPhase(Work(t, [], None), input, profile).value;
      && SurvivalActions(t, input, profile, mined.frames, mined.tracker.activeBreak, mined.tracker.destroyDelay)
      && |mined.frames| <= 2 && forall i :: 0 <= i < |mined.frames| ==> mined.frames[i].PlayerAction?
  {
  }

  lemma SurvivalTick(t: Tracker, input: Input, profile: Profile, world: map<Position, Block>)
    requires !input.creative && Tick(t, input, profile, world).Success?
    ensures var w := Tick(t, input, profile, world).value;
      SurvivalActions(t, input, profile, Destroys(w.frames), w.tracker.activeBreak, w.tracker.destroyDelay)
  {
    var frames := SurvivalPhase(Work(t, [], None), input, profile).value.frames;
    SurvivalTickDestroys(t, input, profile, world);
    SurvivalActs(t, input, profile);
    assert Destroys(frames) == frames by {
      if |frames| == 1 {
        assert frames == [frames[0]];
        OneDestroy(frames[0]);
      } else if |frames| == 2 {
        assert frames == [frames[0], frames[1]];
        TwoDestroys(frames[0], frames[1]);
      }
    }
  }

  // ---- A whole tick ----

  /** The destroy actions come first, then one use frame for each press. */
  lemma TickFrames(t: Tracker, input: Input, profile: Profile, world: map<Position, Block>)
    requires Tick(t, input, profile, world).Success?
    ensures var w := Tick(t, input, profile, world).value;
      var k := |w.frames| - input.usePresses;
      && k >= 0
      && (forall i :: 0 <= i < k ==> w.frames[i].PlayerAction?)
      && (forall i :: k <= i < |w.frames| ==> IsUse(w.frames[i], input, profile))
  {
    var begin := Work(t, [], None);
    var mined := if input.creative then CreativePhase(begin, input) else SurvivalPhase(begin, input, profile);
    PressesExactly(mined.value, input, profile, world, input.usePresses);
    var w := Tick(t, input, profile, world).value;
    forall i | 0 <= i < |mined.value.frames| ensures w.frames[i].PlayerAction? {
      assert w.frames[..|mined.value.frames|][i] == mined.value.frames[i];
    }
  }

  /** With exact scaling the cracks are drawn in ten equal steps, and only between no and full progress. */
  lemma CracksDrawn(active: ActiveBreak, profile: Profile, stage: nat)
    requires profile.scaled(active.progress) == 10.0 * active.progress
    ensures OverlayOf(Some(active), profile) == Some(Overlay(active.target.position, active.target.state, stage))
       <==> 0.0 < active.progress < 1.0 && stage as real <= 10.0 * active.progress < stage as real + 1.0
    ensures OverlayOf(Some(active), profile).Some? <==> 0.0 < active.progress < 1.0
    ensures OverlayOf(None, profile) == None
  {
  }
}
