/**
  Runs of publications and takes over the render mailbox: the consumer always reconstructs what has
  been published (world_render.rs with the publishing loops of chat_session.rs).
 */
module RenderRuns {
  import opened Wrappers
  import opened RenderMailbox

  datatype Event =
    | ChangeEntities(ids: seq<EntityId>, entities: map<EntityId, Entity>)
    | ChangeChunks(coordinates: seq<Coordinate>, chunks: map<Coordinate, Chunk>)
    | PublishNextEntity
    | PublishNextChunk
    | ClearWorld
    | AnnounceReset(metadata: Metadata, gameMode: GameMode)
    | SetInventory(inventory: int)
    | SetGameMode(mode: GameMode)
    | ShowTarget(target: Option<int>)
    | ShowBreaking(breaking: Option<int>)
    | Pose(sample: PoseSample, jumped: bool, now: int)
    | Take

  /**
    The authoritative maps, the keys changed but not yet published (in publication order), whether
    a cleared world still has to be announced, the last pose since the last announcement, the slots
    as last published, how often a reset was announced, the mailbox and the consumer.
   */
  datatype World = World(
    entities: map<EntityId, Entity>, chunks: map<Coordinate, Chunk>,
    entityQueue: seq<EntityId>, chunkQueue: seq<Coordinate>, resetDue: bool, pose: Option<int>, screen: Slots,
    resets: nat, mailbox: Mailbox, consumer: Consumer)

  const START := World(map[], map[], [], [], false, None, BLANK, 0, EMPTY, Consumer(0, map[], map[], None, BLANK))

  function Lookup<K, V>(m: map<K, V>, k: K): Option<V> {
    if k in m then Some(m[k]) else None
  }

  /** The maps agree except perhaps on the given keys. */
  ghost predicate AgreeOutside<K(!new), V>(a: map<K, V>, b: map<K, V>, keys: seq<K>) {
    forall k :: k !in keys ==> Lookup(a, k) == Lookup(b, k)
  }

  function EntityDeltaFor(entities: map<EntityId, Entity>, id: EntityId): EntityDelta {
    if id in entities then Upsert(entities[id]) else Remove(id)
  }

  function ChunkDeltaFor(chunks: map<Coordinate, Chunk>, at: Coordinate): ChunkDelta {
    if at in chunks then Loaded(chunks[at]) else Unloaded
  }

  predicate OnSlots(e: Event) {
    e.SetInventory? || e.SetGameMode? || e.ShowTarget? || e.ShowBreaking?
  }

  function PutSlot(m: Mailbox, e: Event): Mailbox
    requires OnSlots(e)
  {
    match e
    case SetInventory(inventory) => PutInventory(m, inventory)
    case SetGameMode(mode) => PutSlots(m, m.slots.(gameMode := Some(mode)))
    case ShowTarget(target) => PutSlots(m, m.slots.(target := target))
    case ShowBreaking(breaking) => PutSlots(m, m.slots.(breaking := breaking))
  }

  /** The slots once the event is published. */
  function Drawn(screen: Slots, e: Event): Slots
    requires OnSlots(e)
  {
    match e
    case SetInventory(inventory) => screen.(inventory := Some(inventory))
    case SetGameMode(mode) => screen.(gameMode := Some(mode))
    case ShowTarget(target) => screen.(target := target)
    case ShowBreaking(breaking) => screen.(breaking := breaking)
  }

  /**
    A change alters the store at most on the listed keys and queues them; each publication then
    sends the current state of the next key. Takes fall anywhere, also between two publications of
    one change. After the world is cleared nothing changes before the reset is announced.
   */
  ghost function Step(w: World, e: Event): World {
    match e
    case ChangeEntities(ids, entities) =>
      if !w.resetDue && AgreeOutside(w.entities, entities, ids) && KeyedById(entities) then
        w.(entities := entities, entityQueue := w.entityQueue + ids)
      else w
    case ChangeChunks(coordinates, chunks) =>
      if !w.resetDue && AgreeOutside(w.chunks, chunks, coordinates) then
        w.(chunks := chunks, chunkQueue := w.chunkQueue + coordinates)
      else w
    case PublishNextEntity =>
      if w.entityQueue == [] then w
      else
        var delta := EntityDeltaFor(w.entities, w.entityQueue[0]);
        w.(mailbox := PutEntity(w.mailbox, delta, w.entities), entityQueue := w.entityQueue[1..])
    case PublishNextChunk =>
      if w.chunkQueue == [] then w
      else
        var at := w.chunkQueue[0];
        w.(mailbox := PutChunk(w.mailbox, at, ChunkDeltaFor(w.chunks, at)), chunkQueue := w.chunkQueue[1..])
    case ClearWorld => w.(entities := map[], chunks := map[], entityQueue := [], chunkQueue := [], resetDue := true)
    case AnnounceReset(metadata, mode) =>
      if w.resetDue then
        w.(mailbox := PutReset(w.mailbox, metadata, mode), resetDue := false, pose := None, resets := w.resets + 1,
           screen := Slots(Some(mode), None, None, w.screen.inventory, Some(metadata)))
      else w
    case Pose(sample, jumped, now) =>
      w.(mailbox := PutPose(w.mailbox, sample, jumped, now), pose := Some(sample.pose))
    case Take =>
      var (mailbox, update) := Taken(w.mailbox);
      w.(mailbox := mailbox, consumer := match update case None => w.consumer case Some(u) => Apply(w.consumer, u))
    case _ => w.(mailbox := PutSlot(w.mailbox, e), screen := Drawn(w.screen, e))
  }

  ghost function Run(w: World, events: seq<Event>): World
    decreases |events|
  {
    if events == [] then w else Run(Step(w, events[0]), events[1..])
  }

  /** The consumer as the next update finds it, after the reset the update may carry. */
  function Base(m: Mailbox, c: Consumer): Consumer {
    if m.reset || m.generation != c.generation then Forgotten(c, m.generation) else c
  }

  /** The entity the consumer would show under `id` if everything pending reached it now. */
  function EntityView(m: Mailbox, c: Consumer, id: EntityId): Option<Entity> {
    if m.replacement.Some? then Lookup(m.replacement.value, id)
    else if id in m.entities then
      match m.entities[id] case Upsert(e) => Some(e) case Remove(_) => None
    else Lookup(Base(m, c).entities, id)
  }

  function ChunkView(m: Mailbox, c: Consumer, at: Coordinate): Option<Chunk> {
    if at in m.chunks then
      match m.chunks[at] case Loaded(chunk) => Some(chunk) case Unloaded => None
    else Lookup(Base(m, c).chunks, at)
  }

  function PoseView(m: Mailbox, c: Consumer): Option<int> {
    if m.pose.Some? then Some(m.pose.value.pose) else Base(m, c).pose
  }

  /** The mailbox is bounded, and clean unless marked; generations match unless a reset is pending. */
  predicate Tidy(m: Mailbox, c: Consumer) {
    && |m.entities| <= MAX_REMOTE_ENTITIES
    && (m.replacement.Some? ==> m.entities == map[])
    && (!m.dirty ==> !m.reset && m.chunks == map[] && m.entities == map[] && m.replacement == None && m.pose == None)
    && (m.reset || m.generation == c.generation)
    && (forall id :: id in m.entities ==> IdOf(m.entities[id]) == id)
  }

  ghost predicate EntitiesShown(w: World) {
    forall id :: id !in w.entityQueue ==> EntityView(w.mailbox, w.consumer, id) == Lookup(w.entities, id)
  }

  ghost predicate ChunksShown(w: World) {
    forall at :: at !in w.chunkQueue ==> ChunkView(w.mailbox, w.consumer, at) == Lookup(w.chunks, at)
  }

  /** What is pending, over what the consumer shows, is the slots as last published. */
  predicate SlotsShown(m: Mailbox, shown: Slots, screen: Slots) {
    && screen == ApplySlots(shown, m.slots)
    && (m.slots.gameMode.None? ==> shown.gameMode.None?)
    && (m.slots.metadata.None? ==> shown.metadata.None?)
    && (!m.dirty ==> shown == screen)
  }

  /**
    The consumer's maps overlaid with what is pending equal the authoritative maps on every key
    whose last change has been published.
   */
  ghost predicate Coherent(w: World) {
    && Tidy(w.mailbox, w.consumer)
    && KeyedById(w.entities)
    && SlotsShown(w.mailbox, w.consumer.screen, w.screen)
    && PoseView(w.mailbox, w.consumer) == w.pose
    && w.mailbox.generation == w.resets % GENERATIONS
    && (w.resetDue ==> w.entities == map[] && w.chunks == map[] && w.entityQueue == [] && w.chunkQueue == [])
    && (!w.resetDue ==> EntitiesShown(w) && ChunksShown(w))
  }

  lemma ApplyDeltasAt(entities: map<EntityId, Entity>, deltas: map<EntityId, EntityDelta>, id: EntityId)
    ensures Lookup(ApplyDeltas(entities, deltas), id)
         == if id in deltas then (match deltas[id] case Upsert(e) => Some(e) case Remove(_) => None)
           else Lookup(entities, id)
  {
  }

  lemma ApplyChunksAt(chunks: map<Coordinate, Chunk>, deltas: map<Coordinate, ChunkDelta>, at: Coordinate)
    ensures Lookup(ApplyChunks(chunks, deltas), at)
         == if at in deltas then (match deltas[at] case Loaded(chunk) => Some(chunk) case Unloaded => None)
           else Lookup(chunks, at)
  {
  }

  /** Taking and applying the pending update shows exactly the views. */
  lemma ApplyShowsViews(m: Mailbox, c: Consumer)
    requires m.dirty
    ensures var after := Apply(c, Taken(m).1.value);
      && after.generation == m.generation && after.pose == PoseView(m, c)
      && (forall id :: Lookup(after.entities, id) == EntityView(m, c, id))
      && (forall at :: Lookup(after.chunks, at) == ChunkView(m, c, at))
  {
    var after, base := Apply(c, Taken(m).1.value), Base(m, c);
    assert after == Consumer(m.generation,
      if m.replacement.Some? then m.replacement.value else ApplyDeltas(base.entities, m.entities),
      ApplyChunks(base.chunks, m.chunks), PoseView(m, c), ApplySlots(c.screen, m.slots));
    forall id ensures Lookup(after.entities, id) == EntityView(m, c, id) {
      ApplyDeltasAt(base.entities, m.entities, id);
    }
    forall at ensures Lookup(after.chunks, at) == ChunkView(m, c, at) {
      ApplyChunksAt(base.chunks, m.chunks, at);
    }
  }

  lemma PutEntityBounded(m: Mailbox, delta: EntityDelta, authoritative: map<EntityId, Entity>)
    requires |m.entities| <= MAX_REMOTE_ENTITIES
    ensures |PutEntity(m, delta, authoritative).entities| <= MAX_REMOTE_ENTITIES
  {
    var id := IdOf(delta);
    if m.replacement.None? && |m.entities| == MAX_REMOTE_ENTITIES && id in m.entities {
      assert m.entities[id := delta].Keys == m.entities.Keys;
      assert |m.entities[id := delta]| == |m.entities[id := delta].Keys|;
    }
  }

  /** A published delta shows the authoritative state of its id; every other view stays, or all turn authoritative. */
  lemma PutEntityView(m: Mailbox, c: Consumer, entities: map<EntityId, Entity>, id: EntityId, k: EntityId)
    requires KeyedById(entities)
    ensures var view := EntityView(PutEntity(m, EntityDeltaFor(entities, id), entities), c, k);
      view == Lookup(entities, k) || (k != id && view == EntityView(m, c, k))
  {
  }

  lemma PutEntityKeeps(w: World)
    requires Coherent(w) && w.entityQueue != []
    ensures Coherent(Step(w, PublishNextEntity))
  {
    var id, delta := w.entityQueue[0], EntityDeltaFor(w.entities, w.entityQueue[0]);
    var next := Step(w, PublishNextEntity);
    PutEntityBounded(w.mailbox, delta, w.entities);
    PutEntityLeavesRest(w.mailbox, w.consumer, delta, w.entities);
    assert w.entityQueue == [id] + next.entityQueue;
    forall k | k !in next.entityQueue ensures EntityView(next.mailbox, next.consumer, k) == Lookup(next.entities, k) {
      PutEntityView(w.mailbox, w.consumer, w.entities, id, k);
    }
  }

  lemma PutEntityLeavesRest(m: Mailbox, c: Consumer, delta: EntityDelta, entities: map<EntityId, Entity>)
    ensures var next := PutEntity(m, delta, entities);
      && next.dirty && next == m.(dirty := true, entities := next.entities, replacement := next.replacement)
      && forall at :: ChunkView(next, c, at) == ChunkView(m, c, at)
  {
  }

  lemma PutChunkKeeps(w: World)
    requires Coherent(w) && w.chunkQueue != []
    ensures Coherent(Step(w, PublishNextChunk))
  {
    var at := w.chunkQueue[0];
    var next := Step(w, PublishNextChunk);
    assert w.chunkQueue == [at] + next.chunkQueue;
    forall id ensures EntityView(next.mailbox, next.consumer, id) == EntityView(w.mailbox, w.consumer, id) { }
  }

  lemma TakeKeeps(w: World)
    requires Coherent(w)
    ensures Coherent(Step(w, Take))
    ensures forall id :: EntityView(w.mailbox, w.consumer, id) == Lookup(Step(w, Take).consumer.entities, id)
    ensures forall at :: ChunkView(w.mailbox, w.consumer, at) == Lookup(Step(w, Take).consumer.chunks, at)
  {
    if w.mailbox.dirty { ApplyShowsViews(w.mailbox, w.consumer); }
  }

  lemma PoseKeeps(w: World, sample: PoseSample, jumped: bool, now: int)
    requires Coherent(w)
    ensures Coherent(Step(w, Pose(sample, jumped, now)))
  {
    var next := Step(w, Pose(sample, jumped, now));
    forall id ensures EntityView(next.mailbox, next.consumer, id) == EntityView(w.mailbox, w.consumer, id) { }
    forall at ensures ChunkView(next.mailbox, next.consumer, at) == ChunkView(w.mailbox, w.consumer, at) { }
  }

  lemma ResetKeeps(w: World, metadata: Metadata, mode: GameMode)
    requires Coherent(w)
    ensures Coherent(Step(w, AnnounceReset(metadata, mode)))
  {
    if w.resetDue {
      ResetBlanks(w.mailbox, w.consumer, metadata, mode);
    } else {
      assert Step(w, AnnounceReset(metadata, mode)) == w;
    }
  }

  lemma ResetBlanks(m: Mailbox, c: Consumer, metadata: Metadata, mode: GameMode)
    ensures var next := PutReset(m, metadata, mode);
      && Tidy(next, c) && PoseView(next, c) == None
      && (forall id :: EntityView(next, c, id) == None) && (forall at :: ChunkView(next, c, at) == None)
  {
  }

  lemma SlotsKeep(w: World, mailbox: Mailbox, screen: Slots)
    requires Coherent(w) && mailbox == w.mailbox.(slots := mailbox.slots, dirty := mailbox.dirty)
    requires mailbox.dirty || mailbox == w.mailbox
    requires SlotsShown(mailbox, w.consumer.screen, screen)
    ensures Coherent(w.(mailbox := mailbox, screen := screen))
  {
    forall id ensures EntityView(mailbox, w.consumer, id) == EntityView(w.mailbox, w.consumer, id) { }
    forall at ensures ChunkView(mailbox, w.consumer, at) == ChunkView(w.mailbox, w.consumer, at) { }
  }

  lemma SlotShows(m: Mailbox, shown: Slots, screen: Slots, e: Event)
    requires SlotsShown(m, shown, screen) && OnSlots(e)
    ensures SlotsShown(PutSlot(m, e), shown, Drawn(screen, e))
    ensures PutSlot(m, e) == m.(slots := PutSlot(m, e).slots, dirty := PutSlot(m, e).dirty)
    ensures PutSlot(m, e).dirty || PutSlot(m, e) == m
  {
  }

  lemma SlotStepKeeps(w: World, e: Event)
    requires Coherent(w) && OnSlots(e)
    ensures Coherent(Step(w, e))
  {
    SlotShows(w.mailbox, w.consumer.screen, w.screen, e);
    SlotsKeep(w, Step(w, e).mailbox, Step(w, e).screen);
  }

  lemma StepKeeps(w: World, e: Event)
    requires Coherent(w)
    ensures Coherent(Step(w, e))
  {
    match e
    case AnnounceReset(metadata, mode) => ResetKeeps(w, metadata, mode);
    case SetInventory(_) => SlotStepKeeps(w, e);
    case SetGameMode(_) => SlotStepKeeps(w, e);
    case ShowTarget(_) => SlotStepKeeps(w, e);
    case ShowBreaking(_) => SlotStepKeeps(w, e);
    case PublishNextEntity => if w.entityQueue != [] { PutEntityKeeps(w); }
    case PublishNextChunk => if w.chunkQueue != [] { PutChunkKeeps(w); }
    case Pose(sample, jumped, now) => PoseKeeps(w, sample, jumped, now);
    case Take => TakeKeeps(w);
    case _ =>
  }

  lemma {:induction false} RunKeeps(w: World, events: seq<Event>)
    requires Coherent(w)
    ensures Coherent(Run(w, events))
    decreases |events|
  {
    if events != [] {
      StepKeeps(w, events[0]);
      RunKeeps(Step(w, events[0]), events[1..]);
    }
  }

  /** Maps that agree everywhere are equal. */
  lemma SameLookups<K(!new), V>(a: map<K, V>, b: map<K, V>)
    requires forall k :: Lookup(a, k) == Lookup(b, k)
    ensures a == b
  {
    assert forall k :: (k in a <==> Lookup(a, k).Some?) && (k in b <==> Lookup(b, k).Some?);
    assert a.Keys == b.Keys;
    forall k | k in a ensures a[k] == b[k] { assert Lookup(a, k) == Lookup(b, k); }
  }

  /** One take after the last publication gives the consumer exactly the authoritative maps. */
  lemma DrainedAfterTake(w: World)
    requires Coherent(w) && w.entityQueue == [] && w.chunkQueue == [] && !w.resetDue
    ensures Step(w, Take).consumer.entities == w.entities && Step(w, Take).consumer.chunks == w.chunks
  {
    var after := Step(w, Take).consumer;
    TakeKeeps(w);
    assert EntitiesShown(w) && ChunksShown(w);
    forall id ensures Lookup(after.entities, id) == Lookup(w.entities, id) {
      assert EntityView(w.mailbox, w.consumer, id) == Lookup(w.entities, id);
    }
    forall at ensures Lookup(after.chunks, at) == Lookup(w.chunks, at) {
      assert ChunkView(w.mailbox, w.consumer, at) == Lookup(w.chunks, at);
    }
    SameLookups(after.entities, w.entities);
    SameLookups(after.chunks, w.chunks);
  }

  /**
    In every run the overlay equals the authoritative maps on every published key; and when nothing
    is unpublished and a take finds nothing, the consumer holds exactly the authoritative maps. A
    take that finds nothing also means that it shows the last pose and the slots as last published,
    under the number of the last reset.
   */
  lemma ConsumerReconstructs(events: seq<Event>)
    ensures var end := Run(START, events);
      && Coherent(end)
      && (!end.mailbox.dirty ==>
            && end.consumer.screen == end.screen && end.consumer.pose == end.pose
            && end.consumer.generation == end.resets % GENERATIONS)
      && (!end.mailbox.dirty && end.entityQueue == [] && end.chunkQueue == [] && !end.resetDue ==>
            end.consumer.entities == end.entities && end.consumer.chunks == end.chunks)
  {
    RunKeeps(START, events);
    var end := Run(START, events);
    if !end.mailbox.dirty && end.entityQueue == [] && end.chunkQueue == [] && !end.resetDue {
      DrainedAfterTake(end);
    }
  }

  // ---- Poses coalesced between two takes ----

  datatype PoseCall = PoseCall(sample: PoseSample, jumped: bool, now: int)

  function PutPoses(m: Mailbox, calls: seq<PoseCall>): Mailbox {
    if calls == [] then m
    else
      var last := calls[|calls| - 1];
      PutPose(PutPoses(m, calls[..|calls| - 1]), last.sample, last.jumped, last.now)
  }

  /** The time of the last jump among the calls, if there is one. */
  function LastJump(calls: seq<PoseCall>): Option<int> {
    if calls == [] then None
    else if calls[|calls| - 1].jumped then Some(calls[|calls| - 1].now)
    else LastJump(calls[..|calls| - 1])
  }

  /**
    However many poses were coalesced, the one taken is the last, it is a discontinuity if any of
    them was, and it is dated by the last jump among them, or by the last pose if none jumped.
   */
  lemma {:induction false} PosesCoalesce(m: Mailbox, calls: seq<PoseCall>)
    requires calls != [] && m.pose == None && !m.poseContainsJump
    ensures var r, last := PutPoses(m, calls), calls[|calls| - 1];
      && r.pose.Some? && r.pose.value.pose == last.sample.pose
      && (r.pose.value.discontinuity <==> exists i :: 0 <= i < |calls| && calls[i].sample.discontinuity)
      && (r.poseContainsJump <==> LastJump(calls).Some?)
      && r.posePublishedAt == if LastJump(calls).Some? then LastJump(calls) else Some(last.now)
    decreases |calls|
  {
    var init := calls[..|calls| - 1];
    if init != [] { PosesCoalesce(m, init); }
    assert forall i :: 0 <= i < |init| ==> init[i] == calls[i];
    if PutPoses(m, calls).pose.value.discontinuity && !calls[|calls| - 1].sample.discontinuity {
      var i :| 0 <= i < |init| && init[i].sample.discontinuity;
      assert calls[i].sample.discontinuity;
    }
  }
}
