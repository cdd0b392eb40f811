/** The coalescing mailbox between the network and the renderer (world_render.rs). */
module RenderMailbox {
  import opened Wrappers

  const MAX_REMOTE_ENTITIES := 4096
  const GENERATIONS := 0x1_0000_0000_0000_0000

  type EntityId = int

  /** An entity as the renderer sees it; only its identity matters here. */
  datatype Entity = Entity(id: EntityId, appearance: int)

  type Chunk = int
  datatype Coordinate = Coordinate(x: int, z: int)

  datatype EntityDelta = Upsert(entity: Entity) | Remove(id: EntityId)
  datatype ChunkDelta = Loaded(chunk: Chunk) | Unloaded

  datatype PoseSample = PoseSample(pose: int, discontinuity: bool)

  datatype Metadata = Metadata(dimension: string, geometry: int, biomes: int)

  type GameMode = int

  /** Latest-wins slots; what a target, an overlay or an inventory holds does not matter here. */
  datatype Slots = Slots(gameMode: Option<GameMode>, target: Option<int>, breaking: Option<int>, inventory: Option<int>,
      metadata: Option<Metadata>)

  const BLANK := Slots(None, None, None, None, None)

  /** The entity part of an update: a full replacement, or one delta for each id. */
  datatype EntityChange = Replace(entities: map<EntityId, Entity>) | Deltas(deltas: map<EntityId, EntityDelta>)

  datatype Update = Update(
    generation: nat, reset: bool,
    pose: Option<PoseSample>, posePublishedAt: Option<int>, poseContainsJump: bool, slots: Slots,
    entities: EntityChange, chunks: map<Coordinate, ChunkDelta>)

  /** Entities are stored under their own ids. */
  predicate KeyedById(entities: map<EntityId, Entity>) {
    forall id :: id in entities ==> entities[id].id == id
  }

  datatype Mailbox = Mailbox(
    generation: nat, dirty: bool, reset: bool,
    pose: Option<PoseSample>, posePublishedAt: Option<int>, poseContainsJump: bool, slots: Slots,
    chunks: map<Coordinate, ChunkDelta>,
    entities: map<EntityId, EntityDelta>,
    replacement: Option<map<EntityId, Entity>>)

  const EMPTY := Mailbox(0, false, false, None, None, false, BLANK, map[], map[], None)

  function IdOf(delta: EntityDelta): EntityId {
    match delta case Upsert(e) => e.id case Remove(id) => id
  }

  /** Coalesces a delta; a full mailbox turns into a snapshot of the authoritative entities. */
  function PutEntity(m: Mailbox, delta: EntityDelta, authoritative: map<EntityId, Entity>): Mailbox {
    var id := IdOf(delta);
    var marked := m.(dirty := true);
    if m.replacement.Some? then
      marked.(replacement := Some(match delta
        case Upsert(e) => m.replacement.value[id := e]
        case Remove(_) => m.replacement.value - {id}))
    else if |m.entities| < MAX_REMOTE_ENTITIES || id in m.entities then
      marked.(entities := m.entities[id := delta])
    else
      marked.(entities := map[], replacement := Some(authoritative))
  }

  function PutChunk(m: Mailbox, at: Coordinate, delta: ChunkDelta): Mailbox {
    m.(chunks := m.chunks[at := delta], dirty := true)
  }

  /** Everything pending of the old world is dropped, except an inventory not taken yet. */
  function PutReset(m: Mailbox, metadata: Metadata, gameMode: GameMode): Mailbox {
    Mailbox((m.generation + 1) % GENERATIONS, true, true, None, None, false,
      Slots(Some(gameMode), None, None, m.slots.inventory, Some(metadata)), map[], map[], None)
  }

  function PutInventory(m: Mailbox, inventory: int): Mailbox {
    m.(slots := m.slots.(inventory := Some(inventory)), dirty := true)
  }

  /** The other slots mark the mailbox only when they change. */
  function PutSlots(m: Mailbox, slots: Slots): Mailbox {
    if m.slots == slots then m else m.(slots := slots, dirty := true)
  }

  /** A pose keeps the discontinuity of the pose it replaces, and the time of the last jump. */
  function PutPose(m: Mailbox, sample: PoseSample, jumped: bool, now: int): Mailbox {
    m.(pose := Some(sample.(discontinuity := sample.discontinuity || (m.pose.Some? && m.pose.value.discontinuity))),
       posePublishedAt := if jumped || !m.poseContainsJump then Some(now) else m.posePublishedAt,
       poseContainsJump := m.poseContainsJump || jumped,
       dirty := true)
  }

  function Taken(m: Mailbox): (Mailbox, Option<Update>) {
    if !m.dirty then (m, None)
    else
      var change := if m.replacement.Some? then Replace(m.replacement.value) else Deltas(m.entities);
      (Mailbox(m.generation, false, false, None, None, false, m.slots.(inventory := None), map[], map[], None),
       Some(Update(m.generation, m.reset, m.pose, m.posePublishedAt, m.poseContainsJump, m.slots, change, m.chunks)))
  }

  /** The mailbox both endpoints share, updated in place under its lock. */
  class SharedMailbox {
    var generation: nat
    var dirty: bool
    var reset: bool
    var metadata: Option<Metadata>
    var pose: Option<PoseSample>
    var posePublishedAt: Option<int>
    var poseContainsJump: bool
    var gameMode: Option<GameMode>
    var target: Option<int>
    var breaking: Option<int>
    var inventory: Option<int>
    var chunks: map<Coordinate, ChunkDelta>
    var entities: map<EntityId, EntityDelta>
    var replacement: Option<map<EntityId, Entity>>

    function Value(): Mailbox
      reads this
    {
      Mailbox(generation, dirty, reset, pose, posePublishedAt, poseContainsJump,
        Slots(gameMode, target, breaking, inventory, metadata), chunks, entities, replacement)
    }

    constructor ()
      ensures Value() == EMPTY
    {
      generation, dirty, reset, metadata := 0, false, false, None;
      gameMode, target, breaking, inventory := None, None, None, None;
      pose, posePublishedAt, poseContainsJump := None, None, false;
      chunks, entities, replacement := map[], map[], None;
    }

    method PublishEntity(delta: EntityDelta, authoritative: map<EntityId, Entity>)
      modifies this
      ensures Value() == PutEntity(old(Value()), delta, authoritative)
    {
      var id := IdOf(delta);
      if replacement.Some? {
        match delta {
          case Upsert(e) => replacement := Some(replacement.value[id := e]);
          case Remove(_) => replacement := Some(replacement.value - {id});
        }
      } else if |entities| < MAX_REMOTE_ENTITIES || id in entities {
        entities := entities[id := delta];
      } else {
        entities := map[];
        replacement := Some(authoritative);
      }
      dirty := true;
    }

    /** Drops the deltas and the pose. */
    method DropPending()
      modifies this
      ensures Value() == old(Value()).(pose := None, posePublishedAt := None, poseContainsJump := false,
                                       chunks := map[], entities := map[], replacement := None)
    {
      pose, posePublishedAt, poseContainsJump := None, None, false;
      chunks, entities, replacement := map[], map[], None;
    }

    method PublishReset(data: Metadata, mode: GameMode)
      modifies this
      ensures Value() == PutReset(old(Value()), data, mode)
    {
      DropPending();
      generation := (generation + 1) % GENERATIONS;
      metadata, gameMode := Some(data), Some(mode);
      target, breaking := None, None;
      dirty, reset := true, true;
    }

    method PublishInventory(state: int)
      modifies this
      ensures Value() == PutInventory(old(Value()), state)
    {
      inventory := Some(state);
      dirty := true;
    }

    method PublishGameMode(mode: GameMode)
      modifies this
      ensures Value() == PutSlots(old(Value()), old(Value()).slots.(gameMode := Some(mode)))
    {
      if gameMode != Some(mode) {
        gameMode := Some(mode);
        dirty := true;
      }
    }

    method PublishTarget(seen: Option<int>)
      modifies this
      ensures Value() == PutSlots(old(Value()), old(Value()).slots.(target := seen))
    {
      if target != seen {
        target := seen;
        dirty := true;
      }
    }

    method PublishBreaking(overlay: Option<int>)
      modifies this
      ensures Value() == PutSlots(old(Value()), old(Value()).slots.(breaking := overlay))
    {
      if breaking != overlay {
        breaking := overlay;
        dirty := true;
      }
    }

    method Load(at: Coordinate, chunk: Chunk)
      modifies this
      ensures Value() == PutChunk(old(Value()), at, Loaded(chunk))
    {
      chunks := chunks[at := Loaded(chunk)];
      dirty := true;
    }

    method Unload(at: Coordinate)
      modifies this
      ensures Value() == PutChunk(old(Value()), at, Unloaded)
    {
      chunks := chunks[at := Unloaded];
      dirty := true;
    }

    method SetPose(sample: PoseSample, jumped: bool, now: int)
      modifies this
      ensures Value() == PutPose(old(Value()), sample, jumped, now)
    {
      var discontinuity := sample.discontinuity || (pose.Some? && pose.value.discontinuity);
      pose := Some(sample.(discontinuity := discontinuity));
      if jumped || !poseContainsJump {
        posePublishedAt := Some(now);
      }
      poseContainsJump := poseContainsJump || jumped;
      dirty := true;
    }

    method TakeUpdate() returns (update: Option<Update>)
      modifies this
      ensures (Value(), update) == Taken(old(Value()))
    {
      if !dirty {
        return None;
      }
      var change := if replacement.Some? then Replace(replacement.value) else Deltas(entities);
      update := Some(Update(generation, reset, pose, posePublishedAt, poseContainsJump,
        Slots(gameMode, target, breaking, inventory, metadata), change, chunks));
      DropPending();
      dirty, reset := false, false;
      inventory := None;
    }
  }

  // ---- The consumer ----

  /**
    The maps, the newest pose and the screen a renderer keeps (cubic-render/src/world.rs applies
    updates this way, cubic-platform/src/lib.rs the inventory and the game mode).
   */
  datatype Consumer = Consumer(generation: nat, entities: map<EntityId, Entity>, chunks: map<Coordinate, Chunk>,
      pose: Option<int>, screen: Slots)

  function Fresher<T>(news: Option<T>, known: Option<T>): Option<T> {
    if news.Some? then news else known
  }

  /** Target and overlay are replaced by every update, the others only by one that has them. */
  function ApplySlots(screen: Slots, slots: Slots): Slots {
    Slots(Fresher(slots.gameMode, screen.gameMode), slots.target, slots.breaking,
      Fresher(slots.inventory, screen.inventory), Fresher(slots.metadata, screen.metadata))
  }

  function ApplyDeltas(entities: map<EntityId, Entity>, deltas: map<EntityId, EntityDelta>): map<EntityId, Entity> {
    map id | id in entities.Keys + deltas.Keys && (id in deltas ==> deltas[id].Upsert?) ::
      if id in deltas then deltas[id].entity else entities[id]
  }

  function ApplyChange(entities: map<EntityId, Entity>, change: EntityChange): map<EntityId, Entity> {
    match change
    case Replace(all) => all
    case Deltas(deltas) => ApplyDeltas(entities, deltas)
  }

  function ApplyChunks(chunks: map<Coordinate, Chunk>, deltas: map<Coordinate, ChunkDelta>): map<Coordinate, Chunk> {
    map at | at in chunks.Keys + deltas.Keys && (at in deltas ==> deltas[at].Loaded?) ::
      if at in deltas then deltas[at].chunk else chunks[at]
  }

  /** A reset, or another generation, forgets the maps and the pose. */
  function Apply(c: Consumer, u: Update): Consumer {
    var base := if u.reset || u.generation != c.generation then Forgotten(c, u.generation) else c;
    Consumer(base.generation, ApplyChange(base.entities, u.entities), ApplyChunks(base.chunks, u.chunks),
      Fresher(if u.pose.Some? then Some(u.pose.value.pose) else None, base.pose), ApplySlots(c.screen, u.slots))
  }

  function Forgotten(c: Consumer, generation: nat): Consumer {
    Consumer(generation, map[], map[], None, c.screen)
  }
}
