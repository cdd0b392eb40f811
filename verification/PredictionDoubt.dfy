/**
  After a stale step (world_movement.rs wired by chat_session.rs): the worlds disagree only where one
  hit, and fresh news from the server ends it.
 */
module PredictionDoubt {
  import opened Wrappers
  import opened Bytes
  import opened BlockInteraction
  import opened InteractionTicks
  import opened PredictionQueue
  import opened PredictionRuns

  /** The worlds agree on every position not in doubt. */
  predicate AgreementExcept(local: World, server: World, predictions: seq<Prediction>, doubt: set<Position>) {
    local.Keys == server.Keys && Agreement(local - doubt, server - doubt, predictions)
  }

  predicate OkExcept(s: System, doubt: set<Position>) {
    QueueOk(s.tracker) && AgreementExcept(s.local, s.server, s.tracker.predictions, doubt)
  }

  /** Positions where a loaded chunk overwrites a prediction. */
  function Overwritten(chunk: World, predictions: seq<Prediction>): set<Position> {
    set i | 0 <= i < |predictions| && predictions[i].position in chunk
      && !(chunk[predictions[i].position] == predictions[i].expected == predictions[i].serverState)
      :: predictions[i].position
  }

  /** Positions with an update and no prediction. */
  function Refreshed(predictions: seq<Prediction>, updates: seq<BlockUpdate>): set<Position> {
    set i | 0 <= i < |updates| && !Pending(predictions, updates[i].position) :: updates[i].position
  }

  /**
    A stale step puts the positions it hits in doubt; an update with nothing pending, a load that
    overwrites no prediction there, an unload and a reset take positions out.
   */
  function Doubt(s: System, profile: Profile, e: Event, doubt: set<Position>): set<Position> {
    match e
    case DoTick(_) => if StaleBreak(s, profile, e) then doubt + {s.tracker.activeBreak.value.target.position} else doubt
    case ServerUpdate(updates) => doubt - Refreshed(s.tracker.predictions, updates)
    case Ack(_) => doubt
    case LoadChunk(chunk) => (doubt - chunk.Keys) + Overwritten(chunk, s.tracker.predictions)
    case UnloadChunk(gone) => doubt - gone
    case Reset(_) => {}
  }

  function Doubts(s: System, profile: Profile, events: seq<Event>, doubt: set<Position>): set<Position>
    decreases |events|
  {
    if events == [] then doubt
    else Doubts(Step(s, profile, events[0]), profile, events[1..], Doubt(s, profile, events[0], doubt))
  }

  lemma MoreDoubt(local: World, server: World, predictions: seq<Prediction>, doubt: set<Position>, more: set<Position>)
    requires AgreementExcept(local, server, predictions, doubt)
    ensures AgreementExcept(local, server, predictions, doubt + more)
  {
    UnloadAgreement(local - doubt, server - doubt, predictions, more);
    assert local - doubt - more == local - (doubt + more) && server - doubt - more == server - (doubt + more);
  }

  lemma {:induction false} PutAllMinus(world: World, updates: seq<BlockUpdate>, gone: set<Position>)
    ensures PutAll(world - gone, updates) == PutAll(world, updates) - gone
    decreases |updates|
  {
    if updates != [] {
      PutMinus(world, updates[0], gone);
      PutAllMinus(Put(world, updates[0]), updates[1..], gone);
    }
  }

  lemma PutMinus(world: World, u: BlockUpdate, gone: set<Position>)
    ensures Put(world - gone, u) == Put(world, u) - gone
  {
    var a, b := Put(world - gone, u), Put(world, u) - gone;
    assert a.Keys == b.Keys;
    forall q | q in a ensures a[q] == b[q] { }
  }

  // ---- Ticks ----

  /** A prediction at a position that is not loaded disturbs nothing. */
  lemma RegisterUnloaded(local: World, server: World, before: seq<Prediction>, p: Prediction)
    requires Agreement(local, server, before) && DistinctPositions(before) && p.position !in local
    ensures Agreement(local, server, Register(before, p).0)
  {
    var k := Find(before, p.position);
    RemoveAgreement(local, server, before, p.position);
    if k < |before| {
      AddUnloaded(local, server, Without(before, k), before[k].(sequence := p.sequence, expected := p.expected));
    } else if |before| != MAX_BLOCK_PREDICTIONS {
      AddUnloaded(local, server, before, p);
    }
  }

  lemma AddUnloaded(local: World, server: World, rest: seq<Prediction>, p: Prediction)
    requires AgreementAway(local, server, rest, p.position) && p.position !in local
    ensures Agreement(local, server, rest + [p])
  {
    var after := rest + [p];
    forall x | x in local && !Pending(after, x) ensures local[x] == server[x] {
      PendingStays(rest, p, x);
    }
  }

  lemma PendingStays(rest: seq<Prediction>, p: Prediction, x: Position)
    ensures Pending(rest, x) ==> Pending(rest + [p], x)
  {
    PendingMeans(rest, x);
    PendingMeans(rest + [p], x);
    if i :| 0 <= i < |rest| && rest[i].position == x { assert (rest + [p])[i].position == x; }
  }

  /** A prediction noting the state shown keeps agreement outside any doubt, and within doubt any prediction does. */
  lemma RegisterExcept(local: World, server: World, before: seq<Prediction>, p: Prediction, doubt: set<Position>)
    requires AgreementExcept(local, server, before, doubt) && DistinctPositions(before) && Register(before, p).1
    requires p.position in local && p.position !in doubt ==>
      Pending(before, p.position) || local[p.position] == p.serverState
    ensures AgreementExcept(Put(local, BlockUpdate(p.position, p.expected)), server, Register(before, p).0, doubt)
  {
    PutMinus(local, BlockUpdate(p.position, p.expected), doubt);
    if p.position in local && p.position !in doubt {
      RegisterAgreement(local - doubt, server - doubt, before, p);
    } else {
      RegisterUnloaded(local - doubt, server - doubt, before, p);
    }
  }

  lemma TickExcept(s: System, profile: Profile, input: Input, doubt: set<Position>)
    requires OkExcept(s, doubt) && Admissible(s, profile, DoTick(input))
    ensures var next := Step(s, profile, DoTick(input));
      AgreementExcept(next.local, next.server, next.tracker.predictions, Doubt(s, profile, DoTick(input), doubt))
  {
    var t, after := s.tracker, Doubt(s, profile, DoTick(input), doubt);
    var r := Tick(t, input, profile, s.local);
    MoreDoubt(s.local, s.server, t.predictions, doubt, after);
    assert doubt + after == after;
    if r.Success? && r.value.predicted.Some? {
      var w := r.value;
      TickPredictsOnce(t, input, profile, s.local);
      var p: Prediction, i: nat :| Adds(t.predictions, w.tracker.predictions, p, w.predicted.value)
        && i < |w.frames| && p.sequence == After(t.nextSequence, i) && Observed(t, input, profile, s.local, p);
      RegisterExcept(s.local, s.server, t.predictions, p, after);
    } else if r.Success? {
      TickPredictsOnce(t, input, profile, s.local);
    }
  }

  // ---- Updates ----

  lemma PendingSame(a: seq<Prediction>, b: seq<Prediction>, q: Position)
    requires SameShape(a, b)
    ensures Pending(a, q) <==> Pending(b, q)
  {
    PendingMeans(a, q);
    PendingMeans(b, q);
    SamePositions(a, b, q);
  }

  /** Where nothing is pending, both worlds receive the same updates. */
  lemma {:induction false} UpdatedAlike(local: World, server: World, predictions: seq<Prediction>,
      updates: seq<BlockUpdate>, q: Position)
    requires q in local && q in server && !Pending(predictions, q)
    requires local[q] == server[q] || exists i :: 0 <= i < |updates| && updates[i].position == q
    ensures PutAll(local, Reconciled(predictions, updates).1)[q] == PutAll(server, updates)[q]
    decreases |updates|
  {
    if updates != [] {
      var u, rest := updates[0], updates[1..];
      var later := Reconciled(Retain(predictions, u), rest).1;
      RetainSame(predictions, u);
      PendingSame(predictions, Retain(predictions, u), q);
      if u.position != q && local[q] != server[q] {
        var i :| 0 <= i < |updates| && updates[i].position == q;
        assert rest[i - 1].position == q;
      }
      var shown := if Pending(predictions, u.position) then local else Put(local, u);
      UpdatedAlike(shown, Put(server, u), Retain(predictions, u), rest, q);
      assert ([u] + later)[0] == u && ([u] + later)[1..] == later;
    }
  }

  lemma RetainSame(predictions: seq<Prediction>, u: BlockUpdate)
    ensures SameShape(predictions, Retain(predictions, u))
  {
  }

  /** Doubt ends where both worlds show the same and nothing is pending. */
  lemma LessDoubt(local: World, server: World, predictions: seq<Prediction>, doubt: set<Position>, sure: set<Position>)
    requires AgreementExcept(local, server, predictions, doubt)
    requires forall q :: q in sure && q in local ==> local[q] == server[q]
    requires forall q :: q in sure ==> !Pending(predictions, q)
    ensures AgreementExcept(local, server, predictions, doubt - sure)
  {
    var a, b := local - (doubt - sure), server - (doubt - sure);
    forall i | 0 <= i < |predictions| && predictions[i].position in a
      ensures a[predictions[i].position] == predictions[i].expected
      ensures predictions[i].serverState == b[predictions[i].position]
    {
      PendingMeans(predictions, predictions[i].position);
      assert predictions[i].position in local - doubt;
    }
    forall q | q in a && !Pending(predictions, q) ensures a[q] == b[q] {
      if q !in sure { assert q in local - doubt; }
    }
  }

  lemma UpdateExcept(s: System, profile: Profile, updates: seq<BlockUpdate>, doubt: set<Position>)
    requires OkExcept(s, doubt)
    ensures var next := Step(s, profile, ServerUpdate(updates));
      AgreementExcept(next.local, next.server, next.tracker.predictions,
        doubt - Refreshed(s.tracker.predictions, updates))
  {
    var before := s.tracker.predictions;
    var next, sure := Step(s, profile, ServerUpdate(updates)), Refreshed(before, updates);
    UpdatesKeepAgreement(s.local - doubt, s.server - doubt, before, updates);
    PutAllMinus(s.local, Reconciled(before, updates).1, doubt);
    PutAllMinus(s.server, updates, doubt);
    forall q | q in sure
      ensures !Pending(next.tracker.predictions, q) && (q in next.local ==> next.local[q] == next.server[q]) {
      PendingSame(before, next.tracker.predictions, q);
      if q in next.local { UpdatedAlike(s.local, s.server, before, updates, q); }
    }
    LessDoubt(next.local, next.server, next.tracker.predictions, doubt, sure);
  }

  // ---- Acknowledgements, chunks ----

  lemma AckExcept(s: System, profile: Profile, sequence: i32, doubt: set<Position>)
    requires OkExcept(s, doubt)
    ensures var next := Step(s, profile, Ack(sequence));
      AgreementExcept(next.local, next.server, next.tracker.predictions, doubt)
  {
    AckKeepsAgreement(s.(local := s.local - doubt, server := s.server - doubt), profile, sequence);
    PutAllMinus(s.local, Acknowledged(s.tracker, sequence).1.updates, doubt);
  }

  lemma LoadExcept(local: World, server: World, predictions: seq<Prediction>, chunk: World, doubt: set<Position>)
    requires AgreementExcept(local, server, predictions, doubt)
    ensures AgreementExcept(local + chunk, server + chunk, predictions,
      (doubt - chunk.Keys) + Overwritten(chunk, predictions))
  {
    var hit := Overwritten(chunk, predictions);
    var unsure, kept := doubt + hit, chunk - hit;
    MoreDoubt(local, server, predictions, doubt, hit);
    LoadAgreement(local - unsure, server - unsure, predictions, kept);
    LoadMinus(local, chunk, doubt, hit);
    LoadMinus(server, chunk, doubt, hit);
    assert !Overwrites(kept, predictions);
  }

  lemma LoadMinus(world: World, chunk: World, doubt: set<Position>, hit: set<Position>)
    requires hit <= chunk.Keys
    ensures (world + chunk) - ((doubt - chunk.Keys) + hit) == (world - (doubt + hit)) + (chunk - hit)
  {
    var a, b := (world + chunk) - ((doubt - chunk.Keys) + hit), (world - (doubt + hit)) + (chunk - hit);
    assert a.Keys == b.Keys;
    forall q | q in a ensures a[q] == b[q] { }
  }

  lemma UnloadExcept(local: World, server: World, predictions: seq<Prediction>, gone: set<Position>,
      doubt: set<Position>)
    requires AgreementExcept(local, server, predictions, doubt)
    ensures AgreementExcept(local - gone, server - gone, predictions, doubt - gone)
  {
    UnloadAgreement(local - doubt, server - doubt, predictions, gone);
    assert local - gone - (doubt - gone) == local - doubt - gone;
    assert server - gone - (doubt - gone) == server - doubt - gone;
  }

  // ---- Runs ----

  lemma StepExcept(s: System, profile: Profile, e: Event, doubt: set<Position>)
    requires OkExcept(s, doubt) && Admissible(s, profile, e)
    ensures OkExcept(Step(s, profile, e), Doubt(s, profile, e, doubt))
  {
    QueueStep(s, profile, e);
    match e
    case DoTick(input) => TickExcept(s, profile, input, doubt);
    case ServerUpdate(updates) => UpdateExcept(s, profile, updates, doubt);
    case Ack(sequence) => AckExcept(s, profile, sequence, doubt);
    case LoadChunk(chunk) => LoadExcept(s.local, s.server, s.tracker.predictions, chunk, doubt);
    case UnloadChunk(gone) => UnloadExcept(s.local, s.server, s.tracker.predictions, gone, doubt);
    case Reset(world) => assert world - {} == world;
  }

  /**
    Over every admissible run the worlds agree on every position that no stale step has put in doubt
    since the server last settled it.
   */
  lemma {:induction false} DoubtIsLocal(s: System, profile: Profile, events: seq<Event>, doubt: set<Position>)
    requires OkExcept(s, doubt) && AdmissibleRun(s, profile, events)
    ensures OkExcept(Run(s, profile, events), Doubts(s, profile, events, doubt))
    decreases |events|
  {
    if events != [] {
      StepExcept(s, profile, events[0], doubt);
      DoubtIsLocal(Step(s, profile, events[0]), profile, events[1..], Doubt(s, profile, events[0], doubt));
    }
  }

  /** From joining on, once nothing is pending, the worlds are equal on every position not in doubt. */
  lemma SettledExceptDoubt(world: World, profile: Profile, events: seq<Event>)
    requires AdmissibleRun(Joined(world), profile, events)
    requires Run(Joined(world), profile, events).tracker.predictions == []
    ensures var end, doubt := Run(Joined(world), profile, events), Doubts(Joined(world), profile, events, {});
      end.local.Keys == end.server.Keys && forall q :: q in end.local && q !in doubt ==> end.local[q] == end.server[q]
  {
    var end, doubt := Run(Joined(world), profile, events), Doubts(Joined(world), profile, events, {});
    assert world - {} == world;
    DoubtIsLocal(Joined(world), profile, events, {});
    NothingPendingAgrees(end.local - doubt, end.server - doubt);
    forall q | q in end.local && q !in doubt ensures end.local[q] == end.server[q] { assert q in end.local - doubt; }
  }

  /** Without a stale step nothing is ever in doubt. */
  lemma {:induction false} CleanLeavesNoDoubt(s: System, profile: Profile, events: seq<Event>)
    requires Clean(s, profile, events)
    ensures Doubts(s, profile, events, {}) == {}
    decreases |events|
  {
    if events != [] {
      assert Doubt(s, profile, events[0], {}) == {};
      CleanLeavesNoDoubt(Step(s, profile, events[0]), profile, events[1..]);
    }
  }
}
