/**
  The prediction queue (world_movement.rs) and the agreement of two worlds: the client's, with its
  predictions shown, and the server's, as far as it is loaded.
 */
module PredictionQueue {
  import opened Wrappers
  import opened Bytes
  import opened BlockInteraction

  type World = map<Position, Block>

  /** `apply_block_updates`: positions that are not loaded are ignored. */
  function Put(world: World, u: BlockUpdate): (r: World)
    ensures r.Keys == world.Keys
  {
    if u.position in world then world[u.position := u.state] else world
  }

  function PutAll(world: World, updates: seq<BlockUpdate>): (r: World)
    ensures r.Keys == world.Keys
    decreases |updates|
  {
    if updates == [] then world else PutAll(Put(world, updates[0]), updates[1..])
  }

  // ---- The queue ----

  predicate DistinctPositions(predictions: seq<Prediction>) {
    forall i, j :: 0 <= i < j < |predictions| ==> predictions[i].position != predictions[j].position
  }

  predicate Ascending(predictions: seq<Prediction>) {
    forall i, j :: 0 <= i < j < |predictions| ==> predictions[i].sequence < predictions[j].sequence
  }

  /** Bounded, at most one prediction a position, numbered upward below the next number. */
  predicate QueueOk(t: Tracker) {
    && |t.predictions| <= MAX_BLOCK_PREDICTIONS
    && DistinctPositions(t.predictions)
    && Ascending(t.predictions)
    && 0 <= t.nextSequence
    && forall i :: 0 <= i < |t.predictions| ==> 0 <= t.predictions[i].sequence < t.nextSequence
  }

  /** The latest acknowledgement lies below the next number and below every pending one. */
  predicate AckOk(t: Tracker) {
    t.latestAcknowledged.Some? ==>
      && t.latestAcknowledged.value < t.nextSequence
      && forall i :: 0 <= i < |t.predictions| ==> t.latestAcknowledged.value < t.predictions[i].sequence
  }

  lemma AppendKeepsOrder(rest: seq<Prediction>, p: Prediction)
    requires DistinctPositions(rest) && Ascending(rest)
    requires forall i :: 0 <= i < |rest| ==> rest[i].sequence < p.sequence && rest[i].position != p.position
    ensures DistinctPositions(rest + [p]) && Ascending(rest + [p])
  {
  }

  lemma WithoutKeepsOrder(before: seq<Prediction>, k: nat)
    requires DistinctPositions(before) && Ascending(before) && k < |before|
    ensures DistinctPositions(Without(before, k)) && Ascending(Without(before, k))
    ensures forall i :: 0 <= i < |before| - 1 ==> Without(before, k)[i].position != before[k].position
  {
  }

  lemma RegisterKeepsQueue(before: seq<Prediction>, p: Prediction)
    requires |before| <= MAX_BLOCK_PREDICTIONS && DistinctPositions(before) && Ascending(before)
    requires forall i :: 0 <= i < |before| ==> before[i].sequence < p.sequence
    ensures var after := Register(before, p).0;
      && |after| <= MAX_BLOCK_PREDICTIONS && DistinctPositions(after) && Ascending(after)
      && (forall i :: 0 <= i < |after| ==> after[i].sequence == p.sequence || after[i] in before)
  {
    var k := Find(before, p.position);
    if k < |before| {
      WithoutKeepsOrder(before, k);
      AppendKeepsOrder(Without(before, k), before[k].(sequence := p.sequence, expected := p.expected));
    } else if |before| < MAX_BLOCK_PREDICTIONS {
      AppendKeepsOrder(before, p);
    }
  }

  // ---- Agreement of the two worlds ----

  /**
    A loaded position without a prediction shows the server's latest state; one with a prediction
    shows the predicted state while the tracker retains exactly the server's latest.
   */
  predicate Agreement(local: World, server: World, predictions: seq<Prediction>) {
    && local.Keys == server.Keys
    && (forall i :: 0 <= i < |predictions| && predictions[i].position in local ==>
         && local[predictions[i].position] == predictions[i].expected
         && predictions[i].serverState == server[predictions[i].position])
    && (forall q :: q in local && !Pending(predictions, q) ==> local[q] == server[q])
  }

  lemma PendingMeans(predictions: seq<Prediction>, q: Position)
    ensures Pending(predictions, q) <==> exists i :: 0 <= i < |predictions| && predictions[i].position == q
  {
  }

  /** A server update is absorbed, by the queue or by the local world. */
  lemma UpdateKeepsAgreement(local: World, server: World, predictions: seq<Prediction>, u: BlockUpdate)
    requires Agreement(local, server, predictions) && DistinctPositions(predictions)
    ensures var shown := if Pending(predictions, u.position) then local else Put(local, u);
      Agreement(shown, Put(server, u), Retain(predictions, u))
    ensures SameShape(predictions, Retain(predictions, u))
  {
    if Pending(predictions, u.position) {
      RetainAgreement(local, server, predictions, u);
    } else {
      ShowAgreement(local, server, predictions, u);
    }
  }

  lemma ShowAgreement(local: World, server: World, predictions: seq<Prediction>, u: BlockUpdate)
    requires Agreement(local, server, predictions) && !Pending(predictions, u.position)
    ensures Agreement(Put(local, u), Put(server, u), predictions)
  {
    var shown, held := Put(local, u), Put(server, u);
    PendingMeans(predictions, u.position);
    forall i | 0 <= i < |predictions| && predictions[i].position in shown
      ensures shown[predictions[i].position] == predictions[i].expected
           && predictions[i].serverState == held[predictions[i].position]
    {
      assert predictions[i].position != u.position;
    }
    forall q | q in shown && !Pending(predictions, q) ensures shown[q] == held[q] { }
  }

  lemma RetainAgreement(local: World, server: World, predictions: seq<Prediction>, u: BlockUpdate)
    requires Agreement(local, server, predictions) && DistinctPositions(predictions) && Pending(predictions, u.position)
    ensures Agreement(local, Put(server, u), Retain(predictions, u))
  {
    var k, after := Find(predictions, u.position), Retain(predictions, u);
    assert after == predictions[k := predictions[k].(serverState := u.state)];
    forall q | q in local && !Pending(after, q) ensures local[q] == Put(server, u)[q] {
      PendingMeans(predictions, q);
      PendingMeans(after, q);
      SamePositions(predictions, after, q);
      assert q != u.position;
    }
  }

  /** Retaining server states changes neither positions nor numbers nor predicted states. */
  predicate SameShape(a: seq<Prediction>, b: seq<Prediction>) {
    && |a| == |b|
    && forall i :: 0 <= i < |a| ==> b[i] == a[i].(serverState := b[i].serverState)
  }

  lemma SamePositions(a: seq<Prediction>, b: seq<Prediction>, q: Position)
    requires SameShape(a, b)
    ensures (exists i :: 0 <= i < |a| && a[i].position == q) <==> (exists i :: 0 <= i < |b| && b[i].position == q)
  {
    forall i | 0 <= i < |a| ensures a[i].position == b[i].position {
      assert b[i] == a[i].(serverState := b[i].serverState);
    }
    if i :| 0 <= i < |a| && a[i].position == q { assert b[i].position == q; }
    if i :| 0 <= i < |b| && b[i].position == q { assert a[i].position == q; }
  }

  lemma SameShapeQueue(a: seq<Prediction>, b: seq<Prediction>)
    requires SameShape(a, b)
    ensures DistinctPositions(a) ==> DistinctPositions(b)
    ensures Ascending(a) ==> Ascending(b)
    ensures forall i :: 0 <= i < |a| ==> a[i].sequence == b[i].sequence && a[i].position == b[i].position
  {
    forall i | 0 <= i < |a| ensures a[i].sequence == b[i].sequence && a[i].position == b[i].position {
      assert b[i] == a[i].(serverState := b[i].serverState);
    }
  }

  /** Server updates, whatever they are, change no position, number or predicted state in the queue. */
  lemma {:induction false} ReconciledKeepsShape(predictions: seq<Prediction>, updates: seq<BlockUpdate>)
    ensures SameShape(predictions, Reconciled(predictions, updates).0)
    decreases |updates|
  {
    if updates != [] { ReconciledKeepsShape(Retain(predictions, updates[0]), updates[1..]); }
  }

  lemma {:induction false} UpdatesKeepAgreement(local: World, server: World, predictions: seq<Prediction>,
      updates: seq<BlockUpdate>)
    requires Agreement(local, server, predictions) && DistinctPositions(predictions)
    ensures var (after, immediate) := Reconciled(predictions, updates);
      Agreement(PutAll(local, immediate), PutAll(server, updates), after) && SameShape(predictions, after)
    decreases |updates|
  {
    if updates != [] {
      var u := updates[0];
      UpdateKeepsAgreement(local, server, predictions, u);
      SameShapeQueue(predictions, Retain(predictions, u));
      var shown := if Pending(predictions, u.position) then local else Put(local, u);
      UpdatesKeepAgreement(shown, Put(server, u), Retain(predictions, u), updates[1..]);
      var later := Reconciled(Retain(predictions, u), updates[1..]).1;
      assert ([u] + later)[0] == u && ([u] + later)[1..] == later;
    }
  }

  /** Resolving the first prediction puts the retained server state back. */
  lemma ResolveOne(local: World, server: World, predictions: seq<Prediction>)
    requires Agreement(local, server, predictions) && DistinctPositions(predictions) && predictions != []
    ensures Agreement(Put(local, BlockUpdate(predictions[0].position, predictions[0].serverState)), server,
      predictions[1..])
  {
    var p, rest := predictions[0], predictions[1..];
    forall q ensures Pending(predictions, q) <==> q == p.position || Pending(rest, q) {
      PendingMeans(predictions, q);
      PendingMeans(rest, q);
      if i :| 0 <= i < |predictions| && predictions[i].position == q { if i > 0 { assert rest[i - 1].position == q; } }
      if i :| 0 <= i < |rest| && rest[i].position == q { assert predictions[i + 1].position == q; }
    }
  }

  lemma {:induction false} ResolveMany(local: World, server: World, predictions: seq<Prediction>, n: nat)
    requires Agreement(local, server, predictions) && DistinctPositions(predictions) && n <= |predictions|
    ensures Agreement(PutAll(local, Restored(predictions[..n])), server, predictions[n..])
    decreases n
  {
    if n > 0 {
      var updates, rest := Restored(predictions[..n]), predictions[1..];
      RestoredFirst(predictions, n);
      ResolveOne(local, server, predictions);
      ResolveMany(Put(local, updates[0]), server, rest, n - 1);
      assert PutAll(local, updates) == PutAll(Put(local, updates[0]), updates[1..]);
    }
  }

  lemma RestoredFirst(predictions: seq<Prediction>, n: nat)
    requires 0 < n <= |predictions|
    ensures var updates, rest := Restored(predictions[..n]), predictions[1..];
      && updates[0] == BlockUpdate(predictions[0].position, predictions[0].serverState)
      && updates[1..] == Restored(rest[..n - 1]) && rest[n - 1..] == predictions[n..]
  {
  }

  /** Popping from the front removes exactly the predictions numbered at most the acknowledgement. */
  lemma {:induction false} ResolvedIsPrefix(predictions: seq<Prediction>, sequence: i32)
    requires Ascending(predictions)
    ensures forall i :: 0 <= i < |predictions| ==>
      (i < Resolved(predictions, sequence) <==> predictions[i].sequence <= sequence)
  {
    if predictions != [] && predictions[0].sequence <= sequence {
      ResolvedIsPrefix(predictions[1..], sequence);
      forall i | 0 <= i < |predictions|
        ensures i < Resolved(predictions, sequence) <==> predictions[i].sequence <= sequence
      {
        if i > 0 { assert predictions[i] == predictions[1..][i - 1]; }
      }
    }
  }

  // ---- What an acknowledgement and a registration leave ----

  lemma {:induction false} RolledBackMeans(predictions: seq<Prediction>)
    ensures forall p :: p in RolledBack(predictions) <==> p in predictions && p.serverState != p.expected
    ensures Ascending(predictions) ==> Ascending(RolledBack(predictions))
  {
    if predictions != [] {
      var init, last := predictions[..|predictions| - 1], predictions[|predictions| - 1];
      RolledBackMeans(init);
      assert predictions == init + [last];
      if Ascending(predictions) {
        forall i | 0 <= i < |RolledBack(init)| ensures RolledBack(init)[i].sequence < last.sequence {
          assert RolledBack(init)[i] in init;
        }
      }
    }
  }

  /**
    A new acknowledgement resolves the predictions numbered at most it, restores what the server
    last said about each, and rolls back exactly those of them that were predicted otherwise, once
    each and in order. Any other acknowledgement does nothing.
   */
  lemma AcknowledgedExactly(t: Tracker, sequence: i32)
    requires Ascending(t.predictions)
    ensures var (after, resolution) := Acknowledged(t, sequence);
      if sequence < 0 || (t.latestAcknowledged.Some? && sequence <= t.latestAcknowledged.value)
      then after == t && resolution.updates == [] && resolution.rollbacks == []
      else
        var n := |resolution.updates|;
        && after == t.(latestAcknowledged := Some(sequence), predictions := after.predictions)
        && n <= |t.predictions| && after.predictions == t.predictions[n..]
        && (forall p :: p in t.predictions ==> (p in after.predictions <==> p.sequence > sequence))
        && (forall i :: 0 <= i < n ==>
              resolution.updates[i] == BlockUpdate(t.predictions[i].position, t.predictions[i].serverState))
        && (forall p :: p in resolution.rollbacks <==>
              p in t.predictions && p !in after.predictions && p.serverState != p.expected)
        && Ascending(resolution.rollbacks)
  {
    if NewAcknowledgement(t, sequence) {
      var n := Resolved(t.predictions, sequence);
      ResolvedParts(t.predictions, sequence);
      RolledBackMeans(t.predictions[..n]);
    }
  }

  lemma ResolvedParts(predictions: seq<Prediction>, sequence: i32)
    requires Ascending(predictions)
    ensures var n := Resolved(predictions, sequence);
      && (forall p :: p in predictions <==> p in predictions[..n] || p in predictions[n..])
      && (forall p :: p in predictions[..n] ==> p.sequence <= sequence)
      && (forall p :: p in predictions[n..] ==> p.sequence > sequence)
      && Ascending(predictions[..n])
  {
    var n := Resolved(predictions, sequence);
    ResolvedIsPrefix(predictions, sequence);
    assert predictions == predictions[..n] + predictions[n..];
  }

  /** A registered prediction is the last one; a known position keeps the server state and the player noted first. */
  lemma RegisterExactly(before: seq<Prediction>, p: Prediction)
    ensures var (after, accepted) := Register(before, p);
      if forall i :: 0 <= i < |before| ==> before[i].position != p.position then
        && (accepted <==> |before| != MAX_BLOCK_PREDICTIONS)
        && after == if accepted then before + [p] else before
      else
        && accepted && |after| == |before|
        && exists i ::
             && 0 <= i < |before| && before[i].position == p.position
             && (forall k :: 0 <= k < |before| - 1 ==> after[k] == before[if k < i then k else k + 1])
             && after[|before| - 1]
                == Prediction(p.sequence, p.position, before[i].serverState, p.expected, before[i].player)
  {
    var i := Find(before, p.position);
    if i < |before| { assert before[i].position == p.position; }
  }

  /** Updates are taken one after another: each is retained at its position, or else handed on. */
  lemma {:induction false} ReconcilesInOrder(predictions: seq<Prediction>, updates: seq<BlockUpdate>, u: BlockUpdate)
    ensures Reconciled(predictions, []) == (predictions, [])
    ensures var (before, immediate) := Reconciled(predictions, updates);
      var (after, more) := Reconciled(predictions, updates + [u]);
      if forall i :: 0 <= i < |before| ==> before[i].position != u.position then
        after == before && more == immediate + [u]
      else
        && more == immediate && |after| == |before|
        && exists i ::
             && 0 <= i < |before| && before[i].position == u.position
             && after == before[i := before[i].(serverState := u.state)]
    decreases |updates|
  {
    if updates == [] {
      assert [] + [u] == [u] && [u][1..] == [];
      assert Reconciled(Retain(predictions, u), []) == (Retain(predictions, u), []);
    } else {
      assert (updates + [u])[0] == updates[0] && (updates + [u])[1..] == updates[1..] + [u];
      ReconcilesInOrder(Retain(predictions, updates[0]), updates[1..], u);
    }
  }

  /** Agreement everywhere except at one position, which no prediction is about. */
  predicate AgreementAway(local: World, server: World, rest: seq<Prediction>, q: Position) {
    && local.Keys == server.Keys
    && (forall i :: 0 <= i < |rest| ==> rest[i].position != q)
    && (forall i :: 0 <= i < |rest| && rest[i].position in local ==>
         && local[rest[i].position] == rest[i].expected
         && rest[i].serverState == server[rest[i].position])
    && (forall x :: x in local && x != q && !Pending(rest, x) ==> local[x] == server[x])
  }

  lemma WithoutPending(before: seq<Prediction>, k: nat, x: Position)
    requires k < |before| && x != before[k].position
    ensures Pending(before, x) ==> Pending(Without(before, k), x)
  {
    var rest := Without(before, k);
    PendingMeans(before, x);
    PendingMeans(rest, x);
    if i :| 0 <= i < |before| && before[i].position == x {
      assert rest[if i < k then i else i - 1].position == x;
    }
  }

  lemma RemoveAgreement(local: World, server: World, before: seq<Prediction>, q: Position)
    requires Agreement(local, server, before) && DistinctPositions(before)
    ensures var k := Find(before, q);
      AgreementAway(local, server, if k < |before| then Without(before, k) else before, q)
  {
    var k := Find(before, q);
    if k < |before| {
      forall x | x in local && x != q && !Pending(Without(before, k), x) ensures local[x] == server[x] {
        WithoutPending(before, k, x);
      }
    }
  }

  lemma AddAgreement(local: World, server: World, rest: seq<Prediction>, p: Prediction)
    requires AgreementAway(local, server, rest, p.position) && p.position in local
    ensures Agreement(local[p.position := p.expected], server, rest + [p]) <==> p.serverState == server[p.position]
  {
    var after := rest + [p];
    assert after[|rest|] == p;
    forall x ensures Pending(after, x) <==> x == p.position || Pending(rest, x) {
      PendingMeans(rest, x);
      PendingMeans(after, x);
      if i :| 0 <= i < |rest| && rest[i].position == x { assert after[i].position == x; }
    }
  }

  /** A newly registered and shown prediction keeps the worlds in agreement exactly when its server state is current. */
  lemma RegisterAgreement(local: World, server: World, before: seq<Prediction>, p: Prediction)
    requires Agreement(local, server, before) && DistinctPositions(before) && p.position in local
      && Register(before, p).1
    ensures Agreement(local[p.position := p.expected], server, Register(before, p).0)
       <==> Pending(before, p.position) || local[p.position] == p.serverState
  {
    var k := Find(before, p.position);
    RemoveAgreement(local, server, before, p.position);
    if k < |before| {
      AddAgreement(local, server, Without(before, k), before[k].(sequence := p.sequence, expected := p.expected));
    } else {
      AddAgreement(local, server, before, p);
    }
  }

  // ---- Chunks ----

  /** Loading covers a pending position with anything but what is both predicted and retained there. */
  predicate Overwrites(chunk: World, predictions: seq<Prediction>) {
    exists i :: 0 <= i < |predictions| && predictions[i].position in chunk
      && !(chunk[predictions[i].position] == predictions[i].expected == predictions[i].serverState)
  }

  /**
    A chunk goes straight into the world, past the queue; agreement survives exactly if it overwrites
    no prediction.
   */
  lemma LoadAgreement(local: World, server: World, predictions: seq<Prediction>, chunk: World)
    requires Agreement(local, server, predictions)
    ensures Agreement(local + chunk, server + chunk, predictions) <==> !Overwrites(chunk, predictions)
  {
    var shown, held := local + chunk, server + chunk;
    assert shown.Keys == local.Keys + chunk.Keys && held.Keys == server.Keys + chunk.Keys;
    if Overwrites(chunk, predictions) {
      var i :| 0 <= i < |predictions| && predictions[i].position in chunk
        && !(chunk[predictions[i].position] == predictions[i].expected == predictions[i].serverState);
      assert predictions[i].position in shown;
    }
  }

  lemma UnloadAgreement(local: World, server: World, predictions: seq<Prediction>, gone: set<Position>)
    requires Agreement(local, server, predictions)
    ensures Agreement(local - gone, server - gone, predictions)
  {
    assert (local - gone).Keys == (server - gone).Keys;
  }
}
