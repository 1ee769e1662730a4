/** A follower fed by compressed batches refines its primary. */
module Replication {
  import opened Common
  import opened JsonTree
  import opened Operations
  import opened MapKeys
  import opened CollapseTheorems
  import opened DeltaCompressor
  import opened StateManager
  import opened ConflictResolver
  import opened RemoteDeltas

  // ---------- the two nodes ----------

  /** `flushed` is a history variable: the deltas already sent, as the primary emitted them.
      `policy` is how the follower would resolve conflicts. */
  datatype Pair = Pair(primary: State, pending: seq<Delta>, flushed: seq<Delta>, follower: State, clock: int,
                       policy: Policy)

  datatype Event =
    | Edit(id: string, ops: seq<Op>, now: int)
    | Flush(batchSize: nat, now: int)

  function Batch(p: Pair, batchSize: nat): seq<Delta> {
    p.pending[..if batchSize <= |p.pending| then batchSize else |p.pending|]
  }

  function Sent(p: Pair, batchSize: nat, follower: State): Pair {
    var batch := Batch(p, batchSize);
    p.(pending := p.pending[|batch|..], flushed := p.flushed + batch, follower := follower)
  }

  function Happen(p: Pair, e: Event, max: nat): Pair {
    match e
    case Edit(id, ops, now) =>
      p.(primary := AfterUpdate(p.primary, id, ops, now, max),
         pending := if id in p.primary.entities
                    then p.pending + [DeltaFor(p.primary.entities[id], id, ops, now)]
                    else p.pending,
         clock := now)
    case Flush(batchSize, now) =>
      Sent(p, batchSize, HandleAll(p.follower, Compressed(Batch(p, batchSize)), now, max, p.policy))
  }

  function Execute(p: Pair, events: seq<Event>, max: nat): Pair {
    if events == [] then p else Happen(Execute(p, Init(events), max), Last(events), max)
  }

  /** A batch whose merged entities pass the collapse test. */
  predicate Collapsible(batch: seq<Delta>) {
    forall d :: d in batch && |Group(batch, d.entityId)| > 1 ==>
      var ops := Flatten(Group(batch, d.entityId)); KeysClean(ops) && Separable(ops) && AllExact(ops)
  }

  predicate Allowed(p: Pair, e: Event) {
    match e
    case Edit(_, _, now) => p.clock <= now
    case Flush(batchSize, _) => Collapsible(Batch(p, batchSize))
  }

  predicate AllAllowed(p: Pair, events: seq<Event>, max: nat) {
    events == [] || (AllAllowed(p, Init(events), max) && Allowed(Execute(p, Init(events), max), Last(events)))
  }

  predicate Starting(p: Pair) {
    && p.pending == [] && p.flushed == []
    && p.primary.entities.Keys == p.follower.entities.Keys
    && forall id :: id in p.primary.entities ==>
         && p.follower.entities[id].data == p.primary.entities[id].data
         && p.follower.entities[id].version <= p.primary.entities[id].version
  }

  lemma {:induction false} SentMoves(p: Pair, batchSize: nat, follower: State)
    ensures var p' := Sent(p, batchSize, follower);
            && p'.flushed + p'.pending == p.flushed + p.pending
            && |p'.flushed| == |p.flushed| + (if batchSize <= |p.pending| then batchSize else |p.pending|)
            && p'.primary == p.primary
  {
    var batch := Batch(p, batchSize);
    assert p.pending == batch + p.pending[|batch|..];
    assert (p.flushed + batch) + p.pending[|batch|..] == p.flushed + (batch + p.pending[|batch|..]);
  }

  /** A flush moves the oldest pending deltas, at most a batch of them, behind those already sent. */
  lemma {:induction false} FlushSends(p: Pair, batchSize: nat, now: int, max: nat)
    ensures var p' := Happen(p, Flush(batchSize, now), max);
            && p'.flushed + p'.pending == p.flushed + p.pending
            && |p'.flushed| == |p.flushed| + (if batchSize <= |p.pending| then batchSize else |p.pending|)
            && p'.primary == p.primary
  {
    SentMoves(p, batchSize, HandleAll(p.follower, Compressed(Batch(p, batchSize)), now, max, p.policy));
  }

  // ---------- the invariant ----------

  ghost predicate InTime(deltas: seq<Delta>, clock: int) {
    && Sorted(EarlierOrEqual, deltas)
    && forall i :: 0 <= i < |deltas| ==> deltas[i].timestamp <= clock
  }

  /** One entity: the primary is the initial data with all of its deltas applied one by one,
      the follower is the initial data with exactly the flushed ones applied. */
  predicate EntityInStep(sent: seq<Delta>, waiting: seq<Delta>, e: Entity, f: Entity, origin: Entity) {
    && f.data == Run(Flatten(sent), origin.data)
    && f.version <= origin.version + |sent|
    && e.data == Run(Flatten(waiting), f.data)
    && e.version == origin.version + |sent| + |waiting|
    && forall i :: 0 <= i < |waiting| ==>
         waiting[i].fromVersion == origin.version + |sent| + i && waiting[i].toVersion == waiting[i].fromVersion + 1
  }

  predicate InStepAt(p: Pair, origin: map<string, Entity>, id: string)
    requires id in origin
  {
    && id in p.primary.entities && id in p.follower.entities
    && EntityInStep(Group(p.flushed, id), Group(p.pending, id),
                    p.primary.entities[id], p.follower.entities[id], origin[id])
  }

  ghost predicate InStep(p: Pair, origin: map<string, Entity>) {
    InFrame(p, origin.Keys) && forall id :: id in origin ==> InStepAt(p, origin, id)
  }

  ghost predicate InFrame(p: Pair, ids: set<string>) {
    && p.primary.entities.Keys == ids && p.follower.entities.Keys == ids
    && InTime(p.pending, p.clock)
    && forall i :: 0 <= i < |p.pending| ==> p.pending[i].entityId in ids
  }

  lemma {:induction false} EmitKeepsEntity(sent: seq<Delta>, waiting: seq<Delta>, e: Entity, f: Entity,
                                           origin: Entity, id: string, ops: seq<Op>, now: int)
    requires EntityInStep(sent, waiting, e, f, origin)
    ensures EntityInStep(sent, waiting + [DeltaFor(e, id, ops, now)], Updated(e, ops, now), f, origin)
  {
    FlattenLast(waiting, DeltaFor(e, id, ops, now), f.data);
  }

  lemma {:induction false} SendKeepsEntity(sent: seq<Delta>, g: seq<Delta>, rest: seq<Delta>, e: Entity, f: Entity,
                                           f': Entity, origin: Entity)
    requires EntityInStep(sent, g + rest, e, f, origin)
    requires f'.data == Run(Flatten(g), f.data) && f'.version <= f.version + |g|
    ensures EntityInStep(sent + g, rest, e, f', origin)
  {
    FlattenConcat(sent, g);
    FlattenConcat(g, rest);
    RunConcat(Flatten(sent), Flatten(g), origin.data);
    RunConcat(Flatten(g), Flatten(rest), f.data);
    forall i | 0 <= i < |rest|
      ensures rest[i].fromVersion == origin.version + |sent + g| + i && rest[i].toVersion == rest[i].fromVersion + 1
    {
      assert rest[i] == (g + rest)[|g| + i];
    }
  }

  lemma {:induction false} EditKeepsEntity(p: Pair, origin: map<string, Entity>, id: string, ops: seq<Op>, now: int,
                                           max: nat, k: string)
    requires k in origin && InStepAt(p, origin, k)
    ensures InStepAt(Happen(p, Edit(id, ops, now), max), origin, k)
  {
    if id in p.primary.entities {
      GroupSnoc(p.pending, DeltaFor(p.primary.entities[id], id, ops, now), k);
      if k == id {
        EmitKeepsEntity(Group(p.flushed, id), Group(p.pending, id),
                        p.primary.entities[id], p.follower.entities[id], origin[id], id, ops, now);
      }
    }
  }

  lemma {:induction false} AppendInTime(deltas: seq<Delta>, clock: int, d: Delta)
    requires InTime(deltas, clock) && clock <= d.timestamp
    ensures InTime(deltas, d.timestamp) && InTime(deltas + [d], d.timestamp)
  {
  }

  lemma {:induction false} EditKeepsFrame(p: Pair, ids: set<string>, id: string, ops: seq<Op>, now: int, max: nat)
    requires InFrame(p, ids) && p.clock <= now
    ensures InFrame(Happen(p, Edit(id, ops, now), max), ids)
  {
    if id in ids {
      var d := DeltaFor(p.primary.entities[id], id, ops, now);
      AppendInTime(p.pending, p.clock, d);
      assert AfterUpdate(p.primary, id, ops, now, max).entities.Keys == ids;
      assert forall i :: 0 <= i < |p.pending + [d]| ==> (p.pending + [d])[i].entityId in ids;
    }
  }

  lemma {:induction false} EditKeepsStep(p: Pair, origin: map<string, Entity>, id: string, ops: seq<Op>, now: int,
                                         max: nat)
    requires InStep(p, origin) && p.clock <= now
    ensures InStep(Happen(p, Edit(id, ops, now), max), origin)
  {
    var p' := Happen(p, Edit(id, ops, now), max);
    EditKeepsFrame(p, origin.Keys, id, ops, now, max);
    forall k | k in origin ensures InStepAt(p', origin, k) {
      assert InStepAt(p, origin, k);
      EditKeepsEntity(p, origin, id, ops, now, max, k);
    }
  }

  /** Deltas for distinct entities are received independently. */
  lemma {:induction false} ReceiveApart(s: State, deltas: seq<Delta>, now: int, max: nat, id: string)
    requires id in s.entities && |Group(deltas, id)| <= 1
    ensures var s' := ReceiveAll(s, deltas, now, max);
            && s'.entities.Keys == s.entities.Keys
            && s'.entities[id] == if Group(deltas, id) == [] then s.entities[id]
                                  else Updated(s.entities[id], Group(deltas, id)[0].operations, now)
  {
    if deltas != [] {
      ReceiveApart(s, Init(deltas), now, max, id);
    }
  }

  lemma {:induction false} NoConflict(s: State, deltas: seq<Delta>, now: int, max: nat)
    requires forall d :: d in deltas ==>
               && d.entityId in s.entities && |Group(deltas, d.entityId)| == 1
               && s.entities[d.entityId].version <= d.fromVersion
    ensures !AnyConflict(s, deltas, now, max)
  {
    if deltas != [] {
      var init, last := Init(deltas), Last(deltas);
      forall d | d in init ensures |Group(init, d.entityId)| == 1 {
        GroupMember(init, d);
        assert d in deltas;
      }
      NoConflict(s, init, now, max);
      assert last in deltas;
      ReceiveApart(s, init, now, max, last.entityId);
    }
  }

  lemma {:induction false} GroupMember(deltas: seq<Delta>, d: Delta)
    ensures d in deltas <==> d in Group(deltas, d.entityId)
  {
    if deltas != [] {
      GroupMember(Init(deltas), d);
      assert deltas == Init(deltas) + [Last(deltas)];
    }
  }

  lemma {:induction false} GroupSorted(deltas: seq<Delta>, id: string)
    requires Sorted(EarlierOrEqual, deltas)
    ensures Sorted(EarlierOrEqual, Group(deltas, id))
  {
    if deltas != [] {
      GroupSorted(Init(deltas), id);
      forall i | 0 <= i < |Group(Init(deltas), id)| ensures EarlierOrEqual(Group(Init(deltas), id)[i], Last(deltas)) {
        GroupMember(Init(deltas), Group(Init(deltas), id)[i]);
      }
    }
  }

  /** Compaction keeps the start version and, on a collapsible batch, the effect. */
  lemma {:induction false} CompactMeans(batch: seq<Delta>, id: string, data: Container)
    requires Sorted(EarlierOrEqual, batch) && Collapsible(batch) && Group(batch, id) != []
    ensures var g := Group(batch, id);
            && |Compact(g)| == 1
            && Compact(g)[0].fromVersion == g[0].fromVersion && Compact(g)[0].toVersion == Last(g).toVersion
            && Run(Compact(g)[0].operations, data) == Run(Flatten(g), data)
  {
    var g := Group(batch, id);
    if |g| == 1 {
      assert g == [] + [g[0]];
      FlattenLast([], g[0], data);
    } else {
      GroupSorted(batch, id);
      SortKeepsSorted(EarlierOrEqual, g);
      GroupMember(batch, g[0]);
      CollapsePreserves(Flatten(g), data);
    }
  }

  lemma {:induction false} GroupOfCompressedMember(batch: seq<Delta>, d: Delta)
    requires d in Compressed(batch)
    ensures Group(batch, d.entityId) != [] && Group(Compressed(batch), d.entityId) == Compact(Group(batch, d.entityId))
    ensures Compact(Group(batch, d.entityId)) == [d]
  {
    GroupMember(Compressed(batch), d);
    GroupOfCompressed(batch, d.entityId);
  }

  lemma {:induction false} BatchSplits(p: Pair, batchSize: nat, id: string)
    ensures var batch := Batch(p, batchSize);
            && p.pending == batch + p.pending[|batch|..]
            && Group(p.pending, id) == Group(batch, id) + Group(p.pending[|batch|..], id)
            && Group(p.flushed + batch, id) == Group(p.flushed, id) + Group(batch, id)
  {
    var batch := Batch(p, batchSize);
    assert p.pending == batch + p.pending[|batch|..];
    GroupConcat(batch, p.pending[|batch|..], id);
    GroupConcat(p.flushed, batch, id);
  }

  lemma {:induction false} InTimeSlices(deltas: seq<Delta>, clock: int, k: nat)
    requires InTime(deltas, clock) && k <= |deltas|
    ensures Sorted(EarlierOrEqual, deltas[..k]) && InTime(deltas[k..], clock)
  {
  }

  /** The first delta of a batch for an entity starts at the last flushed version. */
  lemma {:induction false} SentInTime(p: Pair, origin: map<string, Entity>, batchSize: nat, d: Delta)
    requires Sorted(EarlierOrEqual, Batch(p, batchSize)) && Collapsible(Batch(p, batchSize))
    requires d in Compressed(Batch(p, batchSize)) && d.entityId in origin && InStepAt(p, origin, d.entityId)
    ensures |Group(Compressed(Batch(p, batchSize)), d.entityId)| == 1
    ensures p.follower.entities[d.entityId].version <= d.fromVersion
  {
    var batch, id := Batch(p, batchSize), d.entityId;
    GroupOfCompressedMember(batch, d);
    BatchSplits(p, batchSize, id);
    CompactMeans(batch, id, p.follower.entities[id].data);
    assert Group(p.pending, id)[0] == Group(batch, id)[0];
  }

  lemma {:induction false} CompressedIds(batch: seq<Delta>, d: Delta)
    requires d in Compressed(batch)
    ensures exists first :: first in batch && first.entityId == d.entityId
  {
    GroupOfCompressedMember(batch, d);
    GroupMember(batch, Group(batch, d.entityId)[0]);
  }

  lemma {:induction false} FlushConflictFree(p: Pair, origin: map<string, Entity>, batchSize: nat, now: int, max: nat)
    requires InStep(p, origin) && Collapsible(Batch(p, batchSize))
    ensures !AnyConflict(p.follower, Compressed(Batch(p, batchSize)), now, max)
  {
    var batch := Batch(p, batchSize);
    var sent := Compressed(batch);
    InTimeSlices(p.pending, p.clock, |batch|);
    forall d | d in sent
      ensures && d.entityId in p.follower.entities && |Group(sent, d.entityId)| == 1
              && p.follower.entities[d.entityId].version <= d.fromVersion
    {
      CompressedIds(batch, d);
      var first :| first in batch && first.entityId == d.entityId;
      assert first in p.pending;
      assert InStepAt(p, origin, d.entityId);
      SentInTime(p, origin, batchSize, d);
    }
    NoConflict(p.follower, sent, now, max);
  }

  lemma {:induction false} SentKeepsEntity(p: Pair, origin: map<string, Entity>, batchSize: nat, now: int, max: nat,
                                           id: string)
    requires Sorted(EarlierOrEqual, Batch(p, batchSize)) && Collapsible(Batch(p, batchSize))
    requires id in origin && InStepAt(p, origin, id)
    ensures InStepAt(Sent(p, batchSize, ReceiveAll(p.follower, Compressed(Batch(p, batchSize)), now, max)), origin, id)
  {
    var batch := Batch(p, batchSize);
    var g, f := Group(batch, id), p.follower.entities[id];
    BatchSplits(p, batchSize, id);
    FlushedEntity(batch, p.follower, now, max, id);
    var f' := ReceiveAll(p.follower, Compressed(batch), now, max).entities[id];
    SendKeepsEntity(Group(p.flushed, id), g, Group(p.pending[|batch|..], id),
                    p.primary.entities[id], f, f', origin[id]);
  }

  /** Receiving a compressed batch has the effect of all its deltas, in fewer versions. */
  lemma {:induction false} FlushedEntity(batch: seq<Delta>, s: State, now: int, max: nat, id: string)
    requires Sorted(EarlierOrEqual, batch) && Collapsible(batch) && id in s.entities
    ensures var s' := ReceiveAll(s, Compressed(batch), now, max);
            && id in s'.entities
            && s'.entities[id].data == Run(Flatten(Group(batch, id)), s.entities[id].data)
            && s'.entities[id].version <= s.entities[id].version + |Group(batch, id)|
  {
    GroupOfCompressed(batch, id);
    if Group(batch, id) != [] {
      CompactMeans(batch, id, s.entities[id].data);
    }
    ReceiveApart(s, Compressed(batch), now, max, id);
  }

  lemma {:induction false} SentKeepsFrame(p: Pair, ids: set<string>, batchSize: nat, now: int, max: nat)
    requires InFrame(p, ids)
    ensures InFrame(Sent(p, batchSize, ReceiveAll(p.follower, Compressed(Batch(p, batchSize)), now, max)), ids)
  {
    ReceiveKeys(p.follower, Compressed(Batch(p, batchSize)), now, max);
    InTimeSlices(p.pending, p.clock, |Batch(p, batchSize)|);
  }

  /** The follower's version tests let every delta of the batch through. */
  lemma {:induction false} FlushIsReceive(p: Pair, origin: map<string, Entity>, batchSize: nat, now: int, max: nat)
    requires InStep(p, origin) && Collapsible(Batch(p, batchSize))
    ensures Happen(p, Flush(batchSize, now), max) ==
            Sent(p, batchSize, ReceiveAll(p.follower, Compressed(Batch(p, batchSize)), now, max))
  {
    FlushConflictFree(p, origin, batchSize, now, max);
    HandleIsReceive(p.follower, Compressed(Batch(p, batchSize)), now, max, p.policy);
  }

  lemma {:induction false} FlushKeepsStep(p: Pair, origin: map<string, Entity>, batchSize: nat, now: int, max: nat)
    requires InStep(p, origin) && Collapsible(Batch(p, batchSize))
    ensures InStep(Happen(p, Flush(batchSize, now), max), origin)
  {
    var sent := Sent(p, batchSize, ReceiveAll(p.follower, Compressed(Batch(p, batchSize)), now, max));
    InTimeSlices(p.pending, p.clock, |Batch(p, batchSize)|);
    SentKeepsFrame(p, origin.Keys, batchSize, now, max);
    forall id | id in origin ensures InStepAt(sent, origin, id) {
      assert InStepAt(p, origin, id);
      SentKeepsEntity(p, origin, batchSize, now, max, id);
    }
    FlushIsReceive(p, origin, batchSize, now, max);
  }

  lemma {:induction false} AlwaysInStep(p: Pair, events: seq<Event>, max: nat)
    requires Starting(p) && AllAllowed(p, events, max)
    ensures InStep(Execute(p, events, max), p.primary.entities)
  {
    if events == [] {
      forall id | id in p.primary.entities ensures InStepAt(p, p.primary.entities, id) {
        assert Group([], id) == [] && Flatten([]) == [];
      }
    } else {
      AlwaysInStep(p, Init(events), max);
      var m := Execute(p, Init(events), max);
      match Last(events) {
        case Edit(id, ops, now) => EditKeepsStep(m, p.primary.entities, id, ops, now, max);
        case Flush(batchSize, now) => FlushKeepsStep(m, p.primary.entities, batchSize, now, max);
      }
    }
  }

  // ---------- the theorems ----------

  /** A flush never reaches the conflict branch, whatever the follower's policy. */
  lemma {:induction false} FlushesNeverConflict(p: Pair, events: seq<Event>, batchSize: nat, now: int, max: nat)
    requires Starting(p) && AllAllowed(p, events, max)
    requires Collapsible(Batch(Execute(p, events, max), batchSize))
    ensures var m := Execute(p, events, max);
            !AnyConflict(m.follower, Compressed(Batch(m, batchSize)), now, max)
  {
    AlwaysInStep(p, events, max);
    FlushConflictFree(Execute(p, events, max), p.primary.entities, batchSize, now, max);
  }

  /** All deltas the primary ever emits, and the runs that end right after the n-th of them. */
  function Emitted(p: Pair): seq<Delta> {
    p.flushed + p.pending
  }

  lemma {:induction false} SplitThree(flushed: seq<Delta>, pending: seq<Delta>, n: nat)
    requires n <= |pending|
    ensures (flushed + pending[..n]) + pending[n..] == flushed + pending
  {
    assert pending == pending[..n] + pending[n..];
  }

  lemma {:induction false} FlushEmitsNothing(p: Pair, batchSize: nat, now: int, max: nat)
    ensures Emitted(Happen(p, Flush(batchSize, now), max)) == Emitted(p)
  {
    SplitThree(p.flushed, p.pending, |Batch(p, batchSize)|);
  }

  lemma {:induction false} EmittedGrows(p: Pair, e: Event, max: nat)
    ensures |Emitted(p)| <= |Emitted(Happen(p, e, max))| <= |Emitted(p)| + 1
    ensures Emitted(Happen(p, e, max))[..|Emitted(p)|] == Emitted(p)
  {
    match e {
      case Flush(batchSize, now) => FlushEmitsNothing(p, batchSize, now, max);
      case Edit(id, ops, now) =>
    }
  }

  lemma {:induction false} TakeOfPrefix(shorter: seq<Delta>, longer: seq<Delta>, n: nat)
    requires n <= |shorter| <= |longer| && longer[..|shorter|] == shorter
    ensures longer[..n] == shorter[..n]
  {
    assert longer[..n] == longer[..|shorter|][..n];
  }

  /** Every count of emitted deltas up to the present one was reached at some moment of the run,
      because an event emits at most one. */
  lemma {:induction false} EmittedPrefix(p: Pair, events: seq<Event>, max: nat, n: nat) returns (k: nat)
    requires Starting(p) && n <= |Emitted(Execute(p, events, max))|
    ensures k <= |events| && Emitted(Execute(p, events[..k], max)) == Emitted(Execute(p, events, max))[..n]
  {
    var m := Execute(p, events, max);
    if n == |Emitted(m)| {
      k := |events|;
      assert events[..k] == events && Emitted(m)[..n] == Emitted(m);
    } else {
      assert events != [];
      var b := Execute(p, Init(events), max);
      EmittedGrows(b, Last(events), max);
      k := EmittedPrefix(p, Init(events), max, n);
      assert Init(events)[..k] == events[..k];
      TakeOfPrefix(Emitted(b), Emitted(m), n);
    }
  }

  lemma {:induction false} AllowedPrefix(p: Pair, events: seq<Event>, k: nat, max: nat)
    requires AllAllowed(p, events, max) && k <= |events|
    ensures AllAllowed(p, events[..k], max)
  {
    if k == |events| {
      assert events[..k] == events;
    } else {
      AllowedPrefix(p, Init(events), k, max);
      assert Init(events)[..k] == events[..k];
    }
  }

  /** At every moment of every run the follower holds, for all entities at once, the data the primary
      held right after emitting the last flushed delta, at a version no newer than the primary's then. */
  lemma {:induction false} FollowerIsPastPrimary(p: Pair, events: seq<Event>, max: nat) returns (k: nat)
    requires Starting(p) && AllAllowed(p, events, max)
    ensures k <= |events|
    ensures var m, q := Execute(p, events, max), Execute(p, events[..k], max);
            && q.flushed + q.pending == m.flushed
            && m.follower.entities.Keys == q.primary.entities.Keys
            && forall id :: id in q.primary.entities ==>
                 && m.follower.entities[id].data == q.primary.entities[id].data
                 && m.follower.entities[id].version <= q.primary.entities[id].version
  {
    var m := Execute(p, events, max);
    k := EmittedPrefix(p, events, max, |m.flushed|);
    var q := Execute(p, events[..k], max);
    assert Emitted(m)[..|m.flushed|] == m.flushed == Emitted(q);
    AllowedPrefix(p, events, k, max);
    AlwaysInStep(p, events, max);
    AlwaysInStep(p, events[..k], max);
    forall id | id in q.primary.entities
      ensures m.follower.entities[id].data == q.primary.entities[id].data
      ensures m.follower.entities[id].version <= q.primary.entities[id].version
    {
      var origin := p.primary.entities[id];
      assert InStepAt(m, p.primary.entities, id) && InStepAt(q, p.primary.entities, id);
      GroupConcat(q.flushed, q.pending, id);
      FlattenConcat(Group(q.flushed, id), Group(q.pending, id));
      RunConcat(Flatten(Group(q.flushed, id)), Flatten(Group(q.pending, id)), origin.data);
    }
  }

  /** Once everything is flushed the two nodes hold the same data. */
  lemma {:induction false} DrainedFollowerAgrees(p: Pair, events: seq<Event>, max: nat)
    requires Starting(p) && AllAllowed(p, events, max) && Execute(p, events, max).pending == []
    ensures var m := Execute(p, events, max);
            m.primary.entities.Keys == m.follower.entities.Keys
            && forall id :: id in m.primary.entities ==> m.follower.entities[id].data == m.primary.entities[id].data
  {
    AlwaysInStep(p, events, max);
    var m := Execute(p, events, max);
    forall id | id in m.primary.entities ensures m.follower.entities[id].data == m.primary.entities[id].data {
      assert InStepAt(m, p.primary.entities, id);
      assert Group([], id) == [] && Flatten([]) == [];
    }
  }
}
