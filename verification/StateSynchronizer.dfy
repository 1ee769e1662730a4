/** The node that batches its own updates for the others and applies theirs. */
module StateSynchronizer {
  import opened Common
  import opened JsonTree
  import opened Operations
  import opened ConflictResolver
  import opened DeltaCompressor
  import opened StateManager
  import opened SharedData
  import opened RemoteDeltas

  // ---------- what a remote delta announces ----------

  /** The deltas that handling one remote delta announces on this node, as any local update would be. */
  function Announced(s: State, id: string, ops: seq<Op>, now: int): seq<Delta> {
    if id in s.entities then [DeltaFor(s.entities[id], id, ops, now)] else []
  }

  function Echo(s: State, d: Delta, now: int, policy: Policy): seq<Delta> {
    if !Conflicts(s, d) then Announced(s, d.entityId, d.operations, now)
    else if !Contested(s, d) then []
    else Announced(s, d.entityId, ConflictOps(s, d, now, policy), now)
  }

  function EchoAll(s: State, deltas: seq<Delta>, now: int, max: nat, policy: Policy): seq<Delta> {
    if deltas == [] then []
    else EchoAll(s, Init(deltas), now, max, policy)
         + Echo(HandleAll(s, Init(deltas), now, max, policy), Last(deltas), now, policy)
  }

  /** `echo` announces the operations of `deltas`, delta by delta. */
  predicate Mirrors(echo: seq<Delta>, deltas: seq<Delta>) {
    |echo| == |deltas|
    && forall i :: 0 <= i < |deltas| ==>
        echo[i].entityId == deltas[i].entityId && echo[i].operations == deltas[i].operations
  }

  lemma {:induction false} OneEcho(s: State, d: Delta, now: int, policy: Policy)
    requires !Conflicts(s, d) && d.entityId in s.entities
    ensures |Echo(s, d, now, policy)| == 1
    ensures Echo(s, d, now, policy)[0].entityId == d.entityId && Echo(s, d, now, policy)[0].operations == d.operations
  {
  }

  lemma {:induction false} MirrorsLast(echo: seq<Delta>, deltas: seq<Delta>, e: Delta)
    requires deltas != [] && Mirrors(echo, Init(deltas))
    requires e.entityId == Last(deltas).entityId && e.operations == Last(deltas).operations
    ensures Mirrors(echo + [e], deltas)
  {
  }

  /** Every remote delta that is applied is queued for broadcast again: without conflicts a batch for
      known entities comes back as a batch of the same length. */
  lemma {:induction false} EveryDeltaEchoes(s: State, deltas: seq<Delta>, now: int, max: nat, policy: Policy)
    requires !AnyConflict(s, deltas, now, max) && forall d :: d in deltas ==> d.entityId in s.entities
    ensures Mirrors(EchoAll(s, deltas, now, max, policy), deltas)
  {
    if deltas != [] {
      var before, d := Init(deltas), Last(deltas);
      EveryDeltaEchoes(s, before, now, max, policy);
      HandleIsReceive(s, before, now, max, policy);
      ReceiveKeys(s, before, now, max);
      assert d in deltas;
      var mid := HandleAll(s, before, now, max, policy);
      OneEcho(mid, d, now, policy);
      var echo := Echo(mid, d, now, policy);
      assert echo == [echo[0]];
      MirrorsLast(EchoAll(s, before, now, max, policy), deltas, echo[0]);
    }
  }

  /** Exactly the deltas that are dropped are not queued again. */
  lemma {:induction false} EchoesUnlessDropped(s: State, d: Delta, now: int, policy: Policy)
    ensures Echo(s, d, now, policy) == []
            <==> d.entityId !in s.entities
                 || (s.entities[d.entityId].version > d.fromVersion && HistoryOf(s, d.entityId) == [])
    ensures |Echo(s, d, now, policy)| <= 1
  {
  }

  /** Overwriting an entity's data does not show in the delta announced next. */
  lemma {:induction false} AnnouncedOverwritten(s: State, id: string, overwritten: seq<Op>, ops: seq<Op>, now: int)
    requires id in s.entities
    ensures Announced(Overwritten(s, id, overwritten), id, ops, now) == Announced(s, id, ops, now)
  {
  }

  lemma {:induction false} OneMore(s: State, deltas: seq<Delta>, i: nat, now: int, max: nat, policy: Policy)
    requires i < |deltas|
    ensures var before := HandleAll(s, deltas[..i], now, max, policy);
            && HandleAll(s, deltas[..i + 1], now, max, policy) == Handle(before, deltas[i], now, max, policy)
            && EchoAll(s, deltas[..i + 1], now, max, policy) ==
               EchoAll(s, deltas[..i], now, max, policy) + Echo(before, deltas[i], now, policy)
  {
    assert Init(deltas[..i + 1]) == deltas[..i] && Last(deltas[..i + 1]) == deltas[i];
  }

  // ---------- the synchronizer ----------

  datatype SyncPeer = SyncPeer(lastSyncVersion: nat, lastSyncTime: int, syncCount: nat, errorCount: nat)

  class StateSynchronizer {
    const stateManager: StateManager
    const deltaCompressor: DeltaCompressor
    const conflictResolver: ConflictResolver
    const batchSize: nat
    var pendingDeltas: seq<Delta>
    var syncsPerformed: nat
    var peers: map<string, SyncPeer>

    constructor (stateManager: StateManager, conflictResolver: ConflictResolver, batchSize: nat)
      ensures this.stateManager == stateManager && this.conflictResolver == conflictResolver
              && this.batchSize == batchSize
      ensures fresh(deltaCompressor) && deltaCompressor.totalCompressed == 0
      ensures pendingDeltas == [] && syncsPerformed == 0 && peers == map[]
    {
      this.stateManager, this.conflictResolver, this.batchSize := stateManager, conflictResolver, batchSize;
      deltaCompressor := new DeltaCompressor();
      pendingDeltas, syncsPerformed, peers := [], 0, map[];
    }

    method AddPeer(nodeId: string)
      modifies this`peers
      ensures peers == if nodeId in old(peers) then old(peers) else old(peers)[nodeId := SyncPeer(0, 0, 0, 0)]
    {
      if nodeId !in peers {
        peers := peers[nodeId := SyncPeer(0, 0, 0, 0)];
      }
    }

    method OnEntityUpdated(delta: Delta)
      modifies this`pendingDeltas
      ensures pendingDeltas == old(pendingDeltas) + [delta]
    {
      pendingDeltas := pendingDeltas + [delta];
    }

    /** At most `batchSize` pending deltas leave the queue, compressed. */
    method FlushDeltas() returns (published: Option<seq<Delta>>)
      modifies this`pendingDeltas, this`syncsPerformed, deltaCompressor
      ensures old(pendingDeltas) == [] ==>
                published == None && pendingDeltas == [] && syncsPerformed == old(syncsPerformed)
      ensures old(pendingDeltas) != [] ==>
                var n := if batchSize <= |old(pendingDeltas)| then batchSize else |old(pendingDeltas)|;
                && published == Some(Compressed(old(pendingDeltas)[..n]))
                && pendingDeltas == old(pendingDeltas)[n..]
                && syncsPerformed == old(syncsPerformed) + 1
    {
      if pendingDeltas == [] {
        return None;
      }
      var n := if batchSize <= |pendingDeltas| then batchSize else |pendingDeltas|;
      var batch := pendingDeltas[..n];
      pendingDeltas := pendingDeltas[n..];
      var compressed := deltaCompressor.Compress(batch);
      syncsPerformed := syncsPerformed + 1;
      return Some(compressed);
    }

    /** Updates made here are announced like any other, so they join this node's own queue. */
    method ApplyUpdate(id: string, operations: seq<Op>, now: int)
      requires stateManager.Valid()
      modifies this`pendingDeltas, stateManager
      ensures stateManager.Valid()
      ensures stateManager.Model()
              == AfterUpdate(old(stateManager.Model()), id, operations, now, stateManager.maxHistoryPerEntity)
      ensures pendingDeltas == old(pendingDeltas) + Announced(old(stateManager.Model()), id, operations, now)
    {
      var _, emitted := stateManager.UpdateEntity(id, operations, now);
      if emitted.Some? {
        OnEntityUpdated(emitted.value);
      }
    }

    method OverwriteShared(id: string, operations: seq<Op>)
      requires stateManager.Valid() && id in stateManager.entities
      modifies stateManager
      ensures stateManager.Valid() && stateManager.Model() == Overwritten(old(stateManager.Model()), id, operations)
    {
      var data := stateManager.entities[id].data;
      for i := 0 to |operations|
        invariant data == Overwrite(operations[..i], stateManager.entities[id].data)
      {
        assert Init(operations[..i + 1]) == operations[..i] && Last(operations[..i + 1]) == operations[i];
        var op, p := operations[i], Split(operations[i].path);
        if op.kind == Set {
          data := Write(data, p, Some(op.value));
        } else if op.kind == Kind.Delete {
          data := Write(data, p, None);
        } else {
          data := Write(data, p, Read(data, p));
        }
      }
      assert operations[..|operations|] == operations;
      stateManager.ReplaceData(id, data);
    }

    method HandleOne(delta: Delta, now: int)
      requires stateManager.Valid()
      modifies this`pendingDeltas, stateManager, conflictResolver`conflictsResolved, conflictResolver`conflictsFailed
      ensures stateManager.Valid()
      ensures stateManager.Model() ==
              Handle(old(stateManager.Model()), delta, now, stateManager.maxHistoryPerEntity, conflictResolver.Model())
      ensures pendingDeltas
              == old(pendingDeltas) + Echo(old(stateManager.Model()), delta, now, conflictResolver.Model())
      ensures conflictResolver.conflictsResolved ==
              old(conflictResolver.conflictsResolved) + if Contested(old(stateManager.Model()), delta) then 1 else 0
      ensures conflictResolver.conflictsResolved != old(conflictResolver.conflictsResolved) <==>
              delta.entityId in old(stateManager.entities)
              && old(stateManager.entities)[delta.entityId].version > delta.fromVersion
              && HistoryOf(old(stateManager.Model()), delta.entityId) != []
    {
      var id := delta.entityId;
      if id !in stateManager.entities {
        ApplyUpdate(id, delta.operations, now);
      } else if stateManager.entities[id].version < delta.fromVersion {
        ApplyUpdate(id, delta.operations, now);
      } else if stateManager.entities[id].version == delta.fromVersion {
        ApplyUpdate(id, delta.operations, now);
      } else {
        var history := stateManager.GetEntityHistory(id, None);
        if history != [] {
          ResolveAndApply(delta, history[|history| - 1], now);
        }
      }
    }

    /** The conflict branch: local and remote version share one data object while the resolver looks at them. */
    method ResolveShared(delta: Delta, localDelta: Delta, now: int) returns (ops: seq<Op>)
      requires stateManager.Valid() && Contested(stateManager.Model(), delta)
      requires localDelta == Last(HistoryOf(stateManager.Model(), delta.entityId))
      modifies stateManager, conflictResolver`conflictsResolved, conflictResolver`conflictsFailed
      ensures stateManager.Valid()
      ensures stateManager.Model() == Overwritten(old(stateManager.Model()), delta.entityId, delta.operations)
      ensures ops == ConflictOps(old(stateManager.Model()), delta, now, conflictResolver.Model())
      ensures conflictResolver.conflictsResolved == old(conflictResolver.conflictsResolved) + 1
    {
      OverwriteShared(delta.entityId, delta.operations);
      var local := stateManager.entities[delta.entityId];
      assert local == stateManager.Model().entities[delta.entityId];
      var remote := local.(version := delta.toVersion, lastModified := delta.timestamp);
      var result := conflictResolver.Resolve(local, remote, localDelta, delta, now);
      ops := if result.mergedOperations.Some? then result.mergedOperations.value else delta.operations;
    }

    method ResolveAndApply(delta: Delta, localDelta: Delta, now: int)
      requires stateManager.Valid() && Contested(stateManager.Model(), delta)
      requires localDelta == Last(HistoryOf(stateManager.Model(), delta.entityId))
      modifies this`pendingDeltas, stateManager, conflictResolver`conflictsResolved, conflictResolver`conflictsFailed
      ensures stateManager.Valid()
      ensures stateManager.Model() ==
              Handle(old(stateManager.Model()), delta, now, stateManager.maxHistoryPerEntity, conflictResolver.Model())
      ensures pendingDeltas
              == old(pendingDeltas) + Echo(old(stateManager.Model()), delta, now, conflictResolver.Model())
      ensures conflictResolver.conflictsResolved == old(conflictResolver.conflictsResolved) + 1
    {
      ghost var s := stateManager.Model();
      var ops := ResolveShared(delta, localDelta, now);
      AnnouncedOverwritten(s, delta.entityId, delta.operations, ops, now);
      ApplyUpdate(delta.entityId, ops, now);
    }

    method HandleDeltas(deltas: seq<Delta>, now: int)
      requires stateManager.Valid()
      modifies this`pendingDeltas, stateManager, conflictResolver`conflictsResolved, conflictResolver`conflictsFailed
      ensures stateManager.Valid()
      ensures stateManager.Model() ==
              HandleAll(old(stateManager.Model()), deltas, now, stateManager.maxHistoryPerEntity,
                        conflictResolver.Model())
      ensures pendingDeltas == old(pendingDeltas)
              + EchoAll(old(stateManager.Model()), deltas, now, stateManager.maxHistoryPerEntity,
                        conflictResolver.Model())
    {
      ghost var s, queue, policy := stateManager.Model(), pendingDeltas, conflictResolver.Model();
      ghost var max := stateManager.maxHistoryPerEntity;
      for i := 0 to |deltas|
        invariant stateManager.Valid() && conflictResolver.Model() == policy
        invariant stateManager.Model() == HandleAll(s, deltas[..i], now, max, policy)
        invariant pendingDeltas == queue + EchoAll(s, deltas[..i], now, max, policy)
      {
        ghost var t, sent := stateManager.Model(), pendingDeltas;
        HandleOne(deltas[i], now);
        assert stateManager.Model() == Handle(t, deltas[i], now, max, policy);
        assert pendingDeltas == sent + Echo(t, deltas[i], now, policy);
        OneMore(s, deltas, i, now, max, policy);
      }
      assert deltas[..|deltas|] == deltas;
    }

    /** The whole batch, and the bookkeeping for a known sender. */
    method HandleRemoteDelta(source: string, deltas: seq<Delta>, now: int)
      requires stateManager.Valid()
      modifies this`pendingDeltas, this`peers, stateManager
      modifies conflictResolver`conflictsResolved, conflictResolver`conflictsFailed
      ensures stateManager.Valid()
      ensures stateManager.Model() ==
              HandleAll(old(stateManager.Model()), deltas, now, stateManager.maxHistoryPerEntity,
                        conflictResolver.Model())
      ensures pendingDeltas == old(pendingDeltas)
              + EchoAll(old(stateManager.Model()), deltas, now, stateManager.maxHistoryPerEntity,
                        conflictResolver.Model())
      ensures source !in old(peers) ==> peers == old(peers)
      ensures source in old(peers) ==>
                peers == old(peers)[source := SyncPeer(stateManager.version, now, old(peers)[source].syncCount + 1,
                                                       old(peers)[source].errorCount)]
    {
      HandleDeltas(deltas, now);
      if source in peers {
        var peer := peers[source];
        peers := peers[source := peer.(lastSyncVersion := stateManager.version, lastSyncTime := now,
              syncCount := peer.syncCount + 1)];
      }
    }
  }
}
