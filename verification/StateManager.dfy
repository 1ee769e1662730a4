/** Entities, versions and bounded histories: the primary copy of the data. */
module StateManager {
  import opened Common
  import opened JsonTree
  import opened Operations
  import opened DeltaCompressor

  datatype Entity = Entity(id: string, kind: string, ownerId: string, data: Container, version: nat, lastModified: int)

  datatype Snapshot = Snapshot(version: nat, timestamp: int, entities: map<string, Entity>)

  datatype State = State(entities: map<string, Entity>, history: map<string, seq<Delta>>, version: nat)

  // ---------- one step ----------

  function HistoryOf(s: State, id: string): seq<Delta> {
    if id in s.history then s.history[id] else []
  }

  function Bounded(h: seq<Delta>, max: nat): seq<Delta> {
    if |h| > max then h[1..] else h
  }

  function Updated(e: Entity, ops: seq<Op>, now: int): Entity {
    e.(data := Run(ops, e.data), version := e.version + 1, lastModified := now)
  }

  function DeltaFor(e: Entity, id: string, ops: seq<Op>, now: int): Delta {
    Delta(id, e.version, e.version + 1, ops, now)
  }

  function AfterUpdate(s: State, id: string, ops: seq<Op>, now: int, max: nat): State {
    if id !in s.entities then s
    else
      var e := s.entities[id];
      State(s.entities[id := Updated(e, ops, now)],
            s.history[id := Bounded(HistoryOf(s, id) + [DeltaFor(e, id, ops, now)], max)],
            s.version + 1)
  }

  function AfterCreate(s: State, id: string, kind: string, ownerId: string, data: Container, now: int): State {
    State(s.entities[id := Entity(id, kind, ownerId, data, 1, now)], s.history, s.version + 1)
  }

  function AfterDelete(s: State, id: string): State {
    if id !in s.entities then s else State(s.entities - {id}, s.history - {id}, s.version + 1)
  }

  function AfterLoad(snapshot: Snapshot): State {
    State(snapshot.entities, map[], snapshot.version)
  }

  function Since(h: seq<Delta>, since: int): seq<Delta> {
    if h == [] then [] else (if h[0].fromVersion >= since then [h[0]] else []) + Since(h[1..], since)
  }

  // ---------- the history chain ----------

  /** Every delta starts where the one before it ended, and the last one ends at the current version. */
  predicate Chained(h: seq<Delta>, id: string, version: nat) {
    forall i :: 0 <= i < |h| ==>
      && h[i].entityId == id && h[i].fromVersion == version - |h| + i && h[i].toVersion == h[i].fromVersion + 1
      && h[i].fromVersion >= 1
  }

  predicate HistoryOk(s: State, max: nat) {
    && (forall id :: id in s.entities ==> s.entities[id].version >= 1)
    && (forall id :: id in s.history ==>
          id in s.entities && |s.history[id]| <= max && Chained(s.history[id], id, s.entities[id].version))
  }

  datatype Step =
    | DoUpdate(id: string, ops: seq<Op>, now: int)
    | DoCreate(id: string, kind: string, ownerId: string, data: Container, now: int)
    | DoDelete(id: string)
    | DoLoad(snapshot: Snapshot)

  function Take(s: State, step: Step, max: nat): State {
    match step
    case DoUpdate(id, ops, now) => AfterUpdate(s, id, ops, now, max)
    case DoCreate(id, kind, ownerId, data, now) => AfterCreate(s, id, kind, ownerId, data, now)
    case DoDelete(id) => AfterDelete(s, id)
    case DoLoad(snapshot) => AfterLoad(snapshot)
  }

  function Exec(s: State, steps: seq<Step>, max: nat): State {
    if steps == [] then s else Take(Exec(s, Init(steps), max), Last(steps), max)
  }

  /** What the caller of a step has to respect. */
  predicate Admissible(s: State, step: Step) {
    match step
    case DoCreate(id, _, _, _, _) => HistoryOf(s, id) == []
    case DoLoad(snapshot) => forall id :: id in snapshot.entities ==> snapshot.entities[id].version >= 1
    case _ => true
  }

  predicate AllAdmissible(s: State, steps: seq<Step>, max: nat) {
    steps == [] || (AllAdmissible(s, Init(steps), max) && Admissible(Exec(s, Init(steps), max), Last(steps)))
  }

  lemma {:induction false} PushChained(h: seq<Delta>, id: string, version: nat, d: Delta, max: nat)
    requires Chained(h, id, version) && |h| <= max && version >= 1
    requires d.entityId == id && d.fromVersion == version && d.toVersion == version + 1
    ensures Chained(Bounded(h + [d], max), id, version + 1) && |Bounded(h + [d], max)| <= max
  {
  }

  lemma {:induction false} UpdateKeepsHistory(s: State, id: string, ops: seq<Op>, now: int, max: nat)
    requires HistoryOk(s, max)
    ensures HistoryOk(AfterUpdate(s, id, ops, now, max), max)
  {
    if id in s.entities {
      var e, h := s.entities[id], HistoryOf(s, id);
      assert Chained(h, id, e.version);
      PushChained(h, id, e.version, DeltaFor(e, id, ops, now), max);
    }
  }

  lemma {:induction false} TakeKeepsHistory(s: State, step: Step, max: nat)
    requires HistoryOk(s, max) && Admissible(s, step)
    ensures HistoryOk(Take(s, step, max), max)
  {
    match step {
      case DoUpdate(id, ops, now) => UpdateKeepsHistory(s, id, ops, now, max);
      case _ =>
    }
  }

  /** In every reachable state each history is a gapless chain of bounded length ending at the entity's version. */
  lemma {:induction false} HistoryAlwaysOk(s: State, steps: seq<Step>, max: nat)
    requires HistoryOk(s, max) && AllAdmissible(s, steps, max)
    ensures HistoryOk(Exec(s, steps, max), max)
  {
    if steps != [] {
      HistoryAlwaysOk(s, Init(steps), max);
      TakeKeepsHistory(Exec(s, Init(steps), max), Last(steps), max);
    }
  }

  /** Creating over an existing id resets its version but not its history: the chain survives
      exactly when no history is retained for that id. */
  lemma {:induction false} CreateKeepsHistoryIff(s: State, id: string, kind: string, ownerId: string, data: Container,
                                                 now: int, max: nat)
    requires HistoryOk(s, max)
    ensures HistoryOk(AfterCreate(s, id, kind, ownerId, data, now), max) <==> HistoryOf(s, id) == []
  {
    var s' := AfterCreate(s, id, kind, ownerId, data, now);
    var h := HistoryOf(s, id);
    if h != [] {
      assert Chained(h, id, s.entities[id].version);
      assert h[|h| - 1].toVersion >= 2;
      assert HistoryOk(s', max) ==> Chained(s'.history[id], id, 1);
    }
  }

  // ---------- replaying the retained history ----------

  /** A chained history selects by position: `since` keeps the last `version - since` deltas. */
  lemma {:induction false} SinceIsSuffix(h: seq<Delta>, id: string, version: nat, since: nat)
    requires Chained(h, id, version) && since <= version
    ensures Since(h, since) == h[if |h| <= version - since then 0 else |h| - (version - since)..]
  {
    if h != [] {
      SinceIsSuffix(h[1..], id, version, since);
    }
  }

  lemma {:induction false} SinceStep(h: seq<Delta>, i: nat, since: int)
    requires i < |h|
    ensures Since(h[i..], since) == (if h[i].fromVersion >= since then [h[i]] else []) + Since(h[i + 1..], since)
  {
    assert h[i..][0] == h[i] && h[i..][1..] == h[i + 1..];
  }

  lemma {:induction false} SinceMembers(h: seq<Delta>, since: int)
    ensures forall d :: d in Since(h, since) <==> d in h && d.fromVersion >= since
  {
    if h != [] {
      SinceMembers(h[1..], since);
      assert forall d :: d in h <==> d == h[0] || d in h[1..];
    }
  }

  lemma {:induction false} SinceVersion(s: State, id: string, since: int, max: nat)
    ensures HistoryOk(s, max) && id in s.entities && 0 <= since <= s.entities[id].version ==>
              var h, passed := HistoryOf(s, id), s.entities[id].version - since;
              Since(h, since) == h[if |h| <= passed then 0 else |h| - passed..]
  {
    if HistoryOk(s, max) && id in s.history && 0 <= since <= s.entities[id].version {
      SinceIsSuffix(s.history[id], id, s.entities[id].version, since);
    }
  }

  predicate OnlyUpdates(steps: seq<Step>, id: string) {
    forall i :: 0 <= i < |steps| ==> !steps[i].DoLoad? && (steps[i].id == id ==> steps[i].DoUpdate?)
  }

  lemma {:induction false} FlattenConcat(a: seq<Delta>, b: seq<Delta>)
    ensures Flatten(a + b) == Flatten(a) + Flatten(b)
  {
    if a == [] {
      assert a + b == b;
    } else {
      assert (a + b)[1..] == a[1..] + b;
      FlattenConcat(a[1..], b);
    }
  }

  lemma {:induction false} FlattenLast(deltas: seq<Delta>, d: Delta, data: Container)
    ensures Run(Flatten(deltas + [d]), data) == Run(d.operations, Run(Flatten(deltas), data))
  {
    FlattenConcat(deltas, [d]);
    assert [d][1..] == [] && Flatten([d]) == d.operations + [] == d.operations;
    RunConcat(Flatten(deltas), d.operations, data);
  }

  /** The retained deltas since version `since` lead from `data` to the entity's data,
      unless more than `max` are asked for. */
  predicate Replays(s: State, id: string, since: nat, data: Container, max: nat)
    requires id in s.entities
  {
    var e, h := s.entities[id], Since(HistoryOf(s, id), since);
    && since <= e.version
    && |h| == (if e.version - since <= max then e.version - since else max)
    && (e.version - since <= max ==> Run(Flatten(h), data) == e.data)
  }

  /** Pushing a delta onto a bounded chain appends it to every suffix that is still complete. */
  lemma {:induction false} PushSince(h: seq<Delta>, id: string, version: nat, d: Delta, since: nat, max: nat)
    requires Chained(h, id, version) && since <= version && |h| <= max
    requires d.entityId == id && d.fromVersion == version && d.toVersion == version + 1 && version >= 1
    requires |Since(h, since)| == if version - since <= max then version - since else max
    ensures var h' := Bounded(h + [d], max);
            && |Since(h', since)| == (if version + 1 - since <= max then version + 1 - since else max)
            && (version + 1 - since <= max ==> Since(h', since) == Since(h, since) + [d])
  {
    var h' := Bounded(h + [d], max);
    PushChained(h, id, version, d, max);
    SinceIsSuffix(h, id, version, since);
    SinceIsSuffix(h', id, version + 1, since);
  }

  lemma {:induction false} UpdateReplays(s: State, id: string, ops: seq<Op>, now: int, since: nat, data: Container,
                                         max: nat)
    requires HistoryOk(s, max) && id in s.entities && Replays(s, id, since, data, max)
    ensures Replays(AfterUpdate(s, id, ops, now, max), id, since, data, max)
  {
    var e, h := s.entities[id], HistoryOf(s, id);
    var d := DeltaFor(e, id, ops, now);
    PushSince(h, id, e.version, d, since, max);
    FlattenLast(Since(h, since), d, data);
    assert HistoryOf(AfterUpdate(s, id, ops, now, max), id) == Bounded(h + [d], max);
  }

  /** Replaying what `getEntityHistory(id, since)` returns over the data at version `since` rebuilds the
      current data whenever no more than `max` updates lie in between; otherwise the oldest are gone. */
  lemma {:induction false} HistoryReplays(s: State, steps: seq<Step>, id: string, max: nat)
    requires HistoryOk(s, max) && AllAdmissible(s, steps, max) && id in s.entities && OnlyUpdates(steps, id)
    ensures id in Exec(s, steps, max).entities
    ensures Replays(Exec(s, steps, max), id, s.entities[id].version, s.entities[id].data, max)
  {
    var e := s.entities[id];
    if steps == [] {
      SinceIsSuffix(HistoryOf(s, id), id, e.version, e.version);
      assert HistoryOf(s, id)[|HistoryOf(s, id)|..] == [];
    } else {
      var step, m := Last(steps), Exec(s, Init(steps), max);
      HistoryAlwaysOk(s, Init(steps), max);
      HistoryReplays(s, Init(steps), id, max);
      if step.id == id {
        UpdateReplays(m, id, step.ops, step.now, e.version, e.data, max);
      } else {
        assert HistoryOf(Take(m, step, max), id) == HistoryOf(m, id);
      }
    }
  }

  // ---------- which entities there are, and what they hold ----------

  predicate Brings(step: Step, id: string) {
    (step.DoCreate? && step.id == id) || (step.DoLoad? && id in step.snapshot.entities)
  }

  predicate Takes(step: Step, id: string) {
    (step.DoDelete? && step.id == id) || (step.DoLoad? && id !in step.snapshot.entities)
  }

  /** Nothing from position `i` on removes the entity. */
  predicate Untaken(steps: seq<Step>, id: string, i: nat) {
    forall j :: i <= j < |steps| ==> !Takes(steps[j], id)
  }

  lemma {:induction false} UntakenLast(steps: seq<Step>, id: string, i: nat)
    requires steps != [] && i < |steps|
    ensures Untaken(steps, id, i) <==> Untaken(Init(steps), id, i) && !Takes(Last(steps), id)
  {
    if Untaken(Init(steps), id, i) {
      forall j | i <= j < |steps| && j < |steps| - 1 ensures !Takes(steps[j], id) {
        assert steps[j] == Init(steps)[j];
      }
    }
    if Untaken(steps, id, i) {
      forall j | i <= j < |Init(steps)| ensures !Takes(Init(steps)[j], id) {
        assert steps[j] == Init(steps)[j];
      }
    }
  }

  /** Some step brings the entity and no later one removes it. */
  predicate Brought(steps: seq<Step>, id: string) {
    exists i :: 0 <= i < |steps| && Brings(steps[i], id) && Untaken(steps, id, i + 1)
  }

  lemma {:induction false} BroughtLast(steps: seq<Step>, id: string)
    requires steps != []
    ensures Brought(steps, id) <==> Brings(Last(steps), id) || (Brought(Init(steps), id) && !Takes(Last(steps), id))
  {
    var init, last := Init(steps), Last(steps);
    if Brings(last, id) {
      assert Brings(steps[|steps| - 1], id) && Untaken(steps, id, |steps|);
    } else if Brought(steps, id) {
      var i :| 0 <= i < |steps| && Brings(steps[i], id) && Untaken(steps, id, i + 1);
      UntakenLast(steps, id, i + 1);
      assert Brings(init[i], id);
    } else if Brought(init, id) {
      var i :| 0 <= i < |init| && Brings(init[i], id) && Untaken(init, id, i + 1);
      UntakenLast(steps, id, i + 1);
      assert Brings(steps[i], id);
    }
  }

  /** An entity exists after a run if and only if a creation or a loaded snapshot brought it, or it was there
      before, and no deletion of it and no snapshot without it came afterwards. */
  lemma {:induction false} ExistsIff(s: State, steps: seq<Step>, id: string, max: nat)
    ensures id in Exec(s, steps, max).entities <==>
            Brought(steps, id) || (id in s.entities && Untaken(steps, id, 0))
  {
    if steps != [] {
      ExistsIff(s, Init(steps), id, max);
      UntakenLast(steps, id, 0);
      BroughtLast(steps, id);
    }
  }

  lemma {:induction false} HistoryOwned(s: State, steps: seq<Step>, max: nat)
    requires s.history.Keys <= s.entities.Keys
    ensures Exec(s, steps, max).history.Keys <= Exec(s, steps, max).entities.Keys
  {
    if steps != [] {
      HistoryOwned(s, Init(steps), max);
    }
  }

  /** After a deletion the entity and its history stay away until the id is created again or comes with
      a loaded snapshot. */
  lemma {:induction false} DeletedStaysAway(s: State, steps: seq<Step>, id: string, later: seq<Step>, max: nat)
    requires s.history.Keys <= s.entities.Keys
    requires forall i :: 0 <= i < |later| ==> !Brings(later[i], id)
    ensures var s' := Exec(s, steps + [DoDelete(id)] + later, max); id !in s'.entities && id !in s'.history
  {
    var all := steps + [DoDelete(id)] + later;
    ExistsIff(s, all, id, max);
    HistoryOwned(s, all, max);
    assert Takes(all[|steps|], id);
    forall i | |steps| < i < |all| ensures !Brings(all[i], id) {
      assert all[i] == later[i - |steps| - 1];
    }
    forall i | 0 <= i < |all| && Brings(all[i], id) ensures i < |steps| && !Untaken(all, id, i + 1) {
    }
  }

  /** The step updates this entity. */
  predicate Updates(step: Step, id: string) { step.DoUpdate? && step.id == id }

  function UpdateCount(steps: seq<Step>, id: string): nat {
    if steps == [] then 0 else UpdateCount(Init(steps), id) + if Updates(Last(steps), id) then 1 else 0
  }

  /** The operations of an entity's updates, in order. */
  function OpsFor(steps: seq<Step>, id: string): seq<Op> {
    if steps == [] then []
    else OpsFor(Init(steps), id) + if Updates(Last(steps), id) then Last(steps).ops else []
  }

  /** The time of an entity's last update, or `before` when there is none. */
  function LastTime(steps: seq<Step>, id: string, before: int): int {
    if steps == [] then before
    else if Updates(Last(steps), id) then Last(steps).now
    else LastTime(Init(steps), id, before)
  }

  /** Whatever happens to other entities, one that is only updated keeps its id, type and owner, gains a version
      per update, and holds its data with the operations of all these updates applied in order. */
  lemma {:induction false} UpdatesAddUp(s: State, steps: seq<Step>, id: string, max: nat)
    requires id in s.entities && OnlyUpdates(steps, id)
    ensures id in Exec(s, steps, max).entities
    ensures var e, e' := s.entities[id], Exec(s, steps, max).entities[id];
            && e'.id == e.id && e'.kind == e.kind && e'.ownerId == e.ownerId
            && e'.version == e.version + UpdateCount(steps, id)
            && e'.data == Run(OpsFor(steps, id), e.data)
            && e'.lastModified == LastTime(steps, id, e.lastModified)
  {
    if steps != [] {
      UpdatesAddUp(s, Init(steps), id, max);
      if Updates(Last(steps), id) {
        RunConcat(OpsFor(Init(steps), id), Last(steps).ops, s.entities[id].data);
      } else {
        assert OpsFor(Init(steps), id) + [] == OpsFor(Init(steps), id);
      }
    }
  }

  /** The newest retained delta is stamped with the entity's own time of modification, unless updates came
      before the run only. */
  lemma {:induction false} NewestDeltaStamped(s: State, steps: seq<Step>, id: string, max: nat)
    requires id in s.entities && OnlyUpdates(steps, id) && UpdateCount(steps, id) > 0 && max > 0
    ensures id in Exec(s, steps, max).entities && HistoryOf(Exec(s, steps, max), id) != []
    ensures var d, e := Last(HistoryOf(Exec(s, steps, max), id)), Exec(s, steps, max).entities[id];
            d.timestamp == e.lastModified && d.toVersion == e.version
  {
    UpdatesAddUp(s, Init(steps), id, max);
    if !Updates(Last(steps), id) {
      NewestDeltaStamped(s, Init(steps), id, max);
      assert HistoryOf(Exec(s, steps, max), id) == HistoryOf(Exec(s, Init(steps), max), id);
    }
  }

  // ---------- the manager ----------

  class StateManager {
    var entities: map<string, Entity>
    var history: map<string, seq<Delta>>
    var version: nat
    var cachedSnapshot: Option<Snapshot>
    const maxHistoryPerEntity: nat

    ghost function Model(): State
      reads this
    {
      State(entities, history, version)
    }

    /** The cached snapshot is dropped by every change, so it is always current. */
    ghost predicate Valid()
      reads this
    {
      cachedSnapshot.Some? ==> cachedSnapshot.value.version == version && cachedSnapshot.value.entities == entities
    }

    constructor (maxHistory: nat)
      ensures Valid() && Model() == State(map[], map[], 0) && maxHistoryPerEntity == maxHistory
    {
      entities, history, version, cachedSnapshot := map[], map[], 0, None;
      maxHistoryPerEntity := maxHistory;
    }

    method CreateEntity(kind: string, ownerId: string, data: Container, id: string, now: int) returns (entity: Entity)
      requires Valid()
      modifies this
      ensures Valid()
      ensures Model() == AfterCreate(old(Model()), id, kind, ownerId, data, now)
      ensures entities == old(entities)[id := entity] && history == old(history) && version == old(version) + 1
      ensures entity.id == id && entity.kind == kind && entity.ownerId == ownerId && entity.data == data
      ensures entity.version == 1 && entity.lastModified == now
    {
      version := version + 1;
      entity := Entity(id, kind, ownerId, data, 1, now);
      entities := entities[id := entity];
      cachedSnapshot := None;
    }

    method ApplyAll(data: Container, operations: seq<Op>) returns (r: Container)
      ensures r == Run(operations, data)
    {
      r := data;
      for i := 0 to |operations|
        invariant r == Run(operations[..i], data)
      {
        RunConcat(operations[..i], [operations[i]], data);
        assert operations[..i + 1] == operations[..i] + [operations[i]];
        assert [operations[i]][1..] == [];
        assert Run([operations[i]], r) == Run([], Apply(operations[i], r));
        r := Apply(operations[i], r);
      }
      assert operations[..|operations|] == operations;
    }

    /** `emitted` is the delta carried by the update event. */
    method UpdateEntity(id: string, operations: seq<Op>, now: int)
        returns (entity: Option<Entity>, emitted: Option<Delta>)
      requires Valid()
      modifies this
      ensures Valid()
      ensures Model() == AfterUpdate(old(Model()), id, operations, now, maxHistoryPerEntity)
      ensures id !in old(entities) ==> entity == None && emitted == None
      ensures id in old(entities) ==> entity.Some? && emitted.Some?
      ensures id in old(entities) ==>
                var e, e', d := old(entities)[id], entity.value, emitted.value;
                && entities == old(entities)[id := e'] && version == old(version) + 1
                && e' == e.(data := Run(operations, e.data), version := e.version + 1, lastModified := now)
                && d.entityId == id && d.fromVersion == e.version && d.toVersion == e'.version
                && d.operations == operations && d.timestamp == now
                && history - {id} == old(history) - {id}
                && (maxHistoryPerEntity > 0 ==> id in history && history[id] != [] && Last(history[id]) == d)
    {
      if id !in entities {
        return None, None;
      }
      var fromVersion := entities[id].version;
      var data := ApplyAll(entities[id].data, operations);
      var changed := entities[id].(data := data, version := fromVersion + 1, lastModified := now);
      entities := entities[id := changed];
      version := version + 1;
      var delta := Delta(id, fromVersion, changed.version, operations, now);
      AddToHistory(id, delta);
      cachedSnapshot := None;
      return Some(changed), Some(delta);
    }

    method AddToHistory(id: string, delta: Delta)
      modifies this`history
      ensures history == old(history)[id := Bounded(HistoryOf(old(Model()), id) + [delta], maxHistoryPerEntity)]
    {
      var entityHistory := if id in history then history[id] else [];
      entityHistory := entityHistory + [delta];
      if |entityHistory| > maxHistoryPerEntity {
        entityHistory := entityHistory[1..];
      }
      history := history[id := entityHistory];
    }

    method DeleteEntity(id: string) returns (deleted: bool)
      requires Valid()
      modifies this
      ensures Valid()
      ensures Model() == AfterDelete(old(Model()), id) && (deleted <==> id in old(entities))
      ensures deleted ==> entities == old(entities) - {id} && history == old(history) - {id}
                          && version == old(version) + 1
      ensures !deleted ==> entities == old(entities) && history == old(history) && version == old(version)
    {
      if id !in entities {
        return false;
      }
      entities := entities - {id};
      history := history - {id};
      version := version + 1;
      cachedSnapshot := None;
      return true;
    }

    method FilterSince(h: seq<Delta>, since: int) returns (r: seq<Delta>)
      ensures r == Since(h, since)
    {
      r := [];
      assert h[0..] == h;
      for i := 0 to |h|
        invariant r + Since(h[i..], since) == Since(h, since)
      {
        SinceStep(h, i, since);
        if h[i].fromVersion >= since {
          r := r + [h[i]];
        }
      }
    }

    /** Without `since` all that is retained; with it the deltas that start there or later, which in a
        chained history are the last ones, one per version passed since then. */
    method GetEntityHistory(id: string, since: Option<int>) returns (r: seq<Delta>)
      ensures since == None ==> r == HistoryOf(Model(), id)
      ensures since.Some? ==> forall d :: d in r <==> d in HistoryOf(Model(), id) && d.fromVersion >= since.value
      ensures since.Some? && HistoryOk(Model(), maxHistoryPerEntity) && id in entities
              && 0 <= since.value <= entities[id].version ==>
                var h, passed := HistoryOf(Model(), id), entities[id].version - since.value;
                r == h[if |h| <= passed then 0 else |h| - passed..]
    {
      var h := if id in history then history[id] else [];
      if since.None? {
        return h;
      }
      r := FilterSince(h, since.value);
      SinceMembers(h, since.value);
      SinceVersion(Model(), id, since.value, maxHistoryPerEntity);
    }

    method CreateSnapshot(now: int) returns (snapshot: Snapshot)
      requires Valid()
      modifies this`cachedSnapshot
      ensures Valid()
      ensures snapshot.version == version && snapshot.entities == entities && cachedSnapshot == Some(snapshot)
      ensures snapshot.timestamp == if old(cachedSnapshot).Some? then old(cachedSnapshot).value.timestamp else now
    {
      if cachedSnapshot.Some? && cachedSnapshot.value.version == version {
        return cachedSnapshot.value;
      }
      snapshot := Snapshot(version, now, entities);
      cachedSnapshot := Some(snapshot);
    }

    method LoadSnapshot(snapshot: Snapshot)
      modifies this
      ensures Valid() && Model() == AfterLoad(snapshot)
      ensures entities == snapshot.entities && version == snapshot.version && history == map[]
    {
      entities := snapshot.entities;
      version := snapshot.version;
      history := map[];
      cachedSnapshot := None;
    }

    /** A caller that holds the entity edits its data in place; a cached snapshot shares the same object. */
    method ReplaceData(id: string, data: Container)
      requires Valid() && id in entities
      modifies this`entities, this`cachedSnapshot
      ensures Valid()
      ensures Model() == old(Model()).(entities := old(entities)[id := old(entities)[id].(data := data)])
    {
      entities := entities[id := entities[id].(data := data)];
      if cachedSnapshot.Some? {
        cachedSnapshot := Some(cachedSnapshot.value.(entities := entities));
      }
    }
  }
}
