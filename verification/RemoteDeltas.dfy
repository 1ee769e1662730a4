/** What a node does with deltas from another node, including the conflict branch. */
module RemoteDeltas {
  import opened Common
  import opened JsonTree
  import opened Operations
  import opened Collapse
  import opened CollapseTheorems
  import opened StateManager
  import opened ConflictResolver
  import opened SharedData

  // ---------- without a conflict ----------

  /** One delta is applied, without copying its version. */
  function Receive(s: State, d: Delta, now: int, max: nat): State {
    AfterUpdate(s, d.entityId, d.operations, now, max)
  }

  predicate Conflicts(s: State, d: Delta) {
    d.entityId in s.entities && s.entities[d.entityId].version > d.fromVersion
  }

  function ReceiveAll(s: State, deltas: seq<Delta>, now: int, max: nat): State {
    if deltas == [] then s else Receive(ReceiveAll(s, Init(deltas), now, max), Last(deltas), now, max)
  }

  predicate AnyConflict(s: State, deltas: seq<Delta>, now: int, max: nat) {
    deltas != []
    && (AnyConflict(s, Init(deltas), now, max) || Conflicts(ReceiveAll(s, Init(deltas), now, max), Last(deltas)))
  }

  lemma {:induction false} ReceiveKeys(s: State, deltas: seq<Delta>, now: int, max: nat)
    ensures ReceiveAll(s, deltas, now, max).entities.Keys == s.entities.Keys
  {
    if deltas != [] {
      ReceiveKeys(s, Init(deltas), now, max);
    }
  }

  // ---------- with one ----------

  predicate Contested(s: State, d: Delta) {
    Conflicts(s, d) && HistoryOf(s, d.entityId) != []
  }

  function Overwritten(s: State, id: string, ops: seq<Op>): State
    requires id in s.entities
  {
    s.(entities := s.entities[id := s.entities[id].(data := Overwrite(ops, s.entities[id].data))])
  }

  /** The local and the remote version handed to the resolver share one data object. */
  function Outcome(s: State, d: Delta, now: int, policy: Policy): Resolution
    requires Contested(s, d)
  {
    var local := Overwritten(s, d.entityId, d.operations).entities[d.entityId];
    var remote := local.(version := d.toVersion, lastModified := d.timestamp);
    Resolved(policy, local, remote, Last(HistoryOf(s, d.entityId)), d, now)
  }

  /** The operations applied after the resolution. */
  function ConflictOps(s: State, d: Delta, now: int, policy: Policy): seq<Op>
    requires Contested(s, d)
  {
    var r := Outcome(s, d, now, policy);
    if r.mergedOperations.Some? then r.mergedOperations.value else d.operations
  }

  function Handle(s: State, d: Delta, now: int, max: nat, policy: Policy): State {
    if !Conflicts(s, d) then Receive(s, d, now, max)
    else if !Contested(s, d) then s
    else AfterUpdate(Overwritten(s, d.entityId, d.operations), d.entityId, ConflictOps(s, d, now, policy), now, max)
  }

  function HandleAll(s: State, deltas: seq<Delta>, now: int, max: nat, policy: Policy): State {
    if deltas == [] then s else Handle(HandleAll(s, Init(deltas), now, max, policy), Last(deltas), now, max, policy)
  }

  /** Without conflicts a batch is simply received, whatever the policy. */
  lemma {:induction false} HandleIsReceive(s: State, deltas: seq<Delta>, now: int, max: nat, policy: Policy)
    requires !AnyConflict(s, deltas, now, max)
    ensures HandleAll(s, deltas, now, max, policy) == ReceiveAll(s, deltas, now, max)
  {
    if deltas != [] {
      HandleIsReceive(s, Init(deltas), now, max, policy);
    }
  }

  /** The local version decides: a delta that starts at it, or later, is applied as it is; one that starts earlier is
      dropped when the entity has no local history, and otherwise applied, with the operations that a merge with
      the last local delta leaves if merging is asked for. */
  lemma {:induction false} VersionDecides(s: State, d: Delta, now: int, max: nat, policy: Policy)
    requires d.entityId in s.entities && max > 0
    ensures var id, e, h := d.entityId, s.entities[d.entityId], HistoryOf(s, d.entityId);
            var s' := Handle(s, d, now, max, policy);
            && (e.version > d.fromVersion && h == [] ==> s' == s)
            && (e.version <= d.fromVersion ==>
                  id in s'.entities && s'.entities[id].data == Run(d.operations, e.data)
                  && HistoryOf(s', id) != [] && Last(HistoryOf(s', id)).operations == d.operations)
            && (e.version > d.fromVersion && h != [] ==>
                  HistoryOf(s', id) != []
                  && Last(HistoryOf(s', id)).operations ==
                     if e.kind !in policy.custom && policy.strategy == MergeData
                     then MergedOperations(Last(h).operations, d.operations) else d.operations)
            && (e.version <= d.fromVersion || h != [] ==>
                  id in s'.entities && s'.entities[id].version == e.version + 1 && s'.version == s.version + 1)
  {
  }

  // ---------- what became of the winner ----------

  /** Does this policy pick a winner for entities of this type, instead of merging operations? */
  predicate PicksWinner(policy: Policy, kind: string) {
    kind in policy.custom || policy.strategy != MergeData
  }

  /** A contested delta is applied like an uncontested one, whichever version the policy lets win:
      timestamps, versions, strategies and custom resolvers make no difference. */
  lemma {:induction false} WinnerIgnored(s: State, d: Delta, now: int, max: nat, policy: Policy)
    requires Contested(s, d) && PicksWinner(policy, s.entities[d.entityId].kind)
    ensures Handle(s, d, now, max, policy) == Receive(s, d, now, max)
  {
    OverwriteHidden(d.operations, s.entities[d.entityId].data);
  }

  /** The remote version of an entity, as a separate object. */
  function Remote(local: Entity, d: Delta): Entity {
    local.(data := Run(d.operations, local.data), version := d.toVersion, lastModified := d.timestamp)
  }

  /** Who wins by time stamps. */
  predicate RemoteWins(strategy: Strategy, local: Entity, d: Delta) {
    if strategy == FirstWriteWins then local.lastModified > d.timestamp else local.lastModified < d.timestamp
  }

  function Winner(s: State, d: Delta, now: int, policy: Policy): Entity
    requires Contested(s, d)
  {
    var local := s.entities[d.entityId];
    Resolved(policy, local, Remote(local, d), Last(HistoryOf(s, d.entityId)), d, now).entity
  }

  /** The cell exists up to its last segment, and the operations on it leave it as it is. */
  predicate Unmoved(c: Container, ops: seq<Op>, path: string) {
    var p := Split(path);
    Write(c, p, Read(c, p)) == c && RunCell(On(ops, path), Read(c, p)) == Read(c, p)
  }

  /** The version a custom resolver picks between versions kept apart, if it is asked and does not throw. */
  function Picked(s: State, d: Delta, policy: Policy): Option<Entity>
    requires Contested(s, d)
  {
    var local := s.entities[d.entityId];
    if local.kind in policy.custom
    then policy.custom[local.kind](local, Remote(local, d), Last(HistoryOf(s, d.entityId)), d)
    else None
  }

  /** Between versions kept apart, the node ends with the winner's data if and only if the remote version
      wins or the remote operations change nothing, which on prefix-free paths can be told cell by cell; a
      version picked by a custom resolver must be what the remote operations make of the local one. */
  lemma {:induction false} WinnerHonouredIff(s: State, d: Delta, now: int, max: nat, policy: Policy)
    requires Contested(s, d) && PicksWinner(policy, s.entities[d.entityId].kind)
    ensures var local, picked := s.entities[d.entityId], Picked(s, d, policy);
            var strategy := if local.kind in policy.custom then LastWriteWins else policy.strategy;
            Handle(s, d, now, max, policy).entities[d.entityId].data == Winner(s, d, now, policy).data
            <==> if picked.Some? then picked.value.data == Run(d.operations, local.data)
                 else RemoteWins(strategy, local, d) || Run(d.operations, local.data) == local.data
    ensures var c := s.entities[d.entityId].data;
            PrefixFree(d.operations) ==>
              (Run(d.operations, c) == c <==> forall o :: o in d.operations ==> Unmoved(c, d.operations, o.path))
  {
    WinnerIgnored(s, d, now, max, policy);
    if PrefixFree(d.operations) {
      UnmovedIff(d.operations, s.entities[d.entityId].data);
    }
  }

  /** An update that lost by its time stamp changes the entity all the same. */
  lemma {:induction false} LocalWinLost(s: State, d: Delta, now: int, max: nat, path: string, value: Scalar)
    requires Contested(s, d) && d.operations == [Op(Set, path, value)]
    requires d.timestamp < s.entities[d.entityId].lastModified
    requires Read(s.entities[d.entityId].data, Split(path)) != Some(value)
    ensures var policy := Policy(LastWriteWins, map[]);
            && Winner(s, d, now, policy) == s.entities[d.entityId]
            && Read(Handle(s, d, now, max, policy).entities[d.entityId].data, Split(path)) == Some(value)
  {
    var c, policy := s.entities[d.entityId].data, Policy(LastWriteWins, map[]);
    WinnerIgnored(s, d, now, max, policy);
    OnePathRun(d.operations, path, c);
    RunCellConcat([], d.operations, Read(c, Split(path)));
    assert d.operations[1..] == [];
    ReadWriteSame(c, Split(path), Some(value), None);
  }

  /** Merging does not know what was applied already: even an empty remote delta makes the node repeat
      its own last operation. */
  lemma {:induction false} MergeRepeatsLocal(s: State, d: Delta, now: int, max: nat, policy: Policy, own: Op)
    requires Contested(s, d) && !PicksWinner(policy, s.entities[d.entityId].kind)
    requires d.operations == [] && Last(HistoryOf(s, d.entityId)).operations == [own]
    ensures Handle(s, d, now, max, policy).entities[d.entityId].data == Apply(own, s.entities[d.entityId].data)
  {
    assert [own][..0] == [] && [Entry(own.path, own)][1..] == [];
    assert ByPath([own]) == MapSet([], own.path, own) == [Entry(own.path, own)];
    assert MergedOperations([own], []) == [own] + Values([]) == [own];
    RunLastOp([own], s.entities[d.entityId].data);
  }

  // ---------- what became of a merge ----------

  function LocalOps(s: State, d: Delta): seq<Op>
    requires Contested(s, d)
  {
    Last(HistoryOf(s, d.entityId)).operations
  }

  function CellOf(s: State, id: string, path: string): Option<Value>
    requires id in s.entities
  {
    Read(s.entities[id].data, Split(path))
  }

  /** The cell after the remote sets and deletes that come before the merge. */
  function OverwrittenCell(s: State, d: Delta, path: string): Option<Value>
    requires Contested(s, d)
  {
    OverwriteCell(On(d.operations, path), CellOf(s, d.entityId, path))
  }

  /** Merged operations apply to entities of this type, and no edit of an overlapping path is around. */
  predicate Merging(s: State, d: Delta, policy: Policy, path: string) {
    Contested(s, d) && !PicksWinner(policy, s.entities[d.entityId].kind)
    && Alone(LocalOps(s, d), path) && Alone(d.operations, path)
  }

  lemma {:induction false} MergedData(s: State, d: Delta, now: int, max: nat, policy: Policy)
    requires Contested(s, d) && !PicksWinner(policy, s.entities[d.entityId].kind)
    ensures d.entityId in Handle(s, d, now, max, policy).entities
    ensures Handle(s, d, now, max, policy).entities[d.entityId].data ==
            Run(MergedOperations(LocalOps(s, d), d.operations), Overwrite(d.operations, s.entities[d.entityId].data))
  {
  }

  lemma {:induction false} MergedReads(local: seq<Op>, remote: seq<Op>, path: string, c: Container)
    requires Alone(local, path) && Alone(remote, path)
    ensures var cell, chosen := Read(c, Split(path)), Chosen(local, remote, path);
            Read(Run(MergedOperations(local, remote), c), Split(path)) ==
            if chosen.Some? then Act(chosen.value, cell) else cell
  {
    var merged := MergedOperations(local, remote);
    MergedOn(local, remote, path);
    forall i | 0 <= i < |merged| && merged[i].path != path ensures Apart(merged[i].path, path) {
      assert merged[i] in merged;
    }
    RunReadsOwn(merged, path, c);
    RunOne(Chosen(local, remote, path), Read(c, Split(path)));
  }

  /** A cell after a merge: the remote sets and deletes come first, then the last local operation on it,
      or else the first remote one, and no other. */
  lemma {:induction false} MergedCell(s: State, d: Delta, now: int, max: nat, policy: Policy, path: string)
    requires Merging(s, d, policy, path)
    ensures var over, chosen := OverwrittenCell(s, d, path), Chosen(LocalOps(s, d), d.operations, path);
            CellOf(Handle(s, d, now, max, policy), d.entityId, path) ==
            if chosen.Some? then Act(chosen.value, over) else over
  {
    MergedData(s, d, now, max, policy);
    MergedReads(LocalOps(s, d), d.operations, path, Overwrite(d.operations, s.entities[d.entityId].data));
    OverwriteReads(d.operations, path, s.entities[d.entityId].data);
  }

  lemma {:induction false} RunOne(op: Option<Op>, cell: Option<Value>)
    ensures RunCell(if op.Some? then [op.value] else [], cell) == if op.Some? then Act(op.value, cell) else cell
  {
    if op.Some? {
      RunCellConcat([], [op.value], cell);
      assert [op.value][1..] == [];
      assert RunCell([op.value], cell) == RunCell([], Act(op.value, cell));
    }
  }

  /** A cell that the local delta edited keeps its value if and only if the last local operation on it,
      applied once more after the remote sets and deletes, gives that value. */
  lemma {:induction false} MergeKeepsLocalIff(s: State, d: Delta, now: int, max: nat, policy: Policy, path: string)
    requires Merging(s, d, policy, path) && LastOn(LocalOps(s, d), path).Some?
    ensures var cell, last := CellOf(s, d.entityId, path), LastOn(LocalOps(s, d), path).value;
            CellOf(Handle(s, d, now, max, policy), d.entityId, path) == cell
            <==> Act(last, OverwrittenCell(s, d, path)) == cell
  {
    MergedCell(s, d, now, max, policy, path);
  }

  /** A cell that only the remote delta edited gets the remote effect if and only if its first operation
      there, applied after its sets and deletes, has the effect of them all. */
  lemma {:induction false} MergeAppliesRemoteIff(s: State, d: Delta, now: int, max: nat, policy: Policy, path: string)
    requires Merging(s, d, policy, path) && LastOn(LocalOps(s, d), path).None? && FirstOn(d.operations, path).Some?
    ensures var cell, first := CellOf(s, d.entityId, path), FirstOn(d.operations, path).value;
            CellOf(Handle(s, d, now, max, policy), d.entityId, path) == RunCell(On(d.operations, path), cell)
            <==> Act(first, OverwrittenCell(s, d, path)) == RunCell(On(d.operations, path), cell)
  {
    MergedCell(s, d, now, max, policy, path);
  }

  /** Does doing the operation once more leave the cell as it is? */
  predicate Repeatable(op: Op, cell: Option<Value>) {
    match op.kind
    case Set => cell == Some(op.value)
    case Delete => cell == None
    case Remove => cell.Some? && cell.value.Arr? ==> op.value !in cell.value.items && cell.value.named == map[]
    case _ => false
  }

  lemma {:induction false} WithoutKeeps(items: seq<Value>, v: Value)
    ensures |Without(items, v)| <= |items|
    ensures Without(items, v) == items <==> v !in items
  {
    if items != [] {
      WithoutKeeps(items[1..], v);
    }
  }

  lemma {:induction false} RepeatableIff(op: Op, cell: Option<Value>)
    ensures Act(op, cell) == cell <==> Repeatable(op, cell)
  {
    if cell.Some? && cell.value.Arr? {
      WithoutKeeps(cell.value.items, op.value);
      assert |cell.value.items + [op.value]| == |cell.value.items| + 1;
    }
  }

  /** Where only the local delta edited, its last operation is done once more. */
  lemma {:induction false} MergeRepeats(s: State, d: Delta, now: int, max: nat, policy: Policy, path: string, last: Op)
    requires Merging(s, d, policy, path) && LastOn(LocalOps(s, d), path) == Some(last) && On(d.operations, path) == []
    ensures CellOf(Handle(s, d, now, max, policy), d.entityId, path) == Act(last, CellOf(s, d.entityId, path))
  {
    MergedCell(s, d, now, max, policy, path);
  }

  /** Where only the local delta edited, a merge keeps the cell if and only if the last local operation
      can be repeated: an increment or an append never can. */
  lemma {:induction false} MergeRepeatsLocalIff(s: State, d: Delta, now: int, max: nat, policy: Policy, path: string)
    requires Merging(s, d, policy, path) && LastOn(LocalOps(s, d), path).Some? && On(d.operations, path) == []
    ensures var cell, last := CellOf(s, d.entityId, path), LastOn(LocalOps(s, d), path).value;
            CellOf(Handle(s, d, now, max, policy), d.entityId, path) == cell <==> Repeatable(last, cell)
  {
    MergeRepeats(s, d, now, max, policy, path, LastOn(LocalOps(s, d), path).value);
    RepeatableIff(LastOn(LocalOps(s, d), path).value, CellOf(s, d.entityId, path));
  }

  /** An increment always changes the number in its cell. */
  lemma {:induction false} Counts(add: Op, cell: Option<Value>)
    requires add.kind == Increment
    ensures Act(add, cell) == Some(Num(CellNumber(cell) + Amount(add.value))) && Act(add, cell) != cell
  {
  }

  /** A local increment is counted twice, although the remote delta does not touch the counter. */
  lemma {:induction false} LocalCountedTwice(s: State, d: Delta, now: int, max: nat, policy: Policy, path: string,
                                             add: Op)
    requires Merging(s, d, policy, path) && On(d.operations, path) == []
    requires LastOn(LocalOps(s, d), path) == Some(add) && add.kind == Increment
    ensures var cell, after := CellOf(s, d.entityId, path), CellOf(Handle(s, d, now, max, policy), d.entityId, path);
            after == Act(add, cell) && after != cell
  {
    MergeRepeats(s, d, now, max, policy, path, add);
    Counts(add, CellOf(s, d.entityId, path));
  }

  lemma {:induction false} TwoOnPath(op: Op, cell: Option<Value>)
    ensures On([op, op], op.path) == [op, op] && FirstOn([op, op], op.path) == Some(op)
    ensures RunCell([op, op], cell) == Act(op, Act(op, cell))
    ensures op.kind == Increment ==> OverwriteCell([op, op], cell) == cell
  {
    assert [op, op][1..] == [op] && [op][1..] == [] && [op, op][..1] == [op] && [op][..0] == [];
    assert On([op], op.path) == [op] + [];
    assert FirstOn([op], op.path) == Some(op);
    RunOne(Some(op), Act(op, cell));
    assert Init([op, op]) == [op] && Init([op]) == [];
    assert op.kind == Increment ==> OverwriteCell([op], cell) == cell;
  }

  /** Two remote increments count as one, although the local delta does not touch the counter. */
  lemma {:induction false} RemoteCountedOnce(s: State, d: Delta, now: int, max: nat, policy: Policy, add: Op)
    requires Merging(s, d, policy, add.path) && LastOn(LocalOps(s, d), add.path) == None
    requires add.kind == Increment && d.operations == [add, add]
    ensures var cell := CellOf(s, d.entityId, add.path);
            var after := CellOf(Handle(s, d, now, max, policy), d.entityId, add.path);
            && after == Act(add, cell)
            && RunCell(On(d.operations, add.path), cell) == Act(add, Act(add, cell)) != after
  {
    var cell := CellOf(s, d.entityId, add.path);
    MergedCell(s, d, now, max, policy, add.path);
    TwoOnPath(add, cell);
    Counts(add, Act(add, cell));
  }

  // ---------- lists that change nothing ----------

  /** A cell that was written stays reached while other paths are edited. */
  lemma {:induction false} ReachedPast(ops: seq<Op>, path: string, c: Container)
    requires forall i :: 0 <= i < |ops| ==> Apart(ops[i].path, path)
    requires Write(c, Split(path), Read(c, Split(path))) == c
    ensures Write(Run(ops, c), Split(path), Read(Run(ops, c), Split(path))) == Run(ops, c)
  {
    if ops != [] {
      var p, q := Split(ops[0].path), Split(path);
      var o, o' := Act(ops[0], Read(c, p)), Read(c, q);
      EditIsWrite(c, p, ops[0]);
      DisjointWrites(c, p, o, q, o');
      ReachedPast(ops[1..], path, Apply(ops[0], c));
    }
  }

  lemma {:induction false} RunReaches(ops: seq<Op>, path: string, c: Container)
    requires PrefixFree(ops) && On(ops, path) != []
    ensures var x := Run(ops, c); Write(x, Split(path), Read(x, Split(path))) == x
  {
    var on, off := On(ops, path), Off(ops, path);
    OffMembers(ops, path);
    assert on[0] in ops && on[0].path == path;
    PrefixFreePullable(ops, path);
    PullFirst(ops, path, c);
    OnePathRun(on, path, c);
    var o := RunCell(on, Read(c, Split(path)));
    ReadWriteSame(c, Split(path), o, o);
    forall i | 0 <= i < |off| ensures Apart(off[i].path, path) {
      assert off[i] in off;
    }
    ReachedPast(off, path, Run(on, c));
  }

  lemma {:induction false} UnmovedStays(ops: seq<Op>, c: Container)
    requires PrefixFree(ops) && forall o :: o in ops ==> Unmoved(c, ops, o.path)
    ensures Run(ops, c) == c
    decreases |ops|
  {
    if ops != [] {
      var path := ops[0].path;
      var on, off := On(ops, path), Off(ops, path);
      PrefixFreePullable(ops, path);
      PullFirst(ops, path, c);
      OnePathRun(on, path, c);
      assert Unmoved(c, ops, path) by { assert ops[0] in ops; }
      OffMembers(ops, path);
      forall o | o in off ensures Unmoved(c, off, o.path) {
        OnOff(ops, path, o.path);
      }
      UnmovedStays(off, c);
    }
  }

  lemma {:induction false} UnmovedIff(ops: seq<Op>, c: Container)
    requires PrefixFree(ops)
    ensures Run(ops, c) == c <==> forall o :: o in ops ==> Unmoved(c, ops, o.path)
  {
    if Run(ops, c) == c {
      forall o | o in ops ensures Unmoved(c, ops, o.path) {
        OffMembers(ops, o.path);
        RunReaches(ops, o.path, c);
        RunReadsOwn(ops, o.path, c);
      }
    } else if forall o :: o in ops ==> Unmoved(c, ops, o.path) {
      UnmovedStays(ops, c);
    }
  }
}
