/** Crash recovery: a snapshot plus the log entries numbered above the snapshot's version. */
module Recovery {
  import opened Common
  import opened JsonTree
  import opened Operations
  import opened StateManager
  import opened WriteAheadLog

  // ---------- a running node ----------

  /** The state and everything logged so far; updates are logged, creations and deletions are not. */
  datatype Node = Node(sm: State, journal: seq<LogEntry>)

  datatype NodeStep =
    | EditEntity(id: string, ops: seq<Op>, now: int, bytes: nat)
    | MakeEntity(id: string, kind: string, ownerId: string, data: Container, now: int)
    | DropEntity(id: string)
    | Checkpoint(bytes: nat)

  function Log(journal: seq<LogEntry>, payload: Payload, bytes: nat): seq<LogEntry> {
    journal + [LogEntry(|journal| + 1, payload, bytes)]
  }

  function NodeAct(n: Node, step: NodeStep, max: nat): Node {
    match step
    case EditEntity(id, ops, now, bytes) =>
      if id !in n.sm.entities then n
      else
        var delta := DeltaFor(n.sm.entities[id], id, ops, now);
        Node(AfterUpdate(n.sm, id, ops, now, max), Log(n.journal, DeltaPayload(delta), bytes))
    case MakeEntity(id, kind, ownerId, data, now) => n.(sm := AfterCreate(n.sm, id, kind, ownerId, data, now))
    case DropEntity(id) => n.(sm := AfterDelete(n.sm, id))
    case Checkpoint(bytes) => n.(journal := Log(n.journal, CheckpointPayload(n.sm.version), bytes))
  }

  function NodeRun(n: Node, steps: seq<NodeStep>, max: nat): Node {
    if steps == [] then n else NodeAct(NodeRun(n, Init(steps), max), Last(steps), max)
  }

  predicate EditsOnly(steps: seq<NodeStep>) {
    forall i :: 0 <= i < |steps| ==> steps[i].EditEntity? || steps[i].Checkpoint?
  }

  predicate Makes(step: NodeStep, id: string) { step.MakeEntity? && step.id == id }

  predicate Drops(step: NodeStep, id: string) { step.DropEntity? && step.id == id }

  predicate Undropped(steps: seq<NodeStep>, id: string, i: nat) {
    forall j :: i <= j < |steps| ==> !Drops(steps[j], id)
  }

  lemma {:induction false} UndroppedLast(steps: seq<NodeStep>, id: string, i: nat)
    requires steps != [] && i < |steps|
    ensures Undropped(steps, id, i) <==> Undropped(Init(steps), id, i) && !Drops(Last(steps), id)
  {
    assert forall j :: 0 <= j < |steps| - 1 ==> Init(steps)[j] == steps[j];
  }

  /** Some step makes the entity and no later one drops it. */
  predicate Made(steps: seq<NodeStep>, id: string) {
    exists i :: 0 <= i < |steps| && Makes(steps[i], id) && Undropped(steps, id, i + 1)
  }

  lemma {:induction false} MadeLast(steps: seq<NodeStep>, id: string)
    requires steps != []
    ensures Made(steps, id) <==> Makes(Last(steps), id) || (Made(Init(steps), id) && !Drops(Last(steps), id))
  {
    var init, last := Init(steps), Last(steps);
    if Makes(last, id) {
      assert Makes(steps[|steps| - 1], id) && Undropped(steps, id, |steps|);
    } else if Made(steps, id) {
      var i :| 0 <= i < |steps| && Makes(steps[i], id) && Undropped(steps, id, i + 1);
      UndroppedLast(steps, id, i + 1);
      assert Makes(init[i], id);
    } else if Made(init, id) {
      var i :| 0 <= i < |init| && Makes(init[i], id) && Undropped(init, id, i + 1);
      UndroppedLast(steps, id, i + 1);
      assert Makes(steps[i], id);
    }
  }

  /** A node has an entity if and only if it was made, or there from the start, and not dropped afterwards. */
  lemma {:induction false} NodeHasIff(n: Node, steps: seq<NodeStep>, id: string, max: nat)
    ensures id in NodeRun(n, steps, max).sm.entities <==>
            Made(steps, id) || (id in n.sm.entities && Undropped(steps, id, 0))
  {
    if steps != [] {
      NodeHasIff(n, Init(steps), id, max);
      UndroppedLast(steps, id, 0);
      MadeLast(steps, id);
    }
  }

  // ---------- recovery ----------

  function ReplayEntries(s: State, entries: seq<LogEntry>, now: int, max: nat): State {
    if entries == [] then s
    else
      var before := ReplayEntries(s, Init(entries), now, max);
      match Last(entries).payload
      case DeltaPayload(d) => AfterUpdate(before, d.entityId, d.operations, now, max)
      case CheckpointPayload(_) => before
  }

  /** The snapshot's version doubles as the log sequence to replay from. */
  function Recovered(snapshot: Snapshot, journal: seq<LogEntry>, now: int, max: nat): State {
    ReplayEntries(AfterLoad(snapshot), After(journal, snapshot.version), now, max)
  }

  /** Equal data, versions and global version; modification times and histories may differ. */
  function Core(e: Entity): Entity {
    e.(lastModified := 0)
  }

  predicate Same(a: State, b: State) {
    && a.version == b.version && a.entities.Keys == b.entities.Keys
    && forall id :: id in a.entities ==> Core(a.entities[id]) == Core(b.entities[id])
  }

  predicate Relevant(e: LogEntry, ids: set<string>) {
    e.payload.DeltaPayload? && e.payload.delta.entityId in ids
  }

  function Relevants(entries: seq<LogEntry>, ids: set<string>): (r: seq<LogEntry>)
    ensures |r| <= |entries|
    ensures forall i :: 0 <= i < |r| ==> Relevant(r[i], ids)
  {
    if entries == [] then []
    else Relevants(Init(entries), ids) + (if Relevant(Last(entries), ids) then [Last(entries)] else [])
  }

  /** The entry numbers at which "above the snapshot's version" and "after its checkpoint" disagree
      hold no update of an entity in the snapshot. */
  predicate Aligned(snapshot: Snapshot, journal: seq<LogEntry>, checkpoint: nat) {
    forall i :: 0 <= i < |journal| && Relevant(journal[i], snapshot.entities.Keys)
      ==> (journal[i].sequence > snapshot.version <==> journal[i].sequence > checkpoint)
  }

  // ---------- replay depends on the relevant entries only ----------

  lemma {:induction false} ReplayKeys(s: State, entries: seq<LogEntry>, now: int, max: nat)
    ensures ReplayEntries(s, entries, now, max).entities.Keys == s.entities.Keys
  {
    if entries != [] {
      ReplayKeys(s, Init(entries), now, max);
    }
  }

  lemma {:induction false} UpdateSame(a: State, b: State, id: string, ops: seq<Op>, now: int, now': int, max: nat)
    requires Same(a, b)
    ensures Same(AfterUpdate(a, id, ops, now, max), AfterUpdate(b, id, ops, now', max))
  {
    assert id in a.entities ==> Core(a.entities[id]) == Core(b.entities[id]);
  }

  /** Two replays with the same relevant entries end in the same state, with one version step per entry. */
  lemma {:induction false} ReplayRelevant(s: State, entries: seq<LogEntry>, now: int, max: nat)
    ensures var r := Relevants(entries, s.entities.Keys);
            && ReplayEntries(s, entries, now, max) == ReplayEntries(s, r, now, max)
            && ReplayEntries(s, entries, now, max).version == s.version + |r|
  {
    if entries != [] {
      ReplayRelevant(s, Init(entries), now, max);
      ReplayKeys(s, Init(entries), now, max);
      var before := Relevants(Init(entries), s.entities.Keys);
      assert Init(before + [Last(entries)]) == before && Last(before + [Last(entries)]) == Last(entries);
      assert before + [] == before;
    }
  }

  lemma {:induction false} RelevantsConcat(a: seq<LogEntry>, b: seq<LogEntry>, ids: set<string>)
    ensures Relevants(a + b, ids) == Relevants(a, ids) + Relevants(b, ids)
  {
    if b == [] {
      assert a + b == a;
    } else {
      assert Init(a + b) == a + Init(b) && Last(a + b) == Last(b);
      RelevantsConcat(a, Init(b), ids);
    }
  }

  lemma {:induction false} NoRelevants(entries: seq<LogEntry>, ids: set<string>)
    ensures Relevants(entries, ids) == [] <==> forall i :: 0 <= i < |entries| ==> !Relevant(entries[i], ids)
  {
    if entries != [] {
      NoRelevants(Init(entries), ids);
    }
  }

  // ---------- the run after the snapshot ----------

  /** One step logs at most one entry, and replaying that entry follows the step. */
  lemma {:induction false} StepIsReplay(s: State, since: seq<LogEntry>, m: Node, step: NodeStep, now: int, max: nat)
      returns (logged: seq<LogEntry>)
    requires Same(ReplayEntries(s, since, now, max), m.sm) && (step.EditEntity? || step.Checkpoint?)
    ensures NodeAct(m, step, max).journal == m.journal + logged
    ensures Same(ReplayEntries(s, since + logged, now, max), NodeAct(m, step, max).sm)
  {
    var before := ReplayEntries(s, since, now, max);
    if step.EditEntity? && step.id !in m.sm.entities {
      logged := [];
      assert since + [] == since;
    } else {
      logged := [Last(NodeAct(m, step, max).journal)];
      assert Init(since + logged) == since && Last(since + logged) == logged[0];
      if step.EditEntity? {
        UpdateSame(before, m.sm, step.id, step.ops, now, step.now, max);
      }
    }
  }

  /** The crashed state is the snapshot with exactly the entries after its checkpoint replayed. */
  lemma {:induction false} RunIsReplay(n: Node, snapshot: Snapshot, steps: seq<NodeStep>, now: int, max: nat)
    requires snapshot.version == n.sm.version && snapshot.entities == n.sm.entities && EditsOnly(steps)
    ensures var c := NodeRun(n, steps, max);
            && |n.journal| <= |c.journal|
            && Same(ReplayEntries(AfterLoad(snapshot), c.journal[|n.journal|..], now, max), c.sm)
  {
    var s := AfterLoad(snapshot);
    if steps == [] {
      assert n.journal[|n.journal|..] == [];
    } else {
      var m := NodeRun(n, Init(steps), max);
      RunIsReplay(n, snapshot, Init(steps), now, max);
      var since := m.journal[|n.journal|..];
      var entries := StepIsReplay(s, since, m, Last(steps), now, max);
      assert (m.journal + entries)[|n.journal|..] == since + entries;
    }
  }

  /** The snapshot a node takes, and the node right after its checkpoint is logged. */
  function SnapshotOf(n: Node, timestamp: int): Snapshot {
    Snapshot(n.sm.version, timestamp, n.sm.entities)
  }

  /** The entries on whose replay the two readings of the version disagree. */
  function Gap(version: nat, journal: seq<LogEntry>, checkpoint: nat): seq<LogEntry>
    requires checkpoint <= |journal|
  {
    if version <= checkpoint then journal[version..checkpoint]
    else journal[checkpoint..if version <= |journal| then version else |journal|]
  }

  lemma {:induction false} SplitAtGap(version: nat, journal: seq<LogEntry>, checkpoint: nat)
    requires Consecutive(journal, |journal|) && checkpoint <= |journal|
    ensures if version <= checkpoint
            then After(journal, version) == Gap(version, journal, checkpoint) + journal[checkpoint..]
            else journal[checkpoint..] == Gap(version, journal, checkpoint) + After(journal, version)
  {
    AfterIsSuffix(journal, |journal|, version);
  }

  /** An entry lies in the gap exactly when the two readings differ on it. */
  lemma {:induction false} InGap(version: nat, journal: seq<LogEntry>, checkpoint: nat, i: nat)
    requires Consecutive(journal, |journal|) && checkpoint <= |journal| && i < |journal|
    ensures var gap := Gap(version, journal, checkpoint);
            var lo := if version <= checkpoint then version else checkpoint;
            && (lo <= i < lo + |gap| <==> !(journal[i].sequence > version <==> journal[i].sequence > checkpoint))
            && (lo <= i < lo + |gap| ==> gap[i - lo] == journal[i])
            && lo + |gap| <= |journal|
  {
    assert journal[i].sequence == i + 1;
  }

  lemma {:induction false} AlignedGapEmpty(snapshot: Snapshot, journal: seq<LogEntry>, checkpoint: nat)
    requires Consecutive(journal, |journal|) && checkpoint <= |journal| && Aligned(snapshot, journal, checkpoint)
    ensures Relevants(Gap(snapshot.version, journal, checkpoint), snapshot.entities.Keys) == []
  {
    var gap, ids := Gap(snapshot.version, journal, checkpoint), snapshot.entities.Keys;
    var lo := if snapshot.version <= checkpoint then snapshot.version else checkpoint;
    forall i | 0 <= i < |gap| ensures !Relevant(gap[i], ids) {
      InGap(snapshot.version, journal, checkpoint, lo + i);
    }
    NoRelevants(gap, ids);
  }

  lemma {:induction false} GapEmptyAligned(snapshot: Snapshot, journal: seq<LogEntry>, checkpoint: nat)
    requires Consecutive(journal, |journal|) && checkpoint <= |journal|
    requires Relevants(Gap(snapshot.version, journal, checkpoint), snapshot.entities.Keys) == []
    ensures Aligned(snapshot, journal, checkpoint)
  {
    var gap, ids := Gap(snapshot.version, journal, checkpoint), snapshot.entities.Keys;
    NoRelevants(gap, ids);
    forall i | 0 <= i < |journal| && Relevant(journal[i], ids)
      ensures journal[i].sequence > snapshot.version <==> journal[i].sequence > checkpoint
    {
      InGap(snapshot.version, journal, checkpoint, i);
    }
  }

  /** Replaying more entries ends in the same state exactly when none of the extra ones is relevant. */
  lemma {:induction false} ExtraEntries(s: State, gap: seq<LogEntry>, tail: seq<LogEntry>, now: int, max: nat)
    ensures var long, short := ReplayEntries(s, gap + tail, now, max), ReplayEntries(s, tail, now, max);
            && (Relevants(gap, s.entities.Keys) == [] ==> long == short)
            && (Relevants(gap, s.entities.Keys) != [] ==> long.version != short.version)
  {
    ReplayRelevant(s, gap + tail, now, max);
    ReplayRelevant(s, tail, now, max);
    RelevantsConcat(gap, tail, s.entities.Keys);
    assert [] + Relevants(tail, s.entities.Keys) == Relevants(tail, s.entities.Keys);
  }

  lemma {:induction false} SameOrOff(a: State, b: State, c: State)
    requires Same(b, c) && (a == b || a.version != b.version)
    ensures Same(a, c) <==> a == b
  {
  }

  /** Reading from the snapshot's version instead of from its checkpoint makes a difference exactly when
      the entries in between matter. */
  lemma {:induction false} ReadsSameIff(snapshot: Snapshot, journal: seq<LogEntry>, mark: nat, crashed: State,
                                        now: int, max: nat)
    requires Consecutive(journal, |journal|) && mark <= |journal|
    requires Same(ReplayEntries(AfterLoad(snapshot), journal[mark..], now, max), crashed)
    ensures Same(Recovered(snapshot, journal, now, max), crashed)
            <==> Relevants(Gap(snapshot.version, journal, mark), snapshot.entities.Keys) == []
  {
    var s, gap := AfterLoad(snapshot), Gap(snapshot.version, journal, mark);
    var read, since := After(journal, snapshot.version), journal[mark..];
    SplitAtGap(snapshot.version, journal, mark);
    ExtraEntries(s, gap, if snapshot.version <= mark then since else read, now, max);
    SameOrOff(ReplayEntries(s, read, now, max), ReplayEntries(s, since, now, max), crashed);
  }

  /** Recovery restores every entity's data and version and the global version if and only if
      no update of an entity in the snapshot is numbered between the snapshot's version and its checkpoint. */
  lemma {:induction false} RecoveryIff(n: Node, timestamp: int, bytes: nat, steps: seq<NodeStep>, now: int, max: nat)
    requires Consecutive(n.journal, |n.journal|) && EditsOnly(steps)
    ensures var snapshot := SnapshotOf(n, timestamp);
            var crashed := NodeRun(NodeAct(n, Checkpoint(bytes), max), steps, max);
            Same(Recovered(snapshot, crashed.journal, now, max), crashed.sm)
            <==> Aligned(snapshot, crashed.journal, |n.journal| + 1)
  {
    var snapshot := SnapshotOf(n, timestamp);
    var start := NodeAct(n, Checkpoint(bytes), max);
    var crashed := NodeRun(start, steps, max);
    var mark := |n.journal| + 1;
    JournalConsecutive(start, steps, max);
    RunIsReplay(start, snapshot, steps, now, max);
    ReadsSameIff(snapshot, crashed.journal, mark, crashed.sm, now, max);
    if Aligned(snapshot, crashed.journal, mark) {
      AlignedGapEmpty(snapshot, crashed.journal, mark);
    } else if Relevants(Gap(snapshot.version, crashed.journal, mark), snapshot.entities.Keys) == [] {
      GapEmptyAligned(snapshot, crashed.journal, mark);
    }
  }

  lemma {:induction false} JournalConsecutive(n: Node, steps: seq<NodeStep>, max: nat)
    requires Consecutive(n.journal, |n.journal|)
    ensures var m := NodeRun(n, steps, max);
            Consecutive(m.journal, |m.journal|) && |n.journal| <= |m.journal| && m.journal[..|n.journal|] == n.journal
  {
    if steps != [] {
      JournalConsecutive(n, Init(steps), max);
    }
  }

  /** The hypothesis to aim for: the state version at the snapshot equals the log sequence just before
      its checkpoint, or is one ahead of it. */
  lemma {:induction false} AlignedVersionsRecover(n: Node, timestamp: int, bytes: nat, steps: seq<NodeStep>, now: int,
                                                  max: nat)
    requires Consecutive(n.journal, |n.journal|) && EditsOnly(steps)
    requires n.sm.version == |n.journal| || n.sm.version == |n.journal| + 1
    ensures var crashed := NodeRun(NodeAct(n, Checkpoint(bytes), max), steps, max);
            Same(Recovered(SnapshotOf(n, timestamp), crashed.journal, now, max), crashed.sm)
  {
    var start := NodeAct(n, Checkpoint(bytes), max);
    JournalConsecutive(start, steps, max);
    RecoveryIff(n, timestamp, bytes, steps, now, max);
    var journal := NodeRun(start, steps, max).journal;
    assert journal[|n.journal|] == start.journal[|n.journal|];
    forall i | 0 <= i < |journal| && Relevant(journal[i], n.sm.entities.Keys)
      ensures journal[i].sequence > n.sm.version <==> journal[i].sequence > |n.journal| + 1
    {
      assert journal[i].sequence == i + 1;
    }
  }

  /** Two or more unlogged changes push the version ahead of the log: the first update after the
      snapshot is then skipped by the replay and lost. */
  lemma {:induction false} UnloggedChangesLoseUpdates(n: Node, timestamp: int, bytes: nat, edit: NodeStep, now: int,
                                                      max: nat)
    requires Consecutive(n.journal, |n.journal|) && n.sm.version >= |n.journal| + 2
    requires edit.EditEntity? && edit.id in n.sm.entities
    ensures var crashed := NodeRun(NodeAct(n, Checkpoint(bytes), max), [edit], max);
            !Same(Recovered(SnapshotOf(n, timestamp), crashed.journal, now, max), crashed.sm)
  {
    var start := NodeAct(n, Checkpoint(bytes), max);
    RecoveryIff(n, timestamp, bytes, [edit], now, max);
    assert Init([edit]) == [] && Last([edit]) == edit;
    var crashed := NodeAct(start, edit, max);
    assert NodeRun(start, [edit], max) == crashed;
    var i := |n.journal| + 1;
    assert Relevant(crashed.journal[i], n.sm.entities.Keys) && crashed.journal[i].sequence == i + 1;
  }

  /** Two creations on a blank node are enough for that. */
  lemma {:induction false} TwoCreationsSuffice(kind: string, data: Container, ops: seq<Op>, max: nat)
    ensures var blank := Node(State(map[], map[], 0), []);
            var n := NodeRun(blank, [MakeEntity("a", kind, kind, data, 0), MakeEntity("b", kind, kind, data, 0)], max);
            var crashed := NodeRun(NodeAct(n, Checkpoint(0), max), [EditEntity("a", ops, 0, 0)], max);
            !Same(Recovered(SnapshotOf(n, 0), crashed.journal, 0, max), crashed.sm)
  {
    var blank := Node(State(map[], map[], 0), []);
    var a, b := MakeEntity("a", kind, kind, data, 0), MakeEntity("b", kind, kind, data, 0);
    assert Init([a, b]) == [a] && Init([a]) == [] && Last([a, b]) == b && Last([a]) == a;
    assert NodeRun(blank, [a], max) == NodeAct(blank, a, max);
    var n := NodeAct(NodeAct(blank, a, max), b, max);
    assert NodeRun(blank, [a, b], max) == n;
    UnloggedChangesLoseUpdates(n, 0, 0, EditEntity("a", ops, 0, 0), 0, max);
  }

  /** No update already in the snapshot is numbered above its version. */
  predicate NothingTwice(n: Node) {
    forall i :: 0 <= i < |n.journal| && Relevant(n.journal[i], n.sm.entities.Keys) ==> i + 1 <= n.sm.version
  }

  lemma {:induction false} LaterAligned(n: Node, timestamp: int, bytes: nat, steps: seq<NodeStep>, max: nat)
    requires Consecutive(n.journal, |n.journal|) && NothingTwice(n)
    requires n.sm.entities == map[] || n.sm.version <= |n.journal| + 1
    ensures var journal := NodeRun(NodeAct(n, Checkpoint(bytes), max), steps, max).journal;
            Aligned(SnapshotOf(n, timestamp), journal, |n.journal| + 1)
  {
    var start := NodeAct(n, Checkpoint(bytes), max);
    JournalConsecutive(start, steps, max);
    var journal := NodeRun(start, steps, max).journal;
    forall i | 0 <= i < |journal| && Relevant(journal[i], n.sm.entities.Keys)
      ensures journal[i].sequence > n.sm.version <==> journal[i].sequence > |n.journal| + 1
    {
      assert journal[i].sequence == i + 1;
      if i <= |n.journal| {
        assert journal[i] == start.journal[i];
      }
    }
  }

  /** An update that the snapshot contains and whose number exceeds its version is applied once more. */
  lemma {:induction false} UpdateAppliedTwice(n: Node, timestamp: int, bytes: nat, i: nat, now: int, max: nat)
    requires Consecutive(n.journal, |n.journal|) && i < |n.journal|
    requires Relevant(n.journal[i], n.sm.entities.Keys) && i + 1 > n.sm.version
    ensures var crashed := NodeRun(NodeAct(n, Checkpoint(bytes), max), [], max);
            !Same(Recovered(SnapshotOf(n, timestamp), crashed.journal, now, max), crashed.sm)
  {
    var start := NodeAct(n, Checkpoint(bytes), max);
    RecoveryIff(n, timestamp, bytes, [], now, max);
    assert start.journal[i] == n.journal[i] && n.journal[i].sequence == i + 1;
  }

  /** What can be told when the snapshot is taken: every later run of updates is recovered if and only if no
      update in the snapshot is numbered above its version and, unless the snapshot is empty, the version
      is at most one ahead of the log. */
  lemma {:induction false} SnapshotRecoversIff(n: Node, timestamp: int, bytes: nat, now: int, max: nat)
    requires Consecutive(n.journal, |n.journal|)
    ensures (forall steps :: EditsOnly(steps) ==>
               var crashed := NodeRun(NodeAct(n, Checkpoint(bytes), max), steps, max);
               Same(Recovered(SnapshotOf(n, timestamp), crashed.journal, now, max), crashed.sm))
            <==> NothingTwice(n) && (n.sm.entities == map[] || n.sm.version <= |n.journal| + 1)
  {
    var start := NodeAct(n, Checkpoint(bytes), max);
    if NothingTwice(n) && (n.sm.entities == map[] || n.sm.version <= |n.journal| + 1) {
      forall steps | EditsOnly(steps)
        ensures var crashed := NodeRun(start, steps, max);
                Same(Recovered(SnapshotOf(n, timestamp), crashed.journal, now, max), crashed.sm)
      {
        LaterAligned(n, timestamp, bytes, steps, max);
        RecoveryIff(n, timestamp, bytes, steps, now, max);
      }
    } else if !NothingTwice(n) {
      var i :| 0 <= i < |n.journal| && Relevant(n.journal[i], n.sm.entities.Keys) && i + 1 > n.sm.version;
      UpdateAppliedTwice(n, timestamp, bytes, i, now, max);
      assert EditsOnly([]);
    } else {
      var id :| id in n.sm.entities;
      var edit := EditEntity(id, [], 0, 0);
      UnloggedChangesLoseUpdates(n, timestamp, bytes, edit, now, max);
      assert EditsOnly([edit]);
    }
  }

  /** Two earlier checkpoints and one update are enough for an update to be applied twice. */
  lemma {:induction false} TwoCheckpointsSuffice(kind: string, data: Container, ops: seq<Op>, now: int, max: nat)
    ensures var blank := Node(State(map[], map[], 0), []);
            var n := NodeRun(blank, [MakeEntity("a", kind, kind, data, 0), Checkpoint(0), Checkpoint(0),
                                     EditEntity("a", ops, 0, 0)], max);
            var crashed := NodeRun(NodeAct(n, Checkpoint(0), max), [], max);
            !Same(Recovered(SnapshotOf(n, 0), crashed.journal, now, max), crashed.sm)
  {
    var blank := Node(State(map[], map[], 0), []);
    var make, mark, edit := MakeEntity("a", kind, kind, data, 0), Checkpoint(0), EditEntity("a", ops, 0, 0);
    assert Init([make, mark, mark, edit]) == [make, mark, mark] && Init([make, mark, mark]) == [make, mark];
    assert Init([make, mark]) == [make] && Init([make]) == [];
    var m := NodeAct(NodeAct(NodeAct(blank, make, max), mark, max), mark, max);
    assert NodeRun(blank, [make], max) == NodeAct(blank, make, max);
    assert NodeRun(blank, [make, mark], max) == NodeAct(NodeAct(blank, make, max), mark, max);
    assert NodeRun(blank, [make, mark, mark], max) == m;
    var n := NodeAct(m, edit, max);
    assert NodeRun(blank, [make, mark, mark, edit], max) == n;
    assert |n.journal| == 3 && n.sm.version == 2;
    UpdateAppliedTwice(n, 0, 0, 2, now, max);
  }
}
