/** Snapshots on disk: taking, pruning and loading them, and the recovery procedure. */
module SnapshotManager {
  import opened Common
  import opened JsonTree
  import opened MapKeys
  import opened StateManager
  import opened WriteAheadLog
  import opened Recovery

  /** The file name is built from the version and the timestamp alone. */
  datatype SnapshotName = SnapshotName(version: nat, timestamp: int)

  datatype Store = Store(disk: map<SnapshotName, Snapshot>, index: seq<SnapshotName>)

  function NameOf(snapshot: Snapshot): SnapshotName {
    SnapshotName(snapshot.version, snapshot.timestamp)
  }

  /** Pruning forgets the oldest index entries and deletes the files they name. */
  function Pruned(store: Store, max: nat): Store
    decreases |store.index|
  {
    if |store.index| <= max then store
    else Pruned(Store(store.disk - {store.index[0]}, store.index[1..]), max)
  }

  function Saved(store: Store, snapshot: Snapshot, max: nat): Store {
    Pruned(Store(store.disk[NameOf(snapshot) := snapshot], store.index + [NameOf(snapshot)]), max)
  }

  /** The snapshot recovery would load: the last index entry, when its file exists. */
  function Latest(store: Store): Option<Snapshot> {
    if store.index != [] && Last(store.index) in store.disk then Some(store.disk[Last(store.index)]) else None
  }

  lemma {:induction false} PrunedIs(store: Store, max: nat)
    ensures var drop := if |store.index| <= max then 0 else |store.index| - max;
            && Pruned(store, max).index == store.index[drop..]
            && Pruned(store, max).disk == store.disk - (set name | name in store.index[..drop])
    decreases |store.index|
  {
    if |store.index| > max {
      var drop := |store.index| - max;
      var rest := Store(store.disk - {store.index[0]}, store.index[1..]);
      PrunedIs(rest, max);
      assert store.index[..drop] == [store.index[0]] + rest.index[..drop - 1];
      assert rest.index[drop - 1..] == store.index[drop..];
    }
  }

  /** A new snapshot can be loaded again exactly when pruning drops no older entry of the same name. */
  lemma {:induction false} SavedIsLatestIff(store: Store, snapshot: Snapshot, max: nat)
    requires max > 0
    ensures var drop := if |store.index| + 1 <= max then 0 else |store.index| + 1 - max;
            && (Latest(Saved(store, snapshot, max)) == Some(snapshot) <==> NameOf(snapshot) !in store.index[..drop])
            && (Latest(Saved(store, snapshot, max)) != Some(snapshot) ==> Latest(Saved(store, snapshot, max)) == None)
  {
    var name := NameOf(snapshot);
    var full := Store(store.disk[name := snapshot], store.index + [name]);
    var drop := if |full.index| <= max then 0 else |full.index| - max;
    PrunedIs(full, max);
    assert full.index[..drop] == store.index[..drop];
    assert Last(full.index[drop..]) == name;
  }

  /** Saving adds the new name at the end of the index and touches no file but the new one and those whose names
      pruning drops from the front. */
  lemma {:induction false} SavedKeeps(store: Store, snapshot: Snapshot, max: nat)
    ensures var drop := if |store.index| + 1 <= max then 0 else |store.index| + 1 - max;
            var names, saved := store.index + [NameOf(snapshot)], Saved(store, snapshot, max);
            && saved.index == names[drop..]
            && (forall name :: name in saved.disk <==>
                  (name in store.disk || name == NameOf(snapshot)) && name !in names[..drop])
            && (forall name :: name in saved.disk ==>
                  saved.disk[name] == if name == NameOf(snapshot) then snapshot else store.disk[name])
  {
    PrunedIs(Store(store.disk[NameOf(snapshot) := snapshot], store.index + [NameOf(snapshot)]), max);
  }

  function SavedRepeatedly(snapshot: Snapshot, times: nat, max: nat): Store {
    if times == 0 then Store(map[], []) else Saved(SavedRepeatedly(snapshot, times - 1, max), snapshot, max)
  }

  /** An idle node saves the same cached snapshot under the same name: after more than `max` rounds
      pruning has deleted the one file that every index entry names. */
  lemma {:induction false} IdleSnapshotsVanish(snapshot: Snapshot, times: nat, max: nat)
    requires max > 0 && times > 0
    ensures Latest(SavedRepeatedly(snapshot, times, max)) == if times <= max then Some(snapshot) else None
    ensures |SavedRepeatedly(snapshot, times, max).index| == if times <= max then times else max
    ensures forall name :: name in SavedRepeatedly(snapshot, times, max).index ==> name == NameOf(snapshot)
  {
    var before := SavedRepeatedly(snapshot, times - 1, max);
    var name := NameOf(snapshot);
    if times > 1 {
      IdleSnapshotsVanish(snapshot, times - 1, max);
    }
    SavedIsLatestIff(before, snapshot, max);
    var full := Store(before.disk[name := snapshot], before.index + [name]);
    PrunedIs(full, max);
    assert forall i :: 0 <= i < |full.index| ==> full.index[i] == name by {
      forall i | 0 <= i < |before.index| ensures before.index[i] == name {
        assert before.index[i] in before.index;
      }
    }
    if times > max {
      assert before.index[..1][0] == name && name in before.index[..1];
    }
  }

  // ---------- the index after a restart ----------

  function FileText(name: SnapshotName): string {
    "snapshot-" + NumberText(name.version) + "-" + NumberText(name.timestamp) + ".json"
  }

  /** A restarted node rebuilds its index by sorting the file names as text. */
  predicate TextOrder(a: SnapshotName, b: SnapshotName) { LexLe(FileText(a), FileText(b)) }

  function Reloaded(disk: map<SnapshotName, Snapshot>, listing: seq<SnapshotName>): Store {
    Store(disk, Sort(TextOrder, listing))
  }

  lemma {:induction false} CommonPrefix(p: string, s: string, t: string)
    ensures LexLe(p + s, p + t) <==> LexLe(s, t)
  {
    if p == "" {
      assert p + s == s && p + t == t;
    } else {
      assert (p + s)[1..] == p[1..] + s && (p + t)[1..] == p[1..] + t;
      CommonPrefix(p[1..], s, t);
    }
  }

  lemma {:induction false} TextOrderTotal()
    ensures TotalPreorder(TextOrder)
  {
    forall a: SnapshotName, b: SnapshotName, c: SnapshotName
      ensures (TextOrder(a, b) || TextOrder(b, a)) && (TextOrder(a, b) && TextOrder(b, c) ==> TextOrder(a, c))
    {
      LexOrder(FileText(a), FileText(b), FileText(c));
    }
  }

  /** The number without its last `k` digits. */
  function DropDigits(n: nat, k: nat): (m: nat)
    ensures m <= n
  {
    if k == 0 then n else DropDigits(n / 10, k - 1)
  }

  lemma {:induction false} DigitsGrow(x: nat, y: nat)
    requires x <= y
    ensures |DigitsOf(x)| <= |DigitsOf(y)|
  {
    if x >= 10 {
      DigitsGrow(x / 10, y / 10);
    }
  }

  lemma {:induction false} DigitsSplit(n: nat, k: nat) returns (low: string)
    requires k < |DigitsOf(n)|
    ensures |low| == k && AllDigits(low) && DigitsOf(n) == DigitsOf(DropDigits(n, k)) + low
  {
    if k == 0 {
      low := "";
    } else {
      var d := [(n % 10 + '0' as int) as char];
      assert n >= 10;
      low := DigitsSplit(n / 10, k - 1);
      assert DigitsOf(n) == DigitsOf(n / 10) + d;
      low := low + d;
    }
  }

  /** Numbers of equal length compare as numbers, whatever follows them. */
  lemma {:induction false} SameLengthOrder(x: nat, z: nat, s: string, t: string)
    requires |DigitsOf(x)| == |DigitsOf(z)| && x != z
    ensures LexLe(DigitsOf(x) + s, DigitsOf(z) + t) <==> x < z
  {
    var c, d := [(x % 10 + '0' as int) as char], [(z % 10 + '0' as int) as char];
    if x < 10 {
      assert (DigitsOf(x) + s)[0] == c[0] && (DigitsOf(z) + t)[0] == d[0];
    } else {
      var p := DigitsOf(x / 10);
      assert DigitsOf(x) + s == p + (c + s);
      assert DigitsOf(z) + t == DigitsOf(z / 10) + (d + t);
      if x / 10 == z / 10 {
        CommonPrefix(p, c + s, d + t);
        assert (c + s)[0] == c[0] && (d + t)[0] == d[0];
      } else {
        SameLengthOrder(x / 10, z / 10, c + s, d + t);
      }
    }
  }

  /** Which of two different numbers comes first as text, when a character below the digits follows each:
      the smaller one stays first if and only if it does not exceed the larger one's leading digits. */
  lemma {:induction false} NumberTextOrder(x: nat, y: nat, s: string, t: string)
    requires x < y && s != "" && s[0] < '0' && t != "" && t[0] < '0'
    ensures |DigitsOf(x)| <= |DigitsOf(y)|
    ensures LexLe(DigitsOf(x) + s, DigitsOf(y) + t) <==> x <= DropDigits(y, |DigitsOf(y)| - |DigitsOf(x)|)
    ensures LexLe(DigitsOf(y) + t, DigitsOf(x) + s) <==> x > DropDigits(y, |DigitsOf(y)| - |DigitsOf(x)|)
  {
    DigitsGrow(x, y);
    var k := |DigitsOf(y)| - |DigitsOf(x)|;
    var z := DropDigits(y, k);
    var low := DigitsSplit(y, k);
    assert DigitsOf(y) + t == DigitsOf(z) + (low + t);
    if x == z {
      CommonPrefix(DigitsOf(x), s, low + t);
      CommonPrefix(DigitsOf(x), low + t, s);
      assert low != "" && (low + t)[0] == low[0];
    } else {
      SameLengthOrder(x, z, s, low + t);
      SameLengthOrder(z, x, low + t, s);
    }
  }

  predicate Older(b: SnapshotName, a: SnapshotName) {
    b.version < a.version || (b.version == a.version && b.timestamp < a.timestamp)
  }

  /** The smaller number also comes first as text. */
  predicate FirstAsText(x: nat, y: nat) {
    |DigitsOf(x)| <= |DigitsOf(y)| && x <= DropDigits(y, |DigitsOf(y)| - |DigitsOf(x)|)
  }

  /** The text order agrees that `b` is older than `a`: their versions, or else their timestamps, say so. */
  predicate OlderAsText(b: SnapshotName, a: SnapshotName)
    requires b.timestamp >= 0 && a.timestamp >= 0
  {
    if b.version != a.version then FirstAsText(b.version, a.version) else FirstAsText(b.timestamp, a.timestamp)
  }

  function VersionTail(name: SnapshotName): string {
    "-" + (NumberText(name.timestamp) + ".json")
  }

  lemma {:induction false} FileTextIs(name: SnapshotName)
    ensures FileText(name) == "snapshot-" + (DigitsOf(name.version) + VersionTail(name))
  {
  }

  lemma {:induction false} FileTextParts(b: SnapshotName, a: SnapshotName)
    ensures TextOrder(b, a) <==>
            LexLe(DigitsOf(b.version) + VersionTail(b), DigitsOf(a.version) + VersionTail(a))
  {
    FileTextIs(b);
    FileTextIs(a);
    CommonPrefix("snapshot-", DigitsOf(b.version) + VersionTail(b), DigitsOf(a.version) + VersionTail(a));
  }

  lemma {:induction false} SameVersionText(b: SnapshotName, a: SnapshotName)
    requires b.version == a.version
    ensures TextOrder(b, a) <==> LexLe(NumberText(b.timestamp) + ".json", NumberText(a.timestamp) + ".json")
  {
    FileTextParts(b, a);
    CommonPrefix(DigitsOf(b.version), VersionTail(b), VersionTail(a));
    CommonPrefix("-", NumberText(b.timestamp) + ".json", NumberText(a.timestamp) + ".json");
  }

  lemma {:induction false} FileTextOrder(b: SnapshotName, a: SnapshotName)
    requires b.timestamp >= 0 && a.timestamp >= 0 && Older(b, a)
    ensures TextOrder(b, a) <==> OlderAsText(b, a)
    ensures TextOrder(a, b) <==> !OlderAsText(b, a)
  {
    if b.version != a.version {
      FileTextParts(b, a);
      FileTextParts(a, b);
      NumberTextOrder(b.version, a.version, VersionTail(b), VersionTail(a));
    } else {
      SameVersionText(b, a);
      SameVersionText(a, b);
      NumberTextOrder(b.timestamp, a.timestamp, ".json", ".json");
    }
  }

  /** The files of a directory, each holding the snapshot it is named after. */
  ghost predicate Listed(disk: map<SnapshotName, Snapshot>, listing: seq<SnapshotName>) {
    && (forall name :: name in listing <==> name in disk)
    && (forall name :: name in disk ==> NameOf(disk[name]) == name && name.timestamp >= 0)
  }

  predicate Newest(disk: map<SnapshotName, Snapshot>, a: SnapshotName) {
    a in disk && forall name :: name in disk && name != a ==> Older(name, a)
  }

  /** The last file of the sorted directory is one that no file follows as text. */
  lemma {:induction false} LastAsText(disk: map<SnapshotName, Snapshot>, listing: seq<SnapshotName>)
      returns (last: SnapshotName)
    requires Listed(disk, listing) && disk != map[]
    ensures last in disk && Latest(Reloaded(disk, listing)) == Some(disk[last])
    ensures forall name :: name in disk ==> TextOrder(name, last)
  {
    var some :| some in disk;
    assert some in listing;
    TextOrderTotal();
    LastIsGreatest(TextOrder, listing);
    last := Last(Sort(TextOrder, listing));
    forall name | name in disk ensures TextOrder(name, last) {
      assert name in listing;
    }
  }

  /** A restarted node loads the newest snapshot if and only if every other version does not exceed the
      newest one's leading digits, and likewise the timestamps among files of the newest version. */
  lemma {:induction false} RestartLoadsNewestIff(disk: map<SnapshotName, Snapshot>, listing: seq<SnapshotName>,
                                                 a: SnapshotName)
    requires Listed(disk, listing) && Newest(disk, a)
    ensures Latest(Reloaded(disk, listing)) == Some(disk[a])
            <==> forall b :: b in disk && b != a ==> OlderAsText(b, a)
  {
    var last := LastAsText(disk, listing);
    forall b | b in disk && b != a ensures TextOrder(b, a) <==> OlderAsText(b, a) {
      FileTextOrder(b, a);
    }
    if last != a {
      FileTextOrder(last, a);
      assert NameOf(disk[last]) != NameOf(disk[a]);
    }
  }

  /** Equally long versions and timestamps always come back right. */
  lemma {:induction false} EqualLengthsLoadNewest(disk: map<SnapshotName, Snapshot>, listing: seq<SnapshotName>,
                                                  a: SnapshotName)
    requires Listed(disk, listing) && Newest(disk, a)
    requires forall b :: b in disk ==> |DigitsOf(b.version)| == |DigitsOf(a.version)|
                                       && |DigitsOf(b.timestamp)| == |DigitsOf(a.timestamp)|
    ensures Latest(Reloaded(disk, listing)) == Some(disk[a])
  {
    RestartLoadsNewestIff(disk, listing, a);
  }

  /** Versions 9 and 10: the restarted node goes back to 9. */
  lemma {:induction false} RestartPrefersNine(disk: map<SnapshotName, Snapshot>, listing: seq<SnapshotName>, t: nat,
                                              t': nat)
    requires Listed(disk, listing) && disk.Keys == {SnapshotName(9, t), SnapshotName(10, t')}
    ensures Latest(Reloaded(disk, listing)) == Some(disk[SnapshotName(9, t)])
  {
    var nine, ten := SnapshotName(9, t), SnapshotName(10, t');
    assert nine in disk.Keys && ten in disk.Keys;
    var last := LastAsText(disk, listing);
    FileTextOrder(nine, ten);
    assert DigitsOf(10) == DigitsOf(1) + ['0'] && |DigitsOf(9)| == |DigitsOf(1)| == 1;
    assert DropDigits(10, 1) == DropDigits(1, 0);
    assert last in disk.Keys;
  }

  /** Whatever its age, the version with the larger leading digit is never sorted before the other. */
  lemma {:induction false} LeadingDigitDecides(a: SnapshotName, b: SnapshotName)
    requires DigitsOf(a.version)[0] > DigitsOf(b.version)[0]
    ensures !TextOrder(a, b)
  {
    FileTextParts(a, b);
  }

  /** So a single version with the highest leading digit is the one loaded. */
  lemma {:induction false} RestartPrefersLeadingDigit(disk: map<SnapshotName, Snapshot>, listing: seq<SnapshotName>,
                                                      a: SnapshotName)
    requires Listed(disk, listing) && a in disk
    requires forall name :: name in disk && name != a ==> DigitsOf(a.version)[0] > DigitsOf(name.version)[0]
    ensures Latest(Reloaded(disk, listing)) == Some(disk[a])
  {
    var last := LastAsText(disk, listing);
    if last != a {
      LeadingDigitDecides(a, last);
    }
  }

  // ---------- the manager ----------

  function OnDisk(disk: map<SnapshotName, Snapshot>): SnapshotName -> bool {
    (name: SnapshotName) => name in disk
  }

  class SnapshotManager {
    const stateManager: StateManager
    const wal: WriteAheadLog
    const maxSnapshots: nat
    var disk: map<SnapshotName, Snapshot>
    var snapshots: seq<SnapshotName>
    var snapshotsTaken: nat

    /** `disk` is what the directory already holds; the index stays empty until it is loaded. */
    constructor (stateManager: StateManager, wal: WriteAheadLog, maxSnapshots: nat, disk: map<SnapshotName, Snapshot>)
      ensures this.stateManager == stateManager && this.wal == wal && this.maxSnapshots == maxSnapshots
      ensures this.disk == disk && snapshots == [] && snapshotsTaken == 0
    {
      this.stateManager, this.wal, this.maxSnapshots := stateManager, wal, maxSnapshots;
      this.disk, snapshots, snapshotsTaken := disk, [], 0;
    }

    /** At the start of the process the index is rebuilt from the directory's listing. */
    method LoadSnapshotIndex(listing: seq<SnapshotName>)
      modifies this`snapshots
      ensures snapshots == Filter(OnDisk(disk), Sort(TextOrder, listing))
      ensures (forall name :: name in listing ==> name in disk) ==> Store(disk, snapshots) == Reloaded(disk, listing)
    {
      snapshots := Existing(Sort(TextOrder, listing));
      if forall name :: name in listing ==> name in disk {
        SortPermutes(TextOrder, listing);
        FilterAll(OnDisk(disk), Sort(TextOrder, listing));
      }
    }

    /** A file that is gone by the time it is looked at is skipped. */
    method Existing(files: seq<SnapshotName>) returns (index: seq<SnapshotName>)
      ensures index == Filter(OnDisk(disk), files)
    {
      index := [];
      assert files[0..] == files;
      for i := 0 to |files|
        invariant index + Filter(OnDisk(disk), files[i..]) == Filter(OnDisk(disk), files)
      {
        FilterStep(OnDisk(disk), files, i);
        if files[i] in disk {
          index := index + [files[i]];
        }
      }
    }

    /** `bytes` is the length of the checkpoint line. */
    method TakeSnapshot(now: int, bytes: nat) returns (name: SnapshotName)
      requires stateManager.Valid()
      modifies this, stateManager`cachedSnapshot, wal
      ensures stateManager.Valid() && stateManager.cachedSnapshot.Some?
      ensures var snapshot := stateManager.cachedSnapshot.value;
              && snapshot.version == stateManager.version && snapshot.entities == stateManager.entities
              && name == NameOf(snapshot)
              && Store(disk, snapshots) == Saved(old(Store(disk, snapshots)), snapshot, maxSnapshots)
              && wal.Model()
                == Appended(old(wal.Model()), CheckpointPayload(snapshot.version), bytes, now, wal.maxFileSize)
      ensures old(stateManager.cachedSnapshot).Some? ==>
                name.timestamp == old(stateManager.cachedSnapshot).value.timestamp
      ensures snapshotsTaken == old(snapshotsTaken) + 1
      ensures wal.open ==> wal.currentFile in wal.files && wal.files[wal.currentFile] != []
                           && Last(wal.files[wal.currentFile]).payload == CheckpointPayload(stateManager.version)
    {
      var snapshot := stateManager.CreateSnapshot(now);
      name := SnapshotName(snapshot.version, snapshot.timestamp);
      disk := disk[name := snapshot];
      snapshots := snapshots + [name];
      snapshotsTaken := snapshotsTaken + 1;
      PruneOldSnapshots();
      var _ := wal.Append(CheckpointPayload(snapshot.version), bytes, now);
    }

    method PruneOldSnapshots()
      modifies this`disk, this`snapshots
      ensures Store(disk, snapshots) == Pruned(old(Store(disk, snapshots)), maxSnapshots)
    {
      while |snapshots| > maxSnapshots
        invariant Pruned(Store(disk, snapshots), maxSnapshots) == Pruned(old(Store(disk, snapshots)), maxSnapshots)
      {
        var oldest := snapshots[0];
        snapshots := snapshots[1..];
        disk := disk - {oldest};
      }
    }

    method LoadLatestSnapshot() returns (loaded: bool)
      modifies stateManager
      ensures loaded <==> Latest(Store(disk, snapshots)).Some?
      ensures loaded ==> stateManager.Valid() && stateManager.Model() == AfterLoad(Latest(Store(disk, snapshots)).value)
      ensures !loaded ==> unchanged(stateManager)
    {
      if snapshots == [] || snapshots[|snapshots| - 1] !in disk {
        return false;
      }
      stateManager.LoadSnapshot(disk[snapshots[|snapshots| - 1]]);
      return true;
    }

    /** The latest snapshot, or the present state, plus every delta logged above its version. */
    method RecoverState(listing: seq<FileName>, now: int)
      requires stateManager.Valid()
      modifies stateManager
      ensures stateManager.Valid()
      ensures var latest := Latest(Store(disk, snapshots));
              var from := if latest.Some? then latest.value.version else 0;
              var base := if latest.Some? then AfterLoad(latest.value) else old(stateManager.Model());
              stateManager.Model() ==
              ReplayEntries(base, Replayed(wal.Model(), listing, from), now, stateManager.maxHistoryPerEntity)
    {
      var loaded := LoadLatestSnapshot();
      var fromSequence := if loaded then stateManager.version else 0;
      ghost var base := stateManager.Model();
      var entries := wal.Replay(listing, fromSequence);
      for i := 0 to |entries|
        invariant stateManager.Valid()
        invariant stateManager.Model() == ReplayEntries(base, entries[..i], now, stateManager.maxHistoryPerEntity)
      {
        assert Init(entries[..i + 1]) == entries[..i] && Last(entries[..i + 1]) == entries[i];
        match entries[i].payload {
          case DeltaPayload(delta) => var _, _ := stateManager.UpdateEntity(delta.entityId, delta.operations, now);
          case CheckpointPayload(_) =>
        }
      }
      assert entries[..|entries|] == entries;
    }
  }

  // ---------- the procedure over a real log ----------

  /** The log actions of a node's run: each update of a known entity and each checkpoint appends one entry. */
  function Logged(n: Node, steps: seq<NodeStep>, max: nat): seq<Action> {
    if steps == [] then []
    else
      var before, step := Logged(n, Init(steps), max), Last(steps);
      var m := NodeRun(n, Init(steps), max);
      var after := NodeAct(m, step, max);
      if |after.journal| == |m.journal| then before
      else before + [Action.Append(Last(after.journal).payload, Last(after.journal).bytes, 0)]
  }

  lemma {:induction false} StepLogs(n: Node, step: NodeStep, max: nat)
    ensures var journal := NodeAct(n, step, max).journal;
            journal == n.journal
            || (journal != [] && Init(journal) == n.journal && Last(journal).sequence == |n.journal| + 1)
  {
  }

  lemma {:induction false} JournalSnoc(actions: seq<Action>, payload: Payload, bytes: nat)
    ensures Journal(actions + [Action.Append(payload, bytes, 0)]) ==
            Journal(actions) + [LogEntry(|Journal(actions)| + 1, payload, bytes)]
  {
    var append := Action.Append(payload, bytes, 0);
    assert Init(actions + [append]) == actions && Last(actions + [append]) == append;
  }

  /** So a node's journal is what its log was given. */
  lemma {:induction false} LoggedJournal(sm: State, steps: seq<NodeStep>, max: nat)
    ensures Journal(Logged(Node(sm, []), steps, max)) == NodeRun(Node(sm, []), steps, max).journal
  {
    if steps != [] {
      var n := Node(sm, []);
      var m := NodeRun(n, Init(steps), max);
      LoggedJournal(sm, Init(steps), max);
      StepLogs(m, Last(steps), max);
      var journal := NodeAct(m, Last(steps), max).journal;
      if journal != m.journal {
        JournalSnoc(Logged(n, Init(steps), max), Last(journal).payload, Last(journal).bytes);
        assert journal == Init(journal) + [Last(journal)];
      }
    }
  }

  /** The procedure meets the recovery theorem: over any run of the log that was given the node's journal, with
      rotations anywhere and no truncation beyond the snapshot's version, a node that took this snapshot and
      crashed after further updates is restored if and only if it was aligned. */
  lemma {:induction false} RecoverStateIff(time: int, actions: seq<Action>, maxFileSize: nat, listing: seq<FileName>,
                                           n: Node, timestamp: int, bytes: nat, steps: seq<NodeStep>, now: int,
                                           max: nat)
    requires EditsOnly(steps) && n.sm.version + 1 >= Bound(actions)
    requires Journal(actions) == NodeRun(NodeAct(n, Checkpoint(bytes), max), steps, max).journal
    requires Lists(listing, Run(time, actions, maxFileSize).files)
    ensures var snapshot := SnapshotOf(n, timestamp);
            var crashed := NodeRun(NodeAct(n, Checkpoint(bytes), max), steps, max);
            var l := Run(time, actions, maxFileSize);
            Same(ReplayEntries(AfterLoad(snapshot), Replayed(l, listing, snapshot.version), now, max), crashed.sm)
            <==> Aligned(snapshot, crashed.journal, |n.journal| + 1)
  {
    var version := n.sm.version;
    RunContents(time, actions, maxFileSize, version);
    ReplayIgnoresListing(Run(time, actions, maxFileSize), listing, version);
    JournalNumbered(actions);
    JournalGrows(n, steps, bytes, max);
    PrefixNumbered(Journal(actions), |n.journal|);
    RecoveryIff(n, timestamp, bytes, steps, now, max);
  }

  lemma {:induction false} PrefixNumbered(journal: seq<LogEntry>, k: nat)
    requires Consecutive(journal, |journal|) && k <= |journal|
    ensures Consecutive(journal[..k], k)
  {
  }

  lemma {:induction false} JournalGrows(n: Node, steps: seq<NodeStep>, bytes: nat, max: nat)
    ensures var journal := NodeRun(NodeAct(n, Checkpoint(bytes), max), steps, max).journal;
            |n.journal| <= |journal| && journal[..|n.journal|] == n.journal
  {
    if steps != [] {
      JournalGrows(n, Init(steps), bytes, max);
    }
  }
}
