/** Resolving a conflict between two versions of an entity: the winner, the deep merge of their data,
    and the merge of their operations. */
module ConflictResolver {
  import opened Common
  import opened JsonTree
  import opened Operations
  import opened Collapse
  import opened StateManager

  // ---------- deep merge ----------

  /** Two plain objects are merged member by member; anything else is replaced by the source. */
  function Merge(target: Value, source: Value): Value
    decreases source
  {
    if target.Obj? && source.Obj? then
      Obj(map k | k in target.fields.Keys + source.fields.Keys ::
            if k !in source.fields then target.fields[k]
            else if k !in target.fields then source.fields[k]
            else Merge(target.fields[k], source.fields[k]))
    else source
  }

  /** The value at a path that runs through plain objects only. */
  function At(v: Value, parts: seq<string>): Option<Value> {
    if parts == [] then Some(v)
    else if v.Obj? && parts[0] in v.fields then At(v.fields[parts[0]], parts[1..])
    else None
  }

  lemma {:induction false} MergeKeys(a: Value, b: Value)
    requires a.Obj? && b.Obj?
    ensures Merge(a, b).Obj? && Merge(a, b).fields.Keys == a.fields.Keys + b.fields.Keys
  {
  }

  /** Every leaf of the source survives at its path. */
  lemma {:induction false} SourceLeafSurvives(a: Value, b: Value, parts: seq<string>)
    requires At(b, parts).Some? && !At(b, parts).value.Obj?
    ensures At(Merge(a, b), parts) == At(b, parts)
    decreases |parts|
  {
    if a.Obj? && b.Obj? && parts[0] in a.fields {
      SourceLeafSurvives(a.fields[parts[0]], b.fields[parts[0]], parts[1..]);
    }
  }

  /** The source is an object all along the path until a member is missing. */
  predicate LeavesAlone(b: Value, parts: seq<string>) {
    b.Obj? && parts != [] && (parts[0] in b.fields ==> LeavesAlone(b.fields[parts[0]], parts[1..]))
  }

  lemma {:induction false} AloneIsAbsent(b: Value, parts: seq<string>)
    requires LeavesAlone(b, parts)
    ensures At(b, parts) == None
  {
    if parts[0] in b.fields {
      AloneIsAbsent(b.fields[parts[0]], parts[1..]);
    }
  }

  /** What the source leaves alone keeps the target's value. */
  lemma {:induction false} TargetSurvives(a: Value, b: Value, parts: seq<string>)
    requires LeavesAlone(b, parts)
    ensures At(Merge(a, b), parts) == At(a, parts)
    decreases |parts|
  {
    var k := parts[0];
    if a.Obj? && k in a.fields && k in b.fields {
      TargetSurvives(a.fields[k], b.fields[k], parts[1..]);
    } else {
      AloneIsAbsent(b, parts);
    }
  }

  lemma {:induction false} MergeIdempotent(a: Value)
    ensures Merge(a, a) == a
  {
    if a.Obj? {
      forall k | k in a.fields ensures Merge(a.fields[k], a.fields[k]) == a.fields[k] {
        MergeIdempotent(a.fields[k]);
      }
    }
  }

  lemma {:induction false} MergeAbsorbsTarget(a: Value, b: Value)
    ensures Merge(a, Merge(a, b)) == Merge(a, b)
    decreases b
  {
    if a.Obj? && b.Obj? {
      forall k | k in a.fields && k in b.fields
        ensures Merge(a.fields[k], Merge(a.fields[k], b.fields[k])) == Merge(a.fields[k], b.fields[k])
      {
        MergeAbsorbsTarget(a.fields[k], b.fields[k]);
      }
      forall k | k in a.fields && k !in b.fields ensures Merge(a.fields[k], a.fields[k]) == a.fields[k] {
        MergeIdempotent(a.fields[k]);
      }
      assert Merge(a, Merge(a, b)).fields == Merge(a, b).fields;
    }
  }

  lemma {:induction false} MergeAbsorbsSource(a: Value, b: Value)
    ensures Merge(Merge(a, b), b) == Merge(a, b)
    decreases b
  {
    if a.Obj? && b.Obj? {
      forall k | k in a.fields && k in b.fields
        ensures Merge(Merge(a.fields[k], b.fields[k]), b.fields[k]) == Merge(a.fields[k], b.fields[k])
      {
        MergeAbsorbsSource(a.fields[k], b.fields[k]);
      }
      forall k | k in b.fields && k !in a.fields ensures Merge(b.fields[k], b.fields[k]) == b.fields[k] {
        MergeIdempotent(b.fields[k]);
      }
      assert Merge(Merge(a, b), b).fields == Merge(a, b).fields;
    } else {
      MergeIdempotent(b);
    }
  }

  /** `b` already has every member of `a`, object against object all the way down. */
  predicate Covers(b: Value, a: Value)
    decreases b
  {
    a.Obj? && b.Obj? ==>
      forall k :: k in a.fields ==> k in b.fields && Covers(b.fields[k], a.fields[k])
  }

  lemma {:induction false} CoversIff(a: Value, b: Value)
    ensures Covers(b, a) <==> Merge(a, b) == b
    decreases b
  {
    if a.Obj? && b.Obj? {
      forall k | k in a.fields && k in b.fields
        ensures Covers(b.fields[k], a.fields[k]) <==> Merge(a.fields[k], b.fields[k]) == b.fields[k]
      {
        CoversIff(a.fields[k], b.fields[k]);
      }
      if Covers(b, a) {
        assert Merge(a, b).fields == b.fields;
      } else {
        var k :| k in a.fields && !(k in b.fields && Covers(b.fields[k], a.fields[k]));
        assert k in Merge(a, b).fields;
      }
    }
  }

  /** No member is an object in the first and third tree, something else in the second,
      and holds in the first what the third does not cover. */
  predicate Associates(a: Value, b: Value, c: Value)
    decreases c
  {
    a.Obj? && c.Obj? ==>
      if b.Obj?
      then forall k :: k in a.fields && k in b.fields && k in c.fields ==>
          Associates(a.fields[k], b.fields[k], c.fields[k])
      else Covers(c, a)
  }

  /** Deep merge is associative on exactly these triples. */
  lemma {:induction false} MergeAssociativeIff(a: Value, b: Value, c: Value)
    ensures Associates(a, b, c) <==> Merge(Merge(a, b), c) == Merge(a, Merge(b, c))
    decreases c
  {
    if a.Obj? && c.Obj? {
      if b.Obj? {
        var l, r := Merge(Merge(a, b), c), Merge(a, Merge(b, c));
        assert l.fields.Keys == r.fields.Keys;
        forall k | k in l.fields
          ensures l.fields[k] == r.fields[k] <==>
                  (k in a.fields && k in b.fields && k in c.fields ==>
                      Associates(a.fields[k], b.fields[k], c.fields[k]))
        {
          if k in a.fields && k in b.fields && k in c.fields {
            MergeAssociativeIff(a.fields[k], b.fields[k], c.fields[k]);
          }
        }
        if Associates(a, b, c) {
          assert l.fields == r.fields;
        } else {
          var k :| k in a.fields && k in b.fields && k in c.fields
            && !Associates(a.fields[k], b.fields[k], c.fields[k]);
          assert l.fields[k] != r.fields[k];
        }
      } else {
        CoversIff(a, c);
      }
    }
  }

  lemma {:induction false} MergedMembers(target: map<string, Value>, source: map<string, Value>)
      returns (want: map<string, Value>)
    ensures Merge(Obj(target), Obj(source)) == Obj(want) && (forall k :: k in want <==> k in target || k in source)
    ensures forall k :: k in source ==> want[k] == if k in target then Merge(target[k], source[k]) else source[k]
    ensures forall k :: k in target && k !in source ==> want[k] == target[k]
  {
    want := Merge(Obj(target), Obj(source)).fields;
  }

  method MergeMember(present: bool, current: Value, incoming: Value) returns (v: Value)
    ensures v == if present then Merge(current, incoming) else incoming
    decreases incoming, 1
  {
    if incoming.Obj? && present && current.Obj? {
      var merged := DeepMerge(current.fields, incoming.fields);
      v := Obj(merged);
    } else {
      v := incoming;
    }
  }

  /** The loop's progress: sources still in `keys` have not been merged yet. */
  ghost predicate Progress(result: map<string, Value>, target: map<string, Value>, source: map<string, Value>,
                     want: map<string, Value>, keys: set<string>)
    requires forall k :: k in source ==> k in want
  {
    && (forall k :: k in source || k in target || k in result ==>
          (k in result <==> k in target || (k in source && k !in keys)))
    && forall k :: k in result ==>
        if k in source && k !in keys then result[k] == want[k] else k in target && result[k] == target[k]
  }

  lemma {:induction false} ProgressStep(result: map<string, Value>, target: map<string, Value>,
                                        source: map<string, Value>,
                     want: map<string, Value>, keys: set<string>, key: string)
    requires (forall k :: k in source ==> k in want) && keys <= source.Keys && key in keys
    requires Progress(result, target, source, want, keys)
    ensures Progress(result[key := want[key]], target, source, want, keys - {key})
    ensures key in result <==> key in target
    ensures key in target ==> result[key] == target[key]
  {
  }

  lemma {:induction false} ProgressDone(result: map<string, Value>, target: map<string, Value>,
                                        source: map<string, Value>, want: map<string, Value>)
    requires (forall k :: k in want <==> k in target || k in source)
    requires forall k :: k in target && k !in source ==> want[k] == target[k]
    requires Progress(result, target, source, want, {})
    ensures result == want
  {
    forall k ensures k in result <==> k in want {
      assert k in source || k in target || k in result ==> (k in result <==> k in target || k in source);
    }
  }

  method DeepMerge(target: map<string, Value>, source: map<string, Value>) returns (result: map<string, Value>)
    ensures Obj(result) == Merge(Obj(target), Obj(source))
    decreases Obj(source), 0
  {
    ghost var want := MergedMembers(target, source);
    result := target;
    var keys := source.Keys;
    while keys != {}
      invariant keys <= source.Keys && Progress(result, target, source, want, keys)
      decreases |keys|
    {
      var key :| key in keys;
      ProgressStep(result, target, source, want, keys, key);
      var merged := MergeMember(key in result, if key in result then result[key] else Null, source[key]);
      result := result[key := merged];
      keys := keys - {key};
    }
    ProgressDone(result, target, source, want);
  }

  // ---------- merging operations ----------

  /** The local operations filed by path, the last one of a path in the place of the first. */
  function ByPath(ops: seq<Op>): seq<Entry> {
    if ops == [] then [] else MapSet(ByPath(ops[..|ops| - 1]), ops[|ops| - 1].path, ops[|ops| - 1])
  }

  /** Then the first remote operation of every path that has no entry yet. */
  function AddMissing(m: seq<Entry>, ops: seq<Op>): seq<Entry> {
    if ops == [] then m
    else
      var before := AddMissing(m, ops[..|ops| - 1]);
      var op := ops[|ops| - 1];
      if MapGet(before, op.path).Some? then before else MapSet(before, op.path, op)
  }

  function MergedOperations(localOps: seq<Op>, remoteOps: seq<Op>): seq<Op> {
    Values(AddMissing(ByPath(localOps), remoteOps))
  }

  method MergeOperations(localOps: seq<Op>, remoteOps: seq<Op>) returns (r: seq<Op>)
    ensures r == MergedOperations(localOps, remoteOps)
  {
    var pathMap: seq<Entry> := [];
    for i := 0 to |localOps|
      invariant pathMap == ByPath(localOps[..i])
    {
      assert localOps[..i + 1][..i] == localOps[..i];
      pathMap := MapSet(pathMap, localOps[i].path, localOps[i]);
    }
    assert localOps[..|localOps|] == localOps;
    for i := 0 to |remoteOps|
      invariant pathMap == AddMissing(ByPath(localOps), remoteOps[..i])
    {
      assert remoteOps[..i + 1][..i] == remoteOps[..i];
      if MapGet(pathMap, remoteOps[i].path).None? {
        pathMap := MapSet(pathMap, remoteOps[i].path, remoteOps[i]);
      }
    }
    assert remoteOps[..|remoteOps|] == remoteOps;
    return Values(pathMap);
  }

  lemma {:induction false} MapGetSet(m: seq<Entry>, key: string, op: Op, other: string)
    ensures MapGet(MapSet(m, key, op), other) == if other == key then Some(op) else MapGet(m, other)
  {
    if m != [] {
      MapGetSet(m[1..], key, op, other);
      var rest := MapSet(m[1..], key, op);
      assert ([m[0]] + rest)[1..] == rest;
      assert ([Entry(key, op)] + m[1..])[1..] == m[1..];
    } else {
      assert [Entry(key, op)][1..] == [];
    }
  }

  function LastOn(ops: seq<Op>, path: string): Option<Op> {
    if ops == [] then None
    else if ops[|ops| - 1].path == path then Some(ops[|ops| - 1])
    else LastOn(ops[..|ops| - 1], path)
  }

  function FirstOn(ops: seq<Op>, path: string): Option<Op> {
    if ops == [] then None
    else
      var before := FirstOn(ops[..|ops| - 1], path);
      if before.None? && ops[|ops| - 1].path == path then Some(ops[|ops| - 1]) else before
  }

  lemma {:induction false} ByPathGet(ops: seq<Op>, path: string)
    ensures MapGet(ByPath(ops), path) == LastOn(ops, path)
  {
    if ops != [] {
      ByPathGet(ops[..|ops| - 1], path);
      MapGetSet(ByPath(ops[..|ops| - 1]), ops[|ops| - 1].path, ops[|ops| - 1], path);
    }
  }

  /** Local wins: per path the merge holds the last local operation, or else the first remote one. */
  lemma {:induction false} MergedGet(localOps: seq<Op>, remoteOps: seq<Op>, path: string)
    ensures MapGet(AddMissing(ByPath(localOps), remoteOps), path) ==
            if LastOn(localOps, path).Some? then LastOn(localOps, path) else FirstOn(remoteOps, path)
  {
    ByPathGet(localOps, path);
    if remoteOps != [] {
      var rest, op := remoteOps[..|remoteOps| - 1], remoteOps[|remoteOps| - 1];
      MergedGet(localOps, rest, path);
      MapGetSet(AddMissing(ByPath(localOps), rest), op.path, op, path);
    }
  }

  // ---------- what the merged list holds on one path ----------

  /** Every entry is filed under its own path, once. */
  predicate KeyedByPath(m: seq<Entry>) {
    && (forall i :: 0 <= i < |m| ==> m[i].key == m[i].op.path)
    && (forall i, j :: 0 <= i < j < |m| ==> m[i].key != m[j].key)
  }

  lemma {:induction false} SetKeepsFiled(m: seq<Entry>, op: Op)
    requires KeyedByPath(m)
    ensures KeyedByPath(MapSet(m, op.path, op))
    ensures forall e :: e in MapSet(m, op.path, op) ==> e in m || e == Entry(op.path, op)
  {
    if m != [] && m[0].key != op.path {
      assert KeyedByPath(m[1..]);
      SetKeepsFiled(m[1..], op);
      var rest := MapSet(m[1..], op.path, op);
      forall i | 0 <= i < |rest| ensures rest[i].key != m[0].key {
        assert rest[i] in rest;
      }
    }
  }

  lemma {:induction false} ByPathFiled(ops: seq<Op>)
    ensures KeyedByPath(ByPath(ops)) && forall e :: e in ByPath(ops) ==> e.op in ops
  {
    if ops != [] {
      ByPathFiled(ops[..|ops| - 1]);
      SetKeepsFiled(ByPath(ops[..|ops| - 1]), ops[|ops| - 1]);
    }
  }

  lemma {:induction false} MissingFiled(m: seq<Entry>, ops: seq<Op>)
    requires KeyedByPath(m)
    ensures KeyedByPath(AddMissing(m, ops)) && forall e :: e in AddMissing(m, ops) ==> e in m || e.op in ops
  {
    if ops != [] {
      MissingFiled(m, ops[..|ops| - 1]);
      SetKeepsFiled(AddMissing(m, ops[..|ops| - 1]), ops[|ops| - 1]);
    }
  }

  lemma {:induction false} FiledOn(m: seq<Entry>, path: string)
    requires KeyedByPath(m)
    ensures On(Values(m), path) == if MapGet(m, path).Some? then [MapGet(m, path).value] else []
  {
    if m != [] {
      var rest := Values(m[1..]);
      assert KeyedByPath(m[1..]) && ([m[0].op] + rest)[1..] == rest;
      FiledOn(m[1..], path);
      if m[0].key == path {
        AbsentGet(m[1..], path);
      }
    }
  }

  lemma {:induction false} AbsentGet(m: seq<Entry>, key: string)
    requires forall i :: 0 <= i < |m| ==> m[i].key != key
    ensures MapGet(m, key) == None
  {
    if m != [] {
      AbsentGet(m[1..], key);
    }
  }

  /** The operation that a merge keeps for a path. */
  function Chosen(localOps: seq<Op>, remoteOps: seq<Op>, path: string): Option<Op> {
    if LastOn(localOps, path).Some? then LastOn(localOps, path) else FirstOn(remoteOps, path)
  }

  /** Position `i` holds the last (or the first) operation on the path; or the path does not occur. */
  predicate LastAt(ops: seq<Op>, path: string, i: nat) {
    i < |ops| && ops[i].path == path && forall j :: i < j < |ops| ==> ops[j].path != path
  }

  predicate FirstAt(ops: seq<Op>, path: string, i: nat) {
    i < |ops| && ops[i].path == path && forall j :: 0 <= j < i ==> ops[j].path != path
  }

  predicate Misses(ops: seq<Op>, path: string) {
    forall j :: 0 <= j < |ops| ==> ops[j].path != path
  }

  lemma {:induction false} LastOnIs(ops: seq<Op>, path: string, i: nat)
    requires LastAt(ops, path, i)
    ensures LastOn(ops, path) == Some(ops[i])
  {
    if i < |ops| - 1 {
      LastOnIs(ops[..|ops| - 1], path, i);
    }
  }

  lemma {:induction false} FirstOnIs(ops: seq<Op>, path: string, i: nat)
    requires FirstAt(ops, path, i)
    ensures FirstOn(ops, path) == Some(ops[i])
  {
    if i < |ops| - 1 {
      FirstOnIs(ops[..|ops| - 1], path, i);
    } else {
      NoneOn(ops[..|ops| - 1], path);
    }
  }

  lemma {:induction false} NoneOn(ops: seq<Op>, path: string)
    requires Misses(ops, path)
    ensures LastOn(ops, path) == FirstOn(ops, path) == None
  {
    if ops != [] {
      NoneOn(ops[..|ops| - 1], path);
    }
  }

  /** A merge keeps for a path the last local operation on it, or the first remote one if there is no local one,
      and nothing if there is neither. */
  lemma {:induction false} MergeChooses(localOps: seq<Op>, remoteOps: seq<Op>, path: string, i: nat)
    ensures var kept := On(MergedOperations(localOps, remoteOps), path);
            && (LastAt(localOps, path, i) ==> kept == [localOps[i]])
            && (Misses(localOps, path) && FirstAt(remoteOps, path, i) ==> kept == [remoteOps[i]])
            && (Misses(localOps, path) && Misses(remoteOps, path) ==> kept == [])
  {
    MergedOn(localOps, remoteOps, path);
    if LastAt(localOps, path, i) {
      LastOnIs(localOps, path, i);
    }
    if Misses(localOps, path) {
      NoneOn(localOps, path);
    }
    if FirstAt(remoteOps, path, i) {
      FirstOnIs(remoteOps, path, i);
    }
    if Misses(remoteOps, path) {
      NoneOn(remoteOps, path);
    }
  }

  /** At most one operation per path survives a merge, and each comes from one of the two lists. */
  lemma {:induction false} MergedOn(localOps: seq<Op>, remoteOps: seq<Op>, path: string)
    ensures var chosen := Chosen(localOps, remoteOps, path);
            On(MergedOperations(localOps, remoteOps), path) == if chosen.Some? then [chosen.value] else []
    ensures forall o :: o in MergedOperations(localOps, remoteOps) ==> o in localOps || o in remoteOps
  {
    var m := AddMissing(ByPath(localOps), remoteOps);
    ByPathFiled(localOps);
    MissingFiled(ByPath(localOps), remoteOps);
    FiledOn(m, path);
    MergedGet(localOps, remoteOps, path);
    forall o | o in Values(m) ensures o in localOps || o in remoteOps {
      var i :| 0 <= i < |m| && Values(m)[i] == o;
      assert m[i] in m;
    }
  }

  // ---------- resolution ----------

  datatype Strategy = LastWriteWins | FirstWriteWins | MergeData | Custom

  datatype Resolution = Resolution(entity: Entity, strategy: Strategy, mergedOperations: Option<seq<Op>>)

  /** A resolver registered for an entity type; none is the outcome when it throws. */
  type Resolver = (Entity, Entity, Delta, Delta) -> Option<Entity>

  datatype Policy = Policy(strategy: Strategy, custom: map<string, Resolver>)

  function LastWriter(local: Entity, remote: Entity): Resolution {
    Resolution(if local.lastModified >= remote.lastModified then local else remote, LastWriteWins, None)
  }

  function FirstWriter(local: Entity, remote: Entity): Resolution {
    Resolution(if local.lastModified <= remote.lastModified then local else remote, FirstWriteWins, None)
  }

  function Blend(local: Entity, remote: Entity, localDelta: Delta, remoteDelta: Delta, now: int): Resolution {
    var version := if local.version >= remote.version then local.version + 1 else remote.version + 1;
    var data := Merge(Obj(Members(local.data)), Obj(Members(remote.data)));
    var entity := local.(data := data, version := version, lastModified := now);
    Resolution(entity, MergeData, Some(MergedOperations(localDelta.operations, remoteDelta.operations)))
  }

  function Resolved(policy: Policy, local: Entity, remote: Entity, localDelta: Delta, remoteDelta: Delta,
                    now: int): Resolution {
    if local.kind in policy.custom then
      var chosen := policy.custom[local.kind](local, remote, localDelta, remoteDelta);
      if chosen.Some? then Resolution(chosen.value, Custom, None) else LastWriter(local, remote)
    else
      match policy.strategy
      case FirstWriteWins => FirstWriter(local, remote)
      case MergeData => Blend(local, remote, localDelta, remoteDelta, now)
      case _ => LastWriter(local, remote)
  }

  /** A merged entity is the local one with a version above both, the time of the merge, the remote value wherever
      the remote side has a leaf, and the local one wherever the remote side has nothing. */
  lemma {:induction false} BlendKeeps(local: Entity, remote: Entity, localDelta: Delta, remoteDelta: Delta, now: int,
                                      parts: seq<string>)
    ensures var e := Blend(local, remote, localDelta, remoteDelta, now).entity;
            var mine, theirs := Obj(Members(local.data)), Obj(Members(remote.data));
            && e.id == local.id && e.kind == local.kind && e.ownerId == local.ownerId && e.lastModified == now
            && e.version > local.version && e.version > remote.version
            && (e.version == local.version + 1 || e.version == remote.version + 1)
            && (At(theirs, parts).Some? && !At(theirs, parts).value.Obj? ==> At(e.data, parts) == At(theirs, parts))
            && (LeavesAlone(theirs, parts) ==> At(e.data, parts) == At(mine, parts))
  {
    var mine, theirs := Obj(Members(local.data)), Obj(Members(remote.data));
    if At(theirs, parts).Some? && !At(theirs, parts).value.Obj? {
      SourceLeafSurvives(mine, theirs, parts);
    }
    if LeavesAlone(theirs, parts) {
      TargetSurvives(mine, theirs, parts);
    }
  }

  class ConflictResolver {
    var defaultStrategy: Strategy
    var customResolvers: map<string, Resolver>
    var conflictsResolved: nat
    var conflictsFailed: nat

    ghost function Model(): Policy
      reads this`defaultStrategy, this`customResolvers
    {
      Policy(defaultStrategy, customResolvers)
    }

    constructor ()
      ensures Model() == Policy(LastWriteWins, map[]) && conflictsResolved == conflictsFailed == 0
    {
      defaultStrategy, customResolvers, conflictsResolved, conflictsFailed := LastWriteWins, map[], 0, 0;
    }

    method SetDefaultStrategy(strategy: Strategy)
      modifies this`defaultStrategy
      ensures defaultStrategy == strategy
    {
      defaultStrategy := strategy;
    }

    method RegisterResolver(entityType: string, resolver: Resolver)
      modifies this`customResolvers
      ensures customResolvers == old(customResolvers)[entityType := resolver]
    {
      customResolvers := customResolvers[entityType := resolver];
    }

    method ResolveLastWriteWins(local: Entity, remote: Entity) returns (r: Resolution)
      modifies this`conflictsResolved
      ensures r == LastWriter(local, remote) && conflictsResolved == old(conflictsResolved) + 1
      ensures r.entity == (if remote.lastModified > local.lastModified then remote else local)
      ensures r.strategy == LastWriteWins && r.mergedOperations == None
    {
      var winner := if local.lastModified >= remote.lastModified then local else remote;
      conflictsResolved := conflictsResolved + 1;
      return Resolution(winner, LastWriteWins, None);
    }

    method ResolveMerge(local: Entity, remote: Entity, localDelta: Delta, remoteDelta: Delta, now: int)
        returns (r: Resolution)
      modifies this`conflictsResolved
      ensures r == Blend(local, remote, localDelta, remoteDelta, now) && conflictsResolved == old(conflictsResolved) + 1
    {
      var merged := DeepMerge(Members(local.data), Members(remote.data));
      var version := if local.version >= remote.version then local.version else remote.version;
      var mergedOps := MergeOperations(localDelta.operations, remoteDelta.operations);
      conflictsResolved := conflictsResolved + 1;
      var entity := local.(data := Obj(merged), version := version + 1, lastModified := now);
      return Resolution(entity, MergeData, Some(mergedOps));
    }

    /** A custom resolver that throws is counted as failed and falls back to the last write. */
    method ResolveWithCustom(local: Entity, remote: Entity, localDelta: Delta, remoteDelta: Delta, resolver: Resolver)
        returns (r: Resolution)
      modifies this`conflictsResolved, this`conflictsFailed
      ensures var chosen := resolver(local, remote, localDelta, remoteDelta);
              && r == (if chosen.Some? then Resolution(chosen.value, Custom, None) else LastWriter(local, remote))
              && conflictsFailed == old(conflictsFailed) + if chosen.None? then 1 else 0
      ensures conflictsResolved == old(conflictsResolved) + 1
    {
      var chosen := resolver(local, remote, localDelta, remoteDelta);
      if chosen.None? {
        conflictsFailed := conflictsFailed + 1;
        r := ResolveLastWriteWins(local, remote);
      } else {
        conflictsResolved := conflictsResolved + 1;
        r := Resolution(chosen.value, Custom, None);
      }
    }

    method Resolve(local: Entity, remote: Entity, localDelta: Delta, remoteDelta: Delta, now: int)
        returns (r: Resolution)
      modifies this`conflictsResolved, this`conflictsFailed
      ensures r == Resolved(Model(), local, remote, localDelta, remoteDelta, now)
      ensures local.kind !in customResolvers && defaultStrategy == FirstWriteWins ==>
                r.entity == (if remote.lastModified < local.lastModified then remote else local)
      ensures local.kind !in customResolvers && (defaultStrategy == LastWriteWins || defaultStrategy == Custom) ==>
                r.entity == (if remote.lastModified > local.lastModified then remote else local)
      ensures r.mergedOperations.Some? <==> local.kind !in customResolvers && defaultStrategy == MergeData
      ensures conflictsResolved == old(conflictsResolved) + 1
    {
      if local.kind in customResolvers {
        r := ResolveWithCustom(local, remote, localDelta, remoteDelta, customResolvers[local.kind]);
        return;
      }
      match defaultStrategy {
        case FirstWriteWins =>
          var winner := if local.lastModified <= remote.lastModified then local else remote;
          conflictsResolved := conflictsResolved + 1;
          r := Resolution(winner, FirstWriteWins, None);
        case MergeData => r := ResolveMerge(local, remote, localDelta, remoteDelta, now);
        case _ => r := ResolveLastWriteWins(local, remote);
      }
    }
  }
}
