/** Batches of deltas: grouped per entity, merged, and collapsed. */
module DeltaCompressor {
  import opened Common
  import opened JsonTree
  import opened Operations
  import opened MapKeys
  import opened Collapse

  // ---------- specification ----------

  predicate EarlierOrEqual(a: Delta, b: Delta) { a.timestamp <= b.timestamp }

  function Flatten(deltas: seq<Delta>): seq<Op> {
    if deltas == [] then [] else deltas[0].operations + Flatten(deltas[1..])
  }

  function Merge(deltas: seq<Delta>): Delta
    requires deltas != []
  {
    SortPermutes(EarlierOrEqual, deltas);
    var sorted := Sort(EarlierOrEqual, deltas);
    Delta(sorted[0].entityId, sorted[0].fromVersion, Last(sorted).toVersion,
          CollapseOps(Flatten(sorted)), Last(sorted).timestamp)
  }

  /** The deltas of one entity, and the entities in order of first appearance. */
  function Group(deltas: seq<Delta>, id: string): (r: seq<Delta>)
    ensures |r| <= |deltas|
    ensures forall i :: 0 <= i < |r| ==> r[i].entityId == id
  {
    if deltas == [] then []
    else Group(Init(deltas), id) + (if Last(deltas).entityId == id then [Last(deltas)] else [])
  }

  function Ids(deltas: seq<Delta>): seq<string> {
    if deltas == [] then []
    else if Last(deltas).entityId in Ids(Init(deltas)) then Ids(Init(deltas))
    else Ids(Init(deltas)) + [Last(deltas).entityId]
  }

  function Compact(group: seq<Delta>): seq<Delta> {
    if group == [] then [] else if |group| == 1 then group else [Merge(group)]
  }

  function CompressIds(ids: seq<string>, deltas: seq<Delta>): seq<Delta> {
    if ids == [] then [] else CompressIds(Init(ids), deltas) + Compact(Group(deltas, Last(ids)))
  }

  function Compressed(deltas: seq<Delta>): seq<Delta> {
    CompressIds(Ids(deltas), deltas)
  }

  lemma {:induction false} IdsMembers(deltas: seq<Delta>, id: string)
    ensures id in Ids(deltas) <==> Group(deltas, id) != []
    ensures forall i, j :: 0 <= i < j < |Ids(deltas)| ==> Ids(deltas)[i] != Ids(deltas)[j]
  {
    if deltas != [] {
      var before, next := Ids(Init(deltas)), Last(deltas).entityId;
      IdsMembers(Init(deltas), id);
      if next in before {
        IdsMembers(Init(deltas), next);
        assert Ids(deltas) == before;
      } else {
        assert Ids(deltas) == before + [next];
      }
      assert next == id ==> Last(Group(deltas, id)) == Last(deltas);
      assert next != id ==> Group(deltas, id) == Group(Init(deltas), id);
    }
  }

  lemma {:induction false} GroupOfCompact(deltas: seq<Delta>, last: string, id: string)
    ensures Group(Compact(Group(deltas, last)), id) == if last == id then Compact(Group(deltas, id)) else []
  {
    var compact := Compact(Group(deltas, last));
    CompactIds(Group(deltas, last), last);
    if last == id {
      GroupAll(compact, id);
    } else {
      GroupNone(compact, id);
    }
  }

  lemma {:induction false} CompressIdsStep(ids: seq<string>, deltas: seq<Delta>, id: string)
    requires ids != []
    ensures Group(CompressIds(ids, deltas), id) ==
            Group(CompressIds(Init(ids), deltas), id) + if Last(ids) == id then Compact(Group(deltas, id)) else []
  {
    GroupOfCompact(deltas, Last(ids), id);
    GroupConcat(CompressIds(Init(ids), deltas), Compact(Group(deltas, Last(ids))), id);
  }

  lemma {:induction false} CompressIdsAbsent(ids: seq<string>, deltas: seq<Delta>, id: string)
    requires forall i :: 0 <= i < |ids| ==> ids[i] != id
    ensures Group(CompressIds(ids, deltas), id) == []
  {
    if ids != [] {
      CompressIdsAbsent(Init(ids), deltas, id);
      CompressIdsStep(ids, deltas, id);
    }
  }

  /** One compressed delta per entity, and it is made of exactly that entity's deltas. */
  lemma {:induction false} GroupOfCompressIds(ids: seq<string>, deltas: seq<Delta>, k: nat)
    requires (forall i, j :: 0 <= i < j < |ids| ==> ids[i] != ids[j]) && k < |ids|
    ensures Group(CompressIds(ids, deltas), ids[k]) == Compact(Group(deltas, ids[k]))
  {
    var init, id, compact := Init(ids), ids[k], Compact(Group(deltas, ids[k]));
    CompressIdsStep(ids, deltas, id);
    if k == |ids| - 1 {
      CompressIdsAbsent(init, deltas, id);
      assert [] + compact == compact;
    } else {
      assert Last(ids) != id && init[k] == id;
      GroupOfCompressIds(init, deltas, k);
      assert compact + [] == compact;
    }
  }

  lemma {:induction false} GroupOfCompressed(deltas: seq<Delta>, id: string)
    ensures Group(Compressed(deltas), id) == Compact(Group(deltas, id))
  {
    IdsMembers(deltas, id);
    if id in Ids(deltas) {
      var k :| 0 <= k < |Ids(deltas)| && Ids(deltas)[k] == id;
      GroupOfCompressIds(Ids(deltas), deltas, k);
    } else {
      CompressIdsAbsent(Ids(deltas), deltas, id);
    }
  }

  lemma {:induction false} GroupSnoc(deltas: seq<Delta>, d: Delta, id: string)
    ensures Group(deltas + [d], id) == if d.entityId == id then Group(deltas, id) + [d] else Group(deltas, id)
  {
    assert Init(deltas + [d]) == deltas && Last(deltas + [d]) == d;
    assert Group(deltas, id) + [] == Group(deltas, id);
  }

  lemma {:induction false} GroupConcat(a: seq<Delta>, b: seq<Delta>, id: string)
    ensures Group(a + b, id) == Group(a, id) + Group(b, id)
  {
    if b == [] {
      assert a + b == a;
    } else {
      assert Init(a + b) == a + Init(b) && Last(a + b) == Last(b);
      GroupConcat(a, Init(b), id);
    }
  }

  lemma {:induction false} GroupAll(deltas: seq<Delta>, id: string)
    requires forall i :: 0 <= i < |deltas| ==> deltas[i].entityId == id
    ensures Group(deltas, id) == deltas
  {
    if deltas != [] {
      GroupAll(Init(deltas), id);
    }
  }

  lemma {:induction false} GroupNone(deltas: seq<Delta>, id: string)
    requires forall i :: 0 <= i < |deltas| ==> deltas[i].entityId != id
    ensures Group(deltas, id) == []
  {
    if deltas != [] {
      GroupNone(Init(deltas), id);
    }
  }

  lemma {:induction false} CompactIds(group: seq<Delta>, id: string)
    requires forall i :: 0 <= i < |group| ==> group[i].entityId == id
    ensures forall i :: 0 <= i < |Compact(group)| ==> Compact(group)[i].entityId == id
  {
    if |group| > 1 {
      SortPermutes(EarlierOrEqual, group);
      assert Sort(EarlierOrEqual, group)[0] in group;
    }
  }

  /** A merged delta starts at the version of an earliest delta of its group, and ends at the version and the
      time of a latest one. */
  lemma {:induction false} MergeSpans(deltas: seq<Delta>) returns (first: Delta, last: Delta)
    requires deltas != []
    ensures first in deltas && last in deltas
    ensures forall d :: d in deltas ==> first.timestamp <= d.timestamp <= last.timestamp
    ensures Merge(deltas).fromVersion == first.fromVersion && Merge(deltas).entityId == first.entityId
    ensures Merge(deltas).toVersion == last.toVersion && Merge(deltas).timestamp == last.timestamp
  {
    var sorted := Sort(EarlierOrEqual, deltas);
    SortPermutes(EarlierOrEqual, deltas);
    SortSorts(EarlierOrEqual, deltas);
    first, last := sorted[0], Last(sorted);
    forall d | d in deltas ensures first.timestamp <= d.timestamp <= last.timestamp {
      assert d in sorted;
      var i :| 0 <= i < |sorted| && sorted[i] == d;
      assert i > 0 ==> EarlierOrEqual(sorted[0], sorted[i]);
      assert i < |sorted| - 1 ==> EarlierOrEqual(sorted[i], sorted[|sorted| - 1]);
    }
    assert first in sorted && last in sorted;
  }

  lemma {:induction false} IdsOccur(deltas: seq<Delta>, id: string)
    ensures id in Ids(deltas) <==> exists k :: 0 <= k < |deltas| && deltas[k].entityId == id
  {
    if deltas != [] {
      IdsOccur(Init(deltas), id);
      assert forall k :: 0 <= k < |deltas| - 1 ==> Init(deltas)[k] == deltas[k];
      assert deltas[|deltas| - 1] == Last(deltas);
    }
  }

  lemma {:induction false} IdsStep(deltas: seq<Delta>, j: nat)
    requires j < |Ids(deltas)|
    ensures deltas != []
    ensures if j < |Ids(Init(deltas))| then Ids(deltas)[j] == Ids(Init(deltas))[j]
            else Ids(deltas)[j] == Last(deltas).entityId && Ids(deltas)[j] !in Ids(Init(deltas))
  {
  }

  /** The entities come in the order of their first deltas. */
  lemma {:induction false} IdsInOrder(deltas: seq<Delta>, i: nat, j: nat) returns (k: nat)
    requires i < j < |Ids(deltas)|
    ensures k < |deltas| && deltas[k].entityId == Ids(deltas)[i]
    ensures forall l :: 0 <= l <= k ==> deltas[l].entityId != Ids(deltas)[j]
  {
    IdsStep(deltas, i);
    IdsStep(deltas, j);
    var init, before := Init(deltas), Ids(Init(deltas));
    assert |Ids(deltas)| <= |before| + 1;
    if j < |before| {
      k := IdsInOrder(init, i, j);
    } else {
      IdsOccur(init, before[i]);
      IdsOccur(init, Ids(deltas)[j]);
      assert before[i] in before;
      k :| 0 <= k < |init| && init[k].entityId == before[i];
    }
    forall l | 0 <= l <= k ensures deltas[l].entityId != Ids(deltas)[j] {
      assert deltas[l] == init[l];
    }
  }

  lemma {:induction false} CompactOne(group: seq<Delta>, id: string)
    requires group != [] && forall i :: 0 <= i < |group| ==> group[i].entityId == id
    ensures |Compact(group)| == 1 && Compact(group)[0].entityId == id
  {
    CompactIds(group, id);
  }

  /** One delta per id, in the order of the ids. */
  predicate OneEach(deltas: seq<Delta>, ids: seq<string>) {
    |deltas| == |ids| && forall i :: 0 <= i < |ids| ==> deltas[i].entityId == ids[i]
  }

  lemma {:induction false} OneMoreEach(deltas: seq<Delta>, one: seq<Delta>, ids: seq<string>)
    requires ids != [] && OneEach(deltas, Init(ids)) && OneEach(one, [Last(ids)])
    ensures OneEach(deltas + one, ids)
  {
    assert one[0].entityId == [Last(ids)][0];
  }

  lemma {:induction false} CompressIdsEach(ids: seq<string>, deltas: seq<Delta>)
    requires forall i :: 0 <= i < |ids| ==> Group(deltas, ids[i]) != []
    ensures OneEach(CompressIds(ids, deltas), ids)
  {
    if ids != [] {
      var one := Compact(Group(deltas, Last(ids)));
      CompressIdsEach(Init(ids), deltas);
      CompactOne(Group(deltas, Last(ids)), Last(ids));
      OneMoreEach(CompressIds(Init(ids), deltas), one, ids);
    }
  }

  /** A compressed batch holds one delta per entity, in the order of the entities' first deltas. */
  lemma {:induction false} CompressedInOrder(deltas: seq<Delta>, i: nat, j: nat) returns (k: nat)
    requires i < j < |Compressed(deltas)|
    ensures k < |deltas| && deltas[k].entityId == Compressed(deltas)[i].entityId
    ensures forall l :: 0 <= l <= k ==> deltas[l].entityId != Compressed(deltas)[j].entityId
  {
    forall i | 0 <= i < |Ids(deltas)| ensures Group(deltas, Ids(deltas)[i]) != [] {
      IdsMembers(deltas, Ids(deltas)[i]);
    }
    CompressIdsEach(Ids(deltas), deltas);
    k := IdsInOrder(deltas, i, j);
  }

  /** The map of the grouping loop, and its keys in insertion order. */
  predicate Grouped(ids: seq<string>, grouped: map<string, seq<Delta>>, deltas: seq<Delta>) {
    && ids == Ids(deltas) && grouped.Keys == (set id | id in ids)
    && forall id :: id in ids ==> grouped[id] == Group(deltas, id)
  }

  lemma {:induction false} GroupedNext(ids: seq<string>, grouped: map<string, seq<Delta>>, deltas: seq<Delta>, d: Delta)
    requires Grouped(ids, grouped, deltas)
    ensures var group := if d.entityId in grouped then grouped[d.entityId] else [];
            Grouped(if d.entityId in grouped then ids else ids + [d.entityId],
                    grouped[d.entityId := group + [d]], deltas + [d])
  {
    var id := d.entityId;
    var ids' := if id in grouped then ids else ids + [id];
    assert id in grouped <==> id in ids;
    IdsMembers(deltas, id);
    assert Init(deltas + [d]) == deltas;
    assert Ids(deltas + [d]) == ids';
    var grouped' := grouped[id := (if id in grouped then grouped[id] else []) + [d]];
    forall x | x in ids' ensures grouped'[x] == Group(deltas + [d], x) {
      GroupSnoc(deltas, d, x);
    }
    assert grouped'.Keys == (set x | x in ids');
  }

  // ---------- the compressor ----------

  class DeltaCompressor {
    var compressionRatio: real
    var totalCompressed: int

    constructor ()
      ensures compressionRatio == 0.0 && totalCompressed == 0
    {
      compressionRatio, totalCompressed := 0.0, 0;
    }

    /** One round of the collapse loop. */
    method Absorbed(pathOps: seq<Entry>, op: Op) returns (r: seq<Entry>)
      ensures r == CollapseStep(pathOps, op)
    {
      var existing := MapGet(pathOps, op.path);
      if existing.None? {
        return MapSet(pathOps, op.path, op);
      }
      match op.kind {
        case Set => r := MapSet(pathOps, op.path, op);
        case Delete => r := MapSet(pathOps, op.path, op);
        case Increment =>
          if existing.value.kind == Increment || existing.value.kind == Set {
            var total := ToNumber(existing.value.value) + Amount(op.value);
            r := MapSet(pathOps, op.path, existing.value.(value := Num(total)));
          } else {
            r := MapSet(pathOps, op.path, op);
          }
        case _ => r := MapSet(pathOps, DerivedKey(op), op);
      }
    }

    method CollapseOperations(operations: seq<Op>) returns (r: seq<Op>)
      ensures r == CollapseOps(operations)
    {
      var pathOps: seq<Entry> := [];
      for i := 0 to |operations|
        invariant pathOps == CollapseMap(operations[..i])
      {
        CollapseMapSnoc(operations[..i], operations[i]);
        assert operations[..i + 1] == operations[..i] + [operations[i]];
        pathOps := Absorbed(pathOps, operations[i]);
      }
      assert operations[..|operations|] == operations;
      r := Values(pathOps);
    }

    method MergeEntityDeltas(deltas: seq<Delta>) returns (r: Option<Delta>)
      ensures r == if deltas == [] then None else Some(Merge(deltas))
    {
      if deltas == [] {
        return None;
      }
      SortPermutes(EarlierOrEqual, deltas);
      var sorted := Sort(EarlierOrEqual, deltas);
      var first, last := sorted[0], sorted[|sorted| - 1];
      var mergedOps := CollapseOperations(Flatten(sorted));
      return Some(Delta(first.entityId, first.fromVersion, last.toVersion, mergedOps, last.timestamp));
    }

    method GroupByEntity(deltas: seq<Delta>) returns (ids: seq<string>, grouped: map<string, seq<Delta>>)
      ensures ids == Ids(deltas) && grouped.Keys == (set id | id in ids)
      ensures forall id :: id in ids ==> grouped[id] == Group(deltas, id)
    {
      ids, grouped := [], map[];
      for i := 0 to |deltas|
        invariant Grouped(ids, grouped, deltas[..i])
      {
        var delta := deltas[i];
        assert deltas[..i + 1] == deltas[..i] + [delta];
        GroupedNext(ids, grouped, deltas[..i], delta);
        var group := if delta.entityId in grouped then grouped[delta.entityId] else [];
        if delta.entityId !in grouped {
          ids := ids + [delta.entityId];
        }
        grouped := grouped[delta.entityId := group + [delta]];
      }
      assert deltas[..|deltas|] == deltas;
    }

    method CompressGroups(ids: seq<string>, grouped: map<string, seq<Delta>>, ghost deltas: seq<Delta>)
        returns (compressed: seq<Delta>)
      requires forall id :: id in ids ==> id in grouped && grouped[id] == Group(deltas, id)
      ensures compressed == CompressIds(ids, deltas)
    {
      compressed := [];
      for i := 0 to |ids|
        invariant compressed == CompressIds(ids[..i], deltas)
      {
        assert Init(ids[..i + 1]) == ids[..i] && Last(ids[..i + 1]) == ids[i];
        var group := grouped[ids[i]];
        ghost var before := compressed;
        if |group| == 1 {
          compressed := compressed + [group[0]];
          assert group == [group[0]];
        } else {
          var merged := MergeEntityDeltas(group);
          if merged.Some? {
            compressed := compressed + [merged.value];
          }
        }
        assert compressed == before + Compact(group);
      }
      assert ids[..|ids|] == ids;
    }

    method Compress(deltas: seq<Delta>) returns (compressed: seq<Delta>)
      modifies this
      ensures compressed == Compressed(deltas)
      ensures |deltas| <= 1 ==> unchanged(this)
      ensures |deltas| > 1 ==>
                && compressionRatio == 1.0 - |compressed| as real / |deltas| as real
                && totalCompressed == old(totalCompressed) + |deltas| - |compressed|
    {
      if |deltas| <= 1 {
        FewUnchanged(deltas);
        return deltas;
      }
      var ids, grouped := GroupByEntity(deltas);
      compressed := CompressGroups(ids, grouped, deltas);
      compressionRatio := 1.0 - |compressed| as real / |deltas| as real;
      totalCompressed := totalCompressed + |deltas| - |compressed|;
    }

    static lemma {:induction false} FewUnchanged(deltas: seq<Delta>)
      requires |deltas| <= 1
      ensures Compressed(deltas) == deltas
    {
      if |deltas| == 1 {
        var id := deltas[0].entityId;
        assert Init(deltas) == [] && Last(deltas) == deltas[0];
        assert Init([id]) == [id][..0] == [];
        assert Ids(deltas) == [id];
        assert Group(deltas, id) == deltas;
        assert CompressIds([], deltas) == [];
        assert CompressIds([id], deltas) == [] + Compact(deltas);
      }
    }
  }
}
