/** When replacing an operation list by its collapsed form leaves every document unchanged. */
module CollapseTheorems {
  import opened Common
  import opened JsonTree
  import opened Operations
  import opened MapKeys
  import opened CellCollapse
  import opened Collapse

  predicate ExactOn(ops: seq<Op>, path: string) {
    On(ops, path) == [] || Exact(On(ops, path))
  }

  /** The per-path test, made for every path of the list. */
  predicate AllExact(ops: seq<Op>) {
    forall i :: 0 <= i < |ops| ==> ExactOn(ops, ops[i].path)
  }

  /** The paths in the collapsed map are paths of the list. */
  lemma {:induction false} CollapsePaths(ops: seq<Op>)
    requires KeysClean(ops)
    ensures forall o :: o in CollapseOps(ops) ==> exists a :: a in ops && a.path == o.path
  {
    CollapseFiled(ops, ops);
    forall o | o in CollapseOps(ops) ensures exists a :: a in ops && a.path == o.path {
      var i :| 0 <= i < |CollapseMap(ops)| && CollapseOps(ops)[i] == o;
      assert Filed(CollapseMap(ops)[i], ops);
    }
  }

  // ---------- the collapsed list can be pulled apart like the original ----------

  /** Before index `k` only `path` and paths disjoint from it; from `k` on never `path`. */
  predicate SplitAt(ops: seq<Op>, path: string, k: nat) {
    && k <= |ops|
    && (forall i :: 0 <= i < k ==> ops[i].path == path || Apart(ops[i].path, path))
    && (forall i :: k <= i < |ops| ==> ops[i].path != path)
  }

  lemma {:induction false} OnNone(ops: seq<Op>, path: string)
    ensures On(ops, path) == [] <==> forall i :: 0 <= i < |ops| ==> ops[i].path != path
  {
    if ops != [] {
      OnNone(ops[1..], path);
    }
  }

  lemma {:induction false} SplitPullable(ops: seq<Op>, path: string, k: nat)
    requires SplitAt(ops, path, k)
    ensures Pullable(ops, path)
  {
    OnNone(ops, path);
    if k > 0 {
      SplitPullable(ops[1..], path, k - 1);
    }
  }

  lemma {:induction false} PullableSplit(ops: seq<Op>, path: string) returns (k: nat)
    requires Pullable(ops, path)
    ensures SplitAt(ops, path, k)
  {
    OnNone(ops, path);
    k := 0;
    if On(ops, path) != [] {
      k := PullableSplit(ops[1..], path);
      k := k + 1;
      forall i | 0 <= i < k ensures ops[i].path == path || Apart(ops[i].path, path) {
        assert i > 0 ==> ops[i] == ops[1..][i - 1];
      }
      forall i | k <= i < |ops| ensures ops[i].path != path {
        assert ops[i] == ops[1..][i - 1];
      }
    }
  }

  /** An assignment under an owned key moves no path: at most one entry is added, at the end. */
  lemma {:induction false} MapSetPaths(m: seq<Entry>, key: string, op: Op)
    requires KeyOwned(m, key, op.path)
    ensures var m' := MapSet(m, key, op);
            && |m| <= |m'| <= |m| + 1
            && (forall i :: 0 <= i < |m| ==> m'[i].op.path == m[i].op.path)
            && (|m'| > |m| ==> m'[|m|].op.path == op.path)
  {
    if m != [] {
      assert KeyOwned(m[1..], key, op.path);
      MapSetPaths(m[1..], key, op);
    }
  }

  lemma {:induction false} CollapseClear(ops: seq<Op>, path: string)
    requires KeysClean(ops) && SplitAt(ops, path, |ops|)
    ensures SplitAt(CollapseOps(ops), path, |CollapseOps(ops)|)
  {
    CollapsePaths(ops);
    forall i | 0 <= i < |CollapseOps(ops)|
      ensures CollapseOps(ops)[i].path == path || Apart(CollapseOps(ops)[i].path, path)
    {
      assert CollapseOps(ops)[i] in CollapseOps(ops);
      var a :| a in ops && a.path == CollapseOps(ops)[i].path;
    }
  }

  lemma {:induction false} MapSetKeepsPaths(m: seq<Entry>, key: string, op: Op)
    requires KeyOwned(m, key, op.path)
    ensures var before, after := Values(m), Values(MapSet(m, key, op));
            && |before| <= |after| <= |before| + 1
            && (forall i :: 0 <= i < |before| ==> after[i].path == before[i].path)
            && (|after| > |before| ==> after[|before|].path == op.path)
  {
    MapSetPaths(m, key, op);
  }

  lemma {:induction false} StepKeepsPaths(m: seq<Entry>, all: seq<Op>, op: Op)
    requires KeysClean(all) && op in all && AllFiled(m, all)
    ensures var before, after := Values(m), Values(CollapseStep(m, op));
            && |before| <= |after| <= |before| + 1
            && (forall i :: 0 <= i < |before| ==> after[i].path == before[i].path)
            && (|after| > |before| ==> after[|before|].path == op.path)
  {
    var existing := MapGet(m, op.path);
    var key, stored := TargetKey(existing, op), Stored(existing, op);
    assert KeyOwned(m, key, stored.path) && stored.path == op.path by {
      FiledKeys(m, all, op);
      MapGetOwned(m, op.path, op.path);
    }
    MapSetKeepsPaths(m, key, stored);
    StepIsSet(m, op);
  }

  lemma {:induction false} GrowKeepsSplit(before: seq<Op>, after: seq<Op>, path: string, j: nat)
    requires SplitAt(before, path, j) && |before| <= |after| <= |before| + 1
    requires forall i :: 0 <= i < |before| ==> after[i].path == before[i].path
    requires |after| > |before| ==> after[|before|].path != path
    ensures SplitAt(after, path, j)
  {
  }

  lemma {:induction false} CollapseSplit(ops: seq<Op>, all: seq<Op>, path: string, k: nat) returns (j: nat)
    requires KeysClean(all) && (forall o :: o in ops ==> o in all) && SplitAt(ops, path, k)
    ensures SplitAt(CollapseOps(ops), path, j)
  {
    if k == |ops| {
      CollapseClear(ops, path);
      j := |CollapseOps(ops)|;
    } else {
      j := CollapseSplit(Init(ops), all, path, k);
      CollapseFiled(Init(ops), all);
      StepKeepsPaths(CollapseMap(Init(ops)), all, Last(ops));
      GrowKeepsSplit(CollapseOps(Init(ops)), CollapseOps(ops), path, j);
    }
  }

  lemma {:induction false} CollapsePullable(ops: seq<Op>, path: string)
    requires KeysClean(ops) && Pullable(ops, path)
    ensures Pullable(CollapseOps(ops), path)
  {
    var k := PullableSplit(ops, path);
    var j := CollapseSplit(ops, ops, path, k);
    SplitPullable(CollapseOps(ops), path, j);
  }

  // ---------- the theorems ----------

  lemma {:induction false} OffPullable(ops: seq<Op>, path: string, other: string)
    requires Pullable(ops, other)
    ensures Pullable(Off(ops, path), other)
  {
    OnOff(ops, path, other);
    if On(ops, other) != [] {
      var rest := Off(ops[1..], path);
      OffPullable(ops[1..], path, other);
      assert ([ops[0]] + rest)[1..] == rest;
      assert Off(ops, path) == if ops[0].path == path then rest else [ops[0]] + rest;
    }
  }

  lemma {:induction false} OnOff(ops: seq<Op>, path: string, other: string)
    ensures On(Off(ops, path), other) == if path == other then [] else On(ops, other)
  {
    if ops != [] {
      var rest := Off(ops[1..], path);
      OnOff(ops[1..], path, other);
      assert ([ops[0]] + rest)[1..] == rest;
      assert Off(ops, path) == if ops[0].path == path then rest else [ops[0]] + rest;
    }
  }

  lemma {:induction false} OffSeparable(ops: seq<Op>, path: string)
    requires Separable(ops)
    ensures Separable(Off(ops, path))
  {
    if ops != [] {
      var rest := Off(ops[1..], path);
      OffSeparable(ops[1..], path);
      OffPullable(ops, path, ops[0].path);
      assert ([ops[0]] + rest)[1..] == rest;
      assert Off(ops, path) == if ops[0].path == path then rest else [ops[0]] + rest;
    }
  }

  /** Collapsing preserves every document when no edit of an overlapping path sits between two
      operations on one path and every path passes the exactness test. Where a segment is an index into an
      array this is not so: a set and a delete beyond the end leave the array longer, their collapse does not. */
  lemma {:induction false} CollapsePreserves(ops: seq<Op>, c: Container)
    requires KeysClean(ops) && Separable(ops) && AllExact(ops)
    ensures Run(CollapseOps(ops), c) == Run(ops, c)
    decreases |ops|
  {
    if ops != [] {
      var path := ops[0].path;
      var on, off := On(ops, path), Off(ops, path);
      PullFirst(ops, path, c);
      CollapsePullable(ops, path);
      PullFirst(CollapseOps(ops), path, c);
      CollapsePart(ops, path, true);
      CollapsePart(ops, path, false);
      OffMembers(ops, path);
      OnePathCollapse(on, path);
      CollapseCellIff(on);
      OnePathRun(on, path, c);
      OnePathRun(Collapsed(on), path, c);
      assert Run(Collapsed(on), c) == Run(on, c);
      OffSeparable(ops, path);
      forall i | 0 <= i < |off| ensures ExactOn(off, off[i].path) {
        OnOff(ops, path, off[i].path);
        assert off[i] in ops;
      }
      CollapsePreserves(off, Run(on, c));
    }
  }

  /** On prefix-free paths the test is exact: collapsing preserves every document if and only if
      each path's operations pass it. Segments are names of members, as in `CollapsePreserves`. */
  lemma {:induction false} CollapsePreservesIff(ops: seq<Op>)
    requires KeysClean(ops) && PrefixFree(ops)
    ensures AllExact(ops) <==> forall c: Container :: Run(CollapseOps(ops), c) == Run(ops, c)
  {
    if AllExact(ops) {
      PrefixFreeSeparable(ops);
      forall c: Container ensures Run(CollapseOps(ops), c) == Run(ops, c) {
        CollapsePreserves(ops, c);
      }
    } else {
      var i :| 0 <= i < |ops| && !ExactOn(ops, ops[i].path);
      var c := CaughtAt(ops, ops[i].path);
    }
  }

  /** A failing path yields a document on which the collapsed list goes wrong. */
  lemma {:induction false} CaughtAt(ops: seq<Op>, path: string) returns (c: Container)
    requires KeysClean(ops) && PrefixFree(ops) && !ExactOn(ops, path)
    ensures Run(CollapseOps(ops), c) != Run(ops, c)
  {
    var on := On(ops, path);
    CollapseCellIff(on);
    var cell :| RunCell(Collapsed(on), cell) != RunCell(on, cell);
    c := Write(Obj(map[]), Split(path), cell);
    ReadWriteSame(Obj(map[]), Split(path), cell, None);
    OffMembers(ops, path);
    assert on[0] in ops && on[0].path == path;
    CollapsePaths(ops);
    RunReadsOwn(ops, path, c);
    RunReadsOwn(CollapseOps(ops), path, c);
    CollapsePart(ops, path, true);
    OnePathCollapse(on, path);
  }

  // ---------- the hypotheses are needed ----------

  lemma {:induction false} DottedSplit(k: string, rest: string)
    requires '.' !in k
    ensures Split(k) == [k]
    ensures Split(k + "." + rest) == [k] + Split(rest)
  {
    var path := k + "." + rest;
    if k == "" {
      assert path[1..] == rest;
    } else {
      DottedSplit(k[1..], rest);
      assert path[1..] == k[1..] + "." + rest;
      assert k == [k[0]] + k[1..];
    }
  }

  lemma {:induction false} Three(x: Op, y: Op, z: Op, c: Container)
    ensures CollapseMap([x, y, z]) == CollapseStep(CollapseStep([Entry(x.path, x)], y), z)
    ensures Run([x, y, z], c) == Apply(z, Apply(y, Apply(x, c)))
  {
    CollapseMapSnoc([], x);
    CollapseMapSnoc([x], y);
    CollapseMapSnoc([x, y], z);
    assert [] + [x] == [x] && [x] + [y] == [x, y] && [x, y] + [z] == [x, y, z];
    Two(x, y, c);
    RunConcat([x, y], [z], c);
    assert [z][1..] == [];
    assert Run([z], Run([x, y], c)) == Run([], Apply(z, Run([x, y], c)));
  }

  lemma {:induction false} Two(x: Op, y: Op, c: Container)
    ensures Run([x, y], c) == Apply(y, Apply(x, c))
  {
    RunConcat([x], [y], c);
    assert [x] + [y] == [x, y] && [x][1..] == [] && [y][1..] == [];
    assert Run([x], c) == Run([], Apply(x, c));
    assert Run([y], Apply(x, c)) == Run([], Apply(y, Apply(x, c)));
  }

  /** An overlapping edit in between: the second write to `k.m` moves in front of the write to `k`,
      which then wipes it out, on every document. */
  lemma {:induction false} SandwichBreaks(k: string, m: string, u: Scalar, v: Scalar, w: Scalar, c: Container)
    requires '.' !in k && '.' !in m
    ensures var q := k + "." + m;
            var ops := [Op(Set, q, u), Op(Set, k, v), Op(Set, q, w)];
            !Separable(ops) && Run(CollapseOps(ops), c) != Run(ops, c)
  {
    var q := k + "." + m;
    var x, y, z := Op(Set, q, u), Op(Set, k, v), Op(Set, q, w);
    var ops := [x, y, z];
    DottedSplit(k, m);
    DottedSplit(m, m);
    assert [k, m][1..] == [m] && q != k;
    Three(x, y, z, c);
    Two(z, y, c);
    assert CollapseOps(ops) == [z, y] by {
      assert [Entry(q, x)][1..] == [];
      assert MapSet([Entry(q, x)], k, y) == [Entry(q, x)] + MapSet([], k, y);
      var two := [Entry(q, x)] + [Entry(k, y)];
      assert CollapseStep(two, z) == [Entry(q, z)] + two[1..];
    }
    var c1 := Apply(z, c);
    assert Lookup(Apply(y, c1), k) == Some(v) by { PutSame(c1, k, Some(v), None); }
    var c2 := Apply(y, Apply(x, c));
    assert IsContainer(Lookup(Apply(z, c2), k).value) by {
      PutSame(c2, k, Some(Edit(Child(c2, k), [m], z)), None);
    }
    assert Pullable(ops, q) ==> Pullable(ops[1..], q);
    assert ops[1..] == [y, z] && [y, z][1..] == [z];
    assert On([y, z], q) != [] by { OffMembers([y, z], q); assert z in [y, z]; }
    assert !Apart(k, q);
  }

  lemma {:induction false} Collision(x: Op, y: Op, z: Op)
    requires x.path == y.path && IsArrayOp(y) && z.kind == Set && z.path == DerivedKey(y) != y.path
    ensures CollapseOps([x, y, z]) == [x, z]
  {
    Three(x, y, z, Obj(map[]));
    var one, two := [Entry(x.path, x)], [Entry(x.path, x), Entry(z.path, y)];
    assert one[1..] == [] && two[1..] == [Entry(z.path, y)] && two[1..][1..] == [];
    assert MapSet(one, z.path, y) == one + MapSet([], z.path, y) == two;
    assert MapGet(two[1..], z.path) == Some(y);
    assert MapGet(two, z.path) == Some(y);
    assert MapSet(two[1..], z.path, z) == [Entry(z.path, z)] + [];
    var done := [Entry(x.path, x)] + [Entry(z.path, z)];
    assert MapSet(two, z.path, z) == done;
    assert Values(done) == [x, z];
  }

  lemma {:induction false} TwoAppends(x: Op, y: Op)
    requires x.kind == y.kind == Append
    ensures RunCell([x], None) == Some(Arr([x.value], map[]))
    ensures RunCell([x, y], None) == Some(Arr([x.value, y.value], map[]))
  {
    var first := Some(Arr([x.value], map[]));
    RunCellConcat([x], [y], None);
    assert [x] + [y] == [x, y] && [x][1..] == [] && [y][1..] == [];
    assert RunCell([x], None) == first;
    assert [x.value] + [y.value] == [x.value, y.value];
    assert RunCell([y], first) == RunCell([], Act(y, first));
  }

  lemma {:induction false} OwnOps(x: Op, y: Op, z: Op)
    requires x.path == y.path && z.path != x.path
    ensures On([x, z], x.path) == [x] && On([x, y, z], x.path) == [x, y]
  {
    assert [x][1..] == [] && [y][1..] == [] && [z][1..] == [];
    OnConcat([x], [z], x.path);
    OnConcat([x], [y], x.path);
    OnConcat([x, y], [z], x.path);
    assert [x] + [z] == [x, z] && [x] + [y] == [x, y] && [x, y] + [z] == [x, y, z];
  }

  lemma {:induction false} LostAppend(x: Op, y: Op, z: Op)
    requires x.kind == y.kind == Append && x.path == y.path && x.value != y.value
    requires Apart(x.path, z.path) && x.path != z.path
    ensures Run([x, z], Obj(map[])) != Run([x, y, z], Obj(map[]))
  {
    RunReadsOwn([x, z], x.path, Obj(map[]));
    RunReadsOwn([x, y, z], x.path, Obj(map[]));
    OwnOps(x, y, z);
    EmptyRead(Split(x.path));
    TwoAppends(x, y);
  }

  lemma {:induction false} ApartFacts(path: string, path': string)
    requires Apart(path, path')
    ensures Apart(path', path) && path != path'
  {
  }

  lemma {:induction false} TwoPaths(ops: seq<Op>, path: string, path': string)
    requires Apart(path, path') && Apart(path', path)
    requires forall i :: 0 <= i < |ops| ==> ops[i].path == path || ops[i].path == path'
    ensures PrefixFree(ops)
  {
    forall i, j | 0 <= i < |ops| && 0 <= j < |ops| && ops[i].path != ops[j].path
      ensures Apart(ops[i].path, ops[j].path)
    {
    }
  }

  lemma {:induction false} CollisionShape(x: Op, y: Op, z: Op)
    requires IsArrayOp(y) && x.path == y.path && z.path == DerivedKey(y) && Apart(x.path, z.path)
    ensures !KeysClean([x, y, z]) && PrefixFree([x, y, z]) && z.path != y.path
  {
    ApartFacts(x.path, z.path);
    TwoPaths([x, y, z], x.path, z.path);
    assert y in [x, y, z] && z in [x, y, z];
  }

  /** A path that spells a derived key: the set overwrites the stored append and its item is lost. */
  lemma {:induction false} KeyCollisionBreaks(x: Op, y: Op, z: Op)
    requires x.kind == y.kind == Append && x.path == y.path && x.value != y.value
    requires z.kind == Set && z.path == DerivedKey(y) && Apart(x.path, z.path)
    ensures !KeysClean([x, y, z]) && PrefixFree([x, y, z])
    ensures Run(CollapseOps([x, y, z]), Obj(map[])) != Run([x, y, z], Obj(map[]))
  {
    CollisionShape(x, y, z);
    Collision(x, y, z);
    LostAppend(x, y, z);
  }

  // ---------- one path that fails the test ----------

  lemma {:induction false} OnOwnPath(ops: seq<Op>, path: string)
    requires AllOn(ops, path)
    ensures On(ops, path) == ops
  {
    if ops != [] {
      OnOwnPath(ops[1..], path);
      assert ops == [ops[0]] + ops[1..];
    }
  }

  /** Operations on one path that fail the test yield a document on which their collapse goes wrong. */
  lemma {:induction false} OnePathCaught(ops: seq<Op>, path: string) returns (c: Container)
    requires ops != [] && AllOn(ops, path) && !Exact(ops)
    requires ':' !in path || forall i :: 0 <= i < |ops| ==> !IsArrayOp(ops[i])
    ensures Run(CollapseOps(ops), c) != Run(ops, c)
  {
    if ':' !in path {
      ColonFreeKeys(ops);
    }
    OnOwnPath(ops, path);
    c := CaughtAt(ops, path);
  }

  lemma {:induction false} FourLater(a: Op, b: Op, d: Op, e: Op)
    requires IsArrayOp(b) && IsArrayOp(d) && IsArrayOp(e)
    ensures Later([a, b, d, e]) == [b, d, e] && Tail([a, b, d, e]) == [b, d, e]
  {
    var ops := [a, b, d, e];
    assert Init(ops) == [a, b, d] && Init([a, b, d]) == [a, b] && Init([a, b]) == [a];
    assert Later([a, b]) == [] + [b] && Tail([a, b]) == [] + [b];
    assert Later([a, b, d]) == [b] + [d] && Tail([a, b, d]) == [b] + [d];
  }

  /** A value removed and appended again: only first occurrences count, so the removal comes last. */
  lemma {:induction false} ReappendBreaks(path: string, x: Scalar, y: Scalar) returns (c: Container)
    requires ':' !in path
    ensures var ops := [Op(Append, path, x), Op(Append, path, y), Op(Remove, path, y), Op(Append, path, y)];
            Run(CollapseOps(ops), c) != Run(ops, c)
  {
    var add, drop := Op(Append, path, y), Op(Remove, path, y);
    var ops, later := [Op(Append, path, x), add, drop, add], [add, drop, add];
    FourLater(ops[0], add, drop, add);
    assert HasKind(later, Append) by { assert later[0].kind == Append; }
    SurvivorsOfReappend(add, drop);
    c := OnePathCaught(ops, path);
  }

  lemma {:induction false} SurvivorsOfReappend(add: Op, drop: Op)
    requires add.kind == Append && drop.kind == Remove && add.value == drop.value && add.path == drop.path
    ensures Survivors([add, drop, add], false) != Survivors([add, drop, add], true)
  {
    SurvivorsSnoc([], add, false);
    SurvivorsSnoc([add], drop, false);
    SurvivorsSnoc([add, drop], add, false);
    SurvivorsSnoc([], add, true);
    SurvivorsSnoc([add], drop, true);
    SurvivorsSnoc([add, drop], add, true);
    assert [] + [add] == [add] && [add] + [drop] == [add, drop] && [add, drop] + [add] == [add, drop, add];
    WithoutTwice([add.value], add.value, add.value);
    assert Without([add.value], add.value) == [] by { assert [add.value][1..] == []; }
  }

  lemma {:induction false} EmptyRead(parts: seq<string>)
    requires parts != []
    ensures Read(Obj(map[]), parts) == None
    decreases |parts|
  {
    if |parts| > 1 {
      EmptyRead(parts[1..]);
    }
  }
}
