/** Path operations on entity data: what one operation does to its cell, and when operations may be reordered. */
module Operations {
  import opened Common
  import opened JsonTree

  datatype Kind = Set | Delete | Increment | Append | Remove

  datatype Op = Op(kind: Kind, path: string, value: Scalar)

  datatype Delta = Delta(entityId: string, fromVersion: nat, toVersion: nat, operations: seq<Op>, timestamp: int)

  predicate IsArrayOp(op: Op) { op.kind == Append || op.kind == Remove }

  function Without(items: seq<Value>, v: Value): seq<Value> {
    if items == [] then []
    else if items[0] == v then Without(items[1..], v)
    else [items[0]] + Without(items[1..], v)
  }

  /** The effect of an operation on the cell its path names. */
  function Act(op: Op, cell: Option<Value>): Option<Value> {
    match op.kind
    case Set => Some(op.value)
    case Delete => None
    case Increment => Some(Num(CellNumber(cell) + Amount(op.value)))
    case Append =>
      if cell.Some? && cell.value.Arr? then Some(Arr(cell.value.items + [op.value], cell.value.named))
      else Some(Arr([op.value], map[]))
    case Remove =>
      // filter builds a fresh array, so named properties do not survive it
      if cell.Some? && cell.value.Arr? then Some(Arr(Without(cell.value.items, op.value), map[]))
      else cell
  }

  /** The walk: every segment but the last is stepped into, created as an object where it is no container. */
  function Edit(c: Container, parts: seq<string>, op: Op): Container
    requires parts != []
    decreases |parts|
  {
    if |parts| == 1 then Put(c, parts[0], Act(op, Lookup(c, parts[0])))
    else Put(c, parts[0], Some(Edit(Child(c, parts[0]), parts[1..], op)))
  }

  function Apply(op: Op, c: Container): Container {
    Edit(c, Split(op.path), op)
  }

  function Run(ops: seq<Op>, c: Container): Container {
    if ops == [] then c else Run(ops[1..], Apply(ops[0], c))
  }

  function RunCell(ops: seq<Op>, cell: Option<Value>): Option<Value> {
    if ops == [] then cell else RunCell(ops[1..], Act(ops[0], cell))
  }

  lemma {:induction false} EditIsWrite(c: Container, parts: seq<string>, op: Op)
    requires parts != []
    ensures Edit(c, parts, op) == Write(c, parts, Act(op, Read(c, parts)))
    decreases |parts|
  {
    if |parts| > 1 {
      EditIsWrite(Child(c, parts[0]), parts[1..], op);
    }
  }

  lemma {:induction false} RunConcat(a: seq<Op>, b: seq<Op>, c: Container)
    ensures Run(a + b, c) == Run(b, Run(a, c))
  {
    if a == [] {
      assert a + b == b;
    } else {
      assert (a + b)[1..] == a[1..] + b;
      RunConcat(a[1..], b, Apply(a[0], c));
    }
  }

  lemma {:induction false} RunCellConcat(a: seq<Op>, b: seq<Op>, cell: Option<Value>)
    ensures RunCell(a + b, cell) == RunCell(b, RunCell(a, cell))
  {
    if a == [] {
      assert a + b == b;
    } else {
      assert (a + b)[1..] == a[1..] + b;
      RunCellConcat(a[1..], b, Act(a[0], cell));
    }
  }

  predicate AllOn(ops: seq<Op>, path: string) {
    forall i :: 0 <= i < |ops| ==> ops[i].path == path
  }

  /** A run that stays on one path is one write of the cell's final value. */
  lemma {:induction false} OnePathRun(ops: seq<Op>, path: string, c: Container)
    requires ops != [] && AllOn(ops, path)
    ensures Run(ops, c) == Write(c, Split(path), RunCell(ops, Read(c, Split(path))))
  {
    var p := Split(path);
    EditIsWrite(c, p, ops[0]);
    if |ops| > 1 {
      var c' := Apply(ops[0], c);
      var o := Act(ops[0], Read(c, p));
      OnePathRun(ops[1..], path, c');
      ReadWriteSame(c, p, o, RunCell(ops[1..], o));
    } else {
      assert Run(ops[1..], Apply(ops[0], c)) == Apply(ops[0], c);
      assert RunCell(ops[1..], Act(ops[0], Read(c, p))) == Act(ops[0], Read(c, p));
    }
  }

  // ---------- reordering ----------

  predicate Apart(path: string, path': string) {
    Disjoint(Split(path), Split(path'))
  }

  /** As for writes, with segments that name members: indices and the `length` of one array do not commute. */
  lemma {:induction false} ApplyCommutes(a: Op, b: Op, c: Container)
    requires Apart(a.path, b.path)
    ensures Apply(b, Apply(a, c)) == Apply(a, Apply(b, c))
  {
    var p, q := Split(a.path), Split(b.path);
    var o, o' := Act(a, Read(c, p)), Act(b, Read(c, q));
    EditIsWrite(c, p, a);
    EditIsWrite(c, q, b);
    DisjointWrites(c, p, o, q, o');
    DisjointWrites(c, q, o', p, o);
    EditIsWrite(Apply(a, c), q, b);
    EditIsWrite(Apply(b, c), p, a);
  }

  lemma {:induction false} ApplyPastRun(a: Op, ops: seq<Op>, c: Container)
    requires forall i :: 0 <= i < |ops| ==> Apart(a.path, ops[i].path)
    ensures Run(ops, Apply(a, c)) == Apply(a, Run(ops, c))
  {
    if ops != [] {
      ApplyCommutes(a, ops[0], c);
      ApplyPastRun(a, ops[1..], Apply(ops[0], c));
    }
  }

  /** The operations on one path, and all the others, each in their original order. */
  function On(ops: seq<Op>, path: string): (r: seq<Op>)
    ensures AllOn(r, path)
  {
    if ops == [] then []
    else (if ops[0].path == path then [ops[0]] else []) + On(ops[1..], path)
  }

  function Off(ops: seq<Op>, path: string): (r: seq<Op>)
    ensures |r| <= |ops|
    ensures ops != [] && ops[0].path == path ==> |r| < |ops|
    ensures forall i :: 0 <= i < |r| ==> r[i].path != path
  {
    if ops == [] then []
    else (if ops[0].path == path then [] else [ops[0]]) + Off(ops[1..], path)
  }

  /** Before its last operation on `path` the list touches only `path` and paths disjoint from it. */
  predicate Pullable(ops: seq<Op>, path: string) {
    On(ops, path) == []
    || ((ops[0].path == path || Apart(ops[0].path, path)) && Pullable(ops[1..], path))
  }

  /** No edit of an overlapping path sits between two operations on the same path. */
  predicate Separable(ops: seq<Op>) {
    ops == [] || (Pullable(ops, ops[0].path) && Separable(ops[1..]))
  }

  lemma {:induction false} OffAlone(ops: seq<Op>, path: string)
    requires On(ops, path) == []
    ensures Off(ops, path) == ops
  {
    if ops != [] {
      OffAlone(ops[1..], path);
    }
  }

  /** All operations on a pullable path can be run first. */
  lemma {:induction false} PullFirst(ops: seq<Op>, path: string, c: Container)
    requires Pullable(ops, path)
    ensures Run(ops, c) == Run(Off(ops, path), Run(On(ops, path), c))
  {
    if On(ops, path) == [] {
      OffAlone(ops, path);
    } else {
      var o := ops[0];
      var on, off := On(ops[1..], path), Off(ops[1..], path);
      PullFirst(ops[1..], path, Apply(o, c));
      if o.path == path {
        assert On(ops, path) == [o] + on && ([o] + on)[1..] == on;
        assert Off(ops, path) == off;
      } else {
        assert On(ops, path) == on;
        assert Off(ops, path) == [o] + off && ([o] + off)[1..] == off;
        ApplyPastRun(o, on, c);
        assert Run([o] + off, Run(on, c)) == Run(off, Apply(o, Run(on, c)));
      }
    }
  }

  // ---------- one path among many ----------

  predicate PrefixFree(ops: seq<Op>) {
    forall i, j :: 0 <= i < |ops| && 0 <= j < |ops| && ops[i].path != ops[j].path
      ==> Apart(ops[i].path, ops[j].path)
  }

  lemma {:induction false} PrefixFreePullable(ops: seq<Op>, path: string)
    requires forall i :: 0 <= i < |ops| && ops[i].path != path ==> Apart(ops[i].path, path)
    ensures Pullable(ops, path)
  {
    if ops != [] {
      PrefixFreePullable(ops[1..], path);
    }
  }

  lemma {:induction false} PrefixFreeSeparable(ops: seq<Op>)
    requires PrefixFree(ops)
    ensures Separable(ops)
  {
    if ops != [] {
      PrefixFreePullable(ops, ops[0].path);
      PrefixFreeSeparable(ops[1..]);
    }
  }

  /** Operations on disjoint paths leave the cell alone. */
  lemma {:induction false} RunElsewhere(ops: seq<Op>, path: string, c: Container)
    requires forall i :: 0 <= i < |ops| ==> Apart(ops[i].path, path)
    ensures Read(Run(ops, c), Split(path)) == Read(c, Split(path))
  {
    if ops != [] {
      var p := Split(ops[0].path);
      EditIsWrite(c, p, ops[0]);
      DisjointWrites(c, p, Act(ops[0], Read(c, p)), Split(path), None);
      RunElsewhere(ops[1..], path, Apply(ops[0], c));
    }
  }

  lemma {:induction false} OffMembers(ops: seq<Op>, path: string)
    ensures forall o :: o in Off(ops, path) ==> o in ops && o.path != path
    ensures forall o :: o in On(ops, path) ==> o in ops
    ensures forall o :: o in ops && o.path == path ==> o in On(ops, path)
  {
    if ops != [] {
      OffMembers(ops[1..], path);
    }
  }

  /** In a prefix-free list, the final cell is what the path's own operations make of it. */
  lemma {:induction false} RunReadsOwn(ops: seq<Op>, path: string, c: Container)
    requires forall i :: 0 <= i < |ops| && ops[i].path != path ==> Apart(ops[i].path, path)
    ensures Read(Run(ops, c), Split(path)) == RunCell(On(ops, path), Read(c, Split(path)))
  {
    var on, off := On(ops, path), Off(ops, path);
    PrefixFreePullable(ops, path);
    PullFirst(ops, path, c);
    OffMembers(ops, path);
    forall i | 0 <= i < |off| ensures Apart(off[i].path, path) {
      assert off[i] in off;
    }
    RunElsewhere(off, path, Run(on, c));
    if on != [] {
      OnePathRun(on, path, c);
      ReadWriteSame(c, Split(path), RunCell(on, Read(c, Split(path))), None);
    }
  }

  lemma {:induction false} OnConcat(a: seq<Op>, b: seq<Op>, path: string)
    ensures On(a + b, path) == On(a, path) + On(b, path)
  {
    if a == [] {
      assert a + b == b;
    } else {
      assert (a + b)[1..] == a[1..] + b;
      OnConcat(a[1..], b, path);
    }
  }

  lemma {:induction false} OffConcat(a: seq<Op>, b: seq<Op>, path: string)
    ensures Off(a + b, path) == Off(a, path) + Off(b, path)
  {
    if a == [] {
      assert a + b == b;
    } else {
      assert (a + b)[1..] == a[1..] + b;
      OffConcat(a[1..], b, path);
    }
  }
}
