/** Editing shared data ahead of an update: sets and deletes that the update is going to repeat leave no trace. */
module SharedData {
  import opened Common
  import opened JsonTree
  import opened Operations

  /** The synchronizer's own edit of one cell: it sets and deletes, and walks to the cell for anything else. */
  function Touched(c: Container, op: Op): Container {
    var p := Split(op.path);
    Write(c, p, if op.kind == Set then Some(op.value) else if op.kind == Delete then None else Read(c, p))
  }

  function Overwrite(ops: seq<Op>, c: Container): Container {
    if ops == [] then c else Touched(Overwrite(Init(ops), c), Last(ops))
  }

  // ---------- equal but for one cell ----------

  /** Equal once the cell at `p` is deleted and the objects on the way to it are there. */
  predicate Alike(x: Container, y: Container, p: seq<string>)
    requires p != []
  {
    Write(x, p, None) == Write(y, p, None)
  }

  lemma {:induction false} AlikeWrites(x: Container, y: Container, p: seq<string>, o: Option<Value>)
    requires p != [] && Alike(x, y, p)
    ensures Write(x, p, o) == Write(y, p, o)
  {
    ReadWriteSame(x, p, None, o);
    ReadWriteSame(y, p, None, o);
  }

  lemma {:induction false} PutAlike(x: Container, y: Container, k: string, a: Option<Value>, b: Option<Value>,
                                    o: Option<Value>)
    requires Put(x, k, a) == Put(y, k, b)
    ensures a == b && Put(x, k, o) == Put(y, k, o)
    ensures forall k' :: k' != k ==> Lookup(x, k') == Lookup(y, k')
  {
    PutSame(x, k, a, o);
    PutSame(y, k, b, o);
    forall k' | k' != k ensures Lookup(x, k') == Lookup(y, k') {
      PutOther(x, k, a, k', None);
      PutOther(y, k, b, k', None);
    }
  }

  /** What the walk steps into when it finds `o`. */
  function AsChild(o: Option<Value>): Container {
    if o.Some? && IsContainer(o.value) then o.value else Obj(map[])
  }

  /** Reading and writing below the top level see the members only. */
  lemma {:induction false} MembersDecide(c: Container, d: Container, p: seq<string>, o: Option<Value>)
    requires p != [] && Members(c) == Members(d)
    ensures Read(c, p) == Read(d, p) && Write(d, p, o) == WithMembers(d, Members(Write(c, p, o)))
  {
    assert Child(c, p[0]) == Child(d, p[0]);
  }

  lemma {:induction false} SameItems(x: Container, y: Container, p: seq<string>)
    requires p != [] && Alike(x, y, p)
    ensures x.Arr? <==> y.Arr?
    ensures x.Arr? ==> x.items == y.items
  {
  }

  lemma {:induction false} AppendKeepsAlike(x: Container, y: Container, items: seq<Value>, p: seq<string>)
    requires p != [] && Alike(x, y, p) && x.Arr?
    ensures y.Arr? && Alike(Arr(items, x.named), Arr(items, y.named), p)
    ensures Read(Arr(items, x.named), p) == Read(x, p) && Read(Arr(items, y.named), p) == Read(y, p)
  {
    SameItems(x, y, p);
    MembersDecide(x, Arr(items, x.named), p, None);
    MembersDecide(y, Arr(items, y.named), p, None);
  }

  /** An operation on a whole cell treats alike contents alike. */
  lemma {:induction false} ActKeepsAlike(op: Op, u: Option<Value>, v: Option<Value>, p: seq<string>)
    requires p != [] && Alike(AsChild(u), AsChild(v), p)
    ensures Alike(AsChild(Act(op, u)), AsChild(Act(op, v)), p)
    ensures Read(AsChild(u), p) == Read(AsChild(v), p) ==> Read(AsChild(Act(op, u)), p) == Read(AsChild(Act(op, v)), p)
  {
    SameItems(AsChild(u), AsChild(v), p);
    if op.kind == Append && AsChild(u).Arr? {
      AppendKeepsAlike(AsChild(u), AsChild(v), AsChild(u).items + [op.value], p);
    }
  }

  lemma {:induction false} EditElsewhere(x: Container, y: Container, p: seq<string>, q: seq<string>, op: Op)
    requires p != [] && q != [] && p[0] != q[0] && Alike(x, y, p)
    ensures Alike(Edit(x, q, op), Edit(y, q, op), p)
    ensures Read(Edit(x, q, op), p) == Read(x, p) && Read(Edit(y, q, op), p) == Read(y, p)
  {
    var s := if |p| == 1 then None else Some(Write(Child(x, p[0]), p[1..], None));
    var t := if |p| == 1 then None else Some(Write(Child(y, p[0]), p[1..], None));
    PutAlike(x, y, p[0], s, t, None);
    assert Child(x, q[0]) == Child(y, q[0]);
    var v := if |q| == 1 then Act(op, Lookup(x, q[0])) else Some(Edit(Child(x, q[0]), q[1..], op));
    assert Edit(x, q, op) == Put(x, q[0], v) && Edit(y, q, op) == Put(y, q[0], v);
    PutOther(x, q[0], v, p[0], s);
    PutOther(y, q[0], v, p[0], t);
    assert Child(Put(x, q[0], v), p[0]) == Child(x, p[0]);
    assert Child(Put(y, q[0], v), p[0]) == Child(y, p[0]);
  }

  /** The same edit keeps two documents alike, and keeps them equal at the cell if they were. */
  lemma {:induction false} EditKeepsAlike(x: Container, y: Container, p: seq<string>, q: seq<string>, op: Op)
    requires p != [] && q != [] && Alike(x, y, p)
    ensures Alike(Edit(x, q, op), Edit(y, q, op), p)
    ensures Read(x, p) == Read(y, p) ==> Read(Edit(x, q, op), p) == Read(Edit(y, q, op), p)
    decreases |p|
  {
    var k := p[0];
    if k != q[0] {
      EditElsewhere(x, y, p, q, op);
    } else {
      var a := if |q| == 1 then Act(op, Lookup(x, k)) else Some(Edit(Child(x, k), q[1..], op));
      var b := if |q| == 1 then Act(op, Lookup(y, k)) else Some(Edit(Child(y, k), q[1..], op));
      assert Edit(x, q, op) == Put(x, k, a) && Edit(y, q, op) == Put(y, k, b);
      if |p| == 1 {
        PutAlike(x, y, k, None, None, None);
        PutSame(x, k, a, None);
        PutSame(y, k, b, None);
      } else {
        var s, t := Write(Child(x, k), p[1..], None), Write(Child(y, k), p[1..], None);
        PutAlike(x, y, k, Some(s), Some(t), None);
        assert Child(x, k) == AsChild(Lookup(x, k)) && Child(y, k) == AsChild(Lookup(y, k));
        if |q| == 1 {
          ActKeepsAlike(op, Lookup(x, k), Lookup(y, k), p[1..]);
        } else {
          EditKeepsAlike(Child(x, k), Child(y, k), p[1..], q[1..], op);
        }
        PutChildAlike(x, y, k, a, b, p);
      }
    }
  }

  lemma {:induction false} PutChildAlike(x: Container, y: Container, k: string, a: Option<Value>, b: Option<Value>,
                                         p: seq<string>)
    requires |p| > 1 && p[0] == k && Put(x, k, None) == Put(y, k, None)
    requires Alike(AsChild(a), AsChild(b), p[1..])
    ensures Alike(Put(x, k, a), Put(y, k, b), p)
    ensures Read(Put(x, k, a), p) == Read(AsChild(a), p[1..]) && Read(Put(y, k, b), p) == Read(AsChild(b), p[1..])
  {
    var w := Some(Write(AsChild(a), p[1..], None));
    PutSame(x, k, a, w);
    PutSame(y, k, b, w);
    assert Child(Put(x, k, a), k) == AsChild(a) && Child(Put(y, k, b), k) == AsChild(b);
    PutAlike(x, y, k, None, None, w);
  }

  lemma {:induction false} RunKeepsAlike(ops: seq<Op>, x: Container, y: Container, p: seq<string>)
    requires p != [] && Alike(x, y, p)
    ensures Alike(Run(ops, x), Run(ops, y), p)
    ensures Read(x, p) == Read(y, p) ==> Read(Run(ops, x), p) == Read(Run(ops, y), p)
  {
    if ops != [] {
      EditKeepsAlike(x, y, p, Split(ops[0].path), ops[0]);
      RunKeepsAlike(ops[1..], Apply(ops[0], x), Apply(ops[0], y), p);
    }
  }

  /** Touching a cell that an operation edits later is not noticed after that operation. */
  lemma {:induction false} TouchHidden(ops: seq<Op>, op: Op, c: Container)
    ensures Apply(op, Run(ops, Touched(c, op))) == Apply(op, Run(ops, c))
  {
    var p, t := Split(op.path), Touched(c, op);
    ReadWriteSame(c, p, Read(t, p), None);
    ReadWriteSame(c, p, if op.kind == Set then Some(op.value) else if op.kind == Delete then None else Read(c, p),
                  None);
    RunKeepsAlike(ops, t, c, p);
    var x, y := Run(ops, t), Run(ops, c);
    EditIsWrite(x, p, op);
    EditIsWrite(y, p, op);
    AlikeWrites(x, y, p, Act(op, Read(x, p)));
    assert Act(op, Read(x, p)) == Act(op, Read(y, p));
  }

  lemma {:induction false} RunLastOp(ops: seq<Op>, c: Container)
    requires ops != []
    ensures Run(ops, c) == Apply(Last(ops), Run(Init(ops), c))
  {
    RunConcat(Init(ops), [Last(ops)], c);
    assert ops == Init(ops) + [Last(ops)] && [Last(ops)][1..] == [];
    var x := Run(Init(ops), c);
    assert Run([Last(ops)], x) == Run([], Apply(Last(ops), x));
  }

  /** Whatever the operations and the document: running a list over data that it has already
      overwritten has the effect of running it once. */
  lemma {:induction false} OverwriteHidden(ops: seq<Op>, c: Container)
    ensures Run(ops, Overwrite(ops, c)) == Run(ops, c)
  {
    if ops != [] {
      var before := Overwrite(Init(ops), c);
      OverwriteHidden(Init(ops), c);
      TouchHidden(Init(ops), Last(ops), before);
      RunLastOp(ops, Overwrite(ops, c));
      RunLastOp(ops, c);
    }
  }

  // ---------- what overwriting does to one cell ----------

  function OverwriteCell(ops: seq<Op>, cell: Option<Value>): Option<Value> {
    if ops == [] then cell
    else
      match Last(ops).kind
      case Set => Some(Last(ops).value)
      case Delete => None
      case _ => OverwriteCell(Init(ops), cell)
  }

  /** Every other path of the list is disjoint from this one. */
  predicate Alone(ops: seq<Op>, path: string) {
    forall i :: 0 <= i < |ops| && ops[i].path != path ==> Apart(ops[i].path, path)
  }

  lemma {:induction false} OverwriteReads(ops: seq<Op>, path: string, c: Container)
    requires Alone(ops, path)
    ensures Read(Overwrite(ops, c), Split(path)) == OverwriteCell(On(ops, path), Read(c, Split(path)))
  {
    if ops != [] {
      var init, last := Init(ops), Last(ops);
      var before := Overwrite(init, c);
      OverwriteReads(init, path, c);
      OnLast(ops, path);
      var p := Split(last.path);
      var o := if last.kind == Set then Some(last.value) else if last.kind == Delete then None else Read(before, p);
      if last.path == path {
        ReadWriteSame(before, p, o, None);
        assert Init(On(init, path) + [last]) == On(init, path);
      } else {
        DisjointWrites(before, p, o, Split(path), None);
      }
    }
  }

  lemma {:induction false} OnLast(ops: seq<Op>, path: string)
    requires ops != []
    ensures On(ops, path) == if Last(ops).path == path then On(Init(ops), path) + [Last(ops)] else On(Init(ops), path)
  {
    OnConcat(Init(ops), [Last(ops)], path);
    assert ops == Init(ops) + [Last(ops)] && [Last(ops)][1..] == [];
    assert On(Init(ops), path) + [] == On(Init(ops), path);
  }

  /** Overwriting leaves in a cell the value of the last set or delete on its path; any other operation on it,
      before or after, does not count. */
  lemma {:induction false} LastOverwriteStays(ops: seq<Op>, path: string, c: Container, i: nat)
    requires Alone(ops, path) && i < |ops| && ops[i].path == path && (ops[i].kind == Set || ops[i].kind == Delete)
    requires forall j :: i < j < |ops| && ops[j].path == path ==> ops[j].kind != Set && ops[j].kind != Delete
    ensures Read(Overwrite(ops, c), Split(path)) == if ops[i].kind == Set then Some(ops[i].value) else None
  {
    OverwriteReads(ops, path, c);
    OverwrittenBy(ops, path, Read(c, Split(path)), i);
  }

  lemma {:induction false} OverwrittenBy(ops: seq<Op>, path: string, cell: Option<Value>, i: nat)
    requires i < |ops| && ops[i].path == path && (ops[i].kind == Set || ops[i].kind == Delete)
    requires forall j :: i < j < |ops| && ops[j].path == path ==> ops[j].kind != Set && ops[j].kind != Delete
    ensures OverwriteCell(On(ops, path), cell) == if ops[i].kind == Set then Some(ops[i].value) else None
  {
    OnLast(ops, path);
    var before := On(Init(ops), path);
    assert Init(before + [Last(ops)]) == before;
    if i < |ops| - 1 {
      OverwrittenBy(Init(ops), path, cell, i);
    }
  }

  /** Without a set or delete on its path a cell stays as it is. */
  lemma {:induction false} OverwriteSpares(ops: seq<Op>, path: string, c: Container)
    requires Alone(ops, path)
    requires forall j :: 0 <= j < |ops| && ops[j].path == path ==> ops[j].kind != Set && ops[j].kind != Delete
    ensures Read(Overwrite(ops, c), Split(path)) == Read(c, Split(path))
  {
    OverwriteReads(ops, path, c);
    NotOverwritten(ops, path, Read(c, Split(path)));
  }

  lemma {:induction false} NotOverwritten(ops: seq<Op>, path: string, cell: Option<Value>)
    requires forall j :: 0 <= j < |ops| && ops[j].path == path ==> ops[j].kind != Set && ops[j].kind != Delete
    ensures OverwriteCell(On(ops, path), cell) == cell
  {
    if ops != [] {
      OnLast(ops, path);
      var before := On(Init(ops), path);
      assert Init(before + [Last(ops)]) == before;
      NotOverwritten(Init(ops), path, cell);
    }
  }
}
