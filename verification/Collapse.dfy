/** The collapse of an operation list through an insertion-ordered map, and how it splits by path. */
module Collapse {
  import opened Common
  import opened JsonTree
  import opened Operations
  import opened MapKeys
  import opened CellCollapse

  // ---------- the insertion-ordered map of the collapse loop ----------

  datatype Entry = Entry(key: string, op: Op)

  function MapGet(m: seq<Entry>, key: string): Option<Op> {
    if m == [] then None
    else if m[0].key == key then Some(m[0].op)
    else MapGet(m[1..], key)
  }

  /** A key that is already present keeps its position. */
  function MapSet(m: seq<Entry>, key: string, op: Op): seq<Entry> {
    if m == [] then [Entry(key, op)]
    else if m[0].key == key then [Entry(key, op)] + m[1..]
    else [m[0]] + MapSet(m[1..], key, op)
  }

  function Values(m: seq<Entry>): (r: seq<Op>)
    ensures |r| == |m|
    ensures forall i :: 0 <= i < |m| ==> r[i] == m[i].op
  {
    if m == [] then [] else [m[0].op] + Values(m[1..])
  }

  function CollapseStep(m: seq<Entry>, op: Op): seq<Entry> {
    match MapGet(m, op.path)
    case None => MapSet(m, op.path, op)
    case Some(existing) =>
      match op.kind
      case Set => MapSet(m, op.path, op)
      case Delete => MapSet(m, op.path, op)
      case Increment =>
        if existing.kind == Increment || existing.kind == Set
        then MapSet(m, op.path, existing.(value := Num(ToNumber(existing.value) + Amount(op.value))))
        else MapSet(m, op.path, op)
      case _ => MapSet(m, DerivedKey(op), op)
  }

  /** Every step is one assignment to the map. */
  function TargetKey(existing: Option<Op>, op: Op): string {
    if existing.Some? && IsArrayOp(op) then DerivedKey(op) else op.path
  }

  function Stored(existing: Option<Op>, op: Op): Op {
    if existing.Some? && op.kind == Increment then Absorb(existing.value, op) else op
  }

  lemma {:induction false} StepIsSet(m: seq<Entry>, op: Op)
    ensures CollapseStep(m, op) == MapSet(m, TargetKey(MapGet(m, op.path), op), Stored(MapGet(m, op.path), op))
  {
  }

  function CollapseMap(ops: seq<Op>): seq<Entry> {
    if ops == [] then [] else CollapseStep(CollapseMap(Init(ops)), Last(ops))
  }

  lemma {:induction false} CollapseMapSnoc(ops: seq<Op>, op: Op)
    ensures CollapseMap(ops + [op]) == CollapseStep(CollapseMap(ops), op)
  {
    assert Init(ops + [op]) == ops && Last(ops + [op]) == op;
  }

  function CollapseOps(ops: seq<Op>): seq<Op> {
    Values(CollapseMap(ops))
  }

  // ---------- the map splits by path ----------

  /** The entries whose operation is (or is not) on `path`. */
  function Part(m: seq<Entry>, path: string, inside: bool): seq<Entry> {
    if m == [] then []
    else (if (m[0].op.path == path) == inside then [m[0]] else []) + Part(m[1..], path, inside)
  }

  function PartOps(ops: seq<Op>, path: string, inside: bool): seq<Op> {
    if inside then On(ops, path) else Off(ops, path)
  }

  lemma {:induction false} PartValues(m: seq<Entry>, path: string, inside: bool)
    ensures Values(Part(m, path, inside)) == PartOps(Values(m), path, inside)
  {
    if m != [] {
      PartValues(m[1..], path, inside);
      var head := if (m[0].op.path == path) == inside then [m[0]] else [];
      ValuesConcat(head, Part(m[1..], path, inside));
      assert Values(m)[1..] == Values(m[1..]);
    }
  }

  lemma {:induction false} ValuesConcat(a: seq<Entry>, b: seq<Entry>)
    ensures Values(a + b) == Values(a) + Values(b)
  {
  }

  /** Where an entry sits tells which operation of `ops` it came from. */
  predicate Filed(e: Entry, ops: seq<Op>) {
    || (e.key == e.op.path && exists o :: o in ops && o.path == e.key)
    || (e.op in ops && IsArrayOp(e.op) && e.key == DerivedKey(e.op))
  }

  predicate AllFiled(m: seq<Entry>, ops: seq<Op>) {
    forall i :: 0 <= i < |m| ==> Filed(m[i], ops)
  }

  /** Only operations on the same path are stored under an operation's two keys. */
  predicate KeyOwned(m: seq<Entry>, key: string, path: string) {
    forall i :: 0 <= i < |m| && m[i].key == key ==> m[i].op.path == path
  }

  lemma {:induction false} FiledKeys(m: seq<Entry>, ops: seq<Op>, op: Op)
    requires KeysClean(ops) && op in ops && AllFiled(m, ops)
    ensures KeyOwned(m, op.path, op.path)
    ensures IsArrayOp(op) ==> KeyOwned(m, DerivedKey(op), op.path)
  {
    forall i | 0 <= i < |m| && m[i].key == op.path ensures m[i].op.path == op.path {
      assert Filed(m[i], ops);
    }
    forall i | IsArrayOp(op) && 0 <= i < |m| && m[i].key == DerivedKey(op) ensures m[i].op.path == op.path {
      assert Filed(m[i], ops);
    }
  }

  lemma {:induction false} PartCons(e: Entry, m: seq<Entry>, path: string, inside: bool)
    ensures Part([e] + m, path, inside) == (if (e.op.path == path) == inside then [e] else []) + Part(m, path, inside)
  {
    assert ([e] + m)[1..] == m;
  }

  lemma {:induction false} MapSetCons(e: Entry, m: seq<Entry>, key: string, op: Op)
    ensures MapSet([e] + m, key, op) == if e.key == key then [Entry(key, op)] + m else [e] + MapSet(m, key, op)
  {
    assert ([e] + m)[1..] == m;
  }

  lemma {:induction false} MapSetPart(m: seq<Entry>, key: string, op: Op, path: string, inside: bool)
    requires KeyOwned(m, key, op.path)
    ensures Part(MapSet(m, key, op), path, inside) ==
            if (op.path == path) == inside then MapSet(Part(m, path, inside), key, op) else Part(m, path, inside)
  {
    if m != [] {
      var e, tail := m[0], m[1..];
      var rest := Part(tail, path, inside);
      assert m == [e] + tail && KeyOwned(tail, key, op.path) && [] + rest == rest;
      MapSetPart(tail, key, op, path, inside);
      PartCons(e, tail, path, inside);
      MapSetCons(e, tail, key, op);
      MapSetCons(e, rest, key, op);
      if e.key == key {
        assert e.op.path == op.path;
        PartCons(Entry(key, op), tail, path, inside);
      } else {
        PartCons(e, MapSet(tail, key, op), path, inside);
      }
    }
  }

  lemma {:induction false} MapGetPart(m: seq<Entry>, key: string, op: Op, path: string, inside: bool)
    requires KeyOwned(m, key, op.path) && (op.path == path) == inside
    ensures MapGet(Part(m, path, inside), key) == MapGet(m, key)
  {
    if m != [] {
      assert KeyOwned(m[1..], key, op.path);
      MapGetPart(m[1..], key, op, path, inside);
      var rest := Part(m[1..], path, inside);
      assert ([m[0]] + rest)[1..] == rest;
      assert Part(m, path, inside) == if (m[0].op.path == path) == inside then [m[0]] + rest else rest;
      assert m[0].key == key ==> m[0].op.path == op.path;
    }
  }

  lemma {:induction false} MapGetOwned(m: seq<Entry>, key: string, path: string)
    requires KeyOwned(m, key, path)
    ensures MapGet(m, key).Some? ==> MapGet(m, key).value.path == path
  {
    if m != [] {
      assert KeyOwned(m[1..], key, path);
      MapGetOwned(m[1..], key, path);
    }
  }

  lemma {:induction false} StepPart(m: seq<Entry>, ops: seq<Op>, op: Op, path: string, inside: bool)
    requires KeysClean(ops) && op in ops && AllFiled(m, ops)
    ensures Part(CollapseStep(m, op), path, inside) ==
            if (op.path == path) == inside then CollapseStep(Part(m, path, inside), op) else Part(m, path, inside)
  {
    var existing := MapGet(m, op.path);
    FiledKeys(m, ops, op);
    MapGetOwned(m, op.path, op.path);
    StepIsSet(m, op);
    MapSetPart(m, TargetKey(existing, op), Stored(existing, op), path, inside);
    if (op.path == path) == inside {
      MapGetPart(m, op.path, op, path, inside);
      StepIsSet(Part(m, path, inside), op);
    }
  }

  lemma {:induction false} MapSetFiled(m: seq<Entry>, ops: seq<Op>, key: string, op: Op)
    requires AllFiled(m, ops) && Filed(Entry(key, op), ops)
    ensures AllFiled(MapSet(m, key, op), ops)
  {
    if m != [] {
      assert AllFiled(m[1..], ops);
      MapSetFiled(m[1..], ops, key, op);
    }
  }

  lemma {:induction false} CollapseFiled(ops: seq<Op>, all: seq<Op>)
    requires KeysClean(all) && forall o :: o in ops ==> o in all
    ensures AllFiled(CollapseMap(ops), all)
  {
    if ops != [] {
      var m, op := CollapseMap(Init(ops)), Last(ops);
      CollapseFiled(Init(ops), all);
      FiledKeys(m, all, op);
      MapGetOwned(m, op.path, op.path);
      StepIsSet(m, op);
      var existing := MapGet(m, op.path);
      MapSetFiled(m, all, TargetKey(existing, op), Stored(existing, op));
    }
  }

  lemma {:induction false} PartOpsLast(ops: seq<Op>, path: string, inside: bool)
    requires ops != []
    ensures PartOps(ops, path, inside) ==
            PartOps(Init(ops), path, inside) + (if (Last(ops).path == path) == inside then [Last(ops)] else [])
  {
    var last := [Last(ops)];
    assert ops == Init(ops) + last;
    OnConcat(Init(ops), last, path);
    OffConcat(Init(ops), last, path);
    assert On(last[1..], path) == [] && Off(last[1..], path) == [];
    assert On(last, path) == (if Last(ops).path == path then last else []) + On(last[1..], path);
    assert Off(last, path) == (if Last(ops).path == path then [] else last) + Off(last[1..], path);
  }

  lemma {:induction false} StepMirrored(m: seq<Entry>, all: seq<Op>, op: Op, path: string, inside: bool, part: seq<Op>)
    requires KeysClean(all) && op in all && AllFiled(m, all) && Part(m, path, inside) == CollapseMap(part)
    ensures Part(CollapseStep(m, op), path, inside) ==
            CollapseMap(part + (if (op.path == path) == inside then [op] else []))
  {
    StepPart(m, all, op, path, inside);
    CollapseMapSnoc(part, op);
    assert part + [] == part;
  }

  /** Collapsing works path by path: selecting a path before or after makes no difference. */
  lemma {:induction false} CollapseMapPart(ops: seq<Op>, all: seq<Op>, path: string, inside: bool)
    requires KeysClean(all) && forall o :: o in ops ==> o in all
    ensures Part(CollapseMap(ops), path, inside) == CollapseMap(PartOps(ops, path, inside))
  {
    if ops == [] {
      assert PartOps(ops, path, inside) == [];
    } else {
      CollapseMapPart(Init(ops), all, path, inside);
      CollapseFiled(Init(ops), all);
      StepMirrored(CollapseMap(Init(ops)), all, Last(ops), path, inside, PartOps(Init(ops), path, inside));
      PartOpsLast(ops, path, inside);
    }
  }

  lemma {:induction false} CollapsePart(ops: seq<Op>, path: string, inside: bool)
    requires KeysClean(ops)
    ensures PartOps(CollapseOps(ops), path, inside) == CollapseOps(PartOps(ops, path, inside))
  {
    CollapseMapPart(ops, ops, path, inside);
    PartValues(CollapseMap(ops), path, inside);
  }

  // ---------- one path ----------

  function Tagged(ops: seq<Op>): seq<Entry> {
    if ops == [] then [] else [Entry(DerivedKey(ops[0]), ops[0])] + Tagged(ops[1..])
  }

  lemma {:induction false} TaggedValues(ops: seq<Op>)
    ensures Values(Tagged(ops)) == ops
  {
    if ops != [] {
      TaggedValues(ops[1..]);
      assert Tagged(ops)[1..] == Tagged(ops[1..]);
    }
  }

  lemma {:induction false} TaggedHit(ops: seq<Op>, op: Op)
    requires op in ops && forall o :: o in ops && DerivedKey(o) == DerivedKey(op) ==> o == op
    ensures MapSet(Tagged(ops), DerivedKey(op), op) == Tagged(ops)
  {
    assert Tagged(ops)[1..] == Tagged(ops[1..]);
    if ops[0] != op {
      TaggedHit(ops[1..], op);
    }
  }

  lemma {:induction false} TaggedNew(ops: seq<Op>, op: Op)
    requires forall o :: o in ops ==> DerivedKey(o) != DerivedKey(op)
    ensures MapSet(Tagged(ops), DerivedKey(op), op) == Tagged(ops + [op])
  {
    if ops == [] {
      assert [op][1..] == [];
    } else {
      assert Tagged(ops)[1..] == Tagged(ops[1..]);
      assert (ops + [op])[1..] == ops[1..] + [op];
      TaggedNew(ops[1..], op);
    }
  }

  lemma {:induction false} TaggedSet(ops: seq<Op>, op: Op)
    requires forall o :: o in ops && DerivedKey(o) == DerivedKey(op) ==> o == op
    ensures MapSet(Tagged(ops), DerivedKey(op), op) == Tagged(if op in ops then ops else ops + [op])
  {
    if op in ops {
      TaggedHit(ops, op);
    } else {
      TaggedNew(ops, op);
    }
  }

  lemma {:induction false} LaterMembers(ops: seq<Op>)
    ensures forall o :: o in Later(ops) ==> o in ops
    ensures forall o :: o in Dedup(Later(ops)) ==> o in ops
  {
    if |ops| > 1 {
      LaterMembers(Init(ops));
    }
    DedupMembers(Later(ops));
  }

  lemma {:induction false} MainPath(ops: seq<Op>, path: string)
    requires ops != [] && AllOn(ops, path)
    ensures Main(ops).path == path
  {
    if |ops| > 1 {
      MainPath(Init(ops), path);
    }
  }

  lemma {:induction false} OnePathMap(ops: seq<Op>, path: string)
    requires ops != [] && AllOn(ops, path) && KeysClean(ops)
    ensures CollapseMap(ops) == [Entry(path, Main(ops))] + Tagged(Dedup(Later(ops)))
  {
    var op := Last(ops);
    if |ops| == 1 {
      assert CollapseMap(Init(ops)) == [];
      assert Tagged(Dedup(Later(ops))) == [];
    } else {
      var init := Init(ops);
      OnePathMap(init, path);
      MainPath(init, path);
      LaterMembers(init);
      OnePathStep(Main(init), Later(init), ops, path);
      assert Later(ops) == if IsArrayOp(op) then Later(init) + [op] else Later(init);
      assert Main(ops) == Absorb(Main(init), op);
    }
  }

  lemma {:induction false} OnePathStep(main: Op, later: seq<Op>, ops: seq<Op>, path: string)
    requires ops != [] && AllOn(ops, path) && KeysClean(ops) && main.path == path
    requires forall o :: o in later ==> o in ops && IsArrayOp(o)
    ensures var op := Last(ops);
            CollapseStep([Entry(path, main)] + Tagged(Dedup(later)), op) ==
            [Entry(path, Absorb(main, op))] + Tagged(Dedup(if IsArrayOp(op) then later + [op] else later))
  {
    var op := Last(ops);
    var rest := Tagged(Dedup(later));
    var m := [Entry(path, main)] + rest;
    assert m[1..] == rest && op in ops;
    StepIsSet(m, op);
    if IsArrayOp(op) {
      DedupMembers(later);
      TaggedSet(Dedup(later), op);
      assert Init(later + [op]) == later;
    }
  }

  /** On one path the collapsed list is the absorbed main operation followed by the deduplicated array operations. */
  lemma {:induction false} OnePathCollapse(ops: seq<Op>, path: string)
    requires ops != [] && AllOn(ops, path) && KeysClean(ops)
    ensures CollapseOps(ops) == Collapsed(ops) && AllOn(CollapseOps(ops), path)
  {
    OnePathMap(ops, path);
    MainPath(ops, path);
    ValuesConcat([Entry(path, Main(ops))], Tagged(Dedup(Later(ops))));
    TaggedValues(Dedup(Later(ops)));
    LaterMembers(ops);
    forall i | 0 <= i < |CollapseOps(ops)| ensures CollapseOps(ops)[i].path == path {
      if i > 0 {
        assert CollapseOps(ops)[i] in Dedup(Later(ops));
      }
    }
  }
}
