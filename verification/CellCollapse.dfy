/** Exactly when collapsing the operations on one path preserves their effect on the cell. */
module CellCollapse {
  import opened Common
  import opened JsonTree
  import opened Operations

  predicate HasKind(ops: seq<Op>, kind: Kind) { exists i :: 0 <= i < |ops| && ops[i].kind == kind }

  // ---------- what the collapsed list consists of ----------

  /** How a later operation changes the entry stored under its bare path. */
  function Absorb(main: Op, op: Op): Op {
    match op.kind
    case Set => op
    case Delete => op
    case Increment =>
      if main.kind == Increment || main.kind == Set
      then main.(value := Num(ToNumber(main.value) + Amount(op.value)))
      else op
    case _ => main
  }

  function Main(ops: seq<Op>): Op
    requires ops != []
  {
    if |ops| == 1 then ops[0] else Absorb(Main(Init(ops)), Last(ops))
  }

  /** The appends and removes after the first operation. */
  function Later(ops: seq<Op>): (r: seq<Op>)
    ensures forall i :: 0 <= i < |r| ==> IsArrayOp(r[i])
  {
    if |ops| <= 1 then []
    else Later(Init(ops)) + (if IsArrayOp(Last(ops)) then [Last(ops)] else [])
  }

  function Dedup(ops: seq<Op>): seq<Op> {
    if ops == [] then []
    else if Last(ops) in Dedup(Init(ops)) then Dedup(Init(ops))
    else Dedup(Init(ops)) + [Last(ops)]
  }

  function Collapsed(ops: seq<Op>): seq<Op>
    requires ops != []
  {
    [Main(ops)] + Dedup(Later(ops))
  }

  // ---------- the condition ----------

  /** The last set or delete, or the first operation when there is none after it. */
  function Anchor(ops: seq<Op>): Op
    requires ops != []
  {
    if |ops| == 1 || Last(ops).kind == Set || Last(ops).kind == Delete then Last(ops) else Anchor(Init(ops))
  }

  /** Is there an increment after the anchor, and what do those increments add up to? */
  predicate Bumped(ops: seq<Op>)
    requires ops != []
  {
    |ops| > 1 && Last(ops).kind != Set && Last(ops).kind != Delete
    && (Last(ops).kind == Increment || Bumped(Init(ops)))
  }

  function Sum(ops: seq<Op>): int
    requires ops != []
  {
    if |ops| == 1 || Last(ops).kind == Set || Last(ops).kind == Delete then 0
    else Sum(Init(ops)) + (if Last(ops).kind == Increment then Amount(Last(ops).value) else 0)
  }

  /** A merged increment is re-read as `value || 1`, so a first amount written as 0 or a total of 0 is misread. */
  predicate TotalSurvives(first: int, rest: int) {
    if first == 0 then rest == 0 else first + rest != 0
  }

  predicate MainExact(ops: seq<Op>)
    requires ops != []
  {
    var a := Anchor(ops);
    !Bumped(ops) || a.kind == Set || (a.kind == Increment && TotalSurvives(ToNumber(a.value), Sum(ops)))
  }

  /** Does a set, delete or increment follow the first operation? */
  predicate Replaced(ops: seq<Op>) {
    |ops| > 1 && (!IsArrayOp(Last(ops)) || Replaced(Init(ops)))
  }

  /** The appends and removes after the last of those. */
  function Tail(ops: seq<Op>): (r: seq<Op>)
    ensures forall i :: 0 <= i < |r| ==> IsArrayOp(r[i])
  {
    if |ops| <= 1 || !IsArrayOp(Last(ops)) then [] else Tail(Init(ops)) + [Last(ops)]
  }

  /** The items a run of appends and removes leaves behind. */
  function Items(ops: seq<Op>, items: seq<Value>): seq<Value> {
    if ops == [] then items
    else
      var before := Items(Init(ops), items);
      match Last(ops).kind
      case Append => before + [Last(ops).value]
      case Remove => Without(before, Last(ops).value)
      case _ => before
  }

  function Start(ops: seq<Op>): seq<Value>
    requires ops != []
  {
    if !Replaced(ops) && ops[0].kind == Append then [ops[0].value] else []
  }

  /** Is position `i` the first occurrence of its operation? */
  predicate First(ops: seq<Op>, i: nat)
    requires i < |ops|
  {
    ops[i] !in ops[..i]
  }

  /** Does a remove of the same value follow position `i`? With `once`, only first occurrences count. */
  predicate TakenBack(ops: seq<Op>, i: nat, once: bool)
    requires i < |ops|
  {
    exists j :: i < j < |ops| && ops[j].kind == Remove && ops[j].value == ops[i].value && (once ==> First(ops, j))
  }

  predicate Survives(ops: seq<Op>, i: nat, once: bool)
    requires i < |ops|
  {
    ops[i].kind == Append && (once ==> First(ops, i)) && !TakenBack(ops, i, once)
  }

  function Kept(ops: seq<Op>, once: bool): seq<bool> {
    seq(|ops|, i requires 0 <= i < |ops| => Survives(ops, i, once))
  }

  function Picked(ops: seq<Op>, n: nat, keep: seq<bool>): seq<Value>
    requires n <= |ops| && n <= |keep|
  {
    if n == 0 then [] else Picked(ops, n - 1, keep) + (if keep[n - 1] then [ops[n - 1].value] else [])
  }

  /** The values appended and never taken back, in order. */
  function Survivors(ops: seq<Op>, once: bool): seq<Value> {
    Picked(ops, |ops|, Kept(ops, once))
  }

  /** The test a caller can make on the operations of one path before collapsing them: an append
      after the first operation must not be overwritten, and counting every operation or only first
      occurrences must leave the same values in the same order. */
  predicate Exact(ops: seq<Op>)
    requires ops != []
  {
    if HasKind(Later(ops), Append)
    then HasKind(Tail(ops), Append)
         && Survivors(Tail(ops), false) == Survivors(Later(ops), true)
    else MainExact(ops)
  }

  // ---------- runs of appends and removes ----------

  predicate ArrayOps(ops: seq<Op>) { forall i :: 0 <= i < |ops| ==> IsArrayOp(ops[i]) }

  predicate IsArrayCell(cell: Option<Value>) { cell.Some? && cell.value.Arr? }

  lemma {:induction false} RunLast(ops: seq<Op>, cell: Option<Value>)
    requires ops != []
    ensures RunCell(ops, cell) == Act(Last(ops), RunCell(Init(ops), cell))
  {
    RunCellConcat(Init(ops), [Last(ops)], cell);
    assert ops == Init(ops) + [Last(ops)];
    var before := RunCell(Init(ops), cell);
    assert RunCell([Last(ops)], before) == RunCell([], Act(Last(ops), before));
  }

  lemma {:induction false} RunSnoc(ops: seq<Op>, op: Op, cell: Option<Value>)
    ensures RunCell(ops + [op], cell) == Act(op, RunCell(ops, cell))
  {
    RunLast(ops + [op], cell);
    assert Init(ops + [op]) == ops;
  }

  lemma {:induction false} HasKindLast(ops: seq<Op>, kind: Kind)
    requires ops != []
    ensures HasKind(ops, kind) <==> HasKind(Init(ops), kind) || Last(ops).kind == kind
  {
    if HasKind(Init(ops), kind) {
      var i :| 0 <= i < |Init(ops)| && Init(ops)[i].kind == kind;
      assert ops[i].kind == kind;
    }
    if HasKind(ops, kind) && Last(ops).kind != kind {
      var i :| 0 <= i < |ops| && ops[i].kind == kind;
      assert Init(ops)[i].kind == kind;
    }
  }

  lemma {:induction false} ArrayRun(ops: seq<Op>, cell: Option<Value>)
    requires ArrayOps(ops)
    ensures RunCell(ops, cell) ==
            if IsArrayCell(cell) then
              Some(Arr(Items(ops, cell.value.items), if HasKind(ops, Remove) then map[] else cell.value.named))
            else if HasKind(ops, Append) then Some(Arr(Items(ops, []), map[]))
            else cell
    ensures !HasKind(ops, Append) ==> Items(ops, []) == []
  {
    if ops != [] {
      ArrayRun(Init(ops), cell);
      RunLast(ops, cell);
      HasKindLast(ops, Append);
      HasKindLast(ops, Remove);
      assert [] + [Last(ops).value] == [Last(ops).value];
    }
  }

  /** What the removes of a run leave of items that were there before it. */
  function Strip(ops: seq<Op>, items: seq<Value>): seq<Value> {
    if ops == [] then items
    else if Last(ops).kind == Remove then Without(Strip(Init(ops), items), Last(ops).value)
    else Strip(Init(ops), items)
  }

  lemma {:induction false} WithoutConcat(a: seq<Value>, b: seq<Value>, v: Value)
    ensures Without(a + b, v) == Without(a, v) + Without(b, v)
  {
    if a == [] {
      assert a + b == b;
    } else {
      assert (a + b)[1..] == a[1..] + b;
      WithoutConcat(a[1..], b, v);
    }
  }

  lemma {:induction false} ItemsSplit(ops: seq<Op>, a: seq<Value>, b: seq<Value>)
    ensures Items(ops, a + b) == Strip(ops, a) + Items(ops, b)
  {
    if ops != [] {
      ItemsSplit(Init(ops), a, b);
      WithoutConcat(Strip(Init(ops), a), Items(Init(ops), b), Last(ops).value);
    }
  }

  lemma {:induction false} WithoutTwice(items: seq<Value>, v: Value, w: Value)
    ensures v !in items ==> Without(items, v) == items
    ensures v !in Without(items, v)
    ensures v !in items ==> v !in Without(items, w)
  {
    if items != [] {
      WithoutTwice(items[1..], v, w);
    }
  }

  lemma {:induction false} StripRemoves(ops: seq<Op>, items: seq<Value>, op: Op)
    requires op in ops && op.kind == Remove
    ensures op.value !in Strip(ops, items)
  {
    WithoutTwice(Strip(Init(ops), items), op.value, Last(ops).value);
    if op != Last(ops) {
      assert op in Init(ops);
      StripRemoves(Init(ops), items, op);
    }
  }

  lemma {:induction false} DedupMembers(ops: seq<Op>)
    ensures forall x :: x in Dedup(ops) <==> x in ops
  {
    if ops != [] {
      DedupMembers(Init(ops));
      assert ops == Init(ops) + [Last(ops)];
    }
  }

  lemma {:induction false} DedupKinds(ops: seq<Op>, kind: Kind)
    ensures HasKind(Dedup(ops), kind) <==> HasKind(ops, kind)
    ensures ArrayOps(ops) ==> ArrayOps(Dedup(ops))
  {
    DedupMembers(ops);
    if HasKind(ops, kind) {
      var i :| 0 <= i < |ops| && ops[i].kind == kind;
      assert ops[i] in Dedup(ops);
    }
    if HasKind(Dedup(ops), kind) {
      var i :| 0 <= i < |Dedup(ops)| && Dedup(ops)[i].kind == kind;
      assert Dedup(ops)[i] in ops;
    }
    forall i | ArrayOps(ops) && 0 <= i < |Dedup(ops)| ensures IsArrayOp(Dedup(ops)[i]) {
      assert Dedup(ops)[i] in ops;
    }
  }

  lemma {:induction false} DedupStrips(ops: seq<Op>, items: seq<Value>)
    ensures Strip(Dedup(ops), items) == Strip(ops, items)
  {
    if ops != [] {
      var last := Last(ops);
      DedupStrips(Init(ops), items);
      DedupMembers(Init(ops));
      if last in Dedup(Init(ops)) {
        if last.kind == Remove {
          StripRemoves(Init(ops), items, last);
          WithoutTwice(Strip(Init(ops), items), last.value, last.value);
        }
      } else {
        assert Init(Dedup(Init(ops)) + [last]) == Dedup(Init(ops));
      }
    }
  }

  // ---------- anchors and increments ----------

  /** No array is left in a cell by a set, delete or increment. */
  lemma {:induction false} MainShape(ops: seq<Op>)
    requires ops != []
    ensures var a, m := Anchor(ops), Main(ops);
            && (!Bumped(ops) ==> m == a && Sum(ops) == 0)
            && (Bumped(ops) && (a.kind == Set || a.kind == Increment) ==>
                  m.kind == a.kind && m.value == Num(ToNumber(a.value) + Sum(ops)))
            && (Bumped(ops) && a.kind != Set && a.kind != Increment ==> m.kind == Increment)
    ensures Bumped(ops) ==> Replaced(ops)
    ensures IsArrayOp(Anchor(ops)) || !Replaced(ops) ==> Anchor(ops) == ops[0]
    ensures Replaced(ops) && !Bumped(ops) ==> Anchor(ops).kind != Append && Anchor(ops).kind != Remove
  {
    if |ops| > 1 {
      MainShape(Init(ops));
    }
  }

  lemma {:induction false} ScalarStep(op: Op, cell: Option<Value>)
    requires (op.kind == Increment || op.kind == Remove) && !IsArrayCell(cell)
    ensures Act(op, cell) == if op.kind == Increment then Some(Num(CellNumber(cell) + Amount(op.value))) else cell
  {
  }

  /** A run without later appends whose anchor leaves no array behind. */
  lemma {:induction false} ScalarRun(ops: seq<Op>, cell: Option<Value>)
    requires ops != [] && !HasKind(Later(ops), Append) && !IsArrayOp(Anchor(ops))
    ensures !IsArrayCell(RunCell(ops, cell))
    ensures RunCell(ops, cell) ==
            if Bumped(ops) then Some(Num(CellNumber(Act(Anchor(ops), cell)) + Sum(ops)))
            else Act(Anchor(ops), cell)
  {
    RunLast(ops, cell);
    if |ops| == 1 {
      assert RunCell(Init(ops), cell) == cell;
    } else if Last(ops).kind == Increment || Last(ops).kind == Remove {
      LaterAppends(ops);
      assert !Bumped(Init(ops)) ==> Sum(Init(ops)) == 0 by { MainShape(Init(ops)); }
      ScalarRun(Init(ops), cell);
      ScalarStep(Last(ops), RunCell(Init(ops), cell));
    } else if Last(ops).kind == Append {
      LaterAppends(ops);
    }
  }

  lemma {:induction false} LaterAppends(ops: seq<Op>)
    requires |ops| > 1
    ensures HasKind(Later(ops), Append) <==> HasKind(Later(Init(ops)), Append) || Last(ops).kind == Append
  {
    if IsArrayOp(Last(ops)) {
      var before := Later(Init(ops));
      assert Later(ops) == before + [Last(ops)];
      assert Init(before + [Last(ops)]) == before && Last(before + [Last(ops)]) == Last(ops);
      HasKindLast(before + [Last(ops)], Append);
    } else {
      assert Later(ops) == Later(Init(ops));
    }
  }

  /** An append first: the result does not depend on the scalar that was there. */
  lemma {:induction false} AppendFirst(ops: seq<Op>)
    requires ops != [] && ops[0].kind == Append
    ensures RunCell(ops, None) == RunCell(ops, Some(Num(1)))
  {
    RunLast(ops, None);
    RunLast(ops, Some(Num(1)));
    if |ops| > 1 {
      AppendFirst(Init(ops));
    }
  }

  const KEPT: seq<Value> := [Arr([Num(1)], map[])]

  /** An array that coerces to 0 until its first item is removed, and to 1 afterwards. */
  function Trap(v: Scalar): Option<Value> {
    Some(Arr([v] + KEPT, map[]))
  }

  lemma {:induction false} TrapFacts(v: Scalar)
    ensures Without(KEPT, v) == KEPT && Without([v] + KEPT, v) == KEPT
    ensures ToNumber(Arr(KEPT, map[])) == 1 && ToNumber(Arr([v] + KEPT, map[])) == 0
  {
    assert KEPT[1..] == [] && ([v] + KEPT)[1..] == KEPT;
    assert Without(KEPT, v) == KEPT + [] == KEPT;
    assert ToNumber(KEPT[0]) == 1;
  }

  lemma {:induction false} RemoveFirstScalar(ops: seq<Op>)
    requires ops != [] && ops[0].kind == Remove && IsArrayOp(Anchor(ops)) && !HasKind(Later(ops), Append)
    ensures RunCell(ops, None) == if Bumped(ops) then Some(Num(Sum(ops))) else None
  {
    RunLast(ops, None);
    if |ops| > 1 {
      LaterAppends(ops);
      MainShape(Init(ops));
      RemoveFirstScalar(Init(ops));
    }
  }

  /** What becomes of the trap once its first item is gone. */
  function Sprung(bumped: bool, sum: int): Option<Value> {
    Some(if bumped then Num(1 + sum) else Arr(KEPT, map[]))
  }

  lemma {:induction false} SprungStep(op: Op, bumped: bool, sum: int)
    requires (op.kind == Increment || op.kind == Remove) && (!bumped ==> sum == 0)
    ensures Act(op, Sprung(bumped, sum)) ==
            if op.kind == Increment then Sprung(true, sum + Amount(op.value)) else Sprung(bumped, sum)
    ensures op.kind == Remove ==> Act(op, Trap(op.value)) == Sprung(false, 0)
  {
    TrapFacts(op.value);
  }

  lemma {:induction false} RemoveFirstTrap(ops: seq<Op>)
    requires ops != [] && ops[0].kind == Remove && IsArrayOp(Anchor(ops)) && !HasKind(Later(ops), Append)
    ensures RunCell(ops, Trap(ops[0].value)) == Sprung(Bumped(ops), Sum(ops))
  {
    var trap := Trap(ops[0].value);
    RunLast(ops, trap);
    if |ops| == 1 {
      assert RunCell(Init(ops), trap) == trap;
      SprungStep(ops[0], false, 0);
    } else {
      assert Init(ops)[0] == ops[0];
      LaterAppends(ops);
      assert !Bumped(Init(ops)) ==> Sum(Init(ops)) == 0 by { MainShape(Init(ops)); }
      RemoveFirstTrap(Init(ops));
      SprungStep(Last(ops), Bumped(Init(ops)), Sum(Init(ops)));
    }
  }

  // ---------- survivors are what the runs leave behind ----------

  lemma {:induction false} FirstSnoc(ops: seq<Op>, op: Op, i: nat)
    requires i <= |ops|
    ensures First(ops + [op], i) <==> if i < |ops| then First(ops, i) else op !in ops
  {
    assert (ops + [op])[..i] == ops[..i];
    assert ops[..|ops|] == ops;
  }

  lemma {:induction false} TakenBackSnoc(ops: seq<Op>, op: Op, i: nat, once: bool)
    requires i < |ops|
    ensures TakenBack(ops + [op], i, once) <==>
            TakenBack(ops, i, once) || (op.kind == Remove && op.value == ops[i].value && (once ==> op !in ops))
  {
    var longer := ops + [op];
    forall j | 0 <= j < |longer|
      ensures First(longer, j) <==> if j < |ops| then First(ops, j) else op !in ops
      ensures longer[j] == if j < |ops| then ops[j] else op
    {
      FirstSnoc(ops, op, j);
    }
    if op.kind == Remove && op.value == ops[i].value && (once ==> op !in ops) {
      assert longer[|ops|] == op;
    }
  }

  /** Is this, put behind `ops`, a remove that counts? */
  predicate Drops(ops: seq<Op>, op: Op, once: bool) {
    op.kind == Remove && (once ==> op !in ops)
  }

  lemma {:induction false} SurvivesSnoc(ops: seq<Op>, op: Op, i: nat, once: bool)
    requires i <= |ops|
    ensures Survives(ops + [op], i, once) <==>
            if i == |ops| then op.kind == Append && (once ==> op !in ops)
            else Survives(ops, i, once) && !(Drops(ops, op, once) && op.value == ops[i].value)
  {
    FirstSnoc(ops, op, i);
    if i < |ops| {
      TakenBackSnoc(ops, op, i, once);
    }
  }

  lemma {:induction false} WithoutLast(items: seq<Value>, v: Value, kept: bool, w: Value)
    ensures Without(items + (if kept then [v] else []), w) == Without(items, w) + (if kept && v != w then [v] else [])
  {
    WithoutConcat(items, if kept then [v] else [], w);
    assert [v][1..] == [] && Without([v], w) == if v == w then [] else [v];
  }

  lemma {:induction false} PickedSame(ops: seq<Op>, longer: seq<Op>, n: nat, keep: seq<bool>, keep': seq<bool>)
    requires n <= |ops| && n <= |longer| && n <= |keep| && n <= |keep'|
    requires forall i :: 0 <= i < n ==> longer[i] == ops[i] && keep'[i] == keep[i]
    ensures Picked(longer, n, keep') == Picked(ops, n, keep)
  {
    if n > 0 {
      PickedSame(ops, longer, n - 1, keep, keep');
    }
  }

  lemma {:induction false} PickedWithout(ops: seq<Op>, longer: seq<Op>, n: nat, keep: seq<bool>, keep': seq<bool>,
                                         w: Value)
    requires n <= |ops| && n <= |longer| && n <= |keep| && n <= |keep'|
    requires forall i :: 0 <= i < n ==> longer[i] == ops[i] && (keep'[i] <==> keep[i] && ops[i].value != w)
    ensures Picked(longer, n, keep') == Without(Picked(ops, n, keep), w)
  {
    if n > 0 {
      var before := Picked(ops, n - 1, keep);
      PickedWithout(ops, longer, n - 1, keep, keep', w);
      WithoutLast(before, ops[n - 1].value, keep[n - 1], w);
      assert Picked(ops, n, keep) == before + (if keep[n - 1] then [ops[n - 1].value] else []);
    }
  }

  lemma {:induction false} SurvivorsSnoc(ops: seq<Op>, op: Op, once: bool)
    ensures Survivors(ops + [op], once) ==
            (if Drops(ops, op, once) then Without(Survivors(ops, once), op.value) else Survivors(ops, once))
            + (if op.kind == Append && (once ==> op !in ops) then [op.value] else [])
  {
    var longer, n := ops + [op], |ops|;
    forall i | 0 <= i <= |ops|
      ensures Kept(longer, once)[i] <==> if i == |ops| then op.kind == Append && (once ==> op !in ops)
                else Kept(ops, once)[i] && !(Drops(ops, op, once) && ops[i].value == op.value)
    {
      SurvivesSnoc(ops, op, i, once);
    }
    if Drops(ops, op, once) {
      PickedWithout(ops, longer, n, Kept(ops, once), Kept(longer, once), op.value);
    } else {
      PickedSame(ops, longer, n, Kept(ops, once), Kept(longer, once));
    }
    assert Survivors(longer, once) ==
           Picked(longer, n, Kept(longer, once)) + (if Kept(longer, once)[n] then [op.value] else []);
  }

  lemma {:induction false} SurvivorsAreItems(ops: seq<Op>)
    requires ArrayOps(ops)
    ensures Survivors(ops, false) == Items(ops, [])
  {
    if ops != [] {
      SurvivorsAreItems(Init(ops));
      SurvivorsSnoc(Init(ops), Last(ops), false);
      assert Init(ops) + [Last(ops)] == ops;
    }
  }

  lemma {:induction false} ItemsSnoc(ops: seq<Op>, op: Op, items: seq<Value>)
    ensures Items(ops + [op], items) ==
            if op.kind == Append then Items(ops, items) + [op.value]
            else if op.kind == Remove then Without(Items(ops, items), op.value)
            else Items(ops, items)
  {
    assert Init(ops + [op]) == ops;
  }

  lemma {:induction false} DedupSnoc(ops: seq<Op>, op: Op)
    ensures Dedup(ops + [op]) == if op in ops then Dedup(ops) else Dedup(ops) + [op]
  {
    DedupMembers(ops);
    assert Init(ops + [op]) == ops;
  }

  lemma {:induction false} FirstSurvivorsAreItems(ops: seq<Op>)
    requires ArrayOps(ops)
    ensures Survivors(ops, true) == Items(Dedup(ops), [])
  {
    if ops != [] {
      FirstSurvivorsAreItems(Init(ops));
      SurvivorsSnoc(Init(ops), Last(ops), true);
      DedupSnoc(Init(ops), Last(ops));
      ItemsSnoc(Dedup(Init(ops)), Last(ops), []);
      assert Init(ops) + [Last(ops)] == ops;
    }
  }

  lemma {:induction false} ItemsFrom(ops: seq<Op>, start: seq<Value>)
    ensures Items(ops, start) == Strip(ops, start) + Items(ops, [])
  {
    assert start + [] == start;
    ItemsSplit(ops, start, []);
  }

  lemma {:induction false} SamePrefix(p: seq<Value>, a: seq<Value>, b: seq<Value>)
    ensures p + a == p + b <==> a == b
  {
    assert (p + a)[|p|..] == a && (p + b)[|p|..] == b;
  }

  /** The test says the same as running both lists of appends and removes from the start items. */
  lemma {:induction false} ExactByItems(ops: seq<Op>)
    requires ops != [] && HasKind(Later(ops), Append)
    ensures Exact(ops) <==>
            HasKind(Tail(ops), Append) && Items(Tail(ops), Start(ops)) == Items(Dedup(Later(ops)), Start(ops))
  {
    SurvivorsAreItems(Tail(ops));
    FirstSurvivorsAreItems(Later(ops));
    SameStrip(ops);
    SameItems(Tail(ops), Dedup(Later(ops)), Start(ops));
  }

  /** Runs that strip the start items alike agree from there exactly when they agree from nothing. */
  lemma {:induction false} SameItems(a: seq<Op>, b: seq<Op>, start: seq<Value>)
    requires Strip(a, start) == Strip(b, start)
    ensures Items(a, start) == Items(b, start) <==> Items(a, []) == Items(b, [])
  {
    ItemsFrom(a, start);
    ItemsFrom(b, start);
    SamePrefix(Strip(a, start), Items(a, []), Items(b, []));
  }

  lemma {:induction false} SameStrip(ops: seq<Op>)
    requires ops != []
    ensures Strip(Tail(ops), Start(ops)) == Strip(Dedup(Later(ops)), Start(ops))
  {
    DedupStrips(Later(ops), Start(ops));
    if Start(ops) == [] {
      StripNothing(Tail(ops));
      StripNothing(Dedup(Later(ops)));
    } else {
      UnreplacedTail(ops);
    }
  }

  lemma {:induction false} StripNothing(ops: seq<Op>)
    ensures Strip(ops, []) == []
  {
    if ops != [] {
      StripNothing(Init(ops));
    }
  }

  // ---------- exactness ----------

  /** Everything before the trailing appends and removes. */
  function Head(ops: seq<Op>): (r: seq<Op>)
    requires ops != []
    ensures r != []
  {
    if |ops| == 1 || !IsArrayOp(Last(ops)) then ops else Head(Init(ops))
  }

  /** A run ends with its trailing appends and removes; before them a replaced cell holds no array. */
  lemma {:induction false} HeadRun(ops: seq<Op>, cell: Option<Value>)
    requires ops != []
    ensures RunCell(ops, cell) == RunCell(Tail(ops), RunCell(Head(ops), cell))
    ensures Replaced(ops) ==> !IsArrayCell(RunCell(Head(ops), cell))
  {
    if |ops| > 1 {
      RunLast(ops, cell);
      if IsArrayOp(Last(ops)) {
        HeadRun(Init(ops), cell);
        RunSnoc(Tail(Init(ops)), Last(ops), RunCell(Head(ops), cell));
      }
    }
  }

  lemma {:induction false} UnreplacedTail(ops: seq<Op>)
    requires ops != [] && !Replaced(ops)
    ensures |Later(ops)| == |ops| - 1
    ensures Tail(ops) == Later(ops)
  {
    if |ops| > 1 {
      UnreplacedTail(Init(ops));
    }
  }

  lemma {:induction false} UnreplacedHead(ops: seq<Op>)
    requires ops != [] && !Replaced(ops)
    ensures Head(ops) == [ops[0]]
  {
    if |ops| > 1 {
      UnreplacedHead(Init(ops));
    }
  }

  lemma {:induction false} MainKind(ops: seq<Op>)
    requires ops != []
    ensures if Replaced(ops) then !IsArrayOp(Main(ops)) else Main(ops) == ops[0]
  {
    if |ops| > 1 {
      MainKind(Init(ops));
    }
  }

  lemma {:induction false} CollapsedRun(ops: seq<Op>, cell: Option<Value>)
    requires ops != []
    ensures RunCell(Collapsed(ops), cell) == RunCell(Dedup(Later(ops)), Act(Main(ops), cell))
  {
    assert Collapsed(ops)[1..] == Dedup(Later(ops));
  }

  lemma {:induction false} UnreplacedRuns(ops: seq<Op>, cell: Option<Value>)
    requires ops != [] && !Replaced(ops)
    ensures RunCell(ops, cell) == RunCell(Later(ops), Act(ops[0], cell))
    ensures RunCell(Collapsed(ops), cell) == RunCell(Dedup(Later(ops)), Act(ops[0], cell))
  {
    UnreplacedTail(ops);
    MainKind(ops);
    HeadRun(ops, cell);
    CollapsedRun(ops, cell);
    UnreplacedHead(ops);
    assert [ops[0]][1..] == [];
    assert RunCell([ops[0]], cell) == RunCell([], Act(ops[0], cell));
  }

  /** Runs of appends and removes that treat the start items alike agree on every cell ending in them. */
  lemma {:induction false} SameRuns(a: seq<Op>, b: seq<Op>, before: seq<Value>, start: seq<Value>, cell: Option<Value>)
    requires ArrayOps(a) && ArrayOps(b)
    requires forall kind :: HasKind(a, kind) <==> HasKind(b, kind)
    requires Strip(a, before) == Strip(b, before) && Items(a, start) == Items(b, start)
    requires if IsArrayCell(cell) then cell.value.items == before + start else start == []
    ensures RunCell(a, cell) == RunCell(b, cell)
  {
    ArrayRun(a, cell);
    ArrayRun(b, cell);
    ItemsSplit(a, before, start);
    ItemsSplit(b, before, start);
  }

  lemma {:induction false} DedupRun(later: seq<Op>, before: seq<Value>, start: seq<Value>, cell: Option<Value>)
    requires ArrayOps(later) && Items(later, start) == Items(Dedup(later), start)
    requires if IsArrayCell(cell) then cell.value.items == before + start else start == []
    ensures RunCell(Dedup(later), cell) == RunCell(later, cell)
  {
    forall kind ensures HasKind(Dedup(later), kind) <==> HasKind(later, kind) {
      DedupKinds(later, kind);
    }
    assert ArrayOps(Dedup(later)) by { DedupKinds(later, Append); }
    DedupStrips(later, before);
    SameRuns(Dedup(later), later, before, start, cell);
  }

  /** Nothing but appends and removes after the first operation. */
  lemma {:induction false} UnreplacedExact(ops: seq<Op>, cell: Option<Value>)
    requires ops != [] && !Replaced(ops) && Exact(ops)
    ensures RunCell(Collapsed(ops), cell) == RunCell(ops, cell)
  {
    var c := Act(ops[0], cell);
    UnreplacedItems(ops);
    UnreplacedRuns(ops, cell);
    var before := StartCell(ops[0], cell);
    DedupRun(Later(ops), before, Start(ops), c);
  }

  /** What the first operation leaves in the cell ends with the item it appended, if it did. */
  lemma {:induction false} StartCell(op: Op, cell: Option<Value>) returns (before: seq<Value>)
    ensures var c, start := Act(op, cell), if op.kind == Append then [op.value] else [];
            if IsArrayCell(c) then c.value.items == before + start else start == []
  {
    before := if IsArrayCell(cell) then cell.value.items else [];
    if op.kind == Remove && IsArrayCell(cell) {
      before := Without(before, op.value);
    }
    assert before + [] == before;
    assert [] + [op.value] == [op.value];
  }

  /** A cell that holds just the start items shows what array runs make of them. */
  lemma {:induction false} RunsShowItems(a: seq<Op>, b: seq<Op>, start: seq<Value>, cell: Option<Value>)
    requires ArrayOps(a) && HasKind(a, Append) && ArrayOps(b) && HasKind(b, Append)
    requires if IsArrayCell(cell) then cell.value.items == start else start == []
    ensures RunCell(a, cell) == RunCell(b, cell) ==> Items(a, start) == Items(b, start)
  {
    ArrayRun(a, cell);
    ArrayRun(b, cell);
  }

  lemma {:induction false} StartAlone(op: Op)
    ensures var c, start := Act(op, None), if op.kind == Append then [op.value] else [];
            if IsArrayCell(c) then c.value.items == start else start == []
  {
  }

  lemma {:induction false} UnreplacedMain(ops: seq<Op>)
    requires ops != [] && !Replaced(ops)
    ensures MainExact(ops)
  {
    MainShape(ops);
  }

  lemma {:induction false} UnreplacedInexact(ops: seq<Op>)
    requires ops != [] && !Replaced(ops) && !Exact(ops)
    ensures RunCell(Collapsed(ops), None) != RunCell(ops, None)
  {
    UnreplacedItems(ops);
    UnreplacedRuns(ops, None);
    UnreplacedMain(ops);
    DedupKinds(Later(ops), Append);
    StartAlone(ops[0]);
    RunsShowItems(Dedup(Later(ops)), Later(ops), Start(ops), Act(ops[0], None));
  }

  lemma {:induction false} UnreplacedItems(ops: seq<Op>)
    requires ops != [] && !Replaced(ops)
    ensures Exact(ops) <==> Items(Later(ops), Start(ops)) == Items(Dedup(Later(ops)), Start(ops))
  {
    UnreplacedTail(ops);
    if HasKind(Later(ops), Append) {
      ExactByItems(ops);
    } else {
      RemovesOnly(Later(ops), Start(ops));
      UnreplacedMain(ops);
    }
  }

  lemma {:induction false} RemovesOnly(later: seq<Op>, start: seq<Value>)
    requires ArrayOps(later) && !HasKind(later, Append)
    ensures Items(later, start) == Items(Dedup(later), start)
  {
    DedupKinds(later, Append);
    ArrayRun(later, None);
    ArrayRun(Dedup(later), None);
    DedupStrips(later, start);
    SameItems(later, Dedup(later), start);
  }

  /** An append somewhere, and a set, delete or increment after the first operation. */
  lemma {:induction false} ReplacedArrayExact(ops: seq<Op>, cell: Option<Value>)
    requires ops != [] && Replaced(ops) && HasKind(Later(ops), Append)
    ensures Exact(ops) ==> RunCell(Collapsed(ops), cell) == RunCell(ops, cell)
    ensures !Exact(ops) ==> RunCell(Collapsed(ops), cell) != RunCell(ops, cell)
  {
    ExactByItems(ops);
    MainKind(ops);
    HeadRun(ops, cell);
    CollapsedRun(ops, cell);
    DedupKinds(Later(ops), Append);
    ArrayRun(Dedup(Later(ops)), Act(Main(ops), cell));
    ArrayRun(Tail(ops), RunCell(Head(ops), cell));
  }

  lemma {:induction false} CollapsedScalar(ops: seq<Op>, cell: Option<Value>)
    requires ops != [] && Replaced(ops) && !HasKind(Later(ops), Append)
    ensures RunCell(Collapsed(ops), cell) == Act(Main(ops), cell)
  {
    MainKind(ops);
    HeadRun(ops, cell);
    CollapsedRun(ops, cell);
    DedupKinds(Later(ops), Append);
    ArrayRun(Dedup(Later(ops)), Act(Main(ops), cell));
  }

  /** A merged operation does what its first operation and the increments after it do one by one. */
  lemma {:induction false} MergedAct(a: Op, m: Op, sum: int, cell: Option<Value>)
    requires m.kind == a.kind && m.value == Num(ToNumber(a.value) + sum)
    requires a.kind == Set || (a.kind == Increment && TotalSurvives(ToNumber(a.value), sum))
    ensures Act(m, cell) == Some(Num(CellNumber(Act(a, cell)) + sum))
  {
  }

  lemma {:induction false} ScalarMain(ops: seq<Op>)
    requires ops != [] && Replaced(ops) && MainExact(ops)
    ensures !IsArrayOp(Anchor(ops))
    ensures if Bumped(ops)
            then Main(ops).kind == Anchor(ops).kind && Main(ops).value == Num(ToNumber(Anchor(ops).value) + Sum(ops))
            else Main(ops) == Anchor(ops)
  {
    MainShape(ops);
  }

  lemma {:induction false} ReplacedScalarExact(ops: seq<Op>, cell: Option<Value>)
    requires ops != [] && Replaced(ops) && !HasKind(Later(ops), Append) && Exact(ops)
    ensures RunCell(Collapsed(ops), cell) == RunCell(ops, cell)
  {
    ScalarMain(ops);
    CollapsedScalar(ops, cell);
    ScalarRun(ops, cell);
    if Bumped(ops) {
      MergedAct(Anchor(ops), Main(ops), Sum(ops), cell);
    }
  }

  /** The cells on which some inexact list is always caught. */
  function Probes(ops: seq<Op>): seq<Option<Value>>
    requires ops != []
  {
    [None, Some(Num(1)), Trap(ops[0].value)]
  }

  /** Some list that fails the test starts with an append or a remove, some does not: each is caught by a probe. */
  lemma {:induction false} AppendInexact(ops: seq<Op>)
    requires ops != [] && Replaced(ops) && !HasKind(Later(ops), Append) && !Exact(ops) && Anchor(ops).kind == Append
    ensures RunCell(Collapsed(ops), None) != RunCell(ops, None)
            || RunCell(Collapsed(ops), Some(Num(1))) != RunCell(ops, Some(Num(1)))
  {
    MainShape(ops);
    CollapsedScalar(ops, None);
    CollapsedScalar(ops, Some(Num(1)));
    AppendFirst(ops);
  }

  lemma {:induction false} RemoveInexact(ops: seq<Op>)
    requires ops != [] && Replaced(ops) && !HasKind(Later(ops), Append) && !Exact(ops) && Anchor(ops).kind == Remove
    ensures RunCell(Collapsed(ops), None) != RunCell(ops, None)
            || RunCell(Collapsed(ops), Trap(ops[0].value)) != RunCell(ops, Trap(ops[0].value))
  {
    MainShape(ops);
    CollapsedScalar(ops, None);
    CollapsedScalar(ops, Trap(ops[0].value));
    RemoveFirstScalar(ops);
    RemoveFirstTrap(ops);
    TrapFacts(ops[0].value);
  }

  lemma {:induction false} OtherInexact(ops: seq<Op>)
    requires ops != [] && Replaced(ops) && !HasKind(Later(ops), Append) && !Exact(ops) && !IsArrayOp(Anchor(ops))
    ensures RunCell(Collapsed(ops), None) != RunCell(ops, None)
            || RunCell(Collapsed(ops), Some(Num(1))) != RunCell(ops, Some(Num(1)))
  {
    MainShape(ops);
    CollapsedScalar(ops, None);
    CollapsedScalar(ops, Some(Num(1)));
    ScalarRun(ops, None);
    ScalarRun(ops, Some(Num(1)));
  }

  lemma {:induction false} ReplacedScalarInexact(ops: seq<Op>)
    requires ops != [] && Replaced(ops) && !HasKind(Later(ops), Append) && !Exact(ops)
    ensures exists cell :: cell in Probes(ops) && RunCell(Collapsed(ops), cell) != RunCell(ops, cell)
  {
    var none, one, trap := Probes(ops)[0], Probes(ops)[1], Probes(ops)[2];
    assert none in Probes(ops) && one in Probes(ops) && trap in Probes(ops);
    match Anchor(ops).kind {
      case Append => AppendInexact(ops);
      case Remove => RemoveInexact(ops);
      case _ => OtherInexact(ops);
    }
  }

  /** Collapsing the operations on one path preserves every cell if and only if the test holds. */
  lemma {:induction false} CollapseCellIff(ops: seq<Op>)
    requires ops != []
    ensures Exact(ops) <==> forall cell :: RunCell(Collapsed(ops), cell) == RunCell(ops, cell)
  {
    forall cell | Exact(ops) ensures RunCell(Collapsed(ops), cell) == RunCell(ops, cell) {
      if !Replaced(ops) {
        UnreplacedExact(ops, cell);
      } else if HasKind(Later(ops), Append) {
        ReplacedArrayExact(ops, cell);
      } else {
        ReplacedScalarExact(ops, cell);
      }
    }
    if !Exact(ops) {
      if !Replaced(ops) {
        UnreplacedInexact(ops);
      } else if HasKind(Later(ops), Append) {
        ReplacedArrayExact(ops, None);
      } else {
        ReplacedScalarInexact(ops);
      }
    }
  }
}
