/** What the operations do to a document, in numbers and items, and what merging them does to those. */
module OperationEffects {
  import opened Common
  import opened JsonTree
  import opened Operations
  import opened MapKeys
  import opened CellCollapse
  import opened Collapse
  import opened TidyOperations

  // ---------- the number in a cell ----------

  /** Decimal digits, possibly behind one sign. */
  predicate Numeral(s: string) {
    AllDigits(s) || (s != "" && (s[0] == '-' || s[0] == '+') && AllDigits(s[1..]))
  }

  /** Counting starts from the number a cell holds or spells, from 1 for `true`, and from 0 otherwise. */
  lemma {:induction false} CellStartsFrom(n: int, s: string, fields: map<string, Value>)
    ensures CellNumber(Some(Num(n))) == n && CellNumber(Some(Str(NumberText(n)))) == n
    ensures CellNumber(Some(Bool(true))) == 1 && CellNumber(Some(Bool(false))) == 0
    ensures CellNumber(None) == CellNumber(Some(Undef)) == CellNumber(Some(Null)) == CellNumber(Some(Obj(fields))) == 0
    ensures !Numeral(s) || s == "" ==> CellNumber(Some(Str(s))) == 0
  {
    NumberRoundTrip(n);
  }

  lemma {:induction false} LeadingZero(s: string)
    requires AllDigits(s)
    ensures AllDigits("0" + s) && ParseDigits("0" + s) == ParseDigits(s)
  {
    if s != "" {
      LeadingZero(s[..|s| - 1]);
      assert ("0" + s)[..|s|] == "0" + s[..|s| - 1];
    } else {
      assert "0" + s == "0" && "0"[..0] == "";
    }
  }

  /** Leading zeros and a plus sign do not matter, a minus sign negates. */
  lemma {:induction false} SpellingCounts(s: string)
    requires AllDigits(s)
    ensures CellNumber(Some(Str("0" + s))) == CellNumber(Some(Str("+" + s))) == CellNumber(Some(Str(s)))
    ensures CellNumber(Some(Str("-" + s))) == 0 - CellNumber(Some(Str(s)))
  {
    LeadingZero(s);
    assert ("+" + s)[0] == '+' && ("-" + s)[0] == '-';
    assert ("+" + s)[1..] == s && ("-" + s)[1..] == s;
  }

  /** An array counts like its only item, unless that is a boolean, and as 0 with no item or several. */
  lemma {:induction false} ArrayStartsFrom(items: seq<Value>, named: map<string, Value>)
    ensures CellNumber(Some(Arr(items, named))) ==
            if |items| == 1 && !items[0].Bool? then CellNumber(Some(items[0])) else 0
  {
  }

  // ---------- what an increment adds ----------

  /** No value, or one that coerces to 0 or to no number. */
  predicate Unvalued(v: Scalar) {
    v == Undef || v == Null || v == Bool(false) || v == Num(0) || v == Str("0")
    || (v.Str? && (v.s == "" || !Numeral(v.s)))
  }

  /** The value of an increment that adds `n`. */
  predicate Worth(v: Scalar, n: int) {
    (n == 1 && (Unvalued(v) || v == Bool(true))) || (n != 0 && (v == Num(n) || v == Str(NumberText(n))))
  }

  lemma {:induction false} WorthAmount(v: Scalar, n: int)
    requires Worth(v, n)
    ensures Amount(v) == n
  {
    NumberRoundTrip(n);
    assert DigitsOf(0) == "0";
    NumberRoundTrip(0);
  }

  lemma {:induction false} RunOneOp(op: Op, c: Container)
    ensures Read(Run([op], c), Split(op.path)) == Act(op, Read(c, Split(op.path)))
  {
    OnePathRun([op], op.path, c);
    RunLast([op], Read(c, Split(op.path)));
    ReadWriteSame(c, Split(op.path), Act(op, Read(c, Split(op.path))), None);
  }

  /** An increment adds 1 without a value, with 0, null, false or text that is no number; otherwise the integer it
      is given as a number or as text, 1 for `true`, in all the spellings that a cell's number may have. */
  lemma {:induction false} IncrementAdds(op: Op, c: Container)
    requires op.kind == Increment
    ensures var start, after := CellNumber(Read(c, Split(op.path))), Read(Run([op], c), Split(op.path));
            && (Unvalued(op.value) || op.value == Bool(true) ==> after == Some(Num(start + 1)))
            && (forall n :: n != 0 && (op.value == Num(n) || op.value == Str(NumberText(n)))
                            ==> after == Some(Num(start + n)))
            && var n := CellNumber(Some(op.value));
               after == Some(Num(if n == 0 then start + 1 else start + n))
  {
    RunOneOp(op, c);
    assert CellNumber(Some(op.value)) == ToNumber(op.value);
    if Unvalued(op.value) || op.value == Bool(true) {
      WorthAmount(op.value, 1);
    }
    forall n | n != 0 && (op.value == Num(n) || op.value == Str(NumberText(n)))
      ensures Read(Run([op], c), Split(op.path)) == Some(Num(CellNumber(Read(c, Split(op.path))) + n))
    {
      WorthAmount(op.value, n);
    }
  }

  /** Increments worth these integers, one for one. */
  predicate Increments(ops: seq<Op>, amounts: seq<int>) {
    |ops| == |amounts| && forall i :: 0 <= i < |ops| ==> ops[i].kind == Increment && Worth(ops[i].value, amounts[i])
  }

  function Total(amounts: seq<int>): int {
    if amounts == [] then 0 else Total(Init(amounts)) + Last(amounts)
  }

  predicate Adding(ops: seq<Op>, amounts: seq<int>) {
    |ops| == |amounts| && forall i :: 0 <= i < |ops| ==> ops[i].kind == Increment && Amount(ops[i].value) == amounts[i]
  }

  lemma {:induction false} WorthAdding(ops: seq<Op>, amounts: seq<int>)
    requires Increments(ops, amounts)
    ensures Adding(ops, amounts)
  {
    forall i | 0 <= i < |ops| ensures Amount(ops[i].value) == amounts[i] {
      WorthAmount(ops[i].value, amounts[i]);
    }
  }

  lemma {:induction false} CellAddsUp(ops: seq<Op>, amounts: seq<int>, cell: Option<Value>)
    requires ops != [] && Adding(ops, amounts)
    ensures RunCell(ops, cell) == Some(Num(CellNumber(cell) + Total(amounts)))
  {
    RunLast(ops, cell);
    if |ops| > 1 {
      CellAddsUp(Init(ops), Init(amounts), cell);
    } else {
      assert Init(ops) == [] && Init(amounts) == [];
    }
  }

  lemma {:induction false} AddingReads(ops: seq<Op>, amounts: seq<int>, path: string, c: Container)
    requires ops != [] && AllOn(ops, path) && Adding(ops, amounts)
    ensures Read(Run(ops, c), Split(path)) == Some(Num(CellNumber(Read(c, Split(path))) + Total(amounts)))
  {
    var cell := Read(c, Split(path));
    OnePathRun(ops, path, c);
    CellAddsUp(ops, amounts, cell);
    ReadWriteSame(c, Split(path), RunCell(ops, cell), None);
  }

  /** A run of increments on one path adds up what they are worth. */
  lemma {:induction false} IncrementsAddUp(ops: seq<Op>, amounts: seq<int>, path: string, c: Container)
    requires ops != [] && AllOn(ops, path) && Increments(ops, amounts)
    ensures Read(Run(ops, c), Split(path)) == Some(Num(CellNumber(Read(c, Split(path))) + Total(amounts)))
  {
    WorthAdding(ops, amounts);
    AddingReads(ops, amounts, path, c);
  }

  lemma {:induction false} TotalSnoc(amounts: seq<int>, n: int)
    ensures Total(amounts + [n]) == Total(amounts) + n
  {
    assert Init(amounts + [n]) == amounts;
  }

  lemma {:induction false} TotalOfOnes(amounts: seq<int>)
    requires forall i :: 0 <= i < |amounts| ==> amounts[i] == 1
    ensures Total(amounts) == |amounts|
  {
    if amounts != [] {
      TotalOfOnes(Init(amounts));
    }
  }

  /** `k` increments without a value add `k`. */
  lemma {:induction false} PlainIncrementsCount(ops: seq<Op>, path: string, c: Container)
    requires ops != [] && AllOn(ops, path)
    requires forall i :: 0 <= i < |ops| ==> ops[i].kind == Increment && ops[i].value == Undef
    ensures Read(Run(ops, c), Split(path)) == Some(Num(CellNumber(Read(c, Split(path))) + |ops|))
  {
    var ones := seq(|ops|, i => 1);
    TotalOfOnes(ones);
    AddingReads(ops, ones, path, c);
  }

  // ---------- merged increments ----------

  lemma {:induction false} MergedMain(first: Op, rest: seq<Op>, amounts: seq<int>)
    requires (first.kind == Set || first.kind == Increment) && rest != [] && Adding(rest, amounts)
    ensures Main([first] + rest) == first.(value := Num(CellNumber(Some(first.value)) + Total(amounts)))
  {
    var ops, init := [first] + rest, [first] + Init(rest);
    assert Init(ops) == init && Last(ops) == Last(rest);
    if |rest| > 1 {
      MergedMain(first, Init(rest), Init(amounts));
    } else {
      assert init == [first] && Init(amounts) == [];
    }
  }

  lemma {:induction false} MergedAdding(first: Op, rest: seq<Op>, amounts: seq<int>)
    requires (first.kind == Set || first.kind == Increment) && rest != [] && AllOn(rest, first.path)
    requires Adding(rest, amounts)
    ensures CollapseOps([first] + rest) == [first.(value := Num(CellNumber(Some(first.value)) + Total(amounts)))]
  {
    var ops := [first] + rest;
    MergedMain(first, rest, amounts);
    NoArraysLater(ops);
    assert KeysClean(ops);
    OnePathCollapse(ops, first.path);
    assert Collapsed(ops) == [Main(ops)] + [];
  }

  /** Increments after a set or an increment of the same path become one operation, whose value is the number
      of the first one's value plus what the others are worth. */
  lemma {:induction false} MergedTotal(first: Op, rest: seq<Op>, amounts: seq<int>)
    requires (first.kind == Set || first.kind == Increment) && rest != [] && AllOn(rest, first.path)
    requires Increments(rest, amounts)
    ensures CollapseOps([first] + rest) == [first.(value := Num(CellNumber(Some(first.value)) + Total(amounts)))]
  {
    WorthAdding(rest, amounts);
    MergedAdding(first, rest, amounts);
  }

  lemma {:induction false} AddsOnce(first: Op, op: Op)
    requires (first.kind == Set || first.kind == Increment) && op.kind == Increment && op.path == first.path
    ensures CollapseOps([first, op]) == [first.(value := Num(CellNumber(Some(first.value)) + Amount(op.value)))]
  {
    TotalSnoc([], Amount(op.value));
    assert [] + [Amount(op.value)] == [Amount(op.value)] && [first] + [op] == [first, op];
    MergedAdding(first, [op], [Amount(op.value)]);
  }

  /** One merged increment: nothing given means 1, an integer means itself. */
  lemma {:induction false} MergedOnce(first: Op, op: Op, n: int)
    requires (first.kind == Set || first.kind == Increment) && op.kind == Increment && op.path == first.path
    requires Worth(op.value, n)
    ensures CollapseOps([first, op]) == [first.(value := Num(CellNumber(Some(first.value)) + n))]
  {
    AddsOnce(first, op);
    WorthAmount(op.value, n);
  }

  lemma {:induction false} CancelledRun(path: string, n: int, c: Container)
    requires n != 0
    ensures Read(Run([Op(Increment, path, Num(n)), Op(Increment, path, Num(-n))], c), Split(path)) ==
            Some(Num(CellNumber(Read(c, Split(path)))))
  {
    TotalSnoc([], n);
    TotalSnoc([n], -n);
    assert [] + [n] == [n] && [n] + [-n] == [n, -n];
    AddingReads([Op(Increment, path, Num(n)), Op(Increment, path, Num(-n))], [n, -n], path, c);
  }

  /** Increments that cancel: every document shows that the total of 0 is re-read as 1. */
  lemma {:induction false} ZeroTotalBreaks(path: string, n: int, c: Container)
    requires n != 0
    ensures var ops := [Op(Increment, path, Num(n)), Op(Increment, path, Num(-n))];
            var start := CellNumber(Read(c, Split(path)));
            && Read(Run(ops, c), Split(path)) == Some(Num(start))
            && Read(Run(CollapseOps(ops), c), Split(path)) == Some(Num(start + 1))
  {
    CancelledRun(path, n, c);
    AddsOnce(Op(Increment, path, Num(n)), Op(Increment, path, Num(-n)));
    RunOneOp(Op(Increment, path, Num(0)), c);
  }

  lemma {:induction false} BumpedDeleteCollapses(drop: Op, add: Op)
    requires drop.kind == Delete && add.kind == Increment && drop.path == add.path
    ensures CollapseOps([drop, add]) == [add]
  {
    var ops := [drop, add];
    assert Init(ops) == [drop];
    assert Main([drop]) == drop && Later([drop]) == [];
    assert Main(ops) == add && Later(ops) == [];
    OnePathCollapse(ops, add.path);
    assert Collapsed(ops) == [add] + [];
  }

  lemma {:induction false} BumpedDeleteRuns(drop: Op, add: Op, cell: Option<Value>)
    requires drop.kind == Delete && add.kind == Increment
    ensures RunCell([drop, add], cell) == Some(Num(Amount(add.value)))
  {
    RunSnoc([drop], add, cell);
    RunSnoc([], drop, cell);
    assert [drop] + [add] == [drop, add] && [] + [drop] == [drop];
  }

  lemma {:induction false} BumpedDeleteReads(drop: Op, add: Op, c: Container)
    requires drop.kind == Delete && add.kind == Increment && drop.path == add.path
    ensures var p := Split(add.path);
            && Read(Run([drop, add], c), p) == Some(Num(Amount(add.value)))
            && Read(Run(CollapseOps([drop, add]), c), p) == Some(Num(CellNumber(Read(c, p)) + Amount(add.value)))
  {
    OnePathRun([drop, add], add.path, c);
    BumpedDeleteRuns(drop, add, Read(c, Split(add.path)));
    ReadWriteSame(c, Split(add.path), Some(Num(Amount(add.value))), None);
    BumpedDeleteCollapses(drop, add);
    RunOneOp(add, c);
  }

  /** An increment after a delete: the cell should hold what the increment is worth, but the delete is lost
      and the old number counts on. */
  lemma {:induction false} DeletedCounterBreaks(path: string, v: Scalar, w: Scalar, n: int, c: Container)
    requires Worth(w, n)
    ensures var ops := [Op(Delete, path, v), Op(Increment, path, w)];
            && Read(Run(ops, c), Split(path)) == Some(Num(n))
            && Read(Run(CollapseOps(ops), c), Split(path)) == Some(Num(CellNumber(Read(c, Split(path))) + n))
  {
    BumpedDeleteReads(Op(Delete, path, v), Op(Increment, path, w), c);
    WorthAmount(w, n);
  }

  // ---------- sets, deletes, appends, removes ----------

  lemma {:induction false} WithoutIsFilter(items: seq<Value>, v: Value)
    ensures Without(items, v) == Filter((x: Value) => x != v, items)
  {
    if items != [] {
      WithoutIsFilter(items[1..], v);
    }
  }

  /** A set leaves its value, a delete nothing. An append adds its value at the end of an array, or makes an array
      of it alone. A remove keeps the items that differ from its value, and leaves anything but an array alone. */
  lemma {:induction false} OperationLeaves(op: Op, c: Container)
    ensures var before, after := Read(c, Split(op.path)), Read(Run([op], c), Split(op.path));
            var isArray := before.Some? && before.value.Arr?;
            && (op.kind == Set ==> after == Some(op.value))
            && (op.kind == Delete ==> after == None)
            && (op.kind == Append ==>
                  after.Some? && after.value.Arr?
                  && after.value.items == (if isArray then before.value.items else []) + [op.value]
                  && after.value.named == if isArray then before.value.named else map[])
            && (op.kind == Remove && isArray ==>
                  after == Some(Arr(Filter((x: Value) => x != op.value, before.value.items), map[])))
            && (op.kind == Remove && !isArray ==> after == before)
  {
    RunOneOp(op, c);
    var before := Read(c, Split(op.path));
    if op.kind == Remove && before.Some? && before.value.Arr? {
      WithoutIsFilter(before.value.items, op.value);
    }
  }

  // ---------- the way to the cell ----------

  /** Equal in kind, items and all members but one. */
  ghost predicate EqualBut(a: Container, b: Container, k: string) {
    && (a.Arr? <==> b.Arr?) && (a.Arr? ==> a.items == b.items)
    && forall key :: key != k ==> Lookup(a, key) == Lookup(b, key)
  }

  lemma {:induction false} EditKeepsRest(c: Container, parts: seq<string>, op: Op)
    requires parts != []
    ensures EqualBut(c, Edit(c, parts, op), parts[0])
  {
  }

  /** Objects and arrays on the way to the cell keep their items and all other members; anything else on the way
      is replaced by an empty object first. */
  lemma {:induction false} WayIsKept(c: Container, parts: seq<string>, op: Op, n: nat)
    requires 0 < n < |parts|
    ensures var before, after := Read(c, parts[..n]), Read(Edit(c, parts, op), parts[..n]);
            after.Some? && IsContainer(after.value)
            && EqualBut(if before.Some? && IsContainer(before.value) then before.value else Obj(map[]), after.value,
                        parts[n])
    decreases n
  {
    var k, child := parts[0], Child(c, parts[0]);
    var sub := Edit(child, parts[1..], op);
    PutSame(c, k, Some(sub), None);
    assert Child(Edit(c, parts, op), k) == sub;
    if n == 1 {
      EditKeepsRest(child, parts[1..], op);
    } else {
      assert parts[..n][1..] == parts[1..][..n - 1];
      WayIsKept(child, parts[1..], op, n - 1);
    }
  }

  // ---------- the size of a collapsed list ----------

  lemma {:induction false} DedupShort(ops: seq<Op>)
    ensures |Dedup(ops)| <= |ops|
    ensures forall i, j :: 0 <= i < j < |Dedup(ops)| ==> Dedup(ops)[i] != Dedup(ops)[j]
  {
    if ops != [] {
      DedupShort(Init(ops));
    }
  }

  lemma {:induction false} LaterShort(ops: seq<Op>)
    requires ops != []
    ensures |Later(ops)| < |ops|
  {
    if |ops| > 1 {
      LaterShort(Init(ops));
    }
  }

  /** Of a path's operations one is left in front, and behind it each append or remove at most once. */
  lemma {:induction false} CollapsedIsShort(ops: seq<Op>, path: string)
    requires KeysClean(ops)
    ensures var on := On(CollapseOps(ops), path);
            && |on| <= |On(ops, path)|
            && (forall i :: 0 < i < |on| ==> IsArrayOp(on[i]))
            && (forall i, j :: 0 < i < j < |on| ==> on[i] != on[j])
  {
    var own := On(ops, path);
    CollapsePart(ops, path, true);
    if own != [] {
      OffMembers(ops, path);
      assert KeysClean(own) by {
        assert forall o :: o in own ==> o in ops;
      }
      OnePathCollapse(own, path);
      LaterShort(own);
      DedupShort(Later(own));
      DedupKinds(Later(own), Append);
    }
  }
}
