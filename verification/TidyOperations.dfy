/** A form of operation list that can be recognised at a glance and always collapses safely. */
module TidyOperations {
  import opened Common
  import opened JsonTree
  import opened Operations
  import opened MapKeys
  import opened CellCollapse
  import opened Collapse
  import opened CollapseTheorems

  /** Appends and removes come last, and no two of them are the same. */
  predicate ArraysLast(ops: seq<Op>) {
    forall i, j :: 0 <= i < j < |ops| && IsArrayOp(ops[i]) ==> IsArrayOp(ops[j]) && ops[i] != ops[j]
  }

  predicate NoBumpedDelete(ops: seq<Op>) {
    forall i :: 0 < i < |ops| && ops[i].kind == Increment ==> ops[i - 1].kind != Delete
  }

  /** Appends and removes come last and are pairwise different, no increment directly follows a delete,
      and increments with no set before them keep their total. */
  predicate Tidy(ops: seq<Op>)
    requires ops != []
  {
    && ArraysLast(ops) && NoBumpedDelete(ops)
    && (Anchor(ops).kind == Increment ==> TotalSurvives(ToNumber(Anchor(ops).value), Sum(ops)))
  }

  lemma {:induction false} NoArraysLater(ops: seq<Op>)
    requires forall i :: 0 <= i < |ops| ==> !IsArrayOp(ops[i])
    ensures Later(ops) == []
  {
    if |ops| > 1 {
      NoArraysLater(Init(ops));
    }
  }

  lemma {:induction false} LaterIsTail(ops: seq<Op>)
    requires ArraysLast(ops)
    ensures Later(ops) == Tail(ops)
  {
    if |ops| > 1 {
      assert ArraysLast(Init(ops));
      if IsArrayOp(Last(ops)) {
        LaterIsTail(Init(ops));
      } else {
        NoArraysLater(Init(ops));
      }
    }
  }

  lemma {:induction false} DistinctSurvivors(ops: seq<Op>)
    requires forall i, j :: 0 <= i < j < |ops| ==> ops[i] != ops[j]
    ensures Survivors(ops, true) == Survivors(ops, false)
  {
    forall j | 0 <= j < |ops| ensures First(ops, j) {
    }
    assert Kept(ops, true) == Kept(ops, false);
  }

  lemma {:induction false} TidyAnchor(ops: seq<Op>)
    requires ops != [] && ArraysLast(ops) && NoBumpedDelete(ops) && Bumped(ops)
    ensures Anchor(ops).kind == Set || Anchor(ops).kind == Increment
  {
    var init := Init(ops);
    assert ArraysLast(init) && NoBumpedDelete(init);
    if Bumped(init) {
      TidyAnchor(init);
    } else {
      assert Last(ops).kind == Increment;
      assert !IsArrayOp(Last(init)) && Last(init).kind != Delete;
      assert Anchor(init) == Last(init);
    }
  }

  lemma {:induction false} HeadTail(ops: seq<Op>)
    requires ops != []
    ensures ops == Head(ops) + Tail(ops)
  {
    if |ops| > 1 && IsArrayOp(Last(ops)) {
      HeadTail(Init(ops));
    }
  }

  lemma {:induction false} SuffixDistinct(head: seq<Op>, tail: seq<Op>)
    requires ArraysLast(head + tail) && forall i :: 0 <= i < |tail| ==> IsArrayOp(tail[i])
    ensures forall i, j :: 0 <= i < j < |tail| ==> tail[i] != tail[j]
  {
    forall i, j | 0 <= i < j < |tail| ensures tail[i] != tail[j] {
      assert (head + tail)[|head| + i] == tail[i] && (head + tail)[|head| + j] == tail[j];
    }
  }

  lemma {:induction false} TidyTail(ops: seq<Op>)
    requires ops != [] && ArraysLast(ops)
    ensures Survivors(Tail(ops), true) == Survivors(Tail(ops), false)
  {
    HeadTail(ops);
    SuffixDistinct(Head(ops), Tail(ops));
    DistinctSurvivors(Tail(ops));
  }

  /** Tidy operations pass the test. */
  lemma {:induction false} TidyIsExact(ops: seq<Op>)
    requires ops != [] && Tidy(ops)
    ensures Exact(ops)
  {
    LaterIsTail(ops);
    TidyTail(ops);
    if !HasKind(Later(ops), Append) && Bumped(ops) {
      TidyAnchor(ops);
    }
  }

  /** Tidy operations on every path, and no edit of an overlapping path in between:
      collapsing preserves every document. */
  lemma {:induction false} TidyCollapses(ops: seq<Op>, c: Container)
    requires KeysClean(ops) && Separable(ops)
    requires forall o :: o in ops ==> On(ops, o.path) == [] || Tidy(On(ops, o.path))
    ensures Run(CollapseOps(ops), c) == Run(ops, c)
  {
    forall i | 0 <= i < |ops| ensures ExactOn(ops, ops[i].path) {
      assert ops[i] in ops;
      if On(ops, ops[i].path) != [] {
        TidyIsExact(On(ops, ops[i].path));
      }
    }
    CollapsePreserves(ops, c);
  }
}
