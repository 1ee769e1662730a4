/** Options, filters and the stable sort that several components share. */
module Common {

  datatype Option<+T> = None | Some(value: T)

  const TWO_32 := 0x1_0000_0000

  // ---------- the ends of a sequence ----------

  function Init<T>(s: seq<T>): seq<T>
    requires s != []
  {
    s[..|s| - 1]
  }

  function Last<T>(s: seq<T>): T
    requires s != []
  {
    s[|s| - 1]
  }

  // ---------- filtering ----------

  function Filter<T(!new)>(keep: T -> bool, s: seq<T>): (r: seq<T>)
    ensures |r| <= |s|
  {
    if s == [] then [] else if keep(s[0]) then [s[0]] + Filter(keep, s[1..]) else Filter(keep, s[1..])
  }

  lemma {:induction false} FilterMembers<T(!new)>(keep: T -> bool, s: seq<T>)
    ensures forall x :: x in Filter(keep, s) <==> x in s && keep(x)
  {
    if s != [] {
      FilterMembers(keep, s[1..]);
      assert forall x :: x in s <==> x == s[0] || x in s[1..];
    }
  }

  lemma {:induction false} FilterStep<T(!new)>(keep: T -> bool, s: seq<T>, i: nat)
    requires i < |s|
    ensures Filter(keep, s[i..]) == (if keep(s[i]) then [s[i]] else []) + Filter(keep, s[i + 1..])
  {
    assert s[i..][0] == s[i] && s[i..][1..] == s[i + 1..];
  }

  lemma {:induction false} FilterAll<T(!new)>(keep: T -> bool, s: seq<T>)
    requires forall x :: x in s ==> keep(x)
    ensures Filter(keep, s) == s
  {
    if s != [] {
      FilterAll(keep, s[1..]);
    }
  }

  // ---------- strings ----------

  /** String comparison, character by character. */
  predicate LexLe(s: string, t: string) {
    s == "" || (t != "" && (s[0] < t[0] || (s[0] == t[0] && LexLe(s[1..], t[1..]))))
  }

  lemma {:induction false} LexOrder(s: string, t: string, u: string)
    ensures LexLe(s, t) || LexLe(t, s)
    ensures LexLe(s, t) && LexLe(t, s) ==> s == t
    ensures LexLe(s, t) && LexLe(t, u) ==> LexLe(s, u)
  {
    if s != "" && t != "" {
      assert s == [s[0]] + s[1..] && t == [t[0]] + t[1..];
      LexOrder(s[1..], t[1..], if u == "" then "" else u[1..]);
    }
  }

  // ---------- stable sorting ----------

  /** `Array.prototype.sort`: a stable sort by a total preorder. */
  ghost predicate TotalPreorder<T(!new)>(le: (T, T) -> bool) {
    && (forall x, y :: le(x, y) || le(y, x))
    && (forall x, y, z :: le(x, y) && le(y, z) ==> le(x, z))
  }

  ghost predicate Sorted<T>(le: (T, T) -> bool, s: seq<T>) {
    forall i, j :: 0 <= i < j < |s| ==> le(s[i], s[j])
  }

  function Insert<T>(le: (T, T) -> bool, x: T, s: seq<T>): seq<T> {
    if s == [] || le(x, s[0]) then [x] + s else [s[0]] + Insert(le, x, s[1..])
  }

  function Sort<T>(le: (T, T) -> bool, s: seq<T>): seq<T> {
    if s == [] then [] else Insert(le, s[0], Sort(le, s[1..]))
  }

  lemma {:induction false} InsertPermutes<T>(le: (T, T) -> bool, x: T, s: seq<T>)
    ensures multiset(Insert(le, x, s)) == multiset{x} + multiset(s)
    ensures |Insert(le, x, s)| == |s| + 1
  {
    if s != [] && !le(x, s[0]) {
      InsertPermutes(le, x, s[1..]);
      assert s == [s[0]] + s[1..];
    }
  }

  lemma {:induction false} SortPermutes<T(!new)>(le: (T, T) -> bool, s: seq<T>)
    ensures multiset(Sort(le, s)) == multiset(s)
    ensures |Sort(le, s)| == |s|
    ensures forall x :: x in Sort(le, s) <==> x in s
  {
    if s != [] {
      SortPermutes(le, s[1..]);
      InsertPermutes(le, s[0], Sort(le, s[1..]));
      assert s == [s[0]] + s[1..];
    }
    assert forall x :: x in Sort(le, s) <==> x in multiset(Sort(le, s));
  }

  lemma {:induction false} InsertSorts<T(!new)>(le: (T, T) -> bool, x: T, s: seq<T>)
    requires TotalPreorder(le) && Sorted(le, s)
    ensures Sorted(le, Insert(le, x, s))
  {
    if s != [] && !le(x, s[0]) {
      var rest := Insert(le, x, s[1..]);
      InsertSorts(le, x, s[1..]);
      InsertPermutes(le, x, s[1..]);
      forall j | 0 <= j < |rest| ensures le(s[0], rest[j]) {
        assert rest[j] in multiset(rest);
        assert rest[j] == x || rest[j] in s[1..];
      }
    }
  }

  lemma {:induction false} SortSorts<T(!new)>(le: (T, T) -> bool, s: seq<T>)
    requires TotalPreorder(le)
    ensures Sorted(le, Sort(le, s))
  {
    if s != [] {
      SortSorts(le, s[1..]);
      InsertSorts(le, s[0], Sort(le, s[1..]));
    }
  }

  /** Sorting moves nothing that is already in order: the stability every caller relies on. */
  lemma {:induction false} SortKeepsSorted<T>(le: (T, T) -> bool, s: seq<T>)
    requires Sorted(le, s)
    ensures Sort(le, s) == s
  {
    if s != [] {
      SortKeepsSorted(le, s[1..]);
      assert s == [s[0]] + s[1..];
      assert s[1..] == [] || le(s[0], s[1]);
    }
  }

  /** The order never ties two distinct elements of `m`. */
  ghost predicate Antisymmetric<T(!new)>(le: (T, T) -> bool, m: multiset<T>) {
    forall x, y :: x in m && y in m && le(x, y) && le(y, x) ==> x == y
  }

  lemma {:induction false} HeadIsLeast<T(!new)>(le: (T, T) -> bool, a: seq<T>, x: T)
    requires Sorted(le, a) && x in multiset(a)
    ensures a != [] && (a[0] == x || le(a[0], x))
  {
    var j :| 0 <= j < |a| && a[j] == x;
  }

  lemma {:induction false} TailFacts<T(!new)>(le: (T, T) -> bool, a: seq<T>)
    requires Sorted(le, a) && a != []
    ensures Sorted(le, a[1..])
    ensures multiset(a[1..]) == multiset(a) - multiset{a[0]}
  {
    assert a == [a[0]] + a[1..];
  }

  lemma {:induction false} AntisymmetricBelow<T(!new)>(le: (T, T) -> bool, m: multiset<T>, x: T)
    requires Antisymmetric(le, m)
    ensures Antisymmetric(le, m - multiset{x})
  {
    forall y, z | y in m - multiset{x} && z in m - multiset{x} && le(y, z) && le(z, y) ensures y == z {
      assert y in m && z in m;
    }
  }

  lemma {:induction false} HeadsAgree<T(!new)>(le: (T, T) -> bool, a: seq<T>, b: seq<T>)
    requires Sorted(le, a) && Sorted(le, b) && multiset(a) == multiset(b) && a != []
    requires Antisymmetric(le, multiset(a))
    ensures b != [] && a[0] == b[0]
  {
    assert a[0] in multiset(b);
    HeadIsLeast(le, b, a[0]);
    assert b[0] in multiset(a);
    HeadIsLeast(le, a, b[0]);
  }

  lemma {:induction false} TailsMatch<T(!new)>(le: (T, T) -> bool, a: seq<T>, b: seq<T>)
    requires Sorted(le, a) && Sorted(le, b) && multiset(a) == multiset(b) && a != []
    requires Antisymmetric(le, multiset(a))
    ensures b != [] && a[0] == b[0] && Sorted(le, a[1..]) && Sorted(le, b[1..])
    ensures multiset(a[1..]) == multiset(b[1..]) && Antisymmetric(le, multiset(a[1..]))
  {
    HeadsAgree(le, a, b);
    TailFacts(le, a);
    TailFacts(le, b);
    AntisymmetricBelow(le, multiset(a), a[0]);
  }

  /** Two sorted arrangements of the same elements are equal: enumeration order cannot matter. */
  lemma {:induction false} SortedUnique<T(!new)>(le: (T, T) -> bool, a: seq<T>, b: seq<T>)
    requires Sorted(le, a) && Sorted(le, b) && multiset(a) == multiset(b)
    requires Antisymmetric(le, multiset(a))
    ensures a == b
  {
    if a == [] {
      assert |multiset(b)| == |b|;
    } else {
      TailsMatch(le, a, b);
      SortedUnique(le, a[1..], b[1..]);
      assert a == [a[0]] + a[1..] && b == [b[0]] + b[1..];
    }
  }

  lemma {:induction false} LastIsGreatest<T(!new)>(le: (T, T) -> bool, s: seq<T>)
    requires TotalPreorder(le) && s != []
    ensures Sort(le, s) != [] && Last(Sort(le, s)) in s
    ensures forall x :: x in s ==> le(x, Last(Sort(le, s)))
  {
    SortSorts(le, s);
    SortPermutes(le, s);
    var sorted := Sort(le, s);
    forall x | x in s ensures le(x, Last(sorted)) {
      var i :| 0 <= i < |sorted| && sorted[i] == x;
      assert i < |sorted| - 1 ==> le(sorted[i], sorted[|sorted| - 1]);
      assert le(x, x) || le(x, x);
    }
  }

  /** So sorting any arrangement of them gives the one sorted list. */
  lemma {:induction false} SortToUnique<T(!new)>(le: (T, T) -> bool, s: seq<T>, want: seq<T>)
    requires TotalPreorder(le) && Sorted(le, want) && Antisymmetric(le, multiset(want))
    requires multiset(s) == multiset(want)
    ensures Sort(le, s) == want
  {
    SortSorts(le, s);
    SortPermutes(le, s);
    SortedUnique(le, want, Sort(le, s));
  }
}
