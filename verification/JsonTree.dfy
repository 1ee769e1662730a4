/** JSON-like entity data, JavaScript's numeric coercion, and reading or writing one cell by path. */
module JsonTree {
  import opened Common

  /** Numbers are mathematical integers. An array carries named properties beside its items, because a path
      may walk through it like through any other object. Paths reach an array's named properties only:
      for segments that are indices, or `length`, the theorems about paths do not speak of the program. */
  datatype Value =
    | Undef
    | Null
    | Bool(b: bool)
    | Num(n: int)
    | Str(s: string)
    | Obj(fields: map<string, Value>)
    | Arr(items: seq<Value>, named: map<string, Value>)

  predicate IsContainer(v: Value) { v.Obj? || v.Arr? }

  predicate IsScalar(v: Value) { !IsContainer(v) }

  type Container = v: Value | IsContainer(v) witness Obj(map[])

  type Scalar = v: Value | IsScalar(v) witness Null

  // ---------- coercion ----------

  predicate AllDigits(s: string) {
    forall i :: 0 <= i < |s| ==> '0' <= s[i] <= '9'
  }

  function ParseDigits(s: string): int
    requires AllDigits(s)
  {
    if s == "" then 0
    else 10 * ParseDigits(s[..|s| - 1]) + (s[|s| - 1] as int) - ('0' as int)
  }

  /** `Number(s) || 0` for decimal integer notation; any other text coerces to 0. */
  function ParseNumber(s: string): int {
    if AllDigits(s) then ParseDigits(s)
    else if s[0] == '-' && AllDigits(s[1..]) then 0 - ParseDigits(s[1..])
    else if s[0] == '+' && AllDigits(s[1..]) then ParseDigits(s[1..])
    else 0
  }

  /** `Number(v) || 0`. An array coerces through its joined text, so only a one-item array can be non-zero. */
  function ToNumber(v: Value): int {
    match v
    case Bool(b) => if b then 1 else 0
    case Num(n) => n
    case Str(s) => ParseNumber(s)
    case Arr(items, _) =>
      if |items| != 1 then 0
      else if items[0].Bool? then 0
      else ToNumber(items[0])
    case _ => 0
  }

  /** `Number(v) || 1`, the amount an increment adds. */
  function Amount(v: Value): (n: int)
    ensures n != 0
  {
    if ToNumber(v) == 0 then 1 else ToNumber(v)
  }

  /** `Number(cell) || 0` for a cell that may be missing. */
  function CellNumber(cell: Option<Value>): int {
    if cell.Some? then ToNumber(cell.value) else 0
  }

  // ---------- one container ----------

  function Members(c: Container): map<string, Value> {
    if c.Obj? then c.fields else c.named
  }

  function WithMembers(c: Container, m: map<string, Value>): Container {
    if c.Obj? then Obj(m) else Arr(c.items, m)
  }

  function Lookup(c: Container, k: string): Option<Value> {
    if k in Members(c) then Some(Members(c)[k]) else None
  }

  /** Assign a member, or delete it when there is no value. */
  function Put(c: Container, k: string, o: Option<Value>): Container {
    WithMembers(c, if o.Some? then Members(c)[k := o.value] else Members(c) - {k})
  }

  lemma {:induction false} PutSame(c: Container, k: string, o: Option<Value>, o': Option<Value>)
    ensures Lookup(Put(c, k, o), k) == o
    ensures Put(Put(c, k, o), k, o') == Put(c, k, o')
  {
    assert Members(Put(Put(c, k, o), k, o')) == Members(Put(c, k, o'));
  }

  lemma {:induction false} PutOther(c: Container, k: string, o: Option<Value>, k': string, o': Option<Value>)
    requires k != k'
    ensures Lookup(Put(c, k, o), k') == Lookup(c, k')
    ensures Put(Put(c, k, o), k', o') == Put(Put(c, k', o'), k, o)
  {
    assert Members(Put(Put(c, k, o), k', o')) == Members(Put(Put(c, k', o'), k, o));
  }

  // ---------- paths ----------

  /** `path.split('.')`. */
  function Split(path: string): (parts: seq<string>)
    ensures parts != []
  {
    if path == "" then [""]
    else if path[0] == '.' then [""] + Split(path[1..])
    else var rest := Split(path[1..]); [[path[0]] + rest[0]] + rest[1..]
  }

  function Join(parts: seq<string>): string
    requires parts != []
  {
    if |parts| == 1 then parts[0] else parts[0] + "." + Join(parts[1..])
  }

  lemma {:induction false} PrefixFirst(c: char, parts: seq<string>)
    requires parts != []
    ensures Join([[c] + parts[0]] + parts[1..]) == [c] + Join(parts)
  {
    var longer := [[c] + parts[0]] + parts[1..];
    assert longer[1..] == parts[1..];
    if |parts| > 1 {
      assert ([c] + parts[0]) + "." + Join(parts[1..]) == [c] + (parts[0] + "." + Join(parts[1..]));
    }
  }

  /** Splitting loses nothing: two different path strings never name the same list of segments. */
  lemma {:induction false} JoinSplit(path: string)
    ensures Join(Split(path)) == path
  {
    if path != "" {
      var rest := Split(path[1..]);
      JoinSplit(path[1..]);
      assert path == [path[0]] + path[1..];
      if path[0] == '.' {
        assert ([""] + rest)[1..] == rest;
      } else {
        PrefixFirst(path[0], rest);
      }
    }
  }

  lemma {:induction false} SplitFirst(c: char, parts: seq<string>)
    requires parts != [] && c != '.' && Split(Join(parts)) == parts
    ensures Split(Join([[c] + parts[0]] + parts[1..])) == [[c] + parts[0]] + parts[1..]
  {
    PrefixFirst(c, parts);
    var path := [c] + Join(parts);
    assert path[1..] == Join(parts);
  }

  /** Segments without dots are what their joined path splits into: a path is cut at every dot. */
  lemma {:induction false} SplitJoin(parts: seq<string>)
    requires parts != [] && forall i :: 0 <= i < |parts| ==> '.' !in parts[i]
    ensures Split(Join(parts)) == parts
    decreases |parts|, |parts[0]|
  {
    if parts[0] != "" {
      var shorter := [parts[0][1..]] + parts[1..];
      assert shorter[1..] == parts[1..] && parts[0] == [parts[0][0]] + parts[0][1..];
      assert parts[0][0] in parts[0];
      forall i | 0 <= i < |shorter| ensures '.' !in shorter[i] {
        assert shorter[i] == if i == 0 then parts[0][1..] else parts[i];
      }
      SplitJoin(shorter);
      SplitFirst(parts[0][0], shorter);
      assert [[parts[0][0]] + shorter[0]] + shorter[1..] == parts;
    } else if |parts| > 1 {
      SplitJoin(parts[1..]);
      var path := Join(parts);
      assert path[0] == '.' && path[1..] == Join(parts[1..]);
      assert [""] + parts[1..] == parts;
    }
  }

  /** The child the walk steps into: an existing container, or a fresh object. */
  function Child(c: Container, k: string): Container {
    var o := Lookup(c, k);
    if o.Some? && IsContainer(o.value) then o.value else Obj(map[])
  }

  function Read(c: Container, parts: seq<string>): Option<Value>
    requires parts != []
    decreases |parts|
  {
    if |parts| == 1 then Lookup(c, parts[0]) else Read(Child(c, parts[0]), parts[1..])
  }

  function Write(c: Container, parts: seq<string>, o: Option<Value>): Container
    requires parts != []
    decreases |parts|
  {
    if |parts| == 1 then Put(c, parts[0], o)
    else Put(c, parts[0], Some(Write(Child(c, parts[0]), parts[1..], o)))
  }

  /** Neither path runs through the cell that the other names. */
  predicate Disjoint(p: seq<string>, q: seq<string>) {
    !(p <= q) && !(q <= p)
  }

  lemma {:induction false} ReadWriteSame(c: Container, p: seq<string>, o: Option<Value>, o': Option<Value>)
    requires p != []
    ensures Read(Write(c, p, o), p) == o
    ensures Write(Write(c, p, o), p, o') == Write(c, p, o')
    decreases |p|
  {
    if |p| == 1 {
      PutSame(c, p[0], o, o');
    } else {
      var sub := Write(Child(c, p[0]), p[1..], o);
      var sub' := Write(Child(c, p[0]), p[1..], o');
      ReadWriteSame(Child(c, p[0]), p[1..], o, o');
      PutSame(c, p[0], Some(sub), Some(sub'));
      assert Child(Write(c, p, o), p[0]) == sub;
    }
  }

  lemma {:induction false} TailDisjoint(p: seq<string>, q: seq<string>)
    requires p != [] && q != [] && Disjoint(p, q) && p[0] == q[0]
    ensures |p| > 1 && |q| > 1 && Disjoint(p[1..], q[1..])
  {
    assert |p| == 1 ==> p <= q;
    assert |q| == 1 ==> q <= p;
    assert p == [p[0]] + p[1..] && q == [q[0]] + q[1..];
  }

  /** Writes to disjoint paths do not see each other, and their order is irrelevant. A segment is always a
      member's name: an index into an array, or its `length`, is not modelled, and those do see each other. */
  lemma {:induction false} DisjointWrites(c: Container, p: seq<string>, o: Option<Value>, q: seq<string>,
                                          o': Option<Value>)
    requires p != [] && q != [] && Disjoint(p, q)
    ensures Read(Write(c, p, o), q) == Read(c, q)
    ensures Write(Write(c, p, o), q, o') == Write(Write(c, q, o'), p, o)
    decreases |p|
  {
    var s := if |p| == 1 then o else Some(Write(Child(c, p[0]), p[1..], o));
    var s' := if |q| == 1 then o' else Some(Write(Child(c, q[0]), q[1..], o'));
    if p[0] != q[0] {
      PutOther(c, p[0], s, q[0], s');
      PutOther(c, q[0], s', p[0], s);
      assert Child(Put(c, p[0], s), q[0]) == Child(c, q[0]);
      assert Child(Put(c, q[0], s'), p[0]) == Child(c, p[0]);
    } else {
      TailDisjoint(p, q);
      DisjointWrites(Child(c, p[0]), p[1..], o, q[1..], o');
      var both := Write(s.value, q[1..], o');
      PutSame(c, p[0], s, Some(both));
      PutSame(c, p[0], s', Some(both));
      assert Child(Put(c, p[0], s), q[0]) == s.value;
      assert Child(Put(c, q[0], s'), p[0]) == s'.value;
    }
  }
}
