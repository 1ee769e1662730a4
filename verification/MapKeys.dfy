/** The string keys under which the compressor files operations, and when they cannot collide. */
module MapKeys {
  import opened JsonTree
  import opened Operations

  function DigitsOf(n: nat): (s: string)
    ensures s != "" && AllDigits(s)
  {
    var d := [(n % 10 + '0' as int) as char];
    if n < 10 then d else DigitsOf(n / 10) + d
  }

  function NumberText(n: int): (s: string)
    ensures s != "" && (s[0] == '-' || '0' <= s[0] <= '9')
  {
    if n < 0 then "-" + DigitsOf(-n) else DigitsOf(n)
  }

  function EscapeChar(c: char): string {
    if c == '"' then "\\\""
    else if c == '\\' then "\\\\"
    else if c == '\n' then "\\n"
    else if c == '\r' then "\\r"
    else if c == '\t' then "\\t"
    else [c]
  }

  function Escape(s: string): string {
    if s == "" then "" else EscapeChar(s[0]) + Escape(s[1..])
  }

  /** `JSON.stringify(v)` as it prints inside a template string. */
  function Json(v: Scalar): string {
    match v
    case Undef => "undefined"
    case Null => "null"
    case Bool(b) => if b then "true" else "false"
    case Num(n) => NumberText(n)
    case Str(s) => "\"" + Escape(s) + "\""
  }

  function DerivedKey(op: Op): string {
    op.path + (if op.kind == Append then ":append:" else ":remove:") + Json(op.value)
  }

  /** No two different operations share a derived key, and no derived key equals a path. */
  predicate KeysClean(ops: seq<Op>) {
    && (forall a, b :: a in ops && b in ops && IsArrayOp(a) ==> DerivedKey(a) != b.path)
    && (forall a, b ::
          a in ops && b in ops && IsArrayOp(a) && IsArrayOp(b) && DerivedKey(a) == DerivedKey(b) ==> a == b)
  }

  lemma {:induction false} DigitsRoundTrip(n: nat)
    ensures ParseDigits(DigitsOf(n)) == n
  {
    var s := DigitsOf(n);
    if n < 10 {
      assert s[..|s| - 1] == "";
    } else {
      assert s[..|s| - 1] == DigitsOf(n / 10);
      DigitsRoundTrip(n / 10);
    }
  }

  /** Printing a number and coercing the text gives the number back. */
  lemma {:induction false} NumberRoundTrip(n: int)
    ensures ParseNumber(NumberText(n)) == n
  {
    if n < 0 {
      DigitsRoundTrip(-n);
      assert NumberText(n)[1..] == DigitsOf(-n);
      assert !AllDigits(NumberText(n)) by {
        assert NumberText(n)[0] == '-';
      }
    } else {
      DigitsRoundTrip(n);
    }
  }

  lemma {:induction false} EscapeInjective(s: string, t: string)
    requires Escape(s) == Escape(t)
    ensures s == t
  {
    if s != "" && t != "" {
      var e, f := EscapeChar(s[0]), EscapeChar(t[0]);
      assert (e + Escape(s[1..]))[0] == (f + Escape(t[1..]))[0];
      if |e| == 2 && |f| == 2 {
        assert (e + Escape(s[1..]))[1] == (f + Escape(t[1..]))[1];
      }
      assert s[0] == t[0];
      assert Escape(s[1..]) == Escape(s)[|e|..] == Escape(t)[|f|..] == Escape(t[1..]);
      EscapeInjective(s[1..], t[1..]);
    }
  }

  lemma {:induction false} JsonInjective(v: Scalar, w: Scalar)
    requires Json(v) == Json(w)
    ensures v == w
  {
    assert Json(v)[0] == Json(w)[0];
    match v {
      case Num(n) =>
        NumberRoundTrip(n);
        NumberRoundTrip(w.n);
      case Str(s) =>
        assert Escape(s) == Json(v)[1..|Json(v)| - 1];
        assert Escape(w.s) == Json(w)[1..|Json(w)| - 1];
        EscapeInjective(s, w.s);
      case _ =>
    }
  }

  lemma {:induction false} DerivedKeyInjective(a: Op, b: Op)
    requires IsArrayOp(a) && IsArrayOp(b) && ':' !in a.path && ':' !in b.path
    requires DerivedKey(a) == DerivedKey(b)
    ensures a == b
  {
    var k, l := DerivedKey(a), DerivedKey(b);
    assert k[|a.path|] == ':' && l[|b.path|] == ':';
    assert a.path == k[..|a.path|] && b.path == l[..|b.path|];
    assert k[|a.path| + 1] == if a.kind == Append then 'a' else 'r';
    assert l[|b.path| + 1] == if b.kind == Append then 'a' else 'r';
    assert Json(a.value) == k[|a.path| + 8..] && Json(b.value) == l[|b.path| + 8..];
    JsonInjective(a.value, b.value);
  }

  /** Paths without a colon never collide, whatever the values. */
  lemma {:induction false} ColonFreeKeys(ops: seq<Op>)
    requires forall o :: o in ops ==> ':' !in o.path
    ensures KeysClean(ops)
  {
    forall a, b | a in ops && b in ops && IsArrayOp(a) ensures DerivedKey(a) != b.path {
      assert DerivedKey(a)[|a.path|] == ':';
    }
    forall a, b | a in ops && b in ops && IsArrayOp(a) && IsArrayOp(b) && DerivedKey(a) == DerivedKey(b)
      ensures a == b
    {
      DerivedKeyInjective(a, b);
    }
  }
}
