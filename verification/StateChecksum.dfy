/** The snapshot checksum: a wrapped polynomial hash, and changes it is sure to notice. */
module StateChecksum {
  import opened Common

  const TWO_31 := 0x8000_0000

  /** A UTF-16 code unit. */
  type Unit = n: int | 0 <= n < 0x1_0000

  /** Conversion to a signed 32-bit integer, as bit operators perform it. */
  function ToInt32(x: int): (r: int)
    ensures -TWO_31 <= r < TWO_31
  {
    var m := x % TWO_32;
    if m >= TWO_31 then m - TWO_32 else m
  }

  /** One round of the loop: shift, subtract, add, wrap. */
  function Round(hash: int, unit: Unit): int {
    ToInt32((ToInt32(hash * 32) - hash) + unit)
  }

  function Hash(units: seq<Unit>): int {
    if units == [] then 0 else Round(Hash(units[..|units| - 1]), units[|units| - 1])
  }

  /** The base-31 polynomial. */
  function Poly(units: seq<Unit>): int {
    if units == [] then 0 else 31 * Poly(units[..|units| - 1]) + units[|units| - 1]
  }

  /** `x` and `y` agree modulo 2^32, with the quotient as a witness. */
  predicate Congruent(x: int, y: int) {
    (x - y) % TWO_32 == 0
  }

  lemma {:induction false} CongruentBy(x: int, y: int, k: int)
    requires x - y == TWO_32 * k
    ensures Congruent(x, y)
  {
  }

  lemma {:induction false} ToInt32Congruent(x: int) returns (k: int)
    ensures x - ToInt32(x) == TWO_32 * k
  {
    k := x / TWO_32;
    if x % TWO_32 >= TWO_31 {
      k := k + 1;
    }
  }

  /** Wrapping identifies exactly the congruent numbers. */
  lemma {:induction false} ToInt32Iff(x: int, y: int)
    ensures ToInt32(x) == ToInt32(y) <==> Congruent(x, y)
  {
    var k := ToInt32Congruent(x);
    var l := ToInt32Congruent(y);
    if ToInt32(x) == ToInt32(y) {
      CongruentBy(x, y, k - l);
    }
    if Congruent(x, y) {
      var q := (x - y) / TWO_32;
      assert ToInt32(x) - ToInt32(y) == TWO_32 * (q - k + l);
    }
  }

  lemma {:induction false} RoundStep(p: int, unit: Unit)
    ensures Round(ToInt32(p), unit) == ToInt32(31 * p + unit)
  {
    var h := ToInt32(p);
    var k := ToInt32Congruent(h * 32);
    var l := ToInt32Congruent(p);
    assert (31 * p + unit) - (ToInt32(h * 32) - h + unit) == TWO_32 * (31 * l + k);
    CongruentBy(31 * p + unit, ToInt32(h * 32) - h + unit, 31 * l + k);
    ToInt32Iff(31 * p + unit, ToInt32(h * 32) - h + unit);
  }

  /** The shift-subtract-wrap loop computes the polynomial, wrapped once at the end. */
  lemma {:induction false} HashIsPoly(units: seq<Unit>)
    ensures Hash(units) == ToInt32(Poly(units))
  {
    if units != [] {
      var init, unit := units[..|units| - 1], units[|units| - 1];
      HashIsPoly(init);
      RoundStep(Poly(init), unit);
    }
  }

  // ---------- powers of 31 are invertible ----------

  const INVERSE := 3186588639

  lemma {:induction false} Cancel31(x: int)
    requires (31 * x) % TWO_32 == 0
    ensures x % TWO_32 == 0
  {
    var q := (31 * x) / TWO_32;
    assert 31 * x == TWO_32 * q;
    assert INVERSE * 31 == TWO_32 * 23 + 1;
    assert x == TWO_32 * (INVERSE * q - 23 * x);
    CongruentBy(x, 0, INVERSE * q - 23 * x);
  }

  /** A difference that is not a multiple of 2^32 survives any common suffix. */
  lemma {:induction false} SuffixKeepsDifference(a: seq<Unit>, b: seq<Unit>, suffix: seq<Unit>)
    requires !Congruent(Poly(a), Poly(b))
    ensures !Congruent(Poly(a + suffix), Poly(b + suffix))
  {
    if suffix == [] {
      assert a + suffix == a && b + suffix == b;
    } else {
      var init := suffix[..|suffix| - 1];
      SuffixKeepsDifference(a, b, init);
      assert (a + suffix)[..|a + suffix| - 1] == a + init && (b + suffix)[..|b + suffix| - 1] == b + init;
      var d := Poly(a + init) - Poly(b + init);
      assert Poly(a + suffix) - Poly(b + suffix) == 31 * d;
      if (31 * d) % TWO_32 == 0 {
        Cancel31(d);
      }
    }
  }

  lemma {:induction false} HashesDiffer(a: seq<Unit>, b: seq<Unit>, suffix: seq<Unit>)
    requires !Congruent(Poly(a), Poly(b))
    ensures Hash(a + suffix) != Hash(b + suffix)
  {
    SuffixKeepsDifference(a, b, suffix);
    HashIsPoly(a + suffix);
    HashIsPoly(b + suffix);
    ToInt32Iff(Poly(a + suffix), Poly(b + suffix));
  }

  /** Changing exactly one unit of a stream always changes its hash. */
  lemma {:induction false} OneUnitChangesHash(units: seq<Unit>, i: nat, unit: Unit)
    requires i < |units| && units[i] != unit
    ensures Hash(units[i := unit]) != Hash(units)
  {
    var a, b := units[..i] + [units[i]], units[..i] + [unit];
    assert units == a + units[i + 1..] && units[i := unit] == b + units[i + 1..];
    assert a[..|a| - 1] == units[..i] && b[..|b| - 1] == units[..i];
    assert Poly(a) - Poly(b) == units[i] - unit;
    HashesDiffer(a, b, units[i + 1..]);
  }

  /** So does swapping two different neighbours. */
  lemma {:induction false} SwapChangesHash(units: seq<Unit>, i: nat)
    requires i + 1 < |units| && units[i] != units[i + 1]
    ensures Hash(units[i := units[i + 1]][i + 1 := units[i]]) != Hash(units)
  {
    var x: int, y: int := units[i], units[i + 1];
    var front, rest := units[..i], units[i + 2..];
    var a, b := front + [x] + [y], front + [y] + [x];
    assert units == a + rest && units[i := y][i + 1 := x] == b + rest;
    assert (front + [x])[..i] == front && (front + [y])[..i] == front;
    assert a[..i + 1] == front + [x] && b[..i + 1] == front + [y];
    assert Poly(a) - Poly(b) == 30 * (x - y);
    HashesDiffer(a, b, rest);
  }

  // ---------- the computation ----------

  function Stream(descriptors: seq<seq<Unit>>): seq<Unit> {
    if descriptors == [] then [] else Stream(descriptors[..|descriptors| - 1]) + descriptors[|descriptors| - 1]
  }

  /** The stream is the descriptors one after the other. */
  lemma {:induction false} StreamInOrder(a: seq<seq<Unit>>, b: seq<seq<Unit>>, d: seq<Unit>)
    ensures Stream([]) == [] && Stream([d]) == d && Stream(a + b) == Stream(a) + Stream(b)
  {
    assert [d][..0] == [];
    if b == [] {
      assert a + b == a;
    } else {
      assert (a + b)[..|a + b| - 1] == a + b[..|b| - 1];
      StreamInOrder(a, b[..|b| - 1], d);
    }
  }

  lemma {:induction false} HashSnoc(before: seq<Unit>, str: seq<Unit>, i: nat)
    requires i < |str|
    ensures Hash(before + str[..i + 1]) == Round(Hash(before + str[..i]), str[i])
  {
    var longer := before + str[..i + 1];
    assert longer[..|longer| - 1] == before + str[..i];
  }

  /** One descriptor per entity, in the map's order; nothing separates them in the hash. */
  method ComputeChecksum(descriptors: seq<seq<Unit>>) returns (hash: int)
    ensures hash == ToInt32(Poly(Stream(descriptors)))
  {
    hash := 0;
    for e := 0 to |descriptors|
      invariant hash == Hash(Stream(descriptors[..e]))
    {
      var str := descriptors[e];
      ghost var before := Stream(descriptors[..e]);
      assert before + str[..0] == before;
      for i := 0 to |str|
        invariant hash == Hash(before + str[..i])
      {
        HashSnoc(before, str, i);
        hash := ToInt32(hash * 32) - hash + str[i];
        hash := ToInt32(hash);
      }
      assert str[..|str|] == str && descriptors[..e + 1][..e] == descriptors[..e];
    }
    assert descriptors[..|descriptors|] == descriptors;
    HashIsPoly(Stream(descriptors));
  }
}
