/**
  The NAS pseudorandom generator: x -> a x (mod 2^46), computed in double precision by splitting
  both factors into 23-bit halves. The seeds and all intermediate values are whole numbers kept
  in doubles; a double holds every whole number of magnitude up to 2^53 exactly.
 */
module Randlc {
  import opened Division
  import opened RandomCycle

  const T23: int := 8388608
  const T46: int := 70368744177664
  const R23: real := 1.0 / 8388608.0
  const R46: real := 1.0 / 70368744177664.0

  /** The C conversion (int) of a double: truncation toward zero, defined when the result fits 32 bits. */
  function Truncate(t: real): (i: int)
    requires -2147483648.0 <= t < 2147483648.0
    ensures 0.0 <= t ==> i == t.Floor
    ensures t < 0.0 ==> i == -((-t).Floor)
  {
    if 0.0 <= t then t.Floor else -((-t).Floor)
  }

  /** A whole number that a double holds exactly. */
  function Exact(i: int): (d: int)
    requires -9007199254740992 <= i <= 9007199254740992
    ensures d == i
  {
    i
  }

  lemma FloorOfScaled(t: int, p: int, r: real)
    requires 0 < p && r == 1.0 / p as real
    ensures (r * t as real).Floor == t / p
  {
    var q, e := t / p, t % p;
    assert t as real == p as real * q as real + e as real;
    assert r * t as real == q as real + e as real / p as real;
    assert 0.0 <= e as real / p as real < 1.0;
  }

  /** The high 23 bits, as the program takes them. */
  method HighHalf(t: int, p: int, r: real) returns (h: int)
    requires 0 < p && r == 1.0 / p as real && 0 <= t / p < 2147483648
    ensures h == t / p
  {
    FloorOfScaled(t, p, r);
    var t1 := r * t as real;
    h := Truncate(t1);
  }

  lemma ProductBound(x: int, y: int, p: int, q: int)
    requires 0 <= x < p && 0 <= y < q
    ensures 0 <= x * y <= (p - 1) * (q - 1)
  {
    assert x * y <= x * (q - 1) <= (p - 1) * (q - 1);
  }

  lemma SplitProduct(a1: int, a2: int, x1: int, x2: int, t2: int, t4: int)
    ensures (T23 * a1 + a2) * (T23 * x1 + x2)
            == T46 * (a1 * x1 + t2 + t4) + (T23 * (a1 * x2 + a2 * x1 - T23 * t2) + a2 * x2 - T46 * t4)
  {}

  /** One draw from the halves of the multiplier; shared by `randlc` and the loop of `vranlc`. */
  method Draw(a: int, a1: int, a2: int, x: int) returns (x': int)
    requires 0 <= a < T46 && a1 == a / T23 && a2 == a % T23 && 0 <= x < T46
    ensures x' == (a * x) % T46
  {
    var x1 := HighHalf(x, T23, R23);
    var x2 := Exact(x - Exact(T23 * x1));
    ProductBound(a1, x2, T23, T23);
    ProductBound(a2, x1, T23, T23);
    ProductBound(a2, x2, T23, T23);
    var t1 := Exact(Exact(a1 * x2) + Exact(a2 * x1));
    var t2 := HighHalf(t1, T23, R23);
    var z := Exact(t1 - Exact(T23 * t2));
    var t3 := Exact(Exact(T23 * z) + Exact(a2 * x2));
    var t4 := HighHalf(t3, T46, R46);
    x' := Exact(t3 - Exact(T46 * t4));
    SplitProduct(a1, a2, x1, x2, t2, t4);
    RestIsUnique(a * x, T46, a1 * x1 + t2 + t4, x');
  }

  /** A seed that every draw updates, as the global `tran` is. */
  class Generator {
    var x: int

    constructor (seed: int)
      ensures x == seed
    {
      x := seed;
    }

    /** `randlc`: advances the seed and returns it scaled to (0, 1). */
    method Randlc(a: int) returns (r: real)
      requires 0 <= a < T46 && 0 <= x < T46
      modifies this
      ensures x == (a * old(x)) % T46
      ensures r == R46 * x as real
    {
      var a1 := HighHalf(a, T23, R23);
      var a2 := Exact(a - Exact(T23 * a1));
      x := Draw(a, a1, a2, x);
      r := R46 * x as real;
    }

    /** `vranlc`: fills `y` with `n` draws; the multiplier is split once. */
    method Vranlc(n: nat, a: int, y: array<real>)
      requires 0 <= a < T46 && 0 <= x < T46 && n <= y.Length
      modifies this, y
      ensures x == Iterate(a, old(x), n)
      ensures forall i :: 0 <= i < n ==> y[i] == R46 * Iterate(a, old(x), i + 1) as real
      ensures forall i :: n <= i < y.Length ==> y[i] == old(y[i])
    {
      var a1 := HighHalf(a, T23, R23);
      var a2 := Exact(a - Exact(T23 * a1));
      var s := x;
      for i := 0 to n
        invariant s == Iterate(a, old(x), i) && x == old(x)
        invariant forall j :: 0 <= j < i ==> y[j] == R46 * Iterate(a, old(x), j + 1) as real
        invariant forall j :: i <= j < y.Length ==> y[j] == old(y[j])
      {
        s := Draw(a, a1, a2, s);
        y[i] := R46 * s as real;
      }
      x := s;
    }
  }

  /** The seed after `n` draws. */
  function Iterate(a: int, x: int, n: nat): (x': int)
    requires 0 <= x < T46
    ensures 0 <= x' < T46
  {
    if n == 0 then x else (a * Iterate(a, x, n - 1)) % T46
  }

  // ----- the sequence of seeds -----

  lemma Pow2Values()
    ensures Pow2(3) == 8 && Pow2(43) == 8796093022208 && Pow2(44) == 17592186044416 && Pow2(46) == T46
  {
    assert Pow2(3) == 8 && Pow2(10) == 1024 by {
      assert Pow2(5) == 32;
      Pow2Add(5, 5);
    }
    Pow2Add(10, 10);
    Pow2Add(20, 20);
    Pow2Add(40, 3);
    Pow2Add(43, 1);
    Pow2Add(43, 3);
    assert Pow2(1) == 2;
  }

  lemma ModularProduct(a: int, y: int, p: int)
    requires p > 0
    ensures (a * (y % p)) % p == (a * y) % p
  {
    var q, r := y / p, y % p;
    var r' := (a * r) % p;
    assert a * y == a * (p * q) + a * r by { assert y == p * q + r; }
    assert a * (p * q) == p * (a * q);
    assert a * r == p * (a * r / p) + r';
    assert a * y == p * (a * q + a * r / p) + r' by { assert p * (a * q + a * r / p) == p * (a * q) + p * (a * r / p); }
    RestIsUnique(a * y, p, a * q + a * r / p, r');
  }

  /** The n-th seed is a^n x modulo 2^46. */
  lemma {:induction false} IterateIsPower(a: int, x: int, n: nat)
    requires 0 <= x < T46
    ensures Iterate(a, x, n) == (Pow(a, n) * x) % T46
  {
    if n == 0 {
    } else {
      IterateIsPower(a, x, n - 1);
      PowStep(a, n);
      hide Pow;
      ModularProduct(a, Pow(a, n - 1) * x, T46);
      Associate(a, Pow(a, n - 1), x);
    }
  }

  lemma {:induction false} IterateAdd(a: int, x: int, m: nat, n: nat)
    requires 0 <= x < T46
    ensures Iterate(a, Iterate(a, x, m), n) == Iterate(a, x, m + n)
  {
    if n == 0 {
    } else {
      IterateAdd(a, x, m, n - 1);
    }
  }

  lemma OddModEven(y: int)
    requires Odd(y)
    ensures Odd(y % T46)
  {
    var h, r := 35184372088832 * (y / T46), y % T46;
    assert y == 2 * h + r;
    SameParity(y, h, r);
  }

  lemma SameParity(y: int, h: int, r: int)
    requires y == 2 * h + r
    ensures Odd(y) <==> Odd(r)
  {}

  /** From an odd seed and multiplier every seed is odd, so every draw lies strictly between 0 and 1. */
  lemma {:induction false} SeedsStayOdd(a: int, x: int, n: nat)
    requires 0 <= x < T46 && Odd(x) && Odd(a)
    ensures Odd(Iterate(a, x, n)) && 0.0 < R46 * Iterate(a, x, n) as real < 1.0
  {
    if n > 0 {
      SeedsStayOdd(a, x, n - 1);
      OddTimesOdd(a, Iterate(a, x, n - 1));
      OddModEven(a * Iterate(a, x, n - 1));
    }
  }

  /** A multiplier that is 5 modulo 8 has the form 1 + 2^2 u with u odd; its square 1 + 2^3 u'. */
  lemma MultiplierForms(a: int) returns (u: int, u': int)
    requires a % 8 == 5
    ensures a == 1 + Pow2(2) * u && Odd(u)
    ensures a * a == 1 + Pow2(3) * u' && Odd(u')
  {
    u := a / 4;
    assert Pow2(2) == 4 by { assert Pow2(1) == 2; }
    u' := SquareLifts(a, 2, u);
  }

  lemma CongruentRest(y: int, x: int, p: int)
    requires p > 0 && 0 <= x < p
    ensures y % p == x <==> Divides(p, y - x)
  {
    var q, r := y / p, y % p;
    var q', r' := (y - x) / p, (y - x) % p;
    assert y == p * q + r && y - x == p * q' + r';
    if r == x {
      RestIsUnique(y - x, p, q, 0);
    }
    if r' == 0 {
      RestIsUnique(y, p, q', x);
    }
  }

  /** The generator's period is exactly 2^44: the seed returns after n draws just when 2^44 divides n. */
  lemma PeriodIsExact(a: int, x: int, n: nat)
    requires a % 8 == 5 && 0 <= x < T46 && Odd(x)
    ensures Iterate(a, x, n) == x <==> n % 17592186044416 == 0
  {
    Pow2Values();
    var u, u' := MultiplierForms(a);
    IterateIsPower(a, x, n);
    CongruentRest(Pow(a, n) * x, x, T46);
    hide Pow, Pow2, Iterate;
    CycleLength(a, 2, u, x, 46, n);
  }

  /** Taking every second draw, each seed congruent to x modulo 8 is met, after fewer than 2^43 pairs. */
  lemma PairsReach(a: int, x: int, y: int) returns (d: nat)
    requires a % 8 == 5 && 0 <= x < T46 && 0 <= y < T46 && Odd(x) && y % 8 == x % 8
    ensures d < 8796093022208 && Iterate(a, x, 2 * d) == y
  {
    Pow2Values();
    var u, u' := MultiplierForms(a);
    hide Pow2;
    assert Divides(Pow2(3), y - x);
    var q;
    d, q := OrbitReaches(a * a, 3, u', x, y, 46);
    PowMul(a, 2, d);
    assert Pow(a, 2) == a * a by { PowStep(a, 2); PowStep(a, 1); }
    hide Pow;
    IterateIsPower(a, x, 2 * d);
    RestIsUnique(Pow(a, 2 * d) * x, T46, q, y);
  }
}
