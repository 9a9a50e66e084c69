/**
  Multiplication modulo a power of two: how long x -> b x (mod 2^n) takes to return, and
  which residues it visits, for a multiplier b = 1 + 2^k u with u odd and k at least 2.
 */
module RandomCycle {
  import opened Division

  function Pow2(n: nat): (p: nat)
    ensures p > 0
  {
    if n == 0 then 1 else 2 * Pow2(n - 1)
  }

  function Pow(b: int, n: nat): int {
    if n == 0 then 1 else b * Pow(b, n - 1)
  }

  predicate Odd(x: int) { x % 2 == 1 }

  predicate Divides(p: int, x: int)
    requires p > 0
  {
    x % p == 0
  }

  lemma {:induction false} Pow2Add(m: nat, n: nat)
    ensures Pow2(m + n) == Pow2(m) * Pow2(n)
  {
    if m == 0 {
    } else {
      Pow2Add(m - 1, n);
      assert Pow2(m + n) == 2 * (Pow2(m - 1) * Pow2(n)) == (2 * Pow2(m - 1)) * Pow2(n);
    }
  }

  lemma {:induction false} PowAdd(b: int, m: nat, n: nat)
    ensures Pow(b, m + n) == Pow(b, m) * Pow(b, n)
  {
    if m == 0 {
    } else {
      PowAdd(b, m - 1, n);
      assert b * (Pow(b, m - 1) * Pow(b, n)) == (b * Pow(b, m - 1)) * Pow(b, n);
    }
  }

  lemma {:induction false} PowMul(b: int, m: nat, n: nat)
    ensures Pow(b, m * n) == Pow(Pow(b, m), n)
  {
    if n == 0 {
    } else {
      PowMul(b, m, n - 1);
      assert m * n == m + m * (n - 1);
      PowAdd(b, m, m * (n - 1));
    }
  }

  lemma OddTimesOdd(x: int, y: int)
    requires Odd(x) && Odd(y)
    ensures Odd(x * y)
  {
    var p, q := x / 2, y / 2;
    var h := 2 * (p * q) + p + q;
    assert x == 2 * p + 1 && y == 2 * q + 1;
    hide Odd;
    OddIdentity(p, q);
    OddByHalf(x * y, h);
  }

  lemma OddByHalf(x: int, h: int)
    requires x == 2 * h + 1
    ensures Odd(x)
  {}

  lemma OddIdentity(p: int, q: int)
    ensures (2 * p + 1) * (2 * q + 1) == 2 * (2 * (p * q) + p + q) + 1
  {}

  lemma OddAlternates(m: int)
    ensures Odd(m) <==> !Odd(m - 1)
  {}

  lemma {:induction false} OddPow(b: int, n: nat)
    requires Odd(b)
    ensures Odd(Pow(b, n))
  {
    if n == 0 {
    } else {
      OddPow(b, n - 1);
      OddTimesOdd(b, Pow(b, n - 1));
    }
  }

  lemma SquareIdentity(h: int, u: int)
    ensures (1 + 4 * h * u) * (1 + 4 * h * u) == 1 + 8 * h * (u + 2 * (h * (u * u)))
  {}

  lemma SquareOfShifted(p: int, h: int, b: int, u: int) returns (u': int)
    requires p == 4 * h && b == 1 + p * u && Odd(u)
    ensures b * b == 1 + 2 * p * u' && Odd(u')
  {
    var e := h * (u * u);
    u' := u + 2 * e;
    SquareIdentity(h, u);
  }

  /** Squaring raises the power of two in `b - 1` by exactly one. */
  lemma SquareLifts(b: int, k: nat, u: int) returns (u': int)
    requires 2 <= k && b == 1 + Pow2(k) * u && Odd(u)
    ensures b * b == 1 + Pow2(k + 1) * u' && Odd(u')
  {
    Pow2Step(k + 1);
    Pow2Step(k);
    Pow2Step(k - 1);
    hide Pow2, Odd;
    u' := SquareOfShifted(Pow2(k), Pow2(k - 2), b, u);
  }

  lemma Pow2Step(n: nat)
    requires 0 < n
    ensures Pow2(n) == 2 * Pow2(n - 1)
  {}

  lemma PowStep(b: int, n: nat)
    requires 0 < n
    ensures Pow(b, n) == b * Pow(b, n - 1)
  {}

  lemma ShiftedProduct(h: int, u: int, w: int)
    ensures (1 + 2 * h * u) * (1 + 2 * h * w) == 1 + 2 * h * (u + w + 2 * (h * (u * w)))
  {}

  lemma CombineShifted(p: int, h: int, b: int, u: int, c: int, w: int) returns (v: int)
    requires p == 2 * h && b == 1 + p * u && c == 1 + p * w && Odd(u)
    ensures b * c == 1 + p * v && (Odd(v) <==> !Odd(w))
  {
    var e := h * (u * w);
    v := u + w + 2 * e;
    ShiftedProduct(h, u, w);
  }

  /** An odd power keeps the power of two in `b - 1`. */
  lemma {:induction false} OddPowerKeeps(b: int, k: nat, u: int, m: nat) returns (u': int)
    requires 1 <= k && b == 1 + Pow2(k) * u && Odd(u)
    ensures Pow(b, m) == 1 + Pow2(k) * u' && (Odd(u') <==> Odd(m))
  {
    if m == 0 {
      u' := 0;
    } else {
      var w := OddPowerKeeps(b, k, u, m - 1);
      Pow2Step(k);
      PowStep(b, m);
      OddAlternates(m);
      hide Pow2, Pow, Odd;
      u' := CombineShifted(Pow2(k), Pow2(k - 1), b, u, Pow(b, m - 1), w);
    }
  }

  lemma {:induction false} PowerOfTwoLifts(b: int, k: nat, u: int, j: nat) returns (u': int)
    requires 2 <= k && b == 1 + Pow2(k) * u && Odd(u)
    ensures Pow(b, Pow2(j)) == 1 + Pow2(k + j) * u' && Odd(u')
  {
    if j == 0 {
      u' := u;
      assert Pow(b, 1) == b * Pow(b, 0);
    } else {
      var w := PowerOfTwoLifts(b, k, u, j - 1);
      PowAdd(b, Pow2(j - 1), Pow2(j - 1));
      u' := SquareLifts(Pow(b, Pow2(j - 1)), k + j - 1, w);
    }
  }

  /** Every positive number is a power of two times an odd number. */
  lemma {:induction false} SplitOdd(n: nat) returns (j: nat, m: nat)
    requires 0 < n
    ensures n == Pow2(j) * m && Odd(m)
  {
    if n % 2 == 1 {
      j, m := 0, n;
    } else {
      var i, w := SplitOdd(n / 2);
      j, m := i + 1, w;
      assert Pow2(j) * m == 2 * (Pow2(i) * m);
    }
  }

  lemma MultipleHasNoRest(p: int, q: int)
    requires p > 0
    ensures Divides(p, p * q)
  {
    RestIsUnique(p * q, p, q, 0);
  }

  lemma DividedIsMultiple(p: int, x: int) returns (q: int)
    requires p > 0 && Divides(p, x)
    ensures x == p * q
  {
    q := x / p;
  }

  lemma Cancel(p: int, x: int, y: int)
    requires p > 0 && p * x == p * y
    ensures x == y
  {
    assert p * (x - y) == 0;
  }

  lemma Associate(p: int, x: int, y: int)
    ensures p * x * y == p * (x * y)
  {}

  lemma DividesPow2Times(e: nat, n: nat, x: int)
    requires Odd(x)
    ensures Divides(Pow2(n), Pow2(e) * x) <==> n <= e
  {
    if n <= e {
      Pow2Add(n, e - n);
      hide Pow2, Divides;
      Associate(Pow2(n), Pow2(e - n), x);
      MultipleHasNoRest(Pow2(n), Pow2(e - n) * x);
    } else {
      hide Pow2, Divides, Odd;
      if Divides(Pow2(n), Pow2(e) * x) {
        var q := DividedIsMultiple(Pow2(n), Pow2(e) * x);
        LargerPowerIsEven(e, n, x, q);
      }
    }
  }

  lemma LargerPowerIsEven(e: nat, n: nat, x: int, q: int)
    requires e < n && Pow2(e) * x == Pow2(n) * q
    ensures !Odd(x)
  {
    Pow2Add(e, n - e);
    Pow2Step(n - e);
    hide Pow2;
    Associate(Pow2(e), Pow2(n - e), q);
    Cancel(Pow2(e), x, Pow2(n - e) * q);
    Associate(2, Pow2(n - e - 1), q);
    var half := Pow2(n - e - 1) as int * q;
    assert x == 2 * half;
  }

  /** The order of the multiplier: b^d x returns to x modulo 2^n exactly at the multiples of 2^(n-k). */
  lemma CycleLength(b: int, k: nat, u: int, x: int, n: nat, d: nat)
    requires 2 <= k <= n && b == 1 + Pow2(k) * u && Odd(u) && Odd(x)
    ensures Divides(Pow2(n), Pow(b, d) * x - x) <==> Divides(Pow2(n - k), d)
  {
    if d == 0 {
      assert Pow(b, d) * x - x == 0;
      hide Pow2, Pow;
      MultipleHasNoRest(Pow2(n), 0);
      MultipleHasNoRest(Pow2(n - k), 0);
    } else {
      hide Pow, Pow2, Divides;
      var j, m := SplitOdd(d);
      var w := PowerOfTwoLifts(b, k, u, j);
      var w' := OddPowerKeeps(Pow(b, Pow2(j)), k + j, w, m);
      PowMul(b, Pow2(j), m);
      OddTimesOdd(w', x);
      ShiftedTimes(1, Pow2(k + j), w', x);
      assert Pow(b, d) * x - x == Pow2(k + j) * (w' * x);
      DividesPow2Times(k + j, n, w' * x);
      DividesPow2Times(j, n - k, m);
    }
  }

  lemma ShiftedTimes(c: int, p: int, w: int, x: int)
    ensures c * (1 + p * w) * x == c * x + p * (w * (c * x))
  {}

  lemma OddPlusOdd(p: int, x: int, y: int)
    requires Odd(x) && Odd(y)
    ensures p * x + p * y == 2 * p * ((x + y) / 2)
  {
    var h := (x + y) / 2;
    assert x + y == 2 * h;
    assert p * x + p * y == p * (2 * h) by { assert p * x + p * y == p * (x + y); }
  }

  /** The orbit of an odd x is its whole residue class modulo 2^k: b^d x meets every y congruent to x. */
  lemma {:induction false} OrbitReaches(b: int, k: nat, u: int, x: int, y: int, n: nat) returns (d: nat, q: int)
    requires 2 <= k <= n && b == 1 + Pow2(k) * u && Odd(u) && Odd(x)
    requires Divides(Pow2(k), y - x)
    ensures d < Pow2(n - k) && Pow(b, d) * x - y == Pow2(n) * q
    decreases n
  {
    if n == k {
      d, q := 0, -((y - x) / Pow2(k));
      assert Pow(b, d) * x - y == x - y;
    } else {
      var e, r := OrbitReaches(b, k, u, x, y, n - 1);
      hide Pow;
      Pow2Step(n);
      Pow2Step(n - k);
      hide Pow2;
      var p := Pow2(n - 1);
      if !Odd(r) {
        d, q := e, r / 2;
        EvenQuotient(p, r);
      } else {
        hide Odd;
        var w := PowerOfTwoLifts(b, k, u, n - 1 - k);
        d := e + Pow2(n - 1 - k);
        PowAdd(b, e, Pow2(n - 1 - k));
        BaseIsOdd(b, k, u);
        OddPow(b, e);
        q := OddQuotient(Pow(b, e), p, w, x, y, r);
      }
    }
  }

  lemma EvenQuotient(p: int, r: int)
    requires !Odd(r)
    ensures p * r == 2 * p * (r / 2)
  {
    var h := r / 2;
    assert r == 2 * h;
  }

  /** One lifting step: multiplying by 1 + p w moves an odd multiple of p to an even one. */
  lemma OddQuotient(c: int, p: int, w: int, x: int, y: int, r: int) returns (q: int)
    requires c * x - y == p * r && Odd(c) && Odd(w) && Odd(x) && Odd(r)
    ensures c * (1 + p * w) * x - y == 2 * p * q
  {
    hide Odd;
    OddTimesOdd(c, x);
    OddTimesOdd(w, c * x);
    ShiftedTimes(c, p, w, x);
    OddPlusOdd(p, r, w * (c * x));
    q := (r + w * (c * x)) / 2;
  }

  lemma BaseIsOdd(b: int, k: nat, u: int)
    requires 1 <= k && b == 1 + Pow2(k) * u
    ensures Odd(b)
  {
    assert Pow2(k) * u == 2 * (Pow2(k - 1) * u);
  }
}
