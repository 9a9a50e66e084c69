/**
  The conjugate gradient iteration of the CG benchmark in exact arithmetic, for any linear
  operator: what one iteration does to z, r and p, and which orthogonality relations hold
  between all iterates of a run when the operator is symmetric.
 */
module ConjGrad {
  import opened RealVectors

  /** A square matrix by its rows. */
  type Matrix = seq<seq<real>>

  predicate IsSquare(A: Matrix) {
    forall j :: 0 <= j < |A| ==> |A[j]| == |A|
  }

  function Apply(A: Matrix, v: seq<real>): (w: seq<real>)
    requires IsSquare(A) && |v| == |A|
    ensures |w| == |A| && forall j :: 0 <= j < |A| ==> w[j] == Dot(A[j], v)
  {
    seq(|A|, j requires 0 <= j < |A| => Dot(A[j], v))
  }

  ghost predicate Symmetric(A: Matrix) {
    IsSquare(A) && forall u: seq<real>, v: seq<real> :: |u| == |A| == |v| ==> Dot(u, Apply(A, v)) == Dot(v, Apply(A, u))
  }

  predicate NonZero(v: seq<real>) {
    exists i :: 0 <= i < |v| && v[i] != 0.0
  }

  /** The quadratic form vanishes at the zero vector only. Its sign elsewhere is left open: the benchmark adds
      rcond - shift, which is negative, to its diagonal, so positive definiteness would ask too much. */
  ghost predicate Definite(A: Matrix) {
    IsSquare(A) && forall v: seq<real> :: |v| == |A| && NonZero(v) ==> Dot(v, Apply(A, v)) != 0.0
  }

  lemma ApplyOfAdd(A: Matrix, u: seq<real>, v: seq<real>)
    requires IsSquare(A) && |u| == |v| == |A|
    ensures Apply(A, Add(u, v)) == Add(Apply(A, u), Apply(A, v))
  {
    hide Dot, Add;
    forall j | 0 <= j < |A| ensures Dot(A[j], Add(u, v)) == Dot(A[j], u) + Dot(A[j], v) {
      DotOfAdd(A[j], u, v);
    }
  }

  lemma ApplyOfScale(A: Matrix, s: real, v: seq<real>)
    requires IsSquare(A) && |v| == |A|
    ensures Apply(A, Scale(s, v)) == Scale(s, Apply(A, v))
  {
    hide Dot, Scale;
    forall j | 0 <= j < |A| ensures Apply(A, Scale(s, v))[j] == Scale(s, Apply(A, v))[j] {
      DotOfScale(A[j], s, v);
    }
  }

  // ----- one iteration -----

  datatype CG = CG(z: seq<real>, r: seq<real>, p: seq<real>, rho: real)

  predicate Sized(A: Matrix, s: CG) {
    |s.z| == |s.r| == |s.p| == |A|
  }

  function Start(x: seq<real>): CG {
    CG(Scale(0.0, x), x, x, Dot(x, x))
  }

  /** The divisor p . A p of an iteration. */
  function D(A: Matrix, s: CG): real
    requires IsSquare(A) && Sized(A, s)
  {
    Dot(s.p, Apply(A, s.p))
  }

  /** Neither division of the iteration is by zero. */
  predicate CanStep(A: Matrix, s: CG) {
    IsSquare(A) && Sized(A, s) && s.rho != 0.0 && D(A, s) != 0.0
  }

  function Alpha(A: Matrix, s: CG): real
    requires CanStep(A, s)
  {
    s.rho / D(A, s)
  }

  function Beta(rho: real, s: CG): real
    requires s.rho != 0.0
  {
    rho / s.rho
  }

  function Step(A: Matrix, s: CG): (s': CG)
    requires CanStep(A, s)
    ensures Sized(A, s')
  {
    var alpha := Alpha(A, s);
    var r := Sub(s.r, Scale(alpha, Apply(A, s.p)));
    var rho := Dot(r, r);
    CG(Add(s.z, Scale(alpha, s.p)), r, Add(r, Scale(Beta(rho, s), s.p)), rho)
  }

  /** The state after `k` iterations; it stays put where a division by zero would come. */
  function At(A: Matrix, x: seq<real>, k: nat): (s: CG)
    requires IsSquare(A) && |x| == |A|
    ensures Sized(A, s)
  {
    if k == 0 then Start(x)
    else
      var s := At(A, x, k - 1);
      if CanStep(A, s) then Step(A, s) else s
  }

  /** The first `m` iterations divide by nothing zero. */
  ghost predicate Runs(A: Matrix, x: seq<real>, m: nat) {
    IsSquare(A) && |x| == |A| && forall k :: 0 <= k < m ==> CanStep(A, At(A, x, k))
  }

  /** The residual belongs to the approximate solution, and rho is its squared norm. */
  ghost predicate ResidualIsTrue(A: Matrix, x: seq<real>, s: CG) {
    && IsSquare(A) && |x| == |A| && Sized(A, s)
    && s.r == Sub(x, Apply(A, s.z)) && s.rho == Dot(s.r, s.r)
  }

  lemma {:induction false} DotWithZero(a: seq<real>, x: seq<real>)
    requires |a| == |x|
    ensures Dot(a, Scale(0.0, x)) == 0.0
  {
    DotOfScale(a, 0.0, x);
  }

  lemma StartIsTrue(A: Matrix, x: seq<real>)
    requires IsSquare(A) && |x| == |A|
    ensures ResidualIsTrue(A, x, Start(x))
  {
    var z := Scale(0.0, x);
    forall j | 0 <= j < |A| ensures x[j] == Sub(x, Apply(A, z))[j] {
      DotWithZero(A[j], x);
    }
  }

  /** Every iteration keeps r == x - A z. */
  lemma StepKeepsResidual(A: Matrix, x: seq<real>, s: CG)
    requires ResidualIsTrue(A, x, s) && CanStep(A, s)
    ensures ResidualIsTrue(A, x, Step(A, s))
  {
    hide Alpha, D, Beta, Apply, Dot;
    var alpha, s' := Alpha(A, s), Step(A, s);
    ApplyOfAdd(A, s.z, Scale(alpha, s.p));
    ApplyOfScale(A, alpha, s.p);
    forall j | 0 <= j < |A| ensures s'.r[j] == Sub(x, Apply(A, s'.z))[j] {
      assert Scale(alpha, Apply(A, s.p))[j] == alpha * Apply(A, s.p)[j];
    }
  }

  lemma {:induction false} ResidualStaysTrue(A: Matrix, x: seq<real>, k: nat)
    requires IsSquare(A) && |x| == |A|
    ensures ResidualIsTrue(A, x, At(A, x, k))
  {
    hide ResidualIsTrue, Step, CanStep;
    if k == 0 {
      StartIsTrue(A, x);
    } else {
      ResidualStaysTrue(A, x, k - 1);
      if CanStep(A, At(A, x, k - 1)) {
        StepKeepsResidual(A, x, At(A, x, k - 1));
      }
    }
  }

  // ----- orthogonality -----

  lemma StepVectors(A: Matrix, s: CG)
    requires CanStep(A, s)
    ensures var s' := Step(A, s);
            && s'.r == Sub(s.r, Scale(Alpha(A, s), Apply(A, s.p)))
            && s'.p == Add(s'.r, Scale(Beta(s'.rho, s), s.p))
            && s'.rho == Dot(s'.r, s'.r)
  {}

  /** How the vectors of the next iterate pair with any vector w. */
  lemma StepDots(A: Matrix, s: CG, w: seq<real>)
    requires CanStep(A, s) && |w| == |A|
    ensures var s' := Step(A, s);
            && Dot(w, s'.r) == Dot(w, s.r) - Alpha(A, s) * Dot(w, Apply(A, s.p))
            && Dot(w, s'.p) == Dot(w, s'.r) + Beta(s'.rho, s) * Dot(w, s.p)
  {
    hide Alpha, Beta, Dot, D, Step, Apply;
    StepVectors(A, s);
    var s' := Step(A, s);
    DotOfSub(w, s.r, Scale(Alpha(A, s), Apply(A, s.p)));
    DotOfScale(w, Alpha(A, s), Apply(A, s.p));
    DotOfAdd(w, s'.r, Scale(Beta(s'.rho, s), s.p));
    DotOfScale(w, Beta(s'.rho, s), s.p);
  }

  /** The relations between iterate `k` and the earlier ones: residuals are orthogonal, directions conjugate, the
      residual is orthogonal to every earlier direction and pairs with its own direction to rho. */
  ghost predicate Orthogonal(A: Matrix, x: seq<real>, k: nat)
    requires IsSquare(A) && |x| == |A|
  {
    var s := At(A, x, k);
    && Dot(s.r, s.p) == s.rho
    && forall i :: 0 <= i < k ==> OrthogonalTo(A, s, At(A, x, i))
  }

  ghost predicate OrthogonalTo(A: Matrix, s: CG, e: CG)
    requires IsSquare(A) && Sized(A, s) && Sized(A, e)
  {
    Dot(s.r, e.r) == 0.0 && Dot(s.r, e.p) == 0.0 && Dot(s.p, Apply(A, e.p)) == 0.0
  }

  lemma AlphaTimesD(A: Matrix, s: CG)
    requires CanStep(A, s)
    ensures Alpha(A, s) * D(A, s) == s.rho && Alpha(A, s) != 0.0
  {
    hide D;
  }

  /** Beta is chosen so that the new direction is conjugate to the old one. */
  lemma BetaCancels(A: Matrix, s: CG, rho': real, t: real)
    requires CanStep(A, s) && rho' == 0.0 - Alpha(A, s) * t
    ensures t + Beta(rho', s) * D(A, s) == 0.0
  {
    hide D;
    CancelRatios(s.rho, D(A, s), rho', t);
  }

  lemma CancelRatios(rho: real, d: real, rho': real, t: real)
    requires rho != 0.0 && d != 0.0 && rho' == 0.0 - rho / d * t
    ensures t + rho' / rho * d == 0.0
  {
    var a := rho / d;
    assert a * d == rho;
    assert rho' * d == 0.0 - rho * t;
    var b := rho' / rho;
    assert b * rho == rho';
    assert rho * (t + b * d) == 0.0;
  }

  lemma ZeroFactor(a: real, t: real)
    requires a != 0.0 && a * t == 0.0
    ensures t == 0.0
  {}

  lemma NextIsStep(A: Matrix, x: seq<real>, k: nat)
    requires Runs(A, x, k + 1)
    ensures CanStep(A, At(A, x, k)) && At(A, x, k + 1) == Step(A, At(A, x, k))
  {}

  /** (a) The new residual is orthogonal to every direction so far. */
  lemma ResidualAgainstDirection(A: Matrix, x: seq<real>, k: nat, i: nat)
    requires Symmetric(A) && |x| == |A| && i <= k && Runs(A, x, k + 1) && Orthogonal(A, x, k)
    ensures Dot(At(A, x, k + 1).r, At(A, x, i).p) == 0.0
  {
    hide At, Step, Apply, Dot, Alpha, Beta, CanStep, Runs;
    NextIsStep(A, x, k);
    var s, e := At(A, x, k), At(A, x, i);
    StepDots(A, s, e.p);
    DotCommutes(e.p, At(A, x, k + 1).r);
    DotCommutes(e.p, s.r);
    if i < k {
      assert OrthogonalTo(A, s, e);
      assert Dot(e.p, Apply(A, s.p)) == Dot(s.p, Apply(A, e.p));
    } else {
      AlphaTimesD(A, s);
    }
  }

  lemma SymmetricIsSquare(A: Matrix)
    requires Symmetric(A)
    ensures IsSquare(A)
  {}

  lemma FirstDirection(A: Matrix, x: seq<real>)
    requires IsSquare(A) && |x| == |A|
    ensures At(A, x, 0).r == At(A, x, 0).p == x
  {}

  lemma RunsShorter(A: Matrix, x: seq<real>, k: nat, m: nat)
    requires Runs(A, x, m) && k <= m
    ensures Runs(A, x, k)
  {}

  /** (b) The new residual is orthogonal to every residual so far. */
  lemma ResidualAgainstResidual(A: Matrix, x: seq<real>, k: nat, i: nat)
    requires Symmetric(A) && |x| == |A| && i <= k && Runs(A, x, k + 1) && Orthogonal(A, x, k)
    ensures Dot(At(A, x, k + 1).r, At(A, x, i).r) == 0.0
  {
    hide At, Step, Apply, Dot, Alpha, Beta, CanStep, Orthogonal, Runs, Symmetric;
    SymmetricIsSquare(A);
    ResidualAgainstDirection(A, x, k, i);
    if i == 0 {
      FirstDirection(A, x);
    } else {
      ResidualAgainstDirection(A, x, k, i - 1);
      RunsShorter(A, x, i, k + 1);
      NextIsStep(A, x, i - 1);
      StepDots(A, At(A, x, i - 1), At(A, x, k + 1).r);
    }
  }

  /** The new residual is conjugate to the directions before the last one. */
  lemma ResidualAgainstImage(A: Matrix, x: seq<real>, k: nat, i: nat)
    requires Symmetric(A) && |x| == |A| && i <= k && Runs(A, x, k + 1) && Orthogonal(A, x, k)
    requires CanStep(A, At(A, x, i))
    ensures var t := Dot(At(A, x, k + 1).r, Apply(A, At(A, x, i).p));
            if i < k then t == 0.0 else At(A, x, k + 1).rho == 0.0 - Alpha(A, At(A, x, k)) * t
  {
    hide At, Step, Apply, Dot, Alpha, Beta, CanStep, Orthogonal, Runs, Symmetric;
    SymmetricIsSquare(A);
    var e, w := At(A, x, i), At(A, x, k + 1).r;
    RunsShorter(A, x, i + 1, k + 1);
    NextIsStep(A, x, i);
    StepDots(A, e, w);
    ResidualAgainstResidual(A, x, k, i);
    AlphaTimesD(A, e);
    if i < k {
      ResidualAgainstResidual(A, x, k, i + 1);
      ZeroFactor(Alpha(A, e), Dot(w, Apply(A, e.p)));
    } else {
      StepVectors(A, e);
    }
  }

  /** (c) The new direction is conjugate to every direction so far. */
  lemma DirectionAgainstDirection(A: Matrix, x: seq<real>, k: nat, i: nat)
    requires Symmetric(A) && |x| == |A| && i <= k && Runs(A, x, k + 1) && Orthogonal(A, x, k)
    ensures Dot(At(A, x, k + 1).p, Apply(A, At(A, x, i).p)) == 0.0
  {
    hide At, Step, Apply, Dot, Alpha, Beta, CanStep, Runs, Symmetric;
    NextIsStep(A, x, k);
    RunsShorter(A, x, i + 1, k + 1);
    NextIsStep(A, x, i);
    var s, s' := At(A, x, k), At(A, x, k + 1);
    var q := Apply(A, At(A, x, i).p);
    StepDots(A, s, q);
    DotCommutes(q, s'.p);
    DotCommutes(q, s'.r);
    DotCommutes(q, s.p);
    ResidualAgainstImage(A, x, k, i);
    if i < k {
      assert OrthogonalTo(A, s, At(A, x, i));
    } else {
      BetaCancels(A, s, s'.rho, Dot(s'.r, q));
    }
  }

  /** One iteration keeps all relations. */
  lemma OrthogonalStep(A: Matrix, x: seq<real>, k: nat)
    requires Symmetric(A) && |x| == |A| && Runs(A, x, k + 1) && Orthogonal(A, x, k)
    ensures Orthogonal(A, x, k + 1)
  {
    hide At, Step, Dot, Apply, CanStep, Alpha, Beta, Runs, Symmetric;
    NextIsStep(A, x, k);
    var s, s' := At(A, x, k), At(A, x, k + 1);
    StepDots(A, s, s'.r);
    StepVectors(A, s);
    ResidualAgainstDirection(A, x, k, k);
    forall i | 0 <= i < k + 1 ensures OrthogonalTo(A, s', At(A, x, i)) {
      ResidualAgainstDirection(A, x, k, i);
      ResidualAgainstResidual(A, x, k, i);
      DirectionAgainstDirection(A, x, k, i);
    }
  }

  lemma NothingToCompare(A: Matrix, x: seq<real>)
    requires Symmetric(A) && Runs(A, x, 0)
    ensures Orthogonal(A, x, 0)
  {}

  /** For a symmetric operator all residuals of a run are orthogonal to one another and all directions conjugate. */
  lemma {:induction false} RunIsOrthogonal(A: Matrix, x: seq<real>, k: nat)
    requires Symmetric(A) && Runs(A, x, k)
    ensures Orthogonal(A, x, k)
  {
    if k == 0 {
      NothingToCompare(A, x);
    } else {
      hide *;
      RunsShorter(A, x, k - 1, k);
      RunIsOrthogonal(A, x, k - 1);
      OrthogonalStep(A, x, k - 1);
    }
  }

  /** For a symmetric definite operator the only way a division can fail is a residual that is already zero. */
  lemma BreakdownMeansSolved(A: Matrix, x: seq<real>, k: nat)
    requires Symmetric(A) && Definite(A) && Runs(A, x, k)
    ensures CanStep(A, At(A, x, k)) <==> Dot(At(A, x, k).r, At(A, x, k).r) != 0.0
  {
    hide At, Dot, Apply;
    var s := At(A, x, k);
    ResidualStaysTrue(A, x, k);
    RunIsOrthogonal(A, x, k);
    if s.rho != 0.0 && !NonZero(s.p) {
      ZeroVector(s.r, s.p);
    }
  }

  /** A division fails before the residual is zero: the iteration breaks down. */
  ghost predicate BreaksDown(A: Matrix, x: seq<real>, k: nat) {
    Runs(A, x, k) && !CanStep(A, At(A, x, k)) && Dot(At(A, x, k).r, At(A, x, k).r) != 0.0
  }

  /** Definiteness is exactly what keeps the iteration from breaking down, whatever vector it starts from. */
  lemma DefinitenessIsExact(A: Matrix)
    requires Symmetric(A)
    ensures Definite(A) <==> forall x: seq<real>, k: nat :: !BreaksDown(A, x, k)
  {
    SymmetricIsSquare(A);
    hide Symmetric, At, Dot, Apply, CanStep;
    if Definite(A) {
      forall x: seq<real>, k: nat ensures !BreaksDown(A, x, k) {
        if Runs(A, x, k) { BreakdownMeansSolved(A, x, k); }
      }
    } else {
      var v :| |v| == |A| && NonZero(v) && Dot(v, Apply(A, v)) == 0.0;
      FirstStepFails(A, v);
      assert BreaksDown(A, v, 0);
    }
  }

  lemma FirstStepFails(A: Matrix, v: seq<real>)
    requires IsSquare(A) && |v| == |A| && NonZero(v) && Dot(v, Apply(A, v)) == 0.0
    ensures !CanStep(A, At(A, v, 0)) && Dot(At(A, v, 0).r, At(A, v, 0).r) != 0.0
  {
    NormIsPositive(v);
  }

  lemma {:induction false} NormIsPositive(v: seq<real>)
    ensures Dot(v, v) >= 0.0
    ensures NonZero(v) ==> Dot(v, v) > 0.0
  {
    if v != [] {
      var head, rest := v[0], v[1..];
      var square := head * head;
      NormIsPositive(rest);
      SquareIsNotNegative(head, square);
      assert Dot(v, v) == square + Dot(rest, rest);
      if NonZero(v) && head == 0.0 {
        var i :| 0 <= i < |v| && v[i] != 0.0;
        assert rest[i - 1] == v[i];
        assert NonZero(rest);
      }
    }
  }

  lemma SquareIsNotNegative(t: real, square: real)
    requires square == t * t
    ensures square >= 0.0 && (t != 0.0 ==> square > 0.0)
  {
    if t > 0.0 {
      PositiveProduct(t, t, square);
    } else if t < 0.0 {
      PositiveProduct(-t, -t, square);
    }
  }

  lemma PositiveProduct(a: real, b: real, c: real)
    requires a > 0.0 && b > 0.0 && c == a * b
    ensures c > 0.0
  {}

  lemma {:induction false} ZeroVector(a: seq<real>, p: seq<real>)
    requires |a| == |p| && forall i :: 0 <= i < |p| ==> p[i] == 0.0
    ensures Dot(a, p) == 0.0
  {
    if p != [] { ZeroVector(a[1..], p[1..]); }
  }
}
