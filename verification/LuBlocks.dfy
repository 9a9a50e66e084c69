/**
  The dense block arithmetic of the LU benchmark. A grid cell holds five unknowns, and
  every sweep step solves one 5x5 system by elimination without pivoting, in place, and
  back substitution.
 */
module LuBlocks {
  import opened RealVectors

  /** Unknowns per grid cell. */
  const N: nat := 5

  /** One scalar equation: the coefficients of the unknowns and the right-hand side. */
  datatype Equation = Equation(coefficients: seq<real>, rhs: real)

  type Vec = x: seq<real> | |x| == N witness [0.0, 0.0, 0.0, 0.0, 0.0]

  function Minus(b: real, t: real, a: real): real {
    b - t * a
  }

  /** The row `b` minus `t` times the row `a`. */
  function RowMinus(b: seq<real>, t: real, a: seq<real>): (c: seq<real>)
    requires |a| == |b|
    ensures |c| == |b|
  {
    seq(|b|, i requires 0 <= i < |b| => Minus(b[i], t, a[i]))
  }

  lemma {:induction false} DotRowMinus(b: seq<real>, t: real, a: seq<real>, x: seq<real>)
    requires |a| == |b| == |x|
    ensures Dot(RowMinus(b, t, a), x) == Dot(b, x) - t * Dot(a, x)
  {
    if b == [] {
    } else {
      var c := RowMinus(b, t, a);
      assert c[1..] == RowMinus(b[1..], t, a[1..]);
      DotRowMinus(b[1..], t, a[1..], x[1..]);
      assert c[0] * x[0] == b[0] * x[0] - t * (a[0] * x[0]);
    }
  }

  ghost predicate Holds(e: Equation, x: seq<real>) {
    |e.coefficients| == |x| && Dot(e.coefficients, x) == e.rhs
  }

  // ----- the specification: elimination as recursion on the number of unknowns -----

  /** A square system of `n` equations in `n` unknowns. */
  predicate Square(eqs: seq<Equation>, n: nat) {
    |eqs| == n && forall i :: 0 <= i < n ==> |eqs[i].coefficients| == n
  }

  ghost predicate Solves(eqs: seq<Equation>, x: seq<real>) {
    forall i :: 0 <= i < |eqs| ==> Holds(eqs[i], x)
  }

  /** The multiple of a pivot that cancels the coefficient `b`, as the program divides it out. */
  function Factor(pivot: real, b: real): (t: real)
    requires pivot != 0.0
    ensures t * pivot == b
  {
    1.0 / pivot * b
  }

  /** Equation `e` with its first unknown eliminated by means of the pivot equation `p`. */
  function Eliminate(p: Equation, e: Equation): Equation
    requires 0 < |p.coefficients| == |e.coefficients| && p.coefficients[0] != 0.0
  {
    var t := Factor(p.coefficients[0], e.coefficients[0]);
    Equation(RowMinus(e.coefficients[1..], t, p.coefficients[1..]), Minus(e.rhs, t, p.rhs))
  }

  /** The remaining system once the first equation has eliminated the first unknown. */
  function Reduce(eqs: seq<Equation>): (rest: seq<Equation>)
    requires Square(eqs, |eqs|) && 0 < |eqs| && eqs[0].coefficients[0] != 0.0
    ensures Square(rest, |eqs| - 1)
  {
    seq(|eqs| - 1, i requires 0 <= i < |eqs| - 1 => Eliminate(eqs[0], eqs[i + 1]))
  }

  /** No pivot met by the elimination is zero. */
  predicate PivotsNonzero(eqs: seq<Equation>)
    requires Square(eqs, |eqs|)
    decreases |eqs|
  {
    |eqs| == 0 || (eqs[0].coefficients[0] != 0.0 && PivotsNonzero(Reduce(eqs)))
  }

  /** Back substitution into the equation `p`, once the later unknowns are known. */
  function BackSubstitute(p: Equation, rest: seq<real>): (x: seq<real>)
    requires |p.coefficients| == |rest| + 1 && p.coefficients[0] != 0.0
    ensures |x| == |rest| + 1 && x[1..] == rest
  {
    [(p.rhs - Dot(p.coefficients[1..], rest)) / p.coefficients[0]] + rest
  }

  function Solution(eqs: seq<Equation>): (x: seq<real>)
    requires Square(eqs, |eqs|) && PivotsNonzero(eqs)
    ensures |x| == |eqs|
    decreases |eqs|
  {
    if |eqs| == 0 then [] else BackSubstitute(eqs[0], Solution(Reduce(eqs)))
  }

  /** The scalar core of one elimination step. */
  lemma EliminateScalar(a: real, b: real, x: real, u: real, w: real, pr: real, er: real, t: real)
    requires t * a == b && a * x + u == pr
    ensures b * x + w == er <==> w - t * u == Minus(er, t, pr)
  {
    assert b * x == (t * a) * x == t * (a * x);
    assert pr * t == t * (a * x) + t * u;
  }

  lemma EliminateKeepsSolutions(p: Equation, e: Equation, x: seq<real>)
    requires 0 < |p.coefficients| == |e.coefficients| == |x| && p.coefficients[0] != 0.0
    requires Holds(p, x)
    ensures Holds(e, x) <==> Holds(Eliminate(p, e), x[1..])
  {
    var a, b := p.coefficients, e.coefficients;
    hide Factor;
    var t := Factor(a[0], b[0]);
    DotRowMinus(b[1..], t, a[1..], x[1..]);
    EliminateScalar(a[0], b[0], x[0], Dot(a[1..], x[1..]), Dot(b[1..], x[1..]), p.rhs, e.rhs, t);
  }

  /** The pivot equation determines the first unknown from the others. */
  lemma PivotRow(p: Equation, x: seq<real>)
    requires 0 < |p.coefficients| == |x| && p.coefficients[0] != 0.0
    ensures Holds(p, x) <==> x == BackSubstitute(p, x[1..])
  {
    var a, u := p.coefficients[0], Dot(p.coefficients[1..], x[1..]);
    assert Dot(p.coefficients, x) == a * x[0] + u;
    assert x == [x[0]] + x[1..];
    if a * x[0] + u == p.rhs {
      assert (a * x[0]) / a == x[0];
    }
  }

  /** Under the pivot equation, the rest of the system holds exactly when the reduced system does. */
  lemma ReduceKeepsSolutions(eqs: seq<Equation>, x: seq<real>)
    requires Square(eqs, |eqs|) && 0 < |eqs| == |x| && eqs[0].coefficients[0] != 0.0
    requires Holds(eqs[0], x)
    ensures Solves(eqs, x) <==> Solves(Reduce(eqs), x[1..])
  {
    var rest := Reduce(eqs);
    forall i | 0 < i < |eqs|
      ensures Holds(eqs[i], x) <==> Holds(rest[i - 1], x[1..])
    {
      EliminateKeepsSolutions(eqs[0], eqs[i], x);
      assert rest[i - 1] == Eliminate(eqs[0], eqs[i]);
    }
    if Solves(rest, x[1..]) {
      forall i | 0 <= i < |eqs| ensures Holds(eqs[i], x) {
        if i > 0 { assert Holds(rest[i - 1], x[1..]); }
      }
    }
    if Solves(eqs, x) {
      forall i | 0 <= i < |rest| ensures Holds(rest[i], x[1..]) {
        assert Holds(eqs[i + 1], x);
      }
    }
  }

  /** With nonzero pivots the system has exactly one solution, and the elimination finds it. */
  lemma {:induction false} SolutionIsTheSolution(eqs: seq<Equation>, x: seq<real>)
    requires Square(eqs, |eqs|) && PivotsNonzero(eqs) && |x| == |eqs|
    ensures Solves(eqs, x) <==> x == Solution(eqs)
    decreases |eqs|
  {
    hide BackSubstitute, Dot;
    if |eqs| == 0 {
    } else {
      SolutionIsTheSolution(Reduce(eqs), x[1..]);
      PivotRow(eqs[0], x);
      if Holds(eqs[0], x) {
        ReduceKeepsSolutions(eqs, x);
      } else {
        assert !Solves(eqs, x);
      }
    }
  }

  /** The system left after the first `p` unknowns have been eliminated. */
  function Stage(eqs: seq<Equation>, p: nat): (rest: seq<Equation>)
    requires Square(eqs, |eqs|) && PivotsNonzero(eqs) && p <= |eqs|
    ensures Square(rest, |eqs| - p) && PivotsNonzero(rest)
  {
    if p == 0 then eqs else Reduce(Stage(eqs, p - 1))
  }

  /** The pivots are a property of the coefficients alone. */
  lemma {:induction false} PivotsIgnoreRhs(eqs: seq<Equation>, eqs': seq<Equation>)
    requires Square(eqs, |eqs|) && Square(eqs', |eqs|) && PivotsNonzero(eqs)
    requires forall i :: 0 <= i < |eqs| ==> eqs[i].coefficients == eqs'[i].coefficients
    ensures PivotsNonzero(eqs')
    decreases |eqs|
  {
    if |eqs| > 0 {
      PivotsIgnoreRhs(Reduce(eqs), Reduce(eqs'));
    }
  }

  // ----- the program's form: elimination in the work arrays tmat and tv -----

  /** A 5x5 block as the program stores it: `m[column][row]`. */
  type Mat = m: seq<seq<real>> | |m| == N && forall c :: 0 <= c < N ==> |m[c]| == N
    witness seq(N, c => seq(N, r => 0.0))

  function MatRow(m: Mat, r: nat): Vec
    requires r < N
  {
    seq(N, c requires 0 <= c < N => m[c][r])
  }

  /** The block-vector product. */
  function Mul(m: Mat, x: Vec): Vec {
    seq(N, r requires 0 <= r < N => Dot(MatRow(m, r), x))
  }

  /** Written out, as the unrolled code does: the blocks are stored column by column. */
  lemma MulByEntries(m: Mat, x: Vec, r: nat)
    requires r < N
    ensures Mul(m, x)[r] == m[0][r] * x[0] + m[1][r] * x[1] + m[2][r] * x[2] + m[3][r] * x[3] + m[4][r] * x[4]
  {
    hide Dot;
    var a := MatRow(m, r);
    DotFrom(a, x, 0);
    DotFrom(a, x, 1);
    DotFrom(a, x, 2);
    DotFrom(a, x, 3);
    DotFrom(a, x, 4);
    DotOfNothing();
    assert a[0..] == a && x[0..] == x && a[5..] == [] && x[5..] == [];
  }

  lemma DotFrom(a: seq<real>, x: seq<real>, k: nat)
    requires |a| == |x| && k < |a|
    ensures Dot(a[k..], x[k..]) == a[k] * x[k] + Dot(a[k + 1..], x[k + 1..])
  {
    assert a[k..][1..] == a[k + 1..] && x[k..][1..] == x[k + 1..];
  }

  lemma DotOfNothing()
    ensures Dot([], []) == 0.0
  {}

  function System(m: Mat, b: Vec): (eqs: seq<Equation>)
    ensures Square(eqs, N)
  {
    seq(N, r requires 0 <= r < N => Equation(MatRow(m, r), b[r]))
  }

  const ZERO: Vec := [0.0, 0.0, 0.0, 0.0, 0.0]

  /** A diagonal block on which the elimination never divides by zero. */
  type Block = m: Mat | PivotsNonzero(System(m, ZERO)) ghost witness Identity()

  /** The solution of the block system `d x == b`. */
  function Solve(d: Block, b: Vec): (x: Vec) {
    PivotsIgnoreRhs(System(d, ZERO), System(d, b));
    Solution(System(d, b))
  }

  /** Elimination and back substitution return the one vector that the block maps to `b`. */
  lemma SolveInverts(d: Block, b: Vec, x: Vec)
    ensures Mul(d, x) == b <==> x == Solve(d, b)
  {
    PivotsIgnoreRhs(System(d, ZERO), System(d, b));
    SystemIsProduct(d, b, x);
    SolutionIsTheSolution(System(d, b), x);
  }

  lemma SystemIsProduct(m: Mat, b: Vec, x: Vec)
    ensures Solves(System(m, b), x) <==> Mul(m, x) == b
  {
    var eqs := System(m, b);
    assert forall r :: 0 <= r < N ==> (Holds(eqs[r], x) <==> Mul(m, x)[r] == b[r]);
  }

  // The work arrays hold, from the pivot in progress on, the system still to be solved.

  /** Row `r` of the work arrays, columns from `p` on. */
  function WorkRow(tmat: Mat, tv: Vec, p: nat, r: nat): (e: Equation)
    requires p <= N && r < N
    ensures |e.coefficients| == N - p && (p < N ==> e.coefficients[0] == tmat[p][r])
  {
    Equation(MatRow(tmat, r)[p..], tv[r])
  }

  /** Rows and columns from `p` on. */
  function Active(tmat: Mat, tv: Vec, p: nat): (eqs: seq<Equation>)
    requires p <= N
    ensures |eqs| == N - p && forall i :: 0 <= i < N - p ==> eqs[i] == WorkRow(tmat, tv, p, p + i)
  {
    seq(N - p, i requires 0 <= i < N - p => WorkRow(tmat, tv, p, p + i))
  }

  lemma SameRow(m: Mat, b: Vec, m': Mat, b': Vec, p: nat, r: nat)
    requires p <= N && r < N && b[r] == b'[r]
    requires forall c :: p <= c < N ==> m[c][r] == m'[c][r]
    ensures WorkRow(m, b, p, r) == WorkRow(m', b', p, r)
  {
    var x, y := MatRow(m, r), MatRow(m', r);
    assert forall c :: p <= c < N ==> x[c] == y[c];
    assert x[p..] == y[p..];
  }

  /** One row update: `tmp` times the pivot row is taken from row `r`, right of the pivot. */
  method EliminateRow(tmat: array<Vec>, tv: array<real>, p: nat, r: nat, tmp: real)
    requires tmat.Length == tv.Length == N && p < r < N
    requires tmat[p][p] != 0.0 && tmp == Factor(tmat[p][p], tmat[p][r])
    modifies tmat, tv
    ensures WorkRow(tmat[..], tv[..], p + 1, r) ==
            Eliminate(WorkRow(old(tmat[..]), old(tv[..]), p, p), WorkRow(old(tmat[..]), old(tv[..]), p, r))
    ensures forall c, s :: 0 <= c < N && 0 <= s < N && (s != r || c <= p) ==> tmat[c][s] == old(tmat[c][s])
    ensures forall s :: 0 <= s < N && s != r ==> tv[s] == old(tv[s])
  {
    hide Factor, Minus;
    for c := p + 1 to N
      modifies tmat
      invariant forall c', s :: 0 <= c' < N && 0 <= s < N && !(s == r && p < c' < c) ==>
        tmat[c'][s] == old(tmat[c'][s])
      invariant forall c' :: p < c' < c ==> tmat[c'][r] == Minus(old(tmat[c'][r]), tmp, old(tmat[c'][p]))
    {
      tmat[c] := tmat[c][r := Minus(tmat[c][r], tmp, tmat[c][p])];
    }
    tv[r] := Minus(tv[r], tmp, tv[p]);
    ghost var a := WorkRow(old(tmat[..]), old(tv[..]), p, p).coefficients;
    ghost var b := WorkRow(old(tmat[..]), old(tv[..]), p, r).coefficients;
    ghost var after := WorkRow(tmat[..], tv[..], p + 1, r).coefficients;
    forall c | 0 <= c < |after| ensures after[c] == RowMinus(b[1..], tmp, a[1..])[c] {
      assert after[c] == tmat[p + 1 + c][r] == Minus(b[c + 1], tmp, a[c + 1]);
    }
    assert after == RowMinus(b[1..], tmp, a[1..]);
  }

  /** All row updates of one pivot. */
  method EliminateColumn(tmat: array<Vec>, tv: array<real>, p: nat)
    requires tmat.Length == tv.Length == N && p < N && tmat[p][p] != 0.0
    modifies tmat, tv
    ensures Active(old(tmat[..]), old(tv[..]), p)[0].coefficients[0] != 0.0
    ensures Active(tmat[..], tv[..], p + 1) == Reduce(Active(old(tmat[..]), old(tv[..]), p))
    ensures forall c, s :: 0 <= c < N && 0 <= s <= p ==> tmat[c][s] == old(tmat[c][s])
    ensures forall s :: 0 <= s <= p ==> tv[s] == old(tv[s])
  {
    hide Eliminate, WorkRow;
    ghost var m0, b0 := tmat[..], tv[..];
    var tmp1 := 1.0 / tmat[p][p];
    ghost var q := p + 1;
    for r := p + 1 to N
      invariant forall c, s :: 0 <= c < N && 0 <= s < N && (!(p < s < r) || c <= p) ==> tmat[c][s] == m0[c][s]
      invariant forall s :: 0 <= s < N && !(p < s < r) ==> tv[s] == b0[s]
      invariant forall s :: q <= s < r ==>
        WorkRow(tmat[..], tv[..], q, s) == Eliminate(WorkRow(m0, b0, p, p), WorkRow(m0, b0, p, s))
    {
      ghost var m1, b1 := tmat[..], tv[..];
      SameRow(m0, b0, m1, b1, p, p);
      SameRow(m0, b0, m1, b1, p, r);
      EliminateRow(tmat, tv, p, r, tmp1 * tmat[p][r]);
      forall s | q <= s < r
        ensures WorkRow(tmat[..], tv[..], q, s) == WorkRow(m1, b1, q, s)
      {
        SameRow(m1, b1, tmat[..], tv[..], q, s);
      }
    }
    ghost var after := Active(tmat[..], tv[..], p + 1);
    forall i | 0 <= i < |after| ensures after[i] == Reduce(Active(m0, b0, p))[i] {
      assert after[i] == WorkRow(tmat[..], tv[..], q, q + i);
    }
  }

  /** Forward elimination: row `p` ends as the pivot row of stage `p`. */
  method ForwardEliminate(tmat: array<Vec>, tv: array<real>, ghost eqs: seq<Equation>)
    requires tmat.Length == tv.Length == N
    requires Square(eqs, N) && PivotsNonzero(eqs) && eqs == Active(tmat[..], tv[..], 0)
    modifies tmat, tv
    ensures forall p :: 0 <= p < N ==> WorkRow(tmat[..], tv[..], p, p) == Stage(eqs, p)[0]
  {
    hide WorkRow;
    for p := 0 to N - 1
      invariant Active(tmat[..], tv[..], p) == Stage(eqs, p)
      invariant forall q :: 0 <= q < p ==> WorkRow(tmat[..], tv[..], q, q) == Stage(eqs, q)[0]
    {
      ghost var m1, b1 := tmat[..], tv[..];
      assert WorkRow(m1, b1, p, p) == Stage(eqs, p)[0];
      EliminateColumn(tmat, tv, p);
      forall q | 0 <= q <= p
        ensures WorkRow(tmat[..], tv[..], q, q) == WorkRow(m1, b1, q, q)
      {
        SameRow(m1, b1, tmat[..], tv[..], q, q);
      }
      assert Active(tmat[..], tv[..], p + 1) == Stage(eqs, p + 1);
    }
    assert Stage(eqs, N - 1)[0] == Active(tmat[..], tv[..], N - 1)[0];
  }

  /** Takes the known unknowns out of row `m`'s right-hand side. */
  method SubtractKnown(tmat: array<Vec>, tv: array<real>, m: nat, x: Vec)
    requires tmat.Length == tv.Length == N && m < N
    modifies tv
    ensures tv[m] == old(tv[m]) - Dot(MatRow(tmat[..], m)[m + 1..], x[m + 1..])
    ensures forall s :: 0 <= s < N && s != m ==> tv[s] == old(tv[s])
  {
    ghost var p, rest := MatRow(tmat[..], m)[m + 1..], x[m + 1..];
    assert Dot(p[..0], rest[..0]) == 0.0;
    hide Dot;
    for c := m + 1 to N
      invariant forall s :: 0 <= s < N && s != m ==> tv[s] == old(tv[s])
      invariant tv[m] == old(tv[m]) - Dot(p[..c - m - 1], rest[..c - m - 1])
    {
      ghost var n := c - m - 1;
      assert p[n] == tmat[c][m] && rest[n] == x[c];
      DotSnoc(p[..n], rest[..n], tmat[c][m], x[c]);
      assert p[..n + 1] == p[..n] + [tmat[c][m]] && rest[..n + 1] == rest[..n] + [x[c]];
      tv[m] := tv[m] - tmat[c][m] * x[c];
    }
    assert p[..N - m - 1] == p && rest[..N - m - 1] == rest;
  }

  /** Back substitution on the pivot rows. */
  method BackSubstituteRows(tmat: array<Vec>, tv: array<real>, ghost eqs: seq<Equation>) returns (x: Vec)
    requires tmat.Length == tv.Length == N
    requires Square(eqs, N) && PivotsNonzero(eqs)
    requires forall p :: 0 <= p < N ==> WorkRow(tmat[..], tv[..], p, p) == Stage(eqs, p)[0]
    modifies tv
    ensures x == Solution(eqs)
  {
    hide Dot, Eliminate, Reduce;
    x := ZERO;
    ghost var b0 := tv[..];
    for m := N downto 0
      invariant forall s :: 0 <= s < m ==> tv[s] == b0[s]
      invariant x[m..] == Solution(Stage(eqs, m))
    {
      ghost var rest := x[m + 1..];
      SubtractKnown(tmat, tv, m, x);
      ghost var p := WorkRow(tmat[..], b0, m, m);
      assert p.coefficients[1..] == MatRow(tmat[..], m)[m + 1..];
      x := x[m := tv[m] / tmat[m][m]];
      assert Stage(eqs, m + 1) == Reduce(Stage(eqs, m));
      assert x[m..] == [x[m]] + rest == BackSubstitute(p, rest);
    }
  }

  /** The block solve in the work arrays: copies the block, eliminates, substitutes back. */
  method SolveInPlace(d: Block, b: Vec, tmat: array<Vec>, tv: array<real>) returns (x: Vec)
    requires tmat.Length == tv.Length == N
    modifies tmat, tv
    ensures x == Solve(d, b)
  {
    for c := 0 to N
      invariant forall c' :: 0 <= c' < c ==> tmat[c'] == d[c']
    {
      tmat[c] := d[c];
    }
    for m := 0 to N
      invariant tmat[..] == d
      invariant forall s :: 0 <= s < m ==> tv[s] == b[s]
    {
      tv[m] := b[m];
    }
    assert tmat[..] == d && tv[..] == b;
    PivotsIgnoreRhs(System(d, ZERO), System(d, b));
    ActiveIsSystem(d, b);
    ForwardEliminate(tmat, tv, System(d, b));
    x := BackSubstituteRows(tmat, tv, System(d, b));
  }

  lemma ActiveIsSystem(d: Mat, b: Vec)
    ensures Active(d, b, 0) == System(d, b)
  {
    forall i | 0 <= i < N ensures Active(d, b, 0)[i] == System(d, b)[i] {
      assert MatRow(d, i)[0..] == MatRow(d, i);
    }
  }

  lemma {:induction false} UnitPivots(eqs: seq<Equation>)
    requires Square(eqs, |eqs|)
    requires forall i, j :: 0 <= i < |eqs| && 0 <= j < |eqs| ==>
      eqs[i].coefficients[j] == if i == j then 1.0 else 0.0
    ensures PivotsNonzero(eqs)
    decreases |eqs|
  {
    if |eqs| > 0 {
      UnitPivots(Reduce(eqs));
    }
  }

  /** The identity block. */
  ghost function Identity(): (m: Mat)
    ensures PivotsNonzero(System(m, ZERO))
  {
    var m: Mat := seq(N, c => seq(N, r => if r == c then 1.0 else 0.0));
    UnitPivots(System(m, ZERO));
    m
  }
}
