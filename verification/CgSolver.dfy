/**
  `conj_grad` of the CG benchmark: 25 conjugate gradient iterations on a matrix in compressed
  rows, in the arrays z, p, q and r, and the explicit residual at the end.
 */
module CgSolver {
  import opened RealVectors
  import opened ConjGrad
  import opened CgMatrix
  import CgSparse

  function SlotRow(n: nat, a: seq<real>, colidx: seq<int>, lo: nat, hi: nat): (row: seq<real>)
    requires lo <= hi <= |a| && hi <= |colidx|
    ensures |row| == n
  {
    seq(n, c requires 0 <= c < n => SlotSum(a, colidx, lo, hi, c))
  }

  /** The dense matrix. */
  ghost function DenseMatrix(n: nat, a: seq<real>, colidx: seq<int>, rowstr: seq<int>): (A: Matrix)
    requires WellFormed(n, a, colidx, rowstr)
    ensures |A| == n && IsSquare(A)
  {
    seq(n, j requires 0 <= j < n =>
      assert RowInRange(rowstr, j, |a|);
      SlotRow(n, a, colidx, rowstr[j], rowstr[j + 1]))
  }

  /** The product of the stored slots of a row with a vector. */
  function SlotProduct(a: seq<real>, colidx: seq<int>, lo: nat, hi: nat, v: seq<real>): real
    requires lo <= hi <= |a| && hi <= |colidx| && forall k :: lo <= k < hi ==> 0 <= colidx[k] < |v|
    decreases hi - lo
  {
    if lo == hi then 0.0 else a[lo] * v[colidx[lo]] + SlotProduct(a, colidx, lo + 1, hi, v)
  }

  function Unit(n: nat, c: int, x: real): (u: seq<real>)
    ensures |u| == n
  {
    seq(n, i => if i == c then x else 0.0)
  }

  lemma {:induction false} DotOfUnit(n: nat, c: int, x: real, v: seq<real>)
    requires |v| == n
    ensures Dot(Unit(n, c, x), v) == if 0 <= c < n then x * v[c] else 0.0
  {
    if n > 0 {
      assert Unit(n, c, x)[1..] == Unit(n - 1, c - 1, x);
      DotOfUnit(n - 1, c - 1, x, v[1..]);
    }
  }

  lemma SlotRowSplits(n: nat, a: seq<real>, colidx: seq<int>, lo: nat, hi: nat)
    requires lo < hi <= |a| && hi <= |colidx|
    ensures SlotRow(n, a, colidx, lo, hi) == Add(Unit(n, colidx[lo], a[lo]), SlotRow(n, a, colidx, lo + 1, hi))
  {}

  lemma {:induction false} ZeroRow(n: nat, v: seq<real>)
    requires |v| == n
    ensures Dot(seq(n, c => 0.0), v) == 0.0
  {
    if n > 0 {
      assert seq(n, c => 0.0)[1..] == seq(n - 1, c => 0.0);
      ZeroRow(n - 1, v[1..]);
    }
  }

  /** The sparse product of a row is the dense one. */
  lemma {:induction false} SlotProductIsDot(n: nat, a: seq<real>, colidx: seq<int>, lo: nat, hi: nat, v: seq<real>)
    requires lo <= hi <= |a| && hi <= |colidx| && |v| == n && forall k :: lo <= k < hi ==> 0 <= colidx[k] < n
    ensures SlotProduct(a, colidx, lo, hi, v) == Dot(SlotRow(n, a, colidx, lo, hi), v)
    decreases hi - lo
  {
    if lo == hi {
      ZeroRow(n, v);
      assert SlotRow(n, a, colidx, lo, hi) == seq(n, c => 0.0);
    } else {
      SlotProductIsDot(n, a, colidx, lo + 1, hi, v);
      SlotRowSplits(n, a, colidx, lo, hi);
      var u, rest := Unit(n, colidx[lo], a[lo]), SlotRow(n, a, colidx, lo + 1, hi);
      DotCommutes(Add(u, rest), v);
      DotOfAdd(v, u, rest);
      DotCommutes(u, v);
      DotCommutes(rest, v);
      DotOfUnit(n, colidx[lo], a[lo], v);
    }
  }

  // ----- the loops -----

  /** out = A v, row by row over the stored slots. */
  method MatVec(n: nat, a: seq<real>, colidx: seq<int>, rowstr: seq<int>, v: array<real>, out: array<real>)
    requires WellFormed(n, a, colidx, rowstr) && n <= v.Length && n <= out.Length && v != out
    modifies out
    ensures out[..n] == Apply(DenseMatrix(n, a, colidx, rowstr), v[..n])
    ensures out[n..] == old(out[n..])
  {
    hide Dot, SlotRow, SlotProduct;
    ghost var A := DenseMatrix(n, a, colidx, rowstr);
    for j := 0 to n
      invariant out[n..] == old(out[n..])
      invariant forall m :: 0 <= m < j ==> out[m] == Dot(A[m], v[..n])
    {
      assert RowInRange(rowstr, j, |a|) && ColumnsInRange(colidx, rowstr, j, n);
      var suml := RowTimes(n, a, colidx, rowstr[j], rowstr[j + 1], v);
      SlotProductIsDot(n, a, colidx, rowstr[j], rowstr[j + 1], v[..n]);
      out[j] := suml;
    }
  }

  method RowTimes(n: nat, a: seq<real>, colidx: seq<int>, lo: nat, hi: nat, v: array<real>) returns (suml: real)
    requires lo <= hi <= |a| && hi <= |colidx| && n <= v.Length && forall k :: lo <= k < hi ==> 0 <= colidx[k] < n
    ensures suml == SlotProduct(a, colidx, lo, hi, v[..n])
  {
    suml := 0.0;
    for k := lo to hi
      invariant suml + SlotProduct(a, colidx, k, hi, v[..n]) == SlotProduct(a, colidx, lo, hi, v[..n])
    {
      suml := suml + a[k] * v[colidx[k]];
    }
  }

  lemma DotPrefix(u: seq<real>, v: seq<real>, j: nat)
    requires |u| == |v| && j < |u|
    ensures Dot(u[..j + 1], v[..j + 1]) == Dot(u[..j], v[..j]) + u[j] * v[j]
  {
    assert u[..j + 1] == u[..j] + [u[j]] && v[..j + 1] == v[..j] + [v[j]];
    DotSnoc(u[..j], v[..j], u[j], v[j]);
  }

  /** The reduction loops. */
  method DotLoop(n: nat, u: array<real>, v: array<real>) returns (d: real)
    requires n <= u.Length && n <= v.Length
    ensures d == Dot(u[..n], v[..n])
  {
    d := 0.0;
    for j := 0 to n
      invariant d == Dot(u[..n][..j], v[..n][..j])
    {
      DotPrefix(u[..n], v[..n], j);
      d := d + u[j] * v[j];
    }
    assert u[..n][..n] == u[..n] && v[..n][..n] == v[..n];
  }

  lemma NoDot()
    ensures Dot([], []) == 0.0
  {}

  /** z = z + alpha p, r = r - alpha q, and the squared norm of the new r. */
  method UpdateSolution(n: nat, alpha: real, p: array<real>, q: array<real>, z: array<real>, r: array<real>)
    returns (rho: real)
    requires n <= p.Length && n <= q.Length && n <= z.Length && n <= r.Length
    requires z != p && z != q && z != r && r != p && r != q
    modifies z, r
    ensures z[..n] == Add(old(z[..n]), Scale(alpha, p[..n]))
    ensures r[..n] == Sub(old(r[..n]), Scale(alpha, q[..n]))
    ensures rho == Dot(r[..n], r[..n])
    ensures z[n..] == old(z[n..]) && r[n..] == old(r[n..])
  {
    hide Dot;
    ghost var z1, r1 := Add(z[..n], Scale(alpha, p[..n])), Sub(r[..n], Scale(alpha, q[..n]));
    forall m | 0 <= m < n ensures z1[m] == z[m] + alpha * p[m] && r1[m] == r[m] - alpha * q[m] {}
    hide Add, Sub, Scale;
    NoDot();
    rho := 0.0;
    for j := 0 to n
      invariant z[n..] == old(z[n..]) && r[n..] == old(r[n..])
      invariant forall m :: 0 <= m < n ==> z[m] == (if m < j then z1[m] else old(z[m]))
      invariant forall m :: 0 <= m < n ==> r[m] == (if m < j then r1[m] else old(r[m]))
      invariant rho == Dot(r1[..j], r1[..j])
    {
      z[j] := z[j] + alpha * p[j];
      r[j] := r[j] - alpha * q[j];
      DotPrefix(r1, r1, j);
      rho := rho + r[j] * r[j];
    }
    assert r[..n] == r1 && z[..n] == z1 && r1[..n] == r1;
  }

  /** p = r + beta p. */
  method UpdateDirection(n: nat, beta: real, r: array<real>, p: array<real>)
    requires n <= p.Length && n <= r.Length && p != r
    modifies p
    ensures p[..n] == Add(r[..n], Scale(beta, old(p[..n]))) && p[n..] == old(p[n..])
  {
    ghost var p1 := Add(r[..n], Scale(beta, p[..n]));
    for j := 0 to n
      invariant p[n..] == old(p[n..])
      invariant forall m :: 0 <= m < n ==> p[m] == (if m < j then p1[m] else old(p[m]))
    {
      p[j] := r[j] + beta * p[j];
    }
    assert p[..n] == p1;
  }

  /** The arrays hold a state of the iteration. */
  ghost predicate Represents(n: nat, s: CG, z: array<real>, r: array<real>, p: array<real>, rho: real)
    reads z, r, p
  {
    n <= z.Length && n <= r.Length && n <= p.Length &&
    s.z == z[..n] && s.r == r[..n] && s.p == p[..n] && s.rho == rho
  }

  /** The starting values. */
  method Initialize(n: nat, x: array<real>, z: array<real>, p: array<real>, q: array<real>, r: array<real>)
    returns (rho: real)
    requires n < x.Length && n < z.Length && n < p.Length && n < q.Length && n < r.Length
    requires x !in {z, p, q, r} && z !in {p, q, r} && p !in {q, r} && q != r
    modifies z, p, q, r
    ensures Represents(n, Start(x[..n]), z, r, p, rho)
  {
    for j := 0 to n + 1
      invariant forall m :: 0 <= m < j ==> q[m] == 0.0 && z[m] == 0.0 && r[m] == x[m] && p[m] == x[m]
    {
      q[j] := 0.0;
      z[j] := 0.0;
      r[j] := x[j];
      p[j] := r[j];
    }
    rho := DotLoop(n, r, r);
    assert r[..n] == x[..n] && p[..n] == x[..n];
    assert z[..n] == Scale(0.0, x[..n]);
  }

  /** One pass of the iteration loop. */
  method Iterate(n: nat, a: seq<real>, colidx: seq<int>, rowstr: seq<int>, z: array<real>, p: array<real>,
                 q: array<real>, r: array<real>, rho0: real, ghost s: CG) returns (rho: real)
    requires WellFormed(n, a, colidx, rowstr) && n <= q.Length && Represents(n, s, z, r, p, rho0)
    requires z !in {p, q, r} && p !in {q, r} && q != r
    requires CanStep(DenseMatrix(n, a, colidx, rowstr), s)
    modifies z, p, q, r
    ensures Represents(n, Step(DenseMatrix(n, a, colidx, rowstr), s), z, r, p, rho)
  {
    hide DenseMatrix, Apply, Dot;
    MatVec(n, a, colidx, rowstr, p, q);
    var d := DotLoop(n, p, q);
    var alpha := rho0 / d;
    rho := UpdateSolution(n, alpha, p, q, z, r);
    var beta := rho / rho0;
    UpdateDirection(n, beta, r, p);
  }

  /** The residual computed explicitly at the end: the squared norm of x - A z. */
  method ExplicitResidual(n: nat, a: seq<real>, colidx: seq<int>, rowstr: seq<int>, x: array<real>, z: array<real>,
                          r: array<real>)
    returns (sum: real)
    requires WellFormed(n, a, colidx, rowstr) && n <= x.Length && n <= z.Length && n <= r.Length && r != x && r != z
    modifies r
    ensures var e := Sub(x[..n], Apply(DenseMatrix(n, a, colidx, rowstr), z[..n])); sum == Dot(e, e)
  {
    hide DenseMatrix, Apply, Dot;
    MatVec(n, a, colidx, rowstr, z, r);
    ghost var az := r[..n];
    ghost var e := Sub(x[..n], az);
    NoDot();
    sum := 0.0;
    for j := 0 to n
      invariant r[..n] == az
      invariant sum == Dot(e[..j], e[..j])
    {
      var suml := x[j] - r[j];
      assert az[j] == r[j];
      DotPrefix(e, e, j);
      sum := sum + suml * suml;
    }
    assert e[..n] == e;
  }

  /** `conj_grad`: after 25 iterations z is the iterate of the exact recurrence, and the squared norm of the residual,
      computed explicitly, is the recurrence's own rho. */
  method ConjGrad25(n: nat, a: seq<real>, colidx: seq<int>, rowstr: seq<int>, x: array<real>, z: array<real>,
                    p: array<real>, q: array<real>, r: array<real>) returns (sum: real)
    requires WellFormed(n, a, colidx, rowstr)
    requires n < x.Length && n < z.Length && n < p.Length && n < q.Length && n < r.Length
    requires x !in {z, p, q, r} && z !in {p, q, r} && p !in {q, r} && q != r
    requires Runs(DenseMatrix(n, a, colidx, rowstr), x[..n], 25)
    modifies z, p, q, r
    ensures var A := DenseMatrix(n, a, colidx, rowstr);
            var e := Sub(x[..n], Apply(A, z[..n]));
            && z[..n] == At(A, x[..n], 25).z
            && sum == Dot(e, e) == At(A, x[..n], 25).rho
  {
    hide DenseMatrix, Apply, Dot, Step, CanStep, Start;
    ghost var A, x0 := DenseMatrix(n, a, colidx, rowstr), x[..n];
    var rho := Initialize(n, x, z, p, q, r);
    for cgit := 0 to 25
      invariant x[..n] == x0
      invariant Represents(n, At(A, x0, cgit), z, r, p, rho)
    {
      NextIsStepAt(A, x0, cgit, 25);
      rho := Iterate(n, a, colidx, rowstr, z, p, q, r, rho, At(A, x0, cgit));
    }
    ResidualStaysTrue(A, x0, 25);
    sum := ExplicitResidual(n, a, colidx, rowstr, x, z, r);
  }

  lemma NextIsStepAt(A: Matrix, x: seq<real>, k: nat, m: nat)
    requires Runs(A, x, m) && k < m
    ensures CanStep(A, At(A, x, k)) && At(A, x, k + 1) == Step(A, At(A, x, k))
  {}

  // ----- the matrix of the benchmark is symmetric -----

  function ColumnOf(rows: seq<seq<real>>, n: nat, c: nat): (col: seq<real>)
    requires c < n && forall j :: 0 <= j < |rows| ==> |rows[j]| == n
    ensures |col| == |rows|
  {
    seq(|rows|, j requires 0 <= j < |rows| => rows[j][c])
  }

  function RowDots(rows: seq<seq<real>>, n: nat, v: seq<real>): (w: seq<real>)
    requires |v| == n && forall j :: 0 <= j < |rows| ==> |rows[j]| == n
    ensures |w| == |rows|
  {
    seq(|rows|, j requires 0 <= j < |rows| => Dot(rows[j], v))
  }

  function ColumnDots(rows: seq<seq<real>>, n: nat, u: seq<real>): (w: seq<real>)
    requires |u| == |rows| && forall j :: 0 <= j < |rows| ==> |rows[j]| == n
    ensures |w| == n
  {
    seq(n, c requires 0 <= c < n => Dot(u, ColumnOf(rows, n, c)))
  }

  lemma ColumnDotsSplit(rows: seq<seq<real>>, n: nat, u: seq<real>)
    requires 0 < |u| == |rows| && forall j :: 0 <= j < |rows| ==> |rows[j]| == n
    ensures ColumnDots(rows, n, u) == Add(Scale(u[0], rows[0]), ColumnDots(rows[1..], n, u[1..]))
  {
    forall c | 0 <= c < n
      ensures ColumnDots(rows, n, u)[c] == u[0] * rows[0][c] + ColumnDots(rows[1..], n, u[1..])[c]
    {
      assert ColumnOf(rows, n, c)[1..] == ColumnOf(rows[1..], n, c);
    }
  }

  /** Summing a bilinear form by rows or by columns. */
  lemma {:induction false} RowsOrColumns(rows: seq<seq<real>>, n: nat, u: seq<real>, v: seq<real>)
    requires |u| == |rows| && |v| == n && forall j :: 0 <= j < |rows| ==> |rows[j]| == n
    ensures Dot(u, RowDots(rows, n, v)) == Dot(v, ColumnDots(rows, n, u))
    decreases |rows|
  {
    if rows == [] {
      assert ColumnDots(rows, n, u) == Scale(0.0, v);
      DotOfScale(v, 0.0, v);
    } else {
      var rest := ColumnDots(rows[1..], n, u[1..]);
      RowsOrColumns(rows[1..], n, u[1..], v);
      assert RowDots(rows, n, v)[1..] == RowDots(rows[1..], n, v);
      ColumnDotsSplit(rows, n, u);
      DotOfAdd(v, Scale(u[0], rows[0]), rest);
      DotOfScale(v, u[0], rows[0]);
      DotCommutes(v, rows[0]);
    }
  }

  lemma SymmetricEntries(A: Matrix)
    requires IsSquare(A) && forall j, c :: 0 <= j < |A| && 0 <= c < |A| ==> A[j][c] == A[c][j]
    ensures Symmetric(A)
  {
    forall u: seq<real>, v: seq<real> | |u| == |A| == |v|
      ensures Dot(u, Apply(A, v)) == Dot(v, Apply(A, u))
    {
      RowsOrColumns(A, |A|, u, v);
      assert RowDots(A, |A|, v) == Apply(A, v);
      forall c | 0 <= c < |A| ensures ColumnDots(A, |A|, u)[c] == Apply(A, u)[c] {
        assert ColumnOf(A, |A|, c) == A[c];
        DotCommutes(u, A[c]);
      }
      assert ColumnDots(A, |A|, u) == Apply(A, u);
    }
  }

  /** The matrix `makea` builds is symmetric, so the iterates of `conj_grad` on it are orthogonal and conjugate. */
  lemma BenchmarkMatrixIsSymmetric(P: CgSparse.Problem, a: seq<real>, colidx: seq<int>, rowstr: seq<int>)
    requires IsMatrixOf(P, a, colidx, rowstr)
    ensures Symmetric(DenseMatrix(P.Order(), a, colidx, rowstr))
  {
    var n := P.Order();
    var A := DenseMatrix(n, a, colidx, rowstr);
    forall j, c | 0 <= j < n && 0 <= c < n ensures A[j][c] == A[c][j] {
      assert A[j][c] == Element(a, colidx, rowstr, j, c) && A[c][j] == Element(a, colidx, rowstr, c, j);
      MatrixIsSymmetric(P, a, colidx, rowstr, j, c);
    }
    SymmetricEntries(A);
  }
}
