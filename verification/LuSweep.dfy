/**
  The lower and upper triangular sweeps of the LU benchmark's SSOR step.

  A grid position is counted in sweep order: planes, rows and columns ascend from the
  side the sweep starts on, and -1 is the boundary layer before the first interior one.
  For the lower sweep (`blts`) that is plane k-1, row j-jst, column i-ist; for the upper
  sweep (`buts`), which runs backwards, it is nz-2-k, jend-1-j, iend-1-i.
 */
module LuSweep {
  import opened RealVectors
  import opened LuBlocks

  datatype Pos = Pos(p: int, r: int, c: int) {
    function PrevPlane(): Pos { Pos(p - 1, r, c) }
    function PrevRow(): Pos { Pos(p, r - 1, c) }
    function PrevColumn(): Pos { Pos(p, r, c - 1) }
    predicate Boundary() { p < 0 || r < 0 || c < 0 }
  }

  type Grid = Pos -> Vec

  /** The coefficient blocks of one sweep: the three off-diagonal blocks that couple a cell to its
      predecessors in plane, row and column, and the diagonal block. */
  datatype Sweep =
    | Lower(omega: real, z: Pos -> Mat, y: Pos -> Mat, x: Pos -> Mat, d: Pos -> Block)
    | Upper(omega: real, z: Pos -> Mat, y: Pos -> Mat, x: Pos -> Mat, d: Pos -> Block)
  {
    /** The grid value after the first loop, which couples to the previous plane. */
    function PlaneValue(at: Pos, v: Vec, prev: Vec): Vec {
      if Lower? then Sub(v, Scale(omega, Mul(z(at), prev))) else v
    }

    /** The work value `tv` after the first loop. */
    function PlaneWork(at: Pos, t: Vec, prev: Vec): Vec {
      if Lower? then t else Scale(omega, Mul(z(at), prev))
    }

    /** The coupling of a cell to its row and column predecessors. */
    function Coupling(at: Pos, up: Vec, left: Vec): Vec {
      Scale(omega, Add(Mul(y(at), up), Mul(x(at), left)))
    }

    /** The vector `tv` that the block solve leaves behind. */
    function RowSolution(at: Pos, v: Vec, t: Vec, up: Vec, left: Vec): Vec {
      Solve(d(at), if Lower? then Sub(v, Coupling(at, up, left)) else Add(t, Coupling(at, up, left)))
    }

    /** The grid value after the second loop. */
    function RowValue(at: Pos, v: Vec, t: Vec, up: Vec, left: Vec): Vec {
      var s := RowSolution(at, v, t, up, left);
      if Lower? then s else Sub(v, s)
    }

    /** Both loops on one cell, whose predecessors have their final values. */
    function CellValue(at: Pos, v: Vec, prev: Vec, up: Vec, left: Vec): Vec {
      RowValue(at, PlaneValue(at, v, prev), PlaneWork(at, ZERO, prev), up, left)
    }

    /** The value the sweep gives to a position when it starts from the grid `v0`. */
    function Final(v0: Grid, at: Pos): Vec
      decreases if at.Boundary() then 0 else at.p + at.r + at.c + 3
    {
      if at.Boundary() then v0(at)
      else CellValue(at, v0(at), Final(v0, at.PrevPlane()), Final(v0, at.PrevRow()), Final(v0, at.PrevColumn()))
    }

    /** The block equation of one cell: for the lower sweep `D v + omega (Z prev + Y up + X left)` is the old
        value, for the upper sweep it is `D` times the old value. */
    ghost predicate CellEquation(v0: Grid, v: Grid, at: Pos) {
      Add(Mul(d(at), v(at)),
          Add(Scale(omega, Mul(z(at), v(at.PrevPlane()))),
              Scale(omega, Add(Mul(y(at), v(at.PrevRow())), Mul(x(at), v(at.PrevColumn()))))))
      == if Lower? then v0(at) else Mul(d(at), v0(at))
    }

    /** The same, unknown by unknown. */
    lemma CellByComponents(v0: Grid, v: Grid, at: Pos)
      ensures CellEquation(v0, v, at) <==>
              forall r :: 0 <= r < N ==>
                Mul(d(at), v(at))[r] + (omega * Mul(z(at), v(at.PrevPlane()))[r]
                + omega * (Mul(y(at), v(at.PrevRow()))[r] + Mul(x(at), v(at.PrevColumn()))[r]))
                == if Lower? then v0(at)[r] else Mul(d(at), v0(at))[r]
    {
      hide Mul, Add, Scale;
      SumByComponents(Mul(d(at), v(at)), Mul(z(at), v(at.PrevPlane())), Mul(y(at), v(at.PrevRow())),
                      Mul(x(at), v(at.PrevColumn())), if Lower? then v0(at) else Mul(d(at), v0(at)));
    }

    lemma SumByComponents(a: Vec, b: Vec, c: Vec, e: Vec, rhs: Vec)
      ensures Add(a, Add(Scale(omega, b), Scale(omega, Add(c, e)))) == rhs <==>
              forall r :: 0 <= r < N ==> a[r] + (omega * b[r] + omega * (c[r] + e[r])) == rhs[r]
    {
      hide Add, Scale;
      var sum := Add(a, Add(Scale(omega, b), Scale(omega, Add(c, e))));
      forall r | 0 <= r < N ensures sum[r] == a[r] + (omega * b[r] + omega * (c[r] + e[r])) {}
      SameVectors(sum, rhs);
    }

    lemma SameVectors(a: Vec, b: Vec)
      ensures a == b <==> forall r :: 0 <= r < N ==> a[r] == b[r]
    {}

    /** What the second loop leaves at a cell of the lower sweep: the diagonal block and the two couplings give the
        value it found. */
    lemma LowerRelaxes(at: Pos, v: Vec, up: Vec, left: Vec)
      requires Lower?
      ensures forall r :: 0 <= r < N ==>
                Mul(d(at), RowValue(at, v, ZERO, up, left))[r]
                + omega * (Mul(y(at), up)[r] + Mul(x(at), left)[r]) == v[r]
    {
      hide Mul, Solve;
      SolveInverts(d(at), Sub(v, Coupling(at, up, left)), RowValue(at, v, ZERO, up, left));
    }

    /** And at a cell of the upper sweep, where `t` is the coupling to the plane: what the value loses, the diagonal
        block maps to the three couplings. */
    lemma UpperRelaxes(at: Pos, v: Vec, t: Vec, up: Vec, left: Vec)
      requires Upper?
      ensures forall r :: 0 <= r < N ==>
                Mul(d(at), Sub(v, RowValue(at, v, t, up, left)))[r]
                == t[r] + omega * (Mul(y(at), up)[r] + Mul(x(at), left)[r])
    {
      hide Mul, Solve;
      var s := RowSolution(at, v, t, up, left);
      SolveInverts(d(at), Add(t, Coupling(at, up, left)), s);
      SameVectors(Sub(v, Sub(v, s)), s);
    }

    /** A grid solves the sweep's block triangular system. */
    ghost predicate SolvesSystem(v0: Grid, v: Grid) {
      forall at: Pos :: if at.Boundary() then v(at) == v0(at) else CellEquation(v0, v, at)
    }

    lemma MulOfSub(m: Mat, x: Vec, y: Vec)
      ensures Mul(m, Sub(x, y)) == Sub(Mul(m, x), Mul(m, y))
    {
      forall r | 0 <= r < N ensures Mul(m, Sub(x, y))[r] == Sub(Mul(m, x), Mul(m, y))[r] {
        DotOfSub(MatRow(m, r), x, y);
      }
    }

    lemma MoveAcross(a: Vec, b: Vec, c: Vec)
      ensures Add(a, b) == c <==> a == Sub(c, b)
    {
      assert Add(a, b) == c <==> forall i :: 0 <= i < N ==> a[i] + b[i] == c[i];
      if Add(a, b) == c {
        assert forall i :: 0 <= i < N ==> a[i] == Sub(c, b)[i];
      }
      if a == Sub(c, b) {
        assert forall i :: 0 <= i < N ==> Add(a, b)[i] == c[i];
      }
    }

    lemma Regroup(a: Vec, b: Vec, c: Vec)
      ensures Sub(Sub(a, b), c) == Sub(a, Add(b, c))
    {}

    /** The lower sweep's cell: the right-hand side loses what the neighbours contribute, one after the other. */
    lemma LowerCell(at: Pos, old_: Vec, x: Vec, a: Vec, b: Vec)
      ensures Add(Mul(d(at), x), Add(a, b)) == old_ <==> x == Solve(d(at), Sub(Sub(old_, a), b))
    {
      hide Mul, Solve;
      MoveAcross(Mul(d(at), x), Add(a, b), old_);
      Regroup(old_, a, b);
      SolveInverts(d(at), Sub(old_, Add(a, b)), x);
    }

    /** The upper sweep's cell: the old value loses the solution for what the neighbours contribute. */
    lemma UpperCell(at: Pos, old_: Vec, x: Vec, b: Vec)
      ensures Add(Mul(d(at), x), b) == Mul(d(at), old_) <==> x == Sub(old_, Solve(d(at), b))
    {
      hide Mul, Solve;
      MoveAcross(b, Mul(d(at), x), Mul(d(at), old_));
      MulOfSub(d(at), old_, x);
      SolveInverts(d(at), b, Sub(old_, x));
      Swap(Mul(d(at), x), b);
      MoveAcross(x, Solve(d(at), b), old_);
      MoveAcross(Solve(d(at), b), x, old_);
      Swap(x, Solve(d(at), b));
    }

    lemma Swap(a: Vec, b: Vec)
      ensures Add(a, b) == Add(b, a)
    {}

    /** One cell: the two loops and the block solve satisfy the block equation, and nothing else does. */
    lemma CellSolvesEquation(v0: Grid, v: Grid, at: Pos)
      ensures CellEquation(v0, v, at) <==>
              v(at) == CellValue(at, v0(at), v(at.PrevPlane()), v(at.PrevRow()), v(at.PrevColumn()))
    {
      hide Mul, Solve, Add, Sub, Scale;
      var prev, up, left := v(at.PrevPlane()), v(at.PrevRow()), v(at.PrevColumn());
      var a, b := Scale(omega, Mul(z(at), prev)), Coupling(at, up, left);
      if Lower? {
        LowerCell(at, v0(at), v(at), a, b);
      } else {
        UpperCell(at, v0(at), v(at), Add(a, b));
      }
    }

    /** The sweep solves the block triangular system. */
    lemma FinalSolvesSystem(v0: Grid)
      ensures SolvesSystem(v0, at => Final(v0, at))
    {
      forall at: Pos | !at.Boundary() ensures CellEquation(v0, at => Final(v0, at), at) {
        CellSolvesEquation(v0, at => Final(v0, at), at);
      }
    }

    /** The block triangular system has no other solution. */
    lemma {:induction false} SystemHasOneSolution(v0: Grid, v: Grid, at: Pos)
      requires SolvesSystem(v0, v)
      ensures v(at) == Final(v0, at)
      decreases if at.Boundary() then 0 else at.p + at.r + at.c + 3
    {
      if !at.Boundary() {
        SystemHasOneSolution(v0, v, at.PrevPlane());
        SystemHasOneSolution(v0, v, at.PrevRow());
        SystemHasOneSolution(v0, v, at.PrevColumn());
        CellSolvesEquation(v0, v, at);
      }
    }
  }
}
