/**
  The sweeps of the LU benchmark as one thread runs them: `blts` and `buts` on the grid array,
  and the k-loops of `ssor` around them. Physical indices are plane k, row j and column i;
  the interior is 1 up to n-2 in each direction.
 */
module LuSerial {
  import opened RealVectors
  import opened LuBlocks
  import opened LuSweep

  datatype Mesh = Mesh(nz: nat, ny: nat, nx: nat) {
    predicate Valid() { 3 <= nz && 3 <= ny && 3 <= nx }
    predicate Inside(k: int, j: int, i: int) { 1 <= k < nz - 1 && 1 <= j < ny - 1 && 1 <= i < nx - 1 }
    predicate InArray(k: int, j: int, i: int) { 0 <= k < nz && 0 <= j < ny && 0 <= i < nx }
  }

  /** The position of a cell in the order of the lower sweep. */
  function LowerPos(m: Mesh, k: int, j: int, i: int): Pos { Pos(k - 1, j - 1, i - 1) }

  /** The position of a cell in the order of the upper sweep. */
  function UpperPos(m: Mesh, k: int, j: int, i: int): Pos { Pos(m.nz - 2 - k, m.ny - 2 - j, m.nx - 2 - i) }

  predicate IsGrid(v: array3<Vec>, m: Mesh) {
    v.Length0 == m.nz && v.Length1 == m.ny && v.Length2 == m.nx
  }

  /** A cell of plane `k` comes before (j, i) in the order of rows and columns. */
  predicate Earlier(m: Mesh, k: int, j': int, i': int, j: int, i: int) {
    m.Inside(k, j', i') && (j' < j || (j' == j && i' < i))
  }

  /** The first loop of `blts` on plane `k`. */
  method BltsCouple(v: array3<Vec>, m: Mesh, k: int, s: Sweep)
    requires m.Valid() && IsGrid(v, m) && 1 <= k < m.nz - 1 && s.Lower?
    modifies v
    ensures forall k', j, i :: m.InArray(k', j, i) ==>
      (v[k', j, i] ==
       if k' == k && m.Inside(k, j, i)
       then s.PlaneValue(LowerPos(m, k, j, i), old(v[k, j, i]), old(v[k - 1, j, i])) else old(v[k', j, i]))
  {
    hide LowerPos;
    for j := 1 to m.ny - 1
      invariant forall k', j', i' :: m.InArray(k', j', i') ==>
        (v[k', j', i'] ==
         if k' == k && Earlier(m, k, j', i', j, 0)
         then s.PlaneValue(LowerPos(m, k, j', i'), old(v[k, j', i']), old(v[k - 1, j', i'])) else old(v[k', j', i']))
    {
      for i := 1 to m.nx - 1
        invariant forall k', j', i' :: m.InArray(k', j', i') ==>
          (v[k', j', i'] ==
           if k' == k && Earlier(m, k, j', i', j, i)
           then s.PlaneValue(LowerPos(m, k, j', i'), old(v[k, j', i']), old(v[k - 1, j', i'])) else old(v[k', j', i']))
      {
        v[k, j, i] := Sub(v[k, j, i], Scale(s.omega, Mul(s.z(LowerPos(m, k, j, i)), v[k - 1, j, i])));
      }
    }
  }

  /** The second loop of `blts` at one cell: the right-hand side, then the block solve. */
  method BltsCell(v: array3<Vec>, m: Mesh, k: int, j: int, i: int, s: Sweep, tmat: array<Vec>, tv: array<real>)
    requires m.Valid() && IsGrid(v, m) && m.Inside(k, j, i) && tmat.Length == tv.Length == N && s.Lower?
    modifies v, tmat, tv
    ensures v[k, j, i] ==
            s.RowValue(LowerPos(m, k, j, i), old(v[k, j, i]), ZERO, old(v[k, j - 1, i]), old(v[k, j, i - 1]))
    ensures var at := LowerPos(m, k, j, i);
            forall r :: 0 <= r < N ==>
              Mul(s.d(at), v[k, j, i])[r]
              + s.omega * (Mul(s.y(at), old(v[k, j - 1, i]))[r] + Mul(s.x(at), old(v[k, j, i - 1]))[r])
              == old(v[k, j, i])[r]
    ensures forall k', j', i' :: m.InArray(k', j', i') && (k', j', i') != (k, j, i) ==>
              v[k', j', i'] == old(v[k', j', i'])
  {
    hide Solve, Mul;
    var at := LowerPos(m, k, j, i);
    s.LowerRelaxes(at, v[k, j, i], v[k, j - 1, i], v[k, j, i - 1]);
    var coupling := Scale(s.omega, Add(Mul(s.y(at), v[k, j - 1, i]), Mul(s.x(at), v[k, j, i - 1])));
    var x := SolveInPlace(s.d(at), Sub(v[k, j, i], coupling), tmat, tv);
    v[k, j, i] := x;
  }

  /** The second loop of `blts` on plane `k`, which has been coupled to the plane before. */
  method BltsRelax(v: array3<Vec>, m: Mesh, k: int, s: Sweep, tmat: array<Vec>, tv: array<real>, ghost v0: Grid)
    requires m.Valid() && IsGrid(v, m) && 1 <= k < m.nz - 1 && s.Lower? && tmat.Length == tv.Length == N
    requires forall j, i :: m.InArray(k, j, i) ==>
      (v[k, j, i] ==
       if m.Inside(k, j, i)
       then s.PlaneValue(LowerPos(m, k, j, i), v0(LowerPos(m, k, j, i)), s.Final(v0, LowerPos(m, k - 1, j, i)))
       else v0(LowerPos(m, k, j, i)))
    modifies v, tmat, tv
    ensures forall k', j, i :: m.InArray(k', j, i) ==>
      (v[k', j, i] == if k' == k && m.Inside(k, j, i) then s.Final(v0, LowerPos(m, k, j, i)) else old(v[k', j, i]))
  {
    hide Sweep.PlaneValue, Sweep.Final, Sweep.RowValue;
    for j := 1 to m.ny - 1
      invariant forall k', j', i' :: m.InArray(k', j', i') ==>
        (v[k', j', i'] ==
         if k' == k && Earlier(m, k, j', i', j, 0) then s.Final(v0, LowerPos(m, k, j', i')) else old(v[k', j', i']))
    {
      for i := 1 to m.nx - 1
        invariant forall k', j', i' :: m.InArray(k', j', i') ==>
          (v[k', j', i'] ==
           if k' == k && Earlier(m, k, j', i', j, i) then s.Final(v0, LowerPos(m, k, j', i')) else old(v[k', j', i']))
      {
        ghost var at := LowerPos(m, k, j, i);
        assert v[k, j - 1, i] == s.Final(v0, at.PrevRow()) by { BoundaryIsInitial(s, v0, at.PrevRow()); }
        assert v[k, j, i - 1] == s.Final(v0, at.PrevColumn()) by { BoundaryIsInitial(s, v0, at.PrevColumn()); }
        LowerIgnoresWork(s, v0, at);
        BltsCell(v, m, k, j, i, s, tmat, tv);
      }
    }
  }

  lemma BoundaryIsInitial(s: Sweep, v0: Grid, at: Pos)
    ensures at.Boundary() ==> s.Final(v0, at) == v0(at)
  {}

  lemma LowerIgnoresWork(s: Sweep, v0: Grid, at: Pos)
    requires s.Lower? && !at.Boundary()
    ensures s.Final(v0, at) ==
            s.RowValue(at, s.PlaneValue(at, v0(at), s.Final(v0, at.PrevPlane())), ZERO,
                       s.Final(v0, at.PrevRow()), s.Final(v0, at.PrevColumn()))
  {
    hide Solve, Sweep.PlaneValue, Sweep.Coupling;
  }

  /** The k-loop of the lower sweep. */
  method LowerSweep(v: array3<Vec>, m: Mesh, s: Sweep, tmat: array<Vec>, tv: array<real>, ghost v0: Grid)
    requires m.Valid() && IsGrid(v, m) && s.Lower? && tmat.Length == tv.Length == N
    requires forall k, j, i :: m.InArray(k, j, i) ==> v[k, j, i] == v0(LowerPos(m, k, j, i))
    modifies v, tmat, tv
    ensures forall k, j, i :: m.InArray(k, j, i) ==>
      (v[k, j, i] == if m.Inside(k, j, i) then s.Final(v0, LowerPos(m, k, j, i)) else v0(LowerPos(m, k, j, i)))
  {
    hide Sweep.PlaneValue, Sweep.Final;
    for k := 1 to m.nz - 1
      invariant forall k', j, i :: m.InArray(k', j, i) ==>
        (v[k', j, i] ==
         if k' < k && m.Inside(k', j, i) then s.Final(v0, LowerPos(m, k', j, i)) else v0(LowerPos(m, k', j, i)))
    {
      forall j, i | m.Inside(k, j, i)
        ensures v[k - 1, j, i] == s.Final(v0, LowerPos(m, k - 1, j, i))
      {
        BoundaryIsInitial(s, v0, LowerPos(m, k - 1, j, i));
      }
      BltsCouple(v, m, k, s);
      BltsRelax(v, m, k, s, tmat, tv, v0);
    }
  }

  // ----- the upper sweep, which keeps its right-hand sides in the array w (tv in the program) -----

  /** A cell of plane `k` comes before (j, i) in the reversed order of rows and columns. */
  predicate Later(m: Mesh, k: int, j': int, i': int, j: int, i: int) {
    m.Inside(k, j', i') && (j' > j || (j' == j && i' > i))
  }

  predicate IsPlane(w: array2<Vec>, m: Mesh) {
    w.Length0 == m.ny && w.Length1 == m.nx
  }

  /** The first loop of `buts` on plane `k`. */
  method ButsCouple(v: array3<Vec>, w: array2<Vec>, m: Mesh, k: int, s: Sweep)
    requires m.Valid() && IsGrid(v, m) && IsPlane(w, m) && 1 <= k < m.nz - 1 && s.Upper?
    modifies w
    ensures forall j, i :: m.Inside(k, j, i) ==> w[j, i] == s.PlaneWork(UpperPos(m, k, j, i), ZERO, v[k + 1, j, i])
  {
    hide UpperPos;
    for j := m.ny - 1 downto 1
      invariant forall j', i' :: Later(m, k, j', i', j - 1, m.nx) ==>
        w[j', i'] == s.PlaneWork(UpperPos(m, k, j', i'), ZERO, v[k + 1, j', i'])
    {
      for i := m.nx - 1 downto 1
        invariant forall j', i' :: Later(m, k, j', i', j, i - 1) ==>
          w[j', i'] == s.PlaneWork(UpperPos(m, k, j', i'), ZERO, v[k + 1, j', i'])
      {
        w[j, i] := Scale(s.omega, Mul(s.z(UpperPos(m, k, j, i)), v[k + 1, j, i]));
      }
    }
  }

  /** The second loop of `buts` at one cell. */
  method ButsCell(v: array3<Vec>, w: array2<Vec>, m: Mesh, k: int, j: int, i: int, s: Sweep,
                  tmat: array<Vec>, tv: array<real>)
    requires m.Valid() && IsGrid(v, m) && IsPlane(w, m) && m.Inside(k, j, i)
    requires tmat.Length == tv.Length == N && s.Upper?
    modifies v, w, tmat, tv
    ensures v[k, j, i] ==
            s.RowValue(UpperPos(m, k, j, i), old(v[k, j, i]), old(w[j, i]), old(v[k, j + 1, i]), old(v[k, j, i + 1]))
    ensures var at := UpperPos(m, k, j, i);
            forall r :: 0 <= r < N ==>
              Mul(s.d(at), Sub(old(v[k, j, i]), v[k, j, i]))[r]
              == old(w[j, i])[r]
                 + s.omega * (Mul(s.y(at), old(v[k, j + 1, i]))[r] + Mul(s.x(at), old(v[k, j, i + 1]))[r])
    ensures forall k', j', i' :: m.InArray(k', j', i') && (k', j', i') != (k, j, i) ==>
              v[k', j', i'] == old(v[k', j', i'])
    ensures forall j', i' :: m.InArray(k, j', i') && (j', i') != (j, i) ==> w[j', i'] == old(w[j', i'])
  {
    hide Solve, Mul;
    var at := UpperPos(m, k, j, i);
    s.UpperRelaxes(at, v[k, j, i], w[j, i], v[k, j + 1, i], v[k, j, i + 1]);
    w[j, i] := Add(w[j, i], Scale(s.omega, Add(Mul(s.y(at), v[k, j + 1, i]), Mul(s.x(at), v[k, j, i + 1]))));
    var x := SolveInPlace(s.d(at), w[j, i], tmat, tv);
    w[j, i] := x;
    v[k, j, i] := Sub(v[k, j, i], w[j, i]);
  }

  /** The second loop of `buts` on one row. */
  method ButsRelaxRow(v: array3<Vec>, w: array2<Vec>, m: Mesh, k: int, j: int, s: Sweep, tmat: array<Vec>,
                      tv: array<real>, ghost v0: Grid)
    requires m.Valid() && IsGrid(v, m) && IsPlane(w, m) && 1 <= k < m.nz - 1 && 1 <= j < m.ny - 1
    requires s.Upper? && tmat.Length == tv.Length == N
    requires forall i :: m.InArray(k, j, i) ==> v[k, j, i] == v0(UpperPos(m, k, j, i))
    requires forall i :: m.Inside(k, j, i) ==> v[k, j + 1, i] == s.Final(v0, UpperPos(m, k, j + 1, i))
    requires forall i :: m.Inside(k, j, i) ==>
      w[j, i] == s.PlaneWork(UpperPos(m, k, j, i), ZERO, s.Final(v0, UpperPos(m, k + 1, j, i)))
    modifies v, w, tmat, tv
    ensures forall k', j', i :: m.InArray(k', j', i) ==>
      (v[k', j', i] ==
       if k' == k && j' == j && m.Inside(k, j, i) then s.Final(v0, UpperPos(m, k, j, i)) else old(v[k', j', i]))
    ensures forall j', i :: m.Inside(k, j', i) && j' != j ==> w[j', i] == old(w[j', i])
  {
    hide Sweep.PlaneWork, Sweep.Final, Sweep.RowValue;
    for i := m.nx - 1 downto 1
      invariant forall k', j', i' :: m.InArray(k', j', i') ==>
        (v[k', j', i'] ==
         if k' == k && j' == j && i - 1 < i' && m.Inside(k, j, i') then s.Final(v0, UpperPos(m, k, j, i'))
         else old(v[k', j', i']))
      invariant forall j', i' :: m.Inside(k, j', i') && (j' != j || i' <= i - 1) ==> w[j', i'] == old(w[j', i'])
    {
      ghost var at := UpperPos(m, k, j, i);
      BoundaryIsInitial(s, v0, at.PrevColumn());
      assert v[k, j, i + 1] == s.Final(v0, at.PrevColumn());
      FinalOfUpperCell(s, v0, at);
      ButsCell(v, w, m, k, j, i, s, tmat, tv);
    }
  }

  /** The second loop of `buts` on plane `k`. */
  method ButsRelax(v: array3<Vec>, w: array2<Vec>, m: Mesh, k: int, s: Sweep, tmat: array<Vec>, tv: array<real>,
                   ghost v0: Grid)
    requires m.Valid() && IsGrid(v, m) && IsPlane(w, m) && 1 <= k < m.nz - 1
    requires s.Upper? && tmat.Length == tv.Length == N
    requires forall j, i :: m.InArray(k, j, i) ==> v[k, j, i] == v0(UpperPos(m, k, j, i))
    requires forall j, i :: m.Inside(k, j, i) ==>
      w[j, i] == s.PlaneWork(UpperPos(m, k, j, i), ZERO, s.Final(v0, UpperPos(m, k + 1, j, i)))
    modifies v, w, tmat, tv
    ensures forall k', j, i :: m.InArray(k', j, i) ==>
      (v[k', j, i] == if k' == k && m.Inside(k, j, i) then s.Final(v0, UpperPos(m, k, j, i)) else old(v[k', j, i]))
  {
    hide Sweep.PlaneWork, Sweep.Final, Sweep.RowValue;
    for j := m.ny - 1 downto 1
      invariant forall k', j', i' :: m.InArray(k', j', i') ==>
        (v[k', j', i'] ==
         if k' == k && j - 1 < j' && m.Inside(k, j', i') then s.Final(v0, UpperPos(m, k, j', i'))
         else old(v[k', j', i']))
      invariant forall j', i' :: m.Inside(k, j', i') && j' <= j - 1 ==> w[j', i'] == old(w[j', i'])
    {
      forall i | m.Inside(k, j, i) ensures v[k, j + 1, i] == s.Final(v0, UpperPos(m, k, j + 1, i)) {
        BoundaryIsInitial(s, v0, UpperPos(m, k, j + 1, i));
      }
      ButsRelaxRow(v, w, m, k, j, s, tmat, tv, v0);
    }
  }

  lemma FinalOfUpperCell(s: Sweep, v0: Grid, at: Pos)
    requires s.Upper? && !at.Boundary()
    ensures s.Final(v0, at) ==
            s.RowValue(at, v0(at), s.PlaneWork(at, ZERO, s.Final(v0, at.PrevPlane())),
                       s.Final(v0, at.PrevRow()), s.Final(v0, at.PrevColumn()))
  {
    hide Sweep.RowValue, Sweep.PlaneWork;
  }

  /** The k-loop of the upper sweep. */
  method UpperSweep(v: array3<Vec>, w: array2<Vec>, m: Mesh, s: Sweep, tmat: array<Vec>, tv: array<real>,
                    ghost v0: Grid)
    requires m.Valid() && IsGrid(v, m) && IsPlane(w, m) && s.Upper? && tmat.Length == tv.Length == N
    requires forall k, j, i :: m.InArray(k, j, i) ==> v[k, j, i] == v0(UpperPos(m, k, j, i))
    modifies v, w, tmat, tv
    ensures forall k, j, i :: m.InArray(k, j, i) ==>
      (v[k, j, i] == if m.Inside(k, j, i) then s.Final(v0, UpperPos(m, k, j, i)) else v0(UpperPos(m, k, j, i)))
  {
    hide Sweep.PlaneWork, Sweep.Final;
    for k := m.nz - 1 downto 1
      invariant forall k', j, i :: m.InArray(k', j, i) ==>
        (v[k', j, i] ==
         if k' >= k && m.Inside(k', j, i) then s.Final(v0, UpperPos(m, k', j, i)) else v0(UpperPos(m, k', j, i)))
    {
      forall j, i | m.Inside(k, j, i)
        ensures v[k + 1, j, i] == s.Final(v0, UpperPos(m, k + 1, j, i))
      {
        BoundaryIsInitial(s, v0, UpperPos(m, k + 1, j, i));
      }
      ButsCouple(v, w, m, k, s);
      ButsRelax(v, w, m, k, s, tmat, tv, v0);
    }
  }

  // ----- one SSOR step: the lower sweep, a barrier, the upper sweep -----

  /** The positions of a cell in the two sweeps are mirror images. */
  function Mirror(m: Mesh, at: Pos): Pos { Pos(m.nz - 3 - at.p, m.ny - 3 - at.r, m.nx - 3 - at.c) }

  predicate InsidePos(m: Mesh, at: Pos) {
    0 <= at.p < m.nz - 2 && 0 <= at.r < m.ny - 2 && 0 <= at.c < m.nx - 2
  }

  /** The grid the upper sweep starts from, in its own order: the lower sweep's result inside, the boundary outside. */
  ghost function UpperStart(m: Mesh, mid: Grid, v0: Grid): Grid {
    (at: Pos) => UpperStartAt(m, mid, v0, at)
  }

  ghost function UpperStartAt(m: Mesh, mid: Grid, v0: Grid, at: Pos): Vec {
    if InsidePos(m, at) then mid(Mirror(m, at)) else v0(Mirror(m, at))
  }

  /** An SSOR step: `mid` solves the lower system for the old grid, and `end` solves the upper system for `mid` inside
      and the old grid on the boundary; the array holds `end` inside and what it held on the boundary. */
  method Ssor(v: array3<Vec>, w: array2<Vec>, m: Mesh, lower: Sweep, upper: Sweep, tmat: array<Vec>, tv: array<real>,
              ghost v0: Grid) returns (ghost mid: Grid, ghost end: Grid)
    requires m.Valid() && IsGrid(v, m) && IsPlane(w, m) && tmat.Length == tv.Length == N
    requires lower.Lower? && upper.Upper?
    requires forall k, j, i :: m.InArray(k, j, i) ==> v[k, j, i] == v0(LowerPos(m, k, j, i))
    modifies v, w, tmat, tv
    ensures forall k, j, i :: m.Inside(k, j, i) ==> v[k, j, i] == end(UpperPos(m, k, j, i))
    ensures forall k, j, i :: m.InArray(k, j, i) && !m.Inside(k, j, i) ==> v[k, j, i] == old(v[k, j, i])
    ensures lower.SolvesSystem(v0, mid)
    ensures upper.SolvesSystem(UpperStart(m, mid, v0), end)
  {
    hide Sweep.Final, Sweep.SolvesSystem, Sweep.CellEquation;
    LowerSweep(v, m, lower, tmat, tv, v0);
    mid := at => lower.Final(v0, at);
    lower.FinalSolvesSystem(v0);
    ghost var v1 := UpperStart(m, mid, v0);
    forall k, j, i | m.InArray(k, j, i) ensures v[k, j, i] == v1(UpperPos(m, k, j, i)) {
      assert Mirror(m, UpperPos(m, k, j, i)) == LowerPos(m, k, j, i);
    }
    UpperSweep(v, w, m, upper, tmat, tv, v1);
    end := at => upper.Final(v1, at);
    upper.FinalSolvesSystem(v1);
  }
}
