/**
  The pipelined wavefront of the LU benchmark: every thread owns a contiguous block of rows
  and takes the planes in order; neighbouring rows are synchronised only by spin flags.

  The protocol is a state machine whose steps are the accesses to shared memory: one cell of a
  loop, one test of a spin wait that succeeds, or one flag write. Row `r` waits until flag `r - 1`
  is raised and flag `r` is lowered, and releases both at its end; `blts` raises before it
  lowers, `buts` lowers before it raises.
 */
module LuWavefront {
  import opened Division
  import opened RealVectors
  import opened LuBlocks
  import opened LuSweep

  /** Where a thread is in one plane: forming the blocks, the loop over the previous plane, the two
      spin waits of a row, the loop over a row, and the two flag writes at its end. */
  datatype Phase = Form | Couple | AwaitPrev | AwaitNext | Relax | FirstRelease | SecondRelease

  datatype Pc = Pc(plane: int, phase: Phase, row: int, col: int)

  /** The sizes of the grid, the owned rows (thread `t` owns `lo[t]` up to `lo[t+1]`), the blocks and the
      initial grid. */
  datatype Config = Config(planes: nat, rows: nat, cols: nat, lo: seq<nat>, sweep: Sweep, v0: Grid) {
    ghost predicate Valid() {
      && 0 < planes && 0 < rows && 0 < cols
      && 2 <= |lo| && lo[0] == 0 && lo[|lo| - 1] == rows
      && forall t, u :: 0 <= t <= u < |lo| ==> lo[t] <= lo[u]
    }

    predicate Thread(t: int) { 0 <= t < |lo| - 1 }

    predicate Interior(at: Pos) { 0 <= at.p < planes && 0 <= at.r < rows && 0 <= at.c < cols }

    predicate Owns(t: int, r: int)
      requires Thread(t)
    {
      lo[t] <= r < lo[t + 1]
    }

    ghost function OwnerFrom(r: nat, t: int): (u: int)
      requires Valid() && Thread(t) && lo[t] <= r < rows
      ensures Thread(u) && Owns(u, r)
      decreases |lo| - t
    {
      if r < lo[t + 1] then t else OwnerFrom(r, t + 1)
    }

    ghost function Owner(r: nat): (t: int)
      requires Valid() && r < rows
      ensures Thread(t) && Owns(t, r)
    {
      OwnerFrom(r, 0)
    }

    lemma OwnerIsUnique(r: nat, t: int)
      requires Valid() && r < rows && Thread(t) && Owns(t, r)
      ensures t == Owner(r)
    {}
  }

  /** The shared memory and the program counters. `formed` is the plane whose blocks the arrays
      a, b, c and d hold for a cell. */
  datatype State = State(pc: seq<Pc>, flag: seq<int>, v: Grid, tv: (int, int) -> Vec, formed: (int, int) -> int)

  function SetGrid(g: Grid, at: Pos, x: Vec): Grid {
    (q: Pos) => if q == at then x else g(q)
  }

  function SetWork(f: (int, int) -> Vec, r: int, c: int, x: Vec): (int, int) -> Vec {
    (r': int, c': int) => if r' == r && c' == c then x else f(r', c')
  }

  function SetFormed(f: (int, int) -> int, r: int, c: int, x: int): (int, int) -> int {
    (r': int, c': int) => if r' == r && c' == c then x else f(r', c')
  }

  /** The next cell of a loop over all owned rows and their columns, or the start of the next phase. */
  function NextCell(cfg: Config, t: int, pc: Pc, then_: Phase): Pc
    requires cfg.Thread(t)
  {
    if pc.col + 1 < cfg.cols then pc.(col := pc.col + 1)
    else if pc.row + 1 < cfg.lo[t + 1] then pc.(row := pc.row + 1, col := 0)
    else Pc(pc.plane, then_, cfg.lo[t], 0)
  }

  function NextRow(cfg: Config, t: int, pc: Pc): Pc
    requires cfg.Thread(t)
  {
    if pc.row + 1 < cfg.lo[t + 1] then Pc(pc.plane, AwaitPrev, pc.row + 1, 0)
    else Pc(pc.plane + 1, Form, cfg.lo[t], 0)
  }

  /** Raising flag `r` tells row `r + 1` that row `r` is done with the plane; the last row has nobody to tell. */
  function Raise(cfg: Config, flag: seq<int>, r: int): seq<int>
    requires |flag| == cfg.rows && 0 <= r < cfg.rows
  {
    if r != cfg.rows - 1 then flag[r := 1] else flag
  }

  /** Lowering flag `r - 1` tells row `r - 1` that row `r` has used its values. */
  function Lower(cfg: Config, flag: seq<int>, r: int): seq<int>
    requires |flag| == cfg.rows && 0 <= r < cfg.rows
  {
    if r != 0 then flag[r - 1 := 0] else flag
  }

  predicate WellFormed(cfg: Config, s: State) {
    && |s.pc| == |cfg.lo| - 1 && |s.flag| == cfg.rows
    && forall t :: 0 <= t < |s.pc| ==> PcInRange(cfg, t, s.pc[t])
  }

  predicate PcInRange(cfg: Config, t: int, pc: Pc) {
    && 0 <= t < |cfg.lo| - 1 && 0 <= pc.plane <= cfg.planes
    && (pc.plane < cfg.planes ==> 0 <= cfg.lo[t] <= pc.row < cfg.lo[t + 1] <= cfg.rows && 0 <= pc.col < cfg.cols)
    && (pc.plane < cfg.planes && pc.phase !in {Form, Couple, Relax} ==> pc.col == 0)
    && (pc.plane == cfg.planes ==> pc == Pc(cfg.planes, Form, cfg.lo[t], 0))
  }

  predicate Finished(cfg: Config, s: State) {
    forall t :: 0 <= t < |s.pc| ==> s.pc[t].plane == cfg.planes
  }

  /** Thread `t` has a step to take: it is not at its end and no spin wait holds it. */
  predicate Enabled(cfg: Config, s: State, t: int)
    requires WellFormed(cfg, s) && cfg.Thread(t)
  {
    var pc := s.pc[t];
    && pc.plane < cfg.planes
    && (pc.phase == AwaitPrev && pc.row != 0 ==> s.flag[pc.row - 1] != 0)
    && (pc.phase == AwaitNext && pc.row != cfg.rows - 1 ==> s.flag[pc.row] != 1)
  }

  /** One step of thread `t`. */
  function Next(cfg: Config, s: State, t: int): State
    requires WellFormed(cfg, s) && cfg.Thread(t) && Enabled(cfg, s, t)
  {
    var pc := s.pc[t];
    var at := Pos(pc.plane, pc.row, pc.col);
    var blocks := Pos(s.formed(pc.row, pc.col), pc.row, pc.col);
    match pc.phase
    case Form =>
      s.(pc := s.pc[t := NextCell(cfg, t, pc, Couple)], formed := SetFormed(s.formed, pc.row, pc.col, pc.plane))
    case Couple =>
      s.(pc := s.pc[t := NextCell(cfg, t, pc, AwaitPrev)],
         v := SetGrid(s.v, at, cfg.sweep.PlaneValue(blocks, s.v(at), s.v(at.PrevPlane()))),
         tv := SetWork(s.tv, pc.row, pc.col,
                       cfg.sweep.PlaneWork(blocks, s.tv(pc.row, pc.col), s.v(at.PrevPlane()))))
    case AwaitPrev => s.(pc := s.pc[t := pc.(phase := AwaitNext)])
    case AwaitNext => s.(pc := s.pc[t := pc.(phase := Relax)])
    case Relax =>
      var v, w := s.v(at), s.tv(pc.row, pc.col);
      var up, left := s.v(at.PrevRow()), s.v(at.PrevColumn());
      s.(pc := s.pc[t := if pc.col + 1 < cfg.cols then pc.(col := pc.col + 1)
                         else pc.(phase := FirstRelease, col := 0)],
         v := SetGrid(s.v, at, cfg.sweep.RowValue(blocks, v, w, up, left)),
         tv := SetWork(s.tv, pc.row, pc.col,
                       if cfg.sweep.Lower? then w else cfg.sweep.RowSolution(blocks, v, w, up, left)))
    case FirstRelease =>
      s.(pc := s.pc[t := pc.(phase := SecondRelease)],
         flag := if cfg.sweep.Lower? then Raise(cfg, s.flag, pc.row) else Lower(cfg, s.flag, pc.row))
    case SecondRelease =>
      s.(pc := s.pc[t := NextRow(cfg, t, pc)],
         flag := if cfg.sweep.Lower? then Lower(cfg, s.flag, pc.row) else Raise(cfg, s.flag, pc.row))
  }

  /** All flags down, every thread before its first plane; a thread without rows has nothing to do. */
  ghost predicate Init(cfg: Config, s: State) {
    && |s.pc| == |cfg.lo| - 1 && |s.flag| == cfg.rows
    && s.v == cfg.v0
    && (forall r :: 0 <= r < cfg.rows ==> s.flag[r] == 0)
    && forall t :: 0 <= t < |s.pc| ==>
         s.pc[t] == Pc(if cfg.lo[t] < cfg.lo[t + 1] then 0 else cfg.planes, Form, cfg.lo[t], 0)
  }

  // ----- what a program counter says about a row -----

  predicate InRows(pc: Pc) {
    pc.phase !in {Form, Couple}
  }

  predicate Before(pc: Pc, r: int, c: int) {
    r < pc.row || (r == pc.row && c < pc.col)
  }

  /** The owner of a row is past the first loop at a cell of plane `p`. */
  predicate Coupled(pc: Pc, at: Pos) {
    at.p < pc.plane || (at.p == pc.plane && (InRows(pc) || (pc.phase == Couple && Before(pc, at.r, at.c))))
  }

  /** The owner of a row is past the second loop at a cell of plane `p`. */
  predicate Relaxed(pc: Pc, at: Pos) {
    || at.p < pc.plane
    || (at.p == pc.plane && InRows(pc) &&
        (at.r < pc.row || (at.r == pc.row && (pc.phase in {FirstRelease, SecondRelease} ||
                                              (pc.phase == Relax && at.c < pc.col)))))
  }

  /** How often row `r` has raised its flag. */
  function Raised(sweep: Sweep, pc: Pc, r: int): int {
    pc.plane + if InRows(pc) && (r < pc.row || (r == pc.row && sweep.Lower? && pc.phase == SecondRelease)) then 1 else 0
  }

  /** How often row `r` has lowered the flag of the row before it. */
  function Lowered(sweep: Sweep, pc: Pc, r: int): int {
    pc.plane + if InRows(pc) && (r < pc.row || (r == pc.row && sweep.Upper? && pc.phase == SecondRelease)) then 1 else 0
  }

  ghost function RowPc(cfg: Config, s: State, r: nat): Pc
    requires cfg.Valid() && WellFormed(cfg, s) && r < cfg.rows
  {
    s.pc[cfg.Owner(r)]
  }

  // ----- the invariant -----

  /** Flag `r` is the number of planes row `r` has announced less the number row `r + 1` has taken: 0 or 1. */
  ghost predicate FlagCounts(cfg: Config, s: State)
    requires cfg.Valid() && WellFormed(cfg, s)
  {
    forall r :: 0 <= r < cfg.rows - 1 ==>
      && 0 <= s.flag[r] <= 1
      && s.flag[r] == Raised(cfg.sweep, RowPc(cfg, s, r), r) - Lowered(cfg.sweep, RowPc(cfg, s, r + 1), r + 1)
  }

  /** What a spin wait has established stays until the row gives it up. */
  ghost predicate Held(cfg: Config, flag: seq<int>, pc: Pc)
    requires |flag| == cfg.rows && (pc.plane < cfg.planes ==> 0 <= pc.row < cfg.rows)
  {
    pc.plane < cfg.planes ==>
      && (0 < pc.row
          && (pc.phase in {AwaitNext, Relax, FirstRelease} || (pc.phase == SecondRelease && cfg.sweep.Lower?))
          ==> flag[pc.row - 1] == 1)
      && (pc.row < cfg.rows - 1
          && (pc.phase in {Relax, FirstRelease} || (pc.phase == SecondRelease && cfg.sweep.Upper?))
          ==> flag[pc.row] == 0)
  }

  ghost predicate FlagsHeld(cfg: Config, s: State)
    requires WellFormed(cfg, s)
  {
    forall t :: 0 <= t < |s.pc| ==> Held(cfg, s.flag, s.pc[t])
  }

  /** What the grid holds at a cell whose row's owner is at `pc`. */
  ghost function Expected(cfg: Config, pc: Pc, at: Pos): Vec {
    if Relaxed(pc, at) then cfg.sweep.Final(cfg.v0, at)
    else if Coupled(pc, at) then cfg.sweep.PlaneValue(at, cfg.v0(at), cfg.sweep.Final(cfg.v0, at.PrevPlane()))
    else cfg.v0(at)
  }

  ghost predicate Values(cfg: Config, s: State)
    requires cfg.Valid() && WellFormed(cfg, s)
  {
    forall at: Pos :: s.v(at) == if cfg.Interior(at) then Expected(cfg, RowPc(cfg, s, at.r), at) else cfg.v0(at)
  }

  /** The blocks and work values of a row belong to the plane its owner is in. */
  ghost predicate Scratch(cfg: Config, s: State)
    requires cfg.Valid() && WellFormed(cfg, s)
  {
    forall r, c :: 0 <= r < cfg.rows && 0 <= c < cfg.cols ==> ScratchCell(cfg, s, RowPc(cfg, s, r), r, c)
  }

  ghost predicate ScratchCell(cfg: Config, s: State, pc: Pc, r: int, c: int) {
    var at := Pos(pc.plane, r, c);
    && (pc.plane < cfg.planes && (pc.phase != Form || Before(pc, r, c)) ==> s.formed(r, c) == pc.plane)
    && (pc.plane < cfg.planes && cfg.sweep.Upper? && Coupled(pc, at) && !Relaxed(pc, at) ==>
          s.tv(r, c) == cfg.sweep.PlaneWork(at, ZERO, cfg.sweep.Final(cfg.v0, at.PrevPlane())))
  }

  ghost predicate Inv(cfg: Config, s: State) {
    && cfg.Valid() && WellFormed(cfg, s)
    && FlagCounts(cfg, s) && FlagsHeld(cfg, s)
    && Values(cfg, s) && Scratch(cfg, s)
  }

  lemma InitWellFormed(cfg: Config, s: State)
    requires cfg.Valid() && Init(cfg, s)
    ensures WellFormed(cfg, s)
    ensures forall r :: 0 <= r < cfg.rows ==> RowPc(cfg, s, r) == Pc(0, Form, cfg.lo[cfg.Owner(r)], 0)
  {
    forall t | 0 <= t < |s.pc| ensures PcInRange(cfg, t, s.pc[t]) {
      assert cfg.lo[t] <= cfg.lo[t + 1] <= cfg.lo[|cfg.lo| - 1];
    }
  }

  lemma InitEstablishesInv(cfg: Config, s: State)
    requires cfg.Valid() && Init(cfg, s)
    ensures Inv(cfg, s)
  {
    hide Sweep.Final, Sweep.PlaneValue, Sweep.PlaneWork;
    InitWellFormed(cfg, s);
  }

  // ----- one step keeps the invariant -----

  ghost predicate CanStep(cfg: Config, s: State, t: int) {
    cfg.Valid() && WellFormed(cfg, s) && cfg.Thread(t) && Enabled(cfg, s, t)
  }

  /** The step of a thread at `pc` is the one that raises its row's flag. */
  predicate Raises(sweep: Sweep, pc: Pc) {
    pc.phase == if sweep.Lower? then FirstRelease else SecondRelease
  }

  /** The step of a thread at `pc` is the one that lowers the flag before its row. */
  predicate Lowers(sweep: Sweep, pc: Pc) {
    pc.phase == if sweep.Lower? then SecondRelease else FirstRelease
  }

  lemma StepWellFormed(cfg: Config, s: State, t: int)
    requires CanStep(cfg, s, t)
    ensures WellFormed(cfg, Next(cfg, s, t))
    ensures forall u :: 0 <= u < |s.pc| && u != t ==> Next(cfg, s, t).pc[u] == s.pc[u]
    ensures Next(cfg, s, t).flag ==
            var r := s.pc[t].row;
            if Raises(cfg.sweep, s.pc[t]) then Raise(cfg, s.flag, r)
            else if Lowers(cfg.sweep, s.pc[t]) then Lower(cfg, s.flag, r) else s.flag
  {
    hide Sweep.Final, Sweep.PlaneValue, Sweep.PlaneWork, Sweep.RowValue, Sweep.RowSolution;
  }

  lemma StepCounts(cfg: Config, s: State, t: int, r: int)
    requires CanStep(cfg, s, t) && cfg.Owns(t, r)
    ensures Raised(cfg.sweep, Next(cfg, s, t).pc[t], r) ==
            Raised(cfg.sweep, s.pc[t], r) + if r == s.pc[t].row && Raises(cfg.sweep, s.pc[t]) then 1 else 0
    ensures Lowered(cfg.sweep, Next(cfg, s, t).pc[t], r) ==
            Lowered(cfg.sweep, s.pc[t], r) + if r == s.pc[t].row && Lowers(cfg.sweep, s.pc[t]) then 1 else 0
  {
    hide Sweep.Final, Sweep.PlaneValue, Sweep.PlaneWork, Sweep.RowValue, Sweep.RowSolution;
  }

  lemma StepFlagCounts(cfg: Config, s: State, t: int)
    requires Inv(cfg, s) && CanStep(cfg, s, t)
    ensures WellFormed(cfg, Next(cfg, s, t)) && FlagCounts(cfg, Next(cfg, s, t))
  {
    hide Next, Sweep.Final, Raised, Lowered;
    StepWellFormed(cfg, s, t);
    var s', pc := Next(cfg, s, t), s.pc[t];
    cfg.OwnerIsUnique(pc.row, t);
    assert Held(cfg, s.flag, pc);
    forall r | 0 <= r < cfg.rows - 1
      ensures 0 <= s'.flag[r] <= 1
      ensures s'.flag[r] == Raised(cfg.sweep, RowPc(cfg, s', r), r) - Lowered(cfg.sweep, RowPc(cfg, s', r + 1), r + 1)
    {
      assert 0 <= s.flag[r] <= 1;
      assert s.flag[r] == Raised(cfg.sweep, RowPc(cfg, s, r), r) - Lowered(cfg.sweep, RowPc(cfg, s, r + 1), r + 1);
      if cfg.Owner(r) == t { StepCounts(cfg, s, t, r); }
      if cfg.Owner(r + 1) == t { StepCounts(cfg, s, t, r + 1); }
      var raised := if r == pc.row && Raises(cfg.sweep, pc) then 1 else 0;
      var lowered := if r + 1 == pc.row && Lowers(cfg.sweep, pc) then 1 else 0;
      assert s'.flag[r] == s.flag[r] + raised - lowered;
      assert Raised(cfg.sweep, RowPc(cfg, s', r), r) == Raised(cfg.sweep, RowPc(cfg, s, r), r) + raised;
      assert Lowered(cfg.sweep, RowPc(cfg, s', r + 1), r + 1) ==
             Lowered(cfg.sweep, RowPc(cfg, s, r + 1), r + 1) + lowered;
    }
  }

  lemma StepHeldByOther(cfg: Config, s: State, t: int, u: int)
    requires Inv(cfg, s) && CanStep(cfg, s, t) && cfg.Thread(u) && u != t
    ensures |Next(cfg, s, t).flag| == cfg.rows && Held(cfg, Next(cfg, s, t).flag, s.pc[u])
  {
    hide Next, Sweep.Final;
    StepWellFormed(cfg, s, t);
    assert Held(cfg, s.flag, s.pc[u]);
    cfg.OwnerIsUnique(s.pc[t].row, t);
    if s.pc[u].plane < cfg.planes {
      cfg.OwnerIsUnique(s.pc[u].row, u);
    }
  }

  lemma StepHeldByMover(cfg: Config, s: State, t: int)
    requires Inv(cfg, s) && CanStep(cfg, s, t)
    ensures |Next(cfg, s, t).flag| == cfg.rows && PcInRange(cfg, t, Next(cfg, s, t).pc[t])
    ensures Held(cfg, Next(cfg, s, t).flag, Next(cfg, s, t).pc[t])
  {
    hide Sweep.Final, Sweep.PlaneValue, Sweep.PlaneWork, Sweep.RowValue, Sweep.RowSolution;
    hide Values, Scratch, RowPc, Raised, Lowered;
    StepWellFormed(cfg, s, t);
    assert Held(cfg, s.flag, s.pc[t]);
  }

  lemma StepFlagsHeld(cfg: Config, s: State, t: int)
    requires Inv(cfg, s) && CanStep(cfg, s, t)
    ensures WellFormed(cfg, Next(cfg, s, t)) && FlagsHeld(cfg, Next(cfg, s, t))
  {
    hide Next, Held, Inv;
    StepWellFormed(cfg, s, t);
    StepHeldByMover(cfg, s, t);
    forall u | 0 <= u < |s.pc| && u != t ensures Held(cfg, Next(cfg, s, t).flag, s.pc[u]) {
      StepHeldByOther(cfg, s, t, u);
    }
  }

  /** A row that is free to relax finds the row before it done with the plane. */
  lemma PrevRowRelaxed(cfg: Config, s: State, t: int, c: int)
    requires Inv(cfg, s) && cfg.Thread(t) && s.pc[t].plane < cfg.planes && s.pc[t].phase == Relax && 0 < s.pc[t].row
    ensures Relaxed(RowPc(cfg, s, s.pc[t].row - 1), Pos(s.pc[t].plane, s.pc[t].row - 1, c))
  {
    hide Sweep.Final, Values, Scratch;
    var r := s.pc[t].row;
    cfg.OwnerIsUnique(r, t);
    assert Held(cfg, s.flag, s.pc[t]);
    assert s.flag[r - 1] == Raised(cfg.sweep, RowPc(cfg, s, r - 1), r - 1) - Lowered(cfg.sweep, RowPc(cfg, s, r), r);
  }

  /** The cell about to be relaxed has been coupled, and its predecessors have their final values. */
  lemma RelaxReadsFinal(cfg: Config, s: State, t: int)
    requires Inv(cfg, s) && cfg.Thread(t) && s.pc[t].plane < cfg.planes && s.pc[t].phase == Relax
    ensures var pc := s.pc[t];
            var at := Pos(pc.plane, pc.row, pc.col);
            && s.formed(pc.row, pc.col) == pc.plane
            && s.v(at.PrevRow()) == cfg.sweep.Final(cfg.v0, at.PrevRow())
            && s.v(at.PrevColumn()) == cfg.sweep.Final(cfg.v0, at.PrevColumn())
            && s.v(at) == cfg.sweep.PlaneValue(at, cfg.v0(at), cfg.sweep.Final(cfg.v0, at.PrevPlane()))
            && (cfg.sweep.Upper? ==>
                  s.tv(pc.row, pc.col) == cfg.sweep.PlaneWork(at, ZERO, cfg.sweep.Final(cfg.v0, at.PrevPlane())))
  {
    hide Sweep.PlaneWork, Sweep.PlaneValue, Sweep.Final, Raised, Lowered, FlagCounts, FlagsHeld, Values;
    var pc := s.pc[t];
    var at := Pos(pc.plane, pc.row, pc.col);
    cfg.OwnerIsUnique(pc.row, t);
    if 0 < pc.row { PrevRowRelaxed(cfg, s, t, pc.col); }
    GridHoldsFinal(cfg, s, at.PrevRow());
    GridHoldsFinal(cfg, s, at.PrevColumn());
    GridHoldsCoupled(cfg, s, at);
    assert ScratchCell(cfg, s, RowPc(cfg, s, pc.row), pc.row, pc.col);
  }

  lemma GridHoldsFinal(cfg: Config, s: State, at: Pos)
    requires Inv(cfg, s) && (at.Boundary() || (cfg.Interior(at) && Relaxed(RowPc(cfg, s, at.r), at)))
    ensures s.v(at) == cfg.sweep.Final(cfg.v0, at)
  {
    hide FlagCounts, FlagsHeld, Scratch, Relaxed, Coupled;
    if !at.Boundary() { hide Sweep.Final; }
  }

  lemma GridHoldsCoupled(cfg: Config, s: State, at: Pos)
    requires Inv(cfg, s) && cfg.Interior(at)
    requires Coupled(RowPc(cfg, s, at.r), at) && !Relaxed(RowPc(cfg, s, at.r), at)
    ensures s.v(at) == cfg.sweep.PlaneValue(at, cfg.v0(at), cfg.sweep.Final(cfg.v0, at.PrevPlane()))
  {
    hide FlagCounts, FlagsHeld, Scratch, Relaxed, Coupled, Sweep.Final, Sweep.PlaneValue;
  }

  /** In a state of the invariant the cell about to be relaxed gets its final value. */
  lemma RelaxIsFinal(cfg: Config, s: State, t: int)
    requires Inv(cfg, s) && cfg.Thread(t) && s.pc[t].plane < cfg.planes && s.pc[t].phase == Relax
    ensures var pc := s.pc[t];
            var at := Pos(pc.plane, pc.row, pc.col);
            && s.formed(pc.row, pc.col) == pc.plane
            && cfg.sweep.RowValue(at, s.v(at), s.tv(pc.row, pc.col), s.v(at.PrevRow()), s.v(at.PrevColumn()))
               == cfg.sweep.Final(cfg.v0, at)
  {
    RelaxReadsFinal(cfg, s, t);
    hide Sweep.PlaneWork, Sweep.PlaneValue, Solve, Inv;
  }

  /** A step marks no cell but the one it works on. */
  lemma StepMarks(cfg: Config, s: State, t: int, q: Pos)
    requires CanStep(cfg, s, t) && cfg.Interior(q) && cfg.Owns(t, q.r)
    ensures var pc := s.pc[t];
            var at := Pos(pc.plane, pc.row, pc.col);
            && (Coupled(Next(cfg, s, t).pc[t], q) <==> Coupled(pc, q) || (pc.phase == Couple && q == at))
            && (Relaxed(Next(cfg, s, t).pc[t], q) <==> Relaxed(pc, q) || (pc.phase == Relax && q == at))
  {
    hide Sweep.Final, Sweep.PlaneValue, Sweep.PlaneWork, Sweep.RowValue, Sweep.RowSolution;
  }

  /** What a step stores in the grid. */
  lemma StepStores(cfg: Config, s: State, t: int, q: Pos)
    requires Inv(cfg, s) && CanStep(cfg, s, t)
    ensures var pc := s.pc[t];
            var at := Pos(pc.plane, pc.row, pc.col);
            Next(cfg, s, t).v(q) ==
            if q == at && pc.phase == Couple then
              cfg.sweep.PlaneValue(at, cfg.v0(at), cfg.sweep.Final(cfg.v0, at.PrevPlane()))
            else if q == at && pc.phase == Relax then cfg.sweep.Final(cfg.v0, at)
            else s.v(q)
  {
    hide Sweep.PlaneWork, Sweep.PlaneValue, Sweep.RowSolution, Raised, Lowered, FlagCounts, FlagsHeld, Solve;
    var pc := s.pc[t];
    var at := Pos(pc.plane, pc.row, pc.col);
    cfg.OwnerIsUnique(pc.row, t);
    assert ScratchCell(cfg, s, RowPc(cfg, s, pc.row), pc.row, pc.col);
    if pc.phase == Relax {
      RelaxIsFinal(cfg, s, t);
    } else if pc.phase == Couple {
      assert s.v(at.PrevPlane()) == cfg.sweep.Final(cfg.v0, at.PrevPlane());
    }
  }

  lemma StepValues(cfg: Config, s: State, t: int)
    requires Inv(cfg, s) && CanStep(cfg, s, t)
    ensures WellFormed(cfg, Next(cfg, s, t)) && Values(cfg, Next(cfg, s, t))
  {
    hide Sweep.Final, Sweep.PlaneValue, Next, Coupled, Relaxed;
    StepWellFormed(cfg, s, t);
    var s', pc := Next(cfg, s, t), s.pc[t];
    var at := Pos(pc.plane, pc.row, pc.col);
    cfg.OwnerIsUnique(pc.row, t);
    forall q: Pos
      ensures s'.v(q) == if cfg.Interior(q) then Expected(cfg, RowPc(cfg, s', q.r), q) else cfg.v0(q)
    {
      StepStores(cfg, s, t, q);
      if cfg.Interior(q) && cfg.Owner(q.r) == t {
        StepMarks(cfg, s, t, q);
        if q == at && pc.phase == Couple { NotYetRelaxed(pc, at); }
      }
    }
  }

  lemma NotYetRelaxed(pc: Pc, at: Pos)
    requires pc.phase == Couple && at == Pos(pc.plane, pc.row, pc.col)
    ensures !Relaxed(pc, at)
  {}

  /** The work value of a cell after the first loop. */
  lemma StepWork(cfg: Config, s: State, t: int)
    requires Inv(cfg, s) && CanStep(cfg, s, t) && s.pc[t].phase == Couple && cfg.sweep.Upper?
    ensures var pc := s.pc[t];
            var at := Pos(pc.plane, pc.row, pc.col);
            Next(cfg, s, t).tv(pc.row, pc.col) == cfg.sweep.PlaneWork(at, ZERO, cfg.sweep.Final(cfg.v0, at.PrevPlane()))
  {
    hide Raised, Lowered, FlagCounts, FlagsHeld, Solve, Mul, Scale, Sweep.RowSolution;
    var pc := s.pc[t];
    cfg.OwnerIsUnique(pc.row, t);
    assert ScratchCell(cfg, s, RowPc(cfg, s, pc.row), pc.row, pc.col);
  }

  lemma StepScratchOfMover(cfg: Config, s: State, t: int, r: int, c: int)
    requires Inv(cfg, s) && CanStep(cfg, s, t) && cfg.Owns(t, r) && 0 <= c < cfg.cols
    requires r < cfg.rows
    ensures WellFormed(cfg, Next(cfg, s, t)) && ScratchCell(cfg, Next(cfg, s, t), Next(cfg, s, t).pc[t], r, c)
  {
    hide Sweep.Final, Sweep.RowValue, Sweep.RowSolution, Sweep.PlaneValue, Sweep.PlaneWork;
    hide Raised, Lowered, FlagCounts, FlagsHeld, Values;
    StepWellFormed(cfg, s, t);
    var s', pc := Next(cfg, s, t), s.pc[t];
    cfg.OwnerIsUnique(pc.row, t);
    cfg.OwnerIsUnique(r, t);
    assert ScratchCell(cfg, s, RowPc(cfg, s, r), r, c);
    if s'.pc[t].plane == pc.plane {
      StepMarks(cfg, s, t, Pos(pc.plane, r, c));
      if cfg.sweep.Upper? && pc.phase == Couple { StepWork(cfg, s, t); }
    }
  }

  lemma StepScratch(cfg: Config, s: State, t: int)
    requires Inv(cfg, s) && CanStep(cfg, s, t)
    ensures WellFormed(cfg, Next(cfg, s, t)) && Scratch(cfg, Next(cfg, s, t))
  {
    hide Sweep.Final, Sweep.RowValue, Sweep.RowSolution, Sweep.PlaneValue, Sweep.PlaneWork, Coupled, Relaxed;
    hide Raised, Lowered, FlagCounts, FlagsHeld, Values;
    StepWellFormed(cfg, s, t);
    var s' := Next(cfg, s, t);
    cfg.OwnerIsUnique(s.pc[t].row, t);
    forall r, c | 0 <= r < cfg.rows && 0 <= c < cfg.cols
      ensures ScratchCell(cfg, s', RowPc(cfg, s', r), r, c)
    {
      assert ScratchCell(cfg, s, RowPc(cfg, s, r), r, c);
      if cfg.Owner(r) == t { StepScratchOfMover(cfg, s, t, r, c); }
    }
  }

  /** Every step of every thread keeps the invariant. */
  lemma StepKeepsInv(cfg: Config, s: State, t: int)
    requires Inv(cfg, s) && CanStep(cfg, s, t)
    ensures Inv(cfg, Next(cfg, s, t))
  {
    hide Next, FlagCounts, FlagsHeld, Values, Scratch;
    StepFlagCounts(cfg, s, t);
    StepFlagsHeld(cfg, s, t);
    StepValues(cfg, s, t);
    StepScratch(cfg, s, t);
  }

  // ----- whole runs -----

  /** The schedule names the thread that takes each step; it leads from `s` to `end`. */
  ghost predicate Reaches(cfg: Config, s: State, schedule: seq<int>, end: State)
    decreases |schedule|
  {
    if schedule == [] then s == end
    else CanStep(cfg, s, schedule[0]) && Reaches(cfg, Next(cfg, s, schedule[0]), schedule[1..], end)
  }

  lemma {:induction false} RunKeepsInv(cfg: Config, s: State, schedule: seq<int>, end: State)
    requires Inv(cfg, s) && Reaches(cfg, s, schedule, end)
    ensures Inv(cfg, end)
    decreases |schedule|
  {
    hide Inv, Next;
    if schedule == [] {
    } else {
      StepKeepsInv(cfg, s, schedule[0]);
      RunKeepsInv(cfg, Next(cfg, s, schedule[0]), schedule[1..], end);
    }
  }

  /** Every state that some interleaving of the threads leads to satisfies the invariant. */
  ghost predicate Reachable(cfg: Config, s: State) {
    cfg.Valid() && exists s0: State, schedule: seq<int> :: Init(cfg, s0) && Reaches(cfg, s0, schedule, s)
  }

  lemma ReachableStatesSatisfyInv(cfg: Config, s: State)
    requires Reachable(cfg, s)
    ensures Inv(cfg, s)
  {
    hide Inv, Init, Reaches;
    var s0: State, schedule: seq<int> :| Init(cfg, s0) && Reaches(cfg, s0, schedule, s);
    InitEstablishesInv(cfg, s0);
    RunKeepsInv(cfg, s0, schedule, s);
  }

  lemma FinishedGrid(cfg: Config, s: State, at: Pos)
    requires Inv(cfg, s) && Finished(cfg, s)
    ensures s.v(at) == if cfg.Interior(at) then cfg.sweep.Final(cfg.v0, at) else cfg.v0(at)
  {
    hide Sweep.Final, Sweep.PlaneValue, FlagCounts, FlagsHeld, Scratch;
    if cfg.Interior(at) {
      assert RowPc(cfg, s, at.r).plane == cfg.planes;
    }
  }

  lemma FinishedFlags(cfg: Config, s: State, r: nat)
    requires Inv(cfg, s) && Finished(cfg, s) && r < cfg.rows - 1
    ensures s.flag[r] == 0
  {
    hide Values, FlagsHeld, Scratch;
    assert RowPc(cfg, s, r).plane == RowPc(cfg, s, r + 1).plane == cfg.planes;
    assert RowPc(cfg, s, r).phase == RowPc(cfg, s, r + 1).phase == Form;
  }

  /** Safety: however the threads interleave and however the rows are dealt out to them, a finished sweep has
      left the serial sweep's grid, and every flag between two rows is down again. */
  lemma PipelineIsSerialSweep(cfg: Config, s: State)
    requires Reachable(cfg, s) && Finished(cfg, s)
    ensures forall at: Pos :: s.v(at) == if cfg.Interior(at) then cfg.sweep.Final(cfg.v0, at) else cfg.v0(at)
    ensures |s.flag| == cfg.rows && forall r :: 0 <= r < cfg.rows - 1 ==> s.flag[r] == 0
  {
    hide Inv, Finished, Reachable;
    ReachableStatesSatisfyInv(cfg, s);
    forall at: Pos
      ensures s.v(at) == if cfg.Interior(at) then cfg.sweep.Final(cfg.v0, at) else cfg.v0(at)
    {
      FinishedGrid(cfg, s, at);
    }
    assert |s.flag| == cfg.rows by { InvIsWellFormed(cfg, s); }
    forall r | 0 <= r < cfg.rows - 1 ensures s.flag[r] == 0 {
      FinishedFlags(cfg, s, r);
    }
  }

  lemma InvIsWellFormed(cfg: Config, s: State)
    requires Inv(cfg, s)
    ensures cfg.Valid() && WellFormed(cfg, s)
  {}

  /** A thread held by a spin wait waits for a thread that is behind it in the order of planes and rows. */
  lemma BlockedByAnEarlierRow(cfg: Config, s: State, t: int) returns (u: int)
    requires Inv(cfg, s) && cfg.Thread(t) && s.pc[t].plane < cfg.planes && !Enabled(cfg, s, t)
    ensures cfg.Thread(u) && s.pc[u].plane < cfg.planes
    ensures s.pc[u].plane < s.pc[t].plane || (s.pc[u].plane == s.pc[t].plane && s.pc[u].row < s.pc[t].row)
  {
    hide Values, Scratch;
    var pc := s.pc[t];
    cfg.OwnerIsUnique(pc.row, t);
    var r := if pc.phase == AwaitPrev then pc.row - 1 else pc.row;
    u := cfg.Owner(if pc.phase == AwaitPrev then r else r + 1);
    assert s.flag[r] == Raised(cfg.sweep, RowPc(cfg, s, r), r) - Lowered(cfg.sweep, RowPc(cfg, s, r + 1), r + 1);
  }

  lemma {:induction false} SomeThreadBehindIsEnabled(cfg: Config, s: State, t: int) returns (u: int)
    requires Inv(cfg, s) && cfg.Thread(t) && s.pc[t].plane < cfg.planes
    ensures cfg.Thread(u) && Enabled(cfg, s, u)
    decreases s.pc[t].plane, s.pc[t].row
  {
    hide FlagCounts, FlagsHeld, Values, Scratch;
    if Enabled(cfg, s, t) {
      u := t;
    } else {
      var w := BlockedByAnEarlierRow(cfg, s, t);
      u := SomeThreadBehindIsEnabled(cfg, s, w);
    }
  }

  /** Progress: the spin waits never block all threads of an unfinished sweep. */
  lemma NoDeadlock(cfg: Config, s: State)
    requires Reachable(cfg, s) && !Finished(cfg, s)
    ensures exists t :: CanStep(cfg, s, t)
  {
    hide Reachable, FlagCounts, FlagsHeld, Values, Scratch;
    ReachableStatesSatisfyInv(cfg, s);
    var t :| 0 <= t < |s.pc| && s.pc[t].plane != cfg.planes;
    var u := SomeThreadBehindIsEnabled(cfg, s, t);
    assert CanStep(cfg, s, u);
  }

  /** The cells of the grid a thread's next step reads. */
  function Reads(pc: Pc): set<Pos> {
    var at := Pos(pc.plane, pc.row, pc.col);
    if pc.phase == Couple then {at, at.PrevPlane()}
    else if pc.phase == Relax then {at, at.PrevRow(), at.PrevColumn()}
    else {}
  }

  /** The cells of the grid a thread's next step writes. */
  function Writes(pc: Pc): set<Pos> {
    if pc.phase in {Couple, Relax} then {Pos(pc.plane, pc.row, pc.col)} else {}
  }

  lemma NoConflict(cfg: Config, s: State, t: int, u: int)
    requires Inv(cfg, s) && cfg.Thread(t) && cfg.Thread(u) && t != u
    requires s.pc[t].plane < cfg.planes && s.pc[u].plane < cfg.planes
    ensures Writes(s.pc[t]) !! Reads(s.pc[u]) && Writes(s.pc[t]) !! Writes(s.pc[u])
    ensures s.pc[t].row != s.pc[u].row
  {
    hide FlagCounts, FlagsHeld, Values, Scratch;
    cfg.OwnerIsUnique(s.pc[t].row, t);
    cfg.OwnerIsUnique(s.pc[u].row, u);
    if s.pc[u].phase == Relax && 0 < s.pc[u].row {
      PrevRowRelaxed(cfg, s, u, s.pc[u].col);
    }
  }

  /** Data-race freedom: no thread is about to write a grid cell that another is about to read or write,
      so a cell's update can be taken as one step. Their rows, hence their scratch, are different. */
  lemma NoDataRace(cfg: Config, s: State, t: int, u: int)
    requires Reachable(cfg, s) && cfg.Thread(t) && cfg.Thread(u) && t != u && WellFormed(cfg, s)
    requires s.pc[t].plane < cfg.planes && s.pc[u].plane < cfg.planes
    ensures Writes(s.pc[t]) !! Reads(s.pc[u]) && Writes(s.pc[t]) !! Writes(s.pc[u])
    ensures s.pc[t].row != s.pc[u].row
  {
    hide Inv, Reachable;
    ReachableStatesSatisfyInv(cfg, s);
    NoConflict(cfg, s, t, u);
  }

  // ----- how long a run is -----

  /** The number of rows a thread owns. */
  function OwnedRows(cfg: Config, t: int): int
    requires cfg.Thread(t)
  {
    cfg.lo[t + 1] as int - cfg.lo[t]
  }

  /** The steps thread `t` has taken when it stands at `pc`. */
  function StepsTaken(cfg: Config, t: int, pc: Pc): int
    requires cfg.Thread(t)
  {
    pc.plane * (OwnedRows(cfg, t) * (3 * cfg.cols + 4)) + StepsInPlane(cfg, t, pc)
  }

  /** Those of them in the plane it is in. */
  function StepsInPlane(cfg: Config, t: int, pc: Pc): int
    requires cfg.Thread(t)
  {
    var n, i := OwnedRows(cfg, t), pc.row - cfg.lo[t];
    match pc.phase
    case Form => i * cfg.cols + pc.col
    case Couple => n * cfg.cols + i * cfg.cols + pc.col
    case AwaitPrev => 2 * (n * cfg.cols) + i * (cfg.cols + 4)
    case AwaitNext => 2 * (n * cfg.cols) + i * (cfg.cols + 4) + 1
    case Relax => 2 * (n * cfg.cols) + i * (cfg.cols + 4) + 2 + pc.col
    case FirstRelease => 2 * (n * cfg.cols) + i * (cfg.cols + 4) + 2 + cfg.cols
    case SecondRelease => 2 * (n * cfg.cols) + i * (cfg.cols + 4) + 3 + cfg.cols
  }

  lemma PlaneSteps(n: int, c: int)
    ensures 2 * (n * c) + n * (c + 4) == n * (3 * c + 4)
  {}

  lemma NextCellIsOneStep(cfg: Config, t: int, pc: Pc)
    requires PcInRange(cfg, t, pc) && pc.plane < cfg.planes && pc.phase in {Form, Couple}
    ensures StepsTaken(cfg, t, NextCell(cfg, t, pc, if pc.phase == Form then Couple else AwaitPrev))
            == StepsTaken(cfg, t, pc) + 1
  {
    OneMore(pc.row - cfg.lo[t], cfg.cols);
  }

  lemma NextRowIsOneStep(cfg: Config, t: int, pc: Pc)
    requires PcInRange(cfg, t, pc) && pc.plane < cfg.planes && pc.phase == SecondRelease
    ensures StepsTaken(cfg, t, NextRow(cfg, t, pc)) == StepsTaken(cfg, t, pc) + 1
  {
    var n, i := cfg.lo[t + 1] as int - cfg.lo[t], pc.row - cfg.lo[t];
    OneMore(i, cfg.cols + 4);
    OneMore(pc.plane, n * (3 * cfg.cols + 4));
    PlaneSteps(n, cfg.cols);
  }

  lemma StepIsOneStep(cfg: Config, s: State, t: int)
    requires CanStep(cfg, s, t)
    ensures StepsTaken(cfg, t, Next(cfg, s, t).pc[t]) == StepsTaken(cfg, t, s.pc[t]) + 1
  {
    hide Sweep.Final, Sweep.PlaneValue, Sweep.PlaneWork, Sweep.RowValue, Sweep.RowSolution;
    var pc := s.pc[t];
    if pc.phase in {Form, Couple} {
      NextCellIsOneStep(cfg, t, pc);
    } else if pc.phase == SecondRelease {
      NextRowIsOneStep(cfg, t, pc);
    }
  }

  /** The steps all threads up to `m` have taken. */
  function TotalSteps(cfg: Config, pcs: seq<Pc>, m: nat): int
    requires m <= |pcs| && |pcs| == |cfg.lo| - 1
  {
    if m == 0 then 0 else TotalSteps(cfg, pcs, m - 1) + StepsTaken(cfg, m - 1, pcs[m - 1])
  }

  /** The steps of a whole sweep by the threads up to `m`. */
  function SweepSteps(cfg: Config, m: nat): int
    requires m < |cfg.lo|
  {
    cfg.planes * (cfg.lo[m] * (3 * cfg.cols + 4))
  }

  lemma {:induction false} TotalAfterStep(cfg: Config, pcs: seq<Pc>, t: int, pc: Pc, m: nat)
    requires |pcs| == |cfg.lo| - 1 && cfg.Thread(t) && m <= |pcs|
    ensures TotalSteps(cfg, pcs[t := pc], m) == TotalSteps(cfg, pcs, m) +
            if t < m then StepsTaken(cfg, t, pc) - StepsTaken(cfg, t, pcs[t]) else 0
  {
    hide StepsTaken;
    if m > 0 { TotalAfterStep(cfg, pcs, t, pc, m - 1); }
  }

  lemma {:induction false} TotalAtStart(cfg: Config, s: State, m: nat)
    requires cfg.Valid() && Init(cfg, s) && m <= |s.pc|
    ensures TotalSteps(cfg, s.pc, m) == 0
  {
    if m > 0 {
      TotalAtStart(cfg, s, m - 1);
      assert StepsTaken(cfg, m - 1, s.pc[m - 1]) == 0 by {
        if cfg.lo[m - 1] == cfg.lo[m] { assert 0 * (3 * cfg.cols + 4) == 0; }
      }
    }
  }

  lemma MulLeft(a: int, b: int, k: int)
    ensures a * k + b * k == (a + b) * k
    ensures k * a + k * b == k * (a + b)
  {}

  /** Inside a plane a thread has taken fewer steps than the plane has. */
  lemma StepsWithinPlane(n: int, i: int, c: int, col: int, x: int)
    requires 0 <= i < n && 0 <= col < c
    requires x == i * c + col || x == n * c + i * c + col
             || 2 * (n * c) + i * (c + 4) <= x <= 2 * (n * c) + i * (c + 4) + c + 3
    ensures x < n * (3 * c + 4)
  {
    PlaneSteps(n, c);
    OneMore(i, c);
    OneMore(i, c + 4);
    Monotone(i + 1, n, c);
    Monotone(i + 1, n, c + 4);
    Monotone(0, n, c);
    Monotone(0, n, c + 4);
  }

  lemma StepsInPlaneBounded(cfg: Config, t: int, pc: Pc)
    requires cfg.Valid() && PcInRange(cfg, t, pc)
    ensures pc.plane < cfg.planes ==> 0 <= StepsInPlane(cfg, t, pc) < OwnedRows(cfg, t) * (3 * cfg.cols + 4)
    ensures pc.plane == cfg.planes ==> StepsInPlane(cfg, t, pc) == 0
  {
    if pc.plane < cfg.planes {
      var n, i := OwnedRows(cfg, t), pc.row - cfg.lo[t];
      Monotone(0, i, cfg.cols);
      Monotone(0, i, cfg.cols + 4);
      Monotone(0, n, cfg.cols);
      StepsWithinPlane(n, i, cfg.cols, pc.col, StepsInPlane(cfg, t, pc));
    }
  }

  lemma PlanesAndSteps(p: int, planes: int, w: int, x: int)
    requires 0 <= p <= planes && (p < planes ==> 0 <= x < w) && (p == planes ==> x == 0)
    ensures p * w + x <= planes * w
    ensures p * w + x == planes * w <==> p == planes
  {
    if p < planes {
      OneMore(p, w);
      Monotone(p + 1, planes, w);
    }
  }

  /** The share of a thread in the steps of a sweep. */
  lemma SweepShare(cfg: Config, t: int)
    requires cfg.Valid() && cfg.Thread(t)
    ensures SweepSteps(cfg, t + 1) - SweepSteps(cfg, t) == cfg.planes * (OwnedRows(cfg, t) * (3 * cfg.cols + 4))
  {
    var n, k := OwnedRows(cfg, t), 3 * cfg.cols + 4;
    MulLeft(cfg.lo[t], n, k);
    MulLeft(cfg.lo[t] * k, n * k, cfg.planes);
  }

  lemma StepsBounded(cfg: Config, t: int, pc: Pc)
    requires cfg.Valid() && PcInRange(cfg, t, pc)
    ensures StepsTaken(cfg, t, pc) <= SweepSteps(cfg, t + 1) - SweepSteps(cfg, t)
    ensures StepsTaken(cfg, t, pc) == SweepSteps(cfg, t + 1) - SweepSteps(cfg, t) <==> pc.plane == cfg.planes
  {
    hide StepsInPlane, SweepSteps, OwnedRows;
    StepsInPlaneBounded(cfg, t, pc);
    SweepShare(cfg, t);
    PlanesAndSteps(pc.plane, cfg.planes, OwnedRows(cfg, t) * (3 * cfg.cols + 4), StepsInPlane(cfg, t, pc));
  }

  lemma {:induction false} TotalBounded(cfg: Config, s: State, m: nat)
    requires cfg.Valid() && WellFormed(cfg, s) && m <= |s.pc|
    ensures TotalSteps(cfg, s.pc, m) <= SweepSteps(cfg, m)
    ensures TotalSteps(cfg, s.pc, m) == SweepSteps(cfg, m) <==> forall t :: 0 <= t < m ==> s.pc[t].plane == cfg.planes
  {
    hide StepsTaken;
    if m == 0 {
      assert SweepSteps(cfg, 0) == 0;
    } else {
      hide SweepSteps;
      TotalBounded(cfg, s, m - 1);
      StepsBounded(cfg, m - 1, s.pc[m - 1]);
    }
  }

  lemma {:induction false} RunLengthIsTotal(cfg: Config, s: State, schedule: seq<int>, end: State)
    requires cfg.Valid() && WellFormed(cfg, s) && Reaches(cfg, s, schedule, end)
    ensures WellFormed(cfg, end)
    ensures TotalSteps(cfg, end.pc, |end.pc|) == TotalSteps(cfg, s.pc, |s.pc|) + |schedule|
    decreases |schedule|
  {
    hide Next, TotalSteps, StepsTaken;
    if schedule == [] {
    } else {
      var t := schedule[0];
      var m := Next(cfg, s, t);
      StepWellFormed(cfg, s, t);
      StepIsOneStep(cfg, s, t);
      TotalAfterStep(cfg, s.pc, t, m.pc[t], |s.pc|);
      assert m.pc == s.pc[t := m.pc[t]];
      RunLengthIsTotal(cfg, m, schedule[1..], end);
    }
  }

  /** Termination: no interleaving is longer than planes * rows * (3 * cols + 4) steps, and an interleaving has
      that many exactly when it has finished the sweep. */
  lemma RunLength(cfg: Config, s: State, schedule: seq<int>, end: State)
    requires cfg.Valid() && Init(cfg, s) && Reaches(cfg, s, schedule, end)
    ensures |schedule| <= cfg.planes * (cfg.rows * (3 * cfg.cols + 4))
    ensures |schedule| == cfg.planes * (cfg.rows * (3 * cfg.cols + 4)) <==> Finished(cfg, end)
  {
    hide Init, Reaches, TotalSteps, StepsTaken;
    InitWellFormed(cfg, s);
    RunLengthIsTotal(cfg, s, schedule, end);
    TotalAtStart(cfg, s, |s.pc|);
    TotalBounded(cfg, end, |end.pc|);
  }
}
