/**
  The geometry behind the LULESH halo exchange. Ranks form a `tp` by `tp` by `tp` grid, every rank holds a box of values
  of the same size, and a message carries the values on one side of the box: a face, an edge or a corner.
 */
module LuleshGrid {
  import opened Division

  // ----- values inside a box -----

  /** The extent of a box along planes, rows and columns. */
  datatype Box = Box(dz: nat, dy: nat, dx: nat)

  datatype Node = Node(z: int, y: int, x: int)

  /** A neighbour: -1, 0 or 1 along planes, rows and columns. */
  datatype Dir = Dir(p: int, r: int, c: int)

  predicate Unit(d: int) { -1 <= d <= 1 }

  predicate IsDir(d: Dir) { Unit(d.p) && Unit(d.r) && Unit(d.c) && d != Dir(0, 0, 0) }

  predicate Inside(b: Box, n: Node) {
    0 <= n.z < b.dz && 0 <= n.y < b.dy && 0 <= n.x < b.dx
  }

  /** Where a box keeps the value of a node. */
  function Index(b: Box, n: Node): int {
    n.z * b.dx * b.dy + n.y * b.dx + n.x
  }

  /** The part of one axis that a message in direction `d` covers. */
  function Lo(d: int, size: int): int { if d == 1 then size - 1 else 0 }

  function Hi(d: int, size: int): int { if d == -1 then 1 else size }

  function Extent(d: int, size: int): int { Hi(d, size) - Lo(d, size) }

  predicate OnSide(b: Box, d: Dir, n: Node) {
    && Lo(d.p, b.dz) <= n.z < Hi(d.p, b.dz)
    && Lo(d.r, b.dy) <= n.y < Hi(d.r, b.dy)
    && Lo(d.c, b.dx) <= n.x < Hi(d.c, b.dx)
  }

  /** A place counted plane by plane, row by row. */
  function Flat(z: int, y: int, x: int, ny: int, nx: int): int { (z * ny + y) * nx + x }

  function Volume(nz: int, ny: int, nx: int): int { nz * ny * nx }

  /** The place of a node in the message of its side. */
  function Pos(b: Box, d: Dir, n: Node): int {
    Flat(n.z - Lo(d.p, b.dz), n.y - Lo(d.r, b.dy), n.x - Lo(d.c, b.dx), Extent(d.r, b.dy), Extent(d.c, b.dx))
  }

  /** The number of values in a message: one per node of the side. */
  function Count(b: Box, d: Dir): int {
    Volume(Extent(d.p, b.dz), Extent(d.r, b.dy), Extent(d.c, b.dx))
  }

  predicate Before(a: Node, b: Node) {
    a.z < b.z || (a.z == b.z && (a.y < b.y || (a.y == b.y && a.x < b.x)))
  }

  /** A box with at least one value along every axis. */
  predicate Proper(b: Box) { b.dz > 0 && b.dy > 0 && b.dx > 0 }

  lemma FlatInRange(z: int, y: int, x: int, nz: int, ny: int, nx: int)
    requires 0 <= z < nz && 0 <= y < ny && 0 <= x < nx
    ensures 0 <= Flat(z, y, x, ny, nx) < Volume(nz, ny, nx)
  {
    Monotone(0, z, ny);
    Monotone(z + 1, nz, ny);
    OneMore(z, ny);
    var row := z * ny + y;
    assert 0 <= row < nz * ny;
    Monotone(0, row, nx);
    Monotone(row + 1, nz * ny, nx);
    OneMore(row, nx);
  }

  lemma FlatOrder(z: int, y: int, x: int, z': int, y': int, x': int, ny: int, nx: int)
    requires 0 <= y < ny && 0 <= x < nx && 0 <= y' < ny && 0 <= x' < nx
    requires Before(Node(z, y, x), Node(z', y', x'))
    ensures Flat(z, y, x, ny, nx) < Flat(z', y', x', ny, nx)
  {
    var row, row' := z * ny + y, z' * ny + y';
    if z < z' {
      Monotone(z + 1, z', ny);
      OneMore(z, ny);
      assert row < row';
    }
    if row < row' {
      Monotone(row + 1, row', nx);
      OneMore(row, nx);
    }
  }

  lemma PosInRange(b: Box, d: Dir, n: Node)
    requires OnSide(b, d, n)
    ensures 0 <= Pos(b, d, n) < Count(b, d)
  {
    FlatInRange(n.z - Lo(d.p, b.dz), n.y - Lo(d.r, b.dy), n.x - Lo(d.c, b.dx),
                Extent(d.p, b.dz), Extent(d.r, b.dy), Extent(d.c, b.dx));
  }

  /** Messages list their side in the order of planes, rows and columns. */
  lemma PosOrder(b: Box, d: Dir, m: Node, n: Node)
    requires OnSide(b, d, m) && OnSide(b, d, n) && Before(m, n)
    ensures Pos(b, d, m) < Pos(b, d, n)
  {
    FlatOrder(m.z - Lo(d.p, b.dz), m.y - Lo(d.r, b.dy), m.x - Lo(d.c, b.dx),
              n.z - Lo(d.p, b.dz), n.y - Lo(d.r, b.dy), n.x - Lo(d.c, b.dx), Extent(d.r, b.dy), Extent(d.c, b.dx));
  }

  /** No two nodes of a side share a place in its message. */
  lemma PosIsInjective(b: Box, d: Dir, m: Node, n: Node)
    requires OnSide(b, d, m) && OnSide(b, d, n) && Pos(b, d, m) == Pos(b, d, n)
    ensures m == n
  {
    if Before(m, n) { PosOrder(b, d, m, n); }
    if Before(n, m) { PosOrder(b, d, n, m); }
  }

  lemma Distribute(z: int, dx: int, dy: int, y: int)
    ensures z * dx * dy + y * dx == (z * dy + y) * dx
  {
    assert z * dx * dy == z * dy * dx;
    assert (z * dy + y) * dx == z * dy * dx + y * dx;
  }

  lemma IndexInRange(b: Box, n: Node)
    requires Inside(b, n)
    ensures 0 <= Index(b, n) < b.dz * b.dy * b.dx
  {
    Distribute(n.z, b.dx, b.dy, n.y);
    FlatInRange(n.z, n.y, n.x, b.dz, b.dy, b.dx);
  }

  lemma IndexIsInjective(b: Box, m: Node, n: Node)
    requires Inside(b, m) && Inside(b, n) && Index(b, m) == Index(b, n)
    ensures m == n
  {
    Distribute(m.z, b.dx, b.dy, m.y);
    Distribute(n.z, b.dx, b.dy, n.y);
    if Before(m, n) { FlatOrder(m.z, m.y, m.x, n.z, n.y, n.x, b.dy, b.dx); }
    if Before(n, m) { FlatOrder(n.z, n.y, n.x, m.z, m.y, m.x, b.dy, b.dx); }
  }

  lemma SideIsInside(b: Box, d: Dir, n: Node)
    requires Proper(b) && OnSide(b, d, n)
    ensures Inside(b, n)
  {}

  /** The length of a message: the extents of the box along the axes in which the neighbour is level with the rank. */
  lemma CountOfSide(b: Box, d: Dir)
    requires IsDir(d)
    ensures Count(b, d) ==
            (if d.p == 0 then b.dz else 1) * (if d.r == 0 then b.dy else 1) * (if d.c == 0 then b.dx else 1)
  {
    hide Extent;
    ExtentOf(d.p, b.dz);
    ExtentOf(d.r, b.dy);
    ExtentOf(d.c, b.dx);
  }

  lemma ExtentOf(d: int, size: int)
    requires Unit(d)
    ensures Extent(d, size) == if d == 0 then size else 1
  {}

  /** The loops over the faces, written with the offsets the code adds up, read and write exactly the node whose place
      in the message is the loop counter: here the faces between planes, where the code has one loop for both. */
  lemma PlaneFacesMatchPlaces(b: Box, i: int, j: int)
    ensures Pos(b, Dir(-1, 0, 0), Node(0, i, j)) == i * b.dx + j == Index(b, Node(0, i, j))
    ensures Pos(b, Dir(1, 0, 0), Node(b.dz - 1, i, j)) == i * b.dx + j
    ensures Index(b, Node(b.dz - 1, i, j)) == b.dx * b.dy * (b.dz - 1) + (i * b.dx + j)
  {
    assert (b.dz - 1) * b.dx * b.dy == b.dx * b.dy * (b.dz - 1);
  }

  /** The faces between rows. */
  lemma RowFacesMatchPlaces(b: Box, i: int, j: int)
    ensures Pos(b, Dir(0, -1, 0), Node(i, 0, j)) == i * b.dx + j && Index(b, Node(i, 0, j)) == i * b.dx * b.dy + j
    ensures Pos(b, Dir(0, 1, 0), Node(i, b.dy - 1, j)) == i * b.dx + j
    ensures Index(b, Node(i, b.dy - 1, j)) == b.dx * (b.dy - 1) + i * b.dx * b.dy + j
  {
    assert (b.dy - 1) * b.dx == b.dx * (b.dy - 1);
  }

  /** The faces between columns. */
  lemma ColumnFacesMatchPlaces(b: Box, i: int, j: int)
    ensures Pos(b, Dir(0, 0, -1), Node(i, j, 0)) == i * b.dy + j
    ensures Index(b, Node(i, j, 0)) == i * b.dx * b.dy + j * b.dx
    ensures Pos(b, Dir(0, 0, 1), Node(i, j, b.dx - 1)) == i * b.dy + j
    ensures Index(b, Node(i, j, b.dx - 1)) == b.dx - 1 + i * b.dx * b.dy + j * b.dx
  {}

  /** The same for the loops over the edges between rows and columns: the counter runs along the planes. */
  lemma PlaneEdgesMatchPlaces(b: Box, i: int)
    ensures Pos(b, Dir(0, -1, -1), Node(i, 0, 0)) == i && Index(b, Node(i, 0, 0)) == i * b.dx * b.dy
    ensures Pos(b, Dir(0, 1, 1), Node(i, b.dy - 1, b.dx - 1)) == i
    ensures Index(b, Node(i, b.dy - 1, b.dx - 1)) == b.dx * b.dy - 1 + i * b.dx * b.dy
    ensures Pos(b, Dir(0, 1, -1), Node(i, b.dy - 1, 0)) == i
    ensures Index(b, Node(i, b.dy - 1, 0)) == b.dx * (b.dy - 1) + i * b.dx * b.dy
    ensures Pos(b, Dir(0, -1, 1), Node(i, 0, b.dx - 1)) == i
    ensures Index(b, Node(i, 0, b.dx - 1)) == b.dx - 1 + i * b.dx * b.dy
  {
    assert (b.dy - 1) * b.dx == b.dx * (b.dy - 1) == b.dx * b.dy - b.dx;
  }

  /** The edges between rows and planes: the counter runs along the columns. */
  lemma ColumnEdgesMatchPlaces(b: Box, i: int)
    ensures Pos(b, Dir(-1, -1, 0), Node(0, 0, i)) == i == Index(b, Node(0, 0, i))
    ensures Pos(b, Dir(1, 1, 0), Node(b.dz - 1, b.dy - 1, i)) == i
    ensures Index(b, Node(b.dz - 1, b.dy - 1, i)) == b.dx * (b.dy - 1) + b.dx * b.dy * (b.dz - 1) + i
    ensures Pos(b, Dir(1, -1, 0), Node(b.dz - 1, 0, i)) == i
    ensures Index(b, Node(b.dz - 1, 0, i)) == b.dx * b.dy * (b.dz - 1) + i
    ensures Pos(b, Dir(-1, 1, 0), Node(0, b.dy - 1, i)) == i
    ensures Index(b, Node(0, b.dy - 1, i)) == b.dx * (b.dy - 1) + i
  {
    assert (b.dz - 1) * b.dx * b.dy == b.dx * b.dy * (b.dz - 1);
    assert (b.dy - 1) * b.dx == b.dx * (b.dy - 1);
  }

  /** The edges between columns and planes: the counter runs along the rows. */
  lemma RowEdgesMatchPlaces(b: Box, i: int)
    ensures Pos(b, Dir(-1, 0, -1), Node(0, i, 0)) == i && Index(b, Node(0, i, 0)) == i * b.dx
    ensures Pos(b, Dir(1, 0, 1), Node(b.dz - 1, i, b.dx - 1)) == i
    ensures Index(b, Node(b.dz - 1, i, b.dx - 1)) == b.dx * b.dy * (b.dz - 1) + b.dx - 1 + i * b.dx
    ensures Pos(b, Dir(1, 0, -1), Node(b.dz - 1, i, 0)) == i
    ensures Index(b, Node(b.dz - 1, i, 0)) == b.dx * b.dy * (b.dz - 1) + i * b.dx
    ensures Pos(b, Dir(-1, 0, 1), Node(0, i, b.dx - 1)) == i
    ensures Index(b, Node(0, i, b.dx - 1)) == b.dx - 1 + i * b.dx
  {
    assert (b.dz - 1) * b.dx * b.dy == b.dx * b.dy * (b.dz - 1);
  }

  /** And for the corners, whose messages have one place. */
  lemma CornersMatchPlaces(b: Box)
    ensures Pos(b, Dir(-1, -1, -1), Node(0, 0, 0)) == 0 == Index(b, Node(0, 0, 0))
    ensures Pos(b, Dir(1, -1, -1), Node(b.dz - 1, 0, 0)) == 0
    ensures Index(b, Node(b.dz - 1, 0, 0)) == b.dx * b.dy * (b.dz - 1)
    ensures Pos(b, Dir(-1, -1, 1), Node(0, 0, b.dx - 1)) == 0 && Index(b, Node(0, 0, b.dx - 1)) == b.dx - 1
    ensures Pos(b, Dir(1, -1, 1), Node(b.dz - 1, 0, b.dx - 1)) == 0
    ensures Index(b, Node(b.dz - 1, 0, b.dx - 1)) == b.dx * b.dy * (b.dz - 1) + (b.dx - 1)
    ensures Pos(b, Dir(-1, 1, -1), Node(0, b.dy - 1, 0)) == 0 && Index(b, Node(0, b.dy - 1, 0)) == b.dx * (b.dy - 1)
    ensures Pos(b, Dir(1, 1, -1), Node(b.dz - 1, b.dy - 1, 0)) == 0
    ensures Index(b, Node(b.dz - 1, b.dy - 1, 0)) == b.dx * b.dy * (b.dz - 1) + b.dx * (b.dy - 1)
    ensures Pos(b, Dir(-1, 1, 1), Node(0, b.dy - 1, b.dx - 1)) == 0
    ensures Index(b, Node(0, b.dy - 1, b.dx - 1)) == b.dx * b.dy - 1
    ensures Pos(b, Dir(1, 1, 1), Node(b.dz - 1, b.dy - 1, b.dx - 1)) == 0
    ensures Index(b, Node(b.dz - 1, b.dy - 1, b.dx - 1)) == b.dx * b.dy * b.dz - 1
  {
    assert (b.dz - 1) * b.dx * b.dy == b.dx * b.dy * (b.dz - 1) == b.dx * b.dy * b.dz - b.dx * b.dy;
    assert (b.dy - 1) * b.dx == b.dx * (b.dy - 1) == b.dx * b.dy - b.dx;
  }

  // ----- what two neighbours share -----

  function Neg(d: Dir): Dir { Dir(-d.p, -d.r, -d.c) }

  function Across(d: int, size: int, v: int): int { if d == -1 then size - 1 else if d == 1 then 0 else v }

  /** The neighbour's copy of a node on the side that faces it. */
  function Mirror(b: Box, d: Dir, n: Node): Node {
    Node(Across(d.p, b.dz, n.z), Across(d.r, b.dy, n.y), Across(d.c, b.dx, n.x))
  }

  /** The two sides of a boundary list their copies of a node at the same place. */
  lemma MirrorHasSamePlace(b: Box, d: Dir, n: Node)
    requires Proper(b) && IsDir(d) && OnSide(b, d, n)
    ensures OnSide(b, Neg(d), Mirror(b, d, n))
    ensures Pos(b, Neg(d), Mirror(b, d, n)) == Pos(b, d, n) && Count(b, Neg(d)) == Count(b, d)
  {
    hide Flat, Volume, Pos, Count, Across, Lo, Hi, Extent, Unit;
    var e, m := Neg(d), Mirror(b, d, n);
    AcrossKeeps(d.p, b.dz, n.z);
    AcrossKeeps(d.r, b.dy, n.y);
    AcrossKeeps(d.c, b.dx, n.x);
    SamePlace(b, d, e, n, m);
  }

  lemma SamePlace(b: Box, d: Dir, e: Dir, n: Node, m: Node)
    requires m.z - Lo(e.p, b.dz) == n.z - Lo(d.p, b.dz) && Extent(e.p, b.dz) == Extent(d.p, b.dz)
    requires m.y - Lo(e.r, b.dy) == n.y - Lo(d.r, b.dy) && Extent(e.r, b.dy) == Extent(d.r, b.dy)
    requires m.x - Lo(e.c, b.dx) == n.x - Lo(d.c, b.dx) && Extent(e.c, b.dx) == Extent(d.c, b.dx)
    ensures Pos(b, e, m) == Pos(b, d, n) && Count(b, e) == Count(b, d)
  {
    hide Flat, Volume, Lo, Extent;
  }

  lemma AcrossKeeps(d: int, size: int, v: int)
    requires Unit(d) && size > 0 && Lo(d, size) <= v < Hi(d, size)
    ensures Across(d, size, v) - Lo(-d, size) == v - Lo(d, size) && Extent(-d, size) == Extent(d, size)
    ensures Lo(-d, size) <= Across(d, size, v) < Hi(-d, size)
  {}

  // ----- the grid of ranks -----

  datatype Place = Place(p: int, r: int, c: int)

  predicate InGrid(tp: nat, a: Place) {
    0 <= a.p < tp && 0 <= a.r < tp && 0 <= a.c < tp
  }

  function Rank(tp: nat, a: Place): int { a.p * tp * tp + a.r * tp + a.c }

  function Step(a: Place, d: Dir): Place { Place(a.p + d.p, a.r + d.r, a.c + d.c) }

  function Ranks(tp: nat): Box { Box(tp, tp, tp) }

  lemma RankInRange(tp: nat, a: Place)
    requires InGrid(tp, a)
    ensures 0 <= Rank(tp, a) < tp * tp * tp
  {
    IndexInRange(Ranks(tp), Node(a.p, a.r, a.c));
  }

  lemma RankIsInjective(tp: nat, a: Place, b: Place)
    requires InGrid(tp, a) && InGrid(tp, b) && Rank(tp, a) == Rank(tp, b)
    ensures a == b
  {
    IndexIsInjective(Ranks(tp), Node(a.p, a.r, a.c), Node(b.p, b.r, b.c));
  }

  datatype Decomposition = Decomposed(col: int, row: int, plane: int, side: int) | NotACube

  /** `InitMeshDecomp`; `side` is the rounded cube root of the number of ranks. */
  function InitMeshDecomp(numRanks: int, myRank: int, side: int): Decomposition
    requires numRanks > 0
  {
    if side * side * side != numRanks then NotACube
    else
      var dx, dy, dz := side, side, side;
      var remainder := dx * dy * dz % numRanks;
      var myDom :=
        if myRank < remainder then myRank * (1 + dx * dy * dz / numRanks)
        else remainder * (1 + dx * dy * dz / numRanks) + (myRank - remainder) * (dx * dy * dz / numRanks);
      CubeIsPositive(side);
      Decomposed(myDom % dx, myDom / dx % dy, myDom / (dx * dy), side)
  }

  lemma CubeIsPositive(s: int)
    requires s * s * s > 0
    ensures s > 0 && s * s > 0
  {
    if s <= 0 { NoPositiveCube(s); }
    Monotone(1, s, s);
  }

  lemma NoPositiveCube(s: int)
    requires s <= 0
    ensures s * s * s <= 0
  {
    SquareIsNonNegative(s);
    Monotone(s, 0, s * s);
  }

  lemma SquareIsNonNegative(s: int)
    ensures s * s >= 0
  {}

  lemma SelfDivision(n: int)
    requires n > 0
    ensures n % n == 0 && n / n == 1
  {
    RestIsUnique(n, n, 1, 0);
  }

  lemma DecompositionTakesDigits(numRanks: int, myRank: int, side: int)
    requires side * side * side == numRanks && 0 <= myRank < numRanks
    ensures side > 0 && side * side > 0
    ensures InitMeshDecomp(numRanks, myRank, side) ==
            Decomposed(myRank % side, myRank / side % side, myRank / (side * side), side)
  {
    CubeIsPositive(side);
    SelfDivision(numRanks);
    OneTimes(myRank);
  }

  lemma OneTimes(n: int)
    ensures 0 * (1 + 1) + (n - 0) * 1 == n
  {}

  lemma TopDigit(n: nat, s: nat, q: int, h: int, r: int, c: int)
    requires 0 <= r < s && 0 <= c < s && q == h * s + r && n == q * s + c
    ensures s * s > 0 && n / (s * s) == h && h * s * s + r * s + c == n
  {
    Nested(h, s, r, c);
    RestIsUnique(n, s * s, h, r * s + c);
  }

  lemma TopDigitBelow(n: nat, s: nat)
    requires s > 0 && n < s * s * s
    ensures n / s / s < s
  {
    QuotientBelow(n, s, s * s);
    QuotientBelow(n / s, s, s);
  }

  /** A number below the cube of `s` is its three digits in base `s`. */
  lemma ThreeDigits(n: nat, s: nat)
    requires s > 0 && s * s > 0 && n < s * s * s
    ensures 0 <= n / (s * s) < s && n / (s * s) * s * s + n / s % s * s + n % s == n
  {
    var q := n / s;
    TopDigit(n, s, q, q / s, q % s, n % s);
    TopDigitBelow(n, s);
  }

  lemma Nested(h: int, s: int, r: int, c: int)
    requires 0 <= r < s && 0 <= c < s
    ensures (h * s + r) * s + c == s * s * h + (r * s + c) == h * s * s + r * s + c
    ensures 0 <= r * s + c < s * s
  {
    assert (h * s + r) * s == h * s * s + r * s;
    assert h * s * s == s * s * h;
    Monotone(0, r, s);
    Monotone(r + 1, s, s);
    OneMore(r, s);
  }

  /** Ranks and grid positions correspond: a rank's own position is in the grid, and has that rank. */
  lemma DecompositionInvertsRank(numRanks: int, myRank: int, side: nat)
    requires side * side * side == numRanks && 0 <= myRank < numRanks
    ensures InitMeshDecomp(numRanks, myRank, side).Decomposed?
    ensures var d := InitMeshDecomp(numRanks, myRank, side);
            InGrid(side, Place(d.plane, d.row, d.col)) && Rank(side, Place(d.plane, d.row, d.col)) == myRank
  {
    hide InitMeshDecomp;
    DecompositionTakesDigits(numRanks, myRank, side);
    ThreeDigits(myRank, side);
  }

  /** A neighbour is present when the rank is not at that end of the grid. */
  predicate Present(tp: nat, a: Place, d: Dir) {
    && (d.p == -1 ==> a.p != 0) && (d.p == 1 ==> a.p != tp - 1)
    && (d.r == -1 ==> a.r != 0) && (d.r == 1 ==> a.r != tp - 1)
    && (d.c == -1 ==> a.c != 0) && (d.c == 1 ==> a.c != tp - 1)
  }

  lemma PresentIsInGrid(tp: nat, a: Place, d: Dir)
    requires InGrid(tp, a) && IsDir(d)
    ensures Present(tp, a, d) <==> InGrid(tp, Step(a, d))
  {}

  /** The rank arithmetic of the messages finds the neighbour. */
  lemma PeerIsNeighbour(tp: nat, a: Place, d: Dir)
    ensures Rank(tp, a) + d.p * tp * tp + d.r * tp + d.c == Rank(tp, Step(a, d))
  {
    assert (a.p + d.p) * tp * tp == a.p * tp * tp + d.p * tp * tp;
    assert (a.r + d.r) * tp == a.r * tp + d.r * tp;
  }

  // ----- the 26 blocks -----

  /** One of the 26 blocks of `CommRecv` and `CommSend`: the neighbour it serves, and whether it is under `doRecv` and
      under `doSend`. */
  datatype Block = Block(dir: Dir, underDoRecv: bool, underDoSend: bool)

  const BLOCKS := 26
  const PLANES := 6
  const EDGES_END := 18

  /** The blocks in the order of the code: faces, edges, corners. */
  function BlockAt(k: nat): Block
    requires k < BLOCKS
  {
    if k == 0 then Block(Dir(-1, 0, 0), true, false)
    else if k == 1 then Block(Dir(1, 0, 0), false, true)
    else if k == 2 then Block(Dir(0, -1, 0), true, false)
    else if k == 3 then Block(Dir(0, 1, 0), false, true)
    else if k == 4 then Block(Dir(0, 0, -1), true, false)
    else if k == 5 then Block(Dir(0, 0, 1), false, true)
    else if k == 6 then Block(Dir(0, -1, -1), true, false)
    else if k == 7 then Block(Dir(-1, -1, 0), true, false)
    else if k == 8 then Block(Dir(-1, 0, -1), true, false)
    else if k == 9 then Block(Dir(0, 1, 1), false, true)
    else if k == 10 then Block(Dir(1, 1, 0), false, true)
    else if k == 11 then Block(Dir(1, 0, 1), false, true)
    else if k == 12 then Block(Dir(0, 1, -1), false, true)
    else if k == 13 then Block(Dir(1, -1, 0), false, true)
    else if k == 14 then Block(Dir(1, 0, -1), false, true)
    else if k == 15 then Block(Dir(0, -1, 1), true, false)
    else if k == 16 then Block(Dir(-1, 1, 0), true, false)
    else if k == 17 then Block(Dir(-1, 0, 1), true, false)
    else if k == 18 then Block(Dir(-1, -1, -1), true, false)
    else if k == 19 then Block(Dir(1, -1, -1), false, true)
    else if k == 20 then Block(Dir(-1, -1, 1), true, false)
    else if k == 21 then Block(Dir(1, -1, 1), false, true)
    else if k == 22 then Block(Dir(-1, 1, -1), true, false)
    else if k == 23 then Block(Dir(1, 1, -1), false, true)
    else if k == 24 then Block(Dir(-1, 1, 1), true, false)
    else Block(Dir(1, 1, 1), false, true)
  }

  function DirAt(k: nat): Dir
    requires k < BLOCKS
  {
    BlockAt(k).dir
  }

  /** The block that serves a neighbour. */
  function BlockOf(d: Dir): (k: nat)
    requires IsDir(d)
    ensures k < BLOCKS && DirAt(k) == d
  {
    if d.p == 0 && d.r == 0 then if d.c == -1 then 4 else 5
    else if d.p == 0 && d.c == 0 then if d.r == -1 then 2 else 3
    else if d.r == 0 && d.c == 0 then if d.p == -1 then 0 else 1
    else if d.p == 0 then
      if d.r == -1 then if d.c == -1 then 6 else 15
      else if d.c == -1 then 12 else 9
    else if d.r == 0 then
      if d.p == -1 then if d.c == -1 then 8 else 17
      else if d.c == -1 then 14 else 11
    else if d.c == 0 then
      if d.p == -1 then if d.r == -1 then 7 else 16
      else if d.r == -1 then 13 else 10
    else if d.p == -1 then
      if d.r == -1 then if d.c == -1 then 18 else 20
      else if d.c == -1 then 22 else 24
    else if d.r == -1 then if d.c == -1 then 19 else 21
    else if d.c == -1 then 23 else 25
  }

  function Axes(d: Dir): int {
    (if d.p == 0 then 0 else 1) + (if d.r == 0 then 0 else 1) + (if d.c == 0 then 0 else 1)
  }

  /** The blocks serve every neighbour once: the faces, then the edges, then the corners. A block is under `doRecv` when
      the neighbour has a lower rank, and under `doSend` when it has a higher one. */
  lemma BlocksCoverNeighbours(k: nat)
    requires k < BLOCKS
    ensures IsDir(DirAt(k)) && BlockOf(DirAt(k)) == k
    ensures (k < PLANES <==> Axes(DirAt(k)) == 1) && (k < EDGES_END <==> Axes(DirAt(k)) <= 2)
    ensures BlockAt(k).underDoRecv <==> Before(Node(DirAt(k).p, DirAt(k).r, DirAt(k).c), Node(0, 0, 0))
    ensures BlockAt(k).underDoSend <==> !BlockAt(k).underDoRecv
  {}

  /** Where the neighbour deals with the same boundary. */
  function Opposite(k: nat): (j: nat)
    requires k < BLOCKS
    ensures j < BLOCKS && DirAt(j) == Neg(DirAt(k))
  {
    BlocksCoverNeighbours(k);
    BlockOf(Neg(DirAt(k)))
  }

  lemma OppositeIsMutual(k: nat)
    requires k < BLOCKS
    ensures Opposite(Opposite(k)) == k
    ensures BlockAt(Opposite(k)).underDoSend == BlockAt(k).underDoRecv
    ensures (Opposite(k) < PLANES <==> k < PLANES) && (Opposite(k) < EDGES_END <==> k < EDGES_END)
  {
    hide BlockAt, DirAt, BlockOf;
    BlocksCoverNeighbours(k);
    BlocksCoverNeighbours(Opposite(k));
    assert Neg(Neg(DirAt(k))) == DirAt(k);
  }
}
