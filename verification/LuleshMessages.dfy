/**
  The messages of one LULESH exchange: which blocks run, where their slots lie in the communication buffers, and which
  rank they name. All ranks are considered together.
 */
module LuleshMessages {
  import opened Division
  import opened LuleshGrid

  const MAX_FIELDS_PER_MPI_COMM := 6
  const CACHE_COHERENCE_PAD_REAL := 16

  // ----- buffers -----

  /** `CACHE_ALIGN_REAL`: clearing the low four bits after adding fifteen. */
  function CacheAlignReal(n: nat): nat {
    (n + (CACHE_COHERENCE_PAD_REAL - 1)) / CACHE_COHERENCE_PAD_REAL * CACHE_COHERENCE_PAD_REAL
  }

  /** Rounding up to a multiple of the pad. */
  lemma AlignRoundsUp(n: nat)
    ensures n <= CacheAlignReal(n) < n + CACHE_COHERENCE_PAD_REAL && CacheAlignReal(n) % CACHE_COHERENCE_PAD_REAL == 0
  {}

  function Max(a: int, b: int): int { if a > b then a else b }

  function Bit(c: bool): int { if c then 1 else 0 }

  /** Bitwise and of two flags. */
  function And(a: int, b: int): int { if a == 1 && b == 1 then 1 else 0 }

  function EdgeFlags(rowMin: int, rowMax: int, colMin: int, colMax: int, planeMin: int, planeMax: int): int {
    And(rowMin, colMin) + And(rowMin, planeMin) + And(colMin, planeMin)
    + And(rowMax, colMax) + And(rowMax, planeMax) + And(colMax, planeMax)
    + And(rowMax, colMin) + And(rowMin, planeMax) + And(colMin, planeMax)
    + And(rowMin, colMax) + And(rowMax, planeMin) + And(colMax, planeMin)
  }

  function CornerFlags(rowMin: int, rowMax: int, colMin: int, colMax: int, planeMin: int, planeMax: int): int {
    And(And(rowMin, colMin), planeMin) + And(And(rowMin, colMin), planeMax)
    + And(And(rowMin, colMax), planeMin) + And(And(rowMin, colMax), planeMax)
    + And(And(rowMax, colMin), planeMin) + And(And(rowMax, colMin), planeMax)
    + And(And(rowMax, colMax), planeMin) + And(And(rowMax, colMax), planeMax)
  }

  datatype Buffers = Buffers(maxPlaneSize: nat, maxEdgeSize: nat, comBufSize: int)

  /** `SetupCommBuffers` for a box of elements of the given sizes. */
  function SetupCommBuffers(tp: nat, a: Place, sizeX: nat, sizeY: nat, sizeZ: nat): Buffers {
    var maxEdgeSize := Max(sizeX, Max(sizeY, sizeZ)) + 1;
    var plane := CacheAlignReal(maxEdgeSize * maxEdgeSize);
    var edge := CacheAlignReal(maxEdgeSize);
    var rowMin, rowMax := Bit(a.r != 0), Bit(a.r != tp - 1);
    var colMin, colMax := Bit(a.c != 0), Bit(a.c != tp - 1);
    var planeMin, planeMax := Bit(a.p != 0), Bit(a.p != tp - 1);
    var faces := (rowMin + rowMax + colMin + colMax + planeMin + planeMax) * plane * MAX_FIELDS_PER_MPI_COMM;
    var edges := EdgeFlags(rowMin, rowMax, colMin, colMax, planeMin, planeMax) * edge * MAX_FIELDS_PER_MPI_COMM;
    var corners := CornerFlags(rowMin, rowMax, colMin, colMax, planeMin, planeMax) * CACHE_COHERENCE_PAD_REAL;
    Buffers(plane, edge, faces + edges + corners)
  }

  // ----- which messages there are -----

  /** What all ranks agree on for one exchange; `flag` is `doRecv` for `CommRecv` and `doSend` for `CommSend`. */
  datatype Exchange = Exchange(tp: nat, box: Box, fields: nat, flag: bool, planeOnly: bool,
                               maxPlaneSize: nat, maxEdgeSize: nat)

  datatype Half = Receiving | Sending

  /** Whether a block runs at a rank. */
  predicate On(x: Exchange, half: Half, a: Place, k: nat)
    requires k < BLOCKS
  {
    var block := BlockAt(k);
    && Present(x.tp, a, block.dir)
    && ((if half.Receiving? then block.underDoRecv else block.underDoSend) ==> x.flag)
    && (x.planeOnly ==> k < PLANES)
  }

  /** The rank a block names. */
  function Peer(x: Exchange, a: Place, k: nat): int
    requires k < BLOCKS
  {
    Rank(x.tp, a) + DirAt(k).p * x.tp * x.tp + DirAt(k).r * x.tp + DirAt(k).c
  }

  /** With the flag off a rank receives from the neighbours of higher rank only, and sends to those of lower rank only;
      with the flag on it does both with all of them. */
  lemma PostedByRank(x: Exchange, a: Place, k: nat)
    requires InGrid(x.tp, a) && k < BLOCKS && !x.planeOnly
    ensures On(x, Receiving, a, k) <==> InGrid(x.tp, Step(a, DirAt(k))) && (x.flag || Rank(x.tp, a) < Peer(x, a, k))
    ensures On(x, Sending, a, k) <==> InGrid(x.tp, Step(a, DirAt(k))) && (x.flag || Peer(x, a, k) < Rank(x.tp, a))
  {
    hide BlockAt, Rank, Present;
    var b := Step(a, DirAt(k));
    BlocksCoverNeighbours(k);
    PeerIsNeighbour(x.tp, a, DirAt(k));
    PresentIsInGrid(x.tp, a, DirAt(k));
    if InGrid(x.tp, b) {
      RankOrder(x.tp, a, b);
    }
  }

  /** Ranks follow the order of planes, rows and columns. */
  lemma RankOrder(tp: nat, a: Place, b: Place)
    requires InGrid(tp, a) && InGrid(tp, b) && a != b
    ensures Rank(tp, b) < Rank(tp, a) <==> Before(Node(b.p, b.r, b.c), Node(a.p, a.r, a.c))
    ensures Rank(tp, b) != Rank(tp, a)
  {
    Distribute(a.p, tp, tp, a.r);
    Distribute(b.p, tp, tp, b.r);
    if Before(Node(b.p, b.r, b.c), Node(a.p, a.r, a.c)) {
      FlatOrder(b.p, b.r, b.c, a.p, a.r, a.c, tp, tp);
    } else {
      FlatOrder(a.p, a.r, a.c, b.p, b.r, b.c, tp, tp);
    }
  }

  /** The number of values in the message of a block. */
  function MessageCount(x: Exchange, k: nat): int
    requires k < BLOCKS
  {
    x.fields * Count(x.box, DirAt(k))
  }

  function SlotSize(x: Exchange, k: nat): nat {
    if k < PLANES then x.fields * x.maxPlaneSize
    else if k < EDGES_END then x.fields * x.maxEdgeSize
    else CACHE_COHERENCE_PAD_REAL
  }

  /** Where the slot of a block begins: behind the slots of the blocks that ran before it. */
  function Offset(x: Exchange, half: Half, a: Place, k: nat): nat
    requires k <= BLOCKS
  {
    if k == 0 then 0
    else Offset(x, half, a, k - 1) + if On(x, half, a, k - 1) then SlotSize(x, k - 1) else 0
  }

  datatype Post = Post(block: nat, peer: int, offset: nat, count: int)

  function PostOf(x: Exchange, half: Half, a: Place, k: nat): Post
    requires k < BLOCKS
  {
    Post(k, Peer(x, a, k), Offset(x, half, a, k), MessageCount(x, k))
  }

  /** The messages the first `k` blocks post. */
  function Posted(x: Exchange, half: Half, a: Place, k: nat): seq<Post>
    requires k <= BLOCKS
  {
    if k == 0 then []
    else Posted(x, half, a, k - 1) + if On(x, half, a, k - 1) then [PostOf(x, half, a, k - 1)] else []
  }

  /** The three message counters, the address made from them, and the number of requests. */
  ghost predicate Counters(x: Exchange, half: Half, a: Place, k: nat, pmsg: nat, emsg: nat, cmsg: nat)
    requires k <= BLOCKS
  {
    && pmsg * (x.fields * x.maxPlaneSize) + emsg * (x.fields * x.maxEdgeSize) + cmsg * CACHE_COHERENCE_PAD_REAL
       == Offset(x, half, a, k)
    && |Posted(x, half, a, k)| == pmsg + emsg + cmsg
    && (k <= PLANES ==> emsg == 0) && (k <= EDGES_END ==> cmsg == 0)
  }

  lemma CountersStart(x: Exchange, half: Half, a: Place)
    ensures Counters(x, half, a, 0, 0, 0, 0) && Posted(x, half, a, 0) == []
  {}

  lemma CountersSkip(x: Exchange, half: Half, a: Place, k: nat, pmsg: nat, emsg: nat, cmsg: nat)
    requires k < BLOCKS && Counters(x, half, a, k, pmsg, emsg, cmsg) && !On(x, half, a, k)
    ensures Counters(x, half, a, k + 1, pmsg, emsg, cmsg) && Posted(x, half, a, k + 1) == Posted(x, half, a, k)
  {
    hide On;
  }

  lemma CountersStep(x: Exchange, half: Half, a: Place, k: nat, pmsg: nat, emsg: nat, cmsg: nat)
    requires k < BLOCKS && Counters(x, half, a, k, pmsg, emsg, cmsg) && On(x, half, a, k)
    ensures k < PLANES ==> Counters(x, half, a, k + 1, pmsg + 1, emsg, cmsg)
    ensures PLANES <= k < EDGES_END ==> Counters(x, half, a, k + 1, pmsg, emsg + 1, cmsg)
    ensures EDGES_END <= k ==> Counters(x, half, a, k + 1, pmsg, emsg, cmsg + 1)
    ensures Posted(x, half, a, k + 1) == Posted(x, half, a, k) + [PostOf(x, half, a, k)]
  {
    hide On, PostOf;
    OneMore(pmsg, x.fields * x.maxPlaneSize);
    OneMore(emsg, x.fields * x.maxEdgeSize);
  }

  /** A rank without neighbours, and an exchange of faces only, have nothing more to post. */
  lemma {:induction false} NothingMore(x: Exchange, half: Half, a: Place, k: nat, m: nat)
    requires k <= m <= BLOCKS
    requires forall j :: k <= j < m ==> !On(x, half, a, j)
    ensures Posted(x, half, a, m) == Posted(x, half, a, k) && Offset(x, half, a, m) == Offset(x, half, a, k)
  {
    hide On, PostOf;
    if k < m { NothingMore(x, half, a, k, m - 1); }
  }

  /** `CommRecv`: the receives a rank posts, in order. */
  method CommRecv(x: Exchange, a: Place) returns (posts: seq<Post>)
    requires InGrid(x.tp, a)
    ensures posts == Posted(x, Receiving, a, BLOCKS)
  {
    hide Posted, Offset, Counters, BlockAt;
    CountersStart(x, Receiving, a);
    posts := [];
    if x.tp == 1 {
      AloneIsSilent(x, Receiving, a);
      return;
    }
    var maxPlaneComm, maxEdgeComm := x.fields * x.maxPlaneSize, x.fields * x.maxEdgeSize;
    var pmsg, emsg, cmsg := 0, 0, 0;
    for k := 0 to PLANES
      invariant posts == Posted(x, Receiving, a, k) && Counters(x, Receiving, a, k, pmsg, emsg, cmsg)
    {
      if Present(x.tp, a, BlockAt(k).dir) && (BlockAt(k).underDoRecv ==> x.flag) {
        Address(x, Receiving, a, k, pmsg, emsg, cmsg);
        posts := posts + [Post(k, Peer(x, a, k), pmsg * maxPlaneComm, MessageCount(x, k))];
        CountersStep(x, Receiving, a, k, pmsg, emsg, cmsg);
        pmsg := pmsg + 1;
      } else {
        CountersSkip(x, Receiving, a, k, pmsg, emsg, cmsg);
      }
    }
    if x.planeOnly {
      NothingMore(x, Receiving, a, PLANES, BLOCKS);
      return;
    }
    for k := PLANES to EDGES_END
      invariant posts == Posted(x, Receiving, a, k) && Counters(x, Receiving, a, k, pmsg, emsg, cmsg)
    {
      if Present(x.tp, a, BlockAt(k).dir) && (BlockAt(k).underDoRecv ==> x.flag) {
        Address(x, Receiving, a, k, pmsg, emsg, cmsg);
        posts := posts + [Post(k, Peer(x, a, k), pmsg * maxPlaneComm + emsg * maxEdgeComm, MessageCount(x, k))];
        CountersStep(x, Receiving, a, k, pmsg, emsg, cmsg);
        emsg := emsg + 1;
      } else {
        CountersSkip(x, Receiving, a, k, pmsg, emsg, cmsg);
      }
    }
    for k := EDGES_END to BLOCKS
      invariant posts == Posted(x, Receiving, a, k) && Counters(x, Receiving, a, k, pmsg, emsg, cmsg)
    {
      if Present(x.tp, a, BlockAt(k).dir) && (BlockAt(k).underDoRecv ==> x.flag) {
        Address(x, Receiving, a, k, pmsg, emsg, cmsg);
        posts := posts + [Post(k, Peer(x, a, k),
                               pmsg * maxPlaneComm + emsg * maxEdgeComm + cmsg * CACHE_COHERENCE_PAD_REAL,
                               MessageCount(x, k))];
        CountersStep(x, Receiving, a, k, pmsg, emsg, cmsg);
        cmsg := cmsg + 1;
      } else {
        CountersSkip(x, Receiving, a, k, pmsg, emsg, cmsg);
      }
    }
  }

  lemma Address(x: Exchange, half: Half, a: Place, k: nat, pmsg: nat, emsg: nat, cmsg: nat)
    requires k < BLOCKS && Counters(x, half, a, k, pmsg, emsg, cmsg)
    ensures pmsg * (x.fields * x.maxPlaneSize) + emsg * (x.fields * x.maxEdgeSize) + cmsg * CACHE_COHERENCE_PAD_REAL
            == Offset(x, half, a, k)
    ensures k < PLANES ==> emsg == cmsg == 0
    ensures k < EDGES_END ==> cmsg == 0
  {}

  lemma AloneIsSilent(x: Exchange, half: Half, a: Place)
    requires x.tp == 1 && InGrid(1, a)
    ensures Posted(x, half, a, BLOCKS) == [] && Offset(x, half, a, BLOCKS) == 0
  {
    hide Posted, Offset, BlockAt, BlockOf;
    forall k | 0 <= k < BLOCKS ensures !On(x, half, a, k) { BlocksCoverNeighbours(k); }
    NothingMore(x, half, a, 0, BLOCKS);
    CountersStart(x, half, a);
    StartOffset(x, half, a);
  }

  lemma StartOffset(x: Exchange, half: Half, a: Place)
    ensures Offset(x, half, a, 0) == 0
  {}

  // ----- receives and sends correspond -----

  /** A receive has its send: the neighbour runs the opposite block, names this rank, and sends as many values. */
  lemma ReceiveHasItsSend(x: Exchange, a: Place, k: nat)
    requires InGrid(x.tp, a) && Proper(x.box) && k < BLOCKS && On(x, Receiving, a, k)
    ensures InGrid(x.tp, Step(a, DirAt(k))) && On(x, Sending, Step(a, DirAt(k)), Opposite(k))
    ensures Peer(x, a, k) == Rank(x.tp, Step(a, DirAt(k)))
    ensures Peer(x, Step(a, DirAt(k)), Opposite(k)) == Rank(x.tp, a)
    ensures MessageCount(x, Opposite(k)) == MessageCount(x, k)
  {
    hide BlockAt, BlockOf, Rank, Count;
    Boundary(x, a, k);
  }

  /** A send has its receive. */
  lemma SendHasItsReceive(x: Exchange, a: Place, k: nat)
    requires InGrid(x.tp, a) && Proper(x.box) && k < BLOCKS && On(x, Sending, a, k)
    ensures InGrid(x.tp, Step(a, DirAt(k))) && On(x, Receiving, Step(a, DirAt(k)), Opposite(k))
    ensures Peer(x, a, k) == Rank(x.tp, Step(a, DirAt(k)))
    ensures Peer(x, Step(a, DirAt(k)), Opposite(k)) == Rank(x.tp, a)
    ensures MessageCount(x, Opposite(k)) == MessageCount(x, k)
  {
    hide BlockAt, BlockOf, Rank, Count;
    Boundary(x, a, k);
    OppositeIsMutual(k);
    OppositeIsMutual(Opposite(k));
  }

  /** The two ranks at a boundary name each other. */
  lemma Boundary(x: Exchange, a: Place, k: nat)
    requires InGrid(x.tp, a) && Proper(x.box) && k < BLOCKS && Present(x.tp, a, DirAt(k))
    ensures InGrid(x.tp, Step(a, DirAt(k))) && Present(x.tp, Step(a, DirAt(k)), DirAt(Opposite(k)))
    ensures Peer(x, a, k) == Rank(x.tp, Step(a, DirAt(k)))
    ensures Peer(x, Step(a, DirAt(k)), Opposite(k)) == Rank(x.tp, a)
    ensures MessageCount(x, Opposite(k)) == MessageCount(x, k)
    ensures BlockAt(Opposite(k)).underDoSend == BlockAt(k).underDoRecv
    ensures Opposite(k) < PLANES <==> k < PLANES
    ensures Step(Step(a, DirAt(k)), DirAt(Opposite(k))) == a
  {
    hide BlockAt, DirAt, BlockOf, Opposite, Rank, Count, Step, Present, InGrid, IsDir, Neg, Proper;
    BlocksCoverNeighbours(k);
    OppositeIsMutual(k);
    var d, b := DirAt(k), Step(a, DirAt(k));
    ThereAndBack(x.tp, a, d);
    PeerIsNeighbour(x.tp, a, d);
    PeerIsNeighbour(x.tp, b, DirAt(Opposite(k)));
    SameCount(x.box, d);
  }

  lemma ThereAndBack(tp: nat, a: Place, d: Dir)
    requires InGrid(tp, a) && IsDir(d) && Present(tp, a, d)
    ensures InGrid(tp, Step(a, d)) && Present(tp, Step(a, d), Neg(d)) && Step(Step(a, d), Neg(d)) == a
  {
    hide InGrid, IsDir, Present, Step, Neg;
    Back(a, d);
    PresentIsInGrid(tp, a, d);
    PresentIsInGrid(tp, Step(a, d), Neg(d));
  }

  lemma Back(a: Place, d: Dir)
    requires IsDir(d)
    ensures Step(Step(a, d), Neg(d)) == a && IsDir(Neg(d))
  {}

  lemma SameCount(b: Box, d: Dir)
    requires Proper(b) && IsDir(d)
    ensures Count(b, Neg(d)) == Count(b, d)
  {
    MirrorHasSamePlace(b, d, Node(Lo(d.p, b.dz), Lo(d.r, b.dy), Lo(d.c, b.dx)));
  }

  /** A rank names every neighbour in one block only, so the messages between two ranks cannot be confused. */
  lemma OneBlockPerPeer(x: Exchange, a: Place, j: nat, k: nat)
    requires InGrid(x.tp, a) && j < BLOCKS && k < BLOCKS
    requires Present(x.tp, a, DirAt(j)) && Present(x.tp, a, DirAt(k)) && Peer(x, a, j) == Peer(x, a, k)
    ensures j == k
  {
    hide BlockAt, DirAt, BlockOf, Rank;
    BlocksCoverNeighbours(j);
    BlocksCoverNeighbours(k);
    PeerIsNeighbour(x.tp, a, DirAt(j));
    PeerIsNeighbour(x.tp, a, DirAt(k));
    PresentIsInGrid(x.tp, a, DirAt(j));
    PresentIsInGrid(x.tp, a, DirAt(k));
    RankIsInjective(x.tp, Step(a, DirAt(j)), Step(a, DirAt(k)));
  }

  /** Between any two ranks the receives of the one and the sends of the other are in one-to-one correspondence, for
      every size of the grid, both settings of the flag and of `planeOnly`: there is a receive exactly when there is a
      send, at most one of each, and they agree on the length. */
  lemma ReceivesMatchSends(x: Exchange, a: Place, b: Place)
    requires InGrid(x.tp, a) && InGrid(x.tp, b) && Proper(x.box)
    ensures (exists k :: 0 <= k < BLOCKS && On(x, Receiving, a, k) && Peer(x, a, k) == Rank(x.tp, b))
            <==> (exists j :: 0 <= j < BLOCKS && On(x, Sending, b, j) && Peer(x, b, j) == Rank(x.tp, a))
    ensures forall k, j :: 0 <= k < BLOCKS && 0 <= j < BLOCKS
              && On(x, Receiving, a, k) && Peer(x, a, k) == Rank(x.tp, b)
              && On(x, Sending, b, j) && Peer(x, b, j) == Rank(x.tp, a)
              ==> j == Opposite(k) && MessageCount(x, j) == MessageCount(x, k)
  {
    hide BlockAt, BlockOf, Opposite, Rank, Peer, MessageCount;
    forall k | 0 <= k < BLOCKS && On(x, Receiving, a, k) && Peer(x, a, k) == Rank(x.tp, b)
      ensures On(x, Sending, b, Opposite(k)) && Peer(x, b, Opposite(k)) == Rank(x.tp, a)
      ensures MessageCount(x, Opposite(k)) == MessageCount(x, k)
    {
      ReceiveHasItsSend(x, a, k);
      RankIsInjective(x.tp, b, Step(a, DirAt(k)));
    }
    forall j | 0 <= j < BLOCKS && On(x, Sending, b, j) && Peer(x, b, j) == Rank(x.tp, a)
      ensures On(x, Receiving, a, Opposite(j)) && Peer(x, a, Opposite(j)) == Rank(x.tp, b)
    {
      SendHasItsReceive(x, b, j);
      RankIsInjective(x.tp, a, Step(b, DirAt(j)));
    }
    forall k, j | 0 <= k < BLOCKS && 0 <= j < BLOCKS
              && On(x, Receiving, a, k) && Peer(x, a, k) == Rank(x.tp, b)
              && On(x, Sending, b, j) && Peer(x, b, j) == Rank(x.tp, a)
      ensures j == Opposite(k)
    {
      OneBlockPerPeer(x, b, j, Opposite(k));
    }
  }

  // ----- slots -----

  lemma {:induction false} OffsetsGrow(x: Exchange, half: Half, a: Place, j: nat, k: nat)
    requires j < k <= BLOCKS
    ensures Offset(x, half, a, j) + (if On(x, half, a, j) then SlotSize(x, j) else 0) <= Offset(x, half, a, k)
  {
    hide On, SlotSize;
    if j < k - 1 { OffsetsGrow(x, half, a, j, k - 1); }
  }

  /** The box of the exchange is no larger than the mesh the buffers were made for. */
  ghost predicate FitsMesh(x: Exchange, sizeX: nat, sizeY: nat, sizeZ: nat) {
    var edge := Max(sizeX, Max(sizeY, sizeZ)) + 1;
    && Proper(x.box) && x.box.dx <= edge && x.box.dy <= edge && x.box.dz <= edge
    && x.fields <= MAX_FIELDS_PER_MPI_COMM
    && x.maxPlaneSize == CacheAlignReal(edge * edge) && x.maxEdgeSize == CacheAlignReal(edge)
  }

  /** What the table of sides means for the number of values: two whole axes, one, or none. */
  lemma CountBySide(b: Box, k: nat, e: nat)
    requires k < BLOCKS && Proper(b) && b.dz <= e && b.dy <= e && b.dx <= e
    ensures Count(b, DirAt(k)) >= 1
    ensures k < PLANES ==> Count(b, DirAt(k)) <= e * e
    ensures k < EDGES_END && PLANES <= k ==> Count(b, DirAt(k)) <= e
    ensures EDGES_END <= k ==> Count(b, DirAt(k)) == 1
  {
    hide BlockAt, DirAt, BlockOf;
    BlocksCoverNeighbours(k);
    var d := DirAt(k);
    CountOfAxes(Extent(d.p, b.dz), Extent(d.r, b.dy), Extent(d.c, b.dx), d, e);
  }

  lemma CountOfAxes(nz: int, ny: int, nx: int, d: Dir, e: nat)
    requires IsDir(d) && 1 <= nz <= e && 1 <= ny <= e && 1 <= nx <= e
    requires (d.p != 0 ==> nz == 1) && (d.r != 0 ==> ny == 1) && (d.c != 0 ==> nx == 1)
    ensures 1 <= Volume(nz, ny, nx)
    ensures Axes(d) == 1 ==> Volume(nz, ny, nx) <= e * e
    ensures Axes(d) == 2 ==> Volume(nz, ny, nx) <= e
    ensures Axes(d) == 3 ==> Volume(nz, ny, nx) == 1
  {
    ProductBelow(nz, ny, e);
    ProductBelow(nz, nx, e);
    ProductBelow(ny, nx, e);
    ProductAtLeastOne(nz, ny);
    ProductAtLeastOne(nz, nx);
    ProductAtLeastOne(ny, nx);
    if d.p != 0 { assert Volume(nz, ny, nx) == ny * nx; }
    if d.r != 0 { assert Volume(nz, ny, nx) == nz * nx; }
    if d.c != 0 { assert Volume(nz, ny, nx) == nz * ny; }
  }

  lemma ProductAtLeastOne(a: int, b: int)
    requires a >= 1 && b >= 1
    ensures a * b >= 1
  {}

  /** A message fits its slot. */
  lemma MessageFitsSlot(x: Exchange, k: nat, sizeX: nat, sizeY: nat, sizeZ: nat)
    requires k < BLOCKS && FitsMesh(x, sizeX, sizeY, sizeZ)
    ensures MessageCount(x, k) <= SlotSize(x, k)
  {
    hide BlockAt, DirAt, Count, CacheAlignReal, Max;
    var e := Max(sizeX, Max(sizeY, sizeZ)) + 1;
    CountBySide(x.box, k, e);
    AlignRoundsUp(e * e);
    AlignRoundsUp(e);
    var c := Count(x.box, DirAt(k));
    if k < PLANES {
      MonotoneLeft(x.fields, c, x.maxPlaneSize);
    } else if k < EDGES_END {
      MonotoneLeft(x.fields, c, x.maxEdgeSize);
    }
  }

  lemma MonotoneLeft(f: nat, a: int, b: int)
    requires a <= b
    ensures f * a <= f * b
  {}

  /** The largest slot of a block in any exchange. */
  function WidestSlot(x: Exchange, k: nat): nat {
    if k < PLANES then x.maxPlaneSize * MAX_FIELDS_PER_MPI_COMM
    else if k < EDGES_END then x.maxEdgeSize * MAX_FIELDS_PER_MPI_COMM
    else CACHE_COHERENCE_PAD_REAL
  }

  /** The widest slots of the first `k` neighbours that are there. */
  function NeighbourSlots(x: Exchange, a: Place, k: nat): nat
    requires k <= BLOCKS
  {
    if k == 0 then 0
    else NeighbourSlots(x, a, k - 1) + if Present(x.tp, a, DirAt(k - 1)) then WidestSlot(x, k - 1) else 0
  }

  lemma SlotsStayNarrow(x: Exchange, k: nat)
    requires x.fields <= MAX_FIELDS_PER_MPI_COMM
    ensures SlotSize(x, k) <= WidestSlot(x, k)
  {
    Monotone(x.fields, MAX_FIELDS_PER_MPI_COMM, x.maxPlaneSize);
    Monotone(x.fields, MAX_FIELDS_PER_MPI_COMM, x.maxEdgeSize);
  }

  lemma {:induction false} OffsetsBelowNeighbours(x: Exchange, half: Half, a: Place, k: nat)
    requires k <= BLOCKS && x.fields <= MAX_FIELDS_PER_MPI_COMM
    ensures Offset(x, half, a, k) <= NeighbourSlots(x, a, k)
  {
    hide BlockAt, SlotSize, WidestSlot, Present;
    if k > 0 {
      OffsetsBelowNeighbours(x, half, a, k - 1);
      SlotsStayNarrow(x, k - 1);
    }
  }

  /** One neighbour more. */
  lemma NeighbourStep(x: Exchange, a: Place, k: nat)
    requires k < BLOCKS
    ensures NeighbourSlots(x, a, k + 1) ==
            NeighbourSlots(x, a, k) + Bit(Present(x.tp, a, DirAt(k))) * WidestSlot(x, k)
  {
    hide BlockAt, WidestSlot, Present;
    BitTimes(Present(x.tp, a, DirAt(k)), WidestSlot(x, k));
  }

  lemma BitTimes(c: bool, w: int)
    ensures Bit(c) * w == if c then w else 0
  {}

  lemma SixTimes(a: int, b: int, c: int, d: int, e: int, f: int, w: int)
    ensures (a + b + c + d + e + f) * w == a * w + b * w + c * w + d * w + e * w + f * w
  {}

  // The numbers of neighbours, in the order of the blocks.

  function FaceCountOf(tp: nat, a: Place): int {
    Bit(a.r != 0) + Bit(a.r != tp - 1) + Bit(a.c != 0) + Bit(a.c != tp - 1) + Bit(a.p != 0) + Bit(a.p != tp - 1)
  }

  function LowerEdgeCount(tp: nat, a: Place): int {
    Bit(a.r != 0 && a.c != 0) + Bit(a.r != 0 && a.p != 0) + Bit(a.c != 0 && a.p != 0)
    + Bit(a.r != tp - 1 && a.c != tp - 1) + Bit(a.r != tp - 1 && a.p != tp - 1) + Bit(a.c != tp - 1 && a.p != tp - 1)
  }

  function UpperEdgeCount(tp: nat, a: Place): int {
    Bit(a.r != tp - 1 && a.c != 0) + Bit(a.r != 0 && a.p != tp - 1) + Bit(a.c != 0 && a.p != tp - 1)
    + Bit(a.r != 0 && a.c != tp - 1) + Bit(a.r != tp - 1 && a.p != 0) + Bit(a.c != tp - 1 && a.p != 0)
  }

  function LowerCornerCount(tp: nat, a: Place): int {
    Bit(a.r != 0 && a.c != 0 && a.p != 0) + Bit(a.r != 0 && a.c != 0 && a.p != tp - 1)
    + Bit(a.r != 0 && a.c != tp - 1 && a.p != 0) + Bit(a.r != 0 && a.c != tp - 1 && a.p != tp - 1)
  }

  function UpperCornerCount(tp: nat, a: Place): int {
    Bit(a.r != tp - 1 && a.c != 0 && a.p != 0) + Bit(a.r != tp - 1 && a.c != 0 && a.p != tp - 1)
    + Bit(a.r != tp - 1 && a.c != tp - 1 && a.p != 0) + Bit(a.r != tp - 1 && a.c != tp - 1 && a.p != tp - 1)
  }

  // Which blocks find a neighbour.

  lemma FacesPresent(tp: nat, a: Place)
    ensures Present(tp, a, DirAt(0)) == (a.p != 0)
    ensures Present(tp, a, DirAt(1)) == (a.p != tp - 1)
    ensures Present(tp, a, DirAt(2)) == (a.r != 0)
    ensures Present(tp, a, DirAt(3)) == (a.r != tp - 1)
    ensures Present(tp, a, DirAt(4)) == (a.c != 0)
    ensures Present(tp, a, DirAt(5)) == (a.c != tp - 1)
  {}

  lemma LowerEdgesPresent(tp: nat, a: Place)
    ensures Present(tp, a, DirAt(6)) == (a.r != 0 && a.c != 0)
    ensures Present(tp, a, DirAt(7)) == (a.r != 0 && a.p != 0)
    ensures Present(tp, a, DirAt(8)) == (a.c != 0 && a.p != 0)
    ensures Present(tp, a, DirAt(9)) == (a.r != tp - 1 && a.c != tp - 1)
    ensures Present(tp, a, DirAt(10)) == (a.r != tp - 1 && a.p != tp - 1)
    ensures Present(tp, a, DirAt(11)) == (a.c != tp - 1 && a.p != tp - 1)
  {}

  lemma UpperEdgesPresent(tp: nat, a: Place)
    ensures Present(tp, a, DirAt(12)) == (a.r != tp - 1 && a.c != 0)
    ensures Present(tp, a, DirAt(13)) == (a.r != 0 && a.p != tp - 1)
    ensures Present(tp, a, DirAt(14)) == (a.c != 0 && a.p != tp - 1)
    ensures Present(tp, a, DirAt(15)) == (a.r != 0 && a.c != tp - 1)
    ensures Present(tp, a, DirAt(16)) == (a.r != tp - 1 && a.p != 0)
    ensures Present(tp, a, DirAt(17)) == (a.c != tp - 1 && a.p != 0)
  {}

  lemma LowerCornersPresent(tp: nat, a: Place)
    ensures Present(tp, a, DirAt(18)) == (a.r != 0 && a.c != 0 && a.p != 0)
    ensures Present(tp, a, DirAt(19)) == (a.r != 0 && a.c != 0 && a.p != tp - 1)
    ensures Present(tp, a, DirAt(20)) == (a.r != 0 && a.c != tp - 1 && a.p != 0)
    ensures Present(tp, a, DirAt(21)) == (a.r != 0 && a.c != tp - 1 && a.p != tp - 1)
  {}

  lemma UpperCornersPresent(tp: nat, a: Place)
    ensures Present(tp, a, DirAt(22)) == (a.r != tp - 1 && a.c != 0 && a.p != 0)
    ensures Present(tp, a, DirAt(23)) == (a.r != tp - 1 && a.c != 0 && a.p != tp - 1)
    ensures Present(tp, a, DirAt(24)) == (a.r != tp - 1 && a.c != tp - 1 && a.p != 0)
    ensures Present(tp, a, DirAt(25)) == (a.r != tp - 1 && a.c != tp - 1 && a.p != tp - 1)
  {}

  lemma FaceSlots(x: Exchange, a: Place, w: int)
    requires w == x.maxPlaneSize * MAX_FIELDS_PER_MPI_COMM
    ensures NeighbourSlots(x, a, PLANES) == FaceCountOf(x.tp, a) * w
  {
    hide NeighbourSlots, Bit, Present, DirAt;
    FacesPresent(x.tp, a);
    NeighbourStart(x, a);
    NeighbourStep(x, a, 0);
    NeighbourStep(x, a, 1);
    NeighbourStep(x, a, 2);
    NeighbourStep(x, a, 3);
    NeighbourStep(x, a, 4);
    NeighbourStep(x, a, 5);
    SixTimes(Bit(a.r != 0), Bit(a.r != x.tp - 1), Bit(a.c != 0), Bit(a.c != x.tp - 1), Bit(a.p != 0),
             Bit(a.p != x.tp - 1), w);
  }

  lemma NeighbourStart(x: Exchange, a: Place)
    ensures NeighbourSlots(x, a, 0) == 0
  {}

  lemma LowerEdgeSlots(x: Exchange, a: Place, w: int)
    requires w == x.maxEdgeSize * MAX_FIELDS_PER_MPI_COMM
    ensures NeighbourSlots(x, a, 12) == NeighbourSlots(x, a, PLANES) + LowerEdgeCount(x.tp, a) * w
  {
    hide NeighbourSlots, Bit, Present, DirAt;
    LowerEdgesPresent(x.tp, a);
    NeighbourStep(x, a, 6);
    NeighbourStep(x, a, 7);
    NeighbourStep(x, a, 8);
    NeighbourStep(x, a, 9);
    NeighbourStep(x, a, 10);
    NeighbourStep(x, a, 11);
    SixTimes(Bit(a.r != 0 && a.c != 0), Bit(a.r != 0 && a.p != 0), Bit(a.c != 0 && a.p != 0),
             Bit(a.r != x.tp - 1 && a.c != x.tp - 1), Bit(a.r != x.tp - 1 && a.p != x.tp - 1),
             Bit(a.c != x.tp - 1 && a.p != x.tp - 1), w);
  }

  lemma UpperEdgeSlots(x: Exchange, a: Place, w: int)
    requires w == x.maxEdgeSize * MAX_FIELDS_PER_MPI_COMM
    ensures NeighbourSlots(x, a, EDGES_END) == NeighbourSlots(x, a, 12) + UpperEdgeCount(x.tp, a) * w
  {
    hide NeighbourSlots, Bit, Present, DirAt;
    UpperEdgesPresent(x.tp, a);
    NeighbourStep(x, a, 12);
    NeighbourStep(x, a, 13);
    NeighbourStep(x, a, 14);
    NeighbourStep(x, a, 15);
    NeighbourStep(x, a, 16);
    NeighbourStep(x, a, 17);
    SixTimes(Bit(a.r != x.tp - 1 && a.c != 0), Bit(a.r != 0 && a.p != x.tp - 1), Bit(a.c != 0 && a.p != x.tp - 1),
             Bit(a.r != 0 && a.c != x.tp - 1), Bit(a.r != x.tp - 1 && a.p != 0), Bit(a.c != x.tp - 1 && a.p != 0), w);
  }

  lemma LowerCornerSlots(x: Exchange, a: Place)
    ensures NeighbourSlots(x, a, 22) ==
            NeighbourSlots(x, a, EDGES_END) + LowerCornerCount(x.tp, a) * CACHE_COHERENCE_PAD_REAL
  {
    hide NeighbourSlots, Bit, Present, DirAt;
    LowerCornersPresent(x.tp, a);
    NeighbourStep(x, a, 18);
    NeighbourStep(x, a, 19);
    NeighbourStep(x, a, 20);
    NeighbourStep(x, a, 21);
  }

  lemma UpperCornerSlots(x: Exchange, a: Place)
    ensures NeighbourSlots(x, a, BLOCKS) ==
            NeighbourSlots(x, a, 22) + UpperCornerCount(x.tp, a) * CACHE_COHERENCE_PAD_REAL
  {
    hide NeighbourSlots, Bit, Present, DirAt;
    UpperCornersPresent(x.tp, a);
    NeighbourStep(x, a, 22);
    NeighbourStep(x, a, 23);
    NeighbourStep(x, a, 24);
    NeighbourStep(x, a, 25);
  }

  lemma EdgeFlagsCount(tp: nat, a: Place)
    ensures EdgeFlags(Bit(a.r != 0), Bit(a.r != tp - 1), Bit(a.c != 0), Bit(a.c != tp - 1), Bit(a.p != 0),
                      Bit(a.p != tp - 1)) ==
            LowerEdgeCount(tp, a) + UpperEdgeCount(tp, a)
  {
    hide Bit, And;
    AndOfBits(a.r != 0, a.c != 0);
    AndOfBits(a.r != 0, a.c != tp - 1);
    AndOfBits(a.r != tp - 1, a.c != 0);
    AndOfBits(a.r != tp - 1, a.c != tp - 1);
    AndOfBits(a.r != 0, a.p != 0);
    AndOfBits(a.r != 0, a.p != tp - 1);
    AndOfBits(a.r != tp - 1, a.p != 0);
    AndOfBits(a.r != tp - 1, a.p != tp - 1);
    AndOfBits(a.c != 0, a.p != 0);
    AndOfBits(a.c != 0, a.p != tp - 1);
    AndOfBits(a.c != tp - 1, a.p != 0);
    AndOfBits(a.c != tp - 1, a.p != tp - 1);
  }

  lemma CornerFlagsCount(tp: nat, a: Place)
    ensures CornerFlags(Bit(a.r != 0), Bit(a.r != tp - 1), Bit(a.c != 0), Bit(a.c != tp - 1), Bit(a.p != 0),
                        Bit(a.p != tp - 1)) ==
            LowerCornerCount(tp, a) + UpperCornerCount(tp, a)
  {
    hide Bit, And;
    AndOfBits(a.r != 0, a.c != 0);
    AndOfBits(a.r != 0, a.c != tp - 1);
    AndOfBits(a.r != tp - 1, a.c != 0);
    AndOfBits(a.r != tp - 1, a.c != tp - 1);
    AndOfBits(a.r != 0 && a.c != 0, a.p != 0);
    AndOfBits(a.r != 0 && a.c != 0, a.p != tp - 1);
    AndOfBits(a.r != 0 && a.c != tp - 1, a.p != 0);
    AndOfBits(a.r != 0 && a.c != tp - 1, a.p != tp - 1);
    AndOfBits(a.r != tp - 1 && a.c != 0, a.p != 0);
    AndOfBits(a.r != tp - 1 && a.c != 0, a.p != tp - 1);
    AndOfBits(a.r != tp - 1 && a.c != tp - 1, a.p != 0);
    AndOfBits(a.r != tp - 1 && a.c != tp - 1, a.p != tp - 1);
  }

  /** The size the code adds up from its flags. */
  lemma SizeByCounts(tp: nat, a: Place, sizeX: nat, sizeY: nat, sizeZ: nat)
    ensures var s := SetupCommBuffers(tp, a, sizeX, sizeY, sizeZ);
            s.comBufSize == FaceCountOf(tp, a) * s.maxPlaneSize * MAX_FIELDS_PER_MPI_COMM
                            + (LowerEdgeCount(tp, a) + UpperEdgeCount(tp, a)) * s.maxEdgeSize * MAX_FIELDS_PER_MPI_COMM
                            + (LowerCornerCount(tp, a) + UpperCornerCount(tp, a)) * CACHE_COHERENCE_PAD_REAL
  {
    hide CacheAlignReal, Max, Bit, EdgeFlags, CornerFlags, LowerEdgeCount, UpperEdgeCount, LowerCornerCount,
         UpperCornerCount;
    EdgeFlagsCount(tp, a);
    CornerFlagsCount(tp, a);
  }

  lemma AndOfBits(c: bool, d: bool)
    ensures And(Bit(c), Bit(d)) == Bit(c && d)
  {}

  lemma TimesInTurn(n: int, w: int, m: int)
    ensures n * w * m == n * (w * m)
  {}

  /** The buffers have room for the widest slot of every neighbour, and not one more. */
  lemma BuffersHoldNeighbours(x: Exchange, a: Place, sizeX: nat, sizeY: nat, sizeZ: nat)
    requires FitsMesh(x, sizeX, sizeY, sizeZ)
    ensures SetupCommBuffers(x.tp, a, sizeX, sizeY, sizeZ).comBufSize == NeighbourSlots(x, a, BLOCKS)
  {
    hide NeighbourSlots, SetupCommBuffers, FaceCountOf, LowerEdgeCount, UpperEdgeCount, LowerCornerCount,
         UpperCornerCount, CacheAlignReal, Max;
    var plane, edge := x.maxPlaneSize * MAX_FIELDS_PER_MPI_COMM, x.maxEdgeSize * MAX_FIELDS_PER_MPI_COMM;
    var lower, upper := LowerEdgeCount(x.tp, a), UpperEdgeCount(x.tp, a);
    SizeByCounts(x.tp, a, sizeX, sizeY, sizeZ);
    SizesAligned(x.tp, a, sizeX, sizeY, sizeZ);
    FaceSlots(x, a, plane);
    LowerEdgeSlots(x, a, edge);
    UpperEdgeSlots(x, a, edge);
    LowerCornerSlots(x, a);
    UpperCornerSlots(x, a);
    TimesInTurn(FaceCountOf(x.tp, a), x.maxPlaneSize, MAX_FIELDS_PER_MPI_COMM);
    TimesInTurn(lower + upper, x.maxEdgeSize, MAX_FIELDS_PER_MPI_COMM);
    SixTimes(lower, upper, 0, 0, 0, 0, edge);
  }

  lemma SizesAligned(tp: nat, a: Place, sizeX: nat, sizeY: nat, sizeZ: nat)
    ensures var s, e := SetupCommBuffers(tp, a, sizeX, sizeY, sizeZ), Max(sizeX, Max(sizeY, sizeZ)) + 1;
            s.maxPlaneSize == CacheAlignReal(e * e) && s.maxEdgeSize == CacheAlignReal(e)
  {
    hide CacheAlignReal, Max;
  }

  /** In every exchange of at most six fields a message that is posted lies in the buffer. */
  lemma MessageInBuffer(x: Exchange, half: Half, a: Place, k: nat, sizeX: nat, sizeY: nat, sizeZ: nat)
    requires k < BLOCKS && FitsMesh(x, sizeX, sizeY, sizeZ) && On(x, half, a, k)
    ensures 0 < x.fields ==> 0 < MessageCount(x, k)
    ensures Offset(x, half, a, k) + MessageCount(x, k) <= SetupCommBuffers(x.tp, a, sizeX, sizeY, sizeZ).comBufSize
  {
    hide Offset, On, Count, SlotSize, NeighbourSlots, SetupCommBuffers, DirAt, BlockAt;
    CountBySide(x.box, k, x.box.dz + x.box.dy + x.box.dx);
    if 0 < x.fields { ProductAtLeastOne(x.fields, Count(x.box, DirAt(k))); }
    MessageFitsSlot(x, k, sizeX, sizeY, sizeZ);
    OffsetsGrow(x, half, a, k, BLOCKS);
    OffsetsBelowNeighbours(x, half, a, BLOCKS);
    BuffersHoldNeighbours(x, a, sizeX, sizeY, sizeZ);
  }

  /** No two messages of a rank overlap, and both lie in the buffer. */
  lemma MessagesAreApart(x: Exchange, half: Half, a: Place, j: nat, k: nat, sizeX: nat, sizeY: nat, sizeZ: nat)
    requires j < BLOCKS && k < BLOCKS && j != k && FitsMesh(x, sizeX, sizeY, sizeZ)
    requires On(x, half, a, j) && On(x, half, a, k)
    ensures Offset(x, half, a, k) + MessageCount(x, k) <= SetupCommBuffers(x.tp, a, sizeX, sizeY, sizeZ).comBufSize
    ensures Offset(x, half, a, j) + MessageCount(x, j) <= Offset(x, half, a, k)
            || Offset(x, half, a, k) + MessageCount(x, k) <= Offset(x, half, a, j)
  {
    hide Offset, On, MessageCount, SlotSize, SetupCommBuffers;
    MessageInBuffer(x, half, a, k, sizeX, sizeY, sizeZ);
    MessageFitsSlot(x, j, sizeX, sizeY, sizeZ);
    MessageFitsSlot(x, k, sizeX, sizeY, sizeZ);
    if j < k { OffsetsGrow(x, half, a, j, k); } else { OffsetsGrow(x, half, a, k, j); }
  }
}
