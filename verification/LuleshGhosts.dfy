/**
  Ghost elements in LULESH. Every element knows its six neighbours through index tables; at the sides of a rank's box
  the tables point into ghost values that `CommMonoQ` copies from the neighbouring ranks, and boundary marks say where
  the mesh ends. The look-ups of `CalcMonotonicQRegionForElems` then find the true neighbour in the mesh of all ranks.
 */
module LuleshGhosts {
  import opened Division
  import opened LuleshGrid
  import opened LuleshMessages
  import opened LuleshHalo

  /** The elements of a rank. */
  function Cube(e: nat): Box { Box(e, e, e) }

  /** What the three bits of a face can say about an element. */
  datatype Mark = Symm | Free | Comm

  /** Faces are numbered like the first six blocks: zeta, eta and xi, each minus before plus. */
  function MarkBit(f: nat, m: Mark): bv32
    requires f < PLANES
  {
    if f == 0 then (if m.Symm? then 0x01000 else if m.Free? then 0x02000 else 0x04000)
    else if f == 1 then (if m.Symm? then 0x08000 else if m.Free? then 0x10000 else 0x20000)
    else if f == 2 then (if m.Symm? then 0x00040 else if m.Free? then 0x00080 else 0x00100)
    else if f == 3 then (if m.Symm? then 0x00200 else if m.Free? then 0x00400 else 0x00800)
    else if f == 4 then (if m.Symm? then 0x00001 else if m.Free? then 0x00002 else 0x00004)
    else (if m.Symm? then 0x00008 else if m.Free? then 0x00010 else 0x00020)
  }

  function FaceMask(f: nat): bv32
    requires f < PLANES
  {
    if f == 0 then 0x07000 else if f == 1 then 0x38000 else if f == 2 then 0x001c0
    else if f == 3 then 0x00e00 else if f == 4 then 0x00007 else 0x00038
  }

  lemma MaskedOr(flags: bv32, bit: bv32, mask: bv32)
    ensures (flags | bit) & mask == (flags & mask) | (bit & mask)
    ensures flags | 0 == flags
  {}

  lemma BitsOfFaces(f: nat, m: Mark, g: nat)
    requires f < PLANES && g < PLANES
    ensures MarkBit(f, m) & FaceMask(g) == if f == g then MarkBit(f, m) else 0
    ensures MarkBit(f, m) != 0
  {
    match m
    case Symm =>
    case Free =>
    case Comm =>
  }

  /** Every face has three bits of its own: masking the flags of an element with the mask of a face leaves the marks of
      that face, whatever is added for the other faces. So the marks of each face can be kept as a set. */
  lemma FaceBitsAreSeparate(f: nat, m: Mark, g: nat, flags: bv32)
    requires f < PLANES && g < PLANES
    ensures (flags | MarkBit(f, m)) & FaceMask(g) ==
            if f == g then (flags & FaceMask(g)) | MarkBit(f, m) else flags & FaceMask(g)
  {
    hide MarkBit, FaceMask;
    MaskedOr(flags, MarkBit(f, m), FaceMask(g));
    MaskedOr(flags & FaceMask(g), 0, 0);
    BitsOfFaces(f, m, g);
  }

  // ----- links inside a box -----

  function Stride(e: nat, f: nat): nat {
    if f < 2 then e * e else if f < 4 then e else 1
  }

  /** A link before the boundary is set up: one stride down or up, or the element itself at the end of the array. */
  function BaseLink(e: nat, f: nat, i: int): int {
    if f % 2 == 0 then (if i < Stride(e, f) then i else i - Stride(e, f))
    else if i >= BoxSize(Cube(e)) - Stride(e, f) then i else i + Stride(e, f)
  }

  ghost predicate Linked(e: nat, links: array2<int>, faces: set<nat>)
    reads links
  {
    links.Length0 == PLANES && links.Length1 == BoxSize(Cube(e)) &&
    forall f, i :: f in faces && 0 <= f < PLANES && 0 <= i < links.Length1 ==> links[f, i] == BaseLink(e, f, i)
  }

  method Connect(e: nat, links: array2<int>, stride: nat, minus: nat, ghost faces: set<nat>)
    requires minus % 2 == 0 && minus < PLANES && stride == Stride(e, minus) && 0 < stride <= links.Length1
    requires minus !in faces && minus + 1 !in faces && Linked(e, links, faces)
    modifies links
    ensures Linked(e, links, faces + {minus, minus + 1})
  {
    var numElem, plus := links.Length1, minus + 1;
    for i := 0 to stride
      invariant Linked(e, links, faces)
      invariant forall k :: 0 <= k < i ==> links[minus, k] == k
      invariant forall k :: numElem - stride <= k < numElem - stride + i ==> links[plus, k] == k
    {
      links[minus, i] := i;
      links[plus, numElem - stride + i] := numElem - stride + i;
    }
    for i := stride to numElem
      invariant Linked(e, links, faces)
      invariant forall k :: 0 <= k < stride ==> links[minus, k] == k
      invariant forall k :: numElem - stride <= k < numElem ==> links[plus, k] == k
      invariant forall k :: stride <= k < i ==> links[minus, k] == k - stride
      invariant forall k :: 0 <= k < i - stride ==> links[plus, k] == k + stride
    {
      links[minus, i] := i - stride;
      links[plus, i - stride] := i;
    }
  }

  lemma StridesFit(e: nat)
    requires e > 0
    ensures 0 < e * e <= BoxSize(Cube(e)) && e <= BoxSize(Cube(e))
  {
    Monotone(1, e, e);
    Monotone(1, e, e * e);
  }

  /** `SetupElementConnectivities`. */
  method SetupElementConnectivities(e: nat, links: array2<int>)
    requires e > 0 && links.Length0 == PLANES && links.Length1 == BoxSize(Cube(e))
    modifies links
    ensures Linked(e, links, {0, 1, 2, 3, 4, 5})
  {
    hide BaseLink, BoxSize;
    StridesFit(e);
    Connect(e, links, 1, 4, {});
    Connect(e, links, e, 2, {4, 5});
    Connect(e, links, e * e, 0, {4, 5, 2, 3});
    assert {4, 5, 2, 3} + {0, 1} == {0, 1, 2, 3, 4, 5};
  }

  /** The element one step away. */
  function Toward(n: Node, d: Dir): Node { Node(n.z + d.p, n.y + d.r, n.x + d.c) }

  lemma StepInIndex(e: nat, f: nat, n: Node)
    requires f < PLANES
    ensures Index(Cube(e), Toward(n, DirAt(f))) ==
            Index(Cube(e), n) + if f % 2 == 0 then -(Stride(e, f) as int) else Stride(e, f) as int
  {
    assert (n.z + 1) * e * e == n.z * e * e + e * e && (n.z - 1) * e * e == n.z * e * e - e * e;
    assert (n.y + 1) * e == n.y * e + e && (n.y - 1) * e == n.y * e - e;
  }

  /** Away from the sides the links lead to the neighbour in the box. */
  lemma BaseLinkIsNeighbour(e: nat, f: nat, n: Node)
    requires f < PLANES && Inside(Cube(e), n) && !OnSide(Cube(e), DirAt(f), n)
    ensures Inside(Cube(e), Toward(n, DirAt(f)))
    ensures BaseLink(e, f, Index(Cube(e), n)) == Index(Cube(e), Toward(n, DirAt(f)))
  {
    hide Index, Stride;
    var m := Toward(n, DirAt(f));
    StepInIndex(e, f, n);
    IndexInRange(Cube(e), n);
    IndexInRange(Cube(e), m);
  }

  /** A link leads back to its element exactly in the first slab below, or in the last slab above. */
  lemma BaseLinkAtEnds(e: nat, f: nat, i: nat)
    requires e > 0 && i < BoxSize(Cube(e))
    ensures BaseLink(e, f, i) == i <==> if f % 2 == 0 then i < Stride(e, f) else BoxSize(Cube(e)) - Stride(e, f) <= i
  {
    hide BoxSize;
    StridesFit(e);
  }

  // ----- the boundary of a box -----

  /** Where the ghost values of a face begin: behind the elements and the ghosts of the faces before it. */
  function GhostStart(tp: nat, a: Place, e: nat, f: nat): nat
    requires f <= PLANES
  {
    if f == 0 then NumElem(e)
    else GhostStart(tp, a, e, f - 1) + if Present(tp, a, DirAt(f - 1)) then e * e else 0
  }

  function NumElem(e: nat): (n: nat)
    ensures n == BoxSize(Cube(e))
  {
    e * e * e
  }

  /** The element at row `i` and column `j` of a face. */
  function FaceNode(e: nat, f: nat, i: int, j: int): Node {
    if f == 0 then Node(0, i, j) else if f == 1 then Node(e - 1, i, j)
    else if f == 2 then Node(i, 0, j) else if f == 3 then Node(i, e - 1, j)
    else if f == 4 then Node(i, j, 0) else Node(i, j, e - 1)
  }

  function FaceRow(f: nat, n: Node): int { if f < 2 then n.y else n.z }

  function FaceCol(f: nat, n: Node): int { if f < 4 then n.x else n.y }

  /** The element index the code computes for it. */
  function ElementAt(e: nat, f: nat, i: int, j: int): int {
    var planeInc, rowInc := i * e * e, i * e;
    if f == 0 then rowInc + j
    else if f == 1 then rowInc + j + e * e * e - e * e
    else if f == 2 then planeInc + j
    else if f == 3 then planeInc + j + e * e - e
    else if f == 4 then planeInc + j * e
    else planeInc + j * e + e - 1
  }

  lemma ElementOfFace(e: nat, f: nat, i: int, j: int)
    requires f < PLANES && 0 <= i < e && 0 <= j < e
    ensures Inside(Cube(e), FaceNode(e, f, i, j)) && OnSide(Cube(e), DirAt(f), FaceNode(e, f, i, j))
    ensures FaceRow(f, FaceNode(e, f, i, j)) == i && FaceCol(f, FaceNode(e, f, i, j)) == j
    ensures Index(Cube(e), FaceNode(e, f, i, j)) == ElementAt(e, f, i, j)
    ensures Pos(Cube(e), DirAt(f), FaceNode(e, f, i, j)) == i * e + j
  {
    hide Index, Pos;
    PlaneFacesMatchPlaces(Cube(e), i, j);
    RowFacesMatchPlaces(Cube(e), i, j);
    ColumnFacesMatchPlaces(Cube(e), i, j);
    ProductsMatch(e, i, j, Cube(e));
  }

  lemma ProductsMatch(e: nat, i: int, j: int, b: Box)
    requires b == Cube(e)
    ensures Index(b, Node(0, i, j)) == ElementAt(e, 0, i, j) && Index(b, Node(e - 1, i, j)) == ElementAt(e, 1, i, j)
    ensures Index(b, Node(i, 0, j)) == ElementAt(e, 2, i, j) && Index(b, Node(i, e - 1, j)) == ElementAt(e, 3, i, j)
    ensures Index(b, Node(i, j, 0)) == ElementAt(e, 4, i, j) && Index(b, Node(i, j, e - 1)) == ElementAt(e, 5, i, j)
  {
    assert (e - 1) * e == e * e - e && (e - 1) * e * e == e * e * e - e * e;
  }

  lemma FaceOfElement(e: nat, f: nat, n: Node)
    requires f < PLANES && Inside(Cube(e), n)
    ensures 0 <= FaceRow(f, n) < e && 0 <= FaceCol(f, n) < e
    ensures OnSide(Cube(e), DirAt(f), n) <==> n == FaceNode(e, f, FaceRow(f, n), FaceCol(f, n))
  {}

  /** What is marked at a face: communication when a rank lies behind it, else symmetry below and free surface above. */
  function MarkOf(tp: nat, a: Place, f: nat): Mark
    requires f < PLANES
  {
    if Present(tp, a, DirAt(f)) then Comm else if f % 2 == 0 then Symm else Free
  }

  /** The finished marks of an element. */
  function MarksOf(tp: nat, a: Place, e: nat, f: nat, n: Node): set<Mark>
    requires f < PLANES
  {
    if OnSide(Cube(e), DirAt(f), n) then {MarkOf(tp, a, f)} else {}
  }

  /** The finished link of an element. */
  function LinkOf(tp: nat, a: Place, e: nat, f: nat, n: Node): int
    requires f < PLANES
  {
    if OnSide(Cube(e), DirAt(f), n) && Present(tp, a, DirAt(f))
    then GhostStart(tp, a, e, f) + Pos(Cube(e), DirAt(f), n)
    else BaseLink(e, f, Index(Cube(e), n))
  }

  /** The loops have done a face of an element when they are past its row, column and face. */
  predicate Done(f: nat, n: Node, i: int, j: int, g: int) {
    FaceRow(f, n) < i || (FaceRow(f, n) == i && (FaceCol(f, n) < j || (FaceCol(f, n) == j && f < g)))
  }

  ghost predicate BoundaryUpTo(tp: nat, a: Place, e: nat, links: array2<int>, elemBC: array2<set<Mark>>, i: int,
                               j: int, g: int)
    reads links, elemBC
  {
    && links.Length0 == elemBC.Length0 == PLANES && links.Length1 == elemBC.Length1 == BoxSize(Cube(e))
    && IndexesFit(Cube(e))
    && (forall f, n :: 0 <= f < PLANES && Inside(Cube(e), n) ==>
         links[f, Index(Cube(e), n)] ==
         if Done(f, n, i, j, g) then LinkOf(tp, a, e, f, n) else BaseLink(e, f, Index(Cube(e), n)))
    && (forall f, n :: 0 <= f < PLANES && Inside(Cube(e), n) ==>
         elemBC[f, Index(Cube(e), n)] == if Done(f, n, i, j, g) then MarksOf(tp, a, e, f, n) else {})
  }

  /** One of the six parts of the loop body. */
  method MarkFace(tp: nat, a: Place, e: nat, ghostIdx: seq<int>, links: array2<int>, elemBC: array2<set<Mark>>,
                  f: nat, i: nat, j: nat)
    requires f < PLANES && i < e && j < e && BoundaryUpTo(tp, a, e, links, elemBC, i, j, f)
    requires |ghostIdx| == PLANES && (Present(tp, a, DirAt(f)) ==> ghostIdx[f] == GhostStart(tp, a, e, f))
    modifies links, elemBC
    ensures BoundaryUpTo(tp, a, e, links, elemBC, i, j, f + 1)
  {
    hide Index, Pos, BoxSize, GhostStart, BaseLink, OnSide, DirAt, Present, IndexesFit, FaceNode, FaceRow, FaceCol,
         ElementAt;
    ElementOfFace(e, f, i, j);
    ghost var n := FaceNode(e, f, i, j);
    ghost var b := Cube(e);
    AtMostOnce(e, f, i, j, n);
    FitsAt(b, n);
    var element := ElementAt(e, f, i, j);
    if !Present(tp, a, DirAt(f)) {
      elemBC[f, element] := elemBC[f, element] + {if f % 2 == 0 then Symm else Free};
    } else {
      elemBC[f, element] := elemBC[f, element] + {Comm};
      links[f, element] := ghostIdx[f] + i * e + j;
    }
  }

  lemma FitsAt(b: Box, n: Node)
    requires IndexesFit(b) && Inside(b, n)
    ensures 0 <= Index(b, n) < BoxSize(b)
  {
    hide Index, BoxSize;
  }

  /** No other element shares the index, and on this face none shares the row and column. */
  lemma AtMostOnce(e: nat, f: nat, i: int, j: int, n: Node)
    requires f < PLANES && 0 <= i < e && 0 <= j < e && n == FaceNode(e, f, i, j)
    ensures Inside(Cube(e), n)
    ensures forall m :: Inside(Cube(e), m) && Index(Cube(e), m) == Index(Cube(e), n) ==> m == n
    ensures forall m ::
              Inside(Cube(e), m) && OnSide(Cube(e), DirAt(f), m) && FaceRow(f, m) == i && FaceCol(f, m) == j ==> m == n
  {
    hide Index;
    forall m | Inside(Cube(e), m) && Index(Cube(e), m) == Index(Cube(e), n) ensures m == n {
      IndexIsInjective(Cube(e), m, n);
    }
  }

  /** The finished tables. */
  ghost predicate BoundarySet(tp: nat, a: Place, e: nat, links: array2<int>, elemBC: array2<set<Mark>>)
    reads links, elemBC
  {
    && links.Length0 == elemBC.Length0 == PLANES && links.Length1 == elemBC.Length1 == BoxSize(Cube(e))
    && IndexesFit(Cube(e))
    && forall f, n :: 0 <= f < PLANES && Inside(Cube(e), n) ==>
         && links[f, Index(Cube(e), n)] == LinkOf(tp, a, e, f, n)
         && elemBC[f, Index(Cube(e), n)] == MarksOf(tp, a, e, f, n)
  }

  lemma BoundaryStarts(tp: nat, a: Place, e: nat, links: array2<int>, elemBC: array2<set<Mark>>)
    requires Linked(e, links, {0, 1, 2, 3, 4, 5})
    requires elemBC.Length0 == PLANES && elemBC.Length1 == BoxSize(Cube(e))
    requires forall f, i :: 0 <= f < PLANES && 0 <= i < elemBC.Length1 ==> elemBC[f, i] == {}
    ensures BoundaryUpTo(tp, a, e, links, elemBC, 0, 0, 0)
  {
    hide Index, BoxSize, BaseLink, LinkOf, MarksOf, Cube;
    AllIndexesFit(Cube(e));
    forall f, n | 0 <= f < PLANES && Inside(Cube(e), n) ensures !Done(f, n, 0, 0, 0) { RowsStart(e, f, n); }
  }

  lemma RowsStart(e: nat, f: nat, n: Node)
    requires f < PLANES && Inside(Cube(e), n)
    ensures !Done(f, n, 0, 0, 0)
  {}

  lemma BoundaryTurn(tp: nat, a: Place, e: nat, links: array2<int>, elemBC: array2<set<Mark>>, i: nat, j: nat)
    requires BoundaryUpTo(tp, a, e, links, elemBC, i, j, PLANES)
    ensures BoundaryUpTo(tp, a, e, links, elemBC, i, j + 1, 0)
  {
    hide Index, BoxSize, BaseLink, LinkOf, MarksOf, FaceRow, FaceCol, IndexesFit;
  }

  lemma BoundaryRowEnds(tp: nat, a: Place, e: nat, links: array2<int>, elemBC: array2<set<Mark>>, i: nat)
    requires BoundaryUpTo(tp, a, e, links, elemBC, i, e, 0)
    ensures BoundaryUpTo(tp, a, e, links, elemBC, i + 1, 0, 0)
  {
    hide Index, BoxSize, BaseLink, LinkOf, MarksOf, FaceRow, FaceCol, IndexesFit, DirAt;
    forall f, n | 0 <= f < PLANES && Inside(Cube(e), n) ensures Done(f, n, i, e, 0) == Done(f, n, i + 1, 0, 0) {
      FaceOfElement(e, f, n);
    }
  }

  lemma BoundaryEnds(tp: nat, a: Place, e: nat, links: array2<int>, elemBC: array2<set<Mark>>)
    requires BoundaryUpTo(tp, a, e, links, elemBC, e, 0, 0)
    ensures BoundarySet(tp, a, e, links, elemBC)
  {
    hide Index, BoxSize, BaseLink, LinkOf, MarksOf, FaceRow, FaceCol, IndexesFit, DirAt;
    forall f, n | 0 <= f < PLANES && Inside(Cube(e), n) ensures Done(f, n, e, 0, 0) {
      FaceOfElement(e, f, n);
    }
  }

  const INT_MIN := -0x8000_0000

  /** The offsets of the ghost values, in the order of the faces. */
  method GhostOffsets(tp: nat, a: Place, e: nat) returns (ghostIdx: seq<int>)
    ensures |ghostIdx| == PLANES
    ensures forall f :: 0 <= f < PLANES ==>
              ghostIdx[f] == if Present(tp, a, DirAt(f)) then GhostStart(tp, a, e, f) else INT_MIN
  {
    hide DirAt, BlockAt, Present;
    ghostIdx := [];
    var pidx := e * e * e;
    for f := 0 to PLANES
      invariant |ghostIdx| == f && pidx == GhostStart(tp, a, e, f)
      invariant forall g :: 0 <= g < f ==>
                ghostIdx[g] == if Present(tp, a, DirAt(g)) then GhostStart(tp, a, e, g) else INT_MIN
    {
      if Present(tp, a, DirAt(f)) {
        ghostIdx := ghostIdx + [pidx];
        pidx := pidx + e * e;
      } else {
        ghostIdx := ghostIdx + [INT_MIN];
      }
    }
  }

  /** `SetupBoundaryConditions`. */
  method SetupBoundaryConditions(tp: nat, a: Place, e: nat, links: array2<int>, elemBC: array2<set<Mark>>)
    requires Linked(e, links, {0, 1, 2, 3, 4, 5})
    requires elemBC.Length0 == PLANES && elemBC.Length1 == BoxSize(Cube(e))
    modifies links, elemBC
    ensures BoundarySet(tp, a, e, links, elemBC)
  {
    hide BoundaryUpTo, BoundarySet, DirAt, Present, GhostStart, Linked;
    forall f, i | 0 <= f < PLANES && 0 <= i < elemBC.Length1 { elemBC[f, i] := {}; }
    var ghostIdx := GhostOffsets(tp, a, e);
    BoundaryStarts(tp, a, e, links, elemBC);
    for i := 0 to e
      invariant BoundaryUpTo(tp, a, e, links, elemBC, i, 0, 0)
    {
      for j := 0 to e
        invariant BoundaryUpTo(tp, a, e, links, elemBC, i, j, 0)
      {
        for f := 0 to PLANES
          invariant BoundaryUpTo(tp, a, e, links, elemBC, i, j, f)
        {
          MarkFace(tp, a, e, ghostIdx, links, elemBC, f, i, j);
        }
        BoundaryTurn(tp, a, e, links, elemBC, i, j);
      }
      BoundaryRowEnds(tp, a, e, links, elemBC, i);
    }
    BoundaryEnds(tp, a, e, links, elemBC);
  }

  // ----- copying the ghost values -----

  /** The exchange of `CalcQForElems`: the faces of the element boxes. */
  ghost predicate MonoQ(x: Exchange, e: nat) {
    e > 0 && x.box == Cube(e) && x.flag && x.planeOnly && FitsMesh(x, e, e, e)
  }

  lemma FaceCount(e: nat, f: nat)
    requires f < PLANES && e > 0
    ensures Count(Cube(e), DirAt(f)) == e * e
  {}

  function ValueAt(got: seq<real>, i: int): real { if 0 <= i < |got| then got[i] else 0.0 }

  /** Each field has its part of a message in the ghost values from `start`; everything else is as it was. */
  ghost predicate Copied(v: seq<seq<real>>, after: seq<seq<real>>, start: nat, count: nat, got: seq<real>, at: nat) {
    && |after| == |v|
    && (forall fi :: 0 <= fi < |v| ==> |after[fi]| == |v[fi]|)
    && (forall fi, i :: 0 <= fi < |v| && 0 <= i < |v[fi]| ==>
         after[fi][i] == if start <= i < start + count then ValueAt(got, at + fi * count + (i - start)) else v[fi][i])
  }

  /** One block of `CommMonoQ`. */
  method CopyFace(fields: array2<real>, start: nat, count: nat, got: seq<real>, at: nat)
    requires start + count <= fields.Length1 && at + fields.Length0 * count <= |got|
    modifies fields
    ensures Copied(old(Contents(fields)), Contents(fields), start, count, got, at)
  {
    for fi := 0 to fields.Length0
      invariant forall gi, k :: 0 <= gi < fields.Length0 && 0 <= k < fields.Length1 ==>
                  fields[gi, k] == if start <= k < start + count && gi < fi
                                   then ValueAt(got, at + gi * count + (k - start)) else old(fields[gi, k])
    {
      PartFits(fi, fields.Length0, count);
      for i := 0 to count
        invariant forall gi, k :: 0 <= gi < fields.Length0 && 0 <= k < fields.Length1 ==>
                    fields[gi, k] == if start <= k < start + count && (gi < fi || (gi == fi && k < start + i))
                                     then ValueAt(got, at + gi * count + (k - start)) else old(fields[gi, k])
      {
        fields[fi, start + i] := got[at + fi * count + i];
      }
    }
  }

  lemma PartFits(fi: nat, n: nat, count: nat)
    requires fi < n
    ensures 0 <= fi * count && fi * count + count <= n * count
  {
    Monotone(fi + 1, n, count);
    OneMore(fi, count);
  }

  lemma {:induction false} GhostsFit(tp: nat, a: Place, e: nat, f: nat)
    requires f <= PLANES
    ensures BoxSize(Cube(e)) <= GhostStart(tp, a, e, f) <= BoxSize(Cube(e)) + f * (e * e)
  {
    hide BoxSize, DirAt, Present;
    if f > 0 {
      GhostsFit(tp, a, e, f - 1);
      OneMore(f - 1, e * e);
    }
  }

  lemma {:induction false} GhostsAreApart(tp: nat, a: Place, e: nat, g: nat, f: nat)
    requires g < f <= PLANES && Present(tp, a, DirAt(g))
    ensures GhostStart(tp, a, e, g) + e * e <= GhostStart(tp, a, e, f)
  {
    hide BoxSize, DirAt, Present;
    if g < f - 1 { GhostsAreApart(tp, a, e, g, f - 1); }
  }

  /** The ghost values of a face hold what its message brought for the elements of that side. */
  ghost predicate FaceHeld(x: Exchange, a: Place, e: nat, after: seq<seq<real>>, got: seq<real>, f: nat)
    requires f < PLANES
  {
    forall fi, n :: 0 <= fi < |after| && AtSide(x, f, n) ==> HeldFor(x, a, e, after, got, f, fi, n)
  }

  ghost predicate HeldFor(x: Exchange, a: Place, e: nat, after: seq<seq<real>>, got: seq<real>, f: nat, fi: nat,
                          n: Node)
    requires f < PLANES && fi < |after|
  {
    && 0 <= GhostStart(x.tp, a, e, f) + Pos(x.box, DirAt(f), n) < |after[fi]|
    && after[fi][GhostStart(x.tp, a, e, f) + Pos(x.box, DirAt(f), n)] ==
       Arrived(x, f, got, Offset(x, Receiving, a, f), fi, n)
  }

  /** The length of a velocity gradient: the elements, and room for the ghosts of six faces. */
  function AllElem(e: nat): nat { e * e * e + 2 * (e * e) + 2 * (e * e) + 2 * (e * e) }

  /** The messages of the faces before `f` are in their places, and the rank's own values have not changed. */
  ghost predicate GhostsUpTo(x: Exchange, a: Place, e: nat, v: seq<seq<real>>, after: seq<seq<real>>, got: seq<real>,
                             f: nat)
    requires f <= PLANES
  {
    && |after| == |v| == x.fields
    && (forall fi :: 0 <= fi < x.fields ==> |after[fi]| == |v[fi]| == AllElem(e))
    && (forall fi, i :: 0 <= fi < x.fields && 0 <= i < BoxSize(Cube(e)) && i < |v[fi]| && i < |after[fi]| ==>
         after[fi][i] == v[fi][i])
    && (forall g :: 0 <= g < f && On(x, Receiving, a, g) ==> FaceHeld(x, a, e, after, got, g))
  }

  lemma FaceEntry(x: Exchange, e: nat, f: nat, fi: int, n: Node)
    requires MonoQ(x, e) && f < PLANES && AtSide(x, f, n)
    ensures Entry(x, f, fi, n) == fi * (e * e) + Pos(x.box, DirAt(f), n)
    ensures 0 <= Pos(x.box, DirAt(f), n) < e * e
  {
    hide DirAt, Pos, Count;
    FaceCount(e, f);
    PosInRange(x.box, DirAt(f), n);
  }

  lemma HeldAt(x: Exchange, a: Place, e: nat, v: seq<seq<real>>, after: seq<seq<real>>, got: seq<real>, f: nat,
               fi: nat, n: Node)
    requires MonoQ(x, e) && f < PLANES && fi < |v| && |v[fi]| == AllElem(e) && AtSide(x, f, n)
    requires Copied(v, after, GhostStart(x.tp, a, e, f), e * e, got, Offset(x, Receiving, a, f))
    ensures fi < |after| && HeldFor(x, a, e, after, got, f, fi, n)
  {
    hide DirAt, Pos, Count, GhostStart, Offset, AtSide, Entry, BoxSize, MonoQ, Copied, AllElem;
    GhostsFit(x.tp, a, e, f);
    RoomForGhosts(e, f);
    FaceEntry(x, e, f, fi, n);
    CopiedValue(v, after, GhostStart(x.tp, a, e, f), e * e, got, Offset(x, Receiving, a, f), fi,
                Pos(x.box, DirAt(f), n));
  }

  lemma CopiedIsHeld(x: Exchange, a: Place, e: nat, v: seq<seq<real>>, after: seq<seq<real>>, got: seq<real>, f: nat)
    requires MonoQ(x, e) && f < PLANES && |v| == x.fields && forall fi :: 0 <= fi < x.fields ==> |v[fi]| == AllElem(e)
    requires Copied(v, after, GhostStart(x.tp, a, e, f), e * e, got, Offset(x, Receiving, a, f))
    ensures FaceHeld(x, a, e, after, got, f)
  {
    hide HeldFor, GhostStart, Offset, AtSide, MonoQ, AllElem;
    forall fi, n | 0 <= fi < |after| && AtSide(x, f, n) ensures HeldFor(x, a, e, after, got, f, fi, n) {
      HeldAt(x, a, e, v, after, got, f, fi, n);
    }
  }

  lemma CopiedValue(v: seq<seq<real>>, after: seq<seq<real>>, start: nat, count: nat, got: seq<real>, at: nat, fi: nat,
                    i: nat)
    requires Copied(v, after, start, count, got, at) && fi < |v| && i < count && start + i < |v[fi]|
    ensures fi < |after| && start + i < |after[fi]| && after[fi][start + i] == ValueAt(got, at + (fi * count + i))
  {
    var k := start + i;
    assert after[fi][k] == ValueAt(got, at + fi * count + (k - start));
  }

  lemma RoomForGhosts(e: nat, f: nat)
    requires f < PLANES
    ensures BoxSize(Cube(e)) + f * (e * e) + e * e <= AllElem(e)
  {
    Monotone(f + 1, PLANES, e * e);
    OneMore(f, e * e);
  }

  lemma CopiedKeeps(v: seq<seq<real>>, after: seq<seq<real>>, start: nat, count: nat, got: seq<real>, at: nat, fi: nat,
                    i: nat)
    requires Copied(v, after, start, count, got, at) && fi < |v| && i < |v[fi]| && i < start
    ensures fi < |after| && i < |after[fi]| && after[fi][i] == v[fi][i]
  {}

  lemma HeldStaysAt(x: Exchange, a: Place, e: nat, mid: seq<seq<real>>, after: seq<seq<real>>, got: seq<real>,
                    g: nat, f: nat, fi: nat, n: Node)
    requires MonoQ(x, e) && g < f < PLANES && On(x, Receiving, a, g) && fi < |mid| && AtSide(x, g, n)
    requires HeldFor(x, a, e, mid, got, g, fi, n)
    requires Copied(mid, after, GhostStart(x.tp, a, e, f), e * e, got, Offset(x, Receiving, a, f))
    ensures fi < |after| && HeldFor(x, a, e, after, got, g, fi, n)
  {
    hide Pos, Count, GhostStart, Offset, AtSide, Entry, BoxSize, MonoQ, Present, Arrived, BlockAt, Copied;
    GhostsAreApart(x.tp, a, e, g, f);
    FaceEntry(x, e, g, fi, n);
    CopiedKeeps(mid, after, GhostStart(x.tp, a, e, f), e * e, got, Offset(x, Receiving, a, f), fi,
                GhostStart(x.tp, a, e, g) + Pos(x.box, DirAt(g), n));
  }

  lemma HeldStays(x: Exchange, a: Place, e: nat, mid: seq<seq<real>>, after: seq<seq<real>>, got: seq<real>, g: nat,
                  f: nat)
    requires MonoQ(x, e) && g < f < PLANES && On(x, Receiving, a, g) && FaceHeld(x, a, e, mid, got, g)
    requires Copied(mid, after, GhostStart(x.tp, a, e, f), e * e, got, Offset(x, Receiving, a, f)) && |after| == |mid|
    ensures FaceHeld(x, a, e, after, got, g)
  {
    hide HeldFor, GhostStart, Offset, AtSide, MonoQ, On, Copied;
    forall fi, n | 0 <= fi < |after| && AtSide(x, g, n) ensures HeldFor(x, a, e, after, got, g, fi, n) {
      HeldStaysAt(x, a, e, mid, after, got, g, f, fi, n);
    }
  }

  lemma GhostsStep(x: Exchange, a: Place, e: nat, v: seq<seq<real>>, mid: seq<seq<real>>, after: seq<seq<real>>,
                   got: seq<real>, f: nat)
    requires MonoQ(x, e) && f < PLANES && GhostsUpTo(x, a, e, v, mid, got, f)
    requires Copied(mid, after, GhostStart(x.tp, a, e, f), e * e, got, Offset(x, Receiving, a, f))
    ensures GhostsUpTo(x, a, e, v, after, got, f + 1)
  {
    hide GhostStart, Offset, BoxSize, MonoQ, FaceHeld, On, AllElem;
    CopiedIsHeld(x, a, e, mid, after, got, f);
    GhostsFit(x.tp, a, e, f);
    forall g | 0 <= g < f && On(x, Receiving, a, g) ensures FaceHeld(x, a, e, after, got, g) {
      HeldStays(x, a, e, mid, after, got, g, f);
    }
  }

  lemma GhostsSkip(x: Exchange, a: Place, e: nat, v: seq<seq<real>>, after: seq<seq<real>>, got: seq<real>, f: nat)
    requires f < PLANES && GhostsUpTo(x, a, e, v, after, got, f) && !On(x, Receiving, a, f)
    ensures GhostsUpTo(x, a, e, v, after, got, f + 1)
  {
    hide BoxSize, FaceHeld, On, AllElem;
  }

  lemma GhostsBegin(x: Exchange, a: Place, e: nat, v: seq<seq<real>>, got: seq<real>)
    requires |v| == x.fields && forall fi :: 0 <= fi < x.fields ==> |v[fi]| == AllElem(e)
    ensures GhostsUpTo(x, a, e, v, v, got, 0)
  {}

  lemma {:induction false} GhostsAlone(x: Exchange, a: Place, e: nat, v: seq<seq<real>>, got: seq<real>, f: nat)
    requires |v| == x.fields && forall fi :: 0 <= fi < x.fields ==> |v[fi]| == AllElem(e)
    requires f <= PLANES && x.tp == 1 && InGrid(1, a)
    ensures GhostsUpTo(x, a, e, v, v, got, f)
  {
    hide GhostsUpTo, BlockAt, BlockOf, AllElem;
    if f == 0 {
      GhostsBegin(x, a, e, v, got);
    } else {
      GhostsAlone(x, a, e, v, got, f - 1);
      BlocksCoverNeighbours(f - 1);
      GhostsSkip(x, a, e, v, v, got, f - 1);
    }
  }

  /** What one block needs to know. */
  lemma FaceFits(x: Exchange, a: Place, e: nat, f: nat, sizes: (nat, nat, nat), bufferSize: int)
    requires MonoQ(x, e) && f < PLANES && Ready(x, a, sizes, bufferSize) && On(x, Receiving, a, f)
    ensures Offset(x, Receiving, a, f) + x.fields * (e * e) <= bufferSize
    ensures GhostStart(x.tp, a, e, f) + e * e <= AllElem(e)
    ensures GhostStart(x.tp, a, e, f + 1) == GhostStart(x.tp, a, e, f) + e * e
  {
    hide Offset, BlockAt, Count, Ready, BoxSize;
    RoomForBlock(x, Receiving, a, f, sizes, bufferSize);
    FaceCount(e, f);
    GhostsFit(x.tp, a, e, f);
    RoomForGhosts(e, f);
  }

  lemma NoGhosts(x: Exchange, a: Place, e: nat, f: nat)
    requires f < PLANES && !Present(x.tp, a, DirAt(f))
    ensures GhostStart(x.tp, a, e, f + 1) == GhostStart(x.tp, a, e, f)
  {}

  /** `CommMonoQ`: behind the rank's own values each face's ghosts hold what its message brought. */
  method CommMonoQ(x: Exchange, a: Place, e: nat, fields: array2<real>, got: seq<real>, ghost sizes: (nat, nat, nat))
    requires MonoQ(x, e) && Ready(x, a, sizes, |got|) && fields.Length0 == x.fields && fields.Length1 == AllElem(e)
    modifies fields
    ensures GhostsUpTo(x, a, e, old(Contents(fields)), Contents(fields), got, PLANES)
  {
    hide GhostsUpTo, GhostStart, Offset, Counters, BlockAt, Contents, MonoQ, Ready, AllElem, Copied;
    ghost var v := Contents(fields);
    ContentsSize(fields);
    if x.tp == 1 {
      InGridOf(x, a, sizes, |got|);
      GhostsAlone(x, a, e, v, got, PLANES);
      return;
    }
    CountersStart(x, Receiving, a);
    GhostsBegin(x, a, e, v, got);
    GhostsStart(x.tp, a, e);
    var maxPlaneComm := x.fields * x.maxPlaneSize;
    var pmsg := 0;
    var fieldOffset := e * e * e;
    for f := 0 to PLANES
      invariant Counters(x, Receiving, a, f, pmsg, 0, 0) && fieldOffset == GhostStart(x.tp, a, e, f)
      invariant GhostsUpTo(x, a, e, v, Contents(fields), got, f)
    {
      if Present(x.tp, a, BlockAt(f).dir) {
        InMonoQ(x, a, e, f);
        FaceFits(x, a, e, f, sizes, |got|);
        Address(x, Receiving, a, f, pmsg, 0, 0);
        ghost var mid := Contents(fields);
        CopyFace(fields, fieldOffset, e * e, got, pmsg * maxPlaneComm);
        GhostsStep(x, a, e, v, mid, Contents(fields), got, f);
        CountersStep(x, Receiving, a, f, pmsg, 0, 0);
        fieldOffset := fieldOffset + e * e;
        pmsg := pmsg + 1;
      } else {
        NoGhosts(x, a, e, f);
        CountersSkip(x, Receiving, a, f, pmsg, 0, 0);
        GhostsSkip(x, a, e, v, Contents(fields), got, f);
      }
    }
  }

  lemma ContentsSize(fields: array2<real>)
    ensures |Contents(fields)| == fields.Length0
    ensures forall fi :: 0 <= fi < fields.Length0 ==> |Contents(fields)[fi]| == fields.Length1
  {}

  lemma InGridOf(x: Exchange, a: Place, sizes: (nat, nat, nat), bufferSize: int)
    requires Ready(x, a, sizes, bufferSize)
    ensures InGrid(x.tp, a)
  {}

  lemma GhostsStart(tp: nat, a: Place, e: nat)
    ensures GhostStart(tp, a, e, 0) == e * e * e
  {}

  lemma InMonoQ(x: Exchange, a: Place, e: nat, f: nat)
    requires MonoQ(x, e) && f < PLANES && Present(x.tp, a, BlockAt(f).dir)
    ensures On(x, Receiving, a, f)
  {}

  // ----- looking up the neighbours -----

  datatype LookUp = Found(value: real) | BadMask

  /** One switch of `CalcMonotonicQRegionForElems`: the value behind the link, the element's own, or zero. */
  function LookUpNeighbour(delv: seq<real>, marks: set<Mark>, link: int, own: int): LookUp
    requires 0 <= own < |delv| && (marks == {} || marks == {Comm} ==> 0 <= link < |delv|)
  {
    if marks == {} || marks == {Comm} then Found(delv[link])
    else if marks == {Symm} then Found(delv[own])
    else if marks == {Free} then Found(0.0)
    else BadMask
  }

  /** The place of a rank's element in the mesh of all ranks. */
  function MeshPlace(e: nat, a: Place, n: Node): Node {
    Node(a.p * e + n.z, a.r * e + n.y, a.c * e + n.x)
  }

  predicate InMesh(tp: nat, e: nat, g: Node) {
    0 <= g.z < tp * e && 0 <= g.y < tp * e && 0 <= g.x < tp * e
  }

  /** The rank that holds an element of the mesh, and the element there. */
  function Holder(e: nat, g: Node): Place
    requires e > 0
  {
    Place(g.z / e, g.y / e, g.x / e)
  }

  function Within(e: nat, g: Node): Node
    requires e > 0
  {
    Node(g.z % e, g.y % e, g.x % e)
  }

  lemma OnAxis(a: int, e: int, v: int, tp: int)
    requires 0 <= v < e
    ensures (a * e + v) / e == a && (a * e + v) % e == v
    ensures 0 <= a < tp ==> 0 <= a * e + v < tp * e
    ensures a < 0 ==> a * e + v < 0
    ensures a >= tp ==> a * e + v >= tp * e
  {
    RestIsUnique(a * e + v, e, a, v);
    if 0 <= a { Monotone(0, a, e); }
    if a < tp { Monotone(a + 1, tp, e); OneMore(a, e); } else { Monotone(tp, a, e); }
    if a < 0 { Monotone(a + 1, 0, e); OneMore(a, e); }
  }

  /** Every element of the mesh is held once. */
  lemma HolderIsUnique(tp: nat, e: nat, a: Place, n: Node)
    requires Inside(Cube(e), n)
    ensures InMesh(tp, e, MeshPlace(e, a, n)) <==> InGrid(tp, a)
    ensures Holder(e, MeshPlace(e, a, n)) == a && Within(e, MeshPlace(e, a, n)) == n
  {
    OnAxis(a.p, e, n.z, tp);
    OnAxis(a.r, e, n.y, tp);
    OnAxis(a.c, e, n.x, tp);
  }

  /** The value of the mesh at an element. */
  ghost function MeshValue(x: Exchange, e: nat, w: World, fi: nat, g: Node): real
    requires MonoQ(x, e) && WorldSized(x, w) && fi < x.fields && InMesh(x.tp, e, g)
  {
    HeldByOne(x.tp, e, g);
    IndexInRange(Cube(e), Within(e, g));
    w(Holder(e, g))[fi][Index(Cube(e), Within(e, g))]
  }

  lemma HeldByOne(tp: nat, e: nat, g: Node)
    requires e > 0 && InMesh(tp, e, g)
    ensures InGrid(tp, Holder(e, g)) && Inside(Cube(e), Within(e, g))
    ensures MeshPlace(e, Holder(e, g), Within(e, g)) == g
  {
    hide Index, BoxSize;
    HeldOnAxis(g.z, e, tp);
    HeldOnAxis(g.y, e, tp);
    HeldOnAxis(g.x, e, tp);
  }

  lemma HeldOnAxis(v: int, e: nat, tp: nat)
    requires e > 0 && 0 <= v < tp * e
    ensures 0 <= v / e < tp && 0 <= v % e < e && v / e * e + v % e == v
  {
    QuotientBelow(v, e, tp);
  }

  /** The neighbour of an element at a side: the mirror element of the next rank. */
  lemma TowardIsMirror(e: nat, f: nat, a: Place, n: Node)
    requires f < PLANES && Inside(Cube(e), n) && OnSide(Cube(e), DirAt(f), n)
    ensures Inside(Cube(e), Mirror(Cube(e), DirAt(f), n))
    ensures Toward(MeshPlace(e, a, n), DirAt(f)) == MeshPlace(e, Step(a, DirAt(f)), Mirror(Cube(e), DirAt(f), n))
  {
    OneMore(a.p, e);
    OneMore(a.p - 1, e);
    OneMore(a.r, e);
    OneMore(a.r - 1, e);
    OneMore(a.c, e);
    OneMore(a.c - 1, e);
  }

  lemma TowardInside(e: nat, f: nat, a: Place, n: Node)
    requires f < PLANES
    ensures Toward(MeshPlace(e, a, n), DirAt(f)) == MeshPlace(e, a, Toward(n, DirAt(f)))
  {
    hide DirAt;
  }

  /** Away from the sides the neighbour is in the same box. */
  lemma LookUpInside(x: Exchange, e: nat, w: World, after: seq<seq<real>>, got: seq<real>, a: Place, f: nat, fi: nat,
                     n: Node)
    requires MonoQ(x, e) && WorldSized(x, w) && InGrid(x.tp, a) && f < PLANES && fi < x.fields && Inside(Cube(e), n)
    requires GhostsUpTo(x, a, e, w(a), after, got, PLANES) && !OnSide(Cube(e), DirAt(f), n)
    ensures InMesh(x.tp, e, Toward(MeshPlace(e, a, n), DirAt(f)))
    ensures MarksOf(x.tp, a, e, f, n) == {} && fi < |after| && 0 <= LinkOf(x.tp, a, e, f, n) < |after[fi]|
    ensures after[fi][LinkOf(x.tp, a, e, f, n)] == MeshValue(x, e, w, fi, Toward(MeshPlace(e, a, n), DirAt(f)))
  {
    hide DirAt, Index, BoxSize, BaseLink, FaceHeld, Holder, Within, MeshPlace, Toward, InMesh, OnSide, AllElem,
         IndexesFit;
    var m := Toward(n, DirAt(f));
    BaseLinkIsNeighbour(e, f, n);
    TowardInside(e, f, a, n);
    HolderIsUnique(x.tp, e, a, m);
    AllIndexesFit(Cube(e));
    FitsAt(Cube(e), m);
    ElementsFit(e);
  }

  lemma ElementsFit(e: nat)
    ensures BoxSize(Cube(e)) <= AllElem(e)
  {
    Monotone(0, e, e);
  }

  /** At a side with a rank behind it the link leads to the ghost value that rank sent. */
  lemma LookUpGhost(x: Exchange, e: nat, w: World, sent: Place -> seq<real>, got: Place -> seq<real>,
                    after: seq<seq<real>>, a: Place, f: nat, fi: nat, n: Node)
    requires MonoQ(x, e) && WorldSized(x, w) && Carried(x, w, sent, got)
    requires InGrid(x.tp, a) && f < PLANES && fi < x.fields && Inside(Cube(e), n)
    requires GhostsUpTo(x, a, e, w(a), after, got(a), PLANES)
    requires OnSide(Cube(e), DirAt(f), n) && Present(x.tp, a, DirAt(f))
    ensures InMesh(x.tp, e, Toward(MeshPlace(e, a, n), DirAt(f)))
    ensures MarksOf(x.tp, a, e, f, n) == {Comm} && fi < |after| && 0 <= LinkOf(x.tp, a, e, f, n) < |after[fi]|
    ensures after[fi][LinkOf(x.tp, a, e, f, n)] == MeshValue(x, e, w, fi, Toward(MeshPlace(e, a, n), DirAt(f)))
  {
    hide DirAt, Index, BoxSize, GhostStart, Pos, Holder, Within, MeshPlace, Toward, InMesh, OnSide, Offset, Arrived,
         Carried, Present, Mirror, AllElem, Step, BlockAt, BlockOf, WorldSized, Sized;
    var d, m := DirAt(f), Mirror(Cube(e), DirAt(f), n);
    BlocksCoverNeighbours(f);
    PresentIsInGrid(x.tp, a, d);
    RunsFace(x, e, a, f);
    TowardIsMirror(e, f, a, n);
    HolderIsUnique(x.tp, e, Step(a, d), m);
    MessageBringsMirror(x, w, sent, got, a, f, fi, n);
    HeldValue(x, a, e, w(a), after, got(a), f, fi, n);
  }

  lemma RunsFace(x: Exchange, e: nat, a: Place, f: nat)
    requires MonoQ(x, e) && f < PLANES && Present(x.tp, a, DirAt(f))
    ensures On(x, Receiving, a, f)
  {}

  lemma HeldValue(x: Exchange, a: Place, e: nat, v: seq<seq<real>>, after: seq<seq<real>>, got: seq<real>,
                  f: nat, fi: nat, n: Node)
    requires MonoQ(x, e) && f < PLANES && fi < x.fields && AtSide(x, f, n) && On(x, Receiving, a, f)
    requires GhostsUpTo(x, a, e, v, after, got, PLANES)
    ensures fi < |after| && 0 <= GhostStart(x.tp, a, e, f) + Pos(Cube(e), DirAt(f), n) < |after[fi]|
    ensures after[fi][GhostStart(x.tp, a, e, f) + Pos(Cube(e), DirAt(f), n)] ==
            Arrived(x, f, got, Offset(x, Receiving, a, f), fi, n)
  {
    hide DirAt, GhostStart, Pos, AtSide, Offset, Arrived, On, AllElem, BoxSize;
    assert FaceHeld(x, a, e, after, got, f);
    assert HeldFor(x, a, e, after, got, f, fi, n);
  }

  /** At a side with no rank behind it the mesh ends, and the element is marked so. */
  lemma LookUpBoundary(x: Exchange, e: nat, a: Place, f: nat, n: Node)
    requires InGrid(x.tp, a) && f < PLANES && Inside(Cube(e), n)
    requires OnSide(Cube(e), DirAt(f), n) && !Present(x.tp, a, DirAt(f))
    ensures !InMesh(x.tp, e, Toward(MeshPlace(e, a, n), DirAt(f)))
    ensures MarksOf(x.tp, a, e, f, n) == {if f % 2 == 0 then Symm else Free}
  {
    hide DirAt, MeshPlace, Toward, InMesh, OnSide, Present, Mirror, Step, BlockAt, BlockOf;
    BlocksCoverNeighbours(f);
    PresentIsInGrid(x.tp, a, DirAt(f));
    TowardIsMirror(e, f, a, n);
    HolderIsUnique(x.tp, e, Step(a, DirAt(f)), Mirror(Cube(e), DirAt(f), n));
  }

  /** For every element of every rank and each of its six faces, the look-up through the tables after `CommMonoQ` yields
      the value at the true neighbour in the mesh of all ranks; symmetry and free surface are marked exactly where the
      mesh ends, and there the look-up yields the element's own value below and zero above. */
  lemma LookUpFindsNeighbour(x: Exchange, e: nat, w: World, sent: Place -> seq<real>, got: Place -> seq<real>,
                             after: World, a: Place, f: nat, fi: nat, n: Node)
    requires MonoQ(x, e) && WorldSized(x, w) && Carried(x, w, sent, got)
    requires InGrid(x.tp, a) && f < PLANES && fi < x.fields && Inside(Cube(e), n)
    requires GhostsUpTo(x, a, e, w(a), after(a), got(a), PLANES)
    ensures var marks, link, own := MarksOf(x.tp, a, e, f, n), LinkOf(x.tp, a, e, f, n), Index(Cube(e), n);
            var g := Toward(MeshPlace(e, a, n), DirAt(f));
            && fi < |after(a)| && 0 <= own < |after(a)[fi]| && fi < |w(a)| && own < |w(a)[fi]|
            && (marks == {} || marks == {Comm} ==> 0 <= link < |after(a)[fi]|)
            && (InMesh(x.tp, e, g) ==>
                 LookUpNeighbour(after(a)[fi], marks, link, own) == Found(MeshValue(x, e, w, fi, g)))
            && (!InMesh(x.tp, e, g) <==> marks == {if f % 2 == 0 then Symm else Free})
            && (!InMesh(x.tp, e, g) ==>
                 LookUpNeighbour(after(a)[fi], marks, link, own) == Found(if f % 2 == 0 then w(a)[fi][own] else 0.0))
  {
    hide DirAt, Index, LinkOf, MarksOf, MeshValue, InMesh, Toward, MeshPlace, OnSide, Present, FaceHeld, AllElem,
         BoxSize, Carried, IndexesFit;
    AllIndexesFit(Cube(e));
    FitsAt(Cube(e), n);
    ElementsFit(e);
    if !OnSide(Cube(e), DirAt(f), n) {
      LookUpInside(x, e, w, after(a), got(a), a, f, fi, n);
    } else if Present(x.tp, a, DirAt(f)) {
      LookUpGhost(x, e, w, sent, got, after(a), a, f, fi, n);
    } else {
      LookUpBoundary(x, e, a, f, n);
    }
  }
}
