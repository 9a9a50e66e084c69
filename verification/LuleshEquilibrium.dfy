/**
  Stress in equilibrium: on the mesh that `BuildMesh` lists, a node inside a region of equal stress gets no force from
  `IntegrateStressForElems`, wherever the nodes of the mesh lie. Every face at the node belongs to two elements, which
  walk it in opposite directions.
 */
module LuleshEquilibrium {
  import opened LuleshGrid
  import opened LuleshCorners
  import opened LuleshMesh
  import opened LuleshForces

  /** A coordinate, node by node. */
  type Field = Node -> real

  // ----- faces -----

  function QuadArea(u: Field, v: Field, a: Node, b: Node, c: Node, d: Node): real {
    Area(u(a), v(a), u(b), v(b), u(c), v(c), u(d), v(d))
  }

  /** Walking a face the other way changes the sign of its area. */
  lemma WalkedBack(u: Field, v: Field, a: Node, b: Node, c: Node, d: Node)
    ensures QuadArea(u, v, a, d, c, b) == -QuadArea(u, v, a, b, c, d)
    ensures QuadArea(u, v, d, c, b, a) == -QuadArea(u, v, a, b, c, d)
  {
    hide Area, Edge;
    AreaByEdges(u(a), v(a), u(b), v(b), u(c), v(c), u(d), v(d));
    AreaByEdges(u(a), v(a), u(d), v(d), u(c), v(c), u(b), v(b));
    AreaByEdges(u(d), v(d), u(c), v(c), u(b), v(b), u(a), v(a));
    EdgeBack(u(a), v(a), u(b), v(b));
    EdgeBack(u(b), v(b), u(c), v(c));
    EdgeBack(u(c), v(c), u(d), v(d));
    EdgeBack(u(d), v(d), u(a), v(a));
  }

  /** The three faces through the lowest node of a cube, as the cube walks them. */
  function PlaneFace(u: Field, v: Field, n: Node): real {
    QuadArea(u, v, CornerNode(n, 0), CornerNode(n, 1), CornerNode(n, 2), CornerNode(n, 3))
  }

  function RowFace(u: Field, v: Field, n: Node): real {
    QuadArea(u, v, CornerNode(n, 0), CornerNode(n, 4), CornerNode(n, 5), CornerNode(n, 1))
  }

  function ColumnFace(u: Field, v: Field, n: Node): real {
    QuadArea(u, v, CornerNode(n, 3), CornerNode(n, 7), CornerNode(n, 4), CornerNode(n, 0))
  }

  function AtCorners(u: Field, n: Node): (local: seq<real>)
    ensures |local| == 8
  {
    seq(8, j requires 0 <= j < 8 => u(CornerNode(n, j)))
  }

  /** The three other faces of a cube are those of the next cubes, walked back. */
  lemma FacesOfCube(u: Field, v: Field, n: Node)
    ensures var l, m := AtCorners(u, n), AtCorners(v, n);
            && FaceArea(l, m, 0, 1, 2, 3) == PlaneFace(u, v, n)
            && FaceArea(l, m, 0, 4, 5, 1) == RowFace(u, v, n)
            && FaceArea(l, m, 3, 7, 4, 0) == ColumnFace(u, v, n)
            && FaceArea(l, m, 4, 7, 6, 5) == -PlaneFace(u, v, Node(n.z + 1, n.y, n.x))
            && FaceArea(l, m, 2, 6, 7, 3) == -RowFace(u, v, Node(n.z, n.y + 1, n.x))
            && FaceArea(l, m, 1, 5, 6, 2) == -ColumnFace(u, v, Node(n.z, n.y, n.x + 1))
  {
    hide Area;
    WalkedBack(u, v, CornerNode(n, 4), CornerNode(n, 5), CornerNode(n, 6), CornerNode(n, 7));
    WalkedBack(u, v, CornerNode(n, 3), CornerNode(n, 7), CornerNode(n, 6), CornerNode(n, 2));
    WalkedBack(u, v, CornerNode(n, 2), CornerNode(n, 6), CornerNode(n, 5), CornerNode(n, 1));
  }

  /** The lowest node of the cube that has `g` at its corner `j`. */
  function CubeAt(g: Node, j: nat): Node {
    if j == 0 then g
    else if j == 1 then Node(g.z, g.y, g.x - 1)
    else if j == 2 then Node(g.z, g.y - 1, g.x - 1)
    else if j == 3 then Node(g.z, g.y - 1, g.x)
    else if j == 4 then Node(g.z - 1, g.y, g.x)
    else if j == 5 then Node(g.z - 1, g.y, g.x - 1)
    else if j == 6 then Node(g.z - 1, g.y - 1, g.x - 1)
    else Node(g.z - 1, g.y - 1, g.x)
  }

  lemma CubeAtCorner(g: Node, n: Node, j: nat)
    requires j < 8
    ensures CornerNode(n, j) == g <==> n == CubeAt(g, j)
  {}

  /** The areas that the cube at corner `j` of a node has there. */
  function AreaAround(u: Field, v: Field, g: Node, j: nat): real
    requires j < 8
  {
    CornerArea(AtCorners(u, CubeAt(g, j)), AtCorners(v, CubeAt(g, j)), j)
  }

  /** The 24 faces of the eight cubes around a node cancel in pairs. */
  lemma FacesAroundNode(u: Field, v: Field, g: Node)
    ensures AreaAround(u, v, g, 0) + AreaAround(u, v, g, 1) + AreaAround(u, v, g, 2) + AreaAround(u, v, g, 3)
            + AreaAround(u, v, g, 4) + AreaAround(u, v, g, 5) + AreaAround(u, v, g, 6) + AreaAround(u, v, g, 7) == 0.0
  {
    hide FaceArea, PlaneFace, RowFace, ColumnFace, AtCorners;
    FacesOfCube(u, v, CubeAt(g, 0));
    FacesOfCube(u, v, CubeAt(g, 1));
    FacesOfCube(u, v, CubeAt(g, 2));
    FacesOfCube(u, v, CubeAt(g, 3));
    FacesOfCube(u, v, CubeAt(g, 4));
    FacesOfCube(u, v, CubeAt(g, 5));
    FacesOfCube(u, v, CubeAt(g, 6));
    FacesOfCube(u, v, CubeAt(g, 7));
  }

  // ----- the corners at a node of the mesh -----

  function ElemCount(e: nat): nat { e * e * e }

  function NodeCount(e: nat): nat { (e + 1) * (e + 1) * (e + 1) }

  ghost predicate IsBuilt(e: nat, nodelist: seq<nat>) {
    && LuleshCorners.Mesh(nodelist, ElemCount(e), NodeCount(e))
    && forall n :: Inside(Elements(e), n) ==> CubeListed(e, nodelist, n)
  }

  /** A node that is not on the surface of the mesh. */
  predicate Interior(e: nat, g: Node) {
    0 < g.z < e && 0 < g.y < e && 0 < g.x < e
  }

  function CornerAt(e: nat, g: Node, j: nat): int {
    8 * Index(Elements(e), CubeAt(g, j)) + j
  }

  /** The corners at an interior node: those of the eight cubes around it. */
  lemma CornersAround(e: nat, nodelist: seq<nat>, g: Node, c: nat)
    requires IsBuilt(e, nodelist) && Interior(e, g)
    ensures c < |nodelist| && nodelist[c] == Index(Nodes(e), g) <==> exists j: nat :: j < 8 && c == CornerAt(e, g, j)
  {
    hide Index, CornerNode, CubeAt;
    if c < |nodelist| && nodelist[c] == Index(Nodes(e), g) {
      var n := ElementOf(e, c / 8);
      var j := c % 8;
      assert CubeListed(e, nodelist, n);
      assert nodelist[8 * Index(Elements(e), n) + j] == Index(Nodes(e), CornerNode(n, j));
      CornerInside(e, n, j);
      IndexIsInjective(Nodes(e), CornerNode(n, j), g);
      CubeAtCorner(g, n, j);
      assert c == CornerAt(e, g, j);
    }
    forall j: nat | j < 8 && c == CornerAt(e, g, j)
      ensures c < |nodelist| && nodelist[c] == Index(Nodes(e), g)
    {
      CubeIsInside(e, g, j);
      CubeAtCorner(g, CubeAt(g, j), j);
      assert CubeListed(e, nodelist, CubeAt(g, j));
    }
  }

  lemma CubeIsInside(e: nat, g: Node, j: nat)
    requires Interior(e, g) && j < 8
    ensures Inside(Elements(e), CubeAt(g, j)) && 0 <= Index(Elements(e), CubeAt(g, j)) < ElemCount(e)
  {
    hide Index;
    IndexInRange(Elements(e), CubeAt(g, j));
  }

  /** In increasing order. */
  function Around(e: nat, g: Node): (ks: seq<int>)
    ensures |ks| == 8
  {
    [CornerAt(e, g, 6), CornerAt(e, g, 7), CornerAt(e, g, 5), CornerAt(e, g, 4),
     CornerAt(e, g, 2), CornerAt(e, g, 3), CornerAt(e, g, 1), CornerAt(e, g, 0)]
  }

  ghost predicate Increasing(ks: seq<int>) {
    forall i, j :: 0 <= i < j < |ks| ==> ks[i] < ks[j]
  }

  lemma AroundIncreases(e: nat, g: Node)
    requires Interior(e, g)
    ensures Increasing(Around(e, g))
  {
    hide Index;
    CubesInOrder(e, g, 6, 7);
    CubesInOrder(e, g, 7, 5);
    CubesInOrder(e, g, 5, 4);
    CubesInOrder(e, g, 4, 2);
    CubesInOrder(e, g, 2, 3);
    CubesInOrder(e, g, 3, 1);
    CubesInOrder(e, g, 1, 0);
  }

  lemma CubesInOrder(e: nat, g: Node, i: nat, j: nat)
    requires Interior(e, g) && i < 8 && j < 8 && Before(CubeAt(g, i), CubeAt(g, j))
    ensures CornerAt(e, g, i) < CornerAt(e, g, j)
  {
    hide Index;
    CubeIsInside(e, g, i);
    CubeIsInside(e, g, j);
    IndexOrder(e, CubeAt(g, i), CubeAt(g, j));
  }

  lemma FrontOfIncreasing(a: seq<int>, k: int)
    requires Increasing(a) && a != []
    ensures Increasing(a[..|a| - 1]) && (k in a ==> k <= a[|a| - 1])
    ensures k in a[..|a| - 1] <==> k in a && k != a[|a| - 1]
  {
    assert a == a[..|a| - 1] + [a[|a| - 1]];
  }

  lemma BothEmpty(a: seq<int>, b: seq<int>)
    requires forall k :: k in a <==> k in b
    ensures a == [] <==> b == []
  {
    if a != [] {
      var h := a[0];
      assert h in a && h in b;
    }
    if b != [] {
      var h := b[0];
      assert h in b && h in a;
    }
  }

  /** Two increasing lists of the same numbers are the same. */
  lemma {:induction false} SameIncreasing(a: seq<int>, b: seq<int>)
    requires Increasing(a) && Increasing(b) && forall k :: k in a <==> k in b
    ensures a == b
    decreases |a|
  {
    hide Increasing;
    BothEmpty(a, b);
    if a != [] {
      var la, lb := a[|a| - 1], b[|b| - 1];
      var a', b' := a[..|a| - 1], b[..|b| - 1];
      assert la in a && lb in b;
      FrontOfIncreasing(a, lb);
      FrontOfIncreasing(b, la);
      assert la == lb;
      forall k ensures k in a' <==> k in b' {
        FrontOfIncreasing(a, k);
        FrontOfIncreasing(b, k);
      }
      SameIncreasing(a', b');
      assert a == a' + [la] && b == b' + [lb];
    }
  }

  lemma CornersOfInterior(e: nat, nodelist: seq<nat>, g: Node)
    requires IsBuilt(e, nodelist) && Interior(e, g) && 0 <= Index(Nodes(e), g)
    ensures CornersOf(nodelist, Index(Nodes(e), g)) == Around(e, g)
  {
    hide Index, CornersOf, CornerAt, IsBuilt;
    var m: nat := Index(Nodes(e), g);
    CornersOfIsExact(nodelist, m);
    AroundIncreases(e, g);
    forall k: int ensures k in CornersOf(nodelist, m) <==> k in Around(e, g) {
      if k in CornersOf(nodelist, m) {
        CornersAround(e, nodelist, g, k);
      }
      if k in Around(e, g) {
        var j: nat :| j < 8 && k == CornerAt(e, g, j);
        CubeIsInside(e, g, j);
        CornerIsNat(e, g, j);
        CornersAround(e, nodelist, g, k);
      }
    }
    SameIncreasing(CornersOf(nodelist, m), Around(e, g));
  }

  lemma CornerIsNat(e: nat, g: Node, j: nat)
    requires 0 <= Index(Elements(e), CubeAt(g, j))
    requires j < 8
    ensures 0 <= CornerAt(e, g, j) < 8 * Index(Elements(e), CubeAt(g, j)) + 8
    ensures CornerAt(e, g, j) == 8 * Index(Elements(e), CubeAt(g, j)) + j
    ensures CornerAt(e, g, j) / 8 == Index(Elements(e), CubeAt(g, j)) && CornerAt(e, g, j) % 8 == j
  {
    hide Index;
  }

  // ----- forces -----

  /** The coordinates of the nodes, by their places in the lattice. */
  function FieldOf(e: nat, u: seq<real>): Field {
    (n: Node) => if 0 <= Index(Nodes(e), n) < |u| then u[Index(Nodes(e), n)] else 0.0
  }

  lemma LocalIsCube(e: nat, nodelist: seq<nat>, u: seq<real>, n: Node)
    requires IsBuilt(e, nodelist) && |u| == NodeCount(e)
    requires Inside(Elements(e), n) && 0 <= Index(Elements(e), n) < ElemCount(e)
    ensures Local(nodelist, u, Index(Elements(e), n)) == AtCorners(FieldOf(e, u), n)
  {
    hide Index, CornerNode;
    assert CubeListed(e, nodelist, n);
    forall j | 0 <= j < 8
      ensures Local(nodelist, u, Index(Elements(e), n))[j] == AtCorners(FieldOf(e, u), n)[j]
    {
      CornerInside(e, n, j);
    }
  }

  /** The eight elements around a node have the same stress. */
  ghost predicate EqualStress(e: nat, stress: seq<real>, g: Node, s: real) {
    forall j :: 0 <= j < 8 ==>
      0 <= Index(Elements(e), CubeAt(g, j)) < |stress| && stress[Index(Elements(e), CubeAt(g, j))] == s
  }

  lemma BuiltIsMesh(e: nat, nodelist: seq<nat>)
    requires IsBuilt(e, nodelist)
    ensures LuleshCorners.Mesh(nodelist, ElemCount(e), NodeCount(e))
  {}

  lemma MeshBounds(nodelist: seq<nat>, numElem: nat, numNode: nat)
    requires LuleshCorners.Mesh(nodelist, numElem, numNode)
    ensures |nodelist| == 8 * numElem && forall c :: 0 <= c < |nodelist| ==> nodelist[c] < numNode
  {}

  lemma StressOfCube(e: nat, stress: seq<real>, g: Node, s: real, j: nat)
    requires EqualStress(e, stress, g, s) && j < 8
    ensures 0 <= Index(Elements(e), CubeAt(g, j)) < |stress| && stress[Index(Elements(e), CubeAt(g, j))] == s
  {}

  lemma ForceOfCube(e: nat, nodelist: seq<nat>, u: seq<real>, v: seq<real>, stress: seq<real>, g: Node, j: nat, s: real)
    requires IsBuilt(e, nodelist) && Interior(e, g) && j < 8
    requires |u| == |v| == NodeCount(e) && |stress| == ElemCount(e) && EqualStress(e, stress, g, s)
    ensures LuleshCorners.Mesh(nodelist, ElemCount(e), NodeCount(e))
    ensures 0 <= Index(Elements(e), CubeAt(g, j)) < |stress|
    ensures CornerForces(nodelist, u, v, stress, |stress|)[8 * Index(Elements(e), CubeAt(g, j)) + j] ==
            -(s * AreaAround(FieldOf(e, u), FieldOf(e, v), g, j))
  {
    hide *;
    var n := CubeAt(g, j);
    CubeIsInside(e, g, j);
    StressOfCube(e, stress, g, s, j);
    BuiltIsMesh(e, nodelist);
    MeshBounds(nodelist, ElemCount(e), NodeCount(e));
    LocalIsCube(e, nodelist, u, n);
    LocalIsCube(e, nodelist, v, n);
    ForceInElement(nodelist, u, v, stress, Index(Elements(e), n), j);
    AreaIsCornerArea(FieldOf(e, u), FieldOf(e, v), g, j);
  }

  lemma AreaIsCornerArea(u: Field, v: Field, g: Node, j: nat)
    requires j < 8
    ensures AreaAround(u, v, g, j) == CornerArea(AtCorners(u, CubeAt(g, j)), AtCorners(v, CubeAt(g, j)), j)
  {}

  lemma SumOfOneMore(ks: seq<nat>, n: nat, f: seq<real>)
    requires n < |ks| && AllBelow(ks, |f|)
    ensures AllBelow(ks[..n], |f|) && AllBelow(ks[..n + 1], |f|)
    ensures SumAt(ks[..n + 1], f) == SumAt(ks[..n], f) + f[ks[n]]
  {
    assert ks[..n + 1] == ks[..n] + [ks[n]];
    SumSnoc(ks[..n], ks[n], f);
  }

  lemma SumOfEight(ks: seq<nat>, f: seq<real>)
    requires |ks| == 8 && AllBelow(ks, |f|)
    ensures SumAt(ks, f) == f[ks[0]] + f[ks[1]] + f[ks[2]] + f[ks[3]] + f[ks[4]] + f[ks[5]] + f[ks[6]] + f[ks[7]]
  {
    hide SumAt;
    EmptySum(f);
    assert ks[..0] == [] && ks[..8] == ks;
    SumOfOneMore(ks, 0, f);
    SumOfOneMore(ks, 1, f);
    SumOfOneMore(ks, 2, f);
    SumOfOneMore(ks, 3, f);
    SumOfOneMore(ks, 4, f);
    SumOfOneMore(ks, 5, f);
    SumOfOneMore(ks, 6, f);
    SumOfOneMore(ks, 7, f);
  }

  lemma TimesSum(s: real, a: real, b: real, c: real, d: real, e: real, f: real, g: real, h: real)
    requires a + b + c + d + e + f + g + h == 0.0
    ensures -(s * a) - s * b - s * c - s * d - s * e - s * f - s * g - s * h == 0.0
  {
    LuleshForces.Factor(s, a, b, c, d, e, f, g, h);
  }

  /** Whatever the positions of all nodes, equal stress around an interior node puts no force on it. */
  lemma EqualStressIsBalanced(e: nat, nodelist: seq<nat>, u: seq<real>, v: seq<real>, stress: seq<real>, g: Node,
                              m: nat, s: real)
    requires IsBuilt(e, nodelist) && Interior(e, g) && m == Index(Nodes(e), g)
    requires |u| == |v| == NodeCount(e) && |stress| == ElemCount(e) && EqualStress(e, stress, g, s)
    ensures ForceAt(nodelist, u, v, stress, m, |nodelist|) == 0.0
  {
    hide Index, ForceAt, CornerForces, AreaAround, CornersOf, SumAt, EqualStress, CornerAt, IsBuilt, ElemCount,
      NodeCount, Interior;
    BuiltIsMesh(e, nodelist);
    var f := CornerForces(nodelist, u, v, stress, |stress|);
    GatheredForce(nodelist, u, v, stress, m);
    CornersOfInterior(e, nodelist, g);
    forall j: nat | j < 8
      ensures 0 <= CornerAt(e, g, j) < |f|
      ensures f[CornerAt(e, g, j)] == -(s * AreaAround(FieldOf(e, u), FieldOf(e, v), g, j))
    {
      CubeIsInside(e, g, j);
      CornerIsNat(e, g, j);
      ForceOfCube(e, nodelist, u, v, stress, g, j, s);
    }
    SumOfEight(CornersOf(nodelist, m), f);
    var a, b := FieldOf(e, u), FieldOf(e, v);
    FacesAroundNode(a, b, g);
    TimesSum(s, AreaAround(a, b, g, 0), AreaAround(a, b, g, 1), AreaAround(a, b, g, 2), AreaAround(a, b, g, 3),
             AreaAround(a, b, g, 4), AreaAround(a, b, g, 5), AreaAround(a, b, g, 6), AreaAround(a, b, g, 7));
  }
}
