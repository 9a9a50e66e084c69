/**
  The node list `BuildMesh` writes: hexahedral elements embedded in a lattice of nodes, addressed by running counters.
 */
module LuleshMesh {
  import opened Division
  import opened LuleshGrid
  import opened LuleshCorners

  function Elements(e: nat): Box { Box(e, e, e) }

  function Nodes(e: nat): Box { Box(e + 1, e + 1, e + 1) }

  /** The node at corner `j` of the cube whose lowest node is `n`. */
  function CornerNode(n: Node, j: nat): Node {
    if j == 0 then n
    else if j == 1 then Node(n.z, n.y, n.x + 1)
    else if j == 2 then Node(n.z, n.y + 1, n.x + 1)
    else if j == 3 then Node(n.z, n.y + 1, n.x)
    else if j == 4 then Node(n.z + 1, n.y, n.x)
    else if j == 5 then Node(n.z + 1, n.y, n.x + 1)
    else if j == 6 then Node(n.z + 1, n.y + 1, n.x + 1)
    else Node(n.z + 1, n.y + 1, n.x)
  }

  /** The eight entries of an element are the nodes of its cube. */
  ghost predicate CubeListed(e: nat, nodelist: seq<nat>, n: Node) {
    0 <= 8 * Index(Elements(e), n) && 8 * Index(Elements(e), n) + 8 <= |nodelist| &&
    forall j :: 0 <= j < 8 ==> nodelist[8 * Index(Elements(e), n) + j] == Index(Nodes(e), CornerNode(n, j))
  }

  ghost predicate ListedUpTo(e: nat, nodelist: seq<nat>, upTo: Node) {
    forall n :: Inside(Elements(e), n) && Before(n, upTo) ==> CubeListed(e, nodelist, n)
  }

  /** The offsets the code adds to its counter lead to the corners. */
  lemma CornerOffsets(e: nat, n: Node, nidx: int)
    requires nidx == Index(Nodes(e), n)
    ensures Index(Nodes(e), CornerNode(n, 1)) == nidx + 1
    ensures Index(Nodes(e), CornerNode(n, 2)) == nidx + (e + 1) + 1
    ensures Index(Nodes(e), CornerNode(n, 3)) == nidx + (e + 1)
    ensures Index(Nodes(e), CornerNode(n, 4)) == nidx + (e + 1) * (e + 1)
    ensures Index(Nodes(e), CornerNode(n, 5)) == nidx + (e + 1) * (e + 1) + 1
    ensures Index(Nodes(e), CornerNode(n, 6)) == nidx + (e + 1) * (e + 1) + (e + 1) + 1
    ensures Index(Nodes(e), CornerNode(n, 7)) == nidx + (e + 1) * (e + 1) + (e + 1)
  {
    var s := e + 1;
    assert (n.z + 1) * s * s == n.z * s * s + s * s;
    assert (n.y + 1) * s == n.y * s + s;
  }

  /** How the two counters turn the corner of a row and of a plane. */
  lemma CountersTurn(e: nat, z: int, y: int)
    ensures Index(Elements(e), Node(z, y, e)) == Index(Elements(e), Node(z, y + 1, 0))
    ensures Index(Elements(e), Node(z, e, 0)) == Index(Elements(e), Node(z + 1, 0, 0))
    ensures Index(Nodes(e), Node(z, y, e)) + 1 == Index(Nodes(e), Node(z, y + 1, 0))
    ensures Index(Nodes(e), Node(z, e, 0)) + (e + 1) == Index(Nodes(e), Node(z + 1, 0, 0))
  {
    var s := e + 1;
    assert (z + 1) * e * e == z * e * e + e * e && (y + 1) * e == y * e + e;
    assert (z + 1) * s * s == z * s * s + s * s && (y + 1) * s == y * s + s;
    assert e * s + s == s * s;
  }

  lemma ListStep(e: nat, nodelist: seq<nat>, after: seq<nat>, n: Node)
    requires ListedUpTo(e, nodelist, n) && Inside(Elements(e), n) && CubeListed(e, after, n) && |after| == |nodelist|
    requires forall k :: 0 <= k < 8 * Index(Elements(e), n) ==> after[k] == nodelist[k]
    ensures ListedUpTo(e, after, Node(n.z, n.y, n.x + 1))
  {
    hide Index, CornerNode;
    forall m | Inside(Elements(e), m) && Before(m, n) ensures CubeListed(e, after, m) {
      assert CubeListed(e, nodelist, m);
      IndexOrder(e, m, n);
    }
  }

  lemma IndexOrder(e: nat, m: Node, n: Node)
    requires Inside(Elements(e), m) && Inside(Elements(e), n) && Before(m, n)
    ensures Index(Elements(e), m) < Index(Elements(e), n)
  {
    Distribute(m.z, e, e, m.y);
    Distribute(n.z, e, e, n.y);
    FlatOrder(m.z, m.y, m.x, n.z, n.y, n.x, e, e);
  }

  lemma ListTurn(e: nat, nodelist: seq<nat>, z: int, y: int)
    ensures ListedUpTo(e, nodelist, Node(z, y, e)) ==> ListedUpTo(e, nodelist, Node(z, y + 1, 0))
    ensures ListedUpTo(e, nodelist, Node(z, e, 0)) ==> ListedUpTo(e, nodelist, Node(z + 1, 0, 0))
  {
    hide CubeListed;
  }

  /** Every element index belongs to an element. */
  lemma ElementOf(e: nat, i: nat) returns (n: Node)
    requires i < e * e * e
    ensures Inside(Elements(e), n) && Index(Elements(e), n) == i
  {
    CubeIsPositive(e);
    ThreeDigits(i, e);
    n := Node(i / (e * e), i / e % e, i % e);
  }

  lemma CornerInside(e: nat, n: Node, j: nat)
    requires Inside(Elements(e), n) && j < 8
    ensures Inside(Nodes(e), CornerNode(n, j))
    ensures 0 <= Index(Nodes(e), CornerNode(n, j)) < (e + 1) * (e + 1) * (e + 1)
  {
    hide Index;
    IndexInRange(Nodes(e), CornerNode(n, j));
  }

  lemma ListIsMesh(e: nat, nodelist: seq<nat>)
    requires |nodelist| == 8 * (e * e * e) && ListedUpTo(e, nodelist, Node(e, 0, 0))
    ensures Mesh(nodelist, e * e * e, (e + 1) * (e + 1) * (e + 1))
  {
    hide Index, CornerNode;
    forall k | 0 <= k < |nodelist| ensures nodelist[k] < (e + 1) * (e + 1) * (e + 1) {
      var n := ElementOf(e, k / 8);
      assert CubeListed(e, nodelist, n);
      CornerInside(e, n, k % 8);
      assert nodelist[8 * Index(Elements(e), n) + k % 8] == Index(Nodes(e), CornerNode(n, k % 8));
    }
  }

  /** One element of the list. */
  method ListElement(e: nat, nodelist: array<nat>, zidx: nat, nidx: nat, ghost n: Node)
    requires Inside(Elements(e), n) && zidx == Index(Elements(e), n) && nidx == Index(Nodes(e), n)
    requires 8 * zidx + 8 <= nodelist.Length && ListedUpTo(e, nodelist[..], n)
    modifies nodelist
    ensures ListedUpTo(e, nodelist[..], Node(n.z, n.y, n.x + 1))
  {
    hide Index, ListedUpTo;
    ghost var before := nodelist[..];
    CornerOffsets(e, n, nidx);
    var edgeNodes := e + 1;
    nodelist[8 * zidx] := nidx;
    nodelist[8 * zidx + 1] := nidx + 1;
    nodelist[8 * zidx + 2] := nidx + edgeNodes + 1;
    nodelist[8 * zidx + 3] := nidx + edgeNodes;
    nodelist[8 * zidx + 4] := nidx + edgeNodes * edgeNodes;
    nodelist[8 * zidx + 5] := nidx + edgeNodes * edgeNodes + 1;
    nodelist[8 * zidx + 6] := nidx + edgeNodes * edgeNodes + edgeNodes + 1;
    nodelist[8 * zidx + 7] := nidx + edgeNodes * edgeNodes + edgeNodes;
    ListStep(e, before, nodelist[..], n);
  }

  /** The second half of `BuildMesh`: every element lists the eight nodes of its cube. */
  method BuildNodelist(e: nat) returns (nodelist: array<nat>)
    ensures Mesh(nodelist[..], e * e * e, (e + 1) * (e + 1) * (e + 1))
    ensures forall n :: Inside(Elements(e), n) ==> CubeListed(e, nodelist[..], n)
  {
    hide Index, ListedUpTo;
    nodelist := new nat[8 * (e * e * e)];
    var zidx: nat, nidx: nat := 0, 0;
    CountersStart(e);
    ListStart(e, nodelist[..]);
    for plane := 0 to e
      invariant zidx == Index(Elements(e), Node(plane, 0, 0)) && nidx == Index(Nodes(e), Node(plane, 0, 0))
      invariant ListedUpTo(e, nodelist[..], Node(plane, 0, 0))
    {
      for row := 0 to e
        invariant zidx == Index(Elements(e), Node(plane, row, 0)) && nidx == Index(Nodes(e), Node(plane, row, 0))
        invariant ListedUpTo(e, nodelist[..], Node(plane, row, 0))
      {
        for col := 0 to e
          invariant zidx == Index(Elements(e), Node(plane, row, col)) && nidx == Index(Nodes(e), Node(plane, row, col))
          invariant ListedUpTo(e, nodelist[..], Node(plane, row, col))
        {
          IndexInRange(Elements(e), Node(plane, row, col));
          ListElement(e, nodelist, zidx, nidx, Node(plane, row, col));
          CountersAdvance(e, Node(plane, row, col));
          zidx := zidx + 1;
          nidx := nidx + 1;
        }
        CountersTurn(e, plane, row);
        ListTurn(e, nodelist[..], plane, row);
        nidx := nidx + 1;
      }
      CountersTurn(e, plane, e);
      ListTurn(e, nodelist[..], plane, e);
      nidx := nidx + (e + 1);
    }
    ListIsMesh(e, nodelist[..]);
    ListEnds(e, nodelist[..]);
  }

  lemma CountersStart(e: nat)
    ensures Index(Elements(e), Node(0, 0, 0)) == 0 && Index(Nodes(e), Node(0, 0, 0)) == 0
  {}

  lemma CountersAdvance(e: nat, n: Node)
    ensures Index(Elements(e), Node(n.z, n.y, n.x + 1)) == Index(Elements(e), n) + 1
    ensures Index(Nodes(e), Node(n.z, n.y, n.x + 1)) == Index(Nodes(e), n) + 1
  {}

  lemma ListStart(e: nat, nodelist: seq<nat>)
    ensures ListedUpTo(e, nodelist, Node(0, 0, 0))
  {
    hide CubeListed;
  }

  lemma ListEnds(e: nat, nodelist: seq<nat>)
    requires ListedUpTo(e, nodelist, Node(e, 0, 0))
    ensures forall n :: Inside(Elements(e), n) ==> CubeListed(e, nodelist, n)
  {
    hide CubeListed;
  }
}
