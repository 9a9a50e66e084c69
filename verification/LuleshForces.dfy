/**
  Stress forces on the nodes of hexahedral elements: face normals, node normals, and the kernels of
  `IntegrateStressForElems`. Arithmetic is exact.
 */
module LuleshForces {
  import opened LuleshCorners

  // ----- one face -----

  /** One component of the area a face adds to each of its four nodes; `u` and `v` are the two other coordinates of the
      corners in the order the face is walked. */
  function Area(u0: real, v0: real, u1: real, v1: real, u2: real, v2: real, u3: real, v3: real): real {
    var bisectU0 := 0.5 * (u3 + u2 - u1 - u0);
    var bisectV0 := 0.5 * (v3 + v2 - v1 - v0);
    var bisectU1 := 0.5 * (u2 + u1 - u3 - u0);
    var bisectV1 := 0.5 * (v2 + v1 - v3 - v0);
    0.25 * (bisectU0 * bisectV1 - bisectV0 * bisectU1)
  }

  /** The contribution of one directed edge. */
  function Edge(u0: real, v0: real, u1: real, v1: real): real {
    u0 * v1 - v0 * u1
  }

  lemma CrossOfBisectors(a: real, b: real, c: real, d: real)
    ensures (0.5 * (b + a)) * (0.5 * (c - d)) - (0.5 * (d + c)) * (0.5 * (a - b)) == 0.5 * (b * c - d * a)
  {}

  lemma CrossOfDiagonals(u0: real, v0: real, u1: real, v1: real, u2: real, v2: real, u3: real, v3: real)
    ensures (u3 - u1) * (v2 - v0) - (v3 - v1) * (u2 - u0) ==
            -(Edge(u0, v0, u1, v1) + Edge(u1, v1, u2, v2) + Edge(u2, v2, u3, v3) + Edge(u3, v3, u0, v0))
  {
    assert (u3 - u1) * (v2 - v0) == u3 * v2 - u3 * v0 - u1 * v2 + u1 * v0;
    assert (v3 - v1) * (u2 - u0) == v3 * u2 - v3 * u0 - v1 * u2 + v1 * u0;
  }

  /** The area of a face is a sum over its directed edges. */
  lemma AreaByEdges(u0: real, v0: real, u1: real, v1: real, u2: real, v2: real, u3: real, v3: real)
    ensures Area(u0, v0, u1, v1, u2, v2, u3, v3) ==
            -0.125 * (Edge(u0, v0, u1, v1) + Edge(u1, v1, u2, v2) + Edge(u2, v2, u3, v3) + Edge(u3, v3, u0, v0))
  {
    hide Edge;
    var a, b, c, d := u2 - u0, u3 - u1, v2 - v0, v3 - v1;
    assert u3 + u2 - u1 - u0 == b + a && u2 + u1 - u3 - u0 == a - b;
    assert v3 + v2 - v1 - v0 == d + c && v2 + v1 - v3 - v0 == c - d;
    CrossOfBisectors(a, b, c, d);
    CrossOfDiagonals(u0, v0, u1, v1, u2, v2, u3, v3);
  }

  /** Walking an edge the other way changes the sign. */
  lemma EdgeBack(u0: real, v0: real, u1: real, v1: real)
    ensures Edge(u1, v1, u0, v0) == -Edge(u0, v0, u1, v1)
  {}

  // ----- one element -----

  /** The area of the face through corners `a`, `b`, `c`, `d`. */
  function FaceArea(u: seq<real>, v: seq<real>, a: nat, b: nat, c: nat, d: nat): real
    requires |u| == |v| == 8 && a < 8 && b < 8 && c < 8 && d < 8
  {
    Area(u[a], v[a], u[b], v[b], u[c], v[c], u[d], v[d])
  }

  function EdgeOf(u: seq<real>, v: seq<real>, a: nat, b: nat): real
    requires |u| == |v| == 8 && a < 8 && b < 8
  {
    Edge(u[a], v[a], u[b], v[b])
  }

  lemma FaceByEdges(u: seq<real>, v: seq<real>, a: nat, b: nat, c: nat, d: nat)
    requires |u| == |v| == 8 && a < 8 && b < 8 && c < 8 && d < 8
    ensures FaceArea(u, v, a, b, c, d) ==
            -0.125 * (EdgeOf(u, v, a, b) + EdgeOf(u, v, b, c) + EdgeOf(u, v, c, d) + EdgeOf(u, v, d, a))
  {
    AreaByEdges(u[a], v[a], u[b], v[b], u[c], v[c], u[d], v[d]);
  }

  lemma EdgesBack(u: seq<real>, v: seq<real>)
    requires |u| == |v| == 8
    ensures forall a, b :: 0 <= a < 8 && 0 <= b < 8 ==> EdgeOf(u, v, b, a) == -EdgeOf(u, v, a, b)
  {
    forall a, b | 0 <= a < 8 && 0 <= b < 8 ensures EdgeOf(u, v, b, a) == -EdgeOf(u, v, a, b) {
      EdgeBack(u[a], v[a], u[b], v[b]);
    }
  }

  /** The six faces of a hexahedron close up: every edge is walked once in each direction. Nothing is assumed about the
      positions of its corners. */
  lemma FacesClose(u: seq<real>, v: seq<real>)
    requires |u| == |v| == 8
    ensures FaceArea(u, v, 0, 1, 2, 3) + FaceArea(u, v, 0, 4, 5, 1) + FaceArea(u, v, 1, 5, 6, 2)
            + FaceArea(u, v, 2, 6, 7, 3) + FaceArea(u, v, 3, 7, 4, 0) + FaceArea(u, v, 4, 7, 6, 5) == 0.0
  {
    hide FaceArea, EdgeOf;
    FaceByEdges(u, v, 0, 1, 2, 3);
    FaceByEdges(u, v, 0, 4, 5, 1);
    FaceByEdges(u, v, 1, 5, 6, 2);
    FaceByEdges(u, v, 2, 6, 7, 3);
    FaceByEdges(u, v, 3, 7, 4, 0);
    FaceByEdges(u, v, 4, 7, 6, 5);
    EdgesBack(u, v);
  }

  /** The same area added to four of the eight entries. */
  function AddFace(normals: seq<real>, a: nat, b: nat, c: nat, d: nat, area: real): (after: seq<real>)
    requires |normals| == 8 && a < 8 && b < 8 && c < 8 && d < 8
    ensures |after| == 8
  {
    seq(8, i requires 0 <= i < 8 => if i == a || i == b || i == c || i == d then normals[i] + area else normals[i])
  }

  function Sum8(f: seq<real>): real
    requires |f| == 8
  {
    f[0] + f[1] + f[2] + f[3] + f[4] + f[5] + f[6] + f[7]
  }

  function AddOne(f: seq<real>, a: nat, x: real): (g: seq<real>)
    requires |f| == 8 && a < 8
    ensures |g| == 8
  {
    f[a := f[a] + x]
  }

  lemma AddOneSum(f: seq<real>, a: nat, x: real)
    requires |f| == 8 && a < 8
    ensures Sum8(AddOne(f, a, x)) == Sum8(f) + x
  {}

  lemma FaceIsFourOnes(normals: seq<real>, a: nat, b: nat, c: nat, d: nat, x: real)
    requires |normals| == 8 && a < 8 && b < 8 && c < 8 && d < 8
    requires a != b && a != c && a != d && b != c && b != d && c != d
    ensures AddFace(normals, a, b, c, d, x) == AddOne(AddOne(AddOne(AddOne(normals, a, x), b, x), c, x), d, x)
  {}

  /** What a face adds in all, for corner numbers that differ. */
  lemma AddFaceSum(normals: seq<real>, a: nat, b: nat, c: nat, d: nat, area: real)
    requires |normals| == 8 && a < 8 && b < 8 && c < 8 && d < 8
    requires a != b && a != c && a != d && b != c && b != d && c != d
    ensures Sum8(AddFace(normals, a, b, c, d, area)) == Sum8(normals) + 4.0 * area
  {
    hide Sum8, AddFace, AddOne;
    var one := AddOne(normals, a, area);
    var two := AddOne(one, b, area);
    var three := AddOne(two, c, area);
    AddOneSum(normals, a, area);
    AddOneSum(one, b, area);
    AddOneSum(two, c, area);
    AddOneSum(three, d, area);
    FaceIsFourOnes(normals, a, b, c, d, area);
  }

  /** One component of the normals at the eight nodes of an element: every face adds its area to its four nodes. */
  function NodeNormals(u: seq<real>, v: seq<real>): (normals: seq<real>)
    requires |u| == |v| == 8
    ensures |normals| == 8
  {
    var zero := [0.0, 0.0, 0.0, 0.0, 0.0, 0.0, 0.0, 0.0];
    var f0 := AddFace(zero, 0, 1, 2, 3, FaceArea(u, v, 0, 1, 2, 3));
    var f1 := AddFace(f0, 0, 4, 5, 1, FaceArea(u, v, 0, 4, 5, 1));
    var f2 := AddFace(f1, 1, 5, 6, 2, FaceArea(u, v, 1, 5, 6, 2));
    var f3 := AddFace(f2, 2, 6, 7, 3, FaceArea(u, v, 2, 6, 7, 3));
    var f4 := AddFace(f3, 3, 7, 4, 0, FaceArea(u, v, 3, 7, 4, 0));
    AddFace(f4, 4, 7, 6, 5, FaceArea(u, v, 4, 7, 6, 5))
  }

  /** The areas of the three faces that meet at a corner. */
  function CornerArea(u: seq<real>, v: seq<real>, j: nat): real
    requires |u| == |v| == 8 && j < 8
  {
    if j == 0 then FaceArea(u, v, 0, 1, 2, 3) + FaceArea(u, v, 0, 4, 5, 1) + FaceArea(u, v, 3, 7, 4, 0)
    else if j == 1 then FaceArea(u, v, 0, 1, 2, 3) + FaceArea(u, v, 0, 4, 5, 1) + FaceArea(u, v, 1, 5, 6, 2)
    else if j == 2 then FaceArea(u, v, 0, 1, 2, 3) + FaceArea(u, v, 1, 5, 6, 2) + FaceArea(u, v, 2, 6, 7, 3)
    else if j == 3 then FaceArea(u, v, 0, 1, 2, 3) + FaceArea(u, v, 2, 6, 7, 3) + FaceArea(u, v, 3, 7, 4, 0)
    else if j == 4 then FaceArea(u, v, 0, 4, 5, 1) + FaceArea(u, v, 3, 7, 4, 0) + FaceArea(u, v, 4, 7, 6, 5)
    else if j == 5 then FaceArea(u, v, 0, 4, 5, 1) + FaceArea(u, v, 1, 5, 6, 2) + FaceArea(u, v, 4, 7, 6, 5)
    else if j == 6 then FaceArea(u, v, 1, 5, 6, 2) + FaceArea(u, v, 2, 6, 7, 3) + FaceArea(u, v, 4, 7, 6, 5)
    else FaceArea(u, v, 2, 6, 7, 3) + FaceArea(u, v, 3, 7, 4, 0) + FaceArea(u, v, 4, 7, 6, 5)
  }

  /** The normal at a node of an element is the area of the three faces that meet there. */
  lemma NormalOfCorner(u: seq<real>, v: seq<real>, j: nat)
    requires |u| == |v| == 8 && j < 8
    ensures NodeNormals(u, v)[j] == CornerArea(u, v, j)
  {
    hide FaceArea;
  }

  lemma NormalsCancel(u: seq<real>, v: seq<real>)
    requires |u| == |v| == 8
    ensures Sum8(NodeNormals(u, v)) == 0.0
  {
    hide FaceArea, AddFace, Sum8;
    var zero := [0.0, 0.0, 0.0, 0.0, 0.0, 0.0, 0.0, 0.0];
    ZeroSum();
    var f0 := AddFace(zero, 0, 1, 2, 3, FaceArea(u, v, 0, 1, 2, 3));
    var f1 := AddFace(f0, 0, 4, 5, 1, FaceArea(u, v, 0, 4, 5, 1));
    var f2 := AddFace(f1, 1, 5, 6, 2, FaceArea(u, v, 1, 5, 6, 2));
    var f3 := AddFace(f2, 2, 6, 7, 3, FaceArea(u, v, 2, 6, 7, 3));
    var f4 := AddFace(f3, 3, 7, 4, 0, FaceArea(u, v, 3, 7, 4, 0));
    AddFaceSum(zero, 0, 1, 2, 3, FaceArea(u, v, 0, 1, 2, 3));
    AddFaceSum(f0, 0, 4, 5, 1, FaceArea(u, v, 0, 4, 5, 1));
    AddFaceSum(f1, 1, 5, 6, 2, FaceArea(u, v, 1, 5, 6, 2));
    AddFaceSum(f2, 2, 6, 7, 3, FaceArea(u, v, 2, 6, 7, 3));
    AddFaceSum(f3, 3, 7, 4, 0, FaceArea(u, v, 3, 7, 4, 0));
    AddFaceSum(f4, 4, 7, 6, 5, FaceArea(u, v, 4, 7, 6, 5));
    FacesClose(u, v);
  }

  lemma ZeroSum()
    ensures Sum8([0.0, 0.0, 0.0, 0.0, 0.0, 0.0, 0.0, 0.0]) == 0.0
  {}

  method AddToFour(normals: array<real>, a: nat, b: nat, c: nat, d: nat, area: real)
    requires normals.Length == 8 && a < 8 && b < 8 && c < 8 && d < 8
    requires a != b && a != c && a != d && b != c && b != d && c != d
    modifies normals
    ensures normals[..] == AddFace(old(normals[..]), a, b, c, d, area)
  {
    normals[a] := normals[a] + area;
    normals[b] := normals[b] + area;
    normals[c] := normals[c] + area;
    normals[d] := normals[d] + area;
  }

  /** `SumElemFaceNormal` for the face through corners `a`, `b`, `c`, `d`. */
  method SumElemFaceNormal(pfx: array<real>, pfy: array<real>, pfz: array<real>, a: nat, b: nat, c: nat, d: nat,
                           x: seq<real>, y: seq<real>, z: seq<real>)
    requires pfx.Length == pfy.Length == pfz.Length == 8 && pfx != pfy && pfx != pfz && pfy != pfz
    requires |x| == |y| == |z| == 8 && a < 8 && b < 8 && c < 8 && d < 8
    requires a != b && a != c && a != d && b != c && b != d && c != d
    modifies pfx, pfy, pfz
    ensures pfx[..] == AddFace(old(pfx[..]), a, b, c, d, FaceArea(y, z, a, b, c, d))
    ensures pfy[..] == AddFace(old(pfy[..]), a, b, c, d, FaceArea(z, x, a, b, c, d))
    ensures pfz[..] == AddFace(old(pfz[..]), a, b, c, d, FaceArea(x, y, a, b, c, d))
  {
    hide AddFace;
    var bisectX0 := 0.5 * (x[d] + x[c] - x[b] - x[a]);
    var bisectY0 := 0.5 * (y[d] + y[c] - y[b] - y[a]);
    var bisectZ0 := 0.5 * (z[d] + z[c] - z[b] - z[a]);
    var bisectX1 := 0.5 * (x[c] + x[b] - x[d] - x[a]);
    var bisectY1 := 0.5 * (y[c] + y[b] - y[d] - y[a]);
    var bisectZ1 := 0.5 * (z[c] + z[b] - z[d] - z[a]);
    var areaX := 0.25 * (bisectY0 * bisectZ1 - bisectZ0 * bisectY1);
    var areaY := 0.25 * (bisectZ0 * bisectX1 - bisectX0 * bisectZ1);
    var areaZ := 0.25 * (bisectX0 * bisectY1 - bisectY0 * bisectX1);
    assert areaX == FaceArea(y, z, a, b, c, d);
    assert areaY == FaceArea(z, x, a, b, c, d);
    assert areaZ == FaceArea(x, y, a, b, c, d);
    AddToFour(pfx, a, b, c, d, areaX);
    AddToFour(pfy, a, b, c, d, areaY);
    AddToFour(pfz, a, b, c, d, areaZ);
  }

  /** `CalcElemNodeNormals`. */
  method CalcElemNodeNormals(pfx: array<real>, pfy: array<real>, pfz: array<real>,
                             x: seq<real>, y: seq<real>, z: seq<real>)
    requires pfx.Length == pfy.Length == pfz.Length == 8 && pfx != pfy && pfx != pfz && pfy != pfz
    requires |x| == |y| == |z| == 8
    modifies pfx, pfy, pfz
    ensures pfx[..] == NodeNormals(y, z) && pfy[..] == NodeNormals(z, x) && pfz[..] == NodeNormals(x, y)
  {
    hide AddFace, FaceArea;
    for i := 0 to 8
      invariant forall k :: 0 <= k < i ==> pfx[k] == 0.0 && pfy[k] == 0.0 && pfz[k] == 0.0
    {
      pfx[i], pfy[i], pfz[i] := 0.0, 0.0, 0.0;
    }
    assert pfx[..] == pfy[..] == pfz[..] == [0.0, 0.0, 0.0, 0.0, 0.0, 0.0, 0.0, 0.0];
    SumElemFaceNormal(pfx, pfy, pfz, 0, 1, 2, 3, x, y, z);
    SumElemFaceNormal(pfx, pfy, pfz, 0, 4, 5, 1, x, y, z);
    SumElemFaceNormal(pfx, pfy, pfz, 1, 5, 6, 2, x, y, z);
    SumElemFaceNormal(pfx, pfy, pfz, 2, 6, 7, 3, x, y, z);
    SumElemFaceNormal(pfx, pfy, pfz, 3, 7, 4, 0, x, y, z);
    SumElemFaceNormal(pfx, pfy, pfz, 4, 7, 6, 5, x, y, z);
  }

  // ----- all elements -----

  /** The coordinates of the eight nodes of element `k`. */
  function Local(nodelist: seq<nat>, coordinate: seq<real>, k: nat): (local: seq<real>)
    requires 8 * k + 8 <= |nodelist|
    requires forall c :: 0 <= c < |nodelist| ==> nodelist[c] < |coordinate|
    ensures |local| == 8
  {
    seq(8, j requires 0 <= j < 8 => coordinate[nodelist[8 * k + j]])
  }

  /** One component of the force that the stress of an element puts on its eight nodes. */
  function NodeForces(stress: real, normals: seq<real>): (forces: seq<real>)
    requires |normals| == 8
    ensures |forces| == 8
  {
    seq(8, i requires 0 <= i < 8 => -(stress * normals[i]))
  }

  /** One component of the forces at all corners of the first `n` elements. */
  function CornerForces(nodelist: seq<nat>, u: seq<real>, v: seq<real>, stress: seq<real>, n: nat): (forces: seq<real>)
    requires 8 * n <= |nodelist| && n <= |stress|
    requires forall c :: 0 <= c < |nodelist| ==> nodelist[c] < |u| && nodelist[c] < |v|
    ensures |forces| == 8 * n
  {
    if n == 0 then []
    else CornerForces(nodelist, u, v, stress, n - 1)
         + NodeForces(stress[n - 1], NodeNormals(Local(nodelist, u, n - 1), Local(nodelist, v, n - 1)))
  }

  lemma Factor(s: real, a: real, b: real, c: real, d: real, e: real, f: real, g: real, h: real)
    ensures s * a + s * b + s * c + s * d + s * e + s * f + s * g + s * h == s * (a + b + c + d + e + f + g + h)
  {}

  lemma NodeForcesSum(stress: real, normals: seq<real>)
    requires |normals| == 8
    ensures Sum8(NodeForces(stress, normals)) == -(stress * Sum8(normals))
  {
    Factor(stress, normals[0], normals[1], normals[2], normals[3], normals[4], normals[5], normals[6], normals[7]);
  }

  lemma {:induction false} TotalOfAppend(f: seq<real>, g: seq<real>)
    ensures Total(f + g) == Total(f) + Total(g)
  {
    if g == [] {
      assert f + g == f;
    } else {
      TotalOfAppend(f, g[..|g| - 1]);
      assert (f + g)[..|f + g| - 1] == f + g[..|g| - 1];
    }
  }

  lemma TotalOfEight(f: seq<real>)
    requires |f| == 8
    ensures Total(f) == Sum8(f)
  {
    TotalOfAppend(f[..4], f[4..]);
    TotalOfFour(f[..4]);
    TotalOfFour(f[4..]);
    assert f == f[..4] + f[4..];
  }

  lemma TotalOfFour(f: seq<real>)
    requires |f| == 4
    ensures Total(f) == f[0] + f[1] + f[2] + f[3]
  {
    TotalOfAppend(f[..2], f[2..]);
    TotalOfTwo(f[..2]);
    TotalOfTwo(f[2..]);
    assert f == f[..2] + f[2..];
  }

  lemma TotalOfTwo(f: seq<real>)
    requires |f| == 2
    ensures Total(f) == f[0] + f[1]
  {
    assert Total(f[..1]) == Total(f[..1][..0]) + f[0];
  }

  /** The stress of any elements, at any positions, puts no net force on the nodes. */
  lemma {:induction false} NoNetForce(nodelist: seq<nat>, u: seq<real>, v: seq<real>, stress: seq<real>, n: nat)
    requires 8 * n <= |nodelist| && n <= |stress|
    requires forall c :: 0 <= c < |nodelist| ==> nodelist[c] < |u| && nodelist[c] < |v|
    ensures Total(CornerForces(nodelist, u, v, stress, n)) == 0.0
  {
    hide NodeForces, NodeNormals, Local, Sum8;
    if n > 0 {
      NoNetForce(nodelist, u, v, stress, n - 1);
      var normals := NodeNormals(Local(nodelist, u, n - 1), Local(nodelist, v, n - 1));
      var forces := NodeForces(stress[n - 1], normals);
      NodeForcesSum(stress[n - 1], normals);
      NormalsCancel(Local(nodelist, u, n - 1), Local(nodelist, v, n - 1));
      TotalOfEight(forces);
      TotalOfAppend(CornerForces(nodelist, u, v, stress, n - 1), forces);
    }
  }

  /** The force at corner `c` of the mesh: minus the stress of its element times the area of the three faces that meet
      there. */
  function CornerForce(nodelist: seq<nat>, u: seq<real>, v: seq<real>, stress: seq<real>, c: nat): real
    requires 8 * (c / 8) + 8 <= |nodelist| && c / 8 < |stress|
    requires forall c :: 0 <= c < |nodelist| ==> nodelist[c] < |u| && nodelist[c] < |v|
  {
    -(stress[c / 8] * CornerArea(Local(nodelist, u, c / 8), Local(nodelist, v, c / 8), c % 8))
  }

  lemma {:induction false} CornerForcesByFaces(nodelist: seq<nat>, u: seq<real>, v: seq<real>, stress: seq<real>,
                                               n: nat, c: nat)
    requires 8 * n <= |nodelist| && n <= |stress| && c < 8 * n
    requires forall c :: 0 <= c < |nodelist| ==> nodelist[c] < |u| && nodelist[c] < |v|
    ensures CornerForces(nodelist, u, v, stress, n)[c] == CornerForce(nodelist, u, v, stress, c)
  {
    hide NodeNormals, Local, CornerArea;
    if c < 8 * (n - 1) {
      CornerForcesByFaces(nodelist, u, v, stress, n - 1, c);
    } else {
      var k := n - 1;
      assert c / 8 == k && c - 8 * k == c % 8;
      NormalOfCorner(Local(nodelist, u, k), Local(nodelist, v, k), c % 8);
    }
  }

  lemma EighthOf(k: nat, j: nat)
    requires j < 8
    ensures (8 * k + j) / 8 == k && (8 * k + j) % 8 == j
  {}

  /** The same for corner `j` of element `k`. */
  lemma ForceInElement(nodelist: seq<nat>, u: seq<real>, v: seq<real>, stress: seq<real>, k: nat, j: nat)
    requires |nodelist| == 8 * |stress| && k < |stress| && j < 8
    requires forall c :: 0 <= c < |nodelist| ==> nodelist[c] < |u| && nodelist[c] < |v|
    ensures CornerForces(nodelist, u, v, stress, |stress|)[8 * k + j] ==
            -(stress[k] * CornerArea(Local(nodelist, u, k), Local(nodelist, v, k), j))
  {
    hide *;
    EighthOf(k, j);
    CornerForcesByFaces(nodelist, u, v, stress, |stress|, 8 * k + j);
    CornerForceOf(nodelist, u, v, stress, k, j, 8 * k + j);
  }

  lemma CornerForceOf(nodelist: seq<nat>, u: seq<real>, v: seq<real>, stress: seq<real>, k: nat, j: nat, c: nat)
    requires 8 * k + 8 <= |nodelist| && k < |stress| && j < 8 && c / 8 == k && c % 8 == j
    requires forall c :: 0 <= c < |nodelist| ==> nodelist[c] < |u| && nodelist[c] < |v|
    ensures CornerForce(nodelist, u, v, stress, c) ==
            -(stress[k] * CornerArea(Local(nodelist, u, k), Local(nodelist, v, k), j))
  {
    hide CornerArea, Local;
  }

  /** The forces of the first `c` corners that lie at node `m`. */
  function ForceAt(nodelist: seq<nat>, u: seq<real>, v: seq<real>, stress: seq<real>, m: nat, c: nat): real
    requires |nodelist| == 8 * |stress| && c <= |nodelist|
    requires forall c :: 0 <= c < |nodelist| ==> nodelist[c] < |u| && nodelist[c] < |v|
  {
    if c == 0 then 0.0
    else
      ForceAt(nodelist, u, v, stress, m, c - 1) +
      if nodelist[c - 1] == m then CornerForce(nodelist, u, v, stress, c - 1) else 0.0
  }

  lemma {:induction false} NodeSumOfForces(nodelist: seq<nat>, u: seq<real>, v: seq<real>, stress: seq<real>, m: nat,
                                           c: nat)
    requires |nodelist| == 8 * |stress| && c <= |nodelist|
    requires forall c :: 0 <= c < |nodelist| ==> nodelist[c] < |u| && nodelist[c] < |v|
    ensures NodeSum(nodelist, CornerForces(nodelist, u, v, stress, |stress|), m, c) ==
            ForceAt(nodelist, u, v, stress, m, c)
  {
    hide CornerForces, CornerForce;
    if c > 0 {
      NodeSumOfForces(nodelist, u, v, stress, m, c - 1);
      CornerForcesByFaces(nodelist, u, v, stress, |stress|, c - 1);
    }
  }

  /** A node gathers the forces that the faces put on its corners. */
  lemma GatheredForce(nodelist: seq<nat>, u: seq<real>, v: seq<real>, stress: seq<real>, m: nat)
    requires |nodelist| == 8 * |stress|
    requires forall c :: 0 <= c < |nodelist| ==> nodelist[c] < |u| && nodelist[c] < |v|
    ensures Gathered(nodelist, CornerForces(nodelist, u, v, stress, |stress|), m) ==
            ForceAt(nodelist, u, v, stress, m, |nodelist|)
  {
    hide Gathered, CornerForces, ForceAt;
    GatheredIsNodeSum(nodelist, CornerForces(nodelist, u, v, stress, |stress|), m);
    NodeSumOfForces(nodelist, u, v, stress, m, |nodelist|);
  }

  lemma CornerForcesStart(nodelist: seq<nat>, u: seq<real>, v: seq<real>, stress: seq<real>)
    requires forall c :: 0 <= c < |nodelist| ==> nodelist[c] < |u| && nodelist[c] < |v|
    ensures CornerForces(nodelist, u, v, stress, 0) == []
  {}

  lemma CornerForcesStep(nodelist: seq<nat>, u: seq<real>, v: seq<real>, stress: seq<real>, n: nat)
    requires 8 * n + 8 <= |nodelist| && n < |stress|
    requires forall c :: 0 <= c < |nodelist| ==> nodelist[c] < |u| && nodelist[c] < |v|
    ensures CornerForces(nodelist, u, v, stress, n + 1) ==
            CornerForces(nodelist, u, v, stress, n)
            + NodeForces(stress[n], NodeNormals(Local(nodelist, u, n), Local(nodelist, v, n)))
  {}

  method Collect(nodelist: seq<nat>, coordinate: seq<real>, k: nat) returns (local: seq<real>)
    requires 8 * k + 8 <= |nodelist|
    requires forall c :: 0 <= c < |nodelist| ==> nodelist[c] < |coordinate|
    ensures local == Local(nodelist, coordinate, k)
  {
    local := [];
    for j := 0 to 8
      invariant |local| == j
      invariant forall i :: 0 <= i < j ==> local[i] == coordinate[nodelist[8 * k + i]]
    {
      local := local + [coordinate[nodelist[8 * k + j]]];
    }
  }

  /** `SumElemStressesToNodeForces`, one component. */
  method StoreForces(normals: array<real>, stress: real, forces: array<real>, k: nat)
    requires normals.Length == 8 && 8 * k + 8 <= forces.Length && forces != normals
    modifies forces
    ensures forces[..8 * k + 8] == old(forces[..8 * k]) + NodeForces(stress, old(normals[..]))
    ensures forall i :: 0 <= i < 8 ==> forces[8 * k + i] == -(stress * old(normals[i]))
  {
    ghost var b := normals[..];
    for i := 0 to 8
      invariant normals[..] == b && forces[..8 * k] == old(forces[..8 * k])
      invariant forall j :: 0 <= j < i ==> forces[8 * k + j] == -(stress * b[j])
    {
      forces[8 * k + i] := -(stress * normals[i]);
    }
    forall i | 0 <= i < 8 ensures forces[8 * k..8 * k + 8][i] == NodeForces(stress, b)[i] {}
    assert forces[8 * k..8 * k + 8] == NodeForces(stress, b);
    assert forces[..8 * k + 8] == forces[..8 * k] + forces[8 * k..8 * k + 8];
  }

  method ForcesOfElement(nodelist: seq<nat>, k: nat, x: seq<real>, y: seq<real>, z: seq<real>,
                         stressX: real, stressY: real, stressZ: real,
                         fxElem: array<real>, fyElem: array<real>, fzElem: array<real>)
    requires 8 * k + 8 <= |nodelist| && |x| == |y| == |z|
    requires forall c :: 0 <= c < |nodelist| ==> nodelist[c] < |x|
    requires fxElem.Length == fyElem.Length == fzElem.Length == |nodelist|
    requires fxElem != fyElem && fxElem != fzElem && fyElem != fzElem
    modifies fxElem, fyElem, fzElem
    ensures fxElem[..8 * k + 8] ==
            old(fxElem[..8 * k]) + NodeForces(stressX, NodeNormals(Local(nodelist, y, k), Local(nodelist, z, k)))
    ensures fyElem[..8 * k + 8] ==
            old(fyElem[..8 * k]) + NodeForces(stressY, NodeNormals(Local(nodelist, z, k), Local(nodelist, x, k)))
    ensures fzElem[..8 * k + 8] ==
            old(fzElem[..8 * k]) + NodeForces(stressZ, NodeNormals(Local(nodelist, x, k), Local(nodelist, y, k)))
  {
    hide NodeForces, NodeNormals, Local;
    var xLocal := Collect(nodelist, x, k);
    var yLocal := Collect(nodelist, y, k);
    var zLocal := Collect(nodelist, z, k);
    var nx, ny, nz := new real[8], new real[8], new real[8];
    CalcElemNodeNormals(nx, ny, nz, xLocal, yLocal, zLocal);
    StoreForces(nx, stressX, fxElem, k);
    StoreForces(ny, stressY, fyElem, k);
    StoreForces(nz, stressZ, fzElem, k);
  }

  /** The first kernel: the forces at the corners of every element. */
  method ForcesOfElements(nodelist: seq<nat>, numElem: nat, numNode: nat, x: seq<real>, y: seq<real>, z: seq<real>,
                          sigxx: seq<real>, sigyy: seq<real>, sigzz: seq<real>)
    returns (fxElem: array<real>, fyElem: array<real>, fzElem: array<real>)
    requires Mesh(nodelist, numElem, numNode) && |x| == |y| == |z| == numNode
    requires |sigxx| == |sigyy| == |sigzz| == numElem
    ensures fresh(fxElem) && fresh(fyElem) && fresh(fzElem)
    ensures fxElem[..] == CornerForces(nodelist, y, z, sigxx, numElem)
    ensures fyElem[..] == CornerForces(nodelist, z, x, sigyy, numElem)
    ensures fzElem[..] == CornerForces(nodelist, x, y, sigzz, numElem)
  {
    hide NodeForces, NodeNormals, Local, CornerForces;
    CornerForcesStart(nodelist, y, z, sigxx);
    CornerForcesStart(nodelist, z, x, sigyy);
    CornerForcesStart(nodelist, x, y, sigzz);
    fxElem, fyElem, fzElem := new real[8 * numElem], new real[8 * numElem], new real[8 * numElem];
    for k := 0 to numElem
      invariant fxElem[..8 * k] == CornerForces(nodelist, y, z, sigxx, k)
      invariant fyElem[..8 * k] == CornerForces(nodelist, z, x, sigyy, k)
      invariant fzElem[..8 * k] == CornerForces(nodelist, x, y, sigzz, k)
    {
      CornerForcesStep(nodelist, y, z, sigxx, k);
      CornerForcesStep(nodelist, z, x, sigyy, k);
      CornerForcesStep(nodelist, x, y, sigzz, k);
      ForcesOfElement(nodelist, k, x, y, z, sigxx[k], sigyy[k], sigzz[k], fxElem, fyElem, fzElem);
    }
    assert fxElem[..] == fxElem[..8 * numElem];
    assert fyElem[..] == fyElem[..8 * numElem];
    assert fzElem[..] == fzElem[..8 * numElem];
  }

  /** `IntegrateStressForElems`. Whatever the positions and the stresses, it moves force between the nodes without
      adding any in all; and every node gets, for each corner that lies at it, minus the stress of the element times the
      area of the element's three faces there. */
  method IntegrateStressForElems(nodelist: seq<nat>, numElem: nat, numNode: nat, start: array<nat>, corners: array<nat>,
                                 x: seq<real>, y: seq<real>, z: seq<real>,
                                 sigxx: seq<real>, sigyy: seq<real>, sigzz: seq<real>,
                                 fx: array<real>, fy: array<real>, fz: array<real>)
    requires Mesh(nodelist, numElem, numNode) && |x| == |y| == |z| == numNode
    requires |sigxx| == |sigyy| == |sigzz| == numElem
    requires fx.Length == fy.Length == fz.Length == numNode && fx != fy && fx != fz && fy != fz
    requires IsIndex(nodelist, numNode, start[..], corners[..])
    modifies fx, fy, fz
    ensures Total(fx[..]) == Total(old(fx[..])) && Total(fy[..]) == Total(old(fy[..]))
            && Total(fz[..]) == Total(old(fz[..]))
    ensures forall m :: 0 <= m < numNode ==>
              && fx[m] == old(fx[m]) + ForceAt(nodelist, y, z, sigxx, m, |nodelist|)
              && fy[m] == old(fy[m]) + ForceAt(nodelist, z, x, sigyy, m, |nodelist|)
              && fz[m] == old(fz[m]) + ForceAt(nodelist, x, y, sigzz, m, |nodelist|)
  {
    hide Total, CornerForces, Gathered, ForceAt, IsIndex;
    forall m: nat
      ensures Gathered(nodelist, CornerForces(nodelist, y, z, sigxx, numElem), m) ==
              ForceAt(nodelist, y, z, sigxx, m, |nodelist|)
      ensures Gathered(nodelist, CornerForces(nodelist, z, x, sigyy, numElem), m) ==
              ForceAt(nodelist, z, x, sigyy, m, |nodelist|)
      ensures Gathered(nodelist, CornerForces(nodelist, x, y, sigzz, numElem), m) ==
              ForceAt(nodelist, x, y, sigzz, m, |nodelist|)
    {
      GatheredForce(nodelist, y, z, sigxx, m);
      GatheredForce(nodelist, z, x, sigyy, m);
      GatheredForce(nodelist, x, y, sigzz, m);
    }
    var fxElem, fyElem, fzElem := ForcesOfElements(nodelist, numElem, numNode, x, y, z, sigxx, sigyy, sigzz);
    Gather(nodelist, numNode, start, corners, fxElem[..], fx);
    Gather(nodelist, numNode, start, corners, fyElem[..], fy);
    Gather(nodelist, numNode, start, corners, fzElem[..], fz);
    ghost var fx0, fy0, fz0 := old(fx[..]), old(fy[..]), old(fz[..]);
    TotalIsKept(fx0, fx[..], nodelist, fxElem[..]);
    TotalIsKept(fy0, fy[..], nodelist, fyElem[..]);
    TotalIsKept(fz0, fz[..], nodelist, fzElem[..]);
    NoNetForce(nodelist, y, z, sigxx, numElem);
    NoNetForce(nodelist, z, x, sigyy, numElem);
    NoNetForce(nodelist, x, y, sigzz, numElem);
  }
}
