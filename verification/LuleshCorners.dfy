/**
  The node-to-corner index of the LULESH mesh, and the two ways of adding element corners to nodes that rest on it:
  every node gathering its own corners, or every corner being added to its node atomically.

  A node list names the node of every corner; corner `8 * i + j` is corner `j` of element `i`.
 */
module LuleshCorners {
  import opened Division
  import opened Multisets

  predicate Mesh(nodelist: seq<nat>, numElem: nat, numNode: nat) {
    |nodelist| == 8 * numElem && forall k :: 0 <= k < |nodelist| ==> nodelist[k] < numNode
  }

  /** The corners of node `m`, in increasing order. */
  function CornersOf(nodelist: seq<nat>, m: nat): (corners: seq<nat>)
    ensures |corners| <= |nodelist|
    ensures forall i :: 0 <= i < |corners| ==> corners[i] < |nodelist|
  {
    if nodelist == [] then []
    else
      var n := |nodelist| - 1;
      CornersOf(nodelist[..n], m) + if nodelist[n] == m then [n] else []
  }

  /** The list has every corner of the node, each once, and nothing else. */
  lemma {:induction false} CornersOfIsExact(nodelist: seq<nat>, m: nat)
    ensures forall i, j :: 0 <= i < j < |CornersOf(nodelist, m)| ==>
            CornersOf(nodelist, m)[i] < CornersOf(nodelist, m)[j]
    ensures forall k :: k in CornersOf(nodelist, m) <==> 0 <= k < |nodelist| && nodelist[k] == m
  {
    if nodelist != [] {
      CornersOfIsExact(nodelist[..|nodelist| - 1], m);
    }
  }

  /** The number of corners that lie at nodes before `m`. */
  function CornersBelow(nodelist: seq<nat>, m: nat): nat {
    if m == 0 then 0 else CornersBelow(nodelist, m - 1) + |CornersOf(nodelist, m - 1)|
  }

  lemma CornersSnoc(nodelist: seq<nat>, v: nat, m: nat)
    ensures CornersOf(nodelist + [v], m) == CornersOf(nodelist, m) + if v == m then [|nodelist|] else []
  {
    assert (nodelist + [v])[..|nodelist|] == nodelist;
  }

  lemma {:induction false} CornersBelowSnoc(nodelist: seq<nat>, v: nat, m: nat)
    ensures CornersBelow(nodelist + [v], m) == CornersBelow(nodelist, m) + if v < m then 1 else 0
  {
    hide CornersOf;
    if m > 0 {
      CornersBelowSnoc(nodelist, v, m - 1);
      CornersSnoc(nodelist, v, m - 1);
    }
  }

  lemma {:induction false} NoCornersBelow(m: nat)
    ensures CornersBelow([], m) == 0
  {
    if m > 0 { NoCornersBelow(m - 1); }
  }

  /** Every corner lies at some node, so the lists of all nodes together have as many entries as there are corners. */
  lemma {:induction false} EveryCornerHasANode(nodelist: seq<nat>, numNode: nat)
    requires forall k :: 0 <= k < |nodelist| ==> nodelist[k] < numNode
    ensures CornersBelow(nodelist, numNode) == |nodelist|
  {
    hide CornersBelow;
    if nodelist == [] {
      NoCornersBelow(numNode);
    } else {
      var n := |nodelist| - 1;
      EveryCornerHasANode(nodelist[..n], numNode);
      assert nodelist == nodelist[..n] + [nodelist[n]];
      CornersBelowSnoc(nodelist[..n], nodelist[n], numNode);
    }
  }

  lemma {:induction false} BelowGrows(nodelist: seq<nat>, m: nat, n: nat)
    requires m < n
    ensures CornersBelow(nodelist, m) + |CornersOf(nodelist, m)| <= CornersBelow(nodelist, n)
  {
    hide CornersOf;
    if m < n - 1 { BelowGrows(nodelist, m, n - 1); }
  }

  /** The corners among the first `k` are the first of the list. */
  lemma {:induction false} PrefixCorners(nodelist: seq<nat>, k: nat, m: nat)
    requires k <= |nodelist|
    ensures CornersOf(nodelist[..k], m) <= CornersOf(nodelist, m)
    decreases |nodelist| - k
  {
    hide CornersOf;
    if k == |nodelist| {
      assert nodelist[..k] == nodelist;
    } else {
      PrefixCorners(nodelist, k + 1, m);
      assert nodelist[..k + 1] == nodelist[..k] + [nodelist[k]];
      CornersSnoc(nodelist[..k], nodelist[k], m);
    }
  }

  // ----- building the index -----

  method CountCorners(nodelist: seq<nat>, numElem: nat, numNode: nat) returns (count: array<nat>)
    requires Mesh(nodelist, numElem, numNode)
    ensures fresh(count) && count.Length == numNode
    ensures forall m :: 0 <= m < numNode ==> count[m] == |CornersOf(nodelist, m)|
  {
    hide CornersOf;
    count := new nat[numNode](_ => 0);
    NoCorners();
    for i := 0 to numElem
      invariant forall m :: 0 <= m < numNode ==> count[m] == |CornersOf(nodelist[..8 * i], m)|
    {
      for j := 0 to 8
        invariant forall m :: 0 <= m < numNode ==> count[m] == |CornersOf(nodelist[..8 * i + j], m)|
      {
        var k := 8 * i + j;
        NextCorner(nodelist, k);
        count[nodelist[k]] := count[nodelist[k]] + 1;
      }
    }
    assert nodelist[..8 * numElem] == nodelist;
  }

  lemma NoCorners()
    ensures forall m: nat :: CornersOf([], m) == []
  {}

  lemma NextCorner(nodelist: seq<nat>, k: nat)
    requires k < |nodelist|
    ensures forall m: nat :: CornersOf(nodelist[..k + 1], m) ==
              CornersOf(nodelist[..k], m) + if nodelist[k] == m then [k] else []
  {
    hide CornersOf;
    assert nodelist[..k + 1] == nodelist[..k] + [nodelist[k]];
    forall m: nat { CornersSnoc(nodelist[..k], nodelist[k], m); }
  }

  method StartOffsets(ghost nodelist: seq<nat>, numNode: nat, count: array<nat>) returns (start: array<nat>)
    requires count.Length == numNode
    requires forall m :: 0 <= m < numNode ==> count[m] == |CornersOf(nodelist, m)|
    ensures fresh(start) && start.Length == numNode + 1
    ensures forall m :: 0 <= m <= numNode ==> start[m] == CornersBelow(nodelist, m)
  {
    hide CornersOf;
    start := new nat[numNode + 1];
    start[0] := 0;
    for i := 1 to numNode + 1
      invariant forall m :: 0 <= m < i ==> start[m] == CornersBelow(nodelist, m)
    {
      start[i] := start[i - 1] + count[i - 1];
    }
  }

  /** After the first `k` corners every node's slice begins with its corners among them. */
  ghost predicate Filled(nodelist: seq<nat>, k: nat, numNode: nat, corners: seq<nat>) {
    k <= |nodelist| == |corners| == CornersBelow(nodelist, numNode) &&
    forall m :: 0 <= m < numNode ==>
      CornersBelow(nodelist, m) + |CornersOf(nodelist[..k], m)| <= |corners| &&
      corners[CornersBelow(nodelist, m)..][..|CornersOf(nodelist[..k], m)|] == CornersOf(nodelist[..k], m)
  }

  lemma FillStarts(nodelist: seq<nat>, numNode: nat, corners: seq<nat>)
    requires forall k :: 0 <= k < |nodelist| ==> nodelist[k] < numNode
    requires |corners| == |nodelist|
    ensures Filled(nodelist, 0, numNode, corners)
  {
    hide CornersOf, CornersBelow;
    EveryCornerHasANode(nodelist, numNode);
    NoCorners();
    assert nodelist[..0] == [];
    forall m | 0 <= m < numNode ensures CornersBelow(nodelist, m) <= |corners| { BelowGrows(nodelist, m, numNode); }
  }

  /** The place for corner `k` lies in the slice of its own node, behind the corners already there. */
  lemma PlaceOfCorner(nodelist: seq<nat>, k: nat, numNode: nat)
    requires k < |nodelist| && nodelist[k] < numNode
    ensures CornersBelow(nodelist, nodelist[k]) + |CornersOf(nodelist[..k], nodelist[k])|
            < CornersBelow(nodelist, nodelist[k]) + |CornersOf(nodelist, nodelist[k])|
            <= CornersBelow(nodelist, numNode)
  {
    hide CornersOf, CornersBelow;
    NextCorner(nodelist, k);
    PrefixCorners(nodelist, k + 1, nodelist[k]);
    BelowGrows(nodelist, nodelist[k], numNode);
  }

  lemma FillStep(nodelist: seq<nat>, k: nat, numNode: nat, corners: seq<nat>, offset: nat)
    requires k < |nodelist| && nodelist[k] < numNode && Filled(nodelist, k, numNode, corners)
    requires offset == CornersBelow(nodelist, nodelist[k]) + |CornersOf(nodelist[..k], nodelist[k])| < |corners|
    ensures Filled(nodelist, k + 1, numNode, corners[offset := k])
  {
    hide CornersOf, CornersBelow;
    NextCorner(nodelist, k);
    PlaceOfCorner(nodelist, k, numNode);
    var after, owner := corners[offset := k], nodelist[k];
    forall m | 0 <= m < numNode
      ensures CornersBelow(nodelist, m) + |CornersOf(nodelist[..k + 1], m)| <= |after|
      ensures after[CornersBelow(nodelist, m)..][..|CornersOf(nodelist[..k + 1], m)|] == CornersOf(nodelist[..k + 1], m)
    {
      var first, had := CornersBelow(nodelist, m), CornersOf(nodelist[..k], m);
      assert corners[first..][..|had|] == had;
      if m == owner {
        assert after[first..][..|had| + 1] == corners[first..][..|had|] + [k];
      } else {
        PrefixCorners(nodelist, k, m);
        if m < owner { BelowGrows(nodelist, m, owner); } else { BelowGrows(nodelist, owner, m); }
        assert after[first..][..|had|] == corners[first..][..|had|];
      }
    }
  }

  /** The finished index: node `m` has its own corners, in increasing order, in its slice. */
  ghost predicate IsIndex(nodelist: seq<nat>, numNode: nat, start: seq<nat>, corners: seq<nat>) {
    && |start| == numNode + 1 && start[0] == 0 && start[numNode] == |corners| == |nodelist|
    && (forall m, n :: 0 <= m <= n <= numNode ==> start[m] <= start[n])
    && forall m, n :: 0 <= m < numNode && n == m + 1 ==> corners[start[m]..start[n]] == CornersOf(nodelist, m)
  }

  lemma NextStart(nodelist: seq<nat>, m: nat)
    ensures CornersBelow(nodelist, m + 1) == CornersBelow(nodelist, m) + |CornersOf(nodelist, m)|
    ensures CornersBelow(nodelist, 0) == 0
  {}

  lemma StartsGrow(nodelist: seq<nat>, numNode: nat, start: seq<nat>)
    requires |start| == numNode + 1
    requires forall m :: 0 <= m <= numNode ==> start[m] == CornersBelow(nodelist, m)
    ensures start[0] == 0
    ensures forall m, n :: 0 <= m <= n <= numNode ==> start[m] <= start[n]
  {
    hide CornersOf, CornersBelow;
    NextStart(nodelist, 0);
    forall m, n | 0 <= m <= n <= numNode ensures start[m] <= start[n] {
      if m < n { BelowGrows(nodelist, m, n); }
    }
  }

  lemma FilledIsIndex(nodelist: seq<nat>, numNode: nat, start: seq<nat>, corners: seq<nat>)
    requires Filled(nodelist, |nodelist|, numNode, corners)
    requires |start| == numNode + 1
    requires forall m :: 0 <= m <= numNode ==> start[m] == CornersBelow(nodelist, m)
    ensures IsIndex(nodelist, numNode, start, corners)
  {
    hide CornersOf, CornersBelow;
    assert nodelist[..|nodelist|] == nodelist;
    StartsGrow(nodelist, numNode, start);
    forall m, n | 0 <= m < numNode && n == m + 1 ensures corners[start[m]..start[n]] == CornersOf(nodelist, m) {
      NextStart(nodelist, m);
      assert corners[start[m]..start[n]] == corners[start[m]..][..|CornersOf(nodelist, m)|];
    }
  }

  /** `SetupThreadSupportStructures`. The range check at the end never fails. */
  method SetupThreadSupportStructures(nodelist: seq<nat>, numElem: nat, numNode: nat)
    returns (start: array<nat>, corners: array<nat>, inRange: bool)
    requires Mesh(nodelist, numElem, numNode)
    ensures IsIndex(nodelist, numNode, start[..], corners[..])
    ensures inRange
  {
    hide CornersOf, CornersBelow, Filled, IsIndex;
    var count := CountCorners(nodelist, numElem, numNode);
    start := StartOffsets(nodelist, numNode, count);
    EveryCornerHasANode(nodelist, numNode);
    corners := new nat[start[numNode]];
    ghost var starts := start[..];
    for i := 0 to numNode
      invariant forall m :: 0 <= m < i ==> count[m] == 0
      invariant start[..] == starts
    {
      count[i] := 0;
    }
    NoCorners();
    assert nodelist[..0] == [];
    FillStarts(nodelist, numNode, corners[..]);
    for i := 0 to numElem
      invariant forall m :: 0 <= m < numNode ==> count[m] == |CornersOf(nodelist[..8 * i], m)|
      invariant start[..] == starts && Filled(nodelist, 8 * i, numNode, corners[..])
    {
      for j := 0 to 8
        invariant forall m :: 0 <= m < numNode ==> count[m] == |CornersOf(nodelist[..8 * i + j], m)|
        invariant start[..] == starts && Filled(nodelist, 8 * i + j, numNode, corners[..])
      {
        var m, k := nodelist[8 * i + j], 8 * i + j;
        var offset := start[m] + count[m];
        PlaceOfCorner(nodelist, k, numNode);
        NextCorner(nodelist, k);
        FillStep(nodelist, k, numNode, corners[..], offset);
        ghost var before := corners[..];
        corners[offset] := k;
        assert corners[..] == before[offset := k];
        count[m] := count[m] + 1;
      }
    }
    forall m | 0 <= m <= numNode ensures start[..][m] == CornersBelow(nodelist, m) { assert start[..][m] == starts[m]; }
    FilledIsIndex(nodelist, numNode, start[..], corners[..]);
    CornersInRange(nodelist, numNode, start[..], corners[..]);
    inRange := true;
    for i := 0 to start[numNode]
      invariant inRange
    {
      if corners[i] < 0 || corners[i] > numElem * 8 {
        inRange := false;
      }
    }
  }

  /** Every position of the corner list belongs to the slice of one node. */
  lemma {:induction false} SliceOf(start: seq<nat>, numNode: nat, i: nat) returns (m: nat)
    requires |start| == numNode + 1 && start[0] == 0 && i < start[numNode]
    requires forall m, n :: 0 <= m <= n <= numNode ==> start[m] <= start[n]
    ensures m < numNode && start[m] <= i < start[m + 1]
  {
    m := numNode - 1;
    while start[m] > i
      invariant m < numNode && i < start[m + 1]
      decreases m
    {
      m := m - 1;
    }
  }

  lemma CornersInRange(nodelist: seq<nat>, numNode: nat, start: seq<nat>, corners: seq<nat>)
    requires IsIndex(nodelist, numNode, start, corners)
    ensures forall i :: 0 <= i < |corners| ==> corners[i] < |nodelist|
  {
    hide CornersOf;
    forall i | 0 <= i < |corners| ensures corners[i] < |nodelist| {
      var m := SliceOf(start, numNode, i);
      var n := m + 1;
      assert corners[start[m]..start[n]] == CornersOf(nodelist, m);
      assert corners[i] == CornersOf(nodelist, m)[i - start[m]];
    }
  }

  // ----- sums over corners -----

  predicate AllBelow(ks: seq<nat>, n: nat) {
    forall i :: 0 <= i < |ks| ==> ks[i] < n
  }

  /** The sum of the values at the listed corners. */
  function SumAt(ks: seq<nat>, f: seq<real>): real
    requires AllBelow(ks, |f|)
  {
    if ks == [] then 0.0 else SumAt(ks[..|ks| - 1], f) + f[ks[|ks| - 1]]
  }

  lemma SumSnoc(ks: seq<nat>, k: nat, f: seq<real>)
    requires AllBelow(ks, |f|) && k < |f|
    ensures AllBelow(ks + [k], |f|) && SumAt(ks + [k], f) == SumAt(ks, f) + f[k]
  {
    assert (ks + [k])[..|ks|] == ks;
  }

  lemma {:induction false} SumWithout(ks: seq<nat>, f: seq<real>, j: nat)
    requires AllBelow(ks, |f|) && j < |ks|
    ensures AllBelow(Without(ks, j), |f|)
    ensures SumAt(ks, f) == SumAt(Without(ks, j), f) + f[ks[j]]
    decreases |ks|
  {
    hide SumAt;
    var n := |ks| - 1;
    var front := ks[..n];
    assert ks == front + [ks[n]];
    SumSnoc(front, ks[n], f);
    if j == n {
      assert Without(ks, j) == front;
    } else {
      SumWithout(front, f, j);
      SumSnoc(Without(front, j), ks[n], f);
      WithoutInFront(ks, j);
    }
  }

  /** A sum does not depend on the order in which the corners are added. */
  lemma {:induction false} SumInAnyOrder(ks: seq<nat>, ls: seq<nat>, f: seq<real>)
    requires AllBelow(ks, |f|) && AllBelow(ls, |f|) && multiset(ks) == multiset(ls)
    ensures SumAt(ks, f) == SumAt(ls, f)
    decreases |ks|
  {
    if ks == [] {
      assert |ls| == |multiset(ls)| == 0;
    } else {
      var n := |ks| - 1;
      assert ks == ks[..n] + [ks[n]];
      assert ks[n] in multiset(ls);
      var j :| 0 <= j < |ls| && ls[j] == ks[n];
      var rest := Without(ls, j);
      MultisetWithout(ls, j);
      Cancel(multiset(rest), multiset(ks[..n]), ks[n]);
      SumWithout(ls, f, j);
      SumInAnyOrder(ks[..n], rest, f);
    }
  }

  // ----- gather and scatter -----

  /** What both ways of adding must leave at node `m`. */
  function Gathered(nodelist: seq<nat>, f: seq<real>, m: nat): real
    requires |f| == |nodelist|
  {
    SumAt(CornersOf(nodelist, m), f)
  }

  /** The same as a plain sum over the first `c` corners of the mesh, each taken when it lies at the node. */
  function NodeSum(nodelist: seq<nat>, f: seq<real>, m: nat, c: nat): real
    requires c <= |nodelist| == |f|
  {
    if c == 0 then 0.0 else NodeSum(nodelist, f, m, c - 1) + if nodelist[c - 1] == m then f[c - 1] else 0.0
  }

  lemma {:induction false} PrefixIsNodeSum(nodelist: seq<nat>, f: seq<real>, m: nat, c: nat)
    requires c <= |nodelist| == |f|
    ensures AllBelow(CornersOf(nodelist[..c], m), |f|)
    ensures SumAt(CornersOf(nodelist[..c], m), f) == NodeSum(nodelist, f, m, c)
  {
    if c > 0 {
      var before := CornersOf(nodelist[..c - 1], m);
      PrefixIsNodeSum(nodelist, f, m, c - 1);
      assert nodelist[..c] == nodelist[..c - 1] + [nodelist[c - 1]];
      CornersSnoc(nodelist[..c - 1], nodelist[c - 1], m);
      SumSnoc(before, c - 1, f);
      assert before + [] == before;
    }
  }

  lemma GatheredIsNodeSum(nodelist: seq<nat>, f: seq<real>, m: nat)
    requires |f| == |nodelist|
    ensures Gathered(nodelist, f, m) == NodeSum(nodelist, f, m, |nodelist|)
  {
    PrefixIsNodeSum(nodelist, f, m, |nodelist|);
    assert nodelist[..|nodelist|] == nodelist;
  }

  /** Every node gathers the corners of its slice: the second kernel of `IntegrateStressForElems` and
      `CalcFBHourglassForceForElems`. */
  method Gather(ghost nodelist: seq<nat>, numNode: nat, start: array<nat>, corners: array<nat>, f: seq<real>,
                fx: array<real>)
    requires |f| == |nodelist| && fx.Length == numNode
    requires IsIndex(nodelist, numNode, start[..], corners[..])
    modifies fx
    ensures forall m :: 0 <= m < numNode ==> fx[m] == old(fx[m]) + Gathered(nodelist, f, m)
  {
    hide CornersOf, SumAt;
    CornersInRange(nodelist, numNode, start[..], corners[..]);
    for gnode := 0 to numNode
      invariant forall m :: 0 <= m < gnode ==> fx[m] == old(fx[m]) + Gathered(nodelist, f, m)
      invariant forall m :: gnode <= m < numNode ==> fx[m] == old(fx[m])
    {
      var count := start[gnode + 1] - start[gnode];
      ghost var mine := CornersOf(nodelist, gnode);
      SliceIsCorners(nodelist, numNode, start[..], corners[..], gnode);
      EmptySum(f);
      var tmp := 0.0;
      ghost var was := fx[..];
      for i := 0 to count
        invariant fx[..] == was
        invariant tmp == SumAt(mine[..i], f)
      {
        var elem := corners[start[gnode] + i];
        assert mine[..i + 1] == mine[..i] + [elem];
        SumSnoc(mine[..i], elem, f);
        tmp := tmp + f[elem];
      }
      assert mine[..count] == mine;
      assert tmp == Gathered(nodelist, f, gnode);
      fx[gnode] := fx[gnode] + tmp;
      assert fx[..] == was[gnode := was[gnode] + tmp];
    }
  }

  lemma EmptySum(f: seq<real>)
    ensures SumAt([], f) == 0.0
  {}

  lemma SliceIsCorners(nodelist: seq<nat>, numNode: nat, start: seq<nat>, corners: seq<nat>, m: nat)
    requires IsIndex(nodelist, numNode, start, corners) && m < numNode
    ensures start[m] <= start[m + 1] <= |corners| && |CornersOf(nodelist, m)| == start[m + 1] - start[m]
    ensures forall i :: 0 <= i < start[m + 1] - start[m] ==> corners[start[m] + i] == CornersOf(nodelist, m)[i]
  {
    hide CornersOf;
    var n := m + 1;
    var slice := corners[start[m]..start[n]];
    assert slice == CornersOf(nodelist, m);
    forall i | 0 <= i < start[n] - start[m] ensures corners[start[m] + i] == CornersOf(nodelist, m)[i] {
      assert slice[i] == corners[start[m] + i];
    }
  }

  function Iota(n: nat): (s: seq<nat>)
    ensures |s| == n && forall i :: 0 <= i < n ==> s[i] == i
  {
    seq(n, i requires 0 <= i < n => i)
  }

  /** Some order in which all corners take their turn. */
  ghost predicate AnyOrder(order: seq<nat>, n: nat) {
    multiset(order) == multiset(Iota(n))
  }

  lemma OrderStaysBelow(order: seq<nat>, n: nat)
    requires AnyOrder(order, n)
    ensures AllBelow(order, n)
  {
    forall i | 0 <= i < |order| ensures order[i] < n {
      assert order[i] in multiset(order);
      assert order[i] in Iota(n);
    }
  }

  /** The corners of `order` that lie at node `m`, in that order. */
  function Select(order: seq<nat>, nodelist: seq<nat>, m: nat): (mine: seq<nat>)
    requires AllBelow(order, |nodelist|)
    ensures AllBelow(mine, |nodelist|)
  {
    if order == [] then []
    else
      var k := order[|order| - 1];
      Select(order[..|order| - 1], nodelist, m) + if nodelist[k] == m then [k] else []
  }

  lemma SelectSnoc(order: seq<nat>, k: nat, nodelist: seq<nat>, m: nat)
    requires AllBelow(order, |nodelist|) && k < |nodelist|
    ensures AllBelow(order + [k], |nodelist|)
    ensures Select(order + [k], nodelist, m) == Select(order, nodelist, m) + if nodelist[k] == m then [k] else []
  {
    assert (order + [k])[..|order|] == order;
  }

  lemma {:induction false} SelectCounts(order: seq<nat>, nodelist: seq<nat>, m: nat, k: nat)
    requires AllBelow(order, |nodelist|)
    ensures multiset(Select(order, nodelist, m))[k] ==
            if k < |nodelist| && nodelist[k] == m then multiset(order)[k] else 0
  {
    if order != [] {
      var n := |order| - 1;
      SelectCounts(order[..n], nodelist, m, k);
      assert order == order[..n] + [order[n]];
      assert multiset(order) == multiset(order[..n]) + multiset{order[n]};
    }
  }

  lemma {:induction false} SelectInOrderIsCorners(nodelist: seq<nat>, n: nat, m: nat)
    requires n <= |nodelist|
    ensures AllBelow(Iota(n), |nodelist|)
    ensures Select(Iota(n), nodelist, m) == CornersOf(nodelist[..n], m)
  {
    if n > 0 {
      SelectInOrderIsCorners(nodelist, n - 1, m);
      assert Iota(n) == Iota(n - 1) + [n - 1];
      SelectSnoc(Iota(n - 1), n - 1, nodelist, m);
      NextCorner(nodelist, n - 1);
    }
  }

  /** Whatever the order, the corners that reach a node are exactly those its slice lists. */
  lemma ScatterReachesTheSameCorners(order: seq<nat>, nodelist: seq<nat>, m: nat)
    requires AnyOrder(order, |nodelist|)
    ensures AllBelow(order, |nodelist|)
    ensures multiset(Select(order, nodelist, m)) == multiset(CornersOf(nodelist, m))
  {
    hide Select, CornersOf;
    OrderStaysBelow(order, |nodelist|);
    SelectInOrderIsCorners(nodelist, |nodelist|, m);
    assert nodelist[..|nodelist|] == nodelist;
    forall k: nat
      ensures multiset(Select(order, nodelist, m))[k] == multiset(CornersOf(nodelist, m))[k]
    {
      SelectCounts(order, nodelist, m, k);
      SelectCounts(Iota(|nodelist|), nodelist, m, k);
    }
  }

  /** Every corner is added to its node atomically; threads take their turns in any order. */
  method AtomicScatter(nodelist: seq<nat>, numNode: nat, order: seq<nat>, f: seq<real>, fx: array<real>)
    requires |f| == |nodelist| && fx.Length == numNode && AnyOrder(order, |nodelist|)
    requires forall k :: 0 <= k < |nodelist| ==> nodelist[k] < numNode
    modifies fx
    ensures forall m :: 0 <= m < numNode ==> fx[m] == old(fx[m]) + Gathered(nodelist, f, m)
  {
    hide CornersOf, Select, SumAt;
    OrderStaysBelow(order, |nodelist|);
    EmptySum(f);
    NothingSelected(nodelist);
    assert order[..0] == [];
    for n := 0 to |order|
      invariant forall m :: 0 <= m < numNode ==> fx[m] == old(fx[m]) + SumAt(Select(order[..n], nodelist, m), f)
    {
      assert order[..n + 1] == order[..n] + [order[n]];
      var k := order[n];
      forall m | 0 <= m < numNode
        ensures SumAt(Select(order[..n + 1], nodelist, m), f) ==
                SumAt(Select(order[..n], nodelist, m), f) + if nodelist[k] == m then f[k] else 0.0
      {
        var mine := Select(order[..n], nodelist, m);
        SelectSnoc(order[..n], k, nodelist, m);
        SumSnoc(mine, k, f);
        assert mine + [] == mine;
      }
      fx[nodelist[k]] := fx[nodelist[k]] + f[k];
    }
    assert order[..|order|] == order;
    forall m | 0 <= m < numNode ensures SumAt(Select(order, nodelist, m), f) == Gathered(nodelist, f, m) {
      ScatterReachesTheSameCorners(order, nodelist, m);
      SumInAnyOrder(Select(order, nodelist, m), CornersOf(nodelist, m), f);
    }
  }

  lemma NothingSelected(nodelist: seq<nat>)
    ensures forall m: nat :: Select([], nodelist, m) == []
  {}

  // ----- totals -----

  function Total(f: seq<real>): real {
    if f == [] then 0.0 else Total(f[..|f| - 1]) + f[|f| - 1]
  }

  /** What the first `n` nodes gather. */
  function GatheredByFirst(nodelist: seq<nat>, f: seq<real>, n: nat): real
    requires |f| == |nodelist|
  {
    if n == 0 then 0.0 else GatheredByFirst(nodelist, f, n - 1) + Gathered(nodelist, f, n - 1)
  }

  lemma {:induction false} SumAtPrefix(ks: seq<nat>, f: seq<real>, g: seq<real>)
    requires AllBelow(ks, |f|) && f <= g
    ensures SumAt(ks, f) == SumAt(ks, g)
  {
    if ks != [] { SumAtPrefix(ks[..|ks| - 1], f, g); }
  }

  lemma {:induction false} OneMoreCorner(nodelist: seq<nat>, v: nat, f: seq<real>, x: real, n: nat)
    requires |f| == |nodelist|
    ensures GatheredByFirst(nodelist + [v], f + [x], n) ==
            GatheredByFirst(nodelist, f, n) + if v < n then x else 0.0
  {
    hide CornersOf, SumAt;
    if n > 0 {
      OneMoreCorner(nodelist, v, f, x, n - 1);
      CornersSnoc(nodelist, v, n - 1);
      var mine := CornersOf(nodelist, n - 1);
      SumAtPrefix(mine, f, f + [x]);
      SumSnoc(mine, |nodelist|, f + [x]);
      assert mine + [] == mine;
    }
  }

  lemma {:induction false} NothingGathered(n: nat)
    ensures GatheredByFirst([], [], n) == 0.0
  {
    if n > 0 { NothingGathered(n - 1); }
  }

  /** All nodes together gather the total of all corners: nothing is lost or counted twice. */
  lemma {:induction false} NodesGatherEverything(nodelist: seq<nat>, f: seq<real>, numNode: nat)
    requires |f| == |nodelist| && forall k :: 0 <= k < |nodelist| ==> nodelist[k] < numNode
    ensures GatheredByFirst(nodelist, f, numNode) == Total(f)
  {
    hide GatheredByFirst;
    if nodelist == [] {
      NothingGathered(numNode);
    } else {
      var n := |nodelist| - 1;
      NodesGatherEverything(nodelist[..n], f[..n], numNode);
      assert nodelist == nodelist[..n] + [nodelist[n]] && f == f[..n] + [f[n]];
      OneMoreCorner(nodelist[..n], nodelist[n], f[..n], f[n], numNode);
    }
  }

  lemma {:induction false} TotalOfSums(before: seq<real>, after: seq<real>, nodelist: seq<nat>, f: seq<real>)
    requires |before| == |after| && |f| == |nodelist|
    requires forall m :: 0 <= m < |before| ==> after[m] == before[m] + Gathered(nodelist, f, m)
    ensures Total(after) == Total(before) + GatheredByFirst(nodelist, f, |before|)
  {
    hide Gathered;
    if before != [] {
      var n := |before| - 1;
      TotalOfSums(before[..n], after[..n], nodelist, f);
    }
  }

  /** Adding corners to nodes, by either way, changes the total over the nodes by the total over the corners. */
  lemma TotalIsKept(before: seq<real>, after: seq<real>, nodelist: seq<nat>, f: seq<real>)
    requires |before| == |after| && |f| == |nodelist|
    requires forall k :: 0 <= k < |nodelist| ==> nodelist[k] < |before|
    requires forall m :: 0 <= m < |before| ==> after[m] == before[m] + Gathered(nodelist, f, m)
    ensures Total(after) == Total(before) + Total(f)
  {
    hide *;
    TotalOfSums(before, after, nodelist, f);
    NodesGatherEverything(nodelist, f, |before|);
  }
}
