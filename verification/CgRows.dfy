/**
  One row of the matrix that `sparse` assembles in the CG benchmark: cells in strictly
  increasing column order, kept in a range of slots of the arrays `a` and `colidx`.
  Slots behind the occupied ones hold column -1 and value 0.
 */
module CgRows {

  datatype Cell = Cell(col: int, val: real)

  predicate Sorted(row: seq<Cell>) {
    && (forall k :: 0 <= k < |row| ==> 0 <= row[k].col)
    && forall j, k :: 0 <= j < k < |row| ==> row[j].col < row[k].col
  }

  predicate HasColumn(row: seq<Cell>, c: int) {
    exists k :: 0 <= k < |row| && row[k].col == c
  }

  /** The value a row has at a column: the sum of its cells there. */
  function ValueAt(row: seq<Cell>, c: int): real {
    if row == [] then 0.0
    else (if row[0].col == c then row[0].val else 0.0) + ValueAt(row[1..], c)
  }

  /** Adds `va` at column `c`: into the cell that is there, or into a new cell at its place. */
  function Insert(row: seq<Cell>, c: int, va: real): (row': seq<Cell>)
    decreases |row|
  {
    if row == [] then [Cell(c, va)]
    else if row[0].col > c then [Cell(c, va)] + row
    else if row[0].col == c then [Cell(c, row[0].val + va)] + row[1..]
    else [row[0]] + Insert(row[1..], c, va)
  }

  /** The first position whose column is not below `c`. */
  function Place(row: seq<Cell>, c: int): (k: nat)
    ensures k <= |row|
    ensures forall m :: 0 <= m < k ==> row[m].col < c
    ensures k < |row| ==> row[k].col >= c
  {
    if row == [] || row[0].col >= c then 0 else Place(row[1..], c) + 1
  }

  /** `Insert`, spelled out at the place it acts on. */
  function InsertAt(row: seq<Cell>, k: nat, c: int, va: real): seq<Cell>
    requires k <= |row|
  {
    if k < |row| && row[k].col == c then row[k := Cell(c, row[k].val + va)] else row[..k] + [Cell(c, va)] + row[k..]
  }

  lemma InsertAtFront(row: seq<Cell>, c: int, va: real)
    requires row == [] || row[0].col >= c
    ensures Insert(row, c, va) == InsertAt(row, 0, c, va)
  {}

  lemma InsertAtBehind(h: Cell, tail: seq<Cell>, k: nat, c: int, va: real)
    requires k <= |tail|
    ensures [h] + InsertAt(tail, k, c, va) == InsertAt([h] + tail, k + 1, c, va)
  {
    if k < |tail| && tail[k].col == c {
      UpdateBehind(h, tail, k, Cell(c, tail[k].val + va));
    } else {
      SpliceBehind(h, tail, k, Cell(c, va));
    }
  }

  lemma UpdateBehind(h: Cell, tail: seq<Cell>, k: nat, cell: Cell)
    requires k < |tail|
    ensures ([h] + tail)[k + 1] == tail[k] && [h] + tail[k := cell] == ([h] + tail)[k + 1 := cell]
  {}

  lemma SpliceBehind(h: Cell, tail: seq<Cell>, k: nat, cell: Cell)
    requires k <= |tail|
    ensures [h] + (tail[..k] + [cell] + tail[k..]) == ([h] + tail)[..k + 1] + [cell] + ([h] + tail)[k + 1..]
  {
    assert ([h] + tail)[..k + 1] == [h] + tail[..k];
    assert ([h] + tail)[k + 1..] == tail[k..];
  }

  lemma {:induction false} InsertAtPlace(row: seq<Cell>, c: int, va: real)
    ensures Insert(row, c, va) == InsertAt(row, Place(row, c), c, va)
  {
    if row == [] || row[0].col >= c {
      InsertAtFront(row, c, va);
    } else {
      InsertAtPlace(row[1..], c, va);
      InsertAtBehind(row[0], row[1..], Place(row[1..], c), c, va);
      assert row == [row[0]] + row[1..];
    }
  }

  /** In a sorted row a column is present just when it is at its place. */
  lemma PlaceDecides(row: seq<Cell>, c: int)
    requires Sorted(row)
    ensures HasColumn(row, c) <==> Place(row, c) < |row| && row[Place(row, c)].col == c
  {
    var p := Place(row, c);
    if k :| 0 <= k < |row| && row[k].col == c {
      assert k >= p;
    }
  }

  /** The cells after inserting a new column, by index. */
  lemma InsertNew(row: seq<Cell>, c: int, va: real)
    requires Sorted(row) && !HasColumn(row, c)
    ensures var k, row' := Place(row, c), Insert(row, c, va);
            |row'| == |row| + 1 && row'[k] == Cell(c, va) &&
            (forall m :: 0 <= m < k ==> row'[m] == row[m]) && (forall m :: k < m < |row'| ==> row'[m] == row[m - 1])
  {
    InsertAtPlace(row, c, va);
    PlaceDecides(row, c);
  }

  /** The cells after adding to a column that is there, by index. */
  lemma InsertOld(row: seq<Cell>, c: int, va: real)
    requires Sorted(row) && HasColumn(row, c)
    ensures var k := Place(row, c);
            k < |row| && row[k].col == c && Insert(row, c, va) == row[k := Cell(c, row[k].val + va)]
  {
    InsertAtPlace(row, c, va);
    PlaceDecides(row, c);
  }

  lemma InsertKeepsSorted(row: seq<Cell>, c: int, va: real)
    requires Sorted(row) && 0 <= c
    ensures Sorted(Insert(row, c, va))
    ensures |Insert(row, c, va)| == if HasColumn(row, c) then |row| else |row| + 1
  {
    if HasColumn(row, c) { InsertOld(row, c, va); } else { InsertNew(row, c, va); }
    hide Insert;
  }

  predicate ColumnsBelow(row: seq<Cell>, n: int) {
    forall k :: 0 <= k < |row| ==> 0 <= row[k].col < n
  }

  lemma InsertKeepsBelow(row: seq<Cell>, c: int, va: real, n: int)
    requires ColumnsBelow(row, n) && 0 <= c < n
    ensures ColumnsBelow(Insert(row, c, va), n)
  {
    InsertAtPlace(row, c, va);
    hide Insert, Place;
  }

  /** The columns after an insertion are the old ones and `c`. */
  lemma InsertColumns(row: seq<Cell>, c: int, va: real, d: int)
    requires Sorted(row) && 0 <= c
    ensures HasColumn(Insert(row, c, va), d) <==> HasColumn(row, d) || d == c
  {
    var k, row' := Place(row, c), Insert(row, c, va);
    if HasColumn(row, c) {
      InsertOld(row, c, va);
      hide Insert, Place;
      assert forall m :: 0 <= m < |row| ==> row'[m].col == row[m].col;
    } else {
      InsertNew(row, c, va);
      hide Insert, Place;
      if m :| 0 <= m < |row| && row[m].col == d {
        assert row'[if m < k then m else m + 1].col == d;
      }
      if m :| 0 <= m < |row'| && row'[m].col == d {
        assert m == k || row[if m < k then m else m - 1].col == d;
      }
      assert row'[k].col == c;
    }
  }

  /** Inserting adds `va` at column `c` and nothing elsewhere. */
  lemma {:induction false} InsertAdds(row: seq<Cell>, c: int, va: real, d: int)
    ensures ValueAt(Insert(row, c, va), d) == ValueAt(row, d) + if d == c then va else 0.0
    decreases |row|
  {
    if row == [] {
      assert ValueAt([Cell(c, va)], d) == if d == c then va else 0.0;
    } else if row[0].col > c {
      assert ([Cell(c, va)] + row)[1..] == row;
    } else if row[0].col == c {
      assert ([Cell(c, row[0].val + va)] + row[1..])[1..] == row[1..];
    } else {
      InsertAdds(row[1..], c, va, d);
      assert ([row[0]] + Insert(row[1..], c, va))[1..] == Insert(row[1..], c, va);
    }
  }

  // ----- the row in its slots -----

  /** The slots `lo` up to `hi` hold the row `row`, then empty slots. */
  ghost predicate Holds(a: seq<real>, colidx: seq<int>, lo: nat, hi: nat, row: seq<Cell>) {
    && lo + |row| <= hi <= |a| && hi <= |colidx|
    && (forall k :: 0 <= k < |row| ==> colidx[lo + k] == row[k].col && a[lo + k] == row[k].val)
    && (forall s :: lo + |row| <= s < hi ==> colidx[s] == -1 && a[s] == 0.0)
  }

  /** Only the slots `lo` up to `hi` may differ. */
  ghost predicate SameOutside<T(!new)>(a: seq<T>, b: seq<T>, lo: int, hi: int) {
    |a| == |b| && forall s :: 0 <= s < |a| && !(lo <= s < hi) ==> a[s] == b[s]
  }

  lemma HoldsElsewhere(a: seq<real>, c: seq<int>, a': seq<real>, c': seq<int>, lo: nat, hi: nat, row: seq<Cell>,
                       p: int, q: int)
    requires Holds(a, c, lo, hi, row) && SameOutside(a, a', p, q) && SameOutside(c, c', p, q)
    requires hi <= p || q <= lo
    ensures Holds(a', c', lo, hi, row)
  {}

  function Min(x: int, y: int): int { if x <= y then x else y }

  /** Moves the occupied slots from `k` on one slot to the right; in a full row the last cell is overwritten. */
  method ShiftRight(a: array<real>, colidx: array<int>, lo: nat, hi: nat, k: nat, ghost row: seq<Cell>)
    requires Holds(a[..], colidx[..], lo, hi, row) && Sorted(row) && lo <= k < lo + |row|
    modifies a, colidx
    ensures SameOutside(old(a[..]), a[..], k + 1, Min(lo + |row| + 1, hi))
    ensures SameOutside(old(colidx[..]), colidx[..], k + 1, Min(lo + |row| + 1, hi))
    ensures forall s :: k < s < Min(lo + |row| + 1, hi) ==>
            colidx[s] == row[s - 1 - lo].col && a[s] == row[s - 1 - lo].val
  {
    ghost var end := Min(lo + |row|, hi - 1);
    var kk := hi - 2;
    while kk >= k
      invariant k - 1 <= kk <= hi - 2
      invariant forall s :: 0 <= s < a.Length && !(kk < s - 1 < end) ==> a[s] == old(a[s])
      invariant forall s :: 0 <= s < colidx.Length && !(kk < s - 1 < end) ==> colidx[s] == old(colidx[s])
      invariant forall s :: kk < s - 1 < end ==> colidx[s] == row[s - 1 - lo].col && a[s] == row[s - 1 - lo].val
    {
      if kk < lo + |row| {
        assert colidx[kk] == row[kk - lo].col >= 0;
      } else {
        assert colidx[kk] == -1;
      }
      if colidx[kk] > -1 {
        a[kk + 1] := a[kk];
        colidx[kk + 1] := colidx[kk];
      }
      kk := kk - 1;
    }
  }

  /** The search along the row for the slot of column `jcol`. */
  method FindSlot(colidx: array<int>, lo: nat, hi: nat, jcol: int, ghost a: seq<real>, ghost row: seq<Cell>)
    returns (k: nat)
    requires Holds(a, colidx[..], lo, hi, row) && Sorted(row) && 0 <= jcol
    ensures k == lo + Place(row, jcol)
  {
    k := lo;
    while k < hi
      invariant lo <= k <= hi && k - lo <= |row|
      invariant forall m :: 0 <= m < k - lo ==> row[m].col < jcol
    {
      if colidx[k] > jcol || colidx[k] == -1 || colidx[k] == jcol {
        PlaceIs(row, jcol, k - lo);
        return;
      }
      assert k - lo < |row|;
      assert colidx[k] == row[k - lo].col;
      k := k + 1;
    }
    PlaceIs(row, jcol, k - lo);
  }

  lemma PlaceIs(row: seq<Cell>, c: int, k: nat)
    requires k <= |row| && (forall m :: 0 <= m < k ==> row[m].col < c) && (k < |row| ==> row[k].col >= c)
    ensures Place(row, c) == k
  {
    hide Place;
  }

  /** Adds `va` at column `jcol` of the row in the slots `lo` up to `hi`: the search along the row, the shift that
      makes room, and the addition. It fails when the row is full and the column belongs behind its last cell; in a full
      row a new column in front of a cell pushes the last cell out. */
  method AddToRow(a: array<real>, colidx: array<int>, lo: nat, hi: nat, jcol: int, va: real, ghost row: seq<Cell>)
    returns (found: bool, duplicate: bool)
    requires Holds(a[..], colidx[..], lo, hi, row) && Sorted(row) && 0 <= jcol
    modifies a, colidx
    ensures found <==> lo + |row| < hi || Place(row, jcol) < |row|
    ensures found ==> Holds(a[..], colidx[..], lo, hi, Insert(row, jcol, va)[..Min(|Insert(row, jcol, va)|, hi - lo)])
    ensures !found ==> a[..] == old(a[..]) && colidx[..] == old(colidx[..])
    ensures found ==> (duplicate <==> HasColumn(row, jcol))
    ensures SameOutside(old(a[..]), a[..], lo, hi) && SameOutside(old(colidx[..]), colidx[..], lo, hi)
  {
    hide Place, Insert, Sorted, HasColumn, Holds;
    found, duplicate := false, false;
    var k := FindSlot(colidx, lo, hi, jcol, a[..], row);
    ghost var p, a0, c0 := k - lo, a[..], colidx[..];
    PlaceDecides(row, jcol);
    SlotAtPlace(a0, c0, lo, hi, row, jcol);
    if k < hi {
      found := true;
      if colidx[k] > jcol {
        ShiftRight(a, colidx, lo, hi, k, row);
        colidx[k] := jcol;
        a[k] := 0.0;
      } else if colidx[k] == -1 {
        colidx[k] := jcol;
      } else {
        duplicate := true;
      }
      a[k] := a[k] + va;
      if duplicate {
        assert a[..] == a0[k := a0[k] + va] && colidx[..] == c0;
        OldCellHeld(a0, c0, lo, hi, row, jcol, va);
      } else {
        NewCellHeld(a0, c0, a[..], colidx[..], lo, hi, row, jcol, va);
      }
    }
  }

  /** What the search finds at the place of a column: a cell of a higher column, an empty slot, the column itself, or
      the end of a full row. */
  lemma SlotAtPlace(a: seq<real>, c: seq<int>, lo: nat, hi: nat, row: seq<Cell>, jcol: int)
    requires Holds(a, c, lo, hi, row) && Sorted(row) && 0 <= jcol
    ensures var p := Place(row, jcol);
            && lo + |row| <= hi <= |a| && hi <= |c| && (lo + p < hi <==> lo + |row| < hi || p < |row|)
            && (lo + p < hi ==>
                  && (c[lo + p] > jcol <==> p < |row| && !HasColumn(row, jcol))
                  && (c[lo + p] == -1 <==> p == |row|)
                  && (p == |row| ==> a[lo + p] == 0.0 && !HasColumn(row, jcol)))
  {
    hide Place, HasColumn;
    PlaceDecides(row, jcol);
  }

  /** The cells in front of a new one have stayed, those behind it have moved on by one slot. */
  lemma NewCellHeld(a: seq<real>, c: seq<int>, a': seq<real>, c': seq<int>, lo: nat, hi: nat, row: seq<Cell>,
                    jcol: int, va: real)
    requires Holds(a, c, lo, hi, row) && Sorted(row) && !HasColumn(row, jcol) && lo + Place(row, jcol) < hi
    requires |a'| == |a| && |c'| == |c|
    requires var k := lo + Place(row, jcol); a'[k] == va && c'[k] == jcol
    requires var k := lo + Place(row, jcol);
             forall s :: k < s < Min(lo + |row| + 1, hi) ==>
               c'[s] == row[s - 1 - lo].col && a'[s] == row[s - 1 - lo].val
    requires var k := lo + Place(row, jcol);
             forall s :: lo <= s < hi && !(k <= s < Min(lo + |row| + 1, hi)) ==> c'[s] == c[s] && a'[s] == a[s]
    ensures Holds(a', c', lo, hi, Insert(row, jcol, va)[..Min(|Insert(row, jcol, va)|, hi - lo)])
  {
    hide Place, Insert, Sorted, HasColumn;
    InsertNew(row, jcol, va);
  }

  lemma OldCellHeld(a: seq<real>, c: seq<int>, lo: nat, hi: nat, row: seq<Cell>, jcol: int, va: real)
    requires Holds(a, c, lo, hi, row) && Sorted(row) && HasColumn(row, jcol) && lo + Place(row, jcol) < hi
    ensures var k := lo + Place(row, jcol);
            Holds(a[k := a[k] + va], c, lo, hi, Insert(row, jcol, va)[..Min(|Insert(row, jcol, va)|, hi - lo)])
  {
    hide Place, Insert, Sorted, HasColumn;
    InsertOld(row, jcol, va);
    var after := Insert(row, jcol, va);
    assert after[..|after|] == after;
  }
}
