/**
  `sparse` of the CG benchmark: assembles the sum of scaled outer products of sparse vectors
  into compressed rows. Rows get a fixed number of slots, filled in column order; repeated
  positions are added up and counted, and the unused slots are squeezed out in place at the end.
 */
module CgSparse {
  import opened CgRows

  function Power(x: real, n: nat): real {
    if n == 0 then 1.0 else Power(x, n - 1) * x
  }

  lemma {:induction false} PowerAdds(x: real, i: nat, j: nat)
    ensures Power(x, 1) == x && Power(x, i + j) == Power(x, i) * Power(x, j)
  {
    assert Power(x, 1) == Power(x, 0) * x;
    if j > 0 {
      PowerAdds(x, i, j - 1);
      Associate(Power(x, i), Power(x, j - 1), x);
    }
  }

  lemma Associate(a: real, b: real, c: real)
    ensures a * b * c == a * (b * c)
  {}

  /** The vectors, by columns and values, and the scalars of the matrix. */
  datatype Problem = Problem(acol: seq<seq<int>>, aelt: seq<seq<real>>, ratio: real, rcond: real, shift: real) {
    /** The order of the matrix. */
    function Order(): nat { |acol| }

    predicate Valid() {
      && |aelt| == |acol|
      && forall i :: 0 <= i < |acol| ==>
           |aelt[i]| == |acol[i]| && forall k :: 0 <= k < |acol[i]| ==> 0 <= acol[i][k] < |acol|
    }

    /** What entries `p` and `q` of vector `i` contribute, scaled by ratio to the power i; the diagonal gets
        rcond - shift on top. */
    function Va(i: nat, p: nat, q: nat): real
      requires Valid() && i < |acol| && p < |acol[i]| && q < |acol[i]|
    {
      aelt[i][q] * (Power(ratio, i) * aelt[i][p]) + if acol[i][q] == acol[i][p] == i then rcond - shift else 0.0
    }

    // The row `j` after the contributions so far, in the order the loops make them.

    function AfterColumns(i: nat, p: nat, q: nat, row: seq<Cell>): seq<Cell>
      requires Valid() && i < |acol| && p < |acol[i]| && q <= |acol[i]|
    {
      if q == 0 then row else Insert(AfterColumns(i, p, q - 1, row), acol[i][q - 1], Va(i, p, q - 1))
    }

    function AfterEntries(i: nat, p: nat, j: int, row: seq<Cell>): seq<Cell>
      requires Valid() && i < |acol| && p <= |acol[i]|
    {
      if p == 0 then row
      else
        var before := AfterEntries(i, p - 1, j, row);
        if acol[i][p - 1] == j then AfterColumns(i, p - 1, |acol[i]|, before) else before
    }

    function AfterVectors(i: nat, j: int): seq<Cell>
      requires Valid() && i <= |acol|
    {
      if i == 0 then [] else AfterEntries(i - 1, |acol[i - 1]|, j, AfterVectors(i - 1, j))
    }

    // How many contributions go to row `j`.

    function EntryCount(i: nat, p: nat, j: int): nat
      requires i < |acol| && p <= |acol[i]|
    {
      if p == 0 then 0 else EntryCount(i, p - 1, j) + if acol[i][p - 1] == j then |acol[i]| else 0
    }

    function VectorCount(i: nat, j: int): nat
      requires i <= |acol|
    {
      if i == 0 then 0 else VectorCount(i - 1, j) + EntryCount(i - 1, |acol[i - 1]|, j)
    }

    lemma {:induction false} EntryCountGrows(i: nat, p: nat, p': nat, j: int)
      requires i < |acol| && p <= p' <= |acol[i]|
      ensures EntryCount(i, p, j) <= EntryCount(i, p', j)
    {
      if p < p' { EntryCountGrows(i, p, p' - 1, j); }
    }

    lemma {:induction false} VectorCountGrows(i: nat, i': nat, j: int)
      requires i <= i' <= |acol|
      ensures VectorCount(i, j) <= VectorCount(i', j)
    {
      if i < i' { VectorCountGrows(i, i' - 1, j); }
    }

    /** The slots the program reserves for the rows before `j`. */
    function SlotsBefore(j: nat): nat
    {
      if j == 0 then 0 else SlotsBefore(j - 1) + VectorCount(|acol|, j - 1)
    }

    lemma {:induction false} SlotsGrow(j: nat, k: nat)
      requires j <= k
      ensures SlotsBefore(j) <= SlotsBefore(k)
    {
      if j < k { SlotsGrow(j, k - 1); }
    }
  }

  /** The rows stored in their slots. */
  ghost predicate Stored(a: seq<real>, colidx: seq<int>, rowstr: seq<int>, rows: seq<seq<Cell>>) {
    && |rowstr| == |rows| + 1 && rowstr[0] == 0
    && (forall j, k :: 0 <= j <= k < |rowstr| ==> 0 <= rowstr[j] <= rowstr[k])
    && forall j :: 0 <= j < |rows| ==> Sorted(rows[j]) && Holds(a, colidx, rowstr[j], rowstr[j + 1], rows[j])
  }

  lemma StoreRow(a: seq<real>, c: seq<int>, a': seq<real>, c': seq<int>, rowstr: seq<int>, rows: seq<seq<Cell>>,
                 j: nat, row: seq<Cell>)
    requires Stored(a, c, rowstr, rows) && j < |rows|
    requires SameOutside(a, a', rowstr[j], rowstr[j + 1]) && SameOutside(c, c', rowstr[j], rowstr[j + 1])
    requires Sorted(row) && Holds(a', c', rowstr[j], rowstr[j + 1], row)
    ensures Stored(a', c', rowstr, rows[j := row])
  {
    forall m | 0 <= m < |rows| && m != j
      ensures Holds(a', c', rowstr[m], rowstr[m + 1], rows[m])
    {
      HoldsElsewhere(a, c, a', c', rowstr[m], rowstr[m + 1], rows[m], rowstr[j], rowstr[j + 1]);
    }
  }

  // ----- first pass: how many slots each row needs -----

  /** Counts the contributions of each row, one place up. */
  method CountContributions(P: Problem, rowstr: array<int>)
    requires P.Valid() && rowstr.Length == P.Order() + 1
    modifies rowstr
    ensures forall m :: 0 <= m < P.Order() ==> rowstr[m + 1] == P.VectorCount(P.Order(), m)
  {
    var n := P.Order();
    for j := 0 to n + 1
      invariant forall m :: 0 <= m < j ==> rowstr[m] == 0
    {
      rowstr[j] := 0;
    }
    for i := 0 to n
      invariant forall m :: 0 <= m < n ==> rowstr[m + 1] == P.VectorCount(i, m)
    {
      for nza := 0 to |P.acol[i]|
        invariant forall m :: 0 <= m < n ==> rowstr[m + 1] == P.VectorCount(i, m) + P.EntryCount(i, nza, m)
      {
        var j := P.acol[i][nza] + 1;
        rowstr[j] := rowstr[j] + |P.acol[i]|;
      }
    }
  }

  /** Turns the counts into the first slot of every row. */
  method CountSlots(P: Problem, rowstr: array<int>)
    requires P.Valid() && rowstr.Length == P.Order() + 1
    modifies rowstr
    ensures forall j :: 0 <= j <= P.Order() ==> rowstr[j] == P.SlotsBefore(j)
  {
    var n := P.Order();
    CountContributions(P, rowstr);
    rowstr[0] := 0;
    for j := 1 to n + 1
      invariant forall m :: 0 <= m < j ==> rowstr[m] == P.SlotsBefore(m)
      invariant forall m :: j - 1 <= m < n ==> rowstr[m + 1] == P.VectorCount(n, m)
    {
      rowstr[j] := rowstr[j] + rowstr[j - 1];
    }
  }

  /** Marks every slot empty and every row free of duplicates. */
  method ClearSlots(n: nat, a: array<real>, colidx: array<int>, rowstr: array<int>, nzloc: array<int>)
    requires rowstr.Length == n + 1 && nzloc.Length == n && colidx.Length == a.Length
    requires rowstr != colidx && rowstr != nzloc && colidx != nzloc
    requires rowstr[0] == 0 && forall j, k :: 0 <= j <= k <= n ==> 0 <= rowstr[j] <= rowstr[k] <= a.Length
    modifies a, colidx, nzloc
    ensures forall s :: 0 <= s < rowstr[n] ==> a[s] == 0.0 && colidx[s] == -1
    ensures forall j :: 0 <= j < n ==> nzloc[j] == 0
    ensures forall s :: rowstr[n] <= s < a.Length ==> a[s] == old(a[s]) && colidx[s] == old(colidx[s])
    ensures rowstr[..] == old(rowstr[..])
  {
    for j := 0 to n
      invariant rowstr[..] == old(rowstr[..])
      invariant forall s :: 0 <= s < rowstr[j] ==> a[s] == 0.0 && colidx[s] == -1
      invariant forall m :: 0 <= m < j ==> nzloc[m] == 0
      invariant forall s :: rowstr[n] <= s < a.Length ==> a[s] == old(a[s]) && colidx[s] == old(colidx[s])
    {
      for k := rowstr[j] to rowstr[j + 1]
        invariant rowstr[..] == old(rowstr[..])
        invariant forall s :: 0 <= s < k ==> a[s] == 0.0 && colidx[s] == -1
        invariant forall m :: 0 <= m < j ==> nzloc[m] == 0
        invariant forall s :: rowstr[n] <= s < a.Length ==> a[s] == old(a[s]) && colidx[s] == old(colidx[s])
      {
        a[k] := 0.0;
        colidx[k] := -1;
      }
      nzloc[j] := 0;
    }
  }

  // ----- second pass: the contributions -----

  /** The stored rows, the duplicates counted per row and the contributions made so far fit together: each
      contribution took a new slot or was counted as a duplicate. */
  ghost predicate Accounted(rows: seq<seq<Cell>>, nzloc: seq<int>, made: seq<int>) {
    && |nzloc| == |rows| == |made|
    && forall j :: 0 <= j < |rows| ==> 0 <= nzloc[j] && |rows[j]| + nzloc[j] == made[j]
  }

  /** One contribution to row `j`; with a slot in reserve it cannot fail. */
  method AddContribution(j: nat, jcol: int, va: real, a: array<real>, colidx: array<int>, rowstr: array<int>,
                         nzloc: array<int>, ghost rows: seq<seq<Cell>>, ghost made: seq<int>) returns (found: bool)
    requires rowstr != colidx && rowstr != nzloc && colidx != nzloc && j < |rows| && 0 <= jcol
    requires Stored(a[..], colidx[..], rowstr[..], rows) && Accounted(rows, nzloc[..], made)
    requires made[j] < rowstr[j + 1] - rowstr[j]
    modifies a, colidx, nzloc
    ensures found && rowstr[..] == old(rowstr[..])
    ensures Stored(a[..], colidx[..], rowstr[..], rows[j := Insert(rows[j], jcol, va)])
    ensures Accounted(rows[j := Insert(rows[j], jcol, va)], nzloc[..], made[j := made[j] + 1])
  {
    hide Insert, Place;
    ghost var a0, c0 := a[..], colidx[..];
    var duplicate;
    found, duplicate := AddToRow(a, colidx, rowstr[j], rowstr[j + 1], jcol, va, rows[j]);
    InsertKeepsSorted(rows[j], jcol, va);
    StoreRow(a0, c0, a[..], colidx[..], rowstr[..], rows, j, Insert(rows[j], jcol, va));
    if duplicate {
      nzloc[j] := nzloc[j] + 1;
    }
  }

  /** The contributions of entry `p` of vector `i`, all to one row. */
  method AddEntry(P: Problem, i: nat, p: nat, scale: real, a: array<real>, colidx: array<int>, rowstr: array<int>,
                  nzloc: array<int>, ghost rows: seq<seq<Cell>>, ghost made: seq<int>) returns (failed: bool)
    requires P.Valid() && i < P.Order() && p < |P.acol[i]| && scale == Power(P.ratio, i) * P.aelt[i][p]
    requires rowstr != colidx && rowstr != nzloc && colidx != nzloc && rowstr.Length == |rows| + 1 == P.Order() + 1
    requires Stored(a[..], colidx[..], rowstr[..], rows) && Accounted(rows, nzloc[..], made)
    requires var j := P.acol[i][p]; made[j] + |P.acol[i]| <= rowstr[j + 1] - rowstr[j]
    modifies a, colidx, nzloc
    ensures !failed && rowstr[..] == old(rowstr[..])
    ensures var j := P.acol[i][p]; var row := P.AfterColumns(i, p, |P.acol[i]|, rows[j]);
            && Stored(a[..], colidx[..], rowstr[..], rows[j := row])
            && Accounted(rows[j := row], nzloc[..], made[j := made[j] + |P.acol[i]|])
  {
    hide Stored, Holds, Sorted, Insert, SameOutside, Power, Problem.Va;
    var j := P.acol[i][p];
    failed := false;
    ghost var row := rows[j];
    assert rows[j := row] == rows && made[j := made[j]] == made;
    for nzrow := 0 to |P.acol[i]|
      invariant rowstr[..] == old(rowstr[..]) && rowstr.Length == |rows| + 1
      invariant row == P.AfterColumns(i, p, nzrow, rows[j])
      invariant Stored(a[..], colidx[..], rowstr[..], rows[j := row])
      invariant Accounted(rows[j := row], nzloc[..], made[j := made[j] + nzrow])
    {
      var jcol := P.acol[i][nzrow];
      var va := P.aelt[i][nzrow] * scale;
      if jcol == j && j == i {
        va := va + P.rcond - P.shift;
      }
      VaOfScale(P, i, p, nzrow, scale);
      var found := AddContribution(j, jcol, va, a, colidx, rowstr, nzloc, rows[j := row], made[j := made[j] + nzrow]);
      if !found {
        failed := true;
        return;
      }
      assert rows[j := row][j := Insert(row, jcol, va)] == rows[j := Insert(row, jcol, va)];
      assert made[j := made[j] + nzrow][j := made[j] + nzrow + 1] == made[j := made[j] + nzrow + 1];
      row := Insert(row, jcol, va);
    }
  }

  lemma VaOfScale(P: Problem, i: nat, p: nat, q: nat, scale: real)
    requires P.Valid() && i < P.Order() && p < |P.acol[i]| && q < |P.acol[i]|
    requires scale == Power(P.ratio, i) * P.aelt[i][p]
    ensures P.Va(i, p, q) ==
            P.aelt[i][q] * scale + if P.acol[i][q] == P.acol[i][p] == i then P.rcond - P.shift else 0.0
  {
    hide Power;
  }

  // The rows and counts after the vectors before `i` and the entries before `p` of vector `i`.

  ghost function RowsAt(P: Problem, i: nat, p: nat): (rows: seq<seq<Cell>>)
    requires P.Valid() && i < P.Order() && p <= |P.acol[i]|
    ensures |rows| == P.Order()
  {
    seq(P.Order(), j requires 0 <= j => P.AfterEntries(i, p, j, P.AfterVectors(i, j)))
  }

  ghost function MadeAt(P: Problem, i: nat, p: nat): (made: seq<int>)
    requires i < P.Order() && p <= |P.acol[i]|
    ensures |made| == P.Order()
  {
    seq(P.Order(), j requires 0 <= j => P.VectorCount(i, j) + P.EntryCount(i, p, j))
  }

  ghost function RowsAfter(P: Problem, i: nat): (rows: seq<seq<Cell>>)
    requires P.Valid() && i <= P.Order()
    ensures |rows| == P.Order()
  {
    seq(P.Order(), j requires 0 <= j => P.AfterVectors(i, j))
  }

  ghost function MadeAfter(P: Problem, i: nat): (made: seq<int>)
    requires i <= P.Order()
    ensures |made| == P.Order()
  {
    seq(P.Order(), j requires 0 <= j => P.VectorCount(i, j))
  }

  lemma EntryStep(P: Problem, i: nat, p: nat)
    requires P.Valid() && i < P.Order() && p < |P.acol[i]|
    ensures var j := P.acol[i][p];
            && RowsAt(P, i, p + 1) == RowsAt(P, i, p)[j := P.AfterColumns(i, p, |P.acol[i]|, RowsAt(P, i, p)[j])]
            && MadeAt(P, i, p + 1) == MadeAt(P, i, p)[j := MadeAt(P, i, p)[j] + |P.acol[i]|]
  {
    hide Insert;
  }

  lemma VectorStart(P: Problem, i: nat)
    requires P.Valid() && i < P.Order()
    ensures RowsAt(P, i, 0) == RowsAfter(P, i) && MadeAt(P, i, 0) == MadeAfter(P, i)
  {}

  lemma VectorStep(P: Problem, i: nat)
    requires P.Valid() && i < P.Order()
    ensures RowsAt(P, i, |P.acol[i]|) == RowsAfter(P, i + 1) && MadeAt(P, i, |P.acol[i]|) == MadeAfter(P, i + 1)
  {}

  /** The slots of row `j` are enough for entry `p` of vector `i`. */
  lemma RoomForEntry(P: Problem, i: nat, p: nat)
    requires P.Valid() && i < P.Order() && p < |P.acol[i]|
    ensures var j := P.acol[i][p];
            MadeAt(P, i, p)[j] + |P.acol[i]| <= P.SlotsBefore(j + 1) - P.SlotsBefore(j)
  {
    var j := P.acol[i][p];
    P.EntryCountGrows(i, p + 1, |P.acol[i]|, j);
    P.VectorCountGrows(i + 1, P.Order(), j);
  }

  /** The triple loop over vectors and pairs of their entries. */
  method AddAll(P: Problem, a: array<real>, colidx: array<int>, rowstr: array<int>, nzloc: array<int>)
    returns (failed: bool)
    requires P.Valid() && rowstr.Length == P.Order() + 1
    requires rowstr != colidx && rowstr != nzloc && colidx != nzloc
    requires forall j :: 0 <= j <= P.Order() ==> rowstr[j] == P.SlotsBefore(j)
    requires Stored(a[..], colidx[..], rowstr[..], RowsAfter(P, 0))
             && Accounted(RowsAfter(P, 0), nzloc[..], MadeAfter(P, 0))
    modifies a, colidx, nzloc
    ensures !failed && rowstr[..] == old(rowstr[..])
    ensures Stored(a[..], colidx[..], rowstr[..], RowsAfter(P, P.Order()))
    ensures Accounted(RowsAfter(P, P.Order()), nzloc[..], MadeAfter(P, P.Order()))
  {
    hide Stored, Accounted, RowsAt, MadeAt, RowsAfter, MadeAfter, Problem.SlotsBefore, Problem.AfterColumns;
    failed := false;
    var size := 1.0;
    for i := 0 to P.Order()
      invariant rowstr[..] == old(rowstr[..]) && size == Power(P.ratio, i)
      invariant Stored(a[..], colidx[..], rowstr[..], RowsAfter(P, i))
      invariant Accounted(RowsAfter(P, i), nzloc[..], MadeAfter(P, i))
    {
      VectorStart(P, i);
      for nza := 0 to |P.acol[i]|
        invariant rowstr[..] == old(rowstr[..])
        invariant Stored(a[..], colidx[..], rowstr[..], RowsAt(P, i, nza))
        invariant Accounted(RowsAt(P, i, nza), nzloc[..], MadeAt(P, i, nza))
      {
        RoomForEntry(P, i, nza);
        EntryStep(P, i, nza);
        failed := AddEntry(P, i, nza, size * P.aelt[i][nza], a, colidx, rowstr, nzloc, RowsAt(P, i, nza),
                           MadeAt(P, i, nza));
        if failed {
          return;
        }
      }
      VectorStep(P, i);
      size := size * P.ratio;
    }
  }

  // ----- third pass: squeezing out the unused slots -----

  /** The cells before row `j` when the rows follow one another without gaps. */
  function CellsBefore(rows: seq<seq<Cell>>, j: nat): nat
    requires j <= |rows|
  {
    if j == 0 then 0 else CellsBefore(rows, j - 1) + |rows[j - 1]|
  }

  lemma {:induction false} CellsGrow(rows: seq<seq<Cell>>, j: nat, k: nat)
    requires j <= k <= |rows|
    ensures CellsBefore(rows, j) <= CellsBefore(rows, k)
  {
    if j < k { CellsGrow(rows, j, k - 1); }
  }

  /** The slots from `lo` on start with the cells of `row`. */
  ghost predicate CellsAt(a: seq<real>, colidx: seq<int>, lo: int, row: seq<Cell>) {
    && 0 <= lo && lo + |row| <= |a| && lo + |row| <= |colidx|
    && forall k :: 0 <= k < |row| ==> colidx[lo + k] == row[k].col && a[lo + k] == row[k].val
  }

  /** Compressed rows: row `j` occupies exactly the slots from rowstr[j] up to rowstr[j + 1]. */
  ghost predicate Compressed(a: seq<real>, colidx: seq<int>, rowstr: seq<int>, rows: seq<seq<Cell>>) {
    && |rowstr| == |rows| + 1 && rowstr[0] == 0
    && (forall j :: 0 <= j < |rows| ==> rowstr[j + 1] == rowstr[j] + |rows[j]|)
    && forall j :: 0 <= j < |rows| ==> Sorted(rows[j]) && CellsAt(a, colidx, rowstr[j], rows[j])
  }

  /** The rows in front of `j` are in their final places, the others still in their slots. */
  ghost predicate Squeezed(a: seq<real>, colidx: seq<int>, rowstr: seq<int>, rows: seq<seq<Cell>>, j: nat)
    requires |rowstr| == |rows| + 1
  {
    && (forall m :: 0 <= m < j && m < |rows| ==> CellsAt(a, colidx, CellsBefore(rows, m), rows[m]))
    && forall m :: j <= m < |rows| ==> CellsAt(a, colidx, rowstr[m], rows[m])
  }

  lemma CellsElsewhere(a: seq<real>, c: seq<int>, a': seq<real>, c': seq<int>, lo: int, row: seq<Cell>, p: int, q: int)
    requires CellsAt(a, c, lo, row) && SameOutside(a, a', p, q) && SameOutside(c, c', p, q)
    requires lo + |row| <= p || q <= lo
    ensures CellsAt(a', c', lo, row)
  {}

  /** Moves one row to the left; the two ranges of slots may overlap. */
  method MoveRow(a: array<real>, colidx: array<int>, from: nat, to: nat, ghost row: seq<Cell>, end: nat)
    requires to <= from && end == to + |row| && a.Length == colidx.Length
    requires CellsAt(a[..], colidx[..], from, row)
    modifies a, colidx
    ensures CellsAt(a[..], colidx[..], to, row)
    ensures SameOutside(old(a[..]), a[..], to, end) && SameOutside(old(colidx[..]), colidx[..], to, end)
  {
    var nza := from;
    for k := to to end
      invariant nza == from + (k - to)
      invariant forall m :: 0 <= m < k - to ==> colidx[to + m] == row[m].col && a[to + m] == row[m].val
      invariant forall s :: 0 <= s < a.Length && !(to <= s < k) ==> a[s] == old(a[s]) && colidx[s] == old(colidx[s])
    {
      assert a[nza] == row[k - to].val && colidx[nza] == row[k - to].col by {
        assert old(a[..])[from + (k - to)] == row[k - to].val;
      }
      a[k] := a[nza];
      colidx[k] := colidx[nza];
      nza := nza + 1;
    }
  }

  /** Row `j` has moved to its final place; nothing else has changed. */
  ghost predicate RowMoved(a: seq<real>, c: seq<int>, a': seq<real>, c': seq<int>, rows: seq<seq<Cell>>, j: nat)
    requires j < |rows|
  {
    var p := CellsBefore(rows, j);
    SameOutside(a, a', p, p + |rows[j]|) && SameOutside(c, c', p, p + |rows[j]|) && CellsAt(a', c', p, rows[j])
  }

  lemma NextCells(rows: seq<seq<Cell>>, m: nat)
    requires m < |rows|
    ensures CellsBefore(rows, m + 1) == CellsBefore(rows, m) + |rows[m]|
  {}

  lemma MovedRowKeepsFront(a: seq<real>, c: seq<int>, a': seq<real>, c': seq<int>, rows: seq<seq<Cell>>, j: nat, m: nat)
    requires m < j < |rows| && RowMoved(a, c, a', c', rows, j) && CellsAt(a, c, CellsBefore(rows, m), rows[m])
    ensures CellsAt(a', c', CellsBefore(rows, m), rows[m])
  {
    hide CellsAt, SameOutside, CellsBefore;
    NextCells(rows, m);
    CellsGrow(rows, m + 1, j);
    var lo, p := CellsBefore(rows, m), CellsBefore(rows, j);
    CellsElsewhere(a, c, a', c', lo, rows[m], p, p + |rows[j]|);
  }

  lemma MovedRowKeepsBack(a: seq<real>, c: seq<int>, a': seq<real>, c': seq<int>, rows: seq<seq<Cell>>, j: nat, m: nat,
                          lo: int)
    requires j < m < |rows| && RowMoved(a, c, a', c', rows, j) && CellsAt(a, c, lo, rows[m])
    requires CellsBefore(rows, j + 1) <= lo
    ensures CellsAt(a', c', lo, rows[m])
  {
    hide CellsAt, SameOutside;
    var p := CellsBefore(rows, j);
    CellsElsewhere(a, c, a', c', lo, rows[m], p, p + |rows[j]|);
  }

  lemma SqueezeStep(a: seq<real>, c: seq<int>, a': seq<real>, c': seq<int>, rowstr: seq<int>, rows: seq<seq<Cell>>,
                    j: nat)
    requires |rowstr| == |rows| + 1 && j < |rows| && Squeezed(a, c, rowstr, rows, j)
    requires forall m, n :: 0 <= m <= n < |rowstr| ==> rowstr[m] <= rowstr[n]
    requires CellsBefore(rows, j + 1) <= rowstr[j + 1]
    requires RowMoved(a, c, a', c', rows, j)
    ensures Squeezed(a', c', rowstr, rows, j + 1)
  {
    hide CellsAt, SameOutside, CellsBefore;
    forall m | 0 <= m < j ensures CellsAt(a', c', CellsBefore(rows, m), rows[m]) {
      MovedRowKeepsFront(a, c, a', c', rows, j, m);
    }
    forall m | j + 1 <= m < |rows| ensures CellsAt(a', c', rowstr[m], rows[m]) {
      MovedRowKeepsBack(a, c, a', c', rows, j, m, rowstr[m]);
    }
  }

  function Total(s: seq<int>, m: nat): int
    requires m <= |s|
  {
    if m == 0 then 0 else Total(s, m - 1) + s[m - 1]
  }

  /** How far row `j` moves is the number of unused slots before it. */
  lemma {:induction false} MoveDistance(rowstr: seq<int>, rows: seq<seq<Cell>>, nzloc: seq<int>, j: nat)
    requires |rowstr| == |rows| + 1 && |nzloc| == |rows| && j <= |rows| && rowstr[0] == 0
    requires forall m :: 0 <= m < |rows| ==> 0 <= nzloc[m] && |rows[m]| + nzloc[m] == rowstr[m + 1] - rowstr[m]
    ensures CellsBefore(rows, j) == rowstr[j] - Total(nzloc, j) && 0 <= Total(nzloc, j)
  {
    if j > 0 { MoveDistance(rowstr, rows, nzloc, j - 1); }
  }

  /** Running totals in place. */
  method Accumulate(nzloc: array<int>)
    modifies nzloc
    ensures forall m :: 0 <= m < nzloc.Length ==> nzloc[m] == Total(old(nzloc[..]), m + 1)
  {
    var j := 1;
    while j < nzloc.Length
      invariant 1 <= j
      invariant forall m :: 0 <= m < j && m < nzloc.Length ==> nzloc[m] == Total(old(nzloc[..]), m + 1)
      invariant forall m :: j <= m < nzloc.Length ==> nzloc[m] == old(nzloc[m])
    {
      nzloc[j] := nzloc[j] + nzloc[j - 1];
      j := j + 1;
    }
  }

  lemma StoredCells(a: seq<real>, colidx: seq<int>, rowstr: seq<int>, rows: seq<seq<Cell>>)
    requires Stored(a, colidx, rowstr, rows)
    ensures |rowstr| == |rows| + 1 && rowstr[0] == 0
    ensures forall m, k :: 0 <= m <= k < |rowstr| ==> rowstr[m] <= rowstr[k]
    ensures forall j :: 0 <= j < |rows| ==> CellsAt(a, colidx, rowstr[j], rows[j]) && Sorted(rows[j])
  {
    hide Sorted;
    forall j | 0 <= j < |rows| ensures CellsAt(a, colidx, rowstr[j], rows[j]) {
      assert Holds(a, colidx, rowstr[j], rowstr[j + 1], rows[j]);
    }
  }

  lemma MoveDistances(rowstr: seq<int>, rows: seq<seq<Cell>>, nzloc: seq<int>, acc: seq<int>)
    requires |rowstr| == |rows| + 1 && |nzloc| == |acc| == |rows| && rowstr[0] == 0
    requires forall m :: 0 <= m < |rows| ==> 0 <= nzloc[m] && |rows[m]| + nzloc[m] == rowstr[m + 1] - rowstr[m]
    requires forall m :: 0 <= m < |rows| ==> acc[m] == Total(nzloc, m + 1)
    ensures forall j :: 0 <= j < |rows| ==> CellsBefore(rows, j + 1) == rowstr[j + 1] - acc[j] && 0 <= acc[j]
  {
    forall j | 0 <= j < |rows| ensures CellsBefore(rows, j + 1) == rowstr[j + 1] - acc[j] && 0 <= acc[j] {
      MoveDistance(rowstr, rows, nzloc, j + 1);
    }
  }

  /** Every row moves left over the slots its predecessors did not use. */
  method SqueezeRows(n: nat, a: array<real>, colidx: array<int>, rowstr: array<int>, nzloc: array<int>,
                     ghost rows: seq<seq<Cell>>)
    requires rowstr.Length == n + 1 && nzloc.Length == n == |rows| && a.Length == colidx.Length
    requires rowstr != colidx && nzloc != colidx
    requires rowstr[0] == 0 && forall m, k :: 0 <= m <= k < rowstr.Length ==> rowstr[m] <= rowstr[k]
    requires forall j :: 0 <= j < n ==> CellsAt(a[..], colidx[..], rowstr[j], rows[j])
    requires forall j :: 0 <= j < n ==> CellsBefore(rows, j + 1) == rowstr[j + 1] - nzloc[j] && 0 <= nzloc[j]
    modifies a, colidx
    ensures rowstr[..] == old(rowstr[..]) && nzloc[..] == old(nzloc[..])
    ensures Squeezed(a[..], colidx[..], rowstr[..], rows, n)
  {
    hide CellsAt, SameOutside;
    for j := 0 to n
      invariant rowstr[..] == old(rowstr[..]) && nzloc[..] == old(nzloc[..])
      invariant Squeezed(a[..], colidx[..], rowstr[..], rows, j)
    {
      var j1 := if j > 0 then rowstr[j] - nzloc[j - 1] else 0;
      var j2 := rowstr[j + 1] - nzloc[j];
      assert j1 == CellsBefore(rows, j) && j2 == CellsBefore(rows, j + 1);
      ghost var a0, c0 := a[..], colidx[..];
      MoveRow(a, colidx, rowstr[j], j1, rows[j], j2);
      SqueezeStep(a0, c0, a[..], colidx[..], rowstr[..], rows, j);
    }
  }

  /** The starts of the rows move with them. */
  method MoveStarts(n: nat, rowstr: array<int>, nzloc: array<int>, ghost rows: seq<seq<Cell>>)
    requires rowstr.Length == n + 1 && nzloc.Length == n == |rows| && rowstr != nzloc && rowstr[0] == 0
    requires forall j :: 0 <= j < n ==> CellsBefore(rows, j + 1) == rowstr[j + 1] - nzloc[j]
    modifies rowstr
    ensures forall m :: 0 <= m <= n ==> rowstr[m] == CellsBefore(rows, m)
  {
    for j := 1 to n + 1
      invariant forall m :: 0 <= m < j ==> rowstr[m] == CellsBefore(rows, m)
      invariant forall m :: j <= m <= n ==> rowstr[m] == old(rowstr[m])
    {
      assert rowstr[j] - nzloc[j - 1] == CellsBefore(rows, (j - 1) + 1);
      rowstr[j] := rowstr[j] - nzloc[j - 1];
    }
  }

  /** Removes the unused slots. */
  method Squeeze(n: nat, a: array<real>, colidx: array<int>, rowstr: array<int>, nzloc: array<int>,
                 ghost rows: seq<seq<Cell>>)
    requires rowstr.Length == n + 1 && nzloc.Length == n == |rows| && a.Length == colidx.Length
    requires rowstr != colidx && rowstr != nzloc && colidx != nzloc
    requires Stored(a[..], colidx[..], rowstr[..], rows)
    requires forall j :: 0 <= j < n ==> 0 <= nzloc[j] && |rows[j]| + nzloc[j] == rowstr[j + 1] - rowstr[j]
    modifies a, colidx, rowstr, nzloc
    ensures Compressed(a[..], colidx[..], rowstr[..], rows)
  {
    hide CellsAt, Sorted, CellsBefore, Stored, Squeezed, Compressed;
    ghost var slots, unused := rowstr[..], nzloc[..];
    StoredCells(a[..], colidx[..], slots, rows);
    Accumulate(nzloc);
    MoveDistances(slots, rows, unused, nzloc[..]);
    SqueezeRows(n, a, colidx, rowstr, nzloc, rows);
    MoveStarts(n, rowstr, nzloc, rows);
    SqueezedIsCompressed(a[..], colidx[..], slots, rowstr[..], rows);
  }

  lemma SqueezedIsCompressed(a: seq<real>, colidx: seq<int>, slots: seq<int>, rowstr: seq<int>, rows: seq<seq<Cell>>)
    requires |slots| == |rowstr| == |rows| + 1 && Squeezed(a, colidx, slots, rows, |rows|)
    requires forall m :: 0 <= m < |rowstr| ==> rowstr[m] == CellsBefore(rows, m)
    requires forall j :: 0 <= j < |rows| ==> Sorted(rows[j])
    ensures Compressed(a, colidx, rowstr, rows)
  {
    hide CellsAt, Sorted;
    forall j | 0 <= j < |rows| ensures rowstr[j + 1] == rowstr[j] + |rows[j]| {
      assert rowstr[j + 1] == CellsBefore(rows, j + 1);
    }
  }

  // ----- the whole of sparse -----

  /** How the program ends: normally, or with one of its two error messages. */
  datatype Outcome = Done | SpaceExceeded | InternalError

  ghost predicate Distinct(a: array<int>, b: array<int>, c: array<int>) {
    a != b && a != c && b != c
  }

  lemma EmptyRowsAreStored(P: Problem, a: seq<real>, colidx: seq<int>, rowstr: seq<int>, nzloc: seq<int>)
    requires P.Valid() && |rowstr| == P.Order() + 1 && |nzloc| == P.Order() && |a| == |colidx|
    requires forall j :: 0 <= j <= P.Order() ==> rowstr[j] == P.SlotsBefore(j)
    requires rowstr[P.Order()] <= |a|
    requires forall s :: 0 <= s < rowstr[P.Order()] ==> a[s] == 0.0 && colidx[s] == -1
    requires forall j :: 0 <= j < P.Order() ==> nzloc[j] == 0
    ensures Stored(a, colidx, rowstr, RowsAfter(P, 0)) && Accounted(RowsAfter(P, 0), nzloc, MadeAfter(P, 0))
  {
    StartsAscend(P, rowstr);
    assert forall j :: 0 <= j < P.Order() ==> RowsAfter(P, 0)[j] == [] && MadeAfter(P, 0)[j] == 0;
    hide Problem.SlotsBefore, Problem.AfterVectors;
    forall j | 0 <= j < P.Order() ensures Holds(a, colidx, rowstr[j], rowstr[j + 1], []) {
      assert rowstr[j + 1] <= rowstr[P.Order()];
    }
  }

  lemma StartsAscend(P: Problem, rowstr: seq<int>)
    requires |rowstr| == P.Order() + 1
    requires forall j :: 0 <= j <= P.Order() ==> rowstr[j] == P.SlotsBefore(j)
    ensures rowstr[0] == 0 && forall j, k :: 0 <= j <= k < |rowstr| ==> 0 <= rowstr[j] <= rowstr[k]
  {
    forall j, k | 0 <= j <= k < |rowstr| ensures 0 <= rowstr[j] <= rowstr[k] {
      P.SlotsGrow(j, k);
    }
  }

  /** Slots reserved for a row are as many as the contributions made to it. */
  lemma AllContributionsMade(P: Problem, j: nat)
    requires j < P.Order()
    ensures MadeAfter(P, P.Order())[j] == P.SlotsBefore(j + 1) - P.SlotsBefore(j)
  {}

  /** The guard compares the last slot with the space, so `sparse` by itself lets one slot too many through: a matrix of
      order one needs one slot, and passes the guard with no space at all. `makea` provides for every slot, so it never
      comes to this. */
  lemma GuardAdmitsOneSlotTooMany() returns (P: Problem, nz: int)
    ensures P.Valid() && P.SlotsBefore(P.Order()) == 1 && nz == 0
    ensures !(P.SlotsBefore(P.Order()) - 1 > nz) && P.SlotsBefore(P.Order()) > nz
  {
    P, nz := Problem([[0]], [[1.0]], 1.0, 0.0, 0.0), 0;
    assert P.EntryCount(0, 1, 0) == 1;
    assert P.VectorCount(1, 0) == 1;
    assert P.SlotsBefore(1) == 1;
  }

  /** `sparse`: count, reserve, insert, compact. */
  method Sparse(P: Problem, nz: int, a: array<real>, colidx: array<int>, rowstr: array<int>, nzloc: array<int>)
    returns (outcome: Outcome)
    requires P.Valid() && rowstr.Length == P.Order() + 1 && nzloc.Length == P.Order()
    requires Distinct(colidx, rowstr, nzloc) && a.Length == colidx.Length
    // the program compares the last slot, not the number of slots, with the space it has
    requires nz <= a.Length && (P.SlotsBefore(P.Order()) == nz + 1 ==> nz < a.Length)
    modifies a, colidx, rowstr, nzloc
    ensures outcome != InternalError
    ensures outcome == SpaceExceeded <==> P.SlotsBefore(P.Order()) > nz + 1
    ensures outcome == Done ==> Compressed(a[..], colidx[..], rowstr[..], RowsAfter(P, P.Order()))
  {
    hide Stored, Compressed, Problem.SlotsBefore, Problem.AfterVectors;
    var n := P.Order();
    CountSlots(P, rowstr);
    var nza := rowstr[n] - 1;
    if nza > nz {
      return SpaceExceeded;
    }
    StartsAscend(P, rowstr[..]);
    ghost var slots := rowstr[..];
    ClearSlots(n, a, colidx, rowstr, nzloc);
    EmptyRowsAreStored(P, a[..], colidx[..], rowstr[..], nzloc[..]);
    var failed := AddAll(P, a, colidx, rowstr, nzloc);
    if failed {
      return InternalError;
    }
    FinishedAccounts(P, rowstr[..], nzloc[..]);
    Squeeze(n, a, colidx, rowstr, nzloc, RowsAfter(P, n));
    outcome := Done;
  }

  lemma FinishedAccounts(P: Problem, rowstr: seq<int>, nzloc: seq<int>)
    requires P.Valid() && |rowstr| == P.Order() + 1 && |nzloc| == P.Order()
    requires forall j :: 0 <= j <= P.Order() ==> rowstr[j] == P.SlotsBefore(j)
    requires Accounted(RowsAfter(P, P.Order()), nzloc, MadeAfter(P, P.Order()))
    ensures forall j :: 0 <= j < P.Order() ==>
              0 <= nzloc[j] && |RowsAfter(P, P.Order())[j]| + nzloc[j] == rowstr[j + 1] - rowstr[j]
  {
    hide Problem.AfterVectors;
    forall j | 0 <= j < P.Order()
      ensures 0 <= nzloc[j] && |RowsAfter(P, P.Order())[j]| + nzloc[j] == rowstr[j + 1] - rowstr[j]
    {
      AllContributionsMade(P, j);
    }
  }
}
