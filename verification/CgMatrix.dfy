/**
  What the matrix assembled by `sparse` means, and the whole of `makea`: the sum over i of
  ratio^i v_i v_i^T, with rcond - shift added on the diagonal.
 */
module CgMatrix {
  import opened CgRows
  import opened CgSparse
  import Randlc
  import Division
  import RandomCycle
  import CgVectors

  /** Component `c` of vector `i`, from its first `q` entries. */
  function Component(P: Problem, i: nat, q: nat, c: int): real
    requires P.Valid() && i < P.Order() && q <= |P.acol[i]|
  {
    if q == 0 then 0.0
    else Component(P, i, q - 1, c) + if P.acol[i][q - 1] == c then P.aelt[i][q - 1] else 0.0
  }

  /** How often column `c` occurs among the first `q` entries of vector `i`. */
  function Occurrences(P: Problem, i: nat, q: nat, c: int): real
    requires P.Valid() && i < P.Order() && q <= |P.acol[i]|
  {
    if q == 0 then 0.0
    else Occurrences(P, i, q - 1, c) + if P.acol[i][q - 1] == c then 1.0 else 0.0
  }

  /** The dense vector `i`. */
  function V(P: Problem, i: nat, c: int): real
    requires P.Valid() && i < P.Order()
  {
    Component(P, i, |P.acol[i]|, c)
  }

  /** Element (j, c) of the sum of the first `i` scaled outer products plus the diagonal terms. */
  function Dense(P: Problem, i: nat, j: int, c: int): real
    requires P.Valid() && i <= P.Order()
  {
    if i == 0 then 0.0
    else
      var occ := Occurrences(P, i - 1, |P.acol[i - 1]|, i - 1);
      Dense(P, i - 1, j, c) + Power(P.ratio, i - 1) * (V(P, i - 1, j) * V(P, i - 1, c)) +
      if j == c == i - 1 then (P.rcond - P.shift) * (occ * occ) else 0.0
  }

  /** What the first `q` columns of entry `p` of vector `i` add at column `c`. */
  function ColumnPart(P: Problem, i: nat, p: nat, q: nat, c: int): real
    requires P.Valid() && i < P.Order() && p < |P.acol[i]| && q <= |P.acol[i]|
  {
    Power(P.ratio, i) * P.aelt[i][p] * Component(P, i, q, c) +
    if P.acol[i][p] == i && c == i then (P.rcond - P.shift) * Occurrences(P, i, q, i) else 0.0
  }

  /** What the first `p` entries of vector `i` add at element (j, c). */
  function EntryPart(P: Problem, i: nat, p: nat, j: int, c: int): real
    requires P.Valid() && i < P.Order() && p <= |P.acol[i]|
  {
    Power(P.ratio, i) * (Component(P, i, p, j) * V(P, i, c)) +
    if j == c == i then (P.rcond - P.shift) * (Occurrences(P, i, p, i) * Occurrences(P, i, |P.acol[i]|, i)) else 0.0
  }

  lemma ColumnArithmetic(s: real, x: real, u: real, t: real, d: real, o: real)
    ensures s * x * (u + t) == s * x * u + t * (s * x)
    ensures d * (o + 1.0) == d * o + d
    ensures d * (o + 0.0) == d * o && s * x * (u + 0.0) == s * x * u
  {}

  lemma ColumnPartStep(P: Problem, i: nat, p: nat, q: nat, c: int)
    requires P.Valid() && i < P.Order() && p < |P.acol[i]| && q < |P.acol[i]|
    ensures ColumnPart(P, i, p, q + 1, c) ==
            ColumnPart(P, i, p, q, c) + if P.acol[i][q] == c then P.Va(i, p, q) else 0.0
  {
    var s, x, u, t := Power(P.ratio, i), P.aelt[i][p], Component(P, i, q, c), P.aelt[i][q];
    var d, o := P.rcond - P.shift, Occurrences(P, i, q, i);
    ColumnArithmetic(s, x, u, t, d, o);
  }

  lemma EntryArithmetic(s: real, u: real, t: real, w: real, d: real, o: real, z: real)
    ensures s * ((u + t) * w) == s * (u * w) + s * t * w
    ensures d * ((o + 1.0) * z) == d * (o * z) + d * z
    ensures d * ((o + 0.0) * z) == d * (o * z) && s * ((u + 0.0) * w) == s * (u * w)
  {}

  lemma EntryPartStep(P: Problem, i: nat, p: nat, j: int, c: int)
    requires P.Valid() && i < P.Order() && p < |P.acol[i]|
    ensures EntryPart(P, i, p + 1, j, c) ==
            EntryPart(P, i, p, j, c) + if P.acol[i][p] == j then ColumnPart(P, i, p, |P.acol[i]|, c) else 0.0
  {
    var s, u, t, w := Power(P.ratio, i), Component(P, i, p, j), P.aelt[i][p], V(P, i, c);
    var d, o, z := P.rcond - P.shift, Occurrences(P, i, p, i), Occurrences(P, i, |P.acol[i]|, i);
    EntryArithmetic(s, u, t, w, d, o, z);
  }

  lemma NothingYet(P: Problem, i: nat, p: nat, j: int, c: int)
    requires P.Valid() && i < P.Order()
    ensures EntryPart(P, i, 0, j, c) == 0.0
    ensures p < |P.acol[i]| ==> ColumnPart(P, i, p, 0, c) == 0.0
  {}

  /** A row after the columns of one entry. */
  lemma {:induction false} ColumnsValue(P: Problem, i: nat, p: nat, q: nat, row: seq<Cell>, c: int)
    requires P.Valid() && i < P.Order() && p < |P.acol[i]| && q <= |P.acol[i]|
    ensures ValueAt(P.AfterColumns(i, p, q, row), c) == ValueAt(row, c) + ColumnPart(P, i, p, q, c)
  {
    hide ValueAt, Insert, ColumnPart, Problem.Va;
    if q == 0 {
      NothingYet(P, i, p, 0, c);
    } else {
      ColumnsValue(P, i, p, q - 1, row, c);
      InsertAdds(P.AfterColumns(i, p, q - 1, row), P.acol[i][q - 1], P.Va(i, p, q - 1), c);
      ColumnPartStep(P, i, p, q - 1, c);
    }
  }

  /** A row after the first entries of one vector. */
  lemma {:induction false} EntriesValue(P: Problem, i: nat, p: nat, j: int, row: seq<Cell>, c: int)
    requires P.Valid() && i < P.Order() && p <= |P.acol[i]|
    ensures ValueAt(P.AfterEntries(i, p, j, row), c) == ValueAt(row, c) + EntryPart(P, i, p, j, c)
  {
    hide ValueAt, Problem.AfterColumns, ColumnPart, EntryPart;
    NothingYet(P, i, 0, j, c);
    if p > 0 {
      EntriesValue(P, i, p - 1, j, row, c);
      ColumnsValue(P, i, p - 1, |P.acol[i]|, P.AfterEntries(i, p - 1, j, row), c);
      EntryPartStep(P, i, p - 1, j, c);
    }
  }

  lemma DenseStep(P: Problem, i: nat, j: int, c: int)
    requires P.Valid() && i < P.Order()
    ensures Dense(P, i + 1, j, c) == Dense(P, i, j, c) + EntryPart(P, i, |P.acol[i]|, j, c)
  {}

  /** An assembled row means the row of the sum of outer products. */
  lemma {:induction false} RowValue(P: Problem, i: nat, j: int, c: int)
    requires P.Valid() && i <= P.Order()
    ensures ValueAt(P.AfterVectors(i, j), c) == Dense(P, i, j, c)
  {
    if i == 0 {
    } else {
      hide ValueAt, Dense, EntryPart, Problem.AfterEntries;
      RowValue(P, i - 1, j, c);
      EntriesValue(P, i - 1, |P.acol[i - 1]|, j, P.AfterVectors(i - 1, j), c);
      DenseStep(P, i - 1, j, c);
    }
  }

  lemma {:induction false} DenseIsSymmetric(P: Problem, i: nat, j: int, c: int)
    requires P.Valid() && i <= P.Order()
    ensures Dense(P, i, j, c) == Dense(P, i, c, j)
  {
    if i > 0 {
      DenseIsSymmetric(P, i - 1, j, c);
      assert V(P, i - 1, j) * V(P, i - 1, c) == V(P, i - 1, c) * V(P, i - 1, j);
    }
  }

  lemma {:induction false} EntryColumnsBelow(P: Problem, i: nat, p: nat, q: nat, row: seq<Cell>)
    requires P.Valid() && i < P.Order() && p < |P.acol[i]| && q <= |P.acol[i]| && ColumnsBelow(row, P.Order())
    ensures ColumnsBelow(P.AfterColumns(i, p, q, row), P.Order())
  {
    hide Insert, ColumnsBelow;
    if q > 0 {
      EntryColumnsBelow(P, i, p, q - 1, row);
      InsertKeepsBelow(P.AfterColumns(i, p, q - 1, row), P.acol[i][q - 1], P.Va(i, p, q - 1), P.Order());
    }
  }

  lemma {:induction false} VectorColumnsBelow(P: Problem, i: nat, p: nat, j: int, row: seq<Cell>)
    requires P.Valid() && i < P.Order() && p <= |P.acol[i]| && ColumnsBelow(row, P.Order())
    ensures ColumnsBelow(P.AfterEntries(i, p, j, row), P.Order())
  {
    if p > 0 {
      VectorColumnsBelow(P, i, p - 1, j, row);
      EntryColumnsBelow(P, i, p - 1, |P.acol[i]|, P.AfterEntries(i, p - 1, j, row));
    }
  }

  lemma {:induction false} RowColumnsBelow(P: Problem, i: nat, j: int)
    requires P.Valid() && i <= P.Order()
    ensures ColumnsBelow(P.AfterVectors(i, j), P.Order())
  {
    if i > 0 {
      RowColumnsBelow(P, i - 1, j);
      VectorColumnsBelow(P, i - 1, |P.acol[i - 1]|, j, P.AfterVectors(i - 1, j));
    }
  }

  // ----- the matrix in compressed rows -----

  /** The sum of the values stored for column `c` in the slots from `lo` up to `hi`. */
  function SlotSum(a: seq<real>, colidx: seq<int>, lo: nat, hi: nat, c: int): real
    requires lo <= hi <= |a| && hi <= |colidx|
    decreases hi - lo
  {
    if lo == hi then 0.0
    else (if colidx[lo] == c then a[lo] else 0.0) + SlotSum(a, colidx, lo + 1, hi, c)
  }

  lemma {:induction false} SlotSumIsValue(a: seq<real>, colidx: seq<int>, lo: nat, row: seq<Cell>, c: int)
    requires CellsAt(a, colidx, lo, row)
    ensures SlotSum(a, colidx, lo, lo + |row|, c) == ValueAt(row, c)
    decreases |row|
  {
    if row == [] {
    } else {
      assert CellsAt(a, colidx, lo + 1, row[1..]) by {
        assert forall k :: 0 <= k < |row[1..]| ==> row[1..][k] == row[k + 1] && lo + 1 + k == lo + (k + 1);
      }
      SlotSumIsValue(a, colidx, lo + 1, row[1..], c);
      assert colidx[lo + 0] == row[0].col && a[lo + 0] == row[0].val;
    }
  }

  predicate RowInRange(rowstr: seq<int>, j: nat, n: nat) {
    j + 1 < |rowstr| && 0 <= rowstr[j] <= rowstr[j + 1] <= n
  }

  /** The columns stored for row `j` strictly increase. */
  ghost predicate ColumnsIncrease(colidx: seq<int>, rowstr: seq<int>, j: nat)
    requires RowInRange(rowstr, j, |colidx|)
  {
    forall k, m :: rowstr[j] <= k < m < rowstr[j + 1] ==> colidx[k] < colidx[m]
  }

  ghost predicate ColumnsInRange(colidx: seq<int>, rowstr: seq<int>, j: nat, n: nat)
    requires RowInRange(rowstr, j, |colidx|)
  {
    forall k :: rowstr[j] <= k < rowstr[j + 1] ==> 0 <= colidx[k] < n
  }

  /** Compressed rows of a matrix of order `n`. */
  ghost predicate WellFormed(n: nat, a: seq<real>, colidx: seq<int>, rowstr: seq<int>) {
    && |a| == |colidx| && |rowstr| == n + 1
    && (forall j :: 0 <= j < n ==> RowInRange(rowstr, j, |a|))
    && forall j :: 0 <= j < n ==> ColumnsInRange(colidx, rowstr, j, n)
  }

  /** Element (j, c) of a matrix in compressed rows. */
  function Element(a: seq<real>, colidx: seq<int>, rowstr: seq<int>, j: nat, c: int): real
    requires |a| == |colidx| && RowInRange(rowstr, j, |a|)
  {
    SlotSum(a, colidx, rowstr[j], rowstr[j + 1], c)
  }

  /** Compressed rows that hold the matrix of a problem: columns strictly increase along every row, and element
      (j, c) is the element of the sum of outer products. */
  ghost predicate IsMatrixOf(P: Problem, a: seq<real>, colidx: seq<int>, rowstr: seq<int>) {
    && P.Valid() && WellFormed(P.Order(), a, colidx, rowstr) && rowstr[0] == 0
    && (forall j :: 0 <= j < P.Order() ==> ColumnsIncrease(colidx, rowstr, j))
    && forall j, c :: 0 <= j < P.Order() ==> Element(a, colidx, rowstr, j, c) == Dense(P, P.Order(), j, c)
  }

  lemma CompressedRow(a: seq<real>, colidx: seq<int>, rowstr: seq<int>, rows: seq<seq<Cell>>, j: nat)
    requires |a| == |colidx| && Compressed(a, colidx, rowstr, rows) && j < |rows| && ColumnsBelow(rows[j], |rows|)
    ensures RowInRange(rowstr, j, |a|) && ColumnsIncrease(colidx, rowstr, j)
            && ColumnsInRange(colidx, rowstr, j, |rows|)
    ensures CellsAt(a, colidx, rowstr[j], rows[j]) && rowstr[j + 1] == rowstr[j] + |rows[j]|
  {
    var lo, row := rowstr[j], rows[j];
    assert CellsAt(a, colidx, lo, row) && Sorted(row);
    assert rowstr[j + 1] == lo + |row|;
    forall k, m | lo <= k < m < rowstr[j + 1] ensures colidx[k] < colidx[m] {
      assert colidx[lo + (k - lo)] == row[k - lo].col && colidx[lo + (m - lo)] == row[m - lo].col;
    }
    forall k | lo <= k < rowstr[j + 1] ensures 0 <= colidx[k] < |rows| {
      assert colidx[lo + (k - lo)] == row[k - lo].col;
    }
  }

  lemma CompressedIsMatrix(P: Problem, a: seq<real>, colidx: seq<int>, rowstr: seq<int>)
    requires P.Valid() && |a| == |colidx| && Compressed(a, colidx, rowstr, RowsAfter(P, P.Order()))
    ensures IsMatrixOf(P, a, colidx, rowstr)
  {
    hide Problem.AfterVectors, SlotSum, ValueAt, Dense, CellsAt, ColumnsIncrease, ColumnsInRange, ColumnsBelow;
    var rows := RowsAfter(P, P.Order());
    forall j | 0 <= j < P.Order()
      ensures RowInRange(rowstr, j, |a|) && ColumnsIncrease(colidx, rowstr, j)
              && ColumnsInRange(colidx, rowstr, j, |rows|)
      ensures CellsAt(a, colidx, rowstr[j], rows[j]) && rowstr[j + 1] == rowstr[j] + |rows[j]|
    {
      RowColumnsBelow(P, P.Order(), j);
      CompressedRow(a, colidx, rowstr, rows, j);
    }
    forall j, c | 0 <= j < P.Order()
      ensures Element(a, colidx, rowstr, j, c) == Dense(P, P.Order(), j, c)
    {
      assert RowInRange(rowstr, j, |a|);
      SlotSumIsValue(a, colidx, rowstr[j], rows[j], c);
      RowValue(P, P.Order(), j, c);
    }
  }

  /** The assembled matrix is symmetric. */
  lemma MatrixIsSymmetric(P: Problem, a: seq<real>, colidx: seq<int>, rowstr: seq<int>, j: nat, c: nat)
    requires IsMatrixOf(P, a, colidx, rowstr) && j < P.Order() && c < P.Order()
    ensures Element(a, colidx, rowstr, j, c) == Element(a, colidx, rowstr, c, j)
  {
    DenseIsSymmetric(P, P.Order(), j, c);
  }

  // ----- the space the program reserves -----

  /** The square of the length of every vector, added up. */
  function Squares(P: Problem, i: nat): nat
    requires i <= P.Order()
  {
    if i == 0 then 0 else Squares(P, i - 1) + |P.acol[i - 1]| * |P.acol[i - 1]|
  }

  /** Contributions of the first `p` entries of vector `i` to the rows before `m`. */
  function EntrySum(P: Problem, i: nat, p: nat, m: nat): nat
    requires i < P.Order() && p <= |P.acol[i]|
  {
    if m == 0 then 0 else EntrySum(P, i, p, m - 1) + P.EntryCount(i, p, m - 1)
  }

  lemma {:induction false} EntrySumStep(P: Problem, i: nat, p: nat, m: nat)
    requires P.Valid() && i < P.Order() && 0 < p <= |P.acol[i]|
    ensures EntrySum(P, i, p, m) == EntrySum(P, i, p - 1, m) + if P.acol[i][p - 1] < m then |P.acol[i]| else 0
  {
    if m > 0 { EntrySumStep(P, i, p, m - 1); }
  }

  lemma {:induction false} EntrySumEmpty(P: Problem, i: nat, m: nat)
    requires i < P.Order()
    ensures EntrySum(P, i, 0, m) == 0
  {
    if m > 0 { EntrySumEmpty(P, i, m - 1); }
  }

  /** Every entry contributes once for each entry of its vector. */
  lemma {:induction false} EntrySumIsProduct(P: Problem, i: nat, p: nat)
    requires P.Valid() && i < P.Order() && p <= |P.acol[i]|
    ensures EntrySum(P, i, p, P.Order()) == p * |P.acol[i]|
  {
    if p == 0 {
      EntrySumEmpty(P, i, P.Order());
    } else {
      EntrySumIsProduct(P, i, p - 1);
      EntrySumStep(P, i, p, P.Order());
      Division.OneMore(p - 1, |P.acol[i]|);
    }
  }

  /** Contributions of the first `i` vectors to the rows before `m`. */
  function VectorSum(P: Problem, i: nat, m: nat): nat
    requires i <= P.Order()
  {
    if m == 0 then 0 else VectorSum(P, i, m - 1) + P.VectorCount(i, m - 1)
  }

  lemma {:induction false} VectorSumStep(P: Problem, i: nat, m: nat)
    requires 0 < i <= P.Order()
    ensures VectorSum(P, i, m) == VectorSum(P, i - 1, m) + EntrySum(P, i - 1, |P.acol[i - 1]|, m)
  {
    if m > 0 { VectorSumStep(P, i, m - 1); }
  }

  lemma {:induction false} VectorSumEmpty(P: Problem, m: nat)
    ensures VectorSum(P, 0, m) == 0
  {
    if m > 0 { VectorSumEmpty(P, m - 1); }
  }

  lemma {:induction false} VectorSumIsSquares(P: Problem, i: nat)
    requires P.Valid() && i <= P.Order()
    ensures VectorSum(P, i, P.Order()) == Squares(P, i)
  {
    if i == 0 {
      VectorSumEmpty(P, P.Order());
    } else {
      VectorSumIsSquares(P, i - 1);
      VectorSumStep(P, i, P.Order());
      EntrySumIsProduct(P, i - 1, |P.acol[i - 1]|);
    }
  }

  lemma {:induction false} SlotsAreVectorSum(P: Problem, m: nat)
    ensures P.SlotsBefore(m) == VectorSum(P, P.Order(), m)
  {
    if m > 0 { SlotsAreVectorSum(P, m - 1); }
  }

  lemma {:induction false} SquaresBounded(P: Problem, i: nat, w: nat)
    requires i <= P.Order() && forall k :: 0 <= k < P.Order() ==> |P.acol[k]| <= w
    ensures Squares(P, i) <= i * (w * w)
  {
    if i > 0 {
      SquaresBounded(P, i - 1, w);
      Division.ProductBelow(|P.acol[i - 1]|, |P.acol[i - 1]|, w);
      Division.OneMore(i - 1, w * w);
    }
  }

  /** All rows together get a slot for every pair of entries of every vector: at most n (nonzer + 1)^2. */
  lemma SpaceSuffices(P: Problem, w: nat)
    requires P.Valid() && forall k :: 0 <= k < P.Order() ==> |P.acol[k]| <= w
    ensures P.SlotsBefore(P.Order()) == Squares(P, P.Order()) <= P.Order() * (w * w)
  {
    SlotsAreVectorSum(P, P.Order());
    VectorSumIsSquares(P, P.Order());
    SquaresBounded(P, P.Order(), w);
  }

  // ----- makea -----

  lemma {:induction false} OccursOnce(P: Problem, i: nat, q: nat, c: int)
    requires P.Valid() && i < P.Order() && q <= |P.acol[i]|
    requires forall j, k :: 0 <= j < k < |P.acol[i]| ==> P.acol[i][j] != P.acol[i][k]
    ensures Occurrences(P, i, q, c) == if c in P.acol[i][..q] then 1.0 else 0.0
  {
    if q > 0 {
      OccursOnce(P, i, q - 1, c);
      assert P.acol[i][..q] == P.acol[i][..q - 1] + [P.acol[i][q - 1]];
    }
  }

  /** With distinct columns the dense vector has every stored entry at its column, and zero elsewhere. */
  lemma {:induction false} VectorHoldsEntries(P: Problem, i: nat, q: nat, c: int)
    requires P.Valid() && i < P.Order() && q <= |P.acol[i]|
    requires forall j, k :: 0 <= j < k < |P.acol[i]| ==> P.acol[i][j] != P.acol[i][k]
    ensures forall k :: 0 <= k < q && P.acol[i][k] == c ==> Component(P, i, q, c) == P.aelt[i][k]
    ensures c !in P.acol[i][..q] ==> Component(P, i, q, c) == 0.0
  {
    if q > 0 {
      VectorHoldsEntries(P, i, q - 1, c);
      assert P.acol[i][..q] == P.acol[i][..q - 1] + [P.acol[i][q - 1]];
    }
  }

  /** Element (j, c) of the sum of ratio^i v_i v_i^T over the vectors before `i`. */
  function OuterSum(P: Problem, i: nat, j: int, c: int): real
    requires P.Valid() && i <= P.Order()
  {
    if i == 0 then 0.0 else OuterSum(P, i - 1, j, c) + Power(P.ratio, i - 1) * (V(P, i - 1, j) * V(P, i - 1, c))
  }

  ghost predicate GoodVectors(P: Problem, nonzer: nat) {
    && P.Valid()
    && forall i :: 0 <= i < P.Order() ==> CgVectors.GoodVector(P.acol[i], P.aelt[i], i, P.Order(), nonzer)
  }

  /** With distinct columns and the diagonal present in every vector, the diagonal gets rcond - shift exactly once. */
  lemma {:induction false} DenseIsOuterSum(P: Problem, nonzer: nat, i: nat, j: int, c: int)
    requires GoodVectors(P, nonzer) && i <= P.Order()
    ensures Dense(P, i, j, c) == OuterSum(P, i, j, c) + if j == c && 0 <= j < i then P.rcond - P.shift else 0.0
  {
    if i > 0 {
      DenseIsOuterSum(P, nonzer, i - 1, j, c);
      assert CgVectors.GoodVector(P.acol[i - 1], P.aelt[i - 1], i - 1, P.Order(), nonzer);
      OccursOnce(P, i - 1, |P.acol[i - 1]|, i - 1);
      assert P.acol[i - 1][..|P.acol[i - 1]|] == P.acol[i - 1];
    }
  }

  /** `makea`: the random vectors the seed determines, then the assembly in an array of n (nonzer + 1)^2 slots. It never
      runs out of space nor into the internal error, and returns the matrix sum of ratio^i v_i v_i^T +
      (rcond - shift) I. */
  method MakeA(g: Randlc.Generator, n: int, nonzer: nat, ratio: real, rcond: real, shift: real,
               a: array<real>, colidx: array<int>, rowstr: array<int>, iv: array<int>)
    returns (outcome: Outcome, ghost P: Problem, ghost pairs: seq<nat>)
    requires 0 < n <= 1073741824 && nonzer <= n
    requires 0 <= g.x < Randlc.T46 && RandomCycle.Odd(g.x)
    requires a.Length == colidx.Length == n * ((nonzer + 1) * (nonzer + 1)) && rowstr.Length == n + 1 && iv.Length == n
    requires Distinct(colidx, rowstr, iv)
    modifies g, a, colidx, rowstr, iv
    ensures outcome == Done && P.Order() == n && GoodVectors(P, nonzer)
    ensures |pairs| == n && forall i :: 0 <= i < n ==>
              CgVectors.RowIsDrawn(old(g.x), n, nonzer, pairs, i, P.acol[i], P.aelt[i])
    ensures g.x == Randlc.Iterate(CgVectors.AMULT, old(g.x), 2 * CgVectors.TotalPairs(pairs))
    ensures P.ratio == ratio && P.rcond == rcond && P.shift == shift
    ensures IsMatrixOf(P, a[..], colidx[..], rowstr[..])
    ensures forall j, c :: 0 <= j < n && 0 <= c < n ==>
              Element(a[..], colidx[..], rowstr[..], j, c) ==
              OuterSum(P, n, j, c) + if j == c then rcond - shift else 0.0
  {
    hide Problem.SlotsBefore, Dense, OuterSum, Element, RowsAfter;
    var acol, aelt, drawn := CgVectors.MakeVectors(g, n, nonzer);
    pairs := drawn;
    var p := Problem(acol, aelt, ratio, rcond, shift);
    P := p;
    VectorsAreGood(P, nonzer, n);
    SpaceSuffices(P, nonzer + 1);
    outcome := Sparse(p, n * ((nonzer + 1) * (nonzer + 1)), a, colidx, rowstr, iv);
    CompressedIsMatrix(P, a[..], colidx[..], rowstr[..]);
    forall j, c | 0 <= j < n && 0 <= c < n
      ensures Element(a[..], colidx[..], rowstr[..], j, c) ==
              OuterSum(P, n, j, c) + if j == c then rcond - shift else 0.0
    {
      DenseIsOuterSum(P, nonzer, n, j, c);
    }
  }

  lemma VectorsAreGood(P: Problem, nonzer: nat, n: nat)
    requires |P.acol| == |P.aelt| == n
    requires forall i :: 0 <= i < n ==> CgVectors.GoodVector(P.acol[i], P.aelt[i], i, n, nonzer)
    ensures GoodVectors(P, nonzer) && forall k :: 0 <= k < P.Order() ==> |P.acol[k]| <= nonzer + 1
  {}
}
