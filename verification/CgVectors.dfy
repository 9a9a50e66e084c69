/**
  The random sparse vectors of the CG benchmark: `sprnvc` draws a value and a position in turn until
  it has `nz` distinct positions, `vecset` forces one position, and the first half of `makea`
  collects one such vector for every row.
 */
module CgVectors {
  import opened Division
  import opened RandomCycle
  import opened Randlc

  /** The multiplier `amult`. */
  const AMULT: int := 1220703125

  /** It is 5 to the power 13. */
  lemma MultiplierIsPower()
    ensures AMULT == Pow(5, 13)
  {
    assert Pow(5, 4) == 625;
    assert Pow(5, 8) == 390625;
    assert Pow(5, 12) == 244140625;
  }

  /** Scales a draw in (0, 1) by a power of two and chops it. */
  function Icnvrt(x: real, ipwr2: int): (i: int)
    requires 0.0 <= x < 1.0 && 0 < ipwr2 < 2147483648
    ensures 0 <= i < ipwr2
  {
    ChopBelow(ipwr2, x);
    Truncate(ipwr2 as real * x)
  }

  lemma ChopBelow(p: int, x: real)
    requires 0.0 <= x < 1.0 && 0 < p
    ensures 0.0 <= p as real * x < p as real && 0 <= (p as real * x).Floor < p
  {
    ScaledBelow(p as real, x);
    var t := p as real * x;
    assert t.Floor as real <= t;
  }

  /** The position, between 1 and `nn1`, that the seed `x` stands for. */
  function Position(x: int, nn1: int): (i: int)
    requires 0 <= x < T46 && 0 < nn1 < 2147483648
    ensures 1 <= i <= nn1
  {
    Icnvrt(R46 * x as real, nn1) + 1
  }

  datatype Entry = Entry(value: real, index: int)

  predicate HasIndex(es: seq<Entry>, i: int) {
    exists k :: 0 <= k < |es| && es[k].index == i
  }

  /** The entries that the first `pairs` pairs of draws after the seed `x` yield: each pair is a value and a
      position, and counts when the position is at most `n` and new. */
  function Accepted(x: int, n: int, nn1: int, pairs: nat): (es: seq<Entry>)
    requires 0 <= x < T46 && 0 < nn1 < 2147483648
    ensures |es| <= pairs
    ensures forall k :: 0 <= k < |es| ==> 1 <= es[k].index <= n
    ensures forall j, k :: 0 <= j < k < |es| ==> es[j].index != es[k].index
  {
    if pairs == 0 then []
    else
      var es := Accepted(x, n, nn1, pairs - 1);
      var i := Position(Iterate(AMULT, x, 2 * pairs), nn1);
      if i <= n && !HasIndex(es, i)
      then es + [Entry(R46 * Iterate(AMULT, x, 2 * pairs - 1) as real, i)]
      else es
  }

  function UpTo(n: nat): (s: set<int>)
    ensures |s| == n && forall i :: i in s <==> 1 <= i <= n
  {
    if n == 0 then {} else UpTo(n - 1) + {n}
  }

  function Indices(es: seq<Entry>): (s: set<int>)
    ensures |s| <= |es| && forall i :: i in s <==> HasIndex(es, i)
  {
    if es == [] then {} else
      var last := es[|es| - 1].index;
      assert forall i :: HasIndex(es, i) <==> HasIndex(es[..|es| - 1], i) || i == last;
      Indices(es[..|es| - 1]) + {last}
  }

  lemma SubsetIsSmaller<T>(a: set<T>, b: set<T>)
    requires a <= b
    ensures |a| <= |b|
  {
    assert b == a + (b - a);
  }

  /** Fewer than `n` entries leave some position between 1 and `n` free. */
  lemma SomePositionIsFree(es: seq<Entry>, n: nat) returns (i: int)
    requires |es| < n
    ensures 1 <= i <= n && !HasIndex(es, i)
  {
    if UpTo(n) <= Indices(es) {
      SubsetIsSmaller(UpTo(n), Indices(es));
    }
    i :| i in UpTo(n) && i !in Indices(es);
  }

  lemma {:induction false} DistinctIndices(es: seq<Entry>)
    requires forall j, k :: 0 <= j < k < |es| ==> es[j].index != es[k].index
    ensures |Indices(es)| == |es|
  {
    if es != [] {
      var n := |es| - 1;
      DistinctIndices(es[..n]);
      assert !HasIndex(es[..n], es[n].index);
    }
  }

  /** There are never more accepted entries than positions, so `sprnvc` asked for more than `n` entries would not
      return. */
  lemma NoMoreThanPositions(x: int, n: nat, nn1: int, pairs: nat)
    requires 0 <= x < T46 && 0 < nn1 < 2147483648
    ensures |Accepted(x, n, nn1, pairs)| <= n
  {
    hide Iterate, Position;
    var es := Accepted(x, n, nn1, pairs);
    DistinctIndices(es);
    assert Indices(es) <= UpTo(n);
    SubsetIsSmaller(Indices(es), UpTo(n));
  }

  lemma PositionIsQuotient(x: int, nn1: int)
    requires 0 <= x < T46 && 0 < nn1 < 2147483648
    ensures Position(x, nn1) == nn1 * x / T46 + 1
  {
    FloorOfScaled(nn1 * x, T46, R46);
    RealReorder(nn1, x, R46);
    ScaledBelow(nn1 as real, R46 * x as real);
  }

  lemma RealReorder(n: int, x: int, r: real)
    ensures n as real * (r * x as real) == r * (n * x) as real
  {
    assert (n * x) as real == n as real * x as real;
  }

  /** Position i stands for `len` consecutive seeds when nn1 * len = 2^46. */
  lemma RangeOfPosition(x: int, i: int, nn1: int, len: int)
    requires 0 < nn1 < 2147483648 && nn1 * len == T46 && 0 < len
    requires 1 <= i <= nn1 && (i - 1) * len <= x < i * len
    ensures 0 <= x < T46 && Position(x, nn1) == i
  {
    Monotone(0, i - 1, len);
    Monotone(i, nn1, len);
    PositionIsQuotient(x, nn1);
    ScaleRange(x, i, nn1, len);
    RestIsUnique(nn1 * x, T46, i - 1, nn1 * x - T46 * (i - 1));
  }

  lemma ScaleRange(x: int, i: int, nn1: int, len: int)
    requires 0 < nn1 && (i - 1) * len <= x < i * len
    ensures (nn1 * len) * (i - 1) <= nn1 * x < (nn1 * len) * i
  {
    Monotone((i - 1) * len, x, nn1);
    Monotone(x + 1, i * len, nn1);
    assert (nn1 * len) * (i - 1) == ((i - 1) * len) * nn1;
    assert (nn1 * len) * i == (i * len) * nn1;
  }

  /** Whatever the seed, some later pair of draws gives the position `i`. */
  lemma PositionComesUp(x: int, i: int, nn1: int, b: nat) returns (d: nat)
    requires 0 <= x < T46 && Odd(x) && nn1 == Pow2(b) && 1 <= b <= 30 && 1 <= i <= nn1 < 2147483648
    ensures d <= 8796093022208 && 0 < d && Position(Iterate(AMULT, x, 2 * d), nn1) == i
  {
    Pow2Values();
    Pow2Add(b, 46 - b);
    Pow2Add(3, 43 - b);
    hide Pow2;
    var len := Pow2(46 - b);
    var x1 := Iterate(AMULT, x, 2);
    SeedsStayOdd(AMULT, x, 2);
    var y := (i - 1) * len + x1 % 8;
    assert Pow2(46 - b) == 8 * Pow2(43 - b);
    TargetSeed(i, len, Pow2(43 - b), x1);
    RangeOfPosition(y, i, nn1, len);
    var e := PairsReach(AMULT, x1, y);
    IterateAdd(AMULT, x, 2, 2 * e);
    d := e + 1;
  }

  lemma TargetSeed(i: int, len: int, eighth: int, x1: int)
    requires 1 <= i && len == 8 * eighth && 0 < eighth
    ensures var y := (i - 1) * len + x1 % 8; y % 8 == x1 % 8 && (i - 1) * len <= y < i * len
  {
    var m := (i - 1) * eighth;
    assert (i - 1) * len == 8 * m;
    assert i * len == (i - 1) * len + len;
  }

  /** Pair `p`, counted from 1, draws position `i`. */
  predicate Gives(x: int, nn1: int, p: nat, i: int)
    requires 0 <= x < T46 && 0 < nn1 < 2147483648
  {
    Position(Iterate(AMULT, x, 2 * p), nn1) == i
  }

  /** A position up to `n` is among the accepted ones exactly when one of the pairs gives it. */
  lemma {:induction false} AcceptedPositions(x: int, n: int, nn1: int, pairs: nat, i: int)
    requires 0 <= x < T46 && 0 < nn1 < 2147483648 && i <= n
    ensures HasIndex(Accepted(x, n, nn1, pairs), i) <==> exists p: nat :: 0 < p <= pairs && Gives(x, nn1, p, i)
  {
    hide Position, Iterate;
    if pairs > 0 {
      AcceptedPositions(x, n, nn1, pairs - 1, i);
      var es, after := Accepted(x, n, nn1, pairs - 1), Accepted(x, n, nn1, pairs);
      assert es <= after;
      if Gives(x, nn1, pairs, i) && !HasIndex(es, i) { assert after[|es|].index == i; }
    }
  }

  /** Its value is the draw before the first of them. */
  lemma {:induction false} AcceptedValues(x: int, n: int, nn1: int, pairs: nat, p: nat, i: int)
    requires 0 <= x < T46 && 0 < nn1 < 2147483648 && i <= n && 0 < p <= pairs && Gives(x, nn1, p, i)
    requires forall q: nat :: 0 < q < p ==> !Gives(x, nn1, q, i)
    ensures Entry(R46 * Iterate(AMULT, x, 2 * p - 1) as real, i) in Accepted(x, n, nn1, pairs)
    decreases pairs
  {
    hide Position, Iterate;
    if p < pairs {
      AcceptedValues(x, n, nn1, pairs - 1, p, i);
    } else {
      AcceptedPositions(x, n, nn1, p - 1, i);
    }
  }

  // ----- the program's form -----

  /** The entries held in the arrays `v` and `iv`. */
  ghost function Entries(v: seq<real>, iv: seq<int>): (es: seq<Entry>)
    requires |v| == |iv|
    ensures |es| == |v|
  {
    seq(|v|, k requires 0 <= k < |v| => Entry(v[k], iv[k]))
  }

  /** One pair of draws: a value, then a position. */
  method DrawPair(g: Generator, nn1: int, ghost x: int, ghost pairs: nat) returns (vecelt: real, i: int)
    requires 0 <= x < T46 && Odd(x) && g.x == Iterate(AMULT, x, 2 * pairs) && 0 < nn1 < 2147483648
    modifies g
    ensures g.x == Iterate(AMULT, x, 2 * (pairs + 1))
    ensures vecelt == R46 * Iterate(AMULT, x, 2 * pairs + 1) as real
    ensures i == Position(g.x, nn1)
  {
    vecelt := g.Randlc(AMULT);
    var vecloc := g.Randlc(AMULT);
    IterateStep(AMULT, x, 2 * pairs + 1);
    IterateStep(AMULT, x, 2 * pairs + 2);
    SeedsStayOdd(AMULT, x, 2 * pairs + 2);
    i := Icnvrt(vecloc, nn1) + 1;
  }

  /** Was this position generated already? */
  method WasGenerated(iv: array<int>, nzv: nat, i: int) returns (found: bool)
    requires nzv <= iv.Length
    ensures found <==> i in iv[..nzv]
  {
    found := false;
    var ii := 0;
    while ii < nzv
      invariant 0 <= ii <= nzv && !found
      invariant i !in iv[..ii]
    {
      if iv[ii] == i {
        found := true;
        break;
      }
      ii := ii + 1;
    }
  }

  lemma EntriesHaveIndex(v: seq<real>, iv: seq<int>, i: int)
    requires |v| == |iv|
    ensures HasIndex(Entries(v, iv), i) <==> i in iv
  {
    var es := Entries(v, iv);
    assert forall k :: 0 <= k < |es| ==> es[k].index == iv[k];
  }

  lemma AcceptedStep(x: int, n: int, nn1: int, pairs: nat, vecelt: real, i: int)
    requires 0 <= x < T46 && 0 < nn1 < 2147483648
    requires vecelt == R46 * Iterate(AMULT, x, 2 * pairs + 1) as real
    requires i == Position(Iterate(AMULT, x, 2 * (pairs + 1)), nn1)
    ensures Accepted(x, n, nn1, pairs + 1) ==
            var es := Accepted(x, n, nn1, pairs);
            if i <= n && !HasIndex(es, i) then es + [Entry(vecelt, i)] else es
  {
    hide Iterate, Position;
  }

  /** After `pairs` pairs from the seed `x` the generator stands at `x'` and the arrays start with the accepted
      entries; every pair but the last found entries missing. */
  ghost predicate Collected(x: int, x': int, n: int, nn1: int, nz: nat, pairs: nat, v: seq<real>, iv: seq<int>)
    requires 0 <= x < T46 && 0 < nn1 < 2147483648
  {
    && x' == Iterate(AMULT, x, 2 * pairs)
    && |v| == |iv| && Entries(v, iv) == Accepted(x, n, nn1, pairs)
    && (pairs > 0 ==> |Accepted(x, n, nn1, pairs - 1)| < nz)
  }

  /** One turn of the loop of `sprnvc`: a pair that is out of range or generated already is skipped. */
  method AcceptPair(g: Generator, n: int, nn1: int, nz: nat, v: array<real>, iv: array<int>, nzv: nat,
                    ghost x: int, ghost pairs: nat) returns (nzv': nat)
    requires 0 <= x < T46 && Odd(x) && 0 < nn1 < 2147483648
    requires nzv < nz <= v.Length && nz <= iv.Length
    requires Collected(x, g.x, n, nn1, nz, pairs, v[..nzv], iv[..nzv])
    modifies g, v, iv
    ensures nzv <= nzv' <= nzv + 1 && Collected(x, g.x, n, nn1, nz, pairs + 1, v[..nzv'], iv[..nzv'])
    ensures v[nz..] == old(v[nz..]) && iv[nz..] == old(iv[nz..])
  {
    hide Iterate, Position, Icnvrt, Accepted;
    nzv' := nzv;
    var vecelt, i := DrawPair(g, nn1, x, pairs);
    AcceptedStep(x, n, nn1, pairs, vecelt, i);
    if i > n {
      return;
    }
    var wasGen := WasGenerated(iv, nzv, i);
    EntriesHaveIndex(v[..nzv], iv[..nzv], i);
    if wasGen {
      return;
    }
    ghost var es := Entries(v[..nzv], iv[..nzv]);
    v[nzv], iv[nzv] := vecelt, i;
    nzv' := nzv + 1;
    assert Entries(v[..nzv'], iv[..nzv']) == es + [Entry(vecelt, i)];
  }

  lemma NothingCollected(x: int, n: int, nn1: int, nz: nat)
    requires 0 <= x < T46 && 0 < nn1 < 2147483648
    ensures Collected(x, x, n, nn1, nz, 0, [], [])
  {}

  /** `sprnvc`: fills `v` and `iv` with the first `nz` accepted entries. It terminates because every position
      comes up again and again in the generator's cycle. */
  method Sprnvc(g: Generator, n: int, nz: int, nn1: int, ghost b: nat, v: array<real>, iv: array<int>)
    returns (ghost pairs: nat)
    requires 0 <= nz <= n <= nn1 && nn1 == Pow2(b) < 2147483648 && 1 <= b <= 30
    requires nz <= v.Length && nz <= iv.Length
    requires 0 <= g.x < T46 && Odd(g.x)
    modifies g, v, iv
    ensures Collected(old(g.x), g.x, n, nn1, nz, pairs, v[..nz], iv[..nz])
    ensures v[nz..] == old(v[nz..]) && iv[nz..] == old(iv[nz..])
  {
    ghost var x := g.x;
    pairs := 0;
    NothingCollected(x, n, nn1, nz);
    hide Collected, Iterate, Pow2, Position, Accepted, Awaited, Odd;
    var nzv := 0;
    assert v[..0] == [] && iv[..0] == [];
    ghost var target, wait := 0, 0;
    if nzv < nz {
      target, wait := NextFree(x, g.x, n, nn1, b, nz, 0, v[..0], iv[..0]);
    }
    while nzv < nz
      invariant 0 <= nzv <= nz
      invariant Collected(x, g.x, n, nn1, nz, pairs, v[..nzv], iv[..nzv])
      invariant v[nz..] == old(v[nz..]) && iv[nz..] == old(iv[nz..])
      invariant nzv < nz ==> Awaited(x, n, nn1, pairs, target, wait)
      decreases nz - nzv, wait
    {
      var before := nzv;
      ghost var x1, v1, iv1 := g.x, v[..nzv], iv[..nzv];
      nzv := AcceptPair(g, n, nn1, nz, v, iv, nzv, x, pairs);
      pairs := pairs + 1;
      if nzv == before {
        StillAwaited(x, x1, g.x, n, nn1, nz, pairs - 1, v1, iv1, v[..nzv], iv[..nzv], target, wait);
        wait := wait - 1;
      } else if nzv < nz {
        target, wait := NextFree(x, g.x, n, nn1, b, nz, pairs, v[..nzv], iv[..nzv]);
      }
    }
  }

  /** The free position `target` comes up `wait` pairs from here. */
  ghost predicate Awaited(x: int, n: int, nn1: int, pairs: nat, target: int, wait: nat)
    requires 0 <= x < T46 && 0 < nn1 < 2147483648
  {
    && 0 < wait && 1 <= target <= n && !HasIndex(Accepted(x, n, nn1, pairs), target)
    && Position(Iterate(AMULT, x, 2 * (pairs + wait)), nn1) == target
  }

  /** A pair that is not accepted brings the awaited position one pair closer. */
  lemma StillAwaited(x: int, x1: int, x2: int, n: int, nn1: int, nz: nat, pairs: nat, v: seq<real>, iv: seq<int>,
                     v': seq<real>, iv': seq<int>, target: int, wait: nat)
    requires 0 <= x < T46 && 0 < nn1 < 2147483648 && Awaited(x, n, nn1, pairs, target, wait)
    requires Collected(x, x1, n, nn1, nz, pairs, v, iv) && Collected(x, x2, n, nn1, nz, pairs + 1, v', iv')
    requires |v| == |v'|
    ensures 1 < wait && Awaited(x, n, nn1, pairs + 1, target, wait - 1)
  {
    hide Iterate, Position;
  }

  /** While entries are missing, a free position comes up some pairs later. */
  lemma NextFree(x: int, s: int, n: int, nn1: int, b: nat, nz: nat, pairs: nat, v: seq<real>, iv: seq<int>)
    returns (target: int, wait: nat)
    requires 0 <= x < T46 && Odd(x) && nn1 == Pow2(b) < 2147483648 && 1 <= b <= 30
    requires Collected(x, s, n, nn1, nz, pairs, v, iv) && |v| < n <= nn1
    ensures Awaited(x, n, nn1, pairs, target, wait)
  {
    hide Pow2, Position;
    target := SomePositionIsFree(Accepted(x, n, nn1, pairs), n);
    SeedsStayOdd(AMULT, x, 2 * pairs);
    wait := PositionComesUp(s, target, nn1, b);
    IterateAdd(AMULT, x, 2 * pairs, 2 * wait);
  }

  lemma IterateStep(a: int, x: int, n: nat)
    requires 0 <= x < T46 && 0 < n
    ensures Iterate(a, x, n) == (a * Iterate(a, x, n - 1)) % T46
  {}

  /** `vecset`: gives position `i` the value `val`, appending it when it is not among the first `nzv` positions. */
  method Vecset(v: array<real>, iv: array<int>, nzv: nat, i: int, val: real) returns (nzv': nat)
    requires nzv < v.Length && nzv < iv.Length
    modifies v, iv
    ensures nzv' == if i in old(iv[..nzv]) then nzv else nzv + 1
    ensures iv[..nzv'] == if i in old(iv[..nzv]) then old(iv[..nzv]) else old(iv[..nzv]) + [i]
    ensures forall k :: 0 <= k < nzv' ==> v[k] == if iv[k] == i then val else old(v[k])
  {
    var set_ := false;
    for k := 0 to nzv
      invariant set_ <==> i in iv[..k]
      invariant iv[..nzv] == old(iv[..nzv])
      invariant forall m :: 0 <= m < nzv ==> v[m] == if m < k && iv[m] == i then val else old(v[m])
    {
      if iv[k] == i {
        v[k] := val;
        set_ := true;
      }
    }
    nzv' := nzv;
    if !set_ {
      v[nzv] := val;
      iv[nzv] := i;
      nzv' := nzv + 1;
      assert iv[..nzv'] == iv[..nzv] + [i];
    }
  }

  /** The vector of row `i`: its columns, counted from 0, are distinct, and the diagonal one is among them. */
  predicate GoodVector(cols: seq<int>, vals: seq<real>, i: int, n: int, nonzer: nat) {
    && |cols| == |vals| && nonzer <= |cols| <= nonzer + 1
    && (forall k :: 0 <= k < |cols| ==> 0 <= cols[k] < n)
    && (forall j, k :: 0 <= j < k < |cols| ==> cols[j] != cols[k])
    && exists k :: 0 <= k < |cols| && cols[k] == i && vals[k] == 0.5
  }

  /** The vector `vecset` leaves in the work arrays, moved to columns counted from 0. */
  method CopyVector(v: array<real>, iv: array<int>, nzv: nat) returns (cols: seq<int>, vals: seq<real>)
    requires nzv <= v.Length && nzv <= iv.Length
    ensures |cols| == |vals| == nzv
    ensures forall k :: 0 <= k < nzv ==> cols[k] == iv[k] - 1 && vals[k] == v[k]
  {
    cols, vals := [], [];
    for k := 0 to nzv
      invariant |cols| == |vals| == k
      invariant forall m :: 0 <= m < k ==> cols[m] == iv[m] - 1 && vals[m] == v[m]
    {
      cols := cols + [iv[k] - 1];
      vals := vals + [v[k]];
    }
  }

  lemma CollectedPositions(x: int, x': int, n: int, nn1: int, nz: nat, pairs: nat, v: seq<real>, iv: seq<int>)
    requires 0 <= x < T46 && Odd(x) && 0 < nn1 < 2147483648 && Collected(x, x', n, nn1, nz, pairs, v, iv)
    ensures 0 <= x' < T46 && Odd(x')
    ensures forall k :: 0 <= k < |iv| ==> 1 <= iv[k] <= n
    ensures forall j, k :: 0 <= j < k < |iv| ==> iv[j] != iv[k]
  {
    SeedsStayOdd(AMULT, x, 2 * pairs);
    var es := Accepted(x, n, nn1, pairs);
    hide Accepted, Iterate;
    assert forall k :: 0 <= k < |iv| ==> iv[k] == es[k].index;
  }

  lemma GoodFromPositions(iv: seq<int>, iv': seq<int>, v': seq<real>, cols: seq<int>, i: int, n: int)
    requires 0 <= i < n && |iv'| == |v'| == |cols|
    requires forall k :: 0 <= k < |iv| ==> 1 <= iv[k] <= n
    requires forall j, k :: 0 <= j < k < |iv| ==> iv[j] != iv[k]
    requires iv' == if i + 1 in iv then iv else iv + [i + 1]
    requires forall k :: 0 <= k < |iv'| && iv'[k] == i + 1 ==> v'[k] == 0.5
    requires forall k :: 0 <= k < |iv'| ==> cols[k] == iv'[k] - 1
    ensures GoodVector(cols, v', i, n, |iv|)
  {
    assert i + 1 in iv';
    var d :| 0 <= d < |iv'| && iv'[d] == i + 1;
    assert cols[d] == i && v'[d] == 0.5;
  }

  // ----- the vectors as draws -----

  /** What `vecset` makes of a list of entries. */
  function WithEntry(es: seq<Entry>, i: int, val: real): (after: seq<Entry>)
    ensures |after| == if HasIndex(es, i) then |es| else |es| + 1
  {
    if HasIndex(es, i) then seq(|es|, k requires 0 <= k < |es| => if es[k].index == i then Entry(val, i) else es[k])
    else es + [Entry(val, i)]
  }

  /** Vector `i` is what the draws after the seed `x` give: the first `nonzer` accepted entries, found in just `pairs`
      pairs, with one half on the diagonal. */
  ghost predicate IsDrawn(x: int, n: int, nn1: int, nonzer: nat, pairs: nat, i: int, cols: seq<int>, vals: seq<real>)
    requires 0 <= x < T46 && 0 < nn1 < 2147483648
  {
    var es := Accepted(x, n, nn1, pairs);
    var after := WithEntry(es, i + 1, 0.5);
    && |es| == nonzer && (pairs > 0 ==> |Accepted(x, n, nn1, pairs - 1)| < nonzer)
    && |cols| == |vals| == |after| && forall k :: 0 <= k < |after| ==> Entry(vals[k], cols[k] + 1) == after[k]
  }

  lemma DrawnFromArrays(x: int, x': int, n: int, nn1: int, nz: nat, pairs: nat, v: seq<real>, iv: seq<int>,
                        v': seq<real>, iv': seq<int>, i: int, cols: seq<int>)
    requires 0 <= x < T46 && 0 < nn1 < 2147483648 && Collected(x, x', n, nn1, nz, pairs, v, iv) && |v| == nz
    requires |iv'| == |v'| == |cols| && iv' == if i + 1 in iv then iv else iv + [i + 1]
    requires forall k :: 0 <= k < |iv'| ==> cols[k] == iv'[k] - 1
    requires forall k :: 0 <= k < |iv'| && iv'[k] == i + 1 ==> v'[k] == 0.5
    requires forall k :: 0 <= k < |iv| && iv'[k] != i + 1 ==> v'[k] == v[k]
    ensures IsDrawn(x, n, nn1, nz, pairs, i, cols, v')
  {
    hide Accepted, Iterate;
    var es := Entries(v, iv);
    EntriesHaveIndex(v, iv, i + 1);
    var after := WithEntry(es, i + 1, 0.5);
    forall k | 0 <= k < |after| ensures Entry(v'[k], cols[k] + 1) == after[k] {
      if k < |es| { assert es[k] == Entry(v[k], iv[k]); }
    }
  }

  lemma {:induction false} AcceptedInUnit(x: int, n: int, nn1: int, pairs: nat)
    requires 0 <= x < T46 && Odd(x) && 0 < nn1 < 2147483648
    ensures forall k :: 0 <= k < |Accepted(x, n, nn1, pairs)| ==> 0.0 < Accepted(x, n, nn1, pairs)[k].value < 1.0
  {
    hide Iterate, Position;
    if pairs > 0 {
      AcceptedInUnit(x, n, nn1, pairs - 1);
      SeedsStayOdd(AMULT, x, 2 * pairs - 1);
    }
  }

  /** The values of a vector lie strictly between 0 and 1. */
  lemma DrawnInUnit(x: int, n: int, nn1: int, nonzer: nat, pairs: nat, i: int, cols: seq<int>, vals: seq<real>)
    requires 0 <= x < T46 && Odd(x) && 0 < nn1 < 2147483648 && IsDrawn(x, n, nn1, nonzer, pairs, i, cols, vals)
    ensures forall k :: 0 <= k < |vals| ==> 0.0 < vals[k] < 1.0
  {
    hide Accepted, Iterate;
    AcceptedInUnit(x, n, nn1, pairs);
    var after := WithEntry(Accepted(x, n, nn1, pairs), i + 1, 0.5);
    forall k | 0 <= k < |vals| ensures 0.0 < vals[k] < 1.0 {
      assert Entry(vals[k], cols[k] + 1) == after[k];
    }
  }

  /** One row of `makea`: `nonzer` random positions, then the diagonal one. */
  method MakeVector(g: Generator, n: int, nn1: int, nonzer: nat, i: int, ghost b: nat, v: array<real>, iv: array<int>)
    returns (cols: seq<int>, vals: seq<real>, ghost pairs: nat)
    requires nonzer <= n <= nn1 && nn1 == Pow2(b) < 2147483648 && 1 <= b <= 30 && 0 <= i < n
    requires v.Length == iv.Length == nonzer + 1
    requires 0 <= g.x < T46 && Odd(g.x)
    modifies g, v, iv
    ensures 0 <= g.x < T46 && Odd(g.x) && g.x == Iterate(AMULT, old(g.x), 2 * pairs)
    ensures IsDrawn(old(g.x), n, nn1, nonzer, pairs, i, cols, vals)
    ensures GoodVector(cols, vals, i, n, nonzer)
  {
    hide Pow2, Odd, Iterate, Collected, GoodVector, IsDrawn;
    ghost var x := g.x;
    pairs := Sprnvc(g, n, nonzer, nn1, b, v, iv);
    CollectedSeed(x, g.x, n, nn1, nonzer, pairs, v[..nonzer], iv[..nonzer]);
    CollectedPositions(x, g.x, n, nn1, nonzer, pairs, v[..nonzer], iv[..nonzer]);
    ghost var v0, iv0 := v[..nonzer], iv[..nonzer];
    var nzv := Vecset(v, iv, nonzer, i + 1, 0.5);
    cols, vals := CopyVector(v, iv, nzv);
    assert vals == v[..nzv];
    GoodFromPositions(iv0, iv[..nzv], v[..nzv], cols, i, n);
    DrawnFromArrays(x, g.x, n, nn1, nonzer, pairs, v0, iv0, v[..nzv], iv[..nzv], i, cols);
  }

  lemma CollectedSeed(x: int, x': int, n: int, nn1: int, nz: nat, pairs: nat, v: seq<real>, iv: seq<int>)
    requires 0 <= x < T46 && 0 < nn1 < 2147483648 && Collected(x, x', n, nn1, nz, pairs, v, iv)
    ensures x' == Iterate(AMULT, x, 2 * pairs)
  {}

  /** Doubling `p` until it is not below `n`. */
  function DoubledTo(p: int, n: int): (q: int)
    requires 0 < p
    ensures p <= q && n <= q && (q == p || q < 2 * n)
    decreases n - p
  {
    if p < n then DoubledTo(2 * p, n) else p
  }

  /** The pairs of draws that the first vectors take. */
  function TotalPairs(pairs: seq<nat>): nat {
    if pairs == [] then 0 else TotalPairs(pairs[..|pairs| - 1]) + pairs[|pairs| - 1]
  }

  /** Vector `i` is drawn from the seed that the vectors before it leave; `pairs` tells how many pairs each takes. */
  ghost predicate RowIsDrawn(x: int, n: int, nonzer: nat, pairs: seq<nat>, i: nat, cols: seq<int>, vals: seq<real>)
    requires 0 <= x < T46 && 0 < n <= 1073741824 && i < |pairs|
  {
    IsDrawn(Iterate(AMULT, x, 2 * TotalPairs(pairs[..i])), n, DoubledTo(2, n), nonzer, pairs[i], i, cols, vals)
  }

  lemma RowStaysDrawn(x: int, n: int, nonzer: nat, pairs: seq<nat>, p: nat, i: nat, cols: seq<int>, vals: seq<real>)
    requires 0 <= x < T46 && 0 < n <= 1073741824 && i < |pairs| && RowIsDrawn(x, n, nonzer, pairs, i, cols, vals)
    ensures RowIsDrawn(x, n, nonzer, pairs + [p], i, cols, vals)
  {
    hide IsDrawn, Iterate;
    assert (pairs + [p])[..i] == pairs[..i];
  }

  lemma NewRowIsDrawn(x: int, x1: int, n: int, nonzer: nat, pairs: seq<nat>, p: nat, cols: seq<int>, vals: seq<real>)
    requires 0 <= x < T46 && 0 < n <= 1073741824 && x1 == Iterate(AMULT, x, 2 * TotalPairs(pairs))
    requires IsDrawn(x1, n, DoubledTo(2, n), nonzer, p, |pairs|, cols, vals)
    ensures RowIsDrawn(x, n, nonzer, pairs + [p], |pairs|, cols, vals)
    ensures Iterate(AMULT, x1, 2 * p) == Iterate(AMULT, x, 2 * TotalPairs(pairs + [p]))
  {
    hide IsDrawn, Iterate;
    assert (pairs + [p])[..|pairs|] == pairs;
    IterateAdd(AMULT, x, 2 * TotalPairs(pairs), 2 * p);
  }

  /** The first half of `makea`: the power of two `nn1`, then one vector a row, each from the draws where the one before
      it stopped. */
  method MakeVectors(g: Generator, n: int, nonzer: nat)
    returns (acol: seq<seq<int>>, aelt: seq<seq<real>>, ghost pairs: seq<nat>)
    requires 0 < n <= 1073741824 && nonzer <= n
    requires 0 <= g.x < T46 && Odd(g.x)
    modifies g
    ensures |acol| == |aelt| == |pairs| == n && g.x == Iterate(AMULT, old(g.x), 2 * TotalPairs(pairs))
    ensures forall i :: 0 <= i < n ==> RowIsDrawn(old(g.x), n, nonzer, pairs, i, acol[i], aelt[i])
    ensures forall i :: 0 <= i < n ==> GoodVector(acol[i], aelt[i], i, n, nonzer)
  {
    var nn1 := FindNn1(n);
    ghost var b := PowerFound(n);
    var vc, ivc := new real[nonzer + 1], new int[nonzer + 1];
    acol, aelt, pairs := [], [], [];
    ghost var x := g.x;
    hide Pow2, Odd, Iterate, RowIsDrawn, IsDrawn, DoubledTo, GoodVector;
    NoDraws(x);
    for i := 0 to n
      invariant |acol| == |aelt| == |pairs| == i
      invariant 0 <= g.x < T46 && Odd(g.x) && g.x == Iterate(AMULT, x, 2 * TotalPairs(pairs))
      invariant forall k :: 0 <= k < i ==> RowIsDrawn(x, n, nonzer, pairs, k, acol[k], aelt[k])
      invariant forall k :: 0 <= k < i ==> GoodVector(acol[k], aelt[k], k, n, nonzer)
    {
      ghost var x1 := g.x;
      var cols, vals, p := MakeVector(g, n, nn1, nonzer, i, b, vc, ivc);
      NewRowIsDrawn(x, x1, n, nonzer, pairs, p, cols, vals);
      forall k | 0 <= k < i ensures RowIsDrawn(x, n, nonzer, pairs + [p], k, acol[k], aelt[k]) {
        RowStaysDrawn(x, n, nonzer, pairs, p, k, acol[k], aelt[k]);
      }
      acol, aelt, pairs := acol + [cols], aelt + [vals], pairs + [p];
    }
  }

  lemma NoDraws(x: int)
    requires 0 <= x < T46
    ensures Iterate(AMULT, x, 2 * TotalPairs([])) == x
  {}

  /** The smallest power of two that is at least two and not below `n`. */
  method FindNn1(n: int) returns (nn1: int)
    requires 0 < n <= 1073741824
    ensures nn1 == DoubledTo(2, n) && n <= nn1 && (nn1 == 2 || nn1 < 2 * n)
  {
    nn1 := 2;
    while nn1 < n
      invariant 0 < nn1 && DoubledTo(nn1, n) == DoubledTo(2, n)
      decreases n - nn1
    {
      nn1 := 2 * nn1;
    }
  }

  lemma PowerFound(n: int) returns (b: nat)
    requires 0 < n <= 1073741824
    ensures 1 <= b <= 30 && DoubledTo(2, n) == Pow2(b) < 2147483648
  {
    b := 1;
    var p := 2;
    assert p == Pow2(1);
    Pow2Limit();
    while p < n
      invariant 1 <= b <= 30 && p == Pow2(b) && DoubledTo(p, n) == DoubledTo(2, n)
      decreases n - p
    {
      Pow2Step(b + 1);
      Pow2Below(b, 30, n);
      p, b := 2 * p, b + 1;
    }
    Pow2Grows(b, 30);
  }

  lemma Pow2Limit()
    ensures Pow2(30) == 1073741824
  {
    assert Pow2(10) == 1024 by {
      assert Pow2(5) == 32;
      Pow2Add(5, 5);
    }
    Pow2Add(10, 10);
    Pow2Add(20, 10);
  }

  lemma Pow2Below(b: nat, m: nat, n: int)
    requires Pow2(b) < n <= Pow2(m)
    ensures b < m
  {
    if m <= b { Pow2Grows(m, b); }
  }

  lemma {:induction false} Pow2Grows(m: nat, n: nat)
    requires m <= n
    ensures Pow2(m) <= Pow2(n)
  {
    if m < n {
      Pow2Grows(m, n - 1);
    }
  }
}
