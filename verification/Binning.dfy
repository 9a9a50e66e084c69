/**
  Distributed binning: every process sorts its numbers, counts how many belong to each process,
  turns the counts into offsets, and all processes exchange their segments at once. Numbers are
  exact reals in [0, 1).
 */
module Binning {
  import opened Division
  import opened Multisets

  predicate InUnit(x: real) { 0.0 <= x < 1.0 }

  predicate AllInUnit(xs: seq<real>) {
    forall i :: 0 <= i < |xs| ==> InUnit(xs[i])
  }

  /** The process that owns a number: the number times the number of processes, truncated. */
  function WhichProcessOwnsThisNumber(x: real, w: nat): (t: nat)
    requires InUnit(x) && 0 < w
    ensures t < w
  {
    ScaledBelow(w as real, x);
    var p := x * w as real;
    assert p.Floor as real <= p;
    p.Floor
  }

  /** The truncated product names a process exactly for numbers below one. */
  lemma OneHasNoOwner(x: real, w: nat)
    requires 0.0 <= x <= 1.0 && 0 < w
    ensures (x * w as real).Floor < w <==> InUnit(x)
    ensures (1.0 * w as real).Floor == w
  {
    if x < 1.0 { ScaledBelow(w as real, x); }
  }

  // ----- the numbers to bin -----

  /** Successive results of `rand`, two for every number. */
  predicate Draws(rands: seq<nat>, count: nat, randMax: nat) {
    0 < randMax && |rands| == 2 * count && forall k :: 0 <= k < |rands| ==> rands[k] <= randMax
  }

  /** The number made of a pair of draws: the second one, scaled. */
  function NumberOf(rands: seq<nat>, i: nat, randMax: nat): real
    requires 0 < randMax && 2 * i + 1 < |rands|
  {
    rands[2 * i + 1] as real / randMax as real
  }

  /** `create_random_numbers`: the first draw of a pair is lowered when it is the largest, and then thrown away. */
  method CreateRandomNumbers(rands: seq<nat>, count: nat, randMax: nat) returns (numbers: array<real>)
    requires Draws(rands, count, randMax)
    ensures fresh(numbers) && numbers.Length == count
    ensures forall i :: 0 <= i < count ==> numbers[i] == NumberOf(rands, i, randMax)
  {
    numbers := new real[count];
    for i := 0 to count
      invariant forall k :: 0 <= k < i ==> numbers[k] == NumberOf(rands, k, randMax)
    {
      var r := rands[2 * i];
      if r == randMax {
        r := r - 1;
      }
      numbers[i] := rands[2 * i + 1] as real / randMax as real;
    }
  }

  /** It is the fraction that the draw is of the largest. */
  lemma NumberTimesMax(rands: seq<nat>, i: nat, randMax: nat)
    requires 0 < randMax && 2 * i + 1 < |rands|
    ensures NumberOf(rands, i, randMax) * randMax as real == rands[2 * i + 1] as real
  {}

  lemma Quotient(a: nat, b: nat)
    requires a <= b && 0 < b
    ensures 0.0 <= a as real / b as real <= 1.0
    ensures a as real / b as real == 1.0 <==> a == b
  {
    var x, y := a as real, b as real;
    var q := x / y;
    assert q * y == x;
    ScaleBack(1.0, x, y);
    ScaleBack(0.0, x, y);
    if a == b { assert x / y == 1.0; }
    if q == 1.0 { assert x == y; }
  }

  /** The second draw of a pair is not the largest. */
  predicate SecondIsLess(rands: seq<nat>, i: nat, randMax: nat)
    requires 2 * i + 1 < |rands|
  {
    rands[2 * i + 1] < randMax
  }

  /** A number is one exactly when the second draw of its pair is the largest, whatever the first draw is. */
  lemma OneIsDrawn(rands: seq<nat>, count: nat, randMax: nat, i: nat)
    requires Draws(rands, count, randMax) && i < count
    ensures NumberOf(rands, i, randMax) == 1.0 <==> !SecondIsLess(rands, i, randMax)
    ensures InUnit(NumberOf(rands, i, randMax)) <==> SecondIsLess(rands, i, randMax)
  {
    Quotient(rands[2 * i + 1], randMax);
  }

  /** So a process can bin its numbers if and only if no second draw is the largest. */
  lemma GeneratorStaysBelowOne(rands: seq<nat>, count: nat, randMax: nat, numbers: seq<real>)
    requires Draws(rands, count, randMax) && |numbers| == count
    requires forall i :: 0 <= i < count ==> numbers[i] == NumberOf(rands, i, randMax)
    ensures AllInUnit(numbers) <==> forall i :: 0 <= i < count ==> SecondIsLess(rands, i, randMax)
  {
    hide SecondIsLess, NumberOf, InUnit;
    forall i | 0 <= i < count ensures InUnit(numbers[i]) <==> SecondIsLess(rands, i, randMax) {
      OneIsDrawn(rands, count, randMax, i);
    }
  }

  function BinStart(t: int, w: nat): real
    requires 0 < w
  {
    t as real / w as real
  }

  function BinEnd(t: int, w: nat): real
    requires 0 < w
  {
    BinStart(t + 1, w)
  }

  lemma ScaleBack(x: real, t: real, w: real)
    requires 0.0 < w
    ensures t <= x * w <==> t / w <= x
    ensures x * w < t <==> x < t / w
  {
    assert t / w * w == t;
    if t <= x * w {
      assert t / w <= x * w / w == x;
    } else {
      assert x * w / w == x;
      assert x < t / w;
    }
  }

  /** A process owns exactly the numbers of its bin. */
  lemma OwnerIsBin(x: real, w: nat, t: nat)
    requires InUnit(x) && 0 < w && t < w
    ensures WhichProcessOwnsThisNumber(x, w) == t <==> BinStart(t, w) <= x < BinEnd(t, w)
  {
    ScaleBack(x, t as real, w as real);
    ScaleBack(x, (t + 1) as real, w as real);
    var p := x * w as real;
    assert p.Floor as real <= p < p.Floor as real + 1.0;
  }

  lemma OwnerIsMonotone(x: real, y: real, w: nat)
    requires InUnit(x) && InUnit(y) && x <= y && 0 < w
    ensures WhichProcessOwnsThisNumber(x, w) <= WhichProcessOwnsThisNumber(y, w)
  {
    ScaleKeepsOrder(x, y, w as real);
    var p, q := x * w as real, y * w as real;
    assert p.Floor as real <= p <= q < q.Floor as real + 1.0;
  }

  lemma ScaleKeepsOrder(x: real, y: real, w: real)
    requires x <= y && 0.0 <= w
    ensures x * w <= y * w
  {}

  // ----- counting -----

  /** How many of the numbers process `t` owns. */
  function CountOwned(xs: seq<real>, w: nat, t: int): nat
    requires AllInUnit(xs) && 0 < w
  {
    if xs == [] then 0
    else CountOwned(xs[..|xs| - 1], w, t) + if WhichProcessOwnsThisNumber(xs[|xs| - 1], w) == t then 1 else 0
  }

  /** How many of the numbers belong to processes before `t`. */
  function CountBefore(xs: seq<real>, w: nat, t: int): nat
    requires AllInUnit(xs) && 0 < w
  {
    if xs == [] then 0
    else CountBefore(xs[..|xs| - 1], w, t) + if WhichProcessOwnsThisNumber(xs[|xs| - 1], w) < t then 1 else 0
  }

  lemma {:induction false} CountBeforeStep(xs: seq<real>, w: nat, t: int)
    requires AllInUnit(xs) && 0 < w
    ensures CountBefore(xs, w, t + 1) == CountBefore(xs, w, t) + CountOwned(xs, w, t)
  {
    hide WhichProcessOwnsThisNumber;
    if xs != [] { CountBeforeStep(xs[..|xs| - 1], w, t); }
  }

  lemma {:induction false} CountBeforeEnds(xs: seq<real>, w: nat)
    requires AllInUnit(xs) && 0 < w
    ensures CountBefore(xs, w, 0) == 0 && CountBefore(xs, w, w) == |xs|
  {
    hide WhichProcessOwnsThisNumber;
    if xs != [] { CountBeforeEnds(xs[..|xs| - 1], w); }
  }

  /** `get_send_amounts_per_proc`. */
  method GetSendAmountsPerProc(xs: seq<real>, w: nat) returns (amounts: array<nat>)
    requires AllInUnit(xs) && 0 < w
    ensures fresh(amounts) && amounts.Length == w
    ensures forall t :: 0 <= t < w ==> amounts[t] == CountOwned(xs, w, t)
  {
    amounts := new nat[w](_ => 0);
    for i := 0 to |xs|
      invariant forall t :: 0 <= t < w ==> amounts[t] == CountOwned(xs[..i], w, t)
    {
      var owner := WhichProcessOwnsThisNumber(xs[i], w);
      assert xs[..i + 1][..i] == xs[..i];
      amounts[owner] := amounts[owner] + 1;
    }
    assert xs[..|xs|] == xs;
  }

  function Total(counts: seq<nat>, m: nat): nat
    requires m <= |counts|
  {
    if m == 0 then 0 else Total(counts, m - 1) + counts[m - 1]
  }

  /** `prefix_sum`. */
  method PrefixSum(counts: seq<nat>) returns (offsets: array<nat>)
    requires counts != []
    ensures fresh(offsets) && offsets.Length == |counts|
    ensures forall t :: 0 <= t < |counts| ==> offsets[t] == Total(counts, t)
  {
    offsets := new nat[|counts|];
    offsets[0] := 0;
    for i := 1 to |counts|
      invariant forall t :: 0 <= t < i ==> offsets[t] == Total(counts, t)
    {
      offsets[i] := offsets[i - 1] + counts[i - 1];
    }
  }

  /** `sum`. */
  method Sum(counts: seq<nat>) returns (s: nat)
    ensures s == Total(counts, |counts|)
  {
    s := 0;
    for i := 0 to |counts|
      invariant s == Total(counts, i)
    {
      s := s + counts[i];
    }
  }

  predicate SortedUp(xs: seq<real>) {
    forall i, j :: 0 <= i <= j < |xs| ==> xs[i] <= xs[j]
  }

  /** In a sorted sequence the numbers owned before `t` are the first ones. */
  lemma {:induction false} BeforeIsPrefix(xs: seq<real>, w: nat, t: int, k: nat)
    requires AllInUnit(xs) && SortedUp(xs) && 0 < w && k < |xs|
    ensures WhichProcessOwnsThisNumber(xs[k], w) < t <==> k < CountBefore(xs, w, t)
    decreases |xs|
  {
    var n := |xs| - 1;
    var front := xs[..n];
    CountBeforeIsSmall(front, w, t);
    if k < n {
      BeforeIsPrefix(front, w, t, k);
      OwnerIsMonotone(xs[k], xs[n], w);
      if WhichProcessOwnsThisNumber(xs[n], w) < t && n > 0 {
        BeforeIsPrefix(front, w, t, n - 1);
        OwnerIsMonotone(xs[n - 1], xs[n], w);
      }
    } else if n > 0 {
      BeforeIsPrefix(front, w, t, n - 1);
      OwnerIsMonotone(xs[n - 1], xs[n], w);
    }
  }

  lemma {:induction false} CountBeforeIsSmall(xs: seq<real>, w: nat, t: int)
    requires AllInUnit(xs) && 0 < w
    ensures CountBefore(xs, w, t) <= |xs|
  {
    hide WhichProcessOwnsThisNumber;
    if xs != [] { CountBeforeIsSmall(xs[..|xs| - 1], w, t); }
  }

  // ----- segments -----

  /** The slice of a sorted sequence that the counts and offsets mark out for process `t`. */
  function Segment(xs: seq<real>, w: nat, t: nat): (segment: seq<real>)
    requires AllInUnit(xs) && 0 < w
  {
    CountBeforeStep(xs, w, t);
    CountBeforeIsSmall(xs, w, t + 1);
    xs[CountBefore(xs, w, t)..CountBefore(xs, w, t + 1)]
  }

  /** A segment holds exactly the numbers of the sorted sequence that process `t` owns: those inside are its own, and
      every position outside is another's. */
  lemma SegmentIsOwned(xs: seq<real>, w: nat, t: nat, k: nat)
    requires AllInUnit(xs) && SortedUp(xs) && 0 < w && k < |xs|
    ensures CountBefore(xs, w, t) <= k < CountBefore(xs, w, t + 1) <==> WhichProcessOwnsThisNumber(xs[k], w) == t
    ensures |Segment(xs, w, t)| == CountOwned(xs, w, t)
  {
    BeforeIsPrefix(xs, w, t, k);
    BeforeIsPrefix(xs, w, t + 1, k);
    SegmentLength(xs, w, t);
  }

  lemma SegmentLength(xs: seq<real>, w: nat, t: nat)
    requires AllInUnit(xs) && 0 < w
    ensures |Segment(xs, w, t)| == CountOwned(xs, w, t)
  {
    CountBeforeStep(xs, w, t);
    CountBeforeIsSmall(xs, w, t + 1);
  }

  lemma {:induction false} OffsetsAreBefore(xs: seq<real>, w: nat, counts: seq<nat>, t: nat)
    requires AllInUnit(xs) && 0 < w && t <= |counts|
    requires forall u :: 0 <= u < |counts| ==> counts[u] == CountOwned(xs, w, u)
    ensures Total(counts, t) == CountBefore(xs, w, t)
  {
    if t == 0 {
      CountBeforeEnds(xs, w);
    } else {
      OffsetsAreBefore(xs, w, counts, t - 1);
      CountBeforeStep(xs, w, t - 1);
    }
  }

  // ----- sorting does not change the counts -----

  lemma CountSnoc(xs: seq<real>, x: real, w: nat, t: int)
    requires AllInUnit(xs) && InUnit(x) && 0 < w
    ensures AllInUnit(xs + [x])
    ensures CountOwned(xs + [x], w, t) == CountOwned(xs, w, t) + if WhichProcessOwnsThisNumber(x, w) == t then 1 else 0
  {
    hide WhichProcessOwnsThisNumber;
    assert (xs + [x])[..|xs|] == xs;
  }

  lemma {:induction false} CountWithout(xs: seq<real>, w: nat, t: int, j: nat)
    requires AllInUnit(xs) && 0 < w && j < |xs|
    ensures AllInUnit(Without(xs, j))
    ensures CountOwned(xs, w, t) ==
            CountOwned(Without(xs, j), w, t) + if WhichProcessOwnsThisNumber(xs[j], w) == t then 1 else 0
    decreases |xs|
  {
    hide WhichProcessOwnsThisNumber, CountOwned;
    var n := |xs| - 1;
    var front := xs[..n];
    assert xs == front + [xs[n]];
    CountSnoc(front, xs[n], w, t);
    if j == n {
      assert Without(xs, j) == front;
    } else {
      CountWithout(front, w, t, j);
      CountSnoc(Without(front, j), xs[n], w, t);
      WithoutInFront(xs, j);
    }
  }

  lemma {:induction false} CountOfPermutation(xs: seq<real>, ys: seq<real>, w: nat, t: int)
    requires AllInUnit(xs) && AllInUnit(ys) && multiset(xs) == multiset(ys) && 0 < w
    ensures CountOwned(xs, w, t) == CountOwned(ys, w, t)
    decreases |xs|
  {
    hide WhichProcessOwnsThisNumber;
    if xs == [] {
      assert |ys| == |multiset(ys)| == 0;
    } else {
      var n := |xs| - 1;
      assert xs == xs[..n] + [xs[n]];
      assert xs[n] in multiset(ys);
      var j :| 0 <= j < |ys| && ys[j] == xs[n];
      MultisetWithout(ys, j);
      assert multiset(xs) == multiset(xs[..n]) + multiset{xs[n]};
      Cancel(multiset(Without(ys, j)), multiset(xs[..n]), xs[n]);
      CountWithout(ys, w, t, j);
      CountOfPermutation(xs[..n], Without(ys, j), w, t);
    }
  }

  // ----- the exchange between all processes -----

  /** The numbers of all processes, one sequence each. */
  ghost predicate World(nums: seq<seq<real>>) {
    0 < |nums| && forall p :: 0 <= p < |nums| ==> AllInUnit(nums[p])
  }

  /** What process `t` receives from the first `m` processes, in rank order. */
  function Received(sorted: seq<seq<real>>, t: nat, m: nat): seq<real>
    requires World(sorted) && m <= |sorted|
  {
    if m == 0 then [] else Received(sorted, t, m - 1) + Segment(sorted[m - 1], |sorted|, t)
  }

  /** The numbers of one process land in the buffer behind those of the lower ranks. */
  lemma {:induction false} ReceivedLength(sorted: seq<seq<real>>, t: nat, counts: seq<nat>, m: nat)
    requires World(sorted) && m <= |sorted| == |counts|
    requires forall p :: 0 <= p < |sorted| ==> counts[p] == CountOwned(sorted[p], |sorted|, t)
    ensures |Received(sorted, t, m)| == Total(counts, m)
  {
    hide Segment;
    if m > 0 {
      ReceivedLength(sorted, t, counts, m - 1);
      SegmentLength(sorted[m - 1], |sorted|, t);
    }
  }

  /** The numbers of process `p` stand in the buffer from the offset of `p` on, in their order. */
  lemma {:induction false} ReceivedAt(sorted: seq<seq<real>>, t: nat, counts: seq<nat>, m: nat, p: nat, i: nat)
    requires World(sorted) && p < m <= |sorted| == |counts|
    requires forall q :: 0 <= q < |sorted| ==> counts[q] == CountOwned(sorted[q], |sorted|, t)
    requires i < |Segment(sorted[p], |sorted|, t)|
    ensures Total(counts, p) + i < |Received(sorted, t, m)|
    ensures Received(sorted, t, m)[Total(counts, p) + i] == Segment(sorted[p], |sorted|, t)[i]
  {
    hide Segment, Total;
    if p < m - 1 {
      ReceivedAt(sorted, t, counts, m - 1, p, i);
    } else {
      ReceivedLength(sorted, t, counts, p);
    }
  }

  lemma {:induction false} TotalGrows(counts: seq<nat>, m: nat, n: nat)
    requires m <= n <= |counts|
    ensures Total(counts, m) <= Total(counts, n)
  {
    if m < n { TotalGrows(counts, m, n - 1); }
  }

  /** The part of the exchange that fills the buffer of process `t`: from every process `p` the segment given by p's
      counts and offsets goes to the place given by t's own. */
  method Alltoallv(sorted: seq<seq<real>>, send: seq<seq<nat>>, sendOffsets: seq<seq<nat>>, t: nat,
                   recv: seq<nat>, recvOffsets: seq<nat>, binned: array<real>)
    requires World(sorted) && t < |sorted| == |send| == |sendOffsets| == |recv| == |recvOffsets|
    requires forall p :: 0 <= p < |sorted| ==> |send[p]| == |sendOffsets[p]| == |sorted|
    requires forall p, u :: 0 <= p < |sorted| && 0 <= u < |sorted| ==>
               && send[p][u] == CountOwned(sorted[p], |sorted|, u)
               && sendOffsets[p][u] == CountBefore(sorted[p], |sorted|, u)
    requires forall p :: 0 <= p < |sorted| ==> recv[p] == send[p][t] && recvOffsets[p] == Total(recv, p)
    requires binned.Length == Total(recv, |recv|)
    modifies binned
    ensures binned[..] == Received(sorted, t, |sorted|)
  {
    hide Segment, CountOwned, CountBefore, WhichProcessOwnsThisNumber, Total;
    StartReceived(sorted, t, recv);
    for p := 0 to |sorted|
      invariant Total(recv, p) <= binned.Length
      invariant binned[..Total(recv, p)] == Received(sorted, t, p)
    {
      TotalStep(recv, p);
      TotalGrows(recv, p + 1, |recv|);
      SegmentSlice(sorted[p], |sorted|, t);
      CopySegment(sorted[p], sendOffsets[p][t], send[p][t], binned, recvOffsets[p]);
      ReceivedStep(sorted, t, p);
    }
    assert binned[..binned.Length] == binned[..];
  }

  lemma StartReceived(sorted: seq<seq<real>>, t: nat, recv: seq<nat>)
    requires World(sorted)
    ensures Received(sorted, t, 0) == [] && Total(recv, 0) == 0
  {}

  lemma TotalStep(counts: seq<nat>, m: nat)
    requires m < |counts|
    ensures Total(counts, m + 1) == Total(counts, m) + counts[m]
  {}

  lemma ReceivedStep(sorted: seq<seq<real>>, t: nat, p: nat)
    requires World(sorted) && p < |sorted|
    ensures Received(sorted, t, p + 1) == Received(sorted, t, p) + Segment(sorted[p], |sorted|, t)
  {}

  lemma SegmentSlice(xs: seq<real>, w: nat, t: nat)
    requires AllInUnit(xs) && 0 < w
    ensures CountBefore(xs, w, t) + CountOwned(xs, w, t) <= |xs|
    ensures Segment(xs, w, t) == xs[CountBefore(xs, w, t)..CountBefore(xs, w, t) + CountOwned(xs, w, t)]
  {
    CountBeforeStep(xs, w, t);
    CountBeforeIsSmall(xs, w, t + 1);
  }

  method CopySegment(xs: seq<real>, from: nat, count: nat, buffer: array<real>, to: nat)
    requires from + count <= |xs| && to + count <= buffer.Length
    modifies buffer
    ensures buffer[..to + count] == old(buffer[..to]) + xs[from..from + count]
  {
    for i := 0 to count
      invariant buffer[..to + i] == old(buffer[..to]) + xs[from..from + i]
    {
      buffer[to + i] := xs[from + i];
      assert xs[from..from + i + 1] == xs[from..from + i] + [xs[from + i]];
      assert buffer[..to + i + 1] == buffer[..to + i] + [buffer[to + i]];
    }
  }

  // ----- what the exchange achieves -----

  /** Everything `t` receives lies in its bin. */
  lemma {:induction false} ReceivedInBin(sorted: seq<seq<real>>, t: nat, m: nat, k: nat)
    requires World(sorted) && m <= |sorted| && t < |sorted| && k < |Received(sorted, t, m)|
    requires forall p :: 0 <= p < |sorted| ==> SortedUp(sorted[p])
    ensures BinStart(t, |sorted|) <= Received(sorted, t, m)[k] < BinEnd(t, |sorted|)
  {
    hide WhichProcessOwnsThisNumber, BinStart;
    var w, before := |sorted|, |Received(sorted, t, m - 1)|;
    if k < before {
      ReceivedInBin(sorted, t, m - 1, k);
    } else {
      var xs := sorted[m - 1];
      CountBeforeStep(xs, w, t);
      CountBeforeIsSmall(xs, w, t + 1);
      var i := CountBefore(xs, w, t) + (k - before);
      assert xs[i] == Segment(xs, w, t)[k - before];
      SegmentIsOwned(xs, w, t, i);
      OwnerIsBin(xs[i], w, t);
    }
  }

  /** All numbers of the first `m` processes. */
  function Pool(nums: seq<seq<real>>, m: nat): multiset<real>
    requires m <= |nums|
  {
    if m == 0 then multiset{} else Pool(nums, m - 1) + multiset(nums[m - 1])
  }

  /** What the first `n` processes receive from the first `m`. */
  function ReceivedByFirst(sorted: seq<seq<real>>, n: nat, m: nat): multiset<real>
    requires World(sorted) && m <= |sorted|
  {
    if n == 0 then multiset{} else ReceivedByFirst(sorted, n - 1, m) + multiset(Received(sorted, n - 1, m))
  }

  lemma ReceivedByStep(sorted: seq<seq<real>>, n: nat, m: nat)
    requires World(sorted) && m <= |sorted|
    ensures ReceivedByFirst(sorted, 0, m) == multiset{}
    ensures ReceivedByFirst(sorted, n + 1, m) == ReceivedByFirst(sorted, n, m) + multiset(Received(sorted, n, m))
  {
    hide Received;
  }

  /** The numbers before the segment of a process and the segment are those before the next one. */
  lemma SegmentExtends(xs: seq<real>, w: nat, t: nat)
    requires AllInUnit(xs) && 0 < w
    ensures CountBefore(xs, w, t) <= CountBefore(xs, w, t + 1) <= |xs|
    ensures multiset(xs[..CountBefore(xs, w, t + 1)]) ==
            multiset(xs[..CountBefore(xs, w, t)]) + multiset(Segment(xs, w, t))
  {
    hide CountBefore, CountOwned, Segment;
    CountBeforeStep(xs, w, t);
    CountBeforeIsSmall(xs, w, t + 1);
    SegmentSlice(xs, w, t);
    assert xs[..CountBefore(xs, w, t + 1)] == xs[..CountBefore(xs, w, t)] + Segment(xs, w, t);
  }

  lemma {:induction false} OneMoreSender(sorted: seq<seq<real>>, n: nat, m: nat)
    requires World(sorted) && m < |sorted|
    ensures CountBefore(sorted[m], |sorted|, n) <= |sorted[m]|
    ensures ReceivedByFirst(sorted, n, m + 1) ==
            ReceivedByFirst(sorted, n, m) + multiset(sorted[m][..CountBefore(sorted[m], |sorted|, n)])
  {
    hide Received, ReceivedByFirst, CountBefore, Segment;
    var xs, w := sorted[m], |sorted|;
    CountBeforeIsSmall(xs, w, n);
    if n == 0 {
      CountBeforeEnds(xs, w);
      ReceivedByStep(sorted, 0, m);
      ReceivedByStep(sorted, 0, m + 1);
    } else {
      OneMoreSender(sorted, n - 1, m);
      ReceivedStep(sorted, n - 1, m);
      SegmentExtends(xs, w, n - 1);
      ReceivedByStep(sorted, n - 1, m);
      ReceivedByStep(sorted, n - 1, m + 1);
    }
  }

  lemma {:induction false} NothingSent(sorted: seq<seq<real>>, n: nat)
    requires World(sorted)
    ensures ReceivedByFirst(sorted, n, 0) == multiset{}
  {
    if n > 0 { NothingSent(sorted, n - 1); }
  }

  /** No number is lost, duplicated or invented by the exchange. */
  lemma {:induction false} ExchangeConserves(sorted: seq<seq<real>>, m: nat)
    requires World(sorted) && m <= |sorted|
    ensures ReceivedByFirst(sorted, |sorted|, m) == Pool(sorted, m)
  {
    hide Received, ReceivedByFirst;
    if m == 0 {
      NothingSent(sorted, |sorted|);
    } else {
      ExchangeConserves(sorted, m - 1);
      OneMoreSender(sorted, |sorted|, m - 1);
      CountBeforeEnds(sorted[m - 1], |sorted|);
      assert sorted[m - 1][..|sorted[m - 1]|] == sorted[m - 1];
    }
  }

  /** Every process has sorted its own numbers. */
  ghost predicate IsSortOf(sorted: seq<seq<real>>, nums: seq<seq<real>>) {
    |sorted| == |nums| &&
    forall p :: 0 <= p < |nums| ==> SortedUp(sorted[p]) && multiset(sorted[p]) == multiset(nums[p])
  }

  lemma SortKeepsWorld(sorted: seq<seq<real>>, nums: seq<seq<real>>)
    requires World(nums) && IsSortOf(sorted, nums)
    ensures World(sorted)
  {
    forall p, i | 0 <= p < |sorted| && 0 <= i < |sorted[p]| ensures InUnit(sorted[p][i]) {
      assert sorted[p][i] in multiset(nums[p]);
    }
  }

  lemma {:induction false} SortKeepsPool(sorted: seq<seq<real>>, nums: seq<seq<real>>, m: nat)
    requires IsSortOf(sorted, nums) && m <= |nums|
    ensures Pool(sorted, m) == Pool(nums, m)
  {
    if m > 0 { SortKeepsPool(sorted, nums, m - 1); }
  }

  lemma {:induction false} PoolOfReceived(sorted: seq<seq<real>>, binned: seq<seq<real>>, n: nat)
    requires World(sorted) && n <= |binned|
    requires forall t :: 0 <= t < n ==> binned[t] == Received(sorted, t, |sorted|)
    ensures Pool(binned, n) == ReceivedByFirst(sorted, n, |sorted|)
  {
    hide Received;
    if n > 0 { PoolOfReceived(sorted, binned, n - 1); }
  }

  /** The counts every process makes before sorting, one row each. */
  method CountAll(nums: seq<seq<real>>) returns (send: seq<seq<nat>>)
    requires World(nums)
    ensures |send| == |nums|
    ensures forall p :: 0 <= p < |nums| ==> |send[p]| == |nums|
    ensures forall p, t :: 0 <= p < |nums| && 0 <= t < |nums| ==> send[p][t] == CountOwned(nums[p], |nums|, t)
  {
    hide CountOwned;
    send := [];
    for p := 0 to |nums|
      invariant |send| == p
      invariant forall q :: 0 <= q < p ==> |send[q]| == |nums|
      invariant forall q, t :: 0 <= q < p && 0 <= t < |nums| ==> send[q][t] == CountOwned(nums[q], |nums|, t)
    {
      var amounts := GetSendAmountsPerProc(nums[p], |nums|);
      send := send + [amounts[..]];
    }
  }

  /** The offsets every process derives from its counts. */
  method OffsetsOfAll(counts: seq<seq<nat>>) returns (offsets: seq<seq<nat>>)
    requires forall p :: 0 <= p < |counts| ==> |counts[p]| == |counts|
    ensures |offsets| == |counts|
    ensures forall p :: 0 <= p < |counts| ==> |offsets[p]| == |counts|
    ensures forall p, t :: 0 <= p < |counts| && 0 <= t < |counts| ==> offsets[p][t] == Total(counts[p], t)
  {
    hide Total;
    offsets := [];
    for p := 0 to |counts|
      invariant |offsets| == p
      invariant forall q :: 0 <= q < p ==> |offsets[q]| == |counts|
      invariant forall q, t :: 0 <= q < p && 0 <= t < |counts| ==> offsets[q][t] == Total(counts[q], t)
    {
      var row := PrefixSum(counts[p]);
      offsets := offsets + [row[..]];
    }
  }

  /** The whole program, over all processes at once: `sorted` is what the library sort leaves in each process. Every
      process ends with numbers of its own bin only, so `verify_bin_nums` has nothing to report, and the numbers of all
      processes together are the ones that were there before. */
  method BinAll(nums: seq<seq<real>>, sorted: seq<seq<real>>) returns (binned: seq<seq<real>>)
    requires World(nums) && IsSortOf(sorted, nums)
    ensures |binned| == |nums|
    ensures forall t, k :: 0 <= t < |nums| && 0 <= k < |binned[t]| ==>
              BinStart(t, |nums|) <= binned[t][k] < BinEnd(t, |nums|)
    ensures Pool(binned, |nums|) == Pool(nums, |nums|)
  {
    hide CountOwned, CountBefore, Total, Received, ReceivedByFirst, Pool, BinStart, SortedUp,
         WhichProcessOwnsThisNumber;
    SortKeepsWorld(sorted, nums);
    var w := |nums|;
    var send := CountAll(nums);
    var recv := seq(w, t requires 0 <= t < w => seq(w, p requires 0 <= p < w => send[p][t]));
    var sendOffsets := OffsetsOfAll(send);
    var recvOffsets := OffsetsOfAll(recv);
    CountsSurviveSorting(nums, sorted, send, sendOffsets);
    binned := [];
    for t := 0 to w
      invariant |binned| == t
      invariant forall u :: 0 <= u < t ==> binned[u] == Received(sorted, u, w)
    {
      var total := Sum(recv[t]);
      var buffer := new real[total];
      Alltoallv(sorted, send, sendOffsets, t, recv[t], recvOffsets[t], buffer);
      binned := binned + [buffer[..]];
    }
    forall t, k | 0 <= t < w && 0 <= k < |binned[t]| ensures BinStart(t, w) <= binned[t][k] < BinEnd(t, w) {
      ReceivedInBin(sorted, t, w, k);
    }
    PoolOfReceived(sorted, binned, w);
    ExchangeConserves(sorted, w);
    SortKeepsPool(sorted, nums, w);
  }

  /** Counts taken before sorting describe the sorted numbers too, and the offsets are where the segments start. */
  lemma CountsSurviveSorting(nums: seq<seq<real>>, sorted: seq<seq<real>>, send: seq<seq<nat>>, offsets: seq<seq<nat>>)
    requires World(nums) && World(sorted) && IsSortOf(sorted, nums) && |send| == |offsets| == |nums|
    requires forall p :: 0 <= p < |nums| ==> |send[p]| == |offsets[p]| == |nums|
    requires forall p, t :: 0 <= p < |nums| && 0 <= t < |nums| ==> send[p][t] == CountOwned(nums[p], |nums|, t)
    requires forall p, t :: 0 <= p < |nums| && 0 <= t < |nums| ==> offsets[p][t] == Total(send[p], t)
    ensures forall p, t :: 0 <= p < |nums| && 0 <= t < |nums| ==>
              send[p][t] == CountOwned(sorted[p], |sorted|, t) && offsets[p][t] == CountBefore(sorted[p], |sorted|, t)
  {
    hide CountOwned, CountBefore, Total, WhichProcessOwnsThisNumber;
    forall p, t | 0 <= p < |nums| && 0 <= t < |nums|
      ensures send[p][t] == CountOwned(sorted[p], |sorted|, t) && offsets[p][t] == CountBefore(sorted[p], |sorted|, t)
    {
      forall u | 0 <= u < |nums| ensures send[p][u] == CountOwned(sorted[p], |sorted|, u) {
        CountOfPermutation(nums[p], sorted[p], |nums|, u);
      }
      OffsetsAreBefore(sorted[p], |sorted|, send[p], t);
    }
  }
}
