/**
  The experiment matrix of the causal profiler: every combination of the values given for each
  setting becomes one environment, and the list is repeated for the number of iterations.
 */
module CausalEnvironments {
  import opened Division

  type Env = map<string, string>

  /** A setting with the values to try; values may be quoted for a configuration file. */
  datatype Choice = Choice(name: string, values: seq<string>, quote: bool) {
    function Value(d: nat): string
      requires d < |values|
    {
      if quote then "\"" + values[d] + "\"" else values[d]
    }

    /** The number of alternatives; a setting without values is left alone. */
    function Count(): (n: nat)
      ensures 0 < n
    {
      if values == [] then 1 else |values|
    }
  }

  /** Taken out of its quotation marks a value is one of those given; without them it is one as it stands. */
  lemma ValueIsGiven(c: Choice, d: nat)
    requires d < |c.values|
    ensures !c.quote ==> c.Value(d) == c.values[d]
    ensures c.quote ==>
              var v, n := c.Value(d), |c.values[d]|;
              |v| == n + 2 && v[0] == '"' && v[n + 1] == '"' && v[1..n + 1] == c.values[d]
  {}

  /** The number of combinations of the first `m` settings. */
  function Size(cs: seq<Choice>, m: nat): (n: nat)
    requires m <= |cs|
    ensures 0 < n
  {
    if m == 0 then 1 else Positive(Size(cs, m - 1), cs[m - 1].Count()); Size(cs, m - 1) * cs[m - 1].Count()
  }

  lemma Positive(x: nat, y: nat)
    requires 0 < x && 0 < y
    ensures 0 < x * y
  {}

  /** Which value of setting `i` combination `k` has: digit `i` of `k` in the mixed radix of the counts. */
  function Digit(cs: seq<Choice>, i: nat, k: nat): (d: nat)
    requires i < |cs|
    ensures d < cs[i].Count()
  {
    k / Size(cs, i) % cs[i].Count()
  }

  predicate DistinctNames(cs: seq<Choice>) {
    forall i, j :: 0 <= i < j < |cs| ==> cs[i].name != cs[j].name
  }

  /** The environment of combination `k` of the first `m` settings. */
  function Combination(cs: seq<Choice>, m: nat, k: nat): Env
    requires m <= |cs|
  {
    if m == 0 then map[]
    else
      var e := Combination(cs, m - 1, k);
      if cs[m - 1].values == [] then e else e[cs[m - 1].name := cs[m - 1].Value(Digit(cs, m - 1, k))]
  }

  /** A combination sets exactly the settings that have values, each to its digit's value. */
  lemma {:induction false} CombinationSets(cs: seq<Choice>, m: nat, k: nat, i: nat)
    requires i < m <= |cs| && DistinctNames(cs)
    ensures cs[i].values == [] ==> cs[i].name !in Combination(cs, m, k)
    ensures cs[i].values != [] ==>
              && cs[i].name in Combination(cs, m, k)
              && Combination(cs, m, k)[cs[i].name] ==
                 (if cs[i].quote then "\"" else "") + cs[i].values[Digit(cs, i, k)] + (if cs[i].quote then "\"" else "")
  {
    hide Digit, Size;
    if i == m - 1 {
      NotYetSet(cs, m - 1, k, i);
    } else {
      CombinationSets(cs, m - 1, k, i);
    }
  }

  lemma {:induction false} NotYetSet(cs: seq<Choice>, m: nat, k: nat, i: nat)
    requires m <= i < |cs| && DistinctNames(cs)
    ensures cs[i].name !in Combination(cs, m, k)
  {
    if m > 0 { NotYetSet(cs, m - 1, k, i); }
  }

  // ----- _fill -----

  /** Environment `k` of the new list: environment k mod |tmp| with value k / |tmp| of the setting. */
  function Copy(tmp: seq<Env>, c: Choice, k: nat): Env
    requires tmp != [] && k < |c.values| * |tmp|
  {
    QuotientBelow(k, |tmp|, |c.values|);
    tmp[k % |tmp|][c.name := c.Value(k / |tmp|)]
  }

  lemma CopyAt(tmp: seq<Env>, c: Choice, d: nat, t: nat)
    requires d < |c.values| && t < |tmp|
    ensures d * |tmp| + t < (d + 1) * |tmp| <= |c.values| * |tmp|
    ensures Copy(tmp, c, d * |tmp| + t) == tmp[t][c.name := c.Value(d)]
  {
    Monotone(d + 1, |c.values|, |tmp|);
    OneMore(d, |tmp|);
    RestIsUnique(d * |tmp| + t, |tmp|, d, t);
  }

  /** Replaces the list by one copy for every value of the setting, value by value. */
  method Fill(envs: seq<Env>, c: Choice) returns (filled: seq<Env>)
    ensures c.values == [] ==> filled == envs
    ensures c.values != [] ==>
              var tmp := if envs == [] then [map[]] else envs;
              && |filled| == |c.values| * |tmp|
              && forall k :: 0 <= k < |filled| ==> filled[k] == Copy(tmp, c, k)
  {
    hide Copy;
    if c.values == [] {
      return envs;
    }
    var tmp := if envs == [] then [map[]] else envs;
    filled := [];
    for d := 0 to |c.values|
      invariant |filled| == d * |tmp| <= |c.values| * |tmp|
      invariant forall k :: 0 <= k < |filled| ==> filled[k] == Copy(tmp, c, k)
    {
      var ditr := if c.quote then "\"" + c.values[d] + "\"" else c.values[d];
      CopyAt(tmp, c, d, 0);
      for t := 0 to |tmp|
        invariant |filled| == d * |tmp| + t <= |c.values| * |tmp|
        invariant forall k :: 0 <= k < |filled| ==> filled[k] == Copy(tmp, c, k)
      {
        CopyAt(tmp, c, d, t);
        filled := filled + [tmp[t][c.name := ditr]];
      }
      OneMore(d, |tmp|);
    }
  }

  /** The list after the settings before `m`: nothing yet, or all their combinations in order. */
  ghost predicate Expanded(envs: seq<Env>, cs: seq<Choice>, m: nat)
    requires m <= |cs|
  {
    var all := if envs == [] then [map[]] else envs;
    |all| == Size(cs, m) && forall k :: 0 <= k < |all| ==> all[k] == Combination(cs, m, k)
  }

  /** The digits of a combination of the first settings do not see the later ones. */
  lemma {:induction false} CombinationOfRest(cs: seq<Choice>, m: nat, k: nat, n: nat)
    requires m <= n <= |cs|
    ensures Combination(cs, m, k) == Combination(cs, m, k % Size(cs, n))
    decreases m
  {
    if m > 0 {
      CombinationOfRest(cs, m - 1, k, n);
      DigitOfRest(cs, m - 1, k, n);
    }
  }

  /** Size(i) divides Size(n) with a quotient that the count of setting `i` divides. */
  lemma {:induction false} SizeFactors(cs: seq<Choice>, i: nat, n: nat) returns (f: nat)
    requires i < n <= |cs|
    ensures Size(cs, n) == Size(cs, i) * (cs[i].Count() * f)
  {
    if n == i + 1 {
      f := 1;
    } else {
      var g := SizeFactors(cs, i, n - 1);
      f := g * cs[n - 1].Count();
      Regroup(Size(cs, i), cs[i].Count(), g, cs[n - 1].Count());
    }
  }

  lemma Regroup(a: int, b: int, c: int, d: int)
    ensures a * (b * c) * d == a * (b * (c * d))
  {}

  lemma {:induction false} DigitOfRest(cs: seq<Choice>, i: nat, k: nat, n: nat)
    requires i < n <= |cs|
    ensures Digit(cs, i, k) == Digit(cs, i, k % Size(cs, n))
  {
    var f := SizeFactors(cs, i, n);
    var s, c := Size(cs, i), cs[i].Count();
    var q, r := k / Size(cs, n), k % Size(cs, n);
    hide Size;
    DigitShift(s, c, f, q, r);
    assert k == s * (c * f) * q + r;
  }

  /** Adding a multiple of s c to r changes neither digit (r / s) mod c. */
  lemma DigitShift(s: nat, c: nat, f: nat, q: nat, r: nat)
    requires 0 < s && 0 < c
    ensures (s * (c * f) * q + r) / s % c == r / s % c
  {
    var t := c * (f * q);
    assert s * (c * f) * q == s * t by { Regroup(s, c, f, q); }
    RestIsUnique(s * t + r, s, t + r / s, r % s);
    RestIsUnique(t + r / s, c, f * q + r / s / c, r / s % c);
  }

  lemma CombinationSkips(cs: seq<Choice>, m: nat)
    requires m < |cs| && cs[m].values == []
    ensures Size(cs, m + 1) == Size(cs, m)
    ensures forall k: nat :: Combination(cs, m + 1, k) == Combination(cs, m, k)
  {
    assert cs[m].Count() == 1;
  }

  lemma CombinationExtends(cs: seq<Choice>, m: nat, tmp: seq<Env>, k: nat)
    requires m < |cs| && cs[m].values != [] && k < |cs[m].values| * |tmp| && |tmp| == Size(cs, m)
    requires tmp[k % |tmp|] == Combination(cs, m, k % |tmp|)
    ensures Copy(tmp, cs[m], k) == Combination(cs, m + 1, k)
  {
    hide Size, Choice.Value, Digit, Combination;
    CombinationOfRest(cs, m, k, m);
    QuotientBelow(k, |tmp|, |cs[m].values|);
    LastDigit(cs, m, k);
    CombinationUnfolds(cs, m, k);
  }

  lemma LastDigit(cs: seq<Choice>, m: nat, k: nat)
    requires m < |cs| && cs[m].values != [] && k / Size(cs, m) < |cs[m].values|
    ensures Digit(cs, m, k) == k / Size(cs, m)
  {
    hide Size;
    RestIsUnique(k / Size(cs, m), |cs[m].values|, 0, k / Size(cs, m));
  }

  lemma CombinationUnfolds(cs: seq<Choice>, m: nat, k: nat)
    requires m < |cs| && cs[m].values != []
    ensures Combination(cs, m + 1, k) == Combination(cs, m, k)[cs[m].name := cs[m].Value(Digit(cs, m, k))]
  {
    hide Size, Choice.Value, Digit;
  }

  lemma SkipExpands(envs: seq<Env>, cs: seq<Choice>, m: nat)
    requires m < |cs| && Expanded(envs, cs, m) && cs[m].values == []
    ensures Expanded(envs, cs, m + 1)
  {
    hide Size, Combination;
    CombinationSkips(cs, m);
    var all := if envs == [] then [map[]] else envs;
    forall k | 0 <= k < |all| ensures all[k] == Combination(cs, m + 1, k) {
      assert all[k] == Combination(cs, m, k);
    }
  }

  lemma FillExpands(envs: seq<Env>, filled: seq<Env>, cs: seq<Choice>, m: nat)
    requires m < |cs| && Expanded(envs, cs, m) && cs[m].values != []
    requires var tmp := if envs == [] then [map[]] else envs;
             |filled| == |cs[m].values| * |tmp| && forall k :: 0 <= k < |filled| ==> filled[k] == Copy(tmp, cs[m], k)
    ensures Expanded(filled, cs, m + 1)
  {
    hide Combination, Copy;
    var tmp := if envs == [] then [map[]] else envs;
    assert Size(cs, m + 1) == |tmp| * |cs[m].values|;
    Positive(|cs[m].values|, |tmp|);
    forall k | 0 <= k < |filled| ensures filled[k] == Combination(cs, m + 1, k) {
      CombinationExtends(cs, m, tmp, k);
    }
  }

  /** The settings of a run, one after another, then the copies for the iterations (at least one). */
  method CausalEnvs(cs: seq<Choice>, niterations: int) returns (out: seq<Env>)
    ensures var rounds := if niterations < 1 then 1 else niterations;
            && |out| == rounds * Size(cs, |cs|)
            && forall k :: 0 <= k < |out| ==> out[k] == Combination(cs, |cs|, k)
  {
    hide Combination, Size, Copy;
    var rounds := if niterations < 1 then 1 else niterations;
    var tmp: seq<Env> := [];
    StartExpanded(cs);
    for m := 0 to |cs|
      invariant Expanded(tmp, cs, m)
    {
      var filled := Fill(tmp, cs[m]);
      if cs[m].values == [] {
        SkipExpands(tmp, cs, m);
      } else {
        FillExpands(tmp, filled, cs, m);
      }
      tmp := filled;
    }
    if tmp == [] {
      tmp := [map[]];
    }
    out := [];
    for i := 0 to rounds
      invariant |out| == i * |tmp|
      invariant forall k :: 0 <= k < |out| ==> out[k] == Combination(cs, |cs|, k)
    {
      for e := 0 to |tmp|
        invariant |out| == i * |tmp| + e
        invariant forall k :: 0 <= k < |out| ==> out[k] == Combination(cs, |cs|, k)
      {
        CombinationOfRest(cs, |cs|, i * |tmp| + e, |cs|);
        MultipleAndRest(i, |tmp|, e);
        out := out + [tmp[e]];
      }
      OneMore(i, |tmp|);
    }
  }

  lemma MultipleAndRest(i: nat, n: nat, e: nat)
    requires e < n
    ensures (i * n + e) % n == e && (i * n + e) / n == i
  {
    RestIsUnique(i * n + e, n, i, e);
  }

  lemma StartExpanded(cs: seq<Choice>)
    ensures Expanded([], cs, 0)
  {}

  // ----- every combination once per iteration -----

  /** The number whose digits are `ds`. */
  function Encode(cs: seq<Choice>, m: nat, ds: seq<nat>): nat
    requires m <= |cs| == |ds|
  {
    if m == 0 then 0 else Encode(cs, m - 1, ds) + Size(cs, m - 1) * ds[m - 1]
  }

  lemma EncodeArithmetic(s: nat, c: nat, e: nat, d: nat)
    requires e < s && d < c
    ensures e + s * d < s * c
  {
    Monotone(d + 1, c, s);
    assert (d + 1) * s == s * d + s;
  }

  lemma {:induction false} EncodeBelow(cs: seq<Choice>, m: nat, ds: seq<nat>)
    requires m <= |cs| == |ds| && forall i :: 0 <= i < m ==> ds[i] < cs[i].Count()
    ensures Encode(cs, m, ds) < Size(cs, m)
  {
    if m > 0 {
      EncodeBelow(cs, m - 1, ds);
      EncodeArithmetic(Size(cs, m - 1), cs[m - 1].Count(), Encode(cs, m - 1, ds), ds[m - 1]);
    }
  }

  /** A number's digits up to `m` are `ds` exactly when its rest modulo Size(m) is the number they encode. */
  lemma {:induction false} DigitsDetermine(cs: seq<Choice>, m: nat, ds: seq<nat>, k: nat)
    requires m <= |cs| == |ds| && forall i :: 0 <= i < m ==> ds[i] < cs[i].Count()
    ensures (forall i :: 0 <= i < m ==> Digit(cs, i, k) == ds[i]) <==> k % Size(cs, m) == Encode(cs, m, ds)
  {
    if m == 0 {
    } else {
      DigitsDetermine(cs, m - 1, ds, k);
      EncodeBelow(cs, m - 1, ds);
      var s, c := Size(cs, m - 1), cs[m - 1].Count();
      TwoDigits(k, s, c);
      OneRadixStep(s, c, k % s, Digit(cs, m - 1, k), Encode(cs, m - 1, ds), ds[m - 1]);
    }
  }

  lemma TwoDigits(k: nat, s: nat, c: nat)
    requires 0 < s && 0 < c
    ensures 0 < s * c && k % (s * c) == k % s + s * (k / s % c)
  {
    Positive(s, c);
    var q, r := k / s, k % s;
    var q', r' := q / c, q % c;
    assert k == s * q + r && q == c * q' + r';
    assert s * q == s * c * q' + s * r' by {
      assert s * (c * q' + r') == s * (c * q') + s * r';
      assert s * (c * q') == s * c * q';
    }
    EncodeArithmetic(s, c, r, r');
    RestIsUnique(k, s * c, q', r + s * r');
  }

  lemma OneRadixStep(s: nat, c: nat, r: nat, d: nat, r': nat, d': nat)
    requires 0 < s && r < s && r' < s
    ensures r + s * d == r' + s * d' <==> r == r' && d == d'
  {
    if r + s * d == r' + s * d' { DivisionIsUnique(s, d, r, d', r'); }
  }

  /** In every iteration each choice of one value index per setting stands at exactly one position. */
  lemma EachCombinationOncePerRound(cs: seq<Choice>, ds: seq<nat>, round: nat, k: nat)
    requires |ds| == |cs| && forall i :: 0 <= i < |cs| ==> ds[i] < cs[i].Count()
    requires round * Size(cs, |cs|) <= k < (round + 1) * Size(cs, |cs|)
    ensures Encode(cs, |cs|, ds) < Size(cs, |cs|)
    ensures (forall i :: 0 <= i < |cs| ==> Digit(cs, i, k) == ds[i]) <==>
            k == round * Size(cs, |cs|) + Encode(cs, |cs|, ds)
  {
    hide Digit, Encode, Size;
    DigitsDetermine(cs, |cs|, ds, k);
    EncodeBelow(cs, |cs|, ds);
    PositionInRound(round, Size(cs, |cs|), k, Encode(cs, |cs|, ds));
  }

  lemma PositionInRound(round: nat, n: nat, k: nat, e: nat)
    requires e < n && round * n <= k < (round + 1) * n
    ensures k % n == e <==> k == round * n + e
  {
    OneMore(round, n);
    MultipleAndRest(round, n, k - round * n);
  }
}
