/**
  Vectors of exact reals: sums, differences, multiples and the dot product.
 */
module RealVectors {

  function Dot(a: seq<real>, x: seq<real>): real
    requires |a| == |x|
  {
    if a == [] then 0.0 else a[0] * x[0] + Dot(a[1..], x[1..])
  }

  function Add(x: seq<real>, y: seq<real>): (z: seq<real>)
    requires |x| == |y|
    ensures |z| == |x| && forall i :: 0 <= i < |x| ==> z[i] == x[i] + y[i]
  {
    seq(|x|, i requires 0 <= i < |x| => x[i] + y[i])
  }

  function Sub(x: seq<real>, y: seq<real>): (z: seq<real>)
    requires |x| == |y|
    ensures |z| == |x| && forall i :: 0 <= i < |x| ==> z[i] == x[i] - y[i]
  {
    seq(|x|, i requires 0 <= i < |x| => x[i] - y[i])
  }

  function Scale(s: real, x: seq<real>): (z: seq<real>)
    ensures |z| == |x| && forall i :: 0 <= i < |x| ==> z[i] == s * x[i]
  {
    seq(|x|, i requires 0 <= i < |x| => s * x[i])
  }

  lemma Distribute(a: real, x: real, y: real)
    ensures a * (x - y) == a * x - a * y && a * (x + y) == a * x + a * y
  {}

  lemma {:induction false} DotOfSub(a: seq<real>, x: seq<real>, y: seq<real>)
    requires |a| == |x| == |y|
    ensures Dot(a, Sub(x, y)) == Dot(a, x) - Dot(a, y)
  {
    if a == [] {
    } else {
      DotOfSub(a[1..], x[1..], y[1..]);
      assert Sub(x, y)[1..] == Sub(x[1..], y[1..]);
      Distribute(a[0], x[0], y[0]);
      assert Dot(a, Sub(x, y)) == a[0] * Sub(x, y)[0] + Dot(a[1..], Sub(x[1..], y[1..]));
    }
  }

  lemma {:induction false} DotOfAdd(a: seq<real>, x: seq<real>, y: seq<real>)
    requires |a| == |x| == |y|
    ensures Dot(a, Add(x, y)) == Dot(a, x) + Dot(a, y)
  {
    if a == [] {
    } else {
      DotOfAdd(a[1..], x[1..], y[1..]);
      assert Add(x, y)[1..] == Add(x[1..], y[1..]);
      Distribute(a[0], x[0], y[0]);
      assert Dot(a, Add(x, y)) == a[0] * Add(x, y)[0] + Dot(a[1..], Add(x[1..], y[1..]));
    }
  }

  lemma PullOut(a: real, s: real, x: real, rest: real)
    ensures a * (s * x) + s * rest == s * (a * x + rest)
  {}

  lemma {:induction false} DotOfScale(a: seq<real>, s: real, x: seq<real>)
    requires |a| == |x|
    ensures Dot(a, Scale(s, x)) == s * Dot(a, x)
  {
    if a == [] {
    } else {
      DotOfScale(a[1..], s, x[1..]);
      forall i | 0 <= i < |x| - 1 ensures Scale(s, x)[1..][i] == Scale(s, x[1..])[i] {
        assert Scale(s, x)[i + 1] == s * x[i + 1];
      }
      assert Scale(s, x)[1..] == Scale(s, x[1..]);
      PullOut(a[0], s, x[0], Dot(a[1..], x[1..]));
    }
  }

  lemma {:induction false} DotCommutes(a: seq<real>, x: seq<real>)
    requires |a| == |x|
    ensures Dot(a, x) == Dot(x, a)
  {
    if a == [] {
    } else {
      DotCommutes(a[1..], x[1..]);
    }
  }

  lemma {:induction false} DotSnoc(a: seq<real>, x: seq<real>, b: real, y: real)
    requires |a| == |x|
    ensures Dot(a + [b], x + [y]) == Dot(a, x) + b * y
  {
    if a == [] {
    } else {
      assert (a + [b])[1..] == a[1..] + [b] && (x + [y])[1..] == x[1..] + [y];
      DotSnoc(a[1..], x[1..], b, y);
    }
  }
}
