/** Sums and L1 distances of real vectors. */
module RealSums {

  function Abs(x: real): real { if x < 0.0 then -x else x }

  /** The product, under a name so that a proof can treat it as a black box. */
  function Times(a: real, b: real): real { a * b }

  lemma TimesZero(a: real, zero: real)
    requires zero == 0.0
    ensures Times(a, zero) == 0.0 && Times(zero, a) == 0.0
  {
  }

  lemma TimesOne(a: real, one: real)
    requires one == 1.0
    ensures Times(a, one) == a
  {
  }

  lemma TimesDistributes(a: real, sum: real, b: real, c: real)
    requires sum == b + c
    ensures Times(a, sum) == Times(a, b) + Times(a, c)
  {
  }

  lemma TimesAssociates(a: real, b: real, c: real)
    ensures Times(a, Times(b, c)) == Times(Times(a, b), c)
  {
  }

  lemma TimesKeepsSign(a: real, b: real)
    requires a >= 0.0 && b >= 0.0
    ensures Times(a, b) >= 0.0
  {
  }

  lemma TimesIsMonotone(a: real, b: real, c: real)
    requires a >= 0.0 && b <= c
    ensures Times(a, b) <= Times(a, c) && Times(b, a) <= Times(c, a)
  {
  }

  /** The gap between two products with one non-negative factor in common. */
  lemma TimesGap(u: real, v: real, weight: real)
    requires weight >= 0.0
    ensures Abs(Times(u, weight) - Times(v, weight)) == Times(Abs(u - v), weight)
    ensures Abs(Times(weight, u) - Times(weight, v)) == Times(weight, Abs(u - v))
  {
    if u >= v {
      TimesKeepsSign(u - v, weight);
      assert (u - v) * weight == u * weight - v * weight;
    } else {
      TimesKeepsSign(v - u, weight);
      assert (v - u) * weight == v * weight - u * weight;
    }
  }

  function Sum(s: seq<real>): real {
    if s == [] then 0.0 else Sum(s[..|s| - 1]) + s[|s| - 1]
  }

  ghost predicate NonNegative(s: seq<real>) {
    forall i | 0 <= i < |s| :: s[i] >= 0.0
  }

  /** The L1 distance. */
  function Dist(x: seq<real>, y: seq<real>): real
    requires |x| == |y|
  {
    if x == [] then 0.0 else Dist(x[..|x| - 1], y[..|y| - 1]) + Abs(x[|x| - 1] - y[|y| - 1])
  }

  lemma {:induction false} SumOfUpdate(s: seq<real>, i: nat, v: real)
    requires i < |s|
    ensures Sum(s[i := v]) == Sum(s) - s[i] + v
  {
    var n := |s| - 1;
    if i == n {
      assert s[i := v][..n] == s[..n];
    } else {
      SumOfUpdate(s[..n], i, v);
      assert s[i := v][..n] == s[..n][i := v];
    }
  }

  lemma {:induction false} SumOfConstant(n: nat, v: real)
    ensures Sum(seq(n, _ => v)) == Times(n as real, v)
  {
    if n > 0 {
      SumOfConstant(n - 1, v);
      assert seq(n, _ => v)[..n - 1] == seq(n - 1, _ => v);
    }
  }

  lemma {:induction false} DistOfUpdate(x: seq<real>, y: seq<real>, i: nat, a: real, b: real)
    requires i < |x| == |y|
    ensures Dist(x[i := a], y[i := b]) == Dist(x, y) - Abs(x[i] - y[i]) + Abs(a - b)
  {
    var n := |x| - 1;
    if i == n {
      assert x[i := a][..n] == x[..n] && y[i := b][..n] == y[..n];
    } else {
      DistOfUpdate(x[..n], y[..n], i, a, b);
      assert x[i := a][..n] == x[..n][i := a] && y[i := b][..n] == y[..n][i := b];
    }
  }

  lemma {:induction false} DistIsNonNegative(x: seq<real>, y: seq<real>)
    requires |x| == |y|
    ensures Dist(x, y) >= 0.0
  {
    if x != [] { DistIsNonNegative(x[..|x| - 1], y[..|y| - 1]); }
  }

  lemma {:induction false} DistIsSymmetric(x: seq<real>, y: seq<real>)
    requires |x| == |y|
    ensures Dist(x, y) == Dist(y, x)
  {
    if x != [] { DistIsSymmetric(x[..|x| - 1], y[..|y| - 1]); }
  }

  lemma {:induction false} Triangle(x: seq<real>, y: seq<real>, z: seq<real>)
    requires |x| == |y| == |z|
    ensures Dist(x, z) <= Dist(x, y) + Dist(y, z)
  {
    if x != [] { Triangle(x[..|x| - 1], y[..|y| - 1], z[..|z| - 1]); }
  }

  lemma {:induction false} NoDistance(x: seq<real>, y: seq<real>)
    requires |x| == |y| && Dist(x, y) <= 0.0
    ensures x == y
  {
    if x != [] {
      var n := |x| - 1;
      var before := Dist(x[..n], y[..n]);
      DistIsNonNegative(x[..n], y[..n]);
      assert Dist(x, y) == before + Abs(x[n] - y[n]);
      hide Dist;
      NoDistance(x[..n], y[..n]);
      assert x[n] == y[n];
      assert x == x[..n] + [x[n]] && y == y[..n] + [y[n]];
    }
  }

  lemma {:induction false} NoDistanceToItself(x: seq<real>)
    ensures Dist(x, x) == 0.0
  {
    if x != [] { NoDistanceToItself(x[..|x| - 1]); }
  }

  /** Two non-negative vectors are no further apart than their masses together. */
  lemma {:induction false} DistAtMostMasses(x: seq<real>, y: seq<real>)
    requires |x| == |y| && NonNegative(x) && NonNegative(y)
    ensures Dist(x, y) <= Sum(x) + Sum(y)
  {
    if x != [] { DistAtMostMasses(x[..|x| - 1], y[..|y| - 1]); }
  }

  // ------------------------------------------------------------ sums over a map

  /** The sum of a map's values at some of its keys. */
  ghost function SumOver(values: map<string, real>, keys: set<string>): real
    requires keys <= values.Keys
  {
    if keys == {} then 0.0
    else
      var k :| k in keys;
      values[k] + SumOver(values, keys - {k})
  }

  /** It does not depend on the order in which the keys are met. */
  lemma {:induction false} SumOverTakesOut(values: map<string, real>, keys: set<string>, k: string)
    requires k in keys && keys <= values.Keys
    ensures SumOver(values, keys) == values[k] + SumOver(values, keys - {k})
    decreases keys
  {
    var j :| j in keys && SumOver(values, keys) == values[j] + SumOver(values, keys - {j});
    if j != k {
      SumOverTakesOut(values, keys - {j}, k);
      SumOverTakesOut(values, keys - {k}, j);
      assert keys - {j} - {k} == keys - {k} - {j};
    }
  }

  lemma {:induction false} SumOverAlike(values: map<string, real>, others: map<string, real>, keys: set<string>)
    requires keys <= values.Keys && keys <= others.Keys && forall k | k in keys :: values[k] == others[k]
    ensures SumOver(values, keys) == SumOver(others, keys)
    decreases keys
  {
    if keys != {} {
      var k :| k in keys;
      SumOverTakesOut(values, keys, k);
      SumOverTakesOut(others, keys, k);
      SumOverAlike(values, others, keys - {k});
    }
  }
}
