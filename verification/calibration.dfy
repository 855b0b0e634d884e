/** The rating calibration: shrunk bucket means made non-decreasing by pooling
    adjacent violators, and its interpolation at a rating. */
module Calibration {
  import opened RealSums

  const BUCKETS := 11

  // ------------------------------------------------ what the pooled fit must be

  ghost predicate NonDecreasing(x: seq<real>) {
    forall i, j | 0 <= i <= j < |x| :: x[i] <= x[j]
  }

  ghost predicate Positive(weights: seq<real>) {
    forall i | 0 <= i < |weights| :: weights[i] > 0.0
  }

  /** The weighted squared error of `x` against the means totals/weights. */
  ghost function Error(totals: seq<real>, weights: seq<real>, x: seq<real>, n: nat): real
    requires Positive(weights) && n <= |totals| == |weights| == |x|
  {
    if n == 0 then 0.0
    else Error(totals, weights, x, n - 1) + Square(weights[n - 1], x[n - 1] - totals[n - 1] / weights[n - 1])
  }

  function Square(weight: real, gap: real): real { Times(weight, Times(gap, gap)) }

  /** The weighted squared distance of two fits. */
  ghost function Distance(weights: seq<real>, x: seq<real>, y: seq<real>, n: nat): real
    requires n <= |weights| == |x| == |y|
  {
    if n == 0 then 0.0 else Distance(weights, x, y, n - 1) + Square(weights[n - 1], y[n - 1] - x[n - 1])
  }

  /** What the first `n` buckets' totals exceed the fit's by. */
  ghost function Residual(totals: seq<real>, weights: seq<real>, x: seq<real>, n: nat): real
    requires n <= |totals| == |weights| && n <= |x|
  {
    if n == 0 then 0.0
    else Residual(totals, weights, x, n - 1) + totals[n - 1] - Times(weights[n - 1], x[n - 1])
  }

  /** A non-decreasing fit whose residuals never fall below zero and vanish wherever
      the fit rises, and at the end. */
  ghost predicate Pooled(totals: seq<real>, weights: seq<real>, x: seq<real>) {
    && |totals| == |weights| == |x|
    && NonDecreasing(x)
    && (forall n | 0 <= n <= |x| :: Residual(totals, weights, x, n) >= 0.0)
    && Residual(totals, weights, x, |x|) == 0.0
    && (forall n | 0 < n < |x| && x[n - 1] < x[n] :: Residual(totals, weights, x, n) == 0.0)
  }

  /** The residuals' inner product with the way to another non-decreasing vector. */
  ghost function Slope(totals: seq<real>, weights: seq<real>, x: seq<real>, y: seq<real>, n: nat): real
    requires n <= |totals| == |weights| == |x| == |y|
  {
    if n == 0 then 0.0
    else
      Slope(totals, weights, x, y, n - 1)
      + Times(totals[n - 1] - Times(weights[n - 1], x[n - 1]), y[n - 1] - x[n - 1])
  }

  /** Summation by parts: the slope is bounded by the last residual. */
  lemma {:induction false} SlopeBound(totals: seq<real>, weights: seq<real>, x: seq<real>, y: seq<real>, n: nat)
    requires Pooled(totals, weights, x) && |y| == |x| && NonDecreasing(y) && 0 < n <= |x|
    ensures Slope(totals, weights, x, y, n) <= Times(Residual(totals, weights, x, n), y[n - 1] - x[n - 1])
  {
    hide Times;
    var r := Residual(totals, weights, x, n);
    var own := totals[n - 1] - Times(weights[n - 1], x[n - 1]);
    var z := y[n - 1] - x[n - 1];
    if n == 1 {
      assert Residual(totals, weights, x, 0) == 0.0 && Slope(totals, weights, x, y, 0) == 0.0;
    } else {
      SlopeBound(totals, weights, x, y, n - 1);
      var before, z' := Residual(totals, weights, x, n - 1), y[n - 2] - x[n - 2];
      if x[n - 2] < x[n - 1] {
        TimesZero(z', before);
        TimesZero(z, before);
      } else {
        TimesIsMonotone(before, z', z);
      }
      assert Times(before, z') <= Times(before, z);
      SumTimes(r, before, own, z);
    }
  }

  lemma SumTimes(sum: real, a: real, b: real, z: real)
    requires sum == a + b
    ensures Times(sum, z) == Times(a, z) + Times(b, z)
  {
  }

  /** One bucket: how its error changes from `x` to `y`. */
  lemma ErrorShift(total: real, weight: real, x: real, y: real)
    requires weight > 0.0
    ensures var mean := total / weight;
            Square(weight, y - mean) ==
            Square(weight, x - mean) - 2.0 * Times(total - Times(weight, x), y - x) + Square(weight, y - x)
  {
    var mean := total / weight;
    assert weight * mean == total;
    ShiftIdentity(weight, mean, x, y);
  }

  lemma ShiftIdentity(weight: real, mean: real, x: real, y: real)
    ensures weight * ((y - mean) * (y - mean)) ==
            weight * ((x - mean) * (x - mean)) - 2.0 * ((weight * mean - weight * x) * (y - x))
              + weight * ((y - x) * (y - x))
  {
  }

  lemma {:induction false} ErrorFromFit(totals: seq<real>, weights: seq<real>, x: seq<real>, y: seq<real>, n: nat)
    requires Positive(weights) && n <= |totals| == |weights| == |x| == |y|
    ensures Error(totals, weights, y, n) ==
            Error(totals, weights, x, n) - 2.0 * Slope(totals, weights, x, y, n) + Distance(weights, x, y, n)
  {
    hide Times, Square;
    if n > 0 {
      ErrorFromFit(totals, weights, x, y, n - 1);
      ErrorShift(totals[n - 1], weights[n - 1], x[n - 1], y[n - 1]);
    }
  }

  /** The pooled fit is the least-squares one: any non-decreasing vector's error is
      larger by at least its weighted squared distance from the fit. */
  lemma PooledIsOptimal(totals: seq<real>, weights: seq<real>, x: seq<real>, y: seq<real>)
    requires Positive(weights) && Pooled(totals, weights, x) && |y| == |x| && NonDecreasing(y)
    ensures Error(totals, weights, x, |x|) + Distance(weights, x, y, |x|) <= Error(totals, weights, y, |x|)
  {
    hide Times, Error, Distance;
    ErrorFromFit(totals, weights, x, y, |x|);
    if |x| > 0 {
      SlopeBound(totals, weights, x, y, |x|);
      TimesZero(y[|x| - 1] - x[|x| - 1], Residual(totals, weights, x, |x|));
    }
  }

  lemma {:induction false} DistanceSeparates(weights: seq<real>, x: seq<real>, y: seq<real>, n: nat)
    requires Positive(weights) && n <= |weights| == |x| == |y|
    ensures Distance(weights, x, y, n) >= 0.0
    ensures Distance(weights, x, y, n) == 0.0 ==> x[..n] == y[..n]
  {
    hide Square;
    if n > 0 {
      DistanceSeparates(weights, x, y, n - 1);
      var gap := y[n - 1] - x[n - 1];
      SquareSign(weights[n - 1], gap);
      if Distance(weights, x, y, n) == 0.0 {
        assert x[..n] == x[..n - 1] + [x[n - 1]] && y[..n] == y[..n - 1] + [y[n - 1]];
      }
    }
  }

  lemma SquareIsPositive(gap: real)
    requires gap != 0.0
    ensures Times(gap, gap) > 0.0
  {
    hide Times;
    if gap > 0.0 { TimesIsPositive(gap, gap); } else { NegativeSquare(gap); }
  }

  lemma NegativeSquare(gap: real)
    requires gap < 0.0
    ensures Times(gap, gap) > 0.0
  {
    TimesKeepsSquare(gap);
    TimesIsPositive(-gap, -gap);
  }

  lemma TimesKeepsSquare(gap: real)
    ensures Times(-gap, -gap) == Times(gap, gap)
  {
  }

  lemma SquareSign(weight: real, gap: real)
    requires weight > 0.0
    ensures Square(weight, gap) >= 0.0
    ensures Square(weight, gap) == 0.0 ==> gap == 0.0
  {
    hide Times;
    if gap == 0.0 {
      TimesZero(gap, gap);
      TimesZero(weight, Times(gap, gap));
    } else {
      SquareIsPositive(gap);
      TimesIsPositive(weight, Times(gap, gap));
    }
  }

  /** No other non-decreasing vector has an error as small. */
  lemma PooledIsTheOnlyOptimum(totals: seq<real>, weights: seq<real>, x: seq<real>, y: seq<real>)
    requires Positive(weights) && Pooled(totals, weights, x) && |y| == |x| && NonDecreasing(y)
    requires Error(totals, weights, y, |x|) <= Error(totals, weights, x, |x|)
    ensures y == x
  {
    PooledIsOptimal(totals, weights, x, y);
    DistanceSeparates(weights, x, y, |x|);
    assert x[..|x|] == x && y[..|x|] == y;
  }

  // --------------------------------------------------------------- the blocks

  datatype Block = Block(total: real, weight: real, count: nat)

  function Mean(b: Block): real
    requires b.weight > 0.0
  {
    b.total / b.weight
  }

  ghost function Range(s: seq<real>, from: nat, to: nat): real
    requires from <= to <= |s|
  {
    if from == to then 0.0 else Range(s, from, to - 1) + s[to - 1]
  }

  /** A block over buckets from..from+count: its sums, and no prefix of it lies below
      its mean. */
  ghost predicate BlockOver(totals: seq<real>, weights: seq<real>, from: nat, b: Block) {
    && |totals| == |weights| && b.count > 0 && from + b.count <= |totals|
    && b.total == Range(totals, from, from + b.count)
    && b.weight == Range(weights, from, from + b.count) > 0.0
    && forall k | from <= k <= from + b.count :: Range(totals, from, k) >= Times(Mean(b), Range(weights, from, k))
  }

  /** The stack covers the first `n` buckets with blocks of rising means. */
  ghost predicate Stack(totals: seq<real>, weights: seq<real>, blocks: seq<Block>, n: nat) {
    if blocks == [] then n == 0
    else
      var top := blocks[|blocks| - 1];
      && top.count <= n
      && BlockOver(totals, weights, n - top.count, top)
      && Stack(totals, weights, blocks[..|blocks| - 1], n - top.count)
      && (forall i | 0 <= i < |blocks| - 1 :: blocks[i].weight > 0.0 && Mean(blocks[i]) < Mean(top))
  }

  lemma {:induction false} RangeJoins(s: seq<real>, from: nat, mid: nat, to: nat)
    requires from <= mid <= to <= |s|
    ensures Range(s, from, to) == Range(s, from, mid) + Range(s, mid, to)
  {
    if mid < to { RangeJoins(s, from, mid, to - 1); }
  }

  lemma {:induction false} RangeIsNonNegative(weights: seq<real>, from: nat, to: nat)
    requires Positive(weights) && from <= to <= |weights|
    ensures Range(weights, from, to) >= 0.0 && (from < to ==> Range(weights, from, to) > 0.0)
  {
    if from < to { RangeIsNonNegative(weights, from, to - 1); }
  }

  /** The mean of two merged blocks lies between theirs. */
  lemma MergedMean(p: Block, c: Block, m: Block)
    requires p.weight > 0.0 && c.weight > 0.0 && Mean(p) >= Mean(c)
    requires m.total == p.total + c.total && m.weight == p.weight + c.weight
    ensures Mean(c) <= Mean(m) <= Mean(p)
    ensures p.total == Times(Mean(p), p.weight) && c.total == Times(Mean(c), c.weight)
    ensures m.total == Times(Mean(m), m.weight)
  {
    var a, b := Mean(p), Mean(c);
    DivideBack(p.total, p.weight);
    DivideBack(c.total, c.weight);
    hide Times;
    MixtureBetween(a, p.weight, b, c.weight, m.total, m.weight);
  }

  lemma DivideBack(total: real, weight: real)
    requires weight > 0.0
    ensures Times(total / weight, weight) == total
  {
  }

  lemma MixtureBetween(a: real, u: real, b: real, v: real, total: real, w: real)
    requires u > 0.0 && v > 0.0 && a >= b && w == u + v && total == Times(a, u) + Times(b, v)
    ensures b <= total / w <= a
    ensures total == Times(total / w, w)
  {
    DivideBack(total, w);
    MixtureGaps(a, u, b, v, w);
    hide Times;
    ScaleIsStrict(a, total / w, w);
    ScaleIsStrict(total / w, b, w);
  }

  lemma MixtureGaps(a: real, u: real, b: real, v: real, w: real)
    requires u > 0.0 && v > 0.0 && a >= b && w == u + v
    ensures Times(b, w) <= Times(a, u) + Times(b, v) <= Times(a, w)
  {
    TimesKeepsSign(a - b, v);
    TimesKeepsSign(a - b, u);
  }

  lemma ScaleIsStrict(low: real, high: real, scale: real)
    requires scale > 0.0
    ensures low < high ==> Times(low, scale) < Times(high, scale)
  {
    if low < high { TimesIsPositive(high - low, scale); }
  }

  lemma TimesIsPositive(a: real, b: real)
    requires a > 0.0 && b > 0.0
    ensures Times(a, b) > 0.0
  {
  }

  lemma MergeKeepsBlock(totals: seq<real>, weights: seq<real>, from: nat, p: Block, c: Block)
    requires Positive(weights)
    requires BlockOver(totals, weights, from, p) && BlockOver(totals, weights, from + p.count, c)
    requires Mean(p) >= Mean(c)
    ensures BlockOver(totals, weights, from, Block(c.total + p.total, c.weight + p.weight, c.count + p.count))
  {
    hide Mean, Times;
    var m := Block(c.total + p.total, c.weight + p.weight, c.count + p.count);
    var mid, to := from + p.count, from + m.count;
    MergedMean(p, c, m);
    RangeJoins(totals, from, mid, to);
    RangeJoins(weights, from, mid, to);
    forall k | from <= k <= to ensures Range(totals, from, k) >= Times(Mean(m), Range(weights, from, k)) {
      if k <= mid {
        RangeIsNonNegative(weights, from, k);
        TimesIsMonotone(Range(weights, from, k), Mean(m), Mean(p));
      } else {
        RangeJoins(totals, from, mid, k);
        RangeJoins(weights, from, mid, k);
        RangeJoins(weights, mid, k, to);
        RangeIsNonNegative(weights, k, to);
        SecondPart(Mean(m), m.total, m.weight, p.total, p.weight, Mean(c), c.total, c.weight,
                   Range(totals, mid, k), Range(weights, mid, k), Range(weights, k, to));
      }
    }
  }

  /** A prefix that reaches into the second block: the rest of that block lies at or
      below its mean, which is at or below the merged one. */
  lemma SecondPart(mean: real, total: real, weight: real, pt: real, pw: real, cm: real, ct: real, cw: real,
                   part: real, width: real, rest: real)
    requires total == pt + ct && weight == pw + cw && cw == width + rest
    requires total == Times(mean, weight) && ct == Times(cm, cw)
    requires part >= Times(cm, width) && cm <= mean && rest >= 0.0
    ensures pt + part >= Times(mean, pw + width)
  {
    hide Times;
    TimesDistributes(cm, cw, width, rest);
    TimesDistributes(mean, weight, pw + width, rest);
    TimesIsMonotone(rest, cm, mean);
    Commutes(rest, cm);
    Commutes(rest, mean);
  }

  lemma Commutes(a: real, b: real)
    ensures Times(a, b) == Times(b, a)
  {
  }

  lemma SingleBlock(totals: seq<real>, weights: seq<real>, i: nat)
    requires Positive(weights) && i < |totals| == |weights|
    ensures BlockOver(totals, weights, i, Block(totals[i], weights[i], 1))
  {
    var b := Block(totals[i], weights[i], 1);
    assert Range(totals, i, i) == 0.0 && Range(weights, i, i) == 0.0;
    assert Range(totals, i, i + 1) == totals[i] && Range(weights, i, i + 1) == weights[i];
    assert Mean(b) * b.weight == b.total;
    forall k | i <= k <= i + 1 ensures Range(totals, i, k) >= Times(Mean(b), Range(weights, i, k)) {
      if k == i { TimesZero(Mean(b), Range(weights, i, k)); } else { assert k == i + 1; }
    }
  }

  lemma StackTop(totals: seq<real>, weights: seq<real>, blocks: seq<Block>, n: nat)
    requires Stack(totals, weights, blocks, n) && blocks != []
    ensures var top := blocks[|blocks| - 1];
            && 0 < top.count <= n && top.weight > 0.0
            && BlockOver(totals, weights, n - top.count, top)
            && Stack(totals, weights, blocks[..|blocks| - 1], n - top.count)
  {
  }

  /** The merge loop of one bucket. */
  method Push(totals: seq<real>, weights: seq<real>, blocks: seq<Block>, i: nat) returns (blocks': seq<Block>)
    requires Positive(weights) && i < |totals| == |weights|
    requires Stack(totals, weights, blocks, i)
    ensures Stack(totals, weights, blocks', i + 1)
  {
    blocks' := blocks;
    var current := Block(totals[i], weights[i], 1);
    SingleBlock(totals, weights, i);
    hide BlockOver, Mean;
    StackWeights(totals, weights, blocks', i);
    ghost var n: nat := i;
    while blocks' != [] && Mean(blocks'[|blocks'| - 1]) >= Mean(current)
      invariant n + current.count == i + 1 && n <= i && current.weight > 0.0
      invariant Stack(totals, weights, blocks', n) && BlockOver(totals, weights, n, current)
      invariant forall j | 0 <= j < |blocks'| :: blocks'[j].weight > 0.0
      decreases |blocks'|
    {
      var previous := blocks'[|blocks'| - 1];
      StackTop(totals, weights, blocks', n);
      MergeKeepsBlock(totals, weights, n - previous.count, previous, current);
      blocks' := blocks'[..|blocks'| - 1];
      n := n - previous.count;
      current := Block(current.total + previous.total, current.weight + previous.weight,
                       current.count + previous.count);
    }
    MeansRise(totals, weights, blocks', n);
    assert (blocks' + [current])[..|blocks'|] == blocks';
    blocks' := blocks' + [current];
  }

  lemma {:induction false} StackWeights(totals: seq<real>, weights: seq<real>, blocks: seq<Block>, n: nat)
    requires Stack(totals, weights, blocks, n)
    ensures forall i | 0 <= i < |blocks| :: blocks[i].weight > 0.0
  {
  }

  lemma MeansRise(totals: seq<real>, weights: seq<real>, blocks: seq<Block>, n: nat)
    requires Stack(totals, weights, blocks, n)
    requires forall i | 0 <= i < |blocks| :: blocks[i].weight > 0.0
    ensures forall i | 0 <= i < |blocks| :: Mean(blocks[i]) <= Mean(blocks[|blocks| - 1])
  {
  }

  // ------------------------------------------------------ from blocks to a fit

  /** What the fit built so far already satisfies. */
  ghost predicate PooledUpTo(totals: seq<real>, weights: seq<real>, x: seq<real>) {
    && |x| <= |totals| == |weights|
    && NonDecreasing(x)
    && (forall n | 0 <= n <= |x| :: Residual(totals, weights, x, n) >= 0.0)
    && (forall n | 0 < n < |x| && x[n - 1] < x[n] :: Residual(totals, weights, x, n) == 0.0)
  }

  lemma {:induction false} ResidualOfPrefix(totals: seq<real>, weights: seq<real>, x: seq<real>, v: real, n: nat)
    requires n <= |totals| == |weights| && n <= |x|
    ensures Residual(totals, weights, x + [v], n) == Residual(totals, weights, x, n)
  {
    hide Times;
    if n > 0 { ResidualOfPrefix(totals, weights, x, v, n - 1); }
  }

  lemma Appends(totals: seq<real>, weights: seq<real>, x: seq<real>, v: real)
    requires PooledUpTo(totals, weights, x) && |x| < |totals|
    requires x != [] ==> x[|x| - 1] == v || (x[|x| - 1] < v && Residual(totals, weights, x, |x|) == 0.0)
    requires Residual(totals, weights, x, |x|) + totals[|x|] - Times(weights[|x|], v) >= 0.0
    ensures PooledUpTo(totals, weights, x + [v])
    ensures Residual(totals, weights, x + [v], |x| + 1) ==
            Residual(totals, weights, x, |x|) + totals[|x|] - Times(weights[|x|], v)
  {
    hide Times;
    forall n | 0 <= n <= |x| ensures Residual(totals, weights, x + [v], n) == Residual(totals, weights, x, n) {
      ResidualOfPrefix(totals, weights, x, v, n);
    }
  }

  ghost function Count(blocks: seq<Block>): nat {
    if blocks == [] then 0 else Count(blocks[..|blocks| - 1]) + blocks[|blocks| - 1].count
  }

  lemma {:induction false} StackPrefix(totals: seq<real>, weights: seq<real>, blocks: seq<Block>, n: nat, j: nat)
    requires Stack(totals, weights, blocks, n) && j <= |blocks|
    ensures Stack(totals, weights, blocks[..j], Count(blocks[..j])) && Count(blocks) == n
  {
    if blocks == [] {
      assert blocks[..j] == [];
    } else {
      StackTop(totals, weights, blocks, n);
      var rest, top := blocks[..|blocks| - 1], blocks[|blocks| - 1];
      if j == |blocks| {
        StackPrefix(totals, weights, rest, n - top.count, 0);
        assert blocks[..j] == blocks;
      } else {
        StackPrefix(totals, weights, rest, n - top.count, j);
        assert rest[..j] == blocks[..j];
      }
    }
  }

  /** Writes a block's mean once per bucket of the block. */
  method WriteBlock(totals: seq<real>, weights: seq<real>, x: seq<real>, b: Block) returns (x': seq<real>)
    requires PooledUpTo(totals, weights, x) && BlockOver(totals, weights, |x|, b)
    requires Residual(totals, weights, x, |x|) == 0.0
    requires x != [] ==> x[|x| - 1] < Mean(b)
    ensures PooledUpTo(totals, weights, x') && |x'| == |x| + b.count
    ensures Residual(totals, weights, x', |x'|) == 0.0
    ensures x'[|x'| - 1] == Mean(b)
  {
    x' := x;
    var mean := Mean(b);
    DivideBack(b.total, b.weight);
    ghost var from := |x|;
    TimesZero(mean, Range(weights, from, from));
    assert Range(totals, from, from) == 0.0;
    hide Times, Mean;
    for i := 0 to b.count
      invariant |x'| == from + i
      invariant PooledUpTo(totals, weights, x')
      invariant if i == 0 then x' == x else x'[|x'| - 1] == mean
      invariant Residual(totals, weights, x', from + i)
                == Range(totals, from, from + i) - Times(mean, Range(weights, from, from + i))
    {
      var k := from + i;
      TimesDistributes(mean, Range(weights, from, k + 1), Range(weights, from, k), weights[k]);
      Commutes(mean, weights[k]);
      assert Range(totals, from, k + 1) == Range(totals, from, k) + totals[k];
      Appends(totals, weights, x', mean);
      x' := x' + [mean];
    }
  }

  /** The merge loop over all buckets, and the blocks written out. */
  method PoolAdjacent(totals: seq<real>, weights: seq<real>) returns (x: seq<real>)
    requires |totals| == |weights| && Positive(weights)
    ensures Pooled(totals, weights, x)
  {
    var blocks: seq<Block> := [];
    for i := 0 to |totals|
      invariant Stack(totals, weights, blocks, i)
    {
      blocks := Push(totals, weights, blocks, i);
    }
    x := [];
    for j := 0 to |blocks|
      invariant |x| == Count(blocks[..j])
      invariant PooledUpTo(totals, weights, x)
      invariant Residual(totals, weights, x, |x|) == 0.0
      invariant j > 0 ==> blocks[j - 1].weight > 0.0 && x != [] && x[|x| - 1] == Mean(blocks[j - 1])
      invariant j == 0 ==> x == []
    {
      StackPrefix(totals, weights, blocks, |totals|, j + 1);
      var top := blocks[..j + 1];
      assert top[..j] == blocks[..j];
      StackTop(totals, weights, top, Count(top));
      assert j > 0 ==> top[j - 1] == blocks[j - 1];
      x := WriteBlock(totals, weights, x, blocks[j]);
    }
    StackPrefix(totals, weights, blocks, |totals|, 0);
    assert blocks[..|blocks|] == blocks;
  }

  // -------------------------------------------------------- ratingCalibration

  datatype Behavior = Behavior(rating100: int, values: seq<real>, confidences: seq<real>)

  function Clamp(value: real): real {
    if value < -1.0 then -1.0 else if value > 1.0 then 1.0 else value
  }

  function RatingLine(rating100: int): real {
    Clamp((rating100 - 50) as real / 50.0)
  }

  /** Go's integer division, which truncates toward zero. */
  function Quotient(a: int, b: int): int
    requires b > 0
  {
    if a >= 0 then a / b else -((-a) / b)
  }

  /** The bucket of a rating: (rating100 + 5) / 10, kept within 0..10. */
  function Bucket(rating100: int): (b: nat)
    ensures b < BUCKETS
    ensures 0 <= rating100 <= 100 ==> 10 * b - 5 <= rating100 < 10 * b + 5
    ensures rating100 < 0 ==> b == 0
    ensures rating100 > 100 ==> b == BUCKETS - 1
  {
    var b := Quotient(rating100 + 5, 10);
    if b < 0 then 0 else if b > 10 then 10 else b
  }

  function Dot(values: seq<real>, confidences: seq<real>): real
    requires |values| == |confidences|
  {
    if values == [] then 0.0
    else Dot(values[..|values| - 1], confidences[..|values| - 1]) + values[|values| - 1] * confidences[|values| - 1]
  }

  /** A scene's weight: how far its evidence saturates; none without evidence. */
  ghost function SceneWeight(saturation: real -> real, item: Behavior): real {
    if Sum(item.confidences) <= 0.0 then 0.0 else saturation(Sum(item.confidences))
  }

  /** A scene's confidence-weighted mean outcome times its weight. */
  ghost function SceneTotal(saturation: real -> real, item: Behavior): real
    requires |item.values| == |item.confidences|
  {
    if Sum(item.confidences) <= 0.0 then 0.0
    else saturation(Sum(item.confidences)) * (Dot(item.values, item.confidences) / Sum(item.confidences))
  }

  ghost predicate WellFormed(behavior: seq<Behavior>) {
    forall i | 0 <= i < |behavior| :: |behavior[i].values| == |behavior[i].confidences|
  }

  ghost function BucketWeight(saturation: real -> real, behavior: seq<Behavior>, b: nat): real {
    if behavior == [] then 0.0
    else
      var last := behavior[|behavior| - 1];
      BucketWeight(saturation, behavior[..|behavior| - 1], b)
        + (if Bucket(last.rating100) == b then SceneWeight(saturation, last) else 0.0)
  }

  ghost function BucketTotal(saturation: real -> real, behavior: seq<Behavior>, b: nat): real
    requires WellFormed(behavior)
  {
    if behavior == [] then 0.0
    else
      var last := behavior[|behavior| - 1];
      BucketTotal(saturation, behavior[..|behavior| - 1], b)
        + (if Bucket(last.rating100) == b then SceneTotal(saturation, last) else 0.0)
  }

  /** The buckets, each shrunk toward the line by `support` pseudo-scenes. */
  ghost predicate Shrunk(saturation: real -> real, behavior: seq<Behavior>, support: real, totals: seq<real>,
                         weights: seq<real>) {
    && WellFormed(behavior)
    && |totals| == |weights| == BUCKETS
    && forall b | 0 <= b < BUCKETS ::
         && totals[b] == BucketTotal(saturation, behavior, b) + support * RatingLine(10 * b)
         && weights[b] == BucketWeight(saturation, behavior, b) + support
  }

  lemma {:induction false} BucketWeightSign(saturation: real -> real, behavior: seq<Behavior>, b: nat)
    requires forall e | e > 0.0 :: saturation(e) >= 0.0
    ensures BucketWeight(saturation, behavior, b) >= 0.0
  {
    if behavior != [] { BucketWeightSign(saturation, behavior[..|behavior| - 1], b); }
  }

  method WeightedSums(values: seq<real>, confidences: seq<real>) returns (evidence: real, products: real)
    requires |values| == |confidences|
    ensures evidence == Sum(confidences) && products == Dot(values, confidences)
  {
    evidence, products := 0.0, 0.0;
    for i := 0 to |values|
      invariant evidence == Sum(confidences[..i]) && products == Dot(values[..i], confidences[..i])
    {
      assert confidences[..i + 1][..i] == confidences[..i] && values[..i + 1][..i] == values[..i];
      evidence := evidence + confidences[i];
      products := products + values[i] * confidences[i];
    }
    assert confidences[..|values|] == confidences && values[..|values|] == values;
  }

  /** Adds every scene with evidence to its bucket. */
  method FillBuckets(saturation: real -> real, behavior: seq<Behavior>) returns (weights: seq<real>, sums: seq<real>)
    requires WellFormed(behavior)
    ensures |weights| == |sums| == BUCKETS
    ensures forall b | 0 <= b < BUCKETS ::
              weights[b] == BucketWeight(saturation, behavior, b) && sums[b] == BucketTotal(saturation, behavior, b)
  {
    weights := seq(BUCKETS, _ => 0.0);
    sums := seq(BUCKETS, _ => 0.0);
    for i := 0 to |behavior|
      invariant |weights| == |sums| == BUCKETS
      invariant forall b | 0 <= b < BUCKETS ::
                  weights[b] == BucketWeight(saturation, behavior[..i], b)
                    && sums[b] == BucketTotal(saturation, behavior[..i], b)
    {
      assert behavior[..i + 1][..i] == behavior[..i];
      var item := behavior[i];
      var evidence, products := WeightedSums(item.values, item.confidences);
      if evidence <= 0.0 { continue; }
      var outcome := products / evidence;
      var weight := saturation(evidence);
      var bucket := Bucket(item.rating100);
      weights := weights[bucket := weights[bucket] + weight];
      sums := sums[bucket := sums[bucket] + weight * outcome];
    }
    assert behavior[..|behavior|] == behavior;
  }

  /** ratingCalibration: the least-squares non-decreasing fit of the shrunk buckets.
      `saturation` stands for 1 - exp(-evidence). */
  method RatingCalibration(saturation: real -> real, behavior: seq<Behavior>, support: real) returns (result: seq<real>)
    requires WellFormed(behavior) && support > 0.0
    requires forall e | e > 0.0 :: saturation(e) >= 0.0
    ensures |result| == BUCKETS && NonDecreasing(result)
    ensures exists totals, weights ::
              && Shrunk(saturation, behavior, support, totals, weights)
              && Positive(weights) && Pooled(totals, weights, result)
  {
    hide BucketWeight, BucketTotal, NonDecreasing, Pooled, RatingLine, WellFormed, SceneWeight, SceneTotal;
    var weights, sums := FillBuckets(saturation, behavior);
    var t := seq(BUCKETS, b requires 0 <= b < BUCKETS => sums[b] + support * RatingLine(10 * b));
    var w := seq(BUCKETS, b requires 0 <= b < BUCKETS => weights[b] + support);
    forall b | 0 <= b < BUCKETS ensures w[b] > 0.0 { BucketWeightSign(saturation, behavior, b); }
    assert Shrunk(saturation, behavior, support, t, w);
    result := PoolAdjacent(t, w);
  }

  // --------------------------------------------------------- calibratedRating

  /** calibratedRating: the calibration interpolated, never below the line. */
  function CalibratedRating(rating100: int, calibration: seq<real>): real
    requires |calibration| == BUCKETS
  {
    var rating := Rating(rating100);
    var calibrated := Clamp(Interpolated(rating, calibration));
    if RatingLine(rating) > calibrated then RatingLine(rating) else calibrated
  }

  function Rating(rating100: int): (r: nat)
    ensures r <= 100
  {
    if rating100 < 0 then 0 else if rating100 > 100 then 100 else rating100
  }

  function Interpolated(rating: nat, calibration: seq<real>): real
    requires |calibration| == BUCKETS && rating <= 100
  {
    var low := rating / 10;
    var high := if low + 1 > 10 then 10 else low + 1;
    var fraction := (rating - low * 10) as real / 10.0;
    calibration[low] + Times(fraction, calibration[high] - calibration[low])
  }

  lemma InterpolationBetween(rating: nat, calibration: seq<real>)
    requires |calibration| == BUCKETS && NonDecreasing(calibration) && rating <= 100
    ensures var low := rating / 10;
            calibration[low] <= Interpolated(rating, calibration) <= calibration[if low + 1 > 10 then 10 else low + 1]
  {
    var low := rating / 10;
    var high := if low + 1 > 10 then 10 else low + 1;
    PartOfRise((rating - low * 10) as real / 10.0, calibration[high] - calibration[low]);
  }

  lemma PartOfRise(fraction: real, rise: real)
    requires 0.0 <= fraction <= 1.0 && rise >= 0.0
    ensures 0.0 <= Times(fraction, rise) <= rise
  {
    TimesKeepsSign(fraction, rise);
    TimesKeepsSign(1.0 - fraction, rise);
  }

  lemma InterpolationRises(a: nat, b: nat, calibration: seq<real>)
    requires |calibration| == BUCKETS && NonDecreasing(calibration) && a <= b <= 100
    ensures Interpolated(a, calibration) <= Interpolated(b, calibration)
  {
    var low := a / 10;
    if low == b / 10 {
      var high := if low + 1 > 10 then 10 else low + 1;
      TimesIsMonotone(calibration[high] - calibration[low], (a - low * 10) as real / 10.0,
                      (b - low * 10) as real / 10.0);
    } else {
      InterpolationBetween(a, calibration);
      InterpolationBetween(b, calibration);
    }
  }

  /** A better rating never counts for less. */
  lemma CalibratedRatingRises(a: int, b: int, calibration: seq<real>)
    requires |calibration| == BUCKETS && NonDecreasing(calibration) && a <= b
    ensures CalibratedRating(a, calibration) <= CalibratedRating(b, calibration)
  {
    InterpolationRises(Rating(a), Rating(b), calibration);
    hide Interpolated;
  }

  /** The result stays within -1..1 and never falls below the plain line. */
  lemma CalibratedRatingBounds(rating100: int, calibration: seq<real>)
    requires |calibration| == BUCKETS
    ensures -1.0 <= CalibratedRating(rating100, calibration) <= 1.0
    ensures CalibratedRating(rating100, calibration) >= RatingLine(rating100)
  {
    hide Interpolated;
  }
}
