/** The power iteration of pagerank: its step as an affine map on score vectors,
    what the step keeps, how fast it contracts, and when the loop stops. */
module PageRank {
  import opened RealSums
  import GoOrder

  const DAMPING := 0.85
  const MAX_ITERATIONS := 100
  const TOLERANCE := 0.000001

  datatype Edge = Edge(target: nat, weight: real)

  /** The walk over node positions; `seed` is absent when the seed is no node. */
  datatype Walk = Walk(rows: seq<seq<Edge>>, seed: int, damping: real)

  ghost predicate WellFormed(w: Walk) {
    forall i, k | 0 <= i < |w.rows| && 0 <= k < |w.rows[i]| :: w.rows[i][k].target < |w.rows|
  }

  ghost function Weight(row: seq<Edge>): real {
    if row == [] then 0.0 else Weight(row[..|row| - 1]) + row[|row| - 1].weight
  }

  ghost function WeightTo(row: seq<Edge>, j: nat): real {
    if row == [] then 0.0
    else WeightTo(row[..|row| - 1], j) + (if row[|row| - 1].target == j then row[|row| - 1].weight else 0.0)
  }

  /** Non-negative rows that are empty or sum to 1, a seed among the nodes, and a
      damping strictly between 0 and 1. */
  ghost predicate Stochastic(w: Walk) {
    && WellFormed(w)
    && 0 <= w.seed < |w.rows|
    && 0.0 < w.damping < 1.0
    && (forall i, k | 0 <= i < |w.rows| && 0 <= k < |w.rows[i]| :: w.rows[i][k].weight >= 0.0)
    && (forall i | 0 <= i < |w.rows| :: w.rows[i] == [] || Weight(w.rows[i]) == 1.0)
  }

  // ------------------------------------------------------- the step's meaning

  /** The mass of the first `i` nodes that sits on nodes without edges. */
  ghost function Dangling(w: Walk, x: seq<real>, i: nat): real
    requires i <= |x| == |w.rows|
  {
    if i == 0 then 0.0 else Dangling(w, x, i - 1) + (if w.rows[i - 1] == [] then x[i - 1] else 0.0)
  }

  /** What the first `i` nodes send to node `j`. */
  ghost function Inflow(w: Walk, x: seq<real>, i: nat, j: nat): real
    requires i <= |x| == |w.rows|
  {
    if i == 0 then 0.0 else Inflow(w, x, i - 1, j) + Times(x[i - 1], WeightTo(w.rows[i - 1], j))
  }

  /** What the seed gets beside its inflow: the damped dangling mass and the teleport. */
  ghost function Teleport(w: Walk, x: seq<real>, j: nat): real
    requires |x| == |w.rows|
  {
    if j == w.seed then Times(w.damping, Dangling(w, x, |x|)) + (1.0 - w.damping) else 0.0
  }

  /** One power iteration, node by node. */
  ghost function Step(w: Walk, x: seq<real>): (y: seq<real>)
    requires |x| == |w.rows|
    ensures |y| == |x|
  {
    seq(|x|, j requires 0 <= j < |x| => Times(w.damping, Inflow(w, x, |x|, j)) + Teleport(w, x, j))
  }

  ghost function Uniform(n: nat): (x: seq<real>)
    requires n > 0
    ensures |x| == n
  {
    seq(n, _ => 1.0 / n as real)
  }

  ghost function Iterate(w: Walk, t: nat): (x: seq<real>)
    requires |w.rows| > 0
    ensures |x| == |w.rows|
  {
    if t == 0 then Uniform(|w.rows|) else Step(w, Iterate(w, t - 1))
  }

  /** The stopping test after iteration index `t`. */
  ghost predicate Stops(w: Walk, tolerance: real, t: nat)
    requires |w.rows| > 0
  {
    Dist(Iterate(w, t + 1), Iterate(w, t)) < |w.rows| as real * tolerance
  }

  /** `t` iterations ran: none before the last met the stopping test, and the last
      did unless the cap ended the loop. */
  ghost predicate RunsFor(w: Walk, maxIterations: int, tolerance: real, t: nat)
    requires |w.rows| > 0
  {
    && (forall s: nat | s + 1 < t :: !Stops(w, tolerance, s))
    && (if t == 0 then maxIterations <= 0
        else t <= maxIterations && (Stops(w, tolerance, t - 1) || t == maxIterations))
  }

  // ------------------------------------------------------ the scattering form

  /** Adds `v` times a row's weights to their targets. */
  ghost function Spread(acc: seq<real>, row: seq<Edge>, v: real): (r: seq<real>)
    requires forall k | 0 <= k < |row| :: row[k].target < |acc|
    ensures |r| == |acc|
  {
    if row == [] then acc
    else
      var last := row[|row| - 1];
      var a := Spread(acc, row[..|row| - 1], v);
      a[last.target := a[last.target] + Times(v, last.weight)]
  }

  /** The vector under construction once the first `i` nodes were handled. */
  ghost function Scatter(w: Walk, x: seq<real>, i: nat): (r: seq<real>)
    requires WellFormed(w) && i <= |x| == |w.rows|
    ensures |r| == |x|
  {
    if i == 0 then seq(|x|, _ => 0.0)
    else
      var a := Spread(Scatter(w, x, i - 1), w.rows[i - 1], Times(w.damping, x[i - 1]));
      if i - 1 == w.seed then a[i - 1 := a[i - 1] + Teleport(w, x, i - 1)] else a
  }

  lemma {:induction false} SpreadAt(acc: seq<real>, row: seq<Edge>, v: real, j: nat)
    requires forall k | 0 <= k < |row| :: row[k].target < |acc|
    requires j < |acc|
    ensures Spread(acc, row, v)[j] == acc[j] + Times(v, WeightTo(row, j))
  {
    hide Times;
    if row == [] {
      TimesZero(v, WeightTo(row, j));
    } else {
      var rest, last := row[..|row| - 1], row[|row| - 1];
      SpreadAt(acc, rest, v, j);
      if last.target == j {
        TimesDistributes(v, WeightTo(row, j), WeightTo(rest, j), last.weight);
      }
    }
  }

  lemma {:induction false} ScatterAt(w: Walk, x: seq<real>, i: nat, j: nat)
    requires WellFormed(w) && i <= |x| == |w.rows| && j < |x|
    ensures Scatter(w, x, i)[j] == Times(w.damping, Inflow(w, x, i, j)) + (if j < i then Teleport(w, x, j) else 0.0)
  {
    hide Times;
    if i == 0 {
      TimesZero(w.damping, Inflow(w, x, i, j));
    } else {
      ScatterAt(w, x, i - 1, j);
      SpreadAt(Scatter(w, x, i - 1), w.rows[i - 1], Times(w.damping, x[i - 1]), j);
      var sent := WeightTo(w.rows[i - 1], j);
      TimesDistributes(w.damping, Inflow(w, x, i, j), Inflow(w, x, i - 1, j), Times(x[i - 1], sent));
      TimesAssociates(w.damping, x[i - 1], sent);
    }
  }

  lemma ScatterIsStep(w: Walk, x: seq<real>)
    requires WellFormed(w) && |x| == |w.rows|
    ensures Scatter(w, x, |x|) == Step(w, x)
  {
    hide Times, Teleport, Inflow, Scatter;
    forall j | 0 <= j < |x| ensures Scatter(w, x, |x|)[j] == Step(w, x)[j] {
      ScatterAt(w, x, |x|, j);
    }
  }

  // --------------------------------------------------------- what a step keeps

  lemma {:induction false} SpreadMass(acc: seq<real>, row: seq<Edge>, v: real)
    requires forall k | 0 <= k < |row| :: row[k].target < |acc|
    ensures Sum(Spread(acc, row, v)) == Sum(acc) + Times(v, Weight(row))
  {
    hide Times, Sum;
    if row == [] {
      TimesZero(v, Weight(row));
    } else {
      var rest, last := row[..|row| - 1], row[|row| - 1];
      SpreadMass(acc, rest, v);
      var a := Spread(acc, rest, v);
      SumOfUpdate(a, last.target, a[last.target] + Times(v, last.weight));
      TimesDistributes(v, Weight(row), Weight(rest), last.weight);
    }
  }

  lemma SumOfPrefix(x: seq<real>, i: nat)
    requires 0 < i <= |x|
    ensures Sum(x[..i]) == Sum(x[..i - 1]) + x[i - 1]
  {
    assert x[..i][..i - 1] == x[..i - 1];
  }

  lemma {:induction false} ScatterMass(w: Walk, x: seq<real>, i: nat)
    requires Stochastic(w) && i <= |x| == |w.rows|
    ensures Sum(Scatter(w, x, i)) ==
            Times(w.damping, Sum(x[..i]) - Dangling(w, x, i)) + (if w.seed < i then Teleport(w, x, w.seed) else 0.0)
  {
    hide Times, Sum, Teleport, Spread, Weight;
    if i == 0 {
      SumOfConstant(|x|, 0.0);
      TimesZero(|x| as real, 0.0);
      assert Sum(x[..0]) == 0.0 by { SumOfNothing(x[..0]); }
      TimesZero(w.damping, Sum(x[..i]) - Dangling(w, x, i));
    } else {
      ScatterMass(w, x, i - 1);
      var before, row := Scatter(w, x, i - 1), w.rows[i - 1];
      var a := Spread(before, row, Times(w.damping, x[i - 1]));
      SpreadMass(before, row, Times(w.damping, x[i - 1]));
      SumOfPrefix(x, i);
      RowMass(w.damping, x[i - 1], row, Sum(x[..i - 1]) - Dangling(w, x, i - 1), Sum(x[..i]) - Dangling(w, x, i));
      if i - 1 == w.seed {
        SumOfUpdate(a, i - 1, a[i - 1] + Teleport(w, x, i - 1));
      }
    }
  }

  lemma SumOfNothing(x: seq<real>)
    requires x == []
    ensures Sum(x) == 0.0
  {
  }

  /** A row passes its node's mass on, unless it is empty. */
  lemma RowMass(d: real, v: real, row: seq<Edge>, before: real, after: real)
    requires row == [] || Weight(row) == 1.0
    requires after == before + (if row == [] then 0.0 else v)
    ensures Times(d, before) + Times(Times(d, v), Weight(row)) == Times(d, after)
  {
    hide Times;
    if row == [] {
      TimesZero(Times(d, v), Weight(row));
    } else {
      TimesOne(Times(d, v), Weight(row));
      TimesDistributes(d, after, before, v);
    }
  }

  /** A step keeps a total mass of one, dangling mass included. */
  lemma StepKeepsMass(w: Walk, x: seq<real>)
    requires Stochastic(w) && |x| == |w.rows| && Sum(x) == 1.0
    ensures Sum(Step(w, x)) == 1.0
  {
    hide Times, Sum, Dangling, Scatter, Step;
    ScatterIsStep(w, x);
    ScatterMass(w, x, |x|);
    assert x[..|x|] == x;
    TimesDistributes(w.damping, Sum(x), Sum(x) - Dangling(w, x, |x|), Dangling(w, x, |x|));
    TimesOne(w.damping, Sum(x));
  }

  lemma {:induction false} SpreadIsNonNegative(acc: seq<real>, row: seq<Edge>, v: real)
    requires forall k | 0 <= k < |row| :: row[k].target < |acc| && row[k].weight >= 0.0
    requires NonNegative(acc) && v >= 0.0
    ensures NonNegative(Spread(acc, row, v))
  {
    hide Times;
    if row != [] {
      SpreadIsNonNegative(acc, row[..|row| - 1], v);
      TimesKeepsSign(v, row[|row| - 1].weight);
    }
  }

  lemma {:induction false} DanglingIsNonNegative(w: Walk, x: seq<real>, i: nat)
    requires i <= |x| == |w.rows| && NonNegative(x)
    ensures Dangling(w, x, i) >= 0.0
  {
    if i > 0 { DanglingIsNonNegative(w, x, i - 1); }
  }

  lemma TeleportIsNonNegative(w: Walk, x: seq<real>, j: nat)
    requires 0.0 <= w.damping <= 1.0 && |x| == |w.rows| && NonNegative(x)
    ensures Teleport(w, x, j) >= 0.0
  {
    hide Times;
    DanglingIsNonNegative(w, x, |x|);
    TimesKeepsSign(w.damping, Dangling(w, x, |x|));
  }

  lemma {:induction false} ScatterIsNonNegative(w: Walk, x: seq<real>, i: nat)
    requires Stochastic(w) && i <= |x| == |w.rows| && NonNegative(x)
    ensures NonNegative(Scatter(w, x, i))
  {
    hide Times, Teleport, Spread;
    if i > 0 {
      ScatterIsNonNegative(w, x, i - 1);
      TimesKeepsSign(w.damping, x[i - 1]);
      SpreadIsNonNegative(Scatter(w, x, i - 1), w.rows[i - 1], Times(w.damping, x[i - 1]));
      TeleportIsNonNegative(w, x, i - 1);
    }
  }

  /** Every iterate is a probability vector. */
  lemma {:induction false} IteratesAreDistributions(w: Walk, t: nat)
    requires Stochastic(w)
    ensures NonNegative(Iterate(w, t)) && Sum(Iterate(w, t)) == 1.0
  {
    hide Step, Sum, Times;
    var n := |w.rows|;
    if t == 0 {
      SumOfConstant(n, 1.0 / n as real);
      assert Times(n as real, 1.0 / n as real) == 1.0 by { Whole(n as real); }
      assert Uniform(n) == seq(n, _ => 1.0 / n as real);
    } else {
      IteratesAreDistributions(w, t - 1);
      StepKeepsMass(w, Iterate(w, t - 1));
      ScatterIsStep(w, Iterate(w, t - 1));
      ScatterIsNonNegative(w, Iterate(w, t - 1), n);
    }
  }

  lemma Whole(n: real)
    requires n > 0.0
    ensures Times(n, 1.0 / n) == 1.0
  {
  }

  // ---------------------------------------------------------------- contraction

  lemma {:induction false} SpreadContracts(a: seq<real>, b: seq<real>, row: seq<Edge>, u: real, v: real)
    requires |a| == |b|
    requires forall k | 0 <= k < |row| :: row[k].target < |a| && row[k].weight >= 0.0
    ensures Dist(Spread(a, row, u), Spread(b, row, v)) <= Dist(a, b) + Times(Abs(u - v), Weight(row))
  {
    hide Times, Dist;
    if row == [] {
      TimesZero(Abs(u - v), Weight(row));
    } else {
      var rest, last := row[..|row| - 1], row[|row| - 1];
      SpreadContracts(a, b, rest, u, v);
      var p, q, t := Spread(a, rest, u), Spread(b, rest, v), last.target;
      DistOfUpdate(p, q, t, p[t] + Times(u, last.weight), q[t] + Times(v, last.weight));
      TimesGap(u, v, last.weight);
      TimesDistributes(Abs(u - v), Weight(row), Weight(rest), last.weight);
    }
  }

  /** The distance of the first `i` entries that sit on dangling nodes. */
  ghost function DanglingDist(w: Walk, x: seq<real>, y: seq<real>, i: nat): real
    requires i <= |x| == |y| == |w.rows|
  {
    if i == 0 then 0.0
    else DanglingDist(w, x, y, i - 1) + (if w.rows[i - 1] == [] then Abs(x[i - 1] - y[i - 1]) else 0.0)
  }

  lemma {:induction false} DanglingGap(w: Walk, x: seq<real>, y: seq<real>, i: nat)
    requires i <= |x| == |y| == |w.rows|
    ensures Abs(Dangling(w, x, i) - Dangling(w, y, i)) <= DanglingDist(w, x, y, i)
  {
    if i > 0 { DanglingGap(w, x, y, i - 1); }
  }

  lemma TeleportGap(w: Walk, x: seq<real>, y: seq<real>)
    requires 0 <= w.seed && w.damping >= 0.0 && |x| == |y| == |w.rows|
    ensures Abs(Teleport(w, x, w.seed) - Teleport(w, y, w.seed)) <= Times(w.damping, DanglingDist(w, x, y, |x|))
  {
    hide Times, Dangling, DanglingDist;
    var u, v := Dangling(w, x, |x|), Dangling(w, y, |x|);
    DanglingGap(w, x, y, |x|);
    TimesGap(u, v, w.damping);
    TimesIsMonotone(w.damping, Abs(u - v), DanglingDist(w, x, y, |x|));
  }

  /** One row's contribution: nothing when it is empty, the damped gap otherwise. */
  lemma RowGap(d: real, u: real, v: real, row: seq<Edge>, before: real, after: real)
    requires 0.0 < d && (row == [] || Weight(row) == 1.0)
    requires after == before + (if row == [] then 0.0 else Abs(u - v))
    ensures Times(d, before) + Times(Abs(Times(d, u) - Times(d, v)), Weight(row)) == Times(d, after)
  {
    hide Times;
    var gap := Abs(Times(d, u) - Times(d, v));
    if row == [] {
      TimesZero(gap, Weight(row));
    } else {
      TimesOne(gap, Weight(row));
      TimesGap(u, v, d);
      TimesDistributes(d, after, before, Abs(u - v));
    }
  }

  lemma DistOfPrefix(x: seq<real>, y: seq<real>, i: nat)
    requires 0 < i <= |x| == |y|
    ensures Dist(x[..i], y[..i]) == Dist(x[..i - 1], y[..i - 1]) + Abs(x[i - 1] - y[i - 1])
  {
    assert x[..i][..i - 1] == x[..i - 1] && y[..i][..i - 1] == y[..i - 1];
  }

  lemma DistOfNothing(x: seq<real>, y: seq<real>)
    requires x == [] == y
    ensures Dist(x, y) == 0.0
  {
  }

  lemma {:induction false} ScatterContracts(w: Walk, x: seq<real>, y: seq<real>, i: nat)
    requires Stochastic(w) && i <= |x| == |y| == |w.rows|
    ensures Dist(Scatter(w, x, i), Scatter(w, y, i)) <=
            Times(w.damping, Dist(x[..i], y[..i]) - DanglingDist(w, x, y, i)) +
            (if w.seed < i then Times(w.damping, DanglingDist(w, x, y, |x|)) else 0.0)
  {
    hide Times, Dist, Teleport, Spread, Weight;
    if i == 0 {
      NoDistanceToItself(Scatter(w, x, 0));
      DistOfNothing(x[..0], y[..0]);
      TimesZero(w.damping, Dist(x[..i], y[..i]) - DanglingDist(w, x, y, i));
    } else {
      ScatterContracts(w, x, y, i - 1);
      var row, u, v := w.rows[i - 1], Times(w.damping, x[i - 1]), Times(w.damping, y[i - 1]);
      var p, q := Spread(Scatter(w, x, i - 1), row, u), Spread(Scatter(w, y, i - 1), row, v);
      SpreadContracts(Scatter(w, x, i - 1), Scatter(w, y, i - 1), row, u, v);
      DistOfPrefix(x, y, i);
      RowGap(w.damping, x[i - 1], y[i - 1], row,
             Dist(x[..i - 1], y[..i - 1]) - DanglingDist(w, x, y, i - 1),
             Dist(x[..i], y[..i]) - DanglingDist(w, x, y, i));
      if i - 1 == w.seed {
        DistOfUpdate(p, q, i - 1, p[i - 1] + Teleport(w, x, i - 1), q[i - 1] + Teleport(w, y, i - 1));
        TeleportGap(w, x, y);
      }
    }
  }

  /** One iteration contracts the L1 distance by the damping. */
  lemma StepContracts(w: Walk, x: seq<real>, y: seq<real>)
    requires Stochastic(w) && |x| == |y| == |w.rows|
    ensures Dist(Step(w, x), Step(w, y)) <= Times(w.damping, Dist(x, y))
  {
    hide Times, Dist, DanglingDist, Scatter, Step;
    ScatterIsStep(w, x);
    ScatterIsStep(w, y);
    ScatterContracts(w, x, y, |x|);
    assert x[..|x|] == x && y[..|x|] == y;
    var all, dangling := Dist(x, y), DanglingDist(w, x, y, |x|);
    TimesDistributes(w.damping, all, all - dangling, dangling);
  }

  // ------------------------------------------------------- when the loop stops

  ghost function Pow(d: real, t: nat): real {
    if t == 0 then 1.0 else Times(d, Pow(d, t - 1))
  }

  lemma {:induction false} PowOfSum(d: real, a: nat, b: nat)
    ensures Pow(d, a + b) == Times(Pow(d, a), Pow(d, b))
  {
    hide Times;
    if a == 0 {
      assert Times(1.0, Pow(d, b)) == Pow(d, b) by { OneTimes(Pow(d, b)); }
    } else {
      PowOfSum(d, a - 1, b);
      TimesAssociates(d, Pow(d, a - 1), Pow(d, b));
    }
  }

  lemma OneTimes(a: real)
    ensures Times(1.0, a) == a
  {
  }

  /** If two powers are bounded, so is the power of their exponents' sum. */
  lemma PowBound(a: nat, b: nat, u: real, v: real, bound: real)
    requires 0.0 <= Pow(DAMPING, a) <= u && 0.0 <= Pow(DAMPING, b) <= v && Times(u, v) <= bound
    ensures 0.0 <= Pow(DAMPING, a + b) <= bound
  {
    hide Pow, Times;
    PowOfSum(DAMPING, a, b);
    TimesKeepsSign(Pow(DAMPING, a), Pow(DAMPING, b));
    TimesIsMonotone(Pow(DAMPING, a), Pow(DAMPING, b), v);
    TimesIsMonotone(v, Pow(DAMPING, a), u);
  }

  lemma DampingPower()
    ensures 0.0 <= Pow(DAMPING, 86) < TOLERANCE
  {
    assert Pow(DAMPING, 1) == DAMPING by { assert Pow(DAMPING, 0) == 1.0; }
    hide Pow;
    PowBound(1, 1, 0.85, 0.85, 0.7225);
    PowBound(2, 2, 0.7225, 0.7225, 0.5221);
    PowBound(4, 4, 0.5221, 0.5221, 0.2726);
    PowBound(8, 8, 0.2726, 0.2726, 0.07432);
    PowBound(16, 16, 0.07432, 0.07432, 0.005524);
    PowBound(32, 32, 0.005524, 0.005524, 0.00003052);
    PowBound(64, 16, 0.00003052, 0.07432, 0.000002269);
    PowBound(80, 4, 0.000002269, 0.5221, 0.000001185);
    PowBound(84, 2, 0.000001185, 0.7225, 0.00000086);
  }

  /** Successive iterates come together at the pace of the damping. */
  lemma {:induction false} GapShrinks(w: Walk, t: nat)
    requires Stochastic(w)
    ensures Dist(Iterate(w, t + 1), Iterate(w, t)) <= Times(Pow(w.damping, t), 2.0)
  {
    hide Times, Dist, Step;
    if t == 0 {
      IteratesAreDistributions(w, 0);
      IteratesAreDistributions(w, 1);
      DistAtMostMasses(Iterate(w, 1), Iterate(w, 0));
      OneTimes(2.0);
    } else {
      GapShrinks(w, t - 1);
      StepContracts(w, Iterate(w, t), Iterate(w, t - 1));
      TimesIsMonotone(w.damping, Dist(Iterate(w, t), Iterate(w, t - 1)), Times(Pow(w.damping, t - 1), 2.0));
      TimesAssociates(w.damping, Pow(w.damping, t - 1), 2.0);
    }
  }

  /** With the defaults and at least two nodes the stopping test holds at iteration
      index 86 if not before: the cap of 100 iterations never ends the loop. */
  lemma CapIsNeverReached(w: Walk, t: nat)
    requires Stochastic(w) && w.damping == DAMPING && |w.rows| >= 2
    requires RunsFor(w, MAX_ITERATIONS, TOLERANCE, t)
    ensures 1 <= t <= 87 && Stops(w, TOLERANCE, t - 1)
  {
    GapShrinks(w, 86);
    DampingPower();
    assert Stops(w, TOLERANCE, 86) by {
      hide Pow, Iterate;
      TwiceTheTolerance(Pow(DAMPING, 86), |w.rows|);
    }
  }

  lemma TwiceTheTolerance(power: real, n: nat)
    requires 0.0 <= power < TOLERANCE && n >= 2
    ensures Times(power, 2.0) < n as real * TOLERANCE
  {
  }

  /** Where the test stopped the loop, the result is near any fixed point. */
  lemma StoppedNearFixedPoint(w: Walk, tolerance: real, t: nat, y: seq<real>)
    requires Stochastic(w) && |y| == |w.rows| && Step(w, y) == y
    requires t >= 1 && Stops(w, tolerance, t - 1)
    ensures Times(1.0 - w.damping, Dist(Iterate(w, t), y)) <= Times(w.damping, |w.rows| as real * tolerance)
  {
    hide Times, Dist, Step;
    var last, x := Iterate(w, t - 1), Iterate(w, t);
    StepContracts(w, last, y);
    Triangle(last, x, y);
    DistIsSymmetric(last, x);
    var bound := |w.rows| as real * tolerance;
    TimesIsMonotone(w.damping, Dist(last, y), bound + Dist(x, y));
    TimesDistributes(w.damping, bound + Dist(x, y), bound, Dist(x, y));
    TimesComplement(w.damping, Dist(x, y));
  }

  lemma TimesComplement(d: real, a: real)
    ensures Times(1.0 - d, a) == a - Times(d, a)
  {
  }

  /** The result with the defaults is within 0.85/0.15 * N * 1e-6 of the fixed point. */
  lemma ResultNearFixedPoint(w: Walk, t: nat, y: seq<real>)
    requires Stochastic(w) && w.damping == DAMPING && |w.rows| >= 2
    requires RunsFor(w, MAX_ITERATIONS, TOLERANCE, t)
    requires |y| == |w.rows| && Step(w, y) == y
    ensures Dist(Iterate(w, t), y) <= 0.85 / 0.15 * |w.rows| as real * 0.000001
  {
    hide Dist, Iterate, Step, Stops;
    CapIsNeverReached(w, t);
    StoppedNearFixedPoint(w, TOLERANCE, t, y);
  }

  /** And near every later iterate, so that more iterations would not lead away from it. */
  lemma {:induction false} LaterIteratesStayNear(w: Walk, tolerance: real, t: nat, m: nat)
    requires Stochastic(w) && t >= 1 && Stops(w, tolerance, t - 1)
    ensures Times(1.0 - w.damping, Dist(Iterate(w, t), Iterate(w, t + m)))
            <= Times(w.damping, |w.rows| as real * tolerance)
  {
    hide Times, Dist, Step;
    var d, bound := w.damping, |w.rows| as real * tolerance;
    var last, x, later := Iterate(w, t - 1), Iterate(w, t), Iterate(w, t + m);
    DistIsNonNegative(x, last);
    if m == 0 {
      NoDistanceToItself(x);
      TimesZero(1.0 - d, 0.0);
      TimesKeepsSign(d, bound);
    } else {
      var before := Iterate(w, t + m - 1);
      LaterIteratesStayNear(w, tolerance, t, m - 1);
      StepContracts(w, last, before);
      Triangle(last, x, before);
      DistIsSymmetric(last, x);
      OneStepFurther(d, bound, Dist(x, before), Dist(last, before), Dist(x, later));
    }
  }

  lemma OneStepFurther(d: real, bound: real, near: real, gap: real, far: real)
    requires 0.0 <= d <= 1.0 && gap <= bound + near && far <= Times(d, gap)
    requires Times(1.0 - d, near) <= Times(d, bound)
    ensures Times(1.0 - d, far) <= Times(d, bound)
  {
    hide Times;
    var y := bound + near;
    TimesIsMonotone(d, gap, y);
    TimesIsMonotone(1.0 - d, far, Times(d, y));
    TimesSwaps(1.0 - d, d, y);
    TimesDistributes(1.0 - d, y, bound, near);
    TimesComplement(d, bound);
    TimesIsMonotone(d, Times(1.0 - d, y), bound);
  }

  lemma TimesSwaps(a: real, b: real, c: real)
    ensures Times(a, Times(b, c)) == Times(b, Times(a, c))
  {
    assert a * (b * c) == b * (a * c);
  }

  /** With the defaults, no later iterate is further from the result than any fixed point
      may be. */
  lemma ResultNearLaterIterates(w: Walk, t: nat, m: nat)
    requires Stochastic(w) && w.damping == DAMPING && |w.rows| >= 2
    requires RunsFor(w, MAX_ITERATIONS, TOLERANCE, t)
    ensures Dist(Iterate(w, t), Iterate(w, t + m)) <= 0.85 / 0.15 * |w.rows| as real * 0.000001
  {
    hide Dist, Iterate, Step, Stops;
    CapIsNeverReached(w, t);
    LaterIteratesStayNear(w, TOLERANCE, t, m);
  }

  /** There is at most one fixed point. */
  lemma FixedPointIsUnique(w: Walk, x: seq<real>, y: seq<real>)
    requires Stochastic(w) && |x| == |y| == |w.rows|
    requires Step(w, x) == x && Step(w, y) == y
    ensures x == y
  {
    hide Dist, Step;
    StepContracts(w, x, y);
    TimesComplement(w.damping, Dist(x, y));
    DistIsNonNegative(x, y);
    if Dist(x, y) > 0.0 { TimesIsPositive(1.0 - w.damping, Dist(x, y)); }
    NoDistance(x, y);
  }

  lemma TimesIsPositive(a: real, b: real)
    requires a > 0.0 && b > 0.0
    ensures Times(a, b) > 0.0
  {
  }

  // -------------------------------------------------------------- the iteration

  /** The dangling sum, walked over the list of dangling positions. */
  method DangleSum(w: Walk, dangling: seq<nat>, xlast: array<real>) returns (sum: real)
    requires xlast.Length == |w.rows| && dangling == DanglingPositions(w, |w.rows|)
    ensures sum == Dangling(w, xlast[..], |w.rows|)
  {
    sum := 0.0;
    DanglingIsPicked(w, xlast[..], |w.rows|);
    for k := 0 to |dangling|
      invariant sum == Picked(xlast[..], dangling[..k])
    {
      assert dangling[..k + 1][..k] == dangling[..k];
      sum := sum + xlast[dangling[k]];
    }
    assert dangling[..|dangling|] == dangling;
  }

  function DanglingPositions(w: Walk, i: nat): (positions: seq<nat>)
    requires i <= |w.rows|
    ensures forall k | 0 <= k < |positions| :: positions[k] < i
  {
    if i == 0 then [] else DanglingPositions(w, i - 1) + (if w.rows[i - 1] == [] then [i - 1] else [])
  }

  ghost function Picked(x: seq<real>, positions: seq<nat>): real
    requires forall k | 0 <= k < |positions| :: positions[k] < |x|
  {
    if positions == [] then 0.0 else Picked(x, positions[..|positions| - 1]) + x[positions[|positions| - 1]]
  }

  lemma {:induction false} DanglingIsPicked(w: Walk, x: seq<real>, i: nat)
    requires i <= |x| == |w.rows|
    ensures Picked(x, DanglingPositions(w, i)) == Dangling(w, x, i)
  {
    if i > 0 {
      DanglingIsPicked(w, x, i - 1);
      var rest, all := DanglingPositions(w, i - 1), DanglingPositions(w, i);
      if w.rows[i - 1] == [] { assert all[..|all| - 1] == rest; } else { assert all == rest; }
    }
  }

  /** Adds a node's damped value to its targets. */
  method SpreadRow(x: array<real>, row: seq<Edge>, damping: real, value: real)
    requires forall k | 0 <= k < |row| :: row[k].target < x.Length
    modifies x
    ensures x[..] == Spread(old(x[..]), row, Times(damping, value))
  {
    for k := 0 to |row|
      invariant x[..] == Spread(old(x[..]), row[..k], Times(damping, value))
    {
      assert row[..k + 1][..k] == row[..k];
      var edge := row[k];
      x[edge.target] := x[edge.target] + damping * value * edge.weight;
      assert damping * value * edge.weight == Times(Times(damping, value), edge.weight);
    }
    assert row[..|row|] == row;
  }

  /** The L1 error between two vectors. */
  method Error(x: array<real>, xlast: array<real>) returns (error: real)
    requires x.Length == xlast.Length
    ensures error == Dist(x[..], xlast[..])
  {
    error := 0.0;
    for i := 0 to x.Length
      invariant error == Dist(x[..i], xlast[..i])
    {
      assert x[..i + 1][..i] == x[..i] && xlast[..i + 1][..i] == xlast[..i];
      error := error + Abs(x[i] - xlast[i]);
    }
    assert x[..x.Length] == x[..] && xlast[..x.Length] == xlast[..];
  }

  /** One pass of the loop: the next vector is the step of the last. */
  method Iteration(w: Walk, dangling: seq<nat>, xlast: array<real>) returns (x: array<real>, error: real)
    requires WellFormed(w) && xlast.Length == |w.rows| && dangling == DanglingPositions(w, |w.rows|)
    ensures fresh(x) && x.Length == |w.rows|
    ensures x[..] == Step(w, xlast[..])
    ensures error == Dist(x[..], xlast[..])
  {
    hide Step, Dangling, Spread, Dist;
    ghost var last := xlast[..];
    var n := xlast.Length;
    x := new real[n](_ => 0.0);
    var dangleSum := DangleSum(w, dangling, xlast);
    dangleSum := w.damping * dangleSum;
    assert dangleSum == Times(w.damping, Dangling(w, last, |last|));
    assert x[..] == Scatter(w, last, 0);
    for i := 0 to n
      invariant xlast[..] == last
      invariant x[..] == Scatter(w, last, i)
    {
      SpreadRow(x, w.rows[i], w.damping, xlast[i]);
      ghost var spread := x[..];
      if i == w.seed {
        x[i] := x[i] + dangleSum;
        x[i] := x[i] + (1.0 - w.damping);
        assert x[i] == spread[i] + Teleport(w, last, i);
        assert x[..] == spread[i := spread[i] + Teleport(w, last, i)];
      }
    }
    ScatterIsStep(w, last);
    error := Error(x, xlast);
  }

  // ------------------------------------------------- from adjacency to a walk

  type Graph = map<string, map<string, real>>

  /** The node's index, or 0 when it is no node: what a Go map lookup gives. */
  function Position(nodes: seq<string>, node: string): (i: nat)
    ensures node in nodes ==> i < |nodes| && nodes[i] == node
    ensures node !in nodes ==> i == 0
  {
    if nodes == [] || node !in nodes then 0
    else if nodes[|nodes| - 1] == node then |nodes| - 1
    else Position(nodes[..|nodes| - 1], node)
  }

  ghost predicate IsRow(edges: map<string, real>, nodes: seq<string>, keys: seq<string>, row: seq<Edge>) {
    && GoOrder.StrictlyAscending(keys)
    && (forall x :: x in keys <==> x in edges)
    && |row| == |keys|
    && forall k | 0 <= k < |row| :: keys[k] in edges && row[k] == Edge(Position(nodes, keys[k]), edges[keys[k]])
  }

  /** The row lists the node's edges by ascending target. */
  ghost predicate HasRow(adjacency: Graph, nodes: seq<string>, node: string, row: seq<Edge>) {
    node in adjacency && exists keys :: IsRow(adjacency[node], nodes, keys, row)
  }

  ghost predicate IsWalk(adjacency: Graph, seed: string, damping: real, nodes: seq<string>, w: Walk) {
    && GoOrder.StrictlyAscending(nodes)
    && (forall x :: x in nodes <==> x in adjacency)
    && |w.rows| == |nodes|
    && w.damping == damping
    && (if seed in adjacency then 0 <= w.seed < |nodes| && nodes[w.seed] == seed else w.seed == -1)
    && forall i | 0 <= i < |nodes| :: HasRow(adjacency, nodes, nodes[i], w.rows[i])
  }

  ghost function Total(edges: map<string, real>): real {
    SumOver(edges, edges.Keys)
  }

  /** Edges lead to nodes, and every row is empty or sums to 1. */
  ghost predicate Normalized(adjacency: Graph) {
    && (forall u, v | u in adjacency && v in adjacency[u] :: v in adjacency)
    && forall u | u in adjacency :: adjacency[u] == map[] || Total(adjacency[u]) == 1.0
  }

  ghost predicate NonNegativeEdges(adjacency: Graph) {
    forall u, v | u in adjacency && v in adjacency[u] :: adjacency[u][v] >= 0.0
  }

  ghost function FirstOf(keys: seq<string>, n: nat): set<string>
    requires n <= |keys|
  {
    set k | 0 <= k < n :: keys[k]
  }

  lemma FirstOfNext(keys: seq<string>, n: nat)
    requires GoOrder.StrictlyAscending(keys) && n < |keys|
    ensures keys[n] in FirstOf(keys, n + 1) && FirstOf(keys, n + 1) - {keys[n]} == FirstOf(keys, n)
  {
    GoOrder.AscendingIsDistinct(keys);
  }

  lemma {:induction false} RowTotalUpTo(edges: map<string, real>, nodes: seq<string>, keys: seq<string>, row: seq<Edge>,
                                        n: nat)
    requires IsRow(edges, nodes, keys, row) && n <= |row|
    ensures FirstOf(keys, n) <= edges.Keys
    ensures Weight(row[..n]) == SumOver(edges, FirstOf(keys, n))
  {
    hide GoOrder.Less, GoOrder.StrictlyAscending, Position;
    if n > 0 {
      RowTotalUpTo(edges, nodes, keys, row, n - 1);
      assert row[..n][..n - 1] == row[..n - 1];
      FirstOfNext(keys, n - 1);
      SumOverTakesOut(edges, FirstOf(keys, n), keys[n - 1]);
    }
  }

  lemma RowTotal(edges: map<string, real>, nodes: seq<string>, keys: seq<string>, row: seq<Edge>)
    requires IsRow(edges, nodes, keys, row)
    ensures Weight(row) == Total(edges)
  {
    hide GoOrder.Less, Position, Weight;
    RowTotalUpTo(edges, nodes, keys, row, |row|);
    assert row[..|row|] == row;
    assert FirstOf(keys, |row|) == edges.Keys;
  }

  lemma RowIsStochastic(adjacency: Graph, nodes: seq<string>, u: string, row: seq<Edge>)
    requires Normalized(adjacency) && NonNegativeEdges(adjacency)
    requires HasRow(adjacency, nodes, u, row) && forall x :: x in nodes <==> x in adjacency
    ensures row == [] || Weight(row) == 1.0
    ensures forall k | 0 <= k < |row| :: row[k].target < |nodes| && row[k].weight >= 0.0
  {
    hide GoOrder.StrictlyAscending, Weight, Total, Position;
    var keys :| IsRow(adjacency[u], nodes, keys, row);
    RowTotal(adjacency[u], nodes, keys, row);
    forall k | 0 <= k < |row| ensures row[k].target < |nodes| && row[k].weight >= 0.0 {
      assert keys[k] in adjacency[u] && keys[k] in adjacency;
    }
    assert row != [] ==> keys[0] in adjacency[u];
  }

  /** A normalized non-negative graph with its seed makes a stochastic walk. */
  lemma GraphIsStochastic(adjacency: Graph, seed: string, damping: real, nodes: seq<string>, w: Walk)
    requires Normalized(adjacency) && NonNegativeEdges(adjacency)
    requires seed in adjacency && 0.0 < damping < 1.0
    requires IsWalk(adjacency, seed, damping, nodes, w)
    ensures Stochastic(w)
  {
    hide HasRow, Normalized, NonNegativeEdges, Weight;
    forall i | 0 <= i < |w.rows|
      ensures w.rows[i] == [] || Weight(w.rows[i]) == 1.0
      ensures forall k | 0 <= k < |w.rows[i]| :: w.rows[i][k].target < |w.rows| && w.rows[i][k].weight >= 0.0
    {
      RowIsStochastic(adjacency, nodes, nodes[i], w.rows[i]);
    }
  }

  method PrepareRow(edges: map<string, real>, nodes: seq<string>) returns (row: seq<Edge>, ghost keys: seq<string>)
    requires nodes != []
    ensures IsRow(edges, nodes, keys, row)
    ensures forall k | 0 <= k < |row| :: row[k].target < |nodes|
  {
    var targets := GoOrder.SortedKeys(edges.Keys);
    assert forall k | 0 <= k < |targets| :: targets[k] in targets;
    row := seq(|targets|, k requires 0 <= k < |targets| => Edge(Position(nodes, targets[k]), edges[targets[k]]));
    keys := targets;
  }

  /** Sorts the nodes and each node's targets. */
  method Prepare(adjacency: Graph, seed: string, damping: real) returns (nodes: seq<string>, w: Walk)
    ensures IsWalk(adjacency, seed, damping, nodes, w)
    ensures nodes != [] ==> WellFormed(w)
  {
    hide IsRow, GoOrder.Less, GoOrder.StrictlyAscending;
    nodes := GoOrder.SortedKeys(adjacency.Keys);
    forall i | 0 <= i < |nodes| ensures nodes[i] in adjacency {
      assert nodes[i] in nodes;
    }
    var rows: seq<seq<Edge>> := [];
    ghost var sorted: seq<seq<string>> := [];
    for i := 0 to |nodes|
      invariant |rows| == |sorted| == i
      invariant forall j | 0 <= j < i :: IsRow(adjacency[nodes[j]], nodes, sorted[j], rows[j])
      invariant forall j, k | 0 <= j < i && 0 <= k < |rows[j]| :: rows[j][k].target < |nodes|
    {
      var row, keys := PrepareRow(adjacency[nodes[i]], nodes);
      rows, sorted := rows + [row], sorted + [keys];
    }
    w := Walk(rows, if seed in adjacency then Position(nodes, seed) else -1, damping);
    PreparedIsWalk(adjacency, seed, damping, nodes, sorted, w);
  }

  lemma PreparedIsWalk(adjacency: Graph, seed: string, damping: real, nodes: seq<string>, sorted: seq<seq<string>>,
                       w: Walk)
    requires GoOrder.StrictlyAscending(nodes) && forall x :: x in nodes <==> x in adjacency
    requires |w.rows| == |sorted| == |nodes| && w.damping == damping
    requires w.seed == if seed in adjacency then Position(nodes, seed) else -1
    requires forall i | 0 <= i < |nodes| ::
               nodes[i] in adjacency && IsRow(adjacency[nodes[i]], nodes, sorted[i], w.rows[i])
    ensures IsWalk(adjacency, seed, damping, nodes, w)
  {
    hide IsRow, GoOrder.StrictlyAscending;
    assert seed in adjacency ==> seed in nodes;
    forall i | 0 <= i < |nodes| ensures HasRow(adjacency, nodes, nodes[i], w.rows[i]) {
      assert IsRow(adjacency[nodes[i]], nodes, sorted[i], w.rows[i]);
    }
  }

  /** The loop: at most `maxIterations` steps from the uniform vector. */
  method Iterations(w: Walk, maxIterations: int, tolerance: real) returns (x: array<real>, t: nat)
    requires WellFormed(w) && |w.rows| > 0
    ensures x.Length == |w.rows| && x[..] == Iterate(w, t)
    ensures RunsFor(w, maxIterations, tolerance, t)
  {
    hide Step;
    var n := |w.rows|;
    var dangling := DanglingPositions(w, n);
    x := new real[n](_ => 1.0 / n as real);
    assert x[..] == Uniform(n);
    t := 0;
    while t < maxIterations
      invariant x.Length == n && x[..] == Iterate(w, t)
      invariant t == 0 || t <= maxIterations
      invariant forall s: nat | s < t :: !Stops(w, tolerance, s)
    {
      var error: real;
      x, error := Iteration(w, dangling, x);
      t := t + 1;
      assert Stops(w, tolerance, t - 1) <==> error < n as real * tolerance;
      if error < n as real * tolerance { break; }
    }
  }

  /** pagerank: each node's score is its entry of the last iterate. */
  method PageRank(adjacency: Graph, seed: string, damping: real, maxIterations: int, tolerance: real)
    returns (result: map<string, real>)
    ensures result.Keys == adjacency.Keys
    ensures adjacency != map[] ==>
              exists nodes, w, t: nat :: Scored(adjacency, seed, damping, maxIterations, tolerance, result, nodes, w, t)
  {
    result := map[];
    hide IsWalk, Iterate, RunsFor;
    var nodes, w := Prepare(adjacency, seed, damping);
    WalkNodes(adjacency, seed, damping, nodes, w);
    if nodes == [] {
      return;
    }
    var x, t := Iterations(w, maxIterations, tolerance);
    result := Scores(nodes, x[..]);
    assert forall i | 0 <= i < |nodes| :: nodes[i] in result && result[nodes[i]] == Iterate(w, t)[i];
    assert Scored(adjacency, seed, damping, maxIterations, tolerance, result, nodes, w, t);
  }

  /** The result holds, node by node, the iterate at which the loop stopped. */
  ghost predicate Scored(adjacency: Graph, seed: string, damping: real, maxIterations: int, tolerance: real,
                         result: map<string, real>, nodes: seq<string>, w: Walk, t: nat)
  {
    && IsWalk(adjacency, seed, damping, nodes, w)
    && |w.rows| == |nodes| > 0 && RunsFor(w, maxIterations, tolerance, t)
    && forall i | 0 <= i < |nodes| :: nodes[i] in result && result[nodes[i]] == Iterate(w, t)[i]
  }

  lemma WalkNodes(adjacency: Graph, seed: string, damping: real, nodes: seq<string>, w: Walk)
    requires IsWalk(adjacency, seed, damping, nodes, w)
    ensures |w.rows| == |nodes|
    ensures (set x | x in nodes) == adjacency.Keys
    ensures nodes == [] <==> adjacency == map[]
    ensures forall i, j | 0 <= i < j < |nodes| :: nodes[i] != nodes[j]
  {
    GoOrder.AscendingIsDistinct(nodes);
    if nodes != [] { assert nodes[0] in nodes; }
    if adjacency != map[] {
      var x :| x in adjacency;
      assert x in nodes;
    }
  }

  method Scores(nodes: seq<string>, x: seq<real>) returns (result: map<string, real>)
    requires |nodes| == |x|
    requires forall i, j | 0 <= i < j < |nodes| :: nodes[i] != nodes[j]
    ensures result.Keys == set y | y in nodes
    ensures forall i | 0 <= i < |nodes| :: nodes[i] in result && result[nodes[i]] == x[i]
  {
    result := map[];
    for i := 0 to |nodes|
      invariant result.Keys == set j | 0 <= j < i :: nodes[j]
      invariant forall j | 0 <= j < i :: nodes[j] in result && result[nodes[j]] == x[j]
    {
      result := result[nodes[i] := x[i]];
    }
  }
}
