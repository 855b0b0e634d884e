/** pyRound: Python's round() of a float to an integer. */
module Rounding {
  import opened RealSums

  /** Towards zero, as a Go conversion to an integer. */
  function Truncate(f: real): int { if f >= 0.0 then f.Floor else -((-f).Floor) }

  function PyRound(f: real): int {
    var whole := Truncate(f);
    var rest := Abs(f - whole as real);
    if rest > 0.5 || (rest == 0.5 && whole % 2 != 0) then (if f >= 0.0 then whole + 1 else whole - 1) else whole
  }

  /** The nearest integer, and of two equally near ones the even one. */
  lemma PyRoundIsNearest(f: real, n: int)
    ensures var r := PyRound(f);
            && Abs(f - r as real) <= Abs(f - n as real)
            && (n != r && Abs(f - r as real) == Abs(f - n as real) ==> r % 2 == 0)
  {
    var whole := Truncate(f);
    TruncateIsWithinOne(f);
    var away := if f >= 0.0 then whole + 1 else whole - 1;
    assert PyRound(f) == whole || PyRound(f) == away;
    assert n as real <= whole as real - 1.0 || n == whole || n as real >= whole as real + 1.0;
    assert n == away || n == whole || Abs(f - n as real) >= 1.0;
  }

  lemma TruncateIsWithinOne(f: real)
    ensures f >= 0.0 ==> Truncate(f) as real <= f < Truncate(f) as real + 1.0
    ensures f < 0.0 ==> Truncate(f) as real - 1.0 < f <= Truncate(f) as real
  {
  }
}
