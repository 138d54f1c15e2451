/** `computeTrend`: the direction and size of the change from the previous
    period's value to the current one, shown on the dashboard cards. */
module Trend {
  import opened Numbers

  datatype Direction = Up | Down | Same

  /** `pct` is a percentage, always non-negative. */
  datatype Change = Change(dir: Direction, pct: real)

  /** `computeTrend(current, previous)` over already coerced numbers. */
  function ComputeTrend(current: real, previous: real): (t: Change)
    ensures t.pct >= 0.0
    ensures previous == 0.0 ==> t == (if current == 0.0 then Change(Same, 0.0) else Change(Up, 100.0))
    ensures previous != 0.0 ==> t.pct * Abs(previous) == Abs(current - previous) * 100.0
  {
    if previous == 0.0 then
      if current == 0.0 then Change(Same, 0.0) else Change(Up, 100.0)
    else
      var pct := (current - previous) / previous * 100.0;
      assert Abs(pct) * Abs(previous) == Abs(current - previous) * 100.0 by {
        assert pct * previous == (current - previous) * 100.0;
      }
      Change(if pct > 0.0 then Up else if pct < 0.0 then Down else Same, Abs(pct))
  }

  /** For a positive previous value the direction is the direction of the
      change, and the percentage is zero exactly when nothing changed. */
  lemma TrendFollowsChange(current: real, previous: real)
    requires previous > 0.0
    ensures ComputeTrend(current, previous).dir == Up <==> current > previous
    ensures ComputeTrend(current, previous).dir == Down <==> current < previous
    ensures ComputeTrend(current, previous).dir == Same <==> current == previous
    ensures ComputeTrend(current, previous).pct == 0.0 <==> current == previous
  {
    var pct := (current - previous) / previous * 100.0;
    assert pct > 0.0 <==> current > previous;
    assert pct < 0.0 <==> current < previous;
  }

  /** For a negative previous value the sign of the ratio is inverted: a rise
      is reported as `down` and a fall as `up`. */
  lemma TrendInvertedBelowZero(current: real, previous: real)
    requires previous < 0.0
    ensures ComputeTrend(current, previous).dir == Up <==> current < previous
    ensures ComputeTrend(current, previous).dir == Down <==> current > previous
  {
    var pct := (current - previous) / previous * 100.0;
    assert pct > 0.0 <==> current < previous;
    assert pct < 0.0 <==> current > previous;
  }

  /** Doubling from a positive value is an upward change of 100 percent. */
  lemma DoublingIsHundredPercent(previous: real)
    requires previous > 0.0
    ensures ComputeTrend(2.0 * previous, previous) == Change(Up, 100.0)
  {
    assert (2.0 * previous - previous) / previous == 1.0;
  }
}
