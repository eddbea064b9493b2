// The growth-rate step of the series normaliser (App.jsx): a list that
// starts at 0 and, for every later value, gets the percentage change from the
// value before it.

module GrowthRate {

  /**
   * A JavaScript number produced by the growth formula: a finite value, or
   * one of the non-finite results that dividing by zero gives.
   */
  datatype Rate = Finite(percent: real) | PosInfinity | NegInfinity | NaN

  /**
   * `((cur - prev) / prev) * 100` with JavaScript's division: dividing a
   * positive number by zero gives Infinity, a negative one -Infinity, and
   * zero by zero NaN; multiplying those by 100 keeps them as they are.
   */
  function Growth(prev: real, cur: real): (r: Rate)
    ensures r.Finite? <==> prev != 0.0
    ensures r == NaN <==> prev == 0.0 && cur == 0.0
  {
    if prev != 0.0 then Finite((cur - prev) / prev * 100.0)
    else if cur > 0.0 then PosInfinity
    else if cur < 0.0 then NegInfinity
    else NaN
  }

  /** Applies a finite percentage change to a value. */
  function Grow(prev: real, percent: real): real {
    prev + prev * percent / 100.0
  }

  /**
   * The rate is finite exactly when the previous value is not zero, and then
   * growing the previous value by it gives back the current one.
   */
  lemma GrowthInverse(prev: real, cur: real)
    ensures Growth(prev, cur).Finite? <==> prev != 0.0
    ensures prev != 0.0 ==> Grow(prev, Growth(prev, cur).percent) == cur
  {
  }

  /** For a positive previous value the sign of the rate is the direction of the change. */
  lemma GrowthSign(prev: real, cur: real)
    requires prev > 0.0
    ensures Growth(prev, cur).percent > 0.0 <==> cur > prev
    ensures Growth(prev, cur).percent == 0.0 <==> cur == prev
    ensures Growth(prev, cur).percent < 0.0 <==> cur < prev
  {
  }

  /**
   * The growth rates of a list of values, built as the loop builds them:
   * 0 first, then one rate per value after the first.
   */
  function GrowthSeries(values: seq<real>): (rates: seq<Rate>)
    ensures |rates| == if |values| == 0 then 1 else |values|
    ensures rates[0] == Finite(0.0)
    ensures forall i :: 1 <= i < |values| ==> rates[i] == Growth(values[i - 1], values[i])
    decreases |values|
  {
    if |values| <= 1 then [Finite(0.0)]
    else
      var n := |values|;
      GrowthSeries(values[..n - 1]) + [Growth(values[n - 2], values[n - 1])]
  }

  /** The loop of the source: starts from `[0]` and appends one rate per step. */
  method GrowthRates(values: seq<real>) returns (rates: seq<Rate>)
    ensures rates == GrowthSeries(values)
  {
    ghost var n := if |values| == 0 then 1 else |values|;
    rates := [Finite(0.0)];
    var i := 1;
    while i < |values|
      invariant 1 <= i <= n
      invariant |values| == 0 ==> rates == [Finite(0.0)]
      invariant |values| > 0 ==> rates == GrowthSeries(values[..i])
    {
      assert values[..i + 1][..i] == values[..i];
      rates := rates + [Growth(values[i - 1], values[i])];
      i := i + 1;
    }
    assert |values| > 0 ==> values[..i] == values;
  }

  /** Compounds `first` by each finite rate in turn: the values a list of rates describes. */
  function Compound(first: real, rates: seq<Rate>): (values: seq<real>)
    requires forall i :: 0 <= i < |rates| ==> rates[i].Finite?
    ensures |values| == |rates| + 1 && values[0] == first
    decreases rates
  {
    if rates == [] then [first]
    else [first] + Compound(Grow(first, rates[0].percent), rates[1..])
  }

  lemma {:induction false} GrowthSeriesTail(values: seq<real>)
    requires |values| >= 2
    ensures GrowthSeries(values)[1..] == [Growth(values[0], values[1])] + GrowthSeries(values[1..])[1..]
  {
    var lhs, rhs := GrowthSeries(values)[1..], [Growth(values[0], values[1])] + GrowthSeries(values[1..])[1..];
    assert |lhs| == |rhs|;
    forall k | 0 <= k < |lhs| ensures lhs[k] == rhs[k] {
      if k > 0 {
        assert rhs[k] == GrowthSeries(values[1..])[k];
        assert values[1..][k - 1] == values[k] && values[1..][k] == values[k + 1];
      }
    }
  }

  /**
   * Round trip: when no value but the last is zero, compounding the first
   * value by the growth rates gives back every value.
   */
  lemma {:induction false} CompoundRecoversValues(values: seq<real>)
    requires |values| >= 1
    requires forall i :: 0 <= i < |values| - 1 ==> values[i] != 0.0
    ensures forall i :: 1 <= i < |GrowthSeries(values)| ==> GrowthSeries(values)[i].Finite?
    ensures Compound(values[0], GrowthSeries(values)[1..]) == values
  {
    forall i | 1 <= i < |GrowthSeries(values)| ensures GrowthSeries(values)[i].Finite? {
      GrowthInverse(values[i - 1], values[i]);
    }
    if |values| >= 2 {
      var rates := GrowthSeries(values)[1..];
      GrowthSeriesTail(values);
      GrowthInverse(values[0], values[1]);
      CompoundRecoversValues(values[1..]);
      assert rates[0] == Growth(values[0], values[1]);
      assert rates[1..] == GrowthSeries(values[1..])[1..];
      calc {
        Compound(values[0], rates);
        [values[0]] + Compound(Grow(values[0], rates[0].percent), rates[1..]);
        [values[0]] + Compound(values[1], GrowthSeries(values[1..])[1..]);
        [values[0]] + values[1..];
        values;
      }
    }
  }
}
