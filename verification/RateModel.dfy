/** Utilization, the kinked borrow-rate curve and the supplier rate derived from it. */
module RateModel {
  import opened FixedPoint

  /** A reserve's interest-rate strategy and reserve factor. */
  datatype Strategy = Strategy(
    optimal: int,
    baseVariable: int,
    variableSlope1: int,
    variableSlope2: int,
    stableSlope1: int,
    stableSlope2: int,
    reserveFactor: int)
  {
    /** The two divisors of the curve are non-zero. */
    predicate Divisible() { optimal != 0 && optimal != RAY }

    predicate Sound() {
      && 0 < optimal < RAY
      && baseVariable >= 0 && variableSlope1 >= 0 && variableSlope2 >= 0
      && stableSlope1 >= 0 && stableSlope2 >= 0
      && 0 <= reserveFactor <= PERCENTAGE_FACTOR
    }
  }

  datatype Rates = Rates(liquidity: int, stable: int, variable: int)

  /** The quotient is defined: with no liquidity at all there must be no debt. */
  predicate UtilizationDefined(stableDebt: int, variableDebt: int, liquidity: int) {
    (stableDebt == 0 && variableDebt == 0) || liquidity != 0
  }

  function UtilizationRate(stableDebt: int, variableDebt: int, liquidity: int): int
    requires UtilizationDefined(stableDebt, variableDebt, liquidity)
  {
    if stableDebt == 0 && variableDebt == 0 then 0
    else RayDiv(stableDebt + variableDebt, liquidity)
  }

  function OverallBorrowRate(stableDebt: int, variableDebt: int, variableRate: int, averageStableRate: int): int {
    var totalBorrows := stableDebt + variableDebt;
    if totalBorrows == 0 then 0 else
      var weightedVariable := RayMul(WadToRay(variableDebt), variableRate);
      var weightedStable := RayMul(WadToRay(stableDebt), averageStableRate);
      RayDiv(weightedVariable + weightedStable, WadToRay(totalBorrows))
  }

  /** A base rate plus the two slopes of the kinked curve. */
  function Curve(base: int, slope1: int, slope2: int, optimal: int, utilization: int): int
    requires optimal != 0 && optimal != RAY
  {
    if utilization > optimal then
      base + slope1 + RayMul(slope2, RayDiv(utilization - optimal, RAY - optimal))
    else
      base + RayMul(slope1, RayDiv(utilization, optimal))
  }

  function VariableRate(s: Strategy, utilization: int): int
    requires s.Divisible()
  {
    Curve(s.baseVariable, s.variableSlope1, s.variableSlope2, s.optimal, utilization)
  }

  function StableRate(s: Strategy, marketStableRate: int, utilization: int): int
    requires s.Divisible()
  {
    Curve(marketStableRate, s.stableSlope1, s.stableSlope2, s.optimal, utilization)
  }

  function LiquidityRate(s: Strategy, overallRate: int, utilization: int): int {
    PercentMul(RayMul(overallRate, utilization), PERCENTAGE_FACTOR - s.reserveFactor)
  }

  function InterestRates(s: Strategy, marketStableRate: int, utilization: int,
                         stableDebt: int, variableDebt: int, averageStableRate: int): Rates
    requires s.Divisible()
  {
    var variable := VariableRate(s, utilization);
    var overall := OverallBorrowRate(stableDebt, variableDebt, variable, averageStableRate);
    Rates(LiquidityRate(s, overall, utilization), StableRate(s, marketStableRate, utilization), variable)
  }

  /** The rate computation as written: local rates start at the market and base rates and
      are raised in the branch the utilization selects. */
  method CalcExpectedInterestRates(s: Strategy, marketStableRate: int, utilization: int,
                                   stableDebt: int, variableDebt: int, averageStableRate: int)
    returns (rates: Rates)
    requires s.Divisible()
    ensures rates == InterestRates(s, marketStableRate, utilization, stableDebt, variableDebt, averageStableRate)
  {
    hide RayMul, RayDiv, PercentMul;
    var stable, variable := marketStableRate, s.baseVariable;
    var excess := RAY - s.optimal;
    if utilization > s.optimal {
      var ratio := RayDiv(utilization - s.optimal, excess);
      stable := stable + s.stableSlope1 + RayMul(s.stableSlope2, ratio);
      variable := variable + s.variableSlope1 + RayMul(s.variableSlope2, ratio);
    } else {
      stable := stable + RayMul(s.stableSlope1, RayDiv(utilization, s.optimal));
      RayMulCommutes(RayDiv(utilization, s.optimal), s.variableSlope1);
      variable := variable + RayMul(RayDiv(utilization, s.optimal), s.variableSlope1);
    }
    var overall := OverallBorrowRate(stableDebt, variableDebt, variable, averageStableRate);
    var liquidity := PercentMul(RayMul(overall, utilization), PERCENTAGE_FACTOR - s.reserveFactor);
    return Rates(liquidity, stable, variable);
  }

  lemma RayMulCommutes(a: int, b: int)
    ensures RayMul(a, b) == RayMul(b, a)
  {
    assert a * b == b * a;
  }

  // ---- The kinked curve ----

  lemma DivideBySelf(a: int)
    requires a > 0
    ensures RayDiv(a, a) == RAY
  {
    QuotientUnique(a / 2 + a * RAY, a, RAY);
  }

  /** The lower arm rises from the base to the kink. */
  lemma LowerArm(base: int, slope1: int, slope2: int, optimal: int, u: int)
    requires slope1 >= 0 && 0 < optimal < RAY && 0 <= u <= optimal
    ensures base <= Curve(base, slope1, slope2, optimal, u) <= base + slope1
  {
    hide RayMul, RayDiv;
    RayMulByOne(slope1);
    DivideBySelf(optimal);
    RayDivMonotone(u, optimal, optimal);
    RayMulMonotone(slope1, RayDiv(u, optimal), slope1, RAY);
  }

  lemma AtKink(base: int, slope1: int, slope2: int, optimal: int)
    requires slope1 >= 0 && 0 < optimal < RAY
    ensures Curve(base, slope1, slope2, optimal, optimal) == base + slope1
  {
    hide RayMul, RayDiv;
    DivideBySelf(optimal);
    RayMulByOne(slope1);
  }

  /** The upper arm starts at the kink and has used its slope at full utilization. */
  lemma UpperArm(base: int, slope1: int, slope2: int, optimal: int, u: int)
    requires slope2 >= 0 && 0 < optimal < RAY && u > optimal
    ensures base + slope1 <= Curve(base, slope1, slope2, optimal, u)
    ensures u <= RAY ==> Curve(base, slope1, slope2, optimal, u) <= base + slope1 + slope2
  {
    hide RayMul, RayDiv;
    RayMulByOne(slope2);
    RayDivNearest(u - optimal, RAY - optimal);
    RayMulNearest(slope2, RayDiv(u - optimal, RAY - optimal));
    if u <= RAY {
      DivideBySelf(RAY - optimal);
      RayDivMonotone(u - optimal, RAY - optimal, RAY - optimal);
      RayMulMonotone(slope2, RayDiv(u - optimal, RAY - optimal), slope2, RAY);
    }
  }

  lemma CurveNonNegative(base: int, slope1: int, slope2: int, optimal: int, u: int)
    requires base >= 0 && slope1 >= 0 && slope2 >= 0 && 0 < optimal < RAY && u >= 0
    ensures Curve(base, slope1, slope2, optimal, u) >= base
  {
    hide Curve;
    if u <= optimal {
      LowerArm(base, slope1, slope2, optimal, u);
    } else {
      UpperArm(base, slope1, slope2, optimal, u);
    }
  }

  lemma CurveMonotone(base: int, slope1: int, slope2: int, optimal: int, u: int, v: int)
    requires slope1 >= 0 && slope2 >= 0 && 0 < optimal < RAY && 0 <= u <= v
    ensures Curve(base, slope1, slope2, optimal, u) <= Curve(base, slope1, slope2, optimal, v)
  {
    hide RayMul, RayDiv;
    if v <= optimal {
      RayDivMonotone(u, v, optimal);
      RayMulMonotone(slope1, RayDiv(u, optimal), slope1, RayDiv(v, optimal));
    } else if u <= optimal {
      LowerArm(base, slope1, slope2, optimal, u);
      UpperArm(base, slope1, slope2, optimal, v);
    } else {
      RayDivMonotone(u - optimal, v - optimal, RAY - optimal);
      RayMulMonotone(slope2, RayDiv(u - optimal, RAY - optimal), slope2, RayDiv(v - optimal, RAY - optimal));
    }
  }

  /** The variable rate never falls as utilization rises, passes through base plus first
      slope at the kink, and stays within the strategy's range up to full utilization. */
  lemma VariableRateCurve(s: Strategy, u: int, v: int)
    requires s.Sound() && 0 <= u <= v
    ensures s.baseVariable <= VariableRate(s, u) <= VariableRate(s, v)
    ensures VariableRate(s, s.optimal) == s.baseVariable + s.variableSlope1
    ensures v <= RAY ==> VariableRate(s, v) <= s.baseVariable + s.variableSlope1 + s.variableSlope2
  {
    hide Curve;
    CurveNonNegative(s.baseVariable, s.variableSlope1, s.variableSlope2, s.optimal, u);
    AtKink(s.baseVariable, s.variableSlope1, s.variableSlope2, s.optimal);
    if v <= s.optimal {
      LowerArm(s.baseVariable, s.variableSlope1, s.variableSlope2, s.optimal, v);
    } else {
      UpperArm(s.baseVariable, s.variableSlope1, s.variableSlope2, s.optimal, v);
    }
    CurveMonotone(s.baseVariable, s.variableSlope1, s.variableSlope2, s.optimal, u, v);
  }

  /** A rise is to its slope as the run is to its length, within half a unit of each rounding. */
  ghost predicate OnLine(rise: int, slope: int, run: int, length: int) {
    && 2 * RAY * (slope * run) - length * (slope + RAY) <= 2 * RAY * (length * rise)
    && 2 * RAY * (length * rise) <= 2 * RAY * (slope * run) + length * (slope + RAY)
  }

  lemma ArmOnLine(slope: int, run: int, length: int)
    requires slope >= 0 && run >= 0 && length > 0
    ensures OnLine(RayMul(slope, RayDiv(run, length)), slope, run, length)
  {
    hide RayMul, RayDiv;
    var share := RayDiv(run, length);
    RayDivNearest(run, length);
    RayMulNearest(slope, share);
    LineAlgebra(slope, run, length, share, RayMul(slope, share));
  }

  lemma LineAlgebra(slope: int, run: int, length: int, share: int, rise: int)
    requires slope >= 0 && length > 0
    requires 2 * RAY * run - length <= 2 * (length * share) <= 2 * RAY * run + length
    requires 2 * (slope * share) - RAY <= 2 * RAY * rise <= 2 * (slope * share) + RAY
    ensures OnLine(rise, slope, run, length)
  {
    var level := length * (slope * share);
    ShareOfRun(slope, run, length, share, level);
    RiseOfShare(slope * share, length, rise, level);
    assert length * (slope + RAY) == slope * length + length * RAY;
  }

  lemma ShareOfRun(slope: int, run: int, length: int, share: int, level: int)
    requires slope >= 0 && level == length * (slope * share)
    requires 2 * RAY * run - length <= 2 * (length * share) <= 2 * RAY * run + length
    ensures 2 * RAY * (slope * run) - slope * length <= 2 * level <= 2 * RAY * (slope * run) + slope * length
  {
    ProductMonotone(2 * RAY * run - length, 2 * (length * share), slope);
    ProductMonotone(2 * (length * share), 2 * RAY * run + length, slope);
    assert slope * (2 * RAY * run - length) == 2 * RAY * (slope * run) - slope * length;
    assert slope * (2 * RAY * run + length) == 2 * RAY * (slope * run) + slope * length;
    assert slope * (2 * (length * share)) == 2 * level;
  }

  lemma RiseOfShare(exact: int, length: int, rise: int, level: int)
    requires length > 0 && level == length * exact
    requires 2 * exact - RAY <= 2 * RAY * rise <= 2 * exact + RAY
    ensures 2 * level - length * RAY <= 2 * RAY * (length * rise) <= 2 * level + length * RAY
  {
    ProductMonotone(2 * exact - RAY, 2 * RAY * rise, length);
    ProductMonotone(2 * RAY * rise, 2 * exact + RAY, length);
    assert length * (2 * RAY * rise) == 2 * RAY * (length * rise);
    assert length * (2 * exact - RAY) == 2 * level - length * RAY;
    assert length * (2 * exact + RAY) == 2 * level + length * RAY;
  }

  /** Straight from the base to the kink, and from there to full utilization. */
  ghost predicate OnCurve(rate: int, base: int, slope1: int, slope2: int, optimal: int, u: int) {
    if u > optimal then OnLine(rate - base - slope1, slope2, u - optimal, RAY - optimal)
    else OnLine(rate - base, slope1, u, optimal)
  }

  /** Both borrow rates follow the kinked curve: the variable rate from the strategy's base, the
      stable rate from the market's. */
  lemma RatesFollowCurves(s: Strategy, market: int, u: int, stableDebt: int, variableDebt: int, average: int)
    requires s.Sound() && u >= 0
    ensures var r := InterestRates(s, market, u, stableDebt, variableDebt, average);
            && OnCurve(r.variable, s.baseVariable, s.variableSlope1, s.variableSlope2, s.optimal, u)
            && OnCurve(r.stable, market, s.stableSlope1, s.stableSlope2, s.optimal, u)
  {
    hide RayMul, RayDiv, OverallBorrowRate, LiquidityRate, OnLine;
    if u > s.optimal {
      ArmOnLine(s.variableSlope2, u - s.optimal, RAY - s.optimal);
      ArmOnLine(s.stableSlope2, u - s.optimal, RAY - s.optimal);
    } else {
      ArmOnLine(s.variableSlope1, u, s.optimal);
      ArmOnLine(s.stableSlope1, u, s.optimal);
    }
  }

  /** The stable rate never falls as utilization rises and stays within the strategy's range. */
  lemma StableRateCurve(s: Strategy, market: int, u: int, v: int)
    requires s.Sound() && market >= 0 && 0 <= u <= v
    ensures market <= StableRate(s, market, u) <= StableRate(s, market, v)
    ensures StableRate(s, market, s.optimal) == market + s.stableSlope1
    ensures v <= RAY ==> StableRate(s, market, v) <= market + s.stableSlope1 + s.stableSlope2
  {
    hide Curve;
    CurveNonNegative(market, s.stableSlope1, s.stableSlope2, s.optimal, u);
    AtKink(market, s.stableSlope1, s.stableSlope2, s.optimal);
    if v <= s.optimal {
      LowerArm(market, s.stableSlope1, s.stableSlope2, s.optimal, v);
    } else {
      UpperArm(market, s.stableSlope1, s.stableSlope2, s.optimal, v);
    }
    CurveMonotone(market, s.stableSlope1, s.stableSlope2, s.optimal, u, v);
  }

  // ---- The overall borrow rate ----

  lemma WeightedRate(debt: int, rate: int)
    requires debt >= 0 && rate >= 0
    ensures RayMul(WadToRay(debt), rate) >= 0
    ensures 2 * (debt * rate) - WAD <= 2 * WAD * RayMul(WadToRay(debt), rate) <= 2 * (debt * rate) + WAD
  {
    hide RayMul;
    RayMulNearest(WadToRay(debt), rate);
    assert WadToRay(debt) * rate == WAD_RAY_RATIO * (debt * rate);
  }

  /** The overall rate is the debt-weighted mean of the two rates, up to one wad of weight
      and half a unit per unit borrowed. */
  lemma OverallRateIsWeightedMean(stableDebt: int, variableDebt: int, variableRate: int, averageStableRate: int)
    requires stableDebt >= 0 && variableDebt >= 0 && variableRate >= 0 && averageStableRate >= 0
    ensures var overall := OverallBorrowRate(stableDebt, variableDebt, variableRate, averageStableRate);
            var total := stableDebt + variableDebt;
            var weighted := variableDebt * variableRate + stableDebt * averageStableRate;
            && overall >= 0
            && 2 * weighted - 2 * WAD - total <= 2 * (total * overall) <= 2 * weighted + 2 * WAD + total
  {
    hide RayMul, RayDiv;
    var total := stableDebt + variableDebt;
    if total > 0 {
      var w := RayMul(WadToRay(variableDebt), variableRate);
      var x := RayMul(WadToRay(stableDebt), averageStableRate);
      WeightedRate(variableDebt, variableRate);
      WeightedRate(stableDebt, averageStableRate);
      var o := RayDiv(w + x, WadToRay(total));
      RayDivNearest(w + x, WadToRay(total));
      assert WadToRay(total) * o == WAD_RAY_RATIO * (total * o);
    } else {
      assert stableDebt * averageStableRate == 0 && variableDebt * variableRate == 0;
    }
  }

  /** A debt-weighted mean of rates inside a range stays inside it, up to one unit plus one
      wad per unit borrowed. */
  lemma OverallRateWithinRange(stableDebt: int, variableDebt: int, variableRate: int, averageStableRate: int,
                               lowest: int, highest: int)
    requires stableDebt >= 0 && variableDebt >= 0 && stableDebt + variableDebt > 0
    requires 0 <= lowest <= variableRate <= highest && lowest <= averageStableRate <= highest
    ensures var overall := OverallBorrowRate(stableDebt, variableDebt, variableRate, averageStableRate);
            var total := stableDebt + variableDebt;
            total * (lowest - 1) - WAD <= total * overall <= total * (highest + 1) + WAD
  {
    hide OverallBorrowRate;
    OverallRateIsWeightedMean(stableDebt, variableDebt, variableRate, averageStableRate);
    ProductMonotone(variableRate, highest, variableDebt);
    ProductMonotone(averageStableRate, highest, stableDebt);
    ProductMonotone(lowest, variableRate, variableDebt);
    ProductMonotone(lowest, averageStableRate, stableDebt);
    var total := stableDebt + variableDebt;
    assert total * (highest + 1) == variableDebt * highest + stableDebt * highest + total;
    assert total * (lowest - 1) == variableDebt * lowest + stableDebt * lowest - total;
  }

  // ---- Utilization ----

  lemma UtilizationNearest(stableDebt: int, variableDebt: int, liquidity: int)
    requires stableDebt >= 0 && variableDebt >= 0 && liquidity >= 0
    requires UtilizationDefined(stableDebt, variableDebt, liquidity)
    ensures var u := UtilizationRate(stableDebt, variableDebt, liquidity);
            && u >= 0
            && 2 * RAY * (stableDebt + variableDebt) - liquidity
                 <= 2 * (liquidity * u)
                 <= 2 * RAY * (stableDebt + variableDebt) + liquidity
  {
    hide RayDiv;
    if stableDebt != 0 || variableDebt != 0 {
      RayDivNearest(stableDebt + variableDebt, liquidity);
    } else {
      assert liquidity * UtilizationRate(stableDebt, variableDebt, liquidity) == 0;
    }
  }

  /** With the same cash, more debt is more utilization. */
  lemma UtilizationGrowsWithDebt(cash: int, stable1: int, variable1: int, stable2: int, variable2: int)
    requires cash >= 0 && 0 <= stable1 <= stable2 && 0 <= variable1 <= variable2
    ensures UtilizationRate(stable1, variable1, cash + stable1 + variable1)
         <= UtilizationRate(stable2, variable2, cash + stable2 + variable2)
  {
    hide RayDiv;
    var d1, d2 := stable1 + variable1, stable2 + variable2;
    if d1 == 0 {
      UtilizationNearest(stable2, variable2, cash + stable2 + variable2);
    } else {
      ShareGrows(cash, d1, d2);
    }
  }

  lemma ShareGrows(cash: int, d1: int, d2: int)
    requires cash >= 0 && 0 < d1 <= d2
    ensures RayDiv(d1, cash + d1) <= RayDiv(d2, cash + d2)
  {
    var l1, l2 := cash + d1, cash + d2;
    var q1, q2 := RayDiv(d1, l1), RayDiv(d2, l2);
    ShareBounds(d1, l1);
    ShareBounds(d2, l2);
    ShareOrder(cash, d1, d2, l1, l2, q1, q2);
  }

  lemma ShareBounds(d: int, l: int)
    requires d >= 0 && l > 0
    ensures l * RayDiv(d, l) <= l / 2 + d * RAY < l * RayDiv(d, l) + l
  {
    QuotientBounds(l / 2 + d * RAY, l);
  }

  /** The remainder bounds of the two rounded shares order them. */
  lemma ShareOrder(cash: int, d1: int, d2: int, l1: int, l2: int, q1: int, q2: int)
    requires cash >= 0 && 0 < d1 <= d2 && l1 == cash + d1 && l2 == cash + d2
    requires l1 * q1 <= l1 / 2 + d1 * RAY
    requires l2 / 2 + d2 * RAY < l2 * q2 + l2
    ensures q1 <= q2
  {
    DoubledBounds(l1, q1, d1 * RAY);
    DoubledBounds(l2, q2, d2 * RAY);
    DoubledShareOrder(cash, d1, d2, l1, l2, 2 * q1 - 1, 2 * q2 + 1);
  }

  lemma DoubledBounds(l: int, q: int, d: int)
    ensures l * q <= l / 2 + d ==> l * (2 * q - 1) <= 2 * d
    ensures l / 2 + d < l * q + l ==> 2 * d < l * (2 * q + 1)
  {
    var p := l * q;
    assert l * (2 * q - 1) == 2 * p - l && l * (2 * q + 1) == 2 * p + l;
  }

  /** A unit of debt weighs at most two rays, so more debt keeps the first bound. */
  lemma DoubledShareOrder(cash: int, d1: int, d2: int, l1: int, l2: int, k1: int, k2: int)
    requires cash >= 0 && 0 < d1 <= d2 && l1 == cash + d1 && l2 == cash + d2
    requires l1 * k1 <= 2 * RAY * d1 && 2 * RAY * d2 < l2 * k2
    ensures k1 < k2
  {
    ProductMonotone(d1, l1, 2 * RAY);
    CancelFactor(k1, 2 * RAY, l1);
    ProductMonotone(k1, 2 * RAY, d2 - d1);
    assert l2 == l1 + (d2 - d1);
    assert l2 * k1 == l1 * k1 + (d2 - d1) * k1;
    if k2 <= k1 {
      ProductMonotone(k2, k1, l2);
    }
  }

  // ---- The supplier rate ----

  lemma LiquidityRateBounds(s: Strategy, overall: int, utilization: int)
    requires s.Sound() && overall >= 0 && utilization >= 0
    ensures 0 <= LiquidityRate(s, overall, utilization) <= RayMul(overall, utilization)
    ensures utilization == 0 ==> LiquidityRate(s, overall, utilization) == 0
  {
    RayMulNearest(overall, utilization);
    var x, share := RayMul(overall, utilization), PERCENTAGE_FACTOR - s.reserveFactor;
    HalfUpMulNearest(x, share, PERCENTAGE_FACTOR);
    ProductMonotone(share, PERCENTAGE_FACTOR, x);
    assert 2 * x * share == 2 * (x * share);
    if utilization == 0 {
      assert overall * utilization == 0;
    }
  }

  /** All rates of a sound strategy are non-negative, and idle reserves pay nothing. */
  lemma RatesNonNegative(s: Strategy, market: int, u: int, stableDebt: int, variableDebt: int, average: int)
    requires s.Sound() && market >= 0 && u >= 0 && stableDebt >= 0 && variableDebt >= 0 && average >= 0
    ensures var r := InterestRates(s, market, u, stableDebt, variableDebt, average);
            && r.liquidity >= 0 && r.stable >= 0 && r.variable >= 0
            && (u == 0 ==> r.liquidity == 0)
  {
    hide Curve, OverallBorrowRate, LiquidityRate;
    CurveNonNegative(s.baseVariable, s.variableSlope1, s.variableSlope2, s.optimal, u);
    CurveNonNegative(market, s.stableSlope1, s.stableSlope2, s.optimal, u);
    var variable := VariableRate(s, u);
    OverallRateIsWeightedMean(stableDebt, variableDebt, variable, average);
    LiquidityRateBounds(s, OverallBorrowRate(stableDebt, variableDebt, variable, average), u);
  }

  /** What suppliers are promised per unit of time, over the stated total liquidity, against
      what borrowers pay; both sides doubled and in rays to stay integral. The stated total
      may be any, as a deposit from a stale read states less than the parts. */
  lemma SuppliersNeverPromisedMore(s: Strategy, market: int, liquidity: int, stableDebt: int, variableDebt: int, average: int)
    requires s.Sound() && market >= 0 && average >= 0
    requires liquidity > 0 && stableDebt >= 0 && variableDebt >= 0
    ensures var u := UtilizationRate(stableDebt, variableDebt, liquidity);
            var r := InterestRates(s, market, u, stableDebt, variableDebt, average);
            var overall := OverallBorrowRate(stableDebt, variableDebt, r.variable, average);
            2 * RAY * (liquidity * r.liquidity)
              <= 2 * RAY * (variableDebt * r.variable + stableDebt * average)
               + RAY * (2 * WAD + (stableDebt + variableDebt) + liquidity)
               + liquidity * overall
  {
    hide Curve, OverallBorrowRate, LiquidityRate, UtilizationRate, RayMul;
    var total := stableDebt + variableDebt;
    var u := UtilizationRate(stableDebt, variableDebt, liquidity);
    UtilizationNearest(stableDebt, variableDebt, liquidity);
    var r := InterestRates(s, market, u, stableDebt, variableDebt, average);
    RatesNonNegative(s, market, u, stableDebt, variableDebt, average);
    var overall := OverallBorrowRate(stableDebt, variableDebt, r.variable, average);
    OverallRateIsWeightedMean(stableDebt, variableDebt, r.variable, average);
    LiquidityRateBounds(s, overall, u);
    RayMulNearest(overall, u);
    PromiseAlgebra(liquidity, total, u, overall, r.liquidity, RayMul(overall, u));
  }

  /** What borrowers pay less the rounding of the overall rate and the utilization, doubled
      and in rays. */
  function PaidNetOfRounding(paid: int, total: int, liquidity: int, overall: int): int {
    2 * RAY * paid - RAY * (2 * WAD + total + liquidity) - liquidity * overall
  }

  /** Nor are they promised much less: what is left after the reserve factor reaches them, up
      to rounding. */
  lemma SuppliersGetTheirShare(s: Strategy, market: int, liquidity: int, stableDebt: int, variableDebt: int, average: int)
    requires s.Sound() && market >= 0 && average >= 0
    requires liquidity > 0 && stableDebt >= 0 && variableDebt >= 0
    ensures var u := UtilizationRate(stableDebt, variableDebt, liquidity);
            var r := InterestRates(s, market, u, stableDebt, variableDebt, average);
            var overall := OverallBorrowRate(stableDebt, variableDebt, r.variable, average);
            var paid := variableDebt * r.variable + stableDebt * average;
            (PERCENTAGE_FACTOR - s.reserveFactor)
              * PaidNetOfRounding(paid, stableDebt + variableDebt, liquidity, overall)
              <= 2 * PERCENTAGE_FACTOR * RAY * (liquidity * r.liquidity) + PERCENTAGE_FACTOR * RAY * liquidity
  {
    hide Curve, OverallBorrowRate, UtilizationRate, LiquidityRate, PaidNetOfRounding;
    var total := stableDebt + variableDebt;
    var u := UtilizationRate(stableDebt, variableDebt, liquidity);
    UtilizationNearest(stableDebt, variableDebt, liquidity);
    var r := InterestRates(s, market, u, stableDebt, variableDebt, average);
    RatesNonNegative(s, market, u, stableDebt, variableDebt, average);
    var overall := OverallBorrowRate(stableDebt, variableDebt, r.variable, average);
    OverallRateIsWeightedMean(stableDebt, variableDebt, r.variable, average);
    var paid := variableDebt * r.variable + stableDebt * average;
    ShareReaches(s, liquidity, total, u, overall, paid);
  }

  lemma ShareReaches(s: Strategy, liquidity: int, total: int, u: int, overall: int, paid: int)
    requires s.Sound() && liquidity > 0 && overall >= 0 && u >= 0
    requires 2 * paid - 2 * WAD - total <= 2 * (total * overall)
    requires 2 * RAY * total - liquidity <= 2 * (liquidity * u)
    ensures (PERCENTAGE_FACTOR - s.reserveFactor) * PaidNetOfRounding(paid, total, liquidity, overall)
         <= 2 * PERCENTAGE_FACTOR * RAY * (liquidity * LiquidityRate(s, overall, u)) + PERCENTAGE_FACTOR * RAY * liquidity
  {
    hide RayMul, HalfUpMul;
    RayMulNearest(overall, u);
    var gross, share := RayMul(overall, u), PERCENTAGE_FACTOR - s.reserveFactor;
    HalfUpMulNearest(gross, share, PERCENTAGE_FACTOR);
    ShareOfUtilization(liquidity, total, u, overall, gross);
    var net := PaidNetOfRounding(paid, total, liquidity, overall);
    assert net <= 2 * RAY * (liquidity * gross) by {
      assert liquidity * overall == overall * liquidity;
    }
    ShareAlgebra(liquidity, share, LiquidityRate(s, overall, u), gross, net);
  }

  /** The gross supplier rate over the liquidity carries the overall rate over the debt. */
  lemma ShareOfUtilization(liquidity: int, total: int, u: int, overall: int, gross: int)
    requires liquidity > 0 && overall >= 0
    requires 2 * (overall * u) - RAY <= 2 * RAY * gross
    requires 2 * RAY * total - liquidity <= 2 * (liquidity * u)
    ensures 2 * RAY * (total * overall) - overall * liquidity - RAY * liquidity <= 2 * RAY * (liquidity * gross)
  {
    ProductMonotone(2 * (overall * u) - RAY, 2 * RAY * gross, liquidity);
    assert liquidity * (2 * RAY * gross) == 2 * RAY * (liquidity * gross);
    assert liquidity * (2 * (overall * u) - RAY) == 2 * (overall * (liquidity * u)) - RAY * liquidity;
    ProductMonotone(2 * RAY * total - liquidity, 2 * (liquidity * u), overall);
    assert overall * (2 * (liquidity * u)) == 2 * (overall * (liquidity * u));
    assert overall * (2 * RAY * total - liquidity) == 2 * RAY * (total * overall) - overall * liquidity;
  }

  lemma ShareAlgebra(liquidity: int, share: int, rate: int, gross: int, floor: int)
    requires liquidity > 0 && share >= 0
    requires 2 * gross * share - PERCENTAGE_FACTOR <= 2 * PERCENTAGE_FACTOR * rate
    requires floor <= 2 * RAY * (liquidity * gross)
    ensures share * floor <= 2 * PERCENTAGE_FACTOR * RAY * (liquidity * rate) + PERCENTAGE_FACTOR * RAY * liquidity
  {
    ProductMonotone(floor, 2 * RAY * (liquidity * gross), share);
    assert share * (2 * RAY * (liquidity * gross)) == RAY * (liquidity * (2 * gross * share));
    ProductMonotone(2 * gross * share - PERCENTAGE_FACTOR, 2 * PERCENTAGE_FACTOR * rate, liquidity);
    assert liquidity * (2 * PERCENTAGE_FACTOR * rate) == 2 * PERCENTAGE_FACTOR * (liquidity * rate);
    assert liquidity * (2 * gross * share - PERCENTAGE_FACTOR)
        == liquidity * (2 * gross * share) - PERCENTAGE_FACTOR * liquidity;
  }

  /** What borrowers pay with the same rounding added. */
  function PaidWithRounding(paid: int, total: int, liquidity: int, overall: int): int {
    2 * RAY * paid + RAY * (2 * WAD + total + liquidity) + liquidity * overall
  }

  /** The reserve factor's part is kept from them: they are promised at most the rest of what
      borrowers pay, up to rounding. */
  lemma SuppliersGetAtMostTheirShare(s: Strategy, market: int, liquidity: int, stableDebt: int, variableDebt: int, average: int)
    requires s.Sound() && market >= 0 && average >= 0
    requires liquidity > 0 && stableDebt >= 0 && variableDebt >= 0
    ensures var u := UtilizationRate(stableDebt, variableDebt, liquidity);
            var r := InterestRates(s, market, u, stableDebt, variableDebt, average);
            var overall := OverallBorrowRate(stableDebt, variableDebt, r.variable, average);
            var paid := variableDebt * r.variable + stableDebt * average;
            2 * PERCENTAGE_FACTOR * RAY * (liquidity * r.liquidity)
              <= (PERCENTAGE_FACTOR - s.reserveFactor)
                   * PaidWithRounding(paid, stableDebt + variableDebt, liquidity, overall)
               + PERCENTAGE_FACTOR * RAY * liquidity
  {
    hide Curve, OverallBorrowRate, UtilizationRate, LiquidityRate, PaidWithRounding;
    var total := stableDebt + variableDebt;
    var u := UtilizationRate(stableDebt, variableDebt, liquidity);
    UtilizationNearest(stableDebt, variableDebt, liquidity);
    var r := InterestRates(s, market, u, stableDebt, variableDebt, average);
    RatesNonNegative(s, market, u, stableDebt, variableDebt, average);
    var overall := OverallBorrowRate(stableDebt, variableDebt, r.variable, average);
    OverallRateIsWeightedMean(stableDebt, variableDebt, r.variable, average);
    ShareIsKept(s, liquidity, total, u, overall, variableDebt * r.variable + stableDebt * average);
  }

  lemma ShareIsKept(s: Strategy, liquidity: int, total: int, u: int, overall: int, paid: int)
    requires s.Sound() && liquidity > 0 && overall >= 0 && u >= 0
    requires 2 * (total * overall) <= 2 * paid + 2 * WAD + total
    requires 2 * (liquidity * u) <= 2 * RAY * total + liquidity
    ensures 2 * PERCENTAGE_FACTOR * RAY * (liquidity * LiquidityRate(s, overall, u))
         <= (PERCENTAGE_FACTOR - s.reserveFactor) * PaidWithRounding(paid, total, liquidity, overall)
          + PERCENTAGE_FACTOR * RAY * liquidity
  {
    hide RayMul, HalfUpMul;
    RayMulNearest(overall, u);
    var gross, share := RayMul(overall, u), PERCENTAGE_FACTOR - s.reserveFactor;
    HalfUpMulNearest(gross, share, PERCENTAGE_FACTOR);
    PromiseAlgebra(liquidity, total, u, overall, gross, gross);
    assert liquidity * overall == overall * liquidity;
    KeptAlgebra(liquidity, share, LiquidityRate(s, overall, u), gross, PaidWithRounding(paid, total, liquidity, overall));
  }

  lemma KeptAlgebra(liquidity: int, share: int, rate: int, gross: int, ceiling: int)
    requires liquidity > 0 && share >= 0
    requires 2 * PERCENTAGE_FACTOR * rate <= 2 * gross * share + PERCENTAGE_FACTOR
    requires 2 * RAY * (liquidity * gross) <= ceiling
    ensures 2 * PERCENTAGE_FACTOR * RAY * (liquidity * rate) <= share * ceiling + PERCENTAGE_FACTOR * RAY * liquidity
  {
    ProductMonotone(2 * RAY * (liquidity * gross), ceiling, share);
    assert share * (2 * RAY * (liquidity * gross)) == RAY * (liquidity * (2 * gross * share));
    ProductMonotone(2 * PERCENTAGE_FACTOR * rate, 2 * gross * share + PERCENTAGE_FACTOR, liquidity);
    assert liquidity * (2 * PERCENTAGE_FACTOR * rate) == 2 * PERCENTAGE_FACTOR * (liquidity * rate);
    assert liquidity * (2 * gross * share + PERCENTAGE_FACTOR)
        == liquidity * (2 * gross * share) + PERCENTAGE_FACTOR * liquidity;
  }

  lemma PromiseAlgebra(liquidity: int, total: int, u: int, overall: int, rate: int, gross: int)
    requires liquidity > 0 && overall >= 0
    requires rate <= gross
    requires 2 * RAY * gross <= 2 * (overall * u) + RAY
    requires 2 * (liquidity * u) <= 2 * RAY * total + liquidity
    ensures 2 * RAY * (liquidity * rate) <= 2 * RAY * (total * overall) + overall * liquidity + RAY * liquidity
  {
    ProductMonotone(rate, gross, liquidity);
    ProductMonotone(2 * RAY * gross, 2 * (overall * u) + RAY, liquidity);
    assert liquidity * (2 * RAY * gross) == 2 * RAY * (liquidity * gross);
    assert liquidity * (2 * (overall * u) + RAY) == 2 * (overall * (liquidity * u)) + RAY * liquidity;
    ProductMonotone(2 * (liquidity * u), 2 * RAY * total + liquidity, overall);
    assert overall * (2 * (liquidity * u)) == 2 * (overall * (liquidity * u));
    assert overall * (2 * RAY * total + liquidity) == 2 * RAY * (total * overall) + overall * liquidity;
  }
}
