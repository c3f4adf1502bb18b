/** Supplier coverage: what suppliers may claim stays within cash plus debts, up to an
    explicit slack, over every run of reads, deposits, withdrawals, borrows, repayments and
    swaps, in both rate modes.

    Claims and assets are compared in rays: the scaled supply times the liquidity index
    against one ray times cash plus both debts. */
module Coverage {
  import opened FixedPoint
  import opened Accrual
  import opened RateModel
  import opened Reserves
  import opened StableAverage
  import opened Soundness
  import opened Ledger
  import opened Supply

  // ---- Assets, claims and slack ----

  /** Variable debt at the stored borrow index, stable debt at the last update. */
  function VariableValue(r: Reserve): int { RayMul(r.scaledVariableDebt, r.variableBorrowIndex) }

  function StableValue(r: Reserve): int { TotalStableDebtAt(r, r.lastUpdateTimestamp) }

  function Assets(r: Reserve): int { r.availableLiquidity + VariableValue(r) + StableValue(r) }

  ghost predicate Covers(assets: int, claims: int, slack: int) { claims <= RAY * assets + slack }

  /** How far claims may exceed the assets, and what the last pricing may have promised beyond
      what borrowers pay. */
  datatype Bound = Bound(slack: int, cost: int)

  /** The stable debt dates from no later than the last update, and from a real time once it
      bears a rate. */
  ghost predicate StableDated(r: Reserve) {
    && r.totalStableDebtLastUpdated <= r.lastUpdateTimestamp
    && (r.averageStableBorrowRate == 0 || r.totalStableDebtLastUpdated > 0)
  }

  /** What the stated total was short of the assets when the rates were set: a deposit adds its
      amount to the total as read, a variable repayment keeps the stable debt as read. */
  function Staleness(e: Reserve): int { Assets(e) - e.totalLiquidity }

  /** Rounding when the rates were set (twice a wad, the stated debts and total, the overall
      rate's half unit per unit of utilization) and the rate on what the total misses. */
  function PromiseCost(e: Reserve): int {
    2 * WAD + e.totalVariableDebt + e.totalStableDebt + e.totalLiquidity
    + e.totalLiquidity
      * OverallBorrowRate(e.totalStableDebt, e.totalVariableDebt, e.variableBorrowRate, e.averageStableBorrowRate) / RAY + 1
    + 2 * (Staleness(e) * e.liquidityRate)
  }

  /** The supplier rate over the assets is at most the borrow rates over the debts, up to the
      cost of the promise. */
  ghost predicate Promised(r: Reserve, cost: int) {
    2 * (Assets(r) * r.liquidityRate)
      <= 2 * (VariableValue(r) * r.variableBorrowRate + StableValue(r) * r.averageStableBorrowRate) + cost
  }

  /** What a stable debt that has compounded for m seconds falls short of its rate over the
      next n: rounding, and the fourth-order interest that the third-order formula omits. */
  function StableShortfall(principal: int, q: int, m: nat, n: int): int {
    n * q + n * (principal * (m + Choose(m, 2)))
    + 2 * (n * (principal * (Choose(m, 3) * (q * RayMul(RayMul(q, q), q))))) / RAY + 1 + 2 * RAY
  }

  /** What n seconds may cost the suppliers' coverage, after a promise of the given cost. */
  function IntervalCost(r: Reserve, supply: int, cost: int, n: int): int
    requires r.totalStableDebtLastUpdated <= r.lastUpdateTimestamp
  {
    supply + r.scaledVariableDebt + n * (r.variableBorrowRate / ONE_YEAR) + 2 * RAY
    + n * VariableValue(r) + n * StableValue(r) + n * cost / (2 * ONE_YEAR)
    + StableShortfall(r.principalStableDebt, r.averageStableBorrowRate / ONE_YEAR,
                      r.lastUpdateTimestamp - r.totalStableDebtLastUpdated, n)
    + 2
  }

  /** Slack grows like the supplier's balance and takes in the interval's cost. */
  function SlackAfterInterval(r: Reserve, supply: int, n: int, bound: Bound): int
    requires r.totalStableDebtLastUpdated <= r.lastUpdateTimestamp
  {
    bound.slack + bound.slack * (LinearInterest(r.liquidityRate, n) - RAY) / RAY + IntervalCost(r, supply, bound.cost, n)
  }

  // ---- One interval ----

  /** The supplier's gain per ray on the assets is within the debts' interest and rounding. */
  lemma GainWithinInterest(f: int, n: int, assets: int, rate: int, rounding: int,
                           v: int, variableRate: int, w: int, stableRate: int)
    requires f >= 0 && n >= 0 && assets >= 0 && v >= 0 && w >= 0 && rounding >= 0
    requires variableRate >= 0 && stableRate >= 0
    requires ONE_YEAR * f <= rate * n
    requires 2 * (assets * rate) <= 2 * (v * variableRate + w * stableRate) + rounding
    ensures f * assets <= n * (variableRate / ONE_YEAR) * v + n * v + n * (stableRate / ONE_YEAR) * w + n * w
                          + n * rounding / (2 * ONE_YEAR) + 1
  {
    PromisedOverTime(f, n, assets, rate, rounding, v * variableRate + w * stableRate);
    assert n * (v * variableRate + w * stableRate) == n * (v * variableRate) + n * (w * stableRate);
    PerSecond(n, v, variableRate);
    PerSecond(n, w, stableRate);
    ProductNonNegative(n, rounding);
    QuotientBounds(n * rounding, 2 * ONE_YEAR);
  }

  lemma PromisedOverTime(f: int, n: int, assets: int, rate: int, rounding: int, paid: int)
    requires n >= 0 && assets >= 0 && ONE_YEAR * f <= rate * n
    requires 2 * (assets * rate) <= 2 * paid + rounding
    ensures 2 * (ONE_YEAR * (f * assets)) <= 2 * (n * paid) + n * rounding
  {
    ProductMonotone(ONE_YEAR * f, rate * n, assets);
    assert assets * (ONE_YEAR * f) == ONE_YEAR * (f * assets);
    assert assets * (rate * n) == n * (assets * rate);
    ProductMonotone(2 * (assets * rate), 2 * paid + rounding, n);
    assert n * (2 * (assets * rate)) == 2 * (n * (assets * rate));
    assert n * (2 * paid + rounding) == 2 * (n * paid) + n * rounding;
  }

  lemma PerSecond(n: int, debt: int, borrow: int)
    requires n >= 0 && debt >= 0 && borrow >= 0
    ensures n * (debt * borrow) <= ONE_YEAR * (n * (borrow / ONE_YEAR) * debt + n * debt)
  {
    QuotientBounds(borrow, ONE_YEAR);
    var q := borrow / ONE_YEAR;
    ProductMonotone(borrow, ONE_YEAR * (q + 1), debt);
    ProductMonotone(debt * borrow, debt * (ONE_YEAR * (q + 1)), n);
    assert n * (debt * (ONE_YEAR * (q + 1))) == ONE_YEAR * (n * q * debt + n * debt);
  }

  /** A variable debt gains at least its per-second interest, up to rounding. */
  lemma DebtGains(scaled: int, index: int, grown: int, factor: int, n: int, q: int)
    requires scaled >= 0 && index >= 0 && n >= 0 && q >= 0 && factor >= RAY + q * n
    requires grown == RayMul(factor, index)
    ensures 2 * RAY * RayMul(scaled, grown)
         >= 2 * RAY * RayMul(scaled, index) + 2 * (n * q * RayMul(scaled, index)) - n * q - scaled - 2 * RAY
  {
    hide RayMul;
    ProductNonNegative(q, n);
    RayMulNearest(factor, index);
    RayMulNearest(scaled, grown);
    RayMulNearest(scaled, index);
    DebtGainAlgebra(scaled, index, grown, factor, n * q, RayMul(scaled, index), RayMul(scaled, grown));
  }

  lemma DebtGainAlgebra(d: int, b: int, b': int, factor: int, g: int, v: int, v': int)
    requires d >= 0 && b >= 0 && g >= 0 && factor >= RAY + g
    requires 2 * (factor * b) - RAY <= 2 * RAY * b'
    requires 2 * (d * b') - RAY <= 2 * RAY * v'
    requires 2 * RAY * v <= 2 * (d * b) + RAY
    ensures 2 * RAY * v' >= 2 * RAY * v + 2 * (g * v) - g - d - 2 * RAY
  {
    ProductMonotone(RAY + g, factor, b);
    assert b * (RAY + g) == RAY * b + g * b;
    DebtTimes(d, b, b', g);
    InterestTimes(g, d * b, v);
  }

  lemma DebtTimes(d: int, b: int, b': int, g: int)
    requires d >= 0 && 2 * (RAY * b + g * b) - RAY <= 2 * RAY * b'
    ensures 2 * (RAY * (d * b)) + 2 * (g * (d * b)) - RAY * d <= 2 * RAY * (d * b')
  {
    ProductMonotone(2 * (RAY * b + g * b) - RAY, 2 * RAY * b', d);
    assert d * (2 * (RAY * b + g * b) - RAY) == 2 * (RAY * (d * b)) + 2 * (g * (d * b)) - RAY * d;
    assert d * (2 * RAY * b') == 2 * RAY * (d * b');
  }

  lemma InterestTimes(g: int, p: int, v: int)
    requires g >= 0 && 2 * RAY * v <= 2 * p + RAY
    ensures 2 * RAY * (g * v) <= 2 * (g * p) + RAY * g
  {
    ProductMonotone(2 * RAY * v, 2 * p + RAY, g);
    assert g * (2 * RAY * v) == 2 * RAY * (g * v);
    assert g * (2 * p + RAY) == 2 * (g * p) + RAY * g;
  }

  /** Claims grow by the linear factor. */
  lemma ClaimsGrow(supply: int, index: int, grown: int, f: int, assets: int, slack: int)
    requires supply >= 0 && index >= 0 && f >= 0 && slack >= 0
    requires grown <= RayMul(RAY + f, index)
    requires supply * index <= RAY * assets + slack
    ensures supply * grown <= RAY * assets + f * assets + slack + slack * f / RAY + 1 + supply
  {
    hide RayMul;
    RayMulNearest(RAY + f, index);
    ClaimAlgebra(supply, index, grown, f, assets, slack);
  }

  lemma ClaimAlgebra(a: int, i: int, i': int, f: int, assets: int, slack: int)
    requires a >= 0 && f >= 0 && slack >= 0
    requires 2 * RAY * i' <= 2 * ((RAY + f) * i) + RAY
    requires a * i <= RAY * assets + slack
    ensures a * i' <= RAY * assets + f * assets + slack + slack * f / RAY + 1 + a
  {
    ProductMonotone(2 * RAY * i', 2 * ((RAY + f) * i) + RAY, a);
    assert a * (2 * RAY * i') == 2 * RAY * (a * i');
    assert a * (2 * ((RAY + f) * i) + RAY) == 2 * ((RAY + f) * (a * i)) + RAY * a;
    ProductMonotone(a * i, RAY * assets + slack, RAY + f);
    assert (RAY + f) * (RAY * assets + slack)
        == RAY * (RAY * assets + f * assets + slack) + slack * f;
    ProductNonNegative(slack, f);
    QuotientBounds(slack * f, RAY);
  }

  // ---- Stable interest over an interval ----

  lemma {:induction false} ChooseTwoSteps(m: nat, n: nat)
    ensures Choose(m + n, 2) >= Choose(m, 2) + n * m
  {
    if n > 0 {
      hide Choose;
      ChooseTwoSteps(m, n - 1);
      Pascal(m + n);
      assert n * m == (n - 1) * m + m;
    }
  }

  lemma {:induction false} ChooseThreeSteps(m: nat, n: nat)
    ensures Choose(m + n, 3) >= Choose(m, 3) + n * Choose(m, 2)
  {
    hide Choose;
    if n == 0 {
      assert 0 * Choose(m, 2) == 0;
    } else {
      ChooseThreeSteps(m, n - 1);
      Pascal(m + n);
      ChooseMonotone(m, m + n - 1, 2);
      OneMoreTime(n, Choose(m, 2));
    }
  }

  lemma OneMoreTime(n: int, c: int)
    ensures n * c == (n - 1) * c + c
  {
  }

  /** The compounding factor's slope after m seconds. */
  function Slope(q: int, m: nat): int { q + m * RayMul(q, q) + Choose(m, 2) * RayMul(RayMul(q, q), q) }

  /** Over n more seconds the factor gains at least n times its slope. */
  lemma FactorGains(rate: int, m: nat, n: nat)
    requires rate >= 0
    ensures CompoundedInterest(rate, m + n) >= CompoundedInterest(rate, m) + n * Slope(rate / ONE_YEAR, m)
  {
    hide RayMul, CompoundedInterest, Choose;
    var q := rate / ONE_YEAR;
    var two, three := RayMul(q, q), RayMul(RayMul(q, q), q);
    QuotientBounds(rate, ONE_YEAR);
    RayMulNearest(q, q);
    RayMulNearest(two, q);
    CompoundedClosedForm(rate, m);
    CompoundedClosedForm(rate, m + n);
    ChooseTwoSteps(m, n);
    ChooseThreeSteps(m, n);
    FactorAlgebra(q, m, n, two, three, Choose(m, 2), Choose(m + n, 2), Choose(m, 3), Choose(m + n, 3));
  }

  lemma FactorAlgebra(q: int, m: int, n: int, two: int, three: int, a: int, a': int, b: int, b': int)
    requires two >= 0 && three >= 0 && a' >= a + n * m && b' >= b + n * a
    ensures q * (m + n) + a' * two + b' * three >= q * m + a * two + b * three + n * (q + m * two + a * three)
  {
    ProductMonotone(a + n * m, a', two);
    ProductMonotone(b + n * a, b', three);
    assert (a + n * m) * two == a * two + n * (m * two);
    assert (b + n * a) * three == b * three + n * (a * three);
    assert n * (q + m * two + a * three) == n * q + n * (m * two) + n * (a * three);
    assert q * (m + n) == q * m + n * q;
  }

  /** The slope is the per-second rate on the factor, less rounding and the third-order term's
      own interest. */
  lemma SlopeIsRate(rate: int, m: nat)
    requires rate >= 0
    ensures var q := rate / ONE_YEAR;
            2 * RAY * Slope(q, m)
              >= 2 * (q * CompoundedInterest(rate, m)) - 2 * (Choose(m, 3) * (q * RayMul(RayMul(q, q), q)))
               - RAY * (m + Choose(m, 2))
  {
    hide RayMul, CompoundedInterest, Choose;
    var q := rate / ONE_YEAR;
    var two, three := RayMul(q, q), RayMul(RayMul(q, q), q);
    QuotientBounds(rate, ONE_YEAR);
    RayMulNearest(q, q);
    RayMulNearest(two, q);
    CompoundedClosedForm(rate, m);
    SlopeAlgebra(q, m, two, three, Choose(m, 2), Choose(m, 3));
  }

  lemma SlopeAlgebra(q: int, m: int, two: int, three: int, a: int, b: int)
    requires m >= 0 && a >= 0
    requires 2 * (q * q) - RAY <= 2 * RAY * two
    requires 2 * (two * q) - RAY <= 2 * RAY * three
    ensures 2 * RAY * (q + m * two + a * three)
         >= 2 * (q * (RAY + q * m + a * two + b * three)) - 2 * (b * (q * three)) - RAY * (m + a)
  {
    RoundedTimes(m, q * q, two);
    RoundedTimes(a, two * q, three);
    assert m * (q * q) == q * (q * m) && a * (two * q) == q * (a * two);
    assert q * (RAY + q * m + a * two + b * three) == RAY * q + q * (q * m) + q * (a * two) + q * (b * three);
    assert q * (b * three) == b * (q * three);
  }

  lemma RoundedTimes(k: int, exact: int, rounded: int)
    requires k >= 0 && 2 * exact - RAY <= 2 * RAY * rounded
    ensures 2 * (k * exact) - RAY * k <= 2 * RAY * (k * rounded)
  {
    ProductMonotone(2 * exact - RAY, 2 * RAY * rounded, k);
    assert k * (2 * exact - RAY) == 2 * (k * exact) - RAY * k;
    assert k * (2 * RAY * rounded) == 2 * RAY * (k * rounded);
  }

  /** A stable debt gains at least its per-second interest, less its shortfall. */
  lemma StableGains(principal: int, rate: int, m: nat, n: nat)
    requires principal >= 0 && rate >= 0
    ensures var q, debt := rate / ONE_YEAR, RayMul(CompoundedInterest(rate, m), principal);
            2 * RAY * RayMul(CompoundedInterest(rate, m + n), principal)
              >= 2 * RAY * debt + 2 * (n * q * debt) - StableShortfall(principal, q, m, n)
  {
    hide RayMul, CompoundedInterest, Choose, Slope;
    var q := rate / ONE_YEAR;
    QuotientBounds(rate, ONE_YEAR);
    FactorGains(rate, m, n);
    SlopeIsRate(rate, m);
    CompoundedAtLeastOne(rate, m);
    CompoundedAtLeastOne(rate, m + n);
    RayMulNearest(CompoundedInterest(rate, m), principal);
    RayMulNearest(CompoundedInterest(rate, m + n), principal);
    StableGainAlgebra(principal, q, n, CompoundedInterest(rate, m), CompoundedInterest(rate, m + n), Slope(q, m),
                      Choose(m, 3) * (q * RayMul(RayMul(q, q), q)), m + Choose(m, 2),
                      RayMul(CompoundedInterest(rate, m), principal), RayMul(CompoundedInterest(rate, m + n), principal));
  }

  lemma StableGainAlgebra(p: int, q: int, n: int, x: int, x': int, d: int, omitted: int, steps: int, w: int, w': int)
    requires p >= 0 && q >= 0 && n >= 0 && x' >= x + n * d
    requires 2 * RAY * d >= 2 * (q * x) - 2 * omitted - RAY * steps
    requires 2 * RAY * w <= 2 * (x * p) + RAY
    requires 2 * (x' * p) - RAY <= 2 * RAY * w'
    ensures 2 * RAY * w' >= 2 * RAY * w + 2 * (n * q * w)
                            - (n * q + n * (p * steps) + 2 * (n * (p * omitted)) / RAY + 1 + 2 * RAY)
  {
    ProductMonotone(x + n * d, x', p);
    assert p * (x + n * d) == x * p + n * (p * d);
    SlopeTimes(p, q, n, x, d, omitted, steps, w);
    DividedByRay(2 * (n * (p * d)), 2 * (n * q * w) - n * q - n * (p * steps), 2 * (n * (p * omitted)));
  }

  lemma SlopeTimes(p: int, q: int, n: int, x: int, d: int, omitted: int, steps: int, w: int)
    requires p >= 0 && q >= 0 && n >= 0
    requires 2 * RAY * d >= 2 * (q * x) - 2 * omitted - RAY * steps
    requires 2 * RAY * w <= 2 * (x * p) + RAY
    ensures RAY * (2 * (n * (p * d)))
         >= RAY * (2 * (n * q * w) - n * q - n * (p * steps)) - 2 * (n * (p * omitted))
  {
    ProductMonotone(2 * (q * x) - 2 * omitted - RAY * steps, 2 * RAY * d, p);
    assert p * (2 * RAY * d) == 2 * RAY * (p * d);
    assert p * (2 * (q * x) - 2 * omitted - RAY * steps) == 2 * (q * (x * p)) - 2 * (p * omitted) - RAY * (p * steps);
    InterestTimes(q, x * p, w);
    var lower := 2 * RAY * (q * w) - RAY * q - 2 * (p * omitted) - RAY * (p * steps);
    ProductMonotone(lower, 2 * RAY * (p * d), n);
    assert n * (2 * RAY * (p * d)) == RAY * (2 * (n * (p * d)));
    assert n * lower == RAY * (2 * (n * q * w)) - RAY * (n * q) - 2 * (n * (p * omitted)) - RAY * (n * (p * steps));
  }

  lemma DividedByRay(a: int, b: int, c: int)
    requires RAY * a >= RAY * b - c
    ensures a >= b - c / RAY - 1
  {
    assert c == RAY * (c / RAY) + c % RAY;
  }

  // ---- Coverage over an interval ----

  lemma VariableDebtGains(r: Reserve, now: int)
    requires Sound(r, now)
    ensures var n, q := now - r.lastUpdateTimestamp, r.variableBorrowRate / ONE_YEAR;
            2 * RAY * RayMul(r.scaledVariableDebt, VariableIndexAt(r, now))
              >= 2 * RAY * VariableValue(r) + 2 * (n * q * VariableValue(r)) - n * q - r.scaledVariableDebt - 2 * RAY
  {
    hide RayMul, CompoundedInterest;
    var n, q := now - r.lastUpdateTimestamp, r.variableBorrowRate / ONE_YEAR;
    QuotientBounds(r.variableBorrowRate, ONE_YEAR);
    CompoundedAtLeastOne(r.variableBorrowRate, n);
    if r.totalVariableDebt == 0 {
      RayMulByZero(r.variableBorrowIndex);
      ProductNonNegative(n, q);
      assert n * q * VariableValue(r) == 0;
    } else {
      DebtGains(r.scaledVariableDebt, r.variableBorrowIndex, VariableIndexAt(r, now),
                CompoundedInterest(r.variableBorrowRate, n), n, q);
    }
  }

  lemma StableDebtGains(r: Reserve, now: int)
    requires Sound(r, now) && StableDated(r)
    ensures var n, q := now - r.lastUpdateTimestamp, r.averageStableBorrowRate / ONE_YEAR;
            2 * RAY * TotalStableDebtAt(r, now)
              >= 2 * RAY * StableValue(r) + 2 * (n * q * StableValue(r))
               - StableShortfall(r.principalStableDebt, q, r.lastUpdateTimestamp - r.totalStableDebtLastUpdated, n)
  {
    hide RayMul, CompoundedInterest, StableShortfall;
    StableGains(r.principalStableDebt, r.averageStableBorrowRate,
                r.lastUpdateTimestamp - r.totalStableDebtLastUpdated, now - r.lastUpdateTimestamp);
  }

  /** Coverage across one interval at the rates set at its start: after n seconds the claims
      at the linearly grown index are within cash plus the compounded debts, up to the grown
      slack and the interval's cost. */
  lemma IntervalKeepsCoverage(r: Reserve, supply: int, now: int, bound: Bound)
    requires Sound(r, now) && StableDated(r) && supply >= 0 && bound.slack >= 0 && bound.cost >= 0
    requires Promised(r, bound.cost) && Covers(Assets(r), supply * r.liquidityIndex, bound.slack)
    ensures var after := SlackAfterInterval(r, supply, now - r.lastUpdateTimestamp, bound);
            && after >= 0
            && Covers(AccruedValue(r, now), supply * LiquidityIndexAt(r, now), after)
  {
    hide RayMul, CompoundedInterest, LinearInterest, VariableIndexAt, TotalStableDebtAt,
         StableShortfall, VariableValue, StableValue;
    var n := now - r.lastUpdateTimestamp;
    var f := LinearInterest(r.liquidityRate, n) - RAY;
    LinearAtLeastOne(r.liquidityRate, n);
    ValuesNonNegative(r, now);
    GainWithinInterest(f, n, Assets(r), r.liquidityRate, bound.cost,
                       VariableValue(r), r.variableBorrowRate, StableValue(r), r.averageStableBorrowRate);
    LinearGrowth(r.liquidityRate, n, r.liquidityIndex);
    ClaimsGrow(supply, r.liquidityIndex, LiquidityIndexAt(r, now), f, Assets(r), bound.slack);
    VariableDebtGains(r, now);
    StableDebtGains(r, now);
    SlackNonNegative(r, supply, now, bound);
    QuotientBounds(r.variableBorrowRate, ONE_YEAR);
    ProductNonNegative(n, r.variableBorrowRate / ONE_YEAR);
    ShortfallNonNegative(r, now);
  }

  lemma ValuesNonNegative(r: Reserve, now: int)
    requires Balanced(r, now) && StableDated(r)
    ensures VariableValue(r) >= 0 && StableValue(r) >= 0 && Assets(r) >= 0
  {
    hide RayMul, CompoundedInterest;
    RayMulNearest(r.scaledVariableDebt, r.variableBorrowIndex);
    CompoundGrowth(r.averageStableBorrowRate, r.lastUpdateTimestamp - r.totalStableDebtLastUpdated, r.principalStableDebt);
  }

  lemma ShortfallNonNegative(r: Reserve, now: int)
    requires Sound(r, now) && StableDated(r)
    ensures StableShortfall(r.principalStableDebt, r.averageStableBorrowRate / ONE_YEAR,
                            r.lastUpdateTimestamp - r.totalStableDebtLastUpdated, now - r.lastUpdateTimestamp) >= 0
  {
    hide RayMul, Choose;
    var p, q := r.principalStableDebt, r.averageStableBorrowRate / ONE_YEAR;
    var m, n := r.lastUpdateTimestamp - r.totalStableDebtLastUpdated, now - r.lastUpdateTimestamp;
    QuotientBounds(r.averageStableBorrowRate, ONE_YEAR);
    RayMulNearest(q, q);
    RayMulNearest(RayMul(q, q), q);
    ProductNonNegative(n, q);
    ProductNonNegative(p, m + Choose(m, 2));
    ProductNonNegative(n, p * (m + Choose(m, 2)));
    var three := RayMul(RayMul(q, q), q);
    ProductNonNegative(q, three);
    ProductNonNegative(Choose(m, 3), q * three);
    ProductNonNegative(p, Choose(m, 3) * (q * three));
    ProductNonNegative(n, p * (Choose(m, 3) * (q * three)));
  }

  lemma SlackNonNegative(r: Reserve, supply: int, now: int, bound: Bound)
    requires Sound(r, now) && StableDated(r) && supply >= 0 && bound.slack >= 0 && bound.cost >= 0
    ensures SlackAfterInterval(r, supply, now - r.lastUpdateTimestamp, bound) >= 0
  {
    hide LinearInterest, StableShortfall, VariableValue, StableValue;
    var n := now - r.lastUpdateTimestamp;
    ValuesNonNegative(r, now);
    ShortfallNonNegative(r, now);
    LinearAtLeastOne(r.liquidityRate, n);
    QuotientBounds(r.variableBorrowRate, ONE_YEAR);
    ProductNonNegative(n, r.variableBorrowRate / ONE_YEAR);
    ProductNonNegative(n, VariableValue(r));
    ProductNonNegative(n, StableValue(r));
    ProductNonNegative(n, bound.cost);
    QuotientBounds(n * bound.cost, 2 * ONE_YEAR);
    ProductNonNegative(bound.slack, LinearInterest(r.liquidityRate, n) - RAY);
    QuotientBounds(bound.slack * (LinearInterest(r.liquidityRate, n) - RAY), RAY);
  }

  // ---- One action ----

  /** Rounding of the one or two scaled amounts an action moves. */
  function ActionRounding(e: Reserve): int { RAY + e.liquidityIndex + e.variableBorrowIndex }

  /** Neither the stated stable debt nor the stated total is ahead of time. */
  ghost predicate NotAhead(r: Reserve, now: int) {
    r.totalStableDebt <= TotalStableDebtAt(r, now) && r.totalLiquidity <= AccruedValue(r, now)
  }

  /** Balances of an action: variable debt at the stored index, stable debt and total no more
      than they are worth. */
  ghost predicate Stated(e: Reserve, now: int) {
    && e.lastUpdateTimestamp == now
    && e.totalVariableDebt == VariableValue(e)
    && e.totalStableDebt <= StableValue(e)
    && Staleness(e) >= 0
  }

  lemma TakenIsStated(e: Reserve, now: int)
    requires TakenAt(e, now)
    ensures Stated(e, now)
  {
    hide RayMul, CompoundedInterest;
  }

  lemma AssetsWhenStamped(e: Reserve)
    requires e.variableBorrowIndex >= 0
    ensures AccruedValue(e, e.lastUpdateTimestamp) == Assets(e)
  {
    hide RayMul, CompoundedInterest;
    CompoundedAtZero(e.variableBorrowRate);
    RayMulByOne(e.variableBorrowIndex);
  }

  lemma NotAheadLater(r: Reserve, now: int, later: int)
    requires Sound(r, now) && NotAhead(r, now) && now <= later
    ensures NotAhead(r, later)
  {
    hide RayMul, TotalStableDebtAt, NormalizedDebt, VariableIndexAt;
    DebtsGrow(r, now, later);
    ReadAtStoredIndex(r, now);
    ReadAtStoredIndex(r, later);
  }

  /** Freshly priced rates keep the promise to suppliers, whatever the balances were read. */
  lemma PricingPromises(e: Reserve, now: int, s: Strategy)
    requires Balanced(e, now) && s.Sound() && Stated(e, now) && StableDated(e)
    ensures Priced(e) && StableDated(Repriced(e, s)) && NotAhead(Repriced(e, s), now)
    ensures var p := Repriced(e, s); PromiseCost(p) >= 0 && Promised(p, PromiseCost(p))
    ensures Assets(Repriced(e, s)) == Assets(e)
  {
    hide RayMul, UtilizationRate, InterestRates, OverallBorrowRate, CompoundedInterest;
    PricingIsSound(e, now, s);
    var p := Repriced(e, s);
    AssetsWhenStamped(p);
    var v, w, l, stale := e.totalVariableDebt, e.totalStableDebt, e.totalLiquidity, Staleness(e);
    assert VariableValue(p) == v && StableValue(p) == TotalStableDebtAt(e, now) && Staleness(p) == stale;
    ValuesNonNegative(p, now);
    var overall := OverallBorrowRate(w, v, p.variableBorrowRate, e.averageStableBorrowRate);
    OverallRateIsWeightedMean(w, v, p.variableBorrowRate, e.averageStableBorrowRate);
    ProductNonNegative(l, overall);
    ProductNonNegative(stale, p.liquidityRate);
    ProductMonotone(w, StableValue(p), e.averageStableBorrowRate);
    assert (l + stale) * p.liquidityRate == l * p.liquidityRate + stale * p.liquidityRate;
    if l > 0 {
      SuppliersNeverPromisedMore(s, e.marketStableRate, l, w, v, e.averageStableBorrowRate);
      DivideByRay(l * p.liquidityRate, v * p.variableBorrowRate + w * e.averageStableBorrowRate,
                  2 * WAD + v + w + l, l * overall);
    } else {
      assert l * p.liquidityRate == 0;
      ProductNonNegative(v, p.variableBorrowRate);
      ProductNonNegative(w, e.averageStableBorrowRate);
    }
  }

  lemma DivideByRay(promised: int, paid: int, rounding: int, share: int)
    requires 2 * RAY * promised <= 2 * RAY * paid + RAY * rounding + share
    ensures 2 * promised <= 2 * paid + rounding + share / RAY + 1
  {
    assert share == RAY * (share / RAY) + share % RAY;
  }

  /** The reserve side of coverage after an action. */
  ghost predicate StaysCovered(e: Reserve, now: int, supply: int, bound: Bound) {
    && StableDated(e) && NotAhead(e, now)
    && bound.cost >= 0 && Promised(e, bound.cost)
    && Covers(Assets(e), supply * e.liquidityIndex, bound.slack)
  }

  /** The bound after an action of the priced reserve, from the slack before it. */
  function Bounded(e: Reserve, slack: int): Bound { Bound(slack + ActionRounding(e), PromiseCost(e)) }

  lemma DepositCovers(b: Reserve, supply: int, amount: int, now: int, s: Strategy, slack: int)
    requires Sound(b, now) && s.Sound() && amount >= 0 && StableDated(b) && NotAhead(b, now)
    requires Covers(AccruedValue(b, now), supply * LiquidityIndexAt(b, now), slack)
    ensures Priced(DepositBalances(b, amount, now))
    ensures var e := AfterDeposit(b, amount, now, s);
            && e.liquidityIndex > 0
            && StaysCovered(e, now, supply + RayDiv(amount, e.liquidityIndex), Bounded(e, slack))
  {
    hide RayMul, RayDiv, LiquidityIndexAt, VariableIndexAt, TotalStableDebtAt, UtilizationRate, InterestRates, PromiseCost;
    IndicesGrow(b, now);
    DepositIsSound(b, amount, now, s);
    var e := DepositBalances(b, amount, now);
    SameStable(b, e, now);
    PricingPromises(e, now, s);
    SupplyAdded(supply, LiquidityIndexAt(b, now), amount);
  }

  lemma WithdrawCovers(b: Reserve, u: User, supply: int, amount: int, now: int, s: Strategy, slack: int)
    requires Sound(b, now) && s.Sound() && StableDated(b)
    requires 0 <= WithdrawAmount(b, u, amount, now) <= b.availableLiquidity
    requires Covers(AccruedValue(b, now), supply * LiquidityIndexAt(b, now), slack)
    ensures Priced(WithdrawBalances(b, u, amount, now))
    ensures var e := AfterWithdraw(b, u, amount, now, s);
            e.liquidityIndex > 0
            && StaysCovered(e, now, supply - RayDiv(WithdrawAmount(b, u, amount, now), e.liquidityIndex),
                            Bounded(e, slack))
  {
    hide RayMul, RayDiv, LiquidityIndexAt, VariableIndexAt, TotalStableDebtAt, UtilizationRate, InterestRates, PromiseCost,
         WithdrawAmount;
    IndicesGrow(b, now);
    WithdrawIsSound(b, u, amount, now, s);
    WithdrawTaken(b, u, amount, now);
    TakenIsStated(WithdrawBalances(b, u, amount, now), now);
    SameStable(b, WithdrawBalances(b, u, amount, now), now);
    PricingPromises(WithdrawBalances(b, u, amount, now), now, s);
    SupplyAdded(supply, LiquidityIndexAt(b, now), WithdrawAmount(b, u, amount, now));
  }

  lemma SupplyAdded(supply: int, index: int, amount: int)
    requires amount >= 0 && index > 0
    ensures (supply + RayDiv(amount, index)) * index <= supply * index + RAY * amount + index
    ensures (supply - RayDiv(amount, index)) * index <= supply * index - RAY * amount + index
  {
    hide RayDiv;
    var x := RayDiv(amount, index);
    RayDivNearest(amount, index);
    assert (supply + x) * index == supply * index + index * x;
    assert (supply - x) * index == supply * index - index * x;
  }

  lemma BorrowCovers(b: Reserve, supply: int, mode: RateMode, amount: int, now: int, s: Strategy, slack: int)
    requires Sound(b, now) && s.Sound() && StableDated(b) && 0 <= amount <= b.availableLiquidity && now > 0
    requires Covers(AccruedValue(b, now), supply * LiquidityIndexAt(b, now), slack)
    ensures VariableIndexAt(b, now) != 0 && Priced(BorrowBalances(b, mode, amount, now))
    ensures var e := Repriced(BorrowBalances(b, mode, amount, now), s);
            StaysCovered(e, now, supply, Bounded(e, slack))
  {
    hide RayMul, RayDiv, LiquidityIndexAt, VariableIndexAt, TotalStableDebtAt, UtilizationRate, InterestRates, PromiseCost,
         StableDebtBalance, AverageStableRate;
    IndicesGrow(b, now);
    BorrowBalancesSound(b, mode, amount, now, s);
    BorrowTaken(b, mode, amount, now);
    var e := BorrowBalances(b, mode, amount, now);
    TakenIsStated(e, now);
    if mode == Stable {
      StableRebased(e, now);
    } else {
      SameStable(b, e, now);
      DatedBalance(b, now);
      ScaledStepError(b.scaledVariableDebt, amount, VariableIndexAt(b, now));
    }
    PricingPromises(e, now, s);
  }

  /** For a dated stable debt both stable balance formulas agree. */
  lemma DatedBalance(b: Reserve, now: int)
    requires StableDated(b) && b.totalStableDebtLastUpdated <= now && b.principalStableDebt >= 0
    ensures StableDebtBalance(b.principalStableDebt, b.averageStableBorrowRate, b.totalStableDebtLastUpdated, now)
         == TotalStableDebtAt(b, now)
  {
    hide RayMul, CompoundedInterest;
    var elapsed := now - b.totalStableDebtLastUpdated;
    CompoundedAtZero(b.averageStableBorrowRate);
    RayMulByOne(b.principalStableDebt);
    if b.averageStableBorrowRate == 0 { NoRateNoGrowth(elapsed); }
    RayMulCommutes(b.principalStableDebt, CompoundedInterest(b.averageStableBorrowRate, elapsed));
  }

  /** What a clamped stable repayment erases. */
  function Erased(b: Reserve, u: User, amount: int, now: int): (x: int)
    ensures x >= 0
  {
    var debt, repaid := TotalStableDebtAt(b, now), RepayAmount(b, u, Stable, amount, now);
    var left := StableLeft(debt, b.averageStableBorrowRate, repaid, u.stableBorrowRate).0;
    if left < debt - repaid then debt - repaid - left else 0
  }

  lemma RepayCovers(b: Reserve, u: User, supply: int, mode: RateMode, amount: int, now: int, s: Strategy, slack: int)
    requires Sound(b, now) && s.Sound() && StableDated(b) && now > 0
    requires VariableIndexAt(b, now) != 0 && RepayAmount(b, u, mode, amount, now) >= 0
    requires mode != Stable ==>
               && NotAhead(b, now)
               && 0 <= RayDiv(RepayAmount(b, u, mode, amount, now), VariableIndexAt(b, now)) <= b.scaledVariableDebt
    requires Covers(AccruedValue(b, now), supply * LiquidityIndexAt(b, now), slack)
    ensures Priced(RepayBalances(b, u, mode, amount, now))
    ensures var e := AfterRepay(b, u, mode, amount, now, s);
            var erased := if mode == Stable then Erased(b, u, amount, now) else 0;
            StaysCovered(e, now, supply, Bounded(e, slack + RAY * erased))
  {
    hide RayMul, RayDiv, LiquidityIndexAt, VariableIndexAt, TotalStableDebtAt, UtilizationRate, InterestRates, PromiseCost,
         RepayAmount, StableLeft;
    IndicesGrow(b, now);
    StableDebtGrows(b, now);
    RepayIsSound(b, u, mode, amount, now, s);
    var e := RepayBalances(b, u, mode, amount, now);
    if mode == Stable {
      RepayTakenStable(b, u, amount, now);
    } else {
      RepayTaken(b, u, mode, amount, now);
      TakenIsStated(e, now);
      SameStable(b, e, now);
      ScaledStepError(b.scaledVariableDebt, RepayAmount(b, u, mode, amount, now), VariableIndexAt(b, now));
    }
    PricingPromises(e, now, s);
  }

  lemma RepayTakenStable(b: Reserve, u: User, amount: int, now: int)
    requires VariableIndexAt(b, now) != 0
    ensures Stated(RepayBalances(b, u, Stable, amount, now), now)
    ensures StableValue(RepayBalances(b, u, Stable, amount, now)) == RepayBalances(b, u, Stable, amount, now).principalStableDebt
  {
    hide RayMul, RayDiv, CompoundedInterest, VariableIndexAt, LiquidityIndexAt, RepayAmount, StableLeft, TotalStableDebtAt;
    RepaymentClamps(TotalStableDebtAt(b, now), b.averageStableBorrowRate, RepayAmount(b, u, Stable, amount, now),
                    u.stableBorrowRate);
    StableRebased(RepayBalances(b, u, Stable, amount, now), now);
  }

  lemma SwapCovers(b: Reserve, u: User, supply: int, mode: RateMode, now: int, s: Strategy, slack: int)
    requires Sound(b, now) && s.Sound() && StableDated(b) && now > 0
    requires VariableIndexAt(b, now) != 0 && SwapCovered(b, u, mode, now)
    requires Covers(AccruedValue(b, now), supply * LiquidityIndexAt(b, now), slack)
    ensures Priced(SwapBalances(b, u, mode, now))
    ensures var e := AfterSwap(b, u, mode, now, s);
            StaysCovered(e, now, supply, Bounded(e, slack))
  {
    hide RayMul, RayDiv, LiquidityIndexAt, VariableIndexAt, TotalStableDebtAt, UtilizationRate, InterestRates, PromiseCost,
         UserStableDebt, VariableDebtBalance, AverageStableRate;
    IndicesGrow(b, now);
    SwapIsSound(b, u, mode, now, s);
    SwapTaken(b, u, mode, now);
    var e := SwapBalances(b, u, mode, now);
    TakenIsStated(e, now);
    StableRebased(e, now);
    ScaledStepError(b.scaledVariableDebt, SwapAmount(b, u, mode, now), VariableIndexAt(b, now));
    PricingPromises(e, now, s);
  }

  /** A read changes nothing that coverage depends on, and states exactly the assets. */
  lemma ReadCovers(r: Reserve, supply: int, now: int, later: int, bound: Bound)
    requires Sound(r, now) && now <= later && StaysCovered(r, now, supply, bound)
    ensures Priced(DebtsAt(r, later))
    ensures StaysCovered(ReadAt(r, later), later, supply, bound)
  {
    hide RayMul, UtilizationRate, NormalizedDebt, CompoundedInterest, VariableIndexAt;
    SoundLater(r, now, later);
    ReadIsSound(r, later);
    ReadAtStoredIndex(ReadAt(r, later), later);
  }

  // ---- Runs ----

  /** A state in which suppliers are covered up to the bound's slack. */
  ghost predicate CoveredState(st: State, bound: Bound) {
    && Valid(st) && SuppliesNonNegative(st.accounts) && st.clock > 0
    && bound.slack >= 0 && StaysCovered(st.reserve, st.clock, TotalSupply(st.accounts), bound)
  }

  function ErasedBy(r: Reserve, ev: Event): (x: int)
    ensures x >= 0
  {
    if ev.action.Repay? && ev.action.mode == Stable then Erased(r, ev.user, ev.action.amount, ev.time) else 0
  }

  /** The reserve as the event priced it: a borrow prices before its read. */
  ghost function PricedReserve(r: Reserve, ev: Event, s: Strategy): Reserve
    requires Defined(r, ev, s)
  {
    if ev.action.Borrow? then Repriced(BorrowBalances(r, ev.action.mode, ev.action.amount, ev.time), s)
    else NextReserve(r, ev, s)
  }

  /** What the total of an action misses is exactly the interest since the read: all of it after
      a deposit, that of the stable debt after a variable repayment, and nothing otherwise. */
  ghost function Missed(r: Reserve, ev: Event): int {
    match ev.action
    case Deposit(_) => AccruedValue(r, ev.time) - r.totalLiquidity
    case Repay(mode, _, _) => if mode == Stable then 0 else TotalStableDebtAt(r, ev.time) - r.totalStableDebt
    case _ => 0
  }

  lemma StalenessExactly(st: State, ev: Event, s: Strategy)
    requires Valid(st) && s.Sound() && Allowed(st, ev) && !ev.action.Read? && StableDated(st.reserve) && ev.time > 0
    ensures Defined(st.reserve, ev, s)
    ensures Staleness(PricedReserve(st.reserve, ev, s)) == Missed(st.reserve, ev)
  {
    hide RayMul, RayDiv, LiquidityIndexAt, VariableIndexAt, UtilizationRate, InterestRates, CompoundedInterest,
         VariableDebtBalance, UserStableDebt, UserStableRate, StableDebtBalance, StableLeft, AverageStableRate,
         RepayAmount, WithdrawAmount, NormalizedDebt, NormalizedIncome;
    StepIsSound(st, ev, s);
    var r, u, t := st.reserve, ev.user, ev.time;
    UserStableNonNegative(u, t);
    match ev.action
    case Deposit(_) =>
    case Withdraw(_) =>
    case Borrow(mode, amount, _) =>
      BorrowBalancesSound(r, mode, amount, t, s);
      DatedBalance(r, t);
      if mode == Stable { StableRebased(BorrowBalances(r, mode, amount, t), t); }
    case Repay(mode, amount, _) =>
      if mode == Stable { RepayTakenStable(r, u, amount, t); }
    case Swap(mode) =>
      StableDebtGrows(r, t);
      if mode != Stable { VariableDebtNonNegative(r, u, t); DebtWithinTotal(st.accounts, ev.who); }
      StableRebased(SwapBalances(r, u, mode, t), t);
  }

  /** The bound after an event: unchanged by a read; otherwise the interval since the last
      action, the action's own rounding, what a clamp erases, and a new promise. */
  ghost function NextBound(st: State, ev: Event, s: Strategy, bound: Bound): Bound
    requires Valid(st) && s.Sound() && Allowed(st, ev) && StableDated(st.reserve)
  {
    if ev.action.Read? then bound
    else
      StepIsSound(st, ev, s);
      Bounded(PricedReserve(st.reserve, ev, s),
              SlackAfterInterval(st.reserve, TotalSupply(st.accounts), ev.time - st.reserve.lastUpdateTimestamp, bound)
              + RAY * ErasedBy(st.reserve, ev))
  }

  lemma {:induction false} SupplyTotalNonNegative(accounts: seq<Account>)
    requires SuppliesNonNegative(accounts)
    ensures TotalSupply(accounts) >= 0
  {
    if accounts != [] {
      SupplyTotalNonNegative(accounts[1..]);
    }
  }

  /** The reserve side of a step. */
  lemma StepCovers(st: State, ev: Event, s: Strategy, bound: Bound)
    requires CoveredState(st, bound) && s.Sound() && Allowed(st, ev)
    ensures var n, next := Next(st, ev, s), NextBound(st, ev, s, bound);
            next.slack >= 0 && StaysCovered(n.reserve, n.clock, TotalSupply(n.accounts), next)
  {
    hide SlackAfterInterval, Covers, Assets, AccruedValue, Promised, PromiseCost, NotAhead, RayMul, RayDiv, VariableIndexAt,
         LiquidityIndexAt, DepositBalances, WithdrawBalances, BorrowBalances, RepayBalances, SwapBalances, DebtsAt, Repriced,
         ReadAt, VariableDebtBalance, UserStableDebt, RepayAmount, WithdrawAmount, ATokenBalance, Erased;
    StepIsSound(st, ev, s);
    StepKeepsLedger(st, ev, s);
    var r, u, t := st.reserve, ev.user, ev.time;
    var supply := TotalSupply(st.accounts);
    SupplyTotalNonNegative(st.accounts);
    DebtWithinTotal(st.accounts, ev.who);
    UserStableNonNegative(u, t);
    NotAheadLater(r, st.clock, t);
    var n := Next(st, ev, s);
    TotalsAfterUpdate(st.accounts, ev.who, n.accounts[ev.who]);
    IntervalKeepsCoverage(r, supply, t, bound);
    var grown := SlackAfterInterval(r, supply, t - r.lastUpdateTimestamp, bound);
    match ev.action
    case Read => ReadCovers(r, supply, st.clock, t, bound);
    case Deposit(amount) =>
      DepositCovers(r, supply, amount, t, s, grown);
      RayDivOfZero(n.reserve.liquidityIndex);
    case Withdraw(amount) =>
      WithdrawCovers(r, u, supply, amount, t, s, grown);
      RayDivOfZero(n.reserve.liquidityIndex);
    case Borrow(mode, amount, readTime) =>
      BorrowCovers(r, supply, mode, amount, t, s, grown);
      var e := Repriced(BorrowBalances(r, mode, amount, t), s);
      BorrowBalancesSound(r, mode, amount, t, s);
      ReadCovers(e, supply, t, readTime, Bounded(e, grown));
    case Repay(mode, amount, _) =>
      if mode != Stable {
        DebtUnscales(r, u, t, RepayAmount(r, u, mode, amount, t));
      }
      RepayCovers(r, u, supply, mode, amount, t, s, grown);
    case Swap(mode) =>
      if mode != Stable {
        VariableDebtNonNegative(r, u, t);
        DebtUnscales(r, u, t, VariableDebtBalance(r, u, t));
      }
      SwapCovers(r, u, supply, mode, t, s, grown);
  }

  lemma SoundLater(r: Reserve, now: int, later: int)
    requires Sound(r, now) && now <= later
    ensures Sound(r, later)
  {
  }

  lemma StepKeepsCoverage(st: State, ev: Event, s: Strategy, bound: Bound)
    requires CoveredState(st, bound) && s.Sound() && Allowed(st, ev)
    requires WithdrawsWithin(st.reserve, ev)
    ensures CoveredState(Next(st, ev, s), NextBound(st, ev, s, bound))
  {
    hide NextBound, Covers, Promised, Next, Valid, StaysCovered, WithdrawsWithin;
    StepKeepsLedger(st, ev, s);
    SuppliesKeptExactly(st, ev, s);
    StepCovers(st, ev, s, bound);
  }

  /** The bound a run accumulates. */
  ghost function RunBound(st: State, evs: seq<Event>, s: Strategy, bound: Bound): Bound
    requires CoveredState(st, bound) && s.Sound() && AllowedRun(st, evs, s) && WithdrawalsWithin(st, evs, s)
    decreases |evs|
  {
    if evs == [] then bound else
      StepKeepsLedger(st, evs[0], s);
      StepKeepsCoverage(st, evs[0], s, bound);
      RunBound(Next(st, evs[0], s), evs[1..], s, NextBound(st, evs[0], s, bound))
  }

  /** Over every run of actions of every kind, in both rate modes, by any number of users and
      however long after the reserve was read: what suppliers may claim stays within cash plus
      both debts, up to the accumulated slack. Withdrawals take no more than the own scaled
      balance, as all do while the income indices agree. */
  lemma {:induction false} RunKeepsCoverage(st: State, evs: seq<Event>, s: Strategy, bound: Bound)
    requires CoveredState(st, bound) && s.Sound() && AllowedRun(st, evs, s) && WithdrawalsWithin(st, evs, s)
    ensures var end, reached := Run(st, evs, s), RunBound(st, evs, s, bound);
            && CoveredState(end, reached)
            && TotalSupply(end.accounts) * end.reserve.liquidityIndex <= RAY * Assets(end.reserve) + reached.slack
    decreases |evs|
  {
    if evs == [] {
      CoveredIsValid(st, bound);
    } else {
      hide Next, Allowed, NextBound, CoveredState, WithdrawsWithin;
      CoveredIsValid(st, bound);
      StepKeepsLedger(st, evs[0], s);
      StepKeepsCoverage(st, evs[0], s, bound);
      RunKeepsCoverage(Next(st, evs[0], s), evs[1..], s, NextBound(st, evs[0], s, bound));
    }
  }

  lemma CoveredIsValid(st: State, bound: Bound)
    requires CoveredState(st, bound)
    ensures Valid(st)
    ensures TotalSupply(st.accounts) * st.reserve.liquidityIndex <= RAY * Assets(st.reserve) + bound.slack
  {
  }

  // ---- The start of every run ----

  function EmptyReserve(marketStableRate: int, s: Strategy, now: int): Reserve {
    Reserve(0, 0, 0, 0, 0, 0, 0, 0, marketStableRate, s.baseVariable, 0, RAY, RAY, marketStableRate, now, now)
  }

  function EmptyMarket(users: nat, marketStableRate: int, s: Strategy, now: int): State {
    State(EmptyReserve(marketStableRate, s, now), seq(users, _ => Account(0, 0)), now)
  }

  lemma {:induction false} NothingHeld(accounts: seq<Account>)
    requires forall i :: 0 <= i < |accounts| ==> accounts[i] == Account(0, 0)
    ensures TotalDebt(accounts) == TotalSupply(accounts) == 0
  {
    if accounts != [] {
      NothingHeld(accounts[1..]);
    }
  }

  /** A reserve nobody has used yet satisfies every premise of a run, at no cost. */
  lemma EmptyMarketIsCovered(users: nat, marketStableRate: int, s: Strategy, now: int)
    requires s.Sound() && marketStableRate >= 0 && now > 0
    ensures CoveredState(EmptyMarket(users, marketStableRate, s, now), Bound(0, 0))
  {
    hide StaysCovered, Sound;
    NothingHeld(EmptyMarket(users, marketStableRate, s, now).accounts);
    EmptyReserveStarts(marketStableRate, s, now);
  }

  lemma EmptyReserveStarts(marketStableRate: int, s: Strategy, now: int)
    requires s.Sound() && marketStableRate >= 0 && now > 0
    ensures var r := EmptyReserve(marketStableRate, s, now);
            Sound(r, now) && StaysCovered(r, now, 0, Bound(0, 0))
  {
    hide CompoundedInterest, RayMul;
    var r := EmptyReserve(marketStableRate, s, now);
    RayMulByZero(RAY);
    RayMulByZero(CompoundedInterest(0, 0));
    assert Assets(r) == 0;
  }
}
