/** What accrual comes to: the indices and debts of a reserve at a later time, against linear
    growth and against the exact compounding power. */
module Interest {
  import opened FixedPoint
  import opened Accrual
  import opened Reserves
  import opened Soundness

  // ---- Suppliers ----

  /** Grown by the year's share of the rate over n seconds: within one unit of the factor's
      truncation and half a unit of rounding. */
  ghost predicate LinearlyGrown(grown: int, start: int, rate: int, n: int) {
    && 2 * (start * (RAY * ONE_YEAR + rate * n - ONE_YEAR)) - RAY * ONE_YEAR <= 2 * RAY * ONE_YEAR * grown
    && 2 * RAY * ONE_YEAR * grown <= 2 * (start * (RAY * ONE_YEAR + rate * n)) + RAY * ONE_YEAR
  }

  lemma LinearGrows(rate: int, n: int, start: int)
    requires rate >= 0 && n >= 0 && start >= 0
    ensures LinearlyGrown(RayMul(LinearInterest(rate, n), start), start, rate, n)
  {
    hide RayMul, LinearInterest;
    var factor := LinearInterest(rate, n);
    LinearAtLeastOne(rate, n);
    RayMulNearest(factor, start);
    LinearAlgebra(rate * n, start, factor, RayMul(factor, start));
  }

  lemma LinearAlgebra(interest: int, start: int, factor: int, grown: int)
    requires start >= 0
    requires ONE_YEAR * (factor - RAY) <= interest < ONE_YEAR * (factor - RAY) + ONE_YEAR
    requires 2 * (factor * start) - RAY <= 2 * RAY * grown <= 2 * (factor * start) + RAY
    ensures 2 * (start * (RAY * ONE_YEAR + interest - ONE_YEAR)) - RAY * ONE_YEAR <= 2 * RAY * ONE_YEAR * grown
    ensures 2 * RAY * ONE_YEAR * grown <= 2 * (start * (RAY * ONE_YEAR + interest)) + RAY * ONE_YEAR
  {
    ProductMonotone(ONE_YEAR * factor, RAY * ONE_YEAR + interest, start);
    ProductMonotone(RAY * ONE_YEAR + interest - ONE_YEAR, ONE_YEAR * factor, start);
    assert start * (ONE_YEAR * factor) == ONE_YEAR * (factor * start);
  }

  /** The index an action stores grows linearly while the reserve is utilized, and rests
      otherwise; the index balances are read at does the same by the rate itself. */
  lemma SupplierIndicesGrow(r: Reserve, now: int)
    requires Sound(r, now)
    ensures var n := now - r.lastUpdateTimestamp;
            && (if r.utilizationRate == 0 then LiquidityIndexAt(r, now) == r.liquidityIndex
                else LinearlyGrown(LiquidityIndexAt(r, now), r.liquidityIndex, r.liquidityRate, n))
            && LinearlyGrown(NormalizedIncome(r, now), r.liquidityIndex, r.liquidityRate, n)
  {
    hide RayMul, LinearInterest, LinearlyGrown;
    var n := now - r.lastUpdateTimestamp;
    LinearGrows(r.liquidityRate, n, r.liquidityIndex);
    if r.liquidityRate == 0 {
      NoRateNoLinearGrowth(n, r.liquidityIndex);
    }
  }

  lemma NoRateNoLinearGrowth(n: int, start: int)
    requires start >= 0
    ensures LinearlyGrown(start, start, 0, n)
  {
    assert start * (RAY * ONE_YEAR + 0 * n) == RAY * ONE_YEAR * start;
    assert start * (RAY * ONE_YEAR + 0 * n - ONE_YEAR) == RAY * ONE_YEAR * start - ONE_YEAR * start;
  }

  // ---- Borrowers ----

  /** The exact power of the rate per second, less its fourth-order share, and the power itself,
      in rays, each with the factor's rounding units. */
  function PowerBelow(rate: int, n: nat): real {
    var q := rate / ONE_YEAR;
    RAY as real * (Pow(1.0 + Fraction(q), n) * Kept(Fraction(q), n)) - CompoundingError(q, n)
  }

  function PowerAbove(rate: int, n: nat): real {
    var q := rate / ONE_YEAR;
    RAY as real * Pow(1.0 + Fraction(q), n) + CompoundingError(q, n)
  }

  /** Grown between those powers, up to half a unit. */
  ghost predicate CompoundGrown(grown: int, start: int, rate: int, n: nat) {
    && start as real * PowerBelow(rate, n) - 0.5 * RAY as real <= RAY as real * grown as real
    && RAY as real * grown as real <= start as real * PowerAbove(rate, n) + 0.5 * RAY as real
  }

  lemma FactorWithinPowers(rate: int, n: nat)
    requires rate >= 0
    ensures PowerBelow(rate, n) <= CompoundedInterest(rate, n) as real <= PowerAbove(rate, n)
  {
    hide CompoundedInterest, Pow, Kept, CompoundingError, Fraction;
    CompoundingBracketsPower(rate, n);
  }

  lemma CompoundGrows(rate: int, n: nat, start: int)
    requires rate >= 0 && start >= 0
    ensures CompoundGrown(RayMul(CompoundedInterest(rate, n), start), start, rate, n)
    ensures CompoundGrown(RayMul(start, CompoundedInterest(rate, n)), start, rate, n)
  {
    hide RayMul, CompoundedInterest, PowerBelow, PowerAbove;
    var factor := CompoundedInterest(rate, n);
    FactorWithinPowers(rate, n);
    CompoundedAtLeastOne(rate, n);
    RayMulNearest(factor, start);
    RayMulNearest(start, factor);
    assert start * factor == factor * start;
    ProductGrows(factor, start, RayMul(factor, start), rate, n);
    ProductGrows(factor, start, RayMul(start, factor), rate, n);
  }

  lemma ProductGrows(factor: int, start: int, grown: int, rate: int, n: nat)
    requires start >= 0 && PowerBelow(rate, n) <= factor as real <= PowerAbove(rate, n)
    requires 2 * (factor * start) - RAY < 2 * RAY * grown <= 2 * (factor * start) + RAY
    ensures CompoundGrown(grown, start, rate, n)
  {
    hide PowerBelow, PowerAbove;
    RealProduct(factor, start, grown);
    RealScale(PowerBelow(rate, n), factor as real, start as real);
    RealScale(factor as real, PowerAbove(rate, n), start as real);
  }

  lemma RealProduct(a: int, b: int, r: int)
    requires 2 * (a * b) - RAY < 2 * RAY * r <= 2 * (a * b) + RAY
    ensures var p := b as real * a as real;
            p - 0.5 * RAY as real <= RAY as real * r as real <= p + 0.5 * RAY as real
  {
    IntProduct(b, a);
    var p := a * b;
    assert (2 * p - RAY) as real <= (2 * RAY * r) as real <= (2 * p + RAY) as real;
  }

  /** Without a rate, or without time, the power is one. */
  lemma NoCompoundGrowth(rate: int, n: nat, start: int)
    requires start >= 0 && rate >= 0 && (rate == 0 || n == 0)
    ensures CompoundGrown(start, start, rate, n)
  {
    hide CompoundGrown, RayMul, CompoundedInterest;
    CompoundGrows(rate, n, start);
    RayMulByOne(start);
    if rate == 0 { NoRateNoGrowth(n); }
    assert n == 0 ==> CompoundedInterest(rate, n) == RAY by { NoTimeNoGrowth(rate); }
  }

  lemma NoTimeNoGrowth(rate: int)
    ensures CompoundedInterest(rate, 0) == RAY
  {
  }

  /** Both debts compound: the stored variable index and the index debts are read at by the
      variable rate since the last update, the stable principal by its average rate since it was
      last rebased, a user's by the own rate. */
  lemma DebtsCompound(r: Reserve, now: int)
    requires Sound(r, now)
    ensures var n := now - r.lastUpdateTimestamp;
            && (if r.totalVariableDebt == 0 then VariableIndexAt(r, now) == r.variableBorrowIndex
                else CompoundGrown(VariableIndexAt(r, now), r.variableBorrowIndex, r.variableBorrowRate, n))
            && CompoundGrown(NormalizedDebt(r.variableBorrowRate, r.variableBorrowIndex, r.lastUpdateTimestamp, now),
                             r.variableBorrowIndex, r.variableBorrowRate, n)
            && CompoundGrown(TotalStableDebtAt(r, now), r.principalStableDebt, r.averageStableBorrowRate,
                             now - r.totalStableDebtLastUpdated)
  {
    hide CompoundGrown, RayMul, CompoundedInterest;
    CompoundGrows(r.variableBorrowRate, now - r.lastUpdateTimestamp, r.variableBorrowIndex);
    CompoundGrows(r.averageStableBorrowRate, now - r.totalStableDebtLastUpdated, r.principalStableDebt);
    if r.variableBorrowRate == 0 {
      NoCompoundGrowth(0, now - r.lastUpdateTimestamp, r.variableBorrowIndex);
    }
  }

  /** A user's stable debt does the same, unless no start time is known. */
  lemma UserDebtCompounds(u: User, now: int)
    requires u.principalStableDebt >= 0 && u.stableBorrowRate >= 0 && u.stableRateLastUpdated <= now
    ensures if u.stableRateLastUpdated == 0 then UserStableDebt(u, now) == u.principalStableDebt
            else CompoundGrown(UserStableDebt(u, now), u.principalStableDebt, u.stableBorrowRate, now - u.stableRateLastUpdated)
  {
    hide CompoundGrown, RayMul, CompoundedInterest;
    var n := now - u.stableRateLastUpdated;
    CompoundGrows(u.stableBorrowRate, n, u.principalStableDebt);
    if u.stableBorrowRate == 0 || n == 0 {
      NoCompoundGrowth(u.stableBorrowRate, n, u.principalStableDebt);
    }
  }
}
