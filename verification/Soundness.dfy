/** What every action keeps: non-negative balances and rates, and indices of at least one
    ray that never fall. */
module Soundness {
  import opened FixedPoint
  import opened Accrual
  import opened RateModel
  import opened Reserves
  import opened StableAverage

  /** The balance part of the invariant. */
  ghost predicate Balanced(r: Reserve, now: int) {
    && r.availableLiquidity >= 0
    && 0 <= r.scaledVariableDebt <= r.totalVariableDebt
    && (r.scaledVariableDebt == 0 ==> r.totalVariableDebt == 0)
    && 0 <= r.principalStableDebt <= r.totalStableDebt
    && (r.principalStableDebt == 0 ==> r.totalStableDebt == 0)
    && r.averageStableBorrowRate >= 0
    && r.totalLiquidity >= r.availableLiquidity + r.scaledVariableDebt + r.principalStableDebt
    && r.liquidityIndex >= RAY && r.variableBorrowIndex >= RAY
    && r.marketStableRate >= 0
    && r.lastUpdateTimestamp <= now && r.totalStableDebtLastUpdated <= now
  }

  ghost predicate Sound(r: Reserve, now: int) {
    && Balanced(r, now)
    && r.liquidityRate >= 0 && r.stableBorrowRate >= 0 && r.variableBorrowRate >= 0
    && r.utilizationRate >= 0
  }

  /** The indices have not fallen. */
  ghost predicate Grown(r: Reserve, e: Reserve) {
    r.liquidityIndex <= e.liquidityIndex && r.variableBorrowIndex <= e.variableBorrowIndex
  }

  // ---- Accrual ----

  lemma ScaleIsZeroOnlyAtZero(s: int, index: int)
    requires s >= 0 && index >= RAY
    ensures RayMul(s, index) >= s && (s == 0 ==> RayMul(s, index) == 0)
  {
    RayMulGrows(s, index);
    if s == 0 { assert s * index == 0; }
  }

  lemma LinearGrowth(rate: int, elapsed: int, index: int)
    requires rate >= 0 && elapsed >= 0 && index >= RAY
    ensures RayMul(LinearInterest(rate, elapsed), index) >= index
  {
    hide RayMul, LinearInterest;
    LinearAtLeastOne(rate, elapsed);
    RayMulGrows(index, LinearInterest(rate, elapsed));
  }

  lemma CompoundGrowth(rate: int, elapsed: int, index: int)
    requires rate >= 0 && elapsed >= 0 && index >= 0
    ensures RayMul(CompoundedInterest(rate, elapsed), index) >= index
    ensures RayMul(index, CompoundedInterest(rate, elapsed)) >= index
    ensures rate == 0 ==> RayMul(CompoundedInterest(rate, elapsed), index) == index
    ensures index == 0 ==> RayMul(CompoundedInterest(rate, elapsed), index) == 0
    ensures index == 0 ==> RayMul(index, CompoundedInterest(rate, elapsed)) == 0
  {
    hide RayMul, CompoundedInterest;
    CompoundedAtLeastOne(rate, elapsed);
    RayMulGrows(index, CompoundedInterest(rate, elapsed));
    if rate == 0 {
      NoRateNoGrowth(elapsed);
      RayMulByOne(index);
    }
    if index == 0 {
      ScaleIsZeroOnlyAtZero(0, CompoundedInterest(rate, elapsed));
      RayMulMonotone(0, CompoundedInterest(rate, elapsed), 0, CompoundedInterest(rate, elapsed));
    }
  }

  lemma RayMulByZero(a: int)
    ensures RayMul(0, a) == 0 && RayMul(a, 0) == 0
  {
  }

  lemma NoRateNoGrowth(elapsed: int)
    requires elapsed >= 0
    ensures CompoundedInterest(0, elapsed) == RAY
  {
    hide CompoundedInterest, Choose, RayMul;
    CompoundedClosedForm(0, elapsed);
    RayMulByZero(0);
    assert RayMul(RayMul(0, 0), 0) == RayMul(0, 0) == 0;
    assert Choose(elapsed, 2) * 0 == 0 && Choose(elapsed, 3) * 0 == 0 && 0 * elapsed == 0;
  }

  /** At any later time both stored indices have grown. */
  lemma IndicesGrow(r: Reserve, now: int)
    requires Sound(r, now)
    ensures Grown(r, Accrued(r, now))
  {
    hide RayMul, LinearInterest, CompoundedInterest;
    LinearGrowth(r.liquidityRate, now - r.lastUpdateTimestamp, r.liquidityIndex);
    CompoundGrowth(r.variableBorrowRate, now - r.lastUpdateTimestamp, r.variableBorrowIndex);
  }

  /** The stable debt has grown, and vanishes only with its principal. */
  lemma StableDebtGrows(r: Reserve, now: int)
    requires Sound(r, now)
    ensures TotalStableDebtAt(r, now) >= r.principalStableDebt
    ensures r.principalStableDebt == 0 ==> TotalStableDebtAt(r, now) == 0
  {
    hide RayMul, CompoundedInterest;
    CompoundGrowth(r.averageStableBorrowRate, now - r.totalStableDebtLastUpdated, r.principalStableDebt);
  }

  /** The stable debt depends only on the three stable columns. */
  lemma SameStable(b: Reserve, e: Reserve, now: int)
    requires e.principalStableDebt == b.principalStableDebt && e.averageStableBorrowRate == b.averageStableBorrowRate
    requires e.totalStableDebtLastUpdated == b.totalStableDebtLastUpdated
    ensures TotalStableDebtAt(e, now) == TotalStableDebtAt(b, now)
  {
  }

  /** The index variable debts are read at has grown. */
  lemma NormalizedDebtGrows(r: Reserve, now: int)
    requires Sound(r, now)
    ensures NormalizedDebt(r.variableBorrowRate, r.variableBorrowIndex, r.lastUpdateTimestamp, now) >= r.variableBorrowIndex
  {
    hide RayMul, CompoundedInterest;
    CompoundGrowth(r.variableBorrowRate, now - r.lastUpdateTimestamp, r.variableBorrowIndex);
  }

  /** The two debt indices agree wherever there is variable debt to scale. */
  lemma DebtIndicesAgree(r: Reserve, now: int)
    requires Sound(r, now) && r.scaledVariableDebt > 0
    ensures VariableIndexAt(r, now)
         == NormalizedDebt(r.variableBorrowRate, r.variableBorrowIndex, r.lastUpdateTimestamp, now)
  {
    hide RayMul, CompoundedInterest;
    CompoundGrowth(r.variableBorrowRate, now - r.lastUpdateTimestamp, r.variableBorrowIndex);
  }

  /** The two income indices agree exactly when the reserve is utilized or its rate has
      accrued nothing yet. */
  lemma IncomeIndicesAgreeExactly(r: Reserve, now: int)
    requires Sound(r, now)
    ensures NormalizedIncome(r, now) == LiquidityIndexAt(r, now) <==>
              r.utilizationRate != 0 || r.liquidityRate * (now - r.lastUpdateTimestamp) < ONE_YEAR
  {
    hide RayMul;
    var elapsed := now - r.lastUpdateTimestamp;
    var factor := LinearInterest(r.liquidityRate, elapsed);
    ProductNonNegative(r.liquidityRate, elapsed);
    QuotientBounds(r.liquidityRate * elapsed, ONE_YEAR);
    RayMulByOne(r.liquidityIndex);
    if factor > RAY {
      RayMulNearest(factor, r.liquidityIndex);
      ProductMonotone(RAY + 1, factor, r.liquidityIndex);
      assert r.liquidityRate != 0;
    }
  }

  // ---- Pricing ----

  /** Balanced reserves can be priced, and pricing makes them sound. */
  lemma PricingIsSound(r: Reserve, now: int, s: Strategy)
    requires Balanced(r, now) && s.Sound()
    ensures Priced(r) && Sound(Repriced(r, s), now)
    ensures Repriced(r, s).utilizationRate == 0 ==> Repriced(r, s).liquidityRate == 0
  {
    hide UtilizationRate, InterestRates;
    UtilizationNearest(r.totalStableDebt, r.totalVariableDebt, r.totalLiquidity);
    RatesNonNegative(s, r.marketStableRate,
                     UtilizationRate(r.totalStableDebt, r.totalVariableDebt, r.totalLiquidity),
                     r.totalStableDebt, r.totalVariableDebt, r.averageStableBorrowRate);
  }

  lemma ReadIsSound(r: Reserve, now: int)
    requires Sound(r, now)
    ensures Priced(DebtsAt(r, now)) && Sound(ReadAt(r, now), now)
  {
    hide UtilizationRate, TotalStableDebtAt, NormalizedDebt, RayMul;
    StableDebtGrows(r, now);
    NormalizedDebtGrows(r, now);
    ScaleIsZeroOnlyAtZero(r.scaledVariableDebt,
                          NormalizedDebt(r.variableBorrowRate, r.variableBorrowIndex, r.lastUpdateTimestamp, now));
    var e := DebtsAt(r, now);
    UtilizationNearest(e.totalStableDebt, e.totalVariableDebt, e.totalLiquidity);
  }

  // ---- Every action ----

  lemma DepositIsSound(b: Reserve, amount: int, now: int, s: Strategy)
    requires Sound(b, now) && s.Sound() && amount >= 0
    ensures Balanced(DepositBalances(b, amount, now), now)
    ensures Priced(DepositBalances(b, amount, now))
    ensures Sound(AfterDeposit(b, amount, now, s), now) && Grown(b, AfterDeposit(b, amount, now, s))
  {
    hide TotalStableDebtAt, LiquidityIndexAt, VariableIndexAt, RayMul, UtilizationRate, InterestRates;
    IndicesGrow(b, now);
    StableDebtGrows(b, now);
    ScaleIsZeroOnlyAtZero(b.scaledVariableDebt, VariableIndexAt(b, now));
    PricingIsSound(DepositBalances(b, amount, now), now, s);
  }

  lemma WithdrawIsSound(b: Reserve, u: User, amount: int, now: int, s: Strategy)
    requires Sound(b, now) && s.Sound()
    requires WithdrawAmount(b, u, amount, now) <= b.availableLiquidity
    ensures Balanced(WithdrawBalances(b, u, amount, now), now)
    ensures Priced(WithdrawBalances(b, u, amount, now))
    ensures Sound(AfterWithdraw(b, u, amount, now, s), now) && Grown(b, AfterWithdraw(b, u, amount, now, s))
  {
    hide TotalStableDebtAt, LiquidityIndexAt, VariableIndexAt, RayMul, UtilizationRate, InterestRates, WithdrawAmount;
    IndicesGrow(b, now);
    StableDebtGrows(b, now);
    ScaleIsZeroOnlyAtZero(b.scaledVariableDebt, VariableIndexAt(b, now));
    PricingIsSound(WithdrawBalances(b, u, amount, now), now, s);
  }

  lemma BorrowBalancesSound(b: Reserve, mode: RateMode, amount: int, now: int, s: Strategy)
    requires Sound(b, now) && s.Sound() && 0 <= amount <= b.availableLiquidity
    ensures VariableIndexAt(b, now) != 0
    ensures Balanced(BorrowBalances(b, mode, amount, now), now)
    ensures Priced(BorrowBalances(b, mode, amount, now))
    ensures Sound(Repriced(BorrowBalances(b, mode, amount, now), s), now)
    ensures Grown(b, BorrowBalances(b, mode, amount, now))
  {
    hide TotalStableDebtAt, LiquidityIndexAt, VariableIndexAt, RayMul, RayDiv, UtilizationRate, InterestRates,
         AverageStableRate, StableDebtBalance;
    IndicesGrow(b, now);
    StableDebtGrows(b, now);
    var index := VariableIndexAt(b, now);
    if mode == Stable {
      var untilTx := TotalStableDebtAt(b, now);
      ScaleIsZeroOnlyAtZero(b.scaledVariableDebt, index);
      AverageNonNegative(b.averageStableBorrowRate, untilTx, amount, b.stableBorrowRate);
    } else {
      RayDivNearest(amount, index);
      ScaleIsZeroOnlyAtZero(b.scaledVariableDebt + RayDiv(amount, index), index);
      StableBalanceGrows(b.principalStableDebt, b.averageStableBorrowRate, b.totalStableDebtLastUpdated, now);
    }
    PricingIsSound(BorrowBalances(b, mode, amount, now), now, s);
  }

  lemma AverageNonNegative(average: int, total: int, added: int, rate: int)
    requires average >= 0 && total >= 0 && added >= 0 && rate >= 0
    ensures AverageStableRate(average, total, added, rate) >= 0
  {
    if total + added > 0 {
      hide AverageStableRate;
      AddingStaysBetween(average, total, added, rate);
    }
  }

  lemma StableBalanceGrows(principal: int, rate: int, since: int, now: int)
    requires principal >= 0 && rate >= 0 && since <= now
    ensures principal <= StableDebtBalance(principal, rate, since, now)
    ensures StableDebtBalance(principal, rate, since, now) <= RayMul(CompoundedInterest(rate, now - since), principal)
    ensures principal == 0 ==> StableDebtBalance(principal, rate, since, now) == 0
  {
    hide RayMul, CompoundedInterest;
    CompoundGrowth(rate, now - since, principal);
    CompoundedAtLeastOne(rate, now - since);
    RayMulMonotone(principal, CompoundedInterest(rate, now - since), principal, CompoundedInterest(rate, now - since));
  }

  lemma BorrowIsSound(b: Reserve, mode: RateMode, amount: int, now: int, readTime: int, s: Strategy)
    requires Sound(b, now) && s.Sound() && 0 <= amount <= b.availableLiquidity && now <= readTime
    ensures VariableIndexAt(b, now) != 0
    ensures Priced(BorrowBalances(b, mode, amount, now))
    ensures Priced(DebtsAt(Repriced(BorrowBalances(b, mode, amount, now), s), readTime))
    ensures var e := AfterBorrow(b, mode, amount, now, readTime, s);
            Sound(e, readTime) && Grown(b, e)
  {
    hide BorrowBalances, VariableIndexAt, DebtsAt, UtilizationRate, InterestRates;
    BorrowBalancesSound(b, mode, amount, now, s);
    var e := Repriced(BorrowBalances(b, mode, amount, now), s);
    ReadIsSound(e, readTime);
    ReadKeepsIndices(e, readTime);
  }

  lemma ReadKeepsIndices(r: Reserve, now: int)
    requires Priced(DebtsAt(r, now))
    ensures Grown(r, ReadAt(r, now)) && Grown(ReadAt(r, now), r)
  {
    hide UtilizationRate, TotalStableDebtAt, NormalizedDebt, RayMul;
  }

  /** Stable repayments need no bound on the amount: the clamps keep the reserve sound. A
      variable repayment must not scale to more than the reserve's scaled debt. */
  lemma RepayIsSound(b: Reserve, u: User, mode: RateMode, amount: int, now: int, s: Strategy)
    requires Sound(b, now) && s.Sound()
    requires VariableIndexAt(b, now) != 0 && RepayAmount(b, u, mode, amount, now) >= 0
    requires mode != Stable ==>
               0 <= RayDiv(RepayAmount(b, u, mode, amount, now), VariableIndexAt(b, now)) <= b.scaledVariableDebt
    ensures Balanced(RepayBalances(b, u, mode, amount, now), now)
    ensures Priced(RepayBalances(b, u, mode, amount, now))
    ensures Sound(AfterRepay(b, u, mode, amount, now, s), now) && Grown(b, AfterRepay(b, u, mode, amount, now, s))
  {
    hide TotalStableDebtAt, LiquidityIndexAt, VariableIndexAt, RayMul, RayDiv, UtilizationRate, InterestRates,
         RepayAmount, StableLeft;
    IndicesGrow(b, now);
    StableDebtGrows(b, now);
    var index, repaid := VariableIndexAt(b, now), RepayAmount(b, u, mode, amount, now);
    if mode == Stable {
      ScaleIsZeroOnlyAtZero(b.scaledVariableDebt, index);
      RepaymentClamps(TotalStableDebtAt(b, now), b.averageStableBorrowRate, repaid, u.stableBorrowRate);
    } else {
      ScaleIsZeroOnlyAtZero(b.scaledVariableDebt - RayDiv(repaid, index), index);
    }
    PricingIsSound(RepayBalances(b, u, mode, amount, now), now, s);
  }

  /** The debt a swap moves. */
  function SwapAmount(b: Reserve, u: User, mode: RateMode, now: int): int {
    if mode == Stable then UserStableDebt(u, now) else VariableDebtBalance(b, u, now)
  }

  /** A swap to variable must satisfy the sign condition of `SwapToVariableKeepsSign`; a swap
      to stable must not scale to more than the reserve's scaled debt. */
  ghost predicate SwapCovered(b: Reserve, u: User, mode: RateMode, now: int)
    requires VariableIndexAt(b, now) != 0
  {
    var moved := SwapAmount(b, u, mode, now);
    && moved >= 0
    && if mode == Stable then
         var e := SwapBalances(b, u, Stable, now);
         e.principalStableDebt >= 0 && e.averageStableBorrowRate >= 0
       else
         0 <= RayDiv(moved, VariableIndexAt(b, now)) <= b.scaledVariableDebt
  }

  lemma SwapIsSound(b: Reserve, u: User, mode: RateMode, now: int, s: Strategy)
    requires Sound(b, now) && s.Sound() && VariableIndexAt(b, now) != 0
    requires SwapCovered(b, u, mode, now)
    ensures Balanced(SwapBalances(b, u, mode, now), now)
    ensures Priced(SwapBalances(b, u, mode, now))
    ensures Sound(AfterSwap(b, u, mode, now, s), now) && Grown(b, AfterSwap(b, u, mode, now, s))
  {
    hide TotalStableDebtAt, LiquidityIndexAt, VariableIndexAt, RayMul, RayDiv, UtilizationRate, InterestRates,
         UserStableDebt, VariableDebtBalance, AverageStableRate;
    IndicesGrow(b, now);
    StableDebtGrows(b, now);
    var index, moved := VariableIndexAt(b, now), SwapAmount(b, u, mode, now);
    RayDivNearest(moved, index);
    if mode == Stable {
      ScaleIsZeroOnlyAtZero(b.scaledVariableDebt + RayDiv(moved, index), index);
    } else {
      ScaleIsZeroOnlyAtZero(b.scaledVariableDebt - RayDiv(moved, index), index);
      AverageNonNegative(b.averageStableBorrowRate, b.totalStableDebt, moved, b.stableBorrowRate);
    }
    PricingIsSound(SwapBalances(b, u, mode, now), now, s);
  }
}
