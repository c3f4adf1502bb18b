/** The calculators that overwrite or reassign what they build, step by step as written, each
    proved to compute the expected state of `Reserves`.

    The fresh record a calculator fills starts here as the record read before the action, so
    that the accessory keys it never assigns are the ones the next read returns. */
module Calculators {
  import opened FixedPoint
  import opened Accrual
  import opened RateModel
  import opened Reserves

  method CalcExpectedReserveDataAfterDeposit(amount: int, before: Reserve, now: int, s: Strategy)
    returns (e: Reserve)
    requires s.Divisible() && Priced(DepositBalances(before, amount, now))
    ensures e == AfterDeposit(before, amount, now, s)
  {
    hide RayMul, LiquidityIndexAt, VariableIndexAt, TotalStableDebtAt, UtilizationRate, InterestRates;
    e := Stamped(before, now, false);
    e := e.(totalLiquidity := before.totalLiquidity + amount);
    e := e.(availableLiquidity := before.availableLiquidity + amount);
    e := e.(liquidityIndex := LiquidityIndexAt(before, now));
    e := e.(variableBorrowIndex := VariableIndexAt(before, now));
    e := e.(totalStableDebt := TotalStableDebtAt(before, now));
    e := e.(totalVariableDebt := RayMul(before.scaledVariableDebt, e.variableBorrowIndex));
    e := e.(utilizationRate := UtilizationRate(e.totalStableDebt, e.totalVariableDebt, e.totalLiquidity));
    var rates := CalcExpectedInterestRates(s, before.marketStableRate, e.utilizationRate,
                                           e.totalStableDebt, e.totalVariableDebt, e.averageStableBorrowRate);
    e := e.(liquidityRate := rates.liquidity, stableBorrowRate := rates.stable, variableBorrowRate := rates.variable);
  }

  method CalcExpectedReserveDataAfterWithdraw(amount: int, before: Reserve, u: User, now: int, s: Strategy)
    returns (e: Reserve)
    requires s.Divisible() && Priced(WithdrawBalances(before, u, amount, now))
    ensures e == AfterWithdraw(before, u, amount, now, s)
  {
    hide RayMul, LiquidityIndexAt, VariableIndexAt, TotalStableDebtAt, UtilizationRate, InterestRates;
    var amountWithdrawn := amount;
    if amountWithdrawn == MAX_UINT_AMOUNT {
      amountWithdrawn := ATokenBalance(before, u, now);
    }
    e := Stamped(before, now, false);
    e := e.(availableLiquidity := before.availableLiquidity - amountWithdrawn);
    e := e.(liquidityIndex := LiquidityIndexAt(before, now));
    e := e.(variableBorrowIndex := VariableIndexAt(before, now));
    e := e.(totalStableDebt := TotalStableDebtAt(before, now));
    e := e.(totalVariableDebt := RayMul(e.scaledVariableDebt, e.variableBorrowIndex));
    e := e.(totalLiquidity := before.availableLiquidity - amountWithdrawn + e.totalVariableDebt + e.totalStableDebt);
    e := e.(utilizationRate := UtilizationRate(e.totalStableDebt, e.totalVariableDebt, e.totalLiquidity));
    var rates := CalcExpectedInterestRates(s, before.marketStableRate, e.utilizationRate,
                                           e.totalStableDebt, e.totalVariableDebt, e.averageStableBorrowRate);
    e := e.(liquidityRate := rates.liquidity, stableBorrowRate := rates.stable, variableBorrowRate := rates.variable);
  }

  /** Rates are priced at the transaction from local totals; the record's own totals and
      utilization are then taken at the read time. */
  method CalcExpectedReserveDataAfterBorrow(amount: int, mode: RateMode, before: Reserve,
                                            now: int, readTime: int, s: Strategy)
    returns (e: Reserve)
    requires s.Divisible() && VariableIndexAt(before, now) != 0
    requires Priced(BorrowBalances(before, mode, amount, now))
    requires Priced(DebtsAt(Repriced(BorrowBalances(before, mode, amount, now), s), readTime))
    ensures e == AfterBorrow(before, mode, amount, now, readTime, s)
  {
    hide RayMul, RayDiv, LiquidityIndexAt, VariableIndexAt, CompoundedInterest, UtilizationRate, InterestRates,
         AverageStableRate, StableDebtBalance, NormalizedDebt;
    e := Stamped(before, now, mode == Stable);
    e := e.(liquidityIndex := LiquidityIndexAt(before, now));
    e := e.(variableBorrowIndex := VariableIndexAt(before, now));
    e := e.(availableLiquidity := before.availableLiquidity - amount);
    if mode == Stable {
      var variableAfterTx := RayMul(e.scaledVariableDebt, e.variableBorrowIndex);
      var stableUntilTx := TotalStableDebtAt(before, now);
      e := e.(principalStableDebt := stableUntilTx + amount);
      e := e.(averageStableBorrowRate :=
                AverageStableRate(before.averageStableBorrowRate, stableUntilTx, amount, before.stableBorrowRate));
      var totalAfterTx := e.availableLiquidity + e.principalStableDebt + variableAfterTx;
      var utilizationAfterTx := UtilizationRate(e.principalStableDebt, variableAfterTx, totalAfterTx);
      var rates := CalcExpectedInterestRates(s, before.marketStableRate, utilizationAfterTx,
                                             e.principalStableDebt, variableAfterTx, e.averageStableBorrowRate);
      e := e.(liquidityRate := rates.liquidity, stableBorrowRate := rates.stable, variableBorrowRate := rates.variable);
      e := e.(totalStableDebt :=
                RayMul(CompoundedInterest(e.averageStableBorrowRate, readTime - now), e.principalStableDebt));
      e := e.(totalVariableDebt :=
                RayMul(before.scaledVariableDebt,
                       NormalizedDebt(e.variableBorrowRate, e.variableBorrowIndex, now, readTime)));
      e := e.(totalLiquidity := e.availableLiquidity + e.totalVariableDebt + e.totalStableDebt);
      e := e.(utilizationRate := UtilizationRate(e.totalStableDebt, e.totalVariableDebt, e.totalLiquidity));
    } else {
      var stableAfterTx := StableDebtBalance(before.principalStableDebt, before.averageStableBorrowRate,
                                             before.totalStableDebtLastUpdated, now);
      e := e.(totalStableDebt := TotalStableDebtAt(before, readTime));
      e := e.(scaledVariableDebt := before.scaledVariableDebt + RayDiv(amount, e.variableBorrowIndex));
      var variableAfterTx := RayMul(e.scaledVariableDebt, e.variableBorrowIndex);
      var utilizationAfterTx := UtilizationRate(stableAfterTx, variableAfterTx,
                                                e.availableLiquidity + stableAfterTx + variableAfterTx);
      var rates := CalcExpectedInterestRates(s, before.marketStableRate, utilizationAfterTx,
                                             stableAfterTx, variableAfterTx, e.averageStableBorrowRate);
      e := e.(liquidityRate := rates.liquidity, stableBorrowRate := rates.stable, variableBorrowRate := rates.variable);
      e := e.(totalVariableDebt :=
                RayMul(e.scaledVariableDebt,
                       NormalizedDebt(e.variableBorrowRate, e.variableBorrowIndex, now, readTime)));
      e := e.(totalLiquidity := e.availableLiquidity + e.totalStableDebt + e.totalVariableDebt);
      e := e.(utilizationRate := UtilizationRate(e.totalStableDebt, e.totalVariableDebt, e.totalLiquidity));
    }
  }

  /** The two clamps of a stable repayment overwrite principal, total and average. */
  method CalcExpectedReserveDataAfterRepay(amount: int, mode: RateMode, before: Reserve, u: User, now: int, s: Strategy)
    returns (e: Reserve)
    requires s.Divisible() && VariableIndexAt(before, now) != 0
    requires Priced(RepayBalances(before, u, mode, amount, now))
    ensures e == AfterRepay(before, u, mode, amount, now, s)
  {
    hide RayMul, RayDiv, LiquidityIndexAt, VariableIndexAt, TotalStableDebtAt, UtilizationRate, InterestRates,
         AverageStableRate, UserStableDebt, VariableDebtBalance;
    var amountRepaid := amount;
    var userStableDebt := UserStableDebt(u, now);
    var userVariableDebt := VariableDebtBalance(before, u, now);
    if Abs(amountRepaid) == MAX_UINT_AMOUNT {
      if mode == Stable {
        amountRepaid := userStableDebt;
      } else {
        amountRepaid := userVariableDebt;
      }
    }
    e := Stamped(before, now, mode == Stable);
    e := e.(liquidityIndex := LiquidityIndexAt(before, now));
    e := e.(variableBorrowIndex := VariableIndexAt(before, now));
    if mode == Stable {
      var expectedDebt := TotalStableDebtAt(before, now);
      e := e.(principalStableDebt := expectedDebt - amountRepaid, totalStableDebt := expectedDebt - amountRepaid);
      if e.totalStableDebt < 0 {
        e := e.(principalStableDebt := 0, totalStableDebt := 0, averageStableBorrowRate := 0);
      } else {
        e := e.(averageStableBorrowRate :=
                  AverageStableRate(before.averageStableBorrowRate, expectedDebt, -amountRepaid, u.stableBorrowRate));
        if e.averageStableBorrowRate < 0 {
          e := e.(principalStableDebt := 0, totalStableDebt := 0, averageStableBorrowRate := 0);
        }
      }
      e := e.(totalVariableDebt := RayMul(e.scaledVariableDebt, e.variableBorrowIndex));
    } else {
      e := e.(scaledVariableDebt := before.scaledVariableDebt - RayDiv(amountRepaid, e.variableBorrowIndex));
      e := e.(totalVariableDebt := RayMul(e.scaledVariableDebt, e.variableBorrowIndex));
    }
    e := e.(availableLiquidity := before.availableLiquidity + amountRepaid);
    e := e.(totalLiquidity := e.availableLiquidity + e.totalStableDebt + e.totalVariableDebt);
    e := e.(utilizationRate := UtilizationRate(e.totalStableDebt, e.totalVariableDebt, e.totalLiquidity));
    var rates := CalcExpectedInterestRates(s, before.marketStableRate, e.utilizationRate,
                                           e.totalStableDebt, e.totalVariableDebt, e.averageStableBorrowRate);
    e := e.(liquidityRate := rates.liquidity, stableBorrowRate := rates.stable, variableBorrowRate := rates.variable);
  }

  method CalcExpectedReserveDataAfterSwapRateMode(before: Reserve, u: User, mode: RateMode, now: int, s: Strategy)
    returns (e: Reserve)
    requires s.Divisible() && VariableIndexAt(before, now) != 0
    requires Priced(SwapBalances(before, u, mode, now))
    ensures e == AfterSwap(before, u, mode, now, s)
  {
    hide RayMul, RayDiv, LiquidityIndexAt, VariableIndexAt, TotalStableDebtAt, UtilizationRate, InterestRates,
         AverageStableRate, UserStableDebt, VariableDebtBalance;
    var variableDebt := VariableDebtBalance(before, u, now);
    var stableDebt := UserStableDebt(u, now);
    e := Stamped(before, now, true);
    e := e.(liquidityIndex := LiquidityIndexAt(before, now));
    e := e.(variableBorrowIndex := VariableIndexAt(before, now));
    var stableUntilTx := TotalStableDebtAt(before, now);
    if mode == Stable {
      e := e.(scaledVariableDebt := before.scaledVariableDebt + RayDiv(stableDebt, e.variableBorrowIndex));
      e := e.(totalVariableDebt := RayMul(e.scaledVariableDebt, e.variableBorrowIndex));
      e := e.(principalStableDebt := stableUntilTx - stableDebt, totalStableDebt := stableUntilTx - stableDebt);
      e := e.(averageStableBorrowRate :=
                AverageStableRate(before.averageStableBorrowRate, e.principalStableDebt + stableDebt,
                                  -stableDebt, u.stableBorrowRate));
    } else {
      e := e.(principalStableDebt := stableUntilTx + variableDebt, totalStableDebt := stableUntilTx + variableDebt);
      e := e.(scaledVariableDebt := before.scaledVariableDebt - RayDiv(variableDebt, e.variableBorrowIndex));
      e := e.(totalVariableDebt := RayMul(e.scaledVariableDebt, e.variableBorrowIndex));
      e := e.(averageStableBorrowRate :=
                AverageStableRate(before.averageStableBorrowRate, before.totalStableDebt,
                                  variableDebt, before.stableBorrowRate));
    }
    e := e.(totalLiquidity := before.availableLiquidity + e.totalStableDebt + e.totalVariableDebt);
    e := e.(utilizationRate := UtilizationRate(e.totalStableDebt, e.totalVariableDebt, e.totalLiquidity));
    var rates := CalcExpectedInterestRates(s, before.marketStableRate, e.utilizationRate,
                                           e.totalStableDebt, e.totalVariableDebt, e.averageStableBorrowRate);
    e := e.(liquidityRate := rates.liquidity, stableBorrowRate := rates.stable, variableBorrowRate := rates.variable);
  }

  /** The stable principal is assigned three times; the accrued variable debt stays. */
  method CalcExpectedUserDataAfterDeposit(amount: int, before: Reserve, after: Reserve, u: User, now: int)
    returns (e: User)
    requires after.liquidityIndex != 0
    ensures e == UserAfterDeposit(before, after, u, amount, now)
  {
    hide RayMul, RayDiv, NormalizedDebt, NormalizedIncome, StableDebtBalance;
    e := u;
    e := e.(currentStableDebt := UserStableDebt(u, now));
    e := e.(currentVariableDebt := VariableDebtBalance(before, u, now));
    e := e.(principalStableDebt := u.principalStableDebt);
    e := e.(scaledATokenBalance := ScaledATokenBalance(u, after.liquidityIndex, amount, 0));
    e := e.(currentATokenBalance := ATokenBalance(before, u, now) + amount);
    var stableDebt := UserStableDebt(u, now);
    e := e.(currentStableDebt := stableDebt, principalStableDebt := stableDebt);
    var variableDebt := VariableDebtBalance(before, u, now);
    e := e.(currentVariableDebt := variableDebt, principalStableDebt := variableDebt);
  }

  method CalcExpectedUserDataAfterWithdraw(amount: int, before: Reserve, after: Reserve, u: User, now: int)
    returns (e: User)
    requires after.liquidityIndex != 0
    ensures e == UserAfterWithdraw(before, after, u, amount, now)
  {
    hide RayMul, RayDiv, NormalizedDebt, NormalizedIncome, StableDebtBalance;
    e := u;
    var amountWithdrawn := amount;
    var aTokenBalance := ATokenBalance(before, u, now);
    if amountWithdrawn == MAX_UINT_AMOUNT {
      amountWithdrawn := aTokenBalance;
    }
    e := e.(scaledATokenBalance := ScaledATokenBalance(u, after.liquidityIndex, 0, amountWithdrawn));
    e := e.(currentATokenBalance := aTokenBalance - amountWithdrawn);
    e := e.(currentStableDebt := UserStableDebt(u, now));
    e := e.(currentVariableDebt := VariableDebtBalance(before, u, now));
  }

  /** In variable mode the two stable columns come out crossed. */
  method CalcExpectedUserDataAfterRepay(amount: int, mode: RateMode, before: Reserve, after: Reserve, u: User,
                                        now: int, readTime: int)
    returns (e: User)
    requires mode != Stable ==> after.variableBorrowIndex != 0
    ensures e == UserAfterRepay(before, after, u, mode, amount, now, readTime)
  {
    hide RayMul, RayDiv, NormalizedDebt, NormalizedIncome, StableDebtBalance;
    e := u;
    var variableDebt := VariableDebtBalance(before, u, readTime);
    var stableDebt := UserStableDebt(u, readTime);
    var totalRepaid := amount;
    if Abs(totalRepaid) == MAX_UINT_AMOUNT {
      totalRepaid := if mode == Stable then stableDebt else variableDebt;
    }
    if mode == Stable {
      e := e.(currentVariableDebt := variableDebt);
      e := e.(currentStableDebt := stableDebt - totalRepaid, principalStableDebt := stableDebt - totalRepaid);
      if e.currentStableDebt == 0 {
        e := e.(stableBorrowRate := 0, stableRateLastUpdated := 0);
      } else {
        e := e.(stableRateLastUpdated := now);
      }
    } else {
      e := e.(currentStableDebt := u.principalStableDebt);
      e := e.(principalStableDebt := stableDebt);
      e := e.(scaledVariableDebt := u.scaledVariableDebt - RayDiv(totalRepaid, after.variableBorrowIndex));
      e := e.(currentVariableDebt := RayMul(e.scaledVariableDebt, after.variableBorrowIndex));
    }
    e := e.(currentATokenBalance := ATokenBalance(before, u, now));
  }

  /** Each mode fills the stable columns and the scaled debt; the current variable debt is then
      taken from the record so far, at the read time. */
  method CalcExpectedUserDataAfterBorrow(amount: int, mode: RateMode, before: Reserve, after: Reserve, u: User,
                                         now: int, readTime: int)
    returns (e: User)
    requires mode == Stable ==> UserStableDebt(u, now) + amount != 0
    requires mode != Stable ==> after.variableBorrowIndex != 0
    ensures e == UserAfterBorrow(before, after, u, mode, amount, now, readTime)
  {
    hide RayMul, RayDiv, NormalizedDebt, NormalizedIncome, StableDebtBalance, UserStableRate;
    e := u;
    if mode == Stable {
      var stableUntilTx := UserStableDebt(u, now);
      e := e.(principalStableDebt := stableUntilTx + amount);
      e := e.(stableRateLastUpdated := now);
      e := e.(stableBorrowRate := UserStableRate(stableUntilTx, u.stableBorrowRate, amount, before.stableBorrowRate));
      e := e.(currentStableDebt := StableDebtBalance(e.principalStableDebt, e.stableBorrowRate, now, readTime));
    } else {
      e := e.(scaledVariableDebt := u.scaledVariableDebt + RayDiv(amount, after.variableBorrowIndex));
      e := e.(currentStableDebt := UserStableDebt(u, readTime));
    }
    e := e.(currentVariableDebt := VariableDebtBalance(after, e, readTime));
    e := e.(currentATokenBalance := ATokenBalance(after, u, readTime));
  }

  /** A copy of the user whose columns the swap overwrites. */
  method CalcExpectedUserDataAfterSwapRateMode(before: Reserve, after: Reserve, u: User, mode: RateMode, now: int)
    returns (e: User)
    requires mode == Stable ==> after.variableBorrowIndex != 0
    requires mode != Stable ==> UserStableDebt(u, now) + VariableDebtBalance(before, u, now) != 0
    ensures e == UserAfterSwap(before, after, u, mode, now)
  {
    hide RayMul, RayDiv, NormalizedDebt, NormalizedIncome, StableDebtBalance, UserStableRate;
    e := u;
    var stableDebt := UserStableDebt(u, now);
    var variableDebt := VariableDebtBalance(before, u, now);
    e := e.(currentATokenBalance := ATokenBalance(before, u, now));
    if mode == Stable {
      e := e.(currentStableDebt := 0, principalStableDebt := 0);
      e := e.(stableBorrowRate := 0);
      e := e.(scaledVariableDebt := u.scaledVariableDebt + RayDiv(stableDebt, after.variableBorrowIndex));
      e := e.(currentVariableDebt := RayMul(e.scaledVariableDebt, after.variableBorrowIndex));
      e := e.(stableRateLastUpdated := 0);
    } else {
      e := e.(principalStableDebt := u.currentStableDebt + variableDebt, currentStableDebt := u.currentStableDebt + variableDebt);
      e := e.(stableBorrowRate := UserStableRate(stableDebt, u.stableBorrowRate, variableDebt, before.stableBorrowRate));
      e := e.(stableRateLastUpdated := now);
      e := e.(currentVariableDebt := 0, scaledVariableDebt := 0);
    }
  }

  // ---- Vault collateral ----

  method CalcExpectedReserveDataAfterDepositCollateral(amount: int, before: Reserve, after: Reserve, now: int, s: Strategy)
    returns (e: Reserve)
    requires s.Divisible() && after.liquidityIndex != 0
    requires Priced(DepositCollateralBalances(before, after, amount, now))
    ensures e == AfterDepositCollateral(before, after, amount, now, s)
  {
    hide RayMul, RayDiv, LiquidityIndexAt, VariableIndexAt, TotalStableDebtAt, UtilizationRate, InterestRates;
    e := Stamped(before, now, false);
    e := e.(totalLiquidity := before.totalLiquidity + RayDiv(amount, after.liquidityIndex));
    e := e.(availableLiquidity := before.availableLiquidity + RayDiv(amount, after.liquidityIndex));
    e := e.(liquidityIndex := LiquidityIndexAt(after, now));
    e := e.(variableBorrowIndex := VariableIndexAt(before, now));
    e := e.(totalStableDebt := TotalStableDebtAt(before, now));
    e := e.(totalVariableDebt := RayMul(before.scaledVariableDebt, e.variableBorrowIndex));
    e := e.(utilizationRate := UtilizationRate(e.totalStableDebt, e.totalVariableDebt, e.totalLiquidity));
    var rates := CalcExpectedInterestRates(s, before.marketStableRate, e.utilizationRate,
                                           e.totalStableDebt, e.totalVariableDebt, e.averageStableBorrowRate);
    e := e.(liquidityRate := rates.liquidity, stableBorrowRate := rates.stable, variableBorrowRate := rates.variable);
  }

  method CalcExpectedReserveDataAfterWithdrawCollateral(amount: int, before: Reserve, after: Reserve, u: User,
                                                        now: int, s: Strategy)
    returns (e: Reserve)
    requires s.Divisible() && after.liquidityIndex != 0
    requires Priced(WithdrawCollateralBalances(before, after, u, amount, now))
    ensures e == AfterWithdrawCollateral(before, after, u, amount, now, s)
  {
    hide RayMul, RayDiv, LiquidityIndexAt, VariableIndexAt, TotalStableDebtAt, UtilizationRate, InterestRates;
    var amountWithdrawn := amount;
    if amountWithdrawn == MAX_UINT_AMOUNT {
      amountWithdrawn := u.scaledATokenBalance;
    }
    e := Stamped(before, now, false);
    e := e.(availableLiquidity := before.availableLiquidity - RayDiv(amountWithdrawn, after.liquidityIndex));
    e := e.(liquidityIndex := LiquidityIndexAt(after, now));
    e := e.(variableBorrowIndex := VariableIndexAt(before, now));
    e := e.(totalStableDebt := TotalStableDebtAt(before, now));
    e := e.(totalVariableDebt := RayMul(e.scaledVariableDebt, e.variableBorrowIndex));
    e := e.(totalLiquidity := before.availableLiquidity - RayDiv(amountWithdrawn, after.liquidityIndex)
                              + e.totalVariableDebt + e.totalStableDebt);
    e := e.(utilizationRate := UtilizationRate(e.totalStableDebt, e.totalVariableDebt, e.totalLiquidity));
    var rates := CalcExpectedInterestRates(s, before.marketStableRate, e.utilizationRate,
                                           e.totalStableDebt, e.totalVariableDebt, e.averageStableBorrowRate);
    e := e.(liquidityRate := rates.liquidity, stableBorrowRate := rates.stable, variableBorrowRate := rates.variable);
  }

  /** The same three assignments of the stable principal as for a plain deposit. */
  method CalcExpectedUserDataAfterDepositCollateral(amount: int, before: Reserve, u: User, now: int) returns (e: User)
    ensures e == UserAfterDepositCollateral(before, u, amount, now)
  {
    hide RayMul, RayDiv, NormalizedDebt, StableDebtBalance;
    e := u;
    e := e.(scaledATokenBalance := ScaledATokenBalance(u, RAY, amount, 0));
    e := e.(currentATokenBalance := e.scaledATokenBalance);
    var stableDebt := UserStableDebt(u, now);
    e := e.(currentStableDebt := stableDebt, principalStableDebt := stableDebt);
    var variableDebt := VariableDebtBalance(before, u, now);
    e := e.(currentVariableDebt := variableDebt, principalStableDebt := variableDebt);
  }

  method CalcExpectedUserDataAfterWithdrawCollateral(amount: int, before: Reserve, u: User, now: int) returns (e: User)
    ensures e == UserAfterWithdrawCollateral(before, u, amount, now)
  {
    hide RayMul, RayDiv, NormalizedDebt, StableDebtBalance;
    e := u;
    var amountWithdrawn := amount;
    if amountWithdrawn == MAX_UINT_AMOUNT {
      amountWithdrawn := u.scaledATokenBalance;
    }
    e := e.(scaledATokenBalance := ScaledATokenBalance(u, RAY, 0, amountWithdrawn));
    e := e.(currentATokenBalance := e.scaledATokenBalance);
    e := e.(currentStableDebt := UserStableDebt(u, now));
    e := e.(currentVariableDebt := VariableDebtBalance(before, u, now));
  }
}
