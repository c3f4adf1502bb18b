/** What each action moves between cash, debts and balances, for explicit amounts and for the
    maximum amount, on the reserve's side and on the user's. */
module Moves {
  import opened FixedPoint
  import opened RateModel
  import opened Reserves
  import opened Soundness

  /** No debt of the reserve is rebased or moved. */
  ghost predicate DebtsRest(b: Reserve, e: Reserve) {
    && e.scaledVariableDebt == b.scaledVariableDebt
    && e.principalStableDebt == b.principalStableDebt
    && e.averageStableBorrowRate == b.averageStableBorrowRate
  }

  /** A deposit adds its amount to the cash and to the supplier's balance, and the amount at the
      new index to the scaled balance; debts rest. */
  lemma DepositMoves(b: Reserve, u: User, amount: int, now: int, s: Strategy)
    requires Sound(b, now) && s.Sound() && amount >= 0
    ensures Priced(DepositBalances(b, amount, now)) && AfterDeposit(b, amount, now, s).liquidityIndex >= RAY
    ensures var e := AfterDeposit(b, amount, now, s);
            var v := UserAfterDeposit(b, e, u, amount, now);
            && e.availableLiquidity - b.availableLiquidity == amount
            && e.totalLiquidity - b.totalLiquidity == amount
            && v.currentATokenBalance - ATokenBalance(b, u, now) == amount
            && v.scaledATokenBalance - u.scaledATokenBalance == RayDiv(amount, e.liquidityIndex)
            && DebtsRest(b, e) && v.scaledVariableDebt == u.scaledVariableDebt
  {
    hide RayMul, RayDiv, LiquidityIndexAt, VariableIndexAt, TotalStableDebtAt, UtilizationRate, InterestRates,
         ATokenBalance, VariableDebtBalance, UserStableDebt;
    DepositIsSound(b, amount, now, s);
    RayDivOfZero(AfterDeposit(b, amount, now, s).liquidityIndex);
  }

  /** A withdrawal takes its explicit amount, or with the maximum amount the whole balance, out of
      the cash and the supplier's balance, and the same at the new index out of the scaled
      balance; debts rest. */
  lemma WithdrawMoves(b: Reserve, u: User, amount: int, now: int, s: Strategy)
    requires Sound(b, now) && s.Sound()
    requires (if amount == MAX_UINT_AMOUNT then ATokenBalance(b, u, now) else amount) <= b.availableLiquidity
    ensures Priced(WithdrawBalances(b, u, amount, now)) && AfterWithdraw(b, u, amount, now, s).liquidityIndex >= RAY
    ensures var e := AfterWithdraw(b, u, amount, now, s);
            var v := UserAfterWithdraw(b, e, u, amount, now);
            && (amount != MAX_UINT_AMOUNT ==>
                  && b.availableLiquidity - e.availableLiquidity == amount
                  && ATokenBalance(b, u, now) - v.currentATokenBalance == amount
                  && u.scaledATokenBalance - v.scaledATokenBalance == RayDiv(amount, e.liquidityIndex))
            && (amount == MAX_UINT_AMOUNT ==>
                  && b.availableLiquidity - e.availableLiquidity == ATokenBalance(b, u, now)
                  && v.currentATokenBalance == 0
                  && u.scaledATokenBalance - v.scaledATokenBalance == RayDiv(ATokenBalance(b, u, now), e.liquidityIndex))
            && DebtsRest(b, e) && v.scaledVariableDebt == u.scaledVariableDebt
  {
    hide RayMul, RayDiv, LiquidityIndexAt, VariableIndexAt, TotalStableDebtAt, UtilizationRate, InterestRates,
         ATokenBalance, VariableDebtBalance, UserStableDebt;
    WithdrawIsSound(b, u, amount, now, s);
    RayDivOfZero(AfterWithdraw(b, u, amount, now, s).liquidityIndex);
  }

  /** A borrow takes its amount out of the cash. In variable mode it adds the amount at the new
      index to both scaled debts; in stable mode it adds the amount to both accrued stable debts,
      which become the principals. Supplies rest. */
  lemma BorrowMoves(b: Reserve, u: User, mode: RateMode, amount: int, now: int, readTime: int, s: Strategy)
    requires Sound(b, now) && s.Sound() && 0 < amount <= b.availableLiquidity && now <= readTime
    requires u.principalStableDebt >= 0 && u.stableBorrowRate >= 0 && u.stableRateLastUpdated <= now
    ensures VariableIndexAt(b, now) != 0
    ensures Priced(BorrowBalances(b, mode, amount, now))
    ensures Priced(DebtsAt(Repriced(BorrowBalances(b, mode, amount, now), s), readTime))
    ensures AfterBorrow(b, mode, amount, now, readTime, s).variableBorrowIndex >= RAY
    ensures mode == Stable ==> UserStableDebt(u, now) + amount != 0
    ensures var e := AfterBorrow(b, mode, amount, now, readTime, s);
            var v := UserAfterBorrow(b, e, u, mode, amount, now, readTime);
            && b.availableLiquidity - e.availableLiquidity == amount
            && v.scaledATokenBalance == u.scaledATokenBalance
            && (mode != Stable ==>
                  && e.scaledVariableDebt - b.scaledVariableDebt == RayDiv(amount, e.variableBorrowIndex)
                  && v.scaledVariableDebt - u.scaledVariableDebt == RayDiv(amount, e.variableBorrowIndex)
                  && e.principalStableDebt == b.principalStableDebt
                  && v.principalStableDebt == u.principalStableDebt
                  && e.averageStableBorrowRate == b.averageStableBorrowRate && v.stableBorrowRate == u.stableBorrowRate
                  && v.stableRateLastUpdated == u.stableRateLastUpdated)
            && (mode == Stable ==>
                  && e.principalStableDebt - TotalStableDebtAt(b, now) == amount
                  && v.principalStableDebt - UserStableDebt(u, now) == amount
                  && e.scaledVariableDebt == b.scaledVariableDebt && v.scaledVariableDebt == u.scaledVariableDebt
                  && e.totalStableDebtLastUpdated == now && v.stableRateLastUpdated == now)
  {
    hide RayMul, RayDiv, LiquidityIndexAt, VariableIndexAt, TotalStableDebtAt, UtilizationRate, InterestRates,
         ATokenBalance, VariableDebtBalance, UserStableDebt, StableDebtBalance, AverageStableRate, UserStableRate, NormalizedDebt;
    BorrowIsSound(b, mode, amount, now, readTime, s);
    UserDebtNonNegative(u, now);
  }

  lemma UserDebtNonNegative(u: User, now: int)
    requires u.principalStableDebt >= 0 && u.stableBorrowRate >= 0 && u.stableRateLastUpdated <= now
    ensures UserStableDebt(u, now) >= 0
  {
    hide RayMul;
    StableBalanceGrows(u.principalStableDebt, u.stableBorrowRate, u.stableRateLastUpdated, now);
  }

  /** A variable repayment adds its explicit amount, or with the maximum amount the user's debt,
      to the cash, and takes the same at the new index out of the scaled debts; the user's side is
      the debt of the read time. Stable debts and supplies rest. */
  lemma VariableRepayMoves(b: Reserve, u: User, amount: int, now: int, readTime: int, s: Strategy)
    requires Sound(b, now) && s.Divisible() && VariableIndexAt(b, now) != 0
    requires Priced(RepayBalances(b, u, Variable, amount, now))
    ensures var e := AfterRepay(b, u, Variable, amount, now, s);
            var v := UserAfterRepay(b, e, u, Variable, amount, now, readTime);
            && e.variableBorrowIndex == VariableIndexAt(b, now)
            && (Abs(amount) != MAX_UINT_AMOUNT ==>
                  && e.availableLiquidity - b.availableLiquidity == amount
                  && b.scaledVariableDebt - e.scaledVariableDebt == RayDiv(amount, e.variableBorrowIndex)
                  && u.scaledVariableDebt - v.scaledVariableDebt == RayDiv(amount, e.variableBorrowIndex))
            && (Abs(amount) == MAX_UINT_AMOUNT ==>
                  && e.availableLiquidity - b.availableLiquidity == VariableDebtBalance(b, u, now)
                  && b.scaledVariableDebt - e.scaledVariableDebt == RayDiv(VariableDebtBalance(b, u, now), e.variableBorrowIndex)
                  && u.scaledVariableDebt - v.scaledVariableDebt
                     == RayDiv(VariableDebtBalance(b, u, readTime), e.variableBorrowIndex))
            && e.principalStableDebt == b.principalStableDebt && e.averageStableBorrowRate == b.averageStableBorrowRate
            && v.stableBorrowRate == u.stableBorrowRate && v.stableRateLastUpdated == u.stableRateLastUpdated
            && v.scaledATokenBalance == u.scaledATokenBalance
  {
    hide RayMul, RayDiv, LiquidityIndexAt, VariableIndexAt, TotalStableDebtAt, UtilizationRate, InterestRates,
         ATokenBalance, VariableDebtBalance, UserStableDebt;
  }

  /** A stable repayment adds its explicit amount, or with the maximum amount the user's debt, to
      the cash and takes the same out of both accrued stable debts, the user's of the read time;
      the reserve's is erased where a clamp applies. A user left without debt has no rate and no
      start time. Variable debts and supplies rest. */
  lemma StableRepayMoves(b: Reserve, u: User, amount: int, now: int, readTime: int, s: Strategy)
    requires Sound(b, now) && s.Divisible() && VariableIndexAt(b, now) != 0
    requires Priced(RepayBalances(b, u, Stable, amount, now))
    ensures var e := AfterRepay(b, u, Stable, amount, now, s);
            var v := UserAfterRepay(b, e, u, Stable, amount, now, readTime);
            var reserveDebt, userDebt := TotalStableDebtAt(b, now), UserStableDebt(u, readTime);
            && (Abs(amount) != MAX_UINT_AMOUNT ==>
                  && e.availableLiquidity - b.availableLiquidity == amount
                  && (e.principalStableDebt == 0 || reserveDebt - e.principalStableDebt == amount)
                  && userDebt - v.principalStableDebt == amount)
            && (Abs(amount) == MAX_UINT_AMOUNT ==>
                  && e.availableLiquidity - b.availableLiquidity == UserStableDebt(u, now)
                  && (e.principalStableDebt == 0 || reserveDebt - e.principalStableDebt == UserStableDebt(u, now))
                  && v.principalStableDebt == 0)
            && e.scaledVariableDebt == b.scaledVariableDebt && v.scaledVariableDebt == u.scaledVariableDebt
            && (v.principalStableDebt == 0 ==> v.stableBorrowRate == 0 && v.stableRateLastUpdated == 0)
            && (v.principalStableDebt != 0 ==> v.stableBorrowRate == u.stableBorrowRate && v.stableRateLastUpdated == now)
            && e.totalStableDebtLastUpdated == now && v.scaledATokenBalance == u.scaledATokenBalance
  {
    hide RayMul, RayDiv, LiquidityIndexAt, VariableIndexAt, TotalStableDebtAt, UtilizationRate, InterestRates,
         ATokenBalance, VariableDebtBalance, UserStableDebt, AverageStableRate;
  }

  /** A swap leaves the cash. To variable it takes the user's accrued stable debt out of the
      reserve's and adds it at the new index to both scaled debts, leaving the user no stable
      debt; to stable it does the reverse with the user's variable debt, adding it to the stable
      debt as read on the user's side. */
  lemma SwapMoves(b: Reserve, u: User, mode: RateMode, now: int, s: Strategy)
    requires Sound(b, now) && s.Divisible() && VariableIndexAt(b, now) != 0
    requires Priced(SwapBalances(b, u, mode, now))
    requires mode != Stable ==> UserStableDebt(u, now) + VariableDebtBalance(b, u, now) != 0
    ensures var e := AfterSwap(b, u, mode, now, s);
            var v := UserAfterSwap(b, e, u, mode, now);
            && e.availableLiquidity == b.availableLiquidity && v.scaledATokenBalance == u.scaledATokenBalance
            && e.variableBorrowIndex == VariableIndexAt(b, now) && e.totalStableDebtLastUpdated == now
            && (mode == Stable ==>
                  && TotalStableDebtAt(b, now) - e.principalStableDebt == UserStableDebt(u, now)
                  && e.scaledVariableDebt - b.scaledVariableDebt == RayDiv(UserStableDebt(u, now), e.variableBorrowIndex)
                  && v.scaledVariableDebt - u.scaledVariableDebt == RayDiv(UserStableDebt(u, now), e.variableBorrowIndex)
                  && v.principalStableDebt == v.stableBorrowRate == v.stableRateLastUpdated == 0)
            && (mode != Stable ==>
                  && e.principalStableDebt - TotalStableDebtAt(b, now) == VariableDebtBalance(b, u, now)
                  && b.scaledVariableDebt - e.scaledVariableDebt == RayDiv(VariableDebtBalance(b, u, now), e.variableBorrowIndex)
                  && v.principalStableDebt - u.currentStableDebt == VariableDebtBalance(b, u, now)
                  && v.scaledVariableDebt == 0 && v.stableRateLastUpdated == now)
  {
    hide RayMul, RayDiv, LiquidityIndexAt, VariableIndexAt, TotalStableDebtAt, UtilizationRate, InterestRates,
         ATokenBalance, VariableDebtBalance, UserStableDebt, AverageStableRate, UserStableRate;
  }

  // ---- Yearly stable interest ----

  /** A rate over a debt carries a yearly interest, up to truncation toward zero. */
  ghost predicate Carries(rate: int, debt: int, interest: int) { interest - debt < debt * rate < interest + debt }

  lemma AverageCarries(average: int, total: int, change: int, rate: int)
    requires total + change > 0
    ensures Carries(AverageStableRate(average, total, change, rate), total + change, average * total + rate * change)
  {
    TruncationBounds(average * total + rate * change, total + change);
  }

  lemma WeightedCarries(balance: int, rate: int, amount: int, newRate: int)
    requires balance + amount > 0
    ensures Carries(UserStableRate(balance, rate, amount, newRate), balance + amount, balance * rate + amount * newRate)
  {
    TruncationBounds(balance * rate + amount * newRate, balance + amount);
  }

  /** A stable borrow adds its interest at the reserve's stable rate, to the reserve's and to the
      user's yearly interest. */
  lemma BorrowAddsInterest(b: Reserve, u: User, amount: int, now: int, readTime: int, s: Strategy)
    requires Sound(b, now) && s.Sound() && 0 < amount <= b.availableLiquidity && now <= readTime
    requires u.principalStableDebt >= 0 && u.stableBorrowRate >= 0 && u.stableRateLastUpdated <= now
    ensures VariableIndexAt(b, now) != 0
    ensures Priced(BorrowBalances(b, Stable, amount, now))
    ensures Priced(DebtsAt(Repriced(BorrowBalances(b, Stable, amount, now), s), readTime))
    ensures UserStableDebt(u, now) + amount != 0
    ensures var e := AfterBorrow(b, Stable, amount, now, readTime, s);
            var v := UserAfterBorrow(b, e, u, Stable, amount, now, readTime);
            && Carries(e.averageStableBorrowRate, e.principalStableDebt,
                       b.averageStableBorrowRate * TotalStableDebtAt(b, now) + b.stableBorrowRate * amount)
            && Carries(v.stableBorrowRate, v.principalStableDebt,
                       UserStableDebt(u, now) * u.stableBorrowRate + amount * b.stableBorrowRate)
  {
    hide RayMul, RayDiv, LiquidityIndexAt, VariableIndexAt, TotalStableDebtAt, UtilizationRate, InterestRates,
         ATokenBalance, VariableDebtBalance, UserStableDebt, AverageStableRate, UserStableRate, NormalizedDebt, Carries,
         StableDebtBalance;
    BorrowIsSound(b, Stable, amount, now, readTime, s);
    StableDebtGrows(b, now);
    UserDebtNonNegative(u, now);
    AverageCarries(b.averageStableBorrowRate, TotalStableDebtAt(b, now), amount, b.stableBorrowRate);
    WeightedCarries(UserStableDebt(u, now), u.stableBorrowRate, amount, b.stableBorrowRate);
  }

  /** A stable repayment that leaves debt takes the interest at the user's rate off. */
  lemma RepayTakesInterest(b: Reserve, u: User, amount: int, now: int, s: Strategy)
    requires Sound(b, now) && s.Divisible() && VariableIndexAt(b, now) != 0
    requires Priced(RepayBalances(b, u, Stable, amount, now))
    ensures var e := AfterRepay(b, u, Stable, amount, now, s);
            var repaid := if Abs(amount) == MAX_UINT_AMOUNT then UserStableDebt(u, now) else amount;
            e.principalStableDebt > 0 ==>
              Carries(e.averageStableBorrowRate, e.principalStableDebt,
                      b.averageStableBorrowRate * TotalStableDebtAt(b, now) - u.stableBorrowRate * repaid)
  {
    hide RayMul, RayDiv, LiquidityIndexAt, VariableIndexAt, TotalStableDebtAt, UtilizationRate, InterestRates,
         UserStableDebt, AverageStableRate, Carries;
    var repaid := if Abs(amount) == MAX_UINT_AMOUNT then UserStableDebt(u, now) else amount;
    if repaid < TotalStableDebtAt(b, now) {
      AverageCarries(b.averageStableBorrowRate, TotalStableDebtAt(b, now), -repaid, u.stableBorrowRate);
      assert u.stableBorrowRate * (-repaid) == -(u.stableBorrowRate * repaid);
    }
  }

  /** A swap to variable takes the moved debt's interest at the user's rate off; a swap to stable
      adds it at the reserve's stable rate, to the average over the stable debt as read. */
  lemma SwapMovesInterest(b: Reserve, u: User, mode: RateMode, now: int, s: Strategy)
    requires Sound(b, now) && s.Divisible() && VariableIndexAt(b, now) != 0
    requires Priced(SwapBalances(b, u, mode, now))
    requires mode != Stable ==> UserStableDebt(u, now) + VariableDebtBalance(b, u, now) > 0
    ensures var e := AfterSwap(b, u, mode, now, s);
            var v := UserAfterSwap(b, e, u, mode, now);
            var moved := if mode == Stable then UserStableDebt(u, now) else VariableDebtBalance(b, u, now);
            && (mode == Stable && e.principalStableDebt > 0 ==>
                  Carries(e.averageStableBorrowRate, e.principalStableDebt,
                          b.averageStableBorrowRate * TotalStableDebtAt(b, now) - u.stableBorrowRate * moved))
            && (mode != Stable && b.totalStableDebt + moved > 0 ==>
                  Carries(e.averageStableBorrowRate, b.totalStableDebt + moved,
                          b.averageStableBorrowRate * b.totalStableDebt + b.stableBorrowRate * moved))
            && (mode != Stable ==>
                  Carries(v.stableBorrowRate, UserStableDebt(u, now) + moved,
                          UserStableDebt(u, now) * u.stableBorrowRate + moved * b.stableBorrowRate))
  {
    hide RayMul, RayDiv, LiquidityIndexAt, VariableIndexAt, TotalStableDebtAt, UtilizationRate, InterestRates,
         UserStableDebt, VariableDebtBalance, AverageStableRate, UserStableRate, Carries;
    var moved := if mode == Stable then UserStableDebt(u, now) else VariableDebtBalance(b, u, now);
    if mode == Stable {
      if moved < TotalStableDebtAt(b, now) {
        AverageCarries(b.averageStableBorrowRate, TotalStableDebtAt(b, now), -moved, u.stableBorrowRate);
        assert u.stableBorrowRate * (-moved) == -(u.stableBorrowRate * moved);
      }
    } else {
      if b.totalStableDebt + moved > 0 {
        AverageCarries(b.averageStableBorrowRate, b.totalStableDebt, moved, b.stableBorrowRate);
      }
      WeightedCarries(UserStableDebt(u, now), u.stableBorrowRate, moved, b.stableBorrowRate);
    }
  }
}
