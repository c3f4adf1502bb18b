/** The borrowers' side: what a user's debt becomes, and how the stable columns of a reserve
    and of its only stable borrower stay aligned. */
module Borrowers {
  import opened FixedPoint
  import opened Accrual
  import opened RateModel
  import opened Reserves
  import opened StableAverage
  import opened Soundness
  import opened Ledger
  import Supply

  // ---- Variable debt ----

  /** A variable debt after a borrow or a repayment read at its own time, as the calculator
      reports it and as the old debt plus or minus the amount. */
  lemma BorrowedDebt(b: Reserve, u: User, amount: int, now: int, s: Strategy)
    requires Sound(b, now) && s.Sound() && 0 <= amount <= b.availableLiquidity
    requires 0 <= u.scaledVariableDebt <= b.scaledVariableDebt
    ensures VariableIndexAt(b, now) != 0
    ensures Priced(BorrowBalances(b, Variable, amount, now))
    ensures Priced(DebtsAt(Repriced(BorrowBalances(b, Variable, amount, now), s), now))
    ensures var e := AfterBorrow(b, Variable, amount, now, now, s);
            && e.variableBorrowIndex == VariableIndexAt(b, now)
            && WithinStep(UserAfterBorrow(b, e, u, Variable, amount, now, now).currentVariableDebt,
                          VariableDebtBalance(b, u, now) + amount, e.variableBorrowIndex)
  {
    hide RayMul, RayDiv, VariableIndexAt, LiquidityIndexAt, TotalStableDebtAt, CompoundedInterest, UtilizationRate,
         InterestRates, StableDebtBalance, NormalizedIncome, LinearInterest;
    BorrowIsSound(b, Variable, amount, now, now, s);
    IndicesGrow(b, now);
    var index := VariableIndexAt(b, now);
    SameScaledBalance(b, u, now);
    ScaledStepError(u.scaledVariableDebt, amount, index);
    Supply.CompoundedAtZero(Repriced(BorrowBalances(b, Variable, amount, now), s).variableBorrowRate);
    RayMulByOne(index);
  }

  lemma RepaidDebt(b: Reserve, u: User, amount: int, now: int, s: Strategy)
    requires Sound(b, now) && s.Sound() && 0 <= u.scaledVariableDebt <= b.scaledVariableDebt
    requires 0 <= RepayAmount(b, u, Variable, amount, now) <= VariableDebtBalance(b, u, now)
    ensures VariableIndexAt(b, now) != 0 && Priced(RepayBalances(b, u, Variable, amount, now))
    ensures var e := AfterRepay(b, u, Variable, amount, now, s);
            && e.variableBorrowIndex == VariableIndexAt(b, now)
            && WithinStep(UserAfterRepay(b, e, u, Variable, amount, now, now).currentVariableDebt,
                          VariableDebtBalance(b, u, now) - RepayAmount(b, u, Variable, amount, now),
                          e.variableBorrowIndex)
  {
    hide RayMul, RayDiv, VariableIndexAt, LiquidityIndexAt, TotalStableDebtAt, UtilizationRate, InterestRates,
         RepayAmount, NormalizedIncome, NormalizedDebt, StableDebtBalance;
    var repaid := RepayAmount(b, u, Variable, amount, now);
    DebtUnscales(b, u, now, repaid);
    RepayIsSound(b, u, Variable, amount, now, s);
    SameScaledBalance(b, u, now);
    ScaledStepError(u.scaledVariableDebt, repaid, VariableIndexAt(b, now));
  }

  /** The user's variable debt is the scaled debt at the index the reserve will store. */
  lemma SameScaledBalance(b: Reserve, u: User, now: int)
    requires Sound(b, now) && 0 <= u.scaledVariableDebt <= b.scaledVariableDebt
    ensures VariableDebtBalance(b, u, now) == RayMul(u.scaledVariableDebt, VariableIndexAt(b, now))
  {
    hide RayMul, VariableIndexAt, NormalizedDebt;
    if u.scaledVariableDebt > 0 {
      DebtIndicesAgree(b, now);
    } else {
      RayMulByZero(VariableIndexAt(b, now));
      RayMulByZero(NormalizedDebt(b.variableBorrowRate, b.variableBorrowIndex, b.lastUpdateTimestamp, now));
    }
  }

  // ---- The only stable borrower ----

  /** The reserve's stable columns are the user's, and their interest runs from one time. The
      user's balance takes a start time of zero to mean that nothing accrues; the reserve's
      does not, so a zero start is aligned only while no rate applies. */
  ghost predicate Aligned(r: Reserve, u: User, now: int) {
    && 0 <= r.principalStableDebt == u.principalStableDebt
    && 0 <= r.averageStableBorrowRate == u.stableBorrowRate
    && (u.stableBorrowRate == 0 ||
        (0 != u.stableRateLastUpdated == r.totalStableDebtLastUpdated))
    && u.stableRateLastUpdated <= now && r.totalStableDebtLastUpdated <= now
  }

  lemma AlignedDebts(r: Reserve, u: User, now: int)
    requires Aligned(r, u, now)
    ensures TotalStableDebtAt(r, now) == UserStableDebt(u, now) >= 0
  {
    hide RayMul, CompoundedInterest;
    CompoundGrowth(r.averageStableBorrowRate, now - r.totalStableDebtLastUpdated, r.principalStableDebt);
    Supply.CompoundedAtZero(r.averageStableBorrowRate);
    RayMulByOne(r.principalStableDebt);
    RayMulCommutes(CompoundedInterest(r.averageStableBorrowRate, now - r.totalStableDebtLastUpdated),
                   r.principalStableDebt);
  }

  /** A stable borrow keeps the reserve and its only stable borrower aligned, at the
      transaction and in what both report at the read time. */
  lemma BorrowKeepsAligned(b: Reserve, u: User, amount: int, now: int, readTime: int, s: Strategy)
    requires Sound(b, now) && s.Sound() && Aligned(b, u, now)
    requires 0 < amount <= b.availableLiquidity && 0 < now <= readTime
    ensures VariableIndexAt(b, now) != 0
    ensures Priced(BorrowBalances(b, Stable, amount, now))
    ensures Priced(DebtsAt(Repriced(BorrowBalances(b, Stable, amount, now), s), readTime))
    ensures UserStableDebt(u, now) + amount != 0
    ensures var e := AfterBorrow(b, Stable, amount, now, readTime, s);
            var v := UserAfterBorrow(b, e, u, Stable, amount, now, readTime);
            Aligned(e, v, readTime) && e.totalStableDebt == v.currentStableDebt
  {
    hide RayMul, RayDiv, VariableIndexAt, LiquidityIndexAt, CompoundedInterest, UtilizationRate, InterestRates,
         NormalizedIncome, NormalizedDebt, StableDebtBalance;
    BorrowIsSound(b, Stable, amount, now, readTime, s);
    AlignedDebts(b, u, now);
    var debt := UserStableDebt(u, now);
    SameAverage(debt, u.stableBorrowRate, amount, b.stableBorrowRate);
    AverageNonNegative(u.stableBorrowRate, debt, amount, b.stableBorrowRate);
    var e := AfterBorrow(b, Stable, amount, now, readTime, s);
    var v := UserAfterBorrow(b, e, u, Stable, amount, now, readTime);
    AlignedDebts(e, v, readTime);
  }

  /** The user's weighted rate is the reserve's average over the same debt. */
  lemma SameAverage(debt: int, rate: int, amount: int, newRate: int)
    requires debt + amount != 0
    ensures UserStableRate(debt, rate, amount, newRate) == AverageStableRate(rate, debt, amount, newRate)
  {
    assert debt * rate == rate * debt && amount * newRate == newRate * amount;
  }

  /** So does a stable repayment of part or all of the debt: the average is not disturbed, no
      clamp applies, and a full repayment clears both records. */
  lemma RepayKeepsAligned(b: Reserve, u: User, amount: int, now: int, s: Strategy)
    requires Sound(b, now) && s.Sound() && Aligned(b, u, now) && now > 0
    requires 0 <= RepayAmount(b, u, Stable, amount, now) <= UserStableDebt(u, now)
    ensures VariableIndexAt(b, now) != 0 && Priced(RepayBalances(b, u, Stable, amount, now))
    ensures var e := AfterRepay(b, u, Stable, amount, now, s);
            var v := UserAfterRepay(b, e, u, Stable, amount, now, now);
            && Aligned(e, v, now)
            && e.principalStableDebt == UserStableDebt(u, now) - RepayAmount(b, u, Stable, amount, now)
            && (amount == MAX_UINT_AMOUNT ==> e.principalStableDebt == 0 && v.stableRateLastUpdated == 0)
  {
    hide RayMul, RayDiv, VariableIndexAt, LiquidityIndexAt, TotalStableDebtAt, UtilizationRate, InterestRates,
         NormalizedIncome, NormalizedDebt, UserStableDebt, StableLeft;
    IndicesGrow(b, now);
    AlignedDebts(b, u, now);
    var debt, repaid := UserStableDebt(u, now), RepayAmount(b, u, Stable, amount, now);
    RepayIsSound(b, u, Stable, amount, now, s);
    SameRateLeft(debt, u.stableBorrowRate, repaid);
  }

  lemma SameRateLeft(debt: int, rate: int, repaid: int)
    requires 0 <= repaid <= debt && rate >= 0
    ensures StableLeft(debt, rate, repaid, rate) == (debt - repaid, if repaid == debt then 0 else rate)
  {
    if repaid < debt {
      assert rate * debt + rate * (-repaid) == (debt - repaid) * rate;
      ProductNonNegative(debt - repaid, rate);
      QuotientUnique((debt - repaid) * rate, debt - repaid, rate);
    }
  }

  /** A swap to variable clears both records. A swap to stable keeps them aligned if the stable
      debts were read at its own time; the user's calculator adds to the debt as read, so the
      principals agree exactly if that one was. */
  lemma SwapKeepsAligned(b: Reserve, u: User, mode: RateMode, now: int, s: Strategy)
    requires Sound(b, now) && s.Sound() && Aligned(b, u, now) && now > 0
    requires 0 <= u.scaledVariableDebt <= b.scaledVariableDebt
    requires mode != Stable ==> UserStableDebt(u, now) + VariableDebtBalance(b, u, now) != 0
    ensures VariableIndexAt(b, now) != 0 && Priced(SwapBalances(b, u, mode, now))
    ensures var e := AfterSwap(b, u, mode, now, s);
            var v := UserAfterSwap(b, e, u, mode, now);
            && (mode == Stable ==> Aligned(e, v, now) && e.principalStableDebt == 0)
            && (mode != Stable ==> (e.principalStableDebt == v.principalStableDebt <==> u.currentStableDebt == UserStableDebt(u, now)))
            && (mode != Stable && u.currentStableDebt == UserStableDebt(u, now) && b.totalStableDebt == TotalStableDebtAt(b, now) ==>
                  Aligned(e, v, now))
  {
    hide RayMul, RayDiv, VariableIndexAt, LiquidityIndexAt, TotalStableDebtAt, UtilizationRate, InterestRates,
         NormalizedIncome, NormalizedDebt, UserStableDebt, AverageStableRate, UserStableRate, VariableDebtBalance;
    IndicesGrow(b, now);
    AlignedDebts(b, u, now);
    var debt := UserStableDebt(u, now);
    NothingLeft(b.averageStableBorrowRate, debt, u.stableBorrowRate);
    if mode != Stable {
      VariableDebtNonNegative(b, u, now);
      var moved := VariableDebtBalance(b, u, now);
      DebtUnscales(b, u, now, moved);
      SameAverage(debt, u.stableBorrowRate, moved, b.stableBorrowRate);
      AverageNonNegative(u.stableBorrowRate, debt, moved, b.stableBorrowRate);
    }
    SwapIsSound(b, u, mode, now, s);
  }

  lemma NothingLeft(average: int, debt: int, rate: int)
    ensures AverageStableRate(average, debt, -debt, rate) == 0
  {
  }
}
