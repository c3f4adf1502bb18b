/** Value moves, it is not made: what an action does to total liquidity, and how the
    reserve's debt relates to the sum of its users' rounded debts. */
module Flows {
  import opened FixedPoint
  import opened Accrual
  import opened RateModel
  import opened Reserves
  import opened Soundness
  import opened StableAverage
  import opened Ledger
  import Supply

  /** A deposit's parts are the accrued value plus the amount; its total adds the amount to the
      total as read, and so falls short by exactly the interest accrued since that read. */
  lemma DepositShortfall(b: Reserve, amount: int, now: int, s: Strategy)
    requires s.Divisible() && Priced(DepositBalances(b, amount, now)) && Adds(b)
    ensures var e := AfterDeposit(b, amount, now, s);
            var parts := e.availableLiquidity + e.totalStableDebt + e.totalVariableDebt;
            && parts == AccruedValue(b, now) + amount
            && parts - e.totalLiquidity
               == (TotalStableDebtAt(b, now) - b.totalStableDebt)
                + (RayMul(b.scaledVariableDebt, VariableIndexAt(b, now)) - b.totalVariableDebt)
  {
    hide RayMul, VariableIndexAt, LiquidityIndexAt, TotalStableDebtAt, UtilizationRate, InterestRates;
  }

  /** A withdrawal takes its amount out of the accrued value. */
  lemma WithdrawTakesAmount(b: Reserve, u: User, amount: int, now: int, s: Strategy)
    requires s.Divisible() && Priced(WithdrawBalances(b, u, amount, now))
    ensures AfterWithdraw(b, u, amount, now, s).totalLiquidity
         == AccruedValue(b, now) - WithdrawAmount(b, u, amount, now)
  {
    hide RayMul, VariableIndexAt, LiquidityIndexAt, TotalStableDebtAt, UtilizationRate, InterestRates, WithdrawAmount;
  }

  /** A stable borrow moves value exactly. */
  lemma StableBorrowMovesValue(b: Reserve, amount: int, now: int)
    requires VariableIndexAt(b, now) != 0
    ensures BorrowBalances(b, Stable, amount, now).totalLiquidity == AccruedValue(b, now)
  {
    hide RayMul, VariableIndexAt, LiquidityIndexAt, TotalStableDebtAt, AverageStableRate;
  }

  /** A stable repayment conserves value exactly unless a clamp erases what is left: when it
      exceeds the debt, or outweighs the average by a whole unit of rate. */
  lemma StableRepayConservesExactlyUnclamped(b: Reserve, u: User, amount: int, now: int)
    requires VariableIndexAt(b, now) != 0
    ensures var debt, repaid := TotalStableDebtAt(b, now), RepayAmount(b, u, Stable, amount, now);
            RepayBalances(b, u, Stable, amount, now).totalLiquidity == AccruedValue(b, now) <==>
              repaid == debt
              || (repaid < debt
                  && u.stableBorrowRate * repaid - b.averageStableBorrowRate * debt < debt - repaid)
  {
    hide RayMul, VariableIndexAt, LiquidityIndexAt, TotalStableDebtAt, RepayAmount, StableLeft;
    RepaymentClamps(TotalStableDebtAt(b, now), b.averageStableBorrowRate,
                    RepayAmount(b, u, Stable, amount, now), u.stableBorrowRate);
  }

  /** Every other action restates the total from its parts, whatever the mode. */
  lemma OtherTotalsAdd(b: Reserve, u: User, mode: RateMode, amount: int, now: int, readTime: int, s: Strategy)
    requires s.Divisible() && VariableIndexAt(b, now) != 0
    ensures Priced(WithdrawBalances(b, u, amount, now)) ==> Adds(AfterWithdraw(b, u, amount, now, s))
    ensures Priced(RepayBalances(b, u, mode, amount, now)) ==> Adds(AfterRepay(b, u, mode, amount, now, s))
    ensures Priced(SwapBalances(b, u, mode, now)) ==> Adds(AfterSwap(b, u, mode, now, s))
    ensures Priced(BorrowBalances(b, mode, amount, now))
            && Priced(DebtsAt(Repriced(BorrowBalances(b, mode, amount, now), s), readTime)) ==>
              Adds(AfterBorrow(b, mode, amount, now, readTime, s))
  {
    hide RayMul, RayDiv, VariableIndexAt, LiquidityIndexAt, TotalStableDebtAt, UtilizationRate, InterestRates,
         WithdrawAmount, RepayAmount, StableLeft, AverageStableRate, StableDebtBalance, NormalizedDebt,
         UserStableDebt, VariableDebtBalance, BorrowBalances;
  }

  /** The interest both debts earn between two times. */
  function InterestBetween(r: Reserve, start: int, end: int): int { AccruedValue(r, end) - AccruedValue(r, start) }

  /** A variable borrow turns cash into debt, and whenever it is read reports the interest
      since the transaction on top. */
  lemma BorrowMovesValue(b: Reserve, amount: int, now: int, readTime: int, s: Strategy)
    requires Sound(b, now) && s.Sound() && 0 <= amount <= b.availableLiquidity && now <= readTime
    ensures VariableIndexAt(b, now) != 0
    ensures Priced(BorrowBalances(b, Variable, amount, now))
    ensures Priced(DebtsAt(Repriced(BorrowBalances(b, Variable, amount, now), s), readTime))
    ensures var earned := InterestBetween(Repriced(BorrowBalances(b, Variable, amount, now), s), now, readTime);
            && earned >= 0
            && WithinStep(AccruedValue(b, now) + earned,
                         AfterBorrow(b, Variable, amount, now, readTime, s).totalLiquidity, VariableIndexAt(b, now))
  {
    hide RayMul, RayDiv, VariableIndexAt, LiquidityIndexAt, TotalStableDebtAt, UtilizationRate, InterestRates,
         StableDebtBalance, NormalizedDebt;
    BorrowBalancesSound(b, Variable, amount, now, s);
    BorrowIsSound(b, Variable, amount, now, readTime, s);
    IndicesGrow(b, now);
    var index := VariableIndexAt(b, now);
    ScaledStepError(b.scaledVariableDebt, amount, index);
    var e := Repriced(BorrowBalances(b, Variable, amount, now), s);
    SameStable(b, e, now);
    Supply.ReadAtStoredIndex(e, now);
    Supply.ReadAtStoredIndex(e, readTime);
    Supply.DebtsGrow(e, now, readTime);
    StampedIndex(e, now);
  }

  lemma StampedIndex(e: Reserve, now: int)
    requires e.variableBorrowIndex >= 0 && e.lastUpdateTimestamp == now
    ensures VariableIndexAt(e, now) == e.variableBorrowIndex
  {
    RayMulByOne(e.variableBorrowIndex);
  }

  /** A variable repayment turns debt into cash; its total keeps the stable debt as read, and so
      misses exactly the stable interest since that read. */
  lemma RepayMovesValue(b: Reserve, u: User, amount: int, now: int, s: Strategy)
    requires Sound(b, now) && s.Sound()
    requires 0 <= u.scaledVariableDebt <= b.scaledVariableDebt
    requires 0 <= RepayAmount(b, u, Variable, amount, now) <= VariableDebtBalance(b, u, now)
    ensures VariableIndexAt(b, now) != 0 && Priced(RepayBalances(b, u, Variable, amount, now))
    ensures var missed := TotalStableDebtAt(b, now) - b.totalStableDebt;
            WithinStep(AccruedValue(b, now) - missed, AfterRepay(b, u, Variable, amount, now, s).totalLiquidity,
                      VariableIndexAt(b, now))
  {
    hide RayMul, RayDiv, VariableIndexAt, LiquidityIndexAt, TotalStableDebtAt, UtilizationRate, InterestRates,
         RepayAmount, VariableDebtBalance;
    var repaid := RepayAmount(b, u, Variable, amount, now);
    DebtUnscales(b, u, now, repaid);
    RepayIsSound(b, u, Variable, amount, now, s);
    ScaledStepError(b.scaledVariableDebt, repaid, VariableIndexAt(b, now));
  }

  /** A swap, in either direction, turns one kind of debt into the other. */
  lemma SwapMovesValue(b: Reserve, u: User, mode: RateMode, now: int, s: Strategy)
    requires Sound(b, now) && s.Sound() && VariableIndexAt(b, now) != 0 && SwapCovered(b, u, mode, now)
    requires 0 <= u.scaledVariableDebt <= b.scaledVariableDebt
    ensures Priced(SwapBalances(b, u, mode, now))
    ensures WithinStep(AccruedValue(b, now), AfterSwap(b, u, mode, now, s).totalLiquidity, VariableIndexAt(b, now))
  {
    hide RayMul, RayDiv, VariableIndexAt, LiquidityIndexAt, TotalStableDebtAt, UtilizationRate, InterestRates,
         UserStableDebt, VariableDebtBalance, AverageStableRate;
    SwapIsSound(b, u, mode, now, s);
    IndicesGrow(b, now);
    ScaledStepError(b.scaledVariableDebt, SwapAmount(b, u, mode, now), VariableIndexAt(b, now));
  }

  // ---- Users' balances against the reserve's ----

  /** The sum of the users' individually rounded variable debts. */
  function SumOfBalances(accounts: seq<Account>, index: int): int {
    if accounts == [] then 0
    else RayMul(accounts[0].scaledVariableDebt, index) + SumOfBalances(accounts[1..], index)
  }

  lemma {:induction false} EachBalanceRoundsOnce(accounts: seq<Account>, index: int)
    requires DebtsNonNegative(accounts) && index >= 0
    ensures Abs(2 * RAY * SumOfBalances(accounts, index) - 2 * (index * TotalDebt(accounts))) <= RAY * |accounts|
  {
    if accounts == [] {
      assert index * TotalDebt(accounts) == 0;
    } else {
      hide RayMul, TotalDebt, SumOfBalances;
      var first, rest := accounts[0].scaledVariableDebt, accounts[1..];
      EachBalanceRoundsOnce(rest, index);
      RayMulNearest(first, index);
      FirstAccount(accounts, index);
      RoundOnceMore(first, index, RayMul(first, index), TotalDebt(rest), SumOfBalances(rest, index), |rest|);
    }
  }

  lemma FirstAccount(accounts: seq<Account>, index: int)
    requires accounts != []
    ensures TotalDebt(accounts) == accounts[0].scaledVariableDebt + TotalDebt(accounts[1..])
    ensures SumOfBalances(accounts, index)
         == RayMul(accounts[0].scaledVariableDebt, index) + SumOfBalances(accounts[1..], index)
  {
    hide RayMul;
  }

  lemma RoundOnceMore(first: int, index: int, rounded: int, total: int, sum: int, users: int)
    requires 2 * (first * index) - RAY <= 2 * RAY * rounded <= 2 * (first * index) + RAY
    requires Abs(2 * RAY * sum - 2 * (index * total)) <= RAY * users
    ensures Abs(2 * RAY * (rounded + sum) - 2 * (index * (first + total))) <= RAY * (users + 1)
  {
    assert index * (first + total) == first * index + index * total;
  }

  /** In any valid state the reserve's total variable debt and the sum of the users' balances
      differ by at most half a unit per user and half a unit for the total. */
  lemma ReserveDebtMatchesUsers(st: State, index: int)
    requires Valid(st) && index >= 0
    ensures 2 * Abs(RayMul(st.reserve.scaledVariableDebt, index) - SumOfBalances(st.accounts, index))
              <= |st.accounts| + 1
  {
    hide RayMul, SumOfBalances, TotalDebt, Sound;
    EachBalanceRoundsOnce(st.accounts, index);
    DebtTotalNonNegative(st.accounts);
    RayMulNearest(st.reserve.scaledVariableDebt, index);
    assert st.reserve.scaledVariableDebt * index == index * TotalDebt(st.accounts);
  }
}
