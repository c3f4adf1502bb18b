/** The expected records against a second reading: what a calculator reports is what reading the
    expected state again at the same time shows. */
module Readings {
  import opened FixedPoint
  import opened Accrual
  import opened RateModel
  import opened Reserves
  import opened Soundness
  import opened Ledger
  import opened Supply
  import Borrowers
  import Coverage
  import Flows

  // ---- The reserve ----

  /** Reading the expected reserve again at its own time changes nothing, exactly if its total
      missed no interest. */
  lemma ReserveReadsBack(st: State, ev: Event, s: Strategy)
    requires Valid(st) && s.Sound() && Permitted(st, ev) && !ev.action.Read?
    requires Coverage.StableDated(st.reserve) && ev.time > 0
    ensures Defined(st.reserve, ev, s)
    ensures Priced(DebtsAt(NextReserve(st.reserve, ev, s), NextClock(ev)))
    ensures var e := NextReserve(st.reserve, ev, s);
            ReadAt(e, NextClock(ev)) == e <==> Coverage.Missed(st.reserve, ev) == 0
  {
    StepIsSound(st, ev, s);
    var r, t := st.reserve, ev.time;
    var e := NextReserve(r, ev, s);
    ReadIsSound(e, NextClock(ev));
    if ev.action.Borrow? {
      BorrowReadsBack(r, ev.action.mode, ev.action.amount, t, ev.action.readTime, s);
    } else {
      hide RayMul, RayDiv, CompoundedInterest, VariableIndexAt, LiquidityIndexAt, NextReserve, Sound, NormalizedDebt;
      PartsReadBack(st, ev, s);
      SameReading(e, t);
    }
  }

  lemma BorrowReadsBack(b: Reserve, mode: RateMode, amount: int, now: int, readTime: int, s: Strategy)
    requires Sound(b, now) && s.Sound() && 0 <= amount <= b.availableLiquidity && now <= readTime
    ensures VariableIndexAt(b, now) != 0
    ensures Priced(BorrowBalances(b, mode, amount, now))
    ensures Priced(DebtsAt(Repriced(BorrowBalances(b, mode, amount, now), s), readTime))
    ensures var e := AfterBorrow(b, mode, amount, now, readTime, s);
            Priced(DebtsAt(e, readTime)) && ReadAt(e, readTime) == e
  {
    hide BorrowBalances, VariableIndexAt, UtilizationRate, InterestRates, RayMul, CompoundedInterest;
    BorrowIsSound(b, mode, amount, now, readTime, s);
  }

  /** Of the four parts a reading recomputes, debts are as reported but for a variable repayment's
      stable debt, the total but for what it missed, and the utilization is that of the total. */
  lemma PartsReadBack(st: State, ev: Event, s: Strategy)
    requires Valid(st) && s.Sound() && Permitted(st, ev) && !ev.action.Read? && !ev.action.Borrow?
    requires Defined(st.reserve, ev, s)
    ensures var e := NextReserve(st.reserve, ev, s);
            var stale := ev.action.Repay? && ev.action.mode != Stable;
            && Priced(e)
            && DebtsAt(e, ev.time).totalVariableDebt == e.totalVariableDebt
            && TotalStableDebtAt(e, ev.time) - e.totalStableDebt == (if stale then Coverage.Missed(st.reserve, ev) else 0)
            && e.availableLiquidity + TotalStableDebtAt(e, ev.time) + e.totalVariableDebt - e.totalLiquidity
               == Coverage.Missed(st.reserve, ev)
            && e.utilizationRate == UtilizationRate(e.totalStableDebt, e.totalVariableDebt, e.totalLiquidity)
  {
    hide RayMul, RayDiv, LiquidityIndexAt, VariableIndexAt, UtilizationRate, InterestRates, CompoundedInterest,
         VariableDebtBalance, UserStableDebt, StableLeft, AverageStableRate, RepayAmount, WithdrawAmount, RepaysDebtAsRead;
    StepIsSound(st, ev, s);
    var r, u, t := st.reserve, ev.user, ev.time;
    var e := NextReserve(r, ev, s);
    IndicesGrow(r, t);
    StableDebtGrows(r, t);
    NoTimeNoInterest(e.variableBorrowRate, e.variableBorrowIndex, t);
    match ev.action
    case Deposit(amount) => SameStable(r, e, t);
    case Withdraw(_) => SameStable(r, e, t);
    case Repay(mode, amount, _) =>
      if mode == Stable {
        Coverage.RepayTakenStable(r, u, amount, t);
        StableAverageClamp(r, u, amount, t);
        StableRebased(e, t);
      } else {
        SameStable(r, e, t);
      }
    case Swap(mode) =>
      UserStableNonNegative(u, t);
      if mode != Stable { DebtWithinTotal(st.accounts, ev.who); VariableDebtNonNegative(r, u, t); }
      StableRebased(e, t);
  }

  lemma SameReading(e: Reserve, now: int)
    requires Priced(e) && Priced(DebtsAt(e, now))
    requires DebtsAt(e, now).totalVariableDebt == e.totalVariableDebt
    requires e.utilizationRate == UtilizationRate(e.totalStableDebt, e.totalVariableDebt, e.totalLiquidity)
    ensures ReadAt(e, now) == e <==>
              && TotalStableDebtAt(e, now) == e.totalStableDebt
              && e.availableLiquidity + TotalStableDebtAt(e, now) + e.totalVariableDebt == e.totalLiquidity
  {
    hide RayMul, TotalStableDebtAt, NormalizedDebt, UtilizationRate;
  }

  lemma NoTimeNoInterest(rate: int, index: int, now: int)
    requires index >= 0
    ensures NormalizedDebt(rate, index, now, now) == index
  {
    hide RayMul;
    CompoundedAtZero(rate);
    RayMulByOne(index);
  }

  /** Every action leaves borrow rates that follow the curves, the variable one from the strategy's
      base and the stable one from the market's, at the utilization of the totals it states; a
      borrow's rates are those of its transaction. */
  lemma RatesFollowStatedTotals(st: State, ev: Event, s: Strategy)
    requires Valid(st) && s.Sound() && Permitted(st, ev) && !ev.action.Read?
    ensures Defined(st.reserve, ev, s)
    ensures var p, e := Coverage.PricedReserve(st.reserve, ev, s), NextReserve(st.reserve, ev, s);
            && OnCurve(e.variableBorrowRate, s.baseVariable, s.variableSlope1, s.variableSlope2, s.optimal, p.utilizationRate)
            && OnCurve(e.stableBorrowRate, st.reserve.marketStableRate, s.stableSlope1, s.stableSlope2, s.optimal,
                       p.utilizationRate)
            && UtilizationDefined(p.totalStableDebt, p.totalVariableDebt, p.totalLiquidity)
            && p.utilizationRate == UtilizationRate(p.totalStableDebt, p.totalVariableDebt, p.totalLiquidity)
            && e.liquidityRate == p.liquidityRate
  {
    hide RayMul, RayDiv, OnCurve, LiquidityIndexAt, VariableIndexAt, TotalStableDebtAt, UtilizationRate, InterestRates,
         VariableDebtBalance, UserStableDebt, StableLeft, AverageStableRate, RepayAmount, WithdrawAmount, RepaysDebtAsRead,
         StableDebtBalance, NormalizedDebt, Sound;
    StepIsSound(st, ev, s);
    PricedSound(st, ev, s);
    var p := Coverage.PricedReserve(st.reserve, ev, s);
    RatesFollowCurves(s, st.reserve.marketStableRate, p.utilizationRate, p.totalStableDebt, p.totalVariableDebt,
                      p.averageStableBorrowRate);
  }

  lemma PricedSound(st: State, ev: Event, s: Strategy)
    requires Valid(st) && s.Sound() && Permitted(st, ev) && !ev.action.Read?
    ensures Defined(st.reserve, ev, s) && Coverage.PricedReserve(st.reserve, ev, s).utilizationRate >= 0
  {
    hide NextReserve, BorrowBalances, UtilizationRate, InterestRates, VariableIndexAt, TotalStableDebtAt;
    StepIsSound(st, ev, s);
    if ev.action.Borrow? {
      BorrowBalancesSound(st.reserve, ev.action.mode, ev.action.amount, ev.time, s);
    }
  }

  // ---- The user's variable debt ----

  /** The time a variable debt is reported for. */
  function VariableReadTime(ev: Event): int {
    match ev.action
    case Borrow(_, _, readTime) => readTime
    case _ => ev.time
  }

  /** The reported variable debt is what reading the expected user on the expected reserve shows:
      at the read time after a borrow, at the transaction after any other action. A stable
      repayment reports what the reserve before would show at the read time, as if it had not
      repriced; at its own time that is the same. */
  lemma VariableDebtReadsBack(st: State, ev: Event, s: Strategy)
    requires Valid(st) && s.Sound() && Permitted(st, ev) && !ev.action.Read?
    ensures Defined(st.reserve, ev, s)
    ensures var e := NextReserve(st.reserve, ev, s); e.liquidityIndex != 0 && e.variableBorrowIndex != 0
    ensures var e := NextReserve(st.reserve, ev, s);
            var v := NextUser(st.reserve, e, ev, s);
            if ev.action.Repay? && ev.action.mode == Stable then
              && v.currentVariableDebt == VariableDebtBalance(st.reserve, v, ev.action.readTime)
              && (ev.action.readTime == ev.time ==> v.currentVariableDebt == VariableDebtBalance(e, v, ev.time))
            else
              v.currentVariableDebt == VariableDebtBalance(e, v, VariableReadTime(ev))
  {
    hide RayMul, RayDiv, LiquidityIndexAt, VariableIndexAt, UtilizationRate, InterestRates, CompoundedInterest,
         UserStableDebt, StableLeft, AverageStableRate, RepayAmount, WithdrawAmount, RepaysDebtAsRead, TotalStableDebtAt,
         StableDebtBalance, UserStableRate, NormalizedIncome, NormalizedDebt, LinearInterest;
    StepIsSound(st, ev, s);
    var r, u, t := st.reserve, ev.user, ev.time;
    var e := NextReserve(r, ev, s);
    DebtWithinTotal(st.accounts, ev.who);
    IndicesGrow(r, t);
    Borrowers.SameScaledBalance(r, u, t);
    NoTimeNoInterest(e.variableBorrowRate, e.variableBorrowIndex, t);
    RayMulByZero(e.variableBorrowIndex);
    match ev.action
    case Deposit(_) =>
    case Withdraw(_) =>
    case Borrow(_, _, _) =>
    case Repay(_, _, _) =>
    case Swap(_) =>
  }

  /** A borrower who owes the reserve's whole variable debt is reported exactly the reserve's total,
      at any read time. */
  lemma SoleBorrowerOwesTotal(b: Reserve, u: User, mode: RateMode, amount: int, now: int, readTime: int, s: Strategy)
    requires Sound(b, now) && s.Sound() && 0 < amount <= b.availableLiquidity && now <= readTime
    requires u.scaledVariableDebt == b.scaledVariableDebt
    requires mode == Stable ==> UserStableDebt(u, now) + amount != 0
    ensures VariableIndexAt(b, now) != 0
    ensures Priced(BorrowBalances(b, mode, amount, now))
    ensures Priced(DebtsAt(Repriced(BorrowBalances(b, mode, amount, now), s), readTime))
    ensures var e := AfterBorrow(b, mode, amount, now, readTime, s);
            && e.variableBorrowIndex != 0
            && UserAfterBorrow(b, e, u, mode, amount, now, readTime).currentVariableDebt == e.totalVariableDebt
  {
    hide RayMul, RayDiv, LiquidityIndexAt, VariableIndexAt, UtilizationRate, InterestRates, CompoundedInterest,
         UserStableDebt, AverageStableRate, TotalStableDebtAt, StableDebtBalance, UserStableRate, NormalizedIncome, NormalizedDebt;
    BorrowIsSound(b, mode, amount, now, readTime, s);
  }

  /** After a borrow by any of n users, at any read time: the borrower's reported debt and the
      others' balances on the expected reserve add up to its total within (n + 1) / 2. */
  lemma ReportedDebtsAddUp(st: State, ev: Event, s: Strategy)
    requires Valid(st) && s.Sound() && Permitted(st, ev) && ev.action.Borrow?
    ensures Defined(st.reserve, ev, s)
    ensures var e := NextReserve(st.reserve, ev, s); e.liquidityIndex != 0 && e.variableBorrowIndex != 0
    ensures var e := NextReserve(st.reserve, ev, s);
            var v := NextUser(st.reserve, e, ev, s);
            var index := NormalizedDebt(e.variableBorrowRate, e.variableBorrowIndex, e.lastUpdateTimestamp, ev.action.readTime);
            var others := Flows.SumOfBalances(st.accounts[ev.who := Account(0, 0)], index);
            2 * Abs(e.totalVariableDebt - (v.currentVariableDebt + others)) <= |st.accounts| + 1
  {
    hide NextReserve, NextUser, RayMul, NormalizedDebt, Permitted, RepaysDebtAsRead, Defined;
    StepIsSound(st, ev, s);
    BorrowAllowed(st, ev);
    StepKeepsLedger(st, ev, s);
    var e := NextReserve(st.reserve, ev, s);
    var v := NextUser(st.reserve, e, ev, s);
    var at := ev.action.readTime;
    var index := NormalizedDebt(e.variableBorrowRate, e.variableBorrowIndex, e.lastUpdateTimestamp, at);
    VariableDebtReadsBack(st, ev, s);
    BorrowTotal(st.reserve, ev, s);
    NormalizedDebtGrows(e, at);
    var n := Next(st, ev, s);
    Flows.ReserveDebtMatchesUsers(n, index);
    SumSplits(st.accounts, ev.who, n.accounts[ev.who], index);
  }

  lemma BorrowAllowed(st: State, ev: Event)
    requires Permitted(st, ev) && ev.action.Borrow?
    ensures Allowed(st, ev) && ev.who < |st.accounts| && NextClock(ev) == ev.action.readTime
  {
  }

  lemma BorrowTotal(r: Reserve, ev: Event, s: Strategy)
    requires Defined(r, ev, s) && ev.action.Borrow?
    ensures var e := NextReserve(r, ev, s);
            e.totalVariableDebt == RayMul(e.scaledVariableDebt, NormalizedDebt(e.variableBorrowRate, e.variableBorrowIndex,
                                                                               e.lastUpdateTimestamp, ev.action.readTime))
  {
    hide RayMul, BorrowBalances, NormalizedDebt, UtilizationRate, InterestRates, TotalStableDebtAt;
  }

  /** One user's balance and the others'. */
  lemma {:induction false} SumSplits(accounts: seq<Account>, i: nat, a: Account, index: int)
    requires i < |accounts|
    ensures Flows.SumOfBalances(accounts[i := a], index)
         == RayMul(a.scaledVariableDebt, index) + Flows.SumOfBalances(accounts[i := Account(0, 0)], index)
  {
    hide RayMul;
    RayMulByZero(index);
    var updated, others := accounts[i := a], accounts[i := Account(0, 0)];
    if i == 0 {
      assert updated[1..] == accounts[1..] == others[1..];
    } else {
      assert updated[1..] == accounts[1..][i - 1 := a] && others[1..] == accounts[1..][i - 1 := Account(0, 0)];
      SumSplits(accounts[1..], i - 1, a, index);
    }
  }

  // ---- The user's stable debt ----

  /** The user with the stable columns the calculators misplace put right: a deposit overwrites
      the principal with the variable debt, a variable repayment crosses principal and current. */
  function StableColumnsRestored(v: User, u: User, action: Action): User {
    match action
    case Deposit(_) => v.(principalStableDebt := u.principalStableDebt)
    case Repay(mode, _, _) =>
      if mode == Stable then v
      else v.(principalStableDebt := v.currentStableDebt, currentStableDebt := v.principalStableDebt)
    case _ => v
  }

  /** The time a stable debt is reported for: a stable repayment reports the debt of the read time
      less the amount, from the transaction on. */
  function StableReadTime(ev: Event): int {
    match ev.action
    case Borrow(_, _, readTime) => readTime
    case Repay(mode, _, readTime) => if mode == Stable then ev.time else readTime
    case _ => ev.time
  }

  /** Put right, the stable columns are consistent: the current debt is what the principal, the
      rate and the start time give at that time. */
  lemma StableDebtReadsBack(st: State, ev: Event, s: Strategy)
    requires Valid(st) && s.Sound() && Permitted(st, ev) && !ev.action.Read?
    ensures Defined(st.reserve, ev, s)
    ensures var e := NextReserve(st.reserve, ev, s); e.liquidityIndex != 0 && e.variableBorrowIndex != 0
    ensures var e := NextReserve(st.reserve, ev, s);
            var v := StableColumnsRestored(NextUser(st.reserve, e, ev, s), ev.user, ev.action);
            v.currentStableDebt == UserStableDebt(v, StableReadTime(ev))
  {
    hide RayMul, RayDiv, LiquidityIndexAt, VariableIndexAt, UtilizationRate, InterestRates, CompoundedInterest,
         StableLeft, AverageStableRate, WithdrawAmount, RepaysDebtAsRead, TotalStableDebtAt,
         VariableDebtBalance, UserStableRate, NormalizedIncome, NormalizedDebt, LinearInterest;
    StepIsSound(st, ev, s);
  }

  /** What the deposit calculator leaves in the principal column is the variable debt. */
  lemma DepositMisplacesVariableDebt(b: Reserve, e: Reserve, u: User, amount: int, now: int)
    requires e.liquidityIndex != 0
    ensures UserAfterDeposit(b, e, u, amount, now).principalStableDebt == UserAfterDeposit(b, e, u, amount, now).currentVariableDebt
  {
    hide RayMul, RayDiv, NormalizedDebt, NormalizedIncome, StableDebtBalance;
  }

  // ---- The supplier's balance ----

  /** An action of a borrower reports the supplier's balance that reading again shows, while the
      income indices agree. */
  lemma SupplyReadsBack(st: State, ev: Event, s: Strategy)
    requires Valid(st) && s.Sound() && Permitted(st, ev) && IdlePaysNothing(st.reserve)
    requires ev.action.Borrow? || ev.action.Repay? || ev.action.Swap?
    ensures Defined(st.reserve, ev, s)
    ensures var e := NextReserve(st.reserve, ev, s); e.liquidityIndex != 0 && e.variableBorrowIndex != 0
    ensures var e := NextReserve(st.reserve, ev, s);
            var v := NextUser(st.reserve, e, ev, s);
            && v.scaledATokenBalance == ev.user.scaledATokenBalance
            && v.currentATokenBalance == ATokenBalance(e, v, NextClock(ev))
  {
    hide RayMul, RayDiv, LiquidityIndexAt, VariableIndexAt, UtilizationRate, InterestRates, CompoundedInterest,
         StableLeft, AverageStableRate, RepayAmount, RepaysDebtAsRead, TotalStableDebtAt, UserStableDebt,
         VariableDebtBalance, UserStableRate, NormalizedDebt, LinearInterest, StableDebtBalance;
    StepIsSound(st, ev, s);
    var r, t := st.reserve, ev.time;
    var e := NextReserve(r, ev, s);
    IndicesGrow(r, t);
    if !ev.action.Borrow? {
      IncomeIsLiquidityIndex(r, t);
      NoTimeNoIncome(e.liquidityRate, e.liquidityIndex);
    }
  }

  lemma NoTimeNoIncome(rate: int, index: int)
    requires index >= 0
    ensures RayMul(LinearInterest(rate, 0), index) == index
  {
    assert rate * 0 == 0;
    RayMulByOne(index);
  }
}
