/** The suppliers' side of a run: the income index the balances use and the liquidity index
    the reserve stores stay the same number, so that scaled supplies never go negative and a
    full exit leaves nothing.

    The two indices test different fields for their shortcut. They agree exactly while a
    reserve with zero utilization pays no liquidity rate (`IdlePaysNothing`). Every action
    keeps that; a read keeps it under a condition on what it finds (`ReadsIdleFree`), which
    can fail after a deposit priced from a stale read (`StaleDepositBreaksAgreement`). */
module Supply {
  import opened FixedPoint
  import opened Accrual
  import opened RateModel
  import opened Reserves
  import opened Soundness
  import opened Ledger

  /** Totals add up and are not ahead of time, utilization is theirs, and an idle reserve
      pays nothing. */
  ghost predicate Settled(r: Reserve, now: int) {
    && Adds(r)
    && Priced(r)
    && r.utilizationRate == UtilizationRate(r.totalStableDebt, r.totalVariableDebt, r.totalLiquidity)
    && IdlePaysNothing(r)
    && r.totalStableDebt <= DebtsAt(r, now).totalStableDebt
    && r.totalVariableDebt <= DebtsAt(r, now).totalVariableDebt
  }

  ghost predicate IdlePaysNothing(r: Reserve) { r.utilizationRate == 0 ==> r.liquidityRate == 0 }

  /** The reserve's debts are read at `now`. */
  ghost predicate FreshRead(r: Reserve, now: int) {
    && r.totalStableDebt == TotalStableDebtAt(r, now)
    && r.totalVariableDebt == RayMul(r.scaledVariableDebt, VariableIndexAt(r, now))
  }

  lemma CompoundLater(rate: int, n: int, m: int, x: int)
    requires rate >= 0 && 0 <= n <= m && x >= 0
    ensures RayMul(CompoundedInterest(rate, n), x) <= RayMul(CompoundedInterest(rate, m), x)
    ensures RayMul(CompoundedInterest(rate, 0), x) == x
  {
    hide RayMul, CompoundedInterest;
    CompoundedMonotone(rate, n, m);
    CompoundedAtLeastOne(rate, n);
    RayMulMonotone(CompoundedInterest(rate, n), x, CompoundedInterest(rate, m), x);
    CompoundedAtZero(rate);
    RayMulByOne(x);
  }

  lemma CompoundedAtZero(rate: int)
    ensures CompoundedInterest(rate, 0) == RAY
  {
  }

  /** Debts only grow from one read to a later one. */
  lemma DebtsGrow(r: Reserve, now: int, later: int)
    requires Sound(r, now) && now <= later
    ensures DebtsAt(r, now).totalStableDebt <= DebtsAt(r, later).totalStableDebt
    ensures DebtsAt(r, now).totalVariableDebt <= DebtsAt(r, later).totalVariableDebt
  {
    hide RayMul, CompoundedInterest;
    CompoundLater(r.averageStableBorrowRate, now - r.totalStableDebtLastUpdated,
                  later - r.totalStableDebtLastUpdated, r.principalStableDebt);
    CompoundLater(r.variableBorrowRate, now - r.lastUpdateTimestamp, later - r.lastUpdateTimestamp,
                  r.variableBorrowIndex);
    CompoundGrowth(r.variableBorrowRate, now - r.lastUpdateTimestamp, r.variableBorrowIndex);
    RayMulMonotone(r.scaledVariableDebt,
                   NormalizedDebt(r.variableBorrowRate, r.variableBorrowIndex, r.lastUpdateTimestamp, now),
                   r.scaledVariableDebt,
                   NormalizedDebt(r.variableBorrowRate, r.variableBorrowIndex, r.lastUpdateTimestamp, later));
  }

  /** A read keeps a settled reserve settled: utilization can only have risen. */
  lemma ReadSettles(r: Reserve, now: int, later: int)
    requires Sound(r, now) && Settled(r, now) && now <= later
    ensures Priced(DebtsAt(r, later)) && Settled(ReadAt(r, later), later)
  {
    hide RayMul, UtilizationRate, CompoundedInterest, NormalizedDebt;
    ReadIsSound(r, later);
    DebtsGrow(r, now, later);
    var e := DebtsAt(r, later);
    UtilizationGrowsWithDebt(r.availableLiquidity, r.totalStableDebt, r.totalVariableDebt,
                             e.totalStableDebt, e.totalVariableDebt);
    UtilizationNearest(r.totalStableDebt, r.totalVariableDebt, r.totalLiquidity);
    UtilizationNearest(e.totalStableDebt, e.totalVariableDebt, e.totalLiquidity);
  }

  /** Balances taken at the time of the action, once priced, are settled. */
  ghost predicate TakenAt(e: Reserve, now: int) {
    && Adds(e)
    && e.totalStableDebt <= TotalStableDebtAt(e, now)
    && e.totalVariableDebt == RayMul(e.scaledVariableDebt, e.variableBorrowIndex)
    && e.lastUpdateTimestamp == now
  }

  lemma PricingSettles(e: Reserve, now: int, s: Strategy)
    requires Balanced(e, now) && s.Sound() && TakenAt(e, now)
    ensures Priced(e) && Settled(Repriced(e, s), now)
  {
    hide RayMul, UtilizationRate, InterestRates, CompoundedInterest;
    PricingIsSound(e, now, s);
    CompoundLater(Repriced(e, s).variableBorrowRate, 0, 0, e.variableBorrowIndex);
  }

  lemma StableRebased(e: Reserve, now: int)
    requires e.totalStableDebtLastUpdated == now && e.principalStableDebt >= 0
    ensures TotalStableDebtAt(e, now) == e.principalStableDebt
  {
    CompoundedAtZero(e.averageStableBorrowRate);
    RayMulByOne(e.principalStableDebt);
  }

  /** The debts of a read are those at the index the next action stores. */
  lemma ReadAtStoredIndex(r: Reserve, now: int)
    requires Sound(r, now)
    ensures DebtsAt(r, now).totalVariableDebt == RayMul(r.scaledVariableDebt, VariableIndexAt(r, now))
  {
    hide RayMul, VariableIndexAt, NormalizedDebt;
    if r.scaledVariableDebt > 0 {
      DebtIndicesAgree(r, now);
    } else {
      RayMulByZero(VariableIndexAt(r, now));
      RayMulByZero(NormalizedDebt(r.variableBorrowRate, r.variableBorrowIndex, r.lastUpdateTimestamp, now));
    }
  }

  /** The total a deposit states is that of its parts exactly when the read was fresh. */
  lemma DepositAddsExactlyIfFresh(b: Reserve, amount: int, now: int, s: Strategy)
    requires Sound(b, now) && Settled(b, now)
    requires s.Divisible() && Priced(DepositBalances(b, amount, now))
    ensures Adds(AfterDeposit(b, amount, now, s)) <==> FreshRead(b, now)
  {
    hide RayMul, VariableIndexAt, LiquidityIndexAt, TotalStableDebtAt, NormalizedDebt, UtilizationRate, InterestRates;
    ReadAtStoredIndex(b, now);
  }

  lemma DepositTaken(b: Reserve, amount: int, now: int)
    requires Adds(b) && FreshRead(b, now)
    ensures TakenAt(DepositBalances(b, amount, now), now)
  {
    hide RayMul, CompoundedInterest, VariableIndexAt, LiquidityIndexAt;
  }

  lemma WithdrawTaken(b: Reserve, u: User, amount: int, now: int)
    ensures TakenAt(WithdrawBalances(b, u, amount, now), now)
  {
    hide RayMul, CompoundedInterest, VariableIndexAt, LiquidityIndexAt, WithdrawAmount;
  }

  lemma BorrowTaken(b: Reserve, mode: RateMode, amount: int, now: int)
    requires Sound(b, now) && VariableIndexAt(b, now) != 0 && amount >= 0
    ensures TakenAt(BorrowBalances(b, mode, amount, now), now)
  {
    hide RayMul, RayDiv, CompoundedInterest, VariableIndexAt, LiquidityIndexAt, AverageStableRate,
         StableDebtBalance;
    var e := BorrowBalances(b, mode, amount, now);
    if mode == Stable {
      StableDebtGrows(b, now);
      StableRebased(e, now);
    } else {
      StableBalanceGrows(b.principalStableDebt, b.averageStableBorrowRate, b.totalStableDebtLastUpdated, now);
    }
  }

  lemma RepayTaken(b: Reserve, u: User, mode: RateMode, amount: int, now: int)
    requires Sound(b, now) && VariableIndexAt(b, now) != 0
    requires b.totalStableDebt <= TotalStableDebtAt(b, now)
    ensures TakenAt(RepayBalances(b, u, mode, amount, now), now)
  {
    var e := RepayBalances(b, u, mode, amount, now);
    if mode == Stable {
      assert e.principalStableDebt >= 0 by {
        StableAverageClamp(b, u, amount, now);
      }
      StableRebased(e, now);
    }
    hide RayMul, RayDiv, CompoundedInterest, VariableIndexAt, LiquidityIndexAt, RepayAmount, StableLeft;
  }

  lemma StableAverageClamp(b: Reserve, u: User, amount: int, now: int)
    requires VariableIndexAt(b, now) != 0
    ensures RepayBalances(b, u, Stable, amount, now).principalStableDebt >= 0
  {
    hide RayMul, RayDiv, CompoundedInterest, VariableIndexAt, LiquidityIndexAt, RepayAmount, TotalStableDebtAt,
         AverageStableRate;
  }

  lemma SwapTaken(b: Reserve, u: User, mode: RateMode, now: int)
    requires VariableIndexAt(b, now) != 0 && SwapBalances(b, u, mode, now).principalStableDebt >= 0
    ensures TakenAt(SwapBalances(b, u, mode, now), now)
  {
    hide RayMul, RayDiv, CompoundedInterest, VariableIndexAt, LiquidityIndexAt, AverageStableRate,
         UserStableDebt, VariableDebtBalance;
    StableRebased(SwapBalances(b, u, mode, now), now);
  }

  /** Every action keeps a reserve settled, with one exception: a deposit does so exactly when
      it starts from a read at its own time. */
  lemma StepSettles(st: State, ev: Event, s: Strategy)
    requires Valid(st) && s.Sound() && Allowed(st, ev)
    requires Settled(st.reserve, st.clock)
    ensures Settled(Next(st, ev, s).reserve, Next(st, ev, s).clock) <==>
              (ev.action.Deposit? ==> FreshRead(st.reserve, ev.time))
  {
    hide RayMul, RayDiv, VariableIndexAt, DepositBalances, WithdrawBalances, BorrowBalances, NextUser, Repriced,
         RepayBalances, SwapBalances, DebtsAt, VariableDebtBalance, UserStableDebt, RepayAmount, WithdrawAmount;
    StepIsSound(st, ev, s);
    var r, u, t := st.reserve, ev.user, ev.time;
    SettledLater(r, st.clock, t);
    DebtWithinTotal(st.accounts, ev.who);
    UserStableNonNegative(u, t);
    match ev.action
    case Read => ReadSettles(r, st.clock, t);
    case Deposit(amount) =>
      DepositIsSound(r, amount, t, s);
      DepositAddsExactlyIfFresh(r, amount, t, s);
      if FreshRead(r, t) {
        DepositTaken(r, amount, t);
        PricingSettles(DepositBalances(r, amount, t), t, s);
      }
    case Withdraw(amount) =>
      WithdrawTaken(r, u, amount, t);
      WithdrawIsSound(r, u, amount, t, s);
      PricingSettles(WithdrawBalances(r, u, amount, t), t, s);
    case Borrow(mode, amount, readTime) =>
      BorrowTaken(r, mode, amount, t);
      BorrowBalancesSound(r, mode, amount, t, s);
      PricingSettles(BorrowBalances(r, mode, amount, t), t, s);
      ReadSettles(Repriced(BorrowBalances(r, mode, amount, t), s), t, readTime);
    case Repay(mode, amount, _) =>
      if mode != Stable {
        DebtUnscales(r, u, t, RepayAmount(r, u, mode, amount, t));
      }
      RepayTaken(r, u, mode, amount, t);
      RepayIsSound(r, u, mode, amount, t, s);
      PricingSettles(RepayBalances(r, u, mode, amount, t), t, s);
    case Swap(mode) =>
      if mode != Stable {
        VariableDebtNonNegative(r, u, t);
        DebtUnscales(r, u, t, VariableDebtBalance(r, u, t));
      }
      SwapIsSound(r, u, mode, t, s);
      SwapTaken(r, u, mode, t);
      PricingSettles(SwapBalances(r, u, mode, t), t, s);
  }

  lemma SettledLater(r: Reserve, now: int, later: int)
    requires Sound(r, now) && Settled(r, now) && now <= later
    ensures Settled(r, later)
    ensures r.totalStableDebt <= TotalStableDebtAt(r, later)
  {
    hide RayMul, UtilizationRate, TotalStableDebtAt, NormalizedDebt;
    DebtsGrow(r, now, later);
  }

  /** Every action but a read keeps an idle reserve free, however old its read is. */
  lemma ActionKeepsIdle(st: State, ev: Event, s: Strategy)
    requires Valid(st) && s.Sound() && Allowed(st, ev) && !ev.action.Read?
    ensures IdlePaysNothing(Next(st, ev, s).reserve)
  {
    hide RayMul, RayDiv, VariableIndexAt, DepositBalances, WithdrawBalances, BorrowBalances, NextUser, Repriced,
         RepayBalances, SwapBalances, DebtsAt, VariableDebtBalance, UserStableDebt, RepayAmount, WithdrawAmount;
    StepIsSound(st, ev, s);
    var r, u, t := st.reserve, ev.user, ev.time;
    DebtWithinTotal(st.accounts, ev.who);
    UserStableNonNegative(u, t);
    match ev.action
    case Read =>
    case Deposit(amount) =>
      DepositIsSound(r, amount, t, s);
      PricingIsSound(DepositBalances(r, amount, t), t, s);
    case Withdraw(amount) =>
      WithdrawIsSound(r, u, amount, t, s);
      PricingIsSound(WithdrawBalances(r, u, amount, t), t, s);
    case Borrow(mode, amount, readTime) =>
      BorrowTaken(r, mode, amount, t);
      BorrowBalancesSound(r, mode, amount, t, s);
      PricingSettles(BorrowBalances(r, mode, amount, t), t, s);
      ReadSettles(Repriced(BorrowBalances(r, mode, amount, t), s), t, readTime);
    case Repay(mode, amount, _) =>
      if mode != Stable {
        DebtUnscales(r, u, t, RepayAmount(r, u, mode, amount, t));
      }
      RepayIsSound(r, u, mode, amount, t, s);
      PricingIsSound(RepayBalances(r, u, mode, amount, t), t, s);
    case Swap(mode) =>
      if mode != Stable {
        VariableDebtNonNegative(r, u, t);
        DebtUnscales(r, u, t, VariableDebtBalance(r, u, t));
      }
      SwapIsSound(r, u, mode, t, s);
      PricingIsSound(SwapBalances(r, u, mode, t), t, s);
  }

  /** A read makes the reserve fresh for a deposit at the same time. */
  lemma ReadIsFresh(r: Reserve, now: int)
    requires Sound(r, now)
    ensures Priced(DebtsAt(r, now)) && FreshRead(ReadAt(r, now), now)
  {
    hide RayMul, UtilizationRate, CompoundedInterest, NormalizedDebt, VariableIndexAt;
    ReadIsSound(r, now);
    ReadAtStoredIndex(ReadAt(r, now), now);
  }

  /** What a read must find for an idle reserve to pay nothing: no rate, or enough debt for the
      utilization not to round to zero. */
  ghost predicate ReadsIdleFree(r: Reserve, now: int) {
    var e := DebtsAt(r, now);
    var debt := e.totalStableDebt + e.totalVariableDebt;
    r.liquidityRate == 0 || (debt > 0 && RAY * debt >= e.totalLiquidity - e.totalLiquidity / 2)
  }

  lemma ReadKeepsIdleExactly(r: Reserve, now: int)
    requires Sound(r, now)
    ensures Priced(DebtsAt(r, now))
    ensures IdlePaysNothing(ReadAt(r, now)) <==> ReadsIdleFree(r, now)
  {
    hide RayDiv, TotalStableDebtAt, NormalizedDebt, RayMul;
    ReadIsSound(r, now);
    ReadDebtsNonNegative(r, now);
    var e := DebtsAt(r, now);
    var debt := e.totalStableDebt + e.totalVariableDebt;
    if debt > 0 {
      RoundsToZeroExactly(debt, e.totalLiquidity);
    }
  }

  lemma ReadDebtsNonNegative(r: Reserve, now: int)
    requires Sound(r, now)
    ensures var e := DebtsAt(r, now);
            e.totalStableDebt >= 0 && e.totalVariableDebt >= 0 && e.totalLiquidity >= e.totalStableDebt + e.totalVariableDebt
  {
    hide RayMul, TotalStableDebtAt, NormalizedDebt;
    StableDebtGrows(r, now);
    NormalizedDebtGrows(r, now);
    ScaleIsZeroOnlyAtZero(r.scaledVariableDebt,
                          NormalizedDebt(r.variableBorrowRate, r.variableBorrowIndex, r.lastUpdateTimestamp, now));
  }

  lemma RoundsToZeroExactly(debt: int, total: int)
    requires 0 < debt && 0 < total
    ensures RayDiv(debt, total) == 0 <==> RAY * debt < total - total / 2
  {
    QuotientBounds(total / 2 + debt * RAY, total);
    var q := RayDiv(debt, total);
    if q > 0 {
      ProductMonotone(1, q, total);
    }
  }

  // ---- A stale deposit ----

  const FLAT: Strategy := Strategy(RAY / 2, RAY, 0, 0, 0, 0, 0)

  /** One unit of scaled debt that has doubled since the reserve was read. */
  const DOUBLED: Reserve :=
    Reserve(4 * RAY - 1, 4 * RAY - 2, 0, 1, 0, 1, 0, 0, 0, RAY * ONE_YEAR, 0, RAY, RAY, 0, 0, 0)

  /** The same reserve after depositing one unit, and after reading that again. */
  const DEPOSITED: Reserve :=
    Reserve(4 * RAY, 4 * RAY - 1, 0, 2, 0, 1, 0, 1, 0, RAY, 1, RAY, 2 * RAY, 0, 1, 0)
  const REREAD: Reserve := DEPOSITED.(totalLiquidity := 4 * RAY + 1, utilizationRate := 0)

  lemma DoubledAccrual()
    ensures VariableIndexAt(DOUBLED, 1) == 2 * RAY
    ensures RayMul(1, 2 * RAY) == 2 && RayMul(2 * RAY, 1) == 2 && RayMul(RAY, 2 * RAY) == 2 * RAY
  {
    assert CompoundedInterest(RAY * ONE_YEAR, 1) == 2 * RAY;
  }

  lemma StaleBalances()
    ensures DepositBalances(DOUBLED, 1, 1)
         == DEPOSITED.(liquidityRate := 0, variableBorrowRate := RAY * ONE_YEAR, utilizationRate := 0)
  {
    hide RayMul, VariableIndexAt, CompoundedInterest;
    DoubledAccrual();
    RayMulByZero(CompoundedInterest(0, 1));
  }

  lemma StaleRates()
    ensures UtilizationRate(0, 2, 4 * RAY) == 1 && InterestRates(FLAT, 0, 1, 0, 2, 0) == Rates(1, 0, RAY)
  {
    hide Curve, OverallBorrowRate, RayMul, RayDiv;
    FlatCurve();
    FlatOverall();
    RayMulByOne(1);
    assert RayDiv(2, 4 * RAY) == 1 by { QuotientUnique(4 * RAY, 4 * RAY, 1); FullShare(); }
    assert PercentMul(1, PERCENTAGE_FACTOR) == 1;
  }

  lemma FullShare()
    ensures RayDiv(2, 4 * RAY) == TruncDiv(4 * RAY, 4 * RAY)
  {
  }

  lemma FlatCurve()
    ensures VariableRate(FLAT, 1) == RAY && StableRate(FLAT, 0, 1) == 0
  {
    hide RayMul;
    RayMulByZero(RayDiv(1, RAY / 2));
  }

  lemma FlatOverall()
    ensures OverallBorrowRate(0, 2, RAY, 0) == RAY
  {
    hide RayMul, RayDiv;
    RayMulByOne(WadToRay(2));
    RayMulByZero(0);
    DivideBySelf(WadToRay(2));
  }

  lemma Reread()
    ensures Priced(DebtsAt(DEPOSITED, 1)) && ReadAt(DEPOSITED, 1) == REREAD
  {
    hide RayMul, CompoundedInterest, UtilizationRate;
    CompoundedAtZero(RAY);
    DoubledAccrual();
    RayMulByZero(CompoundedInterest(0, 1));
    RayMulByZero(CompoundedInterest(0, 0));
    assert DebtsAt(DEPOSITED, 1) == DEPOSITED.(totalLiquidity := 4 * RAY + 1);
    RereadUtilization();
  }

  lemma RereadUtilization()
    ensures UtilizationRate(0, 2, 4 * RAY + 1) == 0
  {
  }

  lemma DoubledIsSound()
    ensures Sound(DOUBLED, 1) && FLAT.Sound()
  {
  }

  lemma AfterStale()
    ensures Priced(DepositBalances(DOUBLED, 1, 1)) && AfterDeposit(DOUBLED, 1, 1, FLAT) == DEPOSITED
  {
    hide DepositBalances, InterestRates, UtilizationRate;
    StaleBalances();
    StaleRates();
  }

  lemma RereadPays()
    ensures !IdlePaysNothing(REREAD)
    ensures NormalizedIncome(REREAD, 1 + ONE_YEAR) == LiquidityIndexAt(REREAD, 1 + ONE_YEAR) + 1
  {
  }

  /** Depositing one unit from a stale read and reading again leaves an idle reserve that
      pays: a year later the two income indices differ. */
  lemma StaleDepositBreaksAgreement()
    ensures Sound(DOUBLED, 1) && Settled(DOUBLED, 0) && !FreshRead(DOUBLED, 1)
    ensures FLAT.Sound() && Priced(DepositBalances(DOUBLED, 1, 1))
    ensures var e := AfterDeposit(DOUBLED, 1, 1, FLAT);
            && Priced(DebtsAt(e, 1))
            && !IdlePaysNothing(ReadAt(e, 1))
            && NormalizedIncome(ReadAt(e, 1), 1 + ONE_YEAR) == LiquidityIndexAt(ReadAt(e, 1), 1 + ONE_YEAR) + 1
  {
    hide *;
    DoubledIsSound();
    DoubledIsSettled();
    AfterStale();
    Reread();
    RereadPays();
  }

  /** A full repayment of the same debt, read a second later, takes two units off the user who
      owed one. */
  lemma LateReadBreaksLedger()
    ensures var st := State(DOUBLED, [Account(0, 1)], 0);
            var ev := Event(Repay(Variable, MAX_UINT_AMOUNT, 1), 0, User(0, 0, 0, 1, 0, 1, 0, 0), 0);
            Valid(st) && Permitted(st, ev) && !RepaysDebtAsRead(DOUBLED, ev)
  {
    hide RayMul, RayDiv, CompoundedInterest, UtilizationRate;
    DoubledAccrual();
    DoubledRate();
    CompoundedAtZero(RAY * ONE_YEAR);
    RayMulByOne(1);
    RayMulByOne(RAY);
    RayRecovery(2, RAY);
    RayMulByOne(2);
    assert [Account(0, 1)][1..] == [];
  }

  lemma DoubledRate()
    ensures CompoundedInterest(RAY * ONE_YEAR, 1) == 2 * RAY
  {
  }

  lemma DoubledIsSettled()
    ensures Settled(DOUBLED, 0) && !FreshRead(DOUBLED, 1)
  {
    CompoundedAtZero(0);
    CompoundedAtZero(RAY * ONE_YEAR);
    assert CompoundedInterest(RAY * ONE_YEAR, 1) == 2 * RAY;
    assert VariableIndexAt(DOUBLED, 1) == 2 * RAY;
    assert RayMul(1, 2 * RAY) == 2;
    assert DebtsAt(DOUBLED, 0).totalVariableDebt == 1 && DebtsAt(DOUBLED, 0).totalStableDebt == 0;
    assert UtilizationRate(0, 1, 4 * RAY - 1) == 0;
  }

  // ---- Balances ----

  /** While idle reserves pay nothing, the supplier's balance and the stored index use one
      number. */
  lemma IncomeIsLiquidityIndex(r: Reserve, now: int)
    requires Sound(r, now) && IdlePaysNothing(r)
    ensures NormalizedIncome(r, now) == LiquidityIndexAt(r, now)
  {
    hide NormalizedIncome, LiquidityIndexAt;
    IncomeIndicesAgreeExactly(r, now);
    if r.utilizationRate == 0 {
      assert r.liquidityRate * (now - r.lastUpdateTimestamp) == 0;
    }
  }

  /** A withdrawal unscales within the supplier's scaled balance. */
  ghost predicate WithdrawsWithin(r: Reserve, ev: Event) {
    match ev.action
    case Withdraw(amount) =>
      LiquidityIndexAt(r, ev.time) > 0
      && RayDiv(WithdrawAmount(r, ev.user, amount, ev.time), LiquidityIndexAt(r, ev.time)) <= ev.user.scaledATokenBalance
    case _ => true
  }

  /** Supplies stay non-negative exactly when withdrawals unscale within them. */
  lemma SuppliesKeptExactly(st: State, ev: Event, s: Strategy)
    requires Valid(st) && s.Sound() && Allowed(st, ev) && SuppliesNonNegative(st.accounts)
    ensures SuppliesNonNegative(Next(st, ev, s).accounts) <==> WithdrawsWithin(st.reserve, ev)
  {
    hide RayMul, RayDiv, LiquidityIndexAt, VariableIndexAt, NormalizedIncome, TotalStableDebtAt, UtilizationRate, InterestRates,
         VariableDebtBalance, UserStableDebt, UserStableRate, StableDebtBalance, StableLeft, AverageStableRate,
         NormalizedDebt, CompoundedInterest, RepaysDebtAsRead, WithdrawAmount, RepayAmount;
    StepIsSound(st, ev, s);
    IndicesGrow(st.reserve, ev.time);
    var index := LiquidityIndexAt(st.reserve, ev.time);
    RayDivOfZero(index);
    var n := Next(st, ev, s);
    assert n.accounts[ev.who].scaledATokenBalance >= 0 <==> WithdrawsWithin(st.reserve, ev) by {
      if ev.action.Deposit? { RayDivNearest(ev.action.amount, index); }
    }
  }

  /** While the indices agree every allowed withdrawal does, and a full exit leaves exactly
      zero, scaled and unscaled. */
  lemma IdleWithdrawsWithin(r: Reserve, ev: Event)
    requires Sound(r, ev.time) && IdlePaysNothing(r) && ev.user.scaledATokenBalance >= 0
    requires ev.action.Withdraw? ==>
               0 <= WithdrawAmount(r, ev.user, ev.action.amount, ev.time) <= ATokenBalance(r, ev.user, ev.time)
    ensures WithdrawsWithin(r, ev)
    ensures ev.action == Withdraw(MAX_UINT_AMOUNT) ==>
              RayDiv(WithdrawAmount(r, ev.user, MAX_UINT_AMOUNT, ev.time), LiquidityIndexAt(r, ev.time))
                == ev.user.scaledATokenBalance
  {
    hide RayMul, RayDiv, LiquidityIndexAt, NormalizedIncome;
    var u, t, index := ev.user, ev.time, LiquidityIndexAt(r, ev.time);
    IndicesGrow(r, t);
    IncomeIsLiquidityIndex(r, t);
    if ev.action.Withdraw? {
      PartialNeverOverdraws(u.scaledATokenBalance, index, WithdrawAmount(r, u, ev.action.amount, t));
      RayRecovery(u.scaledATokenBalance, index);
    }
  }

  /** An action never makes a supplier's scaled balance negative, and withdrawing or repaying
      everything leaves exactly zero, while the indices agree. */
  lemma StepKeepsSupplies(st: State, ev: Event, s: Strategy)
    requires Valid(st) && s.Sound() && Allowed(st, ev)
    requires IdlePaysNothing(st.reserve) && SuppliesNonNegative(st.accounts)
    ensures SuppliesNonNegative(Next(st, ev, s).accounts)
    ensures ev.action == Withdraw(MAX_UINT_AMOUNT) ==>
              Next(st, ev, s).accounts[ev.who].scaledATokenBalance == 0
    ensures ev.action.Repay? && ev.action.mode == Variable && ev.action.amount == MAX_UINT_AMOUNT ==>
              Next(st, ev, s).accounts[ev.who].scaledVariableDebt == 0
  {
    hide RayMul, RayDiv, LiquidityIndexAt, VariableIndexAt, NormalizedIncome, TotalStableDebtAt, UtilizationRate, InterestRates,
         VariableDebtBalance, UserStableDebt, UserStableRate, StableDebtBalance, StableLeft, AverageStableRate,
         NormalizedDebt, CompoundedInterest, WithdrawAmount, WithdrawsWithin, SuppliesNonNegative;
    SuppliesKeptExactly(st, ev, s);
    StepIsSound(st, ev, s);
    SupplyOf(st.accounts, ev.who);
    IdleWithdrawsWithin(st.reserve, ev);
    IndicesGrow(st.reserve, ev.time);
    RayDivOfZero(LiquidityIndexAt(st.reserve, ev.time));
  }

  lemma SupplyOf(accounts: seq<Account>, i: nat)
    requires SuppliesNonNegative(accounts) && i < |accounts|
    ensures accounts[i].scaledATokenBalance >= 0
  {
  }

  // ---- Runs ----

  /** The deposits of a run start from reads at their own times. */
  ghost predicate DepositsFresh(st: State, evs: seq<Event>, s: Strategy)
    requires Valid(st) && s.Sound() && AllowedRun(st, evs, s)
    decreases |evs|
  {
    evs != [] ==>
      && (evs[0].action.Deposit? ==> FreshRead(st.reserve, evs[0].time))
      && (StepKeepsLedger(st, evs[0], s); DepositsFresh(Next(st, evs[0], s), evs[1..], s))
  }

  /** The run never re-reads the reserve between its actions. */
  ghost predicate NoReads(evs: seq<Event>) {
    forall i :: 0 <= i < |evs| ==> !evs[i].action.Read?
  }

  /** At any later time the two income indices agree, as do the two debt indices once there
      is variable debt. */
  ghost predicate IndicesAgree(st: State) {
    forall t :: st.clock <= t ==>
      && NormalizedIncome(st.reserve, t) == LiquidityIndexAt(st.reserve, t)
      && (st.reserve.totalVariableDebt != 0 ==>
            NormalizedDebt(st.reserve.variableBorrowRate, st.reserve.variableBorrowIndex,
                           st.reserve.lastUpdateTimestamp, t)
              == VariableIndexAt(st.reserve, t))
  }

  /** In a valid state they do exactly when an idle reserve pays nothing. */
  lemma IndicesAgreeExactly(st: State)
    requires Valid(st)
    ensures IndicesAgree(st) <==> IdlePaysNothing(st.reserve)
  {
    hide NormalizedIncome, LiquidityIndexAt, NormalizedDebt, VariableIndexAt;
    var r := st.reserve;
    if IdlePaysNothing(r) {
      forall t | st.clock <= t
        ensures NormalizedIncome(r, t) == LiquidityIndexAt(r, t)
        ensures r.totalVariableDebt != 0 ==>
                  NormalizedDebt(r.variableBorrowRate, r.variableBorrowIndex, r.lastUpdateTimestamp, t)
                    == VariableIndexAt(r, t)
      {
        IncomeIsLiquidityIndex(r, t);
        if r.totalVariableDebt != 0 { DebtIndicesAgree(r, t); }
      }
    } else {
      var t := st.clock + ONE_YEAR;
      IncomeIndicesAgreeExactly(r, t);
      ProductMonotone(1, r.liquidityRate, t - r.lastUpdateTimestamp);
      assert NormalizedIncome(r, t) != LiquidityIndexAt(r, t);
    }
  }

  /** Every read of the run finds no rate, or debt that does not round away. */
  ghost predicate ReadsStayIdleFree(st: State, evs: seq<Event>, s: Strategy)
    requires Valid(st) && s.Sound() && AllowedRun(st, evs, s)
    decreases |evs|
  {
    evs != [] ==>
      && (evs[0].action.Read? ==> ReadsIdleFree(st.reserve, evs[0].time))
      && (StepKeepsLedger(st, evs[0], s); ReadsStayIdleFree(Next(st, evs[0], s), evs[1..], s))
  }

  ghost predicate AgreeThroughout(st: State, evs: seq<Event>, s: Strategy)
    requires Valid(st) && s.Sound() && AllowedRun(st, evs, s)
    decreases |evs|
  {
    && IndicesAgree(st)
    && (evs != [] ==> (StepKeepsLedger(st, evs[0], s); AgreeThroughout(Next(st, evs[0], s), evs[1..], s)))
  }

  /** A read keeps an idle reserve free exactly under its condition, every other event always. */
  lemma StepKeepsIdleExactly(st: State, ev: Event, s: Strategy)
    requires Valid(st) && s.Sound() && Allowed(st, ev)
    ensures IdlePaysNothing(Next(st, ev, s).reserve) <==> (ev.action.Read? ==> ReadsIdleFree(st.reserve, ev.time))
  {
    if ev.action.Read? {
      hide RayMul, UtilizationRate, DebtsAt, ReadsIdleFree, VariableIndexAt;
      StepIsSound(st, ev, s);
      ReadKeepsIdleExactly(st.reserve, ev.time);
    } else {
      hide IdlePaysNothing, Next;
      ActionKeepsIdle(st, ev, s);
    }
  }

  /** The index pairs agree in every state of a run, whatever its deposits were priced from,
      exactly when they agree at the start and every read meets its condition. */
  lemma {:induction false} RunAgreesExactly(st: State, evs: seq<Event>, s: Strategy)
    requires Valid(st) && s.Sound() && AllowedRun(st, evs, s)
    ensures AgreeThroughout(st, evs, s) <==> IdlePaysNothing(st.reserve) && ReadsStayIdleFree(st, evs, s)
    decreases |evs|
  {
    hide Allowed, IndicesAgree, IdlePaysNothing, ReadsIdleFree;
    IndicesAgreeExactly(st);
    if evs != [] {
      hide Next;
      StepKeepsLedger(st, evs[0], s);
      StepKeepsIdleExactly(st, evs[0], s);
      RunAgreesExactly(Next(st, evs[0], s), evs[1..], s);
    }
  }

  /** Over every run whose reads meet their condition no supply goes negative, and the index
      pairs agree in the end. Deposits may be priced from any read. */
  lemma {:induction false} RunKeepsSupplies(st: State, evs: seq<Event>, s: Strategy)
    requires Valid(st) && s.Sound() && AllowedRun(st, evs, s) && ReadsStayIdleFree(st, evs, s)
    requires IdlePaysNothing(st.reserve) && SuppliesNonNegative(st.accounts)
    ensures var end := Run(st, evs, s);
            Valid(end) && IdlePaysNothing(end.reserve) && SuppliesNonNegative(end.accounts) && IndicesAgree(end)
    decreases |evs|
  {
    hide Allowed, IndicesAgree, IdlePaysNothing, ReadsIdleFree;
    if evs == [] {
      IndicesAgreeExactly(st);
    } else {
      hide Next;
      StepKeepsLedger(st, evs[0], s);
      StepKeepsIdleExactly(st, evs[0], s);
      StepKeepsSupplies(st, evs[0], s);
      RunKeepsSupplies(Next(st, evs[0], s), evs[1..], s);
    }
  }

  ghost predicate WithdrawalsWithin(st: State, evs: seq<Event>, s: Strategy)
    requires Valid(st) && s.Sound() && AllowedRun(st, evs, s)
    decreases |evs|
  {
    evs != [] ==>
      && WithdrawsWithin(st.reserve, evs[0])
      && (StepKeepsLedger(st, evs[0], s); WithdrawalsWithin(Next(st, evs[0], s), evs[1..], s))
  }

  /** Runs on which the indices agree withdraw within the supplies. */
  lemma {:induction false} AgreeingRunWithdrawsWithin(st: State, evs: seq<Event>, s: Strategy)
    requires Valid(st) && s.Sound() && AllowedRun(st, evs, s) && ReadsStayIdleFree(st, evs, s)
    requires IdlePaysNothing(st.reserve) && SuppliesNonNegative(st.accounts)
    ensures WithdrawalsWithin(st, evs, s)
    decreases |evs|
  {
    if evs != [] {
      StepKeepsLedger(st, evs[0], s);
      hide Allowed, IdlePaysNothing, ReadsIdleFree, WithdrawsWithin, Next;
      StepKeepsIdleExactly(st, evs[0], s);
      StepKeepsSupplies(st, evs[0], s);
      SuppliesKeptExactly(st, evs[0], s);
      AgreeingRunWithdrawsWithin(Next(st, evs[0], s), evs[1..], s);
    }
  }

  /** Without intermediate reads there is no condition to meet. */
  lemma {:induction false} NoReadsMeetConditions(st: State, evs: seq<Event>, s: Strategy)
    requires Valid(st) && s.Sound() && AllowedRun(st, evs, s) && NoReads(evs)
    ensures ReadsStayIdleFree(st, evs, s)
    decreases |evs|
  {
    if evs != [] {
      hide Next, Allowed, ReadsIdleFree;
      StepKeepsLedger(st, evs[0], s);
      NoReadsMeetConditions(Next(st, evs[0], s), evs[1..], s);
    }
  }

  /** Deposits priced from fresh reads keep the reserve settled, and every read of a settled
      reserve meets its condition. */
  lemma {:induction false} FreshDepositsMeetConditions(st: State, evs: seq<Event>, s: Strategy)
    requires Valid(st) && s.Sound() && AllowedRun(st, evs, s) && DepositsFresh(st, evs, s)
    requires Settled(st.reserve, st.clock)
    ensures ReadsStayIdleFree(st, evs, s)
    ensures Settled(Run(st, evs, s).reserve, Run(st, evs, s).clock)
    decreases |evs|
  {
    if evs != [] {
      hide Allowed, UtilizationRate, DebtsAt, IdlePaysNothing, ReadsIdleFree, FreshRead;
      StepKeepsLedger(st, evs[0], s);
      StepSettles(st, evs[0], s);
      StepKeepsIdleExactly(st, evs[0], s);
      hide Next;
      FreshDepositsMeetConditions(Next(st, evs[0], s), evs[1..], s);
    }
  }

  lemma FreshRunKeepsSupplies(st: State, evs: seq<Event>, s: Strategy)
    requires Valid(st) && s.Sound() && AllowedRun(st, evs, s) && DepositsFresh(st, evs, s)
    requires Settled(st.reserve, st.clock) && SuppliesNonNegative(st.accounts)
    ensures var end := Run(st, evs, s);
            Valid(end) && Settled(end.reserve, end.clock) && SuppliesNonNegative(end.accounts) && IndicesAgree(end)
  {
    assert IdlePaysNothing(st.reserve);
    hide Run, AllowedRun, IndicesAgree, Settled;
    FreshDepositsMeetConditions(st, evs, s);
    RunKeepsSupplies(st, evs, s);
  }

  lemma ChainedRunKeepsSupplies(st: State, evs: seq<Event>, s: Strategy)
    requires Valid(st) && s.Sound() && AllowedRun(st, evs, s) && NoReads(evs)
    requires IdlePaysNothing(st.reserve) && SuppliesNonNegative(st.accounts)
    ensures var end := Run(st, evs, s);
            Valid(end) && IdlePaysNothing(end.reserve) && SuppliesNonNegative(end.accounts) && IndicesAgree(end)
  {
    NoReadsMeetConditions(st, evs, s);
    RunKeepsSupplies(st, evs, s);
  }

  /** Every deposit of the list directly follows a read at its own time. */
  ghost predicate ReadsBeforeDeposits(evs: seq<Event>) {
    forall i :: 0 < i < |evs| && evs[i].action.Deposit? ==> evs[i - 1].action.Read? && evs[i - 1].time == evs[i].time
  }

  lemma {:induction false} ReadingFirstIsFresh(st: State, evs: seq<Event>, s: Strategy)
    requires Valid(st) && s.Sound() && AllowedRun(st, evs, s) && ReadsBeforeDeposits(evs)
    requires evs != [] && evs[0].action.Deposit? ==> FreshRead(st.reserve, evs[0].time)
    ensures DepositsFresh(st, evs, s)
    decreases |evs|
  {
    if evs != [] {
      StepKeepsLedger(st, evs[0], s);
      assert ReadsBeforeDeposits(evs[1..]);
      if evs[0].action.Read? {
        hide FreshRead, DebtsAt, UtilizationRate, RayMul;
        ReadIsFresh(st.reserve, evs[0].time);
      }
      hide FreshRead, Allowed;
      ReadingFirstIsFresh(Next(st, evs[0], s), evs[1..], s);
    }
  }
}
