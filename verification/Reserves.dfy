/** A reserve and its users, and the state the calculators expect after each action.

    Three accessory keys of a reserve are left undefined by most calculators and skipped by
    the suite's comparison: `marketStableRate`, `lastUpdateTimestamp` and
    `totalStableDebtLastUpdated`. Here they carry what the next read of the reserve returns:
    the market rate is unchanged, every action stamps the reserve, and an action that
    rebases the stable principal stamps the stable debt as well (`Stamped`). */
module Reserves {
  import opened FixedPoint
  import opened Accrual
  import opened RateModel

  datatype RateMode = NoMode | Stable | Variable | Unknown

  datatype Reserve = Reserve(
    totalLiquidity: int,
    availableLiquidity: int,
    totalStableDebt: int,
    totalVariableDebt: int,
    principalStableDebt: int,
    scaledVariableDebt: int,
    averageStableBorrowRate: int,
    liquidityRate: int,
    stableBorrowRate: int,
    variableBorrowRate: int,
    utilizationRate: int,
    liquidityIndex: int,
    variableBorrowIndex: int,
    marketStableRate: int,
    lastUpdateTimestamp: int,
    totalStableDebtLastUpdated: int)

  datatype User = User(
    scaledATokenBalance: int,
    currentATokenBalance: int,
    currentStableDebt: int,
    currentVariableDebt: int,
    principalStableDebt: int,
    scaledVariableDebt: int,
    stableBorrowRate: int,
    stableRateLastUpdated: int)

  // ---- Balances and indices at a point in time ----

  function NormalizedIncome(r: Reserve, now: int): int {
    if r.liquidityRate == 0 then r.liquidityIndex
    else RayMul(LinearInterest(r.liquidityRate, now - r.lastUpdateTimestamp), r.liquidityIndex)
  }

  function NormalizedDebt(rate: int, index: int, since: int, now: int): int {
    if rate == 0 then index else RayMul(CompoundedInterest(rate, now - since), index)
  }

  function LiquidityIndexAt(r: Reserve, now: int): int {
    if r.utilizationRate == 0 then r.liquidityIndex
    else RayMul(LinearInterest(r.liquidityRate, now - r.lastUpdateTimestamp), r.liquidityIndex)
  }

  function VariableIndexAt(r: Reserve, now: int): int {
    if r.totalVariableDebt == 0 then r.variableBorrowIndex
    else RayMul(CompoundedInterest(r.variableBorrowRate, now - r.lastUpdateTimestamp), r.variableBorrowIndex)
  }

  function TotalStableDebtAt(r: Reserve, now: int): int {
    RayMul(CompoundedInterest(r.averageStableBorrowRate, now - r.totalStableDebtLastUpdated), r.principalStableDebt)
  }

  function ATokenBalance(r: Reserve, u: User, now: int): int {
    RayMul(u.scaledATokenBalance, NormalizedIncome(r, now))
  }

  function VariableDebtBalance(r: Reserve, u: User, now: int): int {
    RayMul(u.scaledVariableDebt,
           NormalizedDebt(r.variableBorrowRate, r.variableBorrowIndex, r.lastUpdateTimestamp, now))
  }

  function StableDebtBalance(principal: int, rate: int, since: int, now: int): int {
    if rate == 0 || now == since || since == 0 then principal
    else RayMul(principal, CompoundedInterest(rate, now - since))
  }

  function UserStableDebt(u: User, now: int): int {
    StableDebtBalance(u.principalStableDebt, u.stableBorrowRate, u.stableRateLastUpdated, now)
  }

  function ScaledATokenBalance(u: User, index: int, added: int, taken: int): int
    requires index != 0
  {
    u.scaledATokenBalance + RayDiv(added, index) - RayDiv(taken, index)
  }

  function AverageStableRate(average: int, total: int, change: int, rate: int): int {
    if total + change == 0 then 0
    else TruncDiv(average * total + rate * change, total + change)
  }

  function UserStableRate(balance: int, rate: int, amount: int, newRate: int): int
    requires balance + amount != 0
  {
    TruncDiv(balance * rate + amount * newRate, balance + amount)
  }

  /** The three parts of a reserve make up its total. */
  predicate Adds(r: Reserve) {
    r.totalLiquidity == r.availableLiquidity + r.totalStableDebt + r.totalVariableDebt
  }

  /** Cash and both debts brought up to `now`. */
  function AccruedValue(r: Reserve, now: int): int {
    r.availableLiquidity + TotalStableDebtAt(r, now) + RayMul(r.scaledVariableDebt, VariableIndexAt(r, now))
  }

  // ---- Pricing ----

  predicate Priced(r: Reserve) {
    UtilizationDefined(r.totalStableDebt, r.totalVariableDebt, r.totalLiquidity)
  }

  /** Utilization and the three rates recomputed from the balances. */
  function Repriced(r: Reserve, s: Strategy): Reserve
    requires s.Divisible() && Priced(r)
  {
    var utilization := UtilizationRate(r.totalStableDebt, r.totalVariableDebt, r.totalLiquidity);
    var rates := InterestRates(s, r.marketStableRate, utilization,
                               r.totalStableDebt, r.totalVariableDebt, r.averageStableBorrowRate);
    r.(utilizationRate := utilization, liquidityRate := rates.liquidity,
       stableBorrowRate := rates.stable, variableBorrowRate := rates.variable)
  }

  /** Total liquidity as the sum of cash and both debts. */
  function Totaled(r: Reserve): Reserve {
    r.(totalLiquidity := r.availableLiquidity + r.totalStableDebt + r.totalVariableDebt)
  }

  function Stamped(r: Reserve, now: int, stableRebased: bool): Reserve {
    r.(lastUpdateTimestamp := now,
       totalStableDebtLastUpdated := if stableRebased then now else r.totalStableDebtLastUpdated)
  }

  /** Both indices brought up to the time of the transaction. */
  function Accrued(r: Reserve, now: int): Reserve {
    r.(liquidityIndex := LiquidityIndexAt(r, now), variableBorrowIndex := VariableIndexAt(r, now))
  }

  /** The debts of a reserve as a read at `now` reports them, before totalling. */
  function DebtsAt(r: Reserve, now: int): Reserve {
    Totaled(r.(totalStableDebt := TotalStableDebtAt(r, now),
               totalVariableDebt :=
                 RayMul(r.scaledVariableDebt,
                        NormalizedDebt(r.variableBorrowRate, r.variableBorrowIndex, r.lastUpdateTimestamp, now))))
  }

  /** A read of the reserve at `now`: debts, total liquidity and utilization move on, the
      stored indices and rates do not. */
  function ReadAt(r: Reserve, now: int): Reserve
    requires Priced(DebtsAt(r, now))
  {
    var e := DebtsAt(r, now);
    e.(utilizationRate := UtilizationRate(e.totalStableDebt, e.totalVariableDebt, e.totalLiquidity))
  }

  // ---- Deposit and withdraw ----

  function DepositBalances(before: Reserve, amount: int, now: int): Reserve {
    var e := Accrued(before, now);
    Stamped(e.(totalLiquidity := before.totalLiquidity + amount,
               availableLiquidity := before.availableLiquidity + amount,
               totalStableDebt := TotalStableDebtAt(before, now),
               totalVariableDebt := RayMul(before.scaledVariableDebt, e.variableBorrowIndex)),
            now, false)
  }

  function AfterDeposit(before: Reserve, amount: int, now: int, s: Strategy): Reserve
    requires s.Divisible() && Priced(DepositBalances(before, amount, now))
  {
    Repriced(DepositBalances(before, amount, now), s)
  }

  function WithdrawAmount(before: Reserve, u: User, amount: int, now: int): int {
    if amount == MAX_UINT_AMOUNT then ATokenBalance(before, u, now) else amount
  }

  function WithdrawBalances(before: Reserve, u: User, amount: int, now: int): Reserve {
    var e := Accrued(before, now);
    Stamped(Totaled(e.(availableLiquidity := before.availableLiquidity - WithdrawAmount(before, u, amount, now),
                       totalStableDebt := TotalStableDebtAt(before, now),
                       totalVariableDebt := RayMul(before.scaledVariableDebt, e.variableBorrowIndex))),
            now, false)
  }

  function AfterWithdraw(before: Reserve, u: User, amount: int, now: int, s: Strategy): Reserve
    requires s.Divisible() && Priced(WithdrawBalances(before, u, amount, now))
  {
    Repriced(WithdrawBalances(before, u, amount, now), s)
  }

  /** The supply of a user after a deposit. The calculator ends by writing the accrued
      variable debt over the stable principal, so that column is not the user's stable debt. */
  function UserAfterDeposit(before: Reserve, after: Reserve, u: User, amount: int, now: int): User
    requires after.liquidityIndex != 0
  {
    u.(scaledATokenBalance := ScaledATokenBalance(u, after.liquidityIndex, amount, 0),
       currentATokenBalance := ATokenBalance(before, u, now) + amount,
       currentStableDebt := UserStableDebt(u, now),
       currentVariableDebt := VariableDebtBalance(before, u, now),
       principalStableDebt := VariableDebtBalance(before, u, now))
  }

  function UserAfterWithdraw(before: Reserve, after: Reserve, u: User, amount: int, now: int): User
    requires after.liquidityIndex != 0
  {
    var taken := WithdrawAmount(before, u, amount, now);
    u.(scaledATokenBalance := ScaledATokenBalance(u, after.liquidityIndex, 0, taken),
       currentATokenBalance := ATokenBalance(before, u, now) - taken,
       currentStableDebt := UserStableDebt(u, now),
       currentVariableDebt := VariableDebtBalance(before, u, now))
  }

  // ---- Vault collateral ----

  /** Collateral moves in vault shares: the reserve's cash changes by the amount divided by
      the liquidity index found after the action. */
  function CollateralShares(after: Reserve, amount: int): int
    requires after.liquidityIndex != 0
  {
    RayDiv(amount, after.liquidityIndex)
  }

  function DepositCollateralBalances(before: Reserve, after: Reserve, amount: int, now: int): Reserve
    requires after.liquidityIndex != 0
  {
    DepositBalances(before, CollateralShares(after, amount), now)
      .(liquidityIndex := LiquidityIndexAt(after, now))
  }

  function AfterDepositCollateral(before: Reserve, after: Reserve, amount: int, now: int, s: Strategy): Reserve
    requires s.Divisible() && after.liquidityIndex != 0
    requires Priced(DepositCollateralBalances(before, after, amount, now))
  {
    Repriced(DepositCollateralBalances(before, after, amount, now), s)
  }

  function WithdrawCollateralAmount(u: User, amount: int): int {
    if amount == MAX_UINT_AMOUNT then u.scaledATokenBalance else amount
  }

  function WithdrawCollateralBalances(before: Reserve, after: Reserve, u: User, amount: int, now: int): Reserve
    requires after.liquidityIndex != 0
  {
    var e := Accrued(before, now).(liquidityIndex := LiquidityIndexAt(after, now));
    var shares := CollateralShares(after, WithdrawCollateralAmount(u, amount));
    Stamped(Totaled(e.(availableLiquidity := before.availableLiquidity - shares,
                       totalStableDebt := TotalStableDebtAt(before, now),
                       totalVariableDebt := RayMul(before.scaledVariableDebt, e.variableBorrowIndex))),
            now, false)
  }

  function AfterWithdrawCollateral(before: Reserve, after: Reserve, u: User, amount: int, now: int, s: Strategy): Reserve
    requires s.Divisible() && after.liquidityIndex != 0
    requires Priced(WithdrawCollateralBalances(before, after, u, amount, now))
  {
    Repriced(WithdrawCollateralBalances(before, after, u, amount, now), s)
  }

  function UserAfterDepositCollateral(before: Reserve, u: User, amount: int, now: int): User {
    var scaled := ScaledATokenBalance(u, RAY, amount, 0);
    u.(scaledATokenBalance := scaled,
       currentATokenBalance := scaled,
       currentStableDebt := UserStableDebt(u, now),
       currentVariableDebt := VariableDebtBalance(before, u, now),
       principalStableDebt := VariableDebtBalance(before, u, now))
  }

  function UserAfterWithdrawCollateral(before: Reserve, u: User, amount: int, now: int): User {
    var scaled := ScaledATokenBalance(u, RAY, 0, WithdrawCollateralAmount(u, amount));
    u.(scaledATokenBalance := scaled,
       currentATokenBalance := scaled,
       currentStableDebt := UserStableDebt(u, now),
       currentVariableDebt := VariableDebtBalance(before, u, now))
  }

  // ---- Borrow ----

  /** The balances at the transaction itself, which price the new rates. */
  function BorrowBalances(before: Reserve, mode: RateMode, amount: int, now: int): Reserve
    requires VariableIndexAt(before, now) != 0
  {
    var e := Accrued(before, now).(availableLiquidity := before.availableLiquidity - amount);
    var index := e.variableBorrowIndex;
    if mode == Stable then
      var untilTx := TotalStableDebtAt(before, now);
      Stamped(Totaled(e.(totalVariableDebt := RayMul(before.scaledVariableDebt, index),
                         principalStableDebt := untilTx + amount,
                         totalStableDebt := untilTx + amount,
                         averageStableBorrowRate :=
                           AverageStableRate(before.averageStableBorrowRate, untilTx, amount, before.stableBorrowRate))),
              now, true)
    else
      var scaled := before.scaledVariableDebt + RayDiv(amount, index);
      Stamped(Totaled(e.(scaledVariableDebt := scaled,
                         totalVariableDebt := RayMul(scaled, index),
                         totalStableDebt :=
                           StableDebtBalance(before.principalStableDebt, before.averageStableBorrowRate,
                                             before.totalStableDebtLastUpdated, now))),
              now, false)
  }

  /** A borrow prices the rates at the transaction and reports the debts at the read time. */
  function AfterBorrow(before: Reserve, mode: RateMode, amount: int, now: int, readTime: int, s: Strategy): Reserve
    requires s.Divisible() && VariableIndexAt(before, now) != 0
    requires Priced(BorrowBalances(before, mode, amount, now))
    requires Priced(DebtsAt(Repriced(BorrowBalances(before, mode, amount, now), s), readTime))
  {
    ReadAt(Repriced(BorrowBalances(before, mode, amount, now), s), readTime)
  }

  function UserAfterBorrow(before: Reserve, after: Reserve, u: User, mode: RateMode, amount: int,
                           now: int, readTime: int): User
    requires mode == Stable ==> UserStableDebt(u, now) + amount != 0
    requires mode != Stable ==> after.variableBorrowIndex != 0
  {
    var e :=
      if mode == Stable then
        var untilTx := UserStableDebt(u, now);
        var rate := UserStableRate(untilTx, u.stableBorrowRate, amount, before.stableBorrowRate);
        u.(principalStableDebt := untilTx + amount,
           stableBorrowRate := rate,
           stableRateLastUpdated := now,
           currentStableDebt := StableDebtBalance(untilTx + amount, rate, now, readTime))
      else
        u.(scaledVariableDebt := u.scaledVariableDebt + RayDiv(amount, after.variableBorrowIndex),
           currentStableDebt := UserStableDebt(u, readTime));
    e.(currentVariableDebt := VariableDebtBalance(after, e, readTime),
       currentATokenBalance := ATokenBalance(after, u, readTime))
  }

  // ---- Repay ----

  function RepayAmount(before: Reserve, u: User, mode: RateMode, amount: int, now: int): int {
    if Abs(amount) == MAX_UINT_AMOUNT then
      if mode == Stable then UserStableDebt(u, now) else VariableDebtBalance(before, u, now)
    else
      amount
  }

  /** Stable principal and average rate left by a stable repayment: accumulation errors that
      would make either negative erase the remainder. */
  function StableLeft(debt: int, average: int, repaid: int, userRate: int): (int, int) {
    var left := debt - repaid;
    var rate := AverageStableRate(average, debt, -repaid, userRate);
    if left < 0 || rate < 0 then (0, 0) else (left, rate)
  }

  function RepayBalances(before: Reserve, u: User, mode: RateMode, amount: int, now: int): Reserve
    requires VariableIndexAt(before, now) != 0
  {
    var repaid := RepayAmount(before, u, mode, amount, now);
    var e := Accrued(before, now).(availableLiquidity := before.availableLiquidity + repaid);
    var index := e.variableBorrowIndex;
    if mode == Stable then
      var (left, rate) := StableLeft(TotalStableDebtAt(before, now), before.averageStableBorrowRate,
                                     repaid, u.stableBorrowRate);
      Stamped(Totaled(e.(principalStableDebt := left, totalStableDebt := left, averageStableBorrowRate := rate,
                         totalVariableDebt := RayMul(before.scaledVariableDebt, index))),
              now, true)
    else
      var scaled := before.scaledVariableDebt - RayDiv(repaid, index);
      Stamped(Totaled(e.(scaledVariableDebt := scaled, totalVariableDebt := RayMul(scaled, index))), now, false)
  }

  function AfterRepay(before: Reserve, u: User, mode: RateMode, amount: int, now: int, s: Strategy): Reserve
    requires s.Divisible() && VariableIndexAt(before, now) != 0
    requires Priced(RepayBalances(before, u, mode, amount, now))
  {
    Repriced(RepayBalances(before, u, mode, amount, now), s)
  }

  function UserAfterRepay(before: Reserve, after: Reserve, u: User, mode: RateMode, amount: int,
                          now: int, readTime: int): User
    requires mode != Stable ==> after.variableBorrowIndex != 0
  {
    var repaid := RepayAmount(before, u, mode, amount, readTime);
    var stableDebt := UserStableDebt(u, readTime);
    var e :=
      if mode == Stable then
        var left := stableDebt - repaid;
        u.(currentVariableDebt := VariableDebtBalance(before, u, readTime),
           principalStableDebt := left,
           currentStableDebt := left,
           stableBorrowRate := if left == 0 then 0 else u.stableBorrowRate,
           stableRateLastUpdated := if left == 0 then 0 else now)
      else
        var scaled := u.scaledVariableDebt - RayDiv(repaid, after.variableBorrowIndex);
        u.(currentStableDebt := u.principalStableDebt,
           principalStableDebt := stableDebt,
           scaledVariableDebt := scaled,
           currentVariableDebt := RayMul(scaled, after.variableBorrowIndex));
    e.(currentATokenBalance := ATokenBalance(before, u, now))
  }

  // ---- Rate-mode swap ----

  function SwapBalances(before: Reserve, u: User, mode: RateMode, now: int): Reserve
    requires VariableIndexAt(before, now) != 0
  {
    var e := Accrued(before, now);
    var index := e.variableBorrowIndex;
    var untilTx := TotalStableDebtAt(before, now);
    var moved := if mode == Stable then UserStableDebt(u, now) else VariableDebtBalance(before, u, now);
    var scaled, stable, average :=
      if mode == Stable then before.scaledVariableDebt + RayDiv(moved, index)
                        else before.scaledVariableDebt - RayDiv(moved, index),
      if mode == Stable then untilTx - moved else untilTx + moved,
      if mode == Stable then AverageStableRate(before.averageStableBorrowRate, untilTx, -moved, u.stableBorrowRate)
                        else AverageStableRate(before.averageStableBorrowRate, before.totalStableDebt, moved, before.stableBorrowRate);
    Stamped(Totaled(e.(scaledVariableDebt := scaled, totalVariableDebt := RayMul(scaled, index),
                       principalStableDebt := stable, totalStableDebt := stable,
                       averageStableBorrowRate := average)),
            now, true)
  }

  function AfterSwap(before: Reserve, u: User, mode: RateMode, now: int, s: Strategy): Reserve
    requires s.Divisible() && VariableIndexAt(before, now) != 0
    requires Priced(SwapBalances(before, u, mode, now))
  {
    Repriced(SwapBalances(before, u, mode, now), s)
  }

  function UserAfterSwap(before: Reserve, after: Reserve, u: User, mode: RateMode, now: int): User
    requires mode == Stable ==> after.variableBorrowIndex != 0
    requires mode != Stable ==> UserStableDebt(u, now) + VariableDebtBalance(before, u, now) != 0
  {
    var stableDebt, variableDebt := UserStableDebt(u, now), VariableDebtBalance(before, u, now);
    var e := u.(currentATokenBalance := ATokenBalance(before, u, now));
    if mode == Stable then
      var scaled := u.scaledVariableDebt + RayDiv(stableDebt, after.variableBorrowIndex);
      e.(currentStableDebt := 0, principalStableDebt := 0, stableBorrowRate := 0, stableRateLastUpdated := 0,
         scaledVariableDebt := scaled,
         currentVariableDebt := RayMul(scaled, after.variableBorrowIndex))
    else
      e.(principalStableDebt := u.currentStableDebt + variableDebt,
         currentStableDebt := u.currentStableDebt + variableDebt,
         stableBorrowRate := UserStableRate(stableDebt, u.stableBorrowRate, variableDebt, before.stableBorrowRate),
         stableRateLastUpdated := now,
         currentVariableDebt := 0, scaledVariableDebt := 0)
  }
}
