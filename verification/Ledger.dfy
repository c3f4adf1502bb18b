/** Runs of actions by any number of users on one reserve.

    A run threads the reserve and, per user, the two scaled balances. Before each action the
    user's other columns are read afresh, so an event carries the user as read: its scaled
    balances must be the account's, its stable columns may be any non-negative values. */
module Ledger {
  import opened FixedPoint
  import opened RateModel
  import opened Reserves
  import opened Soundness

  datatype Account = Account(scaledATokenBalance: int, scaledVariableDebt: int)

  datatype Action =
    | Read
    | Deposit(amount: int)
    | Withdraw(amount: int)
    | Borrow(mode: RateMode, amount: int, readTime: int)
    | Repay(mode: RateMode, amount: int, readTime: int)
    | Swap(mode: RateMode)

  datatype Event = Event(action: Action, who: nat, user: User, time: int)

  datatype State = State(reserve: Reserve, accounts: seq<Account>, clock: int)

  // ---- Totals ----

  function TotalDebt(accounts: seq<Account>): int {
    if accounts == [] then 0 else accounts[0].scaledVariableDebt + TotalDebt(accounts[1..])
  }

  function TotalSupply(accounts: seq<Account>): int {
    if accounts == [] then 0 else accounts[0].scaledATokenBalance + TotalSupply(accounts[1..])
  }

  ghost predicate DebtsNonNegative(accounts: seq<Account>) {
    forall i :: 0 <= i < |accounts| ==> accounts[i].scaledVariableDebt >= 0
  }

  ghost predicate SuppliesNonNegative(accounts: seq<Account>) {
    forall i :: 0 <= i < |accounts| ==> accounts[i].scaledATokenBalance >= 0
  }

  lemma {:induction false} TotalsAfterUpdate(accounts: seq<Account>, i: nat, a: Account)
    requires i < |accounts|
    ensures TotalDebt(accounts[i := a])
         == TotalDebt(accounts) - accounts[i].scaledVariableDebt + a.scaledVariableDebt
    ensures TotalSupply(accounts[i := a])
         == TotalSupply(accounts) - accounts[i].scaledATokenBalance + a.scaledATokenBalance
  {
    var updated := accounts[i := a];
    if i == 0 {
      assert updated[1..] == accounts[1..];
    } else {
      assert updated[1..] == accounts[1..][i - 1 := a];
      TotalsAfterUpdate(accounts[1..], i - 1, a);
    }
  }

  lemma {:induction false} DebtWithinTotal(accounts: seq<Account>, i: nat)
    requires DebtsNonNegative(accounts) && i < |accounts|
    ensures 0 <= accounts[i].scaledVariableDebt <= TotalDebt(accounts)
  {
    DebtTotalNonNegative(accounts[1..]);
    if i > 0 {
      DebtWithinTotal(accounts[1..], i - 1);
    }
  }

  lemma {:induction false} DebtTotalNonNegative(accounts: seq<Account>)
    requires DebtsNonNegative(accounts)
    ensures TotalDebt(accounts) >= 0
  {
    if accounts != [] {
      DebtTotalNonNegative(accounts[1..]);
    }
  }

  // ---- The step relation ----

  /** Sound reserve, non-negative debts, and a ledger that adds up. */
  ghost predicate Valid(st: State) {
    && Sound(st.reserve, st.clock)
    && DebtsNonNegative(st.accounts)
    && TotalDebt(st.accounts) == st.reserve.scaledVariableDebt
  }

  ghost predicate SeenBy(st: State, ev: Event) {
    && st.clock <= ev.time
    && ev.who < |st.accounts|
    && ev.user.scaledATokenBalance == st.accounts[ev.who].scaledATokenBalance
    && ev.user.scaledVariableDebt == st.accounts[ev.who].scaledVariableDebt
    && ev.user.principalStableDebt >= 0
    && ev.user.stableBorrowRate >= 0
    && ev.user.stableRateLastUpdated <= ev.time
  }

  /** What a caller must respect: no more than the cash is taken, no more than the own
      balance or debt is moved. Stable repayments may be of any amount. */
  ghost predicate Permitted(st: State, ev: Event) {
    && SeenBy(st, ev)
    && var r, u, t := st.reserve, ev.user, ev.time;
       match ev.action
       case Read => true
       case Deposit(amount) => amount >= 0
       case Withdraw(amount) =>
         0 <= WithdrawAmount(r, u, amount, t) <= ATokenBalance(r, u, t)
         && WithdrawAmount(r, u, amount, t) <= r.availableLiquidity
       case Borrow(mode, amount, readTime) => 0 < amount <= r.availableLiquidity && t <= readTime
       case Repay(mode, amount, readTime) =>
         t <= readTime
         && RepayAmount(r, u, mode, amount, t) >= 0
         && (mode != Stable ==> RepayAmount(r, u, mode, amount, t) <= VariableDebtBalance(r, u, t))
       case Swap(mode) =>
         if mode == Stable then
           VariableIndexAt(r, t) != 0
           && SwapBalances(r, u, Stable, t).principalStableDebt >= 0
           && SwapBalances(r, u, Stable, t).averageStableBorrowRate >= 0
         else
           UserStableDebt(u, t) + VariableDebtBalance(r, u, t) != 0
  }

  /** A full variable repayment takes the debt of the read time off the user and the debt of the
      transaction off the reserve: the former must still unscale to the user's scaled debt. */
  ghost predicate RepaysDebtAsRead(r: Reserve, ev: Event) {
    match ev.action
    case Repay(mode, amount, readTime) =>
      mode != Stable && Abs(amount) == MAX_UINT_AMOUNT ==>
        && VariableIndexAt(r, ev.time) != 0
        && RayDiv(VariableDebtBalance(r, ev.user, readTime), VariableIndexAt(r, ev.time)) == ev.user.scaledVariableDebt
    case _ => true
  }

  ghost predicate Allowed(st: State, ev: Event) { Permitted(st, ev) && RepaysDebtAsRead(st.reserve, ev) }

  /** Unscaling a part of one's variable debt stays within one's scaled debt; unscaling the
      whole balance gives the scaled debt back. */
  lemma DebtUnscales(r: Reserve, u: User, now: int, amount: int)
    requires Sound(r, now) && 0 <= u.scaledVariableDebt <= r.scaledVariableDebt
    requires 0 <= amount <= VariableDebtBalance(r, u, now)
    ensures VariableIndexAt(r, now) >= RAY
    ensures 0 <= RayDiv(amount, VariableIndexAt(r, now)) <= u.scaledVariableDebt
    ensures amount == VariableDebtBalance(r, u, now) ==>
              RayDiv(amount, VariableIndexAt(r, now)) == u.scaledVariableDebt
  {
    hide RayMul, RayDiv, VariableIndexAt, NormalizedDebt;
    IndicesGrow(r, now);
    NormalizedDebtGrows(r, now);
    var index := VariableIndexAt(r, now);
    if u.scaledVariableDebt > 0 {
      DebtIndicesAgree(r, now);
      PartialNeverOverdraws(u.scaledVariableDebt, index, amount);
      RayRecovery(u.scaledVariableDebt, index);
    } else {
      RayMulByZero(NormalizedDebt(r.variableBorrowRate, r.variableBorrowIndex, r.lastUpdateTimestamp, now));
      RayRecovery(0, index);
      RayMulByZero(index);
    }
  }

  lemma VariableDebtNonNegative(r: Reserve, u: User, now: int)
    requires Sound(r, now) && u.scaledVariableDebt >= 0
    ensures VariableDebtBalance(r, u, now) >= 0
  {
    hide RayMul, NormalizedDebt;
    NormalizedDebtGrows(r, now);
    RayMulNearest(u.scaledVariableDebt,
                  NormalizedDebt(r.variableBorrowRate, r.variableBorrowIndex, r.lastUpdateTimestamp, now));
  }

  /** The preconditions of the calculators an event runs. */
  ghost predicate Defined(r: Reserve, ev: Event, s: Strategy) {
    var u, t := ev.user, ev.time;
    && s.Divisible()
    && VariableIndexAt(r, t) != 0
    && match ev.action
       case Read => Priced(DebtsAt(r, t))
       case Deposit(amount) => Priced(DepositBalances(r, amount, t))
       case Withdraw(amount) => Priced(WithdrawBalances(r, u, amount, t))
       case Borrow(mode, amount, readTime) =>
         && Priced(BorrowBalances(r, mode, amount, t))
         && Priced(DebtsAt(Repriced(BorrowBalances(r, mode, amount, t), s), readTime))
         && (mode == Stable ==> UserStableDebt(u, t) + amount != 0)
       case Repay(mode, amount, _) => Priced(RepayBalances(r, u, mode, amount, t))
       case Swap(mode) =>
         && Priced(SwapBalances(r, u, mode, t))
         && (mode != Stable ==> UserStableDebt(u, t) + VariableDebtBalance(r, u, t) != 0)
  }

  ghost function NextReserve(r: Reserve, ev: Event, s: Strategy): Reserve
    requires Defined(r, ev, s)
  {
    var u, t := ev.user, ev.time;
    match ev.action
    case Read => ReadAt(r, t)
    case Deposit(amount) => AfterDeposit(r, amount, t, s)
    case Withdraw(amount) => AfterWithdraw(r, u, amount, t, s)
    case Borrow(mode, amount, readTime) => AfterBorrow(r, mode, amount, t, readTime, s)
    case Repay(mode, amount, _) => AfterRepay(r, u, mode, amount, t, s)
    case Swap(mode) => AfterSwap(r, u, mode, t, s)
  }

  /** The user the calculators expect next to the reserve `e`. */
  ghost function NextUser(r: Reserve, e: Reserve, ev: Event, s: Strategy): User
    requires Defined(r, ev, s) && e.liquidityIndex != 0 && e.variableBorrowIndex != 0
  {
    var u, t := ev.user, ev.time;
    match ev.action
    case Read => u
    case Deposit(amount) => UserAfterDeposit(r, e, u, amount, t)
    case Withdraw(amount) => UserAfterWithdraw(r, e, u, amount, t)
    case Borrow(mode, amount, readTime) => UserAfterBorrow(r, e, u, mode, amount, t, readTime)
    case Repay(mode, amount, readTime) => UserAfterRepay(r, e, u, mode, amount, t, readTime)
    case Swap(mode) => UserAfterSwap(r, e, u, mode, t)
  }

  function NextClock(ev: Event): int {
    if ev.action.Borrow? then ev.action.readTime else ev.time
  }

  /** An allowed event meets the preconditions of its calculators, which leave the reserve
      sound with grown indices. */
  lemma StepIsSound(st: State, ev: Event, s: Strategy)
    requires Valid(st) && s.Sound() && Permitted(st, ev)
    ensures Sound(st.reserve, ev.time) && VariableIndexAt(st.reserve, ev.time) >= RAY
    ensures Defined(st.reserve, ev, s)
    ensures var e := NextReserve(st.reserve, ev, s);
            Sound(e, NextClock(ev)) && Grown(st.reserve, e)
  {
    hide RayMul, RayDiv, VariableIndexAt, DepositBalances, WithdrawBalances, BorrowBalances,
         RepayBalances, SwapBalances, DebtsAt, Repriced, VariableDebtBalance, UserStableDebt,
         RepayAmount, WithdrawAmount;
    var r, u, t := st.reserve, ev.user, ev.time;
    IndicesGrow(r, t);
    DebtWithinTotal(st.accounts, ev.who);
    UserStableNonNegative(u, t);
    match ev.action
    case Read => ReadIsSound(r, t); ReadKeepsIndices(r, t);
    case Deposit(amount) => DepositIsSound(r, amount, t, s);
    case Withdraw(amount) => WithdrawIsSound(r, u, amount, t, s);
    case Borrow(mode, amount, readTime) => BorrowIsSound(r, mode, amount, t, readTime, s);
    case Repay(mode, amount, _) =>
      if mode != Stable {
        DebtUnscales(r, u, t, RepayAmount(r, u, mode, amount, t));
      }
      RepayIsSound(r, u, mode, amount, t, s);
    case Swap(mode) =>
      if mode != Stable {
        VariableDebtNonNegative(r, u, t);
        DebtUnscales(r, u, t, VariableDebtBalance(r, u, t));
      }
      SwapIsSound(r, u, mode, t, s);
  }

  /** The scaled variable debt an action adds, negative when it takes debt away. */
  ghost function DebtChange(r: Reserve, ev: Event): int
    requires VariableIndexAt(r, ev.time) != 0
  {
    var u, t, index := ev.user, ev.time, VariableIndexAt(r, ev.time);
    match ev.action
    case Borrow(mode, amount, _) => if mode == Stable then 0 else RayDiv(amount, index)
    case Repay(mode, amount, _) => if mode == Stable then 0 else -RayDiv(RepayAmount(r, u, mode, amount, t), index)
    case Swap(mode) => if mode == Stable then RayDiv(UserStableDebt(u, t), index) else -u.scaledVariableDebt
    case _ => 0
  }

  /** The reserve's side of the change; a swap to stable unscales to the user's whole debt. */
  lemma ReserveDebtChanges(st: State, ev: Event, s: Strategy)
    requires Valid(st) && s.Sound() && Permitted(st, ev) && Defined(st.reserve, ev, s)
    ensures NextReserve(st.reserve, ev, s).scaledVariableDebt == st.reserve.scaledVariableDebt + DebtChange(st.reserve, ev)
  {
    hide RayMul, RayDiv, VariableIndexAt, LiquidityIndexAt, TotalStableDebtAt, VariableDebtBalance, UserStableDebt,
         UtilizationRate, InterestRates, AverageStableRate, StableDebtBalance, StableLeft, WithdrawAmount,
         NormalizedDebt, RepayAmount;
    var r, u, t := st.reserve, ev.user, ev.time;
    DebtWithinTotal(st.accounts, ev.who);
    if ev.action.Swap? && ev.action.mode != Stable {
      VariableDebtNonNegative(r, u, t);
      DebtUnscales(r, u, t, VariableDebtBalance(r, u, t));
    }
  }

  /** The user's side of the change is the same, and never takes more than the user owes, unless
      a full variable repayment is read too late. */
  lemma UserDebtChanges(st: State, ev: Event, s: Strategy)
    requires Valid(st) && s.Sound() && Permitted(st, ev) && Defined(st.reserve, ev, s)
    ensures var e := NextReserve(st.reserve, ev, s);
            && e.liquidityIndex != 0 && e.variableBorrowIndex != 0
            && (NextUser(st.reserve, e, ev, s).scaledVariableDebt == ev.user.scaledVariableDebt + DebtChange(st.reserve, ev)
                <==> RepaysDebtAsRead(st.reserve, ev))
            && ev.user.scaledVariableDebt + DebtChange(st.reserve, ev) >= 0
  {
    hide RayMul, RayDiv, VariableIndexAt, LiquidityIndexAt, TotalStableDebtAt, VariableDebtBalance, UserStableDebt,
         UtilizationRate, InterestRates, AverageStableRate, UserStableRate, StableDebtBalance, StableLeft,
         ATokenBalance, WithdrawAmount, NormalizedDebt;
    StepIsSound(st, ev, s);
    var r, u, t := st.reserve, ev.user, ev.time;
    DebtWithinTotal(st.accounts, ev.who);
    match ev.action
    case Borrow(mode, amount, readTime) => RayDivNearest(amount, VariableIndexAt(r, t));
    case Repay(mode, amount, readTime) =>
      if mode != Stable {
        DebtUnscales(r, u, t, RepayAmount(r, u, mode, amount, t));
      }
    case Swap(mode) =>
      UserStableNonNegative(u, t);
      RayDivNearest(UserStableDebt(u, t), VariableIndexAt(r, t));
    case _ =>
  }

  /** A repayment read at its own time, or of an explicit amount, always repays as read. */
  lemma ReadAtOnceRepays(st: State, ev: Event, s: Strategy)
    requires Valid(st) && s.Sound() && Permitted(st, ev) && ev.action.Repay?
    requires ev.action.readTime == ev.time || Abs(ev.action.amount) != MAX_UINT_AMOUNT
    ensures RepaysDebtAsRead(st.reserve, ev)
  {
    hide RayMul, RayDiv, VariableIndexAt, VariableDebtBalance, UserStableDebt;
    StepIsSound(st, ev, s);
    var r, u, t := st.reserve, ev.user, ev.time;
    DebtWithinTotal(st.accounts, ev.who);
    if ev.action.mode != Stable && Abs(ev.action.amount) == MAX_UINT_AMOUNT {
      DebtUnscales(r, u, t, VariableDebtBalance(r, u, t));
    }
  }

  /** The ledger adds up after an event, whenever it is read, exactly if a full variable
      repayment repays the debt as read. */
  lemma LedgerAddsUpExactly(st: State, ev: Event, s: Strategy)
    requires Valid(st) && s.Sound() && Permitted(st, ev)
    ensures Defined(st.reserve, ev, s)
    ensures var e := NextReserve(st.reserve, ev, s); e.liquidityIndex != 0 && e.variableBorrowIndex != 0
    ensures var e := NextReserve(st.reserve, ev, s);
            var v := NextUser(st.reserve, e, ev, s);
            TotalDebt(st.accounts[ev.who := Account(v.scaledATokenBalance, v.scaledVariableDebt)]) == e.scaledVariableDebt
            <==> RepaysDebtAsRead(st.reserve, ev)
  {
    hide Defined, NextReserve, NextUser, Sound, Grown, DebtChange, RepaysDebtAsRead;
    StepIsSound(st, ev, s);
    ReserveDebtChanges(st, ev, s);
    UserDebtChanges(st, ev, s);
    var v := NextUser(st.reserve, NextReserve(st.reserve, ev, s), ev, s);
    TotalsAfterUpdate(st.accounts, ev.who, Account(v.scaledATokenBalance, v.scaledVariableDebt));
  }

  /** The next state: the reserve and the acting user's two scaled balances. */
  ghost function Next(st: State, ev: Event, s: Strategy): State
    requires Valid(st) && s.Sound() && Allowed(st, ev)
  {
    StepIsSound(st, ev, s);
    var e := NextReserve(st.reserve, ev, s);
    var v := NextUser(st.reserve, e, ev, s);
    State(e, st.accounts[ev.who := Account(v.scaledATokenBalance, v.scaledVariableDebt)], NextClock(ev))
  }

  lemma StepKeepsLedger(st: State, ev: Event, s: Strategy)
    requires Valid(st) && s.Sound() && Allowed(st, ev)
    ensures Valid(Next(st, ev, s))
    ensures Grown(st.reserve, Next(st, ev, s).reserve) && st.clock <= Next(st, ev, s).clock
    ensures |Next(st, ev, s).accounts| == |st.accounts|
  {
    hide Defined, NextReserve, NextUser, Sound, Grown, DebtChange;
    StepIsSound(st, ev, s);
    ReserveDebtChanges(st, ev, s);
    UserDebtChanges(st, ev, s);
    var v := NextUser(st.reserve, NextReserve(st.reserve, ev, s), ev, s);
    TotalsAfterUpdate(st.accounts, ev.who, Account(v.scaledATokenBalance, v.scaledVariableDebt));
  }

  // ---- Runs ----

  ghost predicate AllowedRun(st: State, evs: seq<Event>, s: Strategy)
    requires Valid(st) && s.Sound()
    decreases |evs|
  {
    evs != [] ==>
      Allowed(st, evs[0]) && (StepKeepsLedger(st, evs[0], s); AllowedRun(Next(st, evs[0], s), evs[1..], s))
  }

  ghost function Run(st: State, evs: seq<Event>, s: Strategy): State
    requires Valid(st) && s.Sound() && AllowedRun(st, evs, s)
    decreases |evs|
  {
    if evs == [] then st else
      StepKeepsLedger(st, evs[0], s);
      Run(Next(st, evs[0], s), evs[1..], s)
  }

  /** Over every run of reads, deposits, withdrawals, borrows, repayments and swaps by any
      number of users: the reserve's scaled variable debt is the sum of the users', no debt,
      cash or rate is negative, and neither index ever falls or drops below one ray. */
  lemma {:induction false} RunKeepsLedger(st: State, evs: seq<Event>, s: Strategy)
    requires Valid(st) && s.Sound() && AllowedRun(st, evs, s)
    ensures var end := Run(st, evs, s);
            var r := end.reserve;
            && TotalDebt(end.accounts) == r.scaledVariableDebt
            && DebtsNonNegative(end.accounts) && |end.accounts| == |st.accounts|
            && r.availableLiquidity >= 0 && r.principalStableDebt >= 0 && r.averageStableBorrowRate >= 0
            && r.liquidityRate >= 0 && r.variableBorrowRate >= 0 && r.stableBorrowRate >= 0
            && RAY <= st.reserve.liquidityIndex <= r.liquidityIndex
            && RAY <= st.reserve.variableBorrowIndex <= r.variableBorrowIndex
            && Valid(end)
    decreases |evs|
  {
    if evs != [] {
      hide Next, Allowed;
      StepKeepsLedger(st, evs[0], s);
      RunKeepsLedger(Next(st, evs[0], s), evs[1..], s);
    }
  }

  lemma UserStableNonNegative(u: User, now: int)
    requires u.principalStableDebt >= 0 && u.stableBorrowRate >= 0 && u.stableRateLastUpdated <= now
    ensures UserStableDebt(u, now) >= 0
  {
    StableBalanceGrows(u.principalStableDebt, u.stableBorrowRate, u.stableRateLastUpdated, now);
  }

}
