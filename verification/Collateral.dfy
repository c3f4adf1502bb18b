/** Runs of vault-collateral deposits and withdrawals. Users hold the amounts they put in;
    the reserve holds vault shares, each move rounded at the liquidity index found after it.
    The reserve may carry debt as long as it can be priced; one without debt always can. */
module Collateral {
  import Accrual
  import opened FixedPoint
  import opened RateModel
  import opened Reserves
  import opened Soundness
  import Supply

  datatype Move = Put(amount: int) | Take(amount: int)

  /** A move by a user, with the reserve as read after it. */
  datatype Event = Event(move: Move, who: nat, user: User, after: Reserve, time: int)

  /** The expected reserve, the users' balances and the index of the last move. */
  datatype Vault = Vault(reserve: Reserve, balances: seq<int>, index: int)

  function Total(balances: seq<int>): int {
    if balances == [] then 0 else balances[0] + Total(balances[1..])
  }

  ghost predicate NonNegative(balances: seq<int>) {
    forall i :: 0 <= i < |balances| ==> balances[i] >= 0
  }

  ghost predicate DebtFree(r: Reserve) { r.scaledVariableDebt == 0 && r.principalStableDebt == 0 }

  ghost predicate Valid(v: Vault) { NonNegative(v.balances) && v.index >= RAY }

  /** Pricing after the move does not divide by zero. */
  ghost predicate Defined(b: Reserve, ev: Event) {
    && ev.after.liquidityIndex != 0
    && match ev.move
       case Put(amount) => Priced(DepositCollateralBalances(b, ev.after, amount, ev.time))
       case Take(amount) => Priced(WithdrawCollateralBalances(b, ev.after, ev.user, amount, ev.time))
  }

  /** No user takes more than the own balance, and the vault's index never falls. */
  ghost predicate Allowed(v: Vault, ev: Event) {
    && ev.who < |v.balances|
    && ev.user.scaledATokenBalance == v.balances[ev.who]
    && v.index <= ev.after.liquidityIndex
    && Defined(v.reserve, ev)
    && match ev.move
       case Put(amount) => amount >= 0
       case Take(amount) => amount == MAX_UINT_AMOUNT || 0 <= amount <= ev.user.scaledATokenBalance
  }

  /** A reserve without debt can be priced after any move, and stays without debt. */
  lemma DebtFreeIsDefined(b: Reserve, ev: Event)
    requires DebtFree(b) && ev.after.liquidityIndex != 0
    ensures Defined(b, ev)
    ensures match ev.move
            case Put(amount) => DebtFree(DepositCollateralBalances(b, ev.after, amount, ev.time))
            case Take(amount) => DebtFree(WithdrawCollateralBalances(b, ev.after, ev.user, amount, ev.time))
  {
    hide RayMul, RayDiv, LiquidityIndexAt, VariableIndexAt, WithdrawCollateralAmount;
    RayMulByZero(VariableIndexAt(b, ev.time));
    RayMulByZero(Accrual.CompoundedInterest(b.averageStableBorrowRate, ev.time - b.totalStableDebtLastUpdated));
  }

  ghost function Next(v: Vault, ev: Event, s: Strategy): Vault
    requires Valid(v) && Allowed(v, ev) && s.Divisible()
  {
    var b, u, t := v.reserve, ev.user, ev.time;
    match ev.move
    case Put(amount) =>
      Vault(AfterDepositCollateral(b, ev.after, amount, t, s),
            v.balances[ev.who := UserAfterDepositCollateral(b, u, amount, t).scaledATokenBalance],
            ev.after.liquidityIndex)
    case Take(amount) =>
      Vault(AfterWithdrawCollateral(b, ev.after, u, amount, t, s),
            v.balances[ev.who := UserAfterWithdrawCollateral(b, u, amount, t).scaledATokenBalance],
            ev.after.liquidityIndex)
  }

  // ---- One move ----

  /** The amount a move adds to the user's balance, negative for a withdrawal; the maximum amount
      takes the whole balance. */
  function Change(ev: Event): int {
    match ev.move
    case Put(amount) => amount
    case Take(amount) => if amount == MAX_UINT_AMOUNT then -ev.user.scaledATokenBalance else -amount
  }

  lemma AtOneRay(amount: int)
    requires amount >= 0
    ensures RayDiv(amount, RAY) == amount
  {
    RayMulByOne(amount);
    RayRecovery(amount, RAY);
  }

  /** A move changes the user's balance by the amount and the cash by the shares, and keeps
      everything else; taking everything leaves exactly nothing. */
  lemma MoveEffects(v: Vault, ev: Event, s: Strategy)
    requires Valid(v) && Allowed(v, ev) && s.Divisible()
    ensures var n := Next(v, ev, s);
            && n.balances == v.balances[ev.who := v.balances[ev.who] + Change(ev)]
            && n.index == ev.after.liquidityIndex
            && n.reserve.availableLiquidity - v.reserve.availableLiquidity
               == (if ev.move.Put? then RayDiv(Change(ev), ev.after.liquidityIndex)
                                   else -RayDiv(-Change(ev), ev.after.liquidityIndex))
            && Valid(n)
            && (ev.move == Take(MAX_UINT_AMOUNT) ==> n.balances[ev.who] == 0)
  {
    hide RayMul, RayDiv, LiquidityIndexAt, VariableIndexAt, UtilizationRate, InterestRates, TotalStableDebtAt;
    AtOneRay(0);
    AtOneRay(if ev.move.Put? then Change(ev) else -Change(ev));
  }

  /** The reported user and reserve of a move: the collateral balance is the scaled one, debts are
      those of the transaction, and the index is the one a deposit into the reserve as found
      afterwards would store. */
  lemma MoveReports(v: Vault, ev: Event, s: Strategy)
    requires Valid(v) && Allowed(v, ev) && s.Divisible()
    ensures var n := Next(v, ev, s);
            var b, e, u, t := v.reserve, n.reserve, ev.user, ev.time;
            var w := if ev.move.Put? then UserAfterDepositCollateral(b, u, ev.move.amount, t)
                                     else UserAfterWithdrawCollateral(b, u, ev.move.amount, t);
            && w.currentATokenBalance == w.scaledATokenBalance == n.balances[ev.who]
            && w.currentStableDebt == UserStableDebt(u, t) && w.currentVariableDebt == VariableDebtBalance(b, u, t)
            && w.principalStableDebt == (if ev.move.Put? then w.currentVariableDebt else u.principalStableDebt)
            && w.scaledVariableDebt == u.scaledVariableDebt
            && e.liquidityIndex == DepositBalances(ev.after, 0, t).liquidityIndex
            && e.totalStableDebt == TotalStableDebtAt(e, t) && e.scaledVariableDebt == b.scaledVariableDebt
            && e.totalVariableDebt == RayMul(e.scaledVariableDebt, e.variableBorrowIndex)
            && e.totalLiquidity == (if ev.move.Put? then b.totalLiquidity else b.availableLiquidity + e.totalStableDebt + e.totalVariableDebt)
                                   + (e.availableLiquidity - b.availableLiquidity)
  {
    hide RayMul, RayDiv, LiquidityIndexAt, VariableIndexAt, UtilizationRate, InterestRates,
         UserStableDebt, VariableDebtBalance, Accrual.CompoundedInterest;
    MoveEffects(v, ev, s);
  }

  lemma {:induction false} TotalAfterUpdate(balances: seq<int>, i: nat, x: int)
    requires i < |balances|
    ensures Total(balances[i := x]) == Total(balances) - balances[i] + x
  {
    var updated := balances[i := x];
    if i == 0 {
      assert updated[1..] == balances[1..];
    } else {
      assert updated[1..] == balances[1..][i - 1 := x];
      TotalAfterUpdate(balances[1..], i - 1, x);
    }
  }

  lemma {:induction false} TotalNonNegative(balances: seq<int>)
    requires NonNegative(balances)
    ensures Total(balances) >= 0
  {
    if balances != [] {
      TotalNonNegative(balances[1..]);
    }
  }

  /** Cash covers the balances at the current index, give or take half a share per move. */
  ghost predicate Solvent(v: Vault, moves: nat) {
    2 * RAY * Total(v.balances) <= v.index * (2 * v.reserve.availableLiquidity + moves)
  }

  lemma MoveKeepsSolvency(v: Vault, ev: Event, s: Strategy, moves: nat)
    requires Valid(v) && Allowed(v, ev) && s.Divisible() && Solvent(v, moves)
    ensures Valid(Next(v, ev, s)) && Solvent(Next(v, ev, s), moves + 1)
  {
    hide Next, RayDiv, WithdrawCollateralAmount;
    MoveEffects(v, ev, s);
    TotalNonNegative(v.balances);
    TotalAfterUpdate(v.balances, ev.who, v.balances[ev.who] + Change(ev));
    var amount := if ev.move.Put? then Change(ev) else -Change(ev);
    RayDivNearest(amount, ev.after.liquidityIndex);
    SolvencyStep(Total(v.balances), v.reserve.availableLiquidity, moves, v.index, ev.after.liquidityIndex,
                 amount, CollateralShares(ev.after, amount));
  }

  lemma SolvencyStep(total: int, cash: int, moves: nat, index: int, index': int, amount: int, shares: int)
    requires total >= 0 && 0 < index <= index'
    requires 2 * RAY * total <= index * (2 * cash + moves)
    requires 2 * RAY * amount - index' <= 2 * (index' * shares) <= 2 * RAY * amount + index'
    ensures 2 * RAY * (total + amount) <= index' * (2 * (cash + shares) + (moves + 1))
    ensures 2 * RAY * (total - amount) <= index' * (2 * (cash - shares) + (moves + 1))
  {
    var c := 2 * cash + moves;
    NonNegativeFactor(index, c);
    ProductMonotone(index, index', c);
    assert index' * (2 * (cash + shares) + (moves + 1)) == index' * c + 2 * (index' * shares) + index';
    assert index' * (2 * (cash - shares) + (moves + 1)) == index' * c - 2 * (index' * shares) + index';
  }

  // ---- Runs ----

  ghost predicate AllowedRun(v: Vault, evs: seq<Event>, s: Strategy)
    requires Valid(v) && s.Divisible()
    decreases |evs|
  {
    evs != [] ==>
      Allowed(v, evs[0]) && (MoveEffects(v, evs[0], s); AllowedRun(Next(v, evs[0], s), evs[1..], s))
  }

  ghost function Run(v: Vault, evs: seq<Event>, s: Strategy): Vault
    requires Valid(v) && s.Divisible() && AllowedRun(v, evs, s)
    decreases |evs|
  {
    if evs == [] then v else
      MoveEffects(v, evs[0], s);
      Run(Next(v, evs[0], s), evs[1..], s)
  }

  lemma EmptyRun(v: Vault, s: Strategy)
    requires Valid(v) && s.Divisible()
    ensures AllowedRun(v, [], s) && Run(v, [], s) == v
  {
    hide Valid;
  }

  /** The first move of a run and the rest of it. */
  lemma RunSplits(v: Vault, evs: seq<Event>, s: Strategy)
    requires Valid(v) && s.Divisible() && AllowedRun(v, evs, s) && evs != []
    ensures Allowed(v, evs[0]) && Valid(Next(v, evs[0], s)) && AllowedRun(Next(v, evs[0], s), evs[1..], s)
    ensures Run(v, evs, s) == Run(Next(v, evs[0], s), evs[1..], s)
  {
    hide Next, Allowed, Valid;
    MoveEffects(v, evs[0], s);
  }

  lemma {:induction false} RunKeepsSolvency(v: Vault, evs: seq<Event>, s: Strategy, moves: nat)
    requires Valid(v) && s.Divisible() && AllowedRun(v, evs, s) && Solvent(v, moves)
    ensures Valid(Run(v, evs, s)) && Solvent(Run(v, evs, s), moves + |evs|)
    decreases |evs|
  {
    hide *;
    if evs == [] {
      EmptyRun(v, s);
    } else {
      RunSplits(v, evs, s);
      MoveKeepsSolvency(v, evs[0], s, moves);
      RunKeepsSolvency(Next(v, evs[0], s), evs[1..], s, moves + 1);
    }
  }

  /** Over every run of moves from an empty vault: no user's balance is negative, and cash is
      at least the balances at the current index less half a share per move, hence never
      below minus half the number of moves. */
  lemma EmptyVaultStaysSolvent(v: Vault, evs: seq<Event>, s: Strategy)
    requires Valid(v) && Total(v.balances) == 0 && v.reserve.availableLiquidity == 0
    requires s.Divisible() && AllowedRun(v, evs, s)
    ensures var end := Run(v, evs, s);
            && NonNegative(end.balances)
            && 2 * RAY * Total(end.balances) <= end.index * (2 * end.reserve.availableLiquidity + |evs|)
            && 2 * end.reserve.availableLiquidity >= -|evs|
  {
    hide Run, AllowedRun;
    assert v.index * (2 * 0 + 0) == 0;
    assert Solvent(v, 0);
    RunKeepsSolvency(v, evs, s, 0);
    var end := Run(v, evs, s);
    TotalNonNegative(end.balances);
    NonNegativeFactor(end.index, 2 * end.reserve.availableLiquidity + |evs|);
  }

  // ---- How short the cash can run ----

  /** Solvency with something to spare, as it is after any move of a run from empty. */
  ghost predicate Spared(v: Vault, moves: nat) {
    2 * RAY * Total(v.balances) < v.index * (2 * v.reserve.availableLiquidity + moves)
  }

  ghost predicate Empty(v: Vault) {
    Valid(v) && Total(v.balances) == 0 && v.reserve.availableLiquidity == 0
  }

  ghost predicate SparedOrEmpty(v: Vault, moves: nat) { Spared(v, moves) || (Empty(v) && moves == 0) }

  /** A deposit never rounds down by a whole half share, and nothing can be taken from an empty
      vault: the first move spares something, and every later one keeps it. */
  lemma MoveSpares(v: Vault, ev: Event, s: Strategy, moves: nat)
    requires Valid(v) && Allowed(v, ev) && s.Divisible()
    requires SparedOrEmpty(v, moves)
    ensures SparedOrEmpty(Next(v, ev, s), moves + 1)
  {
    hide Next, RayDiv, WithdrawCollateralAmount;
    MoveEffects(v, ev, s);
    TotalNonNegative(v.balances);
    TotalAfterUpdate(v.balances, ev.who, v.balances[ev.who] + Change(ev));
    var amount, index := if ev.move.Put? then Change(ev) else -Change(ev), ev.after.liquidityIndex;
    SharesSpare(amount, index);
    SpareStep(Total(v.balances), v.reserve.availableLiquidity, moves, v.index, index, amount, CollateralShares(ev.after, amount),
              ev.move.Put?);
    if ev.move.Take? && Total(v.balances) == 0 {
      WithinTotal(v.balances, ev.who);
      RayDivOfZero(index);
    }
  }

  lemma {:induction false} WithinTotal(balances: seq<int>, i: nat)
    requires NonNegative(balances) && i < |balances|
    ensures balances[i] <= Total(balances)
  {
    TotalNonNegative(balances[1..]);
    if i > 0 {
      WithinTotal(balances[1..], i - 1);
    }
  }

  lemma SharesSpare(amount: int, index: int)
    requires amount >= 0 && index > 0
    ensures 2 * RAY * amount - index < 2 * (index * RayDiv(amount, index)) <= 2 * RAY * amount + index
  {
    QuotientBounds(index / 2 + amount * RAY, index);
  }

  lemma SpareStep(total: int, cash: int, moves: nat, index: int, index': int, amount: int, shares: int, put: bool)
    requires total >= 0 && 0 < index <= index'
    requires 2 * RAY * amount - index' < 2 * (index' * shares) <= 2 * RAY * amount + index'
    requires 2 * RAY * total < index * (2 * cash + moves) || (total == cash == moves == 0)
    ensures put ==> 2 * RAY * (total + amount) < index' * (2 * (cash + shares) + (moves + 1))
    ensures !put && 2 * RAY * total < index * (2 * cash + moves) ==>
              2 * RAY * (total - amount) < index' * (2 * (cash - shares) + (moves + 1))
  {
    var c := 2 * cash + moves;
    assert index * c >= 0 by {
      if total == cash == moves == 0 { assert index * c == 0; }
    }
    NonNegativeFactor(index, c);
    ProductMonotone(index, index', c);
    assert index' * (2 * (cash + shares) + (moves + 1)) == index' * c + 2 * (index' * shares) + index';
    assert index' * (2 * (cash - shares) + (moves + 1)) == index' * c - 2 * (index' * shares) + index';
  }

  lemma {:induction false} RunSpares(v: Vault, evs: seq<Event>, s: Strategy, moves: nat)
    requires Valid(v) && s.Divisible() && AllowedRun(v, evs, s) && SparedOrEmpty(v, moves)
    ensures Valid(Run(v, evs, s)) && SparedOrEmpty(Run(v, evs, s), moves + |evs|)
    decreases |evs|
  {
    hide *;
    if evs == [] {
      EmptyRun(v, s);
    } else {
      RunSplits(v, evs, s);
      MoveSpares(v, evs[0], s, moves);
      RunSpares(Next(v, evs[0], s), evs[1..], s, moves + 1);
    }
  }

  /** After k moves from empty the cash is never below minus (k - 1) / 2 shares. */
  lemma EmptyVaultShortfall(v: Vault, evs: seq<Event>, s: Strategy)
    requires Empty(v) && s.Divisible() && AllowedRun(v, evs, s) && evs != []
    ensures Run(v, evs, s).reserve.availableLiquidity >= -((|evs| - 1) / 2)
  {
    hide Run, AllowedRun;
    RunSpares(v, evs, s, 0);
    var end := Run(v, evs, s);
    TotalNonNegative(end.balances);
    PositiveFactor(end.index, 2 * end.reserve.availableLiquidity + |evs|);
  }

  lemma PositiveFactor(k: int, x: int)
    requires k > 0 && k * x > 0
    ensures x > 0
  {
    if x <= 0 {
      ProductMonotone(x, 0, k);
    }
  }

  // ---- Runs that reach it ----

  /** A reserve of one user's vault at two rays a share. */
  function AtTwoRays(cash: int): Reserve {
    Reserve(cash, cash, 0, 0, 0, 0, 0, 0, 0, 0, 0, 2 * RAY, RAY, 0, 0, 0)
  }

  function Holder(balance: int): User { User(balance, balance, 0, 0, 0, 0, 0, 0) }

  function PutEvent(amount: int, balance: int): Event { Event(Put(amount), 0, Holder(balance), AtTwoRays(0), 0) }

  function TakeEvent(balance: int): Event { Event(Take(1), 0, Holder(balance), AtTwoRays(0), 0) }

  /** Taking the balance out one unit at a time. */
  function Takes(balance: nat): seq<Event> {
    if balance == 0 then [] else [TakeEvent(balance)] + Takes(balance - 1)
  }

  /** A vault of one user with the balance, at two rays. */
  ghost predicate Single(v: Vault, balance: int) {
    v.balances == [balance] && v.index == 2 * RAY && DebtFree(v.reserve)
  }

  lemma HalvesRoundUp(n: nat)
    ensures RayDiv(2 * n, 2 * RAY) == n && RayDiv(1, 2 * RAY) == 1 && RayDiv(0, 2 * RAY) == 0
  {
    QuotientUnique(RAY + 2 * n * RAY, 2 * RAY, n);
    QuotientUnique(RAY + RAY, 2 * RAY, 1);
    QuotientUnique(RAY, 2 * RAY, 0);
  }

  lemma MoveKeepsDebtFree(v: Vault, ev: Event, s: Strategy)
    requires Valid(v) && Allowed(v, ev) && s.Divisible() && DebtFree(v.reserve)
    ensures DebtFree(Next(v, ev, s).reserve)
  {
    hide RayMul, RayDiv, LiquidityIndexAt, VariableIndexAt, UtilizationRate, InterestRates, TotalStableDebtAt;
    DebtFreeIsDefined(v.reserve, ev);
  }

  /** A unit taken at two rays costs a whole share. */
  lemma TakeOne(v: Vault, balance: nat)
    requires Single(v, balance) && balance > 0
    ensures Valid(v) && Allowed(v, TakeEvent(balance))
    ensures var n := Next(v, TakeEvent(balance), Supply.FLAT);
            Single(n, balance - 1) && n.reserve.availableLiquidity == v.reserve.availableLiquidity - 1
  {
    hide Next, RayDiv, Defined, DebtFree;
    DebtFreeIsDefined(v.reserve, TakeEvent(balance));
    MoveEffects(v, TakeEvent(balance), Supply.FLAT);
    MoveKeepsDebtFree(v, TakeEvent(balance), Supply.FLAT);
    HalvesRoundUp(0);
  }

  lemma PutSome(v: Vault, n: nat, balance: nat)
    requires Single(v, balance)
    ensures Valid(v) && Allowed(v, PutEvent(2 * n, balance))
    ensures var next := Next(v, PutEvent(2 * n, balance), Supply.FLAT);
            Single(next, balance + 2 * n) && next.reserve.availableLiquidity == v.reserve.availableLiquidity + n
  {
    hide Next, RayDiv, Defined, DebtFree;
    DebtFreeIsDefined(v.reserve, PutEvent(2 * n, balance));
    MoveEffects(v, PutEvent(2 * n, balance), Supply.FLAT);
    MoveKeepsDebtFree(v, PutEvent(2 * n, balance), Supply.FLAT);
    HalvesRoundUp(n);
  }

  /** A move in front of a run. */
  lemma RunFrom(v: Vault, ev: Event, evs: seq<Event>, s: Strategy)
    requires Valid(v) && Allowed(v, ev) && s.Divisible()
    requires Valid(Next(v, ev, s)) && AllowedRun(Next(v, ev, s), evs, s)
    ensures AllowedRun(v, [ev] + evs, s)
    ensures Run(v, [ev] + evs, s) == Run(Next(v, ev, s), evs, s)
  {
    hide Next, Allowed, Valid;
    assert ([ev] + evs)[1..] == evs;
  }

  lemma {:induction false} TakesRun(v: Vault, balance: nat)
    requires Single(v, balance)
    ensures Valid(v) && AllowedRun(v, Takes(balance), Supply.FLAT) && |Takes(balance)| == balance
    ensures var end := Run(v, Takes(balance), Supply.FLAT);
            Single(end, 0) && end.reserve.availableLiquidity == v.reserve.availableLiquidity - balance
    decreases balance
  {
    hide Next, Allowed, DebtFree;
    if balance > 0 {
      hide Run, AllowedRun;
      TakeOne(v, balance);
      TakesRun(Next(v, TakeEvent(balance), Supply.FLAT), balance - 1);
      RunFrom(v, TakeEvent(balance), Takes(balance - 1), Supply.FLAT);
    }
  }

  lemma PutThenTakes(v: Vault, n: nat)
    requires Single(v, 0)
    ensures var evs := [PutEvent(2 * n, 0)] + Takes(2 * n);
            && |evs| == 2 * n + 1
            && Valid(v) && AllowedRun(v, evs, Supply.FLAT)
            && Single(Run(v, evs, Supply.FLAT), 0)
            && Run(v, evs, Supply.FLAT).reserve.availableLiquidity == v.reserve.availableLiquidity - n
  {
    hide Next, Allowed, DebtFree, Takes, Run, AllowedRun;
    PutSome(v, n, 0);
    TakesRun(Next(v, PutEvent(2 * n, 0), Supply.FLAT), 2 * n);
    RunFrom(v, PutEvent(2 * n, 0), Takes(2 * n), Supply.FLAT);
  }

  /** An empty vault and k moves that leave it (k - 1) / 2 shares short with nothing owed: an
      idle deposit if k is even, one deposit, and withdrawals of one unit each. */
  lemma ShortfallIsReached(k: nat) returns (v: Vault, evs: seq<Event>)
    requires k > 0
    ensures Empty(v) && |evs| == k && AllowedRun(v, evs, Supply.FLAT)
    ensures var end := Run(v, evs, Supply.FLAT);
            Total(end.balances) == 0 && end.reserve.availableLiquidity == -((k - 1) / 2)
  {
    hide Next, Allowed, Takes, Run, AllowedRun;
    var n := (k - 1) / 2;
    v := Vault(AtTwoRays(0), [0], 2 * RAY);
    assert v.balances[1..] == [] && Single(v, 0);
    evs := [PutEvent(2 * n, 0)] + Takes(2 * n);
    if k % 2 == 1 {
      PutThenTakes(v, n);
    } else {
      PutSome(v, 0, 0);
      PutThenTakes(Next(v, PutEvent(0, 0), Supply.FLAT), n);
      RunFrom(v, PutEvent(0, 0), evs, Supply.FLAT);
      evs := [PutEvent(0, 0)] + evs;
    }
    assert Run(v, evs, Supply.FLAT).balances[1..] == [];
  }
}
