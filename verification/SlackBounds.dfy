/** How small the slack of supplier coverage is: over a run it stays within a closed bound in
    the number of events, the elapsed seconds, and caps on what the run does. */
module SlackBounds {
  import opened FixedPoint
  import opened Accrual
  import opened RateModel
  import opened Reserves
  import opened Soundness
  import opened Ledger
  import opened Supply
  import opened Coverage

  /** Limits a run keeps: assets, scaled supply, indices, yearly rates, what a stated total
      misses, the age of the stable debt at an action, and what one clamp erases. */
  datatype Caps = Caps(assets: nat, supply: nat, index: nat, rate: nat, missed: nat, age: nat, erased: nat)

  ghost predicate ReserveCapped(r: Reserve, caps: Caps) {
    && Assets(r) <= caps.assets
    && r.liquidityIndex <= caps.index && r.variableBorrowIndex <= caps.index
    && r.liquidityRate <= caps.rate && r.variableBorrowRate <= caps.rate && r.averageStableBorrowRate <= caps.rate
    && r.lastUpdateTimestamp - r.totalStableDebtLastUpdated <= caps.age
  }

  ghost predicate EventCapped(st: State, ev: Event, s: Strategy, caps: Caps)
    requires Valid(st) && s.Sound() && Allowed(st, ev)
  {
    StepIsSound(st, ev, s);
    && ReserveCapped(st.reserve, caps) && TotalSupply(st.accounts) <= caps.supply
    && (!ev.action.Read? ==>
          var p := PricedReserve(st.reserve, ev, s);
          ReserveCapped(p, caps) && Staleness(p) <= caps.missed && ErasedBy(st.reserve, ev) <= caps.erased)
  }

  ghost predicate RunCapped(st: State, evs: seq<Event>, s: Strategy, caps: Caps)
    requires Valid(st) && s.Sound() && AllowedRun(st, evs, s)
    decreases |evs|
  {
    evs != [] ==>
      && EventCapped(st, evs[0], s, caps)
      && (StepKeepsLedger(st, evs[0], s); RunCapped(Next(st, evs[0], s), evs[1..], s, caps))
  }

  // ---- What one promise, one second and one event may cost ----

  function CostCap(caps: Caps): int {
    2 * WAD + 2 * caps.assets + caps.assets * (caps.rate + 1 + WAD) / RAY + 1 + 2 * (caps.missed * caps.rate)
  }

  /** The fourth-order interest that the third-order formula omits. */
  function OmittedCap(caps: Caps): int {
    var q := caps.rate / ONE_YEAR;
    caps.assets * (Choose(caps.age, 3) * (q * RayMul(RayMul(q, q), q)))
  }

  function SecondCap(caps: Caps): int {
    2 * (caps.rate / ONE_YEAR) + caps.assets + CostCap(caps) / (2 * ONE_YEAR) + 1
    + caps.assets * (caps.age + Choose(caps.age, 2)) + 2 * OmittedCap(caps) / RAY + 1
  }

  function EventCap(caps: Caps): int {
    caps.supply + caps.assets + 2 * caps.index + RAY * caps.erased + 5 * RAY + 3
  }

  /** The supplier rate per second, rounded up. */
  function RateCap(caps: Caps): int { caps.rate / ONE_YEAR + 1 }

  lemma CapsNonNegative(caps: Caps)
    ensures CostCap(caps) >= 0 && OmittedCap(caps) >= 0 && SecondCap(caps) >= 0 && EventCap(caps) >= 0 && RateCap(caps) >= 1
  {
    hide RayMul, Choose;
    var q := caps.rate / ONE_YEAR;
    QuotientBounds(caps.rate, ONE_YEAR);
    RayMulNearest(q, q);
    RayMulNearest(RayMul(q, q), q);
    var three := RayMul(RayMul(q, q), q);
    ProductNonNegative(q, three);
    ProductNonNegative(Choose(caps.age, 3), q * three);
    ProductNonNegative(caps.assets, Choose(caps.age, 3) * (q * three));
    ProductNonNegative(caps.assets, caps.age + Choose(caps.age, 2));
    ProductNonNegative(caps.missed, caps.rate);
    ProductNonNegative(caps.assets, caps.rate + 1 + WAD);
  }

  // ---- Pricing ----

  lemma ProductWithin(x: int, y: int, a: int, b: int)
    requires 0 <= x <= a && 0 <= y <= b
    ensures 0 <= x * y <= a * b
  {
    ProductNonNegative(x, y);
    ProductMonotone(x, a, y);
    ProductMonotone(y, b, a);
  }

  lemma OverallWithin(stableDebt: int, variableDebt: int, variableRate: int, average: int, rate: int)
    requires stableDebt >= 0 && variableDebt >= 0 && 0 <= variableRate <= rate && 0 <= average <= rate
    ensures 0 <= OverallBorrowRate(stableDebt, variableDebt, variableRate, average) <= rate + 1 + WAD
  {
    hide OverallBorrowRate;
    var total := stableDebt + variableDebt;
    var overall := OverallBorrowRate(stableDebt, variableDebt, variableRate, average);
    OverallRateIsWeightedMean(stableDebt, variableDebt, variableRate, average);
    if total > 0 {
      OverallRateWithinRange(stableDebt, variableDebt, variableRate, average, 0, rate);
      ProductMonotone(1, total, WAD);
      assert total * (rate + 1 + WAD) == total * (rate + 1) + total * WAD;
      CancelFactor(overall, rate + 1 + WAD, total);
    } else {
      NothingBorrowed(variableRate, average);
    }
  }

  lemma NothingBorrowed(variableRate: int, average: int)
    ensures OverallBorrowRate(0, 0, variableRate, average) == 0
  {
  }

  /** A capped pricing promises at most the cost cap too much. */
  lemma CostWithin(p: Reserve, now: int, caps: Caps)
    requires Sound(p, now) && StableDated(p) && Stated(p, now) && ReserveCapped(p, caps) && Staleness(p) <= caps.missed
    ensures PromiseCost(p) <= CostCap(caps)
  {
    hide OverallBorrowRate, RayMul, CompoundedInterest;
    ValuesNonNegative(p, now);
    var overall := OverallBorrowRate(p.totalStableDebt, p.totalVariableDebt, p.variableBorrowRate, p.averageStableBorrowRate);
    OverallWithin(p.totalStableDebt, p.totalVariableDebt, p.variableBorrowRate, p.averageStableBorrowRate, caps.rate);
    ProductWithin(p.totalLiquidity, overall, caps.assets, caps.rate + 1 + WAD);
    ProductWithin(Staleness(p), p.liquidityRate, caps.missed, caps.rate);
  }

  // ---- One interval ----

  lemma FloorTimes(n: int, z: int, d: int)
    requires n >= 0 && z >= 0 && d > 0
    ensures n * z / d <= n * (z / d + 1)
  {
    ProductNonNegative(n, z);
    QuotientBounds(z, d);
    QuotientBounds(n * z, d);
    ProductMonotone(z, d * (z / d + 1), n);
    assert n * (d * (z / d + 1)) == d * (n * (z / d + 1));
    CancelFactor(n * z / d, n * (z / d + 1), d);
  }

  lemma OmittedWithin(principal: int, q: int, m: nat, caps: Caps)
    requires 0 <= principal <= caps.assets && 0 <= q <= caps.rate / ONE_YEAR && m <= caps.age
    ensures 0 <= principal * (Choose(m, 3) * (q * RayMul(RayMul(q, q), q))) <= OmittedCap(caps)
    ensures 0 <= principal * (m + Choose(m, 2)) <= caps.assets * (caps.age + Choose(caps.age, 2))
  {
    hide RayMul, Choose;
    var most := caps.rate / ONE_YEAR;
    RayMulMonotone(q, q, most, most);
    RayMulMonotone(RayMul(q, q), q, RayMul(most, most), most);
    ProductWithin(q, RayMul(RayMul(q, q), q), most, RayMul(RayMul(most, most), most));
    ChooseMonotone(m, caps.age, 2);
    ChooseMonotone(m, caps.age, 3);
    ProductWithin(Choose(m, 3), q * RayMul(RayMul(q, q), q),
                  Choose(caps.age, 3), most * RayMul(RayMul(most, most), most));
    ProductWithin(principal, Choose(m, 3) * (q * RayMul(RayMul(q, q), q)),
                  caps.assets, Choose(caps.age, 3) * (most * RayMul(RayMul(most, most), most)));
    ProductWithin(principal, m + Choose(m, 2), caps.assets, caps.age + Choose(caps.age, 2));
  }

  lemma ShortfallWithin(principal: int, q: int, m: nat, n: int, caps: Caps)
    requires 0 <= principal <= caps.assets && 0 <= q <= caps.rate / ONE_YEAR && m <= caps.age && n >= 0
    ensures StableShortfall(principal, q, m, n)
         <= n * (caps.rate / ONE_YEAR) + n * (caps.assets * (caps.age + Choose(caps.age, 2)))
          + n * (2 * OmittedCap(caps) / RAY + 1) + 1 + 2 * RAY
  {
    hide RayMul, Choose, OmittedCap;
    OmittedWithin(principal, q, m, caps);
    var omitted := principal * (Choose(m, 3) * (q * RayMul(RayMul(q, q), q)));
    ProductMonotone(q, caps.rate / ONE_YEAR, n);
    ProductMonotone(principal * (m + Choose(m, 2)), caps.assets * (caps.age + Choose(caps.age, 2)), n);
    ProductMonotone(omitted, OmittedCap(caps), n);
    FloorTimes(n, 2 * OmittedCap(caps), RAY);
    assert n * (2 * OmittedCap(caps)) == 2 * (n * OmittedCap(caps));
  }

  lemma IntervalWithin(r: Reserve, supply: int, cost: int, now: int, caps: Caps)
    requires Sound(r, now) && StableDated(r) && ReserveCapped(r, caps)
    requires 0 <= supply <= caps.supply && 0 <= cost <= CostCap(caps)
    ensures IntervalCost(r, supply, cost, now - r.lastUpdateTimestamp)
         <= caps.supply + caps.assets + 4 * RAY + 3 + (now - r.lastUpdateTimestamp) * SecondCap(caps)
  {
    hide RayMul, Choose, CostCap, OmittedCap, CompoundedInterest, StableShortfall, VariableValue, StableValue;
    var n := now - r.lastUpdateTimestamp;
    PartsWithin(r, now, caps);
    QuotientBounds(r.variableBorrowRate, ONE_YEAR);
    ShortfallWithin(r.principalStableDebt, r.averageStableBorrowRate / ONE_YEAR,
                    r.lastUpdateTimestamp - r.totalStableDebtLastUpdated, n, caps);
    ProductMonotone(r.variableBorrowRate / ONE_YEAR, caps.rate / ONE_YEAR, n);
    ProductMonotone(VariableValue(r) + StableValue(r), caps.assets, n);
    assert n * (VariableValue(r) + StableValue(r)) == n * VariableValue(r) + n * StableValue(r);
    ProductMonotone(cost, CostCap(caps), n);
    FloorTimes(n, CostCap(caps), 2 * ONE_YEAR);
    SecondsAdd(n, caps.rate / ONE_YEAR, caps.assets, CostCap(caps) / (2 * ONE_YEAR) + 1,
               caps.assets * (caps.age + Choose(caps.age, 2)), 2 * OmittedCap(caps) / RAY + 1);
  }

  lemma SecondsAdd(n: int, q: int, assets: int, cost: int, age: int, omitted: int)
    ensures n * (2 * q + assets + cost + age + omitted) == 2 * (n * q) + n * assets + n * cost + n * age + n * omitted
  {
  }

  /** Debts, principal and scaled debt are within the assets, rates per second within theirs. */
  lemma PartsWithin(r: Reserve, now: int, caps: Caps)
    requires Sound(r, now) && StableDated(r) && ReserveCapped(r, caps)
    ensures 0 <= VariableValue(r) + StableValue(r) <= caps.assets
    ensures r.scaledVariableDebt <= caps.assets && r.principalStableDebt <= caps.assets
    ensures 0 <= r.variableBorrowRate / ONE_YEAR <= caps.rate / ONE_YEAR
    ensures 0 <= r.averageStableBorrowRate / ONE_YEAR <= caps.rate / ONE_YEAR
  {
    hide RayMul, CompoundedInterest;
    ValuesNonNegative(r, now);
    ScaleIsZeroOnlyAtZero(r.scaledVariableDebt, r.variableBorrowIndex);
    CompoundGrowth(r.averageStableBorrowRate, r.lastUpdateTimestamp - r.totalStableDebtLastUpdated, r.principalStableDebt);
    TruncDivMonotone(r.variableBorrowRate, caps.rate, ONE_YEAR);
    TruncDivMonotone(r.averageStableBorrowRate, caps.rate, ONE_YEAR);
  }

  /** What a supplier's balance gains in n seconds, per ray. */
  lemma LinearWithin(rate: int, n: int, caps: Caps)
    requires 0 <= rate <= caps.rate && n >= 0
    ensures 0 <= LinearInterest(rate, n) - RAY <= n * RateCap(caps)
  {
    hide LinearInterest;
    LinearAtLeastOne(rate, n);
    QuotientBounds(caps.rate, ONE_YEAR);
    ProductMonotone(rate, ONE_YEAR * RateCap(caps), n);
    assert n * (ONE_YEAR * RateCap(caps)) == ONE_YEAR * (n * RateCap(caps));
    CancelFactor(LinearInterest(rate, n) - RAY, n * RateCap(caps), ONE_YEAR);
  }

  // ---- One event ----

  /** The reserve an action prices is sound and states no more than it is worth. */
  lemma StepStates(st: State, ev: Event, s: Strategy)
    requires Valid(st) && s.Sound() && Allowed(st, ev) && !ev.action.Read?
    requires StableDated(st.reserve) && NotAhead(st.reserve, ev.time) && ev.time > 0
    ensures Defined(st.reserve, ev, s)
    ensures var p := PricedReserve(st.reserve, ev, s); Sound(p, ev.time) && StableDated(p) && Stated(p, ev.time)
  {
    hide RayMul, RayDiv, LiquidityIndexAt, VariableIndexAt, UtilizationRate, InterestRates, CompoundedInterest,
         VariableDebtBalance, UserStableDebt, StableDebtBalance, StableLeft, AverageStableRate,
         RepayAmount, WithdrawAmount, NormalizedDebt, NormalizedIncome, RepaysDebtAsRead, DebtsAt;
    StepIsSound(st, ev, s);
    var r, u, t := st.reserve, ev.user, ev.time;
    match ev.action
    case Deposit(amount) => SameStable(r, DepositBalances(r, amount, t), t);
    case Withdraw(amount) => WithdrawTaken(r, u, amount, t); TakenIsStated(WithdrawBalances(r, u, amount, t), t);
    case Borrow(mode, amount, _) =>
      BorrowBalancesSound(r, mode, amount, t, s);
      BorrowTaken(r, mode, amount, t);
      TakenIsStated(BorrowBalances(r, mode, amount, t), t);
    case Repay(mode, amount, _) =>
      RepayTaken(r, u, mode, amount, t);
      TakenIsStated(RepayBalances(r, u, mode, amount, t), t);
    case Swap(mode) => SwapStates(st, ev, s);
  }

  lemma SwapStates(st: State, ev: Event, s: Strategy)
    requires Valid(st) && s.Sound() && Allowed(st, ev) && ev.action.Swap?
    requires VariableIndexAt(st.reserve, ev.time) != 0
    ensures Stated(SwapBalances(st.reserve, ev.user, ev.action.mode, ev.time), ev.time)
  {
    hide RayMul, RayDiv, LiquidityIndexAt, VariableIndexAt, CompoundedInterest,
         VariableDebtBalance, UserStableDebt, AverageStableRate, TotalStableDebtAt;
    var r, u, t, mode := st.reserve, ev.user, ev.time, ev.action.mode;
    StableDebtGrows(r, t);
    if mode != Stable {
      DebtWithinTotal(st.accounts, ev.who);
      VariableDebtNonNegative(r, u, t);
    }
    SwapTaken(r, u, mode, t);
    TakenIsStated(SwapBalances(r, u, mode, t), t);
  }

  function Elapsed(st: State, ev: Event): int {
    if ev.action.Read? then 0 else ev.time - st.reserve.lastUpdateTimestamp
  }

  /** What a capped action costs, part by part. */
  lemma ActionCosts(st: State, ev: Event, s: Strategy, bound: Bound, caps: Caps)
    requires CoveredState(st, bound) && s.Sound() && Allowed(st, ev) && EventCapped(st, ev, s, caps)
    requires bound.cost <= CostCap(caps) && !ev.action.Read?
    ensures Elapsed(st, ev) >= 0 && StableDated(st.reserve) && Defined(st.reserve, ev, s)
    ensures var r, n, p := st.reserve, Elapsed(st, ev), PricedReserve(st.reserve, ev, s);
            && PromiseCost(p) <= CostCap(caps)
            && IntervalCost(r, TotalSupply(st.accounts), bound.cost, n)
                 <= caps.supply + caps.assets + 4 * RAY + 3 + n * SecondCap(caps)
            && 0 <= LinearInterest(r.liquidityRate, n) - RAY <= n * RateCap(caps)
            && ActionRounding(p) <= RAY + 2 * caps.index
            && ErasedBy(r, ev) <= caps.erased
  {
    hide PromiseCost, CostCap, SecondCap, RateCap, IntervalCost, PricedReserve, RepaysDebtAsRead, Promised, Assets, Covers,
         NotAhead, Staleness, ErasedBy, ReserveCapped, LinearInterest;
    var r, t, n := st.reserve, ev.time, Elapsed(st, ev);
    StepIsSound(st, ev, s);
    NotAheadLater(r, st.clock, t);
    StepStates(st, ev, s);
    var p := PricedReserve(r, ev, s);
    CostWithin(p, t, caps);
    SupplyTotalNonNegative(st.accounts);
    IntervalWithin(r, TotalSupply(st.accounts), bound.cost, t, caps);
    RateWithin(r, caps);
    LinearWithin(r.liquidityRate, n, caps);
    ActionWithin(p, caps);
  }

  /** The bound after an action, part by part. */
  lemma ActionBound(st: State, ev: Event, s: Strategy, bound: Bound)
    requires Valid(st) && s.Sound() && Allowed(st, ev) && StableDated(st.reserve) && !ev.action.Read?
    requires Defined(st.reserve, ev, s)
    ensures var r, p := st.reserve, PricedReserve(st.reserve, ev, s);
            var f := LinearInterest(r.liquidityRate, Elapsed(st, ev)) - RAY;
            NextBound(st, ev, s, bound)
            == Bound(bound.slack + bound.slack * f / RAY
                     + (IntervalCost(r, TotalSupply(st.accounts), bound.cost, Elapsed(st, ev))
                        + ActionRounding(p) + RAY * ErasedBy(r, ev)),
                     PromiseCost(p))
  {
    hide PromiseCost, IntervalCost, PricedReserve, Allowed, ErasedBy, LinearInterest, ActionRounding, Defined, Valid;
  }

  lemma SlackStep(slack: int, f: int, grown: int, next: int, cap: int)
    requires slack >= 0 && 0 <= f <= grown && next <= slack + slack * f / RAY + cap
    ensures RAY * (next - slack - cap) <= slack * grown
  {
    ProductMonotone(f, grown, slack);
    ProductNonNegative(slack, f);
    QuotientBounds(slack * f, RAY);
  }

  /** One capped event: the slack grows with the supplier rate and takes in the event's and the
      seconds' caps. */
  lemma EventWithin(st: State, ev: Event, s: Strategy, bound: Bound, caps: Caps)
    requires CoveredState(st, bound) && s.Sound() && Allowed(st, ev) && EventCapped(st, ev, s, caps)
    requires bound.cost <= CostCap(caps)
    ensures Elapsed(st, ev) >= 0
    ensures var next := NextBound(st, ev, s, bound);
            var f := LinearInterest(st.reserve.liquidityRate, Elapsed(st, ev)) - RAY;
            && next.cost <= CostCap(caps)
            && 0 <= f <= Elapsed(st, ev) * RateCap(caps)
            && next.slack <= bound.slack + bound.slack * f / RAY + (EventCap(caps) + Elapsed(st, ev) * SecondCap(caps))
  {
    hide PromiseCost, CostCap, SecondCap, RateCap, IntervalCost, PricedReserve, Allowed, Promised, Assets, Covers, StaysCovered,
         EventCapped, ErasedBy, LinearInterest, ActionRounding, CoveredState, Defined;
    CapsNonNegative(caps);
    SlackOf(st, bound);
    var n := Elapsed(st, ev);
    if ev.action.Read? {
      NoTimeNoGain(st.reserve.liquidityRate, bound.slack);
      assert 0 * RateCap(caps) == 0 && 0 * SecondCap(caps) == 0;
    } else {
      ActionCosts(st, ev, s, bound, caps);
      ActionBound(st, ev, s, bound);
      hide NextBound;
    }
  }

  lemma NoTimeNoGain(rate: int, slack: int)
    ensures LinearInterest(rate, 0) == RAY && slack * (LinearInterest(rate, 0) - RAY) / RAY == 0
  {
    assert rate * 0 == 0 && slack * 0 == 0;
  }

  lemma RateWithin(r: Reserve, caps: Caps)
    requires ReserveCapped(r, caps)
    ensures r.liquidityRate <= caps.rate
  {
  }

  lemma ActionWithin(p: Reserve, caps: Caps)
    requires ReserveCapped(p, caps)
    ensures ActionRounding(p) <= RAY + 2 * caps.index
  {
  }

  // ---- Runs ----

  lemma {:induction false} PowAdds(x: real, a: nat, b: nat)
    ensures Pow(x, a) * Pow(x, b) == Pow(x, a + b)
  {
    if a > 0 {
      PowAdds(x, a - 1, b);
      assert Pow(x, a) * Pow(x, b) == x * (Pow(x, a - 1) * Pow(x, b));
    }
  }

  lemma {:induction false} Bernoulli(x: real, n: nat)
    requires x >= 0.0
    ensures 1.0 + n as real * x <= Pow(1.0 + x, n)
  {
    if n > 0 {
      Bernoulli(x, n - 1);
      RealScale(1.0 + (n - 1) as real * x, Pow(1.0 + x, n - 1), 1.0 + x);
      var m := (n - 1) as real;
      assert x * (m * x) >= 0.0 by { assert m * (x * x) >= 0.0; }
      assert (1.0 + x) * (1.0 + m * x) == 1.0 + (m + 1.0) * x + x * (m * x);
    }
  }

  /** Compound growth by a rate per second. */
  function Growth(rate: int, n: nat): real { Pow(1.0 + Fraction(rate), n) }

  lemma StepGrows(before: int, after: int, event: int, seconds: int, rate: int, n: nat)
    requires before >= 0 && event >= 0 && seconds >= 0 && rate >= 0
    requires RAY * (after - before - (event + seconds)) <= before * (n * rate)
    ensures after as real <= (before + (event + seconds)) as real * Growth(rate, n)
  {
    hide Pow;
    var x, g := Fraction(rate), Growth(rate, n);
    Bernoulli(x, n);
    PowAtLeastOne(x, n);
    GainInRays(before, after - before - (event + seconds), rate, n);
    RealScale(1.0 + n as real * x, g, before as real);
    RealScale(1.0, g, (event + seconds) as real);
    assert before as real * (1.0 + n as real * x) == before as real + before as real * (n as real * x);
    assert (before + (event + seconds)) as real * g == before as real * g + (event + seconds) as real * g;
  }

  lemma GainInRays(before: int, gain: int, rate: int, n: nat)
    requires RAY * gain <= before * (n * rate)
    ensures gain as real <= before as real * (n as real * Fraction(rate))
  {
    var x, ray := Fraction(rate), RAY as real;
    assert rate as real == x * ray;
    IntProduct(n, rate);
    IntProduct(before, n * rate);
    IntProduct(RAY, gain);
    var y := before as real * (n as real * x);
    assert before as real * (n as real * (x * ray)) == ray * y;
    assert ray * gain as real <= ray * y;
    CancelRay(ray, gain as real, y);
  }

  /** The stamp of an action is its time. */
  lemma StepStamps(st: State, ev: Event, s: Strategy)
    requires Valid(st) && s.Sound() && Allowed(st, ev)
    ensures Next(st, ev, s).reserve.lastUpdateTimestamp == st.reserve.lastUpdateTimestamp + Elapsed(st, ev)
  {
    hide RayMul, RayDiv, LiquidityIndexAt, VariableIndexAt, UtilizationRate, InterestRates, TotalStableDebtAt,
         VariableDebtBalance, UserStableDebt, StableDebtBalance, StableLeft, AverageStableRate, NormalizedDebt,
         RepayAmount, WithdrawAmount, NextUser, RepaysDebtAsRead;
    StepIsSound(st, ev, s);
  }

  /** The seconds between the first and the last stamp of a run. */
  ghost function RunSeconds(st: State, evs: seq<Event>, s: Strategy): int
    requires Valid(st) && s.Sound() && AllowedRun(st, evs, s)
  {
    Run(st, evs, s).reserve.lastUpdateTimestamp - st.reserve.lastUpdateTimestamp
  }

  /** The first event of a covered run and the rest of it. */
  lemma RunSplits(st: State, evs: seq<Event>, s: Strategy, bound: Bound, caps: Caps)
    requires CoveredState(st, bound) && s.Sound() && AllowedRun(st, evs, s) && WithdrawalsWithin(st, evs, s)
    requires RunCapped(st, evs, s, caps) && evs != []
    ensures Valid(st) && Allowed(st, evs[0]) && StableDated(st.reserve) && EventCapped(st, evs[0], s, caps)
    ensures var n, next := Next(st, evs[0], s), NextBound(st, evs[0], s, bound);
            && CoveredState(n, next) && Valid(n) && AllowedRun(n, evs[1..], s) && WithdrawalsWithin(n, evs[1..], s)
            && RunCapped(n, evs[1..], s, caps)
            && RunBound(st, evs, s, bound) == RunBound(n, evs[1..], s, next)
            && RunSeconds(st, evs, s) == Elapsed(st, evs[0]) + RunSeconds(n, evs[1..], s)
  {
    hide Next, Allowed, NextBound, CoveredState, WithdrawsWithin, EventCapped, Elapsed;
    SlackOf(st, bound);
    StepKeepsLedger(st, evs[0], s);
    StepKeepsCoverage(st, evs[0], s, bound);
    StepStamps(st, evs[0], s);
  }

  /** The slack a capped run accumulates: a fixed amount per event and per second, grown at the
      supplier rate over the whole time. */
  lemma {:induction false} SlackStaysSmall(st: State, evs: seq<Event>, s: Strategy, bound: Bound, caps: Caps)
    requires CoveredState(st, bound) && s.Sound() && AllowedRun(st, evs, s) && WithdrawalsWithin(st, evs, s)
    requires RunCapped(st, evs, s, caps) && bound.cost <= CostCap(caps)
    ensures RunSeconds(st, evs, s) >= 0
    ensures var seconds := RunSeconds(st, evs, s);
            RunBound(st, evs, s, bound).slack as real
              <= (bound.slack + |evs| * EventCap(caps) + seconds * SecondCap(caps)) as real
                 * Growth(RateCap(caps), seconds)
    decreases |evs|
  {
    hide *;
    SlackOf(st, bound);
    if evs == [] {
      NoEvents(st, s, bound, caps);
    } else {
      var ev, n := evs[0], Elapsed(st, evs[0]);
      RunSplits(st, evs, s, bound, caps);
      EventWithin(st, ev, s, bound, caps);
      var after, next := Next(st, ev, s), NextBound(st, ev, s, bound);
      SlackStaysSmall(after, evs[1..], s, next, caps);
      SlackStep(bound.slack, LinearInterest(st.reserve.liquidityRate, n) - RAY, n * RateCap(caps), next.slack,
                EventCap(caps) + n * SecondCap(caps));
      RunJoins(bound.slack, next.slack, RunBound(st, evs, s, bound).slack, |evs|, n, RunSeconds(after, evs[1..], s), caps);
    }
  }

  lemma NoEvents(st: State, s: Strategy, bound: Bound, caps: Caps)
    requires CoveredState(st, bound) && s.Sound() && AllowedRun(st, [], s) && WithdrawalsWithin(st, [], s)
    ensures RunSeconds(st, [], s) == 0 && RunBound(st, [], s, bound) == bound
    ensures bound.slack as real <= (bound.slack + 0 * EventCap(caps) + 0 * SecondCap(caps)) as real * Growth(RateCap(caps), 0)
  {
    hide CoveredState, EventCap, SecondCap, RateCap;
    assert 0 * EventCap(caps) == 0 && 0 * SecondCap(caps) == 0;
  }

  lemma SlackOf(st: State, bound: Bound)
    requires CoveredState(st, bound)
    ensures bound.slack >= 0 && Valid(st) && StableDated(st.reserve)
  {
  }

  lemma RunJoins(slack: int, next: int, end: int, events: nat, n: int, rest: int, caps: Caps)
    requires slack >= 0 && events > 0 && n >= 0 && rest >= 0
    requires RAY * (next - slack - (EventCap(caps) + n * SecondCap(caps))) <= slack * (n * RateCap(caps))
    requires end as real <= (next + (events - 1) * EventCap(caps) + rest * SecondCap(caps)) as real * Growth(RateCap(caps), rest)
    ensures end as real <= (slack + events * EventCap(caps) + (n + rest) * SecondCap(caps)) as real
                           * Growth(RateCap(caps), n + rest)
  {
    hide Pow, EventCap, SecondCap, RateCap, Fraction;
    CapsNonNegative(caps);
    var e, c, g := EventCap(caps), SecondCap(caps), RateCap(caps);
    assert Fraction(g) >= 0.0 by { FractionNonNegative(g); }
    ProductNonNegative(n, c);
    ProductNonNegative(rest, c);
    ProductNonNegative(events - 1, e);
    StepGrows(slack, next, e, n * c, g, n);
    PowAtLeastOne(Fraction(g), n);
    PowAtLeastOne(Fraction(g), rest);
    PowAdds(1.0 + Fraction(g), n, rest);
    var others := (events - 1) * e + rest * c;
    CapsAdd(events, e, n, rest, c);
    GrowthJoins((slack + (e + n * c)) as real, next as real, others as real, end as real, Growth(g, n), Growth(g, rest));
  }

  lemma CapsAdd(events: int, e: int, n: int, rest: int, c: int)
    ensures events * e + (n + rest) * c == e + n * c + ((events - 1) * e + rest * c)
  {
  }

  lemma FractionNonNegative(g: int)
    requires g >= 0
    ensures Fraction(g) >= 0.0
  {
  }

  lemma GrowthJoins(first: real, next: real, others: real, end: real, grown: real, later: real)
    requires others >= 0.0 && grown >= 1.0 && later >= 1.0
    requires next <= first * grown && end <= (next + others) * later
    ensures end <= (first + others) * (grown * later)
  {
    RealScale(1.0, grown, others);
    RealScale(next + others, first * grown + others * grown, later);
    assert later * (first * grown + others * grown) == (first + others) * (grown * later);
  }
}
