/** The two descriptions of a supplier's balance after a deposit or a withdrawal, and the
    indices at which the comparison's tolerance of three covers their difference.

    The old balance plus or minus the amount and the new scaled balance times the new index
    differ by a rounding whose remainders are multiples of the greatest common divisor of the
    index and one ray; that divisor decides the exact range. */
module Tolerance {
  import opened FixedPoint
  import opened Accrual
  import opened RateModel
  import opened Reserves
  import opened Soundness
  import opened Ledger
  import opened Supply

  const TOLERANCE: int := 3

  // ---- Common divisors ----

  function Gcd(a: nat, b: nat): nat
    decreases b
  {
    if b == 0 then a else Gcd(b, a % b)
  }

  /** The quotients of a and b by their greatest common divisor. */
  lemma {:induction false} GcdDivides(a: nat, b: nat) returns (k: int, m: int)
    requires a > 0 || b > 0
    ensures Gcd(a, b) > 0 && a == k * Gcd(a, b) && b == m * Gcd(a, b)
    decreases b
  {
    if b == 0 {
      k, m := 1, 0;
    } else {
      var q, r := GcdDivides(b, a % b);
      var g := Gcd(b, a % b);
      k, m := (a / b) * q + r, q;
      DividendIsMultiple(a, b, q, r, g);
    }
  }

  lemma DividendIsMultiple(a: int, b: int, q: int, r: int, g: int)
    requires b > 0 && b == q * g && a % b == r * g
    ensures a == ((a / b) * q + r) * g
  {
    var d := a / b;
    assert a == b * d + r * g;
    assert b * d == (d * q) * g;
  }

  /** The divisor is an integral combination of both. */
  lemma {:induction false} GcdCombines(a: nat, b: nat) returns (x: int, y: int)
    ensures a * x + b * y == Gcd(a, b)
    decreases b
  {
    if b == 0 {
      x, y := 1, 0;
    } else {
      var u, v := GcdCombines(b, a % b);
      x, y := v, u - (a / b) * v;
      assert b * ((a / b) * v) == (b * (a / b)) * v;
    }
  }

  /** Every multiple of the divisor is a non-negative multiple of a less one of b. */
  lemma GcdReaches(a: nat, b: nat, n: nat) returns (x: nat, y: nat)
    requires a > 0 && b > 0
    ensures a * x - b * y == n * Gcd(a, b)
  {
    var u, v := GcdCombines(a, b);
    var shift := Abs(n * u) + Abs(n * v);
    ProductMonotone(1, b, shift);
    ProductMonotone(1, a, shift);
    x, y := n * u + b * shift, a * shift - n * v;
    ShiftCancels(a, b, n, u, v, shift);
  }

  lemma ShiftCancels(a: int, b: int, n: int, u: int, v: int, shift: int)
    ensures a * (n * u + b * shift) - b * (a * shift - n * v) == n * (a * u + b * v)
  {
    assert a * (b * shift) == b * (a * shift);
    assert a * (n * u) == n * (a * u) && b * (n * v) == n * (b * v);
  }

  lemma MultipleBelow(g: int, k: int, m: int)
    requires g > 0 && k * g < m * g + g
    ensures k * g <= m * g
  {
    if k > m {
      ProductMonotone(m + 1, k, g);
    }
  }

  // ---- The gap between the descriptions ----

  /** How far a scaled step of d lands from the balance moved by the amount. */
  function ScaledGap(s: int, amount: int, index: int): int
    requires index != 0
  {
    RayMul(s + RayDiv(amount, index), index) - (RayMul(s, index) + amount)
  }

  function TakenGap(s: int, amount: int, index: int): int
    requires index != 0
  {
    RayMul(s - RayDiv(amount, index), index) - (RayMul(s, index) - amount)
  }

  /** The greatest index, exclusive, at which no step is off by more than the tolerance. */
  function Limit(index: nat): int { 6 * RAY + 2 * Gcd(index, RAY) }

  /** Unscaling misses the amount by a multiple of the divisor of at most half an index; below
      the limit that is at most three rays. */
  lemma UnscalingMisses(amount: int, index: int)
    requires amount >= 0 && RAY <= index < Limit(index)
    ensures -3 * RAY <= RayDiv(amount, index) * index - amount * RAY <= 3 * RAY
  {
    hide RayDiv, Gcd;
    var d, g := RayDiv(amount, index), Gcd(index, RAY);
    var k, m := GcdDivides(index, RAY);
    RayDivNearest(amount, index);
    var j := d * k - amount * m;
    assert d * index - amount * RAY == j * g by {
      assert d * (k * g) == (d * k) * g && amount * (m * g) == (amount * m) * g;
    }
    assert d * index == index * d;
    assert 3 * RAY == (3 * m) * g;
    MultipleBelow(g, j, 3 * m);
    MultipleBelow(g, -j, 3 * m);
  }

  lemma StepsWithinTolerance(s: int, amount: int, index: int)
    requires s >= 0 && amount >= 0 && RAY <= index < Limit(index)
    ensures Abs(ScaledGap(s, amount, index)) <= TOLERANCE
    ensures RayDiv(amount, index) <= s ==> Abs(TakenGap(s, amount, index)) <= TOLERANCE
  {
    hide RayDiv, RayMul, Limit;
    var d := RayDiv(amount, index);
    UnscalingMisses(amount, index);
    RayDivNearest(amount, index);
    ScaledBounds(s, index);
    ScaledBounds(s + d, index);
    assert (s + d) * index == s * index + d * index;
    if d <= s {
      ScaledBounds(s - d, index);
      assert (s - d) * index == s * index - d * index;
    }
  }

  lemma ScaledBounds(s: int, index: int)
    requires s >= 0 && index >= 0
    ensures RAY * RayMul(s, index) <= RAY / 2 + s * index < RAY * RayMul(s, index) + RAY
  {
    ProductNonNegative(s, index);
    QuotientBounds(RAY / 2 + s * index, RAY);
  }

  /** At the limit and beyond some deposit is off by four: the balance leaves the largest
      remainder, the amount the largest miss. */
  lemma SomeStepMissesFour(index: int) returns (s: nat, amount: nat)
    requires index >= RAY && index >= Limit(index)
    ensures ScaledGap(s, amount, index) >= 4
  {
    hide RayDiv, RayMul, Gcd;
    var g := Gcd(index, RAY);
    var k, m := GcdDivides(index, RAY);
    LargestBelowHalf(g);
    var low: nat := (RAY / 2 - 1) / g;
    var t, d: nat;
    s, t := GcdReaches(index, RAY, low);
    d, amount := GcdReaches(index, RAY, 3 * m + 1);
    assert (3 * m + 1) * g == 3 * RAY + g;
    UnscalesTo(amount, index, d, 3 * RAY + g);
    GapOfFour(s, amount, index, d, t, low * g, g);
  }

  lemma LargestBelowHalf(g: int)
    requires g > 0
    ensures (RAY / 2 - 1) / g >= 0
    ensures RAY / 2 - g <= ((RAY / 2 - 1) / g) * g < RAY / 2
  {
    QuotientBounds(RAY / 2 - 1, g);
  }

  lemma GapOfFour(s: int, amount: int, index: int, d: int, t: int, low: int, g: int)
    requires s >= 0 && d >= 0 && index > 0 && RayDiv(amount, index) == d
    requires index * s - RAY * t == low && RAY / 2 - g <= low < RAY / 2
    requires index * d - RAY * amount == 3 * RAY + g
    ensures ScaledGap(s, amount, index) >= 4
  {
    hide RayDiv, RayMul;
    ScaledBounds(s, index);
    ScaledBounds(s + d, index);
    assert (s + d) * index == index * s + index * d;
    assert s * index == index * s;
  }

  lemma UnscalesTo(amount: int, index: int, d: int, miss: int)
    requires amount >= 0 && index > 0 && index * d - RAY * amount == miss
    requires 0 <= miss && 2 * miss <= index
    ensures RayDiv(amount, index) == d
  {
    QuotientUnique(index / 2 + amount * RAY, index, d);
  }

  // ---- The calculators ----

  /** The difference between the two descriptions of the balance the calculators expect. */
  function DescriptionGap(e: Reserve, v: User): int {
    Abs(v.currentATokenBalance - RayMul(v.scaledATokenBalance, e.liquidityIndex))
  }

  /** What the supplier is shown beyond the scaled balance at the stored index: nothing while the
      income indices agree. */
  function Excess(r: Reserve, u: User, now: int): int {
    ATokenBalance(r, u, now) - RayMul(u.scaledATokenBalance, LiquidityIndexAt(r, now))
  }

  lemma NoExcessWhileIdle(r: Reserve, u: User, now: int)
    requires Sound(r, now) && IdlePaysNothing(r)
    ensures Excess(r, u, now) == 0
  {
    hide RayMul, NormalizedIncome, LiquidityIndexAt;
    IncomeIsLiquidityIndex(r, now);
  }

  ghost predicate SupplyStep(st: State, ev: Event, s: Strategy) {
    && Valid(st) && s.Sound() && Allowed(st, ev)
    && SuppliesNonNegative(st.accounts) && WithdrawsWithin(st.reserve, ev)
    && (ev.action.Deposit? || ev.action.Withdraw?)
  }

  lemma StepDefined(st: State, ev: Event, s: Strategy)
    requires SupplyStep(st, ev, s)
    ensures Defined(st.reserve, ev, s)
    ensures var e := NextReserve(st.reserve, ev, s);
            e.liquidityIndex == LiquidityIndexAt(st.reserve, ev.time) >= RAY && e.variableBorrowIndex >= RAY
  {
    hide RayMul, RayDiv, LiquidityIndexAt, VariableIndexAt, NormalizedIncome, TotalStableDebtAt, UtilizationRate, InterestRates,
         VariableDebtBalance, UserStableDebt;
    StepIsSound(st, ev, s);
    IndicesGrow(st.reserve, ev.time);
  }

  /** Both ways of describing a supplier's balance after a deposit or a withdrawal differ, apart
      from an excess shown before it, by at most one plus half an index, and below the limit by
      at most the tolerance. */
  lemma TwoDescriptionsAgree(st: State, ev: Event, s: Strategy)
    requires SupplyStep(st, ev, s)
    ensures Defined(st.reserve, ev, s)
    ensures var e := NextReserve(st.reserve, ev, s); e.liquidityIndex >= RAY && e.variableBorrowIndex >= RAY
    ensures var e := NextReserve(st.reserve, ev, s);
            var v := NextUser(st.reserve, e, ev, s);
            var described, scaled := v.currentATokenBalance - Excess(st.reserve, ev.user, ev.time),
                                     RayMul(v.scaledATokenBalance, e.liquidityIndex);
            && WithinStep(described, scaled, e.liquidityIndex)
            && (e.liquidityIndex < Limit(e.liquidityIndex) ==> Abs(described - scaled) <= TOLERANCE)
  {
    hide RayMul, RayDiv, LiquidityIndexAt, VariableIndexAt, NormalizedIncome, TotalStableDebtAt, UtilizationRate, InterestRates,
         VariableDebtBalance, UserStableDebt, Limit, ATokenBalance, WithdrawAmount;
    StepDefined(st, ev, s);
    var r, u, t := st.reserve, ev.user, ev.time;
    var index := LiquidityIndexAt(r, t);
    RayDivOfZero(index);
    match ev.action
    case Deposit(amount) =>
      ScaledStepError(u.scaledATokenBalance, amount, index);
      if index < Limit(index) { StepsWithinTolerance(u.scaledATokenBalance, amount, index); }
    case Withdraw(amount) =>
      var taken := WithdrawAmount(r, u, amount, t);
      ScaledStepError(u.scaledATokenBalance, taken, index);
      if index < Limit(index) { StepsWithinTolerance(u.scaledATokenBalance, taken, index); }
  }

  /** The comparison accepts every deposit and withdrawal at this index of a supplier shown no
      excess. */
  ghost predicate ToleranceCovers(index: int) {
    forall st: State, ev: Event, s: Strategy ::
      SupplyStep(st, ev, s) && AtIndex(st, ev, index) ==> Accepted(st, ev, s)
  }

  /** The action stores this index, and its supplier is shown no excess. */
  ghost predicate AtIndex(st: State, ev: Event, index: int) {
    LiquidityIndexAt(st.reserve, ev.time) == index && Excess(st.reserve, ev.user, ev.time) == 0
  }

  ghost predicate Accepted(st: State, ev: Event, s: Strategy)
    requires SupplyStep(st, ev, s)
  {
    StepDefined(st, ev, s);
    var e := NextReserve(st.reserve, ev, s);
    DescriptionGap(e, NextUser(st.reserve, e, ev, s)) <= TOLERANCE
  }

  /** A reserve nobody borrows from, with one supplier. */
  function Unborrowed(index: int): Reserve {
    Reserve(0, 0, 0, 0, 0, 0, 0, 0, 0, 0, 0, index, RAY, 0, 0, 0)
  }

  function OneSupplier(index: int, scaled: int): State { State(Unborrowed(index), [Account(scaled, 0)], 0) }

  function FirstDeposit(scaled: int, amount: int): Event {
    Event(Deposit(amount), 0, User(scaled, 0, 0, 0, 0, 0, 0, 0), 0)
  }

  lemma OneSupplierMay(index: int, scaled: nat, amount: nat, s: Strategy)
    requires index >= RAY && s.Sound()
    ensures SupplyStep(OneSupplier(index, scaled), FirstDeposit(scaled, amount), s)
    ensures AtIndex(OneSupplier(index, scaled), FirstDeposit(scaled, amount), index)
  {
    hide RayMul, RayDiv;
    var st := OneSupplier(index, scaled);
    assert TotalDebt(st.accounts) == 0 by { assert st.accounts[1..] == []; }
  }

  /** A deposit while no excess is shown is accepted exactly if its scaled step is close. */
  lemma DepositAccepted(st: State, ev: Event, s: Strategy, index: int)
    requires SupplyStep(st, ev, s) && ev.action.Deposit? && AtIndex(st, ev, index)
    ensures index >= RAY
    ensures Accepted(st, ev, s) <==> Abs(ScaledGap(ev.user.scaledATokenBalance, ev.action.amount, index)) <= TOLERANCE
  {
    hide RayMul, RayDiv, LiquidityIndexAt, VariableIndexAt, NormalizedIncome, TotalStableDebtAt, UtilizationRate, InterestRates,
         VariableDebtBalance, UserStableDebt, ATokenBalance, SupplyStep;
    StepDefined(st, ev, s);
    RayDivOfZero(index);
  }

  /** The tolerance of three covers every deposit and withdrawal of suppliers shown no excess, of
      every reserve and user, at exactly the indices below six rays plus twice the divisor the index shares with a ray. */
  lemma ToleranceCoversExactly(index: int)
    requires index >= RAY
    ensures ToleranceCovers(index) <==> index < Limit(index)
  {
    if index < Limit(index) {
      forall st: State, ev: Event, s: Strategy | SupplyStep(st, ev, s) && AtIndex(st, ev, index)
        ensures Accepted(st, ev, s)
      {
        hide SupplyStep, Limit, LiquidityIndexAt, Excess, RayMul;
        StepDefined(st, ev, s);
        TwoDescriptionsAgree(st, ev, s);
      }
    } else {
      hide Limit, SupplyStep, Accepted, AtIndex, ScaledGap;
      var scaled, amount := SomeStepMissesFour(index);
      OneSupplierMay(index, scaled, amount, FLAT);
      DepositAccepted(OneSupplier(index, scaled), FirstDeposit(scaled, amount), FLAT, index);
      assert !Accepted(OneSupplier(index, scaled), FirstDeposit(scaled, amount), FLAT);
    }
  }

  /** A reserve without debt that pays a ray a year. */
  function Overpaying(index: int): Reserve { Unborrowed(index).(liquidityRate := RAY) }

  /** With an excess no index is covered: an idle reserve that pays shows a supplier twice the
      balance after a year, and the next deposit is refused. */
  lemma ExcessIsNeverCovered(index: int) returns (st: State, ev: Event)
    requires index >= RAY
    ensures SupplyStep(st, ev, FLAT) && LiquidityIndexAt(st.reserve, ev.time) == index
    ensures Excess(st.reserve, ev.user, ev.time) > TOLERANCE && !Accepted(st, ev, FLAT)
  {
    hide RayMul, RayDiv, VariableIndexAt, TotalStableDebtAt, UtilizationRate, InterestRates, VariableDebtBalance, UserStableDebt;
    st := State(Overpaying(index), [Account(8, 0)], 0);
    ev := FirstDeposit(8, 0).(time := ONE_YEAR);
    assert TotalDebt(st.accounts) == 0 by { assert st.accounts[1..] == []; }
    RayDivOfZero(index);
    StepDefined(st, ev, FLAT);
    assert LinearInterest(RAY, ONE_YEAR) == 2 * RAY;
    ScaledBounds(2 * RAY, index);
    assert RayMul(2 * RAY, index) == 2 * index;
    ScaledBounds(8, 2 * index);
    ScaledBounds(8, index);
  }

  /** At whole rays the limit is eight. */
  lemma WholeRays(k: nat)
    requires k > 0
    ensures ToleranceCovers(k * RAY) <==> k < 8
  {
    hide ToleranceCovers;
    ToleranceCoversExactly(k * RAY);
    assert Gcd(k * RAY, RAY) == RAY by {
      assert (k * RAY) % RAY == 0;
    }
  }
}
