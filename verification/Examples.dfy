/** A worked year: a borrow under a configured strategy, read 365 days later, to the unit. */
module Examples {
  import opened FixedPoint
  import opened Accrual
  import opened RateModel
  import opened Reserves
  import opened Soundness

  /** The strategy and reserve factor configured for DAI. */
  const DAI: Strategy := Strategy(9 * RAY / 10, 0, 0, RAY / 5, 0, 0, 1000)

  /** A thousand units of cash, never borrowed from. */
  const FUNDED: Reserve := Reserve(1000 * WAD, 1000 * WAD, 0, 0, 0, 0, 0, 0, 0, 0, 0, RAY, RAY, 0, 0, 0)

  /** After borrowing 950 of them: utilization 95%, a tenth of a ray for borrowers, of which the
      reserve factor keeps a tenth. */
  const BORROWED: Reserve :=
    Reserve(1000 * WAD, 50 * WAD, 0, 950 * WAD, 0, 950 * WAD, 0, 855 * RAY / 10000, 0, RAY / 10, 95 * RAY / 100,
            RAY, RAY, 0, 0, 0)

  const BORROWER: User := User(0, 0, 0, 0, 0, 0, 0, 0)

  /** The year's compounding factor at a tenth, and the debt it makes of 950 units. */
  const YEAR_FACTOR: int := 1_105_167_270_015_202_188_556_648_000
  const YEAR_DEBT: int := 1_049_908_906_514_442_079_129

  lemma Balances()
    ensures VariableIndexAt(FUNDED, 0) == RAY && LiquidityIndexAt(FUNDED, 0) == RAY
    ensures BorrowBalances(FUNDED, Variable, 950 * WAD, 0)
         == BORROWED.(liquidityRate := 0, variableBorrowRate := 0, utilizationRate := 0)
  {
    hide CompoundedInterest, LinearInterest;
    RayMulByOne(950 * WAD);
    assert RayDiv(950 * WAD, RAY) == 950 * WAD by { RayRecovery(950 * WAD, RAY); }
  }

  lemma BorrowRates()
    ensures UtilizationRate(0, 950 * WAD, 1000 * WAD) == 95 * RAY / 100
    ensures InterestRates(DAI, 0, 95 * RAY / 100, 0, 950 * WAD, 0) == Rates(855 * RAY / 10000, 0, RAY / 10)
  {
    hide OverallBorrowRate, VariableRate, StableRate, LiquidityRate, RayDiv;
    Utilized();
    OnUpperArm();
    Overall();
    Shared();
  }

  lemma Utilized()
    ensures RayDiv(950 * WAD, 1000 * WAD) == 95 * RAY / 100
  {
  }

  lemma OnUpperArm()
    ensures VariableRate(DAI, 95 * RAY / 100) == RAY / 10 && StableRate(DAI, 0, 95 * RAY / 100) == 0
  {
    hide RayMul, RayDiv;
    HalfWay();
  }

  lemma HalfWay()
    ensures RayDiv(5 * RAY / 100, RAY / 10) == RAY / 2 && RayMul(RAY / 5, RAY / 2) == RAY / 10 && RayMul(0, RAY / 2) == 0
  {
    QuotientUnique(RAY / 20 + 5 * RAY / 100 * RAY, RAY / 10, RAY / 2);
    QuotientUnique(RAY / 2 + RAY / 5 * (RAY / 2), RAY, RAY / 10);
  }

  lemma Overall()
    ensures OverallBorrowRate(0, 950 * WAD, RAY / 10, 0) == RAY / 10
  {
  }

  lemma Shared()
    ensures LiquidityRate(DAI, RAY / 10, 95 * RAY / 100) == 855 * RAY / 10000
  {
  }

  /** A tenth of a ray per second, and its powers. */
  const PER_SECOND: int := 3_170_979_198_376_458_650
  const SQUARED: int := 10_055_109_077

  lemma YearPowers()
    ensures TruncDiv(RAY / 10, ONE_YEAR) == PER_SECOND
    ensures RayMul(PER_SECOND, PER_SECOND) == SQUARED && RayMul(SQUARED, PER_SECOND) == 32
  {
  }

  lemma FactorFromPowers(rate: int, n: nat, q: int, two: int, three: int)
    requires n > 2 && TruncDiv(rate, ONE_YEAR) == q && RayMul(q, q) == two && RayMul(two, q) == three
    ensures CompoundedInterest(rate, n)
         == RAY + q * n + TruncDiv(n * (n - 1) * two, 2) + TruncDiv(n * (n - 1) * (n - 2) * three, 6)
  {
    hide RayMul, TruncDiv;
  }

  lemma YearDebt()
    ensures RayMul(950 * WAD, RayMul(YEAR_FACTOR, RAY)) == YEAR_DEBT
  {
  }

  lemma YearIndex()
    ensures LiquidityIndexAt(BORROWED, ONE_YEAR) == 10855 * RAY / 10000
  {
    hide RayMul;
    QuotientUnique(855 * RAY / 10000 * ONE_YEAR, ONE_YEAR, 855 * RAY / 10000);
    RayMulByOne(10855 * RAY / 10000);
  }

  lemma YearRead()
    ensures DebtsAt(BORROWED, ONE_YEAR) == BORROWED.(totalVariableDebt := YEAR_DEBT, totalLiquidity := 50 * WAD + YEAR_DEBT)
    ensures VariableDebtBalance(BORROWED, BORROWER.(scaledVariableDebt := 950 * WAD), ONE_YEAR) == YEAR_DEBT
  {
    hide RayMul, CompoundedInterest;
    YearPowers();
    FactorFromPowers(RAY / 10, ONE_YEAR, PER_SECOND, SQUARED, 32);
    YearDebt();
    RayMulByZero(CompoundedInterest(0, ONE_YEAR));
  }

  lemma YearUtilization()
    ensures UtilizationRate(0, YEAR_DEBT, 50 * WAD + YEAR_DEBT) == 954_541_690_040_089_253_981_790_209
  {
  }

  /** The reserve and the borrower a year after: rates as priced at the transaction, debts and
      utilization of the read time, and what suppliers have earned. */
  lemma YearOfBorrowing()
    ensures VariableIndexAt(FUNDED, 0) != 0 && Priced(BorrowBalances(FUNDED, Variable, 950 * WAD, 0))
    ensures Priced(DebtsAt(Repriced(BorrowBalances(FUNDED, Variable, 950 * WAD, 0), DAI), ONE_YEAR))
    ensures var e := AfterBorrow(FUNDED, Variable, 950 * WAD, 0, ONE_YEAR, DAI);
            && e.variableBorrowRate == RAY / 10 && e.liquidityRate == 855 * RAY / 10000
            && e.totalVariableDebt == YEAR_DEBT && e.totalLiquidity == 50 * WAD + YEAR_DEBT
            && e.utilizationRate == 954_541_690_040_089_253_981_790_209
            && LiquidityIndexAt(e, ONE_YEAR) == 10855 * RAY / 10000
            && e.variableBorrowIndex != 0
            && UserAfterBorrow(FUNDED, e, BORROWER, Variable, 950 * WAD, 0, ONE_YEAR).currentVariableDebt == YEAR_DEBT
  {
    hide BorrowBalances, InterestRates, LiquidityIndexAt, DebtsAt, UtilizationRate, RayMul, CompoundedInterest, VariableDebtBalance, ATokenBalance,
         UserStableDebt, VariableIndexAt;
    Balances();
    BorrowRates();
    assert Repriced(BorrowBalances(FUNDED, Variable, 950 * WAD, 0), DAI) == BORROWED;
    YearRead();
    YearUtilization();
    YearIndex();
    RayRecovery(950 * WAD, RAY);
    RayMulByOne(950 * WAD);
    var e := AfterBorrow(FUNDED, Variable, 950 * WAD, 0, ONE_YEAR, DAI);
    SameDebt(e, BORROWED, BORROWER.(scaledVariableDebt := 950 * WAD));
    SameIndex(e, BORROWED);
  }

  lemma SameIndex(e: Reserve, r: Reserve)
    requires e.liquidityRate == r.liquidityRate && e.liquidityIndex == r.liquidityIndex
    requires e.lastUpdateTimestamp == r.lastUpdateTimestamp && e.utilizationRate != 0 && r.utilizationRate != 0
    ensures LiquidityIndexAt(e, ONE_YEAR) == LiquidityIndexAt(r, ONE_YEAR)
  {
    hide RayMul, LinearInterest;
  }

  lemma SameDebt(e: Reserve, r: Reserve, u: User)
    requires e.variableBorrowRate == r.variableBorrowRate && e.variableBorrowIndex == r.variableBorrowIndex
    requires e.lastUpdateTimestamp == r.lastUpdateTimestamp
    ensures VariableDebtBalance(e, u, ONE_YEAR) == VariableDebtBalance(r, u, ONE_YEAR)
    ensures forall v: User :: v.scaledVariableDebt == u.scaledVariableDebt ==>
              VariableDebtBalance(e, v, ONE_YEAR) == VariableDebtBalance(r, u, ONE_YEAR)
  {
    hide RayMul, CompoundedInterest;
  }
}
